/** The two height clamps of the terrain: ApplyCoastFalloff lowers the land
    towards the edges but never below 0.1, and GenerateOceanFloorNoise never
    lets the ocean floor go below 0. The noise matrices and the falloff
    values pow(distance / maxRadius, CoastFalloffStrength) are inputs. */
module TerrainHeights {
  import opened Reals
  import opened TerrainVertices

  /** One cell of ApplyCoastFalloff: the noise scaled by 1 - falloff,
      raised to 0.1 when below it. */
  function CoastHeight(noise: real, falloff: real): (r: real)
    ensures r >= 0.1
    ensures r >= noise * (1.0 - falloff)
    ensures r == 0.1 || r == noise * (1.0 - falloff)
  {
    MaxReal(noise * (1.0 - falloff), 0.1)
  }

  /** ApplyCoastFalloff over a whole map. */
  function ApplyCoastFalloff(noise: Grid, falloff: Grid, w: int, h: int): (r: Grid)
    requires IsGrid(noise, w, h) && IsGrid(falloff, w, h) && h >= 0
    ensures IsGrid(r, w, h)
    ensures forall x, z :: 0 <= x < w && 0 <= z < h ==> r[x][z] >= 0.1
    ensures forall x, z :: 0 <= x < w && 0 <= z < h ==> r[x][z] == CoastHeight(noise[x][z], falloff[x][z])
  {
    seq(w, x requires 0 <= x < w => seq(h, z requires 0 <= z < h => CoastHeight(noise[x][z], falloff[x][z])))
  }

  /** One cell of GenerateOceanFloorNoise: the ocean noise scaled by
      1 - coast height and by 5, raised to 0 when negative. */
  function OceanFloorDepth(ocean: real, coast: real): (r: real)
    ensures r >= 0.0
    ensures r >= ocean * (1.0 - coast) * 5.0
    ensures r == 0.0 || r == ocean * (1.0 - coast) * 5.0
  {
    MaxReal(ocean * (1.0 - coast) * 5.0, 0.0)
  }

  /** GenerateOceanFloorNoise over a whole map. */
  function GenerateOceanFloor(ocean: Grid, coast: Grid, w: int, h: int): (r: Grid)
    requires IsGrid(ocean, w, h) && IsGrid(coast, w, h) && h >= 0
    ensures IsGrid(r, w, h)
    ensures forall x, z :: 0 <= x < w && 0 <= z < h ==> r[x][z] >= 0.0
    ensures forall x, z :: 0 <= x < w && 0 <= z < h ==> r[x][z] == OceanFloorDepth(ocean[x][z], coast[x][z])
  {
    seq(w, x requires 0 <= x < w => seq(h, z requires 0 <= z < h => OceanFloorDepth(ocean[x][z], coast[x][z])))
  }

  /** At the centre (falloff 0) the land keeps its noise height unless that is
      below 0.1; at the far corner (falloff 1) it is flattened to 0.1. */
  lemma CoastHeightEnds(noise: real)
    ensures CoastHeight(noise, 0.0) == if noise >= 0.1 then noise else 0.1
    ensures CoastHeight(noise, 1.0) == 0.1
  {
  }

  /** For non-negative noise a larger falloff never gives a higher cell: the
      land slopes down towards the coast. */
  lemma CoastHeightMonotone(noise: real, f1: real, f2: real)
    requires noise >= 0.0 && f1 <= f2
    ensures CoastHeight(noise, f2) <= CoastHeight(noise, f1)
  {
    assert noise * (1.0 - f1) - noise * (1.0 - f2) == noise * (f2 - f1);
    NonNegativeProduct(noise, f2 - f1);
  }

  /** Since every coast height is at least 0.1, the factor 1 - coast is at most
      0.9: non-negative ocean noise gives a floor of at most 4.5 times the
      noise, and none at all where the land reaches height 1. */
  lemma OceanFloorBounds(ocean: real, coast: real)
    requires ocean >= 0.0 && coast >= 0.1
    ensures OceanFloorDepth(ocean, coast) <= 4.5 * ocean
    ensures coast >= 1.0 ==> OceanFloorDepth(ocean, coast) == 0.0
  {
    assert ocean * (1.0 - coast) <= ocean * 0.9 by {
      assert ocean * 0.9 - ocean * (1.0 - coast) == ocean * (coast - 0.1);
    }
    if coast >= 1.0 {
      assert ocean * (1.0 - coast) <= 0.0 by {
        assert ocean * (1.0 - coast) == -(ocean * (coast - 1.0));
      }
    }
  }

  /** The heights the meshes are built from: every land vertex of
      GenerateVertices sits at least 0.1 times the height scale high, and
      every water vertex at most 20 high. */
  lemma MeshHeightBounds(noise: Grid, falloff: Grid, ocean: Grid, heightScale: real, w: int, h: int)
    requires IsGrid(noise, w, h) && IsGrid(falloff, w, h) && IsGrid(ocean, w, h)
    requires w >= 0 && h >= 0 && heightScale >= 0.0
    ensures var coast := ApplyCoastFalloff(noise, falloff, w, h);
            var v := GenerateVertices(coast, GenerateOceanFloor(ocean, coast, w, h), heightScale, w, h);
            && (forall i :: 0 <= i < |v.0| ==> v.0[i].y >= 0.1 * heightScale)
            && (forall i :: 0 <= i < |v.1| ==> v.1[i].y <= 20.0)
  {
    var coast := ApplyCoastFalloff(noise, falloff, w, h);
    var floor := GenerateOceanFloor(ocean, coast, w, h);
    var v := GenerateVertices(coast, floor, heightScale, w, h);
    forall i | 0 <= i < |v.0| ensures v.0[i].y >= 0.1 * heightScale {
      var x, z := v.0[i].x, v.0[i].z;
      assert v.0[i].y == coast[x][z] * heightScale;
      assert coast[x][z] * heightScale - 0.1 * heightScale == (coast[x][z] - 0.1) * heightScale;
    }
    forall i | 0 <= i < |v.1| ensures v.1[i].y <= 20.0 {
      var x, z := v.1[i].x, v.1[i].z;
      assert v.1[i].y == 20.0 - floor[x][z];
    }
  }
}
