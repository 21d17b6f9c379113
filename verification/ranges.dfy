/** RangeModel: a closed interval fixed at construction, with a membership
    test. Floats are modelled as reals. */
module Ranges {

  /** Min and Max are set once by the constructor; neither has a setter. */
  datatype Range = Range(min: real, max: real)

  /** Fits: the value lies between the bounds, both included. Only a range
      whose Min does not exceed its Max can hold anything. */
  function Fits(r: Range, v: real): (b: bool)
    ensures b ==> r.min <= r.max
  {
    r.min <= v && v <= r.max
  }

  /** Both endpoints of a non-empty range fit; an inverted range holds nothing. */
  lemma Endpoints(r: Range)
    ensures r.min <= r.max <==> Fits(r, r.min)
    ensures r.min <= r.max <==> Fits(r, r.max)
    ensures r.min > r.max ==> forall v :: !Fits(r, v)
  {
  }

  /** Everything between two fitting values fits. */
  lemma FitsIsConvex(r: Range, a: real, b: real, v: real)
    requires Fits(r, a) && Fits(r, b) && a <= v <= b
    ensures Fits(r, v)
  {
  }
}
