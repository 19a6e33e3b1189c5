/** `np.argmin` over a list of non-negative reals that may contain `np.inf`. */
module Extremum {

  /** A distance: finite, or `np.inf`. */
  datatype Ext = Fin(v: real) | Inf

  predicate Le(a: Ext, b: Ext)
  {
    b.Inf? || (a.Fin? && a.v <= b.v)
  }

  predicate Lt(a: Ext, b: Ext)
  {
    !Le(b, a)
  }

  /** The first index holding the least value. */
  function ArgMin(s: seq<Ext>): (i: nat)
    requires |s| > 0
    ensures i < |s|
    ensures forall j :: 0 <= j < |s| ==> Le(s[i], s[j])
    ensures forall j :: 0 <= j < i ==> Lt(s[i], s[j])
  {
    if |s| == 1 then 0
    else
      var k := 1 + ArgMin(s[1..]);
      if Le(s[0], s[k]) then 0 else k
  }
}
