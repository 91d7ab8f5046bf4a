// Different numbers from a range cannot be more than the range holds.
module Counting {
  ghost predicate Distinct(cs: seq<nat>) { forall i, j :: 0 <= i < j < |cs| ==> cs[i] != cs[j] }

  lemma Pigeonhole(cs: seq<nat>, lo: nat, hi: nat)
    requires lo <= hi && Distinct(cs) && forall i :: 0 <= i < |cs| ==> lo <= cs[i] < hi
    ensures |cs| <= hi - lo
  {
    Elements(cs);
    RangeSize(lo, hi);
    forall c | c in SetOf(cs) ensures c in Range(lo, hi) {}
    SubsetSize(SetOf(cs), Range(lo, hi));
  }

  ghost function SetOf(cs: seq<nat>): set<nat> {
    if cs == [] then {} else SetOf(cs[..|cs| - 1]) + {cs[|cs| - 1]}
  }

  lemma {:induction false} Elements(cs: seq<nat>)
    ensures forall c :: c in SetOf(cs) <==> c in cs
    ensures Distinct(cs) ==> |SetOf(cs)| == |cs|
  {
    if cs != [] { Elements(cs[..|cs| - 1]); }
  }

  ghost function Range(lo: nat, hi: nat): set<nat> {
    if lo >= hi then {} else Range(lo, hi - 1) + {hi - 1}
  }

  lemma {:induction false} RangeSize(lo: nat, hi: nat)
    ensures forall c :: c in Range(lo, hi) <==> lo <= c < hi
    ensures lo <= hi ==> |Range(lo, hi)| == hi - lo
    decreases hi
  {
    if lo < hi { RangeSize(lo, hi - 1); }
  }

  lemma {:induction false} SubsetSize(s: set<nat>, t: set<nat>)
    requires s <= t
    ensures |s| <= |t|
    decreases s
  {
    if s != {} {
      var x :| x in s;
      SubsetSize(s - {x}, t - {x});
    }
  }
}
