/** Sequence helpers shared by the grounding links and the allocation views. */
module Sequences {

  /** The index of the first `x` in `s`. */
  function FirstIndex<T(==, !new)>(s: seq<T>, x: T): (i: nat)
    requires x in s
    ensures i < |s| && s[i] == x && x !in s[..i]
  {
    if s[0] == x then 0
    else
      var i := 1 + FirstIndex(s[1..], x);
      assert s[..i] == [s[0]] + s[1..][..i - 1];
      i
  }

  /** `Array.from(new Set(s))`: each value once, at its first occurrence. */
  function Dedup<T(==, !new)>(s: seq<T>): (r: seq<T>)
    ensures forall i, j :: 0 <= i < j < |r| ==> r[i] != r[j]
    ensures forall x :: x in r <==> x in s
    ensures forall i, j :: 0 <= i < j < |r| ==> FirstIndex(s, r[i]) < FirstIndex(s, r[j])
  {
    if s == [] then []
    else
      var init := s[..|s| - 1];
      var last := s[|s| - 1];
      var d := Dedup(init);
      assert s == init + [last];
      FirstIndexOfPrefix(init, last, d);
      if last in d then d else d + [last]
  }

  /** Appending to a list keeps the first positions of what it held. */
  lemma FirstIndexOfPrefix<T(!new)>(init: seq<T>, last: T, d: seq<T>)
    requires forall x :: x in d ==> x in init
    ensures forall x :: x in d ==> FirstIndex(init + [last], x) == FirstIndex(init, x)
    ensures last !in init ==> FirstIndex(init + [last], last) == |init|
  {
    var s := init + [last];
    forall x | x in d
      ensures FirstIndex(s, x) == FirstIndex(init, x)
    {
      var i, k := FirstIndex(init, x), FirstIndex(s, x);
      assert s[i] == x;
      assert s[..k] == init[..k] || k >= |init|;
    }
  }

  /** The first `n` values of `Dedup(s)` are distinct values of `s`, in the
      order of their first occurrence, and they come before every value of
      `s` left out. */
  lemma DedupPrefix<T(!new)>(s: seq<T>, n: nat)
    requires n <= |Dedup(s)|
    ensures var r := Dedup(s)[..n];
            && (forall i, j :: 0 <= i < j < |r| ==> r[i] != r[j])
            && (forall u :: u in r ==> u in s)
            && (forall i, j :: 0 <= i < j < |r| ==> FirstIndex(s, r[i]) < FirstIndex(s, r[j]))
            && (forall u, v :: u in s && u !in r && v in r ==> FirstIndex(s, v) < FirstIndex(s, u))
  {
    var all := Dedup(s);
    var r := all[..n];
    assert forall i :: 0 <= i < n ==> r[i] == all[i];
    forall u, v | u in s && u !in r && v in r
      ensures FirstIndex(s, v) < FirstIndex(s, u)
    {
      DedupPrefixBefore(s, n, u, v);
    }
  }

  /** A value among the first `n` of `Dedup(s)` occurs first before any
      value that is not. */
  lemma DedupPrefixBefore<T(!new)>(s: seq<T>, n: nat, u: T, v: T)
    requires n <= |Dedup(s)|
    requires u in s && u !in Dedup(s)[..n] && v in Dedup(s)[..n]
    ensures FirstIndex(s, v) < FirstIndex(s, u)
  {
    var all := Dedup(s);
    var a :| 0 <= a < n && all[..n][a] == v;
    assert all[a] == v;
    var b :| 0 <= b < |all| && all[b] == u;
  }
}
