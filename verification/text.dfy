/** String primitives of JavaScript that the core relies on: `toLowerCase`,
    `toUpperCase`, `includes`, `indexOf`, `lastIndexOf`, `endsWith`, `trim`,
    `replace` of one character or of all of them.  Every scan is written over
    an index into the string so that it can be evaluated on literal strings. */
module Text {
  import opened Wrappers

  predicate IsDigit(c: char) {
    '0' <= c <= '9'
  }

  /** Case mapping on the ASCII letters; every other character is left alone. */
  function LowerChar(c: char): char {
    if 'A' <= c <= 'Z' then (c as int + 32) as char else c
  }

  function UpperChar(c: char): char {
    if 'a' <= c <= 'z' then (c as int - 32) as char else c
  }

  function LowerFrom(s: string, i: nat): (r: string)
    requires i <= |s|
    ensures |r| == |s| - i
    ensures forall k :: 0 <= k < |r| ==> r[k] == LowerChar(s[i + k])
    decreases |s| - i
  {
    if i == |s| then [] else [LowerChar(s[i])] + LowerFrom(s, i + 1)
  }

  function ToLower(s: string): (r: string)
    ensures |r| == |s|
    ensures forall k :: 0 <= k < |s| ==> r[k] == LowerChar(s[k])
  {
    LowerFrom(s, 0)
  }

  /** Text without capital letters is its own lower case. */
  lemma LowerWithoutCapitals(s: string)
    requires forall k :: 0 <= k < |s| ==> !('A' <= s[k] <= 'Z')
    ensures ToLower(s) == s
  {
  }

  /** `t` is the lower-case form of `s` when it agrees with it letter by letter. */
  lemma LowerMatches(s: string, t: string)
    requires |s| == |t| && forall k :: 0 <= k < |s| ==> LowerChar(s[k]) == t[k]
    ensures ToLower(s) == t
  {
  }

  function UpperFrom(s: string, i: nat): (r: string)
    requires i <= |s|
    ensures |r| == |s| - i
    ensures forall k :: 0 <= k < |r| ==> r[k] == UpperChar(s[i + k])
    decreases |s| - i
  {
    if i == |s| then [] else [UpperChar(s[i])] + UpperFrom(s, i + 1)
  }

  function ToUpper(s: string): (r: string)
    ensures |r| == |s|
    ensures forall k :: 0 <= k < |s| ==> r[k] == UpperChar(s[k])
  {
    UpperFrom(s, 0)
  }

  /** The characters of `pat` from offset `j` on appear in `s` from `k + j` on. */
  predicate MatchesFrom(s: string, pat: string, k: nat, j: nat)
    requires k + |pat| <= |s| && j <= |pat|
    decreases |pat| - j
  {
    j == |pat| || (s[k + j] == pat[j] && MatchesFrom(s, pat, k, j + 1))
  }

  /** `pat` occurs in `s` at index `k`. */
  predicate OccursAt(s: string, pat: string, k: nat) {
    k + |pat| <= |s| && MatchesFrom(s, pat, k, 0)
  }

  lemma {:induction false} MatchesFromSlice(s: string, pat: string, k: nat, j: nat)
    requires k + |pat| <= |s| && j <= |pat|
    ensures MatchesFrom(s, pat, k, j) <==> s[k + j..k + |pat|] == pat[j..]
    decreases |pat| - j
  {
    if j < |pat| {
      MatchesFromSlice(s, pat, k, j + 1);
      assert s[k + j..k + |pat|] == [s[k + j]] + s[k + j + 1..k + |pat|];
      assert pat[j..] == [pat[j]] + pat[j + 1..];
    }
  }

  /** Occurrence is exactly equality of the slice. */
  lemma OccursAtSlice(s: string, pat: string, k: nat)
    ensures OccursAt(s, pat, k) <==> k + |pat| <= |s| && s[k..k + |pat|] == pat
  {
    if k + |pat| <= |s| {
      MatchesFromSlice(s, pat, k, 0);
    }
  }

  /** `r` is a contiguous piece of `s`. */
  ghost predicate IsSubstring(r: string, s: string) {
    exists k: nat :: OccursAt(s, r, k)
  }

  /** A piece of a piece of `s` is a piece of `s`. */
  lemma SubstringOfSlice(r: string, s: string, a: nat, b: nat)
    requires a <= b <= |s| && IsSubstring(r, s[a..b])
    ensures IsSubstring(r, s)
  {
    var t := s[a..b];
    var k: nat :| OccursAt(t, r, k);
    OccursAtSlice(t, r, k);
    var u, v := s[a + k..a + k + |r|], t[k..k + |r|];
    assert v == r;
    assert forall i :: 0 <= i < |r| ==> u[i] == v[i];
    assert u == r;
    OccursAtSlice(s, r, a + k);
  }

  lemma SubstringTransitive(r: string, b: string, s: string)
    requires IsSubstring(r, b) && IsSubstring(b, s)
    ensures IsSubstring(r, s)
  {
    var k: nat :| OccursAt(s, b, k);
    OccursAtSlice(s, b, k);
    SubstringOfSlice(r, s, k, k + |b|);
  }

  /** `s.indexOf(pat, from)`: the first occurrence at or after `from`. */
  function IndexOf(s: string, pat: string, from: nat): (r: Option<nat>)
    ensures r.Some? ==> from <= r.value && OccursAt(s, pat, r.value)
    ensures r.Some? ==> forall j :: from <= j < r.value ==> !OccursAt(s, pat, j)
    ensures r.None? ==> forall j :: from <= j ==> !OccursAt(s, pat, j)
    decreases |s| - from
  {
    if from + |pat| > |s| then None
    else if MatchesFrom(s, pat, from, 0) then Some(from)
    else IndexOf(s, pat, from + 1)
  }

  /** `s.includes(pat)`. */
  function Contains(s: string, pat: string): (b: bool)
    ensures b <==> exists k: nat :: OccursAt(s, pat, k)
  {
    IndexOf(s, pat, 0).Some?
  }

  /** `s.endsWith(suffix)`. */
  predicate EndsWith(s: string, suffix: string) {
    |suffix| <= |s| && OccursAt(s, suffix, |s| - |suffix|)
  }

  /** `s.indexOf(c, from)` for a single character. */
  function IndexOfChar(s: string, c: char, from: nat): (r: Option<nat>)
    requires from <= |s|
    ensures r.Some? ==> from <= r.value < |s| && s[r.value] == c
    ensures r.Some? ==> forall j :: from <= j < r.value ==> s[j] != c
    ensures r.None? ==> forall j :: from <= j < |s| ==> s[j] != c
    decreases |s| - from
  {
    if from == |s| then None
    else if s[from] == c then Some(from)
    else IndexOfChar(s, c, from + 1)
  }

  /** `s.lastIndexOf(c)` restricted to `s[..upTo]`. */
  function LastIndexOfChar(s: string, c: char, upTo: nat): (r: Option<nat>)
    requires upTo <= |s|
    ensures r.Some? ==> r.value < upTo && s[r.value] == c
    ensures r.Some? ==> forall j :: r.value < j < upTo ==> s[j] != c
    ensures r.None? ==> forall j :: 0 <= j < upTo ==> s[j] != c
  {
    if upTo == 0 then None
    else if s[upTo - 1] == c then Some(upTo - 1)
    else LastIndexOfChar(s, c, upTo - 1)
  }

  /** How many times `c` occurs in `s[i..]`. */
  function CountChar(s: string, c: char, i: nat): (r: nat)
    requires i <= |s|
    ensures r == 0 <==> forall k :: i <= k < |s| ==> s[k] != c
    ensures r <= 1 ==> forall a, b :: i <= a < b < |s| ==> s[a] != c || s[b] != c
    decreases |s| - i
  {
    if i == |s| then 0
    else (if s[i] == c then 1 else 0) + CountChar(s, c, i + 1)
  }

  /** `s[i..]` with every `c` deleted: `replace(/c/g, '')`. */
  function RemoveFrom(s: string, c: char, i: nat): (r: string)
    requires i <= |s|
    ensures forall x :: x in r ==> x in s[i..] && x != c
    ensures |r| <= |s| - i
    decreases |s| - i
  {
    if i == |s| then []
    else if s[i] == c then RemoveFrom(s, c, i + 1)
    else [s[i]] + RemoveFrom(s, c, i + 1)
  }

  function RemoveAll(s: string, c: char): (r: string)
    ensures c !in r
    ensures forall x :: x in r ==> x in s
  {
    RemoveFrom(s, c, 0)
  }

  /** Deleting `c` from a stretch free of `c` keeps that stretch intact. */
  lemma {:induction false} RemoveFromSkip(s: string, c: char, i: nat, j: nat)
    requires i <= j <= |s|
    requires forall k :: i <= k < j ==> s[k] != c
    ensures RemoveFrom(s, c, i) == s[i..j] + RemoveFrom(s, c, j)
    decreases j - i
  {
    if i < j {
      RemoveFromSkip(s, c, i + 1, j);
      RemoveFromKeeps(s, c, i);
      ConsSlice(s, i, j, RemoveFrom(s, c, j));
    }
  }

  /** A character other than `c` survives the deletion. */
  lemma RemoveFromKeeps(s: string, c: char, i: nat)
    requires i < |s| && s[i] != c
    ensures RemoveFrom(s, c, i) == [s[i]] + RemoveFrom(s, c, i + 1)
  {
  }

  lemma {:induction false} RemoveFromShift(p: string, t: string, c: char, j: nat)
    requires j <= |t|
    ensures RemoveFrom(p + t, c, |p| + j) == RemoveFrom(t, c, j)
    decreases |t| - j
  {
    if j < |t| {
      RemoveFromShift(p, t, c, j + 1);
      assert (p + t)[|p| + j] == t[j];
    }
  }

  lemma {:induction false} RemoveFromAppend(a: string, b: string, c: char, i: nat)
    requires i <= |a|
    ensures RemoveFrom(a + b, c, i) == RemoveFrom(a, c, i) + RemoveAll(b, c)
    decreases |a| - i
  {
    if i == |a| {
      RemoveFromShift(a, b, c, 0);
    } else {
      RemoveFromAppend(a, b, c, i + 1);
      var rest, tail := RemoveFrom(a, c, i + 1), RemoveAll(b, c);
      assert (a + b)[i] == a[i];
      if a[i] != c {
        assert [a[i]] + (rest + tail) == ([a[i]] + rest) + tail;
      }
    }
  }

  /** Deleting a character works piece by piece. */
  lemma RemoveAllAppend(a: string, b: string, c: char)
    ensures RemoveAll(a + b, c) == RemoveAll(a, c) + RemoveAll(b, c)
  {
    RemoveFromAppend(a, b, c, 0);
  }

  /** Deleting a character that does not occur changes nothing. */
  lemma RemoveAllAbsent(s: string, c: char)
    requires c !in s
    ensures RemoveAll(s, c) == s
  {
    RemoveFromSkip(s, c, 0, |s|);
    assert s[0..|s|] == s;
  }

  /** A one-character pattern occurs exactly where that character stands. */
  lemma OccursChar(s: string, c: char, k: nat)
    ensures OccursAt(s, [c], k) <==> k < |s| && s[k] == c
  {
    OccursAtSlice(s, [c], k);
    if k < |s| {
      assert s[k..k + 1] == [s[k]];
    }
  }

  /** Both searches find the first `c` of `s`. */
  lemma FirstCharAt(s: string, c: char, k: nat)
    requires k < |s| && s[k] == c
    requires forall j :: 0 <= j < k ==> s[j] != c
    ensures IndexOfChar(s, c, 0) == Some(k)
    ensures IndexOf(s, [c], 0) == Some(k)
  {
    OccursChar(s, c, k);
    var r := IndexOf(s, [c], 0);
    if r.Some? {
      OccursChar(s, c, r.value);
    }
  }

  /** A character whose one-character pattern is not contained is absent. */
  lemma AbsentWhenNotContained(s: string, c: char)
    requires !Contains(s, [c])
    ensures c !in s
  {
    forall k | 0 <= k < |s|
      ensures s[k] != c
    {
      OccursChar(s, c, k);
    }
  }

  lemma ConsSlice(s: string, i: nat, j: nat, rest: string)
    requires i < j <= |s|
    ensures [s[i]] + (s[i + 1..j] + rest) == s[i..j] + rest
  {
    assert s[i..j] == [s[i]] + s[i + 1..j];
  }

  /** `s[i..]` with its first `c` replaced by `d`: `replace('c', 'd')`. */
  function ReplaceFirstFrom(s: string, c: char, d: char, i: nat): (r: string)
    requires i <= |s|
    ensures |r| == |s| - i
    ensures IndexOfChar(s, c, i).None? ==> r == s[i..]
    ensures IndexOfChar(s, c, i).Some? ==>
              var p := IndexOfChar(s, c, i).value;
              r[p - i] == d && forall k :: 0 <= k < |r| && k != p - i ==> r[k] == s[i + k]
    decreases |s| - i
  {
    if i == |s| then []
    else if s[i] == c then [d] + s[i + 1..]
    else [s[i]] + ReplaceFirstFrom(s, c, d, i + 1)
  }

  function ReplaceFirst(s: string, c: char, d: char): (r: string)
    ensures |r| == |s|
    ensures IndexOfChar(s, c, 0).None? ==> r == s
    ensures IndexOfChar(s, c, 0).Some? ==>
              var p := IndexOfChar(s, c, 0).value;
              r[p] == d && forall k :: 0 <= k < |r| && k != p ==> r[k] == s[k]
  {
    ReplaceFirstFrom(s, c, d, 0)
  }

  /** `t` is `s` with its first `c` replaced when it differs from `s` only there. */
  lemma ReplaceFirstMatches(s: string, c: char, d: char, p: nat, t: string)
    requires IndexOfChar(s, c, 0) == Some(p)
    requires |t| == |s| && t[p] == d && forall k :: 0 <= k < |s| && k != p ==> t[k] == s[k]
    ensures ReplaceFirst(s, c, d) == t
  {
  }

  /** The white space and line terminators that `String.prototype.trim` removes. */
  predicate IsSpace(c: char) {
    var n := c as int;
    || (9 <= n <= 13) || n == 0x20 || n == 0xA0 || n == 0x1680
    || (0x2000 <= n <= 0x200A) || n == 0x2028 || n == 0x2029
    || n == 0x202F || n == 0x205F || n == 0x3000 || n == 0xFEFF
  }

  /** The first index at or after `i` that does not hold white space. */
  function SkipSpace(s: string, i: nat): (r: nat)
    requires i <= |s|
    ensures i <= r <= |s|
    ensures forall k :: i <= k < r ==> IsSpace(s[k])
    ensures r == |s| || !IsSpace(s[r])
    decreases |s| - i
  {
    if i == |s| || !IsSpace(s[i]) then i else SkipSpace(s, i + 1)
  }

  /** The end of `s[..j]` once its trailing white space is dropped. */
  function SkipSpaceBack(s: string, j: nat): (r: nat)
    requires j <= |s|
    ensures r <= j
    ensures forall k :: r <= k < j ==> IsSpace(s[k])
    ensures r == 0 || !IsSpace(s[r - 1])
  {
    if j == 0 || !IsSpace(s[j - 1]) then j else SkipSpaceBack(s, j - 1)
  }

  /** `s.trim()`: the piece of `s` between its leading and trailing white space. */
  function Trim(s: string): (r: string)
    ensures IsSubstring(r, s)
    ensures r == [] <==> forall k :: 0 <= k < |s| ==> IsSpace(s[k])
    ensures r != [] ==> !IsSpace(r[0]) && !IsSpace(r[|r| - 1])
  {
    var a := SkipSpace(s, 0);
    var b := SkipSpaceBack(s, |s|);
    if b <= a then
      OccursAtSlice(s, [], 0);
      []
    else
      OccursAtSlice(s, s[a..b], a);
      s[a..b]
  }
}
