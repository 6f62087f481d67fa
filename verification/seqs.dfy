/**
 * The two array primitives the turn engine leans on: lodash `findIndex`
 * and JavaScript's `splice(start, 1)`.
 */
module Seqs {

  /** Index of the first element satisfying `f`, or -1 when there is none. */
  function FindIndex<T>(s: seq<T>, f: T -> bool): (r: int)
    ensures -1 <= r < |s|
    ensures 0 <= r ==> f(s[r]) && forall k :: 0 <= k < r ==> !f(s[k])
    ensures r == -1 <==> forall k :: 0 <= k < |s| ==> !f(s[k])
  {
    if |s| == 0 then -1
    else if f(s[0]) then 0
    else
      var r := FindIndex(s[1..], f);
      if r == -1 then -1 else r + 1
  }

  /**
   * `s.splice(start, 1)` for a start produced by `FindIndex`: a negative
   * start counts from the end, so -1 removes the LAST element (and nothing
   * when the array is empty).
   */
  function SpliceOne<T>(s: seq<T>, start: int): (r: seq<T>)
    requires -1 <= start < |s|
    ensures |s| == 0 ==> r == []
    ensures |s| > 0 ==> |r| == |s| - 1
    ensures 0 <= start ==> r == s[..start] + s[start + 1..]
    ensures start == -1 && |s| > 0 ==> r == s[..|s| - 1]
    ensures |s| > 0 ==> multiset(r) + multiset{s[SpliceAt(s, start)]} == multiset(s)
  {
    var at := SpliceAt(s, start);
    if at < 0 then s
    else
      assert s == s[..at] + [s[at]] + s[at + 1..];
      s[..at] + s[at + 1..]
  }

  /** The index `splice(start, 1)` actually removes (-1 for an empty array). */
  function SpliceAt<T>(s: seq<T>, start: int): int
  {
    if start < 0 then |s| - 1 else start
  }

  /** A second update of the same index overrides the first. */
  lemma UpdateTwice<T>(s: seq<T>, i: nat, a: T, b: T)
    requires i < |s|
    ensures s[i := a][i := b] == s[i := b]
  {
  }
}
