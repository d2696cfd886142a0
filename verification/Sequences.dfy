/** What several modules say about sequences of any type. */
module Sequences {
  /** The parts one after the other. */
  function Flatten<T>(parts: seq<seq<T>>): seq<T> {
    if |parts| == 0 then [] else parts[0] + Flatten(parts[1..])
  }

  ghost predicate Distinct<T>(s: seq<T>) {
    forall i, j :: 0 <= i < j < |s| ==> s[i] != s[j]
  }

  lemma SliceOfSlice<T>(s: seq<T>, off: nat, n: nat, i: nat, j: nat)
    requires off + n <= |s| && i <= j <= n
    ensures s[off..off + n][i..j] == s[off + i..off + j]
  {
    var t := s[off..off + n];
    assert forall k :: i <= k < j ==> t[k] == s[off + k];
    assert s == s[..off] + t + s[off + n..];
  }
}
