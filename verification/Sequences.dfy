/** Sequences without repetitions. */
module Sequences {

  ghost predicate Distinct<T>(s: seq<T>)
  {
    forall i, j :: 0 <= i < j < |s| ==> s[i] != s[j]
  }

  /** Distinct elements that all occur in a are no more than a has. */
  lemma {:induction false} NoMoreThan<T>(b: seq<T>, a: seq<T>)
    requires Distinct(b) && forall i :: 0 <= i < |b| ==> b[i] in a
    ensures |b| <= |a|
    decreases |b|
  {
    if b != [] {
      var k :| 0 <= k < |a| && a[k] == b[0];
      var rest := a[..k] + a[k + 1..];
      forall i | 0 <= i < |b[1..]| ensures b[1..][i] in rest {
        assert b[1..][i] == b[i + 1] && b[0] != b[i + 1];
        var m :| 0 <= m < |a| && a[m] == b[i + 1];
        assert rest[if m < k then m else m - 1] == b[i + 1];
      }
      NoMoreThan(b[1..], rest);
    }
  }
}
