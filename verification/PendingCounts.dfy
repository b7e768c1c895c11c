/** Counting the puts of a call that are still to be reported. */
module PendingCounts {

  function Waiting(wait: seq<bool>): (r: nat)
    ensures r == 0 <==> forall i :: 0 <= i < |wait| ==> !wait[i]
    decreases |wait|
  {
    if wait == [] then 0
    else
      var k := |wait| - 1;
      assert forall i :: 0 <= i < k ==> wait[..k][i] == wait[i];
      Waiting(wait[..k]) + (if wait[k] then 1 else 0)
  }

  /** The puts to node n still to be reported. */
  function WaitingFor(targets: seq<nat>, wait: seq<bool>, n: nat): (r: nat)
    requires |targets| == |wait|
    ensures r <= Waiting(wait)
    decreases |wait|
  {
    if wait == [] then 0
    else
      var k := |wait| - 1;
      WaitingFor(targets[..k], wait[..k], n) + (if wait[k] && targets[k] == n then 1 else 0)
  }

  function Times(targets: seq<nat>, n: nat): (r: nat)
    decreases |targets|
  {
    if targets == [] then 0
    else
      var k := |targets| - 1;
      Times(targets[..k], n) + (if targets[k] == n then 1 else 0)
  }

  lemma {:induction false} SetWait(wait: seq<bool>, i: nat, v: bool)
    requires i < |wait| && wait[i] != v
    ensures Waiting(wait[i := v]) == Waiting(wait) + (if v then 1 else -1)
    decreases |wait|
  {
    var k := |wait| - 1;
    if i < k {
      assert wait[i := v][..k] == wait[..k][i := v];
      SetWait(wait[..k], i, v);
    } else {
      assert wait[i := v][..k] == wait[..k];
    }
  }

  lemma {:induction false} WaitingBound(wait: seq<bool>)
    ensures Waiting(wait) <= |wait|
    decreases |wait|
  {
    if wait != [] { WaitingBound(wait[..|wait| - 1]); }
  }

  lemma {:induction false} SetWaitFor(targets: seq<nat>, wait: seq<bool>, i: nat, v: bool, n: nat)
    requires |targets| == |wait| && i < |wait| && wait[i] != v
    ensures WaitingFor(targets, wait[i := v], n)
         == WaitingFor(targets, wait, n) + (if targets[i] != n then 0 else if v then 1 else -1)
    decreases |wait|
  {
    var k := |wait| - 1;
    if i < k {
      assert wait[i := v][..k] == wait[..k][i := v];
      SetWaitFor(targets[..k], wait[..k], i, v, n);
    } else {
      assert wait[i := v][..k] == wait[..k];
    }
  }

  lemma {:induction false} WaitsFor(targets: seq<nat>, wait: seq<bool>, i: nat)
    requires |targets| == |wait| && i < |wait| && wait[i]
    ensures WaitingFor(targets, wait, targets[i]) > 0
    decreases |wait|
  {
    var k := |wait| - 1;
    if i < k { WaitsFor(targets[..k], wait[..k], i); }
  }

  lemma {:induction false} NoneFor(targets: seq<nat>, wait: seq<bool>, n: nat)
    requires |targets| == |wait| && forall i :: 0 <= i < |wait| && wait[i] ==> targets[i] != n
    ensures WaitingFor(targets, wait, n) == 0
    decreases |wait|
  {
    if wait != [] {
      var k := |wait| - 1;
      assert forall i :: 0 <= i < k ==> wait[..k][i] == wait[i] && targets[..k][i] == targets[i];
      NoneFor(targets[..k], wait[..k], n);
    }
  }

  lemma {:induction false} AtMostTimes(targets: seq<nat>, wait: seq<bool>, n: nat)
    requires |targets| == |wait|
    ensures WaitingFor(targets, wait, n) <= Times(targets, n)
    decreases |wait|
  {
    if wait != [] { AtMostTimes(targets[..|wait| - 1], wait[..|wait| - 1], n); }
  }

  lemma {:induction false} TimesDistinct(targets: seq<nat>, n: nat)
    requires forall i, j :: 0 <= i < j < |targets| ==> targets[i] != targets[j]
    ensures Times(targets, n) <= 1 && (n !in targets ==> Times(targets, n) == 0)
    decreases |targets|
  {
    if targets != [] {
      var k := |targets| - 1;
      TimesDistinct(targets[..k], n);
      assert targets[k] !in targets[..k];
    }
  }
}
