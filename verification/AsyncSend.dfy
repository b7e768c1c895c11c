/** Sends to control portals that do not wait for completion: the pending buffers,
    the per-node counts of outstanding puts, and the send call around its loop. What the
    event queues hold is a parameter. */
module AsyncSend {
  import opened PendingCounts
  import opened SendLoop

  const MAX_NODES := 2048

  /** One remembered message: its targets, which puts are still to be reported, and
      how many those are. */
  datatype Pending = Pending(targets: seq<nat>, wait: seq<bool>, left: int)

  ghost predicate Matched(b: Pending)
  {
    |b.targets| == |b.wait|
  }

  ghost predicate AllMatched(bufs: seq<Pending>)
  {
    forall j :: 0 <= j < |bufs| ==> Matched(bufs[j])
  }

  function Total(bufs: seq<Pending>, n: nat): (r: nat)
    requires AllMatched(bufs)
    decreases |bufs|
  {
    if bufs == [] then 0 else WaitingFor(bufs[0].targets, bufs[0].wait, n) + Total(bufs[1..], n)
  }

  lemma {:induction false} TotalUpdate(bufs: seq<Pending>, j: nat, b: Pending, n: nat)
    requires AllMatched(bufs) && j < |bufs| && Matched(b)
    ensures AllMatched(bufs[j := b])
    ensures Total(bufs[j := b], n)
         == Total(bufs, n) - WaitingFor(bufs[j].targets, bufs[j].wait, n) + WaitingFor(b.targets, b.wait, n)
    decreases j
  {
    if j > 0 {
      TotalUpdate(bufs[1..], j - 1, b, n);
      assert bufs[j := b][1..] == bufs[1..][j - 1 := b];
    } else {
      assert bufs[j := b][1..] == bufs[1..];
    }
  }

  lemma {:induction false} TotalRemove(bufs: seq<Pending>, j: nat, n: nat)
    requires AllMatched(bufs) && j < |bufs|
    ensures AllMatched(bufs[..j] + bufs[j + 1..])
    ensures Total(bufs[..j] + bufs[j + 1..], n) == Total(bufs, n) - WaitingFor(bufs[j].targets, bufs[j].wait, n)
    decreases j
  {
    var r := bufs[..j] + bufs[j + 1..];
    if j > 0 {
      TotalRemove(bufs[1..], j - 1, n);
      assert r[1..] == bufs[1..][..j - 1] + bufs[1..][j..];
    } else {
      assert r == bufs[1..];
    }
  }

  lemma {:induction false} TotalHas(bufs: seq<Pending>, j: nat, n: nat)
    requires AllMatched(bufs) && j < |bufs|
    ensures Total(bufs, n) >= WaitingFor(bufs[j].targets, bufs[j].wait, n)
    decreases j
  {
    if j > 0 { TotalHas(bufs[1..], j - 1, n); }
  }

  // ---- the pending buffers

  ghost predicate BufOk(b: Pending, nodes: nat)
  {
    && Matched(b)
    && b.left == Waiting(b.wait)
    && forall i :: 0 <= i < |b.targets| ==> b.targets[i] < nodes
  }

  /** Each node's count is the number of puts to it still to be reported. */
  ghost predicate Counted(bufs: seq<Pending>, counts: seq<int>)
    requires AllMatched(bufs)
  {
    forall n :: 0 <= n < |counts| ==> counts[n] == Total(bufs, n)
  }

  ghost predicate Accounted(bufs: seq<Pending>, counts: seq<int>)
  {
    && (forall j :: 0 <= j < |bufs| ==> BufOk(bufs[j], |counts|))
    && AllMatched(bufs)
    && Counted(bufs, counts)
  }

  /** The reports name puts of the buffer that wait, each once. */
  ghost predicate LegalReports(wait: seq<bool>, rs: seq<nat>)
  {
    forall u :: 0 <= u < |rs| ==> rs[u] < |wait| && wait[rs[u]] && forall v :: 0 <= v < u ==> rs[v] != rs[u]
  }

  /** Reports clear exactly the wait marks they name. */
  ghost predicate Cleared(b: Pending, b': Pending, rs: seq<nat>)
  {
    && b'.targets == b.targets
    && |b'.wait| == |b.wait|
    && forall i :: 0 <= i < |b.wait| ==> (b'.wait[i] <==> b.wait[i] && i !in rs)
  }

  /** A remembered message after the reports rs. */
  ghost function After(b: Pending, rs: seq<nat>): Pending
  {
    var wait := seq(|b.wait|, i requires 0 <= i < |b.wait| => b.wait[i] && i !in rs);
    Pending(b.targets, wait, Waiting(wait))
  }

  ghost function Updated(bufs: seq<Pending>, reports: seq<seq<nat>>): seq<Pending>
    requires |reports| == |bufs|
  {
    seq(|bufs|, k requires 0 <= k < |bufs| => After(bufs[k], reports[k]))
  }

  lemma {:induction false} ClearedIs(bufs: seq<Pending>, bufs': seq<Pending>, reports: seq<seq<nat>>, counts: seq<int>)
    requires |bufs| == |bufs'| == |reports| && Accounted(bufs', counts)
    requires forall k :: 0 <= k < |bufs| ==> Cleared(bufs[k], bufs'[k], reports[k])
    ensures bufs' == Updated(bufs, reports)
  {
    forall k | 0 <= k < |bufs| ensures bufs'[k] == After(bufs[k], reports[k]) {
      assert BufOk(bufs'[k], |counts|);
      assert bufs'[k].wait == After(bufs[k], reports[k]).wait;
    }
  }

  function Reported(b: Pending, i: nat): Pending
    requires i < |b.wait|
  {
    b.(wait := b.wait[i := false], left := b.left - 1)
  }

  lemma {:induction false} ReportKeeps(bufs: seq<Pending>, counts: seq<int>, j: nat, i: nat)
    requires Accounted(bufs, counts) && j < |bufs| && i < |bufs[j].wait| && bufs[j].wait[i]
    ensures var n := bufs[j].targets[i];
            && counts[n] > 0
            && Accounted(bufs[j := Reported(bufs[j], i)], counts[n := counts[n] - 1])
  {
    var b := bufs[j];
    var n, b' := b.targets[i], Reported(b, i);
    SetWait(b.wait, i, false);
    WaitsFor(b.targets, b.wait, i);
    TotalHas(bufs, j, n);
    var bufs', counts' := bufs[j := b'], counts[n := counts[n] - 1];
    assert AllMatched(bufs');
    forall m | 0 <= m < |counts'| ensures counts'[m] == Total(bufs', m) {
      SetWaitFor(b.targets, b.wait, i, false, m);
      TotalUpdate(bufs, j, b', m);
    }
  }

  lemma {:induction false} RemoveKeeps(bufs: seq<Pending>, counts: seq<int>, j: nat)
    requires Accounted(bufs, counts) && j < |bufs| && bufs[j].left == 0
    ensures Accounted(bufs[..j] + bufs[j + 1..], counts)
  {
    var bufs' := bufs[..j] + bufs[j + 1..];
    assert forall k :: 0 <= k < |bufs'| ==> bufs'[k] == bufs[if k < j then k else k + 1];
    forall m | 0 <= m < |counts| ensures AllMatched(bufs') && counts[m] == Total(bufs', m) {
      TotalRemove(bufs, j, m);
    }
    assert AllMatched(bufs');
  }

  /** The buffers that still wait for a report. */
  function Live(bufs: seq<Pending>): seq<Pending>
    decreases |bufs|
  {
    if bufs == [] then [] else (if bufs[0].left == 0 then [] else [bufs[0]]) + Live(bufs[1..])
  }

  /** The first k buffers are the live ones among the first done of the old list, the
      others are still to be looked at. */
  ghost predicate Swept(bufs0: seq<Pending>, bufs: seq<Pending>, done: nat, k: nat)
  {
    && k <= |bufs| && done <= |bufs0|
    && bufs[k..] == bufs0[done..]
    && Live(bufs0) == bufs[..k] + Live(bufs0[done..])
  }

  lemma {:induction false} SweptStep(bufs0: seq<Pending>, bufs: seq<Pending>, done: nat, k: nat)
    requires Swept(bufs0, bufs, done, k) && k < |bufs|
    ensures done < |bufs0|
    ensures if bufs[k].left == 0 then Swept(bufs0, bufs[..k] + bufs[k + 1..], done + 1, k) else Swept(bufs0, bufs, done + 1, k + 1)
  {
    assert |bufs[k..]| == |bufs0[done..]| && bufs[k..][0] == bufs0[done..][0];
    assert bufs0[done..][1..] == bufs0[done + 1..] && bufs[k..][1..] == bufs[k + 1..];
    var cut := bufs[..k] + bufs[k + 1..];
    assert cut[k..] == bufs[k + 1..] && cut[..k] == bufs[..k];
    assert bufs[..k + 1] == bufs[..k] + [bufs[k]];
  }

  lemma {:induction false} SweptAll(bufs0: seq<Pending>, bufs: seq<Pending>, done: nat, k: nat)
    requires Swept(bufs0, bufs, done, k) && k == |bufs|
    ensures bufs == Live(bufs0)
  {
    assert bufs0[done..] == bufs[k..] == [];
    assert bufs[..k] == bufs;
  }

  lemma {:induction false} LiveWaits(bufs: seq<Pending>)
    ensures forall j :: 0 <= j < |Live(bufs)| ==> Live(bufs)[j].left != 0
    decreases |bufs|
  {
    if bufs != [] { LiveWaits(bufs[1..]); }
  }

  ghost predicate Lowered(counts: seq<int>, counts': seq<int>)
  {
    |counts'| == |counts| && forall n :: 0 <= n < |counts| ==> counts'[n] <= counts[n]
  }

  /** `prune_bufs`' sanity loop. */
  method AnyWaiting(b: Pending) returns (found: bool)
    ensures found <==> exists i :: 0 <= i < |b.wait| && b.wait[i]
  {
    found := false;
    for i := 0 to |b.wait|
      invariant found <==> exists k :: 0 <= k < i && b.wait[k]
    {
      if b.wait[i] { found := true; }
    }
  }

  /** The counting loop of `add_buf`. */
  method CountIn(targets: seq<nat>, wait: seq<bool>, counts: seq<int>) returns (left: nat, counts': seq<int>)
    requires |targets| == |wait| && forall i :: 0 <= i < |targets| ==> targets[i] < |counts|
    ensures left == Waiting(wait) && |counts'| == |counts|
    ensures forall n :: 0 <= n < |counts| ==> counts'[n] == counts[n] + WaitingFor(targets, wait, n)
  {
    left, counts' := 0, counts;
    for i := 0 to |targets|
      invariant left == Waiting(wait[..i]) && |counts'| == |counts|
      invariant forall n :: 0 <= n < |counts| ==> counts'[n] == counts[n] + WaitingFor(targets[..i], wait[..i], n)
    {
      assert wait[..i + 1][..i] == wait[..i] && targets[..i + 1][..i] == targets[..i];
      if wait[i] {
        left := left + 1;
        counts' := counts'[targets[i] := counts'[targets[i]] + 1];
      }
    }
    assert wait[..|wait|] == wait && targets[..|targets|] == targets;
  }

  lemma {:induction false} AddKeeps(bufs: seq<Pending>, counts: seq<int>, counts': seq<int>, targets: seq<nat>, wait: seq<bool>)
    requires Accounted(bufs, counts) && |counts'| == |counts| && |targets| == |wait|
    requires forall i :: 0 <= i < |targets| ==> targets[i] < |counts|
    requires forall n :: 0 <= n < |counts| ==> counts'[n] == counts[n] + WaitingFor(targets, wait, n)
    ensures Accounted([Pending(targets, wait, Waiting(wait))] + bufs, counts')
    ensures Waiting(wait) == 0 ==> counts' == counts
  {
    var bufs' := [Pending(targets, wait, Waiting(wait))] + bufs;
    assert bufs'[1..] == bufs;
    assert AllMatched(bufs');
  }

  class Sender {
    var bufs: seq<Pending>
    var pendingNids: seq<int>

    ghost predicate Valid()
      reads this
    {
      Accounted(bufs, pendingNids) && |pendingNids| == MAX_NODES
    }

    /** `init_pending_buf_list`. */
    constructor ()
      ensures Valid() && bufs == [] && forall n :: 0 <= n < MAX_NODES ==> pendingNids[n] == 0
    {
      bufs, pendingNids := [], seq(MAX_NODES, _ => 0);
    }

    /** `add_buf`: fatal exactly when nothing is left to wait for or there are more
        targets than nodes. */
    method AddBuf(targets: seq<nat>, wait: seq<bool>) returns (fatal: bool)
      requires Valid() && |targets| == |wait|
      requires forall i :: 0 <= i < |targets| ==> targets[i] < |pendingNids|
      modifies this
      ensures fatal <==> Waiting(wait) == 0 || |targets| > MAX_NODES
      ensures bufs == if fatal then old(bufs) else [Pending(targets, wait, Waiting(wait))] + old(bufs)
      ensures Valid() && |pendingNids| == old(|pendingNids|)
      ensures forall n :: 0 <= n < |pendingNids| ==>
                pendingNids[n] == old(pendingNids)[n] + (if fatal then 0 else WaitingFor(targets, wait, n))
    {
      if |targets| == 0 || |targets| > MAX_NODES { return true; }
      var left, counts := CountIn(targets, wait, pendingNids);
      AddKeeps(bufs, pendingNids, counts, targets, wait);
      pendingNids := counts;
      if left == 0 { return true; }
      bufs := [Pending(targets, wait, left)] + bufs;
      fatal := false;
    }

    /** One report taken off a buffer's queue: fatal exactly when it names a put that is
        not waited for. */
    method Report(j: nat, i: nat) returns (fatal: bool)
      requires Valid() && j < |bufs| && i < |bufs[j].wait|
      modifies this
      ensures Valid() && Lowered(old(pendingNids), pendingNids) && (fatal <==> !old(bufs)[j].wait[i])
      ensures bufs == if fatal then old(bufs) else old(bufs)[j := Reported(old(bufs)[j], i)]
    {
      var b := bufs[j];
      if !b.wait[i] { return true; }
      ReportKeeps(bufs, pendingNids, j, i);
      var nid := b.targets[i];
      if pendingNids[nid] <= 0 { return true; }
      bufs, pendingNids := bufs[j := Reported(b, i)], pendingNids[nid := pendingNids[nid] - 1];
      fatal := false;
    }

    /** The reports in one buffer's queue. */
    method DrainBuf(j: nat, rs: seq<nat>) returns (fatal: bool)
      requires Valid() && j < |bufs| && forall u :: 0 <= u < |rs| ==> rs[u] < |bufs[j].wait|
      modifies this
      ensures Valid() && Lowered(old(pendingNids), pendingNids) && |bufs| == old(|bufs|) && bufs == old(bufs)[j := bufs[j]]
      ensures fatal <==> !LegalReports(old(bufs)[j].wait, rs)
      ensures !fatal ==> Cleared(old(bufs)[j], bufs[j], rs)
    {
      fatal := false;
      for u := 0 to |rs|
        invariant Valid() && Lowered(old(pendingNids), pendingNids) && |bufs| == old(|bufs|) && bufs == old(bufs)[j := bufs[j]]
        invariant !fatal && LegalReports(old(bufs)[j].wait, rs[..u]) && Cleared(old(bufs)[j], bufs[j], rs[..u])
      {
        fatal := Report(j, rs[u]);
        if fatal {
          NotLegal(old(bufs)[j].wait, rs, u);
          return;
        }
        StillLegal(old(bufs)[j].wait, rs, u);
      }
      assert rs[..|rs|] == rs;
    }

    /** `update_bufs`: every buffer loses exactly the wait marks its reports name, and a
        fatal check is reached only if a report names a put that does not wait. */
    method UpdateBufs(reports: seq<seq<nat>>) returns (fatal: bool)
      requires Valid() && |reports| == |bufs|
      requires forall k, u :: 0 <= k < |reports| && 0 <= u < |reports[k]| ==> reports[k][u] < |bufs[k].wait|
      modifies this
      ensures Valid() && Lowered(old(pendingNids), pendingNids) && |bufs| == old(|bufs|)
      ensures fatal <==> exists k :: 0 <= k < |reports| && !LegalReports(old(bufs)[k].wait, reports[k])
      ensures !fatal ==> bufs == Updated(old(bufs), reports)
    {
      fatal := false;
      var j := 0;
      while j < |bufs|
        invariant Valid() && Lowered(old(pendingNids), pendingNids) && |bufs| == old(|bufs|) && !fatal && j <= |bufs|
        invariant forall k :: 0 <= k < j ==> LegalReports(old(bufs)[k].wait, reports[k]) && Cleared(old(bufs)[k], bufs[k], reports[k])
        invariant forall k :: j <= k < |bufs| ==> bufs[k] == old(bufs)[k]
      {
        fatal := DrainBuf(j, reports[j]);
        if fatal { return; }
        j := j + 1;
      }
      ClearedIs(old(bufs), bufs, reports, pendingNids);
    }

    /** The rest of `prune_bufs`: a buffer is freed exactly when all its puts were
        reported. */
    method Sweep() returns (fatal: bool)
      requires Valid()
      modifies this`bufs
      ensures !fatal && Valid() && bufs == Live(old(bufs))
    {
      ghost var bufs0, done := bufs, 0;
      fatal := false;
      var k := 0;
      while k < |bufs|
        invariant Valid() && !fatal && Swept(bufs0, bufs, done, k)
        decreases |bufs| - k
      {
        SweptStep(bufs0, bufs, done, k);
        assert BufOk(bufs[k], |pendingNids|);
        if bufs[k].left == 0 {
          var bad := AnyWaiting(bufs[k]);
          if bad { return true; }
          RemoveKeeps(bufs, pendingNids, k);
          bufs := bufs[..k] + bufs[k + 1..];
        } else {
          if bufs[k].left < 0 { return true; }
          k := k + 1;
        }
        done := done + 1;
      }
      SweptAll(bufs0, bufs, done, k);
    }

    /** `prune_bufs`: the messages that still wait for a report are left, in order. */
    method Prune(reports: seq<seq<nat>>) returns (fatal: bool)
      requires Valid() && |reports| == |bufs|
      requires forall k, u :: 0 <= k < |reports| && 0 <= u < |reports[k]| ==> reports[k][u] < |bufs[k].wait|
      modifies this
      ensures Valid() && Lowered(old(pendingNids), pendingNids)
      ensures fatal <==> exists k :: 0 <= k < |reports| && !LegalReports(old(bufs)[k].wait, reports[k])
      ensures !fatal ==> bufs == Live(Updated(old(bufs), reports)) && forall j :: 0 <= j < |bufs| ==> bufs[j].left > 0
    {
      fatal := UpdateBufs(reports);
      if fatal { return; }
      LiveWaits(bufs);
      fatal := Sweep();
      assert forall j :: 0 <= j < |bufs| ==> BufOk(bufs[j], |pendingNids|);
    }

    /** `srvr_send_to_control_ptls`: every target before cut with at most two puts
        outstanding is sent to, and no other; the message is remembered, with the puts
        still to be reported, exactly when there is such a put. A fatal check is reached
        only for such a message with more targets than there are nodes, or if a report
        names a put that does not wait. */
    method Send(nids: seq<nat>, reports: seq<seq<nat>>, net: seq<Turn>)
      returns (puts: nat, issued: seq<bool>, peak: nat, end: Outcome, cut: nat, fatal: bool,
               ghost wait: seq<bool>, ghost counts: seq<int>, ghost taken: seq<nat>)
      requires Valid() && nids != [] && forall i :: 0 <= i < |nids| ==> nids[i] < |pendingNids|
      requires |reports| == |bufs| && forall k, u :: 0 <= k < |reports| && 0 <= u < |reports[k]| ==> reports[k][u] < |bufs[k].wait|
      requires |net| == |nids|
      requires forall i, u :: 0 <= i < |net| && 0 <= u < |net[i].looks| && net[i].looks[u].Sent? ==> net[i].looks[u].i < |nids|
      modifies this
      ensures Valid() && peak <= MAX_ASYNC_SENDS + 1 && |counts| == MAX_NODES
      ensures Lowered(old(pendingNids), counts) && (Obedient(old(bufs), reports) ==> Accounted(Live(Updated(old(bufs), reports)), counts))
      ensures Obedient(old(bufs), reports) && LegalNet(nids, counts, net) ==> (fatal <==> |nids| > MAX_NODES && Waiting(wait) > 0)
      ensures !fatal || (Obedient(old(bufs), reports) && LegalNet(nids, counts, net)) ==>
        && |issued| == |nids| && (forall i :: 0 <= i < |nids| ==> (issued[i] <==> i < cut && counts[nids[i]] <= 2))
        && cut <= |nids| && Ended(nids, counts, net, cut, wait, issued, end) && (end == Done ==> cut == |nids|)
        && puts == Waiting(issued) && Unreported(issued, wait, taken) && Heard(nids, counts, net, cut, taken)
      ensures !fatal ==> bufs == (if Waiting(wait) > 0 then [Pending(nids, wait, Waiting(wait))] else []) + Live(Updated(old(bufs), reports))
      ensures !fatal ==> Obedient(old(bufs), reports)
      ensures forall n :: 0 <= n < |pendingNids| ==> pendingNids[n] <= old(pendingNids)[n] || pendingNids[n] <= 2 + Times(nids, n)
    {
      puts, issued, peak, end, cut := 0, [], 0, Done, 0;
      fatal := Prune(reports);
      counts, wait, taken := pendingNids, [], [];
      if fatal { return; }
      puts, issued, peak, end, cut, fatal, wait, taken := PutAndRemember(nids, net);
    }

    /** The call from the first put on. */
    method PutAndRemember(nids: seq<nat>, net: seq<Turn>)
      returns (puts: nat, issued: seq<bool>, peak: nat, end: Outcome, cut: nat, fatal: bool, ghost wait: seq<bool>, ghost taken: seq<nat>)
      requires Valid() && nids != [] && forall i :: 0 <= i < |nids| ==> nids[i] < |pendingNids|
      requires |net| == |nids|
      requires forall i, u :: 0 <= i < |net| && 0 <= u < |net[i].looks| && net[i].looks[u].Sent? ==> net[i].looks[u].i < |nids|
      modifies this
      ensures Valid() && peak <= MAX_ASYNC_SENDS + 1
      ensures LegalNet(nids, old(pendingNids), net) ==> (fatal <==> |nids| > MAX_NODES && Waiting(wait) > 0)
      ensures !fatal || LegalNet(nids, old(pendingNids), net) ==>
        && |issued| == |nids| && (forall i :: 0 <= i < |nids| ==> (issued[i] <==> i < cut && old(pendingNids)[nids[i]] <= 2))
        && cut <= |nids| && Ended(nids, old(pendingNids), net, cut, wait, issued, end) && (end == Done ==> cut == |nids|)
        && puts == Waiting(issued) && Unreported(issued, wait, taken) && Heard(nids, old(pendingNids), net, cut, taken)
      ensures !fatal ==> bufs == (if Waiting(wait) > 0 then [Pending(nids, wait, Waiting(wait))] else []) + old(bufs)
      ensures forall n :: 0 <= n < |pendingNids| ==> pendingNids[n] <= old(pendingNids)[n] || pendingNids[n] <= 2 + Times(nids, n)
    {
      var sent, marks;
      puts, sent, marks, issued, peak, end, cut, fatal, taken := PutAll(nids, pendingNids, net);
      wait := marks;
      if fatal { return; }
      fatal := Remember(nids, marks, sent == puts);
    }

    /** The end of the call: a message with puts unreported is remembered. */
    method Remember(nids: seq<nat>, wait: seq<bool>, allSent: bool) returns (fatal: bool)
      requires Valid() && |nids| == |wait| && (allSent <==> Waiting(wait) == 0)
      requires forall i :: 0 <= i < |nids| ==> nids[i] < |pendingNids| && (wait[i] ==> pendingNids[nids[i]] <= 2)
      modifies this
      ensures Valid() && (fatal <==> |nids| > MAX_NODES && Waiting(wait) > 0)
      ensures bufs == (if Waiting(wait) > 0 && !fatal then [Pending(nids, wait, Waiting(wait))] else []) + old(bufs)
      ensures forall n :: 0 <= n < |pendingNids| ==> pendingNids[n] <= old(pendingNids)[n] || pendingNids[n] <= 2 + Times(nids, n)
    {
      if allSent {
        fatal := AnyWaiting(Pending(nids, wait, 0));
      } else {
        ghost var counts := pendingNids;
        fatal := AddBuf(nids, wait);
        forall n | 0 <= n < |pendingNids|
          ensures pendingNids[n] <= counts[n] || pendingNids[n] <= 2 + Times(nids, n)
        {
          AtMostTimes(nids, wait, n);
          if counts[n] > 2 { NoneFor(nids, wait, n); }
        }
      }
    }

    /** With distinct targets in every call and a network that keeps its promise, no call
        is fatal and no node ever has more than three puts outstanding. */
    method SendDistinct(nids: seq<nat>, reports: seq<seq<nat>>, net: seq<Turn>) returns (puts: nat, fatal: bool, ghost counts: seq<int>)
      requires Valid() && nids != [] && forall i :: 0 <= i < |nids| ==> nids[i] < |pendingNids|
      requires |reports| == |bufs| && forall k, u :: 0 <= k < |reports| && 0 <= u < |reports[k]| ==> reports[k][u] < |bufs[k].wait|
      requires |net| == |nids|
      requires forall i, u :: 0 <= i < |net| && 0 <= u < |net[i].looks| && net[i].looks[u].Sent? ==> net[i].looks[u].i < |nids|
      requires forall i, j :: 0 <= i < j < |nids| ==> nids[i] != nids[j]
      requires forall n :: 0 <= n < |pendingNids| ==> pendingNids[n] <= 3
      modifies this
      ensures Valid() && |counts| == MAX_NODES && (Obedient(old(bufs), reports) && LegalNet(nids, counts, net) ==> !fatal)
      ensures forall n :: 0 <= n < |pendingNids| ==> pendingNids[n] <= 3
    {
      var issued, peak, end, cut;
      ghost var wait, taken;
      Pigeonhole(nids, MAX_NODES);
      puts, issued, peak, end, cut, fatal, wait, counts, taken := Send(nids, reports, net);
      forall n | 0 <= n < |pendingNids| ensures pendingNids[n] <= 3 { TimesDistinct(nids, n); }
    }

    /** A call that nothing disturbs reaches every target: the messages that wait report
        only what they may, the puts are taken and the queue is found empty in time. */
    method SendQuietly(nids: seq<nat>, reports: seq<seq<nat>>, net: seq<Turn>) returns (puts: nat, issued: seq<bool>, ghost counts: seq<int>, fatal: bool)
      requires Valid() && nids != [] && |nids| <= MAX_ASYNC_SENDS && forall i :: 0 <= i < |nids| ==> nids[i] < |pendingNids|
      requires |reports| == |bufs| && forall k, u :: 0 <= k < |reports| && 0 <= u < |reports[k]| ==> reports[k][u] < |bufs[k].wait|
      requires |net| == |nids| && forall i :: 0 <= i < |net| ==> Quiet(net[i])
      requires forall i, u :: 0 <= i < |net| && 0 <= u < |net[i].looks| && net[i].looks[u].Sent? ==> net[i].looks[u].i < |nids|
      modifies this
      ensures Valid() && |counts| == MAX_NODES && Lowered(old(pendingNids), counts)
      ensures Obedient(old(bufs), reports) && LegalNet(nids, counts, net) ==> !fatal
      ensures !fatal ==> |issued| == |nids| && puts == Waiting(issued) && forall i :: 0 <= i < |nids| ==> (issued[i] <==> counts[nids[i]] <= 2)
    {
      var peak, end, cut;
      ghost var wait, taken;
      puts, issued, peak, end, cut, fatal, wait, counts, taken := Send(nids, reports, net);
    }
  }

  /** The network reports, for each remembered message, only puts that wait, each once. */
  ghost predicate Obedient(bufs: seq<Pending>, reports: seq<seq<nat>>)
  {
    |reports| == |bufs| && forall k :: 0 <= k < |reports| ==> LegalReports(bufs[k].wait, reports[k])
  }

  lemma {:induction false} NotLegal(wait: seq<bool>, rs: seq<nat>, u: nat)
    requires u < |rs| && rs[u] < |wait| && !(wait[rs[u]] && rs[u] !in rs[..u])
    ensures !LegalReports(wait, rs)
  {
    if rs[u] in rs[..u] {
      var v :| 0 <= v < u && rs[..u][v] == rs[u];
      assert rs[v] == rs[u];
    }
  }

  lemma {:induction false} StillLegal(wait: seq<bool>, rs: seq<nat>, u: nat)
    requires u < |rs| && rs[u] < |wait| && LegalReports(wait, rs[..u]) && wait[rs[u]] && rs[u] !in rs[..u]
    ensures LegalReports(wait, rs[..u + 1])
    ensures forall k :: k in rs[..u + 1] <==> k in rs[..u] || k == rs[u]
  {
    assert rs[..u + 1] == rs[..u] + [rs[u]];
  }

  /** Distinct nodes below n are at most n. */
  lemma {:induction false} Pigeonhole(nids: seq<nat>, n: nat)
    requires forall i :: 0 <= i < |nids| ==> nids[i] < n
    requires forall i, j :: 0 <= i < j < |nids| ==> nids[i] != nids[j]
    ensures |nids| <= n
    decreases n
  {
    if nids != [] {
      assert nids[0] < n;
      if k :| 0 <= k < |nids| && nids[k] == n - 1 {
        var rest := nids[..k] + nids[k + 1..];
        assert forall i :: 0 <= i < |rest| ==> rest[i] == nids[if i < k then i else i + 1];
        Pigeonhole(rest, n - 1);
      } else {
        Pigeonhole(nids, n - 1);
      }
    }
  }

  /** One target too many: a call that names a node once more than there are nodes, and
      hears of none of its puts, is fatal. */
  method OversizedCall() returns (fatal: bool, ghost wait: seq<bool>)
    ensures |wait| == MAX_NODES + 1 && fatal
  {
    var s := new Sender();
    var nids, net := seq(MAX_NODES + 1, _ => 0), Silent(MAX_NODES + 1);
    assert |s.bufs| == 0 && Obedient(s.bufs, []);
    var puts, issued, peak, end, cut;
    ghost var counts, taken;
    puts, issued, peak, end, cut, fatal, wait, counts, taken := s.Send(nids, [], net);
    SilentIsLegal(nids, counts, net);
    FirstUnheard(nids, counts, net, cut, wait, issued, end, taken);
  }

  /** Only the first put is taken, and nothing is reported. */
  function Silent(n: nat): (net: seq<Turn>)
    ensures |net| == n && forall i :: 0 <= i < n ==> net[i] == Turn(i > 0, [Empty(false)], false)
  {
    seq(n, i => Turn(i > 0, [Empty(false)], false))
  }

  lemma {:induction false} SilentIsLegal(nids: seq<nat>, counts: seq<int>, net: seq<Turn>)
    requires |net| == |nids| && forall k :: 0 <= k < |nids| ==> nids[k] < |counts|
    requires forall j :: 0 <= j < |net| ==> net[j].looks == [Empty(false)]
    ensures LegalNet(nids, counts, net)
  {
  }

  /** If nothing is reported and the first put is made, it waits at the end. */
  lemma {:induction false} FirstUnheard(nids: seq<nat>, counts: seq<int>, net: seq<Turn>, cut: nat, wait: seq<bool>, issued: seq<bool>,
                                        end: Outcome, taken: seq<nat>)
    requires |net| == |nids| && |nids| > 0 && cut <= |nids| && forall k :: 0 <= k < |nids| ==> nids[k] < |counts|
    requires |issued| == |nids| && forall i :: 0 <= i < |nids| ==> (issued[i] <==> i < cut && counts[nids[i]] <= 2)
    requires Ended(nids, counts, net, cut, wait, issued, end) && (end == Done ==> cut == |nids|)
    requires Unreported(issued, wait, taken) && Heard(nids, counts, net, cut, taken)
    requires counts[nids[0]] <= 2 && !net[0].refused && forall j :: 0 <= j < |net| ==> net[j].looks == [Empty(false)]
    ensures Waiting(wait) > 0 && |wait| == |nids|
  {
    assert cut > 0;
    assert wait[0];
  }

  /** The same with the first put unreported: the buffer is refused. */
  method OversizedBuf() returns (fatal: bool)
    ensures fatal
  {
    var s := new Sender();
    fatal := s.AddBuf(seq(MAX_NODES + 1, _ => 0), seq(MAX_NODES + 1, i => i == 0));
  }
}
