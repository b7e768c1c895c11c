/** The throttled loop that sends a control message to many targets. What the event queue
    holds, which puts are refused and when time runs out are parameters. */
module SendLoop {
  import opened PendingCounts

  const MAX_ASYNC_SENDS := 250

  /** What one look at the call's event queue finds: the report of put i, or nothing,
      and then whether time has run out. */
  datatype Look = Sent(i: nat) | Empty(late: bool)

  /** What happens at one target: the put is refused twice; the looks at the queue after
      it; time has run out after those. */
  datatype Turn = Turn(refused: bool, looks: seq<Look>, timeout: bool)

  datatype Outcome = Done | Refused | Late

  /** The reports name puts that wait, each once. */
  ghost predicate Legal(wait: seq<bool>, looks: seq<Look>)
  {
    forall u :: 0 <= u < |looks| && looks[u].Sent? ==>
      looks[u].i < |wait| && wait[looks[u].i] && forall v :: 0 <= v < u ==> looks[v] != looks[u]
  }

  /** After the first u looks: the puts taken are no longer waited for. */
  ghost predicate PolledUpTo(wait: seq<bool>, looks: seq<Look>, u: nat, wait': seq<bool>, taken: seq<nat>)
    requires u <= |looks|
  {
    && |wait'| == |wait| && Waiting(wait) == Waiting(wait') + |taken|
    && (forall k :: 0 <= k < |wait| ==> (wait'[k] <==> wait[k] && k !in taken))
    && (forall k :: k in taken ==> k < |wait| && wait[k] && Sent(k) in looks[..u])
    && (forall v :: 0 <= v < u && looks[v].Sent? ==> looks[v].i in taken)
  }

  lemma {:induction false} PollTake(wait: seq<bool>, looks: seq<Look>, u: nat, wait': seq<bool>, taken: seq<nat>)
    requires u < |looks| && looks[u].Sent? && looks[u].i < |wait| && PolledUpTo(wait, looks, u, wait', taken) && wait'[looks[u].i]
    ensures PolledUpTo(wait, looks, u + 1, wait'[looks[u].i := false], taken + [looks[u].i])
  {
    SetWait(wait', looks[u].i, false);
    assert looks[..u + 1] == looks[..u] + [looks[u]];
  }

  lemma {:induction false} PollSkip(wait: seq<bool>, looks: seq<Look>, u: nat, wait': seq<bool>, taken: seq<nat>)
    requires u < |looks| && looks[u].Empty? && PolledUpTo(wait, looks, u, wait', taken)
    ensures PolledUpTo(wait, looks, u + 1, wait', taken)
  {
    assert looks[..u + 1] == looks[..u] + [looks[u]];
  }

  lemma {:induction false} PollBad(wait: seq<bool>, looks: seq<Look>, u: nat, wait': seq<bool>, taken: seq<nat>)
    requires u < |looks| && looks[u].Sent? && looks[u].i < |wait| && PolledUpTo(wait, looks, u, wait', taken) && !wait'[looks[u].i]
    ensures !Legal(wait, looks)
  {
    var i := looks[u].i;
    if i in taken {
      assert Sent(i) in looks[..u];
      var v :| 0 <= v < u && looks[..u][v] == Sent(i);
      assert looks[v] == looks[u];
    }
  }

  /** The puts taken are no longer waited for; all reports that stood at the front of the
      queue are among them. */
  ghost predicate Polled(wait: seq<bool>, looks: seq<Look>, wait': seq<bool>, taken: seq<nat>)
  {
    exists u :: 0 <= u <= |looks| && (u == |looks| || looks[u].Empty?) && PolledUpTo(wait, looks, u, wait', taken)
  }

  /** Empty the call's event queue, and stall while too many puts are in flight and
      time lasts; taken are the puts reported. */
  method Poll(wait: seq<bool>, looks: seq<Look>) returns (wait': seq<bool>, sent: nat, late: bool, fatal: bool, ghost taken: seq<nat>)
    requires forall u :: 0 <= u < |looks| && looks[u].Sent? ==> looks[u].i < |wait|
    ensures fatal ==> !Legal(wait, looks)
    ensures !fatal ==> Polled(wait, looks, wait', taken) && |taken| == sent
    ensures !late && !fatal ==> Waiting(wait') <= MAX_ASYNC_SENDS
    ensures late ==> Waiting(wait) > MAX_ASYNC_SENDS || AllSent(looks, |looks|)
  {
    wait', sent, late, fatal, taken := wait, 0, true, false, [];
    for u := 0 to |looks|
      invariant late && !fatal && |taken| == sent && PolledUpTo(wait, looks, u, wait', taken)
      invariant Waiting(wait) > MAX_ASYNC_SENDS || AllSent(looks, u)
    {
      if looks[u].Sent? {
        var i := looks[u].i;
        if !wait'[i] {
          PollBad(wait, looks, u, wait', taken);
          fatal, late := true, false;
          return;
        }
        PollTake(wait, looks, u, wait', taken);
        wait', sent, taken := wait'[i := false], sent + 1, taken + [i];
      } else if Waiting(wait') <= MAX_ASYNC_SENDS {
        late := false;
        return;
      } else if looks[u].late {
        return;
      } else {
        PollSkip(wait, looks, u, wait', taken);
      }
    }
  }

  /** Nothing goes wrong at this target: the put is taken, and the queue is found empty
      before time runs out. */
  ghost predicate Quiet(t: Turn)
  {
    !t.refused && !t.timeout && !AllSent(t.looks, |t.looks|)
  }

  /** The network reports only puts made by then, each once. */
  ghost predicate LegalNet(nids: seq<nat>, counts: seq<int>, net: seq<Turn>)
    requires |net| == |nids| && forall i :: 0 <= i < |nids| ==> nids[i] < |counts|
  {
    && (forall i, u :: 0 <= i < |net| && 0 <= u < |net[i].looks| && net[i].looks[u].Sent? ==>
          net[i].looks[u].i <= i && counts[nids[net[i].looks[u].i]] <= 2)
    && (forall i, u, v :: 0 <= i < |net| && 0 <= u < v < |net[i].looks| && net[i].looks[u].Sent? ==> net[i].looks[u] != net[i].looks[v])
    && (forall i, j, u :: 0 <= i < j < |net| && 0 <= u < |net[j].looks| && net[j].looks[u].Sent? ==> net[j].looks[u] !in net[i].looks)
  }

  /** Every target before i with at most two puts outstanding was sent to, and no other. */
  ghost predicate Issued(nids: seq<nat>, counts: seq<int>, i: nat, issued: seq<bool>)
    requires forall k :: 0 <= k < |nids| ==> nids[k] < |counts|
  {
    |issued| == |nids| && forall k :: 0 <= k < |nids| ==> (issued[k] <==> k < i && counts[nids[k]] <= 2)
  }

  /** The puts still waiting are those issued and not reported. */
  ghost predicate Unreported(issued: seq<bool>, wait: seq<bool>, taken: seq<nat>)
  {
    && |wait| == |issued| && Waiting(issued) == |taken| + Waiting(wait)
    && (forall k :: 0 <= k < |wait| ==> (wait[k] <==> issued[k] && k !in taken))
    && (forall k :: k in taken ==> k < |issued| && issued[k])
  }

  /** The reports taken came from the turns before i, and include all that stood at the
      front of the queue in the turn of a put. */
  ghost predicate Heard(nids: seq<nat>, counts: seq<int>, net: seq<Turn>, i: nat, taken: seq<nat>)
    requires |net| == |nids| && forall k :: 0 <= k < |nids| ==> nids[k] < |counts|
  {
    && (forall k :: k in taken ==> exists j :: 0 <= j < i && j < |net| && Sent(k) in net[j].looks)
    && (forall j, u :: 0 <= j < i && j < |net| && counts[nids[j]] <= 2 && 0 <= u < |net[j].looks| && AllSent(net[j].looks, u + 1) ==>
          net[j].looks[u].i in taken)
  }

  ghost predicate AllSent(looks: seq<Look>, n: nat)
    requires n <= |looks|
  {
    forall u :: 0 <= u < n ==> looks[u].Sent?
  }

  lemma {:induction false} HeardMore(nids: seq<nat>, counts: seq<int>, net: seq<Turn>, i: nat, taken: seq<nat>, now: seq<nat>,
                                     wait: seq<bool>, wait': seq<bool>)
    requires |net| == |nids| && i < |nids| && (forall k :: 0 <= k < |nids| ==> nids[k] < |counts|)
    requires Heard(nids, counts, net, i, taken) && Polled(wait, net[i].looks, wait', now)
    ensures Heard(nids, counts, net, i + 1, taken + now)
  {
    var looks := net[i].looks;
    var n :| 0 <= n <= |looks| && (n == |looks| || looks[n].Empty?) && PolledUpTo(wait, looks, n, wait', now);
    forall k | k in taken + now ensures exists j :: 0 <= j < i + 1 && j < |net| && Sent(k) in net[j].looks {
      if k in taken {
        var j :| 0 <= j < i && j < |net| && Sent(k) in net[j].looks;
      } else {
        assert Sent(k) in looks[..n] && Sent(k) in net[i].looks;
      }
    }
    forall u | 0 <= u < |looks| && AllSent(looks, u + 1) ensures looks[u].i in now {
      assert looks[u].Sent?;
      if n <= u { assert looks[n].Sent?; }
    }
  }

  lemma {:induction false} UnreportedMore(issued: seq<bool>, wait: seq<bool>, taken: seq<nat>, i: nat, looks: seq<Look>, wait': seq<bool>, now: seq<nat>)
    requires i < |issued| && !issued[i] && Unreported(issued, wait, taken) && Polled(wait[i := true], looks, wait', now)
    ensures Unreported(issued[i := true], wait', taken + now)
  {
    SetWait(wait, i, true);
    SetWait(issued, i, true);
    var n :| 0 <= n <= |looks| && (n == |looks| || looks[n].Empty?) && PolledUpTo(wait[i := true], looks, n, wait', now);
  }

  /** Lawful reports of a turn name puts that wait. */
  lemma {:induction false} LegalTurn(nids: seq<nat>, counts: seq<int>, net: seq<Turn>, i: nat,
                                     wait: seq<bool>, issued: seq<bool>, taken: seq<nat>)
    requires |net| == |nids| && forall k :: 0 <= k < |nids| ==> nids[k] < |counts|
    requires i < |nids| && counts[nids[i]] <= 2 && LegalNet(nids, counts, net)
    requires Issued(nids, counts, i, issued) && Unreported(issued, wait, taken) && Heard(nids, counts, net, i, taken)
    ensures Legal(wait[i := true], net[i].looks)
  {
    var looks := net[i].looks;
    forall u | 0 <= u < |looks| && looks[u].Sent?
      ensures looks[u].i < |wait| && wait[i := true][looks[u].i] && forall v :: 0 <= v < u ==> looks[v] != looks[u]
    {
      var k := looks[u].i;
      assert k <= i && counts[nids[k]] <= 2;
    }
  }

  /** The loop over the targets: nodes with more than two puts outstanding are skipped; a
      put refused twice or a timeout ends it, before target cut. peak is the most puts
      ever in flight, taken are the puts reported. */
  method PutAll(nids: seq<nat>, counts: seq<int>, net: seq<Turn>)
    returns (puts: nat, sent: nat, wait: seq<bool>, issued: seq<bool>, peak: nat, end: Outcome, cut: nat, fatal: bool, ghost taken: seq<nat>)
    requires |net| == |nids| && forall i :: 0 <= i < |nids| ==> nids[i] < |counts|
    requires forall i, u :: 0 <= i < |net| && 0 <= u < |net[i].looks| && net[i].looks[u].Sent? ==> net[i].looks[u].i < |nids|
    ensures fatal ==> !LegalNet(nids, counts, net)
    ensures cut <= |nids| && peak <= MAX_ASYNC_SENDS + 1
    ensures !fatal ==> |issued| == |nids| && forall k :: 0 <= k < |nids| ==> (issued[k] <==> k < cut && counts[nids[k]] <= 2)
    ensures !fatal ==> Going(nids, counts, net, cut, puts, sent, wait, issued, peak, taken) && Ended(nids, counts, net, cut, wait, issued, end)
    ensures !fatal && end == Done ==> cut == |nids|
  {
    puts, sent, peak, cut, end, fatal, taken := 0, 0, 0, 0, Done, false, [];
    wait, issued := seq(|nids|, _ => false), seq(|nids|, _ => false);
    while cut < |nids| && end == Done && !fatal
      invariant cut <= |nids| && peak <= MAX_ASYNC_SENDS + 1
      invariant fatal ==> !LegalNet(nids, counts, net)
      invariant !fatal ==> Going(nids, counts, net, cut, puts, sent, wait, issued, peak, taken)
      invariant !fatal ==> Ended(nids, counts, net, cut, wait, issued, end)
      decreases |nids| - cut, if end == Done then 1 else 0, if fatal then 0 else 1
    {
      puts, sent, wait, issued, peak, end, cut, fatal, taken := TakeTurn(nids, counts, net, cut, puts, sent, wait, issued, peak, taken);
    }
  }

  /** One target: skipped, refused, or sent to. */
  method TakeTurn(nids: seq<nat>, counts: seq<int>, net: seq<Turn>, i: nat, puts: nat, sent: nat, wait: seq<bool>, issued: seq<bool>, peak: nat,
                  ghost taken: seq<nat>)
    returns (puts': nat, sent': nat, wait': seq<bool>, issued': seq<bool>, peak': nat, end: Outcome, cut: nat, fatal: bool, ghost taken': seq<nat>)
    requires |net| == |nids| && forall k :: 0 <= k < |nids| ==> nids[k] < |counts|
    requires i < |nids| && forall u :: 0 <= u < |net[i].looks| && net[i].looks[u].Sent? ==> net[i].looks[u].i < |nids|
    requires Going(nids, counts, net, i, puts, sent, wait, issued, peak, taken)
    requires Waiting(wait) <= MAX_ASYNC_SENDS && peak <= MAX_ASYNC_SENDS + 1
    ensures peak' <= MAX_ASYNC_SENDS + 1 && i <= cut <= i + 1 && (cut == i ==> end == Refused)
    ensures fatal ==> !LegalNet(nids, counts, net)
    ensures !fatal ==> Going(nids, counts, net, cut, puts', sent', wait', issued', peak', taken')
    ensures !fatal ==> Ended(nids, counts, net, cut, wait', issued', end)
  {
    puts', sent', wait', issued', peak', taken' := puts, sent, wait, issued, peak, taken;
    end, cut, fatal := Done, i, false;
    if counts[nids[i]] > 2 {
      SkipBlocked(nids, counts, net, i, puts, sent, wait, issued, peak, taken);
      cut := i + 1;
    } else if net[i].refused {
      end := Refused;
    } else {
      puts', sent', wait', issued', peak', end, fatal, taken' := PutOne(nids, counts, net, i, puts, sent, wait, issued, peak, taken);
      cut := i + 1;
    }
  }

  /** The books of the loop before target i. */
  ghost predicate Going(nids: seq<nat>, counts: seq<int>, net: seq<Turn>, i: nat, puts: nat, sent: nat,
                        wait: seq<bool>, issued: seq<bool>, peak: nat, taken: seq<nat>)
    requires |net| == |nids| && forall k :: 0 <= k < |nids| ==> nids[k] < |counts|
  {
    && Issued(nids, counts, i, issued) && Heard(nids, counts, net, i, taken) && Unreported(issued, wait, taken)
    && puts == Waiting(issued) && sent == |taken| && Waiting(wait) <= peak
  }

  lemma {:induction false} SkipBlocked(nids: seq<nat>, counts: seq<int>, net: seq<Turn>, i: nat, puts: nat, sent: nat,
                                       wait: seq<bool>, issued: seq<bool>, peak: nat, taken: seq<nat>)
    requires |net| == |nids| && i < |nids| && forall k :: 0 <= k < |nids| ==> nids[k] < |counts|
    requires counts[nids[i]] > 2 && Going(nids, counts, net, i, puts, sent, wait, issued, peak, taken)
    ensures Going(nids, counts, net, i + 1, puts, sent, wait, issued, peak, taken)
  {
  }

  /** Why the loop ended before target i, or that it did not. */
  ghost predicate Ended(nids: seq<nat>, counts: seq<int>, net: seq<Turn>, i: nat, wait: seq<bool>, issued: seq<bool>, end: Outcome)
    requires |net| == |nids| && |issued| == |nids| && i <= |nids| && forall k :: 0 <= k < |nids| ==> nids[k] < |counts|
  {
    match end
    case Done => Waiting(wait) <= MAX_ASYNC_SENDS
    case Refused => i < |nids| && counts[nids[i]] <= 2 && net[i].refused
    case Late => i > 0 && issued[i - 1] && (|nids| > MAX_ASYNC_SENDS || !Quiet(net[i - 1]))
  }

  /** One put, and the looks at the queue after it. */
  method PutOne(nids: seq<nat>, counts: seq<int>, net: seq<Turn>, i: nat, puts: nat, sent: nat, wait: seq<bool>, issued: seq<bool>, peak: nat,
                ghost taken: seq<nat>)
    returns (puts': nat, sent': nat, wait': seq<bool>, issued': seq<bool>, peak': nat, end: Outcome, fatal: bool, ghost taken': seq<nat>)
    requires |net| == |nids| && forall k :: 0 <= k < |nids| ==> nids[k] < |counts|
    requires i < |nids| && counts[nids[i]] <= 2 && forall u :: 0 <= u < |net[i].looks| && net[i].looks[u].Sent? ==> net[i].looks[u].i < |nids|
    requires Going(nids, counts, net, i, puts, sent, wait, issued, peak, taken)
    requires Waiting(wait) <= MAX_ASYNC_SENDS && peak <= MAX_ASYNC_SENDS + 1
    ensures fatal ==> !LegalNet(nids, counts, net)
    ensures peak <= peak' <= MAX_ASYNC_SENDS + 1 && Waiting(wait) + 1 <= peak'
    ensures !fatal ==> Going(nids, counts, net, i + 1, puts', sent', wait', issued', peak', taken')
    ensures !fatal ==> end != Refused && Ended(nids, counts, net, i + 1, wait', issued', end)
  {
    if LegalNet(nids, counts, net) { LegalTurn(nids, counts, net, i, wait, issued, taken); }
    SetWait(wait, i, true);
    SetWait(issued, i, true);
    WaitingBound(wait[i := true]);
    puts', issued', peak' := puts + 1, issued[i := true], peak;
    var marked := wait[i := true];
    if Waiting(marked) > peak' { peak' := Waiting(marked); }
    var reported, late;
    ghost var now;
    wait', reported, late, fatal, now := Poll(marked, net[i].looks);
    sent', taken' := sent + reported, taken + now;
    end := if late || net[i].timeout then Late else Done;
    if !fatal {
      UnreportedMore(issued, wait, taken, i, net[i].looks, wait', now);
      HeardMore(nids, counts, net, i, taken, now, marked, wait');
    }
  }
}
