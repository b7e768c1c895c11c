/** The receive loops that turn a stream of arriving tokens into a decision:
    `await_senders` of the Portals 3 library and the fan-in loop of the older
    system synchroniser. */
module TokenLoops {
  import opened Sequences

  datatype Id = Id(nid: int, pid: int)

  /** The senders marked as having arrived. */
  ghost function Marked(senders: seq<Id>, got: seq<bool>): multiset<Id>
    requires |senders| == |got|
  {
    if senders == [] then multiset{}
    else Marked(senders[1..], got[1..]) + (if got[0] then multiset{senders[0]} else multiset{})
  }

  lemma {:induction false} MarkOne(senders: seq<Id>, got: seq<bool>, i: nat)
    requires |senders| == |got| && i < |got| && !got[i]
    ensures Marked(senders, got[i := true]) == Marked(senders, got) + multiset{senders[i]}
  {
    if i > 0 {
      MarkOne(senders[1..], got[1..], i - 1);
      assert got[i := true][1..] == got[1..][i - 1 := true];
    } else {
      assert got[i := true][1..] == got[1..];
    }
  }

  lemma {:induction false} NoneMarked(senders: seq<Id>, got: seq<bool>)
    requires |senders| == |got| && forall i :: 0 <= i < |got| ==> !got[i]
    ensures Marked(senders, got) == multiset{}
  {
    if senders != [] { NoneMarked(senders[1..], got[1..]); }
  }

  lemma {:induction false} CountMarked(senders: seq<Id>, got: seq<bool>)
    requires |senders| == |got|
    ensures |Marked(senders, got)| <= |senders|
    ensures |Marked(senders, got)| == |senders| <==> forall i :: 0 <= i < |got| ==> got[i]
  {
    if senders != [] {
      CountMarked(senders[1..], got[1..]);
      assert forall i :: 1 <= i < |got| ==> got[1..][i - 1] == got[i];
      if forall i :: 0 <= i < |got| ==> got[i] { assert forall i :: 0 <= i < |got[1..]| ==> got[1..][i]; }
      if got[0] && forall i :: 0 <= i < |got[1..]| ==> got[1..][i] {
        forall i | 0 <= i < |got| ensures got[i] { if i > 0 { assert got[1..][i - 1]; } }
      }
    }
  }

  /** How the events consumed so far split into matched and saved ones. */
  ghost predicate Split(senders: seq<Id>, got: seq<bool>, evs: seq<Id>, saved: seq<Id>)
  {
    && |senders| == |got|
    && multiset(evs) == Marked(senders, got) + multiset(saved)
    && (forall i :: 0 <= i < |got| && !got[i] ==> senders[i] !in saved)
  }

  lemma {:induction false} MarkedIff(senders: seq<Id>, got: seq<bool>, e: Id)
    requires |senders| == |got|
    ensures e in Marked(senders, got) <==> exists i :: 0 <= i < |got| && got[i] && senders[i] == e
  {
    if senders != [] {
      MarkedIff(senders[1..], got[1..], e);
      if i :| 0 <= i < |got| && got[i] && senders[i] == e {
        if i > 0 { assert got[1..][i - 1] && senders[1..][i - 1] == e; }
      }
    }
  }

  /** With distinct senders a sender is matched exactly when it showed up. */
  lemma {:induction false} MatchedIffArrived(senders: seq<Id>, got: seq<bool>, evs: seq<Id>, saved: seq<Id>, i: nat)
    requires Split(senders, got, evs, saved) && Distinct(senders) && i < |got|
    ensures got[i] <==> senders[i] in evs
  {
    MarkedIff(senders, got, senders[i]);
    assert senders[i] in evs <==> senders[i] in multiset(evs);
    assert senders[i] in saved <==> senders[i] in multiset(saved);
  }

  /** The events that nobody waits for: more have come from their sender by then
      than the list names it. */
  ghost function Unexpected(senders: seq<Id>, evs: seq<Id>): seq<Id>
  {
    if evs == [] then []
    else
      var ev := evs[|evs| - 1];
      Unexpected(senders, evs[..|evs| - 1]) + if multiset(evs)[ev] > multiset(senders)[ev] then [ev] else []
  }

  lemma {:induction false} MarkedAll(senders: seq<Id>, got: seq<bool>, ev: Id)
    requires |senders| == |got| && forall j :: 0 <= j < |got| ==> got[j] || senders[j] != ev
    ensures Marked(senders, got)[ev] == multiset(senders)[ev]
  {
    if senders != [] {
      MarkedAll(senders[1..], got[1..], ev);
      assert senders == [senders[0]] + senders[1..];
    }
  }

  /** The event matched to no sender is the one that came too often. */
  lemma {:induction false} UnexpectedStep(senders: seq<Id>, got: seq<bool>, evs: seq<Id>, saved: seq<Id>, ev: Id, i: nat)
    requires Split(senders, got, evs, saved) && i <= |senders|
    requires forall j :: 0 <= j < i ==> got[j] || senders[j] != ev
    requires i < |senders| ==> !got[i] && senders[i] == ev
    ensures Unexpected(senders, evs + [ev]) == Unexpected(senders, evs) + if i == |senders| then [ev] else []
  {
    assert (evs + [ev])[..|evs|] == evs;
    if i == |senders| {
      MarkedAll(senders, got, ev);
    } else {
      MarkedAtMost(senders, got, i);
      assert multiset(saved)[ev] == 0;
    }
  }

  lemma {:induction false} SplitStep(senders: seq<Id>, got: seq<bool>, evs: seq<Id>, saved: seq<Id>, ev: Id, i: nat)
    requires Split(senders, got, evs, saved) && i <= |senders|
    requires forall j :: 0 <= j < i ==> got[j] || senders[j] != ev
    requires i < |senders| ==> !got[i] && senders[i] == ev
    ensures i < |senders| ==> Split(senders, got[i := true], evs + [ev], saved)
    ensures i < |senders| ==> |Marked(senders, got[i := true])| == |Marked(senders, got)| + 1
    ensures i == |senders| ==> Split(senders, got, evs + [ev], saved + [ev])
  {
    if i < |senders| { MarkOne(senders, got, i); }
  }

  lemma {:induction false} AllMarked(senders: seq<Id>, got: seq<bool>)
    requires |senders| == |got| && forall i :: 0 <= i < |got| ==> got[i]
    ensures Marked(senders, got) == multiset(senders)
  {
    if senders != [] {
      AllMarked(senders[1..], got[1..]);
      assert senders == [senders[0]] + senders[1..];
    }
  }

  lemma {:induction false} MarkedAtMost(senders: seq<Id>, got: seq<bool>, i: nat)
    requires |senders| == |got|
    ensures Marked(senders, got) <= multiset(senders)
    ensures i < |got| && !got[i] ==> Marked(senders, got)[senders[i]] < multiset(senders)[senders[i]]
  {
    if senders != [] {
      MarkedAtMost(senders[1..], got[1..], if i > 0 then i - 1 else |got|);
      assert senders == [senders[0]] + senders[1..];
    }
  }

  /** While a sender is unmatched, the events so far do not cover the senders. */
  lemma {:induction false} NotYet(senders: seq<Id>, got: seq<bool>, evs: seq<Id>, saved: seq<Id>)
    requires Split(senders, got, evs, saved) && |Marked(senders, got)| < |senders|
    ensures !(multiset(senders) <= multiset(evs))
  {
    CountMarked(senders, got);
    var i :| 0 <= i < |got| && !got[i];
    MarkedAtMost(senders, got, i);
    assert multiset(saved)[senders[i]] == 0;
  }

  /** Once every sender is matched, the events so far cover the senders. */
  lemma {:induction false} AllHere(senders: seq<Id>, got: seq<bool>, events: seq<Id>, used: nat, saved: seq<Id>)
    requires used <= |events| && Split(senders, got, events[..used], saved) && |Marked(senders, got)| == |senders|
    ensures forall i :: 0 <= i < |got| ==> got[i]
    ensures multiset(senders) <= multiset(events[..used]) && multiset(senders) <= multiset(events)
  {
    CountMarked(senders, got);
    AllMarked(senders, got);
    assert events[..used] + events[used..] == events;
  }

  lemma {:induction false} TooFew(senders: seq<Id>, got: seq<bool>, events: seq<Id>, used: nat, saved: seq<Id>)
    requires used == |events| && Split(senders, got, events[..used], saved) && |Marked(senders, got)| < |senders|
    ensures !(multiset(senders) <= multiset(events))
  {
    NotYet(senders, got, events[..used], saved);
    assert events[..used] == events;
  }

  ghost predicate Covers(senders: seq<Id>, evs: seq<Id>)
  {
    multiset(senders) <= multiset(evs)
  }

  /** No fewer than this many events cover the senders. */
  ghost predicate NoFewer(senders: seq<Id>, events: seq<Id>, used: nat)
    requires used <= |events|
  {
    forall u :: 0 <= u < used ==> !Covers(senders, events[..u])
  }

  /** The first sender, not yet marked, that the event can come from. */
  method FindSender(senders: seq<Id>, got: seq<bool>, ev: Id) returns (i: nat)
    requires |senders| == |got|
    ensures i <= |senders|
    ensures forall j :: 0 <= j < i ==> got[j] || senders[j] != ev
    ensures i < |senders| ==> !got[i] && senders[i] == ev
  {
    i := 0;
    while i < |senders| && (got[i] || senders[i] != ev)
      invariant i <= |senders|
      invariant forall j :: 0 <= j < i ==> got[j] || senders[j] != ev
    {
      i := i + 1;
    }
  }

  method FirstMissing(got: seq<bool>) returns (i: nat)
    requires exists j :: 0 <= j < |got| && !got[j]
    ensures i < |got| && !got[i] && forall j :: 0 <= j < i ==> got[j]
  {
    i := 0;
    while got[i]
      invariant i < |got| && forall j :: 0 <= j < i ==> got[j]
      invariant exists j :: i <= j < |got| && !got[j]
      decreases |got| - i
    {
      i := i + 1;
    }
  }

  lemma {:induction false} OneMore(senders: seq<Id>, got: seq<bool>, events: seq<Id>, used: nat, saved: seq<Id>)
    requires used < |events| && Split(senders, got, events[..used], saved) && |Marked(senders, got)| < |senders|
    requires NoFewer(senders, events, used)
    ensures NoFewer(senders, events, used + 1) && events[..used + 1] == events[..used] + [events[used]]
  {
    NotYet(senders, got, events[..used], saved);
    assert !Covers(senders, events[..used]);
  }

  /** One event: marked against a sender that is still awaited, or saved. */
  method TakeEvent(senders: seq<Id>, got: seq<bool>, ndone: nat, saved: seq<Id>, ghost evs: seq<Id>, ev: Id)
      returns (got': seq<bool>, ndone': nat, saved': seq<Id>)
    requires Split(senders, got, evs, saved) && saved == Unexpected(senders, evs) && ndone == |Marked(senders, got)|
    ensures Split(senders, got', evs + [ev], saved') && saved' == Unexpected(senders, evs + [ev])
    ensures ndone' == |Marked(senders, got')|
  {
    got', ndone', saved' := got, ndone, saved;
    var i := FindSender(senders, got, ev);
    SplitStep(senders, got, evs, saved, ev, i);
    UnexpectedStep(senders, got, evs, saved, ev, i);
    if i < |senders| {
      got', ndone' := got[i := true], ndone + 1;
    } else {
      saved' := saved + [ev];
    }
  }

  /** `await_senders` with an empty list of saved events: `events` are the
      initiators that the event queue yields before the timeout, `saved` the
      events handed to `addEventList`, in order. Every event is either matched
      to one sender or saved; nothing is lost or counted twice.
      The call succeeds exactly when every sender is matched, which for distinct
      senders means that each showed up; when it fails all events were looked at
      and it names the first sender missing. */
  method AwaitSenders(senders: seq<Id>, events: seq<Id>)
      returns (ok: bool, got: seq<bool>, used: nat, saved: seq<Id>, missing: nat)
    ensures used <= |events| && Split(senders, got, events[..used], saved)
    ensures saved == Unexpected(senders, events[..used])
    ensures ok ==> forall i :: 0 <= i < |got| ==> got[i]
    ensures !ok ==> used == |events| && missing < |got| && !got[missing] && forall i :: 0 <= i < missing ==> got[i]
    ensures ok <==> multiset(senders) <= multiset(events)
    ensures ok ==> multiset(senders) <= multiset(events[..used])
    ensures NoFewer(senders, events, used)
  {
    got := seq(|senders|, _ => false);
    NoneMarked(senders, got);
    var ndone := 0;
    used, saved, missing := 0, [], 0;
    while ndone < |senders| && used < |events|
      invariant used <= |events| && Split(senders, got, events[..used], saved)
      invariant saved == Unexpected(senders, events[..used])
      invariant ndone == |Marked(senders, got)|
      invariant NoFewer(senders, events, used)
      decreases |events| - used
    {
      OneMore(senders, got, events, used, saved);
      got, ndone, saved := TakeEvent(senders, got, ndone, saved, events[..used], events[used]);
      used := used + 1;
    }
    CountMarked(senders, got);
    ok := ndone == |senders|;
    if ok {
      AllHere(senders, got, events, used, saved);
    } else {
      missing := FirstMissing(got);
      TooFew(senders, got, events, used, saved);
    }
  }

  // ---- the fan-in loop of dsrvr_system_synchronization

  /** A system control message: the sender's group rank (negative if it is not a
      member), its process id and the message type. */
  datatype Msg = Msg(rank: int, pid: int, mtype: int)

  ghost function Ranks(msgs: seq<Msg>): (r: seq<int>)
    ensures |r| == |msgs| && forall i :: 0 <= i < |msgs| ==> r[i] == msgs[i].rank
  {
    if msgs == [] then [] else Ranks(msgs[..|msgs| - 1]) + [msgs[|msgs| - 1].rank]
  }

  /** The process id in the latest message from a rank; 0 if there is none. */
  ghost function LastPid(msgs: seq<Msg>, rank: int): int
  {
    if msgs == [] then 0
    else
      var m := msgs[|msgs| - 1];
      if m.rank == rank then m.pid else LastPid(msgs[..|msgs| - 1], rank)
  }

  lemma {:induction false} NoMessageNoPid(msgs: seq<Msg>, rank: int)
    ensures LastPid(msgs, rank) != 0 ==> rank in Ranks(msgs)
  {
    if msgs != [] && msgs[|msgs| - 1].rank != rank { NoMessageNoPid(msgs[..|msgs| - 1], rank); }
  }

  lemma {:induction false} OnlyPid(msgs: seq<Msg>, k: nat)
    requires Distinct(Ranks(msgs)) && k < |msgs|
    ensures LastPid(msgs, msgs[k].rank) == msgs[k].pid
  {
    var n := |msgs| - 1;
    if k < n {
      assert Ranks(msgs)[k] != Ranks(msgs)[n];
      assert forall i :: 0 <= i < n ==> Ranks(msgs[..n])[i] == Ranks(msgs)[i];
      OnlyPid(msgs[..n], k);
    }
  }

  lemma {:induction false} OccursOnce(b: seq<int>, x: int)
    requires Distinct(b)
    ensures multiset(b)[x] <= 1
  {
    if b != [] {
      OccursOnce(b[1..], x);
      assert b == [b[0]] + b[1..];
      assert b[0] !in b[1..];
    }
  }

  lemma {:induction false} SameElementsDistinct(a: seq<int>, b: seq<int>)
    requires Distinct(b) && multiset(a) == multiset(b)
    ensures Distinct(a)
  {
    forall i, j | 0 <= i < j < |a| ensures a[i] != a[j] {
      OccursOnce(b, a[i]);
      assert a == a[..j] + [a[j]] + a[j + 1..];
      assert a[i] in a[..j];
    }
  }

  /** n messages that mention n distinct ranks mention each exactly once. */
  lemma {:induction false} EachOnce(a: seq<int>, b: seq<int>)
    requires Distinct(b) && forall x :: x in b ==> x in a
    ensures |b| <= |a|
    ensures |a| == |b| ==> multiset(a) == multiset(b)
  {
    if b != [] {
      assert b[0] in b;
      var k :| 0 <= k < |a| && a[k] == b[0];
      var a' := a[..k] + a[k + 1..];
      assert a == a[..k] + [a[k]] + a[k + 1..];
      assert b == [b[0]] + b[1..];
      forall x | x in b[1..] ensures x in a' {
        assert x in b && x != b[0];
        assert x in a[..k] || x in a[k + 1..];
      }
      EachOnce(a', b[1..]);
      assert multiset(a) == multiset(a') + multiset{a[k]};
    }
  }

  /** The test made after the loop: no noted process id is zero exactly when the
      n messages seen are one from each child with a non-zero process id. */
  lemma {:induction false} TestIsExact(chRank: seq<int>, seen: seq<Msg>)
    requires Distinct(chRank) && |seen| <= |chRank|
    ensures (forall i :: 0 <= i < |chRank| ==> LastPid(seen, chRank[i]) != 0) <==>
            && multiset(Ranks(seen)) == multiset(chRank)
            && forall k :: 0 <= k < |seen| ==> seen[k].pid != 0
  {
    if forall i :: 0 <= i < |chRank| ==> LastPid(seen, chRank[i]) != 0 {
      forall x | x in chRank ensures x in Ranks(seen) { NoMessageNoPid(seen, x); }
      EachOnce(Ranks(seen), chRank);
      SameElementsDistinct(Ranks(seen), chRank);
      forall k | 0 <= k < |seen| ensures seen[k].pid != 0 {
        OnlyPid(seen, k);
        assert Ranks(seen)[k] in multiset(chRank);
      }
    }
    if multiset(Ranks(seen)) == multiset(chRank) && forall k :: 0 <= k < |seen| ==> seen[k].pid != 0 {
      SameElementsDistinct(Ranks(seen), chRank);
      forall i | 0 <= i < |chRank| ensures LastPid(seen, chRank[i]) != 0 {
        assert chRank[i] in multiset(Ranks(seen));
        var k :| 0 <= k < |seen| && Ranks(seen)[k] == chRank[i];
        OnlyPid(seen, k);
      }
    }
  }

  /** One message of the right type from each child, in any order, with no
      process id zero (the code's mark for a missing token). */
  ghost predicate TokenFromEach(chRank: seq<int>, msgs: seq<Msg>, msgtype: int)
  {
    && multiset(Ranks(msgs)) == multiset(chRank)
    && forall k :: 0 <= k < |msgs| ==> msgs[k].pid != 0 && msgs[k].mtype == msgtype
  }

  /** Fan-in of the synchroniser: it accepts exactly when the next messages are
      one token from each child; it then knows each child's process id. */
  method CollectTokens(chRank: seq<int>, msgs: seq<Msg>, msgtype: int) returns (ok: bool, chPid: seq<int>)
    requires Distinct(chRank)
    ensures ok <==> |msgs| >= |chRank| && TokenFromEach(chRank, msgs[..|chRank|], msgtype)
    ensures |chPid| == |chRank|
    ensures ok ==> forall i :: 0 <= i < |chRank| ==> chPid[i] == LastPid(msgs[..|chRank|], chRank[i])
  {
    chPid := seq(|chRank|, _ => 0);
    var status, i := true, 0;
    while status && i < |chRank| && i < |msgs|
      invariant i <= |chRank| && i <= |msgs| && |chPid| == |chRank|
      invariant forall j :: 0 <= j < |chRank| ==> chPid[j] == LastPid(msgs[..i], chRank[j])
      invariant if status then forall k :: 0 <= k < i ==> msgs[k].mtype == msgtype
                else exists k :: 0 <= k < i && (msgs[k].rank !in chRank || msgs[k].mtype != msgtype)
    {
      var m := msgs[i];
      assert msgs[..i + 1][..i] == msgs[..i];
      var ii := FindChild(chRank, m.rank);
      if ii < |chRank| {
        chPid := chPid[ii := m.pid];
        status := m.mtype == msgtype;
      } else {
        status := false;
      }
      i := i + 1;
    }
    var allThere := AllNonZero(chPid);
    ok := status && allThere;
    if status { AllRead(chRank, msgs, msgtype, i); } else { BadMessage(chRank, msgs, msgtype, i); }
  }

  /** The decision after a loop that found no bad message. */
  lemma {:induction false} AllRead(chRank: seq<int>, msgs: seq<Msg>, msgtype: int, i: nat)
    requires Distinct(chRank) && i <= |chRank| && i <= |msgs| && (i == |chRank| || i == |msgs|)
    requires forall k :: 0 <= k < i ==> msgs[k].mtype == msgtype
    ensures (forall j :: 0 <= j < |chRank| ==> LastPid(msgs[..i], chRank[j]) != 0)
       <==> |msgs| >= |chRank| && TokenFromEach(chRank, msgs[..|chRank|], msgtype)
  {
    TestIsExact(chRank, msgs[..i]);
    if i < |chRank| {
      assert |multiset(Ranks(msgs))| == |msgs| && |multiset(chRank)| == |chRank|;
      assert msgs[..i] == msgs;
    }
  }

  lemma {:induction false} BadMessage(chRank: seq<int>, msgs: seq<Msg>, msgtype: int, i: nat)
    requires i <= |chRank| && i <= |msgs|
    requires exists k :: 0 <= k < i && (msgs[k].rank !in chRank || msgs[k].mtype != msgtype)
    ensures |msgs| >= |chRank| ==> !TokenFromEach(chRank, msgs[..|chRank|], msgtype)
  {
    var k :| 0 <= k < i && (msgs[k].rank !in chRank || msgs[k].mtype != msgtype);
    if |msgs| >= |chRank| {
      var ms := msgs[..|chRank|];
      assert ms[k] == msgs[k];
      assert Ranks(ms)[k] in multiset(Ranks(ms));
    }
  }

  method FindChild(chRank: seq<int>, rank: int) returns (i: nat)
    ensures i <= |chRank| && (i < |chRank| ==> chRank[i] == rank)
    ensures i == |chRank| ==> rank !in chRank
  {
    i := 0;
    while i < |chRank| && chRank[i] != rank
      invariant i <= |chRank| && rank !in chRank[..i]
    {
      i := i + 1;
    }
  }

  method AllNonZero(chPid: seq<int>) returns (b: bool)
    ensures b <==> 0 !in chPid
  {
    var i := 0;
    while i < |chPid| && chPid[i] != 0
      invariant i <= |chPid| && 0 !in chPid[..i]
    {
      i := i + 1;
    }
    b := i == |chPid|;
  }
}
