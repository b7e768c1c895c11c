/** How many messages a control portal is sure to hold between calls: the exact bound,
    and a run that loses a message although no more than maxMsgs come from the start
    of one call to the start of the next. */
module CtlBufferRuns {
  import opened CtlBuffers

  datatype Run = Run(states: seq<State>, events: seq<Event>)

  /** The arrivals since the last call began, or since the start. */
  function Gap(events: seq<Event>): nat
    decreases |events|
  {
    if events == [] then 0
    else
      var e, g := events[|events| - 1], Gap(events[..|events| - 1]);
      if e.Call? then 0 else if e.Arrive? then g + 1 else g
  }

  /** At most gap messages come from the start of each call to the start of the next. */
  ghost predicate CallSpaced(gap: nat, events: seq<Event>)
  {
    forall i :: 0 <= i <= |events| ==> Gap(events[..i]) <= gap
  }

  /** Every message finds at most window earlier ones since the start of some call that
      has returned by then. */
  ghost predicate WindowSpaced(window: nat, r: Run)
    requires |r.states| == |r.events| + 1
  {
    forall k :: 0 <= k < |r.events| && r.events[k].Arrive? ==> FewSince(window, r.states, r.events, k)
  }

  datatype Limit = Limit(window: nat, gap: nat)

  ghost predicate Spaced(n: nat, l: Limit, r: Run)
  {
    IsRun(n, r.states, r.events) && WindowSpaced(l.window, r) && CallSpaced(l.gap, r.events)
  }

  ghost function End(r: Run): State
    requires |r.states| == |r.events| + 1
  {
    r.states[|r.events|]
  }

  /** Arrivals may be counted from event c. */
  ghost predicate Anchored(r: Run, c: nat)
    requires |r.states| == |r.events| + 1
  {
    c <= |r.events| && (c == 0 || Returned(r.states, r.events, c, |r.events|))
  }

  ghost function Count(r: Run, c: nat): nat
    requires c <= |r.events|
  {
    Between(r.events, c, |r.events|)
  }

  ghost function Then(n: nat, r: Run, e: Event): Run
    requires |r.states| == |r.events| + 1 && Enabled(End(r), e)
  {
    Run(r.states + [Apply(n, End(r), e)], r.events + [e])
  }

  lemma {:induction false} ReturnedStays(n: nat, r: Run, e: Event, c: nat, k: nat)
    requires |r.states| == |r.events| + 1 && Enabled(End(r), e) && k <= |r.events|
    ensures var r' := Then(n, r, e);
            Returned(r'.states, r'.events, c, k) <==> Returned(r.states, r.events, c, k)
  {
    var r' := Then(n, r, e);
    assert forall i :: 0 <= i < |r.states| ==> r'.states[i] == r.states[i];
    assert c < |r.events| ==> r'.events[c] == r.events[c];
  }

  lemma {:induction false} FewStays(n: nat, bound: nat, r: Run, e: Event, k: nat)
    requires |r.states| == |r.events| + 1 && Enabled(End(r), e) && k <= |r.events| && FewSince(bound, r.states, r.events, k)
    ensures FewSince(bound, Then(n, r, e).states, Then(n, r, e).events, k)
  {
    var r' := Then(n, r, e);
    var c :| 0 <= c <= k && (c == 0 || Returned(r.states, r.events, c, k)) && Between(r.events, c, k) <= bound;
    ReturnedStays(n, r, e, c, k);
    assert r'.events[c..k] == r.events[c..k];
  }

  lemma {:induction false} ExtendRun(n: nat, r: Run, e: Event)
    requires n > 0 && IsRun(n, r.states, r.events) && Enabled(End(r), e)
    ensures var r' := Then(n, r, e);
            IsRun(n, r'.states, r'.events) && End(r') == Apply(n, End(r), e)
  {
    var r' := Then(n, r, e);
    forall i | 0 <= i < |r'.events|
      ensures Enabled(r'.states[i], r'.events[i]) && r'.states[i + 1] == Apply(n, r'.states[i], r'.events[i])
    {
      assert r'.states[i] == r.states[i];
      if i < |r.events| {
        assert r'.events[i] == r.events[i] && r'.states[i + 1] == r.states[i + 1];
      }
    }
  }

  lemma {:induction false} ExtendCount(n: nat, r: Run, e: Event, c: nat)
    requires |r.states| == |r.events| + 1 && Enabled(End(r), e) && c <= |r.events|
    ensures var r' := Then(n, r, e);
            && (Anchored(r, c) ==> Anchored(r', c))
            && Count(r', c) == Count(r, c) + (if e.Arrive? then 1 else 0)
  {
    var r' := Then(n, r, e);
    BetweenStep(r'.events, c, |r.events|);
    assert r'.events[c..|r.events|] == r.events[c..|r.events|];
    if c > 0 && Anchored(r, c) {
      ReturnedStays(n, r, e, c, |r.events|);
      var i :| c < i <= |r.events| && r'.states[i].pc.Idle?;
    }
  }

  /** r' goes on from r with w more arrivals. */
  ghost predicate GoesOn(r: Run, r': Run, w: nat)
    requires |r.states| == |r.events| + 1 && |r'.states| == |r'.events| + 1
  {
    && r.events <= r'.events
    && Gap(r'.events) == Gap(r.events) + w
    && forall c :: 0 <= c <= |r.events| ==> (Anchored(r, c) ==> Anchored(r', c)) && Count(r', c) == Count(r, c) + w
  }

  /** r' goes on from r with the start of a call. */
  ghost predicate Called(r: Run, r': Run)
    requires |r.states| == |r.events| + 1 && |r'.states| == |r'.events| + 1
  {
    && |r'.events| == |r.events| + 1 && r.events <= r'.events && r'.events[|r.events|] == Call && Gap(r'.events) == 0
    && forall c :: 0 <= c <= |r.events| ==> (Anchored(r, c) ==> Anchored(r', c)) && Count(r', c) == Count(r, c)
  }

  lemma {:induction false} ExtendGap(events: seq<Event>, e: Event, gap: nat)
    requires CallSpaced(gap, events) && (e.Arrive? ==> Gap(events) < gap)
    ensures CallSpaced(gap, events + [e])
    ensures Gap(events + [e]) == if e.Call? then 0 else if e.Arrive? then Gap(events) + 1 else Gap(events)
  {
    var events' := events + [e];
    assert events'[..|events|] == events && events[..|events|] == events;
    forall i | 0 <= i <= |events'| ensures Gap(events'[..i]) <= gap {
      if i <= |events| { assert events'[..i] == events[..i]; } else { assert events'[..i] == events'; }
    }
  }

  lemma {:induction false} ExtendWindow(n: nat, window: nat, r: Run, e: Event, c: nat)
    requires |r.states| == |r.events| + 1 && WindowSpaced(window, r) && Enabled(End(r), e)
    requires e.Arrive? ==> Anchored(r, c) && Count(r, c) <= window
    ensures WindowSpaced(window, Then(n, r, e))
  {
    var r' := Then(n, r, e);
    forall k | 0 <= k < |r'.events| && r'.events[k].Arrive? ensures FewSince(window, r'.states, r'.events, k) {
      if k == |r.events| {
        assert Between(r.events, c, k) == Count(r, c);
      } else {
        assert r'.events[k] == r.events[k];
      }
      assert FewSince(window, r.states, r.events, k);
      FewStays(n, window, r, e, k);
    }
  }

  /** One more event keeps a run spaced, if the limits allow it. */
  lemma {:induction false} Extend(n: nat, l: Limit, r: Run, e: Event, c: nat)
    requires n > 0 && Spaced(n, l, r) && Enabled(End(r), e)
    requires e.Arrive? ==> Anchored(r, c) && Count(r, c) <= l.window && Gap(r.events) < l.gap
    ensures var r' := Then(n, r, e);
            && Spaced(n, l, r') && End(r') == Apply(n, End(r), e)
            && (!e.Call? ==> GoesOn(r, r', if e.Arrive? then 1 else 0))
            && (e.Call? ==> Called(r, r'))
  {
    var r' := Then(n, r, e);
    ExtendRun(n, r, e);
    ExtendGap(r.events, e, l.gap);
    ExtendWindow(n, l.window, r, e, c);
    forall c | 0 <= c <= |r.events|
      ensures (Anchored(r, c) ==> Anchored(r', c)) && Count(r', c) == Count(r, c) + (if e.Arrive? then 1 else 0)
    {
      ExtendCount(n, r, e, c);
    }
  }

  lemma {:induction false} OneMore(n: nat, l: Limit, r: Run, e: Event, c: nat) returns (r': Run)
    requires n > 0 && Spaced(n, l, r) && Enabled(End(r), e)
    requires e.Arrive? ==> Anchored(r, c) && Count(r, c) <= l.window && Gap(r.events) < l.gap
    requires !e.Call?
    ensures Spaced(n, l, r') && End(r') == Apply(n, End(r), e) && GoesOn(r, r', if e.Arrive? then 1 else 0)
  {
    Extend(n, l, r, e, c);
    r' := Then(n, r, e);
  }

  lemma {:induction false} Onward(a: Run, b: Run, c: Run, v: nat, w: nat)
    requires |a.states| == |a.events| + 1 && |b.states| == |b.events| + 1 && |c.states| == |c.events| + 1
    requires GoesOn(a, b, v) && GoesOn(b, c, w)
    ensures GoesOn(a, c, v + w)
  {
  }

  lemma {:induction false} RunInv(n: nat, l: Limit, r: Run)
    requires n > 0 && Spaced(n, l, r)
    ensures Inv(n, End(r))
  {
    InvHolds(n, r.states, r.events, |r.events|);
  }

  // ---- where a run stands

  /** Where the server is, where the next scan starts, and how full the buffers are. */
  ghost predicate Standing(s: State, pc: Pc, next: nat, fill1: nat, fill2: nat)
  {
    s.pc == pc && s.buf1.nextread == next && s.buf1.fill == fill1 && s.buf2.fill == fill2
  }

  ghost predicate Waiting(s: State, next: nat, fill1: nat, fill2: nat)
  {
    Standing(s, Idle, next, fill1, fill2)
  }

  /** Inside a scan. */
  ghost predicate Scanning(s: State, second: bool, i: nat, fill1: nat, fill2: nat)
  {
    s.pc == Test(second, i) && s.buf1.fill == fill1 && s.buf2.fill == fill2
  }

  lemma {:induction false} ArriveStanding(n: nat, s: State, pc: Pc, next: nat, fill1: nat, fill2: nat)
    requires Inv(n, s) && Standing(s, pc, next, fill1, fill2) && fill1 + fill2 < 2 * n
    requires pc.Idle? || (pc.Test? && !pc.second)
    ensures var s' := Apply(n, s, Arrive(0));
            if fill1 < n then Standing(s', pc, next, fill1 + 1, fill2) else Standing(s', pc, next, fill1, fill2 + 1)
  {
  }

  /** Two steps take one waiting message. */
  lemma {:induction false} TakeOne(n: nat, s: State, second: bool, i: nat, fill1: nat, fill2: nat)
    requires Inv(n, s) && Scanning(s, second, i, fill1, fill2) && i < (if second then fill2 else fill1)
    ensures Enabled(s, Step)
    ensures var s1 := Apply(n, s, Step);
            && Enabled(s1, Step)
            && var s2 := Apply(n, s1, Step);
            && (i + 1 < n ==> Scanning(s2, second, i + 1, fill1, fill2))
            && (i + 1 == n && !second ==> Scanning(s2, true, 0, fill1, fill2))
  {
    assert Apply(n, s, Step) == s.(pc := Take(second, i));
    assert Scanned(s, second).slots[i].Unprocessed?;
  }

  lemma {:induction false} FillOne(n: nat, l: Limit, r: Run, c: nat, pc: Pc, next: nat, fill1: nat, fill2: nat) returns (r': Run)
    requires n > 0 && Spaced(n, l, r) && Anchored(r, c) && Count(r, c) <= l.window && Gap(r.events) < l.gap
    requires Standing(End(r), pc, next, fill1, fill2) && fill1 + fill2 < 2 * n && (pc.Idle? || (pc.Test? && !pc.second))
    ensures Spaced(n, l, r') && GoesOn(r, r', 1)
    ensures if fill1 < n then Standing(End(r'), pc, next, fill1 + 1, fill2) else Standing(End(r'), pc, next, fill1, fill2 + 1)
  {
    RunInv(n, l, r);
    ArriveStanding(n, End(r), pc, next, fill1, fill2);
    r' := OneMore(n, l, r, Arrive(0), c);
  }

  /** m arrivals, counted from event c, between calls or as a call begins. */
  lemma {:induction false} FillUp(n: nat, l: Limit, r: Run, c: nat, m: nat, pc: Pc, next: nat, fill1: nat, fill2: nat) returns (r': Run)
    requires n > 0 && Spaced(n, l, r) && Anchored(r, c) && Count(r, c) + m <= l.window + 1 && Gap(r.events) + m <= l.gap
    requires Standing(End(r), pc, next, fill1, fill2) && fill1 + fill2 + m <= 2 * n
    requires fill1 <= n && (pc.Idle? || (pc.Test? && !pc.second))
    ensures Spaced(n, l, r') && GoesOn(r, r', m)
    ensures var f := if fill1 + m <= n then fill1 + m else n;
            Standing(End(r'), pc, next, f, fill1 + fill2 + m - f)
    decreases m
  {
    r' := r;
    if m > 0 {
      var q := FillOne(n, l, r, c, pc, next, fill1, fill2);
      if fill1 < n {
        r' := FillUp(n, l, q, c, m - 1, pc, next, fill1 + 1, fill2);
      } else {
        r' := FillUp(n, l, q, c, m - 1, pc, next, fill1, fill2 + 1);
      }
      Onward(r, q, r', 1, m - 1);
    }
  }

  lemma {:induction false} ScanOne(n: nat, l: Limit, r: Run, second: bool, i: nat, fill1: nat, fill2: nat) returns (r': Run)
    requires n > 0 && Spaced(n, l, r) && Scanning(End(r), second, i, fill1, fill2)
    requires i < (if second then fill2 else fill1) && (second ==> i + 1 < n)
    ensures Spaced(n, l, r') && GoesOn(r, r', 0)
    ensures if i + 1 < n then Scanning(End(r'), second, i + 1, fill1, fill2) else Scanning(End(r'), true, 0, fill1, fill2)
  {
    RunInv(n, l, r);
    TakeOne(n, End(r), second, i, fill1, fill2);
    r' := TwoSteps(n, l, r);
  }

  /** m messages taken by a scan that does not reach the end of its buffer. */
  lemma {:induction false} ScanOn(n: nat, l: Limit, r: Run, m: nat, second: bool, i: nat, fill1: nat, fill2: nat) returns (r': Run)
    requires n > 0 && Spaced(n, l, r) && Scanning(End(r), second, i, fill1, fill2)
    requires i + m <= (if second then fill2 else fill1) && i + m < n
    ensures Spaced(n, l, r') && GoesOn(r, r', 0) && Scanning(End(r'), second, i + m, fill1, fill2)
    decreases m
  {
    r' := r;
    if m > 0 {
      var q := ScanOne(n, l, r, second, i, fill1, fill2);
      r' := ScanOn(n, l, q, m - 1, second, i + 1, fill1, fill2);
    }
  }

  /** A call begins. */
  lemma {:induction false} StartCall(n: nat, l: Limit, r: Run, next: nat, fill1: nat, fill2: nat) returns (r': Run)
    requires n > 0 && Spaced(n, l, r) && Waiting(End(r), next, fill1, fill2)
    ensures Spaced(n, l, r') && Called(r, r') && Standing(End(r'), Test(false, next), next, fill1, fill2)
    ensures Count(r', |r.events|) == 0
  {
    r' := Then(n, r, Call);
    Extend(n, l, r, Call, 0);
    RunInv(n, l, r);
    assert r.events[|r.events|..|r.events|] == [] && Count(r, |r.events|) == 0;
  }

  /** A scan of buffer 1 that stops at an empty slot ends the call. */
  lemma {:induction false} StopScan(n: nat, l: Limit, r: Run, c: nat, i: nat) returns (r': Run)
    requires n > 0 && Spaced(n, l, r) && c < |r.events| && r.events[c].Call? && Scanning(End(r), false, i, i, 0) && i < n
    ensures Spaced(n, l, r') && GoesOn(r, r', 0) && Anchored(r', c) && Waiting(End(r'), i, i, 0)
  {
    RunInv(n, l, r);
    Extend(n, l, r, Step, c);
    r' := Then(n, r, Step);
    Closes(r', c);
  }

  /** The state after the last event ends the call that began at c. */
  lemma {:induction false} Closes(r: Run, c: nat)
    requires |r.states| == |r.events| + 1 && c < |r.events| && r.events[c].Call? && End(r).pc.Idle?
    ensures Anchored(r, c)
  {
    assert r.states[|r.events|].pc.Idle?;
  }

  /** The scan of buffer 2 stops, and its last slot is filled. */
  lemma {:induction false} LateStates(n: nat, s: State)
    requires n > 0 && Inv(n, s) && Scanning(s, true, n - 1, n, n - 1)
    ensures Enabled(s, Step)
    ensures var s1 := Apply(n, s, Step);
            s1 == s.(buf2 := s.buf2.(nextread := n - 1), pc := Zero(1), tail := 0)
    ensures var s2 := Apply(n, Apply(n, s, Step), Arrive(0));
            s2.pc == Zero(1) && s2.buf2.nextread == n - 1 && s2.buf2.fill == n
  {
    assert s.buf2.slots[n - 1].NoMsg?;
    assert s.mds == Active(n, s.buf2);
  }

  lemma {:induction false} FlipStates(n: nat, s: State)
    requires n > 0 && s.pc == Zero(1) && s.buf2.nextread == n - 1 && s.buf2.fill == n
    ensures Enabled(s, Step) && Enabled(Apply(n, s, Step), Step)
    ensures Waiting(Apply(n, Apply(n, s, Step), Step), n - 1, n, 0)
  {
  }

  /** A message that comes after the scan of buffer 2 and before the flip. */
  lemma {:induction false} LateArrival(n: nat, l: Limit, r: Run, c1: nat, c2: nat) returns (r': Run)
    requires n > 0 && Spaced(n, l, r) && Anchored(r, c1) && Count(r, c1) <= l.window && Gap(r.events) < l.gap
    requires c2 < |r.events| && r.events[c2].Call? && Scanning(End(r), true, n - 1, n, n - 1)
    ensures Spaced(n, l, r') && GoesOn(r, r', 1) && Anchored(r', c2) && Waiting(End(r'), n - 1, n, 0)
  {
    RunInv(n, l, r);
    LateStates(n, End(r));
    var q1 := OneMore(n, l, r, Step, c1);
    var q2 := OneMore(n, l, q1, Arrive(0), c1);
    Onward(r, q1, q2, 0, 1);
    FlipStates(n, End(q2));
    r' := TwoSteps(n, l, q2);
    Onward(r, q2, r', 1, 0);
    Closes(r', c2);
  }

  lemma {:induction false} TwoSteps(n: nat, l: Limit, r: Run) returns (r': Run)
    requires n > 0 && Spaced(n, l, r) && Enabled(End(r), Step) && Enabled(Apply(n, End(r), Step), Step)
    ensures Spaced(n, l, r') && GoesOn(r, r', 0) && End(r') == Apply(n, Apply(n, End(r), Step), Step)
  {
    var q := OneMore(n, l, r, Step, 0);
    r' := OneMore(n, l, q, Step, 0);
    Onward(r, q, r', 0, 0);
  }

  lemma {:induction false} AcceptedAtMost(n: nat, r: Run, i: nat)
    requires n > 0 && IsRun(n, r.states, r.events) && i <= |r.events|
    ensures |r.states[i].accepted| <= |Arrivals(r.events[..i])|
    decreases i
  {
    if i > 0 {
      AcceptedAtMost(n, r, i - 1);
      assert r.events[..i][..i - 1] == r.events[..i - 1];
      assert r.states[i] == Apply(n, r.states[i - 1], r.events[i - 1]);
    }
  }

  /** A message that finds both buffers full is lost. */
  lemma {:induction false} Lost(n: nat, l: Limit, r: Run, c: nat) returns (r': Run)
    requires n > 0 && Spaced(n, l, r) && Anchored(r, c) && Count(r, c) <= l.window && Gap(r.events) < l.gap && End(r).mds == []
    ensures Spaced(n, l, r') && |End(r').accepted| < |Arrivals(r'.events)|
  {
    r' := OneMore(n, l, r, Arrive(0), c);
    AcceptedAtMost(n, r, |r.events|);
    assert r.events[..|r.events|] == r.events;
    AllCount(r);
    AllCount(r');
  }

  lemma {:induction false} AllCount(r: Run)
    ensures Count(r, 0) == |Arrivals(r.events)|
  {
    assert r.events[0..|r.events|] == r.events;
  }

  lemma {:induction false} FullMeansNone(n: nat, l: Limit, r: Run)
    requires n > 0 && Spaced(n, l, r) && End(r).buf1.fill == n && End(r).buf2.fill == n
    ensures End(r).mds == []
  {
    RunInv(n, l, r);
  }

  // ---- the two bounds

  /** A call that takes one message and leaves the scan one slot further. */
  lemma {:induction false} Round(n: nat, l: Limit, r: Run, c: nat, i: nat) returns (r': Run, c': nat)
    requires n > 0 && l.window > 0 && l.gap > 0 && Spaced(n, l, r) && Anchored(r, c) && Count(r, c) == 0 && Gap(r.events) == 0
    requires Waiting(End(r), i, i, 0) && i + 1 < n
    ensures Spaced(n, l, r') && Anchored(r', c') && Count(r', c') == 0 && Gap(r'.events) == 0 && Waiting(End(r'), i + 1, i + 1, 0)
  {
    var q := FillUp(n, l, r, c, 1, Idle, i, i, 0);
    r', c' := TakeOnly(n, l, q, i);
  }

  lemma {:induction false} TakeOnly(n: nat, l: Limit, r: Run, i: nat) returns (r': Run, c: nat)
    requires n > 0 && Spaced(n, l, r) && Waiting(End(r), i, i + 1, 0) && i + 1 < n
    ensures Spaced(n, l, r') && Anchored(r', c) && Count(r', c) == 0 && Gap(r'.events) == 0 && Waiting(End(r'), i + 1, i + 1, 0)
  {
    c := |r.events|;
    var q := StartCall(n, l, r, i, i + 1, 0);
    r' := TakeAndStop(n, l, q, c, i);
  }

  lemma {:induction false} TakeAndStop(n: nat, l: Limit, r: Run, c: nat, i: nat) returns (r': Run)
    requires n > 0 && Spaced(n, l, r) && c < |r.events| && r.events[c].Call? && Scanning(End(r), false, i, i + 1, 0) && i + 1 < n
    ensures Spaced(n, l, r') && GoesOn(r, r', 0) && Anchored(r', c) && Waiting(End(r'), i + 1, i + 1, 0)
  {
    var q := ScanOne(n, l, r, false, i, i + 1, 0);
    r' := StopScan(n, l, q, c, i + 1);
    Onward(r, q, r', 0, 0);
  }

  /** Calls that leave one slot of buffer 1. */
  lemma {:induction false} Rounds(n: nat, l: Limit, i: nat) returns (r: Run, c: nat)
    requires n > 0 && l.window > 0 && l.gap > 0 && i < n
    ensures Spaced(n, l, r) && Anchored(r, c) && Count(r, c) == 0 && Gap(r.events) == 0 && Waiting(End(r), i, i, 0)
    decreases i
  {
    if i == 0 {
      r, c := Run([Init(n)], []), 0;
      assert r.events[0..0] == [];
    } else {
      r, c := Rounds(n, l, i - 1);
      r, c := Round(n, l, r, c, i - 1);
    }
  }

  /** With one arrival more in the window a message can be lost, for every n. */
  lemma {:induction false} OneTooMany(n: nat, gap: nat) returns (r: Run)
    requires n > 0 && gap > n + 2
    ensures Spaced(n, Limit(n + 1, gap), r) && End(r).accepted != Arrivals(r.events)
  {
    var l := Limit(n + 1, gap);
    var c1, c2;
    r, c1 := Rounds(n, l, n - 1);
    r, c2 := SecondCall(n, l, r, c1);
    r := LateArrival(n, l, r, c1, c2);
    r := FillUp(n, l, r, c2, n, Idle, n - 1, n, 0);
    FullMeansNone(n, l, r);
    r := Lost(n, l, r, c2);
  }

  /** n more messages, and a call that takes them all and finds buffer 2 one short. */
  lemma {:induction false} SecondCall(n: nat, l: Limit, r: Run, c1: nat) returns (r': Run, c2: nat)
    requires n > 0 && l.window > n && l.gap > n && Spaced(n, l, r) && Anchored(r, c1) && Count(r, c1) == 0 && Gap(r.events) == 0
    requires Waiting(End(r), n - 1, n - 1, 0)
    ensures Spaced(n, l, r') && Anchored(r', c1) && Count(r', c1) == n && Gap(r'.events) == 0
    ensures c2 < |r'.events| && r'.events[c2].Call? && Count(r', c2) == 0 && Scanning(End(r'), true, n - 1, n, n - 1)
  {
    var q := FillUp(n, l, r, c1, n, Idle, n - 1, n - 1, 0);
    r', c2 := CallAll(n, l, q, c1);
  }

  lemma {:induction false} CallAll(n: nat, l: Limit, r: Run, c1: nat) returns (r': Run, c2: nat)
    requires n > 0 && Spaced(n, l, r) && Anchored(r, c1) && Waiting(End(r), n - 1, n, n - 1)
    ensures Spaced(n, l, r') && Anchored(r', c1) && Count(r', c1) == Count(r, c1) && Gap(r'.events) == 0
    ensures c2 < |r'.events| && r'.events[c2].Call? && Count(r', c2) == 0 && Scanning(End(r'), true, n - 1, n, n - 1)
  {
    c2 := |r.events|;
    var q := StartCall(n, l, r, n - 1, n, n - 1);
    r' := TakeAll(n, l, q);
  }

  /** The last message of buffer 1, and n - 1 messages of buffer 2. */
  lemma {:induction false} TakeAll(n: nat, l: Limit, r: Run) returns (r': Run)
    requires n > 0 && Spaced(n, l, r) && Scanning(End(r), false, n - 1, n, n - 1)
    ensures Spaced(n, l, r') && GoesOn(r, r', 0) && Scanning(End(r'), true, n - 1, n, n - 1)
  {
    var q := ScanOne(n, l, r, false, n - 1, n, n - 1);
    r' := ScanOn(n, l, q, n - 1, true, 0, n, n - 1);
    Onward(r, q, r', 0, 0);
  }

  /** How many messages the portal is sure to hold: no message is ever lost under a
      bound on the earlier arrivals since the last returned call began, exactly when
      the bound is at most maxMsgs. */
  lemma {:induction false} WindowIsExact(n: nat, window: nat)
    requires n > 0
    ensures (forall r: Run :: IsRun(n, r.states, r.events) && WindowSpaced(window, r) ==> End(r).accepted == Arrivals(r.events))
       <==> window <= n
  {
    if window <= n {
      forall r: Run | IsRun(n, r.states, r.events) && WindowSpaced(window, r) ensures End(r).accepted == Arrivals(r.events) {
        Wider(window, n, r);
        NothingDropped(n, r.states, r.events, |r.events|);
        assert r.events[..|r.events|] == r.events;
      }
    } else {
      var r := OneTooMany(n, n + 3);
      Wider(n + 1, window, r);
    }
  }

  lemma {:induction false} Wider(window: nat, window': nat, r: Run)
    requires |r.states| == |r.events| + 1 && WindowSpaced(window, r) && window <= window'
    ensures WindowSpaced(window', r)
  {
    forall k | 0 <= k < |r.events| && r.events[k].Arrive? ensures FewSince(window', r.states, r.events, k) {
      var c :| 0 <= c <= k && (c == 0 || Returned(r.states, r.events, c, k)) && Between(r.events, c, k) <= window;
    }
  }

  /** Half the room too many from call to call: the messages between two calls, and
      those of the next call's beginning, overrun the buffers. */
  lemma {:induction false} TooManyPerCall(n: nat, gap: nat) returns (r: Run)
    requires n > 0 && 2 * gap > n + 1
    ensures IsRun(n, r.states, r.events) && CallSpaced(gap, r.events) && End(r).accepted != Arrivals(r.events)
  {
    var l := Limit(n + 2, gap);
    var x := if gap <= n + 1 then gap else n + 1;
    var c;
    r, c := Rounds(n, l, n - 1);
    r := FillUp(n, l, r, c, x, Idle, n - 1, n - 1, 0);
    r := CallAndFill(n, l, r, c, x);
    FullMeansNone(n, l, r);
    r := Lost(n, l, r, c);
  }

  lemma {:induction false} CallAndFill(n: nat, l: Limit, r: Run, c: nat, x: nat) returns (r': Run)
    requires 1 <= x <= n + 1 && n > 0 && Spaced(n, l, r) && Anchored(r, c) && Count(r, c) == x
    requires l.window > n && n + 2 - x <= l.gap && Waiting(End(r), n - 1, n, x - 1)
    ensures Spaced(n, l, r') && Anchored(r', c) && Count(r', c) == n + 1 && Gap(r'.events) == n + 1 - x
    ensures End(r').buf1.fill == n && End(r').buf2.fill == n
  {
    var q := StartCall(n, l, r, n - 1, n, x - 1);
    r' := FillUp(n, l, q, c, n + 1 - x, Test(false, n - 1), n - 1, n, x - 1);
  }

  /** The last call among the first i events, or the start. */
  function LastCall(events: seq<Event>, i: nat): (d: nat)
    requires i <= |events|
    ensures d <= i && (d == 0 || (d < i && events[d].Call?))
    ensures forall j :: d < j < i ==> !events[j].Call?
  {
    if i == 0 then 0 else if events[i - 1].Call? then i - 1 else LastCall(events, i - 1)
  }

  /** What came since then. */
  lemma {:induction false} GapSince(events: seq<Event>, d: nat, i: nat)
    requires d <= i <= |events| && (d == 0 || (d < i && events[d].Call?)) && forall j :: d < j < i ==> !events[j].Call?
    ensures Between(events, d, i) == Gap(events[..i])
    decreases i
  {
    if i > 0 {
      assert events[..i][..i - 1] == events[..i - 1];
      if d < i - 1 || (d == 0 && !events[0].Call?) {
        GapSince(events, d, i - 1);
        BetweenStep(events, d, i - 1);
      } else {
        assert events[d..d] == [];
        BetweenStep(events, d, d);
      }
    }
  }

  lemma {:induction false} BetweenJoins(events: seq<Event>, c: nat, d: nat, i: nat)
    requires c <= d <= i <= |events|
    ensures Between(events, c, i) == Between(events, c, d) + Between(events, d, i)
    decreases i
  {
    if i == d {
      assert events[d..d] == [];
    } else {
      BetweenJoins(events, c, d, i - 1);
      BetweenStep(events, c, i - 1);
      BetweenStep(events, d, i - 1);
    }
  }

  /** Calls are made one at a time, so every call but the last has returned. */
  lemma {:induction false} WindowFromGap(n: nat, gap: nat, r: Run, k: nat)
    requires IsRun(n, r.states, r.events) && CallSpaced(gap, r.events) && k < |r.events| && r.events[k].Arrive?
    requires 2 * gap <= n + 1
    ensures FewSince(n, r.states, r.events, k)
  {
    var d := LastCall(r.events, k);
    GapSince(r.events, d, k);
    assert r.events[..k + 1][..k] == r.events[..k] && Gap(r.events[..k + 1]) == Gap(r.events[..k]) + 1;
    var c := LastCall(r.events, d);
    GapSince(r.events, c, d);
    BetweenJoins(r.events, c, d, k);
    if c > 0 {
      assert Enabled(r.states[d], r.events[d]);
      assert r.states[d].pc.Idle?;
    }
    assert Between(r.events, c, k) <= n;
  }

  /** Counted from the start of each call to the start of the next: no message is ever
      lost exactly when at most half of maxMsgs + 1 may come. */
  lemma {:induction false} CallSpacingIsExact(n: nat, gap: nat)
    requires n > 0
    ensures (forall r: Run :: IsRun(n, r.states, r.events) && CallSpaced(gap, r.events) ==> End(r).accepted == Arrivals(r.events))
       <==> 2 * gap <= n + 1
  {
    if 2 * gap <= n + 1 {
      forall r: Run | IsRun(n, r.states, r.events) && CallSpaced(gap, r.events) ensures End(r).accepted == Arrivals(r.events) {
        forall k | 0 <= k < |r.events| && r.events[k].Arrive? ensures FewSince(n, r.states, r.events, k) {
          WindowFromGap(n, gap, r, k);
        }
        NothingDropped(n, r.states, r.events, |r.events|);
        assert r.events[..|r.events|] == r.events;
      }
    } else {
      var r := TooManyPerCall(n, gap);
    }
  }
}
