/** Progress of the collective operations: no put that is waited for is ever lost, so
    an operation that everybody has begun, with nobody stopping, goes on until
    everybody has returned. */
module CollectivesLive {
  import opened BarrierTrees
  import opened Collectives
  import opened CollectivesProof
  import GT = GatherTree
  import B = Barrier

  ghost predicate OnWire(s: State, a: nat, b: nat, k: nat)
  {
    exists m :: m in s.wire && m.src == a && m.dst == b && m.op == k
  }

  ghost predicate InQueue(s: State, a: nat, b: nat, k: nat)
  {
    exists m :: m in s.queue && m.src == a && m.dst == b && m.op == k
  }

  /** What b waits for from a is still to be sent, on the wire, or in b's queue. */
  ghost predicate Traced(x: Party, a: nat, sent: bool, onWire: bool, queued: bool)
  {
    x.phase.InBarrier? || x.phase.Collect? ==>
      && (sent && a !in x.arrived ==> onWire)
      && (a in x.arrived && (x.phase.Collect? ==> a !in x.phase.got) ==> queued)
  }

  ghost predicate DataInv(g: Group, s: State, a: nat, b: nat)
    requires Shape(g, s) && a < g.n && b < g.n
  {
    var x := s.parties[b];
    0 < x.started <= |g.script| && a in Sources(g.n, g.script[x.started - 1], b) ==>
      var k := x.started - 1;
      Traced(x, a, Sent(s, a, b, k), OnWire(s, a, b, k), InQueue(s, a, b, k))
  }

  ghost predicate DataPresent(g: Group, s: State)
    requires Shape(g, s)
  {
    forall a, b :: 0 <= a < g.n && 0 <= b < g.n ==> DataInv(g, s, a, b)
  }

  // ---- it is kept

  /** Only the put itself makes a put count as sent. */
  lemma {:induction false} SentBySend(g: Group, s: State, e: Event, b: nat, k: nat)
    requires Enabled(g, s, e) && Subject(e) < g.n && b < g.n && k < |g.script| && PartyInv(g, s, Subject(e))
    requires Subject(e) in Sources(g.n, g.script[k], b) && e != Send(Subject(e), b)
    requires var x := NewParty(g, s, e);
             x.started > k + 1 || (x.started == k + 1 && (x.phase.Outside? || (x.phase.Forward? && b !in x.phase.left)))
    ensures Sent(s, Subject(e), b, k)
  {
    var a := Subject(e);
    var x, y := s.parties[a], NewParty(g, s, e);
    if e.Begin? {
      assert y.started == x.started + 1;
    } else if e.Arrive? {
      assert y.started == x.started && y.phase == x.phase;
    } else if e.Complete? {
      if x.started == k + 1 { Dual(g.n, g.script[k], a, b); }
    } else {
      assert y.started == x.started;
    }
  }

  lemma {:induction false} SentBefore(g: Group, s: State, e: Event, a: nat, b: nat, k: nat)
    requires Enabled(g, s, e) && a < g.n && b < g.n && k < |g.script| && PartyInv(g, s, a)
    requires a in Sources(g.n, g.script[k], b) && e != Send(a, b)
    ensures |Apply(g, s, e).parties| == g.n
    ensures Sent(Apply(g, s, e), a, b, k) ==> Sent(s, a, b, k)
  {
    OnlySubject(g, s, e);
    if a == Subject(e) && Sent(Apply(g, s, e), a, b, k) { SentBySend(g, s, e, b, k); }
  }

  lemma {:induction false} StaysOnWire(g: Group, s: State, e: Event, a: nat, b: nat, k: nat)
    requires Enabled(g, s, e) && OnWire(s, a, b, k)
    ensures OnWire(Apply(g, s, e), a, b, k) || (e.Arrive? && e.m.src == a && e.m.dst == b && e.m.op == k)
  {
    var m :| m in s.wire && m.src == a && m.dst == b && m.op == k;
    if !(e.Arrive? && e.m == m) { assert m in Apply(g, s, e).wire; }
  }

  lemma {:induction false} StaysQueued(g: Group, s: State, e: Event, a: nat, b: nat, k: nat)
    requires Enabled(g, s, e) && InQueue(s, a, b, k)
    ensures InQueue(Apply(g, s, e), a, b, k) || (e.TakeData? && e.m.src == a && e.m.dst == b && e.m.op == k)
  {
    var m :| m in s.queue && m.src == a && m.dst == b && m.op == k;
    if !(e.TakeData? && e.m == m) { assert m in Apply(g, s, e).queue; }
  }

  /** b itself does nothing to its phase, arrivals or deliveries: only sends, and
      arrivals elsewhere, concern the pair. */
  lemma {:induction false} TracedOther(g: Group, s: State, e: Event, a: nat, b: nat)
    requires Enabled(g, s, e) && a < g.n && b < g.n && PartyInv(g, s, a) && DataInv(g, s, a, b)
    requires b != Subject(e)
    ensures Shape(g, Apply(g, s, e)) && DataInv(g, Apply(g, s, e), a, b)
  {
    OthersUnchanged(g, s, e, b);
    var x, s' := s.parties[b], Apply(g, s, e);
    if 0 < x.started <= |g.script| && a in Sources(g.n, g.script[x.started - 1], b) {
      var k := x.started - 1;
      if OnWire(s, a, b, k) { StaysOnWire(g, s, e, a, b, k); }
      if InQueue(s, a, b, k) { StaysQueued(g, s, e, a, b, k); }
      if e == Send(a, b) {
        NewOnWire(g, s, a, b);
      } else {
        SentBefore(g, s, e, a, b, k);
      }
    }
  }

  lemma {:induction false} NewOnWire(g: Group, s: State, a: nat, b: nat)
    requires Enabled(g, s, Send(a, b))
    ensures OnWire(Apply(g, s, Send(a, b)), a, b, s.parties[a].started - 1)
  {
    assert Message(g, s.parties[a], a, b) in Apply(g, s, Send(a, b)).wire;
  }

  /** Entering the barrier: nobody can have sent for this operation yet. */
  lemma {:induction false} TracedEnter(g: Group, s: State, e: Event, a: nat, b: nat)
    requires Inv(g, s) && Enabled(g, s, e) && e.Bar? && e.e.Enter? && e.e.p == b && a < g.n && b < g.n
    ensures DataInv(g, Apply(g, s, e), a, b)
  {
    var x := s.parties[b];
    assert PartyInv(g, s, b);
    if 0 < x.started <= |g.script| && a in Sources(g.n, g.script[x.started - 1], b) {
      var k := x.started - 1;
      assert FlowInv(g, s, a, b, k);
      if Sent(s, a, b, k) {
        SentMeansReturned(g, s, a, b, k);
        EveryoneBegan(g, s, a, k, b);
      }
      assert PartyInv(g, s, a);
      SentBefore(g, s, e, a, b, k);
    }
  }

  lemma {:induction false} TracedBarrier(g: Group, s: State, e: Event, a: nat, b: nat)
    requires Enabled(g, s, e) && e.Bar? && !e.e.Enter? && e.e.p == b && a < g.n && b < g.n
    requires PartyInv(g, s, a) && PartyInv(g, s, b) && DataInv(g, s, a, b)
    ensures Shape(g, Apply(g, s, e)) && DataInv(g, Apply(g, s, e), a, b)
  {
    var x := s.parties[b];
    OnlySubject(g, s, e);
    if 0 < x.started <= |g.script| && a in Sources(g.n, g.script[x.started - 1], b) {
      var k := x.started - 1;
      if OnWire(s, a, b, k) { StaysOnWire(g, s, e, a, b, k); }
      if InQueue(s, a, b, k) { StaysQueued(g, s, e, a, b, k); }
      SentBefore(g, s, e, a, b, k);
    }
  }

  lemma {:induction false} TracedArrive(g: Group, s: State, m: Data, a: nat, b: nat)
    requires Enabled(g, s, Arrive(m)) && m.dst == b && a < g.n && b < g.n && PartyInv(g, s, a) && DataInv(g, s, a, b)
    requires MsgInv(g, s, m) && Accepted(g.script[m.op], s.parties[b], m)
    ensures Shape(g, Apply(g, s, Arrive(m))) && DataInv(g, Apply(g, s, Arrive(m)), a, b)
  {
    var x, s' := s.parties[b], Apply(g, s, Arrive(m));
    OnlySubject(g, s, Arrive(m));
    assert m in s'.queue;
    if 0 < x.started <= |g.script| && a in Sources(g.n, g.script[x.started - 1], b) {
      var k := x.started - 1;
      if OnWire(s, a, b, k) { StaysOnWire(g, s, Arrive(m), a, b, k); }
      if InQueue(s, a, b, k) { StaysQueued(g, s, Arrive(m), a, b, k); }
      SentBefore(g, s, Arrive(m), a, b, k);
      if a == m.src { assert InQueue(s', a, b, k); }
    }
  }

  lemma {:induction false} TracedTake(g: Group, s: State, m: Data, a: nat, b: nat)
    requires Enabled(g, s, TakeData(b, m)) && a < g.n && b < g.n && PartyInv(g, s, a) && DataInv(g, s, a, b)
    requires MsgInv(g, s, m)
    ensures Shape(g, Apply(g, s, TakeData(b, m))) && DataInv(g, Apply(g, s, TakeData(b, m)), a, b)
  {
    var x, e := s.parties[b], TakeData(b, m);
    OnlySubject(g, s, e);
    if a in Sources(g.n, g.script[x.started - 1], b) {
      var k := x.started - 1;
      if OnWire(s, a, b, k) { StaysOnWire(g, s, e, a, b, k); }
      if InQueue(s, a, b, k) { StaysQueued(g, s, e, a, b, k); }
      SentBefore(g, s, e, a, b, k);
    }
  }

  lemma {:induction false} DataStep(g: Group, s: State, e: Event, a: nat, b: nat)
    requires Inv(g, s) && Enabled(g, s, e) && a < g.n && b < g.n && DataInv(g, s, a, b)
    ensures Shape(g, Apply(g, s, e)) && DataInv(g, Apply(g, s, e), a, b)
  {
    assert PartyInv(g, s, a) && PartyInv(g, s, b);
    OnlySubject(g, s, e);
    if b != Subject(e) {
      TracedOther(g, s, e, a, b);
    } else if e.Bar? {
      if e.e.Enter? { TracedEnter(g, s, e, a, b); } else { TracedBarrier(g, s, e, a, b); }
    } else if e.Arrive? {
      ArrivalAccepted(g, s, e.m);
      TracedArrive(g, s, e.m, a, b);
    } else if e.TakeData? {
      assert MsgInv(g, s, e.m);
      TracedTake(g, s, e.m, a, b);
    }
  }

  lemma {:induction false} PresentStep(g: Group, s: State, e: Event)
    requires Inv(g, s) && Enabled(g, s, e) && DataPresent(g, s)
    ensures Shape(g, Apply(g, s, e)) && DataPresent(g, Apply(g, s, e))
  {
    DataStep(g, s, e, 0, 0);
    forall a, b | 0 <= a < g.n && 0 <= b < g.n ensures DataInv(g, Apply(g, s, e), a, b) { DataStep(g, s, e, a, b); }
  }

  lemma {:induction false} PresentInitially(g: Group, s: State)
    requires g.n >= 1 && Init(g, s)
    ensures Shape(g, s) && DataPresent(g, s)
  {
  }

  lemma {:induction false} DataHolds(g: Group, ss: seq<State>, es: seq<Event>, i: nat)
    requires g.n >= 1 && IsRun(g, ss, es) && i < |ss|
    ensures Shape(g, ss[i]) && DataPresent(g, ss[i])
    decreases i
  {
    if i == 0 {
      PresentInitially(g, ss[0]);
    } else {
      DataHolds(g, ss, es, i - 1);
      InvHolds(g, ss, es, i - 1);
      PresentStep(g, ss[i - 1], es[i - 1]);
    }
  }

  // ---- nobody is stuck

  /** Everybody has begun the operation numbered k, and nobody a later one. */
  ghost predicate AllIn(g: Group, s: State, k: nat)
    requires Shape(g, s)
  {
    k < |g.script| && forall p :: 0 <= p < g.n ==> s.parties[p].started == k + 1
  }

  ghost predicate AllOut(g: Group, s: State)
    requires Shape(g, s)
  {
    forall p :: 0 <= p < g.n ==> s.parties[p].phase.Outside?
  }

  /** Steps of operations under way: everything but beginning one and stopping. */
  predicate Inside(e: Event)
  {
    !e.Begin? && (e.Bar? ==> !e.e.Stop?)
  }

  /** Everybody is past the barrier. */
  ghost predicate Released(g: Group, s: State)
    requires Shape(g, s)
  {
    forall p :: 0 <= p < g.n ==> s.parties[p].phase.Collect? || s.parties[p].phase.Forward? || s.parties[p].phase.Outside?
  }

  /** Sources are members, on the far side of the receiver in the tree. */
  lemma {:induction false} SourceRank(n: nat, op: Op, p: nat, a: nat)
    requires p < n && a in Sources(n, op, p)
    ensures a < n && !op.Sync? && (if op.Gather? then a > p else a < p)
  {
    if op.Gather? { GT.FeederPlace(n, p, a); }
  }

  /** What is expected from a can be taken, can arrive, or can be sent, unless a
      itself still collects. */
  lemma {:induction false} SourceCanMove(g: Group, s: State, k: nat, p: nat, a: nat) returns (e: Event)
    requires Shape(g, s) && p < g.n && a < g.n && k < |g.script| && DataInv(g, s, a, p) && B.AllLive(s.bar)
    requires s.parties[p].started == k + 1 == s.parties[a].started && s.parties[p].phase.Collect?
    requires a in Sources(g.n, g.script[k], p) && a !in s.parties[p].phase.got
    requires s.parties[a].phase.Forward? || s.parties[a].phase.Outside? || a in s.parties[p].arrived || Sent(s, a, p, k)
    ensures Enabled(g, s, e) && Inside(e)
  {
    if a in s.parties[p].arrived {
      assert InQueue(s, a, p, k);
      var m :| m in s.queue && m.src == a && m.dst == p && m.op == k;
      e := TakeData(p, m);
    } else if Sent(s, a, p, k) {
      assert OnWire(s, a, p, k);
      var m :| m in s.wire && m.src == a && m.dst == p && m.op == k;
      e := Arrive(m);
    } else {
      e := Send(a, p);
    }
  }

  /** A member that waits for data: it can take it, or the member it waits for, or
      one behind that, can move. */
  lemma {:induction false} CollectCanMove(g: Group, s: State, k: nat, p: nat) returns (e: Event)
    requires Shape(g, s) && DataPresent(g, s) && B.AllLive(s.bar) && AllIn(g, s, k) && Released(g, s)
    requires forall q :: 0 <= q < g.n ==> PartyInv(g, s, q)
    requires p < g.n && s.parties[p].phase.Collect?
    ensures Enabled(g, s, e) && Inside(e)
    decreases if g.script[k].Gather? then g.n - p else p
  {
    var x := s.parties[p];
    var from := Sources(g.n, g.script[k], p);
    assert PartyInv(g, s, p);
    if x.phase.got == from {
      e := Complete(p);
    } else {
      var a :| a in from && a !in x.phase.got;
      SourceRank(g.n, g.script[k], p, a);
      assert DataInv(g, s, a, p);
      if a !in x.arrived && !Sent(s, a, p, k) && s.parties[a].phase.Collect? {
        e := CollectCanMove(g, s, k, a);
      } else {
        e := SourceCanMove(g, s, k, p, a);
      }
    }
  }

  /** Deadlock freedom: in an operation that everybody has begun, with nobody stopped,
      some member or put can move until everybody has returned. */
  lemma {:induction false} OperationNeverStuck(g: Group, s: State, k: nat) returns (e: Event)
    requires Inv(g, s) && DataPresent(g, s) && B.TokensPresent(XorTree(g.n), s.bar) && B.AllLive(s.bar)
    requires AllIn(g, s, k) && !AllOut(g, s)
    ensures Enabled(g, s, e) && Inside(e)
  {
    forall p | 0 <= p < g.n ensures PartyInv(g, s, p) { }
    if p :| 0 <= p < g.n && s.parties[p].phase.Attached? {
      assert PartyInv(g, s, p);
      e := Bar(B.Enter(p));
    } else if p :| 0 <= p < g.n && s.parties[p].phase.InBarrier? {
      assert PartyInv(g, s, p);
      forall q | 0 <= q < g.n ensures s.bar.members[q].entered == k + 1 { assert PartyInv(g, s, q); }
      var b := B.NeverStuck(XorTree(g.n), s.bar, k + 1);
      e := Bar(b);
    } else if p :| 0 <= p < g.n && s.parties[p].phase.Forward? {
      var left := s.parties[p].phase.left;
      if q :| q in left { e := Send(p, q); } else { e := Finish(p); }
    } else {
      var p :| 0 <= p < g.n && !s.parties[p].phase.Outside?;
      e := CollectCanMove(g, s, k, p);
    }
  }

  // ---- and everybody returns

  /** The steps a member's phase still costs: its puts count three each, for the
      sending, the arrival and the delivery. */
  ghost function PhaseWork(g: Group, x: Party, p: nat): nat
  {
    if 0 < x.started <= |g.script| then
      var tail := 3 * |Targets(g.n, g.script[x.started - 1], p)| + 2;
      match x.phase
      case Outside => 0
      case Attached => B.StepsLeft(XorTree(g.n), B.Member(0, B.FanIn({}), true, []), p) + 1 + tail
      case InBarrier => tail
      case Collect(_) => tail
      case Forward(left) => 3 * |left| + 1
    else 0
  }

  ghost function PartyWork(g: Group, xs: seq<Party>): nat
    decreases |xs|
  {
    if xs == [] then 0 else PartyWork(g, xs[..|xs| - 1]) + PhaseWork(g, xs[|xs| - 1], |xs| - 1)
  }

  ghost function Measure(g: Group, s: State): nat
  {
    B.Work(XorTree(g.n), s.bar.members) + PartyWork(g, s.parties) + 2 * |s.wire| + |s.queue|
  }

  lemma {:induction false} PartyWorkUpdate(g: Group, xs: seq<Party>, p: nat, x: Party)
    requires p < |xs|
    ensures PartyWork(g, xs[p := x]) == PartyWork(g, xs) - PhaseWork(g, xs[p], p) + PhaseWork(g, x, p)
    decreases |xs|
  {
    var k := |xs| - 1;
    if p < k {
      PartyWorkUpdate(g, xs[..k], p, x);
      assert xs[p := x][..k] == xs[..k][p := x];
    } else {
      assert xs[p := x][..k] == xs[..k];
    }
  }

  /** What a barrier step of a member does to its own phase's work. */
  lemma {:induction false} BarrierPhaseStep(g: Group, s: State, b: B.Event)
    requires Enabled(g, s, Bar(b)) && !b.Stop? && PartyInv(g, s, b.p) && B.LocalInv(XorTree(g.n), s.bar, b.p)
    ensures var w, w' := PhaseWork(g, s.parties[b.p], b.p), PhaseWork(g, BarrierPhase(b, s.parties[b.p]), b.p);
            if b.Enter? then w' + B.StepsLeft(XorTree(g.n), B.Member(0, B.FanIn({}), true, []), b.p) + 1 == w else w' == w
  {
  }

  /** What its other steps do to it. */
  lemma {:induction false} PhaseStep(g: Group, s: State, e: Event)
    requires Enabled(g, s, e) && Inside(e) && !e.Bar? && Subject(e) < g.n && PartyInv(g, s, Subject(e))
    requires e.Arrive? ==> Accepted(g.script[e.m.op], s.parties[e.m.dst], e.m)
    ensures var p := Subject(e);
            PhaseWork(g, NewParty(g, s, e), p) == PhaseWork(g, s.parties[p], p)
              - (if e.Complete? || e.Finish? then 1 else if e.Send? then 3 else 0)
  {
    var x, y := s.parties[Subject(e)], NewParty(g, s, e);
    assert y.started == x.started;
    if e.Send? {
      assert |x.phase.left - {e.q}| == |x.phase.left| - 1;
    } else if e.Arrive? {
      assert y.phase == x.phase;
    } else if e.TakeData? {
      assert y.phase.Collect?;
    } else if e.Complete? {
      assert y.phase == Forward(Targets(g.n, g.script[x.started - 1], e.p));
    } else {
      assert y.phase == Outside && x.phase == Forward({});
    }
  }

  lemma {:induction false} EnterWork(t: B.Tree, s: B.State, p: nat)
    requires B.Enabled(t, s, B.Enter(p))
    ensures B.Work(t, B.Apply(t, B.Save, s, B.Enter(p)).members)
         == B.Work(t, s.members) + B.StepsLeft(t, B.Member(0, B.FanIn({}), true, []), p)
  {
    B.OnlyActor(t, B.Save, s, B.Enter(p));
    B.WorkUpdate(t, s.members, p, B.Apply(t, B.Save, s, B.Enter(p)).members[p]);
  }

  lemma {:induction false} NetStep(g: Group, s: State, e: Event)
    requires Enabled(g, s, e) && (e.Arrive? ==> Accepted(g.script[e.m.op], s.parties[e.m.dst], e.m))
    ensures var s' := Apply(g, s, e);
            2 * |s'.wire| + |s'.queue| == 2 * |s.wire| + |s.queue| + (if e.Arrive? || e.TakeData? then -1 else if e.Send? then 2 else 0)
    ensures !e.Bar? ==> Apply(g, s, e).bar == s.bar
    ensures e.Bar? ==> Apply(g, s, e).bar == B.Apply(XorTree(g.n), B.Save, s.bar, e.e)
  {
  }

  /** Every step of an operation under way uses up exactly one unit. */
  lemma {:induction false} MeasureStep(g: Group, s: State, e: Event)
    requires Inv(g, s) && Enabled(g, s, e) && Inside(e)
    ensures Measure(g, Apply(g, s, e)) == Measure(g, s) - 1
  {
    OnlySubject(g, s, e);
    assert PartyInv(g, s, Subject(e));
    if e.Arrive? { ArrivalAccepted(g, s, e.m); }
    if e.Bar? {
      assert B.LocalInv(XorTree(g.n), s.bar, e.e.p);
      if e.e.Enter? { EnterWork(XorTree(g.n), s.bar, e.e.p); } else { B.WorkStep(XorTree(g.n), B.Save, s.bar, e.e); }
      BarrierPhaseStep(g, s, e.e);
    } else {
      PhaseStep(g, s, e);
    }
    PartyWorkUpdate(g, s.parties, Subject(e), NewParty(g, s, e));
    NetStep(g, s, e);
  }

  lemma {:induction false} NoPartyWork(g: Group, xs: seq<Party>)
    requires forall p :: 0 <= p < |xs| ==> 0 < xs[p].started <= |g.script|
    ensures PartyWork(g, xs) == 0 <==> forall p :: 0 <= p < |xs| ==> xs[p].phase.Outside?
    decreases |xs|
  {
    if xs != [] {
      var k := |xs| - 1;
      assert forall p :: 0 <= p < k ==> xs[..k][p] == xs[p];
      NoPartyWork(g, xs[..k]);
    }
  }

  lemma {:induction false} ReceiverInside(g: Group, s: State, m: Data)
    requires Inv(g, s) && (m in s.wire || m in s.queue)
    ensures m.dst < g.n && !s.parties[m.dst].phase.Outside?
  {
    assert MsgInv(g, s, m);
  }

  /** Nothing is left to do exactly when everybody has returned. */
  lemma {:induction false} DoneIffOut(g: Group, s: State, k: nat)
    requires Inv(g, s) && AllIn(g, s, k)
    ensures Measure(g, s) == 0 <==> AllOut(g, s)
  {
    NoPartyWork(g, s.parties);
    if AllOut(g, s) {
      forall p | 0 <= p < g.n ensures s.bar.members[p].pc.Idle? { assert PartyInv(g, s, p); }
      B.NoWork(XorTree(g.n), s.bar.members);
      forall m | m in s.wire || m in s.queue ensures false { ReceiverInside(g, s, m); }
      assert s.wire == multiset{} && s.queue == multiset{};
    }
  }

  /** Nobody stops and no token is lost while only such steps are made. */
  lemma {:induction false} BarKept(g: Group, s: State, e: Event)
    requires Inv(g, s) && Enabled(g, s, e) && Inside(e) && B.TokensPresent(XorTree(g.n), s.bar) && B.AllLive(s.bar)
    ensures var s' := Apply(g, s, e);
            |s'.bar.members| == g.n && B.TokensPresent(XorTree(g.n), s'.bar) && B.AllLive(s'.bar)
  {
    var t, s' := XorTree(g.n), Apply(g, s, e);
    if e.Bar? {
      B.OnlyActor(t, B.Save, s.bar, e.e);
      if e.e.Take? { B.AllExpected(t, s.bar, e.e.p, e.e.tok); }
      forall c | 1 <= c < g.n ensures B.EdgeTokens(t, s'.bar, c) { B.TokensPresentStep(t, B.Save, s.bar, e.e, c); }
    }
  }

  /** Continuing a run by steps of operations under way only. */
  ghost predicate Continues(g: Group, ss: seq<State>, es: seq<Event>)
  {
    && |ss| == |es| + 1
    && forall i :: 0 <= i < |es| ==> Enabled(g, ss[i], es[i]) && Inside(es[i]) && ss[i + 1] == Apply(g, ss[i], es[i])
  }

  /** Everything the progress argument needs of a state. */
  ghost predicate Going(g: Group, s: State, k: nat)
  {
    && Inv(g, s)
    && DataPresent(g, s)
    && B.TokensPresent(XorTree(g.n), s.bar)
    && B.AllLive(s.bar)
    && AllIn(g, s, k)
  }

  lemma {:induction false} StartedKept(g: Group, s: State, e: Event, k: nat)
    requires Enabled(g, s, e) && Inside(e) && AllIn(g, s, k)
    ensures Shape(g, Apply(g, s, e)) && AllIn(g, Apply(g, s, e), k)
  {
    OnlySubject(g, s, e);
    assert NewParty(g, s, e).started == s.parties[Subject(e)].started;
  }

  lemma {:induction false} GoingStep(g: Group, s: State, e: Event, k: nat)
    requires Going(g, s, k) && Enabled(g, s, e) && Inside(e)
    ensures Going(g, Apply(g, s, e), k)
  {
    InvStep(g, s, e);
    PresentStep(g, s, e);
    BarKept(g, s, e);
    StartedKept(g, s, e, k);
  }

  lemma {:induction false} ContinueGoing(g: Group, cs: seq<State>, ds: seq<Event>, k: nat, i: nat)
    requires Continues(g, cs, ds) && i <= |ds| && Going(g, cs[0], k)
    ensures Going(g, cs[i], k) && i + Measure(g, cs[i]) == Measure(g, cs[0])
    decreases i
  {
    if i > 0 {
      ContinueGoing(g, cs, ds, k, i - 1);
      GoingStep(g, cs[i - 1], ds[i - 1], k);
      MeasureStep(g, cs[i - 1], ds[i - 1]);
    }
  }

  ghost predicate Unbroken(g: Group, s: State)
  {
    Shape(g, s) && (B.AllLive(s.bar) ==> B.TokensPresent(XorTree(g.n), s.bar))
  }

  lemma {:induction false} TokensInitially(g: Group, s: State)
    requires g.n >= 1 && Init(g, s)
    ensures Unbroken(g, s)
  {
  }

  /** While everybody is live no barrier token has been lost. */
  lemma {:induction false} TokensHold(g: Group, ss: seq<State>, es: seq<Event>, i: nat)
    requires g.n >= 1 && IsRun(g, ss, es) && i < |ss|
    ensures Unbroken(g, ss[i])
    decreases i
  {
    if i == 0 {
      TokensInitially(g, ss[0]);
    } else {
      TokensHold(g, ss, es, i - 1);
      InvHolds(g, ss, es, i - 1);
      TokensKept(g, ss[i - 1], es[i - 1]);
    }
  }

  lemma {:induction false} ShapeKept(g: Group, s: State, e: Event)
    requires Enabled(g, s, e)
    ensures Shape(g, Apply(g, s, e))
  {
    if e.Bar? { B.OnlyActor(XorTree(g.n), B.Save, s.bar, e.e); }
  }

  lemma {:induction false} TokensKept(g: Group, s: State, e: Event)
    requires Inv(g, s) && Enabled(g, s, e) && Unbroken(g, s)
    ensures Unbroken(g, Apply(g, s, e))
  {
    var t, s' := XorTree(g.n), Apply(g, s, e);
    ShapeKept(g, s, e);
    if e.Bar? && B.AllLive(s'.bar) {
      B.LiveBefore(t, B.Save, s.bar, e.e);
      forall c | 1 <= c < g.n ensures B.EdgeTokens(t, s'.bar, c) { B.TokensPresentStep(t, B.Save, s.bar, e.e, c); }
    }
  }

  /** Completion: from a reachable state in which everybody has begun operation k and
      nobody has stopped, every schedule of the steps of the operation, arrivals of
      puts included, is exactly as long as the measure of the first state; before
      that some step is possible, and after it everybody has returned. */
  lemma {:induction false} OperationCompletes(g: Group, ss: seq<State>, es: seq<Event>, k: nat, cs: seq<State>, ds: seq<Event>)
    requires g.n >= 1 && IsRun(g, ss, es) && Continues(g, cs, ds) && cs[0] == ss[|es|]
    requires Shape(g, cs[0]) && AllIn(g, cs[0], k) && B.AllLive(cs[0].bar)
    ensures |ds| + Measure(g, cs[|ds|]) == Measure(g, cs[0])
    ensures |ds| < Measure(g, cs[0]) ==> exists e :: Enabled(g, cs[|ds|], e) && Inside(e)
    ensures |ds| == Measure(g, cs[0]) ==> Shape(g, cs[|ds|]) && AllOut(g, cs[|ds|])
  {
    InvHolds(g, ss, es, |es|);
    TokensHold(g, ss, es, |es|);
    DataHolds(g, ss, es, |es|);
    ContinueGoing(g, cs, ds, k, |ds|);
    DoneIffOut(g, cs[|ds|], k);
    if !AllOut(g, cs[|ds|]) {
      var e := OperationNeverStuck(g, cs[|ds|], k);
    }
  }
}
