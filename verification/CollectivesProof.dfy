/** Proofs about the collective operations: the invariant holds in every state of
    every run, and with it the properties the library is for. */
module CollectivesProof {
  import opened BarrierTrees
  import opened Collectives
  import GT = GatherTree
  import B = Barrier

  // ---- consequences of barrier safety

  /** Once somebody has been released from the barrier of operation k, everybody
      has begun operation k and entered its barrier. */
  lemma {:induction false} EveryoneBegan(g: Group, s: State, a: nat, k: nat, j: nat)
    requires Inv(g, s) && a < g.n && j < g.n && B.Returned(s.bar, a) >= k + 1
    ensures s.bar.members[j].entered >= k + 1 && s.parties[j].started >= k + 1
  {
    B.ReleasedByRoot(XorTree(g.n), s.bar, a);
    B.RootHeardAll(XorTree(g.n), s.bar, j);
    assert PartyInv(g, s, j);
  }

  lemma {:induction false} SentMeansReturned(g: Group, s: State, a: nat, b: nat, k: nat)
    requires Inv(g, s) && a < g.n && Sent(s, a, b, k)
    ensures B.Returned(s.bar, a) >= k + 1
  {
    assert PartyInv(g, s, a);
  }

  lemma {:induction false} SentMeansBegan(g: Group, s: State, a: nat, b: nat, k: nat, j: nat)
    requires Inv(g, s) && a < g.n && j < g.n && Sent(s, a, b, k)
    ensures s.parties[j].started >= k + 1
  {
    SentMeansReturned(g, s, a, b, k);
    EveryoneBegan(g, s, a, k, j);
  }

  /** Data never precedes set-up: a member about to send finds its receiver inside
      the same operation, past its set-up, and without this member's data. */
  lemma {:induction false} ReceiverReady(g: Group, s: State, p: nat, q: nat)
    requires Inv(g, s) && Enabled(g, s, Send(p, q))
    ensures q < g.n && p in Sources(g.n, g.script[s.parties[p].started - 1], q)
    ensures var x := s.parties[q];
            && x.started == s.parties[p].started && (x.phase.InBarrier? || x.phase.Collect?)
            && p !in x.arrived
  {
    var k := s.parties[p].started - 1;
    assert PartyInv(g, s, p);
    Dual(g.n, g.script[k], p, q);
    EveryoneBegan(g, s, p, k, q);
    assert FlowInv(g, s, p, q, k);
    assert PartyInv(g, s, q);
  }

  lemma {:induction false} ProperSubset(a: set<nat>, b: set<nat>, x: nat)
    requires a <= b && x in b && x !in a
    ensures |a| < |b|
  {
    assert |b - a| + |a| == |b| by { assert b == a + (b - a); }
    assert x in b - a;
  }

  /** Every put that arrives is accepted by the entry set up for its operation. */
  lemma {:induction false} ArrivalAccepted(g: Group, s: State, m: Data)
    requires Inv(g, s) && m in s.wire
    ensures MsgInv(g, s, m) && Accepted(g.script[m.op], s.parties[m.dst], m)
    ensures Me(g.script[m.op], s.parties[m.dst]).op == m.op
  {
    assert MsgInv(g, s, m) && PartyInv(g, s, m.dst) && BufInv(g, s, m.dst);
    var x := s.parties[m.dst];
    ProperSubset(x.arrived, Sources(g.n, g.script[m.op], m.dst), m.src);
  }

  /** At most one put per sender, receiver and operation. */
  lemma {:induction false} SameMessage(g: Group, s: State, m: Data, m2: Data)
    requires Shape(g, s) && MsgInv(g, s, m) && MsgInv(g, s, m2) && m.src == m2.src && m.dst == m2.dst
    ensures m == m2
  {
    if g.script[m.op].Gather? {
      forall i | 0 <= i < |m.blocks| ensures m.blocks[i] == m2.blocks[i] {
        assert m.blocks[m.src + i - m.src] == Contribution(s, m.op, m.src + i);
        assert m2.blocks[m.src + i - m.src] == Contribution(s, m.op, m.src + i);
      }
    }
  }

  // ---- preservation, one conjunct at a time, from the facts it needs

  lemma {:induction false} BarParty(g: Group, s: State, b: B.Event)
    requires Enabled(g, s, Bar(b)) && PartyInv(g, s, b.p)
    requires B.ValidTree(XorTree(g.n)) && B.LocalInv(XorTree(g.n), s.bar, b.p)
    ensures PartyOk(g, BarrierPhase(b, s.parties[b.p]), B.Apply(XorTree(g.n), B.Save, s.bar, b).members[b.p], b.p)
  {
  }

  lemma {:induction false} WrittenOk(g: Group, x: Party, b: B.Member, m: Data)
    requires PartyOk(g, x, b, m.dst) && m.op < |g.script| && x.started == m.op + 1
    requires x.phase.InBarrier? || x.phase.Collect?
    requires m.src in Sources(g.n, g.script[m.op], m.dst) && m.src !in x.arrived
    requires Accepted(g.script[m.op], x, m)
    ensures PartyOk(g, Written(g.script[m.op], x, m), b, m.dst)
  {
  }

  lemma {:induction false} ArriveParty(g: Group, s: State, m: Data)
    requires Inv(g, s) && Enabled(g, s, Arrive(m))
    ensures PartyOk(g, NewParty(g, s, Arrive(m)), s.bar.members[m.dst], m.dst)
  {
    ArrivalAccepted(g, s, m);
    assert PartyInv(g, s, m.dst);
    WrittenOk(g, s.parties[m.dst], s.bar.members[m.dst], m);
  }

  lemma {:induction false} LocalParty(g: Group, s: State, e: Event)
    requires Enabled(g, s, e) && !e.Arrive? && !e.Bar? && PartyInv(g, s, e.p)
    requires e.TakeData? ==> MsgInv(g, s, e.m)
    ensures PartyOk(g, NewParty(g, s, e), s.bar.members[e.p], e.p)
  {
  }

  lemma {:induction false} SubjectStep(g: Group, s: State, e: Event)
    requires Inv(g, s) && Enabled(g, s, e)
    ensures Shape(g, Apply(g, s, e)) && Subject(e) < g.n && PartyInv(g, Apply(g, s, e), Subject(e))
  {
    if e.Arrive? {
      ArriveParty(g, s, e.m);
    } else if e.Bar? {
      assert B.LocalInv(XorTree(g.n), s.bar, e.e.p) && PartyInv(g, s, e.e.p);
      BarParty(g, s, e.e);
    } else {
      assert PartyInv(g, s, e.p);
      if e.TakeData? { assert MsgInv(g, s, e.m); }
      LocalParty(g, s, e);
    }
  }

  lemma {:induction false} OthersUnchanged(g: Group, s: State, e: Event, p: nat)
    requires Enabled(g, s, e) && p < g.n && p != Subject(e)
    ensures Shape(g, Apply(g, s, e))
    ensures Apply(g, s, e).parties[p] == s.parties[p] && Apply(g, s, e).bar.members[p] == s.bar.members[p]
  {
  }

  lemma {:induction false} BeginsGrow(g: Group, s: State, e: Event, j: nat)
    requires Enabled(g, s, e) && j < g.n
    ensures |Apply(g, s, e).parties| == g.n
    ensures s.parties[j].begins <= Apply(g, s, e).parties[j].begins
  {
    OnlySubject(g, s, e);
    NewBegins(g, s, e);
  }

  lemma {:induction false} NewBegins(g: Group, s: State, e: Event)
    requires Enabled(g, s, e) && Subject(e) < g.n
    ensures s.parties[Subject(e)].begins <= NewParty(g, s, e).begins
    ensures !e.Begin? ==> NewParty(g, s, e).begins == s.parties[Subject(e)].begins
  {
  }

  /** Contributions and root buffers of operations that everybody has begun do
      not change any more. */
  lemma {:induction false} DataStable(g: Group, s: State, e: Event, k: nat, j: nat)
    requires Enabled(g, s, e) && j < g.n
    ensures |s.parties[j].begins| > k ==> Contribution(Apply(g, s, e), k, j) == Contribution(s, k, j)
    ensures |s.parties[0].begins| > k ==> RootBuf(Apply(g, s, e), k) == RootBuf(s, k)
  {
    BeginsGrow(g, s, e, j);
    BeginsGrow(g, s, e, 0);
  }

  lemma {:induction false} OnlySubject(g: Group, s: State, e: Event)
    requires Enabled(g, s, e)
    ensures Subject(e) < g.n == |s.parties| && Apply(g, s, e).parties == s.parties[Subject(e) := NewParty(g, s, e)]
  {
  }

  /** A participant's own step takes back none of its puts. */
  lemma {:induction false} SentByStays(g: Group, s: State, e: Event, b: nat, k: nat)
    requires Enabled(g, s, e) && Subject(e) < g.n && PartyInv(g, s, Subject(e)) && Sent(s, Subject(e), b, k)
    requires e.Bar? ==> B.LocalInv(XorTree(g.n), s.bar, e.e.p)
    ensures var x := NewParty(g, s, e);
            x.started > k + 1 || (x.started == k + 1 && (x.phase.Outside? || (x.phase.Forward? && b !in x.phase.left)))
  {
    var x, y := s.parties[Subject(e)], NewParty(g, s, e);
    if e.Begin? {
      assert y.started == x.started + 1;
    } else if e.Arrive? {
      assert y.started == x.started && y.phase == x.phase;
    } else {
      assert y.started == x.started;
    }
  }

  lemma {:induction false} SentStays(g: Group, s: State, e: Event, a: nat, b: nat, k: nat)
    requires Enabled(g, s, e) && a < g.n && PartyInv(g, s, a) && Sent(s, a, b, k)
    requires e.Bar? ==> B.LocalInv(XorTree(g.n), s.bar, e.e.p)
    ensures |Apply(g, s, e).parties| == g.n && Sent(Apply(g, s, e), a, b, k)
  {
    OnlySubject(g, s, e);
    if a == Subject(e) { SentByStays(g, s, e, b, k); }
  }

  lemma {:induction false} SentKept(g: Group, s: State, e: Event, a: nat, b: nat, k: nat)
    requires Inv(g, s) && Enabled(g, s, e) && a < g.n && Sent(s, a, b, k)
    ensures |Apply(g, s, e).parties| == g.n && Sent(Apply(g, s, e), a, b, k)
  {
    assert PartyInv(g, s, a);
    if e.Bar? { assert B.LocalInv(XorTree(g.n), s.bar, e.e.p); }
    SentStays(g, s, e, a, b, k);
  }

  // ---- buffers

  /** A put that arrives in a gather fills exactly its sender's range. */
  lemma {:induction false} GatherOverlay(g: Group, s: State, m: Data, x: Party, k: nat)
    requires Shape(g, s) && k < |g.script| && g.script[k].Gather? && m.op == k && m.src < g.n && m.dst < g.n
    requires m.src in GT.Feeders(g.n, m.dst) && x.arrived <= GT.Feeders(g.n, m.dst) && m.src !in x.arrived
    requires PayloadOk(g, s, m) && |x.buf| == g.n
    requires x.buf[m.dst] == Contribution(s, k, m.dst)
    requires forall a, j :: a in x.arrived && a < g.n && a <= j <= GT.Last(g.n, a) ==> x.buf[j] == Contribution(s, k, j)
    ensures m.first + |m.blocks| <= |x.buf|
    ensures var buf := Overlay(x.buf, m.first, m.blocks);
            && |buf| == g.n && buf[m.dst] == Contribution(s, k, m.dst)
            && forall a, j :: a in x.arrived + {m.src} && a < g.n && a <= j <= GT.Last(g.n, a) ==>
                 buf[j] == Contribution(s, k, j)
  {
    var buf := Overlay(x.buf, m.first, m.blocks);
    GT.FeederPlace(g.n, m.dst, m.src);
    forall a, j | a in x.arrived + {m.src} && a < g.n && a <= j <= GT.Last(g.n, a)
      ensures buf[j] == Contribution(s, k, j)
    {
      if a != m.src {
        if a < m.src { GT.FeedersDisjoint(g.n, m.dst, a, m.src); }
        else { GT.FeedersDisjoint(g.n, m.dst, m.src, a); }
        assert buf[j] == x.buf[j];
      } else {
        assert buf[j] == m.blocks[j - m.src];
      }
    }
  }

  /** Data in a buffer implies that everybody has begun the operation. */
  lemma {:induction false} ArrivedMeansBegan(g: Group, s: State, p: nat, a: nat, j: nat)
    requires Inv(g, s) && p < g.n && j < g.n && !s.parties[p].phase.Outside? && a in s.parties[p].arrived
    ensures |s.parties[j].begins| >= s.parties[p].started >= 1
  {
    assert PartyInv(g, s, p) && PartyInv(g, s, j);
    var k := s.parties[p].started - 1;
    assert FlowInv(g, s, a, p, k);
    SentMeansBegan(g, s, a, p, k, j);
  }

  /** The data of operation k that participant p can refer to. */
  ghost predicate SameData(g: Group, s: State, s': State, k: nat, p: nat, all: bool)
  {
    && Contribution(s', k, p) == Contribution(s, k, p)
    && (all ==> forall j {:trigger Contribution(s', k, j)} :: 0 <= j < g.n ==> Contribution(s', k, j) == Contribution(s, k, j))
    && (all || p == 0 ==> RootBuf(s', k) == RootBuf(s, k))
  }

  /** A buffer keeps its meaning while it is not written to. */
  lemma {:induction false} BufFrame(g: Group, s: State, s': State, x: Party, x': Party, p: nat)
    requires BufOk(g, s, x, p) && x'.buf == x.buf && x'.arrived == x.arrived && x'.started == x.started
    requires x.phase.Outside? ==> x'.phase.Outside?
    requires x.started > 0 && !x.phase.Outside? ==> SameData(g, s, s', x.started - 1, p, x.arrived != {})
    ensures BufOk(g, s', x', p)
  {
  }

  lemma {:induction false} BegunDataKept(g: Group, s: State, e: Event, p: nat, k: nat, all: bool)
    requires Enabled(g, s, e) && p < g.n && |s.parties[p].begins| > k
    requires all ==> forall j :: 0 <= j < g.n ==> |s.parties[j].begins| > k
    ensures SameData(g, s, Apply(g, s, e), k, p, all)
  {
    DataStable(g, s, e, k, p);
    if all {
      forall j | 0 <= j < g.n ensures Contribution(Apply(g, s, e), k, j) == Contribution(s, k, j) { DataStable(g, s, e, k, j); }
    }
  }

  lemma {:induction false} DataKept(g: Group, s: State, e: Event, p: nat)
    requires Inv(g, s) && Enabled(g, s, e) && p < g.n && s.parties[p].started > 0 && !s.parties[p].phase.Outside?
    ensures SameData(g, s, Apply(g, s, e), s.parties[p].started - 1, p, s.parties[p].arrived != {})
  {
    var x, k := s.parties[p], s.parties[p].started - 1;
    assert PartyInv(g, s, p);
    if a :| a in x.arrived {
      forall j | 0 <= j < g.n ensures |s.parties[j].begins| > k { ArrivedMeansBegan(g, s, p, a, j); }
    }
    BegunDataKept(g, s, e, p, k, x.arrived != {});
  }

  lemma {:induction false} BufAccepts(g: Group, s: State, m: Data)
    requires Shape(g, s) && MsgInv(g, s, m) && BufInv(g, s, m.dst) && PartyInv(g, s, m.dst) && m in s.wire
    requires Accepted(g.script[m.op], s.parties[m.dst], m)
    ensures BufOk(g, s, Written(g.script[m.op], s.parties[m.dst], m), m.dst)
  {
    if g.script[m.op].Gather? { GatherOverlay(g, s, m, s.parties[m.dst], m.op); }
  }

  lemma {:induction false} BufArrive(g: Group, s: State, m: Data)
    requires Inv(g, s) && Enabled(g, s, Arrive(m))
    ensures BufOk(g, s, NewParty(g, s, Arrive(m)), m.dst)
  {
    ArrivalAccepted(g, s, m);
    assert BufInv(g, s, m.dst) && PartyInv(g, s, m.dst);
    BufAccepts(g, s, m);
  }

  lemma {:induction false} SameDataTrivial(g: Group, s: State, s': State, x: Party, p: nat)
    requires BufOk(g, s, x, p) && |s.parties| == |s'.parties| == g.n && g.n >= 1
    requires forall j :: 0 <= j < g.n ==> s'.parties[j].begins == s.parties[j].begins
    ensures BufOk(g, s', x, p)
  {
    assert s'.parties[0].begins == s.parties[0].begins;
    forall k: nat, j: nat ensures Contribution(s', k, j) == Contribution(s, k, j) && RootBuf(s', k) == RootBuf(s, k) {
      if j < g.n { assert s'.parties[j].begins == s.parties[j].begins; }
    }
  }

  lemma {:induction false} BeginsUnchanged(g: Group, s: State, e: Event, j: nat)
    requires Enabled(g, s, e) && !e.Begin? && j < g.n
    ensures |Apply(g, s, e).parties| == g.n && Apply(g, s, e).parties[j].begins == s.parties[j].begins
  {
    OnlySubject(g, s, e);
    NewBegins(g, s, e);
  }

  lemma {:induction false} BufBegin(g: Group, s: State, p: nat, buf: Buf)
    requires Enabled(g, s, Begin(p, buf)) && PartyInv(g, s, p)
    ensures |Apply(g, s, Begin(p, buf)).parties| == g.n
    ensures BufOk(g, Apply(g, s, Begin(p, buf)), NewParty(g, s, Begin(p, buf)), p)
  {
  }

  lemma {:induction false} BufferUntouched(g: Group, s: State, e: Event)
    requires Enabled(g, s, e) && !e.Begin? && !e.Arrive?
    ensures var x, x' := s.parties[Subject(e)], NewParty(g, s, e);
            && x'.buf == x.buf && x'.arrived == x.arrived && x'.started == x.started
            && (x.phase.Outside? && PartyInv(g, s, Subject(e)) && (e.Bar? ==> B.LocalInv(XorTree(g.n), s.bar, e.e.p))
                ==> x'.phase.Outside?)
  {
  }

  /** Between operations there is nothing to say about the buffer. */
  ghost predicate DataSame(g: Group, s: State, e: Event, p: nat)
    requires Enabled(g, s, e) && p < g.n
  {
    s.parties[p].started > 0 && !s.parties[p].phase.Outside? ==>
      SameData(g, s, Apply(g, s, e), s.parties[p].started - 1, p, s.parties[p].arrived != {})
  }

  lemma {:induction false} BufOtherFrame(g: Group, s: State, e: Event, p: nat)
    requires Enabled(g, s, e) && p < g.n && p != Subject(e) && BufInv(g, s, p) && DataSame(g, s, e, p)
    ensures Shape(g, Apply(g, s, e)) && BufInv(g, Apply(g, s, e), p)
  {
    OthersUnchanged(g, s, e, p);
    BufFrame(g, s, Apply(g, s, e), s.parties[p], s.parties[p], p);
  }

  lemma {:induction false} BufOther(g: Group, s: State, e: Event, p: nat)
    requires Inv(g, s) && Enabled(g, s, e) && p < g.n && p != Subject(e)
    ensures Shape(g, Apply(g, s, e)) && BufInv(g, Apply(g, s, e), p)
  {
    assert BufInv(g, s, p);
    if s.parties[p].started > 0 && !s.parties[p].phase.Outside? { DataKept(g, s, e, p); }
    BufOtherFrame(g, s, e, p);
  }

  lemma {:induction false} BufWritten(g: Group, s: State, m: Data)
    requires Inv(g, s) && Enabled(g, s, Arrive(m))
    ensures BufOk(g, Apply(g, s, Arrive(m)), NewParty(g, s, Arrive(m)), m.dst)
  {
    var s' := Apply(g, s, Arrive(m));
    BufArrive(g, s, m);
    forall j | 0 <= j < g.n ensures s'.parties[j].begins == s.parties[j].begins { BeginsUnchanged(g, s, Arrive(m), j); }
    SameDataTrivial(g, s, s', NewParty(g, s, Arrive(m)), m.dst);
  }

  lemma {:induction false} BufKeptFrame(g: Group, s: State, e: Event)
    requires Enabled(g, s, e) && !e.Begin? && !e.Arrive? && Subject(e) < g.n && DataSame(g, s, e, Subject(e))
    requires BufInv(g, s, Subject(e)) && PartyInv(g, s, Subject(e)) && (e.Bar? ==> B.LocalInv(XorTree(g.n), s.bar, e.e.p))
    ensures BufOk(g, Apply(g, s, e), NewParty(g, s, e), Subject(e))
  {
    BufferUntouched(g, s, e);
    BufFrame(g, s, Apply(g, s, e), s.parties[Subject(e)], NewParty(g, s, e), Subject(e));
  }

  lemma {:induction false} BufKept(g: Group, s: State, e: Event)
    requires Inv(g, s) && Enabled(g, s, e) && !e.Begin? && !e.Arrive?
    ensures BufOk(g, Apply(g, s, e), NewParty(g, s, e), Subject(e))
  {
    var p := Subject(e);
    assert p < g.n && BufInv(g, s, p) && PartyInv(g, s, p);
    if e.Bar? { assert B.LocalInv(XorTree(g.n), s.bar, e.e.p); }
    if s.parties[p].started > 0 && !s.parties[p].phase.Outside? { DataKept(g, s, e, p); }
    BufKeptFrame(g, s, e);
  }

  lemma {:induction false} BufStep(g: Group, s: State, e: Event, p: nat)
    requires Inv(g, s) && Enabled(g, s, e) && p < g.n
    ensures Shape(g, Apply(g, s, e)) && BufInv(g, Apply(g, s, e), p)
  {
    if p != Subject(e) {
      BufOther(g, s, e, p);
    } else if e.Begin? {
      assert PartyInv(g, s, p);
      BufBegin(g, s, p, e.buf);
    } else if e.Arrive? {
      BufWritten(g, s, e.m);
    } else {
      BufKept(g, s, e);
    }
  }

  // ---- messages

  /** A put that is still to be made is not under way yet. */
  lemma {:induction false} NotYetSent(g: Group, s: State, p: nat, q: nat)
    requires Inv(g, s) && Enabled(g, s, Send(p, q))
    ensures var m := Message(g, s.parties[p], p, q); m !in s.wire && m !in s.queue
  {
    var m := Message(g, s.parties[p], p, q);
    forall d | d in s.wire || d in s.queue ensures d != m { assert MsgInv(g, s, d); }
  }

  lemma {:induction false} PayloadStays(g: Group, s: State, e: Event, m: Data)
    requires Inv(g, s) && Enabled(g, s, e) && MsgInv(g, s, m)
    ensures PayloadOk(g, Apply(g, s, e), m)
  {
    var s' := Apply(g, s, e);
    forall j | 0 <= j < g.n ensures Contribution(s', m.op, j) == Contribution(s, m.op, j) {
      SentMeansBegan(g, s, m.src, m.dst, m.op, j);
      assert PartyInv(g, s, j);
      DataStable(g, s, e, m.op, j);
    }
    SentMeansBegan(g, s, m.src, m.dst, m.op, 0);
    assert PartyInv(g, s, 0);
    DataStable(g, s, e, m.op, 0);
  }

  lemma {:induction false} AwaitedArrive(g: Group, s: State, m2: Data, m: Data)
    requires Enabled(g, s, Arrive(m2)) && MsgInv(g, s, m) && MsgInv(g, s, m2)
    requires Accepted(g.script[m2.op], s.parties[m2.dst], m2) && PartyInv(g, s, m.dst)
    requires m.src == m2.src && m.dst == m2.dst ==> m == m2
    ensures var s' := Apply(g, s, Arrive(m2));
            Awaited(s'.parties[m.dst], m, m in s'.wire, m in s'.queue)
  {
  }

  lemma {:induction false} AwaitedTake(g: Group, s: State, p: nat, m2: Data, m: Data)
    requires Enabled(g, s, TakeData(p, m2)) && MsgInv(g, s, m) && MsgInv(g, s, m2) && PartyInv(g, s, m.dst)
    requires m.src == m2.src && m.dst == m2.dst ==> m == m2
    ensures var s' := Apply(g, s, TakeData(p, m2));
            m in s'.wire || m in s'.queue ==> Awaited(s'.parties[m.dst], m, m in s'.wire, m in s'.queue)
  {
  }

  lemma {:induction false} AwaitedOther(g: Group, s: State, e: Event, m: Data)
    requires Enabled(g, s, e) && MsgInv(g, s, m) && PartyInv(g, s, m.dst) && (m in s.wire || m in s.queue)
    requires !e.Arrive? && !e.TakeData?
    requires e.Bar? ==> B.LocalInv(XorTree(g.n), s.bar, e.e.p)
    requires e.Send? ==> Message(g, s.parties[e.p], e.p, e.q) != m
    ensures var s' := Apply(g, s, e);
            Awaited(s'.parties[m.dst], m, m in s'.wire, m in s'.queue)
  {
  }

  /** m is still in place after the event, if it is there at all. */
  ghost predicate InPlace(s': State, m: Data)
  {
    && s'.wire[m] + s'.queue[m] <= 1 && m.dst < |s'.parties|
    && (m in s'.wire || m in s'.queue ==> Awaited(s'.parties[m.dst], m, m in s'.wire, m in s'.queue))
  }

  lemma {:induction false} InPlaceArrive(g: Group, s: State, m2: Data, m: Data)
    requires Inv(g, s) && Enabled(g, s, Arrive(m2)) && (m in s.wire || m in s.queue)
    ensures InPlace(Apply(g, s, Arrive(m2)), m)
  {
    assert MsgInv(g, s, m) && PartyInv(g, s, m.dst);
    ArrivalAccepted(g, s, m2);
    if m.src == m2.src && m.dst == m2.dst { SameMessage(g, s, m, m2); }
    AwaitedArrive(g, s, m2, m);
  }

  lemma {:induction false} InPlaceTake(g: Group, s: State, p: nat, m2: Data, m: Data)
    requires Inv(g, s) && Enabled(g, s, TakeData(p, m2)) && (m in s.wire || m in s.queue)
    ensures InPlace(Apply(g, s, TakeData(p, m2)), m)
  {
    assert MsgInv(g, s, m) && PartyInv(g, s, m.dst) && MsgInv(g, s, m2);
    if m.src == m2.src && m.dst == m2.dst { SameMessage(g, s, m, m2); }
    AwaitedTake(g, s, p, m2, m);
  }

  lemma {:induction false} InPlaceStep(g: Group, s: State, e: Event, m: Data)
    requires Inv(g, s) && Enabled(g, s, e) && (m in s.wire || m in s.queue)
    ensures InPlace(Apply(g, s, e), m)
  {
    if e.Arrive? {
      InPlaceArrive(g, s, e.m, m);
    } else if e.TakeData? {
      InPlaceTake(g, s, e.p, e.m, m);
    } else {
      assert MsgInv(g, s, m) && PartyInv(g, s, m.dst);
      if e.Send? { NotYetSent(g, s, e.p, e.q); }
      if e.Bar? { assert B.LocalInv(XorTree(g.n), s.bar, e.e.p); }
      AwaitedOther(g, s, e, m);
    }
  }

  /** The put carries what its sender has assembled. */
  lemma {:induction false} MessagePayload(g: Group, s: State, p: nat, q: nat)
    requires Inv(g, s) && Enabled(g, s, Send(p, q))
    ensures PayloadOk(g, s, Message(g, s.parties[p], p, q))
  {
    var x, k := s.parties[p], s.parties[p].started - 1;
    assert PartyInv(g, s, p) && BufInv(g, s, p);
    assert x.phase.left <= Targets(g.n, g.script[k], p);
    if g.script[k].Gather? {
      forall j | p <= j <= GT.Last(g.n, p) ensures x.buf[j] == Contribution(s, k, j) {
        if p < j { var a := GT.BlockHasFeeder(g.n, p, j); }
      }
    }
  }

  lemma {:induction false} OldMessage(g: Group, s: State, e: Event, m: Data)
    requires Inv(g, s) && Enabled(g, s, e) && (m in s.wire || m in s.queue)
    requires m in Apply(g, s, e).wire || m in Apply(g, s, e).queue
    ensures Shape(g, Apply(g, s, e)) && MsgInv(g, Apply(g, s, e), m)
  {
    assert MsgInv(g, s, m);
    SentKept(g, s, e, m.src, m.dst, m.op);
    PayloadStays(g, s, e, m);
    InPlaceStep(g, s, e, m);
  }

  lemma {:induction false} PayloadSame(g: Group, s: State, s': State, m: Data)
    requires m.op < |g.script| && m.src < g.n == |s.parties| == |s'.parties| && PayloadOk(g, s, m)
    requires forall j :: 0 <= j < g.n ==> s'.parties[j].begins == s.parties[j].begins
    ensures PayloadOk(g, s', m)
  {
    assert s'.parties[0].begins == s.parties[0].begins;
    forall j | 0 <= j < g.n ensures Contribution(s', m.op, j) == Contribution(s, m.op, j) {
      assert s'.parties[j].begins == s.parties[j].begins;
    }
  }

  lemma {:induction false} FreshMessage(g: Group, s: State, p: nat, q: nat)
    requires Enabled(g, s, Send(p, q)) && q < g.n && q != p
    requires var m := Message(g, s.parties[p], p, q);
             && m !in s.wire && m !in s.queue && PayloadOk(g, s, m)
             && p in Sources(g.n, g.script[m.op], q) && Awaited(s.parties[q], m, true, false)
    ensures Shape(g, Apply(g, s, Send(p, q)))
    ensures MsgInv(g, Apply(g, s, Send(p, q)), Message(g, s.parties[p], p, q))
  {
    var m, s' := Message(g, s.parties[p], p, q), Apply(g, s, Send(p, q));
    forall j | 0 <= j < g.n ensures s'.parties[j].begins == s.parties[j].begins { BeginsUnchanged(g, s, Send(p, q), j); }
    PayloadSame(g, s, s', m);
  }

  lemma {:induction false} NewMessage(g: Group, s: State, p: nat, q: nat)
    requires Inv(g, s) && Enabled(g, s, Send(p, q))
    ensures Shape(g, Apply(g, s, Send(p, q)))
    ensures MsgInv(g, Apply(g, s, Send(p, q)), Message(g, s.parties[p], p, q))
  {
    ReceiverReady(g, s, p, q);
    NotYetSent(g, s, p, q);
    MessagePayload(g, s, p, q);
    FreshMessage(g, s, p, q);
  }

  lemma {:induction false} MsgStep(g: Group, s: State, e: Event, m: Data)
    requires Inv(g, s) && Enabled(g, s, e) && (m in Apply(g, s, e).wire || m in Apply(g, s, e).queue)
    ensures Shape(g, Apply(g, s, e)) && MsgInv(g, Apply(g, s, e), m)
  {
    if m in s.wire || m in s.queue { OldMessage(g, s, e, m); }
    else { NewMessage(g, s, e.p, e.q); }
  }

  // ---- flow of messages

  /** A participant's own step: only an arriving put counts as got. */
  lemma {:induction false} GotByStep(g: Group, s: State, e: Event, a: nat, k: nat)
    requires Enabled(g, s, e) && Subject(e) < g.n && k < |g.script| && PartyInv(g, s, Subject(e))
    requires a in Sources(g.n, g.script[k], Subject(e))
    requires e.Bar? ==> B.LocalInv(XorTree(g.n), s.bar, e.e.p)
    requires e.Arrive? ==> MsgInv(g, s, e.m)
    ensures var x := NewParty(g, s, e);
            x.started > k + 1 || (x.started == k + 1 && (x.phase.Outside? || a in x.arrived)) ==>
              Got(s, Subject(e), a, k) || (e.Arrive? && e.m.src == a && e.m.op == k)
  {
    var x, y := s.parties[Subject(e)], NewParty(g, s, e);
    if e.Begin? {
      assert y.started == x.started + 1 && y.arrived == {};
    } else if !e.Arrive? {
      assert y.started == x.started && y.arrived == x.arrived;
    }
  }

  lemma {:induction false} GotStep(g: Group, s: State, e: Event, b: nat, a: nat, k: nat)
    requires Enabled(g, s, e) && b < g.n && k < |g.script| && PartyInv(g, s, b) && a in Sources(g.n, g.script[k], b)
    requires e.Bar? ==> B.LocalInv(XorTree(g.n), s.bar, e.e.p)
    requires e.Arrive? ==> MsgInv(g, s, e.m)
    ensures |Apply(g, s, e).parties| == g.n
    ensures Got(Apply(g, s, e), b, a, k) ==>
              Got(s, b, a, k) || (e.Arrive? && e.m.src == a && e.m.dst == b && e.m.op == k)
  {
    OnlySubject(g, s, e);
    if b == Subject(e) { GotByStep(g, s, e, a, k); }
  }

  lemma {:induction false} FlowStep(g: Group, s: State, e: Event, a: nat, b: nat, k: nat)
    requires Inv(g, s) && Enabled(g, s, e) && a < g.n && b < g.n && k < |g.script|
    ensures Shape(g, Apply(g, s, e)) && FlowInv(g, Apply(g, s, e), a, b, k)
  {
    assert FlowInv(g, s, a, b, k) && PartyInv(g, s, b);
    if e.Bar? { assert B.LocalInv(XorTree(g.n), s.bar, e.e.p); }
    if e.Arrive? { assert MsgInv(g, s, e.m); }
    if a in Sources(g.n, g.script[k], b) {
      GotStep(g, s, e, b, a, k);
      if Sent(s, a, b, k) { SentKept(g, s, e, a, b, k); }
    }
  }

  // ---- results of finished operations

  lemma {:induction false} FinishedMeansBegan(g: Group, s: State, p: nat, k: nat, j: nat)
    requires Inv(g, s) && p < g.n && j < g.n && k < |s.parties[p].ends|
    ensures |s.parties[j].begins| > k
  {
    assert PartyInv(g, s, p) && PartyInv(g, s, j);
    EveryoneBegan(g, s, p, k, j);
  }

  lemma {:induction false} EndStays(g: Group, s: State, e: Event, p: nat, k: nat)
    requires Inv(g, s) && Enabled(g, s, e) && p < g.n && k < |g.script| && k < |s.parties[p].ends|
    requires EndOk(g, s, s.parties[p].ends[k], p, k)
    ensures EndOk(g, Apply(g, s, e), s.parties[p].ends[k], p, k)
  {
    var s' := Apply(g, s, e);
    forall j | 0 <= j < g.n ensures Contribution(s', k, j) == Contribution(s, k, j) {
      FinishedMeansBegan(g, s, p, k, j);
      DataStable(g, s, e, k, j);
    }
    FinishedMeansBegan(g, s, p, k, 0);
    DataStable(g, s, e, k, 0);
  }

  /** The buffer of a participant that has received and sent everything. */
  lemma {:induction false} BufferDone(g: Group, s: State, p: nat)
    requires Inv(g, s) && Enabled(g, s, Finish(p))
    ensures 0 < s.parties[p].started <= |g.script|
    ensures EndOk(g, s, s.parties[p].buf, p, s.parties[p].started - 1)
  {
    var x, k := s.parties[p], s.parties[p].started - 1;
    assert PartyInv(g, s, p) && BufInv(g, s, p);
    if g.script[k].Gather? && p == 0 {
      forall j | 0 <= j < g.n ensures x.buf[j] == Contribution(s, k, j) {
        if 0 < j { var a := GT.BlockHasFeeder(g.n, 0, j); }
      }
    }
  }

  lemma {:induction false} EndSame(g: Group, s: State, s': State, buf: Buf, p: nat, k: nat)
    requires k < |g.script| && EndOk(g, s, buf, p, k) && 1 <= g.n == |s.parties| == |s'.parties|
    requires forall j :: 0 <= j < g.n ==> s'.parties[j].begins == s.parties[j].begins
    ensures EndOk(g, s', buf, p, k)
  {
    assert s'.parties[0].begins == s.parties[0].begins;
    forall j | 0 <= j < g.n ensures Contribution(s', k, j) == Contribution(s, k, j) {
      assert s'.parties[j].begins == s.parties[j].begins;
    }
  }

  lemma {:induction false} FinishRecorded(g: Group, s: State, p: nat, k: nat)
    requires Enabled(g, s, Finish(p)) && k < |g.script| && ResultInv(g, s, p, k) && PartyInv(g, s, p)
    requires k == |s.parties[p].ends| ==> EndOk(g, s, s.parties[p].buf, p, k)
    ensures ResultOk(g, Apply(g, s, Finish(p)), NewParty(g, s, Finish(p)), p, k)
  {
    var x, s' := s.parties[p], Apply(g, s, Finish(p));
    forall j | 0 <= j < g.n ensures s'.parties[j].begins == s.parties[j].begins { BeginsUnchanged(g, s, Finish(p), j); }
    if k == |x.ends| { EndSame(g, s, s', x.buf, p, k); }
    if k < |x.ends| { EndSame(g, s, s', x.ends[k], p, k); }
  }

  lemma {:induction false} ResultFinish(g: Group, s: State, p: nat, k: nat)
    requires Inv(g, s) && Enabled(g, s, Finish(p)) && k < |g.script| && ResultInv(g, s, p, k)
    ensures ResultOk(g, Apply(g, s, Finish(p)), NewParty(g, s, Finish(p)), p, k)
  {
    assert PartyInv(g, s, p);
    BufferDone(g, s, p);
    FinishRecorded(g, s, p, k);
  }

  /** Other events leave the record of finished operations alone. */
  lemma {:induction false} RecordKept(g: Group, s: State, e: Event)
    requires Enabled(g, s, e) && !e.Finish? && PartyInv(g, s, Subject(e))
    requires e.Bar? ==> B.LocalInv(XorTree(g.n), s.bar, e.e.p)
    requires e.Arrive? ==> MsgInv(g, s, e.m)
    ensures var x, x' := s.parties[Subject(e)], NewParty(g, s, e);
            && x'.ends == x.ends
            && (!e.Begin? ==> x'.begins == x.begins)
            && (x'.phase.Outside? ==> x.phase.Outside? && x'.buf == x.buf)
  {
  }

  lemma {:induction false} ResultRecorded(g: Group, s: State, s': State, x: Party, x': Party, p: nat, k: nat)
    requires k < |g.script| && ResultOk(g, s, x, p, k)
    requires k < |x.ends| ==> EndOk(g, s', x.ends[k], p, k)
    requires x'.ends == x.ends && x'.begins == x.begins
    requires x'.phase.Outside? ==> x.phase.Outside? && x'.buf == x.buf
    ensures ResultOk(g, s', x', p, k)
  {
  }

  lemma {:induction false} ResultBegin(g: Group, s: State, p: nat, buf: Buf, k: nat)
    requires Enabled(g, s, Begin(p, buf)) && k < |g.script| && PartyInv(g, s, p) && ResultInv(g, s, p, k)
    requires k > 0 ==> ResultInv(g, s, p, k - 1)
    requires k < |s.parties[p].ends| ==> EndOk(g, Apply(g, s, Begin(p, buf)), s.parties[p].ends[k], p, k)
    ensures ResultOk(g, Apply(g, s, Begin(p, buf)), NewParty(g, s, Begin(p, buf)), p, k)
  {
  }

  lemma {:induction false} ResultSubject(g: Group, s: State, e: Event, k: nat)
    requires Inv(g, s) && Enabled(g, s, e) && k < |g.script| && !e.Finish?
    ensures ResultOk(g, Apply(g, s, e), NewParty(g, s, e), Subject(e), k)
  {
    var p := Subject(e);
    assert ResultInv(g, s, p, k) && PartyInv(g, s, p);
    if k < |s.parties[p].ends| { EndStays(g, s, e, p, k); }
    if e.Begin? {
      if k > 0 { assert ResultInv(g, s, p, k - 1); }
      ResultBegin(g, s, p, e.buf, k);
    } else {
      if e.Bar? { assert B.LocalInv(XorTree(g.n), s.bar, e.e.p); }
      if e.Arrive? { assert MsgInv(g, s, e.m); }
      RecordKept(g, s, e);
      ResultRecorded(g, s, Apply(g, s, e), s.parties[p], NewParty(g, s, e), p, k);
    }
  }

  lemma {:induction false} ResultOther(g: Group, s: State, e: Event, p: nat, k: nat)
    requires Inv(g, s) && Enabled(g, s, e) && p < g.n && k < |g.script| && p != Subject(e)
    ensures Shape(g, Apply(g, s, e)) && ResultInv(g, Apply(g, s, e), p, k)
  {
    assert ResultInv(g, s, p, k);
    if k < |s.parties[p].ends| { EndStays(g, s, e, p, k); }
    OthersUnchanged(g, s, e, p);
    ResultRecorded(g, s, Apply(g, s, e), s.parties[p], s.parties[p], p, k);
  }

  lemma {:induction false} ResultStep(g: Group, s: State, e: Event, p: nat, k: nat)
    requires Inv(g, s) && Enabled(g, s, e) && p < g.n && k < |g.script|
    ensures Shape(g, Apply(g, s, e)) && ResultInv(g, Apply(g, s, e), p, k)
  {
    if p != Subject(e) {
      ResultOther(g, s, e, p, k);
    } else if e.Finish? {
      assert ResultInv(g, s, p, k);
      ResultFinish(g, s, p, k);
    } else {
      ResultSubject(g, s, e, k);
    }
  }

  // ---- the invariant over whole runs

  lemma {:induction false} InvStep(g: Group, s: State, e: Event)
    requires Inv(g, s) && Enabled(g, s, e)
    ensures Inv(g, Apply(g, s, e))
  {
    var s' := Apply(g, s, e);
    if e.Bar? { B.InvStep(XorTree(g.n), B.Save, s.bar, e.e); }
    if e.Arrive? { ArrivalAccepted(g, s, e.m); }
    BeginsGrow(g, s, e, 0);
    forall p | 0 <= p < g.n ensures Shape(g, s') && PartyInv(g, s', p) && BufInv(g, s', p) {
      BufStep(g, s, e, p);
      if p == Subject(e) { SubjectStep(g, s, e); } else { OthersUnchanged(g, s, e, p); assert PartyInv(g, s, p); }
    }
    BufStep(g, s, e, 0);
    forall m | m in s'.wire || m in s'.queue ensures MsgInv(g, s', m) { MsgStep(g, s, e, m); }
    forall a, b, k | 0 <= a < g.n && 0 <= b < g.n && 0 <= k < |g.script| ensures FlowInv(g, s', a, b, k) {
      FlowStep(g, s, e, a, b, k);
    }
    forall p, k | 0 <= p < g.n && 0 <= k < |g.script| ensures ResultInv(g, s', p, k) { ResultStep(g, s, e, p, k); }
  }

  lemma {:induction false} InvHolds(g: Group, ss: seq<State>, es: seq<Event>, i: nat)
    requires g.n >= 1 && IsRun(g, ss, es) && i < |ss|
    ensures Inv(g, ss[i])
  {
    if i == 0 {
      InvInitially(g, ss[0]);
    } else {
      InvHolds(g, ss, es, i - 1);
      InvNext(g, ss[i - 1], es[i - 1], ss[i]);
    }
  }

  lemma {:induction false} InvInitially(g: Group, s: State)
    requires g.n >= 1 && Init(g, s)
    ensures Inv(g, s)
  {
  }

  lemma {:induction false} InvNext(g: Group, s: State, e: Event, s': State)
    requires Inv(g, s) && Enabled(g, s, e) && s' == Apply(g, s, e)
    ensures Inv(g, s')
  {
    InvStep(g, s, e);
  }

  // ---- the properties

  /** Data never precedes set-up: in every state of every run, whoever a put is
      travelling to has entered the barrier of that operation, is still inside the
      operation, and has the entry set up for exactly this operation with room for
      it. No data put is ever dropped. */
  lemma {:induction false} DataNeverPrecedesSetup(g: Group, ss: seq<State>, es: seq<Event>, i: nat, m: Data)
    requires g.n >= 1 && IsRun(g, ss, es) && i < |ss| && m in ss[i].wire
    ensures ss[i].lost == multiset{}
    ensures m.op < |g.script| && m.dst < g.n == |ss[i].parties| == |ss[i].bar.members|
    ensures var x := ss[i].parties[m.dst];
            && x.started == m.op + 1 && (x.phase.InBarrier? || x.phase.Collect?)
            && ss[i].bar.members[m.dst].entered == m.op + 1
            && Me(g.script[m.op], x).Entry? && Me(g.script[m.op], x).op == m.op
            && Accepted(g.script[m.op], x, m)
  {
    InvHolds(g, ss, es, i);
    ArrivalAccepted(g, ss[i], m);
    assert PartyInv(g, ss[i], m.dst);
  }

  /** Gather: when the root returns, block j of its buffer is the block that
      participant j had passed in, for every j. */
  lemma {:induction false} GatherCorrect(g: Group, ss: seq<State>, es: seq<Event>, i: nat, k: nat)
    requires g.n >= 1 && IsRun(g, ss, es) && i < |ss|
    requires k < |g.script| && g.script[k].Gather? && |ss[i].parties| == g.n && k < |ss[i].parties[0].ends|
    ensures |ss[i].parties[0].ends[k]| == g.n
    ensures forall j :: 0 <= j < g.n ==>
              var x := ss[i].parties[j];
              k < |x.begins| && |x.begins[k]| == g.n && ss[i].parties[0].ends[k][j] == x.begins[k][j]
  {
    var s := ss[i];
    InvHolds(g, ss, es, i);
    assert ResultInv(g, s, 0, k);
    forall j | 0 <= j < g.n
      ensures k < |s.parties[j].begins| && |s.parties[j].begins[k]| == g.n
      ensures s.parties[0].ends[k][j] == s.parties[j].begins[k][j]
    {
      FinishedMeansBegan(g, s, 0, k, j);
      assert ResultInv(g, s, j, k);
    }
  }

  /** Broadcast: whoever returns holds the root's buffer. */
  lemma {:induction false} BcastCorrect(g: Group, ss: seq<State>, es: seq<Event>, i: nat, k: nat, p: nat)
    requires g.n >= 1 && IsRun(g, ss, es) && i < |ss|
    requires k < |g.script| && g.script[k].Bcast? && p < g.n == |ss[i].parties| && k < |ss[i].parties[p].ends|
    ensures k < |ss[i].parties[0].begins| && ss[i].parties[p].ends[k] == ss[i].parties[0].begins[k]
  {
    InvHolds(g, ss, es, i);
    assert ResultInv(g, ss[i], p, k);
    FinishedMeansBegan(g, ss[i], p, k, 0);
  }

  /** Vote: a gather of the ballots followed by a broadcast of the same buffer.
      Whoever returns from it holds a ballot in which entry j is the vote of
      participant j, whether or not the others return; so all ballots agree. */
  lemma {:induction false} VoteAgreement(g: Group, ss: seq<State>, es: seq<Event>, i: nat, k: nat, p: nat)
    requires g.n >= 1 && IsRun(g, ss, es) && i < |ss|
    requires k + 1 < |g.script| && g.script[k].Gather? && g.script[k + 1] == Bcast(false, g.n)
    requires p < g.n == |ss[i].parties| && k + 1 < |ss[i].parties[p].ends|
    ensures |ss[i].parties[p].ends[k + 1]| == g.n
    ensures forall j :: 0 <= j < g.n ==>
              var x := ss[i].parties[j];
              k < |x.begins| && |x.begins[k]| == g.n && ss[i].parties[p].ends[k + 1][j] == x.begins[k][j]
  {
    var s := ss[i];
    InvHolds(g, ss, es, i);
    BcastCorrect(g, ss, es, i, k + 1, p);
    assert PartyInv(g, s, 0) && ResultInv(g, s, 0, k + 1);
    GatherCorrect(g, ss, es, i, k);
  }

  lemma {:induction false} SentNext(g: Group, ss: seq<State>, es: seq<Event>, i: nat, a: nat, b: nat, k: nat)
    requires g.n >= 1 && IsRun(g, ss, es) && i < |es| && a < g.n == |ss[i].parties| && Sent(ss[i], a, b, k)
    ensures |ss[i + 1].parties| == g.n && Sent(ss[i + 1], a, b, k)
  {
    InvHolds(g, ss, es, i);
    SentKept(g, ss[i], es[i], a, b, k);
  }

  lemma {:induction false} SentStaysRun(g: Group, ss: seq<State>, es: seq<Event>, i: nat, j: nat, a: nat, b: nat, k: nat)
    requires g.n >= 1 && IsRun(g, ss, es) && i <= j < |ss| && a < g.n == |ss[i].parties| && Sent(ss[i], a, b, k)
    ensures |ss[j].parties| == g.n && Sent(ss[j], a, b, k)
    decreases j
  {
    if i < j {
      SentStaysRun(g, ss, es, i, j - 1, a, b, k);
      SentNext(g, ss, es, j - 1, a, b, k);
    }
  }

  /** A participant makes each of its puts exactly once: two puts from p to q
      belong to different operations. */
  lemma {:induction false} SendsOnce(g: Group, ss: seq<State>, es: seq<Event>, i: nat, j: nat, p: nat, q: nat)
    requires g.n >= 1 && IsRun(g, ss, es) && i < j < |es| && es[i] == es[j] == Send(p, q)
    ensures ss[i].parties[p].started != ss[j].parties[p].started
  {
    var k := ss[i].parties[p].started - 1;
    assert ss[i + 1] == Apply(g, ss[i], es[i]);
    assert Sent(ss[i + 1], p, q, k);
    SentStaysRun(g, ss, es, i + 1, j, p, q, k);
  }
}
