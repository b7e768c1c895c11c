/** Gather, broadcast and vote over one list of participants. Each operation
    attaches its receive entry, runs a barrier, collects the data it expects and
    forwards its own; tokens and data travel through an asynchronous network.
    The participants run the same script of operations, interleaved arbitrarily,
    and any of them may stop at any time. */
module Collectives {
  import opened FanInTree
  import opened BarrierTrees
  import GT = GatherTree
  import B = Barrier

  type Block = int
  type Buf = seq<Block>

  /** One call, made by every participant: a plain barrier, a gather of one block
      each, or a broadcast of len blocks. `own` says that the caller passes a
      buffer of its own; otherwise it passes the buffer that the previous
      operation left (as the broadcast inside `dsrvr_vote` does). */
  datatype Op = Sync | Gather(own: bool) | Bcast(own: bool, len: nat)

  datatype Group = Group(n: nat, script: seq<Op>)

  datatype Phase =
    | Outside                  // between operations
    | Attached                 // receive entry set up, barrier not entered
    | InBarrier
    | Collect(got: set<nat>)   // released, waiting for data
    | Forward(left: set<nat>)  // sending

  /** A receive match entry with its memory descriptor: the operation it was set
      up for, and the messages it still accepts. */
  datatype Entry = NoEntry | Entry(op: nat, room: nat)

  /** A data put. `op` is bookkeeping: an arriving message is matched by its kind
      only. */
  datatype Data = Data(src: nat, dst: nat, op: nat, first: nat, blocks: Buf)

  /** `arrived`, `begins` and `ends` are bookkeeping: who has written into the
      current operation's entry, and the buffer at the start and end of each
      operation. */
  datatype Party = Party(started: nat, phase: Phase, buf: Buf, gatherMe: Entry, bcastMe: Entry,
                         arrived: set<nat>, begins: seq<Buf>, ends: seq<Buf>)

  datatype State = State(bar: B.State, parties: seq<Party>,
                         wire: multiset<Data>, queue: multiset<Data>, lost: multiset<Data>)

  datatype Event =
    | Begin(p: nat, buf: Buf)
    | Bar(e: B.Event)
    | Arrive(m: Data)
    | TakeData(p: nat, m: Data)
    | Complete(p: nat)
    | Send(p: nat, q: nat)
    | Finish(p: nat)

  // ---- who exchanges data with whom

  function Sources(n: nat, op: Op, p: nat): set<nat>
  {
    match op
    case Sync => {}
    case Gather(_) => GT.Feeders(n, p)
    case Bcast(_, _) => if 0 < p < n then {Target(p)} else {}
  }

  function Targets(n: nat, op: Op, p: nat): set<nat>
  {
    match op
    case Sync => {}
    case Gather(_) => if 0 < p < n then {GT.Parent(n, p)} else {}
    case Bcast(_, _) => B.Children(XorTree(n), p)
  }

  /** Sender and receiver agree on every transfer. */
  lemma {:induction false} Dual(n: nat, op: Op, a: nat, b: nat)
    requires a < n && b < n
    ensures b in Targets(n, op, a) <==> a in Sources(n, op, b)
  {
  }

  // ---- the transition system

  predicate Keeps(op: Op)
  {
    match op
    case Sync => true
    case Gather(own) => !own
    case Bcast(own, _) => !own
  }

  predicate FitsOp(n: nat, op: Op, buf: Buf)
  {
    match op
    case Sync => true
    case Gather(_) => |buf| == n
    case Bcast(_, len) => |buf| == len
  }

  predicate SameKind(a: Op, b: Op)
  {
    (a.Gather? && b.Gather?) || (a.Bcast? && b.Bcast?)
  }

  ghost predicate Init(g: Group, s: State)
  {
    && B.Init(XorTree(g.n), s.bar)
    && |s.parties| == g.n
    && (forall p :: 0 <= p < g.n ==>
          s.parties[p] == Party(0, Outside, s.parties[p].buf, NoEntry, NoEntry, {}, [], []))
    && s.wire == multiset{} && s.queue == multiset{} && s.lost == multiset{}
  }

  ghost predicate Shape(g: Group, s: State)
  {
    g.n >= 1 && |s.parties| == g.n == |s.bar.members|
  }

  ghost predicate Enabled(g: Group, s: State, e: Event)
  {
    && Shape(g, s)
    && match e {
         case Begin(p, buf) =>
           && p < g.n && s.bar.members[p].live
           && var x := s.parties[p];
           && x.phase.Outside? && x.started < |g.script|
           && FitsOp(g.n, g.script[x.started], buf)
           && (Keeps(g.script[x.started]) ==> buf == x.buf)
         case Bar(b) =>
           && B.Enabled(XorTree(g.n), s.bar, b)
           && (b.Enter? ==> s.parties[b.p].phase.Attached?)
         case Arrive(m) =>
           m in s.wire && m.dst < g.n && m.op < |g.script|
         case TakeData(p, m) =>
           && p < g.n && s.bar.members[p].live
           && var x := s.parties[p];
           && x.phase.Collect? && 0 < x.started <= |g.script|
           && x.phase.got != Sources(g.n, g.script[x.started - 1], p)
           && m in s.queue && m.dst == p && m.op < |g.script| && SameKind(g.script[m.op], g.script[x.started - 1])
         case Complete(p) =>
           && p < g.n && s.bar.members[p].live
           && var x := s.parties[p];
           && 0 < x.started <= |g.script|
           && x.phase == Collect(Sources(g.n, g.script[x.started - 1], p))
         case Send(p, q) =>
           && p < g.n && s.bar.members[p].live
           && var x := s.parties[p];
           && 0 < x.started <= |g.script| && x.phase.Forward? && q in x.phase.left
         case Finish(p) =>
           && p < g.n && s.bar.members[p].live
           && s.parties[p].phase == Forward({})
       }
  }

  function Me(op: Op, x: Party): Entry
  {
    match op
    case Gather(_) => x.gatherMe
    case Bcast(_, _) => x.bcastMe
    case Sync => NoEntry
  }

  /** Set-up of the receive entry, made only by members that receive data. */
  function Attach(n: nat, op: Op, p: nat, x: Party): Party
  {
    var me := Entry(x.started, |Sources(n, op, p)|);
    if Sources(n, op, p) == {} then x
    else match op
      case Gather(_) => x.(gatherMe := me)
      case Bcast(_, _) => x.(bcastMe := me)
      case Sync => x
  }

  /** Whether an arriving put finds an entry that takes it: one of its kind, with
      messages to go, open to this sender (the gather entry accepts any, the
      broadcast entry the tree parent), and within the buffer. */
  predicate Accepted(op: Op, x: Party, m: Data)
  {
    && Me(op, x).Entry? && Me(op, x).room > 0
    && (op.Bcast? ==> m.dst > 0 && m.src == Target(m.dst))
    && m.first + |m.blocks| <= |x.buf|
  }

  function Overlay(buf: Buf, first: nat, blocks: Buf): Buf
    requires first + |blocks| <= |buf|
  {
    buf[..first] + blocks + buf[first + |blocks|..]
  }

  function Written(op: Op, x: Party, m: Data): Party
    requires Accepted(op, x, m)
  {
    var me := Me(op, x);
    var me' := me.(room := me.room - 1);
    var y := x.(buf := Overlay(x.buf, m.first, m.blocks), arrived := x.arrived + {m.src});
    if op.Gather? then y.(gatherMe := me') else y.(bcastMe := me')
  }

  /** The put that p makes for q: its assembled range in a gather, the whole
      buffer in a broadcast. */
  function Message(g: Group, x: Party, p: nat, q: nat): Data
    requires p < g.n && 0 < x.started <= |g.script|
  {
    var k := x.started - 1;
    if g.script[k].Gather? && GT.Last(g.n, p) < |x.buf|
    then Data(p, q, k, p, x.buf[p..GT.Last(g.n, p) + 1])
    else Data(p, q, k, 0, x.buf)
  }

  function BarrierPhase(b: B.Event, x: Party): Party
  {
    match b
    case Enter(_) => x.(phase := InBarrier)
    case Return(_) => x.(phase := Collect({}))
    case _ => x
  }

  /** The participant whose state an event changes, and how. */
  function Subject(e: Event): nat
  {
    match e
    case Bar(b) => b.p
    case Arrive(m) => m.dst
    case _ => e.p
  }

  ghost function NewParty(g: Group, s: State, e: Event): Party
    requires Enabled(g, s, e)
  {
    var x := s.parties[Subject(e)];
    match e {
      case Begin(p, buf) =>
        var y := Attach(g.n, g.script[x.started], p, x);
        y.(started := x.started + 1, phase := Attached, buf := buf, arrived := {}, begins := x.begins + [buf])
      case Bar(b) => BarrierPhase(b, x)
      case Arrive(m) =>
        if Accepted(g.script[m.op], x, m) then Written(g.script[m.op], x, m) else x
      case TakeData(p, m) =>
        if m.src in Sources(g.n, g.script[x.started - 1], p) && m.src !in x.phase.got
        then x.(phase := Collect(x.phase.got + {m.src})) else x
      case Complete(p) =>
        x.(phase := Forward(Targets(g.n, g.script[x.started - 1], p)))
      case Send(p, q) =>
        x.(phase := Forward(x.phase.left - {q}))
      case Finish(p) =>
        x.(phase := Outside, ends := x.ends + [x.buf])
    }
  }

  ghost function Apply(g: Group, s: State, e: Event): State
    requires Enabled(g, s, e)
  {
    var s' := s.(parties := s.parties[Subject(e) := NewParty(g, s, e)]);
    match e {
      case Bar(b) => s'.(bar := B.Apply(XorTree(g.n), B.Save, s.bar, b))
      case Arrive(m) =>
        if Accepted(g.script[m.op], s.parties[m.dst], m)
        then s'.(wire := s.wire - multiset{m}, queue := s.queue + multiset{m})
        else s'.(wire := s.wire - multiset{m}, lost := s.lost + multiset{m})
      case TakeData(_, m) => s'.(queue := s.queue - multiset{m})
      case Send(p, q) => s'.(wire := s.wire + multiset{Message(g, s.parties[p], p, q)})
      case _ => s'
    }
  }

  ghost predicate IsRun(g: Group, ss: seq<State>, es: seq<Event>)
  {
    && |ss| == |es| + 1
    && Init(g, ss[0])
    && forall i :: 0 <= i < |es| ==> Enabled(g, ss[i], es[i]) && ss[i + 1] == Apply(g, ss[i], es[i])
  }

  // ---- meaning of the data

  /** Block that participant j contributes to the gather that is operation k. */
  function Contribution(s: State, k: nat, j: nat): Block
  {
    if j < |s.parties| && k < |s.parties[j].begins| && j < |s.parties[j].begins[k]|
    then s.parties[j].begins[k][j] else 0
  }

  /** The root's buffer at the start of the broadcast that is operation k. */
  function RootBuf(s: State, k: nat): Buf
  {
    if 0 < |s.parties| && k < |s.parties[0].begins| then s.parties[0].begins[k] else []
  }

  /** a has issued its operation-k put for b. */
  ghost predicate Sent(s: State, a: nat, b: nat, k: nat)
    requires a < |s.parties|
  {
    var x := s.parties[a];
    x.started > k + 1 || (x.started == k + 1 && (x.phase.Outside? || (x.phase.Forward? && b !in x.phase.left)))
  }

  /** a's operation-k put has been written into b's buffer. */
  ghost predicate Got(s: State, b: nat, a: nat, k: nat)
    requires b < |s.parties|
  {
    var x := s.parties[b];
    x.started > k + 1 || (x.started == k + 1 && (x.phase.Outside? || a in x.arrived))
  }

  // ---- the invariant

  ghost predicate PartyInv(g: Group, s: State, p: nat)
    requires Shape(g, s) && p < g.n
  {
    PartyOk(g, s.parties[p], s.bar.members[p], p)
  }

  /** How a participant's phase, entry and barrier position fit together. */
  ghost predicate PartyOk(g: Group, x: Party, m: B.Member, p: nat)
  {
    && x.started <= |g.script| && |x.begins| == x.started
    && (if x.phase.Attached? then m.entered + 1 == x.started else m.entered == x.started)
    && (m.pc.Idle? <==> !x.phase.InBarrier?)
    && (if x.phase.Outside? then |x.ends| == x.started else |x.ends| + 1 == x.started)
    && (!x.phase.Outside? ==>
          var op := g.script[x.started - 1];
          var from := Sources(g.n, op, p);
          && x.arrived <= from
          && (x.phase.Collect? ==> x.phase.got <= x.arrived)
          && (x.phase.Forward? ==> x.arrived == from && x.phase.left <= Targets(g.n, op, p))
          && (from != {} ==> |x.arrived| <= |from| && Me(op, x) == Entry(x.started - 1, |from| - |x.arrived|)))
  }

  ghost predicate PayloadOk(g: Group, s: State, m: Data)
    requires m.op < |g.script| && m.src < g.n
  {
    match g.script[m.op]
    case Sync => false
    case Gather(_) =>
      && m.first == m.src && |m.blocks| == GT.Last(g.n, m.src) - m.src + 1
      && forall j :: m.src <= j <= GT.Last(g.n, m.src) ==> m.blocks[j - m.src] == Contribution(s, m.op, j)
    case Bcast(_, len) => m.first == 0 && m.blocks == RootBuf(s, m.op) && |m.blocks| == len
  }

  /** A put under way has been issued, and carries the right blocks. */
  ghost predicate MsgInv(g: Group, s: State, m: Data)
    requires Shape(g, s)
  {
    && m.op < |g.script| && m.src < g.n && m.dst < g.n
    && m.src in Sources(g.n, g.script[m.op], m.dst)
    && Sent(s, m.src, m.dst, m.op)
    && PayloadOk(g, s, m)
    && s.wire[m] + s.queue[m] <= 1
    && Awaited(s.parties[m.dst], m, m in s.wire, m in s.queue)
  }

  /** The receiver of a put under way is still inside that operation, released
      into it or about to be, and not yet served with it. */
  ghost predicate Awaited(x: Party, m: Data, onWire: bool, queued: bool)
  {
    && x.started == m.op + 1 && (x.phase.InBarrier? || x.phase.Collect?)
    && (onWire ==> m.src !in x.arrived)
    && (queued ==> m.src in x.arrived && (x.phase.Collect? ==> m.src !in x.phase.got))
  }

  ghost predicate FlowInv(g: Group, s: State, a: nat, b: nat, k: nat)
    requires Shape(g, s) && a < g.n && b < g.n && k < |g.script|
  {
    a in Sources(g.n, g.script[k], b) && Got(s, b, a, k) ==> Sent(s, a, b, k)
  }

  ghost predicate BufInv(g: Group, s: State, p: nat)
    requires Shape(g, s) && p < g.n
  {
    BufOk(g, s, s.parties[p], p)
  }

  /** What a buffer holds in the middle of an operation. */
  ghost predicate BufOk(g: Group, s: State, x: Party, p: nat)
  {
    !x.phase.Outside? && 0 < x.started <= |g.script| ==>
      var k := x.started - 1;
      match g.script[k]
      case Sync => true
      case Gather(_) =>
        && |x.buf| == g.n && p < g.n && x.buf[p] == Contribution(s, k, p)
        && forall a, j :: a in x.arrived && a < g.n && a <= j <= GT.Last(g.n, a) ==> x.buf[j] == Contribution(s, k, j)
      case Bcast(_, len) =>
        && |x.buf| == len
        && (p == 0 || x.arrived != {} ==> x.buf == RootBuf(s, k))
  }

  ghost predicate ResultInv(g: Group, s: State, p: nat, k: nat)
    requires Shape(g, s) && p < g.n && k < |g.script|
  {
    ResultOk(g, s, s.parties[p], p, k)
  }

  /** What finished operations have left behind. */
  ghost predicate ResultOk(g: Group, s: State, x: Party, p: nat, k: nat)
    requires k < |g.script|
  {
    && (k < |x.ends| ==> EndOk(g, s, x.ends[k], p, k))
    && (k < |x.begins| ==> FitsOp(g.n, g.script[k], x.begins[k]))
    && (0 < k < |x.begins| && Keeps(g.script[k]) && k - 1 < |x.ends| ==> x.begins[k] == x.ends[k - 1])
    && (x.phase.Outside? && k + 1 == |x.ends| ==> x.buf == x.ends[k])
  }

  /** The buffer that operation k leaves at p: every participant's block at the
      root of a gather, the root's buffer after a broadcast. */
  ghost predicate EndOk(g: Group, s: State, buf: Buf, p: nat, k: nat)
    requires k < |g.script|
  {
    && (g.script[k].Gather? && p == 0 ==>
          |buf| == g.n && forall j :: 0 <= j < g.n ==> buf[j] == Contribution(s, k, j))
    && (g.script[k].Bcast? ==> buf == RootBuf(s, k))
  }

  ghost predicate Inv(g: Group, s: State)
  {
    && Shape(g, s)
    && B.Inv(XorTree(g.n), s.bar)
    && s.lost == multiset{}
    && (forall p :: 0 <= p < g.n ==> PartyInv(g, s, p))
    && (forall p :: 0 <= p < g.n ==> BufInv(g, s, p))
    && (forall m :: m in s.wire || m in s.queue ==> MsgInv(g, s, m))
    && (forall a, b, k :: 0 <= a < g.n && 0 <= b < g.n && 0 <= k < |g.script| ==> FlowInv(g, s, a, b, k))
    && (forall p, k :: 0 <= p < g.n && 0 <= k < |g.script| ==> ResultInv(g, s, p, k))
  }
}
