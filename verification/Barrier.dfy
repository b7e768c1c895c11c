/** Repeated barriers over one list of participants, for an arbitrary rooted
    tree: every participant collects a token from each of its children, sends
    one to its parent, waits for the parent's token and passes one to each
    child. Tokens carry no round number; the `round` of a token is bookkeeping
    that no transition looks at. */
module Barrier {

  /** parent[c] for every participant c > 0; participant 0 is the root. Members
      are numbered so that parents come before their children. */
  type Tree = seq<nat>

  predicate ValidTree(t: Tree)
  {
    |t| >= 1 && forall c :: 1 <= c < |t| ==> t[c] < c
  }

  function Children(t: Tree, p: nat): set<nat>
  {
    set c | 1 <= c < |t| && t[c] == p
  }

  datatype Token = Token(src: nat, dst: nat, round: nat)

  /** Where a participant is inside (or outside) its current barrier call. */
  datatype Pc =
    | Idle                    // between barriers
    | FanIn(got: set<nat>)    // collecting the children's tokens
    | AwaitDown               // own token sent, waiting for the parent's
    | FanOut(left: set<nat>)  // children still to be released

  /** `entered` counts barrier calls; `saved` is the list of unexpected events;
      a participant that timed out is no longer live. */
  datatype Member = Member(entered: nat, pc: Pc, live: bool, saved: seq<Token>)

  datatype State = State(members: seq<Member>, net: multiset<Token>)

  /** What a participant does with a token it is not waiting for. */
  datatype Policy = Save | Abort

  datatype Event =
    | Enter(p: nat)
    | Take(p: nat, tok: Token)
    | SendUp(p: nat)
    | SendDown(p: nat, c: nat)
    | Return(p: nat)
    | Stop(p: nat, dropped: multiset<Token>)

  // ---- the transition system

  ghost predicate Init(t: Tree, s: State)
  {
    && |s.members| == |t|
    && (forall p :: 0 <= p < |t| ==> s.members[p] == Member(0, Idle, true, []))
    && s.net == multiset{}
  }

  predicate Awaiting(t: Tree, m: Member, p: nat)
  {
    m.pc.AwaitDown? || (m.pc.FanIn? && m.pc.got != Children(t, p))
  }

  predicate Expected(t: Tree, m: Member, p: nat, src: nat)
  {
    match m.pc
    case FanIn(got) => src in Children(t, p) && src !in got
    case AwaitDown => p < |t| && src == t[p]
    case _ => false
  }

  function Actor(e: Event): nat { e.p }

  predicate Enabled(t: Tree, s: State, e: Event)
  {
    && |s.members| == |t|
    && Actor(e) < |t|
    && var m := s.members[Actor(e)];
    && m.live
    && match e {
         case Enter(p) => m.pc.Idle?
         case Take(p, tok) => Awaiting(t, m, p) && tok in s.net && tok.dst == p
         case SendUp(p) => m.pc == FanIn(Children(t, p))
         case SendDown(p, c) => m.pc.FanOut? && c in m.pc.left
         case Return(p) => m.pc == FanOut({})
         case Stop(p, dropped) => dropped <= s.net && forall tok :: tok in dropped ==> tok.dst == p
       }
  }

  function Apply(t: Tree, policy: Policy, s: State, e: Event): State
    requires Enabled(t, s, e)
  {
    var p := Actor(e);
    var m := s.members[p];
    match e {
      case Enter(_) =>
        s.(members := s.members[p := m.(entered := m.entered + 1, pc := FanIn({}))])
      case Take(_, tok) =>
        var m' :=
          if Expected(t, m, p, tok.src) then
            m.(pc := if m.pc.FanIn? then FanIn(m.pc.got + {tok.src}) else FanOut(Children(t, p)))
          else if policy.Save? then m.(saved := m.saved + [tok])
          else m.(live := false);
        State(s.members[p := m'], s.net - multiset{tok})
      case SendUp(_) =>
        if p == 0 then s.(members := s.members[p := m.(pc := FanOut(Children(t, p)))])
        else State(s.members[p := m.(pc := AwaitDown)],
                   s.net + multiset{Token(p, t[p], m.entered)})
      case SendDown(_, c) =>
        State(s.members[p := m.(pc := FanOut(m.pc.left - {c}))],
              s.net + multiset{Token(p, c, m.entered)})
      case Return(_) =>
        s.(members := s.members[p := m.(pc := Idle)])
      case Stop(_, dropped) =>
        State(s.members[p := m.(live := false)], s.net - dropped)
    }
  }

  /** A run: any interleaving of enabled events from the initial state. */
  ghost predicate IsRun(t: Tree, policy: Policy, ss: seq<State>, es: seq<Event>)
  {
    && |ss| == |es| + 1
    && Init(t, ss[0])
    && forall i :: 0 <= i < |es| ==> Enabled(t, ss[i], es[i]) && ss[i + 1] == Apply(t, policy, ss[i], es[i])
  }

  // ---- counters along the edge from c to its parent

  /** Barriers p has returned from. */
  function Returned(s: State, p: nat): int
    requires p < |s.members|
  {
    var m := s.members[p];
    if m.pc.Idle? then m.entered else m.entered - 1
  }

  /** Tokens c has sent to its parent. */
  function UpSent(s: State, c: nat): int
    requires c < |s.members|
  {
    var m := s.members[c];
    if m.pc.FanIn? then m.entered - 1 else m.entered
  }

  /** Tokens from c that its parent p has consumed. */
  function UpTaken(s: State, p: nat, c: nat): int
    requires p < |s.members|
  {
    var m := s.members[p];
    if m.pc.FanIn? && c !in m.pc.got then m.entered - 1 else m.entered
  }

  /** Tokens p has sent to its child c. */
  function DownSent(s: State, p: nat, c: nat): int
    requires p < |s.members|
  {
    var m := s.members[p];
    if m.pc.Idle? || (m.pc.FanOut? && c !in m.pc.left) then m.entered else m.entered - 1
  }

  /** Tokens from its parent that c has consumed (at the root: rounds turned). */
  function DownTaken(s: State, c: nat): int
    requires c < |s.members|
  {
    var m := s.members[c];
    if m.pc.Idle? || m.pc.FanOut? then m.entered else m.entered - 1
  }

  // ---- the invariant

  ghost predicate LocalInv(t: Tree, s: State, p: nat)
    requires p < |t| == |s.members|
  {
    var m := s.members[p];
    && m.saved == []
    && (!m.pc.Idle? ==> m.entered >= 1)
    && (m.pc.FanIn? ==> m.pc.got <= Children(t, p))
    && (m.pc.FanOut? ==> m.pc.left <= Children(t, p))
    && (m.pc.AwaitDown? ==> p > 0)
  }

  /** On every edge the four counters form a cycle with total slack one. */
  ghost predicate EdgeInv(t: Tree, s: State, c: nat)
    requires ValidTree(t) && 1 <= c < |t| == |s.members|
  {
    DownTaken(s, c) <= DownSent(s, t[c], c) <= UpTaken(s, t[c], c) <= UpSent(s, c) <= DownTaken(s, c) + 1
  }

  ghost predicate TokenInv(t: Tree, s: State, tok: Token)
    requires ValidTree(t) && |t| == |s.members|
  {
    && tok.src < |t| && tok.dst < |t|
    && s.net[tok] <= 1
    && ( || (1 <= tok.src && t[tok.src] == tok.dst
             && tok.round == UpSent(s, tok.src) == UpTaken(s, tok.dst, tok.src) + 1)
         || (1 <= tok.dst && t[tok.dst] == tok.src
             && tok.round == DownSent(s, tok.src, tok.dst) == DownTaken(s, tok.dst) + 1))
  }

  ghost predicate Inv(t: Tree, s: State)
  {
    && ValidTree(t) && |s.members| == |t|
    && (forall p :: 0 <= p < |t| ==> LocalInv(t, s, p))
    && (forall c :: 1 <= c < |t| ==> EdgeInv(t, s, c))
    && (forall tok :: tok in s.net ==> TokenInv(t, s, tok))
  }

  lemma {:induction false} InvHolds(t: Tree, policy: Policy, ss: seq<State>, es: seq<Event>, i: nat)
    requires ValidTree(t) && IsRun(t, policy, ss, es) && i < |ss|
    ensures Inv(t, ss[i])
  {
    if i > 0 {
      InvHolds(t, policy, ss, es, i - 1);
      InvStep(t, policy, ss[i - 1], es[i - 1]);
    }
  }

  lemma {:induction false} InvStep(t: Tree, policy: Policy, s: State, e: Event)
    requires Inv(t, s) && Enabled(t, s, e)
    ensures Inv(t, Apply(t, policy, s, e))
  {
    var s' := Apply(t, policy, s, e);
    forall p | 0 <= p < |t| ensures LocalInv(t, s', p) { StepLocal(t, policy, s, e, p); }
    forall c | 1 <= c < |t| ensures EdgeInv(t, s', c) { StepEdge(t, policy, s, e, c); }
    forall tok | tok in s'.net ensures TokenInv(t, s', tok) { StepToken(t, policy, s, e, tok); }
  }

  lemma {:induction false} StepLocal(t: Tree, policy: Policy, s: State, e: Event, p: nat)
    requires Inv(t, s) && Enabled(t, s, e) && p < |t|
    ensures LocalInv(t, Apply(t, policy, s, e), p)
  {
    assert LocalInv(t, s, p);
    if e.Take? { AllExpected(t, s, e.p, e.tok); }
  }

  lemma {:induction false} StepEdge(t: Tree, policy: Policy, s: State, e: Event, c: nat)
    requires Inv(t, s) && Enabled(t, s, e) && 1 <= c < |t|
    ensures EdgeInv(t, Apply(t, policy, s, e), c)
  {
    assert EdgeInv(t, s, c) && LocalInv(t, s, c) && LocalInv(t, s, t[c]);
    if e.Take? { TakeEdge(t, policy, s, e, c); } else { OtherEdge(t, policy, s, e, c); }
  }

  lemma {:induction false} OtherEdge(t: Tree, policy: Policy, s: State, e: Event, c: nat)
    requires ValidTree(t) && Enabled(t, s, e) && !e.Take? && 1 <= c < |t|
    requires EdgeInv(t, s, c) && LocalInv(t, s, c) && LocalInv(t, s, t[c])
    ensures EdgeInv(t, Apply(t, policy, s, e), c)
  {
    OnlyActor(t, policy, s, e);
    if e.SendUp? || e.SendDown? { SendEdge(t, policy, s, e, c); }
  }

  lemma {:induction false} SendEdge(t: Tree, policy: Policy, s: State, e: Event, c: nat)
    requires ValidTree(t) && Enabled(t, s, e) && (e.SendUp? || e.SendDown?) && 1 <= c < |t|
    requires EdgeInv(t, s, c) && LocalInv(t, s, c) && LocalInv(t, s, t[c])
    ensures EdgeInv(t, Apply(t, policy, s, e), c)
  {
  }

  lemma {:induction false} TakeEdge(t: Tree, policy: Policy, s: State, e: Event, c: nat)
    requires Inv(t, s) && Enabled(t, s, e) && e.Take? && 1 <= c < |t|
    ensures EdgeInv(t, Apply(t, policy, s, e), c)
  {
    AllExpected(t, s, e.p, e.tok);
    assert TokenInv(t, s, e.tok) && EdgeInv(t, s, c) && LocalInv(t, s, c);
  }

  lemma {:induction false} StepToken(t: Tree, policy: Policy, s: State, e: Event, tok: Token)
    requires Inv(t, s) && Enabled(t, s, e) && tok in Apply(t, policy, s, e).net
    ensures TokenInv(t, Apply(t, policy, s, e), tok)
  {
    if e.Take? { TakeToken(t, policy, s, e, tok); }
    else if e.SendUp? || e.SendDown? { SentToken(t, policy, s, e, tok); }
    else {
      assert TokenInv(t, s, tok);
      if tok.src >= 1 { assert EdgeInv(t, s, tok.src); }
      if tok.dst >= 1 { assert EdgeInv(t, s, tok.dst); }
      OtherToken(t, policy, s, e, tok);
    }
  }

  lemma {:induction false} OtherToken(t: Tree, policy: Policy, s: State, e: Event, tok: Token)
    requires ValidTree(t) && Enabled(t, s, e) && (e.Enter? || e.Return? || e.Stop?) && tok in s.net && TokenInv(t, s, tok)
    requires (tok.src >= 1 ==> EdgeInv(t, s, tok.src)) && (tok.dst >= 1 ==> EdgeInv(t, s, tok.dst))
    ensures TokenInv(t, Apply(t, policy, s, e), tok)
  {
  }

  lemma {:induction false} TakeToken(t: Tree, policy: Policy, s: State, e: Event, tok: Token)
    requires Inv(t, s) && Enabled(t, s, e) && e.Take? && tok in Apply(t, policy, s, e).net
    ensures TokenInv(t, Apply(t, policy, s, e), tok)
  {
    AllExpected(t, s, e.p, e.tok);
    assert TokenInv(t, s, tok) && TokenInv(t, s, e.tok);
    if tok.src >= 1 { assert EdgeInv(t, s, tok.src); }
    if tok.dst >= 1 { assert EdgeInv(t, s, tok.dst); }
  }

  lemma {:induction false} SentToken(t: Tree, policy: Policy, s: State, e: Event, tok: Token)
    requires Inv(t, s) && Enabled(t, s, e) && (e.SendUp? || e.SendDown?)
    requires tok in Apply(t, policy, s, e).net
    ensures TokenInv(t, Apply(t, policy, s, e), tok)
  {
    assert LocalInv(t, s, e.p);
    if e.p >= 1 { assert EdgeInv(t, s, e.p); }
    if e.SendDown? { assert EdgeInv(t, s, e.c); }
    if tok in s.net {
      assert TokenInv(t, s, tok);
      if tok.src >= 1 { assert EdgeInv(t, s, tok.src); }
      if tok.dst >= 1 { assert EdgeInv(t, s, tok.dst); }
    }
    if e.SendUp? { SentUp(t, policy, s, e, tok); } else { SentDown(t, policy, s, e, tok); }
  }

  lemma {:induction false} SentUp(t: Tree, policy: Policy, s: State, e: Event, tok: Token)
    requires ValidTree(t) && Enabled(t, s, e) && e.SendUp? && LocalInv(t, s, e.p) && (e.p >= 1 ==> EdgeInv(t, s, e.p))
    requires tok in Apply(t, policy, s, e).net
    requires tok in s.net ==> TokenInv(t, s, tok) && (tok.src >= 1 ==> EdgeInv(t, s, tok.src)) && (tok.dst >= 1 ==> EdgeInv(t, s, tok.dst))
    ensures TokenInv(t, Apply(t, policy, s, e), tok)
  {
  }

  lemma {:induction false} SentDown(t: Tree, policy: Policy, s: State, e: Event, tok: Token)
    requires ValidTree(t) && Enabled(t, s, e) && e.SendDown? && LocalInv(t, s, e.p) && e.c in Children(t, e.p) && EdgeInv(t, s, e.c)
    requires tok in Apply(t, policy, s, e).net
    requires tok in s.net ==> TokenInv(t, s, tok) && (tok.src >= 1 ==> EdgeInv(t, s, tok.src)) && (tok.dst >= 1 ==> EdgeInv(t, s, tok.dst))
    ensures TokenInv(t, Apply(t, policy, s, e), tok)
  {
  }

  /** No event is unexpected: a token that an awaiting participant finds is one
      it is waiting for, and belongs to the participant's own round. */
  lemma {:induction false} AllExpected(t: Tree, s: State, p: nat, tok: Token)
    requires Inv(t, s) && p < |t| && tok in s.net && tok.dst == p
    requires Awaiting(t, s.members[p], p)
    ensures Expected(t, s.members[p], p, tok.src)
    ensures tok.round == s.members[p].entered
  {
    assert TokenInv(t, s, tok);
    if 1 <= tok.src && t[tok.src] == p { assert EdgeInv(t, s, tok.src); }
    if 1 <= p { assert EdgeInv(t, s, p); }
  }

  // ---- safety over whole runs

  /** A participant released in round k: so were all its ancestors, and the root
      turned in round k. */
  lemma {:induction false} ReleasedByRoot(t: Tree, s: State, p: nat)
    requires Inv(t, s) && p < |t|
    ensures DownTaken(s, p) <= DownTaken(s, 0)
  {
    if p > 0 {
      assert EdgeInv(t, s, p);
      ReleasedByRoot(t, s, t[p]);
    }
  }

  /** The root turns in round k only when every participant has entered it. */
  lemma {:induction false} RootHeardAll(t: Tree, s: State, q: nat)
    requires Inv(t, s) && q < |t|
    ensures DownTaken(s, 0) <= s.members[q].entered
    ensures q > 0 ==> DownTaken(s, 0) <= UpSent(s, q)
  {
    if q > 0 {
      assert EdgeInv(t, s, q);
      RootHeardAll(t, s, t[q]);
      assert LocalInv(t, s, t[q]);
    }
  }

  /** Barrier safety: whoever has returned from its k-th barrier, every
      participant (stopped ones included) has entered its k-th barrier. */
  lemma {:induction false} BarrierSafety(t: Tree, policy: Policy, ss: seq<State>, es: seq<Event>, i: nat, p: nat, q: nat)
    requires ValidTree(t) && IsRun(t, policy, ss, es) && i < |ss|
    requires p < |t| && q < |t|
    ensures |ss[i].members| == |t|
    ensures Returned(ss[i], p) <= ss[i].members[q].entered
  {
    InvHolds(t, policy, ss, es, i);
    ReleasedByRoot(t, ss[i], p);
    RootHeardAll(t, ss[i], q);
  }

  /** Tokens under way to p, in the network or in its event queue. */
  ghost function Pending(s: State, p: nat): set<Token>
  {
    set tok | tok in s.net && tok.dst == p
  }

  lemma {:induction false} DistinctSources(pend: set<Token>, srcs: set<nat>)
    requires forall a, b :: a in pend && b in pend && a.src == b.src ==> a == b
    requires forall a :: a in pend ==> a.src in srcs
    ensures |pend| <= |srcs|
  {
    if pend != {} {
      var a :| a in pend;
      DistinctSources(pend - {a}, srcs - {a.src});
    }
  }

  /** No round confusion: in every state of every run each directed edge holds
      at most one token, the list of saved events is empty, and no more tokens
      are under way to a participant than it has tree neighbours. */
  lemma {:induction false} NoRoundConfusion(t: Tree, policy: Policy, ss: seq<State>, es: seq<Event>, i: nat)
    requires ValidTree(t) && IsRun(t, policy, ss, es) && i < |ss|
    ensures |ss[i].members| == |t|
    ensures forall p :: 0 <= p < |t| ==> ss[i].members[p].saved == []
    ensures forall a, b :: a in ss[i].net && b in ss[i].net && a.src == b.src && a.dst == b.dst
              ==> a == b && ss[i].net[a] == 1
    ensures forall p :: 0 <= p < |t| ==> |Pending(ss[i], p)| <= |Children(t, p)| + (if p == 0 then 0 else 1)
  {
    var s := ss[i];
    InvHolds(t, policy, ss, es, i);
    forall p | 0 <= p < |t|
      ensures s.members[p].saved == []
      ensures |Pending(s, p)| <= |Children(t, p)| + (if p == 0 then 0 else 1)
    {
      assert LocalInv(t, s, p);
      var srcs := if p == 0 then Children(t, p) else Children(t, p) + {t[p]};
      forall a | a in Pending(s, p) ensures a.src in srcs { assert TokenInv(t, s, a); }
      forall a, b | a in Pending(s, p) && b in Pending(s, p) && a.src == b.src ensures a == b {
        assert TokenInv(t, s, a) && TokenInv(t, s, b);
      }
      DistinctSources(Pending(s, p), srcs);
    }
    forall a, b | a in s.net && b in s.net && a.src == b.src && a.dst == b.dst
      ensures a == b && s.net[a] == 1
    {
      assert TokenInv(t, s, a) && TokenInv(t, s, b);
    }
  }

  /** Every token that any run consumes is expected and of the consumer's round. */
  lemma {:induction false} ConsumedInRound(t: Tree, policy: Policy, ss: seq<State>, es: seq<Event>, i: nat)
    requires ValidTree(t) && IsRun(t, policy, ss, es) && i < |es| && es[i].Take?
    ensures Expected(t, ss[i].members[es[i].p], es[i].p, es[i].tok.src)
    ensures es[i].tok.round == ss[i].members[es[i].p].entered
  {
    InvHolds(t, policy, ss, es, i);
    AllExpected(t, ss[i], es[i].p, es[i].tok);
  }

  // ---- deadlock freedom

  ghost predicate AllLive(s: State)
  {
    forall p :: 0 <= p < |s.members| ==> s.members[p].live
  }

  /** While nobody has stopped, no token is ever lost. */
  ghost predicate TokensPresent(t: Tree, s: State)
    requires ValidTree(t) && |t| == |s.members|
  {
    forall c :: 1 <= c < |t| ==> EdgeTokens(t, s, c)
  }

  ghost predicate EdgeTokens(t: Tree, s: State, c: nat)
    requires ValidTree(t) && 1 <= c < |t| == |s.members|
  {
    var up, down := UpSent(s, c), DownSent(s, t[c], c);
    && (up == UpTaken(s, t[c], c) + 1 ==> up >= 0 && Token(c, t[c], up) in s.net)
    && (down == DownTaken(s, c) + 1 ==> down >= 0 && Token(t[c], c, down) in s.net)
  }

  lemma {:induction false} TokensPresentStep(t: Tree, policy: Policy, s: State, e: Event, c: nat)
    requires Inv(t, s) && Enabled(t, s, e) && !e.Stop? && TokensPresent(t, s) && 1 <= c < |t|
    ensures EdgeTokens(t, Apply(t, policy, s, e), c)
  {
    assert EdgeTokens(t, s, c) && EdgeInv(t, s, c) && LocalInv(t, s, c) && LocalInv(t, s, t[c]);
    if e.Take? { TakeTokensPresent(t, policy, s, e, c); } else { OtherTokensPresent(t, policy, s, e, c); }
  }

  lemma {:induction false} OtherTokensPresent(t: Tree, policy: Policy, s: State, e: Event, c: nat)
    requires ValidTree(t) && Enabled(t, s, e) && !e.Take? && !e.Stop? && 1 <= c < |t|
    requires EdgeTokens(t, s, c) && EdgeInv(t, s, c) && LocalInv(t, s, c) && LocalInv(t, s, t[c])
    ensures EdgeTokens(t, Apply(t, policy, s, e), c)
  {
  }

  lemma {:induction false} LiveBefore(t: Tree, policy: Policy, s: State, e: Event)
    requires Enabled(t, s, e) && AllLive(Apply(t, policy, s, e))
    ensures AllLive(s) && !e.Stop?
  {
    var s' := Apply(t, policy, s, e);
    assert s'.members[e.p].live;
    forall p | 0 <= p < |s.members| ensures s.members[p].live { assert s'.members[p].live; }
  }

  lemma {:induction false} TakeTokensPresent(t: Tree, policy: Policy, s: State, e: Event, c: nat)
    requires Inv(t, s) && Enabled(t, s, e) && e.Take? && TokensPresent(t, s) && 1 <= c < |t|
    ensures EdgeTokens(t, Apply(t, policy, s, e), c)
  {
    AllExpected(t, s, e.p, e.tok);
    assert TokenInv(t, s, e.tok) && EdgeTokens(t, s, c) && EdgeInv(t, s, c) && LocalInv(t, s, c);
  }

  lemma {:induction false} TokensPresentHolds(t: Tree, policy: Policy, ss: seq<State>, es: seq<Event>, i: nat)
    requires ValidTree(t) && IsRun(t, policy, ss, es) && i < |ss| && AllLive(ss[i])
    ensures Inv(t, ss[i]) && TokensPresent(t, ss[i])
  {
    InvHolds(t, policy, ss, es, i);
    if i > 0 {
      var s, e := ss[i - 1], es[i - 1];
      InvHolds(t, policy, ss, es, i - 1);
      LiveBefore(t, policy, s, e);
      TokensPresentHolds(t, policy, ss, es, i - 1);
      forall c | 1 <= c < |t| ensures EdgeTokens(t, ss[i], c) { TokensPresentStep(t, policy, s, e, c); }
    }
  }

  /** Steps of barrier calls under way: everything but entering and stopping. */
  predicate Progress(e: Event)
  {
    !e.Enter? && !e.Stop?
  }

  /** All participants have entered their round-th barrier and none a later one. */
  ghost predicate AllEntered(s: State, round: nat)
  {
    forall p :: 0 <= p < |s.members| ==> s.members[p].entered == round
  }

  ghost predicate AllReturned(s: State)
  {
    forall p :: 0 <= p < |s.members| ==> s.members[p].pc.Idle?
  }

  /** Deadlock freedom: if everybody entered the barrier and nobody stopped, some
      participant can move until all have returned. */
  lemma {:induction false} NeverStuck(t: Tree, s: State, round: nat) returns (e: Event)
    requires Inv(t, s) && TokensPresent(t, s) && AllLive(s) && AllEntered(s, round)
    requires !AllReturned(s)
    ensures Enabled(t, s, e) && Progress(e)
  {
    if p :| 0 <= p < |t| && s.members[p].pc.FanOut? {
      var left := s.members[p].pc.left;
      if c :| c in left { e := SendDown(p, c); } else { e := Return(p); }
    } else if p :| 0 <= p < |t| && s.members[p].pc.FanIn? {
      e := FanInCanMove(t, s, round, p);
    } else {
      var p :| 0 <= p < |t| && !s.members[p].pc.Idle?;
      e := AwaitCanMove(t, s, round, p);
    }
  }

  /** Some participant at or below a collecting one can move. */
  lemma {:induction false} FanInCanMove(t: Tree, s: State, round: nat, p: nat) returns (e: Event)
    requires Inv(t, s) && TokensPresent(t, s) && AllLive(s) && AllEntered(s, round)
    requires p < |t| && s.members[p].pc.FanIn?
    ensures Enabled(t, s, e) && Progress(e)
    decreases |t| - p
  {
    var m := s.members[p];
    assert LocalInv(t, s, p);
    if m.pc.got == Children(t, p) {
      e := SendUp(p);
    } else {
      var c :| c in Children(t, p) && c !in m.pc.got;
      if s.members[c].pc.FanIn? {
        e := FanInCanMove(t, s, round, c);
      } else {
        assert EdgeTokens(t, s, c);
        e := Take(p, Token(c, p, round));
      }
    }
  }

  /** With nobody collecting or releasing, some participant at or above a waiting
      one can take its release token. */
  lemma {:induction false} AwaitCanMove(t: Tree, s: State, round: nat, p: nat) returns (e: Event)
    requires Inv(t, s) && TokensPresent(t, s) && AllLive(s) && AllEntered(s, round)
    requires forall q :: 0 <= q < |t| ==> s.members[q].pc.Idle? || s.members[q].pc.AwaitDown?
    requires p < |t| && s.members[p].pc.AwaitDown?
    ensures Enabled(t, s, e) && Progress(e)
    decreases p
  {
    assert LocalInv(t, s, p);
    if s.members[t[p]].pc.Idle? {
      assert EdgeTokens(t, s, p);
      e := Take(p, Token(t[p], p, round));
    } else {
      e := AwaitCanMove(t, s, round, t[p]);
    }
  }

  /** Steps a participant still has to take in its current barrier. */
  ghost function StepsLeft(t: Tree, m: Member, p: nat): nat
  {
    var kids := Children(t, p);
    match m.pc
    case Idle => 0
    case FanIn(got) => |kids - got| + 1 + (if p == 0 then 0 else 1) + |kids| + 1
    case AwaitDown => 1 + |kids| + 1
    case FanOut(left) => |left| + 1
  }

  ghost function Work(t: Tree, ms: seq<Member>): nat
  {
    if ms == [] then 0
    else Work(t, ms[..|ms| - 1]) + StepsLeft(t, ms[|ms| - 1], |ms| - 1)
  }

  lemma {:induction false} WorkUpdate(t: Tree, ms: seq<Member>, p: nat, m: Member)
    requires p < |ms|
    ensures Work(t, ms[p := m]) == Work(t, ms) - StepsLeft(t, ms[p], p) + StepsLeft(t, m, p)
  {
    var k := |ms| - 1;
    if p < k {
      WorkUpdate(t, ms[..k], p, m);
      assert ms[p := m][..k] == ms[..k][p := m];
    } else {
      assert ms[p := m][..k] == ms[..k];
    }
  }

  lemma {:induction false} NoWork(t: Tree, ms: seq<Member>)
    ensures Work(t, ms) == 0 <==> forall p :: 0 <= p < |ms| ==> ms[p].pc.Idle?
  {
    if ms != [] {
      var k := |ms| - 1;
      NoWork(t, ms[..k]);
      assert forall p :: 0 <= p < k ==> ms[..k][p] == ms[p];
    }
  }

  /** A participant's own step uses up one of the steps it has left. */
  lemma {:induction false} OneStepLess(t: Tree, policy: Policy, s: State, e: Event)
    requires Enabled(t, s, e) && Progress(e) && LocalInv(t, s, e.p)
    requires e.Take? ==> Expected(t, s.members[e.p], e.p, e.tok.src)
    ensures StepsLeft(t, Apply(t, policy, s, e).members[e.p], e.p) == StepsLeft(t, s.members[e.p], e.p) - 1
  {
    var p := e.p;
    var m, kids := s.members[p], Children(t, p);
    if e.Take? {
      if m.pc.FanIn? { assert kids - (m.pc.got + {e.tok.src}) == (kids - m.pc.got) - {e.tok.src}; }
    } else if e.SendUp? {
      assert kids - m.pc.got == {};
    }
  }

  /** Every step of a barrier under way uses up exactly one unit of work. */
  lemma {:induction false} WorkStep(t: Tree, policy: Policy, s: State, e: Event)
    requires Inv(t, s) && Enabled(t, s, e) && Progress(e)
    ensures Work(t, Apply(t, policy, s, e).members) == Work(t, s.members) - 1
  {
    assert LocalInv(t, s, e.p);
    if e.Take? { AllExpected(t, s, e.p, e.tok); }
    OneStepLess(t, policy, s, e);
    OnlyActor(t, policy, s, e);
    WorkUpdate(t, s.members, e.p, Apply(t, policy, s, e).members[e.p]);
  }

  lemma {:induction false} OnlyActor(t: Tree, policy: Policy, s: State, e: Event)
    requires Enabled(t, s, e)
    ensures var s' := Apply(t, policy, s, e);
            |s'.members| == |s.members| && s'.members == s.members[e.p := s'.members[e.p]]
  {
  }

  lemma {:induction false} ProgressKeeps(t: Tree, policy: Policy, s: State, e: Event, round: nat)
    requires Enabled(t, s, e) && Progress(e) && AllLive(s) && AllEntered(s, round)
    requires e.Take? ==> Expected(t, s.members[e.p], e.p, e.tok.src)
    ensures AllLive(Apply(t, policy, s, e)) && AllEntered(Apply(t, policy, s, e), round)
  {
    OnlyActor(t, policy, s, e);
    var m, m' := s.members[e.p], Apply(t, policy, s, e).members[e.p];
    assert m'.live && m'.entered == m.entered;
  }

  /** Continuing a run by progress steps only. */
  ghost predicate Continues(t: Tree, policy: Policy, ss: seq<State>, es: seq<Event>)
  {
    && |ss| == |es| + 1
    && forall i :: 0 <= i < |es| ==>
         Enabled(t, ss[i], es[i]) && Progress(es[i]) && ss[i + 1] == Apply(t, policy, ss[i], es[i])
  }

  /** Termination: from a reachable state in which everybody has entered the
      round and nobody stopped, every schedule of the participants' steps is
      exactly as long as the work at the start, whatever the interleaving; while
      work is left some step is enabled, and at the end all have returned. */
  lemma {:induction false} BarrierCompletes(t: Tree, policy: Policy, ss: seq<State>, es: seq<Event>,
                                            round: nat, cs: seq<State>, ds: seq<Event>)
    requires ValidTree(t) && IsRun(t, policy, ss, es)
    requires Continues(t, policy, cs, ds) && cs[0] == ss[|es|]
    requires AllLive(cs[0]) && AllEntered(cs[0], round)
    ensures |ds| + Work(t, cs[|ds|].members) == Work(t, cs[0].members)
    ensures |ds| < Work(t, cs[0].members) ==> exists e :: Enabled(t, cs[|ds|], e) && Progress(e)
    ensures |ds| == Work(t, cs[0].members) ==> AllReturned(cs[|ds|])
  {
    TokensPresentHolds(t, policy, ss, es, |es|);
    ContinueInv(t, policy, cs, ds, round, |ds|);
    NoWork(t, cs[|ds|].members);
    if !AllReturned(cs[|ds|]) {
      var e := NeverStuck(t, cs[|ds|], round);
    }
  }

  lemma {:induction false} ContinueInv(t: Tree, policy: Policy, cs: seq<State>, ds: seq<Event>, round: nat, i: nat)
    requires Continues(t, policy, cs, ds) && i <= |ds|
    requires Inv(t, cs[0]) && TokensPresent(t, cs[0]) && AllLive(cs[0]) && AllEntered(cs[0], round)
    ensures Inv(t, cs[i]) && TokensPresent(t, cs[i]) && AllLive(cs[i]) && AllEntered(cs[i], round)
    ensures i + Work(t, cs[i].members) == Work(t, cs[0].members)
  {
    if i > 0 {
      var s, e := cs[i - 1], ds[i - 1];
      ContinueInv(t, policy, cs, ds, round, i - 1);
      InvStep(t, policy, s, e);
      forall c | 1 <= c < |t| ensures EdgeTokens(t, cs[i], c) { TokensPresentStep(t, policy, s, e, c); }
      if e.Take? { AllExpected(t, s, e.p, e.tok); }
      ProgressKeeps(t, policy, s, e, round);
      WorkStep(t, policy, s, e);
    }
  }
}
