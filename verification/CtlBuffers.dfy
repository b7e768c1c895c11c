/** The two message buffers of a control portal. Messages arrive in the buffer at
    the front of the portal's list of memory descriptors while the server scans,
    flips and re-inserts the buffers; arrivals interleave with every step of it. */
module CtlBuffers {

  /** A message slot and its flag. */
  datatype Slot = NoMsg | Unprocessed(m: int) | Processed(m: int)

  /** One buffer: its slots, where the next scan starts, and how many slots its
      memory descriptor has filled. */
  datatype InBuf = InBuf(id: bool, slots: seq<Slot>, nextread: nat, fill: nat)

  /** Where `processCtlPtlEvents` is: about to test a slot's flag, about to take the
      message in it, about to clear buffer 1, about to re-insert it. */
  datatype Pc = Idle | Test(second: bool, i: nat) | Take(second: bool, i: nat) | Zero(flips: nat) | Insert(flips: nat) | Broken

  /** mds are the descriptors before the sentinel, by buffer. The rest records the
      run: every message that found a slot, the arrivals since the last returned call
      finished scanning, those since the scan of buffer 2 last ended, and how many
      were accepted when the last call began. */
  datatype State = State(buf1: InBuf, buf2: InBuf, mds: seq<bool>, pc: Pc, received: seq<int>,
                         accepted: seq<int>, since: nat, tail: nat, before: nat)

  datatype Event = Arrive(m: int) | Call | Step

  function Clear(n: nat): (r: seq<Slot>)
    ensures |r| == n
  {
    seq(n, _ => NoMsg)
  }

  function Init(n: nat): State
  {
    State(InBuf(false, Clear(n), 0, 0), InBuf(true, Clear(n), 0, 0), [false, true], Idle, [], [], 0, 0, 0)
  }

  // ---- the steps

  function Put(b: InBuf, m: int): InBuf
  {
    if b.fill < |b.slots| then b.(slots := b.slots[b.fill := Unprocessed(m)], fill := b.fill + 1) else b
  }

  /** A message goes to the first descriptor, which is unlinked when it is full; with
      none left the sentinel swallows it. */
  function Receive(n: nat, s: State, m: int): State
  {
    var s' := s.(since := s.since + 1, tail := s.tail + 1);
    if s.mds == [] then s'
    else
      var first := s.mds[0] == s.buf1.id;
      var b := Put(if first then s.buf1 else s.buf2, m);
      var mds := if b.fill >= n then s.mds[1..] else s.mds;
      if first then s'.(buf1 := b, mds := mds, accepted := s.accepted + [m])
      else s'.(buf2 := b, mds := mds, accepted := s.accepted + [m])
  }

  function Begin(n: nat, s: State): State
  {
    s.(pc := if s.buf1.nextread >= n then Broken else Test(false, s.buf1.nextread), before := |s.accepted|)
  }

  function EndScan(n: nat, s: State, second: bool, i: nat): State
  {
    if second then s.(buf2 := s.buf2.(nextread := i), pc := Zero(if i == n then 2 else 1), tail := 0)
    else if i < n then s.(buf1 := s.buf1.(nextread := i), pc := Idle, since := 0)
    else s.(buf1 := s.buf1.(nextread := i), pc := Test(true, 0))
  }

  function Scanned(s: State, second: bool): InBuf
  {
    if second then s.buf2 else s.buf1
  }

  function TakeMsg(n: nat, s: State, second: bool, i: nat): State
    requires i < |Scanned(s, second).slots|
  {
    var b := Scanned(s, second);
    if b.slots[i].Unprocessed? then
      var b' := b.(slots := b.slots[i := Processed(b.slots[i].m)]);
      var s' := s.(received := s.received + [b.slots[i].m]);
      var s'' := if second then s'.(buf2 := b') else s'.(buf1 := b');
      if i + 1 < n then s''.(pc := Test(second, i + 1)) else EndScan(n, s'', second, i + 1)
    else s.(pc := Broken)
  }

  /** `flipBuffers`: clear buffer 1, put it at the back, and swap the two records. */
  function ZeroFirst(n: nat, s: State, flips: nat): State
  {
    s.(buf1 := s.buf1.(slots := Clear(n), nextread := 0, fill := 0), pc := Insert(flips))
  }

  function InsertFirst(s: State, flips: nat): State
  {
    s.(mds := s.mds + [s.buf1.id], buf1 := s.buf2, buf2 := s.buf1, since := if flips == 2 then s.since else s.tail,
       pc := if flips == 2 then Zero(1) else Idle)
  }

  predicate Enabled(s: State, e: Event)
  {
    match e
    case Arrive(_) => true
    case Call => s.pc.Idle?
    case Step =>
      !s.pc.Idle? && !s.pc.Broken? && ((s.pc.Test? || s.pc.Take?) ==> s.pc.i < |Scanned(s, s.pc.second).slots|)
  }

  function Apply(n: nat, s: State, e: Event): State
    requires Enabled(s, e)
  {
    match e
    case Arrive(m) => Receive(n, s, m)
    case Call => Begin(n, s)
    case Step =>
      if s.pc.Test? then
        if Scanned(s, s.pc.second).slots[s.pc.i].NoMsg? then EndScan(n, s, s.pc.second, s.pc.i)
        else s.(pc := Take(s.pc.second, s.pc.i))
      else if s.pc.Take? then TakeMsg(n, s, s.pc.second, s.pc.i)
      else if s.pc.Zero? then ZeroFirst(n, s, s.pc.flips)
      else InsertFirst(s, s.pc.flips)
  }

  ghost predicate IsRun(n: nat, states: seq<State>, events: seq<Event>)
  {
    && |states| == |events| + 1
    && states[0] == Init(n)
    && forall i :: 0 <= i < |events| ==> Enabled(states[i], events[i]) && states[i + 1] == Apply(n, states[i], events[i])
  }

  // ---- the invariant

  function Text(s: Slot): int
  {
    if s.NoMsg? then 0 else s.m
  }

  /** The messages in slots lo to hi. */
  function Texts(slots: seq<Slot>, lo: nat, hi: nat): (r: seq<int>)
    requires lo <= hi <= |slots|
    ensures |r| == hi - lo && forall k :: 0 <= k < |r| ==> r[k] == Text(slots[lo + k])
  {
    seq(hi - lo, k requires 0 <= k < hi - lo => Text(slots[lo + k]))
  }

  ghost predicate BufOk(n: nat, b: InBuf, done: nat)
  {
    && |b.slots| == n
    && done <= b.fill <= n
    && (forall k :: 0 <= k < done ==> b.slots[k].Processed?)
    && (forall k :: done <= k < b.fill ==> b.slots[k].Unprocessed?)
    && (forall k :: b.fill <= k < n ==> b.slots[k].NoMsg?)
  }

  /** How far each buffer has been scanned. */
  function Done1(n: nat, s: State): nat
  {
    match s.pc
    case Test(second, i) => if second then n else i
    case Take(second, i) => if second then n else i
    case Idle => s.buf1.nextread
    case Zero(_) => n
    case Insert(_) => 0
    case Broken => 0
  }

  function Done2(s: State): nat
  {
    match s.pc
    case Test(second, i) => if second then i else 0
    case Take(second, i) => if second then i else 0
    case Idle => 0
    case Zero(_) => s.buf2.nextread
    case Insert(_) => s.buf2.nextread
    case Broken => 0
  }

  function Active(n: nat, b: InBuf): seq<bool>
  {
    if b.fill < n then [b.id] else []
  }

  function Room(n: nat, b: InBuf): int { n - b.fill }

  function ListedRoom(n: nat, s: State): int
  {
    (if s.pc.Insert? then 0 else Room(n, s.buf1)) + Room(n, s.buf2)
  }

  ghost predicate PcOk(n: nat, s: State)
  {
    match s.pc
    case Idle => s.buf1.nextread < n && (s.buf2.fill > 0 ==> s.buf1.fill == n) && |s.received| >= s.before
    case Test(second, i) => i < n && (!second && s.buf2.fill > 0 ==> s.buf1.fill == n)
    case Take(second, i) => i < n && (!second && s.buf2.fill > 0 ==> s.buf1.fill == n) && i < Scanned(s, second).fill
    case Zero(flips) => 1 <= flips <= 2 && (if flips == 2 then s.buf2.nextread == n else s.buf2.nextread < n && Room(n, s.buf2) + s.tail >= 1) && |s.received| >= s.before
    case Insert(flips) => s.buf1.nextread == 0 == s.buf1.fill && 1 <= flips <= 2 && (if flips == 2 then s.buf2.nextread == n else s.buf2.nextread < n && Room(n, s.buf2) + s.tail >= 1) && |s.received| >= s.before
    case Broken => false
  }

  ghost predicate Inv(n: nat, s: State)
  {
    && n > 0
    && s.buf1.id != s.buf2.id
    && BufOk(n, s.buf1, Done1(n, s))
    && BufOk(n, s.buf2, Done2(s))
    && s.mds == (if s.pc.Insert? then [] else Active(n, s.buf1)) + Active(n, s.buf2)
    && PcOk(n, s)
    && s.accepted == s.received + Texts(s.buf1.slots, Done1(n, s), s.buf1.fill) + Texts(s.buf2.slots, Done2(s), s.buf2.fill)
    && ListedRoom(n, s) + s.since > n
    && s.before <= |s.accepted|
  }

  // ---- it is kept

  lemma {:induction false} PutOk(n: nat, b: InBuf, done: nat, m: int)
    requires BufOk(n, b, done) && b.fill < n
    ensures BufOk(n, Put(b, m), done)
    ensures Texts(Put(b, m).slots, done, b.fill + 1) == Texts(b.slots, done, b.fill) + [m]
  {
    var t := Texts(Put(b, m).slots, done, b.fill + 1);
    assert t == Texts(b.slots, done, b.fill) + [m];
  }

  lemma {:induction false} ReceiveFirst(n: nat, s: State, m: int)
    requires Inv(n, s) && s.mds != [] && s.mds[0] == s.buf1.id
    ensures Inv(n, Receive(n, s, m))
  {
    var t1, t2 := Texts(s.buf1.slots, Done1(n, s), s.buf1.fill), Texts(s.buf2.slots, Done2(s), s.buf2.fill);
    PutOk(n, s.buf1, Done1(n, s), m);
    assert s.buf2.fill == 0 && t2 == [];
    var s' := Receive(n, s, m);
    assert Done1(n, s') == Done1(n, s) && Done2(s') == Done2(s);
    assert s.received + (t1 + [m]) + t2 == s.received + t1 + t2 + [m];
  }

  lemma {:induction false} ReceiveSecond(n: nat, s: State, m: int)
    requires Inv(n, s) && s.mds != [] && s.mds[0] == s.buf2.id
    ensures Inv(n, Receive(n, s, m))
  {
    var t1, t2 := Texts(s.buf1.slots, Done1(n, s), s.buf1.fill), Texts(s.buf2.slots, Done2(s), s.buf2.fill);
    PutOk(n, s.buf2, Done2(s), m);
    var s' := Receive(n, s, m);
    assert Done1(n, s') == Done1(n, s) && Done2(s') == Done2(s);
    assert s.received + t1 + (t2 + [m]) == s.received + t1 + t2 + [m];
  }

  lemma {:induction false} TakeOk(n: nat, b: InBuf, i: nat)
    requires BufOk(n, b, i) && i < b.fill
    ensures var m := b.slots[i].m;
            var b' := b.(slots := b.slots[i := Processed(m)]);
            BufOk(n, b', i + 1) && Texts(b.slots, i, b.fill) == [m] + Texts(b'.slots, i + 1, b.fill)
  {
    var m := b.slots[i].m;
    var t, t' := Texts(b.slots, i, b.fill), Texts(b.slots[i := Processed(m)], i + 1, b.fill);
    assert forall k :: 0 < k < |t| ==> t[k] == t'[k - 1];
    assert t == [m] + t';
  }

  lemma {:induction false} TakeFirst(n: nat, s: State)
    requires Inv(n, s) && s.pc.Take? && !s.pc.second
    ensures Inv(n, TakeMsg(n, s, false, s.pc.i))
  {
    var i, m := s.pc.i, s.buf1.slots[s.pc.i].m;
    TakeOk(n, s.buf1, i);
    var b1 := s.buf1.(slots := s.buf1.slots[i := Processed(m)]);
    var t1, t2 := Texts(b1.slots, i + 1, s.buf1.fill), Texts(s.buf2.slots, 0, s.buf2.fill);
    assert s.received + ([m] + t1) + t2 == s.received + [m] + t1 + t2;
    if i + 1 < n {
      assert TakeMsg(n, s, false, i) == s.(received := s.received + [m], buf1 := b1, pc := Test(false, i + 1));
    } else {
      assert TakeMsg(n, s, false, i) == s.(received := s.received + [m], buf1 := b1.(nextread := n), pc := Test(true, 0));
    }
  }

  lemma {:induction false} TakeSecond(n: nat, s: State)
    requires Inv(n, s) && s.pc.Take? && s.pc.second
    ensures Inv(n, TakeMsg(n, s, true, s.pc.i))
  {
    var i, m := s.pc.i, s.buf2.slots[s.pc.i].m;
    TakeOk(n, s.buf2, i);
    var t1, t2 := Texts(s.buf1.slots, n, n), Texts(s.buf2.slots[i := Processed(m)], i + 1, s.buf2.fill);
    assert t1 == [];
    assert s.received + t1 + ([m] + t2) == s.received + [m] + t1 + t2;
  }

  /** A scan that finds an empty slot has seen everything accepted so far. */
  lemma {:induction false} TestInv(n: nat, s: State)
    requires Inv(n, s) && s.pc.Test?
    ensures Inv(n, Apply(n, s, Step))
    ensures Scanned(s, s.pc.second).slots[s.pc.i].NoMsg? ==> s.received == s.accepted
  {
  }

  lemma {:induction false} FlipInv(n: nat, s: State)
    requires Inv(n, s) && (s.pc.Zero? || s.pc.Insert?)
    ensures Inv(n, Apply(n, s, Step))
  {
  }

  lemma {:induction false} InvStep(n: nat, s: State, e: Event)
    requires Inv(n, s) && Enabled(s, e)
    ensures Inv(n, Apply(n, s, e))
  {
    if e.Arrive? {
      if s.mds != [] {
        if s.mds[0] == s.buf1.id { ReceiveFirst(n, s, e.m); } else { ReceiveSecond(n, s, e.m); }
      }
    } else if e.Call? {
    } else if s.pc.Test? {
      TestInv(n, s);
    } else if s.pc.Take? {
      if s.pc.second { TakeSecond(n, s); } else { TakeFirst(n, s); }
    } else {
      FlipInv(n, s);
    }
  }

  lemma {:induction false} InvHolds(n: nat, states: seq<State>, events: seq<Event>, i: nat)
    requires n > 0 && IsRun(n, states, events) && i <= |events|
    ensures Inv(n, states[i])
    decreases i
  {
    if i > 0 {
      InvHolds(n, states, events, i - 1);
      InvStep(n, states[i - 1], events[i - 1]);
    }
  }

  // ---- what it means

  function Arrivals(events: seq<Event>): seq<int>
    decreases |events|
  {
    if events == [] then []
    else
      var e := events[|events| - 1];
      Arrivals(events[..|events| - 1]) + (if e.Arrive? then [e.m] else [])
  }

  /** The two buffers are one queue: what was received, followed by what still waits
      in buffer 1 and then in buffer 2, is what was accepted, in order; the error
      returns of the scan are never taken. */
  lemma {:induction false} OneQueue(n: nat, states: seq<State>, events: seq<Event>)
    requires n > 0 && IsRun(n, states, events)
    ensures var s := states[|events|];
            && !s.pc.Broken?
            && Done1(n, s) <= s.buf1.fill <= |s.buf1.slots| && Done2(s) <= s.buf2.fill <= |s.buf2.slots|
            && s.accepted == s.received + Texts(s.buf1.slots, Done1(n, s), s.buf1.fill)
                                        + Texts(s.buf2.slots, Done2(s), s.buf2.fill)
  {
    InvHolds(n, states, events, |events|);
  }

  /** The call that began at event c has returned by state i. */
  ghost predicate Returned(states: seq<State>, events: seq<Event>, c: nat, i: nat)
    requires |states| == |events| + 1 && i <= |events|
  {
    c < i && events[c].Call? && exists r :: c < r <= i && states[r].pc.Idle?
  }

  /** The arrivals from event c up to event i. */
  function Between(events: seq<Event>, c: nat, i: nat): nat
    requires c <= i <= |events|
  {
    |Arrivals(events[c..i])|
  }

  lemma {:induction false} BetweenStep(events: seq<Event>, c: nat, i: nat)
    requires c <= i < |events|
    ensures Between(events, c, i + 1) == Between(events, c, i) + (if events[i].Arrive? then 1 else 0)
  {
    assert events[c..i + 1][..i - c] == events[c..i];
  }

  predicate Flipping(s: State)
  {
    s.pc.Zero? || s.pc.Insert?
  }

  lemma {:induction false} CountersStep(n: nat, s: State, e: Event)
    requires Enabled(s, e)
    ensures var s', w := Apply(n, s, e), if e.Arrive? then 1 else 0;
            && s'.tail <= s.tail + w
            && (Flipping(s') ==> s'.tail == 0 || Flipping(s))
            && (s'.since <= s.since + w || (s.pc.Insert? && s'.since <= s.tail))
            && (s'.pc.Idle? && !s.pc.Idle? ==> s'.since == 0 || (s.pc.Insert? && s'.since <= s.tail))
  {
  }

  /** The counter is at most the number of arrivals since any call began that has
      returned by now. */
  lemma {:induction false} SinceCall(n: nat, states: seq<State>, events: seq<Event>, c: nat, i: nat)
    requires IsRun(n, states, events) && c < i <= |events| && events[c].Call?
    ensures Flipping(states[i]) ==> states[i].tail <= Between(events, c, i)
    ensures Returned(states, events, c, i) ==> states[i].since <= Between(events, c, i)
    decreases i
  {
    assert states[i] == Apply(n, states[i - 1], events[i - 1]);
    if i > c + 1 {
      SinceCall(n, states, events, c, i - 1);
      CountersStep(n, states[i - 1], events[i - 1]);
      BetweenStep(events, c, i - 1);
      if Returned(states, events, c, i) && states[i - 1].pc.Idle? {
        assert Returned(states, events, c, i - 1);
      }
    }
  }

  lemma {:induction false} SinceStart(n: nat, states: seq<State>, events: seq<Event>, i: nat)
    requires IsRun(n, states, events) && i <= |events|
    ensures states[i].since <= Between(events, 0, i) && states[i].tail <= Between(events, 0, i)
    decreases i
  {
    if i > 0 {
      SinceStart(n, states, events, i - 1);
      CountersStep(n, states[i - 1], events[i - 1]);
      BetweenStep(events, 0, i - 1);
      assert states[i] == Apply(n, states[i - 1], events[i - 1]);
    }
  }

  /** At most bound messages came before event k since the start of the run, or since
      some call began that has returned by then. */
  ghost predicate FewSince(bound: nat, states: seq<State>, events: seq<Event>, k: nat)
    requires |states| == |events| + 1 && k <= |events|
  {
    exists c :: 0 <= c <= k && (c == 0 || Returned(states, events, c, k)) && Between(events, c, k) <= bound
  }

  /** A message is accepted when at most n messages came before it since the beginning
      of the last call that has returned. */
  lemma {:induction false} ArrivalFits(n: nat, states: seq<State>, events: seq<Event>, k: nat)
    requires n > 0 && IsRun(n, states, events) && k < |events| && events[k].Arrive?
    requires FewSince(n, states, events, k)
    ensures states[k + 1].accepted == states[k].accepted + [events[k].m]
  {
    var c :| 0 <= c <= k && (c == 0 || Returned(states, events, c, k)) && Between(events, c, k) <= n;
    if c == 0 { SinceStart(n, states, events, k); } else { SinceCall(n, states, events, c, k); }
    InvHolds(n, states, events, k);
    assert states[k + 1] == Apply(n, states[k], events[k]);
    assert states[k].mds != [];
  }

  /** Nothing is dropped in a run whose every message has that much room. */
  lemma {:induction false} NothingDropped(n: nat, states: seq<State>, events: seq<Event>, i: nat)
    requires n > 0 && IsRun(n, states, events) && i <= |events|
    requires forall k :: 0 <= k < i && events[k].Arrive? ==> FewSince(n, states, events, k)
    ensures states[i].accepted == Arrivals(events[..i])
    decreases i
  {
    if i > 0 {
      NothingDropped(n, states, events, i - 1);
      assert events[..i][..i - 1] == events[..i - 1];
      assert states[i] == Apply(n, states[i - 1], events[i - 1]);
      if events[i - 1].Arrive? { ArrivalFits(n, states, events, i - 1); }
    }
  }

  lemma {:induction false} Fifo(n: nat, states: seq<State>, events: seq<Event>)
    requires n > 0 && IsRun(n, states, events)
    requires forall k :: 0 <= k < |events| && events[k].Arrive? ==> FewSince(n, states, events, k)
    ensures states[|events|].received <= Arrivals(events)
    ensures var s := states[|events|];
            s.buf1.fill == Done1(n, s) && s.buf2.fill == Done2(s) ==> s.received == Arrivals(events)
  {
    NothingDropped(n, states, events, |events|);
    InvHolds(n, states, events, |events|);
    assert events[..|events|] == events;
  }

  lemma {:induction false} GrowsStep(n: nat, s: State, e: Event)
    requires Enabled(s, e) && s.before <= |s.accepted|
    ensures s.accepted <= Apply(n, s, e).accepted && s.before <= Apply(n, s, e).before
  {
  }

  lemma {:induction false} BeforeBound(n: nat, states: seq<State>, events: seq<Event>, i: nat)
    requires n > 0 && IsRun(n, states, events) && i <= |events|
    ensures states[i].before <= |states[i].accepted|
  {
    InvHolds(n, states, events, i);
  }

  lemma {:induction false} Grows(n: nat, states: seq<State>, events: seq<Event>, c: nat, r: nat)
    requires n > 0 && IsRun(n, states, events) && c <= r <= |events|
    ensures states[c].accepted <= states[r].accepted
    ensures c < r && events[c].Call? ==> states[r].before >= |states[c].accepted|
    decreases r - c
  {
    if c < r {
      Grows(n, states, events, c, r - 1);
      BeforeBound(n, states, events, r - 1);
      GrowsStep(n, states[r - 1], events[r - 1]);
      assert states[r] == Apply(n, states[r - 1], events[r - 1]);
    }
  }

  /** A call that has returned has received every message accepted before it began. */
  lemma {:induction false} CallDelivers(n: nat, states: seq<State>, events: seq<Event>, c: nat, r: nat)
    requires n > 0 && IsRun(n, states, events) && c < r <= |events|
    requires events[c].Call? && states[r].pc.Idle?
    ensures states[c].accepted <= states[r].received
  {
    Grows(n, states, events, c, r);
    InvHolds(n, states, events, r);
  }

  /** An arrival is dropped exactly when every slot of every listed buffer is taken. */
  lemma {:induction false} DroppedWhenFull(n: nat, states: seq<State>, events: seq<Event>, i: nat)
    requires n > 0 && IsRun(n, states, events) && i < |events| && events[i].Arrive?
    ensures states[i + 1].accepted == states[i].accepted <==> ListedRoom(n, states[i]) == 0
  {
    InvHolds(n, states, events, i);
    assert states[i + 1] == Apply(n, states[i], events[i]);
  }
}
