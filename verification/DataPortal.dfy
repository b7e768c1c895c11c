/** The data portal: a growing table of buffer slots, the shared event queue, and the
    byte counts that say when the replies to a get request have all come in. */
module DataPortal {

  const MAX_MES := 4096
  const EVENTQUEUE_LENGTH := 4096

  /** A slot's memory descriptor: none, one remote processes read (libsrvr put), or
      one they write (libsrvr get). */
  datatype Kind = None | Read | Write

  datatype Event = Event(slot: nat, mlength: nat)

  /** One reply: where it was written and how many bytes. */
  datatype Reply = Reply(offset: nat, len: nat)

  // ---- bytes and counts

  function Sum(r: seq<Reply>): (n: nat)
    decreases |r|
  {
    if r == [] then 0 else Sum(r[..|r| - 1]) + r[|r| - 1].len
  }

  predicate Hits(p: Reply, x: nat)
  {
    p.offset <= x < p.offset + p.len
  }

  ghost function Bytes(p: Reply): (s: set<nat>)
  {
    set x: nat | x < p.offset + p.len && Hits(p, x)
  }

  ghost function Covered(r: seq<Reply>): (s: set<nat>)
    decreases |r|
  {
    if r == [] then {} else Covered(r[..|r| - 1]) + Bytes(r[|r| - 1])
  }

  ghost predicate Disjoint(r: seq<Reply>)
  {
    forall i, j :: 0 <= i < j < |r| ==> Bytes(r[i]) !! Bytes(r[j])
  }

  ghost predicate Within(r: seq<Reply>, length: nat)
  {
    forall i :: 0 <= i < |r| ==> r[i].offset + r[i].len <= length
  }

  ghost function AllBytes(n: nat): (s: set<nat>)
  {
    Bytes(Reply(0, n))
  }

  lemma {:induction false} BytesSize(p: Reply)
    ensures |Bytes(p)| == p.len
    decreases p.len
  {
    if p.len == 0 {
      assert Bytes(p) == {};
    } else {
      var q := Reply(p.offset, p.len - 1);
      BytesSize(q);
      assert Bytes(p) == Bytes(q) + {p.offset + q.len};
    }
  }

  lemma {:induction false} CoveredHas(r: seq<Reply>, x: nat)
    ensures x in Covered(r) <==> exists i :: 0 <= i < |r| && x in Bytes(r[i])
    decreases |r|
  {
    if r != [] {
      var k := |r| - 1;
      CoveredHas(r[..k], x);
      assert forall i :: 0 <= i < k ==> r[..k][i] == r[i];
      if i :| 0 <= i < |r| && x in Bytes(r[i]) {
        if i < k { assert x in Bytes(r[..k][i]); }
      }
      if x in Covered(r) {
        if x in Covered(r[..k]) {
          var i :| 0 <= i < |r[..k]| && x in Bytes(r[..k][i]);
          assert x in Bytes(r[i]);
        } else {
          assert x in Bytes(r[k]);
        }
      }
    }
  }

  lemma {:induction false} SizeOfUnion(a: set<nat>, b: set<nat>)
    ensures |a + b| <= |a| + |b|
    ensures |a + b| == |a| + |b| <==> a !! b
  {
    assert a + b == a + (b - a);
    assert |a + (b - a)| == |a| + |b - a|;
    assert b == (b - a) + (b * a);
    assert |b| == |b - a| + |b * a|;
    assert a !! b <==> b * a == {};
  }

  /** The byte count of a list of replies is the number of bytes they cover exactly
      when no two of them overlap. */
  lemma {:induction false} SumIsCovered(r: seq<Reply>)
    ensures |Covered(r)| <= Sum(r)
    ensures |Covered(r)| == Sum(r) <==> Disjoint(r)
    decreases |r|
  {
    if r != [] {
      var k := |r| - 1;
      SumIsCovered(r[..k]);
      BytesSize(r[k]);
      SizeOfUnion(Covered(r[..k]), Bytes(r[k]));
      if Disjoint(r) { DisjointFirst(r, k); }
      if Disjoint(r[..k]) && Covered(r[..k]) !! Bytes(r[k]) { DisjointMore(r, k); }
    }
  }

  lemma {:induction false} DisjointFirst(r: seq<Reply>, k: nat)
    requires k < |r| && Disjoint(r)
    ensures Disjoint(r[..k]) && Covered(r[..k]) !! Bytes(r[k])
  {
    var t := r[..k];
    forall i, j | 0 <= i < j < |t| ensures Bytes(t[i]) !! Bytes(t[j]) { assert t[i] == r[i] && t[j] == r[j]; }
    forall x | x in Covered(t) ensures x !in Bytes(r[k]) {
      CoveredHas(t, x);
      var i :| 0 <= i < |t| && x in Bytes(t[i]);
      assert t[i] == r[i] && Bytes(r[i]) !! Bytes(r[k]);
    }
  }

  lemma {:induction false} DisjointMore(r: seq<Reply>, k: nat)
    requires |r| == k + 1 && Disjoint(r[..k]) && Covered(r[..k]) !! Bytes(r[k])
    ensures Disjoint(r)
  {
    var t := r[..k];
    forall i, j | 0 <= i < j < |r| ensures Bytes(r[i]) !! Bytes(r[j]) {
      assert t[i] == r[i];
      if j < k {
        assert t[j] == r[j];
      } else {
        forall x | x in Bytes(r[i]) ensures x !in Bytes(r[k]) { CoveredHas(t, x); }
      }
    }
  }

  /** Replies that stay inside the request and do not overlap never count more than
      was asked for, and count all of it exactly when every byte was written. */
  lemma {:induction false} CountIsExact(r: seq<Reply>, length: nat)
    requires Within(r, length) && Disjoint(r)
    ensures Sum(r) <= length
    ensures Sum(r) == length <==> Covered(r) == AllBytes(length)
  {
    SumIsCovered(r);
    BytesSize(Reply(0, length));
    forall x | x in Covered(r) ensures x in AllBytes(length) { CoveredHas(r, x); }
    SubsetSize(Covered(r), AllBytes(length));
  }

  lemma {:induction false} SubsetSize(a: set<nat>, b: set<nat>)
    requires a <= b
    ensures |a| <= |b| && (|a| == |b| <==> a == b)
  {
    assert b == a + (b - a);
    assert |b| == |a| + |b - a|;
  }

  /** Without the condition the count is wrong: the same byte twice. */
  lemma {:induction false} OverlapMiscounts()
    ensures var r := [Reply(0, 1), Reply(0, 1)];
            Within(r, 2) && Sum(r) == 2 && Covered(r) != AllBytes(2)
  {
    var r := [Reply(0, 1), Reply(0, 1)];
    assert r[..1] == [Reply(0, 1)] && r[..1][..0] == [];
    CoveredHas(r, 1);
    assert 1 in AllBytes(2);
  }

  // ---- the slot table

  datatype Slot = Slot(kind: Kind, length: nat, count: int)

  /** What happened to a slot since its buffer was added: the replies written to it,
      the bytes of older events still queued then, and those of dropped events. */
  datatype History = History(replies: seq<Reply>, stale: nat, lost: nat)

  const FREE := Slot(None, 0, 0)

  function Live(slots: seq<Slot>): (n: nat)
    ensures n <= |slots|
    ensures n == |slots| <==> forall i :: 0 <= i < |slots| ==> slots[i].kind != None
    decreases |slots|
  {
    if slots == [] then 0
    else
      var k := |slots| - 1;
      assert forall i :: 0 <= i < k ==> slots[..k][i] == slots[i];
      Live(slots[..k]) + (if slots[k].kind != None then 1 else 0)
  }

  lemma {:induction false} LiveUpdate(slots: seq<Slot>, i: nat, s: Slot)
    requires i < |slots|
    ensures Live(slots[i := s]) == Live(slots) - (if slots[i].kind != None then 1 else 0) + (if s.kind != None then 1 else 0)
    decreases |slots|
  {
    var k := |slots| - 1;
    if i < k {
      assert slots[i := s][..k] == slots[..k][i := s];
      LiveUpdate(slots[..k], i, s);
    } else {
      assert slots[i := s][..k] == slots[..k];
    }
  }

  lemma {:induction false} LiveGrow(slots: seq<Slot>, n: nat)
    ensures Live(slots + seq(n, _ => FREE)) == Live(slots)
    decreases n
  {
    var t := slots + seq(n, _ => FREE);
    if n > 0 {
      assert t[..|t| - 1] == slots + seq(n - 1, _ => FREE);
      LiveGrow(slots, n - 1);
    } else {
      assert t == slots;
    }
  }

  /** The bytes reported by the queued events of slot s. */
  function Queued(queue: seq<Event>, s: nat): (n: nat)
    decreases |queue|
  {
    if queue == [] then 0 else (if queue[0].slot == s then queue[0].mlength else 0) + Queued(queue[1..], s)
  }

  /** The queued events of slot s. */
  function Accesses(queue: seq<Event>, s: nat): (n: nat)
    decreases |queue|
  {
    if queue == [] then 0 else (if queue[0].slot == s then 1 else 0) + Accesses(queue[1..], s)
  }

  /** A slot with its queued events counted: the accesses to a buffer that is read, the
      bytes of one that is written, nothing for a free slot. */
  function Counted(t: Slot, queue: seq<Event>, s: nat): Slot
  {
    t.(count := t.count + (if t.kind == Read then Accesses(queue, s) else if t.kind == Write then Queued(queue, s) else 0))
  }

  /** Counting the first event, and then the others. */
  lemma {:induction false} CountFirst(slots: seq<Slot>, queue: seq<Event>, n: int)
    requires queue != [] && queue[0].slot < |slots|
    requires var s := slots[queue[0].slot];
             n == if s.kind == Read then s.count + 1 else if s.kind == Write then s.count + queue[0].mlength else s.count
    ensures var slots' := slots[queue[0].slot := slots[queue[0].slot].(count := n)];
            forall s :: 0 <= s < |slots| ==> Counted(slots'[s], queue[1..], s) == Counted(slots[s], queue, s)
  {
  }

  lemma {:induction false} CountedBalance(slots: seq<Slot>, history: seq<History>, queue: seq<Event>, n: int)
    requires queue != [] && queue[0].slot < |slots| == |history|
    requires var s := slots[queue[0].slot];
             n == if s.kind == Read then s.count + 1 else if s.kind == Write then s.count + queue[0].mlength else s.count
    requires forall s :: 0 <= s < |slots| ==> Balanced(slots[s], history[s], Queued(queue, s))
    requires forall i :: 0 <= i < |queue| ==> queue[i].slot < |slots|
    ensures var slots' := slots[queue[0].slot := slots[queue[0].slot].(count := n)];
            && (forall s :: 0 <= s < |slots| ==> Balanced(slots'[s], history[s], Queued(queue[1..], s)))
            && (forall i :: 0 <= i < |queue[1..]| ==> queue[1..][i].slot < |slots|)
            && Live(slots') == Live(slots)
  {
    var e := queue[0];
    LiveUpdate(slots, e.slot, slots[e.slot].(count := n));
    assert forall i :: 0 <= i < |queue[1..]| ==> queue[1..][i] == queue[i + 1];
    forall s | 0 <= s < |slots| ensures Balanced(slots[e.slot := slots[e.slot].(count := n)][s], history[s], Queued(queue[1..], s)) {
      assert Balanced(slots[s], history[s], Queued(queue, s));
    }
  }

  lemma {:induction false} QueuedAppend(queue: seq<Event>, e: Event, s: nat)
    ensures Queued(queue + [e], s) == Queued(queue, s) + (if e.slot == s then e.mlength else 0)
    decreases |queue|
  {
    if queue != [] {
      assert (queue + [e])[1..] == queue[1..] + [e];
      QueuedAppend(queue[1..], e, s);
    } else {
      assert queue + [e] == [e];
    }
  }

  lemma {:induction false} QueuedNone(queue: seq<Event>, s: nat)
    requires forall i :: 0 <= i < |queue| ==> queue[i].slot < s
    ensures Queued(queue, s) == 0
    decreases |queue|
  {
    if queue != [] { QueuedNone(queue[1..], s); }
  }

  /** Bytes counted, queued or dropped are bytes replied plus stale ones. */
  ghost predicate Balanced(s: Slot, h: History, queued: nat)
  {
    s.kind == Write ==> s.count + queued + h.lost == Sum(h.replies) + h.stale && Within(h.replies, s.length)
  }

  /** Once every byte has come in and the queue is empty, the count equals the length
      exactly when no event of the slot's previous buffer was queued at the start. */
  lemma {:induction false} CompleteIffFresh(s: Slot, h: History)
    requires s.kind == Write && Balanced(s, h, 0) && Disjoint(h.replies) && h.lost == 0
    requires Covered(h.replies) == AllBytes(s.length)
    ensures s.count == s.length <==> h.stale == 0
  {
    CountIsExact(h.replies, s.length);
  }

  /** `do_get_reply`: of a reply exactly the bytes inside the request are sent; it is
      refused when there are none. */
  method CutReply(reqLen: int, len: int, offset: int) returns (n: int)
    ensures n == -1 || (1 <= n <= len && offset + n <= reqLen)
    ensures n == -1 <==> len < 1 || offset >= reqLen
    ensures len >= 1 && offset + len <= reqLen ==> n == len
    ensures n != -1 && n < len ==> offset + n == reqLen
    ensures offset >= 0 && len >= 0 && reqLen >= 0 ==>
              Bytes(Reply(offset, if n == -1 then 0 else n)) == Bytes(Reply(offset, len)) * AllBytes(reqLen)
  {
    n := len;
    if offset + len > reqLen { n := reqLen - offset; }
    if n < 1 { n := -1; }
  }

  class Portal {
    var slots: seq<Slot>
    var inuse: int
    var queue: seq<Event>
    ghost var history: seq<History>

    ghost predicate Valid()
      reads this
    {
      && |history| == |slots| <= MAX_MES
      && inuse == Live(slots)
      && |queue| <= EVENTQUEUE_LENGTH
      && (forall i :: 0 <= i < |queue| ==> queue[i].slot < |slots|)
      && forall s :: 0 <= s < |slots| ==> Balanced(slots[s], history[s], Queued(queue, s))
    }

    constructor ()
      ensures Valid() && slots == [] && queue == []
    {
      slots, inuse, queue, history := [], 0, [], [];
    }

    /** `srvr_grow_data_ptl`. */
    method Grow(to: int) returns (ok: bool)
      requires Valid()
      modifies this`slots, this`history
      ensures Valid() && (ok <==> to <= old(|slots|) || to <= MAX_MES)
      ensures if ok && to > old(|slots|) then slots == old(slots) + seq(to - old(|slots|), _ => FREE)
                                         else slots == old(slots)
      ensures history[..old(|history|)] == old(history)
    {
      var n := to - |slots|;
      if n <= 0 { return true; }
      if to > MAX_MES { return false; }
      LiveGrow(slots, n);
      slots := slots + seq(n, _ => FREE);
      history := history + seq(n, _ => History([], 0, 0));
      ok := true;
    }

    /** The search for a free slot. */
    method FindFree() returns (slot: int)
      ensures slot == -1 <==> forall i :: 0 <= i < |slots| ==> slots[i].kind != None
      ensures slot != -1 ==> 0 <= slot < |slots| && slots[slot].kind == None && forall i :: 0 <= i < slot ==> slots[i].kind != None
    {
      slot := -1;
      for i := 0 to |slots|
        invariant slot == -1 && forall k :: 0 <= k < i ==> slots[k].kind != None
      {
        if slots[i].kind == None { return i; }
      }
    }

    /** `srvr_add_data_buf`: a free slot is found or made, unless the table is full
        and may not grow. */
    method Add(len: int, kind: Kind) returns (slot: int)
      requires Valid()
      modifies this
      ensures Valid() && queue == old(queue)
      ensures slot == -1 <==> len <= 0 || kind == None || (old(inuse) == old(|slots|) && old(|slots|) + 10 > MAX_MES)
      ensures slot == -1 ==> slots == old(slots) && inuse == old(inuse)
      ensures slot != -1 ==>
        && 0 <= slot < |slots| && inuse == old(inuse) + 1
        && (if old(inuse) == old(|slots|) then slot == old(|slots|) + 9
            else slot < old(|slots|) && old(slots)[slot].kind == None && forall i :: 0 <= i < slot ==> old(slots)[i].kind != None)
        && |slots| == old(|slots|) + (if old(inuse) == old(|slots|) then 10 else 0)
        && (forall s :: old(|slots|) <= s < |slots| && s != slot ==> slots[s] == FREE)
        && (slot >= old(|slots|) ==> history[slot].stale == 0)
        && slots[slot] == Slot(kind, len, 0)
        && history[slot] == History([], Queued(queue, slot), 0)
        && forall s :: 0 <= s < old(|slots|) && s != slot ==> slots[s] == old(slots)[s] && history[s] == old(history)[s]
    {
      slot := -1;
      if len <= 0 || kind == None { return; }
      if |slots| - inuse == 0 {
        var ok := Grow(|slots| + 10);
        if !ok { return; }
        slot := |slots| - 1;
        QueuedNone(queue, slot);
      } else {
        slot := FindFree();
      }
      if slot < 0 { return -1; }
      Attach(slot, len, kind);
    }

    method Attach(slot: nat, len: nat, kind: Kind)
      requires Valid() && slot < |slots| && slots[slot].kind == None && kind != None
      modifies this`slots, this`inuse, this`history
      ensures Valid() && inuse == old(inuse) + 1
      ensures slots == old(slots)[slot := Slot(kind, len, 0)]
      ensures history == old(history)[slot := History([], Queued(queue, slot), 0)]
    {
      LiveUpdate(slots, slot, Slot(kind, len, 0));
      slots := slots[slot := Slot(kind, len, 0)];
      history := history[slot := History([], Queued(queue, slot), 0)];
      inuse := inuse + 1;
    }

    /** `srvr_delete_buf`. */
    method Delete(slot: int) returns (ok: bool)
      requires Valid()
      modifies this`slots, this`inuse
      ensures Valid() && (ok <==> 0 <= slot < |slots| && old(slots)[slot].kind != None)
      ensures slots == if ok then old(slots)[slot := FREE] else old(slots)
      ensures inuse == if ok then old(inuse) - 1 else old(inuse)
    {
      if slot < 0 || slot >= |slots| { return false; }
      if slots[slot].kind == None { return false; }
      LiveUpdate(slots, slot, FREE);
      slots := slots[slot := FREE];
      inuse := inuse - 1;
      ok := true;
    }

    /** A reply reaches a write buffer and, if the queue has room, posts its event. */
    method Arrive(slot: nat, r: Reply)
      requires Valid() && slot < |slots| && slots[slot].kind == Write && r.offset + r.len <= slots[slot].length
      modifies this`queue, this`history
      ensures Valid() && history[slot].replies == old(history)[slot].replies + [r] && history[slot].stale == old(history)[slot].stale
      ensures history[slot].lost == old(history)[slot].lost + if old(|queue|) < EVENTQUEUE_LENGTH then 0 else r.len
      ensures forall s :: 0 <= s < |slots| && s != slot ==> history[s] == old(history)[s]
      ensures queue == old(queue) + if old(|queue|) < EVENTQUEUE_LENGTH then [Event(slot, r.len)] else []
    {
      var e := Event(slot, r.len);
      ghost var h := history[slot];
      assert (h.replies + [r])[..|h.replies|] == h.replies;
      if |queue| < EVENTQUEUE_LENGTH {
        forall s | 0 <= s < |slots| ensures Queued(queue + [e], s) == Queued(queue, s) + (if s == slot then r.len else 0) {
          QueuedAppend(queue, e, s);
        }
        queue := queue + [e];
        history := history[slot := h.(replies := h.replies + [r])];
      } else {
        history := history[slot := h.(replies := h.replies + [r], lost := h.lost + r.len)];
      }
    }

    /** `processEventQueue`: count every queued event. */
    method Process()
      requires Valid()
      modifies this`slots, this`queue
      ensures Valid() && queue == [] && |slots| == old(|slots|)
      ensures forall s :: 0 <= s < |slots| ==> slots[s] == Counted(old(slots)[s], old(queue), s)
    {
      var hopcount := EVENTQUEUE_LENGTH + 1;
      while hopcount > 0 && queue != []
        invariant Valid() && |slots| == old(|slots|) && |queue| < hopcount
        invariant forall s :: 0 <= s < |slots| ==> Counted(slots[s], queue, s) == Counted(old(slots)[s], old(queue), s)
        decreases hopcount
      {
        hopcount := hopcount - 1;
        CountOne();
      }
    }

    method CountOne()
      requires Valid() && queue != []
      modifies this`slots, this`queue
      ensures Valid() && queue == old(queue)[1..] && |slots| == old(|slots|)
      ensures forall s :: 0 <= s < |slots| ==> Counted(slots[s], queue, s) == Counted(old(slots)[s], old(queue), s)
    {
      var e := queue[0];
      var s := slots[e.slot];
      var n := if s.kind == Read then s.count + 1 else if s.kind == Write then s.count + e.mlength else s.count;
      CountFirst(slots, queue, n);
      CountedBalance(slots, history, queue, n);
      queue := queue[1..];
      slots := slots[e.slot := s.(count := n)];
    }

    /** `srvr_test_write_buf`: with no stale and no dropped event, and replies that do
        not overlap, the answer is yes exactly when every byte was written. */
    method TestWrite(slot: int) returns (rc: int)
      requires Valid()
      modifies this`slots, this`queue
      ensures Valid() && |slots| == old(|slots|) && (rc == -1 <==> !(0 <= slot < |slots| && old(slots)[slot].kind == Write))
      ensures -1 <= rc <= 1
      ensures rc == 1 ==> slots[slot].count == slots[slot].length
      ensures rc != -1 && old(slots)[slot].count != old(slots)[slot].length ==> queue == []
      ensures forall s :: 0 <= s < |slots| ==> slots[s].kind == old(slots)[s].kind && slots[s].length == old(slots)[s].length
      ensures rc == 0 ==> Sum(history[slot].replies) + history[slot].stale != slots[slot].length + history[slot].lost
      ensures rc != -1 && Disjoint(history[slot].replies) && history[slot].stale == 0 == history[slot].lost ==>
                (rc == 1 <==> Covered(history[slot].replies) == AllBytes(slots[slot].length))
    {
      if slot < 0 || slot >= |slots| || slots[slot].kind != Write { return -1; }
      assert Balanced(slots[slot], history[slot], Queued(queue, slot));
      if Disjoint(history[slot].replies) { CountIsExact(history[slot].replies, slots[slot].length); }
      if slots[slot].count == slots[slot].length { return 1; }
      Process();
      assert Balanced(slots[slot], history[slot], Queued(queue, slot));
      if slots[slot].count == slots[slot].length { rc := 1; } else { rc := 0; }
    }
  }

  lemma {:induction false} QueuedOne(queue: seq<Event>, s: nat)
    requires |queue| == 1 && queue[0].slot == s
    ensures Queued(queue, s) == queue[0].mlength
  {
    assert queue[1..] == [];
  }

  lemma {:induction false} SumOne(r: Reply)
    ensures Sum([r]) == r.len && Covered([r]) == Bytes(r)
  {
    assert [r][..0] == [];
  }

  /** A portal of ten slots, the last in use. */
  method TenSlots() returns (p: Portal)
    ensures fresh(p) && p.Valid() && |p.slots| == 10 && p.inuse == 1 && p.slots[0] == FREE && p.queue == []
  {
    p := new Portal();
    var other := p.Add(1, Write);
  }

  /** Slot 0 gets a buffer, and a byte arrives in it. */
  method AddAndArrive(p: Portal, len: nat)
    requires p.Valid() && |p.slots| == 10 && p.inuse < 10 && p.slots[0].kind == None && len > 0 && |p.queue| < EVENTQUEUE_LENGTH
    modifies p
    ensures p.Valid() && |p.slots| == 10 && p.inuse == old(p.inuse) + 1 && p.slots[0] == Slot(Write, len, 0)
    ensures p.queue == old(p.queue) + [Event(0, 1)]
    ensures p.history[0] == History([Reply(0, 1)], Queued(old(p.queue), 0), 0)
  {
    var slot := p.Add(len, Write);
    assert slot == 0;
    p.Arrive(0, Reply(0, 1));
  }

  /** A buffer is deleted before its event is taken off the queue. */
  method LeaveEvent() returns (p: Portal)
    ensures fresh(p) && p.Valid() && |p.slots| == 10 && p.inuse == 1 && p.slots[0].kind == None && p.queue == [Event(0, 1)]
  {
    p := TenSlots();
    AddAndArrive(p, 2);
    var ok := p.Delete(0);
  }

  /** The next buffer of the slot gets its only byte, and is not seen to be complete. */
  method StaleEvent() returns (p: Portal, rc: int)
    ensures rc == 0 && p.Valid() && |p.slots| > 0 && p.slots[0].kind == Write && p.slots[0].length == 1
    ensures Disjoint(p.history[0].replies) && Covered(p.history[0].replies) == AllBytes(1)
  {
    p := LeaveEvent();
    QueuedOne(p.queue, 0);
    AddAndArrive(p, 1);
    SumOne(Reply(0, 1));
    rc := p.TestWrite(0);
    assert Balanced(p.slots[0], p.history[0], Queued(p.queue, 0));
  }
}
