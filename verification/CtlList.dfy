/** The received list of a control portal: messages in arrival order, the pointer to
    the first unread one, and the hop-counted walks over them. A pointer to an entry
    is the entry's id; -1 is the null pointer. */
module CtlList {

  const ANY_NID := -1
  const ANY_PID := 0
  const ANY_TYPE := -1

  datatype Entry = Entry(id: nat, unread: bool, nid: int, pid: int, kind: int)

  datatype Criteria = Criteria(nid: int, pid: int, kind: int)

  const ANY := Criteria(ANY_NID, ANY_PID, ANY_TYPE)

  predicate Matches(e: Entry, c: Criteria)
  {
    && e.unread
    && (c.nid == ANY_NID || c.nid == e.nid)
    && (c.pid == ANY_PID || c.pid == e.pid)
    && (c.kind == ANY_TYPE || c.kind == e.kind)
  }

  /** The first entry at or after k that is unread and matches, or the end. */
  function First(s: seq<Entry>, k: nat, c: Criteria): (r: nat)
    requires k <= |s|
    ensures k <= r <= |s|
    ensures forall i :: k <= i < r ==> !Matches(s[i], c)
    ensures r < |s| ==> Matches(s[r], c)
    decreases |s| - k
  {
    if k == |s| || Matches(s[k], c) then k else First(s, k + 1, c)
  }

  /** Following a pointer. */
  function IndexOf(s: seq<Entry>, id: int): (r: nat)
    ensures r <= |s|
    ensures forall i :: 0 <= i < r ==> s[i].id != id
    ensures r < |s| ==> s[r].id == id
    decreases |s|
  {
    if s == [] || s[0].id == id then 0 else 1 + IndexOf(s[1..], id)
  }

  /** The caller named a node, process or kind that the message is not of. */
  ghost predicate Unwanted(e: Entry, c: Criteria)
  {
    || (c.nid != ANY_NID && e.nid != c.nid)
    || (c.pid != ANY_PID && e.pid != c.pid)
    || (c.kind != ANY_TYPE && e.kind != c.kind)
  }

  /** Message m is unread and wanted, and no earlier one is. */
  ghost predicate EarliestWanted(s: seq<Entry>, c: Criteria, m: nat)
  {
    && m < |s| && s[m].unread && !Unwanted(s[m], c)
    && forall i :: 0 <= i < m && s[i].unread ==> Unwanted(s[i], c)
  }

  /** The search finds the earliest wanted message, or shows there is none. */
  lemma {:induction false} FirstIsWanted(s: seq<Entry>, c: Criteria)
    requires Ordered(s)
    ensures var m := First(s, 0, c);
            if m < |s| then EarliestWanted(s, c, m) && IndexOf(s, s[m].id) == m
            else forall i :: 0 <= i < |s| && s[i].unread ==> Unwanted(s[i], c)
  {
    var m := First(s, 0, c);
    if m < |s| { IndexUnique(s, m); }
    assert forall i :: 0 <= i < m ==> !Matches(s[i], c);
  }

  ghost predicate Ordered(s: seq<Entry>)
  {
    forall i, j :: 0 <= i < j < |s| ==> s[i].id < s[j].id
  }

  /** The pointer a walk from an unread entry stops at. */
  function Pointer(s: seq<Entry>, k: nat): (r: int)
    requires k <= |s|
  {
    if k < |s| then s[k].id else -1
  }

  /** A walk from entry k gives up: it examines 2 * max - 1 entries and finds one
      more behind them. */
  predicate HopsOut(s: seq<Entry>, k: nat, c: Criteria, max: nat)
    requires k <= |s|
  {
    |s| - k >= 2 * max && First(s, k, c) - k >= 2 * max - 1
  }

  lemma {:induction false} IndexUnique(s: seq<Entry>, k: nat)
    requires Ordered(s) && k < |s|
    ensures IndexOf(s, s[k].id) == k
  {
    var r := IndexOf(s, s[k].id);
    assert r <= k;
  }

  /** Entries that match something are unread, so a search may start at the first
      unread entry. */
  lemma {:induction false} FirstSkips(s: seq<Entry>, k: nat, f: nat, c: Criteria)
    requires k <= f <= |s| && forall i :: k <= i < f ==> !s[i].unread
    ensures First(s, k, c) == First(s, f, c)
    decreases f - k
  {
    if k < f { FirstSkips(s, k + 1, f, c); }
  }

  lemma {:induction false} FirstStays(s': seq<Entry>, s: seq<Entry>, k: nat, f: nat)
    requires |s| == |s'| && k <= f < |s| && f == First(s, k, ANY) && forall i :: k <= i <= f ==> s'[i] == s[i]
    ensures First(s', k, ANY) == f
    decreases f - k
  {
    if k < f { FirstStays(s', s, k + 1, f); }
  }

  lemma {:induction false} MarkListed(s: seq<Entry>, delivered: seq<nat>, nextId: nat, k: nat)
    requires Ordered(s) && k < |s| && s[k].unread
    requires forall i :: 0 <= i < |s| ==> s[i].id < nextId && (s[i].unread <==> s[i].id !in delivered)
    requires forall i, j :: 0 <= i < j < |delivered| ==> delivered[i] != delivered[j]
    ensures var s', d' := s[k := s[k].(unread := false)], delivered + [s[k].id];
            && Ordered(s')
            && (forall i :: 0 <= i < |s'| ==> s'[i].id < nextId && (s'[i].unread <==> s'[i].id !in d'))
            && (forall i, j :: 0 <= i < j < |d'| ==> d'[i] != d'[j])
  {
    var s', d' := s[k := s[k].(unread := false)], delivered + [s[k].id];
    forall i | 0 <= i < |s'| ensures s'[i].unread <==> s'[i].id !in d' {
      assert i != k ==> s[i].id != s[k].id;
    }
  }

  /** Marking entry k: the first unread entry moves only if it was entry k. */
  lemma {:induction false} MarkFirst(s: seq<Entry>, k: nat)
    requires Ordered(s) && k < |s| && s[k].unread
    ensures var f, s' := First(s, 0, ANY), s[k := s[k].(unread := false)];
            && f <= k
            && (s[f].id == s[k].id <==> f == k)
            && IndexOf(s', s[f].id) == f
            && First(s', 0, ANY) == if f == k then First(s', f, ANY) else f
  {
    var f, s' := First(s, 0, ANY), s[k := s[k].(unread := false)];
    assert f <= k by { assert Matches(s[k], ANY); }
    IndexUnique(s', f);
    if f == k { FirstSkips(s', 0, f, ANY); } else { FirstStays(s', s, 0, f); }
  }

  lemma {:induction false} RemoveFirst(s: seq<Entry>, p: nat)
    requires Ordered(s) && p < |s|
    ensures var f, s' := First(s, 0, ANY), s[..p] + s[p + 1..];
            && Ordered(s')
            && (p != f ==> Pointer(s', First(s', 0, ANY)) == Pointer(s, f))
            && (p == f ==> Pointer(s', First(s', 0, ANY)) != Pointer(s, f))
  {
    var f, s' := First(s, 0, ANY), s[..p] + s[p + 1..];
    var r := First(s', 0, ANY);
    assert forall i :: 0 <= i < |s'| ==> s'[i] == s[if i < p then i else i + 1];
    if p > f {
      assert s'[f] == s[f];
    } else if p < f {
      assert f < |s| ==> s'[f - 1] == s[f];
    }
  }

  lemma {:induction false} RemoveListed(s: seq<Entry>, delivered: seq<nat>, nextId: nat, p: nat)
    requires p < |s| && forall i :: 0 <= i < |s| ==> s[i].id < nextId && (s[i].unread <==> s[i].id !in delivered)
    ensures var s' := s[..p] + s[p + 1..];
            forall i :: 0 <= i < |s'| ==> s'[i].id < nextId && (s'[i].unread <==> s'[i].id !in delivered)
  {
    var s' := s[..p] + s[p + 1..];
    assert forall i :: 0 <= i < |s'| ==> s'[i] == s[if i < p then i else i + 1];
  }

  /** The first-unread pointer leads to entry p exactly when p is the first unread
      entry; walking from there stops at once. */
  lemma {:induction false} PointsAt(s: seq<Entry>, p: nat)
    requires Ordered(s) && p < |s|
    ensures var f := First(s, 0, ANY);
            && (Pointer(s, f) == s[p].id <==> p == f)
            && IndexOf(s, s[p].id) == p
            && (p == f ==> First(s, p, ANY) == p)
  {
    IndexUnique(s, p);
    var f := First(s, 0, ANY);
    if f < |s| { IndexUnique(s, f); }
  }

  /** What unlinking entry p does. */
  lemma {:induction false} Freed(s: seq<Entry>, delivered: seq<nat>, nextId: nat, p: nat)
    requires Ordered(s) && p < |s| && forall i :: 0 <= i < |s| ==> s[i].id < nextId && (s[i].unread <==> s[i].id !in delivered)
    ensures var f, s' := First(s, 0, ANY), s[..p] + s[p + 1..];
            && Ordered(s') && IndexOf(s, s[p].id) == p
            && (forall i :: 0 <= i < |s'| ==> s'[i].id < nextId && (s'[i].unread <==> s'[i].id !in delivered))
            && (Pointer(s, f) == s[p].id <==> p == f)
            && (p == f ==> First(s, p, ANY) == p && s[p].unread)
            && (Pointer(s', First(s', 0, ANY)) == Pointer(s, f) <==> p != f)
  {
    RemoveFirst(s, p);
    PointsAt(s, p);
    RemoveListed(s, delivered, nextId, p);
  }

  class CtlPtl {
    const maxMsgs: nat
    var msgs: seq<Entry>
    var firstUnread: int
    var nextId: nat            // allocation: ids are never reused
    var open: bool
    ghost var delivered: seq<nat>

    /** Entries in arrival order; a message was handed out exactly when it is marked
        read, and no message was handed out twice. */
    ghost predicate Listed()
      reads this
    {
      && maxMsgs > 0
      && Ordered(msgs)
      && (forall k :: 0 <= k < |msgs| ==> msgs[k].id < nextId && (msgs[k].unread <==> msgs[k].id !in delivered))
      && (forall k :: 0 <= k < |delivered| ==> delivered[k] < nextId)
      && (forall i, j :: 0 <= i < j < |delivered| ==> delivered[i] != delivered[j])
    }

    ghost predicate Valid()
      reads this
    {
      Listed() && firstUnread == Pointer(msgs, First(msgs, 0, ANY))
    }

    constructor (max: nat)
      requires max > 0
      ensures Valid() && msgs == [] && delivered == [] && open && maxMsgs == max
    {
      maxMsgs, msgs, firstUnread, nextId, open, delivered := max, [], -1, 0, true, [];
    }

    /** `recvCtlMsg`: append an unread message. */
    method Receive(nid: int, pid: int, kind: int)
      requires Valid()
      modifies this`msgs, this`firstUnread, this`nextId
      ensures Valid() && nextId == old(nextId) + 1
      ensures msgs == old(msgs) + [Entry(old(nextId), true, nid, pid, kind)]
    {
      var newguy := Entry(nextId, true, nid, pid, kind);
      if msgs != [] {
        if firstUnread == -1 { firstUnread := nextId; }
      } else {
        firstUnread := nextId;
      }
      ghost var old' := msgs;
      FirstAppended(msgs, newguy, 0);
      msgs := msgs + [newguy];
      nextId := nextId + 1;
      forall k | 0 <= k < |msgs| ensures msgs[k].id < nextId && (msgs[k].unread <==> msgs[k].id !in delivered) {
        if k < |old'| { assert msgs[k] == old'[k]; }
      }
    }

    /** The walk of `updateFirstUnread` and of the search for a matching message. */
    method Walk(start: nat, c: Criteria) returns (k: nat, ok: bool)
      requires start <= |msgs| && maxMsgs > 0
      ensures ok <==> !HopsOut(msgs, start, c, maxMsgs)
      ensures ok ==> k == First(msgs, start, c)
    {
      var hopcount := maxMsgs * 2;
      k := start;
      while k < |msgs|
        invariant start <= k <= |msgs| && hopcount == maxMsgs * 2 - (k - start) && hopcount > 0
        invariant First(msgs, start, c) == First(msgs, k, c)
        decreases |msgs| - k
      {
        hopcount := hopcount - 1;
        if hopcount == 0 { return k, false; }
        if Matches(msgs[k], c) { return k, true; }
        k := k + 1;
      }
      ok := true;
    }

    /** `updateFirstUnread`. */
    method UpdateFirstUnread() returns (ok: bool)
      requires maxMsgs > 0
      modifies this`firstUnread
      ensures var p := IndexOf(msgs, old(firstUnread));
              && (ok <==> !HopsOut(msgs, p, ANY, maxMsgs))
              && firstUnread == if ok then Pointer(msgs, First(msgs, p, ANY)) else -1
    {
      var next := IndexOf(msgs, firstUnread);
      firstUnread := -1;
      var k;
      k, ok := Walk(next, ANY);
      if ok && k < |msgs| { firstUnread := msgs[k].id; }
    }

    /** `srvr_get_next_control_msg`, after the buffers were scanned: hand out the
        earliest unread message that matches. */
    method GetNext(c: Criteria) returns (rc: int, id: int)
      requires Valid() && open
      modifies this
      ensures Listed()
      ensures var s, f := old(msgs), First(old(msgs), 0, ANY);
              var m := First(s, 0, c);
              if c != ANY && HopsOut(s, f, c, maxMsgs) then rc == -1 && !open && msgs == [] && firstUnread == -1 && delivered == old(delivered)
              else if m == |s| then rc == 0 && open && msgs == s && delivered == old(delivered) && Valid()
              else
                && open && id == s[m].id
                && delivered == old(delivered) + [s[m].id]
                && msgs == s[m := s[m].(unread := false)]
                && (if m == f && HopsOut(msgs, f, ANY, maxMsgs) then rc == -1 && firstUnread == -1 else rc == 1 && Valid())
      ensures old(|msgs|) < 2 * maxMsgs ==> rc >= 0
      ensures delivered != old(delivered) ==> EarliestWanted(old(msgs), c, IndexOf(old(msgs), id))
      ensures rc == 0 ==> forall i :: 0 <= i < |old(msgs)| && old(msgs)[i].unread ==> Unwanted(old(msgs)[i], c)
    {
      id := -1;
      ghost var s, f := msgs, First(msgs, 0, ANY);
      FirstIsWanted(s, c);
      FirstSkips(s, 0, f, c);
      if firstUnread == -1 { return 0, id; }
      IndexUnique(msgs, f);
      var k := IndexOf(msgs, firstUnread);
      if c != ANY {
        var ok;
        k, ok := Walk(k, c);
        if !ok {
          open, msgs, firstUnread := false, [], -1;
          return -1, id;
        }
        if k == |msgs| { return 0, id; }
      }
      id := msgs[k].id;
      rc := MarkRead(k);
    }

    /** The tail of it: entry k is read and, if it was the first unread one, the
        pointer moves on. */
    method MarkRead(k: nat) returns (rc: int)
      requires Valid() && k < |msgs| && msgs[k].unread
      modifies this`msgs, this`firstUnread, this`delivered
      ensures Listed() && delivered == old(delivered) + [old(msgs)[k].id]
      ensures msgs == old(msgs)[k := old(msgs)[k].(unread := false)]
      ensures var f := First(old(msgs), 0, ANY);
              if k == f && HopsOut(msgs, f, ANY, maxMsgs) then rc == -1 && firstUnread == -1 else rc == 1 && Valid()
    {
      MarkListed(msgs, delivered, nextId, k);
      MarkFirst(msgs, k);
      msgs := msgs[k := msgs[k].(unread := false)];
      delivered := delivered + [msgs[k].id];
      rc := 1;
      if firstUnread == msgs[k].id {
        var ok := UpdateFirstUnread();
        if !ok { rc := -1; }
      }
    }

    /** The check that a message is on the list. */
    method Locate(id: nat) returns (list: int)
      requires maxMsgs > 0
      ensures var p := IndexOf(msgs, id);
              list == if p < |msgs| && p < 2 * maxMsgs then p else -1
    {
      ghost var p := IndexOf(msgs, id);
      var hopcount := maxMsgs * 2 - 1;
      list := 0;
      while list < |msgs| && hopcount > 0 && msgs[list].id != id
        invariant 0 <= list <= p && hopcount == maxMsgs * 2 - 1 - list && hopcount >= 0
      {
        list := list + 1;
        hopcount := hopcount - 1;
      }
      if list == |msgs| || msgs[list].id != id { list := -1; }
    }

    /** `freeCtlMsg`: unlink a message found within the first 2 * maxMsgs. Freeing
        the first unread message, and only that, leaves the pointer dangling. */
    method Free(id: nat) returns (rc: int)
      requires Valid()
      modifies this`msgs, this`firstUnread
      ensures Listed() && nextId == old(nextId)
      ensures var s := old(msgs);
              var p := IndexOf(s, id);
              if p < |s| && p < 2 * maxMsgs then rc == 0 && msgs == s[..p] + s[p + 1..] && (Valid() <==> id != old(firstUnread))
              else rc == -1 && Valid() && msgs == s
      ensures id in delivered ==> Valid()
    {
      var list := Locate(id);
      if list < 0 { return -1; }
      Freed(msgs, delivered, nextId, list);
      if firstUnread == id {
        var _ := UpdateFirstUnread();
      }
      msgs := msgs[..list] + msgs[list + 1..];
      rc := 0;
    }
  }

  lemma {:induction false} FirstAppended(s: seq<Entry>, e: Entry, k: nat)
    requires k <= |s| && e.unread
    ensures First(s + [e], k, ANY) == First(s, k, ANY)
    decreases |s| - k
  {
    if k < |s| {
      assert (s + [e])[k] == s[k];
      FirstAppended(s, e, k + 1);
    }
  }

  /** 2 * max messages, of which only the first and the last are unread: handing out
      the first makes the walk to the next give up. */
  lemma {:induction false} WalkGivesUp(s: seq<Entry>, max: nat)
    requires max > 0 && |s| == 2 * max && forall i :: 0 <= i < |s| ==> (s[i].unread <==> i == 0 || i == |s| - 1)
    ensures First(s, 0, ANY) == 0 && HopsOut(s[0 := s[0].(unread := false)], 0, ANY, max)
  {
    var s' := s[0 := s[0].(unread := false)];
    assert forall i :: 0 <= i < |s| - 1 ==> !s'[i].unread;
  }

  /** A search for a kind that none of 2 * max waiting messages has gives up too, and
      the portal is deleted. */
  method SearchGivesUp(max: nat) returns (p: CtlPtl, rc: int)
    requires max > 0
    ensures rc == -1 && !p.open
  {
    p := new CtlPtl(max);
    for i := 0 to 2 * max
      invariant p.Valid() && p.open && p.maxMsgs == max && |p.msgs| == i && fresh(p)
      invariant forall k :: 0 <= k < i ==> p.msgs[k].unread && p.msgs[k].kind == 0
    {
      p.Receive(0, 1, 0);
    }
    var id;
    rc, id := p.GetNext(Criteria(ANY_NID, ANY_PID, 1));
  }

  /** Two messages in a portal made for one: the first is marked read but not handed
      out, and the second, unread, is lost sight of. */
  method SecondLostSightOf() returns (p: CtlPtl, rc: int)
    ensures rc == -1 && p.open && p.firstUnread == -1 && |p.msgs| == 2 && p.msgs[1].unread && !p.Valid()
  {
    p := new CtlPtl(1);
    p.Receive(0, 1, 0);
    p.Receive(0, 1, 0);
    WalkGivesUp(p.msgs, 1);
    var id;
    rc, id := p.GetNext(ANY);
  }

  /** A message that comes when no other is unread is handed out to a caller that names
      its node, process or kind, or leaves them open, and to no other caller. */
  method ReceiveAndGet(p: CtlPtl, nid: int, pid: int, kind: int, c: Criteria) returns (rc: int, id: int)
    requires p.Valid() && p.open && |p.msgs| + 1 < 2 * p.maxMsgs
    requires forall k :: 0 <= k < |p.msgs| ==> !p.msgs[k].unread
    modifies p
    ensures p.Valid() && p.open
    ensures if (c.nid == ANY_NID || c.nid == nid) && (c.pid == ANY_PID || c.pid == pid) && (c.kind == ANY_TYPE || c.kind == kind)
            then rc == 1 && id == old(p.nextId) && p.delivered == old(p.delivered) + [old(p.nextId)]
            else rc == 0 && p.delivered == old(p.delivered)
  {
    p.Receive(nid, pid, kind);
    ghost var s, k := p.msgs, |p.msgs| - 1;
    assert forall i :: 0 <= i < k ==> s[i] == old(p.msgs)[i];
    FirstIsWanted(s, c);
    FirstSkips(s, 0, k, c);
    FirstSkips(s, 0, k, ANY);
    rc, id := p.GetNext(c);
  }
}
