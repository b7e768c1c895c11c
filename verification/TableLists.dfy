/** The address tables of one subcache: a free list and one list per task, linked
    through the tables' next and prev fields. Tables are named by their index, -1
    is the null pointer. */
module TableLists {
  import opened Sequences

  /** The next fields, from head, spell out the list s. */
  ghost predicate Chain(next: seq<int>, head: int, s: seq<nat>)
    decreases |s|
  {
    if s == [] then head == -1
    else head == s[0] && s[0] < |next| && Chain(next, next[s[0]], s[1..])
  }

  /** A chain depends only on the next fields of its own tables. */
  lemma {:induction false} ChainFrame(next: seq<int>, next': seq<int>, head: int, s: seq<nat>)
    requires Chain(next, head, s) && |next'| == |next|
    requires forall k :: 0 <= k < |s| && s[k] < |next| ==> next'[s[k]] == next[s[k]]
    ensures Chain(next', head, s)
    decreases |s|
  {
    if s != [] {
      assert forall k :: 0 <= k < |s[1..]| ==> s[1..][k] == s[k + 1];
      ChainFrame(next, next', next[s[0]], s[1..]);
    }
  }

  /** The prev fields along the list s. */
  ghost predicate BackLinks(prev: seq<int>, s: seq<nat>)
  {
    && (forall k :: 0 <= k < |s| ==> s[k] < |prev| && prev[s[k]] == if k > 0 then s[k - 1] else -1)
    && (s != [] ==> s[0] < |prev| && prev[s[0]] == -1)
  }

  ghost predicate NoBackLinks(prev: seq<int>, s: seq<nat>)
  {
    forall k :: 0 <= k < |s| ==> s[k] < |prev| && prev[s[k]] == -1
  }

  /** Where a table is: free, in the list of a task, or held by neither. */
  datatype Place = Free | Task(p: nat) | Loose

  /** Every table is in exactly one place, once. */
  ghost predicate Partition(n: nat, where: seq<Place>, free: seq<nat>, lists: seq<seq<nat>>)
  {
    && |where| == n
    && Distinct(free)
    && (forall p :: 0 <= p < |lists| ==> Distinct(lists[p]))
    && (forall k :: 0 <= k < |free| ==> free[k] < n && where[free[k]] == Free)
    && (forall p, k :: 0 <= p < |lists| && 0 <= k < |lists[p]| ==> lists[p][k] < n && where[lists[p][k]] == Task(p))
    && (forall x :: 0 <= x < n && where[x] == Free ==> x in free)
    && (forall x :: 0 <= x < n && where[x].Task? ==> where[x].p < |lists| && x in lists[where[x].p])
  }

  /** The links of all lists agree with the lists they stand for. */
  ghost predicate Linked(next: seq<int>, freeHead: int, taskTbl: seq<int>, free: seq<nat>, lists: seq<seq<nat>>)
  {
    && Chain(next, freeHead, free)
    && |taskTbl| == |lists|
    && forall p :: 0 <= p < |lists| ==> Chain(next, taskTbl[p], lists[p])
  }

  /** Back links (TBL_REDO): along every task's list, none on the free list. */
  ghost predicate BackLinked(prev: seq<int>, free: seq<nat>, lists: seq<seq<nat>>)
  {
    && NoBackLinks(prev, free)
    && forall p :: 0 <= p < |lists| ==> BackLinks(prev, lists[p])
  }

  /** TBL_LOOKUP: at most one table per start address in a process's list. */
  ghost predicate StartsDistinct(start: seq<nat>, s: seq<nat>)
  {
    forall i, j :: 0 <= i < j < |s| && s[i] < |start| && s[j] < |start| ==> start[s[i]] != start[s[j]]
  }

  // ---- what the list operations keep

  lemma {:induction false} OthersLinked(n: nat, next: seq<int>, next': seq<int>, freeHead: int, taskTbl: seq<int>,
                                        free: seq<nat>, lists: seq<seq<nat>>, where: seq<Place>, id: nat)
    requires |next| == |next'| == n && Linked(next, freeHead, taskTbl, free, lists) && Partition(n, where, free, lists)
    requires id < n && forall x :: 0 <= x < n && x != id ==> next'[x] == next[x]
    ensures where[id] != Free ==> Chain(next', freeHead, free)
    ensures forall p :: 0 <= p < |lists| && where[id] != Task(p) ==> Chain(next', taskTbl[p], lists[p])
  {
    if where[id] != Free {
      ChainFrame(next, next', freeHead, free);
    }
    forall p | 0 <= p < |lists| && where[id] != Task(p) ensures Chain(next', taskTbl[p], lists[p]) {
      forall k | 0 <= k < |lists[p]| ensures lists[p][k] != id { assert where[lists[p][k]] == Task(p); }
      ChainFrame(next, next', taskTbl[p], lists[p]);
    }
  }

  lemma {:induction false} UnlinkKeeps(n: nat, next: seq<int>, freeHead: int, taskTbl: seq<int>,
                                       free: seq<nat>, lists: seq<seq<nat>>, where: seq<Place>)
    requires |next| == n && Linked(next, freeHead, taskTbl, free, lists) && Partition(n, where, free, lists) && free != []
    ensures var id := free[0];
            && Linked(next[id := -1], next[id], taskTbl, free[1..], lists)
            && Partition(n, where[id := Loose], free[1..], lists)
  {
    var id := free[0];
    OthersLinked(n, next, next[id := -1], freeHead, taskTbl, free, lists, where, id);
    ChainFrame(next, next[id := -1], next[id], free[1..]);
    forall p, k | 0 <= p < |lists| && 0 <= k < |lists[p]| ensures lists[p][k] != id { assert where[lists[p][k]] == Task(p); }
    forall x | 0 <= x < n && x != id && where[x] == Free ensures x in free[1..] { assert x in free; }
  }

  /** Putting a loose table at the head of a process's list. */
  lemma {:induction false} PushTaskLinks(n: nat, next: seq<int>, freeHead: int, taskTbl: seq<int>,
                                         free: seq<nat>, lists: seq<seq<nat>>, where: seq<Place>, id: nat, p: nat)
    requires |next| == n && Linked(next, freeHead, taskTbl, free, lists) && Partition(n, where, free, lists)
    requires id < n && where[id] == Loose && p < |lists|
    ensures Linked(next[id := taskTbl[p]], freeHead, taskTbl[p := id], free, lists[p := [id] + lists[p]])
  {
    var s := [id] + lists[p];
    OthersLinked(n, next, next[id := taskTbl[p]], freeHead, taskTbl, free, lists, where, id);
    assert s[1..] == lists[p];
  }

  lemma {:induction false} PushTaskPartition(n: nat, free: seq<nat>, lists: seq<seq<nat>>, where: seq<Place>, id: nat, p: nat)
    requires Partition(n, where, free, lists) && id < n && where[id] == Loose && p < |lists|
    ensures Partition(n, where[id := Task(p)], free, lists[p := [id] + lists[p]])
  {
    var lists', where' := lists[p := [id] + lists[p]], where[id := Task(p)];
    forall q, k | 0 <= q < |lists| && 0 <= k < |lists[q]| ensures lists[q][k] != id { assert where[lists[q][k]] == Task(q); }
    forall k | 0 <= k < |free| ensures free[k] != id { assert where[free[k]] == Free; }
    forall q, k | 0 <= q < |lists'| && 0 <= k < |lists'[q]| ensures lists'[q][k] < n && where'[lists'[q][k]] == Task(q) {
      if q == p && k > 0 { assert lists'[q][k] == lists[q][k - 1]; }
    }
    forall x | 0 <= x < n && where'[x].Task? ensures where'[x].p < |lists'| && x in lists'[where'[x].p] {
      if x == id { assert lists'[p][0] == id; }
    }
  }

  lemma {:induction false} PushFreeKeeps(n: nat, next: seq<int>, freeHead: int, taskTbl: seq<int>,
                                         free: seq<nat>, lists: seq<seq<nat>>, where: seq<Place>, id: nat)
    requires |next| == n && Linked(next, freeHead, taskTbl, free, lists) && Partition(n, where, free, lists)
    requires id < n && where[id] == Loose
    ensures Linked(next[id := freeHead], id, taskTbl, [id] + free, lists)
    ensures Partition(n, where[id := Free], [id] + free, lists)
  {
    OthersLinked(n, next, next[id := freeHead], freeHead, taskTbl, free, lists, where, id);
    assert ([id] + free)[1..] == free;
    forall k | 0 <= k < |free| ensures free[k] != id { assert where[free[k]] == Free; }
    forall q, k | 0 <= q < |lists| && 0 <= k < |lists[q]| ensures lists[q][k] != id { assert where[lists[q][k]] == Task(q); }
  }

  /** Reading the next field in the middle of a chain. */
  lemma {:induction false} ChainNext(next: seq<int>, head: int, s: seq<nat>, k: nat)
    requires Chain(next, head, s) && k < |s|
    ensures s[k] < |next| && Chain(next, next[s[k]], s[k + 1..])
    ensures next[s[k]] == if k + 1 < |s| then s[k + 1] else -1
    decreases k
  {
    if k > 0 {
      ChainNext(next, next[s[0]], s[1..], k - 1);
      assert s[1..][k..] == s[k + 1..];
    }
  }

  /** Taking the table after position k - 1 out of a chain. */
  lemma {:induction false} ChainSkip(next: seq<int>, next': seq<int>, head: int, s: seq<nat>, k: nat)
    requires Chain(next, head, s) && Distinct(s) && 0 < k < |s| && |next'| == |next|
    requires s[k - 1] < |next| && s[k] < |next| && next'[s[k - 1]] == next[s[k]]
    requires forall i :: 0 <= i < |s| && i != k - 1 && s[i] < |next| ==> next'[s[i]] == next[s[i]]
    ensures Chain(next', head, s[..k] + s[k + 1..])
    decreases k
  {
    var t := s[1..];
    assert forall i :: 0 <= i < |t| ==> t[i] == s[i + 1];
    if k > 1 {
      ChainSkip(next, next', next[s[0]], t, k - 1);
      assert (s[..k] + s[k + 1..])[1..] == t[..k - 1] + t[k..];
    } else {
      ChainNext(next, head, s, 1);
      assert s[..k] + s[k + 1..] == [s[0]] + s[2..];
      assert ([s[0]] + s[2..])[1..] == s[2..];
      ChainFrame(next, next', next[s[1]], s[2..]);
    }
  }

  /** A list without its k-th table. */
  lemma {:induction false} Without(s: seq<nat>, k: nat)
    requires Distinct(s) && k < |s|
    ensures Distinct(s[..k] + s[k + 1..])
    ensures forall x :: x in s[..k] + s[k + 1..] <==> x in s && x != s[k]
  {
    var r := s[..k] + s[k + 1..];
    assert forall i :: 0 <= i < |r| ==> r[i] == s[if i < k then i else i + 1];
    forall x | x in s && x != s[k] ensures x in r {
      var i :| 0 <= i < |s| && s[i] == x;
      assert r[if i < k then i else i - 1] == x;
    }
  }

  lemma {:induction false} RemovePartition(n: nat, free: seq<nat>, lists: seq<seq<nat>>, where: seq<Place>, p: nat, k: nat)
    requires Partition(n, where, free, lists) && p < |lists| && k < |lists[p]|
    ensures var s := lists[p];
            s[k] < n && Partition(n, where[s[k] := Loose], free, lists[p := s[..k] + s[k + 1..]])
  {
    var s := lists[p];
    var id, where', lists' := s[k], where[s[k] := Loose], lists[p := s[..k] + s[k + 1..]];
    Without(s, k);
    assert where[id] == Task(p);
    forall j | 0 <= j < |free| ensures free[j] != id { assert where[free[j]] == Free; }
    forall q, i | 0 <= q < |lists'| && 0 <= i < |lists'[q]| ensures lists'[q][i] < n && where'[lists'[q][i]] == Task(q) {
      assert lists'[q][i] in lists'[q] && lists'[q][i] in lists[q];
    }
    forall x | 0 <= x < n && where'[x].Task? ensures where'[x].p < |lists'| && x in lists'[where'[x].p] {
      assert x in lists[where[x].p];
    }
  }

  lemma {:induction false} RemoveLinks(n: nat, next: seq<int>, freeHead: int, taskTbl: seq<int>,
                                       free: seq<nat>, lists: seq<seq<nat>>, where: seq<Place>, p: nat, k: nat)
    requires |next| == n && Linked(next, freeHead, taskTbl, free, lists) && Partition(n, where, free, lists)
    requires p < |lists| && k < |lists[p]|
    ensures var s := lists[p];
            var lists' := lists[p := s[..k] + s[k + 1..]];
            && s[k] < n
            && (k == 0 ==> Linked(next, freeHead, taskTbl[p := next[s[k]]], free, lists'))
            && (k > 0 ==> s[k - 1] < n && Linked(next[s[k - 1] := next[s[k]]], freeHead, taskTbl, free, lists'))
  {
    var s := lists[p];
    ChainNext(next, taskTbl[p], s, k);
    if k == 0 {
      assert s[..k] + s[k + 1..] == s[1..];
    } else {
      var next' := next[s[k - 1] := next[s[k]]];
      assert where[s[k - 1]] == Task(p);
      OthersLinked(n, next, next', freeHead, taskTbl, free, lists, where, s[k - 1]);
      ChainSkip(next, next', taskTbl[p], s, k);
    }
  }

  // ---- back links

  lemma {:induction false} PushTaskBack(n: nat, prev: seq<int>, free: seq<nat>, lists: seq<seq<nat>>, where: seq<Place>, id: nat, p: nat)
    requires |prev| == n && BackLinked(prev, free, lists) && Partition(n, where, free, lists)
    requires id < n && where[id] == Loose && prev[id] == -1 && p < |lists|
    ensures var prev' := if lists[p] == [] then prev else prev[lists[p][0] := id];
            BackLinked(prev', free, lists[p := [id] + lists[p]])
  {
    var prev' := if lists[p] == [] then prev else prev[lists[p][0] := id];
    var lists' := lists[p := [id] + lists[p]];
    forall k | 0 <= k < |free| ensures prev'[free[k]] == -1 {
      assert where[free[k]] == Free && prev[free[k]] == -1;
      if lists[p] != [] { assert where[lists[p][0]] == Task(p); }
    }
    forall q | 0 <= q < |lists| ensures BackLinks(prev', lists'[q]) {
      assert BackLinks(prev, lists[q]);
      if lists[p] != [] { assert where[lists[p][0]] == Task(p); }
      forall k | 0 <= k < |lists[q]| ensures lists[q][k] != id { assert where[lists[q][k]] == Task(q); }
      if q == p {
        forall k | 0 <= k < |lists'[q]| ensures lists'[q][k] < n && prev'[lists'[q][k]] == if k > 0 then lists'[q][k - 1] else -1 {
          if k > 1 { assert lists'[q][k] == lists[q][k - 1] && lists[q][k - 1] != lists[q][0]; }
        }
      }
    }
  }

  /** `addrCache_tblLink` on the prev fields: the successor inherits the removed
      table's back link, the removed table gets none. */
  ghost function Unback(prev: seq<int>, s: seq<nat>, k: nat): (r: seq<int>)
    requires k < |s| && forall i :: 0 <= i < |s| ==> s[i] < |prev|
    ensures |r| == |prev|
    ensures forall x :: 0 <= x < |prev| && x !in s ==> r[x] == prev[x]
  {
    (if k + 1 < |s| then prev[s[k + 1] := prev[s[k]]] else prev)[s[k] := -1]
  }

  lemma {:induction false} UnbackList(prev: seq<int>, s: seq<nat>, k: nat)
    requires BackLinks(prev, s) && Distinct(s) && k < |s|
    ensures BackLinks(Unback(prev, s, k), s[..k] + s[k + 1..])
  {
    var prev', s' := Unback(prev, s, k), s[..k] + s[k + 1..];
    forall i | 0 <= i < |s'| ensures s'[i] < |prev| && prev'[s'[i]] == if i > 0 then s'[i - 1] else -1 {
      var a := if i < k then i else i + 1;
      assert s'[i] == s[a] && s[a] != s[k];
      if i > 0 { assert s'[i - 1] == s[if i - 1 < k then i - 1 else i]; }
      if a == k + 1 { assert prev'[s[a]] == prev[s[k]]; } else { assert k + 1 < |s| ==> s[a] != s[k + 1]; assert prev'[s[a]] == prev[s[a]]; }
    }
    assert BackLinks(prev', s');
  }

  lemma {:induction false} RemoveBack(n: nat, prev: seq<int>, free: seq<nat>, lists: seq<seq<nat>>, where: seq<Place>, p: nat, k: nat)
    requires |prev| == n && BackLinked(prev, free, lists) && Partition(n, where, free, lists)
    requires p < |lists| && k < |lists[p]|
    ensures var s := lists[p];
            && (forall i :: 0 <= i < |s| ==> s[i] < |prev|)
            && BackLinked(Unback(prev, s, k), [s[k]] + free, lists[p := s[..k] + s[k + 1..]])
  {
    var s := lists[p];
    assert BackLinks(prev, s);
    var prev' := Unback(prev, s, k);
    UnbackList(prev, s, k);
    forall j | 0 <= j < |free| ensures prev'[free[j]] == -1 {
      assert where[free[j]] == Free && prev[free[j]] == -1;
      assert free[j] !in s;
    }
    forall q | 0 <= q < |lists| && q != p ensures BackLinks(prev', lists[q]) {
      assert BackLinks(prev, lists[q]);
      forall i | 0 <= i < |lists[q]| ensures prev'[lists[q][i]] == prev[lists[q][i]] {
        assert where[lists[q][i]] == Task(q);
        assert lists[q][i] !in s;
      }
    }
  }

  lemma {:induction false} StartFrame(n: nat, start: seq<nat>, start': seq<nat>, free: seq<nat>, lists: seq<seq<nat>>,
                                      where: seq<Place>, id: nat, p: nat)
    requires Partition(n, where, free, lists) && |start| == |start'| == n && id < n && p < |lists| && where[id] != Task(p)
    requires forall x :: 0 <= x < n && x != id ==> start'[x] == start[x]
    requires StartsDistinct(start, lists[p])
    ensures StartsDistinct(start', lists[p])
  {
    forall k | 0 <= k < |lists[p]| ensures lists[p][k] != id { assert where[lists[p][k]] == Task(p); }
  }

  lemma {:induction false} PushStarts(start: seq<nat>, s: seq<nat>, id: nat, vaddr: nat)
    requires id < |start| && StartsDistinct(start[id := vaddr], s) && id !in s
    requires forall k :: 0 <= k < |s| ==> s[k] < |start| && start[s[k]] != vaddr
    ensures StartsDistinct(start[id := vaddr], [id] + s)
  {
    var t := [id] + s;
    assert forall i :: 0 < i < |t| ==> t[i] == s[i - 1];
  }

  ghost function Reverse(s: seq<nat>): (r: seq<nat>)
    ensures |r| == |s|
  {
    seq(|s|, k requires 0 <= k < |s| => s[|s| - 1 - k])
  }

  lemma {:induction false} ReverseStep(s: seq<nat>, k: nat, t: seq<nat>)
    requires k < |s|
    ensures Reverse(s[..k + 1]) + t == [s[k]] + (Reverse(s[..k]) + t)
  {
    assert Reverse(s[..k + 1]) == [s[k]] + Reverse(s[..k]);
  }

  lemma {:induction false} RestStep(lists: seq<seq<nat>>, s: seq<nat>, p: nat, k: nat)
    requires p < |lists| && k < |s|
    ensures s[k..][0] == s[k] && lists[p := s[k..]][p := s[k..][1..]] == lists[p := s[k + 1..]]
  {
    assert s[k..][1..] == s[k + 1..];
  }

  /** One turn of `addrCache_tblClear`: the first table of a list becomes the first
      free table. */
  lemma {:induction false} ClearStep(n: nat, next: seq<int>, freeHead: int, taskTbl: seq<int>,
                                     free: seq<nat>, lists: seq<seq<nat>>, where: seq<Place>, p: nat)
    requires |next| == n && Linked(next, freeHead, taskTbl, free, lists) && Partition(n, where, free, lists)
    requires p < |lists| && lists[p] != []
    ensures var id := lists[p][0];
            && id < n
            && Linked(next[id := freeHead], id, taskTbl[p := next[id]], [id] + free, lists[p := lists[p][1..]])
            && Partition(n, where[id := Free], [id] + free, lists[p := lists[p][1..]])
  {
    var id := lists[p][0];
    RemoveLinks(n, next, freeHead, taskTbl, free, lists, where, p, 0);
    RemovePartition(n, free, lists, where, p, 0);
    assert lists[p][..0] + lists[p][1..] == lists[p][1..];
    PushFreeKeeps(n, next, freeHead, taskTbl[p := next[id]], free, lists[p := lists[p][1..]], where[id := Loose], id);
    assert where[id := Loose][id := Free] == where[id := Free];
  }

  /** Clearing a list of two or more leaves a back link on a free table. */
  lemma {:induction false} ClearedLinks(n: nat, prev: seq<int>, free: seq<nat>, lists: seq<seq<nat>>, p: nat, where: seq<Place>)
    requires |prev| == n && Partition(n, where, free, lists) && p < |lists|
    ensures BackLinked(prev, free, lists) ==>
              (BackLinked(prev, Reverse(lists[p]) + free, lists[p := []]) <==> |lists[p]| <= 1)
  {
    if BackLinked(prev, free, lists) {
      var s := lists[p];
      var r := Reverse(s);
      assert BackLinks(prev, s);
      if |s| <= 1 {
        assert r == s;
        forall k | 0 <= k < |r + free| ensures prev[(r + free)[k]] == -1 {
          if k < |r| {
            assert k == 0 && prev[s[0]] == -1;
          } else {
            assert (r + free)[k] == free[k - |r|];
          }
        }
      } else {
        var k := |s| - 2;
        assert (r + free)[k] == s[1] && prev[s[1]] == s[0];
      }
    }
  }

  /** The smallest case: two tables left on one process's list. */
  lemma {:induction false} TwoLeftOver()
    ensures BackLinked([-1, 0], [], [[0, 1]]) && !BackLinked([-1, 0], Reverse([0, 1]) + [], [[]])
  {
    var r := Reverse([0, 1]) + [];
    assert r[0] == 1 && r[1] == 0;
  }

  lemma {:induction false} ClearedStarts(start: seq<nat>, start': seq<nat>, free: seq<nat>, lists: seq<seq<nat>>, where: seq<Place>)
    requires |start| == |start'| && Partition(|start|, where, free, lists)
    requires forall x :: 0 <= x < |start| && where[x] != Free ==> start'[x] == start[x]
    ensures forall p :: 0 <= p < |lists| && StartsDistinct(start, lists[p]) ==> StartsDistinct(start', lists[p])
  {
    forall p, k | 0 <= p < |lists| && 0 <= k < |lists[p]| ensures start'[lists[p][k]] == start[lists[p][k]] {
      assert where[lists[p][k]] == Task(p);
    }
  }

  ghost function Dropped(where: seq<Place>, p: nat): (r: seq<Place>)
  {
    seq(|where|, x requires 0 <= x < |where| => if where[x] == Task(p) then Loose else where[x])
  }

  lemma {:induction false} DropPartition(n: nat, free: seq<nat>, lists: seq<seq<nat>>, where: seq<Place>, p: nat)
    requires Partition(n, where, free, lists) && p < |lists|
    ensures Partition(n, Dropped(where, p), free, lists[p := []])
  {
    var lists' := lists[p := []];
    forall q, k | 0 <= q < |lists'| && 0 <= k < |lists'[q]| ensures lists'[q][k] < n && Dropped(where, p)[lists'[q][k]] == Task(q) {
      assert where[lists[q][k]] == Task(q);
    }
  }

  /** The indices from i up to n, in order. */
  ghost function Up(i: nat, n: nat): (r: seq<nat>)
    requires i <= n
    ensures |r| == n - i && forall k :: 0 <= k < |r| ==> r[k] == i + k
  {
    seq(n - i, k requires 0 <= k < n - i => i + k)
  }

  lemma {:induction false} ChainUp(next: seq<int>, i: nat)
    requires i < |next| && forall x :: 0 <= x < |next| ==> next[x] == if x + 1 < |next| then x + 1 else -1
    ensures Chain(next, i, Up(i, |next|))
    decreases |next| - i
  {
    assert Up(i, |next|)[1..] == Up(i + 1, |next|);
    if i + 1 < |next| { ChainUp(next, i + 1); }
  }

  lemma {:induction false} InitPartition(n: nat, lists: seq<seq<nat>>, where: seq<Place>)
    requires |where| == n && (forall x :: 0 <= x < n ==> where[x] == Free) && forall p :: 0 <= p < |lists| ==> lists[p] == []
    ensures Partition(n, where, Up(0, n), lists)
  {
    forall x | 0 <= x < n ensures x in Up(0, n) { assert Up(0, n)[x] == x; }
  }

  // ---- the subcache

  /** The keys of these tables have been reset, and no others. */
  ghost predicate Zeroed(start0: seq<nat>, start: seq<nat>, s: seq<nat>)
  {
    |start| == |start0| && forall x :: 0 <= x < |start| ==> start[x] == if x in s then 0 else start0[x]
  }

  lemma {:induction false} ZeroedStep(start0: seq<nat>, start: seq<nat>, s: seq<nat>, k: nat)
    requires k < |s| && s[k] < |start| && Zeroed(start0, start, s[..k])
    ensures Zeroed(start0, start[s[k] := 0], s[..k + 1])
  {
    assert s[..k + 1] == s[..k] + [s[k]];
  }

  class SubCache {
    const redo: bool          // TBL_REDO, otherwise TBL_LOOKUP
    var next: seq<int>
    var prev: seq<int>
    var start: seq<nat>
    var valid: seq<bool>
    var freeHead: int
    var freeTables: int
    var taskTbl: seq<int>
    ghost var free: seq<nat>
    ghost var lists: seq<seq<nat>>
    ghost var where: seq<Place>

    /** The tables are partitioned, and freeTables counts the free ones. */
    ghost predicate Sound()
      reads this
    {
      && |next| == |prev| == |start| == |valid|
      && Linked(next, freeHead, taskTbl, free, lists)
      && Partition(|next|, where, free, lists)
      && freeTables == |free|
    }

    ghost predicate Kept()
      reads this
    {
      if redo then BackLinked(prev, free, lists)
      else forall p :: 0 <= p < |lists| ==> StartsDistinct(start, lists[p])
    }

    /** No table is outside the free list and the process lists. */
    ghost predicate Conserved()
      reads this
    {
      forall x :: 0 <= x < |where| ==> where[x] != Loose
    }

    ghost predicate Valid()
      reads this
    {
      Sound() && Kept() && Conserved()
    }

    /** `init_module`: every table on the free list, in index order. */
    constructor (tables: nat, tasks: nat, strategyRedo: bool)
      requires tables > 0
      ensures Valid() && redo == strategyRedo && |taskTbl| == tasks
      ensures free == Up(0, tables) && forall p :: 0 <= p < tasks ==> lists[p] == []
    {
      redo := strategyRedo;
      freeHead, freeTables := 0, tables;
      next, prev := seq(tables, _ => 0), seq(tables, _ => 0);
      start, valid := seq(tables, _ => 0), seq(tables, _ => false);
      taskTbl := seq(tasks, _ => -1);
      free, lists, where := Up(0, tables), seq(tasks, _ => []), seq(tables, _ => Free);
      new;
      for i := 0 to tables - 1
        modifies this`next, this`prev
        invariant |next| == |prev| == tables
        invariant forall x :: 0 <= x < i ==> next[x] == x + 1 && prev[x] == -1
      {
        next := next[i := i + 1];
        prev := prev[i := -1];
      }
      next := next[tables - 1 := -1];
      prev := prev[tables - 1 := -1];
      ChainUp(next, 0);
      InitPartition(tables, lists, where);
    }

    /** `addrCache_tblUnlink`: take the first free table off the free list. */
    method Unlink() returns (id: int)
      requires Sound() && Kept()
      modifies this`next, this`freeHead, this`freeTables, this`free, this`where
      ensures Sound() && Kept() && lists == old(lists) && start == old(start) && prev == old(prev) && taskTbl == old(taskTbl)
      ensures if old(free) == [] then id == -1 && free == [] && where == old(where)
              else 0 <= id == old(free)[0] && free == old(free)[1..] && where == old(where)[id := Loose]
                   && (redo ==> prev[id] == -1)
    {
      if freeTables <= 0 { return -1; }
      UnlinkKeeps(|next|, next, freeHead, taskTbl, free, lists, where);
      id := freeHead;
      freeHead := next[id];
      next := next[id := -1];
      freeTables := freeTables - 1;
      where := where[id := Loose];
      free := free[1..];
    }

    /** A fresh table goes to the head of a process's list (TBL_REDO). */
    method PushRedo(id: nat, ppid: nat)
      requires Sound() && Kept() && redo && ppid < |taskTbl| && id < |next| && where[id] == Loose && prev[id] == -1
      modifies this`next, this`prev, this`taskTbl, this`lists, this`where
      ensures Sound() && Kept() && free == old(free) && |taskTbl| == old(|taskTbl|) && start == old(start)
      ensures lists == old(lists)[ppid := [id] + old(lists)[ppid]] && where == old(where)[id := Task(ppid)]
    {
      PushTaskLinks(|next|, next, freeHead, taskTbl, free, lists, where, id, ppid);
      PushTaskPartition(|next|, free, lists, where, id, ppid);
      PushTaskBack(|next|, prev, free, lists, where, id, ppid);
      assert Chain(next, taskTbl[ppid], lists[ppid]);
      next := next[id := taskTbl[ppid]];
      if next[id] != -1 { prev := prev[next[id] := id]; }
      taskTbl := taskTbl[ppid := id];
      lists := lists[ppid := [id] + lists[ppid]];
      where := where[id := Task(ppid)];
    }

    /** TBL_REDO branch of `addrCache_populate`. */
    method PopulateRedo(ppid: nat, vaddr: nat) returns (id: int)
      requires Valid() && redo && ppid < |taskTbl|
      modifies this`next, this`prev, this`start, this`freeHead, this`freeTables, this`taskTbl, this`free, this`lists, this`where
      ensures Valid()
      ensures if old(free) == [] then id == -1 && lists == old(lists) && free == old(free) && start == old(start)
              else 0 <= id == old(free)[0] && id < old(|start|) && start == old(start)[id := vaddr]
                   && free == old(free)[1..] && lists == old(lists)[ppid := [id] + old(lists)[ppid]]
    {
      id := Unlink();
      if id < 0 { return; }
      PushRedo(id, ppid);
      start := start[id := vaddr];
    }

    /** The TBL_LOOKUP search: the process's table for this start address, or none. */
    method Find(ppid: nat, vaddr: nat) returns (id: int)
      requires Sound() && ppid < |taskTbl|
      ensures id == -1 ==> forall k :: 0 <= k < |lists[ppid]| ==> start[lists[ppid][k]] != vaddr
      ensures id != -1 ==> 0 <= id < |start| && id in lists[ppid] && start[id] == vaddr
    {
      id := taskTbl[ppid];
      ghost var s, k := lists[ppid], 0;
      assert Chain(next, taskTbl[ppid], s);
      while id != -1
        invariant 0 <= k <= |s| && Chain(next, id, s[k..])
        invariant forall i :: 0 <= i < k ==> start[s[i]] != vaddr
        decreases |s| - k
      {
        assert s[k..] != [] && s[k..][0] == s[k];
        if start[id] == vaddr { return; }
        assert s[k..][1..] == s[k + 1..];
        id := next[id];
        k := k + 1;
      }
      assert s[k..] == [];
    }

    /** A fresh table goes to the head of a process's list (TBL_LOOKUP). */
    method PushLookup(id: nat, ppid: nat, vaddr: nat)
      requires Sound() && Kept() && !redo && ppid < |taskTbl| && id < |next| && where[id] == Loose
      requires forall k :: 0 <= k < |lists[ppid]| ==> start[lists[ppid][k]] != vaddr
      modifies this`next, this`taskTbl, this`start, this`lists, this`where
      ensures Sound() && Kept() && free == old(free) && |taskTbl| == old(|taskTbl|)
      ensures lists == old(lists)[ppid := [id] + old(lists)[ppid]] && where == old(where)[id := Task(ppid)]
      ensures start == old(start)[id := vaddr]
    {
      PushTaskLinks(|next|, next, freeHead, taskTbl, free, lists, where, id, ppid);
      PushTaskPartition(|next|, free, lists, where, id, ppid);
      forall p | 0 <= p < |lists| ensures StartsDistinct(start[id := vaddr], lists[p]) {
        StartFrame(|next|, start, start[id := vaddr], free, lists, where, id, p);
      }
      PushStarts(start, lists[ppid], id, vaddr);
      next := next[id := taskTbl[ppid]];
      taskTbl := taskTbl[ppid := id];
      start := start[id := vaddr];
      lists := lists[ppid := [id] + lists[ppid]];
      where := where[id := Task(ppid)];
    }

    /** TBL_LOOKUP branch of `addrCache_populate`: reuse the process's table for this
        address, or take a fresh one. */
    method PopulateLookup(ppid: nat, vaddr: nat) returns (id: int)
      requires Valid() && !redo && ppid < |taskTbl|
      modifies this`next, this`start, this`freeHead, this`freeTables, this`taskTbl, this`free, this`lists, this`where
      ensures Valid() && |lists| == old(|lists|)
      ensures id != -1 ==> 0 <= id < |start| && id in lists[ppid] && start[id] == vaddr
      ensures id == -1 <==> old(free) == [] && forall k :: 0 <= k < |old(lists[ppid])| ==> old(start[lists[ppid][k]]) != vaddr
      ensures if free == old(free) then lists == old(lists)
              else old(free) != [] && 0 <= id == old(free)[0] && free == old(free)[1..] && lists == old(lists)[ppid := [id] + old(lists)[ppid]]
      ensures start == if id == -1 || old(start)[id] == vaddr then old(start) else old(start)[id := vaddr]
    {
      id := Find(ppid, vaddr);
      if id == -1 {
        id := Unlink();
        if id < 0 { return; }
        PushLookup(id, ppid, vaddr);
        assert lists[ppid][0] == id;
      }
    }

    /** `addrCache_tblLink`: a TBL_REDO table goes back to the head of the free list;
        a null key or a TBL_LOOKUP table is left where it is. */
    method Link(key: int, ppid: nat)
      requires Valid() && ppid < |taskTbl| && (redo && key != -1 ==> key >= 0 && key in lists[ppid])
      modifies this`next, this`prev, this`freeHead, this`freeTables, this`taskTbl, this`free, this`lists, this`where
      ensures Valid()
      ensures key == -1 || !redo ==> lists == old(lists) && free == old(free)
      ensures key != -1 && redo ==>
        && free == [key] + old(free)
        && exists k :: 0 <= k < |old(lists[ppid])| && old(lists[ppid])[k] == key
             && lists == old(lists)[ppid := old(lists[ppid])[..k] + old(lists[ppid])[k + 1..]]
    {
      if key == -1 || !redo { return; }
      ghost var s := lists[ppid];
      ghost var k :| 0 <= k < |s| && s[k] == key;
      TakeOut(key, ppid, k);
      PushFree(key);
    }

    /** First half of `addrCache_tblLink`: out of the process's list. */
    method TakeOut(id: nat, ppid: nat, ghost k: nat)
      requires Sound() && redo && BackLinked(prev, free, lists) && ppid < |taskTbl| && k < |lists[ppid]| && lists[ppid][k] == id
      modifies this`next, this`prev, this`taskTbl, this`lists, this`where
      ensures Sound() && BackLinked(prev, [id] + free, lists) && |taskTbl| == old(|taskTbl|) && id < |next|
      ensures free == old(free) && lists == old(lists)[ppid := old(lists[ppid])[..k] + old(lists[ppid])[k + 1..]]
      ensures where == old(where)[id := Loose]
    {
      ghost var s := lists[ppid];
      assert BackLinks(prev, s);
      assert Chain(next, taskTbl[ppid], s);
      ChainNext(next, taskTbl[ppid], s, k);
      RemovePartition(|next|, free, lists, where, ppid, k);
      RemoveLinks(|next|, next, freeHead, taskTbl, free, lists, where, ppid, k);
      RemoveBack(|next|, prev, free, lists, where, ppid, k);
      ghost var prev0 := prev;
      assert next[id] != prev[id] || next[id] == -1;
      if next[id] != -1 { prev := prev[next[id] := prev[id]]; }
      if prev[id] != -1 {
        next := next[prev[id] := next[id]];
        prev := prev[id := -1];
      } else {
        taskTbl := taskTbl[ppid := next[id]];
      }
      assert prev == Unback(prev0, s, k);
      lists := lists[ppid := s[..k] + s[k + 1..]];
      where := where[id := Loose];
    }

    /** Second half: onto the head of the free list. */
    method PushFree(id: nat)
      requires Sound() && id < |next| && where[id] == Loose
      modifies this`next, this`freeHead, this`freeTables, this`free, this`where
      ensures Sound() && free == [id] + old(free) && where == old(where)[id := Free]
      ensures next == old(next)[id := old(freeHead)]
    {
      PushFreeKeeps(|next|, next, freeHead, taskTbl, free, lists, where, id);
      next := next[id := freeHead];
      freeHead := id;
      freeTables := freeTables + 1;
      free := [id] + free;
      where := where[id := Free];
    }

    /** `addrCache_tblClear` on one subcache: the process's tables go back to the free
        list. The prev fields are left alone, so the back links are right afterwards
        exactly when the process had at most one table left. */
    method Clear(ppid: nat)
      requires Sound() && ppid < |taskTbl|
      modifies this`next, this`freeHead, this`freeTables, this`taskTbl, this`start, this`free, this`lists, this`where
      ensures Sound() && free == Reverse(old(lists[ppid])) + old(free) && lists == old(lists)[ppid := []]
      ensures old(Conserved()) ==> Conserved()
      ensures old(Kept()) ==> (Kept() <==> !redo || |old(lists[ppid])| <= 1)
      ensures forall x :: 0 <= x < |start| ==> start[x] == if x in old(lists[ppid]) then 0 else old(start)[x]
    {
      ghost var prev0, free0, lists0, where0 := prev, free, lists, where;
      Drain(ppid);
      ClearedLinks(|prev0|, prev0, free0, lists0, ppid, where0);
      ClearedStarts(old(start), start, free, lists, where);
    }

    /** Sound, with the local pointer table as the head of the process's list. */
    ghost predicate Draining(ppid: nat, table: int)
      reads this
    {
      && |next| == |prev| == |start| == |valid|
      && ppid < |taskTbl|
      && Linked(next, freeHead, taskTbl[ppid := table], free, lists)
      && Partition(|next|, where, free, lists)
      && freeTables == |free|
    }

    method Drain(ppid: nat)
      requires Sound() && ppid < |taskTbl|
      modifies this`next, this`freeHead, this`freeTables, this`taskTbl, this`start, this`free, this`lists, this`where
      ensures Sound() && free == Reverse(old(lists[ppid])) + old(free) && lists == old(lists)[ppid := []]
      ensures old(Conserved()) ==> Conserved()
      ensures prev == old(prev) && |start| == old(|start|)
      ensures forall x :: 0 <= x < |start| && where[x] != Free ==> start[x] == old(start)[x]
      ensures forall x :: 0 <= x < |start| ==> start[x] == if x in old(lists[ppid]) then 0 else old(start)[x]
    {
      assert taskTbl[ppid := taskTbl[ppid]] == taskTbl;
      ReturnAll(taskTbl[ppid], ppid);
      taskTbl := taskTbl[ppid := -1];
    }

    method ReturnAll(head: int, ppid: nat)
      requires Draining(ppid, head)
      modifies this`next, this`freeHead, this`freeTables, this`start, this`free, this`lists, this`where
      ensures Draining(ppid, -1) && free == Reverse(old(lists[ppid])) + old(free) && lists == old(lists)[ppid := []]
      ensures old(Conserved()) ==> Conserved()
      ensures |start| == old(|start|) && forall x :: 0 <= x < |start| && where[x] != Free ==> start[x] == old(start)[x]
      ensures forall x :: 0 <= x < |start| ==> start[x] == if x in old(lists[ppid]) then 0 else old(start)[x]
    {
      ghost var s, free0, lists0, start0, k := lists[ppid], free, lists, start, 0;
      var table := head;
      assert s[0..] == s && lists[ppid := s] == lists;
      assert Reverse(s[..0]) + free0 == free0;
      while table != -1
        invariant k <= |s| && ReturnedUpTo(ppid, table, s, k, free0, lists0, start0)
        invariant old(Conserved()) ==> Conserved()
        decreases |s| - k
      {
        table := ReturnNext(table, ppid, s, k, free0, lists0, start0);
        k := k + 1;
      }
      assert Chain(next, taskTbl[ppid := table][ppid], lists[ppid]);
      assert s[k..] == [] && s[..k] == s;
    }

    /** The first k tables of the list s have gone back. */
    ghost predicate ReturnedUpTo(ppid: nat, table: int, s: seq<nat>, k: nat, free0: seq<nat>, lists0: seq<seq<nat>>, start0: seq<nat>)
      requires k <= |s|
      reads this
    {
      && Draining(ppid, table) && ppid < |lists0| && lists == lists0[ppid := s[k..]] && free == Reverse(s[..k]) + free0
      && Zeroed(start0, start, s[..k]) && |start| <= |where|
      && forall x :: 0 <= x < |start| && where[x] != Free ==> start[x] == start0[x]
    }

    method ReturnNext(table: int, ppid: nat, ghost s: seq<nat>, ghost k: nat, ghost free0: seq<nat>, ghost lists0: seq<seq<nat>>,
                      ghost start0: seq<nat>) returns (following: int)
      requires k <= |s| && table != -1 && ReturnedUpTo(ppid, table, s, k, free0, lists0, start0)
      modifies this`next, this`freeHead, this`freeTables, this`start, this`free, this`lists, this`where
      ensures k < |s| && ReturnedUpTo(ppid, following, s, k + 1, free0, lists0, start0)
      ensures old(Conserved()) ==> Conserved()
    {
      following := ReturnFirst(table, ppid);
      ReverseStep(s, k, free0);
      RestStep(lists0, s, ppid, k);
      ZeroedStep(start0, old(start), s, k);
    }

    method ReturnFirst(table: int, ppid: nat) returns (following: int)
      requires Draining(ppid, table) && table != -1
      modifies this`next, this`freeHead, this`freeTables, this`start, this`free, this`lists, this`where
      ensures Draining(ppid, following) && old(lists[ppid]) != [] && table == old(lists[ppid])[0]
      ensures free == [table] + old(free) && lists == old(lists)[ppid := old(lists[ppid])[1..]]
      ensures old(Conserved()) ==> Conserved()
      ensures |start| == old(|start|) && |where| == old(|where|) && 0 <= table < |start| && start == old(start)[table := 0]
      ensures forall x :: 0 <= x < |start| && where[x] != Free ==> old(where)[x] != Free && start[x] == old(start)[x]
    {
      assert Chain(next, taskTbl[ppid := table][ppid], lists[ppid]);
      ClearStep(|next|, next, freeHead, taskTbl[ppid := table], free, lists, where, ppid);
      assert taskTbl[ppid := table][ppid := next[table]] == taskTbl[ppid := next[table]];
      following := next[table];
      next := next[table := freeHead];
      freeHead := table;
      freeTables := freeTables + 1;
      start := start[table := 0];
      free, lists, where := [table] + free, lists[ppid := lists[ppid][1..]], where[table := Free];
    }

    /** `addrCache_tblInit` on one subcache drops a list that should be empty; a table
        still on it is lost to every list. */
    method DropList(ppid: nat)
      requires Valid() && ppid < |taskTbl|
      modifies this`taskTbl, this`lists, this`where
      ensures Sound() && Kept() && free == old(free) && lists == old(lists)[ppid := []]
      ensures Conserved() <==> old(lists[ppid]) == []
    {
      if taskTbl[ppid] != -1 {
        assert Chain(next, taskTbl[ppid], lists[ppid]);
        assert where[lists[ppid][0]] == Task(ppid);
        taskTbl := taskTbl[ppid := -1];
      }
      DropPartition(|next|, free, lists, where, ppid);
      where := Dropped(where, ppid);
      assert lists[ppid] != [] ==> where[lists[ppid][0]] == Loose;
      lists := lists[ppid := []];
    }

    /** `addrCache_invalidate`: exactly the process's tables lose their valid mark. */
    method Invalidate(ppid: nat)
      requires Sound() && ppid < |taskTbl|
      modifies this`valid
      ensures Sound()
      ensures forall x :: 0 <= x < |valid| ==> valid[x] == (old(valid)[x] && x !in lists[ppid])
    {
      var table := taskTbl[ppid];
      ghost var s, k := lists[ppid], 0;
      assert Chain(next, table, s);
      while table != -1
        invariant 0 <= k <= |s| && Chain(next, table, s[k..]) && |valid| == |next|
        invariant forall x :: 0 <= x < |valid| ==> valid[x] == (old(valid)[x] && x !in s[..k])
        decreases |s| - k
      {
        assert s[k..] != [] && s[k..][0] == s[k] && s[k..][1..] == s[k + 1..];
        assert s[..k + 1] == s[..k] + [s[k]];
        valid := valid[table := false];
        table := next[table];
        k := k + 1;
      }
      assert s[k..] == [] && s[..k] == s;
    }
  }

  /** Two populates whose translation failed leave two tables on the process's list,
      with null keys that are never linked back; clearing it breaks the back links. */
  method FailedPopulates(vaddr: nat, other: nat) returns (c: SubCache)
    ensures c.redo && c.Sound() && c.Conserved() && !c.Kept()
  {
    c := new SubCache(2, 1, true);
    var id := c.PopulateRedo(0, vaddr);
    id := c.PopulateRedo(0, other);
    c.Clear(0);
  }
}
