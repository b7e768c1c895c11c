/** Group membership: the table of members by real rank, the contiguous group ranks
    that a commit assigns, and the lookups between ranks and process ids. */
module Membership {
  import opened Sequences

  datatype Status = Unused | ActiveMember | InactiveMember | TimedOut | Bizarre | Joining | Leaving

  datatype Member = Member(nid: int, pid: int, rank: nat, status: Status)

  const DSRVR_ERROR := -11

  const EMPTY := Member(0, 0, 0, Unused)

  predicate Joined(m: Member)
  {
    m.status == ActiveMember || m.status == Joining
  }

  /** The real ranks of the joined members, in increasing order. */
  function Ranking(mid: seq<Member>): (r: seq<nat>)
    ensures |r| <= |mid|
    ensures forall g, h :: 0 <= g < h < |r| ==> r[g] < r[h]
    ensures forall g :: 0 <= g < |r| ==> r[g] < |mid| && Joined(mid[r[g]])
    decreases |mid|
  {
    if mid == [] then []
    else
      var k := |mid| - 1;
      Ranking(mid[..k]) + (if Joined(mid[k]) then [k] else [])
  }

  lemma {:induction false} RankingHas(mid: seq<Member>, i: nat)
    requires i < |mid| && Joined(mid[i])
    ensures i in Ranking(mid)
    decreases |mid|
  {
    if i < |mid| - 1 { RankingHas(mid[..|mid| - 1], i); }
  }

  /** The ranking depends only on who joined. */
  lemma {:induction false} SameRanking(a: seq<Member>, b: seq<Member>)
    requires |a| == |b| && forall i :: 0 <= i < |a| ==> (Joined(a[i]) <==> Joined(b[i]))
    ensures Ranking(a) == Ranking(b)
    decreases |a|
  {
    if a != [] {
      var k := |a| - 1;
      assert forall i :: 0 <= i < k ==> a[..k][i] == a[i] && b[..k][i] == b[i];
      SameRanking(a[..k], b[..k]);
    }
  }

  /** Joined members, renumbered: the table after a commit's ranking loop. */
  ghost predicate Ranked(mid: seq<Member>, mid': seq<Member>, ranks: seq<nat>)
  {
    && |mid'| == |mid|
    && (forall i :: 0 <= i < |mid| ==> mid'[i] == mid[i].(rank := mid'[i].rank))
    && (forall i :: 0 <= i < |mid| && !Joined(mid[i]) ==> mid'[i] == mid[i])
    && (forall g :: 0 <= g < |ranks| ==> ranks[g] < |mid'| && mid'[ranks[g]].rank == g)
  }

  class Group {
    var inited: bool
    var maxMembers: int
    var mid: seq<Member>
    var realRank: seq<nat>
    var members: int
    var myRealRank: int
    var myGroupRank: int

    ghost predicate Valid()
      reads this
    {
      inited ==>
        && maxMembers == |mid| == |realRank|
        && 0 <= myRealRank < |mid|
        && 0 <= members <= |mid|
        && forall g :: 0 <= g < |realRank| ==> realRank[g] < |mid|
    }

    /** The group ranks agree with the table. */
    ghost predicate Committed()
      reads this
    {
      && inited && Valid()
      && realRank[..members] == Ranking(mid)
      && (forall g :: 0 <= g < members ==> mid[realRank[g]].rank == g)
      && myGroupRank == mid[myRealRank].rank
    }

    constructor ()
      ensures Valid() && !inited
    {
      inited, mid, realRank, members := false, [], [], 0;
    }

    /** `dsrvr_member_init`: the table holds this member only. */
    method Init(maxm: int, me: int, nid: int, pid: int) returns (ok: bool)
      requires Valid()
      modifies this
      ensures Valid() && (ok <==> !old(inited) && 0 <= me < maxm)
      ensures !ok ==> mid == old(mid) && inited == old(inited)
      ensures ok ==> inited && |mid| == maxm && myRealRank == me && members == 0
                     && mid == seq(maxm, _ => EMPTY)[me := Member(nid, pid, 0, Joining)]
    {
      if maxm < 0 || me < 0 || me >= maxm || inited { return false; }
      maxMembers := maxm;
      mid, realRank := seq(maxm, _ => EMPTY), seq(maxm, _ => 0);
      members, myGroupRank := 0, -1;
      mid := mid[me := Member(nid, pid, 0, Joining)];
      myRealRank := me;
      inited := true;
      ok := true;
    }

    /** `dsrvr_add_member`. */
    method Add(nid: int, pid: int, rank: int) returns (ok: bool)
      requires Valid()
      modifies this`mid
      ensures Valid() && (ok <==> inited && 0 <= rank < maxMembers)
      ensures mid == if ok then old(mid)[rank := Member(nid, pid, 0, Joining)] else old(mid)
    {
      if rank < 0 || rank >= maxMembers || !inited { return false; }
      mid := mid[rank := Member(nid, pid, 0, Joining)];
      ok := true;
    }

    /** The ranking loop of `dsrvr_membership_commit`. */
    method Rank()
      requires Valid() && inited
      modifies this`mid, this`realRank, this`members, this`myGroupRank
      ensures Committed() && Ranked(old(mid), mid, realRank[..members])
    {
      var groupRank := 0;
      ghost var mid0 := mid;
      for i := 0 to maxMembers
        invariant maxMembers == |mid0| && 0 <= groupRank && RankedUpTo(mid0, mid, realRank, groupRank, i)
      {
        RankStep(mid0, mid, realRank, groupRank, i);
        if mid[i].status == ActiveMember || mid[i].status == Joining {
          realRank := realRank[groupRank := i];
          mid := mid[i := mid[i].(rank := groupRank)];
          groupRank := groupRank + 1;
        }
      }
      assert mid0[..maxMembers] == mid0;
      SameRanking(mid0, mid);
      members := groupRank;
      myGroupRank := mid[myRealRank].rank;
    }

    /** `dsrvr_membership_commit`: rank the members, meet them in a barrier, and mark
        them active. barrierOk is what the barrier returned; a group of one runs none. */
    method Commit(barrierOk: bool) returns (ok: bool)
      requires Valid()
      modifies this`mid, this`realRank, this`members, this`myGroupRank
      ensures Valid() && (ok <==> inited && (barrierOk || members == 1))
      ensures inited ==> Committed() && realRank[..members] == Ranking(old(mid))
      ensures |mid| == old(|mid|) && forall i :: 0 <= i < |mid| ==> mid[i].nid == old(mid)[i].nid && mid[i].pid == old(mid)[i].pid
      ensures forall i :: 0 <= i < |mid| ==>
                if inited && (old(mid)[i].status == ActiveMember || old(mid)[i].status == Joining)
                then mid[i].rank < members && realRank[mid[i].rank] == i && mid[i].status == (if ok then ActiveMember else old(mid)[i].status)
                else mid[i] == old(mid)[i]
      ensures inited ==> Pairs(mid, realRank[..members]) == Pairs(old(mid), Ranking(old(mid)))
    {
      if !inited { return false; }
      Rank();
      SameRanking(old(mid), mid);
      RankedPlaces(old(mid), mid, realRank, members);
      if members != 1 && !barrierOk { return false; }
      Activate(members);
      ok := true;
    }

    method Activate(n: nat)
      requires Committed() && n == members
      modifies this`mid
      ensures Committed() && Ranking(mid) == Ranking(old(mid)) && |mid| == old(|mid|)
      ensures forall i :: 0 <= i < |mid| ==>
                mid[i] == if Joined(old(mid)[i]) then old(mid)[i].(status := ActiveMember) else old(mid)[i]
    {
      ghost var mid0 := mid;
      for i := 0 to n
        invariant |mid| == |mid0|
        invariant forall k :: 0 <= k < |mid| ==> mid[k] == mid0[k] || (Joined(mid0[k]) && mid[k] == mid0[k].(status := ActiveMember))
        invariant forall g :: 0 <= g < i ==> mid[realRank[g]].status == ActiveMember
      {
        var rr := realRank[i];
        assert Ranking(mid0)[i] == rr;
        mid := mid[rr := mid[rr].(status := ActiveMember)];
      }
      SameRanking(mid0, mid);
      forall k | 0 <= k < |mid| && Joined(mid0[k]) ensures mid[k] == mid0[k].(status := ActiveMember) {
        RankingHas(mid0, k);
        assert k in realRank[..members];
      }
    }

    /** `memberNidByRank` and `memberPidByRank`. */
    method IdByRank(rank: int) returns (nid: int, pid: int, ok: bool)
      requires Valid()
      ensures ok <==> inited && 0 <= rank < members
      ensures ok ==> (nid, pid) == Pairs(mid, realRank[..members])[rank]
    {
      if rank < 0 || !inited || rank >= members { return -1, -1, false; }
      nid, pid, ok := mid[realRank[rank]].nid, mid[realRank[rank]].pid, true;
    }

    /** `memberRankByNidPid`: the first group rank with this id, or -1. */
    method RankById(nid: int, pid: int) returns (idx: int)
      requires Valid()
      ensures if !inited then idx == DSRVR_ERROR
              else var g := Lookup(Pairs(mid, realRank[..members]), (nid, pid));
                   idx == if g < members then g else -1
    {
      if !inited { return DSRVR_ERROR; }
      ghost var ids := Pairs(mid, realRank[..members]);
      idx := -1;
      for i := 0 to members
        invariant idx == -1 && Lookup(ids, (nid, pid)) == i + Lookup(ids[i..], (nid, pid))
      {
        var rr := realRank[i];
        assert ids[i..][0] == ids[i] == (mid[rr].nid, mid[rr].pid) && ids[i..][1..] == ids[i + 1..];
        if mid[rr].nid == nid && mid[rr].pid == pid { return i; }
      }
    }
  }

  /** Every joined member finds itself at its rank. */
  lemma {:induction false} RankedPlaces(mid0: seq<Member>, mid: seq<Member>, realRank: seq<nat>, members: nat)
    requires members <= |realRank| && Ranked(mid0, mid, realRank[..members]) && realRank[..members] == Ranking(mid0)
    ensures forall i :: 0 <= i < |mid0| && Joined(mid0[i]) ==> mid[i].rank < members && realRank[mid[i].rank] == i
  {
    forall i | 0 <= i < |mid0| && Joined(mid0[i]) ensures mid[i].rank < members && realRank[mid[i].rank] == i {
      RankingHas(mid0, i);
      var g :| 0 <= g < |Ranking(mid0)| && Ranking(mid0)[g] == i;
      assert realRank[..members][g] == i;
    }
  }

  /** The ids of the members in group rank order. */
  function Pairs(mid: seq<Member>, ranks: seq<nat>): (r: seq<(int, int)>)
    requires forall g :: 0 <= g < |ranks| ==> ranks[g] < |mid|
    ensures |r| == |ranks| && forall g :: 0 <= g < |ranks| ==> r[g] == (mid[ranks[g]].nid, mid[ranks[g]].pid)
  {
    seq(|ranks|, g requires 0 <= g < |ranks| => (mid[ranks[g]].nid, mid[ranks[g]].pid))
  }

  function Lookup(ids: seq<(int, int)>, id: (int, int)): (g: nat)
    ensures g <= |ids| && (g < |ids| ==> ids[g] == id) && forall k :: 0 <= k < g ==> ids[k] != id
    decreases |ids|
  {
    if ids == [] || ids[0] == id then 0 else 1 + Lookup(ids[1..], id)
  }

  /** Looking a rank's id up gives the rank back, for every rank, exactly when the ids
      are unique. */
  lemma {:induction false} LookupInverts(ids: seq<(int, int)>)
    ensures (forall g :: 0 <= g < |ids| ==> Lookup(ids, ids[g]) == g)
       <==> (forall g, h :: 0 <= g < h < |ids| ==> ids[g] != ids[h])
  {
    if forall g :: 0 <= g < |ids| ==> Lookup(ids, ids[g]) == g {
      forall g, h | 0 <= g < h < |ids| ensures ids[g] != ids[h] { assert Lookup(ids, ids[g]) == g && Lookup(ids, ids[h]) == h; }
    }
  }

  /** Group ranks number the joined members, every one once, in real rank order. */
  lemma {:induction false} RankingIsBijection(mid: seq<Member>)
    ensures forall i :: i in Ranking(mid) <==> 0 <= i < |mid| && Joined(mid[i])
    ensures forall g, h :: 0 <= g < |Ranking(mid)| && 0 <= h < |Ranking(mid)| ==> (g < h <==> Ranking(mid)[g] < Ranking(mid)[h])
  {
    forall i | 0 <= i < |mid| && Joined(mid[i]) ensures i in Ranking(mid) { RankingHas(mid, i); }
  }

  // ---- agreement between members

  datatype Addition = Addition(nid: int, pid: int, rank: nat)

  function Entered(a: Addition): Member
  {
    Member(a.nid, a.pid, 0, Joining)
  }

  /** The table after a series of additions. */
  function Built(table: seq<Member>, adds: seq<Addition>): (r: seq<Member>)
    ensures |r| == |table|
    decreases |adds|
  {
    if adds == [] then table
    else
      var a, t := adds[|adds| - 1], Built(table, adds[..|adds| - 1]);
      if a.rank < |t| then t[a.rank := Entered(a)] else t
  }

  function First(maxm: nat, me: Addition): seq<Member>
    requires me.rank < maxm
  {
    seq(maxm, _ => EMPTY)[me.rank := Entered(me)]
  }

  /** A group: real ranks are unique. */
  ghost predicate UniqueRanks(group: seq<Addition>)
  {
    forall i, j :: 0 <= i < j < |group| ==> group[i].rank != group[j].rank
  }

  lemma {:induction false} BuiltAt(table: seq<Member>, adds: seq<Addition>, group: seq<Addition>, j: nat)
    requires UniqueRanks(group) && j < |group| && group[j].rank < |table|
    requires forall k :: 0 <= k < |adds| ==> adds[k] in group
    requires group[j] in adds || table[group[j].rank] == Entered(group[j])
    ensures Built(table, adds)[group[j].rank] == Entered(group[j])
    decreases |adds|
  {
    if adds != [] {
      var a, rest := adds[|adds| - 1], adds[..|adds| - 1];
      assert a in group;
      if a.rank == group[j].rank {
        var i :| 0 <= i < |group| && group[i] == a;
        assert i == j;
      } else {
        assert group[j] in adds ==> group[j] in rest;
        BuiltAt(table, rest, group, j);
      }
    }
  }

  lemma {:induction false} BuiltElsewhere(table: seq<Member>, adds: seq<Addition>, i: nat)
    requires i < |table| && forall k :: 0 <= k < |adds| ==> adds[k].rank != i
    ensures Built(table, adds)[i] == table[i]
    decreases |adds|
  {
    if adds != [] { BuiltElsewhere(table, adds[..|adds| - 1], i); }
  }

  /** A member that starts from its own entry and adds exactly its group. */
  ghost predicate Covers(group: seq<Addition>, me: Addition, adds: seq<Addition>)
  {
    && me in group
    && (forall k :: 0 <= k < |adds| ==> adds[k] in group)
    && (forall j :: 0 <= j < |group| ==> group[j] == me || group[j] in adds)
  }

  /** Two members that add the same group, each in its own order and with or without
      itself, hold the same table and so the same ranking and ids. */
  lemma {:induction false} MembersAgree(maxm: nat, group: seq<Addition>, me: Addition, adds: seq<Addition>, you: Addition, adds': seq<Addition>)
    requires UniqueRanks(group) && forall j :: 0 <= j < |group| ==> group[j].rank < maxm
    requires Covers(group, me, adds) && Covers(group, you, adds')
    ensures me.rank < maxm && you.rank < maxm && Built(First(maxm, me), adds) == Built(First(maxm, you), adds')
    ensures Ranking(Built(First(maxm, me), adds)) == Ranking(Built(First(maxm, you), adds'))
  {
    var a, b := Built(First(maxm, me), adds), Built(First(maxm, you), adds');
    forall i | 0 <= i < maxm ensures a[i] == b[i] {
      if j :| 0 <= j < |group| && group[j].rank == i {
        BuiltAt(First(maxm, me), adds, group, j);
        BuiltAt(First(maxm, you), adds', group, j);
      } else {
        BuiltElsewhere(First(maxm, me), adds, i);
        BuiltElsewhere(First(maxm, you), adds', i);
      }
    }
  }

  /** The table of such a member holds the group and nothing else. */
  lemma {:induction false} GroupInTable(maxm: nat, group: seq<Addition>, me: Addition, adds: seq<Addition>)
    requires UniqueRanks(group) && (forall j :: 0 <= j < |group| ==> group[j].rank < maxm) && Covers(group, me, adds)
    ensures me.rank < maxm
    ensures var t := Built(First(maxm, me), adds);
            && (forall j :: 0 <= j < |group| ==> t[group[j].rank] == Entered(group[j]))
            && (forall i :: 0 <= i < maxm && Joined(t[i]) ==> exists j :: 0 <= j < |group| && group[j].rank == i)
            && |Ranking(t)| == |group|
  {
    var t := Built(First(maxm, me), adds);
    forall j | 0 <= j < |group| ensures t[group[j].rank] == Entered(group[j]) { BuiltAt(First(maxm, me), adds, group, j); }
    forall i | 0 <= i < maxm && forall j :: 0 <= j < |group| ==> group[j].rank != i ensures !Joined(t[i]) {
      BuiltElsewhere(First(maxm, me), adds, i);
    }
    var ranks := seq(|group|, j requires 0 <= j < |group| => group[j].rank);
    forall j | 0 <= j < |ranks| ensures ranks[j] in Ranking(t) { RankingHas(t, ranks[j]); }
    forall g | 0 <= g < |Ranking(t)| ensures Ranking(t)[g] in ranks {
      var j :| 0 <= j < |group| && group[j].rank == Ranking(t)[g];
      assert ranks[j] == Ranking(t)[g];
    }
    NoMoreThan(ranks, Ranking(t));
    NoMoreThan(Ranking(t), ranks);
  }

  lemma {:induction false} GroupInPairs(group: seq<Addition>, t: seq<Member>)
    requires forall j :: 0 <= j < |group| ==> group[j].rank < |t| && t[group[j].rank] == Entered(group[j])
    ensures forall j :: 0 <= j < |group| ==> (group[j].nid, group[j].pid) in Pairs(t, Ranking(t))
  {
    forall j | 0 <= j < |group| ensures (group[j].nid, group[j].pid) in Pairs(t, Ranking(t)) {
      RankingHas(t, group[j].rank);
      var g :| 0 <= g < |Ranking(t)| && Ranking(t)[g] == group[j].rank;
      assert Pairs(t, Ranking(t))[g] == (group[j].nid, group[j].pid);
    }
  }

  /** A member that initialises its table and adds others, in this order. */
  method Join(maxm: nat, me: Addition, adds: seq<Addition>) returns (g: Group)
    requires me.rank < maxm
    ensures g.Valid() && g.inited && fresh(g) && g.myRealRank == me.rank && g.mid == Built(First(maxm, me), adds)
  {
    g := new Group();
    var ok := g.Init(maxm, me.rank, me.nid, me.pid);
    for i := 0 to |adds|
      invariant g.Valid() && g.inited && fresh(g) && |g.mid| == maxm && g.myRealRank == me.rank && g.mid == Built(First(maxm, me), adds[..i])
    {
      assert adds[..i + 1][..i] == adds[..i];
      ok := g.Add(adds[i].nid, adds[i].pid, adds[i].rank);
    }
    assert adds[..|adds|] == adds;
  }

  /** Two members of a group that commit agree on who holds which rank. */
  method CommitBoth(maxm: nat, group: seq<Addition>, me: Addition, adds: seq<Addition>, you: Addition, adds': seq<Addition>, barrierOk: bool)
      returns (mine: Group, yours: Group)
    requires UniqueRanks(group) && forall j :: 0 <= j < |group| ==> group[j].rank < maxm
    requires Covers(group, me, adds) && Covers(group, you, adds')
    ensures mine.Committed() && yours.Committed() && mine.members == yours.members == |group|
    ensures Pairs(mine.mid, mine.realRank[..mine.members]) == Pairs(yours.mid, yours.realRank[..yours.members])
    ensures forall j :: 0 <= j < |group| ==> (group[j].nid, group[j].pid) in Pairs(mine.mid, mine.realRank[..mine.members])
  {
    MembersAgree(maxm, group, me, adds, you, adds');
    mine := Join(maxm, me, adds);
    yours := Join(maxm, you, adds');
    ghost var table := mine.mid;
    var ok := mine.Commit(barrierOk);
    ok := yours.Commit(barrierOk);
    GroupInTable(maxm, group, me, adds);
    GroupInPairs(group, table);
  }

  // ---- a member's place in a list of ranks

  /** `dsrvr_getMyRelativeRank` with a list: the first position of this rank, unless a
      rank outside the group comes before it. */
  method RelativeRank(list: seq<int>, me: int, members: int) returns (r: int)
    ensures -1 <= r < |list|
    ensures r >= 0 ==> list[r] == me && forall k :: 0 <= k < r ==> list[k] != me && 0 <= list[k] < members
    ensures r == -1 ==> forall k :: 0 <= k < |list| && list[k] == me ==> exists j :: 0 <= j < k && list[j] != me && !(0 <= list[j] < members)
  {
    r := -1;
    for i := 0 to |list|
      invariant forall k :: 0 <= k < i ==> list[k] != me && 0 <= list[k] < members
    {
      if list[i] == me { return i; }
      if list[i] < 0 || list[i] >= members { return -1; }
    }
  }

  /** After the first i entries: g members are ranked. */
  ghost predicate RankedUpTo(mid0: seq<Member>, mid: seq<Member>, realRank: seq<nat>, g: nat, i: nat)
  {
    && |mid| == |mid0| == |realRank| && g <= i <= |mid0|
    && (forall k :: 0 <= k < |realRank| ==> realRank[k] < |mid0|)
    && realRank[..g] == Ranking(mid0[..i])
    && Ranked(mid0, mid, realRank[..g])
  }

  /** One turn of the ranking loop. */
  lemma {:induction false} RankStep(mid0: seq<Member>, mid: seq<Member>, realRank: seq<nat>, g: nat, i: nat)
    requires RankedUpTo(mid0, mid, realRank, g, i) && i < |mid0|
    ensures Joined(mid[i]) <==> Joined(mid0[i])
    ensures if Joined(mid[i]) then RankedUpTo(mid0, mid[i := mid[i].(rank := g)], realRank[g := i], g + 1, i + 1)
            else RankedUpTo(mid0, mid, realRank, g, i + 1)
  {
    assert mid0[..i + 1][..i] == mid0[..i];
    if Joined(mid[i]) {
      RankOne(mid0, mid, realRank[..g], i);
      assert realRank[g := i][..g + 1] == realRank[..g] + [i];
    }
  }

  lemma {:induction false} RankOne(mid0: seq<Member>, mid: seq<Member>, ranks: seq<nat>, i: nat)
    requires Ranked(mid0, mid, ranks) && i < |mid0| && Joined(mid0[i]) && forall g :: 0 <= g < |ranks| ==> ranks[g] < i
    ensures Ranked(mid0, mid[i := mid[i].(rank := |ranks|)], ranks + [i])
  {
  }
}
