/** The two trees the barrier runs over: the XOR tree of the Portals 3 library
    and the d-ary heap tree of the older system synchroniser. */
module BarrierTrees {
  import opened Arith
  import opened FanInTree
  import opened Barrier

  /** MAX_NODES, and the barrier event queue of 3 * log2x(MAX_NODES) entries. */
  const MAX_NODES: nat := 2048
  const BARRIER_QUEUE: nat := 3 * 11

  function XorTree(n: nat): (t: Tree)
    ensures |t| == n
    ensures n >= 1 ==> ValidTree(t)
  {
    seq(n, c requires 0 <= c => if c == 0 then 0 else Target(c))
  }

  lemma {:induction false} DistinctRanks(cs: set<nat>, ks: set<nat>)
    requires forall c :: c in cs ==> c > 0 && Lowest(c) in ks
    requires forall c, d :: c in cs && d in cs && Lowest(c) == Lowest(d) ==> c == d
    ensures |cs| <= |ks|
  {
    if cs != {} {
      var c :| c in cs;
      DistinctRanks(cs - {c}, ks - {Lowest(c)});
    }
  }

  /** A participant has at most log2x(n) sources. */
  lemma {:induction false} FewSources(n: nat, l: nat, b: nat)
    requires Pow2(l) >= n
    ensures |Children(XorTree(n), b)| <= l
  {
    var cs := Children(XorTree(n), b);
    var ks := Below(l);
    forall c | c in cs ensures c > 0 && Lowest(c) in ks {
      if l < Lowest(c) { Pow2Monotone(l, Lowest(c)); }
    }
    DistinctRanks(cs, ks);
  }

  /** In every run over a list of at most MAX_NODES members the tokens under way
      to a member fit the barrier event queue. */
  lemma {:induction false} QueueSuffices(n: nat, policy: Policy, ss: seq<State>, es: seq<Event>, i: nat, p: nat)
    requires 1 <= n <= MAX_NODES && IsRun(XorTree(n), policy, ss, es) && i < |ss| && p < n
    ensures |Pending(ss[i], p)| <= 12 <= BARRIER_QUEUE
  {
    NoRoundConfusion(XorTree(n), policy, ss, es, i);
    assert Pow2(11) == MAX_NODES;
    FewSources(n, 11, p);
  }

  // ---- the d-ary tree

  function TreeParent(rank: nat, degree: nat): nat
    requires rank >= 1 && degree >= 1
  {
    (rank - 1) / degree
  }

  function TreeChild(rank: nat, degree: nat, which: nat): nat
  {
    rank * degree + 1 + which
  }

  function DaryTree(n: nat, degree: nat): (t: Tree)
    requires degree >= 1
    ensures |t| == n
    ensures n >= 1 ==> ValidTree(t)
  {
    var t := seq(n, c requires 0 <= c => if c == 0 then 0 else TreeParent(c, degree));
    assert forall c :: 1 <= c < n ==> t[c] < c by {
      forall c | 1 <= c < n ensures t[c] < c { DivBounds(c - 1, degree); }
    }
    t
  }

  /** parent(child(r, w)) = r, and these are all the children there are. */
  lemma {:induction false} ChildIffParent(r: nat, d: nat, c: nat)
    requires d >= 1 && c >= 1
    ensures TreeParent(c, d) == r <==> exists w: nat :: w < d && c == TreeChild(r, d, w)
  {
    if TreeParent(c, d) == r {
      var w := (c - 1) % d;
      DivBounds(c - 1, d);
      assert w < d && c == TreeChild(r, d, w);
    }
    forall w: nat | w < d && c == TreeChild(r, d, w) ensures TreeParent(c, d) == r {
      DivModUnique(c - 1, d, r, w);
    }
  }

  /** The loop of `dsrvr_system_synchronization` that finds the children of a
      member in a group of n. */
  method FindChildren(n: nat, rank: nat, degree: nat, chRank: array<nat>) returns (nchildren: nat)
    requires 1 <= degree <= chRank.Length && rank < n
    modifies chRank
    ensures nchildren <= degree
    ensures forall i, j :: 0 <= i < j < nchildren ==> chRank[i] < chRank[j]
    ensures forall c :: c in chRank[..nchildren] <==> c in Children(DaryTree(n, degree), rank)
  {
    nchildren := 0;
    while nchildren < degree && TreeChild(rank, degree, nchildren) < n
      invariant nchildren <= degree
      invariant forall i :: 0 <= i < nchildren ==> chRank[i] == TreeChild(rank, degree, i) < n
    {
      chRank[nchildren] := TreeChild(rank, degree, nchildren);
      nchildren := nchildren + 1;
    }
    forall c: nat ensures c in chRank[..nchildren] <==> c in Children(DaryTree(n, degree), rank) {
      if c >= 1 { ChildIffParent(rank, degree, c); }
      if c in Children(DaryTree(n, degree), rank) {
        var w: nat :| w < degree && c == TreeChild(rank, degree, w);
        assert c == chRank[w];
      }
    }
  }

  /** The system synchroniser, for every fan-out degree and group size: a member
      that returns from its k-th call implies that every member entered its k-th
      call; an unexpected token (which would abort the call) never shows up. */
  lemma {:induction false} SynchronizationSafety(n: nat, degree: nat, ss: seq<State>, es: seq<Event>, i: nat, p: nat, q: nat)
    requires 1 <= degree <= 8 && p < n && q < n
    requires IsRun(DaryTree(n, degree), Abort, ss, es) && i < |ss|
    ensures |ss[i].members| == n
    ensures Returned(ss[i], p) <= ss[i].members[q].entered
    ensures i < |es| && es[i].Take? ==> Expected(DaryTree(n, degree), ss[i].members[es[i].p], es[i].p, es[i].tok.src)
  {
    BarrierSafety(DaryTree(n, degree), Abort, ss, es, i, p, q);
    if i < |es| && es[i].Take? { ConsumedInRound(DaryTree(n, degree), Abort, ss, es, i); }
  }
}
