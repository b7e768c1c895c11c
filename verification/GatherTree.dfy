/** The gather tree: every participant bisects the range of ranks for itself.
    The low end of a range is its root; the low end of the upper half sends that
    half to it, and each half is bisected further. */
module GatherTree {
  import opened Arith
  import opened FanInTree

  /** Parent and last rank of the range that x (above the root l) assembles
      when l gathers the ranks l..r. */
  function Place(l: nat, r: nat, x: nat): (pr: (nat, nat))
    requires l < x <= r
    ensures l <= pr.0 < x <= pr.1 <= r
    decreases r - l
  {
    var mid := (l + r) / 2;
    if x <= mid then Place(l, mid, x)
    else if x == mid + 1 then (l, r)
    else Place(mid + 1, r, x)
  }

  /** Whom x sends its blocks to in a gather over n participants. */
  function Parent(n: nat, x: nat): (p: nat)
    requires 0 < x < n
    ensures p < x
  {
    Place(0, n - 1, x).0
  }

  /** x assembles the blocks x..Last(n, x). */
  function Last(n: nat, x: nat): (h: nat)
    requires x < n
    ensures x <= h < n
  {
    if x == 0 then n - 1 else Place(0, n - 1, x).1
  }

  /** The ranks that report to p. */
  function Feeders(n: nat, p: nat): set<nat>
  {
    set a | 0 < a < n && Parent(n, a) == p
  }

  /** The sender that brings block j to the root l of the range l..r. */
  function Carrier(l: nat, r: nat, j: nat): (a: nat)
    requires l < j <= r
    ensures l < a <= j <= Place(l, r, a).1 && Place(l, r, a).0 == l
    decreases r - l
  {
    var mid := (l + r) / 2;
    if j <= mid then Carrier(l, mid, j) else mid + 1
  }

  /** Ranges of different senders to the same root do not overlap. */
  lemma {:induction false} DisjointRanges(l: nat, r: nat, a: nat, b: nat)
    requires l < a < b <= r
    requires Place(l, r, a).0 == l && Place(l, r, b).0 == l
    ensures Place(l, r, a).1 < b
    decreases r - l
  {
    var mid := (l + r) / 2;
    if b <= mid { DisjointRanges(l, mid, a, b); }
  }

  /** Inside the range that p assembles, the tree is the one p would build by
      gathering that range itself. */
  lemma {:induction false} Subtree(l: nat, r: nat, p: nat, x: nat)
    requires l < p <= r && p < x <= r
    ensures x <= Place(l, r, p).1 ==> Place(l, r, x) == Place(p, Place(l, r, p).1, x)
    ensures x > Place(l, r, p).1 ==> Place(l, r, x).0 != p
    decreases r - l
  {
    var mid := (l + r) / 2;
    if x <= mid { Subtree(l, mid, p, x); }
    else if p > mid + 1 { Subtree(mid + 1, r, p, x); }
  }

  /** Whoever reports to p lies in p's range. */
  lemma {:induction false} FeederPlace(n: nat, p: nat, a: nat)
    requires p < n && a in Feeders(n, p)
    ensures p < a <= Last(n, p)
    ensures Place(p, Last(n, p), a) == (p, Last(n, a))
  {
    if p > 0 { Subtree(0, n - 1, p, a); }
  }

  /** The blocks p has to assemble are its own and, for each rank reporting to
      it, exactly that rank's range: every block is covered ... */
  lemma {:induction false} BlockHasFeeder(n: nat, p: nat, j: nat) returns (a: nat)
    requires p < n && p < j <= Last(n, p)
    ensures a in Feeders(n, p) && a <= j <= Last(n, a)
  {
    a := Carrier(p, Last(n, p), j);
    if p > 0 { Subtree(0, n - 1, p, a); }
  }

  /** ... and by only one of them. */
  lemma {:induction false} FeedersDisjoint(n: nat, p: nat, a: nat, b: nat)
    requires p < n && a in Feeders(n, p) && b in Feeders(n, p) && a < b
    ensures Last(n, a) < b
  {
    FeederPlace(n, p, a);
    FeederPlace(n, p, b);
    DisjointRanges(p, Last(n, p), a, b);
  }

  // ---- the bisection loop of dsrvr_gather

  /** A block transfer: the peer and the byte range of the gather buffer. */
  datatype Transfer = Transfer(peer: nat, offset: int, len: int)

  /** The bytes x has assembled, exchanged with a peer. */
  function RangeOf(n: nat, x: nat, peer: nat, blklen: nat): Transfer
    requires x < n
  {
    Transfer(peer, x * blklen, (Last(n, x) - x + 1) * blklen)
  }

  /** Inside l..r the gather tree is the one of gathering that range. */
  ghost predicate SameTree(n: nat, l: nat, r: nat)
    requires l <= r < n
  {
    forall x :: l < x <= r ==> Place(0, n - 1, x) == Place(l, r, x)
  }

  lemma {:induction false} SameTreeHalves(n: nat, l: nat, r: nat)
    requires l < r < n && SameTree(n, l, r)
    ensures var mid := (l + r) / 2; SameTree(n, l, mid) && SameTree(n, mid + 1, r) && Place(0, n - 1, mid + 1) == (l, r)
  {
    var mid, q := (l + r) / 2, (l + r) / 2 + 1;
    forall x | l < x <= mid ensures Place(0, n - 1, x) == Place(l, mid, x) {
      assert Place(0, n - 1, x) == Place(l, r, x);
    }
    forall x | q < x <= r ensures Place(0, n - 1, x) == Place(q, r, x) {
      assert Place(0, n - 1, x) == Place(l, r, x);
    }
    assert Place(l, r, q) == (l, r);
  }

  /** A byte of the gather buffer lies in the range of x exactly when it belongs
      to one of the blocks x..Last(n, x). */
  lemma {:induction false} RangeIsBlocks(n: nat, x: nat, peer: nat, blklen: nat, b: nat)
    requires x < n && blklen > 0
    ensures var t := RangeOf(n, x, peer, blklen);
            t.offset <= b < t.offset + t.len <==> x <= b / blklen <= Last(n, x)
  {
    var h := Last(n, x);
    MulSplit(h + 1, x, blklen);
    BetweenMultiples(b, blklen, x, h + 1, RangeOf(n, x, peer, blklen).len);
  }

  /** What member `me` has scheduled when its bisection has reached l..r. */
  ghost predicate Scheduled(n: nat, me: int, blklen: nat, l: nat, r: nat, recvs: seq<Transfer>, sends: seq<Transfer>)
    requires n >= 1
  {
    && l <= r < n
    && SameTree(n, l, r)
    && (me < 0 ==> l == 0 && recvs == [] && sends == [])
    && (me >= 0 ==> l <= me <= r)
    && (me > l ==> recvs == [] && sends == [])
    && (me == l ==> sends == if l == 0 then [] else [RangeOf(n, l, Parent(n, l), blklen)])
    && (me == l ==> ReceivesFrom(n, l, blklen, r, recvs))
  }

  /** recvs are the ranges of the ranks above r that report to p, each once. */
  ghost predicate ReceivesFrom(n: nat, p: nat, blklen: nat, r: nat, recvs: seq<Transfer>)
  {
    && (forall i :: 0 <= i < |recvs| ==>
          recvs[i].peer in Feeders(n, p) && recvs[i].peer > r && recvs[i] == RangeOf(n, recvs[i].peer, recvs[i].peer, blklen))
    && (forall i, j :: 0 <= i < j < |recvs| ==> recvs[i].peer != recvs[j].peer)
    && (forall a :: a in Feeders(n, p) && a > r ==> exists i :: 0 <= i < |recvs| && recvs[i].peer == a)
  }

  /** What the first rank of the upper half of a range brings to its root. */
  function Upper(l: nat, r: nat, blklen: nat): Transfer
    requires l < r
  {
    var mid := (l + r) / 2;
    Transfer(mid + 1, (mid + 1) * blklen, (r - mid) * blklen)
  }

  /** One halving step. */
  lemma {:induction false} ScheduleStep(n: nat, me: int, blklen: nat, l: nat, r: nat,
                                        recvs: seq<Transfer>, sends: seq<Transfer>)
    requires n >= 1 && Scheduled(n, me, blklen, l, r, recvs, sends) && l < r
    ensures var mid := (l + r) / 2;
            var t := Upper(l, r, blklen);
            && (me == l ==> Scheduled(n, me, blklen, l, mid, recvs + [t], sends))
            && (me == mid + 1 ==> Scheduled(n, me, blklen, mid + 1, r, recvs, sends + [t.(peer := l)]))
            && (me != l && me != mid + 1 && me <= mid ==> Scheduled(n, me, blklen, l, mid, recvs, sends))
            && (me > mid + 1 ==> Scheduled(n, me, blklen, mid + 1, r, recvs, sends))
  {
    var q := (l + r) / 2 + 1;
    SameTreeHalves(n, l, r);
    if me == q {
      forall a | a in Feeders(n, q) ensures a <= r { FeederPlace(n, q, a); }
    }
    if me == l { NextFeeder(n, l, blklen, r, recvs); }
  }

  /** Of the upper half of a range only its first rank reports to the root. */
  lemma {:induction false} OneFeeder(n: nat, l: nat, r: nat, a: nat)
    requires l < r < n && SameTree(n, l, r) && a in Feeders(n, l) && (l + r) / 2 < a <= r
    ensures a == (l + r) / 2 + 1
  {
    assert Place(0, n - 1, a) == Place(l, r, a);
  }

  /** Its range is the upper half. */
  lemma {:induction false} UpperRange(n: nat, l: nat, r: nat, blklen: nat)
    requires l < r < n && SameTree(n, l, r)
    ensures var q := (l + r) / 2 + 1; Upper(l, r, blklen) == RangeOf(n, q, q, blklen) && q in Feeders(n, l)
  {
    SameTreeHalves(n, l, r);
  }

  lemma {:induction false} NextFeeder(n: nat, l: nat, blklen: nat, r: nat, recvs: seq<Transfer>)
    requires l < r < n && ReceivesFrom(n, l, blklen, r, recvs)
    requires SameTree(n, l, r)
    ensures ReceivesFrom(n, l, blklen, (l + r) / 2, recvs + [Upper(l, r, blklen)])
  {
    var q := (l + r) / 2 + 1;
    UpperRange(n, l, r, blklen);
    forall a | a in Feeders(n, l) && q <= a <= r ensures a == q { OneFeeder(n, l, r, a); }
    AddFeeder(n, l, blklen, r, q, recvs, Upper(l, r, blklen));
  }

  lemma {:induction false} AddFeeder(n: nat, l: nat, blklen: nat, r: nat, q: nat, recvs: seq<Transfer>, t: Transfer)
    requires l < q <= r < n && ReceivesFrom(n, l, blklen, r, recvs) && t == RangeOf(n, q, q, blklen) && q in Feeders(n, l)
    requires forall a :: a in Feeders(n, l) && q <= a <= r ==> a == q
    ensures ReceivesFrom(n, l, blklen, q - 1, recvs + [t])
  {
    var recvs' := recvs + [t];
    forall a | a in Feeders(n, l) && a > q - 1 ensures exists i :: 0 <= i < |recvs'| && recvs'[i].peer == a {
      if a > r {
        var i :| 0 <= i < |recvs| && recvs[i].peer == a;
        assert recvs'[i].peer == a;
      } else {
        assert recvs'[|recvs|].peer == a;
      }
    }
  }

  /** Who exchanges blocks with the root of a range when it is halved, and which. */
  method Exchange(iroot: nat, left: nat, mid: nat, right: nat, blklen: nat) returns (src: nat, offset: nat, len: nat)
    requires left <= mid < right
    ensures iroot == left && mid == (left + right) / 2 ==> Transfer(src, offset, len) == Upper(left, right, blklen)
  {
    src := if iroot <= mid then (if iroot == left then mid + 1 else right)
           else (if iroot == right then mid else left);
    offset := if src <= mid then left * blklen else (mid + 1) * blklen;
    len := if src <= mid then (mid - left + 1) * blklen else (right - mid) * blklen;
  }

  /** One turn of the bisection. */
  method HalveRange(listLen: nat, myelt: int, blklen: nat, iroot: nat, left: nat, right: nat,
                    recvs: seq<Transfer>, sends: seq<Transfer>)
      returns (iroot': nat, left': nat, right': nat, recvs': seq<Transfer>, sends': seq<Transfer>)
    requires listLen >= 1 && iroot == left < right && Scheduled(listLen, myelt, blklen, left, right, recvs, sends)
    ensures iroot' == left' && Scheduled(listLen, myelt, blklen, left', right', recvs', sends')
    ensures left' <= right' && 2 * (right' - left' + 1) <= right - left + 2 && |recvs'| <= |recvs| + 1
  {
    ScheduleStep(listLen, myelt, blklen, left, right, recvs, sends);
    iroot', left', right', recvs', sends' := iroot, left, right, recvs, sends;
    var mid := (left + right) / 2;
    var src, offset, len := Exchange(iroot, left, mid, right, blklen);
    if myelt == iroot {
      recvs' := recvs + [Transfer(src, offset, len)];
    } else if myelt == src {
      sends' := sends + [Transfer(iroot, offset, len)];
    }
    if myelt <= mid {
      if iroot > mid { iroot' := src; }
      right' := mid;
    } else {
      if iroot <= mid { iroot' := src; }
      left' := mid + 1;
    }
  }

  /** The schedule that `dsrvr_gather` computes for list position `myelt`: it
      receives from exactly the ranks reporting to it, each bringing its whole
      range, and sends its own range to its parent, once. A member that is not
      in the list (the rank lookup returned -1) takes no part. Receive arrays
      of l entries suffice for every list of up to 2^l participants. */
  method Schedule(listLen: nat, myelt: int, blklen: nat) returns (recvs: seq<Transfer>, sends: seq<Transfer>)
    requires listLen >= 1 && -1 <= myelt < listLen
    ensures myelt < 0 ==> recvs == [] && sends == []
    ensures myelt >= 0 ==> ReceivesFrom(listLen, myelt, blklen, myelt, recvs)
    ensures sends == if myelt <= 0 then [] else [RangeOf(listLen, myelt, Parent(listLen, myelt), blklen)]
    ensures forall l: nat :: Pow2(l) >= listLen ==> |recvs| <= l
  {
    var clog := Log2x(listLen);
    var iroot, left, right := 0, 0, listLen - 1;
    recvs, sends := [], [];
    var i := 0;
    while i < clog && left != right
      invariant i <= clog && iroot == left && 0 <= left <= right && |recvs| <= i
      invariant Scheduled(listLen, myelt, blklen, left, right, recvs, sends)
      invariant right - left + 1 <= Pow2(clog - i)
    {
      iroot, left, right, recvs, sends := HalveRange(listLen, myelt, blklen, iroot, left, right, recvs, sends);
      i := i + 1;
    }
    assert left == right;
    if myelt >= 0 { assert left == myelt; }
  }
}
