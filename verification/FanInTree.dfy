/** The fan-in tree of the collective operations, which every member computes
    for itself: at step i (i = 1, 2, 4, ...) member r looks at r XOR i; the
    first smaller partner is its target, every larger one before it a source. */
module FanInTree {

  function Pow2(k: nat): (r: nat)
    ensures r >= 1
  {
    if k == 0 then 1 else 2 * Pow2(k - 1)
  }

  /** Exclusive or of the binary representations of two naturals. */
  function Xor(a: nat, b: nat): nat
  {
    if a == 0 then b else if b == 0 then a
    else 2 * Xor(a / 2, b / 2) + (if a % 2 == b % 2 then 0 else 1)
  }

  /** Whether bit k of a is set. */
  predicate Bit(a: nat, k: nat)
  {
    if k == 0 then a % 2 == 1 else Bit(a / 2, k - 1)
  }

  /** Position of the lowest set bit. */
  function Lowest(a: nat): (k: nat)
    requires a > 0
    ensures Bit(a, k) && Pow2(k) <= a
    ensures forall j: nat :: j < k ==> !Bit(a, j)
  {
    if a % 2 == 1 then 0 else Lowest(a / 2) + 1
  }

  /** The member that rank a reports to: a with its lowest set bit cleared. */
  function Target(a: nat): (r: nat)
    requires a > 0
    ensures r < a
  {
    a - Pow2(Lowest(a))
  }

  // ---- powers of two and single bits

  lemma {:induction false} Pow2Monotone(i: nat, j: nat)
    requires i < j
    ensures Pow2(i) < Pow2(j)
  {
    if i + 1 < j { Pow2Monotone(i, j - 1); }
  }

  lemma {:induction false} BitBelow(a: nat, k: nat)
    ensures Bit(a, k) ==> a >= Pow2(k)
  {
    if k > 0 { BitBelow(a / 2, k - 1); }
  }

  /** Toggling one bit: the arithmetic meaning of `r ^ i` for i a power of two. */
  lemma {:induction false} XorPow2(a: nat, k: nat)
    ensures Bit(a, k) ==> a >= Pow2(k)
    ensures Xor(a, Pow2(k)) == if Bit(a, k) then a - Pow2(k) else a + Pow2(k)
  {
    BitBelow(a, k);
    if k == 0 {
      assert Xor(a / 2, 0) == a / 2;
    } else if a > 0 {
      XorPow2(a / 2, k - 1);
      assert Pow2(k) / 2 == Pow2(k - 1);
    } else {
      BitBelow(0, k);
    }
  }

  lemma {:induction false} LowestIsFirst(a: nat, k: nat)
    requires a > 0 && Bit(a, k) && forall j: nat :: j < k ==> !Bit(a, j)
    ensures Lowest(a) == k
  {
    var l := Lowest(a);
    assert Bit(a, l);
    assert !(l < k) && !(k < l);
  }

  /** Adding 2^k to a number whose lowest set bit lies above k makes k the
      lowest set bit of the sum. */
  lemma {:induction false} LowestOfSum(b: nat, k: nat)
    requires b == 0 || k < Lowest(b)
    ensures Lowest(b + Pow2(k)) == k
  {
    if k == 0 {
      assert b == 0 || !Bit(b, 0);
    } else {
      assert b == 0 || !Bit(b, 0);
      assert b == 0 || Lowest(b) == Lowest(b / 2) + 1;
      LowestOfSum(b / 2, k - 1);
      assert (b + Pow2(k)) / 2 == b / 2 + Pow2(k - 1);
    }
  }

  /** Clearing the lowest set bit leaves only higher ones. */
  lemma {:induction false} LowestOfTarget(a: nat)
    requires a > 0
    ensures Target(a) == 0 || Lowest(a) < Lowest(Target(a))
  {
    if a % 2 == 1 {
      assert Target(a) == a - 1;
    } else {
      LowestOfTarget(a / 2);
      assert Target(a) == 2 * Target(a / 2);
      if Target(a) > 0 { assert Lowest(Target(a)) == Lowest(Target(a) / 2) + 1; }
    }
  }

  /** At step 2^k of its loop, member b has not yet met a smaller partner and
      its partner is a: the code records a as a source of b. */
  ghost predicate SourceAtStep(b: nat, a: nat, k: nat)
  {
    a == b + Pow2(k) && forall j: nat :: j <= k ==> !Bit(b, j)
  }

  /** Global consistency of the locally computed tree: the members that b
      records as sources are exactly those whose target is b. */
  lemma {:induction false} SourceIffTarget(a: nat, b: nat)
    requires a > 0
    ensures Target(a) == b <==> exists k: nat :: SourceAtStep(b, a, k)
  {
    if Target(a) == b {
      var k := Lowest(a);
      LowestOfTarget(a);
      forall j: nat | j <= k ensures !Bit(b, j) {
        if b == 0 { BitBelow(0, j); }
      }
      assert SourceAtStep(b, a, k);
    }
    forall k: nat | SourceAtStep(b, a, k)
      ensures Target(a) == b
    {
      if b > 0 {
        var l := Lowest(b);
        assert Bit(b, l);
        assert k < l;
      }
      LowestOfSum(b, k);
    }
  }

  /** Ancestors: every rank reaches rank 0 by following targets. */
  function Hops(a: nat): (h: nat)
    ensures a > 0 ==> h == Hops(Target(a)) + 1
    ensures h == 0 <==> a == 0
  {
    if a == 0 then 0 else Hops(Target(a)) + 1
  }

  // ---- the imperative code

  /** What `1<<i` gives in a signed 32-bit integer. */
  function Shift32(i: nat): int
    requires i < 32
  {
    if i < 31 then Pow2(i) else 0 - Pow2(31)
  }

  /** The loop of `log2x` ends within the 32 shift counts a 32-bit integer has exactly
      when x is at most 2^30. */
  lemma {:induction false} ShiftsReach(x: int)
    ensures (exists i: nat :: i < 32 && Shift32(i) >= x) <==> x <= Pow2(30)
  {
    if x <= Pow2(30) {
      assert Shift32(30) >= x;
    }
    forall i: nat | i < 32 ensures Shift32(i) <= Pow2(30) {
      if i < 30 { Pow2Monotone(i, 30); }
    }
  }

  /** `log2x`: the number of doublings needed to reach x. */
  method Log2x(x: int) returns (i: nat)
    ensures Pow2(i) >= x
    ensures forall j: nat :: j < i ==> Pow2(j) < x
  {
    i := 0;
    while Pow2(i) < x
      invariant forall j: nat :: j < i ==> Pow2(j) < x
      decreases x - Pow2(i)
    {
      Pow2Monotone(i, i + 1);
      i := i + 1;
    }
  }

  /** s lists, in increasing order, the sources that b records before step 2^k
      of its loop over a list of n participants, no target having shown up. */
  ghost predicate Recorded(n: nat, b: nat, k: nat, s: seq<nat>)
  {
    && |s| <= k
    && (forall j: nat :: j < k ==> !Bit(b, j) && Pow2(j) < n)
    && (forall i, j :: 0 <= i < j < |s| ==> s[i] < s[j])
    && (forall i :: 0 <= i < |s| ==> s[i] < b + Pow2(k))
    && (forall c: nat :: c in s <==> 0 < c < n && RecordedAt(b, c, k))
  }

  ghost predicate RecordedAt(b: nat, c: nat, k: nat)
  {
    exists j: nat :: j < k && SourceAtStep(b, c, j)
  }

  /** One iteration of the loop: the partner at step 2^k is the target of b, or
      is recorded as a source if it is in the list. */
  lemma {:induction false} RecordStep(n: nat, b: nat, k: nat, s: seq<nat>)
    requires Recorded(n, b, k, s) && Pow2(k) < n
    ensures var other := Xor(b, Pow2(k));
            if other < b then other == Target(b) && Bit(b, k)
            else Recorded(n, b, k + 1, if other < n then s + [other] else s)
  {
    XorPow2(b, k);
    if Bit(b, k) {
      LowestIsFirst(b, k);
    } else {
      Pow2Monotone(k, k + 1);
      assert SourceAtStep(b, b + Pow2(k), k);
      forall c: nat ensures RecordedAt(b, c, k + 1) <==> RecordedAt(b, c, k) || c == b + Pow2(k) {
        if RecordedAt(b, c, k) {
          var j: nat :| j < k && SourceAtStep(b, c, j);
          assert j < k + 1;
        }
      }
    }
  }

  /** Once step 2^k is past the list, or b meets its target there, the recorded
      sources are exactly the members reporting to b. */
  lemma {:induction false} RecordDone(n: nat, b: nat, k: nat, s: seq<nat>)
    requires Recorded(n, b, k, s) && b < n
    requires Pow2(k) >= n || Bit(b, k)
    ensures forall c: nat :: c in s <==> 0 < c < n && Target(c) == b
    ensures forall l: nat :: Pow2(l) >= n ==> |s| <= l
    ensures b > 0 ==> Bit(b, k) && Pow2(k) < n
  {
    forall c: nat | 0 < c < n
      ensures RecordedAt(b, c, k) <==> Target(c) == b
    {
      SourceIffTarget(c, b);
      if Target(c) == b {
        var j: nat :| SourceAtStep(b, c, j);
        if k < j { Pow2Monotone(k, j); }
        assert j < k && SourceAtStep(b, c, j);
      }
    }
    if b > 0 {
      if k < Lowest(b) { Pow2Monotone(k, Lowest(b)); }
      assert Bit(b, Lowest(b));
      BitBelow(b, k);
    }
  }

  /** `dsrvr_calc_fan_in` (and `dsrvr_init_fanin_list`, the same loop over the
      whole group): positions in the participant list of the sources and the
      target of position `myelt`. Arrays of MAXFANIN entries have room for the
      sources in every list of up to 2^MAXFANIN participants. */
  method CalcFanIn(listLen: nat, myelt: nat, sources: array<nat>)
      returns (nsources: nat, ntargets: nat, target: nat)
    requires myelt < listLen <= Pow2(sources.Length)
    modifies sources
    ensures nsources <= sources.Length
    ensures forall l: nat :: Pow2(l) >= listLen ==> nsources <= l
    ensures forall i, j :: 0 <= i < j < nsources ==> sources[i] < sources[j]
    ensures forall c :: c in sources[..nsources] <==> 0 < c < listLen && Target(c) == myelt
    ensures if myelt == 0 then ntargets == 0 else ntargets == 1 && target == Target(myelt)
  {
    nsources, ntargets, target := 0, 0, 0;
    var i := 1;
    ghost var k: nat, s: seq<nat> := 0, [];
    while i < listLen
      invariant i == Pow2(k) && nsources <= sources.Length && ntargets == 0
      invariant s == sources[..nsources] && Recorded(listLen, myelt, k, s)
      decreases listLen - i
    {
      RecordStep(listLen, myelt, k, s);
      var other := Xor(myelt, i);
      if other < listLen {
        if myelt > other {
          target, ntargets := other, 1;
          break;
        }
        assert k < sources.Length;
        sources[nsources] := other;
        nsources := nsources + 1;
        s := s + [other];
      }
      i, k := 2 * i, k + 1;
    }
    RecordDone(listLen, myelt, k, s);
  }
}
