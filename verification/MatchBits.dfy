/** How the match bits of the collective portal tell puts apart: the entries stand in
    the order barrier, broadcast, gather, and the barrier entry ignores the upper half
    of the 64 bits. */
module MatchBits {

  const WORD := 0x1_0000_0000

  const GATHER_TYPE := 1
  const BCAST_TYPE := 2
  const BARRIER_TYPE := 4

  /** The 64 match bits as two 32-bit words. */
  datatype Bits = Bits(hi: nat, lo: nat)

  /** A user type: a signed 32-bit integer. */
  predicate IsType(t: int)
  {
    -WORD / 2 <= t < WORD / 2
  }

  /** (op << 32) | type: a negative type is widened with ones, which swallow op. */
  function OpBits(op: nat, t: int): Bits
    requires IsType(t)
  {
    if t >= 0 then Bits(op, t) else Bits(WORD - 1, t + WORD)
  }

  datatype Entry = Barrier | Bcast(userType: int) | Gather(userType: int) | Nothing

  /** The first entry that matches a put, with the broadcast entry set up for type b
      and the gather entry for type g. */
  function Route(put: Bits, b: int, g: int): Entry
    requires IsType(b) && IsType(g)
  {
    if put.lo == BARRIER_TYPE then Barrier
    else if put == OpBits(BCAST_TYPE, b) then Bcast(b)
    else if put == OpBits(GATHER_TYPE, g) then Gather(g)
    else Nothing
  }

  /** Puts of a user type reach the entry of their own operation and type, and no
      other, exactly when the type is neither negative nor the barrier's. */
  lemma {:induction false} KindsToldApart(t: int)
    requires IsType(t)
    ensures (forall b, g :: IsType(b) && IsType(g) ==>
               && Route(OpBits(BCAST_TYPE, t), b, g) == (if t == b then Bcast(b) else Nothing)
               && Route(OpBits(GATHER_TYPE, t), b, g) == (if t == g then Gather(g) else Nothing))
       <==> t >= 0 && t != BARRIER_TYPE
  {
    if t < 0 || t == BARRIER_TYPE {
      assert Route(OpBits(GATHER_TYPE, t), t, t) != Gather(t);
    }
  }
}
