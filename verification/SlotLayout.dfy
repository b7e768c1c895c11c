/** How the slots are shared out among the tables of the subcaches, and how many
    slots a table needs. */
module SlotLayout {
  import opened Arith
  import opened AddrCopy

  /** First slot of table i of subcache j: tables are laid out one after another. */
  function FirstSlot(numReg: seq<nat>, tblSz: seq<nat>, j: nat, i: nat): nat
    requires |numReg| == |tblSz| && (j < |numReg| || (j == |numReg| && i == 0))
    decreases j, i
  {
    if i > 0 then FirstSlot(numReg, tblSz, j, i - 1) + tblSz[j]
    else if j > 0 then FirstSlot(numReg, tblSz, j - 1, numReg[j - 1])
    else 0
  }

  /** The slots that the first j subcaches take. */
  function SlotSum(numReg: seq<nat>, tblSz: seq<nat>, j: nat): nat
    requires j <= |numReg| == |tblSz|
  {
    if j == 0 then 0 else SlotSum(numReg, tblSz, j - 1) + numReg[j - 1] * tblSz[j - 1]
  }

  /** Where a table's share starts: after the shares of the earlier subcaches and of the
      earlier tables of its own. */
  lemma {:induction false} FirstSlotIs(numReg: seq<nat>, tblSz: seq<nat>, j: nat, i: nat)
    requires |numReg| == |tblSz| && (j < |numReg| || (j == |numReg| && i == 0))
    ensures FirstSlot(numReg, tblSz, j, i) == SlotSum(numReg, tblSz, j) + (if i == 0 then 0 else i * tblSz[j])
    decreases j, i
  {
    if i > 0 {
      FirstSlotIs(numReg, tblSz, j, i - 1);
      assert i * tblSz[j] == (i - 1) * tblSz[j] + tblSz[j];
    } else if j > 0 {
      FirstSlotIs(numReg, tblSz, j - 1, numReg[j - 1]);
    }
  }

  /** Every table's share ends before the share of each later table begins. */
  lemma {:induction false} SharesInOrder(numReg: seq<nat>, tblSz: seq<nat>, j: nat, i: nat, j': nat, i': nat)
    requires |numReg| == |tblSz| && j < |numReg| && i < numReg[j]
    requires (j' < |numReg| && i' <= numReg[j']) || (j' == |numReg| && i' == 0)
    requires j < j' || (j == j' && i < i')
    ensures FirstSlot(numReg, tblSz, j, i) + tblSz[j] <= FirstSlot(numReg, tblSz, j', i')
    decreases j', i'
  {
    if i' > 0 {
      if j < j' || i < i' - 1 { SharesInOrder(numReg, tblSz, j, i, j', i' - 1); }
    } else {
      SharesInOrder(numReg, tblSz, j, i, j' - 1, numReg[j' - 1]);
    }
  }

  /** Shares of different tables do not overlap, and all lie inside addrSlot. */
  lemma {:induction false} SharesDisjoint(numReg: seq<nat>, tblSz: seq<nat>, j: nat, i: nat, j': nat, i': nat, x: nat)
    requires |numReg| == |tblSz| && j < |numReg| && i < numReg[j] && j' < |numReg| && i' < numReg[j']
    requires FirstSlot(numReg, tblSz, j, i) <= x < FirstSlot(numReg, tblSz, j, i) + tblSz[j]
    requires FirstSlot(numReg, tblSz, j', i') <= x < FirstSlot(numReg, tblSz, j', i') + tblSz[j']
    ensures j == j' && i == i' && x < SlotSum(numReg, tblSz, |numReg|)
  {
    FirstSlotIs(numReg, tblSz, |numReg|, 0);
    SharesInOrder(numReg, tblSz, j, i, |numReg|, 0);
    if j < j' || (j == j' && i < i') { SharesInOrder(numReg, tblSz, j, i, j', i'); }
    if j' < j || (j == j' && i' < i) { SharesInOrder(numReg, tblSz, j', i', j, i); }
  }

  /** The loop of `init_module` that points each table at its slots. */
  method LayoutSlots(numReg: seq<nat>, tblSz: seq<nat>) returns (slot: seq<seq<nat>>, total: nat)
    requires |numReg| == |tblSz|
    ensures |slot| == |numReg| && total == FirstSlot(numReg, tblSz, |numReg|, 0)
    ensures forall j :: 0 <= j < |numReg| ==>
              |slot[j]| == numReg[j] && forall i :: 0 <= i < numReg[j] ==> slot[j][i] == FirstSlot(numReg, tblSz, j, i)
    ensures total == SlotSum(numReg, tblSz, |numReg|)
    ensures forall j, i :: 0 <= j < |numReg| && 0 <= i < numReg[j] ==> slot[j][i] == SlotSum(numReg, tblSz, j) + i * tblSz[j]
  {
    slot, total := [], 0;
    for j := 0 to |numReg|
      invariant |slot| == j && total == FirstSlot(numReg, tblSz, j, 0)
      invariant forall k :: 0 <= k < j ==>
                  |slot[k]| == numReg[k] && forall i :: 0 <= i < numReg[k] ==> slot[k][i] == FirstSlot(numReg, tblSz, k, i)
    {
      var row;
      row, total := LayoutRow(numReg, tblSz, j, total);
      slot := slot + [row];
    }
    FirstSlotIs(numReg, tblSz, |numReg|, 0);
    forall j, i | 0 <= j < |numReg| && 0 <= i < numReg[j] ensures slot[j][i] == SlotSum(numReg, tblSz, j) + i * tblSz[j] {
      FirstSlotIs(numReg, tblSz, j, i);
    }
  }

  method LayoutRow(numReg: seq<nat>, tblSz: seq<nat>, j: nat, first: nat) returns (row: seq<nat>, slotInd: nat)
    requires |numReg| == |tblSz| && j < |numReg| && first == FirstSlot(numReg, tblSz, j, 0)
    ensures |row| == numReg[j] && slotInd == FirstSlot(numReg, tblSz, j, numReg[j])
    ensures forall i :: 0 <= i < numReg[j] ==> row[i] == FirstSlot(numReg, tblSz, j, i)
  {
    row, slotInd := [], first;
    for i := 0 to numReg[j]
      invariant |row| == i && slotInd == FirstSlot(numReg, tblSz, j, i)
      invariant forall k :: 0 <= k < i ==> row[k] == FirstSlot(numReg, tblSz, j, k)
    {
      row, slotInd := row + [slotInd], slotInd + tblSz[j];
    }
  }

  // ---- how many slots a region needs

  /** A region spans at most T pages exactly when its bytes, counted from the start
      of its first page, end within T pages. */
  lemma {:induction false} PagesFit(P: nat, v: nat, n: nat, T: nat)
    requires P > 0 && n > 0
    ensures Pages(P, v, n) <= T <==> v % P + n <= T * P
  {
    var q, e := v / P, (v + n - 1) / P;
    DivBounds(v, P);
    DivBounds(v + n - 1, P);
    assert (e - q) * P == e * P - q * P;
    assert (e - q - T) * P == (e - q) * P - T * P;
    assert (T - 1 - (e - q)) * P == T * P - P - (e - q) * P;
    MulLowerBound(e - q - T + 1, P);
    MulLowerBound(T - 1 - (e - q), P);
    assert (e - q - T + 1) * P == (e - q) * P - T * P + P;
    assert e - q - T + 1 == 0 ==> (e - q - T + 1) * P == 0;
  }

  /** T slots hold every region of up to R bytes, whatever its alignment, exactly
      when R <= (T - 1) * P + 1. */
  lemma {:induction false} RegionFits(P: nat, R: nat, T: nat)
    requires P > 0 && R > 0 && T > 0
    ensures (forall v: nat, n: nat :: 0 < n <= R ==> Pages(P, v, n) <= T) <==> R <= (T - 1) * P + 1
  {
    assert (T - 1) * P == T * P - P;
    forall v: nat, n: nat | 0 < n <= R && R <= (T - 1) * P + 1 ensures Pages(P, v, n) <= T {
      PagesFit(P, v, n, T);
      DivBounds(v, P);
    }
    PagesFit(P, P - 1, R, T);
    DivModUnique(P - 1, P, 0, P - 1);
  }

  /** The rule in the header: regions of K whole pages fit K + 1 slots. */
  lemma {:induction false} WholePagesFit(P: nat, K: nat, v: nat, n: nat)
    requires P > 0 && 0 < n <= K * P
    ensures Pages(P, v, n) <= K + 1
  {
    assert (K + 1) * P == K * P + P;
    PagesFit(P, v, n, K + 1);
    DivBounds(v, P);
  }

  const REG_SZ1: nat := 120 * 1024
  const REG_SZ2: nat := 4088 * 1024

  /** The table sizes chosen for i386 (4 KB pages) and Alpha (8 KB pages) suffice;
      the ones for IA-64 are too small for 16 KB pages, because the region sizes
      are not whole numbers of such pages: the largest region starting at the last
      byte of a page needs one slot more than its table has. */
  lemma {:induction false} ChosenTableSizes()
    ensures 4096 <= (2 - 1) * 4096 + 1 && REG_SZ1 <= (32 - 1) * 4096 + 1 && REG_SZ2 <= (1024 - 1) * 4096 + 1
    ensures 8192 <= (2 - 1) * 8192 + 1 && REG_SZ1 <= (16 - 1) * 8192 + 1 && REG_SZ2 <= (512 - 1) * 8192 + 1
    ensures Pages(16384, 16383, REG_SZ1) == 9 && !(REG_SZ1 <= (8 - 1) * 16384 + 1)
    ensures Pages(16384, 16383, REG_SZ2) == 257 && !(REG_SZ2 <= (256 - 1) * 16384 + 1)
  {
  }

  /** Validating a table leaves every other table's translations intact. */
  lemma {:induction false} ValidationIsolated(pt: PageTable, P: nat, t: Table, size: nat, base: nat, k: nat, slots: seq<nat>, slots': seq<nat>)
    requires P > 0 && |slots'| == |slots| && Cached(pt, P, t, slots)
    requires t.length > 0 ==> Pages(P, t.start, t.length) <= size
    requires t.slot + size <= base || base + k <= t.slot
    requires forall x :: 0 <= x < |slots| && !(base <= x < base + k) ==> slots'[x] == slots[x]
    ensures Cached(pt, P, t, slots')
  {
    if t.length > 0 {
      forall i | 0 <= i < Pages(P, t.start, t.length)
        ensures slots'[t.slot + i] == SlotValue(pt, P, t.start, i) && slots'[t.slot + i] != 0
      {
        assert slots[t.slot + i] == SlotValue(pt, P, t.start, i) && slots[t.slot + i] != 0;
      }
    }
  }

  /** The tables as `init_module` lays them out: table k is at place[k], and no region
      takes more slots than its table has. */
  ghost predicate LaidOut(P: nat, numReg: seq<nat>, tblSz: seq<nat>, place: seq<(nat, nat)>, tables: seq<Table>)
    requires P > 0
  {
    && |numReg| == |tblSz| && |place| == |tables|
    && (forall k :: 0 <= k < |place| ==> place[k].0 < |numReg| && place[k].1 < numReg[place[k].0])
    && (forall k, m :: 0 <= k < m < |place| ==> place[k] != place[m])
    && (forall k :: 0 <= k < |place| && place[k].0 < |numReg| ==>
          && tables[k].slot == FirstSlot(numReg, tblSz, place[k].0, place[k].1)
          && (tables[k].length > 0 ==> Pages(P, tables[k].start, tables[k].length) <= tblSz[place[k].0]))
  }

  /** Writing the slots of one region leaves the translations of every other table. */
  lemma {:induction false} OthersIsolated(P: nat, numReg: seq<nat>, tblSz: seq<nat>, place: seq<(nat, nat)>, tables: seq<Table>,
                                          ti: nat, k: nat, start: nat, length: nat, q: PageTable, slots: seq<nat>, slots': seq<nat>)
    requires P > 0 && LaidOut(P, numReg, tblSz, place, tables) && ti < |tables| && k < |tables| && k != ti
    requires length > 0 ==> Pages(P, start, length) <= tblSz[place[ti].0]
    requires Untouched(P, tables[ti].slot, start, length, slots, slots') && Cached(q, P, tables[k], slots)
    ensures Cached(q, P, tables[k], slots')
  {
    var j, i, j', i' := place[ti].0, place[ti].1, place[k].0, place[k].1;
    assert place[if ti < k then ti else k] != place[if ti < k then k else ti];
    if j < j' || (j == j' && i < i') { SharesInOrder(numReg, tblSz, j, i, j', i'); }
    else { SharesInOrder(numReg, tblSz, j', i', j, i); }
    ValidationIsolated(q, P, tables[k], tblSz[j'], tables[ti].slot, if length > 0 then Pages(P, start, length) else 0, slots, slots');
  }

  /** Validation in a laid-out cache: a region of at most K whole pages, in a table of
      at least K + 1 slots, is validated inside the slot array, and no other table's
      translations change, whatever page table they belong to. */
  method ValidateInCache(P: nat, pt: PageTable, ghost size: nat, slots: array<nat>, tables: array<Table>, ti: nat, vaddr: nat, nbytes: nat,
                         ghost numReg: seq<nat>, ghost tblSz: seq<nat>, ghost place: seq<(nat, nat)>, ghost K: nat)
      returns (ok: bool)
    requires Frames(pt, P, size) && ti < tables.Length && LaidOut(P, numReg, tblSz, place, tables[..])
    requires SlotSum(numReg, tblSz, |numReg|) <= slots.Length
    requires vaddr > 0 && 0 < nbytes <= K * P && K + 1 <= tblSz[place[ti].0]
    modifies slots, tables
    ensures ok <==> Mapped(pt, P, vaddr, nbytes)
    ensures if ok then tables[ti].start == vaddr && tables[ti].length == nbytes && tables[ti].valid && Cached(pt, P, tables[ti], slots[..])
                  else tables[ti].length == 0
    ensures LaidOut(P, numReg, tblSz, place, tables[..])
    ensures forall k :: 0 <= k < tables.Length && k != ti ==> tables[k] == old(tables[k])
    ensures forall k, q: PageTable :: 0 <= k < tables.Length && k != ti && old(Cached(q, P, tables[k], slots[..])) ==>
              Cached(q, P, tables[k], slots[..])
  {
    ghost var slots0, tables0 := slots[..], tables[..];
    WholePagesFit(P, K, vaddr, nbytes);
    FirstSlotIs(numReg, tblSz, |numReg|, 0);
    SharesInOrder(numReg, tblSz, place[ti].0, place[ti].1, |numReg|, 0);
    ok := Revalidate(P, pt, size, slots, tables, ti, vaddr, nbytes);
    forall k, q: PageTable | 0 <= k < tables.Length && k != ti && Cached(q, P, tables0[k], slots0)
      ensures Cached(q, P, tables[k], slots[..])
    {
      OthersIsolated(P, numReg, tblSz, place, tables0, ti, k, vaddr, nbytes, q, slots0, slots[..]);
    }
  }

  /** The same for a copy, whose head may revalidate its table. */
  lemma {:induction false} CopyIsolated(P: nat, numReg: seq<nat>, tblSz: seq<nat>, place: seq<(nat, nat)>, tables: seq<Table>,
                                        ti: nat, k: nat, t': Table, nbytes: nat, pt: PageTable, q: PageTable, slots: seq<nat>, slots': seq<nat>)
    requires P > 0 && LaidOut(P, numReg, tblSz, place, tables) && ti < |tables| && k < |tables| && k != ti
    requires Kept(pt, P, tables[ti], t', nbytes, slots, slots') && Cached(q, P, tables[k], slots)
    ensures Cached(q, P, tables[k], slots') && LaidOut(P, numReg, tblSz, place, tables[ti := t'])
  {
    OthersIsolated(P, numReg, tblSz, place, tables, ti, k, tables[ti].start, tables[ti].length, q, slots, slots');
  }
}
