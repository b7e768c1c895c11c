/** The kernel address cache: translations of the pages of a user region are
    stored in consecutive slots, and copies to and from the region go through
    the slots instead of the page table. */
module AddrCopy {
  import opened Arith

  type Byte = bv8

  /** A task's page table: virtual page number to page-aligned frame address. */
  type PageTable = map<nat, nat>

  ghost predicate Frames(pt: PageTable, P: nat, size: nat)
  {
    P > 0 && forall q :: q in pt ==> pt[q] > 0 && pt[q] % P == 0 && pt[q] + P <= size
  }

  /** `calcPhysAddress`: 0 if the page is not mapped. */
  function Phys(pt: PageTable, P: nat, v: nat): nat
    requires P > 0
  {
    if v / P in pt then pt[v / P] + v % P else 0
  }

  // ---- the reference: byte by byte through the page table

  ghost function DirectWrite(mem: seq<Byte>, pt: PageTable, P: nat, v: nat, data: seq<Byte>): (r: seq<Byte>)
    requires P > 0
    ensures |r| == |mem|
    decreases |data|
  {
    if data == [] then mem
    else
      var a := Phys(pt, P, v);
      DirectWrite(if 0 < a < |mem| then mem[a := data[0]] else mem, pt, P, v + 1, data[1..])
  }

  ghost function DirectRead(mem: seq<Byte>, pt: PageTable, P: nat, v: nat, n: nat): (r: seq<Byte>)
    requires P > 0
    ensures |r| == n
    decreases n
  {
    if n == 0 then []
    else
      var a := Phys(pt, P, v);
      [if 0 < a < |mem| then mem[a] else 0] + DirectRead(mem, pt, P, v + 1, n - 1)
  }

  lemma {:induction false} WriteConcat(mem: seq<Byte>, pt: PageTable, P: nat, v: nat, d: seq<Byte>, d': seq<Byte>)
    requires P > 0
    ensures DirectWrite(mem, pt, P, v, d + d') == DirectWrite(DirectWrite(mem, pt, P, v, d), pt, P, v + |d|, d')
    decreases |d|
  {
    if d == [] {
      assert d + d' == d';
    } else {
      assert (d + d')[1..] == d[1..] + d';
      var a := Phys(pt, P, v);
      WriteConcat(if 0 < a < |mem| then mem[a := d[0]] else mem, pt, P, v + 1, d[1..], d');
    }
  }

  lemma {:induction false} ReadConcat(mem: seq<Byte>, pt: PageTable, P: nat, v: nat, n: nat, n': nat)
    requires P > 0
    ensures DirectRead(mem, pt, P, v, n + n') == DirectRead(mem, pt, P, v, n) + DirectRead(mem, pt, P, v + n, n')
    decreases n
  {
    if n > 0 { ReadConcat(mem, pt, P, v + 1, n - 1, n'); }
  }

  /** Inside a page, consecutive virtual addresses are consecutive physically. */
  lemma {:induction false} SamePage(P: nat, v: nat, j: nat)
    requires P > 0 && v % P + j < P
    ensures (v + j) / P == v / P && (v + j) % P == v % P + j
  {
    DivBounds(v, P);
    DivModUnique(v + j, P, v / P, v % P + j);
  }

  /** Writing within one page is one block copy. */
  lemma {:induction false} WriteInPage(mem: seq<Byte>, pt: PageTable, P: nat, v: nat, d: seq<Byte>)
    requires Frames(pt, P, |mem|) && v / P in pt && v % P + |d| <= P
    ensures var a := Phys(pt, P, v);
            a + |d| <= |mem| && DirectWrite(mem, pt, P, v, d) == mem[..a] + d + mem[a + |d|..]
    decreases |d|
  {
    var a := Phys(pt, P, v);
    DivBounds(v, P);
    if d == [] {
      assert mem[..a] + d + mem[a..] == mem;
    } else if |d| == 1 {
      assert d[1..] == [];
      assert mem[a := d[0]] == mem[..a] + d + mem[a + 1..];
    } else {
      var mem' := mem[a := d[0]];
      SamePage(P, v, 1);
      WriteInPage(mem', pt, P, v + 1, d[1..]);
      assert mem'[..a + 1] + d[1..] + mem'[a + |d|..] == mem[..a] + d + mem[a + |d|..];
    }
  }

  lemma {:induction false} ReadInPage(mem: seq<Byte>, pt: PageTable, P: nat, v: nat, n: nat)
    requires Frames(pt, P, |mem|) && v / P in pt && v % P + n <= P
    ensures var a := Phys(pt, P, v);
            a + n <= |mem| && DirectRead(mem, pt, P, v, n) == mem[a..a + n]
    decreases n
  {
    var a := Phys(pt, P, v);
    DivBounds(v, P);
    if n > 1 {
      SamePage(P, v, 1);
      ReadInPage(mem, pt, P, v + 1, n - 1);
    } else if n == 1 {
      assert DirectRead(mem, pt, P, v + 1, 0) == [];
    }
  }

  /** Different pages have different frames. */
  ghost predicate OneToOne(pt: PageTable)
  {
    forall q, r :: q in pt && r in pt && pt[q] == pt[r] ==> q == r
  }

  lemma {:induction false} FrameOffset(P: nat, f: nat, o: nat)
    requires P > 0 && f % P == 0 && o < P
    ensures (f + o) % P == o && (f + o) / P == f / P && f == f / P * P
  {
    DivBounds(f, P);
    DivModUnique(f + o, P, f / P, o);
  }

  lemma {:induction false} PhysInjective(pt: PageTable, P: nat, size: nat, v: nat, w: nat)
    requires Frames(pt, P, size) && OneToOne(pt) && v / P in pt && w / P in pt
    requires Phys(pt, P, v) == Phys(pt, P, w)
    ensures v == w
  {
    DivBounds(v, P);
    DivBounds(w, P);
    FrameOffset(P, pt[v / P], v % P);
    FrameOffset(P, pt[w / P], w % P);
  }

  /** Every page of the n bytes at v is mapped. */
  ghost predicate Mapped(pt: PageTable, P: nat, v: nat, n: nat)
    requires P > 0
  {
    forall w: nat :: v <= w < v + n ==> Phys(pt, P, w) != 0
  }

  /** What a direct write does: each byte of the region holds its datum, and bytes
      that no address of the region maps to are untouched. */
  lemma {:induction false} WriteExact(mem: seq<Byte>, pt: PageTable, P: nat, v: nat, d: seq<Byte>, x: nat)
    requires Frames(pt, P, |mem|) && OneToOne(pt) && x < |mem| && Mapped(pt, P, v, |d|)
    ensures var r := DirectWrite(mem, pt, P, v, d);
            && ((forall w: nat :: v <= w < v + |d| ==> Phys(pt, P, w) != x) ==> r[x] == mem[x])
            && (forall w: nat :: v <= w < v + |d| && Phys(pt, P, w) == x ==> r[x] == d[w - v])
    decreases |d|
  {
    if d != [] {
      var a := Phys(pt, P, v);
      DivBounds(v, P);
      WriteExact(mem[a := d[0]], pt, P, v + 1, d[1..], x);
      if a == x {
        forall w: nat | v < w < v + |d| ensures Phys(pt, P, w) != x {
          if Phys(pt, P, w) == a { PhysInjective(pt, P, |mem|, v, w); }
        }
      }
    }
  }

  lemma {:induction false} ReadExact(mem: seq<Byte>, pt: PageTable, P: nat, v: nat, n: nat, k: nat)
    requires Frames(pt, P, |mem|) && Mapped(pt, P, v, n) && k < n
    ensures 0 < Phys(pt, P, v + k) < |mem| && DirectRead(mem, pt, P, v, n)[k] == mem[Phys(pt, P, v + k)]
    decreases n
  {
    DivBounds(v, P);
    if k > 0 {
      ReadExact(mem, pt, P, v + 1, n - 1, k - 1);
    } else {
      assert Phys(pt, P, v) != 0;
    }
  }

  /** What was written is read back, as long as no two pages share a frame. */
  lemma {:induction false} WriteThenRead(mem: seq<Byte>, pt: PageTable, P: nat, v: nat, d: seq<Byte>)
    requires Frames(pt, P, |mem|) && OneToOne(pt) && Mapped(pt, P, v, |d|)
    ensures DirectRead(DirectWrite(mem, pt, P, v, d), pt, P, v, |d|) == d
  {
    var r := DirectWrite(mem, pt, P, v, d);
    forall k | 0 <= k < |d| ensures DirectRead(r, pt, P, v, |d|)[k] == d[k] {
      ReadExact(r, pt, P, v, |d|, k);
      WriteExact(mem, pt, P, v, d, Phys(pt, P, v + k));
      assert r[Phys(pt, P, v + k)] == d[v + k - v];
    }
  }

  // ---- tables and slots

  /** `addr_tbl_t`, without its list links. */
  datatype Table = Table(start: nat, length: nat, chunk0: nat, chunkn: nat, nchunks: nat, valid: bool, slot: nat)

  /** Pages, hence slots, that a region of n > 0 bytes at v spans. */
  function Pages(P: nat, v: nat, n: nat): (k: nat)
    requires P > 0 && n > 0
    ensures k >= 1
  {
    DivMonotone(v, v + n - 1, P);
    (v + n - 1) / P - v / P + 1
  }

  lemma {:induction false} DivMonotone(a: nat, b: nat, d: nat)
    requires a <= b && d > 0
    ensures a / d <= b / d
  {
    DivBounds(a, d);
    DivBounds(b, d);
    var q, r := a / d, b / d;
    assert (r - q) * d == b - a + a % d - b % d;
    MulLowerBound(r - q, d);
  }

  /** Bytes of the region in its first page. */
  function FirstChunk(P: nat, v: nat, n: nat): nat
    requires P > 0
  {
    var room := P - v % P;
    if n < room then n else room
  }

  /** The address stored for the i-th page of a region at v. */
  function SlotValue(pt: PageTable, P: nat, v: nat, i: nat): nat
    requires P > 0
  {
    if v / P + i in pt then pt[v / P + i] + (if i == 0 then v % P else 0) else 0
  }

  /** The slots of table t hold the translations of its region under pt. */
  ghost predicate Cached(pt: PageTable, P: nat, t: Table, slots: seq<nat>)
    requires P > 0
  {
    t.length > 0 ==>
      && t.chunk0 == FirstChunk(P, t.start, t.length)
      && t.slot + Pages(P, t.start, t.length) <= |slots|
      && forall i :: 0 <= i < Pages(P, t.start, t.length) ==>
           slots[t.slot + i] == SlotValue(pt, P, t.start, i) && slots[t.slot + i] != 0
  }

  /** Slot and offset that the copy loops compute for an address of the region,
      from its distance to the start. */
  function SlotIndex(P: nat, t: Table, offset: nat): nat
    requires P > 0
  {
    if offset >= t.chunk0 then (offset - t.chunk0) / P + 1 else 0
  }

  function SlotOffset(P: nat, t: Table, offset: nat): nat
    requires P > 0
  {
    if offset >= t.chunk0 then (offset - t.chunk0) % P else offset
  }

  /** Page and page offset of an address past the first chunk. */
  lemma {:induction false} LaterPage(P: nat, start: nat, d: nat)
    requires P > 0
    ensures var v := start + (P - start % P) + d;
            v / P == start / P + 1 + d / P && v % P == d % P
  {
    var q, e := start / P, d / P;
    DivBounds(start, P);
    DivBounds(d, P);
    var v := start + (P - start % P) + d;
    assert (q + 1 + e) * P == q * P + P + e * P;
    DivModUnique(v, P, q + 1 + e, d % P);
  }

  lemma {:induction false} IndexArithmetic(P: nat, t: Table, v: nat)
    requires P > 0 && t.length > 0 && t.chunk0 == FirstChunk(P, t.start, t.length)
    requires t.start <= v < t.start + t.length
    ensures SlotIndex(P, t, v - t.start) == v / P - t.start / P
    ensures v < t.start + t.chunk0 ==> v / P == t.start / P && v % P == t.start % P + (v - t.start)
    ensures v >= t.start + t.chunk0 ==> v / P > t.start / P && v % P == SlotOffset(P, t, v - t.start)
  {
    if v < t.start + t.chunk0 {
      SamePage(P, t.start, v - t.start);
    } else {
      LaterPage(P, t.start, v - t.start - t.chunk0);
      DivBounds(v - t.start - t.chunk0, P);
    }
  }

  /** The slot computed is that of the page the address lies in, and the stored
      address plus the offset is the address's translation. */
  lemma {:induction false} IndexIsPage(pt: PageTable, P: nat, t: Table, slots: seq<nat>, v: nat)
    requires P > 0 && t.length > 0 && Cached(pt, P, t, slots) && t.start <= v < t.start + t.length
    ensures var i := SlotIndex(P, t, v - t.start);
            && i == v / P - t.start / P && i < Pages(P, t.start, t.length)
            && v / P in pt && slots[t.slot + i] + SlotOffset(P, t, v - t.start) == Phys(pt, P, v)
  {
    IndexArithmetic(P, t, v);
    DivMonotone(v, t.start + t.length - 1, P);
    var i := v / P - t.start / P;
    assert slots[t.slot + i] == SlotValue(pt, P, t.start, i);
  }

  // ---- filling a table

  lemma {:induction false} PageStep(P: nat, v: nat, chunk: nat)
    requires P > 0 && v % P + chunk == P
    ensures (v + chunk) / P == v / P + 1 && (v + chunk) % P == 0
  {
    LaterPage(P, v, 0);
  }

  /** The slots of the first k pages of a region at v are filled. */
  ghost predicate Filled(pt: PageTable, P: nat, v: nat, slots: seq<nat>, base: nat, k: nat)
    requires P > 0
  {
    && base + k <= |slots|
    && forall i :: 0 <= i < k ==> slots[base + i] == SlotValue(pt, P, v, i) && slots[base + i] != 0
  }

  lemma {:induction false} FilledMapped(pt: PageTable, P: nat, size: nat, v: nat, n: nat, slots: seq<nat>, base: nat)
    requires Frames(pt, P, size) && n > 0 && Filled(pt, P, v, slots, base, Pages(P, v, n))
    ensures Mapped(pt, P, v, n)
  {
    forall w: nat | v <= w < v + n ensures Phys(pt, P, w) != 0 {
      DivMonotone(v, w, P);
      DivMonotone(w, v + n - 1, P);
      var i: nat := w / P - v / P;
      assert i < Pages(P, v, n) && SlotValue(pt, P, v, i) != 0;
    }
  }

  /** The translation loop of `addrCache_populate` and `addrCache_revalidate`: one
      slot per page of the region, none outside the table's share; it fails
      exactly when some page is not mapped. */
  method FillSlots(P: nat, pt: PageTable, ghost size: nat, slots: array<nat>, base: nat, vaddr: nat, nbytes: nat)
      returns (ok: bool, started: bool, chunk0: nat, chunkn: nat, i: nat)
    requires Frames(pt, P, size) && nbytes > 0 && base + Pages(P, vaddr, nbytes) <= slots.Length
    modifies slots
    ensures forall x :: 0 <= x < slots.Length && !(base <= x < base + Pages(P, vaddr, nbytes)) ==> slots[x] == old(slots[x])
    ensures ok <==> Mapped(pt, P, vaddr, nbytes)
    ensures started <==> Phys(pt, P, vaddr) != 0
    ensures started ==> chunk0 == FirstChunk(P, vaddr, nbytes)
    ensures ok ==> started && i + 1 == Pages(P, vaddr, nbytes) && Filled(pt, P, vaddr, slots[..], base, i + 1)
    ensures ok ==> chunkn == if i == 0 then nbytes else (vaddr + nbytes - 1) % P + 1
  {
    var phys := Phys(pt, P, vaddr);
    ok, started, chunk0, chunkn, i := false, phys != 0, 0, 0, 0;
    if phys == 0 { return; }
    slots[base] := phys;
    FrameOffset(P, pt[vaddr / P], vaddr % P);
    var n, v, chunk := nbytes, vaddr, 0;
    if phys % P != 0 {
      chunk := P - phys % P;
      if n < chunk { chunk := n; }
    } else {
      chunk := if n >= P then P else n;
    }
    n, chunk0 := n - chunk, chunk;
    LastPage(P, vaddr, nbytes, v, chunk, n);
    while n > 0
      invariant 0 <= n && 0 < chunk && v + chunk == vaddr + (nbytes - n)
      invariant v / P == vaddr / P + i && v % P + chunk <= P && (n > 0 ==> v % P + chunk == P)
      invariant if i == 0 then v == vaddr else v % P == 0
      invariant n > 0 ==> i + 1 < Pages(P, vaddr, nbytes)
      invariant n == 0 ==> i + 1 == Pages(P, vaddr, nbytes)
      invariant Filled(pt, P, vaddr, slots[..], base, i + 1)
      invariant forall x :: 0 <= x < slots.Length && !(base <= x < base + Pages(P, vaddr, nbytes)) ==> slots[x] == old(slots[x])
      decreases n
    {
      PageStep(P, v, chunk);
      i, v := i + 1, v + chunk;
      phys := Phys(pt, P, v);
      if phys == 0 { return; }
      slots[base + i] := phys;
      chunk := if n >= P then P else n;
      n := n - chunk;
      LastPage(P, vaddr, nbytes, v, chunk, n);
    }
    ok, chunkn := true, chunk;
    SamePage(P, v, chunk - 1);
    FilledMapped(pt, P, size, vaddr, nbytes, slots[..], base);
  }

  /** The page of the chunk at v is the last one exactly when nothing is left. */
  lemma {:induction false} LastPage(P: nat, vaddr: nat, nbytes: nat, v: nat, chunk: nat, n: nat)
    requires P > 0 && 0 < chunk && v % P + chunk <= P && v + chunk == vaddr + (nbytes - n) && n <= nbytes
    requires n > 0 ==> v % P + chunk == P
    ensures n == 0 ==> (vaddr + nbytes - 1) / P == v / P
    ensures n > 0 ==> v / P < (vaddr + nbytes - 1) / P
  {
    if n == 0 {
      SamePage(P, v, chunk - 1);
    } else {
      PageStep(P, v, chunk);
      DivMonotone(v + chunk, vaddr + nbytes - 1, P);
    }
  }

  /** Slots outside the share that a region takes are as before. */
  ghost predicate Untouched(P: nat, base: nat, start: nat, length: nat, slots: seq<nat>, slots': seq<nat>)
    requires P > 0
  {
    && |slots'| == |slots|
    && forall x :: 0 <= x < |slots| && !(length > 0 && base <= x < base + Pages(P, start, length)) ==> slots'[x] == slots[x]
  }

  /** `addrCache_revalidate`, and the validation part of `addrCache_populate`. */
  method Revalidate(P: nat, pt: PageTable, ghost size: nat, slots: array<nat>, tables: array<Table>, ti: nat,
                    vaddr: nat, nbytes: nat) returns (ok: bool)
    requires Frames(pt, P, size) && ti < tables.Length
    requires nbytes > 0 ==> tables[ti].slot + Pages(P, vaddr, nbytes) <= slots.Length
    modifies slots, tables
    ensures forall j :: 0 <= j < tables.Length && j != ti ==> tables[j] == old(tables[j])
    ensures tables[ti].slot == old(tables[ti].slot)
    ensures vaddr == 0 || nbytes == 0 ==>
              ok && tables[ti] == old(tables[ti]).(valid := true) && slots[..] == old(slots[..])
    ensures vaddr > 0 && nbytes > 0 ==>
              && (ok <==> Mapped(pt, P, vaddr, nbytes))
              && (ok ==> tables[ti].start == vaddr && tables[ti].length == nbytes && tables[ti].valid
                         && Cached(pt, P, tables[ti], slots[..]) && tables[ti].nchunks + 1 == Pages(P, vaddr, nbytes)
                         && tables[ti].chunkn == if tables[ti].nchunks == 0 then nbytes else (vaddr + nbytes - 1) % P + 1)
              && (!ok ==> tables[ti] == old(tables[ti]).(start := vaddr, length := 0, chunk0 :=
                            if Phys(pt, P, vaddr) != 0 then FirstChunk(P, vaddr, nbytes) else old(tables[ti]).chunk0))
              && Untouched(P, tables[ti].slot, vaddr, nbytes, old(slots[..]), slots[..])
  {
    var t := tables[ti];
    if vaddr == 0 || nbytes == 0 {
      tables[ti] := t.(valid := true);
      return true;
    }
    var started, chunk0, chunkn, i;
    ok, started, chunk0, chunkn, i := FillSlots(P, pt, size, slots, t.slot, vaddr, nbytes);
    t := t.(start := vaddr, length := nbytes, chunk0 := if started then chunk0 else t.chunk0);
    if ok {
      t := t.(chunkn := chunkn, nchunks := i, valid := true);
    } else {
      t := t.(length := 0);
    }
    tables[ti] := t;
  }

  // ---- copying through the slots

  /** `memcpy` into physical memory. */
  method BlockCopy(mem: array<Byte>, at: nat, data: seq<Byte>)
    requires at + |data| <= mem.Length
    modifies mem
    ensures mem[..] == old(mem[..at]) + data + old(mem[at + |data|..])
  {
    forall i | 0 <= i < |data| { mem[at + i] := data[i]; }
  }

  /** The chunk at address v of a cached region, up to the end of its page. */
  lemma {:induction false} ChunkAt(pt: PageTable, P: nat, size: nat, t: Table, slots: seq<nat>, v: nat, b: nat)
    requires Frames(pt, P, size) && t.length > 0 && Cached(pt, P, t, slots)
    requires t.start <= v < t.start + t.length && v % P + b <= P
    ensures var i := v / P - t.start / P;
            && 0 <= i && t.slot + i < |slots| && v / P in pt
            && slots[t.slot + i] + (if i == 0 then v - t.start else v % P) == Phys(pt, P, v)
            && Phys(pt, P, v) + b <= size
  {
    IndexIsPage(pt, P, t, slots, v);
    IndexArithmetic(P, t, v);
    DivBounds(v, P);
  }

  /** The copy of one chunk. */
  method CopyChunk(P: nat, pt: PageTable, mem: array<Byte>, ghost t: Table, ghost slots: seq<nat>,
                   at: nat, ghost v: nat, data: seq<Byte>)
    requires Frames(pt, P, mem.Length) && t.length > 0 && Cached(pt, P, t, slots)
    requires t.start <= v < t.start + t.length && v % P + |data| <= P && at == Phys(pt, P, v)
    modifies mem
    ensures mem[..] == DirectWrite(old(mem[..]), pt, P, v, data)
  {
    ChunkAt(pt, P, mem.Length, t, slots, v, |data|);
    WriteInPage(mem[..], pt, P, v, data);
    BlockCopy(mem, at, data);
  }

  /** The loop over the remaining, page-aligned chunks of `memcpy3_to_user`. */
  method CopyPages(P: nat, pt: PageTable, mem: array<Byte>, slots: seq<nat>, ghost t: Table, index: nat,
                   ghost v: nat, from: seq<Byte>)
    requires Frames(pt, P, mem.Length) && t.length > 0 && Cached(pt, P, t, slots)
    requires t.start <= v && v + |from| <= t.start + t.length
    requires from != [] ==> v % P == 0 && v / P > t.start / P && index == t.slot + (v / P - t.start / P)
    modifies mem
    ensures mem[..] == DirectWrite(old(mem[..]), pt, P, v, from)
  {
    var rest, k := from, index;
    ghost var w, mem0 := v, mem[..];
    while rest != []
      invariant t.start <= w && w + |rest| == v + |from|
      invariant rest != [] ==> w % P == 0 && w / P > t.start / P && k == t.slot + (w / P - t.start / P)
      invariant DirectWrite(mem0, pt, P, v, from) == DirectWrite(mem[..], pt, P, w, rest)
      decreases |rest|
    {
      var block := if |rest| < P then |rest| else P;
      ChunkAt(pt, P, mem.Length, t, slots, w, block);
      WriteConcat(mem[..], pt, P, w, rest[..block], rest[block..]);
      assert rest == rest[..block] + rest[block..];
      CopyChunk(P, pt, mem, t, slots, slots[k], w, rest[..block]);
      if block == P { PageStep(P, w, block); }
      w, k, rest := w + block, k + 1, rest[block..];
    }
  }

  /** Requests that the copy routines refuse. */
  predicate Refused(t: Table, vaddr: nat, nbytes: nat)
  {
    nbytes > t.length || vaddr < t.start || vaddr - t.start + nbytes > t.length
  }

  /** A table's region spans no more pages than the table has slots, and a valid
      table is current with respect to the process's page table. */
  ghost predicate TableOk(pt: PageTable, P: nat, t: Table, slots: seq<nat>)
    requires P > 0
  {
    && (t.length > 0 ==> t.start > 0 && t.slot + Pages(P, t.start, t.length) <= |slots|)
    && (t.valid ==> Cached(pt, P, t, slots))
  }

  /** A copy needs the region revalidated, and that fails. */
  ghost predicate Stale(pt: PageTable, P: nat, t: Table, nbytes: nat)
    requires P > 0
  {
    nbytes <= t.length && !t.valid && t.length > 0 && !Mapped(pt, P, t.start, t.length)
  }

  /** What a copy request may do to its table t: the region stays, except that a failed
      revalidation leaves length 0; the table stays in order, for the next request too. */
  ghost predicate Kept(pt: PageTable, P: nat, t: Table, t': Table, nbytes: nat, slots: seq<nat>, slots': seq<nat>)
    requires P > 0
  {
    && t'.slot == t.slot
    && (if Stale(pt, P, t, nbytes) then t'.length == 0 else t'.start == t.start && t'.length == t.length)
    && Untouched(P, t.slot, t.start, t.length, slots, slots')
    && TableOk(pt, P, t', slots')
  }

  /** The common head of the two copy routines: checks, and revalidation of a table
      that was invalidated. */
  method Prepare(P: nat, pt: PageTable, ghost size: nat, slots: array<nat>, tables: array<Table>, ti: nat,
                 vaddr: nat, nbytes: nat) returns (ok: bool)
    requires Frames(pt, P, size) && ti < tables.Length && TableOk(pt, P, tables[ti], slots[..])
    modifies slots, tables
    ensures ok <==> old(tables[ti].start <= vaddr && vaddr + nbytes <= tables[ti].start + tables[ti].length
                        && (tables[ti].valid || tables[ti].length == 0 || Mapped(pt, P, tables[ti].start, tables[ti].length)))
    ensures ok ==> tables[ti].valid && Cached(pt, P, tables[ti], slots[..])
    ensures ok ==> tables[ti].start <= vaddr && vaddr + nbytes <= tables[ti].start + tables[ti].length
    ensures Kept(pt, P, old(tables[ti]), tables[ti], nbytes, old(slots[..]), slots[..])
    ensures forall j :: 0 <= j < tables.Length && j != ti ==> tables[j] == old(tables[j])
  {
    var t := tables[ti];
    if t.length < nbytes { return false; }
    if !t.valid {
      ok := Revalidate(P, pt, size, slots, tables, ti, t.start, t.length);
      if !ok { return; }
    }
    ok := !Refused(tables[ti], vaddr, nbytes);
  }

  /** `memcpy3_to_user`: the chunked copy through the slots has the effect of
      copying byte by byte through the page table; a refused request changes no
      memory. */
  method CopyToUser(P: nat, pt: PageTable, mem: array<Byte>, slots: array<nat>, tables: array<Table>, ti: nat,
                    vaddr: nat, from: seq<Byte>) returns (rc: int)
    requires Frames(pt, P, mem.Length) && ti < tables.Length && TableOk(pt, P, tables[ti], slots[..])
    requires mem as object != slots && mem as object != tables
    modifies mem, slots, tables
    ensures rc == if old(tables[ti].start <= vaddr && vaddr + |from| <= tables[ti].start + tables[ti].length
                         && (tables[ti].valid || tables[ti].length == 0 || Mapped(pt, P, tables[ti].start, tables[ti].length)))
                  then 0 else -1
    ensures Kept(pt, P, old(tables[ti]), tables[ti], |from|, old(slots[..]), slots[..])
    ensures forall j :: 0 <= j < tables.Length && j != ti ==> tables[j] == old(tables[j])
    ensures rc == 0 ==> tables[ti].valid
    ensures mem[..] == if rc == 0 then DirectWrite(old(mem[..]), pt, P, vaddr, from) else old(mem[..])
  {
    var ok := Prepare(P, pt, mem.Length, slots, tables, ti, vaddr, |from|);
    if !ok { return -1; }
    rc := 0;
    if from != [] {
      CopyOut(P, pt, mem, slots[..], tables[ti], vaddr, from);
    }
  }

  /** The copy itself: a first chunk up to the end of its page, then whole pages. */
  method CopyOut(P: nat, pt: PageTable, mem: array<Byte>, slots: seq<nat>, t: Table, vaddr: nat, from: seq<Byte>)
    requires Frames(pt, P, mem.Length) && Cached(pt, P, t, slots) && from != []
    requires t.start <= vaddr && vaddr + |from| <= t.start + t.length
    modifies mem
    ensures mem[..] == DirectWrite(old(mem[..]), pt, P, vaddr, from)
  {
    IndexIsPage(pt, P, t, slots, vaddr);
    IndexArithmetic(P, t, vaddr);
    DivBounds(vaddr, P);
    var offset := vaddr - t.start;
    var block := if offset >= t.chunk0 then P - SlotOffset(P, t, offset) else t.chunk0 - offset;
    if |from| < block { block := |from|; }
    var index := t.slot + SlotIndex(P, t, offset);
    WriteConcat(mem[..], pt, P, vaddr, from[..block], from[block..]);
    assert from == from[..block] + from[block..];
    CopyChunk(P, pt, mem, t, slots, slots[index] + SlotOffset(P, t, offset), vaddr, from[..block]);
    if block < |from| { PageStep(P, vaddr, block); }
    CopyPages(P, pt, mem, slots, t, index + 1, vaddr + block, from[block..]);
  }

  /** `memcpy3_from_user`: the bytes delivered are those found byte by byte through
      the page table. */
  method CopyFromUser(P: nat, pt: PageTable, mem: array<Byte>, slots: array<nat>, tables: array<Table>, ti: nat,
                      vaddr: nat, nbytes: nat) returns (rc: int, to: seq<Byte>)
    requires Frames(pt, P, mem.Length) && ti < tables.Length && TableOk(pt, P, tables[ti], slots[..])
    requires mem as object != slots && mem as object != tables
    modifies slots, tables
    ensures rc == if old(tables[ti].start <= vaddr && vaddr + nbytes <= tables[ti].start + tables[ti].length
                         && (tables[ti].valid || tables[ti].length == 0 || Mapped(pt, P, tables[ti].start, tables[ti].length)))
                  then 0 else -1
    ensures Kept(pt, P, old(tables[ti]), tables[ti], nbytes, old(slots[..]), slots[..])
    ensures forall j :: 0 <= j < tables.Length && j != ti ==> tables[j] == old(tables[j])
    ensures to == if rc == 0 then DirectRead(mem[..], pt, P, vaddr, nbytes) else []
  {
    var ok := Prepare(P, pt, mem.Length, slots, tables, ti, vaddr, nbytes);
    if !ok { return -1, []; }
    rc, to := 0, [];
    if nbytes > 0 {
      to := CopyIn(P, pt, mem[..], slots[..], tables[ti], vaddr, nbytes);
    }
  }

  method ReadChunk(P: nat, pt: PageTable, mem: seq<Byte>, ghost t: Table, ghost slots: seq<nat>,
                   at: nat, ghost v: nat, block: nat) returns (bytes: seq<Byte>)
    requires Frames(pt, P, |mem|) && t.length > 0 && Cached(pt, P, t, slots)
    requires t.start <= v < t.start + t.length && v % P + block <= P && at == Phys(pt, P, v)
    ensures bytes == DirectRead(mem, pt, P, v, block)
  {
    ChunkAt(pt, P, |mem|, t, slots, v, block);
    ReadInPage(mem, pt, P, v, block);
    bytes := mem[at..at + block];
  }

  method CopyIn(P: nat, pt: PageTable, mem: seq<Byte>, slots: seq<nat>, t: Table, vaddr: nat, nbytes: nat)
      returns (to: seq<Byte>)
    requires Frames(pt, P, |mem|) && Cached(pt, P, t, slots) && nbytes > 0
    requires t.start <= vaddr && vaddr + nbytes <= t.start + t.length
    ensures to == DirectRead(mem, pt, P, vaddr, nbytes)
  {
    IndexIsPage(pt, P, t, slots, vaddr);
    IndexArithmetic(P, t, vaddr);
    DivBounds(vaddr, P);
    var offset := vaddr - t.start;
    var block := if offset >= t.chunk0 then P - SlotOffset(P, t, offset) else t.chunk0 - offset;
    if nbytes < block { block := nbytes; }
    var index := t.slot + SlotIndex(P, t, offset);
    var first := ReadChunk(P, pt, mem, t, slots, slots[index] + SlotOffset(P, t, offset), vaddr, block);
    ReadConcat(mem, pt, P, vaddr, block, nbytes - block);
    if block < nbytes { PageStep(P, vaddr, block); }
    var rest := CopyInPages(P, pt, mem, slots, t, index + 1, vaddr + block, nbytes - block);
    to := first + rest;
  }

  method CopyInPages(P: nat, pt: PageTable, mem: seq<Byte>, slots: seq<nat>, ghost t: Table, index: nat,
                     ghost v: nat, nbytes: nat) returns (to: seq<Byte>)
    requires Frames(pt, P, |mem|) && t.length > 0 && Cached(pt, P, t, slots)
    requires t.start <= v && v + nbytes <= t.start + t.length
    requires nbytes > 0 ==> v % P == 0 && v / P > t.start / P && index == t.slot + (v / P - t.start / P)
    ensures to == DirectRead(mem, pt, P, v, nbytes)
  {
    var n, k := nbytes, index;
    ghost var w := v;
    to := [];
    while n > 0
      invariant 0 <= n && t.start <= w && w + n == v + nbytes
      invariant n > 0 ==> w % P == 0 && w / P > t.start / P && k == t.slot + (w / P - t.start / P)
      invariant DirectRead(mem, pt, P, v, nbytes) == to + DirectRead(mem, pt, P, w, n)
      decreases n
    {
      var block := if n < P then n else P;
      ChunkAt(pt, P, |mem|, t, slots, w, block);
      var bytes := ReadChunk(P, pt, mem, t, slots, slots[k], w, block);
      ReadConcat(mem, pt, P, w, block, n - block);
      to := to + bytes;
      if block == P { PageStep(P, w, block); }
      w, k, n := w + block, k + 1, n - block;
    }
  }

  lemma {:induction false} CachedMapped(pt: PageTable, P: nat, t: Table, slots: seq<nat>, v: nat, n: nat)
    requires P > 0 && Cached(pt, P, t, slots) && t.start <= v && v + n <= t.start + t.length
    ensures Mapped(pt, P, v, n)
  {
    forall w: nat | v <= w < v + n ensures Phys(pt, P, w) != 0 {
      IndexIsPage(pt, P, t, slots, w);
      var i := SlotIndex(P, t, w - t.start);
      assert slots[t.slot + i] == SlotValue(pt, P, t.start, i);
    }
  }

  /** Two requests in a row: what the first writes, the second reads back. */
  method WriteAndReadBack(P: nat, pt: PageTable, mem: array<Byte>, slots: array<nat>, tables: array<Table>, ti: nat,
                          vaddr: nat, data: seq<Byte>) returns (rc: int, back: seq<Byte>)
    requires Frames(pt, P, mem.Length) && OneToOne(pt) && ti < tables.Length && TableOk(pt, P, tables[ti], slots[..])
    requires mem as object != slots && mem as object != tables
    modifies mem, slots, tables
    ensures rc == if old(tables[ti].start <= vaddr && vaddr + |data| <= tables[ti].start + tables[ti].length
                         && (tables[ti].valid || tables[ti].length == 0 || Mapped(pt, P, tables[ti].start, tables[ti].length)))
                  then 0 else -1
    ensures rc == 0 ==> back == data
  {
    rc := CopyToUser(P, pt, mem, slots, tables, ti, vaddr, data);
    if rc != 0 { return rc, []; }
    CachedMapped(pt, P, tables[ti], slots[..], vaddr, |data|);
    WriteThenRead(old(mem[..]), pt, P, vaddr, data);
    rc, back := CopyFromUser(P, pt, mem, slots, tables, ti, vaddr, |data|);
  }
}
