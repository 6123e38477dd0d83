/**
 The simulated machine's memory and its address translation, through a linear
 page table or a small translation lookaside buffer.
 */
module Translation {
  import opened Words

  const PageSize: int := 128
  const NumPhysPages: int := 64
  const MemorySize: int := NumPhysPages * PageSize
  const TLBSize: int := 4

  datatype TranslationEntry = TranslationEntry(
    virtualPage: uint32, physicalPage: uint32, valid: bool, readOnly: bool, use: bool, dirty: bool)

  datatype Exception = PageFault | ReadOnly | BusError | AddressError

  datatype Result = Ok(physAddr: int) | Fault(e: Exception)

  // ---- translation as a function ----

  predicate Width(size: int) { size == 1 || size == 2 || size == 4 }

  /** An address is an unsigned quantity to the translation, whatever its sign. */
  function Vpn(va: int32): nat { ToWord(va) / PageSize }

  function Offset(va: int32): nat { ToWord(va) % PageSize }

  predicate Misaligned(va: int32, size: int)
    requires Width(size)
  {
    ToWord(va) % size != 0
  }

  function Check(entry: TranslationEntry, offset: nat, writing: bool): Result {
    if entry.readOnly && writing then Fault(ReadOnly)
    else if entry.physicalPage >= NumPhysPages then Fault(BusError)
    else Ok(entry.physicalPage * PageSize + offset)
  }

  /** Translation through a page table. */
  function Walk(table: seq<TranslationEntry>, va: int32, size: int, writing: bool): Result
    requires Width(size)
  {
    if Misaligned(va, size) then Fault(AddressError)
    else if Vpn(va) >= |table| then Fault(AddressError)
    else if !table[Vpn(va)].valid then Fault(PageFault)
    else Check(table[Vpn(va)], Offset(va), writing)
  }

  predicate Hits(tlb: seq<TranslationEntry>, i: int, vpn: nat) {
    0 <= i < |tlb| && tlb[i].valid && tlb[i].virtualPage == vpn
  }

  /** The first valid entry for a page, or -1. */
  function Search(tlb: seq<TranslationEntry>, vpn: nat, from: nat): (i: int)
    requires from <= |tlb|
    ensures i == -1 || (from <= i && Hits(tlb, i, vpn))
    ensures forall j :: from <= j < |tlb| && (i == -1 || j < i) ==> !Hits(tlb, j, vpn)
    decreases |tlb| - from
  {
    if from == |tlb| then -1 else if Hits(tlb, from, vpn) then from else Search(tlb, vpn, from + 1)
  }

  /** Translation through the lookaside buffer. */
  function Lookup(tlb: seq<TranslationEntry>, va: int32, size: int, writing: bool): Result
    requires Width(size)
  {
    if Misaligned(va, size) then Fault(AddressError)
    else
      var i := Search(tlb, Vpn(va), 0);
      if i == -1 then Fault(PageFault) else Check(tlb[i], Offset(va), writing)
  }

  /** A successful translation keeps the whole access inside one frame, and inside memory. */
  lemma AccessInOneFrame(entry: TranslationEntry, va: int32, size: int, writing: bool)
    requires Width(size) && !Misaligned(va, size) && Check(entry, Offset(va), writing).Ok?
    ensures var pa := Check(entry, Offset(va), writing).physAddr;
            && 0 <= pa && pa + size <= MemorySize
            && pa / PageSize == (pa + size - 1) / PageSize == entry.physicalPage
            && Offset(va) + size <= PageSize
  {
    OffsetAligned(ToWord(va), size);
  }

  lemma OffsetAligned(w: uint32, size: int)
    requires Width(size) && w % size == 0
    ensures w % PageSize % size == 0
  {
    var q, o := w / PageSize, w % PageSize;
    if size == 2 {
      assert w == 2 * (q * 64) + o;
    } else if size == 4 {
      assert w == 4 * (q * 32) + o;
    }
  }

  /**
   Each outcome of a translation and exactly when it comes about: the address
   as a whole against the size of the space first, then the entry of its page.
   */
  lemma WalkExact(table: seq<TranslationEntry>, va: int32, size: int, writing: bool)
    requires Width(size)
    ensures var r, w := Walk(table, va, size, writing), ToWord(va);
            var inside := w % size == 0 && w < |table| * PageSize;
            && (r == Fault(AddressError) <==> !inside)
            && (inside ==>
                 var e := table[w / PageSize];
                 && (r == Fault(PageFault) <==> !e.valid)
                 && (r == Fault(ReadOnly) <==> e.valid && e.readOnly && writing)
                 && (r == Fault(BusError) <==> e.valid && !(e.readOnly && writing) && e.physicalPage >= 64)
                 && (r.Ok? ==> r.physAddr / 128 == e.physicalPage && r.physAddr % 128 == w % 128))
  {
    PageInside(ToWord(va), |table|);
  }

  lemma PageInside(w: nat, pages: nat)
    ensures w / PageSize < pages <==> w < pages * PageSize
  {
  }

  /** Every valid entry of the buffer is a copy of a valid page-table entry, up to the use and dirty bits. */
  ghost predicate Caches(tlb: seq<TranslationEntry>, table: seq<TranslationEntry>) {
    forall i :: 0 <= i < |tlb| && tlb[i].valid ==>
      && tlb[i].virtualPage < |table| && table[tlb[i].virtualPage].valid
      && tlb[i].physicalPage == table[tlb[i].virtualPage].physicalPage
      && tlb[i].readOnly == table[tlb[i].virtualPage].readOnly
  }

  /** On every hit the buffer gives what the page table gives; a miss is a page fault. */
  lemma LookasideAgrees(tlb: seq<TranslationEntry>, table: seq<TranslationEntry>, va: int32, size: int, writing: bool)
    requires Width(size) && Caches(tlb, table)
    ensures (exists i :: Hits(tlb, i, Vpn(va))) || Misaligned(va, size)
            ==> Lookup(tlb, va, size, writing) == Walk(table, va, size, writing)
    ensures !(exists i :: Hits(tlb, i, Vpn(va))) && !Misaligned(va, size)
            ==> Lookup(tlb, va, size, writing) == Fault(PageFault)
  {
    var i := Search(tlb, Vpn(va), 0);
    if i != -1 {
      assert Hits(tlb, i, Vpn(va));
    }
  }

  // ---- memory as bytes ----

  /** The low `size` bytes of a value, least significant first. */
  function LowBytes(value: int32, size: int): (bs: seq<byte>)
    requires Width(size)
    ensures |bs| == size
  {
    seq(size, k requires 0 <= k < size => ByteOf(ToWord(value), k))
  }

  /** The value a load of these bytes gives: a single byte is signed, a short is not. */
  function Loaded(bs: seq<byte>): int32
    requires Width(|bs|)
  {
    if |bs| == 1 then (if bs[0] < 0x80 then bs[0] else bs[0] - 0x100)
    else if |bs| == 2 then bs[0] + 0x100 * bs[1]
    else FromWord(Join(bs[0], bs[1], bs[2], bs[3]))
  }

  function Power(size: int): int
    requires Width(size)
  {
    if size == 1 then 0x100 else if size == 2 then 0x1_0000 else 0x1_0000_0000
  }

  /** A value stored and loaded with one width comes back modulo the width: a byte with a sign, a short without. */
  lemma LoadedLowBytes(value: int32, size: int)
    requires Width(size)
    ensures Loaded(LowBytes(value, size)) % Power(size) == value % Power(size)
    ensures size == 4 ==> Loaded(LowBytes(value, size)) == value
    ensures size == 2 ==> Loaded(LowBytes(value, size)) == value % 0x1_0000
    ensures size == 1 ==> -0x80 <= Loaded(LowBytes(value, size)) < 0x80
  {
    var w := ToWord(value);
    if size == 1 {
      LowByte(w, value);
    } else if size == 2 {
      LowShort(w, value);
    } else {
      JoinBytes(w);
    }
  }

  lemma LowByte(w: int, value: int)
    requires value == w || value == w - 0x1_0000_0000
    ensures (w % 0x100) % 0x100 == value % 0x100 && (w % 0x100 - 0x100) % 0x100 == value % 0x100
  {
    var q := w / 0x100;
    assert w == 0x100 * q + w % 0x100 && w - 0x1_0000_0000 == 0x100 * (q - 0x100_0000) + w % 0x100;
  }

  lemma LowShort(w: int, value: int)
    requires value == w || value == w - 0x1_0000_0000
    ensures w % 0x100 + 0x100 * (w / 0x100 % 0x100) == value % 0x1_0000
  {
    var q, r := w / 0x100, w % 0x100;
    var h, l := q / 0x100, q % 0x100;
    assert w == 0x1_0000 * h + (0x100 * l + r);
    Remainder(w, h, 0x100 * l + r);
    Remainder(w - 0x1_0000_0000, h - 0x1_0000, 0x100 * l + r);
  }

  lemma Remainder(x: int, q: int, r: int)
    requires x == 0x1_0000 * q + r && 0 <= r < 0x1_0000
    ensures x % 0x1_0000 == r
  {
  }

  function Patch(mem: seq<byte>, at: int, bs: seq<byte>): (r: seq<byte>)
    requires 0 <= at && at + |bs| <= |mem|
    ensures |r| == |mem|
    ensures forall k :: 0 <= k < |mem| ==> r[k] == if at <= k < at + |bs| then bs[k - at] else mem[k]
  {
    mem[..at] + bs + mem[at + |bs|..]
  }

  /** The entry after an access: used, and dirty after any store. */
  function Touched(entry: TranslationEntry, writing: bool): TranslationEntry {
    entry.(use := true, dirty := entry.dirty || writing)
  }

  /** An entry before and after a call: the one that served it is used, and dirty if it stored; others are as before. */
  predicate Accessed(before: TranslationEntry, serving: bool, writing: bool, after: TranslationEntry) {
    && (after.use <==> before.use || serving)
    && (after.dirty <==> before.dirty || (serving && writing))
    && after == before.(use := after.use, dirty := after.dirty)
  }

  /** After a store, a load of the same width at the same address succeeds and agrees modulo the width. */
  lemma ReadAfterWrite(mem: seq<byte>, table: seq<TranslationEntry>, va: int32, size: int, value: int32)
    requires Width(size) && |mem| == MemorySize && Walk(table, va, size, true).Ok?
    ensures var table' := table[Vpn(va) := Touched(table[Vpn(va)], true)];
            var pa := Walk(table, va, size, true).physAddr;
            && Walk(table', va, size, false) == Ok(pa) && 0 <= pa && pa + size <= MemorySize
            && var bs := Patch(mem, pa, LowBytes(value, size))[pa..pa + size];
            bs == LowBytes(value, size) && Loaded(bs) % Power(size) == value % Power(size)
  {
    AccessInOneFrame(table[Vpn(va)], va, size, true);
    LoadedLowBytes(value, size);
    var pa := Walk(table, va, size, true).physAddr;
    assert Patch(mem, pa, LowBytes(value, size))[pa..pa + size] == LowBytes(value, size);
  }

  // ---- the machine ----

  class Machine {
    const mainMemory: array<byte>
    var tlb: array?<TranslationEntry>
    var pageTable: array?<TranslationEntry>
    var pageTableSize: nat

    /** A machine without a lookaside buffer; the first process to run brings its page table. */
    constructor ()
      ensures fresh(mainMemory) && mainMemory[..] == seq(MemorySize, i => 0) && tlb == null && pageTable == null
    {
      mainMemory := new byte[MemorySize](i => 0);
      tlb, pageTable, pageTableSize := null, null, 0;
    }

    ghost predicate Valid()
      reads this
    {
      && mainMemory.Length == MemorySize
      && (tlb == null || pageTable == null) && (tlb != null || pageTable != null)
      && (tlb != null ==> tlb.Length == TLBSize)
      && (pageTable != null ==> pageTableSize == pageTable.Length)
    }

    /** The entries translation goes by. */
    ghost function Entries(): seq<TranslationEntry>
      requires Valid()
      reads this, tlb, pageTable
    {
      if tlb == null then pageTable[..] else tlb[..]
    }

    ghost function Translated(va: int32, size: int, writing: bool): Result
      requires Valid() && Width(size)
      reads this, tlb, pageTable
    {
      if tlb == null then Walk(pageTable[..], va, size, writing) else Lookup(tlb[..], va, size, writing)
    }

    /** The position of the entry that serves a page. */
    ghost function Serving(va: int32): int
      requires Valid()
      reads this, tlb, pageTable
    {
      if tlb == null then Vpn(va) else Search(tlb[..], Vpn(va), 0)
    }

    /** Translates, and marks the entry used, on success only. */
    method Translate(virtAddr: int32, size: int, writing: bool) returns (r: Result)
      requires Valid() && Width(size)
      modifies tlb, pageTable
      ensures r == old(Translated(virtAddr, size, writing))
      ensures r.Fault? ==> Entries() == old(Entries())
      ensures r.Ok? ==> 0 <= old(Serving(virtAddr)) < |old(Entries())|
      ensures r.Ok? ==>
                var i := old(Serving(virtAddr)); Entries() == old(Entries())[i := Touched(old(Entries())[i], writing)]
      ensures r.Ok? ==> 0 <= r.physAddr && r.physAddr + size <= MemorySize
      ensures forall i :: 0 <= i < |old(Entries())| ==>
                Accessed(old(Entries())[i], r.Ok? && i == old(Serving(virtAddr)), writing, Entries()[i])
    {
      if Misaligned(virtAddr, size) {
        return Fault(AddressError);
      }
      var vpn, offset := Vpn(virtAddr), Offset(virtAddr);
      var table, i;
      if tlb == null {
        if vpn >= pageTableSize {
          return Fault(AddressError);
        } else if !pageTable[vpn].valid {
          return Fault(PageFault);
        }
        table, i := pageTable, vpn;
      } else {
        i := 0;
        while i < TLBSize && !(tlb[i].valid && tlb[i].virtualPage == vpn)
          invariant 0 <= i <= TLBSize
          invariant Search(tlb[..], vpn, 0) == Search(tlb[..], vpn, i)
        {
          i := i + 1;
        }
        if i == TLBSize {
          return Fault(PageFault);
        }
        table := tlb;
      }
      var entry := table[i];
      if entry.readOnly && writing {
        return Fault(ReadOnly);
      }
      if entry.physicalPage >= NumPhysPages {
        return Fault(BusError);
      }
      AccessInOneFrame(entry, virtAddr, size, writing);
      table[i] := entry.(use := true);
      if writing {
        table[i] := table[i].(dirty := true);
      }
      r := Ok(entry.physicalPage * PageSize + offset);
    }

    /** Loads `size` bytes, or reports the exception to raise. */
    method ReadMem(addr: int32, size: int) returns (r: Result, value: int32)
      requires Valid() && Width(size)
      modifies tlb, pageTable
      ensures r == old(Translated(addr, size, false))
      ensures r.Ok? ==> 0 <= r.physAddr && r.physAddr + size <= MemorySize
      ensures r.Fault? ==> Entries() == old(Entries())
      ensures r.Ok? ==> 0 <= old(Serving(addr)) < |old(Entries())|
      ensures r.Ok? ==> var i := old(Serving(addr)); Entries() == old(Entries())[i := Touched(old(Entries())[i], false)]
      ensures forall i :: 0 <= i < |old(Entries())| ==>
                Accessed(old(Entries())[i], r.Ok? && i == old(Serving(addr)), false, Entries()[i])
      ensures r.Ok? ==> value == Loaded(mainMemory[r.physAddr..r.physAddr + size])
    {
      value := 0;
      r := Translate(addr, size, false);
      if r.Ok? {
        var pa := r.physAddr;
        var low: int := mainMemory[pa];
        if size == 1 {
          value := if low < 0x80 then low else low - 0x100;
        } else if size == 2 {
          value := low + 0x100 * mainMemory[pa + 1] as int;
        } else {
          value := FromWord(Join(mainMemory[pa], mainMemory[pa + 1], mainMemory[pa + 2], mainMemory[pa + 3]));
        }
      }
    }

    /** Stores the low `size` bytes of a value, or changes no byte and reports the exception to raise. */
    method WriteMem(addr: int32, size: int, value: int32) returns (r: Result)
      requires Valid() && Width(size)
      modifies tlb, pageTable, mainMemory
      ensures r == old(Translated(addr, size, true))
      ensures r.Fault? ==> mainMemory[..] == old(mainMemory[..]) && Entries() == old(Entries())
      ensures r.Ok? ==> 0 <= old(Serving(addr)) < |old(Entries())|
      ensures r.Ok? ==> var i := old(Serving(addr)); Entries() == old(Entries())[i := Touched(old(Entries())[i], true)]
      ensures r.Ok? ==> 0 <= r.physAddr && r.physAddr + size <= MemorySize
      ensures forall i :: 0 <= i < |old(Entries())| ==>
                Accessed(old(Entries())[i], r.Ok? && i == old(Serving(addr)), true, Entries()[i])
      ensures r.Ok? ==> mainMemory[..] == Patch(old(mainMemory[..]), r.physAddr, LowBytes(value, size))
    {
      r := Translate(addr, size, true);
      if r.Ok? {
        var pa, w := r.physAddr, ToWord(value);
        mainMemory[pa] := ByteOf(w, 0);
        if size >= 2 {
          mainMemory[pa + 1] := ByteOf(w, 1);
        }
        if size == 4 {
          mainMemory[pa + 2] := ByteOf(w, 2);
          mainMemory[pa + 3] := ByteOf(w, 3);
        }
      }
    }
  }
}
