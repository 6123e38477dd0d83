/**
 Address spaces: the frame allocator, the program loader, the copy made by a
 fork, and the release of frames.
 */
module AddrSpaces {
  import opened Words
  import opened BitMaps
  import opened Sequences
  import opened Translation
  import FileHeaders

  const UserStackSize: int := 1024
  const NoffMagic: int := 0xbadfad
  const NoffSize: int := 40

  // ---- frames and virtual images ----

  type Table = seq<TranslationEntry>

  function Frames(table: Table): (fs: seq<int>)
    ensures |fs| == |table|
  {
    seq(|table|, i requires 0 <= i < |table| => table[i].physicalPage as int)
  }

  /** A page table as the kernel sets it up: every page valid, writable, in a frame of its own. */
  ghost predicate Sound(table: Table) {
    && Distinct(Frames(table))
    && forall i :: 0 <= i < |table| ==> table[i].valid && !table[i].readOnly && table[i].physicalPage < NumPhysPages
  }

  /** Where byte `k` of the address space lies in memory. */
  function Phys(table: Table, k: nat): int
    requires k < |table| * PageSize
  {
    table[k / PageSize].physicalPage * PageSize + k % PageSize
  }

  lemma PhysBounds(table: Table, k: nat)
    requires Sound(table) && k < |table| * PageSize
    ensures 0 <= Phys(table, k) < MemorySize
    ensures Phys(table, k) / PageSize == Frames(table)[k / PageSize] && Phys(table, k) % PageSize == k % PageSize
  {
  }

  /** What the program sees: the bytes of its pages in order. */
  ghost function Image(mem: seq<byte>, table: Table): (image: seq<byte>)
    requires |mem| == MemorySize && Sound(table)
    ensures |image| == |table| * PageSize
  {
    seq(|table| * PageSize, k requires 0 <= k < |table| * PageSize => (PhysBounds(table, k); mem[Phys(table, k)]))
  }

  lemma PhysInjective(table: Table, j: nat, k: nat)
    requires Sound(table) && j < |table| * PageSize && k < |table| * PageSize && Phys(table, j) == Phys(table, k)
    ensures j == k
  {
    PhysBounds(table, j);
    PhysBounds(table, k);
  }

  /** Changing one byte of an address space changes that byte of its image and no other. */
  lemma ImageUpdate(mem: seq<byte>, table: Table, k: nat, b: byte)
    requires |mem| == MemorySize && Sound(table) && k < |table| * PageSize
    ensures 0 <= Phys(table, k) < MemorySize
    ensures Image(mem[Phys(table, k) := b], table) == Image(mem, table)[k := b]
  {
    PhysBounds(table, k);
    var mem' := mem[Phys(table, k) := b];
    forall j | 0 <= j < |table| * PageSize ensures Image(mem', table)[j] == Image(mem, table)[k := b][j] {
      PhysBounds(table, j);
      if Phys(table, j) == Phys(table, k) {
        PhysInjective(table, j, k);
      }
    }
  }

  /** An image depends on the bytes of its own frames only. */
  lemma ImageFrame(mem: seq<byte>, mem': seq<byte>, table: Table)
    requires |mem| == |mem'| == MemorySize && Sound(table)
    requires forall p :: 0 <= p < MemorySize && p / PageSize in Frames(table) ==> mem'[p] == mem[p]
    ensures Image(mem', table) == Image(mem, table)
  {
    forall j | 0 <= j < |table| * PageSize ensures Image(mem', table)[j] == Image(mem, table)[j] {
      PhysBounds(table, j);
      assert Frames(table)[j / PageSize] in Frames(table);
    }
  }

  /** Nothing outside the given frames has changed. */
  ghost predicate OnlyFrames(mem: seq<byte>, mem': seq<byte>, frames: seq<int>) {
    |mem'| == |mem| && forall p :: 0 <= p < |mem| && p / PageSize !in frames ==> mem'[p] == mem[p]
  }

  lemma NothingChanged(mem: seq<byte>, frames: seq<int>)
    ensures OnlyFrames(mem, mem, frames)
  {
  }

  // ---- executables ----

  datatype Segment = Segment(virtualAddr: int32, inFileAddr: int32, size: int32)

  datatype NoffHeader = NoffHeader(magic: int32, code: Segment, initData: Segment, uninitData: Segment)

  function SegmentAt(ws: seq<uint32>, i: nat): Segment
    requires i + 3 <= |ws|
  {
    Segment(FromWord(ws[i]), FromWord(ws[i + 1]), FromWord(ws[i + 2]))
  }

  function HeaderOfWords(ws: seq<uint32>): NoffHeader
    requires |ws| == 10
  {
    NoffHeader(FromWord(ws[0]), SegmentAt(ws, 1), SegmentAt(ws, 4), SegmentAt(ws, 7))
  }

  /** The header read from the front of a file into storage that held `residue`. */
  function HeaderOf(file: seq<byte>, residue: seq<byte>): NoffHeader
    requires |residue| == NoffSize
  {
    HeaderOfWords(DecodeWords(if |file| >= NoffSize then file[..NoffSize] else file + residue[|file|..], 10))
  }

  /** Pages for the segments and the stack, in unsigned 32-bit arithmetic. */
  function PagesFor(h: NoffHeader): nat {
    var size := (h.code.size + h.initData.size + h.uninitData.size + UserStackSize) % 0x1_0000_0000;
    FileHeaders.DivRoundUp(size, PageSize)
  }

  /** So many pages cover the three segments and a stack of 1024 bytes, and no whole page is left over. */
  predicate Covered(h: NoffHeader, pages: int) {
    var size := h.code.size + h.initData.size + h.uninitData.size + 1024;
    && (pages - 1) * PageSize < size % 0x1_0000_0000 <= pages * PageSize
    && (h.code.size >= 0 && h.initData.size >= 0 && h.uninitData.size >= 0 && size < 0x1_0000_0000
        ==> (pages - 1) * PageSize < size <= pages * PageSize)
  }

  /** The loader asks for the only number of pages that does. */
  lemma PagesCover(h: NoffHeader)
    ensures Covered(h, PagesFor(h))
    ensures forall n :: Covered(h, n) ==> n == PagesFor(h)
  {
    hide FileHeaders.DivRoundUp;
    FileHeaders.RoundUpCovers((h.code.size + h.initData.size + h.uninitData.size + UserStackSize) % 0x1_0000_0000);
  }

  function SegmentWords(s: Segment): seq<uint32> { [ToWord(s.virtualAddr), ToWord(s.inFileAddr), ToWord(s.size)] }

  /** The ten words of a header in the order of the format. */
  function NoffWords(h: NoffHeader): (ws: seq<uint32>)
    ensures |ws| == 10
  {
    [ToWord(h.magic)] + SegmentWords(h.code) + SegmentWords(h.initData) + SegmentWords(h.uninitData)
  }

  lemma WordsReadBack(h: NoffHeader)
    ensures HeaderOfWords(NoffWords(h)) == h
  {
  }

  /** A file that starts with the words of a header is read as having that header. */
  lemma HeaderReadBack(h: NoffHeader, rest: seq<byte>, residue: seq<byte>)
    requires |residue| == NoffSize
    ensures HeaderOf(EncodeWords(NoffWords(h)) + rest, residue) == h
  {
    var ws := NoffWords(h);
    WordsReadBack(h);
    DecodeEncode(ws);
    hide EncodeWords, DecodeWords, NoffWords, HeaderOfWords;
    assert (EncodeWords(ws) + rest)[..NoffSize] == EncodeWords(ws);
  }

  predicate SegmentFits(s: Segment, pages: nat) {
    s.size > 0 ==> 0 <= s.virtualAddr && s.virtualAddr + s.size <= pages * PageSize && 0 <= s.inFileAddr
  }

  predicate SegmentsFit(h: NoffHeader) {
    SegmentFits(h.code, PagesFor(h)) && SegmentFits(h.initData, PagesFor(h))
  }

  predicate Covers(s: Segment, file: seq<byte>, k: int) {
    s.size > 0 && s.virtualAddr <= k < s.virtualAddr + s.size && 0 <= s.inFileAddr + (k - s.virtualAddr) < |file|
  }

  /** An image with a segment of the file laid over it; a byte the file is too short for is left alone. */
  function Overlay(image: seq<byte>, file: seq<byte>, s: Segment): (r: seq<byte>)
    ensures |r| == |image|
  {
    seq(|image|, k requires 0 <= k < |image| =>
        if Covers(s, file, k) then file[s.inFileAddr + (k - s.virtualAddr)] else image[k])
  }

  /** The image of a freshly loaded program: data bytes, else code bytes, else zero. */
  function Flat(h: NoffHeader, file: seq<byte>): (r: seq<byte>)
    ensures |r| == PagesFor(h) * PageSize
  {
    seq(PagesFor(h) * PageSize, k requires 0 <= k < PagesFor(h) * PageSize =>
        if Covers(h.initData, file, k) then file[h.initData.inFileAddr + (k - h.initData.virtualAddr)]
        else if Covers(h.code, file, k) then file[h.code.inFileAddr + (k - h.code.virtualAddr)]
        else 0)
  }

  lemma FlatOverlays(h: NoffHeader, file: seq<byte>)
    ensures Overlay(Overlay(seq(PagesFor(h) * PageSize, k => 0), file, h.code), file, h.initData) == Flat(h, file)
  {
  }

  /** Byte `j` of the initialised data, and of the code where the data does not cover it, is at its own address. */
  lemma FlatPlaces(h: NoffHeader, file: seq<byte>, j: nat)
    ensures var d, k := h.initData, h.initData.virtualAddr + j;
            j < d.size && 0 <= k < |Flat(h, file)| && 0 <= d.inFileAddr + j < |file|
            ==> Flat(h, file)[k] == file[d.inFileAddr + j]
    ensures var d, c, k := h.initData, h.code, h.code.virtualAddr + j;
            && j < c.size && 0 <= k < |Flat(h, file)| && 0 <= c.inFileAddr + j < |file|
            && !(d.virtualAddr <= k < d.virtualAddr + d.size)
            ==> Flat(h, file)[k] == file[c.inFileAddr + j]
    ensures var d, c := h.initData, h.code;
            && j < |Flat(h, file)|
            && !(d.virtualAddr <= j < d.virtualAddr + d.size) && !(c.virtualAddr <= j < c.virtualAddr + c.size)
            ==> Flat(h, file)[j] == 0
  {
    hide PagesFor;
  }

  // ---- the frame allocator ----

  class MemoryManager {
    const bitmap: BitMap

    ghost predicate Valid()
      reads this, bitmap
    {
      bitmap.Valid() && bitmap.numBits == NumPhysPages
    }

    ghost function Bits(): (bits: seq<bool>)
      requires Valid()
      reads this, bitmap, bitmap.words
      ensures |bits| == NumPhysPages
    {
      bitmap.Bits()
    }

    /** The free map has storage of its own. */
    ghost predicate Apart(o: object) {
      o != bitmap.words
    }

    constructor ()
      ensures Valid() && fresh(bitmap) && fresh(bitmap.words)
      ensures Bits() == seq(NumPhysPages, i => false)
    {
      bitmap := new BitMap(NumPhysPages);
    }

    method AllocatePage() returns (r: int)
      requires Valid()
      modifies bitmap.words
      ensures Valid() && -1 <= r < NumPhysPages && (r == -1 <==> |ClearSet(old(Bits()))| == 0)
      ensures r == -1 ==> Bits() == old(Bits())
      ensures r >= 0 ==> !old(Bits())[r] && Bits() == old(Bits())[r := true]
      ensures r >= 0 ==> |ClearSet(Bits())| == |ClearSet(old(Bits()))| - 1
    {
      r := bitmap.Find();
    }

    /** Frees a frame, or refuses one that is not in use. */
    method DeallocatePage(which: nat) returns (r: int)
      requires Valid() && which < NumPhysPages
      modifies bitmap.words
      ensures Valid() && r == (if old(Bits())[which] then 0 else -1)
      ensures Bits() == old(Bits())[which := false]
    {
      var used := bitmap.Test(which);
      if !used {
        return -1;
      }
      bitmap.Clear(which);
      return 0;
    }

    method GetFreePageCount() returns (n: nat)
      requires Valid()
      ensures n == |ClearSet(Bits())|
    {
      n := bitmap.NumClear();
    }
  }

  // ---- whole pages ----

  function PageOf(mem: seq<byte>, f: int): seq<byte>
    requires |mem| == MemorySize && 0 <= f < NumPhysPages
  {
    mem[f * PageSize..(f + 1) * PageSize]
  }

  method ZeroPage(memory: array<byte>, frame: nat)
    requires memory.Length == MemorySize && frame < NumPhysPages
    modifies memory
    ensures OnlyFrames(old(memory[..]), memory[..], [frame])
    ensures ZeroFrames(memory[..], [frame])
  {
    for j := 0 to PageSize
      invariant forall p :: 0 <= p < MemorySize ==>
        memory[p] == if frame * PageSize <= p < frame * PageSize + j then 0 else old(memory[p])
    {
      memory[frame * PageSize + j] := 0;
    }
  }

  /** Allocates a frame and fills it with zeros. */
  method ZeroedPage(memory: array<byte>, mm: MemoryManager) returns (f: nat)
    requires mm.Valid() && mm.Apart(memory) && memory.Length == MemorySize && |ClearSet(mm.Bits())| > 0
    modifies memory, mm.bitmap.words
    ensures mm.Valid() && f < NumPhysPages && !old(mm.Bits())[f] && mm.Bits() == old(mm.Bits())[f := true]
    ensures |ClearSet(mm.Bits())| == |ClearSet(old(mm.Bits()))| - 1
    ensures OnlyFrames(old(memory[..]), memory[..], [f]) && ZeroFrames(memory[..], [f])
  {
    f := mm.AllocatePage();
    ZeroPage(memory, f);
  }

  method CopyPage(memory: array<byte>, from: nat, to: nat)
    requires memory.Length == MemorySize && from < NumPhysPages && to < NumPhysPages && from != to
    modifies memory
    ensures OnlyFrames(old(memory[..]), memory[..], [to])
    ensures PageOf(memory[..], to) == PageOf(old(memory[..]), from)
  {
    for j := 0 to PageSize
      invariant forall p :: 0 <= p < MemorySize ==>
        memory[p] == if to * PageSize <= p < to * PageSize + j
                     then old(memory[p - to * PageSize + from * PageSize]) else old(memory[p])
    {
      memory[to * PageSize + j] := memory[from * PageSize + j];
    }
  }

  /** Allocates a frame and copies a page that is in use into it. */
  method CopiedPage(memory: array<byte>, mm: MemoryManager, from: nat) returns (f: nat)
    requires mm.Valid() && mm.Apart(memory) && memory.Length == MemorySize && |ClearSet(mm.Bits())| > 0
    requires from < NumPhysPages && mm.Bits()[from]
    modifies memory, mm.bitmap.words
    ensures mm.Valid() && f < NumPhysPages && !old(mm.Bits())[f] && mm.Bits() == old(mm.Bits())[f := true]
    ensures |ClearSet(mm.Bits())| == |ClearSet(old(mm.Bits()))| - 1
    ensures OnlyFrames(old(memory[..]), memory[..], [f]) && PageOf(memory[..], f) == PageOf(old(memory[..]), from)
  {
    f := mm.AllocatePage();
    CopyPage(memory, from, f);
  }

  // ---- address spaces ----

  lemma OverlayOneMore(image: seq<byte>, file: seq<byte>, s: Segment, c: int32)
    requires 0 <= c && c + 1 < 0x8000_0000 && 0 <= s.virtualAddr && s.virtualAddr + c < |image| && 0 <= s.inFileAddr
    ensures var now, next := Overlay(image, file, s.(size := c)), Overlay(image, file, s.(size := c + 1));
            next == if s.inFileAddr + c < |file| then now[s.virtualAddr + c := file[s.inFileAddr + c]] else now
  {
  }

  lemma OverlayNothing(image: seq<byte>, file: seq<byte>, s: Segment)
    requires s.size <= 0
    ensures Overlay(image, file, s) == image
  {
  }

  /** One byte of `ReadFile`'s loop. */
  lemma LoadByte(mem0: seq<byte>, mem: seq<byte>, table: Table, file: seq<byte>, s: Segment, c: int32)
    requires |mem0| == |mem| == MemorySize && Sound(table) && SegmentFits(s, |table|) && 0 <= c < s.size
    requires Image(mem, table) == Overlay(Image(mem0, table), file, s.(size := c))
    requires OnlyFrames(mem0, mem, Frames(table)) && s.inFileAddr + c < |file|
    ensures 0 <= Phys(table, s.virtualAddr + c) < MemorySize
    ensures var mem' := mem[Phys(table, s.virtualAddr + c) := file[s.inFileAddr + c]];
            && Image(mem', table) == Overlay(Image(mem0, table), file, s.(size := c + 1))
            && OnlyFrames(mem0, mem', Frames(table))
  {
    var k := s.virtualAddr + c;
    OverlayOneMore(Image(mem0, table), file, s, c);
    ImageUpdate(mem, table, k, file[s.inFileAddr + c]);
    PhysBounds(table, k);
    hide Image, Overlay, Phys;
    assert Frames(table)[k / PageSize] in Frames(table);
  }

  /** A page as the loader sets it up. */
  predicate LoadedEntry(e: TranslationEntry, i: int) {
    e.virtualPage == i && e.valid && !e.readOnly && !e.use && !e.dirty && e.physicalPage < NumPhysPages
  }

  ghost predicate ZeroFrames(mem: seq<byte>, frames: seq<int>) {
    forall p :: 0 <= p < |mem| && p / PageSize in frames ==> mem[p] == 0
  }

  lemma OneMoreFrame(mem0: seq<byte>, mem1: seq<byte>, mem2: seq<byte>, frames: seq<int>, f: int)
    requires OnlyFrames(mem0, mem1, frames) && OnlyFrames(mem1, mem2, [f])
    ensures OnlyFrames(mem0, mem2, frames + [f])
    ensures ZeroFrames(mem1, frames) && ZeroFrames(mem2, [f]) ==> ZeroFrames(mem2, frames + [f])
  {
    forall p | 0 <= p < |mem0| && p / PageSize !in frames + [f] ensures mem2[p] == mem0[p] {
    }
    if ZeroFrames(mem1, frames) && ZeroFrames(mem2, [f]) {
      forall p | 0 <= p < |mem2| && p / PageSize in frames + [f] ensures mem2[p] == 0 {
        if p / PageSize == f {
          assert p / PageSize in [f];
        } else {
          assert p / PageSize in frames;
        }
      }
    }
  }

  lemma FramesSnoc(table: Table, e: TranslationEntry)
    ensures Frames(table + [e]) == Frames(table) + [e.physicalPage as int]
  {
  }

  /** Pages in distinct, zeroed frames make an image of zeros. */
  lemma ZeroImage(mem: seq<byte>, table: Table)
    requires |mem| == MemorySize && Sound(table) && ZeroFrames(mem, Frames(table))
    ensures Image(mem, table) == seq(|table| * PageSize, k => 0)
  {
    forall k | 0 <= k < |table| * PageSize ensures Image(mem, table)[k] == 0 {
      PhysBounds(table, k);
      assert Frames(table)[k / PageSize] in Frames(table);
    }
  }

  /** The frames of a table are those newly taken from the map. */
  ghost predicate Claims(bits: seq<bool>, table: Table, bits': seq<bool>) {
    FileHeaders.Takes(bits, Frames(table), bits') && |ClearSet(bits')| + |table| == |ClearSet(bits)|
  }

  lemma ClaimOneMore(bits: seq<bool>, table: Table, bits': seq<bool>, e: TranslationEntry)
    requires Claims(bits, table, bits') && e.physicalPage < |bits'| && !bits'[e.physicalPage]
    ensures Claims(bits, table + [e], bits'[e.physicalPage := true])
  {
    FramesSnoc(table, e);
    FileHeaders.TakesOneMore(bits, Frames(table), bits', e.physicalPage);
    MarkedCount(bits', e.physicalPage);
  }

  /** What the loader's loop has done once it has set up the pages of `table`. */
  ghost predicate ZeroedPages(bits0: seq<bool>, mem0: seq<byte>, table: Table, bits: seq<bool>, mem: seq<byte>) {
    Claims(bits0, table, bits) && OnlyFrames(mem0, mem, Frames(table)) && ZeroFrames(mem, Frames(table))
  }

  /** One page of the loader's loop. */
  lemma OneMorePage(bits0: seq<bool>, mem0: seq<byte>, table: Table, bits: seq<bool>, mem: seq<byte>,
                    e: TranslationEntry, mem': seq<byte>)
    requires ZeroedPages(bits0, mem0, table, bits, mem)
    requires e.physicalPage < |bits| && !bits[e.physicalPage]
    requires OnlyFrames(mem, mem', [e.physicalPage as int]) && ZeroFrames(mem', [e.physicalPage as int])
    ensures ZeroedPages(bits0, mem0, table + [e], bits[e.physicalPage := true], mem')
  {
    ClaimOneMore(bits0, table, bits, e);
    FramesSnoc(table, e);
    OneMoreFrame(mem0, mem, mem', Frames(table), e.physicalPage);
  }

  const BlankEntry: TranslationEntry := TranslationEntry(0, 0, false, false, false, false)

  /** Freshly claimed frames make a sound table. */
  lemma LoadedSound(bits: seq<bool>, table: Table, bits': seq<bool>)
    requires Claims(bits, table, bits') && |bits| == NumPhysPages
    requires forall i :: 0 <= i < |table| ==> LoadedEntry(table[i], i)
    ensures Sound(table)
  {
  }

  lemma OnlyFramesTwice(mem0: seq<byte>, mem1: seq<byte>, mem2: seq<byte>, frames: seq<int>)
    requires OnlyFrames(mem0, mem1, frames) && OnlyFrames(mem1, mem2, frames)
    ensures OnlyFrames(mem0, mem2, frames)
  {
  }

  /** What loading an executable does: new frames, the flat image in them, and nothing else. */
  ghost predicate Loads(bits: seq<bool>, mem: seq<byte>, h: NoffHeader, file: seq<byte>,
                        table: Table, bits': seq<bool>, mem': seq<byte>) {
    && |mem| == |mem'| == MemorySize && Sound(table)
    && (forall i :: 0 <= i < |table| ==> LoadedEntry(table[i], i))
    && Claims(bits, table, bits') && OnlyFrames(mem, mem', Frames(table))
    && Image(mem', table) == Flat(h, file)
  }

  lemma PagesReady(bits0: seq<bool>, mem0: seq<byte>, table: Table, bits: seq<bool>, mem: seq<byte>)
    requires ZeroedPages(bits0, mem0, table, bits, mem) && |bits0| == NumPhysPages && |mem| == MemorySize
    requires forall i :: 0 <= i < |table| ==> LoadedEntry(table[i], i)
    ensures Sound(table) && Image(mem, table) == seq(|table| * PageSize, k => 0)
    ensures Claims(bits0, table, bits) && OnlyFrames(mem0, mem, Frames(table))
  {
    LoadedSound(bits0, table, bits);
    ZeroImage(mem, table);
  }

  lemma LoadDone(bits0: seq<bool>, mem0: seq<byte>, h: NoffHeader, file: seq<byte>, table: Table, bits: seq<bool>,
                 mem1: seq<byte>, mem2: seq<byte>, mem3: seq<byte>)
    requires |mem0| == |mem1| == |mem2| == |mem3| == MemorySize && Sound(table) && |table| == PagesFor(h)
    requires forall i :: 0 <= i < |table| ==> LoadedEntry(table[i], i)
    requires Claims(bits0, table, bits) && OnlyFrames(mem0, mem1, Frames(table))
    requires OnlyFrames(mem1, mem2, Frames(table)) && OnlyFrames(mem2, mem3, Frames(table))
    requires Image(mem1, table) == seq(|table| * PageSize, k => 0)
    requires Image(mem2, table) == Overlay(Image(mem1, table), file, h.code)
    requires Image(mem3, table) == Overlay(Image(mem2, table), file, h.initData)
    ensures Loads(bits0, mem0, h, file, table, bits, mem3)
  {
    FlatOverlays(h, file);
    OnlyFramesTwice(mem0, mem1, mem2, Frames(table));
    OnlyFramesTwice(mem0, mem2, mem3, Frames(table));
  }

  // ---- copying ----

  /** The pages of `table` hold what the first pages of `parent` held. */
  ghost predicate CopiedPages(mem0: seq<byte>, parent: Table, mem: seq<byte>, table: Table) {
    && |mem0| == |mem| == MemorySize && |table| <= |parent|
    && forall j :: 0 <= j < |table| ==>
         && parent[j].physicalPage < NumPhysPages && table[j].physicalPage < NumPhysPages
         && PageOf(mem, table[j].physicalPage) == PageOf(mem0, parent[j].physicalPage)
  }

  ghost predicate Copying(bits0: seq<bool>, mem0: seq<byte>, parent: Table, table: Table, bits: seq<bool>,
                          mem: seq<byte>) {
    && Claims(bits0, table, bits) && OnlyFrames(mem0, mem, Frames(table)) && CopiedPages(mem0, parent, mem, table)
    && forall i :: 0 <= i < |table| ==> CopiedEntry(table[i], parent[i])
  }

  /** A child entry: the parent's, in another frame. */
  predicate CopiedEntry(child: TranslationEntry, parent: TranslationEntry) {
    child == parent.(physicalPage := child.physicalPage)
  }

  lemma SamePage(mem: seq<byte>, mem': seq<byte>, frames: seq<int>, f: int)
    requires |mem| == MemorySize && OnlyFrames(mem, mem', frames) && 0 <= f < NumPhysPages && f !in frames
    ensures PageOf(mem', f) == PageOf(mem, f)
  {
    forall p | f * PageSize <= p < (f + 1) * PageSize ensures mem'[p] == mem[p] {
      assert p / PageSize == f;
    }
  }

  /** The frames of a sound table are all in use. */
  ghost predicate Owned(bits: seq<bool>, table: Table) {
    |bits| == NumPhysPages && Sound(table) && forall f :: f in Frames(table) ==> bits[f]
  }

  /** A parent's frame stays marked while its copy is being made. */
  lemma Marked(bits0: seq<bool>, mem0: seq<byte>, parent: Table, table: Table, bits: seq<bool>, mem: seq<byte>, i: nat)
    requires Copying(bits0, mem0, parent, table, bits, mem) && Owned(bits0, parent) && i < |parent|
    ensures parent[i].physicalPage < |bits| == NumPhysPages && bits[parent[i].physicalPage]
    ensures |ClearSet(bits)| + |table| == |ClearSet(bits0)|
  {
    assert Frames(parent)[i] in Frames(parent);
  }

  /** One page of the copy constructor's loop. */
  lemma OneMoreCopy(bits0: seq<bool>, mem0: seq<byte>, parent: Table, table: Table, bits: seq<bool>, mem: seq<byte>,
                    e: TranslationEntry, mem': seq<byte>)
    requires Copying(bits0, mem0, parent, table, bits, mem) && Owned(bits0, parent) && |table| < |parent|
    requires e.physicalPage < |bits| == NumPhysPages && !bits[e.physicalPage] && CopiedEntry(e, parent[|table|])
    requires OnlyFrames(mem, mem', [e.physicalPage as int])
    requires PageOf(mem', e.physicalPage) == PageOf(mem, parent[|table|].physicalPage)
    ensures Copying(bits0, mem0, parent, table + [e], bits[e.physicalPage := true], mem')
  {
    ClaimOneMore(bits0, table, bits, e);
    FramesSnoc(table, e);
    OneMoreFrame(mem0, mem, mem', Frames(table), e.physicalPage);
    assert Frames(parent)[|table|] in Frames(parent);
    SamePage(mem0, mem, Frames(table), parent[|table|].physicalPage);
    forall j | 0 <= j < |table| ensures PageOf(mem', table[j].physicalPage) == PageOf(mem0, parent[j].physicalPage) {
      assert Frames(table)[j] in Frames(table);
      SamePage(mem, mem', [e.physicalPage as int], table[j].physicalPage);
    }
  }

  /** Equal pages make equal images. */
  lemma CopiedImage(mem0: seq<byte>, parent: Table, mem: seq<byte>, table: Table)
    requires CopiedPages(mem0, parent, mem, table) && |table| == |parent| && Sound(parent) && Sound(table)
    ensures Image(mem, table) == Image(mem0, parent)
  {
    forall k | 0 <= k < |table| * PageSize ensures Image(mem, table)[k] == Image(mem0, parent)[k] {
      var j, o := k / PageSize, k % PageSize;
      PhysBounds(table, k);
      PhysBounds(parent, k);
      assert PageOf(mem, table[j].physicalPage)[o] == PageOf(mem0, parent[j].physicalPage)[o];
    }
  }

  /** What copying an address space does: new frames with the parent's bytes, and nothing else. */
  ghost predicate Copies(bits: seq<bool>, mem: seq<byte>, parent: Table, table: Table, bits': seq<bool>,
                         mem': seq<byte>) {
    && |mem| == |mem'| == MemorySize && Sound(parent) && Sound(table) && |table| == |parent|
    && (forall i :: 0 <= i < |table| ==> CopiedEntry(table[i], parent[i]))
    && Claims(bits, table, bits') && OnlyFrames(mem, mem', Frames(table))
    && Image(mem', table) == Image(mem, parent)
  }

  lemma CopyDone(bits: seq<bool>, mem: seq<byte>, parent: Table, table: Table, bits': seq<bool>, mem': seq<byte>)
    requires Copying(bits, mem, parent, table, bits', mem') && Sound(parent) && |table| == |parent|
    requires |bits| == NumPhysPages
    ensures Copies(bits, mem, parent, table, bits', mem')
  {
    assert Sound(table);
    CopiedImage(mem, parent, mem', table);
  }

  /** Releasing the frames of a table. */
  ghost predicate Releases(bits: seq<bool>, frames: seq<int>, bits': seq<bool>) {
    |bits'| == |bits| && forall f :: 0 <= f < |bits| ==> (bits'[f] <==> bits[f] && f !in frames)
  }

  /** One page of the copy constructor's loop. */
  method CopiedOne(memory: array<byte>, mm: MemoryManager, p: TranslationEntry,
                   ghost bits0: seq<bool>, ghost mem0: seq<byte>, ghost parent: Table, ghost done: Table)
    returns (e: TranslationEntry)
    requires mm.Valid() && mm.Apart(memory) && memory.Length == MemorySize
    requires Copying(bits0, mem0, parent, done, mm.Bits(), memory[..]) && Owned(bits0, parent)
    requires |done| < |parent| <= |ClearSet(bits0)| && p == parent[|done|]
    modifies memory, mm.bitmap.words
    ensures mm.Valid() && Copying(bits0, mem0, parent, done + [e], mm.Bits(), memory[..])
  {
    ghost var bits, mem := mm.Bits(), memory[..];
    Marked(bits0, mem0, parent, done, bits, mem, |done|);
    hide Copying, Owned, OnlyFrames;
    var f := CopiedPage(memory, mm, p.physicalPage);
    e := p.(physicalPage := f);
    OneMoreCopy(bits0, mem0, parent, done, bits, mem, e, memory[..]);
  }

  /** One page of the loader's loop. */
  method ZeroedOne(memory: array<byte>, mm: MemoryManager, i: nat,
                   ghost bits0: seq<bool>, ghost mem0: seq<byte>, ghost done: Table)
    returns (e: TranslationEntry)
    requires mm.Valid() && mm.Apart(memory) && memory.Length == MemorySize
    requires ZeroedPages(bits0, mem0, done, mm.Bits(), memory[..]) && i < NumPhysPages && |ClearSet(mm.Bits())| > 0
    modifies memory, mm.bitmap.words
    ensures mm.Valid() && LoadedEntry(e, i) && ZeroedPages(bits0, mem0, done + [e], mm.Bits(), memory[..])
    ensures |ClearSet(mm.Bits())| == |ClearSet(old(mm.Bits()))| - 1
  {
    ghost var bits, mem := mm.Bits(), memory[..];
    hide ZeroedPages, OnlyFrames, ZeroFrames;
    var f := ZeroedPage(memory, mm);
    e := TranslationEntry(i, f, true, false, false, false);
    OneMorePage(bits0, mem0, done, bits, mem, e, memory[..]);
  }

  class AddrSpace {
    var pageTable: array<TranslationEntry>
    var numPages: nat
    var valid: bool

    ghost predicate Ready()
      reads this, pageTable
    {
      numPages == pageTable.Length && Sound(pageTable[..])
    }

    function Translate(virtualAddr: nat): (pa: int)
      requires virtualAddr < pageTable.Length * PageSize
      reads this, pageTable
      ensures pa == Phys(pageTable[..], virtualAddr)
    {
      pageTable[virtualAddr / PageSize].physicalPage * PageSize + virtualAddr % PageSize
    }

    /** Copies part of a file into the address space, a byte at a time. */
    method ReadFile(memory: array<byte>, file: seq<byte>, offset: int32, virtualAddr: int32, size: int32)
      requires Ready() && memory.Length == MemorySize
      requires SegmentFits(Segment(virtualAddr, offset, size), pageTable.Length)
      modifies memory
      ensures Image(memory[..], pageTable[..])
           == Overlay(Image(old(memory[..]), pageTable[..]), file, Segment(virtualAddr, offset, size))
      ensures OnlyFrames(old(memory[..]), memory[..], Frames(pageTable[..]))
    {
      ghost var mem0, table := memory[..], pageTable[..];
      ghost var s := Segment(virtualAddr, offset, size);
      OverlayNothing(Image(mem0, table), file, s.(size := 0));
      var counter := 0;
      hide Image, Overlay, OnlyFrames, Sound;
      assert OnlyFrames(mem0, mem0, Frames(table)) by { NothingChanged(mem0, Frames(table)); }
      while counter < size
        invariant 0 <= counter && (counter <= size || size <= 0 == counter)
        invariant Image(memory[..], table) == Overlay(Image(mem0, table), file, s.(size := counter))
        invariant OnlyFrames(mem0, memory[..], Frames(table))
      {
        if offset + counter < |file| {
          ghost var before := memory[..];
          LoadByte(mem0, before, table, file, s, counter);
          var pa := Translate(virtualAddr + counter);
          memory[pa] := file[offset + counter];
          assert memory[..] == before[pa := file[offset + counter]];
        } else {
          OverlayOneMore(Image(mem0, table), file, s, counter);
        }
        counter := counter + 1;
      }
      if size <= 0 {
        OverlayNothing(Image(mem0, table), file, s);
      }
    }

    /**
     Loads a program.  Refused, with nothing changed, unless the file starts with
     the magic number and enough frames are free.  The segments of an executable
     are taken to lie inside the space its sizes ask for.
     */
    constructor Load(file: seq<byte>, residue: seq<byte>, memory: array<byte>, mm: MemoryManager)
      requires mm.Valid() && mm.Apart(memory) && memory.Length == MemorySize && |residue| == NoffSize
      requires HeaderOf(file, residue).magic == NoffMagic ==> SegmentsFit(HeaderOf(file, residue))
      modifies memory, mm.bitmap.words
      ensures mm.Valid() && fresh(pageTable)
      ensures valid <==> HeaderOf(file, residue).magic == NoffMagic
                         && PagesFor(HeaderOf(file, residue)) <= |ClearSet(old(mm.Bits()))|
      ensures !valid ==> memory[..] == old(memory[..]) && mm.Bits() == old(mm.Bits())
      ensures valid ==> Ready() && numPages == PagesFor(HeaderOf(file, residue))
      ensures valid ==> Covered(HeaderOf(file, residue), numPages)
      ensures valid ==> Loads(old(mm.Bits()), old(memory[..]), HeaderOf(file, residue), file,
                              pageTable[..], mm.Bits(), memory[..])
    {
      pageTable := new TranslationEntry[0];
      numPages := 0;
      valid := false;
      new;
      var h := HeaderOf(file, residue);
      if h.magic == NoffMagic {
        var free := mm.GetFreePageCount();
        if PagesFor(h) <= free {
          PagesCover(h);
          Fill(file, h, memory, mm);
          valid := true;
        }
      }
    }

    /** The loader, once it has decided to go ahead. */
    method Fill(file: seq<byte>, h: NoffHeader, memory: array<byte>, mm: MemoryManager)
      requires mm.Valid() && mm.Apart(memory) && memory.Length == MemorySize
      requires PagesFor(h) <= |ClearSet(mm.Bits())| && SegmentsFit(h)
      modifies this, memory, mm.bitmap.words
      ensures mm.Valid() && fresh(pageTable) && Ready() && numPages == PagesFor(h)
      ensures Loads(old(mm.Bits()), old(memory[..]), h, file, pageTable[..], mm.Bits(), memory[..])
    {
      ghost var bits0, mem0 := mm.Bits(), memory[..];
      SetUpPages(memory, mm, PagesFor(h));
      ghost var table, bits, mem1 := pageTable[..], mm.Bits(), memory[..];
      PagesReady(bits0, mem0, table, bits, mem1);
      hide Sound, OnlyFrames, ZeroedPages, Image, Overlay, Flat, Claims, Loads;
      LoadSegment(memory, file, h.code);
      ghost var mem2 := memory[..];
      LoadSegment(memory, file, h.initData);
      LoadDone(bits0, mem0, h, file, table, bits, mem1, mem2, memory[..]);
      assert mm.Bits() == bits;
    }

    method LoadSegment(memory: array<byte>, file: seq<byte>, s: Segment)
      requires Ready() && memory.Length == MemorySize && SegmentFits(s, pageTable.Length)
      modifies memory
      ensures Image(memory[..], pageTable[..]) == Overlay(Image(old(memory[..]), pageTable[..]), file, s)
      ensures OnlyFrames(old(memory[..]), memory[..], Frames(pageTable[..]))
    {
      if s.size > 0 {
        ReadFile(memory, file, s.inFileAddr, s.virtualAddr, s.size);
      } else {
        OverlayNothing(Image(memory[..], pageTable[..]), file, s);
      }
    }

    /** A copy of an address space in frames of its own; not valid, with nothing changed, when too few are free. */
    constructor Copy(space: AddrSpace, memory: array<byte>, mm: MemoryManager)
      requires mm.Valid() && mm.Apart(memory) && memory.Length == MemorySize && space.Ready()
      requires mm.Apart(space.pageTable) && Owned(mm.Bits(), space.pageTable[..])
      modifies memory, mm.bitmap.words
      ensures mm.Valid() && fresh(pageTable) && valid == (space.numPages <= |ClearSet(old(mm.Bits()))|)
      ensures !valid ==> memory[..] == old(memory[..]) && mm.Bits() == old(mm.Bits())
      ensures valid ==> Ready() && numPages == space.numPages
      ensures valid ==>
                Copies(old(mm.Bits()), old(memory[..]), space.pageTable[..], pageTable[..], mm.Bits(), memory[..])
    {
      var n := space.numPages;
      var free := mm.GetFreePageCount();
      if n > free {
        valid := false;
        numPages := 0;
        pageTable := new TranslationEntry[0];
      } else {
        valid := true;
        numPages := n;
        var table := space.CopyPages(memory, mm);
        pageTable := table;
      }
    }

    /** The copy constructor's loop, on the space that is copied. */
    method CopyPages(memory: array<byte>, mm: MemoryManager) returns (table: array<TranslationEntry>)
      requires mm.Valid() && mm.Apart(memory) && memory.Length == MemorySize && Ready()
      requires mm.Apart(pageTable) && numPages <= |ClearSet(mm.Bits())|
      requires Owned(mm.Bits(), pageTable[..])
      modifies memory, mm.bitmap.words
      ensures mm.Valid() && fresh(table)
      ensures Copies(old(mm.Bits()), old(memory[..]), pageTable[..], table[..], mm.Bits(), memory[..])
    {
      var n := numPages;
      table := new TranslationEntry[n](i => BlankEntry);
      ghost var bits0, mem0, parent := mm.Bits(), memory[..], pageTable[..];
      NothingCopied(bits0, mem0, parent);
      hide Copying, Sound, OnlyFrames, Copies, Owned;
      for i := 0 to n
        invariant mm.Valid() && Copying(bits0, mem0, parent, table[..i], mm.Bits(), memory[..])
      {
        ghost var done := table[..i];
        var e := CopiedOne(memory, mm, pageTable[i], bits0, mem0, parent, done);
        ghost var bits, mem := mm.Bits(), memory[..];
        table[i] := e;
        assert table[..i + 1] == done + [e];
        assert mm.Bits() == bits && memory[..] == mem;
      }
      assert table[..n] == table[..];
      CopyDone(bits0, mem0, parent, table[..], mm.Bits(), memory[..]);
    }

    /** Tells the machine where to find the page table of the space about to run. */
    method RestoreState(machine: Machine)
      requires machine.mainMemory.Length == MemorySize && machine.tlb == null && numPages == pageTable.Length
      modifies machine
      ensures machine.Valid() && machine.tlb == null && machine.pageTable == pageTable
              && machine.Entries() == pageTable[..]
    {
      machine.pageTable := pageTable;
      machine.pageTableSize := numPages;
    }

    /** Returns every frame; the allocator never refuses one. */
    method Destroy(mm: MemoryManager)
      requires mm.Valid() && Ready() && mm.Apart(pageTable)
      requires Owned(mm.Bits(), pageTable[..])
      modifies mm.bitmap.words
      ensures mm.Valid() && Releases(old(mm.Bits()), Frames(pageTable[..]), mm.Bits())
      ensures |ClearSet(mm.Bits())| == |ClearSet(old(mm.Bits()))| + numPages
    {
      ghost var bits0, frames := mm.Bits(), Frames(pageTable[..]);
      for i := 0 to numPages
        invariant mm.Valid() && Releases(bits0, frames[..i], mm.Bits())
        invariant |ClearSet(mm.Bits())| == |ClearSet(bits0)| + i
      {
        ghost var bits := mm.Bits();
        var f := pageTable[i].physicalPage;
        assert f == frames[i] && frames[i] in frames && frames[i] !in frames[..i];
        ClearedCount(bits, f);
        var r := mm.DeallocatePage(f);
        assert r == 0;
        assert frames[..i + 1] == frames[..i] + [f as int];
      }
      assert frames[..numPages] == frames;
    }

    /** Gives each page a frame of its own, filled with zeros. */
    method SetUpPages(memory: array<byte>, mm: MemoryManager, n: nat)
      requires mm.Valid() && mm.Apart(memory) && memory.Length == MemorySize && n <= |ClearSet(mm.Bits())|
      modifies this, memory, mm.bitmap.words
      ensures mm.Valid() && fresh(pageTable) && numPages == n == pageTable.Length && valid == old(valid)
      ensures forall i :: 0 <= i < n ==> LoadedEntry(pageTable[i], i)
      ensures ZeroedPages(old(mm.Bits()), old(memory[..]), pageTable[..], mm.Bits(), memory[..])
    {
      ghost var bits0, mem0 := mm.Bits(), memory[..];
      numPages := n;
      var table := new TranslationEntry[n](i => BlankEntry);
      MarkedPlusClear(bits0);
      NothingYet(bits0, mem0);
      hide ZeroedPages, OnlyFrames, ZeroFrames;
      for i := 0 to n
        invariant mm.Valid() && numPages == n && valid == old(valid)
        invariant forall j :: 0 <= j < i ==> LoadedEntry(table[j], j)
        invariant ZeroedPages(bits0, mem0, table[..i], mm.Bits(), memory[..])
        invariant |ClearSet(mm.Bits())| + i == |ClearSet(bits0)|
      {
        ghost var done := table[..i];
        var e := ZeroedOne(memory, mm, i, bits0, mem0, done);
        ghost var bits, mem := mm.Bits(), memory[..];
        table[i] := e;
        assert table[..i + 1] == done + [e];
        assert mm.Bits() == bits && memory[..] == mem;
      }
      assert table[..n] == table[..];
      pageTable := table;
    }
  }

  lemma NothingCopied(bits: seq<bool>, mem: seq<byte>, parent: Table)
    requires |mem| == MemorySize
    ensures Copying(bits, mem, parent, [], bits, mem)
  {
  }

  lemma NothingYet(bits: seq<bool>, mem: seq<byte>)
    ensures ZeroedPages(bits, mem, [], bits, mem)
  {
  }
}