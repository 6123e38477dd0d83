/**
 The simulated disk as an array of sectors, and the file header (i-node) kept
 in one sector: the file length, the number of data sectors, and a fixed table
 of data-sector numbers.
 */
module FileHeaders {
  import opened Words
  import opened BitMaps
  import opened Sequences
  import Disks

  const SectorSize := 128
  const NumSectors := Disks.NumSectors
  const NumDirect := (SectorSize - 2 * 4) / 4
  const MaxFileSize := NumDirect * SectorSize

  type Sector = s: seq<byte> | |s| == SectorSize witness seq(SectorSize, i => 0)
  const BlankSector: Sector := seq(SectorSize, i => 0)
  type DiskImage = d: seq<Sector> | |d| == NumSectors
    witness seq<Sector>(NumSectors, i => BlankSector)

  /**
   The disk seen through the synchronous interface: a request returns once the
   sector has been transferred.  That this is a sound view of the interrupt
   driven device is the subject of module DiskRequests.
   */
  class SynchDisk {
    var image: DiskImage

    constructor (contents: DiskImage)
      ensures image == contents
    {
      image := contents;
    }

    method ReadSector(sectorNumber: int) returns (data: Sector)
      requires 0 <= sectorNumber < NumSectors
      ensures data == image[sectorNumber]
    {
      data := image[sectorNumber];
    }

    method WriteSector(sectorNumber: int, data: Sector)
      requires 0 <= sectorNumber < NumSectors
      modifies this
      ensures image == old(image)[sectorNumber := data]
    {
      image := image[sectorNumber := data];
    }
  }

  // ---- the header as a value ----

  type SectorTable = t: seq<int32> | |t| == NumDirect witness seq(NumDirect, i => 0)

  datatype Header = Header(numBytes: int32, numSectors: int32, dataSectors: SectorTable)
  {
    /** The length a reader sees: a negative size behaves as an empty file. */
    function Length(): nat {
      if numBytes < 0 then 0 else numBytes
    }

    /** The data sectors in use. */
    function Blocks(): seq<int32>
      requires numSectors <= NumDirect
    {
      if numSectors < 0 then [] else dataSectors[..numSectors]
    }

    predicate WellFormed() {
      && numSectors == DivRoundUp(numBytes, SectorSize)
      && numSectors <= NumDirect
      && forall b :: b in Blocks() ==> 0 <= b < NumSectors
    }
  }

  /** C division truncates toward zero. */
  function DivRoundUp(n: int, s: int): int
    requires 0 < s
  {
    if n >= 0 then n / s + (if n % s > 0 then 1 else 0)
    else -((-n) / s)
  }

  /** Sectors, or pages, enough for so many bytes, with no whole one left over. */
  lemma RoundUpCovers(size: nat)
    ensures (DivRoundUp(size, SectorSize) - 1) * SectorSize < size <= DivRoundUp(size, SectorSize) * SectorSize
  {
  }

  function HeaderWords(h: Header): (ws: seq<uint32>)
    ensures |ws| == SectorSize / 4
  {
    [ToWord(h.numBytes), ToWord(h.numSectors)]
    + seq(NumDirect, i requires 0 <= i < NumDirect => ToWord(h.dataSectors[i]))
  }

  function EncodeHeader(h: Header): Sector {
    EncodeWords(HeaderWords(h))
  }

  function HeaderOfWords(ws: seq<uint32>): Header
    requires |ws| == SectorSize / 4
  {
    Header(FromWord(ws[0]), FromWord(ws[1]), seq(NumDirect, i requires 0 <= i < NumDirect => FromWord(ws[i + 2])))
  }

  function DecodeHeader(s: Sector): Header {
    HeaderOfWords(DecodeWords(s, SectorSize / 4))
  }

  lemma HeaderWordsInverse(h: Header)
    ensures HeaderOfWords(HeaderWords(h)) == h
  {
    assert HeaderOfWords(HeaderWords(h)).dataSectors == h.dataSectors;
  }

  lemma HeaderLayout(h: Header)
    ensures var ws := HeaderWords(h);
            && ws[0] == ToWord(h.numBytes) && ws[1] == ToWord(h.numSectors)
            && forall i :: 0 <= i < NumDirect ==> ws[i + 2] == ToWord(h.dataSectors[i])
  {
  }

  /** A header lies in its sector as its length, its number of sectors and their table, and is read back unchanged. */
  lemma HeaderRoundTrip(h: Header)
    ensures DecodeHeader(EncodeHeader(h)) == h
    ensures var ws := DecodeWords(EncodeHeader(h), SectorSize / 4);
            && ws[0] == ToWord(h.numBytes) && ws[1] == ToWord(h.numSectors)
            && forall i :: 0 <= i < NumDirect ==> ws[i + 2] == ToWord(h.dataSectors[i])
  {
    DecodeEncode(HeaderWords(h));
    HeaderWordsInverse(h);
    HeaderLayout(h);
    hide EncodeWords, DecodeWords, HeaderWords, HeaderOfWords;
  }

  // ---- files as byte sequences ----

  /** The bytes of the file that `h` describes. */
  function Contents(image: DiskImage, h: Header): (data: seq<byte>)
    requires h.WellFormed()
    ensures |data| == h.Length()
  {
    seq(h.Length(), k requires 0 <= k < h.Length() => ByteAt(image, h, k))
  }

  function ByteAt(image: DiskImage, h: Header, k: nat): byte
    requires h.WellFormed() && k < h.Length()
  {
    assert h.Blocks()[k / SectorSize] in h.Blocks();
    image[h.dataSectors[k / SectorSize]][k % SectorSize]
  }

  /** The bytes of a file depend on its own data sectors only. */
  lemma ContentsFrame(image: DiskImage, image': DiskImage, h: Header)
    requires h.WellFormed()
    requires forall b :: b in h.Blocks() ==> image'[b] == image[b]
    ensures Contents(image', h) == Contents(image, h)
  {
    forall k | 0 <= k < h.Length()
      ensures Contents(image', h)[k] == Contents(image, h)[k]
    {
      assert h.Blocks()[k / SectorSize] in h.Blocks();
    }
  }

  // ---- the header object ----

  /** `after` is `before` with the distinct, previously clear `blocks` marked. */
  ghost predicate Takes(before: seq<bool>, blocks: seq<int>, after: seq<bool>) {
    && |before| == |after|
    && Distinct(blocks)
    && (forall b :: b in blocks ==> 0 <= b < |before| && !before[b])
    && (forall b :: 0 <= b < |before| ==> (after[b] <==> before[b] || b in blocks))
  }

  lemma TakesNothing(bits: seq<bool>)
    ensures Takes(bits, [], bits)
  {
  }

  lemma PrefixUpdate<T>(s: seq<T>, i: nat, x: T)
    requires i < |s|
    ensures s[i := x][..i + 1] == s[..i] + [x]
  {
  }

  lemma TakesOneMore(before: seq<bool>, blocks: seq<int>, bits: seq<bool>, b: int)
    requires Takes(before, blocks, bits)
    requires 0 <= b < |bits| && !bits[b]
    ensures Takes(before, blocks + [b], bits[b := true])
  {
    assert b !in blocks;
  }

  /** `after` is `before` with the `blocks` clear. */
  ghost predicate Returned(before: seq<bool>, blocks: seq<int>, after: seq<bool>) {
    |after| == |before| && forall b :: 0 <= b < |before| ==> (after[b] <==> before[b] && b !in blocks)
  }

  lemma ReturnedAll(before: seq<bool>, blocks: seq<int>, after: seq<bool>)
    requires Returned(before, blocks, after)
    ensures |after| == |before| && forall b :: 0 <= b < |before| ==> (after[b] <==> before[b] && b !in blocks)
  {
  }

  lemma ReturnOneMore(before: seq<bool>, blocks: seq<int>, bits: seq<bool>, i: nat)
    requires i < |blocks| && Distinct(blocks) && Returned(before, blocks[..i], bits)
    requires forall b :: b in blocks ==> 0 <= b < |before| && before[b]
    ensures 0 <= blocks[i] < |bits| && bits[blocks[i]]
    ensures Returned(before, blocks[..i + 1], bits[blocks[i] := false])
  {
    assert blocks[i] in blocks && blocks[i] !in blocks[..i];
    assert blocks[..i + 1] == blocks[..i] + [blocks[i]];
  }

  class FileHeader {
    var numBytes: int32
    var numSectors: int32
    var dataSectors: SectorTable

    ghost function Data(): Header
      reads this
    {
      Header(numBytes, numSectors, dataSectors)
    }

    /** An uninitialised header holds whatever its storage held. */
    constructor ()
    {
      numBytes, numSectors, dataSectors := *, *, *;
    }

    /**
     Takes data sectors for a new file out of the free map.  The table has
     NumDirect slots and the code does not check that the file fits: a caller
     keeps to MaxFileSize, or asks for more than is free and is refused.
     */
    method Allocate(freeMap: BitMap, fileSize: int32) returns (ok: bool)
      requires freeMap.Valid() && freeMap.numBits == NumSectors
      requires DivRoundUp(fileSize, SectorSize) <= NumDirect
               || |ClearSet(freeMap.Bits())| < DivRoundUp(fileSize, SectorSize)
      modifies this, freeMap.words
      ensures ok == (DivRoundUp(fileSize, SectorSize) <= |ClearSet(old(freeMap.Bits()))|)
      ensures !ok ==> freeMap.Bits() == old(freeMap.Bits())
      ensures ok ==> Data().WellFormed() && numBytes == fileSize
      ensures ok && fileSize >= 0 ==> (numSectors - 1) * SectorSize < fileSize <= numSectors * SectorSize
      ensures ok ==> Takes(old(freeMap.Bits()), Data().Blocks(), freeMap.Bits())
      ensures ok ==> |ClearSet(freeMap.Bits())| + |Data().Blocks()| == |ClearSet(old(freeMap.Bits()))|
    {
      numBytes := fileSize;
      numSectors := DivRoundUp(fileSize, SectorSize);
      var free := freeMap.NumClear();
      if free < numSectors {
        return false;
      }
      TakeSectors(freeMap);
      return true;
    }

    /** Gives each data sector the lowest free one. */
    method TakeSectors(freeMap: BitMap)
      requires freeMap.Valid() && freeMap.numBits == NumSectors
      requires numSectors <= NumDirect && numSectors <= |ClearSet(freeMap.Bits())|
      modifies this`dataSectors, freeMap.words
      ensures Takes(old(freeMap.Bits()), Data().Blocks(), freeMap.Bits())
      ensures |ClearSet(freeMap.Bits())| + |Data().Blocks()| == |ClearSet(old(freeMap.Bits()))|
    {
      ghost var before := freeMap.Bits();
      hide Takes;
      assert Takes(before, dataSectors[..0], before) by { TakesNothing(before); }
      var i := 0;
      while i < numSectors
        invariant i == 0 || 0 <= i <= numSectors
        invariant Takes(before, dataSectors[..i], freeMap.Bits())
        invariant |ClearSet(freeMap.Bits())| + i == |ClearSet(before)|
      {
        ghost var bits, taken := freeMap.Bits(), dataSectors[..i];
        var b := freeMap.Find();
        TakesOneMore(before, taken, bits, b);
        PrefixUpdate(dataSectors, i, b);
        dataSectors := dataSectors[i := b];
        i := i + 1;
      }
    }

    /** Returns every data sector to the free map. */
    method Deallocate(freeMap: BitMap)
      requires freeMap.Valid() && freeMap.numBits == NumSectors
      requires Data().WellFormed() && Distinct(Data().Blocks())
      requires forall b :: b in Data().Blocks() ==> freeMap.Bits()[b]
      modifies freeMap.words
      ensures forall b :: 0 <= b < NumSectors ==>
                (freeMap.Bits()[b] <==> old(freeMap.Bits())[b] && b !in Data().Blocks())
      ensures |ClearSet(freeMap.Bits())| == |ClearSet(old(freeMap.Bits()))| + |Data().Blocks()|
    {
      ghost var before, blocks := freeMap.Bits(), Data().Blocks();
      assert Returned(before, blocks[..0], before);
      var i := 0;
      hide Returned;
      while i < numSectors
        invariant 0 <= i <= |blocks|
        invariant Returned(before, blocks[..i], freeMap.Bits())
        invariant |ClearSet(freeMap.Bits())| == |ClearSet(before)| + i
      {
        ghost var bits := freeMap.Bits();
        ReturnOneMore(before, blocks, bits, i);
        var marked := freeMap.Test(dataSectors[i]);
        assert marked;  // ought to be marked
        ClearedCount(bits, dataSectors[i]);
        freeMap.Clear(dataSectors[i]);
        i := i + 1;
      }
      assert blocks[..i] == blocks;
      ReturnedAll(before, blocks, freeMap.Bits());
    }

    method FetchFrom(disk: SynchDisk, sector: int)
      requires 0 <= sector < NumSectors
      modifies this
      ensures Data() == DecodeHeader(disk.image[sector])
    {
      var data := disk.ReadSector(sector);
      var h := DecodeHeader(data);
      numBytes, numSectors, dataSectors := h.numBytes, h.numSectors, h.dataSectors;
    }

    method WriteBack(disk: SynchDisk, sector: int)
      requires 0 <= sector < NumSectors
      modifies disk
      ensures disk.image == old(disk.image)[sector := EncodeHeader(Data())]
    {
      disk.WriteSector(sector, EncodeHeader(Header(numBytes, numSectors, dataSectors)));
    }

    /** The disk sector that stores byte `offset` of the file. */
    function ByteToSector(offset: nat): int32
      requires offset / SectorSize < NumDirect
      reads this
    {
      dataSectors[offset / SectorSize]
    }
  }
}
