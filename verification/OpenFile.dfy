/**
 Byte-granular reading and writing of an open file.  The disk transfers whole
 sectors, so a request is served through a sector-aligned buffer.
 */
module OpenFiles {
  import opened Words
  import opened Sequences
  import opened FileHeaders

  /**
   `n` bytes are what a request of `numBytes` at `position` transfers: all it
   asks for, or all there is up to the end of the file, and never nothing while
   there is something.
   */
  predicate Transfers(length: int, numBytes: int, position: int, n: int) {
    if numBytes > 0 && position < length
    then 0 < n <= numBytes && position + n <= length && (n == numBytes || position + n == length)
    else n == 0
  }

  /** The number of bytes a request of `numBytes` at `position` transfers. */
  function Clip(length: int, numBytes: int, position: int): (n: nat)
    ensures Transfers(length, numBytes, position, n)
  {
    if numBytes <= 0 || position >= length then 0
    else if position + numBytes > length then length - position
    else numBytes
  }

  /** `data` with the bytes from `position` on replaced by `bytes`. */
  function Splice(data: seq<byte>, position: nat, bytes: seq<byte>): (r: seq<byte>)
    requires position + |bytes| <= |data|
    ensures |r| == |data|
  {
    data[..position] + bytes + data[position + |bytes|..]
  }

  /** The sectors `first..last` of a file, laid out contiguously. */
  ghost predicate Holds(buf: seq<byte>, image: DiskImage, h: Header, first: nat, n: nat)
    requires h.WellFormed() && first + n <= |h.Blocks()|
  {
    && SectorSize * n <= |buf|
    && forall k :: 0 <= k < SectorSize * n ==>
         buf[k] == image[SectorAt(h, first + k / SectorSize)][k % SectorSize]
  }

  function SectorAt(h: Header, i: nat): (b: int)
    requires h.WellFormed() && i < |h.Blocks()|
    ensures 0 <= b < NumSectors
  {
    assert h.Blocks()[i] in h.Blocks();
    h.Blocks()[i]
  }

  /** The sectors spanned by a non-empty request lie within the file. */
  lemma SpanFacts(h: Header, position: nat, n: nat)
    requires h.WellFormed() && 0 < n && position + n <= h.Length()
    ensures var first, last := position / SectorSize, (position + n - 1) / SectorSize;
            && first <= last < |h.Blocks()|
            && first * SectorSize <= position < (first + 1) * SectorSize
            && last * SectorSize < position + n <= (last + 1) * SectorSize
  {
  }

  class OpenFile {
    const disk: SynchDisk
    const hdr: FileHeader
    var seekPosition: int

    ghost predicate Valid()
      reads this, hdr
    {
      hdr.Data().WellFormed() && Distinct(hdr.Data().Blocks())
    }

    /** Opens the file whose header is in `sector`. */
    constructor (d: SynchDisk, sector: int)
      requires 0 <= sector < NumSectors
      ensures disk == d && fresh(hdr) && seekPosition == 0
      ensures hdr.Data() == DecodeHeader(d.image[sector])
    {
      disk := d;
      hdr := new FileHeader();
      seekPosition := 0;
      new;
      hdr.FetchFrom(d, sector);
    }

    /** Reads sectors `first..first+n` of the file into a fresh buffer. */
    method LoadSectors(first: nat, n: nat) returns (buf: array<byte>)
      requires Valid() && first + n <= |hdr.Data().Blocks()|
      ensures fresh(buf) && buf.Length == n * SectorSize
      ensures Holds(buf[..], disk.image, hdr.Data(), first, n)
    {
      ghost var h := hdr.Data();
      buf := new byte[n * SectorSize];
      for i := 0 to n
        invariant Holds(buf[..], disk.image, h, first, i)
      {
        assert hdr.ByteToSector((first + i) * SectorSize) == SectorAt(h, first + i);
        var data := disk.ReadSector(hdr.ByteToSector((first + i) * SectorSize));
        CopySector(data, buf, i * SectorSize);
      }
    }

    /** Copies bytes of the file to `into[at..]` and returns how many. */
    method ReadAt(into: array<byte>, at: nat, numBytes: int32, position: int32) returns (n: int)
      requires Valid() && 0 <= position && position + numBytes < 0x8000_0000
      requires at + Clip(hdr.numBytes, numBytes, position) <= into.Length
      modifies into
      ensures n == Clip(hdr.numBytes, numBytes, position) && Transfers(hdr.numBytes, numBytes, position, n)
      ensures n > 0 ==> into[at..at + n] == Contents(disk.image, hdr.Data())[position..position + n]
      ensures into[..at] == old(into[..at]) && into[at + n..] == old(into[at + n..])
    {
      var fileLength := hdr.numBytes;
      if numBytes <= 0 || position >= fileLength {
        return 0;
      }
      n := numBytes;
      if position + numBytes > fileLength {
        n := fileLength - position;
      }
      CopyOut(into, at, n, position);
    }

    /** The part of `ReadAt` that reads, once the length is clipped. */
    method CopyOut(into: array<byte>, at: nat, n: int32, position: int32)
      requires Valid() && 0 <= position && 0 < n && position + n <= hdr.numBytes && at + n <= into.Length
      modifies into
      ensures into[at..at + n] == Contents(disk.image, hdr.Data())[position..position + n]
      ensures into[..at] == old(into[..at]) && into[at + n..] == old(into[at + n..])
    {
      var firstSector := position / SectorSize;
      var lastSector := (position + n - 1) / SectorSize;
      var numSectors := 1 + lastSector - firstSector;
      SpanFacts(hdr.Data(), position, n);
      hide Contents, Holds;
      var buf := LoadSectors(firstSector, numSectors);
      BufferedSlice(buf[..], disk.image, hdr.Data(), firstSector, numSectors, position, n);
      var skip := position - firstSector * SectorSize;
      ghost var slice := buf[skip..skip + n];
      assert slice == buf[..][skip..skip + n];
      Bcopy(buf, skip, into, at, n);
    }

    /**
     Prepares the buffer of a write: the partially overwritten first and last
     sectors are read in.  Bytes past the end of the file stay arbitrary.
     */
    method FillEdges(buf: array<byte>, position: int32, n: int32)
      requires Valid() && 0 <= position && 0 < n && position + n <= hdr.numBytes
      requires buf.Length == (1 + (position + n - 1) / SectorSize - position / SectorSize) * SectorSize
      modifies buf
      ensures EdgesReady(buf[..], Contents(disk.image, hdr.Data()), position / SectorSize * SectorSize, position, n)
    {
      SpanFacts(hdr.Data(), position, n);
      hide Contents, EdgesReady, FirstReady;
      var firstSector := position / SectorSize;
      var lastSector := (position + n - 1) / SectorSize;
      var firstAligned := position == firstSector * SectorSize;
      var lastAligned := position + n == (lastSector + 1) * SectorSize;
      var base := firstSector * SectorSize;
      var at := (lastSector - firstSector) * SectorSize;
      FillFirst(buf, base, position);
      if !lastAligned && (firstSector != lastSector || firstAligned) {
        FillLast(buf, base, at, position, n);
      } else {
        NoLastEdge(buf[..], Contents(disk.image, hdr.Data()), base, at, position, n);
      }
    }

    /** Reads the first sector in, unless the request overwrites it from its start. */
    method FillFirst(buf: array<byte>, base: nat, position: int32)
      requires Valid() && base <= position < hdr.numBytes && SectorSize <= buf.Length
      modifies buf
      ensures FirstReady(buf[..], Contents(disk.image, hdr.Data()), base, position)
    {
      hide Contents;
      if position != base {
        var got := ReadAt(buf, 0, SectorSize, base);
        assert buf[..][0..got] == buf[0..got];
        FirstEdge(buf[..], Contents(disk.image, hdr.Data()), base, position, got);
      }
    }

    /** Reads the last sector in, behind the first. */
    method FillLast(buf: array<byte>, base: nat, at: nat, position: int32, n: int32)
      requires Valid() && 0 < n && position + n <= hdr.numBytes && buf.Length == at + SectorSize
      requires base <= position < base + SectorSize && base + at < position + n
      requires position == base || at >= SectorSize
      requires FirstReady(buf[..], Contents(disk.image, hdr.Data()), base, position)
      modifies buf
      ensures EdgesReady(buf[..], Contents(disk.image, hdr.Data()), base, position, n)
    {
      hide Contents, FirstReady, EdgesReady;
      ghost var before := buf[..];
      var got := ReadAt(buf, at, SectorSize, base + at);
      assert buf[..][..at] == before[..at] && buf[..][at..at + got] == buf[at..at + got];
      LastEdge(before, buf[..], Contents(disk.image, hdr.Data()), base, at, position, n, got);
    }

    /** Writes the buffer to sectors `first..first+n` of the file. */
    method StoreSectors(buf: array<byte>, first: nat, n: nat)
      requires Valid() && first + n <= |hdr.Data().Blocks()| && buf.Length == n * SectorSize
      modifies disk
      ensures Holds(buf[..], disk.image, hdr.Data(), first, n)
      ensures SameOutside(old(disk.image), disk.image, hdr.Data(), first, n)
    {
      ghost var h, before := hdr.Data(), disk.image;
      for i := 0 to n
        invariant Holds(buf[..], disk.image, h, first, i)
        invariant SameOutside(before, disk.image, h, first, i)
      {
        assert hdr.ByteToSector((first + i) * SectorSize) == SectorAt(h, first + i);
        ghost var image := disk.image;
        disk.WriteSector(hdr.ByteToSector((first + i) * SectorSize), buf[i * SectorSize..(i + 1) * SectorSize]);
        StoredOneMore(buf[..], before, image, disk.image, h, first, i);
      }
    }

    /**
     Replaces the bytes of the file from `position` on, as many of the first
     `numBytes` bytes of `from` as the file has room for.
     */
    method WriteAt(from: array<byte>, numBytes: int32, position: int32) returns (n: int)
      requires Valid() && 0 <= position && position + numBytes < 0x8000_0000
      requires Clip(hdr.numBytes, numBytes, position) <= from.Length
      modifies disk
      ensures n == Clip(hdr.numBytes, numBytes, position) && Transfers(hdr.numBytes, numBytes, position, n)
      ensures n == 0 ==> disk.image == old(disk.image)
      ensures n > 0 ==> Contents(disk.image, hdr.Data())
                        == Splice(old(Contents(disk.image, hdr.Data())), position, from[..n])
      ensures forall s :: 0 <= s < NumSectors && s !in hdr.Data().Blocks() ==> disk.image[s] == old(disk.image)[s]
    {
      var fileLength := hdr.numBytes;
      if numBytes <= 0 || position >= fileLength {
        return 0;
      }
      n := numBytes;
      if position + numBytes > fileLength {
        n := fileLength - position;
      }
      Overwrite(from, n, position);
    }

    /** The part of `WriteAt` that writes, once the length is clipped. */
    method Overwrite(from: array<byte>, n: int32, position: int32)
      requires Valid() && 0 <= position && 0 < n <= from.Length && position + n <= hdr.numBytes
      modifies disk
      ensures Contents(disk.image, hdr.Data()) == Splice(old(Contents(disk.image, hdr.Data())), position, from[..n])
      ensures forall s :: 0 <= s < NumSectors && s !in hdr.Data().Blocks() ==> disk.image[s] == old(disk.image)[s]
    {
      SpanFacts(hdr.Data(), position, n);
      hide Contents, Holds, EdgesReady, SameOutside, Splice;
      var firstSector := position / SectorSize;
      var lastSector := (position + n - 1) / SectorSize;
      var numSectors := 1 + lastSector - firstSector;
      var buf := new byte[numSectors * SectorSize];
      FillEdges(buf, position, n);
      ghost var edges, skip := buf[..], position - firstSector * SectorSize;
      Bcopy(from, 0, buf, position - firstSector * SectorSize, n);
      assert buf[..][skip..skip + n] == from[..n];
      assert buf[..][..skip] == edges[..skip] && buf[..][skip + n..] == edges[skip + n..];
      StoreSectors(buf, firstSector, numSectors);
      OutsideBlocks(old(disk.image), disk.image, hdr.Data(), firstSector, numSectors);
      WrittenContents(old(disk.image), disk.image, hdr.Data(), firstSector, numSectors, edges, buf[..],
                      position, from[..n]);
    }

    method Seek(position: int)
      modifies this
      ensures seekPosition == position
    {
      seekPosition := position;
    }

    /** Reads from the seek position and advances it past the bytes read. */
    method Read(into: array<byte>, numBytes: int32) returns (n: int)
      requires Valid() && 0 <= seekPosition < 0x8000_0000 && seekPosition + numBytes < 0x8000_0000
      requires Clip(hdr.numBytes, numBytes, seekPosition) <= into.Length
      modifies this, into
      ensures n == Clip(hdr.numBytes, numBytes, old(seekPosition)) && seekPosition == old(seekPosition) + n
      ensures Transfers(hdr.numBytes, numBytes, old(seekPosition), n)
      ensures n > 0 ==> into[..n] == Contents(disk.image, hdr.Data())[old(seekPosition)..seekPosition]
      ensures into[n..] == old(into[n..])
    {
      n := ReadAt(into, 0, numBytes, seekPosition);
      seekPosition := seekPosition + n;
    }

    /** Reading until nothing comes gives the rest of the file, whatever the size of the requests. */
    method ReadRest(chunk: int32) returns (data: seq<byte>)
      requires Valid() && 0 < chunk && 0 <= seekPosition && seekPosition + chunk < 0x8000_0000
      requires hdr.numBytes + chunk < 0x8000_0000
      modifies this
      ensures data == if old(seekPosition) < hdr.Data().Length()
                      then Contents(disk.image, hdr.Data())[old(seekPosition)..] else []
    {
      ghost var file, start := Contents(disk.image, hdr.Data()), seekPosition;
      hide Contents;
      var buffer := new byte[chunk];
      data := [];
      var amountRead := 1;
      while amountRead > 0
        invariant start <= seekPosition && (seekPosition == start || seekPosition <= |file|)
        invariant data == if start < |file| then file[start..seekPosition] else []
        invariant 0 <= amountRead && (amountRead == 0 ==> seekPosition >= |file|)
        decreases amountRead > 0, |file| - seekPosition
      {
        ghost var before := seekPosition;
        amountRead := Read(buffer, chunk);
        if amountRead > 0 {
          assert file[start..seekPosition] == file[start..before] + file[before..seekPosition];
          data := data + buffer[..amountRead];
        }
      }
      if start < |file| {
        assert file[start..seekPosition] == file[start..];
      }
    }

    /** Writes at the seek position and advances it past the bytes written. */
    method Write(from: array<byte>, numBytes: int32) returns (n: int)
      requires Valid() && 0 <= seekPosition < 0x8000_0000 && seekPosition + numBytes < 0x8000_0000
      requires Clip(hdr.numBytes, numBytes, seekPosition) <= from.Length
      modifies this, disk
      ensures n == Clip(hdr.numBytes, numBytes, old(seekPosition)) && seekPosition == old(seekPosition) + n
      ensures Transfers(hdr.numBytes, numBytes, old(seekPosition), n)
      ensures n == 0 ==> disk.image == old(disk.image)
      ensures n > 0 ==> Contents(disk.image, hdr.Data())
                        == Splice(old(Contents(disk.image, hdr.Data())), old(seekPosition), from[..n])
      ensures forall s :: 0 <= s < NumSectors && s !in hdr.Data().Blocks() ==> disk.image[s] == old(disk.image)[s]
    {
      n := WriteAt(from, numBytes, seekPosition);
      seekPosition := seekPosition + n;
    }
  }

  method Bcopy(src: array<byte>, skip: nat, dst: array<byte>, at: nat, n: nat)
    requires skip + n <= src.Length && at + n <= dst.Length && src != dst
    modifies dst
    ensures dst[at..at + n] == src[skip..skip + n]
    ensures dst[..at] == old(dst[..at]) && dst[at + n..] == old(dst[at + n..])
  {
    forall j | 0 <= j < n {
      dst[at + j] := src[skip + j];
    }
  }

  method CopySector(data: Sector, buf: array<byte>, base: nat)
    requires base + SectorSize <= buf.Length
    modifies buf
    ensures forall k :: 0 <= k < buf.Length ==>
              buf[k] == if base <= k < base + SectorSize then data[k - base] else old(buf[k])
  {
    forall j | 0 <= j < SectorSize {
      buf[base + j] := data[j];
    }
  }

  /** A contiguous run of whole sectors contains the bytes of the file at the matching offsets. */
  lemma BufferedSlice(buf: seq<byte>, image: DiskImage, h: Header, first: nat, count: nat, position: nat, n: nat)
    requires h.WellFormed() && first + count <= |h.Blocks()|
    requires Holds(buf, image, h, first, count)
    requires first * SectorSize <= position && position + n <= (first + count) * SectorSize
    requires position + n <= h.Length()
    ensures var skip := position - first * SectorSize;
            buf[skip..skip + n] == Contents(image, h)[position..position + n]
  {
    forall k | position <= k < position + n
      ensures buf[k - first * SectorSize] == Contents(image, h)[k]
    {
      var m := k - first * SectorSize;
      assert first + m / SectorSize == k / SectorSize && m % SectorSize == k % SectorSize;
      assert SectorAt(h, k / SectorSize) == h.dataSectors[k / SectorSize];
    }
  }

  // ---- facts about writing ----

  // A write spans the file from offset `base`, the start of its first sector,
  // to the end of the sector at `base + at`; the buffer holds that span.

  /** Every byte of the span that the request keeps is already in the buffer. */
  ghost predicate EdgesReady(buf: seq<byte>, data: seq<byte>, base: nat, position: nat, n: nat) {
    forall k {:trigger data[k]} :: base <= k < base + |buf| && k < |data| && !(position <= k < position + n) ==>
                                     buf[k - base] == data[k]
  }

  /** The first sector is in the buffer, unless the request overwrites it from its start. */
  ghost predicate FirstReady(buf: seq<byte>, data: seq<byte>, base: nat, position: nat) {
    position == base ||
    forall k {:trigger data[k]} :: base <= k < base + SectorSize && k < |data| && k - base < |buf| ==>
                                     buf[k - base] == data[k]
  }

  lemma FirstEdge(buf: seq<byte>, data: seq<byte>, base: nat, position: nat, got: nat)
    requires base <= position < |data| && got == Clip(|data|, SectorSize, base) <= |buf|
    requires buf[0..got] == data[base..base + got]
    ensures FirstReady(buf, data, base, position)
  {
    forall k {:trigger data[k]} | base <= k < base + SectorSize && k < |data| && k - base < |buf|
      ensures buf[k - base] == data[k]
    {
      assert buf[k - base] == buf[0..got][k - base];
    }
  }

  lemma NoLastEdge(buf: seq<byte>, data: seq<byte>, base: nat, at: nat, position: nat, n: nat)
    requires FirstReady(buf, data, base, position) && |buf| == at + SectorSize
    requires base <= position < base + SectorSize
    requires position + n == base + at + SectorSize || (at == 0 && position != base)
    ensures EdgesReady(buf, data, base, position, n)
  {
  }

  lemma LastEdge(before: seq<byte>, buf: seq<byte>, data: seq<byte>, base: nat, at: nat, position: nat, n: nat,
                 got: nat)
    requires FirstReady(before, data, base, position) && |before| == |buf| == at + SectorSize
    requires base <= position < base + SectorSize && base + at < position + n <= |data|
    requires got == Clip(|data|, SectorSize, base + at)
    requires buf[..at] == before[..at] && buf[at..at + got] == data[base + at..base + at + got]
    requires position == base || at >= SectorSize
    ensures EdgesReady(buf, data, base, position, n)
  {
    forall k {:trigger data[k]} | base <= k < base + |buf| && k < |data| && !(position <= k < position + n)
      ensures buf[k - base] == data[k]
    {
      if k < position {
        assert buf[k - base] == buf[..at][k - base] == before[k - base];
      } else {
        assert buf[k - base] == buf[at..at + got][k - base - at];
      }
    }
  }

  /** Only the given sectors of the file differ between two disk images. */
  ghost predicate SameOutside(image: DiskImage, image': DiskImage, h: Header, first: nat, n: nat)
    requires h.WellFormed() && first + n <= |h.Blocks()|
  {
    && (forall s :: 0 <= s < NumSectors && s !in h.Blocks() ==> image'[s] == image[s])
    && (forall i :: 0 <= i < |h.Blocks()| && !(first <= i < first + n) ==>
          image'[SectorAt(h, i)] == image[SectorAt(h, i)])
  }

  lemma StoredOneMore(buf: seq<byte>, before: DiskImage, image: DiskImage, image': DiskImage, h: Header, first: nat,
                      i: nat)
    requires h.WellFormed() && Distinct(h.Blocks()) && first + i < |h.Blocks()|
    requires (i + 1) * SectorSize <= |buf|
    requires Holds(buf, image, h, first, i) && SameOutside(before, image, h, first, i)
    requires image' == image[SectorAt(h, first + i) := buf[i * SectorSize..(i + 1) * SectorSize]]
    ensures Holds(buf, image', h, first, i + 1) && SameOutside(before, image', h, first, i + 1)
  {
    assert h.Blocks()[first + i] in h.Blocks();
    forall k | 0 <= k < SectorSize * (i + 1)
      ensures buf[k] == image'[SectorAt(h, first + k / SectorSize)][k % SectorSize]
    {
      if k < SectorSize * i {
        assert SectorAt(h, first + k / SectorSize) != SectorAt(h, first + i);
      } else {
        assert k / SectorSize == i && k % SectorSize == k - i * SectorSize;
      }
    }
  }

  /** Storing a prepared buffer replaces exactly the requested bytes of the file. */
  lemma OutsideBlocks(image: DiskImage, image': DiskImage, h: Header, first: nat, count: nat)
    requires h.WellFormed() && first + count <= |h.Blocks()| && SameOutside(image, image', h, first, count)
    ensures forall s :: 0 <= s < NumSectors && s !in h.Blocks() ==> image'[s] == image[s]
  {
  }

  lemma WrittenContents(image: DiskImage, image': DiskImage, h: Header, first: nat, count: nat,
                        edges: seq<byte>, buf: seq<byte>, position: nat, bytes: seq<byte>)
    requires h.WellFormed() && position + |bytes| <= h.Length() && first + count <= |h.Blocks()|
    requires first * SectorSize <= position && position + |bytes| <= (first + count) * SectorSize
    requires |edges| == |buf| == count * SectorSize
    requires EdgesReady(edges, Contents(image, h), first * SectorSize, position, |bytes|)
    requires var skip := position - first * SectorSize;
             && buf[skip..skip + |bytes|] == bytes
             && buf[..skip] == edges[..skip] && buf[skip + |bytes|..] == edges[skip + |bytes|..]
    requires Holds(buf, image', h, first, count) && SameOutside(image, image', h, first, count)
    ensures Contents(image', h) == Splice(Contents(image, h), position, bytes)
  {
    hide Contents, Holds, EdgesReady, SameOutside, Splice;
    forall k | 0 <= k < h.Length()
      ensures Contents(image', h)[k] == Splice(Contents(image, h), position, bytes)[k]
    {
      WrittenByte(image, image', h, first, count, edges, buf, position, bytes, k);
    }
  }

  lemma WrittenByte(image: DiskImage, image': DiskImage, h: Header, first: nat, count: nat,
                    edges: seq<byte>, buf: seq<byte>, position: nat, bytes: seq<byte>, k: nat)
    requires h.WellFormed() && position + |bytes| <= h.Length() && first + count <= |h.Blocks()| && k < h.Length()
    requires first * SectorSize <= position && position + |bytes| <= (first + count) * SectorSize
    requires |edges| == |buf| == count * SectorSize
    requires EdgesReady(edges, Contents(image, h), first * SectorSize, position, |bytes|)
    requires var skip := position - first * SectorSize;
             && buf[skip..skip + |bytes|] == bytes
             && buf[..skip] == edges[..skip] && buf[skip + |bytes|..] == edges[skip + |bytes|..]
    requires Holds(buf, image', h, first, count) && SameOutside(image, image', h, first, count)
    ensures Contents(image', h)[k] == Splice(Contents(image, h), position, bytes)[k]
  {
    var data := Contents(image, h);
    if first * SectorSize <= k < (first + count) * SectorSize {
      InSpan(image', h, buf, first, count, k);
      hide Contents, Holds, SameOutside;
      SplicedByte(data, edges, buf, first * SectorSize, position, bytes, k);
    } else {
      OutsideSpan(image, image', h, first, count, k);
      hide Contents, Holds, SameOutside, EdgesReady;
    }
  }

  lemma SplicedByte(data: seq<byte>, edges: seq<byte>, buf: seq<byte>, base: nat, position: nat, bytes: seq<byte>,
                    k: nat)
    requires base <= position && position + |bytes| <= |data| && position + |bytes| <= base + |buf| && |edges| == |buf|
    requires EdgesReady(edges, data, base, position, |bytes|)
    requires var skip := position - base;
             && buf[skip..skip + |bytes|] == bytes
             && buf[..skip] == edges[..skip] && buf[skip + |bytes|..] == edges[skip + |bytes|..]
    requires base <= k < base + |buf| && k < |data|
    ensures buf[k - base] == Splice(data, position, bytes)[k]
  {
    var skip, n := position - base, |bytes|;
    if k < position {
      assert buf[k - base] == buf[..skip][k - base] == edges[k - base];
      assert edges[k - base] == data[k];
    } else if k < position + n {
      assert buf[k - base] == buf[skip..skip + n][k - position];
    } else {
      assert buf[k - base] == buf[skip + n..][k - position - n] == edges[k - base];
      assert edges[k - base] == data[k];
    }
  }

  lemma OutsideSpan(image: DiskImage, image': DiskImage, h: Header, first: nat, count: nat, k: nat)
    requires h.WellFormed() && k < h.Length() && first + count <= |h.Blocks()|
    requires !(first * SectorSize <= k < (first + count) * SectorSize)
    requires SameOutside(image, image', h, first, count)
    ensures Contents(image', h)[k] == Contents(image, h)[k]
  {
    assert SectorAt(h, k / SectorSize) == h.dataSectors[k / SectorSize];
  }

  lemma InSpan(image: DiskImage, h: Header, buf: seq<byte>, first: nat, count: nat, k: nat)
    requires h.WellFormed() && first + count <= |h.Blocks()| && Holds(buf, image, h, first, count)
    requires first * SectorSize <= k < (first + count) * SectorSize && k < h.Length()
    ensures Contents(image, h)[k] == buf[k - first * SectorSize]
  {
    var m := k - first * SectorSize;
    assert first + m / SectorSize == k / SectorSize && m % SectorSize == k % SectorSize;
    assert SectorAt(h, k / SectorSize) == h.dataSectors[k / SectorSize];
  }
}
