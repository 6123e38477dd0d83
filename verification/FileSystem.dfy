/**
 The file system proper.  The free map and the directory are files on the disk
 they describe, so the allocation invariant is stated about what the disk's own
 bytes decode to.
 */
module FileSystems {
  import opened Words
  import opened BitMaps
  import opened Sequences
  import opened FileHeaders
  import opened OpenFiles
  import opened Directories

  const FreeMapSector := 0
  const DirectorySector := 1
  const FreeMapFileSize := NumSectors / 8
  const NumDirEntries := 10
  const DirectoryFileSize := EntrySize * NumDirEntries

  /** Sectors used by an empty file system: two headers, one map sector and two directory sectors. */
  const SystemSectors := 5

  // ---- what the bytes of a disk mean ----

  function HeaderAt(image: DiskImage, s: int): Header
    requires 0 <= s < NumSectors
  {
    DecodeHeader(image[s])
  }

  /** Sector `r` holds a well-formed header, whose data sectors are distinct and not `r` itself. */
  ghost predicate GoodFile(image: DiskImage, r: int) {
    && 0 <= r < NumSectors
    && HeaderAt(image, r).WellFormed()
    && Distinct(HeaderAt(image, r).Blocks())
    && r !in HeaderAt(image, r).Blocks()
  }

  /** The header and data sectors of the file with header sector `r`. */
  ghost function Extent(r: int, h: Header): set<int>
    requires h.WellFormed()
  {
    {r} + set b | b in h.Blocks()
  }

  // The free map is file 0, the directory file 1, and entry `i` of the directory file `2 + i`.

  predicate Live(t: seq<Entry>, f: int) {
    0 <= f < 2 + |t| && (f < 2 || t[f - 2].InUse())
  }

  function Root(t: seq<Entry>, f: int): int
    requires Live(t, f)
  {
    if f < 2 then f else t[f - 2].sector
  }

  ghost predicate Owns(image: DiskImage, t: seq<Entry>, f: int, s: int) {
    Live(t, f) && GoodFile(image, Root(t, f)) && s in Extent(Root(t, f), HeaderAt(image, Root(t, f)))
  }

  /**
   The free map `bits` marks exactly the header and data sectors of the two
   system files and of the files listed in `t`, and no sector has two uses.
   */
  ghost predicate Consistent(image: DiskImage, t: seq<Entry>, bits: seq<bool>) {
    && |t| == NumDirEntries && |bits| == NumSectors
    && (forall f :: Live(t, f) ==> GoodFile(image, Root(t, f)))
    && (forall f, g, s :: Owns(image, t, f, s) && Owns(image, t, g, s) ==> f == g)
    && (forall s :: 0 <= s < NumSectors ==> (bits[s] <==> exists f :: Owns(image, t, f, s)))
    && UniqueNames(t)
  }

  /** The two system files have their fixed sizes. */
  ghost predicate SystemFiles(image: DiskImage) {
    && GoodFile(image, FreeMapSector) && HeaderAt(image, FreeMapSector).numBytes == FreeMapFileSize
    && GoodFile(image, DirectorySector) && HeaderAt(image, DirectorySector).numBytes == DirectoryFileSize
  }

  /** The directory stored on the disk. */
  function Table(image: DiskImage): (t: seq<Entry>)
    requires SystemFiles(image)
    ensures |t| == NumDirEntries
  {
    DecodeTable(Contents(image, HeaderAt(image, DirectorySector)), NumDirEntries)
  }

  /** The free map stored on the disk. */
  function FreeBits(image: DiskImage): (bits: seq<bool>)
    requires SystemFiles(image)
    ensures |bits| == NumSectors
  {
    BitsOf(DecodeMap(Contents(image, HeaderAt(image, FreeMapSector)), NumSectors / BitsInWord), NumSectors)
  }

  lemma MapWords()
    ensures WordsFor(NumSectors) == NumSectors / BitsInWord
  {
  }

  /** The allocation invariant of a formatted disk. */
  ghost predicate Formatted(image: DiskImage) {
    SystemFiles(image) && Consistent(image, Table(image), FreeBits(image))
  }

  // ---- frames ----

  /** Images that agree outside the data sectors of live file `f`. */
  ghost predicate WritesOnly(image: DiskImage, image': DiskImage, t: seq<Entry>, f: int)
    requires Live(t, f) && GoodFile(image, Root(t, f))
  {
    forall s :: 0 <= s < NumSectors && s !in HeaderAt(image, Root(t, f)).Blocks() ==> image'[s] == image[s]
  }

  lemma OwnsRoot(image: DiskImage, t: seq<Entry>, f: int)
    requires Live(t, f) && GoodFile(image, Root(t, f))
    ensures Owns(image, t, f, Root(t, f))
    ensures forall b :: b in HeaderAt(image, Root(t, f)).Blocks() ==> Owns(image, t, f, b)
  {
  }

  /** Writing the data of one file leaves every header, and the data of every other file, as it was. */
  lemma WriteFrame(image: DiskImage, image': DiskImage, t: seq<Entry>, bits: seq<bool>, f: int, g: int)
    requires Consistent(image, t, bits) && Live(t, f) && WritesOnly(image, image', t, f) && Live(t, g)
    ensures image'[Root(t, g)] == image[Root(t, g)]
    ensures f != g ==> Contents(image', HeaderAt(image, Root(t, g))) == Contents(image, HeaderAt(image, Root(t, g)))
  {
    OwnsRoot(image, t, f);
    OwnsRoot(image, t, g);
    if f != g {
      ContentsFrame(image, image', HeaderAt(image, Root(t, g)));
    }
  }

  lemma WriteKeepsConsistent(image: DiskImage, image': DiskImage, t: seq<Entry>, bits: seq<bool>, f: int)
    requires Consistent(image, t, bits) && Live(t, f) && WritesOnly(image, image', t, f)
    ensures Consistent(image', t, bits)
  {
    forall g | Live(t, g) ensures image'[Root(t, g)] == image[Root(t, g)] {
      WriteFrame(image, image', t, bits, f, g);
    }
    SameHeadersConsistent(image, image', t, bits);
  }

  lemma SameHeadersConsistent(image: DiskImage, image': DiskImage, t: seq<Entry>, bits: seq<bool>)
    requires Consistent(image, t, bits)
    requires forall g :: Live(t, g) ==> image'[Root(t, g)] == image[Root(t, g)]
    ensures Consistent(image', t, bits)
  {
    forall g | Live(t, g) ensures GoodFile(image', Root(t, g)) {
      assert GoodFile(image, Root(t, g));
    }
    forall g, s ensures Owns(image', t, g, s) <==> Owns(image, t, g, s) {
    }
  }

  // ---- formatting, on values ----

  lemma FormatExtents(bits0: seq<bool>, bits1: seq<bool>, bits2: seq<bool>, h0: Header, h1: Header)
    requires |bits0| == NumSectors
    requires forall s :: 0 <= s < NumSectors ==> (bits0[s] <==> s == FreeMapSector || s == DirectorySector)
    requires h0.WellFormed() && Takes(bits0, h0.Blocks(), bits1)
    requires h1.WellFormed() && Takes(bits1, h1.Blocks(), bits2)
    ensures FreeMapSector !in h0.Blocks() && DirectorySector !in h1.Blocks()
    ensures Extent(FreeMapSector, h0) !! Extent(DirectorySector, h1)
    ensures forall s :: 0 <= s < NumSectors ==>
              (bits2[s] <==> s in Extent(FreeMapSector, h0) || s in Extent(DirectorySector, h1))
  {
  }

  /** Two good files in the fixed sectors, and an empty directory. */
  lemma FormatConsistent(image: DiskImage, t: seq<Entry>, bits: seq<bool>)
    requires |t| == NumDirEntries && forall i :: 0 <= i < |t| ==> !t[i].InUse()
    requires GoodFile(image, FreeMapSector) && GoodFile(image, DirectorySector)
    requires |bits| == NumSectors
    requires var x0 := Extent(FreeMapSector, HeaderAt(image, FreeMapSector));
             var x1 := Extent(DirectorySector, HeaderAt(image, DirectorySector));
             x0 !! x1 && forall s :: 0 <= s < NumSectors ==> (bits[s] <==> s in x0 || s in x1)
    ensures Consistent(image, t, bits)
  {
    forall f ensures Live(t, f) <==> f == 0 || f == 1 {
    }
    forall f | Live(t, f) ensures Root(t, f) == f && GoodFile(image, Root(t, f)) {
    }
    forall s | 0 <= s < NumSectors ensures bits[s] <==> exists f :: Owns(image, t, f, s) {
      if bits[s] {
        assert Owns(image, t, 0, s) || Owns(image, t, 1, s);
      }
    }
  }

  // ---- creating and removing, on values ----

  /** Entering a name and writing its header in a free sector leaves every listed file as it was. */
  lemma CreateFrame(image: DiskImage, image': DiskImage, t: seq<Entry>, t': seq<Entry>,
                    bits: seq<bool>, i: nat, name: CString, r: int, g: int)
    requires Consistent(image, t, bits) && Live(t, g)
    requires 0 <= r < NumSectors && !bits[r]
    requires Adds(t, t', i, name, r)
    requires forall s :: 0 <= s < NumSectors && s != r ==> image'[s] == image[s]
    ensures g != 2 + i && Live(t', g) && Root(t', g) == Root(t, g)
    ensures image'[Root(t, g)] == image[Root(t, g)]
    ensures Contents(image', HeaderAt(image, Root(t, g))) == Contents(image, HeaderAt(image, Root(t, g)))
  {
    OwnsRoot(image, t, g);
    ContentsFrame(image, image', HeaderAt(image, Root(t, g)));
  }

  lemma NewFile(image: DiskImage, r: int, h: Header)
    requires 0 <= r < NumSectors && image[r] == EncodeHeader(h)
    requires h.WellFormed() && Distinct(h.Blocks()) && r !in h.Blocks()
    ensures GoodFile(image, r) && HeaderAt(image, r) == h
  {
    HeaderRoundTrip(h);
  }

  lemma NewHeader(image: DiskImage, bits: seq<bool>, bits': seq<bool>, r: int, h: Header)
    requires |bits| == NumSectors && 0 <= r < NumSectors && !bits[r] && h.WellFormed() && image[r] == EncodeHeader(h)
    requires Takes(bits[r := true], h.Blocks(), bits')
    ensures GoodFile(image, r) && HeaderAt(image, r) == h
  {
    NewExtent(bits, bits', r, h);
    NewFile(image, r, h);
  }

  /** After a creation, every live file is good, and the only change of ownership is the new file's. */
  lemma CreateGood(image: DiskImage, image': DiskImage, t: seq<Entry>, t': seq<Entry>,
                   bits: seq<bool>, i: nat, name: CString, r: int, h: Header, g: int)
    requires Consistent(image, t, bits) && Live(t', g)
    requires 0 <= r < NumSectors && !bits[r] && h.WellFormed() && Distinct(h.Blocks()) && r !in h.Blocks()
    requires Adds(t, t', i, name, r)
    requires image' == image[r := EncodeHeader(h)]
    ensures GoodFile(image', Root(t', g))
    ensures if g == 2 + i then Root(t', g) == r && HeaderAt(image', r) == h
            else Live(t, g) && Root(t', g) == Root(t, g) && HeaderAt(image', Root(t, g)) == HeaderAt(image, Root(t, g))
  {
    if g == 2 + i {
      NewFile(image', r, h);
    } else {
      assert Live(t, g);
      CreateFrame(image, image', t, t', bits, i, name, r, g);
    }
  }

  lemma CreateOwns(image: DiskImage, image': DiskImage, t: seq<Entry>, t': seq<Entry>,
                   bits: seq<bool>, i: nat, name: CString, r: int, h: Header, g: int, s: int)
    requires Consistent(image, t, bits)
    requires 0 <= r < NumSectors && !bits[r] && h.WellFormed() && Distinct(h.Blocks()) && r !in h.Blocks()
    requires Adds(t, t', i, name, r)
    requires image' == image[r := EncodeHeader(h)]
    ensures Owns(image', t', g, s) <==> (Owns(image, t, g, s) || (g == 2 + i && s in Extent(r, h)))
  {
    if Live(t', g) {
      CreateGood(image, image', t, t', bits, i, name, r, h, g);
    } else {
      assert !Live(t, g);
    }
  }

  /** Entering a new file with freshly taken sectors keeps the disk consistent. */
  lemma CreateConsistent(image: DiskImage, image': DiskImage, t: seq<Entry>, t': seq<Entry>,
                         bits: seq<bool>, bits': seq<bool>, i: nat, name: CString, r: int, h: Header)
    requires Consistent(image, t, bits)
    requires 0 <= r < NumSectors && !bits[r] && h.WellFormed()
    requires Takes(bits[r := true], h.Blocks(), bits')
    requires Adds(t, t', i, name, r) && !Listed(t, Truncate(name, FileNameMaxLen))
    requires image' == image[r := EncodeHeader(h)]
    ensures Consistent(image', t', bits')
  {
    NewExtent(bits, bits', r, h);
    AddedNameUnique(t, t', i, name, r);
    hide GoodFile, Takes, Adds, DecodeHeader, EncodeHeader;
    forall g, s
      ensures Owns(image', t', g, s) <==> (Owns(image, t, g, s) || (g == 2 + i && s in Extent(r, h)))
      ensures Live(t', g) ==> GoodFile(image', Root(t', g))
    {
      CreateOwns(image, image', t, t', bits, i, name, r, h, g, s);
      if Live(t', g) {
        CreateGood(image, image', t, t', bits, i, name, r, h, g);
      }
    }
    ExtendedMap(image, image', t, t', bits, bits', 2 + i, Extent(r, h));
  }

  /** One more owner, of sectors that were free, and a map that marks them. */
  lemma ExtendedMap(image: DiskImage, image': DiskImage, t: seq<Entry>, t': seq<Entry>,
                    bits: seq<bool>, bits': seq<bool>, f: int, extent: set<int>)
    requires Consistent(image, t, bits) && |bits'| == NumSectors
    requires forall s :: s in extent ==> 0 <= s < NumSectors && !bits[s]
    requires forall s :: 0 <= s < NumSectors ==> (bits'[s] <==> bits[s] || s in extent)
    requires forall g, s :: Owns(image', t', g, s) <==> (Owns(image, t, g, s) || (g == f && s in extent))
    ensures forall g, h, s :: Owns(image', t', g, s) && Owns(image', t', h, s) ==> g == h
    ensures forall s :: 0 <= s < NumSectors ==> (bits'[s] <==> exists g :: Owns(image', t', g, s))
  {
    forall s | 0 <= s < NumSectors ensures bits'[s] <==> exists g :: Owns(image', t', g, s) {
      if bits[s] {
        var g :| Owns(image, t, g, s);
        assert Owns(image', t', g, s);
      } else if s in extent {
        assert Owns(image', t', f, s);
      }
    }
  }

  lemma NewExtent(bits: seq<bool>, bits': seq<bool>, r: int, h: Header)
    requires |bits| == NumSectors && 0 <= r < NumSectors && !bits[r] && h.WellFormed()
    requires Takes(bits[r := true], h.Blocks(), bits')
    ensures r !in h.Blocks() && Distinct(h.Blocks())
    ensures forall s :: s in Extent(r, h) ==> 0 <= s < NumSectors && !bits[s]
    ensures forall s :: 0 <= s < NumSectors ==> (bits'[s] <==> bits[s] || s in Extent(r, h))
  {
  }

  lemma AddedNameUnique(t: seq<Entry>, t': seq<Entry>, i: nat, name: CString, r: int32)
    requires UniqueNames(t) && Adds(t, t', i, name, r) && !Listed(t, Truncate(name, FileNameMaxLen))
    ensures UniqueNames(t')
  {
    forall j, k, key | Names(t', j, key) && Names(t', k, key) ensures j == k {
      if j != i { assert Names(t, j, key); }
      if k != i { assert Names(t, k, key); }
    }
  }

  /** Dropping a live entry and freeing its sectors keeps the disk consistent. */
  lemma RemoveConsistent(image: DiskImage, t: seq<Entry>, t': seq<Entry>, bits: seq<bool>, bits': seq<bool>, i: nat)
    requires Consistent(image, t, bits) && i < |t| && t[i].InUse()
    requires t' == t[i := t[i].(inUse := 0)]
    requires |bits'| == NumSectors
    requires forall s :: 0 <= s < NumSectors ==> (bits'[s] <==> bits[s] && !Owns(image, t, 2 + i, s))
    ensures Consistent(image, t', bits')
  {
    forall g ensures Live(t', g) <==> (Live(t, g) && g != 2 + i) {
    }
    forall g | Live(t', g) ensures Root(t', g) == Root(t, g) && GoodFile(image, Root(t', g)) {
      assert Live(t, g);
    }
    forall j, key ensures Names(t', j, key) <==> (Names(t, j, key) && j != i) {
    }
    forall g, s ensures Owns(image, t', g, s) <==> (Owns(image, t, g, s) && g != 2 + i) {
    }
    ReducedMap(image, t, t', bits, bits', 2 + i);
  }

  /** One owner less, and a map that no longer marks its sectors. */
  lemma ReducedMap(image: DiskImage, t: seq<Entry>, t': seq<Entry>, bits: seq<bool>, bits': seq<bool>, f: int)
    requires Consistent(image, t, bits) && |bits'| == NumSectors
    requires forall s :: 0 <= s < NumSectors ==> (bits'[s] <==> bits[s] && !Owns(image, t, f, s))
    requires forall g, s :: Owns(image, t', g, s) <==> (Owns(image, t, g, s) && g != f)
    ensures forall g, h, s :: Owns(image, t', g, s) && Owns(image, t', h, s) ==> g == h
    ensures forall s :: 0 <= s < NumSectors ==> (bits'[s] <==> exists g :: Owns(image, t', g, s))
  {
    forall s | 0 <= s < NumSectors ensures bits'[s] <==> exists g :: Owns(image, t', g, s) {
      if bits'[s] {
        var g :| Owns(image, t, g, s);
        assert Owns(image, t', g, s);
      }
      if g :| Owns(image, t', g, s) {
        assert Owns(image, t, g, s);
      }
    }
  }

  // ---- the files on a disk ----

  datatype FileRef = FileRef(sector: int, header: Header)

  ghost predicate GoodTable(image: DiskImage, t: seq<Entry>) {
    (forall f :: Live(t, f) ==> GoodFile(image, Root(t, f))) && UniqueNames(t)
  }

  ghost function Keys(t: seq<Entry>): (keys: set<CString>)
    ensures forall key :: key in keys <==> Listed(t, key)
  {
    set i | 0 <= i < |t| && Names(t, i, KeyOf(t[i])) :: KeyOf(t[i])
  }

  ghost function SlotOf(t: seq<Entry>, key: CString): (i: nat)
    requires Listed(t, key)
    ensures Names(t, i, key) && Live(t, 2 + i)
  {
    var i :| Names(t, i, key); i
  }

  ghost function RefAt(image: DiskImage, t: seq<Entry>, i: nat): (ref: FileRef)
    requires GoodTable(image, t) && Live(t, 2 + i)
    ensures ref.header.WellFormed()
  {
    FileRef(t[i].sector, HeaderAt(image, Root(t, 2 + i)))
  }

  /** The directory as a map from names to headers. */
  ghost function Files(image: DiskImage, t: seq<Entry>): (files: map<CString, FileRef>)
    requires GoodTable(image, t)
    ensures files.Keys == Keys(t)
    ensures AllWellFormed(files)
    ensures forall i, key :: Names(t, i, key) ==> key in files && files[key] == RefAt(image, t, i)
  {
    map key | key in Keys(t) :: RefAt(image, t, SlotOf(t, key))
  }

  ghost predicate AllWellFormed(files: map<CString, FileRef>) {
    forall key :: key in files ==> files[key].header.WellFormed()
  }

  /** The bytes of every file: the view of the disk that users of the file system have. */
  ghost function BytesOf(image: DiskImage, files: map<CString, FileRef>): (bytes: map<CString, seq<byte>>)
    requires AllWellFormed(files)
    ensures bytes.Keys == files.Keys
  {
    map key | key in files :: Contents(image, files[key].header)
  }

  // ---- storing the directory and the free map ----

  /** Every listed file has the same header and the same bytes in both images. */
  ghost predicate Undisturbed(image: DiskImage, image': DiskImage, t: seq<Entry>)
    requires GoodTable(image, t)
  {
    forall f :: Live(t, f) && f >= 2 ==>
                  && image'[Root(t, f)] == image[Root(t, f)]
                  && Contents(image', HeaderAt(image, Root(t, f))) == Contents(image, HeaderAt(image, Root(t, f)))
  }

  lemma UndisturbedRef(image: DiskImage, image': DiskImage, t: seq<Entry>, i: nat)
    requires GoodTable(image, t) && GoodTable(image', t) && Undisturbed(image, image', t) && Live(t, 2 + i)
    ensures RefAt(image', t, i) == RefAt(image, t, i)
    ensures Contents(image', RefAt(image, t, i).header) == Contents(image, RefAt(image, t, i).header)
  {
  }

  lemma UndisturbedFiles(image: DiskImage, image': DiskImage, t: seq<Entry>)
    requires GoodTable(image, t) && GoodTable(image', t) && Undisturbed(image, image', t)
    ensures Files(image', t) == Files(image, t)
    ensures BytesOf(image', Files(image, t)) == BytesOf(image, Files(image, t))
  {
    forall key | key in Keys(t)
      ensures Files(image', t)[key] == Files(image, t)[key]
      ensures Contents(image', Files(image, t)[key].header) == Contents(image, Files(image, t)[key].header)
    {
      UndisturbedRef(image, image', t, SlotOf(t, key));
    }
    BytesAgree(image, image', Files(image, t));
  }

  /** Writing the table to the directory file makes it the table on disk, and disturbs nothing else. */
  lemma StoreTable(image: DiskImage, image': DiskImage, t: seq<Entry>, bits: seq<bool>)
    requires SystemFiles(image) && Consistent(image, t, bits) && WritesOnly(image, image', t, 1)
    requires Contents(image', HeaderAt(image, DirectorySector)) == EncodeTable(t)
    ensures SystemFiles(image') && Consistent(image', t, bits) && Undisturbed(image, image', t)
    ensures image'[FreeMapSector] == image[FreeMapSector] && image'[DirectorySector] == image[DirectorySector]
    ensures Table(image') == t && FreeBits(image') == FreeBits(image)
  {
    WriteKeepsConsistent(image, image', t, bits, 1);
    forall g | Live(t, g) {
      WriteFrame(image, image', t, bits, 1, g);
    }
    assert Live(t, 0) && Live(t, 1);
    TableRoundTrip(t);
  }

  lemma DecodedBits(data: seq<byte>, ws: seq<bv32>)
    requires BitsInWord * |ws| == NumSectors && data == EncodeMap(ws)
    ensures BitsOf(DecodeMap(data, NumSectors / BitsInWord), NumSectors) == BitsOf(ws, NumSectors)
  {
    MapRoundTrip(ws);
  }

  /** Writing the words to the free-map file makes them the map on disk, and disturbs nothing else. */
  lemma StoreBits(image: DiskImage, image': DiskImage, t: seq<Entry>, bits: seq<bool>, ws: seq<bv32>)
    requires SystemFiles(image) && Consistent(image, t, bits) && WritesOnly(image, image', t, 0)
    requires BitsInWord * |ws| == NumSectors && BitsOf(ws, NumSectors) == bits
    requires Contents(image', HeaderAt(image, FreeMapSector)) == EncodeMap(ws)
    ensures SystemFiles(image') && Consistent(image', t, bits) && Undisturbed(image, image', t)
    ensures image'[FreeMapSector] == image[FreeMapSector] && image'[DirectorySector] == image[DirectorySector]
    ensures Table(image') == Table(image) && FreeBits(image') == bits
  {
    WriteKeepsConsistent(image, image', t, bits, 0);
    forall g | Live(t, g) {
      WriteFrame(image, image', t, bits, 0, g);
    }
    assert Live(t, 0) && Live(t, 1);
    DecodedBits(Contents(image', HeaderAt(image, FreeMapSector)), ws);
  }

  // ---- the directory map through creation and removal ----

  lemma FilesCreate(image: DiskImage, image': DiskImage, t: seq<Entry>, t': seq<Entry>,
                    bits: seq<bool>, i: nat, name: CString, r: int, h: Header)
    requires Consistent(image, t, bits) && GoodTable(image', t')
    requires 0 <= r < NumSectors && !bits[r] && HeaderAt(image', r) == h
    requires Adds(t, t', i, name, r) && !Listed(t, Truncate(name, FileNameMaxLen))
    requires forall s :: 0 <= s < NumSectors && s != r ==> image'[s] == image[s]
    ensures Files(image', t') == Files(image, t)[Truncate(name, FileNameMaxLen) := FileRef(r, h)]
  {
    AddsKeys(t, t', i, name, r);
    var files, files' := Files(image, t), Files(image', t');
    forall k | k in files ensures k in files' && files'[k] == files[k] {
      CreateKeepsFile(image, image', t, t', bits, i, name, r, k);
    }
    NewRef(image', t', i, Truncate(name, FileNameMaxLen));
    MapExtend(files, files', Truncate(name, FileNameMaxLen), FileRef(r, h));
  }

  lemma NewRef(image: DiskImage, t: seq<Entry>, i: nat, key: CString)
    requires GoodTable(image, t) && Names(t, i, key)
    ensures 0 <= t[i].sector < NumSectors
    ensures key in Files(image, t) && Files(image, t)[key] == FileRef(t[i].sector, HeaderAt(image, t[i].sector))
  {
    assert Live(t, 2 + i);
  }

  lemma MapExtend<K, V>(m: map<K, V>, m': map<K, V>, k: K, v: V)
    requires m'.Keys == m.Keys + {k} && k !in m && m'[k] == v
    requires forall x :: x in m ==> x in m' && m'[x] == m[x]
    ensures m' == m[k := v]
  {
  }

  lemma BytesCreate(image: DiskImage, image': DiskImage, t: seq<Entry>, t': seq<Entry>,
                    bits: seq<bool>, i: nat, name: CString, r: int)
    requires Consistent(image, t, bits) && GoodTable(image', t')
    requires 0 <= r < NumSectors && !bits[r]
    requires Adds(t, t', i, name, r)
    requires forall s :: 0 <= s < NumSectors && s != r ==> image'[s] == image[s]
    ensures BytesOf(image', Files(image, t)) == BytesOf(image, Files(image, t))
  {
    var files := Files(image, t);
    forall k | k in files ensures Contents(image', files[k].header) == Contents(image, files[k].header) {
      CreateKeepsFile(image, image', t, t', bits, i, name, r, k);
    }
    BytesAgree(image, image', files);
  }

  lemma CreateKeepsFile(image: DiskImage, image': DiskImage, t: seq<Entry>, t': seq<Entry>,
                        bits: seq<bool>, i: nat, name: CString, r: int, key: CString)
    requires Consistent(image, t, bits) && GoodTable(image', t') && key in Keys(t)
    requires 0 <= r < NumSectors && !bits[r]
    requires Adds(t, t', i, name, r)
    requires forall s :: 0 <= s < NumSectors && s != r ==> image'[s] == image[s]
    ensures key in Files(image', t') && Files(image', t')[key] == Files(image, t)[key]
    ensures Contents(image', Files(image, t)[key].header) == Contents(image, Files(image, t)[key].header)
  {
    var j := SlotOf(t, key);
    CreateKeepsRef(image, image', t, t', bits, i, name, r, j);
    assert Names(t', j, key);
  }

  lemma BytesAgree(image: DiskImage, image': DiskImage, files: map<CString, FileRef>)
    requires AllWellFormed(files)
    requires forall key :: key in files ==> Contents(image', files[key].header) == Contents(image, files[key].header)
    ensures BytesOf(image', files) == BytesOf(image, files)
  {
  }

  lemma AddsKeys(t: seq<Entry>, t': seq<Entry>, i: nat, name: CString, r: int32)
    requires Adds(t, t', i, name, r)
    ensures Keys(t') == Keys(t) + {Truncate(name, FileNameMaxLen)}
  {
    forall key ensures Listed(t', key) <==> Listed(t, key) || key == Truncate(name, FileNameMaxLen) {
      if j :| Names(t, j, key) {
        assert Names(t', j, key);
      }
      if j :| Names(t', j, key) {
        assert j == i || Names(t, j, key);
      }
    }
  }

  lemma CreateKeepsRef(image: DiskImage, image': DiskImage, t: seq<Entry>, t': seq<Entry>,
                       bits: seq<bool>, i: nat, name: CString, r: int, j: nat)
    requires Consistent(image, t, bits) && GoodTable(image', t') && Live(t, 2 + j)
    requires 0 <= r < NumSectors && !bits[r]
    requires Adds(t, t', i, name, r)
    requires forall s :: 0 <= s < NumSectors && s != r ==> image'[s] == image[s]
    ensures j != i && t'[j] == t[j] && Live(t', 2 + j) && RefAt(image', t', j) == RefAt(image, t, j)
    ensures Contents(image', RefAt(image, t, j).header) == Contents(image, RefAt(image, t, j).header)
  {
    CreateFrame(image, image', t, t', bits, i, name, r, 2 + j);
  }

  lemma BytesExtend(image: DiskImage, files: map<CString, FileRef>, key: CString, ref: FileRef)
    requires AllWellFormed(files) && ref.header.WellFormed()
    ensures AllWellFormed(files[key := ref])
    ensures BytesOf(image, files[key := ref]) == BytesOf(image, files)[key := Contents(image, ref.header)]
  {
  }

  /** A new header on disk disturbs neither the system files nor the allocation. */
  lemma CreateOnDisk(image: DiskImage, image': DiskImage, t: seq<Entry>, t': seq<Entry>,
                     bits: seq<bool>, bits': seq<bool>, i: nat, name: CString, r: int, h: Header)
    requires SystemFiles(image) && Consistent(image, t, bits)
    requires 0 <= r < NumSectors && !bits[r] && h.WellFormed()
    requires Takes(bits[r := true], h.Blocks(), bits')
    requires Adds(t, t', i, name, r) && !Listed(t, Key(name))
    requires image' == image[r := EncodeHeader(h)]
    ensures SystemFiles(image') && Consistent(image', t', bits')
    ensures image'[FreeMapSector] == image[FreeMapSector] && image'[DirectorySector] == image[DirectorySector]
  {
    CreateConsistent(image, image', t, t', bits, bits', i, name, r, h);
    CreateSystem(image, image', t, t', bits, i, name, r);
  }

  lemma CreateSystem(image: DiskImage, image': DiskImage, t: seq<Entry>, t': seq<Entry>,
                     bits: seq<bool>, i: nat, name: CString, r: int)
    requires SystemFiles(image) && Consistent(image, t, bits) && 0 <= r < NumSectors && !bits[r]
    requires Adds(t, t', i, name, r) && forall s :: 0 <= s < NumSectors && s != r ==> image'[s] == image[s]
    ensures SystemFiles(image')
    ensures image'[FreeMapSector] == image[FreeMapSector] && image'[DirectorySector] == image[DirectorySector]
  {
    assert Live(t, 0) && Live(t, 1);
    CreateFrame(image, image', t, t', bits, i, name, r, 0);
    CreateFrame(image, image', t, t', bits, i, name, r, 1);
  }

  /** Everything that holds once a new header is on disk and the directory and map in memory are updated. */
  lemma CreateStep(image: DiskImage, image': DiskImage, t: seq<Entry>, t': seq<Entry>,
                   bits: seq<bool>, bits': seq<bool>, i: nat, name: CString, r: int, h: Header)
    requires SystemFiles(image) && Consistent(image, t, bits)
    requires 0 <= r < NumSectors && !bits[r] && h.WellFormed()
    requires Takes(bits[r := true], h.Blocks(), bits')
    requires Adds(t, t', i, name, r) && !Listed(t, Key(name))
    requires image' == image[r := EncodeHeader(h)]
    ensures SystemFiles(image') && Consistent(image', t', bits')
    ensures image'[FreeMapSector] == image[FreeMapSector] && image'[DirectorySector] == image[DirectorySector]
    ensures Files(image', t') == Files(image, t)[Key(name) := FileRef(r, h)]
    ensures BytesOf(image', Files(image', t')) == BytesOf(image, Files(image, t))[Key(name) := Contents(image', h)]
  {
    hide DecodeHeader, EncodeHeader, BytesOf, Contents, Takes, Adds, SystemFiles;
    CreateOnDisk(image, image', t, t', bits, bits', i, name, r, h);
    assert GoodTable(image, t) && GoodTable(image', t');
    hide Consistent;
    NewHeader(image', bits, bits', r, h);
    FilesCreate(image, image', t, t', bits, i, name, r, h);
    BytesCreate(image, image', t, t', bits, i, name, r);
    BytesExtend(image', Files(image, t), Key(name), FileRef(r, h));
  }

  lemma KeysRemove(image: DiskImage, t: seq<Entry>, t': seq<Entry>, i: nat, key: CString)
    requires GoodTable(image, t) && GoodTable(image, t')
    requires Names(t, i, key) && t' == t[i := t[i].(inUse := 0)]
    ensures forall j, k :: Names(t', j, k) <==> (Names(t, j, k) && j != i)
    ensures Keys(t') == Keys(t) - {key}
  {
    forall j, k ensures Names(t', j, k) <==> (Names(t, j, k) && j != i) {
    }
    forall k ensures Listed(t', k) <==> Listed(t, k) && k != key {
      if j :| Names(t, j, k) && k != key {
        assert Names(t', j, k);
      }
    }
  }

  lemma FilesRemove(image: DiskImage, t: seq<Entry>, t': seq<Entry>, i: nat, key: CString)
    requires GoodTable(image, t) && GoodTable(image, t')
    requires Names(t, i, key) && t' == t[i := t[i].(inUse := 0)]
    ensures Files(image, t') == Files(image, t) - {key}
  {
    KeysRemove(image, t, t', i, key);
    forall k | k in Keys(t') ensures Files(image, t')[k] == Files(image, t)[k] {
      KeptByRemove(image, t, t', i, key, k);
    }
    hide GoodTable, Names;
  }

  lemma KeptByRemove(image: DiskImage, t: seq<Entry>, t': seq<Entry>, i: nat, key: CString, k: CString)
    requires GoodTable(image, t) && GoodTable(image, t') && k in Keys(t') && k in Keys(t)
    requires forall j, k :: Names(t', j, k) <==> (Names(t, j, k) && j != i)
    requires i < |t| && t' == t[i := t[i].(inUse := 0)]
    ensures Files(image, t')[k] == Files(image, t)[k]
  {
    var j := SlotOf(t', k);
    assert Names(t', j, k) && Names(t, j, k);
    assert RefAt(image, t', j) == RefAt(image, t, j);
  }

  // ---- the file system object ----

  /** The files of a formatted disk, by truncated name. */
  ghost function FilesOn(image: DiskImage): (files: map<CString, FileRef>)
    requires Formatted(image)
    ensures AllWellFormed(files)
  {
    Files(image, Table(image))
  }

  /** The bytes of the files of a formatted disk, by truncated name. */
  ghost function Volume(image: DiskImage): map<CString, seq<byte>>
    requires Formatted(image)
  {
    BytesOf(image, FilesOn(image))
  }

  /** The number of free sectors that the disk's own map records. */
  ghost function FreeSectorsOn(image: DiskImage): nat
    requires SystemFiles(image)
  {
    |ClearSet(FreeBits(image))|
  }

  function Key(name: CString): CString {
    Truncate(name, FileNameMaxLen)
  }

  /** Writes the free map back to its file. */
  method FlushMap(d: SynchDisk, file: OpenFile, freeMap: BitMap, ghost t: seq<Entry>)
    requires SystemFiles(d.image) && file.disk == d && file.hdr.Data() == HeaderAt(d.image, FreeMapSector)
    requires freeMap.Valid() && freeMap.numBits == NumSectors && freeMap.words.Length == NumSectors / BitsInWord
    requires Consistent(d.image, t, freeMap.Bits())
    modifies d
    ensures SystemFiles(d.image) && Consistent(d.image, t, freeMap.Bits()) && Undisturbed(old(d.image), d.image, t)
    ensures d.image[FreeMapSector] == old(d.image)[FreeMapSector]
    ensures d.image[DirectorySector] == old(d.image)[DirectorySector]
    ensures Table(d.image) == old(Table(d.image)) && FreeBits(d.image) == freeMap.Bits()
  {
    StoreMap(freeMap, file);
    StoreBits(old(d.image), d.image, t, freeMap.Bits(), freeMap.words[..]);
  }

  /** Writes the directory back to its file. */
  method FlushDirectory(d: SynchDisk, file: OpenFile, directory: Directory, ghost bits: seq<bool>)
    requires SystemFiles(d.image) && file.disk == d && file.hdr.Data() == HeaderAt(d.image, DirectorySector)
    requires directory.table.Length == NumDirEntries && Consistent(d.image, directory.table[..], bits)
    modifies d
    ensures SystemFiles(d.image) && Consistent(d.image, directory.table[..], bits)
    ensures Undisturbed(old(d.image), d.image, directory.table[..])
    ensures d.image[FreeMapSector] == old(d.image)[FreeMapSector]
    ensures d.image[DirectorySector] == old(d.image)[DirectorySector]
    ensures Table(d.image) == directory.table[..] && FreeBits(d.image) == old(FreeBits(d.image))
  {
    directory.WriteBack(file);
    StoreTable(old(d.image), d.image, directory.table[..], bits);
  }

  /** Takes sectors for the two system files and writes their headers. */
  method LayOut(d: SynchDisk, freeMap: BitMap)
    requires freeMap.Valid() && freeMap.numBits == NumSectors
    requires freeMap.Bits() == seq(NumSectors, i => false)
    modifies d, freeMap.words
    ensures SystemFiles(d.image)
    ensures var x0 := Extent(FreeMapSector, HeaderAt(d.image, FreeMapSector));
            var x1 := Extent(DirectorySector, HeaderAt(d.image, DirectorySector));
            x0 !! x1 && forall s :: 0 <= s < NumSectors ==> (freeMap.Bits()[s] <==> s in x0 || s in x1)
    ensures |ClearSet(freeMap.Bits())| == NumSectors - SystemSectors
  {
    hide ClearSet, Extent, DecodeHeader, EncodeHeader, BitsOf;
    var mapHdr := new FileHeader();
    var dirHdr := new FileHeader();
    AllClear(freeMap.Bits());
    MarkedCount(freeMap.Bits(), FreeMapSector);
    freeMap.Mark(FreeMapSector);
    MarkedCount(freeMap.Bits(), DirectorySector);
    freeMap.Mark(DirectorySector);
    ghost var bits0 := freeMap.Bits();
    var ok := mapHdr.Allocate(freeMap, FreeMapFileSize);
    assert ok;
    ghost var bits1 := freeMap.Bits();
    ok := dirHdr.Allocate(freeMap, DirectoryFileSize);
    assert ok;
    FormatExtents(bits0, bits1, freeMap.Bits(), mapHdr.Data(), dirHdr.Data());
    mapHdr.WriteBack(d, FreeMapSector);
    dirHdr.WriteBack(d, DirectorySector);
    NewFile(d.image, FreeMapSector, mapHdr.Data());
    NewFile(d.image, DirectorySector, dirHdr.Data());
  }

  /** The formatting half of the constructor: lays out the two system files and opens them. */
  method FormatDisk(d: SynchDisk) returns (freeMapFile: OpenFile, directoryFile: OpenFile)
    modifies d
    ensures Formatted(d.image) && FilesOn(d.image) == map[] && FreeSectorsOn(d.image) == NumSectors - SystemSectors
    ensures fresh(freeMapFile) && fresh(freeMapFile.hdr) && fresh(directoryFile) && fresh(directoryFile.hdr)
    ensures freeMapFile.disk == d && directoryFile.disk == d
    ensures freeMapFile.hdr.Data() == HeaderAt(d.image, FreeMapSector)
    ensures directoryFile.hdr.Data() == HeaderAt(d.image, DirectorySector)
  {
    hide Consistent, DecodeHeader, Undisturbed, Extent, BitsOf;
    var freeMap := new BitMap(NumSectors);
    MapWords();
    var directory := new Directory(NumDirEntries);
    LayOut(d, freeMap);
    freeMapFile := new OpenFile(d, FreeMapSector);
    directoryFile := new OpenFile(d, DirectorySector);
    ghost var t, bits := directory.table[..], freeMap.Bits();
    FormatConsistent(d.image, t, bits);
    FlushMap(d, freeMapFile, freeMap, t);
    FlushDirectory(d, directoryFile, directory, bits);
    assert Keys(t) == {};
  }

  class FileSystem {
    const disk: SynchDisk
    const freeMapFile: OpenFile
    const directoryFile: OpenFile

    ghost predicate Opened()
      reads this, disk, freeMapFile, freeMapFile.hdr, directoryFile, directoryFile.hdr
    {
      && freeMapFile.disk == disk && directoryFile.disk == disk
      && SystemFiles(disk.image)
      && freeMapFile.hdr.Data() == HeaderAt(disk.image, FreeMapSector)
      && directoryFile.hdr.Data() == HeaderAt(disk.image, DirectorySector)
    }

    /** Both system files are open, and the disk satisfies the allocation invariant. */
    ghost predicate Valid()
      reads this, disk, freeMapFile, freeMapFile.hdr, directoryFile, directoryFile.hdr
    {
      Opened() && Formatted(disk.image)
    }

    /**
     Opens the file system on `d`, after writing an empty directory and a fresh
     free map to it if `format` is set; nothing is assumed of a disk to format.
     */
    constructor (d: SynchDisk, format: bool)
      requires !format ==> Formatted(d.image)
      modifies d
      ensures Valid() && disk == d
      ensures !format ==> d.image == old(d.image)
      ensures format ==> FilesOn(d.image) == map[] && FreeSectorsOn(d.image) == NumSectors - SystemSectors
    {
      disk := d;
      if format {
        var mapFile, dirFile := FormatDisk(d);
        freeMapFile, directoryFile := mapFile, dirFile;
      } else {
        freeMapFile := new OpenFile(d, FreeMapSector);
        directoryFile := new OpenFile(d, DirectorySector);
      }
    }

    /** A copy of the directory in memory. */
    method FetchDirectory() returns (directory: Directory)
      requires Opened()
      ensures fresh(directory) && fresh(directory.table) && directory.table[..] == Table(disk.image)
      ensures directory.table.Length == NumDirEntries
    {
      directory := new Directory(NumDirEntries);
      directory.FetchFrom(directoryFile);
    }

    /** A copy of the free map in memory. */
    method FetchFreeMap() returns (freeMap: BitMap)
      requires Opened()
      ensures fresh(freeMap) && fresh(freeMap.words) && freeMap.Valid() && freeMap.numBits == NumSectors
      ensures freeMap.words.Length == NumSectors / BitsInWord
      ensures freeMap.Bits() == FreeBits(disk.image)
    {
      freeMap := new BitMap(NumSectors);
      MapWords();
      FetchMap(freeMap, freeMapFile);
    }

    /** Opens a file; null when the name is not in the directory. */
    method Open(name: CString) returns (file: OpenFile?)
      requires Valid()
      ensures file == null <==> Key(name) !in FilesOn(disk.image)
      ensures file != null ==> fresh(file) && fresh(file.hdr) && file.disk == disk && file.Valid()
      ensures file != null ==> file.hdr.Data() == FilesOn(disk.image)[Key(name)].header && file.seekPosition == 0
    {
      var directory := FetchDirectory();
      var sector := directory.Find(name);
      file := null;
      ghost var t := Table(disk.image);
      if Listed(t, Key(name)) {
        ghost var i :| Names(t, i, Key(name)) && sector == t[i].sector;
        NewRef(disk.image, t, i, Key(name));
        assert GoodFile(disk.image, Root(t, 2 + i));
      }
      if sector >= 0 {
        file := new OpenFile(disk, sector);
      }
    }

    /**
     Creates a file of `initialSize` bytes.  Its contents are whatever the
     sectors it was given held before.
     */
    method Create(name: CString, initialSize: int32) returns (ok: bool)
      requires Valid()
      requires initialSize <= MaxFileSize || DivRoundUp(initialSize, SectorSize) > NumSectors
      modifies disk
      ensures Valid()
      ensures ok == (&& Key(name) !in old(FilesOn(disk.image))
                     && !old(Full(Table(disk.image)))
                     && old(FreeSectorsOn(disk.image)) > 0
                     && DivRoundUp(initialSize, SectorSize) < old(FreeSectorsOn(disk.image)))
      ensures !ok ==> disk.image == old(disk.image)
      ensures ok ==> Key(name) in FilesOn(disk.image) && FilesOn(disk.image)[Key(name)].header.numBytes == initialSize
      ensures ok ==> FilesOn(disk.image) == old(FilesOn(disk.image))[Key(name) := FilesOn(disk.image)[Key(name)]]
      ensures ok ==> Volume(disk.image) == old(Volume(disk.image))[Key(name) := Volume(disk.image)[Key(name)]]
      ensures ok ==> FreeSectorsOn(disk.image) + 1 + |FilesOn(disk.image)[Key(name)].header.Blocks()|
                     == old(FreeSectorsOn(disk.image))
    {
      hide Consistent, DecodeHeader, EncodeHeader, Extent, BitsOf, BytesOf, Takes;
      hide Adds, ClearSet, Table, FreeBits, Files, SystemFiles, DivRoundUp;
      var directory := FetchDirectory();
      ghost var image, t, bits := disk.image, Table(disk.image), FreeBits(disk.image);
      ConsistentGood(image, t, bits);
      var found := directory.Find(name);
      ListedSector(image, t, Key(name), found);
      if found != -1 {
        return false;
      }
      var freeMap := FetchFreeMap();
      var sector := freeMap.Find();
      if sector == -1 {
        return false;
      }
      var added := directory.Add(name, sector);
      if !added {
        return false;
      }
      var hdr := new FileHeader();
      EnoughOrTooMuch(freeMap.Bits(), initialSize);
      var enough := hdr.Allocate(freeMap, initialSize);
      if !enough {
        return false;
      }
      ghost var i :| 0 <= i < NumDirEntries && Adds(t, directory.table[..], i, name, sector);
      Commit(directory, freeMap, hdr, sector, name, i);
      return true;
    }

    /** Deletes a file: its sectors become free and its name unused. */
    method Remove(name: CString) returns (ok: bool)
      requires Valid()
      modifies disk
      ensures Valid()
      ensures ok == (Key(name) in old(FilesOn(disk.image)))
      ensures !ok ==> disk.image == old(disk.image)
      ensures ok ==> FilesOn(disk.image) == old(FilesOn(disk.image)) - {Key(name)}
      ensures ok ==> Volume(disk.image) == old(Volume(disk.image)) - {Key(name)}
      ensures ok ==> FreeSectorsOn(disk.image)
                     == old(FreeSectorsOn(disk.image)) + 1 + |old(FilesOn(disk.image))[Key(name)].header.Blocks()|
    {
      hide Consistent, DecodeHeader, Extent, Undisturbed, BitsOf, BytesOf, Table;
      hide FreeBits, Files, SystemFiles, Owns, GoodTable, GoodFile, Distinct;
      var directory := FetchDirectory();
      ghost var image, t, bits := disk.image, Table(disk.image), FreeBits(disk.image);
      ConsistentGood(image, t, bits);
      var sector := directory.Find(name);
      ListedSector(image, t, Key(name), sector);
      if sector == -1 {
        return false;
      }
      ghost var i := SlotOf(t, Key(name));
      var freeMap := FetchFreeMap();
      FreeSectors(freeMap, sector, t, i);
      var removed := directory.Remove(name);
      ghost var j :| Names(t, j, Key(name)) && directory.table[..] == t[j := t[j].(inUse := 0)];
      OneSlot(image, t, i, j, Key(name));
      RemoveStep(image, t, directory.table[..], bits, freeMap.Bits(), i, Key(name));
      FlushBoth(directory, freeMap);
      return true;
    }

    /** Frees, in the copy of the free map, the header and data sectors of listed file `i`. */
    method FreeSectors(freeMap: BitMap, sector: int, ghost t: seq<Entry>, ghost i: nat)
      requires freeMap.Valid() && freeMap.numBits == NumSectors
      requires Consistent(disk.image, t, freeMap.Bits()) && Live(t, 2 + i) && sector == t[i].sector
      modifies freeMap.words
      ensures GoodFile(disk.image, sector)
      ensures forall s :: 0 <= s < NumSectors ==>
                (freeMap.Bits()[s] <==>
                   old(freeMap.Bits())[s] && s != sector && s !in HeaderAt(disk.image, sector).Blocks())
      ensures |ClearSet(freeMap.Bits())|
              == |ClearSet(old(freeMap.Bits()))| + 1 + |HeaderAt(disk.image, sector).Blocks()|
    {
      hide Consistent, DecodeHeader, BitsOf, GoodFile, Distinct, Owns;
      ListedMarked(disk.image, t, freeMap.Bits(), i);
      var fileHdr := new FileHeader();
      fileHdr.FetchFrom(disk, sector);
      fileHdr.Deallocate(freeMap);
      ClearedCount(freeMap.Bits(), sector);
      freeMap.Clear(sector);
    }

    /** Writes the free map and the directory to disk. */
    method FlushBoth(directory: Directory, freeMap: BitMap)
      requires Valid()
      requires freeMap.Valid() && freeMap.numBits == NumSectors && freeMap.words.Length == NumSectors / BitsInWord
      requires directory.table.Length == NumDirEntries
      requires Consistent(disk.image, directory.table[..], freeMap.Bits()) && GoodTable(disk.image, directory.table[..])
      modifies disk
      ensures Valid() && FreeBits(disk.image) == freeMap.Bits()
      ensures FilesOn(disk.image) == old(Files(disk.image, directory.table[..]))
      ensures Volume(disk.image) == old(BytesOf(disk.image, Files(disk.image, directory.table[..])))
    {
      hide Consistent, DecodeHeader, Undisturbed, BitsOf, BytesOf, Table, FreeBits, Files, GoodTable, GoodFile;
      ghost var image, t, bits := disk.image, directory.table[..], freeMap.Bits();
      FlushMap(disk, freeMapFile, freeMap, t);
      ghost var image1 := disk.image;
      ConsistentGood(image1, t, bits);
      UndisturbedFiles(image, image1, t);
      FlushDirectory(disk, directoryFile, directory, bits);
      ConsistentGood(disk.image, t, bits);
      UndisturbedFiles(image1, disk.image, t);
    }

    /** Writes a new file's header, the directory and the free map to disk. */
    method Commit(directory: Directory, freeMap: BitMap, hdr: FileHeader, sector: int, name: CString, ghost i: nat)
      requires Valid()
      requires freeMap.Valid() && freeMap.numBits == NumSectors && freeMap.words.Length == NumSectors / BitsInWord
      requires directory.table.Length == NumDirEntries
      requires 0 <= sector < NumSectors && !FreeBits(disk.image)[sector] && hdr.Data().WellFormed()
      requires Takes(FreeBits(disk.image)[sector := true], hdr.Data().Blocks(), freeMap.Bits())
      requires Adds(Table(disk.image), directory.table[..], i, name, sector) && !Listed(Table(disk.image), Key(name))
      modifies disk
      ensures Valid() && FreeBits(disk.image) == freeMap.Bits()
      ensures FilesOn(disk.image) == old(FilesOn(disk.image))[Key(name) := FileRef(sector, hdr.Data())]
      ensures Volume(disk.image) == old(Volume(disk.image))[Key(name) := Volume(disk.image)[Key(name)]]
    {
      hide Consistent, DecodeHeader, EncodeHeader, Undisturbed, Extent, BitsOf;
      hide BytesOf, Takes, Adds, Table, FreeBits, Files, Contents;
      ghost var image, t, bits := disk.image, Table(disk.image), FreeBits(disk.image);
      ghost var t', bits' := directory.table[..], freeMap.Bits();
      hdr.WriteBack(disk, sector);
      ghost var image1 := disk.image;
      CreateStep(image, image1, t, t', bits, bits', i, name, sector, hdr.Data());
      ConsistentGood(image1, t', bits');
      FlushDirectory(disk, directoryFile, directory, bits');
      ghost var image2 := disk.image;
      ConsistentGood(image2, t', bits');
      UndisturbedFiles(image1, image2, t');
      FlushMap(disk, freeMapFile, freeMap, t');
      ConsistentGood(disk.image, t', bits');
      UndisturbedFiles(image2, disk.image, t');
    }
  }

  lemma OneSlot(image: DiskImage, t: seq<Entry>, i: int, j: int, key: CString)
    requires GoodTable(image, t) && Names(t, i, key) && Names(t, j, key)
    ensures i == j
  {
  }

  /** The sectors of a listed file are all marked. */
  lemma ListedMarked(image: DiskImage, t: seq<Entry>, bits: seq<bool>, i: nat)
    requires Consistent(image, t, bits) && Live(t, 2 + i)
    ensures GoodFile(image, t[i].sector) && 0 <= t[i].sector < |bits| == NumSectors && bits[t[i].sector]
    ensures HeaderAt(image, t[i].sector).WellFormed() && Distinct(HeaderAt(image, t[i].sector).Blocks())
    ensures forall b :: b in HeaderAt(image, t[i].sector).Blocks() ==> bits[b]
    ensures forall s :: Owns(image, t, 2 + i, s) <==> s == t[i].sector || s in HeaderAt(image, t[i].sector).Blocks()
  {
    assert Root(t, 2 + i) == t[i].sector;
    OwnsRoot(image, t, 2 + i);
  }

  /** Everything that holds once a file's sectors and entry are freed in memory. */
  lemma RemoveStep(image: DiskImage, t: seq<Entry>, t': seq<Entry>, bits: seq<bool>, bits': seq<bool>, i: nat,
                   key: CString)
    requires Consistent(image, t, bits) && Names(t, i, key)
    requires t' == t[i := t[i].(inUse := 0)]
    requires |bits'| == NumSectors
    requires GoodFile(image, t[i].sector)
    requires forall s :: 0 <= s < NumSectors ==>
               (bits'[s] <==> bits[s] && s != t[i].sector && s !in HeaderAt(image, t[i].sector).Blocks())
    ensures Consistent(image, t', bits') && GoodTable(image, t')
    ensures Files(image, t') == Files(image, t) - {key}
    ensures BytesOf(image, Files(image, t')) == BytesOf(image, Files(image, t)) - {key}
  {
    assert Live(t, 2 + i);
    hide Consistent, DecodeHeader, Contents, BytesOf, Files, GoodTable, GoodFile;
    ListedMarked(image, t, bits, i);
    RemoveConsistent(image, t, t', bits, bits', i);
    ConsistentGood(image, t, bits);
    ConsistentGood(image, t', bits');
    FilesRemove(image, t, t', i, key);
    BytesWithout(image, Files(image, t), key);
  }

  lemma BytesWithout(image: DiskImage, files: map<CString, FileRef>, key: CString)
    requires AllWellFormed(files)
    ensures AllWellFormed(files - {key}) && BytesOf(image, files - {key}) == BytesOf(image, files) - {key}
  {
    hide Contents;
  }

  lemma ConsistentGood(image: DiskImage, t: seq<Entry>, bits: seq<bool>)
    requires Consistent(image, t, bits)
    ensures GoodTable(image, t)
  {
  }

  lemma ListedSector(image: DiskImage, t: seq<Entry>, key: CString, found: int)
    requires GoodTable(image, t)
    requires Listed(t, key) ==> exists i :: Names(t, i, key) && found == t[i].sector
    requires !Listed(t, key) ==> found == -1
    ensures found != -1 <==> Listed(t, key)
    ensures found != -1 ==> key in Files(image, t) && Files(image, t)[key].sector == found
  {
    if Listed(t, key) {
      var i :| Names(t, i, key) && found == t[i].sector;
      NewRef(image, t, i, key);
    }
  }

  lemma EnoughOrTooMuch(bits: seq<bool>, size: int32)
    requires |bits| == NumSectors && (size <= MaxFileSize || DivRoundUp(size, SectorSize) > NumSectors)
    ensures DivRoundUp(size, SectorSize) <= NumDirect || |ClearSet(bits)| < DivRoundUp(size, SectorSize)
  {
    MarkedPlusClear(bits);
  }
}
