/**
 What the file system promises over whole runs: any sequence of operations
 refines a map from truncated names to byte sequences, together with the number
 of free sectors.
 */
module FileRuns {
  import opened Options
  import opened Sequences
  import opened Words
  import opened BitMaps
  import opened FileHeaders
  import opened OpenFiles
  import opened Directories
  import opened FileSystems

  // ---- the simple model ----

  /** The files by truncated name, the number of free sectors, and the file on which each handle is open. */
  datatype View = View(files: map<CString, seq<byte>>, free: nat, handles: map<nat, CString>)

  /** A formatted disk without files. */
  const EmptyView := View(map[], NumSectors - SystemSectors, map[])

  function SectorsFor(size: int): nat {
    if size <= 0 then 0 else (size + SectorSize - 1) / SectorSize
  }

  function Max0(x: int): nat {
    if x < 0 then 0 else x
  }

  datatype Op =
    | Create(name: CString, size: int32)
    | Remove(name: CString)
    | Open(h: nat, name: CString)
    | Write(h: nat, data: seq<byte>, position: int32)
    | Close(h: nat)

  /** A creation succeeds exactly when the name is new and there is an entry and enough sectors for it. */
  predicate CanCreate(v: View, name: CString, size: int) {
    Key(name) !in v.files && |v.files| < NumDirEntries && SectorsFor(size) < v.free
  }

  /** One operation on the simple model; only the bytes of a newly created file are left open. */
  ghost predicate Next(v: View, op: Op, v': View) {
    match op
    case Create(name, size) =>
      if CanCreate(v, name, size) then
        && Key(name) in v'.files && |v'.files[Key(name)]| == Max0(size)
        && v' == View(v.files[Key(name) := v'.files[Key(name)]], v.free - 1 - SectorsFor(size), v.handles)
      else v' == v
    case Remove(name) =>
      // nobody asks for the removal of a file that is open
      if Key(name) in v.files && Key(name) !in v.handles.Values then
        v' == View(v.files - {Key(name)}, v.free + 1 + SectorsFor(|v.files[Key(name)]|), v.handles)
      else v' == v
    case Open(h, name) =>
      v' == if Key(name) in v.files then v.(handles := v.handles[h := Key(name)]) else v
    case Write(h, data, position) =>
      v' == if h in v.handles && v.handles[h] in v.files
            then v.(files := v.files[v.handles[h] := Written(v.files[v.handles[h]], data, position)])
            else v
    case Close(h) => v' == v.(handles := v.handles - {h})
  }

  /** The bytes of a file after a write, cut off at the end of the file. */
  function Written(bytes: seq<byte>, data: seq<byte>, position: int): (r: seq<byte>)
    ensures |r| == |bytes|
  {
    var n := Clip(|bytes|, |data|, position);
    if position < 0 || n == 0 then bytes else Splice(bytes, position, data[..n])
  }

  /** What the source leaves to the caller: sizes the header table can hold, and positions in the file. */
  predicate Allowed(op: Op) {
    match op
    case Create(_, size) => size <= MaxFileSize || DivRoundUp(size, SectorSize) > NumSectors
    case Write(_, data, position) => 0 <= position && position + |data| < 0x8000_0000
    case _ => true
  }

  // ---- the disk as a view ----

  ghost function ViewOf(image: DiskImage, handles: map<nat, CString>): View
    requires Formatted(image)
  {
    View(Volume(image), FreeSectorsOn(image), handles)
  }

  lemma LastName(t: seq<Entry>)
    requires |t| > 0 && UniqueNames(t)
    ensures var t0, e := t[..|t| - 1], t[|t| - 1];
            && UniqueNames(t0)
            && (e.InUse() ==> KeyOf(e) !in Keys(t0) && Keys(t) == Keys(t0) + {KeyOf(e)})
            && (!e.InUse() ==> Keys(t) == Keys(t0))
  {
    var m := |t| - 1;
    var t0, k := t[..m], KeyOf(t[m]);
    forall i, key ensures Names(t0, i, key) <==> (Names(t, i, key) && i != m) {
    }
    assert t[m].InUse() ==> Names(t, m, k);
    forall key ensures Listed(t, key) <==> Listed(t0, key) || (t[m].InUse() && key == k) {
      if i :| Names(t, i, key) { assert i == m || Names(t0, i, key); }
      if i :| Names(t0, i, key) { assert Names(t, i, key); }
    }
  }

  lemma {:induction false} FullMeansAllNames(t: seq<Entry>)
    requires UniqueNames(t)
    ensures |Keys(t)| <= |t|
    ensures Full(t) <==> |Keys(t)| == |t|
  {
    hide UniqueNames, Names, KeyOf;
    if |t| > 0 {
      LastName(t);
      FullMeansAllNames(t[..|t| - 1]);
      assert Full(t) <==> Full(t[..|t| - 1]) && t[|t| - 1].InUse();
    } else {
      assert Keys(t) == {};
    }
  }

  // ---- writing through a handle ----

  /** `file` is a handle on the file listed as `key`. */
  ghost predicate HandleOf(file: OpenFile, image: DiskImage, key: CString)
    requires Formatted(image)
    reads file, file.hdr
  {
    key in FilesOn(image) && file.hdr.Data() == FilesOn(image)[key].header
  }

  /** Every header sector, and the bytes of every live file other than `f`, are the same in both images. */
  ghost predicate OnlyWrote(image: DiskImage, image': DiskImage, t: seq<Entry>, f: int)
    requires GoodTable(image, t)
  {
    forall g :: Live(t, g) ==>
                  && image'[Root(t, g)] == image[Root(t, g)]
                  && (g != f ==>
                        Contents(image', HeaderAt(image, Root(t, g))) == Contents(image, HeaderAt(image, Root(t, g))))
  }

  lemma WroteOneFile(image: DiskImage, image': DiskImage, t: seq<Entry>, bits: seq<bool>, f: int)
    requires Consistent(image, t, bits) && GoodTable(image, t) && Live(t, f) && WritesOnly(image, image', t, f)
    ensures OnlyWrote(image, image', t, f)
  {
    hide Consistent, Contents, DecodeHeader;
    forall g | Live(t, g)
      ensures image'[Root(t, g)] == image[Root(t, g)]
      ensures g != f ==> Contents(image', HeaderAt(image, Root(t, g))) == Contents(image, HeaderAt(image, Root(t, g)))
    {
      WriteFrame(image, image', t, bits, f, g);
    }
  }

  lemma SystemKept(image: DiskImage, image': DiskImage, t: seq<Entry>, f: int)
    requires GoodTable(image, t) && SystemFiles(image) && f >= 2 && OnlyWrote(image, image', t, f)
    ensures SystemFiles(image') && Table(image') == Table(image) && FreeBits(image') == FreeBits(image)
    ensures image'[FreeMapSector] == image[FreeMapSector] && image'[DirectorySector] == image[DirectorySector]
  {
    hide Contents, DecodeHeader, DecodeTable, DecodeMap, BitsOf;
    assert Live(t, 0) && Live(t, 1) && Root(t, 0) == FreeMapSector && Root(t, 1) == DirectorySector;
  }

  lemma OtherFilesKept(image: DiskImage, image': DiskImage, t: seq<Entry>, i: nat, key: CString)
    requires GoodTable(image, t) && GoodTable(image', t) && Names(t, i, key)
    requires OnlyWrote(image, image', t, 2 + i)
    ensures Files(image', t) == Files(image, t)
    ensures BytesOf(image', Files(image, t))
            == BytesOf(image, Files(image, t))[key := Contents(image', Files(image, t)[key].header)]
  {
    hide Contents, GoodTable, OnlyWrote, Names, RefAt, HeaderAt;
    var files, files' := Files(image, t), Files(image', t);
    forall k | k in files
      ensures k in files' && files'[k] == files[k]
      ensures k != key ==> Contents(image', files[k].header) == Contents(image, files[k].header)
    {
      KeptFile(image, image', t, i, key, k);
    }
    hide Files;
    BytesOneChanged(image, image', files, key);
  }

  lemma KeptFile(image: DiskImage, image': DiskImage, t: seq<Entry>, i: nat, key: CString, k: CString)
    requires GoodTable(image, t) && GoodTable(image', t) && Names(t, i, key) && k in Files(image, t)
    requires OnlyWrote(image, image', t, 2 + i)
    ensures k in Files(image', t) && Files(image', t)[k] == Files(image, t)[k]
    ensures k != key ==> Contents(image', Files(image, t)[k].header) == Contents(image, Files(image, t)[k].header)
  {
    hide Contents, HeaderAt;
    KeptRef(image, image', t, SlotOf(t, k), 2 + i);
  }

  lemma BytesOneChanged(image: DiskImage, image': DiskImage, files: map<CString, FileRef>, key: CString)
    requires AllWellFormed(files) && key in files
    requires forall k :: k in files && k != key ==>
             Contents(image', files[k].header) == Contents(image, files[k].header)
    ensures BytesOf(image', files) == BytesOf(image, files)[key := Contents(image', files[key].header)]
  {
    hide Contents;
  }

  lemma KeptRef(image: DiskImage, image': DiskImage, t: seq<Entry>, j: nat, f: int)
    requires GoodTable(image, t) && GoodTable(image', t) && Live(t, 2 + j) && OnlyWrote(image, image', t, f)
    ensures RefAt(image', t, j) == RefAt(image, t, j)
    ensures 2 + j != f ==> Contents(image', RefAt(image, t, j).header) == Contents(image, RefAt(image, t, j).header)
  {
    hide Contents, DecodeHeader;
  }

  lemma HandleSlot(image: DiskImage, key: CString) returns (i: nat)
    requires Formatted(image) && key in FilesOn(image)
    ensures Names(Table(image), i, key) && Live(Table(image), 2 + i)
    ensures GoodFile(image, Root(Table(image), 2 + i))
    ensures HeaderAt(image, Root(Table(image), 2 + i)) == FilesOn(image)[key].header
  {
    i := SlotOf(Table(image), key);
    assert FilesOn(image)[key] == RefAt(image, Table(image), i);
  }

  /** Writing only the data sectors of one listed file changes no header, no allocation and no other file. */
  lemma WriteStep(image: DiskImage, image': DiskImage, key: CString)
    requires Formatted(image) && key in FilesOn(image)
    requires forall s :: 0 <= s < NumSectors && s !in FilesOn(image)[key].header.Blocks() ==> image'[s] == image[s]
    ensures Formatted(image') && FilesOn(image') == FilesOn(image) && FreeBits(image') == FreeBits(image)
    ensures image'[FreeMapSector] == image[FreeMapSector] && image'[DirectorySector] == image[DirectorySector]
    ensures Volume(image') == Volume(image)[key := Contents(image', FilesOn(image)[key].header)]
  {
    hide Consistent, Contents, DecodeHeader, BytesOf, SystemFiles;
    hide Table, FreeBits, GoodTable, GoodFile, Files, OnlyWrote;
    var t, bits := Table(image), FreeBits(image);
    ConsistentGood(image, t, bits);
    var i := HandleSlot(image, key);
    WroteOneFile(image, image', t, bits, 2 + i);
    WriteKeepsConsistent(image, image', t, bits, 2 + i);
    ConsistentGood(image', t, bits);
    SystemKept(image, image', t, 2 + i);
    OtherFilesKept(image, image', t, i, key);
  }

  /** A write through a handle replaces exactly the requested bytes of that file and nothing else on the disk. */
  method WriteFile(fs: FileSystem, file: OpenFile, ghost key: CString, from: array<byte>, numBytes: int32,
                   position: int32)
    returns (n: int)
    requires fs.Valid() && file.disk == fs.disk && HandleOf(file, fs.disk.image, key) && file.Valid()
    requires 0 <= position && position + numBytes < 0x8000_0000 && numBytes <= from.Length
    modifies fs.disk
    ensures fs.Valid() && FilesOn(fs.disk.image) == old(FilesOn(fs.disk.image))
    ensures FreeBits(fs.disk.image) == old(FreeBits(fs.disk.image))
    ensures n == Clip(|old(Volume(fs.disk.image))[key]|, numBytes, position)
    ensures Volume(fs.disk.image) == old(Volume(fs.disk.image))[key :=
              Written(old(Volume(fs.disk.image))[key], if numBytes < 0 then [] else from[..numBytes], position)]
  {
    hide Contents, DecodeHeader, FilesOn, SystemFiles, FreeBits, Consistent;
    ghost var image := fs.disk.image;
    n := file.WriteAt(from, numBytes, position);
    WriteStep(image, fs.disk.image, key);
    if n > 0 {
      assert from[..numBytes][..n] == from[..n];
    }
  }

  /** Reading through a handle returns exactly the bytes of the file at that position. */
  method ReadFile(fs: FileSystem, file: OpenFile, ghost key: CString, into: array<byte>, numBytes: int32,
                  position: int32)
    returns (n: int)
    requires fs.Valid() && file.disk == fs.disk && HandleOf(file, fs.disk.image, key) && file.Valid()
    requires 0 <= position && position + numBytes < 0x8000_0000 && numBytes <= into.Length
    modifies into
    ensures n == Clip(|Volume(fs.disk.image)[key]|, numBytes, position)
    ensures n > 0 ==> into[..n] == Volume(fs.disk.image)[key][position..position + n]
    ensures into[n..] == old(into[n..])
  {
    hide DecodeHeader, Consistent, SystemFiles, Table, FreeBits;
    n := file.ReadAt(into, 0, numBytes, position);
    assert into[0..0 + n] == into[..n];
  }

  /** A write at the seek position, seen in the simple model. */
  method WriteNext(fs: FileSystem, file: OpenFile, ghost key: CString, from: array<byte>, numBytes: int32)
    returns (n: int)
    requires fs.Valid() && file.disk == fs.disk && HandleOf(file, fs.disk.image, key) && file.Valid()
    requires file != fs.freeMapFile && file != fs.directoryFile
    requires 0 <= file.seekPosition && file.seekPosition + numBytes < 0x8000_0000 && 0 < numBytes <= from.Length
    modifies fs.disk, file
    ensures fs.Valid() && FilesOn(fs.disk.image) == old(FilesOn(fs.disk.image))
    ensures Transfers(|old(Volume(fs.disk.image))[key]|, numBytes, old(file.seekPosition), n)
    ensures file.seekPosition == old(file.seekPosition) + n
    ensures Volume(fs.disk.image) == old(Volume(fs.disk.image))[key :=
              Written(old(Volume(fs.disk.image))[key], from[..numBytes], old(file.seekPosition))]
  {
    hide Contents, DecodeHeader, FilesOn, SystemFiles, FreeBits, Consistent;
    ghost var image := fs.disk.image;
    n := file.Write(from, numBytes);
    WriteStep(image, fs.disk.image, key);
    if n > 0 {
      assert from[..numBytes][..n] == from[..n];
    }
  }

  const TransferSize: int32 := 10

  /** What the test program's Print shows: the whole file, or nothing when there is none. */
  method Print(fs: FileSystem, name: CString) returns (found: bool, output: seq<byte>)
    requires fs.Valid()
    ensures found <==> Key(name) in Volume(fs.disk.image)
    ensures output == if found then Volume(fs.disk.image)[Key(name)] else []
  {
    hide DecodeHeader, Consistent, SystemFiles, Table, FreeBits, Contents;
    output := [];
    var file := fs.Open(name);
    found := file != null;
    if found {
      output := file.ReadRest(TransferSize);
    }
  }

  /** How far Copy's loop has come: the file starts with what was copied. */
  ghost predicate CopiedTo(bytes: seq<byte>, data: seq<byte>, pos: nat) {
    |bytes| == |data| && pos <= |data| && bytes[..pos] == data[..pos]
  }

  lemma CopiedMore(bytes: seq<byte>, data: seq<byte>, pos: nat, n: nat)
    requires CopiedTo(bytes, data, pos) && 0 < n && pos + n <= |data|
    ensures Written(bytes, data[pos..pos + n], pos) == Splice(bytes, pos, data[pos..pos + n])
    ensures CopiedTo(Written(bytes, data[pos..pos + n], pos), data, pos + n)
  {
    var chunk := data[pos..pos + n];
    assert chunk[..n] == chunk;
    assert Splice(bytes, pos, chunk)[..pos + n] == bytes[..pos] + chunk == data[..pos + n];
  }

  lemma FreeAtMost(image: DiskImage)
    requires SystemFiles(image)
    ensures FreeSectorsOn(image) <= NumSectors
  {
    MarkedPlusClear(FreeBits(image));
    hide FreeBits, ClearSet;
  }

  /**
   What the test program's Copy leaves on the disk: a file with exactly the
   bytes of the original, or nothing changed when it cannot be created.
   */
  method Copy(fs: FileSystem, data: seq<byte>, to: CString) returns (ok: bool)
    requires fs.Valid() && |data| < 0x8000_0000
    requires |data| <= MaxFileSize || DivRoundUp(|data|, SectorSize) > NumSectors
    modifies fs.disk
    ensures fs.Valid() && ok == old(CanCreate(ViewOf(fs.disk.image, map[]), to, |data|))
    ensures !ok ==> fs.disk.image == old(fs.disk.image)
    ensures ok ==> Volume(fs.disk.image) == old(Volume(fs.disk.image))[Key(to) := data]
  {
    hide Formatted, DecodeHeader, FilesOn, SystemFiles, FreeSectorsOn, Contents, Table, Full, DivRoundUp;
    CreateCondition(fs.disk.image, to, |data|, map[]);
    FreeAtMost(fs.disk.image);
    ok := fs.Create(to, |data|);
    if ok {
      CopyInto(fs, data, to);
    }
  }

  method CopyInto(fs: FileSystem, data: seq<byte>, to: CString)
    requires fs.Valid() && |data| <= MaxFileSize
    requires Key(to) in FilesOn(fs.disk.image) && |Volume(fs.disk.image)[Key(to)]| == |data|
    modifies fs.disk
    ensures fs.Valid() && Volume(fs.disk.image) == old(Volume(fs.disk.image))[Key(to) := data]
  {
    hide Formatted, DecodeHeader, FilesOn, SystemFiles, FreeSectorsOn, Contents, Table, Written;
    ghost var volume, key := Volume(fs.disk.image), Key(to);
    var file := fs.Open(to);
    var pos := 0;
    while pos < |data|
      invariant fs.Valid() && file.disk == fs.disk && HandleOf(file, fs.disk.image, key) && file.Valid()
      invariant fresh(file) && file.seekPosition == pos <= |data| && key in Volume(fs.disk.image)
      invariant CopiedTo(Volume(fs.disk.image)[key], data, pos)
      invariant Volume(fs.disk.image) == volume[key := Volume(fs.disk.image)[key]]
    {
      pos := CopyChunk(fs, file, key, data, pos);
    }
    assert Volume(fs.disk.image)[key] == data;
  }

  /** One turn of Copy's loop. */
  method CopyChunk(fs: FileSystem, file: OpenFile, ghost key: CString, data: seq<byte>, pos: nat) returns (next: nat)
    requires fs.Valid() && file.disk == fs.disk && HandleOf(file, fs.disk.image, key) && file.Valid()
    requires file != fs.freeMapFile && file != fs.directoryFile
    requires file.seekPosition == pos < |data| <= MaxFileSize && CopiedTo(Volume(fs.disk.image)[key], data, pos)
    modifies fs.disk, file
    ensures fs.Valid() && FilesOn(fs.disk.image) == old(FilesOn(fs.disk.image))
    ensures pos < next <= |data| && file.seekPosition == next && CopiedTo(Volume(fs.disk.image)[key], data, next)
    ensures Volume(fs.disk.image) == old(Volume(fs.disk.image))[key := Volume(fs.disk.image)[key]]
  {
    hide Formatted, DecodeHeader, FilesOn, SystemFiles, FreeSectorsOn, Contents, Table, Written, CopiedTo;
    var amountRead := if |data| - pos < TransferSize then |data| - pos else TransferSize;
    var buffer := new byte[amountRead](i requires 0 <= i < amountRead => data[pos + i]);
    assert buffer[..amountRead] == data[pos..pos + amountRead];
    CopiedMore(Volume(fs.disk.image)[key], data, pos, amountRead);
    CopiedLength(Volume(fs.disk.image)[key], data, pos);
    var n := WriteNext(fs, file, key, buffer, amountRead);
    next := pos + amountRead;
  }

  lemma CopiedLength(bytes: seq<byte>, data: seq<byte>, pos: nat)
    requires CopiedTo(bytes, data, pos)
    ensures |bytes| == |data|
  {
  }

  // ---- single operations ----

  lemma BlockCount(h: Header)
    requires h.WellFormed()
    ensures |h.Blocks()| == SectorsFor(h.numBytes) == SectorsFor(h.Length())
  {
  }

  /** The conditions under which the code creates a file, read off the view. */
  lemma CreateCondition(image: DiskImage, name: CString, size: int32, handles: map<nat, CString>)
    requires Formatted(image)
    ensures CanCreate(ViewOf(image, handles), name, size) <==>
            && Key(name) !in FilesOn(image) && !Full(Table(image))
            && FreeSectorsOn(image) > 0 && DivRoundUp(size, SectorSize) < FreeSectorsOn(image)
  {
    hide Consistent, SystemFiles, Table, FreeBits, DecodeHeader;
    hide Contents, Full, Keys, FreeSectorsOn, DivRoundUp, SectorsFor;
    FormattedNames(image);
    FullMeansAllNames(Table(image));
    SameCount(Volume(image), FilesOn(image), Keys(Table(image)));
    SizeCondition(size, FreeSectorsOn(image));
  }

  lemma FormattedNames(image: DiskImage)
    requires Formatted(image)
    ensures UniqueNames(Table(image)) && |Table(image)| == NumDirEntries
  {
    hide SystemFiles, Table, FreeBits, DecodeHeader;
  }

  lemma SizeCondition(size: int32, free: nat)
    ensures (free > 0 && DivRoundUp(size, SectorSize) < free) <==> SectorsFor(size) < free
  {
  }

  lemma SameCount<K, A, B>(a: map<K, A>, b: map<K, B>, keys: set<K>)
    requires a.Keys == b.Keys == keys
    ensures |a| == |keys|
  {
    assert |a.Keys| == |a|;
  }

  // ---- handles held over other operations ----

  ghost function Headers(open: map<nat, OpenFile>): map<nat, Header>
    reads open.Values, set h | h in open :: open[h].hdr
  {
    map h | h in open :: open[h].hdr.Data()
  }

  /** Each handle has in memory the header of the file it was opened on. */
  ghost predicate HandlesOn(image: DiskImage, headers: map<nat, Header>, handles: map<nat, CString>)
    requires Formatted(image)
  {
    && headers.Keys == handles.Keys
    && forall h :: h in handles ==> handles[h] in FilesOn(image) && FilesOn(image)[handles[h]].header == headers[h]
  }

  lemma HandlesStay(image: DiskImage, image': DiskImage, headers: map<nat, Header>, handles: map<nat, CString>)
    requires Formatted(image) && Formatted(image') && HandlesOn(image, headers, handles)
    requires forall key :: key in handles.Values && key in FilesOn(image) ==>
               key in FilesOn(image') && FilesOn(image')[key] == FilesOn(image)[key]
    ensures HandlesOn(image', headers, handles)
  {
    hide Formatted, FilesOn;
    forall h | h in handles
      ensures handles[h] in FilesOn(image') && FilesOn(image')[handles[h]].header == headers[h]
    {
      assert handles[h] in handles.Values;
    }
  }

  lemma HandleValid(image: DiskImage, key: CString)
    requires Formatted(image) && key in FilesOn(image)
    ensures FilesOn(image)[key].header.WellFormed() && Distinct(FilesOn(image)[key].header.Blocks())
  {
    hide Formatted, FilesOn, DecodeHeader;
    var i := HandleSlot(image, key);
  }

  /** What `open` and `handles` are, between operations. */
  ghost predicate HandlesOk(fs: FileSystem, open: map<nat, OpenFile>, handles: map<nat, CString>)
    requires fs.Valid()
    reads fs, fs.disk, fs.freeMapFile, fs.freeMapFile.hdr, fs.directoryFile, fs.directoryFile.hdr
    reads open.Values, set h | h in open :: open[h].hdr
  {
    (forall h :: h in open ==> open[h].disk == fs.disk) && HandlesOn(fs.disk.image, Headers(open), handles)
  }

  /** Every operation of the file system is a step of the simple model, whatever handles are open. */
  method Perform(fs: FileSystem, open: map<nat, OpenFile>, handles: map<nat, CString>, op: Op)
    returns (open': map<nat, OpenFile>, handles': map<nat, CString>)
    requires fs.Valid() && HandlesOk(fs, open, handles) && Allowed(op)
    modifies fs.disk
    ensures fs.Valid() && HandlesOk(fs, open', handles')
    ensures Next(old(ViewOf(fs.disk.image, handles)), op, ViewOf(fs.disk.image, handles'))
  {
    hide Formatted, FilesOn, SystemFiles, Next, ViewOf, HandlesOk, Allowed;
    open', handles' := open, handles;
    match op
    case Create(name, size) => PerformCreate(fs, open, handles, name, size);
    case Remove(name) => PerformRemove(fs, open, handles, name);
    case Open(h, name) => open', handles' := PerformOpen(fs, open, handles, h, name);
    case Write(h, data, position) => PerformWrite(fs, open, handles, h, data, position);
    case Close(h) => open', handles' := PerformClose(fs, open, handles, h);
  }

  method PerformCreate(fs: FileSystem, open: map<nat, OpenFile>, handles: map<nat, CString>,
                       name: CString, size: int32)
    requires fs.Valid() && HandlesOk(fs, open, handles) && Allowed(Create(name, size))
    modifies fs.disk
    ensures fs.Valid() && HandlesOk(fs, open, handles)
    ensures Next(old(ViewOf(fs.disk.image, handles)), Create(name, size), ViewOf(fs.disk.image, handles))
  {
    hide Formatted, DecodeHeader, FilesOn, SystemFiles, FreeSectorsOn, Contents, Table, Full, DivRoundUp, HandlesOn;
    ghost var image := fs.disk.image;
    CreateCondition(image, name, size, handles);
    var ok := fs.Create(name, size);
    if ok {
      BlockCount(FilesOn(fs.disk.image)[Key(name)].header);
    }
    HandlesStay(image, fs.disk.image, Headers(open), handles);
  }

  /** A file that is open is not removed. */
  method PerformRemove(fs: FileSystem, open: map<nat, OpenFile>, handles: map<nat, CString>, name: CString)
    requires fs.Valid() && HandlesOk(fs, open, handles)
    modifies fs.disk
    ensures fs.Valid() && HandlesOk(fs, open, handles)
    ensures Next(old(ViewOf(fs.disk.image, handles)), Remove(name), ViewOf(fs.disk.image, handles))
  {
    hide Formatted, DecodeHeader, FilesOn, SystemFiles, FreeSectorsOn, Contents, Table, HandlesOn;
    ghost var image, files := fs.disk.image, FilesOn(fs.disk.image);
    if Key(name) !in handles.Values {
      var ok := fs.Remove(name);
      if ok {
        BlockCount(files[Key(name)].header);
      }
      HandlesStay(image, fs.disk.image, Headers(open), handles);
    }
  }

  method PerformOpen(fs: FileSystem, open: map<nat, OpenFile>, handles: map<nat, CString>, h: nat, name: CString)
    returns (open': map<nat, OpenFile>, handles': map<nat, CString>)
    requires fs.Valid() && HandlesOk(fs, open, handles)
    ensures fs.Valid() && HandlesOk(fs, open', handles')
    ensures Next(ViewOf(fs.disk.image, handles), Open(h, name), ViewOf(fs.disk.image, handles'))
  {
    hide Formatted, DecodeHeader, FilesOn, SystemFiles, FreeSectorsOn, Contents, Table, HandlesOn;
    open', handles' := open, handles;
    var file := fs.Open(name);
    if file != null {
      open', handles' := open[h := file], handles[h := Key(name)];
      assert Headers(open') == Headers(open)[h := file.hdr.Data()];
      HandleAdded(fs.disk.image, Headers(open), handles, h, Key(name));
    }
  }

  lemma HandleAdded(image: DiskImage, headers: map<nat, Header>, handles: map<nat, CString>, h: nat, key: CString)
    requires Formatted(image) && HandlesOn(image, headers, handles) && key in FilesOn(image)
    ensures HandlesOn(image, headers[h := FilesOn(image)[key].header], handles[h := key])
  {
    hide Formatted, FilesOn;
  }

  method PerformWrite(fs: FileSystem, open: map<nat, OpenFile>, handles: map<nat, CString>,
                      h: nat, data: seq<byte>, position: int32)
    requires fs.Valid() && HandlesOk(fs, open, handles) && Allowed(Write(h, data, position))
    modifies fs.disk
    ensures fs.Valid() && HandlesOk(fs, open, handles)
    ensures Next(old(ViewOf(fs.disk.image, handles)), Write(h, data, position), ViewOf(fs.disk.image, handles))
  {
    hide Formatted, DecodeHeader, FilesOn, SystemFiles, Contents, Table, FreeBits;
    if h in open {
      ghost var image := fs.disk.image;
      assert open[h].hdr.Data() == Headers(open)[h] && HandleOf(open[h], image, handles[h]);
      hide HandlesOn;
      WriteBytes(fs, open[h], handles[h], data, position);
      HandlesStay(image, fs.disk.image, Headers(open), handles);
    }
  }

  method WriteBytes(fs: FileSystem, file: OpenFile, ghost key: CString, data: seq<byte>, position: int32)
    requires fs.Valid() && file.disk == fs.disk && HandleOf(file, fs.disk.image, key)
    requires 0 <= position && position + |data| < 0x8000_0000
    modifies fs.disk
    ensures fs.Valid() && FilesOn(fs.disk.image) == old(FilesOn(fs.disk.image))
    ensures FreeSectorsOn(fs.disk.image) == old(FreeSectorsOn(fs.disk.image))
    ensures Volume(fs.disk.image)
            == old(Volume(fs.disk.image))[key := Written(old(Volume(fs.disk.image))[key], data, position)]
  {
    hide Formatted, DecodeHeader, FilesOn, SystemFiles, Contents, Table, FreeBits;
    HandleValid(fs.disk.image, key);
    var from := new byte[|data|](i requires 0 <= i < |data| => data[i]);
    assert from[..] == data && from[..|data|] == data;
    var n := WriteFile(fs, file, key, from, |data|, position);
  }

  method PerformClose(fs: FileSystem, open: map<nat, OpenFile>, handles: map<nat, CString>, h: nat)
    returns (open': map<nat, OpenFile>, handles': map<nat, CString>)
    requires fs.Valid() && HandlesOk(fs, open, handles)
    ensures fs.Valid() && HandlesOk(fs, open', handles')
    ensures Next(ViewOf(fs.disk.image, handles), Close(h), ViewOf(fs.disk.image, handles'))
  {
    hide Formatted, FilesOn, SystemFiles;
    open', handles' := open - {h}, handles - {h};
  }

  // ---- whole runs ----

  ghost predicate IsRun(views: seq<View>, ops: seq<Op>) {
    |views| == |ops| + 1 && forall i :: 0 <= i < |ops| ==> Next(views[i], ops[i], views[i + 1])
  }

  /** Any sequence of operations keeps the allocation invariant at every step and is a run of the simple model. */
  method RunFrom(fs: FileSystem, ops: seq<Op>) returns (ghost views: seq<View>)
    requires fs.Valid() && forall i :: 0 <= i < |ops| ==> Allowed(ops[i])
    modifies fs.disk
    ensures fs.Valid()
    ensures IsRun(views, ops) && views[0] == old(ViewOf(fs.disk.image, map[]))
    ensures views[|ops|] == ViewOf(fs.disk.image, views[|ops|].handles)
  {
    var open: map<nat, OpenFile>, handles: map<nat, CString> := map[], map[];
    hide FileSystem.Opened, Formatted, Next, Allowed, FilesOn;
    assert HandlesOk(fs, open, handles);
    hide HandlesOk;
    views := [ViewOf(fs.disk.image, handles)];
    for i := 0 to |ops|
      invariant fs.Valid() && HandlesOk(fs, open, handles)
      invariant IsRun(views, ops[..i]) && views[0] == old(ViewOf(fs.disk.image, map[]))
      invariant views[i] == ViewOf(fs.disk.image, handles)
    {
      open, handles := Perform(fs, open, handles, ops[i]);
      RunExtends(views, ops, i, ViewOf(fs.disk.image, handles));
      views := views + [ViewOf(fs.disk.image, handles)];
    }
    assert ops[..|ops|] == ops;
  }

  /** A run from a freshly formatted disk, whatever the disk held before. */
  method Run(d: SynchDisk, ops: seq<Op>) returns (fs: FileSystem, ghost views: seq<View>)
    requires forall i :: 0 <= i < |ops| ==> Allowed(ops[i])
    modifies d
    ensures fs.Valid() && fs.disk == d
    ensures IsRun(views, ops) && views[0] == EmptyView && views[|ops|] == ViewOf(d.image, views[|ops|].handles)
  {
    hide Formatted, FilesOn, SystemFiles, Next, Allowed, Volume, HeaderAt;
    fs := new FileSystem(d, true);
    EmptyVolume(d.image);
    views := RunFrom(fs, ops);
  }

  lemma RunExtends(views: seq<View>, ops: seq<Op>, i: nat, v: View)
    requires i < |ops| && IsRun(views, ops[..i]) && Next(views[i], ops[i], v)
    ensures IsRun(views + [v], ops[..i + 1])
  {
    hide Next;
    assert ops[..i + 1] == ops[..i] + [ops[i]];
  }

  lemma EmptyVolume(image: DiskImage)
    requires Formatted(image) && FilesOn(image) == map[]
    ensures Volume(image) == map[]
  {
    hide Formatted, FilesOn;
  }

  // ---- consequences for every run ----

  /** The sectors that the files take: a header each, and their data. */
  ghost function Cost(files: map<CString, seq<byte>>): nat
    decreases |files|
  {
    if files == map[] then 0 else
    var key :| key in files;
    1 + SectorsFor(|files[key]|) + Cost(files - {key})
  }

  lemma {:induction false} CostWithout(files: map<CString, seq<byte>>, key: CString)
    requires key in files
    ensures Cost(files) == 1 + SectorsFor(|files[key]|) + Cost(files - {key})
    decreases |files|
  {
    var k :| k in files && Cost(files) == 1 + SectorsFor(|files[k]|) + Cost(files - {k});
    if k != key {
      CostWithout(files - {k}, key);
      CostWithout(files - {key}, k);
      assert files - {k} - {key} == files - {key} - {k};
    }
  }

  /** The file that an operation creates, removes or writes. */
  function Target(v: View, op: Op): Option<CString> {
    match op
    case Create(name, _) => Some(Key(name))
    case Remove(name) => Some(Key(name))
    case Open(_, _) => None
    case Write(h, _, _) => if h in v.handles then Some(v.handles[h]) else None
    case Close(_) => None
  }

  /** No operation gains or loses a sector. */
  lemma NextConserves(v: View, op: Op, v': View)
    requires Next(v, op, v')
    ensures v'.free + Cost(v'.files) == v.free + Cost(v.files)
  {
    if v'.files != v.files {
      var key := Target(v, op).value;
      if op.Create? {
        CostWithout(v'.files, key);
        assert v'.files - {key} == v.files;
      } else {
        CostWithout(v.files, key);
        if op.Write? {
          CostWithout(v'.files, key);
          assert v'.files - {key} == v.files - {key};
        }
      }
    }
  }

  /** After any run, the sectors are the free ones, the system's, and those of the files present. */
  lemma {:induction false} RunConserves(views: seq<View>, ops: seq<Op>)
    requires IsRun(views, ops) && views[0] == EmptyView
    ensures views[|ops|].free + Cost(views[|ops|].files) + SystemSectors == NumSectors
  {
    if |ops| > 0 {
      var m := |ops| - 1;
      RunConserves(views[..m + 1], ops[..m]);
      NextConserves(views[m], ops[m], views[m + 1]);
    }
  }

  /** Operations on other files leave a file's bytes alone, over any run. */
  lemma {:induction false} RunLeavesOthers(views: seq<View>, ops: seq<Op>, key: CString)
    requires IsRun(views, ops) && key in views[0].files
    requires forall i :: 0 <= i < |ops| ==> Target(views[i], ops[i]) != Some(key)
    ensures key in views[|ops|].files && views[|ops|].files[key] == views[0].files[key]
  {
    if |ops| > 0 {
      assert Next(views[0], ops[0], views[1]);
      RunLeavesOthers(views[1..], ops[1..], key);
    }
  }

  lemma FileMarked(image: DiskImage, key: CString, s: int)
    requires Formatted(image) && 0 <= s < NumSectors && key in FilesOn(image)
    requires s in Extent(FilesOn(image)[key].sector, FilesOn(image)[key].header)
    ensures FreeBits(image)[s]
  {
    hide DecodeHeader, Contents, DecodeTable, DecodeMap, BitsOf;
    assert Owns(image, Table(image), 2 + SlotOf(Table(image), key), s);
  }

  lemma SystemMarked(image: DiskImage, s: int)
    requires Formatted(image) && 0 <= s < NumSectors
    requires s in Extent(FreeMapSector, HeaderAt(image, FreeMapSector))
             || s in Extent(DirectorySector, HeaderAt(image, DirectorySector))
    ensures FreeBits(image)[s]
  {
    hide DecodeHeader, Contents, DecodeTable, DecodeMap, BitsOf;
    assert Owns(image, Table(image), 0, s) || Owns(image, Table(image), 1, s);
  }

  /** A sector that is marked, and not of the system's files, is a listed file's. */
  lemma MarkedOwned(image: DiskImage, s: int) returns (key: CString)
    requires Formatted(image) && 0 <= s < NumSectors && FreeBits(image)[s]
    requires s !in Extent(FreeMapSector, HeaderAt(image, FreeMapSector))
             && s !in Extent(DirectorySector, HeaderAt(image, DirectorySector))
    ensures key in FilesOn(image) && s in Extent(FilesOn(image)[key].sector, FilesOn(image)[key].header)
  {
    hide DecodeHeader, Contents, DecodeTable, DecodeMap, BitsOf;
    var t := Table(image);
    var f :| Owns(image, t, f, s);
    key := KeyOf(t[f - 2]);
    assert Names(t, f - 2, key);
    assert FilesOn(image)[key] == RefAt(image, t, f - 2);
  }

  /** The free map is determined by the headers of the files present. */
  lemma MapFromFiles(image: DiskImage, s: int)
    requires Formatted(image) && 0 <= s < NumSectors
    ensures FreeBits(image)[s] <==>
            || s in Extent(FreeMapSector, HeaderAt(image, FreeMapSector))
            || s in Extent(DirectorySector, HeaderAt(image, DirectorySector))
            || exists key :: key in FilesOn(image)
                             && s in Extent(FilesOn(image)[key].sector, FilesOn(image)[key].header)
  {
    hide DecodeHeader, Contents, DecodeTable, DecodeMap, BitsOf, FreeBits, FilesOn;
    if s in Extent(FreeMapSector, HeaderAt(image, FreeMapSector))
       || s in Extent(DirectorySector, HeaderAt(image, DirectorySector)) {
      SystemMarked(image, s);
    } else if FreeBits(image)[s] {
      var key := MarkedOwned(image, s);
    } else if key :| key in FilesOn(image) && s in Extent(FilesOn(image)[key].sector, FilesOn(image)[key].header) {
      FileMarked(image, key, s);
    }
  }

  /** Creating a file and removing it again restores the free map bit for bit and the directory as a map. */
  method CreateThenRemove(fs: FileSystem, name: CString, size: int32) returns (created: bool)
    requires fs.Valid() && Allowed(Create(name, size))
    modifies fs.disk
    ensures fs.Valid()
    ensures created ==> FreeBits(fs.disk.image) == old(FreeBits(fs.disk.image))
    ensures created ==> FilesOn(fs.disk.image) == old(FilesOn(fs.disk.image))
    ensures created ==> Volume(fs.disk.image) == old(Volume(fs.disk.image))
    ensures !created ==> fs.disk.image == old(fs.disk.image)
  {
    hide Formatted, SystemFiles, FilesOn, FreeBits, Extent, DecodeHeader, Table, Full, DivRoundUp, FreeSectorsOn;
    ghost var image := fs.disk.image;
    created := fs.Create(name, size);
    if created {
      var removed := fs.Remove(name);
      ghost var image' := fs.disk.image;
      assert FilesOn(image') == FilesOn(image);
      forall s | 0 <= s < NumSectors ensures FreeBits(image')[s] == FreeBits(image)[s] {
        MapFromFiles(image, s);
        MapFromFiles(image', s);
      }
    }
  }
}
