/**
 The directory: a fixed table of entries, each naming a file and the sector of
 its header, stored on disk as the bytes of an ordinary file.  This module also
 holds the transfer of the free map between memory and its file.
 */
module Directories {
  import opened Words
  import opened BitMaps
  import opened FileHeaders
  import opened OpenFiles

  const FileNameMaxLen := 9
  const EntrySize := 20

  /** A C string: the bytes before its terminator. */
  type CString = s: seq<byte> | forall i :: 0 <= i < |s| ==> s[i] != 0

  /** The part of a name that the directory distinguishes. */
  function Truncate(name: CString, n: nat): CString {
    if |name| <= n then name else name[..n]
  }

  /** The C string stored in the first `n` bytes at `a`. */
  function CStr(a: seq<byte>, n: nat): CString
    requires n <= |a|
  {
    if n == 0 || a[0] == 0 then [] else [a[0]] + CStr(a[1..], n - 1)
  }

  /** `strncmp(a, b, n) == 0`. */
  predicate StrNEq(a: seq<byte>, b: CString, n: nat)
    requires n <= |a|
  {
    if n == 0 then true
    else if b == [] then a[0] == 0
    else a[0] == b[0] && StrNEq(a[1..], b[1..], n - 1)
  }

  /** The bytes `strncpy(_, src, n)` stores: the string, cut or padded with zeros. */
  function StrNCopy(src: CString, n: nat): (dst: seq<byte>)
    ensures |dst| == n
  {
    if n == 0 then [] else if src == [] then [0] + StrNCopy(src, n - 1) else [src[0]] + StrNCopy(src[1..], n - 1)
  }

  /** Comparing at most `n` characters is comparing the truncated strings. */
  lemma {:induction false} StrNEqIsEquality(a: seq<byte>, b: CString, n: nat)
    requires n <= |a|
    ensures StrNEq(a, b, n) <==> CStr(a, n) == Truncate(b, n)
  {
    if n > 0 && b != [] {
      StrNEqIsEquality(a[1..], b[1..], n - 1);
      assert Truncate(b, n) == [b[0]] + Truncate(b[1..], n - 1);
      if a[0] != 0 {
        assert CStr(a, n)[1..] == CStr(a[1..], n - 1);
        assert Truncate(b, n)[1..] == Truncate(b[1..], n - 1);
      }
    }
  }

  /** A copied name is stored as its truncation, whatever follows it in memory. */
  lemma {:induction false} StoredName(src: CString, n: nat, rest: seq<byte>)
    ensures CStr(StrNCopy(src, n) + rest, n) == Truncate(src, n)
  {
    var a := StrNCopy(src, n) + rest;
    if n > 0 && src != [] {
      StoredName(src[1..], n - 1, rest);
      var tail := StrNCopy(src[1..], n - 1) + rest;
      assert StrNCopy(src, n) == [src[0]] + StrNCopy(src[1..], n - 1);
      hide StrNCopy;
      assert a[0] == src[0] && a[1..] == tail;
      assert CStr(a, n) == [src[0]] + CStr(tail, n - 1);
      hide CStr;
      assert Truncate(src, n) == [src[0]] + Truncate(src[1..], n - 1);
    } else if n > 0 {
      assert a[0] == 0;
    }
  }

  // ---- entries ----

  /** An entry as the compiler lays it out, including the padding after `inUse` and `name`. */
  datatype RawEntry = DirectoryEntry(inUse: byte, pad: seq<byte>, sector: int32, name: seq<byte>, tail: seq<byte>)
  {
    predicate InUse() { inUse != 0 }
  }

  type Entry = e: RawEntry | |e.pad| == 3 && |e.name| == FileNameMaxLen + 1 && |e.tail| == 2
    witness DirectoryEntry(0, [0, 0, 0], 0, [0, 0, 0, 0, 0, 0, 0, 0, 0, 0], [0, 0])

  function KeyOf(e: Entry): CString {
    CStr(e.name, FileNameMaxLen)
  }

  function EncodeEntry(e: Entry): (bs: seq<byte>)
    ensures |bs| == EntrySize
  {
    [e.inUse] + e.pad + EncodeWords([ToWord(e.sector)]) + e.name + e.tail
  }

  function DecodeEntry(bs: seq<byte>): Entry
    requires |bs| == EntrySize
  {
    DirectoryEntry(bs[0], bs[1..4], FromWord(DecodeWords(bs[4..8], 1)[0]), bs[8..18], bs[18..20])
  }

  lemma EntryRoundTrip(e: Entry)
    ensures DecodeEntry(EncodeEntry(e)) == e
  {
    var bs := EncodeEntry(e);
    assert bs[1..4] == e.pad && bs[8..18] == e.name && bs[18..20] == e.tail;
    assert bs[4..8] == EncodeWords([ToWord(e.sector)]);
    DecodeEncode([ToWord(e.sector)]);
  }

  function EncodeTable(t: seq<Entry>): (bs: seq<byte>)
    ensures |bs| == EntrySize * |t|
  {
    seq(EntrySize * |t|, i requires 0 <= i < EntrySize * |t| => EncodeEntry(t[i / EntrySize])[i % EntrySize])
  }

  function DecodeTable(bs: seq<byte>, n: nat): (t: seq<Entry>)
    requires EntrySize * n <= |bs|
    ensures |t| == n
  {
    seq(n, i requires 0 <= i < n => DecodeEntry(bs[EntrySize * i..EntrySize * i + EntrySize]))
  }

  /** A table written as bytes is read back unchanged. */
  lemma TableRoundTrip(t: seq<Entry>)
    ensures DecodeTable(EncodeTable(t), |t|) == t
  {
    var bs := EncodeTable(t);
    forall i | 0 <= i < |t| ensures DecodeTable(bs, |t|)[i] == t[i] {
      EncodedSlice(t, i);
      EntryRoundTrip(t[i]);
    }
  }

  lemma EncodedSlice(t: seq<Entry>, i: nat)
    requires i < |t|
    ensures EncodeTable(t)[EntrySize * i..EntrySize * i + EntrySize] == EncodeEntry(t[i])
  {
    forall k | 0 <= k < EntrySize
      ensures EncodeTable(t)[EntrySize * i + k] == EncodeEntry(t[i])[k]
    {
      assert (EntrySize * i + k) / EntrySize == i && (EntrySize * i + k) % EntrySize == k;
    }
  }

  // ---- the table as a name map ----

  /** Entry `i` is live under `key`. */
  predicate Names(t: seq<Entry>, i: int, key: CString) {
    0 <= i < |t| && t[i].InUse() && KeyOf(t[i]) == key
  }

  ghost predicate Listed(t: seq<Entry>, key: CString) {
    exists i :: Names(t, i, key)
  }

  /** No two live entries share a name. */
  ghost predicate UniqueNames(t: seq<Entry>) {
    forall i, j, key :: Names(t, i, key) && Names(t, j, key) ==> i == j
  }

  ghost predicate FirstUnused(t: seq<Entry>, i: nat) {
    i < |t| && !t[i].InUse() && forall j :: 0 <= j < i ==> t[j].InUse()
  }

  ghost predicate Full(t: seq<Entry>) {
    forall i :: 0 <= i < |t| ==> t[i].InUse()
  }

  class Directory {
    const table: array<Entry>

    /** Storage for `size` entries, none in use; the other fields hold whatever was there. */
    constructor (size: nat)
      ensures fresh(table) && table.Length == size
      ensures forall i :: 0 <= i < size ==> !table[i].InUse()
    {
      table := new Entry[size];
      new;
      for i := 0 to size
        invariant forall j :: 0 <= j < i ==> !table[j].InUse()
      {
        table[i] := table[i].(inUse := 0);
      }
    }

    method FindIndex(name: CString) returns (r: int)
      ensures -1 <= r < table.Length
      ensures r >= 0 ==> Names(table[..], r, Truncate(name, FileNameMaxLen))
      ensures r >= 0 ==> forall j :: 0 <= j < r ==> !Names(table[..], j, Truncate(name, FileNameMaxLen))
      ensures r == -1 <==> !Listed(table[..], Truncate(name, FileNameMaxLen))
    {
      var key := Truncate(name, FileNameMaxLen);
      for i := 0 to table.Length
        invariant forall j :: 0 <= j < i ==> !Names(table[..], j, key)
      {
        StrNEqIsEquality(table[i].name, name, FileNameMaxLen);
        if table[i].InUse() && StrNEq(table[i].name, name, FileNameMaxLen) {
          assert Names(table[..], i, key);
          return i;
        }
      }
      return -1;
    }

    /** The header sector of the named file, or -1. */
    method Find(name: CString) returns (r: int)
      ensures Listed(table[..], Truncate(name, FileNameMaxLen)) ==>
                exists i :: Names(table[..], i, Truncate(name, FileNameMaxLen)) && r == table[i].sector
      ensures !Listed(table[..], Truncate(name, FileNameMaxLen)) ==> r == -1
    {
      var i := FindIndex(name);
      if i != -1 {
        return table[i].sector;
      }
      return -1;
    }

    /** Enters the name in the first unused slot. */
    method Add(name: CString, newSector: int32) returns (ok: bool)
      modifies table
      ensures ok == (!old(Listed(table[..], Truncate(name, FileNameMaxLen))) && !old(Full(table[..])))
      ensures !ok ==> table[..] == old(table[..])
      ensures ok ==> exists i :: 0 <= i < table.Length && Adds(old(table[..]), table[..], i, name, newSector)
                                 && FirstUnused(old(table[..]), i)
    {
      var r := FindIndex(name);
      if r != -1 {
        return false;
      }
      for i := 0 to table.Length
        invariant table[..] == old(table[..])
        invariant forall j :: 0 <= j < i ==> table[j].InUse()
      {
        if !table[i].InUse() {
          assert !old(table[..])[i].InUse();
          StoredName(name, FileNameMaxLen, table[i].name[FileNameMaxLen..]);
          table[i] := table[i].(inUse := 1,
                                name := StrNCopy(name, FileNameMaxLen) + table[i].name[FileNameMaxLen..],
                                sector := newSector);
          assert FirstUnused(old(table[..]), i);
          assert Adds(old(table[..]), table[..], i, name, newSector);
          return true;
        }
      }
      return false;
    }

    /** Frees the slot of the name. */
    method Remove(name: CString) returns (ok: bool)
      modifies table
      ensures ok == old(Listed(table[..], Truncate(name, FileNameMaxLen)))
      ensures !ok ==> table[..] == old(table[..])
      ensures ok ==> exists i :: Names(old(table[..]), i, Truncate(name, FileNameMaxLen))
                                 && table[..] == old(table[..])[i := old(table[..])[i].(inUse := 0)]
    {
      var i := FindIndex(name);
      if i == -1 {
        return false;
      }
      table[i] := table[i].(inUse := 0);
      assert table[..] == old(table[..])[i := old(table[..])[i].(inUse := 0)];
      return true;
    }

    method FetchFrom(file: OpenFile)
      requires file.Valid() && file.hdr.numBytes == EntrySize * table.Length
      modifies table
      ensures table[..] == DecodeTable(Contents(file.disk.image, file.hdr.Data()), table.Length)
    {
      var size := EntrySize * table.Length;
      var raw := new byte[size];
      var n := file.ReadAt(raw, 0, size, 0);
      assert raw[..] == Contents(file.disk.image, file.hdr.Data()) by {
        assert size > 0 ==> raw[..] == raw[0..size];
      }
      hide Contents, DecodeTable;
      var t := DecodeTable(raw[..], table.Length);
      forall i | 0 <= i < table.Length {
        table[i] := t[i];
      }
    }

    method WriteBack(file: OpenFile)
      requires file.Valid() && file.hdr.numBytes == EntrySize * table.Length
      modifies file.disk
      ensures Contents(file.disk.image, file.hdr.Data()) == EncodeTable(table[..])
      ensures forall s :: 0 <= s < NumSectors && s !in file.hdr.Data().Blocks() ==>
                file.disk.image[s] == old(file.disk.image)[s]
    {
      var size := EntrySize * table.Length;
      var bytes := EncodeTable(table[..]);
      var raw := new byte[size](i requires 0 <= i < size => bytes[i]);
      assert raw[..] == bytes && raw[..size] == bytes;
      var n := file.WriteAt(raw, size, 0);
    }
  }

  /** `t'` is `t` with `name` and `sector` entered in the unused slot `i`. */
  ghost predicate Adds(t: seq<Entry>, t': seq<Entry>, i: nat, name: CString, sector: int32) {
    && |t'| == |t| && i < |t| && !t[i].InUse()
    && Names(t', i, Truncate(name, FileNameMaxLen)) && t'[i].sector == sector
    && t' == t[i := t'[i]]
  }

  // ---- the free map on disk ----

  function WordValues(ws: seq<bv32>): (r: seq<uint32>)
    ensures |r| == |ws|
  {
    seq(|ws|, i requires 0 <= i < |ws| => ws[i] as int)
  }

  function WordBits(ws: seq<uint32>): (r: seq<bv32>)
    ensures |r| == |ws|
  {
    seq(|ws|, i requires 0 <= i < |ws| => ws[i] as bv32)
  }

  lemma WordBitsInverse(ws: seq<bv32>)
    ensures WordBits(WordValues(ws)) == ws
  {
  }

  function EncodeMap(ws: seq<bv32>): (bs: seq<byte>)
    ensures |bs| == 4 * |ws|
  {
    EncodeWords(WordValues(ws))
  }

  function DecodeMap(bs: seq<byte>, n: nat): (ws: seq<bv32>)
    requires 4 * n <= |bs|
    ensures |ws| == n
  {
    WordBits(DecodeWords(bs, n))
  }

  lemma MapRoundTrip(ws: seq<bv32>)
    ensures DecodeMap(EncodeMap(ws), |ws|) == ws
  {
    DecodeEncode(WordValues(ws));
    WordBitsInverse(ws);
  }

  /** `BitMap::FetchFrom`. */
  method FetchMap(bitMap: BitMap, file: OpenFile)
    requires file.Valid() && file.hdr.numBytes == 4 * bitMap.words.Length
    modifies bitMap.words
    ensures bitMap.words[..] == DecodeMap(Contents(file.disk.image, file.hdr.Data()), bitMap.words.Length)
  {
    var size := 4 * bitMap.words.Length;
    var raw := new byte[size];
    var n := file.ReadAt(raw, 0, size, 0);
    assert raw[..] == Contents(file.disk.image, file.hdr.Data()) by {
      assert size > 0 ==> raw[..] == raw[0..size];
    }
    var ws := DecodeMap(raw[..], bitMap.words.Length);
    forall i | 0 <= i < bitMap.words.Length {
      bitMap.words[i] := ws[i];
    }
  }

  /** `BitMap::WriteBack`. */
  method StoreMap(bitMap: BitMap, file: OpenFile)
    requires file.Valid() && file.hdr.numBytes == 4 * bitMap.words.Length
    modifies file.disk
    ensures Contents(file.disk.image, file.hdr.Data()) == EncodeMap(bitMap.words[..])
    ensures forall s :: 0 <= s < NumSectors && s !in file.hdr.Data().Blocks() ==>
              file.disk.image[s] == old(file.disk.image)[s]
  {
    var size := 4 * bitMap.words.Length;
    var bytes := EncodeMap(bitMap.words[..]);
    var raw := new byte[size](i requires 0 <= i < size => bytes[i]);
    assert raw[..] == bytes && raw[..size] == bytes;
    var n := file.WriteAt(raw, size, 0);
  }
}
