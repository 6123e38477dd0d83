/**
 Bytes and machine words as they lie in the simulated machine's memory and on
 its disk: 32-bit words, least significant byte first.  In-memory records reach
 the disk by reinterpreting their storage as characters, so every on-disk
 structure is built from these conversions.
 */
module Words {

  type byte = x: int | 0 <= x < 0x100
  type uint32 = x: int | 0 <= x < 0x1_0000_0000
  type int32 = x: int | -0x8000_0000 <= x < 0x8000_0000

  /** Two's complement: the word that stores a signed integer. */
  function ToWord(x: int32): uint32 {
    if x < 0 then x + 0x1_0000_0000 else x
  }

  function FromWord(w: uint32): int32 {
    if w < 0x8000_0000 then w else w - 0x1_0000_0000
  }

  /** Byte `k` of word `w`. */
  function ByteOf(w: uint32, k: nat): byte
    requires k < 4
  {
    if k == 0 then w % 0x100
    else if k == 1 then w / 0x100 % 0x100
    else if k == 2 then w / 0x1_0000 % 0x100
    else w / 0x100_0000
  }

  function Join(b0: byte, b1: byte, b2: byte, b3: byte): uint32 {
    b0 + 0x100 * b1 + 0x1_0000 * b2 + 0x100_0000 * b3
  }

  /** A word is the sum of its bytes, the first with the least weight. */
  lemma JoinBytes(w: uint32)
    ensures w == ByteOf(w, 0) + 256 * ByteOf(w, 1) + 65536 * ByteOf(w, 2) + 16777216 * ByteOf(w, 3)
    ensures Join(ByteOf(w, 0), ByteOf(w, 1), ByteOf(w, 2), ByteOf(w, 3)) == w
  {
    assert w / 0x1_0000 == w / 0x100 / 0x100;
    assert w / 0x100_0000 == w / 0x1_0000 / 0x100;
  }

  /** The bytes of an array of words. */
  function EncodeWords(ws: seq<uint32>): (bs: seq<byte>)
    ensures |bs| == 4 * |ws|
  {
    seq(4 * |ws|, i requires 0 <= i < 4 * |ws| => ByteOf(ws[i / 4], i % 4))
  }

  /** The first `n` words stored in `bs`. */
  function DecodeWords(bs: seq<byte>, n: nat): (ws: seq<uint32>)
    requires 4 * n <= |bs|
    ensures |ws| == n
  {
    seq(n, i requires 0 <= i < n => Join(bs[4 * i], bs[4 * i + 1], bs[4 * i + 2], bs[4 * i + 3]))
  }

  lemma EncodedByte(ws: seq<uint32>, i: nat, k: nat)
    requires i < |ws| && k < 4
    ensures EncodeWords(ws)[4 * i + k] == ByteOf(ws[i], k)
  {
    assert (4 * i + k) / 4 == i && (4 * i + k) % 4 == k;
  }

  /** Storing an array of words and loading it back gives the same words. */
  lemma DecodeEncode(ws: seq<uint32>)
    ensures DecodeWords(EncodeWords(ws), |ws|) == ws
  {
    forall i | 0 <= i < |ws|
      ensures DecodeWords(EncodeWords(ws), |ws|)[i] == ws[i]
    {
      JoinBytes(ws[i]);
      EncodedByte(ws, i, 0);
      EncodedByte(ws, i, 1);
      EncodedByte(ws, i, 2);
      EncodedByte(ws, i, 3);
    }
  }
}
