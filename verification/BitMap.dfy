/**
 The bit map that records which disk sectors or memory frames are in use:
 an array of 32-bit words, on which bits are set and cleared with masks.
 */
module BitMaps {
  const BitsInWord := 32

  /** `divRoundUp` for a non-negative count. */
  function WordsFor(bits: nat): nat {
    (bits + BitsInWord - 1) / BitsInWord
  }

  // ---- single words ----

  predicate BitAt(w: bv32, k: bv5) { w & ((1 as bv32) << k) != 0 }

  function SetAt(w: bv32, k: bv5): bv32 { w | ((1 as bv32) << k) }

  function ClearAt(w: bv32, k: bv5): bv32 { w & !((1 as bv32) << k) }

  lemma SetHits(w: bv32, k: bv5)
    ensures BitAt(SetAt(w, k), k)
  {
    assert (w | ((1 as bv32) << k)) & ((1 as bv32) << k) != 0;
  }

  lemma ClearHits(w: bv32, k: bv5)
    ensures !BitAt(ClearAt(w, k), k)
  {
    assert (w & !((1 as bv32) << k)) & ((1 as bv32) << k) == 0;
  }

  lemma SetMissesRaw(w: bv32, k: bv5, j: bv5)
    requires k != j
    ensures (w | ((1 as bv32) << k)) & ((1 as bv32) << j) == w & ((1 as bv32) << j)
  {
  }

  lemma ClearMissesRaw(w: bv32, k: bv5, j: bv5)
    requires k != j
    ensures (w & !((1 as bv32) << k)) & ((1 as bv32) << j) == w & ((1 as bv32) << j)
  {
  }

  lemma SetMisses(w: bv32, k: bv5, j: bv5)
    requires k != j
    ensures BitAt(SetAt(w, k), j) == BitAt(w, j)
  {
    SetMissesRaw(w, k, j);
    assert SetAt(w, k) == w | ((1 as bv32) << k);
  }

  lemma ClearMisses(w: bv32, k: bv5, j: bv5)
    requires k != j
    ensures BitAt(ClearAt(w, k), j) == BitAt(w, j)
  {
    ClearMissesRaw(w, k, j);
    assert ClearAt(w, k) == w & !((1 as bv32) << k);
  }

  /** Bit position within a word; distinct positions get distinct shift counts. */
  function Shift(k: nat): (s: bv5)
    requires k < BitsInWord
    ensures s as int == k
  {
    k as bv5
  }

  // ---- arrays of words ----

  /** Bit `i` of a word array. */
  predicate Bit(ws: seq<bv32>, i: nat)
    requires i / BitsInWord < |ws|
  {
    BitAt(ws[i / BitsInWord], Shift(i % BitsInWord))
  }

  function MarkBit(ws: seq<bv32>, i: nat): (r: seq<bv32>)
    requires i / BitsInWord < |ws|
  {
    ws[i / BitsInWord := SetAt(ws[i / BitsInWord], Shift(i % BitsInWord))]
  }

  function ClearBit(ws: seq<bv32>, i: nat): (r: seq<bv32>)
    requires i / BitsInWord < |ws|
  {
    ws[i / BitsInWord := ClearAt(ws[i / BitsInWord], Shift(i % BitsInWord))]
  }

  lemma ShiftsDiffer(i: nat, j: nat)
    requires i != j && i / BitsInWord == j / BitsInWord
    ensures Shift(i % BitsInWord) != Shift(j % BitsInWord)
  {
  }

  /** Marking bit `i` sets it and touches no other bit. */
  lemma MarkBitEffect(ws: seq<bv32>, i: nat, j: nat)
    requires i / BitsInWord < |ws| && j / BitsInWord < |ws|
    ensures Bit(MarkBit(ws, i), j) == (i == j || Bit(ws, j))
  {
    var q := i / BitsInWord;
    if i == j {
      SetHits(ws[q], Shift(i % BitsInWord));
    } else if q == j / BitsInWord {
      ShiftsDiffer(i, j);
      SetMisses(ws[q], Shift(i % BitsInWord), Shift(j % BitsInWord));
    }
  }

  /** Clearing bit `i` clears it and touches no other bit. */
  lemma ClearBitEffect(ws: seq<bv32>, i: nat, j: nat)
    requires i / BitsInWord < |ws| && j / BitsInWord < |ws|
    ensures Bit(ClearBit(ws, i), j) == (i != j && Bit(ws, j))
  {
    var q := i / BitsInWord;
    if i == j {
      ClearHits(ws[q], Shift(i % BitsInWord));
    } else if q == j / BitsInWord {
      ShiftsDiffer(i, j);
      ClearMisses(ws[q], Shift(i % BitsInWord), Shift(j % BitsInWord));
    }
  }

  /** The first `n` bits of a word array. */
  function BitsOf(ws: seq<bv32>, n: nat): (bits: seq<bool>)
    requires n <= BitsInWord * |ws|
    ensures |bits| == n
  {
    seq(n, i requires 0 <= i < n => Bit(ws, i))
  }

  lemma BitsOfMark(ws: seq<bv32>, n: nat, i: nat)
    requires i < n <= BitsInWord * |ws|
    ensures BitsOf(MarkBit(ws, i), n) == BitsOf(ws, n)[i := true]
  {
    forall j | 0 <= j < n ensures BitsOf(MarkBit(ws, i), n)[j] == BitsOf(ws, n)[i := true][j] {
      MarkBitEffect(ws, i, j);
    }
  }

  lemma BitsOfClear(ws: seq<bv32>, n: nat, i: nat)
    requires i < n <= BitsInWord * |ws|
    ensures BitsOf(ClearBit(ws, i), n) == BitsOf(ws, n)[i := false]
  {
    forall j | 0 <= j < n ensures BitsOf(ClearBit(ws, i), n)[j] == BitsOf(ws, n)[i := false][j] {
      ClearBitEffect(ws, i, j);
    }
  }

  // ---- counting ----

  /** The clear bits, as a set of positions. */
  function ClearSet(bits: seq<bool>): set<nat> {
    set i: nat | i < |bits| && !bits[i]
  }

  /** The set bits, as a set of positions. */
  function MarkedSet(bits: seq<bool>): set<nat> {
    set i: nat | i < |bits| && bits[i]
  }

  lemma {:induction false} MarkedPlusClear(bits: seq<bool>)
    ensures |MarkedSet(bits)| + |ClearSet(bits)| == |bits|
  {
    if |bits| > 0 {
      var m := |bits| - 1;
      MarkedPlusClear(bits[..m]);
      LastBit(bits);
      hide MarkedSet, ClearSet;
    }
  }

  lemma LastBit(bits: seq<bool>)
    requires |bits| > 0
    ensures var m := |bits| - 1;
            && |MarkedSet(bits)| == |MarkedSet(bits[..m])| + (if bits[m] then 1 else 0)
            && |ClearSet(bits)| == |ClearSet(bits[..m])| + (if bits[m] then 0 else 1)
  {
    var m := |bits| - 1;
    assert MarkedSet(bits) == MarkedSet(bits[..m]) + (if bits[m] then {m} else {});
    assert ClearSet(bits) == ClearSet(bits[..m]) + (if bits[m] then {} else {m});
  }

  lemma ClearedCount(bits: seq<bool>, i: nat)
    requires i < |bits| && bits[i]
    ensures |ClearSet(bits[i := false])| == |ClearSet(bits)| + 1
  {
    assert ClearSet(bits[i := false]) == ClearSet(bits) + {i};
  }

  lemma MarkedCount(bits: seq<bool>, i: nat)
    requires i < |bits| && !bits[i]
    ensures |ClearSet(bits[i := true])| == |ClearSet(bits)| - 1
  {
    assert ClearSet(bits[i := true]) == ClearSet(bits) - {i};
  }

  lemma AllClear(bits: seq<bool>)
    requires forall i :: 0 <= i < |bits| ==> !bits[i]
    ensures |ClearSet(bits)| == |bits|
  {
    MarkedPlusClear(bits);
    assert MarkedSet(bits) == {};
  }

  class BitMap {
    const numBits: nat
    const words: array<bv32>

    ghost predicate Valid()
      reads this
    {
      numBits <= BitsInWord * words.Length
    }

    ghost function Bits(): (bits: seq<bool>)
      requires Valid()
      reads this, words
      ensures |bits| == numBits
    {
      BitsOf(words[..], numBits)
    }

    /** A map of `nitems` bits, all clear, whatever the storage held. */
    constructor (nitems: nat)
      ensures Valid() && fresh(words) && numBits == nitems && words.Length == WordsFor(nitems)
      ensures Bits() == seq(nitems, i => false)
    {
      numBits := nitems;
      words := new bv32[WordsFor(nitems)];
      new;
      for i := 0 to nitems
        invariant forall j :: 0 <= j < i ==> !Bits()[j]
      {
        Clear(i);
      }
    }

    method Mark(which: nat)
      requires Valid() && which < numBits
      modifies words
      ensures Bits() == old(Bits())[which := true]
    {
      BitsOfMark(words[..], numBits, which);
      ghost var before := words[..];
      words[which / BitsInWord] := SetAt(words[which / BitsInWord], Shift(which % BitsInWord));
      assert words[..] == MarkBit(before, which);
    }

    method Clear(which: nat)
      requires Valid() && which < numBits
      modifies words
      ensures Bits() == old(Bits())[which := false]
    {
      BitsOfClear(words[..], numBits, which);
      ghost var before := words[..];
      words[which / BitsInWord] := ClearAt(words[which / BitsInWord], Shift(which % BitsInWord));
      assert words[..] == ClearBit(before, which);
    }

    method Test(which: nat) returns (marked: bool)
      requires Valid() && which < numBits
      ensures marked == Bits()[which]
    {
      marked := BitAt(words[which / BitsInWord], Shift(which % BitsInWord));
      assert words[..][which / BitsInWord] == words[which / BitsInWord];
    }

    /** Allocates the lowest clear bit, or reports -1 when there is none. */
    method Find() returns (r: int)
      requires Valid()
      modifies words
      ensures -1 <= r < numBits
      ensures r == -1 <==> |ClearSet(old(Bits()))| == 0
      ensures r == -1 ==> Bits() == old(Bits())
      ensures r >= 0 ==> !old(Bits())[r] && Bits() == old(Bits())[r := true]
      ensures r >= 0 ==> |ClearSet(Bits())| == |ClearSet(old(Bits()))| - 1
      ensures r >= 0 ==> forall j :: 0 <= j < r ==> old(Bits())[j]
    {
      for i := 0 to numBits
        invariant Bits() == old(Bits())
        invariant forall j :: 0 <= j < i ==> Bits()[j]
      {
        var marked := Test(i);
        if !marked {
          assert i in ClearSet(Bits());
          Mark(i);
          assert ClearSet(Bits()) == ClearSet(old(Bits())) - {i};
          return i;
        }
      }
      assert ClearSet(Bits()) == {};
      return -1;
    }

    /** The number of clear bits. */
    method NumClear() returns (count: nat)
      requires Valid()
      ensures count == |ClearSet(Bits())|
    {
      count := 0;
      for i := 0 to numBits
        invariant count == |ClearSet(Bits()[..i])|
      {
        var marked := Test(i);
        if marked {
          assert ClearSet(Bits()[..i + 1]) == ClearSet(Bits()[..i]);
        } else {
          assert ClearSet(Bits()[..i + 1]) == ClearSet(Bits()[..i]) + {i};
          count := count + 1;
        }
      }
      assert Bits()[..numBits] == Bits();
    }
  }
}
