/**
 Multiplication and overflow detection in the MIPS simulator.  Words wrap at
 32 bits; a signed operand is shifted right arithmetically.
 */
module Mips {
  import opened Words

  const Base: int := 0x1_0000_0000

  /** The unsigned number in a pair of words. */
  function Double(hi: uint32, lo: uint32): nat { hi * Base + lo }

  /** The signed number in a pair of words. */
  function SignedDouble(hi: uint32, lo: uint32): int {
    if hi < 0x8000_0000 then Double(hi, lo) else Double(hi, lo) - Base * Base
  }

  function Negate(x: int32): int32 {
    if x == -0x8000_0000 then x else -x
  }

  /** `~w` */
  function Complement(w: uint32): uint32 { Base - 1 - w }

  function Wrap(x: int): uint32 { x % Base }

  function Pow2(i: nat): nat { if i == 0 then 1 else 2 * Pow2(i - 1) }

  lemma Pow2At32()
    ensures Pow2(32) == Base && Pow2(0) == 1
  {
    assert Pow2(8) == 0x100;
    assert Pow2(16) == 0x100 * Pow2(8);
    assert Pow2(24) == 0x100 * Pow2(16);
    assert Pow2(32) == 0x100 * Pow2(24);
  }

  lemma {:induction false} Pow2Bound(i: nat)
    requires i <= 32
    ensures 1 <= Pow2(i) && Pow2(i) * Pow2(32 - i) == Base
    decreases 32 - i
  {
    if i == 32 {
      Pow2At32();
    } else {
      Pow2Bound(i + 1);
      assert Pow2(i + 1) == 2 * Pow2(i) && Pow2(32 - i) == 2 * Pow2(31 - i);
      hide Pow2;
      Twice(Pow2(i), Pow2(31 - i));
    }
  }

  lemma Twice(x: nat, y: nat)
    ensures x * (2 * y) == (2 * x) * y
  {
  }

  lemma Pow2Below(i: nat)
    requires i < 32
    ensures 1 <= Pow2(i) && 2 * Pow2(i) <= Base
  {
    Pow2Bound(i);
    var x, y := Pow2(i), Pow2(32 - i);
    assert y == 2 * Pow2(31 - i);
    Pow2Bound(31 - i);
    assert x * y >= x * 2;
  }

  /**
   What the loop has done after `i` turns: `r` is the part of the multiplier
   consumed so far and `a` the rest, `b` shifted left by `i` is in `bHi` and
   `bLo`, and `hi` and `lo` hold the product of `b` and `r`.
   */
  ghost predicate Progress(a0: int32, b0: nat, i: nat, a: int, r: nat, bHi: uint32, bLo: uint32, hi: uint32,
                           lo: uint32) {
    && i <= 32 && a0 == a * Pow2(i) + r && r < Pow2(i)
    && Double(bHi, bLo) == b0 * Pow2(i) && Double(hi, lo) == b0 * r
  }

  /** The high word after an addition that gave `lo` as the low word. */
  function SumHi(hi: uint32, lo: uint32, bHi: uint32, bLo: uint32): uint32 {
    Wrap((if lo < bLo then Wrap(hi + 1) else hi) + bHi)
  }

  /** The high word after a shift to the left. */
  function NextHi(bHi: uint32, bLo: uint32): uint32 {
    if bLo >= 0x8000_0000 then Wrap(Wrap(2 * bHi) + 1) else Wrap(2 * bHi)
  }

  lemma MulMono(x: nat, y: nat, z: nat)
    requires x <= y
    ensures x * z <= y * z
  {
  }

  lemma ProductBound(b: nat, r: nat)
    requires b < Base && r <= Base
    ensures b * r < Base * Base
  {
    MulMono(r, Base, b);
  }

  /** Adding the shifted multiplicand with a carry out of the low word. */
  lemma AddShifted(b0: nat, i: nat, r: nat, bHi: uint32, bLo: uint32, hi: uint32, lo: uint32)
    requires b0 < Base && i < 32 && r < Pow2(i)
    requires Double(bHi, bLo) == b0 * Pow2(i) && Double(hi, lo) == b0 * r
    ensures var lo' := Wrap(lo + bLo);
            var hi' := SumHi(hi, lo', bHi, bLo);
            Double(hi', lo') == b0 * (r + Pow2(i)) && r + Pow2(i) < Base
  {
    var p := Pow2(i);
    Pow2Below(i);
    assert b0 * (r + p) == b0 * r + b0 * p;
    ProductBound(b0, r + p);
    Carry(hi, lo, bHi, bLo);
  }

  lemma Carry(hi: uint32, lo: uint32, bHi: uint32, bLo: uint32)
    requires Double(hi, lo) + Double(bHi, bLo) < Base * Base
    ensures var lo' := Wrap(lo + bLo);
            var hi' := SumHi(hi, lo', bHi, bLo);
            Double(hi', lo') == Double(hi, lo) + Double(bHi, bLo)
  {
  }

  lemma ShiftDouble(hi: uint32, lo: uint32)
    requires 2 * Double(hi, lo) < Base * Base
    ensures Double(NextHi(hi, lo), Wrap(2 * lo)) == 2 * Double(hi, lo)
  {
  }

  /** Shifting the multiplicand left across the two words. */
  lemma ShiftLeft(b0: nat, i: nat, bHi: uint32, bLo: uint32)
    requires b0 < Base && i < 32 && Double(bHi, bLo) == b0 * Pow2(i)
    ensures Double(NextHi(bHi, bLo), Wrap(2 * bLo)) == b0 * Pow2(i + 1)
  {
    var p := Pow2(i);
    Pow2Below(i);
    assert b0 * (2 * p) == 2 * (b0 * p);
    ProductBound(b0, 2 * p);
    ShiftDouble(bHi, bLo);
  }

  /** Shifting the multiplier right, arithmetically. */
  lemma ShiftRight(a0: int32, i: nat, a: int, r: nat)
    requires a0 == a * Pow2(i) + r && r < Pow2(i)
    ensures a % 2 == 0 ==> a0 == (a / 2) * Pow2(i + 1) + r && r < Pow2(i + 1)
    ensures a % 2 == 1 ==> a0 == (a / 2) * Pow2(i + 1) + (r + Pow2(i)) && r + Pow2(i) < Pow2(i + 1)
  {
    var p, h := Pow2(i), a / 2;
    assert a == 2 * h + a % 2;
    assert (2 * h) * p == h * (2 * p);
    assert (2 * h + 1) * p == (2 * h) * p + p;
  }

  /** The two's complement of a double word. */
  lemma NegateDouble(hi: uint32, lo: uint32)
    requires Double(hi, lo) != 0
    ensures var lo' := Wrap(Complement(lo) + 1);
            var hi' := Wrap(Complement(hi) + if lo' == 0 then 1 else 0);
            Double(hi', lo') == Base * Base - Double(hi, lo)
  {
  }

  /** Multiplies two words, signed or unsigned, by shifting and adding. */
  method Mult(a0: int32, b0: int32, signedArith: bool) returns (hi: uint32, lo: uint32)
    ensures signedArith ==> SignedDouble(hi, lo) == a0 * b0
    ensures !signedArith ==> Double(hi, lo) == ToWord(a0) * ToWord(b0)
  {
    if a0 == 0 || b0 == 0 {
      return 0, 0;
    }
    var negative, a, b := false, a0, b0;
    if signedArith {
      if a < 0 {
        negative := !negative;
        a := Negate(a);
      }
      if b < 0 {
        negative := !negative;
        b := Negate(b);
      }
    }
    hi, lo := Product(a, ToWord(b));
    Signs(a0, b0, ToWord(a), ToWord(b));
    if negative {
      NegateDouble(hi, lo);
      hi := Complement(hi);
      lo := Complement(lo);
      lo := Wrap(lo + 1);
      if lo == 0 {
        hi := Wrap(hi + 1);
      }
    }
  }

  lemma Signs(a0: int, b0: int, x: nat, y: nat)
    requires -0x8000_0000 <= a0 <= 0x8000_0000 && -0x8000_0000 <= b0 <= 0x8000_0000
    requires a0 != 0 && b0 != 0
    ensures (x == a0 || x == -a0) && (y == b0 || y == -b0) ==> 0 < x * y <= 0x4000_0000_0000_0000
    ensures (if a0 < 0 then x == -a0 else x == a0) && (if b0 < 0 then y == -b0 else y == b0) ==>
              a0 * b0 == if (a0 < 0) == (b0 < 0) then x * y else -(x * y)
  {
    if x <= 0x8000_0000 && y <= 0x8000_0000 {
      MulMono(x, 0x8000_0000, y);
    }
  }

  /** A turn that only shifts. */
  lemma EvenTurn(a0: int32, b0: uint32, i: nat, a: int, r: nat, bHi: uint32, bLo: uint32, hi: uint32, lo: uint32)
    requires Progress(a0, b0, i, a, r, bHi, bLo, hi, lo) && i < 32 && a % 2 == 0
    ensures Progress(a0, b0, i + 1, a / 2, r, NextHi(bHi, bLo), Wrap(2 * bLo), hi, lo)
  {
    hide Double, Wrap, NextHi, Pow2;
    ShiftLeft(b0, i, bHi, bLo);
    ShiftRight(a0, i, a, r);
  }

  /** A turn that adds, and then shifts or is the last. */
  lemma OddTurn(a0: int32, b0: uint32, i: nat, a: int, r: nat, bHi: uint32, bLo: uint32, hi: uint32, lo: uint32)
    requires Progress(a0, b0, i, a, r, bHi, bLo, hi, lo) && i < 32 && a % 2 == 1
    ensures var lo' := Wrap(lo + bLo);
            var hi' := SumHi(hi, lo', bHi, bLo);
            && Progress(a0, b0, i + 1, a / 2, r + Pow2(i), NextHi(bHi, bLo), Wrap(2 * bLo), hi', lo')
            && (a == 1 ==> Double(hi', lo') == ToWord(a0) * b0)
  {
    hide Double, Wrap, NextHi, SumHi, Pow2;
    ShiftLeft(b0, i, bHi, bLo);
    ShiftRight(a0, i, a, r);
    AddShifted(b0, i, r, bHi, bLo, hi, lo);
    assert a == 1 ==> r + Pow2(i) == a0;
  }

  /** After 32 turns the sign has been shifted out, and what was consumed is the whole word. */
  lemma LastTurn(a0: int32, b0: uint32, a: int, r: nat, bHi: uint32, bLo: uint32, hi: uint32, lo: uint32)
    requires Progress(a0, b0, 32, a, r, bHi, bLo, hi, lo)
    ensures Double(hi, lo) == ToWord(a0) * b0
  {
    Pow2At32();
    assert r == ToWord(a0);
    assert b0 * r == r * b0;
  }

  /** The unsigned product of the words that hold `a0` and `b0`: check the bits of the one, add shifts of the other. */
  method Product(a0: int32, b0: uint32) returns (hi: uint32, lo: uint32)
    ensures Double(hi, lo) == ToWord(a0) * b0
  {
    var a: int := a0;
    var bLo: uint32, bHi: uint32 := b0, 0;
    lo, hi := 0, 0;
    ghost var r: nat := 0;
    var i: nat := 0;
    assert Progress(a0, b0, i, a, r, bHi, bLo, hi, lo);
    hide Progress, Wrap, Double, Pow2;
    while i < 32
      invariant i <= 32 && Progress(a0, b0, i, a, r, bHi, bLo, hi, lo)
    {
      if a % 2 == 1 {
        OddTurn(a0, b0, i, a, r, bHi, bLo, hi, lo);
        lo := Wrap(lo + bLo);
        if lo < bLo {
          hi := Wrap(hi + 1);
        }
        hi := Wrap(hi + bHi);
        r := r + Pow2(i);
        if a == 1 {
          return;
        }
      } else {
        EvenTurn(a0, b0, i, a, r, bHi, bLo, hi, lo);
      }
      bHi := Wrap(2 * bHi);
      if bLo >= 0x8000_0000 {
        bHi := Wrap(bHi + 1);
      }
      bLo := Wrap(2 * bLo);
      a := a / 2;
      i := i + 1;
    }
    LastTurn(a0, b0, a, r, bHi, bLo, hi, lo);
  }

  // ---- overflow ----

  datatype Outcome = Value(word: uint32) | Overflow

  /** The sign bit of `x ^ y`. */
  predicate SignsDiffer(x: uint32, y: uint32) { (x >= 0x8000_0000) != (y >= 0x8000_0000) }

  /** A signed result, as the processor's manual defines the trap: exactly when it does not fit a word. */
  predicate Trapped(exact: int, r: Outcome) {
    if -0x8000_0000 <= exact < 0x8000_0000 then r.Value? && FromWord(r.word) == exact else r == Overflow
  }

  function Add(rs: uint32, rt: uint32): (r: Outcome)
    ensures Trapped(FromWord(rs) + FromWord(rt), r)
  {
    var sum := Wrap(rs as int + rt as int);
    if !SignsDiffer(rs, rt) && SignsDiffer(rs, sum) then Overflow else Value(sum)
  }

  function AddImmediate(rs: uint32, extra: int32): (r: Outcome)
    ensures Trapped(FromWord(rs) + extra, r)
  {
    var sum := Wrap(rs as int + extra as int);
    if !SignsDiffer(rs, ToWord(extra)) && SignsDiffer(ToWord(extra), sum) then Overflow else Value(sum)
  }

  function Sub(rs: uint32, rt: uint32): (r: Outcome)
    ensures Trapped(FromWord(rs) - FromWord(rt), r)
  {
    var diff := Wrap(rs as int - rt as int);
    if SignsDiffer(rs, rt) && SignsDiffer(rs, diff) then Overflow else Value(diff)
  }
}
