/** Single bits of machine words. */
module Bits {
  import opened Arithmetic

  /** `1 << i` in an 8-bit word. */
  function Mask8(i: nat): bv8
    requires i < 8
  {
    if i == 0 then 0x01 else if i == 1 then 0x02 else if i == 2 then 0x04 else if i == 3 then 0x08
    else if i == 4 then 0x10 else if i == 5 then 0x20 else if i == 6 then 0x40 else 0x80
  }

  predicate Bit8(x: bv8, i: nat)
    requires i < 8
  {
    x & Mask8(i) != 0
  }

  /** Overwriting one bit by the exclusive-or idiom changes that bit and no other. */
  lemma PutBit8(x: bv8, on: bool, i: nat, j: nat)
    requires i < 8 && j < 8
    ensures var all: bv8 := if on then 0xFF else 0;
            Bit8(x ^ ((all ^ x) & Mask8(i)), j) == if i == j then on else Bit8(x, j)
  {
  }

  lemma NoBits8(i: nat)
    requires i < 8
    ensures !Bit8(0, i)
  {
  }

  // ---------- Binary digits of a number ----------

  /** `1 << bit`. */
  function Weight(bit: nat): (w: nat)
    ensures w > 0
  {
    if bit == 0 then 1 else 2 * Weight(bit - 1)
  }

  /** Whether `n & (1 << bit)` is not zero. */
  predicate Digit(n: nat, bit: nat) {
    if bit == 0 then n % 2 == 1 else Digit(n / 2, bit - 1)
  }

  /** The number made of the lowest digits. */
  function Low(n: nat, bits: nat): nat {
    if bits == 0 then 0 else n % 2 + 2 * Low(n / 2, bits - 1)
  }

  lemma {:induction false} NextDigit(n: nat, bit: nat)
    ensures Low(n, bit + 1) == Low(n, bit) + if Digit(n, bit) then Weight(bit) else 0
  {
    if bit > 0 {
      NextDigit(n / 2, bit - 1);
    }
  }

  lemma {:induction false} AllDigits(n: nat, bits: nat)
    requires n < Weight(bits)
    ensures Low(n, bits) == n
  {
    if bits > 0 {
      AllDigits(n / 2, bits - 1);
    }
  }

  lemma {:induction false} NoDigits(bit: nat)
    ensures !Digit(0, bit)
  {
    if bit > 0 {
      NoDigits(bit - 1);
    }
  }

  lemma {:induction false} WeightDigits(c: nat, i: nat)
    ensures Digit(Weight(c), i) <==> i == c
  {
    if c == 0 {
      if i > 0 {
        NoDigits(i - 1);
      }
    } else if i > 0 {
      WeightDigits(c - 1, i - 1);
    }
  }

  // ---------- Bitwise operations on numbers ----------

  function And(x: nat, y: nat): nat {
    if x == 0 || y == 0 then 0 else (if x % 2 == 1 && y % 2 == 1 then 1 else 0) + 2 * And(x / 2, y / 2)
  }

  function Xor(x: nat, y: nat): nat
    decreases x + y
  {
    if x == 0 && y == 0 then 0 else (if x % 2 != y % 2 then 1 else 0) + 2 * Xor(x / 2, y / 2)
  }

  lemma {:induction false} AndDigits(x: nat, y: nat, i: nat)
    ensures Digit(And(x, y), i) <==> Digit(x, i) && Digit(y, i)
    decreases i
  {
    NoDigits(i);
    if x != 0 && y != 0 && i > 0 {
      AndDigits(x / 2, y / 2, i - 1);
    }
  }

  lemma {:induction false} XorDigits(x: nat, y: nat, i: nat)
    ensures Digit(Xor(x, y), i) <==> Digit(x, i) != Digit(y, i)
    decreases i
  {
    NoDigits(i);
    if !(x == 0 && y == 0) && i > 0 {
      XorDigits(x / 2, y / 2, i - 1);
    }
  }

  /** The number of ones among the digits. */
  function Pop(x: nat): nat {
    if x == 0 then 0 else x % 2 + Pop(x / 2)
  }

  lemma {:induction false} AndSelf(x: nat)
    ensures And(x, x) == x
  {
    if x != 0 {
      AndSelf(x / 2);
    }
  }

  /** Clearing the lowest one leaves something exactly when there are two or more. */
  lemma {:induction false} ClearLowest(x: nat)
    requires x > 0
    ensures And(x, x - 1) != 0 <==> Pop(x) >= 2
  {
    if x % 2 == 1 {
      AndSelf(x / 2);
      assert (x - 1) / 2 == x / 2;
      assert Pop(x / 2) == 0 <==> x / 2 == 0 by {
        PopZero(x / 2);
      }
    } else {
      assert (x - 1) / 2 == x / 2 - 1;
      ClearLowest(x / 2);
    }
  }

  lemma {:induction false} PopZero(x: nat)
    ensures Pop(x) == 0 <==> x == 0
  {
    if x != 0 {
      PopZero(x / 2);
    }
  }

  lemma {:induction false} SomeDigit(x: nat) returns (a: nat)
    requires x != 0
    ensures Digit(x, a)
  {
    if x % 2 == 1 {
      a := 0;
    } else {
      a := SomeDigit(x / 2);
      a := a + 1;
    }
  }

  /** Two ones are two positions. */
  lemma {:induction false} TwoPositions(x: nat) returns (a: nat, b: nat)
    requires Pop(x) >= 2
    ensures a < b && Digit(x, a) && Digit(x, b)
  {
    PopZero(x / 2);
    if x % 2 == 1 {
      a := 0;
      b := SomeDigit(x / 2);
    } else {
      a, b := TwoPositions(x / 2);
      a := a + 1;
    }
    b := b + 1;
  }

  lemma {:induction false} TwoOnes(x: nat, a: nat, b: nat)
    requires a < b && Digit(x, a) && Digit(x, b)
    ensures Pop(x) >= 2
  {
    NoDigits(b);
    NoDigits(b - 1);
    PopZero(x / 2);
    if a > 0 {
      TwoOnes(x / 2, a - 1, b - 1);
    }
  }

  function Or(x: nat, y: nat): nat
    decreases x + y
  {
    if x == 0 && y == 0 then 0 else (if x % 2 == 1 || y % 2 == 1 then 1 else 0) + 2 * Or(x / 2, y / 2)
  }

  lemma {:induction false} OrDigits(x: nat, y: nat, i: nat)
    ensures Digit(Or(x, y), i) <==> Digit(x, i) || Digit(y, i)
    decreases i
  {
    NoDigits(i);
    if !(x == 0 && y == 0) && i > 0 {
      OrDigits(x / 2, y / 2, i - 1);
    }
  }

  function ShiftLeft(x: nat, n: nat): nat {
    if n == 0 then x else 2 * ShiftLeft(x, n - 1)
  }

  lemma {:induction false} ShiftLeftDigits(x: nat, n: nat, i: nat)
    ensures Digit(ShiftLeft(x, n), i) <==> i >= n && Digit(x, i - n)
  {
    if n > 0 && i > 0 {
      ShiftLeftDigits(x, n - 1, i - 1);
    }
  }

  function ShiftRight(x: nat, n: nat): nat {
    if n == 0 then x else ShiftRight(x / 2, n - 1)
  }

  lemma {:induction false} ShiftRightDigits(x: nat, n: nat, i: nat)
    ensures Digit(ShiftRight(x, n), i) <==> Digit(x, i + n)
  {
    if n > 0 {
      ShiftRightDigits(x / 2, n - 1, i);
    }
  }

  lemma HalveFirst(x: nat, w: nat)
    requires w > 0
    ensures x / (2 * w) == x / 2 / w
    ensures x % (2 * w) == 2 * (x / 2 % w) + x % 2
  {
    var h, q, r := x / 2, x / 2 / w, x / 2 % w;
    assert h == w * q + r;
    assert 2 * (w * q) == q * (2 * w);
    DivisionUnique(x, 2 * w, q, 2 * r + x % 2);
  }

  /** The low digits are those of the remainder. */
  lemma {:induction false} LowDigits(x: nat, n: nat, i: nat)
    ensures Digit(Low(x, n), i) <==> i < n && Digit(x, i)
  {
    if n == 0 {
      NoDigits(i);
    } else if i > 0 {
      LowDigits(x / 2, n - 1, i - 1);
    }
  }

  /** The lowest digits make up the remainder. */
  lemma {:induction false} LowIsRemainder(x: nat, n: nat)
    ensures Low(x, n) == x % Weight(n)
  {
    if n > 0 {
      LowIsRemainder(x / 2, n - 1);
      HalveFirst(x, Weight(n - 1));
    }
  }
}
