/** Products and remainders with unknown moduli. */
module Arithmetic {
  lemma MulOrder(a: nat, b: nat, w: nat)
    ensures a <= b ==> a * w <= b * w
  {
  }

  lemma Next(a: nat, w: nat)
    ensures (a + 1) * w == a * w + w
  {
  }

  lemma Distributes(a: nat, b: nat, w: nat)
    ensures (a + b) * w == a * w + b * w
  {
  }

  /** `n * w`, added up. */
  function Multiple(n: nat, w: nat): nat {
    if n == 0 then 0 else Multiple(n - 1, w) + w
  }

  lemma {:induction false} MultipleIs(n: nat, w: nat)
    ensures Multiple(n, w) == n * w
  {
    if n > 0 {
      MultipleIs(n - 1, w);
      Next(n - 1, w);
    }
  }

  lemma SmallRemainder(a: nat, b: nat)
    requires a < b
    ensures a % b == a
  {
  }

  lemma DivisionUnique(x: nat, w: nat, q: nat, r: nat)
    requires w > 0 && r < w && x == q * w + r
    ensures x % w == r && x / w == q
  {
    var q', r' := x / w, x % w;
    assert x == w * q' + r' == q' * w + r';
    MulOrder(q' + 1, q, w);
    MulOrder(q + 1, q', w);
    Next(q', w);
    Next(q, w);
  }

  lemma AddModulus(x: nat, w: nat)
    requires w > 0
    ensures (x + w) % w == x % w
  {
    assert x == w * (x / w) + x % w;
    Next(x / w, w);
    DivisionUnique(x + w, w, x / w + 1, x % w);
  }

  /** Two-part positions are distinct when their low parts are bounded. */
  lemma PositionsDistinct(a: nat, x: nat, b: nat, y: nat, w: nat)
    requires x < w && y < w && a * w + x == b * w + y
    ensures a == b && x == y
  {
    DivisionUnique(a * w + x, w, a, x);
    DivisionUnique(b * w + y, w, b, y);
  }

  /** The remainder of a number by a multiple of 256 is put together from its last byte and the rest. */
  lemma ByteRemainder(v: nat, w: nat)
    requires w > 0
    ensures v % (256 * w) == 256 * (v / 256 % w) + v % 256
  {
    var h, q, r := v / 256, v / 256 / w, v / 256 % w;
    assert h == w * q + r;
    assert 256 * (w * q) == q * (256 * w);
    DivisionUnique(v, 256 * w, q, 256 * r + v % 256);
  }

  /** The end of the run of `w` that `x` lies in is a multiple of `w`. */
  lemma RoundUp(x: nat, w: nat)
    requires w > 0
    ensures (x + (w - x % w)) % w == 0
  {
    assert x == w * (x / w) + x % w;
    Next(x / w, w);
    DivisionUnique(x + (w - x % w), w, x / w + 1, 0);
  }

  /** A position below a multiple of `w` is in a run that ends by then. */
  lemma RunEnds(x: nat, w: nat, size: nat)
    requires w > 0 && size % w == 0 && x < size
    ensures x - x % w + w <= size
  {
    var q, k := x / w, size / w;
    assert x == w * q + x % w && size == w * k;
    MulOrder(k, q, w);
    MulOrder(q + 1, k, w);
    Next(q, w);
  }

  /** Which block of `w` a position is in. */
  lemma InBlock(i: nat, w: nat, b: nat)
    requires w > 0
    ensures i / w == b <==> b * w <= i < (b + 1) * w
  {
    Next(b, w);
    if b * w <= i < (b + 1) * w {
      DivisionUnique(i, w, b, i - b * w);
    }
    assert i == w * (i / w) + i % w;
    Next(i / w, w);
  }

  lemma DivisionOrder(i: nat, j: nat, w: nat)
    requires w > 0 && i <= j
    ensures i / w <= j / w
  {
    InBlock(i, w, i / w);
    InBlock(j, w, j / w);
    MulOrder(j / w + 1, i / w, w);
  }

  lemma NextBlock(i: nat, j: nat, w: nat)
    requires w > 0 && j <= i + w
    ensures j / w <= i / w + 1
  {
    DivisionOrder(j, i + w, w);
    InBlock(i, w, i / w);
    InBlock(i + w, w, i / w + 1);
    Next(i / w, w);
    Next(i / w + 1, w);
  }

  lemma BlockInRange(i: nat, w: nat, n: nat)
    requires w > 0 && i < n * w
    ensures i / w < n
  {
    assert i == w * (i / w) + i % w;
    MulOrder(n, i / w, w);
  }
}
