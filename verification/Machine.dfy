/** Fixed-width machine arithmetic: `std::size_t` (64 bits) and `int` (32 bits, two's complement).

    Every value is a mathematical integer; wrap-around, truncation and sign extension are written
    out, so that the lemmas say exactly when the machine result is the ideal one. */
module Machine {

  const TWO_31: int := 0x8000_0000
  const TWO_32: int := 0x1_0000_0000
  const TWO_61: int := 0x2000_0000_0000_0000
  const TWO_64: int := 0x1_0000_0000_0000_0000

  /** A `std::size_t`, which the library also calls `MetaInt`. */
  type Word = w: int | 0 <= w < TWO_64

  /** An `int`. */
  type Int32 = i: int | -TWO_31 <= i < TWO_31

  /** The `std::size_t` that unsigned arithmetic yields for the exact result `x`. */
  function Wrap(x: int): Word {
    x % TWO_64
  }

  /** Conversion of an integer to `int`: the low 32 bits read as two's complement. */
  function Truncate(x: int): Int32 {
    var low := x % TWO_32;
    if low < TWO_31 then low else low - TWO_32
  }

  /** Conversion of an `int` to `std::size_t`. */
  function SignExtend(i: Int32): Word {
    if 0 <= i then i else i + TWO_64
  }

  // Modular arithmetic, for any positive modulus.

  lemma MulMono(a: int, b: int, m: int)
    requires a <= b && 0 <= m
    ensures a * m <= b * m
  {
    assert b * m == a * m + (b - a) * m;
  }

  lemma MulOrder(a: int, b: int, m: int)
    requires 0 < m
    ensures a <= b <==> a * m <= b * m
  {
    if a <= b {
      MulMono(a, b, m);
    } else {
      MulMono(b + 1, a, m);
      assert (b + 1) * m == b * m + m;
    }
  }

  lemma NoMultipleBetween(k: int, m: int)
    requires -m < k * m < m
    ensures k == 0
  {
    if k < 0 {
      MulMono(k, -1, m);
    } else if 0 < k {
      MulMono(1, k, m);
    }
  }

  lemma DivModUnique(x: int, q: int, r: int, m: int)
    requires 0 < m && 0 <= r < m && x == q * m + r
    ensures x / m == q && x % m == r
  {
    var q', r' := x / m, x % m;
    assert x == q' * m + r';
    assert q * m - q' * m == (q - q') * m;
    NoMultipleBetween(q - q', m);
  }

  lemma ModShift(x: int, k: int, m: int)
    requires 0 < m
    ensures (x + k * m) % m == x % m
  {
    var q, r := x / m, x % m;
    assert x + k * m == (q + k) * m + r;
    DivModUnique(x + k * m, q + k, r, m);
  }

  /** Congruent numbers differ by a multiple of the modulus. */
  lemma Congruent(x: int, y: int, m: int) returns (k: int)
    requires 0 < m && x % m == y % m
    ensures x == y + k * m
  {
    k := x / m - y / m;
    assert x == (x / m) * m + x % m && y == (y / m) * m + y % m;
  }

  lemma ModMul(x: int, y: int, d: int, m: int)
    requires 0 < m && x % m == y % m
    ensures (x * d) % m == (y * d) % m
  {
    var k := Congruent(x, y, m);
    assert x * d == y * d + (k * d) * m;
    ModShift(y * d, k * d, m);
  }

  /** Reducing first modulo a multiple of `m` does not change the residue modulo `m`. */
  lemma ModMod(x: int, m: int, k: int)
    requires 0 < m && 0 < k
    ensures (x % (k * m)) % m == x % m
  {
    var q := x / (k * m);
    assert x == q * (k * m) + x % (k * m);
    assert q * (k * m) == (q * k) * m;
    ModShift(x % (k * m), q * k, m);
  }

  /** Wrapping to 64 bits keeps the low 32 bits. */
  lemma WrapLow(x: int)
    ensures Wrap(x) % TWO_32 == x % TWO_32
  {
    ModMod(x, TWO_32, TWO_32);
  }

  lemma TruncateLow(x: int)
    ensures Truncate(x) % TWO_32 == x % TWO_32
  {
    var low := x % TWO_32;
    if TWO_31 <= low {
      ModShift(low, -1, TWO_32);
    }
  }

  lemma SignExtendCongruent(i: Int32)
    ensures SignExtend(i) % TWO_32 == i % TWO_32
  {
    if i < 0 {
      ModShift(i, TWO_32, TWO_32);
    }
  }

  /** Conversion keeps what already is an `int`. */
  lemma TruncateFixed(i: Int32)
    ensures Truncate(i) == i
  {
    if i < 0 {
      ModShift(i, 1, TWO_32);
    }
  }

  lemma WrapFixed(x: Word)
    ensures Wrap(x) == x
  {
  }

  /** One conversion to `int` and back is the identity exactly on the two ranges that survive. */
  lemma SignExtendTruncateFixed(x: Word)
    ensures SignExtend(Truncate(x)) == x <==> x < TWO_31 || TWO_64 - TWO_31 <= x
  {
    if TWO_64 - TWO_31 <= x {
      var k := TWO_32 - 1;
      ModShift(x - k * TWO_32, k, TWO_32);
    }
  }
}
