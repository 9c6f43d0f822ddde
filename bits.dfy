/** Python's arbitrary-precision `<<`, `&` and `|` on integers, written
    out bit by bit, with the lemmas that connect them to `*`, `/`, `%` and `+`.
    `BitAnd` follows Python's two's-complement semantics for negative left
    operands (`x >> 1` is floor division by 2, and Dafny's `/` and `%` by a
    positive divisor are floor division and a non-negative remainder). */
module Bits {

  function Pow2(k: nat): (p: nat)
    ensures p >= 1
  {
    if k == 0 then 1 else 2 * Pow2(k - 1)
  }

  /** `x << k` for a non-negative `x`. */
  function Shl(x: nat, k: nat): nat {
    x * Pow2(k)
  }

  /** Python `x & m` for any integer `x` and a non-negative mask `m`. */
  function BitAnd(x: int, m: nat): nat
    decreases m
  {
    if m == 0 then 0
    else 2 * BitAnd(x / 2, m / 2) + (if x % 2 == 1 && m % 2 == 1 then 1 else 0)
  }

  /** Python `a | b` for non-negative integers. */
  function BitOr(a: nat, b: nat): nat
    decreases a + b
  {
    if a == 0 then b
    else if b == 0 then a
    else 2 * BitOr(a / 2, b / 2) + (if a % 2 == 1 || b % 2 == 1 then 1 else 0)
  }

  lemma {:induction false} Pow2Add(a: nat, b: nat)
    ensures Pow2(a + b) == Pow2(a) * Pow2(b)
  {
    if a > 0 {
      Pow2Add(a - 1, b);
    }
  }

  /** The powers of two the GraphX layouts use. */
  lemma Pow2Values()
    ensures Pow2(3) == 8 && Pow2(10) == 1024 && Pow2(18) == 0x40000 && Pow2(21) == 0x200000
    ensures Pow2(24) == 0x100_0000 && Pow2(27) == 0x800_0000 && Pow2(32) == 0x1_0000_0000
  {
    assert Pow2(3) == 8;
    Pow2Add(3, 3);
    Pow2Add(6, 3);
    Pow2Add(9, 1);
    Pow2Add(9, 9);
    Pow2Add(18, 3);
    Pow2Add(21, 3);
    Pow2Add(24, 3);
    Pow2Add(27, 3);
    Pow2Add(30, 1);
    Pow2Add(31, 1);
  }

  lemma MulAtLeast(d: int, p: int)
    requires d >= 1 && p >= 0
    ensures d * p >= p
  {
    var e := d - 1;
    assert d * p == e * p + p;
    assert e * p >= 0;
  }

  /** Quotient and remainder are unique. */
  lemma DivModUnique(a: int, lo: int, p: int)
    requires 0 <= lo < p
    ensures (a * p + lo) / p == a && (a * p + lo) % p == lo
  {
    var n := a * p + lo;
    var q, r := n / p, n % p;
    assert n == q * p + r;
    var d := q - a;
    assert d * p == lo - r;
    if d > 0 {
      MulAtLeast(d, p);
    } else if d < 0 {
      MulAtLeast(-d, p);
    }
  }

  /** A field of width `q` at offset `p`, with `hi` above it and `lo` below it,
      reads back with a shift and a mask. */
  lemma FieldReadBack(hi: nat, f: nat, lo: nat, p: nat, q: nat)
    requires 0 <= lo < p && 0 <= f < q
    ensures (((hi * q + f) * p + lo) / p) % q == f
    ensures ((hi * q + f) * p + lo) / p / q == hi
  {
    DivModUnique(hi * q + f, lo, p);
    DivModUnique(hi, f, q);
  }

  lemma ModOfDouble(x: int, p: nat)
    requires p >= 1
    ensures x % (2 * p) == 2 * ((x / 2) % p) + x % 2
  {
    var h, b := x / 2, x % 2;
    var q, r := h / p, h % p;
    assert x == 2 * h + b;
    assert h == q * p + r;
    assert x == q * (2 * p) + (2 * r + b);
    DivModUnique(q, 2 * r + b, 2 * p);
  }

  /** `x & (2^k - 1)` is `x mod 2^k`, for negative `x` too. */
  lemma {:induction false} AndLowMask(x: int, k: nat)
    ensures BitAnd(x, Pow2(k) - 1) == x % Pow2(k)
    decreases k
  {
    if k > 0 {
      var p := Pow2(k - 1);
      var m := Pow2(k) - 1;
      assert m == 2 * p - 1;
      assert m / 2 == p - 1 && m % 2 == 1;
      assert BitAnd(x, m) == 2 * BitAnd(x / 2, p - 1) + (if x % 2 == 1 then 1 else 0);
      AndLowMask(x / 2, k - 1);
      ModOfDouble(x, p);
    }
  }

  /** OR-ing a value below `2^k` into a multiple of `2^k` adds it. */
  lemma {:induction false} OrDisjoint(c: nat, b: nat, k: nat)
    requires b < Pow2(k)
    ensures BitOr(c * Pow2(k), b) == c * Pow2(k) + b
  {
    if k == 0 {
    } else if c == 0 || b == 0 {
    } else {
      var a := c * Pow2(k);
      assert a == 2 * (c * Pow2(k - 1));
      assert a / 2 == c * Pow2(k - 1);
      assert a % 2 == 0;
      OrDisjoint(c, b / 2, k - 1);
    }
  }
}
