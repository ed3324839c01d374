/** Unsigned machine-word arithmetic on `nat`: bitwise AND, powers of two, and the
    mask identities that the C sources rely on (`x & (m-1)`, `x & ~(m-1)`, `-x & m`). */
module Bits {

  type byte = x: int | 0 <= x < 256

  function Pow2(k: nat): (p: nat)
    ensures p >= 1
  {
    if k == 0 then 1 else 2 * Pow2(k - 1)
  }

  /** Bitwise AND of two non-negative integers of any width. */
  function And(x: nat, y: nat): nat {
    if x == 0 || y == 0 then 0
    else 2 * And(x / 2, y / 2) + (if x % 2 == 1 && y % 2 == 1 then 1 else 0)
  }

  /** `x % m` under a name, so that proofs can pass it along without division axioms. */
  function Mod(x: int, m: nat): (r: nat)
    requires m >= 1
    ensures r < m
  {
    x % m
  }

  ghost predicate IsPow2(m: nat) {
    exists k: nat :: m == Pow2(k)
  }

  /** Euclidean division is determined by quotient and remainder. */
  lemma DivModUnique(x: int, m: int, q: int, r: int)
    requires m >= 1 && x == m * q + r && 0 <= r < m
    ensures x / m == q && x % m == r
  {
    var d := x / m - q;
    assert m * d == r - x % m;
    assert d >= 1 ==> m * d >= m;
    assert d <= -1 ==> m * d <= -m;
  }

  lemma ModDouble(x: nat, m: nat)
    requires m >= 1
    ensures Mod(x, 2 * m) == 2 * Mod(x / 2, m) + x % 2
  {
    var q, r := x / 2 / m, x / 2 % m;
    assert x / 2 == m * q + r;
    assert x == (2 * m) * q + (2 * r + x % 2) by { assert 2 * (m * q) == (2 * m) * q; }
    DivModUnique(x, 2 * m, q, 2 * r + x % 2);
  }

  lemma AndStep(x: nat, y: nat, b: nat)
    requires b <= 1
    ensures And(x, 2 * y + b) == 2 * And(x / 2, y) + (if x % 2 == 1 && b == 1 then 1 else 0)
  {
    assert (2 * y + b) / 2 == y && (2 * y + b) % 2 == b;
  }

  lemma MaskStep(x: nat, m: nat)
    requires m >= 1 && And(x / 2, m - 1) == Mod(x / 2, m)
    ensures And(x, 2 * m - 1) == Mod(x, 2 * m)
  {
    hide And, Mod;
    AndStep(x, m - 1, 1);
    ModDouble(x, m);
  }

  /** `x & (m-1)` is `x % m` when m is a power of two. */
  lemma {:induction false} MaskIsMod(x: nat, k: nat)
    ensures And(x, Pow2(k) - 1) == Mod(x, Pow2(k))
  {
    hide And;
    if k == 0 {
      AndZero(x);
    } else {
      hide Mod;
      MaskIsMod(x / 2, k - 1);
      MaskStep(x, Pow2(k - 1));
    }
  }

  lemma AndZero(x: nat)
    ensures And(x, 0) == 0
  {
  }

  lemma Regroup(a: int, b: int)
    ensures 2 * (a * b) == (2 * a) * b
  {
  }

  lemma {:induction false} Pow2Split(j: nat, k: nat)
    requires j <= k
    ensures Pow2(k) == Pow2(j) * Pow2(k - j)
  {
    if j > 0 {
      assert Pow2(k) == 2 * Pow2(k - 1) && Pow2(j) == 2 * Pow2(j - 1);
      hide Pow2;
      Pow2Split(j - 1, k - 1);
      Regroup(Pow2(j - 1), Pow2(k - j));
    }
  }

  lemma {:induction false} Pow2Mono(j: nat, k: nat)
    requires j <= k
    ensures Pow2(j) <= Pow2(k)
  {
    if j < k { Pow2Mono(j, k - 1); }
  }

  lemma AndAll(x: nat, w: nat)
    requires x < Pow2(w)
    ensures And(x, Pow2(w) - 1) == x
  {
    MaskIsMod(x, w);
    DivModUnique(x, Pow2(w), 0, x);
  }

  lemma FloorStep(x: nat, m: nat, n: nat)
    requires 1 <= m <= n && And(x / 2, n - m) == x / 2 - Mod(x / 2, m)
    ensures And(x, 2 * n - 2 * m) == x - Mod(x, 2 * m)
  {
    hide And, Mod;
    AndStep(x, n - m, 0);
    ModDouble(x, m);
  }

  /** `x & ~(m-1)` in a w-bit word rounds x down to a multiple of m. */
  lemma {:induction false} ClearLowIsFloor(x: nat, k: nat, w: nat)
    requires k <= w && x < Pow2(w)
    ensures Pow2(k) <= Pow2(w)
    ensures And(x, Pow2(w) - Pow2(k)) == x - Mod(x, Pow2(k))
  {
    hide And;
    Pow2Mono(k, w);
    if k == 0 {
      AndAll(x, w);
    } else {
      hide Mod;
      Pow2Mono(k - 1, w - 1);
      ClearLowIsFloor(x / 2, k - 1, w - 1);
      FloorStep(x, Pow2(k - 1), Pow2(w - 1));
    }
  }

  /** The number whose base-256 digits are t, least significant first. */
  ghost function LittleEndian(t: seq<byte>): nat {
    if t == [] then 0 else t[0] + 256 * LittleEndian(t[1..])
  }

  /** Dividing by a product is dividing twice. */
  lemma DivTwice(x: nat, p: nat, q: nat)
    requires p >= 1 && q >= 1
    ensures p * q >= 1 && x / (p * q) == x / p / q
  {
    var y, a := x / p, x % p;
    var z, b := y / q, y % q;
    assert x == p * y + a && y == q * z + b;
    assert p * y == (p * q) * z + p * b by { assert p * (q * z) == (p * q) * z; }
    assert p * b <= p * (q - 1) by { MulLe(p, b, q - 1); }
    assert p * q == p * (q - 1) + p;
    DivModUnique(x, p * q, z, p * b + a);
  }

  lemma MulLe(p: nat, x: int, y: int)
    requires x <= y
    ensures p * x <= p * y
  {
  }

  /** The n low base-256 digits of v, least significant first. */
  function Digits(v: nat, n: nat): (r: seq<byte>)
    ensures |r| == n
  {
    if n == 0 then [] else [v % 256] + Digits(v / 256, n - 1)
  }

  function Pow256(n: nat): (r: nat)
    ensures r > 0
  {
    if n == 0 then 1 else 256 * Pow256(n - 1)
  }

  /** Digit k is v shifted right by 8 * k bits and cut to a byte. */
  lemma {:induction false} DigitAt(v: nat, n: nat, k: nat)
    requires k < n
    ensures Digits(v, n)[k] == (v / Pow256(k)) % 256
  {
    if k > 0 {
      DigitAt(v / 256, n - 1, k - 1);
      DivTwice(v, 256, Pow256(k - 1));
    }
  }

  /** The digits of a number that fits give the number back. */
  lemma {:induction false} DigitsValue(v: nat, n: nat)
    requires v < Pow256(n)
    ensures LittleEndian(Digits(v, n)) == v
  {
    if n > 0 {
      DigitsValue(v / 256, n - 1);
      assert Digits(v, n)[1..] == Digits(v / 256, n - 1);
    }
  }

  ghost predicate TestBit(w: nat, k: nat) { w / Pow2(k) % 2 == 1 }

  /** `w & 1 << k` is a test of bit k. */
  lemma {:induction false} MaskBit(w: nat, k: nat)
    ensures And(w, Pow2(k)) != 0 <==> TestBit(w, k)
  {
    if k == 0 {
      assert Pow2(0) == 1;
      AndStep(w, 0, 1);
    } else {
      MaskBit(w / 2, k - 1);
      AndStep(w, Pow2(k - 1), 0);
      DivTwice(w, 2, Pow2(k - 1));
    }
  }
}
