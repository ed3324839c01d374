/** Where the constants of SHA-256 come from. Round constants (section 4.2.2 of FIPS 180-3): the first 64 primes,
    and of the cube root of each the whole part and the first 32 bits of the fraction. */
module Sha256Tables {
  import opened Bits

  datatype Root = Root(prime: nat, whole: nat, bits: nat) {
    /** floor(cbrt(prime) * 2^32) is whole * 2^32 + bits. */
    ghost predicate Correct() {
      var v := 0x1_0000_0000 * whole + bits;
      && bits < 0x1_0000_0000
      && v * v * v <= prime * 0x1_0000_0000_0000_0000_0000_0000 < (v + 1) * (v + 1) * (v + 1)
    }
  }

  const ROW0: seq<Root> := [
    Root(2, 1, 0x428a2f98), Root(3, 1, 0x71374491), Root(5, 1, 0xb5c0fbcf), Root(7, 1, 0xe9b5dba5),
    Root(11, 2, 0x3956c25b), Root(13, 2, 0x59f111f1), Root(17, 2, 0x923f82a4), Root(19, 2, 0xab1c5ed5)]

  const ROW1: seq<Root> := [
    Root(23, 2, 0xd807aa98), Root(29, 3, 0x12835b01), Root(31, 3, 0x243185be), Root(37, 3, 0x550c7dc3),
    Root(41, 3, 0x72be5d74), Root(43, 3, 0x80deb1fe), Root(47, 3, 0x9bdc06a7), Root(53, 3, 0xc19bf174)]

  const ROW2: seq<Root> := [
    Root(59, 3, 0xe49b69c1), Root(61, 3, 0xefbe4786), Root(67, 4, 0x0fc19dc6), Root(71, 4, 0x240ca1cc),
    Root(73, 4, 0x2de92c6f), Root(79, 4, 0x4a7484aa), Root(83, 4, 0x5cb0a9dc), Root(89, 4, 0x76f988da)]

  const ROW3: seq<Root> := [
    Root(97, 4, 0x983e5152), Root(101, 4, 0xa831c66d), Root(103, 4, 0xb00327c8), Root(107, 4, 0xbf597fc7),
    Root(109, 4, 0xc6e00bf3), Root(113, 4, 0xd5a79147), Root(127, 5, 0x06ca6351), Root(131, 5, 0x14292967)]

  const ROW4: seq<Root> := [
    Root(137, 5, 0x27b70a85), Root(139, 5, 0x2e1b2138), Root(149, 5, 0x4d2c6dfc), Root(151, 5, 0x53380d13),
    Root(157, 5, 0x650a7354), Root(163, 5, 0x766a0abb), Root(167, 5, 0x81c2c92e), Root(173, 5, 0x92722c85)]

  const ROW5: seq<Root> := [
    Root(179, 5, 0xa2bfe8a1), Root(181, 5, 0xa81a664b), Root(191, 5, 0xc24b8b70), Root(193, 5, 0xc76c51a3),
    Root(197, 5, 0xd192e819), Root(199, 5, 0xd6990624), Root(211, 5, 0xf40e3585), Root(223, 6, 0x106aa070)]

  const ROW6: seq<Root> := [
    Root(227, 6, 0x19a4c116), Root(229, 6, 0x1e376c08), Root(233, 6, 0x2748774c), Root(239, 6, 0x34b0bcb5),
    Root(241, 6, 0x391c0cb3), Root(251, 6, 0x4ed8aa4a), Root(257, 6, 0x5b9cca4f), Root(263, 6, 0x682e6ff3)]

  const ROW7: seq<Root> := [
    Root(269, 6, 0x748f82ee), Root(271, 6, 0x78a5636f), Root(277, 6, 0x84c87814), Root(281, 6, 0x8cc70208),
    Root(283, 6, 0x90befffa), Root(293, 6, 0xa4506ceb), Root(307, 6, 0xbef9a3f7), Root(311, 6, 0xc67178f2)]

  function RootOf(t: nat): Root
    requires t < 64
  {
    if t < 8 then ROW0[t]
    else if t < 16 then ROW1[t - 8]
    else if t < 24 then ROW2[t - 16]
    else if t < 32 then ROW3[t - 24]
    else if t < 40 then ROW4[t - 32]
    else if t < 48 then ROW5[t - 40]
    else if t < 56 then ROW6[t - 48]
    else ROW7[t - 56]
  }

  lemma Row0(k: nat)
    requires k < 8
    ensures ROW0[k].Correct()
  {
  }

  lemma Row1(k: nat)
    requires k < 8
    ensures ROW1[k].Correct()
  {
  }

  lemma Row2(k: nat)
    requires k < 8
    ensures ROW2[k].Correct()
  {
  }

  lemma Row3(k: nat)
    requires k < 8
    ensures ROW3[k].Correct()
  {
  }

  lemma Row4(k: nat)
    requires k < 8
    ensures ROW4[k].Correct()
  {
  }

  lemma Row5(k: nat)
    requires k < 8
    ensures ROW5[k].Correct()
  {
  }

  lemma Row6(k: nat)
    requires k < 8
    ensures ROW6[k].Correct()
  {
  }

  lemma Row7(k: nat)
    requires k < 8
    ensures ROW7[k].Correct()
  {
  }

  /** Round constant t is made of the first 32 bits of the fraction of a cube root. */
  lemma RoundConstants(t: nat)
    requires t < 64
    ensures RootOf(t).Correct()
  {
    if t < 8 {
      Row0(t);
    } else if t < 16 {
      Row1(t - 8);
    } else if t < 24 {
      Row2(t - 16);
    } else if t < 32 {
      Row3(t - 24);
    } else if t < 40 {
      Row4(t - 32);
    } else if t < 48 {
      Row5(t - 40);
    } else if t < 56 {
      Row6(t - 48);
    } else {
      Row7(t - 56);
    }
  }

  lemma RootSmall(t: nat)
    requires t < 64
    ensures RootOf(t).bits < 0x1_0000_0000
  {
    hide RootOf;
    RoundConstants(t);
  }

  // ----- the primes are the first 64

  ghost predicate Prime(n: nat) { n >= 2 && forall d :: 2 <= d < n ==> Mod(n, d) != 0 }

  /** No prime up to 17 divides n, unless it is n. */
  predicate Sieved(n: nat) {
    && (n == 2 || n % 2 != 0)
    && (n == 3 || n % 3 != 0)
    && (n == 5 || n % 5 != 0)
    && (n == 7 || n % 7 != 0)
    && (n == 11 || n % 11 != 0)
    && (n == 13 || n % 13 != 0)
    && (n == 17 || n % 17 != 0)
  }

  lemma FactorDivides(n: nat, d: nat, p: nat)
    requires p >= 1 && d >= 1 && Mod(d, p) == 0 && Mod(n, d) == 0
    ensures Mod(n, p) == 0
  {
    var c, q := d / p, n / d;
    assert n == (p * c) * q == p * (c * q);
    DivModUnique(n, p, c * q, 0);
  }

  lemma SmallFactor(d: nat) returns (p: nat)
    requires 2 <= d <= 17
    ensures p in {2, 3, 5, 7, 11, 13, 17} && p <= d && Mod(d, p) == 0
  {
    p := if d % 2 == 0 then 2 else if d % 3 == 0 then 3 else d;
  }

  lemma NoSmallDivisor(n: nat, d: nat)
    requires Sieved(n) && 2 <= d <= 17 && d < n
    ensures Mod(n, d) != 0
  {
    hide Sieved, Mod;
    var p := SmallFactor(d);
    SievedAt(n, p);
    if Mod(n, d) == 0 {
      FactorDivides(n, d, p);
      assert false;
    }
  }

  lemma SievedAt(n: nat, p: nat)
    requires Sieved(n) && p in {2, 3, 5, 7, 11, 13, 17} && n > p
    ensures Mod(n, p) != 0
  {
  }

  /** Below 18^2 that makes a prime. */
  lemma SievedIsPrime(n: nat)
    requires 2 <= n < 324 && Sieved(n)
    ensures Prime(n)
  {
    forall d | 2 <= d < n ensures Mod(n, d) != 0 {
      if d <= 17 {
        NoSmallDivisor(n, d);
      } else if Mod(n, d) == 0 {
        hide Mod;
        var q := Cofactor(n, d);
        NoSmallDivisor(n, q);
        assert false;
      }
    }
  }

  lemma PrimeIsSieved(n: nat)
    requires Prime(n)
    ensures Sieved(n)
  {
    assert forall d :: 2 <= d < n ==> Mod(n, d) != 0;
    if n > 2 { assert Mod(n, 2) != 0; }
    if n > 3 { assert Mod(n, 3) != 0; }
    if n > 5 { assert Mod(n, 5) != 0; }
    if n > 7 { assert Mod(n, 7) != 0; }
    if n > 11 { assert Mod(n, 11) != 0; }
    if n > 13 { assert Mod(n, 13) != 0; }
    if n > 17 { assert Mod(n, 17) != 0; }
  }

  lemma Cofactor(n: nat, d: nat) returns (q: nat)
    requires 2 <= d < n < 324 && Mod(n, d) == 0
    ensures 2 <= q < n && Mod(n, q) == 0 && (d >= 18 ==> q <= 17)
  {
    q := n / d;
    assert n == d * q;
    assert q <= 1 ==> d * q <= d;
    assert d >= 18 && q >= 18 ==> d * q >= 18 * 18 by { if d >= 18 && q >= 18 { MulLe(q, 18, d); } }
    assert q >= n ==> d * q >= 2 * n by { if q >= n { MulLe(q, 2, d); } }
    DivModUnique(n, q, d, 0);
  }

  lemma Sieve0(n: nat)
    requires 2 <= n < 23
    ensures Sieved(n) <==> n in {2, 3, 5, 7, 11, 13, 17, 19}
  {
    assert n % 2 != 0 && n % 3 != 0 && n % 5 != 0 ==> n in {7, 11, 13, 17, 19};
  }

  lemma Sieve1(n: nat)
    requires 23 <= n < 59
    ensures Sieved(n) <==> n in {23, 29, 31, 37, 41, 43, 47, 53}
  {
    assert n % 2 != 0 && n % 3 != 0 && n % 5 != 0 ==> n in {23, 29, 31, 37, 41, 43, 47, 49, 53};
  }

  lemma Sieve2(n: nat)
    requires 59 <= n < 97
    ensures Sieved(n) <==> n in {59, 61, 67, 71, 73, 79, 83, 89}
  {
    assert n % 2 != 0 && n % 3 != 0 && n % 5 != 0 ==> n in {59, 61, 67, 71, 73, 77, 79, 83, 89, 91};
  }

  lemma Sieve3(n: nat)
    requires 97 <= n < 137
    ensures Sieved(n) <==> n in {97, 101, 103, 107, 109, 113, 127, 131}
  {
    assert n % 2 != 0 && n % 3 != 0 && n % 5 != 0 ==> n in {97, 101, 103, 107, 109, 113, 119, 121, 127, 131, 133};
  }

  lemma Sieve4(n: nat)
    requires 137 <= n < 179
    ensures Sieved(n) <==> n in {137, 139, 149, 151, 157, 163, 167, 173}
  {
    assert n % 2 != 0 && n % 3 != 0 && n % 5 != 0 ==> n in {137, 139, 143, 149, 151, 157, 161, 163, 167, 169, 173};
  }

  lemma Sieve5(n: nat)
    requires 179 <= n < 227
    ensures Sieved(n) <==> n in {179, 181, 191, 193, 197, 199, 211, 223}
  {
    assert n % 2 != 0 && n % 3 != 0 && n % 5 != 0 ==> n in {179, 181, 187, 191, 193, 197, 199, 203, 209, 211, 217, 221, 223};
  }

  lemma Sieve6(n: nat)
    requires 227 <= n < 269
    ensures Sieved(n) <==> n in {227, 229, 233, 239, 241, 251, 257, 263}
  {
    assert n % 2 != 0 && n % 3 != 0 && n % 5 != 0 ==> n in {227, 229, 233, 239, 241, 247, 251, 253, 257, 259, 263};
  }

  lemma Sieve7(n: nat)
    requires 269 <= n < 312
    ensures Sieved(n) <==> n in {269, 271, 277, 281, 283, 293, 307, 311}
  {
    assert n % 2 != 0 && n % 3 != 0 && n % 5 != 0 ==> n in {269, 271, 277, 281, 283, 287, 289, 293, 299, 301, 307, 311};
  }

  /** p passes the sieve and nothing between p and q does. */
  ghost predicate Adjacent(p: nat, q: nat) {
    2 <= p < q < 324 && Sieved(p) && forall n :: p < n < q ==> !Sieved(n)
  }

  lemma Gaps0(k: nat)
    requires k < 8
    ensures Adjacent(ROW0[k].prime, if k < 7 then ROW0[k + 1].prime else 23)
  {
    hide Sieved;
    forall n | 2 <= n < 23 ensures Sieved(n) <==> n in {2, 3, 5, 7, 11, 13, 17, 19} { Sieve0(n); }
  }

  lemma Gaps1(k: nat)
    requires k < 8
    ensures Adjacent(ROW1[k].prime, if k < 7 then ROW1[k + 1].prime else 59)
  {
    hide Sieved;
    forall n | 23 <= n < 59 ensures Sieved(n) <==> n in {23, 29, 31, 37, 41, 43, 47, 53} { Sieve1(n); }
  }

  lemma Gaps2(k: nat)
    requires k < 8
    ensures Adjacent(ROW2[k].prime, if k < 7 then ROW2[k + 1].prime else 97)
  {
    hide Sieved;
    forall n | 59 <= n < 97 ensures Sieved(n) <==> n in {59, 61, 67, 71, 73, 79, 83, 89} { Sieve2(n); }
  }

  lemma Gaps3(k: nat)
    requires k < 8
    ensures Adjacent(ROW3[k].prime, if k < 7 then ROW3[k + 1].prime else 137)
  {
    hide Sieved;
    forall n | 97 <= n < 137 ensures Sieved(n) <==> n in {97, 101, 103, 107, 109, 113, 127, 131} { Sieve3(n); }
  }

  lemma Gaps4(k: nat)
    requires k < 8
    ensures Adjacent(ROW4[k].prime, if k < 7 then ROW4[k + 1].prime else 179)
  {
    hide Sieved;
    forall n | 137 <= n < 179 ensures Sieved(n) <==> n in {137, 139, 149, 151, 157, 163, 167, 173} { Sieve4(n); }
  }

  lemma Gaps5(k: nat)
    requires k < 8
    ensures Adjacent(ROW5[k].prime, if k < 7 then ROW5[k + 1].prime else 227)
  {
    hide Sieved;
    forall n | 179 <= n < 227 ensures Sieved(n) <==> n in {179, 181, 191, 193, 197, 199, 211, 223} { Sieve5(n); }
  }

  lemma Gaps6(k: nat)
    requires k < 8
    ensures Adjacent(ROW6[k].prime, if k < 7 then ROW6[k + 1].prime else 269)
  {
    hide Sieved;
    forall n | 227 <= n < 269 ensures Sieved(n) <==> n in {227, 229, 233, 239, 241, 251, 257, 263} { Sieve6(n); }
  }

  lemma Gaps7(k: nat)
    requires k < 8
    ensures Adjacent(ROW7[k].prime, if k < 7 then ROW7[k + 1].prime else 312)
  {
    hide Sieved;
    forall n | 269 <= n < 312 ensures Sieved(n) <==> n in {269, 271, 277, 281, 283, 293, 307, 311} { Sieve7(n); }
  }

  lemma Gaps(t: nat)
    requires t < 64
    ensures Adjacent(RootOf(t).prime, if t < 63 then RootOf(t + 1).prime else 312)
  {
    hide Adjacent;
    if t < 8 {
      Gaps0(t);
    } else if t < 16 {
      Gaps1(t - 8);
    } else if t < 24 {
      Gaps2(t - 16);
    } else if t < 32 {
      Gaps3(t - 24);
    } else if t < 40 {
      Gaps4(t - 32);
    } else if t < 48 {
      Gaps5(t - 40);
    } else if t < 56 {
      Gaps6(t - 48);
    } else {
      Gaps7(t - 56);
    }
  }

  /** Entry 0 has the prime 2, and each entry the next prime after the one before. */
  lemma PrimesInOrder(t: nat)
    requires t < 64
    ensures RootOf(0).prime == 2 && Prime(RootOf(t).prime)
    ensures t < 63 ==> RootOf(t).prime < RootOf(t + 1).prime
    ensures t < 63 ==> forall n :: RootOf(t).prime < n < RootOf(t + 1).prime ==> !Prime(n)
  {
    assert RootOf(0).prime == 2;
    hide RootOf, Prime, Sieved;
    Gaps(t);
    SievedIsPrime(RootOf(t).prime);
    forall n | t < 63 && RootOf(t).prime < n < RootOf(t + 1).prime ensures !Prime(n) {
      if Prime(n) { PrimeIsSieved(n); assert false; }
    }
  }

  // ----- the initial state

  /** bits is the first 32 bits of the fraction of the square root of p (section 5.3.3). */
  ghost predicate SquareRootBits(bits: nat, p: nat) {
    exists whole :: IsSquareRoot(bits, whole, p)
  }

  /** floor(sqrt(p) * 2^32) is whole * 2^32 + bits. */
  ghost predicate IsSquareRoot(bits: nat, whole: nat, p: nat) {
    var v := 0x1_0000_0000 * whole + bits;
    bits < 0x1_0000_0000 && v * v <= p * 0x1_0000_0000_0000_0000 < (v + 1) * (v + 1)
  }

  const INITIAL: seq<nat> := [
    0x6a09e667, 0xbb67ae85, 0x3c6ef372, 0xa54ff53a, 0x510e527f, 0x9b05688c, 0x1f83d9ab, 0x5be0cd19]

  lemma InitialRoots(i: nat)
    requires i < 8
    ensures SquareRootBits(INITIAL[i], RootOf(i).prime)
  {
    var whole := [1, 1, 2, 2, 3, 3, 4, 4][i];
    assert IsSquareRoot(INITIAL[i], whole, RootOf(i).prime);
  }
}
