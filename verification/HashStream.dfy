/** What the two hashes share: a digest is a fold of a compression function over 64-byte
    blocks of the padded message, computed incrementally with a buffer for the last
    incomplete block. */
module HashStream {
  import opened Bits

  type Block = b: seq<byte> | |b| == 64 witness seq(64, i => 0)

  const TWO64: nat := 0x1_0000_0000_0000_0000

  /** Compress the complete blocks of m, in order. */
  function Fold<S>(f: (S, Block) -> S, h: S, m: seq<byte>): S {
    if |m| < 64 then h else Fold(f, f(h, m[..64]), m[64..])
  }

  /** The bytes after the last complete block. */
  function Rest(m: seq<byte>): (r: seq<byte>)
    ensures |r| < 64
  {
    if |m| < 64 then m else Rest(m[64..])
  }

  lemma {:induction false} RestIsEnd(m: seq<byte>)
    ensures |Rest(m)| == |m| % 64
    ensures |Rest(m)| <= |m| && Rest(m) == m[|m| - |Rest(m)|..]
  {
    if |m| >= 64 { RestIsEnd(m[64..]); }
  }

  /** m with whole blocks compressed and the rest kept: what is left of m. */
  ghost predicate Absorbed<S>(f: (S, Block) -> S, init: S, m: seq<byte>, h: S, rest: seq<byte>) {
    h == Fold(f, init, m) && rest == Rest(m)
  }

  lemma {:induction false} FoldSplit<S>(f: (S, Block) -> S, h: S, m: seq<byte>, n: seq<byte>)
    ensures Fold(f, h, m + n) == Fold(f, Fold(f, h, m), Rest(m) + n)
    ensures Rest(m + n) == Rest(Rest(m) + n)
    decreases |m|
  {
    if |m| >= 64 {
      FirstBlock(m, n);
      var h' := f(h, m[..64]);
      FoldSplit(f, h', m[64..], n);
      assert Fold(f, h, m) == Fold(f, h', m[64..]);
      assert Fold(f, h, m + n) == Fold(f, h', m[64..] + n);
    }
  }

  lemma FirstBlock(m: seq<byte>, n: seq<byte>)
    requires |m| >= 64
    ensures (m + n)[..64] == m[..64] && (m + n)[64..] == m[64..] + n
  {
  }

  lemma FoldOne<S>(f: (S, Block) -> S, h: S, b: seq<byte>)
    requires |b| == 64
    ensures Fold(f, h, b) == f(h, b) && Rest(b) == []
  {
    assert b[..64] == b;
    assert b[64..] == [];
  }

  /** Bytes that do not complete a block only lengthen the rest. */
  lemma Buffered<S>(f: (S, Block) -> S, init: S, m: seq<byte>, h: S, rest: seq<byte>, n: seq<byte>)
    requires Absorbed(f, init, m, h, rest) && |rest| + |n| < 64
    ensures Absorbed(f, init, m + n, h, rest + n)
  {
    FoldSplit(f, init, m, n);
  }

  /** Bytes that complete exactly one block. */
  lemma Completed<S>(f: (S, Block) -> S, init: S, m: seq<byte>, h: S, rest: seq<byte>, n: seq<byte>)
    requires Absorbed(f, init, m, h, rest) && |rest| + |n| == 64
    ensures Absorbed(f, init, m + n, f(h, rest + n), [])
  {
    FoldSplit(f, init, m, n);
    FoldOne(f, h, rest + n);
  }

  // ----- padding

  function Zeros(n: nat): (r: seq<byte>)
    ensures |r| == n && forall i :: 0 <= i < n ==> r[i] == 0
  {
    seq(n, i => 0)
  }

  /** The least number of zero bytes that leaves 8 bytes of the last block for the length
      (section 5.1.1 of FIPS 180-3, section 3.1 of RFC 1321). */
  function ZeroCount(n: nat): (k: nat)
    ensures (n + 1 + k) % 64 == 56 && k < 64
  {
    (55 - n) % 64
  }

  lemma ZeroCountIs(n: nat)
    ensures ZeroCount(n) == (if n % 64 < 56 then 55 - n % 64 else 119 - n % 64)
    ensures (n + 1 + ZeroCount(n) + 8) % 64 == 0
  {
  }

  lemma LeastZeros(n: nat, j: nat)
    requires (n + 1 + j) % 64 == 56
    ensures ZeroCount(n) <= j
  {
    var k := ZeroCount(n);
    var a, b := (n + 1 + j) / 64, (n + 1 + k) / 64;
    assert j - k == 64 * (a - b);
  }

  function Padding(n: nat, length: seq<byte>): seq<byte> {
    [0x80] + Zeros(ZeroCount(n)) + length
  }

  /** A padded message is a whole number of blocks. */
  lemma PaddedIsWhole(m: seq<byte>, length: seq<byte>)
    requires |length| == 8
    ensures Rest(m + Padding(|m|, length)) == []
  {
    hide Rest, Padding;
    PaddedLength(|m|, length);
    WholeHasNoRest(m + Padding(|m|, length));
  }

  lemma PaddedLength(n: nat, length: seq<byte>)
    requires |length| == 8
    ensures (n + |Padding(n, length)|) % 64 == 0
  {
    hide ZeroCount, Zeros;
    assert |Padding(n, length)| == 1 + ZeroCount(n) + 8;
    hide Padding;
    ZeroCountIs(n);
  }

  lemma {:induction false} WholeHasNoRest(m: seq<byte>)
    requires |m| % 64 == 0
    ensures Rest(m) == []
  {
    if |m| >= 64 { WholeHasNoRest(m[64..]); }
  }

  lemma ZerosSplit(a: nat, b: nat)
    ensures Zeros(a + b) == Zeros(a) + Zeros(b)
  {
  }

  /** The padding fits the block in progress. */
  lemma ShortPad<S>(f: (S, Block) -> S, init: S, m: seq<byte>, h: S, rest: seq<byte>, length: seq<byte>)
    requires Absorbed(f, init, m, h, rest) && |length| == 8 && |rest| < 56
    ensures Fold(f, init, m + Padding(|m|, length)) == f(h, rest + [0x80] + Zeros(55 - |rest|) + length)
  {
    hide Zeros, ZeroCount, Fold, Rest;
    var p := Padding(|m|, length);
    RestIsEnd(m);
    ZeroCountIs(|m|);
    assert rest + p == rest + [0x80] + Zeros(55 - |rest|) + length;
    hide Padding, Absorbed;
    Completed(f, init, m, h, rest, p);
  }

  lemma AbsorbedRest<S>(f: (S, Block) -> S, init: S, m: seq<byte>, h: S, rest: seq<byte>)
    requires Absorbed(f, init, m, h, rest)
    ensures |rest| == |m| % 64
  {
    hide Fold, Rest;
    RestIsEnd(m);
  }

  lemma LongPadding(n: nat, length: seq<byte>)
    requires n % 64 >= 56
    ensures Padding(n, length) == ([0x80] + Zeros(63 - n % 64)) + (Zeros(56) + length)
  {
    hide Zeros, ZeroCount;
    ZeroCountIs(n);
    ZerosSplit(63 - n % 64, 56);
  }

  /** The padding needs one more block. */
  lemma LongPad<S>(f: (S, Block) -> S, init: S, m: seq<byte>, h: S, rest: seq<byte>, length: seq<byte>)
    requires Absorbed(f, init, m, h, rest) && |length| == 8 && |rest| >= 56
    ensures Fold(f, init, m + Padding(|m|, length))
            == f(f(h, rest + [0x80] + Zeros(63 - |rest|)), Zeros(56) + length)
  {
    hide Zeros, ZeroCount, Fold, Rest, Padding, Absorbed;
    AbsorbedRest(f, init, m, h, rest);
    var p, q := [0x80] + Zeros(63 - |rest|), Zeros(56) + length;
    LongPadding(|m|, length);
    assert rest + [0x80] + Zeros(63 - |rest|) == rest + p;
    Completed(f, init, m, h, rest, p);
    Completed(f, init, m + p, f(h, rest + p), [], q);
    assert [] + q == q;
    assert m + (p + q) == (m + p) + q;
  }

  // ----- the length field

  function Reverse(s: seq<byte>): (r: seq<byte>)
    ensures |r| == |s| && forall i :: 0 <= i < |s| ==> r[i] == s[|s| - 1 - i]
  {
    if s == [] then [] else Reverse(s[1..]) + [s[0]]
  }

  /** The divisors for the eight digits of a 64-bit number. */
  lemma Pow256Values()
    ensures Pow256(0) == 1 && Pow256(1) == 0x100 && Pow256(2) == 0x1_0000 && Pow256(3) == 0x100_0000
    ensures Pow256(4) == 0x1_0000_0000 && Pow256(5) == 0x100_0000_0000 && Pow256(6) == 0x1_0000_0000_0000
    ensures Pow256(7) == 0x100_0000_0000_0000 && Pow256(8) == TWO64
  {
    assert Pow256(3) == 256 * Pow256(2) && Pow256(4) == 256 * Pow256(3) && Pow256(5) == 256 * Pow256(4);
    assert Pow256(6) == 256 * Pow256(5) && Pow256(7) == 256 * Pow256(6) && Pow256(8) == 256 * Pow256(7);
  }

  lemma EightDigits(v: nat)
    ensures Digits(v, 8) == [v % 256, v / 0x100 % 256, v / 0x1_0000 % 256, v / 0x100_0000 % 256, v / 0x1_0000_0000 % 256,
              v / 0x100_0000_0000 % 256, v / 0x1_0000_0000_0000 % 256, v / 0x100_0000_0000_0000 % 256]
  {
    Pow256Values();
    DigitAt(v, 8, 0); DigitAt(v, 8, 1); DigitAt(v, 8, 2); DigitAt(v, 8, 3);
    DigitAt(v, 8, 4); DigitAt(v, 8, 5); DigitAt(v, 8, 6); DigitAt(v, 8, 7);
    hide Digits, Pow256;
  }

  /** The 64-bit byte counter, multiplied by 8, is the bit length modulo 2^64, and it still
      tells the position inside the block. */
  lemma Wrapped(n: nat)
    ensures (n % TWO64 * 8) % TWO64 == (8 * n) % TWO64
    ensures (n % TWO64) % 64 == n % 64
  {
    var q, r := n / TWO64, n % TWO64;
    assert n == TWO64 * q + r;
    var q', r' := (8 * r) / TWO64, (8 * r) % TWO64;
    DivModUnique(8 * n, TWO64, 8 * q + q', r');
    var t := TWO64 / 64;
    assert n == 64 * (t * q + r / 64) + r % 64;
    DivModUnique(n, 64, t * q + r / 64, r % 64);
  }

  lemma WrappedSum(n: nat, k: nat)
    ensures (n % TWO64 + k) % TWO64 == (n + k) % TWO64
  {
    var q, r := n / TWO64, n % TWO64;
    var q', r' := (r + k) / TWO64, (r + k) % TWO64;
    DivModUnique(n + k, TWO64, q + q', r');
  }

  /** The position in the block after k more bytes. */
  lemma Position(n: nat, k: nat)
    ensures n % 64 + k < 64 ==> (n + k) % 64 == n % 64 + k
    ensures n % 64 + k >= 64 ==> (n + k) % 64 == (k - (64 - n % 64)) % 64
    ensures n % 64 == 0 ==> (n + k) % 64 == k % 64
  {
  }

  /** Copy into the buffer at position r (memcpy). */
  method CopyIn(buf: array<byte>, r: nat, p: seq<byte>)
    requires r + |p| <= buf.Length
    modifies buf
    ensures buf[..] == old(buf[..r]) + p + old(buf[r + |p|..])
  {
    ghost var was := buf[..];
    assert was[..r] + was[r..] == was;
    for i := 0 to |p|
      invariant buf[..] == was[..r] + p[..i] + was[r + i..]
    {
      CopyByte(was, r, p, i);
      buf[r + i] := p[i];
    }
  }

  lemma CopyByte(b: seq<byte>, r: nat, p: seq<byte>, i: nat)
    requires r + |p| <= |b| && i < |p|
    ensures (b[..r] + p[..i] + b[r + i..])[r + i := p[i]] == b[..r] + p[..i + 1] + b[r + i + 1..]
  {
  }

  // ----- pieces

  function Flatten(pieces: seq<seq<byte>>): seq<byte> {
    if pieces == [] then [] else pieces[0] + Flatten(pieces[1..])
  }

  lemma {:induction false} FlattenSnoc(pieces: seq<seq<byte>>, p: seq<byte>)
    ensures Flatten(pieces + [p]) == Flatten(pieces) + p
  {
    if pieces != [] {
      assert (pieces + [p])[1..] == pieces[1..] + [p];
      FlattenSnoc(pieces[1..], p);
      assert pieces[0] + (Flatten(pieces[1..]) + p) == (pieces[0] + Flatten(pieces[1..])) + p;
    } else {
      assert pieces + [p] == [p];
    }
  }
}
