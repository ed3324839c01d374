/** crypt_md5.c: the incremental MD5 context. */
module Md5 {
  import opened Bits
  import opened HashStream
  import opened HashWord

  // ----- RFC 1321, section 3.4, in its own terms

  type Chain = h: seq<word> | |h| == 4 witness seq(4, i => 0)

  datatype Vars = Vars(a: word, b: word, c: word, d: word)

  function MixF(x: word, y: word, z: word): word { (x & y) | (!x & z) }
  function MixG(x: word, y: word, z: word): word { (x & z) | (y & !z) }
  function MixH(x: word, y: word, z: word): word { x ^ y ^ z }
  function MixI(x: word, y: word, z: word): word { y ^ (x | !z) }

  function Rotl(x: word, k: nat): word
    requires 0 < k < 32
  {
    x.RotateLeft(k)
  }

  /** Which word of the block operation t uses: the k column of the RFC's table. */
  function IndexOf(t: nat): (k: nat)
    requires t < 64
    ensures k < 16
  {
    ROWS[t / 16][t % 16]
  }

  const ROWS: seq<seq<nat>> := [
    [0, 1, 2, 3, 4, 5, 6, 7, 8, 9, 10, 11, 12, 13, 14, 15],
    [1, 6, 11, 0, 5, 10, 15, 4, 9, 14, 3, 8, 13, 2, 7, 12],
    [5, 8, 11, 14, 1, 4, 7, 10, 13, 0, 3, 6, 9, 12, 15, 2],
    [0, 7, 14, 5, 12, 3, 10, 1, 8, 15, 6, 13, 4, 11, 2, 9]]

  /** How far operation t rotates: the s column. */
  function Shift(t: nat): (s: nat)
    ensures 0 < s < 32
  {
    var r := t % 4;
    if t < 16 then (if r == 0 then 7 else if r == 1 then 12 else if r == 2 then 17 else 22)
    else if t < 32 then (if r == 0 then 5 else if r == 1 then 9 else if r == 2 then 14 else 20)
    else if t < 48 then (if r == 0 then 4 else if r == 1 then 11 else if r == 2 then 16 else 23)
    else (if r == 0 then 6 else if r == 1 then 10 else if r == 2 then 15 else 21)
  }

  function Mixer(t: nat, x: word, y: word, z: word): word {
    if t < 16 then MixF(x, y, z) else if t < 32 then MixG(x, y, z) else if t < 48 then MixH(x, y, z) else MixI(x, y, z)
  }

  const T: seq<word> := [
    0xd76aa478, 0xe8c7b756, 0x242070db, 0xc1bdceee, 0xf57c0faf, 0x4787c62a, 0xa8304613, 0xfd469501,
    0x698098d8, 0x8b44f7af, 0xffff5bb1, 0x895cd7be, 0x6b901122, 0xfd987193, 0xa679438e, 0x49b40821,
    0xf61e2562, 0xc040b340, 0x265e5a51, 0xe9b6c7aa, 0xd62f105d, 0x02441453, 0xd8a1e681, 0xe7d3fbc8,
    0x21e1cde6, 0xc33707d6, 0xf4d50d87, 0x455a14ed, 0xa9e3e905, 0xfcefa3f8, 0x676f02d9, 0x8d2a4c8a,
    0xfffa3942, 0x8771f681, 0x6d9d6122, 0xfde5380c, 0xa4beea44, 0x4bdecfa9, 0xf6bb4b60, 0xbebfbc70,
    0x289b7ec6, 0xeaa127fa, 0xd4ef3085, 0x04881d05, 0xd9d4d039, 0xe6db99e5, 0x1fa27cf8, 0xc4ac5665,
    0xf4292244, 0x432aff97, 0xab9423a7, 0xfc93a039, 0x655b59c3, 0x8f0ccc92, 0xffeff47d, 0x85845dd1,
    0x6fa87e4f, 0xfe2ce6e0, 0xa3014314, 0x4e0811a1, 0xf7537e82, 0xbd3af235, 0x2ad7d2bb, 0xeb86d391]

  /** Word k of a block, least significant byte first. */
  function BlockWord(m: Block, k: nat): word
    requires k < 16
  {
    WordValue(m[4 * k + 3], m[4 * k + 2], m[4 * k + 1], m[4 * k])
  }

  /** a = b + ((a + (F(b,c,d) + X[k] + T[i])) <<< s), after which the variables change places. */
  function Operation(v: Vars, f: word, x: word, t: word, s: nat): Vars
    requires 0 < s < 32
  {
    Vars(v.d, Add(v.b, Rotl(Add(v.a, Add(Add(f, x), t)), s)), v.b, v.c)
  }

  function Operations(v: Vars, m: Block, t: nat): Vars
    requires t <= 64
  {
    if t == 0 then v
    else
      var u := Operations(v, m, t - 1);
      Operation(u, Mixer(t - 1, u.b, u.c, u.d), BlockWord(m, IndexOf(t - 1)), T[t - 1], Shift(t - 1))
  }

  function VarsOf(h: Chain): Vars { Vars(h[0], h[1], h[2], h[3]) }

  function AddVars(h: Chain, v: Vars): Chain {
    [Add(h[0], v.a), Add(h[1], v.b), Add(h[2], v.c), Add(h[3], v.d)]
  }

  function Compress(h: Chain, m: Block): Chain { AddVars(h, Operations(VarsOf(h), m, 64)) }

  const H0: Chain := [0x67452301, 0xefcdab89, 0x98badcfe, 0x10325476]

  /** The bit length modulo 2^64, least significant byte first. */
  function LengthField(n: nat): seq<byte> { Digits(8 * n % TWO64, 8) }

  function Padded(m: seq<byte>): seq<byte> { m + Padding(|m|, LengthField(|m|)) }

  /** md holds the words of h, each least significant byte first. */
  ghost predicate Spells(md: seq<byte>, h: Chain) {
    |md| == 16 && forall i :: 0 <= i < 4 ==> SpellsWord(md, 4 * i, h[i])
  }

  ghost predicate SpellsWord(md: seq<byte>, j: nat, w: word)
    requires j + 4 <= |md|
  {
    md[j] == ByteOf(w) && md[j + 1] == ByteOf(w >> 8) && md[j + 2] == ByteOf(w >> 16) && md[j + 3] == ByteOf(w >> 24)
  }

  /** md is the MD5 digest of m. */
  ghost predicate IsDigest(m: seq<byte>, md: seq<byte>) {
    Spells(md, Fold<Chain>(Compress, H0, Padded(m)))
  }

  // ----- the source's forms

  function Rol(x: word, k: nat): word
    requires 0 < k < 32
  {
    (x << k) | (x >> (32 - k))
  }

  function F(x: word, y: word, z: word): word { z ^ (x & (y ^ z)) }
  function G(x: word, y: word, z: word): word { y ^ (z & (y ^ x)) }
  function H(x: word, y: word, z: word): word { x ^ y ^ z }
  function I(x: word, y: word, z: word): word { y ^ (x | !z) }

  /** The common part of the source's FF, GG, HH and II, given the mixed word f. */
  function Turn(a: word, b: word, f: word, w: word, s: nat, t: word): word
    requires 0 < s < 32
  {
    Add(Rol(Add(a, Add(Add(f, w), t)), s), b)
  }

  lemma MixersAgree(x: word, y: word, z: word)
    ensures F(x, y, z) == MixF(x, y, z) && G(x, y, z) == MixG(x, y, z)
    ensures H(x, y, z) == MixH(x, y, z) && I(x, y, z) == MixI(x, y, z)
  {
    hide F, G, H, I, MixF, MixG, MixH, MixI;
    FIsMix(x, y, z);
    GIsMix(x, y, z);
    HIsMix(x, y, z);
    IIsMix(x, y, z);
  }

  lemma FIsMix(x: word, y: word, z: word)
    ensures F(x, y, z) == MixF(x, y, z)
  {
    ChooseForms(x, y, z);
  }

  lemma GIsMix(x: word, y: word, z: word)
    ensures G(x, y, z) == MixG(x, y, z)
  {
    MultiplexForms(x, y, z);
  }

  lemma HIsMix(x: word, y: word, z: word)
    ensures H(x, y, z) == MixH(x, y, z)
  {
  }

  lemma IIsMix(x: word, y: word, z: word)
    ensures I(x, y, z) == MixI(x, y, z)
  {
  }

  lemma MultiplexForms(x: word, y: word, z: word)
    ensures y ^ (z & (y ^ x)) == (x & z) | (y & !z)
  {
  }

  lemma RotationsAgree(x: word)
    ensures Rol(x, 7) == Rotl(x, 7) && Rol(x, 12) == Rotl(x, 12) && Rol(x, 17) == Rotl(x, 17) && Rol(x, 22) == Rotl(x, 22)
    ensures Rol(x, 5) == Rotl(x, 5) && Rol(x, 9) == Rotl(x, 9) && Rol(x, 14) == Rotl(x, 14) && Rol(x, 20) == Rotl(x, 20)
    ensures Rol(x, 4) == Rotl(x, 4) && Rol(x, 11) == Rotl(x, 11) && Rol(x, 16) == Rotl(x, 16) && Rol(x, 23) == Rotl(x, 23)
    ensures Rol(x, 6) == Rotl(x, 6) && Rol(x, 10) == Rotl(x, 10) && Rol(x, 15) == Rotl(x, 15) && Rol(x, 21) == Rotl(x, 21)
  {
  }

  lemma TurnAgrees(v: Vars, f: word, w: word, t: word, i: nat)
    ensures Operation(v, f, w, t, Shift(i)) == Vars(v.d, Turn(v.a, v.b, f, w, Shift(i), t), v.b, v.c)
  {
    hide Add, Rol, Rotl, Shift;
    var s := Shift(i);
    ShiftRotates(Add(v.a, Add(Add(f, w), t)), i);
    AddCommutes(v.b, Rol(Add(v.a, Add(Add(f, w), t)), s));
  }

  lemma ShiftRotates(x: word, i: nat)
    ensures Rol(x, Shift(i)) == Rotl(x, Shift(i))
  {
    hide Rol, Rotl;
    RotationsAgree(x);
  }

  lemma AddCommutes(a: word, b: word)
    ensures Add(a, b) == Add(b, a)
  {
  }

  lemma Row0(k: nat)
    requires k < 16
    ensures IndexOf(k) == k
  {
  }

  lemma Row1(k: nat)
    requires k < 16
    ensures IndexOf(16 + k) == (5 * k + 1) % 16
  {
    assert (16 + k) / 16 == 1 && (16 + k) % 16 == k;
  }

  lemma Row2(k: nat)
    requires k < 16
    ensures IndexOf(32 + k) == (3 * k + 5) % 16
  {
    assert (32 + k) / 16 == 2 && (32 + k) % 16 == k;
  }

  lemma Row3(k: nat)
    requires k < 16
    ensures IndexOf(48 + k) == 7 * k % 16
  {
    assert (48 + k) / 16 == 3 && (48 + k) % 16 == k;
  }

  lemma Shift16(x: nat, q: nat)
    ensures (x + 16 * q) % 16 == x % 16
  {
    DivModUnique(x + 16 * q, 16, x / 16 + q, x % 16);
  }

  lemma IndexFormulas(t: nat)
    requires t < 64
    ensures t < 16 ==> IndexOf(t) == t
    ensures 16 <= t < 32 ==> IndexOf(t) == (5 * t + 1) % 16
    ensures 32 <= t < 48 ==> IndexOf(t) == (3 * t + 5) % 16
    ensures 48 <= t ==> IndexOf(t) == 7 * t % 16
  {
    hide IndexOf;
    if t < 16 {
      Row0(t);
    } else if t < 32 {
      Row1(t - 16);
      Shift16(5 * (t - 16) + 1, 5);
    } else if t < 48 {
      Row2(t - 32);
      Shift16(3 * (t - 32) + 5, 6);
    } else {
      Row3(t - 48);
      Shift16(7 * (t - 48), 21);
    }
  }

  lemma NextOperation(v: Vars, m: Block, t: nat)
    requires t < 64
    ensures var u := Operations(v, m, t);
            Operations(v, m, t + 1)
            == Vars(u.d, Turn(u.a, u.b, Mixer(t, u.b, u.c, u.d), BlockWord(m, IndexOf(t)), Shift(t), T[t]), u.b, u.c)
  {
    var u := Operations(v, m, t);
    TurnAgrees(u, Mixer(t, u.b, u.c, u.d), BlockWord(m, IndexOf(t)), T[t], t);
    hide Turn, Operation, Mixer, BlockWord, IndexOf, Shift;
  }

  // ----- the context

  class Context {
    var len: nat
    const h: array<word>
    const buf: array<byte>
    ghost var msg: seq<byte>

    ghost predicate Shaped() { h.Length == 4 && buf.Length == 64 }

    /** The chaining value and the first r bytes of the buffer are what the message m leaves. */
    ghost predicate Holds(m: seq<byte>, r: nat)
      reads h, buf
    {
      Shaped() && r <= 64 && Absorbed<Chain>(Compress, H0, m, h[..], buf[..r])
    }

    ghost predicate Valid()
      reads this, h, buf
    {
      len == |msg| % TWO64 && Holds(msg, |msg| % 64)
    }

    constructor ()
      ensures Valid() && msg == [] && fresh(h) && fresh(buf)
    {
      len := 0;
      h := new word[] [0x67452301, 0xefcdab89, 0x98badcfe, 0x10325476];
      buf := new byte[64];
      msg := [];
      new;
      hide Compress;
      assert h[..] == H0;
    }

    /** The message so far grows by m, however m falls on the block boundaries. */
    method Update(m: seq<byte>)
      requires Valid()
      modifies this, h, buf
      ensures Valid() && msg == old(msg) + m
    {
      hide Compress, Absorbed, Fold;
      Wrapped(|msg|);
      var r := len % 64;
      WrappedSum(|msg|, |m|);
      Position(|msg|, |m|);
      len := (len + |m|) % TWO64;
      var p := m;
      if r != 0 {
        if |p| < 64 - r {
          Keep(r, p);
          return;
        }
        Complete(r, p[..64 - r]);
        p := p[64 - r..];
      }
      Blocks(p);
      assert old(msg) + m == msg;
    }

    method ProcessBlock(m: Block)
      requires Shaped()
      modifies h
      ensures h[..] == Compress(old(h[..]), m)
    {
      var w := Load(m);
      var v := Vars(h[0], h[1], h[2], h[3]);
      hide Operations, Add, AddVars, IsLoaded;
      var r := RunOperations(m, w, v);
      Accumulate(r);
    }

    method Accumulate(v: Vars)
      requires Shaped()
      modifies h
      ensures h[..] == AddVars(old(h[..]), v)
    {
      hide Add;
      h[0], h[1], h[2], h[3] := Add(h[0], v.a), Add(h[1], v.b), Add(h[2], v.c), Add(h[3], v.d);
    }

    /** Bytes that leave the current block incomplete. */
    method Keep(r: nat, p: seq<byte>)
      requires Holds(msg, r) && r + |p| < 64
      modifies `msg, buf
      ensures msg == old(msg) + p && Holds(msg, r + |p|)
    {
      Buffered<Chain>(Compress, H0, msg, h[..], buf[..r], p);
      hide Compress, Absorbed;
      CopyIn(buf, r, p);
      assert buf[..r + |p|] == old(buf[..r]) + p;
      msg := msg + p;
    }

    /** Bytes that complete the current block. */
    method Complete(r: nat, p: seq<byte>)
      requires Holds(msg, r) && r + |p| == 64
      modifies `msg, h, buf
      ensures msg == old(msg) + p && Holds(msg, 0)
    {
      hide Compress, Absorbed, Fold, Rest;
      ghost var block := buf[..r] + p;
      Completed<Chain>(Compress, H0, msg, h[..], buf[..r], p);
      CopyIn(buf, r, p);
      assert buf[..] == block;
      ProcessBlock(buf[..]);
      assert buf[..0] == [];
      msg := msg + p;
    }

    /** Whole blocks straight from the input, the rest into the buffer. */
    method Blocks(m: seq<byte>)
      requires Holds(msg, 0)
      modifies `msg, h, buf
      ensures msg == old(msg) + m && Holds(msg, |m| % 64)
    {
      hide Compress, Absorbed, Rest, Fold;
      var p := m;
      ghost var n := 0;
      while |p| >= 64
        invariant msg + p == old(msg) + m && Holds(msg, 0)
        invariant |m| == 64 * n + |p|
        modifies `msg, h
      {
        assert buf[..0] == [] && [] + p[..64] == p[..64];
        Completed<Chain>(Compress, H0, msg, h[..], [], p[..64]);
        ProcessBlock(p[..64]);
        msg := msg + p[..64];
        p := p[64..];
        n := n + 1;
      }
      DivModUnique(|m|, 64, n, |p|);
      Keep(0, p);
    }

    /** The length counter as the last 8 bytes of the block, least significant first. */
    method StoreLength()
      requires Shaped() && len < TWO64
      modifies buf
      ensures buf[..] == old(buf[..56]) + Digits(len, 8)
    {
      EightDigits(len);
      hide Digits;
      buf[56] := len % 256;
      buf[57] := len / 0x100 % 256;
      buf[58] := len / 0x1_0000 % 256;
      buf[59] := len / 0x100_0000 % 256;
      buf[60] := len / 0x1_0000_0000 % 256;
      buf[61] := len / 0x100_0000_0000 % 256;
      buf[62] := len / 0x1_0000_0000_0000 % 256;
      buf[63] := len / 0x100_0000_0000_0000 % 256;
    }

    method Pad()
      requires Valid()
      modifies `len, h, buf
      ensures h[..] == Fold<Chain>(Compress, H0, Padded(msg))
    {
      hide Compress, Absorbed, Rest, Fold, Zeros, Digits, Padding;
      Wrapped(|msg|);
      ghost var field := LengthField(|msg|);
      var r := len % 64;
      ghost var rest := buf[..r];
      if r < 56 {
        ShortPad<Chain>(Compress, H0, msg, h[..], rest, field);
      } else {
        LongPad<Chain>(Compress, H0, msg, h[..], rest, field);
      }
      buf[r] := 0x80;
      r := r + 1;
      assert buf[..r] == rest + [0x80];
      if r > 56 {
        CopyIn(buf, r, Zeros(64 - r));
        assert buf[..] == rest + [0x80] + Zeros(64 - r);
        r := 0;
        ProcessBlock(buf[..]);
      }
      assert r == 0 ==> buf[..r] + Zeros(56) + field == Zeros(56) + field;
      LastBlock(r);
    }

    /** Zeros up to the length field, the length in bits, and the block is complete. */
    method LastBlock(r: nat)
      requires Shaped() && r <= 56
      modifies `len, h, buf
      ensures h[..] == Compress(old(h[..]), old(buf[..r]) + Zeros(56 - r) + Digits(old(len) * 8 % TWO64, 8))
    {
      hide Compress, Zeros, Digits;
      ghost var head := buf[..r];
      CopyIn(buf, r, Zeros(56 - r));
      assert buf[..56] == head + Zeros(56 - r);
      len := len * 8 % TWO64;
      StoreLength();
      ProcessBlock(buf[..]);
    }

    /** Finish: write the digest of the message to md. */
    method Sum(md: array<byte>)
      requires Valid() && md.Length == 16 && md != buf
      modifies `len, h, buf, md
      ensures IsDigest(msg, md[..])
    {
      Pad();
      hide Compress, Fold, Spells;
      Spell(h, md);
    }
  }

  method Spell(h: array<word>, md: array<byte>)
    requires h.Length == 4 && md.Length == 16
    modifies md
    ensures Spells(md[..], h[..])
  {
    hide SpellsWord;
    for i := 0 to 4
      invariant forall j :: 0 <= j < i ==> SpellsWord(md[..], 4 * j, h[j])
    {
      ghost var was := md[..];
      StoreWord(md, 4 * i, h[i]);
      forall j | 0 <= j < i ensures SpellsWord(md[..], 4 * j, h[j]) {
        SpellsFrame(was, md[..], 4 * i, 4 * j, h[j]);
      }
    }
  }

  /** What was spelled out reads back as the same word. */
  lemma SpellingReadsBack(md: seq<byte>, j: nat, w: word)
    requires j + 4 <= |md| && SpellsWord(md, j, w)
    ensures WordValue(md[j + 3], md[j + 2], md[j + 1], md[j]) == w
  {
    WordSplits(w);
    hide WordValue, ByteOf;
  }

  lemma SpellsFrame(was: seq<byte>, now: seq<byte>, k: nat, j: nat, w: word)
    requires k <= |was| && k <= |now| && was[..k] == now[..k] && j + 4 <= k && SpellsWord(was, j, w)
    ensures SpellsWord(now, j, w)
  {
    hide ByteOf;
    assert forall i :: 0 <= i < k ==> was[i] == was[..k][i] && now[i] == now[..k][i];
  }

  method StoreWord(md: array<byte>, j: nat, w: word)
    requires j + 4 <= md.Length
    modifies md
    ensures SpellsWord(md[..], j, w) && md[..j] == old(md[..j])
  {
    hide ByteOf;
    md[j] := ByteOf(w);
    md[j + 1] := ByteOf(w >> 8);
    md[j + 2] := ByteOf(w >> 16);
    md[j + 3] := ByteOf(w >> 24);
  }

  /** However the message is cut into updates, the result is the digest of the whole. */
  method HashPieces(pieces: seq<seq<byte>>) returns (md: array<byte>)
    ensures IsDigest(Flatten(pieces), md[..])
  {
    hide Compress, Fold, IsDigest;
    var c := new Context();
    for i := 0 to |pieces|
      invariant c.Valid() && c.msg == Flatten(pieces[..i])
      invariant fresh(c) && fresh(c.h) && fresh(c.buf)
    {
      c.Update(pieces[i]);
      FlattenSnoc(pieces[..i], pieces[i]);
      assert pieces[..i + 1] == pieces[..i] + [pieces[i]];
    }
    assert pieces[..|pieces|] == pieces;
    md := new byte[16];
    c.Sum(md);
  }

  // ----- one block

  ghost predicate IsLoaded(m: Block, w: seq<word>) {
    |w| == 16 && forall k :: 0 <= k < 16 ==> w[k] == BlockWord(m, k)
  }

  method Load(m: Block) returns (w: array<word>)
    ensures fresh(w) && IsLoaded(m, w[..])
  {
    hide ShiftedUp, WordValue;
    w := new word[16];
    for i := 0 to 16
      invariant forall k :: 0 <= k < i ==> w[k] == BlockWord(m, k)
    {
      w[i] := ShiftedUp(m[4 * i + 3], m[4 * i + 2], m[4 * i + 1], m[4 * i]);
      ShiftedUpValue(m[4 * i + 3], m[4 * i + 2], m[4 * i + 1], m[4 * i]);
    }
  }

  method FF(m: Block, w: array<word>, ghost v: Vars, i: nat, a: word, b: word, c: word, d: word, s: nat) returns (x: word)
    requires IsLoaded(m, w[..]) && 0 <= i < 16 && s == Shift(i) && Vars(a, b, c, d) == Operations(v, m, i)
    ensures Vars(d, x, b, c) == Operations(v, m, i + 1)
  {
    StepIs(m, w[..], v, i, Vars(a, b, c, d));
    hide Operations, Turn, Shift, F;
    x := Turn(a, b, F(b, c, d), w[i], s, T[i]);
  }

  /** Operations 0 to 15. */
  method RoundF(m: Block, w: array<word>, ghost v: Vars, u: Vars) returns (r: Vars)
    requires IsLoaded(m, w[..]) && u == Operations(v, m, 0)
    ensures r == Operations(v, m, 16)
  {
    hide Operations, IsLoaded, Shift;
    var a, b, c, d := u.a, u.b, u.c, u.d;
    var i := 0;
    while i < 16
      invariant 0 <= i <= 16 && i % 4 == 0
      invariant Vars(a, b, c, d) == Operations(v, m, i)
    {
      FourShifts(i);
      a := FF(m, w, v, i, a, b, c, d, 7);
      d := FF(m, w, v, i + 1, d, a, b, c, 12);
      c := FF(m, w, v, i + 2, c, d, a, b, 17);
      b := FF(m, w, v, i + 3, b, c, d, a, 22);
      i := i + 4;
    }
    r := Vars(a, b, c, d);
  }

  method GG(m: Block, w: array<word>, ghost v: Vars, i: nat, a: word, b: word, c: word, d: word, s: nat) returns (x: word)
    requires IsLoaded(m, w[..]) && 16 <= i < 32 && s == Shift(i) && Vars(a, b, c, d) == Operations(v, m, i)
    ensures Vars(d, x, b, c) == Operations(v, m, i + 1)
  {
    StepIs(m, w[..], v, i, Vars(a, b, c, d));
    hide Operations, Turn, Shift, G;
    x := Turn(a, b, G(b, c, d), w[(5 * i + 1) % 16], s, T[i]);
  }

  /** Operations 16 to 31. */
  method RoundG(m: Block, w: array<word>, ghost v: Vars, u: Vars) returns (r: Vars)
    requires IsLoaded(m, w[..]) && u == Operations(v, m, 16)
    ensures r == Operations(v, m, 32)
  {
    hide Operations, IsLoaded, Shift;
    var a, b, c, d := u.a, u.b, u.c, u.d;
    var i := 16;
    while i < 32
      invariant 16 <= i <= 32 && i % 4 == 0
      invariant Vars(a, b, c, d) == Operations(v, m, i)
    {
      FourShifts(i);
      a := GG(m, w, v, i, a, b, c, d, 5);
      d := GG(m, w, v, i + 1, d, a, b, c, 9);
      c := GG(m, w, v, i + 2, c, d, a, b, 14);
      b := GG(m, w, v, i + 3, b, c, d, a, 20);
      i := i + 4;
    }
    r := Vars(a, b, c, d);
  }

  method HH(m: Block, w: array<word>, ghost v: Vars, i: nat, a: word, b: word, c: word, d: word, s: nat) returns (x: word)
    requires IsLoaded(m, w[..]) && 32 <= i < 48 && s == Shift(i) && Vars(a, b, c, d) == Operations(v, m, i)
    ensures Vars(d, x, b, c) == Operations(v, m, i + 1)
  {
    StepIs(m, w[..], v, i, Vars(a, b, c, d));
    hide Operations, Turn, Shift, H;
    x := Turn(a, b, H(b, c, d), w[(3 * i + 5) % 16], s, T[i]);
  }

  /** Operations 32 to 47. */
  method RoundH(m: Block, w: array<word>, ghost v: Vars, u: Vars) returns (r: Vars)
    requires IsLoaded(m, w[..]) && u == Operations(v, m, 32)
    ensures r == Operations(v, m, 48)
  {
    hide Operations, IsLoaded, Shift;
    var a, b, c, d := u.a, u.b, u.c, u.d;
    var i := 32;
    while i < 48
      invariant 32 <= i <= 48 && i % 4 == 0
      invariant Vars(a, b, c, d) == Operations(v, m, i)
    {
      FourShifts(i);
      a := HH(m, w, v, i, a, b, c, d, 4);
      d := HH(m, w, v, i + 1, d, a, b, c, 11);
      c := HH(m, w, v, i + 2, c, d, a, b, 16);
      b := HH(m, w, v, i + 3, b, c, d, a, 23);
      i := i + 4;
    }
    r := Vars(a, b, c, d);
  }

  method II(m: Block, w: array<word>, ghost v: Vars, i: nat, a: word, b: word, c: word, d: word, s: nat) returns (x: word)
    requires IsLoaded(m, w[..]) && 48 <= i < 64 && s == Shift(i) && Vars(a, b, c, d) == Operations(v, m, i)
    ensures Vars(d, x, b, c) == Operations(v, m, i + 1)
  {
    StepIs(m, w[..], v, i, Vars(a, b, c, d));
    hide Operations, Turn, Shift, I;
    x := Turn(a, b, I(b, c, d), w[7 * i % 16], s, T[i]);
  }

  /** Operations 48 to 63. */
  method RoundI(m: Block, w: array<word>, ghost v: Vars, u: Vars) returns (r: Vars)
    requires IsLoaded(m, w[..]) && u == Operations(v, m, 48)
    ensures r == Operations(v, m, 64)
  {
    hide Operations, IsLoaded, Shift;
    var a, b, c, d := u.a, u.b, u.c, u.d;
    var i := 48;
    while i < 64
      invariant 48 <= i <= 64 && i % 4 == 0
      invariant Vars(a, b, c, d) == Operations(v, m, i)
    {
      FourShifts(i);
      a := II(m, w, v, i, a, b, c, d, 6);
      d := II(m, w, v, i + 1, d, a, b, c, 10);
      c := II(m, w, v, i + 2, c, d, a, b, 15);
      b := II(m, w, v, i + 3, b, c, d, a, 21);
      i := i + 4;
    }
    r := Vars(a, b, c, d);
  }

  /** All 64 operations on the working variables. */
  method RunOperations(m: Block, w: array<word>, v: Vars) returns (r: Vars)
    requires IsLoaded(m, w[..])
    ensures r == Operations(v, m, 64)
  {
    hide IsLoaded;
    r := RoundF(m, w, v, v);
    r := RoundG(m, w, v, r);
    r := RoundH(m, w, v, r);
    r := RoundI(m, w, v, r);
  }

  lemma FourShifts(i: nat)
    requires i % 4 == 0 && i < 64
    ensures i < 16 ==> Shift(i) == 7 && Shift(i + 1) == 12 && Shift(i + 2) == 17 && Shift(i + 3) == 22
    ensures 16 <= i < 32 ==> Shift(i) == 5 && Shift(i + 1) == 9 && Shift(i + 2) == 14 && Shift(i + 3) == 20
    ensures 32 <= i < 48 ==> Shift(i) == 4 && Shift(i + 1) == 11 && Shift(i + 2) == 16 && Shift(i + 3) == 23
    ensures 48 <= i ==> Shift(i) == 6 && Shift(i + 1) == 10 && Shift(i + 2) == 15 && Shift(i + 3) == 21
  {
  }

  /** Operation i in the source's terms. */
  lemma StepIs(m: Block, w: seq<word>, v: Vars, i: nat, u: Vars)
    requires IsLoaded(m, w) && i < 64 && u == Operations(v, m, i)
    ensures |w| == 16
    ensures var x := SourceMix(i, u.b, u.c, u.d);
            Operations(v, m, i + 1) == Vars(u.d, Turn(u.a, u.b, x, w[SourceIndex(i)], Shift(i), T[i]), u.b, u.c)
  {
    NextOperation(v, m, i);
    IndexFormulas(i);
    MixersAgree(u.b, u.c, u.d);
    hide Operations, Turn, F, G, H, I, MixF, MixG, MixH, MixI, BlockWord, IndexOf, Shift;
  }

  function SourceIndex(i: nat): (k: nat)
    ensures k < 16
  {
    if i < 16 then i else if i < 32 then (5 * i + 1) % 16 else if i < 48 then (3 * i + 5) % 16 else 7 * i % 16
  }

  function SourceMix(i: nat, x: word, y: word, z: word): word {
    if i < 16 then F(x, y, z) else if i < 32 then G(x, y, z) else if i < 48 then H(x, y, z) else I(x, y, z)
  }
}
