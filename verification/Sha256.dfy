/** crypt_sha256.c: the incremental SHA-256 context. */
module Sha256 {
  import opened Bits
  import opened HashStream
  import opened HashWord
  import opened Sha256Tables

  // ----- FIPS 180-3, sections 4.1.2 and 6.2, in its own terms

  type Chain = h: seq<word> | |h| == 8 witness seq(8, i => 0)

  datatype Vars = Vars(a: word, b: word, c: word, d: word, e: word, f: word, g: word, h: word)

  function Choose(x: word, y: word, z: word): word { (x & y) ^ (!x & z) }
  function Majority(x: word, y: word, z: word): word { (x & y) ^ (x & z) ^ (y & z) }
  function Rotr(x: word, k: nat): word
    requires 0 < k < 32
  {
    x.RotateRight(k)
  }

  function Xor3(x: word, y: word, z: word): word { x ^ y ^ z }
  function BigSigma0(x: word): word { Xor3(Rotr(x, 2), Rotr(x, 13), Rotr(x, 22)) }
  function BigSigma1(x: word): word { Xor3(Rotr(x, 6), Rotr(x, 11), Rotr(x, 25)) }
  function SmallSigma0(x: word): word { Xor3(Rotr(x, 7), Rotr(x, 18), x >> 3) }
  function SmallSigma1(x: word): word { Xor3(Rotr(x, 17), Rotr(x, 19), x >> 10) }

  /** The message schedule. */
  function Schedule(m: Block, t: nat): word
    requires t < 64
  {
    if t < 16 then WordValue(m[4 * t], m[4 * t + 1], m[4 * t + 2], m[4 * t + 3])
    else Add(Add(Add(SmallSigma1(Schedule(m, t - 2)), Schedule(m, t - 7)), SmallSigma0(Schedule(m, t - 15))), Schedule(m, t - 16))
  }

  function Round(v: Vars, k: word, w: word): Vars {
    var t1 := Add(Add(Add(Add(v.h, BigSigma1(v.e)), Choose(v.e, v.f, v.g)), k), w);
    var t2 := Add(BigSigma0(v.a), Majority(v.a, v.b, v.c));
    Vars(Add(t1, t2), v.a, v.b, v.c, Add(v.d, t1), v.e, v.f, v.g)
  }

  function Rounds(v: Vars, m: Block, t: nat): Vars
    requires t <= 64
  {
    if t == 0 then v else Round(Rounds(v, m, t - 1), K(t - 1), Schedule(m, t - 1))
  }

  function VarsOf(h: Chain): Vars { Vars(h[0], h[1], h[2], h[3], h[4], h[5], h[6], h[7]) }

  function AddVars(h: Chain, v: Vars): Chain {
    [Add(h[0], v.a), Add(h[1], v.b), Add(h[2], v.c), Add(h[3], v.d), Add(h[4], v.e), Add(h[5], v.f), Add(h[6], v.g), Add(h[7], v.h)]
  }

  function Compress(h: Chain, m: Block): Chain { AddVars(h, Rounds(VarsOf(h), m, 64)) }

  function K(t: nat): word
    requires t < 64
  {
    RootSmall(t);
    RootOf(t).bits as word
  }

  const H0: Chain := [0x6a09e667, 0xbb67ae85, 0x3c6ef372, 0xa54ff53a, 0x510e527f, 0x9b05688c, 0x1f83d9ab, 0x5be0cd19]

  lemma InitialState(i: nat)
    requires i < 8
    ensures SquareRootBits(H0[i] as nat, RootOf(i).prime)
  {
    InitialRoots(i);
    hide SquareRootBits, RootOf;
    assert H0[i] as nat == INITIAL[i];
  }

  /** The bit length modulo 2^64, most significant byte first. */
  function LengthField(n: nat): seq<byte> { Reverse(Digits(8 * n % TWO64, 8)) }

  function Padded(m: seq<byte>): seq<byte> { m + Padding(|m|, LengthField(|m|)) }

  /** md holds the words of h, each most significant byte first. */
  ghost predicate Spells(md: seq<byte>, h: Chain) {
    |md| == 32 && forall i :: 0 <= i < 8 ==> SpellsWord(md, 4 * i, h[i])
  }

  ghost predicate SpellsWord(md: seq<byte>, j: nat, w: word)
    requires j + 4 <= |md|
  {
    md[j] == ByteOf(w >> 24) && md[j + 1] == ByteOf(w >> 16) && md[j + 2] == ByteOf(w >> 8) && md[j + 3] == ByteOf(w)
  }

  /** md is the SHA-256 digest of m. */
  ghost predicate IsDigest(m: seq<byte>, md: seq<byte>) {
    Spells(md, Fold<Chain>(Compress, H0, Padded(m)))
  }

  // ----- the source's forms

  function Ror(x: word, k: nat): word
    requires 0 < k < 32
  {
    (x >> k) | (x << (32 - k))
  }

  function Ch(x: word, y: word, z: word): word { z ^ (x & (y ^ z)) }
  function Maj(x: word, y: word, z: word): word { (x & y) | (z & (x | y)) }
  function S0(x: word): word { Xor3(Ror(x, 2), Ror(x, 13), Ror(x, 22)) }
  function S1(x: word): word { Xor3(Ror(x, 6), Ror(x, 11), Ror(x, 25)) }
  function R0(x: word): word { Xor3(Ror(x, 7), Ror(x, 18), x >> 3) }
  function R1(x: word): word { Xor3(Ror(x, 17), Ror(x, 19), x >> 10) }

  lemma MajorityForms(x: word, y: word, z: word)
    ensures (x & y) | (z & (x | y)) == (x & y) ^ (x & z) ^ (y & z)
  {
  }

  lemma RotationsAgree(x: word)
    ensures Ror(x, 2) == Rotr(x, 2) && Ror(x, 13) == Rotr(x, 13) && Ror(x, 22) == Rotr(x, 22)
    ensures Ror(x, 6) == Rotr(x, 6) && Ror(x, 11) == Rotr(x, 11) && Ror(x, 25) == Rotr(x, 25)
    ensures Ror(x, 7) == Rotr(x, 7) && Ror(x, 18) == Rotr(x, 18)
    ensures Ror(x, 17) == Rotr(x, 17) && Ror(x, 19) == Rotr(x, 19)
  {
  }

  lemma SigmasAgree(x: word)
    ensures S0(x) == BigSigma0(x) && S1(x) == BigSigma1(x) && R0(x) == SmallSigma0(x) && R1(x) == SmallSigma1(x)
  {
    RotationsAgree(x);
    hide Ror, Rotr, Xor3;
  }

  lemma MixersAgree(x: word, y: word, z: word)
    ensures Ch(x, y, z) == Choose(x, y, z) && Maj(x, y, z) == Majority(x, y, z)
  {
    ChooseForms(x, y, z);
    MajorityForms(x, y, z);
  }

  // ----- the context

  class Context {
    var len: nat
    const h: array<word>
    const buf: array<byte>
    ghost var msg: seq<byte>

    ghost predicate Shaped() { h.Length == 8 && buf.Length == 64 }

    /** The chaining value and the first r bytes of the buffer are what the message m leaves. */
    ghost predicate Holds(m: seq<byte>, r: nat)
      reads h, buf
    {
      Shaped() && r <= 64 && Absorbed<Chain>(Compress, H0, m, h[..], buf[..r])
    }

    ghost predicate Valid()
      reads this, h, buf
    {
      len == |msg| % TWO64 && Holds(msg, |msg| % 64)
    }

    constructor ()
      ensures Valid() && msg == [] && fresh(h) && fresh(buf)
    {
      len := 0;
      h := new word[] [0x6a09e667, 0xbb67ae85, 0x3c6ef372, 0xa54ff53a, 0x510e527f, 0x9b05688c, 0x1f83d9ab, 0x5be0cd19];
      buf := new byte[64];
      msg := [];
      new;
      hide Compress;
      assert h[..] == H0;
    }

    /** The message so far grows by m, however m falls on the block boundaries. */
    method Update(m: seq<byte>)
      requires Valid()
      modifies this, h, buf
      ensures Valid() && msg == old(msg) + m
    {
      hide Compress, Absorbed, Fold;
      Wrapped(|msg|);
      var r := len % 64;
      WrappedSum(|msg|, |m|);
      Position(|msg|, |m|);
      len := (len + |m|) % TWO64;
      var p := m;
      if r != 0 {
        if |p| < 64 - r {
          Keep(r, p);
          return;
        }
        Complete(r, p[..64 - r]);
        p := p[64 - r..];
      }
      Blocks(p);
      assert old(msg) + m == msg;
    }

    method ProcessBlock(m: Block)
      requires Shaped()
      modifies h
      ensures h[..] == Compress(old(h[..]), m)
    {
      var w := Expand(m);
      var v := RunRounds(m, w, Vars(h[0], h[1], h[2], h[3], h[4], h[5], h[6], h[7]));
      hide Rounds, Add, AddVars;
      Accumulate(v);
    }

    /** Bytes that leave the current block incomplete. */
    method Keep(r: nat, p: seq<byte>)
      requires Holds(msg, r) && r + |p| < 64
      modifies `msg, buf
      ensures msg == old(msg) + p && Holds(msg, r + |p|)
    {
      Buffered<Chain>(Compress, H0, msg, h[..], buf[..r], p);
      hide Compress, Absorbed;
      CopyIn(buf, r, p);
      assert buf[..r + |p|] == old(buf[..r]) + p;
      msg := msg + p;
    }

    /** Bytes that complete the current block. */
    method Complete(r: nat, p: seq<byte>)
      requires Holds(msg, r) && r + |p| == 64
      modifies `msg, h, buf
      ensures msg == old(msg) + p && Holds(msg, 0)
    {
      hide Compress, Absorbed, Fold, Rest;
      ghost var block := buf[..r] + p;
      Completed<Chain>(Compress, H0, msg, h[..], buf[..r], p);
      CopyIn(buf, r, p);
      assert buf[..] == block;
      ProcessBlock(buf[..]);
      assert buf[..0] == [];
      msg := msg + p;
    }

    /** Whole blocks straight from the input, the rest into the buffer. */
    method Blocks(m: seq<byte>)
      requires Holds(msg, 0)
      modifies `msg, h, buf
      ensures msg == old(msg) + m && Holds(msg, |m| % 64)
    {
      hide Compress, Absorbed, Rest, Fold;
      var p := m;
      ghost var n := 0;
      while |p| >= 64
        invariant msg + p == old(msg) + m && Holds(msg, 0)
        invariant |m| == 64 * n + |p|
        modifies `msg, h
      {
        assert buf[..0] == [] && [] + p[..64] == p[..64];
        Completed<Chain>(Compress, H0, msg, h[..], [], p[..64]);
        ProcessBlock(p[..64]);
        msg := msg + p[..64];
        p := p[64..];
        n := n + 1;
      }
      DivModUnique(|m|, 64, n, |p|);
      Keep(0, p);
    }

    /** The length counter as the last 8 bytes of the block, most significant first. */
    method StoreLength()
      requires Shaped() && len < TWO64
      modifies buf
      ensures buf[..] == old(buf[..56]) + Reverse(Digits(len, 8))
    {
      EightDigits(len);
      hide Digits;
      buf[56] := len / 0x100_0000_0000_0000 % 256;
      buf[57] := len / 0x1_0000_0000_0000 % 256;
      buf[58] := len / 0x100_0000_0000 % 256;
      buf[59] := len / 0x1_0000_0000 % 256;
      buf[60] := len / 0x100_0000 % 256;
      buf[61] := len / 0x1_0000 % 256;
      buf[62] := len / 0x100 % 256;
      buf[63] := len % 256;
    }

    method Pad()
      requires Valid()
      modifies `len, h, buf
      ensures h[..] == Fold<Chain>(Compress, H0, Padded(msg))
    {
      hide Compress, Absorbed, Rest, Fold, Zeros, Digits, Reverse, Padding;
      Wrapped(|msg|);
      ghost var field := LengthField(|msg|);
      var r := len % 64;
      ghost var rest := buf[..r];
      if r < 56 {
        ShortPad<Chain>(Compress, H0, msg, h[..], rest, field);
      } else {
        LongPad<Chain>(Compress, H0, msg, h[..], rest, field);
      }
      buf[r] := 0x80;
      r := r + 1;
      assert buf[..r] == rest + [0x80];
      if r > 56 {
        CopyIn(buf, r, Zeros(64 - r));
        assert buf[..] == rest + [0x80] + Zeros(64 - r);
        r := 0;
        ProcessBlock(buf[..]);
      }
      assert r == 0 ==> buf[..r] + Zeros(56) + field == Zeros(56) + field;
      LastBlock(r);
    }

    /** Zeros up to the length field, the length in bits, and the block is complete. */
    method LastBlock(r: nat)
      requires Shaped() && r <= 56
      modifies `len, h, buf
      ensures h[..] == Compress(old(h[..]), old(buf[..r]) + Zeros(56 - r) + Reverse(Digits(old(len) * 8 % TWO64, 8)))
    {
      hide Compress, Zeros, Digits, Reverse;
      ghost var head := buf[..r];
      CopyIn(buf, r, Zeros(56 - r));
      assert buf[..56] == head + Zeros(56 - r);
      len := len * 8 % TWO64;
      StoreLength();
      ProcessBlock(buf[..]);
    }

    /** Finish: write the digest of the message to md. */
    method Sum(md: array<byte>)
      requires Valid() && md.Length == 32 && md != buf
      modifies `len, h, buf, md
      ensures IsDigest(msg, md[..])
    {
      Pad();
      hide Compress, Fold, Spells;
      Spell(h, md);
    }

    /** n bytes of the digest md repeated (hashmd). */
    method HashMd(n: nat, md: seq<byte>)
      requires Valid() && |md| == 32
      modifies this, h, buf
      ensures Valid() && msg == old(msg) + Repeated(md, n)
    {
      hide Valid, Holds;
      var i: nat := n;
      while i > 32
        invariant Valid() && msg + Repeated(md, i) == old(msg) + Repeated(md, n)
      {
        Update(md);
        i := i - 32;
      }
      Update(md[..i]);
    }

    method Accumulate(v: Vars)
      requires Shaped()
      modifies h
      ensures h[..] == AddVars(old(h[..]), v)
    {
      hide Add;
      AddVarsInTurn(h[..], v);
      AddTo(0, v.a);
      AddTo(1, v.b);
      AddTo(2, v.c);
      AddTo(3, v.d);
      AddTo(4, v.e);
      AddTo(5, v.f);
      AddTo(6, v.g);
      AddTo(7, v.h);
    }

    method AddTo(i: nat, x: word)
      requires Shaped() && i < 8
      modifies h
      ensures h[..] == old(h[..])[i := Add(old(h[i]), x)]
    {
      hide Add;
      h[i] := Add(h[i], x);
    }
  }

  lemma AddVarsInTurn(o: Chain, v: Vars)
    ensures AddVars(o, v)
            == o[0 := Add(o[0], v.a)][1 := Add(o[1], v.b)][2 := Add(o[2], v.c)][3 := Add(o[3], v.d)]
                [4 := Add(o[4], v.e)][5 := Add(o[5], v.f)][6 := Add(o[6], v.g)][7 := Add(o[7], v.h)]
  {
    hide Add;
  }

  method Spell(h: array<word>, md: array<byte>)
    requires h.Length == 8 && md.Length == 32
    modifies md
    ensures Spells(md[..], h[..])
  {
    hide SpellsWord;
    for i := 0 to 8
      invariant forall j :: 0 <= j < i ==> SpellsWord(md[..], 4 * j, h[j])
    {
      ghost var was := md[..];
      StoreWord(md, 4 * i, h[i]);
      forall j | 0 <= j < i ensures SpellsWord(md[..], 4 * j, h[j]) {
        SpellsFrame(was, md[..], 4 * i, 4 * j, h[j]);
      }
    }
  }

  /** What was spelled out reads back as the same word. */
  lemma SpellingReadsBack(md: seq<byte>, j: nat, w: word)
    requires j + 4 <= |md| && SpellsWord(md, j, w)
    ensures WordValue(md[j], md[j + 1], md[j + 2], md[j + 3]) == w
  {
    WordSplits(w);
    hide WordValue, ByteOf;
  }

  lemma SpellsFrame(was: seq<byte>, now: seq<byte>, k: nat, j: nat, w: word)
    requires k <= |was| && k <= |now| && was[..k] == now[..k] && j + 4 <= k && SpellsWord(was, j, w)
    ensures SpellsWord(now, j, w)
  {
    hide ByteOf;
    assert forall i :: 0 <= i < k ==> was[i] == was[..k][i] && now[i] == now[..k][i];
  }

  method StoreWord(md: array<byte>, j: nat, w: word)
    requires j + 4 <= md.Length
    modifies md
    ensures SpellsWord(md[..], j, w) && md[..j] == old(md[..j])
  {
    hide ByteOf;
    md[j] := ByteOf(w >> 24);
    md[j + 1] := ByteOf(w >> 16);
    md[j + 2] := ByteOf(w >> 8);
    md[j + 3] := ByteOf(w);
  }

  /** n bytes, cycling through md. */
  function Repeated(md: seq<byte>, n: nat): (r: seq<byte>)
    requires |md| == 32
    ensures |r| == n
  {
    if n <= 32 then md[..n] else md + Repeated(md, n - 32)
  }

  lemma {:induction false} RepeatedAt(md: seq<byte>, n: nat, k: nat)
    requires |md| == 32 && k < n
    ensures Repeated(md, n)[k] == md[k % 32]
  {
    if n > 32 && k >= 32 { RepeatedAt(md, n - 32, k - 32); }
  }

  /** However the message is cut into updates, the result is the digest of the whole. */
  method HashPieces(pieces: seq<seq<byte>>) returns (md: array<byte>)
    ensures IsDigest(Flatten(pieces), md[..])
  {
    hide Compress, Fold, IsDigest;
    var c := new Context();
    for i := 0 to |pieces|
      invariant c.Valid() && c.msg == Flatten(pieces[..i])
      invariant fresh(c) && fresh(c.h) && fresh(c.buf)
    {
      c.Update(pieces[i]);
      FlattenSnoc(pieces[..i], pieces[i]);
      assert pieces[..i + 1] == pieces[..i] + [pieces[i]];
    }
    assert pieces[..|pieces|] == pieces;
    md := new byte[32];
    c.Sum(md);
  }

  /** The 64 rounds on the working variables. */
  method RunRounds(m: Block, w: array<word>, v: Vars) returns (r: Vars)
    requires IsSchedule(m, w[..])
    ensures r == Rounds(v, m, 64)
  {
    hide S0, S1, Ch, Maj, BigSigma0, BigSigma1, Choose, Majority, Schedule, Add, K;
    var a, b, c, d, e, f, g, h := v.a, v.b, v.c, v.d, v.e, v.f, v.g, v.h;
    for i := 0 to 64
      invariant Vars(a, b, c, d, e, f, g, h) == Rounds(v, m, i)
    {
      SigmasAgree(e); SigmasAgree(a);
      MixersAgree(e, f, g); MixersAgree(a, b, c);
      assert w[..][i] == Schedule(m, i);
      var t1 := Add(Add(Add(Add(h, S1(e)), Ch(e, f, g)), K(i)), w[i]);
      var t2 := Add(S0(a), Maj(a, b, c));
      h := g; g := f; f := e; e := Add(d, t1); d := c; c := b; b := a; a := Add(t1, t2);
    }
    r := Vars(a, b, c, d, e, f, g, h);
  }

  ghost predicate IsSchedule(m: Block, w: seq<word>) {
    |w| == 64 && forall t :: 0 <= t < 64 ==> w[t] == Schedule(m, t)
  }

  lemma ScheduleWord(m: Block, t: nat)
    requires t < 16
    ensures Schedule(m, t) == Shifted(m[4 * t], m[4 * t + 1], m[4 * t + 2], m[4 * t + 3])
  {
    hide Shifted, WordValue;
    ShiftedValue(m[4 * t], m[4 * t + 1], m[4 * t + 2], m[4 * t + 3]);
  }

  lemma ScheduleStep(m: Block, t: nat)
    requires 16 <= t < 64
    ensures Schedule(m, t)
            == Add(Add(Add(R1(Schedule(m, t - 2)), Schedule(m, t - 7)), R0(Schedule(m, t - 15))), Schedule(m, t - 16))
  {
    hide R0, R1, SmallSigma0, SmallSigma1, Add, WordValue;
    SigmasAgree(Schedule(m, t - 2));
    SigmasAgree(Schedule(m, t - 15));
  }

  method Expand(m: Block) returns (w: array<word>)
    ensures fresh(w) && IsSchedule(m, w[..])
  {
    hide R0, R1, SmallSigma0, SmallSigma1, Shifted, WordValue, Add, Schedule;
    w := new word[64];
    for i := 0 to 16
      invariant forall t :: 0 <= t < i ==> w[t] == Schedule(m, t)
    {
      w[i] := Shifted(m[4 * i], m[4 * i + 1], m[4 * i + 2], m[4 * i + 3]);
      ScheduleWord(m, i);
    }
    for i := 16 to 64
      invariant forall t :: 0 <= t < i ==> w[t] == Schedule(m, t)
    {
      ScheduleStep(m, i);
      w[i] := Add(Add(Add(R1(w[i - 2]), w[i - 7]), R0(w[i - 15])), w[i - 16]);
    }
  }
}
