/** Symbol lookup in DSOs with a GNU hash table: the hash, the bucket chains, and the Bloom filter
    in front of them. */
module GnuHash {
  import opened Common
  import opened Bits

  const W32: nat := 0x1_0000_0000

  /** The fields of a symbol that the search looks at. */
  datatype Sym = Sym(shndx: nat, value: nat, info: byte)

  /** The hash table as an array of 32-bit words, and per symbol its name, its version entry if
      the DSO has them, and its other fields. */
  datatype Dso = Dso(tab: seq<nat>, names: seq<seq<byte>>, versym: Option<seq<int>>, syms: seq<Sym>)

  // ----- the hash

  function Poly(s: seq<byte>): nat {
    if s == [] then 5381 else 33 * Poly(s[..|s| - 1]) + s[|s| - 1]
  }

  function HashOf(s: seq<byte>): (h: nat)
    ensures h < W32
  {
    Poly(s) % W32
  }

  lemma HashStep(s: seq<byte>, c: byte)
    ensures HashOf(s + [c]) == (HashOf(s) + (HashOf(s) * 32 + c)) % W32
  {
    var x := Poly(s);
    assert (s + [c])[..|s|] == s;
    assert Poly(s + [c]) == 33 * x + c;
    var q, r := x / W32, x % W32;
    var q', r' := (33 * r + c) / W32, (33 * r + c) % W32;
    DivModUnique(33 * x + c, W32, 33 * q + q', r');
  }

  method Hash(s: seq<byte>) returns (h: nat)
    ensures h == HashOf(s)
  {
    h := 5381;
    assert s[..0] == [];
    for i := 0 to |s|
      invariant h == HashOf(s[..i])
    {
      HashStep(s[..i], s[i]);
      assert s[..i + 1] == s[..i] + [s[i]];
      h := (h + (h * 32 + s[i])) % W32;
    }
    assert s[..|s|] == s;
  }

  // ----- the table

  ghost function Offset(d: Dso): nat requires |d.tab| >= 4 { d.tab[1] }

  ghost predicate Hashed(d: Dso, i: nat)
    requires |d.tab| >= 4
  {
    Offset(d) <= i < |d.names|
  }

  ghost function BucketOf(d: Dso, i: nat): nat
    requires Sized(d) && i < |d.names|
  {
    Mod(HashOf(d.names[i]), d.tab[0])
  }

  /** The header and the room for 64-bit filter words, buckets and chain. Symbol 0 is the null
      symbol, so no hashed symbol has index 0. */
  ghost predicate Sized(d: Dso) {
    && |d.tab| >= 4 && d.tab[0] >= 1 && IsPow2(d.tab[2]) && d.tab[3] < 32
    && 1 <= Offset(d) <= |d.names| == |d.syms|
    && |d.tab| == 4 + 2 * d.tab[2] + d.tab[0] + (|d.names| - Offset(d))
    && (d.versym.Some? ==> |d.versym.value| == |d.names|)
  }

  ghost function BucketAt(d: Dso, b: nat): nat
    requires Sized(d) && b < d.tab[0]
  {
    d.tab[4 + 2 * d.tab[2] + b]
  }

  ghost function ChainAt(d: Dso, i: nat): nat
    requires Sized(d) && Hashed(d, i)
  {
    d.tab[4 + 2 * d.tab[2] + d.tab[0] + (i - Offset(d))]
  }

  ghost function BloomWord(d: Dso, k: nat): nat
    requires Sized(d) && k < d.tab[2]
  {
    d.tab[4 + 2 * k] + W32 * d.tab[5 + 2 * k]
  }

  ghost predicate Odd(x: nat) { x % 2 == 1 }

  /** `x | 1`. */
  ghost function OrOne(x: nat): nat { if Odd(x) then x else x + 1 }

  /** A chain entry is the hash of its symbol, except for the lowest bit, which marks the last
      symbol of a bucket. */
  ghost predicate ChainOk(d: Dso, i: nat)
    requires Sized(d) && Hashed(d, i)
  {
    && OrOne(ChainAt(d, i)) == OrOne(HashOf(d.names[i]))
    && (Odd(ChainAt(d, i)) <==> i + 1 == |d.names| || BucketOf(d, i + 1) != BucketOf(d, i))
  }

  /** A bucket holds the index of its first symbol, or 0 if it has none. */
  ghost predicate BucketOk(d: Dso, b: nat)
    requires Sized(d) && b < d.tab[0]
  {
    var f := BucketAt(d, b);
    && (f != 0 ==> Hashed(d, f) && BucketOf(d, f) == b)
    && forall i :: Hashed(d, i) && BucketOf(d, i) == b ==> f != 0 && f <= i
  }

  /** Both filter bits of the hash are set in the filter word of the hash. */
  ghost predicate BloomHas(d: Dso, h: nat)
    requires Sized(d)
  {
    IsPow2Positive(d.tab[2]);
    var w := BloomWord(d, Mod(h / 64, d.tab[2]));
    TestBit(w, h % 64) && TestBit(w, h / Pow2(d.tab[3]) % 64)
  }

  lemma IsPow2Positive(m: nat)
    requires IsPow2(m)
    ensures m >= 1
  {
  }

  /** The symbols of one bucket are contiguous. */
  ghost predicate Between(d: Dso, i: nat, k: nat)
    requires Sized(d) && Hashed(d, i) && Hashed(d, k)
  {
    i <= k && BucketOf(d, i) == BucketOf(d, k) ==> forall j :: i <= j <= k ==> BucketOf(d, j) == BucketOf(d, i)
  }

  ghost predicate Chained(d: Dso)
    requires Sized(d)
  {
    forall i :: Hashed(d, i) ==> ChainOk(d, i)
  }

  ghost predicate Bucketed(d: Dso)
    requires Sized(d)
  {
    forall b :: 0 <= b < d.tab[0] ==> BucketOk(d, b)
  }

  ghost predicate Grouped(d: Dso)
    requires Sized(d)
  {
    forall i, k :: Hashed(d, i) && Hashed(d, k) ==> Between(d, i, k)
  }

  ghost predicate Bloomed(d: Dso)
    requires Sized(d)
  {
    forall i: nat :: Hashed(d, i) ==> BloomHas(d, HashOf(d.names[i]))
  }

  ghost predicate WellFormed(d: Dso) {
    Sized(d) && Chained(d) && Bucketed(d) && Grouped(d) && Bloomed(d)
  }

  // ----- what a lookup should find

  ghost predicate Visible(d: Dso, i: nat)
    requires d.versym.Some? ==> i < |d.versym.value|
  {
    d.versym.None? || d.versym.value[i] >= 0
  }

  ghost predicate Matches(d: Dso, s: seq<byte>, i: nat)
    requires Sized(d)
  {
    Hashed(d, i) && Visible(d, i) && d.names[i] == s
  }

  /** r is the first hashed, visible symbol named s. */
  ghost predicate IsFirst(d: Dso, s: seq<byte>, r: Option<nat>)
    requires Sized(d)
  {
    match r
    case Some(i) => Matches(d, s, i) && forall j :: 0 <= j < i ==> !Matches(d, s, j)
    case None => forall j :: 0 <= j < |d.names| ==> !Matches(d, s, j)
  }

  lemma FirstUnique(d: Dso, s: seq<byte>, r: Option<nat>, r': Option<nat>)
    requires Sized(d) && IsFirst(d, s, r) && IsFirst(d, s, r')
    ensures r == r'
  {
    if r.Some? { assert Matches(d, s, r.value) && r.value < |d.names|; }
    if r'.Some? { assert Matches(d, s, r'.value) && r'.value < |d.names|; }
  }

  // ----- the chain walk

  /** Everything the walk has to look at: from the bucket's first symbol to the last symbol
      before a marked one. */
  lemma BucketComplete(d: Dso, s: seq<byte>, j: nat)
    requires WellFormed(d) && Matches(d, s, j)
    ensures var b := Mod(HashOf(s), d.tab[0]);
            BucketOf(d, j) == b && BucketAt(d, b) != 0 && BucketAt(d, b) <= j
  {
    assert BucketOk(d, Mod(HashOf(s), d.tab[0]));
  }

  lemma ChainEnds(d: Dso, i: nat, j: nat)
    requires WellFormed(d) && Hashed(d, i) && Odd(ChainAt(d, i)) && i < j && Hashed(d, j)
    ensures BucketOf(d, j) != BucketOf(d, i)
  {
    assert ChainOk(d, i);
    assert Between(d, i, j);
  }

  lemma ChainGoesOn(d: Dso, i: nat)
    requires WellFormed(d) && Hashed(d, i) && !Odd(ChainAt(d, i))
    ensures Hashed(d, i + 1) && BucketOf(d, i + 1) == BucketOf(d, i)
  {
    assert ChainOk(d, i);
  }

  /** The bucket's chain was walked from its start to i without a match; nothing before i matches. */
  lemma NothingBefore(d: Dso, s: seq<byte>, i: nat)
    requires WellFormed(d)
    requires var f := BucketAt(d, Mod(HashOf(s), d.tab[0])); forall j :: f <= j < i ==> !Matches(d, s, j)
    ensures forall j :: 0 <= j < i ==> !Matches(d, s, j)
  {
    forall j | 0 <= j < i && Matches(d, s, j) ensures false {
      BucketComplete(d, s, j);
    }
  }

  /** Nothing after the marked end of the chain matches. */
  lemma NothingAfter(d: Dso, s: seq<byte>, i: nat)
    requires WellFormed(d) && Hashed(d, i) && BucketOf(d, i) == Mod(HashOf(s), d.tab[0]) && Odd(ChainAt(d, i))
    ensures forall j :: i < j < |d.names| ==> !Matches(d, s, j)
  {
    forall j | i < j < |d.names| && Matches(d, s, j) ensures false {
      BucketComplete(d, s, j);
      ChainEnds(d, i, j);
    }
  }

  lemma EmptyBucket(d: Dso, s: seq<byte>)
    requires WellFormed(d) && BucketAt(d, Mod(HashOf(s), d.tab[0])) == 0
    ensures IsFirst(d, s, None)
  {
    forall j | 0 <= j < |d.names| && Matches(d, s, j) ensures false {
      BucketComplete(d, s, j);
    }
  }

  method Lookup(h: nat, d: Dso, s: seq<byte>) returns (r: Option<nat>)
    requires WellFormed(d) && h == HashOf(s)
    ensures IsFirst(d, s, r)
  {
    hide WellFormed, Chained, Bucketed, Grouped, Bloomed, HashOf, Matches, IsFirst, BucketOf, Odd, OrOne;
    assert Sized(d) by { SizedIs(d); }
    ghost var b := Mod(h, d.tab[0]);
    BucketIs(d, b);
    var i := d.tab[4 + 2 * d.tab[2] + h % d.tab[0]];
    if i == 0 {
      EmptyBucket(d, s);
      return None;
    }
    ghost var first := i;
    var h1 := if h % 2 == 1 then h else h + 1;
    while true
      invariant Hashed(d, i) && BucketOf(d, i) == b
      invariant forall j :: first <= j < i ==> !Matches(d, s, j)
      decreases |d.names| - i
    {
      var h2 := d.tab[4 + 2 * d.tab[2] + d.tab[0] + (i - d.tab[1])];
      WalkStep(h, d, s, i);
      if h1 == (if h2 % 2 == 1 then h2 else h2 + 1) && (d.versym.None? || d.versym.value[i] >= 0) && s == d.names[i] {
        NothingBefore(d, s, i);
        Found(d, s, i);
        return Some(i);
      }
      if h2 % 2 == 1 {
        NothingBefore(d, s, i);
        NothingAfter(d, s, i);
        NotFound(d, s, i);
        return None;
      }
      ChainGoesOn(d, i);
      i := i + 1;
    }
  }

  lemma SizedIs(d: Dso)
    requires WellFormed(d)
    ensures Sized(d)
  {
    hide Sized, Chained, Bucketed, Grouped, Bloomed;
  }

  /** What the words read at symbol i decide. */
  lemma WalkStep(h: nat, d: Dso, s: seq<byte>, i: nat)
    requires WellFormed(d) && h == HashOf(s) && Hashed(d, i)
    ensures var h1, h2 := OrOne(h), ChainAt(d, i);
            && (Odd(h2) <==> h2 % 2 == 1)
            && h1 == (if h % 2 == 1 then h else h + 1) && OrOne(h2) == (if h2 % 2 == 1 then h2 else h2 + 1)
            && (Matches(d, s, i) <==> h1 == OrOne(h2) && (d.versym.None? || d.versym.value[i] >= 0) && s == d.names[i])
  {
    ChainIs(d, i);
    hide Chained, Bucketed, Grouped, Bloomed, HashOf;
  }

  lemma Found(d: Dso, s: seq<byte>, i: nat)
    requires Sized(d) && Matches(d, s, i) && forall j :: 0 <= j < i ==> !Matches(d, s, j)
    ensures IsFirst(d, s, Some(i))
  {
    hide Matches;
  }

  lemma NotFound(d: Dso, s: seq<byte>, i: nat)
    requires Sized(d) && !Matches(d, s, i) && forall j :: 0 <= j < i ==> !Matches(d, s, j)
    requires forall j :: i < j < |d.names| ==> !Matches(d, s, j)
    ensures IsFirst(d, s, None)
  {
    hide Matches;
  }

  lemma BucketIs(d: Dso, b: nat)
    requires WellFormed(d) && b < d.tab[0]
    ensures var f := BucketAt(d, b); f != 0 ==> Hashed(d, f) && BucketOf(d, f) == b
  {
    assert BucketOk(d, b);
  }

  lemma ChainIs(d: Dso, i: nat)
    requires WellFormed(d) && Hashed(d, i)
    ensures OrOne(ChainAt(d, i)) == OrOne(HashOf(d.names[i]))
  {
    assert ChainOk(d, i);
  }

  // ----- the filter

  method LookupFiltered(h: nat, d: Dso, s: seq<byte>, fofs: nat, fmask: nat) returns (r: Option<nat>)
    requires WellFormed(d) && h == HashOf(s) && fofs == h / 64 && fmask == Pow2(h % 64)
    ensures IsFirst(d, s, r)
  {
    hide Chained, Bucketed, Grouped, HashOf, Pow2, And;
    BloomIndex(d, fofs);
    var k := And(fofs, d.tab[2] - 1);
    var f := d.tab[4 + 2 * k] + W32 * d.tab[5 + 2 * k];
    MaskBit(f, h % 64);
    if And(f, fmask) == 0 {
      Rejected(d, s);
      return None;
    }
    f := f / Pow2(h / Pow2(d.tab[3]) % 64);
    if f % 2 != 1 {
      Rejected(d, s);
      return None;
    }
    r := Lookup(h, d, s);
  }

  lemma BloomIndex(d: Dso, n: nat)
    requires Sized(d)
    ensures d.tab[2] >= 1 && And(n, d.tab[2] - 1) == Mod(n, d.tab[2])
  {
    var k: nat :| d.tab[2] == Pow2(k);
    MaskIsMod(n, k);
  }

  /** A name whose hash the filter does not have is not in the table. */
  lemma Rejected(d: Dso, s: seq<byte>)
    requires WellFormed(d) && !BloomHas(d, HashOf(s))
    ensures IsFirst(d, s, None)
  {
    hide Chained, Bucketed, Grouped;
  }
}
