/** Symbol lookup in DSOs that carry only the older System V hash table: the hash of the ELF ABI,
    and bucket chains linked by symbol index. */
module SysvHash {
  import opened Common
  import opened Bits
  import opened HashWord
  import opened GnuHash

  // ----- the hash

  /** One byte by the ABI: the top four bits are folded back in and cleared at every step. */
  function AbiStep(h: word, c: word): word { AbiFold(Shifted(h, c)) }

  /** 16 * h + c on 32 bits. */
  function Shifted(h: word, c: word): word { Add(Times16(h), c) }

  function Times16(h: word): word { h << 4 }

  function AbiFold(x: word): word { (x ^ ((x & 0xf000_0000) >> 24)) & !(x & 0xf000_0000) }

  function AbiHash(s: seq<byte>): word {
    if s == [] then 0 else AbiStep(AbiHash(s[..|s| - 1]), Widened(s[|s| - 1]))
  }

  function Widened(c: byte): word { c as word }

  /** One byte by the source: the top four bits stay. */
  function Step(h: word, c: word): word { Fold(Shifted(h, c)) }

  function Fold(x: word): word { x ^ ((x >> 24) & 0xf0) }

  function Low28(x: word): word { x & 0xfff_ffff }

  lemma StepAgrees(h: word, c: word)
    ensures Low28(Step(h, c)) == AbiStep(Low28(h), c)
  {
    hide Shifted, Fold, AbiFold, Low28;
    TopBitsLeave(h, c);
    FoldsAgree(Shifted(h, c));
  }

  lemma TopBitsLeave(h: word, c: word)
    ensures Shifted(Low28(h), c) == Shifted(h, c)
  {
    hide Low28, Times16, Add;
    ShiftedOut(h);
  }

  lemma ShiftedOut(h: word)
    ensures Times16(Low28(h)) == Times16(h)
  {
  }

  lemma FoldsAgree(x: word)
    ensures Low28(Fold(x)) == AbiFold(x)
  {
  }

  /** Clearing the top bits once at the end gives the hash of the ABI. */
  method Hash(s: seq<byte>) returns (h: word)
    ensures h == AbiHash(s)
  {
    var x: word := 0;
    assert s[..0] == [] && Low28(0) == 0;
    hide Step, AbiStep, Low28, Widened;
    for i := 0 to |s|
      invariant Low28(x) == AbiHash(s[..i])
    {
      StepAgrees(x, Widened(s[i]));
      assert s[..i + 1][..i] == s[..i];
      x := Step(x, Widened(s[i]));
    }
    assert s[..|s|] == s;
    h := Low28(x);
  }

  // ----- the table

  /** Two counts, the buckets, and for every symbol the next one of its chain; 0 ends a chain. */
  ghost predicate Sized(d: Dso) {
    && |d.tab| >= 2 && d.tab[0] >= 1 && |d.tab| == 2 + d.tab[0] + |d.names| && |d.names| == |d.syms|
    && (d.versym.Some? ==> |d.versym.value| == |d.names|)
  }

  ghost function Bucket(d: Dso, b: nat): nat
    requires Sized(d) && b < d.tab[0]
  {
    d.tab[2 + b]
  }

  ghost function BucketOf(d: Dso, h: nat): nat
    requires Sized(d)
  {
    Bucket(d, Mod(h, d.tab[0]))
  }

  ghost function NextOf(d: Dso, i: nat): nat
    requires Sized(d) && i < |d.names|
  {
    d.tab[2 + d.tab[0] + i]
  }

  /** c is the chain that starts at i. */
  ghost predicate IsChain(d: Dso, i: nat, c: seq<nat>)
    requires Sized(d)
    decreases |c|
  {
    if i == 0 then c == [] else c != [] && c[0] == i < |d.names| && IsChain(d, NextOf(d, i), c[1..])
  }

  lemma {:induction false} ChainUnique(d: Dso, i: nat, c: seq<nat>, e: seq<nat>)
    requires Sized(d) && IsChain(d, i, c) && IsChain(d, i, e)
    ensures c == e
    decreases |c|
  {
    if i != 0 {
      ChainUnique(d, NextOf(d, i), c[1..], e[1..]);
      assert c == [i] + c[1..] && e == [i] + e[1..];
    }
  }

  ghost predicate ChainEnds(d: Dso, i: nat)
    requires Sized(d)
  {
    exists c :: IsChain(d, i, c)
  }

  /** Every chain ends, and every symbol but the null symbol is on the chain of its name's hash. */
  ghost predicate WellFormed(d: Dso) {
    && Sized(d)
    && (forall b :: 0 <= b < d.tab[0] ==> ChainEnds(d, Bucket(d, b)))
    && forall i, c :: 0 < i < |d.names| && IsChain(d, BucketOf(d, AbiHash(d.names[i]) as nat), c) ==> i in c
  }

  // ----- the lookup

  ghost predicate Matches(d: Dso, s: seq<byte>, i: nat)
    requires Sized(d)
  {
    i < |d.names| && Visible(d, i) && d.names[i] == s
  }

  /** r is the first visible symbol named s in the list. */
  ghost predicate FirstIn(d: Dso, s: seq<byte>, c: seq<nat>, r: Option<nat>)
    requires Sized(d)
  {
    if c == [] then r == None
    else if Matches(d, s, c[0]) then r == Some(c[0])
    else FirstIn(d, s, c[1..], r)
  }

  /** What the table gives for s: the first visible symbol of that name on the chain of its hash. */
  ghost predicate IsFirst(d: Dso, s: seq<byte>, r: Option<nat>)
    requires Sized(d)
  {
    exists c :: IsChain(d, BucketOf(d, AbiHash(s) as nat), c) && FirstIn(d, s, c, r)
  }

  lemma FirstUnique(d: Dso, s: seq<byte>, r: Option<nat>, r': Option<nat>)
    requires Sized(d) && IsFirst(d, s, r) && IsFirst(d, s, r')
    ensures r == r'
  {
    var i := BucketOf(d, AbiHash(s) as nat);
    var c :| IsChain(d, i, c) && FirstIn(d, s, c, r);
    var e :| IsChain(d, i, e) && FirstIn(d, s, e, r');
    hide IsChain, IsFirst;
    ChainUnique(d, i, c, e);
    FirstInUnique(d, s, c, r, r');
  }

  lemma {:induction false} FirstInUnique(d: Dso, s: seq<byte>, c: seq<nat>, r: Option<nat>, r': Option<nat>)
    requires Sized(d) && FirstIn(d, s, c, r) && FirstIn(d, s, c, r')
    ensures r == r'
  {
    if c != [] && !Matches(d, s, c[0]) { FirstInUnique(d, s, c[1..], r, r'); }
  }

  lemma {:induction false} FirstInMatches(d: Dso, s: seq<byte>, c: seq<nat>, r: Option<nat>)
    requires Sized(d) && FirstIn(d, s, c, r)
    ensures match r case Some(i) => i in c && Matches(d, s, i) case None => forall i :: i in c ==> !Matches(d, s, i)
  {
    if c != [] && !Matches(d, s, c[0]) {
      FirstInMatches(d, s, c[1..], r);
      assert forall i :: i in c <==> i == c[0] || i in c[1..];
    }
  }

  /** A symbol that is found has the name, and nothing is found only if no symbol but the null
      symbol has it. */
  lemma FirstExact(d: Dso, s: seq<byte>, r: Option<nat>)
    requires WellFormed(d) && IsFirst(d, s, r)
    ensures match r case Some(i) => Matches(d, s, i) case None => forall i :: 0 < i < |d.names| ==> !Matches(d, s, i)
  {
    var c :| IsChain(d, BucketOf(d, AbiHash(s) as nat), c) && FirstIn(d, s, c, r);
    hide FirstIn, IsChain;
    FirstInMatches(d, s, c, r);
  }

  method Lookup(s: seq<byte>, h: word, d: Dso) returns (r: Option<nat>)
    requires WellFormed(d) && h == AbiHash(s)
    ensures IsFirst(d, s, r)
  {
    var i := d.tab[2 + h as nat % d.tab[0]];
    ghost var whole := ChainOf(d, h as nat);
    ghost var c := whole;
    hide WellFormed, IsFirst, AbiHash;
    while i != 0
      invariant IsChain(d, i, c)
      invariant forall r: Option<nat> :: FirstIn(d, s, c, r) ==> FirstIn(d, s, whole, r)
      decreases |c|
    {
      if (d.versym.None? || d.versym.value[i] >= 0) && s == d.names[i] {
        assert FirstIn(d, s, c, Some(i));
        First(d, s, whole, Some(i));
        return Some(i);
      }
      i, c := d.tab[2 + d.tab[0] + i], c[1..];
    }
    assert FirstIn(d, s, c, None);
    First(d, s, whole, None);
    r := None;
  }

  ghost function ChainOf(d: Dso, h: nat): (c: seq<nat>)
    requires WellFormed(d)
    ensures IsChain(d, BucketOf(d, h), c)
  {
    assert ChainEnds(d, Bucket(d, Mod(h, d.tab[0])));
    var c :| IsChain(d, BucketOf(d, h), c);
    c
  }

  lemma First(d: Dso, s: seq<byte>, c: seq<nat>, r: Option<nat>)
    requires Sized(d) && IsChain(d, BucketOf(d, AbiHash(s) as nat), c) && FirstIn(d, s, c, r)
    ensures IsFirst(d, s, r)
  {
  }
}
