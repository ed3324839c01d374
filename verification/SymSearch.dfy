/** The search for a definition through the DSOs in order, whatever hash table each of them carries. */
module SymSearch {
  import opened Common
  import opened Bits
  import opened HashWord
  import GnuHash
  import SysvHash

  type Dso = GnuHash.Dso
  type Sym = GnuHash.Sym

  const STT_TLS: nat := 6
  const OK_TYPES: nat := 1 + 2 + 4 + 32 + 64      // NOTYPE, OBJECT, FUNC, COMMON, TLS
  const OK_BINDS: nat := 2 + 4 + 1024             // GLOBAL, WEAK, GNU_UNIQUE

  ghost function Kind(y: Sym): nat { y.info % 16 }
  ghost function Binding(y: Sym): nat { y.info / 16 }

  /** The symbol can serve as a definition: of a usable type and binding, defined in its DSO
      (or at least a non-TLS reference with an address, when that is enough). */
  ghost predicate Usable(y: Sym, needDef: bool) {
    && Kind(y) in {0, 1, 2, 5, 6} && Binding(y) in {1, 2, 10}
    && (Kind(y) == STT_TLS ==> y.shndx != 0)
    && (Kind(y) != STT_TLS ==> y.value != 0 && (needDef ==> y.shndx != 0))
  }

  /** A DSO with a GNU table, or with a System V table only. */
  datatype Object = Gnu(d: Dso) | Sysv(d: Dso)

  ghost predicate WellFormed(o: Object) {
    match o case Gnu(d) => GnuHash.WellFormed(d) case Sysv(d) => SysvHash.WellFormed(d)
  }

  /** The lookup in o gives r: the first visible symbol of that name, by index or on its chain. */
  ghost predicate Gives(o: Object, s: seq<byte>, r: Option<nat>) {
    match o
    case Gnu(d) => GnuHash.Sized(d) && GnuHash.IsFirst(d, s, r)
    case Sysv(d) => SysvHash.Sized(d) && SysvHash.IsFirst(d, s, r)
  }

  lemma GivesOne(o: Object, s: seq<byte>, r: Option<nat>, r': Option<nat>)
    requires Gives(o, s, r) && Gives(o, s, r')
    ensures r == r'
  {
    hide GnuHash.IsFirst, SysvHash.IsFirst, GnuHash.Sized, SysvHash.Sized;
    match o
    case Gnu(d) => GnuHash.FirstUnique(d, s, r, r');
    case Sysv(d) => SysvHash.FirstUnique(d, s, r, r');
  }

  /** A symbol that is found is one of o's, visible and named s. */
  lemma GivesNamed(o: Object, s: seq<byte>, i: nat)
    requires WellFormed(o) && Gives(o, s, Some(i))
    ensures i < |o.d.syms| && i < |o.d.names| && o.d.names[i] == s
  {
    match o
    case Gnu(d) => assert GnuHash.Matches(d, s, i);
    case Sysv(d) => SysvHash.FirstExact(d, s, Some(i));
  }

  /** The symbol that o contributes for s can serve as the definition. */
  ghost predicate Defines(o: Object, s: seq<byte>, needDef: bool, i: nat) {
    Gives(o, s, Some(i)) && i < |o.d.syms| && Usable(o.d.syms[i], needDef)
  }

  lemma TypeBits(k: nat)
    requires k < 16
    ensures And(OK_TYPES, Pow2(k)) != 0 <==> k in {0, 1, 2, 5, 6}
  {
    MaskBit(OK_TYPES, k);
    hide And;
    var p := SmallPower(k);
    hide Pow2;
  }

  lemma BindBits(k: nat)
    requires k < 16
    ensures And(OK_BINDS, Pow2(k)) != 0 <==> k in {1, 2, 10}
  {
    MaskBit(OK_BINDS, k);
    hide And;
    var p := SmallPower(k);
    hide Pow2;
  }

  lemma SmallPower(k: nat) returns (p: nat)
    requires k < 16
    ensures p == Pow2(k)
    ensures p == [1, 2, 4, 8, 16, 32, 64, 128, 256, 512, 1024, 2048, 4096, 8192, 16384, 32768][k]
  {
    assert Pow2(3) == 8 && Pow2(6) == 64 && Pow2(9) == 512 && Pow2(12) == 4096 && Pow2(15) == 32768;
    p := Pow2(k);
  }

  /** The tests of find_sym2 on a symbol that was found. */
  method Accept(y: Sym, needDef: bool) returns (ok: bool)
    ensures ok == Usable(y, needDef)
  {
    TypeBits(Kind(y));
    BindBits(Binding(y));
    hide And, Pow2;
    var kind, binding: nat := (y.info % 16) as nat, (y.info / 16) as nat;
    if y.shndx == 0 && (needDef || kind == STT_TLS) { return false; }
    if y.value == 0 && kind != STT_TLS { return false; }
    if And(OK_TYPES, Pow2(kind)) == 0 { return false; }
    if And(OK_BINDS, Pow2(binding)) == 0 { return false; }
    return true;
  }

  /** One DSO; the System V hash is computed when the first table needs it. */
  method LookIn(o: Object, s: seq<byte>, gh: nat, h0: word) returns (y: Option<nat>, h: word)
    requires WellFormed(o) && gh == GnuHash.HashOf(s) && (h0 == 0 || h0 == SysvHash.AbiHash(s))
    ensures Gives(o, s, y) && (h == 0 || h == SysvHash.AbiHash(s))
  {
    hide GnuHash.HashOf, SysvHash.AbiHash, GnuHash.IsFirst, SysvHash.IsFirst;
    h := h0;
    match o
    case Gnu(d) => y := GnuHash.LookupFiltered(gh, d, s, gh / 64, Pow2(gh % 64));
    case Sysv(d) =>
      if h == 0 { h := SysvHash.Hash(s); }
      y := SysvHash.Lookup(s, h, d);
  }

  /** The definition comes from the first DSO, in search order, that has a usable one. */
  method FindSym(dsos: seq<Object>, s: seq<byte>, needDef: bool) returns (r: Option<(nat, nat)>)
    requires forall k :: 0 <= k < |dsos| ==> WellFormed(dsos[k])
    ensures r.Some? ==> r.value.0 < |dsos| && Defines(dsos[r.value.0], s, needDef, r.value.1)
    ensures forall k, i :: 0 <= k < (if r.Some? then r.value.0 else |dsos|) ==> !Defines(dsos[k], s, needDef, i)
  {
    hide Gives, WellFormed, Usable, GnuHash.HashOf, SysvHash.AbiHash;
    var gh := GnuHash.Hash(s);
    var h: word := 0;
    for n := 0 to |dsos|
      invariant h == 0 || h == SysvHash.AbiHash(s)
      invariant forall k, i :: 0 <= k < n ==> !Defines(dsos[k], s, needDef, i)
    {
      var o := dsos[n];
      var y;
      y, h := LookIn(o, s, gh, h);
      if y.Some? {
        GivesNamed(o, s, y.value);
        var ok := Accept(o.d.syms[y.value], needDef);
        if ok { return Some((n, y.value)); }
      }
      forall i ensures !Defines(o, s, needDef, i) {
        if Defines(o, s, needDef, i) {
          GivesOne(o, s, y, Some(i));
          assert false;
        }
      }
    }
    return None;
  }
}
