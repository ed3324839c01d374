/** Lazy relocations of the dynamic linker: do_relocs puts relocations whose symbol is not
    found yet into a table of the DSO, and redo_lazy_relocs runs that table through do_relocs
    again, compacting it in place. */
module LazyRelocs {
  import opened Common

  const W64: nat := 0x1_0000_0000_0000_0000
  const W32: nat := 0x1_0000_0000

  // x86_64 relocation types
  const REL_NONE: nat := 0
  const REL_SYMBOLIC: nat := 1
  const REL_GOT: nat := 6
  const REL_PLT: nat := 7
  const REL_RELATIVE: nat := 8

  datatype Rel = Rel(offset: nat, info: nat, addend: nat)

  function TypeOf(r: Rel): nat { r.info % 0x8000_0000 }
  function SymOf(r: Rel): nat { r.info / W32 }

  /** What a lookup of symbol number s gives (with a definition required or not): its address,
      0 for an undefined weak symbol, or nothing. */
  type Scope = (nat, bool) -> Option<nat>

  function ValueOf(r: Rel, scope: Scope): Option<nat> {
    if SymOf(r) == 0 then Some(0) else scope(SymOf(r), TypeOf(r) == REL_PLT)
  }

  predicate LazyKind(r: Rel) { TypeOf(r) == REL_PLT || TypeOf(r) == REL_GOT }

  /** The relocation has to wait. */
  predicate Waits(r: Rel, scope: Scope) { LazyKind(r) && ValueOf(r, scope).None? }

  /** The relocation is an error. */
  predicate Fails(r: Rel, scope: Scope, lazy: bool) {
    && TypeOf(r) != REL_NONE
    && if ValueOf(r, scope).None? then !(lazy && LazyKind(r))
       else TypeOf(r) !in {REL_SYMBOLIC, REL_GOT, REL_PLT, REL_RELATIVE}
  }

  /** None of the first i relocations is an error. */
  ghost predicate Fine(rs: seq<Rel>, i: nat, scope: Scope, lazy: bool) {
    forall k :: 0 <= k < i && k < |rs| ==> !Fails(rs[k], scope, lazy)
  }

  lemma FineMore(rs: seq<Rel>, i: nat, scope: Scope, lazy: bool)
    requires i < |rs|
    ensures Fine(rs, i + 1, scope, lazy) <==> Fine(rs, i, scope, lazy) && !Fails(rs[i], scope, lazy)
    ensures Fails(rs[i], scope, lazy) ==> !Fine(rs, |rs|, scope, lazy)
  {
  }

  type Memory = map<nat, nat>

  function Peek(m: Memory, a: nat): nat { if a in m then m[a] else 0 }

  /** Relocations without an explicit addend take the one stored at the place they relocate,
      except for GOT and PLT entries. */
  function Addend(m: Memory, base: nat, r: Rel, stride: nat): nat {
    if stride > 2 then r.addend else if LazyKind(r) then 0 else Peek(m, base + r.offset)
  }

  function Store(m: Memory, base: nat, r: Rel, stride: nat, scope: Scope): Memory {
    if TypeOf(r) == REL_NONE || ValueOf(r, scope).None? then m
    else
      var from := if TypeOf(r) == REL_RELATIVE then base else ValueOf(r, scope).value;
      m[base + r.offset := (from + Addend(m, base, r, stride)) % W64]
  }

  /** The relocations that wait, in order. */
  function Pending(rs: seq<Rel>, scope: Scope): (p: seq<Rel>)
    ensures |p| <= |rs|
  {
    if rs == [] then []
    else Pending(rs[..|rs| - 1], scope) + if Waits(rs[|rs| - 1], scope) then [rs[|rs| - 1]] else []
  }

  /** The effect of all others, each stored once, in order. */
  function Applied(m: Memory, base: nat, rs: seq<Rel>, stride: nat, scope: Scope): Memory {
    if rs == [] then m
    else Store(Applied(m, base, rs[..|rs| - 1], stride, scope), base, rs[|rs| - 1], stride, scope)
  }

  lemma PendingMore(rs: seq<Rel>, scope: Scope, i: nat)
    requires i < |rs|
    ensures Pending(rs[..i + 1], scope) == Pending(rs[..i], scope) + if Waits(rs[i], scope) then [rs[i]] else []
  {
    assert rs[..i + 1][..i] == rs[..i];
  }

  lemma AppliedMore(m: Memory, base: nat, rs: seq<Rel>, stride: nat, scope: Scope, i: nat)
    requires i < |rs|
    ensures Applied(m, base, rs[..i + 1], stride, scope) == Store(Applied(m, base, rs[..i], stride, scope), base, rs[i], stride, scope)
  {
    assert rs[..i + 1][..i] == rs[..i];
  }

  // ----- tables

  function Pos(stride: nat, k: nat): nat { if stride == 3 then 3 * k else 2 * k }

  /** Record k of a table of words; a record of two words has no addend. */
  ghost predicate HasRecord(w: seq<nat>, stride: nat, k: nat, r: Rel) {
    if stride == 3 then 3 * k + 3 <= |w| && r == Rel(w[3 * k], w[3 * k + 1], w[3 * k + 2])
    else 2 * k + 2 <= |w| && r == Rel(w[2 * k], w[2 * k + 1], 0)
  }

  ghost predicate IsTable(w: seq<nat>, stride: nat, rs: seq<Rel>, from: nat) {
    forall k :: from <= k < |rs| ==> HasRecord(w, stride, k, rs[k])
  }

  /** The table of waiting relocations of a DSO, and its place on the list of such DSOs. */
  class Dso {
    const base: nat
    var lazy: array?<nat>
    var lazyCnt: nat
    var lazyNext: Dso?

    constructor (base: nat)
      ensures this.base == base && lazy == null && lazyCnt == 0 && lazyNext == null
    {
      this.base, lazy, lazyCnt, lazyNext := base, null, 0, null;
    }

    /** The table holds exactly the records t. */
    ghost predicate Holds(t: seq<Rel>)
      reads this, lazy
    {
      lazyCnt == |t| && (lazy != null ==> 3 * |t| <= lazy.Length && IsTable(lazy[..], 3, t, 0)) && (lazy == null ==> t == [])
    }

    /** Append a record. */
    method Defer(r: Rel, ghost t: seq<Rel>)
      requires lazy != null && Holds(t) && 3 * (|t| + 1) <= lazy.Length
      modifies this`lazyCnt, lazy
      ensures Holds(t + [r])
      ensures forall i :: 3 * |t| + 3 <= i < lazy.Length ==> lazy[i] == old(lazy[i])
    {
      ghost var was := lazy[..];
      lazy[3 * lazyCnt] := r.offset;
      lazy[3 * lazyCnt + 1] := r.info;
      lazy[3 * lazyCnt + 2] := r.addend;
      lazyCnt := lazyCnt + 1;
      TableGrows(was, lazy[..], t, r);
    }

    /** Process the n records of rel: apply those that resolve, add the others to the table. The
        table may be rel itself: then what is added overwrites only records already read. */
    method DoRelocs(rel: array<nat>, n: nat, stride: nat, scope: Scope, m: Memory, ghost t: seq<Rel>, ghost rs: seq<Rel>)
      returns (ok: bool, r: Memory)
      requires 2 <= stride <= 3 && |rs| == n && IsTable(rel[..], stride, rs, 0)
      requires Holds(t) && (lazy == rel ==> stride == 3 && t == [])
      requires lazy != null ==> 3 * (|t| + n) <= lazy.Length
      modifies this`lazyCnt, lazy
      ensures ok <==> Fine(rs, n, scope, lazy != null)
      ensures ok ==> Holds(t + Pending(rs, scope)) && r == Applied(m, base, rs, stride, scope)
    {
      ok, r := true, m;
      var i := 0;
      hide *;
      MidwayStarts(rel, stride, scope, t, rs, m);
      while i < n
        invariant 0 <= i <= n && Midway(rel, stride, scope, t, rs, i)
        invariant r == Applied(m, base, rs[..i], stride, scope)
        invariant Fine(rs, i, scope, lazy != null)
        modifies this`lazyCnt, lazy
      {
        AppliedMore(m, base, rs, stride, scope, i);
        FineMore(rs, i, scope, lazy != null);
        ok, r := RelocateNext(rel, stride, scope, r, t, rs, i);
        if !ok {
          return;
        }
        i := i + 1;
      }
      MidwayEnds(rel, stride, scope, t, rs);
      assert rs[..n] == rs;
    }

    lemma MidwayStarts(rel: array<nat>, stride: nat, scope: Scope, t: seq<Rel>, rs: seq<Rel>, m: Memory)
      requires Holds(t) && IsTable(rel[..], stride, rs, 0)
      ensures Midway(rel, stride, scope, t, rs, 0) && Fine(rs, 0, scope, lazy != null)
      ensures m == Applied(m, base, rs[..0], stride, scope)
    {
      assert rs[..0] == [] && t + [] == t;
    }

    lemma MidwayEnds(rel: array<nat>, stride: nat, scope: Scope, t: seq<Rel>, rs: seq<Rel>)
      requires Midway(rel, stride, scope, t, rs, |rs|)
      ensures Holds(t + Pending(rs, scope))
    {
      assert rs[..|rs|] == rs;
    }

    /** The first i records are dealt with and the others are still to be read. */
    ghost predicate Midway(rel: array<nat>, stride: nat, scope: Scope, t: seq<Rel>, rs: seq<Rel>, i: nat)
      requires i <= |rs|
      reads this, lazy, rel
    {
      Holds(t + Pending(rs[..i], scope)) && IsTable(rel[..], stride, rs, i)
    }

    method RelocateNext(rel: array<nat>, stride: nat, scope: Scope, m: Memory, ghost t: seq<Rel>, ghost rs: seq<Rel>, i: nat)
      returns (ok: bool, r: Memory)
      requires 2 <= stride <= 3 && i < |rs| && Midway(rel, stride, scope, t, rs, i)
      requires (lazy == rel ==> stride == 3 && t == []) && (lazy != null ==> 3 * (|t| + |rs|) <= lazy.Length)
      modifies this`lazyCnt, lazy
      ensures ok <==> !Fails(rs[i], scope, lazy != null)
      ensures ok ==> Midway(rel, stride, scope, t, rs, i + 1) && r == Store(m, base, rs[i], stride, scope)
    {
      hide Store, Waits, Fails, Holds, Pos, HasRecord;
      PendingMore(rs, scope, i);
      assert HasRecord(rel[..], stride, i, rs[i]);
      var x := ReadRecord(rel, stride, i, rs[i]);
      var skip;
      ok, skip, r := Relocate(x, stride, scope, base, m, lazy != null);
      hide Pending;
      if ok && skip {
        ghost var done := t + Pending(rs[..i], scope);
        assert done + [x] == t + Pending(rs[..i + 1], scope);
        ghost var was := rel[..];
        Defer(x, done);
        ReadOn(was, rel[..], stride, rs, i, |done|);
      } else if ok {
        assert t + Pending(rs[..i + 1], scope) == t + Pending(rs[..i], scope);
        ReadOn(rel[..], rel[..], stride, rs, i, 0);
      }
    }

    /** The three tables of a DSO (in reloc_all): the table made by PrepareLazy has room for
        everything that may have to wait. Sizes are in bytes. */
    method RelocateAll(jmprel: array<nat>, pltrelsz: nat, pltStride: nat, rel: array<nat>, relsz: nat, rela: array<nat>, relasz: nat,
                       scope: Scope, m: Memory, ghost ps: seq<Rel>, ghost rs: seq<Rel>, ghost xs: seq<Rel>)
      returns (ok: bool, r: Memory)
      requires 2 <= pltStride <= 3 && IsTable(jmprel[..], pltStride, ps, 0)
      requires pltrelsz == (if pltStride == 3 then 24 * |ps| else 16 * |ps|)
      requires relsz == 16 * |rs| && IsTable(rel[..], 2, rs, 0)
      requires relasz == 24 * |xs| && IsTable(rela[..], 3, xs, 0)
      requires Holds([]) && lazy !in {jmprel, rel, rela}
      requires lazy != null ==> lazy.Length == 3 * LazyRoom(relsz, relasz, pltrelsz)
      modifies this`lazyCnt, lazy
      ensures var lazy := lazy != null;
              ok <==> Fine(ps, |ps|, scope, lazy) && Fine(rs, |rs|, scope, lazy) && Fine(xs, |xs|, scope, lazy)
      ensures ok ==> Holds(Pending(ps, scope) + Pending(rs, scope) + Pending(xs, scope))
      ensures ok ==> r == Applied(Applied(Applied(m, base, ps, pltStride, scope), base, rs, 2, scope), base, xs, 3, scope)
    {
      RoomEnough(relsz, relasz, pltrelsz, pltStride);
      assert RecordCount(pltrelsz, pltStride) == |ps| && RecordCount(relsz, 2) == |rs| && RecordCount(relasz, 3) == |xs|;
      ghost var p, q := Pending(ps, scope), Pending(rs, scope);
      hide Pending, Applied, Holds, IsTable, Fine, LazyRoom, RecordCount;
      assert [] + p == p;
      ok, r := DoRelocs(jmprel, RecordCount(pltrelsz, pltStride), pltStride, scope, m, [], ps);
      if !ok { return; }
      ok, r := DoRelocs(rel, RecordCount(relsz, 2), 2, scope, r, p, rs);
      if !ok { return; }
      ok, r := DoRelocs(rela, RecordCount(relasz, 3), 3, scope, r, p + q, xs);
    }

    /** Run the table through do_relocs again, in place. */
    method Redo(scope: Scope, m: Memory, ghost t: seq<Rel>) returns (r: Memory)
      requires lazy != null && Holds(t) && AllLazy(t)
      modifies this`lazyCnt, lazy
      ensures Holds(Pending(t, scope)) && AllLazy(Pending(t, scope))
      ensures r == Applied(m, base, t, 3, scope)
    {
      var n := lazyCnt;
      lazyCnt := 0;
      NeverFails(t, scope);
      assert [] + Pending(t, scope) == Pending(t, scope);
      hide Pending, Applied, Fine, Waits;
      var ok;
      ok, r := DoRelocs(lazy, n, 3, scope, m, [], t);
    }
  }

  function RecordCount(bytes: nat, stride: nat): nat { if stride == 3 then bytes / 24 else bytes / 16 }

  /** The number of records allocated in prepare_lazy. */
  function LazyRoom(relsz: nat, relasz: nat, pltrelsz: nat): nat { relsz / 2 + relasz / 3 + pltrelsz / 2 + 1 }

  lemma RoomEnough(relsz: nat, relasz: nat, pltrelsz: nat, stride: nat)
    ensures RecordCount(pltrelsz, stride) + RecordCount(relsz, 2) + RecordCount(relasz, 3) <= LazyRoom(relsz, relasz, pltrelsz)
  {
  }

  // ----- redo_lazy_relocs

  ghost predicate AllLazy(t: seq<Rel>) { forall k :: 0 <= k < |t| ==> LazyKind(t[k]) }

  /** What waits is of a lazy kind, so a table never holds anything that could fail. */
  lemma {:induction false} PendingWaits(t: seq<Rel>, scope: Scope)
    ensures forall k :: 0 <= k < |Pending(t, scope)| ==> Waits(Pending(t, scope)[k], scope)
  {
    if t != [] { PendingWaits(t[..|t| - 1], scope); }
  }

  lemma NeverFails(t: seq<Rel>, scope: Scope)
    requires AllLazy(t)
    ensures Fine(t, |t|, scope, true)
    ensures AllLazy(Pending(t, scope))
  {
    PendingWaits(t, scope);
    hide Pending;
  }

  /** Exactly the waiting records are kept: none is lost, none is added. */
  lemma {:induction false} PendingExact(t: seq<Rel>, scope: Scope, r: Rel)
    ensures multiset(Pending(t, scope))[r] == if Waits(r, scope) then multiset(t)[r] else 0
  {
    if t != [] {
      var n := |t| - 1;
      PendingExact(t[..n], scope, r);
      assert t == t[..n] + [t[n]];
    }
  }

  method ReadRecord(rel: array<nat>, stride: nat, i: nat, ghost r: Rel) returns (x: Rel)
    requires 2 <= stride <= 3 && HasRecord(rel[..], stride, i, r)
    ensures x == r
  {
    var j := Pos(stride, i);
    x := Rel(rel[j], rel[j + 1], if stride > 2 then rel[j + 2] else 0);
  }

  // ----- the words written

  /** What the symbol of r is worth: 0 for symbol number 0, else what its lookup gives, where a PLT
      record (type 7) wants a definition. */
  ghost function Worth(r: Rel, scope: Scope): Option<nat> {
    if r.info / 0x1_0000_0000 == 0 then Some(0)
    else scope(r.info / 0x1_0000_0000, r.info % 0x8000_0000 == 7)
  }

  /** The record's addend: in the record, or where it has none, 0 for GLOB_DAT (6) and JUMP_SLOT (7)
      and else the word at the place. */
  ghost function AddendOf(m: Memory, base: nat, r: Rel, stride: nat): nat {
    if stride > 2 then r.addend
    else if r.info % 0x8000_0000 == 6 || r.info % 0x8000_0000 == 7 then 0
    else Peek(m, base + r.offset)
  }

  /** One record, by the psABI: NONE (0) does nothing; without a value GLOB_DAT and JUMP_SLOT wait where
      there is a table and all else is an error; with one, 64 (1), GLOB_DAT (6) and JUMP_SLOT (7) store
      symbol plus addend, RELATIVE (8) stores base plus addend. One word changes, no other. */
  ghost predicate ByType(r: Rel, stride: nat, scope: Scope, base: nat, m: Memory, lazy: bool, ok: bool, skip: bool, m': Memory) {
    var t, v, at, a := r.info % 0x8000_0000, Worth(r, scope), base + r.offset, AddendOf(m, base, r, stride);
    if t == 0 then ok && !skip && m' == m
    else if v.None? then (if lazy && (t == 6 || t == 7) then ok && skip && m' == m else !ok)
    else if t == 1 || t == 6 || t == 7 then ok && !skip && m' == m[at := (v.value + a) % 0x1_0000_0000_0000_0000]
    else if t == 8 then ok && !skip && m' == m[at := (base + a) % 0x1_0000_0000_0000_0000]
    else !ok
  }

  /** r stores a word at address x. */
  ghost predicate Hits(r: Rel, base: nat, scope: Scope, x: nat) {
    base + r.offset == x && r.info % 0x8000_0000 in {1, 6, 7, 8} && Worth(r, scope).Some?
  }

  /** Record k is the last one that stores at x. */
  ghost predicate LastAt(rs: seq<Rel>, base: nat, scope: Scope, x: nat, k: nat) {
    k < |rs| && Hits(rs[k], base, scope, x) && forall j :: k < j < |rs| ==> !Hits(rs[j], base, scope, x)
  }

  /** The word that a record which stores leaves, when it finds memory m. */
  ghost function Word(m: Memory, base: nat, r: Rel, stride: nat, scope: Scope): nat
    requires Worth(r, scope).Some?
  {
    ((if r.info % 0x8000_0000 == 8 then base else Worth(r, scope).value) + AddendOf(m, base, r, stride)) % 0x1_0000_0000_0000_0000
  }

  lemma StoreWord(m: Memory, base: nat, r: Rel, stride: nat, scope: Scope, lazy: bool, x: nat)
    requires !Fails(r, scope, lazy)
    ensures Hits(r, base, scope, x) ==>
              x in Store(m, base, r, stride, scope) && Store(m, base, r, stride, scope)[x] == Word(m, base, r, stride, scope)
    ensures !Hits(r, base, scope, x) ==> Peek(Store(m, base, r, stride, scope), x) == Peek(m, x)
  {
  }

  /** No record of rs stores at x. */
  ghost predicate Misses(rs: seq<Rel>, base: nat, scope: Scope, x: nat) {
    forall k :: 0 <= k < |rs| ==> !Hits(rs[k], base, scope, x)
  }

  /** After any table without errors each word is the one that the last record for its address leaves, */
  lemma {:induction false} LastRecordDecides(m: Memory, base: nat, rs: seq<Rel>, stride: nat, scope: Scope, lazy: bool, x: nat, k: nat)
    requires Fine(rs, |rs|, scope, lazy) && LastAt(rs, base, scope, x, k)
    ensures Peek(Applied(m, base, rs, stride, scope), x) == Word(Applied(m, base, rs[..k], stride, scope), base, rs[k], stride, scope)
  {
    var n := |rs| - 1;
    var init := rs[..n];
    assert !Fails(rs[n], scope, lazy) && Fine(init, n, scope, lazy);
    StoreWord(Applied(m, base, init, stride, scope), base, rs[n], stride, scope, lazy, x);
    if k < n {
      assert init[..k] == rs[..k] && LastAt(init, base, scope, x, k);
      hide Store, Hits, Word, Fails, Fine;
      LastRecordDecides(m, base, init, stride, scope, lazy, x, k);
    }
  }

  /** and unchanged where no record stores. */
  lemma {:induction false} OtherWordsStay(m: Memory, base: nat, rs: seq<Rel>, stride: nat, scope: Scope, lazy: bool, x: nat)
    requires Fine(rs, |rs|, scope, lazy) && Misses(rs, base, scope, x)
    ensures Peek(Applied(m, base, rs, stride, scope), x) == Peek(m, x)
  {
    if rs != [] {
      var n := |rs| - 1;
      var init := rs[..n];
      assert !Fails(rs[n], scope, lazy) && Fine(init, n, scope, lazy) && Misses(init, base, scope, x);
      OtherWordsStay(m, base, init, stride, scope, lazy, x);
      StoreWord(Applied(m, base, init, stride, scope), base, rs[n], stride, scope, lazy, x);
    }
  }

  /** One relocation: skip tells that it has to wait. */
  method Relocate(x: Rel, stride: nat, scope: Scope, base: nat, m: Memory, lazy: bool) returns (ok: bool, skip: bool, r: Memory)
    ensures ByType(x, stride, scope, base, m, lazy, ok, skip, r)
    ensures ok <==> !Fails(x, scope, lazy)
    ensures ok ==> (skip <==> Waits(x, scope)) && (skip ==> lazy) && r == Store(m, base, x, stride, scope)
  {
    ok, skip, r := true, false, m;
    if TypeOf(x) == REL_NONE {
      return;
    }
    var addend := if stride > 2 then x.addend else if LazyKind(x) then 0 else Peek(m, base + x.offset);
    var value: Option<nat> := Some(0);
    if SymOf(x) != 0 {
      value := scope(SymOf(x), TypeOf(x) == REL_PLT);
      if value.None? {
        if lazy && LazyKind(x) {
          skip := true;
        } else {
          ok := false;
        }
        return;
      }
    }
    if TypeOf(x) == REL_SYMBOLIC || LazyKind(x) {
      r := m[base + x.offset := (value.value + addend) % W64];
    } else if TypeOf(x) == REL_RELATIVE {
      r := m[base + x.offset := (base + addend) % W64];
    } else {
      ok := false;
    }
  }

  /** Overwriting the first c <= i records leaves the unread ones. */
  lemma ReadOn(was: seq<nat>, now: seq<nat>, stride: nat, rs: seq<Rel>, i: nat, c: nat)
    requires IsTable(was, stride, rs, i) && |now| == |was| && 2 <= stride <= 3
    requires now == was || (stride == 3 && c <= i && forall k :: 3 * c + 3 <= k < |was| ==> now[k] == was[k])
    ensures IsTable(now, stride, rs, i + 1)
  {
    forall k | i + 1 <= k < |rs| ensures HasRecord(now, stride, k, rs[k]) {
      assert HasRecord(was, stride, k, rs[k]);
    }
  }

  lemma TableGrows(was: seq<nat>, now: seq<nat>, t: seq<Rel>, r: Rel)
    requires IsTable(was, 3, t, 0) && |now| == |was| >= 3 * |t| + 3
    requires forall i :: 0 <= i < 3 * |t| ==> now[i] == was[i]
    requires HasRecord(now, 3, |t|, r)
    ensures IsTable(now, 3, t + [r], 0)
  {
    forall k | 0 <= k < |t + [r]| ensures HasRecord(now, 3, k, (t + [r])[k]) {
      if k < |t| { assert HasRecord(was, 3, k, t[k]); }
    }
  }

  // ----- the list of DSOs with lazy relocations

  ghost predicate Linked(l: seq<Dso>, k: nat)
    requires k < |l|
    reads l[k]
  {
    l[k].lazyNext == if k + 1 < |l| then l[k + 1] else null
  }

  ghost predicate Chain(h: Dso?, l: seq<Dso>)
    reads l
  {
    h == (if |l| == 0 then null else l[0]) && forall k :: 0 <= k < |l| ==> Linked(l, k)
  }

  /** d has its records t in the table a. */
  ghost predicate Waiting(d: Dso, t: seq<Rel>, a: array<nat>)
    reads d, a
  {
    d.lazy == a && d.lazyCnt == |t| && 3 * |t| <= a.Length && IsTable(a[..], 3, t, 0) && AllLazy(t)
  }

  /** After its turn: the records that still wait, or no table and no place on the list. */
  ghost predicate Redone(d: Dso, t: seq<Rel>, scope: Scope, a: array<nat>)
    reads d, a
  {
    if Pending(t, scope) != [] then Waiting(d, Pending(t, scope), a)
    else d.lazy == null && d.lazyCnt == 0 && d.lazyNext == null
  }

  /** The DSOs with records left, last first. */
  ghost function Kept(l: seq<Dso>, ts: seq<seq<Rel>>, scopeOf: Dso -> Scope): seq<Dso>
    requires |ts| == |l|
  {
    if l == [] then []
    else
      var n := |l| - 1;
      (if Pending(ts[n], scopeOf(l[n])) != [] then [l[n]] else []) + Kept(l[..n], ts[..n], scopeOf)
  }

  /** The tables applied one after the other. */
  ghost function AppliedAll(m: Memory, l: seq<Dso>, ts: seq<seq<Rel>>, scopeOf: Dso -> Scope): Memory
    requires |ts| == |l|
  {
    if l == [] then m
    else
      var n := |l| - 1;
      Applied(AppliedAll(m, l[..n], ts[..n], scopeOf), l[n].base, ts[n], 3, scopeOf(l[n]))
  }

  /** Record j of DSO k is the last of all the tables that stores at x. */
  ghost predicate LastOfAll(l: seq<Dso>, ts: seq<seq<Rel>>, scopeOf: Dso -> Scope, x: nat, k: nat, j: nat)
    requires |ts| == |l|
  {
    && k < |l| && LastAt(ts[k], l[k].base, scopeOf(l[k]), x, j)
    && forall i :: k < i < |l| ==> Misses(ts[i], l[i].base, scopeOf(l[i]), x)
  }

  ghost predicate AllMiss(l: seq<Dso>, ts: seq<seq<Rel>>, scopeOf: Dso -> Scope, x: nat)
    requires |ts| == |l|
  {
    forall i :: 0 <= i < |l| ==> Misses(ts[i], l[i].base, scopeOf(l[i]), x)
  }

  ghost predicate AllLazyTables(ts: seq<seq<Rel>>) { forall i :: 0 <= i < |ts| ==> AllLazy(ts[i]) }

  /** After the tables of all DSOs each word is symbol plus addend of the last record for its address, */
  lemma {:induction false} LastTableDecides(m: Memory, l: seq<Dso>, ts: seq<seq<Rel>>, scopeOf: Dso -> Scope, x: nat, k: nat, j: nat)
    requires |ts| == |l| && AllLazyTables(ts) && LastOfAll(l, ts, scopeOf, x, k, j)
    ensures Worth(ts[k][j], scopeOf(l[k])).Some?
    ensures Peek(AppliedAll(m, l, ts, scopeOf), x)
            == (Worth(ts[k][j], scopeOf(l[k])).value + ts[k][j].addend) % 0x1_0000_0000_0000_0000
    decreases |l|
  {
    hide Misses, LastAt, Applied, AllLazy, Fine, Worth, Peek;
    var n := |l| - 1;
    var before := AppliedAll(m, l[..n], ts[..n], scopeOf);
    if k == n {
      LastOfTable(before, l[n].base, ts[n], scopeOf(l[n]), x, j);
    } else {
      NeverFails(ts[n], scopeOf(l[n]));
      OtherWordsStay(before, l[n].base, ts[n], 3, scopeOf(l[n]), true, x);
      LastTableDecides(m, l[..n], ts[..n], scopeOf, x, k, j);
    }
  }

  lemma LastOfTable(m: Memory, base: nat, t: seq<Rel>, scope: Scope, x: nat, j: nat)
    requires AllLazy(t) && LastAt(t, base, scope, x, j)
    ensures Worth(t[j], scope).Some?
    ensures Peek(Applied(m, base, t, 3, scope), x) == (Worth(t[j], scope).value + t[j].addend) % 0x1_0000_0000_0000_0000
  {
    LazyNotRelative(t, j);
    NeverFails(t, scope);
    hide Applied, AllLazy, Fine, Peek;
    LastRecordDecides(m, base, t, 3, scope, true, x, j);
  }

  lemma LazyNotRelative(t: seq<Rel>, j: nat)
    requires AllLazy(t) && j < |t|
    ensures t[j].info % 0x8000_0000 != 8
  {
  }

  /** and unchanged where none stores. */
  lemma {:induction false} NoTableStores(m: Memory, l: seq<Dso>, ts: seq<seq<Rel>>, scopeOf: Dso -> Scope, x: nat)
    requires |ts| == |l| && AllLazyTables(ts) && AllMiss(l, ts, scopeOf, x)
    ensures Peek(AppliedAll(m, l, ts, scopeOf), x) == Peek(m, x)
    decreases |l|
  {
    if l != [] {
      var n := |l| - 1;
      NeverFails(ts[n], scopeOf(l[n]));
      OtherWordsStay(AppliedAll(m, l[..n], ts[..n], scopeOf), l[n].base, ts[n], 3, scopeOf(l[n]), true, x);
      hide Misses, Applied, AllLazy, Fine;
      NoTableStores(m, l[..n], ts[..n], scopeOf, x);
    }
  }

  /** r is m with every record that can be resolved applied: the last one for an address decides. */
  ghost predicate AllResolved(m: Memory, r: Memory, l: seq<Dso>, ts: seq<seq<Rel>>, scopeOf: Dso -> Scope)
    requires |ts| == |l|
  {
    && (forall x: nat, k: nat, j: nat :: LastOfAll(l, ts, scopeOf, x, k, j) ==>
          && Worth(ts[k][j], scopeOf(l[k])).Some?
          && Peek(r, x) == (Worth(ts[k][j], scopeOf(l[k])).value + ts[k][j].addend) % 0x1_0000_0000_0000_0000)
    && forall x: nat :: AllMiss(l, ts, scopeOf, x) ==> Peek(r, x) == Peek(m, x)
  }

  lemma AppliedResolves(m: Memory, l: seq<Dso>, ts: seq<seq<Rel>>, scopeOf: Dso -> Scope)
    requires |ts| == |l| && AllLazyTables(ts)
    ensures AllResolved(m, AppliedAll(m, l, ts, scopeOf), l, ts, scopeOf)
  {
    hide LastOfAll, AllMiss, AllLazyTables, Worth, AppliedAll, Peek;
    var r := AppliedAll(m, l, ts, scopeOf);
    forall x: nat, k: nat, j: nat | LastOfAll(l, ts, scopeOf, x, k, j)
      ensures k < |l| && j < |ts[k]| && Worth(ts[k][j], scopeOf(l[k])).Some?
      ensures Peek(r, x) == (Worth(ts[k][j], scopeOf(l[k])).value + ts[k][j].addend) % 0x1_0000_0000_0000_0000
    {
      LastInside(l, ts, scopeOf, x, k, j);
      LastTableDecides(m, l, ts, scopeOf, x, k, j);
    }
    forall x: nat | AllMiss(l, ts, scopeOf, x) ensures Peek(r, x) == Peek(m, x) { NoTableStores(m, l, ts, scopeOf, x); }
  }

  lemma LastInside(l: seq<Dso>, ts: seq<seq<Rel>>, scopeOf: Dso -> Scope, x: nat, k: nat, j: nat)
    requires |ts| == |l| && LastOfAll(l, ts, scopeOf, x, k, j)
    ensures k < |l| && j < |ts[k]|
  {
  }

  class Linker {
    var lazyHead: Dso?

    /** prepare_lazy: a table for d, which goes to the front of the list; nothing for a DSO that asks
        for immediate binding. */
    method PrepareLazy(d: Dso, now: bool, relsz: nat, relasz: nat, pltrelsz: nat, ghost l: seq<Dso>)
      requires d.lazy == null && d.lazyCnt == 0 && d !in l && Chain(lazyHead, l)
      modifies this, d
      ensures d.Holds([]) && Chain(lazyHead, (if now then [] else [d]) + l)
      ensures if now then d.lazy == null && lazyHead == old(lazyHead)
              else d.lazy != null && fresh(d.lazy) && d.lazy.Length == 3 * (relsz / 2 + relasz / 3 + pltrelsz / 2 + 1)
    {
      if now {
        assert [] + l == l;
        return;
      }
      d.lazy := new nat[3 * LazyRoom(relsz, relasz, pltrelsz)](i => 0);
      d.lazyNext := lazyHead;
      lazyHead := d;
      ghost var all := [d] + l;
      forall k | 0 <= k < |all| ensures Linked(all, k) {
        if k > 0 {
          assert l[k - 1] in l && Linked(l, k - 1);
        }
      }
    }

    /** One DSO: redo its table, then put it back on the list or free the table. */
    method RedoOne(d: Dso, scope: Scope, m: Memory, ghost t: seq<Rel>, ghost a: array<nat>, ghost kept: seq<Dso>)
      returns (r: Memory)
      requires Waiting(d, t, a) && Chain(lazyHead, kept) && d !in kept
      modifies this, d, a
      ensures r == Applied(m, d.base, t, 3, scope) && Redone(d, t, scope, a)
      ensures Chain(lazyHead, (if Pending(t, scope) != [] then [d] else []) + kept)
    {
      hide Pending, Applied, AllLazy;
      r := d.Redo(scope, m, t);
      if d.lazyCnt != 0 {
        d.lazyNext := lazyHead;
        lazyHead := d;
        ghost var all := [d] + kept;
        forall k | 0 <= k < |all| ensures Linked(all, k) {
          if k > 0 {
            assert kept[k - 1] in kept && Linked(kept, k - 1);
          }
        }
      } else {
        d.lazy := null;
        d.lazyNext := null;
        assert [] + kept == kept;
      }
    }

    method Turn(scopeOf: Dso -> Scope, m: Memory, p: Dso, ghost l: seq<Dso>, ghost ts: seq<seq<Rel>>,
                ghost tables: seq<array<nat>>, ghost k: nat, ghost kept: seq<Dso>)
      returns (r: Memory)
      requires |ts| == |l| == |tables| && k < |l| && p == l[k] && Distinct(l) && DistinctTables(tables)
      requires Todo(l, ts, tables, k) && Done(l, ts, tables, scopeOf, k) && Chain(lazyHead, kept) && p !in kept
      modifies this, p, tables[k]
      ensures r == Applied(m, p.base, ts[k], 3, scopeOf(p))
      ensures Chain(lazyHead, (if Pending(ts[k], scopeOf(p)) != [] then [p] else []) + kept)
      ensures Todo(l, ts, tables, k + 1) && Done(l, ts, tables, scopeOf, k + 1)
    {
      TodoAtFacts(l, ts, tables, k);
      hide TodoAt, DoneAt, Waiting, Redone, Linked, Chain, Pending, Applied;
      r := RedoOne(p, scopeOf(p), m, ts[k], tables[k], kept);
      DoneAtNow(l, ts, tables, scopeOf, k);
      forall i | k + 1 <= i < |l| ensures TodoAt(l, ts, tables, i) {
        assert l[i] != l[k] && tables[i] != tables[k] && old(TodoAt(l, ts, tables, i));
      }
      forall i | 0 <= i < k ensures DoneAt(l, ts, tables, scopeOf, i) {
        assert l[i] != l[k] && tables[i] != tables[k] && old(DoneAt(l, ts, tables, scopeOf, i));
      }
    }

    /** The whole list: every table is compacted to what still waits, everything else is applied
        in order, and the DSOs with something left make up the new list. */
    method RedoLazyRelocs(scopeOf: Dso -> Scope, m: Memory,
                          ghost l: seq<Dso>, ghost ts: seq<seq<Rel>>, ghost tables: seq<array<nat>>) returns (r: Memory)
      requires |ts| == |l| == |tables| && Chain(lazyHead, l) && Distinct(l) && DistinctTables(tables)
      requires forall k :: 0 <= k < |l| ==> Waiting(l[k], ts[k], tables[k])
      modifies this, l, tables
      ensures r == AppliedAll(m, l, ts, scopeOf) && AllResolved(m, r, l, ts, scopeOf)
      ensures Chain(lazyHead, Kept(l, ts, scopeOf))
      ensures forall k :: 0 <= k < |l| ==> Redone(l[k], ts[k], scopeOf(l[k]), tables[k])
    {
      var p := lazyHead;
      lazyHead := null;
      r := m;
      ghost var k := 0;
      assert l[..0] == [] && ts[..0] == [];
      TodoStarts(l, ts, tables, scopeOf);
      assert AllLazyTables(ts) by { assert forall i :: 0 <= i < |l| ==> Waiting(l[i], ts[i], tables[i]); }
      AppliedResolves(m, l, ts, scopeOf);
      hide AllLazy, Pending, Applied, Waiting, Redone, Todo, TodoAt, DoneAt, HasRecord, AllResolved, AllLazyTables;
      while p != null
        invariant 0 <= k <= |l| && p == if k < |l| then l[k] else null
        invariant Todo(l, ts, tables, k) && Done(l, ts, tables, scopeOf, k)
        invariant r == AppliedAll(m, l[..k], ts[..k], scopeOf)
        invariant Chain(lazyHead, Kept(l[..k], ts[..k], scopeOf))
        decreases |l| - k
      {
        NextOf(l, ts, tables, k);
        KeptMore(m, l, ts, scopeOf, k);
        hide Done, Kept, AppliedAll, Chain, Linked, Distinct, DistinctTables;
        var next := p.lazyNext;
        r := Turn(scopeOf, r, p, l, ts, tables, k, Kept(l[..k], ts[..k], scopeOf));
        p := next;
        k := k + 1;
      }
      assert l[..k] == l && ts[..k] == ts;
      DoneAll(l, ts, tables, scopeOf);
    }
  }

  ghost predicate TodoAt(l: seq<Dso>, ts: seq<seq<Rel>>, tables: seq<array<nat>>, i: nat)
    requires i < |ts| == |l| == |tables|
    reads l[i], tables[i]
  {
    Waiting(l[i], ts[i], tables[i]) && Linked(l, i)
  }

  ghost predicate DoneAt(l: seq<Dso>, ts: seq<seq<Rel>>, tables: seq<array<nat>>, scopeOf: Dso -> Scope, i: nat)
    requires i < |ts| == |l| == |tables|
    reads l[i], tables[i]
  {
    Redone(l[i], ts[i], scopeOf(l[i]), tables[i])
  }

  ghost predicate Todo(l: seq<Dso>, ts: seq<seq<Rel>>, tables: seq<array<nat>>, k: nat)
    requires |ts| == |l| == |tables|
    reads l, tables
  {
    forall i :: k <= i < |l| ==> TodoAt(l, ts, tables, i)
  }

  ghost predicate Done(l: seq<Dso>, ts: seq<seq<Rel>>, tables: seq<array<nat>>, scopeOf: Dso -> Scope, k: nat)
    requires |ts| == |l| == |tables|
    reads l, tables
  {
    forall i :: 0 <= i < k && i < |l| ==> DoneAt(l, ts, tables, scopeOf, i)
  }

  lemma TodoStarts(l: seq<Dso>, ts: seq<seq<Rel>>, tables: seq<array<nat>>, scopeOf: Dso -> Scope)
    requires |ts| == |l| == |tables| && forall k :: 0 <= k < |l| ==> Linked(l, k)
    requires forall k :: 0 <= k < |l| ==> Waiting(l[k], ts[k], tables[k])
    ensures Todo(l, ts, tables, 0) && Done(l, ts, tables, scopeOf, 0)
  {
    hide Linked, Waiting;
  }

  lemma TodoAtFacts(l: seq<Dso>, ts: seq<seq<Rel>>, tables: seq<array<nat>>, k: nat)
    requires |ts| == |l| == |tables| && k < |l| && Todo(l, ts, tables, k)
    ensures Waiting(l[k], ts[k], tables[k])
  {
    assert TodoAt(l, ts, tables, k);
  }

  lemma DoneAtNow(l: seq<Dso>, ts: seq<seq<Rel>>, tables: seq<array<nat>>, scopeOf: Dso -> Scope, k: nat)
    requires |ts| == |l| == |tables| && k < |l| && Redone(l[k], ts[k], scopeOf(l[k]), tables[k])
    ensures DoneAt(l, ts, tables, scopeOf, k)
  {
  }

  lemma DoneAll(l: seq<Dso>, ts: seq<seq<Rel>>, tables: seq<array<nat>>, scopeOf: Dso -> Scope)
    requires |ts| == |l| == |tables| && Done(l, ts, tables, scopeOf, |l|)
    ensures forall k :: 0 <= k < |l| ==> Redone(l[k], ts[k], scopeOf(l[k]), tables[k])
  {
    forall k | 0 <= k < |l| ensures Redone(l[k], ts[k], scopeOf(l[k]), tables[k]) { assert DoneAt(l, ts, tables, scopeOf, k); }
  }

  lemma NextOf(l: seq<Dso>, ts: seq<seq<Rel>>, tables: seq<array<nat>>, k: nat)
    requires |ts| == |l| == |tables| && k < |l| && Todo(l, ts, tables, k)
    ensures l[k].lazyNext == if k + 1 < |l| then l[k + 1] else null
  {
    assert TodoAt(l, ts, tables, k);
  }

  ghost predicate Distinct(l: seq<Dso>) { forall i, k :: 0 <= i < k < |l| ==> l[i] != l[k] }

  ghost predicate DistinctTables(a: seq<array<nat>>) { forall i, k :: 0 <= i < k < |a| ==> a[i] != a[k] }

  lemma KeptMore(m: Memory, l: seq<Dso>, ts: seq<seq<Rel>>, scopeOf: Dso -> Scope, k: nat)
    requires |ts| == |l| && k < |l| && Distinct(l)
    ensures Kept(l[..k + 1], ts[..k + 1], scopeOf)
            == (if Pending(ts[k], scopeOf(l[k])) != [] then [l[k]] else []) + Kept(l[..k], ts[..k], scopeOf)
    ensures AppliedAll(m, l[..k + 1], ts[..k + 1], scopeOf)
            == Applied(AppliedAll(m, l[..k], ts[..k], scopeOf), l[k].base, ts[k], 3, scopeOf(l[k]))
    ensures l[k] !in Kept(l[..k], ts[..k], scopeOf)
  {
    assert l[..k + 1][..k] == l[..k] && ts[..k + 1][..k] == ts[..k];
    KeptFrom(l[..k], ts[..k], scopeOf);
  }

  lemma {:induction false} KeptFrom(l: seq<Dso>, ts: seq<seq<Rel>>, scopeOf: Dso -> Scope)
    requires |ts| == |l|
    ensures forall d :: d in Kept(l, ts, scopeOf) ==> d in l
  {
    if l != [] { KeptFrom(l[..|l| - 1], ts[..|l| - 1], scopeOf); }
  }
}
