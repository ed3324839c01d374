/** TLS for libraries loaded at run time: the reservation that load_library makes inside the
    allocation of the new DSO, and install_new_tls, which builds the enlarged DTVs and the TLS
    blocks of every existing thread inside those reservations. */
module TlsInstall {
  import opened Bits
  import opened TlsLayout

  /** A DSO with TLS that was loaded at run time. `before` is tls_cnt before it was counted,
      `threads` the number of threads at that time; the name is stored at base + nameOffset. */
  datatype Load = Load(base: nat, structSize: nat, nameOffset: nat, nameLen: nat, threads: nat, before: nat,
                       image: nat, len: nat, size: nat, align: nat)

  function Stride(l: Load): nat { l.size + l.align }

  /** per_th */
  function PerThread(l: Load): nat { Stride(l) + 8 * (l.before + 3) }

  function AllocSize(l: Load): nat { l.structSize + l.nameLen + 1 + l.threads * PerThread(l) }

  function Limit(l: Load): nat { l.base + AllocSize(l) }

  function NameEnd(l: Load): nat { l.base + l.nameOffset + l.nameLen + 1 }

  /** `-sizeof(size_t) & (name + strlen(name) + sizeof(size_t))`. */
  function NewDtv(l: Load): nat { And(Wrap(NameEnd(l) + 7), W64 - 8) }

  /** The number of modules counts this one, so a DTV has before + 2 words. */
  function NewTls(l: Load): nat { NewDtv(l) + 8 * (l.threads * (l.before + 2)) }

  ghost predicate Good(l: Load) {
    && l.nameOffset <= l.structSize && 1 <= l.threads && IsPow2(l.align) && l.align < W64
    && l.len <= l.size && Limit(l) <= W64
  }

  // ----- the reservation is large enough

  lemma DtvAligned(l: Load)
    requires NameEnd(l) + 7 < W64
    ensures NameEnd(l) <= NewDtv(l) <= NameEnd(l) + 7 && Mod(NewDtv(l), 8) == 0
  {
    var x := NameEnd(l) + 7;
    assert Pow2(3) == 8;
    W64IsPow2();
    hide And, Pow2, Wrap, NameEnd;
    Unwrapped(x);
    ClearLowIsFloor(x, 3, 64);
  }

  lemma Distribute(n: nat, a: nat, b: nat)
    ensures n * (a + b) == n * a + n * b
  {
  }

  /** The DTV rows and the blocks of n threads fit, after the name and before the end. */
  lemma Fits(l: Load, n: nat)
    requires Good(l) && n <= l.threads
    ensures NameEnd(l) <= NewDtv(l)
    ensures NewTls(l) + n * Stride(l) <= Limit(l)
  {
    hide And, Wrap, Pow2, IsPow2, Stride, PerThread, NewDtv;
    var t := l.threads;
    MulLe(Stride(l), n, t);
    PerThreadParts(l);
    assert Limit(l) >= NameEnd(l) + t * PerThread(l);
    hide Limit, NameEnd;
    DtvAligned(l);
  }

  /** Blocks, rows, and one more word per thread. */
  lemma PerThreadParts(l: Load)
    ensures l.threads * PerThread(l) == l.threads * Stride(l) + 8 * (l.threads * (l.before + 2)) + l.threads * 8
  {
    hide Stride;
    var t := l.threads;
    assert PerThread(l) == Stride(l) + 8 * (l.before + 2) + 8;
    hide PerThread;
    Distribute(t, Stride(l) + 8 * (l.before + 2), 8);
    Distribute(t, Stride(l), 8 * (l.before + 2));
    assert t * (8 * (l.before + 2)) == 8 * (t * (l.before + 2));
  }

  const SSIZE_MAX: nat := 0x7fff_ffff_ffff_ffff
  const SIZE_MAX: nat := 0xffff_ffff_ffff_ffff

  lemma DivLess(n: nat, limit: nat, p: nat)
    requires p >= 1
    ensures n > limit / p <==> n * p > limit
  {
    var q, r := DivRem(limit, p);
    if n > q { MulLe(p, q + 1, n); assert p * (q + 1) == p * q + p; }
    else { MulLe(p, n, q); }
  }

  /** The size computed in load_library, in size_t arithmetic; p is the per-thread size as the code
      has it. A per-thread size that wraps to 0 makes the code divide by zero. */
  method AllocationSize(structSize: nat, nameLen: nat, threads: nat, cnt: nat, size: nat, align: nat) returns (a: nat)
    requires Wrap(size + align + 8 * (cnt + 3)) != 0 && structSize + nameLen + 1 <= SSIZE_MAX && threads < W64
    ensures var need := threads * Wrap(size + align + 8 * (cnt + 3));
            a == if need > SSIZE_MAX then SIZE_MAX else structSize + nameLen + 1 + need
  {
    var p := Wrap(size + align + 8 * (cnt + 3));
    hide Wrap;
    DivLess(threads, SSIZE_MAX, p);
    a := structSize + nameLen + 1;
    if threads > SSIZE_MAX / p {
      a := SIZE_MAX;
    } else {
      Unwrapped(a + threads * p);
      a := Wrap(a + threads * p);
    }
  }

  /** What AllocationSize returns covers the need of all threads, or cannot be allocated, if and only
      if the per-thread size does not wrap (or the wrapped one is already too much). */
  lemma EnoughExact(base: nat, threads: nat, per: nat)
    requires threads >= 1
    ensures var p := Wrap(per);
            (threads * p > SSIZE_MAX || base + threads * p >= base + threads * per) <==> (threads * p > SSIZE_MAX || per < W64)
  {
    if per < W64 {
      Unwrapped(per);
    } else {
      MulLe(threads, Wrap(per) + 1, per);
      assert threads * (Wrap(per) + 1) == threads * Wrap(per) + threads;
    }
  }

  /** One thread and a library that claims 2^64 - 8 bytes of TLS: 32 bytes are reserved for it. */
  lemma WrappedPerThread()
    ensures Wrap((W64 - 8) + 8 + 8 * (1 + 3)) == 32
  {
  }

  // ----- memory

  /** Bytes that were never written read as zero: the reservation comes from calloc. */
  type Memory = map<nat, byte>

  function Peek(m: Memory, a: nat): byte { if a in m then m[a] else 0 }

  ghost predicate Off(a: nat, n: nat, b: nat, k: nat) { a + n <= b || b + k <= a }

  method Copy(m: Memory, dst: nat, src: nat, len: nat) returns (r: Memory)
    requires Off(dst, len, src, len)
    ensures forall a: nat :: Peek(r, a) == Peek(m, if dst <= a < dst + len then src + (a - dst) else a)
  {
    r := m;
    for i := 0 to len
      invariant forall a: nat :: Peek(r, a) == Peek(m, if dst <= a < dst + i then src + (a - dst) else a)
    {
      var v := Peek(r, src + i);
      var r' := r[dst + i := v];
      assert forall a: nat :: Peek(r', a) == if a == dst + i then v else Peek(r, a);
      r := r';
    }
  }

  // ----- the blocks

  function Mem(l: Load, j: nat): nat { NewTls(l) + j * Stride(l) }

  /** Where the block of thread j goes. */
  function BlockAt(l: Load, j: nat): nat
    requires l.align >= 1
  {
    Mem(l, j) + Slack(l.image - Mem(l, j), l.align)
  }

  /** A block starts and ends inside its own stretch, and is aligned like the image. */
  lemma BlockOk(l: Load, j: nat)
    requires IsPow2(l.align) && l.align < W64
    ensures l.align >= 1
    ensures Mem(l, j) <= BlockAt(l, j) && BlockAt(l, j) + l.size < Mem(l, j) + Stride(l) == Mem(l, j + 1)
    ensures Mod(BlockAt(l, j) - l.image, l.align) == 0
  {
    AboveOk(Mem(l, j), l.image, l.size, l.align);
    hide Slack, NewTls;
    assert (j + 1) * Stride(l) == j * Stride(l) + Stride(l);
  }

  lemma MemMono(l: Load, j: nat, n: nat)
    requires j <= n
    ensures NewTls(l) <= Mem(l, j) <= Mem(l, n)
  {
    MulLe(Stride(l), j, n);
    MulLe(Stride(l), 0, j);
  }

  /** The blocks of all threads lie in the reservation and do not overlap. */
  lemma BlocksSeparate(l: Load, i: nat, j: nat)
    requires Good(l) && i < j < l.threads
    ensures l.align >= 1 && NewTls(l) <= BlockAt(l, i) && BlockAt(l, i) + l.size < BlockAt(l, j)
    ensures BlockAt(l, j) + l.size <= Limit(l)
  {
    BlockOk(l, i);
    BlockOk(l, j);
    MemMono(l, i, i);
    MemMono(l, i + 1, j);
    MemMono(l, j + 1, l.threads);
    Fits(l, l.threads);
    hide BlockAt, NewTls, Limit;
  }

  /** The `size` bytes at `at` are the first len bytes of the image, followed by zeros. */
  ghost predicate Filled(m0: Memory, m: Memory, image: nat, size: nat, len: nat, at: nat) {
    forall a: nat :: at <= a < at + size ==> Peek(m, a) == if a < at + len then Peek(m0, image + (a - at)) else 0
  }

  ghost predicate Holds(m0: Memory, m: Memory, l: Load, at: nat) {
    Filled(m0, m, l.image, l.size, l.len, at)
  }

  ghost predicate Zero(m: Memory, from: nat, to: nat) { forall a: nat :: from <= a < to ==> Peek(m, a) == 0 }

  ghost predicate SameOutside(m0: Memory, m: Memory, from: nat, to: nat) {
    forall a: nat :: a < from || to <= a ==> Peek(m, a) == Peek(m0, a)
  }

  ghost predicate AllHold(m0: Memory, m: Memory, l: Load, n: nat)
    requires l.align >= 1
  {
    forall j :: 0 <= j < n ==> Holds(m0, m, l, BlockAt(l, j))
  }

  /** One thread's block: only its own stretch changes. */
  method InstallBlock(ghost m0: Memory, m: Memory, l: Load, j: nat) returns (r: Memory, at: nat)
    requires IsPow2(l.align) && l.align < W64 && l.len <= l.size
    requires Ready(m0, m, l, Mem(l, j), Mem(l, j + 1))
    ensures l.align >= 1 && at == BlockAt(l, j) && Holds(m0, r, l, at)
    ensures SameOutside(m, r, Mem(l, j), Mem(l, j + 1))
  {
    BlockOk(l, j);
    hide Slack, Mem;
    at := BlockAt(l, j);
    hide BlockAt, Peek;
    r := Copy(m, at, l.image, l.len);
    forall a: nat | at <= a < at + l.size
      ensures Peek(r, a) == if a < at + l.len then Peek(m0, l.image + (a - at)) else 0 {
    }
  }

  /** The image can be copied from and the stretch of thread j is untouched. */
  ghost predicate Ready(m0: Memory, m: Memory, l: Load, from: nat, to: nat) {
    Zero(m, from, to) && SameImage(m0, m, l) && (to <= l.image || l.image + l.len <= from)
  }

  ghost predicate SameImage(m0: Memory, m: Memory, l: Load) {
    forall a: nat :: l.image <= a < l.image + l.len ==> Peek(m, a) == Peek(m0, a)
  }

  lemma BeforeBlock(m0: Memory, m: Memory, r: Memory, l: Load, j: nat, n: nat)
    requires j < n && Ready(m0, m, l, NewTls(l), Mem(l, n)) && SameOutside(m, r, NewTls(l), Mem(l, j))
    ensures Ready(m0, r, l, Mem(l, j), Mem(l, j + 1))
  {
    MemMono(l, j, n);
    MemMono(l, j, j + 1);
    MemMono(l, j + 1, n);
    hide Peek, NewTls, Mem;
  }

  lemma AfterBlock(m0: Memory, m: Memory, was: Memory, r: Memory, l: Load, j: nat)
    requires IsPow2(l.align) && l.align < W64
    requires l.align >= 1 && AllHold(m0, was, l, j) && SameOutside(m, was, NewTls(l), Mem(l, j))
    requires Holds(m0, r, l, BlockAt(l, j)) && SameOutside(was, r, Mem(l, j), Mem(l, j + 1))
    ensures AllHold(m0, r, l, j + 1) && SameOutside(m, r, NewTls(l), Mem(l, j + 1))
  {
    hide Holds, BlockAt, NewTls, Mem, Peek, IsPow2;
    MemMono(l, j, j + 1);
    forall i | 0 <= i < j ensures Holds(m0, r, l, BlockAt(l, i)) {
      BlockOk(l, i);
      MemMono(l, i + 1, j);
      HoldsKept(m0, was, r, l, BlockAt(l, i), Mem(l, j), Mem(l, j + 1));
    }
  }

  lemma HoldsKept(m0: Memory, was: Memory, r: Memory, l: Load, at: nat, from: nat, to: nat)
    requires Holds(m0, was, l, at) && SameOutside(was, r, from, to) && (at + l.size <= from || to <= at)
    ensures Holds(m0, r, l, at)
  {
  }

  /** All threads' blocks of one module and their DTV entries. */
  method InstallModule(ghost m0: Memory, m: Memory, l: Load, n: nat, rows: array2<nat>, id: nat, dtp: nat) returns (r: Memory)
    requires IsPow2(l.align) && l.align < W64 && l.len <= l.size
    requires Ready(m0, m, l, NewTls(l), Mem(l, n))
    requires rows.Length0 == n && id < rows.Length1
    modifies rows
    ensures l.align >= 1 && AllHold(m0, r, l, n) && SameOutside(m, r, NewTls(l), Mem(l, n))
    ensures forall j :: 0 <= j < n ==> rows[j, id] == Wrap(BlockAt(l, j) + dtp)
    ensures forall j, k :: 0 <= j < n && 0 <= k < rows.Length1 && k != id ==> rows[j, k] == old(rows[j, k])
  {
    PowPositive(l.align);
    r := m;
    assert Mem(l, 0) == NewTls(l);
    hide Wrap, BlockAt, NewTls, IsPow2, Peek, Mem, Holds, Ready, SameImage;
    for j := 0 to n
      invariant AllHold(m0, r, l, j) && SameOutside(m, r, NewTls(l), Mem(l, j))
      invariant forall i :: 0 <= i < j ==> rows[i, id] == Wrap(BlockAt(l, i) + dtp)
      invariant forall i, k :: 0 <= i < n && 0 <= k < rows.Length1 && k != id ==> rows[i, k] == old(rows[i, k])
    {
      ghost var was := r;
      BeforeBlock(m0, m, r, l, j, n);
      var at;
      r, at := InstallBlock(m0, r, l, j);
      AfterBlock(m0, m, was, r, l, j);
      rows[j, id] := Wrap(at + dtp);
    }
  }

  // ----- the enlarged DTVs

  /** The address of word k of the DTV of thread j: rows lie in the reservation of the last DSO
      loaded, and each has a word for every module and one for their number. */
  function RowWord(l: Load, j: nat, k: nat): nat { NewDtv(l) + 8 * (j * (l.before + 2) + k) }

  lemma RowArith(j: nat, k: nat, t: nat, w: nat)
    requires j < t && k < w
    ensures j * w + k < t * w
  {
    MulLe(w, j + 1, t);
    assert w * (j + 1) == w * j + w;
  }

  lemma RowsFit(l: Load, j: nat, k: nat)
    requires Good(l) && j < l.threads && k < l.before + 2
    ensures NameEnd(l) <= NewDtv(l) <= RowWord(l, j, k) && RowWord(l, j, k) + 8 <= NewTls(l)
  {
    RowInTable(l, j, k);
    hide *;
    Fits(l, l.threads);
  }

  lemma RowInTable(l: Load, j: nat, k: nat)
    requires j < l.threads && k < l.before + 2
    ensures NewDtv(l) <= RowWord(l, j, k) && RowWord(l, j, k) + 8 <= NewTls(l)
  {
    hide NewDtv;
    RowArith(j, k, l.threads, l.before + 2);
  }

  lemma RowsSeparate(l: Load, j: nat, k: nat, j': nat, k': nat)
    requires k < l.before + 2 && k' < l.before + 2 && (j < j' || (j == j' && k < k'))
    ensures RowWord(l, j, k) + 8 <= RowWord(l, j', k')
  {
    hide NewDtv;
    if j < j' { RowArith(j, k, j', l.before + 2); }
  }

  /** The 8 bytes at a hold the word v. */
  ghost predicate WordAt(m: Memory, a: nat, v: nat) {
    forall x: nat :: a <= x < a + 8 ==> Peek(m, x) == Digits(v, 8)[x - a]
  }

  method StoreWord(m: Memory, a: nat, v: nat) returns (r: Memory)
    ensures WordAt(r, a, v) && SameOutside(m, r, a, a + 8)
  {
    r := m;
    var d := Digits(v, 8);
    hide Digits;
    for i := 0 to 8
      invariant forall x: nat :: Peek(r, x) == if a <= x < a + i then d[x - a] else Peek(m, x)
    {
      var r' := r[a + i := d[i]];
      assert forall x: nat :: Peek(r', x) == if x == a + i then d[i] else Peek(r, x);
      r := r';
    }
  }

  lemma WordKept(m: Memory, r: Memory, a: nat, v: nat, from: nat, to: nat)
    requires WordAt(m, a, v) && SameOutside(m, r, from, to) && (a + 8 <= from || to <= a)
    ensures WordAt(r, a, v)
  {
    hide Digits, Peek;
  }

  /** The first k words of row j hold these values. */
  ghost predicate RowHolds(m: Memory, l: Load, j: nat, row: seq<nat>) {
    forall k :: 0 <= k < |row| ==> WordAt(m, RowWord(l, j, k), row[k])
  }

  /** One DTV row, word by word; nothing else changes. */
  method StoreRow(m: Memory, l: Load, j: nat, row: seq<nat>) returns (r: Memory)
    requires |row| == l.before + 2
    ensures RowHolds(r, l, j, row) && SameOutside(m, r, RowWord(l, j, 0), RowWord(l, j + 1, 0))
  {
    r := m;
    hide WordAt;
    for k := 0 to |row|
      invariant RowHolds(r, l, j, row[..k]) && SameOutside(m, r, RowWord(l, j, 0), RowWord(l, j, k))
    {
      ghost var was := r;
      r := StoreWord(r, RowWord(l, j, k), row[k]);
      RowGrows(m, was, r, l, j, row, k);
    }
    RowEnd(l, j);
    assert row[..|row|] == row;
  }

  lemma RowEnd(l: Load, j: nat)
    ensures RowWord(l, j, l.before + 2) == RowWord(l, j + 1, 0)
  {
    hide NewDtv;
    assert (j + 1) * (l.before + 2) == j * (l.before + 2) + (l.before + 2);
  }

  lemma RowGrows(m: Memory, was: Memory, r: Memory, l: Load, j: nat, row: seq<nat>, k: nat)
    requires k < |row| == l.before + 2 && RowHolds(was, l, j, row[..k]) && SameOutside(m, was, RowWord(l, j, 0), RowWord(l, j, k))
    requires WordAt(r, RowWord(l, j, k), row[k]) && SameOutside(was, r, RowWord(l, j, k), RowWord(l, j, k) + 8)
    ensures RowHolds(r, l, j, row[..k + 1]) && SameOutside(m, r, RowWord(l, j, 0), RowWord(l, j, k + 1))
  {
    hide WordAt;
    assert RowWord(l, j, k + 1) == RowWord(l, j, k) + 8 && RowWord(l, j, 0) <= RowWord(l, j, k);
    forall i | 0 <= i < k + 1 ensures WordAt(r, RowWord(l, j, i), row[..k + 1][i]) {
      if i < k {
        assert WordAt(was, RowWord(l, j, i), row[..k][i]);
        RowsSeparate(l, j, i, j, k);
        WordKept(was, r, RowWord(l, j, i), row[i], RowWord(l, j, k), RowWord(l, j, k) + 8);
      }
    }
    hide RowWord, Peek;
  }

  function RowOf(rows: array2<nat>, j: nat): (s: seq<nat>)
    requires j < rows.Length0
    reads rows
    ensures |s| == rows.Length1 && forall k :: 0 <= k < |s| ==> s[k] == rows[j, k]
  {
    seq(rows.Length1, k requires 0 <= k < rows.Length1 reads rows => rows[j, k])
  }

  /** All rows at their addresses; nothing else changes. */
  method StoreRows(m: Memory, l: Load, rows: array2<nat>) returns (r: Memory)
    requires rows.Length1 == l.before + 2
    ensures forall j :: 0 <= j < rows.Length0 ==> RowHolds(r, l, j, RowOf(rows, j))
    ensures SameOutside(m, r, RowWord(l, 0, 0), RowWord(l, rows.Length0, 0))
  {
    r := m;
    hide RowHolds, RowWord, Peek;
    for j := 0 to rows.Length0
      invariant forall i :: 0 <= i < j ==> RowHolds(r, l, i, RowOf(rows, i))
      invariant SameOutside(m, r, RowWord(l, 0, 0), RowWord(l, j, 0))
    {
      ghost var was := r;
      r := StoreRow(r, l, j, RowOf(rows, j));
      RowStart(l, 0, j);
      RowStart(l, j, j + 1);
      forall i | 0 <= i < j ensures RowHolds(r, l, i, RowOf(rows, i)) {
        RowStart(l, i + 1, j);
        RowKept(was, r, l, i, RowOf(rows, i), RowWord(l, j, 0), RowWord(l, j + 1, 0));
      }
    }
  }

  lemma RowStart(l: Load, i: nat, j: nat)
    requires i <= j
    ensures RowWord(l, i, 0) <= RowWord(l, j, 0)
  {
    hide NewDtv;
    MulLe(l.before + 2, i, j);
  }

  lemma RowKept(was: Memory, r: Memory, l: Load, i: nat, row: seq<nat>, from: nat, to: nat)
    requires RowHolds(was, l, i, row) && |row| == l.before + 2 && SameOutside(was, r, from, to)
    requires RowWord(l, i + 1, 0) <= from || to <= RowWord(l, i, 0)
    ensures RowHolds(r, l, i, row)
  {
    hide WordAt, SameOutside;
    RowEnd(l, i);
    forall k | 0 <= k < |row| ensures WordAt(r, RowWord(l, i, k), row[k]) {
      assert RowWord(l, i, 0) <= RowWord(l, i, k) && RowWord(l, i, k) + 8 <= RowWord(l, i, l.before + 2);
      WordKept(was, r, RowWord(l, i, k), row[k], from, to);
    }
  }

  // ----- install_new_tls

  /** An entry of the list of DSOs; id 0 means no TLS. */
  datatype Dso = Dso(id: nat, tls: Load)

  /** The DSOs that existing threads have no block for yet, in the order they were loaded. */
  ghost predicate Listed(list: seq<Dso>, oldCnt: nat, cnt: nat) {
    && (forall i :: 0 <= i < |list| ==> list[i].id <= cnt)
    && (forall i, k :: 0 <= i < k < |list| && oldCnt < list[i].id && oldCnt < list[k].id ==> list[i].id < list[k].id)
    && exists i :: 0 <= i < |list| && list[i].id == cnt
  }

  /** The new DSOs have separate, zeroed allocations, none of which holds an image. */
  ghost predicate Reserved(m0: Memory, d: Dso, n: nat) {
    Good(d.tls) && n <= d.tls.threads && d.tls.before + 1 == d.id && Zero(m0, NewTls(d.tls), Limit(d.tls))
  }

  ghost predicate Disjoint(d: Dso, e: Dso) {
    Limit(d.tls) <= e.tls.base || Limit(e.tls) <= d.tls.base
  }

  ghost predicate ImageOff(d: Dso, e: Dso) {
    Limit(d.tls) <= e.tls.image || e.tls.image + e.tls.len <= d.tls.base
  }

  ghost predicate World(m0: Memory, list: seq<Dso>, oldCnt: nat, n: nat) {
    && (forall i :: 0 <= i < |list| && oldCnt < list[i].id ==> Reserved(m0, list[i], n))
    && (forall i, k :: 0 <= i < k < |list| && oldCnt < list[i].id && oldCnt < list[k].id ==> Disjoint(list[i], list[k]))
    && forall i, k :: 0 <= i < |list| && 0 <= k < |list| && oldCnt < list[i].id && oldCnt < list[k].id ==> ImageOff(list[i], list[k])
  }

  /** d has its blocks, or is still as it was allocated. */
  ghost predicate Stage(m0: Memory, m: Memory, d: Dso, n: nat, done: bool)
    requires d.tls.align >= 1
  {
    SameImage(m0, m, d.tls) && if done then AllHold(m0, m, d.tls, n) else Zero(m, NewTls(d.tls), Mem(d.tls, n))
  }

  lemma AreaInside(m0: Memory, d: Dso, n: nat)
    requires Reserved(m0, d, n)
    ensures d.tls.base <= NewTls(d.tls) <= Mem(d.tls, n) <= Limit(d.tls)
  {
    Fits(d.tls, n);
    MemMono(d.tls, 0, n);
    hide NewDtv, Limit, Good;
  }

  lemma ReadyToInstall(m0: Memory, m: Memory, d: Dso, n: nat)
    requires Reserved(m0, d, n) && d.tls.align >= 1 && ImageOff(d, d) && Stage(m0, m, d, n, false)
    ensures Ready(m0, m, d.tls, NewTls(d.tls), Mem(d.tls, n))
  {
    AreaInside(m0, d, n);
    hide NewTls, Mem, Limit, SameImage, Zero, Reserved;
  }

  /** Installing e leaves d at its stage. */
  lemma StageKept(m0: Memory, m: Memory, r: Memory, d: Dso, e: Dso, n: nat, done: bool)
    requires Reserved(m0, d, n) && Reserved(m0, e, n) && d.tls.align >= 1 && Stage(m0, m, d, n, done)
    requires SameOutside(m, r, NewTls(e.tls), Mem(e.tls, n))
    requires (Disjoint(d, e) || Disjoint(e, d)) && ImageOff(e, d)
    ensures Stage(m0, r, d, n, done)
  {
    AreaInside(m0, d, n);
    AreaInside(m0, e, n);
    assert SameImage(m0, r, d.tls) by { hide NewTls, Mem, Limit, AllHold, Peek, Reserved; }
    if done {
      forall j | 0 <= j < n ensures Holds(m0, r, d.tls, BlockAt(d.tls, j)) {
        assert Holds(m0, m, d.tls, BlockAt(d.tls, j));
        BlockOk(d.tls, j);
        MemMono(d.tls, j, n);
        MemMono(d.tls, j + 1, n);
        hide NewTls, Mem, Limit, BlockAt, Holds;
        HoldsKept(m0, m, r, d.tls, BlockAt(d.tls, j), NewTls(e.tls), Mem(e.tls, n));
      }
    } else {
      hide NewTls, Mem, Limit, Peek, Reserved;
    }
  }

  ghost predicate Progress(m0: Memory, m: Memory, list: seq<Dso>, oldCnt: nat, n: nat, p: nat) {
    forall i :: 0 <= i < |list| && oldCnt < list[i].id ==> list[i].tls.align >= 1 && Stage(m0, m, list[i], n, i < p)
  }

  /** Only the allocations of new DSOs change. */
  ghost predicate Untouched(m0: Memory, m: Memory, list: seq<Dso>, oldCnt: nat) {
    forall a: nat :: Foreign(list, oldCnt, a) ==> Peek(m, a) == Peek(m0, a)
  }

  ghost predicate Foreign(list: seq<Dso>, oldCnt: nat, a: nat) {
    forall i :: 0 <= i < |list| && oldCnt < list[i].id ==> a < list[i].tls.base || Limit(list[i].tls) <= a
  }

  lemma UntouchedStep(m0: Memory, m: Memory, r: Memory, list: seq<Dso>, oldCnt: nat, n: nat, p: nat)
    requires Untouched(m0, m, list, oldCnt) && p < |list| && oldCnt < list[p].id && Reserved(m0, list[p], n)
    requires SameOutside(m, r, NewTls(list[p].tls), Mem(list[p].tls, n))
    ensures Untouched(m0, r, list, oldCnt)
  {
    AreaInside(m0, list[p], n);
    hide NewTls, Mem, Limit, Peek, Reserved;
  }

  lemma ProgressStarts(m0: Memory, list: seq<Dso>, oldCnt: nat, n: nat)
    requires World(m0, list, oldCnt, n)
    ensures Progress(m0, m0, list, oldCnt, n, 0)
  {
    forall i | 0 <= i < |list| && oldCnt < list[i].id
      ensures list[i].tls.align >= 1 && Stage(m0, m0, list[i], n, false) {
      assert Reserved(m0, list[i], n);
      PowPositive(list[i].tls.align);
      AreaInside(m0, list[i], n);
      hide NewTls, Mem, Limit, Peek;
    }
  }

  lemma ProgressStep(m0: Memory, m: Memory, r: Memory, list: seq<Dso>, oldCnt: nat, n: nat, p: nat)
    requires World(m0, list, oldCnt, n) && p < |list| && oldCnt < list[p].id
    requires Progress(m0, m, list, oldCnt, n, p)
    requires list[p].tls.align >= 1 && AllHold(m0, r, list[p].tls, n)
    requires SameOutside(m, r, NewTls(list[p].tls), Mem(list[p].tls, n))
    ensures Progress(m0, r, list, oldCnt, n, p + 1)
  {
    hide NewTls, Mem, AllHold, SameOutside, Stage, Reserved, Disjoint, ImageOff;
    forall i | 0 <= i < |list| && oldCnt < list[i].id
      ensures list[i].tls.align >= 1 && Stage(m0, r, list[i], n, i < p + 1) {
      assert Stage(m0, m, list[i], n, i < p);
      if i == p {
        OwnStage(m0, m, r, list[p], n);
      } else {
        assert if i < p then Disjoint(list[i], list[p]) else Disjoint(list[p], list[i]);
        StageKept(m0, m, r, list[i], list[p], n, i < p);
      }
    }
  }

  lemma OwnStage(m0: Memory, m: Memory, r: Memory, d: Dso, n: nat)
    requires Reserved(m0, d, n) && ImageOff(d, d) && d.tls.align >= 1 && Stage(m0, m, d, n, false)
    requires AllHold(m0, r, d.tls, n) && SameOutside(m, r, NewTls(d.tls), Mem(d.tls, n))
    ensures Stage(m0, r, d, n, true)
  {
    AreaInside(m0, d, n);
    hide NewTls, Mem, Limit, AllHold, Reserved, Peek;
  }

  /** The first loop: copies of the old DTVs, with the new count. */
  method CopyDtvs(dtvs: seq<seq<nat>>, oldCnt: nat, cnt: nat) returns (rows: array2<nat>)
    requires oldCnt < cnt && forall j :: 0 <= j < |dtvs| ==> |dtvs[j]| > oldCnt
    ensures fresh(rows) && RowsKept(rows, dtvs, oldCnt, cnt)
  {
    rows := new nat[|dtvs|, cnt + 1];
    for i := 0 to |dtvs|
      invariant forall j :: 0 <= j < i ==> rows[j, 0] == cnt
      invariant forall j, k :: 0 <= j < i && 1 <= k <= oldCnt ==> rows[j, k] == dtvs[j][k]
    {
      for c := 0 to oldCnt + 1
        invariant forall j :: 0 <= j < i ==> rows[j, 0] == cnt
        invariant forall j, k :: 0 <= j < i && 1 <= k <= oldCnt ==> rows[j, k] == dtvs[j][k]
        invariant forall k :: 0 <= k < c ==> rows[i, k] == dtvs[i][k]
      {
        rows[i, c] := dtvs[i][c];
      }
      rows[i, 0] := cnt;
    }
  }

  ghost predicate Points(rows: array2<nat>, d: Dso, n: nat, dtp: nat)
    requires d.tls.align >= 1
    reads rows
  {
    rows.Length0 == n && d.id < rows.Length1 && forall j :: 0 <= j < n ==> rows[j, d.id] == Wrap(BlockAt(d.tls, j) + dtp)
  }

  ghost predicate RowsKept(rows: array2<nat>, dtvs: seq<seq<nat>>, oldCnt: nat, cnt: nat)
    requires oldCnt < cnt && forall j :: 0 <= j < |dtvs| ==> |dtvs[j]| > oldCnt
    reads rows
  {
    && rows.Length0 == |dtvs| && rows.Length1 == cnt + 1
    && (forall j :: 0 <= j < |dtvs| ==> rows[j, 0] == cnt)
    && forall j, k :: 0 <= j < |dtvs| && 1 <= k <= oldCnt ==> rows[j, k] == dtvs[j][k]
  }

  ghost predicate AllPoint(rows: array2<nat>, list: seq<Dso>, oldCnt: nat, p: nat, n: nat, dtp: nat)
    reads rows
  {
    forall i :: 0 <= i < p && i < |list| && oldCnt < list[i].id ==> list[i].tls.align >= 1 && Points(rows, list[i], n, dtp)
  }

  /** The second loop, for one new DSO: the rows, */
  method PointOne(ghost m0: Memory, m: Memory, list: seq<Dso>, dtvs: seq<seq<nat>>, oldCnt: nat, cnt: nat, p: nat,
                  rows: array2<nat>, dtp: nat) returns (r: Memory)
    requires oldCnt < cnt && p < |list| && oldCnt < list[p].id <= cnt
    requires forall i :: 0 <= i < p && oldCnt < list[i].id ==> list[i].id < list[p].id
    requires forall j :: 0 <= j < |dtvs| ==> |dtvs[j]| > oldCnt
    requires var l := list[p].tls;
             IsPow2(l.align) && l.align < W64 && l.len <= l.size && Ready(m0, m, l, NewTls(l), Mem(l, |dtvs|))
    requires RowsKept(rows, dtvs, oldCnt, cnt) && AllPoint(rows, list, oldCnt, p, |dtvs|, dtp)
    modifies rows
    ensures var l := list[p].tls;
            l.align >= 1 && AllHold(m0, r, l, |dtvs|) && SameOutside(m, r, NewTls(l), Mem(l, |dtvs|))
    ensures RowsKept(rows, dtvs, oldCnt, cnt) && AllPoint(rows, list, oldCnt, p + 1, |dtvs|, dtp)
  {
    hide AllHold, SameOutside, NewTls, Mem, Ready, BlockAt, Wrap, IsPow2;
    label before:
    r := InstallModule(m0, m, list[p].tls, |dtvs|, rows, list[p].id, dtp);
    forall i | 0 <= i < p && oldCnt < list[i].id ensures list[i].tls.align >= 1 && Points(rows, list[i], |dtvs|, dtp) {
      assert old@before(Points(rows, list[i], |dtvs|, dtp));
    }
  }

  /** and the memory. */
  method InstallOne(m0: Memory, m: Memory, list: seq<Dso>, dtvs: seq<seq<nat>>, oldCnt: nat, cnt: nat, p: nat,
                    rows: array2<nat>, dtp: nat) returns (r: Memory)
    requires oldCnt < cnt && Listed(list, oldCnt, cnt) && World(m0, list, oldCnt, |dtvs|)
    requires forall j :: 0 <= j < |dtvs| ==> |dtvs[j]| > oldCnt
    requires p < |list| && oldCnt < list[p].id
    requires Progress(m0, m, list, oldCnt, |dtvs|, p) && Untouched(m0, m, list, oldCnt)
    requires RowsKept(rows, dtvs, oldCnt, cnt) && AllPoint(rows, list, oldCnt, p, |dtvs|, dtp)
    modifies rows
    ensures Progress(m0, r, list, oldCnt, |dtvs|, p + 1) && Untouched(m0, r, list, oldCnt)
    ensures RowsKept(rows, dtvs, oldCnt, cnt) && AllPoint(rows, list, oldCnt, p + 1, |dtvs|, dtp)
  {
    OneReady(m0, m, list, oldCnt, |dtvs|, p);
    IdsGrow(m0, list, oldCnt, cnt, |dtvs|, p);
    hide *;
    r := PointOne(m0, m, list, dtvs, oldCnt, cnt, p, rows, dtp);
    ProgressStep(m0, m, r, list, oldCnt, |dtvs|, p);
    UntouchedStep(m0, m, r, list, oldCnt, |dtvs|, p);
  }

  lemma IdsGrow(m0: Memory, list: seq<Dso>, oldCnt: nat, cnt: nat, n: nat, p: nat)
    requires Listed(list, oldCnt, cnt) && World(m0, list, oldCnt, n) && p < |list| && oldCnt < list[p].id
    ensures list[p].id <= cnt && forall i :: 0 <= i < p && oldCnt < list[i].id ==> list[i].id < list[p].id
    ensures Reserved(m0, list[p], n)
  {
    hide Reserved, Disjoint, ImageOff;
  }

  lemma OneReady(m0: Memory, m: Memory, list: seq<Dso>, oldCnt: nat, n: nat, p: nat)
    requires World(m0, list, oldCnt, n) && p < |list| && oldCnt < list[p].id
    requires Progress(m0, m, list, oldCnt, n, p)
    ensures var l := list[p].tls;
            IsPow2(l.align) && l.align < W64 && l.len <= l.size && Ready(m0, m, l, NewTls(l), Mem(l, n))
  {
    hide Stage, ImageOff, Disjoint, Ready, Zero, Limit;
    assert Reserved(m0, list[p], n) && ImageOff(list[p], list[p]) && Stage(m0, m, list[p], n, p < p);
    ReadyToInstall(m0, m, list[p], n);
  }

  /** The second loop. */
  method InstallEach(m0: Memory, list: seq<Dso>, dtvs: seq<seq<nat>>, oldCnt: nat, cnt: nat, rows: array2<nat>, dtp: nat,
                     ghost last: nat)
    returns (m: Memory, p: nat)
    requires oldCnt < cnt && Listed(list, oldCnt, cnt) && World(m0, list, oldCnt, |dtvs|)
    requires last < |list| && list[last].id == cnt && forall j :: 0 <= j < |dtvs| ==> |dtvs[j]| > oldCnt
    requires RowsKept(rows, dtvs, oldCnt, cnt)
    modifies rows
    ensures p < |list| && list[p].id == cnt
    ensures Progress(m0, m, list, oldCnt, |dtvs|, p + 1) && Untouched(m0, m, list, oldCnt)
    ensures RowsKept(rows, dtvs, oldCnt, cnt) && AllPoint(rows, list, oldCnt, p + 1, |dtvs|, dtp)
  {
    hide *;
    ProgressStarts(m0, list, oldCnt, |dtvs|);
    NoneYet(m0, rows, list, oldCnt, |dtvs|, dtp);
    m, p := m0, 0;
    while true
      invariant 0 <= p <= last
      invariant Progress(m0, m, list, oldCnt, |dtvs|, p) && Untouched(m0, m, list, oldCnt)
      invariant RowsKept(rows, dtvs, oldCnt, cnt) && AllPoint(rows, list, oldCnt, p, |dtvs|, dtp)
      decreases |list| - p
    {
      if list[p].id > oldCnt {
        m := InstallOne(m0, m, list, dtvs, oldCnt, cnt, p, rows, dtp);
        if list[p].id == cnt {
          return;
        }
      } else {
        Skip(m0, m, rows, list, oldCnt, |dtvs|, dtp, p);
      }
      p := p + 1;
    }
  }

  /** Both loops, with the rows still in an array of their own. */
  method FillRows(m0: Memory, list: seq<Dso>, dtvs: seq<seq<nat>>, oldCnt: nat, cnt: nat, dtp: nat)
    returns (m: Memory, rows: array2<nat>)
    requires oldCnt < cnt && Listed(list, oldCnt, cnt) && World(m0, list, oldCnt, |dtvs|)
    requires forall j :: 0 <= j < |dtvs| ==> |dtvs[j]| > oldCnt
    ensures RowsKept(rows, dtvs, oldCnt, cnt) && AllPoint(rows, list, oldCnt, |list|, |dtvs|, dtp)
    ensures forall i :: 0 <= i < |list| && oldCnt < list[i].id ==> list[i].tls.align >= 1 && AllHold(m0, m, list[i].tls, |dtvs|)
    ensures Untouched(m0, m, list, oldCnt)
  {
    ghost var last :| 0 <= last < |list| && list[last].id == cnt;
    hide *;
    rows := CopyDtvs(dtvs, oldCnt, cnt);
    var p;
    m, p := InstallEach(m0, list, dtvs, oldCnt, cnt, rows, dtp, last);
    AllDone(m0, m, rows, list, oldCnt, cnt, |dtvs|, dtp, p);
  }

  lemma NoneYet(m0: Memory, rows: array2<nat>, list: seq<Dso>, oldCnt: nat, n: nat, dtp: nat)
    ensures AllPoint(rows, list, oldCnt, 0, n, dtp) && Untouched(m0, m0, list, oldCnt)
  {
  }

  lemma Skip(m0: Memory, m: Memory, rows: array2<nat>, list: seq<Dso>, oldCnt: nat, n: nat, dtp: nat, p: nat)
    requires p < |list| && list[p].id <= oldCnt
    requires Progress(m0, m, list, oldCnt, n, p) && AllPoint(rows, list, oldCnt, p, n, dtp)
    ensures Progress(m0, m, list, oldCnt, n, p + 1) && AllPoint(rows, list, oldCnt, p + 1, n, dtp)
  {
    hide Stage, Points;
  }

  /** Nothing new comes after the DSO with the last id. */
  lemma AllDone(m0: Memory, m: Memory, rows: array2<nat>, list: seq<Dso>, oldCnt: nat, cnt: nat, n: nat, dtp: nat, p: nat)
    requires oldCnt < cnt && Listed(list, oldCnt, cnt) && p < |list| && list[p].id == cnt
    requires Progress(m0, m, list, oldCnt, n, p + 1) && AllPoint(rows, list, oldCnt, p + 1, n, dtp)
    ensures AllPoint(rows, list, oldCnt, |list|, n, dtp)
    ensures forall i :: 0 <= i < |list| && oldCnt < list[i].id ==> list[i].tls.align >= 1 && AllHold(m0, m, list[i].tls, n)
  {
    forall i | 0 <= i < |list| && oldCnt < list[i].id
      ensures i <= p && list[i].tls.align >= 1 && AllHold(m0, m, list[i].tls, n) {
      assert Stage(m0, m, list[i], n, i < p + 1);
    }
    hide Points, AllHold;
  }

  /** What install_new_tls leaves in memory: for every thread a DTV in the reservation of the last
      DSO, with the new count, the old entries, and for every new module the address of a block that
      holds its image. */
  ghost predicate Installed(m0: Memory, m: Memory, list: seq<Dso>, dtvs: seq<seq<nat>>, oldCnt: nat, cnt: nat, dtp: nat, l: Load, j: nat)
    requires oldCnt < cnt && j < |dtvs| && |dtvs[j]| > oldCnt
  {
    && WordAt(m, RowWord(l, j, 0), cnt)
    && (forall k :: 1 <= k <= oldCnt ==> WordAt(m, RowWord(l, j, k), dtvs[j][k]))
    && forall i :: 0 <= i < |list| && oldCnt < list[i].id ==>
         && list[i].tls.align >= 1 && Holds(m0, m, list[i].tls, BlockAt(list[i].tls, j))
         && WordAt(m, RowWord(l, j, list[i].id), Wrap(BlockAt(list[i].tls, j) + dtp))
  }

  /** The values of one finished row. */
  ghost predicate RowIs(row: seq<nat>, list: seq<Dso>, dtv: seq<nat>, oldCnt: nat, cnt: nat, dtp: nat, j: nat)
    requires oldCnt < cnt && |dtv| > oldCnt
  {
    && |row| == cnt + 1 && row[0] == cnt && (forall k :: 1 <= k <= oldCnt ==> row[k] == dtv[k])
    && forall i :: 0 <= i < |list| && oldCnt < list[i].id ==>
         list[i].tls.align >= 1 && list[i].id < |row| && row[list[i].id] == Wrap(BlockAt(list[i].tls, j) + dtp)
  }

  lemma RowsInside(m0: Memory, d: Dso, n: nat)
    requires Reserved(m0, d, n)
    ensures d.tls.base <= RowWord(d.tls, 0, 0) && RowWord(d.tls, n, 0) <= NewTls(d.tls) <= Limit(d.tls)
  {
    RowsBelow(d.tls, n);
    MulLe(Stride(d.tls), 0, n);
    Fits(d.tls, n);
    hide NewDtv, NewTls, RowWord, Limit, Good;
  }

  lemma RowsBelow(l: Load, n: nat)
    requires n <= l.threads
    ensures NewDtv(l) == RowWord(l, 0, 0) && RowWord(l, n, 0) <= NewTls(l)
  {
    hide NewDtv;
    MulLe(l.before + 2, n, l.threads);
  }

  /** Storing the rows leaves the blocks alone. */
  lemma BlockStays(m0: Memory, filled: Memory, m: Memory, d: Dso, e: Dso, n: nat, j: nat)
    requires Reserved(m0, d, n) && Reserved(m0, e, n) && (d == e || Disjoint(d, e) || Disjoint(e, d)) && j < n
    requires d.tls.align >= 1 && Holds(m0, filled, d.tls, BlockAt(d.tls, j))
    requires SameOutside(filled, m, RowWord(e.tls, 0, 0), RowWord(e.tls, n, 0))
    ensures Holds(m0, m, d.tls, BlockAt(d.tls, j))
  {
    RowsInside(m0, e, n);
    AreaInside(m0, d, n);
    BlockOk(d.tls, j);
    MemMono(d.tls, j, n);
    MemMono(d.tls, j + 1, n);
    hide NewTls, Mem, Limit, BlockAt, Holds, RowWord, Reserved;
    HoldsKept(m0, filled, m, d.tls, BlockAt(d.tls, j), RowWord(e.tls, 0, 0), RowWord(e.tls, n, 0));
  }

  lemma RowInstalled(m0: Memory, filled: Memory, m: Memory, list: seq<Dso>, dtvs: seq<seq<nat>>, oldCnt: nat, cnt: nat, dtp: nat,
                     tail: nat, j: nat, row: seq<nat>)
    requires oldCnt < cnt && World(m0, list, oldCnt, |dtvs|) && tail < |list| && list[tail].id == cnt
    requires j < |dtvs| && |dtvs[j]| > oldCnt && RowIs(row, list, dtvs[j], oldCnt, cnt, dtp, j)
    requires forall i :: 0 <= i < |list| && oldCnt < list[i].id ==> list[i].tls.align >= 1 && AllHold(m0, filled, list[i].tls, |dtvs|)
    requires RowHolds(m, list[tail].tls, j, row)
    requires SameOutside(filled, m, RowWord(list[tail].tls, 0, 0), RowWord(list[tail].tls, |dtvs|, 0))
    ensures Installed(m0, m, list, dtvs, oldCnt, cnt, dtp, list[tail].tls, j)
  {
    hide WordAt, Holds, BlockAt, RowWord, Wrap, SameOutside, Reserved, Disjoint;
    forall i | 0 <= i < |list| && oldCnt < list[i].id
      ensures list[i].tls.align >= 1 && Holds(m0, m, list[i].tls, BlockAt(list[i].tls, j))
    {
      assert Reserved(m0, list[i], |dtvs|) && Reserved(m0, list[tail], |dtvs|);
      assert Holds(m0, filled, list[i].tls, BlockAt(list[i].tls, j));
      assert i < tail ==> Disjoint(list[i], list[tail]);
      assert tail < i ==> Disjoint(list[tail], list[i]);
      BlockStays(m0, filled, m, list[i], list[tail], |dtvs|, j);
    }
  }

  lemma RowsUntouched(m0: Memory, filled: Memory, m: Memory, list: seq<Dso>, oldCnt: nat, n: nat, tail: nat)
    requires Untouched(m0, filled, list, oldCnt) && tail < |list| && oldCnt < list[tail].id && Reserved(m0, list[tail], n)
    requires SameOutside(filled, m, RowWord(list[tail].tls, 0, 0), RowWord(list[tail].tls, n, 0))
    ensures Untouched(m0, m, list, oldCnt)
  {
    RowsInside(m0, list[tail], n);
    hide RowWord, NewTls, Limit, Peek, Reserved;
  }

  /** tail is the DSO of tls_tail, the last one counted. The rows are filled in an array and stored at
      their addresses when they are complete; nothing reads them in between. */
  method InstallNewTls(m0: Memory, list: seq<Dso>, dtvs: seq<seq<nat>>, oldCnt: nat, cnt: nat, dtp: nat, tail: nat)
    returns (m: Memory)
    requires oldCnt < cnt && Listed(list, oldCnt, cnt) && World(m0, list, oldCnt, |dtvs|)
    requires tail < |list| && list[tail].id == cnt && forall j :: 0 <= j < |dtvs| ==> |dtvs[j]| > oldCnt
    ensures forall j :: 0 <= j < |dtvs| ==> Installed(m0, m, list, dtvs, oldCnt, cnt, dtp, list[tail].tls, j)
    ensures Untouched(m0, m, list, oldCnt)
  {
    assert Reserved(m0, list[tail], |dtvs|);
    var rows;
    m, rows := FillRows(m0, list, dtvs, oldCnt, cnt, dtp);
    ghost var filled := m;
    hide World, Listed, AllHold, SameOutside, RowHolds, Untouched, Good, Zero;
    m := StoreRows(m, list[tail].tls, rows);
    hide Reserved;
    forall j | 0 <= j < |dtvs| ensures Installed(m0, m, list, dtvs, oldCnt, cnt, dtp, list[tail].tls, j) {
      RowValues(rows, list, dtvs, oldCnt, cnt, dtp, j);
      RowInstalled(m0, filled, m, list, dtvs, oldCnt, cnt, dtp, tail, j, RowOf(rows, j));
    }
    RowsUntouched(m0, filled, m, list, oldCnt, |dtvs|, tail);
  }

  lemma RowValues(rows: array2<nat>, list: seq<Dso>, dtvs: seq<seq<nat>>, oldCnt: nat, cnt: nat, dtp: nat, j: nat)
    requires oldCnt < cnt && (forall i :: 0 <= i < |dtvs| ==> |dtvs[i]| > oldCnt) && j < |dtvs|
    requires RowsKept(rows, dtvs, oldCnt, cnt) && AllPoint(rows, list, oldCnt, |list|, |dtvs|, dtp)
    ensures RowIs(RowOf(rows, j), list, dtvs[j], oldCnt, cnt, dtp, j)
  {
    hide BlockAt, Wrap;
    forall i | 0 <= i < |list| && oldCnt < list[i].id
      ensures list[i].tls.align >= 1 && list[i].id < rows.Length1 && rows[j, list[i].id] == Wrap(BlockAt(list[i].tls, j) + dtp)
    {
      assert Points(rows, list[i], |dtvs|, dtp);
    }
  }
}
