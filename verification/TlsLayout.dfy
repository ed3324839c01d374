/** Static TLS: the offsets that the dynamic linker gives to the application and to each loaded
    library, and the area that a thread gets for them, for both thread-pointer layouts. */
module TlsLayout {
  import opened Bits

  const W64: nat := 0x1_0000_0000_0000_0000

  /** Conversion to size_t. */
  function Wrap(x: int): (r: nat)
    ensures r < W64
  {
    x % W64
  }

  lemma W64IsPow2()
    ensures Pow2(64) == W64
  {
    assert Pow2(8) == 256;
    Pow2Split(8, 16);
    Pow2Split(16, 32);
    Pow2Split(32, 64);
  }

  /** The power of two below 2^64 that m is. */
  lemma Exponent(m: nat) returns (k: nat)
    requires IsPow2(m) && m < W64
    ensures m == Pow2(k) && k < 64
  {
    k :| m == Pow2(k);
    W64IsPow2();
    if k >= 64 { Pow2Mono(64, k); }
  }

  /** `x & (align - 1)` on size_t, for a mathematical x. */
  function Slack(x: int, align: nat): nat
    requires align >= 1
  {
    And(Wrap(x), align - 1)
  }

  lemma SlackIsMod(x: int, align: nat)
    requires IsPow2(align) && align < W64
    ensures align >= 1 && Slack(x, align) == Mod(x, align)
  {
    var k := Exponent(align);
    W64IsPow2();
    MaskIsMod(Wrap(x), k);
    WrapMod(x, k);
  }

  lemma WrapMod(x: int, k: nat)
    requires k < 64
    ensures Mod(Wrap(x), Pow2(k)) == Mod(x, Pow2(k))
  {
    W64IsPow2();
    Pow2Split(k, 64);
    hide Pow2, Mod, Wrap;
    var q := Wrapped(x);
    var a, r := DivRem(Wrap(x), Pow2(k));
    ModMod(x, Pow2(k), Pow2(64 - k), q, Wrap(x), a, r);
  }

  lemma Wrapped(x: int) returns (q: int)
    ensures x == W64 * q + Wrap(x)
  {
    q := x / W64;
  }

  lemma DivRem(x: int, m: nat) returns (q: int, r: nat)
    requires m >= 1
    ensures x == m * q + r && r < m && r == Mod(x, m)
  {
    q, r := x / m, x % m;
  }

  lemma ModMod(x: int, m: nat, t: nat, q: int, y: nat, a: int, r: int)
    requires m >= 1 && x == (m * t) * q + y && y == m * a + r && 0 <= r < m
    ensures Mod(x, m) == r
  {
    assert (m * t) * q == m * (t * q);
    assert m * (t * q + a) == m * (t * q) + m * a;
    DivModUnique(x, m, t * q + a, r);
  }

  // ----- the largest alignment

  /** MAXP2. */
  function MaxP2(a: nat, b: nat): nat { Wrap(0 - And(Wrap(0 - a), Wrap(0 - b))) }

  lemma MaxP2IsMax(a: nat, b: nat)
    requires IsPow2(a) && IsPow2(b) && a < W64 && b < W64
    ensures MaxP2(a, b) == if a < b then b else a
  {
    var m := if a < b then b else a;
    PowPositive(a);
    PowPositive(b);
    hide And, Wrap;
    Negated(a);
    Negated(b);
    Negated(W64 - m);
    AndOfNegatives(a, b);
  }

  lemma Negated(x: nat)
    requires 1 <= x < W64
    ensures Wrap(0 - x) == W64 - x
  {
  }

  lemma PowPositive(m: nat)
    requires IsPow2(m)
    ensures m >= 1
  {
  }

  lemma AndOfNegatives(a: nat, b: nat)
    requires IsPow2(a) && IsPow2(b) && a < W64 && b < W64
    ensures And(W64 - a, W64 - b) == W64 - if a < b then b else a
  {
    var j := Exponent(a);
    var k := Exponent(b);
    W64IsPow2();
    ClearLowIsFloor(W64 - a, k, 64);
    Pow2Split(k, 64);
    if a < b {
      NegativeMod(a, b, Pow2(64 - k), 1, b - a);
    } else {
      LargerMultiple(j, k);
      NegativeMod(a, b, Pow2(64 - k), Pow2(j - k), 0);
    }
    hide And, Pow2, Mod;
  }

  lemma NegativeMod(a: nat, b: nat, t: nat, c: nat, r: nat)
    requires b >= 1 && W64 == b * t && a == b * c - r && r < b
    ensures Mod(W64 - a, b) == r
  {
    assert b * (t - c) == b * t - b * c;
    DivModUnique(W64 - a, b, t - c, r);
  }

  lemma LargerMultiple(j: nat, k: nat)
    requires Pow2(j) >= Pow2(k)
    ensures j >= k && Pow2(j) == Pow2(k) * Pow2(j - k)
  {
    if j < k {
      Pow2Mono(j, k - 1);
    } else {
      Pow2Split(k, j);
    }
  }

  // ----- offsets

  /** A TLS segment: where its image lies, its size in memory, its alignment, and the offset from
      the thread pointer it was given. */
  datatype Module = Module(image: nat, size: nat, align: nat, offset: nat)

  /** Distance of the block from the thread pointer: blocks lie above it or below it. */
  function Start(above: bool, m: Module): int { if above then m.offset else 0 - m.offset }
  function End(above: bool, m: Module): int { Start(above, m) + m.size }

  /** The block is where the image would be, modulo its alignment. */
  predicate Congruent(above: bool, m: Module) {
    m.align >= 1 && Mod(Start(above, m) - m.image, m.align) == 0
  }

  ghost predicate Sound(above: bool, m: Module) {
    IsPow2(m.align) && m.align < W64 && Congruent(above, m)
  }

  /** m lies within the distance limit of the thread pointer. */
  predicate Within(above: bool, m: Module, limit: nat) {
    if above then End(above, m) <= limit else 0 - limit <= Start(above, m)
  }

  /** n lies beyond the distance limit. */
  predicate Beyond(above: bool, n: Module, limit: nat) {
    if above then limit <= Start(above, n) else End(above, n) <= 0 - limit
  }

  predicate Apart(above: bool, m: Module, n: Module) {
    End(above, m) <= Start(above, n) || End(above, n) <= Start(above, m)
  }

  function Largest(floor: nat, mods: seq<Module>): nat {
    if mods == [] then floor
    else var l := Largest(floor, mods[..|mods| - 1]); if l < mods[|mods| - 1].align then mods[|mods| - 1].align else l
  }

  lemma {:induction false} LargestIsMax(floor: nat, mods: seq<Module>)
    ensures floor <= Largest(floor, mods)
    ensures forall i :: 0 <= i < |mods| ==> mods[i].align <= Largest(floor, mods)
    ensures Largest(floor, mods) == floor || exists i :: 0 <= i < |mods| && mods[i].align == Largest(floor, mods)
  {
    if mods != [] {
      var init := mods[..|mods| - 1];
      LargestIsMax(floor, init);
      assert forall i :: 0 <= i < |init| ==> init[i] == mods[i];
    }
  }

  /** Every offset assigned so far is good, and the next one will be beyond all of them. */
  ghost predicate LayoutOk(above: bool, floor: nat, offset: nat, align: nat, mods: seq<Module>) {
    && IsPow2(align) && align < W64 && align == Largest(floor, mods)
    && (forall i :: 0 <= i < |mods| ==> Sound(above, mods[i]) && Beyond(above, mods[i], 0) && Within(above, mods[i], offset))
    && forall i, j :: 0 <= i < j < |mods| ==> Apart(above, mods[i], mods[j])
  }

  lemma Placed(above: bool, floor: nat, offset: nat, align: nat, mods: seq<Module>, n: Module, offset': nat)
    requires LayoutOk(above, floor, offset, align, mods)
    requires Sound(above, n) && Beyond(above, n, offset) && Within(above, n, offset') && offset <= offset'
    ensures LayoutOk(above, floor, offset', MaxP2(align, n.align), mods + [n])
  {
    var all := mods + [n];
    MaxP2IsMax(align, n.align);
    assert all[..|mods|] == mods;
    forall i, j | 0 <= i < j < |all| ensures Apart(above, all[i], all[j]) {
      if j < |mods| { assert Apart(above, mods[i], mods[j]); }
      else { assert Within(above, mods[i], offset); }
    }
    hide MaxP2, Largest, Congruent;
  }

  lemma LayoutAlign(above: bool, floor: nat, offset: nat, align: nat, mods: seq<Module>)
    requires LayoutOk(above, floor, offset, align, mods)
    ensures IsPow2(align) && 1 <= align < W64
  {
    PowPositive(align);
  }

  /** The linker's counters: tls_offset, tls_align, tls_cnt and the list of TLS modules. */
  class Layout {
    const above: bool              // TLS_ABOVE_TP
    const gap: nat                 // GAP_ABOVE_TP
    const floor: nat               // MIN_TLS_ALIGN
    var offset: nat
    var align: nat
    var cnt: nat
    var mods: seq<Module>

    ghost predicate Valid()
      reads this
    {
      cnt == |mods| && LayoutOk(above, floor, offset, align, mods)
    }

    constructor (above: bool, gap: nat, floor: nat)
      requires IsPow2(floor) && floor < W64
      ensures Valid() && mods == [] && offset == 0
      ensures this.above == above && this.gap == gap && this.floor == floor
    {
      this.above, this.gap, this.floor := above, gap, floor;
      offset, align, cnt, mods := 0, floor, 0, [];
    }

    /** The application's own TLS (in __dls3). */
    method PlaceApp(image: nat, size: nat, al: nat)
      requires Valid() && mods == [] && offset == 0
      requires IsPow2(al) && al < W64 && gap + size + al <= W64
      modifies this
      ensures Valid()
      ensures if size == 0 then mods == [] && offset == 0 else Added([], mods, image, size, al)
      ensures size != 0 ==> if above then gap <= mods[0].offset <= offset < gap + size + al else offset < size + al
    {
      hide LayoutOk, Slack;
      if size != 0 {
        PowPositive(al);
        var o: nat;
        if above {
          AboveOk(gap, image, size, al);
          o := gap + Slack(image - gap, al);
          offset := o + size;
        } else {
          AppBelowOk(image, size, al);
          o := size + Slack(0 - (image + size), al);
          offset := o;
        }
        Placed(above, floor, 0, align, [], Module(image, size, al, o), offset);
        assert [] + [Module(image, size, al, o)] == [Module(image, size, al, o)];
        mods := [Module(image, size, al, o)];
        cnt := 1;
        align := MaxP2(align, al);
      }
    }

    /** One library with TLS (in load_library). */
    method Load(image: nat, size: nat, al: nat)
      requires Valid() && IsPow2(al) && al < W64 && offset + size + al <= W64
      modifies this
      ensures Valid() && Added(old(mods), mods, image, size, al)
      ensures old(offset) <= offset < old(offset) + size + al
      ensures Follows(above, mods[old(|mods|)], old(offset)) && mods[old(|mods|)].offset <= offset
    {
      hide LayoutOk, Slack, Mod;
      PowPositive(al);
      SlackIsMod(image - offset, al);
      ghost var was := offset;
      cnt := cnt + 1;
      var o: nat;
      if above {
        AboveOk(offset, image, size, al);
        o := offset + Slack(image - offset, al);
        offset := o + size;
      } else {
        LibraryBelowOk(offset, image, size, al);
        offset := offset + size + al - 1;
        offset := offset - Slack(offset + image, al);
        o := offset;
      }
      Placed(above, floor, was, align, mods, Module(image, size, al, o), offset);
      align := MaxP2(align, al);
      mods := mods + [Module(image, size, al, o)];
    }

    /** Any sequence of loads keeps every offset good, as long as the address space lasts. */
    method LoadAll(libs: seq<Module>)
      requires Valid() && AlignsOk(libs)
      requires offset + Room(libs) <= W64
      modifies this
      ensures Valid() && Segments(mods, old(mods) + libs) && mods[..old(|mods|)] == old(mods)
      ensures libs != [] ==> InOrder(above, mods, old(|mods|), old(offset))
    {
      hide LayoutOk, Follows, SameSegment;
      assert libs[0..] == libs && old(mods) + libs[..0] == old(mods);
      SegmentsSame(mods);
      for n := 0 to |libs|
        invariant Valid() && Segments(mods, old(mods) + libs[..n]) && mods[..old(|mods|)] == old(mods)
        invariant offset + Room(libs[n..]) <= W64 && old(offset) <= offset
        invariant n == 0 ==> offset == old(offset)
        invariant n > 0 ==> InOrder(above, mods, old(|mods|), old(offset)) && mods[old(|mods|)].offset <= offset
      {
        var l := libs[n];
        assert libs[n..][0] == l && libs[n..][1..] == libs[n + 1..];
        ghost var was, from := mods, offset;
        Load(l.image, l.size, l.align);
        SegmentsMore(was, mods, old(mods) + libs[..n], l);
        assert old(mods) + libs[..n + 1] == old(mods) + libs[..n] + [l];
        if n > 0 { FollowsFar(above, mods[|was|], from); }
      }
      assert libs[..|libs|] == libs;
    }

    /** update_tls_size: room for the DTV, the blocks, struct pthread and both alignments. */
    function TlsSize(pthread: nat): nat
      requires align <= W64
      reads this
    {
      RoundUp(8 * (1 + cnt) + offset + pthread + align * 2, align)
    }

    /** Where a thread's descriptor and DTV go in the area at mem. */
    method PlaceThread(mem: nat, pthread: nat) returns (td: nat, dtvAt: nat)
      requires Valid() && mem + 8 * (1 + cnt) + offset + pthread + 3 * align <= W64
      ensures align >= 1 && Mod(if above then td + pthread else td, align) == 0
      ensures AreaOk(above, mem, mem + TlsSize(pthread), td, pthread, dtvAt, mods)
    {
      hide LayoutOk, IsPow2, RoundUp, Slack, Mod, AreaOk;
      LayoutAlign(above, floor, offset, align, mods);
      var total := TlsSize(pthread);
      RoundUpOk(8 * (1 + cnt) + offset + pthread + align * 2, align);
      hide TlsSize;
      if above {
        TdAbove(mem, pthread, align);
        dtvAt := mem + total - 8 * (cnt + 1);
        td := mem + Slack(0 - (mem + pthread), align);
      } else {
        TdBelow(mem + total - pthread, align);
        dtvAt := mem;
        td := mem + total - pthread - Slack(mem + total - pthread, align);
      }
      AreaFits(above, floor, offset, align, mods, mem, total, td, pthread, dtvAt);
    }

    /** __copy_tls: lay out the area at mem for a new thread. The thread pointer is the returned
        descriptor itself, or its end when blocks lie above. */
    method CopyTls(mem: nat, pthread: nat, dtp: nat) returns (td: nat, dtvAt: nat, dtv: seq<nat>)
      requires Valid() && mem + 8 * (1 + cnt) + offset + pthread + 3 * align <= W64
      ensures align >= 1 && Mod(if above then td + pthread else td, align) == 0
      ensures AreaOk(above, mem, mem + TlsSize(pthread), td, pthread, dtvAt, mods)
      ensures IsDtv(above, if above then td + pthread else td, dtp, mods, dtv)
    {
      hide Mod, LayoutOk, AreaOk, TlsSize, IsDtv;
      td, dtvAt := PlaceThread(mem, pthread);
      dtv := FillDtv(if above then td + pthread else td, dtp);
    }

    method FillDtv(tp: nat, dtp: nat) returns (dtv: seq<nat>)
      requires cnt == |mods|
      ensures IsDtv(above, tp, dtp, mods, dtv)
    {
      hide Wrap, Start;
      dtv := [cnt];
      for i := 0 to |mods|
        invariant |dtv| == i + 1 && dtv[0] == cnt
        invariant forall j :: 0 <= j < i ==> dtv[j + 1] == Wrap(tp + Start(above, mods[j]) + dtp)
      {
        dtv := dtv + [Wrap(tp + Start(above, mods[i]) + dtp)];
      }
    }
  }

  ghost predicate AlignsOk(libs: seq<Module>) {
    forall i :: 0 <= i < |libs| ==> IsPow2(libs[i].align) && libs[i].align < W64
  }

  /** The modules are these segments, in this order. */
  ghost predicate Segments(mods: seq<Module>, segs: seq<Module>) {
    |mods| == |segs| && forall i :: 0 <= i < |segs| ==> SameSegment(mods[i], segs[i])
  }

  lemma SegmentsSame(mods: seq<Module>)
    ensures Segments(mods, mods)
  {
  }

  lemma SegmentsMore(was: seq<Module>, mods: seq<Module>, segs: seq<Module>, l: Module)
    requires Segments(was, segs) && Added(was, mods, l.image, l.size, l.align)
    ensures Segments(mods, segs + [l])
  {
    forall i | 0 <= i < |was| ensures mods[i] == was[i] { assert mods[..|was|][i] == was[i]; }
  }

  /** m starts at the first fitting address from `from` on; in the layout above the thread pointer
      that address is exact. */
  predicate Follows(above: bool, m: Module, from: nat) {
    m.align >= 1 && Beyond(above, m, from) && (above ==> m.offset == from + Mod(m.image - from, m.align))
  }

  lemma FollowsFar(above: bool, m: Module, from: nat)
    requires Follows(above, m, from)
    ensures from <= m.offset
  {
  }

  /** Module k was placed right from `from` on and no later one starts nearer to the thread pointer. */
  ghost predicate InOrder(above: bool, mods: seq<Module>, k: nat, from: nat) {
    k < |mods| && Follows(above, mods[k], from) && forall i :: k <= i < |mods| ==> mods[k].offset <= mods[i].offset
  }

  /** What start-up hands over: blocks apart and congruent to their images, the largest alignment. */
  ghost predicate SoundLayout(above: bool, floor: nat, align: nat, mods: seq<Module>) {
    && (forall i, j :: 0 <= i < j < |mods| ==> Apart(above, mods[i], mods[j]))
    && (forall i :: 0 <= i < |mods| ==> Congruent(above, mods[i]))
    && align == Largest(floor, mods)
  }

  /** Start-up: the application's TLS and then the libraries', in load order. In the layout above the
      thread pointer the blocks stay clear of the gap if and only if the application has TLS, or no
      library has, or the first library with TLS happens to be placed beyond the gap. */
  method Startup(above: bool, gap: nat, floor: nat, app: Module, libs: seq<Module>) returns (l: Layout)
    requires IsPow2(floor) && floor < W64 && IsPow2(app.align) && app.align < W64 && AlignsOk(libs)
    requires gap + app.size + app.align + Room(libs) <= W64
    ensures fresh(l) && l.Valid() && l.above == above
    ensures Segments(l.mods, (if app.size != 0 then [app] else []) + libs)
    ensures SoundLayout(above, floor, l.align, l.mods)
    ensures above ==> (ClearOf(l.mods, gap) <==> app.size != 0 || libs == [] || FirstBeyond(libs[0], gap))
  {
    l := new Layout(above, gap, floor);
    hide LayoutOk, Room, SameSegment;
    l.PlaceApp(app.image, app.size, app.align);
    ghost var placed, from := l.mods, l.offset;
    l.LoadAll(libs);
    LayoutGood(above, floor, l.offset, l.align, l.mods);
    SegmentsOf(app, libs, placed, l.mods);
    hide Segments, SoundLayout;
    if above { ClearExact(app, libs, placed, l.mods, from, gap); }
  }

  lemma LayoutGood(above: bool, floor: nat, offset: nat, align: nat, mods: seq<Module>)
    requires LayoutOk(above, floor, offset, align, mods)
    ensures SoundLayout(above, floor, align, mods)
  {
    forall i | 0 <= i < |mods| ensures Congruent(above, mods[i]) { assert Sound(above, mods[i]); }
    hide Congruent, Apart;
  }

  lemma SegmentsOf(app: Module, libs: seq<Module>, placed: seq<Module>, mods: seq<Module>)
    requires if app.size == 0 then placed == [] else Added([], placed, app.image, app.size, app.align)
    requires Segments(mods, placed + libs)
    ensures var segs := (if app.size != 0 then [app] else []) + libs;
            Segments(mods, segs) && |placed| <= |segs| && segs[|placed|..] == libs
  {
    var segs := (if app.size != 0 then [app] else []) + libs;
    forall i | 0 <= i < |segs| ensures SameSegment(mods[i], segs[i]) { assert SameSegment(mods[i], (placed + libs)[i]); }
  }

  lemma ClearExact(app: Module, libs: seq<Module>, placed: seq<Module>, mods: seq<Module>, from: nat, gap: nat)
    requires |placed| == (if app.size == 0 then 0 else 1) && |mods| == |placed| + |libs| && mods[..|placed|] == placed
    requires if app.size == 0 then from == 0 else gap <= placed[0].offset <= from
    requires libs != [] ==> InOrder(true, mods, |placed|, from) && SameSegment(mods[|placed|], libs[0])
    ensures ClearOf(mods, gap) <==> app.size != 0 || libs == [] || FirstBeyond(libs[0], gap)
  {
    hide Mod;
    var n := |placed|;
    assert n > 0 ==> mods[0] == mods[..n][0];
    if libs != [] { FollowsFar(true, mods[n], from); }
  }

  ghost predicate ClearOf(mods: seq<Module>, gap: nat) { forall i :: 0 <= i < |mods| ==> gap <= mods[i].offset }

  /** Placed at distance image mod align, the first library reaches beyond the gap. */
  predicate FirstBeyond(l: Module, gap: nat) { l.align >= 1 && gap <= Mod(l.image, l.align) }

  /** A 16-byte gap and a library image on a 16-byte boundary: the block starts inside the gap. */
  lemma FirstLibraryInGap(size: nat)
    ensures !FirstBeyond(Module(0x10000, size, 16, 0), 16)
  {
  }

  ghost predicate Added(old_: seq<Module>, mods: seq<Module>, image: nat, size: nat, align: nat) {
    |mods| == |old_| + 1 && mods[..|old_|] == old_ && SameSegment(mods[|old_|], Module(image, size, align, 0))
  }

  predicate SameSegment(m: Module, n: Module) { m.image == n.image && m.size == n.size && m.align == n.align }

  function Room(libs: seq<Module>): nat {
    if libs == [] then 0 else libs[0].size + libs[0].align + Room(libs[1..])
  }

  // ----- one placement

  lemma AboveOk(from: nat, image: nat, size: nat, al: nat)
    requires IsPow2(al) && al < W64
    ensures al >= 1 && var o := from + Slack(image - from, al); Sound(true, Module(image, size, al, o)) && o < from + al
  {
    hide Slack, Mod, IsPow2;
    SlackIsMod(image - from, al);
    Rounded(image - from, al);
  }

  lemma AppBelowOk(image: nat, size: nat, al: nat)
    requires IsPow2(al) && al < W64
    ensures al >= 1 && var o := size + Slack(0 - (image + size), al); Sound(false, Module(image, size, al, o)) && o < size + al
  {
    hide Slack, Mod, IsPow2;
    SlackIsMod(0 - (image + size), al);
    Rounded(0 - (image + size), al);
  }

  lemma LibraryBelowOk(from: nat, image: nat, size: nat, al: nat)
    requires IsPow2(al) && al < W64
    ensures al >= 1
    ensures var x := from + size + al - 1; var r := Slack(x + image, al);
            r <= al - 1 && Sound(false, Module(image, size, al, x - r))
  {
    hide Slack, Mod, IsPow2;
    var x := from + size + al - 1;
    SlackIsMod(x + image, al);
    Rounded(x + image, al);
  }

  /** Taking the remainder off leaves a multiple. */
  lemma Rounded(x: int, m: nat)
    requires m >= 1
    ensures Mod(x - Mod(x, m), m) == 0 && Mod(Mod(x, m) - x, m) == 0
  {
    hide Mod;
    var q, r := DivRem(x, m);
    Multiple(x - r, m, q);
    Multiple(r - x, m, 0 - q);
  }

  lemma Multiple(x: int, m: nat, q: int)
    requires m >= 1 && (x == m * q || 0 - x == m * (0 - q))
    ensures Mod(x, m) == 0
  {
    assert m * (0 - q) == 0 - m * q;
    DivModUnique(x, m, q, 0);
  }

  // ----- the area of one thread

  /** ALIGN. */
  function RoundUp(x: nat, y: nat): nat
    requires y <= W64
  {
    And(Wrap(x + y - 1), W64 - y)
  }

  lemma RoundUpOk(x: nat, y: nat)
    requires IsPow2(y) && y < W64 && x + y <= W64
    ensures x <= RoundUp(x, y) < x + y
  {
    hide And, Mod, Wrap;
    var k := Exponent(y);
    W64IsPow2();
    hide Pow2, IsPow2;
    ClearLowIsFloor(x + y - 1, k, 64);
    Unwrapped(x + y - 1);
  }

  lemma Unwrapped(x: nat)
    requires x < W64
    ensures Wrap(x) == x
  {
  }

  lemma SlackUp(x: nat, m: nat)
    requires IsPow2(m) && m < W64
    ensures m >= 1 && Slack(0 - x, m) < m && Mod(x + Slack(0 - x, m), m) == 0
  {
    hide Slack, Mod, IsPow2;
    SlackIsMod(0 - x, m);
    Rounded(0 - x, m);
  }

  lemma TdAbove(mem: nat, pthread: nat, m: nat)
    requires IsPow2(m) && 1 <= m < W64
    ensures var td := mem + Slack(0 - (mem + pthread), m); td < mem + m && Mod(td + pthread, m) == 0
  {
    hide *;
    SlackUp(mem + pthread, m);
    assert mem + pthread + Slack(0 - (mem + pthread), m) == mem + Slack(0 - (mem + pthread), m) + pthread;
  }

  lemma TdBelow(top: nat, m: nat)
    requires IsPow2(m) && 1 <= m < W64
    ensures var td := top - Slack(top, m); 0 <= td && top - m < td <= top && Mod(td, m) == 0
  {
    hide *;
    SlackDown(top, m);
  }

  lemma SlackDown(x: nat, m: nat)
    requires IsPow2(m) && 1 <= m < W64
    ensures Slack(x, m) < m && Slack(x, m) <= x && Mod(x - Slack(x, m), m) == 0
  {
    ModLe(x, m, x / m);
    hide Slack, Mod, IsPow2;
    SlackIsMod(x, m);
    Rounded(x, m);
  }

  lemma ModLe(x: nat, m: nat, q: int)
    requires m >= 1 && q == x / m
    ensures x == m * q + Mod(x, m) && Mod(x, m) <= x
  {
    assert q <= -1 ==> m * q <= 0 - m;
    assert q >= 0 ==> m * q >= 0;
  }

  /** One pointer per module, to its block. */
  ghost predicate IsDtv(above: bool, tp: nat, dtp: nat, mods: seq<Module>, dtv: seq<nat>) {
    && |dtv| == |mods| + 1 && dtv[0] == |mods|
    && forall j :: 0 <= j < |mods| ==> dtv[j + 1] == Wrap(tp + Start(above, mods[j]) + dtp)
  }

  /** Descriptor, DTV and blocks are inside the area and do not overlap. */
  ghost predicate AreaOk(above: bool, lo: nat, hi: nat, td: nat, pthread: nat, dtvAt: nat, mods: seq<Module>) {
    var dtvEnd := dtvAt + 8 * (|mods| + 1);
    && lo <= td && td + pthread <= hi && lo <= dtvAt && dtvEnd <= hi
    && (td + pthread <= dtvAt || dtvEnd <= td)
    && forall i :: 0 <= i < |mods| ==> BlockFits(above, lo, hi, td, pthread, dtvAt, dtvEnd, mods[i])
  }

  predicate BlockFits(above: bool, lo: nat, hi: nat, td: nat, pthread: nat, dtvAt: nat, dtvEnd: nat, m: Module) {
    var tp := if above then td + pthread else td;
    var from, to := tp + Start(above, m), tp + End(above, m);
    lo <= from && to <= hi && (to <= td || td + pthread <= from) && (to <= dtvAt || dtvEnd <= from)
  }

  lemma AreaFits(above: bool, floor: nat, offset: nat, align: nat, mods: seq<Module>,
                 mem: nat, total: nat, td: nat, pthread: nat, dtvAt: nat)
    requires LayoutOk(above, floor, offset, align, mods)
    requires total >= 8 * (1 + |mods|) + offset + pthread + align * 2
    requires above ==> mem <= td < mem + align && dtvAt == mem + total - 8 * (|mods| + 1)
    requires !above ==> mem + total - pthread - align < td <= mem + total - pthread && dtvAt == mem
    ensures AreaOk(above, mem, mem + total, td, pthread, dtvAt, mods)
  {
    hide Sound, Apart;
  }

  /** With an aligned thread pointer each block is congruent to its image. */
  lemma BlocksCongruent(above: bool, floor: nat, offset: nat, align: nat, mods: seq<Module>, tp: nat, i: nat)
    requires LayoutOk(above, floor, offset, align, mods) && align >= 1 && Mod(tp, align) == 0 && i < |mods|
    ensures mods[i].align >= 1 && Mod(tp + Start(above, mods[i]) - mods[i].image, mods[i].align) == 0
  {
    var m := mods[i];
    assert Sound(above, m);
    LargestIsMax(floor, mods);
    var j := Exponent(align);
    var k := Exponent(m.align);
    LargerMultiple(j, k);
    var d, c := Start(above, m) - m.image, Pow2(j - k);
    hide LayoutOk, Sound, Pow2, Start, Largest;
    var q := Quotient(tp, align);
    var w := Quotient(d, m.align);
    hide Mod;
    SumMultiple(tp, d, m.align, c, q, w);
  }

  lemma Quotient(x: int, m: nat) returns (q: int)
    requires m >= 1 && Mod(x, m) == 0
    ensures x == m * q
  {
    q := x / m;
  }

  lemma SumMultiple(x: int, d: int, m: nat, c: nat, q: int, w: int)
    requires m >= 1 && x == (m * c) * q && d == m * w
    ensures Mod(x + d, m) == 0
  {
    assert (m * c) * q == m * (c * q);
    assert m * (c * q + w) == m * (c * q) + m * w;
    Multiple(x + d, m, c * q + w);
  }
}
