/** __copy_tls on memory: what a new thread finds in its TLS area. */
module TlsThread {
  import opened Bits
  import opened TlsLayout
  import opened TlsInstall

  /** Where module x of a thread with thread pointer tp has its block. */
  function BlockOf(above: bool, tp: nat, x: Module): int { tp + Start(above, x) }

  /** The block lies in [lo, hi). */
  predicate Inside(above: bool, tp: nat, x: Module, lo: nat, hi: nat) {
    lo <= BlockOf(above, tp, x) && BlockOf(above, tp, x) + x.size <= hi
  }

  /** Image and area do not overlap, and the image is not longer than the block. */
  predicate ImageOutside(x: Module, len: nat, lo: nat, hi: nat) {
    len <= x.size && (x.image + len <= lo || hi <= x.image)
  }

  ghost predicate BlocksOk(above: bool, tp: nat, mods: seq<Module>, lens: seq<nat>, lo: nat, hi: nat) {
    && |lens| == |mods|
    && (forall i :: 0 <= i < |mods| ==> Inside(above, tp, mods[i], lo, hi) && ImageOutside(mods[i], lens[i], lo, hi))
    && forall i, j :: 0 <= i < j < |mods| ==> Apart(above, mods[i], mods[j])
  }

  /** Module i has its image, followed by zeros. */
  ghost predicate Initialised(m0: Memory, m: Memory, above: bool, tp: nat, x: Module, len: nat) {
    BlockOf(above, tp, x) >= 0 && Filled(m0, m, x.image, x.size, len, BlockOf(above, tp, x))
  }

  /** The first n modules are done, the others are as they were. */
  ghost predicate CopiedTo(m0: Memory, m: Memory, above: bool, tp: nat, mods: seq<Module>, lens: seq<nat>, n: nat)
    requires |lens| == |mods|
  {
    forall i :: 0 <= i < |mods| ==>
      if i < n then Initialised(m0, m, above, tp, mods[i], lens[i]) else Initialised(m0, m, above, tp, mods[i], 0)
  }

  method CopyImages(m0: Memory, above: bool, tp: nat, mods: seq<Module>, lens: seq<nat>, ghost lo: nat, ghost hi: nat)
    returns (m: Memory)
    requires BlocksOk(above, tp, mods, lens, lo, hi) && Zero(m0, lo, hi)
    ensures forall i :: 0 <= i < |mods| ==> Initialised(m0, m, above, tp, mods[i], lens[i])
    ensures SameOutside(m0, m, lo, hi)
  {
    m := m0;
    NothingCopied(m0, above, tp, mods, lens, lo, hi);
    hide Initialised, SameOutside, Zero, Inside, ImageOutside, Peek;
    for n := 0 to |mods|
      invariant CopiedTo(m0, m, above, tp, mods, lens, n) && SameOutside(m0, m, lo, hi)
    {
      ghost var was := m;
      BlockRange(above, tp, mods, lens, lo, hi, n);
      var at: nat := BlockOf(above, tp, mods[n]);
      m := Copy(m, at, mods[n].image, lens[n]);
      OneCopied(m0, was, m, above, tp, mods, lens, lo, hi, n);
    }
  }

  lemma BlockRange(above: bool, tp: nat, mods: seq<Module>, lens: seq<nat>, lo: nat, hi: nat, n: nat)
    requires BlocksOk(above, tp, mods, lens, lo, hi) && n < |mods|
    ensures lo <= BlockOf(above, tp, mods[n]) && BlockOf(above, tp, mods[n]) + lens[n] <= hi
    ensures Off(BlockOf(above, tp, mods[n]), lens[n], mods[n].image, lens[n])
  {
    assert Inside(above, tp, mods[n], lo, hi) && ImageOutside(mods[n], lens[n], lo, hi);
  }

  lemma NothingCopied(m0: Memory, above: bool, tp: nat, mods: seq<Module>, lens: seq<nat>, lo: nat, hi: nat)
    requires BlocksOk(above, tp, mods, lens, lo, hi) && Zero(m0, lo, hi)
    ensures CopiedTo(m0, m0, above, tp, mods, lens, 0) && SameOutside(m0, m0, lo, hi)
  {
    forall i | 0 <= i < |mods| ensures Initialised(m0, m0, above, tp, mods[i], 0) {
      assert Inside(above, tp, mods[i], lo, hi);
    }
  }

  /** r is m with len bytes copied from src to dst. */
  ghost predicate IsCopy(m: Memory, r: Memory, dst: nat, src: nat, len: nat) {
    forall a: nat :: Peek(r, a) == Peek(m, if dst <= a < dst + len then src + (a - dst) else a)
  }

  lemma OneCopied(m0: Memory, m: Memory, r: Memory, above: bool, tp: nat, mods: seq<Module>, lens: seq<nat>, lo: nat, hi: nat, n: nat)
    requires BlocksOk(above, tp, mods, lens, lo, hi) && n < |mods| && BlockOf(above, tp, mods[n]) >= 0
    requires CopiedTo(m0, m, above, tp, mods, lens, n) && SameOutside(m0, m, lo, hi)
    requires IsCopy(m, r, BlockOf(above, tp, mods[n]), mods[n].image, lens[n])
    ensures CopiedTo(m0, r, above, tp, mods, lens, n + 1) && SameOutside(m0, r, lo, hi)
  {
    var x := mods[n];
    assert Inside(above, tp, x, lo, hi) && ImageOutside(x, lens[n], lo, hi);
    CopyInside(m0, m, r, BlockOf(above, tp, x), x.image, lens[n], lo, hi);
    assert Initialised(m0, m, above, tp, x, 0);
    OwnBlock(m0, m, r, above, tp, x, lens[n], lo, hi);
    hide IsCopy, SameOutside, Initialised, Inside, ImageOutside;
    forall i | 0 <= i < |mods| && i != n
      ensures if i < n + 1 then Initialised(m0, r, above, tp, mods[i], lens[i]) else Initialised(m0, r, above, tp, mods[i], 0)
    {
      assert if i < n then Apart(above, mods[i], x) else Apart(above, x, mods[i]);
      if i < n {
        OtherBlock(m0, m, r, above, tp, mods[i], lens[i], x, lens[n]);
      } else {
        OtherBlock(m0, m, r, above, tp, mods[i], 0, x, lens[n]);
      }
    }
  }

  lemma CopyInside(m0: Memory, m: Memory, r: Memory, dst: nat, src: nat, len: nat, lo: nat, hi: nat)
    requires SameOutside(m0, m, lo, hi) && IsCopy(m, r, dst, src, len) && lo <= dst && dst + len <= hi
    ensures SameOutside(m0, r, lo, hi)
  {
    hide Peek;
  }

  lemma OwnBlock(m0: Memory, m: Memory, r: Memory, above: bool, tp: nat, x: Module, len: nat, lo: nat, hi: nat)
    requires Inside(above, tp, x, lo, hi) && ImageOutside(x, len, lo, hi) && SameOutside(m0, m, lo, hi)
    requires Initialised(m0, m, above, tp, x, 0) && IsCopy(m, r, BlockOf(above, tp, x), x.image, len)
    ensures Initialised(m0, r, above, tp, x, len)
  {
    hide Peek;
  }

  lemma OtherBlock(m0: Memory, m: Memory, r: Memory, above: bool, tp: nat, x: Module, len: nat, y: Module, n: nat)
    requires Initialised(m0, m, above, tp, x, len) && BlockOf(above, tp, y) >= 0 && n <= y.size
    requires (Apart(above, x, y) || Apart(above, y, x)) && IsCopy(m, r, BlockOf(above, tp, y), y.image, n)
    ensures Initialised(m0, r, above, tp, x, len)
  {
    hide Peek;
  }

  // ----- the DTV

  /** The words of v from address a on. */
  ghost predicate WordsAt(m: Memory, a: nat, v: seq<nat>) {
    forall k :: 0 <= k < |v| ==> WordAt(m, a + 8 * k, v[k])
  }

  method StoreWords(m: Memory, a: nat, v: seq<nat>) returns (r: Memory)
    ensures WordsAt(r, a, v) && SameOutside(m, r, a, a + 8 * |v|)
  {
    r := m;
    hide WordAt, Peek;
    for k := 0 to |v|
      invariant WordsAt(r, a, v[..k]) && SameOutside(m, r, a, a + 8 * k)
    {
      ghost var was := r;
      r := StoreWord(r, a + 8 * k, v[k]);
      forall i | 0 <= i < k + 1 ensures WordAt(r, a + 8 * i, v[..k + 1][i]) {
        if i < k {
          assert WordAt(was, a + 8 * i, v[..k][i]);
          WordKept(was, r, a + 8 * i, v[i], a + 8 * k, a + 8 * k + 8);
        }
      }
    }
    assert v[..|v|] == v;
  }

  // ----- the whole area

  /** A new thread's area, of the size update_tls_size computed and still zero: the thread pointer is
      aligned, descriptor, DTV and blocks are apart, every block holds its image, and the DTV in
      memory points to them. Nothing outside the area changes. */
  method CopyTls(lay: Layout, m0: Memory, mem: nat, pthread: nat, dtp: nat, lens: seq<nat>)
    returns (m: Memory, td: nat, dtvAt: nat, ghost dtv: seq<nat>)
    requires lay.Valid() && mem + 8 * (1 + lay.cnt) + lay.offset + pthread + 3 * lay.align <= W64
    requires lay.align <= W64 && |lens| == |lay.mods| && Zero(m0, mem, mem + lay.TlsSize(pthread))
    requires forall i :: 0 <= i < |lens| ==> ImageOutside(lay.mods[i], lens[i], mem, mem + lay.TlsSize(pthread))
    ensures var tp := if lay.above then td + pthread else td;
            && lay.align >= 1 && Mod(tp, lay.align) == 0
            && (forall i :: 0 <= i < |lens| ==> Initialised(m0, m, lay.above, tp, lay.mods[i], lens[i]))
            && WordsAt(m, dtvAt, dtv) && IsDtv(lay.above, tp, dtp, lay.mods, dtv)
    ensures AreaOk(lay.above, mem, mem + lay.TlsSize(pthread), td, pthread, dtvAt, lay.mods)
    ensures SameOutside(m0, m, mem, mem + lay.TlsSize(pthread))
  {
    ghost var hi := mem + lay.TlsSize(pthread);
    var v;
    td, dtvAt, v := lay.CopyTls(mem, pthread, dtp);
    var tp := if lay.above then td + pthread else td;
    AreaBlocks(lay.above, lay.floor, lay.offset, lay.align, lay.mods, lens, mem, hi, td, pthread, dtvAt);
    m := CopyImages(m0, lay.above, tp, lay.mods, lens, mem, hi);
    ghost var copied := m;
    m := StoreWords(m, dtvAt, v);
    dtv := v;
    BlocksStay(m0, copied, m, lay.above, mem, hi, td, pthread, dtvAt, lay.mods, lens);
  }

  lemma AreaBlocks(above: bool, floor: nat, offset: nat, align: nat, mods: seq<Module>, lens: seq<nat>,
                   lo: nat, hi: nat, td: nat, pthread: nat, dtvAt: nat)
    requires LayoutOk(above, floor, offset, align, mods) && AreaOk(above, lo, hi, td, pthread, dtvAt, mods)
    requires |lens| == |mods| && forall i :: 0 <= i < |mods| ==> ImageOutside(mods[i], lens[i], lo, hi)
    ensures BlocksOk(above, if above then td + pthread else td, mods, lens, lo, hi)
  {
    var tp := if above then td + pthread else td;
    hide Sound, ImageOutside, Apart;
    forall i | 0 <= i < |mods| ensures Inside(above, tp, mods[i], lo, hi) {
      assert BlockFits(above, lo, hi, td, pthread, dtvAt, dtvAt + 8 * (|mods| + 1), mods[i]);
    }
  }

  /** Storing the DTV leaves the blocks, and memory outside the area, alone. */
  lemma BlocksStay(m0: Memory, copied: Memory, m: Memory, above: bool, lo: nat, hi: nat, td: nat, pthread: nat, dtvAt: nat,
                   mods: seq<Module>, lens: seq<nat>)
    requires AreaOk(above, lo, hi, td, pthread, dtvAt, mods) && |lens| == |mods| && SameOutside(m0, copied, lo, hi)
    requires SameOutside(copied, m, dtvAt, dtvAt + 8 * (|mods| + 1))
    requires var tp := if above then td + pthread else td;
             forall i :: 0 <= i < |mods| ==> Initialised(m0, copied, above, tp, mods[i], lens[i])
    ensures var tp := if above then td + pthread else td;
            forall i :: 0 <= i < |mods| ==> Initialised(m0, m, above, tp, mods[i], lens[i])
    ensures SameOutside(m0, m, lo, hi)
  {
    var tp := if above then td + pthread else td;
    hide Peek;
    forall i | 0 <= i < |mods| ensures Initialised(m0, m, above, tp, mods[i], lens[i]) {
      assert BlockFits(above, lo, hi, td, pthread, dtvAt, dtvAt + 8 * (|mods| + 1), mods[i]);
      assert Initialised(m0, copied, above, tp, mods[i], lens[i]);
    }
  }
}
