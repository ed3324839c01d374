/** The kernel heap as a value: a sequence of adjacent segments, with first-fit allocation,
    splitting, two-way coalescing and page-wise growth as functions on that sequence. */
module HeapSpec {

  const HDR: nat := 32          // sizeof(HeapSegmentHeader)
  const PAGE: nat := 4096
  const WORD64: nat := 0x1_0000_0000_0000_0000
  const INT64_MAX: nat := 0x7fff_ffff_ffff_ffff

  /** On a 16-byte boundary. */
  predicate On16(x: int) { x % 16 == 0 }

  datatype Seg = Seg(addr: nat, len: nat, free: bool) {
    function End(): nat { addr + HDR + len }

    predicate Aligned() { On16(addr) && On16(len) && len >= 16 }

    predicate Fits(size: nat) { free && len >= size }
  }

  /** The segments cover [start, end) without gap or overlap. */
  ghost predicate Tiles(s: seq<Seg>, start: nat, end: nat) {
    && |s| > 0 && s[0].addr == start && s[|s| - 1].End() == end
    && (forall i :: 0 <= i < |s| - 1 ==> Joined(s, i))
  }

  ghost predicate Joined(s: seq<Seg>, i: nat)
    requires i + 1 < |s|
  {
    s[i].End() == s[i + 1].addr
  }

  /** Every block starts on a 16-byte boundary and is a non-zero multiple of 16 bytes long. */
  ghost predicate Aligned(s: seq<Seg>) {
    forall i :: 0 <= i < |s| ==> s[i].Aligned()
  }

  ghost predicate NoFreePair(s: seq<Seg>) {
    forall i :: 0 <= i < |s| - 1 ==> !FreePair(s, i)
  }

  ghost predicate FreePair(s: seq<Seg>, i: nat)
    requires i + 1 < |s|
  {
    s[i].free && s[i + 1].free
  }

  ghost predicate WellFormed(s: seq<Seg>, start: nat, end: nat) {
    Tiles(s, start, end) && Aligned(s) && NoFreePair(s)
  }

  /** The blocks handed out and not yet freed: payload address and size. */
  ghost function Live(s: seq<Seg>): set<(nat, nat)> {
    set i | 0 <= i < |s| && !s[i].free :: (s[i].addr + HDR, s[i].len)
  }

  /** The sizes malloc can serve: the others round to 0. */
  predicate Servable(size: nat) { 0 < size <= WORD64 - 16 }

  function Round16(size: nat): (r: nat)
    requires size < WORD64
    ensures On16(r) && (r != 0 ==> r >= 16)
    ensures if Servable(size) then size <= r < size + 16 else r == 0
  {
    if size % 16 > 0 then (size - size % 16 + 16) % WORD64 else size
  }

  function RoundPage(size: nat): (r: nat)
    ensures size <= r < size + PAGE && r % PAGE == 0
  {
    if size % PAGE != 0 then size - size % PAGE + PAGE else size
  }

  function FirstFit(s: seq<Seg>, size: nat, from: nat := 0): (k: nat)
    requires from <= |s|
    ensures from <= k <= |s|
    ensures forall j :: from <= j < k ==> !s[j].Fits(size)
    ensures k < |s| ==> s[k].Fits(size)
    decreases |s| - from
  {
    if from == |s| || s[from].Fits(size) then from else FirstFit(s, size, from + 1)
  }

  predicate Splits(len: nat, size: nat) { size >= 16 && len - size - HDR >= 16 }

  /** Cut segment i after `size` payload bytes when the rest can hold a header and a block. */
  function SplitAt(s: seq<Seg>, i: nat, size: nat): seq<Seg>
    requires i < |s|
  {
    if Splits(s[i].len, size) then
      s[..i]
      + [Seg(s[i].addr, size, s[i].free), Seg(s[i].addr + HDR + size, s[i].len - size - HDR, s[i].free)]
      + s[i + 1..]
    else s
  }

  /** Hand out segment i for a request of `size`, splitting off the rest when it can hold a block. */
  function Take(s: seq<Seg>, i: nat, size: nat): seq<Seg>
    requires i < |s| && s[i].Fits(size)
  {
    if Splits(s[i].len, size) then
      s[..i]
      + [Seg(s[i].addr, size, false), Seg(s[i].addr + HDR + size, s[i].len - size - HDR, true)]
      + s[i + 1..]
    else s[i := s[i].(free := false)]
  }

  /** Absorb the right neighbour of segment i if it is free. */
  function Merge(s: seq<Seg>, i: nat): seq<Seg>
    requires i < |s|
  {
    if i + 1 < |s| && s[i + 1].free then
      s[..i] + [s[i].(len := s[i].len + HDR + s[i + 1].len)] + s[i + 2..]
    else s
  }

  function MergeBack(s: seq<Seg>, i: nat): seq<Seg>
    requires i < |s| && s[i].free
  {
    if i > 0 && s[i - 1].free then Merge(s, i - 1) else s
  }

  function Release(s: seq<Seg>, i: nat): seq<Seg>
    requires i < |s|
  {
    MergeBack(Merge(s[i := s[i].(free := true)], i), i)
  }

  function Grow(s: seq<Seg>, size: nat): seq<Seg>
    requires |s| > 0 && size >= 16
  {
    MergeBack(s + [NewSeg(s, size)], |s|)
  }

  /** How many times the heap must grow before a request of `size` can be met. */
  function Deficit(s: seq<Seg>, size: nat): nat
    requires |s| > 0
  {
    if FirstFit(s, size) < |s| then 0
    else if s[|s| - 1].free || RoundPage(size) - HDR >= size then 1 else 2
  }

  /** Taking a segment is splitting it and marking the first part used. */
  lemma TakeIsSplit(s: seq<Seg>, i: nat, size: nat)
    requires i < |s| && s[i].Fits(size)
    ensures var t := SplitAt(s, i, size); i < |t| && Take(s, i, size) == t[i := t[i].(free := false)]
  {
  }

  // ----- shape lemmas

  lemma {:induction false} OrderedPair(s: seq<Seg>, start: nat, end: nat, i: nat, j: nat)
    requires Tiles(s, start, end) && i < j < |s|
    ensures s[i].End() <= s[j].addr
    decreases j
  {
    assert Joined(s, j - 1);
    if i < j - 1 { OrderedPair(s, start, end, i, j - 1); }
  }

  /** Distinct segments never overlap: tiling gives the full address order. */
  lemma Ordered(s: seq<Seg>, start: nat, end: nat)
    requires Tiles(s, start, end)
    ensures forall i, j :: 0 <= i < j < |s| ==> s[i].End() <= s[j].addr
    ensures forall i :: 0 <= i < |s| ==> start <= s[i].addr && s[i].End() <= end
  {
    forall i, j | 0 <= i < j < |s| ensures s[i].End() <= s[j].addr {
      OrderedPair(s, start, end, i, j);
    }
  }

  lemma TakeTiles(s: seq<Seg>, start: nat, end: nat, i: nat, size: nat)
    requires Tiles(s, start, end) && i < |s| && s[i].Fits(size)
    ensures Tiles(Take(s, i, size), start, end)
  {
    var t := Take(s, i, size);
    forall k | 0 <= k < |t| - 1 ensures Joined(t, k) {
      var j := if Splits(s[i].len, size) && k > i then k - 1 else k;
      assert j + 1 < |s| ==> Joined(s, j);
    }
  }

  lemma SplitTiles(s: seq<Seg>, start: nat, end: nat, i: nat, size: nat)
    requires Tiles(s, start, end) && i < |s|
    ensures Tiles(SplitAt(s, i, size), start, end)
  {
    var t := SplitAt(s, i, size);
    forall k | 0 <= k < |t| - 1 ensures Joined(t, k) {
      var j := if Splits(s[i].len, size) && k > i then k - 1 else k;
      assert j + 1 < |s| ==> Joined(s, j);
    }
  }

  lemma On16Mult(a: int)
    ensures On16(16 * a)
  {
  }

  lemma On16Sum(x: int, y: int)
    requires On16(x) && On16(y)
    ensures On16(x + y) && On16(x - y)
  {
    var a, b := x / 16, y / 16;
    assert x == 16 * a && y == 16 * b;
    On16Mult(a + b);
    On16Mult(a - b);
  }

  lemma RestAligned(addr: nat, len: nat, size: nat)
    requires On16(addr) && On16(len) && On16(size)
    ensures On16(addr + HDR + size) && On16(len - size - HDR)
  {
    assert On16(HDR);
    hide On16;
    On16Sum(addr, HDR);
    On16Sum(addr + HDR, size);
    On16Sum(len, size);
    On16Sum(len - size, HDR);
  }

  lemma CutAligned(x: Seg, size: nat)
    requires x.Aligned() && Splits(x.len, size) && On16(size)
    ensures Seg(x.addr, size, x.free).Aligned() && Seg(x.addr + HDR + size, x.len - size - HDR, x.free).Aligned()
  {
    RestAligned(x.addr, x.len, size);
  }

  lemma SplitAligned(s: seq<Seg>, i: nat, size: nat)
    requires Aligned(s) && i < |s| && On16(size)
    ensures Aligned(SplitAt(s, i, size))
  {
    var t := SplitAt(s, i, size);
    assert s[i].Aligned();
    if Splits(s[i].len, size) {
      CutAligned(s[i], size);
      hide Splits;
      forall k | 0 <= k < |t| ensures t[k].Aligned() {
        assert k < i ==> t[k] == s[k];
        assert k > i + 1 ==> t[k] == s[k - 1];
      }
    }
  }

  lemma TakeAligned(s: seq<Seg>, i: nat, size: nat)
    requires Aligned(s) && i < |s| && s[i].Fits(size) && size >= 16 && On16(size)
    ensures Aligned(Take(s, i, size))
  {
    var t := SplitAt(s, i, size);
    SplitAligned(s, i, size);
    TakeIsSplit(s, i, size);
    hide SplitAt, Take;
    assert t[i].Aligned();
  }

  lemma TakeNoFreePair(s: seq<Seg>, i: nat, size: nat)
    requires NoFreePair(s) && i < |s| && s[i].Fits(size)
    ensures NoFreePair(Take(s, i, size))
  {
    var t := Take(s, i, size);
    forall k | 0 <= k < |t| - 1 ensures !FreePair(t, k) {
      var j := if Splits(s[i].len, size) && k > i then k - 1 else k;
      assert j + 1 < |s| ==> !FreePair(s, j);
    }
  }

  lemma MergeTiles(s: seq<Seg>, start: nat, end: nat, i: nat)
    requires Tiles(s, start, end) && i < |s|
    ensures Tiles(Merge(s, i), start, end)
  {
    var t := Merge(s, i);
    if i + 1 < |s| && s[i + 1].free {
      assert Joined(s, i);
      forall k | 0 <= k < |t| - 1 ensures Joined(t, k) {
        assert Joined(s, if k < i then k else k + 1);
      }
    }
  }

  lemma MergeAligned(s: seq<Seg>, i: nat)
    requires Aligned(s) && i < |s|
    ensures Aligned(Merge(s, i))
  {
    var t := Merge(s, i);
    if i + 1 < |s| && s[i + 1].free {
      assert s[i].Aligned() && s[i + 1].Aligned();
      assert On16(HDR);
      hide On16;
      On16Sum(s[i].len, HDR);
      On16Sum(s[i].len + HDR, s[i + 1].len);
      forall k | 0 <= k < |t| ensures t[k].Aligned() {
        assert k < i ==> t[k] == s[k];
        assert k > i ==> t[k] == s[k + 1];
      }
    }
  }

  lemma ReleaseTiles(s: seq<Seg>, start: nat, end: nat, i: nat)
    requires Tiles(s, start, end) && i < |s|
    ensures Tiles(Release(s, i), start, end)
  {
    var s1 := s[i := s[i].(free := true)];
    forall k | 0 <= k < |s1| - 1 ensures Joined(s1, k) { assert Joined(s, k); }
    MergeTiles(s1, start, end, i);
    if i > 0 { MergeTiles(Merge(s1, i), start, end, i - 1); }
  }

  lemma ReleaseAligned(s: seq<Seg>, i: nat)
    requires Aligned(s) && i < |s|
    ensures Aligned(Release(s, i))
  {
    var s1 := s[i := s[i].(free := true)];
    assert s[i].Aligned();
    MergeAligned(s1, i);
    if i > 0 { MergeAligned(Merge(s1, i), i - 1); }
  }

  /** No free pair except possibly (i-1, i). */
  ghost predicate NoFreePairBut(s: seq<Seg>, i: nat) {
    forall k :: 0 <= k < |s| - 1 && k + 1 != i ==> !FreePair(s, k)
  }

  lemma MergeNoFreePairBut(s: seq<Seg>, i: nat)
    requires i < |s| && NoFreePair(s)
    ensures NoFreePairBut(Merge(s[i := s[i].(free := true)], i), i)
  {
    var s1 := s[i := s[i].(free := true)];
    var t := Merge(s1, i);
    forall k | 0 <= k < |t| - 1 && k + 1 != i ensures !FreePair(t, k) {
      var j := if k >= i && i + 1 < |s| && s[i + 1].free then k + 1 else k;
      assert !FreePair(s, j);
    }
  }

  lemma MergeBackNoFreePair(s: seq<Seg>, i: nat)
    requires i < |s| && s[i].free && NoFreePairBut(s, i)
    ensures NoFreePair(MergeBack(s, i))
  {
    var t := MergeBack(s, i);
    forall k | 0 <= k < |t| - 1 ensures !FreePair(t, k) {
      var j := if k >= i - 1 && i > 0 && s[i - 1].free then k + 1 else k;
      assert j + 1 != i ==> !FreePair(s, j);
    }
  }

  lemma ReleaseWellFormed(s: seq<Seg>, start: nat, end: nat, i: nat)
    requires WellFormed(s, start, end) && i < |s|
    ensures WellFormed(Release(s, i), start, end)
  {
    ReleaseTiles(s, start, end, i);
    ReleaseAligned(s, i);
    MergeNoFreePairBut(s, i);
    MergeBackNoFreePair(Merge(s[i := s[i].(free := true)], i), i);
  }

  function NewSeg(s: seq<Seg>, size: nat): Seg
    requires |s| > 0 && size >= 16
  {
    Seg(s[|s| - 1].End(), RoundPage(size) - HDR, true)
  }

  lemma AppendTiles(s: seq<Seg>, start: nat, end: nat, size: nat)
    requires Tiles(s, start, end) && size >= 16
    ensures Tiles(s + [NewSeg(s, size)], start, end + RoundPage(size))
  {
    var t := s + [NewSeg(s, size)];
    forall k | 0 <= k < |t| - 1 ensures Joined(t, k) { assert k + 1 < |s| ==> Joined(s, k); }
  }

  lemma PageAligned(size: nat)
    requires size >= 16
    ensures RoundPage(size) >= PAGE && On16(RoundPage(size) - HDR)
  {
    var r := RoundPage(size);
    assert r % PAGE == 0 && r > 0;
    hide RoundPage;
    assert r - HDR == 16 * (256 * (r / PAGE) - 2);
    On16Mult(256 * (r / PAGE) - 2);
  }

  lemma EndAligned(x: Seg)
    requires x.Aligned()
    ensures On16(x.End())
  {
    assert On16(HDR);
    hide On16;
    On16Sum(x.addr, HDR);
    On16Sum(x.addr + HDR, x.len);
  }

  lemma AppendAligned(s: seq<Seg>, size: nat)
    requires |s| > 0 && Aligned(s) && size >= 16
    ensures Aligned(s + [NewSeg(s, size)])
  {
    var t := s + [NewSeg(s, size)];
    assert s[|s| - 1].Aligned();
    PageAligned(size);
    EndAligned(s[|s| - 1]);
    hide RoundPage;
    assert t[|s|].Aligned();
    assert forall k :: 0 <= k < |s| ==> t[k] == s[k];
  }

  lemma GrowTiles(s: seq<Seg>, start: nat, end: nat, size: nat)
    requires Tiles(s, start, end) && size >= 16
    ensures Tiles(Grow(s, size), start, end + RoundPage(size))
  {
    AppendTiles(s, start, end, size);
    MergeTiles(s + [NewSeg(s, size)], start, end + RoundPage(size), |s| - 1);
  }

  lemma GrowAligned(s: seq<Seg>, size: nat)
    requires |s| > 0 && Aligned(s) && size >= 16
    ensures Aligned(Grow(s, size))
  {
    AppendAligned(s, size);
    MergeAligned(s + [NewSeg(s, size)], |s| - 1);
  }

  lemma GrowNoFreePair(s: seq<Seg>, size: nat)
    requires |s| > 0 && NoFreePair(s) && size >= 16
    ensures NoFreePair(Grow(s, size))
  {
    var s1 := s + [NewSeg(s, size)];
    forall k | 0 <= k < |s1| - 1 && k + 1 != |s| ensures !FreePair(s1, k) { assert !FreePair(s, k); }
    MergeBackNoFreePair(s1, |s|);
  }

  /** One growth always brings the request one step nearer to being met. */
  lemma GrowDeficit(s: seq<Seg>, size: nat)
    requires |s| > 0 && size >= 16 && Deficit(s, size) > 0
    ensures Grow(s, size) != [] && Deficit(Grow(s, size), size) == Deficit(s, size) - 1
  {
    var n, t := |s|, Grow(s, size);
    if s[n - 1].free {
      assert t == s[..n - 1] + [Seg(s[n - 1].addr, s[n - 1].len + RoundPage(size), true)];
    } else {
      assert t == s + [NewSeg(s, size)];
    }
    assert forall k :: 0 <= k < |t| - 1 ==> t[k] == s[k];
    assert t[|t| - 1].free;
  }

  lemma GrowWellFormed(s: seq<Seg>, start: nat, end: nat, size: nat)
    requires WellFormed(s, start, end) && size >= 16
    ensures WellFormed(Grow(s, size), start, end + RoundPage(size))
    ensures Deficit(s, size) > 0 ==> Deficit(Grow(s, size), size) == Deficit(s, size) - 1
  {
    GrowTiles(s, start, end, size);
    GrowAligned(s, size);
    GrowNoFreePair(s, size);
    if Deficit(s, size) > 0 { GrowDeficit(s, size); }
  }

  // ----- what a client sees

  /** Blocks handed out never overlap. */
  lemma LiveDisjoint(s: seq<Seg>, start: nat, end: nat, b: (nat, nat), c: (nat, nat))
    requires Tiles(s, start, end) && b in Live(s) && c in Live(s) && b != c
    ensures b.0 + b.1 <= c.0 || c.0 + c.1 <= b.0
  {
    Ordered(s, start, end);
  }

  /** Live is a union over any way of cutting the sequence. */
  lemma LiveConcat(s: seq<Seg>, t: seq<Seg>)
    ensures Live(s + t) == Live(s) + Live(t)
  {
    var u := s + t;
    assert forall k :: 0 <= k < |s| ==> u[k] == s[k];
    assert forall k :: 0 <= k < |t| ==> u[|s| + k] == t[k];
    forall b | b in Live(u) ensures b in Live(s) || b in Live(t) {
      var k :| 0 <= k < |u| && !u[k].free && b == (u[k].addr + HDR, u[k].len);
      if k >= |s| { assert u[k] == t[k - |s|]; }
    }
    forall b | b in Live(s) ensures b in Live(u) {
      var k :| 0 <= k < |s| && !s[k].free && b == (s[k].addr + HDR, s[k].len);
      assert u[k] == s[k];
    }
    forall b | b in Live(t) ensures b in Live(u) {
      var k :| 0 <= k < |t| && !t[k].free && b == (t[k].addr + HDR, t[k].len);
      assert u[|s| + k] == t[k];
    }
    hide Live;
  }

  lemma LiveSplice(s: seq<Seg>, i: nat, j: nat, mid: seq<Seg>)
    requires i <= j <= |s|
    ensures Live(s[..i] + mid + s[j..]) == Live(s[..i]) + Live(mid) + Live(s[j..])
    ensures Live(s) == Live(s[..i]) + Live(s[i..j]) + Live(s[j..])
  {
    LiveConcat(s[..i] + mid, s[j..]);
    LiveConcat(s[..i], mid);
    LiveConcat(s[..j], s[j..]);
    LiveConcat(s[..i], s[i..j]);
    assert s == s[..j] + s[j..] && s[..j] == s[..i] + s[i..j];
  }

  lemma TakeLive(s: seq<Seg>, i: nat, size: nat)
    requires i < |s| && s[i].Fits(size)
    ensures var len := if Splits(s[i].len, size) then size else s[i].len;
            Live(Take(s, i, size)) == Live(s) + {(s[i].addr + HDR, len)}
  {
    var x := s[i];
    if Splits(x.len, size) {
      var used, rest := Seg(x.addr, size, false), Seg(x.addr + HDR + size, x.len - size - HDR, true);
      assert [used] + [rest] == [used, rest];
      assert Take(s, i, size) == s[..i] + ([used] + [rest]) + s[i + 1..];
      hide Take, Live, Splits;
      SpliceLive(s, i, used, [rest]);
    } else {
      var used := x.(free := false);
      assert [used] + [] == [used];
      assert Take(s, i, size) == s[..i] + ([used] + []) + s[i + 1..];
      hide Take, Live, Splits;
      SpliceLive(s, i, used, []);
    }
  }

  /** A free segment replaced by a used one and free ones. */
  lemma SpliceLive(s: seq<Seg>, i: nat, used: Seg, rest: seq<Seg>)
    requires i < |s| && s[i].free && !used.free && forall k :: 0 <= k < |rest| ==> rest[k].free
    ensures Live(s[..i] + ([used] + rest) + s[i + 1..]) == Live(s) + {(used.addr + HDR, used.len)}
  {
    NoLive(s, i);
    OneLive(used, rest);
    hide Live;
    LiveSplice(s, i, i + 1, [used] + rest);
    AddOne(Live(s[..i]), Live(s[i + 1..]), (used.addr + HDR, used.len));
  }

  lemma AddOne(a: set<(nat, nat)>, c: set<(nat, nat)>, x: (nat, nat))
    ensures a + {x} + c == (a + {} + c) + {x}
  {
  }

  lemma NoLive(s: seq<Seg>, i: nat)
    requires i < |s| && s[i].free
    ensures Live(s[i..i + 1]) == {}
  {
  }

  lemma OneLive(used: Seg, rest: seq<Seg>)
    requires !used.free && forall k :: 0 <= k < |rest| ==> rest[k].free
    ensures Live([used] + rest) == {(used.addr + HDR, used.len)}
  {
    var t := [used] + rest;
    assert t[0] == used && forall k :: 1 <= k < |t| ==> t[k] == rest[k - 1];
  }

  lemma MergeLive(s: seq<Seg>, i: nat)
    requires i < |s| && s[i].free
    ensures Live(Merge(s, i)) == Live(s)
  {
    if i + 1 < |s| && s[i + 1].free {
      LiveSplice(s, i, i + 2, [s[i].(len := s[i].len + HDR + s[i + 1].len)]);
    }
  }

  lemma ReleaseLive(s: seq<Seg>, start: nat, end: nat, i: nat)
    requires Tiles(s, start, end) && i < |s| && !s[i].free
    ensures Live(Release(s, i)) == Live(s) - {(s[i].addr + HDR, s[i].len)}
  {
    var s1 := s[i := s[i].(free := true)];
    Ordered(s, start, end);
    assert forall k :: 0 <= k < |s| && k != i ==> s1[k] == s[k];
    assert Live(s1) == Live(s) - {(s[i].addr + HDR, s[i].len)};
    MergeLive(s1, i);
    if i > 0 && s[i - 1].free { MergeLive(Merge(s1, i), i - 1); }
  }

  lemma GrowLive(s: seq<Seg>, size: nat)
    requires |s| > 0 && size >= 16
    ensures Live(Grow(s, size)) == Live(s)
  {
    var t := s + [NewSeg(s, size)];
    LiveConcat(s, [NewSeg(s, size)]);
    if s[|s| - 1].free { MergeLive(t, |s| - 1); }
  }

  /** Once every block is freed, coalescing has restored one segment over the whole heap. */
  lemma AllFreedIsOneSegment(s: seq<Seg>, start: nat, end: nat)
    requires WellFormed(s, start, end) && Live(s) == {}
    ensures end >= start + HDR && s == [Seg(start, end - start - HDR, true)]
  {
    forall i | 0 <= i < |s| ensures s[i].free {
      var b := (s[i].addr + HDR, s[i].len);
      assert b !in Live(s);
    }
    if |s| > 1 {
      SomeUsed(s);
      assert false;
    }
  }

  lemma SomeUsed(s: seq<Seg>)
    requires NoFreePair(s) && |s| > 1
    ensures exists i :: 0 <= i < |s| && !s[i].free
  {
    assert !FreePair(s, 0);
  }

  // ----- whole allocations and whole runs

  /** `nullStore` records that the segment split was the last one, whose Next is null. */
  datatype Alloc = Alloc(segs: seq<Seg>, end: nat, index: nat, growths: nat, nullStore: bool) {
    function Block(): (nat, nat)
      requires index < |segs|
    {
      (segs[index].addr + HDR, segs[index].len)
    }
  }

  /** malloc after rounding: first fit, or grow and try again. */
  ghost function Allocate(s: seq<Seg>, start: nat, end: nat, size: nat): Alloc
    requires WellFormed(s, start, end) && size >= 16 && On16(size)
    decreases Deficit(s, size)
  {
    var k := FirstFit(s, size);
    if k < |s| then Alloc(Take(s, k, size), end, k, 0, k == |s| - 1 && Splits(s[k].len, size))
    else
      GrowWellFormed(s, start, end, size);
      var r := Allocate(Grow(s, size), start, end + RoundPage(size), size);
      r.(growths := r.growths + 1)
  }

  /** What the caller of malloc gets: a new 16-aligned block of at least `size` bytes, with
      every block held before still held and unchanged. */
  ghost predicate Grants(s: seq<Seg>, size: nat, r: Alloc) {
    && r.index < |r.segs|
    && size <= r.Block().1 && On16(r.Block().0)
    && r.Block() !in Live(s) && Live(r.segs) == Live(s) + {r.Block()}
  }

  /** No block that could have been split off is wasted. */
  ghost predicate Tight(size: nat, r: Alloc) {
    r.index < |r.segs| && r.Block().1 < size + HDR + 16
  }

  /** A rounded request served is the request served. */
  lemma GrantsRequest(s: seq<Seg>, size: nat, r: Alloc)
    requires size < WORD64 && Servable(size) && Grants(s, Round16(size), r) && Tight(Round16(size), r)
    ensures Grants(s, size, r) && r.Block().1 < size + HDR + 32
  {
    hide Round16, Live;
  }

  lemma TakeGrants(s: seq<Seg>, start: nat, end: nat, size: nat, k: nat, nullStore: bool)
    requires Tiles(s, start, end) && Aligned(s) && k < |s| && s[k].Fits(size) && size >= 16
    ensures Grants(s, size, Alloc(Take(s, k, size), end, k, 0, nullStore))
    ensures Tight(size, Alloc(Take(s, k, size), end, k, 0, nullStore))
  {
    var t := Take(s, k, size);
    assert t[k].addr == s[k].addr && t[k].len >= size;
    assert t[k].len == (if Splits(s[k].len, size) then size else s[k].len);
    assert s[k].Aligned();
    assert On16(s[k].addr + HDR);
    FreeIsNotLive(s, start, end, k);
    TakeLive(s, k, size);
  }

  lemma FreeIsNotLive(s: seq<Seg>, start: nat, end: nat, k: nat)
    requires Tiles(s, start, end) && k < |s| && s[k].free
    ensures forall b :: b in Live(s) ==> b.0 != s[k].addr + HDR
  {
    Ordered(s, start, end);
  }

  lemma TakeWellFormed(s: seq<Seg>, start: nat, end: nat, k: nat, size: nat)
    requires WellFormed(s, start, end) && k < |s| && s[k].Fits(size) && size >= 16 && On16(size)
    ensures WellFormed(Take(s, k, size), start, end)
  {
    TakeTiles(s, start, end, k, size);
    TakeAligned(s, k, size);
    TakeNoFreePair(s, k, size);
  }

  /** malloc grows the heap exactly as often as needed, at most twice. */
  lemma {:induction false} AllocateSpec(s: seq<Seg>, start: nat, end: nat, size: nat)
    requires WellFormed(s, start, end) && size >= 16 && On16(size)
    ensures var r := Allocate(s, start, end, size);
            && r.growths == Deficit(s, size) <= 2
            && WellFormed(r.segs, start, r.end) && r.end >= end
            && Grants(s, size, r) && Tight(size, r)
    decreases Deficit(s, size)
  {
    hide On16, Allocate, FirstFit, Deficit, Grow, WellFormed, RoundPage, Grants, Tight, Take, Live, Splits, Tiles, Aligned;
    AllocateUnfold(s, start, end, size);
    WellFormedParts(s, start, end);
    var k, r := FirstFit(s, size), Allocate(s, start, end, size);
    if k < |s| {
      TakeWellFormed(s, start, end, k, size);
      TakeGrants(s, start, end, size, k, r.nullStore);
    } else {
      GrowLive(s, size);
      AllocateSpec(Grow(s, size), start, end + RoundPage(size), size);
      GrantsSame(s, Grow(s, size), size, r, Allocate(Grow(s, size), start, end + RoundPage(size), size));
    }
  }

  lemma WellFormedParts(s: seq<Seg>, start: nat, end: nat)
    requires WellFormed(s, start, end)
    ensures |s| > 0 && Tiles(s, start, end) && Aligned(s) && NoFreePair(s)
  {
  }

  /** One turn of malloc's recursion. */
  lemma AllocateUnfold(s: seq<Seg>, start: nat, end: nat, size: nat)
    requires WellFormed(s, start, end) && size >= 16 && On16(size)
    ensures var k, r := FirstFit(s, size), Allocate(s, start, end, size);
            if k < |s| then
              s[k].Fits(size) && Deficit(s, size) == 0 && r == Alloc(Take(s, k, size), end, k, 0, k == |s| - 1 && Splits(s[k].len, size))
            else
              && 1 <= Deficit(s, size) <= 2 && WellFormed(Grow(s, size), start, end + RoundPage(size))
              && Deficit(Grow(s, size), size) == Deficit(s, size) - 1
              && var r' := Allocate(Grow(s, size), start, end + RoundPage(size), size); r == r'.(growths := r'.growths + 1)
  {
    if FirstFit(s, size) >= |s| { GrowWellFormed(s, start, end, size); }
    hide Grow, Take, Splits, On16;
  }

  lemma GrantsSame(s: seq<Seg>, g: seq<Seg>, size: nat, r: Alloc, r': Alloc)
    requires Live(g) == Live(s) && Grants(g, size, r') && Tight(size, r') && r == r'.(growths := r'.growths + 1)
    ensures Grants(s, size, r) && Tight(size, r)
  {
    hide Live;
  }

  lemma AllocateHit(s: seq<Seg>, start: nat, end: nat, size: nat, k: nat)
    requires WellFormed(s, start, end) && size >= 16 && On16(size)
    requires k < |s| && s[k].Fits(size) && forall j :: 0 <= j < k ==> !s[j].Fits(size)
    ensures Allocate(s, start, end, size)
         == Alloc(Take(s, k, size), end, k, 0, k == |s| - 1 && Splits(s[k].len, size))
    ensures k < |Take(s, k, size)| && Take(s, k, size)[k].addr == s[k].addr
  {
    assert FirstFit(s, size) == k;
  }

  lemma AllocateMiss(s: seq<Seg>, start: nat, end: nat, size: nat)
    requires WellFormed(s, start, end) && size >= 16 && On16(size)
    requires forall j :: 0 <= j < |s| ==> !s[j].Fits(size)
    ensures WellFormed(Grow(s, size), start, end + RoundPage(size))
    ensures Deficit(Grow(s, size), size) < Deficit(s, size)
    ensures var r := Allocate(Grow(s, size), start, end + RoundPage(size), size);
            Allocate(s, start, end, size) == r.(growths := r.growths + 1) && r.end >= end + RoundPage(size)
    ensures Live(Grow(s, size)) == Live(s)
  {
    assert FirstFit(s, size) == |s|;
    GrowWellFormed(s, start, end, size);
    GrowLive(s, size);
    AllocateSpec(Grow(s, size), start, end + RoundPage(size), size);
  }

  /** Payload of the last segment at the moment a request that reaches it is met. */
  function FinalLast(s: seq<Seg>, size: nat): nat
    requires |s| > 0 && size >= 16
  {
    var last, page := s[|s| - 1], RoundPage(size);
    if FirstFit(s, size) < |s| then last.len
    else if last.free then last.len + page
    else if page - HDR >= size then page - HDR
    else 2 * page - HDR
  }

  lemma GrowLast(s: seq<Seg>, size: nat)
    requires |s| > 0 && size >= 16
    ensures var t := Grow(s, size);
            && |t| > 0 && |s| <= |t| <= |s| + 1 && t[|t| - 1].free
            && t[|t| - 1].len == (if s[|s| - 1].free then s[|s| - 1].len + RoundPage(size) else RoundPage(size) - HDR)
            && forall k :: 0 <= k < |t| - 1 ==> t[k] == s[k]
  {
  }

  /** malloc stores through a null Next exactly when it splits the last segment: when no
      earlier segment fits and the last one, after any growth, is large enough to split. */
  lemma {:induction false} NullStoreExact(s: seq<Seg>, start: nat, end: nat, size: nat)
    requires WellFormed(s, start, end) && size >= 16 && On16(size)
    ensures Allocate(s, start, end, size).nullStore
       <==> FirstFit(s, size) >= |s| - 1 && Splits(FinalLast(s, size), size)
    decreases Deficit(s, size)
  {
    if FirstFit(s, size) == |s| {
      hide Grow;
      GrowWellFormed(s, start, end, size);
      GrowLast(s, size);
      NullStoreExact(Grow(s, size), start, end + RoundPage(size), size);
    }
  }

  lemma OneSegment(start: nat, length: nat)
    requires On16(start) && On16(length) && length >= HDR + 16
    ensures WellFormed([Seg(start, length - HDR, true)], start, start + length)
  {
    RestAligned(start, length, 0);
    assert Seg(start, length - HDR, true).Aligned();
  }

  lemma SingleNullStore(s: seq<Seg>, start: nat, end: nat, size: nat)
    requires WellFormed(s, start, end) && size >= 16 && On16(size)
    requires |s| == 1 && s[0].Fits(size) && Splits(s[0].len, size)
    ensures Allocate(s, start, end, size).nullStore
  {
    hide WellFormed, Allocate, Take, On16;
    AllocateHit(s, start, end, size, 0);
  }

  /** The very first malloc on a new heap already does so. */
  lemma FirstMallocStoresThroughNull(start: nat, length: nat, size: nat)
    requires On16(start) && On16(length) && On16(size) && 16 <= size <= length - 2 * HDR - 16
    ensures var s := [Seg(start, length - HDR, true)];
            WellFormed(s, start, start + length) && Allocate(s, start, start + length, size).nullStore
  {
    hide WellFormed, Allocate, On16;
    OneSegment(start, length);
    SingleNullStore([Seg(start, length - HDR, true)], start, start + length, size);
  }

  datatype Op = Malloc(size: nat) | Free(addr: nat)

  datatype State = State(segs: seq<Seg>, end: nat)

  /** `addr` was returned by malloc and not freed since. */
  ghost predicate Holds(s: seq<Seg>, addr: nat) {
    exists i :: 0 <= i < |s| && !s[i].free && s[i].addr + HDR == addr
  }

  ghost function HeldAt(s: seq<Seg>, addr: nat): (i: nat)
    requires Holds(s, addr)
    ensures i < |s| && !s[i].free && s[i].addr + HDR == addr
  {
    var i :| 0 <= i < |s| && !s[i].free && s[i].addr + HDR == addr;
    i
  }

  /** The calls a correct client may make: sizes of size_t, and frees of blocks it holds. */
  ghost predicate Legal(s: State, op: Op) {
    match op
    case Malloc(size) => size < WORD64
    case Free(addr) => Holds(s.segs, addr)
  }

  ghost function Step(s: State, start: nat, op: Op): State
    requires WellFormed(s.segs, start, s.end) && Legal(s, op)
  {
    match op
    case Malloc(size) =>
      var n := Round16(size);
      if n == 0 then s
      else var r := Allocate(s.segs, start, s.end, n); State(r.segs, r.end)
    case Free(addr) => State(Release(s.segs, HeldAt(s.segs, addr)), s.end)
  }

  lemma ReleaseTakesOne(s: seq<Seg>, start: nat, end: nat, i: nat)
    requires WellFormed(s, start, end) && i < |s| && !s[i].free
    ensures forall b :: b in Live(Release(s, i)) <==> b in Live(s) && b.0 != s[i].addr + HDR
  {
    ReleaseLive(s, start, end, i);
    SameAddrSameBlock(s, start, end, i);
  }

  /** t holds what s holds and one block more, new, aligned and at least `size` bytes long. */
  ghost predicate OneMore(s: seq<Seg>, t: seq<Seg>, size: nat) {
    exists b :: b !in Live(s) && Live(t) == Live(s) + {b} && size <= b.1 < size + HDR + 32 && On16(b.0)
  }

  /** Each legal call keeps the heap well formed. malloc of a size it can serve adds one block of at
      least that size, of any other size nothing; free takes away the block at its address. */
  lemma StepKeeps(s: State, start: nat, op: Op)
    requires WellFormed(s.segs, start, s.end) && Legal(s, op)
    ensures var t := Step(s, start, op);
            && WellFormed(t.segs, start, t.end)
            && (op.Malloc? ==> if Servable(op.size) then OneMore(s.segs, t.segs, op.size) else t == s)
            && (op.Free? ==> forall b :: b in Live(t.segs) <==> b in Live(s.segs) && b.0 != op.addr)
  {
    hide WellFormed, Allocate, Release, Live;
    if op.Malloc? {
      var n := Round16(op.size);
      hide Round16, Grants, Tight;
      if n != 0 {
        AllocateSpec(s.segs, start, s.end, n);
        GrantsRequest(s.segs, op.size, Allocate(s.segs, start, s.end, n));
        GrantsOneMore(s.segs, op.size, Allocate(s.segs, start, s.end, n));
      }
    } else {
      var i := HeldAt(s.segs, op.addr);
      ReleaseWellFormed(s.segs, start, s.end, i);
      ReleaseTakesOne(s.segs, start, s.end, i);
    }
  }

  lemma GrantsOneMore(s: seq<Seg>, size: nat, r: Alloc)
    requires Grants(s, size, r) && r.Block().1 < size + HDR + 32
    ensures OneMore(s, r.segs, size)
  {
    hide Live, On16;
    var b := r.Block();
    assert b !in Live(s) && Live(r.segs) == Live(s) + {b};
  }

  lemma SameAddrSameBlock(s: seq<Seg>, start: nat, end: nat, i: nat)
    requires Tiles(s, start, end) && i < |s| && !s[i].free
    ensures forall b :: b in Live(s) && b.0 == s[i].addr + HDR ==> b == (s[i].addr + HDR, s[i].len)
  {
    Ordered(s, start, end);
  }

  /** The calls are legal one after the other and the heap never ends beyond limit. */
  ghost predicate LegalRun(s: State, start: nat, ops: seq<Op>, limit: nat)
    decreases |ops|
  {
    ops != [] ==>
      && WellFormed(s.segs, start, s.end) && Legal(s, ops[0]) && Step(s, start, ops[0]).end <= limit
      && LegalRun(Step(s, start, ops[0]), start, ops[1..], limit)
  }

  ghost function RunFrom(s: State, start: nat, ops: seq<Op>, limit: nat): State
    requires LegalRun(s, start, ops, limit)
    decreases |ops|
  {
    if ops == [] then s else RunFrom(Step(s, start, ops[0]), start, ops[1..], limit)
  }

  /** The blocks held from before the first call to after the last. */
  ghost function HeldThroughout(s: State, start: nat, ops: seq<Op>, limit: nat): set<(nat, nat)>
    requires LegalRun(s, start, ops, limit)
    decreases |ops|
  {
    if ops == [] then Live(s.segs) else Live(s.segs) * HeldThroughout(Step(s, start, ops[0]), start, ops[1..], limit)
  }

  lemma HeldNow(s: State, start: nat, ops: seq<Op>, limit: nat)
    requires LegalRun(s, start, ops, limit)
    ensures HeldThroughout(s, start, ops, limit) <= Live(s.segs)
  {
  }

  /** A run from CreateHeap(start, pages) through any legal calls. */
  ghost predicate IsRun(states: seq<State>, ops: seq<Op>, start: nat, pages: nat) {
    && |states| == |ops| + 1 && pages > 0 && On16(start)
    && states[0] == State([Seg(start, pages * PAGE - HDR, true)], start + pages * PAGE)
    && forall i :: 0 <= i < |ops| ==> IsStep(states[i], ops[i], states[i + 1], start)
  }

  ghost predicate IsStep(s: State, op: Op, t: State, start: nat) {
    WellFormed(s.segs, start, s.end) ==> Legal(s, op) && t == Step(s, start, op)
  }

  lemma PagesAligned(pages: nat)
    requires pages > 0
    ensures On16(pages * PAGE) && pages * PAGE >= PAGE
  {
    var x := pages * PAGE;
    assert x == 16 * (256 * pages) && x >= PAGE;
    On16Mult(256 * pages);
  }

  lemma {:induction false} RunWellFormed(states: seq<State>, ops: seq<Op>, start: nat, pages: nat)
    requires IsRun(states, ops, start, pages)
    ensures WellFormed(states[|ops|].segs, start, states[|ops|].end)
  {
    if |ops| > 0 {
      var n := |ops| - 1;
      assert IsStep(states[n], ops[n], states[n + 1], start);
      assert IsRun(states[..n + 1], ops[..n], start, pages);
      RunWellFormed(states[..n + 1], ops[..n], start, pages);
      StepKeeps(states[n], start, ops[n]);
    } else {
      PagesAligned(pages);
      OneSegment(start, pages * PAGE);
    }
  }

  /** Every run: the heap stays tiled and coalesced, and when the client holds nothing the
      heap is one free segment again. */
  lemma RunSafe(states: seq<State>, ops: seq<Op>, start: nat, pages: nat)
    requires IsRun(states, ops, start, pages)
    ensures var s := states[|ops|];
            && WellFormed(s.segs, start, s.end)
            && (Live(s.segs) == {} ==> s.end >= start + HDR && s.segs == [Seg(start, s.end - start - HDR, true)])
  {
    var s := states[|ops|];
    RunWellFormed(states, ops, start, pages);
    if Live(s.segs) == {} { AllFreedIsOneSegment(s.segs, start, s.end); }
  }
}
