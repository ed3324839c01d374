/** The kernel heap as the code keeps it: headers stored in the heap's own memory, doubly
    linked by address, with `segs` as the ghost reading of that list. Memory is a map from
    address to the word stored there; its domain is the mapped part of the address space. */
module Heap {
  import opened Common
  import opened HeapSpec

  // Field offsets inside a HeapSegmentHeader: Length at 0.
  const NEXT: nat := 8
  const LAST: nat := 16
  const ISFREE: nat := 24

  type Memory = map<int, int>

  /** The four header fields stored at address a. */
  ghost predicate Fields(mem: Memory, a: nat, len: nat, next: nat, last: nat, free: bool) {
    && a in mem && mem[a] == len
    && a + NEXT in mem && mem[a + NEXT] == next
    && a + LAST in mem && mem[a + LAST] == last
    && a + ISFREE in mem && mem[a + ISFREE] == (if free then 1 else 0)
  }

  ghost function NextOf(s: seq<Seg>, i: nat): nat {
    if i + 1 < |s| then s[i + 1].addr else 0
  }

  ghost function LastOf(s: seq<Seg>, i: nat): nat
    requires i < |s|
  {
    if i > 0 then s[i - 1].addr else 0
  }

  ghost predicate HeaderAt(mem: Memory, s: seq<Seg>, i: nat)
    requires i < |s|
  {
    Fields(mem, s[i].addr, s[i].len, NextOf(s, i), LastOf(s, i), s[i].free)
  }

  /** The headers in memory spell out exactly the segment list s. */
  ghost predicate Encodes(mem: Memory, s: seq<Seg>) {
    forall i :: 0 <= i < |s| ==> HeaderAt(mem, s, i)
  }

  ghost predicate Mapped(mem: Memory, start: nat, end: nat) {
    forall a :: a in mem <==> start <= a < end
  }

  /** No byte of a held block differs between the two memories. */
  ghost predicate SamePayload(live: set<(nat, nat)>, m: Memory, n: Memory) {
    forall b, a :: b in live && b.0 <= a < b.0 + b.1 ==> a in m && a in n && m[a] == n[a]
  }

  lemma SamePayloadTrans(live: set<(nat, nat)>, m: Memory, n: Memory, k: Memory)
    requires SamePayload(live, m, n) && SamePayload(live, n, k)
    ensures SamePayload(live, m, k)
  {
  }

  lemma SameMemory(start: nat, end: nat, last: nat, m: Memory, s: seq<Seg>)
    requires Describes(start, end, last, m, s)
    ensures SamePayload(Live(s), m, m)
  {
    Ordered(s, start, end);
  }

  /** n differs from m only in [p, p') and [q, q'). */
  ghost predicate Keeps(m: Memory, n: Memory, p: nat, p': nat, q: nat, q': nat) {
    forall a :: a in m && !(p <= a < p') && !(q <= a < q') ==> a in n && n[a] == m[a]
  }

  /** Segment k, if it is held, has no payload byte in [p, p'). */
  ghost predicate OffRange(s: seq<Seg>, k: nat, p: nat, p': nat)
    requires k < |s|
  {
    s[k].free || s[k].End() <= p || p' <= s[k].addr + HDR
  }

  ghost predicate AllOff(s: seq<Seg>, p: nat, p': nat) {
    forall k :: 0 <= k < |s| ==> OffRange(s, k, p, p')
  }

  lemma KeepsPayload(s: seq<Seg>, start: nat, end: nat, m: Memory, n: Memory, p: nat, p': nat, q: nat, q': nat)
    requires Tiles(s, start, end) && Mapped(m, start, end) && Keeps(m, n, p, p', q, q')
    requires AllOff(s, p, p') && AllOff(s, q, q')
    ensures SamePayload(Live(s), m, n)
  {
    forall b, a | b in Live(s) && b.0 <= a < b.0 + b.1 ensures a in m && a in n && m[a] == n[a] {
      var k :| 0 <= k < |s| && !s[k].free && b == (s[k].addr + HDR, s[k].len);
      assert OffRange(s, k, p, p') && OffRange(s, k, q, q');
      AddrInHeap(s, start, end, k);
    }
  }

  /** No held block has a byte in a header, and none has one in a free segment. */
  lemma OffHeader(s: seq<Seg>, start: nat, end: nat, i: nat)
    requires Tiles(s, start, end) && i < |s|
    ensures AllOff(s, s[i].addr, s[i].addr + HDR)
  {
    var p, p' := s[i].addr, s[i].addr + HDR;
    forall k | 0 <= k < |s| ensures OffRange(s, k, p, p') {
      if k < i { OrderedPair(s, start, end, k, i); } else if i < k { OrderedPair(s, start, end, i, k); }
    }
  }

  lemma OffFree(s: seq<Seg>, start: nat, end: nat, i: nat)
    requires Tiles(s, start, end) && i < |s| && s[i].free
    ensures AllOff(s, s[i].addr, s[i].End())
  {
    forall k | 0 <= k < |s| ensures OffRange(s, k, s[i].addr, s[i].End()) {
      if k < i { OrderedPair(s, start, end, k, i); } else if i < k { OrderedPair(s, start, end, i, k); }
    }
  }

  lemma OffNothing(s: seq<Seg>)
    ensures AllOff(s, 0, 0)
  {
  }

  /** A store into a header leaves every held block as it was. */
  lemma HeaderStore(s: seq<Seg>, start: nat, end: nat, m: Memory, i: nat, d: nat, v: nat)
    requires Tiles(s, start, end) && Mapped(m, start, end) && i < |s| && d < HDR
    ensures SamePayload(Live(s), m, m[s[i].addr + d := v])
    ensures Mapped(m[s[i].addr + d := v], start, end)
  {
    Ordered(s, start, end);
  }

  /** C's conversion of a size_t difference to int64_t. */
  function AsInt64(x: int): int {
    var u := x % WORD64;
    if u > INT64_MAX then u - WORD64 else u
  }

  /** Globals and memory together describe the segment list s. */
  ghost predicate Describes(start: nat, end: nat, last: nat, mem: Memory, s: seq<Seg>) {
    && start > 0 && Tiles(s, start, end) && Aligned(s) && end - start <= INT64_MAX
    && Mapped(mem, start, end) && Encodes(mem, s)
    && last == s[|s| - 1].addr
  }

  function EmptyPage(at: nat, n: nat): (r: Memory)
    ensures forall a :: a in r <==> at <= a < at + n
  {
    if n == 0 then map[] else EmptyPage(at, n - 1)[at + n - 1 := 0]
  }

  class KernelHeap {
    var heapStart: nat
    var heapEnd: nat
    var lastHdr: nat
    var mem: Memory
    var nullStores: nat       // stores executed through a null Next
    ghost var segs: seq<Seg>

    ghost predicate Linked()
      reads this
    {
      Describes(heapStart, heapEnd, lastHdr, mem, segs)
    }

    ghost predicate Valid(): (v: bool)
      reads this
      ensures v ==> WellFormed(segs, heapStart, heapEnd)
    {
      Linked() && NoFreePair(segs)
    }

    method SegmentHeaderCombineForward(hdr: nat, ghost i: nat)
      requires Linked() && i < |segs| && segs[i].addr == hdr
      modifies this`lastHdr, this`mem, this`segs
      ensures Linked() && segs == Merge(old(segs), i)
      ensures SamePayload(Live(old(segs)), old(mem), mem)
    {
      hide Describes, SamePayload;
      SameMemory(heapStart, heapEnd, lastHdr, mem, segs);
      HeaderFacts(heapStart, heapEnd, lastHdr, mem, segs, i);
      var next := mem[hdr + NEXT];
      if next != 0 {
        HeaderFacts(heapStart, heapEnd, lastHdr, mem, segs, i + 1);
        if mem[next + ISFREE] != 0 {
          var after, len := mem[next + NEXT], mem[hdr] + mem[next] + HDR;
          MergeStep(heapStart, heapEnd, lastHdr, mem, segs, i, hdr, next, after, len);
          segs := Merge(segs, i);
          lastHdr := if next == lastHdr then hdr else lastHdr;
          if after != 0 { mem := mem[after + LAST := hdr]; }
          mem := mem[hdr := len];
          mem := mem[hdr + NEXT := after];
        }
      }
    }

    method SegmentHeaderCombineBackward(hdr: nat, ghost i: nat)
      requires Linked() && i < |segs| && segs[i].addr == hdr && segs[i].free
      modifies this`lastHdr, this`mem, this`segs
      ensures Linked() && segs == MergeBack(old(segs), i)
      ensures SamePayload(Live(old(segs)), old(mem), mem)
    {
      hide Describes, SamePayload, Merge;
      SameMemory(heapStart, heapEnd, lastHdr, mem, segs);
      HeaderFacts(heapStart, heapEnd, lastHdr, mem, segs, i);
      var last := mem[hdr + LAST];
      if last != 0 {
        HeaderFacts(heapStart, heapEnd, lastHdr, mem, segs, i - 1);
        if mem[last + ISFREE] != 0 { SegmentHeaderCombineForward(last, i - 1); }
      }
    }

    /** The store through `Next` at Heap.cpp:136 is counted, not performed, when Next is null. */
    method SegmentHeaderSplit(hdr: nat, length: nat, ghost i: nat) returns (newHdr: nat)
      requires Linked() && i < |segs| && segs[i].addr == hdr && segs[i].free
      requires length <= segs[i].len && On16(length)
      modifies this`lastHdr, this`mem, this`segs, this`nullStores
      ensures Linked() && segs == SplitAt(old(segs), i, length)
      ensures newHdr == 0 <==> !Splits(old(segs[i].len), length)
      ensures SamePayload(Live(old(segs)), old(mem), mem)
      ensures nullStores == old(nullStores) + if Splits(old(segs[i].len), length) && i == |old(segs)| - 1 then 1 else 0
    {
      hide Describes, SamePayload;
      SameMemory(heapStart, heapEnd, lastHdr, mem, segs);
      HeaderFacts(heapStart, heapEnd, lastHdr, mem, segs, i);
      newHdr := 0;
      if length >= 0x10 {
        var splitLength := AsInt64(mem[hdr] - length - HDR);
        SplitLength(mem[hdr], length);
        if splitLength >= 0x10 {
          newHdr := hdr + length + HDR;
          var next, free := mem[hdr + NEXT], mem[hdr + ISFREE];
          SplitStep(heapStart, heapEnd, lastHdr, mem, segs, i, hdr, newHdr, next, length, splitLength);
          segs := SplitAt(segs, i, length);
          var m := mem;
          if next == 0 {
            nullStores := nullStores + 1;
          } else {
            m := m[next + LAST := newHdr];
          }
          m := m[newHdr + NEXT := next];
          m := m[hdr + NEXT := newHdr];
          m := m[newHdr + LAST := hdr];
          m := m[newHdr := splitLength];
          m := m[newHdr + ISFREE := free];
          m := m[hdr := length];
          mem := m;
          lastHdr := if lastHdr == hdr then newHdr else lastHdr;
        }
      }
    }

    /** Pages come from the page allocator zeroed and not mapped before. */
    method MapPages(count: nat)
      requires heapStart <= heapEnd && Mapped(mem, heapStart, heapEnd)
      modifies this`heapEnd, this`mem
      ensures heapEnd == old(heapEnd) + count * PAGE && Mapped(mem, heapStart, heapEnd)
      ensures Extends(old(mem), mem)
    {
      var i := 0;
      while i < count
        invariant i <= count && heapEnd == old(heapEnd) + i * PAGE && Mapped(mem, heapStart, heapEnd)
        invariant Extends(old(mem), mem)
      {
        var at := heapEnd;
        mem := mem + EmptyPage(at, PAGE);
        heapEnd := at + PAGE;
        i := i + 1;
      }
    }

    /** Lines 103-108: give the new pages a header and link it after the last segment. */
    method AppendSegment(newHdr: nat, len: nat, ghost size: nat, ghost before: Memory)
      requires Describes(heapStart, newHdr, lastHdr, before, segs) && Extends(before, mem)
      requires size >= 16 && On16(size) && len == RoundPage(size)
      requires heapEnd == newHdr + len <= Limit(heapStart) && Mapped(mem, heapStart, heapEnd)
      modifies this`lastHdr, this`mem, this`segs
      ensures Linked() && segs == old(segs) + [NewSeg(old(segs), size)]
      ensures SamePayload(Live(old(segs)), before, mem)
    {
      hide Describes, SamePayload, Extends, Live, RoundPage, NewSeg;
      FirstHeader(heapStart, newHdr, lastHdr, before, segs);
      AppendStep(heapStart, newHdr, lastHdr, before, mem, segs, size, len);
      var m := mem;
      m := m[newHdr + ISFREE := 1];
      m := m[newHdr + LAST := lastHdr];
      m := m[lastHdr + NEXT := newHdr];
      lastHdr := newHdr;
      m := m[newHdr + NEXT := 0];
      m := m[newHdr := len - HDR];
      mem := m;
      segs := segs + [NewSeg(segs, size)];
    }

    method ExpandHeap(length: nat)
      requires Valid() && length >= 16 && On16(length) && heapEnd + RoundPage(length) <= Limit(heapStart)
      modifies this`heapEnd, this`lastHdr, this`mem, this`segs
      ensures Valid() && segs == Grow(old(segs), length) && heapEnd == old(heapEnd) + RoundPage(length)
      ensures SamePayload(Live(old(segs)), old(mem), mem)
    {
      hide Describes, SamePayload, Extends, NoFreePair, Live, RoundPage, Grow, MergeBack, NewSeg;
      ghost var s := segs;
      var newHdr := heapEnd;
      var len := if length % PAGE != 0 then length - length % PAGE + PAGE else length;
      ExpandFacts(heapStart, heapEnd, lastHdr, mem, s, length, len);
      MapPages(len / PAGE);
      AppendSegment(newHdr, len, length, old(mem));
      ghost var m := mem;
      SegmentHeaderCombineBackward(newHdr, |s|);
      SamePayloadTrans(Live(s), old(mem), m, mem);
    }

    constructor (address: nat, pageCount: nat)
      requires 0 < address && On16(address) && pageCount >= 1 && address + pageCount * PAGE <= Limit(address)
      ensures Valid() && heapStart == address && heapEnd == address + pageCount * PAGE && nullStores == 0
      ensures segs == [Seg(address, pageCount * PAGE - HDR, true)]
    {
      heapStart, heapEnd, lastHdr, mem, nullStores := address, address, address, map[], 0;
      segs := [Seg(address, pageCount * PAGE - HDR, true)];
      new;
      MapPages(pageCount);
      var m := mem;
      m := m[address := pageCount * PAGE - HDR];
      m := m[address + NEXT := 0];
      m := m[address + LAST := 0];
      m := m[address + ISFREE := 1];
      assert segs[0].Aligned() by { assert On16(pageCount * PAGE - HDR); }
      assert HeaderAt(m, segs, 0);
      mem := m;
    }

    /** Hand out the segment at `current`: split it if it is larger than asked, then mark it used. */
    method TakeSegment(current: nat, size: nat, ghost i: nat)
      requires Linked() && i < |segs| && segs[i].addr == current && segs[i].Fits(size) && size >= 16 && On16(size)
      modifies this`lastHdr, this`mem, this`segs, this`nullStores
      ensures Linked() && segs == Take(old(segs), i, size)
      ensures SamePayload(Live(old(segs)), old(mem), mem)
      ensures nullStores == old(nullStores) + if Splits(old(segs[i].len), size) && i == |old(segs)| - 1 then 1 else 0
    {
      hide Describes, SamePayload, Live, Take, SplitAt;
      ghost var s := segs;
      TakeFacts(s, i, size);
      SameMemory(heapStart, heapEnd, lastHdr, mem, segs);
      HeaderFacts(heapStart, heapEnd, lastHdr, mem, segs, i);
      if mem[current] > size {
        var _ := SegmentHeaderSplit(current, size, i);
      }
      ghost var m := mem;
      SetFree(heapStart, heapEnd, lastHdr, mem, segs, i, false);
      mem := mem[current + ISFREE := 0];
      segs := segs[i := segs[i].(free := false)];
      SamePayloadTrans(Live(s), old(mem), m, mem);
    }

    /** `done()` is the halt after an impossible request; here the call just yields None. */
    method Malloc(size: nat) returns (r: Option<nat>, ghost a: Alloc)
      requires Valid() && size < WORD64
      requires Round16(size) != 0 ==> Allocate(segs, heapStart, heapEnd, Round16(size)).end <= Limit(heapStart)
      modifies this`heapEnd, this`lastHdr, this`mem, this`segs, this`nullStores
      ensures Valid()
      ensures r.Some? <==> 0 < size <= WORD64 - 16
      ensures r.None? ==> segs == old(segs) && heapEnd == old(heapEnd) && mem == old(mem)
      ensures r.Some? ==> Grants(old(segs), size, a) && r.value == a.Block().0 && a.Block().1 < size + HDR + 32
      ensures Round16(size) != 0 ==>
                && a == old(Allocate(segs, heapStart, heapEnd, Round16(size)))
                && segs == a.segs && heapEnd == a.end && a.index < |segs| && r == Some(a.Block().0)
                && nullStores == old(nullStores) + (if a.nullStore then 1 else 0)
                && SamePayload(Live(old(segs)), old(mem), mem)
      decreases if Round16(size) == 0 then 0 else Deficit(segs, Round16(size))
    {
      hide Describes, SamePayload, Live, Take, FirstFit, Grow, Deficit, Allocate, WellFormed, NoFreePair, Grants, Tight;
      var n := if size % 16 > 0 then (size - size % 16 + 16) % WORD64 else size;
      assert n == Round16(size);
      hide Round16;
      if n == 0 {
        r, a := None, Alloc([], 0, 0, 0, false);
        return;
      }
      AllocateSpec(segs, heapStart, heapEnd, n);
      GrantsRequest(segs, size, Allocate(segs, heapStart, heapEnd, n));
      var current, fits := heapStart, false;
      ghost var i := 0;
      FirstHeader(heapStart, heapEnd, lastHdr, mem, segs);
      while true
        invariant i < |segs| && current == segs[i].addr && !fits
        invariant forall j :: 0 <= j < i ==> !segs[j].Fits(n)
        modifies {}
        decreases |segs| - i
      {
        HeaderFacts(heapStart, heapEnd, lastHdr, mem, segs, i);
        fits := mem[current + ISFREE] != 0 && mem[current] >= n;
        if fits || mem[current + NEXT] == 0 { break; }
        current := mem[current + NEXT];
        i := i + 1;
      }
      if fits {
        AllocateHit(segs, heapStart, heapEnd, n, i);
        a := Allocate(segs, heapStart, heapEnd, n);
        WellFormedParts(a.segs, heapStart, a.end);
        TakeSegment(current, n, i);
        return Some(current + HDR), a;
      }
      AllocateMiss(segs, heapStart, heapEnd, n);
      a := Allocate(segs, heapStart, heapEnd, n);
      ExpandHeap(n);
      ghost var m := mem;
      ghost var b;
      r, b := Malloc(n);
      SamePayloadTrans(Live(old(segs)), old(mem), m, mem);
    }

    method Free(address: nat)
      requires Valid() && Holds(segs, address)
      modifies this`lastHdr, this`mem, this`segs
      ensures Valid() && segs == Release(old(segs), HeldAt(old(segs), address))
      ensures SamePayload(Live(segs), old(mem), mem)
    {
      hide Describes, SamePayload, Live, Merge, MergeBack, Release, NoFreePair;
      ghost var i := HeldAt(segs, address);
      var hdr := address - HDR;
      FirstHeader(heapStart, heapEnd, lastHdr, mem, segs);
      FreeFacts(heapStart, heapEnd, segs, i);
      SetFree(heapStart, heapEnd, lastHdr, mem, segs, i, true);
      mem := mem[hdr + ISFREE := 1];
      segs := segs[i := segs[i].(free := true)];
      ghost var live, m1 := Live(segs), mem;
      SamePayloadSub(live, Live(old(segs)), old(mem), m1);
      SegmentHeaderCombineForward(hdr, i);
      ghost var m2 := mem;
      SegmentHeaderCombineBackward(hdr, i);
      SamePayloadTrans(live, old(mem), m1, m2);
      SamePayloadTrans(live, old(mem), m2, mem);
    }

    method Apply(op: Op)
      requires Valid() && WellFormed(segs, heapStart, heapEnd) && Legal(State(segs, heapEnd), op)
      requires Step(State(segs, heapEnd), heapStart, op).end <= Limit(heapStart)
      modifies this`heapEnd, this`lastHdr, this`mem, this`segs, this`nullStores
      ensures Valid()
      ensures old(WellFormed(segs, heapStart, heapEnd)) && old(Legal(State(segs, heapEnd), op))
      ensures StepDone(old(State(segs, heapEnd)), heapStart, op, old(mem), State(segs, heapEnd), mem)
    {
      ghost var live := Live(segs);
      SameMemory(heapStart, heapEnd, lastHdr, mem, segs);
      hide Describes, WellFormed, SamePayload, NoFreePair;
      match op
      case Malloc(size) =>
        ghost var a;
        var r;
        r, a := Malloc(size);
        SamePayloadSub(live * Live(segs), live, old(mem), mem);
      case Free(addr) =>
        Free(addr);
        SamePayloadSub(live * Live(segs), Live(segs), old(mem), mem);
    }

    /** Any legal sequence of calls: the memory goes through the abstract run, and no byte of a block
        that is held all the time changes. */
    method Run(ops: seq<Op>)
      requires Valid() && LegalRun(State(segs, heapEnd), heapStart, ops, Limit(heapStart))
      modifies this`heapEnd, this`lastHdr, this`mem, this`segs, this`nullStores
      ensures Valid()
      ensures old(LegalRun(State(segs, heapEnd), heapStart, ops, Limit(heapStart)))
      ensures State(segs, heapEnd) == old(RunFrom(State(segs, heapEnd), heapStart, ops, Limit(heapStart)))
      ensures SamePayload(old(HeldThroughout(State(segs, heapEnd), heapStart, ops, Limit(heapStart))), old(mem), mem)
      decreases |ops|
    {
      ghost var s, m := State(segs, heapEnd), mem;
      if ops == [] {
        SameMemory(heapStart, heapEnd, lastHdr, mem, segs);
      } else {
        Apply(ops[0]);
        ghost var t, n := State(segs, heapEnd), mem;
        Run(ops[1..]);
        StepThenRest(s, heapStart, ops, Limit(heapStart), m, t, n, mem);
      }
    }
  }

  /** The outcome of one call: the heap is the one after the abstract step, and the blocks held
      before and after it are unchanged. */
  ghost predicate StepDone(s: State, start: nat, op: Op, m: Memory, t: State, n: Memory)
    requires WellFormed(s.segs, start, s.end) && Legal(s, op)
  {
    t == Step(s, start, op) && SamePayload(Live(s.segs) * Live(t.segs), m, n)
  }

  lemma StepThenRest(s: State, start: nat, ops: seq<Op>, limit: nat, m: Memory, t: State, n: Memory, k: Memory)
    requires ops != [] && LegalRun(s, start, ops, limit) && StepDone(s, start, ops[0], m, t, n)
    requires SamePayload(HeldThroughout(t, start, ops[1..], limit), n, k)
    ensures SamePayload(HeldThroughout(s, start, ops, limit), m, k)
  {
    var held := HeldThroughout(s, start, ops, limit);
    HeldNow(t, start, ops[1..], limit);
    hide SamePayload, Step, WellFormed;
    SamePayloadSub(held, Live(s.segs) * Live(t.segs), m, n);
    SamePayloadSub(held, HeldThroughout(t, start, ops[1..], limit), n, k);
    SamePayloadTrans(held, m, n, k);
  }

  /** A client writing inside a block it holds cannot damage the heap. */
  lemma ClientWrite(start: nat, end: nat, last: nat, m: Memory, s: seq<Seg>, b: (nat, nat), a: int, v: int)
    requires Describes(start, end, last, m, s) && b in Live(s) && b.0 <= a < b.0 + b.1
    ensures Describes(start, end, last, m[a := v], s)
  {
    Ordered(s, start, end);
    var n := m[a := v];
    forall k | 0 <= k < |s| ensures HeaderAt(n, s, k) {
      assert HeaderAt(m, s, k);
    }
  }

  lemma TakeFacts(s: seq<Seg>, i: nat, size: nat)
    requires i < |s| && s[i].Fits(size)
    ensures var t := SplitAt(s, i, size);
            && i < |t| && t[i].addr == s[i].addr && Take(s, i, size) == t[i := t[i].(free := false)]
            && Live(t) == Live(s)
    ensures !Splits(s[i].len, size) ==> SplitAt(s, i, size) == s
  {
    TakeIsSplit(s, i, size);
    SplitLive(s, i, size);
    hide Live, Take;
  }

  lemma SplitLive(s: seq<Seg>, i: nat, size: nat)
    requires i < |s| && s[i].free
    ensures Live(SplitAt(s, i, size)) == Live(s)
  {
    if Splits(s[i].len, size) {
      var mid := [Seg(s[i].addr, size, true), Seg(s[i].addr + HDR + size, s[i].len - size - HDR, true)];
      assert Live(mid) == {};
      NoLive(s, i);
      hide Live;
      LiveSplice(s, i, i + 1, mid);
    }
  }

  lemma FirstHeader(start: nat, end: nat, last: nat, m: Memory, s: seq<Seg>)
    requires Describes(start, end, last, m, s)
    ensures |s| > 0 && s[0].addr == start
    ensures NoFreePair(s) ==> WellFormed(s, start, end)
  {
  }

  lemma FreeFacts(start: nat, end: nat, s: seq<Seg>, i: nat)
    requires WellFormed(s, start, end) && i < |s| && !s[i].free
    ensures var s1 := s[i := s[i].(free := true)];
            var s2 := Merge(s1, i);
            && i < |s2| && s2[i].addr == s[i].addr && s2[i].free
            && Release(s, i) == MergeBack(s2, i) && NoFreePair(Release(s, i))
            && Live(s1) <= Live(s) && Live(s2) == Live(s1) && Live(Release(s, i)) == Live(s1)
  {
    var s1 := s[i := s[i].(free := true)];
    ReleaseWellFormed(s, start, end, i);
    FreedLive(s, i);
    assert i < |Merge(s1, i)| && Merge(s1, i)[i].addr == s[i].addr && Merge(s1, i)[i].free;
    assert i > 0 ==> Merge(s1, i)[i - 1] == s[i - 1];
    hide Live, Merge, Tiles, Aligned, NoFreePair;
    MergeLive(s1, i);
    if i > 0 && s[i - 1].free { MergeLive(Merge(s1, i), i - 1); }
  }

  lemma FreedLive(s: seq<Seg>, i: nat)
    requires i < |s|
    ensures Live(s[i := s[i].(free := true)]) <= Live(s)
  {
    var t := s[i := s[i].(free := true)];
    assert forall k :: 0 <= k < |s| && k != i ==> t[k] == s[k];
  }

  lemma SetFree(start: nat, end: nat, last: nat, m: Memory, s: seq<Seg>, i: nat, free: bool)
    requires Describes(start, end, last, m, s) && i < |s|
    ensures var n := m[s[i].addr + ISFREE := if free then 1 else 0];
            Describes(start, end, last, n, s[i := s[i].(free := free)]) && SamePayload(Live(s), m, n)
  {
    var n, t := m[s[i].addr + ISFREE := if free then 1 else 0], s[i := s[i].(free := free)];
    SetFreeShape(start, end, s, i, free);
    SetFreeEncodes(start, end, m, s, i, free);
    hide Tiles, Aligned, Encodes, Mapped, SamePayload, Live;
    HeaderStore(s, start, end, m, i, ISFREE, if free then 1 else 0);
  }

  lemma SetFreeShape(start: nat, end: nat, s: seq<Seg>, i: nat, free: bool)
    requires Tiles(s, start, end) && Aligned(s) && i < |s|
    ensures Tiles(s[i := s[i].(free := free)], start, end) && Aligned(s[i := s[i].(free := free)])
  {
    var t := s[i := s[i].(free := free)];
    forall k | 0 <= k < |t| - 1 ensures Joined(t, k) { assert Joined(s, k); }
    forall k | 0 <= k < |t| ensures t[k].Aligned() { assert s[k].Aligned(); }
  }

  lemma SetFreeEncodes(start: nat, end: nat, m: Memory, s: seq<Seg>, i: nat, free: bool)
    requires Tiles(s, start, end) && Encodes(m, s) && i < |s|
    ensures Encodes(m[s[i].addr + ISFREE := if free then 1 else 0], s[i := s[i].(free := free)])
  {
    var n, t := m[s[i].addr + ISFREE := if free then 1 else 0], s[i := s[i].(free := free)];
    forall k | 0 <= k < |t| ensures HeaderAt(n, t, k) {
      assert HeaderAt(m, s, k);
      Apart(s, start, end, i, k);
      hide Tiles, Encodes;
    }
  }

  lemma ExpandFacts(start: nat, end: nat, last: nat, m: Memory, s: seq<Seg>, size: nat, len: nat)
    requires Describes(start, end, last, m, s) && NoFreePair(s) && size >= 16
    requires len == if size % PAGE != 0 then size - size % PAGE + PAGE else size
    ensures len == RoundPage(size) && len / PAGE * PAGE == len && len >= PAGE
    ensures start <= end && Mapped(m, start, end) && |s| > 0
    ensures var t := s + [NewSeg(s, size)];
            && t[|s|].addr == end && t[|s|].free && Live(t) == Live(s)
            && Grow(s, size) == MergeBack(t, |s|) && NoFreePair(Grow(s, size))
  {
    AddrInHeap(s, start, end, |s| - 1);
    LiveConcat(s, [NewSeg(s, size)]);
    GrowNoFreePair(s, size);
  }

  lemma SamePayloadSub(live: set<(nat, nat)>, more: set<(nat, nat)>, m: Memory, n: Memory)
    requires SamePayload(more, m, n) && live <= more
    ensures SamePayload(live, m, n)
  {
  }

  /** Addresses the heap may grow to: inside the address space, lengths within int64_t. */
  function Limit(start: nat): nat {
    if start + INT64_MAX < WORD64 then start + INT64_MAX else WORD64
  }

  ghost function AppendMemory(m: Memory, newHdr: nat, tail: nat, len: nat): Memory {
    m[newHdr + ISFREE := 1][newHdr + LAST := tail][tail + NEXT := newHdr][newHdr + NEXT := 0][newHdr := len]
  }

  lemma AppendStep(start: nat, end: nat, last: nat, m: Memory, m': Memory, s: seq<Seg>, size: nat, len: nat)
    requires Describes(start, end, last, m, s) && size >= 16 && On16(size) && len == RoundPage(size)
    requires end + len <= Limit(start) && Mapped(m', start, end + len) && Extends(m, m')
    ensures var n := AppendMemory(m', end, last, len - HDR);
            && Describes(start, end + len, end, n, s + [NewSeg(s, size)])
            && SamePayload(Live(s), m, n)
  {
    var t := s + [NewSeg(s, size)];
    assert t[|s|].addr == end;
    hide Tiles, Aligned, Encodes, Mapped, SamePayload, NewSeg, RoundPage, AppendMemory, Live, Extends;
    AppendTiles(s, start, end, size);
    AppendAligned(s, size);
    AppendFrame(start, end, last, m, m', s, size);
    AppendEncodes(start, end, last, m, m', s, t, size);
  }

  ghost predicate Extends(m: Memory, n: Memory) {
    forall a :: a in m ==> a in n && n[a] == m[a]
  }

  lemma RoundPageMin(size: nat)
    requires size >= 16
    ensures RoundPage(size) >= PAGE
  {
  }

  lemma AppendFrame(start: nat, end: nat, last: nat, m: Memory, m': Memory, s: seq<Seg>, size: nat)
    requires Describes(start, end, last, m, s) && size >= 16 && Extends(m, m')
    requires Mapped(m', start, end + RoundPage(size))
    ensures SamePayload(Live(s), m, AppendMemory(m', end, last, RoundPage(size) - HDR))
    ensures Mapped(AppendMemory(m', end, last, RoundPage(size) - HDR), start, end + RoundPage(size))
  {
    var n := AppendMemory(m', end, last, RoundPage(size) - HDR);
    AddrInHeap(s, start, end, |s| - 1);
    OffHeader(s, start, end, |s| - 1);
    OffNothing(s);
    assert Keeps(m, n, last, last + HDR, 0, 0);
    assert Mapped(n, start, end + RoundPage(size)) by { hide Describes; RoundPageMin(size); hide RoundPage; }
    hide AllOff, Tiles, AppendMemory, Keeps, RoundPage;
    KeepsPayload(s, start, end, m, n, last, last + HDR, 0, 0);
  }

  lemma AppendEncodes(start: nat, end: nat, last: nat, m: Memory, m': Memory, s: seq<Seg>, t: seq<Seg>, size: nat)
    requires Describes(start, end, last, m, s) && size >= 16 && Extends(m, m') && t == s + [NewSeg(s, size)]
    ensures Encodes(AppendMemory(m', end, last, RoundPage(size) - HDR), t)
  {
    var n := AppendMemory(m', end, last, RoundPage(size) - HDR);
    var l := |s| - 1;
    AddrInHeap(s, start, end, l);
    assert t[|s|] == Seg(end, RoundPage(size) - HDR, true);
    forall k | 0 <= k < |t| ensures HeaderAt(n, t, k) {
      var j := if k < |s| then k else l;
      assert HeaderAt(m, s, j);
      AddrInHeap(s, start, end, j);
      Apart(s, start, end, j, l);
      hide Tiles, Encodes, Fields, AppendMemory, RoundPage, NewSeg;
      AppendFields(m, m', end, last, RoundPage(size) - HDR, s[j].addr, s[j].len, NextOf(s, j), LastOf(s, j), s[j].free);
    }
  }

  /** The stores that link a new segment, seen from its header and from an old header at a. */
  lemma AppendFields(m: Memory, m': Memory, newHdr: nat, tail: nat, len: nat,
                     a: nat, alen: nat, anext: nat, alast: nat, free: bool)
    requires Fields(m, a, alen, anext, alast, free) && Extends(m, m') && a + HDR <= newHdr && tail + HDR <= newHdr
    requires a == tail || a + HDR <= tail || tail + HDR <= a
    ensures var n := AppendMemory(m', newHdr, tail, len);
            && Fields(n, newHdr, len, 0, tail, true)
            && Fields(n, a, alen, if a == tail then newHdr else anext, alast, free)
  {
  }

  /** The conversion to int64_t is exact for segments of this heap. */
  lemma SplitLength(len: nat, size: nat)
    requires size <= len <= INT64_MAX
    ensures AsInt64(len - size - HDR) == len - size - HDR
  {
    var x := len - size - HDR;
    if x < 0 { assert x % WORD64 == x + WORD64; } else { assert x % WORD64 == x; }
  }

  ghost predicate SplitArgs(s: seq<Seg>, i: nat, hdr: nat, newHdr: nat, next: nat, len: nat, rest: nat)
    requires i < |s|
  {
    && hdr == s[i].addr && newHdr == hdr + len + HDR && next == NextOf(s, i)
    && rest == s[i].len - len - HDR && Splits(s[i].len, len) && s[i].free
  }

  ghost function SplitMemory(m: Memory, hdr: nat, newHdr: nat, next: nat, len: nat, rest: nat): Memory {
    (if next != 0 then m[next + LAST := newHdr] else m)
      [newHdr + NEXT := next][hdr + NEXT := newHdr][newHdr + LAST := hdr]
      [newHdr := rest][newHdr + ISFREE := 1][hdr := len]
  }

  lemma SplitStep(start: nat, end: nat, last: nat, m: Memory, s: seq<Seg>, i: nat,
                  hdr: nat, newHdr: nat, next: nat, len: nat, rest: nat)
    requires Describes(start, end, last, m, s) && i < |s| && SplitArgs(s, i, hdr, newHdr, next, len, rest)
    requires On16(len)
    ensures Describes(start, end, if last == hdr then newHdr else last,
                      SplitMemory(m, hdr, newHdr, next, len, rest), SplitAt(s, i, len))
    ensures SamePayload(Live(s), m, SplitMemory(m, hdr, newHdr, next, len, rest))
  {
    HeaderFacts(start, end, last, m, s, i);
    hide Tiles, Aligned, Encodes, Mapped, SamePayload;
    SplitTiles(s, start, end, i, len);
    SplitAligned(s, i, len);
    SplitEncodes(m, s, start, end, i, hdr, newHdr, next, len, rest);
    SplitFrame(m, s, start, end, i, hdr, newHdr, next, len, rest);
  }

  lemma SplitFrame(m: Memory, s: seq<Seg>, start: nat, end: nat, i: nat,
                   hdr: nat, newHdr: nat, next: nat, len: nat, rest: nat)
    requires Tiles(s, start, end) && Mapped(m, start, end) && i < |s| && SplitArgs(s, i, hdr, newHdr, next, len, rest)
    ensures SamePayload(Live(s), m, SplitMemory(m, hdr, newHdr, next, len, rest))
    ensures Mapped(SplitMemory(m, hdr, newHdr, next, len, rest), start, end)
  {
    var n := SplitMemory(m, hdr, newHdr, next, len, rest);
    OffFree(s, start, end, i);
    AddrInHeap(s, start, end, i);
    if i + 1 < |s| {
      OffHeader(s, start, end, i + 1);
      AddrInHeap(s, start, end, i + 1);
      assert Joined(s, i);
      assert Keeps(m, n, hdr, s[i].End(), next, next + HDR);
      hide AllOff, Tiles, SplitMemory, Keeps;
      KeepsPayload(s, start, end, m, n, hdr, s[i].End(), next, next + HDR);
    } else {
      OffNothing(s);
      assert Keeps(m, n, hdr, s[i].End(), 0, 0);
      hide AllOff, Tiles, SplitMemory, Keeps;
      KeepsPayload(s, start, end, m, n, hdr, s[i].End(), 0, 0);
    }
  }

  lemma SplitEncodes(m: Memory, s: seq<Seg>, start: nat, end: nat, i: nat,
                     hdr: nat, newHdr: nat, next: nat, len: nat, rest: nat)
    requires Tiles(s, start, end) && Encodes(m, s) && start > 0 && i < |s|
    requires SplitArgs(s, i, hdr, newHdr, next, len, rest)
    ensures Encodes(SplitMemory(m, hdr, newHdr, next, len, rest), SplitAt(s, i, len))
  {
    var t := SplitAt(s, i, len);
    forall k | 0 <= k < |t| ensures HeaderAt(SplitMemory(m, hdr, newHdr, next, len, rest), t, k) {
      SplitView(s, t, i, len, k);
      SplitEncodesAt(m, s, t, start, end, i, k, hdr, newHdr, next, len, rest);
    }
  }

  /** How segment k of t looks when t comes from s by splitting segment i. */
  ghost predicate SplitAtView(s: seq<Seg>, t: seq<Seg>, i: nat, len: nat, k: nat)
    requires i < |s| && k < |t| == |s| + 1 && Splits(s[i].len, len)
  {
    var newHdr := s[i].addr + HDR + len;
    var j := if k <= i then k else k - 1;
    if k == i + 1 then
      t[k] == Seg(newHdr, s[i].len - len - HDR, s[i].free) && NextOf(t, k) == NextOf(s, i) && LastOf(t, k) == s[i].addr
    else
      && t[k].addr == s[j].addr && t[k].free == s[j].free && t[k].len == (if k == i then len else s[j].len)
      && NextOf(t, k) == (if k == i then newHdr else NextOf(s, j))
      && LastOf(t, k) == (if k == i + 2 then newHdr else LastOf(s, j))
  }

  lemma SplitView(s: seq<Seg>, t: seq<Seg>, i: nat, len: nat, k: nat)
    requires i < |s| && Splits(s[i].len, len) && t == SplitAt(s, i, len) && k < |t|
    ensures SplitAtView(s, t, i, len, k)
  {
  }

  lemma SplitEncodesAt(m: Memory, s: seq<Seg>, t: seq<Seg>, start: nat, end: nat, i: nat, k: nat,
                       hdr: nat, newHdr: nat, next: nat, len: nat, rest: nat)
    requires Tiles(s, start, end) && Encodes(m, s) && start > 0 && i < |s| && k < |t| == |s| + 1
    requires SplitArgs(s, i, hdr, newHdr, next, len, rest) && SplitAtView(s, t, i, len, k)
    ensures HeaderAt(SplitMemory(m, hdr, newHdr, next, len, rest), t, k)
  {
    var j := if k <= i then k else k - 1;
    assert HeaderAt(m, s, j);
    Apart(s, start, end, i, j);
    if i + 1 < |s| {
      assert Joined(s, i);
      AddrInHeap(s, start, end, i + 1);
      Apart(s, start, end, i + 1, j);
    }
    if j > i { OrderedPair(s, start, end, i, j); } else if j < i { OrderedPair(s, start, end, j, i); }
    SplitFields(m, hdr, newHdr, next, len, rest, s[j].addr, s[j].len, NextOf(s, j), LastOf(s, j), s[j].free);
  }

  /** The stores of a split, seen from the new header and from an old header at a. */
  lemma SplitFields(m: Memory, hdr: nat, newHdr: nat, next: nat, len: nat, rest: nat,
                    a: nat, alen: nat, anext: nat, alast: nat, free: bool)
    requires Fields(m, a, alen, anext, alast, free)
    requires hdr + HDR <= newHdr && (next == 0 || newHdr + HDR <= next)
    requires a == hdr || a + HDR <= hdr || newHdr + HDR <= a
    requires next == 0 || a == next || a + HDR <= next || next + HDR <= a
    ensures var n := SplitMemory(m, hdr, newHdr, next, len, rest);
            && Fields(n, newHdr, rest, next, hdr, true)
            && Fields(n, a, if a == hdr then len else alen, if a == hdr then newHdr else anext,
                      if a == next && next != 0 then newHdr else alast, free)
  {
  }

  /** What a caller holding a header address may read there. */
  lemma HeaderFacts(start: nat, end: nat, last: nat, mem: Memory, s: seq<Seg>, i: nat)
    requires Describes(start, end, last, mem, s) && i < |s|
    ensures HeaderAt(mem, s, i)
    ensures NextOf(s, i) == 0 <==> i == |s| - 1
    ensures LastOf(s, i) == 0 <==> i == 0
    ensures i + 1 < |s| ==> s[i + 1].addr == s[i].End()
    ensures s[i].addr == last <==> i == |s| - 1
    ensures s[i].len <= INT64_MAX
  {
    Ordered(s, start, end);
    assert i + 1 < |s| ==> Joined(s, i);
  }

  lemma MergeStep(start: nat, end: nat, last: nat, m: Memory, s: seq<Seg>, i: nat,
                  hdr: nat, next: nat, after: nat, len: nat)
    requires Describes(start, end, last, m, s) && i + 1 < |s| && s[i + 1].free
    requires MergeArgs(s, i, hdr, next, after, len)
    ensures Describes(start, end, if next == last then hdr else last, MergedMemory(m, hdr, after, len), Merge(s, i))
    ensures SamePayload(Live(s), m, MergedMemory(m, hdr, after, len))
  {
    HeaderFacts(start, end, last, m, s, i + 1);
    MergeLast(s, i);
    hide Tiles, Aligned, Encodes, Mapped, SamePayload, Merge, MergedMemory, Live, Fields;
    MergeTiles(s, start, end, i);
    MergeAligned(s, i);
    MergeEncodes(m, s, start, end, i, hdr, next, after, len);
    MergeFrame(m, s, start, end, i, hdr, next, after, len);
  }

  lemma MergeLast(s: seq<Seg>, i: nat)
    requires i + 1 < |s| && s[i + 1].free
    ensures |Merge(s, i)| == |s| - 1
    ensures Merge(s, i)[|s| - 2].addr == if i + 2 == |s| then s[i].addr else s[|s| - 1].addr
  {
  }

  lemma MergeFrame(m: Memory, s: seq<Seg>, start: nat, end: nat, i: nat,
                   hdr: nat, next: nat, after: nat, len: nat)
    requires Tiles(s, start, end) && Mapped(m, start, end) && start > 0 && i + 1 < |s|
    requires MergeArgs(s, i, hdr, next, after, len)
    ensures SamePayload(Live(s), m, MergedMemory(m, hdr, after, len))
    ensures Mapped(MergedMemory(m, hdr, after, len), start, end)
  {
    var n := MergedMemory(m, hdr, after, len);
    OffHeader(s, start, end, i);
    AddrInHeap(s, start, end, i);
    if i + 2 < |s| {
      OffHeader(s, start, end, i + 2);
      AddrInHeap(s, start, end, i + 2);
      assert Keeps(m, n, hdr, hdr + HDR, after, after + HDR);
      hide AllOff, Tiles, MergedMemory, Keeps;
      KeepsPayload(s, start, end, m, n, hdr, hdr + HDR, after, after + HDR);
    } else {
      OffNothing(s);
      assert Keeps(m, n, hdr, hdr + HDR, 0, 0);
      hide AllOff, Tiles, MergedMemory, Keeps;
      KeepsPayload(s, start, end, m, n, hdr, hdr + HDR, 0, 0);
    }
  }

  /** The values the merge of segments i and i+1 reads before it stores. */
  ghost predicate MergeArgs(s: seq<Seg>, i: nat, hdr: nat, next: nat, after: nat, len: nat)
    requires i + 1 < |s|
  {
    hdr == s[i].addr && next == s[i + 1].addr && after == NextOf(s, i + 1) && len == s[i].len + s[i + 1].len + HDR
  }

  ghost function MergedMemory(m: Memory, hdr: nat, after: nat, len: nat): Memory {
    (if after != 0 then m[after + LAST := hdr] else m)[hdr := len][hdr + NEXT := after]
  }

  lemma MergeEncodes(m: Memory, s: seq<Seg>, start: nat, end: nat, i: nat,
                     hdr: nat, next: nat, after: nat, len: nat)
    requires Tiles(s, start, end) && Encodes(m, s) && start > 0 && i + 1 < |s| && s[i + 1].free
    requires MergeArgs(s, i, hdr, next, after, len)
    ensures Encodes(MergedMemory(m, hdr, after, len), Merge(s, i))
  {
    var t := Merge(s, i);
    forall k | 0 <= k < |t| ensures HeaderAt(MergedMemory(m, hdr, after, len), t, k) {
      MergeView(s, t, i, k);
      MergeEncodesAt(m, s, t, start, end, i, k, hdr, next, after, len);
    }
  }

  /** How segment k of t looks when t comes from s by merging i with i+1. */
  ghost predicate MergedAt(s: seq<Seg>, t: seq<Seg>, i: nat, k: nat)
    requires i + 1 < |s| && k < |t| == |s| - 1
  {
    var j := if k <= i then k else k + 1;
    && t[k].addr == s[j].addr && t[k].free == s[j].free
    && t[k].len == (if k == i then s[i].len + HDR + s[i + 1].len else s[j].len)
    && NextOf(t, k) == (if k == i then NextOf(s, i + 1) else NextOf(s, j))
    && LastOf(t, k) == (if k == i + 1 then s[i].addr else LastOf(s, j))
  }

  lemma MergeView(s: seq<Seg>, t: seq<Seg>, i: nat, k: nat)
    requires i + 1 < |s| && s[i + 1].free && t == Merge(s, i) && k < |t|
    ensures MergedAt(s, t, i, k)
  {
  }

  lemma MergeEncodesAt(m: Memory, s: seq<Seg>, t: seq<Seg>, start: nat, end: nat, i: nat, k: nat,
                       hdr: nat, next: nat, after: nat, len: nat)
    requires Tiles(s, start, end) && Encodes(m, s) && start > 0 && i + 1 < |s| && k < |t| == |s| - 1
    requires MergeArgs(s, i, hdr, next, after, len) && MergedAt(s, t, i, k)
    ensures HeaderAt(MergedMemory(m, hdr, after, len), t, k)
  {
    var j := if k <= i then k else k + 1;
    assert HeaderAt(m, s, j);
    Apart(s, start, end, i, j);
    if i + 2 < |s| {
      Apart(s, start, end, i + 2, i);
      Apart(s, start, end, i + 2, j);
      AddrInHeap(s, start, end, i + 2);
    }
    hide Tiles, Encodes, Fields, MergedMemory;
    MergedFields(m, hdr, after, len, s[j].addr, s[j].len, NextOf(s, j), LastOf(s, j), s[j].free);
  }

  /** The stores of a merge, seen from a header at a that is hdr, after or apart from both. */
  lemma MergedFields(m: Memory, hdr: nat, after: nat, len: nat,
                     a: nat, alen: nat, anext: nat, alast: nat, free: bool)
    requires Fields(m, a, alen, anext, alast, free)
    requires after == 0 || after + HDR <= hdr || hdr + HDR <= after
    requires after == 0 || a == after || after + HDR <= a || a + HDR <= after
    requires a == hdr || hdr + HDR <= a || a + HDR <= hdr
    ensures Fields(MergedMemory(m, hdr, after, len), a, if a == hdr then len else alen, if a == hdr then after else anext,
                   if a == after && after != 0 then hdr else alast, free)
  {
  }

  lemma AddrInHeap(s: seq<Seg>, start: nat, end: nat, i: nat)
    requires Tiles(s, start, end) && i < |s|
    ensures start <= s[i].addr < s[i].End() <= end
  {
    if i > 0 { OrderedPair(s, start, end, 0, i); }
    if i < |s| - 1 { OrderedPair(s, start, end, i, |s| - 1); }
  }

  lemma Apart(s: seq<Seg>, start: nat, end: nat, i: nat, j: nat)
    requires Tiles(s, start, end) && i < |s| && j < |s|
    ensures i != j ==> s[i].addr + HDR <= s[j].addr || s[j].addr + HDR <= s[i].addr
  {
    if i < j { OrderedPair(s, start, end, i, j); } else if j < i { OrderedPair(s, start, end, j, i); }
  }
}
