/** Directories: walking a directory table, finding a name, splitting and following a path. */
module FatDir {
  import opened Common
  import opened Bits
  import opened FatCore
  import opened FatFile

  // ----- where entry i of a directory lies

  datatype Loc = At(sect: nat) | End | Bad

  /** The table starts at cluster `start`; 0 stands for the fixed root directory. */
  function StartCluster(g: Geometry, sclust: nat): nat {
    if sclust == 0 && g.fsType == Fat32 then g.dirbase else sclust
  }

  function StartSector(g: Geometry, start: nat): nat {
    if start != 0 then Clust2Sect(g, start) else g.dirbase
  }

  /** Entry i by its number alone: byte 32*i of the fixed table or of the cluster chain. */
  function LocOf(d: Disk, g: Geometry, start: nat, i: nat): Loc
    requires GoodDisk(d) && g.csize >= 1
  {
    if i >= 65536 then End
    else if StartSector(g, start) == 0 then (if i == 0 then At(0) else End)
    else if start == 0 then (if i >= 16 && i - i % 16 >= g.nRootdir then End else At(g.dirbase + i / 16))
    else
      var c := ClusterAt(d, g, start, ClusterIndex(32 * i, g.csize));
      if ValidCluster(g, c) then At(Clust2Sect(g, c) + SectorIndex(32 * i, g.csize)) else if c <= 1 then Bad else End
  }

  /** The fixed table is read in whole sectors, and always at least one. */
  lemma FixedTableLength(d: Disk, g: Geometry, i: nat)
    requires GoodDisk(d) && g.csize >= 1 && g.dirbase > 0 && i < 65536
    ensures var sectors := if g.nRootdir == 0 then 1 else (g.nRootdir + 15) / 16;
            LocOf(d, g, 0, i) == if i < 16 * sectors then At(g.dirbase + i / 16) else End
  {
  }

  function EntryAt(d: Disk, sect: nat, i: nat): (e: seq<byte>)
    requires GoodDisk(d) && sect in d
    ensures |e| == 32
  {
    d[sect][i % 16 * 32..i % 16 * 32 + 32]
  }

  /** The attribute bit 8, volume label, is clear and the name is the same. */
  ghost predicate Matches(e: seq<byte>, name: seq<byte>)
    requires |e| == 32 && |name| == 11
  {
    e[11] / 8 % 2 == 0 && forall k :: 0 <= k < 11 ==> e[k] == name[k]
  }

  const AM_VOL: nat := 0x08
  const AM_DIR: nat := 0x10

  lemma AttributeBits(e: seq<byte>)
    requires |e| == 32
    ensures And(e[11] as nat, AM_VOL) != 0 <==> e[11] / 8 % 2 == 1
    ensures And(e[11] as nat, AM_DIR) != 0 <==> e[11] / 16 % 2 == 1
  {
    assert Pow2(3) == 8 && Pow2(4) == 16;
    MaskBit(e[11] as nat, 3);
    MaskBit(e[11] as nat, 4);
    hide And, Pow2;
  }

  lemma SameName(e: seq<byte>, name: seq<byte>)
    requires |e| == 32 && |name| == 11
    ensures e[..11] == name <==> forall k :: 0 <= k < 11 ==> e[k] == name[k]
  {
    assert forall k :: 0 <= k < 11 ==> e[..11][k] == e[k];
  }

  /** The search looks at entry i and goes on. */
  ghost predicate Passed(d: Disk, g: Geometry, start: nat, name: seq<byte>, i: nat)
    requires GoodDisk(d) && g.csize >= 1 && |name| == 11
  {
    var l := LocOf(d, g, start, i);
    l.At? && l.sect in d && var e := EntryAt(d, l.sect, i); e[0] != 0 && !Matches(e, name)
  }

  /** What stopping at entry i means. */
  ghost function Verdict(d: Disk, g: Geometry, start: nat, name: seq<byte>, i: nat): FResult
    requires GoodDisk(d) && g.csize >= 1 && |name| == 11
  {
    match LocOf(d, g, start, i)
    case Bad => DiskErr
    case End => NoFile
    case At(s) => if s !in d then DiskErr else if EntryAt(d, s, i)[0] == 0 then NoFile else Ok
  }

  class Dir {
    const d: Disk
    const g: Geometry
    var index: nat
    var sclust: nat
    var clust: nat
    var sect: nat
    var fn: seq<byte>

    constructor (disk: Disk, geometry: Geometry)
      requires GoodDisk(disk) && DirOk(geometry)
      ensures Valid() && d == disk && g == geometry
    {
      d, g := disk, geometry;
      index, sclust, clust, sect, fn := 0, 0, 0, 0, seq(12, _ => 0);
    }

    ghost predicate Valid()
      reads this
    {
      GoodDisk(d) && DirOk(g) && |fn| == 12
    }

    /** The fields describe entry `index` of the table that starts at StartCluster(sclust). */
    ghost predicate Placed()
      requires Valid()
      reads this
    {
      var start := StartCluster(g, sclust);
      && LocOf(d, g, start, index) == At(sect)
      && (sect == 0 ==> index == 0 && StartSector(g, start) == 0)
      && (StartSector(g, start) != 0 && start == 0 ==> clust == 0)
      && (StartSector(g, start) != 0 && start != 0 ==>
            clust == ClusterAt(d, g, start, ClusterIndex(32 * index, g.csize)) && ValidCluster(g, clust))
    }

    method DirRewind() returns (res: FResult)
      requires Valid()
      modifies this`index, this`clust, this`sect
      ensures res == Ok <==> !(sclust == 1 || sclust >= g.nFatent)
      ensures res == Ok || res == DiskErr
      ensures res == Ok ==> index == 0 && Placed()
    {
      index := 0;
      if sclust == 1 || sclust >= g.nFatent { return DiskErr; }
      var clst := StartCluster(g, sclust);
      clust := clst;
      sect := StartSector(g, clst);
      RewindFacts(d, g, clst);
      res := Ok;
    }

    method DirNext() returns (res: FResult)
      requires Valid() && Placed() && index < 65536
      modifies this`index, this`clust, this`sect
      ensures var l := LocOf(d, g, StartCluster(g, sclust), old(index) + 1);
              res == if l.At? then Ok else if l.End? then NoFile else DiskErr
      ensures res == Ok ==> index == old(index) + 1 < 65536 && Placed()
    {
      hide GeoOk, Clust2Sect, ClusterAt, GetFat, ClusterIndex, SectorIndex, And, Wrap, LocOf;
      ghost var start := StartCluster(g, sclust);
      var i := (index + 1) % 65536;
      assert i == if index == 65535 then 0 else index + 1;
      TableEnds(d, g, start, index);
      if i == 0 || sect == 0 { return NoFile; }
      if start == 0 { NextInFixed(d, g, index, sect); } else { NextInChain(d, g, start, index, clust, sect); }
      if i % 16 == 0 {
        sect := Wrap(sect + 1);
        if clust == 0 {
          if i >= g.nRootdir { return NoFile; }
        } else if And(i / 16, g.csize - 1) == 0 {
          var clst := GetFat(d, g, clust);
          if clst <= 1 { return DiskErr; }
          if clst >= g.nFatent { return NoFile; }
          clust := clst;
          sect := Clust2Sect(g, clst);
        }
      }
      index := i;
      res := Ok;
    }

    /** The first entry the search cannot pass decides; at most 65536 entries are read, for
        any content of the disk. */
    method DirFind() returns (res: FResult, dir: seq<byte>, ghost i: nat)
      requires Valid()
      modifies this`index, this`clust, this`sect
      ensures |dir| == 32
      ensures sclust == 1 || sclust >= g.nFatent ==> res == DiskErr
      ensures !(sclust == 1 || sclust >= g.nFatent) ==>
                var start := StartCluster(g, sclust);
                && i <= 65536 && (forall j :: 0 <= j < i ==> Passed(d, g, start, fn[..11], j))
                && !Passed(d, g, start, fn[..11], i) && res == Verdict(d, g, start, fn[..11], i)
                && (res == Ok ==> dir == EntryAt(d, LocOf(d, g, start, i).sect, i) && Matches(dir, fn[..11]))
    {
      hide GeoOk, LocOf, StartSector, ClusterAt, ClusterIndex, And;
      dir := seq(32, _ => 0);
      i := 0;
      res := DirRewind();
      if res != Ok { return; }
      ghost var start := StartCluster(g, sclust);
      while true
        invariant Placed() && i == index < 65536 && |dir| == 32
        invariant forall j :: 0 <= j < i ==> Passed(d, g, start, fn[..11], j)
        decreases 65536 - index
      {
        match ReadPart(d, sect, index % 16 * 32, 32)
        case None => return DiskErr, dir, i;
        case Some(e) => dir := e;
        assert dir == EntryAt(d, sect, i);
        if dir[0] == 0 { return NoFile, dir, i; }
        AttributeBits(dir);
        SameName(dir, fn[..11]);
        if And(dir[11] as nat, AM_VOL) == 0 && dir[..11] == fn[..11] { return Ok, dir, i; }
        res := DirNext();
        i := i + 1;
        if res != Ok { return; }
      }
    }
  }

  lemma NextDiv(q: nat, n: nat)
    requires n >= 1
    ensures if (q + 1) % n == 0 then (q + 1) / n == q / n + 1
            else (q + 1) / n == q / n && (q + 1) % n == q % n + 1
  {
    var a, b := q / n, q % n;
    assert q == n * a + b;
    if b == n - 1 {
      assert n * (a + 1) == n * a + n;
      DivModUnique(q + 1, n, a + 1, 0);
    } else {
      DivModUnique(q + 1, n, a, b + 1);
    }
  }

  /** Entry i+1 is in the same sector, the next sector of the cluster, or the next cluster. */
  lemma IndexStep(i: nat, n: nat)
    requires n >= 1
    ensures var p, p' := 32 * i, 32 * (i + 1);
            if (i + 1) % 16 != 0 then
              ClusterIndex(p', n) == ClusterIndex(p, n) && SectorIndex(p', n) == SectorIndex(p, n)
            else if SectorIndex(p', n) != 0 then
              ClusterIndex(p', n) == ClusterIndex(p, n) && SectorIndex(p', n) == SectorIndex(p, n) + 1
            else ClusterIndex(p', n) == ClusterIndex(p, n) + 1
  {
    var q := i / 16;
    assert 32 * i / 512 == q;
    assert 32 * (i + 1) / 512 == if (i + 1) % 16 == 0 then q + 1 else q;
    if (i + 1) % 16 == 0 { NextDiv(q, n); }
  }

  /** Entry i+1 in the cluster of entry i. */
  lemma NextInCluster(d: Disk, g: Geometry, start: nat, i: nat, clust: nat, sect: nat)
    requires GoodDisk(d) && DirOk(g) && i + 1 < 65536 && start != 0 && StartSector(g, start) != 0
    requires LocOf(d, g, start, i) == At(sect)
    requires clust == ClusterAt(d, g, start, ClusterIndex(32 * i, g.csize)) && ValidCluster(g, clust)
    requires (i + 1) % 16 != 0 || SectorIndex(32 * (i + 1), g.csize) != 0
    ensures ClusterIndex(32 * (i + 1), g.csize) == ClusterIndex(32 * i, g.csize)
    ensures var l := LocOf(d, g, start, i + 1);
            if (i + 1) % 16 != 0 then l == At(sect) else l == At(Wrap(sect + 1)) && Wrap(sect + 1) != 0
  {
    IndexStep(i, g.csize);
    hide Wrap, ClusterIndex, SectorIndex, ClusterAt, Clust2Sect, GeoOk;
    ClusterSectors(g, clust, SectorIndex(32 * (i + 1), g.csize));
  }

  lemma NextInChain(d: Disk, g: Geometry, start: nat, i: nat, clust: nat, sect: nat)
    requires GoodDisk(d) && DirOk(g) && i + 1 < 65536 && start != 0 && StartSector(g, start) != 0
    requires LocOf(d, g, start, i) == At(sect)
    requires clust == ClusterAt(d, g, start, ClusterIndex(32 * i, g.csize)) && ValidCluster(g, clust)
    ensures var n, l := i + 1, LocOf(d, g, start, i + 1);
            if n % 16 != 0 then
              l == At(sect) && ClusterIndex(32 * n, g.csize) == ClusterIndex(32 * i, g.csize)
            else if And(n / 16, g.csize - 1) != 0 then
              && l == At(Wrap(sect + 1)) && Wrap(sect + 1) != 0
              && ClusterIndex(32 * n, g.csize) == ClusterIndex(32 * i, g.csize)
            else
              var c := GetFat(d, g, clust);
              && c == ClusterAt(d, g, start, ClusterIndex(32 * n, g.csize))
              && l == (if c <= 1 then Bad else if c >= g.nFatent then End else At(Clust2Sect(g, c)))
              && (ValidCluster(g, c) ==> Clust2Sect(g, c) != 0)
  {
    var n := i + 1;
    MaskSector(g, 32 * n);
    assert 32 * n / 512 == n / 16;
    hide And, Wrap, ClusterIndex, SectorIndex, GetFat, Clust2Sect, GeoOk;
    if n % 16 != 0 || SectorIndex(32 * n, g.csize) != 0 {
      NextInCluster(d, g, start, i, clust, sect);
    } else {
      IndexStep(i, g.csize);
      var c := ClusterAt(d, g, start, ClusterIndex(32 * n, g.csize));
      if ValidCluster(g, c) { ClusterSectors(g, c, 0); }
    }
  }

  lemma NextInFixed(d: Disk, g: Geometry, i: nat, sect: nat)
    requires GoodDisk(d) && DirOk(g) && i + 1 < 65536 && g.dirbase != 0 && g.fsType != Fat32 && LocOf(d, g, 0, i) == At(sect)
    ensures var n, l := i + 1, LocOf(d, g, 0, i + 1);
            if n % 16 != 0 then l == At(sect)
            else if n >= g.nRootdir then l == End
            else l == At(Wrap(sect + 1)) && Wrap(sect + 1) != 0
  {
    var n := i + 1;
    assert sect == g.dirbase + i / 16;
    if n % 16 == 0 {
      assert n / 16 == i / 16 + 1 && n - n % 16 == n;
      if n < g.nRootdir { NoWrap(sect + 1); }
    } else {
      assert n / 16 == i / 16 && n - n % 16 == i - i % 16;
    }
  }

  lemma TableEnds(d: Disk, g: Geometry, start: nat, i: nat)
    requires GoodDisk(d) && g.csize >= 1
    ensures i >= 65535 || StartSector(g, start) == 0 ==> LocOf(d, g, start, i + 1) == End
    ensures i == 0 && StartSector(g, start) == 0 ==> LocOf(d, g, start, i) == At(0)
    ensures i > 0 && StartSector(g, start) == 0 ==> LocOf(d, g, start, i) == End
  {
  }

  lemma RewindFacts(d: Disk, g: Geometry, start: nat)
    requires GoodDisk(d) && DirOk(g)
    ensures LocOf(d, g, start, 0) == At(StartSector(g, start))
    ensures StartSector(g, start) != 0 && start != 0 ==> start == ClusterAt(d, g, start, ClusterIndex(32 * 0, g.csize)) && ValidCluster(g, start)
  {
    assert ClusterIndex(0, g.csize) == 0 && SectorIndex(0, g.csize) == 0;
  }

  // ----- names and paths

  const SPACE: byte := 32
  const DOT: byte := 46
  const SLASH: byte := 47

  /** The path is a C string: past its last byte stands the terminator. */
  function CharAt(path: seq<byte>, p: nat): byte {
    if p < |path| then path[p] else 0
  }

  /** A scanned path segment: the name in directory form, the position behind the byte that
      ended it, and that byte. */
  datatype Segment = Segment(name: seq<byte>, next: nat, stop: byte)

  /** The scan of create_name from byte p on, with i name bytes stored and field limit ni. */
  function Scan(path: seq<byte>, p: nat, i: nat, ni: nat, sfn: seq<byte>): Segment
    requires |sfn| == 11 && (ni == 8 || ni == 11) && i <= ni
    decreases 11 - ni, ni - i
  {
    var c := CharAt(path, p);
    if c <= SPACE || c == SLASH then Segment(sfn, p + 1, c)
    else if c == DOT || i >= ni then
      if ni != 8 || c != DOT then Segment(sfn, p + 1, c) else Scan(path, p + 1, 8, 11, sfn)
    else Scan(path, p + 1, i + 1, ni, sfn[i := c])
  }

  function Blank(): (s: seq<byte>)
    ensures |s| == 11 && forall k :: 0 <= k < 11 ==> s[k] == SPACE
  {
    seq(11, _ => SPACE)
  }

  function SegmentAt(path: seq<byte>, p: nat): Segment { Scan(path, p, 0, 8, Blank()) }

  /** The scan consumes at least one and at most 13 bytes, never reads behind the terminator,
      and goes past the terminator only when that is the byte that ended it. */
  lemma {:induction false} ScanBounds(path: seq<byte>, p: nat, i: nat, ni: nat, sfn: seq<byte>)
    requires |sfn| == 11 && (ni == 8 || ni == 11) && i <= ni && p <= |path|
    ensures var s := Scan(path, p, i, ni, sfn);
            && |s.name| == 11 && p < s.next <= p + (if ni == 8 then 13 - i else 12 - i)
            && s.next <= |path| + 1 && (s.stop > SPACE ==> s.next <= |path|)
    decreases 11 - ni, ni - i
  {
    var c := CharAt(path, p);
    if c <= SPACE || c == SLASH {
    } else if c == DOT || i >= ni {
      if ni == 8 && c == DOT { ScanBounds(path, p + 1, 8, 11, sfn); }
    } else {
      ScanBounds(path, p + 1, i + 1, ni, sfn[i := c]);
    }
  }

  ghost predicate Plain(s: seq<byte>) {
    forall k :: 0 <= k < |s| ==> s[k] > SPACE && s[k] != DOT && s[k] != SLASH
  }

  ghost function Pad(s: seq<byte>, n: nat): (r: seq<byte>)
    requires |s| <= n
    ensures |r| == n
  {
    s + seq(n - |s|, _ => SPACE)
  }

  /** sfn with s written at position i. */
  ghost function Put(sfn: seq<byte>, i: nat, s: seq<byte>): (r: seq<byte>)
    requires i + |s| <= |sfn|
    ensures |r| == |sfn| && forall k :: 0 <= k < |sfn| ==> r[k] == if i <= k < i + |s| then s[k - i] else sfn[k]
  {
    sfn[..i] + s + sfn[i + |s|..]
  }

  lemma PutStep(sfn: seq<byte>, i: nat, s: seq<byte>)
    requires i + |s| <= |sfn| && s != []
    ensures Put(sfn[i := s[0]], i + 1, s[1..]) == Put(sfn, i, s)
  {
    hide Put;
  }

  /** The bytes of s stand in the path at p. */
  ghost predicate TextAt(path: seq<byte>, p: nat, s: seq<byte>) {
    p + |s| <= |path| && path[p..p + |s|] == s
  }

  lemma TextTail(path: seq<byte>, p: nat, s: seq<byte>)
    requires TextAt(path, p, s) && s != []
    ensures CharAt(path, p) == s[0] && TextAt(path, p + 1, s[1..])
  {
    var t := path[p..p + |s|];
    assert t[0] == path[p] && t[1..] == path[p + 1..p + |s|];
  }

  lemma TextPart(path: seq<byte>, p: nat, s: seq<byte>, i: nat, j: nat)
    requires TextAt(path, p, s) && i <= j <= |s|
    ensures TextAt(path, p + i, s[i..j]) && (i < |s| ==> CharAt(path, p + i) == s[i])
  {
    var t := path[p..p + |s|];
    assert forall k :: 0 <= k < j - i ==> t[i..j][k] == path[p + i..p + j][k];
    assert i < |s| ==> t[i] == path[p + i];
  }

  // The four ways a step of the scan goes.

  lemma ScanCopies(path: seq<byte>, p: nat, i: nat, ni: nat, sfn: seq<byte>)
    requires |sfn| == 11 && (ni == 8 || ni == 11) && i < ni && !Ends(CharAt(path, p)) && CharAt(path, p) != DOT
    ensures Scan(path, p, i, ni, sfn) == Scan(path, p + 1, i + 1, ni, sfn[i := CharAt(path, p)])
  {
  }

  lemma ScanDot(path: seq<byte>, p: nat, i: nat, sfn: seq<byte>)
    requires |sfn| == 11 && i <= 8 && CharAt(path, p) == DOT
    ensures Scan(path, p, i, 8, sfn) == Scan(path, p + 1, 8, 11, sfn)
  {
  }

  lemma ScanEnds(path: seq<byte>, p: nat, i: nat, ni: nat, sfn: seq<byte>)
    requires |sfn| == 11 && (ni == 8 || ni == 11) && i <= ni && Ends(CharAt(path, p))
    ensures Scan(path, p, i, ni, sfn) == Segment(sfn, p + 1, CharAt(path, p))
  {
  }

  lemma ScanOverflows(path: seq<byte>, p: nat, i: nat, ni: nat, sfn: seq<byte>)
    requires |sfn| == 11 && (ni == 8 || ni == 11) && i <= ni && !Ends(CharAt(path, p))
    requires (CharAt(path, p) == DOT || i == ni) && (ni == 11 || CharAt(path, p) != DOT)
    ensures Scan(path, p, i, ni, sfn) == Segment(sfn, p + 1, CharAt(path, p))
  {
  }

  lemma PlainTail(s: seq<byte>)
    requires Plain(s) && s != []
    ensures !Ends(s[0]) && s[0] != DOT && Plain(s[1..])
  {
  }

  /** Plain bytes that fit the field are copied as they stand. */
  lemma {:induction false} ScanPlain(path: seq<byte>, p: nat, i: nat, ni: nat, sfn: seq<byte>, s: seq<byte>)
    requires |sfn| == 11 && (ni == 8 || ni == 11) && i + |s| <= ni && Plain(s) && TextAt(path, p, s)
    ensures Scan(path, p, i, ni, sfn) == Scan(path, p + |s|, i + |s|, ni, Put(sfn, i, s))
    decreases |s|
  {
    hide Scan, TextAt, Plain, CharAt, Ends;
    if s == [] {
      assert Put(sfn, i, s) == sfn;
    } else {
      hide Put;
      PlainTail(s);
      TextTail(path, p, s);
      ScanCopies(path, p, i, ni, sfn);
      ScanPlain(path, p + 1, i + 1, ni, sfn[i := s[0]], s[1..]);
      PutStep(sfn, i, s);
    }
  }

  // ----- path components

  predicate Ends(c: byte) { c <= SPACE || c == SLASH }

  /** The path component at p: everything up to a slash, a space or the terminator. */
  function Component(path: seq<byte>, p: nat): (c: seq<byte>)
    requires p <= |path|
    ensures p + |c| <= |path| && Ends(CharAt(path, p + |c|))
    ensures forall k :: 0 <= k < |c| ==> !Ends(c[k])
    decreases |path| - p
  {
    if Ends(CharAt(path, p)) then [] else [path[p]] + Component(path, p + 1)
  }

  lemma {:induction false} ComponentText(path: seq<byte>, p: nat)
    requires p <= |path|
    ensures TextAt(path, p, Component(path, p))
    decreases |path| - p
  {
    if !Ends(CharAt(path, p)) {
      var t := Component(path, p + 1);
      ComponentText(path, p + 1);
      assert path[p..p + 1 + |t|] == [path[p]] + path[p + 1..p + 1 + |t|];
    }
  }

  /** c is a body of at most 8 bytes, or such a body, a dot and an extension of at most 3. */
  ghost predicate Short(c: seq<byte>) {
    (Plain(c) && |c| <= 8) || exists k: nat :: DotAt(c, k)
  }

  ghost predicate DotAt(c: seq<byte>, k: nat) {
    k < |c| && k <= 8 && |c| - k <= 4 && c[k] == DOT && Plain(c[..k]) && Plain(c[k + 1..])
  }

  /** The directory form of a component with its dot, if any, at k. */
  ghost function Fields(c: seq<byte>, k: nat): seq<byte>
    requires k <= 8 && k <= |c| <= k + 4
  {
    Pad(c[..k], 8) + Pad(if k < |c| then c[k + 1..] else [], 3)
  }

  /** The rest c of a component, met with i bytes stored and field limit ni, fits. */
  predicate Fits(c: seq<byte>, i: nat, ni: nat)
    decreases |c|
  {
    if c == [] then true
    else if c[0] == DOT || i >= ni then ni == 8 && c[0] == DOT && Fits(c[1..], 8, 11)
    else Fits(c[1..], i + 1, ni)
  }

  /** The scan reaches the end of a component exactly when the component fits its fields, and
      otherwise stops inside it. */
  lemma {:induction false} ScanReachesEnd(path: seq<byte>, p: nat, i: nat, ni: nat, sfn: seq<byte>)
    requires |sfn| == 11 && (ni == 8 || ni == 11) && i <= ni && p <= |path|
    ensures var s, c := Scan(path, p, i, ni, sfn), Component(path, p);
            if Fits(c, i, ni) then s.next == p + |c| + 1 && s.stop == CharAt(path, p + |c|)
            else s.next <= p + |c| && s.stop > SPACE && s.stop != SLASH
    decreases 11 - ni, ni - i
  {
    hide *;
    ComponentStep(path, p);
    var c := Component(path, p);
    FitsStep(c, i, ni);
    if c == [] {
      ScanEnds(path, p, i, ni, sfn);
    } else if c[0] == DOT || i == ni {
      if ni == 8 && c[0] == DOT {
        ScanDot(path, p, i, sfn);
        ScanReachesEnd(path, p + 1, 8, 11, sfn);
      } else {
        ScanOverflows(path, p, i, ni, sfn);
        NotEnding(c[0]);
      }
    } else {
      ScanCopies(path, p, i, ni, sfn);
      ScanReachesEnd(path, p + 1, i + 1, ni, sfn[i := c[0]]);
    }
  }

  lemma NotEnding(c: byte)
    requires !Ends(c)
    ensures c > SPACE && c != SLASH
  {
  }

  lemma ComponentStep(path: seq<byte>, p: nat)
    requires p <= |path|
    ensures var c := Component(path, p);
            if c == [] then Ends(CharAt(path, p))
            else
              && !Ends(CharAt(path, p)) && c[0] == CharAt(path, p) && p < |path|
              && c[1..] == Component(path, p + 1) && |c| == 1 + |Component(path, p + 1)|
  {
  }

  lemma FitsStep(c: seq<byte>, i: nat, ni: nat)
    requires i <= ni
    ensures c == [] ==> Fits(c, i, ni)
    ensures c != [] && (c[0] == DOT || i == ni) ==> (Fits(c, i, ni) <==> ni == 8 && c[0] == DOT && Fits(c[1..], 8, 11))
    ensures c != [] && !(c[0] == DOT || i == ni) ==> (Fits(c, i, ni) <==> Fits(c[1..], i + 1, ni))
  {
  }

  lemma {:induction false} FitsExtension(c: seq<byte>, i: nat)
    requires 8 <= i <= 11 && forall k :: 0 <= k < |c| ==> !Ends(c[k])
    ensures Fits(c, i, 11) <==> Plain(c) && |c| <= 11 - i
    decreases |c|
  {
    if c != [] && c[0] != DOT && i < 11 {
      FitsExtension(c[1..], i + 1);
      assert Plain(c) <==> Plain(c[1..]) by { assert c == [c[0]] + c[1..]; }
    }
  }

  lemma {:induction false} FitsBody(c: seq<byte>, i: nat)
    requires i <= 8 && forall k :: 0 <= k < |c| ==> !Ends(c[k])
    ensures Fits(c, i, 8) <==> (Plain(c) && |c| <= 8 - i) || DotWithin(c, 8 - i)
    decreases |c|
  {
    if c != [] {
      var t := c[1..];
      assert c == [c[0]] + t;
      if c[0] == DOT {
        FitsExtension(t, 8);
        DotFirst(c);
      } else if i < 8 {
        FitsBody(t, i + 1);
        DotLater(c, 8 - i);
      } else {
        assert forall k: nat :: k <= 0 ==> !DotAt(c, k);
      }
    }
  }

  lemma DotFirst(c: seq<byte>)
    requires c != [] && c[0] == DOT
    ensures DotAt(c, 0) <==> Plain(c[1..]) && |c| <= 4
    ensures forall k: nat :: k > 0 ==> !DotAt(c, k)
    ensures !Plain(c)
  {
    forall k: nat | k > 0 ensures !DotAt(c, k) {
      assert k <= |c| ==> c[..k][0] == DOT;
    }
  }

  lemma PlainCons(x: byte, s: seq<byte>)
    requires x != DOT && !Ends(x)
    ensures Plain([x] + s) <==> Plain(s)
  {
    var t := [x] + s;
    assert forall k :: 0 <= k < |s| ==> s[k] == t[k + 1];
  }

  lemma DotShift(c: seq<byte>, k: nat)
    requires c != [] && c[0] != DOT && !Ends(c[0]) && 1 <= k <= 8
    ensures DotAt(c[1..], k - 1) <==> DotAt(c, k)
  {
    var t := c[1..];
    if k < |c| {
      assert c[..k] == [c[0]] + t[..k - 1] && c[k + 1..] == t[k..];
      PlainCons(c[0], t[..k - 1]);
      hide Plain;
    }
  }

  /** c has its dot at most n bytes in. */
  ghost predicate DotWithin(c: seq<byte>, n: int) { exists k: nat :: DotAt(c, k) && k <= n }

  lemma DotNotFirst(c: seq<byte>)
    requires c != [] && c[0] != DOT
    ensures !DotAt(c, 0)
  {
  }

  lemma DotComesCloser(c: seq<byte>, n: nat)
    requires c != [] && c[0] != DOT && !Ends(c[0]) && 0 < n <= 8 && DotWithin(c, n)
    ensures DotWithin(c[1..], n - 1)
  {
    hide DotAt, Ends;
    DotNotFirst(c);
    var k: nat :| DotAt(c, k) && k <= n;
    DotShift(c, k);
  }

  lemma DotWasFurther(c: seq<byte>, n: nat)
    requires c != [] && c[0] != DOT && !Ends(c[0]) && 0 < n <= 8 && DotWithin(c[1..], n - 1)
    ensures DotWithin(c, n)
  {
    hide DotAt, Ends;
    var k: nat :| DotAt(c[1..], k) && k <= n - 1;
    DotShift(c, k + 1);
  }

  lemma DotLater(c: seq<byte>, n: nat)
    requires c != [] && c[0] != DOT && !Ends(c[0]) && 0 < n <= 8
    ensures Plain(c) <==> Plain(c[1..])
    ensures DotWithin(c, n) <==> DotWithin(c[1..], n - 1)
  {
    hide *;
    assert c == [c[0]] + c[1..];
    PlainCons(c[0], c[1..]);
    if DotWithin(c, n) { DotComesCloser(c, n); }
    if DotWithin(c[1..], n - 1) { DotWasFurther(c, n); }
  }

  /** A component is read as one name exactly when it is a short name. */
  lemma OneNamePerComponent(path: seq<byte>, p: nat)
    requires p <= |path|
    ensures var s, c := SegmentAt(path, p), Component(path, p);
            if Short(c) then s.next == p + |c| + 1 && s.stop == CharAt(path, p + |c|)
            else s.next <= p + |c| && s.stop > SPACE && s.stop != SLASH
  {
    hide Scan, Component, CharAt, Ends;
    var c := Component(path, p);
    ScanReachesEnd(path, p, 0, 8, Blank());
    FitsBody(c, 0);
    ShortFits(c);
  }

  lemma ShortFits(c: seq<byte>)
    requires Fits(c, 0, 8) <==> (Plain(c) && |c| <= 8) || DotWithin(c, 8)
    ensures Short(c) <==> Fits(c, 0, 8)
  {
    assert forall k: nat :: DotAt(c, k) ==> k <= 8;
    hide Plain, DotAt, Fits;
  }

  /** c is a body that ends at k, at a dot or at the end of c. */
  ghost predicate BodyEndsAt(c: seq<byte>, k: nat) {
    (k == |c| <= 8 && Plain(c)) || DotAt(c, k)
  }

  /** A short name, with or without extension, becomes its two space-padded fields. */
  lemma ShortName(path: seq<byte>, p: nat, k: nat)
    requires p <= |path| && BodyEndsAt(Component(path, p), k)
    ensures var c := Component(path, p); SegmentAt(path, p) == Segment(Fields(c, k), p + |c| + 1, CharAt(path, p + |c|))
  {
    var c := Component(path, p);
    hide *;
    BodyForms(c, k);
    ComponentText(path, p);
    if k < |c| { DottedName(path, p, c, k); } else { UndottedName(path, p, c); }
  }

  lemma BodyForms(c: seq<byte>, k: nat)
    requires BodyEndsAt(c, k)
    ensures k <= 8 && k <= |c| <= k + 4
    ensures if k < |c| then DotAt(c, k) else k == |c| && Plain(c)
  {
    hide Plain;
  }

  lemma UndottedName(path: seq<byte>, p: nat, c: seq<byte>)
    requires |c| <= 8 && Plain(c) && TextAt(path, p, c) && Ends(CharAt(path, p + |c|))
    ensures SegmentAt(path, p) == Segment(Fields(c, |c|), p + |c| + 1, CharAt(path, p + |c|))
  {
    hide SegmentAt, TextAt, Plain, CharAt, Ends, Pad;
    assert c[..|c|] == c;
    ScanUndotted(path, p, c);
  }

  lemma DottedName(path: seq<byte>, p: nat, c: seq<byte>, k: nat)
    requires TextAt(path, p, c) && DotAt(c, k) && Ends(CharAt(path, p + |c|))
    ensures SegmentAt(path, p) == Segment(Fields(c, k), p + |c| + 1, CharAt(path, p + |c|))
  {
    var body, ext := c[..k], c[k + 1..];
    hide SegmentAt, TextAt, Plain, CharAt, Ends, Pad;
    TextPart(path, p, c, 0, k);
    TextPart(path, p, c, k, k);
    TextPart(path, p, c, k + 1, |c|);
    assert c[0..k] == body && c[k + 1..|c|] == ext;
    ScanDotted(path, p, body, ext);
  }

  lemma ScanDotted(path: seq<byte>, p: nat, body: seq<byte>, ext: seq<byte>)
    requires |body| <= 8 && |ext| <= 3 && Plain(body) && Plain(ext)
    requires TextAt(path, p, body) && CharAt(path, p + |body|) == DOT && TextAt(path, p + |body| + 1, ext)
    requires Ends(CharAt(path, p + |body| + 1 + |ext|))
    ensures SegmentAt(path, p) == Segment(Pad(body, 8) + Pad(ext, 3), p + |body| + |ext| + 2, CharAt(path, p + |body| + 1 + |ext|))
  {
    hide Scan, SegmentAt, Put, Plain, TextAt, CharAt, Ends, Pad;
    var sfn := Put(Blank(), 0, body);
    var q, sfn' := p + |body| + 1, Put(sfn, 8, ext);
    ScanBody(path, p, body);
    ScanDot(path, p + |body|, |body|, sfn);
    ScanPlain(path, q, 8, 11, sfn, ext);
    ScanEnds(path, q + |ext|, 8 + |ext|, 11, sfn');
    FieldsArePut(body, ext, sfn, sfn');
  }

  lemma ScanUndotted(path: seq<byte>, p: nat, body: seq<byte>)
    requires |body| <= 8 && Plain(body) && TextAt(path, p, body) && Ends(CharAt(path, p + |body|))
    ensures SegmentAt(path, p) == Segment(Pad(body, 8) + Pad([], 3), p + |body| + 1, CharAt(path, p + |body|))
  {
    hide Scan, SegmentAt, Plain, TextAt, CharAt, Ends, Pad;
    var sfn := Put(Blank(), 0, body);
    assert Put(sfn, 8, []) == sfn;
    hide Put;
    ScanBody(path, p, body);
    ScanEnds(path, p + |body|, |body|, 8, sfn);
    FieldsArePut(body, [], sfn, sfn);
  }

  lemma ScanBody(path: seq<byte>, p: nat, body: seq<byte>)
    requires |body| <= 8 && Plain(body) && TextAt(path, p, body)
    ensures SegmentAt(path, p) == Scan(path, p + |body|, |body|, 8, Put(Blank(), 0, body))
  {
    hide Scan, Put, Plain, TextAt;
    ScanPlain(path, p, 0, 8, Blank(), body);
  }

  lemma FieldsArePut(body: seq<byte>, ext: seq<byte>, sfn: seq<byte>, sfn': seq<byte>)
    requires |body| <= 8 && |ext| <= 3 && sfn == Put(Blank(), 0, body) && sfn' == Put(sfn, 8, ext)
    ensures sfn' == Pad(body, 8) + Pad(ext, 3)
  {
  }

  /** A longer name is cut after its eighth byte, the ninth is dropped, and what is left is read as
      the next path segment. */
  lemma LongName(path: seq<byte>, p: nat, body: seq<byte>, c: byte)
    requires |body| == 8 && Plain(body + [c]) && TextAt(path, p, body + [c])
    ensures SegmentAt(path, p) == Segment(Pad(body, 8) + Pad([], 3), p + 9, c)
  {
    var sfn, whole := Put(Blank(), 0, body), body + [c];
    assert whole[0..8] == body && whole[8] == c;
    assert Plain(body) && !Ends(c) && c != DOT by { assert forall k :: 0 <= k < 8 ==> body[k] == whole[k]; }
    TextPart(path, p, whole, 0, 8);
    TextPart(path, p, whole, 8, 8);
    hide Scan, SegmentAt, Plain, TextAt, CharAt, Ends, Pad;
    assert Put(sfn, 8, []) == sfn;
    hide Put;
    ScanBody(path, p, body);
    ScanOverflows(path, p + 8, 8, 8, sfn);
    FieldsArePut(body, [], sfn, sfn);
  }

  /** So a name of 9 to 17 bytes without extension is two hops: LONGFILENAME is looked up as LONGFILE
      and, in there, AME. */
  lemma LongNameIsTwoHops(body: seq<byte>, c: byte, rest: seq<byte>)
    requires |body| == 8 && |rest| <= 8 && Plain(body + [c]) && Plain(rest)
    ensures var path := body + [c] + rest;
            && SegmentAt(path, 0) == Segment(Pad(body, 8) + Pad([], 3), 9, c)
            && SegmentAt(path, 9) == Segment(Pad(rest, 8) + Pad([], 3), |path| + 1, 0)
  {
    var path := body + [c] + rest;
    assert path[0..9] == body + [c] && path[9..] == rest;
    hide SegmentAt, Plain, Pad;
    LongName(path, 0, body, c);
    ScanUndotted(path, 9, rest);
  }

  lemma LongFileName()
    ensures var path: seq<byte> := [76, 79, 78, 71, 70, 73, 76, 69, 78, 65, 77, 69];
            SegmentAt(path, 0).next == 9 && SegmentAt(path, 9).name == Pad([65, 77, 69], 8) + Pad([], 3)
  {
    LongNameIsTwoHops([76, 79, 78, 71, 70, 73, 76, 69], 78, [65, 77, 69]);
    hide SegmentAt, Pad;
  }

  /** What the segment at p is in terms of the component there. */
  lemma NameOfComponent(path: seq<byte>, p: nat)
    requires p <= |path|
    ensures var s, c := SegmentAt(path, p), Component(path, p);
            && (forall k :: BodyEndsAt(c, k) ==> s == Segment(Fields(c, k), p + |c| + 1, CharAt(path, p + |c|)))
            && (!Short(c) ==> s.next <= p + |c| && s.stop > SPACE)
  {
    hide SegmentAt, Component, Plain, Fields, Short, CharAt, Ends;
    var c := Component(path, p);
    OneNamePerComponent(path, p);
    forall k | BodyEndsAt(c, k) ensures SegmentAt(path, p) == Segment(Fields(c, k), p + |c| + 1, CharAt(path, p + |c|)) {
      ShortName(path, p, k);
    }
  }

  /** fn is the short name there, flagged if it is the last, and next is behind it; a component that
      is not a short name is left in the middle. */
  ghost predicate ReadsComponent(path: seq<byte>, pos: nat, fn: seq<byte>, next: nat)
    requires pos <= |path| && |fn| == 12
  {
    var c := Component(path, pos);
    && (forall k :: BodyEndsAt(c, k) ==>
          fn[..11] == Fields(c, k) && next == pos + |c| + 1 && fn[11] == (if CharAt(path, pos + |c|) <= SPACE then 1 else 0))
    && (!Short(c) ==> next <= pos + |c| && fn[11] == 0)
  }

  method CreateName(path: seq<byte>, pos: nat) returns (fn: seq<byte>, next: nat)
    requires pos <= |path|
    ensures |fn| == 12
    ensures var s := SegmentAt(path, pos); fn[..11] == s.name && fn[11] == (if s.stop <= SPACE then 1 else 0) && next == s.next
    ensures pos < next <= |path| + 1 && (fn[11] == 0 ==> next <= |path|)
    ensures ReadsComponent(path, pos, fn, next)
  {
    hide SegmentAt, Component, Plain, Fields, Short, CharAt, Ends;
    var sfn, c, si := ScanPath(path, pos);
    fn := sfn + [if c <= SPACE then 1 else 0];
    next := pos + si;
    assert fn[..11] == sfn;
    NameOfComponent(path, pos);
  }

  lemma EndsIs(c: byte)
    ensures Ends(c) <==> c <= SPACE || c == SLASH
  {
  }

  lemma CharInside(path: seq<byte>, p: nat)
    ensures CharAt(path, p) > SPACE ==> p < |path|
  {
  }

  /** The scan that began at pos has come to p. */
  ghost predicate Midscan(path: seq<byte>, pos: nat, p: nat, i: nat, ni: nat, sfn: seq<byte>) {
    && |sfn| == 11 && (ni == 8 || ni == 11) && i <= ni && p <= |path|
    && SegmentAt(path, pos) == Scan(path, p, i, ni, sfn)
  }

  lemma MidStarts(path: seq<byte>, pos: nat)
    requires pos <= |path|
    ensures Midscan(path, pos, pos, 0, 8, Blank())
  {
    hide Scan;
  }

  lemma MidCopies(path: seq<byte>, pos: nat, p: nat, i: nat, ni: nat, sfn: seq<byte>)
    requires Midscan(path, pos, p, i, ni, sfn) && i < ni && i < |sfn| && !Ends(CharAt(path, p)) && CharAt(path, p) != DOT
    ensures Midscan(path, pos, p + 1, i + 1, ni, sfn[i := CharAt(path, p)])
  {
    hide Scan, SegmentAt;
    ScanCopies(path, p, i, ni, sfn);
    EndsIs(CharAt(path, p));
    CharInside(path, p);
  }

  lemma MidDot(path: seq<byte>, pos: nat, p: nat, i: nat, sfn: seq<byte>)
    requires Midscan(path, pos, p, i, 8, sfn) && CharAt(path, p) == DOT
    ensures Midscan(path, pos, p + 1, 8, 11, sfn)
  {
    hide Scan, SegmentAt;
    ScanDot(path, p, i, sfn);
    CharInside(path, p);
  }

  lemma MidStops(path: seq<byte>, pos: nat, p: nat, i: nat, ni: nat, sfn: seq<byte>)
    requires Midscan(path, pos, p, i, ni, sfn)
    requires var c := CharAt(path, p); Ends(c) || ((c == DOT || i >= ni) && (ni != 8 || c != DOT))
    ensures |sfn| == 11 && SegmentAt(path, pos) == Segment(sfn, p + 1, CharAt(path, p))
  {
    hide Scan, SegmentAt;
    if Ends(CharAt(path, p)) { ScanEnds(path, p, i, ni, sfn); } else { ScanOverflows(path, p, i, ni, sfn); }
  }

  lemma MidBounds(path: seq<byte>, pos: nat, p: nat, i: nat, ni: nat, sfn: seq<byte>)
    requires Midscan(path, pos, p, i, ni, sfn)
    ensures |sfn| == 11 && (ni == 8 || ni == 11) && i <= ni && p <= |path|
  {
  }

  /** The loop of create_name. */
  method ScanPath(path: seq<byte>, pos: nat) returns (sfn: seq<byte>, c: byte, si: nat)
    requires pos <= |path|
    ensures |sfn| == 11 && SegmentAt(path, pos) == Segment(sfn, pos + si, c)
    ensures 0 < si && pos + si <= |path| + 1 && (c > SPACE ==> pos + si <= |path|)
  {
    hide *;
    sfn, c, si := Blank(), SPACE, 0;
    var i, ni := 0, 8;
    MidStarts(path, pos);
    while true
      invariant 0 <= i <= ni <= 11 && 0 <= si && Midscan(path, pos, pos + si, i, ni, sfn)
      decreases 11 - ni, ni - i
    {
      ghost var p := pos + si;
      MidBounds(path, pos, p, i, ni, sfn);
      c := CharAt(path, pos + si);
      CharInside(path, p);
      EndsIs(c);
      si := si + 1;
      if c <= SPACE || c == SLASH {
        MidStops(path, pos, p, i, ni, sfn);
        break;
      }
      if c == DOT || i >= ni {
        if ni != 8 || c != DOT {
          MidStops(path, pos, p, i, ni, sfn);
          break;
        }
        MidDot(path, pos, p, i, sfn);
        i, ni := 8, 11;
        continue;
      }
      MidCopies(path, pos, p, i, ni, sfn);
      sfn := sfn[i := c];
      i := i + 1;
    }
  }

  /** get_clust: the low word, and on FAT32 the high word shifted in. */
  function GetClust(g: Geometry, e: seq<byte>): nat
    requires |e| == 32
  {
    (if g.fsType == Fat32 then 65536 * LdWord(e, 20) else 0) + LdWord(e, 26)
  }

  /** The first cluster by the bytes of the entry: 26 and 27, and on FAT32 also 20 and 21. */
  ghost function FirstCluster(g: Geometry, e: seq<byte>): nat
    requires |e| == 32
  {
    (e[26] as nat) + 256 * (e[27] as nat) + (if g.fsType == Fat32 then 65536 * (e[20] as nat) + 16777216 * (e[21] as nat) else 0)
  }

  /** The file size by its bytes. */
  ghost function SizeOf(e: seq<byte>): nat
    requires |e| == 32
  {
    (e[28] as nat) + 256 * (e[29] as nat) + 65536 * (e[30] as nat) + 16777216 * (e[31] as nat)
  }

  lemma EntryFields(g: Geometry, e: seq<byte>)
    requires |e| == 32
    ensures GetClust(g, e) == FirstCluster(g, e) && LdDword(e, 28) == SizeOf(e)
  {
  }

  /** The attribute bit 16, directory, is set. */
  ghost predicate IsDir(e: seq<byte>)
    requires |e| == 32
  {
    e[11] / 16 % 2 == 1
  }

  lemma DirBit(e: seq<byte>)
    requires |e| == 32
    ensures IsDir(e) <==> And(e[11] as nat, AM_DIR) != 0
  {
    AttributeBits(e);
  }

  /** One step of a path: the segment at `pos` is entry `index` of the directory `sclust`. */
  datatype Hop = Hop(sclust: nat, pos: nat, index: nat, entry: seq<byte>)

  ghost predicate HopOk(d: Disk, g: Geometry, path: seq<byte>, h: Hop)
    requires GoodDisk(d) && g.csize >= 1
  {
    var start, name := StartCluster(g, h.sclust), SegmentAt(path, h.pos).name;
    && |name| == 11 && (forall j :: 0 <= j < h.index ==> Passed(d, g, start, name, j))
    && LocOf(d, g, start, h.index).At? && LocOf(d, g, start, h.index).sect in d
    && h.entry == EntryAt(d, LocOf(d, g, start, h.index).sect, h.index)
    && h.entry[0] != 0 && Matches(h.entry, name)
  }

  ghost predicate HopsLink(g: Geometry, path: seq<byte>, h: Hop, k: Hop) {
    && |h.entry| == 32 && SegmentAt(path, h.pos).stop > SPACE && IsDir(h.entry)
    && k.sclust == FirstCluster(g, h.entry) && k.pos == SegmentAt(path, h.pos).next
  }

  /** The path resolves through these hops from the root: every segment but the last is a
      directory, and each is the first entry of its name in the one before. */
  ghost predicate Resolves(d: Disk, g: Geometry, path: seq<byte>, w: seq<Hop>)
    requires GoodDisk(d) && g.csize >= 1
  {
    && (forall t :: 0 <= t < |w| ==> HopOk(d, g, path, w[t]))
    && (forall t :: 0 <= t < |w| - 1 ==> HopOk(d, g, path, w[t]) && HopsLink(g, path, w[t], w[t + 1]))
  }

  /** The next hop starts behind the slash that ends this component exactly when the component is a
      short name; otherwise it starts inside the component. */
  lemma HopPerComponent(g: Geometry, path: seq<byte>, h: Hop, k: Hop)
    requires HopsLink(g, path, h, k) && h.pos <= |path|
    ensures var c := Component(path, h.pos);
            && (Short(c) <==> k.pos == h.pos + |c| + 1)
            && (Short(c) ==> CharAt(path, h.pos + |c|) == SLASH && k.pos <= |path|)
  {
    hide SegmentAt, Component, Short, IsDir, FirstCluster;
    OneNamePerComponent(path, h.pos);
  }

  /** All components from p on are short names. */
  ghost predicate AllShort(path: seq<byte>, p: nat)
    requires p <= |path|
    decreases |path| - p
  {
    var c := Component(path, p);
    Short(c) && (CharAt(path, p + |c|) == SLASH ==> AllShort(path, p + |c| + 1))
  }

  /** A path of short names is followed component by component. */
  lemma {:induction false} ShortPathHops(d: Disk, g: Geometry, path: seq<byte>, w: seq<Hop>, t: nat)
    requires GoodDisk(d) && g.csize >= 1 && Resolves(d, g, path, w) && t < |w| && w[0].pos == PathStart(path)
    requires AllShort(path, PathStart(path))
    ensures w[t].pos <= |path| && AllShort(path, w[t].pos)
    ensures t > 0 ==> w[t - 1].pos <= |path| && w[t].pos == w[t - 1].pos + |Component(path, w[t - 1].pos)| + 1
  {
    hide HopOk, HopsLink, Component, PathStart, CharAt, Short;
    if t > 0 {
      ShortPathHops(d, g, path, w, t - 1);
      assert HopsLink(g, path, w[t - 1], w[t - 1 + 1]);
      hide Resolves;
      HopPerComponent(g, path, w[t - 1], w[t]);
    }
  }

  lemma ResolvesMore(d: Disk, g: Geometry, path: seq<byte>, w: seq<Hop>, h: Hop)
    requires GoodDisk(d) && g.csize >= 1 && Resolves(d, g, path, w) && HopOk(d, g, path, h)
    requires w != [] ==> HopOk(d, g, path, w[|w| - 1]) && HopsLink(g, path, w[|w| - 1], h)
    ensures Resolves(d, g, path, w + [h])
  {
    hide HopOk, HopsLink;
    var v := w + [h];
    forall t | 0 <= t < |v| - 1 ensures HopOk(d, g, path, v[t]) && HopsLink(g, path, v[t], v[t + 1]) {
      if t < |w| - 1 { assert HopsLink(g, path, w[t], w[t + 1]); }
    }
  }

  /** The name is not in the directory: the start cluster is out of range, or the first entry that
      stops the search is not the one looked for. */
  ghost predicate LookupFails(d: Disk, g: Geometry, sclust: nat, name: seq<byte>, res: FResult)
    requires GoodDisk(d) && g.csize >= 1 && |name| == 11
  {
    if sclust == 1 || sclust >= g.nFatent then res == DiskErr
    else exists i: nat :: StopsAt(d, g, StartCluster(g, sclust), name, i, res)
  }

  ghost predicate StopsAt(d: Disk, g: Geometry, start: nat, name: seq<byte>, i: nat, res: FResult)
    requires GoodDisk(d) && g.csize >= 1 && |name| == 11
  {
    && (forall j :: 0 <= j < i ==> Passed(d, g, start, name, j))
    && !Passed(d, g, start, name, i) && res == Verdict(d, g, start, name, i) != Ok
  }

  /** The path resolves as far as w and no further: more text follows a file, or the next segment is
      not in the directory reached. */
  ghost predicate Breaks(d: Disk, g: Geometry, path: seq<byte>, w: seq<Hop>, res: FResult)
    requires GoodDisk(d) && g.csize >= 1
  {
    if w != [] && !(|w[|w| - 1].entry| == 32 && IsDir(w[|w| - 1].entry)) then
      SegmentAt(path, w[|w| - 1].pos).stop > SPACE && res == NoFile
    else
      var sclust := if w == [] then 0 else FirstCluster(g, w[|w| - 1].entry);
      var name := SegmentAt(path, if w == [] then PathStart(path) else SegmentAt(path, w[|w| - 1].pos).next).name;
      |name| == 11 && LookupFails(d, g, sclust, name, res) && (w != [] ==> SegmentAt(path, w[|w| - 1].pos).stop > SPACE)
  }

  /** Where a path starts after leading spaces and one slash. */
  function SkipSpaces(path: seq<byte>, p: nat): (q: nat)
    requires p <= |path|
    ensures p <= q <= |path| && CharAt(path, q) != SPACE
    decreases |path| - p
  {
    if CharAt(path, p) == SPACE then SkipSpaces(path, p + 1) else p
  }

  function PathStart(path: seq<byte>): (q: nat)
    ensures q <= |path|
  {
    var q := SkipSpaces(path, 0);
    if CharAt(path, q) == SLASH then q + 1 else q
  }

  /** That is: n spaces, then no space, then one byte more if it is a slash. */
  lemma {:induction false} SkipExact(path: seq<byte>, p: nat)
    requires p <= |path|
    ensures forall k :: p <= k < SkipSpaces(path, p) ==> CharAt(path, k) == SPACE
    decreases |path| - p
  {
    if CharAt(path, p) == SPACE { SkipExact(path, p + 1); }
  }

  lemma PathStartExact(path: seq<byte>, n: nat)
    requires n <= |path| && (forall k :: 0 <= k < n ==> path[k] == SPACE) && CharAt(path, n) != SPACE
    ensures PathStart(path) == if CharAt(path, n) == SLASH then n + 1 else n
  {
    var q := SkipSpaces(path, 0);
    SkipExact(path, 0);
    hide SkipSpaces;
    assert CharAt(path, q) != SPACE && forall k :: 0 <= k < q ==> CharAt(path, k) == SPACE;
    assert n < q ==> CharAt(path, n) == SPACE;
  }

  method SkipToName(path: seq<byte>) returns (pos: nat)
    ensures pos == PathStart(path)
  {
    pos := 0;
    while CharAt(path, pos) == SPACE
      invariant pos <= |path| && SkipSpaces(path, 0) == SkipSpaces(path, pos)
      decreases |path| - pos
    {
      pos := pos + 1;
    }
    if CharAt(path, pos) == SLASH { pos := pos + 1; }
  }

  /** One turn of the loop: read the segment at pos and look it up in the directory reached. */
  method NextHop(dj: Dir, path: seq<byte>, pos: nat, ghost w: seq<Hop>)
    returns (res: FResult, dir: seq<byte>, last: bool, next: nat, ghost h: Hop)
    requires dj.Valid() && pos <= |path| && Resolves(dj.d, dj.g, path, w) && Reaches(dj.d, dj.g, path, w, dj.sclust, pos)
    requires w == [] ==> dj.sclust == 0 && pos == PathStart(path)
    modifies dj
    ensures dj.Valid() && dj.sclust == old(dj.sclust) && |dir| == 32 && pos < next <= |path| + 1
    ensures var s := SegmentAt(path, pos); last == (s.stop <= SPACE) && next == s.next && (!last ==> next <= |path|)
    ensures res != Ok ==> Breaks(dj.d, dj.g, path, w, res)
    ensures res == Ok ==>
              && h.sclust == dj.sclust && h.pos == pos && h.entry == dir && dir[0] != 0
              && HopOk(dj.d, dj.g, path, h) && Resolves(dj.d, dj.g, path, w + [h])
  {
    assert dj.g.csize >= 1 && GoodDisk(dj.d) && DirOk(dj.g);
    hide GoodDisk, DirOk, ReadsComponent, Resolves, HopOk, HopsLink, LocOf, Passed, SegmentAt, Breaks, PathStart, Reaches, Matches,
         StartCluster, EntryAt, Verdict, CharAt;
    var fn;
    fn, next := CreateName(path, pos);
    last := fn[11] != 0;
    dj.fn := fn;
    ghost var i;
    res, dir, i := dj.DirFind();
    h := Hop(dj.sclust, pos, i, dir);
    if res != Ok {
      BrokenHop(dj.d, dj.g, path, w, dj.sclust, pos, fn, i, res);
    } else {
      FoundHop(dj.d, dj.g, path, fn, h);
      assert dir[0] != 0 by { HopEntry(dj.d, dj.g, path, h); }
      ReachesHop(dj.d, dj.g, path, w, h);
    }
  }

  lemma HopEntry(d: Disk, g: Geometry, path: seq<byte>, h: Hop)
    requires GoodDisk(d) && g.csize >= 1 && HopOk(d, g, path, h)
    ensures |h.entry| == 32 && h.entry[0] != 0
  {
  }

  /** follow_path stops for every path and every disk: each segment consumes path text. A
      path that is found resolves hop by hop from the root directory. */
  method FollowPath(dj: Dir, path: seq<byte>) returns (res: FResult, dir: seq<byte>, ghost w: seq<Hop>)
    requires dj.Valid()
    modifies dj
    ensures dj.Valid() && |dir| == 32 && Resolves(dj.d, dj.g, path, w)
    ensures CharAt(path, PathStart(path)) < SPACE ==> res == Ok && w == [] && dir[0] == 0
    ensures CharAt(path, PathStart(path)) >= SPACE && res != Ok ==> Breaks(dj.d, dj.g, path, w, res)
    ensures CharAt(path, PathStart(path)) >= SPACE && res == Ok ==>
              && w != [] && w[0].sclust == 0 && w[0].pos == PathStart(path)
              && dir == w[|w| - 1].entry && dir[0] != 0 && SegmentAt(path, w[|w| - 1].pos).stop <= SPACE
  {
    assert dj.g.nFatent >= 2 && dj.g.csize >= 1 && GoodDisk(dj.d) && DirOk(dj.g);
    hide GoodDisk, DirOk, And, ReadsComponent, Resolves, GeoOk, HopOk, HopsLink, LocOf, Passed, SegmentAt, Breaks, PathStart, Reaches, IsDir, GetClust, FirstCluster, Matches,
         StartCluster, EntryAt, Verdict, CharAt;
    var pos := SkipToName(path);
    dj.sclust := 0;
    w, dir := [], seq(32, _ => 0);
    NoHops(dj.d, dj.g, path, pos);
    if CharAt(path, pos) < SPACE {
      res := dj.DirRewind();
      return;
    }
    while true
      invariant dj.Valid() && pos <= |path| && |dir| == 32 && Resolves(dj.d, dj.g, path, w)
      invariant w == [] ==> dj.sclust == 0 && pos == PathStart(path)
      invariant w != [] ==> w[0].sclust == 0 && w[0].pos == PathStart(path)
      invariant Reaches(dj.d, dj.g, path, w, dj.sclust, pos)
      decreases |path| + 1 - pos
    {
      var last, next;
      ghost var h;
      res, dir, last, next, h := NextHop(dj, path, pos, w);
      if res != Ok { return; }
      w := w + [h];
      if last { return; }
      DirBit(dir);
      EntryFields(dj.g, dir);
      if And(dir[11] as nat, AM_DIR) == 0 {
        BrokenFile(dj.d, dj.g, path, w);
        return NoFile, dir, w;
      }
      dj.sclust := GetClust(dj.g, dir);
      pos := next;
      HopReaches(dj.d, dj.g, path, w, dj.sclust, pos);
    }
  }

  /** The next hop, if any, will be looked up in directory `sclust` from path position `pos`. */
  ghost predicate Reaches(d: Disk, g: Geometry, path: seq<byte>, w: seq<Hop>, sclust: nat, pos: nat)
    requires GoodDisk(d) && g.csize >= 1
  {
    w != [] ==>
      var h := w[|w| - 1];
      && HopOk(d, g, path, h) && SegmentAt(path, h.pos).stop > SPACE && IsDir(h.entry)
      && sclust == FirstCluster(g, h.entry) && pos == SegmentAt(path, h.pos).next
  }

  lemma BrokenHop(d: Disk, g: Geometry, path: seq<byte>, w: seq<Hop>, sclust: nat, pos: nat, fn: seq<byte>, i: nat, res: FResult)
    requires GoodDisk(d) && g.csize >= 1 && Reaches(d, g, path, w, sclust, pos) && res != Ok
    requires |fn| == 12 && fn[..11] == SegmentAt(path, pos).name && (w == [] ==> sclust == 0 && pos == PathStart(path))
    requires sclust == 1 || sclust >= g.nFatent ==> res == DiskErr
    requires !(sclust == 1 || sclust >= g.nFatent) ==> StopsAt(d, g, StartCluster(g, sclust), fn[..11], i, res)
    ensures Breaks(d, g, path, w, res)
  {
    hide SegmentAt, StopsAt, PathStart, Passed, EntryAt;
  }

  lemma BrokenFile(d: Disk, g: Geometry, path: seq<byte>, w: seq<Hop>)
    requires GoodDisk(d) && g.csize >= 1 && w != [] && |w[|w| - 1].entry| == 32 && !IsDir(w[|w| - 1].entry)
    requires SegmentAt(path, w[|w| - 1].pos).stop > SPACE
    ensures Breaks(d, g, path, w, NoFile)
  {
    hide SegmentAt;
  }

  lemma FoundHop(d: Disk, g: Geometry, path: seq<byte>, fn: seq<byte>, h: Hop)
    requires GoodDisk(d) && g.csize >= 1 && |fn| == 12 && fn[..11] == SegmentAt(path, h.pos).name && |h.entry| == 32
    requires var start := StartCluster(g, h.sclust);
             && (forall j :: 0 <= j < h.index ==> Passed(d, g, start, fn[..11], j))
             && Verdict(d, g, start, fn[..11], h.index) == Ok
             && h.entry == EntryAt(d, LocOf(d, g, start, h.index).sect, h.index) && Matches(h.entry, fn[..11])
    ensures HopOk(d, g, path, h)
  {
  }

  lemma ReachesHop(d: Disk, g: Geometry, path: seq<byte>, w: seq<Hop>, h: Hop)
    requires GoodDisk(d) && g.csize >= 1 && Resolves(d, g, path, w) && HopOk(d, g, path, h)
    requires Reaches(d, g, path, w, h.sclust, h.pos)
    ensures Resolves(d, g, path, w + [h])
  {
    ResolvesMore(d, g, path, w, h);
  }

  lemma HopReaches(d: Disk, g: Geometry, path: seq<byte>, w: seq<Hop>, sclust: nat, pos: nat)
    requires GoodDisk(d) && g.csize >= 1 && w != []
    requires var h := w[|w| - 1];
             && HopOk(d, g, path, h) && SegmentAt(path, h.pos).stop > SPACE && IsDir(h.entry)
             && sclust == FirstCluster(g, h.entry) && pos == SegmentAt(path, h.pos).next
    ensures Reaches(d, g, path, w, sclust, pos)
  {
  }

  lemma NoHops(d: Disk, g: Geometry, path: seq<byte>, pos: nat)
    requires GoodDisk(d) && g.csize >= 1
    ensures Resolves(d, g, path, []) && Reaches(d, g, path, [], 0, pos)
  {
  }

  ghost predicate EndsInDirectory(path: seq<byte>, w: seq<Hop>) {
    w != [] && var e := w[|w| - 1].entry; |e| == 32 && IsDir(e) && SegmentAt(path, w[|w| - 1].pos).stop <= SPACE
  }

  /** Opening a file: found and not a directory, then positioned at its start. */
  method PfOpen(fs: FileSystem, path: seq<byte>) returns (res: FResult, ghost w: seq<Hop>)
    requires fs.Valid() && (fs.enabled ==> DirOk(fs.g))
    modifies fs`isOpen, fs`orgClust, fs`fsize, fs`fptr
    ensures fs.Valid()
    ensures !fs.enabled ==> res == NotEnabled
    ensures fs.enabled ==> (fs.isOpen <==> res == Ok)
    ensures fs.enabled && res != Ok ==>
              if CharAt(path, PathStart(path)) < SPACE then res == NoFile
              else (res == NoFile && EndsInDirectory(path, w)) || Breaks(fs.disk, fs.g, path, w, res)
    ensures fs.enabled && res == Ok ==>
              && w != [] && Resolves(fs.disk, fs.g, path, w) && w[0].sclust == 0 && w[0].pos == PathStart(path)
              && var e := w[|w| - 1].entry;
                 && |e| == 32 && !IsDir(e) && SegmentAt(path, w[|w| - 1].pos).stop <= SPACE
                 && fs.orgClust == FirstCluster(fs.g, e) && fs.fsize == SizeOf(e) && fs.fptr == 0
  {
    hide Resolves, GeoOk, SegmentAt, Breaks;
    w := [];
    if !fs.enabled { return NotEnabled, w; }
    fs.isOpen := false;
    var dj := new Dir(fs.disk, fs.g);
    var dir;
    res, dir, w := FollowPath(dj, path);
    if res != Ok { return; }
    DirBit(dir);
    EntryFields(fs.g, dir);
    if dir[0] == 0 || And(dir[11] as nat, AM_DIR) != 0 { return NoFile, w; }
    fs.orgClust, fs.fsize, fs.fptr := GetClust(fs.g, dir), LdDword(dir, 28), 0;
    fs.isOpen := true;
    EmptyCursor(fs.disk, fs.g, fs.orgClust, fs.currClust, fs.dsect);
  }
}
