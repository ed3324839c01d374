/** What the bytes of a file or of a directory are, without the arithmetic of the cursor: the sectors of the
    clusters of its chain, one after the other. */
module FatContent {
  import opened Common
  import opened Bits
  import opened FatCore
  import opened FatFile
  import opened FatDir

  /** cs is a chain from org on: each cluster is a data cluster and the table entry of the one before. */
  ghost predicate IsChain(d: Disk, g: Geometry, org: nat, cs: seq<nat>)
    requires GoodDisk(d)
  {
    && (forall k :: 0 <= k < |cs| ==> ValidCluster(g, cs[k]))
    && (cs != [] ==> cs[0] == org)
    && forall k :: 0 < k < |cs| ==> cs[k] == GetFat(d, g, cs[k - 1])
  }

  /** Data cluster 2 is the first, and clusters follow each other. */
  ghost function FirstSector(g: Geometry, c: nat): nat
    requires ValidCluster(g, c)
  {
    g.database + (c - 2) * g.csize
  }

  ghost predicate Readable(d: Disk, s: nat, n: nat) { forall j :: s <= j < s + n ==> j in d }

  /** n sectors from s on. */
  ghost function SectorBytes(d: Disk, s: nat, n: nat): (b: seq<byte>)
    requires GoodDisk(d) && Readable(d, s, n)
    ensures |b| == 512 * n
  {
    if n == 0 then [] else SectorBytes(d, s, n - 1) + d[s + n - 1]
  }

  ghost predicate AllReadable(d: Disk, g: Geometry, cs: seq<nat>) {
    forall k :: 0 <= k < |cs| ==> ValidCluster(g, cs[k]) && Readable(d, FirstSector(g, cs[k]), g.csize)
  }

  /** The clusters of the chain, one after the other. */
  ghost function Content(d: Disk, g: Geometry, cs: seq<nat>): seq<byte>
    requires GoodDisk(d) && AllReadable(d, g, cs)
  {
    if cs == [] then []
    else
      var n := |cs| - 1;
      Content(d, g, cs[..n]) + SectorBytes(d, FirstSector(g, cs[n]), g.csize)
  }

  lemma {:induction false} ContentLength(d: Disk, g: Geometry, cs: seq<nat>)
    requires GoodDisk(d) && AllReadable(d, g, cs)
    ensures |Content(d, g, cs)| == |cs| * (512 * g.csize)
  {
    hide Readable, FirstSector, GoodDisk;
    if cs != [] {
      var n := |cs| - 1;
      ContentLength(d, g, cs[..n]);
      OneMore(n, 512 * g.csize);
    }
  }

  lemma OneMore(n: nat, x: nat)
    ensures (n + 1) * x == n * x + x
  {
  }

  lemma {:induction false} SectorByte(d: Disk, s: nat, n: nat, i: nat)
    requires GoodDisk(d) && Readable(d, s, n) && i < 512 * n
    ensures s + i / 512 in d && SectorBytes(d, s, n)[i] == d[s + i / 512][i % 512]
  {
    if i < 512 * (n - 1) {
      SectorByte(d, s, n - 1, i);
    } else {
      DivModUnique(i, 512, n - 1, i - 512 * (n - 1));
    }
  }

  lemma {:induction false} ChainClusters(d: Disk, g: Geometry, org: nat, cs: seq<nat>, k: nat)
    requires GoodDisk(d) && IsChain(d, g, org, cs) && k < |cs|
    ensures ClusterAt(d, g, org, k) == cs[k]
  {
    hide GetFat;
    if k > 0 { ChainClusters(d, g, org, cs, k - 1); }
  }

  /** Byte `pos` in the last cluster of a chain of n + 1. */
  lemma PositionIn(n: nat, csize: nat, pos: nat, i: nat)
    requires csize >= 1 && pos == n * (512 * csize) + i && i < 512 * csize
    ensures ClusterIndex(pos, csize) == n && SectorIndex(pos, csize) == i / 512 && pos % 512 == i % 512
  {
    assert n * (512 * csize) == 512 * (n * csize) == 512 * (csize * n);
    DivModUnique(pos, 512, csize * n + i / 512, i % 512);
    DivModUnique(csize * n + i / 512, csize, n, i / 512);
  }

  /** Byte `pos` of a file is byte `pos` of that content. */
  lemma {:induction false} ByteOfContent(d: Disk, g: Geometry, org: nat, cs: seq<nat>, pos: nat)
    requires GoodDisk(d) && GeoOk(g) && g.csize >= 1 && IsChain(d, g, org, cs) && AllReadable(d, g, cs)
    requires pos < |Content(d, g, cs)|
    ensures ByteAt(d, g, org, pos) == Some(Content(d, g, cs)[pos])
    decreases |cs|
  {
    var n := |cs| - 1;
    ContentLength(d, g, cs[..n]);
    hide GeoOk, ByteAt, Clust2Sect, GetFat, FirstSector;
    if pos < n * (512 * g.csize) {
      ByteOfContent(d, g, org, cs[..n], pos);
    } else {
      LastCluster(d, g, org, cs, pos, pos - n * (512 * g.csize));
    }
  }

  lemma LastCluster(d: Disk, g: Geometry, org: nat, cs: seq<nat>, pos: nat, i: nat)
    requires GoodDisk(d) && GeoOk(g) && g.csize >= 1 && cs != [] && IsChain(d, g, org, cs) && AllReadable(d, g, cs)
    requires pos == (|cs| - 1) * (512 * g.csize) + i && i < 512 * g.csize
    ensures ByteAt(d, g, org, pos) == Some(SectorBytes(d, FirstSector(g, cs[|cs| - 1]), g.csize)[i])
  {
    var n := |cs| - 1;
    var c := cs[n];
    hide GetFat, SectorBytes;
    assert ValidCluster(g, c) && Readable(d, FirstSector(g, c), g.csize);
    ChainClusters(d, g, org, cs, n);
    assert i / 512 < g.csize;
    ClusterSectors(g, c, i / 512);
    SectorByte(d, FirstSector(g, c), g.csize, i);
    PositionIn(n, g.csize, pos, i);
    hide GeoOk, IsChain, AllReadable, Readable, SectorBytes, ClusterIndex, SectorIndex, ClusterAt, Clust2Sect;
  }

  /** A byte string is the file at org if and only if it is the beginning of the content of its chain. */
  lemma FileIsContent(d: Disk, g: Geometry, org: nat, cs: seq<nat>, flat: seq<byte>)
    requires GoodDisk(d) && GeoOk(g) && g.csize >= 1 && IsChain(d, g, org, cs) && AllReadable(d, g, cs)
    requires |flat| <= |Content(d, g, cs)|
    ensures IsFile(d, g, org, flat) <==> flat == Content(d, g, cs)[..|flat|]
  {
    var c := Content(d, g, cs);
    hide GeoOk, IsChain, AllReadable, Content, ByteAt;
    forall k | 0 <= k < |flat| ensures ByteAt(d, g, org, k) == Some(c[k]) { ByteOfContent(d, g, org, cs, k); }
    assert forall k :: 0 <= k < |flat| ==> c[..|flat|][k] == c[k];
  }

  /** Entry i of a directory kept in a chain is bytes 32 * i to 32 * i + 31 of the chain. */
  lemma EntryIsBytes(d: Disk, g: Geometry, start: nat, i: nat, k: nat)
    requires GoodDisk(d) && g.csize >= 1 && start != 0 && StartSector(g, start) != 0 && k < 32
    requires LocOf(d, g, start, i).At? && LocOf(d, g, start, i).sect in d
    ensures ByteAt(d, g, start, 32 * i + k) == Some(EntryAt(d, LocOf(d, g, start, i).sect, i)[k])
  {
    var l := LocOf(d, g, start, i);
    LocIsSector(d, g, start, i);
    EntryOffset(i);
    hide LocOf, StartSector, SectorOf;
    SameSector(d, g, start, 32 * i, k);
    var e := EntryAt(d, l.sect, i);
    assert e[k] == d[l.sect][i % 16 * 32 + k];
    hide EntryAt, GoodDisk;
  }

  lemma LocIsSector(d: Disk, g: Geometry, start: nat, i: nat)
    requires GoodDisk(d) && g.csize >= 1 && start != 0 && StartSector(g, start) != 0 && LocOf(d, g, start, i).At?
    ensures SectorOf(d, g, start, 32 * i) == Some(LocOf(d, g, start, i).sect)
  {
    hide ClusterAt, Clust2Sect, ClusterIndex, SectorIndex;
  }

  lemma EntryOffset(i: nat)
    ensures 32 * i % 512 == i % 16 * 32 <= 480
  {
  }
}
