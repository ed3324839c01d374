/** The open file: a cursor (`fptr`, `curr_clust`, `dsect`) cached over a cluster chain, and
    what reading and seeking through it return, for any content of the disk. */
module FatFile {
  import opened Common
  import opened Bits
  import opened FatCore

  datatype FResult = Ok | DiskErr | NotReady | NoFile | NotOpened | NotEnabled | NoFilesystem

  /** Sectors per cluster is a power of two up to 128 and cluster sectors do not wrap. */
  ghost predicate GeoOk(g: Geometry) {
    && (exists k: nat :: k <= 7 && g.csize == Pow2(k))
    && 2 <= g.nFatent <= DWORD && 1 <= g.database && (g.nFatent - 2) * g.csize + g.database <= DWORD
  }

  /** The sectors of the fixed root directory, where there is one, do not wrap either. */
  ghost predicate DirOk(g: Geometry) {
    GeoOk(g) && g.csize >= 1 && (g.fsType != Fat32 ==> g.dirbase + g.nRootdir / 16 < DWORD)
  }

  /** Which cluster of the file, and which sector of that cluster, holds byte `pos`. */
  function ClusterIndex(pos: nat, csize: nat): nat
    requires csize >= 1
  {
    pos / 512 / csize
  }

  function SectorIndex(pos: nat, csize: nat): (i: nat)
    requires csize >= 1
    ensures i < csize
  {
    pos / 512 % csize
  }

  /** Cluster k of the chain that starts at `org`, as the table spells it. */
  function ClusterAt(d: Disk, g: Geometry, org: nat, k: nat): nat
    requires GoodDisk(d)
  {
    if k == 0 then org else GetFat(d, g, ClusterAt(d, g, org, k - 1))
  }

  /** The sector holding byte `pos` of the file, if its cluster exists. */
  function SectorOf(d: Disk, g: Geometry, org: nat, pos: nat): Option<nat>
    requires GoodDisk(d) && g.csize >= 1
  {
    var c := ClusterAt(d, g, org, ClusterIndex(pos, g.csize));
    if ValidCluster(g, c) then Some(Clust2Sect(g, c) + SectorIndex(pos, g.csize)) else None
  }

  /** Byte `pos` of the file, if its cluster exists and its sector can be read. */
  function ByteAt(d: Disk, g: Geometry, org: nat, pos: nat): Option<byte>
    requires GoodDisk(d) && g.csize >= 1
  {
    match SectorOf(d, g, org, pos)
    case None => None
    case Some(s) => if s in d then Some(d[s][pos % 512]) else None
  }

  /** The cached cursor. `curr` belongs to the byte before fptr; `dsect` counts only inside a sector. */
  ghost predicate CursorOk(d: Disk, g: Geometry, org: nat, fptr: nat, curr: nat, dsect: nat)
    requires GoodDisk(d) && g.csize >= 1
  {
    && (fptr > 0 ==> curr == ClusterAt(d, g, org, ClusterIndex(fptr - 1, g.csize)) && ValidCluster(g, curr))
    && (fptr % 512 != 0 ==> SectorOf(d, g, org, fptr) == Some(dsect))
  }

  // ----- positions

  lemma CsizePositive(g: Geometry)
    requires GeoOk(g)
    ensures 1 <= g.csize <= 128
  {
    var k: nat :| k <= 7 && g.csize == Pow2(k);
    Pow2Mono(k, 7);
    assert Pow2(7) == 128 by { assert Pow2(5) == 32; }
  }

  /** The mask in the code picks the sector inside the cluster. */
  lemma MaskSector(g: Geometry, pos: nat)
    requires GeoOk(g)
    ensures g.csize >= 1 && And(pos / 512, g.csize - 1) == SectorIndex(pos, g.csize)
  {
    var k: nat :| k <= 7 && g.csize == Pow2(k);
    MaskIsMod(pos / 512, k);
  }

  lemma PrevDiv(q: nat, n: nat)
    requires n >= 1 && q >= 1
    ensures (q - 1) / n == if q % n == 0 then q / n - 1 else q / n
  {
    var a, b := q / n, q % n;
    assert q == n * a + b;
    if b == 0 {
      assert n * a == n * (a - 1) + n;
      DivModUnique(q - 1, n, a - 1, n - 1);
    } else {
      DivModUnique(q - 1, n, a, b - 1);
    }
  }

  lemma NoWrap(x: int)
    requires 0 <= x < DWORD
    ensures Wrap(x) == x
  {
  }

  lemma ClusterInside(x: nat, y: nat, n: nat, base: nat, i: nat)
    requires x < y && i < n && y * n + base <= DWORD
    ensures x * n + base + i < DWORD
  {
    assert x * n + n == (x + 1) * n;
    assert n * (x + 1) <= n * y by { MulLe(n, x + 1, y); }
  }

  /** First sector of a valid cluster: never 0, and the whole cluster stays below 2^32. */
  lemma ClusterSectors(g: Geometry, c: nat, i: nat)
    requires GeoOk(g) && ValidCluster(g, c) && i < g.csize
    ensures Clust2Sect(g, c) == (c - 2) * g.csize + g.database && Clust2Sect(g, c) >= 1
    ensures Wrap(Clust2Sect(g, c) + i) == Clust2Sect(g, c) + i
  {
    ClusterInside(c - 2, g.nFatent - 2, g.csize, g.database, i);
    hide Wrap, GeoOk;
    NoWrap((c - 2) * g.csize + g.database);
    NoWrap((c - 2) * g.csize + g.database + i);
  }

  /** Bytes of one sector share their cluster and sector. */
  lemma SameSector(d: Disk, g: Geometry, org: nat, pos: nat, i: nat)
    requires GoodDisk(d) && g.csize >= 1 && pos % 512 + i < 512
    ensures SectorOf(d, g, org, pos + i) == SectorOf(d, g, org, pos) && (pos + i) % 512 == pos % 512 + i
  {
    DivModUnique(pos + i, 512, pos / 512, pos % 512 + i);
  }

  /** A chain does not come back after it has ended. */
  lemma {:induction false} ValidBelow(d: Disk, g: Geometry, org: nat, j: nat, k: nat)
    requires GoodDisk(d) && j <= k && ValidCluster(g, ClusterAt(d, g, org, k))
    ensures ValidCluster(g, ClusterAt(d, g, org, j))
  {
    if j < k { ValidBelow(d, g, org, j, k - 1); }
  }

  // ----- the file object

  class FileSystem {
    const disk: Disk
    var enabled: bool          // FatFs points to a mounted volume
    var g: Geometry
    var isOpen: bool           // FA_OPENED
    var fptr: nat
    var fsize: nat
    var orgClust: nat
    var currClust: nat
    var dsect: nat

    ghost predicate Valid()
      reads this
    {
      && GoodDisk(disk)
      && (enabled ==> GeoOk(g) && g.csize >= 1)
      && (enabled && isOpen ==>
            fptr <= fsize < DWORD && CursorOk(disk, g, orgClust, fptr, currClust, dsect))
    }

    /** Byte k of the open file. */
    ghost function FileByte(k: nat): Option<byte>
      requires GoodDisk(disk) && g.csize >= 1
      reads this
    {
      ByteAt(disk, g, orgClust, k)
    }

    /** On a sector boundary: find the sector of byte fptr, stepping to the next cluster if needed. */
    method LocateSector() returns (ok: bool)
      requires Valid() && enabled && isOpen && fptr % 512 == 0
      modifies this`currClust, this`dsect
      ensures GoodDisk(disk) && g.csize >= 1
      ensures ok <==> SectorOf(disk, g, orgClust, fptr).Some?
      ensures ok ==> SectorOf(disk, g, orgClust, fptr) == Some(dsect)
      ensures ok ==> currClust == ClusterAt(disk, g, orgClust, ClusterIndex(fptr, g.csize)) && ValidCluster(g, currClust)
    {
      hide GetFat, Clust2Sect, ClusterAt, CursorOk, GeoOk, Wrap, And, ClusterIndex, SectorIndex;
      var cs := And(fptr / 512, g.csize - 1);
      LocateFacts(disk, g, orgClust, fptr, currClust, dsect);
      if cs == 0 {
        var clst := if fptr == 0 then orgClust else GetFat(disk, g, currClust);
        if clst <= 1 { return false; }
        currClust := clst;
      }
      var sect := Clust2Sect(g, currClust);
      if sect == 0 { return false; }
      dsect := Wrap(sect + cs);
      ok := true;
    }

    /** One turn of the read loop: the rest of the current sector, or btr bytes of it. */
    method ReadChunk(btr: nat) returns (ok: bool, part: seq<byte>)
      requires Valid() && enabled && isOpen && 0 < btr <= fsize - fptr
      modifies this`isOpen, this`fptr, this`currClust, this`dsect
      ensures Valid() && GoodDisk(disk) && g.csize >= 1 && isOpen == ok && fptr == old(fptr) + |part|
      ensures ok ==> 0 < |part| <= btr
      ensures !ok ==> part == [] && FileByte(old(fptr)) == None
      ensures forall k :: 0 <= k < |part| ==> FileByte(old(fptr) + k) == Some(part[k])
    {
      hide ClusterAt, CursorOk, GeoOk, SectorOf, ClusterIndex, SectorIndex;
      ok, part := true, [];
      CursorFacts(disk, g, orgClust, fptr, currClust, dsect);
      if fptr % 512 == 0 {
        ok := LocateSector();
      }
      if ok {
        var rcnt := 512 - fptr % 512;
        if rcnt > btr { rcnt := btr; }
        match ReadPart(disk, dsect, fptr % 512, rcnt)
        case None =>
          ok := false;
        case Some(p) =>
          ChunkRead(disk, g, orgClust, fptr, dsect, rcnt, p);
          AfterChunk(disk, g, orgClust, fptr, rcnt, currClust, dsect);
          part := p;
          fptr := fptr + rcnt;
      }
      isOpen := ok;
    }

    method PfRead(btr0: nat) returns (res: FResult, data: seq<byte>)
      requires Valid()
      modifies this`isOpen, this`fptr, this`currClust, this`dsect
      ensures Valid()
      ensures !enabled ==> res == NotEnabled && data == []
      ensures enabled && !old(isOpen) ==> res == NotOpened && data == []
      ensures enabled && old(isOpen) ==>
                var n := if btr0 < fsize - old(fptr) then btr0 else fsize - old(fptr);
                && (forall k :: 0 <= k < |data| ==> FileByte(old(fptr) + k) == Some(data[k]))
                && (|| (res == Ok && isOpen && |data| == n && fptr == old(fptr) + n)
                    || (res == DiskErr && !isOpen && |data| < n && FileByte(old(fptr) + |data|) == None))
    {
      hide ByteAt, CursorOk, GeoOk;
      data := [];
      if !enabled { return NotEnabled, []; }
      if !isOpen { return NotOpened, []; }
      var btr := if btr0 < fsize - fptr then btr0 else fsize - fptr;
      while btr > 0
        invariant Valid() && isOpen && btr + |data| == if btr0 < fsize - old(fptr) then btr0 else fsize - old(fptr)
        invariant btr >= 0 && fptr == old(fptr) + |data| && fptr + btr <= fsize
        invariant forall k :: 0 <= k < |data| ==> FileByte(old(fptr) + k) == Some(data[k])
      {
        var ok, part := ReadChunk(btr);
        if !ok { return DiskErr, data; }
        data := data + part;
        btr := btr - |part|;
      }
      res := Ok;
    }

    /** Follow the chain from cluster j until the remaining offset lies in the current cluster. */
    method FollowChain(ofs0: nat, bcs: nat, ghost j0: nat) returns (ok: bool, ofs: nat, ghost j: nat)
      requires GoodDisk(disk) && GeoOk(g) && g.csize >= 1 && bcs == 512 * g.csize && ofs0 > 0
      requires fptr == bcs * j0 && currClust == ClusterAt(disk, g, orgClust, j0)
      modifies this`fptr, this`currClust
      ensures fptr + ofs == old(fptr) + ofs0 && j0 <= j && fptr == bcs * j && 0 < ofs
      ensures ok ==> ofs <= bcs && currClust == ClusterAt(disk, g, orgClust, j)
      ensures !ok ==> ofs > bcs && !ValidCluster(g, ClusterAt(disk, g, orgClust, j + 1))
    {
      hide GeoOk, GetFat;
      ok, ofs, j := true, ofs0, j0;
      while ofs > bcs
        invariant fptr + ofs == old(fptr) + ofs0 && j0 <= j && fptr == bcs * j && 0 < ofs
        invariant currClust == ClusterAt(disk, g, orgClust, j)
        decreases ofs
      {
        var clst := GetFat(disk, g, currClust);
        if clst <= 1 || clst >= g.nFatent { return false, ofs, j; }
        assert bcs * (j + 1) == bcs * j + bcs;
        currClust := clst;
        fptr := fptr + bcs;
        ofs := ofs - bcs;
        j := j + 1;
      }
    }

    /** Lines 1070-1091 for a target behind the start of the file. */
    method SeekTo(target: nat) returns (ok: bool)
      requires Valid() && enabled && isOpen && 0 < target <= fsize
      modifies this`fptr, this`currClust, this`dsect
      ensures GoodDisk(disk) && g.csize >= 1
      ensures ok <==> ValidCluster(g, ClusterAt(disk, g, orgClust, ClusterIndex(target - 1, g.csize)))
      ensures ok ==> fptr == target && CursorOk(disk, g, orgClust, fptr, currClust, dsect)
    {
      hide GeoOk, CursorOk, ClusterAt, ClusterIndex, SectorIndex, Clust2Sect, And, Wrap;
      var ofs, ifptr, bcs := target, fptr, 512 * g.csize;
      ghost var j := 0;
      fptr := 0;
      SeekFacts(disk, g, orgClust, ifptr, target, currClust, dsect);
      if ifptr > 0 && (ofs - 1) / bcs >= (ifptr - 1) / bcs {   // same or following cluster
        fptr := And(ifptr - 1, DWORD - bcs);
        ofs := ofs - fptr;
        j := ClusterIndex(ifptr - 1, g.csize);
      } else {
        currClust := orgClust;
      }
      ok, ofs, j := FollowChain(ofs, bcs, j);
      if ok {
        fptr := fptr + ofs;
        SeekDone(disk, g, orgClust, target, j);
        var sect := Clust2Sect(g, currClust);
        dsect := Wrap(sect + And(fptr / 512, g.csize - 1));
        ok := sect != 0;
      } else {
        SeekFailed(disk, g, orgClust, target, j);
      }
    }

    method PfLseek(ofs0: nat) returns (res: FResult)
      requires Valid()
      modifies this`isOpen, this`fptr, this`currClust, this`dsect
      ensures Valid()
      ensures !enabled ==> res == NotEnabled
      ensures enabled && !old(isOpen) ==> res == NotOpened
      ensures enabled && old(isOpen) ==>
                var target := if ofs0 > fsize then fsize else ofs0;
                && (res == Ok <==> target == 0
                                   || ValidCluster(g, ClusterAt(disk, g, orgClust, ClusterIndex(target - 1, g.csize))))
                && (res == Ok ==> isOpen && fptr == target)
                && (res != Ok ==> res == DiskErr && !isOpen)
    {
      hide GeoOk, CursorOk, ClusterAt, ClusterIndex;
      if !enabled { return NotEnabled; }
      if !isOpen { return NotOpened; }
      var ofs := if ofs0 > fsize then fsize else ofs0;
      if ofs > 0 {
        isOpen := SeekTo(ofs);
      } else {
        fptr := 0;
        EmptyCursor(disk, g, orgClust, currClust, dsect);
      }
      res := if isOpen then Ok else DiskErr;
    }

    /** The open file is the byte string flat. */
    ghost predicate Holds(flat: seq<byte>)
      reads this
    {
      GoodDisk(disk) && g.csize >= 1 && |flat| == fsize && IsFile(disk, g, orgClust, flat)
    }

    method ReadWhole(n: nat, ghost flat: seq<byte>) returns (data: seq<byte>)
      requires Valid() && enabled
      modifies this`isOpen, this`fptr, this`currClust, this`dsect
      ensures Valid()
      ensures old(isOpen) && Holds(flat) ==>
                && isOpen && old(fptr) <= fptr <= fsize && data == flat[old(fptr)..fptr]
                && fptr - old(fptr) == if n < fsize - old(fptr) then n else fsize - old(fptr)
    {
      hide ByteAt, GeoOk, CursorOk;
      var res;
      res, data := PfRead(n);
      assert Holds(flat) ==> forall k: nat :: k < fsize ==> FileByte(k) == ByteAt(disk, g, orgClust, k) && FileByte(k).Some?;
    }

    method SeekWhole(ofs: nat, ghost flat: seq<byte>)
      requires Valid() && enabled
      modifies this`isOpen, this`fptr, this`currClust, this`dsect
      ensures Valid()
      ensures old(isOpen) && Holds(flat) ==> isOpen && fptr == if ofs > fsize then fsize else ofs
    {
      hide ByteAt, GeoOk, CursorOk;
      if Holds(flat) && 0 < ofs && 0 < fsize {
        HasCluster(disk, g, orgClust, if ofs > fsize then fsize - 1 else ofs - 1);
      }
      var res := PfLseek(ofs);
    }

    /** Any sequence of reads and seeks on a file whose bytes are all there behaves like a
        flat byte string with a position. */
    method RunOps(ops: seq<FileOp>, ghost flat: seq<byte>) returns (outs: seq<seq<byte>>)
      requires Valid() && enabled
      modifies this`isOpen, this`fptr, this`currClust, this`dsect
      ensures Valid()
      ensures old(isOpen) && Holds(flat) ==> isOpen && (outs, fptr) == FlatRun(flat, old(fptr), ops)
    {
      hide IsFile, GeoOk, CursorOk;
      outs := [];
      for i := 0 to |ops|
        invariant Valid()
        invariant old(isOpen) && Holds(flat) ==> isOpen && (outs, fptr) == FlatRun(flat, old(fptr), ops[..i])
      {
        assert ops[..i + 1][..i] == ops[..i];
        match ops[i]
        case Read(n) =>
          var data := ReadWhole(n, flat);
          outs := outs + [data];
        case Seek(ofs) =>
          SeekWhole(ofs, flat);
          outs := outs + [[]];
      }
      assert ops[..|ops|] == ops;
    }
  }

  /** The chain from `org` holds exactly the bytes of `flat`, all readable. */
  ghost predicate IsFile(d: Disk, g: Geometry, org: nat, flat: seq<byte>)
    requires GoodDisk(d) && g.csize >= 1
  {
    forall k :: 0 <= k < |flat| ==> ByteAt(d, g, org, k) == Some(flat[k])
  }

  lemma HasCluster(d: Disk, g: Geometry, org: nat, k: nat)
    requires GoodDisk(d) && g.csize >= 1 && ByteAt(d, g, org, k).Some?
    ensures ValidCluster(g, ClusterAt(d, g, org, ClusterIndex(k, g.csize)))
  {
  }

  datatype FileOp = Read(n: nat) | Seek(ofs: nat)

  /** The specification of a run: outputs and final position over a flat byte string. */
  ghost function FlatRun(flat: seq<byte>, pos: nat, ops: seq<FileOp>): (r: (seq<seq<byte>>, nat))
    requires pos <= |flat|
    ensures r.1 <= |flat|
  {
    if ops == [] then ([], pos)
    else
      var (outs, p) := FlatRun(flat, pos, ops[..|ops| - 1]);
      match ops[|ops| - 1]
      case Read(n) =>
        var m := if n < |flat| - p then n else |flat| - p;
        (outs + [flat[p..p + m]], p + m)
      case Seek(ofs) => (outs + [[]], if ofs > |flat| then |flat| else ofs)
  }

  /** The seek shortcut starts at the beginning of the current cluster, and only when the
      target is not before it. */
  lemma SeekFacts(d: Disk, g: Geometry, org: nat, ifptr: nat, target: nat, curr: nat, dsect: nat)
    requires GoodDisk(d) && GeoOk(g) && g.csize >= 1 && CursorOk(d, g, org, ifptr, curr, dsect)
    requires 0 < target < DWORD && ifptr < DWORD
    ensures var bcs := 512 * g.csize;
            && bcs <= DWORD && ClusterAt(d, g, org, 0) == org && bcs * 0 == 0
            && (ifptr > 0 && (target - 1) / bcs >= (ifptr - 1) / bcs ==>
                  var j := ClusterIndex(ifptr - 1, g.csize);
                  && And(ifptr - 1, DWORD - bcs) == bcs * j && bcs * j < target
                  && curr == ClusterAt(d, g, org, j))
  {
    CsizePositive(g);
    if ifptr > 0 && (target - 1) / (512 * g.csize) >= (ifptr - 1) / (512 * g.csize) {
      hide GetFat, ClusterAt;
      FloorToCluster(g, ifptr - 1);
      FloorToCluster(g, target - 1);
      var bcs, i, j := 512 * g.csize, ClusterIndex(ifptr - 1, g.csize), ClusterIndex(target - 1, g.csize);
      assert bcs * i <= bcs * j by { MulLe(bcs, i, j); }
    }
  }

  lemma ClusterBytes(g: Geometry) returns (k: nat)
    requires GeoOk(g)
    ensures k <= 32 && g.csize >= 1 && 512 * g.csize == Pow2(k) && Pow2(32) == DWORD
  {
    var e: nat :| e <= 7 && g.csize == Pow2(e);
    k := 9 + e;
    assert Pow2(k) == Pow2(9) * Pow2(e) by { Pow2Split(9, k); }
    assert Pow2(9) == 512 by { assert Pow2(5) == 32; }
    assert Pow2(32) == DWORD by { Pow2Split(16, 32); Pow2Values(); }
  }

  lemma FloorIsMultiple(x: nat, b: nat)
    requires b >= 1
    ensures x - Mod(x, b) == b * (x / b)
  {
  }

  lemma FloorToCluster(g: Geometry, x: nat)
    requires GeoOk(g) && g.csize >= 1 && x < DWORD
    ensures var bcs := 512 * g.csize;
            && bcs <= DWORD && x / bcs == ClusterIndex(x, g.csize)
            && bcs * ClusterIndex(x, g.csize) <= x && And(x, DWORD - bcs) == bcs * ClusterIndex(x, g.csize)
  {
    var k := ClusterBytes(g);
    ClearLowIsFloor(x, k, 32);
    DivTwice(x, 512, g.csize);
    FloorIsMultiple(x, 512 * g.csize);
    hide And, Mod, Pow2, GeoOk;
  }

  lemma IndexAtLeast(x: nat, b: nat, j: nat)
    requires b >= 1 && x >= b * j
    ensures x / b >= j
  {
    var q, r := x / b, x % b;
    assert x == b * q + r && b * (q + 1) == b * q + b;
    if q < j {
      MulLe(b, q + 1, j);
      assert false;
    }
  }

  lemma SeekFailed(d: Disk, g: Geometry, org: nat, target: nat, j: nat)
    requires GoodDisk(d) && GeoOk(g) && g.csize >= 1 && target < DWORD
    requires target > 512 * g.csize * j + 512 * g.csize
    requires !ValidCluster(g, ClusterAt(d, g, org, j + 1))
    ensures !ValidCluster(g, ClusterAt(d, g, org, ClusterIndex(target - 1, g.csize)))
  {
    hide GetFat, And, ClusterIndex, ClusterAt, GeoOk;
    var bcs, i := 512 * g.csize, ClusterIndex(target - 1, g.csize);
    FloorToCluster(g, target - 1);
    assert bcs * (j + 1) == bcs * j + bcs;
    IndexAtLeast(target - 1, bcs, j + 1);
    if ValidCluster(g, ClusterAt(d, g, org, i)) {
      ValidBelow(d, g, org, j + 1, i);
      assert false;
    }
  }

  lemma SeekDone(d: Disk, g: Geometry, org: nat, target: nat, j: nat)
    requires GoodDisk(d) && GeoOk(g) && g.csize >= 1
    requires 0 < target < DWORD && 512 * g.csize * j < target <= 512 * g.csize * j + 512 * g.csize
    ensures ClusterIndex(target - 1, g.csize) == j
    ensures var c := ClusterAt(d, g, org, j);
            && (Clust2Sect(g, c) == 0 <==> !ValidCluster(g, c))
            && (ValidCluster(g, c) ==>
                  CursorOk(d, g, org, target, c, Wrap(Clust2Sect(g, c) + And(target / 512, g.csize - 1))))
  {
    var bcs, c := 512 * g.csize, ClusterAt(d, g, org, j);
    FloorToCluster(g, target - 1);
    DivModUnique(target - 1, bcs, j, target - 1 - bcs * j);
    MaskSector(g, target);
    PrevIndex(target, g.csize);
    hide ClusterAt, ClusterIndex, SectorIndex, And, Wrap;
    if ValidCluster(g, c) { ClusterSectors(g, c, SectorIndex(target, g.csize)); }
  }

  lemma EmptyCursor(d: Disk, g: Geometry, org: nat, curr: nat, dsect: nat)
    requires GoodDisk(d) && g.csize >= 1
    ensures CursorOk(d, g, org, 0, curr, dsect)
  {
  }

  lemma CursorFacts(d: Disk, g: Geometry, org: nat, fptr: nat, curr: nat, dsect: nat)
    requires GoodDisk(d) && g.csize >= 1 && CursorOk(d, g, org, fptr, curr, dsect)
    ensures fptr % 512 != 0 ==>
              && SectorOf(d, g, org, fptr) == Some(dsect)
              && curr == ClusterAt(d, g, org, ClusterIndex(fptr, g.csize)) && ValidCluster(g, curr)
  {
    if fptr > 0 { PrevIndex(fptr, g.csize); }
  }

  /** What the boundary code computes: the mask, the chain step and the sector. */
  lemma LocateFacts(d: Disk, g: Geometry, org: nat, fptr: nat, curr: nat, dsect: nat)
    requires GoodDisk(d) && GeoOk(g) && g.csize >= 1 && fptr % 512 == 0 && CursorOk(d, g, org, fptr, curr, dsect)
    ensures var cs := And(fptr / 512, g.csize - 1);
            var c := if cs == 0 then (if fptr == 0 then org else GetFat(d, g, curr)) else curr;
            && cs == SectorIndex(fptr, g.csize) && c == ClusterAt(d, g, org, ClusterIndex(fptr, g.csize))
            && (Clust2Sect(g, c) == 0 <==> !ValidCluster(g, c))
            && (ValidCluster(g, c) ==> Wrap(Clust2Sect(g, c) + cs) == Clust2Sect(g, c) + cs)
  {
    MaskSector(g, fptr);
    if fptr > 0 { PrevIndex(fptr, g.csize); } else { assert ClusterIndex(0, g.csize) == 0 == SectorIndex(0, g.csize); }
    hide GetFat, And, Wrap, ClusterIndex, SectorIndex;
    var c := ClusterAt(d, g, org, ClusterIndex(fptr, g.csize));
    if ValidCluster(g, c) { ClusterSectors(g, c, SectorIndex(fptr, g.csize)); }
  }

  /** The byte before fptr is in the same cluster, unless fptr starts a cluster. */
  lemma PrevIndex(pos: nat, n: nat)
    requires pos > 0 && n >= 1
    ensures pos % 512 != 0 ==> ClusterIndex(pos - 1, n) == ClusterIndex(pos, n)
    ensures pos % 512 == 0 && SectorIndex(pos, n) != 0 ==> ClusterIndex(pos - 1, n) == ClusterIndex(pos, n)
    ensures pos % 512 == 0 && SectorIndex(pos, n) == 0 ==> ClusterIndex(pos - 1, n) + 1 == ClusterIndex(pos, n)
  {
    PrevDiv(pos, 512);
    if pos % 512 == 0 { PrevDiv(pos / 512, n); }
  }

  lemma ChunkRead(d: Disk, g: Geometry, org: nat, pos: nat, dsect: nat, n: nat, part: seq<byte>)
    requires GoodDisk(d) && g.csize >= 1 && SectorOf(d, g, org, pos) == Some(dsect) && pos % 512 + n <= 512
    requires ReadPart(d, dsect, pos % 512, n) == Some(part)
    ensures forall i :: 0 <= i < n ==> ByteAt(d, g, org, pos + i) == Some(part[i])
  {
    forall i | 0 <= i < n ensures ByteAt(d, g, org, pos + i) == Some(part[i]) {
      SameSector(d, g, org, pos, i);
    }
  }

  lemma AfterChunk(d: Disk, g: Geometry, org: nat, pos: nat, n: nat, curr: nat, dsect: nat)
    requires GoodDisk(d) && g.csize >= 1 && n > 0 && pos % 512 + n <= 512
    requires SectorOf(d, g, org, pos) == Some(dsect)
    requires curr == ClusterAt(d, g, org, ClusterIndex(pos, g.csize)) && ValidCluster(g, curr)
    ensures CursorOk(d, g, org, pos + n, curr, dsect)
  {
    SameSector(d, g, org, pos, 0);
    DivModUnique(pos + n - 1, 512, pos / 512, pos % 512 + n - 1);
    hide SectorOf, ClusterAt;
    if pos % 512 + n < 512 {
      SameSector(d, g, org, pos, n);
    } else {
      DivModUnique(pos + n, 512, pos / 512 + 1, 0);
    }
  }
}
