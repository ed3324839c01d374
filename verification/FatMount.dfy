/** Mounting: finding the boot record, and the geometry computed from it. */
module FatMount {
  import opened Common
  import opened Bits
  import opened FatCore
  import opened FatFile

  /** check_fs: 0 a FAT boot record, 1 a boot record but not FAT, 2 not a boot record, 3 read error. */
  function CheckFs(d: Disk, sect: nat): nat
    requires GoodDisk(d)
  {
    match ReadPart(d, sect, 510, 2)
    case None => 3
    case Some(sig) =>
      if LdWord(sig, 0) != 0xAA55 then 2
      else if LdWord(d[sect], 54) == 0x4146 || LdWord(d[sect], 82) == 0x4146 then 0
      else 1
  }

  /** Where the volume starts: sector 0, or the first entry of a partition table there. */
  function FindVolume(d: Disk): (nat, nat)
    requires GoodDisk(d)
  {
    var fmt := CheckFs(d, 0);
    if fmt != 1 then (0, fmt)
    else match ReadPart(d, 0, 446, 16)
      case None => (0, 3)
      case Some(entry) =>
        if entry[4] == 0 then (0, fmt)
        else var bsect := LdDword(entry, 8); (bsect, CheckFs(d, bsect))
  }

  /** The fields read from a boot record (36 bytes from offset 13 on). */
  datatype Bpb = Bpb(secPerClus: nat, rsvdSecCnt: nat, numFats: nat, rootEntCnt: nat, fatSz: nat, totSec: nat, rootClus: nat)

  function ReadBpb(b: seq<byte>): Bpb
    requires |b| == 36
  {
    Bpb(b[0], LdWord(b, 1), b[3], LdWord(b, 4),
        if LdWord(b, 9) != 0 then LdWord(b, 9) else LdDword(b, 23),
        if LdWord(b, 6) != 0 then LdWord(b, 6) else LdDword(b, 19),
        LdDword(b, 31))
  }

  /** Lines 853-879, in 32-bit arithmetic. None when the cluster count has no FAT type. */
  function Layout(bsect: nat, p: Bpb): Option<Geometry>
    requires p.secPerClus > 0
  {
    var fsize := Wrap(p.fatSz * p.numFats);
    var fatbase := Wrap(bsect + p.rsvdSecCnt);
    var mclst := Wrap(Wrap(p.totSec - p.rsvdSecCnt - fsize - p.rootEntCnt / 16) / p.secPerClus + 2);
    var database := Wrap(fatbase + fsize + p.rootEntCnt / 16);
    if mclst < 0xFF7 then
      Some(Geometry(Fat12, p.secPerClus, p.rootEntCnt, mclst, fatbase, Wrap(fatbase + fsize), database))
    else if 0xFF8 <= mclst < 0xFFF7 then
      Some(Geometry(Fat16, p.secPerClus, p.rootEntCnt, mclst, fatbase, Wrap(fatbase + fsize), database))
    else if mclst >= 0xFFF7 then
      Some(Geometry(Fat32, p.secPerClus, p.rootEntCnt, mclst, fatbase, p.rootClus, database))
    else None
  }

  // ----- which sector that is

  /** The boot signature 55 AA. */
  ghost predicate Signed(d: Disk, s: nat)
    requires GoodDisk(d)
  {
    s in d && d[s][510] == 0x55 && d[s][511] == 0xAA
  }

  /** A signed sector with "FA" in one of the two type fields. */
  ghost predicate FatBoot(d: Disk, s: nat)
    requires GoodDisk(d)
  {
    Signed(d, s) && ((d[s][54] == 0x46 && d[s][55] == 0x41) || (d[s][82] == 0x46 && d[s][83] == 0x41))
  }

  /** Sector 0 holds a partition table whose first entry is in use. */
  ghost predicate Partitioned(d: Disk)
    requires GoodDisk(d)
  {
    Signed(d, 0) && !FatBoot(d, 0) && d[0][450] != 0
  }

  /** b is the boot sector of the volume: sector 0, or the start of the first partition. */
  ghost predicate VolumeAt(d: Disk, b: nat)
    requires GoodDisk(d)
  {
    FatBoot(d, b) && (b == 0 || (Partitioned(d) && b == LdDword(d[0], 454)))
  }

  ghost predicate Unreadable(d: Disk)
    requires GoodDisk(d)
  {
    0 !in d || (Partitioned(d) && LdDword(d[0], 454) !in d)
  }

  lemma CheckFsSpec(d: Disk, s: nat)
    requires GoodDisk(d)
    ensures CheckFs(d, s) == (if s !in d then 3 else if !Signed(d, s) then 2 else if FatBoot(d, s) then 0 else 1)
  {
  }

  /** The search ends at the boot sector of the volume, if there is one and everything can be read. */
  lemma FindVolumeSpec(d: Disk)
    requires GoodDisk(d)
    ensures FindVolume(d).1 == 3 <==> Unreadable(d)
    ensures forall b: nat :: VolumeAt(d, b) <==> FindVolume(d) == (b, 0)
  {
    CheckFsSpec(d, 0);
    if 0 in d {
      var b := LdDword(d[0], 454);
      CheckFsSpec(d, b);
      var entry := d[0][446..462];
      assert entry[4] == d[0][450] && LdDword(entry, 8) == b;
    }
    hide CheckFs;
  }

  /** A boot record whose sector arithmetic does not wrap, with clusters of 1 to 128 sectors. */
  ghost predicate SoundRecord(bsect: nat, p: Bpb) {
    NoWrapAround(bsect, p) && exists k: nat :: k <= 7 && p.secPerClus == Pow2(k)
  }

  function RecordAt(d: Disk, b: nat): Bpb
    requires GoodDisk(d) && b in d
  {
    ReadBpb(d[b][13..49])
  }

  // ----- the volume by the bytes of its boot sector s (fatgen103, "Boot Sector and BPB")

  type Sector = s: seq<byte> | |s| == 512 witness seq(512, _ => 0)

  /** The tables: BPB_NumFATs times BPB_FATSz16, or BPB_FATSz32 where that is 0. */
  ghost function TableSectors(s: Sector): nat {
    (if LdWord(s, 22) != 0 then LdWord(s, 22) else LdDword(s, 36)) * s[16]
  }

  /** BPB_TotSec16, or BPB_TotSec32 where that is 0. */
  ghost function TotalSectors(s: Sector): nat {
    if LdWord(s, 19) != 0 then LdWord(s, 19) else LdDword(s, 32)
  }

  /** Reserved sectors (BPB_RsvdSecCnt), tables, and the fixed root directory (BPB_RootEntCnt entries). */
  ghost function FirstData(s: Sector): nat { LdWord(s, 14) + TableSectors(s) + LdWord(s, 17) / 16 }

  /** Data clusters, of BPB_SecPerClus sectors each. */
  ghost function ClusterCountAt(s: Sector): int
    requires s[13] > 0
  {
    (TotalSectors(s) - FirstData(s)) / s[13]
  }

  /** The areas fit the volume, the volume fits 32-bit sector numbers, and clusters are a power of two. */
  ghost predicate SoundAt(s: Sector, b: nat) {
    && s[13] in {1, 2, 4, 8, 16, 32, 64, 128} && LdWord(s, 14) >= 1
    && FirstData(s) <= TotalSectors(s) && b + TotalSectors(s) < DWORD && ClusterCountAt(s) + 2 < DWORD
  }

  /** g is the geometry of the volume with boot sector s at sector b. */
  ghost predicate GeometryOf(s: Sector, b: nat, g: Geometry)
    requires s[13] > 0
  {
    var n := ClusterCountAt(s);
    && g.csize == s[13] && g.nRootdir == LdWord(s, 17) && g.nFatent == n + 2
    && g.fatbase == b + LdWord(s, 14) && g.database == b + FirstData(s)
    && g.fsType == (if n < 4085 then Fat12 else if n < 65525 then Fat16 else Fat32)
    && g.dirbase == (if g.fsType == Fat32 then LdDword(s, 44) else b + LdWord(s, 14) + TableSectors(s))
  }

  /** The fields are read where they are. */
  lemma RecordBytes(d: Disk, b: nat)
    requires GoodDisk(d) && b in d
    ensures var s, p := d[b], RecordAt(d, b);
            && p.secPerClus == s[13] && p.rsvdSecCnt == LdWord(s, 14) && p.rootEntCnt == LdWord(s, 17)
            && p.fatSz * p.numFats == TableSectors(s) && p.totSec == TotalSectors(s) && p.rootClus == LdDword(s, 44)
            && DataStart(p) == FirstData(s)
  {
    var s, r := d[b], d[b][13..49];
    assert r[0] == s[13] && r[3] == s[16];
    assert LdWord(r, 1) == LdWord(s, 14) && LdWord(r, 4) == LdWord(s, 17);
    assert LdWord(r, 6) == LdWord(s, 19) && LdDword(r, 19) == LdDword(s, 32);
    assert LdWord(r, 9) == LdWord(s, 22) && LdDword(r, 23) == LdDword(s, 36);
    assert LdDword(r, 31) == LdDword(s, 44);
    hide LdWord, LdDword;
  }

  lemma SmallPowers()
    ensures Pow2(0) == 1 && Pow2(1) == 2 && Pow2(2) == 4 && Pow2(3) == 8
    ensures Pow2(4) == 16 && Pow2(5) == 32 && Pow2(6) == 64 && Pow2(7) == 128
  {
    assert Pow2(3) == 8;
  }

  lemma SoundIs(d: Disk, b: nat)
    requires GoodDisk(d) && b in d && SoundAt(d[b], b)
    ensures SoundRecord(b, RecordAt(d, b))
  {
    RecordBytes(d, b);
    SmallPowers();
    hide RecordAt, TableSectors, TotalSectors, FirstData, DataStart, Pow2, LdWord;
    var c := d[b][13];
    var k := if c == 1 then 0 else if c == 2 then 1 else if c == 4 then 2 else if c == 8 then 3
             else if c == 16 then 4 else if c == 32 then 5 else if c == 64 then 6 else 7;
    assert c as nat == Pow2(k);
  }

  /** Of a sound volume the layout is its geometry, and only 4085 clusters have none. */
  lemma LayoutBytes(d: Disk, b: nat)
    requires GoodDisk(d) && b in d && SoundAt(d[b], b)
    ensures RecordAt(d, b).secPerClus > 0
    ensures match Layout(b, RecordAt(d, b))
            case Some(g) => GeometryOf(d[b], b, g) && ClusterCountAt(d[b]) != 4085
            case None => ClusterCountAt(d[b]) == 4085
  {
    RecordBytes(d, b);
    SoundIs(d, b);
    hide RecordAt, TableSectors, TotalSectors, FirstData, DataStart, Pow2, LdWord, LdDword, Layout;
    LayoutExact(b, RecordAt(d, b));
  }

  /** The 1.44 MB floppy: table at sector 1, root directory at 19, data from 33 on, 2847 clusters. */
  lemma FloppyGeometry(s: Sector, g: Geometry)
    requires s[13] == 1 && LdWord(s, 14) == 1 && s[16] == 2 && LdWord(s, 17) == 224
    requires LdWord(s, 19) == 2880 && LdWord(s, 22) == 9
    ensures SoundAt(s, 0)
    ensures GeometryOf(s, 0, g) <==> g == Geometry(Fat12, 1, 224, 2849, 1, 19, 33)
  {
    hide LdWord, LdDword;
  }

  method PfMount(fs: FileSystem, ready: bool) returns (res: FResult, ghost bsect: nat)
    requires GoodDisk(fs.disk) && forall b :: VolumeAt(fs.disk, b) ==> fs.disk[b][13] != 0
    modifies fs`enabled, fs`g, fs`isOpen
    ensures fs.enabled <==> res == Ok
    ensures res == NotReady <==> !ready
    ensures ready ==> (res == DiskErr <==> Unreadable(fs.disk))
    ensures res in {Ok, NotReady, DiskErr, NoFilesystem}
    ensures res == Ok ==> !fs.isOpen && VolumeAt(fs.disk, bsect) && Layout(bsect, RecordAt(fs.disk, bsect)) == Some(fs.g)
    ensures res == NoFilesystem ==> forall b :: VolumeAt(fs.disk, b) ==> Layout(b, RecordAt(fs.disk, b)) == None
    ensures res == Ok && SoundAt(fs.disk[bsect], bsect) ==>
              GeometryOf(fs.disk[bsect], bsect, fs.g) && fs.Valid() && DirOk(fs.g)
    ensures ready ==> forall b :: VolumeAt(fs.disk, b) && SoundAt(fs.disk[b], b) && !Unreadable(fs.disk) ==>
                        (res == Ok <==> ClusterCountAt(fs.disk[b]) != 4085)
  {
    hide *;
    fs.enabled := false;
    bsect := 0;
    if !ready { return NotReady, 0; }
    FindVolumeSpec(fs.disk);
    var (sect, fmt) := FindVolume(fs.disk);
    bsect := sect;
    if fmt == 3 { return DiskErr, sect; }
    if fmt != 0 { return NoFilesystem, sect; }
    VolumeReadable(fs.disk, sect);
    VolumeDecides(fs.disk, sect);
    match ReadPart(fs.disk, sect, 13, 36)
    case None => return DiskErr, sect;
    case Some(b) =>
      match Layout(sect, ReadBpb(b))
      case None => return NoFilesystem, sect;
      case Some(g) =>
        fs.g, fs.isOpen, fs.enabled := g, false, true;
        if SoundAt(fs.disk[sect], sect) { GeometryValid(fs); }
        return Ok, sect;
  }

  /** What is read of the volume's boot sector is its record. */
  lemma VolumeReadable(d: Disk, b: nat)
    requires GoodDisk(d) && VolumeAt(d, b)
    ensures b in d && |d[b]| == 512 && ReadPart(d, b, 13, 36).Some? && ReadBpb(ReadPart(d, b, 13, 36).value) == RecordAt(d, b)
    ensures RecordAt(d, b).secPerClus == d[b][13]
  {
    hide LdWord, LdDword;
  }

  /** Of a sound volume the layout decides. */
  lemma VolumeDecides(d: Disk, b: nat)
    requires GoodDisk(d) && VolumeAt(d, b) && b in d && RecordAt(d, b).secPerClus > 0
    ensures SoundAt(d[b], b) ==>
              && d[b][13] > 0
              && match Layout(b, RecordAt(d, b))
                 case Some(g) => GeometryOf(d[b], b, g) && GeoOk(g) && DirOk(g) && ClusterCountAt(d[b]) != 4085
                 case None => ClusterCountAt(d[b]) == 4085
  {
    if SoundAt(d[b], b) {
      assert d[b][13] > 0;
      hide *;
      SoundIs(d, b);
      LayoutBytes(d, b);
      match Layout(b, RecordAt(d, b))
      case Some(g) => MountedGeometryOk(b, RecordAt(d, b), g);
      case None =>
    }
  }

  lemma GeometryValid(fs: FileSystem)
    requires GoodDisk(fs.disk) && GeoOk(fs.g) && DirOk(fs.g) && fs.enabled && !fs.isOpen
    ensures fs.Valid()
  {
    hide GeoOk;
  }

  // ----- what the geometry guarantees

  /** The areas of the volume in order: reserved, tables, fixed root directory, data. */
  ghost function DataStart(p: Bpb): nat { p.rsvdSecCnt + p.fatSz * p.numFats + p.rootEntCnt / 16 }

  /** A boot record whose sector arithmetic does not wrap. */
  ghost predicate NoWrapAround(bsect: nat, p: Bpb) {
    && p.secPerClus > 0 && p.rsvdSecCnt >= 1 && DataStart(p) <= p.totSec && bsect + p.totSec < DWORD
    && (p.totSec - DataStart(p)) / p.secPerClus + 2 < DWORD
  }

  /** Number of data clusters by fatgen103, "FAT Type Determination": the root directory
      rounded up to sectors, the rest of the data region rounded down to clusters. */
  ghost function CountOfClusters(p: Bpb): int
    requires p.secPerClus > 0
  {
    var rootDirSectors := (p.rootEntCnt * 32 + 511) / 512;
    (p.totSec - (p.rsvdSecCnt + p.numFats * p.fatSz + rootDirSectors)) / p.secPerClus
  }

  ghost function FatgenType(count: int): FatType {
    if count < 4085 then Fat12 else if count < 65525 then Fat16 else Fat32
  }

  lemma LayoutExact(bsect: nat, p: Bpb)
    requires NoWrapAround(bsect, p)
    ensures var n := (p.totSec - DataStart(p)) / p.secPerClus;
            && 0 <= n < DWORD - 2
            && (Layout(bsect, p) == None <==> n == 4085)
            && (Layout(bsect, p).Some? ==>
                  var g := Layout(bsect, p).value;
                  && g.nFatent == n + 2 && g.csize == p.secPerClus && g.nRootdir == p.rootEntCnt
                  && g.fatbase == bsect + p.rsvdSecCnt && g.database == bsect + DataStart(p)
                  && g.fsType == FatgenType(n)
                  && g.dirbase == (if g.fsType == Fat32 then p.rootClus else g.fatbase + p.fatSz * p.numFats))
  {
    var f, root := p.fatSz * p.numFats, p.rootEntCnt / 16;
    var rest := p.totSec - DataStart(p);
    var n := rest / p.secPerClus;
    QuotientBound(rest, p.secPerClus);
    NoWrap(f);
    NoWrap(bsect + p.rsvdSecCnt);
    NoWrap(rest);
    NoWrap(n + 2);
    NoWrap(bsect + p.rsvdSecCnt + f);
    NoWrap(bsect + DataStart(p));
    hide Wrap;
  }

  lemma QuotientBound(x: nat, y: nat)
    requires y >= 1
    ensures 0 <= x / y <= x && y * (x / y) <= x
  {
    assert x == y * (x / y) + x % y;
    assert x / y <= y * (x / y) by { if x / y >= 0 { MulLe(x / y, 1, y); } }
  }

  /** The FAT type is the one fatgen103 prescribes for every count but 4085, which is refused. */
  lemma TypeAgreesWithFatgen(bsect: nat, p: Bpb)
    requires NoWrapAround(bsect, p) && p.rootEntCnt % 16 == 0
    ensures Layout(bsect, p) == None <==> CountOfClusters(p) == 4085
    ensures Layout(bsect, p).Some? ==> Layout(bsect, p).value.fsType == FatgenType(CountOfClusters(p))
  {
    ClusterCount(p);
    hide Layout, CountOfClusters, DataStart, FatgenType;
    LayoutExact(bsect, p);
  }

  /** With whole sectors of root entries the two counts agree. */
  lemma ClusterCount(p: Bpb)
    requires p.secPerClus > 0 && p.rootEntCnt % 16 == 0
    ensures CountOfClusters(p) == (p.totSec - DataStart(p)) / p.secPerClus
  {
    assert (p.rootEntCnt * 32 + 511) / 512 == p.rootEntCnt / 16;
    assert p.fatSz * p.numFats == p.numFats * p.fatSz;
  }

  /** A volume that is refused: 4085 clusters of one sector, which fatgen103 calls FAT16. */
  lemma Refused4085()
    ensures var p := Bpb(1, 1, 2, 512, 12, 4142, 0);
            NoWrapAround(0, p) && CountOfClusters(p) == 4085 && FatgenType(4085) == Fat16 && Layout(0, p) == None
  {
  }

  lemma RunsOrdered(k: nat, x: nat, y: nat)
    requires x < y
    ensures 0 <= x * k && x * k + k <= y * k == k * y
  {
    MulLe(k, x + 1, y);
    assert k * (x + 1) == x * k + k;
  }

  /** Every data cluster lies inside the volume, behind the tables and the fixed root directory. */
  lemma ClusterInVolume(bsect: nat, p: Bpb, g: Geometry, c: nat)
    requires NoWrapAround(bsect, p) && Layout(bsect, p) == Some(g) && ValidCluster(g, c)
    ensures var s := Clust2Sect(g, c);
            && s == (c - 2) * g.csize + g.database && s + g.csize <= bsect + p.totSec
            && g.fatbase + p.fatSz * p.numFats + p.rootEntCnt / 16 <= s
            && (g.fsType != Fat32 ==> g.dirbase + g.nRootdir / 16 <= s)
  {
    LayoutExact(bsect, p);
    QuotientBound(p.totSec - DataStart(p), p.secPerClus);
    RunsOrdered(g.csize, c - 2, g.nFatent - 2);
    NoWrap((c - 2) * g.csize + g.database);
    hide Layout, Wrap, FatgenType;
  }

  /** Different clusters share no sector. */
  lemma ClustersDisjoint(bsect: nat, p: Bpb, g: Geometry, c: nat, e: nat)
    requires NoWrapAround(bsect, p) && Layout(bsect, p) == Some(g)
    requires ValidCluster(g, c) && ValidCluster(g, e) && c < e
    ensures Clust2Sect(g, c) + g.csize <= Clust2Sect(g, e)
  {
    ClusterInVolume(bsect, p, g, c);
    ClusterInVolume(bsect, p, g, e);
    hide Layout, Clust2Sect, NoWrapAround;
    RunsOrdered(g.csize, c - 2, e - 2);
  }

  /** So opening, reading and seeking may rely on the geometry of any such volume. */
  lemma MountedGeometryOk(bsect: nat, p: Bpb, g: Geometry)
    requires SoundRecord(bsect, p) && Layout(bsect, p) == Some(g)
    ensures GeoOk(g) && DirOk(g)
  {
    var rest := p.totSec - DataStart(p);
    CsizeOk(p);
    hide Layout, Wrap, Pow2, FatgenType;
    LayoutExact(bsect, p);
    assert (g.nFatent - 2) * g.csize <= rest by {
      hide SoundRecord, NoWrapAround, DataStart;
      QuotientBound(rest, p.secPerClus);
      Commute(g.csize, g.nFatent - 2);
    }
  }

  lemma Commute(x: nat, y: nat)
    ensures x * y == y * x
  {
  }

  lemma CsizeOk(p: Bpb)
    requires exists k: nat :: k <= 7 && p.secPerClus == Pow2(k)
    ensures p.secPerClus >= 1
  {
  }
}
