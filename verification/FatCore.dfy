/** The FAT volume: disk sectors, mounted geometry, and reading one entry of the table. */
module FatCore {
  import opened Common
  import opened Bits

  const DWORD: nat := 0x1_0000_0000

  /** 32-bit unsigned arithmetic. */
  function Wrap(x: int): nat { x % DWORD }

  /** Readable sectors; reading any other sector fails. */
  type Disk = map<nat, seq<byte>>

  ghost predicate GoodDisk(d: Disk) {
    forall s :: s in d ==> |d[s]| == 512
  }

  /** disk_readp: the range asked for must lie inside one sector. */
  function ReadPart(d: Disk, sector: nat, offset: nat, count: nat): (r: Option<seq<byte>>)
    requires GoodDisk(d) && offset + count <= 512
    ensures r.Some? <==> sector in d
    ensures r.Some? ==> |r.value| == count && forall k :: 0 <= k < count ==> r.value[k] == d[sector][offset + k]
  {
    if sector in d then Some(d[sector][offset..offset + count]) else None
  }

  function LdWord(b: seq<byte>, i: nat): nat
    requires i + 2 <= |b|
  {
    b[i] + 256 * (b[i + 1] as int)
  }

  function LdDword(b: seq<byte>, i: nat): nat
    requires i + 4 <= |b|
  {
    b[i] + 256 * (b[i + 1] as int) + 65536 * (b[i + 2] as int) + 16777216 * (b[i + 3] as int)
  }

  datatype FatType = Fat12 | Fat16 | Fat32

  datatype Geometry = Geometry(
    fsType: FatType,
    csize: nat,        // sectors per cluster
    nRootdir: nat,     // entries of the fixed root directory
    nFatent: nat,      // number of clusters + 2
    fatbase: nat, dirbase: nat, database: nat)

  /** A cluster number that names a data cluster. */
  predicate ValidCluster(g: Geometry, c: nat) { 2 <= c < g.nFatent }

  /** get_fat: the table entry, or 1 for a number out of range or a failed read. */
  function GetFat(d: Disk, g: Geometry, c: nat): nat
    requires GoodDisk(d)
  {
    if c < 2 || c >= g.nFatent then 1
    else match g.fsType
      case Fat12 =>
        var bc := c + c / 2;
        var ofs, sect := bc % 512, bc / 512;
        if ofs != 511 then
          match ReadPart(d, Wrap(g.fatbase + sect), ofs, 2)
          case None => 1
          case Some(b) => Nibbles(LdWord(b, 0), c)
        else (
          match (ReadPart(d, Wrap(g.fatbase + sect), 511, 1), ReadPart(d, Wrap(g.fatbase + sect + 1), 0, 1))
          case (Some(b0), Some(b1)) => Nibbles(LdWord(b0 + b1, 0), c)
          case _ => 1)
      case Fat16 => (
        match ReadPart(d, Wrap(g.fatbase + c / 256), c % 256 * 2, 2)
        case None => 1
        case Some(b) => LdWord(b, 0))
      case Fat32 => (
        match ReadPart(d, Wrap(g.fatbase + c / 128), c % 128 * 4, 4)
        case None => 1
        case Some(b) => LdDword(b, 0) % 0x1000_0000)
  }

  function Nibbles(w: nat, c: nat): nat {
    if c % 2 == 1 then w / 16 else w % 4096
  }

  /** clust2sect: first sector of a cluster, 0 for a number that names none. */
  function Clust2Sect(g: Geometry, c: nat): nat {
    if !ValidCluster(g, c) then 0 else Wrap((c - 2) * g.csize + g.database)
  }

  // ----- the table as one little-endian bit string

  function EntryBits(ft: FatType): nat {
    match ft case Fat12 => 12 case Fat16 => 16 case Fat32 => 32
  }

  /** Of a 32-bit entry only the low 28 bits count. */
  function ValueBits(ft: FatType): nat {
    match ft case Fat12 => 12 case Fat16 => 16 case Fat32 => 28
  }

  /** Entry n of the packed table t: bits [n*w, n*w + v) of the bit string. */
  ghost function TableEntry(t: seq<byte>, ft: FatType, n: nat): nat {
    LittleEndian(t) / Pow2(EntryBits(ft) * n) % Pow2(ValueBits(ft))
  }

  /** t is the content of the table area of the volume, all of it readable. */
  ghost predicate TableArea(d: Disk, g: Geometry, t: seq<byte>)
    requires GoodDisk(d)
  {
    && g.fatbase + |t| / 512 < DWORD
    && forall k :: 0 <= k < |t| ==> g.fatbase + k / 512 in d && d[g.fatbase + k / 512][k % 512] == t[k]
  }

  lemma DropDigit(a: nat, r: nat, p: nat)
    requires a < 256 && p >= 1
    ensures (a + 256 * r) / (256 * p) == r / p
  {
    var q, m := r / p, r % p;
    assert r == p * q + m;
    assert a + 256 * r == (256 * p) * q + (a + 256 * m) by { assert 256 * (p * q) == (256 * p) * q; }
    DivModUnique(a + 256 * r, 256 * p, q, a + 256 * m);
  }

  lemma Pow2Byte(o: nat)
    ensures Pow2(8 * (o + 1)) == 256 * Pow2(8 * o)
  {
    var k := 8 * o;
    assert Pow2(k + 8) == 2 * Pow2(k + 7) && Pow2(k + 7) == 2 * Pow2(k + 6) && Pow2(k + 6) == 2 * Pow2(k + 5);
    assert Pow2(k + 5) == 2 * Pow2(k + 4) && Pow2(k + 4) == 2 * Pow2(k + 3) && Pow2(k + 3) == 2 * Pow2(k + 2);
    assert Pow2(k + 2) == 2 * Pow2(k + 1) && Pow2(k + 1) == 2 * Pow2(k);
  }

  /** Dividing by 256^o drops the first o bytes. */
  lemma {:induction false} LittleEndianDrop(t: seq<byte>, o: nat)
    requires o <= |t|
    ensures LittleEndian(t) / Pow2(8 * o) == LittleEndian(t[o..])
  {
    if o == 0 {
      assert t[0..] == t;
    } else {
      LittleEndianDrop(t[1..], o - 1);
      Pow2Byte(o - 1);
      DropDigit(t[0], LittleEndian(t[1..]), Pow2(8 * (o - 1)));
      assert t[1..][o - 1..] == t[o..];
    }
  }

  lemma LowWord(t: seq<byte>) returns (r: nat)
    requires |t| >= 2
    ensures LittleEndian(t) == LdWord(t, 0) + 65536 * r
  {
    assert LittleEndian(t) == t[0] + 256 * LittleEndian(t[1..]);
    assert LittleEndian(t[1..]) == t[1] + 256 * LittleEndian(t[1..][1..]);
    r := LittleEndian(t[1..][1..]);
  }

  lemma LowDword(t: seq<byte>) returns (r: nat)
    requires |t| >= 4
    ensures LittleEndian(t) == LdDword(t, 0) + 0x1_0000_0000 * r
  {
    var u := t[1..][1..];
    assert LittleEndian(t) == t[0] + 256 * LittleEndian(t[1..]);
    assert LittleEndian(t[1..]) == t[1] + 256 * LittleEndian(u);
    assert u[0] == t[2] && u[1] == t[3];
    var q := LowWord(u);
    r := q;
  }

  lemma Pow2Values()
    ensures Pow2(4) == 16 && Pow2(12) == 4096 && Pow2(16) == 65536 && Pow2(28) == 0x1000_0000
  {
    assert Pow2(4) == 16;
    Pow2Split(4, 8);
    Pow2Split(4, 12);
    Pow2Split(8, 16);
    Pow2Split(12, 28);
  }

  lemma Entry16(t: seq<byte>, c: nat)
    requires 2 * c + 2 <= |t|
    ensures TableEntry(t, Fat16, c) == LdWord(t, 2 * c)
  {
    LittleEndianDrop(t, 2 * c);
    Pow2Values();
    var u := t[2 * c..];
    var r := LowWord(u);
    assert LdWord(u, 0) == LdWord(t, 2 * c) && 8 * (2 * c) == 16 * c;
    DivModUnique(LittleEndian(u), 65536, r, LdWord(u, 0));
  }

  lemma Entry32(t: seq<byte>, c: nat)
    requires 4 * c + 4 <= |t|
    ensures TableEntry(t, Fat32, c) == LdDword(t, 4 * c) % 0x1000_0000
  {
    LittleEndianDrop(t, 4 * c);
    Pow2Values();
    var u := t[4 * c..];
    var r := LowDword(u);
    var v := LdDword(u, 0);
    assert v == LdDword(t, 4 * c) && 8 * (4 * c) == 32 * c;
    DivModUnique(LittleEndian(u), 0x1000_0000, 16 * r + v / 0x1000_0000, v % 0x1000_0000);
  }

  lemma Entry12(t: seq<byte>, c: nat)
    requires c + c / 2 + 2 <= |t|
    ensures TableEntry(t, Fat12, c) == Nibbles(LdWord(t, c + c / 2), c)
  {
    var o := c + c / 2;
    LittleEndianDrop(t, o);
    Pow2Values();
    var u := t[o..];
    var r := LowWord(u);
    var w := LdWord(u, 0);
    assert w == LdWord(t, o);
    if c % 2 == 0 {
      assert 12 * c == 8 * o;
      DivModUnique(LittleEndian(u), 4096, 16 * r + w / 4096, w % 4096);
    } else {
      assert 12 * c == 8 * o + 4;
      Pow2Split(8 * o, 12 * c);
      DivTwice(LittleEndian(t), Pow2(8 * o), 16);
      DivModUnique(LittleEndian(u), 16, 4096 * r + w / 16, w % 16);
      DivModUnique(4096 * r + w / 16, 4096, r, w / 16);
    }
  }

  lemma TableByte(d: Disk, g: Geometry, t: seq<byte>, s: nat, o: nat)
    requires GoodDisk(d) && TableArea(d, g, t) && o < 512 && 512 * s + o < |t|
    ensures Wrap(g.fatbase + s) == g.fatbase + s && g.fatbase + s in d && d[g.fatbase + s][o] == t[512 * s + o]
  {
    var k := 512 * s + o;
    DivModUnique(k, 512, s, o);
    assert s <= |t| / 512;
  }

  /** A read inside one sector of the table area gives that piece of the table. */
  lemma TablePart(d: Disk, g: Geometry, t: seq<byte>, s: nat, o: nat, n: nat)
    requires GoodDisk(d) && TableArea(d, g, t) && n >= 1 && o + n <= 512 && 512 * s + o + n <= |t|
    ensures ReadPart(d, Wrap(g.fatbase + s), o, n) == Some(t[512 * s + o..512 * s + o + n])
  {
    TableByte(d, g, t, s, o);
    var b, u := d[g.fatbase + s][o..o + n], t[512 * s + o..512 * s + o + n];
    forall k | 0 <= k < n ensures b[k] == u[k] { TableByte(d, g, t, s, o + k); }
    assert b == u;
    hide TableArea, Wrap;
  }

  lemma GetFat12(d: Disk, g: Geometry, t: seq<byte>, c: nat)
    requires GoodDisk(d) && TableArea(d, g, t) && ValidCluster(g, c) && g.fsType == Fat12 && c + c / 2 + 2 <= |t|
    ensures GetFat(d, g, c) == Nibbles(LdWord(t, c + c / 2), c)
  {
    var bc := c + c / 2;
    var ofs, sect := bc % 512, bc / 512;
    hide TableArea, Wrap, Nibbles, ReadPart;
    if ofs != 511 {
      TablePart(d, g, t, sect, ofs, 2);
    } else {
      TablePart(d, g, t, sect, 511, 1);
      TablePart(d, g, t, sect + 1, 0, 1);
    }
  }

  lemma GetFat16(d: Disk, g: Geometry, t: seq<byte>, c: nat)
    requires GoodDisk(d) && TableArea(d, g, t) && ValidCluster(g, c) && g.fsType == Fat16 && 2 * c + 2 <= |t|
    ensures GetFat(d, g, c) == LdWord(t, 2 * c)
  {
    hide TableArea, Wrap, ReadPart;
    TablePart(d, g, t, c / 256, c % 256 * 2, 2);
  }

  lemma GetFat32(d: Disk, g: Geometry, t: seq<byte>, c: nat)
    requires GoodDisk(d) && TableArea(d, g, t) && ValidCluster(g, c) && g.fsType == Fat32 && 4 * c + 4 <= |t|
    ensures GetFat(d, g, c) == LdDword(t, 4 * c) % 0x1000_0000
  {
    hide TableArea, Wrap, ReadPart;
    TablePart(d, g, t, c / 128, c % 128 * 4, 4);
    assert LdDword(t[4 * c..4 * c + 4], 0) == LdDword(t, 4 * c);
  }

  /** For all three widths get_fat returns entry c of the packed table, also where a 12-bit
      entry straddles two sectors. */
  lemma GetFatIsTableEntry(d: Disk, g: Geometry, t: seq<byte>, c: nat)
    requires GoodDisk(d) && TableArea(d, g, t) && ValidCluster(g, c)
    requires EntryBits(g.fsType) * (c + 1) <= 8 * |t|
    ensures GetFat(d, g, c) == TableEntry(t, g.fsType, c)
  {
    hide TableArea, GetFat, TableEntry, LittleEndian, Nibbles;
    match g.fsType
    case Fat12 => GetFat12(d, g, t, c); Entry12(t, c);
    case Fat16 => GetFat16(d, g, t, c); Entry16(t, c);
    case Fat32 => GetFat32(d, g, t, c); Entry32(t, c);
  }
}
