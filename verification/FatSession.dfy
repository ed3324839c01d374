/** Mounting, opening and reading put together. */
module FatSession {
  import opened Common
  import opened Bits
  import opened FatCore
  import opened FatFile
  import opened FatMount
  import opened FatDir
  import opened FatContent

  /** flat is the content of the file with directory entry e. */
  ghost predicate IsContent(d: Disk, g: Geometry, e: seq<byte>, flat: seq<byte>)
    requires GoodDisk(d) && g.csize >= 1 && |e| == 32
  {
    |flat| == SizeOf(e) && IsFile(d, g, FirstCluster(g, e), flat)
  }

  lemma ContentUnique(d: Disk, g: Geometry, e: seq<byte>, x: seq<byte>, y: seq<byte>)
    requires GoodDisk(d) && g.csize >= 1 && |e| == 32 && IsContent(d, g, e, x) && IsContent(d, g, e, y)
    ensures x == y
  {
    hide ByteAt;
    forall k | 0 <= k < |x| ensures x[k] == y[k] {
      assert ByteAt(d, g, FirstCluster(g, e), k) == Some(x[k]);
    }
  }

  /** The file at the end of a path: not a directory, reached hop by hop from the root. */
  ghost predicate FileAt(d: Disk, g: Geometry, path: seq<byte>, w: seq<Hop>)
    requires GoodDisk(d) && g.csize >= 1
  {
    && w != [] && Resolves(d, g, path, w) && w[0].sclust == 0 && w[0].pos == PathStart(path)
    && |w[|w| - 1].entry| == 32 && !IsDir(w[|w| - 1].entry) && SegmentAt(path, w[|w| - 1].pos).stop <= SPACE
  }

  /** With readable clusters enough, the content is the beginning of the clusters of the file's chain. */
  lemma ContentOfChain(d: Disk, g: Geometry, e: seq<byte>, cs: seq<nat>)
    requires GoodDisk(d) && GeoOk(g) && g.csize >= 1 && |e| == 32
    requires IsChain(d, g, FirstCluster(g, e), cs) && AllReadable(d, g, cs) && SizeOf(e) <= |Content(d, g, cs)|
    ensures IsContent(d, g, e, Content(d, g, cs)[..SizeOf(e)])
  {
    hide GeoOk, IsChain, AllReadable, Content, IsFile, FirstCluster, SizeOf;
    FileIsContent(d, g, FirstCluster(g, e), cs, Content(d, g, cs)[..SizeOf(e)]);
  }

  /** Any reads and seeks on the file with entry e, just opened. */
  method RunOpened(fs: FileSystem, ops: seq<FileOp>, ghost e: seq<byte>) returns (outs: seq<seq<byte>>)
    requires fs.Valid() && fs.enabled && fs.isOpen && fs.g.csize >= 1 && |e| == 32
    requires fs.orgClust == FirstCluster(fs.g, e) && fs.fsize == SizeOf(e) && fs.fptr == 0
    modifies fs
    ensures fs.g == old(fs.g) && fs.enabled
    ensures forall flat :: IsContent(fs.disk, fs.g, e, flat) ==> outs == FlatRun(flat, 0, ops).0
  {
    hide FlatRun, IsFile, GeoOk, FirstCluster, SizeOf;
    ghost var content: seq<byte> := [];
    if flat :| IsContent(fs.disk, fs.g, e, flat) { content := flat; }
    outs := fs.RunOps(ops, content);
    forall flat | IsContent(fs.disk, fs.g, e, flat) ensures outs == FlatRun(flat, 0, ops).0 {
      ContentUnique(fs.disk, fs.g, e, flat, content);
    }
  }

  /** On a volume with a sound boot record: mount it, open a path, and run any reads and seeks. What
      comes out is what the file's byte string gives. */
  method Session(fs: FileSystem, ready: bool, path: seq<byte>, ops: seq<FileOp>)
    returns (res: FResult, outs: seq<seq<byte>>, ghost bsect: nat, ghost w: seq<Hop>)
    requires GoodDisk(fs.disk) && forall b :: VolumeAt(fs.disk, b) ==> SoundAt(fs.disk[b], b)
    modifies fs
    ensures res != Ok ==> outs == []
    ensures fs.enabled ==>
              && VolumeAt(fs.disk, bsect) && fs.disk[bsect][13] > 0 && fs.g.csize >= 1
              && GeometryOf(fs.disk[bsect], bsect, fs.g)
    ensures fs.enabled && res != Ok ==>
              if CharAt(path, PathStart(path)) < SPACE then res == NoFile
              else (res == NoFile && EndsInDirectory(path, w)) || Breaks(fs.disk, fs.g, path, w, res)
    ensures res == Ok ==> fs.enabled && FileAt(fs.disk, fs.g, path, w)
    ensures res == Ok ==>
              forall flat :: IsContent(fs.disk, fs.g, w[|w| - 1].entry, flat) ==> outs == FlatRun(flat, 0, ops).0
  {
    hide Layout, NoWrapAround, Breaks, Resolves, SegmentAt, GeoOk, PathStart, FlatRun, IsFile, IsContent, GeometryOf,
         FirstCluster, SizeOf, IsDir;
    outs, w := [], [];
    res, bsect := PfMount(fs, ready);
    hide VolumeAt, SoundAt;
    if res != Ok { return; }
    res, w := PfOpen(fs, path);
    if res != Ok { return; }
    outs := RunOpened(fs, ops, w[|w| - 1].entry);
  }
}
