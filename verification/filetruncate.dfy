/** f_truncate. */
module FileTruncate {
  import opened Layout
  import opened Window
  import opened FatAccess
  import opened Chains
  import opened Allocator
  import ChainRuns
  import opened FileMap
  import opened FileSpec
  import opened OpenFile
  import opened FileGrow
  import opened FileSeek

  /** How many clusters the first p bytes of a file need. */
  ghost function Kept(g: Geometry, p: nat): nat
    requires g.csize > 0
  {
    if p == 0 then 0 else ClusterOf(g, p - 1) + 1
  }

  /** f' is f with the chain ch ended after its first k clusters and the others free. */
  ghost predicate CutTo(g: Geometry, f: seq<nat>, f': seq<nat>, ch: seq<nat>, k: nat) {
    && |f'| == |f| && k <= |ch|
    && forall c :: 0 <= c < |f| ==>
         f'[c] == if c in ch[k..] then 0 else if 0 < k < |ch| && c == ch[k - 1] then EndMark(g.fsType) else f[c]
  }

  lemma CutToChain(g: Geometry, f: seq<nat>, f': seq<nat>, sclust: nat, ch: seq<nat>, k: nat)
    requires g.Valid() && |f| == g.nFatent && ChainOf(f, sclust, ch) && CutTo(g, f, f', ch, k) && Healthy(f)
    ensures ChainOf(f', if k == 0 then 0 else sclust, ch[..k]) && Healthy(f')
  {
    EndMarkEnds(g);
    if k > 0 {
      assert forall i :: 0 <= i < k ==> ch[i] !in ch[k..];
      assert forall i :: 0 <= i < k - 1 ==> f'[ch[i]] == ch[i + 1];
    }
  }

  lemma CutToAway(g: Geometry, f: seq<nat>, f': seq<nat>, ch: seq<nat>, k: nat, s: nat)
    requires CutTo(g, f, f', ch, k) && Away(g, f, ch, s)
    ensures Away(g, f', ch[..k], s)
  {
    forall c: nat | g.Cluster(c) && c < |f'| && g.InCluster(c, s) ensures f'[c] != 0 && c !in ch[..k] {
      assert c !in ch;
    }
  }

  lemma CutToOurs(g: Geometry, f: seq<nat>, f': seq<nat>, ch: seq<nat>, k: nat, t: nat)
    requires CutTo(g, f, f', ch, k) && Ours(g, f, ch, t)
    ensures Ours(g, f', ch[..k], t)
  {
    var c: nat :| g.Cluster(c) && c < |f| && g.InCluster(c, t) && (f[c] == 0 || c in ch);
    assert ch == ch[..k] + ch[k..];
    assert c in ch ==> c in ch[..k] || c in ch[k..];
  }

  /** The buffer, if dirty, holds a sector of the clusters that stay. */
  ghost predicate Keepable(g: Geometry, ch: seq<nat>, k: nat, dirty: bool, dsect: nat) {
    k <= |ch| && Clusters(g, ch[..k]) && (dirty ==> dsect in Sectors(g, ch[..k]))
  }

  lemma KeptRoom(g: Geometry, f: seq<nat>, sclust: nat, ch: seq<nat>, p: nat, clust: nat)
    requires g.Valid() && |f| == g.nFatent && ChainOf(f, sclust, ch) && (p > 0 ==> Holds(g, ch, p - 1, clust))
    ensures Kept(g, p) <= |ch| && p <= Span(Kept(g, p), g.csize) * SS
    ensures p % SS != 0 ==> p / SS < Span(Kept(g, p), g.csize)
    ensures p > 0 ==> Holds(g, ch[..Kept(g, p)], p - 1, clust)
  {
    if p > 0 {
      var q := (p - 1) / SS;
      ClusterCount(g, q, Kept(g, p));
      assert p <= (q + 1) * SS;
      assert p % SS != 0 ==> p / SS == q;
    }
  }

  lemma CutToBuffered(g: Geometry, f: seq<nat>, f': seq<nat>, ch: seq<nat>, k: nat, d: seq<Sector>, d': seq<Sector>,
                      p: nat, dsect: nat, dirty: bool, buf: seq<byte>)
    requires g.Valid() && CutTo(g, f, f', ch, k) && Buffered(g, f, ch, d, p, dsect, dirty, buf) && SameData(g, d, d')
    requires p % SS != 0 ==> p / SS < Span(k, g.csize)
    ensures Buffered(g, f', ch[..k], d', p, dsect, dirty, buf) <==> Keepable(g, ch, k, dirty, dsect)
  {
    SectorsPrefix(g, ch[..k], ch);
    if dsect != 0 {
      CutToOurs(g, f, f', ch, k, dsect);
      OursInData(g, f, ch, dsect);
    }
  }

  lemma CutToBytes(g: Geometry, ch: seq<nat>, k: nat, v: seq<Sector>, w: seq<Sector>)
    requires g.Valid() && Clusters(g, ch) && k <= |ch| && SameData(g, v, w) && g.End() <= |v| && OnDisk(v, Sectors(g, ch))
    ensures Clusters(g, ch[..k]) && OnDisk(w, Sectors(g, ch[..k]))
    ensures Bytes(w, Sectors(g, ch[..k])) <= Bytes(v, Sectors(g, ch))
  {
    SectorsPrefix(g, ch[..k], ch);
    var ss, tt := Sectors(g, ch), Sectors(g, ch[..k]);
    forall q | 0 <= q < |ss| ensures g.RootBase() <= ss[q] < |v| { SectorOwner(g, ch, q); }
    assert forall q :: 0 <= q < |tt| ==> tt[q] == ss[q];
    var a, b := Bytes(w, tt), Bytes(v, ss);
    forall i | 0 <= i < |a| ensures a[i] == b[i] {
      assert tt[i / SS] == ss[i / SS];
    }
  }

  /** Sector s lies in a free cluster of FAT f that was one of ch. */
  ghost predicate Released(g: Geometry, f: seq<nat>, ch: seq<nat>, s: nat) {
    exists c: nat :: c in ch && g.Cluster(c) && g.InCluster(c, s) && c < |f| && f[c] == 0
  }

  /** A dirty buffer that does not stay holds a sector of a cluster that is free now. */
  lemma BufferReleased(g: Geometry, f: seq<nat>, f': seq<nat>, ch: seq<nat>, k: nat, d: seq<Sector>, p: nat, dsect: nat, dirty: bool, buf: seq<byte>)
    requires g.Valid() && |f| == g.nFatent && CutTo(g, f, f', ch, k) && Buffered(g, f, ch, d, p, dsect, dirty, buf)
    requires !Keepable(g, ch, k, dirty, dsect)
    ensures dirty && Released(g, f', ch, dsect)
  {
    SectorsPrefix(g, ch[..k], ch);
    var q :| 0 <= q < |Sectors(g, ch)| && Sectors(g, ch)[q] == dsect;
    var i := Quot(q, g.csize);
    SectorOf(g, ch, q);
    QuotRem(q, g.csize);
    ClusterCount(g, q, k);
    BehindPrefix(Sectors(g, ch[..k]), Sectors(g, ch), q);
    assert ch[k..][i - k] == ch[i];
    assert g.InCluster(ch[i], dsect);
  }

  lemma BehindPrefix(p: seq<nat>, s: seq<nat>, q: nat)
    requires p <= s && q < |s|
    ensures s[q] !in p ==> q >= |p|
  {
    if q < |p| { assert p[q] == s[q]; }
  }

  /** Freed clusters are counted exactly. */
  lemma CutToFrees(g: Geometry, f: seq<nat>, f': seq<nat>, sclust: nat, ch: seq<nat>, k: nat)
    requires g.Valid() && |f| == g.nFatent && ChainOf(f, sclust, ch) && CutTo(g, f, f', ch, k)
    ensures Free(f') == Free(f) + |ch| - k
  {
    if k == |ch| {
      assert f' == f;
    } else if k == 0 {
      assert ch[0..] == ch;
      assert f' == Cleared(f, ch);
      ChainRuns.ReleaseFrees(f, ch);
    } else {
      var h := f[ch[k - 1] := EndMark(g.fsType)];
      ChainEntries(f, ch);
      TailIsChain(f, ch, k);
      ChainFrame(f, h, ch[k..]);
      assert f' == Cleared(h, ch[k..]);
      ChainRuns.ReleaseFrees(h, ch[k..]);
      FreeUpdate(f, ch[k - 1], EndMark(g.fsType));
    }
  }

  lemma CutToAll(g: Geometry, f: seq<nat>, sclust: nat, ch: seq<nat>)
    requires ChainOf(f, sclust, ch) && sclust != 0 && |f| == g.nFatent
    ensures g.Cluster(sclust) && CutTo(g, f, Unlink(f, sclust).0, ch, 0) && Unlink(f, sclust).1
  {
    UnlinkChain(f, ch);
    assert ch[0..] == ch;
  }

  lemma CutToPart(g: Geometry, f: seq<nat>, sclust: nat, ch: seq<nat>, k: nat)
    requires g.Valid() && ChainOf(f, sclust, ch) && 0 < k <= |ch| && |f| == g.nFatent
    ensures g.Cluster(ch[k - 1]) && (f[ch[k - 1]] < |f| <==> k < |ch|)
    ensures k == |ch| ==> CutTo(g, f, f, ch, k)
    ensures k < |ch| ==> g.Cluster(f[ch[k - 1]])
    ensures k < |ch| ==>
      var u := Unlink(f[ch[k - 1] := EndMark(g.fsType)], f[ch[k - 1]]);
      u.1 && CutTo(g, f, u.0, ch, k)
  {
    EndMarkEnds(g);
    if k < |ch| { ChainRuns.TruncateIsCut(f, ch, k, EndMark(g.fsType)); }
  }

  lemma CutOnlyFat(g: Geometry, d: seq<Sector>)
    requires Fits(g, d)
    ensures OnlyFat(g, d, d)
  {
  }

  /** The FAT part of f_truncate: end the chain after its first k clusters, the last of which is clust. */
  method CutFat(fs: Volume, sclust: nat, clust: nat, fptr: nat, ghost ch: seq<nat>, ghost k: nat) returns (res: FResult)
    requires fs.Valid() && ChainOf(Fat(fs.geo, fs.Logical()), sclust, ch) && ch != [] && Healthy(Fat(fs.geo, fs.Logical()))
    requires if fptr == 0 then k == 0 else 0 < k <= |ch| && clust == ch[k - 1]
    modifies fs`disk, fs`winsect, fs`wflag, fs`fsiFlag, fs`freeClust, fs.win
    ensures fs.Valid() && OnlyFat(fs.geo, old(fs.Logical()), fs.Logical()) && fs.geo.InFat(fs.winsect)
    ensures CutTo(fs.geo, Fat(fs.geo, old(fs.Logical())), Fat(fs.geo, fs.Logical()), ch, k) && res == FR_OK
    ensures Counts(old(fs.freeClust), Fat(fs.geo, old(fs.Logical())), fs.freeClust, Fat(fs.geo, fs.Logical()))
  {
    hide *;
    ghost var g, d := fs.geo, fs.Logical();
    VolumeFits(fs);
    ghost var f := Fat(g, d);
    ChainRange(g, f, sclust, ch);
    CutOnlyFat(g, d);
    CountsRefl(fs.freeClust, f);
    res := FR_OK;
    if fptr == 0 {
      CutToAll(g, f, sclust, ch);
      res := RemoveChain(fs, sclust);
      VolumeFits(fs);
    } else {
      CutToPart(g, f, sclust, ch, k);
      var ncl := GetFat(fs, clust);
      VolumeFits(fs);
      if ncl < fs.geo.nFatent {
        NotAnEnd(g, f, sclust, ch, k);
        res := EndChain(fs, clust, ncl);
        VolumeFits(fs);
      }
    }
  }

  lemma ChainRange(g: Geometry, f: seq<nat>, sclust: nat, ch: seq<nat>)
    requires g.Valid() && |f| == g.nFatent && ChainOf(f, sclust, ch) && ch != []
    ensures 0 < sclust < DWORDS && forall i :: 0 <= i < |ch| ==> ch[i] < DWORDS
    ensures g.nFatent <= 0x0FFF_FFFF < DWORDS
  {
  }

  lemma NotAnEnd(g: Geometry, f: seq<nat>, sclust: nat, ch: seq<nat>, k: nat)
    requires g.Valid() && ChainOf(f, sclust, ch) && 0 < k <= |ch| && |f| == g.nFatent && f[ch[k - 1]] < |f|
    ensures k < |ch|
  {
  }

  /** The cut itself. */
  method CutHere(fp: File)
    requires fp.Valid() && fp.fsize > fp.fptr
    modifies fp`fsize, fp`written, fp`sclust, fp`chain, fp`fat, fp`log
    modifies fp.fs`disk, fp.fs`winsect, fp.fs`wflag, fp.fs`fsiFlag, fp.fs`freeClust, fp.fs.win
    ensures fp.fs.geo.csize > 0 && Kept(fp.fs.geo, fp.fptr) <= |old(fp.chain)|
    ensures fp.written && fp.fsize == fp.fptr && fp.chain == old(fp.chain)[..Kept(fp.fs.geo, fp.fptr)]
    ensures Free(fp.fat) == Free(old(fp.fat)) + |old(fp.chain)| - |fp.chain|
    ensures CutTo(fp.fs.geo, old(fp.fat), fp.fat, old(fp.chain), |fp.chain|)
    ensures fp.Valid() <==> Keepable(fp.fs.geo, old(fp.chain), |fp.chain|, fp.dirty, fp.dsect)
    ensures !fp.Valid() ==> fp.dirty && Released(fp.fs.geo, fp.fat, old(fp.chain), fp.dsect)
    ensures fp.Valid() ==> fp.Contents() == old(fp.Contents())[..fp.fptr]
    ensures fp.Valid() ==> fp.Core() && SameData(fp.fs.geo, old(fp.View()), fp.View())
  {
    hide *;
    ValidFacts(fp);
    SoundFacts(fp);
    CoreFacts(fp);
    WholeIs(fp);
    ViewIs(fp);
    ghost var g, f, log, ch := fp.fs.geo, fp.fat, fp.log, fp.chain;
    ghost var k := Kept(g, fp.fptr);
    SizeNeedsChain(g, f, fp.sclust, ch, fp.fsize);
    KeptRoom(g, f, fp.sclust, ch, fp.fptr, fp.clust);
    KeptLast(g, ch, fp.fptr, fp.clust);
    fp.fsize := fp.fptr;
    fp.written := true;
    var res := CutFat(fp.fs, fp.sclust, fp.clust, fp.fptr, ch, k);
    if fp.fptr == 0 { fp.sclust := 0; }
    VolumeFits(fp.fs);
    OnlyFatData(g, log, fp.fs.Logical());
    CutToFrees(g, f, Fat(g, fp.fs.Logical()), old(fp.sclust), ch, k);
    Shrink(fp, ch, k, f, log, old(fp.sclust));
    if Keepable(g, ch, k, fp.dirty, fp.dsect) {
      ValidFacts(fp);
      ViewIs(fp);
      OverlaySame(g, log, fp.log, fp.dsect, fp.dirty, fp.buf[..]);
      ShrunkContents(fp, ch, k, old(fp.View()), old(fp.Whole()), old(fp.fsize));
    } else {
      BufferReleased(g, f, fp.fat, ch, k, log, fp.fptr, fp.dsect, fp.dirty, fp.buf[..]);
    }
  }

  /** f_truncate: the file ends at the cursor, its other clusters are free again and counted. The one thing it
      does not look at is the private buffer: the invariant survives if and only if a dirty buffer holds a
      sector of the clusters that stay. Otherwise the next write-back of the buffer stores to a cluster that is free. */
  method Truncate(fp: File) returns (res: FResult)
    requires fp.Valid()
    modifies fp`fsize, fp`written, fp`sclust, fp`chain, fp`fat, fp`log
    modifies fp.fs`disk, fp.fs`winsect, fp.fs`wflag, fp.fs`fsiFlag, fp.fs`freeClust, fp.fs.win
    ensures res == if fp.failed then FR_INT_ERR else if fp.canWrite then FR_OK else FR_DENIED
    ensures fp.failed || !fp.canWrite || old(fp.fsize) == fp.fptr ==> fp.Valid() && unchanged(fp) && unchanged(fp.fs) && unchanged(fp.fs.win)
    ensures !fp.failed && fp.canWrite && old(fp.fsize) > fp.fptr ==> fp.fs.geo.csize > 0 && Kept(fp.fs.geo, fp.fptr) <= |old(fp.chain)|
    ensures !fp.failed && fp.canWrite && old(fp.fsize) > fp.fptr ==>
      && fp.written && fp.fsize == fp.fptr && fp.chain == old(fp.chain)[..Kept(fp.fs.geo, fp.fptr)]
      && Free(fp.fat) == Free(old(fp.fat)) + |old(fp.chain)| - |fp.chain|
      && CutTo(fp.fs.geo, old(fp.fat), fp.fat, old(fp.chain), |fp.chain|)
      && (fp.Valid() <==> Keepable(fp.fs.geo, old(fp.chain), |fp.chain|, fp.dirty, fp.dsect))
      && (!fp.Valid() ==> fp.dirty && Released(fp.fs.geo, fp.fat, old(fp.chain), fp.dsect))
    ensures !fp.failed && fp.canWrite && fp.Valid() ==> fp.Contents() == old(fp.Contents())[..fp.fptr]
    ensures fp.Valid() ==> fp.Core() && SameData(fp.fs.geo, old(fp.View()), fp.View())
  {
    hide *;
    ValidFacts(fp);
    CoreFacts(fp);
    SameDataRefl(fp.fs.geo, fp.View());
    if fp.failed { return FR_INT_ERR; }
    if !fp.canWrite { return FR_DENIED; }
    res := FR_OK;
    if fp.fsize > fp.fptr { CutHere(fp); } else { WholeTake(fp.Contents(), fp.fptr); }
  }

  lemma WholeTake(b: seq<byte>, n: nat)
    requires |b| == n
    ensures b[..n] == b
  {
  }

  /** After f_sync, or with the cursor inside the buffered sector, f_truncate is safe. */
  lemma KeepableWhen(g: Geometry, f: seq<nat>, sclust: nat, ch: seq<nat>, d: seq<Sector>, p: nat, clust: nat,
                     dsect: nat, dirty: bool, buf: seq<byte>)
    requires g.Valid() && |f| == g.nFatent && ChainOf(f, sclust, ch) && (p > 0 ==> Holds(g, ch, p - 1, clust))
    requires Buffered(g, f, ch, d, p, dsect, dirty, buf)
    requires !dirty || p % SS != 0
    ensures Keepable(g, ch, Kept(g, p), dirty, dsect)
  {
    KeptRoom(g, f, sclust, ch, p, clust);
    SectorsPrefix(g, ch[..Kept(g, p)], ch);
  }

  /** With the cursor back at 0, every dirty buffer is one that f_truncate releases the cluster of. */
  lemma LosesBuffer(g: Geometry, f: seq<nat>, sclust: nat, ch: seq<nat>, d: seq<Sector>, q: nat, buf: Sector)
    requires Fits(g, d) && |f| == g.nFatent && ChainOf(f, sclust, ch) && Clusters(g, ch) && q < |Sectors(g, ch)|
    ensures Buffered(g, f, ch, d, 0, Sectors(g, ch)[q], true, buf)
    ensures !Keepable(g, ch, Kept(g, 0), true, Sectors(g, ch)[q])
  {
    SectorIsOurs(g, f, ch, q);
    SectorOwner(g, ch, q);
    assert ch[..0] == [];
  }

  lemma SizeNeedsChain(g: Geometry, f: seq<nat>, sclust: nat, ch: seq<nat>, size: nat)
    requires g.Valid() && ChainOf(f, sclust, ch) && 0 < size <= Span(|ch|, g.csize) * SS
    ensures ch != [] && sclust != 0 && g.csize > 0
  {
  }

  lemma KeptLast(g: Geometry, ch: seq<nat>, p: nat, clust: nat)
    requires g.Valid() && (p > 0 ==> Holds(g, ch, p - 1, clust))
    ensures g.csize > 0 && (p == 0 ==> Kept(g, p) == 0)
    ensures p > 0 ==> 0 < Kept(g, p) <= |ch| && clust == ch[Kept(g, p) - 1]
  {
  }

  lemma FatSystem(g: Geometry, s: nat)
    requires g.Valid() && g.InFat(s)
    ensures s < g.database
  {
  }

  lemma PositionedCut(g: Geometry, ch: seq<nat>, k: nat, p: nat)
    requires k <= |ch| && p <= Span(k, g.csize) * SS && p < DWORDS
    ensures Positioned(g, ch[..k], p, p)
  {
  }

  lemma NotBuffered(fp: File)
    requires fp.Valid()
    ensures Buffered(fp.fs.geo, fp.fat, fp.chain, fp.log, fp.fptr, fp.dsect, fp.dirty, fp.buf[..])
  {
  }

  lemma SameLength(g: Geometry, d: seq<Sector>, e: seq<Sector>)
    requires SameData(g, d, e)
    ensures |e| == |d|
  {
  }

  /** Bring chain and ghost state up to date after the chain was cut. */
  ghost method Shrink(fp: File, ch: seq<nat>, k: nat, f: seq<nat>, log: seq<Sector>, sclust: nat)
    requires fp.buf.Length == SS && fp.buf != fp.fs.win && fp.fs.Valid() && Fits(fp.fs.geo, log) && Healthy(f)
    requires Fits(fp.fs.geo, fp.fs.Logical()) && SameData(fp.fs.geo, log, fp.fs.Logical()) && fp.fs.geo.InFat(fp.fs.winsect)
    requires k <= |ch| && |f| == fp.fs.geo.nFatent && CutTo(fp.fs.geo, f, Fat(fp.fs.geo, fp.fs.Logical()), ch, k)
    requires ChainOf(f, sclust, ch) && fp.sclust == if k == 0 then 0 else sclust
    requires Buffered(fp.fs.geo, f, ch, log, fp.fptr, fp.dsect, fp.dirty, fp.buf[..])
    requires fp.fptr % SS != 0 ==> fp.fptr / SS < Span(k, fp.fs.geo.csize)
    requires fp.fptr <= Span(k, fp.fs.geo.csize) * SS && fp.fptr < DWORDS && fp.fsize == fp.fptr && fp.written
    requires fp.fptr > 0 ==> Holds(fp.fs.geo, ch[..k], fp.fptr - 1, fp.clust)
    requires Away(fp.fs.geo, f, ch, fp.dirSect)
    requires fp.fs.geo.RootBase() <= fp.dirSect < |log| && fp.dirOfs + SZ_DIR <= SS
    modifies fp`chain, fp`fat, fp`log
    ensures fp.chain == ch[..k] && fp.log == fp.fs.Logical() && fp.fat == Fat(fp.fs.geo, fp.log)
    ensures fp.Valid() <==> Keepable(fp.fs.geo, ch, k, fp.dirty, fp.dsect)
  {
    hide *;
    ghost var g := fp.fs.geo;
    fp.chain, fp.log, fp.fat := ch[..k], fp.fs.Logical(), Fat(g, fp.fs.Logical());
    SameLength(g, log, fp.log);
    FitsEnd(g, log);
    CutToChain(g, f, fp.fat, sclust, ch, k);
    CutToAway(g, f, fp.fat, ch, k, fp.dirSect);
    FatSystem(g, fp.fs.winsect);
    SystemAway(g, fp.fat, fp.chain, fp.fs.winsect);
    PositionedCut(g, ch, k, fp.fptr);
    CutToBuffered(g, f, fp.fat, ch, k, log, fp.log, fp.fptr, fp.dsect, fp.dirty, fp.buf[..]);
    if Keepable(g, ch, k, fp.dirty, fp.dsect) {
      CoreIntro(fp);
      SoundIntro(fp);
      ValidIntro(fp);
    } else {
      if fp.Valid() { NotBuffered(fp); }
    }
  }

  lemma ShrunkContents(fp: File, ch: seq<nat>, k: nat, v: seq<Sector>, w: seq<byte>, size: nat)
    requires fp.Valid() && fp.Core() && k <= |ch| && fp.chain == ch[..k]
    requires Clusters(fp.fs.geo, ch) && OnDisk(v, Sectors(fp.fs.geo, ch)) && w == Bytes(v, Sectors(fp.fs.geo, ch))
    requires SameData(fp.fs.geo, v, fp.View()) && fp.fsize == fp.fptr <= size <= |w|
    ensures fp.Contents() == w[..size][..fp.fptr]
  {
    hide *;
    CoreFacts(fp);
    FitsEnd(fp.fs.geo, fp.log);
    ViewIs(fp);
    WholeIs(fp);
    ValidFacts(fp);
    SameLength(fp.fs.geo, v, fp.View());
    CutToBytes(fp.fs.geo, ch, k, v, fp.View());
  }
}
