/** An open file: the FIL object with its private sector buffer, and its invariant. */
module OpenFile {
  import opened Layout
  import opened Window
  import opened FatAccess
  import opened Chains
  import opened FileMap
  import opened FileSpec

  class File {
    const fs: Volume
    const canRead: bool       // FA_READ
    const canWrite: bool      // FA_WRITE
    const dirSect: nat        // sector and offset of the directory entry
    const dirOfs: nat
    const buf: array<byte>
    var written: bool         // FA__WRITTEN
    var dirty: bool           // FA__DIRTY
    var failed: bool          // FA__ERROR
    var fptr: nat
    var fsize: nat
    var sclust: nat
    var clust: nat
    var dsect: nat
    ghost var chain: seq<nat> // the clusters from sclust on
    ghost var fat: seq<nat>   // the FAT's entries
    ghost var log: seq<Sector> // the volume's logical disk

    /** The end of f_open: cursor at 0, nothing buffered. */
    constructor (v: Volume, read: bool, write: bool, dsec: nat, dofs: nat, start: nat, size: nat, ghost ch: seq<nat>)
      requires v.Valid() && ChainOf(Fat(v.geo, v.Logical()), start, ch) && Healthy(Fat(v.geo, v.Logical()))
      requires size < DWORDS && size <= Span(|ch|, v.geo.csize) * SS
      requires v.geo.RootBase() <= dsec < |v.disk| && dofs + SZ_DIR <= SS
      requires Away(v.geo, Fat(v.geo, v.Logical()), ch, v.winsect)
      requires Away(v.geo, Fat(v.geo, v.Logical()), ch, dsec)
      ensures Valid() && fs == v && fptr == 0 && fsize == size && sclust == start && chain == ch
      ensures canRead == read && canWrite == write && dirSect == dsec && dirOfs == dofs
      ensures !dirty && !written && !failed && View() == v.Logical() && fresh(buf)
    {
      fs, canRead, canWrite, dirSect, dirOfs := v, read, write, dsec, dofs;
      buf := new byte[SS](_ => 0);
      written, dirty, failed, fptr, fsize, sclust, clust, dsect := false, false, false, 0, size, start, 0, 0;
      chain, fat, log := ch, Fat(v.geo, v.Logical()), v.Logical();
    }

    /** What ties the file to the volume: its chain lies in the FAT, and neither the window
        nor the directory entry is in a sector the file may write. */
    ghost predicate Frame()
      reads this`fptr, this`fsize, this`sclust, this`chain, this`fat, this`log, fs, fs.win
    {
      && buf.Length == SS && buf != fs.win && fs.Valid()
      && log == fs.Logical() && fat == Fat(fs.geo, log) && Healthy(fat)
      && ChainOf(fat, sclust, chain)
      && Positioned(fs.geo, chain, fptr, fsize)
      && Away(fs.geo, fat, chain, fs.winsect)
      && Away(fs.geo, fat, chain, dirSect)
      && fs.geo.RootBase() <= dirSect < |log| && dirOfs + SZ_DIR <= SS
    }

    /** The invariant, apart from what clust and fptr have to do with each other. */
    ghost predicate Core()
      reads this`dirty, this`fptr, this`fsize, this`sclust, this`dsect, this`chain, this`fat, this`log, buf, fs, fs.win
    {
      Frame() && Buffered(fs.geo, fat, chain, log, fptr, dsect, dirty, buf[..])
    }

    /** The disk as this file sees it. */
    ghost function View(): (v: seq<Sector>)
      requires Core()
      reads this`dirty, this`fptr, this`fsize, this`sclust, this`dsect, this`chain, this`fat, this`log, buf, fs, fs.win
      ensures |v| == |log|
    {
      Overlay(log, dsect, dirty, buf[..])
    }

    /** All bytes of the chain, also those behind the file size. */
    ghost function Whole(): (b: seq<byte>)
      requires Core()
      reads this`dirty, this`fptr, this`fsize, this`sclust, this`dsect, this`chain, this`fat, this`log, buf, fs, fs.win
      ensures |b| == Span(|chain|, fs.geo.csize) * SS
    {
      ChainSectors(fs.geo, fat, sclust, chain, View());
      Bytes(View(), Sectors(fs.geo, chain))
    }

    /** clust is the cluster of the byte before the cursor. In f_write's loop the cursor
        may be behind the file size. */
    ghost predicate Sound()
      reads this, buf, fs, fs.win
    {
      Core() && (fptr > 0 ==> Holds(fs.geo, chain, fptr - 1, clust))
    }

    ghost predicate Valid()
      reads this, buf, fs, fs.win
    {
      Sound() && fptr <= fsize && (dirty ==> written)
    }

    /** The file's bytes. */
    ghost function Contents(): (b: seq<byte>)
      requires Core()
      reads this`dirty, this`fptr, this`fsize, this`sclust, this`dsect, this`chain, this`fat, this`log, buf, fs, fs.win
      ensures |b| == fsize
    {
      Whole()[..fsize]
    }
  }

  /** The sector of the file at a sector boundary, from cluster and offset as the code computes it. */
  lemma CursorSector(g: Geometry, f: seq<nat>, sclust: nat, ch: seq<nat>, fptr: nat, clust: nat)
    requires g.Valid() && |f| == g.nFatent && ChainOf(f, sclust, ch)
    requires fptr % SS == 0 && fptr < Span(|ch|, g.csize) * SS && Holds(g, ch, fptr, clust)
    ensures Clusters(g, ch) && fptr / SS < |Sectors(g, ch)|
    ensures g.Cluster(clust) && g.Base(clust) + Rem(fptr / SS, g.csize) == Sectors(g, ch)[fptr / SS]
  {
    ChainClusters(g, f, sclust, ch);
    SectorOf(g, ch, fptr / SS);
  }

  /** Where the cursor enters a new cluster it is the follower of the current one. */
  lemma NextClusterOf(g: Geometry, f: seq<nat>, sclust: nat, ch: seq<nat>, fptr: nat, clust: nat)
    requires g.Valid() && |f| == g.nFatent && ChainOf(f, sclust, ch)
    requires fptr % SS == 0 && fptr < Span(|ch|, g.csize) * SS
    requires fptr > 0 ==> Holds(g, ch, fptr - 1, clust)
    ensures fptr == 0 ==> sclust >= 2 && Holds(g, ch, fptr, sclust) && Rem(fptr / SS, g.csize) == 0
    ensures fptr > 0 && Rem(fptr / SS, g.csize) == 0 ==>
      g.Cluster(clust) && Holds(g, ch, fptr, f[clust]) && g.Cluster(f[clust])
    ensures fptr > 0 && Rem(fptr / SS, g.csize) != 0 ==> Holds(g, ch, fptr, clust)
  {
    ClusterCount(g, fptr / SS, |ch|);
    if fptr > 0 {
      assert (fptr - 1) / SS == fptr / SS - 1;
      NextSector(g, fptr / SS);
      if Rem(fptr / SS, g.csize) == 0 {
        Follower(f, ch, Quot((fptr - 1) / SS, g.csize));
      }
    }
  }

  /** The parts of the invariant, for proofs that keep its definition hidden. */
  lemma CoreFacts(fp: File)
    requires fp.Core()
    ensures fp.Frame() && Healthy(fp.fat) && SS > 0
    ensures fp.buf.Length == SS && fp.buf != fp.fs.win && fp.fs.Valid() && fp.fs.geo.Valid()
    ensures fp.log == fp.fs.Logical() && Fits(fp.fs.geo, fp.log) && fp.fat == Fat(fp.fs.geo, fp.log)
    ensures |fp.log| == |fp.fs.disk| && |fp.fat| == fp.fs.geo.nFatent
    ensures ChainOf(fp.fat, fp.sclust, fp.chain)
    ensures Positioned(fp.fs.geo, fp.chain, fp.fptr, fp.fsize)
    ensures Buffered(fp.fs.geo, fp.fat, fp.chain, fp.log, fp.fptr, fp.dsect, fp.dirty, fp.buf[..])
    ensures Away(fp.fs.geo, fp.fat, fp.chain, fp.fs.winsect)
    ensures Away(fp.fs.geo, fp.fat, fp.chain, fp.dirSect)
    ensures fp.fs.geo.RootBase() <= fp.dirSect < |fp.log| && fp.dirOfs + SZ_DIR <= SS
    ensures fp.fptr <= Span(|fp.chain|, fp.fs.geo.csize) * SS && fp.fsize <= Span(|fp.chain|, fp.fs.geo.csize) * SS
    ensures fp.fptr < DWORDS && fp.fsize < DWORDS
  {
  }

  lemma CoreIntro(fp: File)
    requires fp.buf.Length == SS && fp.buf != fp.fs.win && fp.fs.Valid()
    requires fp.log == fp.fs.Logical() && Fits(fp.fs.geo, fp.log) && fp.fat == Fat(fp.fs.geo, fp.log) && Healthy(fp.fat)
    requires ChainOf(fp.fat, fp.sclust, fp.chain)
    requires Positioned(fp.fs.geo, fp.chain, fp.fptr, fp.fsize)
    requires Buffered(fp.fs.geo, fp.fat, fp.chain, fp.log, fp.fptr, fp.dsect, fp.dirty, fp.buf[..])
    requires Away(fp.fs.geo, fp.fat, fp.chain, fp.fs.winsect)
    requires Away(fp.fs.geo, fp.fat, fp.chain, fp.dirSect)
    requires fp.fs.geo.RootBase() <= fp.dirSect < |fp.log| && fp.dirOfs + SZ_DIR <= SS
    ensures fp.Core() && fp.Frame()
  {
  }

  lemma ViewIs(fp: File)
    requires fp.Core()
    ensures fp.dirty ==> fp.dsect < |fp.log|
    ensures fp.View() == (if fp.dirty then fp.log[fp.dsect := fp.buf[..]] else fp.log)
  {
  }

  lemma SoundFacts(fp: File)
    requires fp.Sound()
    ensures fp.Core() && (fp.fptr > 0 ==> Holds(fp.fs.geo, fp.chain, fp.fptr - 1, fp.clust))
  {
  }

  lemma ClusterRange(g: Geometry, c: nat)
    requires g.Valid() && g.Cluster(c)
    ensures 2 <= c < DWORDS
  {
  }

  /** get_fat on behalf of a file. */
  method Follow(fp: File, c: nat) returns (v: nat)
    requires fp.Core()
    modifies fp.fs`disk, fp.fs`winsect, fp.fs`wflag, fp.fs.win
    ensures fp.Core() && fp.View() == old(fp.View()) && fp.Whole() == old(fp.Whole())
    ensures |fp.fat| == fp.fs.geo.nFatent && v == if fp.fs.geo.Cluster(c) then fp.fat[c] else 1
    ensures fp.fs.wflag ==> old(fp.fs.wflag)
  {
    v := GetFat(fp.fs, c);
    if fp.fs.geo.Cluster(c) { SystemAway(fp.fs.geo, fp.fat, fp.chain, fp.fs.winsect); }
  }

  lemma BufferedFlush(g: Geometry, f: seq<nat>, ch: seq<nat>, d: seq<Sector>, fptr: nat, dsect: nat, buf: Sector, w: nat)
    requires g.Valid() && Buffered(g, f, ch, d, fptr, dsect, true, buf) && Away(g, f, ch, w)
    ensures g.RootBase() <= dsect < |d| && dsect != w
    ensures Buffered(g, f, ch, d[dsect := buf], fptr, dsect, false, buf)
  {
    AwayFromOurs(g, f, ch, w, dsect);
    OursInData(g, f, ch, dsect);
  }

  /** Write back the private buffer if it is dirty. */
  method FlushBuf(fp: File)
    requires fp.Core()
    modifies fp`dirty, fp`log, fp.fs`disk
    ensures fp.Core() && !fp.dirty
    ensures fp.log == old(fp.View()) == fp.View()
  {
    hide *;
    CoreFacts(fp);
    ViewIs(fp);
    if fp.dirty {
      ghost var g := fp.fs.geo;
      BufferedFlush(g, fp.fat, fp.chain, fp.log, fp.fptr, fp.dsect, fp.buf[..], fp.fs.winsect);
      FatKept(g, fp.log, fp.dsect, fp.buf[..]);
      DiskWrite(fp.fs, fp.dsect, fp.buf[..]);
      fp.dirty := false;
      fp.log := fp.fs.Logical();
      FitsKept(g, old(fp.log), fp.log);
      CoreIntro(fp);
      ViewIs(fp);
    }
  }

  lemma FitsKept(g: Geometry, d: seq<Sector>, e: seq<Sector>)
    requires Fits(g, d) && |e| == |d|
    ensures Fits(g, e)
  {
  }

  /** mem_cpy into an array. */
  method CopyBytes(dst: array<byte>, ofs: nat, src: seq<byte>)
    requires ofs + |src| <= dst.Length
    modifies dst
    ensures dst[..] == Splice(old(dst[..]), ofs, src)
  {
    var i := 0;
    while i < |src|
      invariant 0 <= i <= |src|
      invariant forall j :: 0 <= j < dst.Length ==>
        dst[j] == if ofs <= j < ofs + i then src[j - ofs] else old(dst[j])
    {
      dst[ofs + i] := src[i];
      i := i + 1;
    }
  }

  lemma BufferedLoad(g: Geometry, f: seq<nat>, ch: seq<nat>, d: seq<Sector>, fptr: nat, q: nat, w: nat)
    requires g.Valid() && |f| == g.nFatent && g.End() <= |d| && Clusters(g, ch) && q < |Sectors(g, ch)|
    requires fptr % SS == 0 && Away(g, f, ch, w)
    ensures var s := Sectors(g, ch)[q];
      && g.RootBase() <= s < |d| && s != w && s != 0
      && Buffered(g, f, ch, d, fptr, s, false, d[s])
  {
    SectorIsOurs(g, f, ch, q);
    AwayFromOurs(g, f, ch, w, Sectors(g, ch)[q]);
    SectorOwner(g, ch, q);
  }

  lemma BufShows(fp: File)
    requires fp.Core() && fp.dsect != 0
    ensures fp.dsect < |fp.View()| && fp.buf[..] == fp.View()[fp.dsect]
  {
  }

  lemma FitsEnd(g: Geometry, d: seq<Sector>)
    requires Fits(g, d)
    ensures g.Valid() && g.End() <= |d|
  {
  }

  lemma BufferedAdvance(g: Geometry, f: seq<nat>, ch: seq<nat>, d: seq<Sector>, fptr: nat, n: nat,
                        dsect: nat, dirty: bool, buf: seq<byte>)
    requires Buffered(g, f, ch, d, fptr, dsect, dirty, buf)
    requires fptr / SS < |Sectors(g, ch)| && dsect == Sectors(g, ch)[fptr / SS] && fptr % SS + n <= SS
    ensures Buffered(g, f, ch, d, fptr + n, dsect, dirty, buf)
  {
    if (fptr + n) % SS != 0 {
      assert (fptr + n) / SS == fptr / SS;
    }
  }

  lemma WholeIs(fp: File)
    requires fp.Core()
    ensures Clusters(fp.fs.geo, fp.chain) && OnDisk(fp.View(), Sectors(fp.fs.geo, fp.chain))
    ensures Distinct(Sectors(fp.fs.geo, fp.chain))
    ensures fp.Whole() == Bytes(fp.View(), Sectors(fp.fs.geo, fp.chain))
    ensures |fp.Whole()| == |Sectors(fp.fs.geo, fp.chain)| * SS == Span(|fp.chain|, fp.fs.geo.csize) * SS
  {
    ChainSectors(fp.fs.geo, fp.fat, fp.sclust, fp.chain, fp.View());
  }

  lemma HoldsAdvance(g: Geometry, ch: seq<nat>, p: nat, n: nat, clust: nat)
    requires g.Valid() && Holds(g, ch, p, clust) && n > 0
    requires p % SS + n <= SS
    ensures Holds(g, ch, p + n - 1, clust)
  {
    assert (p + n - 1) / SS == p / SS;
  }

  lemma SoundIntro(fp: File)
    requires fp.Core() && (fp.fptr > 0 ==> Holds(fp.fs.geo, fp.chain, fp.fptr - 1, fp.clust))
    ensures fp.Sound()
  {
  }

  lemma PositionedAt(g: Geometry, ch: seq<nat>, fptr: nat, size: nat, p: nat)
    requires Positioned(g, ch, fptr, size) && p <= Span(|ch|, g.csize) * SS && p < DWORDS
    ensures Positioned(g, ch, p, size)
  {
  }

  /** `fptr = p`, where the buffer suits the new position. */
  method MoveTo(fp: File, p: nat)
    requires fp.Core()
    requires Positioned(fp.fs.geo, fp.chain, p, fp.fsize)
    requires Buffered(fp.fs.geo, fp.fat, fp.chain, fp.log, p, fp.dsect, fp.dirty, fp.buf[..])
    modifies fp`fptr
    ensures fp.Core() && fp.fptr == p
    ensures fp.View() == old(fp.View()) && fp.Whole() == old(fp.Whole())
  {
    hide *;
    CoreFacts(fp);
    ViewIs(fp);
    WholeIs(fp);
    fp.fptr := p;
    CoreIntro(fp);
    ViewIs(fp);
    WholeIs(fp);
  }

  lemma SectorRoom(ofs: nat, j: nat, cc: nat, len: nat, data: Sector)
    requires ofs + cc * SS <= len && j < cc
    ensures j * SS >= 0 && ofs + j * SS + |data| <= len
  {
  }

  /** A run of file sectors: in the data area, on the disk, and not in the window. */
  lemma RunAway(g: Geometry, f: seq<nat>, ch: seq<nat>, q: nat, cc: nat, w: nat)
    requires g.Valid() && |f| == g.nFatent && Clusters(g, ch) && q < |Sectors(g, ch)|
    requires 0 < cc && Rem(q, g.csize) + cc <= g.csize && Away(g, f, ch, w)
    ensures var sect := Sectors(g, ch)[q];
      && g.RootBase() <= sect && sect + cc <= g.End() <= DWORDS && !(sect <= w < sect + cc)
      && q + cc <= |Sectors(g, ch)|
      && (forall j :: q <= j < q + cc ==> Sectors(g, ch)[j] == sect + (j - q))
  {
    Consecutive(g, ch, q, cc);
    SectorOwner(g, ch, q);
    SectorOwner(g, ch, q + cc - 1);
    var sect := Sectors(g, ch)[q];
    assert sect <= w < sect + cc ==> Sectors(g, ch)[q + (w - sect)] == w;
    forall j | q <= j < q + cc ensures Sectors(g, ch)[j] != w {
      SectorIsOurs(g, f, ch, j);
      AwayFromOurs(g, f, ch, w, Sectors(g, ch)[j]);
    }
  }

  /** Difference of two sector numbers in DWORD arithmetic. */
  function Minus(a: nat, b: nat): nat
    requires a < DWORDS && b < DWORDS
  {
    if a >= b then a - b else a + DWORDS - b
  }

  /** `dsect - sect < cc` holds just for a dsect in the run. */
  lemma MinusInRun(a: nat, b: nat, cc: nat)
    requires a < DWORDS && b + cc <= DWORDS && cc > 0
    ensures Minus(a, b) < cc <==> b <= a < b + cc
  {
  }

  lemma HoldsRun(g: Geometry, ch: seq<nat>, q: nat, cc: nat, p: nat, n: nat, clust: nat)
    requires g.Valid() && Holds(g, ch, p, clust) && WholeSectors(p, q, n, cc)
    requires Rem(q, g.csize) + cc <= g.csize
    ensures n > 0 && Holds(g, ch, p + n - 1, clust)
  {
    SameCluster(g, q, cc - 1);
    assert p / SS == q && (p + n - 1) / SS == q + cc - 1;
  }

  lemma BufferedAt(g: Geometry, f: seq<nat>, ch: seq<nat>, d: seq<Sector>, p: nat, q: nat, n: nat, cc: nat,
                   dsect: nat, dirty: bool, buf: seq<byte>)
    requires Buffered(g, f, ch, d, p, dsect, dirty, buf) && WholeSectors(p, q, n, cc)
    ensures Buffered(g, f, ch, d, p + n, dsect, dirty, buf)
  {
    assert (p + n) % SS == 0;
  }

  /** The cursor p is at file sector q, and n bytes are cc sectors. */
  ghost predicate WholeSectors(p: nat, q: nat, n: nat, cc: nat) {
    p == q * SS && n == cc * SS && cc > 0
  }

  lemma WholeSectorsFacts(p: nat, q: nat, n: nat, cc: nat)
    requires WholeSectors(p, q, n, cc)
    ensures p == q * SS && n == cc * SS && (q + cc) * SS == p + n && p + n > p
    ensures p % SS == 0 && p / SS == q && (p + n) % SS == 0
  {
  }

  lemma RunFits(q: nat, cc: nat, n: nat)
    requires q + cc <= n
    ensures q * SS + cc * SS <= n * SS
  {
  }

  ghost predicate AtSector(p: nat, q: nat) {
    p == q * SS
  }

  lemma AtSectorIntro(p: nat, q: nat)
    requires p % SS == 0 && q == p / SS
    ensures AtSector(p, q)
  {
  }

  lemma MidSector(fp: File)
    requires fp.Sound() && fp.fptr % SS != 0
    ensures Holds(fp.fs.geo, fp.chain, fp.fptr, fp.clust)
    ensures Clusters(fp.fs.geo, fp.chain) && fp.fptr / SS < |Sectors(fp.fs.geo, fp.chain)|
    ensures fp.dsect == Sectors(fp.fs.geo, fp.chain)[fp.fptr / SS] && fp.dsect != 0
  {
    assert (fp.fptr - 1) / SS == fp.fptr / SS;
    SectorOwner(fp.fs.geo, fp.chain, fp.fptr / SS);
  }

  lemma SectorNotZero(fp: File, q: nat)
    requires fp.Core() && Clusters(fp.fs.geo, fp.chain) && q < |Sectors(fp.fs.geo, fp.chain)|
    ensures Sectors(fp.fs.geo, fp.chain)[q] != 0
  {
    SectorOwner(fp.fs.geo, fp.chain, q);
  }

  lemma ValidFacts(fp: File)
    requires fp.Valid()
    ensures fp.dirty ==> fp.written
    ensures fp.Sound() && fp.Core() && fp.fptr <= fp.fsize <= |fp.Whole()|
    ensures fp.Contents() == fp.Whole()[..fp.fsize]
  {
  }

  lemma ValidIntro(fp: File)
    requires fp.Sound() && fp.fptr <= fp.fsize && (fp.dirty ==> fp.written)
    ensures fp.Valid()
  {
  }
}
