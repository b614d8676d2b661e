/** Directory tables: dir_sdi and dir_next over a static root or a cluster chain. */
module DirTable {
  import opened Layout
  import opened Bits
  import opened Window
  import opened FatAccess
  import opened Chains
  import opened Allocator
  import opened FileMap
  import opened FileSpec
  import opened FileGrow

  function SecOf(k: nat): nat { k / 16 }

  function OfsOf(k: nat): (o: nat)
    ensures o + SZ_DIR <= SS
  {
    k % 16 * SZ_DIR
  }

  /** First cluster of a directory, 0 for the static root. */
  function First(g: Geometry, sclust: nat): nat {
    if sclust == 0 && g.fsType == FAT32 then g.dirbase else sclust
  }

  /** ch are the clusters of the directory sclust, none for the static root. */
  ghost predicate IsTable(g: Geometry, f: seq<nat>, sclust: nat, ch: seq<nat>) {
    && g.Valid() && |f| == g.nFatent && Healthy(f)
    && ChainOf(f, First(g, sclust), ch)
  }

  /** The sectors of the table. */
  ghost function Home(g: Geometry, sclust: nat, ch: seq<nat>): seq<nat>
    requires Clusters(g, ch)
  {
    if First(g, sclust) == 0 then Run(g.dirbase, g.nRootdir / 16) else Sectors(g, ch)
  }

  /** Number of entries. */
  ghost function Capacity(g: Geometry, sclust: nat, ch: seq<nat>): nat
    requires Clusters(g, ch)
  {
    16 * |Home(g, sclust, ch)|
  }

  /** Cluster, sector and offset of entry k. */
  ghost predicate Located(g: Geometry, sclust: nat, ch: seq<nat>, k: nat, clust: nat, sect: nat, ofs: nat) {
    && g.Valid() && Clusters(g, ch) && k < Capacity(g, sclust, ch)
    && sect == Home(g, sclust, ch)[SecOf(k)] && ofs == OfsOf(k)
    && (if First(g, sclust) == 0 then clust == 0
        else Quot(SecOf(k), g.csize) < |ch| && clust == ch[Quot(SecOf(k), g.csize)])
  }

  class Directory {
    const fs: Volume
    const sclust: nat
    var index: nat
    var clust: nat
    var sect: nat
    var ofs: nat                 // where dir points to in the window
    ghost var chain: seq<nat>
    ghost var log: seq<Sector>

    constructor (v: Volume, start: nat, ghost ch: seq<nat>)
      requires v.Valid() && IsTable(v.geo, Fat(v.geo, v.Logical()), start, ch)
      ensures Table() && fs == v && sclust == start && chain == ch && log == v.Logical()
    {
      fs, sclust, index, clust, sect, ofs := v, start, 0, 0, 0, 0;
      chain, log := ch, v.Logical();
    }

    ghost predicate Table()
      reads this`chain, this`log, fs, fs.win
    {
      fs.Valid() && log == fs.Logical() && IsTable(fs.geo, Fat(fs.geo, log), sclust, chain)
    }

    /** The object points at entry k. */
    ghost predicate Points(k: nat)
      reads this`index, this`clust, this`sect, this`ofs, this`chain
    {
      index == k && k < 0x1_0000 && Located(fs.geo, sclust, chain, k, clust, sect, ofs)
    }
  }

  lemma TableFacts(dj: Directory)
    requires dj.Table()
    ensures dj.fs.Valid() && dj.log == dj.fs.Logical() && Fits(dj.fs.geo, dj.log) && dj.fs.geo.Valid()
    ensures |dj.log| == |dj.fs.disk| && dj.fs.win.Length == SS
    ensures IsTable(dj.fs.geo, Fat(dj.fs.geo, dj.log), dj.sclust, dj.chain) && Clusters(dj.fs.geo, dj.chain)
  {
  }

  lemma TableIntro(dj: Directory)
    requires dj.fs.Valid() && dj.log == dj.fs.Logical() && Fits(dj.fs.geo, dj.log)
    requires IsTable(dj.fs.geo, Fat(dj.fs.geo, dj.log), dj.sclust, dj.chain)
    ensures dj.Table()
  {
  }

  lemma PointsIntro(dj: Directory, k: nat)
    requires dj.index == k && k < 0x1_0000
    requires Located(dj.fs.geo, dj.sclust, dj.chain, k, dj.clust, dj.sect, dj.ofs)
    ensures dj.Points(k)
  {
  }

  lemma PointsFacts(dj: Directory, k: nat)
    requires dj.Points(k)
    ensures dj.index == k && k < 0x1_0000
    ensures Located(dj.fs.geo, dj.sclust, dj.chain, k, dj.clust, dj.sect, dj.ofs)
  {
  }

  lemma SecSplit(a: nat, i: nat, c: nat)
    ensures SecOf(16 * a + i) == a + SecOf(i) && OfsOf(16 * a + i) == OfsOf(i)
    ensures i < 16 * c ==> SecOf(i) < c
  {
    ModUnique(a + i / 16, i % 16, 16);
  }

  lemma SecBound(k: nat, n: nat)
    ensures SecOf(k) < n <==> k < 16 * n
  {
  }

  lemma TableValid(g: Geometry, f: seq<nat>, sclust: nat, ch: seq<nat>)
    requires IsTable(g, f, sclust, ch)
    ensures g.Valid() && Clusters(g, ch) && g.csize > 0
  {
  }

  /** Entry i of the j-th cluster. */
  lemma InCluster(g: Geometry, f: seq<nat>, sclust: nat, ch: seq<nat>, j: nat, i: nat)
    requires IsTable(g, f, sclust, ch) && First(g, sclust) != 0 && Clusters(g, ch) && j < |ch| && i < 16 * g.csize
    ensures g.Cluster(ch[j])
    ensures Located(g, sclust, ch, 16 * Span(j, g.csize) + i, ch[j], g.Base(ch[j]) + SecOf(i), OfsOf(i))
  {
    hide Sectors, Quot, SecOf, OfsOf, Located, IsTable;
    TableValid(g, f, sclust, ch);
    SecSplit(Span(j, g.csize), i, g.csize);
    SectorAt(g, ch, j, SecOf(i));
    QuotUnique(j, SecOf(i), g.csize);
    LocatedAt(g, f, sclust, ch, 16 * Span(j, g.csize) + i);
  }

  lemma InStatic(g: Geometry, f: seq<nat>, sclust: nat, ch: seq<nat>, k: nat)
    requires IsTable(g, f, sclust, ch) && First(g, sclust) == 0 && Clusters(g, ch)
    ensures k < g.nRootdir <==> k < Capacity(g, sclust, ch)
    ensures k < g.nRootdir ==> Located(g, sclust, ch, k, 0, g.dirbase + SecOf(k), OfsOf(k))
  {
  }

  lemma ChainCapacity(g: Geometry, f: seq<nat>, sclust: nat, ch: seq<nat>)
    requires IsTable(g, f, sclust, ch) && First(g, sclust) != 0 && Clusters(g, ch)
    ensures ch != [] && ch[0] == First(g, sclust) && Capacity(g, sclust, ch) == 16 * Span(|ch|, g.csize)
  {
  }

  lemma FollowChain(g: Geometry, f: seq<nat>, sclust: nat, ch: seq<nat>, j: nat)
    requires IsTable(g, f, sclust, ch) && First(g, sclust) != 0 && Clusters(g, ch) && j < |ch|
    ensures g.Cluster(ch[j]) && f[ch[j]] >= 2
    ensures j + 1 < |ch| ==> f[ch[j]] == ch[j + 1] < g.nFatent
    ensures j + 1 == |ch| ==> f[ch[j]] >= g.nFatent
  {
    if j + 1 < |ch| { Follower(f, ch, j); }
  }

  predicate BadStart(g: Geometry, sclust: nat) { sclust == 1 || sclust >= g.nFatent }

  lemma BadIs(g: Geometry, sclust: nat)
    ensures BadStart(g, sclust) <==> sclust == 1 || sclust >= g.nFatent
  {
  }

  lemma FirstIs(g: Geometry, sclust: nat)
    ensures First(g, sclust) == if sclust == 0 && g.fsType == FAT32 then g.dirbase else sclust
  {
  }

  lemma SpanZero(k: nat)
    ensures Span(0, k) == 0
  {
  }

  lemma SpanNext(j: nat, k: nat)
    ensures Span(j + 1, k) == Span(j, k) + k
  {
  }

  lemma CapacityHas(g: Geometry, sclust: nat, ch: seq<nat>, k: nat, clust: nat, sect: nat, ofs: nat)
    requires Located(g, sclust, ch, k, clust, sect, ofs)
    ensures Clusters(g, ch) && k < Capacity(g, sclust, ch)
  {
  }

  lemma ClusterWord(g: Geometry, c: nat)
    requires g.Valid() && g.Cluster(c)
    ensures c < DWORDS
  {
  }

  /** `SS / SZ_DIR * csize` */
  method EntriesPerCluster(g: Geometry) returns (ic: nat)
    requires g.Valid()
    ensures ic == 16 * g.csize > 0
  {
    ic := SS / SZ_DIR * g.csize;
  }

  /** dir_sdi: the object points at entry idx, if there is one. */
  method Sdi(dj: Directory, idx: nat) returns (res: FResult)
    requires dj.fs.Valid() && (BadStart(dj.fs.geo, dj.sclust) || dj.Table()) && idx < 0x1_0000
    modifies dj`index, dj`clust, dj`sect, dj`ofs, dj.fs`disk, dj.fs`winsect, dj.fs`wflag, dj.fs.win
    ensures dj.fs.Valid() && dj.fs.Logical() == old(dj.fs.Logical())
    ensures BadStart(dj.fs.geo, dj.sclust) ==> res == FR_INT_ERR
    ensures !BadStart(dj.fs.geo, dj.sclust) ==> dj.Table() && Clusters(dj.fs.geo, dj.chain)
    ensures !BadStart(dj.fs.geo, dj.sclust) ==> res == if idx < Capacity(dj.fs.geo, dj.sclust, dj.chain) then FR_OK else FR_INT_ERR
    ensures res == FR_OK ==> dj.Points(idx)
  {
    hide *;
    dj.index := idx;
    var clst := dj.sclust;
    BadIs(dj.fs.geo, dj.sclust);
    if clst == 1 || clst >= dj.fs.geo.nFatent { return FR_INT_ERR; }
    TableFacts(dj);
    ghost var g, f := dj.fs.geo, Fat(dj.fs.geo, dj.log);
    FirstIs(g, dj.sclust);
    if clst == 0 && dj.fs.geo.fsType == FAT32 { clst := dj.fs.geo.dirbase; }
    var i := idx;
    if clst == 0 {
      dj.clust := 0;
      InStatic(g, f, dj.sclust, dj.chain, idx);
      if idx >= dj.fs.geo.nRootdir { return FR_INT_ERR; }
      dj.sect := dj.fs.geo.dirbase + SecOf(idx);
    } else {
      ChainCapacity(g, f, dj.sclust, dj.chain);
      var ic := EntriesPerCluster(dj.fs.geo);
      ghost var j := 0;
      SpanZero(g.csize);
      while i >= ic
        invariant 0 <= i && j < |dj.chain| && clst == dj.chain[j] && idx == 16 * Span(j, g.csize) + i
        invariant dj.fs.Valid() && dj.Table() && dj.fs.Logical() == dj.log && dj.index == idx
        decreases i
      {
        FollowChain(g, f, dj.sclust, dj.chain, j);
        TableFacts(dj);
        SpanNext(j, g.csize);
        clst := GetFat(dj.fs, clst);
        VolumeFits(dj.fs);
        TableIntro(dj);
        if clst < 2 || clst >= dj.fs.geo.nFatent { return FR_INT_ERR; }
        i := i - ic;
        j := j + 1;
      }
      InCluster(g, f, dj.sclust, dj.chain, j, i);
      dj.clust := clst;
      CapacityHas(g, dj.sclust, dj.chain, idx, clst, g.Base(clst) + SecOf(i), OfsOf(i));
      ClusterWord(g, clst);
      var s := Clust2Sect(dj.fs.geo, clst);
      dj.sect := s + SecOf(i);
    }
    dj.ofs := OfsOf(i);
    PointsIntro(dj, idx);
    res := FR_OK;
  }

  predicate Boundary(i: nat) { i % 16 == 0 }

  /** Stepping to the next entry, in the terms in which dir_next does it. */
  lemma NextInSector(g: Geometry, sclust: nat, ch: seq<nat>, k: nat, clust: nat, sect: nat, ofs: nat)
    requires Located(g, sclust, ch, k, clust, sect, ofs) && !Boundary(k + 1)
    ensures Located(g, sclust, ch, k + 1, clust, sect, OfsOf(k + 1))
  {
    assert SecOf(k + 1) == SecOf(k);
    SecBound(k, |Home(g, sclust, ch)|);
    SecBound(k + 1, |Home(g, sclust, ch)|);
  }

  lemma NextStatic(g: Geometry, f: seq<nat>, sclust: nat, ch: seq<nat>, k: nat, clust: nat, sect: nat, ofs: nat)
    requires IsTable(g, f, sclust, ch) && First(g, sclust) == 0
    requires Located(g, sclust, ch, k, clust, sect, ofs) && Boundary(k + 1)
    ensures clust == 0 && (k + 1 >= g.nRootdir <==> k + 1 == Capacity(g, sclust, ch))
    ensures k + 1 < g.nRootdir ==> Located(g, sclust, ch, k + 1, clust, sect + 1, OfsOf(k + 1))
  {
    assert SecOf(k + 1) == SecOf(k) + 1;
    InStatic(g, f, sclust, ch, k);
    InStatic(g, f, sclust, ch, k + 1);
  }

  /** At the start of a sector of a chained table: where in the chain, and what follows. */
  lemma ChainStep(g: Geometry, f: seq<nat>, sclust: nat, ch: seq<nat>, k: nat, clust: nat, sect: nat, ofs: nat)
    requires IsTable(g, f, sclust, ch) && First(g, sclust) != 0
    requires Located(g, sclust, ch, k, clust, sect, ofs) && Boundary(k + 1)
    ensures g.Valid() && Clusters(g, ch) && SecOf(k + 1) == SecOf(k) + 1 && SecOf(k) < |Sectors(g, ch)|
    ensures Capacity(g, sclust, ch) == 16 * |Sectors(g, ch)| && |Sectors(g, ch)| == Span(|ch|, g.csize)
    ensures k < Capacity(g, sclust, ch)
    ensures k + 1 < Capacity(g, sclust, ch) <==> SecOf(k) + 1 < |Sectors(g, ch)|
    ensures sect == Sectors(g, ch)[SecOf(k)] && Quot(SecOf(k), g.csize) < |ch| && clust == ch[Quot(SecOf(k), g.csize)]
  {
    SecBound(k, |Sectors(g, ch)|);
    SecBound(k + 1, |Sectors(g, ch)|);
  }

  lemma LocatedAt(g: Geometry, f: seq<nat>, sclust: nat, ch: seq<nat>, k: nat)
    requires IsTable(g, f, sclust, ch) && First(g, sclust) != 0 && Clusters(g, ch) && SecOf(k) < |Sectors(g, ch)|
    ensures Quot(SecOf(k), g.csize) < |ch|
    ensures Located(g, sclust, ch, k, ch[Quot(SecOf(k), g.csize)], Sectors(g, ch)[SecOf(k)], OfsOf(k))
  {
    SecBound(k, |Sectors(g, ch)|);
    SectorOf(g, ch, SecOf(k));
  }

  lemma NextInChain(g: Geometry, f: seq<nat>, sclust: nat, ch: seq<nat>, k: nat, clust: nat, sect: nat, ofs: nat)
    requires IsTable(g, f, sclust, ch) && First(g, sclust) != 0
    requires Located(g, sclust, ch, k, clust, sect, ofs) && Boundary(k + 1)
    ensures |f| == g.nFatent && g.csize > 0 && g.Cluster(clust) && clust != 0 && k + 1 <= Capacity(g, sclust, ch)
    ensures Rem(SecOf(k + 1), g.csize) != 0 ==> Located(g, sclust, ch, k + 1, clust, sect + 1, OfsOf(k + 1))
    ensures Rem(SecOf(k + 1), g.csize) == 0 && k + 1 < Capacity(g, sclust, ch) ==>
      g.Cluster(f[clust]) && Located(g, sclust, ch, k + 1, f[clust], g.Base(f[clust]), OfsOf(k + 1))
    ensures k + 1 == Capacity(g, sclust, ch) ==>
      Rem(SecOf(k + 1), g.csize) == 0 && f[clust] >= g.nFatent && |ch| > 0 && clust == ch[|ch| - 1]
  {
    hide Sectors, Quot, Rem, SecOf, OfsOf, Located, Capacity, IsTable;
    TableValid(g, f, sclust, ch);
    ChainStep(g, f, sclust, ch, k, clust, sect, ofs);
    var q := SecOf(k);
    NextSector(g, q + 1);
    SectorOf(g, ch, q);
    FollowChain(g, f, sclust, ch, Quot(q, g.csize));
    ClusterCount(g, q, |ch|);
    ClusterCount(g, q + 1, |ch|);
    if q + 1 < |Sectors(g, ch)| {
      SectorOf(g, ch, q + 1);
      LocatedAt(g, f, sclust, ch, k + 1);
    }
    TableLength(g, f, sclust, ch);
  }

  lemma TableLength(g: Geometry, f: seq<nat>, sclust: nat, ch: seq<nat>)
    requires IsTable(g, f, sclust, ch)
    ensures |f| == g.nFatent
  {
  }

  function Cleared1(d: seq<Sector>, b: nat, n: nat, s: nat): Sector
    requires s < |d|
  {
    if b <= s < b + n then ZeroSector() else d[s]
  }

  /** d with n sectors from b on cleared. */
  ghost function Zeroed(d: seq<Sector>, b: nat, n: nat): (e: seq<Sector>)
    ensures |e| == |d| && forall s :: 0 <= s < |d| ==> e[s] == if b <= s < b + n then ZeroSector() else d[s]
  {
    seq(|d|, s requires 0 <= s < |d| => Cleared1(d, b, n, s))
  }

  lemma ZeroedStep(d: seq<Sector>, b: nat, n: nat)
    requires b + n < |d|
    ensures Zeroed(d, b, n)[b + n := ZeroSector()] == Zeroed(d, b, n + 1) && Zeroed(d, b, 0) == d
  {
  }

  /** Write the window to its sector, which lies in the data area. */
  method FlushAt(fs: Volume)
    requires fs.geo.Valid() && fs.win.Length == SS && fs.geo.End() <= |fs.disk| && !fs.wflag
    requires fs.geo.database <= fs.winsect < |fs.disk| && fs.lastClust < DWORDS && fs.freeClust < DWORDS
    modifies fs`disk, fs`wflag, fs`winsect, fs.win
    ensures !fs.wflag && fs.winsect == old(fs.winsect) && fs.win[..] == old(fs.win[..])
    ensures fs.disk == old(fs.disk)[fs.winsect := fs.win[..]]
  {
    fs.wflag := true;
    MoveWindow(fs, 0);
  }

  /** The clean-up of a new directory cluster: one zeroed window written to each of its sectors, with winsect moved by
      hand. Afterwards the window again shows the sector it claims to show. */
  method ZeroCluster(fs: Volume, clst: nat)
    requires fs.Valid() && fs.geo.Cluster(clst)
    modifies fs`disk, fs`winsect, fs`wflag, fs.win
    ensures fs.Valid() && !fs.wflag && fs.winsect == fs.geo.Base(clst)
    ensures fs.Logical() == Zeroed(old(fs.Logical()), fs.geo.Base(clst), fs.geo.csize)
  {
    hide ZeroSector;
    ghost var g, b := fs.geo, fs.geo.Base(clst);
    BaseInside(g, clst);
    MoveWindow(fs, 0);
    ghost var d := fs.disk;
    ClearWindow(fs.win);
    ClusterWord(g, clst);
    fs.winsect := Clust2Sect(fs.geo, clst);
    ZeroedStep(d, b, 0);
    var c := 0;
    while c < fs.geo.csize
      invariant 0 <= c <= g.csize && fs.winsect == b + c && !fs.wflag && fs.win[..] == ZeroSector()
      invariant fs.disk == Zeroed(d, b, c)
    {
      FlushAt(fs);
      ZeroedStep(d, b, c);
      fs.winsect := fs.winsect + 1;
      c := c + 1;
    }
    fs.winsect := fs.winsect - c;
  }

  /** The data area after cluster r was taken and cleared. */
  ghost predicate Cleaned(g: Geometry, d: seq<Sector>, e: seq<Sector>, r: nat) {
    && |e| == |d| && g.Cluster(r)
    && forall s :: 0 <= s < |d| && g.Elsewhere(s) ==> e[s] == if g.InCluster(r, s) then ZeroSector() else d[s]
  }

  lemma CleanedIntro(g: Geometry, d: seq<Sector>, m: seq<Sector>, e: seq<Sector>, r: nat)
    requires OnlyFat(g, d, m) && g.Cluster(r) && e == Zeroed(m, g.Base(r), g.csize) && g.Valid()
    ensures Cleaned(g, d, e, r) && Fits(g, m) && Fits(g, e) && Fat(g, e) == Fat(g, m)
  {
    BaseInside(g, r);
    FatElsewhere(g, m, e);
  }

  /** Stretch the table by one cleared cluster. */
  method StretchTable(dj: Directory) returns (clst: nat)
    requires dj.Table() && First(dj.fs.geo, dj.sclust) != 0 && |dj.chain| > 0 && dj.clust == dj.chain[|dj.chain| - 1]
    modifies dj`chain, dj`log, dj.fs`disk, dj.fs`winsect, dj.fs`wflag, dj.fs`fsiFlag, dj.fs`lastClust, dj.fs`freeClust, dj.fs.win
    ensures dj.Table()
    ensures clst == 0 ==> dj.chain == old(dj.chain) && dj.log == old(dj.log) && Free(Fat(dj.fs.geo, dj.log)) == 0
    ensures clst != 0 ==> dj.chain == old(dj.chain) + [clst] && Cleaned(dj.fs.geo, old(dj.log), dj.log, clst)
    ensures clst != 0 ==> Grown(dj.fs.geo, Fat(dj.fs.geo, old(dj.log)), Fat(dj.fs.geo, dj.log), old(dj.chain), clst, First(dj.fs.geo, dj.sclust))
  {
    hide *;
    TableFacts(dj);
    ghost var g, f, d, ch := dj.fs.geo, Fat(dj.fs.geo, dj.log), dj.log, dj.chain;
    ghost var first := First(g, dj.sclust);
    TableChain(g, f, dj.sclust, ch);
    ClusterWord(g, dj.clust);
    ghost var scl := SearchStart(g, dj.fs.lastClust, dj.clust);
    clst := CreateChain(dj.fs, dj.clust);
    VolumeFits(dj.fs);
    ghost var m := dj.fs.Logical();
    CreatedAtEnd(g, f, Fat(g, m), first, ch, dj.clust, scl, clst);
    if clst == 0 {
      TableIntro(dj);
      return;
    }
    if clst == 1 { assert false; }  // FR_INT_ERR
    GrownFacts(g, f, Fat(g, m), ch, clst, first);
    ZeroCluster(dj.fs, clst);
    VolumeFits(dj.fs);
    CleanedIntro(g, d, m, dj.fs.Logical(), clst);
    dj.log := dj.fs.Logical();
    dj.chain := ch + [clst];
    GrownTable(g, f, Fat(g, m), dj.sclust, ch, clst);
    TableIntro(dj);
  }

  lemma TableChain(g: Geometry, f: seq<nat>, sclust: nat, ch: seq<nat>)
    requires IsTable(g, f, sclust, ch) && First(g, sclust) != 0 && |ch| > 0
    ensures g.Valid() && |f| == g.nFatent && ChainOf(f, First(g, sclust), ch) && Healthy(f) && g.Cluster(ch[|ch| - 1])
  {
  }

  lemma GrownTable(g: Geometry, f: seq<nat>, f': seq<nat>, sclust: nat, ch: seq<nat>, r: nat)
    requires IsTable(g, f, sclust, ch) && Grown(g, f, f', ch, r, First(g, sclust))
    ensures IsTable(g, f', sclust, ch + [r])
  {
  }

  /** The entry behind the old end of a table that grew. */
  lemma FirstNew(g: Geometry, f: seq<nat>, f': seq<nat>, sclust: nat, ch: seq<nat>, r: nat)
    requires IsTable(g, f, sclust, ch) && Grown(g, f, f', ch, r, First(g, sclust)) && First(g, sclust) != 0 && Clusters(g, ch)
    ensures g.Cluster(r) && Located(g, sclust, ch + [r], Capacity(g, sclust, ch), r, g.Base(r), OfsOf(Capacity(g, sclust, ch)))
  {
    GrownTable(g, f, f', sclust, ch, r);
    ChainCapacity(g, f, sclust, ch);
    TableValid(g, f', sclust, ch + [r]);
    InCluster(g, f', sclust, ch + [r], |ch|, 0);
    SecSplit(Span(|ch|, g.csize), 0, 1);
  }

  method AtBoundary(i: nat) returns (b: bool)
    ensures b == Boundary(i)
  {
    b := i % (SS / SZ_DIR) == 0;
  }

  /** dir_next: on to entry index + 1. At the end of the table a chained one is stretched on request; indices stop
      at 65535. */
  method Next(dj: Directory, stretch: bool) returns (res: FResult)
    requires dj.Table() && dj.Points(dj.index)
    modifies dj`index, dj`clust, dj`sect, dj`ofs, dj`chain, dj`log
    modifies dj.fs`disk, dj.fs`winsect, dj.fs`wflag, dj.fs`fsiFlag, dj.fs`lastClust, dj.fs`freeClust, dj.fs.win
    ensures dj.Table() && Clusters(dj.fs.geo, old(dj.chain)) && old(dj.index) < Capacity(dj.fs.geo, dj.sclust, old(dj.chain))
    ensures res == FR_OK ==> dj.Points(old(dj.index) + 1)
    ensures res == FR_OK || res == FR_NO_FILE || res == FR_DENIED
    ensures old(dj.index) + 1 < Capacity(dj.fs.geo, dj.sclust, old(dj.chain)) ==> res == if old(dj.index) + 1 == 0x1_0000 then FR_NO_FILE else FR_OK
    ensures old(dj.index) + 1 == Capacity(dj.fs.geo, dj.sclust, old(dj.chain)) ==>
      (res == FR_NO_FILE <==> old(dj.index) + 1 == 0x1_0000 || First(dj.fs.geo, dj.sclust) == 0 || !stretch)
    ensures res == FR_DENIED ==> Free(Fat(dj.fs.geo, dj.log)) == 0
    ensures res != FR_OK || old(dj.index) + 1 < Capacity(dj.fs.geo, dj.sclust, old(dj.chain)) ==>
      dj.chain == old(dj.chain) && dj.log == old(dj.log)
    ensures res == FR_OK && old(dj.index) + 1 == Capacity(dj.fs.geo, dj.sclust, old(dj.chain)) ==>
      && dj.chain == old(dj.chain) + [dj.clust] && Cleaned(dj.fs.geo, old(dj.log), dj.log, dj.clust)
      && Grown(dj.fs.geo, Fat(dj.fs.geo, old(dj.log)), Fat(dj.fs.geo, dj.log), old(dj.chain), dj.clust, First(dj.fs.geo, dj.sclust))
  {
    hide *;
    TableFacts(dj);
    PointsFacts(dj, dj.index);
    ghost var g, f, d, ch, k := dj.fs.geo, Fat(dj.fs.geo, dj.log), dj.log, dj.chain, dj.index;
    CapacityHas(g, dj.sclust, ch, k, dj.clust, dj.sect, dj.ofs);
    var i := (dj.index + 1) % 0x1_0000;
    LocatedFacts(g, f, dj.sclust, ch, k, dj.clust, dj.sect, dj.ofs);
    if i == 0 || dj.sect == 0 { return FR_NO_FILE; }
    var edge := AtBoundary(i);
    if edge {
      res := NextInTable(dj, i, stretch);
      if res != FR_OK { return; }
    } else {
      NextInSector(g, dj.sclust, ch, k, dj.clust, dj.sect, dj.ofs);
      CapacityHas(g, dj.sclust, ch, k + 1, dj.clust, dj.sect, OfsOf(k + 1));
    }
    dj.index := i;
    dj.ofs := OfsOf(i);
    PointsIntro(dj, i);
    res := FR_OK;
  }

  lemma LocatedFacts(g: Geometry, f: seq<nat>, sclust: nat, ch: seq<nat>, k: nat, clust: nat, sect: nat, ofs: nat)
    requires IsTable(g, f, sclust, ch) && Located(g, sclust, ch, k, clust, sect, ofs)
    ensures sect > 0 && (clust == 0 <==> First(g, sclust) == 0)
  {
    if First(g, sclust) != 0 {
      SecBound(k, |Sectors(g, ch)|);
      SectorOwner(g, ch, SecOf(k));
    }
  }

  /** dir_next at a sector boundary. */
  method NextInTable(dj: Directory, i: nat, stretch: bool) returns (res: FResult)
    requires dj.Table() && dj.Points(dj.index) && i == dj.index + 1 && Boundary(i)
    modifies dj`clust, dj`sect, dj`chain, dj`log
    modifies dj.fs`disk, dj.fs`winsect, dj.fs`wflag, dj.fs`fsiFlag, dj.fs`lastClust, dj.fs`freeClust, dj.fs.win
    ensures dj.Table() && Clusters(dj.fs.geo, old(dj.chain))
    ensures res == FR_OK ==> Located(dj.fs.geo, dj.sclust, dj.chain, i, dj.clust, dj.sect, OfsOf(i))
    ensures res == FR_OK || res == FR_NO_FILE || res == FR_DENIED
    ensures i < Capacity(dj.fs.geo, dj.sclust, old(dj.chain)) ==> res == FR_OK
    ensures i == Capacity(dj.fs.geo, dj.sclust, old(dj.chain)) ==> (res == FR_NO_FILE <==> First(dj.fs.geo, dj.sclust) == 0 || !stretch)
    ensures res == FR_DENIED ==> Free(Fat(dj.fs.geo, dj.log)) == 0
    ensures res != FR_OK || i < Capacity(dj.fs.geo, dj.sclust, old(dj.chain)) ==>
      dj.chain == old(dj.chain) && dj.log == old(dj.log)
    ensures res == FR_OK && i == Capacity(dj.fs.geo, dj.sclust, old(dj.chain)) ==>
      && dj.chain == old(dj.chain) + [dj.clust] && Cleaned(dj.fs.geo, old(dj.log), dj.log, dj.clust)
      && Grown(dj.fs.geo, Fat(dj.fs.geo, old(dj.log)), Fat(dj.fs.geo, dj.log), old(dj.chain), dj.clust, First(dj.fs.geo, dj.sclust))
  {
    hide *;
    TableFacts(dj);
    PointsFacts(dj, dj.index);
    ghost var g, f, ch, k := dj.fs.geo, Fat(dj.fs.geo, dj.log), dj.chain, dj.index;
    CapacityHas(g, dj.sclust, ch, k, dj.clust, dj.sect, dj.ofs);
    LocatedFacts(g, f, dj.sclust, ch, k, dj.clust, dj.sect, dj.ofs);
    ghost var sect := dj.sect;
    dj.sect := dj.sect + 1;
    res := FR_OK;
    if dj.clust == 0 {
      NextStatic(g, f, dj.sclust, ch, k, dj.clust, sect, dj.ofs);
      if i >= dj.fs.geo.nRootdir { return FR_NO_FILE; }
      CapacityHas(g, dj.sclust, ch, i, dj.clust, dj.sect, OfsOf(i));
    } else {
      NextInChain(g, f, dj.sclust, ch, k, dj.clust, sect, dj.ofs);
      var csect := SectorInCluster(dj.fs.geo, SecOf(i));
      if csect == 0 {
        res := NextCluster(dj, i, stretch, sect);
      } else {
        CapacityHas(g, dj.sclust, ch, i, dj.clust, dj.sect, OfsOf(i));
      }
    }
  }

  /** dir_next at a cluster boundary. */
  method NextCluster(dj: Directory, i: nat, stretch: bool, ghost sect: nat) returns (res: FResult)
    requires dj.Table() && i > 0 && Boundary(i) && First(dj.fs.geo, dj.sclust) != 0
    requires Located(dj.fs.geo, dj.sclust, dj.chain, i - 1, dj.clust, sect, dj.ofs)
    requires dj.fs.geo.csize > 0 && Rem(SecOf(i), dj.fs.geo.csize) == 0
    modifies dj`clust, dj`sect, dj`chain, dj`log
    modifies dj.fs`disk, dj.fs`winsect, dj.fs`wflag, dj.fs`fsiFlag, dj.fs`lastClust, dj.fs`freeClust, dj.fs.win
    ensures dj.Table() && Clusters(dj.fs.geo, old(dj.chain))
    ensures res == FR_OK ==> Located(dj.fs.geo, dj.sclust, dj.chain, i, dj.clust, dj.sect, OfsOf(i))
    ensures res == FR_OK || res == FR_NO_FILE || res == FR_DENIED
    ensures i < Capacity(dj.fs.geo, dj.sclust, old(dj.chain)) ==> res == FR_OK
    ensures i == Capacity(dj.fs.geo, dj.sclust, old(dj.chain)) ==> (res == FR_NO_FILE <==> !stretch)
    ensures res == FR_DENIED ==> Free(Fat(dj.fs.geo, dj.log)) == 0
    ensures res != FR_OK || i < Capacity(dj.fs.geo, dj.sclust, old(dj.chain)) ==>
      dj.chain == old(dj.chain) && dj.log == old(dj.log)
    ensures res == FR_OK && i == Capacity(dj.fs.geo, dj.sclust, old(dj.chain)) ==>
      && dj.chain == old(dj.chain) + [dj.clust] && Cleaned(dj.fs.geo, old(dj.log), dj.log, dj.clust)
      && Grown(dj.fs.geo, Fat(dj.fs.geo, old(dj.log)), Fat(dj.fs.geo, dj.log), old(dj.chain), dj.clust, First(dj.fs.geo, dj.sclust))
  {
    hide *;
    TableFacts(dj);
    ghost var g, f, ch := dj.fs.geo, Fat(dj.fs.geo, dj.log), dj.chain;
    NextInChain(g, f, dj.sclust, ch, i - 1, dj.clust, sect, dj.ofs);
    var clst := GetFat(dj.fs, dj.clust);
    VolumeFits(dj.fs);
    TableIntro(dj);
    if i < Capacity(g, dj.sclust, ch) { ClusterWord(g, clst); ClusterIs(g, clst); }
    if clst <= 1 { assert false; }  // FR_INT_ERR
    res := FR_OK;
    if clst >= dj.fs.geo.nFatent {
      if !stretch { return FR_NO_FILE; }
      clst := StretchTable(dj);
      if clst == 0 { return FR_DENIED; }
      TableFacts(dj);
      FirstNew(g, f, Fat(g, dj.log), dj.sclust, ch, clst);
    }
    ClusterWord(g, clst);
    dj.clust := clst;
    dj.sect := Clust2Sect(dj.fs.geo, clst);
  }

  lemma ClusterIs(g: Geometry, c: nat)
    requires g.Cluster(c)
    ensures 2 <= c < g.nFatent
  {
  }

  /** An entry has one place. */
  lemma LocatedOnce(g: Geometry, sclust: nat, ch: seq<nat>, k: nat, clust: nat, sect: nat, ofs: nat, clust': nat, sect': nat, ofs': nat)
    requires Located(g, sclust, ch, k, clust, sect, ofs) && Located(g, sclust, ch, k, clust', sect', ofs')
    ensures clust == clust' && sect == sect' && ofs == ofs'
  {
  }

  /** k steps of dir_next from entry 0 lead where dir_sdi(k) leads. */
  method WalkTo(dj: Directory, ej: Directory, k: nat)
    requires dj.Table() && ej.fs == dj.fs && ej.sclust == dj.sclust && ej.chain == dj.chain && ej != dj
    requires ej.Points(k) && !BadStart(dj.fs.geo, dj.sclust)
    modifies dj`index, dj`clust, dj`sect, dj`ofs, dj`chain, dj`log
    modifies dj.fs`disk, dj.fs`winsect, dj.fs`wflag, dj.fs`fsiFlag, dj.fs`lastClust, dj.fs`freeClust, dj.fs.win
    ensures dj.Points(k) && dj.clust == ej.clust && dj.sect == ej.sect && dj.ofs == ej.ofs && dj.index == ej.index
  {
    hide *;
    TableFacts(dj);
    PointsFacts(ej, k);
    ghost var g, ch := dj.fs.geo, dj.chain;
    CapacityHas(g, dj.sclust, ch, k, ej.clust, ej.sect, ej.ofs);
    var res := Sdi(dj, 0);
    var i := 0;
    while i < k
      invariant 0 <= i <= k && dj.Table() && dj.Points(i) && dj.chain == ch
    {
      PointsFacts(dj, i);
      res := Next(dj, false);
      i := i + 1;
    }
    PointsFacts(dj, k);
    LocatedOnce(g, dj.sclust, ch, k, dj.clust, dj.sect, dj.ofs, ej.clust, ej.sect, ej.ofs);
  }
}
