/** f_write. */
module FileWrite {
  import opened Layout
  import opened Window
  import opened FatAccess
  import opened Chains
  import opened FileMap
  import opened FileSpec
  import opened OpenFile
  import opened FileGrow

  /** k is the cluster index of the byte before the cursor, which is at a sector boundary. */
  ghost predicate Behind(g: Geometry, ch: seq<nat>, fptr: nat, clust: nat, k: nat) {
    && g.csize > 0 && fptr > 0 && fptr % SS == 0
    && k < |ch| && ch[k] == clust && clust != 0
    && Quot(fptr / SS, g.csize) == (if Rem(fptr / SS, g.csize) == 0 then k + 1 else k)
  }

  lemma BehindCursor(g: Geometry, f: seq<nat>, sclust: nat, ch: seq<nat>, fptr: nat, clust: nat) returns (k: nat)
    requires g.Valid() && |f| == g.nFatent && ChainOf(f, sclust, ch) && fptr > 0 && fptr % SS == 0
    requires Holds(g, ch, fptr - 1, clust)
    ensures Behind(g, ch, fptr, clust, k) && From(ch, clust, k)
    ensures Rem(fptr / SS, g.csize) != 0 ==> Holds(g, ch, fptr, clust)
  {
    k := Quot((fptr - 1) / SS, g.csize);
    assert (fptr - 1) / SS == fptr / SS - 1;
    NextSector(g, fptr / SS);
  }

  /** A cluster was there or could be added: it holds the byte at the cursor. */
  lemma HoldsGrown(g: Geometry, ch: seq<nat>, ch': seq<nat>, fptr: nat, clust: nat, k: nat, r: nat)
    requires g.Valid() && Behind(g, ch, fptr, clust, k) && Rem(fptr / SS, g.csize) == 0
    requires GrownBy(ch, ch', clust, k, r)
    ensures r != 0 ==> Holds(g, ch', fptr, r)
    ensures r == 0 ==> ch' == ch && (k + 1 < |ch| || fptr == Span(|ch|, g.csize) * SS)
    ensures k + 1 < |ch| ==> r == ch[k + 1]
  {
    if r == 0 {
      QuotRem(fptr / SS, g.csize);
    }
  }

  lemma HoldsFirst(g: Geometry, ch: seq<nat>, ch': seq<nat>, r: nat)
    requires g.Valid() && ch == [] && GrownBy(ch, ch', 0, 0, r)
    ensures r != 0 ==> Holds(g, ch', 0, r)
    ensures r == 0 ==> ch' == ch
  {
  }

  lemma HoldsStart(g: Geometry, f: seq<nat>, sclust: nat, ch: seq<nat>)
    requires g.Valid() && ChainOf(f, sclust, ch) && sclust != 0
    ensures Holds(g, ch, 0, sclust)
  {
  }

  /** A cluster that holds the byte at the cursor gives room for at least a sector there. */
  lemma HoldsRoom(g: Geometry, ch: seq<nat>, fptr: nat, clust: nat)
    requires g.Valid() && fptr % SS == 0 && Holds(g, ch, fptr, clust)
    ensures fptr < Span(|ch|, g.csize) * SS
  {
    ClusterCount(g, fptr / SS, |ch|);
  }

  lemma PrefixRefl<T>(a: seq<T>)
    ensures a <= a
  {
  }

  /** f_write at a cluster boundary: follow or stretch the chain, or start one. */
  method EnterCluster(fp: File) returns (clst: nat)
    requires fp.Sound() && fp.fptr % SS == 0 && fp.fs.geo.csize > 0 && Rem(fp.fptr / SS, fp.fs.geo.csize) == 0
    modifies fp`sclust, fp`chain, fp`fat, fp`log
    modifies fp.fs`disk, fp.fs`winsect, fp.fs`wflag, fp.fs`fsiFlag, fp.fs`lastClust, fp.fs`freeClust, fp.fs.win
    ensures fp.Core() && SameData(fp.fs.geo, old(fp.View()), fp.View()) && old(fp.Whole()) <= fp.Whole()
    ensures Stretched(old(fp.fat), old(fp.chain), fp.fat, fp.chain)
    ensures clst != 0 ==> Holds(fp.fs.geo, fp.chain, fp.fptr, clst)
    ensures clst == 0 ==> fp.chain == old(fp.chain) && fp.Whole() == old(fp.Whole()) && Free(fp.fat) == 0 && fp.fptr == |fp.Whole()|
  {
    hide *;
    SoundFacts(fp);
    CoreFacts(fp);
    WholeIs(fp);
    ghost var g, ch := fp.fs.geo, fp.chain;
    NoClusters(g, ch);
    if fp.fptr == 0 {
      clst := fp.sclust;
      if clst == 0 {
        SclustZero(fp.fat, fp.sclust, ch);
        FromNothing(ch);
        clst := Grow(fp, 0, 0);
        HoldsFirst(g, ch, fp.chain, clst);
      } else {
        HoldsStart(g, fp.fat, fp.sclust, ch);
        SameDataRefl(g, fp.View());
        PrefixRefl(fp.Whole());
        StretchedRefl(fp.fat, ch);
      }
    } else {
      ghost var f, sclust := fp.fat, fp.sclust;
      ghost var k := BehindCursor(g, f, sclust, ch, fp.fptr, fp.clust);
      clst := Grow(fp, fp.clust, k);
      HoldsGrown(g, ch, fp.chain, fp.fptr, fp.clust, k, clst);
      if k + 1 < |ch| { InsideRange(g, f, sclust, ch, k + 1); }
    }
  }

  lemma NoClusters(g: Geometry, ch: seq<nat>)
    ensures ch == [] ==> Span(|ch|, g.csize) * SS == 0
  {
  }

  /** f_write, top of the loop: the cluster for the byte at the cursor, if there is one. */
  method WriteCluster(fp: File) returns (full: bool, csect: nat)
    requires fp.Sound() && fp.fptr % SS == 0
    modifies fp`clust, fp`sclust, fp`chain, fp`fat, fp`log
    modifies fp.fs`disk, fp.fs`winsect, fp.fs`wflag, fp.fs`fsiFlag, fp.fs`lastClust, fp.fs`freeClust, fp.fs.win
    ensures fp.Core() && SameData(fp.fs.geo, old(fp.View()), fp.View()) && old(fp.Whole()) <= fp.Whole()
    ensures Stretched(old(fp.fat), old(fp.chain), fp.fat, fp.chain)
    ensures !full ==> Holds(fp.fs.geo, fp.chain, fp.fptr, fp.clust)
    ensures fp.fs.geo.csize > 0 && csect == Rem(fp.fptr / SS, fp.fs.geo.csize)
    ensures full ==> fp.Sound() && fp.Whole() == old(fp.Whole()) && Free(fp.fat) == 0 && fp.fptr == |fp.Whole()|
  {
    hide *;
    SoundFacts(fp);
    CoreFacts(fp);
    csect := SectorInCluster(fp.fs.geo, fp.fptr / SS);
    full := false;
    ghost var g, ch := fp.fs.geo, fp.chain;
    CursorZero(g, fp.fptr);
    if csect == 0 {
      var clst := EnterCluster(fp);
      if clst == 0 {
        SoundFull(fp, ch);
        return true, csect;
      }
      fp.clust := clst;
    } else {
      ghost var k := BehindCursor(g, fp.fat, fp.sclust, ch, fp.fptr, fp.clust);
      SameDataRefl(g, fp.View());
      PrefixRefl(fp.Whole());
      StretchedRefl(fp.fat, ch);
    }
  }

  lemma CursorZero(g: Geometry, fptr: nat)
    requires g.Valid()
    ensures fptr == 0 ==> Rem(fptr / SS, g.csize) == 0
  {
  }

  lemma FromNothing(ch: seq<nat>)
    requires ch == []
    ensures From(ch, 0, 0)
  {
  }

  lemma SoundFull(fp: File, ch: seq<nat>)
    requires fp.Core() && fp.chain == ch && (fp.fptr > 0 ==> Holds(fp.fs.geo, ch, fp.fptr - 1, fp.clust))
    ensures fp.Sound()
  {
  }

  /** v and w agree outside the FAT copies and outside the sectors of ch. */
  ghost predicate Outside(g: Geometry, ch: seq<nat>, v: seq<Sector>, w: seq<Sector>) {
    && Clusters(g, ch) && |v| == |w|
    && forall s :: 0 <= s < |v| && g.Elsewhere(s) && s !in Sectors(g, ch) ==> v[s] == w[s]
  }

  lemma OutsideIntro(g: Geometry, ch: seq<nat>, v: seq<Sector>, q: nat, s: Sector)
    requires Clusters(g, ch) && q < |Sectors(g, ch)| && Sectors(g, ch)[q] < |v|
    ensures Outside(g, ch, v, v[Sectors(g, ch)[q] := s])
  {
  }

  lemma BufferedDirty(g: Geometry, f: seq<nat>, ch: seq<nat>, d: seq<Sector>, p: nat, n: nat, q: nat, buf: seq<byte>)
    requires g.Valid() && |f| == g.nFatent && g.End() <= |d| && Clusters(g, ch) && q < |Sectors(g, ch)|
    requires q == p / SS && p % SS + n <= SS && n > 0 && |buf| == SS
    ensures Buffered(g, f, ch, d, p + n, Sectors(g, ch)[q], true, buf)
  {
    SectorIsOurs(g, f, ch, q);
    SectorOwner(g, ch, q);
    if (p + n) % SS != 0 {
      assert (p + n) / SS == q;
    }
  }

  lemma RoomAfter(p: nat, n: nat, cap: nat)
    requires p / SS < cap && p % SS + n <= SS
    ensures p + n <= cap * SS
  {
  }

  lemma FrameFacts(fp: File)
    requires fp.Frame()
    ensures fp.buf.Length == SS && fp.buf != fp.fs.win && fp.fs.Valid() && fp.fs.geo.Valid() && SS > 0
    ensures fp.log == fp.fs.Logical() && Fits(fp.fs.geo, fp.log) && fp.fat == Fat(fp.fs.geo, fp.log) && Healthy(fp.fat)
    ensures |fp.log| == |fp.fs.disk| && |fp.fat| == fp.fs.geo.nFatent
    ensures ChainOf(fp.fat, fp.sclust, fp.chain)
    ensures Positioned(fp.fs.geo, fp.chain, fp.fptr, fp.fsize)
    ensures Away(fp.fs.geo, fp.fat, fp.chain, fp.fs.winsect)
    ensures Away(fp.fs.geo, fp.fat, fp.chain, fp.dirSect)
    ensures fp.fs.geo.RootBase() <= fp.dirSect < |fp.log| && fp.dirOfs + SZ_DIR <= SS
  {
  }

  /** Patch the private buffer, mark it dirty, move the cursor. The buffer shows the sector,
      or the sector lies behind the end of the file. */
  method PutPartial(fp: File, data: seq<byte>, ghost q: nat, ghost v: seq<Sector>)
    requires fp.Frame() && Clusters(fp.fs.geo, fp.chain) && q < |Sectors(fp.fs.geo, fp.chain)|
    requires fp.dsect == Sectors(fp.fs.geo, fp.chain)[q] && q == fp.fptr / SS && fp.dsect < |v|
    requires 0 < |data| && fp.fptr % SS + |data| <= SS && fp.fptr + |data| < DWORDS
    requires |v| == |fp.log| && v == (if fp.dirty then fp.log[fp.dsect := fp.buf[..]] else fp.log)
    requires fp.buf[..] == v[fp.dsect] || (fp.fptr % SS == 0 && fp.fsize <= fp.fptr)
    requires OnDisk(v, Sectors(fp.fs.geo, fp.chain)) && Holds(fp.fs.geo, fp.chain, fp.fptr, fp.clust)
    modifies fp`dirty, fp`fptr, fp.buf
    ensures fp.Sound() && fp.Core() && fp.fptr == old(fp.fptr) + |data| && fp.dirty
    ensures Written(Bytes(v, Sectors(fp.fs.geo, fp.chain)), fp.Whole(), old(fp.fptr), data, fp.fsize)
    ensures Outside(fp.fs.geo, fp.chain, v, fp.View())
  {
    hide *;
    FrameFacts(fp);
    ghost var g, ch, b := fp.fs.geo, fp.chain, fp.buf[..];
    ghost var ss := Sectors(g, ch);
    ghost var p := fp.fptr;
    FitsEnd(g, fp.log);
    ChainSectors(g, fp.fat, fp.sclust, ch, v);
    SpliceWritten(v, ss, p, b, data, fp.fsize);
    CopyBytes(fp.buf, fp.fptr % SS, data);
    fp.dirty := true;
    fp.fptr := fp.fptr + |data|;
    RoomAfter(p, |data|, |ss|);
    PositionedAt(g, ch, p, fp.fsize, fp.fptr);
    BufferedDirty(g, fp.fat, ch, fp.log, p, |data|, q, fp.buf[..]);
    CoreIntro(fp);
    HoldsAdvance(g, ch, p, |data|, fp.clust);
    SoundIntro(fp);
    ViewIs(fp);
    WholeIs(fp);
    OverlayTwice(fp.log, v, fp.dsect, old(fp.dirty), b, fp.buf[..]);
    OutsideIntro(g, ch, v, q, fp.buf[..]);
  }

  lemma OverlayTwice(d: seq<Sector>, v: seq<Sector>, s: nat, dirty: bool, a: Sector, b: Sector)
    requires s < |d| && v == (if dirty then d[s := a] else d)
    ensures v[s := b] == d[s := b]
  {
  }

  lemma CleanShows(fp: File, sect: nat)
    requires fp.Core() && !fp.dirty && fp.dsect == sect && sect != 0
    ensures sect < |fp.log| && fp.buf[..] == fp.log[sect]
  {
  }

  /** f_write at a sector boundary with less than a sector to go: fill the buffer unless the
      sector lies behind the end of the file, then patch it. */
  method WriteEdge(fp: File, data: seq<byte>, sect: nat, ghost q: nat)
    requires fp.Core() && !fp.dirty && fp.fptr % SS == 0 && q == fp.fptr / SS
    requires Clusters(fp.fs.geo, fp.chain) && q < |Sectors(fp.fs.geo, fp.chain)| && sect == Sectors(fp.fs.geo, fp.chain)[q]
    requires 0 < |data| && fp.fptr % SS + |data| <= SS && fp.fptr + |data| < DWORDS
    requires Holds(fp.fs.geo, fp.chain, fp.fptr, fp.clust)
    modifies fp`dsect, fp`dirty, fp`fptr, fp.buf
    ensures fp.Sound() && fp.Core() && fp.fptr == old(fp.fptr) + |data| && fp.dirty
    ensures Written(old(fp.Whole()), fp.Whole(), old(fp.fptr), data, fp.fsize)
    ensures Outside(fp.fs.geo, fp.chain, old(fp.View()), fp.View())
  {
    hide *;
    CoreFacts(fp);
    ViewIs(fp);
    WholeIs(fp);
    FitsEnd(fp.fs.geo, fp.log);
    BufferedLoad(fp.fs.geo, fp.fat, fp.chain, fp.log, fp.fptr, q, fp.fs.winsect);
    if fp.dsect != sect {
      if fp.fptr < fp.fsize {
        var loaded := DiskRead(fp.fs, sect);
        ReadInto(fp.buf, loaded);
      }
    } else {
      CleanShows(fp, sect);
    }
    fp.dsect := sect;
    PutPartial(fp, data, q, fp.log);
  }

  /** disk_write of whole sectors from the caller's buffer. */
  method WriteSectors(fs: Volume, data: seq<byte>, sect: nat, cc: nat)
    requires fs.Valid() && IsWhole(data, cc)
    requires fs.geo.RootBase() <= sect && sect + cc <= |fs.disk| && !(sect <= fs.winsect < sect + cc)
    modifies fs`disk
    ensures fs.Valid() && sect + cc <= |old(fs.Logical())|
    ensures fs.Logical() == PutRun(old(fs.Logical()), sect, Chunks(data, cc)) && |fs.disk| == old(|fs.disk|)
  {
    hide *;
    ghost var d, secs := fs.Logical(), Chunks(data, cc);
    var j := 0;
    PutNothing(d, sect, secs);
    while j < cc
      invariant 0 <= j <= cc && fs.Valid() && |fs.disk| == old(|fs.disk|)
      invariant PutSome(d, fs.Logical(), sect, secs, j)
    {
      ghost var e := fs.Logical();
      DiskWrite(fs, sect + j, Chunk(data, cc, j));
      PutOneMore(d, e, fs.Logical(), sect, secs, j);
      j := j + 1;
    }
    PutAll(d, fs.Logical(), sect, secs);
  }

  ghost predicate PutSome(d: seq<Sector>, e: seq<Sector>, sect: nat, secs: seq<Sector>, j: nat) {
    j <= |secs| && sect + |secs| <= |d| && e == PutRun(d, sect, secs[..j])
  }

  lemma PutNothing(d: seq<Sector>, sect: nat, secs: seq<Sector>)
    requires sect + |secs| <= |d|
    ensures PutSome(d, d, sect, secs, 0)
  {
    assert PutRun(d, sect, secs[..0]) == d;
  }

  lemma PutOneMore(d: seq<Sector>, e: seq<Sector>, f: seq<Sector>, sect: nat, secs: seq<Sector>, j: nat)
    requires j < |secs| && PutSome(d, e, sect, secs, j) && f == e[sect + j := secs[j]]
    ensures PutSome(d, f, sect, secs, j + 1)
  {
    assert f == PutRun(d, sect, secs[..j + 1]);
  }

  lemma PutAll(d: seq<Sector>, e: seq<Sector>, sect: nat, secs: seq<Sector>)
    requires PutSome(d, e, sect, secs, |secs|)
    ensures sect + |secs| <= |d| && e == PutRun(d, sect, secs)
  {
    assert secs[..|secs|] == secs;
  }

  /** Refill of the private buffer after a direct write. */
  lemma BufferedRun(g: Geometry, f: seq<nat>, ch: seq<nat>, d: seq<Sector>, sect: nat, data: seq<byte>,
                    p: nat, cc: nat, dsect: nat, buf: seq<byte>, buf': seq<byte>)
    requires Buffered(g, f, ch, d, p, dsect, false, buf) && IsWhole(data, cc)
    requires sect + cc <= |d| && 0 < sect && |buf'| == SS
    requires buf' == if sect <= dsect < sect + cc then Chunk(data, cc, dsect - sect) else buf
    ensures Buffered(g, f, ch, PutRun(d, sect, Chunks(data, cc)), p, dsect, false, buf')
  {
  }

  lemma RunKeepsFat(g: Geometry, d: seq<Sector>, sect: nat, secs: seq<Sector>)
    requires Fits(g, d) && g.RootBase() <= sect && sect + |secs| <= |d|
    ensures Fits(g, PutRun(d, sect, secs)) && Fat(g, PutRun(d, sect, secs)) == Fat(g, d)
  {
    FatElsewhere(g, d, PutRun(d, sect, secs));
  }

  lemma OutsideRun(g: Geometry, ch: seq<nat>, d: seq<Sector>, q: nat, cc: nat, sect: nat, secs: seq<Sector>)
    requires Clusters(g, ch) && q + cc <= |Sectors(g, ch)| && sect + cc <= |d| && |secs| == cc
    requires forall j :: q <= j < q + cc ==> Sectors(g, ch)[j] == sect + (j - q)
    ensures Outside(g, ch, d, PutRun(d, sect, secs))
  {
    forall s | sect <= s < sect + cc ensures s in Sectors(g, ch) {
      RunIndex(Sectors(g, ch), q, cc, sect, s);
    }
  }

  lemma DsectRange(fp: File)
    requires fp.Core()
    ensures fp.dsect < DWORDS
  {
    if fp.dsect != 0 { OursInData(fp.fs.geo, fp.fat, fp.chain, fp.dsect); }
  }

  lemma WholeChunks(p: nat, q: nat, data: seq<byte>, cc: nat)
    requires WholeSectors(p, q, |data|, cc)
    ensures IsWhole(data, cc) && p == q * SS
  {
  }

  /** What a direct write of data at file sector q does, in one place. */
  lemma RunEffects(g: Geometry, f: seq<nat>, sclust: nat, ch: seq<nat>, d: seq<Sector>, w: nat,
                   q: nat, cc: nat, p: nat, data: seq<byte>, keep: nat)
    requires Fits(g, d) && |f| == g.nFatent && ChainOf(f, sclust, ch) && Away(g, f, ch, w) && Clusters(g, ch)
    requires q < |Sectors(g, ch)| && WholeSectors(p, q, |data|, cc) && Rem(q, g.csize) + cc <= g.csize
    ensures var sect := Sectors(g, ch)[q];
      && IsWhole(data, cc) && 0 < sect
      && g.RootBase() <= sect && sect + cc <= |d| && sect + cc <= DWORDS && !(sect <= w < sect + cc)
      && OnDisk(d, Sectors(g, ch))
      && var e := PutRun(d, sect, Chunks(data, cc));
      && Fits(g, e) && Fat(g, e) == Fat(g, d) && OnDisk(e, Sectors(g, ch))
      && Written(Bytes(d, Sectors(g, ch)), Bytes(e, Sectors(g, ch)), p, data, keep)
      && Outside(g, ch, d, e)
      && p + |data| <= Span(|ch|, g.csize) * SS
  {
    WholeChunks(p, q, data, cc);
    hide *;
    FitsEnd(g, d);
    var sect := Sectors(g, ch)[q];
    RunAway(g, f, ch, q, cc, w);
    SectorPositive(g, ch, q);
    RunKeepsFat(g, d, sect, Chunks(data, cc));
    ChainSectors(g, f, sclust, ch, d);
    ChainSectors(g, f, sclust, ch, PutRun(d, sect, Chunks(data, cc)));
    RunWritten(d, Sectors(g, ch), q, sect, data, cc, keep);
    OutsideRun(g, ch, d, q, cc, sect, Chunks(data, cc));
    RunRoom(g, ch, q, cc, p, |data|);
  }

  lemma SectorPositive(g: Geometry, ch: seq<nat>, q: nat)
    requires g.Valid() && Clusters(g, ch) && q < |Sectors(g, ch)|
    ensures Sectors(g, ch)[q] > 0
  {
    SectorOwner(g, ch, q);
  }

  /** `if (dsect - sect < cc)` the direct write made the buffer stale: take the new data. */
  method Refill(buf: array<byte>, dsect: nat, data: seq<byte>, sect: nat, cc: nat)
    requires buf.Length == SS && IsWhole(data, cc) && dsect < DWORDS && sect + cc <= DWORDS && cc > 0
    modifies buf
    ensures buf[..] == if sect <= dsect < sect + cc then Chunk(data, cc, dsect - sect) else old(buf[..])
  {
    MinusInRun(dsect, sect, cc);
    if Minus(dsect, sect) < cc {
      ReadInto(buf, Chunk(data, cc, dsect - sect));
    }
  }

  /** f_write: whole sectors straight to the disk, refilling the buffer if it got stale. */
  method StoreRun(fp: File, data: seq<byte>, sect: nat, cc: nat, ghost q: nat)
    requires fp.Core() && !fp.dirty && WholeSectors(fp.fptr, q, |data|, cc) && cc > 0
    requires Clusters(fp.fs.geo, fp.chain) && q < |Sectors(fp.fs.geo, fp.chain)| && sect == Sectors(fp.fs.geo, fp.chain)[q]
    requires fp.fs.geo.csize > 0 && Rem(q, fp.fs.geo.csize) + cc <= fp.fs.geo.csize
    modifies fp`log, fp`dirty, fp.buf, fp.fs`disk
    ensures fp.Core() && !fp.dirty && fp.fptr + |data| <= Span(|fp.chain|, fp.fs.geo.csize) * SS
    ensures Written(old(fp.Whole()), fp.Whole(), fp.fptr, data, fp.fsize)
    ensures Outside(fp.fs.geo, fp.chain, old(fp.View()), fp.View())
  {
    hide *;
    CoreFacts(fp);
    ViewIs(fp);
    WholeIs(fp);
    DsectRange(fp);
    ghost var d, b := fp.log, fp.buf[..];
    RunEffects(fp.fs.geo, fp.fat, fp.sclust, fp.chain, d, fp.fs.winsect, q, cc, fp.fptr, data, fp.fsize);
    WriteSectors(fp.fs, data, sect, cc);
    Refill(fp.buf, fp.dsect, data, sect, cc);
    fp.dirty := false;
    fp.log := fp.fs.Logical();
    BufferedRun(fp.fs.geo, fp.fat, fp.chain, d, sect, data, fp.fptr, cc, fp.dsect, b, fp.buf[..]);
    CoreIntro(fp);
    ViewIs(fp);
    WholeIs(fp);
  }

  /** The direct transfer of f_write, with the cursor moved past it. */
  method WriteRun(fp: File, data: seq<byte>, sect: nat, cc: nat, ghost q: nat)
    requires fp.Core() && !fp.dirty && WholeSectors(fp.fptr, q, |data|, cc) && cc > 0
    requires Clusters(fp.fs.geo, fp.chain) && q < |Sectors(fp.fs.geo, fp.chain)| && sect == Sectors(fp.fs.geo, fp.chain)[q]
    requires fp.fs.geo.csize > 0 && Rem(q, fp.fs.geo.csize) + cc <= fp.fs.geo.csize
    requires fp.fptr + |data| < DWORDS && Holds(fp.fs.geo, fp.chain, fp.fptr, fp.clust)
    modifies fp`fptr, fp`log, fp`dirty, fp.buf, fp.fs`disk
    ensures fp.Sound() && fp.Core() && fp.fptr == old(fp.fptr) + |data|
    ensures Written(old(fp.Whole()), fp.Whole(), old(fp.fptr), data, fp.fsize)
    ensures Outside(fp.fs.geo, fp.chain, old(fp.View()), fp.View())
  {
    hide *;
    StoreRun(fp, data, sect, cc, q);
    CoreFacts(fp);
    HoldsRun(fp.fs.geo, fp.chain, q, cc, fp.fptr, |data|, fp.clust);
    BufferedAt(fp.fs.geo, fp.fat, fp.chain, fp.log, fp.fptr, q, |data|, cc, fp.dsect, fp.dirty, fp.buf[..]);
    PositionedAt(fp.fs.geo, fp.chain, fp.fptr, fp.fsize, fp.fptr + |data|);
    MoveTo(fp, fp.fptr + |data|);
    SoundIntro(fp);
  }

  lemma RunRoom(g: Geometry, ch: seq<nat>, q: nat, cc: nat, p: nat, n: nat)
    requires Clusters(g, ch) && q + cc <= |Sectors(g, ch)| && WholeSectors(p, q, n, cc)
    ensures p + n <= Span(|ch|, g.csize) * SS
  {
  }

  lemma WrittenTwice(a: seq<byte>, b: seq<byte>, c: seq<byte>, p: nat, x: seq<byte>, y: seq<byte>, keep: nat)
    requires Written(a, b, p, x, keep) && Written(b, c, p + |x|, y, keep)
    ensures Written(a, c, p, x + y, keep)
  {
    forall i | 0 <= i < |x + y| ensures c[p + i] == (x + y)[i] {
      if i < |x| {
        assert c[p + i] == b[p + i];
      } else {
        assert c[p + |x| + (i - |x|)] == y[i - |x|];
      }
    }
  }

  lemma WrittenGrow(a: seq<byte>, b: seq<byte>, c: seq<byte>, p: nat, x: seq<byte>, keep: nat)
    requires a <= b && Written(b, c, p, x, keep)
    ensures Written(a, c, p, x, keep)
  {
  }

  lemma WrittenNothing(a: seq<byte>, p: nat, keep: nat)
    requires p <= |a|
    ensures Written(a, a, p, [], keep)
  {
  }

  lemma OutsideGrow(g: Geometry, ch: seq<nat>, u: seq<Sector>, v: seq<Sector>, w: seq<Sector>)
    requires SameData(g, u, v) && Outside(g, ch, v, w)
    ensures Outside(g, ch, u, w)
  {
  }

  lemma OutsideTwice(g: Geometry, ch: seq<nat>, ch': seq<nat>, u: seq<Sector>, v: seq<Sector>, w: seq<Sector>)
    requires ch <= ch' && Outside(g, ch, u, v) && Outside(g, ch', v, w)
    ensures Outside(g, ch', u, w)
  {
    SectorsPrefix(g, ch, ch');
    assert forall s :: s in Sectors(g, ch) ==> s in Sectors(g, ch');
  }

  lemma OutsideRefl(g: Geometry, ch: seq<nat>, v: seq<Sector>)
    requires Clusters(g, ch)
    ensures Outside(g, ch, v, v)
  {
  }

  lemma MinLength(data: seq<byte>, cc: nat)
    requires SS <= |data| && 0 < cc <= |data| / SS
    ensures 0 < SS * cc <= |data| && IsWhole(data[..SS * cc], cc)
  {
  }

  /** Whole sectors to go at a sector boundary: clip at the cluster, transfer directly. */
  method WriteWhole(fp: File, data: seq<byte>, sect: nat, csect: nat, ghost q: nat) returns (wcnt: nat)
    requires fp.Core() && !fp.dirty && AtSector(fp.fptr, q) && SS <= |data| && fp.fptr + |data| < DWORDS
    requires Clusters(fp.fs.geo, fp.chain) && q < |Sectors(fp.fs.geo, fp.chain)| && sect == Sectors(fp.fs.geo, fp.chain)[q]
    requires fp.fs.geo.csize > 0 && csect == Rem(q, fp.fs.geo.csize) && Holds(fp.fs.geo, fp.chain, fp.fptr, fp.clust)
    modifies fp`fptr, fp`log, fp`dirty, fp.buf, fp.fs`disk
    ensures fp.Sound() && fp.Core() && 0 < wcnt <= |data| && fp.fptr == old(fp.fptr) + wcnt
    ensures Written(old(fp.Whole()), fp.Whole(), old(fp.fptr), data[..wcnt], fp.fsize)
    ensures Outside(fp.fs.geo, fp.chain, old(fp.View()), fp.View())
  {
    var cc := ClippedCount(fp.fs.geo, |data|, csect);
    wcnt := SS * cc;
    MinLength(data, cc);
    WholeIntro(fp.fptr, q, wcnt, cc);
    hide *;
    WriteRun(fp, data[..wcnt], sect, cc, q);
  }

  lemma WholeIntro(p: nat, q: nat, n: nat, cc: nat)
    requires AtSector(p, q) && n == SS * cc && cc > 0
    ensures WholeSectors(p, q, n, cc)
  {
  }

  /** `cc = btw / SS`, clipped at the cluster boundary. */
  method ClippedCount(g: Geometry, n: nat, csect: nat) returns (cc: nat)
    requires SS <= n && csect < g.csize
    ensures 0 < cc <= n / SS && csect + cc <= g.csize
  {
    cc := n / SS;
    if csect + cc > g.csize {
      cc := g.csize - csect;
    }
  }

  /** f_write's loop body at a sector boundary, once the cluster is there. */
  method WriteAt(fp: File, data: seq<byte>, csect: nat, ghost q: nat) returns (wcnt: nat)
    requires fp.Core() && !fp.dirty && fp.fptr % SS == 0 && q == fp.fptr / SS && 0 < |data| && fp.fptr + |data| < DWORDS
    requires fp.fs.geo.csize > 0 && csect == Rem(q, fp.fs.geo.csize) && Holds(fp.fs.geo, fp.chain, fp.fptr, fp.clust)
    modifies fp`fptr, fp`log, fp`dirty, fp`dsect, fp.buf, fp.fs`disk
    ensures fp.Sound() && fp.Core() && 0 < wcnt <= |data| && fp.fptr == old(fp.fptr) + wcnt && (|data| < SS ==> fp.dirty)
    ensures Written(old(fp.Whole()), fp.Whole(), old(fp.fptr), data[..wcnt], fp.fsize)
    ensures Outside(fp.fs.geo, fp.chain, old(fp.View()), fp.View())
  {
    hide *;
    CoreFacts(fp);
    AtSectorIntro(fp.fptr, q);
    HoldsRoom(fp.fs.geo, fp.chain, fp.fptr, fp.clust);
    CursorSector(fp.fs.geo, fp.fat, fp.sclust, fp.chain, fp.fptr, fp.clust);
    ClusterRange(fp.fs.geo, fp.clust);
    var sect := Clust2Sect(fp.fs.geo, fp.clust);
    if sect == 0 { assert false; }    // ABORT(FR_INT_ERR)
    sect := sect + csect;
    if |data| >= SS {
      wcnt := WriteWhole(fp, data, sect, csect, q);
    } else {
      wcnt := |data|;
      assert data[..wcnt] == data;
      WriteEdge(fp, data, sect, q);
    }
  }

  /** f_write's loop body at a sector boundary. */
  method WriteBoundary(fp: File, data: seq<byte>, ghost q: nat) returns (wcnt: nat)
    requires fp.Sound() && fp.fptr % SS == 0 && q == fp.fptr / SS && 0 < |data| && fp.fptr + |data| < DWORDS
    modifies fp`fptr, fp`clust, fp`sclust, fp`chain, fp`fat, fp`log, fp`dirty, fp`dsect, fp.buf
    modifies fp.fs`disk, fp.fs`winsect, fp.fs`wflag, fp.fs`fsiFlag, fp.fs`lastClust, fp.fs`freeClust, fp.fs.win
    ensures fp.Sound() && fp.Core() && 0 <= wcnt <= |data| && fp.fptr == old(fp.fptr) + wcnt
    ensures Stretched(old(fp.fat), old(fp.chain), fp.fat, fp.chain) && (wcnt == 0 ==> Free(fp.fat) == 0 && fp.fptr == |fp.Whole()|)
    ensures if 0 < wcnt then |data| < SS ==> fp.dirty else fp.dirty == old(fp.dirty)
    ensures Written(old(fp.Whole()), fp.Whole(), old(fp.fptr), data[..wcnt], fp.fsize)
    ensures Outside(fp.fs.geo, fp.chain, old(fp.View()), fp.View())
  {
    hide *;
    SoundFacts(fp);
    ghost var v, w := fp.View(), fp.Whole();
    var full, csect := WriteCluster(fp);
    CoreFacts(fp);
    if full {
      wcnt := 0;
      WholeIs(fp);
      WrittenNothing(w, fp.fptr, fp.fsize);
      OutsideRefl(fp.fs.geo, fp.chain, fp.View());
      OutsideGrow(fp.fs.geo, fp.chain, v, fp.View(), fp.View());
      return;
    }
    ghost var v1, w1 := fp.View(), fp.Whole();
    WholeIs(fp);
    FlushBuf(fp);
    WholeIs(fp);
    wcnt := WriteAt(fp, data, csect, q);
    WrittenGrow(w, w1, fp.Whole(), old(fp.fptr), data[..wcnt], fp.fsize);
    OutsideGrow(fp.fs.geo, fp.chain, v, v1, fp.View());
  }

  /** f_write's loop body inside a sector. */
  method WriteMid(fp: File, data: seq<byte>, ghost q: nat) returns (wcnt: nat)
    requires fp.Sound() && fp.fptr % SS != 0 && q == fp.fptr / SS && 0 < |data| && fp.fptr + |data| < DWORDS
    modifies fp`fptr, fp`dirty, fp.buf
    ensures fp.Sound() && fp.Core() && 0 < wcnt <= |data| && fp.fptr == old(fp.fptr) + wcnt && fp.dirty
    ensures Written(old(fp.Whole()), fp.Whole(), old(fp.fptr), data[..wcnt], fp.fsize)
    ensures Outside(fp.fs.geo, fp.chain, old(fp.View()), fp.View())
  {
    hide *;
    SoundFacts(fp);
    CoreFacts(fp);
    MidSector(fp);
    ViewIs(fp);
    WholeIs(fp);
    BufShows(fp);
    wcnt := RestOfSector(fp.fptr, |data|);
    PutPartial(fp, data[..wcnt], q, fp.View());
  }

  /** `wcnt = SS - fptr % SS`, at most btw. */
  method RestOfSector(fptr: nat, btw: nat) returns (wcnt: nat)
    requires btw > 0
    ensures 0 < wcnt <= btw && fptr % SS + wcnt <= SS
  {
    wcnt := SS - fptr % SS;
    if wcnt > btw { wcnt := btw; }
  }

  /** One round of f_write's loop; 0 means that the disk is full. */
  method WriteStep(fp: File, data: seq<byte>) returns (wcnt: nat)
    requires fp.Sound() && 0 < |data| && fp.fptr + |data| < DWORDS
    modifies fp`fptr, fp`clust, fp`sclust, fp`chain, fp`fat, fp`log, fp`dirty, fp`dsect, fp.buf
    modifies fp.fs`disk, fp.fs`winsect, fp.fs`wflag, fp.fs`fsiFlag, fp.fs`lastClust, fp.fs`freeClust, fp.fs.win
    ensures fp.Sound() && fp.Core() && 0 <= wcnt <= |data| && fp.fptr == old(fp.fptr) + wcnt
    ensures Stretched(old(fp.fat), old(fp.chain), fp.fat, fp.chain) && (wcnt == 0 ==> Free(fp.fat) == 0 && fp.fptr == |fp.Whole()|)
    ensures if 0 < wcnt then |data| < SS ==> fp.dirty else fp.dirty == old(fp.dirty)
    ensures Written(old(fp.Whole()), fp.Whole(), old(fp.fptr), data[..wcnt], fp.fsize)
    ensures Outside(fp.fs.geo, fp.chain, old(fp.View()), fp.View())
  {
    var boundary := fp.fptr % SS == 0;
    ghost var q := fp.fptr / SS;
    hide *;
    if boundary {
      wcnt := WriteBoundary(fp, data, q);
    } else {
      StretchedRefl(fp.fat, fp.chain);
      wcnt := WriteMid(fp, data, q);
    }
  }

  /** The file's bytes with x put at p, extending it if need be. */
  function Overwrite(c: seq<byte>, p: nat, x: seq<byte>): (r: seq<byte>)
    requires p <= |c|
    ensures |r| == if p + |x| > |c| then p + |x| else |c|
    ensures forall i :: 0 <= i < |r| ==> r[i] == if p <= i < p + |x| then x[i - p] else c[i]
  {
    c[..p] + x + (if p + |x| < |c| then c[p + |x|..] else [])
  }

  lemma WrittenContents(a: seq<byte>, b: seq<byte>, p: nat, x: seq<byte>, size: nat)
    requires Written(a, b, p, x, size) && p <= size <= |a|
    ensures |Overwrite(a[..size], p, x)| <= |b|
    ensures b[..|Overwrite(a[..size], p, x)|] == Overwrite(a[..size], p, x)
  {
    var r := Overwrite(a[..size], p, x);
    forall i | 0 <= i < |r| ensures b[i] == r[i] {
      if p <= i < p + |x| { assert b[p + (i - p)] == x[i - p]; }
    }
  }

  lemma PositionedSize(g: Geometry, ch: seq<nat>, fptr: nat, size: nat)
    requires Positioned(g, ch, fptr, size)
    ensures Positioned(g, ch, fptr, if fptr > size then fptr else size)
  {
  }

  /** `fsize = n` */
  method SetSize(fp: File, n: nat)
    requires fp.Core() && Positioned(fp.fs.geo, fp.chain, fp.fptr, n)
    modifies fp`fsize
    ensures fp.Core() && fp.fsize == n
    ensures fp.View() == old(fp.View()) && fp.Whole() == old(fp.Whole())
  {
    hide *;
    CoreFacts(fp);
    ViewIs(fp);
    WholeIs(fp);
    fp.fsize := n;
    CoreIntro(fp);
    ViewIs(fp);
    WholeIs(fp);
  }

  /** The end of f_write and f_lseek: the size follows the cursor. */
  method UpdateSize(fp: File)
    requires fp.Sound()
    modifies fp`fsize, fp`written
    ensures fp.Valid() && fp.Core() && fp.written
    ensures fp.fsize == if fp.fptr > old(fp.fsize) then fp.fptr else old(fp.fsize)
    ensures fp.View() == old(fp.View()) && fp.Whole() == old(fp.Whole())
  {
    hide *;
    SoundFacts(fp);
    CoreFacts(fp);
    PositionedSize(fp.fs.geo, fp.chain, fp.fptr, fp.fsize);
    if fp.fptr > fp.fsize { SetSize(fp, fp.fptr); }
    fp.written := true;
    SoundIntro(fp);
    ValidIntro(fp);
  }

  /** The loop of f_write. */
  method WriteLoop(fp: File, data: seq<byte>) returns (bw: nat)
    requires fp.Sound() && fp.fptr + |data| < DWORDS
    modifies fp`fptr, fp`clust, fp`sclust, fp`chain, fp`fat, fp`log, fp`dirty, fp`dsect, fp.buf
    modifies fp.fs`disk, fp.fs`winsect, fp.fs`wflag, fp.fs`fsiFlag, fp.fs`lastClust, fp.fs`freeClust, fp.fs.win
    ensures fp.Sound() && fp.Core() && bw <= |data| && fp.fptr == old(fp.fptr) + bw
    ensures Stretched(old(fp.fat), old(fp.chain), fp.fat, fp.chain) && (bw < |data| ==> Free(fp.fat) == 0 && fp.fptr == |fp.Whole()|)
    ensures 0 < bw && |data| < SS ==> fp.dirty
    ensures Written(old(fp.Whole()), fp.Whole(), old(fp.fptr), data[..bw], fp.fsize)
    ensures Outside(fp.fs.geo, fp.chain, old(fp.View()), fp.View())
  {
    hide *;
    SoundFacts(fp);
    CoreFacts(fp);
    WholeIs(fp);
    ghost var v, w, p, f, ch := fp.View(), fp.Whole(), fp.fptr, fp.fat, fp.chain;
    StretchedRefl(fp.fat, ch);
    WrittenNothing(w, p, fp.fsize);
    OutsideRefl(fp.fs.geo, ch, v);
    bw := 0;
    var full := false;
    assert data[..0] == [];
    while bw < |data| && !full
      invariant 0 <= bw <= |data| && fp.Sound() && fp.Core() && fp.fptr == p + bw
      invariant Stretched(f, ch, fp.fat, fp.chain) && (full ==> Free(fp.fat) == 0 && fp.fptr == |fp.Whole()|)
      invariant 0 < bw && |data| < SS ==> fp.dirty
      invariant Written(w, fp.Whole(), p, data[..bw], fp.fsize)
      invariant Outside(fp.fs.geo, fp.chain, v, fp.View())
      decreases |data| - bw, if full then 0 else 1
    {
      ghost var v1, w1, f1, ch1 := fp.View(), fp.Whole(), fp.fat, fp.chain;
      var part := data[bw..];
      assert |part| == |data| - bw;
      var wcnt := WriteStep(fp, part);
      WrittenTwice(w, w1, fp.Whole(), p, data[..bw], part[..wcnt], fp.fsize);
      StretchedTrans(f, ch, f1, ch1, fp.fat, fp.chain);
      StretchedFacts(f1, ch1, fp.fat, fp.chain);
      OutsideTwice(fp.fs.geo, ch1, fp.chain, v, v1, fp.View());
      assert data[..bw] + part[..wcnt] == data[..bw + wcnt];
      bw := bw + wcnt;
      full := wcnt == 0;
    }
  }

  /** f_write: as much of data as there is room for, at the cursor. */
  method Write(fp: File, data: seq<byte>) returns (res: FResult, bw: nat)
    requires fp.Valid() && |data| < DWORDS
    modifies fp`fptr, fp`clust, fp`sclust, fp`chain, fp`fat, fp`log, fp`dirty, fp`dsect, fp.buf, fp`fsize, fp`written
    modifies fp.fs`disk, fp.fs`winsect, fp.fs`wflag, fp.fs`fsiFlag, fp.fs`lastClust, fp.fs`freeClust, fp.fs.win
    ensures fp.Valid() && bw <= |data| && fp.fptr == old(fp.fptr) + bw
    ensures fp.Contents() == Overwrite(old(fp.Contents()), old(fp.fptr), data[..bw])
    ensures Outside(fp.fs.geo, fp.chain, old(fp.View()), fp.View()) && Stretched(old(fp.fat), old(fp.chain), fp.fat, fp.chain)
    ensures res == if fp.failed then FR_INT_ERR else if fp.canWrite then FR_OK else FR_DENIED
    ensures fp.failed || !fp.canWrite || old(fp.fsize) + |data| >= DWORDS ==> bw == 0
    ensures !fp.failed && fp.canWrite && old(fp.fsize) + |data| < DWORDS && bw < |data| ==> Free(fp.fat) == 0 && fp.fptr == |fp.Whole()|
    ensures !fp.failed && fp.canWrite ==> fp.written && (0 < bw && |data| < SS ==> fp.dirty)
    ensures fp.failed || !fp.canWrite ==> unchanged(fp) && unchanged(fp.buf) && unchanged(fp.fs) && unchanged(fp.fs.win)
  {
    hide *;
    ValidFacts(fp);
    CoreFacts(fp);
    bw := 0;
    if fp.failed || !fp.canWrite {
      StretchedRefl(fp.fat, fp.chain);
      WholeIs(fp);
      OutsideRefl(fp.fs.geo, fp.chain, fp.View());
      OverwriteNothing(fp.Contents(), fp.fptr, data);
      return if fp.failed then FR_INT_ERR else FR_DENIED, 0;
    }
    var rest := data;
    if fp.fsize + |data| >= DWORDS {     // the DWORD sum wraps
      rest := [];
    }
    bw := WriteLoop(fp, rest);
    assert rest[..bw] == data[..bw];
    WrittenContents(old(fp.Whole()), fp.Whole(), old(fp.fptr), data[..bw], fp.fsize);
    UpdateSize(fp);
    ValidFacts(fp);
    OverwriteLength(old(fp.Contents()), old(fp.fptr), data[..bw]);
    res := FR_OK;
  }

  lemma OverwriteNothing(c: seq<byte>, p: nat, data: seq<byte>)
    requires p <= |c|
    ensures Overwrite(c, p, data[..0]) == c
  {
  }

  lemma OverwriteLength(c: seq<byte>, p: nat, x: seq<byte>)
    requires p <= |c|
    ensures |Overwrite(c, p, x)| == if p + |x| > |c| then p + |x| else |c|
  {
  }
}
