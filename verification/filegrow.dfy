/** Growing a file's chain: create_chain on behalf of an open file. */
module FileGrow {
  import opened Layout
  import opened FatAccess
  import opened Chains
  import opened Allocator
  import opened FileMap
  import opened FileSpec
  import opened OpenFile
  import ChainRuns

  /** v and w agree outside the FAT copies. */
  ghost predicate SameData(g: Geometry, v: seq<Sector>, w: seq<Sector>) {
    |v| == |w| && forall s :: 0 <= s < |v| && g.Elsewhere(s) ==> v[s] == w[s]
  }

  lemma TakenAll(f: seq<nat>, scl: nat)
    requires Taken(f, scl, |f|) && |f| >= 2
    ensures Free(f) == 0
  {
    forall c | 2 <= c < |f| ensures f[c] != 0 {
      assert Distance(|f|, scl, c) <= |f|;
    }
    FreeBound(f, |f|);
  }

  /** f' is f with cluster r appended to the chain ch, all else as before. */
  ghost predicate Grown(g: Geometry, f: seq<nat>, f': seq<nat>, ch: seq<nat>, r: nat, sclust': nat) {
    && |f'| == |f| && g.Cluster(r) && r < |f| && f[r] == 0
    && ChainOf(f', sclust', ch + [r]) && Healthy(f')
    && (forall c :: 0 <= c < |f| && f[c] != 0 ==> f'[c] != 0)
    && (forall c :: 0 <= c < |f| && f[c] != 0 && c !in ch ==> f'[c] == f[c])
    && (forall c :: 0 <= c < |f| && c != r && f[c] == 0 ==> f'[c] == 0)
  }

  /** The chain ch of FAT f became ch' of f': no entry of any cluster that was neither free nor in ch changed, and what was
      free or in ch is in ch' or free. */
  ghost predicate Reclaimed(f: seq<nat>, ch: seq<nat>, f': seq<nat>, ch': seq<nat>) {
    && |f'| == |f|
    && (forall c :: 0 <= c < |f| && f[c] != 0 && c !in ch ==> f'[c] == f[c] && c !in ch')
    && (forall c :: 0 <= c < |f| && (f[c] == 0 || c in ch) && c !in ch' ==> f'[c] == 0)
  }

  /** The same, and the chain kept its clusters. */
  ghost predicate Stretched(f: seq<nat>, ch: seq<nat>, f': seq<nat>, ch': seq<nat>) {
    ch <= ch' && Reclaimed(f, ch, f', ch')
  }

  lemma ReclaimedTrans(f: seq<nat>, ch: seq<nat>, f1: seq<nat>, ch1: seq<nat>, f2: seq<nat>, ch2: seq<nat>)
    requires Reclaimed(f, ch, f1, ch1) && Reclaimed(f1, ch1, f2, ch2)
    ensures Reclaimed(f, ch, f2, ch2)
  {
  }

  lemma {:induction false} SameZeros(f: seq<nat>, g: seq<nat>, k: nat)
    requires |f| == |g| && k <= |f| && forall c :: 0 <= c < |f| ==> (f[c] == 0 <==> g[c] == 0)
    ensures FreeBelow(f, k) == FreeBelow(g, k)
  {
    if k > 0 { SameZeros(f, g, k - 1); }
  }

  lemma ReleasedOf(f: seq<nat>, sclust: nat, ch: seq<nat>)
    requires ChainOf(f, sclust, ch)
    ensures Free(Cleared(f, ch)) == Free(f) + |ch|
  {
    if ch == [] { assert Cleared(f, ch) == f; } else { ChainRuns.ReleaseFrees(f, ch); }
  }

  /** Clusters are conserved: those of the chain and the free ones together stay as many. */
  lemma Conserved(f: seq<nat>, sclust: nat, ch: seq<nat>, f': seq<nat>, sclust': nat, ch': seq<nat>)
    requires ChainOf(f, sclust, ch) && ChainOf(f', sclust', ch') && Reclaimed(f, ch, f', ch')
    ensures |ch'| + Free(f') == |ch| + Free(f)
  {
    ReleasedOf(f, sclust, ch);
    ReleasedOf(f', sclust', ch');
    SameZeros(Cleared(f, ch), Cleared(f', ch'), |f|);
  }

  lemma StretchedRefl(f: seq<nat>, ch: seq<nat>)
    ensures Stretched(f, ch, f, ch)
  {
  }

  lemma StretchedTrans(f: seq<nat>, ch: seq<nat>, f1: seq<nat>, ch1: seq<nat>, f2: seq<nat>, ch2: seq<nat>)
    requires Stretched(f, ch, f1, ch1) && Stretched(f1, ch1, f2, ch2)
    ensures Stretched(f, ch, f2, ch2)
  {
  }

  lemma StretchedFacts(f: seq<nat>, ch: seq<nat>, f': seq<nat>, ch': seq<nat>)
    requires Stretched(f, ch, f', ch')
    ensures ch <= ch' && Reclaimed(f, ch, f', ch')
  {
  }

  lemma GrownStretches(g: Geometry, f: seq<nat>, f': seq<nat>, ch: seq<nat>, r: nat, sclust': nat)
    requires Grown(g, f, f', ch, r, sclust')
    ensures Stretched(f, ch, f', ch + [r])
  {
  }

  lemma LinkedGrown(g: Geometry, f: seq<nat>, sclust: nat, ch: seq<nat>, clst: nat, r: nat)
    requires g.Valid() && |f| == g.nFatent && ChainOf(f, sclust, ch) && Healthy(f)
    requires if ch == [] then clst == 0 else clst == ch[|ch| - 1]
    requires g.Cluster(r) && f[r] == 0 && clst < |f|
    ensures Grown(g, f, Linked(f, clst, r, EndMark(g.fsType)), ch, r, if ch == [] then r else sclust)
  {
    EndMarkEnds(g);
    if ch != [] {
      StretchChain(f, ch, r, EndMark(g.fsType));
    }
  }

  /** What create_chain does at the end of the file's chain. */
  lemma CreatedAtEnd(g: Geometry, f: seq<nat>, f': seq<nat>, sclust: nat, ch: seq<nat>, clst: nat, scl: nat, r: nat)
    requires g.Valid() && |f| == g.nFatent && ChainOf(f, sclust, ch) && Healthy(f)
    requires if ch == [] then clst == 0 else clst == ch[|ch| - 1]
    requires Created(g, f, f', clst, scl, r)
    ensures r != 1
    ensures r == 0 ==> f' == f && Free(f) == 0
    ensures r >= 2 ==> Grown(g, f, f', ch, r, if ch == [] then r else sclust)
  {
    assert Extends(g, f, clst);
    if r == 0 { TakenAll(f, scl); }
    if r >= 2 { LinkedGrown(g, f, sclust, ch, clst, r); }
  }

  /** What create_chain does inside the file's chain. */
  lemma CreatedInside(g: Geometry, f: seq<nat>, f': seq<nat>, sclust: nat, ch: seq<nat>, k: nat, scl: nat, r: nat)
    requires g.Valid() && |f| == g.nFatent && ChainOf(f, sclust, ch) && k + 1 < |ch|
    requires Created(g, f, f', ch[k], scl, r)
    ensures f' == f && r == ch[k + 1]
  {
    Follower(f, ch, k);
  }

  lemma PositionedGrow(g: Geometry, ch: seq<nat>, r: nat, fptr: nat, size: nat)
    requires Positioned(g, ch, fptr, size)
    ensures Positioned(g, ch + [r], fptr, size)
  {
  }

  lemma BufferedGrow(g: Geometry, f: seq<nat>, f': seq<nat>, ch: seq<nat>, r: nat, sclust': nat,
                     d: seq<Sector>, d': seq<Sector>, fptr: nat, dsect: nat, dirty: bool, buf: seq<byte>)
    requires g.Valid() && |f| == g.nFatent && Grown(g, f, f', ch, r, sclust') && SameData(g, d, d')
    requires Buffered(g, f, ch, d, fptr, dsect, dirty, buf)
    ensures Buffered(g, f', ch + [r], d', fptr, dsect, dirty, buf)
  {
    SectorsAppend(g, ch, r);
    if dsect != 0 {
      OursStretch(g, f, f', ch, r, dsect);
      OursInData(g, f, ch, dsect);
    }
  }

  /** The old bytes are a prefix of the grown file's bytes. */
  lemma BytesGrow(g: Geometry, ch: seq<nat>, r: nat, v: seq<Sector>, w: seq<Sector>)
    requires g.Valid() && Clusters(g, ch) && g.Cluster(r) && SameData(g, v, w) && g.End() <= |v|
    ensures Clusters(g, ch + [r]) && OnDisk(v, Sectors(g, ch)) && OnDisk(w, Sectors(g, ch + [r]))
    ensures Bytes(v, Sectors(g, ch)) <= Bytes(w, Sectors(g, ch + [r]))
  {
    SectorsAppend(g, ch, r);
    var ss, tt := Sectors(g, ch), Sectors(g, ch + [r]);
    forall q | 0 <= q < |ss| ensures g.RootBase() <= ss[q] < |v| { SectorOwner(g, ch, q); }
    forall q | 0 <= q < |tt| ensures g.RootBase() <= tt[q] < |w| { SectorOwner(g, ch + [r], q); }
    var a, b := Bytes(v, ss), Bytes(w, tt);
    forall i | 0 <= i < |a| ensures a[i] == b[i] {
      assert ss[i / SS] == tt[i / SS];
    }
  }

  lemma OverlaySame(g: Geometry, d: seq<Sector>, d': seq<Sector>, dsect: nat, dirty: bool, buf: Sector)
    requires SameData(g, d, d') && (dirty ==> dsect < |d|)
    ensures SameData(g, if dirty then d[dsect := buf] else d, if dirty then d'[dsect := buf] else d')
  {
  }

  lemma OnlyFatData(g: Geometry, d: seq<Sector>, e: seq<Sector>)
    requires OnlyFat(g, d, e)
    ensures SameData(g, d, e) && Fits(g, e)
  {
  }

  /** The file took cluster r: bring chain and ghost state up to date. */
  ghost method Adopt(fp: File, r: nat, chain: seq<nat>, fat: seq<nat>, log: seq<Sector>, v: seq<Sector>, w: seq<byte>)
    requires r < DWORDS && fp.buf.Length == SS && fp.buf != fp.fs.win && fp.fs.Valid()
    requires chain == fp.chain && fat == fp.fat && log == fp.log && OnlyFat(fp.fs.geo, log, fp.fs.Logical())
    requires |fat| == fp.fs.geo.nFatent && Fits(fp.fs.geo, log)
    requires Grown(fp.fs.geo, fat, Fat(fp.fs.geo, fp.fs.Logical()), chain, r, fp.sclust)
    requires Positioned(fp.fs.geo, chain, fp.fptr, fp.fsize) && fp.fs.geo.InFat(fp.fs.winsect)
    requires Buffered(fp.fs.geo, fat, chain, log, fp.fptr, fp.dsect, fp.dirty, fp.buf[..])
    requires Away(fp.fs.geo, fat, chain, fp.dirSect)
    requires fp.fs.geo.RootBase() <= fp.dirSect < |log| && fp.dirOfs + SZ_DIR <= SS
    requires fp.dirty ==> fp.dsect < |log|
    requires v == (if fp.dirty then log[fp.dsect := fp.buf[..]] else log)
    requires OnDisk(v, Sectors(fp.fs.geo, chain)) && w == Bytes(v, Sectors(fp.fs.geo, chain))
    modifies fp`chain, fp`fat, fp`log
    ensures fp.Core() && fp.chain == chain + [r] && fp.fat == Fat(fp.fs.geo, fp.fs.Logical())
    ensures SameData(fp.fs.geo, v, fp.View()) && w <= fp.Whole()
  {
    hide *;
    ghost var g := fp.fs.geo;
    OnlyFatData(g, log, fp.fs.Logical());
    fp.log := fp.fs.Logical();
    fp.fat := Fat(g, fp.log);
    fp.chain := chain + [r];
    GrownFacts(g, fat, fp.fat, chain, r, fp.sclust);
    PositionedGrow(g, chain, r, fp.fptr, fp.fsize);
    BufferedGrow(g, fat, fp.fat, chain, r, fp.sclust, log, fp.log, fp.fptr, fp.dsect, fp.dirty, fp.buf[..]);
    AwayStretch(g, fat, fp.fat, chain, r, fp.dirSect);
    FatAway(g, fp.fat, fp.chain, fp.fs.winsect);
    CoreIntro(fp);
    ViewIs(fp);
    WholeIs(fp);
    OverlaySame(g, log, fp.log, fp.dsect, fp.dirty, fp.buf[..]);
    FitsEnd(g, log);
    BufferedClusters(g, fat, chain, log, fp.fptr, fp.dsect, fp.dirty, fp.buf[..]);
    BytesGrow(g, chain, r, v, fp.View());
  }

  /** clst is the cluster to grow or follow from: chain[k], or 0 for an empty file. */
  ghost predicate From(ch: seq<nat>, clst: nat, k: nat) {
    if clst == 0 then ch == [] else k < |ch| && ch[k] == clst
  }

  lemma FromRange(g: Geometry, f: seq<nat>, sclust: nat, ch: seq<nat>, clst: nat, k: nat)
    requires g.Valid() && |f| == g.nFatent && ChainOf(f, sclust, ch) && From(ch, clst, k)
    ensures clst < DWORDS && (clst == 0 <==> ch == [])
    ensures clst != 0 && k + 1 == |ch| ==> clst == ch[|ch| - 1]
    ensures clst != 0 ==> k < |ch| && clst == ch[k]
  {
  }

  /** In mid-chain, or with the disk full, create_chain leaves the disk alone. */
  lemma GrowQuiet(g: Geometry, f: seq<nat>, sclust: nat, ch: seq<nat>, clst: nat, k: nat)
    requires g.Valid() && |f| == g.nFatent && ChainOf(f, sclust, ch) && clst != 0 && From(ch, clst, k) && k + 1 < |ch|
    ensures !Extends(g, f, clst)
  {
    Follower(f, ch, k);
  }

  /** create_chain for this file: the follower of clst in the chain, or a new last cluster,
      or 0 when the chain ends here and no cluster is free. */
  method Grow(fp: File, clst: nat, ghost k: nat) returns (r: nat)
    requires fp.Core() && From(fp.chain, clst, k)
    modifies fp`sclust, fp`chain, fp`fat, fp`log
    modifies fp.fs`disk, fp.fs`winsect, fp.fs`wflag, fp.fs`fsiFlag, fp.fs`lastClust, fp.fs`freeClust, fp.fs.win
    ensures fp.Core() && SameData(fp.fs.geo, old(fp.View()), fp.View()) && old(fp.Whole()) <= fp.Whole()
    ensures GrownBy(old(fp.chain), fp.chain, clst, k, r) && Stretched(old(fp.fat), old(fp.chain), fp.fat, fp.chain)
    ensures r == 0 ==> Free(fp.fat) == 0 && fp.Whole() == old(fp.Whole())
    ensures fp.sclust == if clst == 0 then r else old(fp.sclust)
    ensures fp.chain == old(fp.chain) ==> fp.View() == old(fp.View()) && fp.fat == old(fp.fat) && (fp.fs.wflag ==> old(fp.fs.wflag))
  {
    hide *;
    ghost var g, chain, fat, log := fp.fs.geo, fp.chain, fp.fat, fp.log;
    CoreFacts(fp);
    ViewIs(fp);
    WholeIs(fp);
    FromRange(g, fat, fp.sclust, chain, clst, k);
    StretchedRefl(fat, chain);
    r := CreateChain(fp.fs, clst);
    ghost var scl, sclust := SearchStart(g, old(fp.fs.lastClust), clst), fp.sclust;
    if clst == 0 { fp.sclust := r; }
    OnlyFatData(g, log, fp.fs.Logical());
    ghost var f' := Fat(g, fp.fs.Logical());
    ghost var grew := CreatedCases(g, fat, f', sclust, chain, clst, k, scl, r);
    if grew {
      GrownFacts(g, fat, f', chain, r, fp.sclust);
      Adopt(fp, r, chain, fat, log, old(fp.View()), old(fp.Whole()));
    } else {
      Unmoved(fp, old(fp.View()), old(fp.Whole()));
    }
  }

  /** The two outcomes for this file: a cluster more, or nothing changed. */
  lemma CreatedCases(g: Geometry, f: seq<nat>, f': seq<nat>, sclust: nat, ch: seq<nat>, clst: nat, k: nat, scl: nat, r: nat)
      returns (grew: bool)
    requires g.Valid() && |f| == g.nFatent && ChainOf(f, sclust, ch) && Healthy(f) && From(ch, clst, k)
    requires Created(g, f, f', clst, scl, r)
    ensures r != 1 && r < DWORDS && (clst == 0 ==> sclust == 0)
    ensures grew ==> r >= 2 && Extends(g, f, clst) && Grown(g, f, f', ch, r, if clst == 0 then r else sclust)
    ensures grew ==> Stretched(f, ch, f', ch + [r]) && GrownBy(ch, ch + [r], clst, k, r) && ch + [r] != ch
    ensures !grew ==> f' == f && GrownBy(ch, ch, clst, k, r) && (r == 0 ==> Free(f) == 0) && (r < 2 || !Extends(g, f, clst))
    ensures !grew && clst == 0 ==> r == 0
  {
    hide *;
    FromRange(g, f, sclust, ch, clst, k);
    SclustZero(f, sclust, ch);
    grew := false;
    if clst != 0 && k + 1 < |ch| {
      CreatedInside(g, f, f', sclust, ch, k, scl, r);
      GrowQuiet(g, f, sclust, ch, clst, k);
      InsideRange(g, f, sclust, ch, k + 1);
      GrownByIntro(ch, ch, clst, k, r);
    } else {
      CreatedAtEnd(g, f, f', sclust, ch, clst, scl, r);
      if r == 0 {
        GrownByIntro(ch, ch, clst, k, r);
      } else {
        grew := true;
        EndExtends(g, f, sclust, ch, clst);
        GrownFacts(g, f, f', ch, r, if clst == 0 then r else sclust);
        ClusterRange(g, r);
        GrownStretches(g, f, f', ch, r, if clst == 0 then r else sclust);
        GrownByIntro(ch, ch + [r], clst, k, r);
        assert |ch + [r]| == |ch| + 1;
      }
    }
  }

  lemma EndExtends(g: Geometry, f: seq<nat>, sclust: nat, ch: seq<nat>, clst: nat)
    requires |f| == g.nFatent && ChainOf(f, sclust, ch) && (if ch == [] then clst == 0 else clst == ch[|ch| - 1])
    ensures Extends(g, f, clst)
  {
  }

  lemma GrownByIntro(ch: seq<nat>, ch': seq<nat>, clst: nat, k: nat, r: nat)
    requires r != 1 && r < DWORDS
    requires if clst != 0 && k + 1 < |ch| then ch' == ch && r == ch[k + 1]
             else if r == 0 then ch' == ch else ch' == ch + [r]
    ensures GrownBy(ch, ch', clst, k, r) && ch <= ch'
  {
  }

  lemma SclustZero(f: seq<nat>, sclust: nat, ch: seq<nat>)
    requires ChainOf(f, sclust, ch)
    ensures ch == [] <==> sclust == 0
  {
  }

  lemma InsideRange(g: Geometry, f: seq<nat>, sclust: nat, ch: seq<nat>, i: nat)
    requires g.Valid() && |f| == g.nFatent && ChainOf(f, sclust, ch) && i < |ch|
    ensures 2 <= ch[i] < DWORDS
  {
  }

  /** Only the window moved, into the FAT. */
  lemma Unmoved(fp: File, v: seq<Sector>, w: seq<byte>)
    requires fp.buf.Length == SS && fp.buf != fp.fs.win && fp.fs.Valid()
    requires fp.log == fp.fs.Logical() && Fits(fp.fs.geo, fp.log) && fp.fat == Fat(fp.fs.geo, fp.log) && Healthy(fp.fat)
    requires ChainOf(fp.fat, fp.sclust, fp.chain)
    requires Positioned(fp.fs.geo, fp.chain, fp.fptr, fp.fsize)
    requires Buffered(fp.fs.geo, fp.fat, fp.chain, fp.log, fp.fptr, fp.dsect, fp.dirty, fp.buf[..])
    requires fp.fs.geo.InFat(fp.fs.winsect)
    requires Away(fp.fs.geo, fp.fat, fp.chain, fp.dirSect)
    requires fp.fs.geo.RootBase() <= fp.dirSect < |fp.log| && fp.dirOfs + SZ_DIR <= SS
    requires fp.dirty ==> fp.dsect < |fp.log|
    requires v == (if fp.dirty then fp.log[fp.dsect := fp.buf[..]] else fp.log)
    requires OnDisk(v, Sectors(fp.fs.geo, fp.chain)) && w == Bytes(v, Sectors(fp.fs.geo, fp.chain))
    ensures fp.Core() && fp.View() == v && fp.Whole() == w && SameData(fp.fs.geo, v, fp.View())
  {
    FatAway(fp.fs.geo, fp.fat, fp.chain, fp.fs.winsect);
    CoreIntro(fp);
    hide *;
    ViewIs(fp);
    WholeIs(fp);
    SameDataRefl(fp.fs.geo, v);
  }

  lemma SameDataRefl(g: Geometry, v: seq<Sector>)
    ensures SameData(g, v, v)
  {
  }

  /** The chain after create_chain(clst) returned r. */
  ghost predicate GrownBy(ch: seq<nat>, ch': seq<nat>, clst: nat, k: nat, r: nat) {
    && r != 1 && r < DWORDS
    && if clst != 0 && k + 1 < |ch| then ch' == ch && r == ch[k + 1]
       else if r == 0 then ch' == ch else ch' == ch + [r]
  }

  lemma BufferedClusters(g: Geometry, f: seq<nat>, ch: seq<nat>, d: seq<Sector>, fptr: nat, dsect: nat, dirty: bool, buf: seq<byte>)
    requires Buffered(g, f, ch, d, fptr, dsect, dirty, buf)
    ensures Clusters(g, ch)
  {
  }

  lemma GrownFacts(g: Geometry, f: seq<nat>, f': seq<nat>, ch: seq<nat>, r: nat, sclust': nat)
    requires Grown(g, f, f', ch, r, sclust')
    ensures |f'| == |f| && g.Cluster(r) && r < |f| && f[r] == 0
    ensures ChainOf(f', sclust', ch + [r]) && Healthy(f')
    ensures forall c :: 0 <= c < |f| && f[c] != 0 ==> f'[c] != 0
  {
  }

  lemma FatAway(g: Geometry, f: seq<nat>, ch: seq<nat>, s: nat)
    requires g.Valid() && g.InFat(s)
    ensures Away(g, f, ch, s)
  {
    SystemAway(g, f, ch, s);
  }
}
