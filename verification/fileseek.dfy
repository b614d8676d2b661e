/** f_lseek (normal seek). */
module FileSeek {
  import opened Layout
  import opened Bits
  import opened FatAccess
  import opened Chains
  import opened FileMap
  import opened FileSpec
  import opened OpenFile
  import opened FileGrow
  import opened FileRead
  import opened FileWrite

  /** File position of the k-th cluster. */
  function ClusterPos(g: Geometry, k: nat): nat {
    Span(k, g.csize) * SS
  }

  /** Cluster index of file byte i. */
  function ClusterOf(g: Geometry, i: nat): nat
    requires g.csize > 0
  {
    Quot(i / SS, g.csize)
  }

  lemma ClusterPosStep(g: Geometry, k: nat)
    ensures ClusterPos(g, k + 1) == ClusterPos(g, k) + g.csize * SS
    ensures ClusterPos(g, k) % SS == 0 && ClusterPos(g, 0) == 0
  {
  }

  lemma {:induction false} ClusterPosRoom(g: Geometry, ch: seq<nat>, k: nat)
    requires k <= |ch|
    ensures ClusterPos(g, k) <= Span(|ch|, g.csize) * SS
  {
    if k < |ch| { SpanOrder(k, |ch|, g.csize); }
  }

  /** Bytes 1 .. bcs behind the start of cluster k end in cluster k. */
  lemma InClusterK(g: Geometry, k: nat, n: nat)
    requires g.Valid() && 0 < n <= g.csize * SS
    ensures ClusterOf(g, ClusterPos(g, k) + n - 1) == k
  {
    var i := ClusterPos(g, k) + n - 1;
    assert i / SS == Span(k, g.csize) + (n - 1) / SS;
    QuotUnique(k, (n - 1) / SS, g.csize);
  }

  /** Dividing by the cluster size in bytes is dividing twice. */
  lemma DivBcs(g: Geometry, x: nat)
    requires g.Valid()
    ensures x / (g.csize * SS) == ClusterOf(g, x)
    ensures x - x % (g.csize * SS) == ClusterPos(g, ClusterOf(g, x))
  {
    var k, j := Locate(g, x / SS);
    BcsProduct(k, g.csize);
    ModUnique(k, j * SS + x % SS, g.csize * SS);
  }

  lemma BcsProduct(k: nat, c: nat)
    ensures k * (c * SS) == Span(k, c) * SS
  {
    SpanIsProduct(k, c);
    assert k * (c * SS) == k * c * SS;
  }

  /** `(a - 1) / bcs >= (b - 1) / bcs` */
  method SameOrLater(g: Geometry, a: nat, b: nat, bcs: nat) returns (r: bool)
    requires g.Valid() && bcs == g.csize * SS
    ensures r <==> ClusterOf(g, a) >= ClusterOf(g, b)
  {
    DivBcs(g, a);
    DivBcs(g, b);
    r := a / bcs >= b / bcs;
  }

  /** `x & ~(bcs - 1)`: the start of the cluster that holds file byte x. */
  method ClusterStart(g: Geometry, x: nat, bcs: nat) returns (p: nat)
    requires g.Valid() && bcs == g.csize * SS
    ensures p == ClusterPos(g, ClusterOf(g, x)) && p <= x
  {
    DivBcs(g, x);
    BcsMask(g, x, bcs);
    p := AndNot(x, bcs - 1);
  }

  lemma BcsMask(g: Geometry, x: nat, bcs: nat)
    requires g.Valid() && bcs == g.csize * SS
    ensures AndNot(x, bcs - 1) == x - x % bcs
  {
    var k := match g.csize {
      case 1 => 0 case 2 => 1 case 4 => 2 case 8 => 3
      case 16 => 4 case 32 => 5 case 64 => 6 case _ => 7
    };
    Pow2Values();
    ByteOrder.Pow2Add(k, 9);
    assert bcs == Pow2(k + 9);
    AndNotMask(x, k + 9);
  }

  /** clst is the k-th cluster of the chain and p is where it starts in the file. */
  ghost predicate AtCluster(g: Geometry, ch: seq<nat>, p: nat, clst: nat, k: nat) {
    p == ClusterPos(g, k) && k < |ch| && ch[k] == clst && clst >= 2
  }

  lemma AtClusterFacts(g: Geometry, ch: seq<nat>, p: nat, clst: nat, k: nat)
    requires AtCluster(g, ch, p, clst, k)
    ensures From(ch, clst, k) && SS > 0 && p % SS == 0 && clst != 0 && k < |ch| && ch[k] == clst
    ensures p <= Span(|ch|, g.csize) * SS
  {
    ClusterPosRoom(g, ch, k);
    ClusterPosStep(g, k);
  }

  /** The next cluster of the chain, after create_chain or get_fat returned it. */
  lemma AtNext(g: Geometry, ch: seq<nat>, ch': seq<nat>, p: nat, clst: nat, k: nat, r: nat, bcs: nat)
    requires g.Valid() && AtCluster(g, ch, p, clst, k) && GrownBy(ch, ch', clst, k, r) && bcs == g.csize * SS
    requires Clusters(g, ch')
    ensures r != 0 ==> AtCluster(g, ch', p + bcs, r, k + 1)
    ensures r == 0 ==> ch' == ch && k + 1 == |ch|
    ensures ch' != ch ==> r != 0 && ch <= ch' && p + bcs == Span(|ch|, g.csize) * SS
  {
    ClusterPosStep(g, k);
    assert k + 1 < |ch| ==> ch'[k + 1] == r;
    assert r != 0 ==> k + 1 < |ch'| && ch'[k + 1] == r;
  }

  lemma FollowIsGrown(g: Geometry, f: seq<nat>, sclust: nat, ch: seq<nat>, clst: nat, k: nat)
    requires g.Valid() && |f| == g.nFatent && ChainOf(f, sclust, ch) && From(ch, clst, k) && clst != 0 && k + 1 < |ch|
    ensures g.Cluster(clst) && GrownBy(ch, ch, clst, k, f[clst]) && f[clst] != 0
  {
    Follower(f, ch, k);
  }

  lemma MustFollow(g: Geometry, ch: seq<nat>, p: nat, clst: nat, k: nat, ofs: nat, bcs: nat)
    requires AtCluster(g, ch, p, clst, k) && bcs == g.csize * SS && ofs > bcs
    requires p + ofs <= Span(|ch|, g.csize) * SS
    ensures k + 1 < |ch|
  {
    ClusterPosStep(g, k);
  }

  lemma PositionedStart(g: Geometry, ch: seq<nat>, fptr: nat, size: nat, p: nat, clst: nat, k: nat)
    requires Positioned(g, ch, fptr, size) && AtCluster(g, ch, p, clst, k) && p < DWORDS
    ensures Positioned(g, ch, p, size)
  {
    ClusterPosRoom(g, ch, k);
  }

  lemma BufferedStart(g: Geometry, f: seq<nat>, ch: seq<nat>, d: seq<Sector>, fptr: nat, p: nat, clst: nat, k: nat,
                      dsect: nat, dirty: bool, buf: seq<byte>)
    requires Buffered(g, f, ch, d, fptr, dsect, dirty, buf) && AtCluster(g, ch, p, clst, k)
    ensures Buffered(g, f, ch, d, p, dsect, dirty, buf)
  {
    ClusterPosStep(g, k);
  }

  /** Put the cursor at the start of the k-th cluster. */
  method GoTo(fp: File, p: nat, clst: nat, ghost k: nat)
    requires fp.Core() && AtCluster(fp.fs.geo, fp.chain, p, clst, k) && p < DWORDS
    modifies fp`fptr, fp`clust
    ensures fp.Core() && fp.fptr == p && fp.clust == clst
    ensures fp.View() == old(fp.View()) && fp.Whole() == old(fp.Whole())
  {
    hide *;
    CoreFacts(fp);
    PositionedStart(fp.fs.geo, fp.chain, fp.fptr, fp.fsize, p, clst, k);
    BufferedStart(fp.fs.geo, fp.fat, fp.chain, fp.log, fp.fptr, p, clst, k, fp.dsect, fp.dirty, fp.buf[..]);
    MoveTo(fp, p);
    fp.clust := clst;
  }

  lemma SameDataTrans(g: Geometry, u: seq<Sector>, v: seq<Sector>, w: seq<Sector>)
    requires SameData(g, u, v) && SameData(g, v, w)
    ensures SameData(g, u, w)
  {
  }

  /** What f_lseek may change on its way: the chain, what the file sees of the disk, the FAT, whether the window is dirty,
      the length of the chain in bytes, and the cursor. */
  datatype Sighting = Sighting(chain: seq<nat>, view: seq<Sector>, fat: seq<nat>, wflag: bool, room: nat, pos: nat)

  ghost function Sight(fp: File): Sighting
    requires fp.Core()
    reads fp, fp.buf, fp.fs, fp.fs.win
  {
    Sighting(fp.chain, fp.View(), fp.fat, fp.fs.wflag, |fp.Whole()|, fp.fptr)
  }

  /** A walk forward: without a new cluster nothing becomes dirty, and with one the cursor is behind the old chain. */
  ghost predicate Quiet(s: Sighting, t: Sighting) {
    && s.chain <= t.chain && s.pos <= t.pos && s.room <= t.room
    && (t.chain == s.chain ==> t.view == s.view && t.fat == s.fat && (t.wflag ==> s.wflag))
    && (t.chain != s.chain ==> t.pos >= s.room)
  }

  lemma QuietTrans(s: Sighting, t: Sighting, u: Sighting)
    requires Quiet(s, t) && Quiet(t, u)
    ensures Quiet(s, u)
  {
  }

  lemma QuietFacts(s: Sighting, t: Sighting)
    requires Quiet(s, t)
    ensures s.chain <= t.chain && s.pos <= t.pos && s.room <= t.room
    ensures t.chain == s.chain ==> t.view == s.view && t.fat == s.fat && (t.wflag ==> s.wflag)
    ensures t.chain != s.chain ==> t.pos >= s.room
  {
  }

  lemma QuietWhen(s: Sighting, t: Sighting)
    requires s.chain <= t.chain && s.pos <= t.pos && s.room <= t.room
    requires t.chain == s.chain ==> t.view == s.view && t.fat == s.fat && (t.wflag ==> s.wflag)
    requires t.chain != s.chain ==> t.pos >= s.room
    ensures Quiet(s, t)
  {
  }

  lemma SightIs(fp: File)
    requires fp.Core()
    ensures Sight(fp) == Sighting(fp.chain, fp.View(), fp.fat, fp.fs.wflag, |fp.Whole()|, fp.fptr)
  {
  }

  /** One round of f_lseek's cluster following loop. */
  method SeekStep(fp: File, clst: nat, ofs: nat, bcs: nat, ghost k: nat) returns (r: nat)
    requires fp.Core() && AtCluster(fp.fs.geo, fp.chain, fp.fptr, clst, k) && ofs > bcs > 0 && fp.fptr + ofs < DWORDS
    requires bcs == fp.fs.geo.csize * SS && (!fp.canWrite ==> fp.fptr + ofs <= fp.fsize)
    modifies fp`sclust, fp`chain, fp`fat, fp`log, fp`fptr, fp`clust
    modifies fp.fs`disk, fp.fs`winsect, fp.fs`wflag, fp.fs`fsiFlag, fp.fs`lastClust, fp.fs`freeClust, fp.fs.win
    ensures fp.Core() && SameData(fp.fs.geo, old(fp.View()), fp.View()) && old(fp.Whole()) <= fp.Whole()
    ensures Stretched(old(fp.fat), old(fp.chain), fp.fat, fp.chain) && (!fp.canWrite ==> fp.Whole() == old(fp.Whole()) && fp.View() == old(fp.View()))
    ensures fp.sclust == old(fp.sclust)
    ensures Quiet(old(Sight(fp)), Sight(fp))
    ensures r == 0 ==> fp.canWrite && Free(fp.fat) == 0 && fp.chain == old(fp.chain) && k + 1 == |fp.chain|
    ensures r == 0 ==> fp.fptr == old(fp.fptr) && fp.clust == old(fp.clust)
    ensures r != 0 ==> fp.fptr == old(fp.fptr) + bcs && fp.clust == r && AtCluster(fp.fs.geo, fp.chain, fp.fptr, r, k + 1)
  {
    hide *;
    CoreFacts(fp);
    WholeIs(fp);
    SightIs(fp);
    ghost var g, ch, v, s := fp.fs.geo, fp.chain, fp.View(), Sight(fp);
    AtClusterFacts(g, ch, fp.fptr, clst, k);
    if fp.canWrite {
      r := Grow(fp, clst, k);
    } else {
      MustFollow(g, ch, fp.fptr, clst, k, ofs, bcs);
      FollowIsGrown(g, fp.fat, fp.sclust, ch, clst, k);
      r := Follow(fp, clst);
      SameDataRefl(g, fp.View());
      PrefixRefl(fp.Whole());
      StretchedRefl(fp.fat, ch);
    }
    CoreFacts(fp);
    WholeIs(fp);
    AtNext(g, ch, fp.chain, fp.fptr, clst, k, r, bcs);
    if r != 0 {
      GoTo(fp, fp.fptr + bcs, r, k + 1);
    }
    SightIs(fp);
    QuietWhen(s, Sight(fp));
  }

  /** The cluster following loop. `rest` is what remains of the offset in the last cluster reached,
      and clst is 0 when the disk got full. */
  method SeekLoop(fp: File, start: nat, ofs: nat, bcs: nat, ghost k0: nat) returns (clst: nat, rest: nat, ghost k: nat)
    requires fp.Core() && AtCluster(fp.fs.geo, fp.chain, fp.fptr, start, k0) && fp.clust == start
    requires 0 < ofs && fp.fptr + ofs < DWORDS && bcs > 0
    requires bcs == fp.fs.geo.csize * SS && (!fp.canWrite ==> fp.fptr + ofs <= fp.fsize)
    modifies fp`sclust, fp`chain, fp`fat, fp`log, fp`fptr, fp`clust
    modifies fp.fs`disk, fp.fs`winsect, fp.fs`wflag, fp.fs`fsiFlag, fp.fs`lastClust, fp.fs`freeClust, fp.fs.win
    ensures fp.Core() && SameData(fp.fs.geo, old(fp.View()), fp.View()) && old(fp.Whole()) <= fp.Whole()
    ensures Stretched(old(fp.fat), old(fp.chain), fp.fat, fp.chain) && (!fp.canWrite ==> fp.Whole() == old(fp.Whole()) && fp.View() == old(fp.View()))
    ensures AtCluster(fp.fs.geo, fp.chain, fp.fptr, fp.clust, k) && 0 < rest <= bcs
    ensures Quiet(old(Sight(fp)), Sight(fp))
    ensures clst != 0 ==> clst == fp.clust && fp.fptr + rest == old(fp.fptr) + ofs
    ensures clst == 0 ==> fp.canWrite && Free(fp.fat) == 0 && k + 1 == |fp.chain| && rest == bcs
    ensures clst == 0 ==> fp.fptr + rest < old(fp.fptr) + ofs
  {
    hide *;
    clst, rest, k := start, ofs, k0;
    CoreFacts(fp);
    ghost var v, w, f, ch, g := fp.View(), fp.Whole(), fp.fat, fp.chain, fp.fs.geo;
    SameDataRefl(g, v);
    PrefixRefl(w);
    StretchedRefl(fp.fat, ch);
    AtClusterFacts(g, ch, fp.fptr, clst, k);
    ghost var s := Sight(fp);
    QuietWhen(s, s);
    while rest > bcs && clst != 0
      invariant fp.Core() && SameData(g, v, fp.View()) && w <= fp.Whole() && Stretched(f, ch, fp.fat, fp.chain)
      invariant !fp.canWrite ==> fp.Whole() == w && fp.View() == v
      invariant Quiet(s, Sight(fp))
      invariant AtCluster(g, fp.chain, fp.fptr, fp.clust, k) && 0 < rest
      invariant clst != 0 ==> clst == fp.clust && fp.fptr + rest == old(fp.fptr) + ofs
      invariant clst == 0 ==> fp.canWrite && Free(fp.fat) == 0 && k + 1 == |fp.chain| && rest == bcs
      invariant clst == 0 ==> fp.fptr + rest < old(fp.fptr) + ofs
      decreases rest
    {
      ghost var v1, w1, f1, ch1, s1 := fp.View(), fp.Whole(), fp.fat, fp.chain, Sight(fp);
      clst := SeekStep(fp, clst, rest, bcs, k);
      SameDataTrans(g, v, v1, fp.View());
      PrefixTrans(w, w1, fp.Whole());
      StretchedTrans(f, ch, f1, ch1, fp.fat, fp.chain);
      QuietTrans(s, s1, Sight(fp));
      if clst == 0 {
        rest := bcs;
      } else {
        rest := rest - bcs;
        k := k + 1;
        AtClusterFacts(g, fp.chain, fp.fptr, clst, k);
      }
    }
  }

  lemma PrefixTrans<T>(a: seq<T>, b: seq<T>, c: seq<T>)
    requires a <= b && b <= c
    ensures a <= c
  {
  }

  /** Not at a sector boundary. */
  predicate Inside(n: nat) {
    n % SS != 0
  }

  /** Sector number of file byte p. */
  function Sec(p: nat): nat {
    p / SS
  }

  /** n bytes into the k-th cluster the cursor is in that cluster. */
  lemma InsideCluster(g: Geometry, ch: seq<nat>, p: nat, clst: nat, k: nat, n: nat, bcs: nat)
    requires g.Valid() && AtCluster(g, ch, p, clst, k) && 0 < n <= bcs == g.csize * SS
    ensures Holds(g, ch, p + n - 1, clst) && p + n <= Span(|ch|, g.csize) * SS
    ensures Inside(p + n) == Inside(n)
    ensures k + 1 == |ch| && n == bcs ==> p + n == Span(|ch|, g.csize) * SS
  {
    InClusterK(g, k, n);
    ClusterPosStep(g, k);
    ClusterPosRoom(g, ch, k + 1);
    SameInside(Span(k, g.csize), n);
  }

  lemma SameInside(q: nat, n: nat)
    ensures Inside(q * SS + n) == Inside(n)
  {
    ModUnique(q + n / SS, n % SS, SS);
  }

  /** The sector of a cursor that is inside a sector. */
  lemma SeekSector(g: Geometry, ch: seq<nat>, p: nat, clst: nat, k: nat, n: nat, bcs: nat)
    requires g.Valid() && Clusters(g, ch) && AtCluster(g, ch, p, clst, k) && 0 < n <= bcs == g.csize * SS
    requires Inside(n)
    ensures g.Cluster(clst) && Sec(p + n) < |Sectors(g, ch)|
    ensures g.Base(clst) + Sec(n) == Sectors(g, ch)[Sec(p + n)]
  {
    SectorAt(g, ch, k, n / SS);
  }

  lemma BufferedSeek(g: Geometry, f: seq<nat>, ch: seq<nat>, d: seq<Sector>, p: nat, p': nat,
                     dsect: nat, dirty: bool, buf: seq<byte>)
    requires Buffered(g, f, ch, d, p, dsect, dirty, buf)
    requires !Inside(p') || (Sec(p') < |Sectors(g, ch)| && dsect == Sectors(g, ch)[Sec(p')])
    ensures Buffered(g, f, ch, d, p', dsect, dirty, buf)
  {
  }

  /** `nsect = clust2sect(clst) + ofs / SS` */
  method SeekSectorNumber(g: Geometry, clst: nat, rest: nat) returns (nsect: nat)
    requires g.Valid() && g.Cluster(clst)
    ensures nsect == g.Base(clst) + Sec(rest)
  {
    nsect := Clust2Sect(g, clst);
    if nsect == 0 { assert false; }  // ABORT(FR_INT_ERR)
    nsect := nsect + rest / SS;
  }

  /** From the start of the last cluster on: load the cursor's sector and move. */
  method SeekEnd(fp: File, rest: nat, bcs: nat, ghost k: nat)
    requires fp.Core() && AtCluster(fp.fs.geo, fp.chain, fp.fptr, fp.clust, k) && 0 < rest <= bcs
    requires bcs == fp.fs.geo.csize * SS && fp.fptr + rest < DWORDS
    modifies fp`fptr, fp`dirty, fp`log, fp`dsect, fp.buf, fp.fs`disk
    ensures fp.Sound() && fp.Core() && fp.fptr == old(fp.fptr) + rest
    ensures fp.View() == old(fp.View()) && fp.Whole() == old(fp.Whole()) && (fp.dirty ==> old(fp.dirty))
    ensures k + 1 == |fp.chain| && rest == bcs ==> fp.fptr == |fp.Whole()|
  {
    hide *;
    CoreFacts(fp);
    WholeIs(fp);
    ghost var g := fp.fs.geo;
    AtClusterFacts(g, fp.chain, fp.fptr, fp.clust, k);
    InsideCluster(g, fp.chain, fp.fptr, fp.clust, k, rest, bcs);
    PositionedAt(g, fp.chain, fp.fptr, fp.fsize, fp.fptr + rest);
    if Inside(rest) {
      SeekSector(g, fp.chain, fp.fptr, fp.clust, k, rest, bcs);
      var nsect := SeekSectorNumber(fp.fs.geo, fp.clust, rest);
      FillBuf(fp, nsect, Sec(fp.fptr + rest));
      CoreFacts(fp);
    }
    BufferedSeek(g, fp.fat, fp.chain, fp.log, fp.fptr, fp.fptr + rest, fp.dsect, fp.dirty, fp.buf[..]);
    MoveTo(fp, fp.fptr + rest);
    SoundIntro(fp);
    WholeIs(fp);
  }

  /** The cluster the byte before the cursor is in, as a place to start from. */
  lemma AtCurrent(g: Geometry, f: seq<nat>, sclust: nat, ch: seq<nat>, i: nat, clst: nat, p: nat)
    requires g.Valid() && |f| == g.nFatent && ChainOf(f, sclust, ch) && Holds(g, ch, i, clst)
    requires p == ClusterPos(g, ClusterOf(g, i))
    ensures AtCluster(g, ch, p, clst, ClusterOf(g, i))
  {
  }

  lemma AtFirst(g: Geometry, f: seq<nat>, sclust: nat, ch: seq<nat>)
    requires |f| == g.nFatent && ChainOf(f, sclust, ch) && sclust != 0
    ensures AtCluster(g, ch, 0, sclust, 0)
  {
  }

  lemma StartBefore(g: Geometry, a: nat, b: nat)
    requires g.Valid() && ClusterOf(g, a) >= ClusterOf(g, b)
    ensures ClusterPos(g, ClusterOf(g, b)) <= a
  {
    var k, j := Locate(g, a / SS);
    if ClusterOf(g, b) < k { SpanOrder(ClusterOf(g, b), k, g.csize); }
  }

  lemma EmptyChain(g: Geometry, f: seq<nat>, sclust: nat, ch: seq<nat>)
    requires ChainOf(f, sclust, ch)
    ensures sclust == 0 <==> ch == []
    ensures ch == [] ==> Span(|ch|, g.csize) * SS == 0 && From(ch, 0, 0)
  {
  }

  /** The first cluster, which an empty file gets now. */
  method SeekFirst(fp: File) returns (clst: nat)
    requires fp.Core() && fp.fptr == 0 && (!fp.canWrite ==> fp.sclust != 0)
    modifies fp`sclust, fp`chain, fp`fat, fp`log, fp`clust
    modifies fp.fs`disk, fp.fs`winsect, fp.fs`wflag, fp.fs`fsiFlag, fp.fs`lastClust, fp.fs`freeClust, fp.fs.win
    ensures fp.Core() && SameData(fp.fs.geo, old(fp.View()), fp.View()) && old(fp.Whole()) <= fp.Whole()
    ensures Stretched(old(fp.fat), old(fp.chain), fp.fat, fp.chain) && (!fp.canWrite ==> fp.Whole() == old(fp.Whole()) && fp.View() == old(fp.View()))
    ensures Quiet(old(Sight(fp)), Sight(fp)) && fp.clust == clst
    ensures clst == 0 ==> fp.canWrite && Free(fp.fat) == 0 && |fp.Whole()| == 0 && fp.chain == old(fp.chain)
    ensures clst != 0 ==> AtCluster(fp.fs.geo, fp.chain, 0, clst, 0)
  {
    hide *;
    CoreFacts(fp);
    WholeIs(fp);
    SightIs(fp);
    ghost var g, s, f, ch := fp.fs.geo, Sight(fp), fp.fat, fp.chain;
    SameDataRefl(g, fp.View());
    PrefixRefl(fp.Whole());
    StretchedRefl(f, ch);
    EmptyChain(g, f, fp.sclust, ch);
    clst := fp.sclust;
    if clst == 0 {
      clst := Grow(fp, 0, 0);
      GrownByZero(ch, fp.chain, clst);
      CoreFacts(fp);
    }
    fp.clust := clst;
    if clst != 0 { AtFirst(g, fp.fat, fp.sclust, fp.chain); }
    StretchedFacts(f, ch, fp.fat, fp.chain);
    SightIs(fp);
    QuietWhen(s, Sight(fp));
  }

  lemma GrownByZero(ch: seq<nat>, ch': seq<nat>, r: nat)
    requires GrownBy(ch, ch', 0, 0, r)
    ensures r == 0 ==> ch' == ch
  {
  }

  /** Where f_lseek starts to walk: the current cluster for a target in it or behind it, else the first one. */
  method SeekStart(fp: File, ifptr: nat, ofs: nat, bcs: nat) returns (clst: nat, rest: nat, ghost k: nat)
    requires fp.Core() && fp.fptr == 0 && (ifptr > 0 ==> Holds(fp.fs.geo, fp.chain, ifptr - 1, fp.clust))
    requires 0 < ofs < DWORDS && (!fp.canWrite ==> ofs <= fp.fsize) && bcs == fp.fs.geo.csize * SS
    modifies fp`sclust, fp`chain, fp`fat, fp`log, fp`fptr, fp`clust
    modifies fp.fs`disk, fp.fs`winsect, fp.fs`wflag, fp.fs`fsiFlag, fp.fs`lastClust, fp.fs`freeClust, fp.fs.win
    ensures fp.Core() && SameData(fp.fs.geo, old(fp.View()), fp.View()) && old(fp.Whole()) <= fp.Whole()
    ensures Stretched(old(fp.fat), old(fp.chain), fp.fat, fp.chain) && (!fp.canWrite ==> fp.Whole() == old(fp.Whole()) && fp.View() == old(fp.View()))
    ensures Quiet(old(Sight(fp)), Sight(fp))
    ensures clst == 0 ==> fp.canWrite && Free(fp.fat) == 0 && fp.fptr == 0 == |fp.Whole()| && fp.chain == old(fp.chain)
    ensures clst != 0 ==> AtCluster(fp.fs.geo, fp.chain, fp.fptr, clst, k) && fp.clust == clst
    ensures clst != 0 ==> rest > 0 && fp.fptr + rest == ofs
  {
    hide *;
    CoreFacts(fp);
    ghost var g, v, w, f, ch, s := fp.fs.geo, fp.View(), fp.Whole(), fp.fat, fp.chain, Sight(fp);
    SightIs(fp);
    SameDataRefl(g, v);
    PrefixRefl(w);
    StretchedRefl(fp.fat, ch);
    EmptyChain(g, fp.fat, fp.sclust, ch);
    k, rest := 0, ofs;
    var later := false;
    if ifptr > 0 {
      later := SameOrLater(fp.fs.geo, ofs - 1, ifptr - 1, bcs);
    }
    if later {
      var p := ClusterStart(fp.fs.geo, ifptr - 1, bcs);
      StartBefore(g, ofs - 1, ifptr - 1);
      k := ClusterOf(g, ifptr - 1);
      AtCurrent(g, fp.fat, fp.sclust, ch, ifptr - 1, fp.clust, p);
      clst := fp.clust;
      GoTo(fp, p, clst, k);
      rest := ofs - p;
      SightIs(fp);
      QuietWhen(s, Sight(fp));
    } else {
      NeedsFirst(g, fp.fat, fp.sclust, ch, fp.fsize);
      clst := SeekFirst(fp);
    }
  }

  lemma NeedsFirst(g: Geometry, f: seq<nat>, sclust: nat, ch: seq<nat>, size: nat)
    requires ChainOf(f, sclust, ch) && size <= Span(|ch|, g.csize) * SS
    ensures size > 0 ==> sclust != 0
  {
  }

  method ClusterBytes(g: Geometry) returns (bcs: nat)
    requires g.Valid()
    ensures bcs == g.csize * SS && bcs > 0
  {
    bcs := g.csize * SS;
  }

  lemma AtStart(g: Geometry, f: seq<nat>, ch: seq<nat>, d: seq<Sector>, p: nat, dsect: nat, dirty: bool, buf: seq<byte>)
    requires Buffered(g, f, ch, d, p, dsect, dirty, buf)
    ensures Buffered(g, f, ch, d, 0, dsect, dirty, buf)
  {
  }

  /** From a cluster of the chain on: follow or stretch the chain, then move inside the last cluster reached. */
  method SeekWalk(fp: File, start: nat, ofs: nat, bcs: nat, ghost k0: nat)
    requires fp.Core() && AtCluster(fp.fs.geo, fp.chain, fp.fptr, start, k0) && fp.clust == start
    requires 0 < ofs && fp.fptr + ofs < DWORDS && bcs > 0
    requires bcs == fp.fs.geo.csize * SS && (!fp.canWrite ==> fp.fptr + ofs <= fp.fsize)
    modifies fp`sclust, fp`chain, fp`fat, fp`log, fp`fptr, fp`clust, fp`dirty, fp`dsect, fp.buf
    modifies fp.fs`disk, fp.fs`winsect, fp.fs`wflag, fp.fs`fsiFlag, fp.fs`lastClust, fp.fs`freeClust, fp.fs.win
    ensures fp.Sound() && fp.Core() && (fp.dirty ==> old(fp.dirty))
    ensures SameData(fp.fs.geo, old(fp.View()), fp.View()) && old(fp.Whole()) <= fp.Whole()
    ensures Stretched(old(fp.fat), old(fp.chain), fp.fat, fp.chain) && (!fp.canWrite ==> fp.Whole() == old(fp.Whole()) && fp.View() == old(fp.View()))
    ensures Quiet(old(Sight(fp)), Sight(fp)) && fp.fptr > old(fp.fptr)
    ensures fp.chain != old(fp.chain) ==> fp.fptr > |old(fp.Whole())|
    ensures fp.fptr == old(fp.fptr) + ofs || (fp.canWrite && fp.fptr < old(fp.fptr) + ofs && Free(fp.fat) == 0 && fp.fptr == |fp.Whole()|)
  {
    hide *;
    ghost var s := Sight(fp);
    SightIs(fp);
    var clst, rest, k := SeekLoop(fp, start, ofs, bcs, k0);
    SightIs(fp);
    ghost var s1 := Sight(fp);
    QuietFacts(s, s1);
    SeekEnd(fp, rest, bcs, k);
    SightIs(fp);
    QuietWhen(s1, Sight(fp));
    QuietTrans(s, s1, Sight(fp));
  }

  /** From the start of the file to ofs; ifptr is where the cursor was. */
  method SeekForward(fp: File, ifptr: nat, ofs: nat)
    requires fp.Core() && fp.fptr == 0 && (ifptr > 0 ==> Holds(fp.fs.geo, fp.chain, ifptr - 1, fp.clust))
    requires 0 < ofs < DWORDS && (!fp.canWrite ==> ofs <= fp.fsize)
    modifies fp`sclust, fp`chain, fp`fat, fp`log, fp`fptr, fp`clust, fp`dirty, fp`dsect, fp.buf
    modifies fp.fs`disk, fp.fs`winsect, fp.fs`wflag, fp.fs`fsiFlag, fp.fs`lastClust, fp.fs`freeClust, fp.fs.win
    ensures fp.Sound() && fp.Core() && (fp.dirty ==> old(fp.dirty))
    ensures SameData(fp.fs.geo, old(fp.View()), fp.View()) && old(fp.Whole()) <= fp.Whole()
    ensures Stretched(old(fp.fat), old(fp.chain), fp.fat, fp.chain) && (!fp.canWrite ==> fp.Whole() == old(fp.Whole()) && fp.View() == old(fp.View()))
    ensures fp.chain == old(fp.chain) ==> fp.View() == old(fp.View()) && fp.fat == old(fp.fat) && (fp.fs.wflag ==> old(fp.fs.wflag))
    ensures fp.chain != old(fp.chain) ==> fp.fptr > |old(fp.Whole())|
    ensures fp.fptr == ofs || (fp.canWrite && fp.fptr < ofs && Free(fp.fat) == 0 && fp.fptr == |fp.Whole()|)
  {
    hide *;
    CoreFacts(fp);
    ghost var g, v, w, f, ch, s0 := fp.fs.geo, fp.View(), fp.Whole(), fp.fat, fp.chain, Sight(fp);
    SightIs(fp);
    var bcs := ClusterBytes(fp.fs.geo);
    var clst, rest, k := SeekStart(fp, ifptr, ofs, bcs);
    ghost var v1, w1, f1, ch1, s1 := fp.View(), fp.Whole(), fp.fat, fp.chain, Sight(fp);
    SightIs(fp);
    QuietFacts(s0, s1);
    if clst == 0 {
      SoundIntro(fp);
      return;
    }
    SeekWalk(fp, clst, rest, bcs, k);
    SameDataTrans(g, v, v1, fp.View());
    PrefixTrans(w, w1, fp.Whole());
    StretchedTrans(f, ch, f1, ch1, fp.fat, fp.chain);
    QuietTrans(s0, s1, Sight(fp));
    QuietFacts(s0, Sight(fp));
    SightIs(fp);
  }

  /** Everything f_lseek does before it looks at the file size. */
  method SeekTo(fp: File, ofs: nat)
    requires fp.Sound() && ofs < DWORDS && (!fp.canWrite ==> ofs <= fp.fsize)
    modifies fp`sclust, fp`chain, fp`fat, fp`log, fp`fptr, fp`clust, fp`dirty, fp`dsect, fp.buf
    modifies fp.fs`disk, fp.fs`winsect, fp.fs`wflag, fp.fs`fsiFlag, fp.fs`lastClust, fp.fs`freeClust, fp.fs.win
    ensures fp.Sound() && fp.Core() && (fp.dirty ==> old(fp.dirty))
    ensures SameData(fp.fs.geo, old(fp.View()), fp.View()) && old(fp.Whole()) <= fp.Whole()
    ensures Stretched(old(fp.fat), old(fp.chain), fp.fat, fp.chain) && (!fp.canWrite ==> fp.Whole() == old(fp.Whole()) && fp.View() == old(fp.View()))
    ensures fp.chain == old(fp.chain) ==> fp.View() == old(fp.View()) && fp.fat == old(fp.fat) && (fp.fs.wflag ==> old(fp.fs.wflag))
    ensures fp.chain != old(fp.chain) ==> fp.fptr > |old(fp.Whole())|
    ensures ofs == 0 ==> fp.dirty == old(fp.dirty)
    ensures fp.fptr == ofs || (fp.canWrite && fp.fptr < ofs && Free(fp.fat) == 0 && fp.fptr == |fp.Whole()|)
  {
    hide *;
    SoundFacts(fp);
    CoreFacts(fp);
    SameDataRefl(fp.fs.geo, fp.View());
    PrefixRefl(fp.Whole());
    StretchedRefl(fp.fat, fp.chain);
    var ifptr := fp.fptr;
    PositionedAt(fp.fs.geo, fp.chain, fp.fptr, fp.fsize, 0);
    AtStart(fp.fs.geo, fp.fat, fp.chain, fp.log, fp.fptr, fp.dsect, fp.dirty, fp.buf[..]);
    MoveTo(fp, 0);
    if ofs == 0 {
      SoundIntro(fp);
    } else {
      SeekForward(fp, ifptr, ofs);
    }
  }

  lemma PrefixTake<T>(a: seq<T>, b: seq<T>, n: nat, m: nat)
    requires a <= b && n <= m <= |b| && n <= |a|
    ensures a[..n] <= b[..m]
  {
  }

  /** f_lseek: the cursor goes to ofs. A read-only file stops at its end; a writable one grows, and its old
      bytes stay; if the disk gets full the file ends where its last cluster ends. */
  method Seek(fp: File, ofs: nat) returns (res: FResult)
    requires fp.Valid() && ofs < DWORDS
    modifies fp`sclust, fp`chain, fp`fat, fp`log, fp`fptr, fp`clust, fp`dirty, fp`dsect, fp.buf, fp`fsize, fp`written
    modifies fp.fs`disk, fp.fs`winsect, fp.fs`wflag, fp.fs`fsiFlag, fp.fs`lastClust, fp.fs`freeClust, fp.fs.win
    ensures fp.Valid() && fp.Core()
    ensures res == if fp.failed then FR_INT_ERR else FR_OK
    ensures fp.failed ==> unchanged(fp) && unchanged(fp.buf) && unchanged(fp.fs) && unchanged(fp.fs.win)
    ensures !fp.failed && !fp.canWrite ==> fp.fptr == if ofs <= old(fp.fsize) then ofs else old(fp.fsize)
    ensures !fp.failed && fp.canWrite ==> fp.fptr == ofs || (fp.fptr < ofs && Free(fp.fat) == 0 && fp.fptr == |fp.Whole()|)
    ensures fp.fsize == if fp.fptr > old(fp.fsize) then fp.fptr else old(fp.fsize)
    ensures old(fp.Contents()) <= fp.Contents() && Stretched(old(fp.fat), old(fp.chain), fp.fat, fp.chain)
    ensures SameData(fp.fs.geo, old(fp.View()), fp.View())
    ensures fp.written <==> old(fp.written) || fp.fptr > old(fp.fsize)
    ensures fp.chain == old(fp.chain) ==> fp.View() == old(fp.View()) && fp.fat == old(fp.fat) && (fp.fs.wflag ==> old(fp.fs.wflag))
    ensures fp.chain != old(fp.chain) ==> fp.fptr > old(fp.fsize)
    ensures ofs == 0 ==> fp.dirty == old(fp.dirty)
  {
    hide *;
    ValidFacts(fp);
    CoreFacts(fp);
    ghost var w := fp.Whole();
    if fp.failed {
      PrefixRefl(fp.Contents());
      StretchedRefl(fp.fat, fp.chain);
      SameDataRefl(fp.fs.geo, fp.View());
      return FR_INT_ERR;
    }
    res := FR_OK;
    var to := ofs;
    if ofs > fp.fsize && !fp.canWrite { to := fp.fsize; }
    SeekTo(fp, to);
    if fp.fptr > fp.fsize {
      UpdateSize(fp);
    } else {
      ValidIntro(fp);
    }
    ValidFacts(fp);
    PrefixTake(w, fp.Whole(), old(fp.fsize), fp.fsize);
  }
}
