/** dir_find and dir_register through the sector window. */
module DirOps {
  import opened Layout
  import opened Bits
  import opened ByteOrder
  import opened DirEntry
  import opened Window
  import opened FatAccess
  import opened Chains
  import opened FileMap
  import opened FileSpec
  import opened FileGrow
  import opened LongNames
  import opened DirTable
  import opened DirNames

  /** Indices are WORDs: entries from 65536 on are out of reach. */
  function Reachable(n: nat): nat { if n < 0x1_0000 then n else 0x1_0000 }

  lemma HomeOnDisk(g: Geometry, f: seq<nat>, sclust: nat, ch: seq<nat>, d: seq<Sector>)
    requires IsTable(g, f, sclust, ch) && Fits(g, d)
    ensures Clusters(g, ch) && forall q :: 0 <= q < |Home(g, sclust, ch)| ==> g.RootBase() <= Home(g, sclust, ch)[q] < |d|
    ensures Distinct(Home(g, sclust, ch))
  {
    if First(g, sclust) != 0 {
      ChainSectors(g, f, First(g, sclust), ch, d);
      forall q | 0 <= q < |Sectors(g, ch)| ensures g.RootBase() <= Sectors(g, ch)[q] { SectorOwner(g, ch, q); }
    }
  }

  function SlotOf(s: Sector, o: nat): Slot
    requires o + SZ_DIR <= SS
  {
    s[o..o + SZ_DIR]
  }

  /** The entries of a directory, on the disk d. */
  ghost function Entries(d: seq<Sector>, home: seq<nat>): (t: seq<Slot>)
    requires OnDisk(d, home)
    ensures |t| == Reachable(16 * |home|)
    ensures forall k :: 0 <= k < |t| ==> SecOf(k) < |home| && t[k] == SlotOf(d[home[SecOf(k)]], OfsOf(k))
  {
    seq(Reachable(16 * |home|), k requires 0 <= k < Reachable(16 * |home|) => SlotOf(d[home[SecOf(k)]], OfsOf(k)))
  }

  /** Rewriting one entry in its sector. */
  lemma EntriesUpdate(d: seq<Sector>, home: seq<nat>, k: nat, s: Sector)
    requires OnDisk(d, home) && Distinct(home) && k < Reachable(16 * |home|) && SecOf(k) < |home|
    requires Only(d[home[SecOf(k)]], s, OfsOf(k), SZ_DIR)
    ensures OnDisk(d[home[SecOf(k)] := s], home)
    ensures Entries(d[home[SecOf(k)] := s], home) == Entries(d, home)[k := SlotOf(s, OfsOf(k))]
  {
    hide Entries, OfsOf, SecOf, SlotOf;
    var x := home[SecOf(k)];
    var e := d[x := s];
    var t, t' := Entries(d, home), Entries(e, home);
    forall j | 0 <= j < |t| && j != k ensures t'[j] == t[j] {
      if SecOf(j) == SecOf(k) {
        SlotApart(j, k);
        SlotKept(d[x], s, OfsOf(k), OfsOf(j));
      } else {
        assert home[SecOf(j)] != x;
      }
    }
  }

  lemma SlotApart(j: nat, k: nat)
    requires j != k && SecOf(j) == SecOf(k)
    ensures OfsOf(j) + SZ_DIR <= OfsOf(k) || OfsOf(k) + SZ_DIR <= OfsOf(j)
  {
  }

  lemma SlotKept(a: Sector, b: Sector, o: nat, p: nat)
    requires Only(a, b, o, SZ_DIR) && p + SZ_DIR <= SS && o + SZ_DIR <= SS && (p + SZ_DIR <= o || o + SZ_DIR <= p)
    ensures SlotOf(b, p) == SlotOf(a, p)
  {
  }

  ghost function Listing(dj: Directory): (t: seq<Slot>)
    requires dj.Table()
    reads dj`chain, dj`log, dj.fs, dj.fs.win
  {
    TableFacts(dj);
    HomeOnDisk(dj.fs.geo, Fat(dj.fs.geo, dj.log), dj.sclust, dj.chain, dj.log);
    Entries(dj.log, Home(dj.fs.geo, dj.sclust, dj.chain))
  }

  lemma ListingIs(dj: Directory)
    requires dj.Table()
    ensures Clusters(dj.fs.geo, dj.chain) && OnDisk(dj.log, Home(dj.fs.geo, dj.sclust, dj.chain))
    ensures Distinct(Home(dj.fs.geo, dj.sclust, dj.chain))
    ensures Listing(dj) == Entries(dj.log, Home(dj.fs.geo, dj.sclust, dj.chain))
    ensures |Listing(dj)| == Reachable(Capacity(dj.fs.geo, dj.sclust, dj.chain))
    ensures |Listing(dj)| <= 0x1_0000 && (|Listing(dj)| < 0x1_0000 ==> |Listing(dj)| == Capacity(dj.fs.geo, dj.sclust, dj.chain))
  {
    TableFacts(dj);
    HomeOnDisk(dj.fs.geo, Fat(dj.fs.geo, dj.log), dj.sclust, dj.chain, dj.log);
  }

  /** The entry the object points at. */
  lemma PointedAt(dj: Directory, k: nat)
    requires dj.Table() && dj.Points(k)
    ensures k < |Listing(dj)| && 0 < dj.sect < |dj.log| && dj.fs.geo.RootBase() <= dj.sect && dj.ofs + SZ_DIR <= SS && dj.ofs == OfsOf(k)
    ensures Listing(dj)[k] == SlotOf(dj.log[dj.sect], dj.ofs)
    ensures SecOf(k) < |Home(dj.fs.geo, dj.sclust, dj.chain)| && dj.sect == Home(dj.fs.geo, dj.sclust, dj.chain)[SecOf(k)]
  {
    hide Entries, Home, SlotOf, IsTable;
    TableFacts(dj);
    PointsFacts(dj, k);
    ListingIs(dj);
    HomeOnDisk(dj.fs.geo, Fat(dj.fs.geo, dj.log), dj.sclust, dj.chain, dj.log);
    SecBound(k, |Home(dj.fs.geo, dj.sclust, dj.chain)|);
    RootPositive(dj.fs.geo);
  }

  /** move_window to the entry's sector. */
  method Load(dj: Directory, ghost k: nat)
    requires dj.Table() && dj.Points(k)
    modifies dj.fs`disk, dj.fs`winsect, dj.fs`wflag, dj.fs.win
    ensures dj.Table() && Listing(dj) == old(Listing(dj)) && k < |Listing(dj)| && dj.ofs + SZ_DIR <= SS == dj.fs.win.Length
    ensures dj.fs.winsect == dj.sect && dj.fs.win[..] == dj.log[dj.sect] && dj.sect < |dj.log|
    ensures dj.fs.win[dj.ofs..dj.ofs + SZ_DIR] == Listing(dj)[k]
  {
    hide *;
    TableFacts(dj);
    ListingIs(dj);
    PointedAt(dj, k);
    MoveWindow(dj.fs, dj.sect);
    VolumeFits(dj.fs);
    TableIntro(dj);
    ListingIs(dj);
    SlotIs(dj.log[dj.sect], dj.ofs, dj.fs.win);
  }

  lemma SlotIs(s: Sector, o: nat, win: array<byte>)
    requires win.Length == SS && win[..] == s && o + SZ_DIR <= SS
    ensures win[o..o + SZ_DIR] == SlotOf(s, o)
  {
    assert win[o..o + SZ_DIR] == win[..][o..o + SZ_DIR];
  }

  /** The body of dir_find's loop. */
  method LookAt(w: Wanted, up: nat -> nat, e: Slot, k: nat, st: Scan) returns (v: Verdict)
    requires Usable(w)
    ensures v == Look(w, up, e, k, st)
  {
    hide And, AndNot, Cmp, SumSfn;
    var c := At(e, 0);
    if c == 0 { return Miss; }
    var a := And(At(e, LDIR_ATTR), AM_MASK);
    var ord, sum, idx := st.ord, st.sum, st.lfnIdx;
    if c == DDE as nat || (And(a, AM_VOL) != 0 && a != 0x0F) {
      ord := 0xFF;
    } else if a == 0x0F {
      if w.lfn.Some? {
        if And(c, LLE) != 0 {
          sum := At(e, LDIR_CHKSUM);
          c := AndNot(c, LLE);
          ord := c;
          idx := k;
        }
        var m := c == ord && sum == At(e, LDIR_CHKSUM);
        if m { m := CmpLfn(w.lfn.value, e, up); }
        ord := if m && ord > 0 then ord - 1 else 0xFF;
      }
    } else {
      var s := SumOfName(e);
      if ord == 0 && sum == s { return Hit(k, idx); }
      ord, idx := 0xFF, 0xFFFF;
      if !w.loss && e[..11] == w.fn { return Hit(k, idx); }
    }
    v := Go(Scan(ord, sum, idx));
  }

  lemma FindStep(w: Wanted, up: nat -> nat, t: seq<Slot>, k: nat, st: Scan, v: Verdict)
    requires Usable(w) && k < |t| && v == Look(w, up, t[k], k, st)
    ensures v.Go? ==> FindFrom(w, up, t, k, st) == FindFrom(w, up, t, k + 1, v.scan)
    ensures !v.Go? ==> FindFrom(w, up, t, k, st) == v
    ensures v.Hit? ==> v.k == k
  {
  }

  lemma FindEnds(w: Wanted, up: nat -> nat, t: seq<Slot>, st: Scan)
    requires Usable(w)
    ensures FindFrom(w, up, t, |t|, st) == Miss && Find(w, up, t) == FindFrom(w, up, t, 0, FRESH)
  {
  }

  /** dir_next without stretching, in terms of the listing. */
  method NextListed(dj: Directory) returns (res: FResult)
    requires dj.Table() && dj.Points(dj.index)
    modifies dj`index, dj`clust, dj`sect, dj`ofs, dj`chain, dj`log
    modifies dj.fs`disk, dj.fs`winsect, dj.fs`wflag, dj.fs`fsiFlag, dj.fs`lastClust, dj.fs`freeClust, dj.fs.win
    ensures dj.Table() && dj.chain == old(dj.chain) && dj.log == old(dj.log) && Listing(dj) == old(Listing(dj))
    ensures res == if old(dj.index) + 1 < |Listing(dj)| then FR_OK else FR_NO_FILE
    ensures old(dj.index) < |Listing(dj)| && (res == FR_OK ==> dj.Points(dj.index) && dj.index == old(dj.index) + 1)
  {
    hide *;
    TableFacts(dj);
    ListingIs(dj);
    PointedAt(dj, dj.index);
    ghost var k := dj.index;
    SizeIs(Capacity(dj.fs.geo, dj.sclust, dj.chain));
    res := Next(dj, false);
    ListingIs(dj);
    if res == FR_OK { PointsFacts(dj, k + 1); }
  }

  /** dir_find */
  method DirFind(dj: Directory, w: Wanted, up: nat -> nat) returns (res: FResult, lfnIdx: nat)
    requires dj.Table() && Usable(w)
    modifies dj`index, dj`clust, dj`sect, dj`ofs, dj`chain, dj`log
    modifies dj.fs`disk, dj.fs`winsect, dj.fs`wflag, dj.fs`fsiFlag, dj.fs`lastClust, dj.fs`freeClust, dj.fs.win
    ensures dj.Table() && dj.chain == old(dj.chain) && dj.log == old(dj.log) && Listing(dj) == old(Listing(dj))
    ensures |Listing(dj)| == 0 ==> res == FR_INT_ERR
    ensures |Listing(dj)| > 0 ==> (res == FR_NO_FILE <==> Find(w, up, Listing(dj)) == Miss) && (res == FR_OK || res == FR_NO_FILE)
    ensures res == FR_OK ==> Find(w, up, Listing(dj)) == Hit(dj.index, lfnIdx) && dj.Points(dj.index)
  {
    hide *;
    lfnIdx := 0xFFFF;
    StartNotBad(dj);
    ListingIs(dj);
    TableFacts(dj);
    ghost var t, ch, log := Listing(dj), dj.chain, dj.log;
    res := Sdi(dj, 0);
    ListingIs(dj);
    FindEnds(w, up, t, FRESH);
    SizeIs(Capacity(dj.fs.geo, dj.sclust, ch));
    if res != FR_OK { return; }
    PointsFacts(dj, 0);
    var st := FRESH;
    while true
      invariant dj.Table() && Listing(dj) == t && dj.chain == ch && dj.log == log && dj.Points(dj.index) && dj.index < |t|
      invariant Find(w, up, t) == FindFrom(w, up, t, dj.index, st)
      decreases |t| - dj.index
    {
      Load(dj, dj.index);
      var v := LookAt(w, up, dj.fs.win[dj.ofs..dj.ofs + SZ_DIR], dj.index, st);
      FindStep(w, up, t, dj.index, st, v);
      match v {
        case Hit(k, idx) => return FR_OK, idx;
        case Miss => return FR_NO_FILE, lfnIdx;
        case Go(st') => st := st';
      }
      FindEnds(w, up, t, st);
      res := NextListed(dj);
      if res != FR_OK { return; }
    }
  }

  lemma SizeIs(n: nat)
    ensures Reachable(n) <= n && Reachable(n) <= 0x1_0000 && (n < 0x1_0000 ==> Reachable(n) == n) && (n >= 0x1_0000 ==> Reachable(n) == 0x1_0000)
  {
  }

  lemma StartNotBad(dj: Directory)
    requires dj.Table()
    ensures dj.fs.Valid() && !BadStart(dj.fs.geo, dj.sclust)
  {
  }

  function ZeroSlot(): Slot { seq(SZ_DIR, _ => 0) }

  /** b is a with unused entries added. */
  ghost predicate Extended(a: seq<Slot>, b: seq<Slot>) {
    |a| <= |b| && b[..|a|] == a && forall j :: |a| <= j < |b| ==> b[j] == ZeroSlot()
  }

  lemma ExtendedRefl(a: seq<Slot>)
    ensures Extended(a, a)
  {
  }

  lemma ExtendedTrans(a: seq<Slot>, b: seq<Slot>, c: seq<Slot>)
    requires Extended(a, b) && Extended(b, c)
    ensures Extended(a, c)
  {
    assert c[..|a|] == c[..|b|][..|a|];
    forall j | |a| <= j < |c| ensures c[j] == ZeroSlot() {
      if j < |b| { assert c[j] == c[..|b|][j]; }
    }
  }

  lemma ExtendedEnds(a: seq<Slot>, b: seq<Slot>)
    requires Extended(a, b) && Ended(a)
    ensures Ended(b)
  {
    forall i, j | 0 <= i < j < |b| && b[i][0] == 0 ensures b[j][0] == 0 {
      if j < |a| { assert b[..|a|][i] == b[i] && b[..|a|][j] == b[j]; }
    }
  }

  /** The sectors of a table that took cluster r. */
  lemma HomeGrown(g: Geometry, f: seq<nat>, f': seq<nat>, sclust: nat, ch: seq<nat>, r: nat)
    requires IsTable(g, f, sclust, ch) && First(g, sclust) != 0 && Grown(g, f, f', ch, r, First(g, sclust)) && Clusters(g, ch)
    ensures Clusters(g, ch + [r]) && g.Cluster(r) && Home(g, sclust, ch + [r]) == Home(g, sclust, ch) + Run(g.Base(r), g.csize)
    ensures forall q :: 0 <= q < |Home(g, sclust, ch)| ==> !g.InCluster(r, Home(g, sclust, ch)[q])
  {
    SectorsAppend(g, ch, r);
    ChainEntries(f, ch);
    forall q | 0 <= q < |Sectors(g, ch)| ensures !g.InCluster(r, Sectors(g, ch)[q]) {
      SectorOwner(g, ch, q);
      var c := ch[Quot(q, g.csize)];
      assert c in ch;
      if g.InCluster(r, Sectors(g, ch)[q]) { ClustersDisjoint(g, c, r, Sectors(g, ch)[q]); }
    }
  }

  lemma EntriesGrown(g: Geometry, d: seq<Sector>, e: seq<Sector>, home: seq<nat>, r: nat)
    requires g.Valid() && OnDisk(d, home) && Cleaned(g, d, e, r) && g.Cluster(r) && OnDisk(e, home + Run(g.Base(r), g.csize))
    requires forall q :: 0 <= q < |home| ==> g.RootBase() <= home[q] && !g.InCluster(r, home[q])
    ensures Extended(Entries(d, home), Entries(e, home + Run(g.Base(r), g.csize)))
  {
    hide Entries, SecOf, OfsOf, SlotOf, ZeroSector, ZeroSlot;
    BaseInside(g, r);
    var big := home + Run(g.Base(r), g.csize);
    var t, t' := Entries(d, home), Entries(e, big);
    ReachableOrder(16 * |home|, 16 * |big|);
    forall k | 0 <= k < |t| ensures t'[k] == t[k] {
      assert big[SecOf(k)] == home[SecOf(k)];
    }
    assert t'[..|t|] == t;
    forall k | |t| <= k < |t'| ensures t'[k] == ZeroSlot() {
      BeyondHome(k, |home|, |big|);
      var s := big[SecOf(k)];
      assert s == g.Base(r) + (SecOf(k) - |home|);
      ZeroSlotOf(OfsOf(k));
    }
  }

  lemma ReachableOrder(a: nat, b: nat)
    requires a <= b
    ensures Reachable(a) <= Reachable(b)
  {
  }

  lemma BeyondHome(k: nat, n: nat, m: nat)
    requires Reachable(16 * n) <= k < Reachable(16 * m)
    ensures n <= SecOf(k) < m
  {
  }

  lemma ZeroSlotOf(o: nat)
    requires o + SZ_DIR <= SS
    ensures SlotOf(ZeroSector(), o) == ZeroSlot()
  {
  }

  /** The disk d, with the table's clusters ch, became d': outside of the FAT only the table's own sectors changed, and in
      it only free entries and those of the table. */
  ghost predicate Beside(g: Geometry, sclust: nat, ch: seq<nat>, d: seq<Sector>, ch': seq<nat>, d': seq<Sector>) {
    && Fits(g, d) && Fits(g, d') && |d'| == |d| && Clusters(g, ch) && Clusters(g, ch')
    && Stretched(Fat(g, d), ch, Fat(g, d'), ch')
    && (forall s :: 0 <= s < |d| && g.Elsewhere(s) && s !in Home(g, sclust, ch') ==> d'[s] == d[s])
  }

  lemma BesideRefl(g: Geometry, sclust: nat, ch: seq<nat>, d: seq<Sector>)
    requires Fits(g, d) && Clusters(g, ch)
    ensures Beside(g, sclust, ch, d, ch, d)
  {
    StretchedRefl(Fat(g, d), ch);
  }

  lemma {:induction false} SectorsGrow(g: Geometry, ch: seq<nat>, ch': seq<nat>)
    requires Clusters(g, ch) && Clusters(g, ch') && ch <= ch'
    ensures Sectors(g, ch) <= Sectors(g, ch')
    decreases |ch'|
  {
    if ch != ch' { SectorsGrow(g, ch, ch'[..|ch'| - 1]); }
  }

  lemma BesideTrans(g: Geometry, sclust: nat, ch: seq<nat>, d: seq<Sector>, ch1: seq<nat>, d1: seq<Sector>, ch2: seq<nat>, d2: seq<Sector>)
    requires Beside(g, sclust, ch, d, ch1, d1) && Beside(g, sclust, ch1, d1, ch2, d2)
    ensures Beside(g, sclust, ch, d, ch2, d2)
  {
    hide Fat, Sectors, Reclaimed;
    ReclaimedTrans(Fat(g, d), ch, Fat(g, d1), ch1, Fat(g, d2), ch2);
    SectorsGrow(g, ch1, ch2);
    assert forall s :: s in Sectors(g, ch1) ==> s in Sectors(g, ch2);
  }

  /** Rewriting a sector of the table. */
  lemma BesideUpdate(g: Geometry, sclust: nat, ch: seq<nat>, d: seq<Sector>, q: nat, x: Sector)
    requires Fits(g, d) && Clusters(g, ch) && q < |Home(g, sclust, ch)| && g.RootBase() <= Home(g, sclust, ch)[q] < |d|
    ensures Beside(g, sclust, ch, d, ch, d[Home(g, sclust, ch)[q] := x])
  {
    hide Fat, Home;
    var s := Home(g, sclust, ch)[q];
    assert s in Home(g, sclust, ch);
    FatKept(g, d, s, x);
    StretchedRefl(Fat(g, d), ch);
  }

  /** Stretching the table. */
  lemma BesideGrown(g: Geometry, sclust: nat, ch: seq<nat>, d: seq<Sector>, r: nat, d': seq<Sector>)
    requires Fits(g, d) && Fits(g, d') && Clusters(g, ch) && First(g, sclust) != 0
    requires Cleaned(g, d, d', r) && Grown(g, Fat(g, d), Fat(g, d'), ch, r, First(g, sclust))
    ensures Beside(g, sclust, ch, d, ch + [r], d')
  {
    hide Fat, Grown, Reclaimed, ZeroSector;
    GrownStretches(g, Fat(g, d), Fat(g, d'), ch, r, First(g, sclust));
    SectorsAppend(g, ch, r);
    forall s: nat | g.InCluster(r, s) ensures s in Sectors(g, ch + [r]) {
      assert Sectors(g, ch + [r])[|Sectors(g, ch)| + (s - g.Base(r))] == s;
    }
  }

  /** Another file keeps its chain and all its bytes. */
  lemma OtherChain(g: Geometry, sclust: nat, ch: seq<nat>, d: seq<Sector>, ch': seq<nat>, d': seq<Sector>, b: seq<nat>)
    requires Beside(g, sclust, ch, d, ch', d') && IsChain(Fat(g, d), b) && Disjoint(b, ch) && Clusters(g, b)
    ensures IsChain(Fat(g, d'), b) && Disjoint(b, ch')
    ensures OnDisk(d, Sectors(g, b)) && OnDisk(d', Sectors(g, b)) && Bytes(d', Sectors(g, b)) == Bytes(d, Sectors(g, b))
  {
    hide Home, Bytes, Fat, Sectors;
    ChainStays(Fat(g, d), ch, Fat(g, d'), ch', b);
    var ss := Sectors(g, b);
    forall q | 0 <= q < |ss| ensures g.RootBase() <= ss[q] < |d| && d'[ss[q]] == d[ss[q]] {
      NotHome(g, sclust, ch', b, q);
    }
    SameBytes(d, d', ss);
  }

  lemma ChainStays(f: seq<nat>, ch: seq<nat>, f': seq<nat>, ch': seq<nat>, b: seq<nat>)
    requires Reclaimed(f, ch, f', ch') && IsChain(f, b) && Disjoint(b, ch)
    ensures IsChain(f', b) && Disjoint(b, ch')
  {
    ChainEntries(f, b);
    assert forall i :: 0 <= i < |b| ==> b[i] in b && f'[b[i]] == f[b[i]];
  }

  lemma SameBytes(d: seq<Sector>, d': seq<Sector>, ss: seq<nat>)
    requires OnDisk(d, ss) && OnDisk(d', ss) && forall q :: 0 <= q < |ss| ==> d'[ss[q]] == d[ss[q]]
    ensures Bytes(d', ss) == Bytes(d, ss)
  {
    var x, y := Bytes(d', ss), Bytes(d, ss);
    assert forall i :: 0 <= i < |x| ==> x[i] == d'[ss[i / SS]][i % SS] == y[i];
  }

  lemma NotHome(g: Geometry, sclust: nat, ch: seq<nat>, b: seq<nat>, q: nat)
    requires g.Valid() && Clusters(g, ch) && Clusters(g, b) && Disjoint(b, ch) && q < |Sectors(g, b)|
    ensures g.RootBase() <= Sectors(g, b)[q] < g.End() && Sectors(g, b)[q] !in Home(g, sclust, ch)
  {
    SectorOwner(g, b, q);
    var s, c := Sectors(g, b)[q], b[Quot(q, g.csize)];
    assert c in b;
    if First(g, sclust) != 0 {
      forall p | 0 <= p < |Sectors(g, ch)| ensures Sectors(g, ch)[p] != s {
        SectorOwner(g, ch, p);
        var e := ch[Quot(p, g.csize)];
        assert e in ch;
        if Sectors(g, ch)[p] == s { ClustersDisjoint(g, c, e, s); }
      }
    } else {
      StaticBelow(g, sclust, ch);
    }
  }

  lemma StaticBelow(g: Geometry, sclust: nat, ch: seq<nat>)
    requires g.Valid() && Clusters(g, ch) && First(g, sclust) == 0
    ensures forall s :: s in Home(g, sclust, ch) ==> s < g.database
  {
  }

  /** dir_next with stretching, in terms of the listing. */
  method Advance(dj: Directory) returns (res: FResult)
    requires dj.Table() && dj.Points(dj.index)
    modifies dj`index, dj`clust, dj`sect, dj`ofs, dj`chain, dj`log
    modifies dj.fs`disk, dj.fs`winsect, dj.fs`wflag, dj.fs`fsiFlag, dj.fs`lastClust, dj.fs`freeClust, dj.fs.win
    ensures dj.Table() && Extended(old(Listing(dj)), Listing(dj))
    ensures Beside(dj.fs.geo, dj.sclust, old(dj.chain), old(dj.log), dj.chain, dj.log)
    ensures res == FR_OK ==> dj.Points(dj.index) && dj.index == old(dj.index) + 1
    ensures res == FR_OK || res == FR_NO_FILE || res == FR_DENIED
    ensures res == FR_DENIED ==> Free(Fat(dj.fs.geo, dj.log)) == 0 && old(dj.index) + 1 == |Listing(dj)|
    ensures res == FR_NO_FILE ==> old(dj.index) + 1 == |Listing(dj)| && (|Listing(dj)| == 0x1_0000 || First(dj.fs.geo, dj.sclust) == 0)
  {
    hide *;
    TableFacts(dj);
    ListingIs(dj);
    ghost var g, f, d, ch, k, t := dj.fs.geo, Fat(dj.fs.geo, dj.log), dj.log, dj.chain, dj.index, Listing(dj);
    HomeOnDisk(g, f, dj.sclust, ch, d);
    ExtendedRefl(t);
    SizeIs(Capacity(g, dj.sclust, ch));
    PointedAt(dj, k);
    BesideRefl(g, dj.sclust, ch, d);
    res := Next(dj, true);
    ListingIs(dj);
    if res == FR_OK {
      PointsFacts(dj, k + 1);
      if k + 1 == Capacity(g, dj.sclust, ch) {
        TableFacts(dj);
        StaticNoFile(g, f, Fat(g, dj.log), dj.sclust, ch, dj.clust);
        HomeGrown(g, f, Fat(g, dj.log), dj.sclust, ch, dj.clust);
        EntriesGrown(g, d, dj.log, Home(g, dj.sclust, ch), dj.clust);
        BesideGrown(g, dj.sclust, ch, d, dj.clust, dj.log);
      }
    }
  }

  lemma StaticNoFile(g: Geometry, f: seq<nat>, f': seq<nat>, sclust: nat, ch: seq<nat>, r: nat)
    requires IsTable(g, f, sclust, ch) && Grown(g, f, f', ch, r, First(g, sclust))
    ensures First(g, sclust) != 0
  {
  }

  /** The last n entries in front of k are blank, and the run starts behind an entry in use. */
  ghost predicate Counting(t: seq<Slot>, k: nat, n: nat) {
    && n <= k <= |t| && (forall j :: k - n <= j < k ==> Blank(t[j]))
    && (k - n > 0 ==> !Blank(t[k - n - 1]))
  }

  lemma CountingStart(t: seq<Slot>)
    ensures Counting(t, 0, 0)
  {
  }

  lemma CountingRange(t: seq<Slot>, k: nat, n: nat)
    requires Counting(t, k, n)
    ensures k <= |t|
  {
  }

  lemma CountingStep(t: seq<Slot>, k: nat, n: nat)
    requires Counting(t, k, n) && k < |t|
    ensures Blank(t[k]) ==> Counting(t, k + 1, n + 1)
    ensures !Blank(t[k]) ==> Counting(t, k + 1, 0)
  {
  }

  lemma CountingExtends(t: seq<Slot>, t': seq<Slot>, k: nat, n: nat)
    requires Counting(t, k, n) && Extended(t, t')
    ensures Counting(t', k, n)
  {
    assert forall j :: 0 <= j < |t| ==> t'[j] == t'[..|t|][j] == t[j];
  }

  lemma CountingEnds(t: seq<Slot>, k: nat, n: nat)
    requires Counting(t, k, n) && n >= 1
    ensures Reservable(t, k - n, n)
  {
  }

  /** ne blank entries from p on. */
  ghost predicate BlankRun(t: seq<Slot>, p: nat, ne: nat) {
    p + ne <= |t| && forall j :: p <= j < p + ne ==> Blank(t[j])
  }

  /** No ne blank entries in a row end at k or before. */
  ghost predicate NoRun(t: seq<Slot>, k: nat, ne: nat) {
    forall p: nat :: p + ne <= k ==> !BlankRun(t, p, ne)
  }

  lemma NoRunStart(t: seq<Slot>, ne: nat)
    requires ne >= 1
    ensures NoRun(t, 0, ne)
  {
  }

  lemma NoRunStep(t: seq<Slot>, k: nat, n: nat, ne: nat)
    requires NoRun(t, k, ne) && k < |t| && Counting(t, k + 1, n) && n < ne
    ensures NoRun(t, k + 1, ne)
  {
    forall p: nat | p + ne <= k + 1 ensures !BlankRun(t, p, ne) {
      if p + ne == k + 1 { assert !Blank(t[k + 1 - n - 1]); }
    }
  }

  lemma NoRunExtends(t: seq<Slot>, t': seq<Slot>, k: nat, ne: nat)
    requires NoRun(t, k, ne) && Extended(t, t') && k <= |t|
    ensures NoRun(t', k, ne)
  {
    assert forall j :: 0 <= j < |t| ==> t'[j] == t'[..|t|][j] == t[j];
    forall p: nat | p + ne <= k ensures !BlankRun(t', p, ne) { assert !BlankRun(t, p, ne); }
  }

  /** The search is at entry k, with n blank ones directly in front of it. */
  ghost predicate Searched(t: seq<Slot>, k: nat, n: nat, ne: nat) {
    n < ne && Counting(t, k, n) && NoRun(t, k, ne)
  }

  lemma SearchedStart(t: seq<Slot>, ne: nat)
    requires ne >= 1
    ensures Searched(t, 0, 0, ne)
  {
    CountingStart(t);
    NoRunStart(t, ne);
  }

  lemma SearchedStep(t: seq<Slot>, k: nat, n: nat, ne: nat)
    requires Searched(t, k, n, ne) && k < |t|
    ensures n <= k
    ensures !Blank(t[k]) ==> Searched(t, k + 1, 0, ne)
    ensures Blank(t[k]) && n + 1 < ne ==> Searched(t, k + 1, n + 1, ne)
    ensures Blank(t[k]) && n + 1 == ne ==> Reservable(t, k - n, ne) && NoRun(t, k - n + ne - 1, ne)
  {
    hide Blank, NoRun;
    CountingStep(t, k, n);
    if !Blank(t[k]) {
      NoRunStep(t, k, 0, ne);
    } else if n + 1 < ne {
      NoRunStep(t, k, n + 1, ne);
    } else {
      CountingEnds(t, k + 1, n + 1);
    }
  }

  lemma SearchedExtends(t: seq<Slot>, t': seq<Slot>, k: nat, n: nat, ne: nat)
    requires Searched(t, k, n, ne) && Extended(t, t')
    ensures Searched(t', k, n, ne) && NoRun(t', k, ne)
  {
    hide Blank, NoRun;
    CountingRange(t, k, n);
    CountingExtends(t, t', k, n);
    NoRunExtends(t, t', k, ne);
  }

  /** There is no room for ne entries: no run of blank ones, and the table has its full size, is a static one, or finds
      the disk full. */
  ghost predicate NoRoom(t: seq<Slot>, ne: nat, static_: bool, full: bool) {
    NoRun(t, |t|, ne) && (|t| == 0x1_0000 || static_ || full)
  }

  lemma NoRoomWhen(t: seq<Slot>, ne: nat, static_: bool, full: bool)
    requires NoRun(t, |t|, ne) && (|t| == 0x1_0000 || static_ || full)
    ensures NoRoom(t, ne, static_, full)
  {
  }

  lemma BlankIs(e: Slot)
    ensures |e| > 0 && (Blank(e) <==> At(e, 0) == 0 || At(e, 0) == 0xE5)
  {
  }

  /** The search of dir_register for ne blank entries in a row: the first ones, or a reason why there is no room. */
  method Reserve(dj: Directory, ne: nat) returns (res: FResult, pos: nat)
    requires dj.Table() && ne >= 1
    modifies dj`index, dj`clust, dj`sect, dj`ofs, dj`chain, dj`log
    modifies dj.fs`disk, dj.fs`winsect, dj.fs`wflag, dj.fs`fsiFlag, dj.fs`lastClust, dj.fs`freeClust, dj.fs.win
    ensures dj.Table() && Extended(old(Listing(dj)), Listing(dj))
    ensures Beside(dj.fs.geo, dj.sclust, old(dj.chain), old(dj.log), dj.chain, dj.log)
    ensures res == FR_OK ==> Reservable(Listing(dj), pos, ne) && dj.Points(pos + ne - 1) && pos < 0x1_0000
    ensures res == FR_OK ==> NoRun(Listing(dj), pos + ne - 1, ne)
    ensures res == FR_DENIED ==> Free(Fat(dj.fs.geo, dj.log)) == 0
    ensures res == FR_DENIED || res == FR_NO_FILE ==>
      NoRoom(Listing(dj), ne, First(dj.fs.geo, dj.sclust) == 0, res == FR_DENIED)
    ensures res == FR_OK || res == FR_NO_FILE || res == FR_DENIED || (res == FR_INT_ERR && old(Listing(dj)) == [])
  {
    hide *;
    StartNotBad(dj);
    ListingIs(dj);
    TableFacts(dj);
    ghost var t0, ch0, d0 := Listing(dj), dj.chain, dj.log;
    ExtendedRefl(t0);
    BesideRefl(dj.fs.geo, dj.sclust, ch0, d0);
    pos := 0;
    SizeIs(Capacity(dj.fs.geo, dj.sclust, dj.chain));
    res := Sdi(dj, 0);
    ListingIs(dj);
    if res != FR_OK { return; }
    PointsFacts(dj, 0);
    SearchedStart(t0, ne);
    var n := 0;
    while true
      invariant dj.Table() && Extended(t0, Listing(dj)) && dj.Points(dj.index) && dj.index < 0x1_0000
      invariant Beside(dj.fs.geo, dj.sclust, ch0, d0, dj.chain, dj.log)
      invariant 0 <= n < ne && Searched(Listing(dj), dj.index, n, ne) && (n > 0 ==> pos == dj.index - n)
      decreases 0x1_0000 - dj.index
    {
      ghost var k := dj.index;
      Load(dj, k);
      ghost var t, ch, d := Listing(dj), dj.chain, dj.log;
      SearchedStep(t, k, n, ne);
      BlankIs(t[k]);
      var c := At(dj.fs.win[dj.ofs..dj.ofs + SZ_DIR], 0);
      if c == 0xE5 || c == 0 {
        if n == 0 { pos := dj.index; }
        n := n + 1;
        if n == ne { return FR_OK, pos; }
      } else {
        n := 0;
      }
      res := Advance(dj);
      ExtendedTrans(t0, t, Listing(dj));
      BesideTrans(dj.fs.geo, dj.sclust, ch0, d0, ch, d, dj.chain, dj.log);
      SearchedExtends(t, Listing(dj), k + 1, n, ne);
      if res != FR_OK {
        NoRoomWhen(Listing(dj), ne, First(dj.fs.geo, dj.sclust) == 0, res == FR_DENIED);
        return;
      }
      PointsFacts(dj, k + 1);
    }
  }

  /** fit_lfn in the window. */
  method FitWindow(fs: Volume, s: nat, o: nat, lfnbuf: seq<nat>, ord: nat, sum: byte, ghost name: seq<nat>) returns (ghost x: Sector)
    requires fs.Valid() && fs.geo.RootBase() <= s < |fs.disk| && o + SZ_DIR <= SS
    requires Spells(lfnbuf, name) && IsName(name) && 1 <= ord <= Segments(|name|)
    modifies fs`disk, fs`winsect, fs`wflag, fs.win
    ensures fs.Valid() && fs.Logical() == old(fs.Logical())[s := x]
    ensures Only(old(fs.Logical())[s], x, o, SZ_DIR) && IsLfnEntry(SlotOf(x, o), name, ord, sum as nat)
  {
    hide Spells, IsName, IsLfnEntry, Segments, Only;
    MoveWindow(fs, s);
    FitLfn(lfnbuf, fs.win, o, ord, sum, name);
    fs.wflag := true;
    x := fs.win[..];
    assert fs.win[o..o + SZ_DIR] == SlotOf(x, o);
  }

  const NS_CASE := 0x18   // NS_BODY | NS_EXT

  lemma CaseBits(ns: nat)
    ensures And(ns, NS_CASE) == ns / 8 % 4 * 8
  {
    assert And(ns, 0x18) == 2 * And(ns / 2, 12);
    assert And(ns / 2, 12) == 2 * And(ns / 4, 6);
    assert And(ns / 4, 6) == 2 * And(ns / 8, 3);
    AndMask(ns / 8, 2);
    Pow2Values();
  }

  /** The stores of dir_register into the short entry. */
  method FillShort(win: array<byte>, o: nat, sfn: seq<byte>, ns: byte)
    requires o + SZ_DIR <= win.Length && |sfn| == 11
    modifies win
    ensures Only(old(win[..]), win[..], o, SZ_DIR)
    ensures win[o..o + 11] == sfn && win[o + 12] as nat == ns as nat / 8 % 4 * 8
    ensures forall i :: o + 11 <= i < o + SZ_DIR && i != o + 12 ==> win[i] == 0
  {
    var i := 0;
    while i < SZ_DIR
      invariant 0 <= i <= SZ_DIR && forall j :: 0 <= j < win.Length ==> win[j] == if o <= j < o + i then 0 else old(win[j])
    {
      win[o + i] := 0;
      i := i + 1;
    }
    i := 0;
    while i < 11
      invariant 0 <= i <= 11
      invariant forall j :: 0 <= j < win.Length ==>
        win[j] == if o <= j < o + i then sfn[j - o] else if o <= j < o + SZ_DIR then 0 else old(win[j])
    {
      win[o + i] := sfn[i];
      i := i + 1;
    }
    CaseBits(ns as nat);
    win[o + 12] := And(ns as nat, NS_CASE);
  }

  method ShortWindow(fs: Volume, s: nat, o: nat, sfn: seq<byte>, ns: byte) returns (ghost x: Sector)
    requires fs.Valid() && fs.geo.RootBase() <= s < |fs.disk| && o + SZ_DIR <= SS && |sfn| == 11
    modifies fs`disk, fs`winsect, fs`wflag, fs.win
    ensures fs.Valid() && fs.Logical() == old(fs.Logical())[s := x]
    ensures Only(old(fs.Logical())[s], x, o, SZ_DIR) && IsFresh(SlotOf(x, o), sfn, ns)
  {
    MoveWindow(fs, s);
    FillShort(fs.win, o, sfn, ns);
    fs.wflag := true;
    x := fs.win[..];
    FreshIs(x, o, sfn, ns);
  }

  lemma FreshIs(x: Sector, o: nat, sfn: seq<byte>, ns: byte)
    requires o + SZ_DIR <= SS && |sfn| == 11 && x[o..o + 11] == sfn && x[o + 12] as nat == ns as nat / 8 % 4 * 8
    requires forall i :: o + 11 <= i < o + SZ_DIR && i != o + 12 ==> x[i] == 0
    ensures IsFresh(SlotOf(x, o), sfn, ns)
  {
    assert SlotOf(x, o)[..11] == x[o..o + 11];
    assert forall i :: 0 <= i < 32 ==> SlotOf(x, o)[i] == x[o + i];
  }

  /** The listing after a sector of the table was rewritten at entry k. */
  ghost method Rewritten(dj: Directory, k: nat, x: Sector, d: seq<Sector>)
    requires dj.fs.Valid() && Fits(dj.fs.geo, d) && dj.sect < |d| == |dj.fs.disk| && dj.fs.Logical() == d[dj.sect := x] && dj.log == d
    requires IsTable(dj.fs.geo, Fat(dj.fs.geo, d), dj.sclust, dj.chain) && Clusters(dj.fs.geo, dj.chain)
    requires dj.fs.geo.RootBase() <= dj.sect && OnDisk(d, Home(dj.fs.geo, dj.sclust, dj.chain)) && Distinct(Home(dj.fs.geo, dj.sclust, dj.chain))
    requires k < Reachable(16 * |Home(dj.fs.geo, dj.sclust, dj.chain)|) && SecOf(k) < |Home(dj.fs.geo, dj.sclust, dj.chain)|
    requires dj.sect == Home(dj.fs.geo, dj.sclust, dj.chain)[SecOf(k)] && Only(d[dj.sect], x, OfsOf(k), SZ_DIR)
    modifies dj`log
    ensures dj.Table() && dj.log == d[dj.sect := x]
    ensures Listing(dj) == Entries(d, Home(dj.fs.geo, dj.sclust, dj.chain))[k := SlotOf(x, OfsOf(k))]
  {
    hide *;
    dj.log := dj.fs.Logical();
    FatKept(dj.fs.geo, d, dj.sect, x);
    VolumeFits(dj.fs);
    TableIntro(dj);
    EntriesUpdate(d, Home(dj.fs.geo, dj.sclust, dj.chain), k, x);
    ListingIs(dj);
  }

  /** Store one long entry. */
  method PutLong(dj: Directory, lfnbuf: seq<nat>, ord: nat, sum: byte, ghost name: seq<nat>, ghost k: nat)
    requires dj.Table() && dj.Points(k) && Spells(lfnbuf, name) && IsName(name) && 1 <= ord <= Segments(|name|)
    modifies dj`log, dj.fs`disk, dj.fs`winsect, dj.fs`wflag, dj.fs.win
    ensures dj.Table() && k < |old(Listing(dj))| == |Listing(dj)|
    ensures Listing(dj) == old(Listing(dj))[k := Listing(dj)[k]] && IsLfnEntry(Listing(dj)[k], name, ord, sum as nat)
    ensures Beside(dj.fs.geo, dj.sclust, old(dj.chain), old(dj.log), dj.chain, dj.log)
  {
    hide *;
    TableFacts(dj);
    ListingIs(dj);
    PointedAt(dj, k);
    CapacityIs(dj);
    ghost var d := dj.log;
    var x := FitWindow(dj.fs, dj.sect, dj.ofs, lfnbuf, ord, sum, name);
    Rewritten(dj, k, x, d);
    BesideUpdate(dj.fs.geo, dj.sclust, dj.chain, d, SecOf(k), x);
  }

  lemma CapacityIs(dj: Directory)
    requires dj.Table()
    ensures Clusters(dj.fs.geo, dj.chain) && Capacity(dj.fs.geo, dj.sclust, dj.chain) == 16 * |Home(dj.fs.geo, dj.sclust, dj.chain)|
  {
  }

  /** Store the short entry. */
  method PutShort(dj: Directory, sfn: seq<byte>, ns: byte, ghost k: nat)
    requires dj.Table() && dj.Points(k) && |sfn| == 11
    modifies dj`log, dj.fs`disk, dj.fs`winsect, dj.fs`wflag, dj.fs.win
    ensures dj.Table() && k < |old(Listing(dj))| == |Listing(dj)|
    ensures Listing(dj) == old(Listing(dj))[k := Listing(dj)[k]] && IsFresh(Listing(dj)[k], sfn, ns)
    ensures Beside(dj.fs.geo, dj.sclust, old(dj.chain), old(dj.log), dj.chain, dj.log)
  {
    hide *;
    TableFacts(dj);
    ListingIs(dj);
    PointedAt(dj, k);
    CapacityIs(dj);
    ghost var d := dj.log;
    var x := ShortWindow(dj.fs, dj.sect, dj.ofs, sfn, ns);
    Rewritten(dj, k, x, d);
    BesideUpdate(dj.fs.geo, dj.sclust, dj.chain, d, SecOf(k), x);
  }

  /** The first m of n long entries from pos on are stored. */
  ghost predicate Longs(t0: seq<Slot>, t: seq<Slot>, pos: nat, n: nat, m: nat, name: seq<nat>, sum: nat) {
    && |t| == |t0| && m <= n && pos + n <= |t|
    && (forall j :: 0 <= j < |t| && !(pos <= j < pos + m) ==> t[j] == t0[j])
    && (forall j :: pos <= j < pos + m ==> IsLfnEntry(t[j], name, n - (j - pos), sum))
  }

  lemma LongsStart(t: seq<Slot>, pos: nat, n: nat, name: seq<nat>, sum: nat)
    requires pos + n <= |t|
    ensures Longs(t, t, pos, n, 0, name, sum)
  {
  }

  lemma LongsStep(t0: seq<Slot>, t: seq<Slot>, t': seq<Slot>, pos: nat, n: nat, m: nat, name: seq<nat>, sum: nat)
    requires Longs(t0, t, pos, n, m, name, sum) && m < n && |t'| == |t| && t' == t[pos + m := t'[pos + m]]
    requires IsLfnEntry(t'[pos + m], name, n - m, sum)
    ensures Longs(t0, t', pos, n, m + 1, name, sum)
  {
  }

  /** Store the long entries, bottom first, and go on to the place of the short one. */
  method StoreLongs(dj: Directory, pos: nat, n: nat, lfnbuf: seq<nat>, sum: byte, ghost name: seq<nat>)
    requires dj.Table() && Spells(lfnbuf, name) && IsName(name) && 1 <= n == Segments(|name|) && pos + n < |Listing(dj)| && pos < 0x1_0000
    modifies dj`index, dj`clust, dj`sect, dj`ofs, dj`chain, dj`log
    modifies dj.fs`disk, dj.fs`winsect, dj.fs`wflag, dj.fs`fsiFlag, dj.fs`lastClust, dj.fs`freeClust, dj.fs.win
    ensures dj.Table() && dj.Points(pos + n)
    ensures Longs(old(Listing(dj)), Listing(dj), pos, n, n, name, sum as nat)
    ensures Beside(dj.fs.geo, dj.sclust, old(dj.chain), old(dj.log), dj.chain, dj.log)
  {
    hide *;
    StartNotBad(dj);
    ListingIs(dj);
    TableFacts(dj);
    ghost var t0, ch, d0 := Listing(dj), dj.chain, dj.log;
    BesideRefl(dj.fs.geo, dj.sclust, ch, d0);
    SizeIs(Capacity(dj.fs.geo, dj.sclust, dj.chain));
    var res := Sdi(dj, pos);
    ListingIs(dj);
    if res != FR_OK { assert false; }
    LongsStart(t0, pos, n, name, sum as nat);
    var ord := n;
    ghost var m := 0;
    while ord > 0
      invariant 0 <= ord && m + ord == n && dj.Table() && dj.Points(pos + m)
      invariant Longs(t0, Listing(dj), pos, n, m, name, sum as nat)
      invariant dj.chain == ch && Beside(dj.fs.geo, dj.sclust, ch, d0, ch, dj.log)
    {
      ghost var t, d := Listing(dj), dj.log;
      LongsSize(t0, t, pos, n, m, name, sum as nat);
      PutLong(dj, lfnbuf, ord, sum, name, pos + m);
      LongsStep(t0, t, Listing(dj), pos, n, m, name, sum as nat);
      BesideTrans(dj.fs.geo, dj.sclust, ch, d0, ch, d, ch, dj.log);
      PointsFacts(dj, pos + m);
      ListingIs(dj);
      SizeIs(Capacity(dj.fs.geo, dj.sclust, dj.chain));
      ghost var u := Listing(dj);
      res := Next(dj, false);
      ListingIs(dj);
      if res != FR_OK { assert false; }
      m := m + 1;
      ord := ord - 1;
    }
  }

  lemma LongsSize(t0: seq<Slot>, t: seq<Slot>, pos: nat, n: nat, m: nat, name: seq<nat>, sum: nat)
    requires Longs(t0, t, pos, n, m, name, sum)
    ensures |t| == |t0|
  {
  }

  /** What dir_register leaves is the name, entered. */
  lemma LongsEnter(t0: seq<Slot>, t: seq<Slot>, t': seq<Slot>, pos: nat, n: nat, name: seq<nat>, sfn: seq<byte>)
    requires IsShortName(sfn) && pos + n < |t0| == |t'| == |t| && t' == t[pos + n := t'[pos + n]] && IsShortEntry(t'[pos + n], sfn)
    requires n == 0 ==> t == t0
    requires n > 0 ==> Longs(t0, t, pos, n, n, name, SumSfn(sfn)) && IsName(name) && n == Segments(|name|)
    ensures Entered(t0, t', pos, n + 1, name, sfn)
  {
    if n > 0 {
      var es := t'[pos..pos + n];
      forall j | 0 <= j < |es| ensures IsLfnEntry(es[j], name, |es| - j, SumSfn(sfn)) {
        assert es[j] == t'[pos + j] == t[pos + j];
      }
    }
  }

  /** Hexadecimal digits, upper case. */
  function Hex(v: nat): (h: seq<byte>)
    ensures |h| >= 1
  {
    var c: byte := if v % 16 < 10 then 0x30 + v % 16 else 0x37 + v % 16;
    if v < 16 then [c] else Hex(v / 16) + [c]
  }

  lemma {:induction false} HexLength(v: nat, k: nat)
    requires k >= 1 && v < Pow2(4 * k)
    ensures |Hex(v)| <= k
  {
    if v >= 16 {
      assert k > 1 by { Pow2Values(); }
      Pow2Add(4, 4 * (k - 1));
      Pow2Values();
      HexLength(v / 16, k - 1);
    }
  }

  /** Where the number goes: at the first space, but early enough to fit in eight. */
  function Cut(src: seq<byte>, limit: nat): (j: nat)
    requires limit <= |src|
    ensures j <= limit && (forall i :: 0 <= i < j ==> src[i] != 0x20) && (j < limit ==> src[j] == 0x20)
  {
    if limit == 0 then 0
    else var j := Cut(src, limit - 1); if j == limit - 1 && src[j] != 0x20 then limit else j
  }

  function Spaces(n: nat): seq<byte> { seq(n, _ => 0x20) }

  /** The short name src with number v. */
  function Numbered(src: seq<byte>, v: nat): (r: seq<byte>)
    requires |src| == 11 && |Hex(v)| <= 7
    ensures |r| == 11
  {
    var tl := [0x7E] + Hex(v);
    var j := Cut(src, 8 - |tl|);
    src[..j] + tl + Spaces(8 - j - |tl|) + src[8..]
  }

  /** The hash that replaces a number above 5. */
  function HashFrom(lfn: seq<nat>, i: nat, v: nat): (h: nat)
    requires i <= |lfn|
    ensures v < 0x1_0000 ==> h < 0x1_0000
    decreases |lfn| - i
  {
    if i == |lfn| then v else HashFrom(lfn, i + 1, (v / 2 + v * 0x8000 + lfn[i]) % 0x1_0000)
  }

  function NumberOf(name: seq<nat>, n: nat): (v: nat)
    requires n < 100
    ensures v < 0x1_0000
  {
    if n > 5 then HashFrom(name, 0, n) else n
  }

  lemma NumberFits(name: seq<nat>, n: nat)
    requires n < 100
    ensures |Hex(NumberOf(name, n))| <= 4
  {
    Pow2Wide();
    HexLength(NumberOf(name, n), 4);
  }

  /** Numbered names keep their extension and start with a character of the name or with the tilde. */
  lemma NumberedName(src: seq<byte>, v: nat)
    requires IsShortName(src) && |Hex(v)| <= 7
    ensures IsShortName(Numbered(src, v)) && Numbered(src, v)[8..] == src[8..]
  {
    var tl := [0x7E] + Hex(v);
    var j := Cut(src, 8 - |tl|);
    if j > 0 { assert Numbered(src, v)[0] == src[0]; } else { assert Numbered(src, v)[0] == 0x7E; }
  }

  lemma {:induction false} HexDigits(v: nat, i: nat)
    requires i < |Hex(v)|
    ensures 0x30 <= Hex(v)[i] <= 0x46
  {
    if v >= 16 && i < |Hex(v / 16)| { HexDigits(v / 16, i); }
  }

  lemma {:induction false} HexInjective(v: nat, u: nat)
    requires Hex(v) == Hex(u)
    ensures v == u
  {
    var h, n := Hex(v), |Hex(v)|;
    assert v >= 16 ==> Hex(v / 16) == h[..n - 1];
    assert u >= 16 ==> Hex(u / 16) == h[..n - 1];
    assert v % 16 == u % 16;
    if v >= 16 && u >= 16 { HexInjective(v / 16, u / 16); }
  }

  /** The digits and then spaces. */
  function Behind(h: seq<byte>, i: nat): byte { if i < |h| then h[i] else 0x20 }

  /** Where the tilde is, and what follows it. */
  lemma NumberTail(src: seq<byte>, v: nat) returns (j: nat)
    requires |src| == 11 && |Hex(v)| <= 7
    ensures j + 1 + |Hex(v)| <= 8 && Numbered(src, v)[j] == 0x7E
    ensures forall i :: j < i < 8 ==> Numbered(src, v)[i] != 0x7E
    ensures forall i :: j < i < 8 ==> Numbered(src, v)[i] == Behind(Hex(v), i - j - 1)
  {
    hide Hex;
    j := Cut(src, 7 - |Hex(v)|);
    forall i | j < i < 8 ensures Numbered(src, v)[i] == Behind(Hex(v), i - j - 1) != 0x7E {
      if i - j - 1 < |Hex(v)| { HexDigits(v, i - j - 1); }
    }
  }

  /** Different numbers give different short names. */
  lemma NumbersDiffer(src: seq<byte>, v: nat, u: nat)
    requires |src| == 11 && |Hex(v)| <= 7 && |Hex(u)| <= 7 && v != u
    ensures Numbered(src, v) != Numbered(src, u)
  {
    hide Hex, Numbered;
    if Numbered(src, v) == Numbered(src, u) {
      var j := NumberTail(src, v);
      var k := NumberTail(src, u);
      assert j == k;
      SameDigits(Numbered(src, v), j, v, u);
      SameDigits(Numbered(src, v), j, u, v);
      assert Hex(v) == Hex(u);
      HexInjective(v, u);
    }
  }

  lemma SameDigits(r: seq<byte>, j: nat, v: nat, u: nat)
    requires |r| == 11 && j + 1 + |Hex(v)| <= 8 && j + 1 + |Hex(u)| <= 8
    requires forall i :: j < i < 8 ==> r[i] == Behind(Hex(v), i - j - 1)
    requires forall i :: j < i < 8 ==> r[i] == Behind(Hex(u), i - j - 1)
    ensures |Hex(v)| <= |Hex(u)| && forall i :: 0 <= i < |Hex(v)| && i < |Hex(u)| ==> Hex(v)[i] == Hex(u)[i]
  {
    hide Hex;
    forall i | 0 <= i < |Hex(v)| && i < |Hex(u)| ensures Hex(v)[i] == Hex(u)[i] { assert r[j + 1 + i] == Hex(v)[i]; }
    if |Hex(u)| < 7 - j { assert r[j + 1 + |Hex(u)|] == Behind(Hex(u), |Hex(u)|) == Behind(Hex(v), |Hex(u)|); }
    if |Hex(u)| < |Hex(v)| { HexDigits(v, |Hex(u)|); }
  }
}
