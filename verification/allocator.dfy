/** create_chain and remove_chain: allocation of clusters in the FAT. */
module Allocator {
  import opened Layout
  import opened Window
  import opened FatAccess
  import opened Chains

  const UNKNOWN: nat := 0xFFFF_FFFF   // free_clust when the count is not known

  /** What put_fat(.., 0x0FFFFFFF) leaves in an entry. */
  function EndMark(ty: FatType): (m: nat)
    ensures m > 0
  {
    match ty
    case FAT12 => 0xFFF
    case FAT16 => 0xFFFF
    case FAT32 => 0x0FFF_FFFF
  }

  /** The end mark is stored whole and is never a cluster number. */
  lemma EndMarkEnds(g: Geometry)
    requires g.Valid()
    ensures 0x0FFF_FFFF % g.fsType.Modulus() == EndMark(g.fsType) >= g.nFatent
  {
    assert 0x0FFF_FFFF % 0x1000 == 0xFFF && 0x0FFF_FFFF % 0x1_0000 == 0xFFFF;
  }

  lemma EntryHolds(g: Geometry, v: nat)
    requires g.Valid() && v < g.nFatent
    ensures v % g.fsType.Modulus() == v
  {
  }

  /** put_fat of an end mark, a free mark or a cluster number into a valid entry. */
  method PutEntry(fs: Volume, clst: nat, val: nat, ghost v: nat)
    requires fs.Valid() && fs.geo.Cluster(clst)
    requires val == 0x0FFF_FFFF || val < fs.geo.nFatent
    requires v == if val < fs.geo.nFatent then val else EndMark(fs.geo.fsType)
    modifies fs`disk, fs`winsect, fs`wflag, fs.win
    ensures fs.Valid() && OnlyFat(fs.geo, old(fs.Logical()), fs.Logical()) && fs.geo.InFat(fs.winsect)
    ensures Fat(fs.geo, fs.Logical()) == Fat(fs.geo, old(fs.Logical()))[clst := v]
  {
    if val < fs.geo.nFatent { EntryHolds(fs.geo, val); } else { EndMarkEnds(fs.geo); }
    var res := PutFat(fs, clst, val);
  }

  /** Position of cluster c in the search that starts behind scl and wraps around. */
  function Distance(n: nat, scl: nat, c: nat): int {
    if c > scl then c - scl else c - scl + n - 2
  }

  /** No cluster within k steps of scl is free or reads 1. */
  ghost predicate Taken(f: seq<nat>, scl: nat, k: int) {
    forall c :: 2 <= c < |f| && Distance(|f|, scl, c) <= k ==> f[c] >= 2
  }

  /** r is the first cluster behind scl, in wrap-around order, that is free or reads 1. */
  ghost predicate FirstHit(f: seq<nat>, scl: nat, r: nat) {
    && 2 <= r < |f| && f[r] <= 1
    && Taken(f, scl, Distance(|f|, scl, r) - 1)
  }

  lemma TakenStep(f: seq<nat>, scl: nat, k: int, c: nat)
    requires 1 <= scl < |f| && 2 <= c < |f| && Distance(|f|, scl, c) == k + 1
    requires Taken(f, scl, k) && f[c] >= 2
    ensures Taken(f, scl, k + 1)
  {
    assert forall x :: 2 <= x < |f| && Distance(|f|, scl, x) == k + 1 ==> x == c;
  }

  /** The free-cluster search of create_chain. */
  method FindFree(fs: Volume, scl: nat) returns (r: nat, ghost at: nat)
    requires fs.Valid() && 1 <= scl < fs.geo.nFatent
    modifies fs`disk, fs`winsect, fs`wflag, fs.win
    ensures fs.Valid() && fs.Logical() == old(fs.Logical()) && fs.geo.InFat(fs.winsect) && (fs.wflag ==> old(fs.wflag))
    ensures var f := Fat(fs.geo, fs.Logical());
      && (r == 0 <==> Taken(f, scl, |f|))
      && (r == 1 ==> FirstHit(f, scl, at) && f[at] == 1)
      && (r > 1 ==> FirstHit(f, scl, r) && f[r] == 0)
  {
    ghost var f := Fat(fs.geo, fs.Logical());
    ghost var k := 0;
    var n := fs.geo.nFatent;
    var ncl := scl;
    at := 0;
    while true
      invariant fs.Valid() && fs.Logical() == old(fs.Logical()) && (fs.wflag ==> old(fs.wflag))
      invariant 0 <= k <= n - 2 && (scl >= 2 ==> k < n - 2)
      invariant k == 0 ==> ncl == scl
      invariant k > 0 ==> 2 <= ncl < n && Distance(n, scl, ncl) == k && fs.geo.InFat(fs.winsect)
      invariant Taken(f, scl, k)
      decreases n - 1 - k
    {
      ncl := ncl + 1;
      if ncl >= n {
        ncl := 2;
        if ncl > scl {
          return 0, at;
        }
      }
      var cs := GetFat(fs, ncl);
      if cs == 0 {
        return ncl, at;
      }
      if cs == 1 {
        at := ncl;
        return cs, at;
      }
      TakenStep(f, scl, k, ncl);
      if ncl == scl {
        return 0, at;
      }
      k := k + 1;
    }
  }

  /** create_chain has to allocate: a new chain, or a chain whose last cluster is clst. */
  ghost predicate Extends(g: Geometry, f: seq<nat>, clst: nat)
    requires |f| == g.nFatent
  {
    clst == 0 || (g.Cluster(clst) && f[clst] >= |f|)
  }

  function SearchStart(g: Geometry, last: nat, clst: nat): nat {
    if clst != 0 then clst else if last == 0 || last >= g.nFatent then 1 else last
  }

  /** The FAT after cluster r became the new last cluster behind clst. */
  function Linked(f: seq<nat>, clst: nat, r: nat, eoc: nat): (g: seq<nat>)
    requires r < |f| && clst < |f|
    ensures |g| == |f|
  {
    if clst == 0 then f[r := eoc] else f[r := eoc][clst := r]
  }

  lemma LinkedFree(f: seq<nat>, clst: nat, r: nat, eoc: nat)
    requires 2 <= r < |f| && f[r] == 0 && eoc != 0 && clst < |f|
    requires clst != 0 ==> 2 <= clst && f[clst] != 0
    ensures Free(Linked(f, clst, r, eoc)) == Free(f) - 1 && Free(f) <= |f| - 2
  {
    FreeUpdate(f, r, eoc);
    FreeBound(f, |f|);
    if clst != 0 { FreeUpdate(f[r := eoc], clst, r); }
  }

  /** free_clust follows the number of free entries once it is exact. */
  ghost predicate Counts(free: nat, f: seq<nat>, free': nat, f': seq<nat>) {
    && (free == Free(f) ==> free' == Free(f'))
    && (free == UNKNOWN ==> free' == UNKNOWN)
  }

  /** The outcome of create_chain on FAT f, for all arguments:
      - clst has a follower, or is no valid chain member: report that, change nothing;
      - otherwise search behind scl: 0 iff no entry is free or reads 1, 1 iff the first
        such entry reads 1, else the first free cluster, now linked behind clst. */
  ghost predicate Created(g: Geometry, f: seq<nat>, f': seq<nat>, clst: nat, scl: nat, r: nat)
    requires |f| == g.nFatent
  {
    if !Extends(g, f, clst) then
      f' == f && r == if g.Cluster(clst) && f[clst] >= 2 then f[clst] else 1
    else if r == 0 then
      f' == f && Taken(f, scl, |f|)
    else if r == 1 then
      f' == f && exists c: nat :: FirstHit(f, scl, c) && f[c] == 1
    else
      FirstHit(f, scl, r) && f[r] == 0 && clst < |f| && f' == Linked(f, clst, r, EndMark(g.fsType))
  }

  /** create_chain. */
  method CreateChain(fs: Volume, clst: nat) returns (r: nat)
    requires fs.Valid() && clst < DWORDS
    modifies fs`disk, fs`winsect, fs`wflag, fs`fsiFlag, fs`lastClust, fs`freeClust, fs.win
    ensures fs.Valid() && OnlyFat(fs.geo, old(fs.Logical()), fs.Logical())
    ensures r == 1 || fs.geo.InFat(fs.winsect)
    ensures Created(fs.geo, Fat(fs.geo, old(fs.Logical())), Fat(fs.geo, fs.Logical()), clst,
                    SearchStart(fs.geo, old(fs.lastClust), clst), r)
    ensures Counts(old(fs.freeClust), Fat(fs.geo, old(fs.Logical())), fs.freeClust, Fat(fs.geo, fs.Logical()))
    ensures fs.lastClust == if r >= 2 && Extends(fs.geo, Fat(fs.geo, old(fs.Logical())), clst) then r else old(fs.lastClust)
    ensures r < 2 || !Extends(fs.geo, Fat(fs.geo, old(fs.Logical())), clst) ==> fs.Logical() == old(fs.Logical()) && (fs.wflag ==> old(fs.wflag))
  {
    var scl;
    if clst == 0 {
      scl := fs.lastClust;
      if scl == 0 || scl >= fs.geo.nFatent { scl := 1; }
    } else {
      var cs := GetFat(fs, clst);
      if cs < 2 { return 1; }
      if cs < fs.geo.nFatent { return cs; }
      scl := clst;
    }
    r := Allocate(fs, clst, scl);
  }

  /** The part of create_chain behind the search start. */
  method Allocate(fs: Volume, clst: nat, scl: nat) returns (r: nat)
    requires fs.Valid() && 1 <= scl < fs.geo.nFatent
    requires Extends(fs.geo, Fat(fs.geo, fs.Logical()), clst)
    modifies fs`disk, fs`winsect, fs`wflag, fs`fsiFlag, fs`lastClust, fs`freeClust, fs.win
    ensures fs.Valid() && OnlyFat(fs.geo, old(fs.Logical()), fs.Logical()) && fs.geo.InFat(fs.winsect)
    ensures Created(fs.geo, Fat(fs.geo, old(fs.Logical())), Fat(fs.geo, fs.Logical()), clst, scl, r)
    ensures Counts(old(fs.freeClust), Fat(fs.geo, old(fs.Logical())), fs.freeClust, Fat(fs.geo, fs.Logical()))
    ensures fs.lastClust == if r >= 2 then r else old(fs.lastClust)
    ensures r < 2 ==> fs.Logical() == old(fs.Logical()) && (fs.wflag ==> old(fs.wflag))
  {
    ghost var f := Fat(fs.geo, fs.Logical());
    ghost var at;
    r, at := FindFree(fs, scl);
    if r >= 2 {
      Link(fs, clst, r);
      LinkedFree(f, clst, r, EndMark(fs.geo.fsType));
      TakeOne(fs, r);
    }
  }

  /** The two put_fat calls at the end of create_chain. */
  method Link(fs: Volume, clst: nat, ncl: nat)
    requires fs.Valid() && fs.geo.Cluster(ncl) && (clst == 0 || fs.geo.Cluster(clst))
    modifies fs`disk, fs`winsect, fs`wflag, fs.win
    ensures fs.Valid() && OnlyFat(fs.geo, old(fs.Logical()), fs.Logical()) && fs.geo.InFat(fs.winsect)
    ensures Fat(fs.geo, fs.Logical()) == Linked(Fat(fs.geo, old(fs.Logical())), clst, ncl, EndMark(fs.geo.fsType))
  {
    PutEntry(fs, ncl, 0x0FFF_FFFF, EndMark(fs.geo.fsType));
    if clst != 0 {
      ghost var mid := fs.Logical();
      PutEntry(fs, clst, ncl, ncl);
      OnlyFatTrans(fs.geo, old(fs.Logical()), mid, fs.Logical());
    }
  }

  method TakeOne(fs: Volume, ncl: nat)
    requires fs.Valid() && ncl < DWORDS
    modifies fs`fsiFlag, fs`lastClust, fs`freeClust
    ensures fs.Valid() && fs.Logical() == old(fs.Logical()) && fs.lastClust == ncl
    ensures fs.freeClust == if old(fs.freeClust) == UNKNOWN || old(fs.freeClust) == 0 then UNKNOWN else old(fs.freeClust) - 1
  {
    fs.lastClust := ncl;
    if fs.freeClust != UNKNOWN {
      fs.freeClust := if fs.freeClust == 0 then DWORDS - 1 else fs.freeClust - 1;
      fs.fsiFlag := true;
    }
  }

  method GiveOne(fs: Volume)
    requires fs.Valid()
    modifies fs`fsiFlag, fs`freeClust
    ensures fs.Valid() && fs.Logical() == old(fs.Logical())
    ensures fs.freeClust == if old(fs.freeClust) == UNKNOWN then UNKNOWN else old(fs.freeClust) + 1
  {
    if fs.freeClust != UNKNOWN {
      fs.freeClust := fs.freeClust + 1;
      fs.fsiFlag := true;
    }
  }

  lemma UnlinkTerminates(f: seq<nat>, c: nat)
    requires 2 <= c < |f| && f[c] != 0
    ensures Free(f[c := 0]) == Free(f) + 1 <= |f|
  {
    FreeUpdate(f, c, 0);
    FreeBound(f[c := 0], |f|);
  }

  /** What remove_chain does to any FAT, well-formed or not: follow the links, zeroing each
      entry, until a free entry, an entry that reads 1 (an error) or an end mark. Every
      step frees an entry, so cyclic links do not keep it going. */
  function Unlink(f: seq<nat>, c: nat): (r: (seq<nat>, bool))
    requires c >= 2
    ensures |r.0| == |f|
    ensures forall x :: 0 <= x < |f| ==> r.0[x] == f[x] || (x >= 2 && r.0[x] == 0)
    decreases |f| - Free(f)
  {
    if c >= |f| || f[c] == 0 then (f, true)
    else if f[c] == 1 then (f, false)
    else
      UnlinkTerminates(f, c);
      Unlink(f[c := 0], f[c])
  }

  /** On a proper chain it frees exactly the chain's clusters. */
  lemma {:induction false} UnlinkChain(f: seq<nat>, a: seq<nat>)
    requires IsChain(f, a)
    ensures Unlink(f, a[0]) == (Cleared(f, a), true)
    decreases |a|
  {
    var g := f[a[0] := 0];
    ChainEntries(f, a);
    UnlinkTerminates(f, a[0]);
    if |a| == 1 {
      assert g == Cleared(f, a);
    } else {
      TailIsChain(f, a, 1);
      ChainFrame(f, g, a[1..]);
      UnlinkChain(g, a[1..]);
      assert f[a[0]] == a[1];
      assert forall c :: c in a <==> c == a[0] || c in a[1..];
      assert Cleared(g, a[1..]) == Cleared(f, a);
    }
  }

  /** remove_chain. */
  method RemoveChain(fs: Volume, clst: nat) returns (res: FResult)
    requires fs.Valid() && clst < DWORDS
    modifies fs`disk, fs`winsect, fs`wflag, fs`fsiFlag, fs`freeClust, fs.win
    ensures fs.Valid() && OnlyFat(fs.geo, old(fs.Logical()), fs.Logical())
    ensures !fs.geo.Cluster(clst) ==> res == FR_INT_ERR && fs.Logical() == old(fs.Logical())
    ensures fs.geo.Cluster(clst) ==> fs.geo.InFat(fs.winsect)
    ensures fs.geo.Cluster(clst) ==>
      (Fat(fs.geo, fs.Logical()), res == FR_OK) == Unlink(Fat(fs.geo, old(fs.Logical())), clst)
    ensures Counts(old(fs.freeClust), Fat(fs.geo, old(fs.Logical())), fs.freeClust, Fat(fs.geo, fs.Logical()))
  {
    if clst < 2 || clst >= fs.geo.nFatent {
      return FR_INT_ERR;
    }
    res := FR_OK;
    var c := clst;
    ghost var f := Fat(fs.geo, fs.Logical());
    while c < fs.geo.nFatent
      invariant fs.Valid() && OnlyFat(fs.geo, old(fs.Logical()), fs.Logical())
      invariant f == Fat(fs.geo, fs.Logical()) && c >= 2 && res == FR_OK
      invariant Unlink(Fat(fs.geo, old(fs.Logical())), clst) == Unlink(f, c)
      invariant c < fs.geo.nFatent || fs.geo.InFat(fs.winsect)
      invariant Counts(old(fs.freeClust), Fat(fs.geo, old(fs.Logical())), fs.freeClust, f)
      decreases |f| - Free(f)
    {
      var nxt := GetFat(fs, c);
      if nxt == 0 { break; }
      if nxt == 1 { res := FR_INT_ERR; break; }
      FreeEntry(fs, c);
      UnlinkTerminates(f, c);
      f := f[c := 0];
      c := nxt;
    }
  }

  /** One step of remove_chain's loop: zero the entry and count it. */
  method FreeEntry(fs: Volume, c: nat)
    requires fs.Valid() && fs.geo.Cluster(c)
    modifies fs`disk, fs`winsect, fs`wflag, fs`fsiFlag, fs`freeClust, fs.win
    ensures fs.Valid() && OnlyFat(fs.geo, old(fs.Logical()), fs.Logical()) && fs.geo.InFat(fs.winsect)
    ensures Fat(fs.geo, fs.Logical()) == Fat(fs.geo, old(fs.Logical()))[c := 0]
    ensures fs.freeClust == if old(fs.freeClust) == UNKNOWN then UNKNOWN else old(fs.freeClust) + 1
  {
    PutEntry(fs, c, 0, 0);
    GiveOne(fs);
  }

  lemma CountsRefl(free: nat, f: seq<nat>)
    ensures Counts(free, f, free, f)
  {
  }

  lemma CountsTrans(a: nat, f: seq<nat>, b: nat, f1: seq<nat>, c: nat, f2: seq<nat>)
    requires Counts(a, f, b, f1) && Counts(b, f1, c, f2)
    ensures Counts(a, f, c, f2)
  {
  }

  lemma EndUpdate(g: Geometry, f: seq<nat>, c: nat, free: nat)
    requires g.Cluster(c) && |f| == g.nFatent && f[c] != 0
    ensures Counts(free, f, free, f[c := EndMark(g.fsType)])
  {
    FreeUpdate(f, c, EndMark(g.fsType));
  }

  /** The cut of f_truncate: an end mark for clst, and remove_chain of its follower. */
  method EndChain(fs: Volume, clst: nat, ncl: nat) returns (res: FResult)
    requires fs.Valid() && fs.geo.Cluster(clst) && fs.geo.Cluster(ncl) && Fat(fs.geo, fs.Logical())[clst] == ncl
    modifies fs`disk, fs`winsect, fs`wflag, fs`fsiFlag, fs`freeClust, fs.win
    ensures fs.Valid() && OnlyFat(fs.geo, old(fs.Logical()), fs.Logical()) && fs.geo.InFat(fs.winsect)
    ensures (Fat(fs.geo, fs.Logical()), res == FR_OK) ==
            Unlink(Fat(fs.geo, old(fs.Logical()))[clst := EndMark(fs.geo.fsType)], ncl)
    ensures Counts(old(fs.freeClust), Fat(fs.geo, old(fs.Logical())), fs.freeClust, Fat(fs.geo, fs.Logical()))
  {
    hide Unlink, Counts;
    ghost var g, d := fs.geo, fs.Logical();
    ghost var f := Fat(g, d);
    EndMarkEnds(g);
    PutEntry(fs, clst, 0x0FFF_FFFF, EndMark(g.fsType));
    ghost var m := fs.Logical();
    EndUpdate(g, f, clst, fs.freeClust);
    res := RemoveChain(fs, ncl);
    OnlyFatTrans(g, d, m, fs.Logical());
    CountsTrans(old(fs.freeClust), f, old(fs.freeClust), Fat(g, m), fs.freeClust, Fat(g, fs.Logical()));
  }
}
