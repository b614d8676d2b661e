/** Fast seek: the cluster link map table of f_lseek(CREATE_LINKMAP) and its reader clmt_clust. */
module LinkMap {
  import opened Layout
  import opened FatAccess
  import opened Chains
  import opened FileMap
  import opened FileSpec
  import opened OpenFile
  import opened FileRead
  import opened FileSeek

  /** A run of consecutive cluster numbers. */
  datatype Fragment = Fragment(ncl: nat, tcl: nat)

  /** Length of the longest prefix of consecutive numbers. */
  function RunLength(ch: seq<nat>): (n: nat)
    ensures n <= |ch| && (ch != [] ==> n > 0)
    ensures forall i :: 0 <= i < n ==> ch[i] == ch[0] + i
    ensures 0 < n < |ch| ==> ch[n] != ch[0] + n
  {
    if |ch| <= 1 then |ch|
    else if ch[|ch| - 1] == ch[0] + (|ch| - 1) && RunLength(ch[..|ch| - 1]) == |ch| - 1 then |ch|
    else RunLength(ch[..|ch| - 1])
  }

  /** The run-length encoding of a chain. */
  function Fragments(ch: seq<nat>): (fs: seq<Fragment>)
    decreases |ch|
  {
    if ch == [] then [] else [Fragment(RunLength(ch), ch[0])] + Fragments(ch[RunLength(ch)..])
  }

  /** What an encoding stands for. */
  function Expand(fs: seq<Fragment>): seq<nat> {
    if fs == [] then []
    else seq(fs[0].ncl, i requires i >= 0 => fs[0].tcl + i) + Expand(fs[1..])
  }

  /** No run is empty, and no two neighbours could be joined. */
  ghost predicate Maximal(fs: seq<Fragment>) {
    fs != [] ==> fs[0].ncl > 0 && (|fs| > 1 ==> fs[1].tcl != fs[0].tcl + fs[0].ncl) && Maximal(fs[1..])
  }

  /** The encoding is exact: it expands to the chain, and its runs are as long as can be. */
  lemma {:induction false} FragmentsExact(ch: seq<nat>)
    ensures Expand(Fragments(ch)) == ch && Maximal(Fragments(ch))
    decreases |ch|
  {
    if ch != [] {
      var n := RunLength(ch);
      var rest := Fragments(ch[n..]);
      FragmentsExact(ch[n..]);
      hide Fragments;
      FragmentsStep(ch);
      assert ([Fragment(n, ch[0])] + rest)[1..] == rest;
      assert ch[..n] == seq(n, i requires i >= 0 => ch[0] + i);
      assert ch == ch[..n] + ch[n..];
    }
  }

  lemma FragmentsStep(ch: seq<nat>)
    requires ch != []
    ensures Fragments(ch) == [Fragment(RunLength(ch), ch[0])] + Fragments(ch[RunLength(ch)..])
    ensures RunLength(ch) < |ch| ==> |Fragments(ch)| > 1 && Fragments(ch)[1].tcl == ch[RunLength(ch)]
    ensures RunLength(ch) == |ch| ==> |Fragments(ch)| == 1
  {
  }

  lemma {:induction false} MaximalPositive(fs: seq<Fragment>, i: nat)
    requires Maximal(fs) && i < |fs|
    ensures fs[i].ncl > 0
  {
    if i > 0 { MaximalPositive(fs[1..], i - 1); }
  }

  /** Entry cl of the expansion, looked up fragment by fragment. */
  lemma ExpandAt(fs: seq<Fragment>, cl: nat)
    requires fs != []
    ensures cl < fs[0].ncl ==> cl < |Expand(fs)| && Expand(fs)[cl] == fs[0].tcl + cl
    ensures cl >= fs[0].ncl ==> (cl < |Expand(fs)| <==> cl - fs[0].ncl < |Expand(fs[1..])|)
    ensures fs[0].ncl <= cl < |Expand(fs)| ==> Expand(fs)[cl] == Expand(fs[1..])[cl - fs[0].ncl]
  {
  }

  /** tbl holds the fragments fs from index 1 on. */
  ghost predicate Listed(tbl: seq<nat>, fs: seq<Fragment>) {
    && 1 + 2 * |fs| <= |tbl|
    && forall i :: 0 <= i < |fs| ==> tbl[1 + 2 * i] == fs[i].ncl && tbl[2 + 2 * i] == fs[i].tcl
  }

  /** A complete table: fragments and terminator. */
  ghost predicate Mapped(tbl: seq<nat>, fs: seq<Fragment>) {
    && 2 + 2 * |fs| <= |tbl| && Listed(tbl, fs) && tbl[1 + 2 * |fs|] == 0
  }

  lemma MapEntry(tbl: seq<nat>, fs: seq<Fragment>, i: nat)
    requires Mapped(tbl, fs) && Maximal(fs) && i <= |fs|
    ensures 2 + 2 * i <= |tbl| && (tbl[1 + 2 * i] == 0 <==> i == |fs|)
    ensures i < |fs| ==> 3 + 2 * i <= |tbl| && tbl[1 + 2 * i] == fs[i].ncl && tbl[2 + 2 * i] == fs[i].tcl
  {
    if i < |fs| { MaximalPositive(fs, i); }
  }

  /** Looking for the k-th cluster of ch is looking for the cl-th of the fragments from the i-th on. */
  ghost predicate Seeking(fs: seq<Fragment>, i: nat, cl: nat, ch: seq<nat>, k: nat) {
    && i <= |fs| && (k < |ch| <==> cl < |Expand(fs[i..])|)
    && (k < |ch| ==> ch[k] == Expand(fs[i..])[cl])
  }

  lemma SeekingStep(fs: seq<Fragment>, i: nat, cl: nat, ch: seq<nat>, k: nat)
    requires Seeking(fs, i, cl, ch, k)
    ensures i == |fs| ==> k >= |ch|
    ensures i < |fs| && cl < fs[i].ncl ==> k < |ch| && ch[k] == cl + fs[i].tcl
    ensures i < |fs| && cl >= fs[i].ncl ==> Seeking(fs, i + 1, cl - fs[i].ncl, ch, k)
  {
    if i < |fs| {
      ExpandAt(fs[i..], cl);
      assert fs[i..][1..] == fs[i + 1..];
    }
  }

  lemma SeekingStart(ch: seq<nat>, k: nat)
    ensures Seeking(Fragments(ch), 0, k, ch, k) && Maximal(Fragments(ch))
  {
    FragmentsExact(ch);
    assert Fragments(ch)[0..] == Fragments(ch);
  }

  /** clmt_clust: the cluster that holds file byte ofs, 0 behind the end of the chain. */
  method ClmtClust(tbl: array<nat>, g: Geometry, ofs: nat, ghost ch: seq<nat>) returns (c: nat)
    requires g.Valid() && Mapped(tbl[..], Fragments(ch))
    ensures g.csize > 0 && c == if ClusterOf(g, ofs) < |ch| then ch[ClusterOf(g, ofs)] else 0
  {
    hide Mapped, Fragments, Maximal, Seeking, ClusterOf;
    ghost var fs := Fragments(ch);
    var cl := ClusterNumber(g, ofs);
    var t := 1;
    ghost var k, i := cl, 0;
    SeekingStart(ch, k);
    while true
      invariant 0 <= i <= |fs| && t == 1 + 2 * i && Seeking(fs, i, cl, ch, k)
      decreases |fs| - i
    {
      MapEntry(tbl[..], fs, i);
      SeekingStep(fs, i, cl, ch, k);
      var ncl := tbl[t];
      if ncl == 0 { return 0; }
      if cl < ncl { return cl + tbl[t + 1]; }
      cl := cl - ncl;
      t := t + 2;
      i := i + 1;
    }
  }

  /** `ofs / SS / csize` */
  method ClusterNumber(g: Geometry, ofs: nat) returns (k: nat)
    requires g.Valid()
    ensures k == ClusterOf(g, ofs)
  {
    var q, j := Locate(g, ofs / SS);
    SpanIsProduct(q, g.csize);
    Bits.ModUnique(q, j, g.csize);
    k := ofs / SS / g.csize;
  }

  lemma RunLengthIs(ch: seq<nat>, n: nat)
    requires 0 < n <= |ch| && (forall i :: 0 <= i < n ==> ch[i] == ch[0] + i) && (n < |ch| ==> ch[n] != ch[0] + n)
    ensures RunLength(ch) == n
  {
  }

  /** The end mark of the chain is the number after its last cluster: then it looks like one more consecutive
      cluster. It takes a chain that ends in the last cluster of the volume, closed by the number of entries. */
  ghost predicate EndAdjoins(f: seq<nat>, ch: seq<nat>) {
    ch != [] && ch[|ch| - 1] < |f| && f[ch[|ch| - 1]] == ch[|ch| - 1] + 1
  }

  /** j clusters from the i-th on are consecutive, and cl is what the FAT says after them. */
  ghost predicate Running(f: seq<nat>, ch: seq<nat>, i: nat, j: nat, cl: nat) {
    && 0 < j && i + j <= |ch| && (forall x :: i <= x < i + j ==> ch[x] == ch[i] + (x - i))
    && ch[i + j - 1] < |f| && cl == f[ch[i + j - 1]]
  }

  lemma RunningStart(g: Geometry, f: seq<nat>, sclust: nat, ch: seq<nat>, i: nat)
    requires |f| == g.nFatent && ChainOf(f, sclust, ch) && i < |ch|
    ensures g.Cluster(ch[i]) && Running(f, ch, i, 1, f[ch[i]])
  {
  }

  /** What the loop test `cl == pcl + 1` finds out. */
  lemma RunningStep(g: Geometry, f: seq<nat>, sclust: nat, ch: seq<nat>, i: nat, j: nat, cl: nat)
    requires g.Valid() && |f| == g.nFatent && ChainOf(f, sclust, ch) && Running(f, ch, i, j, cl)
    ensures i + j < |ch| ==> cl == ch[i + j] && g.Cluster(cl)
    ensures i + j == |ch| ==> cl >= g.nFatent
    ensures i + j < |ch| && cl == ch[i] + j ==> Running(f, ch, i, j + 1, f[cl])
    ensures i + j < |ch| && cl != ch[i] + j ==> RunLength(ch[i..]) == j
    ensures i + j == |ch| ==> (cl == ch[i] + j <==> EndAdjoins(f, ch)) && RunLength(ch[i..]) == j
  {
    if i + j < |ch| { Follower(f, ch, i + j - 1); }
    if i + j == |ch| || cl != ch[i] + j {
      forall x | 0 <= x < j ensures ch[i..][x] == ch[i..][0] + x { assert ch[i + x] == ch[i] + x; }
      RunLengthIs(ch[i..], j);
    }
  }

  /** The inner loop: one fragment. */
  method ReadFragment(fp: File, tcl: nat, ghost i: nat) returns (ok: bool, ncl: nat, cl: nat)
    requires fp.Core() && i < |fp.chain| && fp.chain[i] == tcl
    modifies fp.fs`disk, fp.fs`winsect, fp.fs`wflag, fp.fs.win
    ensures fp.Core() && fp.View() == old(fp.View()) && fp.Whole() == old(fp.Whole())
    ensures ok ==> ncl == RunLength(fp.chain[i..])
    ensures ok && i + ncl < |fp.chain| ==> cl == fp.chain[i + ncl] && cl < fp.fs.geo.nFatent
    ensures ok && i + ncl == |fp.chain| ==> cl >= fp.fs.geo.nFatent
    ensures ok ==> (i + ncl == |fp.chain| ==> !EndAdjoins(fp.fat, fp.chain))
    ensures !ok ==> EndAdjoins(fp.fat, fp.chain)
  {
    hide *;
    CoreFacts(fp);
    ghost var g, f, ch := fp.fs.geo, fp.fat, fp.chain;
    RunningStart(g, f, fp.sclust, ch, i);
    var pcl := tcl;
    cl := Follow(fp, tcl);
    ChainNoStop(g, f, fp.sclust, ch, i, 1, cl);
    if cl <= 1 { assert false; }  // ABORT(FR_INT_ERR)
    ncl := 1;
    RunningStep(g, f, fp.sclust, ch, i, ncl, cl);
    while cl == pcl + 1
      invariant fp.Core() && fp.View() == old(fp.View()) && fp.Whole() == old(fp.Whole())
      invariant ncl > 0 && i + ncl <= |ch| && Running(f, ch, i, ncl, cl) && pcl == ch[i] + (ncl - 1)
      decreases |ch| - ncl
    {
      RunningStep(g, f, fp.sclust, ch, i, ncl, cl);
      ghost var atEnd := i + ncl == |ch|;
      pcl := cl;
      ncl := ncl + 1;
      cl := Follow(fp, cl);
      if atEnd {
        NotCluster(g, pcl);
      } else {
        ChainNoStop(g, f, fp.sclust, ch, i, ncl, cl);
      }
      if cl <= 1 { return false, ncl, cl; }  // ABORT(FR_INT_ERR)
    }
    RunningStep(g, f, fp.sclust, ch, i, ncl, cl);
    ok := true;
  }

  lemma NotCluster(g: Geometry, c: nat)
    requires c >= g.nFatent
    ensures !g.Cluster(c)
  {
  }

  lemma ChainNoStop(g: Geometry, f: seq<nat>, sclust: nat, ch: seq<nat>, i: nat, j: nat, cl: nat)
    requires g.Valid() && |f| == g.nFatent && ChainOf(f, sclust, ch) && Running(f, ch, i, j, cl)
    ensures cl > 1
  {
    if i + j < |ch| { Follower(f, ch, i + j - 1); }
  }

  /** done are the fragments of the first i clusters. */
  ghost predicate Encoding(ch: seq<nat>, i: nat, done: seq<Fragment>) {
    i <= |ch| && Fragments(ch) == done + Fragments(ch[i..])
  }

  lemma EncodingStart(ch: seq<nat>)
    ensures Encoding(ch, 0, []) && (ch == [] ==> Fragments(ch) == [])
  {
    assert ch[0..] == ch;
  }

  lemma EncodingStep(ch: seq<nat>, i: nat, done: seq<Fragment>)
    requires Encoding(ch, i, done) && i < |ch|
    ensures var n := RunLength(ch[i..]); 0 < n && i + n <= |ch| && Encoding(ch, i + n, done + [Fragment(n, ch[i])])
  {
    hide Fragments, RunLength;
    var n := RunLength(ch[i..]);
    FragmentsStep(ch[i..]);
    assert ch[i..][n..] == ch[i + n..];
    Regroup(done, Fragment(n, ch[i]), Fragments(ch[i + n..]));
  }

  lemma Regroup<T>(a: seq<T>, x: T, b: seq<T>)
    ensures a + ([x] + b) == (a + [x]) + b
  {
  }

  lemma EncodingEnd(ch: seq<nat>, done: seq<Fragment>)
    requires Encoding(ch, |ch|, done)
    ensures done == Fragments(ch)
  {
  }

  /** As long as the table has room (ulen <= tlen) it lists the fragments done. */
  ghost predicate Filled(tbl: seq<nat>, tlen: nat, done: seq<Fragment>, t: nat) {
    tlen <= |tbl| && (2 + 2 * |done| <= tlen ==> t == 1 + 2 * |done| && Listed(tbl, done))
  }

  /** Store one fragment if there is room. */
  method StoreFragment(tbl: array<nat>, tlen: nat, ulen: nat, t: nat, ncl: nat, tcl: nat, ghost done: seq<Fragment>) returns (t': nat)
    requires Filled(tbl[..], tlen, done, t) && ulen == 4 + 2 * |done| && tbl.Length > 0
    modifies tbl
    ensures Filled(tbl[..], tlen, done + [Fragment(ncl, tcl)], t') && tbl[0] == old(tbl[0])
  {
    t' := t;
    if ulen <= tlen {
      tbl[t] := ncl;
      tbl[t + 1] := tcl;
      t' := t + 2;
      FilledGrows(old(tbl[..]), tbl[..], tlen, done, t, Fragment(ncl, tcl));
    }
  }

  lemma FilledGrows(old_: seq<nat>, tbl: seq<nat>, tlen: nat, done: seq<Fragment>, t: nat, x: Fragment)
    requires Filled(old_, tlen, done, t) && 4 + 2 * |done| <= tlen && tbl == old_[t := x.ncl][t + 1 := x.tcl]
    ensures Filled(tbl, tlen, done + [x], t + 2)
  {
    var d := done + [x];
    forall i | 0 <= i < |d| ensures tbl[1 + 2 * i] == d[i].ncl && tbl[2 + 2 * i] == d[i].tcl {
    }
  }

  /** The end of CREATE_LINKMAP: the size that is needed, and the terminator if it fits. */
  method FinishTable(tbl: array<nat>, tlen: nat, ulen: nat, t: nat, ghost done: seq<Fragment>) returns (res: FResult)
    requires Filled(tbl[..], tlen, done, t) && ulen == 2 + 2 * |done| && tbl.Length > 0
    modifies tbl
    ensures tbl[0] == ulen && res == if ulen <= tlen then FR_OK else FR_NOT_ENOUGH_CORE
    ensures res == FR_OK ==> Mapped(tbl[..], done)
  {
    tbl[0] := ulen;
    if ulen <= tlen {
      tbl[t] := 0;
      res := FR_OK;
    } else {
      res := FR_NOT_ENOUGH_CORE;
    }
  }

  /** The table itself. */
  method MakeLinkmap(fp: File, tbl: array<nat>) returns (res: FResult)
    requires fp.Valid() && 0 < tbl.Length && tbl[0] <= tbl.Length
    modifies tbl, fp.fs`disk, fp.fs`winsect, fp.fs`wflag, fp.fs.win
    ensures fp.Valid() && fp.Contents() == old(fp.Contents()) && fp.View() == old(fp.View())
    ensures res == FR_INT_ERR <==> EndAdjoins(fp.fat, fp.chain)
    ensures res == FR_OK || res == FR_NOT_ENOUGH_CORE ==> tbl[0] == 2 + 2 * |Fragments(fp.chain)|
    ensures res == FR_OK ==> tbl[0] <= old(tbl[0]) && Mapped(tbl[..], Fragments(fp.chain))
    ensures res == FR_NOT_ENOUGH_CORE ==> tbl[0] > old(tbl[0])
    ensures res in {FR_OK, FR_INT_ERR, FR_NOT_ENOUGH_CORE}
  {
    hide *;
    ValidFacts(fp);
    SoundFacts(fp);
    CoreFacts(fp);
    ghost var w, v, f, ch := fp.Whole(), fp.View(), fp.fat, fp.chain;
    EncodingStart(ch);
    FilledStart(tbl[..], tbl[0]);
    EmptyChain(fp.fs.geo, f, fp.sclust, ch);
    var tlen, ulen, t, cl := tbl[0], 2, 1, fp.sclust;
    ghost var i, done := 0, [];
    if cl != 0 {
      FirstInChain(f, fp.sclust, ch);
      while cl < fp.fs.geo.nFatent
        invariant fp.Core() && fp.Whole() == w && fp.View() == v && ulen == 2 + 2 * |done|
        invariant i <= |ch| && Encoding(ch, i, done) && Filled(tbl[..], tlen, done, t)
        invariant i < |ch| ==> cl == ch[i]
        invariant i == |ch| ==> cl >= fp.fs.geo.nFatent && !EndAdjoins(f, ch)
        decreases |ch| - i
      {
        EncodingStep(ch, i, done);
        var tcl := cl;
        var ok, ncl, next := ReadFragment(fp, tcl, i);
        ulen := ulen + 2;
        if !ok {
          SoundIntro(fp);
          ValidIntro(fp);
          ValidFacts(fp);
          return FR_INT_ERR;
        }
        t := StoreFragment(tbl, tlen, ulen, t, ncl, tcl, done);
        i, done := i + ncl, done + [Fragment(ncl, tcl)];
        cl := next;
      }
      InRange(fp, i);
    } else {
      NoEnd(f);
    }
    EncodingEnd(ch, done);
    SoundIntro(fp);
    ValidIntro(fp);
    ValidFacts(fp);
    res := FinishTable(tbl, tlen, ulen, t, done);
  }

  /** f_lseek(CREATE_LINKMAP). The first word of tbl is its size on entry and the size needed on return. */
  method CreateLinkmap(fp: File, tbl: array<nat>) returns (res: FResult)
    requires fp.Valid() && 0 < tbl.Length && tbl[0] <= tbl.Length
    modifies tbl, fp`failed, fp.fs`disk, fp.fs`winsect, fp.fs`wflag, fp.fs.win
    ensures fp.Valid() && fp.Contents() == old(fp.Contents()) && fp.View() == old(fp.View())
    ensures res == FR_INT_ERR <==> old(fp.failed) || EndAdjoins(fp.fat, fp.chain)
    ensures fp.failed <==> res == FR_INT_ERR
    ensures res == FR_OK || res == FR_NOT_ENOUGH_CORE ==> tbl[0] == 2 + 2 * |Fragments(fp.chain)|
    ensures res == FR_OK ==> tbl[0] <= old(tbl[0]) && Mapped(tbl[..], Fragments(fp.chain))
    ensures res == FR_NOT_ENOUGH_CORE ==> tbl[0] > old(tbl[0])
    ensures res in {FR_OK, FR_INT_ERR, FR_NOT_ENOUGH_CORE}
  {
    hide *;
    ValidFacts(fp);
    SoundFacts(fp);
    CoreFacts(fp);
    if fp.failed { return FR_INT_ERR; }
    res := MakeLinkmap(fp, tbl);
    if res == FR_INT_ERR {
      ValidFacts(fp);
      SoundFacts(fp);
      fp.failed := true;   // ABORT(FR_INT_ERR)
      SoundIntro(fp);
      ValidIntro(fp);
      ValidFacts(fp);
    }
  }

  lemma NoEnd(f: seq<nat>)
    ensures !EndAdjoins(f, [])
  {
  }

  lemma FilledStart(tbl: seq<nat>, tlen: nat)
    requires tlen <= |tbl|
    ensures Filled(tbl, tlen, [], 1)
  {
  }

  lemma FirstInChain(f: seq<nat>, sclust: nat, ch: seq<nat>)
    requires ChainOf(f, sclust, ch) && sclust != 0
    ensures ch != [] && sclust == ch[0]
  {
  }

  lemma InRange(fp: File, i: nat)
    requires fp.Core()
    ensures i < |fp.chain| ==> fp.chain[i] < fp.fs.geo.nFatent
  {
  }

  /** Following k FAT links from cluster c. */
  ghost function Walk(f: seq<nat>, c: nat, k: nat): nat {
    if k == 0 then c else var p := Walk(f, c, k - 1); if p < |f| then f[p] else p
  }

  lemma {:induction false} ChainIsWalk(f: seq<nat>, ch: seq<nat>, k: nat)
    requires IsChain(f, ch) && k < |ch|
    ensures Walk(f, ch[0], k) == ch[k]
  {
    if k > 0 {
      ChainIsWalk(f, ch, k - 1);
      Follower(f, ch, k - 1);
    }
  }

  /** In every valid state, however the cursor got where it is, its cluster is the one that a walk of the FAT from
      the first cluster reaches, and inside a sector the buffer holds the cursor's sector of that cluster. */
  lemma CursorIsWalk(fp: File)
    requires fp.Valid() && fp.fptr > 0
    ensures fp.fs.geo.csize > 0 && fp.clust == Walk(fp.fat, fp.sclust, ClusterOf(fp.fs.geo, fp.fptr - 1))
    ensures Inside(fp.fptr) ==> fp.fs.geo.Cluster(fp.clust)
    ensures Inside(fp.fptr) ==> fp.dsect == fp.fs.geo.Base(fp.clust) + Rem(Sec(fp.fptr), fp.fs.geo.csize)
  {
    hide *;
    ValidFacts(fp);
    SoundFacts(fp);
    CoreFacts(fp);
    HoldsWalk(fp.fs.geo, fp.fat, fp.sclust, fp.chain, fp.fptr - 1, fp.clust);
    if Inside(fp.fptr) {
      MidInside(fp);
      HoldsSector(fp.fs.geo, fp.fat, fp.sclust, fp.chain, fp.fptr, fp.clust);
    }
  }

  lemma MidInside(fp: File)
    requires fp.Sound() && Inside(fp.fptr)
    ensures Holds(fp.fs.geo, fp.chain, fp.fptr, fp.clust)
    ensures Clusters(fp.fs.geo, fp.chain) && Sec(fp.fptr) < |Sectors(fp.fs.geo, fp.chain)|
    ensures fp.dsect == Sectors(fp.fs.geo, fp.chain)[Sec(fp.fptr)]
  {
    MidSector(fp);
  }

  lemma HoldsWalk(g: Geometry, f: seq<nat>, sclust: nat, ch: seq<nat>, i: nat, clust: nat)
    requires g.Valid() && ChainOf(f, sclust, ch) && Holds(g, ch, i, clust)
    ensures g.csize > 0 && clust == Walk(f, sclust, ClusterOf(g, i))
  {
    ChainIsWalk(f, ch, ClusterOf(g, i));
  }

  lemma HoldsSector(g: Geometry, f: seq<nat>, sclust: nat, ch: seq<nat>, i: nat, clust: nat)
    requires g.Valid() && |f| == g.nFatent && ChainOf(f, sclust, ch) && Holds(g, ch, i, clust)
    requires Clusters(g, ch) && Sec(i) < |Sectors(g, ch)|
    ensures g.Cluster(clust) && Sectors(g, ch)[Sec(i)] == g.Base(clust) + Rem(Sec(i), g.csize)
  {
    SectorOf(g, ch, i / SS);
  }

  /** The reader of the table agrees with the FAT. */
  lemma MapIsWalk(f: seq<nat>, sclust: nat, ch: seq<nat>, fs: seq<Fragment>, k: nat)
    requires ChainOf(f, sclust, ch) && k < |ch| && fs == Fragments(ch)
    ensures k < |Expand(fs)| && Expand(fs)[k] == Walk(f, sclust, k)
  {
    FragmentsExact(ch);
    ChainIsWalk(f, ch, k);
  }

  /** File byte i of a chain: cluster and sector. */
  lemma ByteSector(g: Geometry, f: seq<nat>, sclust: nat, ch: seq<nat>, i: nat)
    requires g.Valid() && |f| == g.nFatent && ChainOf(f, sclust, ch) && i < Span(|ch|, g.csize) * SS
    ensures ClusterOf(g, i) < |ch| && g.Cluster(ch[ClusterOf(g, i)]) && ch[ClusterOf(g, i)] < DWORDS
    ensures Holds(g, ch, i, ch[ClusterOf(g, i)]) && Clusters(g, ch) && Sec(i) < |Sectors(g, ch)|
    ensures Sectors(g, ch)[Sec(i)] == g.Base(ch[ClusterOf(g, i)]) + Rem(Sec(i), g.csize)
    ensures Inside(i + 1) ==> Sec(i + 1) == Sec(i)
  {
    ChainClusters(g, f, sclust, ch);
    ClusterCount(g, i / SS, |ch|);
    SectorOf(g, ch, i / SS);
  }

  method SectorNumber(g: Geometry, clst: nat, i: nat) returns (dsc: nat)
    requires g.Valid() && g.Cluster(clst) && clst < DWORDS
    ensures dsc == g.Base(clst) + Rem(Sec(i), g.csize)
  {
    dsc := Clust2Sect(g, clst);
    if dsc == 0 { assert false; }  // ABORT(FR_INT_ERR)
    var j := SectorInCluster(g, i / SS);
    dsc := dsc + j;
  }

  /** Fast seek to a position behind the first byte. */
  method FastMove(fp: File, tbl: array<nat>, to: nat)
    requires fp.Core() && fp.fptr == 0 && Mapped(tbl[..], Fragments(fp.chain)) && 0 < to <= fp.fsize
    modifies fp`fptr, fp`clust, fp`dirty, fp`log, fp`dsect, fp.buf, fp.fs`disk
    ensures fp.Sound() && fp.Core() && fp.fptr == to && (fp.dirty ==> old(fp.dirty))
    ensures fp.Whole() == old(fp.Whole()) && fp.View() == old(fp.View())
  {
    hide *;
    CoreFacts(fp);
    ghost var g, ch := fp.fs.geo, fp.chain;
    ByteSector(g, fp.fat, fp.sclust, ch, to - 1);
    fp.clust := ClmtClust(tbl, fp.fs.geo, to - 1, ch);
    var dsc := SectorNumber(fp.fs.geo, fp.clust, to - 1);
    if Inside(to) {
      ZeroAligned();
      FillBuf(fp, dsc, Sec(to - 1));
      CoreFacts(fp);
    }
    PositionedAt(g, ch, 0, fp.fsize, to);
    BufferedSeek(g, fp.fat, ch, fp.log, 0, to, fp.dsect, fp.dirty, fp.buf[..]);
    MoveTo(fp, to);
    SoundIntro(fp);
  }

  /** f_lseek with a link map: the same cursor, cluster and buffer as the normal seek of a read-only file. */
  method FastSeek(fp: File, tbl: array<nat>, ofs: nat) returns (res: FResult)
    requires fp.Valid() && Mapped(tbl[..], Fragments(fp.chain))
    modifies fp`fptr, fp`clust, fp`dirty, fp`log, fp`dsect, fp.buf, fp.fs`disk
    ensures fp.Valid() && res == if fp.failed then FR_INT_ERR else FR_OK
    ensures fp.fptr == if fp.failed then old(fp.fptr) else if ofs <= fp.fsize then ofs else fp.fsize
    ensures fp.Contents() == old(fp.Contents()) && fp.View() == old(fp.View())
  {
    hide *;
    ValidFacts(fp);
    CoreFacts(fp);
    if fp.failed { return FR_INT_ERR; }
    res := FR_OK;
    var to := ofs;
    if ofs > fp.fsize { to := fp.fsize; }
    PositionedAt(fp.fs.geo, fp.chain, fp.fptr, fp.fsize, 0);
    AtStart(fp.fs.geo, fp.fat, fp.chain, fp.log, fp.fptr, fp.dsect, fp.dirty, fp.buf[..]);
    MoveTo(fp, 0);
    if to > 0 {
      FastMove(fp, tbl, to);
    } else {
      SoundIntro(fp);
    }
    ValidIntro(fp);
    ValidFacts(fp);
  }

  lemma ZeroAligned()
    ensures SS > 0 && 0 % SS == 0
  {
  }
}
