/** f_read. */
module FileRead {
  import opened Layout
  import opened Window
  import opened FatAccess
  import opened FileMap
  import opened FileSpec
  import opened OpenFile

  /** The part of f_read's loop that finds the sector at a sector boundary. */
  method ReadCluster(fp: File) returns (sect: nat, csect: nat)
    requires fp.Sound() && fp.fptr % SS == 0 && fp.fptr < fp.fsize
    modifies fp`clust, fp.fs`disk, fp.fs`winsect, fp.fs`wflag, fp.fs.win
    ensures fp.Core() && fp.View() == old(fp.View()) && fp.Whole() == old(fp.Whole())
    ensures Holds(fp.fs.geo, fp.chain, fp.fptr, fp.clust)
    ensures Clusters(fp.fs.geo, fp.chain) && fp.fptr / SS < |Sectors(fp.fs.geo, fp.chain)|
    ensures sect == Sectors(fp.fs.geo, fp.chain)[fp.fptr / SS]
    ensures fp.fs.geo.csize > 0 && csect == Rem(fp.fptr / SS, fp.fs.geo.csize) && (fp.fs.wflag ==> old(fp.fs.wflag))
  {
    hide *;
    SoundFacts(fp);
    CoreFacts(fp);
    csect := SectorInCluster(fp.fs.geo, fp.fptr / SS);
    NextClusterOf(fp.fs.geo, fp.fat, fp.sclust, fp.chain, fp.fptr, fp.clust);
    if csect == 0 {
      var clst;
      if fp.fptr == 0 {
        clst := fp.sclust;
      } else {
        clst := Follow(fp, fp.clust);
      }
      if clst < 2 { assert false; }   // ABORT(FR_INT_ERR)
      fp.clust := clst;
    }
    CursorSector(fp.fs.geo, fp.fat, fp.sclust, fp.chain, fp.fptr, fp.clust);
    ClusterRange(fp.fs.geo, fp.clust);
    sect := Clust2Sect(fp.fs.geo, fp.clust);
    if sect == 0 { assert false; }    // ABORT(FR_INT_ERR)
    sect := sect + csect;
  }

  /** f_read: get the sector into the private buffer. */
  method FillBuf(fp: File, sect: nat, ghost q: nat)
    requires fp.Core() && fp.fptr % SS == 0
    requires Clusters(fp.fs.geo, fp.chain) && q < |Sectors(fp.fs.geo, fp.chain)| && sect == Sectors(fp.fs.geo, fp.chain)[q]
    modifies fp`dirty, fp`log, fp`dsect, fp.buf, fp.fs`disk
    ensures fp.Core() && fp.dsect == sect && sect < |fp.View()|
    ensures fp.View() == old(fp.View()) && fp.buf[..] == fp.View()[sect]
    ensures fp.Whole() == old(fp.Whole()) && (fp.dirty ==> old(fp.dirty))
  {
    hide *;
    CoreFacts(fp);
    WholeIs(fp);
    FitsEnd(fp.fs.geo, fp.log);
    BufferedLoad(fp.fs.geo, fp.fat, fp.chain, fp.log, fp.fptr, q, fp.fs.winsect);
    if fp.dsect != sect {
      if fp.dirty { FlushBuf(fp); }
      CoreFacts(fp);
      FitsEnd(fp.fs.geo, fp.log);
      BufferedLoad(fp.fs.geo, fp.fat, fp.chain, fp.log, fp.fptr, q, fp.fs.winsect);
      ViewIs(fp);
      var data := DiskRead(fp.fs, sect);
      ReadInto(fp.buf, data);
      fp.dsect := sect;
      CoreIntro(fp);
      ViewIs(fp);
    }
    WholeIs(fp);
    BufShows(fp);
  }

  /** Bytes of one sector, from the buffer that holds it. */
  lemma SectorBytes(d: seq<Sector>, ss: seq<nat>, p: nat, n: nat)
    requires OnDisk(d, ss) && p / SS < |ss| && p % SS + n <= SS
    ensures p + n <= |Bytes(d, ss)| && Bytes(d, ss)[p..p + n] == d[ss[p / SS]][p % SS..p % SS + n]
  {
    assert p + n <= (p / SS + 1) * SS;
    forall i | p <= i < p + n ensures Bytes(d, ss)[i] == d[ss[p / SS]][p % SS + (i - p)] {
      assert i / SS == p / SS && i % SS == p % SS + (i - p);
    }
  }

  lemma CopiedIntro(dst: seq<byte>, dst': seq<byte>, ofs: nat, src: seq<byte>, p: nat, n: nat)
    requires p + n <= |src| && ofs + n <= |dst| && dst' == Splice(dst, ofs, src[p..p + n])
    ensures Copied(dst, dst', ofs, src, p, n)
  {
  }

  /** f_read: the rest of the current sector, out of the buffer. */
  method ReadPartial(fp: File, rbuff: array<byte>, ofs: nat, btr: nat) returns (rcnt: nat)
    requires fp.Core() && 0 < btr <= fp.fsize - fp.fptr && ofs + btr <= rbuff.Length
    requires rbuff != fp.buf && rbuff != fp.fs.win
    requires Holds(fp.fs.geo, fp.chain, fp.fptr, fp.clust)
    requires Clusters(fp.fs.geo, fp.chain) && fp.fptr / SS < |Sectors(fp.fs.geo, fp.chain)|
    requires fp.dsect == Sectors(fp.fs.geo, fp.chain)[fp.fptr / SS] && fp.dsect != 0
    modifies fp`fptr, rbuff
    ensures fp.Sound() && fp.Core() && 0 < rcnt <= btr && fp.fptr == old(fp.fptr) + rcnt && fp.View() == old(fp.View())
    ensures fp.Whole() == old(fp.Whole())
    ensures Copied(old(rbuff[..]), rbuff[..], ofs, fp.Whole(), old(fp.fptr), rcnt)
  {
    hide *;
    CoreFacts(fp);
    BufShows(fp);
    WholeIs(fp);
    rcnt := SS - fp.fptr % SS;
    if rcnt > btr { rcnt := btr; }
    SectorBytes(fp.View(), Sectors(fp.fs.geo, fp.chain), fp.fptr, rcnt);
    CopyBytes(rbuff, ofs, fp.buf[fp.fptr % SS..fp.fptr % SS + rcnt]);
    CopiedIntro(old(rbuff[..]), rbuff[..], ofs, fp.Whole(), fp.fptr, rcnt);
    BufferedAdvance(fp.fs.geo, fp.fat, fp.chain, fp.log, fp.fptr, rcnt, fp.dsect, fp.dirty, fp.buf[..]);
    PositionedAt(fp.fs.geo, fp.chain, fp.fptr, fp.fsize, fp.fptr + rcnt);
    HoldsAdvance(fp.fs.geo, fp.chain, fp.fptr, rcnt, fp.clust);
    MoveTo(fp, fp.fptr + rcnt);
    SoundIntro(fp);
  }

  /** disk_read of cc sectors into the caller's buffer. */
  method ReadSectors(fs: Volume, rbuff: array<byte>, ofs: nat, sect: nat, cc: nat)
    requires fs.Valid() && rbuff != fs.win && ofs + cc * SS <= rbuff.Length
    requires fs.geo.RootBase() <= sect && sect + cc <= |fs.disk|
    requires !(sect <= fs.winsect < sect + cc)
    modifies rbuff
    ensures sect + cc <= |fs.Logical()|
    ensures rbuff[..] == Splice(old(rbuff[..]), ofs, Flat(fs.Logical()[sect..sect + cc]))
  {
    hide *;
    ghost var secs := fs.Logical()[sect..sect + cc];
    ghost var before := rbuff[..];
    var j := 0;
    SpliceNothing(rbuff[..], ofs, secs);
    while j < cc
      invariant 0 <= j <= cc
      invariant CopiedSectors(before, rbuff[..], ofs, secs, j)
    {
      var data := DiskRead(fs, sect + j);
      ghost var mid := rbuff[..];
      SectorRoom(ofs, j, cc, rbuff.Length, data);
      CopyBytes(rbuff, ofs + j * SS, data);
      CopiedSectorsStep(before, mid, rbuff[..], ofs, secs, j);
      j := j + 1;
    }
    CopiedAll(before, rbuff[..], ofs, secs);
  }

  ghost predicate CopiedSectors(x: seq<byte>, y: seq<byte>, ofs: nat, secs: seq<Sector>, j: nat) {
    j <= |secs| && ofs + |secs| * SS <= |x| && y == Splice(x, ofs, Flat(secs[..j]))
  }

  lemma CopiedSectorsStep(x: seq<byte>, y: seq<byte>, z: seq<byte>, ofs: nat, secs: seq<Sector>, j: nat)
    requires j < |secs| && CopiedSectors(x, y, ofs, secs, j) && z == Splice(y, ofs + j * SS, secs[j])
    ensures CopiedSectors(x, z, ofs, secs, j + 1)
  {
    SpliceFlatStep(x, ofs, secs, j);
  }

  lemma CopiedAll(x: seq<byte>, y: seq<byte>, ofs: nat, secs: seq<Sector>)
    requires CopiedSectors(x, y, ofs, secs, |secs|)
    ensures y == Splice(x, ofs, Flat(secs))
  {
    assert secs[..|secs|] == secs;
  }

  lemma SpliceNothing(x: seq<byte>, ofs: nat, secs: seq<Sector>)
    requires ofs + |secs| * SS <= |x|
    ensures CopiedSectors(x, x, ofs, secs, 0)
  {
  }

  lemma OverlayRun(d: seq<Sector>, v: seq<Sector>, sect: nat, cc: nat, dsect: nat, dirty: bool, buf: Sector)
    requires sect + cc <= |d| && (dirty ==> dsect < |d|) && v == (if dirty then d[dsect := buf] else d)
    ensures dirty && sect <= dsect < sect + cc ==> v[sect..sect + cc] == d[sect..sect + cc][dsect - sect := buf]
    ensures !(dirty && sect <= dsect < sect + cc) ==> v[sect..sect + cc] == d[sect..sect + cc]
  {
  }

  /** The caller's buffer after disk_read and the patch from the dirty private buffer. */
  method ReadPatched(fp: File, rbuff: array<byte>, ofs: nat, sect: nat, cc: nat)
    requires fp.Core() && ofs + cc * SS <= rbuff.Length && rbuff != fp.buf && rbuff != fp.fs.win && cc > 0
    requires fp.fs.geo.RootBase() <= sect && sect + cc <= |fp.fs.disk| && sect + cc <= DWORDS
    requires !(sect <= fp.fs.winsect < sect + cc)
    modifies rbuff
    ensures fp.Core() && sect + cc <= |fp.View()|
    ensures rbuff[..] == Splice(old(rbuff[..]), ofs, Flat(fp.View()[sect..sect + cc]))
  {
    hide *;
    CoreFacts(fp);
    ViewIs(fp);
    ghost var before := rbuff[..];
    ReadSectors(fp.fs, rbuff, ofs, sect, cc);
    OverlayRun(fp.log, fp.View(), sect, cc, fp.dsect, fp.dirty, fp.buf[..]);
    if fp.dirty {
      DirtyRange(fp);
      MinusInRun(fp.dsect, sect, cc);
      if Minus(fp.dsect, sect) < cc {
        SectorRoom(ofs, fp.dsect - sect, cc, rbuff.Length, fp.buf[..]);
        SpliceFlatPatch(before, ofs, fp.log[sect..sect + cc], fp.dsect - sect, fp.buf[..]);
        CopyBytes(rbuff, ofs + (fp.dsect - sect) * SS, fp.buf[..]);
      }
    }
  }

  lemma DirtyRange(fp: File)
    requires fp.Core() && fp.dirty
    ensures fp.dsect < DWORDS
  {
    OursInData(fp.fs.geo, fp.fat, fp.chain, fp.dsect);
  }

  /** The direct transfer of f_read. */
  method ReadRun(fp: File, rbuff: array<byte>, ofs: nat, sect: nat, cc: nat, n: nat, ghost q: nat)
    requires fp.Core() && WholeSectors(fp.fptr, q, n, cc) && ofs + n <= rbuff.Length && cc > 0
    requires rbuff != fp.buf && rbuff != fp.fs.win
    requires Clusters(fp.fs.geo, fp.chain) && q < |Sectors(fp.fs.geo, fp.chain)|
    requires sect == Sectors(fp.fs.geo, fp.chain)[q]
    requires fp.fs.geo.csize > 0 && Rem(q, fp.fs.geo.csize) + cc <= fp.fs.geo.csize
    modifies rbuff
    ensures fp.Core() && fp.View() == old(fp.View()) && fp.Whole() == old(fp.Whole())
    ensures Copied(old(rbuff[..]), rbuff[..], ofs, fp.Whole(), fp.fptr, n)
    ensures fp.fptr + n <= |fp.Whole()|
  {
    hide *;
    WholeSectorsFacts(fp.fptr, q, n, cc);
    CoreFacts(fp);
    WholeIs(fp);
    ViewIs(fp);
    FitsEnd(fp.fs.geo, fp.log);
    RunAway(fp.fs.geo, fp.fat, fp.chain, q, cc, fp.fs.winsect);
    ReadPatched(fp, rbuff, ofs, sect, cc);
    RunFits(q, cc, |Sectors(fp.fs.geo, fp.chain)|);
    FlatBytes(fp.View(), Sectors(fp.fs.geo, fp.chain), q, cc, sect);
    CopiedIntro(old(rbuff[..]), rbuff[..], ofs, fp.Whole(), fp.fptr, n);
  }

  /** f_read: whole sectors straight into the caller's buffer. */
  method ReadDirect(fp: File, rbuff: array<byte>, ofs: nat, sect: nat, cc: nat, n: nat, ghost q: nat)
    requires fp.Core() && WholeSectors(fp.fptr, q, n, cc) && cc > 0 && ofs + n <= rbuff.Length
    requires rbuff != fp.buf && rbuff != fp.fs.win && fp.fptr + n <= fp.fsize
    requires Holds(fp.fs.geo, fp.chain, fp.fptr, fp.clust)
    requires Clusters(fp.fs.geo, fp.chain) && q < |Sectors(fp.fs.geo, fp.chain)|
    requires sect == Sectors(fp.fs.geo, fp.chain)[q]
    requires fp.fs.geo.csize > 0 && Rem(q, fp.fs.geo.csize) + cc <= fp.fs.geo.csize
    modifies fp`fptr, rbuff
    ensures fp.Sound() && fp.Core() && fp.fptr == old(fp.fptr) + n && fp.View() == old(fp.View())
    ensures fp.Whole() == old(fp.Whole())
    ensures Copied(old(rbuff[..]), rbuff[..], ofs, fp.Whole(), old(fp.fptr), n)
  {
    hide *;
    CoreFacts(fp);
    ReadRun(fp, rbuff, ofs, sect, cc, n, q);
    HoldsRun(fp.fs.geo, fp.chain, q, cc, fp.fptr, n, fp.clust);
    BufferedAt(fp.fs.geo, fp.fat, fp.chain, fp.log, fp.fptr, q, n, cc, fp.dsect, fp.dirty, fp.buf[..]);
    PositionedAt(fp.fs.geo, fp.chain, fp.fptr, fp.fsize, fp.fptr + n);
    MoveTo(fp, fp.fptr + n);
    SoundIntro(fp);
  }

  /** At a sector boundary with at least a sector to go: clip at the cluster, transfer directly. */
  method ReadWhole(fp: File, rbuff: array<byte>, ofs: nat, btr: nat, sect: nat, csect: nat, ghost q: nat)
    returns (rcnt: nat)
    requires fp.Core() && AtSector(fp.fptr, q) && SS <= btr <= fp.fsize - fp.fptr && ofs + btr <= rbuff.Length
    requires rbuff != fp.buf && rbuff != fp.fs.win
    requires Holds(fp.fs.geo, fp.chain, fp.fptr, fp.clust)
    requires Clusters(fp.fs.geo, fp.chain) && q < |Sectors(fp.fs.geo, fp.chain)|
    requires sect == Sectors(fp.fs.geo, fp.chain)[q]
    requires fp.fs.geo.csize > 0 && csect == Rem(q, fp.fs.geo.csize)
    modifies fp`fptr, rbuff
    ensures fp.Sound() && fp.Core() && 0 < rcnt <= btr && fp.fptr == old(fp.fptr) + rcnt && fp.View() == old(fp.View())
    ensures fp.Whole() == old(fp.Whole())
    ensures Copied(old(rbuff[..]), rbuff[..], ofs, fp.Whole(), old(fp.fptr), rcnt)
  {
    var cc := btr / SS;
    if csect + cc > fp.fs.geo.csize {
      cc := fp.fs.geo.csize - csect;
    }
    rcnt := SS * cc;
    assert 0 < rcnt <= btr && WholeSectors(fp.fptr, q, rcnt, cc);
    hide *;
    ReadDirect(fp, rbuff, ofs, sect, cc, rcnt, q);
  }

  /** f_read's loop body at a sector boundary. */
  method ReadBoundary(fp: File, rbuff: array<byte>, ofs: nat, btr: nat, ghost q: nat) returns (rcnt: nat)
    requires fp.Sound() && 0 < btr <= fp.fsize - fp.fptr && ofs + btr <= rbuff.Length
    requires rbuff != fp.buf && rbuff != fp.fs.win && fp.fptr % SS == 0 && q == fp.fptr / SS
    modifies fp`clust, fp`dirty, fp`log, fp`dsect, fp`fptr, fp.buf
    modifies fp.fs`disk, fp.fs`winsect, fp.fs`wflag, fp.fs.win, rbuff
    ensures fp.Sound() && fp.Core() && 0 < rcnt <= btr && fp.fptr == old(fp.fptr) + rcnt
    ensures (fp.dirty ==> old(fp.dirty)) && (fp.fs.wflag ==> old(fp.fs.wflag))
    ensures fp.View() == old(fp.View()) && fp.Whole() == old(fp.Whole())
    ensures Copied(old(rbuff[..]), rbuff[..], ofs, fp.Whole(), old(fp.fptr), rcnt)
  {
    hide *;
    AtSectorIntro(fp.fptr, q);
    var direct := btr >= SS;
    SoundFacts(fp);
    var sect, csect := ReadCluster(fp);
    if direct {
      rcnt := ReadWhole(fp, rbuff, ofs, btr, sect, csect, q);
    } else {
      FillBuf(fp, sect, q);
      SectorNotZero(fp, q);
      rcnt := ReadPartial(fp, rbuff, ofs, btr);
    }
  }

  /** One round of f_read's loop. */
  method ReadStep(fp: File, rbuff: array<byte>, ofs: nat, btr: nat) returns (rcnt: nat)
    requires fp.Sound() && 0 < btr <= fp.fsize - fp.fptr && ofs + btr <= rbuff.Length
    requires rbuff != fp.buf && rbuff != fp.fs.win
    modifies fp`clust, fp`dirty, fp`log, fp`dsect, fp`fptr, fp.buf
    modifies fp.fs`disk, fp.fs`winsect, fp.fs`wflag, fp.fs.win, rbuff
    ensures fp.Sound() && fp.Core() && 0 < rcnt <= btr && fp.fptr == old(fp.fptr) + rcnt
    ensures (fp.dirty ==> old(fp.dirty)) && (fp.fs.wflag ==> old(fp.fs.wflag))
    ensures fp.View() == old(fp.View()) && fp.Whole() == old(fp.Whole())
    ensures Copied(old(rbuff[..]), rbuff[..], ofs, fp.Whole(), old(fp.fptr), rcnt)
  {
    var boundary := fp.fptr % SS == 0;
    ghost var q := fp.fptr / SS;
    hide *;
    if boundary {
      rcnt := ReadBoundary(fp, rbuff, ofs, btr, q);
    } else {
      SoundFacts(fp);
      MidSector(fp);
      rcnt := ReadPartial(fp, rbuff, ofs, btr);
    }
  }

  lemma CopiedNothing(x: seq<byte>, ofs: nat, src: seq<byte>, p: nat)
    requires p <= |src| && ofs <= |x|
    ensures Copied(x, x, ofs, src, p, 0)
  {
  }

  lemma CopiedPrefix(x: seq<byte>, y: seq<byte>, ofs: nat, src: seq<byte>, k: nat, p: nat, n: nat)
    requires Copied(x, y, ofs, src, p, n) && p + n <= k <= |src|
    ensures Copied(x, y, ofs, src[..k], p, n)
  {
    assert src[..k][p..p + n] == src[p..p + n];
  }

  /** f_read: the next min(btr, rest of the file) bytes of the file. */
  method Read(fp: File, rbuff: array<byte>, btr: nat) returns (res: FResult, br: nat)
    requires fp.Valid() && btr <= rbuff.Length && rbuff != fp.buf && rbuff != fp.fs.win
    modifies fp`clust, fp`dirty, fp`log, fp`dsect, fp`fptr, fp.buf
    modifies fp.fs`disk, fp.fs`winsect, fp.fs`wflag, fp.fs.win, rbuff
    ensures fp.Valid() && fp.Contents() == old(fp.Contents()) && fp.View() == old(fp.View())
    ensures res == if fp.failed then FR_INT_ERR else if fp.canRead then FR_OK else FR_DENIED
    ensures br == if fp.failed || !fp.canRead then 0 else if btr < fp.fsize - old(fp.fptr) then btr else fp.fsize - old(fp.fptr)
    ensures fp.fptr == old(fp.fptr) + br && (fp.fs.wflag ==> old(fp.fs.wflag))
    ensures Copied(old(rbuff[..]), rbuff[..], 0, fp.Contents(), old(fp.fptr), br)
  {
    hide *;
    ValidFacts(fp);
    CopiedNothing(rbuff[..], 0, fp.Contents(), fp.fptr);
    CopiedNothing(rbuff[..], 0, fp.Whole(), fp.fptr);
    br := 0;
    if fp.failed {
      return FR_INT_ERR, 0;
    }
    if !fp.canRead {
      return FR_DENIED, 0;
    }
    var rest := btr;
    if rest > fp.fsize - fp.fptr { rest := fp.fsize - fp.fptr; }
    ghost var n, p := rest, fp.fptr;
    ghost var v, w, x := fp.View(), fp.Whole(), rbuff[..];
    while rest > 0
      invariant fp.Sound() && fp.Core() && fp.Whole() == w && fp.View() == v && br + rest == n && rest >= 0
      invariant fp.fptr == p + br && p + n <= fp.fsize && (fp.dirty ==> fp.written) && (fp.fs.wflag ==> old(fp.fs.wflag))
      invariant Copied(x, rbuff[..], 0, w, p, br)
    {
      ghost var y := rbuff[..];
      var rcnt := ReadStep(fp, rbuff, br, rest);
      CopiedTwice(x, y, rbuff[..], 0, w, p, br, rcnt);
      br := br + rcnt;
      rest := rest - rcnt;
    }
    ValidIntro(fp);
    ValidFacts(fp);
    CopiedPrefix(x, rbuff[..], 0, w, fp.fsize, p, br);
    res := FR_OK;
  }
}
