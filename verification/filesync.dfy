/** sync, f_sync, and what the medium alone says about a file. */
module FileSync {
  import opened Layout
  import opened Bits
  import opened ByteOrder
  import opened DirEntry
  import opened Window
  import opened FatAccess
  import opened FileMap
  import opened FileSpec
  import opened OpenFile

  /** The stores of f_sync through dir_ptr. */
  method Stamp(a: array<byte>, o: nat, size: nat, c: nat, tim: nat)
    requires a.Length == SS && o + SZ_DIR <= SS
    modifies a
    ensures a[..] == Stamped(old(a[..]), o, size, c, tim)
  {
    hide PutWord, PutDword, Digit, Or;
    ghost var s := Archived(a[..], o);
    OrBound(At(a[..], o + DIR_ATTR), AM_ARC, 8);
    Pow2Values();
    a[o + DIR_ATTR] := Or(a[o + DIR_ATTR] as nat, AM_ARC) as byte;
    assert a[..] == s;
    StoreDword(a, o + DIR_FILESIZE, size);
    StoreWord(a, o + DIR_FSTCLUSLO, c);
    StoreWord(a, o + DIR_FSTCLUSHI, c / 0x1_0000);
    StoreDword(a, o + DIR_WRTTIME, tim);
  }

  method StoreFsInfo(a: array<byte>, free: nat, last: nat)
    requires a.Length == SS
    modifies a
    ensures a[..] == FsInfo(free, last)
  {
    hide PutWord, PutDword, Digit;
    ClearWindow(a);
    StoreWord(a, BS_55AA, 0xAA55);
    StoreDword(a, FSI_LEADSIG, 0x41615252);
    StoreDword(a, FSI_STRUCSIG, 0x61417272);
    StoreDword(a, FSI_FREE_COUNT, free);
    StoreDword(a, FSI_NXT_FREE, last);
  }

  /** The disk after sync, from the disk the window showed. */
  ghost function Synced(g: Geometry, d: seq<Sector>, fsi: bool, free: nat, last: nat): (e: seq<Sector>)
    requires Fits(g, d)
    ensures |e| == |d|
  {
    if g.fsType == FAT32 && fsi then d[g.fsiSector := FsInfo(free, last)] else d
  }

  /** sync: afterwards the disk itself is the logical disk, with an up to date FSInfo sector. */
  method SyncVolume(fs: Volume)
    requires fs.Valid()
    modifies fs`disk, fs`winsect, fs`wflag, fs`fsiFlag, fs.win
    ensures fs.Valid() && !fs.wflag && fs.Logical() == fs.disk
    ensures fs.disk == Synced(fs.geo, old(fs.Logical()), old(fs.fsiFlag), fs.freeClust, fs.lastClust)
    ensures fs.winsect in {0, old(fs.winsect)} && fs.fsiFlag == (old(fs.fsiFlag) && fs.geo.fsType != FAT32)
  {
    hide FsInfo, WithSector;
    MoveWindow(fs, 0);
    if fs.geo.fsType == FAT32 && fs.fsiFlag {
      fs.winsect := 0;
      StoreFsInfo(fs.win, fs.freeClust, fs.lastClust);
      fs.disk := fs.disk[fs.geo.fsiSector := fs.win[..]];
      fs.fsiFlag := false;
    }
  }

  /** d and e differ at most in sector s and, on FAT32, in the FSInfo sector. */
  ghost predicate OnlyEntry(g: Geometry, d: seq<Sector>, e: seq<Sector>, s: nat) {
    |e| == |d| && forall t :: 0 <= t < |d| && t != s && !(g.fsType == FAT32 && t == g.fsiSector) ==> e[t] == d[t]
  }

  lemma EntryFat(g: Geometry, d: seq<Sector>, e: seq<Sector>, s: nat)
    requires Fits(g, d) && OnlyEntry(g, d, e, s) && g.RootBase() <= s
    ensures Fits(g, e) && Fat(g, e) == Fat(g, d)
  {
    FatElsewhere(g, d, e);
  }

  lemma EntryBuffered(g: Geometry, f: seq<nat>, ch: seq<nat>, d: seq<Sector>, e: seq<Sector>, s: nat,
                      p: nat, dsect: nat, buf: seq<byte>)
    requires g.Valid() && OnlyEntry(g, d, e, s) && Away(g, f, ch, s)
    requires Buffered(g, f, ch, d, p, dsect, false, buf)
    ensures Buffered(g, f, ch, e, p, dsect, false, buf)
  {
    if dsect != 0 {
      AwayFromOurs(g, f, ch, s, dsect);
      OursInData(g, f, ch, dsect);
    }
  }

  lemma EntryBytes(g: Geometry, f: seq<nat>, ch: seq<nat>, d: seq<Sector>, e: seq<Sector>, s: nat)
    requires g.Valid() && OnlyEntry(g, d, e, s) && Away(g, f, ch, s) && |f| == g.nFatent && Clusters(g, ch)
    requires OnDisk(d, Sectors(g, ch))
    ensures OnDisk(e, Sectors(g, ch)) && Bytes(e, Sectors(g, ch)) == Bytes(d, Sectors(g, ch))
  {
    var ss := Sectors(g, ch);
    forall q | 0 <= q < |ss| ensures e[ss[q]] == d[ss[q]] {
      SectorIsOurs(g, f, ch, q);
      AwayFromOurs(g, f, ch, s, ss[q]);
      OursInData(g, f, ch, ss[q]);
    }
    assert Bytes(e, ss) == Bytes(d, ss);
  }

  /** Sector s and offset o of the medium d hold the directory entry of a file with bytes b and clusters ch. */
  ghost predicate Stored(g: Geometry, d: seq<Sector>, s: nat, o: nat, ch: seq<nat>, b: seq<byte>) {
    && Fits(g, d) && s < |d| && o + SZ_DIR <= SS
    && LdSize(d[s], o) == |b|
    && ChainOf(Fat(g, d), LdClust(d[s], o), ch)
    && Clusters(g, ch) && OnDisk(d, Sectors(g, ch))
    && |b| <= |Bytes(d, Sectors(g, ch))| && b == Bytes(d, Sectors(g, ch))[..|b|]
  }

  lemma StampStored(g: Geometry, f: seq<nat>, d: seq<Sector>, s: nat, o: nat, old_: Sector,
                    sclust: nat, ch: seq<nat>, size: nat, tim: nat)
    requires Fits(g, d) && s < |d| && o + SZ_DIR <= SS && f == Fat(g, d) && ChainOf(f, sclust, ch) && tim < DWORDS
    requires d[s] == Stamped(old_, o, size, sclust, tim) && size < DWORDS
    requires Clusters(g, ch) && OnDisk(d, Sectors(g, ch)) && size <= |Bytes(d, Sectors(g, ch))|
    ensures Stored(g, d, s, o, ch, Bytes(d, Sectors(g, ch))[..size]) && EntryHolds(old_, d[s], o, size, sclust, tim)
    ensures EntryOnly(old_, d[s], o)
  {
    hide Stamped, LdClust, LdSize, Bytes, Sectors, EntryOnly;
    StampedReads(old_, o, size, sclust, tim);
  }

  /** The directory entry is patched in the window. */
  method StampWindow(fs: Volume, s: nat, o: nat, size: nat, c: nat, tim: nat)
    requires fs.Valid() && fs.geo.RootBase() <= s < |fs.disk| && o + SZ_DIR <= SS
    modifies fs`disk, fs`winsect, fs`wflag, fs.win
    ensures fs.Valid() && fs.winsect == s
    ensures fs.Logical() == old(fs.Logical())[s := Stamped(old(fs.Logical())[s], o, size, c, tim)]
  {
    hide Stamped;
    MoveWindow(fs, s);
    Stamp(fs.win, o, size, c, tim);
    fs.wflag := true;
  }

  lemma SyncedEntry(g: Geometry, d: seq<Sector>, s: nat, x: Sector, fsi: bool, free: nat, last: nat)
    requires Fits(g, d) && g.RootBase() <= s < |d|
    ensures var e := Synced(g, d[s := x], fsi, free, last);
      OnlyEntry(g, d, e, s) && e[s] == x && Fits(g, e)
  {
  }

  /** The medium alone, without window and buffer, stores the file. */
  ghost predicate OnMedium(fp: File)
    requires fp.Core()
    reads fp, fp.buf, fp.fs, fp.fs.win
  {
    && !fp.fs.wflag && fp.fs.disk == fp.View()
    && Stored(fp.fs.geo, fp.fs.disk, fp.dirSect, fp.dirOfs, fp.chain, fp.Contents())
  }

  /** Unless the file is marked as written, it is on the medium. */
  ghost predicate Durable(fp: File)
    requires fp.Core()
    reads fp, fp.buf, fp.fs, fp.fs.win
  {
    fp.written || OnMedium(fp)
  }

  lemma OnMediumFacts(fp: File)
    requires fp.Core() && OnMedium(fp)
    ensures !fp.fs.wflag && fp.fs.disk == fp.View()
    ensures Stored(fp.fs.geo, fp.fs.disk, fp.dirSect, fp.dirOfs, fp.chain, fp.Contents())
  {
  }

  lemma DurableFacts(fp: File)
    requires fp.Core()
    ensures Durable(fp) <==> fp.written || OnMedium(fp)
  {
  }

  /** A clean window and a clean buffer hide nothing. */
  lemma OnMediumWhen(fp: File)
    requires fp.Valid() && fp.Core() && !fp.written && !fp.fs.wflag
    requires Stored(fp.fs.geo, fp.View(), fp.dirSect, fp.dirOfs, fp.chain, fp.Contents())
    ensures OnMedium(fp)
  {
    hide Stored;
    CleanIs(fp);
  }

  lemma CleanIs(fp: File)
    requires fp.Valid() && fp.Core() && !fp.written && !fp.fs.wflag
    ensures fp.fs.disk == fp.View()
  {
    hide *;
    ValidFacts(fp);
    CoreFacts(fp);
    ViewIs(fp);
    CleanWindow(fp.fs);
  }

  lemma CleanWindow(fs: Volume)
    requires fs.Valid() && !fs.wflag
    ensures fs.Logical() == fs.disk
  {
  }

  /** f_sync. Afterwards the medium alone stores the file; one that is not marked as written is left alone. The sector
      with the directory entry changes in bytes 11 and 20..31 of that entry only. tim is what get_fattime returned. */
  method Sync(fp: File, tim: nat)
    requires fp.Valid() && tim < DWORDS
    modifies fp`dirty, fp`log, fp`written, fp.fs`disk, fp.fs`winsect, fp.fs`wflag, fp.fs`fsiFlag, fp.fs.win
    ensures fp.Valid() && !fp.dirty && !fp.written
    ensures fp.Contents() == old(fp.Contents())
    ensures OnlyEntry(fp.fs.geo, old(fp.View()), fp.View(), fp.dirSect)
    ensures fp.dirSect < |fp.View()| && EntryOnly(old(fp.View())[fp.dirSect], fp.View()[fp.dirSect], fp.dirOfs)
    ensures old(fp.written) ==> EntryHolds(old(fp.View())[fp.dirSect], fp.View()[fp.dirSect], fp.dirOfs, fp.fsize, fp.sclust, tim)
    ensures old(Durable(fp)) ==> OnMedium(fp)
    ensures !old(fp.written) ==> unchanged(fp) && unchanged(fp.fs) && unchanged(fp.fs.win)
  {
    hide *;
    ValidFacts(fp);
    SoundFacts(fp);
    WholeIs(fp);
    DurableFacts(fp);
    CoreFacts(fp);
    ViewIs(fp);
    ghost var g := fp.fs.geo;
    if fp.written {
      if fp.dirty { FlushBuf(fp); }
      CoreFacts(fp);
      ViewIs(fp);
      WholeIs(fp);
      ghost var d := fp.log;
      SclustRange(g, fp.fat, fp.sclust, fp.chain);
      StampWindow(fp.fs, fp.dirSect, fp.dirOfs, fp.fsize, fp.sclust, tim);
      ghost var x := Stamped(d[fp.dirSect], fp.dirOfs, fp.fsize, fp.sclust, tim);
      fp.written := false;
      ghost var fsi := fp.fs.fsiFlag;
      SyncVolume(fp.fs);
      SyncedEntry(g, d, fp.dirSect, x, fsi, fp.fs.freeClust, fp.fs.lastClust);
      Resume(fp, d, fp.fs.disk);
      StampStored(g, fp.fat, fp.log, fp.dirSect, fp.dirOfs, d[fp.dirSect], fp.sclust, fp.chain, fp.fsize, tim);
      OnMediumWhen(fp);
    } else {
      OnlyEntryRefl(g, fp.View(), fp.dirSect);
      EntryOnlyRefl(fp.View()[fp.dirSect], fp.dirOfs);
    }
  }

  lemma OnlyEntryRefl(g: Geometry, d: seq<Sector>, s: nat)
    ensures OnlyEntry(g, d, d, s)
  {
  }

  lemma SclustRange(g: Geometry, f: seq<nat>, sclust: nat, ch: seq<nat>)
    requires g.Valid() && |f| == g.nFatent && ChainOf(f, sclust, ch)
    ensures sclust < DWORDS
  {
  }

  lemma WindowAway(g: Geometry, f: seq<nat>, ch: seq<nat>, w: nat, s: nat)
    requires g.Valid() && w in {0, s} && Away(g, f, ch, s)
    ensures Away(g, f, ch, w)
  {
    if w == 0 { SystemAway(g, f, ch, 0); }
  }

  /** The invariant again, once the volume shows e. */
  ghost method Resume(fp: File, d: seq<Sector>, e: seq<Sector>)
    requires fp.fs.Valid() && fp.fs.Logical() == e && |d| == |fp.fs.disk| && Fits(fp.fs.geo, d) && Fits(fp.fs.geo, e)
    requires OnlyEntry(fp.fs.geo, d, e, fp.dirSect) && fp.fat == Fat(fp.fs.geo, d) && Healthy(fp.fat) && fp.log == d
    requires fp.buf.Length == SS && fp.buf != fp.fs.win && ChainOf(fp.fat, fp.sclust, fp.chain)
    requires Positioned(fp.fs.geo, fp.chain, fp.fptr, fp.fsize) && !fp.dirty && !fp.written
    requires Buffered(fp.fs.geo, fp.fat, fp.chain, d, fp.fptr, fp.dsect, false, fp.buf[..])
    requires fp.fs.winsect in {0, fp.dirSect} && Away(fp.fs.geo, fp.fat, fp.chain, fp.dirSect)
    requires fp.fs.geo.RootBase() <= fp.dirSect < |d| && fp.dirOfs + SZ_DIR <= SS
    requires Clusters(fp.fs.geo, fp.chain) && OnDisk(d, Sectors(fp.fs.geo, fp.chain))
    requires fp.fptr > 0 ==> Holds(fp.fs.geo, fp.chain, fp.fptr - 1, fp.clust)
    requires fp.fptr <= fp.fsize
    modifies fp`log
    ensures fp.Valid() && fp.Core() && fp.View() == fp.log == e
    ensures fp.fat == Fat(fp.fs.geo, e) && ChainOf(fp.fat, fp.sclust, fp.chain)
    ensures OnDisk(e, Sectors(fp.fs.geo, fp.chain)) && |Bytes(e, Sectors(fp.fs.geo, fp.chain))| >= fp.fsize
    ensures fp.Whole() == Bytes(d, Sectors(fp.fs.geo, fp.chain)) == Bytes(e, Sectors(fp.fs.geo, fp.chain))
    ensures fp.Contents() == Bytes(e, Sectors(fp.fs.geo, fp.chain))[..fp.fsize]
  {
    hide *;
    ghost var g := fp.fs.geo;
    fp.log := e;
    EntryFat(g, d, e, fp.dirSect);
    EntryBuffered(g, fp.fat, fp.chain, d, e, fp.dirSect, fp.fptr, fp.dsect, fp.buf[..]);
    EntryBytes(g, fp.fat, fp.chain, d, e, fp.dirSect);
    WindowAway(g, fp.fat, fp.chain, fp.fs.winsect, fp.dirSect);
    GeoValid(g, e);
    CoreIntro(fp);
    ViewIs(fp);
    WholeIs(fp);
    SoundIntro(fp);
    ValidIntro(fp);
    ValidFacts(fp);
  }

  lemma GeoValid(g: Geometry, d: seq<Sector>)
    requires Fits(g, d)
    ensures g.Valid()
  {
  }

  lemma StoredFacts(g: Geometry, d: seq<Sector>, s: nat, o: nat, ch: seq<nat>, b: seq<byte>)
    requires Stored(g, d, s, o, ch, b)
    ensures Fits(g, d) && g.Valid() && s < |d| && o + SZ_DIR <= SS
    ensures LdSize(d[s], o) == |b| < DWORDS && ChainOf(Fat(g, d), LdClust(d[s], o), ch)
    ensures Clusters(g, ch) && OnDisk(d, Sectors(g, ch)) && |b| <= |Bytes(d, Sectors(g, ch))|
    ensures b == Bytes(d, Sectors(g, ch))[..|b|] && |b| <= Span(|ch|, g.csize) * SS
  {
  }

  /** The end of f_open for an existing file: the entry in the window gives first cluster and size. */
  method Open(v: Volume, read: bool, write: bool, s: nat, o: nat, ghost ch: seq<nat>, ghost b: seq<byte>) returns (fp: File)
    requires v.Valid() && Stored(v.geo, v.Logical(), s, o, ch, b) && v.geo.RootBase() <= s
    requires Healthy(Fat(v.geo, v.Logical())) && Away(v.geo, Fat(v.geo, v.Logical()), ch, s)
    modifies v`disk, v`winsect, v`wflag, v.win
    ensures fp.Valid() && fresh(fp) && fresh(fp.buf) && fp.fs == v && fp.canRead == read && fp.canWrite == write
    ensures fp.Contents() == b && fp.fptr == 0 && fp.chain == ch && fp.dirSect == s && fp.dirOfs == o
    ensures fp.View() == old(v.Logical()) && !fp.written && !fp.failed && fp.Core() && (!old(v.wflag) ==> OnMedium(fp))
  {
    hide *;
    ghost var g, d := v.geo, v.Logical();
    StoredFacts(g, d, s, o, ch, b);
    RootPositive(g);
    MoveWindow(v, s);
    var size := LdSize(v.win[..], o);
    var start := LdClust(v.win[..], o);
    fp := new File(v, read, write, s, o, start, size, ch);
    ValidFacts(fp);
    WholeIs(fp);
    if !v.wflag { OnMediumWhen(fp); }
  }

  /** f_sync, power off, mount again, f_open: the same bytes, also of a file that was not written since the last f_sync
      or f_open. */
  method Reopen(fp: File, tim: nat) returns (fq: File)
    requires fp.Valid() && Durable(fp) && tim < DWORDS
    modifies fp`dirty, fp`log, fp`written, fp.fs`disk, fp.fs`winsect, fp.fs`wflag, fp.fs`fsiFlag, fp.fs.win
    ensures fq.Valid() && fresh(fq) && fresh(fq.fs) && fq.fs.geo == fp.fs.geo
    ensures fq.Contents() == old(fp.Contents()) && fq.chain == fp.chain && fq.Core() && OnMedium(fq)
  {
    hide *;
    Sync(fp, tim);
    ValidFacts(fp);
    CoreFacts(fp);
    ViewIs(fp);
    OnMediumFacts(fp);
    var v := new Volume(fp.fs.geo, fp.fs.disk, fp.fs.lastClust, fp.fs.freeClust);
    fq := Open(v, true, true, fp.dirSect, fp.dirOfs, fp.chain, fp.Contents());
  }
}
