/** Small volumes on which the code does less than expected. */
module Witnesses {
  import opened Layout
  import opened FatPacking
  import opened DirEntry
  import opened Window
  import opened FatAccess
  import opened Chains
  import opened Allocator
  import opened FileMap
  import opened FileSpec
  import opened OpenFile
  import opened FileGrow
  import opened FileWrite
  import opened FileSeek
  import opened FileSync
  import opened FileTruncate
  import opened LinkMap
  import opened FreeCount

  /** A FAT12 volume of two clusters of one sector: boot sector, FAT, root directory, clusters 2 and 3. */
  const TINY := Geometry(FAT12, 1, 1, 16, 4, 1, 1, 2, 3, 0)

  /** Its FAT: w is the entry of cluster 2, and x and y hold the entry of cluster 3. */
  function FatSector(w: byte, x: byte, y: byte): (s: Sector) {
    [0xF8, 0xFF, 0xFF, w, x, y] + seq(SS - 6, _ => 0)
  }

  /** A directory whose first entry is that of a file of 600 bytes from cluster 2 on. */
  function RootSector(): (s: Sector) {
    seq(26, _ => 0) + [2, 0, 0x58, 2, 0, 0] + seq(SS - 32, _ => 0)
  }

  function Disk(w: byte, x: byte, y: byte): (d: seq<Sector>) {
    [ZeroSector(), FatSector(w, x, y), RootSector(), ZeroSector(), ZeroSector()]
  }

  lemma TinyFits(w: byte, x: byte, y: byte)
    ensures Fits(TINY, Disk(w, x, y)) && TINY.RootBase() == 2 && TINY.End() == 5 && TINY.Base(2) == 3 && TINY.Base(3) == 4
  {
    assert Span(2, 1) == 2 by { assert Span(1, 1) == 1; }
    assert Span(1, 1) == 1;
    assert Span(0, 1) == 0;
  }

  lemma Packed(t: seq<byte>, w: byte, x: byte, y: byte)
    requires |t| >= 6 && t[0] == 0xF8 && t[1] == 0xFF && t[2] == 0xFF && t[3] == w && t[4] == x && t[5] == y && x % 16 == 0
    ensures InTable(FAT12, |t|, 0) && Entry(FAT12, t, 0) == 0xFF8
    ensures InTable(FAT12, |t|, 1) && Entry(FAT12, t, 1) == 0xFFF
    ensures InTable(FAT12, |t|, 2) && Entry(FAT12, t, 2) == w as nat
    ensures InTable(FAT12, |t|, 3) && Entry(FAT12, t, 3) == (x as nat) / 16 + 16 * (y as nat)
  {
  }

  lemma TableByte(w: byte, x: byte, y: byte, o: nat)
    requires o < SS && Fits(TINY, Disk(w, x, y))
    ensures Table(TINY, Disk(w, x, y))[o] == FatSector(w, x, y)[o]
  {
    hide FatSector;
  }

  function LastEntry(x: byte, y: byte): nat { (x as nat) / 16 + 16 * (y as nat) }

  lemma TinyFat(w: byte, x: byte, y: byte)
    requires x % 16 == 0
    ensures Fits(TINY, Disk(w, x, y)) && Fat(TINY, Disk(w, x, y)) == [0xFF8, 0xFFF, w as nat, LastEntry(x, y)]
  {
    hide *;
    TinyFits(w, x, y);
    TinyIs();
    var d := Disk(w, x, y);
    var t := Table(TINY, d);
    forall o: nat | o < 6 ensures t[o] == FatSector(w, x, y)[o] { TableByte(w, x, y, o); }
    FatBytes(w, x, y);
    Packed(t, w, x, y);
    FatIs(TINY, d);
    UnpackedAt(TINY, t, 0);
    UnpackedAt(TINY, t, 1);
    UnpackedAt(TINY, t, 2);
    UnpackedAt(TINY, t, 3);
    LastIs(x, y);
    assert Fat(TINY, d) == [0xFF8, 0xFFF, w as nat, LastEntry(x, y)];
  }

  lemma TinyIs()
    ensures TINY.fsType == FAT12 && TINY.nFatent == 4 && TINY.fsize == 1 && TINY.csize == 1 && TINY.RootBase() == 2 && TINY.Valid() && SS == 512
  {
    TinyFits(0, 0, 0);
  }

  lemma FatIs(g: Geometry, d: seq<Sector>)
    requires Fits(g, d)
    ensures g.Valid() && Fat(g, d) == Unpacked(g, Table(g, d))
  {
  }

  lemma LastIs(x: byte, y: byte)
    ensures LastEntry(x, y) == (x as nat) / 16 + 16 * (y as nat)
  {
  }

  lemma FatBytes(w: byte, x: byte, y: byte)
    ensures var s := FatSector(w, x, y); s[0] == 0xF8 && s[1] == 0xFF && s[2] == 0xFF && s[3] == w && s[4] == x && s[5] == y
  {
  }

  /** With cluster 3 behind cluster 2 the file is stored on the disk. */
  lemma TinyFile(x: byte, y: byte) returns (b: seq<byte>)
    requires x % 16 == 0 && LastEntry(x, y) >= 4
    ensures Fits(TINY, Disk(3, x, y)) && Stored(TINY, Disk(3, x, y), 2, 0, [2, 3], b) && |b| == 600
    ensures Healthy(Fat(TINY, Disk(3, x, y))) && Away(TINY, Fat(TINY, Disk(3, x, y)), [2, 3], 2)
  {
    hide *;
    TinyFits(3, x, y);
    TinyIs();
    TinyFat(3, x, y);
    var d, ch := Disk(3, x, y), [2, 3];
    var f := Fat(TINY, d);
    TinyChain(f);
    FitsEnd(TINY, d);
    ChainSectors(TINY, f, 2, ch, d);
    TinyRoom();
    b := Bytes(d, Sectors(TINY, ch))[..600];
    TinyEntry();
    TinyAway(f);
    StoredWhen(TINY, d, 2, 0, ch, b);
  }

  lemma TinyRoom()
    ensures Span(2, 1) == 2 && 2 * SS == 1024 && SZ_DIR <= SS && 601 < DWORDS
  {
    assert Span(1, 1) == 1;
  }

  lemma StoredWhen(g: Geometry, d: seq<Sector>, s: nat, o: nat, ch: seq<nat>, b: seq<byte>)
    requires Fits(g, d) && s < |d| && o + SZ_DIR <= SS && LdSize(d[s], o) == |b|
    requires ChainOf(Fat(g, d), LdClust(d[s], o), ch) && Clusters(g, ch) && OnDisk(d, Sectors(g, ch))
    requires |b| <= |Bytes(d, Sectors(g, ch))| && b == Bytes(d, Sectors(g, ch))[..|b|]
    ensures Stored(g, d, s, o, ch, b)
  {
  }

  lemma TinyChain(f: seq<nat>)
    requires |f| == 4 && f[2] == 3 && f[3] >= 4
    ensures ChainOf(f, 2, [2, 3]) && Healthy(f)
  {
  }

  lemma TinyEntry()
    ensures forall w, x, y :: |Disk(w, x, y)| == 5 && Disk(w, x, y)[2] == RootSector()
    ensures LdSize(RootSector(), 0) == 600 && LdClust(RootSector(), 0) == 2
  {
    var r := RootSector();
    assert r[20] == 0 && r[21] == 0 && r[26] == 2 && r[27] == 0 && r[28] == 0x58 && r[29] == 2 && r[30] == 0 && r[31] == 0;
  }

  lemma TinyAway(f: seq<nat>)
    ensures Away(TINY, f, [2, 3], 2)
  {
    TinyFits(0, 0, 0);
    SystemAway(TINY, f, [2, 3], 2);
  }

  /** Sector s lies in a free cluster. */
  ghost predicate InFree(g: Geometry, f: seq<nat>, s: nat) {
    exists c: nat :: g.Cluster(c) && g.InCluster(c, s) && c < |f| && f[c] == 0
  }

  lemma ReleasedFree(g: Geometry, f: seq<nat>, ch: seq<nat>, s: nat)
    requires Released(g, f, ch, s)
    ensures InFree(g, f, s)
  {
  }

  /** Write less than a sector, seek to 0, truncate: on every volume and file where the write succeeds, the open file is
      broken afterwards, and its buffer waits to be written to a cluster that is free. */
  method WriteRewindTruncate(fp: File, data: seq<byte>) returns (bw: nat)
    requires fp.Valid() && !fp.failed && fp.canWrite && 0 < |data| < SS
    modifies fp`fptr, fp`clust, fp`sclust, fp`chain, fp`fat, fp`log, fp`dirty, fp`dsect, fp.buf, fp`fsize, fp`written
    modifies fp.fs`disk, fp.fs`winsect, fp.fs`wflag, fp.fs`fsiFlag, fp.fs`lastClust, fp.fs`freeClust, fp.fs.win
    ensures old(fp.fsize) + |data| < DWORDS && |old(fp.Whole())| > old(fp.fptr) ==> bw > 0
    ensures bw > 0 ==> !fp.Valid() && fp.dirty && InFree(fp.fs.geo, fp.fat, fp.dsect)
  {
    hide *;
    ValidFacts(fp);
    WholeIs(fp);
    Short(|data|);
    ghost var f, ch0 := fp.fat, fp.chain;
    var res;
    res, bw := Write(fp, data);
    ValidFacts(fp);
    WholeIs(fp);
    NoShorter(fp.fs.geo, f, ch0, fp.fat, fp.chain);
    if bw > 0 {
      var sk := Seek(fp, 0);
      ValidFacts(fp);
      ghost var ch := fp.chain;
      var r := Truncate(fp);
      KeepsNone(fp.fs.geo, fp.fptr);
      NothingKept(fp.fs.geo, ch, |fp.chain|, fp.dirty, fp.dsect);
      ReleasedFree(fp.fs.geo, fp.fat, ch, fp.dsect);
    }
  }

  lemma NothingKept(g: Geometry, ch: seq<nat>, k: nat, dirty: bool, dsect: nat)
    requires dirty && k == 0
    ensures !Keepable(g, ch, k, dirty, dsect)
  {
  }

  lemma Short(n: nat)
    requires n < SS
    ensures n < DWORDS && 0 < DWORDS
  {
  }

  lemma KeepsNone(g: Geometry, p: nat)
    requires g.csize > 0 && p == 0
    ensures Kept(g, p) == 0
  {
  }

  lemma NoShorter(g: Geometry, f: seq<nat>, ch: seq<nat>, f': seq<nat>, ch': seq<nat>)
    requires Stretched(f, ch, f', ch')
    ensures Span(|ch|, g.csize) * SS <= Span(|ch'|, g.csize) * SS
  {
    if |ch| < |ch'| { SpanOrder(|ch|, |ch'|, g.csize); }
  }

  /** The tiny volume, mounted. */
  method Mounted(w: byte, x: byte, y: byte) returns (v: Volume)
    ensures v.Valid() && fresh(v) && fresh(v.win) && v.geo == TINY && v.Logical() == Disk(w, x, y) && v.freeClust == UNKNOWN && !v.wflag
  {
    hide *;
    TinyFits(w, x, y);
    FitsEnd(TINY, Disk(w, x, y));
    TinyUnknown();
    v := new Volume(TINY, Disk(w, x, y), 0, UNKNOWN);
  }

  lemma EndBytes()
    ensures LastEntry(0xF0, 0xFF) == 0xFFF && LastEntry(0x40, 0) == 4 && LastEntry(0, 0) == 0
  {
  }

  /** The same on the tiny volume, from the mounted disk on. */
  method TruncateBreaks() returns (fp: File)
    ensures fresh(fp) && !fp.Valid() && fp.dirty && InFree(fp.fs.geo, fp.fat, fp.dsect)
  {
    hide *;
    EndBytes();
    ghost var b := TinyFile(0xF0, 0xFF);
    TinyIs();
    var v := Mounted(3, 0xF0, 0xFF);
    fp := Open(v, true, true, 2, 0, [2, 3], b);
    ValidFacts(fp);
    WholeIs(fp);
    TinyRoom();
    var bw := WriteRewindTruncate(fp, [65]);
  }

  /** A chain closed by the number of entries: no link map can be made. */
  method LinkmapFails(tbl: array<nat>) returns (res: FResult)
    requires tbl.Length >= 4 && tbl[0] == tbl.Length
    modifies tbl
    ensures res == FR_INT_ERR
  {
    hide *;
    EndBytes();
    ghost var b := TinyFile(0x40, 0);
    TinyIs();
    TinyFat(3, 0x40, 0);
    var v := Mounted(3, 0x40, 0);
    var fp := Open(v, true, false, 2, 0, [2, 3], b);
    ValidFacts(fp);
    CoreFacts(fp);
    ViewIs(fp);
    Adjoins(fp.fat);
    res := CreateLinkmap(fp, tbl);
  }

  lemma Adjoins(f: seq<nat>)
    requires f == [0xFF8, 0xFFF, 3, 4]
    ensures EndAdjoins(f, [2, 3])
  {
  }

  /** Chains that create_chain closed: it takes the greatest FAT32 volume and its last cluster. */
  lemma OwnEndAdjoins(g: Geometry, f: seq<nat>, ch: seq<nat>)
    requires g.Valid() && |f| == g.nFatent && IsChain(f, ch) && f[ch[|ch| - 1]] == EndMark(g.fsType)
    ensures EndAdjoins(f, ch) <==> g.fsType == FAT32 && g.nFatent == 0x0FFF_FFFF && ch[|ch| - 1] == g.nFatent - 1
  {
  }

  /** One cluster reads 1, the other one is free: the first call reports an error, the second one no free cluster. */
  method CountsHalf() returns (first: FResult, second: FResult, n: nat, ghost free: nat)
    ensures first == FR_INT_ERR && second == FR_OK && n == 0 && free == 1
  {
    hide *;
    TinyFits(1, 0, 0);
    TinyFat(1, 0, 0);
    TinyIs();
    EndBytes();
    var v := Mounted(1, 0, 0);
    TinyUnknown();
    HalfCount();
    assert Fat(TINY, v.Logical()) == [0xFF8, 0xFFF, 1, 0];
    free := Free(Fat(TINY, v.Logical()));
    first, n := GetFree(v);
    second, n := GetFree(v);
  }

  lemma TinyUnknown()
    ensures 2 < UNKNOWN < DWORDS
  {
  }

  lemma HalfCount()
    ensures var f := [0xFF8, 0xFFF, 1, 0]; Free(f) == 1 && FirstBad(f, 2) == 2 && FreeBelow(f, 2) == 0 && f[2] == 1
  {
    var f := [0xFF8, 0xFFF, 1, 0];
    assert FreeBelow(f, 3) == 0;
    assert FreeBelow(f, 4) == 1;
  }

  /** A FAT16 volume of 4086 clusters with nothing but zeros. */
  const BLANK := Geometry(FAT16, 1, 1, 16, 4088, 16, 1, 17, 18, 0)

  lemma BlankFits(d: seq<Sector>)
    requires |d| == 4104 && forall s :: 0 <= s < |d| ==> d[s] == ZeroSector()
    ensures Fits(BLANK, d) && Fat(BLANK, d) == seq(4088, _ => 0)
  {
    SpanIsProduct(4086, 1);
    assert Fits(BLANK, d);
    hide Fits, Unpacked, Table;
    var t := Table(BLANK, d);
    ZeroTable(d);
    forall c: nat | c < 4088 ensures Fat(BLANK, d)[c] == 0 {
      UnpackedAt(BLANK, t, c);
      ZeroEntry(t, c);
    }
  }

  lemma ZeroTable(d: seq<Sector>)
    requires Fits(BLANK, d) && forall s :: 0 <= s < |d| ==> d[s] == ZeroSector()
    ensures forall o :: 0 <= o < |Table(BLANK, d)| ==> Table(BLANK, d)[o] == 0
  {
    forall o | 0 <= o < |Table(BLANK, d)| ensures Table(BLANK, d)[o] == 0 { assert d[1 + o / SS] == ZeroSector(); }
  }

  lemma ZeroEntry(t: seq<byte>, c: nat)
    requires InTable(FAT16, |t|, c) && forall o :: 0 <= o < |t| ==> t[o] == 0
    ensures Entry(FAT16, t, c) == 0
  {
  }

  lemma {:induction false} AllZero(f: seq<nat>, k: nat)
    requires k <= |f| && forall c :: 0 <= c < |f| ==> f[c] == 0
    ensures Zeros(f, k) == k
  {
    if k > 0 { AllZero(f, k - 1); }
  }

  /** f_getfree reports two clusters more than the volume has. */
  method CountsReserved() returns (res: FResult, n: nat)
    ensures res == FR_OK && n == 4088 && BLANK.nFatent - 2 == 4086
  {
    var d := seq(4104, _ => ZeroSector());
    hide *;
    BlankFits(d);
    BlankIs();
    FitsEnd(BLANK, d);
    var v := new Volume(BLANK, d, 0, UNKNOWN);
    AllZero(Fat(BLANK, d), 4088);
    CountIs(Fat(BLANK, d));
    res, n := GetFree(v);
  }

  lemma BlankIs()
    ensures BLANK.fsType == FAT16 && BLANK.nFatent == 4088 && 4086 < UNKNOWN < DWORDS && 0 < DWORDS
  {
  }
}
