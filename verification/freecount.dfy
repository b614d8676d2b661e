/** f_getfree. */
module FreeCount {
  import opened Layout
  import opened Bits
  import opened ByteOrder
  import opened Window
  import opened FatAccess
  import opened Chains

  /** Number of zero entries among the first k, the two reserved ones included. */
  ghost function Zeros(f: seq<nat>, k: nat): nat
    requires k <= |f|
  {
    if k == 0 then 0 else Zeros(f, k - 1) + (if f[k - 1] == 0 then 1 else 0)
  }

  /** The raw count is the number of free clusters, plus one for each reserved entry that is zero. */
  lemma {:induction false} ZerosAreFree(f: seq<nat>, k: nat)
    requires 2 <= k <= |f|
    ensures Zeros(f, k) == FreeBelow(f, k) + (if f[0] == 0 then 1 else 0) + (if f[1] == 0 then 1 else 0)
  {
    if k == 2 {
      assert Zeros(f, 1) == if f[0] == 0 then 1 else 0;
    } else {
      ZerosAreFree(f, k - 1);
    }
  }

  /** Entry c, k bytes wide, as the scan finds it: byte o of the FAT is byte o % SS of sector o / SS. */
  lemma ScanWord(g: Geometry, d: seq<Sector>, c: nat)
    requires Fits(g, d) && g.fsType == FAT16 && c < g.nFatent
    ensures g.fatbase + 2 * c / SS < |d| && 2 * c % SS + 2 <= SS && g.InFat(g.fatbase + 2 * c / SS)
    ensures Fat(g, d)[c] == LdWord(d[g.fatbase + 2 * c / SS], 2 * c % SS)
  {
    UnpackedAt(g, Table(g, d), c);
    ByteSector(g, 2 * c);
    WordInWindow(g, d, 2 * c, d[g.fatbase + 2 * c / SS], 2);
    Load16(d[g.fatbase + 2 * c / SS], 2 * c % SS, Table(g, d), c);
  }

  lemma ScanDword(g: Geometry, d: seq<Sector>, c: nat)
    requires Fits(g, d) && g.fsType == FAT32 && c < g.nFatent
    ensures g.fatbase + 4 * c / SS < |d| && 4 * c % SS + 4 <= SS && g.InFat(g.fatbase + 4 * c / SS)
    ensures Fat(g, d)[c] == And(LdDword(d[g.fatbase + 4 * c / SS], 4 * c % SS), 0x0FFF_FFFF)
  {
    UnpackedAt(g, Table(g, d), c);
    ByteSector(g, 4 * c);
    WordInWindow(g, d, 4 * c, d[g.fatbase + 4 * c / SS], 4);
    Load32(d[g.fatbase + 4 * c / SS], 4 * c % SS, Table(g, d), c);
  }

  /** Before entry c is looked at: either its sector has to be loaded (i == 0) or the window shows it, with i bytes
      left from offset p on. */
  ghost predicate Scanning(g: Geometry, c: nat, k: nat, sect: nat, p: nat, i: nat) {
    (k == 2 || k == 4) && ScanningAt(g.fatbase, k * c, sect, p, i)
  }

  ghost predicate ScanningAt(base: nat, o: nat, sect: nat, p: nat, i: nat) {
    if i == 0 then o % SS == 0 && sect == base + o / SS
    else p + i == SS && p == o % SS && sect == base + o / SS + 1
  }

  lemma ScanStart(g: Geometry, k: nat, p: nat)
    requires k == 2 || k == 4
    ensures Scanning(g, 0, k, g.fatbase, p, 0)
  {
  }

  lemma ScanLoad(g: Geometry, c: nat, k: nat, sect: nat, p: nat)
    requires Scanning(g, c, k, sect, p, 0)
    ensures SS > 0 && Scanning(g, c, k, sect + 1, 0, SS)
  {
  }

  lemma ScanNext(g: Geometry, c: nat, k: nat, sect: nat, p: nat, i: nat)
    requires Scanning(g, c, k, sect, p, i) && i > 0
    ensures i >= k && Scanning(g, c + 1, k, sect, p + k, i - k)
  {
    hide ScanningAt;
    assert k * c % k == 0 by { if k == 2 { } else { } }
    ScanStep(g.fatbase, k * c, k, sect, p, i);
    assert k * (c + 1) == k * c + k;
  }

  lemma ScanStep(base: nat, o: nat, k: nat, sect: nat, p: nat, i: nat)
    requires ScanningAt(base, o, sect, p, i) && i > 0 && (k == 2 || k == 4) && o % k == 0
    ensures i >= k && ScanningAt(base, o + k, sect, p + k, i - k)
  {
    NextOffset(o, k);
  }

  lemma NextOffset(o: nat, k: nat)
    requires (k == 2 || k == 4) && o % k == 0
    ensures o % SS + k <= SS
    ensures o % SS + k == SS ==> (o + k) % SS == 0 && (o + k) / SS == o / SS + 1
    ensures o % SS + k < SS ==> (o + k) % SS == o % SS + k && (o + k) / SS == o / SS
  {
    Aligned(o, k);
    if o % SS + k == SS {
      ModUnique(o / SS + 1, 0, SS);
    } else {
      ModUnique(o / SS, o % SS + k, SS);
    }
  }

  /** What the scan sees of entry c. */
  lemma ScanSees(g: Geometry, d: seq<Sector>, c: nat, k: nat, sect: nat, p: nat, i: nat)
    requires Fits(g, d) && c < g.nFatent && Scanning(g, c, k, sect, p, i) && g.fsType != FAT12
    requires k == if g.fsType == FAT16 then 2 else 4
    ensures i == 0 ==> 0 < sect < |d| && g.InFat(sect)
    ensures i > 0 ==> 0 < sect <= |d| && p + k <= SS
    ensures i > 0 && k == 2 ==> Fat(g, d)[c] == LdWord(d[sect - 1], p)
    ensures i > 0 && k == 4 ==> Fat(g, d)[c] == And(LdDword(d[sect - 1], p), 0x0FFF_FFFF)
  {
    hide And, Fat, LdDword, LdWord;
    if k == 2 { ScanWord(g, d, c); } else { ScanDword(g, d, c); }
  }

  lemma ZerosStep(f: seq<nat>, c: nat)
    requires c < |f|
    ensures Zeros(f, c + 1) == Zeros(f, c) + if f[c] == 0 then 1 else 0
  {
  }

  lemma ZerosNone(f: seq<nat>)
    ensures Zeros(f, 0) == 0
  {
  }

  /** The raw scan of a FAT16 or FAT32: entry by entry through the sectors of the FAT, the two reserved entries
      included. */
  method ScanFat(fs: Volume) returns (n: nat)
    requires fs.Valid() && fs.geo.fsType != FAT12
    modifies fs`disk, fs`winsect, fs`wflag, fs.win
    ensures fs.Valid() && fs.Logical() == old(fs.Logical())
    ensures n == Zeros(Fat(fs.geo, fs.Logical()), fs.geo.nFatent)
  {
    hide *;
    VolumeFits(fs);
    ghost var g, d := fs.geo, fs.Logical();
    ghost var f := Fat(g, d);
    ghost var k := if g.fsType == FAT16 then 2 else 4;
    var clst: nat, sect: nat, i: nat, p: nat := fs.geo.nFatent, fs.geo.fatbase, 0, 0;
    n := 0;
    ghost var c := 0;
    ScanStart(g, k, p);
    ZerosNone(f);
    while clst > 0
      invariant c + clst == g.nFatent && clst >= 0 && fs.Valid() && fs.Logical() == d && n == Zeros(f, c)
      invariant Scanning(g, c, k, sect, p, i) && i >= 0
      invariant i > 0 ==> 0 < sect <= |d| && fs.win[..] == d[sect - 1]
    {
      VolumeFits(fs);
      ScanSees(g, d, c, k, sect, p, i);
      if i == 0 {
        ScanLoad(g, c, k, sect, p);
        MoveWindow(fs, sect);
        sect := sect + 1;
        p := 0;
        i := SectorSize();
        ScanSees(g, d, c, k, sect, p, i);
        VolumeFits(fs);
      }
      ScanNext(g, c, k, sect, p, i);
      ZerosStep(f, c);
      if fs.geo.fsType == FAT16 {
        if LdWord(fs.win[..], p) == 0 { n := n + 1; }
        p, i := p + 2, i - 2;
      } else {
        if And(LdDword(fs.win[..], p), 0x0FFF_FFFF) == 0 { n := n + 1; }
        p, i := p + 4, i - 4;
      }
      c := c + 1;
      clst := clst - 1;
    }
  }

  method SectorSize() returns (n: nat)
    ensures n == SS > 0
  {
    n := SS;
  }

  /** The FAT12 count: get_fat on each cluster, up to the first entry that reads 1. */
  method Count12(fs: Volume) returns (ok: bool, n: nat, ghost k: nat)
    requires fs.Valid()
    modifies fs`disk, fs`winsect, fs`wflag, fs.win
    ensures fs.Valid() && fs.Logical() == old(fs.Logical()) && 2 <= k <= fs.geo.nFatent
    ensures n == FreeBelow(Fat(fs.geo, fs.Logical()), k)
    ensures forall c :: 2 <= c < k ==> Fat(fs.geo, fs.Logical())[c] != 1
    ensures if ok then k == fs.geo.nFatent else k < fs.geo.nFatent && Fat(fs.geo, fs.Logical())[k] == 1
  {
    hide *;
    VolumeFits(fs);
    ghost var d := fs.Logical();
    ghost var f := Fat(fs.geo, d);
    FreeNone(f);
    var clst := 2;
    n, k := 0, 2;
    while clst < fs.geo.nFatent
      invariant 2 <= clst <= fs.geo.nFatent && k == clst && fs.Valid() && fs.Logical() == d
      invariant n == FreeBelow(f, clst) && forall c :: 2 <= c < clst ==> f[c] != 1
    {
      var stat := GetFat(fs, clst);
      IsCluster(fs.geo, clst);
      if stat == 1 { return false, n, k; }
      FreeStep(f, clst);
      if stat == 0 { n := n + 1; }
      clst := clst + 1;
      k := k + 1;
    }
    ok := true;
  }

  lemma FreeNone(f: seq<nat>)
    requires |f| >= 2
    ensures FreeBelow(f, 2) == 0
  {
  }

  lemma FreeStep(f: seq<nat>, c: nat)
    requires 2 <= c < |f|
    ensures FreeBelow(f, c + 1) == FreeBelow(f, c) + if f[c] == 0 then 1 else 0
  {
  }

  lemma IsCluster(g: Geometry, c: nat)
    requires 2 <= c < g.nFatent
    ensures g.Cluster(c)
  {
  }

  /** How many of the two reserved entries are zero. */
  ghost function Blank(f: seq<nat>): nat
    requires |f| >= 2
  {
    (if f[0] == 0 then 1 else 0) + (if f[1] == 0 then 1 else 0)
  }

  /** The first cluster from k on whose entry reads 1; the number of entries if there is none. */
  ghost function FirstBad(f: seq<nat>, k: nat): (r: nat)
    requires k <= |f|
    ensures k <= r <= |f|
    decreases |f| - k
  {
    if k == |f| || f[k] == 1 then k else FirstBad(f, k + 1)
  }

  lemma {:induction false} FirstBadIs(f: seq<nat>, k: nat, r: nat)
    requires k <= r <= |f| && (forall c :: k <= c < r ==> f[c] != 1) && (r < |f| ==> f[r] == 1)
    ensures FirstBad(f, k) == r
    decreases r - k
  {
    if k < r { FirstBadIs(f, k + 1, r); }
  }

  /** f_getfree: the cached count if it is in range, else a count, which is then cached. The count is the number of free
      clusters; on FAT16 and FAT32 that holds if and only if the reserved entries are not zero, and on FAT12 it stops at
      an entry that reads 1, and what was counted up to there is cached all the same. */
  method GetFree(fs: Volume) returns (res: FResult, n: nat)
    requires fs.Valid()
    modifies fs`disk, fs`winsect, fs`wflag, fs`freeClust, fs`fsiFlag, fs.win
    ensures fs.Valid() && fs.Logical() == old(fs.Logical()) && n == fs.freeClust && res in {FR_OK, FR_INT_ERR}
    ensures old(fs.freeClust) <= fs.geo.nFatent - 2 ==> res == FR_OK && n == old(fs.freeClust)
    ensures old(fs.freeClust) > fs.geo.nFatent - 2 && fs.geo.fsType != FAT12 ==>
              res == FR_OK && n == Free(Fat(fs.geo, fs.Logical())) + Blank(Fat(fs.geo, fs.Logical()))
    ensures old(fs.freeClust) > fs.geo.nFatent - 2 && fs.geo.fsType == FAT12 ==>
              (res == FR_OK <==> forall c :: 2 <= c < fs.geo.nFatent ==> Fat(fs.geo, fs.Logical())[c] != 1)
    ensures old(fs.freeClust) > fs.geo.nFatent - 2 && fs.geo.fsType == FAT12 ==>
              n == FreeBelow(Fat(fs.geo, fs.Logical()), FirstBad(Fat(fs.geo, fs.Logical()), 2))
    ensures old(fs.freeClust) > fs.geo.nFatent - 2 && fs.geo.fsType == FAT12 && res == FR_OK ==>
              n == Free(Fat(fs.geo, fs.Logical()))
  {
    hide *;
    VolumeFits(fs);
    ghost var f := Fat(fs.geo, fs.Logical());
    res := FR_OK;
    if fs.freeClust <= fs.geo.nFatent - 2 {
      return FR_OK, fs.freeClust;
    }
    if fs.geo.fsType == FAT12 {
      var ok, m, k := Count12(fs);
      n := m;
      FreeIs(f, k);
      FirstBadIs(f, 2, k);
      if !ok { res := FR_INT_ERR; }
    } else {
      n := ScanFat(fs);
      FreeIs(f, |f|);
      CountIs(f);
    }
    SetFree(fs, n);
    if fs.geo.fsType == FAT32 { fs.fsiFlag := true; }
  }

  lemma FreeIs(f: seq<nat>, k: nat)
    requires 2 <= k <= |f|
    ensures FreeBelow(f, k) <= k - 2 && Free(f) == FreeBelow(f, |f|)
  {
    FreeBound(f, k);
  }

  lemma CountIs(f: seq<nat>)
    requires |f| >= 2
    ensures Zeros(f, |f|) == Free(f) + Blank(f) && Blank(f) <= 2
  {
    ZerosAreFree(f, |f|);
  }

  method SetFree(fs: Volume, n: nat)
    requires fs.Valid() && n < DWORDS
    modifies fs`freeClust
    ensures fs.Valid() && fs.freeClust == n && fs.Logical() == old(fs.Logical())
  {
    fs.freeClust := n;
  }
}
