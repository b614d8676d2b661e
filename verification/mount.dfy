/** The boot sector analysis of chk_mounted. */
module Mount {
  import opened Options
  import opened Layout
  import opened Bits
  import opened ByteOrder
  import opened DirEntry

  /** Whole clusters in n sectors. */
  function Whole(n: nat, csize: nat): nat
    requires csize > 0
  {
    n / csize
  }

  /** The BIOS parameter block fields that the code uses. */
  datatype Bpb = Bpb(bytsPerSec: nat, fatSz: nat, numFats: nat, secPerClus: nat, rootEnt: nat,
                     totSec: nat, rsvd: nat, rootClus: nat, fsInfo: nat) {
    predicate Words() {
      && bytsPerSec < 0x1_0000 && fatSz < DWORDS && numFats < 0x100 && secPerClus < 0x100 && rootEnt < 0x1_0000
      && totSec < DWORDS && rsvd < 0x1_0000 && rootClus < DWORDS && fsInfo < 0x1_0000
    }

    /** Sectors in front of the data area: reserved, FAT copies, static root. */
    function System(): nat { rsvd + FatArea() + rootEnt / (SS / SZ_DIR) }

    function FatArea(): nat { if numFats == 2 then fatSz + fatSz else fatSz }

    function Clusters(): nat
      requires secPerClus > 0
    {
      if totSec < System() then 0 else Whole(totSec - System(), secPerClus)
    }
  }

  /** FAT type by number of clusters. */
  function TypeOf(n: nat): FatType {
    if n >= MIN_FAT32 then FAT32 else if n >= MIN_FAT16 then FAT16 else FAT12
  }

  /** The fields of a boot sector. */
  function ReadBpb(win: Sector): (b: Bpb)
    ensures b.Words()
  {
    var sz16, tot16 := LdWord(win, 22), LdWord(win, 19);
    Bpb(LdWord(win, 11), if sz16 != 0 then sz16 else LdDword(win, 36), At(win, 16), At(win, 13), LdWord(win, 17),
        if tot16 != 0 then tot16 else LdDword(win, 32), LdWord(win, 14), LdDword(win, 44), LdWord(win, 48))
  }

  predicate PowerOfTwo(c: nat) { c in {1, 2, 4, 8, 16, 32, 64, 128} }

  /** No sum that the code forms passes 2^32, no entry number passes the width of an entry, and on FAT32 the FSInfo sector
      lies in the reserved area behind the boot sector. */
  ghost predicate Sane(b: Bpb, bsect: nat)
    requires b.secPerClus > 0
  {
    && b.System() < DWORDS && bsect + b.totSec <= DWORDS
    && (TypeOf(b.Clusters()) == FAT32 ==> b.Clusters() + 2 < 0x1000_0000 && 0 < b.fsInfo < b.rsvd)
  }

  /** g is a layout in the sectors of the volume: boot sector and FSInfo, FAT copies, static root and data follow each
      other, and the FAT has room for an entry of each cluster. */
  ghost predicate InVolume(g: Geometry, b: Bpb, bsect: nat) {
    && g.Valid() && g.fatbase == bsect + b.rsvd
    && bsect < g.fatbase <= g.RootBase() <= g.database <= g.End() <= bsect + b.totSec <= DWORDS
    && (g.fsType == FAT32 ==> bsect < g.fsiSector < g.fatbase)
  }

  /** The layout that the boot sector describes. */
  ghost function LayoutOf(b: Bpb, bsect: nat): Geometry
    requires b.secPerClus > 0
  {
    var ty := TypeOf(b.Clusters());
    Geometry(ty, b.secPerClus, b.numFats, b.rootEnt, b.Clusters() + 2, b.fatSz, bsect + b.rsvd,
             if ty == FAT32 then b.rootClus else bsect + b.rsvd + b.FatArea(),
             bsect + b.System(), if ty == FAT32 then (bsect + b.fsInfo) % DWORDS else 0)
  }

  lemma SmallPowers(b: nat)
    requires 1 <= b < 0x100
    ensures And(b, b - 1) == 0 <==> PowerOfTwo(b)
  {
    PowerOfTwoTest(b);
    Pow2Values();
    if IsPow2(b) {
      var k: nat :| b == Pow2(k);
      if k >= 8 { Pow2Mono(8, k); }
    }
    if PowerOfTwo(b) {
      assert b in {Pow2(0), Pow2(1), Pow2(2), Pow2(3), Pow2(4), Pow2(5), Pow2(6), Pow2(7)};
    }
  }

  /** `szbfat` for the determined type, in DWORD arithmetic. */
  function RequiredSize(ty: FatType, n: nat): nat {
    match ty
    case FAT12 => n * 3 / 2 + And(n, 1)
    case FAT16 => n * 2
    case FAT32 => n * 4 % DWORDS
  }

  lemma RequiredExact(ty: FatType, n: nat)
    requires n < 0x1000_0000
    ensures RequiredSize(ty, n) == ty.TableBytes(n) <= 0x4000_0000
  {
    Pow2Values();
    AndMask(n, 1);
  }

  /** The size test of the code is the exact one, unless four bytes per entry wrap. */
  lemma RequiredIsTable(ty: FatType, n: nat, fatSz: nat)
    requires n < 0x1000_0000
    ensures fatSz >= (RequiredSize(ty, n) + (SS - 1)) % DWORDS / SS <==> ty.TableBytes(n) <= fatSz * SS
  {
    RequiredExact(ty, n);
    hide *;
    RoundUpSmall(ty.TableBytes(n), fatSz);
  }

  lemma RoundUpSmall(x: nat, k: nat)
    requires x <= 0x4000_0000
    ensures SS > 0 && DWORDS > 0 && (k >= (x + (SS - 1)) % DWORDS / SS <==> x <= k * SS)
  {
    RoundUp(x, k);
  }

  lemma RoundUp(x: nat, k: nat)
    ensures k >= (x + (SS - 1)) / SS <==> x <= k * SS
  {
  }

  /** System sectors and number of clusters as the code computes them. */
  function WrappedSystem(b: Bpb): nat {
    (b.rsvd + b.FatArea() % DWORDS + b.rootEnt / (SS / SZ_DIR)) % DWORDS
  }

  lemma ZeroIsNone()
    ensures !PowerOfTwo(0)
  {
  }

  lemma AreaIsProduct(b: Bpb)
    requires b.numFats == 1 || b.numFats == 2
    ensures b.fatSz * b.numFats == b.FatArea()
  {
  }

  lemma RequiredIs(ty: FatType, n: nat)
    ensures ty == FAT32 ==> RequiredSize(ty, n) == n * 4 % DWORDS
    ensures ty == FAT16 ==> RequiredSize(ty, n) == n * 2
    ensures ty == FAT12 ==> RequiredSize(ty, n) == n * 3 / 2 + And(n, 1)
  {
  }

  lemma SystemExact(b: Bpb)
    requires b.Words() && (b.numFats == 1 || b.numFats == 2)
    ensures b.System() < DWORDS ==> WrappedSystem(b) == b.System()
  {
  }

  /** What the code finds acceptable, whether or not a sum wrapped. */
  ghost predicate Passes(b: Bpb) {
    && b.bytsPerSec == SS && (b.numFats == 1 || b.numFats == 2) && PowerOfTwo(b.secPerClus)
    && b.rootEnt % (SS / SZ_DIR) == 0 && b.rsvd > 0 && WrappedSystem(b) <= b.totSec
    && var n := Whole(b.totSec - WrappedSystem(b), b.secPerClus);
       && n >= 1 && (TypeOf(n) == FAT32 <==> b.rootEnt == 0)
       && b.fatSz >= (RequiredSize(TypeOf(n), n + 2) + (SS - 1)) % DWORDS / SS
  }

  /** The layout it then assumes. */
  ghost predicate Accepted(b: Bpb, bsect: nat, g: Geometry) {
    && Passes(b) && g.nFatent == Whole(b.totSec - WrappedSystem(b), b.secPerClus) + 2
    && g.fsType == TypeOf(g.nFatent - 2)
    && g.csize == b.secPerClus && g.nFats == b.numFats && g.nRootdir == b.rootEnt && g.fsize == b.fatSz
    && g.fatbase == (bsect + b.rsvd) % DWORDS && g.database == (bsect + WrappedSystem(b)) % DWORDS
    && g.dirbase == (if g.fsType == FAT32 then b.rootClus else (g.fatbase + b.FatArea() % DWORDS) % DWORDS)
    && g.fsiSector == (if g.fsType == FAT32 then (bsect + b.fsInfo) % DWORDS else 0)
  }

  /** Nothing wraps: the code computes what the boot sector describes. */
  lemma SaneIsLayout(b: Bpb, bsect: nat, g: Geometry)
    requires b.Words() && bsect < DWORDS && b.secPerClus > 0 && Accepted(b, bsect, g) && Sane(b, bsect)
    ensures g == LayoutOf(b, bsect) && b.System() < b.totSec && WrappedSystem(b) == b.System()
    ensures b.Clusters() >= 1 && Span(b.Clusters(), b.secPerClus) <= b.totSec - b.System()
  {
    hide RequiredSize, TypeOf, PowerOfTwo, WrappedSystem, Whole, Span;
    SystemExact(b);
    NotNone(b.totSec - b.System(), b.secPerClus);
    SmallMod(b.FatArea());
    SmallMod(bsect + b.rsvd);
    SmallMod(bsect + b.System());
    SmallMod(bsect + b.rsvd + b.FatArea());
    SpanIsProduct(b.Clusters(), b.secPerClus);
    WholeFits(b.totSec - b.System(), b.secPerClus);
  }

  /** An accepted boot sector in which nothing wraps gives the layout it describes, inside the volume. */
  lemma SaneLayout(b: Bpb, bsect: nat, g: Geometry)
    requires b.Words() && bsect < DWORDS && b.secPerClus > 0 && Accepted(b, bsect, g) && Sane(b, bsect)
    ensures g == LayoutOf(b, bsect) && InVolume(g, b, bsect)
  {
    hide Whole, RequiredSize, Span;
    SaneIsLayout(b, bsect, g);
    assert g.nFatent < 0x1000_0000;
    RequiredIsTable(g.fsType, g.nFatent, b.fatSz);
    FsInfoInside(bsect, b.fsInfo, b.rsvd);
  }

  lemma NotNone(n: nat, csize: nat)
    requires csize > 0
    ensures Whole(n, csize) >= 1 ==> n >= 1
  {
  }

  lemma WholeFits(n: nat, csize: nat)
    requires csize > 0
    ensures Whole(n, csize) * csize <= n
  {
    DivModId(n, csize);
  }

  lemma InVolumeSane(b: Bpb, bsect: nat, g: Geometry)
    requires b.Words() && bsect < DWORDS && b.secPerClus > 0 && Accepted(b, bsect, g) && InVolume(g, b, bsect)
    ensures Sane(b, bsect)
  {
    hide Whole, RequiredSize;
    assert b.System() < DWORDS;
    SystemExact(b);
    FsInfoInside(bsect, b.fsInfo, b.rsvd);
  }

  lemma FsInfoInside(bsect: nat, fsInfo: nat, rsvd: nat)
    requires bsect < DWORDS && bsect + rsvd < DWORDS && fsInfo < 0x1_0000
    ensures bsect < (bsect + fsInfo) % DWORDS < bsect + rsvd <==> 0 < fsInfo < rsvd
  {
    if bsect + fsInfo < DWORDS { SmallMod(bsect + fsInfo); } else { SmallMod(bsect + fsInfo - DWORDS); }
  }

  /** Two bytes at o, the least significant first. */
  function Pair(win: Sector, o: nat): nat
    requires o + 2 <= 512
  {
    win[o] as nat + 0x100 * win[o + 1] as nat
  }

  /** A 16-bit field, or the 32-bit one that stands for it if it is zero. */
  function Either(win: Sector, o: nat, p: nat): nat
    requires o + 2 <= 512 && p + 4 <= 512
  {
    if Pair(win, o) != 0 then Pair(win, o) else Little(win, p)
  }

  /** Sectors in front of the data: reserved ones, all copies of the FAT, and the static root; in 32 bits. */
  function SystemOf(win: Sector): nat {
    (Pair(win, 14) + win[16] as nat * Either(win, 22, 36) % 0x1_0000_0000 + Pair(win, 17) / 16) % 0x1_0000_0000
  }

  /** Bytes of FAT for n entries, in 32 bits. */
  function NeededFor(ty: FatType, n: nat): nat {
    if ty == FAT32 then n * 4 % 0x1_0000_0000 else if ty == FAT16 then n * 2 else n * 3 / 2 + n % 2
  }

  /** The boot sector, by its bytes, is acceptable and gives the layout g of a volume that starts at sector bsect. */
  ghost predicate Describes(win: Sector, bsect: nat, g: Geometry) {
    && Pair(win, 11) == 512 && win[16] in {1, 2} && win[13] in {1, 2, 4, 8, 16, 32, 64, 128}
    && Pair(win, 17) % 16 == 0 && Pair(win, 14) > 0 && SystemOf(win) <= Either(win, 19, 32)
    && g.csize == win[13] as nat && g.nFats == win[16] as nat && g.nRootdir == Pair(win, 17) && g.fsize == Either(win, 22, 36)
    && 3 <= g.nFatent == (Either(win, 19, 32) - SystemOf(win)) / win[13] as nat + 2
    && g.fsType == (if g.nFatent - 2 >= 65526 then FAT32 else if g.nFatent - 2 >= 4086 then FAT16 else FAT12)
    && (g.fsType == FAT32 <==> Pair(win, 17) == 0)
    && g.fatbase == (bsect + Pair(win, 14)) % 0x1_0000_0000 && g.database == (bsect + SystemOf(win)) % 0x1_0000_0000
    && g.dirbase == (if g.fsType == FAT32 then Little(win, 44)
                     else (g.fatbase + win[16] as nat * g.fsize % 0x1_0000_0000) % 0x1_0000_0000)
    && g.fsiSector == (if g.fsType == FAT32 then (bsect + Pair(win, 48)) % 0x1_0000_0000 else 0)
    && g.fsize >= (NeededFor(g.fsType, g.nFatent) + 511) % 0x1_0000_0000 / 512
  }

  /** The fields are at the offsets of the BIOS parameter block. */
  lemma BpbBytes(win: Sector)
    ensures var b := ReadBpb(win);
      && b.bytsPerSec == Pair(win, 11) && b.fatSz == Either(win, 22, 36) && b.numFats == win[16] as nat
      && b.secPerClus == win[13] as nat && b.rootEnt == Pair(win, 17) && b.totSec == Either(win, 19, 32)
      && b.rsvd == Pair(win, 14) && b.rootClus == Little(win, 44) && b.fsInfo == Pair(win, 48)
  {
    LittleIs(win, 36);
    LittleIs(win, 32);
    LittleIs(win, 44);
  }

  lemma SystemBytes(win: Sector)
    requires win[16] in {1, 2}
    ensures WrappedSystem(ReadBpb(win)) == SystemOf(win)
    ensures ReadBpb(win).FatArea() == win[16] as nat * Either(win, 22, 36)
  {
    hide ReadBpb, Either, Pair, Little;
    BpbBytes(win);
  }

  lemma NeededIs(ty: FatType, n: nat)
    ensures NeededFor(ty, n) == RequiredSize(ty, n)
  {
    hide And;
    AndMask(n, 1);
    Pow2Values();
  }

  /** What the code accepts is what the bytes describe. */
  lemma AcceptedDescribes(win: Sector, bsect: nat, g: Geometry)
    ensures Accepted(ReadBpb(win), bsect, g) <==> Describes(win, bsect, g)
  {
    hide ReadBpb, Either, Pair, Little, WrappedSystem, SystemOf, RequiredSize, NeededFor;
    BpbBytes(win);
    if win[16] in {1, 2} { SystemBytes(win); }
    NeededIs(g.fsType, g.nFatent);
  }

  /** chk_mounted from the found boot sector on. Whatever it accepts is mounted inside the volume if and only if no sum
      wrapped and the FSInfo sector, which it does not check, lies in the reserved area; it is then the layout that the
      boot sector describes. */
  method ChkMounted(win: Sector, bsect: nat) returns (r: Option<Geometry>)
    requires bsect < DWORDS
    ensures r.Some? <==> Passes(ReadBpb(win))
    ensures r.Some? ==> Describes(win, bsect, r.value)
    ensures r.None? ==> forall g :: !Describes(win, bsect, g)
    ensures r.Some? ==> (InVolume(r.value, ReadBpb(win), bsect) <==> Sane(ReadBpb(win), bsect))
    ensures r.Some? && Sane(ReadBpb(win), bsect) ==> r.value == LayoutOf(ReadBpb(win), bsect)
  {
    hide ReadBpb, Sane, InVolume, LayoutOf, Describes;
    var b := ReadBpb(win);
    r := Analyze(b, bsect);
    forall g ensures Accepted(b, bsect, g) <==> Describes(win, bsect, g) { AcceptedDescribes(win, bsect, g); }
    if r.Some? {
      if Sane(b, bsect) { SaneLayout(b, bsect, r.value); }
      if InVolume(r.value, b, bsect) { InVolumeSane(b, bsect, r.value); }
    }
  }

  lemma DescribesOnce(win: Sector, bsect: nat, g: Geometry, h: Geometry)
    requires Describes(win, bsect, g) && Describes(win, bsect, h)
    ensures g == h
  {
    hide SystemOf, Either, Pair, Little, NeededFor;
  }

  /** Bytes 11 to 23 of the boot sector of a floppy disk with 2880 sectors. */
  predicate IsFloppy(win: Sector) {
    && win[11] == 0x00 && win[12] == 0x02 && win[13] == 0x01 && win[14] == 0x01 && win[15] == 0x00 && win[16] == 0x02
    && win[17] == 0xE0 && win[18] == 0x00 && win[19] == 0x40 && win[20] == 0x0B && win[21] == 0xF0
    && win[22] == 0x09 && win[23] == 0x00
  }

  /** It mounts with the FAT at sector 1, the root at 19 and the data at 33. */
  method MountFloppy(win: Sector) returns (r: Option<Geometry>)
    requires IsFloppy(win)
    ensures r == Some(Geometry(FAT12, 1, 2, 224, 2849, 9, 1, 19, 33, 0))
  {
    hide Describes, IsFloppy, IsCard;
    r := ChkMounted(win, 0);
    FloppyIs(win);
    if r.Some? { DescribesOnce(win, 0, r.value, Geometry(FAT12, 1, 2, 224, 2849, 9, 1, 19, 33, 0)); }
  }

  lemma FloppyIs(win: Sector)
    requires IsFloppy(win)
    ensures Describes(win, 0, Geometry(FAT12, 1, 2, 224, 2849, 9, 1, 19, 33, 0))
  {
    assert Pair(win, 11) == 512 && Pair(win, 14) == 1 && Pair(win, 17) == 224 && Pair(win, 19) == 2880 && Pair(win, 22) == 9;
    assert SystemOf(win) == 33;
  }

  /** The fields of the boot sector of a card with 532480 sectors, 8 of which make a cluster. */
  predicate IsCard(win: Sector) {
    && win[11] == 0x00 && win[12] == 0x02 && win[13] == 0x08 && win[14] == 0x20 && win[15] == 0x00 && win[16] == 0x02
    && win[17] == 0x00 && win[18] == 0x00 && win[19] == 0x00 && win[20] == 0x00 && win[22] == 0x00 && win[23] == 0x00
    && win[32] == 0x00 && win[33] == 0x20 && win[34] == 0x08 && win[35] == 0x00
    && win[36] == 0x08 && win[37] == 0x02 && win[38] == 0x00 && win[39] == 0x00
    && win[44] == 0x02 && win[45] == 0x00 && win[46] == 0x00 && win[47] == 0x00 && win[48] == 0x01 && win[49] == 0x00
  }

  /** With its volume at sector 63 it mounts with FSInfo at 64, the FAT at 95 and the data at 1135. */
  method MountCard(win: Sector) returns (r: Option<Geometry>)
    requires IsCard(win)
    ensures r == Some(Geometry(FAT32, 8, 2, 0, 66428, 520, 95, 2, 1135, 64))
  {
    hide Describes, IsFloppy, IsCard;
    r := ChkMounted(win, 63);
    CardIs(win);
    if r.Some? { DescribesOnce(win, 63, r.value, Geometry(FAT32, 8, 2, 0, 66428, 520, 95, 2, 1135, 64)); }
  }

  lemma CardIs(win: Sector)
    requires IsCard(win)
    ensures Describes(win, 63, Geometry(FAT32, 8, 2, 0, 66428, 520, 95, 2, 1135, 64))
  {
    assert Pair(win, 11) == 512 && Pair(win, 14) == 32 && Pair(win, 17) == 0 && Pair(win, 19) == 0 && Pair(win, 22) == 0;
    assert Pair(win, 48) == 1 && Little(win, 32) == 532480 && Little(win, 36) == 520 && Little(win, 44) == 2;
    assert SystemOf(win) == 1072;
  }

  /** The tests and assignments of chk_mounted. */
  method Analyze(b: Bpb, bsect: nat) returns (r: Option<Geometry>)
    requires b.Words() && bsect < DWORDS
    ensures r.Some? ==> Accepted(b, bsect, r.value)
    ensures r.None? ==> !Passes(b)
  {
    hide RequiredSize, And, PowerOfTwo, Whole;
    ZeroIsNone();
    if b.bytsPerSec != SS { return None; }
    if b.numFats != 1 && b.numFats != 2 { return None; }
    AreaIsProduct(b);
    var fasize := b.fatSz * b.numFats % DWORDS;
    if b.secPerClus == 0 { return None; }
    SmallPowers(b.secPerClus);
    if And(b.secPerClus, b.secPerClus - 1) != 0 { return None; }
    if b.rootEnt % (SS / SZ_DIR) != 0 { return None; }
    if b.rsvd == 0 { return None; }
    var sysect := (b.rsvd + fasize + b.rootEnt / (SS / SZ_DIR)) % DWORDS;
    if b.totSec < sysect { return None; }
    var nclst := Whole(b.totSec - sysect, b.secPerClus);
    if nclst == 0 { return None; }
    var fmt := FAT12;
    if nclst >= MIN_FAT16 { fmt := FAT16; }
    if nclst >= MIN_FAT32 { fmt := FAT32; }
    var nFatent := nclst + 2;
    var database := (bsect + sysect) % DWORDS;
    var fatbase := (bsect + b.rsvd) % DWORDS;
    var dirbase, szbfat;
    if fmt == FAT32 {
      if b.rootEnt != 0 { return None; }
      dirbase := b.rootClus;
      szbfat := nFatent * 4 % DWORDS;
    } else {
      if b.rootEnt == 0 { return None; }
      dirbase := (fatbase + fasize) % DWORDS;
      szbfat := if fmt == FAT16 then nFatent * 2 else nFatent * 3 / 2 + And(nFatent, 1);
    }
    RequiredIs(fmt, nFatent);
    if b.fatSz < (szbfat + (SS - 1)) % DWORDS / SS { return None; }
    var fsi := 0;
    if fmt == FAT32 { fsi := (bsect + b.fsInfo) % DWORDS; }
    r := Some(Geometry(fmt, b.secPerClus, b.numFats, b.rootEnt, nFatent, b.fatSz, fatbase, dirbase, database, fsi));
  }

  /** With 2^30 entries the required FAT size wraps to 0: a FAT of one sector passes for a volume of 2^30 - 2
      clusters. */
  lemma WrapPasses() returns (b: Bpb)
    ensures b.Words() && Passes(b) && !Sane(b, 0) && b.fatSz == 1 && b.secPerClus == 1 && b.Clusters() == 0x3FFF_FFFE
  {
    b := Bpb(SS, 1, 1, 1, 0, 0x4000_001F, 32, 2, 1);
    assert WrappedSystem(b) == b.System() == 33;
    assert Whole(b.totSec - 33, 1) == 0x3FFF_FFFE;
    assert RequiredSize(FAT32, 0x4000_0000) == 0;
  }

  /** An FSInfo number behind the reserved area passes, although nothing wraps: sync then writes the FSInfo sector over
      the FAT. With number 0 it is the boot sector that is overwritten. */
  lemma FsInfoPasses() returns (b: Bpb, c: Bpb)
    ensures b.Words() && Passes(b) && b.System() < DWORDS && b.totSec < DWORDS && b.Clusters() + 2 < 0x1000_0000
    ensures LayoutOf(b, 0).InFat((0 + b.fsInfo) % DWORDS) && !Sane(b, 0)
    ensures c == b.(fsInfo := 0) && Passes(c) && !Sane(c, 0)
  {
    b := Bpb(SS, 1024, 1, 1, 0, 100000, 32, 2, 40);
    c := b.(fsInfo := 0);
    assert WrappedSystem(b) == b.System() == 1056 == WrappedSystem(c);
    assert Whole(b.totSec - 1056, 1) == 98944;
    assert RequiredSize(FAT32, 98946) == 395784;
  }

  /** The end mark put_fat stores for 0x0FFFFFFF reads back as no cluster, on every mountable volume but a FAT32
      with more than 0x0FFFFFFF entries. */
  lemma EndMarkReads(n: nat)
    ensures 0x0FFF_FFFF % TypeOf(n).Modulus() >= n + 2 <==> n + 2 <= 0x0FFF_FFFF
  {
    assert 0x0FFF_FFFF % 0x1000 == 0xFFF && 0x0FFF_FFFF % 0x1_0000 == 0xFFFF;
  }
}
