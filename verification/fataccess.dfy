/** get_fat and put_fat: the packed table reached through the sector window. */
module FatAccess {
  import opened Layout
  import opened Bits
  import opened ByteOrder
  import opened FatPacking
  import opened Window

  datatype FResult = FR_OK | FR_INT_ERR | FR_NO_FILE | FR_DENIED | FR_NOT_ENOUGH_CORE

  ghost predicate Fits(g: Geometry, d: seq<Sector>) {
    g.Valid() && g.End() <= |d|
  }

  /** The bytes of the first FAT copy. */
  ghost function Table(g: Geometry, d: seq<Sector>): (t: seq<byte>)
    requires Fits(g, d)
    ensures |t| == g.fsize * SS
  {
    seq(g.fsize * SS, o requires 0 <= o < g.fsize * SS => d[g.fatbase + o / SS][o % SS])
  }

  lemma EntryFits(g: Geometry, c: nat)
    requires g.Valid() && c < g.nFatent
    ensures InTable(g.fsType, g.fsize * SS, c)
  {
    EntriesInTable(g.fsType, g.nFatent, c);
  }

  /** The entries 0 .. n_fatent-1 as a sequence of numbers. */
  ghost function Fat(g: Geometry, d: seq<Sector>): (f: seq<nat>)
    requires Fits(g, d)
    ensures |f| == g.nFatent
    ensures forall c :: 0 <= c < g.nFatent ==> f[c] < g.fsType.Modulus()
  {
    Unpacked(g, Table(g, d))
  }

  ghost function Unpacked(g: Geometry, t: seq<byte>): (f: seq<nat>)
    requires g.Valid() && |t| == g.fsize * SS
    ensures |f| == g.nFatent
    ensures forall c :: 0 <= c < g.nFatent ==> f[c] < g.fsType.Modulus()
  {
    seq(g.nFatent, c requires 0 <= c < g.nFatent => EntryFits(g, c); Entry(g.fsType, t, c))
  }

  lemma UnpackedAt(g: Geometry, t: seq<byte>, c: nat)
    requires g.Valid() && |t| == g.fsize * SS && c < g.nFatent
    ensures InTable(g.fsType, |t|, c) && Unpacked(g, t)[c] == Entry(g.fsType, t, c)
  {
    EntryFits(g, c);
  }

  /** d and e agree outside the FAT copies, and equal copies stay equal. */
  ghost predicate OnlyFat(g: Geometry, d: seq<Sector>, e: seq<Sector>) {
    && Fits(g, d) && |d| == |e|
    && (forall s :: 0 <= s < |d| && (s < g.fatbase || g.RootBase() <= s) ==> d[s] == e[s])
    && (Mirrored(g, d) ==> Mirrored(g, e))
  }

  lemma OnlyFatTrans(g: Geometry, d: seq<Sector>, e: seq<Sector>, f: seq<Sector>)
    requires OnlyFat(g, d, e) && OnlyFat(g, e, f)
    ensures OnlyFat(g, d, f)
  {
  }

  lemma SetIsUpdate(g: Geometry, t: seq<byte>, u: seq<byte>, c: nat, val: nat)
    requires g.Valid() && |t| == g.fsize * SS && c < g.nFatent
    requires EntrySet(g.fsType, t, u, c, val)
    ensures Unpacked(g, u) == Unpacked(g, t)[c := val % g.fsType.Modulus()]
  {
    forall x: nat | x < g.nFatent
      ensures Unpacked(g, u)[x] == Unpacked(g, t)[c := val % g.fsType.Modulus()][x]
    {
      UnpackedAt(g, t, x);
      UnpackedAt(g, u, x);
    }
  }

  lemma WindowShows(fs: Volume)
    requires fs.Valid() && fs.winsect != 0
    ensures fs.win[..] == fs.Logical()[fs.winsect]
  {
  }

  /** Rewriting one byte of a FAT sector rewrites that byte of the table. */
  lemma TablePoke(g: Geometry, d: seq<Sector>, o: nat, data: Sector, b: byte)
    requires Fits(g, d) && o < g.fsize * SS
    requires data == d[g.fatbase + o / SS][o % SS := b]
    ensures OnlyFat(g, d, WithSector(g, d, g.fatbase + o / SS, data))
    ensures Table(g, WithSector(g, d, g.fatbase + o / SS, data)) == Table(g, d)[o := b]
  {
    var s := g.fatbase + o / SS;
    var e := WithSector(g, d, s, data);
    if Mirrored(g, d) { WithSectorKeepsMirror(g, d, s, data); }
    forall p: nat | p < g.fsize * SS ensures Table(g, e)[p] == Table(g, d)[o := b][p] {
      TablePokeAt(g, d, o, data, b, p);
    }
  }

  lemma TablePokeAt(g: Geometry, d: seq<Sector>, o: nat, data: Sector, b: byte, p: nat)
    requires Fits(g, d) && o < g.fsize * SS && p < g.fsize * SS
    requires data == d[g.fatbase + o / SS][o % SS := b]
    ensures Table(g, WithSector(g, d, g.fatbase + o / SS, data))[p] == if p == o then b else Table(g, d)[p]
  {
    if p / SS == o / SS && p != o {
      assert p % SS != o % SS;
    }
  }

  /** A store into the FAT sector shown in the window. */
  method PokeFat(fs: Volume, o: nat, b: byte)
    requires fs.Valid() && o < fs.geo.fsize * SS && fs.winsect == fs.geo.fatbase + o / SS
    modifies fs`wflag, fs.win
    ensures fs.Valid() && OnlyFat(fs.geo, old(fs.Logical()), fs.Logical())
    ensures Table(fs.geo, fs.Logical()) == Table(fs.geo, old(fs.Logical()))[o := b]
  {
    WindowShows(fs);
    Poke(fs, o % SS, b);
    TablePoke(fs.geo, old(fs.Logical()), o, fs.win[..], b);
  }

  /** The sector of a table byte. */
  lemma ByteSector(g: Geometry, o: nat)
    requires g.Valid() && o < g.fsize * SS
    ensures o / SS < g.fsize && 0 < g.fatbase + o / SS < g.RootBase() <= g.End()
  {
  }

  lemma EntrySector(clst: nat)
    ensures clst / (SS / 2) == clst * 2 / SS && clst / (SS / 4) == clst * 4 / SS
  {
    ModUnique(clst / 256, clst % 256 * 2, SS);
    ModUnique(clst / 128, clst % 128 * 4, SS);
  }

  /** Byte o of the table, through the window. */
  method PeekFat(fs: Volume, o: nat) returns (b: nat)
    requires fs.Valid() && o < fs.geo.fsize * SS
    modifies fs`disk, fs`winsect, fs`wflag, fs.win
    ensures fs.Valid() && fs.Logical() == old(fs.Logical())
    ensures fs.winsect == fs.geo.fatbase + o / SS && fs.geo.InFat(fs.winsect)
    ensures b == At(Table(fs.geo, fs.Logical()), o)
    ensures b == At(fs.win[..], o % SS) && (fs.wflag ==> old(fs.wflag))
  {
    ByteSector(fs.geo, o);
    MoveWindow(fs, fs.geo.fatbase + o / SS);
    b := At(fs.win[..], o % SS);
  }

  lemma Mask12(x: nat)
    ensures And(x, 0xFFF) == x % 0x1000
  {
    Pow2Values();
    Pow2Add(8, 4);
    AndMask(x, 12);
  }

  lemma Mask28(x: nat)
    ensures And(x, 0x0FFF_FFFF) == x % 0x1000_0000
    ensures AndNot(x, 0x0FFF_FFFF) == x - x % 0x1000_0000
  {
    Pow2Wide();
    AndMask(x, 28);
    AndNotMask(x, 28);
  }

  lemma Split12(lo: nat, hi: nat)
    requires lo < 0x100
    ensures (lo + hi * 0x100) % 0x1000 == lo + 0x100 * (hi % 16)
    ensures (lo + hi * 0x100) / 16 == lo / 16 + 16 * hi
  {
    ModUnique(hi / 16, lo + 0x100 * (hi % 16), 0x1000);
  }

  lemma Unpack12(lo: nat, hi: nat)
    requires lo < 0x100 && hi < 0x100
    ensures Or(lo, hi * 0x100) == lo + hi * 0x100
    ensures And(lo + hi * 0x100, 0xFFF) == lo + 0x100 * (hi % 16)
    ensures (lo + hi * 0x100) / 16 == lo / 16 + 16 * hi
  {
    hide And, Or;
    Mask12(lo + hi * 0x100);
    Split12(lo, hi);
    Pow2Values();
    OrFields(hi, lo, 8);
  }

  lemma LowBit(c: nat)
    ensures And(c, 1) == c % 2
  {
    Pow2Values();
    AndMask(c, 1);
  }

  /** get_fat: 1 for a number that is no cluster, else the entry's value. */
  method GetFat(fs: Volume, clst: nat) returns (v: nat)
    requires fs.Valid()
    modifies fs`disk, fs`winsect, fs`wflag, fs.win
    ensures fs.Valid() && fs.Logical() == old(fs.Logical())
    ensures v == if fs.geo.Cluster(clst) then Fat(fs.geo, fs.Logical())[clst] else 1
    ensures fs.geo.Cluster(clst) ==> fs.geo.InFat(fs.winsect)
    ensures !fs.geo.Cluster(clst) ==> fs.winsect == old(fs.winsect)
    ensures fs.wflag ==> old(fs.wflag)
  {
    if clst < 2 || clst >= fs.geo.nFatent {
      return 1;
    }
    UnpackedAt(fs.geo, Table(fs.geo, fs.Logical()), clst);
    match fs.geo.fsType {
      case FAT12 => v := Get12(fs, clst);
      case FAT16 => v := Get16(fs, clst);
      case FAT32 => v := Get32(fs, clst);
    }
  }

  method Get12(fs: Volume, clst: nat) returns (v: nat)
    requires fs.Valid() && fs.geo.fsType == FAT12 && InTable(FAT12, fs.geo.fsize * SS, clst)
    modifies fs`disk, fs`winsect, fs`wflag, fs.win
    ensures fs.Valid() && fs.Logical() == old(fs.Logical()) && fs.geo.InFat(fs.winsect)
    ensures v == Entry(FAT12, Table(fs.geo, fs.Logical()), clst) && (fs.wflag ==> old(fs.wflag))
  {
    var bc := clst;
    bc := bc + bc / 2;
    var wc := PeekFat(fs, bc);
    bc := bc + 1;
    var hi := PeekFat(fs, bc);
    Unpack12(wc, hi);
    LowBit(clst);
    wc := Or(wc, hi * 0x100);
    v := if And(clst, 1) != 0 then wc / 16 else And(wc, 0xFFF);
  }

  /** Bring the sector with the k-byte entry clst into the window. */
  method ShowWord(fs: Volume, clst: nat, k: nat) returns (off: nat)
    requires fs.Valid() && (k == 2 || k == 4) && clst * k + k <= fs.geo.fsize * SS
    modifies fs`disk, fs`winsect, fs`wflag, fs.win
    ensures fs.Valid() && fs.Logical() == old(fs.Logical()) && fs.geo.InFat(fs.winsect)
    ensures fs.winsect == fs.geo.fatbase + clst * k / SS && off == clst * k % SS && off + k <= SS
    ensures clst * k % k == 0 && (fs.wflag ==> old(fs.wflag))
    ensures WordShown(fs.win[..], off, Table(fs.geo, fs.Logical()), clst * k, k)
  {
    EntrySector(clst);
    ByteSector(fs.geo, clst * k);
    WordAligned(clst, k);
    MoveWindow(fs, fs.geo.fatbase + clst / (SS / k));
    WordInWindow(fs.geo, fs.Logical(), clst * k, fs.win[..], k);
    off := clst * k % SS;
  }

  lemma WordAligned(clst: nat, k: nat)
    requires k == 2 || k == 4
    ensures clst * k % k == 0 && clst / (SS / k) == clst * k / SS
  {
    EntrySector(clst);
  }

  method Get16(fs: Volume, clst: nat) returns (v: nat)
    requires fs.Valid() && fs.geo.fsType == FAT16 && InTable(FAT16, fs.geo.fsize * SS, clst)
    modifies fs`disk, fs`winsect, fs`wflag, fs.win
    ensures fs.Valid() && fs.Logical() == old(fs.Logical()) && fs.geo.InFat(fs.winsect)
    ensures v == Entry(FAT16, Table(fs.geo, fs.Logical()), clst) && (fs.wflag ==> old(fs.wflag))
  {
    var off := ShowWord(fs, clst, 2);
    Load16(fs.win[..], off, Table(fs.geo, fs.Logical()), clst);
    v := LdWord(fs.win[..], off);
  }

  method Get32(fs: Volume, clst: nat) returns (v: nat)
    requires fs.Valid() && fs.geo.fsType == FAT32 && InTable(FAT32, fs.geo.fsize * SS, clst)
    modifies fs`disk, fs`winsect, fs`wflag, fs.win
    ensures fs.Valid() && fs.Logical() == old(fs.Logical()) && fs.geo.InFat(fs.winsect)
    ensures v == Entry(FAT32, Table(fs.geo, fs.Logical()), clst) && (fs.wflag ==> old(fs.wflag))
  {
    var off := ShowWord(fs, clst, 4);
    Load32(fs.win[..], off, Table(fs.geo, fs.Logical()), clst);
    v := And(LdDword(fs.win[..], off), 0x0FFF_FFFF);
  }

  lemma Load16(w: seq<byte>, i: nat, t: seq<byte>, c: nat)
    requires i + 2 <= |w| && InTable(FAT16, |t|, c) && WordShown(w, i, t, c * 2, 2)
    ensures LdWord(w, i) == Entry(FAT16, t, c)
  {
    hide Or;
  }

  /** The masks of get_fat and put_fat split a stored dword into entry and reserved bits. */
  lemma Load32(w: seq<byte>, i: nat, t: seq<byte>, c: nat)
    requires i + 4 <= |w| && InTable(FAT32, |t|, c) && WordShown(w, i, t, c * 4, 4)
    ensures And(LdDword(w, i), 0x0FFF_FFFF) == Entry(FAT32, t, c)
    ensures AndNot(LdDword(w, i), 0x0FFF_FFFF) == 0x1000_0000 * Reserved(t, c)
  {
    hide And, AndNot, Or;
    Low28(At(w, i), At(w, i + 1), At(w, i + 2), At(w, i + 3));
  }

  ghost predicate WordShown(w: seq<byte>, i: nat, t: seq<byte>, o: nat, k: nat) {
    && i + k <= |w| && o + k <= |t| && 2 <= k <= 4
    && At(w, i) == At(t, o) && At(w, i + 1) == At(t, o + 1)
    && (k == 4 ==> At(w, i + 2) == At(t, o + 2) && At(w, i + 3) == At(t, o + 3))
  }

  lemma Low28(b0: nat, b1: nat, b2: nat, b3: nat)
    requires b0 < 0x100 && b1 < 0x100 && b2 < 0x100 && b3 < 0x100
    ensures var w := b0 + 0x100 * b1 + 0x1_0000 * b2 + 0x100_0000 * b3;
            && And(w, 0x0FFF_FFFF) == b0 + 0x100 * b1 + 0x1_0000 * b2 + 0x100_0000 * (b3 % 16)
            && AndNot(w, 0x0FFF_FFFF) == 0x1000_0000 * (b3 / 16)
  {
    hide And, AndNot;
    Mask28(b0 + 0x100 * b1 + 0x1_0000 * b2 + 0x100_0000 * b3);
    ModUnique(b3 / 16, b0 + 0x100 * b1 + 0x1_0000 * b2 + 0x100_0000 * (b3 % 16), 0x1000_0000);
  }

  /** An aligned word of k bytes does not straddle sectors. */
  lemma WordInWindow(g: Geometry, d: seq<Sector>, o: nat, w: Sector, k: nat)
    requires Fits(g, d) && (k == 2 || k == 4) && o % k == 0 && o + k <= g.fsize * SS
    requires w == d[g.fatbase + o / SS]
    ensures o % SS + k <= SS && WordShown(w, o % SS, Table(g, d), o, k)
  {
    Aligned(o, k);
  }

  lemma Aligned(o: nat, k: nat)
    requires (k == 2 || k == 4) && o % k == 0
    ensures o % SS + k <= SS
    ensures (o + 1) / SS == o / SS && (o + 1) % SS == o % SS + 1
    ensures k == 4 ==> (o + 2) / SS == o / SS && (o + 2) % SS == o % SS + 2
    ensures k == 4 ==> (o + 3) / SS == o / SS && (o + 3) % SS == o % SS + 3
  {
    var q, r := o / SS, o % SS;
    ModUnique(q, r + 1, SS);
    if k == 4 {
      ModUnique(q, r + 2, SS);
      ModUnique(q, r + 3, SS);
    }
  }

  lemma Mask4(x: nat)
    ensures And(x, 0x0F) == x % 16
    ensures AndNot(x, 0x0F) == x / 16 * 16
  {
    Pow2Values();
    AndMask(x, 4);
    AndNotMask(x, 4);
  }

  /** The byte values put_fat stores for a FAT12 entry. */
  lemma Pack12(p: nat, val: nat)
    requires p < 0x100
    ensures Or(And(p, 0x0F), val % 0x100 * 16) % 0x100 == p % 16 + val % 16 * 16
    ensures Or(AndNot(p, 0x0F), And(val / 0x100 % 0x100, 0x0F)) == p / 16 * 16 + val / 0x100 % 16
  {
    hide And, AndNot, Or;
    Mask4(p);
    Mask4(val / 0x100 % 0x100);
    Pow2Values();
    OrFields(val % 0x100, p % 16, 4);
    ModUnique(val % 0x100 / 16, p % 16 + val % 16 * 16, 0x100);
    OrFields(p / 16, val / 0x100 % 0x100 % 16, 4);
    ModMod(val / 0x100);
    ModMod(val);
  }

  lemma ModMod(x: nat)
    ensures x % 0x100 % 16 == x % 16
  {
  }

  /** The two stores of put_fat on FAT12. */
  function LoByte12(clst: nat, p: nat, val: nat): (b: byte)
    requires p < 0x100
    ensures b as nat == Lo12(clst, p, val)
  {
    LowBit(clst);
    Pack12(p, val);
    if And(clst, 1) != 0 then Or(And(p, 0x0F), val % 0x100 * 16) % 0x100 else val % 0x100
  }

  function HiByte12(clst: nat, p: nat, val: nat): (b: byte)
    requires p < 0x100
    ensures b as nat == Hi12(clst, p, val)
  {
    LowBit(clst);
    Pack12(p, val);
    if And(clst, 1) != 0 then val / 16 % 0x100 else Or(AndNot(p, 0x0F), And(val / 0x100 % 0x100, 0x0F))
  }

  method Store12(fs: Volume, clst: nat, val: nat)
    requires fs.Valid() && fs.geo.fsType == FAT12 && InTable(FAT12, fs.geo.fsize * SS, clst)
    modifies fs`disk, fs`winsect, fs`wflag, fs.win
    ensures fs.Valid() && OnlyFat(fs.geo, old(fs.Logical()), fs.Logical()) && fs.geo.InFat(fs.winsect)
    ensures Table(fs.geo, fs.Logical()) == Put12(Table(fs.geo, old(fs.Logical())), clst, val)
  {
    var bc := clst;
    bc := bc + bc / 2;
    hide And, AndNot, Or, Table, LoByte12, HiByte12, Lo12, Hi12, Fat;
    var p := PeekFat(fs, bc);
    PokeFat(fs, bc, LoByte12(clst, p, val));
    bc := bc + 1;
    ghost var mid := fs.Logical();
    p := PeekFat(fs, bc);
    PokeFat(fs, bc, HiByte12(clst, p, val));
    OnlyFatTrans(fs.geo, old(fs.Logical()), mid, fs.Logical());
  }

  method Store16(fs: Volume, clst: nat, val: nat)
    requires fs.Valid() && fs.geo.fsType == FAT16 && InTable(FAT16, fs.geo.fsize * SS, clst)
    modifies fs`disk, fs`winsect, fs`wflag, fs.win
    ensures fs.Valid() && OnlyFat(fs.geo, old(fs.Logical()), fs.Logical()) && fs.geo.InFat(fs.winsect)
    ensures Table(fs.geo, fs.Logical()) == Put16(Table(fs.geo, old(fs.Logical())), clst, val)
  {
    hide Table, Mirrored;
    var off := ShowWord(fs, clst, 2);
    StWord(fs, clst * 2, val);
  }

  method StWord(fs: Volume, o: nat, w: nat)
    requires fs.Valid() && o % 2 == 0 && o + 2 <= fs.geo.fsize * SS
    requires fs.winsect == fs.geo.fatbase + o / SS
    modifies fs`wflag, fs.win
    ensures fs.Valid() && OnlyFat(fs.geo, old(fs.Logical()), fs.Logical())
    ensures Table(fs.geo, fs.Logical()) ==
            Table(fs.geo, old(fs.Logical()))[o := w % 0x100][o + 1 := w % 0x1_0000 / 0x100]
  {
    Aligned(o, 2);
    PokeFat(fs, o, w % 0x100);
    ghost var mid := fs.Logical();
    PokeFat(fs, o + 1, w % 0x1_0000 / 0x100);
    OnlyFatTrans(fs.geo, old(fs.Logical()), mid, fs.Logical());
  }

  method StDword(fs: Volume, o: nat, w: nat)
    requires fs.Valid() && o % 4 == 0 && o + 4 <= fs.geo.fsize * SS
    requires fs.winsect == fs.geo.fatbase + o / SS
    modifies fs`wflag, fs.win
    ensures fs.Valid() && OnlyFat(fs.geo, old(fs.Logical()), fs.Logical())
    ensures Table(fs.geo, fs.Logical()) ==
            Table(fs.geo, old(fs.Logical()))[o := w % 0x100][o + 1 := w % 0x1_0000 / 0x100]
                [o + 2 := w / 0x1_0000 % 0x100][o + 3 := w / 0x100_0000 % 0x100]
  {
    Aligned(o, 4);
    PokeFat(fs, o, w % 0x100);
    ghost var d1 := fs.Logical();
    PokeFat(fs, o + 1, w % 0x1_0000 / 0x100);
    ghost var d2 := fs.Logical();
    PokeFat(fs, o + 2, w / 0x1_0000 % 0x100);
    ghost var d3 := fs.Logical();
    PokeFat(fs, o + 3, w / 0x100_0000 % 0x100);
    OnlyFatTrans(fs.geo, old(fs.Logical()), d1, d2);
    OnlyFatTrans(fs.geo, old(fs.Logical()), d2, d3);
    OnlyFatTrans(fs.geo, old(fs.Logical()), d3, fs.Logical());
  }

  method Store32(fs: Volume, clst: nat, val: nat) returns (ghost w: nat)
    requires fs.Valid() && fs.geo.fsType == FAT32 && InTable(FAT32, fs.geo.fsize * SS, clst)
    requires val < DWORDS
    modifies fs`disk, fs`winsect, fs`wflag, fs.win
    ensures fs.Valid() && OnlyFat(fs.geo, old(fs.Logical()), fs.Logical()) && fs.geo.InFat(fs.winsect)
    ensures w == val % 0x1000_0000
               + 0x1000_0000 * Or(val / 0x1000_0000, Reserved(Table(fs.geo, old(fs.Logical())), clst))
    ensures w < DWORDS
    ensures Table(fs.geo, fs.Logical()) == Put32(Table(fs.geo, old(fs.Logical())), clst, w)
  {
    hide Table, Mirrored, LdDword;
    var off := ShowWord(fs, clst, 4);
    Load32(fs.win[..], off, Table(fs.geo, fs.Logical()), clst);
    var v := Merge32(val, LdDword(fs.win[..], off), Reserved(Table(fs.geo, fs.Logical()), clst));
    StDword(fs, clst * 4, v);
    w := v;
  }

  /** `val |= LD_DWORD(p) & 0xF0000000` */
  method Merge32(val: nat, dw: nat, ghost r: nat) returns (w: nat)
    requires val < DWORDS && r < 16 && AndNot(dw, 0x0FFF_FFFF) == 0x1000_0000 * r
    ensures w == val % 0x1000_0000 + 0x1000_0000 * Or(val / 0x1000_0000, r) && w < DWORDS
  {
    OrReserved(val, r);
    w := Or(val, AndNot(dw, 0x0FFF_FFFF));
  }

  /** `val |= reserved` only meets the bits of val above 28. */
  lemma OrReserved(val: nat, r: nat)
    requires val < DWORDS && r < 16
    ensures Or(val, 0x1000_0000 * r) == val % 0x1000_0000 + 0x1000_0000 * Or(val / 0x1000_0000, r)
    ensures Or(val / 0x1000_0000, r) < 16
  {
    hide Or;
    Pow2Wide();
    Pow2Values();
    OrUpper(val / 0x1000_0000, val % 0x1000_0000, r, 28);
    OrBound(val / 0x1000_0000, r, 4);
  }

  /** put_fat. */
  method PutFat(fs: Volume, clst: nat, val: nat) returns (res: FResult)
    requires fs.Valid() && val < DWORDS
    modifies fs`disk, fs`winsect, fs`wflag, fs.win
    ensures fs.Valid() && OnlyFat(fs.geo, old(fs.Logical()), fs.Logical())
    ensures res == if fs.geo.Cluster(clst) then FR_OK else FR_INT_ERR
    ensures res != FR_OK ==> fs.Logical() == old(fs.Logical()) && fs.winsect == old(fs.winsect)
    ensures res == FR_OK ==> fs.geo.InFat(fs.winsect)
    ensures res == FR_OK ==>
      EntrySet(fs.geo.fsType, Table(fs.geo, old(fs.Logical())), Table(fs.geo, fs.Logical()), clst, val)
    ensures res == FR_OK ==>
      Fat(fs.geo, fs.Logical()) == Fat(fs.geo, old(fs.Logical()))[clst := val % fs.geo.fsType.Modulus()]
  {
    if clst < 2 || clst >= fs.geo.nFatent {
      return FR_INT_ERR;
    }
    EntryFits(fs.geo, clst);
    ghost var t := Table(fs.geo, fs.Logical());
    match fs.geo.fsType {
      case FAT12 =>
        Store12(fs, clst, val);
        Set12(t, clst, val);
      case FAT16 =>
        Store16(fs, clst, val);
        Set16(t, clst, val);
      case FAT32 =>
        ghost var w := Store32(fs, clst, val);
        Set32(t, clst, val, w);
    }
    SetIsUpdate(fs.geo, t, Table(fs.geo, fs.Logical()), clst, val);
    res := FR_OK;
  }

  /** Sectors behind the FAT copies do not matter for the table. */
  lemma FatElsewhere(g: Geometry, d: seq<Sector>, e: seq<Sector>)
    requires Fits(g, d) && |e| == |d|
    requires forall s :: g.fatbase <= s < g.RootBase() ==> e[s] == d[s]
    ensures Fat(g, e) == Fat(g, d)
  {
    assert Table(g, e) == Table(g, d);
  }

  lemma FatKept(g: Geometry, d: seq<Sector>, s: nat, x: Sector)
    requires Fits(g, d) && g.RootBase() <= s < |d|
    ensures Fat(g, d[s := x]) == Fat(g, d)
  {
    FatElsewhere(g, d, d[s := x]);
  }

  lemma VolumeFits(fs: Volume)
    requires fs.Valid()
    ensures Fits(fs.geo, fs.Logical()) && fs.geo.Valid() && DWORDS - 2 > fs.geo.nFatent >= 3
    ensures fs.win.Length == SS && |fs.disk| == |fs.Logical()|
  {
  }
}
