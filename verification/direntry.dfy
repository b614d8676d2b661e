/** The fields of a 32-byte directory entry and of the FSInfo sector, as bytes of a sector. */
module DirEntry {
  import opened Layout
  import opened Bits
  import opened ByteOrder
  import opened Window

  const DIR_ATTR := 11
  const DIR_FSTCLUSHI := 20
  const DIR_WRTTIME := 22
  const DIR_FSTCLUSLO := 26
  const DIR_FILESIZE := 28
  const AM_ARC := 0x20

  const BS_55AA := 510
  const FSI_LEADSIG := 0
  const FSI_STRUCSIG := 484
  const FSI_FREE_COUNT := 488
  const FSI_NXT_FREE := 492

  /** Byte i of a little-endian number. */
  function Digit(v: nat, i: nat): (b: byte) {
    if i == 0 then v % 0x100 else Digit(v / 0x100, i - 1)
  }

  /** ST_WORD */
  function PutWord(s: seq<byte>, o: nat, v: nat): (r: seq<byte>)
    requires o + 2 <= |s|
    ensures |r| == |s|
  {
    s[o := Digit(v, 0)][o + 1 := Digit(v, 1)]
  }

  /** ST_DWORD */
  function PutDword(s: seq<byte>, o: nat, v: nat): (r: seq<byte>)
    requires o + 4 <= |s|
    ensures |r| == |s|
  {
    s[o := Digit(v, 0)][o + 1 := Digit(v, 1)][o + 2 := Digit(v, 2)][o + 3 := Digit(v, 3)]
  }

  method StoreWord(a: array<byte>, o: nat, v: nat)
    requires o + 2 <= a.Length
    modifies a
    ensures a[..] == PutWord(old(a[..]), o, v)
  {
    a[o] := Digit(v, 0);
    a[o + 1] := Digit(v, 1);
  }

  method StoreDword(a: array<byte>, o: nat, v: nat)
    requires o + 4 <= a.Length
    modifies a
    ensures a[..] == PutDword(old(a[..]), o, v)
  {
    a[o] := Digit(v, 0);
    a[o + 1] := Digit(v, 1);
    a[o + 2] := Digit(v, 2);
    a[o + 3] := Digit(v, 3);
  }

  /** r agrees with s outside of n bytes at o. */
  ghost predicate Only(s: seq<byte>, r: seq<byte>, o: nat, n: nat) {
    |r| == |s| && forall i :: 0 <= i < |s| && !(o <= i < o + n) ==> r[i] == s[i]
  }

  lemma PutWordReads(s: seq<byte>, o: nat, v: nat)
    requires o + 2 <= |s|
    ensures LdWord(PutWord(s, o, v), o) == v % 0x1_0000
    ensures Only(s, PutWord(s, o, v), o, 2)
  {
    ModUnique(v / 0x100 / 0x100, v / 0x100 % 0x100 * 0x100 + v % 0x100, 0x1_0000);
    assert Digit(v, 1) as nat == v / 0x100 % 0x100;
  }

  lemma DigitIs(v: nat)
    ensures Digit(v, 0) as nat == v % 0x100 && Digit(v, 1) == Digit(v / 0x100, 0)
    ensures Digit(v, 2) == Digit(v / 0x100, 1) && Digit(v, 3) == Digit(v / 0x100, 2)
  {
  }

  lemma FourDigits(v: nat)
    requires v < DWORDS
    ensures v == Digit(v, 0) as nat + 0x100 * Digit(v, 1) as nat + 0x1_0000 * Digit(v, 2) as nat
                 + 0x100_0000 * Digit(v, 3) as nat
  {
    hide Digit;
    var a := v / 0x100;
    var b := a / 0x100;
    var c := b / 0x100;
    DigitIs(v);
    DigitIs(a);
    DigitIs(b);
    DigitIs(c);
    assert c < 0x100;
  }

  lemma PutDwordReads(s: seq<byte>, o: nat, v: nat)
    requires o + 4 <= |s| && v < DWORDS
    ensures LdDword(PutDword(s, o, v), o) == v
    ensures Only(s, PutDword(s, o, v), o, 4)
  {
    FourDigits(v);
  }

  /** Fields that a store elsewhere leaves alone. */
  lemma WordKept(s: seq<byte>, r: seq<byte>, o: nat, n: nat, p: nat)
    requires Only(s, r, o, n) && p + 2 <= |s| && (p + 2 <= o || o + n <= p)
    ensures LdWord(r, p) == LdWord(s, p)
  {
    assert At(r, p) == At(s, p) && At(r, p + 1) == At(s, p + 1);
  }

  lemma DwordKept(s: seq<byte>, r: seq<byte>, o: nat, n: nat, p: nat)
    requires Only(s, r, o, n) && p + 4 <= |s| && (p + 4 <= o || o + n <= p)
    ensures LdDword(r, p) == LdDword(s, p)
  {
    assert At(r, p) == At(s, p) && At(r, p + 1) == At(s, p + 1);
    assert At(r, p + 2) == At(s, p + 2) && At(r, p + 3) == At(s, p + 3);
  }

  lemma WordSame(s: seq<byte>, r: seq<byte>, p: nat)
    requires p + 2 <= |s| == |r| && s[p] == r[p] && s[p + 1] == r[p + 1]
    ensures LdWord(r, p) == LdWord(s, p)
  {
  }

  lemma DwordSame(s: seq<byte>, r: seq<byte>, p: nat)
    requires p + 4 <= |s| == |r| && forall i :: p <= i < p + 4 ==> s[i] == r[i]
    ensures LdDword(r, p) == LdDword(s, p)
  {
    assert At(r, p) == At(s, p) && At(r, p + 1) == At(s, p + 1);
    assert At(r, p + 2) == At(s, p + 2) && At(r, p + 3) == At(s, p + 3);
  }

  /** LD_DWORD(dir + DIR_FileSize) */
  function LdSize(s: seq<byte>, o: nat): (n: nat)
    requires o + SZ_DIR <= |s|
    ensures n < DWORDS
  {
    LdDword(s, o + DIR_FILESIZE)
  }

  /** LD_CLUST */
  function LdClust(s: seq<byte>, o: nat): (c: nat)
    requires o + SZ_DIR <= |s|
    ensures c == LdWord(s, o + DIR_FSTCLUSHI) * 0x1_0000 + LdWord(s, o + DIR_FSTCLUSLO)
  {
    Pow2Wide();
    OrFields(LdWord(s, o + DIR_FSTCLUSHI), LdWord(s, o + DIR_FSTCLUSLO), 16);
    Or(LdWord(s, o + DIR_FSTCLUSHI) * 0x1_0000, LdWord(s, o + DIR_FSTCLUSLO))
  }

  /** ST_CLUST */
  function PutClust(s: seq<byte>, o: nat, c: nat): (r: seq<byte>)
    requires o + SZ_DIR <= |s|
    ensures |r| == |s|
  {
    PutWord(PutWord(s, o + DIR_FSTCLUSLO, c), o + DIR_FSTCLUSHI, c / 0x1_0000)
  }

  lemma PutClustReads(s: seq<byte>, o: nat, c: nat)
    requires o + SZ_DIR <= |s| && c < DWORDS
    ensures LdClust(PutClust(s, o, c), o) == c
  {
    hide LdWord, LdClust, PutWord, Digit, Only, At, Or;
    var r := PutWord(s, o + DIR_FSTCLUSLO, c);
    PutWordReads(s, o + DIR_FSTCLUSLO, c);
    PutWordReads(r, o + DIR_FSTCLUSHI, c / 0x1_0000);
    WordKept(r, PutClust(s, o, c), o + DIR_FSTCLUSHI, 2, o + DIR_FSTCLUSLO);
  }

  /** The entry at o as f_sync leaves it: archive bit, size, first cluster and time. */
  function Stamped(s: Sector, o: nat, size: nat, c: nat, tim: nat): (r: seq<byte>)
    requires o + SZ_DIR <= SS
    ensures |r| == SS
  {
    var s0 := Archived(s, o);
    var s1 := PutDword(s0, o + DIR_FILESIZE, size);
    var s2 := PutClust(s1, o, c);
    PutDword(s2, o + DIR_WRTTIME, tim)
  }

  /** `dir[DIR_Attr] |= AM_ARC` */
  function Archived(s: seq<byte>, o: nat): (r: seq<byte>)
    requires o + SZ_DIR <= |s|
    ensures |r| == |s|
  {
    OrBound(At(s, o + DIR_ATTR), AM_ARC, 8);
    Pow2Values();
    s[o + DIR_ATTR := Or(At(s, o + DIR_ATTR), AM_ARC) as byte]
  }

  lemma PutClustOnly(s: seq<byte>, o: nat, c: nat)
    requires o + SZ_DIR <= |s|
    ensures |PutClust(s, o, c)| == |s|
    ensures forall i :: 0 <= i < |s| && !(o + DIR_FSTCLUSHI <= i < o + DIR_WRTTIME) && !(o + DIR_FSTCLUSLO <= i < o + DIR_FILESIZE)
              ==> PutClust(s, o, c)[i] == s[i]
  {
  }

  /** The attribute a with bit 5, the archive bit, set. */
  function Marked(a: nat): nat {
    if a / 32 % 2 == 1 then a else a + 32
  }

  lemma MarkedBit(a: nat)
    ensures Marked(a) / 32 % 2 == 1 && Marked(Marked(a)) == Marked(a)
  {
    ModUnique(a / 32 + 1, a % 32, 32);
  }

  /** r is s except for the bytes 11 and 20..31 of the entry at o; byte 11 is the old one or has bit 5 set. */
  ghost predicate EntryOnly(s: seq<byte>, r: seq<byte>, o: nat) {
    && |r| == |s| && o + 32 <= |s|
    && (forall i :: 0 <= i < |s| && i != o + 11 && !(o + 20 <= i < o + 32) ==> r[i] == s[i])
    && (r[o + 11] == s[o + 11] || r[o + 11] as nat == Marked(s[o + 11] as nat))
  }

  lemma EntryOnlyRefl(s: Sector, o: nat)
    requires o + SZ_DIR <= SS
    ensures EntryOnly(s, s, o)
  {
  }

  lemma EntryOnlyTrans(s: seq<byte>, r: seq<byte>, t: seq<byte>, o: nat)
    requires EntryOnly(s, r, o) && EntryOnly(r, t, o)
    ensures EntryOnly(s, t, o)
  {
    hide Marked;
    MarkedBit(s[o + 11] as nat);
  }

  /** Four bytes at o, the least significant first. */
  function Little(s: seq<byte>, o: nat): nat
    requires o + 4 <= |s|
  {
    s[o] as nat + 0x100 * s[o + 1] as nat + 0x1_0000 * s[o + 2] as nat + 0x100_0000 * s[o + 3] as nat
  }

  /** The entry at o is marked and has this size in its bytes 28..31, time in 22..25, and first cluster in 26, 27, 20
      and 21. */
  ghost predicate EntryHolds(s: seq<byte>, r: seq<byte>, o: nat, size: nat, c: nat, tim: nat) {
    && EntryOnly(s, r, o) && r[o + 11] as nat == Marked(s[o + 11] as nat)
    && Little(r, o + 28) == size && Little(r, o + 22) == tim
    && r[o + 26] as nat + 0x100 * r[o + 27] as nat + 0x1_0000 * r[o + 20] as nat + 0x100_0000 * r[o + 21] as nat == c
  }

  lemma OrMarks(a: nat)
    ensures Or(a, AM_ARC) == Marked(a)
  {
    var h, l := a / 32, a % 32;
    Pow2Values();
    OrUpper(h, l, 1, 5);
    assert Or(h, 1) == 2 * Or(h / 2, 0) + 1;
    OrZero(h / 2);
  }

  /** Reading the entry back gives the size, cluster and time that were stored; every other byte of the
      sector is the old one, apart from the archive bit. */
  lemma StampedReads(s: Sector, o: nat, size: nat, c: nat, tim: nat)
    requires o + SZ_DIR <= SS && size < DWORDS && c < DWORDS && tim < DWORDS
    ensures var r := Stamped(s, o, size, c, tim);
      LdSize(r, o) == size && LdClust(r, o) == c && EntryHolds(s, r, o, size, c, tim)
  {
    var s0 := Archived(s, o);
    var s1 := PutDword(s0, o + DIR_FILESIZE, size);
    var s2 := PutClust(s1, o, c);
    var r := PutDword(s2, o + DIR_WRTTIME, tim);
    PutDwordReads(s0, o + DIR_FILESIZE, size);
    PutClustReads(s1, o, c);
    PutDwordReads(s2, o + DIR_WRTTIME, tim);
    StampKept(s1, s2, r, o, c);
    OrMarks(At(s, o + DIR_ATTR));
    StampOnly(s, s0, s1, s2, r, o, c);
    LittleIs(r, o + 28);
    LittleIs(r, o + 22);
    ClustIs(r, o);
  }

  lemma LittleIs(r: seq<byte>, o: nat)
    requires o + 4 <= |r|
    ensures LdDword(r, o) == Little(r, o)
  {
  }

  lemma ClustIs(r: seq<byte>, o: nat)
    requires o + 32 <= |r|
    ensures LdClust(r, o) ==
      r[o + 26] as nat + 0x100 * r[o + 27] as nat + 0x1_0000 * r[o + 20] as nat + 0x100_0000 * r[o + 21] as nat
  {
  }

  lemma StampKept(s1: seq<byte>, s2: seq<byte>, r: seq<byte>, o: nat, c: nat)
    requires o + SZ_DIR <= |s1| && s2 == PutClust(s1, o, c) && Only(s2, r, o + DIR_WRTTIME, 4)
    ensures LdDword(r, o + DIR_FILESIZE) == LdDword(s1, o + DIR_FILESIZE) && LdClust(r, o) == LdClust(s2, o)
  {
    var m := PutWord(s1, o + DIR_FSTCLUSLO, c);
    PutWordReads(s1, o + DIR_FSTCLUSLO, c);
    PutWordReads(m, o + DIR_FSTCLUSHI, c / 0x1_0000);
    DwordKept(s1, m, o + DIR_FSTCLUSLO, 2, o + DIR_FILESIZE);
    DwordKept(m, s2, o + DIR_FSTCLUSHI, 2, o + DIR_FILESIZE);
    DwordKept(s2, r, o + DIR_WRTTIME, 4, o + DIR_FILESIZE);
    WordKept(s2, r, o + DIR_WRTTIME, 4, o + DIR_FSTCLUSHI);
    WordKept(s2, r, o + DIR_WRTTIME, 4, o + DIR_FSTCLUSLO);
  }

  lemma StampOnly(s: seq<byte>, s0: seq<byte>, s1: seq<byte>, s2: seq<byte>, r: seq<byte>, o: nat, c: nat)
    requires o + SZ_DIR <= |s| && s0 == Archived(s, o) && Only(s0, s1, o + DIR_FILESIZE, 4)
    requires s2 == PutClust(s1, o, c) && Only(s2, r, o + DIR_WRTTIME, 4)
    requires Or(At(s, o + DIR_ATTR), AM_ARC) == Marked(At(s, o + DIR_ATTR))
    ensures EntryOnly(s, r, o) && r[o + 11] as nat == Marked(s[o + 11] as nat)
  {
    PutClustOnly(s1, o, c);
  }

  /** The FSInfo sector sync writes. */
  function FsInfo(free: nat, last: nat): (r: seq<byte>)
    ensures |r| == SS
  {
    var s0 := PutWord(ZeroSector(), BS_55AA, 0xAA55);
    var s1 := PutDword(s0, FSI_LEADSIG, 0x41615252);
    var s2 := PutDword(s1, FSI_STRUCSIG, 0x61417272);
    PutDword(PutDword(s2, FSI_FREE_COUNT, free), FSI_NXT_FREE, last)
  }

  /** What chk_mounted looks for in an FSInfo sector. */
  predicate IsFsInfo(s: Sector) {
    LdWord(s, BS_55AA) == 0xAA55 && LdDword(s, FSI_LEADSIG) == 0x41615252 && LdDword(s, FSI_STRUCSIG) == 0x61417272
  }

  /** The next mount accepts the FSInfo sector and gets both counters back. */
  lemma FsInfoReads(free: nat, last: nat)
    requires free < DWORDS && last < DWORDS
    ensures var r := FsInfo(free, last);
      && IsFsInfo(r) && LdDword(r, 488) == free && LdDword(r, 492) == last
      && LdWord(r, 510) == 0xAA55 && LdDword(r, 0) == 0x4161_5252 && LdDword(r, 484) == 0x6141_7272
  {
    hide LdWord, LdDword, PutWord, PutDword, Only;
    var s0 := PutWord(ZeroSector(), BS_55AA, 0xAA55);
    var s1 := PutDword(s0, FSI_LEADSIG, 0x41615252);
    var s2 := PutDword(s1, FSI_STRUCSIG, 0x61417272);
    SignaturesRead(s0, s1, s2);
    CountersRead(s2, free, last);
  }

  lemma SignaturesRead(s0: seq<byte>, s1: seq<byte>, s2: seq<byte>)
    requires s0 == PutWord(ZeroSector(), BS_55AA, 0xAA55) && s1 == PutDword(s0, FSI_LEADSIG, 0x41615252)
    requires s2 == PutDword(s1, FSI_STRUCSIG, 0x61417272)
    ensures |s2| == SS && LdWord(s2, 510) == 0xAA55 && LdDword(s2, 0) == 0x4161_5252 && LdDword(s2, 484) == 0x6141_7272
  {
    hide LdWord, LdDword, PutWord, PutDword, Only;
    PutWordReads(ZeroSector(), BS_55AA, 0xAA55);
    PutDwordReads(s0, FSI_LEADSIG, 0x41615252);
    PutDwordReads(s1, FSI_STRUCSIG, 0x61417272);
    WordKept(s0, s1, FSI_LEADSIG, 4, BS_55AA);
    WordKept(s1, s2, FSI_STRUCSIG, 4, BS_55AA);
    DwordKept(s1, s2, FSI_STRUCSIG, 4, FSI_LEADSIG);
  }

  /** Both counters, and the signatures as they were. */
  lemma CountersRead(s: seq<byte>, free: nat, last: nat)
    requires |s| == SS && free < DWORDS && last < DWORDS
    ensures var r := PutDword(PutDword(s, FSI_FREE_COUNT, free), FSI_NXT_FREE, last);
      && LdDword(r, 488) == free && LdDword(r, 492) == last
      && LdWord(r, 510) == LdWord(s, 510) && LdDword(r, 0) == LdDword(s, 0) && LdDword(r, 484) == LdDword(s, 484)
  {
    hide LdWord, LdDword, PutWord, PutDword, Only;
    var m := PutDword(s, FSI_FREE_COUNT, free);
    var r := PutDword(m, FSI_NXT_FREE, last);
    PutDwordReads(s, FSI_FREE_COUNT, free);
    PutDwordReads(m, FSI_NXT_FREE, last);
    DwordKept(m, r, FSI_NXT_FREE, 4, FSI_FREE_COUNT);
    WordKept(s, m, FSI_FREE_COUNT, 4, 510);
    WordKept(m, r, FSI_NXT_FREE, 4, 510);
    DwordKept(s, m, FSI_FREE_COUNT, 4, 0);
    DwordKept(m, r, FSI_NXT_FREE, 4, 0);
    DwordKept(s, m, FSI_FREE_COUNT, 4, 484);
    DwordKept(m, r, FSI_NXT_FREE, 4, 484);
  }
}
