/** Byte order of the on-disk words (ff.h), and the FAT as a table of numbers packed
    into the bytes of its sectors. */
module ByteOrder {
  import opened Layout
  import opened Bits

  /** A byte of a buffer as a number. */
  function At(s: seq<byte>, o: nat): (v: nat)
    requires o < |s|
    ensures v < 0x100
  {
    s[o] as nat
  }

  function LdWord(s: seq<byte>, o: nat): (v: nat)
    requires o + 2 <= |s|
    ensures v == At(s, o) + 0x100 * At(s, o + 1)
  {
    OrTwo(At(s, o + 1), At(s, o));
    Or(At(s, o + 1) * 0x100, At(s, o))
  }

  function LdDword(s: seq<byte>, o: nat): (v: nat)
    requires o + 4 <= |s|
    ensures v == At(s, o) + 0x100 * At(s, o + 1) + 0x1_0000 * At(s, o + 2) + 0x100_0000 * At(s, o + 3)
  {
    OrFour(At(s, o + 3), At(s, o + 2), At(s, o + 1), At(s, o));
    Or(Or(Or(At(s, o + 3) * 0x100_0000, At(s, o + 2) * 0x1_0000), At(s, o + 1) * 0x100), At(s, o))
  }

  lemma OrTwo(b: nat, a: nat)
    requires a < 0x100
    ensures Or(b * 0x100, a) == b * 0x100 + a
  {
    Pow2Values();
    OrFields(b, a, 8);
  }

  lemma Pow2Wide()
    ensures Pow2(16) == 0x1_0000 && Pow2(24) == 0x100_0000 && Pow2(28) == 0x1000_0000
  {
    Pow2Add(8, 8);
    Pow2Add(16, 8);
    Pow2Add(24, 4);
    Pow2Values();
  }

  lemma {:induction false} Pow2Add(i: nat, j: nat)
    ensures Pow2(i + j) == Pow2(i) * Pow2(j)
  {
    if i != 0 {
      Pow2Add(i - 1, j);
      assert Pow2(i) * Pow2(j) == 2 * (Pow2(i - 1) * Pow2(j));
    }
  }

  lemma OrFour(d: nat, c: nat, b: nat, a: nat)
    requires a < 0x100 && b < 0x100 && c < 0x100
    ensures Or(Or(Or(d * 0x100_0000, c * 0x1_0000), b * 0x100), a)
         == d * 0x100_0000 + c * 0x1_0000 + b * 0x100 + a
  {
    Pow2Values();
    Pow2Wide();
    OrFields(d, c * 0x1_0000, 24);
    OrFields(d * 0x100 + c, b * 0x100, 16);
    OrFields(d * 0x1_0000 + c * 0x100 + b, a, 8);
  }
}

/** Entries packed into the bytes of one FAT copy ("FAT Data Structure" of the FAT
    specification), and what rewriting the bytes of one entry does to all of them. */
module FatPacking {
  import opened Layout
  import opened Bits
  import opened ByteOrder

  /** First byte of entry c, and how many bytes hold it. */
  function Offset(ty: FatType, c: nat): nat {
    match ty
    case FAT12 => c + c / 2
    case FAT16 => 2 * c
    case FAT32 => 4 * c
  }

  function Width(ty: FatType): nat {
    if ty == FAT32 then 4 else 2
  }

  predicate InTable(ty: FatType, size: nat, c: nat) {
    Offset(ty, c) + Width(ty) <= size
  }

  lemma EntriesInTable(ty: FatType, n: nat, c: nat)
    requires c < n
    ensures InTable(ty, ty.TableBytes(n), c)
  {
  }

  function Entry(ty: FatType, t: seq<byte>, c: nat): (v: nat)
    requires InTable(ty, |t|, c)
    ensures v < ty.Modulus()
  {
    var o := Offset(ty, c);
    match ty
    case FAT12 =>
      if c % 2 == 1 then At(t, o) / 16 + 16 * At(t, o + 1)
      else At(t, o) + 0x100 * (At(t, o + 1) % 16)
    case FAT16 =>
      At(t, o) + 0x100 * At(t, o + 1)
    case FAT32 =>
      At(t, o) + 0x100 * At(t, o + 1) + 0x1_0000 * At(t, o + 2) + 0x100_0000 * (At(t, o + 3) % 16)
  }

  /** The four reserved bits above a FAT32 entry. */
  function Reserved(t: seq<byte>, c: nat): nat
    requires InTable(FAT32, |t|, c)
  {
    At(t, 4 * c + 3) / 16
  }

  /** u is t with entry c set to val: every other entry keeps its value, and on FAT32
      the reserved bits can only gain the bits of val above 28. */
  ghost predicate EntrySet(ty: FatType, t: seq<byte>, u: seq<byte>, c: nat, val: nat) {
    && |u| == |t| && InTable(ty, |t|, c)
    && Entry(ty, u, c) == val % ty.Modulus()
    && (forall x: nat :: InTable(ty, |t|, x) && x != c ==> Entry(ty, u, x) == Entry(ty, t, x))
    && (ty == FAT32 ==> Reserved(u, c) == Or(val / 0x1000_0000, Reserved(t, c)))
    && (ty == FAT32 ==> forall x: nat :: InTable(ty, |t|, x) && x != c ==> Reserved(u, x) == Reserved(t, x))
  }

  /** The first and second byte of a FAT12 entry, given what was there before. */
  function Lo12(c: nat, p: nat, val: nat): (b: nat)
    ensures b < 0x100
  {
    if c % 2 == 1 then p % 16 + val % 16 * 16 else val % 0x100
  }

  function Hi12(c: nat, p: nat, val: nat): (b: nat)
    requires p < 0x100
    ensures b < 0x100
  {
    if c % 2 == 1 then val / 16 % 0x100 else p / 16 * 16 + val / 0x100 % 16
  }

  function Put12(t: seq<byte>, c: nat, val: nat): (u: seq<byte>)
    requires InTable(FAT12, |t|, c)
  {
    var o := Offset(FAT12, c);
    t[o := Lo12(c, At(t, o), val)][o + 1 := Hi12(c, At(t, o + 1), val)]
  }

  function Put16(t: seq<byte>, c: nat, val: nat): (u: seq<byte>)
    requires InTable(FAT16, |t|, c)
  {
    t[2 * c := val % 0x100][2 * c + 1 := val % 0x1_0000 / 0x100]
  }

  function Put32(t: seq<byte>, c: nat, w: nat): (u: seq<byte>)
    requires InTable(FAT32, |t|, c)
  {
    t[4 * c := w % 0x100][4 * c + 1 := w % 0x1_0000 / 0x100]
     [4 * c + 2 := w / 0x1_0000 % 0x100][4 * c + 3 := w / 0x100_0000 % 0x100]
  }

  lemma Nibbles(val: nat)
    ensures val % 16 + 16 * (val / 16 % 0x100) == val % 0x1000
    ensures val % 0x100 + 0x100 * (val / 0x100 % 16) == val % 0x1000
  {
    ModUnique(val / 16 / 0x100, val % 16 + 16 * (val / 16 % 0x100), 0x1000);
    ModUnique(val / 0x100 / 16, val % 0x100 + 0x100 * (val / 0x100 % 16), 0x1000);
  }

  lemma NibblePair(hi: nat, lo: nat)
    requires lo < 16
    ensures (lo + hi * 16) / 16 == hi && (lo + hi * 16) % 16 == lo
  {
  }

  /** FAT12: the two bytes share a nibble with the neighbour on one side. */
  lemma Set12(t: seq<byte>, c: nat, val: nat)
    requires InTable(FAT12, |t|, c)
    ensures EntrySet(FAT12, t, Put12(t, c, val), c, val)
  {
    var u := Put12(t, c, val);
    Own12(t, c, val);
    forall x: nat | InTable(FAT12, |t|, x) && x != c ensures Entry(FAT12, u, x) == Entry(FAT12, t, x) {
      Other12(t, c, val, x);
    }
  }

  lemma Own12(t: seq<byte>, c: nat, val: nat)
    requires InTable(FAT12, |t|, c)
    ensures Entry(FAT12, Put12(t, c, val), c) == val % 0x1000
  {
    Nibbles(val);
    var o := Offset(FAT12, c);
    if c % 2 == 1 {
      NibblePair(val % 16, At(t, o) % 16);
    } else {
      NibblePair(At(t, o + 1) / 16, val / 0x100 % 16);
    }
  }

  lemma Other12(t: seq<byte>, c: nat, val: nat, x: nat)
    requires InTable(FAT12, |t|, c) && InTable(FAT12, |t|, x) && x != c
    ensures Entry(FAT12, Put12(t, c, val), x) == Entry(FAT12, t, x)
  {
    var o, u := Offset(FAT12, c), Put12(t, c, val);
    if x > c + 1 || x + 1 < c {
      Apart12(c, x);
    } else if x == c + 1 {
      if c % 2 == 0 {
        NibblePair(At(t, o + 1) / 16, val / 0x100 % 16);
        assert At(u, o + 1) / 16 == At(t, o + 1) / 16;
        assert Offset(FAT12, x) == o + 1;
      } else {
        assert Offset(FAT12, x) == o + 2;
      }
    } else {
      if c % 2 == 1 {
        NibblePair(val % 16, At(t, o) % 16);
        assert At(u, o) % 16 == At(t, o) % 16;
        assert Offset(FAT12, x) == o - 1;
      } else {
        assert Offset(FAT12, x) == o - 2;
      }
    }
  }

  lemma Apart12(c: nat, x: nat)
    requires x > c + 1 || x + 1 < c
    ensures Offset(FAT12, x) + 2 <= Offset(FAT12, c) || Offset(FAT12, c) + 2 <= Offset(FAT12, x)
  {
  }

  lemma Set16(t: seq<byte>, c: nat, val: nat)
    requires InTable(FAT16, |t|, c)
    ensures EntrySet(FAT16, t, Put16(t, c, val), c, val)
  {
  }

  /** The four bytes stored for w, as base-256 digits. */
  lemma Digits(w: nat) returns (b0: nat, b1: nat, b2: nat, b3: nat)
    requires w < DWORDS
    ensures b0 < 0x100 && b1 < 0x100 && b2 < 0x100 && b3 < 0x100
    ensures w == b0 + 0x100 * b1 + 0x1_0000 * b2 + 0x100_0000 * b3
    ensures w % 0x100 == b0 && w % 0x1_0000 / 0x100 == b1
    ensures w / 0x1_0000 % 0x100 == b2 && w / 0x100_0000 % 0x100 == b3
  {
    b0, b1 := w % 0x100, w / 0x100 % 0x100;
    var q := w / 0x100 / 0x100;
    b2, b3 := q % 0x100, q / 0x100;
    ModUnique(q, b0 + 0x100 * b1, 0x1_0000);
    ModUnique(b3, b0 + 0x100 * b1 + 0x1_0000 * b2, 0x100_0000);
  }

  lemma Bytes32(w: nat)
    requires w < DWORDS
    ensures w % 0x100 + 0x100 * (w % 0x1_0000 / 0x100) + 0x1_0000 * (w / 0x1_0000 % 0x100)
          + 0x100_0000 * (w / 0x100_0000 % 0x100 % 16) == w % 0x1000_0000
    ensures w / 0x100_0000 % 0x100 / 16 == w / 0x1000_0000
  {
    var b0, b1, b2, b3 := Digits(w);
    ModUnique(b3 / 16, b0 + 0x100 * b1 + 0x1_0000 * b2 + 0x100_0000 * (b3 % 16), 0x1000_0000);
  }

  lemma Own32(t: seq<byte>, c: nat, w: nat)
    requires InTable(FAT32, |t|, c) && w < DWORDS
    ensures Entry(FAT32, Put32(t, c, w), c) == w % 0x1000_0000
    ensures Reserved(Put32(t, c, w), c) == w / 0x1000_0000
  {
    Bytes32(w);
    var u := Put32(t, c, w);
    assert At(u, 4 * c) == w % 0x100 && At(u, 4 * c + 1) == w % 0x1_0000 / 0x100;
    assert At(u, 4 * c + 2) == w / 0x1_0000 % 0x100 && At(u, 4 * c + 3) == w / 0x100_0000 % 0x100;
  }

  lemma Other32(t: seq<byte>, c: nat, w: nat, x: nat)
    requires InTable(FAT32, |t|, c) && InTable(FAT32, |t|, x) && x != c
    ensures Entry(FAT32, Put32(t, c, w), x) == Entry(FAT32, t, x)
    ensures Reserved(Put32(t, c, w), x) == Reserved(t, x)
  {
    var u := Put32(t, c, w);
    assert forall i :: 0 <= i < |t| && !(4 * c <= i < 4 * c + 4) ==> u[i] == t[i];
    assert 4 * x + 4 <= 4 * c || 4 * c + 4 <= 4 * x;
  }

  /** FAT32: put_fat ors the old reserved bits into the value it stores. */
  lemma Set32(t: seq<byte>, c: nat, val: nat, w: nat)
    requires InTable(FAT32, |t|, c) && val < DWORDS
    requires w == val % 0x1000_0000 + 0x1000_0000 * Or(val / 0x1000_0000, Reserved(t, c)) && w < DWORDS
    ensures EntrySet(FAT32, t, Put32(t, c, w), c, val)
  {
    Own32(t, c, w);
    ModUnique(Or(val / 0x1000_0000, Reserved(t, c)), val % 0x1000_0000, 0x1000_0000);
    forall x: nat | InTable(FAT32, |t|, x) && x != c
      ensures Entry(FAT32, Put32(t, c, w), x) == Entry(FAT32, t, x)
      ensures Reserved(Put32(t, c, w), x) == Reserved(t, x)
    {
      Other32(t, c, w, x);
    }
  }
}
