/** Long file names in directory entries: fit_lfn, pick_lfn, cmp_lfn. */
module LongNames {
  import opened Options
  import opened Layout
  import opened Bits
  import opened ByteOrder
  import opened DirEntry

  const MAX_LFN: nat := 255
  const LLE: nat := 0x40             // last long entry
  const AM_LFN: byte := 0x0F
  const LDIR_ATTR := 11
  const LDIR_TYPE := 12
  const LDIR_CHKSUM := 13
  const LDIR_FSTCLUSLO := 26

  /** A directory entry as bytes. */
  type Slot = e: seq<byte> | |e| == SZ_DIR witness seq(SZ_DIR, _ => 0)

  /** Offsets of the 13 characters in an entry. */
  function LfnOfs(s: nat): (o: nat)
    requires s < 13
    ensures 1 <= o && o + 2 <= SZ_DIR
  {
    [1, 3, 5, 7, 9, 14, 16, 18, 20, 22, 24, 28, 30][s]
  }

  /** The fields of an entry do not overlap. */
  lemma LfnOfsApart(s: nat, t: nat)
    requires s < t < 13
    ensures LfnOfs(s) + 2 <= LfnOfs(t)
  {
  }

  lemma LfnOfsField(s: nat)
    requires s < 13
    ensures LfnOfs(s) + 2 <= LDIR_ATTR || LDIR_CHKSUM < LfnOfs(s)
    ensures LfnOfs(s) + 2 <= LDIR_FSTCLUSLO || LDIR_FSTCLUSLO + 2 <= LfnOfs(s)
  {
  }

  /** A name that can be stored: no NUL and no filler among its characters. */
  predicate IsName(name: seq<nat>) {
    0 < |name| <= MAX_LFN && forall i :: 0 <= i < |name| ==> 0 < name[i] < 0xFFFF
  }

  /** The name buffer holds name and a NUL; what follows is left over from earlier names. */
  predicate Spells(buf: seq<nat>, name: seq<nat>) {
    && |buf| == MAX_LFN + 1 && |name| <= MAX_LFN && buf[..|name|] == name && buf[|name|] == 0
    && forall i :: 0 <= i < |buf| ==> buf[i] < 0x1_0000
  }

  /** Character i of a stored name: the name, a NUL, filler. */
  function Padded(name: seq<nat>, i: nat): nat {
    if i < |name| then name[i] else if i == |name| then 0 else 0xFFFF
  }

  /** Number of entries a name takes. */
  function Segments(n: nat): nat {
    (n + 12) / 13
  }

  function CharOf(e: seq<byte>, s: nat): nat
    requires |e| == SZ_DIR && s < 13
  {
    LdWord(e, LfnOfs(s))
  }

  /** The entry of order ord for name. */
  ghost predicate IsLfnEntry(e: seq<byte>, name: seq<nat>, ord: nat, sum: nat) {
    && |e| == SZ_DIR && 1 <= ord <= Segments(|name|)
    && At(e, 0) == (if ord == Segments(|name|) then ord + LLE else ord)
    && e[LDIR_ATTR] == AM_LFN && e[LDIR_TYPE] == 0 && At(e, LDIR_CHKSUM) == sum && LdWord(e, LDIR_FSTCLUSLO) == 0
    && forall s :: 0 <= s < 13 ==> CharOf(e, s) == Padded(name, 13 * (ord - 1) + s)
  }

  lemma OrLast(ord: nat)
    requires ord < LLE
    ensures Or(LLE, ord) == LLE + ord
  {
    Pow2Values();
    OrFields(1, ord, 6);
  }

  lemma SegmentsBound(n: nat, ord: nat)
    requires 1 <= ord <= Segments(n) && n <= MAX_LFN
    ensures 13 * (ord - 1) < n && ord <= 20 && (ord == Segments(n) <==> 13 * ord >= n)
  {
  }

  /** The header of the entry at o and its first s characters are in place; everything outside the entry is as in a. */
  ghost predicate Fitted(a: seq<byte>, b: seq<byte>, o: nat, name: seq<nat>, base: nat, s: nat, sum: nat) {
    && o + SZ_DIR <= |a| == |b| && s <= 13 && Only(a, b, o, SZ_DIR)
    && b[o + LDIR_ATTR] == AM_LFN && b[o + LDIR_TYPE] == 0 && At(b, o + LDIR_CHKSUM) == sum
    && LdWord(b, o + LDIR_FSTCLUSLO) == 0
    && forall t :: 0 <= t < s ==> LdWord(b, o + LfnOfs(t)) == Padded(name, base + t)
  }

  lemma FittedStep(a: seq<byte>, b: seq<byte>, o: nat, name: seq<nat>, base: nat, s: nat, sum: nat, wc: nat)
    requires Fitted(a, b, o, name, base, s, sum) && s < 13 && wc == Padded(name, base + s) < 0x1_0000
    ensures o + LfnOfs(s) + 2 <= |b| && Fitted(a, PutWord(b, o + LfnOfs(s), wc), o, name, base, s + 1, sum)
  {
    hide LdWord, PutWord, LfnOfs;
    var p := o + LfnOfs(s);
    var c := PutWord(b, p, wc);
    PutWordReads(b, p, wc);
    LfnOfsField(s);
    WordKept(b, c, p, 2, o + LDIR_FSTCLUSLO);
    forall t | 0 <= t < s + 1 ensures LdWord(c, o + LfnOfs(t)) == Padded(name, base + t) {
      if t < s {
        LfnOfsApart(t, s);
        WordKept(b, c, p, 2, o + LfnOfs(t));
      }
    }
  }

  lemma SliceWord(b: seq<byte>, o: nat, p: nat)
    requires o + SZ_DIR <= |b| && p + 2 <= SZ_DIR
    ensures LdWord(b[o..o + SZ_DIR], p) == LdWord(b, o + p)
  {
    var e := b[o..o + SZ_DIR];
    assert At(e, p) == At(b, o + p) && At(e, p + 1) == At(b, o + p + 1);
  }

  /** With its order byte the entry is complete. */
  lemma FittedEnd(a: seq<byte>, b: seq<byte>, o: nat, name: seq<nat>, ord: nat, sum: nat, x: byte)
    requires IsName(name) && 1 <= ord <= Segments(|name|) && Fitted(a, b, o, name, 13 * (ord - 1), 13, sum)
    requires x as nat == if ord == Segments(|name|) then ord + LLE else ord
    ensures Only(a, b[o := x], o, SZ_DIR) && IsLfnEntry(b[o := x][o..o + SZ_DIR], name, ord, sum)
  {
    hide LdWord, LfnOfs, Padded;
    var c := b[o := x];
    var e := c[o..o + SZ_DIR];
    WordKept(b, c, o, 1, o + LDIR_FSTCLUSLO);
    SliceWord(c, o, LDIR_FSTCLUSLO);
    forall s | 0 <= s < 13 ensures CharOf(e, s) == Padded(name, 13 * (ord - 1) + s) {
      WordKept(b, c, o, 1, o + LfnOfs(s));
      SliceWord(c, o, LfnOfs(s));
    }
  }

  lemma FittedStart(a: seq<byte>, b: seq<byte>, c: seq<byte>, o: nat, name: seq<nat>, base: nat, sum: nat)
    requires o + SZ_DIR <= |a| == |b| && Only(a, b, o, SZ_DIR) && c == PutWord(b, o + LDIR_FSTCLUSLO, 0)
    requires b[o + LDIR_ATTR] == AM_LFN && b[o + LDIR_TYPE] == 0 && At(b, o + LDIR_CHKSUM) == sum
    ensures Fitted(a, c, o, name, base, 0, sum)
  {
    PutWordReads(b, o + LDIR_FSTCLUSLO, 0);
  }

  /** Where the loop of fit_lfn stands after s characters. */
  ghost predicate Feeding(name: seq<nat>, base: nat, s: nat, i: nat, wc: nat) {
    if base + s <= |name| then i == base + s && wc != 0xFFFF else i == |name| + 1 && wc == 0xFFFF
  }

  lemma FeedingStep(buf: seq<nat>, name: seq<nat>, base: nat, s: nat, i: nat, wc: nat)
    requires Spells(buf, name) && IsName(name) && Feeding(name, base, s, i, wc) && base < |name|
    ensures wc != 0xFFFF ==> i < |buf| && buf[i] == Padded(name, base + s) < 0x1_0000
    ensures wc == 0xFFFF ==> Padded(name, base + s) == 0xFFFF
    ensures wc != 0xFFFF && buf[i] != 0 ==> Feeding(name, base, s + 1, i + 1, buf[i])
    ensures wc != 0xFFFF && buf[i] == 0 ==> Feeding(name, base, s + 1, i + 1, 0xFFFF)
    ensures wc == 0xFFFF ==> Feeding(name, base, s + 1, i, wc)
  {
    if wc != 0xFFFF && i < |name| { assert buf[..|name|][i] == name[i]; }
  }

  lemma FeedingEnd(buf: seq<nat>, name: seq<nat>, ord: nat, i: nat, wc: nat)
    requires Spells(buf, name) && IsName(name) && 1 <= ord <= Segments(|name|) && Feeding(name, 13 * (ord - 1), 13, i, wc)
    ensures wc != 0xFFFF ==> i < |buf|
    ensures wc == 0xFFFF || buf[i] == 0 <==> ord == Segments(|name|)
  {
    SegmentsBound(|name|, ord);
    if wc != 0xFFFF && i < |name| { assert buf[..|name|][i] == name[i]; }
  }

  lemma FeedingStart(name: seq<nat>, ord: nat)
    requires IsName(name) && 1 <= ord <= Segments(|name|)
    ensures Feeding(name, 13 * (ord - 1), 0, 13 * (ord - 1), 0) && 13 * (ord - 1) < |name| && ord < LLE
  {
    SegmentsBound(|name|, ord);
  }

  /** fit_lfn: the entry of order ord for the name in lfnbuf, at offset o of the window. */
  method FitLfn(lfnbuf: seq<nat>, win: array<byte>, o: nat, ord: nat, sum: byte, ghost name: seq<nat>)
    requires Spells(lfnbuf, name) && IsName(name) && 1 <= ord <= Segments(|name|) && o + SZ_DIR <= win.Length
    modifies win
    ensures Only(old(win[..]), win[..], o, SZ_DIR)
    ensures IsLfnEntry(win[o..o + SZ_DIR], name, ord, sum as nat)
  {
    hide Spells, IsName, Feeding, Fitted, IsLfnEntry, Segments, PutWord, Padded, LfnOfs, Or;
    ghost var a := win[..];
    FeedingStart(name, ord);
    win[o + LDIR_CHKSUM] := sum;
    win[o + LDIR_ATTR] := AM_LFN;
    win[o + LDIR_TYPE] := 0;
    ghost var b := win[..];
    StoreWord(win, o + LDIR_FSTCLUSLO, 0);
    FittedStart(a, b, win[..], o, name, 13 * (ord - 1), sum as nat);
    var i, s, wc := (ord - 1) * 13, 0, 0;
    while s < 13
      invariant 0 <= s <= 13 && i >= 0 && wc >= 0 && Feeding(name, 13 * (ord - 1), s, i, wc)
      invariant Fitted(a, win[..], o, name, 13 * (ord - 1), s, sum as nat)
    {
      FeedingStep(lfnbuf, name, 13 * (ord - 1), s, i, wc);
      if wc != 0xFFFF {
        wc := lfnbuf[i];
        i := i + 1;
      }
      FittedStep(a, win[..], o, name, 13 * (ord - 1), s, sum as nat, wc);
      StoreWord(win, o + LfnOfs(s), wc);
      if wc == 0 { wc := 0xFFFF; }
      s := s + 1;
    }
    FeedingEnd(lfnbuf, name, ord, i, wc);
    var x := ord;
    OrLast(ord);
    if wc == 0xFFFF || lfnbuf[i] == 0 { x := Or(LLE, x); }
    FittedEnd(a, win[..], o, name, ord, sum as nat, x as byte);
    win[o] := x as byte;
    assert win[..] == win[..][o := x as byte];
    assert win[o..o + SZ_DIR] == win[..][o..o + SZ_DIR];
  }

  /** Order number and last-entry flag of an entry. */
  function Order(e: seq<byte>): nat
    requires |e| == SZ_DIR
  {
    AndNot(At(e, 0), LLE)
  }

  predicate IsLast(e: seq<byte>)
    requires |e| == SZ_DIR
  {
    And(At(e, 0), LLE) != 0
  }

  lemma OrderOf(e: seq<byte>, name: seq<nat>, ord: nat, sum: nat)
    requires IsLfnEntry(e, name, ord, sum) && IsName(name)
    ensures 1 <= ord <= Segments(|name|) && Order(e) == ord && (IsLast(e) <==> ord == Segments(|name|)) && And(At(e, 0), 0x3F) == ord
  {
    SegmentsBound(|name|, ord);
    BitSix(ord);
  }

  lemma BitSix(ord: nat)
    requires ord < LLE
    ensures AndNot(ord, LLE) == ord && And(ord, LLE) == 0 && And(ord, 0x3F) == ord
    ensures AndNot(ord + LLE, LLE) == ord && And(ord + LLE, LLE) != 0 && And(ord + LLE, 0x3F) == ord
  {
    hide And, AndNot, Pow2;
    Pow2Values();
    BitSixAt(ord, 6);
    AndMask(ord, 6);
    AndMask(ord + LLE, 6);
  }

  lemma {:induction false} BitSixAt(x: nat, k: nat)
    requires x < Pow2(k)
    ensures AndNot(x, Pow2(k)) == x && And(x, Pow2(k)) == 0
    ensures AndNot(x + Pow2(k), Pow2(k)) == x && And(x + Pow2(k), Pow2(k)) == Pow2(k)
  {
    if k == 0 {
      assert And(1, 1) == 1 && AndNot(1, 1) == 0;
    } else {
      BitSixAt(x / 2, k - 1);
      assert (x + Pow2(k)) / 2 == x / 2 + Pow2(k - 1) && (x + Pow2(k)) % 2 == x % 2;
      assert Pow2(k) / 2 == Pow2(k - 1) && Pow2(k) % 2 == 0;
    }
  }

  /** Offset in the name buffer; order 0 wraps to a huge one. */
  function Start(ord: nat): nat {
    if ord == 0 then DWORDS - 13 else (ord - 1) * 13
  }

  /** cmp_lfn from character s on, the buffer index being i and the last character wc. */
  function CmpFrom(buf: seq<nat>, e: seq<byte>, up: nat -> nat, i: nat, s: nat, wc: nat): bool
    requires |buf| == MAX_LFN + 1 && |e| == SZ_DIR && s <= 13
    decreases 13 - s
  {
    if s == 13 then !(IsLast(e) && wc != 0 && i < |buf| && buf[i] != 0)
    else if wc != 0 then i < MAX_LFN && up(CharOf(e, s)) == up(buf[i]) && CmpFrom(buf, e, up, i + 1, s + 1, up(CharOf(e, s)))
    else CharOf(e, s) == 0xFFFF && CmpFrom(buf, e, up, i, s + 1, 0)
  }

  function Cmp(buf: seq<nat>, e: seq<byte>, up: nat -> nat): bool
    requires |buf| == MAX_LFN + 1 && |e| == SZ_DIR
  {
    CmpFrom(buf, e, up, Start(Order(e)), 0, 1)
  }

  /** cmp_lfn. up stands for ff_wtoupper. */
  method CmpLfn(lfnbuf: seq<nat>, e: seq<byte>, up: nat -> nat) returns (r: bool)
    requires |lfnbuf| == MAX_LFN + 1 && |e| == SZ_DIR
    ensures r == Cmp(lfnbuf, e, up)
  {
    hide Order, IsLast, LfnOfs;
    var i, s, wc := Start(Order(e)), 0, 1;
    while s < 13
      invariant 0 <= s <= 13 && i >= 0 && wc >= 0 && Cmp(lfnbuf, e, up) == CmpFrom(lfnbuf, e, up, i, s, wc)
      invariant if s == 0 then wc != 0 else i <= MAX_LFN
    {
      var uc := CharOf(e, s);
      if wc != 0 {
        wc := up(uc);
        if i >= MAX_LFN || wc != up(lfnbuf[i]) { return false; }
        i := i + 1;
      } else {
        if uc != 0xFFFF { return false; }
      }
      s := s + 1;
    }
    if IsLast(e) && wc != 0 && lfnbuf[i] != 0 { return false; }
    r := true;
  }

  /** What is known of ff_wtoupper: only NUL maps to NUL. */
  ghost predicate Folds(up: nat -> nat) {
    up(0) == 0 && forall x: nat :: x != 0 ==> up(x) != 0
  }

  /** Characters i .. hi - 1 of b, as far as it goes, agree with the buffer up to case. */
  ghost predicate SameUpTo(buf: seq<nat>, up: nat -> nat, b: seq<nat>, i: nat, hi: nat)
    requires |buf| == MAX_LFN + 1 && |b| <= MAX_LFN
  {
    forall j :: i <= j < hi && j < |b| ==> up(b[j]) == up(buf[j])
  }

  lemma SameStep(buf: seq<nat>, up: nat -> nat, b: seq<nat>, i: nat, hi: nat)
    requires |buf| == MAX_LFN + 1 && |b| <= MAX_LFN
    ensures i >= hi || i >= |b| ==> SameUpTo(buf, up, b, i, hi)
    ensures i < hi && i < |b| ==> (SameUpTo(buf, up, b, i, hi) <==> up(b[i]) == up(buf[i]) && SameUpTo(buf, up, b, i + 1, hi))
  {
  }

  lemma NameFolds(buf: seq<nat>, up: nat -> nat, b: seq<nat>, i: nat)
    requires |buf| == MAX_LFN + 1 && IsName(b) && Folds(up) && i <= |b|
    ensures |b| <= MAX_LFN && (i < |b| ==> up(b[i]) != 0)
    ensures up(0) == 0 && (up(0) == up(buf[i]) <==> buf[i] == 0)
  {
  }

  lemma CmpUnroll(buf: seq<nat>, e: seq<byte>, up: nat -> nat, i: nat, s: nat, wc: nat)
    requires |buf| == MAX_LFN + 1 && |e| == SZ_DIR && s <= 13
    ensures s == 13 && i <= MAX_LFN ==> (CmpFrom(buf, e, up, i, s, wc) <==> !(IsLast(e) && wc != 0 && buf[i] != 0))
    ensures s == 13 && wc == 0 ==> CmpFrom(buf, e, up, i, s, wc)
    ensures s < 13 && wc != 0 && i >= MAX_LFN ==> !CmpFrom(buf, e, up, i, s, wc)
    ensures s < 13 && wc != 0 && i < MAX_LFN ==> (CmpFrom(buf, e, up, i, s, wc) <==>
              up(CharOf(e, s)) == up(buf[i]) && CmpFrom(buf, e, up, i + 1, s + 1, up(CharOf(e, s))))
    ensures s < 13 && wc == 0 ==> (CmpFrom(buf, e, up, i, s, wc) <==> CharOf(e, s) == 0xFFFF && CmpFrom(buf, e, up, i, s + 1, 0))
  {
  }

  lemma EntryChar(e: seq<byte>, b: seq<nat>, ord: nat, sum: nat, s: nat)
    requires IsLfnEntry(e, b, ord, sum) && s < 13
    ensures |e| == SZ_DIR && ord >= 1
    ensures var p := 13 * (ord - 1) + s;
      CharOf(e, s) == if p < |b| then b[p] else if p == |b| then 0 else 0xFFFF
  {
  }

  /** From character s of the entry of order ord for name b on, cmp_lfn compares exactly the rest of the segment
      and, in the last entry, the end of the name. */
  lemma {:induction false} CmpSegment(buf: seq<nat>, e: seq<byte>, up: nat -> nat, b: seq<nat>, ord: nat, sum: nat, i: nat, s: nat, wc: nat)
    requires |buf| == MAX_LFN + 1 && |e| == SZ_DIR && IsLfnEntry(e, b, ord, sum) && IsName(b) && Folds(up) && s <= 13 && |b| <= MAX_LFN
    requires 13 * (ord - 1) + s <= |b| ==> i == 13 * (ord - 1) + s && wc != 0
    requires 13 * (ord - 1) + s > |b| ==> i == |b| + 1 && wc == 0
    ensures CmpFrom(buf, e, up, i, s, wc) <==>
      SameUpTo(buf, up, b, i, 13 * ord) && (ord == Segments(|b|) && wc != 0 ==> |b| < MAX_LFN && buf[|b|] == 0)
    decreases 13 - s
  {
    hide *;
    MaxIs();
    OrderOf(e, b, ord, sum);
    SegmentsBound(|b|, ord);
    CmpUnroll(buf, e, up, i, s, wc);
    SameStep(buf, up, b, i, 13 * ord);
    if i <= |b| { NameFolds(buf, up, b, i); }
    if s < 13 {
      EntryChar(e, b, ord, sum, s);
      if 13 * (ord - 1) + s > |b| {
        CmpSegment(buf, e, up, b, ord, sum, i, s + 1, 0);
      } else if i < MAX_LFN {
        if up(CharOf(e, s)) == up(buf[i]) {
          CmpSegment(buf, e, up, b, ord, sum, i + 1, s + 1, up(CharOf(e, s)));
          SameStep(buf, up, b, i + 1, 13 * ord);
        }
      }
    }
  }

  lemma MaxIs()
    ensures MAX_LFN == 255
  {
  }

  lemma CmpEntry(buf: seq<nat>, e: seq<byte>, up: nat -> nat, b: seq<nat>, ord: nat, sum: nat)
    requires |buf| == MAX_LFN + 1 && |e| == SZ_DIR && IsLfnEntry(e, b, ord, sum) && IsName(b) && Folds(up)
    ensures Cmp(buf, e, up) <==>
      SameUpTo(buf, up, b, 13 * (ord - 1), 13 * ord) && (ord == Segments(|b|) ==> |b| < MAX_LFN && buf[|b|] == 0)
  {
    hide Order, IsLast, CmpFrom;
    OrderOf(e, b, ord, sum);
    SegmentsBound(|b|, ord);
    CmpSegment(buf, e, up, b, ord, sum, 13 * (ord - 1), 0, 1);
  }

  /** The entries of a name in the order in which they are stored: last segment first. */
  ghost predicate IsEntrySet(es: seq<Slot>, b: seq<nat>, sum: nat) {
    |es| == Segments(|b|) && forall j :: 0 <= j < |es| ==> IsLfnEntry(es[j], b, |es| - j, sum)
  }

  predicate SameName(a: seq<nat>, b: seq<nat>, up: nat -> nat) {
    |a| == |b| && forall i :: 0 <= i < |a| ==> up(a[i]) == up(b[i])
  }

  lemma SpelledAt(buf: seq<nat>, a: seq<nat>)
    requires Spells(buf, a) && IsName(a)
    ensures |buf| == MAX_LFN + 1 && |a| <= MAX_LFN && buf[|a|] == 0
    ensures forall i :: 0 <= i < |a| ==> buf[i] == a[i] && buf[i] != 0
  {
    forall i | 0 <= i < |a| ensures buf[i] == a[i] { assert buf[..|a|][i] == a[i]; }
  }

  /** cmp_lfn accepts all entries of the name b if and only if b is the name in the buffer, up to case, and shorter
      than 255 characters. What the buffer holds behind its NUL does not matter. */
  lemma CmpName(buf: seq<nat>, a: seq<nat>, es: seq<Slot>, up: nat -> nat, b: seq<nat>, sum: nat)
    requires Spells(buf, a) && IsName(a) && IsName(b) && IsEntrySet(es, b, sum) && Folds(up)
    ensures (forall j :: 0 <= j < |es| ==> Cmp(buf, es[j], up)) <==> SameName(a, b, up) && |b| < MAX_LFN
  {
    hide Cmp, Spells;
    SpelledAt(buf, a);
    SegmentsBound(|b|, |es|);
    forall j | 0 <= j < |es|
      ensures Cmp(buf, es[j], up) ==
        (SameUpTo(buf, up, b, 13 * (|es| - j - 1), 13 * (|es| - j)) && (j == 0 ==> |b| < MAX_LFN && buf[|b|] == 0))
    {
      CmpEntry(buf, es[j], up, b, |es| - j, sum);
    }
    if forall j :: 0 <= j < |es| ==> Cmp(buf, es[j], up) {
      assert Cmp(buf, es[0], up);
      forall i | 0 <= i < |b| ensures up(b[i]) == up(buf[i]) && buf[i] != 0 {
        var j := |es| - 1 - i / 13;
        assert Cmp(buf, es[j], up);
        assert SameUpTo(buf, up, b, 13 * (|es| - j - 1), 13 * (|es| - j));
      }
      assert |a| == |b|;
    }
  }

  /** pick_lfn from character s on: the buffer it leaves, or None if it fails. */
  function PickFrom(buf: seq<nat>, e: seq<byte>, i: nat, s: nat, wc: nat): (r: Option<seq<nat>>)
    requires |buf| == MAX_LFN + 1 && |e| == SZ_DIR && s <= 13
    ensures r.Some? ==> |r.value| == |buf|
    decreases 13 - s
  {
    if s == 13 then
      if !IsLast(e) then Some(buf) else if i >= MAX_LFN then None else Some(buf[i := 0])
    else if wc != 0 then
      if i >= MAX_LFN then None else PickFrom(buf[i := CharOf(e, s)], e, i + 1, s + 1, CharOf(e, s))
    else if CharOf(e, s) != 0xFFFF then None
    else PickFrom(buf, e, i, s + 1, 0)
  }

  function Pick(buf: seq<nat>, e: seq<byte>): (r: Option<seq<nat>>)
    requires |buf| == MAX_LFN + 1 && |e| == SZ_DIR
    ensures r.Some? ==> |r.value| == |buf|
  {
    PickFrom(buf, e, Start(And(At(e, 0), 0x3F)), 0, 1)
  }

  /** pick_lfn */
  method PickLfn(lfnbuf: array<nat>, e: seq<byte>) returns (ok: bool)
    requires lfnbuf.Length == MAX_LFN + 1 && |e| == SZ_DIR
    modifies lfnbuf
    ensures ok <==> Pick(old(lfnbuf[..]), e).Some?
    ensures ok ==> lfnbuf[..] == Pick(old(lfnbuf[..]), e).value
  {
    hide IsLast, LfnOfs, And, CharOf;
    ghost var r := Pick(lfnbuf[..], e);
    var i, s, wc := Start(And(At(e, 0), 0x3F)), 0, 1;
    while s < 13
      invariant 0 <= s <= 13 && i >= 0 && wc >= 0 && r == PickFrom(lfnbuf[..], e, i, s, wc)
    {
      var uc := CharOf(e, s);
      if wc != 0 {
        if i >= MAX_LFN { return false; }
        ghost var b := lfnbuf[..];
        wc := uc;
        lfnbuf[i] := uc;
        assert lfnbuf[..] == b[i := uc];
        i := i + 1;
      } else {
        if uc != 0xFFFF { return false; }
      }
      s := s + 1;
    }
    if IsLast(e) {
      if i >= MAX_LFN { return false; }
      ghost var b := lfnbuf[..];
      lfnbuf[i] := 0;
      assert lfnbuf[..] == b[i := 0];
    }
    ok := true;
  }

  /** The buffer has the characters i .. hi - 1 of b, as far as it goes, with a NUL behind the last one. */
  ghost predicate Holds(buf: seq<nat>, b: seq<nat>, i: nat, hi: nat) {
    && |buf| == MAX_LFN + 1 && |b| <= MAX_LFN
    && (forall j :: i <= j < hi && j < |b| ==> buf[j] == b[j])
    && (hi >= |b| ==> buf[|b|] == 0)
  }

  /** Entries are picked up from the end: what is picked later lies in front. */
  ghost predicate Behind(buf: seq<nat>, buf': seq<nat>, hi: nat, i: nat) {
    |buf| == |buf'| && (forall j :: hi <= j < |buf| ==> buf'[j] == buf[j]) && (forall j :: 0 <= j < i && j < |buf| ==> buf'[j] == buf[j])
  }

  /** Too long to be picked up: no room for the terminator. */
  predicate TooLong(n: nat) {
    n >= MAX_LFN - 1
  }

  lemma PickUnroll(buf: seq<nat>, e: seq<byte>, i: nat, s: nat, wc: nat)
    requires |buf| == MAX_LFN + 1 && |e| == SZ_DIR && s <= 13
    ensures s == 13 && !IsLast(e) ==> PickFrom(buf, e, i, s, wc) == Some(buf)
    ensures s == 13 && IsLast(e) && i < MAX_LFN ==> PickFrom(buf, e, i, s, wc) == Some(buf[i := 0])
    ensures s == 13 && IsLast(e) && i >= MAX_LFN ==> PickFrom(buf, e, i, s, wc) == None
    ensures s < 13 && wc != 0 && i >= MAX_LFN ==> PickFrom(buf, e, i, s, wc) == None
    ensures s < 13 && wc != 0 && i < MAX_LFN ==>
      PickFrom(buf, e, i, s, wc) == PickFrom(buf[i := CharOf(e, s)], e, i + 1, s + 1, CharOf(e, s))
    ensures s < 13 && wc == 0 && CharOf(e, s) == 0xFFFF ==> PickFrom(buf, e, i, s, wc) == PickFrom(buf, e, i, s + 1, 0)
  {
  }

  lemma {:induction false} PickSegment(buf: seq<nat>, e: seq<byte>, b: seq<nat>, ord: nat, sum: nat, i: nat, s: nat, wc: nat)
    requires |buf| == MAX_LFN + 1 && |e| == SZ_DIR && IsLfnEntry(e, b, ord, sum) && IsName(b) && s <= 13 && |b| <= MAX_LFN
    requires 13 * (ord - 1) + s <= |b| ==> i == 13 * (ord - 1) + s && wc != 0
    requires 13 * (ord - 1) + s > |b| ==> i == |b| + 1 && wc == 0 && buf[|b|] == 0
    ensures ord == Segments(|b|) && TooLong(|b|) ==> PickFrom(buf, e, i, s, wc) == None
    ensures !(ord == Segments(|b|) && TooLong(|b|)) ==>
      && PickFrom(buf, e, i, s, wc).Some? && Holds(PickFrom(buf, e, i, s, wc).value, b, i, 13 * ord)
      && (ord < Segments(|b|) ==> Behind(buf, PickFrom(buf, e, i, s, wc).value, 13 * ord, i))
      && (forall j :: 0 <= j < i ==> PickFrom(buf, e, i, s, wc).value[j] == buf[j])
    decreases 13 - s
  {
    hide IsLast, LfnOfs, CharOf, PickFrom, IsLfnEntry, Order, Segments, And;
    OrderOf(e, b, ord, sum);
    SegmentsBound(|b|, ord);
    PickUnroll(buf, e, i, s, wc);
    if s < 13 {
      EntryChar(e, b, ord, sum, s);
      if 13 * (ord - 1) + s > |b| {
        PickSegment(buf, e, b, ord, sum, i, s + 1, 0);
      } else if i < MAX_LFN {
        PickSegment(buf[i := CharOf(e, s)], e, b, ord, sum, i + 1, s + 1, CharOf(e, s));
      }
    }
  }

  lemma PickEntry(buf: seq<nat>, e: seq<byte>, b: seq<nat>, ord: nat, sum: nat)
    requires |buf| == MAX_LFN + 1 && |e| == SZ_DIR && IsLfnEntry(e, b, ord, sum) && IsName(b)
    requires ord < Segments(|b|) ==> Holds(buf, b, 13 * ord, 260)
    ensures ord == Segments(|b|) && TooLong(|b|) ==> Pick(buf, e) == None
    ensures !(ord == Segments(|b|) && TooLong(|b|)) ==> Pick(buf, e).Some? && Holds(Pick(buf, e).value, b, 13 * (ord - 1), 260)
  {
    hide IsLast, LfnOfs, CharOf, PickFrom, IsLfnEntry, Order, Segments, And;
    OrderOf(e, b, ord, sum);
    SegmentsBound(|b|, ord);
    PickSegment(buf, e, b, ord, sum, 13 * (ord - 1), 0, 1);
  }

  /** pick_lfn over stored entries in order. */
  ghost function PickAll(buf: seq<nat>, es: seq<Slot>): (r: Option<seq<nat>>)
    requires |buf| == MAX_LFN + 1
    ensures r.Some? ==> |r.value| == |buf|
    decreases |es|
  {
    if es == [] then Some(buf)
    else match Pick(buf, es[0])
      case None => None
      case Some(b) => PickAll(b, es[1..])
  }

  lemma {:induction false} PickRest(buf: seq<nat>, es: seq<Slot>, b: seq<nat>, sum: nat)
    requires |buf| == MAX_LFN + 1 && IsName(b) && |es| <= Segments(|b|) && forall j :: 0 <= j < |es| ==> IsLfnEntry(es[j], b, |es| - j, sum)
    requires |es| < Segments(|b|) ==> Holds(buf, b, 13 * |es|, 260)
    ensures |es| == Segments(|b|) && TooLong(|b|) ==> PickAll(buf, es) == None
    ensures !(|es| == Segments(|b|) && TooLong(|b|)) ==> PickAll(buf, es).Some? && Holds(PickAll(buf, es).value, b, 0, 260)
    decreases |es|
  {
    hide Pick, Holds, IsLfnEntry, TooLong;
    if es != [] {
      PickEntry(buf, es[0], b, |es|, sum);
      if !(|es| == Segments(|b|) && TooLong(|b|)) {
        PickRest(Pick(buf, es[0]).value, es[1..], b, sum);
      }
    }
  }

  /** Storing a name and picking it up again gives the name back, whatever the buffer held before, if and only if
      the name has at most 253 characters; a longer one is refused. */
  lemma PickName(buf: seq<nat>, es: seq<Slot>, b: seq<nat>, sum: nat)
    requires |buf| == MAX_LFN + 1 && IsName(b) && IsEntrySet(es, b, sum)
    ensures PickAll(buf, es).Some? <==> |b| <= 253
    ensures |b| <= 253 ==> PickAll(buf, es).value[..|b|] == b && PickAll(buf, es).value[|b|] == 0
  {
    hide PickAll;
    SegmentsBound(|b|, 1);
    PickRest(buf, es, b, sum);
  }
}
