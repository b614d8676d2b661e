/** gen_numname and dir_register. */
module DirRegister {
  import opened Options
  import opened Layout
  import opened FatAccess
  import opened Chains
  import opened DirEntry
  import opened LongNames
  import opened DirTable
  import opened DirNames
  import opened DirOps

  /** The hash loop of gen_numname. */
  method HashName(lfnbuf: seq<nat>, n: nat, ghost name: seq<nat>) returns (v: nat)
    requires Spells(lfnbuf, name) && IsName(name) && n < 0x1_0000
    ensures v == HashFrom(name, 0, n)
  {
    SpelledAt(lfnbuf, name);
    v := n;
    var i := 0;
    while true
      invariant 0 <= i < |name| && v >= 0 && HashFrom(name, i, v) == HashFrom(name, 0, n)
      decreases |name| - i
    {
      v := (v / 2 + v * 0x8000 + lfnbuf[i]) % 0x1_0000;
      i := i + 1;
      if lfnbuf[i] == 0 { break; }
    }
  }

  /** Digits of a number from the end of a field of eight, and how many places are left. */
  method HexField(ns: array<byte>, v: nat) returns (i: nat)
    requires ns.Length == 8 && |Hex(v)| <= 4
    modifies ns
    ensures i + |Hex(v)| == 7 && ns[i + 1..] == Hex(v)
  {
    var x := v;
    i := 7;
    while true
      invariant 3 <= i <= 7 && ns.Length == 8 && x >= 0
      invariant Hex(v) == Hex(x) + ns[i + 1..]
      decreases x
    {
      ghost var rest := ns[i + 1..];
      var c := x % 16 + 0x30;
      if c > 0x39 { c := c + 7; }
      ns[i] := c;
      assert ns[i..] == [c as byte] + rest;
      if x < 16 {
        i := i - 1;
        return;
      }
      HexStep(x, rest);
      i := i - 1;
      x := x / 16;
    }
  }

  lemma HexStep(x: nat, rest: seq<byte>)
    requires x >= 16
    ensures Hex(x) + rest == Hex(x / 16) + ([if x % 16 < 10 then 0x30 + x % 16 else 0x37 + x % 16] + rest)
  {
  }

  /** gen_numname, for single-byte code pages. */
  method GenNumname(src: seq<byte>, lfnbuf: seq<nat>, n: nat, ghost name: seq<nat>) returns (r: seq<byte>)
    requires |src| == 11 && Spells(lfnbuf, name) && IsName(name) && n < 100
    ensures |Hex(NumberOf(name, n))| <= 7 && r == Numbered(src, NumberOf(name, n))
  {
    hide Hex, HashFrom, Spells, IsName, Cut;
    NumberFits(name, n);
    var v := n;
    if n > 5 { v := HashName(lfnbuf, n, name); }
    var ns := new byte[8](_ => 0);
    var i := HexField(ns, v);
    ghost var h := Hex(v);
    ns[i] := 0x7E;
    assert ns[i..] == [0x7E] + h;
    r := AppendNumber(src, ns, i, h);
  }

  /** The end of gen_numname: cut the name and append the number. */
  method AppendNumber(src: seq<byte>, ns: array<byte>, i0: nat, ghost h: seq<byte>) returns (r: seq<byte>)
    requires |src| == 11 && ns.Length == 8 && i0 + |h| == 7 && ns[i0..] == [0x7E] + h
    ensures r == src[..Cut(src, i0)] + ([0x7E] + h) + Spaces(i0 - Cut(src, i0)) + src[8..]
  {
    var dst := new byte[11](k requires 0 <= k < 11 => src[k]);
    var j := 0;
    while j < i0 && dst[j] != 0x20
      invariant 0 <= j <= i0 && dst[..] == src && forall k :: 0 <= k < j ==> src[k] != 0x20
    {
      j := j + 1;
    }
    CutIs(src, i0, j);
    var j0 := j;
    ghost var tail := [0x7E] + h + Spaces(i0 - j0);
    forall k | 0 <= k < 8 - j0 ensures tail[k] == (if k < 8 - i0 then ns[i0..][k] else 0x20) { }
    PutNumber(dst, ns, i0, j0, tail);
    r := dst[..];
    assert r == src[..j0] + tail + src[8..];
  }

  /** The second loop: the number from ns, then spaces. */
  method PutNumber(dst: array<byte>, ns: array<byte>, i0: nat, j0: nat, ghost tail: seq<byte>)
    requires dst.Length == 11 && ns.Length == 8 && dst != ns && j0 <= i0 <= 8 && |tail| == 8 - j0
    requires forall k :: 0 <= k < 8 - j0 ==> tail[k] == (if k < 8 - i0 then ns[i0..][k] else 0x20)
    modifies dst
    ensures dst[..] == old(dst[..j0]) + tail + old(dst[8..])
  {
    hide PutUpTo;
    ghost var d := dst[..];
    PutNone(d, j0, tail);
    var i, j := i0, j0;
    while j < 8
      invariant j0 <= j <= 8 && i == (if j - j0 < 8 - i0 then i0 + (j - j0) else 8)
      invariant dst[..] == PutUpTo(d, j0, tail, j)
    {
      ghost var was := dst[..];
      assert tail[j - j0] == (if i < 8 then ns[i] else 0x20);
      if i < 8 {
        dst[j] := ns[i];
        i := i + 1;
      } else {
        dst[j] := 0x20;
      }
      assert dst[..] == was[j := tail[j - j0]];
      PutStep(d, j0, tail, j);
      j := j + 1;
    }
    PutAll(d, j0, tail);
    assert d[..j0] == old(dst[..j0]) && d[8..] == old(dst[8..]);
  }

  lemma PutNone(d: seq<byte>, j0: nat, tail: seq<byte>)
    requires j0 <= |d|
    ensures PutUpTo(d, j0, tail, j0) == d
  {
  }

  lemma PutAll(d: seq<byte>, j0: nat, tail: seq<byte>)
    requires j0 + |tail| <= |d|
    ensures PutUpTo(d, j0, tail, j0 + |tail|) == d[..j0] + tail + d[j0 + |tail|..]
  {
    assert tail[..|tail|] == tail;
  }

  /** d with tail put from j0 up to j. */
  ghost function PutUpTo(d: seq<byte>, j0: nat, tail: seq<byte>, j: nat): (r: seq<byte>)
    requires j0 <= j <= |d| && j - j0 <= |tail|
    ensures |r| == |d|
  {
    d[..j0] + tail[..j - j0] + d[j..]
  }

  lemma PutStep(d: seq<byte>, j0: nat, tail: seq<byte>, j: nat)
    requires j0 <= j < |d| && j - j0 < |tail|
    ensures PutUpTo(d, j0, tail, j)[j := tail[j - j0]] == PutUpTo(d, j0, tail, j + 1)
  {
  }

  lemma CutIs(src: seq<byte>, limit: nat, j: nat)
    requires limit <= |src| && j <= limit && (forall i :: 0 <= i < j ==> src[i] != 0x20) && (j < limit ==> src[j] == 0x20)
    ensures j == Cut(src, limit)
  {
  }

  /** Unused entries behind the table make no difference to a search that misses. */
  lemma {:induction false} MissExtends(w: Wanted, up: nat -> nat, t: seq<Slot>, t': seq<Slot>, k: nat, st: Scan)
    requires Usable(w) && Extended(t, t') && k <= |t| && FindFrom(w, up, t, k, st) == Miss
    ensures FindFrom(w, up, t', k, st) == Miss
    decreases |t| - k
  {
    hide Look;
    if k == |t| {
      if |t| < |t'| { assert t'[k] == ZeroSlot(); }
      EndStops(w, up, t', k, st);
    } else {
      assert t'[k] == t'[..|t|][k] == t[k];
      var v := Look(w, up, t[k], k, st);
      if v.Go? { MissExtends(w, up, t, t', k + 1, v.scan); }
    }
  }

  lemma LiveExtends(t: seq<Slot>, t': seq<Slot>, j: nat)
    requires Extended(t, t')
    ensures Live(t', j) <==> Live(t, j)
    ensures Live(t, j) ==> t'[j] == t[j]
  {
    hide KindOf;
    forall i | 0 <= i < |t| ensures t'[i] == t[i] { assert t'[..|t|][i] == t'[i]; }
    if |t| <= j < |t'| { assert t'[j] == ZeroSlot() && t'[j][0] == 0; }
  }

  /** dir_register after dir_find missed the name w: what it promises, once it has entered the name with the short
      form sfn into the extended table t1. */
  lemma RegisteredName(w: Wanted, up: nat -> nat, t: seq<Slot>, t1: seq<Slot>, t': seq<Slot>, pos: nat, ne: nat, name: seq<nat>, sfn: seq<byte>)
    requires Names(w, name, ne) && Folds(up) && Find(w, up, t) == Miss && Ended(t) && ShortsDistinct(t)
    requires Extended(t, t1) && Reservable(t1, pos, ne) && Entered(t1, t', pos, ne, name, sfn)
    requires if w.loss then Find(Wanted(sfn, false, None), up, t) == Miss else sfn == w.fn
    ensures Usable(w.(fn := sfn)) && Find(w.(fn := sfn), up, t').Hit? && Find(w.(fn := sfn), up, t').k == pos + ne - 1
    ensures ShortsDistinct(t') && Ended(t')
    ensures |t| <= |t'| && forall j :: 0 <= j < |t| && !Blank(t[j]) ==> t'[j] == t[j]
  {
    hide KindOf, FindFrom, Look, Blank, Extended, Spells, IsName;
    ExtendedEnds(t, t1);
    MissExtends(w, up, t, t1, 0, FRESH);
    EnteredIsFound(w, up, t1, t', pos, ne, name, sfn);
    NewName(w, up, t, t1, sfn);
    EnteredKeepsDistinct(t1, t', pos, ne, name, sfn);
    ExtendedPrefix(t, t1);
  }

  /** A name of the greatest length is entered, but cannot be found. */
  lemma RegisteredLost(w: Wanted, up: nat -> nat, t: seq<Slot>, t1: seq<Slot>, t': seq<Slot>, pos: nat, ne: nat, name: seq<nat>, sfn: seq<byte>)
    requires Usable(w) && w.lfn.Some? && w.loss && ne > 1 && Spells(w.lfn.value, name) && |name| == MAX_LFN && IsName(name)
    requires Folds(up) && Find(w, up, t) == Miss && Ended(t)
    requires Extended(t, t1) && Reservable(t1, pos, ne) && Entered(t1, t', pos, ne, name, sfn)
    ensures Usable(w.(fn := sfn)) && Find(w.(fn := sfn), up, t') == Miss
  {
    hide KindOf, FindFrom, Look, Blank, Extended, Spells, IsName;
    ExtendedEnds(t, t1);
    MissExtends(w, up, t, t1, 0, FRESH);
    FullNameLost(w, up, t1, t', pos, ne, name, sfn);
  }

  lemma ExtendedPrefix(t: seq<Slot>, t': seq<Slot>)
    requires Extended(t, t')
    ensures |t| <= |t'| && forall j :: 0 <= j < |t| ==> t'[j] == t[j]
  {
    forall j | 0 <= j < |t| ensures t'[j] == t[j] { assert t'[..|t|][j] == t'[j]; }
  }

  lemma NewName(w: Wanted, up: nat -> nat, t: seq<Slot>, t1: seq<Slot>, sfn: seq<byte>)
    requires Usable(w) && |sfn| == 11 && Extended(t, t1) && ShortsDistinct(t) && Find(w, up, t) == Miss
    requires if w.loss then Find(Wanted(sfn, false, None), up, t) == Miss else sfn == w.fn
    ensures ShortsDistinct(t1) && forall j: nat :: Live(t1, j) ==> t1[j][..11] != sfn
  {
    hide KindOf, FindFrom, Extended;
    forall j: nat ensures Live(t1, j) <==> Live(t, j) { LiveExtends(t, t1, j); }
    forall j: nat | Live(t1, j) ensures t1[j][..11] != sfn {
      LiveExtends(t, t1, j);
      if w.loss { MissedIsNew(Wanted(sfn, false, None), up, t, j); } else { MissedIsNew(w, up, t, j); }
    }
    forall i: nat, j: nat | Live(t1, i) && Live(t1, j) && i != j ensures t1[i][..11] != t1[j][..11] {
      LiveExtends(t, t1, i);
      LiveExtends(t, t1, j);
    }
  }

  /** The short name with the n-th number is in the table. */
  ghost predicate InUse(sn: seq<byte>, name: seq<nat>, up: nat -> nat, t: seq<Slot>, n: nat) {
    && |sn| == 11 && n < 100 && |Hex(NumberOf(name, n))| <= 7
    && Find(Wanted(Numbered(sn, NumberOf(name, n)), false, None), up, t).Hit?
  }

  lemma InUseWhen(sn: seq<byte>, name: seq<nat>, up: nat -> nat, t: seq<Slot>, n: nat)
    requires |sn| == 11 && n < 100 && |Hex(NumberOf(name, n))| <= 7
    requires Usable(Wanted(Numbered(sn, NumberOf(name, n)), false, None))
    requires Find(Wanted(Numbered(sn, NumberOf(name, n)), false, None), up, t).Hit?
    ensures InUse(sn, name, up, t, n)
  {
  }

  /** fn is the short name with the first number that is not in use. */
  ghost predicate FirstFree(sn: seq<byte>, name: seq<nat>, up: nat -> nat, t: seq<Slot>, fn: seq<byte>) {
    exists n: nat :: 1 <= n < 100 && IsFree(sn, name, up, t, fn, n)
  }

  ghost predicate IsFree(sn: seq<byte>, name: seq<nat>, up: nat -> nat, t: seq<Slot>, fn: seq<byte>, n: nat) {
    && |sn| == 11 && n < 100 && |Hex(NumberOf(name, n))| <= 7 && fn == Numbered(sn, NumberOf(name, n))
    && !InUse(sn, name, up, t, n) && forall m: nat :: 1 <= m < n ==> InUse(sn, name, up, t, m)
  }

  lemma IsFreeWhen(sn: seq<byte>, name: seq<nat>, up: nat -> nat, t: seq<Slot>, fn: seq<byte>, n: nat)
    requires |sn| == 11 && 1 <= n < 100 && |Hex(NumberOf(name, n))| <= 7 && fn == Numbered(sn, NumberOf(name, n))
    requires Usable(Wanted(fn, false, None)) && Find(Wanted(fn, false, None), up, t) == Miss
    requires forall m: nat :: 1 <= m < n ==> InUse(sn, name, up, t, m)
    ensures FirstFree(sn, name, up, t, fn)
  {
    hide Find, Numbered, Hex, NumberOf;
    assert IsFree(sn, name, up, t, fn, n);
  }

  ghost predicate AllInUse(sn: seq<byte>, name: seq<nat>, up: nat -> nat, t: seq<Slot>) {
    forall m: nat :: 1 <= m < 100 ==> InUse(sn, name, up, t, m)
  }

  lemma AllInUseWhen(sn: seq<byte>, name: seq<nat>, up: nat -> nat, t: seq<Slot>)
    requires forall m: nat :: 1 <= m < 100 ==> InUse(sn, name, up, t, m)
    ensures AllInUse(sn, name, up, t)
  {
    hide InUse;
  }

  /** The numbered names are tried until dir_find, looking at short names only, misses one; it gives up exactly when
      all of them are in use. */
  method PickNumber(dj: Directory, sn: seq<byte>, lfnbuf: seq<nat>, up: nat -> nat, ghost name: seq<nat>) returns (res: FResult, fn: seq<byte>)
    requires dj.Table() && IsShortName(sn) && Spells(lfnbuf, name) && IsName(name)
    modifies dj`index, dj`clust, dj`sect, dj`ofs, dj`chain, dj`log
    modifies dj.fs`disk, dj.fs`winsect, dj.fs`wflag, dj.fs`fsiFlag, dj.fs`lastClust, dj.fs`freeClust, dj.fs.win
    ensures dj.Table() && Listing(dj) == old(Listing(dj)) && |fn| == 11 && dj.chain == old(dj.chain) && dj.log == old(dj.log)
    ensures res == FR_NO_FILE ==> IsShortName(fn) && Find(Wanted(fn, false, None), up, Listing(dj)) == Miss
    ensures res == FR_NO_FILE ==> FirstFree(sn, name, up, Listing(dj), fn)
    ensures res == FR_NO_FILE || res == FR_DENIED || (res == FR_INT_ERR && Listing(dj) == [])
    ensures res == FR_DENIED ==> AllInUse(sn, name, up, Listing(dj))
  {
    hide *;
    ghost var t := Listing(dj);
    ShortSize(sn);
    fn := sn;
    var n := 1;
    while n < 100
      invariant 1 <= n <= 100 && dj.Table() && Listing(dj) == t && |fn| == 11
      invariant dj.chain == old(dj.chain) && dj.log == old(dj.log)
      invariant forall m: nat :: 1 <= m < n ==> InUse(sn, name, up, t, m)
    {
      fn := GenNumname(sn, lfnbuf, n, name);
      NumberedName(sn, NumberOf(name, n));
      ShortSize(fn);
      UsableShort(fn);
      var idx;
      res, idx := DirFind(dj, Wanted(fn, false, None), up);
      if res != FR_OK {
        if res == FR_NO_FILE { IsFreeWhen(sn, name, up, t, fn, n); }
        return;
      }
      InUseWhen(sn, name, up, t, n);
      n := n + 1;
    }
    AllInUseWhen(sn, name, up, t);
    res := FR_DENIED;
  }

  lemma ShortSize(fn: seq<byte>)
    requires IsShortName(fn)
    ensures |fn| == 11
  {
  }

  lemma UsableShort(fn: seq<byte>)
    requires |fn| == 11
    ensures Usable(Wanted(fn, false, None))
  {
  }

  /** `for (ne = 0; lfn[ne]; ne++) ; ne = (ne + 25) / 13` */
  method EntriesNeeded(lfnbuf: seq<nat>, ghost name: seq<nat>) returns (ne: nat)
    requires Spells(lfnbuf, name) && IsName(name)
    ensures ne == Segments(|name|) + 1 >= 2
  {
    SpelledAt(lfnbuf, name);
    var n := 0;
    while lfnbuf[n] != 0
      invariant 0 <= n <= |name|
      decreases |name| - n
    {
      n := n + 1;
    }
    ne := (n + 25) / 13;
  }

  /** How many entries a name takes. */
  function Need(long: bool, name: seq<nat>): nat { if long then Segments(|name|) + 1 else 1 }

  lemma NeedIs(long: bool, name: seq<nat>)
    ensures Need(long, name) == if long then Segments(|name|) + 1 else 1
  {
  }

  lemma NoRoomAny(t: seq<Slot>, ne: nat, static_: bool, full: bool, full': bool)
    requires NoRoom(t, ne, static_, full) && (full ==> full')
    ensures NoRoom(t, ne, static_, full')
  {
    hide NoRun;
  }

  /** The short entry of a new file: empty, without a cluster, and zero behind its name and its case bits. */
  ghost predicate New(e: Slot, sfn: seq<byte>, ns: byte) {
    IsFresh(e, sfn, ns) && LdSize(e, 0) == 0 && LdClust(e, 0) == 0
  }

  lemma NewWhen(e: Slot, sfn: seq<byte>, ns: byte)
    requires IsFresh(e, sfn, ns)
    ensures New(e, sfn, ns) && IsShortEntry(e, sfn)
  {
    FreshIsEmpty(e, sfn, ns);
  }

  /** The end of dir_register: the long entries and the short one are stored in the reserved place. */
  method StoreName(dj: Directory, fn: seq<byte>, ns: byte, lfnbuf: seq<nat>, pos: nat, ne: nat, ghost name: seq<nat>)
    requires dj.Table() && IsShortName(fn) && Spells(lfnbuf, name) && IsName(name)
    requires Reservable(Listing(dj), pos, ne) && dj.Points(pos + ne - 1) && pos < 0x1_0000 && (ne > 1 ==> ne == Segments(|name|) + 1)
    modifies dj`index, dj`clust, dj`sect, dj`ofs, dj`chain, dj`log
    modifies dj.fs`disk, dj.fs`winsect, dj.fs`wflag, dj.fs`fsiFlag, dj.fs`lastClust, dj.fs`freeClust, dj.fs.win
    ensures dj.Table() && Beside(dj.fs.geo, dj.sclust, old(dj.chain), old(dj.log), dj.chain, dj.log)
    ensures Entered(old(Listing(dj)), Listing(dj), pos, ne, name, fn) && dj.Points(pos + ne - 1)
    ensures dj.index < |Listing(dj)| && New(Listing(dj)[dj.index], fn, ns)
  {
    hide *;
    ShortSize(fn);
    TableFacts(dj);
    ghost var t1, ch, d := Listing(dj), dj.chain, dj.log;
    BesideRefl(dj.fs.geo, dj.sclust, ch, d);
    ReservableIs(t1, pos, ne);
    if ne > 1 {
      var sum := SumOfName(fn);
      SumByte(fn);
      StoreLongs(dj, pos, ne - 1, lfnbuf, sum as byte, name);
    }
    ghost var t2, ch2, d2 := Listing(dj), dj.chain, dj.log;
    if ne > 1 { LongsSize(t1, t2, pos, ne - 1, ne - 1, name, SumSfn(fn)); }
    PutShort(dj, fn, ns, pos + ne - 1);
    BesideTrans(dj.fs.geo, dj.sclust, ch, d, ch2, d2, dj.chain, dj.log);
    NewWhen(Listing(dj)[pos + ne - 1], fn, ns);
    PointsIndex(dj, pos + ne - 1);
    LongsEnter(t1, t2, Listing(dj), pos, ne - 1, name, fn);
  }

  /** dir_register. On success the name stands in the table at pos, with ne entries; else the table has at most become
      longer, and all 99 numbered names are in use or there is no room. The short name fn is sn itself, or sn with the first
      number that is not in use. */
  method DirRegister(dj: Directory, sn: seq<byte>, loss: bool, long: bool, ns: byte, lfnbuf: seq<nat>, up: nat -> nat, ghost name: seq<nat>)
    returns (res: FResult, fn: seq<byte>, ghost t1: seq<Slot>, pos: nat, ne: nat)
    requires dj.Table() && IsShortName(sn) && Spells(lfnbuf, name) && IsName(name) && (loss ==> long)
    modifies dj`index, dj`clust, dj`sect, dj`ofs, dj`chain, dj`log
    modifies dj.fs`disk, dj.fs`winsect, dj.fs`wflag, dj.fs`fsiFlag, dj.fs`lastClust, dj.fs`freeClust, dj.fs.win
    ensures dj.Table() && Extended(old(Listing(dj)), t1)
    ensures Beside(dj.fs.geo, dj.sclust, old(dj.chain), old(dj.log), dj.chain, dj.log)
    ensures res == FR_OK ==> Reservable(t1, pos, ne) && Entered(t1, Listing(dj), pos, ne, name, fn) && dj.Points(pos + ne - 1)
    ensures res == FR_OK ==> dj.index < |Listing(dj)| && New(Listing(dj)[dj.index], fn, ns)
    ensures res == FR_OK ==> (long <==> ne > 1) && ne == Need(long, name) && NoRun(t1, pos + ne - 1, ne)
    ensures res == FR_OK ==> if loss then Find(Wanted(fn, false, None), up, old(Listing(dj))) == Miss else fn == sn
    ensures res == FR_OK && loss ==> FirstFree(sn, name, up, old(Listing(dj)), fn)
    ensures res != FR_OK ==> Listing(dj) == t1
    ensures res != FR_OK ==>
      || old(Listing(dj)) == [] || (loss && AllInUse(sn, name, up, old(Listing(dj))))
      || NoRoom(t1, Need(long, name), First(dj.fs.geo, dj.sclust) == 0, Free(Fat(dj.fs.geo, dj.log)) == 0)
  {
    hide *;
    TableFacts(dj);
    ghost var t0, ch0, d0 := Listing(dj), dj.chain, dj.log;
    t1, pos, ne := t0, 0, 1;
    ExtendedRefl(t0);
    BesideRefl(dj.fs.geo, dj.sclust, ch0, d0);
    ShortSize(sn);
    fn := sn;
    if loss {
      res, fn := PickNumber(dj, sn, lfnbuf, up, name);
      if res != FR_NO_FILE { return; }
      UsableShort(fn);
    }
    ShortSize(fn);
    if long { ne := EntriesNeeded(lfnbuf, name); }
    NeedIs(long, name);
    res, pos := Reserve(dj, ne);
    t1 := Listing(dj);
    TableFacts(dj);
    if res != FR_OK {
      if res != FR_INT_ERR { NoRoomAny(t1, ne, First(dj.fs.geo, dj.sclust) == 0, res == FR_DENIED, Free(Fat(dj.fs.geo, dj.log)) == 0); }
      return;
    }
    ReservableIs(t1, pos, ne);
    ghost var ch1, d1 := dj.chain, dj.log;
    StoreName(dj, fn, ns, lfnbuf, pos, ne, name);
    BesideTrans(dj.fs.geo, dj.sclust, ch0, d0, ch1, d1, dj.chain, dj.log);
  }

  /** The table keeps its short names apart and its entries in use, and looking for the name leads to entry k. */
  ghost predicate Holds(w: Wanted, up: nat -> nat, t: seq<Slot>, t': seq<Slot>, k: nat) {
    && Usable(w) && Find(w, up, t').Hit? && Find(w, up, t').k == k && ShortsDistinct(t') && Ended(t')
    && |t| <= |t'| && forall j :: 0 <= j < |t| && !Blank(t[j]) ==> t'[j] == t[j]
  }

  lemma HoldsWhen(w: Wanted, up: nat -> nat, t: seq<Slot>, t': seq<Slot>, k: nat)
    requires Usable(w) && Find(w, up, t').Hit? && Find(w, up, t').k == k && ShortsDistinct(t') && Ended(t')
    requires |t| <= |t'| && forall j :: 0 <= j < |t| && !Blank(t[j]) ==> t'[j] == t[j]
    ensures Holds(w, up, t, t', k)
  {
  }

  lemma NamesWhen(w: Wanted, name: seq<nat>, ne: nat)
    requires Usable(w) && w.lfn.Some? && Spells(w.lfn.value, name) && IsName(name) && |name| < MAX_LFN && (w.loss ==> ne > 1)
    ensures Names(w, name, ne)
  {
  }

  lemma LongestName(name: seq<nat>)
    requires IsName(name)
    ensures |name| <= MAX_LFN
  {
  }

  lemma UsableSize(w: Wanted)
    requires Usable(w)
    ensures |w.fn| == 11
  {
  }

  lemma PointsIndex(dj: Directory, k: nat)
    requires dj.Points(k)
    ensures dj.index == k
  {
  }

  /** The end of the path in f_open with FA_CREATE_ALWAYS or FA_OPEN_ALWAYS: dir_find, and dir_register if that misses.
      On success the name, with the short form fn it then has, is found at the entry the object points at, unless it is a
      new name of 255 characters, which is entered and not found. */
  method Create(dj: Directory, w: Wanted, long: bool, ns: byte, up: nat -> nat, ghost name: seq<nat>) returns (res: FResult, fn: seq<byte>)
    requires dj.Table() && Usable(w) && IsShortName(w.fn) && Folds(up) && Ended(Listing(dj)) && ShortsDistinct(Listing(dj))
    requires w.lfn.Some? && Spells(w.lfn.value, name) && IsName(name) && (w.loss ==> long) && (|name| == MAX_LFN ==> w.loss)
    modifies dj`index, dj`clust, dj`sect, dj`ofs, dj`chain, dj`log
    modifies dj.fs`disk, dj.fs`winsect, dj.fs`wflag, dj.fs`fsiFlag, dj.fs`lastClust, dj.fs`freeClust, dj.fs.win
    ensures dj.Table() && Beside(dj.fs.geo, dj.sclust, old(dj.chain), old(dj.log), dj.chain, dj.log)
    ensures res == FR_OK ==> dj.Points(dj.index) && |fn| == 11 && Usable(w.(fn := fn))
    ensures res == FR_OK && (|name| < MAX_LFN || Find(w, up, old(Listing(dj))).Hit?) ==>
      Holds(w.(fn := fn), up, old(Listing(dj)), Listing(dj), dj.index)
    ensures res == FR_OK && |name| == MAX_LFN && !Find(w, up, old(Listing(dj))).Hit? ==> Find(w.(fn := fn), up, Listing(dj)) == Miss
    ensures Find(w, up, old(Listing(dj))).Hit? ==> res == FR_OK && Listing(dj) == old(Listing(dj)) && fn == w.fn
    ensures res == FR_OK && !Find(w, up, old(Listing(dj))).Hit? ==> dj.index < |Listing(dj)| && New(Listing(dj)[dj.index], fn, ns)
    ensures res == FR_OK && !Find(w, up, old(Listing(dj))).Hit? ==>
      if w.loss then FirstFree(w.fn, name, up, old(Listing(dj)), fn) else fn == w.fn
    ensures res != FR_OK ==> Extended(old(Listing(dj)), Listing(dj))
    ensures res != FR_OK ==>
      || old(Listing(dj)) == [] || (w.loss && AllInUse(w.fn, name, up, old(Listing(dj))))
      || NoRoom(Listing(dj), Need(long, name), First(dj.fs.geo, dj.sclust) == 0, Free(Fat(dj.fs.geo, dj.log)) == 0)
  {
    hide *;
    ghost var t := Listing(dj);
    EmptyMiss(w, up);
    TableFacts(dj);
    BesideRefl(dj.fs.geo, dj.sclust, dj.chain, dj.log);
    fn := w.fn;
    var lfnIdx;
    res, lfnIdx := DirFind(dj, w, up);
    ExtendedRefl(t);
    if res == FR_OK {
      assert w.(fn := fn) == w;
      HoldsWhen(w, up, t, t, dj.index);
      UsableSize(w);
    } else if res == FR_NO_FILE {
      TableFacts(dj);
      ghost var t1, pos, ne;
      res, fn, t1, pos, ne := DirRegister(dj, w.fn, w.loss, long, ns, w.lfn.value, up, name);
      if res == FR_OK {
        ReservableIs(t1, pos, ne);
        PointsIndex(dj, pos + ne - 1);
        if |name| < MAX_LFN {
          NamesWhen(w, name, ne);
          RegisteredName(w, up, t, t1, Listing(dj), pos, ne, name, fn);
          HoldsWhen(w.(fn := fn), up, t, Listing(dj), dj.index);
        } else {
          LongestName(name);
          RegisteredLost(w, up, t, t1, Listing(dj), pos, ne, name, fn);
        }
        UsableSize(w.(fn := fn));
      }
    }
  }

  lemma EmptyMiss(w: Wanted, up: nat -> nat)
    requires Usable(w)
    ensures Find(w, up, []) == Miss
  {
  }

  lemma ReservableIs(t: seq<Slot>, pos: nat, ne: nat)
    requires Reservable(t, pos, ne)
    ensures pos + ne <= |t| && ne >= 1
  {
  }

  lemma SumByte(s: seq<byte>)
    requires |s| >= 11
    ensures SumSfn(s) < 0x100
  {
  }
}
