/** Looking names up in a directory and entering new ones, on the table's entries as a sequence. */
module DirNames {
  import opened Options
  import opened Layout
  import opened Bits
  import opened ByteOrder
  import opened DirEntry
  import opened LongNames

  const DDE: byte := 0xE5            // deleted entry
  const AM_VOL: nat := 0x08
  const AM_MASK: nat := 0x3F

  datatype Kind = End | Void | Long | Short

  /** How dir_find sees an entry. */
  function KindOf(e: Slot): Kind {
    var a := And(At(e, LDIR_ATTR), AM_MASK);
    if e[0] == 0 then End
    else if e[0] == DDE || (And(a, AM_VOL) != 0 && a != 0x0F) then Void
    else if a == 0x0F then Long
    else Short
  }

  /** Free for dir_register. */
  predicate Blank(e: Slot) { e[0] == 0 || e[0] == DDE }

  /** The name dir_find looks for: short form, whether it was shortened, and the long name buffer if any. */
  datatype Wanted = Wanted(fn: seq<byte>, loss: bool, lfn: Option<seq<nat>>)

  predicate Usable(w: Wanted) {
    |w.fn| == 11 && (w.lfn.Some? ==> |w.lfn.value| == MAX_LFN + 1)
  }

  /** Long name sequence in progress: next order expected (0xFF: none), its check sum, where it began. */
  datatype Scan = Scan(ord: nat, sum: nat, lfnIdx: nat)

  datatype Verdict = Hit(k: nat, lfnIdx: nat) | Miss | Go(scan: Scan)

  /** sum_sfn */
  function SumFrom(s: seq<byte>, n: nat): (v: nat)
    requires n <= |s|
    ensures v < 0x100
  {
    if n == 0 then 0 else var v := SumFrom(s, n - 1); (v / 2 + v * 0x80 + At(s, n - 1)) % 0x100
  }

  function SumSfn(s: seq<byte>): nat
    requires |s| >= 11
  {
    SumFrom(s, 11)
  }

  method SumOfName(s: seq<byte>) returns (sum: nat)
    requires |s| >= 11
    ensures sum == SumSfn(s)
  {
    sum := 0;
    var n := 0;
    while n < 11
      invariant 0 <= n <= 11 && sum == SumFrom(s, n)
    {
      sum := (sum / 2 + sum * 0x80 + At(s, n)) % 0x100;
      n := n + 1;
    }
  }

  /** A long name entry: the sequence goes on, or starts, or is given up. */
  function AfterLong(buf: seq<nat>, up: nat -> nat, e: Slot, k: nat, st: Scan): Scan
    requires |buf| == MAX_LFN + 1
  {
    var first := IsLast(e);
    var c := if first then Order(e) else At(e, 0);
    var ord := if first then c else st.ord;
    var sum := if first then At(e, LDIR_CHKSUM) else st.sum;
    var idx := if first then k else st.lfnIdx;
    Scan(if c == ord && sum == At(e, LDIR_CHKSUM) && Cmp(buf, e, up) && ord > 0 then ord - 1 else 0xFF, sum, idx)
  }

  /** What dir_find does at entry k. */
  function Look(w: Wanted, up: nat -> nat, e: Slot, k: nat, st: Scan): Verdict
    requires Usable(w)
  {
    match KindOf(e)
    case End => Miss
    case Void => Go(st.(ord := 0xFF))
    case Long => Go(if w.lfn.Some? then AfterLong(w.lfn.value, up, e, k, st) else st)
    case Short =>
      if st.ord == 0 && st.sum == SumSfn(e) then Hit(k, st.lfnIdx)
      else if !w.loss && e[..11] == w.fn then Hit(k, 0xFFFF)
      else Go(Scan(0xFF, st.sum, 0xFFFF))
  }

  /** dir_find from entry k on. */
  function FindFrom(w: Wanted, up: nat -> nat, t: seq<Slot>, k: nat, st: Scan): Verdict
    requires Usable(w) && k <= |t|
    decreases |t| - k
  {
    if k == |t| then Miss
    else match Look(w, up, t[k], k, st)
      case Go(st') => FindFrom(w, up, t, k + 1, st')
      case v => v
  }

  const FRESH := Scan(0xFF, 0xFF, 0xFFFF)

  /** dir_find */
  function Find(w: Wanted, up: nat -> nat, t: seq<Slot>): Verdict
    requires Usable(w)
  {
    FindFrom(w, up, t, 0, FRESH)
  }

  /** State of the search after k entries, if it gets that far. */
  ghost function Reach(w: Wanted, up: nat -> nat, t: seq<Slot>, k: nat): Option<Scan>
    requires Usable(w) && k <= |t|
  {
    if k == 0 then Some(FRESH)
    else match Reach(w, up, t, k - 1)
      case None => None
      case Some(st) => match Look(w, up, t[k - 1], k - 1, st)
        case Go(st') => Some(st')
        case _ => None
  }

  lemma {:induction false} FindReached(w: Wanted, up: nat -> nat, t: seq<Slot>, k: nat)
    requires Usable(w) && k <= |t| && Reach(w, up, t, k).Some?
    ensures Find(w, up, t) == FindFrom(w, up, t, k, Reach(w, up, t, k).value)
  {
    if k > 0 { FindReached(w, up, t, k - 1); }
  }

  /** A search that misses gets past every entry in front of the end mark. */
  lemma {:induction false} MissReaches(w: Wanted, up: nat -> nat, t: seq<Slot>, k: nat)
    requires Usable(w) && k <= |t| && Find(w, up, t) == Miss && forall j :: 0 <= j < k ==> KindOf(t[j]) != End
    ensures Reach(w, up, t, k).Some?
  {
    if k > 0 {
      MissReaches(w, up, t, k - 1);
      FindReached(w, up, t, k - 1);
      assert KindOf(t[k - 1]) != End;
    }
  }

  /** Tables that agree so far, and names that are compared alike, are searched alike so far. */
  lemma {:induction false} ReachSame(w: Wanted, w': Wanted, up: nat -> nat, t: seq<Slot>, t': seq<Slot>, k: nat)
    requires Usable(w) && Usable(w') && k <= |t| && k <= |t'| && t[..k] == t'[..k]
    requires w'.lfn == w.lfn && w'.loss == w.loss && (w.loss || w'.fn == w.fn)
    ensures Reach(w', up, t', k) == Reach(w, up, t, k)
  {
    if k > 0 {
      assert t[..k - 1] == t[..k][..k - 1] && t'[..k - 1] == t'[..k][..k - 1];
      assert t[k - 1] == t[..k][k - 1] == t'[..k][k - 1] == t'[k - 1];
      ReachSame(w, w', up, t, t', k - 1);
    }
  }

  /** Behind the end mark the table is unused. */
  ghost predicate Ended(t: seq<Slot>) {
    forall i, j :: 0 <= i < j < |t| && t[i][0] == 0 ==> t[j][0] == 0
  }

  /** ne blank entries in a row, starting behind an entry in use. */
  ghost predicate Reservable(t: seq<Slot>, pos: nat, ne: nat) {
    && ne >= 1 && pos + ne <= |t|
    && (forall j :: pos <= j < pos + ne ==> Blank(t[j]))
    && (pos > 0 ==> !Blank(t[pos - 1]))
  }

  lemma InUseBefore(t: seq<Slot>, pos: nat, ne: nat)
    requires Ended(t) && Reservable(t, pos, ne)
    ensures forall j :: 0 <= j < pos ==> KindOf(t[j]) != End
  {
    if pos > 0 { assert t[pos - 1][0] != 0; }
  }

  /** The entry for a short name. */
  ghost predicate IsShortEntry(e: Slot, sfn: seq<byte>) {
    |sfn| == 11 && e[..11] == sfn && e[LDIR_ATTR] == 0
  }

  /** A short entry as dir_register leaves it: the name, bits 3 and 4 of the status byte in byte 12, and zeros. */
  ghost predicate IsFresh(e: Slot, sfn: seq<byte>, ns: byte) {
    && |sfn| == 11 && e[..11] == sfn && e[11] == 0 && e[12] as nat == ns as nat / 8 % 4 * 8
    && (forall i :: 13 <= i < 32 ==> e[i] == 0)
  }

  /** A new entry is that of an empty file without a cluster. */
  lemma FreshIsEmpty(e: Slot, sfn: seq<byte>, ns: byte)
    requires IsFresh(e, sfn, ns)
    ensures IsShortEntry(e, sfn) && LdSize(e, 0) == 0 && LdClust(e, 0) == 0
  {
    LittleIs(e, 28);
    ClustIs(e, 0);
  }

  predicate IsShortName(sfn: seq<byte>) {
    |sfn| == 11 && sfn[0] != 0 && sfn[0] != DDE
  }

  /** t' is t with the name entered at pos: ne - 1 long entries, then the short one. */
  ghost predicate Entered(t: seq<Slot>, t': seq<Slot>, pos: nat, ne: nat, name: seq<nat>, sfn: seq<byte>) {
    && |t'| == |t| && ne >= 1 && pos + ne <= |t| && IsShortName(sfn)
    && (forall j :: 0 <= j < |t| && !(pos <= j < pos + ne) ==> t'[j] == t[j])
    && (ne > 1 ==> IsName(name) && IsEntrySet(t'[pos..pos + ne - 1], name, SumSfn(sfn)))
    && IsShortEntry(t'[pos + ne - 1], sfn)
  }

  lemma ShortKind(e: Slot, sfn: seq<byte>)
    requires IsShortEntry(e, sfn) && IsShortName(sfn)
    ensures KindOf(e) == Short && SumSfn(e) == SumSfn(sfn)
  {
    assert e[0] == e[..11][0];
    SumPrefix(e, sfn, 11);
  }

  lemma {:induction false} SumPrefix(e: seq<byte>, s: seq<byte>, n: nat)
    requires n <= |s| <= |e| && e[..|s|] == s
    ensures SumFrom(e, n) == SumFrom(s, n)
  {
    if n > 0 {
      SumPrefix(e, s, n - 1);
      assert e[n - 1] == e[..|s|][n - 1];
    }
  }

  lemma LongKind(e: Slot, name: seq<nat>, ord: nat, sum: nat)
    requires IsLfnEntry(e, name, ord, sum) && IsName(name)
    ensures KindOf(e) == Long
  {
    SegmentsBound(|name|, ord);
    assert And(0x0F, 0x3F) == 0x0F by { BitSix(0x0F); }
  }

  /** One entry of the new long name: the search expects the next one. */
  lemma LookLong(w: Wanted, up: nat -> nat, e: Slot, k: nat, st: Scan, name: seq<nat>, ord: nat, sum: nat)
    requires Usable(w) && w.lfn.Some? && IsLfnEntry(e, name, ord, sum) && IsName(name) && Cmp(w.lfn.value, e, up)
    requires ord == Segments(|name|) || (st.ord == ord && st.sum == sum)
    ensures Look(w, up, e, k, st) == Go(Scan(ord - 1, sum, if ord == Segments(|name|) then k else st.lfnIdx))
  {
    hide Order, IsLast, Cmp, KindOf;
    LongKind(e, name, ord, sum);
    OrderOf(e, name, ord, sum);
  }

  lemma {:induction false} LongRun(w: Wanted, up: nat -> nat, t: seq<Slot>, pos: nat, es: seq<Slot>, name: seq<nat>, sum: nat, j: nat, st: Scan)
    requires Usable(w) && w.lfn.Some? && IsName(name) && pos + |es| <= |t| && t[pos..pos + |es|] == es && IsEntrySet(es, name, sum)
    requires forall i :: 0 <= i < |es| ==> Cmp(w.lfn.value, es[i], up)
    requires 0 < j <= |es| ==> st.ord == |es| - j && st.sum == sum
    requires j <= |es|
    ensures j < |es| ==>
      FindFrom(w, up, t, pos + j, st) == FindFrom(w, up, t, pos + |es|, Scan(0, sum, if j == 0 then pos else st.lfnIdx))
    decreases |es| - j
  {
    hide Look, Cmp, IsName, IsLfnEntry;
    if j < |es| {
      assert t[pos + j] == es[j];
      LookLong(w, up, es[j], pos + j, st, name, |es| - j, sum);
      var st' := Scan(|es| - j - 1, sum, if j == 0 then pos else st.lfnIdx);
      if j + 1 < |es| { LongRun(w, up, t, pos, es, name, sum, j + 1, st'); }
    }
  }

  /** The name the directory object carries: shortened names always have long entries. */
  ghost predicate Names(w: Wanted, name: seq<nat>, ne: nat) {
    && Usable(w) && w.lfn.Some? && (w.loss ==> ne > 1)
    && (ne > 1 ==> Spells(w.lfn.value, name) && IsName(name) && |name| < MAX_LFN)
  }

  /** Entering a name that dir_find missed makes dir_find hit its short entry. sfn is the short name it gets: the
      given one, or a numbered one if the given one was shortened. */
  lemma EnteredIsFound(w: Wanted, up: nat -> nat, t: seq<Slot>, t': seq<Slot>, pos: nat, ne: nat, name: seq<nat>, sfn: seq<byte>)
    requires Names(w, name, ne) && Folds(up) && Find(w, up, t) == Miss && Ended(t) && Reservable(t, pos, ne)
    requires Entered(t, t', pos, ne, name, sfn) && (!w.loss ==> sfn == w.fn)
    ensures Usable(w.(fn := sfn)) && Find(w.(fn := sfn), up, t').Hit? && Find(w.(fn := sfn), up, t').k == pos + ne - 1
    ensures ne > 1 ==> Find(w.(fn := sfn), up, t').lfnIdx == pos
  {
    hide Look, Cmp, KindOf, IsLfnEntry, Spells, IsName, FindFrom, Reach, SumSfn;
    var w' := w.(fn := sfn);
    InUseBefore(t, pos, ne);
    MissReaches(w, up, t, pos);
    assert t[..pos] == t'[..pos];
    ReachSame(w, w', up, t, t', pos);
    FindReached(w', up, t', pos);
    var st := Reach(w', up, t', pos).value;
    var last := pos + ne - 1;
    ShortKind(t'[last], sfn);
    if ne > 1 {
      var es := t'[pos..last];
      CmpName(w.lfn.value, name, es, up, name, SumSfn(sfn));
      LongRun(w', up, t', pos, es, name, SumSfn(sfn), 0, st);
      LookShort(w', up, t', last, Scan(0, SumSfn(sfn), pos));
    } else {
      LookShort(w', up, t', last, st);
    }
  }

  lemma LookShort(w: Wanted, up: nat -> nat, t: seq<Slot>, k: nat, st: Scan)
    requires Usable(w) && k < |t| && KindOf(t[k]) == Short
    ensures st.ord == 0 && st.sum == SumSfn(t[k]) ==> FindFrom(w, up, t, k, st) == Hit(k, st.lfnIdx)
    ensures !w.loss && t[k][..11] == w.fn ==> FindFrom(w, up, t, k, st).Hit? && FindFrom(w, up, t, k, st).k == k
  {
  }

  /** A live short entry. */
  ghost predicate Live(t: seq<Slot>, j: nat) {
    j < |t| && KindOf(t[j]) == Short && forall i :: 0 <= i <= j ==> t[i][0] != 0
  }

  /** No two live short entries have the same name. */
  ghost predicate ShortsDistinct(t: seq<Slot>) {
    forall i: nat, j: nat :: Live(t, i) && Live(t, j) && i != j ==> t[i][..11] != t[j][..11]
  }

  /** A search that compares short names and misses: the name is not in use. */
  lemma MissedIsNew(w: Wanted, up: nat -> nat, t: seq<Slot>, j: nat)
    requires Usable(w) && !w.loss && Find(w, up, t) == Miss && Live(t, j)
    ensures t[j][..11] != w.fn
  {
    hide Look, FindFrom, Reach;
    forall i | 0 <= i < j ensures KindOf(t[i]) != End { assert t[i][0] != 0; }
    MissReaches(w, up, t, j);
    FindReached(w, up, t, j);
    LookShort(w, up, t, j, Reach(w, up, t, j).value);
  }

  /** Entering a name changes no entry in use, adds one live short entry, and keeps short names distinct. */
  lemma EnteredKeepsDistinct(t: seq<Slot>, t': seq<Slot>, pos: nat, ne: nat, name: seq<nat>, sfn: seq<byte>)
    requires Ended(t) && Reservable(t, pos, ne) && Entered(t, t', pos, ne, name, sfn) && ShortsDistinct(t)
    requires forall j: nat :: Live(t, j) ==> t[j][..11] != sfn
    ensures ShortsDistinct(t') && Ended(t') && Live(t', pos + ne - 1)
    ensures forall j :: 0 <= j < |t| && !Blank(t[j]) ==> t'[j] == t[j]
    ensures forall j: nat :: Live(t', j) <==> Live(t, j) || j == pos + ne - 1
  {
    hide KindOf, IsName, IsLfnEntry, SumSfn;
    var last := pos + ne - 1;
    EnteredUsed(t, t', pos, ne, name, sfn);
    EnteredEnded(t, t', pos, ne);
    forall j: nat ensures Live(t', j) <==> Live(t, j) || j == last {
      EnteredLive(t, t', pos, ne, j);
    }
    forall i: nat, j: nat | Live(t', i) && Live(t', j) && i != j ensures t'[i][..11] != t'[j][..11] {
      assert t'[last][..11] == sfn;
    }
  }

  /** The entered entries are in use; only the last is a short one. */
  lemma EnteredUsed(t: seq<Slot>, t': seq<Slot>, pos: nat, ne: nat, name: seq<nat>, sfn: seq<byte>)
    requires Entered(t, t', pos, ne, name, sfn)
    ensures Filled(t', pos, ne)
  {
    hide KindOf, IsName, IsLfnEntry, SumSfn;
    var es := t'[pos..pos + ne - 1];
    forall j | pos <= j < pos + ne - 1 ensures KindOf(t'[j]) == Long {
      assert t'[j] == es[j - pos];
      LongKind(es[j - pos], name, |es| - (j - pos), SumSfn(sfn));
    }
    ShortKind(t'[pos + ne - 1], sfn);
  }

  ghost predicate Filled(t: seq<Slot>, pos: nat, ne: nat) {
    && ne >= 1 && pos + ne <= |t| && KindOf(t[pos + ne - 1]) == Short
    && forall j :: pos <= j < pos + ne - 1 ==> KindOf(t[j]) == Long
  }

  lemma UsedKind(e: Slot)
    ensures KindOf(e) == Short || KindOf(e) == Long ==> e[0] != 0
  {
  }

  lemma EnteredEnded(t: seq<Slot>, t': seq<Slot>, pos: nat, ne: nat)
    requires Ended(t) && Reservable(t, pos, ne) && |t'| == |t| && Filled(t', pos, ne)
    requires forall j :: 0 <= j < |t| && !(pos <= j < pos + ne) ==> t'[j] == t[j]
    ensures Ended(t')
  {
    forall j | pos <= j < pos + ne ensures t'[j][0] != 0 { UsedKind(t'[j]); }
    InUseBefore(t, pos, ne);
  }

  lemma EnteredLive(t: seq<Slot>, t': seq<Slot>, pos: nat, ne: nat, j: nat)
    requires Ended(t) && Reservable(t, pos, ne) && |t'| == |t| && Filled(t', pos, ne)
    requires forall i :: 0 <= i < |t| && !(pos <= i < pos + ne) ==> t'[i] == t[i]
    ensures Live(t', j) <==> Live(t, j) || j == pos + ne - 1
  {
    InUseBefore(t, pos, ne);
    forall i | pos <= i < pos + ne ensures t'[i][0] != 0 && KindOf(t[i]) != Short {
      UsedKind(t'[i]);
      assert Blank(t[i]);
    }
    forall i | 0 <= i < pos ensures t[i][0] != 0 && t'[i] == t[i] { assert KindOf(t[i]) != End; }
  }

  /** With no long name in progress, old check sums and positions do not matter. */
  predicate Idle(st: Scan) { st.ord == 0xFF }

  lemma LookIdle(w: Wanted, up: nat -> nat, e: Slot, k: nat, st: Scan, st': Scan)
    requires Usable(w) && Idle(st) && Idle(st')
    ensures Look(w, up, e, k, st) == Look(w, up, e, k, st') ||
            (Look(w, up, e, k, st).Go? && Look(w, up, e, k, st').Go? &&
             Idle(Look(w, up, e, k, st).scan) && Idle(Look(w, up, e, k, st').scan))
  {
    hide Cmp, Order, SumSfn;
    if !IsLast(e) { NoFlag(At(e, 0)); }
  }

  lemma NoFlag(c: nat)
    requires c < 0x100 && And(c, LLE) == 0
    ensures c != 0xFF
  {
    hide And;
    LowBitSet(3);
    AndHalf(7, 2);
    AndHalf(0xF, 4);
    AndHalf(0x1F, 8);
    AndHalf(0x3F, 0x10);
    AndHalf(0x7F, 0x20);
    AndHalf(0xFF, 0x40);
  }

  lemma LowBitSet(x: nat)
    requires x % 2 == 1
    ensures And(x, 1) != 0
  {
  }

  lemma AndHalf(x: nat, y: nat)
    requires And(x / 2, y / 2) != 0
    ensures And(x, y) != 0
  {
  }

  lemma {:induction false} FindIdle(w: Wanted, up: nat -> nat, t: seq<Slot>, t': seq<Slot>, k: nat, st: Scan, st': Scan)
    requires Usable(w) && |t'| == |t| && k <= |t| && t'[k..] == t[k..] && (st == st' || (Idle(st) && Idle(st')))
    ensures FindFrom(w, up, t', k, st') == FindFrom(w, up, t, k, st)
    decreases |t| - k
  {
    hide Look, Idle;
    if k < |t| {
      assert t'[k] == t'[k..][0] == t[k..][0] == t[k];
      assert t'[k + 1..] == t'[k..][1..] && t[k + 1..] == t[k..][1..];
      if st != st' { LookIdle(w, up, t[k], k, st, st'); }
      var v, v' := Look(w, up, t[k], k, st), Look(w, up, t[k], k, st');
      if v.Go? && v'.Go? { FindIdle(w, up, t, t', k + 1, v.scan, v'.scan); }
    }
  }

  /** Blank entries: either the end mark is among them, or the search comes out idle. */
  lemma {:induction false} ThroughBlank(w: Wanted, up: nat -> nat, t: seq<Slot>, k: nat, n: nat, st: Scan) returns (st': Scan)
    requires Usable(w) && Ended(t) && k + n <= |t| && (forall j :: k <= j < k + n ==> Blank(t[j])) && (n == 0 ==> Idle(st))
    ensures Idle(st') && FindFrom(w, up, t, k, st) == FindFrom(w, up, t, k + n, st')
    decreases n
  {
    st' := st;
    if n > 0 {
      assert Blank(t[k]);
      if t[k][0] == 0 {
        st' := FRESH;
        if k + n < |t| { assert t[k + n][0] == 0; }
        EndStops(w, up, t, k, st);
        EndStops(w, up, t, k + n, st');
      } else {
        VoidGoes(w, up, t, k, st);
        st' := ThroughBlank(w, up, t, k + 1, n - 1, st.(ord := 0xFF));
      }
    }
  }

  lemma EndStops(w: Wanted, up: nat -> nat, t: seq<Slot>, k: nat, st: Scan)
    requires Usable(w) && k <= |t| && (k < |t| ==> t[k][0] == 0)
    ensures FindFrom(w, up, t, k, st) == Miss
  {
  }

  lemma VoidGoes(w: Wanted, up: nat -> nat, t: seq<Slot>, k: nat, st: Scan)
    requires Usable(w) && k < |t| && t[k][0] == DDE
    ensures FindFrom(w, up, t, k, st) == FindFrom(w, up, t, k + 1, st.(ord := 0xFF))
  {
  }

  /** Through the entered entries the search comes out idle too, unless it hits the short one. */
  lemma {:induction false} ThroughEntered(w: Wanted, up: nat -> nat, t: seq<Slot>, k: nat, n: nat, st: Scan) returns (st': Scan)
    requires Usable(w) && Filled(t, k, n)
    ensures Idle(st')
    ensures FindFrom(w, up, t, k, st) == FindFrom(w, up, t, k + n, st') || (FindFrom(w, up, t, k, st).Hit? && FindFrom(w, up, t, k, st).k == k + n - 1)
    decreases n
  {
    hide KindOf, SumSfn, AfterLong;
    st' := FRESH;
    if n == 1 {
      st' := Scan(0xFF, st.sum, 0xFFFF);
    } else {
      assert KindOf(t[k]) == Long;
      var v := Look(w, up, t[k], k, st);
      st' := ThroughEntered(w, up, t, k + 1, n - 1, v.scan);
    }
  }

  lemma {:induction false} StoppedSame(w: Wanted, up: nat -> nat, t: seq<Slot>, t': seq<Slot>, k: nat)
    requires Usable(w) && |t'| == |t| && k <= |t| && t[..k] == t'[..k] && Reach(w, up, t, k).None?
    ensures Find(w, up, t') == Find(w, up, t)
  {
    hide Look;
    if k > 0 {
      assert t[..k - 1] == t[..k][..k - 1] && t'[..k - 1] == t'[..k][..k - 1];
      assert t[k - 1] == t[..k][k - 1] == t'[..k][k - 1] == t'[k - 1];
      if Reach(w, up, t, k - 1).None? {
        StoppedSame(w, up, t, t', k - 1);
      } else {
        ReachSame(w, w, up, t, t', k - 1);
        FindReached(w, up, t, k - 1);
        FindReached(w, up, t', k - 1);
      }
    }
  }

  /** Entering a name does not disturb the lookup of any other name: dir_find gives what it gave before, unless it
      now hits the new entry. */
  lemma OthersFound(w: Wanted, up: nat -> nat, t: seq<Slot>, t': seq<Slot>, pos: nat, ne: nat, name: seq<nat>, sfn: seq<byte>)
    requires Usable(w) && Ended(t) && Reservable(t, pos, ne) && Entered(t, t', pos, ne, name, sfn)
    ensures Find(w, up, t') == Find(w, up, t) || (Find(w, up, t').Hit? && Find(w, up, t').k == pos + ne - 1)
  {
    hide Look, FindFrom, Reach, KindOf, IsName, IsLfnEntry, SumSfn, Idle;
    assert t[..pos] == t'[..pos];
    if Reach(w, up, t, pos).None? {
      StoppedSame(w, up, t, t', pos);
    } else {
      ReachSame(w, w, up, t, t', pos);
      FindReached(w, up, t, pos);
      FindReached(w, up, t', pos);
      var st := Reach(w, up, t, pos).value;
      EnteredUsed(t, t', pos, ne, name, sfn);
      var a := ThroughBlank(w, up, t, pos, ne, st);
      var b := ThroughEntered(w, up, t', pos, ne, st);
      assert t'[pos + ne..] == t[pos + ne..];
      FindIdle(w, up, t, t', pos + ne, a, b);
    }
  }

  /** Any entry of the new long name: the search goes on towards the next one only if all was as expected. */
  lemma LookAnyLong(w: Wanted, up: nat -> nat, e: Slot, k: nat, st: Scan, name: seq<nat>, ord: nat, sum: nat) returns (st': Scan)
    requires Usable(w) && w.lfn.Some? && IsLfnEntry(e, name, ord, sum) && IsName(name)
    requires ord == Segments(|name|) || st.ord == 0xFF || (st.ord == ord && st.sum == sum)
    ensures Look(w, up, e, k, st) == Go(st') && (st'.ord == 0xFF || (Cmp(w.lfn.value, e, up) && st'.ord == ord - 1 && st'.sum == sum))
    ensures ord < Segments(|name|) && st.ord == 0xFF ==> st'.ord == 0xFF
  {
    hide Order, IsLast, Cmp, KindOf;
    LongKind(e, name, ord, sum);
    OrderOf(e, name, ord, sum);
    SegmentsBound(|name|, ord);
    st' := Look(w, up, e, k, st).scan;
  }

  /** With one entry that does not compare equal the search is off the track behind the last one. */
  lemma {:induction false} LongTry(w: Wanted, up: nat -> nat, t: seq<Slot>, pos: nat, es: seq<Slot>, name: seq<nat>, sum: nat, j: nat, st: Scan)
      returns (st': Scan)
    requires Usable(w) && w.lfn.Some? && IsName(name) && pos + |es| <= |t| && t[pos..pos + |es|] == es && IsEntrySet(es, name, sum)
    requires j <= |es| && exists i :: 0 <= i < |es| && !Cmp(w.lfn.value, es[i], up)
    requires j > 0 ==> st.ord == 0xFF || (st.ord == |es| - j && st.sum == sum && forall i :: 0 <= i < j ==> Cmp(w.lfn.value, es[i], up))
    ensures st'.ord == 0xFF && FindFrom(w, up, t, pos + j, st) == FindFrom(w, up, t, pos + |es|, st')
    decreases |es| - j
  {
    hide Look, Cmp, IsName, IsLfnEntry;
    st' := st;
    if j < |es| {
      assert t[pos + j] == es[j];
      var st1 := LookAnyLong(w, up, es[j], pos + j, st, name, |es| - j, sum);
      st' := LongTry(w, up, t, pos, es, name, sum, j + 1, st1);
    }
  }

  lemma {:induction false} FindSame(w: Wanted, sfn: seq<byte>, up: nat -> nat, t: seq<Slot>, k: nat, st: Scan)
    requires Usable(w) && w.loss && |sfn| == 11 && k <= |t|
    ensures FindFrom(w.(fn := sfn), up, t, k, st) == FindFrom(w, up, t, k, st)
    decreases |t| - k
  {
    hide KindOf, AfterLong;
    if k < |t| && Look(w, up, t[k], k, st).Go? { FindSame(w, sfn, up, t, k + 1, Look(w, up, t[k], k, st).scan); }
  }

  /** A shortened name of the greatest length is entered like any other, but dir_find does not find it. */
  lemma FullNameLost(w: Wanted, up: nat -> nat, t: seq<Slot>, t': seq<Slot>, pos: nat, ne: nat, name: seq<nat>, sfn: seq<byte>)
    requires Usable(w) && w.lfn.Some? && w.loss && ne > 1 && Spells(w.lfn.value, name) && |name| == MAX_LFN && IsName(name)
    requires Folds(up) && Find(w, up, t) == Miss && Ended(t) && Reservable(t, pos, ne) && Entered(t, t', pos, ne, name, sfn)
    ensures Usable(w.(fn := sfn)) && Find(w.(fn := sfn), up, t') == Miss
  {
    hide Look, Cmp, KindOf, IsLfnEntry, Spells, IsName, FindFrom, Reach, SumSfn;
    var w', last := w.(fn := sfn), pos + ne - 1;
    FindSame(w, sfn, up, t, 0, FRESH);
    OthersFound(w', up, t, t', pos, ne, name, sfn);
    InUseBefore(t, pos, ne);
    MissReaches(w, up, t, pos);
    assert t[..pos] == t'[..pos];
    ReachSame(w, w', up, t, t', pos);
    FindReached(w', up, t', pos);
    var es := t'[pos..last];
    CmpName(w.lfn.value, name, es, up, name, SumSfn(sfn));
    var st := LongTry(w', up, t', pos, es, name, SumSfn(sfn), 0, Reach(w', up, t', pos).value);
    ShortKind(t'[last], sfn);
    PassShort(w', up, t', last, st);
  }

  lemma PassShort(w: Wanted, up: nat -> nat, t: seq<Slot>, k: nat, st: Scan)
    requires Usable(w) && w.loss && k < |t| && KindOf(t[k]) == Short && st.ord == 0xFF
    ensures FindFrom(w, up, t, k, st).Hit? ==> FindFrom(w, up, t, k, st).k > k
  {
    hide KindOf;
    LaterHit(w, up, t, k + 1, Look(w, up, t[k], k, st).scan);
  }

  lemma {:induction false} LaterHit(w: Wanted, up: nat -> nat, t: seq<Slot>, k: nat, st: Scan)
    requires Usable(w) && k <= |t|
    ensures FindFrom(w, up, t, k, st).Hit? ==> FindFrom(w, up, t, k, st).k >= k
    decreases |t| - k
  {
    hide KindOf, AfterLong;
    if k < |t| && Look(w, up, t[k], k, st).Go? { LaterHit(w, up, t, k + 1, Look(w, up, t[k], k, st).scan); }
  }
}
