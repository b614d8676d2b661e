/** dir_find against the bytes of the table: an entry is the one looked for if its short name is, or if the long entries in
    front of it spell the name. */
module DirSearch {
  import opened Options
  import opened Layout
  import opened Bits
  import opened ByteOrder
  import opened DirEntry
  import opened FileMap
  import opened FileSpec
  import opened LongNames
  import opened DirTable
  import opened DirNames
  import opened DirOps

  /** The entry is neither unused nor deleted, and neither a volume label nor part of a long name. */
  predicate IsFile(e: Slot) {
    e[0] != 0 && e[0] != 0xE5 && e[11] as nat / 8 % 2 == 0
  }

  /** The entry is part of a long name. */
  predicate IsLong(e: Slot) {
    e[0] != 0 && e[0] != 0xE5 && e[11] as nat % 64 == 15
  }

  lemma BitThree(a: nat)
    ensures And(a, 8) == a / 8 % 2 * 8
  {
    assert And(a, 8) == 2 * And(a / 2, 4);
    assert And(a / 2, 4) == 2 * And(a / 4, 2);
    assert And(a / 4, 2) == 2 * And(a / 8, 1);
    assert And(a / 8, 1) == a / 8 % 2 by { AndMask(a / 8, 1); Pow2Values(); }
  }

  lemma AttrBits(a: nat)
    ensures And(a, AM_MASK) == a % 64 && (And(a % 64, AM_VOL) != 0 <==> a / 8 % 2 == 1)
  {
    hide And;
    AndMask(a, 6);
    Pow2Values();
    BitThree(a % 64);
    BitKept(a);
  }

  lemma BitKept(a: nat)
    ensures a % 64 / 8 % 2 == a / 8 % 2
  {
    var q, x := a / 64, a % 64 / 8;
    ModUnique(8 * q + x, a % 64 % 8, 8);
    ModUnique(4 * q + x / 2, x % 2, 2);
  }

  lemma KindBytes(e: Slot)
    ensures KindOf(e) == End <==> e[0] == 0
    ensures KindOf(e) == Short <==> IsFile(e)
    ensures KindOf(e) == Long <==> IsLong(e)
  {
    hide And;
    AttrBits(At(e, LDIR_ATTR));
    BitKept(At(e, LDIR_ATTR));
  }

  /** Order and flag of a long entry, from its first byte. */
  predicate Flagged(e: Slot) { e[0] as nat / 64 % 2 == 1 }

  lemma {:induction false} AndNotUpper(h: nat, l: nat, k: nat)
    requires l < Pow2(k)
    ensures AndNot(h * Pow2(k) + l, Pow2(k)) == AndNot(h, 1) * Pow2(k) + l
    ensures And(h * Pow2(k) + l, Pow2(k)) == And(h, 1) * Pow2(k)
    decreases k
  {
    hide And, AndNot;
    if k != 0 {
      var p := Pow2(k - 1);
      MulDouble(h, p);
      AndNotUpper(h, l / 2, k - 1);
      MulDouble(AndNot(h, 1), p);
      MulDouble(And(h, 1), p);
      HalveBoth(h * p + l / 2, l % 2, p);
    }
  }

  lemma HalveBoth(x: nat, b: nat, p: nat)
    requires b < 2
    ensures AndNot(2 * x + b, 2 * p) == 2 * AndNot(x, p) + b && And(2 * x + b, 2 * p) == 2 * And(x, p)
  {
  }

  lemma OrderBytes(e: Slot)
    ensures IsLast(e) <==> Flagged(e)
    ensures Order(e) == if Flagged(e) then e[0] as nat - 64 else e[0] as nat
  {
    var h, l := e[0] as nat / 64, e[0] as nat % 64;
    Pow2Values();
    AndNotUpper(h, l, 6);
    assert And(h, 1) == h % 2 by { AndMask(h, 1); }
    assert AndNot(h, 1) == h - h % 2 by { AndNotMask(h, 1); }
  }

  /** Character s of a long entry: bytes 1..10, 14..25 and 28..31. */
  function CharAt(e: Slot, s: nat): nat
    requires s < 13
  {
    var o := if s < 5 then 1 + 2 * s else if s < 11 then 4 + 2 * s else 6 + 2 * s;
    e[o] as nat + 256 * e[o + 1] as nat
  }

  lemma CharIs(e: Slot, s: nat)
    requires s < 13
    ensures CharOf(e, s) == CharAt(e, s)
  {
  }

  /** Character r of the entry is that of the buffer at b + r, up to case. */
  ghost predicate Agrees(e: Slot, buf: seq<nat>, up: nat -> nat, b: nat, r: nat) {
    r < 13 && b + r < |buf| && up(CharAt(e, r)) == up(buf[b + r])
  }

  /** Characters s to z - 1 of the entry agree with those of the buffer behind b, up to case; the name ends at z: in front
      of the entry's end a NUL and then filler, or, in the entry at its end, behind it. */
  ghost predicate TellsFrom(e: Slot, buf: seq<nat>, up: nat -> nat, b: nat, s: nat, z: nat) {
    && |buf| == 256 && s <= z <= 13 && b + z <= 255
    && (forall r :: s <= r < z ==> Agrees(e, buf, up, b, r) && up(CharAt(e, r)) != 0)
    && (z < 13 ==> b + z < 255 && Agrees(e, buf, up, b, z) && up(CharAt(e, z)) == 0)
    && FillerFrom(e, z + 1)
    && (z == 13 && Flagged(e) ==> buf[b + 13] == 0)
  }

  ghost predicate TellsOn(e: Slot, buf: seq<nat>, up: nat -> nat, b: nat, s: nat) {
    exists z: nat :: TellsFrom(e, buf, up, b, s, z)
  }

  /** The entry of order n tells the n-th 13 characters of the name in the buffer. */
  ghost predicate Tells(e: Slot, buf: seq<nat>, up: nat -> nat, n: nat) {
    n >= 1 && TellsOn(e, buf, up, 13 * (n - 1), 0)
  }

  ghost predicate FillerFrom(e: Slot, s: nat) {
    forall r :: s <= r < 13 ==> CharAt(e, r) == 0xFFFF
  }

  lemma {:induction false} CmpFiller(buf: seq<nat>, e: Slot, up: nat -> nat, i: nat, s: nat)
    requires |buf| == MAX_LFN + 1 && s <= 13
    ensures CmpFrom(buf, e, up, i, s, 0) <==> FillerFrom(e, s)
    decreases 13 - s
  {
    hide CharOf, CharAt;
    if s < 13 {
      CharIs(e, s);
      CmpFiller(buf, e, up, i, s + 1);
    }
  }

  lemma {:induction false} CmpTellsFrom(buf: seq<nat>, e: Slot, up: nat -> nat, b: nat, s: nat, wc: nat)
    requires |buf| == MAX_LFN + 1 && s <= 13 && wc != 0 && (s > 0 ==> b + s <= 255)
    ensures CmpFrom(buf, e, up, b + s, s, wc) <==> TellsOn(e, buf, up, b, s)
    decreases 13 - s
  {
    hide CharOf, CharAt, IsLast, Flagged, Order, TellsOn, FillerFrom;
    OrderBytes(e);
    if s == 13 {
      LastUnroll(e, buf, up, b);
    } else {
      CharIs(e, s);
      CmpStep(buf, e, up, b, s, wc);
      if b + s < 255 {
        var c := up(CharAt(e, s));
        if c == up(buf[b + s]) {
          if c == 0 { CmpFiller(buf, e, up, b + s + 1, s + 1); } else { CmpTellsFrom(buf, e, up, b, s + 1, c); }
        }
      }
      TellsUnroll(e, buf, up, b, s);
    }
  }

  lemma LastUnroll(e: Slot, buf: seq<nat>, up: nat -> nat, b: nat)
    requires |buf| == 256 && b + 13 <= 255
    ensures TellsOn(e, buf, up, b, 13) <==> (Flagged(e) ==> buf[b + 13] == 0)
  {
    if Flagged(e) ==> buf[b + 13] == 0 { assert TellsFrom(e, buf, up, b, 13, 13); }
  }

  lemma CmpStep(buf: seq<nat>, e: Slot, up: nat -> nat, b: nat, s: nat, wc: nat)
    requires |buf| == MAX_LFN + 1 && s < 13 && wc != 0 && CharOf(e, s) == CharAt(e, s)
    ensures CmpFrom(buf, e, up, b + s, s, wc) <==>
      b + s < 255 && up(CharAt(e, s)) == up(buf[b + s]) && CmpFrom(buf, e, up, b + s + 1, s + 1, up(CharAt(e, s)))
  {
  }

  lemma TellsBack(e: Slot, buf: seq<nat>, up: nat -> nat, b: nat, s: nat, z: nat)
    requires TellsFrom(e, buf, up, b, s + 1, z) && Agrees(e, buf, up, b, s) && up(CharAt(e, s)) != 0
    ensures TellsFrom(e, buf, up, b, s, z)
  {
    hide CharAt, Flagged, FillerFrom;
  }

  lemma TellsUnroll(e: Slot, buf: seq<nat>, up: nat -> nat, b: nat, s: nat)
    requires |buf| == 256 && s < 13
    ensures TellsOn(e, buf, up, b, s) <==>
      && b + s < 255 && up(CharAt(e, s)) == up(buf[b + s])
      && if up(CharAt(e, s)) == 0 then FillerFrom(e, s + 1) else TellsOn(e, buf, up, b, s + 1)
  {
    hide CharAt, Flagged, FillerFrom;
    if TellsOn(e, buf, up, b, s) {
      var z: nat :| TellsFrom(e, buf, up, b, s, z);
      if z > s { assert TellsFrom(e, buf, up, b, s + 1, z); }
    }
    if b + s < 255 && up(CharAt(e, s)) == up(buf[b + s]) {
      if up(CharAt(e, s)) == 0 {
        if FillerFrom(e, s + 1) { assert TellsFrom(e, buf, up, b, s, s); }
      } else if TellsOn(e, buf, up, b, s + 1) {
        var z: nat :| TellsFrom(e, buf, up, b, s + 1, z);
        TellsBack(e, buf, up, b, s, z);
      }
    }
  }

  /** cmp_lfn, by the bytes of the entry. */
  lemma CmpTells(buf: seq<nat>, e: Slot, up: nat -> nat)
    requires |buf| == MAX_LFN + 1
    ensures Cmp(buf, e, up) <==> Tells(e, buf, up, Order(e))
  {
    hide CmpFrom, TellsOn, Order, IsLast;
    if Order(e) > 0 {
      CmpTellsFrom(buf, e, up, 13 * (Order(e) - 1), 0, 1);
    } else {
      OrderZero(buf, e, up);
    }
  }

  lemma OrderZero(buf: seq<nat>, e: Slot, up: nat -> nat)
    requires |buf| == MAX_LFN + 1
    ensures !CmpFrom(buf, e, up, DWORDS - 13, 0, 1)
  {
  }

  /** The entries i to k - 1 are the long entries of orders n, n - 1 and so on, the first with the flag, all with the same
      sum and agreeing with the name in the buffer. */
  ghost predicate InRun(buf: seq<nat>, up: nat -> nat, t: seq<Slot>, i: nat, k: nat, n: nat) {
    && i < k <= |t| && k - i <= n
    && Flagged(t[i]) && t[i][0] as nat == n + 64
    && (forall j :: i < j < k ==> !Flagged(t[j]) && t[j][0] as nat == n - (j - i))
    && (forall j :: i <= j < k ==> IsLong(t[j]) && t[j][13] == t[i][13] && Tells(t[j], buf, up, n - (j - i)))
  }

  /** The long entries directly in front of entry k, from i on, spell the name and have the sum of k's short name. */
  ghost predicate Spelled(buf: seq<nat>, up: nat -> nat, t: seq<Slot>, i: nat, k: nat) {
    i < k < |t| && InRun(buf, up, t, i, k, k - i) && t[i][13] as nat == SumSfn(t[k])
  }

  /** Entry k is one that dir_find is to find. */
  ghost predicate Matches(w: Wanted, up: nat -> nat, t: seq<Slot>, k: nat) {
    && k < |t| && (forall j :: 0 <= j <= k ==> t[j][0] != 0) && IsFile(t[k])
    && ((!w.loss && t[k][..11] == w.fn) || (w.lfn.Some? && exists i :: Spelled(w.lfn.value, up, t, i, k)))
  }

  /** idx is where the long name of entry k starts, 0xFFFF if only its short name agrees. */
  ghost predicate Marks(w: Wanted, up: nat -> nat, t: seq<Slot>, k: nat, idx: nat) {
    if w.lfn.Some? && exists i :: Spelled(w.lfn.value, up, t, i, k) then Spelled(w.lfn.value, up, t, idx, k) else idx == 0xFFFF
  }

  ghost predicate HasSum(t: seq<Slot>, i: nat, sum: nat) {
    i < |t| && t[i][13] as nat == sum
  }

  /** The search state in front of entry k, by the bytes of the table: a long name is in progress exactly if there is a run
      that ends here. */
  ghost predicate Tracks(w: Wanted, up: nat -> nat, t: seq<Slot>, k: nat, st: Scan) {
    && (st.ord != 0xFF ==> w.lfn.Some? && Ongoing(w.lfn.value, up, t, k, st))
    && (w.lfn.Some? ==> forall i: nat, n: nat :: InRun(w.lfn.value, up, t, i, k, n) ==> Follows(t, i, k, n, st))
  }

  ghost predicate Ongoing(buf: seq<nat>, up: nat -> nat, t: seq<Slot>, k: nat, st: Scan) {
    st.lfnIdx < k && HasSum(t, st.lfnIdx, st.sum) && InRun(buf, up, t, st.lfnIdx, k, st.ord + (k - st.lfnIdx))
  }

  /** The state that goes with a run. */
  ghost predicate Follows(t: seq<Slot>, i: nat, k: nat, n: nat, st: Scan) {
    st.ord == n - (k - i) && HasSum(t, i, st.sum) && st.lfnIdx == i
  }

  lemma RunPrefix(buf: seq<nat>, up: nat -> nat, t: seq<Slot>, i: nat, k: nat, n: nat)
    requires InRun(buf, up, t, i, k + 1, n) && i < k
    ensures InRun(buf, up, t, i, k, n)
  {
    hide Flagged, IsLong, Tells;
  }

  lemma RunExtends(buf: seq<nat>, up: nat -> nat, t: seq<Slot>, i: nat, k: nat, n: nat)
    requires i < k ==> InRun(buf, up, t, i, k, n)
    requires i <= k < |t| && k + 1 - i <= n && IsLong(t[k]) && t[k][13] == t[i][13] && Tells(t[k], buf, up, n - (k - i))
    requires if i == k then Flagged(t[k]) && t[k][0] as nat == n + 64 else !Flagged(t[k]) && t[k][0] as nat == n - (k - i)
    ensures InRun(buf, up, t, i, k + 1, n)
  {
    hide Flagged, IsLong, Tells;
  }

  lemma RunLast(buf: seq<nat>, up: nat -> nat, t: seq<Slot>, i: nat, k: nat, n: nat)
    requires InRun(buf, up, t, i, k + 1, n)
    ensures i <= k < |t| && IsLong(t[k]) && t[k][13] == t[i][13] && n - (k - i) >= 1 && Tells(t[k], buf, up, n - (k - i))
    ensures if i == k then Flagged(t[k]) && t[k][0] as nat == n + 64 else !Flagged(t[k]) && t[k][0] as nat == n - (k - i)
  {
    hide Flagged, IsLong, Tells;
  }

  /** The first entry of a long name, by its bytes. */
  lemma AfterFirst(buf: seq<nat>, up: nat -> nat, e: Slot, k: nat, st: Scan, st': Scan)
    requires |buf| == MAX_LFN + 1 && Flagged(e) && st' == AfterLong(buf, up, e, k, st)
    ensures st'.sum == e[13] as nat && st'.lfnIdx == k
    ensures if Tells(e, buf, up, e[0] as nat - 64) then st'.ord == e[0] as nat - 65 < 0xFF else st'.ord == 0xFF
  {
    hide Cmp, Tells, Order, IsLast;
    OrderBytes(e);
    CmpTells(buf, e, up);
    TellsPositive(e, buf, up, Order(e));
  }

  /** One more entry of a long name, by its bytes. */
  lemma AfterNext(buf: seq<nat>, up: nat -> nat, e: Slot, k: nat, st: Scan, st': Scan)
    requires |buf| == MAX_LFN + 1 && !Flagged(e) && st' == AfterLong(buf, up, e, k, st)
    ensures st'.sum == st.sum && st'.lfnIdx == st.lfnIdx
    ensures if e[0] as nat == st.ord && st.sum == e[13] as nat && Tells(e, buf, up, e[0] as nat) then st'.ord == e[0] as nat - 1 < 0xFF && st.ord != 0xFF
            else st'.ord == 0xFF
  {
    hide Cmp, Tells, Order, IsLast;
    OrderBytes(e);
    CmpTells(buf, e, up);
    TellsPositive(e, buf, up, Order(e));
  }

  lemma TellsPositive(e: Slot, buf: seq<nat>, up: nat -> nat, n: nat)
    ensures Tells(e, buf, up, n) ==> n >= 1
  {
  }

  lemma TrackLong(w: Wanted, up: nat -> nat, t: seq<Slot>, k: nat, st: Scan, st': Scan)
    requires Usable(w) && w.lfn.Some? && k < |t| && IsLong(t[k]) && Tracks(w, up, t, k, st)
    requires st' == AfterLong(w.lfn.value, up, t[k], k, st)
    ensures Tracks(w, up, t, k + 1, st')
  {
    hide InRun, AfterLong, IsLong, Tells, Flagged;
    var buf, e := w.lfn.value, t[k];
    if Flagged(e) { AfterFirst(buf, up, e, k, st, st'); } else { AfterNext(buf, up, e, k, st, st'); }
    if st'.ord != 0xFF { RunExtends(buf, up, t, st'.lfnIdx, k, st'.ord + (k + 1 - st'.lfnIdx)); }
    var m := k + 1;
    forall i: nat, n: nat | InRun(buf, up, t, i, m, n) ensures Follows(t, i, m, n, st') {
      RunLast(buf, up, t, i, k, n);
      if i < k {
        RunPrefix(buf, up, t, i, k, n);
        assert Follows(t, i, k, n, st);
      }
    }
  }

  /** An entry that is not part of a long name ends every run. */
  lemma TrackOther(w: Wanted, up: nat -> nat, t: seq<Slot>, k: nat, st: Scan)
    requires Usable(w) && k < |t| && (!IsLong(t[k]) || w.lfn.None?) && st.ord == 0xFF
    ensures Tracks(w, up, t, k + 1, st)
  {
    hide Tells, IsLong, InRun;
    if w.lfn.Some? {
      var m := k + 1;
      forall i: nat, n: nat ensures !InRun(w.lfn.value, up, t, i, m, n) { RunEnds(w.lfn.value, up, t, i, k, n); }
    }
  }

  lemma RunEnds(buf: seq<nat>, up: nat -> nat, t: seq<Slot>, i: nat, k: nat, n: nat)
    requires k < |t| && !IsLong(t[k])
    ensures !InRun(buf, up, t, i, k + 1, n)
  {
    hide Tells, IsLong;
  }

  /** What dir_find makes of entry k. */
  lemma LookBytes(w: Wanted, up: nat -> nat, t: seq<Slot>, k: nat, st: Scan)
    requires Usable(w) && k < |t| && Tracks(w, up, t, k, st) && forall j :: 0 <= j < k ==> t[j][0] != 0
    ensures var v := Look(w, up, t[k], k, st);
      && (v == Miss <==> t[k][0] == 0) && (v.Hit? <==> Matches(w, up, t, k)) && (v.Go? ==> Tracks(w, up, t, k + 1, v.scan))
      && (v.Hit? ==> v.k == k && Marks(w, up, t, k, v.lfnIdx))
  {
    hide KindOf, InRun, AfterLong, IsLong, IsFile, Tells, SumSfn;
    KindBytes(t[k]);
    KindsApart(t[k]);
    match KindOf(t[k])
    case End =>
    case Void => TrackOther(w, up, t, k, st.(ord := 0xFF));
    case Long => if w.lfn.Some? { TrackLong(w, up, t, k, st, AfterLong(w.lfn.value, up, t[k], k, st)); } else { TrackOther(w, up, t, k, st); }
    case Short => LookFile(w, up, t, k, st);
  }

  lemma KindsApart(e: Slot)
    ensures !(IsLong(e) && IsFile(e)) && (IsFile(e) ==> e[0] != 0)
  {
  }

  lemma LookFile(w: Wanted, up: nat -> nat, t: seq<Slot>, k: nat, st: Scan)
    requires Usable(w) && k < |t| && Tracks(w, up, t, k, st) && (forall j :: 0 <= j < k ==> t[j][0] != 0)
    requires IsFile(t[k]) && KindOf(t[k]) == Short && !IsLong(t[k]) && t[k][0] != 0
    ensures var v := Look(w, up, t[k], k, st);
      && !v.Miss? && (v.Hit? <==> Matches(w, up, t, k)) && (v.Go? ==> Tracks(w, up, t, k + 1, v.scan))
      && (v.Hit? ==> v.k == k && Marks(w, up, t, k, v.lfnIdx))
  {
    hide KindOf, InRun, IsLong, IsFile, Tells, SumSfn;
    if st.ord == 0 && st.sum == SumSfn(t[k]) {
      assert Spelled(w.lfn.value, up, t, st.lfnIdx, k);
    } else {
      if w.lfn.Some? {
        forall i: nat ensures !Spelled(w.lfn.value, up, t, i, k) {
          if i < k && InRun(w.lfn.value, up, t, i, k, k - i) { assert Follows(t, i, k, k - i, st); }
        }
      }
      if !(!w.loss && t[k][..11] == w.fn) { TrackOther(w, up, t, k, Scan(0xFF, st.sum, 0xFFFF)); }
    }
  }

  lemma {:induction false} FindFromBytes(w: Wanted, up: nat -> nat, t: seq<Slot>, k: nat, st: Scan)
    requires Usable(w) && k <= |t| && Tracks(w, up, t, k, st) && (forall j :: 0 <= j < k ==> t[j][0] != 0)
    requires forall j: nat :: j < k ==> !Matches(w, up, t, j)
    ensures var v := FindFrom(w, up, t, k, st);
      && (v.Hit? ==> Matches(w, up, t, v.k) && Marks(w, up, t, v.k, v.lfnIdx) && forall j: nat :: j < v.k ==> !Matches(w, up, t, j))
      && (!v.Hit? ==> v == Miss && forall j: nat :: !Matches(w, up, t, j))
    decreases |t| - k
  {
    hide Look, Tracks, Spelled;
    if k < |t| {
      LookBytes(w, up, t, k, st);
      var v := Look(w, up, t[k], k, st);
      if v.Go? {
        FindFromBytes(w, up, t, k + 1, v.scan);
      } else if v.Miss? {
        forall j: nat ensures !Matches(w, up, t, j) { Hidden(w, up, t, k, j); }
      }
    }
  }

  lemma Hidden(w: Wanted, up: nat -> nat, t: seq<Slot>, k: nat, j: nat)
    requires k < |t| && t[k][0] == 0
    ensures j >= k ==> !Matches(w, up, t, j)
  {
  }

  /** dir_find hits the first entry that is to be found, and misses only if there is none. With the hit comes where its
      long name starts, 0xFFFF if the short name alone agreed. */
  lemma FindIsFirst(w: Wanted, up: nat -> nat, t: seq<Slot>)
    requires Usable(w)
    ensures var v := Find(w, up, t);
      && (v.Hit? ==> Matches(w, up, t, v.k) && Marks(w, up, t, v.k, v.lfnIdx) && forall j: nat :: j < v.k ==> !Matches(w, up, t, j))
      && (!v.Hit? ==> v == Miss && forall j: nat :: !Matches(w, up, t, j))
  {
    hide FindFrom, Matches;
    assert Tracks(w, up, t, 0, FRESH);
    FindFromBytes(w, up, t, 0, FRESH);
  }

  /** The entry as f_sync can leave it. */
  ghost predicate Restamped(e: Slot, e': Slot) {
    && (forall i :: 0 <= i < 20 && i != 11 ==> e'[i] == e[i])
    && (e'[11] == e[11] || e'[11] as nat == Marked(e[11] as nat))
  }

  lemma RestampedLooks(w: Wanted, up: nat -> nat, e: Slot, e': Slot, k: nat, st: Scan)
    requires Usable(w) && IsFile(e) && Restamped(e, e')
    ensures IsFile(e') && Look(w, up, e', k, st) == Look(w, up, e, k, st)
  {
    hide KindOf, SumSfn;
    MarkedKeeps(e[11] as nat);
    KindBytes(e);
    KindBytes(e');
    assert e'[..11] == e[..11];
    SameSum(e, e');
  }

  lemma MarkedKeeps(a: nat)
    ensures Marked(a) / 8 % 2 == a / 8 % 2
  {
    ModUnique(a / 8 + 4, a % 8, 8);
    ModUnique(a / 8 / 2 + 2, a / 8 % 2, 2);
  }

  lemma SameSum(e: Slot, e': Slot)
    requires e'[..11] == e[..11]
    ensures SumSfn(e') == SumSfn(e)
  {
    SumPrefix(e, e[..11], 11);
    SumPrefix(e', e[..11], 11);
  }

  lemma {:induction false} RestampedFrom(w: Wanted, up: nat -> nat, t: seq<Slot>, t': seq<Slot>, k: nat, j: nat, st: Scan)
    requires Usable(w) && k < |t| == |t'| && j <= |t| && IsFile(t[k]) && Restamped(t[k], t'[k])
    requires forall i :: 0 <= i < |t| && i != k ==> t'[i] == t[i]
    ensures FindFrom(w, up, t', j, st) == FindFrom(w, up, t, j, st)
    decreases |t| - j
  {
    hide Look, IsFile, Restamped;
    if j < |t| {
      if j == k { RestampedLooks(w, up, t[k], t'[k], k, st); }
      var v := Look(w, up, t[j], j, st);
      if v.Go? { RestampedFrom(w, up, t, t', k, j + 1, v.scan); }
    }
  }

  lemma SlotRestamped(x: Sector, y: Sector, o: nat)
    requires EntryOnly(x, y, o) && o + SZ_DIR <= SS
    ensures Restamped(SlotOf(x, o), SlotOf(y, o)) && Only(x, y, o, SZ_DIR)
  {
    assert forall i :: 0 <= i < 32 ==> SlotOf(x, o)[i] == x[o + i] && SlotOf(y, o)[i] == y[o + i];
  }

  /** f_sync of the file at entry k of a directory changes no search in that directory: what was found is still found,
      at the same entry, and what was not is not. */
  lemma SyncKeepsNames(w: Wanted, up: nat -> nat, d: seq<Sector>, d': seq<Sector>, home: seq<nat>, k: nat)
    requires Usable(w) && OnDisk(d, home) && Distinct(home) && |d'| == |d|
    requires k < |Entries(d, home)| && IsFile(Entries(d, home)[k])
    requires forall s :: s in home && s != home[SecOf(k)] ==> d'[s] == d[s]
    requires EntryOnly(d[home[SecOf(k)]], d'[home[SecOf(k)]], OfsOf(k))
    ensures OnDisk(d', home) && Find(w, up, Entries(d', home)) == Find(w, up, Entries(d, home))
  {
    hide Entries, FindFrom, EntryOnly, IsFile, Restamped, Only, SlotOf, SecOf, OfsOf;
    var s := home[SecOf(k)];
    SlotRestamped(d[s], d'[s], OfsOf(k));
    EntriesUpdate(d, home, k, d'[s]);
    var e := d[s := d'[s]];
    assert forall q :: 0 <= q < |home| ==> home[q] in home && d'[home[q]] == e[home[q]];
    assert Entries(d', home) == Entries(e, home);
    RestampedFrom(w, up, Entries(d, home), Entries(d', home), k, 0, FRESH);
  }

  /** The entry fit_lfn stores, byte by byte. */
  lemma LfnEntryBytes(e: Slot, name: seq<nat>, n: nat, sum: nat)
    requires IsLfnEntry(e, name, n, sum) && IsName(name)
    ensures e[0] as nat == n + (if 13 * n >= |name| then 64 else 0) && e[11] == 15 && e[12] == 0 && e[13] as nat == sum
    ensures e[26] == 0 && e[27] == 0
    ensures forall s: nat :: s < 13 ==> CharAt(e, s) == Padded(name, 13 * (n - 1) + s)
  {
    hide CharOf, CharAt;
    SegmentsBound(|name|, n);
    forall s: nat | s < 13 ensures CharAt(e, s) == Padded(name, 13 * (n - 1) + s) { CharIs(e, s); }
  }

  /** An n-bit number rotated right by one. */
  function Rotated(v: nat, n: nat): nat {
    v / 2 + (if v % 2 == 1 then Pow2(n) / 2 else 0)
  }

  lemma RotateIs(v: nat, b: nat)
    ensures (v / 2 + v * 0x80 + b) % 0x100 == (Rotated(v, 8) + b) % 0x100
    ensures (v / 2 + v * 0x8000 + b) % 0x1_0000 == (Rotated(v, 16) + b) % 0x1_0000
  {
    Pow2Values();
    Pow2Wide();
    var q := v / 2;
    assert v * 0x80 == q * 0x100 + v % 2 * 0x80 && v * 0x8000 == q * 0x1_0000 + v % 2 * 0x8000;
    ModPlus(q + v % 2 * 0x80 + b, q, 0x100);
    ModPlus(q + v % 2 * 0x8000 + b, q, 0x1_0000);
  }

  lemma ModPlus(x: nat, q: nat, m: nat)
    requires m > 0
    ensures (x + q * m) % m == x % m
  {
    DivModId(x, m);
    MulAdd(x / m, q, m);
    ModUnique(x / m + q, x % m, m);
  }

  /** Every byte of the name is added to the sum so far, rotated right by one bit. */
  lemma SumSteps(s: seq<byte>, n: nat)
    requires n < |s|
    ensures SumFrom(s, 0) == 0 && SumFrom(s, n + 1) == (Rotated(SumFrom(s, n), 8) + s[n] as nat) % 0x100
  {
    RotateIs(SumFrom(s, n), s[n] as nat);
  }

  /** The number n with every character of the name added, each after a rotation right by one bit. */
  ghost function Mixed(name: seq<nat>, n: nat): nat {
    if name == [] then n else (Rotated(Mixed(name[..|name| - 1], n), 16) + name[|name| - 1]) % 0x1_0000
  }

  lemma {:induction false} HashIsMixed(name: seq<nat>, i: nat, n: nat)
    requires i <= |name|
    ensures HashFrom(name, i, Mixed(name[..i], n)) == Mixed(name, n)
    decreases |name| - i
  {
    if i == |name| {
      assert name[..i] == name;
    } else {
      assert name[..i + 1][..i] == name[..i];
      RotateIs(Mixed(name[..i], n), name[i]);
      HashIsMixed(name, i + 1, n);
    }
  }

  /** The number that gen_numname appends: up to 5 the given one, from 6 on the hash of the name. */
  lemma NumberIs(name: seq<nat>, n: nat)
    requires n < 100
    ensures NumberOf(name, n) == if n <= 5 then n else Mixed(name, n)
  {
    assert name[..0] == [];
    HashIsMixed(name, 0, n);
  }

  /** The number that upper-case hexadecimal digits stand for. */
  ghost function ValueOf(h: seq<byte>): int {
    if h == [] then 0
    else 16 * ValueOf(h[..|h| - 1]) + (if h[|h| - 1] <= 0x39 then h[|h| - 1] as int - 0x30 else h[|h| - 1] as int - 0x37)
  }

  lemma {:induction false} HexValue(v: nat)
    ensures ValueOf(Hex(v)) == v && (v > 0 ==> Hex(v)[0] != 0x30)
    ensures forall i :: 0 <= i < |Hex(v)| ==> 0x30 <= Hex(v)[i] <= 0x39 || 0x41 <= Hex(v)[i] <= 0x46
  {
    var h := Hex(v);
    if v >= 16 {
      HexValue(v / 16);
      assert h[..|h| - 1] == Hex(v / 16);
    } else {
      assert h[..|h| - 1] == [];
    }
  }

  /** LONGFILE.TXT with number 1 is LONGFI~1.TXT. */
  lemma NumberedExample(src: seq<byte>)
    requires src == [0x4C, 0x4F, 0x4E, 0x47, 0x46, 0x49, 0x4C, 0x45, 0x54, 0x58, 0x54]
    ensures |Hex(1)| == 1 && Numbered(src, 1) == src[..6] + [0x7E, 0x31] + src[8..]
  {
    hide Cut;
    assert Hex(1) == [0x31] && Cut(src, 6) == 6;
    assert Spaces(0) == [];
  }

  /** The sum of the short name README.TXT. */
  lemma SumOfReadme(s: seq<byte>)
    requires s == [0x52, 0x45, 0x41, 0x44, 0x4D, 0x45, 0x20, 0x20, 0x54, 0x58, 0x54]
    ensures SumSfn(s) == 115
  {
    assert SumFrom(s, 1) == 82;
    assert SumFrom(s, 2) == 110;
    assert SumFrom(s, 3) == 120;
    assert SumFrom(s, 4) == 128;
    assert SumFrom(s, 5) == 141;
    assert SumFrom(s, 6) == 11;
    assert SumFrom(s, 7) == 165;
    assert SumFrom(s, 8) == 242;
    assert SumFrom(s, 9) == 205;
    assert SumFrom(s, 10) == 62;
  }
}
