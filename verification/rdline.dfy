/** The line editor: a buffer edited in place, and the bytes sent to the terminal for each key. */
module LineEditor {
  import opened Layout
  import opened Terminal

  method Swap(a: array<byte>, i: nat, j: nat)
    requires i < a.Length && j < a.Length
    modifies a
    ensures a[..] == old(a[..])[i := old(a[j])][j := old(a[i])]
  {
    var t := a[i];
    a[i] := a[j];
    a[j] := t;
  }

  function Reversed(s: seq<byte>): (r: seq<byte>)
    ensures |r| == |s| && forall i :: 0 <= i < |s| ==> r[i] == s[|s| - 1 - i]
  {
    seq(|s|, i requires 0 <= i < |s| => s[|s| - 1 - i])
  }

  /** rev: reverse n bytes from o on, in place. */
  method Rev(a: array<byte>, o: nat, n: nat)
    requires n > 0 && o + n <= a.Length
    modifies a
    ensures a[o..o + n] == Reversed(old(a[o..o + n]))
    ensures forall i :: 0 <= i < a.Length && !(o <= i < o + n) ==> a[i] == old(a[i])
  {
    var i, j := o, o + n - 1;
    while i < j
      invariant o <= i <= j + 1 && j == o + n - 1 - (i - o)
      invariant forall k :: 0 <= k < a.Length ==>
        a[k] == if o <= k < i || j < k < o + n then old(a[o + n - 1 - (k - o)]) else old(a[k])
    {
      Swap(a, i, j);
      i, j := i + 1, j - 1;
    }
  }

  /** Decimal digits, least significant first. */
  function LowFirst(n: nat): (d: seq<byte>)
    ensures |d| >= 1
  {
    if n < 10 then [Ascii(n)] else [Ascii(n % 10)] + LowFirst(n / 10)
  }

  lemma {:induction false} LowFirstReversed(n: nat)
    ensures Reversed(LowFirst(n)) == Decimal(n)
  {
    if n >= 10 {
      LowFirstReversed(n / 10);
      assert Reversed([Ascii(n % 10)] + LowFirst(n / 10)) == Reversed(LowFirst(n / 10)) + [Ascii(n % 10)];
    }
  }

  /** Ten to the k. */
  function Ten(k: nat): nat { if k == 0 then 1 else 10 * Ten(k - 1) }

  lemma {:induction false} DigitCount(n: nat, k: nat)
    requires k >= 1 && n < Ten(k)
    ensures |LowFirst(n)| <= k
  {
    if n >= 10 {
      assert k > 1 by { assert Ten(1) == 10; }
      DigitCount(n / 10, k - 1);
    }
  }

  lemma WordDigits(n: nat)
    requires n < DWORDS
    ensures |LowFirst(n)| <= 10
  {
    assert Ten(5) == 100000 by { assert Ten(3) == 1000; assert Ten(4) == 10000; }
    assert Ten(7) == 10000000 && Ten(10) == 10000000000 by { assert Ten(6) == 1000000; assert Ten(8) == 100000000; assert Ten(9) == 1000000000; }
    DigitCount(n, 10);
  }

  /** convascii: the decimal digits of n at o. */
  method Convascii(a: array<byte>, o: nat, n: nat) returns (cnt: nat)
    requires o + 10 <= a.Length && n < DWORDS
    modifies a
    ensures 0 < cnt <= 10 && a[o..o + cnt] == Decimal(n)
    ensures forall i :: 0 <= i < o ==> a[i] == old(a[i])
  {
    hide *;
    cnt := 0;
    var m := n;
    SpeltStart(n);
    ghost var d: seq<byte> := [];
    while m >= 10
      invariant 0 <= cnt && m >= 0 && o + cnt <= a.Length && a[o..o + cnt] == d && Spelt(d, m, n)
      invariant forall i :: 0 <= i < o ==> a[i] == old(a[i])
      decreases m
    {
      SpeltStep(d, m, n);
      PutDigit(a, o, cnt, m % 10);
      d := d + [Ascii(m % 10)];
      cnt := cnt + 1;
      m := m / 10;
    }
    SpeltStep(d, m, n);
    PutDigit(a, o, cnt, m);
    cnt := cnt + 1;
    Rev(a, o, cnt);
  }

  /** d are the digits of n that come before those of m. */
  ghost predicate Spelt(d: seq<byte>, m: nat, n: nat) {
    LowFirst(n) == d + LowFirst(m) && |LowFirst(n)| <= 10
  }

  lemma SpeltStart(n: nat)
    requires n < DWORDS
    ensures Spelt([], n, n)
  {
    WordDigits(n);
  }

  lemma SpeltStep(d: seq<byte>, m: nat, n: nat)
    requires Spelt(d, m, n)
    ensures |d| < 10 && (m >= 10 ==> Spelt(d + [Ascii(m % 10)], m / 10, n) && m / 10 < m)
    ensures m < 10 ==> Reversed(d + [Ascii(m)]) == Decimal(n)
  {
    hide LowFirst, Decimal;
    LowStep(m, d);
    LowFirstReversed(n);
  }

  lemma LowUnfold(m: nat)
    ensures m >= 10 ==> LowFirst(m) == [Ascii(m % 10)] + LowFirst(m / 10)
    ensures m < 10 ==> LowFirst(m) == [Ascii(m % 10)]
  {
  }

  lemma LowStep(m: nat, d: seq<byte>)
    ensures |LowFirst(m)| >= 1
    ensures m >= 10 ==> d + LowFirst(m) == (d + [Ascii(m % 10)]) + LowFirst(m / 10) && |LowFirst(m)| == 1 + |LowFirst(m / 10)|
    ensures m < 10 ==> d + LowFirst(m) == d + [Ascii(m % 10)]
  {
    hide *;
    LowUnfold(m);
  }

  method PutDigit(a: array<byte>, o: nat, cnt: nat, d: nat)
    requires o + cnt < a.Length && d < 10
    modifies a
    ensures a[o..o + cnt + 1] == old(a[o..o + cnt]) + [Ascii(d)]
    ensures forall i :: 0 <= i < a.Length && i != o + cnt ==> a[i] == old(a[i])
  {
    a[o + cnt] := Ascii(d);
  }

  /** A text with a cursor. */
  datatype Line = Line(text: seq<byte>, pos: nat)

  class Editor {
    const buf: array<byte>
    var pos: nat
    var len: nat
    var out: seq<byte>          // everything put so far
    ghost var screen: Term      // what the terminal shows

    /** rdline_clear at the start of a line, on a blank terminal line. */
    constructor (size: nat)
      requires 0 < size < 0x8000_0000
      ensures Valid() && InStep() && Shown() == Line([], 0) && buf.Length == size && fresh(buf)
    {
      buf := new byte[size](_ => 0);
      pos, len, out, screen := 0, 0, [], BLANK;
      new;
      assert buf[..0] == [];
    }

    /** The screen is what the bytes sent make of a blank line. */
    ghost predicate Wired()
      reads this`out, this`screen
    {
      screen == Feed(BLANK, out)
    }

    /** The buffer holds a NUL-terminated text, and the cursor is in it. */
    ghost predicate Valid()
      reads this`pos, this`len, buf
    {
      buf.Length < 0x8000_0000 && pos <= len < buf.Length && buf[len] == 0 && Text(buf[..len])
    }

    ghost function Shown(): Line
      requires Valid()
      reads this`pos, this`len, buf
    {
      Line(buf[..len], pos)
    }

    /** The terminal shows the text, with its cursor at pos. */
    ghost predicate InStep()
      requires Valid()
      reads this, buf
    {
      Wired() && screen == Term(buf[..len], pos, Ground)
    }
  }

  /** io->put */
  method Put(e: Editor, b: byte)
    requires e.Wired()
    modifies e`out, e`screen
    ensures e.Wired() && e.screen == Step(old(e.screen), b) && e.out == old(e.out) + [b]
  {
    FeedConcat(BLANK, e.out, [b]);
    FeedOne(e.screen, b);
    e.out := e.out + [b];
    e.screen := Step(e.screen, b);
  }

  /** rdline_write */
  method WriteBytes(e: Editor, a: array<byte>, n: nat)
    requires e.Wired() && n <= a.Length
    modifies e`out, e`screen
    ensures e.Wired() && e.screen == Feed(old(e.screen), a[..n])
  {
    var i := 0;
    assert a[..0] == [];
    while i < n
      invariant 0 <= i <= n && e.Wired() && e.screen == Feed(old(e.screen), a[..i])
    {
      assert a[..i + 1][..i] == a[..i];
      Put(e, a[i]);
      i := i + 1;
    }
  }

  /** do_move */
  method DoMove(e: Editor, n: nat, dir: byte)
    requires e.Wired() && n < DWORDS
    modifies e`out, e`screen
    ensures e.Wired() && e.screen == Feed(old(e.screen), [ESC, BRACKET] + Decimal(n) + [dir])
  {
    hide Decimal, Feed;
    var b := new byte[15](_ => 0);
    b[0], b[1] := ESC, BRACKET;
    var l := Convascii(b, 2, n);
    l := l + 2;
    b[l] := dir;
    assert b[..l + 1] == [ESC, BRACKET] + b[2..l] + [dir];
    WriteBytes(e, b, l + 1);
  }

  method MoveLeft(e: Editor, n: nat)
    requires e.Wired() && n < DWORDS && e.screen.mode == Ground && n <= e.screen.cur
    modifies e`out, e`screen
    ensures e.Wired() && e.screen == old(e.screen).(cur := old(e.screen).cur - n)
  {
    hide Feed, Decimal;
    if n > 0 {
      FeedMove(e.screen, n, LEFT);
      DoMove(e, n, LEFT);
    }
  }

  method MoveRight(e: Editor, n: nat)
    requires e.Wired() && n < DWORDS && e.screen.mode == Ground
    modifies e`out, e`screen
    ensures e.Wired() && e.screen == old(e.screen).(cur := old(e.screen).cur + n)
  {
    hide Feed, Decimal;
    if n > 0 {
      FeedMove(e.screen, n, RIGHT);
      DoMove(e, n, RIGHT);
    }
  }

  method ClearLine(e: Editor)
    requires e.Wired() && e.screen.mode == Ground && e.screen.cur <= |e.screen.cells|
    modifies e`out, e`screen
    ensures e.Wired() && e.screen == old(e.screen).(cells := old(e.screen).cells[..old(e.screen).cur])
  {
    hide Feed;
    FeedErase(e.screen);
    var b := new byte[][ESC, BRACKET, ERASE];
    assert b[..3] == [ESC, BRACKET, ERASE];
    WriteBytes(e, b, 3);
  }

  /** print_line: the NUL-terminated text from pos on, with the cursor back at pos afterwards. n is where the NUL is. */
  method PrintLine(e: Editor, ghost n: nat)
    requires e.Wired() && e.pos <= n < e.buf.Length < 0x8000_0000 && e.buf[n] == 0 && Text(e.buf[e.pos..n])
    requires e.screen.mode == Ground && e.screen.cur == e.pos <= |e.screen.cells| <= n
    modifies e`out, e`screen
    ensures e.Wired() && e.screen == Term(old(e.screen).cells[..e.pos] + e.buf[e.pos..n], e.pos, Ground)
  {
    hide Feed;
    ghost var t := e.screen;
    var i := 0;
    FeedNothing(t);
    assert e.buf[e.pos..e.pos] == [];
    while e.buf[e.pos + i] != 0
      invariant 0 <= i && e.pos + i <= n && e.Wired() && e.screen == Feed(t, e.buf[e.pos..e.pos + i])
      decreases n - i
    {
      FeedMore(t, e.buf[e.pos..e.pos + i], e.buf[e.pos + i]);
      assert e.buf[e.pos..e.pos + i + 1] == e.buf[e.pos..e.pos + i] + [e.buf[e.pos + i]];
      Put(e, e.buf[e.pos + i]);
      i := i + 1;
    }
    TextNoNul(e.buf[e.pos..n], i, e.buf[e.pos + i]);
    FeedText(t, e.buf[e.pos..n]);
    if i > 0 { MoveLeft(e, i); }
  }

  lemma FeedNothing(t: Term)
    ensures Feed(t, []) == t
  {
  }

  lemma FeedMore(t: Term, s: seq<byte>, b: byte)
    ensures Feed(t, s + [b]) == Step(Feed(t, s), b)
  {
    assert (s + [b])[..|s|] == s;
  }

  lemma TextNoNul(s: seq<byte>, i: nat, b: byte)
    requires Text(s) && i <= |s| && (i < |s| ==> b == s[i])
    ensures b == 0 && i <= |s| ==> i == |s|
  {
  }

  /** b is a with the elements from p up to n moved one place up. */
  ghost predicate MovedUp(a: seq<byte>, b: seq<byte>, p: nat, n: nat) {
    && |a| == |b| && p <= n + 1 <= |a| - 1
    && (forall k :: 0 <= k < |a| && !(p < k <= n + 1) ==> b[k] == a[k])
    && (forall k :: p < k <= n + 1 ==> b[k] == a[k - 1])
  }

  lemma MovedUpText(a: seq<byte>, b: seq<byte>, p: nat, n: nat, c: byte)
    requires MovedUp(a, b, p, n) && p <= n
    ensures b[p := c][..n + 1] == a[..p] + [c] + a[p..n] && b[p := c][n + 1] == a[n]
  {
    var r, s := b[p := c][..n + 1], a[..p] + [c] + a[p..n];
    forall k | 0 <= k < n + 1 ensures r[k] == s[k] {
      if k > p { assert s[k] == a[p..n][k - p - 1]; }
    }
  }

  lemma MovedUpStart(a: seq<byte>, n: nat)
    requires n + 1 < |a|
    ensures MovedUp(a, a, n + 1, n)
  {
  }

  lemma MovedUpStep(a: seq<byte>, b: seq<byte>, p: nat, n: nat)
    requires MovedUp(a, b, p + 1, n)
    ensures p + 1 < |b| && b[p] == a[p] && MovedUp(a, b[p + 1 := a[p]], p, n)
  {
  }

  /** insert_char: make room at pos by moving the rest, NUL included. */
  method InsertChar(e: Editor, c: byte)
    requires e.Valid() && e.len + 1 < e.buf.Length
    modifies e.buf
    ensures e.buf[..e.len + 1] == old(e.buf[..e.pos]) + [c] + old(e.buf[e.pos..e.len]) && e.buf[e.len + 1] == 0
  {
    hide MovedUp;
    ghost var a, n := e.buf[..], e.len;
    var max := e.len;
    MovedUpStart(a, n);
    while max >= e.pos
      invariant e.pos - 1 <= max <= e.len && MovedUp(a, e.buf[..], (max + 1) as nat, n)
    {
      ghost var b := e.buf[..];
      MovedUpStep(a, b, max, n);
      e.buf[max + 1] := e.buf[max];
      assert e.buf[..] == b[max + 1 := a[max]];
      max := max - 1;
    }
    ghost var b := e.buf[..];
    MovedUpText(a, b, e.pos, n, c);
    e.buf[e.pos] := c;
    assert e.buf[..] == b[e.pos := c];
    assert a[..e.pos] == old(e.buf[..e.pos]) && a[e.pos..n] == old(e.buf[e.pos..e.len]);
    assert e.buf[..][..n + 1] == e.buf[..n + 1] && e.buf[..][n + 1] == e.buf[n + 1];
  }

  /** The part of a from p + 1 up to q has moved down by one. */
  ghost predicate MovedDown(a: seq<byte>, b: seq<byte>, p: nat, q: nat) {
    && |b| == |a| && p <= q < |a|
    && (forall k :: p <= k < q ==> b[k] == a[k + 1])
    && (forall k :: 0 <= k < |a| && !(p <= k < q) ==> b[k] == a[k])
  }

  lemma MovedDownStep(a: seq<byte>, b: seq<byte>, p: nat, q: nat)
    requires MovedDown(a, b, p, q) && q + 1 < |a|
    ensures b[q + 1] == a[q + 1] && MovedDown(a, b[q := a[q + 1]], p, q + 1)
  {
  }

  lemma MovedDownText(a: seq<byte>, b: seq<byte>, p: nat, n: nat)
    requires MovedDown(a, b, p, n) && p < n
    ensures b[n := 0][..n - 1] == a[..p] + a[p + 1..n] && b[n - 1] == a[n]
  {
  }

  /** remove_char: close the gap at pos. */
  method RemoveChar(e: Editor)
    requires e.pos < e.len < e.buf.Length && e.buf[e.len] == 0
    modifies e.buf
    ensures e.buf[..e.len - 1] == old(e.buf[..e.pos]) + old(e.buf[e.pos + 1..e.len]) && e.buf[e.len - 1] == 0
  {
    hide MovedDown;
    ghost var a, n := e.buf[..], e.len;
    var p := e.pos;
    MovedDownStart(a, p);
    while p < e.len
      invariant e.pos <= p <= e.len && MovedDown(a, e.buf[..], e.pos, p)
    {
      ghost var b := e.buf[..];
      MovedDownStep(a, b, e.pos, p);
      e.buf[p] := e.buf[p + 1];
      assert e.buf[..] == b[p := a[p + 1]];
      p := p + 1;
    }
    ghost var b := e.buf[..];
    MovedDownText(a, b, e.pos, n);
    e.buf[p] := 0;
    assert e.buf[..] == b[n := 0];
    assert a[..e.pos] == old(e.buf[..e.pos]) && a[e.pos + 1..n] == old(e.buf[e.pos + 1..e.len]);
    assert e.buf[..][..n - 1] == e.buf[..n - 1];
  }

  lemma MovedDownStart(a: seq<byte>, p: nat)
    requires p < |a|
    ensures MovedDown(a, a, p, p)
  {
  }

  datatype Status = OnEof | OnEnter | OnUp | OnDown

  /** What a key means. */
  datatype Key = Insert(c: byte) | Backspace | Delete | GoLeft | GoRight | GoHome | GoEnd | Nothing | Leave(status: Status)

  /** io->get: the i-th byte of the input, -1 behind its end. */
  function Get(ks: seq<int>, i: nat): int { if i < |ks| then ks[i] else -1 }

  /** The key at input position i, and where the next one starts. */
  function Decode(ks: seq<int>, i: nat): (r: (Key, nat))
    ensures r.1 > i && (i >= |ks| ==> r.0.Leave?)
  {
    var c := Get(ks, i);
    if c == -1 then (Leave(OnEof), i + 1)
    else if c == 13 || c == 10 then (Leave(OnEnter), i + 1)
    else if c == 8 || c == 127 then (Backspace, i + 1)
    else if c == 27 then
      if Get(ks, i + 1) != 91 then (Nothing, i + 2)
      else match Get(ks, i + 2)
        case 66 => (Leave(OnDown), i + 3)
        case 65 => (Leave(OnUp), i + 3)
        case 67 => (GoRight, i + 3)
        case 68 => (GoLeft, i + 3)
        case 72 => (GoHome, i + 3)
        case 70 => (GoEnd, i + 3)
        case 51 => (Delete, i + 4)
        case _ => (Nothing, i + 3)
    else if 31 < c < 127 then (Insert(c as byte), i + 1)
    else (Nothing, i + 1)
  }

  /** What a key does to a line in a buffer of the given size. */
  function Edit(l: Line, size: nat, k: Key): Line
    requires l.pos <= |l.text|
  {
    match k
    case Insert(c) => if |l.text| + 1 < size then Line(l.text[..l.pos] + [c] + l.text[l.pos..], l.pos + 1) else l
    case Backspace => if l.pos > 0 then Line(l.text[..l.pos - 1] + l.text[l.pos..], l.pos - 1) else l
    case Delete => if l.pos < |l.text| then Line(l.text[..l.pos] + l.text[l.pos + 1..], l.pos) else l
    case GoLeft => if l.pos > 0 then l.(pos := l.pos - 1) else l
    case GoRight => if l.pos < |l.text| then l.(pos := l.pos + 1) else l
    case GoHome => l.(pos := 0)
    case GoEnd => l.(pos := |l.text|)
    case Nothing => l
    case Leave(_) => l
  }

  method DoInsert(e: Editor, c: byte)
    requires e.Valid() && e.InStep() && 31 < c < 127
    modifies e`pos, e`len, e`out, e`screen, e.buf
    ensures e.Valid() && e.InStep() && e.Shown() == Edit(old(e.Shown()), e.buf.Length, Insert(c))
  {
    hide Feed;
    if e.len < e.buf.Length - 1 {
      ghost var t, p := e.buf[..e.len], e.pos;
      assert e.buf[..p] == t[..p] && e.buf[p..e.len] == t[p..];
      InsertChar(e, c);
      ghost var u := t[..p] + [c] + t[p..];
      assert e.buf[p..e.len + 1] == u[p..];
      assert Text(u);
      PrintLine(e, e.len + 1);
      assert t[..p] + u[p..] == u;
      MoveRight(e, 1);
      e.pos := e.pos + 1;
      e.len := e.len + 1;
    }
  }

  /** remove_char at pos and the new rest of the line; the caller has cleared the old one. */
  method CloseGap(e: Editor)
    requires e.Valid() && e.pos < e.len && e.Wired() && e.screen == Term(e.buf[..e.len], e.pos, Ground)
    modifies e`len, e`out, e`screen, e.buf
    ensures e.Valid() && e.InStep() && e.Shown() == Line(old(e.buf[..e.pos]) + old(e.buf[e.pos + 1..e.len]), e.pos)
  {
    hide Feed;
    ghost var t, p := e.buf[..e.len], e.pos;
    assert e.buf[..p] == t[..p] && e.buf[p + 1..e.len] == t[p + 1..];
    RemoveChar(e);
    ghost var u := t[..p] + t[p + 1..];
    assert e.buf[p..e.len - 1] == u[p..];
    assert Text(u);
    ClearLine(e);
    PrintLine(e, e.len - 1);
    assert t[..p] + u[p..] == u;
    e.len := e.len - 1;
  }

  /** rdline_backspace */
  method DoBackspace(e: Editor)
    requires e.Valid() && e.InStep()
    modifies e`pos, e`len, e`out, e`screen, e.buf
    ensures e.Valid() && e.InStep() && e.Shown() == Edit(old(e.Shown()), e.buf.Length, Backspace)
  {
    hide Feed;
    if e.pos > 0 {
      ghost var t := e.buf[..e.len];
      assert e.buf[..e.pos - 1] == t[..e.pos - 1] && e.buf[e.pos..e.len] == t[e.pos..];
      e.pos := e.pos - 1;
      MoveLeft(e, 1);
      CloseGap(e);
    }
  }

  method DoDelete(e: Editor)
    requires e.Valid() && e.InStep()
    modifies e`pos, e`len, e`out, e`screen, e.buf
    ensures e.Valid() && e.InStep() && e.Shown() == Edit(old(e.Shown()), e.buf.Length, Delete)
  {
    hide Feed;
    if e.pos < e.len {
      ghost var t := e.buf[..e.len];
      assert e.buf[..e.pos] == t[..e.pos] && e.buf[e.pos + 1..e.len] == t[e.pos + 1..];
      CloseGap(e);
    }
  }

  /** The cursor keys. */
  method DoMotion(e: Editor, k: Key)
    requires e.Valid() && e.InStep() && (k.GoLeft? || k.GoRight? || k.GoHome? || k.GoEnd?)
    modifies e`pos, e`out, e`screen
    ensures e.Valid() && e.InStep() && e.Shown() == Edit(old(e.Shown()), e.buf.Length, k)
  {
    hide Feed;
    match k
    case GoRight => if e.pos < e.len { e.pos := e.pos + 1; MoveRight(e, 1); }
    case GoLeft => if e.pos > 0 { e.pos := e.pos - 1; MoveLeft(e, 1); }
    case GoHome =>
      MoveLeft(e, e.pos);
      e.pos := 0;
    case GoEnd =>
      MoveRight(e, e.len - e.pos);
      e.pos := e.len;
  }

  /** A whole session: keys are applied until one leaves the line. */
  function Session(l: Line, size: nat, ks: seq<int>, i: nat): (Line, Status, nat)
    requires l.pos <= |l.text|
    decreases |ks| - i
  {
    var (k, j) := Decode(ks, i);
    if k.Leave? then (l, k.status, j) else Session(Edit(l, size, k), size, ks, j)
  }

  /** rdline_input: for every input the buffer becomes what the keys make of the line, it stays NUL-terminated inside
      its size, and after every key the terminal shows the text with the cursor in place. */
  method Input(e: Editor, ks: seq<int>, i0: nat) returns (status: Status, i: nat)
    requires e.Valid() && e.InStep()
    modifies e`pos, e`len, e`out, e`screen, e.buf
    ensures e.Valid() && e.InStep()
    ensures (e.Shown(), status, i) == Session(old(e.Shown()), e.buf.Length, ks, i0)
  {
    hide Feed, Edit;
    i := i0;
    while true
      invariant e.Valid() && e.InStep() && i >= 0
      invariant Session(e.Shown(), e.buf.Length, ks, i) == Session(old(e.Shown()), e.buf.Length, ks, i0)
      decreases |ks| - i
    {
      ghost var l, j := e.Shown(), i;
      var c := Get(ks, i);
      i := i + 1;
      match c
      case -1 => return OnEof, i;
      case 13 => return OnEnter, i;
      case 10 => return OnEnter, i;
      case 8 => DoBackspace(e);
      case 127 => DoBackspace(e);
      case 27 =>
        c := Get(ks, i);
        i := i + 1;
        if c == 91 {
          c := Get(ks, i);
          i := i + 1;
          match c
          case 66 => return OnDown, i;
          case 65 => return OnUp, i;
          case 67 => DoMotion(e, GoRight);
          case 68 => DoMotion(e, GoLeft);
          case 72 => DoMotion(e, GoHome);
          case 70 => DoMotion(e, GoEnd);
          case 51 =>
            i := i + 1;
            DoDelete(e);
          case _ => EditNothing(l, e.buf.Length);
        } else {
          EditNothing(l, e.buf.Length);
        }
      case _ =>
        if 31 < c < 128 {
          DoInsert(e, c as byte);
        } else {
          EditNothing(l, e.buf.Length);
        }
      SessionStep(l, e.buf.Length, ks, j);
    }
  }

  lemma EditNothing(l: Line, size: nat)
    requires l.pos <= |l.text|
    ensures Edit(l, size, Nothing) == l
  {
  }

  lemma SessionStep(l: Line, size: nat, ks: seq<int>, i: nat)
    requires l.pos <= |l.text| && !Decode(ks, i).0.Leave?
    ensures Session(l, size, ks, i) == Session(Edit(l, size, Decode(ks, i).0), size, ks, Decode(ks, i).1)
  {
  }

  /** What the terminal sends for each key. */
  predicate Sends(k: Key, b: seq<int>) {
    match k
    case Insert(c) => 32 <= c < 127 && b == [c as int]
    case Backspace => b == [8] || b == [127]
    case Delete => b == [27, 91, 51, 126]
    case GoLeft => b == [27, 91, 68]
    case GoRight => b == [27, 91, 67]
    case GoHome => b == [27, 91, 72]
    case GoEnd => b == [27, 91, 70]
    case Nothing => b == [27, 91, 69]
    case Leave(OnUp) => b == [27, 91, 65]
    case Leave(OnDown) => b == [27, 91, 66]
    case Leave(OnEnter) => b == [13] || b == [10]
    case Leave(OnEof) => b == [-1]
  }

  /** The bytes of a key decode to it. */
  lemma DecodesKey(ks: seq<int>, i: nat, k: Key, b: seq<int>)
    requires Sends(k, b) && i + |b| <= |ks| && ks[i..i + |b|] == b
    ensures Decode(ks, i) == (k, i + |b|)
  {
    assert forall n :: 0 <= n < |b| ==> ks[i + n] == b[n];
  }

  /** What a key makes of the text in front of the cursor and the text from the cursor on. */
  ghost predicate Turns(size: nat, k: Key, a: seq<byte>, b: seq<byte>, a': seq<byte>, b': seq<byte>) {
    match k
    case Insert(c) => b' == b && a' == if |a| + |b| + 1 < size then a + [c] else a
    case Backspace => b' == b && a' == if a == [] then [] else a[..|a| - 1]
    case Delete => a' == a && b' == if b == [] then [] else b[1..]
    case GoLeft => a' + b' == a + b && |a'| == if a == [] then 0 else |a| - 1
    case GoRight => a' + b' == a + b && |a'| == if b == [] then |a| else |a| + 1
    case GoHome => a' == [] && b' == a + b
    case GoEnd => a' == a + b && b' == []
    case Nothing => a' == a && b' == b
    case Leave(_) => a' == a && b' == b
  }

  ghost predicate EditIs(l: Line, size: nat, k: Key)
    requires l.pos <= |l.text|
  {
    var r := Edit(l, size, k);
    r.pos <= |r.text| && Turns(size, k, l.text[..l.pos], l.text[l.pos..], r.text[..r.pos], r.text[r.pos..])
  }

  lemma InsertTurns(l: Line, size: nat, c: byte)
    requires l.pos <= |l.text|
    ensures EditIs(l, size, Insert(c))
  {
    var a, b := l.text[..l.pos], l.text[l.pos..];
    if |l.text| + 1 < size { SplitAt(Edit(l, size, Insert(c)).text, a + [c], b); }
  }

  lemma BackspaceTurns(l: Line, size: nat)
    requires l.pos <= |l.text|
    ensures EditIs(l, size, Backspace)
  {
    var a, b := l.text[..l.pos], l.text[l.pos..];
    if l.pos > 0 {
      assert a[..|a| - 1] == l.text[..l.pos - 1];
      SplitAt(Edit(l, size, Backspace).text, a[..|a| - 1], b);
    }
  }

  lemma DeleteTurns(l: Line, size: nat)
    requires l.pos <= |l.text|
    ensures EditIs(l, size, Delete)
  {
    var a, b := l.text[..l.pos], l.text[l.pos..];
    if l.pos < |l.text| {
      assert b[1..] == l.text[l.pos + 1..];
      SplitAt(Edit(l, size, Delete).text, a, b[1..]);
    }
  }

  /** Every key does that to the line. */
  lemma EditTurns(l: Line, size: nat, k: Key)
    requires l.pos <= |l.text|
    ensures EditIs(l, size, k)
  {
    match k
    case Insert(c) => InsertTurns(l, size, c);
    case Backspace => BackspaceTurns(l, size);
    case Delete => DeleteTurns(l, size);
    case _ => MotionTurns(l, size, k);
  }

  lemma MotionTurns(l: Line, size: nat, k: Key)
    requires l.pos <= |l.text| && !k.Insert? && !k.Backspace? && !k.Delete?
    ensures EditIs(l, size, k)
  {
    var r := Edit(l, size, k);
    assert l.text[..l.pos] + l.text[l.pos..] == l.text == r.text == r.text[..r.pos] + r.text[r.pos..];
  }

  lemma SplitAt(t: seq<byte>, a: seq<byte>, b: seq<byte>)
    requires t == a + b
    ensures t[..|a|] == a && t[|a|..] == b
  {
  }

  /** The bytes of a sequence of keys. */
  ghost function Concat(bs: seq<seq<int>>): seq<int> {
    if bs == [] then [] else bs[0] + Concat(bs[1..])
  }

  ghost function EditAll(l: Line, size: nat, keys: seq<Key>): (r: Line)
    requires l.pos <= |l.text|
    ensures r.pos <= |r.text|
    decreases |keys|
  {
    EditValid(l, size);
    if keys == [] then l else EditAll(Edit(l, size, keys[0]), size, keys[1..])
  }

  lemma EditValid(l: Line, size: nat)
    requires l.pos <= |l.text|
    ensures forall k :: Edit(l, size, k).pos <= |Edit(l, size, k).text|
  {
  }

  /** Whatever is typed in front of a key that leaves the line is done to the line, key by key. */
  lemma {:induction false} TypedKeys(l: Line, size: nat, ks: seq<int>, i: nat, keys: seq<Key>, bs: seq<seq<int>>)
    requires l.pos <= |l.text| && |bs| == |keys| && forall n :: 0 <= n < |keys| ==> Sends(keys[n], bs[n]) && !keys[n].Leave?
    requires i + |Concat(bs)| <= |ks| && ks[i..i + |Concat(bs)|] == Concat(bs)
    ensures Session(l, size, ks, i) == Session(EditAll(l, size, keys), size, ks, i + |Concat(bs)|)
    decreases |keys|
  {
    hide Decode, Edit, Sends;
    if keys != [] {
      var b, c := bs[0], Concat(bs);
      EditValid(l, size);
      assert ks[i..i + |b|] == ks[i..i + |c|][..|b|] == b;
      DecodesKey(ks, i, keys[0], b);
      SessionStep(l, size, ks, i);
      assert ks[i + |b|..i + |c|] == ks[i..i + |c|][|b|..] == Concat(bs[1..]);
      TypedKeys(Edit(l, size, keys[0]), size, ks, i + |b|, keys[1..], bs[1..]);
    }
  }
}
