/** The remote terminal of the line editor: one unwrapped line, and the control functions of ECMA-48 that the
    editor sends (CUB, section 8.3.18; CUF, section 8.3.20; EL, section 8.3.41). */
module Terminal {
  import opened Layout

  const ESC: byte := 27
  const BRACKET: byte := 91
  const LEFT: byte := 68     // 'D', CUB
  const RIGHT: byte := 67    // 'C', CUF
  const ERASE: byte := 75    // 'K', EL

  datatype Mode = Ground | Escape | Control(n: nat)

  datatype Term = Term(cells: seq<byte>, cur: nat, mode: Mode)

  const BLANK := Term([], 0, Ground)

  predicate Printable(b: byte) { 31 < b < 127 }

  predicate Text(s: seq<byte>) { forall i :: 0 <= i < |s| ==> Printable(s[i]) }

  /** A character at the cursor. */
  function Write(t: Term, b: byte): Term {
    if t.cur < |t.cells| then t.(cells := t.cells[t.cur := b], cur := t.cur + 1)
    else t.(cells := t.cells + seq(t.cur - |t.cells|, _ => 32) + [b], cur := t.cur + 1)
  }

  /** A control function; a missing parameter counts as 1 for movements and as 0 for erasing. */
  function Execute(t: Term, b: byte, n: nat): Term {
    var k := if n == 0 then 1 else n;
    if b == LEFT then Term(t.cells, if k <= t.cur then t.cur - k else 0, Ground)
    else if b == RIGHT then Term(t.cells, t.cur + k, Ground)
    else if b == ERASE && n == 0 then Term(if t.cur <= |t.cells| then t.cells[..t.cur] else t.cells, t.cur, Ground)
    else t.(mode := Ground)
  }

  function Step(t: Term, b: byte): Term {
    match t.mode
    case Ground => if b == ESC then t.(mode := Escape) else if Printable(b) then Write(t, b) else t
    case Escape => t.(mode := if b == BRACKET then Control(0) else Ground)
    case Control(n) => if 48 <= b <= 57 then t.(mode := Control(10 * n + (b as nat - 48))) else Execute(t, b, n)
  }

  /** The terminal after the bytes s. */
  function Feed(t: Term, s: seq<byte>): Term {
    if s == [] then t else Step(Feed(t, s[..|s| - 1]), s[|s| - 1])
  }

  lemma {:induction false} FeedConcat(t: Term, a: seq<byte>, b: seq<byte>)
    ensures Feed(t, a + b) == Feed(Feed(t, a), b)
    decreases |b|
  {
    if b == [] {
      assert a + b == a;
    } else {
      assert (a + b)[..|a + b| - 1] == a + b[..|b| - 1];
      FeedConcat(t, a, b[..|b| - 1]);
    }
  }

  /** Printing text overwrites the line from the cursor on. */
  lemma {:induction false} FeedText(t: Term, s: seq<byte>)
    requires t.mode == Ground && t.cur <= |t.cells| && Text(s)
    ensures Feed(t, s) == Term(t.cells[..t.cur] + s + (if t.cur + |s| < |t.cells| then t.cells[t.cur + |s|..] else []),
                               t.cur + |s|, Ground)
    decreases |s|
  {
    if s == [] {
      assert t.cells == t.cells[..t.cur] + [] + t.cells[t.cur..];
      if t.cur == |t.cells| { assert t.cells == t.cells[..t.cur] + [] + []; }
    } else {
      var r := s[..|s| - 1];
      FeedText(t, r);
      var u := Feed(t, r);
      assert Printable(s[|s| - 1]);
      assert s == r + [s[|s| - 1]];
      if t.cur + |s| <= |t.cells| {
        assert u.cells[u.cur := s[|s| - 1]] == t.cells[..t.cur] + s + t.cells[t.cur + |s|..];
      } else {
        assert u.cells + seq(0, _ => 32) + [s[|s| - 1]] == t.cells[..t.cur] + s + [];
      }
    }
  }

  function Ascii(d: nat): (b: byte)
    requires d < 10
    ensures b as nat == 48 + d
  {
    48 + d
  }

  /** Decimal digits, most significant first. */
  function Decimal(n: nat): (d: seq<byte>)
    ensures |d| >= 1 && forall i :: 0 <= i < |d| ==> 48 <= d[i] <= 57
  {
    if n < 10 then [Ascii(n)] else Decimal(n / 10) + [Ascii(n % 10)]
  }

  /** The parameter parser undoes the printing of a number. */
  lemma {:induction false} FeedDecimal(t: Term, n: nat)
    requires t.mode == Control(0)
    ensures Feed(t, Decimal(n)) == t.(mode := Control(n))
  {
    var d := Decimal(n);
    if n < 10 {
      assert d[..0] == [];
    } else {
      FeedDecimal(t, n / 10);
      assert d[..|d| - 1] == Decimal(n / 10);
    }
  }

  lemma FeedOne(t: Term, b: byte)
    ensures Feed(t, [b]) == Step(t, b)
  {
    assert [b][..0] == [];
    assert Feed(t, []) == t;
  }

  lemma FeedIntroducer(t: Term)
    requires t.mode == Ground
    ensures Feed(t, [ESC, BRACKET]) == t.(mode := Control(0))
  {
    assert [ESC, BRACKET][..1] == [ESC];
    FeedOne(t, ESC);
  }

  /** A whole movement. */
  lemma FeedMove(t: Term, n: nat, dir: byte)
    requires t.mode == Ground && n > 0 && (dir == LEFT || dir == RIGHT)
    ensures Feed(t, [ESC, BRACKET] + Decimal(n) + [dir]) ==
      t.(cur := if dir == RIGHT then t.cur + n else if n <= t.cur then t.cur - n else 0)
  {
    hide Feed, Decimal;
    var a := [ESC, BRACKET];
    FeedConcat(t, a + Decimal(n), [dir]);
    FeedConcat(t, a, Decimal(n));
    FeedIntroducer(t);
    FeedDecimal(t.(mode := Control(0)), n);
    FeedOne(t.(mode := Control(n)), dir);
  }

  lemma FeedErase(t: Term)
    requires t.mode == Ground && t.cur <= |t.cells|
    ensures Feed(t, [ESC, BRACKET, ERASE]) == t.(cells := t.cells[..t.cur])
  {
    hide Feed;
    FeedIntroducer(t);
    FeedOne(t.(mode := Control(0)), ERASE);
    assert [ESC, BRACKET, ERASE] == [ESC, BRACKET] + [ERASE];
    FeedConcat(t, [ESC, BRACKET], [ERASE]);
  }

  /** ESC [ n C moves the cursor right, ESC [ n D left, and ESC [ K erases from the cursor on. */
  lemma ControlBytes(t: Term, n: nat)
    requires t.mode == Ground && t.cur <= |t.cells| && n > 0
    ensures Feed(t, [27, 91] + Decimal(n) + [67]) == t.(cur := t.cur + n)
    ensures Feed(t, [27, 91] + Decimal(n) + [68]) == t.(cur := if n <= t.cur then t.cur - n else 0)
    ensures Feed(t, [27, 91, 75]) == t.(cells := t.cells[..t.cur])
  {
    hide Feed, Decimal;
    FeedMove(t, n, RIGHT);
    FeedMove(t, n, LEFT);
    FeedErase(t);
  }
}
