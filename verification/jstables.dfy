/** The tokens of getNextToken against tables: spellings of operators and reserved words, the shapes of skipped text, of
    numbers and of strings. */
module JsTables {
  import opened JsTokens

  /** What is skipped in front of a token: one blank; a line comment with its newline; a block comment with its closing
      pair, whose star can be the opening one. The end of the text ends a comment too. */
  ghost predicate IsPiece(s: string, e: nat, a: nat, b: nat)
    requires e <= |s|
  {
    || (b == a + 1 && Char(s, e, a) in {' ', '\t', '\n', '\r'})
    || (a + 2 <= b && Char(s, e, a) == '/' && Char(s, e, a + 1) == '/' && Char(s, e, b - 1) in {'\n', '\0'}
        && forall x :: a <= x < b - 1 ==> Char(s, e, x) !in {'\n', '\0'})
    || (a + 3 <= b && Char(s, e, a) == '/' && Char(s, e, a + 1) == '*'
        && (Char(s, e, b - 2) == '\0' || Closes(s, e, b - 2))
        && forall x :: a <= x < b - 2 ==> Char(s, e, x) != '\0' && !Closes(s, e, x))
  }

  predicate Closes(s: string, e: nat, x: nat)
    requires e <= |s|
  {
    Char(s, e, x) == '*' && Char(s, e, x + 1) == '/'
  }

  /** Each of the positions ends a piece that starts at the one before. */
  ghost predicate Pieces(s: string, e: nat, ps: seq<nat>)
    requires e <= |s|
  {
    ps != [] && forall i :: 0 < i < |ps| ==> IsPiece(s, e, ps[i - 1], ps[i])
  }

  /** No blank and no comment starts at q. */
  ghost predicate NoPiece(s: string, e: nat, q: nat)
    requires e <= |s|
  {
    forall b: nat :: !IsPiece(s, e, q, b)
  }

  lemma PiecesJoin(s: string, e: nat, ps: seq<nat>, qs: seq<nat>)
    requires e <= |s| && Pieces(s, e, ps) && Pieces(s, e, qs) && ps[|ps| - 1] == qs[0]
    ensures Pieces(s, e, ps + qs[1..])
  {
    hide IsPiece;
    var r := ps + qs[1..];
    forall i | 0 < i < |r| ensures IsPiece(s, e, r[i - 1], r[i]) {
      if i >= |ps| { assert r[i] == qs[i - |ps| + 1] && r[i - 1] == qs[i - |ps|]; }
    }
  }

  lemma {:induction false} BlankPieces(s: string, e: nat, p: nat) returns (ps: seq<nat>)
    requires e <= |s|
    ensures Pieces(s, e, ps) && ps[0] == p && ps[|ps| - 1] == RunEnd(s, e, p, White)
    decreases if p < e then e - p else 0
  {
    if p < e && In(White, s[p]) {
      var qs := BlankPieces(s, e, p + 1);
      assert IsPiece(s, e, p, p + 1);
      PiecesJoin(s, e, [p, p + 1], qs);
      ps := [p, p + 1] + qs[1..];
    } else {
      ps := [p];
    }
  }

  lemma LinePiece(s: string, e: nat, q: nat)
    requires e <= |s| && LineComment(s, e, q)
    ensures IsPiece(s, e, q, RunEnd(s, e, q, Rest) + 1)
  {
  }

  lemma {:induction false} BlockEndIs(s: string, e: nat, i: nat)
    requires e <= |s|
    ensures var j := BlockEnd(s, e, i);
      && (Char(s, e, j) == '\0' || Closes(s, e, j))
      && forall x :: i <= x < j ==> Char(s, e, x) != '\0' && !Closes(s, e, x)
    decreases if i < e then e - i else 0
  {
    if i < e { BlockEndIs(s, e, i + 1); }
  }

  lemma BlockPiece(s: string, e: nat, q: nat)
    requires e <= |s| && BlockComment(s, e, q)
    ensures IsPiece(s, e, q, BlockEnd(s, e, q) + 2)
  {
    BlockEndIs(s, e, q);
  }

  lemma NoPieceAt(s: string, e: nat, q: nat)
    requires e <= |s| && !In(White, Char(s, e, q)) && !LineComment(s, e, q) && !BlockComment(s, e, q)
    ensures NoPiece(s, e, q)
  {
  }

  /** Where the comment at q ends. */
  ghost function CommentEnd(s: string, e: nat, q: nat): nat
    requires e <= |s|
  {
    if LineComment(s, e, q) then RunEnd(s, e, q, Rest) + 1 else BlockEnd(s, e, q) + 2
  }

  lemma SkipUnroll(s: string, e: nat, p: nat)
    requires e <= |s|
    ensures var q := RunEnd(s, e, p, White);
      if LineComment(s, e, q) || BlockComment(s, e, q) then
        Skip(s, e, p) == Skip(s, e, CommentEnd(s, e, q)) && p < e && q < CommentEnd(s, e, q) && IsPiece(s, e, q, CommentEnd(s, e, q))
      else Skip(s, e, p) == q && NoPiece(s, e, q)
  {
    var q := RunEnd(s, e, p, White);
    if LineComment(s, e, q) {
      LinePiece(s, e, q);
    } else if BlockComment(s, e, q) {
      BlockPiece(s, e, q);
    } else {
      NoPieceAt(s, e, q);
    }
  }

  lemma PiecesVia(s: string, e: nat, ps: seq<nat>, b: nat, qs: seq<nat>) returns (r: seq<nat>)
    requires e <= |s| && Pieces(s, e, ps) && IsPiece(s, e, ps[|ps| - 1], b) && Pieces(s, e, qs) && qs[0] == b
    ensures Pieces(s, e, r) && r[0] == ps[0] && r[|r| - 1] == qs[|qs| - 1]
  {
    hide IsPiece;
    assert Pieces(s, e, ps + [b]);
    PiecesJoin(s, e, ps + [b], qs);
    r := (ps + [b]) + qs[1..];
  }

  /** The text in front of a token is a sequence of such pieces, and another one does not follow. */
  lemma {:induction false} SkipPieces(s: string, e: nat, p: nat) returns (ps: seq<nat>)
    requires e <= |s|
    ensures Pieces(s, e, ps) && ps[0] == p && ps[|ps| - 1] == Skip(s, e, p) && NoPiece(s, e, Skip(s, e, p))
    decreases if p < e then e - p else 0
  {
    hide *;
    ps := BlankPieces(s, e, p);
    SkipUnroll(s, e, p);
    PiecesSome(s, e, ps);
    var q := RunEnd(s, e, p, White);
    if LineComment(s, e, q) || BlockComment(s, e, q) {
      var qs := SkipPieces(s, e, CommentEnd(s, e, q));
      ps := PiecesVia(s, e, ps, CommentEnd(s, e, q), qs);
    }
  }

  lemma PiecesSome(s: string, e: nat, ps: seq<nat>)
    requires e <= |s| && Pieces(s, e, ps)
    ensures ps != []
  {
  }

  lemma PieceOnce(s: string, e: nat, a: nat, b: nat, c: nat)
    requires e <= |s| && IsPiece(s, e, a, b) && IsPiece(s, e, a, c)
    ensures b == c
  {
    if b < c { PieceNotLonger(s, e, a, b, c); } else if c < b { PieceNotLonger(s, e, a, c, b); }
  }

  lemma PieceNotLonger(s: string, e: nat, a: nat, b: nat, c: nat)
    requires e <= |s| && b < c && IsPiece(s, e, a, b)
    ensures !IsPiece(s, e, a, c)
  {
    assert Char(s, e, a) == '/' && Char(s, e, a + 1) == '*' ==> a + 3 <= b && (Char(s, e, b - 2) == '\0' || Closes(s, e, b - 2));
  }

  lemma Single(s: string, e: nat, ps: seq<nat>)
    requires e <= |s| && Pieces(s, e, ps) && NoPiece(s, e, ps[|ps| - 1])
    ensures |ps| == 1 <==> NoPiece(s, e, ps[0])
  {
    hide IsPiece;
    if |ps| > 1 { assert IsPiece(s, e, ps[0], ps[1]); }
  }

  lemma PiecesRest(s: string, e: nat, ps: seq<nat>)
    requires e <= |s| && Pieces(s, e, ps) && |ps| > 1
    ensures Pieces(s, e, ps[1..]) && IsPiece(s, e, ps[0], ps[1])
  {
    hide IsPiece;
    var r := ps[1..];
    forall i | 0 < i < |r| ensures IsPiece(s, e, r[i - 1], r[i]) { assert IsPiece(s, e, ps[i], ps[i + 1]); }
    assert IsPiece(s, e, ps[1 - 1], ps[1]);
  }

  /** The pieces determine where the token starts. */
  lemma {:induction false} PiecesOnce(s: string, e: nat, ps: seq<nat>, qs: seq<nat>)
    requires e <= |s| && Pieces(s, e, ps) && Pieces(s, e, qs) && ps[0] == qs[0]
    requires NoPiece(s, e, ps[|ps| - 1]) && NoPiece(s, e, qs[|qs| - 1])
    ensures ps == qs
    decreases |ps|
  {
    Single(s, e, ps);
    Single(s, e, qs);
    if |ps| > 1 && |qs| > 1 {
      PiecesRest(s, e, ps);
      PiecesRest(s, e, qs);
      PieceOnce(s, e, ps[0], ps[1], qs[1]);
      PiecesOnce(s, e, ps[1..], qs[1..]);
      assert ps == [ps[0]] + ps[1..] && qs == [qs[0]] + qs[1..];
    }
  }

  /** The star that opens a comment can close it: what follows the three characters is a token. */
  lemma StarCloses(s: string)
    requires |s| == 4 && s[..3] == "/*/" && s[3] !in {' ', '\t', '\n', '\r', '/'}
    ensures Skip(s, 4, 0) == 3
  {
    assert s[0] == s[..3][0] && s[1] == s[..3][1] && s[2] == s[..3][2];
    assert Pieces(s, 4, [0, 3]) by { assert Closes(s, 4, 1); }
    SkipIs(s, 4, 0, [0, 3]);
  }

  predicate Letter(c: char) { 'a' <= c <= 'z' || 'A' <= c <= 'Z' || c == '_' }

  predicate Numeral(c: char) { '0' <= c <= '9' }

  predicate HexNumeral(c: char) { '0' <= c <= '9' || 'a' <= c <= 'f' || 'A' <= c <= 'F' }

  /** Spellings of operators and the numbers of their tokens. */
  const OPERATORS: seq<(string, int)> := [
    ("==", 260), ("===", 261), ("!=", 262), ("!==", 263), ("<=", 264), ("<<", 265), ("<<=", 266), (">=", 267), (">>", 268),
    (">>>", 269), (">>=", 270), ("+=", 271), ("-=", 272), ("++", 273), ("--", 274), ("&=", 275), ("&&", 276), ("|=", 277),
    ("||", 278), ("^=", 279)]

  /** The reserved words and the numbers of their tokens. */
  const WORDS: seq<(string, int)> := [
    ("if", 280), ("else", 281), ("do", 282), ("while", 283), ("for", 284), ("break", 285), ("continue", 286),
    ("function", 287), ("return", 288), ("var", 289), ("true", 290), ("false", 291), ("null", 292), ("undefined", 293),
    ("new", 294)]

  /** So they say where the token starts. */
  lemma SkipIs(s: string, e: nat, p: nat, ps: seq<nat>)
    requires e <= |s| && Pieces(s, e, ps) && ps[0] == p && NoPiece(s, e, ps[|ps| - 1])
    ensures Skip(s, e, p) == ps[|ps| - 1]
  {
    hide IsPiece, NoPiece;
    var qs := SkipPieces(s, e, p);
    PiecesOnce(s, e, ps, qs);
  }

  /** Row j of the table has number 260 + j and two or three characters. */
  lemma RowNumber(j: nat)
    requires j < |OPERATORS|
    ensures |OPERATORS| == 20 && OPERATORS[j].1 == 260 + j && 2 <= |OPERATORS[j].0| <= 3
  {
  }

  predicate Begins(w: string, a: char, b: char, c: char) {
    2 <= |w| <= 3 && w[0] == a && w[1] == b && (|w| == 3 ==> w[2] == c)
  }

  /** A row of the table whose spelling the text starts with is the operator, or the operator is longer. */
  lemma RowFits(j: nat, a: char, b: char, c: char)
    requires j < |OPERATORS| && Begins(OPERATORS[j].0, a, b, c)
    ensures |OPERATORS[j].0| <= Operator(a, b, c).1
    ensures |OPERATORS[j].0| == Operator(a, b, c).1 ==> Operator(a, b, c).0 == 260 + j
  {
  }

  /** The operator is a row of the table, or the character itself. */
  lemma OperatorRow(a: char, b: char, c: char)
    ensures var (k, n) := Operator(a, b, c);
      if n == 1 then k == a as int
      else 260 <= k < 280 && k - 260 < |OPERATORS| && |OPERATORS[k - 260].0| == n && Begins(OPERATORS[k - 260].0, a, b, c)
  {
  }

  /** The text has w at q. */
  ghost predicate Starts(s: string, e: nat, q: nat, w: string)
    requires e <= |s|
  {
    forall i :: 0 <= i < |w| ==> Char(s, e, q + i) == w[i]
  }

  lemma StartsIs(s: string, e: nat, q: nat, w: string)
    requires e <= |s| && 2 <= |w| <= 3
    ensures Starts(s, e, q, w) <==> Begins(w, Char(s, e, q), Char(s, e, q + 1), Char(s, e, q + 2))
  {
  }

  /** An operator is the longest spelling of the table that the text has at its start, and w is that spelling; without
      one, the token is the character. */
  lemma OperatorLongest(s: string, e: nat, q: nat) returns (w: string)
    requires e <= |s| && Char(s, e, q) !in {'\0', '"', '\''} && !Letter(Char(s, e, q)) && !Numeral(Char(s, e, q))
    ensures var t := Scan(s, e, q);
      && t.start == q && t.str == ""
      && (w != "" ==> (w, t.tk) in OPERATORS && Starts(s, e, q, w) && t.next == q + |w|)
      && (w == "" ==> t.tk == Char(s, e, q) as int && t.next == q + 1)
    ensures forall v, k :: (v, k) in OPERATORS && Starts(s, e, q, v) ==> |v| <= |w|
  {
    hide Operator, Starts, Begins, OPERATORS;
    var a, b, c := Char(s, e, q), Char(s, e, q + 1), Char(s, e, q + 2);
    var (k, n) := Operator(a, b, c);
    OperatorRow(a, b, c);
    w := "";
    if n > 1 {
      RowNumber(k - 260);
      w := OPERATORS[k - 260].0;
      StartsIs(s, e, q, w);
      assert OPERATORS[k - 260] == (w, k);
    }
    forall v, m | (v, m) in OPERATORS && Starts(s, e, q, v) ensures |v| <= |w| {
      var j :| 0 <= j < |OPERATORS| && OPERATORS[j] == (v, m);
      RowNumber(j);
      StartsIs(s, e, q, v);
      RowFits(j, a, b, c);
    }
  }

  lemma {:induction false} WordFrom(w: string, i: nat)
    requires i <= |RESERVED|
    ensures var k := WordKindFrom(w, i);
      && (k == 256 ==> forall j :: i <= j < |RESERVED| ==> RESERVED[j] != w)
      && (k != 256 ==> i <= k - 280 < |RESERVED| && RESERVED[k - 280] == w)
    decreases |RESERVED| - i
  {
    hide RESERVED;
    if i < |RESERVED| { WordFrom(w, i + 1); }
  }

  lemma WordRow(j: nat)
    requires j < |RESERVED|
    ensures |WORDS| == |RESERVED| && WORDS[j] == (RESERVED[j], 280 + j)
  {
  }

  /** Length and first character tell the reserved words apart. */
  lemma WordsApart(i: nat, j: nat)
    requires i < |RESERVED| && j < |RESERVED| && RESERVED[i] == RESERVED[j]
    ensures i == j
  {
    hide RESERVED;
    WordSign(i);
    WordSign(j);
  }

  lemma WordSign(j: nat)
    requires j < |RESERVED|
    ensures |RESERVED| == 15 && |RESERVED[j]| == [2, 4, 2, 5, 3, 5, 8, 8, 6, 3, 4, 5, 4, 9, 3][j]
    ensures RESERVED[j] != "" && RESERVED[j][0] == "iedwfbcfrvtfnun"[j]
  {
  }

  /** A word is reserved exactly if it is in the table, and has the number given there. */
  lemma WordIs(w: string)
    ensures WordKind(w) != 256 ==> (w, WordKind(w)) in WORDS
    ensures forall k :: (w, k) in WORDS ==> WordKind(w) == k
  {
    hide WORDS, RESERVED, WordKindFrom;
    WordFrom(w, 0);
    var n := WordKind(w);
    if n != 256 { WordRow(n - 280); }
    forall k | (w, k) in WORDS ensures n == k {
      var j :| 0 <= j < |WORDS| && WORDS[j] == (w, k);
      SameSize();
      WordRow(j);
      if n != 256 { WordsApart(n - 280, j); }
    }
  }

  lemma SameSize()
    ensures |WORDS| == |RESERVED|
  {
  }

  /** A word is a maximal run of letters and digits, and its kind that of WordIs. */
  lemma WordToken(s: string, e: nat, q: nat)
    requires e <= |s| && Letter(Char(s, e, q))
    ensures var t := Scan(s, e, q);
      && t.start == q < t.next <= e && t.str == s[q..t.next] && t.tk == WordKind(t.str)
      && (forall x :: q <= x < t.next ==> Letter(s[x]) || Numeral(s[x]))
      && !Letter(Char(s, e, t.next)) && !Numeral(Char(s, e, t.next))
  {
    hide WordKind;
    assert In(Word, s[q]);
  }

  ghost predicate Numerals(s: string, e: nat, a: nat, b: nat)
    requires e <= |s|
  {
    a <= b && !Numeral(Char(s, e, b)) && forall x :: a <= x < b ==> Numeral(Char(s, e, x))
  }

  /** A number that starts with 0x takes all hexadecimal digits that follow. */
  lemma HexToken(s: string, e: nat, q: nat)
    requires e <= |s| && Char(s, e, q) == '0' && Char(s, e, q + 1) == 'x'
    ensures var t := Scan(s, e, q);
      && t.start == q && t.tk == 257 && q + 2 <= t.next <= e && t.str == s[q..t.next]
      && (forall x :: q + 2 <= x < t.next ==> HexNumeral(s[x])) && !HexNumeral(Char(s, e, t.next))
  {
  }

  lemma WholeDigits(s: string, e: nat, q: nat)
    requires e <= |s| && Numeral(Char(s, e, q)) && !(Char(s, e, q) == '0' && Char(s, e, q + 1) == 'x')
    ensures var a := WholePart(s, e, q); !IsHex(s, e, q) && q < a <= e && Numerals(s, e, q, a)
  {
    hide RunEnd;
    var i := AfterZero(s, e, q);
    RunNumerals(s, e, i);
    if i == q { assert RunEnd(s, e, q, Digit) != q; }
  }

  lemma FractionDigits(s: string, e: nat, q: nat)
    requires e <= |s| && !IsHex(s, e, q) && WholePart(s, e, q) <= e
    ensures var a, b := WholePart(s, e, q), AfterFraction(s, e, q);
      && (HasFraction(s, e, q) <==> Char(s, e, a) == '.') && a <= b <= e
      && if Char(s, e, a) == '.' then a < b && Numerals(s, e, a + 1, b) else b == a
  {
    hide RunEnd, IsHex, WholePart, Numerals;
    RunNumerals(s, e, WholePart(s, e, q) + 1);
  }

  lemma ExponentDigits(s: string, e: nat, q: nat)
    requires e <= |s| && !IsHex(s, e, q) && AfterFraction(s, e, q) <= e
    ensures var b, n := AfterFraction(s, e, q), NumberEnd(s, e, q);
      && (HasExponent(s, e, q) <==> Char(s, e, b) in {'e', 'E'}) && b <= n <= e
      && if Char(s, e, b) in {'e', 'E'} then Numerals(s, e, if Char(s, e, b + 1) == '-' then b + 2 else b + 1, n) else n == b
  {
    hide RunEnd, IsHex, AfterFraction, Numerals;
    RunNumerals(s, e, AfterSign(s, e, AfterFraction(s, e, q) + 1));
  }

  /** Any other takes the digits up to a, a fraction up to b if a point follows, and an exponent if an e follows; it is a
      floating point number if there is one of these. */
  lemma NumberToken(s: string, e: nat, q: nat) returns (a: nat, b: nat)
    requires e <= |s| && Numeral(Char(s, e, q)) && !(Char(s, e, q) == '0' && Char(s, e, q + 1) == 'x')
    ensures q < a <= b <= Scan(s, e, q).next && Numerals(s, e, q, a)
    ensures if Char(s, e, a) == '.' then a < b && Numerals(s, e, a + 1, b) else b == a
    ensures var t := Scan(s, e, q);
      && t.start == q && t.next <= e && t.str == s[q..t.next]
      && (if Char(s, e, b) in {'e', 'E'} then Numerals(s, e, if Char(s, e, b + 1) == '-' then b + 2 else b + 1, t.next)
          else t.next == b)
      && t.tk == if Char(s, e, a) == '.' || Char(s, e, b) in {'e', 'E'} then 258 else 257
  {
    hide IsHex, WholePart, AfterFraction, NumberEnd, Numerals, HasFraction, HasExponent;
    WholeDigits(s, e, q);
    FractionDigits(s, e, q);
    ExponentDigits(s, e, q);
    a, b := WholePart(s, e, q), AfterFraction(s, e, q);
  }

  lemma RunNumerals(s: string, e: nat, i: nat)
    requires e <= |s|
    ensures Numerals(s, e, i, RunEnd(s, e, i, Digit))
  {
  }

  /** The digit c has the value h. */
  predicate DigitOf(c: char, h: nat) {
    h < 16 && (c == "0123456789abcdef"[h] || c == "0123456789ABCDEF"[h])
  }

  lemma DigitIs(c: char, h: nat)
    requires DigitOf(c, h)
    ensures DigitValue(c) == h && c != ' ' && !('\t' <= c <= '\r') && c != '-' && c != '+'
  {
  }

  lemma TwoDigits(c: char, d: char, h: nat, l: nat)
    requires DigitOf(c, h) && DigitOf(d, l)
    ensures Strtol([c, d], 16) == 16 * h + l
  {
    hide DigitOf, DigitValue;
    DigitIs(c, h);
    DigitIs(d, l);
    BelowSixteen(c, h);
    BelowSixteen(d, l);
    assert [c, d][1..] == [d] && [d][1..] == [];
    assert Digits([d], 16, h) == 16 * h + l;
  }

  lemma BelowSixteen(c: char, h: nat)
    ensures DigitOf(c, h) ==> h < 16
  {
  }

  lemma ThreeDigits(c: char, d: char, g: char, x: nat, y: nat, z: nat)
    requires DigitOf(c, x) && DigitOf(d, y) && DigitOf(g, z) && x < 8 && y < 8 && z < 8
    ensures Strtol([c, d, g], 8) == 64 * x + 8 * y + z
  {
    hide DigitOf, DigitValue;
    DigitIs(c, x);
    DigitIs(d, y);
    DigitIs(g, z);
    assert [c, d, g][1..] == [d, g] && [d, g][1..] == [g] && [g][1..] == [];
    assert Digits([g], 8, 8 * x + y) == 8 * (8 * x + y) + z;
    assert Digits([d, g], 8, x) == Digits([g], 8, 8 * x + y);
  }

  /** The escapes of a single-quoted string: the backslash at a stands for the character v and is read up to b. */
  ghost predicate SingleEscape(s: string, e: nat, a: nat, b: nat, v: char)
    requires e <= |s|
  {
    var c, d, g := Char(s, e, a + 1), Char(s, e, a + 2), Char(s, e, a + 3);
    if c == 'n' then b == a + 2 && v as int == 10
    else if c == 'a' then b == a + 2 && v as int == 7
    else if c == 'r' then b == a + 2 && v as int == 13
    else if c == 't' then b == a + 2 && v as int == 9
    else if c == 'x' then
      b == a + 4 && forall h: nat, l: nat :: DigitOf(d, h) && DigitOf(g, l) ==> v as int == 16 * h + l
    else if '0' <= c <= '7' then
      b == a + 4 && forall x: nat, y: nat, z: nat :: x < 8 && y < 8 && z < 8 && DigitOf(c, x) && DigitOf(d, y) && DigitOf(g, z) ==>
        v as int == (64 * x + 8 * y + z) % 256
    else b == a + 2 && v == c
  }

  lemma EscapeIs(s: string, e: nat, a: nat)
    requires e <= |s|
    ensures SingleEscape(s, e, a, Escape(s, e, a + 1).1, Escape(s, e, a + 1).0)
  {
    hide Strtol, DigitOf;
    var c, d, g := Char(s, e, a + 1), Char(s, e, a + 2), Char(s, e, a + 3);
    if c == 'x' {
      forall h: nat, l: nat | DigitOf(d, h) && DigitOf(g, l) ensures ToChar(Strtol([d, g], 16)) as int == 16 * h + l {
        BelowSixteen(d, h);
        BelowSixteen(g, l);
        TwoDigits(d, g, h, l);
      }
    } else if '0' <= c <= '7' {
      forall x: nat, y: nat, z: nat | x < 8 && y < 8 && z < 8 && DigitOf(c, x) && DigitOf(d, y) && DigitOf(g, z)
        ensures ToChar(Strtol([c, d, g], 8)) as int == (64 * x + 8 * y + z) % 256
      {
        ThreeDigits(c, d, g, x, y, z);
      }
    }
  }

  /** One character v of a string in the given quotes, written from a up to b. */
  ghost predicate IsUnit(s: string, e: nat, quote: char, a: nat, b: nat, v: char)
    requires e <= |s|
  {
    && Char(s, e, a) !in {'\0', quote}
    && if Char(s, e, a) != '\\' then b == a + 1 && v == Char(s, e, a)
       else if quote == '"' then b == a + 2 && v == (if Char(s, e, a + 1) == 'n' then '\n' else Char(s, e, a + 1))
       else SingleEscape(s, e, a, b, v)
  }

  /** The string t is written in units that end at the positions ps; there the closing quote follows, or the text ends. */
  ghost predicate Units(s: string, e: nat, quote: char, ps: seq<nat>, t: string)
    requires e <= |s|
  {
    && |ps| == |t| + 1 && Char(s, e, ps[|t|]) in {'\0', quote}
    && forall k :: 0 <= k < |t| ==> IsUnit(s, e, quote, ps[k], ps[k + 1], t[k])
  }

  lemma UnitsPush(s: string, e: nat, quote: char, a: nat, v: char, ps: seq<nat>, t: string)
    requires e <= |s| && Units(s, e, quote, ps, t) && IsUnit(s, e, quote, a, ps[0], v)
    ensures Units(s, e, quote, [a] + ps, [v] + t)
  {
    hide IsUnit;
    var qs, u := [a] + ps, [v] + t;
    forall k | 0 <= k < |u| ensures IsUnit(s, e, quote, qs[k], qs[k + 1], u[k]) {
      if k > 0 { assert qs[k] == ps[k - 1] && qs[k + 1] == ps[k] && u[k] == t[k - 1]; }
    }
  }

  lemma {:induction false} DoubleUnits(s: string, e: nat, i: nat) returns (ps: seq<nat>)
    requires e <= |s|
    ensures var (t, j) := DoubleQuoted(s, e, i); Units(s, e, '"', ps, t) && ps[0] == i && j == ps[|t|] + 1
    decreases if i < e then e - i else 0
  {
    var c := Char(s, e, i);
    if c == NUL || c == '"' || i >= e {
      ps := [i];
    } else if c == '\\' {
      var d := Char(s, e, i + 1);
      ps := DoubleUnits(s, e, i + 2);
      UnitsPush(s, e, '"', i, if d == 'n' then '\n' else d, ps, DoubleQuoted(s, e, i + 2).0);
      ps := [i] + ps;
    } else {
      ps := DoubleUnits(s, e, i + 1);
      UnitsPush(s, e, '"', i, c, ps, DoubleQuoted(s, e, i + 1).0);
      ps := [i] + ps;
    }
  }

  lemma {:induction false} SingleUnits(s: string, e: nat, i: nat) returns (ps: seq<nat>)
    requires e <= |s|
    ensures var (t, j) := SingleQuoted(s, e, i); Units(s, e, '\'', ps, t) && ps[0] == i && j == ps[|t|] + 1
    decreases if i < e then e - i else 0
  {
    hide Escape, SingleEscape;
    var c := Char(s, e, i);
    if c == NUL || c == '\'' || i >= e {
      ps := [i];
    } else if c == '\\' {
      var (d, k) := Escape(s, e, i + 1);
      EscapeIs(s, e, i);
      EscapeGoes(s, e, i + 1);
      ps := SingleUnits(s, e, k);
      UnitsPush(s, e, '\'', i, d, ps, SingleQuoted(s, e, k).0);
      ps := [i] + ps;
    } else {
      ps := SingleUnits(s, e, i + 1);
      UnitsPush(s, e, '\'', i, c, ps, SingleQuoted(s, e, i + 1).0);
      ps := [i] + ps;
    }
  }

  lemma EscapeGoes(s: string, e: nat, i: nat)
    requires e <= |s|
    ensures Escape(s, e, i).1 > i
  {
  }

  /** A string is read unit by unit up to its closing quote or the end of the text. */
  lemma StringToken(s: string, e: nat, q: nat) returns (ps: seq<nat>)
    requires e <= |s| && Char(s, e, q) in {'"', '\''}
    ensures var t := Scan(s, e, q);
      && t.start == q && t.tk == 259 && Units(s, e, Char(s, e, q), ps, t.str) && ps[0] == q + 1 && t.next == ps[|t.str|] + 1
  {
    hide IsUnit, DoubleQuoted, SingleQuoted;
    if Char(s, e, q) == '"' { ps := DoubleUnits(s, e, q + 1); } else { ps := SingleUnits(s, e, q + 1); }
  }
}
