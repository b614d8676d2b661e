/** What becomes of a value that is printed as JSON and evaluated again. */
module JsRoundTrip {
  import opened Options
  import opened JsTokens
  import opened JsRelex
  import opened JsJson
  import opened JsEval

  /** What the lexer reads where getJSString wrote a character. */
  function Reread(c: char): string {
    if c == '\r' then "r"
    else if c as int == 7 then "a"
    else if c == '\n' || c == '\\' || c == '"' then [c]
    else
      var n := c as int % 256;
      if n < 32 || n > 127 then ['x', HexChar(n / 16), HexChar(n % 16)] else [c]
  }

  function RereadAll(s: string): string {
    if s == "" then "" else Reread(s[0]) + RereadAll(s[1..])
  }

  /** x stands in s at p. */
  predicate Here(s: string, p: nat, x: string) { p + |x| <= |s| && s[p..p + |x|] == x }

  lemma HereSplit(s: string, p: nat, a: string, b: string)
    requires Here(s, p, a + b)
    ensures Here(s, p, a) && Here(s, p + |a|, b)
  {
    var x := s[p..p + |a| + |b|];
    assert x[..|a|] == a && x[|a|..] == b;
    assert s[p..p + |a|] == x[..|a|] && s[p + |a|..p + |a| + |b|] == x[|a|..];
  }

  lemma HereAt(s: string, p: nat, x: string, i: nat)
    requires Here(s, p, x) && i < |x|
    ensures p + i < |s| && s[p + i] == x[i] == Char(s, |s|, p + i)
  {
    assert s[p..p + |x|][i] == s[p + i];
  }

  lemma HexCharIs(d: nat)
    requires d < 16
    ensures HexChar(d) != NUL && HexChar(d) != '"' && HexChar(d) != '\\'
  {
  }

  /** One written character, read in a string. */
  lemma RereadChar(s: string, i: nat, c: char)
    requires Here(s, i, Encoded(c))
    ensures var (t, j) := DoubleQuoted(s, |s|, i + |Encoded(c)|);
      DoubleQuoted(s, |s|, i) == (Reread(c) + t, j)
  {
    var x := Encoded(c);
    var e := |s|;
    var (t, j) := DoubleQuoted(s, e, i + |x|);
    HereAt(s, i, x, 0);
    if |x| == 2 {
      HereAt(s, i, x, 1);
      assert DoubleQuoted(s, e, i) == (Reread(c) + t, j);
    } else if |x| == 4 {
      var n := c as int % 256;
      HereAt(s, i, x, 1);
      HereAt(s, i, x, 2);
      HereAt(s, i, x, 3);
      HexCharIs(n / 16);
      HexCharIs(n % 16);
      assert DoubleQuoted(s, e, i + 3) == ([HexChar(n % 16)] + t, j);
      assert DoubleQuoted(s, e, i + 2) == ([HexChar(n / 16)] + ([HexChar(n % 16)] + t), j);
      assert DoubleQuoted(s, e, i) == (['x'] + ([HexChar(n / 16)] + ([HexChar(n % 16)] + t)), j);
      assert ['x'] + ([HexChar(n / 16)] + ([HexChar(n % 16)] + t)) == Reread(c) + t;
    } else {
      assert DoubleQuoted(s, e, i) == ([c] + t, j);
    }
  }

  lemma {:induction false} RereadString(s: string, i: nat, x: string)
    requires Here(s, i, Escaped(x) + "\"")
    ensures DoubleQuoted(s, |s|, i) == (RereadAll(x), i + |Escaped(x)| + 1)
    decreases |x|
  {
    hide Encoded, Reread, DoubleQuoted;
    if x == "" {
      assert Escaped(x) + "\"" == "\"";
      HereAt(s, i, "\"", 0);
      StringEnds(s, i);
    } else {
      var a, b := Encoded(x[0]), Escaped(x[1..]);
      assert Escaped(x) + "\"" == a + (b + "\"");
      HereSplit(s, i, a, b + "\"");
      RereadChar(s, i, x[0]);
      RereadString(s, i + |a|, x[1..]);
    }
  }

  lemma StringEnds(s: string, i: nat)
    requires i < |s| && s[i] == '"'
    ensures DoubleQuoted(s, |s|, i) == ("", i + 1)
  {
  }

  lemma ScanString(s: string, p: nat, x: string)
    requires Here(s, p, Quote(x))
    ensures Scan(s, |s|, p) == Token(p, LEX_STR, RereadAll(x), p + |Quote(x)|)
  {
    hide DoubleQuoted, Escaped, RereadAll;
    assert Quote(x) == "\"" + (Escaped(x) + "\"");
    HereSplit(s, p, "\"", Escaped(x) + "\"");
    HereAt(s, p, "\"", 0);
    RereadString(s, p + 1, x);
  }

  /** A run that is as long as it looks. */
  lemma {:induction false} RunOver(s: string, e: nat, i: nat, j: nat, k: CharSet)
    requires i <= j <= e <= |s| && (forall x :: i <= x < j ==> In(k, s[x])) && !In(k, Char(s, e, j))
    ensures RunEnd(s, e, i, k) == j
    decreases j - i
  {
    if i < j { RunOver(s, e, i + 1, j, k); }
  }

  predicate AllWhite(w: string) { forall i :: 0 <= i < |w| ==> In(White, w[i]) }

  /** Not the start of white space or of a comment. */
  predicate Solid(c: char) { !In(White, c) && c != '/' }

  lemma TokenAfter(s: string, p: nat, w: string)
    requires Here(s, p, w) && AllWhite(w) && Solid(Char(s, |s|, p + |w|))
    ensures Skip(s, |s|, p) == p + |w| && TokenAt(s, |s|, p) == Scan(s, |s|, p + |w|)
  {
    hide Scan;
    forall x | p <= x < p + |w| ensures In(White, s[x]) { HereAt(s, p, w, x - p); }
    RunOver(s, |s|, p, p + |w|, White);
  }

  /** Punctuation of the literals. */
  predicate Mark(c: char) { c == '{' || c == '}' || c == '[' || c == ']' || c == ',' || c == ':' || c == '-' }

  lemma ScanMark(s: string, q: nat)
    requires q < |s| && Mark(s[q]) && (s[q] == '-' ==> IsDigit(Char(s, |s|, q + 1)))
    ensures Scan(s, |s|, q) == Token(q, s[q] as int, "", q + 1) && Solid(s[q])
  {
  }

  /** What may come behind a value. */
  predicate Stop(c: char) { c == NUL || c == ',' || c == '\n' }

  lemma NullKind()
    ensures WordKind("null") == LEX_R_NULL
  {
    var w := "null";
    assert w[0] == 'n';
    assert WordKindFrom(w, 12) == LEX_R_NULL;
    assert RESERVED[11][0] == 'f' && WordKindFrom(w, 11) == LEX_R_NULL;
    assert RESERVED[10][0] == 't' && WordKindFrom(w, 10) == LEX_R_NULL;
    assert RESERVED[9][0] == 'v' && WordKindFrom(w, 9) == LEX_R_NULL;
    assert RESERVED[8][0] == 'r' && WordKindFrom(w, 8) == LEX_R_NULL;
    assert RESERVED[7][0] == 'f' && WordKindFrom(w, 7) == LEX_R_NULL;
    assert RESERVED[6][0] == 'c' && WordKindFrom(w, 6) == LEX_R_NULL;
    assert RESERVED[5][0] == 'b' && WordKindFrom(w, 5) == LEX_R_NULL;
    assert RESERVED[4][0] == 'f' && WordKindFrom(w, 4) == LEX_R_NULL;
    assert RESERVED[3][0] == 'w' && WordKindFrom(w, 3) == LEX_R_NULL;
    assert RESERVED[2][0] == 'd' && WordKindFrom(w, 2) == LEX_R_NULL;
    assert RESERVED[1][0] == 'e' && WordKindFrom(w, 1) == LEX_R_NULL;
    assert RESERVED[0][0] == 'i';
  }

  lemma UndefinedKind()
    ensures WordKind("undefined") == LEX_R_UNDEFINED
  {
    var w := "undefined";
    assert w[0] == 'u';
    assert WordKindFrom(w, 13) == LEX_R_UNDEFINED;
    assert RESERVED[12][0] == 'n' && WordKindFrom(w, 12) == LEX_R_UNDEFINED;
    assert RESERVED[11][0] == 'f' && WordKindFrom(w, 11) == LEX_R_UNDEFINED;
    assert RESERVED[10][0] == 't' && WordKindFrom(w, 10) == LEX_R_UNDEFINED;
    assert RESERVED[9][0] == 'v' && WordKindFrom(w, 9) == LEX_R_UNDEFINED;
    assert RESERVED[8][0] == 'r' && WordKindFrom(w, 8) == LEX_R_UNDEFINED;
    assert RESERVED[7][0] == 'f' && WordKindFrom(w, 7) == LEX_R_UNDEFINED;
    assert RESERVED[6][0] == 'c' && WordKindFrom(w, 6) == LEX_R_UNDEFINED;
    assert RESERVED[5][0] == 'b' && WordKindFrom(w, 5) == LEX_R_UNDEFINED;
    assert RESERVED[4][0] == 'f' && WordKindFrom(w, 4) == LEX_R_UNDEFINED;
    assert RESERVED[3][0] == 'w' && WordKindFrom(w, 3) == LEX_R_UNDEFINED;
    assert RESERVED[2][0] == 'd' && WordKindFrom(w, 2) == LEX_R_UNDEFINED;
    assert RESERVED[1][0] == 'e' && WordKindFrom(w, 1) == LEX_R_UNDEFINED;
    assert RESERVED[0][0] == 'i';
  }

  predicate IsWord(w: string) { w != "" && IsAlpha(w[0]) && forall i :: 0 <= i < |w| ==> In(Word, w[i]) }

  lemma ScanWord(s: string, q: nat, w: string)
    requires Here(s, q, w) && IsWord(w) && Stop(Char(s, |s|, q + |w|))
    ensures Scan(s, |s|, q) == Token(q, WordKind(w), w, q + |w|) && Solid(s[q])
  {
    hide WordKind;
    HereAt(s, q, w, 0);
    forall x | q <= x < q + |w| ensures In(Word, s[x]) { HereAt(s, q, w, x - q); }
    RunOver(s, |s|, q, q + |w|, Word);
  }

  lemma {:induction false} DigitsSnoc(t: string, c: char, acc: int)
    requires acc >= 0 && (forall i :: 0 <= i < |t| ==> IsDigit(t[i])) && IsDigit(c)
    ensures Digits(t + [c], 10, acc) == Digits(t, 10, acc) * 10 + (c as int - '0' as int)
    decreases |t|
  {
    if t == "" {
      assert t + [c] == [c];
      assert [c][1..] == "";
      assert Digits("", 10, acc * 10 + DigitValue(c)) == acc * 10 + DigitValue(c);
    } else {
      assert (t + [c])[1..] == t[1..] + [c];
      DigitsSnoc(t[1..], c, acc * 10 + DigitValue(t[0]));
    }
  }

  /** strtol undoes the printing of a number. */
  lemma {:induction false} DecimalValue(n: nat)
    ensures Digits(Decimal(n), 10, 0) == n
    ensures Decimal(n)[0] == '0' <==> n == 0
    ensures n == 0 ==> Decimal(n) == "0"
  {
    if n >= 10 {
      DecimalValue(n / 10);
      DigitsSnoc(Decimal(n / 10), ('0' as int + n % 10) as char, 0);
    } else {
      var c := ('0' as int + n) as char;
      assert [c][1..] == "";
      assert Digits([c], 10, 0) == Digits("", 10, DigitValue(c));
    }
  }

  lemma IntOfDecimal(n: nat)
    ensures IntOf(Decimal(n)) == if n > INT_MAX then INT_MAX else n
  {
    hide Decimal;
    DecimalValue(n);
    if n == 0 {
      assert "0"[1..] == "";
      assert Digits("0", 8, 0) == Digits("", 8, 0) == 0;
    }
  }

  lemma ScanInt(s: string, q: nat, n: nat)
    requires Here(s, q, Decimal(n)) && Stop(Char(s, |s|, q + |Decimal(n)|))
    ensures Scan(s, |s|, q) == Token(q, LEX_INT, Decimal(n), q + |Decimal(n)|) && IsDigit(s[q]) && Solid(s[q])
  {
    hide Decimal;
    var d, e := Decimal(n), |s|;
    var j := q + |d|;
    DecimalValue(n);
    HereAt(s, q, d, 0);
    forall x | q <= x < j ensures In(Digit, s[x]) { HereAt(s, q, d, x - q); }
    var z := AfterZero(s, e, q);
    assert n != 0 ==> z == q;
    RunOver(s, e, z, j, Digit);
    NumberIs(s, q, j);
  }

  lemma NumberIs(s: string, q: nat, j: nat)
    requires q < j <= |s| && IsDigit(s[q]) && AfterZero(s, |s|, q) <= j && RunEnd(s, |s|, AfterZero(s, |s|, q), Digit) == j && Stop(Char(s, |s|, j))
    requires AfterZero(s, |s|, q) < j ==> IsDigit(s[AfterZero(s, |s|, q)])
    ensures Scan(s, |s|, q) == Token(q, LEX_INT, s[q..j], j)
  {
    hide RunEnd;
    assert !IsHex(s, |s|, q);
    assert WholePart(s, |s|, q) == j;
    assert !HasFraction(s, |s|, q) && AfterFraction(s, |s|, q) == j;
    assert !HasExponent(s, |s|, q);
  }

  /** C++ ints. */
  ghost predicate InRange(v: Value)
    decreases v
  {
    match v
    case Int(n) => -0x8000_0000 <= n <= INT_MAX
    case Obj(ms) => forall i :: 0 <= i < |ms| ==> InRange(ms[i].value)
    case Arr(vs) => forall i :: 0 <= i < |vs| ==> InRange(vs[i])
    case _ => true
  }

  /** The value that comes back. */
  function Loaded(v: Value): (r: Value)
    decreases v, 1
  {
    match v
    case Undefined => Undefined
    case Null => Null
    case Int(n) => Int(if n == -0x8000_0000 then -INT_MAX else n)
    case Str(x) => Str(RereadAll(x))
    case Obj(ms) => Obj(LoadedMembers(v, |ms|))
    case Arr(vs) => Arr(LoadedItems(v, Shown(|vs|)))
  }

  function LoadedMembers(v: Value, k: nat): (r: seq<Member>)
    requires v.Obj? && k <= |v.members|
    ensures |r| == k
    decreases v, 0, k
  {
    if k == 0 then [] else LoadedMembers(v, k - 1) + [Member(RereadAll(v.members[k - 1].name), Loaded(v.members[k - 1].value))]
  }

  function LoadedItems(v: Value, k: nat): (r: seq<Value>)
    requires v.Arr? && k <= |v.items|
    ensures |r| == k
    decreases v, 0, k
  {
    if k == 0 then [] else LoadedItems(v, k - 1) + [Loaded(v.items[k - 1])]
  }

  /** Looking for a value behind white space. */
  lemma BaseAfter(s: string, p: nat, w: string)
    requires Clean(s) && Here(s, p, w) && AllWhite(w) && Solid(Char(s, |s|, p + |w|))
    ensures Base(s, |s|, p) == Base(s, |s|, p + |w|)
  {
    hide *;
    TokenAfter(s, p, w);
    TokenHere(s, p + |w|);
    BaseSame(s, |s|, p, p + |w|);
  }

  lemma TokenHere(s: string, p: nat)
    requires Solid(Char(s, |s|, p))
    ensures TokenAt(s, |s|, p) == Scan(s, |s|, p)
  {
    if p <= |s| {
      assert s[p..p] == "";
      TokenAfter(s, p, "");
    } else {
      AtEnd(s, |s|, p);
    }
  }

  /** Nothing behind the value will be taken for an operator or for more of the value. */
  ghost predicate Ends(s: string, q: nat) {
    q <= |s| && Stop(Char(s, |s|, q)) && !Operates(TokenAt(s, |s|, q).tk)
  }

  /** Behind a value: a comma, or a line break, white space and the closing mark c. */
  lemma EndsAt(s: string, q: nat, pre: string, c: char)
    requires AllWhite(pre) && (c == '}' || c == ']') && Here(s, q, "\n" + pre + [c])
    ensures Ends(s, q) && TokenAt(s, |s|, q) == Token(q + 1 + |pre|, c as int, "", q + |pre| + 2)
  {
    hide TokenAt, Scan;
    var w := "\n" + pre;
    HereSplit(s, q, w, [c]);
    HereAt(s, q + |w|, [c], 0);
    HereAt(s, q, w, 0);
    ScanMark(s, q + |w|);
    TokenAfter(s, q, w);
  }

  lemma CommaAt(s: string, q: nat)
    requires q < |s| && s[q] == ','
    ensures Ends(s, q) && TokenAt(s, |s|, q) == Token(q, ',' as int, "", q + 1)
  {
    hide TokenAt, Scan;
    ScanMark(s, q);
    TokenHere(s, q);
  }

  lemma Leaf(v: Value, s: string, p: nat)
    requires Clean(s) && (v.Undefined? || v.Null? || v.Int? || v.Str?) && InRange(v) && Here(s, p, Json(v, "")) && Ends(s, p + |Json(v, "")|)
    ensures Base(s, |s|, p) == Parsed(Loaded(v), p + |Json(v, "")|) && Solid(Char(s, |s|, p))
  {
    hide TokenAt, Scan, Base, Factor, Operates, IntOf, Decimal, WordKind, Quote, RereadAll;
    var e := |s|;
    FactorIs(s, e, p);
    match v
    case Undefined =>
      UndefinedKind();
      ScanWord(s, p, "undefined");
      TokenHere(s, p);
      BasePlain(s, e, p);
    case Null =>
      NullKind();
      ScanWord(s, p, "null");
      TokenHere(s, p);
      BasePlain(s, e, p);
    case Str(x) =>
      ScanString(s, p, x);
      QuoteStarts(s, p, x);
      TokenHere(s, p);
      BasePlain(s, e, p);
    case Int(n) =>
      LeafInt(n, s, p);
  }

  lemma QuoteStarts(s: string, p: nat, x: string)
    requires Here(s, p, Quote(x))
    ensures Solid(Char(s, |s|, p))
  {
    HereAt(s, p, Quote(x), 0);
  }

  lemma LeafInt(n: int, s: string, p: nat)
    requires Clean(s) && -0x8000_0000 <= n <= INT_MAX && Here(s, p, IntText(n)) && Ends(s, p + |IntText(n)|)
    ensures Base(s, |s|, p) == Parsed(Loaded(Int(n)), p + |IntText(n)|) && Solid(Char(s, |s|, p))
  {
    hide TokenAt, Scan, Base, Operates, Decimal, Here, Ends;
    if n >= 0 { LeafNat(n, s, p); } else { LeafNegative(-n, s, p); }
  }

  lemma LeafNat(n: nat, s: string, p: nat)
    requires Clean(s) && n <= INT_MAX && Here(s, p, Decimal(n)) && Ends(s, p + |Decimal(n)|)
    ensures Base(s, |s|, p) == Parsed(Int(n), p + |Decimal(n)|) && Solid(Char(s, |s|, p))
  {
    hide TokenAt, Scan, Base, Factor, Operates, IntOf, Decimal;
    ScanInt(s, p, n);
    TokenHere(s, p);
    IntOfDecimal(n);
    FactorIs(s, |s|, p);
    BasePlain(s, |s|, p);
  }

  lemma LeafNegative(n: nat, s: string, p: nat)
    requires Clean(s) && n <= INT_MAX + 1 && Here(s, p, "-" + Decimal(n)) && Ends(s, p + 1 + |Decimal(n)|)
    ensures Base(s, |s|, p) == Parsed(Int(if n > INT_MAX then -INT_MAX else -(n as int)), p + 1 + |Decimal(n)|) && Solid(Char(s, |s|, p))
  {
    hide TokenAt, Scan, Base, Factor, Operates, IntOf, Decimal, Here;
    var d := Decimal(n);
    HereSplit(s, p, "-", d);
    HereAt(s, p, "-", 0);
    EndsFacts(s, p + 1 + |d|);
    ScanInt(s, p + 1, n);
    TokenHere(s, p + 1);
    IntOfDecimal(n);
    FactorIs(s, |s|, p + 1);
    ScanMark(s, p);
    TokenHere(s, p);
    BaseMinus(s, |s|, p, if n > INT_MAX then INT_MAX else n, p + 1 + |d|);
  }

  lemma JsonStarts(v: Value, s: string, p: nat, prefix: string)
    requires Here(s, p, Json(v, prefix)) && (v.Obj? || v.Arr?)
    ensures p < |s| && s[p] == (if v.Obj? then '{' else '[') && Solid(s[p])
    ensures Scan(s, |s|, p) == Token(p, s[p] as int, "", p + 1) && TokenAt(s, |s|, p) == Scan(s, |s|, p)
  {
    hide MembersText, ItemsText, Scan, TokenAt;
    HereAt(s, p, Json(v, prefix), 0);
    ScanMark(s, p);
    TokenHere(s, p);
  }

  lemma JsonSolid(v: Value, s: string, p: nat, prefix: string)
    requires Here(s, p, Json(v, prefix))
    ensures Solid(Char(s, |s|, p)) && Char(s, |s|, p) != ']'
  {
    hide MembersText, ItemsText, Escaped, Decimal;
    if v.Int? { IntStarts(v.n); }
    assert |Json(v, prefix)| > 0;
    HereAt(s, p, Json(v, prefix), 0);
  }

  lemma IntStarts(n: int)
    ensures |IntText(n)| > 0 && (IntText(n)[0] == '-' || IsDigit(IntText(n)[0]))
  {
  }

  /** Printed and evaluated, a value comes back as Loaded(v), wherever in a text it stands. */
  lemma {:induction false} ValueReturns(v: Value, s: string, p: nat, prefix: string)
    requires Clean(s) && AllWhite(prefix) && InRange(v) && Here(s, p, Json(v, prefix)) && Ends(s, p + |Json(v, prefix)|)
    ensures Base(s, |s|, p) == Parsed(Loaded(v), p + |Json(v, prefix)|)
    decreases v, 1
  {
    hide *;
    var e := |s|;
    if v.Obj? || v.Arr? {
      JsonStarts(v, s, p, prefix);
      Deeper(prefix);
      FactorIs(s, e, p);
      EndsFacts(s, p + |Json(v, prefix)|);
      BasePlain(s, e, p);
      Mine();
      LoadedIs(v);
    }
    match v
    case Obj(ms) =>
      ObjText(v, prefix);
      HereSplit(s, p, "{", MembersRest(v, 0, " \n", prefix + "  ", prefix));
      MembersReturn(v, 0, s, p + 1, " \n", prefix + "  ", prefix);
    case Arr(vs) =>
      ShownIs(|vs|);
      ArrText(v, prefix);
      HereSplit(s, p, "[", ItemsRest(v, 0, prefix + "  ", prefix));
      ItemsReturn(v, 0, s, p + 1, prefix + "  ", prefix);
    case _ =>
      LeafText(v, prefix);
      Leaf(v, s, p);
  }

  lemma Mine()
    ensures '{' as int != '-' as int && '[' as int != '-' as int
  {
  }

  lemma LeafText(v: Value, prefix: string)
    requires !v.Obj? && !v.Arr?
    ensures Json(v, prefix) == Json(v, "")
  {
  }

  lemma ObjText(v: Value, prefix: string)
    requires v.Obj?
    ensures Json(v, prefix) == "{" + MembersRest(v, 0, " \n", prefix + "  ", prefix)
  {
    hide MembersText;
    var t := MembersText(v, 0, prefix + "  ");
    assert "{ \n" == "{" + " \n";
    Assoc("{", " \n", t);
    Assoc("{", " \n" + t, "\n");
    Assoc("{", " \n" + t + "\n", prefix);
    Assoc("{", " \n" + t + "\n" + prefix, "}");
  }

  lemma ArrText(v: Value, prefix: string)
    requires v.Arr?
    ensures Json(v, prefix) == "[" + ItemsRest(v, 0, prefix + "  ", prefix)
  {
    hide ItemsText;
    var t := ItemsText(v, 0, prefix + "  ");
    assert "[\n" == "[" + "\n";
    Assoc("[", "\n", t);
    Assoc("[", "\n" + t, "\n");
    Assoc("[", "\n" + t + "\n", prefix);
    Assoc("[", "\n" + t + "\n" + prefix, "]");
  }

  lemma EndsFacts(s: string, q: nat)
    requires Ends(s, q)
    ensures !Operates(TokenAt(s, |s|, q).tk)
  {
  }

  lemma Deeper(prefix: string)
    requires AllWhite(prefix)
    ensures AllWhite(prefix + "  ") && AllWhite(" \n") && AllWhite("\n") && AllWhite(" ")
  {
  }

  lemma WhiteJoin(a: string, b: string)
    requires AllWhite(a) && AllWhite(b)
    ensures AllWhite(a + b)
  {
  }

  /** The rest of an object from its i-th member on. */
  ghost function MembersRest(v: Value, i: nat, w: string, prefix: string, outer: string): string
    requires v.Obj? && i <= |v.members|
  {
    w + MembersText(v, i, prefix) + "\n" + outer + "}"
  }

  /** Where the parts of a member are, and what follows it. */
  lemma MemberLayout(v: Value, i: nat, s: string, p: nat, w: string, prefix: string, outer: string) returns (a: nat, b: nat, c: nat)
    requires v.Obj? && i < |v.members| && Here(s, p, MembersRest(v, i, w, prefix, outer))
    ensures a == p + |w + prefix| && Here(s, p, w + prefix) && Here(s, a, Quote(v.members[i].name)) && b == a + |Quote(v.members[i].name)|
    ensures Here(s, b, " :") && Here(s, b + 2, " ") && Here(s, b + 3, Json(v.members[i].value, prefix)) && c == b + 3 + |Json(v.members[i].value, prefix)|
    ensures i + 1 < |v.members| ==> c < |s| && s[c] == ',' && Here(s, c + 1, MembersRest(v, i + 1, "\n", prefix, outer))
    ensures i + 1 < |v.members| ==> p + |MembersRest(v, i, w, prefix, outer)| == c + 1 + |MembersRest(v, i + 1, "\n", prefix, outer)|
    ensures i + 1 == |v.members| ==> Here(s, c, "\n" + outer + "}") && p + |MembersRest(v, i, w, prefix, outer)| == c + |outer| + 2
  {
    hide *;
    var m := v.members[i];
    var tail := if i + 1 < |v.members| then ",\n" + MembersText(v, i + 1, prefix) else "";
    var k, j := Quote(m.name), Json(m.value, prefix);
    var after := tail + "\n" + outer + "}";
    var x := w + prefix;
    MemberText(v, i, w, prefix, outer, tail);
    a, b, c := Parts(s, p, x, k, j, after);
    if i + 1 < |v.members| {
      var more := MembersRest(v, i + 1, "\n", prefix, outer);
      MoreMembers(v, i, prefix, outer);
      HereSplit(s, c, ",", more);
      HereAt(s, c, ",", 0);
    } else {
      assert after == "\n" + outer + "}";
    }
  }

  lemma Parts(s: string, p: nat, x: string, k: string, j: string, after: string) returns (a: nat, b: nat, c: nat)
    requires Here(s, p, x + (k + (" :" + (" " + (j + after)))))
    ensures a == p + |x| && Here(s, p, x) && Here(s, a, k) && b == a + |k| && Here(s, b, " :") && Here(s, b + 2, " ")
    ensures Here(s, b + 3, j) && c == b + 3 + |j| && Here(s, c, after)
    ensures p + |x + (k + (" :" + (" " + (j + after))))| == c + |after|
  {
    hide Here;
    HereSplit(s, p, x, k + (" :" + (" " + (j + after))));
    a := p + |x|;
    HereSplit(s, a, k, " :" + (" " + (j + after)));
    b := a + |k|;
    HereSplit(s, b, " :", " " + (j + after));
    HereSplit(s, b + 2, " ", j + after);
    HereSplit(s, b + 3, j, after);
    c := b + 3 + |j|;
  }

  lemma Assoc(a: string, b: string, c: string)
    ensures (a + b) + c == a + (b + c)
  {
  }

  lemma MemberText(v: Value, i: nat, w: string, prefix: string, outer: string, tail: string)
    requires v.Obj? && i < |v.members| && tail == if i + 1 < |v.members| then ",\n" + MembersText(v, i + 1, prefix) else ""
    ensures MembersRest(v, i, w, prefix, outer) ==
      (w + prefix) + (Quote(v.members[i].name) + (" :" + (" " + (Json(v.members[i].value, prefix) + (tail + "\n" + outer + "}")))))
  {
    hide Json, Quote;
    var k, j := Quote(v.members[i].name), Json(v.members[i].value, prefix);
    var rest := MembersText(v, i + 1, prefix);
    assert MembersText(v, i, prefix) == prefix + k + " : " + j + tail;
    Regroup(w, prefix, k, j, tail, outer);
  }

  lemma Regroup(w: string, pre: string, k: string, j: string, tail: string, outer: string)
    ensures w + (pre + k + " : " + j + tail) + "\n" + outer + "}" == (w + pre) + (k + (" :" + (" " + (j + (tail + "\n" + outer + "}")))))
  {
    var c1, c2, c3 := "\n", "}", " : ";
    assert " : " == " :" + " ";
    calc {
      w + (pre + k + c3 + j + tail) + c1 + outer + c2;
      { Assoc(w + (pre + k + c3 + j + tail), c1, outer); }
      w + (pre + k + c3 + j + tail) + (c1 + outer) + c2;
      { Assoc(w + (pre + k + c3 + j + tail), c1 + outer, c2); }
      w + (pre + k + c3 + j + tail) + (c1 + outer + c2);
      { Assoc(w, pre + k + c3 + j + tail, c1 + outer + c2); }
      w + ((pre + k + c3 + j + tail) + (c1 + outer + c2));
      { Assoc(pre + k + c3 + j, tail, c1 + outer + c2); Assoc(tail, c1 + outer, c2); Assoc(tail, c1, outer); }
      w + ((pre + k + c3 + j) + (tail + c1 + outer + c2));
      { Assoc(pre + k + c3, j, tail + c1 + outer + c2); }
      w + ((pre + k + c3) + (j + (tail + c1 + outer + c2)));
      { Assoc(pre + k, c3, j + (tail + c1 + outer + c2)); Assoc(" :", " ", j + (tail + c1 + outer + c2)); }
      w + ((pre + k) + (" :" + (" " + (j + (tail + c1 + outer + c2)))));
      { Assoc(pre, k, " :" + (" " + (j + (tail + c1 + outer + c2)))); }
      w + (pre + (k + (" :" + (" " + (j + (tail + c1 + outer + c2))))));
      { Assoc(w, pre, k + (" :" + (" " + (j + (tail + c1 + outer + c2))))); }
      (w + pre) + (k + (" :" + (" " + (j + (tail + c1 + outer + c2)))));
    }
  }

  lemma MoreMembers(v: Value, i: nat, prefix: string, outer: string)
    requires v.Obj? && i + 1 < |v.members|
    ensures ",\n" + MembersText(v, i + 1, prefix) + "\n" + outer + "}" == "," + MembersRest(v, i + 1, "\n", prefix, outer)
  {
    hide MembersText;
    assert ",\n" == "," + "\n";
  }

  lemma MembersEmpty(v: Value, s: string, p: nat, w: string, prefix: string, outer: string)
    requires v.Obj? && |v.members| == 0 && AllWhite(w) && AllWhite(outer) && Here(s, p, MembersRest(v, 0, w, prefix, outer))
    ensures TokenAt(s, |s|, p).tk == '}' as int && TokenAt(s, |s|, p).next == p + |MembersRest(v, 0, w, prefix, outer)|
  {
    hide TokenAt, Scan, AllWhite;
    var x := w + "\n" + outer;
    assert MembersRest(v, 0, w, prefix, outer) == x + "}";
    Deeper(outer);
    WhiteJoin(w, "\n");
    WhiteJoin(w + "\n", outer);
    HereSplit(s, p, x, "}");
    HereAt(s, p + |x|, "}", 0);
    ScanMark(s, p + |x|);
    TokenAfter(s, p, x);
  }

  /** The key, the colon and the start of the value. */
  lemma MemberTokens(s: string, p: nat, x: string, a: nat, name: string, b: nat)
    requires Here(s, p, x) && AllWhite(x) && a == p + |x| && Here(s, a, Quote(name)) && b == a + |Quote(name)| && Here(s, b, " :")
    ensures TokenAt(s, |s|, p) == Token(a, LEX_STR, RereadAll(name), b) && TokenAt(s, |s|, b) == Token(b + 1, ':' as int, "", b + 2)
  {
    hide *;
    QuoteStarts(s, a, name);
    ScanString(s, a, name);
    TokenAfter(s, p, x);
    ColonAt(s, b);
  }

  /** The members from the i-th on, behind the brace or a comma and the white space w. */
  lemma {:induction false} MembersReturn(v: Value, i: nat, s: string, p: nat, w: string, prefix: string, outer: string)
    requires Clean(s) && v.Obj? && InRange(v) && i <= |v.members| && (i == |v.members| ==> i == 0)
    requires AllWhite(w) && AllWhite(prefix) && AllWhite(outer) && Here(s, p, MembersRest(v, i, w, prefix, outer))
    ensures Members(s, |s|, p, LoadedMembers(v, i)) == Parsed(Loaded(v), p + |MembersRest(v, i, w, prefix, outer)|)
    decreases v, 0, |v.members| - i
  {
    hide *;
    var e, n := |s|, |v.members|;
    MembersIs(s, e, p, LoadedMembers(v, i));
    LoadedIs(v);
    if i == n {
      MembersEmpty(v, s, p, w, prefix, outer);
    } else {
      var m := v.members[i];
      var a, b, c := MemberLayout(v, i, s, p, w, prefix, outer);
      WhiteJoin(w, prefix);
      MemberTokens(s, p, w + prefix, a, m.name, b);
      MemberInRange(v, i);
      JsonSolid(m.value, s, b + 3, prefix);
      Deeper(prefix);
      BaseAfter(s, b + 2, " ");
      LoadedStep(v, i);
      if i + 1 < n {
        CommaAt(s, c);
        ValueReturns(m.value, s, b + 3, prefix);
        MembersReturn(v, i + 1, s, c + 1, "\n", prefix, outer);
      } else {
        EndsAt(s, c, outer, '}');
        ValueReturns(m.value, s, b + 3, prefix);
      }
    }
  }

  lemma MemberInRange(v: Value, i: nat)
    requires v.Obj? && InRange(v) && i < |v.members|
    ensures InRange(v.members[i].value)
  {
  }

  lemma LoadedIs(v: Value)
    ensures v.Obj? ==> Loaded(v) == Obj(LoadedMembers(v, |v.members|)) && LoadedMembers(v, 0) == []
    ensures v.Arr? ==> Loaded(v) == Arr(LoadedItems(v, Shown(|v.items|))) && LoadedItems(v, 0) == []
  {
  }

  lemma LoadedStep(v: Value, i: nat)
    requires v.Obj? && i < |v.members|
    ensures LoadedMembers(v, i + 1) == LoadedMembers(v, i) + [Member(RereadAll(v.members[i].name), Loaded(v.members[i].value))]
  {
    hide Loaded, RereadAll;
  }

  lemma ColonAt(s: string, b: nat)
    requires Here(s, b, " :")
    ensures TokenAt(s, |s|, b) == Token(b + 1, ':' as int, "", b + 2)
  {
    hide TokenAt, Scan;
    HereAt(s, b, " :", 0);
    HereAt(s, b, " :", 1);
    assert s[b..b + 1] == " ";
    ScanMark(s, b + 1);
    TokenAfter(s, b, " ");
  }

  /** The rest of an array from its i-th item on. */
  ghost function ItemsRest(v: Value, i: nat, prefix: string, outer: string): string
    requires v.Arr? && i <= Shown(|v.items|)
  {
    "\n" + ItemsText(v, i, prefix) + "\n" + outer + "]"
  }

  lemma ItemLayout(v: Value, i: nat, s: string, p: nat, prefix: string, outer: string) returns (c: nat)
    requires v.Arr? && i < Shown(|v.items|) && Here(s, p, ItemsRest(v, i, prefix, outer))
    ensures i < |v.items| && Here(s, p, "\n") && Here(s, p + 1, Json(v.items[i], prefix)) && c == p + 1 + |Json(v.items[i], prefix)|
    ensures i + 1 < Shown(|v.items|) ==> c < |s| && s[c] == ',' && Here(s, c + 1, ItemsRest(v, i + 1, prefix, outer))
    ensures i + 1 < Shown(|v.items|) ==> p + |ItemsRest(v, i, prefix, outer)| == c + 1 + |ItemsRest(v, i + 1, prefix, outer)|
    ensures i + 1 == Shown(|v.items|) ==> Here(s, c, "\n" + outer + "]") && p + |ItemsRest(v, i, prefix, outer)| == c + |outer| + 2
  {
    hide *;
    ShownIs(|v.items|);
    var n := Shown(|v.items|);
    var j := Json(v.items[i], prefix);
    var tail := if i + 1 < n then ",\n" + ItemsText(v, i + 1, prefix) else "";
    var after := tail + "\n" + outer + "]";
    ItemText(v, i, prefix, outer, tail);
    HereSplit(s, p, "\n", j + after);
    HereSplit(s, p + 1, j, after);
    c := p + 1 + |j|;
    if i + 1 < n {
      MoreItems(v, i, prefix, outer);
      HereSplit(s, c, ",", ItemsRest(v, i + 1, prefix, outer));
      HereAt(s, c, ",", 0);
    } else {
      assert after == "\n" + outer + "]";
    }
  }

  lemma ItemText(v: Value, i: nat, prefix: string, outer: string, tail: string)
    requires v.Arr? && i < Shown(|v.items|) && tail == if i + 1 < Shown(|v.items|) then ",\n" + ItemsText(v, i + 1, prefix) else ""
    ensures i < |v.items| && ItemsRest(v, i, prefix, outer) == "\n" + (Json(v.items[i], prefix) + (tail + "\n" + outer + "]"))
  {
    hide Json;
    var j := Json(v.items[i], prefix);
    assert ItemsText(v, i, prefix) == j + tail;
    hide ItemsText;
    Assoc("\n", j, tail);
    Assoc("\n" + j, tail, "\n");
    Assoc("\n" + j, tail + "\n", outer);
    Assoc("\n" + j, tail + "\n" + outer, "]");
    Assoc("\n", j, tail + "\n" + outer + "]");
  }

  lemma MoreItems(v: Value, i: nat, prefix: string, outer: string)
    requires v.Arr? && i + 1 < Shown(|v.items|)
    ensures ",\n" + ItemsText(v, i + 1, prefix) + "\n" + outer + "]" == "," + ItemsRest(v, i + 1, prefix, outer)
  {
    hide ItemsText;
    assert ",\n" == "," + "\n";
  }

  lemma ItemsEmpty(v: Value, s: string, p: nat, prefix: string, outer: string)
    requires v.Arr? && Shown(|v.items|) == 0 && AllWhite(outer) && Here(s, p, ItemsRest(v, 0, prefix, outer))
    ensures TokenAt(s, |s|, p).tk == ']' as int && TokenAt(s, |s|, p).next == p + |ItemsRest(v, 0, prefix, outer)|
  {
    hide TokenAt, Scan, AllWhite;
    var x := "\n" + "\n" + outer;
    assert ItemsRest(v, 0, prefix, outer) == x + "]";
    Deeper(outer);
    WhiteJoin("\n", "\n");
    WhiteJoin("\n" + "\n", outer);
    HereSplit(s, p, x, "]");
    HereAt(s, p + |x|, "]", 0);
    ScanMark(s, p + |x|);
    TokenAfter(s, p, x);
  }

  /** The items from the i-th on, behind the bracket or a comma. */
  lemma {:induction false} ItemsReturn(v: Value, i: nat, s: string, p: nat, prefix: string, outer: string)
    requires Clean(s) && v.Arr? && InRange(v) && i <= Shown(|v.items|) && (i == Shown(|v.items|) ==> i == 0)
    requires AllWhite(prefix) && AllWhite(outer) && Here(s, p, ItemsRest(v, i, prefix, outer))
    ensures i <= |v.items| && Items(s, |s|, p, LoadedItems(v, i)) == Parsed(Loaded(v), p + |ItemsRest(v, i, prefix, outer)|)
    decreases v, 0, |v.items| - i
  {
    hide *;
    var e, n := |s|, Shown(|v.items|);
    ShownIs(|v.items|);
    ItemsIs(s, e, p, LoadedItems(v, i));
    LoadedIs(v);
    if i == n {
      ItemsEmpty(v, s, p, prefix, outer);
    } else {
      var c := ItemLayout(v, i, s, p, prefix, outer);
      Deeper(outer);
      ItemInRange(v, i);
      JsonSolid(v.items[i], s, p + 1, prefix);
      BaseAfter(s, p, "\n");
      NotBracket(s, p + 1);
      TokenAfter(s, p, "\n");
      LoadedItemStep(v, i);
      if i + 1 < n {
        CommaAt(s, c);
        ValueReturns(v.items[i], s, p + 1, prefix);
        ItemsReturn(v, i + 1, s, c + 1, prefix, outer);
      } else {
        EndsAt(s, c, outer, ']');
        ValueReturns(v.items[i], s, p + 1, prefix);
      }
    }
  }

  lemma ShownIs(n: nat)
    ensures Shown(n) <= n
  {
  }

  lemma ItemInRange(v: Value, i: nat)
    requires v.Arr? && InRange(v) && i < |v.items|
    ensures InRange(v.items[i])
  {
  }

  lemma LoadedItemStep(v: Value, i: nat)
    requires v.Arr? && i < |v.items|
    ensures LoadedItems(v, i + 1) == LoadedItems(v, i) + [Loaded(v.items[i])]
  {
    hide Loaded;
  }

  /** Only a bracket is lexed as one. */
  lemma NotBracket(s: string, q: nat)
    requires Char(s, |s|, q) != ']'
    ensures Scan(s, |s|, q).tk != ']' as int
  {
    hide RunEnd, NumberEnd, DoubleQuoted, SingleQuoted;
    WordKindHigh(Sub(s, q, RunEnd(s, |s|, q, Word)), 0);
  }

  lemma {:induction false} WordKindHigh(w: string, i: nat)
    requires i <= |RESERVED|
    ensures WordKindFrom(w, i) >= LEX_ID
    decreases |RESERVED| - i
  {
    if i < |RESERVED| { WordKindHigh(w, i + 1); }
  }

  /** Characters that getJSString and the lexer agree on: line feed and codes 32 to 127. */
  predicate Keeps(c: char) { c == '\n' || 32 <= c as int % 256 <= 127 }

  lemma RereadOne(c: char)
    ensures |Reread(c)| >= 1 && (Reread(c) == [c] <==> Keeps(c)) && (Keeps(c) ==> |Reread(c)| == 1)
  {
    var n := c as int % 256;
    if !Keeps(c) && c as int != 7 && c != '\r' { assert Reread(c) == ['x', HexChar(n / 16), HexChar(n % 16)]; }
  }

  lemma {:induction false} RereadLonger(s: string)
    ensures |RereadAll(s)| >= |s|
  {
    hide Reread;
    if s != "" {
      RereadOne(s[0]);
      RereadLonger(s[1..]);
    }
  }

  /** A string comes back if and only if it is made of such characters. */
  lemma {:induction false} StringReturns(s: string)
    ensures RereadAll(s) == s <==> forall i :: 0 <= i < |s| ==> Keeps(s[i])
    decreases |s|
  {
    hide Reread, Keeps;
    if s != "" {
      var a, t := Reread(s[0]), s[1..];
      RereadOne(s[0]);
      RereadLonger(t);
      StringReturns(t);
      if RereadAll(s) == s {
        assert |a| == 1;
        assert a == s[..1] && RereadAll(t) == RereadAll(s)[1..] == t;
        assert Keeps(s[0]);
        forall i | 0 <= i < |s| ensures Keeps(s[i]) { if i > 0 { assert s[i] == t[i - 1]; } }
      }
      if forall i :: 0 <= i < |s| ==> Keeps(s[i]) {
        assert Keeps(s[0]);
        forall i | 0 <= i < |t| ensures Keeps(t[i]) { assert t[i] == s[i + 1]; }
        assert s == [s[0]] + t;
      }
    }
  }

  predicate Plain(s: string) { forall i :: 0 <= i < |s| ==> Keeps(s[i]) }

  /** Values that survive: no smallest integer, plain strings and names, arrays of at most 10000 items. */
  ghost predicate Storable(v: Value)
    decreases v
  {
    match v
    case Undefined => true
    case Null => true
    case Int(n) => n != -0x8000_0000
    case Str(x) => Plain(x)
    case Obj(ms) => forall i :: 0 <= i < |ms| ==> Plain(ms[i].name) && Storable(ms[i].value)
    case Arr(vs) => |vs| <= 10000 && forall i :: 0 <= i < |vs| ==> Storable(vs[i])
  }

  lemma {:induction false} LoadedMemberAt(v: Value, k: nat, i: nat)
    requires v.Obj? && i < k <= |v.members|
    ensures LoadedMembers(v, k)[i] == Member(RereadAll(v.members[i].name), Loaded(v.members[i].value))
  {
    hide Loaded, RereadAll;
    if i < k - 1 { LoadedMemberAt(v, k - 1, i); }
  }

  lemma {:induction false} LoadedItemAt(v: Value, k: nat, i: nat)
    requires v.Arr? && i < k <= |v.items|
    ensures LoadedItems(v, k)[i] == Loaded(v.items[i])
  {
    hide Loaded;
    if i < k - 1 { LoadedItemAt(v, k - 1, i); }
  }

  lemma {:induction false} LoadedSame(v: Value)
    requires InRange(v)
    ensures Loaded(v) == v <==> Storable(v)
    decreases v
  {
    hide Loaded, LoadedMembers, LoadedItems, RereadAll, Plain;
    LoadedIs(v);
    match v
    case Obj(ms) =>
      forall i | 0 <= i < |ms|
        ensures LoadedMembers(v, |ms|)[i] == ms[i] <==> Plain(ms[i].name) && Storable(ms[i].value)
      {
        LoadedMemberAt(v, |ms|, i);
        NameReturns(ms[i].name);
        LoadedSame(ms[i].value);
      }
      ObjSame(ms, LoadedMembers(v, |ms|));
    case Arr(vs) =>
      ShownIs(|vs|);
      forall i | 0 <= i < Shown(|vs|) ensures LoadedItems(v, Shown(|vs|))[i] == vs[i] <==> Storable(vs[i]) {
        LoadedItemAt(v, Shown(|vs|), i);
        LoadedSame(vs[i]);
      }
    case _ => LeafSame(v);
  }

  lemma ObjSame(ms: seq<Member>, ls: seq<Member>)
    requires |ms| == |ls|
    ensures ls == ms <==> forall i :: 0 <= i < |ms| ==> ls[i] == ms[i]
  {
  }

  lemma NameReturns(s: string)
    ensures RereadAll(s) == s <==> Plain(s)
  {
    StringReturns(s);
  }

  lemma LeafSame(v: Value)
    requires !v.Obj? && !v.Arr? && InRange(v)
    ensures Loaded(v) == v <==> Storable(v)
  {
    if v.Str? { NameReturns(v.s); }
  }

  lemma CleanJoin(a: string, b: string)
    requires Clean(a) && Clean(b)
    ensures Clean(a + b)
  {
  }

  lemma {:induction false} EscapedClean(s: string)
    ensures Clean(Escaped(s))
    decreases |s|
  {
    hide Encoded;
    if s != "" {
      EncodedClean(s[0]);
      EscapedClean(s[1..]);
      CleanJoin(Encoded(s[0]), Escaped(s[1..]));
    }
  }

  lemma EncodedClean(c: char)
    ensures Clean(Encoded(c))
  {
    var n := c as int % 256;
    HexCharIs(n / 16);
    HexCharIs(n % 16);
  }

  lemma QuoteClean(s: string)
    ensures Clean(Quote(s))
  {
    hide Escaped, Clean;
    EscapedClean(s);
    LiteralsClean();
    CleanJoin("\"", Escaped(s));
    CleanJoin("\"" + Escaped(s), "\"");
  }

  lemma LiteralsClean()
    ensures Clean("\"") && Clean("{ \n") && Clean("\n") && Clean("}") && Clean("[\n") && Clean("]") && Clean(" : ") && Clean(",\n") && Clean("")
    ensures Clean("undefined") && Clean("null") && Clean("  ") && Clean("-")
  {
  }

  lemma IntClean(n: int)
    ensures Clean(IntText(n))
  {
    hide Decimal;
    if n < 0 { DigitsClean(Decimal(-n)); CleanJoin("-", Decimal(-n)); } else { DigitsClean(Decimal(n)); }
  }

  lemma DigitsClean(d: string)
    requires forall i :: 0 <= i < |d| ==> IsDigit(d[i])
    ensures Clean(d)
  {
  }

  lemma {:induction false} JsonClean(v: Value, prefix: string)
    requires Clean(prefix)
    ensures Clean(Json(v, prefix))
    decreases v, 1
  {
    hide Quote, IntText, MembersText, ItemsText, Clean;
    LiteralsClean();
    var p := prefix + "  ";
    CleanJoin(prefix, "  ");
    match v
    case Int(n) => IntClean(n);
    case Str(x) => QuoteClean(x);
    case Obj(ms) =>
      var t := MembersText(v, 0, p);
      MembersClean(v, 0, p);
      CleanJoin("{ \n", t);
      CleanJoin("{ \n" + t, "\n");
      CleanJoin("{ \n" + t + "\n", prefix);
      CleanJoin("{ \n" + t + "\n" + prefix, "}");
    case Arr(vs) =>
      var t := ItemsText(v, 0, p);
      ItemsClean(v, 0, p);
      CleanJoin("[\n", t);
      CleanJoin("[\n" + t, "\n");
      CleanJoin("[\n" + t + "\n", prefix);
      CleanJoin("[\n" + t + "\n" + prefix, "]");
    case _ =>
  }

  lemma {:induction false} MembersClean(v: Value, i: nat, prefix: string)
    requires Clean(prefix) && v.Obj? && i <= |v.members|
    ensures Clean(MembersText(v, i, prefix))
    decreases v, 0, |v.members| - i
  {
    hide Quote, Json, Clean;
    LiteralsClean();
    if i < |v.members| {
      var k, j := Quote(v.members[i].name), Json(v.members[i].value, prefix);
      QuoteClean(v.members[i].name);
      JsonClean(v.members[i].value, prefix);
      CleanJoin(prefix, k);
      CleanJoin(prefix + k, " : ");
      CleanJoin(prefix + k + " : ", j);
      var tail := if i + 1 < |v.members| then ",\n" + MembersText(v, i + 1, prefix) else "";
      if i + 1 < |v.members| {
        MembersClean(v, i + 1, prefix);
        CleanJoin(",\n", MembersText(v, i + 1, prefix));
      }
      CleanJoin(prefix + k + " : " + j, tail);
    }
  }

  lemma {:induction false} ItemsClean(v: Value, i: nat, prefix: string)
    requires Clean(prefix) && v.Arr? && i <= Shown(|v.items|)
    ensures Clean(ItemsText(v, i, prefix))
    decreases v, 0, |v.items| - i
  {
    hide Json, Clean;
    LiteralsClean();
    if i < Shown(|v.items|) {
      var j := Json(v.items[i], prefix);
      JsonClean(v.items[i], prefix);
      var tail := if i + 1 < Shown(|v.items|) then ",\n" + ItemsText(v, i + 1, prefix) else "";
      if i + 1 < Shown(|v.items|) {
        ItemsClean(v, i + 1, prefix);
        CleanJoin(",\n", ItemsText(v, i + 1, prefix));
      }
      CleanJoin(j, tail);
    }
  }

  /** Evaluating what getJSON printed gives Loaded(v), for every value; and that is the value itself if and only if
      the value is storable. */
  lemma JsonRoundTrip(v: Value)
    requires InRange(v)
    ensures Clean(Json(v, "")) && Evaluate(Json(v, "")) == Some(Loaded(v))
    ensures Evaluate(Json(v, "")) == Some(v) <==> Storable(v)
  {
    hide *;
    var s := Json(v, "");
    NothingClean();
    JsonClean(v, "");
    WholeHere(s);
    ValueReturns(v, s, 0, "");
    EvaluateIs(s, Loaded(v));
    LoadedSame(v);
  }

  lemma NothingClean()
    ensures Clean("") && AllWhite("")
  {
  }

  lemma WholeHere(s: string)
    ensures Here(s, 0, s) && Ends(s, |s|)
  {
    AtEnd(s, |s|, |s|);
  }

  lemma EvaluateIs(s: string, v: Value)
    requires Clean(s) && Base(s, |s|, 0) == Parsed(v, |s|)
    ensures Evaluate(s) == Some(v)
  {
    AtEnd(s, |s|, |s|);
  }

  /** The smallest integer comes back as another one. */
  lemma SmallestLost()
    ensures Clean(Json(Int(-0x8000_0000), "")) && Evaluate(Json(Int(-0x8000_0000), "")).Some?
    ensures Evaluate(Json(Int(-0x8000_0000), "")) != Some(Int(-0x8000_0000))
  {
    hide Evaluate, Json, Clean;
    JsonRoundTrip(Int(-0x8000_0000));
  }
}
