/** The tokens of a script: what getNextToken finds from a position of the text on. */
module JsTokens {

  const NUL: char := '\0'

  const LEX_EOF := 0
  const LEX_ID := 256
  const LEX_INT := 257
  const LEX_FLOAT := 258
  const LEX_STR := 259
  const LEX_EQUAL := 260
  const LEX_TYPEEQUAL := 261
  const LEX_NEQUAL := 262
  const LEX_NTYPEEQUAL := 263
  const LEX_LEQUAL := 264
  const LEX_LSHIFT := 265
  const LEX_LSHIFTEQUAL := 266
  const LEX_GEQUAL := 267
  const LEX_RSHIFT := 268
  const LEX_RSHIFTUNSIGNED := 269
  const LEX_RSHIFTEQUAL := 270
  const LEX_PLUSEQUAL := 271
  const LEX_MINUSEQUAL := 272
  const LEX_PLUSPLUS := 273
  const LEX_MINUSMINUS := 274
  const LEX_ANDEQUAL := 275
  const LEX_ANDAND := 276
  const LEX_OREQUAL := 277
  const LEX_OROR := 278
  const LEX_XOREQUAL := 279
  const LEX_R_IF := 280

  const RESERVED := ["if", "else", "do", "while", "for", "break", "continue", "function", "return", "var",
                     "true", "false", "null", "undefined", "new"]
  const LEX_R_TRUE := 290
  const LEX_R_FALSE := 291
  const LEX_R_NULL := 292
  const LEX_R_UNDEFINED := 293

  datatype CharSet = White | Word | Digit | HexDigit | Rest

  predicate IsDigit(c: char) { '0' <= c <= '9' }

  predicate IsAlpha(c: char) { 'a' <= c <= 'z' || 'A' <= c <= 'Z' || c == '_' }

  /** No set contains NUL. */
  predicate In(k: CharSet, c: char) {
    match k
    case White => c == ' ' || c == '\t' || c == '\n' || c == '\r'
    case Word => IsAlpha(c) || IsDigit(c)
    case Digit => IsDigit(c)
    case HexDigit => IsDigit(c) || 'a' <= c <= 'f' || 'A' <= c <= 'F'
    case Rest => c != NUL && c != '\n'
  }

  /** The character at i of the text s that ends at e. */
  function Char(s: string, e: nat, i: nat): char
    requires e <= |s|
  {
    if i < e then s[i] else NUL
  }

  /** End of the run of characters of k from i on. */
  function RunEnd(s: string, e: nat, i: nat, k: CharSet): (j: nat)
    requires e <= |s|
    ensures i <= j && (i <= e ==> j <= e) && !In(k, Char(s, e, j))
    ensures forall x :: i <= x < j ==> x < e && In(k, s[x])
    decreases if i < e then e - i else 0
  {
    if i < e && In(k, s[i]) then RunEnd(s, e, i + 1, k) else i
  }

  /** Where a block comment's closing pair starts, or the end of the text. */
  function BlockEnd(s: string, e: nat, i: nat): (j: nat)
    requires e <= |s|
    ensures i <= j
    decreases if i < e then e - i else 0
  {
    if Char(s, e, i) == NUL || (Char(s, e, i) == '*' && Char(s, e, i + 1) == '/') then i
    else if i < e then BlockEnd(s, e, i + 1) else i
  }

  predicate LineComment(s: string, e: nat, q: nat)
    requires e <= |s|
  {
    Char(s, e, q) == '/' && Char(s, e, q + 1) == '/'
  }

  predicate BlockComment(s: string, e: nat, q: nat)
    requires e <= |s|
  {
    Char(s, e, q) == '/' && Char(s, e, q + 1) == '*'
  }

  /** Start of the next token: behind white space and comments. */
  function Skip(s: string, e: nat, p: nat): (q: nat)
    requires e <= |s|
    ensures q >= p && !In(White, Char(s, e, q)) && !LineComment(s, e, q) && !BlockComment(s, e, q)
    decreases if p < e then e - p else 0
  {
    var q := RunEnd(s, e, p, White);
    if LineComment(s, e, q) then Skip(s, e, RunEnd(s, e, q, Rest) + 1)
    else if BlockComment(s, e, q) then Skip(s, e, BlockEnd(s, e, q) + 2)
    else q
  }

  datatype Token = Token(start: nat, tk: int, str: string, next: nat)

  /** A word is an identifier unless it is reserved. */
  function WordKind(w: string): int {
    WordKindFrom(w, 0)
  }

  function WordKindFrom(w: string, i: nat): int
    requires i <= |RESERVED|
    decreases |RESERVED| - i
  {
    if i == |RESERVED| then LEX_ID else if RESERVED[i] == w then LEX_R_IF + i else WordKindFrom(w, i + 1)
  }

  /** Stages of a number: an optional 0, an optional x behind it, digits, a fraction, an exponent. */
  function AfterZero(s: string, e: nat, q: nat): nat
    requires e <= |s|
  {
    if Char(s, e, q) == '0' then q + 1 else q
  }

  predicate IsHex(s: string, e: nat, q: nat)
    requires e <= |s|
  {
    Char(s, e, AfterZero(s, e, q)) == 'x'
  }

  function WholePart(s: string, e: nat, q: nat): nat
    requires e <= |s|
  {
    if IsHex(s, e, q) then RunEnd(s, e, AfterZero(s, e, q) + 1, HexDigit) else RunEnd(s, e, AfterZero(s, e, q), Digit)
  }

  predicate HasFraction(s: string, e: nat, q: nat)
    requires e <= |s|
  {
    !IsHex(s, e, q) && Char(s, e, WholePart(s, e, q)) == '.'
  }

  function AfterFraction(s: string, e: nat, q: nat): nat
    requires e <= |s|
  {
    var w := WholePart(s, e, q);
    if HasFraction(s, e, q) then RunEnd(s, e, w + 1, Digit) else w
  }

  predicate HasExponent(s: string, e: nat, q: nat)
    requires e <= |s|
  {
    !IsHex(s, e, q) && (Char(s, e, AfterFraction(s, e, q)) == 'e' || Char(s, e, AfterFraction(s, e, q)) == 'E')
  }

  function AfterSign(s: string, e: nat, x: nat): nat
    requires e <= |s|
  {
    if Char(s, e, x) == '-' then x + 1 else x
  }

  function NumberEnd(s: string, e: nat, q: nat): nat
    requires e <= |s|
  {
    var x := AfterFraction(s, e, q);
    if HasExponent(s, e, q) then RunEnd(s, e, AfterSign(s, e, x + 1), Digit) else x
  }

  function NumberKind(s: string, e: nat, q: nat): int
    requires e <= |s|
  {
    if HasFraction(s, e, q) || HasExponent(s, e, q) then LEX_FLOAT else LEX_INT
  }

  /** The text of a double-quoted string from i on, and the position behind it. */
  function DoubleQuoted(s: string, e: nat, i: nat): (r: (string, nat))
    requires e <= |s|
    ensures r.1 > i
    decreases if i < e then e - i else 0
  {
    var c := Char(s, e, i);
    if c == NUL || c == '"' || i >= e then ("", i + 1)
    else if c == '\\' then
      var d := Char(s, e, i + 1);
      var (t, j) := DoubleQuoted(s, e, i + 2);
      ([if d == 'n' then '\n' else d] + t, j)
    else
      var (t, j) := DoubleQuoted(s, e, i + 1);
      ([c] + t, j)
  }

  function DigitValue(c: char): int {
    if '0' <= c <= '9' then c as int - '0' as int
    else if 'a' <= c <= 'f' then c as int - 'a' as int + 10
    else if 'A' <= c <= 'F' then c as int - 'A' as int + 10
    else 99
  }

  /** strtol on the few characters of an escape, as a character. */
  function Digits(t: string, base: int, acc: int): int
    requires acc >= 0 && base > 0
  {
    if t == [] || DigitValue(t[0]) >= base then acc else Digits(t[1..], base, acc * base + DigitValue(t[0]))
  }

  function Strtol(t: string, base: int): int
    requires base > 0
  {
    if t != [] && (t[0] == ' ' || '\t' <= t[0] <= '\r') then Strtol(t[1..], base)
    else if t != [] && t[0] == '-' then -Digits(t[1..], base, 0)
    else if t != [] && t[0] == '+' then Digits(t[1..], base, 0)
    else Digits(t, base, 0)
  }

  function ToChar(v: int): char { (v % 256) as char }

  /** The escape behind a backslash at i in a single-quoted string: the character, and how far to go on. */
  function Escape(s: string, e: nat, i: nat): (char, nat)
    requires e <= |s|
  {
    var c := Char(s, e, i);
    if c == 'n' then ('\n', i + 1)
    else if c == 'a' then (7 as char, i + 1)
    else if c == 'r' then ('\r', i + 1)
    else if c == 't' then ('\t', i + 1)
    else if c == 'x' then (ToChar(Strtol([Char(s, e, i + 1), Char(s, e, i + 2)], 16)), i + 3)
    else if '0' <= c <= '7' then (ToChar(Strtol([c, Char(s, e, i + 1), Char(s, e, i + 2)], 8)), i + 3)
    else (c, i + 1)
  }

  function SingleQuoted(s: string, e: nat, i: nat): (r: (string, nat))
    requires e <= |s|
    ensures r.1 > i
    decreases if i < e then e - i else 0
  {
    var c := Char(s, e, i);
    if c == NUL || c == '\'' || i >= e then ("", i + 1)
    else if c == '\\' then
      var (d, k) := Escape(s, e, i + 1);
      var (t, j) := SingleQuoted(s, e, k);
      ([d] + t, j)
    else
      var (t, j) := SingleQuoted(s, e, i + 1);
      ([c] + t, j)
  }

  /** Operators: the kind, and how many of the three characters it takes. */
  function Operator(a: char, b: char, c: char): (r: (int, nat))
    ensures 1 <= r.1 <= 3
  {
    if a == '=' && b == '=' then if c == '=' then (LEX_TYPEEQUAL, 3) else (LEX_EQUAL, 2)
    else if a == '!' && b == '=' then if c == '=' then (LEX_NTYPEEQUAL, 3) else (LEX_NEQUAL, 2)
    else if a == '<' && b == '=' then (LEX_LEQUAL, 2)
    else if a == '<' && b == '<' then if c == '=' then (LEX_LSHIFTEQUAL, 3) else (LEX_LSHIFT, 2)
    else if a == '>' && b == '=' then (LEX_GEQUAL, 2)
    else if a == '>' && b == '>' then
      if c == '=' then (LEX_RSHIFTEQUAL, 3) else if c == '>' then (LEX_RSHIFTUNSIGNED, 3) else (LEX_RSHIFT, 2)
    else if a == '+' && b == '=' then (LEX_PLUSEQUAL, 2)
    else if a == '-' && b == '=' then (LEX_MINUSEQUAL, 2)
    else if a == '+' && b == '+' then (LEX_PLUSPLUS, 2)
    else if a == '-' && b == '-' then (LEX_MINUSMINUS, 2)
    else if a == '&' && b == '=' then (LEX_ANDEQUAL, 2)
    else if a == '&' && b == '&' then (LEX_ANDAND, 2)
    else if a == '|' && b == '=' then (LEX_OREQUAL, 2)
    else if a == '|' && b == '|' then (LEX_OROR, 2)
    else if a == '^' && b == '=' then (LEX_XOREQUAL, 2)
    else (a as int, 1)
  }

  function Sub(s: string, i: nat, j: nat): string {
    if i <= j <= |s| then s[i..j] else ""
  }

  /** The token that starts at q. */
  function Scan(s: string, e: nat, q: nat): Token
    requires e <= |s|
  {
    var c := Char(s, e, q);
    if IsAlpha(c) then
      var j := RunEnd(s, e, q, Word);
      Token(q, WordKind(Sub(s, q, j)), Sub(s, q, j), j)
    else if IsDigit(c) then
      var j := NumberEnd(s, e, q);
      Token(q, NumberKind(s, e, q), Sub(s, q, j), j)
    else if c == '"' then
      var (t, j) := DoubleQuoted(s, e, q + 1);
      Token(q, LEX_STR, t, j)
    else if c == '\'' then
      var (t, j) := SingleQuoted(s, e, q + 1);
      Token(q, LEX_STR, t, j)
    else if c == NUL then
      Token(q, LEX_EOF, "", q)
    else
      var (k, n) := Operator(c, Char(s, e, q + 1), Char(s, e, q + 2));
      Token(q, k, "", q + n)
  }

  /** getNextToken from position p on. */
  function TokenAt(s: string, e: nat, p: nat): Token
    requires e <= |s|
  {
    Scan(s, e, Skip(s, e, p))
  }
}
