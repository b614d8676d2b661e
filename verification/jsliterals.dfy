/** The values of literals, by their spelling. */
module JsLiterals {
  import opened JsTokens
  import opened JsTables
  import opened JsRelex
  import opened JsJson
  import opened JsEval
  import opened JsRoundTrip

  /** Words that are values, and the values. */
  lemma WordValue(s: string, e: nat, p: nat, w: string)
    requires e <= |s| && Clean(s)
    requires var q := Skip(s, e, p);
      && w != "" && Letter(w[0]) && q + |w| <= e && s[q..q + |w|] == w && (forall i :: 0 <= i < |w| ==> Letter(w[i]) || Numeral(w[i]))
      && !Letter(Char(s, e, q + |w|)) && !Numeral(Char(s, e, q + |w|))
    ensures var r := Factor(s, e, p); var n := Skip(s, e, p) + |w|;
      && (w == "true" ==> r == Parsed(Int(1), n)) && (w == "false" ==> r == Parsed(Int(0), n))
      && (w == "null" ==> r == Parsed(Null, n)) && (w == "undefined" ==> r == Parsed(Undefined, n))
      && (w !in {"true", "false", "null", "undefined"} ==> r == Fail)
  {
    hide Scan, Skip, WordKind, WORDS, Members, Items;
    var q := Skip(s, e, p);
    var t := TokenAt(s, e, p);
    assert s[q] == w[0];
    WordToken(s, e, q);
    forall i | 0 <= i < |w| ensures s[q + i] == w[i] { assert s[q..q + |w|][i] == w[i]; }
    assert t.next == q + |w|;
    WordIs(w);
    WordRange(w);
    ValueWords();
  }

  lemma WordRange(w: string)
    ensures WordKind(w) == 256 || 280 <= WordKind(w) <= 294
    ensures WordKind(w) == 290 ==> w == "true"
    ensures WordKind(w) == 291 ==> w == "false"
    ensures WordKind(w) == 292 ==> w == "null"
    ensures WordKind(w) == 293 ==> w == "undefined"
  {
    hide WordKind;
    WordIs(w);
  }

  lemma ValueWords()
    ensures ("true", 290) in WORDS && ("false", 291) in WORDS && ("null", 292) in WORDS && ("undefined", 293) in WORDS
  {
    assert WORDS[10] == ("true", 290) && WORDS[11] == ("false", 291) && WORDS[12] == ("null", 292) && WORDS[13] == ("undefined", 293);
  }

  /** The number with the digits hs, the most significant first. */
  ghost function FromDigits(hs: seq<nat>, base: nat): nat {
    if hs == [] then 0 else base * FromDigits(hs[..|hs| - 1], base) + hs[|hs| - 1]
  }

  /** ds are digits with the values hs, all below base, and the digits end where rest begins. */
  ghost predicate Written(ds: string, rest: string, hs: seq<nat>, base: nat) {
    && |hs| == |ds| && (forall i :: 0 <= i < |ds| ==> DigitOf(ds[i], hs[i]) && hs[i] < base)
    && (rest != "" ==> !HexNumeral(rest[0]) || exists h :: base <= h < 16 && DigitOf(rest[0], h))
  }

  lemma NotDigit(c: char, base: nat)
    requires base <= 16 && (!HexNumeral(c) || exists h :: base <= h < 16 && DigitOf(c, h))
    ensures DigitValue(c) >= base
  {
    if HexNumeral(c) {
      var h :| base <= h < 16 && DigitOf(c, h);
      DigitIs(c, h);
    }
  }

  lemma {:induction false} DigitsAre(ds: string, rest: string, hs: seq<nat>, base: nat, k: nat)
    requires 0 < base <= 16 && Written(ds, rest, hs, base) && k <= |ds|
    ensures Digits(ds[k..] + rest, base, FromDigits(hs[..k], base)) == FromDigits(hs, base)
    decreases |ds| - k
  {
    hide DigitOf, DigitValue, HexNumeral;
    var u := ds[k..] + rest;
    if k == |ds| {
      assert hs[..k] == hs && u == rest;
      if rest != "" { NotDigit(rest[0], base); }
    } else {
      DigitIs(ds[k], hs[k]);
      assert u[0] == ds[k] && u[1..] == ds[k + 1..] + rest;
      assert hs[..k + 1][..k] == hs[..k];
      DigitsAre(ds, rest, hs, base, k + 1);
    }
  }

  function Capped(v: nat): int { if v > 0x7FFF_FFFF then 0x7FFF_FFFF else v }

  /** Hexadecimal, octal and decimal numbers, up to the largest integer. */
  lemma NumberValue(ds: string, rest: string, hs: seq<nat>)
    ensures Written(ds, rest, hs, 16) ==> IntOf("0x" + ds + rest) == Capped(FromDigits(hs, 16))
    ensures Written(ds, rest, hs, 8) && (ds + rest != "" ==> (ds + rest)[0] != 'x') ==> IntOf("0" + ds + rest) == Capped(FromDigits(hs, 8))
    ensures Written(ds, rest, hs, 10) && ds != "" && ds[0] != '0' ==> IntOf(ds + rest) == Capped(FromDigits(hs, 10))
  {
    hide Digits, DigitOf, Written;
    assert hs[..0] == [] && ds[0..] == ds;
    if Written(ds, rest, hs, 16) {
      DigitsAre(ds, rest, hs, 16, 0);
      assert ("0x" + ds + rest)[2..] == ds + rest;
    }
    if Written(ds, rest, hs, 8) {
      DigitsAre(ds, rest, hs, 8, 0);
      LeadingZero(ds + rest);
      assert "0" + ds + rest == "0" + (ds + rest);
    }
    if Written(ds, rest, hs, 10) { DigitsAre(ds, rest, hs, 10, 0); }
  }

  lemma LeadingZero(u: string)
    ensures Digits("0" + u, 8, 0) == Digits(u, 8, 0)
  {
    assert ("0" + u)[1..] == u;
  }

  lemma HexCharDigit(d: nat)
    requires d < 16
    ensures DigitOf(HexChar(d), d)
  {
  }

  lemma EncodedIs(c: char)
    requires c as int < 256
    ensures |Encoded(c)| == 1 || |Encoded(c)| == 2 || Encoded(c) == ['\\', 'x', HexChar(c as int / 16), HexChar(c as int % 16)]
  {
  }

  lemma EscapeShort(s: string, i: nat, c: char)
    requires Here(s, i, Encoded(c)) && |Encoded(c)| == 2
    ensures Char(s, |s|, i) == '\\' && Escape(s, |s|, i + 1) == (c, i + 2)
  {
    hide Here, Strtol;
    HereAt(s, i, Encoded(c), 0);
    HereAt(s, i, Encoded(c), 1);
  }

  lemma EscapeHex(s: string, i: nat, n: nat)
    requires n < 256 && Here(s, i, ['\\', 'x', HexChar(n / 16), HexChar(n % 16)])
    ensures Char(s, |s|, i) == '\\' && Escape(s, |s|, i + 1) == (n as char, i + 4)
  {
    hide Here, Strtol, HexChar, DigitOf;
    var x := ['\\', 'x', HexChar(n / 16), HexChar(n % 16)];
    HereAt(s, i, x, 0);
    HereAt(s, i, x, 1);
    HereAt(s, i, x, 2);
    HereAt(s, i, x, 3);
    HexCharDigit(n / 16);
    HexCharDigit(n % 16);
    TwoDigits(x[2], x[3], n / 16, n % 16);
    assert [x[2], x[3]] == [Char(s, |s|, i + 2), Char(s, |s|, i + 3)];
  }

  /** An escape that getJSString writes is read as the character. */
  lemma EscapeBack(s: string, i: nat, c: char)
    requires Here(s, i, Encoded(c)) && c as int < 256 && |Encoded(c)| > 1
    ensures Char(s, |s|, i) == '\\' && Escape(s, |s|, i + 1) == (c, i + |Encoded(c)|)
  {
    hide Here, Encoded, Escape;
    EncodedIs(c);
    if |Encoded(c)| == 2 { EscapeShort(s, i, c); } else { EscapeHex(s, i, c as int); }
  }

  lemma SingleStep(s: string, i: nat)
    requires i < |s| && s[i] != NUL
    ensures s[i] == '\'' ==> SingleQuoted(s, |s|, i) == ("", i + 1)
    ensures s[i] == '\\' ==>
      SingleQuoted(s, |s|, i) == ([Escape(s, |s|, i + 1).0] + SingleQuoted(s, |s|, Escape(s, |s|, i + 1).1).0, SingleQuoted(s, |s|, Escape(s, |s|, i + 1).1).1)
    ensures s[i] != '\'' && s[i] != '\\' ==>
      SingleQuoted(s, |s|, i) == ([s[i]] + SingleQuoted(s, |s|, i + 1).0, SingleQuoted(s, |s|, i + 1).1)
  {
    hide Escape;
  }

  /** One character as getJSString writes it, read in a single-quoted string. */
  lemma SingleChar(s: string, i: nat, c: char)
    requires Here(s, i, Encoded(c)) && c as int < 256 && c != '\''
    ensures var (t, j) := SingleQuoted(s, |s|, i + |Encoded(c)|); SingleQuoted(s, |s|, i) == ([c] + t, j)
  {
    hide Escape, SingleQuoted, Here;
    HereAt(s, i, Encoded(c), 0);
    SingleStep(s, i);
    if |Encoded(c)| > 1 { EscapeBack(s, i, c); }
  }

  /** The escapes of getJSString are those of single-quoted strings: in single quotes every string without such a quote
      comes back. */
  lemma {:induction false} SingleReturns(s: string, i: nat, x: string)
    requires Here(s, i, Escaped(x) + "'") && forall k :: 0 <= k < |x| ==> x[k] as int < 256 && x[k] != '\''
    ensures SingleQuoted(s, |s|, i) == (x, i + |Escaped(x)| + 1)
    decreases |x|
  {
    hide Encoded, Here, SingleQuoted;
    if x == "" {
      assert Escaped(x) + "'" == "'";
      HereAt(s, i, "'", 0);
      SingleStep(s, i);
    } else {
      var a, b := Encoded(x[0]), Escaped(x[1..]);
      assert Escaped(x) + "'" == a + (b + "'");
      HereSplit(s, i, a, b + "'");
      SingleChar(s, i, x[0]);
      SingleReturns(s, i + |a|, x[1..]);
      assert [x[0]] + x[1..] == x;
    }
  }
}
