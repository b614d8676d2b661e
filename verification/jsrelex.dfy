/** Lexing a part of a script again: the tokens are the same. */
module JsRelex {
  import opened JsTokens

  /** A C string. */
  predicate Clean(s: string) { forall i :: 0 <= i < |s| ==> s[i] != NUL }

  lemma {:induction false} RunSame(s: string, e: nat, b: nat, i: nat, k: CharSet)
    requires b <= e <= |s| && RunEnd(s, e, i, k) <= b
    ensures RunEnd(s, b, i, k) == RunEnd(s, e, i, k)
    decreases e - i
  {
    if i < e && In(k, s[i]) { RunSame(s, e, b, i + 1, k); }
  }

  lemma {:induction false} BlockSame(s: string, e: nat, b: nat, i: nat)
    requires b <= e <= |s| && Clean(s) && BlockEnd(s, e, i) + 2 <= b
    ensures BlockEnd(s, b, i) == BlockEnd(s, e, i)
    decreases e - i
  {
    if BlockEnd(s, e, i) != i { BlockSame(s, e, b, i + 1); }
  }

  lemma SkipUnfold(s: string, e: nat, p: nat)
    requires e <= |s|
    ensures var q := RunEnd(s, e, p, White);
      && q >= p
      && (LineComment(s, e, q) ==> Skip(s, e, p) == Skip(s, e, RunEnd(s, e, q, Rest) + 1) >= RunEnd(s, e, q, Rest) + 1 >= q + 2)
      && (BlockComment(s, e, q) ==> Skip(s, e, p) == Skip(s, e, BlockEnd(s, e, q) + 2) >= BlockEnd(s, e, q) + 2 >= q + 2)
      && (!LineComment(s, e, q) && !BlockComment(s, e, q) ==> Skip(s, e, p) == q)
  {
    var q := RunEnd(s, e, p, White);
    if LineComment(s, e, q) { assert In(Rest, s[q]) && q < e; }
  }

  lemma CommentSame(s: string, e: nat, b: nat, q: nat)
    requires b <= e <= |s| && q < b
    ensures q + 1 < b ==> LineComment(s, b, q) == LineComment(s, e, q) && BlockComment(s, b, q) == BlockComment(s, e, q)
    ensures !LineComment(s, e, q) ==> !LineComment(s, b, q)
    ensures !BlockComment(s, e, q) ==> !BlockComment(s, b, q)
    ensures LineComment(s, e, q) ==> !BlockComment(s, e, q)
  {
  }

  lemma {:induction false} SkipSame(s: string, e: nat, b: nat, p: nat)
    requires b <= e <= |s| && Clean(s) && Skip(s, e, p) < b
    ensures Skip(s, b, p) == Skip(s, e, p)
    decreases e - p
  {
    hide RunEnd, BlockEnd, Skip, LineComment, BlockComment;
    var q := RunEnd(s, e, p, White);
    SkipUnfold(s, e, p);
    RunSame(s, e, b, p, White);
    SkipUnfold(s, b, p);
    CommentSame(s, e, b, q);
    if LineComment(s, e, q) {
      RunSame(s, e, b, q, Rest);
      SkipSame(s, e, b, RunEnd(s, e, q, Rest) + 1);
    } else if BlockComment(s, e, q) {
      BlockSame(s, e, b, q);
      SkipSame(s, e, b, BlockEnd(s, e, q) + 2);
    }
  }

  lemma NumberOrder(s: string, e: nat, q: nat)
    requires e <= |s|
    ensures q <= AfterZero(s, e, q) <= WholePart(s, e, q) <= AfterFraction(s, e, q) <= NumberEnd(s, e, q)
    ensures IsHex(s, e, q) ==> AfterZero(s, e, q) < WholePart(s, e, q)
    ensures HasFraction(s, e, q) ==> WholePart(s, e, q) < AfterFraction(s, e, q)
    ensures HasExponent(s, e, q) ==> AfterFraction(s, e, q) < AfterSign(s, e, AfterFraction(s, e, q) + 1) <= NumberEnd(s, e, q)
    ensures HasExponent(s, e, q) ==> AfterFraction(s, e, q) + 1 <= AfterSign(s, e, AfterFraction(s, e, q) + 1)
    ensures HasExponent(s, e, q) && Char(s, e, AfterFraction(s, e, q) + 1) == '-' ==> AfterFraction(s, e, q) + 2 <= NumberEnd(s, e, q)
  {
  }

  lemma WholeSame(s: string, e: nat, b: nat, q: nat)
    requires b <= e <= |s| && q < b && WholePart(s, e, q) <= b
    ensures IsHex(s, b, q) == IsHex(s, e, q) && WholePart(s, b, q) == WholePart(s, e, q)
  {
    NumberOrder(s, e, q);
    var z := AfterZero(s, e, q);
    assert AfterZero(s, b, q) == z;
    if IsHex(s, e, q) { RunSame(s, e, b, z + 1, HexDigit); } else { RunSame(s, e, b, z, Digit); }
  }

  lemma FractionSame(s: string, e: nat, b: nat, q: nat)
    requires b <= e <= |s| && q < b && AfterFraction(s, e, q) <= b
    ensures IsHex(s, b, q) == IsHex(s, e, q) && HasFraction(s, b, q) == HasFraction(s, e, q)
    ensures AfterFraction(s, b, q) == AfterFraction(s, e, q)
  {
    hide WholePart, IsHex;
    NumberOrder(s, e, q);
    WholeSame(s, e, b, q);
    if HasFraction(s, e, q) { RunSame(s, e, b, WholePart(s, e, q) + 1, Digit); }
  }

  lemma NumberSame(s: string, e: nat, b: nat, q: nat)
    requires b <= e <= |s| && q < b && NumberEnd(s, e, q) <= b
    ensures NumberEnd(s, b, q) == NumberEnd(s, e, q) && NumberKind(s, b, q) == NumberKind(s, e, q)
  {
    hide WholePart, IsHex, AfterFraction, HasFraction, RunEnd;
    NumberOrder(s, e, q);
    FractionSame(s, e, b, q);
    var x := AfterFraction(s, e, q);
    if HasExponent(s, e, q) {
      assert AfterSign(s, b, x + 1) == AfterSign(s, e, x + 1);
      RunSame(s, e, b, AfterSign(s, e, x + 1), Digit);
    }
  }

  lemma {:induction false} DoubleSame(s: string, e: nat, b: nat, i: nat)
    requires b <= e <= |s| && Clean(s) && DoubleQuoted(s, e, i).1 <= b
    ensures DoubleQuoted(s, b, i) == DoubleQuoted(s, e, i)
    decreases e - i
  {
    var c := Char(s, e, i);
    if c != NUL && c != '"' && i < e {
      if c == '\\' { DoubleSame(s, e, b, i + 2); } else { DoubleSame(s, e, b, i + 1); }
    }
  }

  lemma EscapeSame(s: string, e: nat, b: nat, i: nat)
    requires b <= e <= |s| && Escape(s, e, i).1 < b
    ensures Escape(s, b, i) == Escape(s, e, i) && Escape(s, e, i).1 > i
  {
  }

  lemma {:induction false} SingleSame(s: string, e: nat, b: nat, i: nat)
    requires b <= e <= |s| && Clean(s) && SingleQuoted(s, e, i).1 <= b
    ensures SingleQuoted(s, b, i) == SingleQuoted(s, e, i)
    decreases e - i
  {
    hide Escape;
    var c := Char(s, e, i);
    if c != NUL && c != '\'' && i < e {
      if c == '\\' {
        var k := Escape(s, e, i + 1).1;
        EscapeSame(s, e, b, i + 1);
        SingleSame(s, e, b, k);
      } else {
        SingleSame(s, e, b, i + 1);
      }
    }
  }

  /** An operator is settled by its own characters and the one behind it, and NUL continues none. */
  lemma OperatorSame(a: char, b: char, c: char)
    ensures Operator(a, b, c).1 == 1 ==> Operator(a, NUL, NUL) == Operator(a, b, c) && Operator(a, b, NUL) == Operator(a, b, c)
    ensures Operator(a, b, c).1 == 2 ==> Operator(a, b, NUL) == Operator(a, b, c)
  {
  }

  lemma ScanSame(s: string, e: nat, b: nat, q: nat)
    requires b <= e <= |s| && Clean(s) && q < b && Scan(s, e, q).next <= b
    ensures Scan(s, b, q) == Scan(s, e, q)
  {
    hide RunEnd, NumberEnd, NumberKind, DoubleQuoted, SingleQuoted, Operator, WordKind;
    var c := Char(s, e, q);
    if IsAlpha(c) {
      RunSame(s, e, b, q, Word);
    } else if IsDigit(c) {
      NumberSame(s, e, b, q);
    } else if c == '"' {
      DoubleSame(s, e, b, q + 1);
    } else if c == '\'' {
      SingleSame(s, e, b, q + 1);
    } else {
      OperatorSame(c, Char(s, e, q + 1), Char(s, e, q + 2));
    }
  }

  /** The token found from p on does not change when the text is cut somewhere behind it. */
  lemma TokenSame(s: string, e: nat, b: nat, p: nat)
    requires b <= e <= |s| && Clean(s) && TokenAt(s, e, p).start < b && TokenAt(s, e, p).next <= b
    ensures TokenAt(s, b, p) == TokenAt(s, e, p)
  {
    hide Skip, Scan;
    StartIs(s, e, p);
    SkipSame(s, e, b, p);
    ScanSame(s, e, b, Skip(s, e, p));
  }

  lemma StartIs(s: string, e: nat, p: nat)
    requires e <= |s|
    ensures TokenAt(s, e, p).start == Skip(s, e, p) >= p
  {
  }

  /** Looking for a token again from where it starts finds it. */
  lemma SkipTwice(s: string, e: nat, p: nat)
    requires e <= |s|
    ensures TokenAt(s, e, TokenAt(s, e, p).start) == TokenAt(s, e, p)
  {
    hide Scan;
    StartIs(s, e, p);
    var q := Skip(s, e, p);
    assert RunEnd(s, e, q, White) == q;
  }

  lemma RunGrows(s: string, e: nat, q: nat)
    requires e <= |s| && Clean(s) && q < e
    ensures Scan(s, e, q).next > q && Scan(s, e, q).tk != LEX_EOF
  {
    hide NumberKind, DoubleQuoted, SingleQuoted, Operator;
    NumberOrder(s, e, q);
    OperatorKinds(Char(s, e, q), Char(s, e, q + 1), Char(s, e, q + 2));
    WordKindIs(Sub(s, q, RunEnd(s, e, q, Word)), 0);
    if IsDigit(s[q]) { NumberLonger(s, e, q); }
    NumberKindIs(s, e, q);
  }

  lemma NumberKindIs(s: string, e: nat, q: nat)
    requires e <= |s|
    ensures NumberKind(s, e, q) != LEX_EOF
  {
  }

  lemma NumberLonger(s: string, e: nat, q: nat)
    requires e <= |s| && q < e && IsDigit(s[q])
    ensures NumberEnd(s, e, q) > q
  {
    NumberOrder(s, e, q);
    if s[q] != '0' { assert RunEnd(s, e, q, Digit) > q; }
  }

  lemma OperatorKinds(a: char, b: char, c: char)
    requires a != NUL
    ensures Operator(a, b, c).0 != LEX_EOF
  {
  }

  lemma {:induction false} WordKindIs(w: string, i: nat)
    requires i <= |RESERVED|
    ensures WordKindFrom(w, i) != LEX_EOF
    decreases |RESERVED| - i
  {
    if i < |RESERVED| { WordKindIs(w, i + 1); }
  }

  lemma AtEnd(s: string, e: nat, p: nat)
    requires e <= |s| && p >= e
    ensures TokenAt(s, e, p) == Token(p, LEX_EOF, "", p)
  {
    assert RunEnd(s, e, p, White) == p;
  }

  /** ts are the tokens from p on. */
  ghost predicate Tokens(s: string, e: nat, p: nat, ts: seq<Token>)
    requires e <= |s|
    decreases |ts|
  {
    ts != [] ==> ts[0] == TokenAt(s, e, p) && ts[0].tk != LEX_EOF && Tokens(s, e, ts[0].next, ts[1..])
  }

  ghost function EndOf(p: nat, ts: seq<Token>): nat
    decreases |ts|
  {
    if ts == [] then p else EndOf(ts[0].next, ts[1..])
  }

  lemma {:induction false} EndGrows(s: string, e: nat, p: nat, ts: seq<Token>)
    requires e <= |s| && Clean(s) && Tokens(s, e, p, ts)
    ensures EndOf(p, ts) >= p
    ensures ts != [] ==> p <= ts[0].start < ts[0].next <= EndOf(p, ts)
    decreases |ts|
  {
    hide TokenAt;
    if ts != [] {
      TokenIs(s, e, p);
      EndGrows(s, e, ts[0].next, ts[1..]);
    }
  }

  lemma TokenIs(s: string, e: nat, p: nat)
    requires e <= |s| && Clean(s)
    ensures TokenAt(s, e, p).start >= p
    ensures TokenAt(s, e, p).tk != LEX_EOF ==> TokenAt(s, e, p).start < e && TokenAt(s, e, p).next > TokenAt(s, e, p).start
    ensures TokenAt(s, e, p).tk == LEX_EOF ==> TokenAt(s, e, p).start >= e
  {
    hide Skip;
    StartIs(s, e, p);
    var q := Skip(s, e, p);
    if q < e { RunGrows(s, e, q); } else { assert Scan(s, e, q).tk == LEX_EOF; }
  }

  /** The sub-lexer for a stretch of tokens: cut off behind the last of them, the text gives the same tokens and then
      the end of the text. */
  lemma {:induction false} Relex(s: string, e: nat, p: nat, ts: seq<Token>, b: nat)
    requires e <= |s| && Clean(s) && Tokens(s, e, p, ts)
    requires if EndOf(p, ts) < e then EndOf(p, ts) <= b <= e else b == e
    ensures Tokens(s, b, p, ts)
    ensures b <= EndOf(p, ts) ==> TokenAt(s, b, EndOf(p, ts)).tk == LEX_EOF
    decreases |ts|
  {
    hide TokenAt;
    if ts == [] {
      if b <= p { AtEnd(s, b, p); }
    } else {
      EndGrows(s, e, p, ts);
      if b < e { TokenSame(s, e, b, p); }
      Relex(s, e, ts[0].next, ts[1..], b);
    }
  }

  /** One more token. */
  lemma {:induction false} TokensAppend(s: string, e: nat, p: nat, ts: seq<Token>, t: Token)
    requires e <= |s| && Tokens(s, e, p, ts) && t == TokenAt(s, e, EndOf(p, ts)) && t.tk != LEX_EOF
    ensures Tokens(s, e, p, ts + [t]) && EndOf(p, ts + [t]) == t.next
    decreases |ts|
  {
    hide TokenAt;
    if ts == [] {
      assert ([t])[1..] == [] && ts + [t] == [t];
    } else {
      TokensAppend(s, e, ts[0].next, ts[1..], t);
      assert (ts + [t])[1..] == ts[1..] + [t] && (ts + [t])[0] == ts[0];
    }
  }
}
