/** CScriptLex: the lexer as an object, and its sub-lexers. */
module JsLexer {
  import opened JsTokens
  import opened JsRelex

  class Lexer {
    const data: string
    const dataStart: nat
    const dataEnd: nat
    var dataPos: nat
    var currCh: char
    var nextCh: char
    var tk: int
    var tkStr: string
    var tokenStart: int
    var tokenEnd: int
    var tokenLastEnd: int

    ghost predicate Text()
    {
      Clean(data) && dataEnd <= |data|
    }

    /** The character in hand is the one at p. */
    ghost predicate Reads(p: nat)
      reads this`dataPos, this`currCh, this`nextCh
    {
      Text() && dataPos == p + 2 && currCh == Char(data, dataEnd, p) && nextCh == Char(data, dataEnd, p + 1)
    }

    /** The lexer holds token t and stands behind it. */
    ghost predicate Holds(t: Token)
      reads this
    {
      Reads(t.next) && tk == t.tk && tkStr == t.str && tokenStart == t.start && tokenEnd == t.next - 1
    }

    /** A lexer for the part of text from start to end, which may be empty. */
    constructor (text: string, start: nat, end: nat)
      requires Clean(text) && end <= |text|
      ensures data == text && dataStart == start && dataEnd == end && Text()
      ensures Holds(TokenAt(data, dataEnd, dataStart)) && tokenLastEnd == 0
    {
      data, dataStart, dataEnd := text, start, end;
      dataPos, currCh, nextCh, tk, tkStr := 0, NUL, NUL, 0, "";
      tokenStart, tokenEnd, tokenLastEnd := 0, 0, 0;
      new;
      Reset();
    }

    method GetNextCh()
      requires Text()
      modifies this`dataPos, this`currCh, this`nextCh
      ensures dataPos == old(dataPos) + 1 && currCh == old(nextCh) && nextCh == Char(data, dataEnd, old(dataPos))
    {
      currCh := nextCh;
      if dataPos < dataEnd {
        nextCh := data[dataPos];
      } else {
        nextCh := NUL;
      }
      dataPos := dataPos + 1;
    }

    /** getNextCh on from position p. */
    method Advance(ghost p: nat)
      requires Reads(p)
      modifies this`dataPos, this`currCh, this`nextCh
      ensures Reads(p + 1)
    {
      GetNextCh();
    }

    /** The text of the token that starts at q, up to i. */
    ghost predicate Taken(q: nat, i: nat)
      reads this`dataPos, this`currCh, this`nextCh, this`tkStr
    {
      Reads(i) && q <= i <= dataEnd && tkStr == Sub(data, q, i)
    }

    /** `tkStr += currCh; getNextCh();` */
    method Take(ghost q: nat, ghost i: nat)
      requires Taken(q, i) && currCh != NUL
      modifies this`dataPos, this`currCh, this`nextCh, this`tkStr
      ensures Taken(q, i + 1)
    {
      tkStr := tkStr + [currCh];
      assert Sub(data, q, i + 1) == Sub(data, q, i) + [data[i]];
      Advance(i);
    }

    /** Take a run of characters. */
    method TakeRun(k: CharSet, ghost q: nat, ghost i: nat) returns (ghost j: nat)
      requires Taken(q, i)
      modifies this`dataPos, this`currCh, this`nextCh, this`tkStr
      ensures j == RunEnd(data, dataEnd, i, k) && Taken(q, j)
    {
      hide *;
      j := i;
      TakenFacts(this, q, i);
      while In(k, currCh)
        invariant Taken(q, j) && dataEnd <= |data| && j <= dataEnd && RunEnd(data, dataEnd, j, k) == RunEnd(data, dataEnd, i, k)
        decreases dataEnd - j
      {
        TakenFacts(this, q, j);
        RunStep(data, dataEnd, j, k);
        Take(q, j);
        TakenFacts(this, q, j + 1);
        j := j + 1;
      }
      TakenFacts(this, q, j);
      RunStep(data, dataEnd, j, k);
    }

    /** Skip a run of characters. */
    method SkipRun(k: CharSet, ghost i: nat) returns (ghost j: nat)
      requires Reads(i)
      modifies this`dataPos, this`currCh, this`nextCh
      ensures j == RunEnd(data, dataEnd, i, k) && Reads(j)
    {
      hide *;
      j := i;
      ReadsFacts(this, i);
      while In(k, currCh)
        invariant Reads(j) && dataEnd <= |data| && RunEnd(data, dataEnd, j, k) == RunEnd(data, dataEnd, i, k)
        decreases dataEnd - j
      {
        ReadsFacts(this, j);
        RunStep(data, dataEnd, j, k);
        Advance(j);
        j := j + 1;
      }
      ReadsFacts(this, j);
      RunStep(data, dataEnd, j, k);
    }

    method SkipBlock(ghost i: nat) returns (ghost j: nat)
      requires Reads(i)
      modifies this`dataPos, this`currCh, this`nextCh
      ensures j == BlockEnd(data, dataEnd, i) && Reads(j)
    {
      hide *;
      j := i;
      ReadsFacts(this, i);
      while currCh != NUL && (currCh != '*' || nextCh != '/')
        invariant Reads(j) && dataEnd <= |data| && BlockEnd(data, dataEnd, j) == BlockEnd(data, dataEnd, i)
        decreases dataEnd - j
      {
        ReadsFacts(this, j);
        BlockStep(data, dataEnd, j);
        Advance(j);
        j := j + 1;
      }
      ReadsFacts(this, j);
      BlockStep(data, dataEnd, j);
    }

    /** The lexer has read the token t. */
    ghost predicate Read(t: Token)
      reads this`dataPos, this`currCh, this`nextCh, this`tk, this`tkStr
    {
      Reads(t.next) && tk == t.tk && tkStr == t.str
    }

    method LexWord(ghost q: nat)
      requires Reads(q) && IsAlpha(currCh) && tkStr == ""
      modifies this`dataPos, this`currCh, this`nextCh, this`tkStr, this`tk
      ensures Text() && Read(Scan(data, dataEnd, q))
    {
      hide RunEnd, WordKindFrom;
      var j := TakeRun(Word, q, q);
      tk := LEX_ID;
      var i := 0;
      while i < |RESERVED|
        invariant 0 <= i <= |RESERVED| && tk == LEX_ID && Taken(q, j) && WordKindFrom(tkStr, i) == WordKindFrom(tkStr, 0)
      {
        WordStep(tkStr, i);
        if tkStr == RESERVED[i] {
          tk := LEX_R_IF + i;
          return;
        }
        i := i + 1;
      }
      WordStep(tkStr, i);
    }

    method LexNumber(ghost q: nat)
      requires Reads(q) && IsDigit(currCh) && tkStr == ""
      modifies this`dataPos, this`currCh, this`nextCh, this`tkStr, this`tk
      ensures Text() && Read(Scan(data, dataEnd, q))
    {
      hide *;
      DigitStart(this, q);
      ghost var i := q;
      var isHex := false;
      if currCh == '0' {
        Take(q, i);
        i := i + 1;
      }
      TakenFacts(this, q, i);
      if currCh == 'x' {
        isHex := true;
        Take(q, i);
        i := i + 1;
      }
      tk := LEX_INT;
      TakenFacts(this, q, i);
      if isHex { i := TakeRun(HexDigit, q, i); } else { i := TakeRun(Digit, q, i); }
      WholeIs(data, dataEnd, q);
      TakenFacts(this, q, i);
      FractionIs(data, dataEnd, q);
      if !isHex && currCh == '.' {
        tk := LEX_FLOAT;
        Take(q, i);
        i := TakeRun(Digit, q, i + 1);
      }
      TakenFacts(this, q, i);
      ExponentIs(data, dataEnd, q);
      if !isHex && (currCh == 'e' || currCh == 'E') {
        tk := LEX_FLOAT;
        Take(q, i);
        i := i + 1;
        TakenFacts(this, q, i);
        SignIs(data, dataEnd, i);
        if currCh == '-' {
          Take(q, i);
          i := i + 1;
        }
        i := TakeRun(Digit, q, i);
      }
      NumberRead(this, q, i);
    }

    method LexDouble(ghost q: nat)
      requires Reads(q) && currCh == '"' && tkStr == ""
      modifies this`dataPos, this`currCh, this`nextCh, this`tkStr, this`tk
      ensures Text() && Read(Scan(data, dataEnd, q))
    {
      hide *;
      ReadsFacts(this, q);
      Advance(q);
      ghost var j := q + 1;
      ghost var whole := DoubleQuoted(data, dataEnd, q + 1);
      ReadsFacts(this, j);
      Joined(tkStr, whole.0);
      while currCh != NUL && currCh != '"'
        invariant Reads(j) && dataEnd <= |data| && currCh == Char(data, dataEnd, j) && (currCh != NUL ==> j < dataEnd)
        invariant whole == (tkStr + DoubleQuoted(data, dataEnd, j).0, DoubleQuoted(data, dataEnd, j).1)
        decreases dataEnd - j
      {
        DoubleStep(data, dataEnd, j, tkStr);
        if currCh == '\\' {
          Advance(j);
          j := j + 1;
          ReadsFacts(this, j);
          if currCh == 'n' {
            tkStr := tkStr + ['\n'];
          } else {
            tkStr := tkStr + [currCh];
          }
        } else {
          tkStr := tkStr + [currCh];
        }
        Advance(j);
        j := j + 1;
        ReadsFacts(this, j);
      }
      DoubleStep(data, dataEnd, j, tkStr);
      Advance(j);
      tk := LEX_STR;
      StringRead(this, q, j + 1);
    }

    /** The escape whose first character is at i, in a single-quoted string. */
    method LexEscape(ghost i: nat) returns (d: char, ghost k: nat)
      requires Reads(i)
      modifies this`dataPos, this`currCh, this`nextCh
      ensures dataEnd <= |data| && (d, k) == Escape(data, dataEnd, i) && Reads(k) && k > i
    {
      hide Reads, Strtol;
      ReadsFacts(this, i);
      var c := currCh;
      k := i + 1;
      if c == 'n' {
        d := '\n';
      } else if c == 'a' {
        d := 7 as char;
      } else if c == 'r' {
        d := '\r';
      } else if c == 't' {
        d := '\t';
      } else if c == 'x' {
        Advance(i);
        ReadsFacts(this, i + 1);
        var b0 := currCh;
        Advance(i + 1);
        ReadsFacts(this, i + 2);
        d := ToChar(Strtol([b0, currCh], 16));
        k := i + 3;
      } else if '0' <= c <= '7' {
        Advance(i);
        ReadsFacts(this, i + 1);
        var b1 := currCh;
        Advance(i + 1);
        ReadsFacts(this, i + 2);
        d := ToChar(Strtol([c, b1, currCh], 8));
        k := i + 3;
      } else {
        d := c;
      }
      Advance(k - 1);
    }

    method LexSingle(ghost q: nat)
      requires Reads(q) && currCh == '\'' && tkStr == ""
      modifies this`dataPos, this`currCh, this`nextCh, this`tkStr, this`tk
      ensures Text() && Read(Scan(data, dataEnd, q))
    {
      hide *;
      ReadsFacts(this, q);
      Advance(q);
      ghost var j := q + 1;
      ghost var whole := SingleQuoted(data, dataEnd, q + 1);
      ReadsFacts(this, j);
      Joined(tkStr, whole.0);
      while currCh != NUL && currCh != '\''
        invariant Reads(j) && dataEnd <= |data| && currCh == Char(data, dataEnd, j) && (currCh != NUL ==> j < dataEnd)
        invariant whole == (tkStr + SingleQuoted(data, dataEnd, j).0, SingleQuoted(data, dataEnd, j).1)
        decreases dataEnd - j
      {
        SingleStep(data, dataEnd, j, tkStr);
        if currCh == '\\' {
          Advance(j);
          var d, k := LexEscape(j + 1);
          tkStr := tkStr + [d];
          j := k;
        } else {
          tkStr := tkStr + [currCh];
          Advance(j);
          j := j + 1;
        }
        ReadsFacts(this, j);
      }
      SingleStep(data, dataEnd, j, tkStr);
      Advance(j);
      tk := LEX_STR;
      StringRead(this, q, j + 1);
    }

    /** `if (currCh == c) { tk = kind; getNextCh(); }` */
    method Follow(c: char, kind: int, ghost i: nat) returns (ok: bool)
      requires Reads(i) && c != NUL
      modifies this`dataPos, this`currCh, this`nextCh, this`tk
      ensures dataEnd <= |data| && ok == (Char(data, dataEnd, i) == c)
      ensures if ok then Reads(i + 1) && tk == kind else Reads(i) && tk == old(tk)
    {
      ok := currCh == c;
      if ok {
        tk := kind;
        Advance(i);
      }
    }

    method LexOperator(ghost q: nat)
      requires Reads(q) && tkStr == "" && !IsAlpha(currCh) && !IsDigit(currCh) && currCh != '"' && currCh != '\''
      modifies this`dataPos, this`currCh, this`nextCh, this`tk
      ensures Text() && Read(Scan(data, dataEnd, q))
    {
      hide Reads, Scan, Read, RunEnd, Text;
      ReadsFacts(this, q);
      ghost var c1, c2 := Char(data, dataEnd, q + 1), Char(data, dataEnd, q + 2);
      var a := currCh;
      tk := a as int;
      ghost var n := q;
      if a != NUL {
        Advance(q);
        n := q + 1;
        var ok := false;
        if a == '=' {
          ok := Follow('=', LEX_EQUAL, n);
          if ok { n := n + 1; ok := Follow('=', LEX_TYPEEQUAL, n); if ok { n := n + 1; } }
        } else if a == '!' {
          ok := Follow('=', LEX_NEQUAL, n);
          if ok { n := n + 1; ok := Follow('=', LEX_NTYPEEQUAL, n); if ok { n := n + 1; } }
        } else if a == '<' {
          ok := Follow('=', LEX_LEQUAL, n);
          if ok {
            n := n + 1;
          } else {
            ok := Follow('<', LEX_LSHIFT, n);
            if ok { n := n + 1; ok := Follow('=', LEX_LSHIFTEQUAL, n); if ok { n := n + 1; } }
          }
        } else if a == '>' {
          ok := Follow('=', LEX_GEQUAL, n);
          if ok {
            n := n + 1;
          } else {
            ok := Follow('>', LEX_RSHIFT, n);
            if ok {
              n := n + 1;
              ok := Follow('=', LEX_RSHIFTEQUAL, n);
              if ok { n := n + 1; } else { ok := Follow('>', LEX_RSHIFTUNSIGNED, n); if ok { n := n + 1; } }
            }
          }
        } else {
          n := LexPair(a, n);
        }
      }
      OperatorRead(this, q, n);
    }

    /** The operators of at most two characters. */
    method LexPair(a: char, ghost i: nat) returns (ghost n: nat)
      requires Reads(i) && tk == a as int && a != '=' && a != '!' && a != '<' && a != '>'
      modifies this`dataPos, this`currCh, this`nextCh, this`tk
      ensures Reads(n) && dataEnd <= |data|
      ensures forall c :: (tk, n) == (Operator(a, Char(data, dataEnd, i), c).0, i + Operator(a, Char(data, dataEnd, i), c).1 - 1)
    {
      hide Reads;
      n := i;
      var ok := false;
      if a == '+' {
        ok := Follow('=', LEX_PLUSEQUAL, i);
        if !ok { ok := Follow('+', LEX_PLUSPLUS, i); }
      } else if a == '-' {
        ok := Follow('=', LEX_MINUSEQUAL, i);
        if !ok { ok := Follow('-', LEX_MINUSMINUS, i); }
      } else if a == '&' {
        ok := Follow('=', LEX_ANDEQUAL, i);
        if !ok { ok := Follow('&', LEX_ANDAND, i); }
      } else if a == '|' {
        ok := Follow('=', LEX_OREQUAL, i);
        if !ok { ok := Follow('|', LEX_OROR, i); }
      } else if a == '^' {
        ok := Follow('=', LEX_XOREQUAL, i);
      } else {
        ReadsFacts(this, i);
      }
      if ok { n := i + 1; }
    }

    /** getNextToken. It ends on every text. */
    method GetNextToken(ghost p: nat)
      requires Reads(p)
      modifies this
      ensures Text() && Holds(TokenAt(data, dataEnd, p)) && tokenLastEnd == old(tokenEnd)
      decreases dataEnd - p
    {
      hide *;
      tk := 0;
      tkStr := "";
      ReadsFacts(this, p);
      var q := SkipRun(White, p);
      ReadsFacts(this, q);
      SkipStep(data, dataEnd, p);
      if currCh == '/' && nextCh == '/' {
        var j := SkipRun(Rest, q);
        Advance(j);
        GetNextToken(j + 1);
        return;
      }
      if currCh == '/' && nextCh == '*' {
        var j := SkipBlock(q);
        Advance(j);
        Advance(j + 1);
        GetNextToken(j + 2);
        return;
      }
      tokenStart := dataPos - 2;
      if IsAlpha(currCh) {
        LexWord(q);
      } else if IsDigit(currCh) {
        LexNumber(q);
      } else if currCh == '"' {
        LexDouble(q);
      } else if currCh == '\'' {
        LexSingle(q);
      } else {
        LexOperator(q);
      }
      tokenLastEnd := tokenEnd;
      tokenEnd := dataPos - 3;
      HoldsIntro(this, p, q);
    }

    /** reset: whatever happened before, the first token again. */
    method Reset()
      requires Text()
      modifies this
      ensures Text() && Holds(TokenAt(data, dataEnd, dataStart)) && tokenLastEnd == 0
    {
      hide TokenAt;
      dataPos := dataStart;
      tokenStart, tokenEnd, tokenLastEnd, tk, tkStr := 0, 0, 0, 0, "";
      GetNextCh();
      GetNextCh();
      GetNextToken(dataStart);
    }
  }

  lemma ReadsFacts(l: Lexer, p: nat)
    requires l.Reads(p)
    ensures l.dataEnd <= |l.data| && l.currCh == Char(l.data, l.dataEnd, p) && l.nextCh == Char(l.data, l.dataEnd, p + 1)
    ensures l.dataPos == p + 2 && (l.currCh != NUL ==> p < l.dataEnd)
  {
  }

  lemma TakenFacts(l: Lexer, q: nat, i: nat)
    requires l.Taken(q, i)
    ensures l.dataEnd <= |l.data| && q <= i <= l.dataEnd && l.currCh == Char(l.data, l.dataEnd, i)
    ensures l.currCh != NUL ==> i < l.dataEnd
    ensures In(Word, NUL) == In(Digit, NUL) == In(HexDigit, NUL) == false
  {
  }

  lemma RunStep(s: string, e: nat, i: nat, k: CharSet)
    requires e <= |s|
    ensures In(k, Char(s, e, i)) ==> i < e && RunEnd(s, e, i, k) == RunEnd(s, e, i + 1, k) && Char(s, e, i) != NUL
    ensures !In(k, Char(s, e, i)) ==> RunEnd(s, e, i, k) == i
  {
  }

  lemma BlockStep(s: string, e: nat, i: nat)
    requires e <= |s|
    ensures Char(s, e, i) == NUL || (Char(s, e, i) == '*' && Char(s, e, i + 1) == '/') ==> BlockEnd(s, e, i) == i
    ensures !(Char(s, e, i) == NUL || (Char(s, e, i) == '*' && Char(s, e, i + 1) == '/')) ==>
      i < e && BlockEnd(s, e, i) == BlockEnd(s, e, i + 1)
  {
  }

  lemma WordStep(w: string, i: nat)
    requires i <= |RESERVED|
    ensures i == |RESERVED| ==> WordKindFrom(w, i) == LEX_ID
    ensures i < |RESERVED| && RESERVED[i] == w ==> WordKindFrom(w, i) == LEX_R_IF + i
    ensures i < |RESERVED| && RESERVED[i] != w ==> WordKindFrom(w, i) == WordKindFrom(w, i + 1)
  {
  }

  lemma DigitStart(l: Lexer, q: nat)
    requires l.Reads(q) && IsDigit(l.currCh) && l.tkStr == ""
    ensures l.Taken(q, q) && l.dataEnd <= |l.data| && q < l.dataEnd && l.currCh == Char(l.data, l.dataEnd, q) && l.currCh != NUL
    ensures AfterZero(l.data, l.dataEnd, q) == if l.currCh == '0' then q + 1 else q
    ensures l.currCh != 'x' && 'x' != NUL && '.' != NUL && 'e' != NUL && 'E' != NUL && '-' != NUL && '0' != NUL
  {
  }

  lemma WholeIs(s: string, e: nat, q: nat)
    requires e <= |s|
    ensures IsHex(s, e, q) <==> Char(s, e, AfterZero(s, e, q)) == 'x'
    ensures WholePart(s, e, q) == if IsHex(s, e, q) then RunEnd(s, e, AfterZero(s, e, q) + 1, HexDigit) else RunEnd(s, e, AfterZero(s, e, q), Digit)
  {
  }

  lemma FractionIs(s: string, e: nat, q: nat)
    requires e <= |s|
    ensures HasFraction(s, e, q) <==> !IsHex(s, e, q) && Char(s, e, WholePart(s, e, q)) == '.'
    ensures AfterFraction(s, e, q) == if HasFraction(s, e, q) then RunEnd(s, e, WholePart(s, e, q) + 1, Digit) else WholePart(s, e, q)
  {
  }

  lemma ExponentIs(s: string, e: nat, q: nat)
    requires e <= |s|
    ensures var x := AfterFraction(s, e, q);
      && (HasExponent(s, e, q) <==> !IsHex(s, e, q) && (Char(s, e, x) == 'e' || Char(s, e, x) == 'E'))
      && NumberEnd(s, e, q) == (if HasExponent(s, e, q) then RunEnd(s, e, AfterSign(s, e, x + 1), Digit) else x)
      && NumberKind(s, e, q) == (if HasFraction(s, e, q) || HasExponent(s, e, q) then LEX_FLOAT else LEX_INT)
  {
  }

  lemma SignIs(s: string, e: nat, x: nat)
    requires e <= |s|
    ensures AfterSign(s, e, x) == if Char(s, e, x) == '-' then x + 1 else x
  {
  }

  lemma NumberRead(l: Lexer, q: nat, i: nat)
    requires l.Taken(q, i) && IsDigit(Char(l.data, l.dataEnd, q)) && i == NumberEnd(l.data, l.dataEnd, q) && l.tk == NumberKind(l.data, l.dataEnd, q)
    ensures l.Text() && l.Read(Scan(l.data, l.dataEnd, q))
  {
    hide NumberEnd, NumberKind;
  }

  lemma Joined(a: string, b: string)
    requires a == ""
    ensures a + b == b
  {
  }

  lemma DoubleStep(s: string, e: nat, i: nat, t: string)
    requires e <= |s|
    ensures Char(s, e, i) == NUL || Char(s, e, i) == '"' ==> DoubleQuoted(s, e, i) == ("", i + 1) && t + "" == t
    ensures Char(s, e, i) == '\\' ==>
      var d := if Char(s, e, i + 1) == 'n' then '\n' else Char(s, e, i + 1);
      t + DoubleQuoted(s, e, i).0 == (t + [d]) + DoubleQuoted(s, e, i + 2).0 && DoubleQuoted(s, e, i).1 == DoubleQuoted(s, e, i + 2).1
    ensures Char(s, e, i) != NUL && Char(s, e, i) != '"' && Char(s, e, i) != '\\' ==>
      t + DoubleQuoted(s, e, i).0 == (t + [Char(s, e, i)]) + DoubleQuoted(s, e, i + 1).0 && DoubleQuoted(s, e, i).1 == DoubleQuoted(s, e, i + 1).1
  {
  }

  lemma SingleStep(s: string, e: nat, i: nat, t: string)
    requires e <= |s|
    ensures Char(s, e, i) == NUL || Char(s, e, i) == '\'' ==> SingleQuoted(s, e, i) == ("", i + 1) && t + "" == t
    ensures Char(s, e, i) == '\\' ==>
      var (d, k) := Escape(s, e, i + 1);
      t + SingleQuoted(s, e, i).0 == (t + [d]) + SingleQuoted(s, e, k).0 && SingleQuoted(s, e, i).1 == SingleQuoted(s, e, k).1
    ensures Char(s, e, i) != NUL && Char(s, e, i) != '\'' && Char(s, e, i) != '\\' ==>
      t + SingleQuoted(s, e, i).0 == (t + [Char(s, e, i)]) + SingleQuoted(s, e, i + 1).0 && SingleQuoted(s, e, i).1 == SingleQuoted(s, e, i + 1).1
  {
    hide Escape;
  }

  lemma StringRead(l: Lexer, q: nat, n: nat)
    requires l.Reads(n) && l.tk == LEX_STR
    requires (Char(l.data, l.dataEnd, q) == '"' && (l.tkStr, n) == DoubleQuoted(l.data, l.dataEnd, q + 1))
          || (Char(l.data, l.dataEnd, q) == '\'' && (l.tkStr, n) == SingleQuoted(l.data, l.dataEnd, q + 1))
    ensures l.Text() && l.Read(Scan(l.data, l.dataEnd, q))
  {
    hide DoubleQuoted, SingleQuoted;
  }

  lemma OperatorRead(l: Lexer, q: nat, n: nat)
    requires l.Reads(n) && l.tkStr == ""
    requires var c := Char(l.data, l.dataEnd, q);
      && !IsAlpha(c) && !IsDigit(c) && c != '"' && c != '\''
      && (l.tk, n) == (if c == NUL then (0, q)
                       else var (k, m) := Operator(c, Char(l.data, l.dataEnd, q + 1), Char(l.data, l.dataEnd, q + 2)); (k, q + m))
    ensures l.Text() && l.Read(Scan(l.data, l.dataEnd, q))
  {
    hide Operator;
  }

  lemma SkipStep(s: string, e: nat, p: nat)
    requires e <= |s|
    ensures var q := RunEnd(s, e, p, White);
      && q >= p
      && (Char(s, e, q) == '/' && Char(s, e, q + 1) == '/' ==>
            TokenAt(s, e, p) == TokenAt(s, e, RunEnd(s, e, q, Rest) + 1) && RunEnd(s, e, q, Rest) >= q && q < e)
      && (Char(s, e, q) == '/' && Char(s, e, q + 1) == '*' ==>
            TokenAt(s, e, p) == TokenAt(s, e, BlockEnd(s, e, q) + 2) && BlockEnd(s, e, q) >= q && q < e)
      && (!(Char(s, e, q) == '/' && (Char(s, e, q + 1) == '/' || Char(s, e, q + 1) == '*')) ==> TokenAt(s, e, p) == Scan(s, e, q))
  {
    hide Scan;
  }

  lemma HoldsIntro(l: Lexer, p: nat, q: nat)
    requires l.Text() && l.Read(Scan(l.data, l.dataEnd, q)) && TokenAt(l.data, l.dataEnd, p) == Scan(l.data, l.dataEnd, q)
    requires l.tokenStart == q && l.tokenEnd == l.dataPos - 3
    ensures l.Holds(TokenAt(l.data, l.dataEnd, p))
  {
  }

  /** What the parser sees of a token. */
  datatype Seen = Seen(tk: int, str: string)

  /** getSubLex: a lexer for the text from lastPosition up to the end of the last token consumed. */
  method GetSubLex(l: Lexer, lastPosition: nat) returns (sub: Lexer)
    requires l.Text() && l.tokenLastEnd >= -1
    ensures fresh(sub) && sub.Text() && sub.data == l.data && sub.dataStart == lastPosition
    ensures sub.dataEnd == if l.tokenLastEnd + 1 < l.dataEnd then l.tokenLastEnd + 1 else l.dataEnd
  {
    var lastCharIdx := l.tokenLastEnd + 1;
    if lastCharIdx < l.dataEnd {
      sub := new Lexer(l.data, lastPosition, lastCharIdx);
    } else {
      sub := new Lexer(l.data, lastPosition, l.dataEnd);
    }
  }

  /** reset, and then n tokens; the lexer is left holding the one behind them. */
  method Replay(l: Lexer, n: nat, ghost ts: seq<Token>) returns (seen: seq<Seen>)
    requires l.Text() && |ts| == n && Tokens(l.data, l.dataEnd, l.dataStart, ts)
    modifies l
    ensures l.Text() && |seen| == n && forall i :: 0 <= i < n ==> seen[i] == Seen(ts[i].tk, ts[i].str)
    ensures l.Holds(TokenAt(l.data, l.dataEnd, EndOf(l.dataStart, ts)))
  {
    hide *;
    l.Reset();
    seen := [];
    ghost var p, rest := l.dataStart, ts;
    TextFacts(l);
    var i := 0;
    assert ts[0..] == ts;
    while i < n
      invariant 0 <= i <= n && l.Text() && l.dataEnd <= |l.data| && |seen| == i && rest == ts[i..]
      invariant Tokens(l.data, l.dataEnd, p, rest) && EndOf(p, rest) == EndOf(l.dataStart, ts)
      invariant l.Holds(TokenAt(l.data, l.dataEnd, p))
      invariant forall j :: 0 <= j < i ==> seen[j] == Seen(ts[j].tk, ts[j].str)
    {
      TokensStep(l.data, l.dataEnd, p, rest);
      assert rest[0] == ts[i] && rest[1..] == ts[i + 1..];
      HoldsFacts(l, rest[0]);
      seen := seen + [Seen(l.tk, l.tkStr)];
      l.GetNextToken(rest[0].next);
      p, rest := rest[0].next, rest[1..];
      i := i + 1;
    }
    EndIs(p, rest);
  }

  lemma EndIs(p: nat, ts: seq<Token>)
    requires ts == []
    ensures EndOf(p, ts) == p
  {
  }

  lemma TextFacts(l: Lexer)
    requires l.Text()
    ensures l.dataEnd <= |l.data| && Clean(l.data)
  {
  }

  lemma HoldsFacts(l: Lexer, t: Token)
    requires l.Holds(t)
    ensures l.Reads(t.next) && l.tk == t.tk && l.tkStr == t.str && l.tokenStart == t.start && l.tokenEnd == t.next - 1
  {
  }

  lemma TokensStep(s: string, e: nat, p: nat, ts: seq<Token>)
    requires e <= |s| && Tokens(s, e, p, ts) && ts != []
    ensures ts[0] == TokenAt(s, e, p) && Tokens(s, e, ts[0].next, ts[1..]) && EndOf(p, ts) == EndOf(ts[0].next, ts[1..])
  {
  }

  /** The loops of the interpreter: the parent lexer has consumed the tokens ts from the token start a on and holds the
      next one. The sub-lexer taken now gives exactly ts after every reset, and then the end of the text. */
  method SubLexReplays(l: Lexer, a: nat, ghost ts: seq<Token>, times: nat) returns (runs: seq<seq<Seen>>)
    requires l.Text() && Tokens(l.data, l.dataEnd, a, ts) && ts != [] && l.tokenLastEnd == EndOf(a, ts) - 1
    ensures |runs| == times
    ensures forall k :: 0 <= k < times ==> |runs[k]| == |ts| + 1 && runs[k][|ts|].tk == LEX_EOF
    ensures forall k, i :: 0 <= k < times && 0 <= i < |ts| ==> runs[k][i] == Seen(ts[i].tk, ts[i].str)
  {
    hide *;
    TextFacts(l);
    var sub := GetSubLex(l, a);
    SubTokens(l.data, l.dataEnd, a, ts, sub.dataEnd);
    TextFacts(sub);
    var n := CountTokens(sub, ts);
    runs := [];
    while |runs| < times
      invariant |runs| <= times && sub.Text()
      invariant forall k :: 0 <= k < |runs| ==> |runs[k]| == |ts| + 1 && runs[k][|ts|].tk == LEX_EOF
      invariant forall k, i :: 0 <= k < |runs| && 0 <= i < |ts| ==> runs[k][i] == Seen(ts[i].tk, ts[i].str)
    {
      var seen := Replay(sub, n, ts);
      HoldsFacts(sub, TokenAt(sub.data, sub.dataEnd, EndOf(a, ts)));
      runs := runs + [seen + [Seen(sub.tk, sub.tkStr)]];
    }
  }

  lemma SubTokens(s: string, e: nat, a: nat, ts: seq<Token>, b: nat)
    requires e <= |s| && Clean(s) && Tokens(s, e, a, ts) && b == if EndOf(a, ts) < e then EndOf(a, ts) else e
    ensures b <= |s| && Tokens(s, b, a, ts) && TokenAt(s, b, EndOf(a, ts)).tk == LEX_EOF
  {
    Relex(s, e, a, ts, b);
  }

  /** Read to the end of the text once, counting. */
  method CountTokens(l: Lexer, ghost ts: seq<Token>) returns (n: nat)
    requires l.Text() && Tokens(l.data, l.dataEnd, l.dataStart, ts) && TokenAt(l.data, l.dataEnd, EndOf(l.dataStart, ts)).tk == LEX_EOF
    modifies l
    ensures l.Text() && n == |ts|
  {
    hide *;
    l.Reset();
    ghost var p, rest := l.dataStart, ts;
    TextFacts(l);
    n := 0;
    NotEof(l.data, l.dataEnd, p, rest);
    HoldsFacts(l, TokenAt(l.data, l.dataEnd, p));
    while l.tk != LEX_EOF
      invariant l.Text() && l.dataEnd <= |l.data| && n + |rest| == |ts|
      invariant Tokens(l.data, l.dataEnd, p, rest) && TokenAt(l.data, l.dataEnd, EndOf(p, rest)).tk == LEX_EOF
      invariant l.Holds(TokenAt(l.data, l.dataEnd, p)) && l.tk == TokenAt(l.data, l.dataEnd, p).tk
      invariant l.tk != LEX_EOF <==> rest != []
      decreases |rest|
    {
      TokensStep(l.data, l.dataEnd, p, rest);
      HoldsFacts(l, rest[0]);
      l.GetNextToken(rest[0].next);
      p, rest := rest[0].next, rest[1..];
      n := n + 1;
      HoldsFacts(l, TokenAt(l.data, l.dataEnd, p));
      NotEof(l.data, l.dataEnd, p, rest);
    }
  }

  lemma NotEof(s: string, e: nat, p: nat, ts: seq<Token>)
    requires e <= |s| && Tokens(s, e, p, ts) && TokenAt(s, e, EndOf(p, ts)).tk == LEX_EOF
    ensures TokenAt(s, e, p).tk != LEX_EOF <==> ts != []
  {
  }

  /** The parent reads up to n tokens from the one it holds on. */
  method Consume(l: Lexer, n: nat, ghost p: nat) returns (consumed: seq<Seen>, ghost ts: seq<Token>)
    requires l.Text() && l.Holds(TokenAt(l.data, l.dataEnd, p))
    modifies l
    ensures l.Text() && TokenAt(l.data, l.dataEnd, p).start == old(l.tokenStart)
    ensures Tokens(l.data, l.dataEnd, TokenAt(l.data, l.dataEnd, p).start, ts) && |consumed| == |ts| <= n
    ensures forall i :: 0 <= i < |ts| ==> consumed[i] == Seen(ts[i].tk, ts[i].str)
    ensures l.Holds(TokenAt(l.data, l.dataEnd, EndOf(TokenAt(l.data, l.dataEnd, p).start, ts)))
    ensures ts != [] ==> l.tokenLastEnd == EndOf(TokenAt(l.data, l.dataEnd, p).start, ts) - 1
    ensures |ts| < n ==> l.tk == LEX_EOF
  {
    hide *;
    TextFacts(l);
    SkipTwice(l.data, l.dataEnd, p);
    HoldsFacts(l, TokenAt(l.data, l.dataEnd, p));
    ghost var a := TokenAt(l.data, l.dataEnd, p).start;
    consumed, ts := [], [];
    TokensNone(l.data, l.dataEnd, a);
    while |consumed| < n && l.tk != LEX_EOF
      invariant l.Text() && l.dataEnd <= |l.data| && |consumed| == |ts| <= n && Tokens(l.data, l.dataEnd, a, ts)
      invariant l.Holds(TokenAt(l.data, l.dataEnd, EndOf(a, ts))) && (ts != [] ==> l.tokenLastEnd == EndOf(a, ts) - 1)
      invariant forall i :: 0 <= i < |ts| ==> consumed[i] == Seen(ts[i].tk, ts[i].str)
    {
      ghost var t := TokenAt(l.data, l.dataEnd, EndOf(a, ts));
      HoldsFacts(l, t);
      TokensAppend(l.data, l.dataEnd, a, ts, t);
      consumed := consumed + [Seen(l.tk, l.tkStr)];
      l.GetNextToken(t.next);
      ts := ts + [t];
    }
  }

  lemma TokensNone(s: string, e: nat, p: nat)
    requires e <= |s|
    ensures Tokens(s, e, p, []) && EndOf(p, []) == p
  {
  }

  /** A loop body: the parent remembers where its token starts, reads up to n tokens, and takes the sub-lexer, which gives
      what the parent read, after every reset, and then the end of the text. */
  method ConsumedReplays(l: Lexer, n: nat, times: nat, ghost p: nat) returns (consumed: seq<Seen>, runs: seq<seq<Seen>>)
    requires l.Text() && l.Holds(TokenAt(l.data, l.dataEnd, p)) && l.tk != LEX_EOF && n > 0
    modifies l
    ensures 0 < |consumed| <= n && (|consumed| < n ==> l.tk == LEX_EOF) && |runs| == times
    ensures forall k :: 0 <= k < times ==> |runs[k]| == |consumed| + 1 && runs[k][..|consumed|] == consumed && runs[k][|consumed|].tk == LEX_EOF
  {
    hide *;
    TextFacts(l);
    HoldsFacts(l, TokenAt(l.data, l.dataEnd, p));
    var start := l.tokenStart;
    ghost var ts;
    ghost var first := l.tk;
    consumed, ts := Consume(l, n, p);
    TextFacts(l);
    if ts == [] {
      TokensNone(l.data, l.dataEnd, TokenAt(l.data, l.dataEnd, p).start);
      SkipTwice(l.data, l.dataEnd, p);
      HoldsFacts(l, TokenAt(l.data, l.dataEnd, p));
      assert false;
    }
    runs := SubLexReplays(l, start, ts, times);
    forall k | 0 <= k < times ensures runs[k][..|consumed|] == consumed {
      forall i | 0 <= i < |consumed| ensures runs[k][i] == consumed[i] { assert runs[k][i] == Seen(ts[i].tk, ts[i].str); }
    }
  }
}
