/** Evaluating literals: the cases of factor, the unary minus of expression, and evaluateComplex. */
module JsEval {
  import opened Options
  import opened JsTokens
  import opened JsRelex
  import opened JsJson

  /** A value and the position behind its last token. */
  datatype Parsed = Fail | Parsed(v: Value, p: nat)

  const INT_MAX := 0x7FFF_FFFF

  /** strtol with base 0, on a target where long has 32 bits. */
  function IntOf(w: string): int {
    var v := if |w| >= 2 && w[0] == '0' && w[1] == 'x' then Digits(w[2..], 16, 0)
             else if w != "" && w[0] == '0' then Digits(w, 8, 0)
             else Digits(w, 10, 0);
    if v > INT_MAX then INT_MAX else v
  }

  /** 0 - x, as mathsOp computes it. */
  function Negated(v: Value): Option<Value> {
    match v
    case Int(n) => Some(Int(if n == -0x8000_0000 then n else -n))
    case Null => Some(Int(0))
    case Undefined => Some(Int(0))
    case _ => None
  }

  /** Tokens that one of the operator levels between base and factor would go on with. */
  predicate Operates(k: int) {
    k in {'*' as int, '/' as int, '%' as int, '+' as int, '-' as int, LEX_PLUSPLUS, LEX_MINUSMINUS,
          LEX_LSHIFT, LEX_RSHIFT, LEX_RSHIFTUNSIGNED, LEX_EQUAL, LEX_NEQUAL, LEX_TYPEEQUAL, LEX_NTYPEEQUAL,
          LEX_LEQUAL, LEX_GEQUAL, '<' as int, '>' as int, '&' as int, '|' as int, '^' as int, LEX_ANDAND, LEX_OROR,
          '?' as int, '=' as int, LEX_PLUSEQUAL, LEX_MINUSEQUAL}
  }

  /** Progress measure: what is left of the text. */
  function Left(e: nat, p: nat): nat { if p < e then e - p else 0 }

  function Factor(s: string, e: nat, p: nat): (r: Parsed)
    requires e <= |s| && Clean(s)
    ensures r.Parsed? ==> r.p > p
    decreases Left(e, p), 1
  {
    var t := TokenAt(s, e, p);
    TokenIs(s, e, p);
    if t.tk == LEX_EOF then Fail
    else if t.tk == LEX_R_TRUE then Parsed(Int(1), t.next)
    else if t.tk == LEX_R_FALSE then Parsed(Int(0), t.next)
    else if t.tk == LEX_R_NULL then Parsed(Null, t.next)
    else if t.tk == LEX_R_UNDEFINED then Parsed(Undefined, t.next)
    else if t.tk == LEX_INT then Parsed(Int(IntOf(t.str)), t.next)
    else if t.tk == LEX_STR then Parsed(Str(t.str), t.next)
    else if t.tk == '{' as int then Members(s, e, t.next, [])
    else if t.tk == '[' as int then Items(s, e, t.next, [])
    else Fail
  }

  /** The members of an object literal, behind the brace or a comma. */
  function Members(s: string, e: nat, p: nat, ms: seq<Member>): (r: Parsed)
    requires e <= |s| && Clean(s)
    ensures r.Parsed? ==> r.p > p
    decreases Left(e, p), 3
  {
    var t := TokenAt(s, e, p);
    TokenIs(s, e, p);
    if t.tk == '}' as int then Parsed(Obj(ms), t.next)
    else if t.tk != LEX_STR && t.tk != LEX_ID then Fail
    else
      var c := TokenAt(s, e, t.next);
      TokenIs(s, e, t.next);
      if c.tk != ':' as int then Fail
      else match Base(s, e, c.next)
        case Fail => Fail
        case Parsed(v, q) =>
          var d := TokenAt(s, e, q);
          TokenIs(s, e, q);
          if d.tk == '}' as int then Parsed(Obj(ms + [Member(t.str, v)]), d.next)
          else if d.tk == ',' as int then Members(s, e, d.next, ms + [Member(t.str, v)])
          else Fail
  }

  /** The items of an array literal, behind the bracket or a comma. */
  function Items(s: string, e: nat, p: nat, vs: seq<Value>): (r: Parsed)
    requires e <= |s| && Clean(s)
    ensures r.Parsed? ==> r.p > p
    decreases Left(e, p), 3
  {
    var t := TokenAt(s, e, p);
    TokenIs(s, e, p);
    if t.tk == ']' as int then Parsed(Arr(vs), t.next)
    else match Base(s, e, p)
      case Fail => Fail
      case Parsed(v, q) =>
        var d := TokenAt(s, e, q);
        TokenIs(s, e, q);
        if d.tk == ']' as int then Parsed(Arr(vs + [v]), d.next)
        else if d.tk == ',' as int then Items(s, e, d.next, vs + [v])
        else Fail
  }

  /** base, where no operator follows. */
  function Base(s: string, e: nat, p: nat): (r: Parsed)
    requires e <= |s| && Clean(s)
    ensures r.Parsed? ==> r.p > p
    decreases Left(e, p), 2
  {
    var t := TokenAt(s, e, p);
    TokenIs(s, e, p);
    var r :=
      if t.tk == '-' as int then
        match Factor(s, e, t.next)
        case Fail => Fail
        case Parsed(v, q) => if Negated(v).Some? then Parsed(Negated(v).value, q) else Fail
      else Factor(s, e, p);
    if r.Parsed? && Operates(TokenAt(s, e, r.p).tk) then Fail else r
  }

  /** evaluateComplex on a single expression, with an optional semicolon. */
  function Evaluate(s: string): Option<Value>
    requires Clean(s)
  {
    match Base(s, |s|, 0)
    case Fail => None
    case Parsed(v, p) =>
      var t := TokenAt(s, |s|, p);
      if t.tk == LEX_EOF || (t.tk == ';' as int && TokenAt(s, |s|, t.next).tk == LEX_EOF) then Some(v) else None
  }

  /** What is parsed from a position depends on the token found from there on. */
  lemma FactorSame(s: string, e: nat, p: nat, q: nat)
    requires e <= |s| && Clean(s) && TokenAt(s, e, p) == TokenAt(s, e, q)
    ensures Factor(s, e, p) == Factor(s, e, q)
  {
    hide TokenAt, Members, Items, IntOf;
  }

  lemma BaseSame(s: string, e: nat, p: nat, q: nat)
    requires e <= |s| && Clean(s) && TokenAt(s, e, p) == TokenAt(s, e, q)
    ensures Base(s, e, p) == Base(s, e, q)
  {
    hide TokenAt, Factor, Operates, Negated;
    FactorSame(s, e, p, q);
  }

  lemma BasePlain(s: string, e: nat, p: nat)
    requires e <= |s| && Clean(s) && TokenAt(s, e, p).tk != '-' as int
    ensures Factor(s, e, p).Parsed? && !Operates(TokenAt(s, e, Factor(s, e, p).p).tk) ==> Base(s, e, p) == Factor(s, e, p)
  {
    hide TokenAt, Factor, Operates;
  }

  lemma BaseMinus(s: string, e: nat, p: nat, n: int, q: nat)
    requires e <= |s| && Clean(s) && n >= 0 && TokenAt(s, e, p).tk == '-' as int && Factor(s, e, TokenAt(s, e, p).next) == Parsed(Int(n), q)
    requires !Operates(TokenAt(s, e, q).tk)
    ensures Base(s, e, p) == Parsed(Int(-n), q)
  {
    hide TokenAt, Factor, Operates;
  }

  lemma FactorIs(s: string, e: nat, p: nat)
    requires e <= |s| && Clean(s)
    ensures var t := TokenAt(s, e, p);
      && (t.tk == LEX_R_NULL ==> Factor(s, e, p) == Parsed(Null, t.next))
      && (t.tk == LEX_R_UNDEFINED ==> Factor(s, e, p) == Parsed(Undefined, t.next))
      && (t.tk == LEX_INT ==> Factor(s, e, p) == Parsed(Int(IntOf(t.str)), t.next))
      && (t.tk == LEX_STR ==> Factor(s, e, p) == Parsed(Str(t.str), t.next))
      && (t.tk == '{' as int ==> Factor(s, e, p) == Members(s, e, t.next, []))
      && (t.tk == '[' as int ==> Factor(s, e, p) == Items(s, e, t.next, []))
  {
    hide TokenAt, Members, Items, IntOf;
  }

  /** One member, then a comma or the closing brace. */
  lemma MembersIs(s: string, e: nat, p: nat, ms: seq<Member>)
    requires e <= |s| && Clean(s)
    ensures var t := TokenAt(s, e, p);
      && (t.tk == '}' as int ==> Members(s, e, p, ms) == Parsed(Obj(ms), t.next))
      && (t.tk == LEX_STR && TokenAt(s, e, t.next).tk == ':' as int ==>
            var b := Base(s, e, TokenAt(s, e, t.next).next);
            b.Parsed? ==>
              var d := TokenAt(s, e, b.p);
              && (d.tk == '}' as int ==> Members(s, e, p, ms) == Parsed(Obj(ms + [Member(t.str, b.v)]), d.next))
              && (d.tk == ',' as int ==> Members(s, e, p, ms) == Members(s, e, d.next, ms + [Member(t.str, b.v)])))
  {
    hide TokenAt, Base;
  }

  /** One item, then a comma or the closing bracket. */
  lemma ItemsIs(s: string, e: nat, p: nat, vs: seq<Value>)
    requires e <= |s| && Clean(s)
    ensures var t := TokenAt(s, e, p);
      && (t.tk == ']' as int ==> Items(s, e, p, vs) == Parsed(Arr(vs), t.next))
      && (t.tk != ']' as int && Base(s, e, p).Parsed? ==>
            var b := Base(s, e, p);
            var d := TokenAt(s, e, b.p);
            && (d.tk == ']' as int ==> Items(s, e, p, vs) == Parsed(Arr(vs + [b.v]), d.next))
            && (d.tk == ',' as int ==> Items(s, e, p, vs) == Items(s, e, d.next, vs + [b.v])))
  {
    hide TokenAt, Base;
  }
}
