/** Printing values as JSON. */
module JsJson {
  import opened JsTokens

  datatype Member = Member(name: string, value: Value)

  /** What a variable tree holds: undefined, null, integers, strings, objects, and arrays without gaps. */
  datatype Value =
    | Undefined
    | Null
    | Int(n: int)
    | Str(s: string)
    | Obj(members: seq<Member>)
    | Arr(items: seq<Value>)

  function HexChar(d: nat): char
    requires d < 16
  {
    if d < 10 then ('0' as int + d) as char else ('A' as int + d - 10) as char
  }

  /** How getJSString writes one character. */
  function Encoded(c: char): string {
    if c == '\\' then "\\\\"
    else if c == '\n' then "\\n"
    else if c == '\r' then "\\r"
    else if c as int == 7 then "\\a"
    else if c == '"' then "\\\""
    else
      var n := c as int % 256;
      if n < 32 || n > 127 then ['\\', 'x', HexChar(n / 16), HexChar(n % 16)] else [c]
  }

  function Escaped(s: string): string {
    if s == "" then "" else Encoded(s[0]) + Escaped(s[1..])
  }

  function Quote(s: string): string { "\"" + Escaped(s) + "\"" }

  /** The switch of getJSString: whether to replace the character, and with what. */
  method Replacement(c: char) returns (replace: bool, w: string)
    ensures w == Encoded(c) && (!replace ==> w == [c])
  {
    replace := true;
    if c == '\\' {
      w := "\\\\";
    } else if c == '\n' {
      w := "\\n";
    } else if c == '\r' {
      w := "\\r";
    } else if c as int == 7 {
      w := "\\a";
    } else if c == '"' {
      w := "\\\"";
    } else {
      var n := c as int % 256;
      if n < 32 || n > 127 {
        w := ['\\', 'x', HexChar(n / 16), HexChar(n % 16)];
      } else {
        replace, w := false, [c];
      }
    }
  }

  lemma EscapedStep(done: string, rest: string)
    requires rest != ""
    ensures done + Escaped(rest) == (done + Encoded(rest[0])) + Escaped(rest[1..])
  {
    hide Encoded;
  }

  lemma EscapedEnd(done: string)
    ensures done + Escaped("") == done
  {
  }

  /** getJSString: the string is rewritten in place, character by character. */
  method GetJSString(str: string) returns (r: string)
    ensures r == Quote(str)
  {
    hide Escaped, Encoded;
    var nStr := str;
    var i := 0;
    ghost var done, rest := "", str;
    while i < |nStr|
      invariant 0 <= i == |done| && nStr == done + rest && Escaped(str) == done + Escaped(rest)
      decreases |rest|
    {
      EscapedStep(done, rest);
      var replace, w := Replacement(nStr[i]);
      ghost var d := done + w;
      if replace {
        nStr := nStr[..i] + w + nStr[i + 1..];
        i := i + |w| - 1;
      }
      assert nStr == d + rest[1..];
      done, rest := d, rest[1..];
      i := i + 1;
    }
    EscapedEnd(done);
    r := "\"" + nStr + "\"";
  }

  function Decimal(n: nat): (d: string)
    ensures |d| >= 1 && forall i :: 0 <= i < |d| ==> IsDigit(d[i])
  {
    if n < 10 then [('0' as int + n) as char] else Decimal(n / 10) + [('0' as int + n % 10) as char]
  }

  function IntText(n: int): string {
    if n < 0 then "-" + Decimal(-n) else Decimal(n)
  }

  const MAX_ITEMS := 10000

  /** getJSON */
  function Json(v: Value, prefix: string): string
    decreases v, 1
  {
    match v
    case Undefined => "undefined"
    case Null => "null"
    case Int(n) => IntText(n)
    case Str(s) => Quote(s)
    case Obj(ms) => "{ \n" + MembersText(v, 0, prefix + "  ") + "\n" + prefix + "}"
    case Arr(vs) => "[\n" + ItemsText(v, 0, prefix + "  ") + "\n" + prefix + "]"
  }

  /** The members of an object from the i-th on. */
  function MembersText(v: Value, i: nat, prefix: string): string
    requires v.Obj? && i <= |v.members|
    decreases v, 0, |v.members| - i
  {
    if i == |v.members| then ""
    else
      prefix + Quote(v.members[i].name) + " : " + Json(v.members[i].value, prefix)
      + (if i + 1 < |v.members| then ",\n" + MembersText(v, i + 1, prefix) else "")
  }

  function Shown(n: nat): nat { if n > MAX_ITEMS then MAX_ITEMS else n }

  /** The items of an array from the i-th on, at most the first 10000. */
  function ItemsText(v: Value, i: nat, prefix: string): string
    requires v.Arr? && i <= Shown(|v.items|)
    decreases v, 0, |v.items| - i
  {
    if i == Shown(|v.items|) then ""
    else
      Json(v.items[i], prefix) + (if i + 1 < Shown(|v.items|) then ",\n" + ItemsText(v, i + 1, prefix) else "")
  }
}
