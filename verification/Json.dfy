/** Recorded QuickBooks values and the exact printer that writes them. */
module Json {
  import opened Digits
  import opened Text

  /** `Dec` is Python's Decimal: sign, coefficient and exponent. Member names of an object
      are distinct in Python; the printer does not depend on it. */
  datatype Json =
    | Null
    | Bool(value: bool)
    | Int(n: int)
    | Dec(neg: bool, coeff: nat, exp: int)
    | Str(text: string)
    | Arr(elems: seq<Json>)
    | Obj(members: seq<Member>)

  datatype Member = Member(name: string, value: Json)

  function Spaces(n: nat): string {
    seq(n, i => ' ')
  }

  /** `format(value, "f")`: every digit of the coefficient, never an exponent. */
  function Fixed(neg: bool, coeff: nat, exp: int): string {
    var digits := Numeral(coeff);
    var point := |digits| + exp;
    (if neg then "-" else "") +
    (if exp >= 0 then (if coeff == 0 then "0" else digits + Zeros(exp))
     else if point <= 0 then "0." + Zeros(-point) + digits
     else digits[..point] + "." + digits[point..])
  }

  function Integer(n: int): string {
    if n < 0 then "-" + Numeral(-n) else Numeral(n)
  }

  function HexChar(d: nat): char
    requires d < 16
  {
    if d < 10 then DigitChar(d) else ('a' as int + d - 10) as char
  }

  function Hex4(n: nat): string
    requires n < 0x10000
  {
    [HexChar(n / 16 / 16 / 16), HexChar(n / 16 / 16 % 16), HexChar(n / 16 % 16), HexChar(n % 16)]
  }

  /** One character of `json.dumps`: short escapes, \u escapes outside printable ASCII, and a
      surrogate pair above the basic plane. */
  function EscapeChar(c: char): string {
    var n := c as int;
    if c == '"' then "\\\""
    else if c == '\\' then "\\\\"
    else if c == '\n' then "\\n"
    else if c == '\r' then "\\r"
    else if c == '\t' then "\\t"
    else if n == 0x08 then "\\b"
    else if n == 0x0C then "\\f"
    else if 0x20 <= n <= 0x7E then [c]
    else if n < 0x10000 then "\\u" + Hex4(n)
    else
      var v := n - 0x10000;
      "\\u" + Hex4(0xD800 + v / 0x400) + "\\u" + Hex4(0xDC00 + v % 0x400)
  }

  function Escape(s: string): string {
    if s == [] then "" else EscapeChar(s[0]) + Escape(s[1..])
  }

  function Quote(s: string): string {
    "\"" + Escape(s) + "\""
  }

  function ToJson(v: Json, indent: nat): string
    decreases v, 0
  {
    var pad, inner := Spaces(indent), Spaces(indent + 1);
    match v
    case Dec(neg, coeff, exp) => Fixed(neg, coeff, exp)
    case Obj(members) =>
      if members == [] then "{}"
      else "{\n" + Join(MemberItems(members, inner, indent + 1), ",\n") + "\n" + pad + "}"
    case Arr(elems) =>
      if elems == [] then "[]"
      else "[\n" + Join(ElementItems(elems, inner, indent + 1), ",\n") + "\n" + pad + "]"
    case Null => "null"
    case Bool(b) => if b then "true" else "false"
    case Int(n) => Integer(n)
    case Str(s) => Quote(s)
  }

  function ElementItems(elems: seq<Json>, inner: string, indent: nat): seq<string>
    decreases elems, 1
  {
    if elems == [] then [] else [inner + ToJson(elems[0], indent)] + ElementItems(elems[1..], inner, indent)
  }

  function MemberItems(members: seq<Member>, inner: string, indent: nat): seq<string>
    decreases members, 1
  {
    if members == [] then []
    else
      [inner + (Quote(members[0].name) + (": " + ToJson(members[0].value, indent)))]
      + MemberItems(members[1..], inner, indent)
  }
}
