/** A JSON reader for sections 2 to 8 of RFC 8259. A number with neither fraction nor exponent is
    an integer; any other number is an exact decimal. Every reader returns what it read
    and the unread rest. */
module JsonReader {
  import opened Digits
  import opened Json
  import opened Wrappers

  predicate IsBlank(c: char) {
    c == ' ' || c == '\n' || c == '\r' || c == '\t'
  }

  function Skip(t: string): (r: string)
    ensures |r| <= |t|
  {
    if t != [] && IsBlank(t[0]) then Skip(t[1..]) else t
  }

  function DigitRun(t: string): (k: nat)
    ensures k <= |t| && AllDigits(t[..k])
  {
    if t != [] && IsDigit(t[0]) then
      var k := DigitRun(t[1..]) + 1;
      assert t[..k] == [t[0]] + t[1..][..k - 1];
      k
    else 0
  }

  function Signed(neg: bool, magnitude: int): int {
    if neg then -magnitude else magnitude
  }

  /** Section 6: an integer part without superfluous leading zeros. */
  function IntegerPart(t: string): (k: nat)
    ensures k <= |t| && AllDigits(t[..k])
  {
    if t != [] && t[0] == '0' then 1 else DigitRun(t)
  }

  /** Section 6: an optional fraction; 0 when there is none, otherwise its length with the point. */
  function FractionPart(t: string): (k: nat)
    ensures k <= |t| && (k > 0 ==> k > 1 && AllDigits(t[1..k]))
  {
    if t != [] && t[0] == '.' && DigitRun(t[1..]) > 0 then
      var k := DigitRun(t[1..]) + 1;
      assert t[1..k] == t[1..][..k - 1];
      k
    else 0
  }

  /** Section 6: an optional exponent, as its value and its length. */
  function ExponentPart(t: string): (r: (int, nat))
    ensures r.1 <= |t|
  {
    if t == [] || (t[0] != 'e' && t[0] != 'E') then (0, 0)
    else
      var signed := |t| > 1 && (t[1] == '+' || t[1] == '-');
      var start := if signed then 2 else 1;
      var k := DigitRun(t[start..]);
      if k == 0 then (0, 0)
      else
        var magnitude := Value(t[start..][..k]);
        (Signed(signed && t[1] == '-', magnitude), start + k)
  }

  function ReadNumber(t: string): (r: Option<(Json, string)>)
    ensures r.Some? ==> |r.value.1| < |t|
  {
    if t != [] && t[0] == '-' then ReadUnsigned(true, t[1..]) else ReadUnsigned(false, t)
  }

  function ReadUnsigned(neg: bool, t: string): (r: Option<(Json, string)>)
    ensures r.Some? ==> |r.value.1| < |t|
  {
    var k := IntegerPart(t);
    if k == 0 then None
    else
      var f := FractionPart(t[k..]);
      var tail := t[k..][f..];
      var (e, n) := ExponentPart(tail);
      if f == 0 && n == 0 then Some((Int(Signed(neg, Value(t[..k]))), tail))
      else
        var fraction := if f == 0 then "" else t[k..][1..f];
        Some((Dec(neg, Value(t[..k] + fraction), e - |fraction|), tail[n..]))
  }

  function HexValue(c: char): Option<nat> {
    if IsDigit(c) then Some(DigitValue(c))
    else if 'a' <= c <= 'f' then Some(c as int - 'a' as int + 10)
    else if 'A' <= c <= 'F' then Some(c as int - 'A' as int + 10)
    else None
  }

  function ReadHex4(t: string): Option<nat> {
    if |t| < 4 then None
    else
      var a, b, c, d := HexValue(t[0]), HexValue(t[1]), HexValue(t[2]), HexValue(t[3]);
      if a.None? || b.None? || c.None? || d.None? then None
      else Some(a.value * 0x1000 + b.value * 0x100 + c.value * 16 + d.value)
  }

  function ShortEscape(c: char): Option<char> {
    if c == '"' || c == '\\' || c == '/' then Some(c)
    else if c == 'n' then Some('\n')
    else if c == 'r' then Some('\r')
    else if c == 't' then Some('\t')
    else if c == 'b' then Some(0x08 as char)
    else if c == 'f' then Some(0x0C as char)
    else None
  }

  /** Section 7: one character of a string and how much text spells it. Text that is not a
      Unicode scalar value (a lone surrogate) is refused. */
  function ReadChar(t: string): (r: Option<(char, nat)>)
    ensures r.Some? ==> 0 < r.value.1 <= |t|
  {
    if t == [] || t[0] == '"' || t[0] < ' ' then None
    else if t[0] != '\\' then Some((t[0], 1))
    else if |t| < 2 then None
    else if t[1] != 'u' then
      var c := ShortEscape(t[1]);
      if c.None? then None else Some((c.value, 2))
    else
      var high := ReadHex4(t[2..]);
      if high.None? then None
      else if !(0xD800 <= high.value < 0xE000) then
        if high.value < 0x10000 then Some((high.value as char, 6)) else None
      else if high.value < 0xDC00 && |t| >= 12 && t[6] == '\\' && t[7] == 'u' then
        var low := ReadHex4(t[8..]);
        if low.Some? && 0xDC00 <= low.value < 0xE000
        then Some(((0x10000 + (high.value - 0xD800) * 0x400 + (low.value - 0xDC00)) as char, 12))
        else None
      else None
  }

  /** The rest of a string after its opening quote. */
  function ReadText(t: string): (r: Option<(string, string)>)
    ensures r.Some? ==> |r.value.1| < |t|
    decreases |t|
  {
    if t != [] && t[0] == '"' then Some(("", t[1..]))
    else
      var c := ReadChar(t);
      if c.None? then None
      else
        var rest := ReadText(t[c.value.1..]);
        if rest.None? then None else Some(([c.value.0] + rest.value.0, rest.value.1))
  }

  function ReadValue(text: string): (r: Option<(Json, string)>)
    ensures r.Some? ==> |r.value.1| < |text|
    decreases |text|, 2
  {
    var t := Skip(text);
    if t == [] then None
    else if t[0] == '{' then
      var u := Skip(t[1..]);
      if u != [] && u[0] == '}' then Some((Obj([]), u[1..]))
      else
        var members := ReadMembers(u);
        if members.None? then None else Some((Obj(members.value.0), members.value.1))
    else if t[0] == '[' then
      var u := Skip(t[1..]);
      if u != [] && u[0] == ']' then Some((Arr([]), u[1..]))
      else
        var elems := ReadElements(u);
        if elems.None? then None else Some((Arr(elems.value.0), elems.value.1))
    else if t[0] == '"' then
      var s := ReadText(t[1..]);
      if s.None? then None else Some((Str(s.value.0), s.value.1))
    else if "null" <= t then Some((Null, t[4..]))
    else if "true" <= t then Some((Bool(true), t[4..]))
    else if "false" <= t then Some((Bool(false), t[5..]))
    else ReadNumber(t)
  }

  /** The elements of a non-empty array up to and with its closing bracket. */
  function ReadElements(t: string): (r: Option<(seq<Json>, string)>)
    ensures r.Some? ==> |r.value.1| < |t|
    decreases |t|, 3
  {
    var first := ReadValue(t);
    if first.None? then None
    else
      var u := Skip(first.value.1);
      if u != [] && u[0] == ']' then Some(([first.value.0], u[1..]))
      else if u != [] && u[0] == ',' then
        var more := ReadElements(u[1..]);
        if more.None? then None else Some(([first.value.0] + more.value.0, more.value.1))
      else None
  }

  /** The members of a non-empty object up to and with its closing brace. */
  function ReadMembers(text: string): (r: Option<(seq<Member>, string)>)
    ensures r.Some? ==> |r.value.1| < |text|
    decreases |text|, 3
  {
    var t := Skip(text);
    if t == [] || t[0] != '"' then None
    else
      var name := ReadText(t[1..]);
      if name.None? then None
      else
        var colon := Skip(name.value.1);
        if colon == [] || colon[0] != ':' then None
        else
          var value := ReadValue(colon[1..]);
          if value.None? then None
          else
            var u := Skip(value.value.1);
            var member := Member(name.value.0, value.value.0);
            if u != [] && u[0] == '}' then Some(([member], u[1..]))
            else if u != [] && u[0] == ',' then
              var more := ReadMembers(u[1..]);
              if more.None? then None else Some(([member] + more.value.0, more.value.1))
            else None
  }

  /** A whole document: one value with nothing but blanks around it. */
  function Read(text: string): Option<Json> {
    var v := ReadValue(text);
    if v.Some? && Skip(v.value.1) == [] then Some(v.value.0) else None
  }
}
