/** What a standard reader recovers from the exact printer's text. */
module JsonRoundTrip {
  import opened Digits
  import opened Text
  import opened Json
  import opened JsonReader
  import opened Wrappers

  /** The value the text denotes: a Decimal with no fractional digits is spelled, and so read, as
      an integer; everything else denotes itself. */
  function Denoted(v: Json): Json
    decreases v, 0
  {
    match v
    case Dec(neg, coeff, exp) => if exp >= 0 then Int(Signed(neg, coeff * Pow10(exp))) else v
    case Arr(elems) => Arr(DenotedElems(elems))
    case Obj(members) => Obj(DenotedMembers(members))
    case _ => v
  }

  function DenotedElems(elems: seq<Json>): seq<Json>
    decreases elems, 1
  {
    if elems == [] then [] else [Denoted(elems[0])] + DenotedElems(elems[1..])
  }

  function DenotedMembers(members: seq<Member>): seq<Member>
    decreases members, 1
  {
    if members == [] then []
    else [Member(members[0].name, Denoted(members[0].value))] + DenotedMembers(members[1..])
  }

  /** Every Decimal anywhere inside has fractional digits. */
  predicate Fractional(v: Json)
    decreases v, 0
  {
    match v
    case Dec(_, _, exp) => exp < 0
    case Arr(elems) => forall e :: e in elems ==> Fractional(e)
    case Obj(members) => forall m :: m in members ==> Fractional(m.value)
    case _ => true
  }

  /** The text after a value: its end, a comma or a line break. */
  predicate Delimited(rest: string) {
    rest == [] || rest[0] == ',' || rest[0] == '\n'
  }

  // ----- numbers -----

  lemma {:induction false} DigitRunStops(digits: string, rest: string)
    requires AllDigits(digits) && (rest == [] || !IsDigit(rest[0]))
    ensures DigitRun(digits + rest) == |digits|
  {
    if digits == [] {
      assert digits + rest == rest;
    } else {
      assert (digits + rest)[1..] == digits[1..] + rest;
      assert (digits + rest)[0] == digits[0];
      DigitRunStops(digits[1..], rest);
    }
  }

  predicate PlainInteger(s: string) {
    AllDigits(s) && s != [] && (s[0] == '0' ==> |s| == 1)
  }

  lemma IntegerPartStops(digits: string, rest: string)
    requires PlainInteger(digits) && (rest == [] || !IsDigit(rest[0]))
    ensures IntegerPart(digits + rest) == |digits|
    ensures (digits + rest)[..|digits|] == digits && (digits + rest)[|digits|..] == rest
  {
    assert (digits + rest)[0] == digits[0];
    DigitRunStops(digits, rest);
  }

  lemma NumeralPlain(n: nat)
    ensures PlainInteger(Numeral(n))
  {
    NumeralValue(n);
  }

  /** A number's text: an optional sign, plain integer digits, then either nothing or a point
      and fraction digits. */
  lemma ReadWhole(neg: bool, digits: string, rest: string)
    requires PlainInteger(digits) && Delimited(rest)
    ensures ReadNumber((if neg then "-" else "") + digits + rest)
            == Some((Int(Signed(neg, Value(digits))), rest))
  {
    hide IntegerPart, Value, DigitRun;
    SignedNumber(neg, digits, rest);
    IntegerPartStops(digits, rest);
    assert FractionPart(rest) == 0 && rest[0..] == rest;
    assert ExponentPart(rest) == (0, 0);
  }

  lemma SignedNumber(neg: bool, digits: string, tail: string)
    requires PlainInteger(digits)
    ensures ReadNumber((if neg then "-" else "") + digits + tail) == ReadUnsigned(neg, digits + tail)
  {
    hide ReadUnsigned;
    var t := (if neg then "-" else "") + digits + tail;
    if neg {
      assert t[0] == '-' && t[1..] == digits + tail;
    } else {
      assert t == digits + tail && t[0] == digits[0];
    }
  }

  lemma ReadPoint(neg: bool, whole: string, fraction: string, rest: string)
    requires PlainInteger(whole) && AllDigits(fraction) && fraction != [] && Delimited(rest)
    ensures ReadNumber((if neg then "-" else "") + whole + "." + fraction + rest)
            == Some((Dec(neg, Value(whole + fraction), -|fraction|), rest))
  {
    hide ReadNumber, ReadUnsigned, Value;
    var tail := "." + fraction + rest;
    SignedNumber(neg, whole, tail);
    assert (if neg then "-" else "") + whole + "." + fraction + rest == (if neg then "-" else "") + whole + tail;
    IntegerPartStops(whole, tail);
    FractionPartStops(fraction, rest);
    UnsignedPoint(neg, whole + tail, |whole|, |fraction| + 1, rest);
  }

  /** A number whose integer part ends at `k`, followed by a fraction part of length `f`. */
  lemma UnsignedPoint(neg: bool, t: string, k: nat, f: nat, rest: string)
    requires 0 < k <= |t| && IntegerPart(t) == k && f > 1 && FractionPart(t[k..]) == f
    requires t[k..][f..] == rest && Delimited(rest)
    ensures AllDigits(t[..k] + t[k..][1..f])
    ensures ReadUnsigned(neg, t) == Some((Dec(neg, Value(t[..k] + t[k..][1..f]), -(f - 1)), rest))
  {
    assert AllDigits(t[k..][1..f]);
    hide IntegerPart, FractionPart, Value, DigitRun;
    assert ExponentPart(rest) == (0, 0) && rest[0..] == rest;
  }

  lemma FractionPartStops(fraction: string, rest: string)
    requires AllDigits(fraction) && fraction != [] && Delimited(rest)
    ensures var tail := "." + fraction + rest;
            FractionPart(tail) == |fraction| + 1
            && tail[1..|fraction| + 1] == fraction && tail[|fraction| + 1..] == rest
  {
    var tail := "." + fraction + rest;
    assert tail[1..] == fraction + rest;
    DigitRunStops(fraction, rest);
  }

  lemma ReadInteger(n: int, rest: string)
    requires Delimited(rest)
    ensures ReadNumber(Integer(n) + rest) == Some((Int(n), rest))
  {
    hide ReadNumber, Numeral, Value;
    var m := if n < 0 then -n else n;
    NumeralPlain(m);
    NumeralValue(m);
    ReadWhole(n < 0, Numeral(m), rest);
    assert "" + Numeral(m) + rest == Numeral(m) + rest;
  }

  lemma ZeroValue()
    ensures AllDigits("0") && Value("0") == 0
  {
    NumeralValue(0);
    assert Numeral(0) == "0";
  }

  /** A Decimal's text is read digit for digit. */
  lemma ReadFixed(neg: bool, coeff: nat, exp: int, rest: string)
    requires Delimited(rest)
    ensures ReadNumber(Fixed(neg, coeff, exp) + rest) == Some((Denoted(Dec(neg, coeff, exp)), rest))
  {
    hide ReadNumber, Value, Numeral;
    NumeralPlain(coeff);
    NumeralValue(coeff);
    if exp >= 0 {
      ReadFixedWhole(neg, coeff, exp, rest);
    } else if |Numeral(coeff)| + exp <= 0 {
      ReadFixedSmall(neg, coeff, exp, rest);
    } else {
      var point := |Numeral(coeff)| + exp;
      var whole, fraction := Numeral(coeff)[..point], Numeral(coeff)[point..];
      assert whole + fraction == Numeral(coeff);
      ReadPoint(neg, whole, fraction, rest);
      assert Fixed(neg, coeff, exp) + rest == (if neg then "-" else "") + whole + "." + fraction + rest;
    }
  }

  lemma ReadFixedWhole(neg: bool, coeff: nat, exp: int, rest: string)
    requires Delimited(rest) && exp >= 0
    ensures ReadNumber(Fixed(neg, coeff, exp) + rest) == Some((Denoted(Dec(neg, coeff, exp)), rest))
  {
    hide ReadNumber, Value, Numeral;
    var digits := if coeff == 0 then "0" else Numeral(coeff) + Zeros(exp);
    NumeralPlain(coeff);
    NumeralValue(coeff);
    ZeroValue();
    ValueTrailingZeros(Numeral(coeff), exp);
    ReadWhole(neg, digits, rest);
    assert Fixed(neg, coeff, exp) + rest == (if neg then "-" else "") + digits + rest;
  }

  lemma ReadFixedSmall(neg: bool, coeff: nat, exp: int, rest: string)
    requires Delimited(rest) && exp < 0 && |Numeral(coeff)| + exp <= 0
    ensures ReadNumber(Fixed(neg, coeff, exp) + rest) == Some((Dec(neg, coeff, exp), rest))
  {
    hide ReadNumber, Value, Numeral;
    var point := |Numeral(coeff)| + exp;
    NumeralValue(coeff);
    ValueLeadingZeros(-point, Numeral(coeff));
    var fraction := Zeros(-point) + Numeral(coeff);
    ValueLeadingZeros(1, fraction);
    assert "0" + fraction == Zeros(1) + fraction;
    ReadPoint(neg, "0", fraction, rest);
    assert Fixed(neg, coeff, exp) + rest == (if neg then "-" else "") + "0" + "." + fraction + rest;
  }

  // ----- strings -----

  lemma ReadHexChar(d: nat)
    requires d < 16
    ensures HexValue(HexChar(d)) == Some(d)
  {
  }

  lemma HexDigits(n: nat)
    requires n < 0x10000
    ensures n == n / 16 / 16 / 16 * 0x1000 + n / 16 / 16 % 16 * 0x100 + n / 16 % 16 * 16 + n % 16
  {
    var a := n / 16;
    var b := a / 16;
    assert n == 16 * a + n % 16 && a == 16 * b + a % 16 && b == 16 * (b / 16) + b % 16;
  }

  lemma ReadHex(n: nat, rest: string)
    requires n < 0x10000
    ensures ReadHex4(Hex4(n) + rest) == Some(n) && |Hex4(n)| == 4
  {
    hide HexValue, HexChar;
    ReadHexChar(n / 16 / 16 / 16);
    ReadHexChar(n / 16 / 16 % 16);
    ReadHexChar(n / 16 % 16);
    ReadHexChar(n % 16);
    HexDigits(n);
  }

  lemma ReadBasic(c: char, rest: string)
    requires c as int < 0x10000
    ensures ReadChar("\\u" + Hex4(c as int) + rest) == Some((c, 6))
  {
    hide ReadHex4, Hex4;
    var t := "\\u" + Hex4(c as int) + rest;
    ReadHex(c as int, rest);
    assert t[2..] == Hex4(c as int) + rest;
  }

  lemma ReadPair(c: char, rest: string)
    requires c as int >= 0x10000
    ensures ReadChar(EscapeChar(c) + rest) == Some((c, 12)) && |EscapeChar(c)| == 12
  {
    hide ReadHex4, Hex4;
    var v := c as int - 0x10000;
    var high, low := 0xD800 + v / 0x400, 0xDC00 + v % 0x400;
    var t := "\\u" + Hex4(high) + "\\u" + Hex4(low) + rest;
    ReadHex(high, "\\u" + Hex4(low) + rest);
    ReadHex(low, rest);
    assert t[2..] == Hex4(high) + ("\\u" + Hex4(low) + rest);
    assert t[6] == '\\' && t[7] == 'u';
    assert t[8..] == Hex4(low) + rest;
    assert EscapeChar(c) + rest == t;
  }

  lemma ReadEscaped(c: char, rest: string)
    ensures EscapeChar(c) != [] && EscapeChar(c)[0] != '"'
    ensures ReadChar(EscapeChar(c) + rest) == Some((c, |EscapeChar(c)|))
  {
    hide ReadHex4, Hex4;
    var n := c as int;
    var t := EscapeChar(c) + rest;
    if n >= 0x10000 {
      ReadPair(c, rest);
    } else if c == '"' || c == '\\' || c == '\n' || c == '\r' || c == '\t' || n == 8 || n == 12 {
      assert t[0] == '\\' && t[1] == EscapeChar(c)[1];
    } else if 0x20 <= n <= 0x7E {
      assert t[0] == c;
    } else {
      ReadHex(n, rest);
      ReadBasic(c, rest);
    }
  }

  /** Every string, whatever Unicode characters it holds, is read back exactly. */
  lemma {:induction false} ReadEscape(s: string, rest: string)
    ensures ReadText(Escape(s) + "\"" + rest) == Some((s, rest))
    decreases |s|
  {
    hide ReadChar, EscapeChar;
    var t := Escape(s) + "\"" + rest;
    if s == [] {
      assert t[0] == '"' && t[1..] == rest;
    } else {
      var tail := Escape(s[1..]) + "\"" + rest;
      var head := EscapeChar(s[0]);
      assert t == head + tail;
      ReadEscaped(s[0], tail);
      assert t[0] == head[0];
      assert t[|head|..] == tail;
      ReadEscape(s[1..], rest);
      assert [s[0]] + s[1..] == s;
    }
  }

  // ----- blanks -----

  predicate Blank(w: string) {
    forall i :: 0 <= i < |w| ==> IsBlank(w[i])
  }

  lemma {:induction false} SkipBlank(w: string, t: string)
    requires Blank(w)
    ensures Skip(w + t) == Skip(t)
  {
    if w == [] {
      assert w + t == t;
    } else {
      assert (w + t)[0] == w[0] && (w + t)[1..] == w[1..] + t;
      SkipBlank(w[1..], t);
    }
  }

  lemma {:induction false} SkipTwice(t: string)
    ensures Skip(Skip(t)) == Skip(t)
  {
    if t != [] && IsBlank(t[0]) { SkipTwice(t[1..]); }
  }

  /** Readers do not see the blanks before what they read. */
  lemma SameSkip(t: string, u: string)
    requires Skip(t) == Skip(u)
    ensures ReadValue(t) == ReadValue(u)
    ensures ReadElements(t) == ReadElements(u)
    ensures ReadMembers(t) == ReadMembers(u)
  {
    assert ReadValue(t) == ReadValue(u) by {
      hide Skip, ReadElements, ReadMembers, ReadNumber, ReadText;
    }
    assert ReadElements(t) == ReadElements(u) by {
      hide Skip, ReadValue, ReadMembers;
    }
    assert ReadMembers(t) == ReadMembers(u) by {
      hide Skip, ReadValue, ReadElements, ReadText;
    }
  }

  lemma ReadersSkip(w: string, t: string)
    requires Blank(w)
    ensures ReadValue(w + t) == ReadValue(t)
    ensures ReadElements(w + t) == ReadElements(t)
    ensures ReadMembers(w + t) == ReadMembers(t)
  {
    hide ReadValue, ReadElements, ReadMembers;
    SkipBlank(w, t);
    SameSkip(w + t, t);
  }

  // ----- one step of each reader -----

  lemma LastElement(t: string, v: Json, tail: string, rest: string)
    requires ReadValue(t) == Some((v, tail)) && Skip(tail) == "]" + rest
    ensures ReadElements(t) == Some(([v], rest))
  {
    hide ReadValue, Skip, ReadMembers;
    assert ("]" + rest)[1..] == rest;
  }

  lemma NextElement(t: string, v: Json, u: string, vs: seq<Json>, rest: string)
    requires ReadValue(t) == Some((v, "," + u)) && ReadElements(u) == Some((vs, rest))
    ensures ReadElements(t) == Some(([v] + vs, rest))
  {
    hide ReadValue, ReadMembers;
    assert Skip("," + u) == "," + u && ("," + u)[1..] == u;
  }

  lemma LastMember(name: string, colon: string, v: Json, t: string, tail: string, rest: string)
    requires ReadText(t) == Some((name, ": " + colon)) && ReadValue(colon) == Some((v, tail))
    requires Skip(tail) == "}" + rest
    ensures ReadMembers("\"" + t) == Some(([Member(name, v)], rest))
  {
    MemberStart(name, colon, t);
    hide ReadValue, Skip, ReadElements, ReadText;
    assert ("}" + rest)[1..] == rest;
  }

  lemma NextMember(name: string, colon: string, v: Json, t: string, u: string, more: seq<Member>, rest: string)
    requires ReadText(t) == Some((name, ": " + colon)) && ReadValue(colon) == Some((v, "," + u))
    requires ReadMembers(u) == Some((more, rest))
    ensures ReadMembers("\"" + t) == Some(([Member(name, v)] + more, rest))
  {
    MemberStart(name, colon, t);
    assert Skip("," + u) == "," + u;
    hide ReadValue, Skip, ReadElements, ReadText;
    assert ("," + u)[1..] == u;
  }

  /** A member's text up to its value. */
  lemma MemberStart(name: string, colon: string, t: string)
    ensures Skip("\"" + t) == "\"" + t && ("\"" + t)[1..] == t
    ensures Skip(": " + colon) == ": " + colon && ReadValue((": " + colon)[1..]) == ReadValue(colon)
  {
    hide ReadValue, ReadMembers, ReadElements;
    assert (": " + colon)[1..] == " " + colon;
    ReadersSkip(" ", colon);
  }

  lemma ArrayValue(body: string, elems: seq<Json>, rest: string)
    requires Skip(body) != [] && Skip(body)[0] != ']' && ReadElements(body) == Some((elems, rest))
    ensures ReadValue("[\n" + body) == Some((Arr(elems), rest))
  {
    Opened('[', body);
    hide ReadElements, ReadMembers, Skip, ReadNumber, ReadText;
  }

  lemma ObjectValue(body: string, members: seq<Member>, rest: string)
    requires Skip(body) != [] && Skip(body)[0] != '}' && ReadMembers(body) == Some((members, rest))
    ensures ReadValue("{\n" + body) == Some((Obj(members), rest))
  {
    Opened('{', body);
    hide ReadElements, ReadMembers, Skip, ReadNumber, ReadText;
  }

  lemma Opened(bracket: char, body: string)
    requires !IsBlank(bracket)
    ensures var t := [bracket, '\n'] + body;
            && Skip(t) == t && Skip(t[1..]) == Skip(body)
            && ReadElements(Skip(t[1..])) == ReadElements(body)
            && ReadMembers(Skip(t[1..])) == ReadMembers(body)
  {
    hide ReadValue, ReadElements, ReadMembers;
    var t := [bracket, '\n'] + body;
    assert t[1..] == "\n" + body;
    SkipBlank("\n", body);
    SkipTwice(body);
    SameSkip(Skip(body), body);
  }

  // ----- values -----

  function Closing(indent: nat, bracket: char, rest: string): string {
    "\n" + Spaces(indent) + [bracket] + rest
  }

  lemma SkipClosing(indent: nat, bracket: char, rest: string)
    requires !IsBlank(bracket)
    ensures Skip(Closing(indent, bracket, rest)) == [bracket] + rest
  {
    assert Closing(indent, bracket, rest) == ("\n" + Spaces(indent)) + ([bracket] + rest);
    SkipBlank("\n" + Spaces(indent), [bracket] + rest);
  }

  /** No value's text begins with a blank or a closing bracket. */
  lemma FirstChar(v: Json, indent: nat)
    ensures var t := ToJson(v, indent); t != [] && !IsBlank(t[0]) && t[0] != ']' && t[0] != '}'
  {
    hide Join, ElementItems, MemberItems, Escape;
    match v
    case Int(n) =>
      NumeralValue(if n < 0 then -n else n);
    case Dec(neg, coeff, exp) =>
      hide Fixed;
      FixedStart(neg, coeff, exp);
    case _ =>
  }

  lemma {:induction false} ReadElementsBack(elems: seq<Json>, inner: nat, indent: nat, rest: string)
    requires elems != []
    ensures ReadElements(Join(ElementItems(elems, Spaces(inner), inner), ",\n") + Closing(indent, ']', rest))
            == Some((DenotedElems(elems), rest))
    decreases elems, 1
  {
    hide ReadValue, ReadElements, ReadMembers, ToJson, Denoted, Skip, Join, ElementItems;
    var close := Closing(indent, ']', rest);
    var first := ToJson(elems[0], inner);
    var next := Join(ElementItems(elems[1..], Spaces(inner), inner), ",\n") + close;
    var tail := if |elems| == 1 then close else ",\n" + next;
    var t := Spaces(inner) + (first + tail);
    ElementText(elems, inner, close);
    ReadersSkip(Spaces(inner), first + tail);
    ReadBack(elems[0], inner, tail);
    if |elems| == 1 {
      SkipClosing(indent, ']', rest);
      LastElement(t, Denoted(elems[0]), tail, rest);
      assert DenotedElems(elems) == [Denoted(elems[0])];
    } else {
      ReadElementsBack(elems[1..], inner, indent, rest);
      ReadersSkip("\n", next);
      assert tail == "," + ("\n" + next);
      NextElement(t, Denoted(elems[0]), "\n" + next, DenotedElems(elems[1..]), rest);
    }
  }

  /** The text of an array's elements, split after the first one. */
  lemma ElementText(elems: seq<Json>, inner: nat, close: string)
    requires elems != []
    ensures var next := Join(ElementItems(elems[1..], Spaces(inner), inner), ",\n") + close;
            var tail := if |elems| == 1 then close else ",\n" + next;
            Join(ElementItems(elems, Spaces(inner), inner), ",\n") + close
            == Spaces(inner) + (ToJson(elems[0], inner) + tail)
  {
    var items := ElementItems(elems, Spaces(inner), inner);
    assert items == [Spaces(inner) + ToJson(elems[0], inner)] + ElementItems(elems[1..], Spaces(inner), inner);
    assert items[1..] == ElementItems(elems[1..], Spaces(inner), inner);
    assert |items| == 1 <==> |elems| == 1;
    hide ToJson, ElementItems, Join;
    JoinFirst(items, ",\n", close);
    var tail := if |elems| == 1 then close else ",\n" + (Join(items[1..], ",\n") + close);
    Assoc(Spaces(inner), ToJson(elems[0], inner), tail);
  }

  lemma {:induction false} ReadMembersBack(members: seq<Member>, inner: nat, indent: nat, rest: string)
    requires members != []
    ensures ReadMembers(Join(MemberItems(members, Spaces(inner), inner), ",\n") + Closing(indent, '}', rest))
            == Some((DenotedMembers(members), rest))
    decreases members, 1
  {
    hide ReadValue, ReadElements, ReadMembers, ToJson, Denoted, Skip, ReadText, Escape, Join, MemberItems;
    var close := Closing(indent, '}', rest);
    var name, first := members[0].name, ToJson(members[0].value, inner);
    var next := Join(MemberItems(members[1..], Spaces(inner), inner), ",\n") + close;
    var tail := if |members| == 1 then close else ",\n" + next;
    var t := Escape(name) + "\"" + (": " + (first + tail));
    MemberText(members, inner, close);
    ReadersSkip(Spaces(inner), "\"" + t);
    ReadEscape(name, ": " + (first + tail));
    ReadBack(members[0].value, inner, tail);
    var v := Denoted(members[0].value);
    if |members| == 1 {
      SkipClosing(indent, '}', rest);
      LastMember(name, first + tail, v, t, tail, rest);
      assert DenotedMembers(members) == [Member(name, v)];
    } else {
      ReadMembersBack(members[1..], inner, indent, rest);
      ReadersSkip("\n", next);
      assert tail == "," + ("\n" + next);
      NextMember(name, first + tail, v, t, "\n" + next, DenotedMembers(members[1..]), rest);
    }
  }

  /** The text of an object's members, split after the first one. */
  lemma MemberText(members: seq<Member>, inner: nat, close: string)
    requires members != []
    ensures var name, first := members[0].name, ToJson(members[0].value, inner);
            var next := Join(MemberItems(members[1..], Spaces(inner), inner), ",\n") + close;
            var tail := if |members| == 1 then close else ",\n" + next;
            Join(MemberItems(members, Spaces(inner), inner), ",\n") + close
            == Spaces(inner) + ("\"" + (Escape(name) + "\"" + (": " + (first + tail))))
  {
    var items := MemberItems(members, Spaces(inner), inner);
    var more := MemberItems(members[1..], Spaces(inner), inner);
    var value := ToJson(members[0].value, inner);
    assert items == [Spaces(inner) + (Quote(members[0].name) + (": " + value))] + more;
    assert items[1..] == more;
    assert |items| == 1 <==> |members| == 1;
    hide ToJson, Escape, MemberItems, Join;
    JoinFirst(items, ",\n", close);
    var tail := if |members| == 1 then close else ",\n" + (Join(more, ",\n") + close);
    Regroup(Spaces(inner), Escape(members[0].name), ": " + value, tail);
    Assoc(": ", value, tail);
  }

  lemma Regroup(a: string, e: string, v: string, tail: string)
    ensures (a + (("\"" + e + "\"") + v)) + tail == a + ("\"" + (e + "\"" + (v + tail)))
  {
  }

  lemma ReadArrayBack(elems: seq<Json>, indent: nat, rest: string)
    requires elems != []
    requires ReadElements(Join(ElementItems(elems, Spaces(indent + 1), indent + 1), ",\n") + Closing(indent, ']', rest))
             == Some((DenotedElems(elems), rest))
    ensures ReadValue(ToJson(Arr(elems), indent) + rest) == Some((Denoted(Arr(elems)), rest))
  {
    hide ReadValue, ReadElements, ReadMembers, Skip, Join, ElementItems;
    var items := ElementItems(elems, Spaces(indent + 1), indent + 1);
    var body := Join(items, ",\n") + Closing(indent, ']', rest);
    FirstItem(elems, indent, Closing(indent, ']', rest));
    ArrayValue(body, DenotedElems(elems), rest);
    assert ToJson(Arr(elems), indent) + rest == "[\n" + body;
  }

  /** After the opening bracket and blanks, the reader does not see a closing bracket. */
  lemma FirstItem(elems: seq<Json>, indent: nat, close: string)
    requires elems != []
    ensures var u := Skip(Join(ElementItems(elems, Spaces(indent + 1), indent + 1), ",\n") + close);
            u != [] && u[0] != ']'
  {
    ElementText(elems, indent + 1, close);
    FirstChar(elems[0], indent + 1);
    hide ToJson, Join, ElementItems;
    var first := ToJson(elems[0], indent + 1);
    var next := Join(ElementItems(elems[1..], Spaces(indent + 1), indent + 1), ",\n") + close;
    var tail := if |elems| == 1 then close else ",\n" + next;
    SkipBlank(Spaces(indent + 1), first + tail);
    assert (first + tail)[0] == first[0];
  }

  lemma FirstMember(members: seq<Member>, indent: nat, close: string)
    requires members != []
    ensures var u := Skip(Join(MemberItems(members, Spaces(indent + 1), indent + 1), ",\n") + close);
            u != [] && u[0] != '}'
  {
    MemberText(members, indent + 1, close);
    hide ToJson, Escape, Join, MemberItems;
    var name, first := members[0].name, ToJson(members[0].value, indent + 1);
    var next := Join(MemberItems(members[1..], Spaces(indent + 1), indent + 1), ",\n") + close;
    var tail := if |members| == 1 then close else ",\n" + next;
    SkipBlank(Spaces(indent + 1), "\"" + (Escape(name) + "\"" + (": " + (first + tail))));
  }

  lemma ReadObjectBack(members: seq<Member>, indent: nat, rest: string)
    requires members != []
    requires ReadMembers(Join(MemberItems(members, Spaces(indent + 1), indent + 1), ",\n") + Closing(indent, '}', rest))
             == Some((DenotedMembers(members), rest))
    ensures ReadValue(ToJson(Obj(members), indent) + rest) == Some((Denoted(Obj(members)), rest))
  {
    hide ReadValue, ReadElements, ReadMembers, Skip, Join, MemberItems;
    var items := MemberItems(members, Spaces(indent + 1), indent + 1);
    var body := Join(items, ",\n") + Closing(indent, '}', rest);
    FirstMember(members, indent, Closing(indent, '}', rest));
    ObjectValue(body, DenotedMembers(members), rest);
    assert ToJson(Obj(members), indent) + rest == "{\n" + body;
  }

  /** A word, or a number's first character, decides which reader runs. */
  lemma NumberValue(t: string)
    requires t != [] && (t[0] == '-' || IsDigit(t[0]))
    ensures ReadValue(t) == ReadNumber(t)
  {
    hide ReadElements, ReadMembers, ReadNumber, ReadText;
    assert Skip(t) == t;
    assert "null"[0] == 'n' && "true"[0] == 't' && "false"[0] == 'f';
  }

  lemma WordValue(rest: string)
    ensures ReadValue("null" + rest) == Some((Null, rest))
    ensures ReadValue("true" + rest) == Some((Bool(true), rest))
    ensures ReadValue("false" + rest) == Some((Bool(false), rest))
  {
    hide ReadElements, ReadMembers, ReadNumber, ReadText;
    assert ("null" + rest)[4..] == rest && ("true" + rest)[4..] == rest && ("false" + rest)[5..] == rest;
    assert "null" <= "null" + rest && "true" <= "true" + rest && "false" <= "false" + rest;
    assert "null"[0] == 'n' && ("true" + rest)[0] == 't' && ("false" + rest)[0] == 'f' && "true"[0] == 't';
  }

  lemma TextValue(s: string, t: string, rest: string)
    requires ReadText(t) == Some((s, rest))
    ensures ReadValue("\"" + t) == Some((Str(s), rest))
  {
    hide ReadElements, ReadMembers, ReadNumber, ReadText;
    assert Skip("\"" + t) == "\"" + t && ("\"" + t)[1..] == t;
  }

  lemma EmptyValue(rest: string)
    ensures ReadValue("[]" + rest) == Some((Arr([]), rest))
    ensures ReadValue("{}" + rest) == Some((Obj([]), rest))
  {
    hide ReadElements, ReadMembers, ReadNumber, ReadText;
    assert ("[]" + rest)[1..] == "]" + rest && ("]" + rest)[1..] == rest;
    assert ("{}" + rest)[1..] == "}" + rest && ("}" + rest)[1..] == rest;
  }

  lemma ReadLeaf(v: Json, indent: nat, rest: string)
    requires Delimited(rest) && !v.Arr? && !v.Obj?
    ensures ReadValue(ToJson(v, indent) + rest) == Some((Denoted(v), rest))
  {
    hide ReadValue, ReadNumber, ReadText, Fixed, Escape, Skip, Numeral;
    var t := ToJson(v, indent) + rest;
    FirstChar(v, indent);
    assert t[0] == ToJson(v, indent)[0];
    match v
    case Null => WordValue(rest);
    case Bool(b) => WordValue(rest);
    case Str(s) =>
      ReadEscape(s, rest);
      TextValue(s, Escape(s) + "\"" + rest, rest);
      assert t == "\"" + (Escape(s) + "\"" + rest);
    case Int(n) =>
      IntegerStart(n);
      NumberValue(t);
      ReadInteger(n, rest);
    case Dec(neg, coeff, exp) =>
      FixedStart(neg, coeff, exp);
      NumberValue(t);
      ReadFixed(neg, coeff, exp, rest);
  }

  lemma IntegerStart(n: int)
    ensures Integer(n) != [] && (Integer(n)[0] == '-' || IsDigit(Integer(n)[0]))
  {
    NumeralValue(if n < 0 then -n else n);
  }

  lemma FixedStart(neg: bool, coeff: nat, exp: int)
    ensures Fixed(neg, coeff, exp) != [] && (Fixed(neg, coeff, exp)[0] == '-' || IsDigit(Fixed(neg, coeff, exp)[0]))
  {
    NumeralValue(coeff);
  }

  /** Reading a value's text gives what it denotes and stops where the text stops. */
  lemma {:induction false} ReadBack(v: Json, indent: nat, rest: string)
    requires Delimited(rest)
    ensures ReadValue(ToJson(v, indent) + rest) == Some((Denoted(v), rest))
    decreases v, 2
  {
    hide ReadValue, ReadElements, ReadMembers, Join, ElementItems, MemberItems;
    if v.Arr? && v.elems != [] {
      ReadElementsBack(v.elems, indent + 1, indent, rest);
      ReadArrayBack(v.elems, indent, rest);
    } else if v.Obj? && v.members != [] {
      ReadMembersBack(v.members, indent + 1, indent, rest);
      ReadObjectBack(v.members, indent, rest);
    } else if v.Arr? || v.Obj? {
      EmptyValue(rest);
    } else {
      ReadLeaf(v, indent, rest);
    }
  }

  lemma {:induction false} DenotedIsExact(v: Json)
    ensures Denoted(v) == v <==> Fractional(v)
    decreases v, 0
  {
    match v
    case Arr(elems) => DenotedElemsExact(elems);
    case Obj(members) => DenotedMembersExact(members);
    case _ =>
  }

  lemma {:induction false} DenotedElemsExact(elems: seq<Json>)
    ensures DenotedElems(elems) == elems <==> forall e :: e in elems ==> Fractional(e)
    decreases elems, 1
  {
    if elems != [] {
      DenotedIsExact(elems[0]);
      DenotedElemsExact(elems[1..]);
      assert elems == [elems[0]] + elems[1..];
      assert DenotedElems(elems)[1..] == DenotedElems(elems[1..]);
    }
  }

  lemma {:induction false} DenotedMembersExact(members: seq<Member>)
    ensures DenotedMembers(members) == members <==> forall m :: m in members ==> Fractional(m.value)
    decreases members, 1
  {
    if members != [] {
      DenotedIsExact(members[0].value);
      DenotedMembersExact(members[1..]);
      assert members == [members[0]] + members[1..];
      assert DenotedMembers(members)[1..] == DenotedMembers(members[1..]);
      assert DenotedMembers(members)[0] == Member(members[0].name, Denoted(members[0].value));
    }
  }

  /** The text of any value at any indent is one whole document, denoting the value digit for
      digit; it is the identical value exactly when every Decimal in it has a fraction. */
  lemma PrinterIsExact(v: Json, indent: nat)
    ensures Read(ToJson(v, indent)) == Some(Denoted(v))
    ensures Read(ToJson(v, indent)) == Some(v) <==> Fractional(v)
  {
    ReadBack(v, indent, "");
    assert ToJson(v, indent) + "" == ToJson(v, indent);
    DenotedIsExact(v);
  }

  /** For example the Decimal 1, which comes back as the integer. */
  lemma WholeDecimalComesBackInteger(indent: nat)
    ensures Read(ToJson(Dec(false, 1, 0), indent)) == Some(Int(1)) != Some(Dec(false, 1, 0))
  {
    PrinterIsExact(Dec(false, 1, 0), indent);
    assert Pow10(0) == 1;
  }
}
