/** The printer's layout: its text is the compact text with line breaks and indentation put in by an independent
    scan, and holds printable ASCII only. */
module JsonLayout {
  import opened Digits
  import opened Text
  import opened Json

  // ----- the compact text -----

  function Compact(v: Json): string
    decreases v, 0
  {
    match v
    case Obj(members) => "{" + Join(CompactMembers(members), ",") + "}"
    case Arr(elems) => "[" + Join(CompactElems(elems), ",") + "]"
    case _ => ToJson(v, 0)
  }

  function CompactElems(elems: seq<Json>): seq<string>
    decreases elems, 1
  {
    if elems == [] then [] else [Compact(elems[0])] + CompactElems(elems[1..])
  }

  function CompactMembers(members: seq<Member>): seq<string>
    decreases members, 1
  {
    if members == [] then []
    else [Quote(members[0].name) + (":" + Compact(members[0].value))] + CompactMembers(members[1..])
  }

  // ----- the scan that lays it out -----

  datatype Place = Outside | Inside | Escaped

  predicate Opens(c: char) {
    c == '[' || c == '{'
  }

  predicate Closes(c: char) {
    c == ']' || c == '}'
  }

  /** Breaks a line after every opening bracket and comma and before every closing bracket, indenting by one blank
      for each bracket open there, and puts a blank after every colon; strings and empty brackets stay. */
  function Reflow(s: string, depth: nat, place: Place): string
    decreases |s|
  {
    if s == "" then ""
    else
      var c, rest := s[0], s[1..];
      match place
      case Inside => [c] + Reflow(rest, depth, if c == '\\' then Escaped else if c == '"' then Outside else Inside)
      case Escaped => [c] + Reflow(rest, depth, Inside)
      case Outside =>
        if c == '"' then [c] + Reflow(rest, depth, Inside)
        else if Opens(c) && rest != "" && Closes(rest[0]) then [c, rest[0]] + Reflow(rest[1..], depth, Outside)
        else if Opens(c) then [c] + ("\n" + (Spaces(depth + 1) + Reflow(rest, depth + 1, Outside)))
        else if Closes(c) then
          var outer := if depth > 0 then depth - 1 else 0;
          "\n" + (Spaces(outer) + ([c] + Reflow(rest, outer, Outside)))
        else if c == ',' then ",\n" + (Spaces(depth) + Reflow(rest, depth, Outside))
        else if c == ':' then ": " + Reflow(rest, depth, Outside)
        else [c] + Reflow(rest, depth, Outside)
  }

  // ----- what it copies -----

  predicate Copied(c: char) {
    IsDigit(c) || 'a' <= c <= 'z' || c == '-' || c == '.'
  }

  lemma CopiesNext(c: char, rest: string, depth: nat)
    requires Copied(c)
    ensures Reflow([c] + rest, depth, Outside) == [c] + Reflow(rest, depth, Outside)
  {
    assert ([c] + rest)[1..] == rest;
  }

  lemma {:induction false} CopiesPlain(w: string, rest: string, depth: nat)
    requires forall c :: c in w ==> Copied(c)
    ensures Reflow(w + rest, depth, Outside) == w + Reflow(rest, depth, Outside)
  {
    hide Reflow;
    if w == "" {
      assert w + rest == rest && w + Reflow(rest, depth, Outside) == Reflow(rest, depth, Outside);
    } else {
      var c, more, r := w[0], w[1..], Reflow(rest, depth, Outside);
      assert c in w && forall d :: d in more ==> d in w;
      CopiesPlain(more, rest, depth);
      CopiesNext(c, more + rest, depth);
      assert w == [c] + more;
      hide Copied;
      Assoc([c], more, rest);
      Assoc([c], more, r);
    }
  }

  lemma CopiesOne(c: char, rest: string, depth: nat)
    requires c != '"' && c != '\\'
    ensures Reflow([c] + rest, depth, Inside) == [c] + Reflow(rest, depth, Inside)
  {
    assert ([c] + rest)[1..] == rest;
  }

  lemma CopiesEscape(c: char, rest: string, depth: nat)
    ensures Reflow(['\\', c] + rest, depth, Inside) == ['\\', c] + Reflow(rest, depth, Inside)
  {
    var s := ['\\', c] + rest;
    assert s[1..] == [c] + rest && s[1..][1..] == rest;
    assert ['\\'] + ([c] + Reflow(rest, depth, Inside)) == ['\\', c] + Reflow(rest, depth, Inside);
  }

  lemma CopiesFour(h: string, rest: string, depth: nat)
    requires |h| == 4 && forall i :: 0 <= i < 4 ==> h[i] != '"' && h[i] != '\\'
    ensures Reflow(h + rest, depth, Inside) == h + Reflow(rest, depth, Inside)
  {
    var r := Reflow(rest, depth, Inside);
    hide Reflow;
    CopiesOne(h[3], rest, depth);
    CopiesOne(h[2], [h[3]] + rest, depth);
    CopiesOne(h[1], [h[2]] + ([h[3]] + rest), depth);
    CopiesOne(h[0], [h[1]] + ([h[2]] + ([h[3]] + rest)), depth);
    assert h + rest == [h[0]] + ([h[1]] + ([h[2]] + ([h[3]] + rest)));
    assert h + r == [h[0]] + ([h[1]] + ([h[2]] + ([h[3]] + r)));
  }

  lemma HexPlain(n: nat)
    requires n < 0x10000
    ensures |Hex4(n)| == 4 && forall i :: 0 <= i < 4 ==> Hex4(n)[i] != '"' && Hex4(n)[i] != '\\' && Visible(Hex4(n)[i])
  {
  }

  lemma CopiesUnicode(n: nat, rest: string, depth: nat)
    requires n < 0x10000
    ensures Reflow("\\u" + Hex4(n) + rest, depth, Inside) == "\\u" + Hex4(n) + Reflow(rest, depth, Inside)
  {
    HexPlain(n);
    var h, r := Hex4(n), Reflow(rest, depth, Inside);
    hide Hex4, Reflow;
    CopiesFour(h, rest, depth);
    CopiesEscape('u', h + rest, depth);
    assert "\\u" == ['\\', 'u'];
    Assoc("\\u", h, rest);
    Assoc("\\u", h, r);
  }

  lemma CopiesChar(c: char, rest: string, depth: nat)
    ensures Reflow(EscapeChar(c) + rest, depth, Inside) == EscapeChar(c) + Reflow(rest, depth, Inside)
  {
    var n, e := c as int, EscapeChar(c);
    hide Reflow, Hex4;
    if |e| == 2 {
      assert e == ['\\', e[1]];
      CopiesEscape(e[1], rest, depth);
    } else if 0x20 <= n <= 0x7E {
      CopiesOne(c, rest, depth);
    } else if n < 0x10000 {
      CopiesUnicode(n, rest, depth);
    } else {
      var v := n - 0x10000;
      var a, b := "\\u" + Hex4(0xD800 + v / 0x400), "\\u" + Hex4(0xDC00 + v % 0x400);
      CopiesUnicode(0xDC00 + v % 0x400, rest, depth);
      CopiesUnicode(0xD800 + v / 0x400, b + rest, depth);
      assert e == a + b;
      Assoc(a, b, rest);
      Assoc(a, b, Reflow(rest, depth, Inside));
    }
  }

  lemma {:induction false} CopiesText(s: string, rest: string, depth: nat)
    ensures Reflow(Escape(s) + ("\"" + rest), depth, Inside) == Escape(s) + ("\"" + Reflow(rest, depth, Outside))
    decreases |s|
  {
    if s == [] {
      assert ("\"" + rest)[1..] == rest;
      assert Escape(s) + ("\"" + rest) == "\"" + rest;
    } else {
      var e, tail := EscapeChar(s[0]), Escape(s[1..]);
      CopiesText(s[1..], rest, depth);
      CopiesChar(s[0], tail + ("\"" + rest), depth);
      hide Reflow, EscapeChar;
      Assoc(e, tail, "\"" + rest);
      Assoc(e, tail, "\"" + Reflow(rest, depth, Outside));
    }
  }

  lemma CopiesQuote(s: string, rest: string, depth: nat)
    ensures Reflow(Quote(s) + rest, depth, Outside) == Quote(s) + Reflow(rest, depth, Outside)
  {
    var e, r := Escape(s), Reflow(rest, depth, Outside);
    CopiesText(s, rest, depth);
    Quoting(e + ("\"" + rest), depth);
    assert Quote(s) == "\"" + e + "\"";
    hide Reflow, Escape, Quote;
    Framing(e, rest);
    Framing(e, r);
  }

  lemma Quoting(inner: string, depth: nat)
    ensures Reflow("\"" + inner, depth, Outside) == "\"" + Reflow(inner, depth, Inside)
  {
    assert ("\"" + inner)[1..] == inner;
  }

  lemma Framing(e: string, rest: string)
    ensures ("\"" + e + "\"") + rest == "\"" + (e + ("\"" + rest))
  {
  }

  lemma NumeralCopied(n: nat)
    ensures forall c :: c in Numeral(n) ==> Copied(c)
  {
    NumeralValue(n);
  }

  lemma IntegerCopied(n: int)
    ensures forall c :: c in Integer(n) ==> Copied(c)
  {
    NumeralCopied(if n < 0 then -n else n);
  }

  lemma FixedCopied(neg: bool, coeff: nat, exp: int)
    ensures forall c :: c in Fixed(neg, coeff, exp) ==> Copied(c)
  {
    NumeralCopied(coeff);
    var digits := Numeral(coeff);
    hide Numeral;
    assert forall c :: c in digits ==> Copied(c);
  }

  lemma ScalarCopied(v: Json)
    requires !v.Arr? && !v.Obj? && !v.Str?
    ensures ToJson(v, 0) != "" && forall c :: c in ToJson(v, 0) ==> Copied(c)
    ensures forall indent: nat :: ToJson(v, indent) == ToJson(v, 0)
  {
    match v
    case Dec(neg, coeff, exp) => FixedCopied(neg, coeff, exp); FixedSome(neg, coeff, exp);
    case Int(n) => IntegerCopied(n); NumeralSome(if n < 0 then -n else n);
    case _ =>
  }

  lemma NumeralSome(n: nat)
    ensures Numeral(n) != ""
  {
    NumeralValue(n);
  }

  lemma FixedSome(neg: bool, coeff: nat, exp: int)
    ensures Fixed(neg, coeff, exp) != ""
  {
    NumeralSome(coeff);
  }

  // ----- the law -----

  lemma Opening(c: char, rest: string, depth: nat)
    requires Opens(c) && (rest == "" || !Closes(rest[0]))
    ensures Reflow([c] + rest, depth, Outside) == [c] + ("\n" + (Spaces(depth + 1) + Reflow(rest, depth + 1, Outside)))
  {
    assert ([c] + rest)[1..] == rest;
  }

  lemma Closing(c: char, rest: string, depth: nat)
    requires Closes(c)
    ensures Reflow([c] + rest, depth + 1, Outside) == "\n" + (Spaces(depth) + ([c] + Reflow(rest, depth, Outside)))
  {
    assert ([c] + rest)[1..] == rest;
  }

  lemma Marking(rest: string, depth: nat)
    ensures Reflow("," + rest, depth, Outside) == ",\n" + (Spaces(depth) + Reflow(rest, depth, Outside))
    ensures Reflow(":" + rest, depth, Outside) == ": " + Reflow(rest, depth, Outside)
  {
    assert ("," + rest)[1..] == rest && (":" + rest)[1..] == rest;
  }

  lemma EmptyPair(o: char, c: char, rest: string, depth: nat)
    requires Opens(o) && Closes(c)
    ensures Reflow([o, c] + rest, depth, Outside) == [o, c] + Reflow(rest, depth, Outside)
  {
    var s := [o, c] + rest;
    assert s[1..] == [c] + rest && s[1..][1..] == rest;
  }

  lemma CompactStarts(v: Json)
    ensures Compact(v) != "" && !Closes(Compact(v)[0])
  {
    if !v.Arr? && !v.Obj? && !v.Str? {
      ScalarCopied(v);
      assert Compact(v)[0] in Compact(v);
    }
  }

  /** Laying out a value's compact text at a depth gives the printer's text at that indent. */
  lemma {:induction false} Lays(v: Json, depth: nat, rest: string)
    ensures Reflow(Compact(v) + rest, depth, Outside) == ToJson(v, depth) + Reflow(rest, depth, Outside)
    decreases v, 2
  {
    if v.Str? {
      CopiesQuote(v.text, rest, depth);
    } else if v.Arr? {
      if v.elems == [] {
        assert Compact(v) == ['[', ']'];
        EmptyPair('[', ']', rest, depth);
      } else {
        LaysElems(v.elems, depth, rest);
        LaysArray(v.elems, depth, rest);
      }
    } else if v.Obj? {
      if v.members == [] {
        assert Compact(v) == ['{', '}'];
        EmptyPair('{', '}', rest, depth);
      } else {
        LaysMembers(v.members, depth, rest);
        LaysObject(v.members, depth, rest);
      }
    } else {
      ScalarCopied(v);
      CopiesPlain(ToJson(v, 0), rest, depth);
    }
  }

  /** The text from a container's last item on. */
  function Ending(close: char, depth: nat, rest: string): string {
    "\n" + (Spaces(depth) + ([close] + Reflow(rest, depth, Outside)))
  }

  lemma {:induction false} LaysElems(elems: seq<Json>, depth: nat, rest: string)
    requires elems != []
    ensures var inner := Spaces(depth + 1);
            inner + Reflow(Join(CompactElems(elems), ",") + ("]" + rest), depth + 1, Outside)
            == Join(ElementItems(elems, inner, depth + 1), ",\n") + Ending(']', depth, rest)
    decreases elems, 1
  {
    var inner, v, more := Spaces(depth + 1), elems[0], elems[1..];
    var close := "]" + rest;
    var texts, items := CompactElems(elems), ElementItems(elems, inner, depth + 1);
    assert texts[0] == Compact(v) && texts[1..] == CompactElems(more);
    assert items[0] == inner + ToJson(v, depth + 1) && items[1..] == ElementItems(more, inner, depth + 1);
    SameLength(elems, inner, depth + 1);
    if more != [] { LaysElems(more, depth, rest); }
    var tail := if more == [] then close else "," + (Join(texts[1..], ",") + close);
    Lays(v, depth + 1, tail);
    hide Reflow, Compact, CompactElems, ElementItems, ToJson, Join, Spaces, Ending;
    ItemLaid(texts, items, ",", close, inner, ToJson(v, depth + 1), depth, ']', rest);
  }

  lemma SameLength(elems: seq<Json>, inner: string, depth: nat)
    ensures |CompactElems(elems)| == |elems| && |ElementItems(elems, inner, depth)| == |elems|
    decreases |elems|
  {
    if elems != [] { SameLength(elems[1..], inner, depth); }
  }

  lemma SameMembers(members: seq<Member>, inner: string, depth: nat)
    ensures |CompactMembers(members)| == |members| && |MemberItems(members, inner, depth)| == |members|
    decreases |members|
  {
    if members != [] { SameMembers(members[1..], inner, depth); }
  }

  /** One item of a container laid out, given the rest of it is. */
  lemma ItemLaid(texts: seq<string>, items: seq<string>, comma: string, close: string, inner: string, item: string,
                 depth: nat, bracket: char, rest: string)
    requires texts != [] && |items| == |texts| && comma == "," && inner == Spaces(depth + 1)
    requires close == [bracket] + rest && Closes(bracket) && items[0] == inner + item
    requires var tail := if |texts| == 1 then close else "," + (Join(texts[1..], ",") + close);
             Reflow(texts[0] + tail, depth + 1, Outside) == item + Reflow(tail, depth + 1, Outside)
    requires |texts| > 1 ==>
               inner + Reflow(Join(texts[1..], ",") + close, depth + 1, Outside)
               == Join(items[1..], ",\n") + Ending(bracket, depth, rest)
    ensures inner + Reflow(Join(texts, ",") + close, depth + 1, Outside)
            == Join(items, ",\n") + Ending(bracket, depth, rest)
  {
    JoinFirst(texts, ",", close);
    JoinFirst(items, ",\n", Ending(bracket, depth, rest));
    if |texts| == 1 {
      Closing(bracket, rest, depth);
      hide Reflow, Join, Spaces;
      Assoc(inner, item, Ending(bracket, depth, rest));
    } else {
      var after := Join(texts[1..], ",") + close;
      Marking(after, depth + 1);
      hide Reflow, Join, Spaces, Ending;
      var laid := Join(items[1..], ",\n") + Ending(bracket, depth, rest);
      Assoc(inner, item, ",\n" + laid);
    }
  }

  /** A container laid out, given its items are. */
  lemma Boxed(o: string, c: string, head: string, body: string, items: string, depth: nat, rest: string)
    requires |o| == 1 && Opens(o[0]) && |c| == 1 && Closes(c[0]) && head == o + "\n"
    requires body != "" && !Closes(body[0])
    requires Spaces(depth + 1) + Reflow(body + (c + rest), depth + 1, Outside) == items + Ending(c[0], depth, rest)
    ensures Reflow((o + body + c) + rest, depth, Outside)
            == (head + items + "\n" + Spaces(depth) + c) + Reflow(rest, depth, Outside)
  {
    var r, after := Reflow(rest, depth, Outside), body + (c + rest);
    assert o == [o[0]] && c == [c[0]];
    Opening(o[0], after, depth);
    hide Reflow, Spaces;
    Bracketed(o, body, c, rest);
    Framed(o, items, Spaces(depth), c, r);
  }

  lemma LaysArray(elems: seq<Json>, depth: nat, rest: string)
    requires elems != []
    requires var inner := Spaces(depth + 1);
             inner + Reflow(Join(CompactElems(elems), ",") + ("]" + rest), depth + 1, Outside)
             == Join(ElementItems(elems, inner, depth + 1), ",\n") + Ending(']', depth, rest)
    ensures Reflow(Compact(Arr(elems)) + rest, depth, Outside)
            == ToJson(Arr(elems), depth) + Reflow(rest, depth, Outside)
  {
    ArrayTexts(elems, depth);
    hide *;
    Boxed("[", "]", "[\n", Join(CompactElems(elems), ","),
          Join(ElementItems(elems, Spaces(depth + 1), depth + 1), ",\n"), depth, rest);
  }

  lemma ArrayTexts(elems: seq<Json>, depth: nat)
    requires elems != []
    ensures var body := Join(CompactElems(elems), ",");
            Compact(Arr(elems)) == "[" + body + "]" && body != "" && !Closes(body[0])
    ensures ToJson(Arr(elems), depth)
            == "[\n" + Join(ElementItems(elems, Spaces(depth + 1), depth + 1), ",\n") + "\n" + Spaces(depth) + "]"
  {
    CompactStarts(elems[0]);
    JoinStarts(CompactElems(elems));
    hide Join, Spaces, ElementItems;
  }

  lemma LaysObject(members: seq<Member>, depth: nat, rest: string)
    requires members != []
    requires var inner := Spaces(depth + 1);
             inner + Reflow(Join(CompactMembers(members), ",") + ("}" + rest), depth + 1, Outside)
             == Join(MemberItems(members, inner, depth + 1), ",\n") + Ending('}', depth, rest)
    ensures Reflow(Compact(Obj(members)) + rest, depth, Outside)
            == ToJson(Obj(members), depth) + Reflow(rest, depth, Outside)
  {
    ObjectTexts(members, depth);
    hide *;
    Boxed("{", "}", "{\n", Join(CompactMembers(members), ","),
          Join(MemberItems(members, Spaces(depth + 1), depth + 1), ",\n"), depth, rest);
  }

  lemma ObjectTexts(members: seq<Member>, depth: nat)
    requires members != []
    ensures var body := Join(CompactMembers(members), ",");
            Compact(Obj(members)) == "{" + body + "}" && body != "" && !Closes(body[0])
    ensures ToJson(Obj(members), depth)
            == "{\n" + Join(MemberItems(members, Spaces(depth + 1), depth + 1), ",\n") + "\n" + Spaces(depth) + "}"
  {
    assert CompactMembers(members)[0][0] == '"';
    JoinStarts(CompactMembers(members));
    hide Join, Spaces, MemberItems;
  }

  lemma JoinStarts(parts: seq<string>)
    requires parts != [] && parts[0] != ""
    ensures Join(parts, ",") != "" && Join(parts, ",")[0] == parts[0][0]
  {
  }

  lemma Bracketed(o: string, body: string, c: string, rest: string)
    ensures (o + body + c) + rest == o + (body + (c + rest))
  {
  }

  lemma Framed(o: string, items: string, pad: string, c: string, r: string)
    ensures (o + "\n" + items + "\n" + pad + c) + r == o + ("\n" + (items + ("\n" + (pad + (c + r)))))
  {
  }

  lemma {:induction false} LaysMembers(members: seq<Member>, depth: nat, rest: string)
    requires members != []
    ensures var inner := Spaces(depth + 1);
            inner + Reflow(Join(CompactMembers(members), ",") + ("}" + rest), depth + 1, Outside)
            == Join(MemberItems(members, inner, depth + 1), ",\n") + Ending('}', depth, rest)
    decreases members, 1
  {
    var inner, m, more := Spaces(depth + 1), members[0], members[1..];
    var close, v := "}" + rest, members[0].value;
    var texts, items := CompactMembers(members), MemberItems(members, inner, depth + 1);
    var item := Quote(m.name) + (": " + ToJson(v, depth + 1));
    assert texts[0] == Quote(m.name) + (":" + Compact(v)) && texts[1..] == CompactMembers(more);
    assert items[0] == inner + item && items[1..] == MemberItems(more, inner, depth + 1);
    SameMembers(members, inner, depth + 1);
    if more != [] { LaysMembers(more, depth, rest); }
    var tail := if more == [] then close else "," + (Join(texts[1..], ",") + close);
    Lays(v, depth + 1, tail);
    hide Reflow, Compact, CompactMembers, MemberItems, ToJson, Join, Spaces, Ending, Quote;
    MemberLaid(m.name, Compact(v), ToJson(v, depth + 1), tail, depth + 1);
    ItemLaid(texts, items, ",", close, inner, item, depth, '}', rest);
  }

  lemma MemberLaid(name: string, text: string, laid: string, tail: string, depth: nat)
    requires Reflow(text + tail, depth, Outside) == laid + Reflow(tail, depth, Outside)
    ensures Reflow((Quote(name) + (":" + text)) + tail, depth, Outside)
            == (Quote(name) + (": " + laid)) + Reflow(tail, depth, Outside)
  {
    var r := Reflow(tail, depth, Outside);
    CopiesQuote(name, ":" + (text + tail), depth);
    Marking(text + tail, depth);
    hide Reflow, Quote;
    Assoc(Quote(name), ":" + text, tail);
    Assoc(":", text, tail);
    Assoc(Quote(name), ": " + laid, r);
    Assoc(": ", laid, r);
  }

  /** The printer's text is the compact text laid out from its indent: every element and member on a line of its
      own, indented by one blank for each bracket around it. */
  lemma PrinterLaysOut(v: Json, indent: nat)
    ensures ToJson(v, indent) == Reflow(Compact(v), indent, Outside)
  {
    Lays(v, indent, "");
    assert Compact(v) + "" == Compact(v) && ToJson(v, indent) + "" == ToJson(v, indent);
    hide ToJson, Compact;
  }

  predicate LowerHex(c: char) {
    IsDigit(c) || 'a' <= c <= 'f'
  }

  /** Escapes are written with four lower-case hexadecimal digits, and only where no shorter spelling serves. */
  lemma EscapesAreLower(c: char)
    ensures var e := EscapeChar(c);
            && (|e| > 2 ==> e[..2] == "\\u" && forall i :: 2 <= i < 6 ==> LowerHex(e[i]))
            && (|e| > 6 ==> |e| == 12 && e[6..8] == "\\u" && forall i :: 8 <= i < 12 ==> LowerHex(e[i]))
            && (|e| <= 2 <==> ' ' <= c <= '~' || c in "\n\r\t" || c as int == 0x08 || c as int == 0x0C)
  {
    var n, e := c as int, EscapeChar(c);
    if n < 0x10000 {
      HexIsLower(n);
    } else {
      var v := n - 0x10000;
      HexIsLower(0xD800 + v / 0x400);
      HexIsLower(0xDC00 + v % 0x400);
    }
    hide Hex4;
  }

  lemma HexIsLower(n: nat)
    requires n < 0x10000
    ensures |Hex4(n)| == 4 && forall i :: 0 <= i < 4 ==> LowerHex(Hex4(n)[i])
  {
  }

  // ----- printable ASCII -----

  predicate Visible(c: char) {
    ' ' <= c <= '~'
  }

  /** Printable ASCII, and line breaks. */
  predicate Clean(s: string) {
    forall i :: 0 <= i < |s| ==> Visible(s[i]) || s[i] == '\n'
  }

  lemma CleanConcat(a: string, b: string)
    requires Clean(a) && Clean(b)
    ensures Clean(a + b)
  {
  }

  lemma SpacesClean(n: nat)
    ensures Clean(Spaces(n))
  {
  }

  /** A mark, an indent and a text. */
  lemma LineClean(mark: string, n: nat, after: string)
    requires Clean(mark) && Clean(after)
    ensures Clean(mark + (Spaces(n) + after))
  {
    SpacesClean(n);
    hide Spaces, Clean;
    CleanConcat(Spaces(n), after);
    CleanConcat(mark, Spaces(n) + after);
  }

  lemma {:induction false} ReflowClean(s: string, depth: nat, place: Place)
    requires Clean(s)
    ensures Clean(Reflow(s, depth, place))
    decreases |s|
  {
    if s != "" {
      var c, rest := s[0], s[1..];
      var outer := if depth > 0 then depth - 1 else 0;
      assert Clean([c]) && Clean(rest) && Clean("\n") && Clean(",\n") && Clean(": ");
      assert rest != "" ==> Clean(rest[1..]) && Clean([c, rest[0]]);
      hide Clean, Spaces;
      if place.Inside? {
        var next := if c == '\\' then Escaped else if c == '"' then Outside else Inside;
        ReflowClean(rest, depth, next);
        CleanConcat([c], Reflow(rest, depth, next));
      } else if place.Escaped? || c == '"' {
        ReflowClean(rest, depth, Inside);
        CleanConcat([c], Reflow(rest, depth, Inside));
      } else if Opens(c) && rest != "" && Closes(rest[0]) {
        ReflowClean(rest[1..], depth, Outside);
        CleanConcat([c, rest[0]], Reflow(rest[1..], depth, Outside));
      } else if Opens(c) {
        ReflowClean(rest, depth + 1, Outside);
        var after := Reflow(rest, depth + 1, Outside);
        LineClean("\n", depth + 1, after);
        CleanConcat([c], "\n" + (Spaces(depth + 1) + after));
      } else if Closes(c) {
        ReflowClean(rest, outer, Outside);
        CleanConcat([c], Reflow(rest, outer, Outside));
        LineClean("\n", outer, [c] + Reflow(rest, outer, Outside));
      } else {
        ReflowClean(rest, depth, Outside);
        var after := Reflow(rest, depth, Outside);
        LineClean(",\n", depth, after);
        CleanConcat(": ", after);
        CleanConcat([c], after);
      }
    }
  }

  lemma {:induction false} JoinClean(parts: seq<string>)
    requires forall i :: 0 <= i < |parts| ==> Clean(parts[i])
    ensures Clean(Join(parts, ","))
  {
    if |parts| > 1 { JoinClean(parts[1..]); }
  }

  /** A long escape. */
  lemma UnicodeClean(n: nat)
    requires n < 0x10000
    ensures Clean("\\u" + Hex4(n))
  {
    HexPlain(n);
    hide Hex4;
  }

  lemma PairClean(c: char)
    requires c as int >= 0x10000
    ensures Clean(EscapeChar(c))
  {
    var v := c as int - 0x10000;
    var high, low := Hex4(0xD800 + v / 0x400), Hex4(0xDC00 + v % 0x400);
    UnicodeClean(0xD800 + v / 0x400);
    UnicodeClean(0xDC00 + v % 0x400);
    hide Hex4, Clean;
    assert EscapeChar(c) == ("\\u" + high + "\\u") + low;
    hide EscapeChar;
    Joined("\\u" + high, "\\u", low);
  }

  lemma Joined(a: string, u: string, b: string)
    requires Clean(a) && Clean(u + b)
    ensures Clean((a + u) + b)
  {
    hide Clean;
    CleanConcat(a, u + b);
    Assoc(a, u, b);
  }

  lemma CharClean(c: char)
    ensures Clean(EscapeChar(c))
  {
    var n := c as int;
    if n >= 0x10000 {
      PairClean(c);
    } else if |EscapeChar(c)| > 2 {
      UnicodeClean(n);
      hide Hex4, Clean;
    } else {
      hide Hex4;
    }
  }

  lemma {:induction false} TextClean(s: string)
    ensures Clean(Escape(s))
    decreases |s|
  {
    if s != [] {
      TextClean(s[1..]);
      CharClean(s[0]);
      hide EscapeChar;
    }
  }

  lemma {:induction false} CompactClean(v: Json)
    ensures Clean(Compact(v))
    decreases v, 0
  {
    match v
    case Arr(elems) => ElemsClean(elems); JoinClean(CompactElems(elems)); hide Join, CompactElems;
    case Obj(members) => MembersClean(members); JoinClean(CompactMembers(members)); hide Join, CompactMembers;
    case Str(s) => TextClean(s); hide Escape;
    case _ =>
      ScalarCopied(v);
      var t := ToJson(v, 0);
      hide ToJson;
      forall i | 0 <= i < |t| ensures Visible(t[i]) { assert t[i] in t; }
  }

  lemma {:induction false} ElemsClean(elems: seq<Json>)
    ensures forall i :: 0 <= i < |CompactElems(elems)| ==> Clean(CompactElems(elems)[i])
    decreases elems, 1
  {
    if elems != [] {
      CompactClean(elems[0]);
      ElemsClean(elems[1..]);
      hide Compact, Clean;
    }
  }

  lemma {:induction false} MembersClean(members: seq<Member>)
    ensures forall i :: 0 <= i < |CompactMembers(members)| ==> Clean(CompactMembers(members)[i])
    decreases members, 1
  {
    if members != [] {
      CompactClean(members[0].value);
      TextClean(members[0].name);
      MembersClean(members[1..]);
      MemberClean(members[0].name, Compact(members[0].value));
      hide Compact, Clean, Quote;
    }
  }

  lemma MemberClean(name: string, text: string)
    requires Clean(Escape(name)) && Clean(text)
    ensures Clean(Quote(name) + (":" + text))
  {
    hide Escape;
  }

  /** Whatever characters the strings hold, the text is printable ASCII and line breaks. */
  lemma PrinterIsAscii(v: Json, indent: nat)
    ensures Clean(ToJson(v, indent))
  {
    PrinterLaysOut(v, indent);
    CompactClean(v);
    hide Compact, ToJson, Reflow;
    ReflowClean(Compact(v), indent, Outside);
  }
}
