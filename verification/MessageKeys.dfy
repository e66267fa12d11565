/** Deriving message keys and ARB method names from warning codes, and reading the code back. */
module MessageKeys {
  import opened Text
  import opened Wrappers

  /** A code's family is told by its wire prefix. */
  datatype Family = PoMatchIssue | ExceptionOnly | Warning

  function Wire(f: Family): string {
    match f
    case PoMatchIssue => "po_match.issue."
    case ExceptionOnly => "exception."
    case Warning => ""
  }

  function KeyPrefix(f: Family): string {
    match f
    case PoMatchIssue => "invoices.poMatch.issue."
    case ExceptionOnly => "exceptions.description."
    case Warning => "invoices.warning."
  }

  function ArbPrefix(f: Family): string {
    match f
    case PoMatchIssue => "invoicePoMatchIssue"
    case ExceptionOnly => "exceptionDescription"
    case Warning => "invoiceWarning"
  }

  function FamilyOf(code: string): Family {
    if Wire(PoMatchIssue) <= code then PoMatchIssue
    else if Wire(ExceptionOnly) <= code then ExceptionOnly
    else Warning
  }

  /** The code without its family's wire prefix. */
  function Name(code: string): string {
    code[|Wire(FamilyOf(code))|..]
  }

  function UpperChar(c: char): char {
    if 'a' <= c <= 'z' then (c as int - 32) as char else c
  }

  /** `str.capitalize`. */
  function Capitalize(s: string): string {
    if s == "" then "" else [UpperChar(s[0])] + Lower(s[1..])
  }

  function Humps(parts: seq<string>): string {
    if parts == [] then "" else Capitalize(parts[0]) + Humps(parts[1..])
  }

  function Camel(snake: string): string {
    var parts := Split(snake, '_');
    parts[0] + Humps(parts[1..])
  }

  function MessageKey(code: string): string {
    KeyPrefix(FamilyOf(code)) + Camel(Name(code))
  }

  /** None where the source indexes an empty string. */
  function ArbMethod(code: string): Option<string> {
    var camel := Camel(Name(code));
    if camel == "" then None
    else Some(ArbPrefix(FamilyOf(code)) + ([UpperChar(camel[0])] + camel[1..]))
  }

  // ----- reading back -----

  function Uncamel(s: string): string {
    if s == "" then ""
    else (if 'A' <= s[0] <= 'Z' then "_" else "") + [LowerChar(s[0])] + Uncamel(s[1..])
  }

  function FamilyOfKey(key: string): Option<Family> {
    if KeyPrefix(PoMatchIssue) <= key then Some(PoMatchIssue)
    else if KeyPrefix(ExceptionOnly) <= key then Some(ExceptionOnly)
    else if KeyPrefix(Warning) <= key then Some(Warning)
    else None
  }

  function DecodeKey(key: string): Option<string> {
    match FamilyOfKey(key)
    case None => None
    case Some(f) => Some(Wire(f) + Uncamel(key[|KeyPrefix(f)|..]))
  }

  function FamilyOfMethod(m: string): Option<Family> {
    if ArbPrefix(PoMatchIssue) < m then Some(PoMatchIssue)
    else if ArbPrefix(ExceptionOnly) < m then Some(ExceptionOnly)
    else if ArbPrefix(Warning) < m then Some(Warning)
    else None
  }

  function DecodeMethod(m: string): Option<string> {
    match FamilyOfMethod(m)
    case None => None
    case Some(f) =>
      var rest := m[|ArbPrefix(f)|..];
      Some(Wire(f) + Uncamel([LowerChar(rest[0])] + rest[1..]))
  }

  // ----- snake case -----

  predicate Letter(c: char) {
    'a' <= c <= 'z'
  }

  predicate Plain(s: string) {
    forall i :: 0 <= i < |s| ==> Letter(s[i]) || '0' <= s[i] <= '9'
  }

  /** A name of lower-case letters, digits and underscores. */
  predicate Snake(s: string) {
    forall i :: 0 <= i < |s| ==> Letter(s[i]) || '0' <= s[i] <= '9' || s[i] == '_'
  }

  /** Every underscore is followed by a letter. */
  predicate Separated(s: string) {
    forall i :: 0 <= i < |s| && s[i] == '_' ==> i + 1 < |s| && Letter(s[i + 1])
  }

  predicate AllPlain(parts: seq<string>) {
    forall i :: 0 <= i < |parts| ==> Plain(parts[i])
  }

  predicate Starts(part: string) {
    part != "" && Letter(part[0])
  }

  predicate AllStart(parts: seq<string>) {
    forall i :: 0 <= i < |parts| ==> Starts(parts[i])
  }

  /** The parts of a snake-case name, and when they all start with a letter. */
  lemma {:induction false} SnakeParts(s: string)
    requires Snake(s)
    ensures var parts := Split(s, '_');
            && AllPlain(parts)
            && (AllStart(parts[1..]) <==> Separated(s))
            && (parts[0] == "" <==> s == "" || s[0] == '_')
            && (Starts(parts[0]) <==> s != "" && Letter(s[0]))
            && (parts[0] != "" ==> parts[0][0] == s[0])
  {
    if s != "" {
      var rest := s[1..];
      SnakeParts(rest);
      var tail := Split(rest, '_');
      var parts := Split(s, '_');
      assert Separated(s) <==> Separated(rest) && (s[0] == '_' ==> rest != "" && Letter(rest[0])) by {
        assert forall i :: 0 <= i < |rest| ==> rest[i] == s[i + 1];
        if Separated(s) {
          assert forall i :: 0 <= i < |rest| && rest[i] == '_' ==> s[i + 1] == '_';
        }
      }
      if s[0] == '_' {
        assert parts[1..] == tail;
        AllStartCons(tail);
      } else {
        assert parts[1..] == tail[1..];
      }
    }
  }

  lemma AllStartCons(parts: seq<string>)
    requires parts != []
    ensures AllStart(parts) <==> Starts(parts[0]) && AllStart(parts[1..])
  {
    assert forall i :: 0 <= i < |parts[1..]| ==> parts[1..][i] == parts[i + 1];
    assert forall i :: 0 < i < |parts| ==> parts[i] == parts[1..][i - 1];
  }

  // ----- the inversion -----

  lemma {:induction false} UncamelConcat(a: string, b: string)
    ensures Uncamel(a + b) == Uncamel(a) + Uncamel(b)
  {
    if a == "" {
      assert a + b == b;
    } else {
      assert (a + b)[1..] == a[1..] + b;
      UncamelConcat(a[1..], b);
    }
  }

  lemma {:induction false} UncamelPlain(s: string)
    requires Plain(s)
    ensures Uncamel(s) == s && Lower(s) == s
  {
    LowerPlain(s);
    hide Lower;
    if s != "" {
      assert Plain(s[1..]);
      UncamelPlain(s[1..]);
      assert s == [s[0]] + s[1..];
    }
  }

  lemma LowerPlain(s: string)
    requires Plain(s)
    ensures Lower(s) == s
  {
  }

  lemma UncamelCons(c: char, t: string)
    ensures Uncamel([c] + t) == (if 'A' <= c <= 'Z' then "_" else "") + ([LowerChar(c)] + Uncamel(t))
  {
    assert ([c] + t)[1..] == t;
    Assoc(if 'A' <= c <= 'Z' then "_" else "", [LowerChar(c)], Uncamel(t));
  }

  lemma UpperBack(c: char)
    requires Letter(c) || '0' <= c <= '9'
    ensures LowerChar(UpperChar(c)) == c && ('A' <= UpperChar(c) <= 'Z' <==> Letter(c))
  {
  }

  lemma CapitalizePlain(part: string)
    requires Plain(part) && part != ""
    ensures Capitalize(part) == [UpperChar(part[0])] + part[1..] && Uncamel(part[1..]) == part[1..]
  {
    assert Plain(part[1..]);
    UncamelPlain(part[1..]);
  }

  /** A capitalized part reads back as the part, its underscore before it when it starts with a letter. */
  lemma UncamelPart(part: string)
    requires Plain(part)
    ensures Uncamel(Capitalize(part)) == if Starts(part) then "_" + part else part
  {
    if part != "" {
      CapitalizePlain(part);
      UncamelCons(UpperChar(part[0]), part[1..]);
      UpperBack(part[0]);
      hide Uncamel, Capitalize, UpperChar, LowerChar;
      assert part == [part[0]] + part[1..];
      assert "" + part == part;
    }
  }

  function Tail(parts: seq<string>): string {
    if parts == [] then "" else "_" + parts[0] + Tail(parts[1..])
  }

  lemma {:induction false} JoinTail(parts: seq<string>)
    requires parts != []
    ensures Join(parts, "_") == parts[0] + Tail(parts[1..])
  {
    if |parts| > 1 {
      JoinTail(parts[1..]);
    }
  }

  lemma {:induction false} HumpsBack(parts: seq<string>)
    requires AllPlain(parts)
    ensures |Uncamel(Humps(parts))| <= |Tail(parts)|
    ensures Uncamel(Humps(parts)) == Tail(parts) <==> AllStart(parts)
  {
    if parts != [] {
      var rest := parts[1..];
      HumpsBack(rest);
      UncamelPart(parts[0]);
      UncamelConcat(Capitalize(parts[0]), Humps(rest));
      AllStartCons(parts);
      hide Uncamel, Humps, Capitalize, AllStart;
      if Starts(parts[0]) {
        var front := "_" + parts[0];
        Cancel(front, Uncamel(Humps(rest)), Tail(rest));
      }
    }
  }

  lemma Cancel(a: string, b: string, c: string)
    ensures a + b == a + c <==> b == c
  {
    if a + b == a + c {
      assert b == (a + b)[|a|..] && c == (a + c)[|a|..];
    }
  }

  /** Camel case can be undone exactly when every underscore is followed by a letter. */
  lemma CamelBack(name: string)
    requires Snake(name)
    ensures Uncamel(Camel(name)) == name <==> Separated(name)
  {
    var parts := Split(name, '_');
    SnakeParts(name);
    SplitJoin(name, '_');
    JoinTail(parts);
    UncamelPlain(parts[0]);
    hide Split, Join, Snake, Separated, AllStart, Starts, Plain, Lower, Humps, Uncamel, Tail;
    UncamelConcat(parts[0], Humps(parts[1..]));
    HumpsBack(parts[1..]);
    Cancel(parts[0], Uncamel(Humps(parts[1..])), Tail(parts[1..]));
  }

  lemma CodeIs(code: string)
    ensures code == Wire(FamilyOf(code)) + Name(code)
  {
    var w := Wire(FamilyOf(code));
    assert w <= code;
  }

  lemma FamilyRead(f: Family, rest: string)
    ensures FamilyOfKey(KeyPrefix(f) + rest) == Some(f) && (KeyPrefix(f) + rest)[|KeyPrefix(f)|..] == rest
  {
    var key := KeyPrefix(f) + rest;
    OtherKey(f, PoMatchIssue, rest);
    OtherKey(f, ExceptionOnly, rest);
    OtherKey(f, Warning, rest);
    hide KeyPrefix;
    assert KeyPrefix(f) <= key;
  }

  /** The key prefixes differ in their first or tenth character. */
  lemma OtherKey(f: Family, g: Family, rest: string)
    ensures KeyPrefix(g) <= KeyPrefix(f) + rest ==> f == g
  {
    var key := KeyPrefix(f) + rest;
    assert |KeyPrefix(f)| > 9 && |KeyPrefix(g)| > 9;
    PrefixAgrees(KeyPrefix(g), 0, key);
    PrefixAgrees(KeyPrefix(g), 9, key);
    assert KeyPrefix(f)[0] == (if f == ExceptionOnly then 'e' else 'i')
           && KeyPrefix(g)[0] == (if g == ExceptionOnly then 'e' else 'i');
    assert KeyPrefix(f)[9] == (if f == Warning then 'w' else if f == PoMatchIssue then 'p' else 's')
           && KeyPrefix(g)[9] == (if g == Warning then 'w' else if g == PoMatchIssue then 'p' else 's');
  }

  lemma FamilyReadMethod(f: Family, rest: string)
    ensures rest != "" ==> FamilyOfMethod(ArbPrefix(f) + rest) == Some(f)
    ensures (ArbPrefix(f) + rest)[|ArbPrefix(f)|..] == rest
  {
    var m := ArbPrefix(f) + rest;
    OtherMethod(f, PoMatchIssue, rest);
    OtherMethod(f, ExceptionOnly, rest);
    OtherMethod(f, Warning, rest);
    hide ArbPrefix;
    assert ArbPrefix(f) <= m;
  }

  /** The ARB prefixes differ in their first or eighth character. */
  lemma OtherMethod(f: Family, g: Family, rest: string)
    ensures ArbPrefix(g) <= ArbPrefix(f) + rest ==> f == g
  {
    var m := ArbPrefix(f) + rest;
    assert |ArbPrefix(f)| > 7 && |ArbPrefix(g)| > 7;
    PrefixAgrees(ArbPrefix(g), 0, m);
    PrefixAgrees(ArbPrefix(g), 7, m);
    assert ArbPrefix(f)[0] == (if f == ExceptionOnly then 'e' else 'i')
           && ArbPrefix(g)[0] == (if g == ExceptionOnly then 'e' else 'i');
    assert ArbPrefix(f)[7] == (if f == Warning then 'W' else if f == PoMatchIssue then 'P' else 'o')
           && ArbPrefix(g)[7] == (if g == Warning then 'W' else if g == PoMatchIssue then 'P' else 'o');
  }

  /** Over snake-case names in all three families, the web key gives the code back exactly when every
      underscore of the name is followed by a letter. */
  lemma KeyRecovered(code: string)
    requires Snake(Name(code))
    ensures DecodeKey(MessageKey(code)) == Some(code) <==> Separated(Name(code))
  {
    var f, name := FamilyOf(code), Name(code);
    CodeIs(code);
    FamilyRead(f, Camel(name));
    CamelBack(name);
    Cancel(Wire(f), Uncamel(Camel(name)), name);
  }

  lemma CamelHead(name: string)
    requires Snake(name)
    ensures name != "" && name[0] != '_' ==> Camel(name) != "" && Camel(name)[0] == name[0]
    ensures Camel(name) != "" && name[0] == '_' ==> Camel(name)[0] != '_'
  {
    SnakeParts(name);
    var parts := Split(name, '_');
    if parts[0] == "" {
      SnakeHumps(parts[1..]);
    }
  }

  lemma {:induction false} SnakeHumps(parts: seq<string>)
    requires AllPlain(parts)
    ensures Humps(parts) != "" ==> Humps(parts)[0] != '_'
  {
    if parts != [] { SnakeHumps(parts[1..]); }
  }

  /** The ARB method gives the code back exactly when, besides, the name starts with a letter or digit. */
  lemma MethodRecovered(code: string)
    requires Snake(Name(code))
    ensures (ArbMethod(code).Some? && DecodeMethod(ArbMethod(code).value) == Some(code))
            <==> Separated(Name(code)) && Name(code) != "" && Name(code)[0] != '_'
  {
    var f, name := FamilyOf(code), Name(code);
    var camel := Camel(name);
    CodeIs(code);
    CamelHead(name);
    CamelBack(name);
    if camel != "" {
      var shown := [UpperChar(camel[0])] + camel[1..];
      FamilyReadMethod(f, shown);
      var back := [LowerChar(shown[0])] + shown[1..];
      assert DecodeMethod(ArbPrefix(f) + shown) == Some(Wire(f) + Uncamel(back));
      Cancel(Wire(f), Uncamel(back), name);
      if name[0] != '_' {
        assert back == camel;
      } else {
        assert back[0] == LowerChar(UpperChar(camel[0]));
        assert Uncamel(back)[0] != '_';
      }
    } else {
      assert name == "" || name[0] == '_';
    }
  }

  /** Two different codes with letters after their underscores never share a web key, and never an ARB
      method if their names also start with a letter or digit. */
  lemma KeysDistinct(a: string, b: string)
    requires Snake(Name(a)) && Separated(Name(a)) && Snake(Name(b)) && Separated(Name(b)) && a != b
    ensures MessageKey(a) != MessageKey(b)
    ensures Name(a) != "" && Name(b) != "" && Name(a)[0] != '_' && Name(b)[0] != '_' ==>
              ArbMethod(a) != ArbMethod(b)
  {
    KeyRecovered(a);
    KeyRecovered(b);
    MethodRecovered(a);
    MethodRecovered(b);
  }

  // ----- which codes share a key -----

  /** Camel case: letters of either case, and digits. */
  predicate Humped(s: string) {
    forall i :: 0 <= i < |s| ==> Letter(s[i]) || 'A' <= s[i] <= 'Z' || '0' <= s[i] <= '9'
  }

  lemma {:induction false} HumpsHumped(parts: seq<string>)
    requires AllPlain(parts)
    ensures Humped(Humps(parts))
  {
    if parts != [] {
      HumpsHumped(parts[1..]);
      if parts[0] != "" { CapitalizePlain(parts[0]); }
    }
  }

  lemma CamelHumped(name: string)
    requires Snake(name)
    ensures Humped(Camel(name))
  {
    SnakeParts(name);
    HumpsHumped(Split(name, '_')[1..]);
  }

  lemma {:induction false} UncamelSnake(s: string)
    requires Humped(s)
    ensures Snake(Uncamel(s)) && Separated(Uncamel(s))
  {
    if s != "" {
      UncamelSnake(s[1..]);
    }
  }

  lemma {:induction false} UncamelInjective(s: string, t: string)
    requires Humped(s) && Humped(t) && Uncamel(s) == Uncamel(t)
    ensures s == t
  {
    if s != "" && t != "" {
      var a, b := Uncamel(s), Uncamel(t);
      assert ('A' <= s[0] <= 'Z') == (a[0] == '_') && ('A' <= t[0] <= 'Z') == (b[0] == '_');
      var n := if 'A' <= s[0] <= 'Z' then 2 else 1;
      assert a[n - 1] == LowerChar(s[0]) && b[n - 1] == LowerChar(t[0]);
      assert a[n..] == Uncamel(s[1..]) && b[n..] == Uncamel(t[1..]);
      UncamelInjective(s[1..], t[1..]);
      assert s == [s[0]] + s[1..] && t == [t[0]] + t[1..];
    }
  }

  /** Every name's camel case is that of one separated name. */
  lemma CamelClass(name: string)
    requires Snake(name)
    ensures var c := Uncamel(Camel(name)); Snake(c) && Separated(c) && Camel(c) == Camel(name)
  {
    var s := Camel(name);
    CamelHumped(name);
    UncamelSnake(s);
    CamelBack(Uncamel(s));
    CamelHumped(Uncamel(s));
    UncamelInjective(Camel(Uncamel(s)), s);
  }

  /** A snake-case name put in a family stays in it. */
  lemma FamilyStays(f: Family, name: string)
    requires Snake(name)
    ensures FamilyOf(Wire(f) + name) == f && Name(Wire(f) + name) == name
  {
    var code := Wire(f) + name;
    assert f != Warning ==> code[0] == Wire(f)[0];
    assert f == Warning ==> code == name;
    assert Wire(PoMatchIssue)[8] == '.' && Wire(ExceptionOnly)[9] == '.';
    NoPrefix(Wire(PoMatchIssue), 8, name);
    NoPrefix(Wire(ExceptionOnly), 9, name);
  }

  lemma NoPrefix(w: string, k: nat, name: string)
    requires k < |w| && forall i :: 0 <= i < |name| ==> name[i] != w[k]
    ensures !(w <= name)
  {
    PrefixAgrees(w, k, name);
  }

  lemma PrefixAgrees(w: string, k: nat, name: string)
    requires k < |w|
    ensures w <= name ==> k < |name| && name[k] == w[k]
  {
  }

  /** Every key is the key of exactly one code whose underscores are all followed by letters, the one it
      decodes to: so any other code with that key collides with it, on the ARB method too. */
  lemma KeyClass(code: string)
    requires Snake(Name(code))
    ensures var d := DecodeKey(MessageKey(code));
            && d.Some? && FamilyOf(d.value) == FamilyOf(code)
            && Snake(Name(d.value)) && Separated(Name(d.value))
            && MessageKey(d.value) == MessageKey(code) && ArbMethod(d.value) == ArbMethod(code)
            && (d.value != code <==> !Separated(Name(code)))
            && forall other :: Snake(Name(other)) && Separated(Name(other)) && MessageKey(other) == MessageKey(code) ==>
                 other == d.value
  {
    var f, name := FamilyOf(code), Name(code);
    var c := Uncamel(Camel(name));
    FamilyRead(f, Camel(name));
    CamelClass(name);
    FamilyStays(f, c);
    assert DecodeKey(MessageKey(code)) == Some(Wire(f) + c);
    KeyRecovered(code);
    hide Camel, Uncamel, Snake, Separated, Name, DecodeKey, FamilyOf, Wire;
    forall other | Snake(Name(other)) && Separated(Name(other)) && MessageKey(other) == MessageKey(code)
      ensures other == Wire(f) + c
    {
      KeyRecovered(other);
    }
  }

  lemma {:induction false} UncamelHead(s: string)
    requires Humped(s) && s != "" && !('A' <= s[0] <= 'Z')
    ensures Uncamel(s) != "" && Uncamel(s)[0] == s[0]
  {
  }

  lemma CamelEmpty()
    ensures Camel("") == ""
  {
  }

  /** The same for ARB methods, where the one code also starts its name with a letter or digit. */
  lemma MethodClass(code: string)
    requires Snake(Name(code)) && ArbMethod(code).Some?
    ensures var d := DecodeMethod(ArbMethod(code).value);
            && d.Some? && FamilyOf(d.value) == FamilyOf(code)
            && Snake(Name(d.value)) && Separated(Name(d.value)) && Name(d.value) != "" && Name(d.value)[0] != '_'
            && ArbMethod(d.value) == ArbMethod(code)
            && (d.value != code <==> !(Separated(Name(code)) && Name(code)[0] != '_'))
            && (forall other ::
                  (Snake(Name(other)) && Separated(Name(other)) && Name(other) != "" && Name(other)[0] != '_'
                   && ArbMethod(other) == ArbMethod(code)) ==>
                    other == d.value)
  {
    var f, camel := FamilyOf(code), Camel(Name(code));
    var shown := [UpperChar(camel[0])] + camel[1..];
    var back := [LowerChar(shown[0])] + shown[1..];
    CamelHumped(Name(code));
    CamelEmpty();
    FamilyReadMethod(f, shown);
    BackHumped(camel);
    var c := Uncamel(back);
    UncamelSnake(back);
    UncamelHead(back);
    CamelBack(c);
    CamelHumped(c);
    UncamelInjective(Camel(c), back);
    FamilyStays(f, c);
    assert DecodeMethod(ArbMethod(code).value) == Some(Wire(f) + c);
    MethodRecovered(code);
    assert [UpperChar(back[0])] + back[1..] == shown;
    hide Uncamel, Snake, Separated, DecodeMethod, FamilyOf, Wire;
    forall other | Snake(Name(other)) && Separated(Name(other)) && Name(other) != "" && Name(other)[0] != '_'
                   && ArbMethod(other) == ArbMethod(code)
      ensures other == Wire(f) + c
    {
      MethodRecovered(other);
    }
  }

  lemma BackHumped(camel: string)
    requires Humped(camel) && camel != ""
    ensures var back := [LowerChar(UpperChar(camel[0]))] + camel[1..];
            Humped(back) && !('A' <= back[0] <= 'Z') && UpperChar(back[0]) == UpperChar(camel[0])
  {
  }

  /** An instance: a digit after an underscore loses it, and two codes meet in one key. */
  lemma DigitsCollide()
    ensures "a_2x" != "a2x" && MessageKey("a_2x") == MessageKey("a2x") && ArbMethod("a_2x") == ArbMethod("a2x")
  {
    CamelDigits();
    hide Camel;
    assert FamilyOf("a_2x") == Warning && FamilyOf("a2x") == Warning;
  }

  lemma CamelDigits()
    ensures Camel("a_2x") == Camel("a2x")
  {
    SplitWord("a", '_', "2x");
    SplitWord("2x", '_', "");
    SplitWord("a2x", '_', "");
    assert "a" + ['_'] + "2x" == "a_2x";
    UncamelPlain("x");
    hide Split, Lower;
    assert Capitalize("2x") == ['2'] + "x";
    assert ["a", "2x"][1..] == ["2x"] && ["a2x"][1..] == [];
    assert ["2x"][1..] == [];
    assert Humps(["2x"]) == Capitalize("2x") + Humps([]);
  }

  /** Two codes agree on their web key exactly when they agree on their ARB method, names starting with a
      letter or digit. */
  lemma KeyAndMethodAgree(a: string, b: string)
    requires Snake(Name(a)) && Name(a) != "" && Name(a)[0] != '_'
    requires Snake(Name(b)) && Name(b) != "" && Name(b)[0] != '_'
    ensures MessageKey(a) == MessageKey(b) <==> ArbMethod(a) == ArbMethod(b)
  {
    var f, g := FamilyOf(a), FamilyOf(b);
    var c, d := Camel(Name(a)), Camel(Name(b));
    CamelHead(Name(a));
    CamelHead(Name(b));
    FamilyRead(f, c);
    FamilyRead(g, d);
    hide Camel, Name, FamilyOf, Snake, KeyPrefix, ArbPrefix, FamilyOfKey, FamilyOfMethod;
    var u, v := Raised(c), Raised(d);
    FamilyReadMethod(f, u);
    FamilyReadMethod(g, v);
    RaisedBack(c);
    RaisedBack(d);
    assert ArbMethod(a) == Some(ArbPrefix(f) + u) && ArbMethod(b) == Some(ArbPrefix(g) + v);
    hide Raised;
  }

  function Raised(s: string): string
    requires s != ""
  {
    [UpperChar(s[0])] + s[1..]
  }

  lemma RaisedBack(s: string)
    requires s != "" && (Letter(s[0]) || '0' <= s[0] <= '9')
    ensures var r := Raised(s); r != "" && s == [LowerChar(r[0])] + r[1..]
  {
    UpperBack(s[0]);
    assert s == [s[0]] + s[1..];
  }

  // ----- the documented spellings -----

  lemma CamelTwo(a: string, b: string)
    requires Plain(a) && Plain(b) && b != ""
    ensures Camel(a + "_" + b) == a + ([UpperChar(b[0])] + b[1..])
  {
    SplitWord(a, '_', b);
    SplitWord(b, '_', "");
    CapitalizePlain(b);
    assert a + ['_'] + b == a + "_" + b;
    hide Split, Capitalize;
    assert [a, b][1..] == [b] && [b][1..] == [];
    assert Humps([b]) == Capitalize(b) + Humps([]);
  }

  /** What a two-word name spells in each family. */
  lemma SpelledTwo(f: Family, a: string, b: string, c: char)
    requires Plain(a) && a != "" && Letter(a[0]) && Plain(b) && b != "" && c == UpperChar(b[0])
    ensures MessageKey(Wire(f) + (a + "_" + b)) == KeyPrefix(f) + (a + ([c] + b[1..]))
    ensures ArbMethod(Wire(f) + (a + "_" + b))
            == Some(ArbPrefix(f) + ([UpperChar(a[0])] + a[1..] + ([c] + b[1..])))
  {
    CamelTwo(a, b);
    FamilyStays(f, a + "_" + b);
    hide Camel, FamilyOf, Name, Wire, KeyPrefix, ArbPrefix;
    var camel := a + ([c] + b[1..]);
    assert camel[0] == a[0] && camel[1..] == a[1..] + ([c] + b[1..]);
    assert [UpperChar(a[0])] + (a[1..] + ([c] + b[1..])) == [UpperChar(a[0])] + a[1..] + ([c] + b[1..]);
  }

  /** The documented spellings, for every name of two words and each family: `round_amount` gives
      `invoices.warning.roundAmount` and `invoiceWarningRoundAmount`. */
  lemma DocumentedSpellings(a: string, b: string)
    requires Plain(a) && a != "" && Letter(a[0]) && Plain(b) && b != ""
    ensures var name, camel := a + "_" + b, a + ([UpperChar(b[0])] + b[1..]);
            var raised := [UpperChar(a[0])] + a[1..] + ([UpperChar(b[0])] + b[1..]);
            && MessageKey(name) == "invoices.warning." + camel
            && ArbMethod(name) == Some("invoiceWarning" + raised)
            && MessageKey("po_match.issue." + name) == "invoices.poMatch.issue." + camel
            && ArbMethod("po_match.issue." + name) == Some("invoicePoMatchIssue" + raised)
            && MessageKey("exception." + name) == "exceptions.description." + camel
            && ArbMethod("exception." + name) == Some("exceptionDescription" + raised)
  {
    var c := UpperChar(b[0]);
    SpelledTwo(Warning, a, b, c);
    SpelledTwo(PoMatchIssue, a, b, c);
    SpelledTwo(ExceptionOnly, a, b, c);
    var name := a + "_" + b;
    assert "" + name == name;
    hide MessageKey, ArbMethod, UpperChar;
  }
}
