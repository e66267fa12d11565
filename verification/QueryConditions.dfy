/** What a written condition asks for, whatever the case of the statement's keywords, and which rows it
    answers. */
module QueryConditions {
  import opened Digits
  import opened Text
  import opened QueryScan
  import opened Query
  import opened Wrappers

  // ----- keywords in any case -----

  predicate Spells(w: string, keyword: string) {
    Lower(w) == keyword
  }

  predicate Letters(s: string) {
    forall i :: 0 <= i < |s| ==> 'a' <= s[i] <= 'z'
  }

  /** A keyword in any case is a word of letters. */
  lemma SpelledWord(w: string, keyword: string)
    requires Spells(w, keyword) && keyword != "" && Letters(keyword)
    ensures |w| == |keyword| && Word(w) && EndMode(w, Plain).Plain? && ' ' !in w && Solidly(w)
  {
    assert |Lower(w)| == |w|;
    forall i | 0 <= i < |w| ensures 'A' <= w[i] <= 'Z' || 'a' <= w[i] <= 'z' {
      assert Lower(w)[i] == LowerChar(w[i]) == keyword[i];
    }
    assert forall c :: c in w ==> 'A' <= c <= 'Z' || 'a' <= c <= 'z';
    LettersAreWord(w);
  }

  /** Neither end is a blank. */
  predicate Solidly(s: string) {
    s != "" && !IsSpace(s[0]) && !IsSpace(s[|s| - 1])
  }

  lemma AfterSpelled(w: string, keyword: string, tail: string)
    requires Lower(w) == Lower(keyword)
    ensures After(w + tail, keyword) == Some(Strip(tail))
  {
    assert |Lower(w)| == |w| && |Lower(keyword)| == |keyword|;
    hide Strip, Lower;
    assert (w + tail)[..|keyword|] == w && (w + tail)[|keyword|..] == tail;
  }

  /** A condition is read past its keyword to its rest. */
  lemma KeywordThen(w: string, keyword: string, rest: string)
    requires Lower(w) == Lower(keyword) && Solidly(rest)
    ensures After(w + (" " + rest), keyword) == Some(rest)
  {
    AfterSpelled(w, keyword, " " + rest);
    StripSolid(rest);
  }

  // ----- words -----

  predicate EntityWord(entity: string) {
    && entity != "" && RoleOf(entity) == Ordinary
    && forall c :: c in entity ==> !IsSpace(c) && c != '\''
  }

  lemma {:induction false} EntityIsWord(s: string)
    requires forall c :: c in s ==> !IsSpace(c) && c != '\''
    ensures InWord(s, Plain) && EndMode(s, Plain) == Plain && ' ' !in s
  {
    if s != "" {
      assert s[0] in s && forall c :: c in s[1..] ==> c in s;
      EntityIsWord(s[1..]);
      assert s == [s[0]] + s[1..];
    }
  }

  /** A word's length and first letter tell it from the keywords. */
  lemma LowerHead(w: string)
    requires w != ""
    ensures |Lower(w)| == |w| && Lower(w)[0] == LowerChar(w[0])
    ensures |w| != 5 && |w| != 3 && |w| != 13 && |w| != 10 ==> RoleOf(w) == Ordinary
  {
    assert |"where"| == 5 && |"and"| == 3 && |"startposition"| == 13 && |"maxresults"| == 10;
  }

  lemma QuoteRole(v: string)
    ensures RoleOf(QuoteLiteral(v)) == Ordinary
  {
    var q := QuoteLiteral(v);
    LowerHead(q);
    assert q[0] == '\'' && Lower(q)[0] == '\'';
    assert "where"[0] == 'w' && "and"[0] == 'a' && "startposition"[0] == 's' && "maxresults"[0] == 'm';
  }

  lemma NoTerm(clause: string)
    requires |Split(clause, ' ')| > 2
    ensures ReadPageTerm(clause).None?
  {
  }

  lemma FirstPart(w: string, rest: string)
    requires ' ' !in w
    ensures |Split(w + (" " + rest), ' ')| == 1 + |Split(rest, ' ')| >= 2
  {
    SplitWord(w, ' ', rest);
    Assoc(w, " ", rest);
    hide Split;
  }

  /** Words a clause can be written with. */
  ghost predicate Plainly(words: seq<string>) {
    words != [] && forall i :: 0 <= i < |words| ==>
      Word(words[i]) && EndMode(words[i], Plain).Plain? && RoleOf(words[i]) == Ordinary
  }

  // ----- Active conditions -----

  function BoolText(b: bool): string {
    if b then "true" else "false"
  }

  function BoolTexts(values: seq<bool>): seq<string> {
    seq(|values|, i requires 0 <= i < |values| => BoolText(values[i]))
  }

  /** `(true,false)`, as a client writes a list. */
  function ListText(values: seq<bool>): string {
    "(" + Join(BoolTexts(values), ",") + ")"
  }

  predicate ListChar(c: char) {
    'a' <= c <= 'z' || c == ','
  }

  lemma {:induction false} TextsChars(parts: seq<string>)
    requires forall w :: w in parts ==> forall c :: c in w ==> 'a' <= c <= 'z'
    ensures forall c :: c in Join(parts, ",") ==> ListChar(c)
  {
    if parts != [] {
      assert parts[0] in parts;
    }
    if |parts| > 1 {
      assert forall w :: w in parts[1..] ==> w in parts;
      TextsChars(parts[1..]);
    }
  }

  lemma BoolTextLetters(b: bool)
    ensures forall c :: c in BoolText(b) ==> 'a' <= c <= 'z'
    ensures Lower(BoolText(b)) == BoolText(b) && Solidly(BoolText(b)) && Strip(BoolText(b)) == BoolText(b)
    ensures BoolText(b) == "true" <==> b
  {
    assert "true"[0] != "false"[0];
    StripSolid(BoolText(b));
  }

  lemma ListIsWord(values: seq<bool>)
    requires values != []
    ensures var l := ListText(values);
            && Word(l) && EndMode(l, Plain).Plain? && Solidly(l) && ' ' !in l && RoleOf(l) == Ordinary
            && |l| >= 2 && l[0] == '(' && l[|l| - 1] == ')' && ')' !in l[1..|l| - 1]
            && l[1..|l| - 1] == Join(BoolTexts(values), ",")
  {
    var inner, l := Join(BoolTexts(values), ","), ListText(values);
    forall w | w in BoolTexts(values) ensures forall c :: c in w ==> 'a' <= c <= 'z' {
      var i :| 0 <= i < |values| && BoolTexts(values)[i] == w;
      BoolTextLetters(values[i]);
    }
    TextsChars(BoolTexts(values));
    hide Join, BoolTexts;
    assert l[1..|l| - 1] == inner;
    assert forall c :: c in l ==> ListChar(c) || c == '(' || c == ')';
    EntityIsWord(l);
    assert Lower(l)[0] == '(';
    assert "where"[0] == 'w' && "and"[0] == 'a' && "startposition"[0] == 's' && "maxresults"[0] == 'm';
  }

  lemma {:induction false} BoolWordsBack(values: seq<bool>)
    ensures BoolWords(BoolTexts(values)) == BoolTexts(values)
  {
    if values != [] {
      BoolWordsBack(values[1..]);
      BoolTextLetters(values[0]);
      hide Strip, Lower;
      assert BoolTexts(values)[1..] == BoolTexts(values[1..]);
      assert BoolTexts(values) == [BoolText(values[0])] + BoolTexts(values[1..]);
    } else {
      assert BoolTexts(values) == [];
    }
  }

  function SetOf(values: seq<bool>): set<bool> {
    set b | b in values
  }

  lemma TextsAre(values: seq<bool>)
    ensures var texts := BoolTexts(values);
            && (forall i :: 0 <= i < |texts| ==> ',' !in texts[i])
            && (forall t :: t in texts ==> t == "true" || t == "false")
            && ("true" in texts <==> true in values) && ("false" in texts <==> false in values)
  {
    var texts := BoolTexts(values);
    forall i | 0 <= i < |texts| ensures ',' !in texts[i] && (texts[i] == "true" <==> values[i]) {
      BoolTextLetters(values[i]);
    }
    forall b ensures BoolText(b) in texts <==> b in values {
      if b in values {
        var i :| 0 <= i < |values| && values[i] == b;
        assert texts[i] == BoolText(b);
      }
      if BoolText(b) in texts {
        var i :| 0 <= i < |texts| && texts[i] == BoolText(b);
        BoolTextLetters(b);
        assert values[i] == b;
      }
    }
    assert BoolText(true) == "true" && BoolText(false) == "false";
  }

  lemma TrueSet(texts: seq<string>, values: seq<bool>)
    requires forall t :: t in texts ==> t == "true" || t == "false"
    requires ("true" in texts <==> true in values) && ("false" in texts <==> false in values)
    ensures (set v | v in texts :: v == "true") == SetOf(values)
  {
    var got := set v | v in texts :: v == "true";
    assert "true"[0] != "false"[0];
    if "true" in texts { var v := "true"; assert (v == "true") in got; }
    if "false" in texts { var v := "false"; assert (v == "true") in got; }
    forall b ensures b in got <==> b in SetOf(values) {
      if v :| v in texts && (v == "true") == b {}
    }
  }

  lemma ListReads(values: seq<bool>)
    requires values != []
    ensures BoolList(Join(BoolTexts(values), ",")) == Some(SetOf(values))
  {
    var texts := BoolTexts(values);
    TextsAre(values);
    SplitOfJoin(texts, ',');
    BoolWordsBack(values);
    TrueSet(texts, values);
    assert |texts| == |values|;
    hide Split, Join, BoolWords, BoolTexts, SetOf;
  }

  lemma ThreeText(a: string, b: string, c: string)
    ensures Join([a, b, c], " ") == a + (" " + (b + (" " + c)))
  {
    JoinFirst([a, b, c], " ", "");
    JoinFirst([b, c], " ", "");
    assert [a, b, c][1..] == [b, c] && [b, c][1..] == [c];
    hide Join;
    JoinFirst([c], " ", "");
    assert forall x: string :: x + "" == x;
  }

  lemma ThreeSplit(a: string, b: string, c: string)
    requires ' ' !in a && ' ' !in b
    ensures ReadPageTerm(a + (" " + (b + (" " + c)))).None?
  {
    FirstPart(b, c);
    FirstPart(a, b + (" " + c));
    hide Split;
    NoTerm(a + (" " + (b + (" " + c))));
  }

  lemma JoinSolid(a: string, b: string)
    requires Solidly(a) && Solidly(b)
    ensures Solidly(a + (" " + b))
  {
    var j := a + (" " + b);
    assert j[0] == a[0] && j[|j| - 1] == b[|b| - 1];
  }

  lemma ReadIn(clause: string, rest: string, l: string, values: set<bool>)
    requires After(clause, "Active") == Some(rest) && After(rest, "IN") == Some(l)
    requires |l| >= 2 && l[0] == '(' && l[|l| - 1] == ')' && ')' !in l[1..|l| - 1]
    requires BoolList(l[1..|l| - 1]) == Some(values)
    ensures ReadCondition(clause) == Some(Active(values))
  {
    hide After, BoolList;
  }

  lemma ReadIs(clause: string, rest: string, word: string, b: bool)
    requires After(clause, "Active") == Some(rest) && After(rest, "IN").None? && After(rest, "=") == Some(word)
    requires Spells(word, BoolText(b))
    ensures ReadCondition(clause) == Some(Active({b}))
  {
    BoolTextLetters(b);
    hide After, Lower, Strip;
  }

  lemma InReads(active: string, inWord: string, values: seq<bool>)
    requires Spells(active, "active") && Spells(inWord, "in") && values != []
    ensures ReadCondition(Join([active, inWord, ListText(values)], " ")) == Some(Active(SetOf(values)))
    ensures ReadPageTerm(Join([active, inWord, ListText(values)], " ")).None?
  {
    var l := ListText(values);
    assert Lower("Active") == "active" && Lower("IN") == "in";
    SpelledWord(active, "active");
    SpelledWord(inWord, "in");
    ListIsWord(values);
    ListReads(values);
    ThreeText(active, inWord, l);
    ThreeSplit(active, inWord, l);
    hide ListText, Join, After, BoolList, RoleOf, InWord, EndMode, Lower, BoolTexts, ReadPageTerm, ReadCondition, Word;
    JoinSolid(inWord, l);
    KeywordThen(active, "Active", inWord + (" " + l));
    KeywordThen(inWord, "IN", l);
    ReadIn(active + (" " + (inWord + (" " + l))), inWord + (" " + l), l, SetOf(values));
  }

  lemma IsReads(active: string, word: string, b: bool)
    requires Spells(active, "active") && Spells(word, BoolText(b))
    ensures ReadCondition(Join([active, "=", word], " ")) == Some(Active({b}))
    ensures ReadPageTerm(Join([active, "=", word], " ")).None?
  {
    assert Lower("Active") == "active";
    SpelledWord(active, "active");
    BoolTextLetters(b);
    SpelledWord(word, BoolText(b));
    ThreeText(active, "=", word);
    ThreeSplit(active, "=", word);
    NotIn(" " + word);
    JoinSolid("=", word);
    hide Join, After, RoleOf, InWord, EndMode, Lower, Strip, ReadPageTerm, ReadCondition, BoolText, Word;
    KeywordThen(active, "Active", "=" + (" " + word));
    KeywordThen("=", "=", word);
    ReadIs(active + (" " + ("=" + (" " + word))), "=" + (" " + word), word, b);
  }

  lemma NotIn(tail: string)
    ensures After("=" + tail, "IN").None?
  {
    hide Strip;
    if |"=" + tail| >= 2 {
      var head := ("=" + tail)[..2];
      assert Lower(head)[0] == '=' && Lower("IN")[0] == 'i';
    }
  }

  // ----- DocNumber conditions -----

  lemma NotActive(doc: string, tail: string)
    requires Spells(doc, "docnumber")
    ensures After(doc + tail, "Active").None?
  {
    hide Strip;
    assert |Lower(doc)| == |doc|;
    var head := (doc + tail)[..6];
    assert Lower(head)[0] == Lower(doc)[0] == 'd' && Lower("Active")[0] == 'a';
  }

  lemma ReadDoc(clause: string, rest: string, lit: string, v: string)
    requires After(clause, "Active").None? && After(clause, "DocNumber") == Some(rest)
    requires After(rest, "=") == Some(lit) && Literal(lit) == Some(v)
    ensures ReadCondition(clause) == Some(DocNumber(v))
  {
    hide After, Literal;
  }

  lemma QuotedEnds(v: string)
    ensures Solidly(QuoteLiteral(v))
  {
    var q := QuoteLiteral(v);
    assert q[0] == '\'' && q[|q| - 1] == '\'';
  }

  lemma DocReads(doc: string, v: string)
    requires Spells(doc, "docnumber")
    ensures ReadCondition(Join([doc, "=", QuoteLiteral(v)], " ")) == Some(DocNumber(v))
    ensures ReadPageTerm(Join([doc, "=", QuoteLiteral(v)], " ")).None?
  {
    var lit := QuoteLiteral(v);
    assert Lower("DocNumber") == "docnumber";
    SpelledWord(doc, "docnumber");
    QuotedIsWord(v);
    QuotedEnds(v);
    ThreeText(doc, "=", lit);
    ThreeSplit(doc, "=", lit);
    JoinSolid("=", lit);
    NotActive(doc, " " + ("=" + (" " + lit)));
    hide Join, After, RoleOf, InWord, EndMode, Lower, Strip, ReadPageTerm, ReadCondition, QuoteLiteral, Literal, Word;
    KeywordThen(doc, "DocNumber", "=" + (" " + lit));
    KeywordThen("=", "=", lit);
    ReadDoc(doc + (" " + ("=" + (" " + lit))), "=" + (" " + lit), lit, v);
  }

  // ----- a written statement -----

  /** A condition as a client writes it, its keywords in any case. */
  datatype Written =
    | In(active: string, inWord: string, values: seq<bool>)
    | Is(active: string, word: string, flag: bool)
    | Doc(doc: string, value: string)

  predicate WellWritten(w: Written) {
    match w
    case In(active, inWord, values) => Spells(active, "active") && Spells(inWord, "in") && values != []
    case Is(active, word, flag) => Spells(active, "active") && Spells(word, BoolText(flag))
    case Doc(doc, _) => Spells(doc, "docnumber")
  }

  function WordsOf(w: Written): seq<string> {
    match w
    case In(active, inWord, values) => [active, inWord, ListText(values)]
    case Is(active, word, _) => [active, "=", word]
    case Doc(doc, value) => [doc, "=", QuoteLiteral(value)]
  }

  function Asked(w: Written): Condition {
    match w
    case In(_, _, values) => Active(SetOf(values))
    case Is(_, _, flag) => Active({flag})
    case Doc(_, value) => DocNumber(value)
  }

  lemma WrittenReads(w: Written)
    requires WellWritten(w)
    ensures ReadCondition(Join(WordsOf(w), " ")) == Some(Asked(w)) && ReadPageTerm(Join(WordsOf(w), " ")).None?
  {
    hide ReadCondition, ReadPageTerm, Join, Spells, ListText, QuoteLiteral;
    match w
    case In(active, inWord, values) => InReads(active, inWord, values);
    case Is(active, word, flag) => IsReads(active, word, flag);
    case Doc(doc, value) => DocReads(doc, value);
  }

  lemma SpelledOrdinary(w: string, keyword: string)
    requires Spells(w, keyword) && keyword != "" && Letters(keyword)
    requires keyword != "where" && keyword != "and" && keyword != "startposition" && keyword != "maxresults"
    ensures Word(w) && EndMode(w, Plain).Plain? && RoleOf(w) == Ordinary
  {
    SpelledWord(w, keyword);
    hide Word, EndMode;
  }

  lemma SignIsWord()
    ensures Word("=") && EndMode("=", Plain).Plain? && RoleOf("=") == Ordinary
    ensures Word("*") && EndMode("*", Plain).Plain? && RoleOf("*") == Ordinary
  {
    LettersAreWord("=");
    LettersAreWord("*");
    LowerHead("=");
    LowerHead("*");
  }

  lemma WrittenPlainly(w: Written)
    requires WellWritten(w)
    ensures Plainly(WordsOf(w))
  {
    SignIsWord();
    KeywordsDiffer();
    match w
    case In(active, inWord, values) =>
      SpelledOrdinary(active, "active");
      SpelledOrdinary(inWord, "in");
      ListIsWord(values);
      hide ListText, RoleOf, EndMode, Word;
    case Is(active, word, flag) =>
      SpelledOrdinary(active, "active");
      SpelledOrdinary(word, BoolText(flag));
      hide RoleOf, EndMode, Word;
    case Doc(doc, value) =>
      SpelledOrdinary(doc, "docnumber");
      QuotedIsWord(value);
      QuoteRole(value);
      hide QuoteLiteral, RoleOf, EndMode, Word;
  }

  lemma KeywordsDiffer()
    ensures forall b :: BoolText(b) !in {"where", "and", "startposition", "maxresults"}
    ensures "active" !in {"where", "and", "startposition", "maxresults"}
    ensures "in" !in {"where", "and", "startposition", "maxresults"}
    ensures "docnumber" !in {"where", "and", "startposition", "maxresults"}
    ensures "select" !in {"where", "and", "startposition", "maxresults"}
    ensures "from" !in {"where", "and", "startposition", "maxresults"}
  {
    assert "where"[0] == 'w' && |"and"| == 3 && |"startposition"| == 13 && "maxresults"[0] == 'm';
  }

  /** A condition and the keyword before it. */
  datatype Linked = Linked(link: string, condition: Written)

  /** `where` before the first condition and `and` before every other, in any case. */
  predicate WellLinked(cs: seq<Linked>) {
    forall i :: 0 <= i < |cs| ==> Spells(cs[i].link, if i == 0 then "where" else "and") && WellWritten(cs[i].condition)
  }

  function FilterWords(cs: seq<Linked>): seq<string> {
    if cs == [] then [] else ([cs[0].link] + WordsOf(cs[0].condition)) + FilterWords(cs[1..])
  }

  function AskedOf(cs: seq<Linked>): seq<Condition> {
    seq(|cs|, i requires 0 <= i < |cs| => Asked(cs[i].condition))
  }

  function Opening(select: string, from: string, entity: string): seq<string> {
    [select, "*", from, entity]
  }

  /** `select * from E where C1 and C2 ...`. */
  function Statement(select: string, from: string, entity: string, cs: seq<Linked>): string {
    Join(Opening(select, from, entity) + FilterWords(cs), " ")
  }

  lemma OpeningPlainly(select: string, from: string, entity: string)
    requires Spells(select, "select") && Spells(from, "from") && EntityWord(entity)
    ensures Plainly(Opening(select, from, entity))
  {
    SignIsWord();
    KeywordsDiffer();
    SpelledOrdinary(select, "select");
    SpelledOrdinary(from, "from");
    EntityIsWord(entity);
    hide RoleOf, InWord, EndMode;
  }

  lemma EntityReads(select: string, from: string, entity: string)
    requires Spells(select, "select") && Spells(from, "from") && EntityWord(entity)
    ensures ReadEntity(Join(Opening(select, from, entity), " ")) == Some(entity)
  {
    var ws := Opening(select, from, entity);
    EntityIsWord(entity);
    SpelledWord(select, "select");
    SpelledWord(from, "from");
    assert forall w :: w in ws ==> ' ' !in w;
    SplitOfJoin(ws, ' ');
    hide Split, Join, Word, EndMode, Lower;
  }

  /** A link that is linked: `where` or `and`, before a condition that can be written so. */
  ghost predicate Linkable(c: Linked) {
    (Spells(c.link, "where") || Spells(c.link, "and")) && WellWritten(c.condition)
  }

  lemma {:induction false} FilterSentence(cs: seq<Linked>)
    requires forall i :: 0 <= i < |cs| ==> Linkable(cs[i])
    ensures forall i :: 0 <= i < |FilterWords(cs)| ==>
              Word(FilterWords(cs)[i]) && EndMode(FilterWords(cs)[i], Plain).Plain?
  {
    if cs != [] {
      var link := cs[0].link;
      SpelledWord(link, if Spells(link, "where") then "where" else "and");
      WrittenPlainly(cs[0].condition);
      FilterSentence(cs[1..]);
      hide Spells, WellWritten, WordsOf, Word, EndMode, RoleOf;
    }
  }

  lemma AllWords(opening: seq<string>, cs: seq<Linked>)
    requires Plainly(opening) && forall i :: 0 <= i < |cs| ==> Linkable(cs[i])
    ensures var all := opening + FilterWords(cs);
            Words(Join(all, " ")) == all && EndMode(Join(all, " "), Plain).Plain?
  {
    var all := opening + FilterWords(cs);
    FilterSentence(cs);
    hide RoleOf, EndMode, Join, Word, Words, FilterWords, Linkable;
    forall i | 0 <= i < |all| ensures Word(all[i]) && EndMode(all[i], Plain).Plain? {
      if i >= |opening| { assert all[i] == FilterWords(cs)[i - |opening|]; }
    }
    SentenceOf(all);
    SpaceFirst("");
    WordsOfSentence(all, "");
    assert Join(all, " ") + "" == Join(all, " ") && all + [] == all;
    JoinEndsPlain(all);
  }

  lemma {:induction false} JoinEndsPlain(ws: seq<string>)
    requires forall i :: 0 <= i < |ws| ==> EndMode(ws[i], Plain).Plain?
    ensures EndMode(Join(ws, " "), Plain).Plain?
  {
    if |ws| > 1 {
      JoinEndsPlain(ws[1..]);
      hide Join;
      JoinFirst(ws, " ", "");
      assert forall x: string :: x + "" == x;
      var tail := " " + Join(ws[1..], " ");
      assert tail[1..] == Join(ws[1..], " ");
      InWordAppend(ws[0], tail, Plain);
    }
  }

  /** The clauses from the first condition on. */
  function FirstClauses(cs: seq<Linked>): seq<string>
    requires cs != []
  {
    [Join(WordsOf(cs[0].condition), " ")] + if |cs| == 1 then [] else Group(FilterWords(cs[1..]), [])
  }

  /** A keyword and ordinary words, up to the next keyword. */
  lemma LinkClauses(all: seq<string>, link: string, words: seq<string>, more: seq<string>)
    requires all == [link] + words + more && words != [] && forall w :: w in words ==> RoleOf(w) == Ordinary
    requires RoleOf(link) in {Where, And} && (more != [] ==> RoleOf(more[0]) in {Where, And})
    ensures Group(all, [])
            == (if RoleOf(link) == Where then ["where"] else [])
               + ([Join(words, " ")] + if more == [] then [] else Group(more, []))
  {
    hide RoleOf, Join, Group;
    assert all[0] == link && all[1..] == words + more;
    GroupStep(all, []);
    GroupPlain(words, []);
    assert [] + words == words;
    if more != [] {
      GroupAppend(words, [], more);
    } else {
      assert words + more == words;
    }
  }

  /** The clauses of the filter: `where` first, then one clause a condition. */
  lemma FilterClauses(cs: seq<Linked>)
    requires cs != [] && forall i :: 0 <= i < |cs| ==> Linkable(cs[i])
    ensures Group(FilterWords(cs), [])
            == (if Spells(cs[0].link, "where") then ["where"] else []) + FirstClauses(cs)
  {
    var words, more, link := WordsOf(cs[0].condition), FilterWords(cs[1..]), cs[0].link;
    WrittenPlainly(cs[0].condition);
    LinkRole(link);
    if |cs| > 1 { LinkRole(cs[1].link); }
    assert |cs| > 1 ==> more != [] && more[0] == cs[1].link;
    assert |cs| == 1 ==> more == [];
    hide Spells, WellWritten, WordsOf, Word, EndMode, RoleOf, Join, Group;
    assert FilterWords(cs) == [link] + words + more;
    hide FilterWords;
    LinkClauses([link] + words + more, link, words, more);
  }

  lemma LinkRole(link: string)
    requires Spells(link, "where") || Spells(link, "and")
    ensures RoleOf(link) == if Spells(link, "where") then Where else And
  {
    assert |"where"| == 5 && |"and"| == 3;
  }

  lemma ConditionFirst(text: string, c: Condition, rest: seq<string>, p: Plan)
    requires ReadCondition(text) == Some(c) && ReadPageTerm(text).None?
    ensures Interpret([text] + rest, false, true, p)
            == Interpret(rest, false, true, p.(conditions := p.conditions + [c]))
  {
    hide ReadCondition, ReadPageTerm;
    assert ([text] + rest)[0] == text && ([text] + rest)[1..] == rest;
  }

  lemma AskedCons(cs: seq<Linked>, p: Plan)
    ensures cs == [] ==> AskedOf(cs) == [] && p.conditions + AskedOf(cs) == p.conditions
    ensures cs != [] ==>
              p.conditions + AskedOf(cs) == (p.conditions + [Asked(cs[0].condition)]) + AskedOf(cs[1..])
  {
    hide Asked;
    if cs != [] {
      assert AskedOf(cs) == [Asked(cs[0].condition)] + AskedOf(cs[1..]);
    }
  }

  /** Conditions are read in order into the plan. */
  lemma {:induction false} FilterAsks(cs: seq<Linked>, p: Plan)
    requires forall i :: 0 <= i < |cs| ==> Spells(cs[i].link, "and") && WellWritten(cs[i].condition)
    ensures Interpret(Group(FilterWords(cs), []), false, true, p) == Some(p.(conditions := p.conditions + AskedOf(cs)))
    decreases |cs|, 1
  {
    AskedCons(cs, p);
    if cs == [] {
      assert Group(FilterWords(cs), []) == [];
    } else {
      AndIsNotWhere(cs[0].link);
      hide ReadCondition, ReadPageTerm, Join, Group, WordsOf, AskedOf, FilterWords, Interpret, Spells, WellWritten;
      FilterClauses(cs);
      FirstThenRest(cs, p);
      assert [] + FirstClauses(cs) == FirstClauses(cs);
    }
  }

  lemma AndIsNotWhere(link: string)
    requires Spells(link, "and")
    ensures !Spells(link, "where")
  {
    assert |"where"| == 5 && |"and"| == 3;
  }

  lemma FirstThenRest(cs: seq<Linked>, p: Plan)
    requires cs != [] && WellWritten(cs[0].condition)
    requires forall i :: 0 < i < |cs| ==> Spells(cs[i].link, "and") && WellWritten(cs[i].condition)
    ensures Interpret(FirstClauses(cs), false, true, p) == Some(p.(conditions := p.conditions + AskedOf(cs)))
    decreases |cs|, 0
  {
    var more := cs[1..];
    var next := p.(conditions := p.conditions + [Asked(cs[0].condition)]);
    assert |cs| == 1 ==> Group(FilterWords(more), []) == [];
    hide ReadCondition, ReadPageTerm, Join, Group, WordsOf, Asked, AskedOf, FilterWords, Interpret, Spells, WellWritten;
    WrittenReads(cs[0].condition);
    ConditionFirst(Join(WordsOf(cs[0].condition), " "), Asked(cs[0].condition), Group(FilterWords(more), []), p);
    AskedCons(cs, p);
    FilterAsks(more, next);
  }

  lemma WhereThenRest(clauses: seq<string>, p: Plan)
    ensures Interpret(["where"] + clauses, true, false, p) == Interpret(clauses, false, true, p)
  {
    assert (["where"] + clauses)[1..] == clauses;
  }

  /** The written statement's clauses. */
  lemma StatementClauses(select: string, from: string, entity: string, cs: seq<Linked>)
    requires Spells(select, "select") && Spells(from, "from") && EntityWord(entity) && WellLinked(cs)
    ensures Clauses(Statement(select, from, entity, cs))
            == [Join(Opening(select, from, entity), " ")] + Group(FilterWords(cs), [])
    ensures EndMode(Statement(select, from, entity, cs), Plain).Plain?
  {
    var first, last := Opening(select, from, entity), FilterWords(cs);
    OpeningPlainly(select, from, entity);
    assert forall i :: 0 <= i < |cs| ==> Linkable(cs[i]);
    AllWords(first, cs);
    if cs != [] {
      LinkRole(cs[0].link);
      assert last != [] && last[0] == cs[0].link;
    } else {
      assert last == [] && first + last == first;
      assert Group(last, []) == [];
    }
    hide RoleOf, EndMode, Join, Opening, Word, EntityWord, Spells, Words, Group, FilterWords, WellLinked, Linkable;
    GroupPlain(first, []);
    assert [] + first == first;
    if cs != [] { GroupAppend(first, [], last); }
  }

  /** `select * from E where C1 and ... and Cn`, keywords in any case, asks for exactly those conditions in order,
      from the first row, a hundred rows at most; without a `where` for none. Followed by paging terms it asks for
      the same from the row and for the number of rows they say. */
  lemma StatementAsks(select: string, from: string, entity: string, cs: seq<Linked>, start: nat, size: nat)
    requires Spells(select, "select") && Spells(from, "from") && EntityWord(entity) && WellLinked(cs)
    ensures var text := Statement(select, from, entity, cs);
            && PlanOf(Clauses(text)) == Some(Plan(entity, AskedOf(cs), 1, 100))
            && PlanOf(Clauses(Paged(text, start, size))) == Some(Plan(entity, AskedOf(cs), start, size))
  {
    var text, head := Statement(select, from, entity, cs), Join(Opening(select, from, entity), " ");
    var p := Plan(entity, [], 1, 100);
    StatementClauses(select, from, entity, cs);
    EntityReads(select, from, entity);
    FilterPlan(cs, p);
    hide ReadEntity, Interpret, Join, Statement, Group, FilterWords, AskedOf, Clauses, EndMode, Paged;
    assert ([head] + Group(FilterWords(cs), []))[1..] == Group(FilterWords(cs), []);
    assert [] + AskedOf(cs) == AskedOf(cs);
    PagedPlan(text, start, size);
  }

  lemma FilterPlan(cs: seq<Linked>, p: Plan)
    requires WellLinked(cs)
    ensures Interpret(Group(FilterWords(cs), []), true, false, p)
            == Some(p.(conditions := p.conditions + AskedOf(cs)))
  {
    if cs == [] {
      assert AskedOf(cs) == [] && p.conditions + [] == p.conditions;
      assert Group(FilterWords(cs), []) == [];
    } else {
      FilterClauses(cs);
      hide ReadCondition, ReadPageTerm, Join, Group, WordsOf, Asked, AskedOf, FilterWords, Interpret;
      hide Spells, WellWritten;
      FirstThenRest(cs, p);
      WhereThenRest(FirstClauses(cs), p);
    }
  }

  /** Whatever the case of its keywords, `select * from E where Active IN (v1,...,vn)` asks for exactly the listed
      flags, and `Active = b` for that flag. */
  lemma ActiveReachesRows(select: string, from: string, entity: string, where: string, active: string, inWord: string,
                          values: seq<bool>, word: string, b: bool)
    requires Spells(select, "select") && Spells(from, "from") && EntityWord(entity)
    requires Spells(where, "where") && Spells(active, "active") && Spells(inWord, "in") && Spells(word, BoolText(b))
    requires values != []
    ensures PlanOf(Clauses(Statement(select, from, entity, [Linked(where, In(active, inWord, values))])))
            == Some(Plan(entity, [Active(SetOf(values))], 1, 100))
    ensures PlanOf(Clauses(Statement(select, from, entity, [Linked(where, Is(active, word, b))])))
            == Some(Plan(entity, [Active({b})], 1, 100))
  {
    var listed, one := [Linked(where, In(active, inWord, values))], [Linked(where, Is(active, word, b))];
    hide Statement, Clauses, PlanOf, Spells, EntityWord;
    StatementAsks(select, from, entity, listed, 1, 100);
    StatementAsks(select, from, entity, one, 1, 100);
    assert AskedOf(listed) == [Active(SetOf(values))] && AskedOf(one) == [Active({b})];
  }

  /** Whatever characters `v` holds (quotes, backslashes, blanks, keywords), a query for its escaped literal asks for
      exactly that DocNumber. */
  lemma LiteralReachesRows(entity: string, v: string)
    requires EntityWord(entity)
    ensures PlanOf(Clauses(Statement("select", "from", entity, [Linked("where", Doc("DocNumber", v))])))
            == Some(Plan(entity, [DocNumber(v)], 1, DEFAULT_MAX_RESULTS))
  {
    var cs := [Linked("where", Doc("DocNumber", v))];
    assert Lower("select") == "select" && Lower("from") == "from";
    assert Lower("where") == "where" && Lower("DocNumber") == "docnumber";
    hide Statement, Clauses, PlanOf, Lower, EntityWord;
    StatementAsks("select", "from", entity, cs, 1, 100);
    assert AskedOf(cs) == [DocNumber(v)];
  }

  // ----- which rows a condition answers -----

  /** A listed flag answers the rows that carry it, and true also those that carry none. */
  predicate Listed(r: Row, values: set<bool>) {
    match r.active
    case Some(flag) => flag in values
    case None => true in values
  }

  /** An Active condition answers exactly the rows it lists, each as often as stored. */
  lemma ActiveAnswers(rows: seq<Row>, values: set<bool>, r: Row)
    ensures multiset(Select([Active(values)], rows))[r] == if Listed(r, values) then multiset(rows)[r] else 0
  {
    SelectExact([Active(values)], rows);
    hide Select;
    assert ActiveValues([Active(values)]) == values;
    assert Matches([Active(values)], r) <==> Listed(r, values);
  }

  /** A DocNumber condition answers exactly the rows stored under it, inactive ones left out. */
  lemma DocAnswers(rows: seq<Row>, v: string, r: Row)
    ensures multiset(Select([DocNumber(v)], rows))[r]
            == if r.docNumber == Some(v) && r.active != Some(false) then multiset(rows)[r] else 0
  {
    var cs := [DocNumber(v)];
    SelectExact(cs, rows);
    hide Select;
    assert cs[..|cs| - 1] == [] && ActiveValues([]) == {true};
    assert ActiveValues(cs) == {true} && DocNumber(v) in cs;
    assert Matches(cs, r) <==> r.docNumber == Some(v) && r.active != Some(false);
  }

  /** Without a condition the active rows answer. */
  lemma DefaultAnswers(rows: seq<Row>, r: Row)
    ensures multiset(Select([], rows))[r] == if r.active != Some(false) then multiset(rows)[r] else 0
  {
    SelectExact([], rows);
    hide Select;
    assert Matches([], r) <==> r.active != Some(false);
  }

  /** Of several conditions every DocNumber must hold, and only the last Active one counts. */
  lemma LastActiveDecides(before: seq<Condition>, values: set<bool>, after: seq<Condition>, rows: seq<Row>, r: Row)
    requires forall c :: c in after ==> c.DocNumber?
    ensures multiset(Select(before + [Active(values)] + after, rows))[r]
            == if Listed(r, values)
                  && forall c :: c in before + after && c.DocNumber? ==> r.docNumber == Some(c.value)
               then multiset(rows)[r] else 0
  {
    var cs := before + [Active(values)] + after;
    SelectExact(cs, rows);
    LastActive(before, values, after);
    hide Select, ActiveValues;
    assert forall c :: c in cs <==> c in before + after || c == Active(values);
  }

  lemma {:induction false} LastActive(before: seq<Condition>, values: set<bool>, after: seq<Condition>)
    requires forall c :: c in after ==> c.DocNumber?
    ensures ActiveValues(before + [Active(values)] + after) == values
    decreases |after|
  {
    var cs := before + [Active(values)] + after;
    if after != [] {
      var n := |after| - 1;
      assert after[n] in after && cs[|cs| - 1] == after[n];
      assert cs[..|cs| - 1] == before + [Active(values)] + after[..n];
      LastActive(before, values, after[..n]);
    }
  }

  // ----- which pages are refused -----

  /** With paging terms appended, a statement that is understood is refused exactly when they ask for no row or
      for more than a thousand. */
  lemma PagedRefused(entities: map<string, seq<Row>>, statement: string, start: nat, size: nat)
    requires EndMode(statement, Plain).Plain?
    requires PlanOf(Clauses(statement)).Some? && PlanOf(Clauses(statement)).value.entity in entities
    ensures Answer(entities, Paged(statement, start, size)) == Fault <==> start < 1 || size < 1 || size > 1000
  {
    PagedPlan(statement, start, size);
    hide Clauses, Select, Paged;
  }

  /** And an entity the company does not have is refused. */
  lemma UnknownRefused(entities: map<string, seq<Row>>, statement: string)
    ensures Answer(entities, statement) == Fault
            <== PlanOf(Clauses(statement)).None? || PlanOf(Clauses(statement)).value.entity !in entities
  {
    hide Clauses, PlanOf, Select;
  }
}
