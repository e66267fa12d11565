/** Which clauses, conditions, literals and paging terms are read at all, and as what: the readers against a written
    grammar. */
module QueryGrammar {
  import opened Digits
  import opened Text
  import opened QueryScan
  import opened Query
  import opened QueryConditions
  import opened Wrappers

  // ----- which literals are read -----

  /** A literal's inside that spells `v`: each character as it is, or after a backslash; quotes and backslashes
      only so. */
  predicate Spelling(body: string, v: string)
    decreases |v|
  {
    if v == "" then body == ""
    else
      || (body != "" && body[0] == v[0] && v[0] != '\\' && v[0] != '\'' && Spelling(body[1..], v[1..]))
      || (|body| > 1 && body[0] == '\\' && body[1] == v[0] && Spelling(body[2..], v[1..]))
  }

  lemma {:induction false} UnescapeExactly(body: string, v: string)
    ensures Unescape(body, false) == Some(v) <==> Spelling(body, v)
    decreases |body|
  {
    if body == "" {
    } else if body[0] == '\\' {
      if |body| > 1 {
        var rest := body[2..];
        assert body[1..][1..] == rest && body[1..][0] == body[1];
        assert Unescape(body, false) == Prepend([body[1]], Unescape(rest, false));
        if v != "" {
          UnescapeExactly(rest, v[1..]);
          PrependIs(body[1], Unescape(rest, false), v);
        }
      } else {
        assert body[1..] == "";
      }
    } else if v != "" {
      UnescapeExactly(body[1..], v[1..]);
      PrependIs(body[0], Unescape(body[1..], false), v);
    }
  }

  lemma PrependIs(c: char, s: Option<string>, v: string)
    requires v != ""
    ensures Prepend([c], s) == Some(v) <==> c == v[0] && s == Some(v[1..])
  {
    assert v == [v[0]] + v[1..];
    if s.Some? && [c] + s.value == v { assert ([c] + s.value)[1..] == s.value; }
  }

  /** A literal is read as `v` exactly when it stands between quotes and its inside spells `v`: an unescaped quote
      inside, or a backslash before the closing quote, is refused. */
  lemma LiteralExactly(value: string, v: string)
    ensures Literal(value) == Some(v)
            <==> |value| >= 2 && value[0] == '\'' && value[|value| - 1] == '\'' && Spelling(value[1..|value| - 1], v)
  {
    if |value| >= 2 { UnescapeExactly(value[1..|value| - 1], v); }
  }

  // ----- which paging terms are read -----

  predicate TermOf(clause: string, keyword: string, word: string, digits: string, n: nat) {
    clause == word + (" " + digits) && Spells(word, keyword) && digits != "" && AllDigits(digits) && Value(digits) == n
  }

  /** A clause is read as a paging term exactly when it is one of the two keywords, in any case, one blank and
      digits. */
  lemma TermExactly(clause: string, n: nat)
    ensures ReadPageTerm(clause) == Some(MaxResults(n))
            <==> exists word, digits :: TermOf(clause, "maxresults", word, digits, n)
    ensures ReadPageTerm(clause) == Some(StartPosition(n))
            <==> exists word, digits :: TermOf(clause, "startposition", word, digits, n)
  {
    forall word, digits | TermOf(clause, "maxresults", word, digits, n)
      ensures ReadPageTerm(clause) == Some(MaxResults(n))
    {
      TermRead(clause, "maxresults", word, digits, n);
    }
    forall word, digits | TermOf(clause, "startposition", word, digits, n)
      ensures ReadPageTerm(clause) == Some(StartPosition(n))
    {
      TermRead(clause, "startposition", word, digits, n);
    }
    TermWritten(clause);
    var parts := Split(clause, ' ');
    hide Split, Lower, Value;
    if ReadPageTerm(clause) == Some(MaxResults(n)) { assert TermOf(clause, "maxresults", parts[0], parts[1], n); }
    if ReadPageTerm(clause) == Some(StartPosition(n)) { assert TermOf(clause, "startposition", parts[0], parts[1], n); }
  }

  lemma TermWritten(clause: string)
    ensures var parts := Split(clause, ' '); |parts| == 2 ==> clause == parts[0] + (" " + parts[1])
  {
    var parts := Split(clause, ' ');
    SplitJoin(clause, ' ');
    hide Split;
    if |parts| == 2 {
      JoinFirst(parts, " ", "");
      JoinFirst(parts[1..], " ", "");
      assert forall x: string :: x + "" == x;
    }
  }

  lemma TermRead(clause: string, keyword: string, word: string, digits: string, n: nat)
    requires keyword == "maxresults" || keyword == "startposition"
    requires TermOf(clause, keyword, word, digits, n)
    ensures ReadPageTerm(clause) == Some(if keyword == "maxresults" then MaxResults(n) else StartPosition(n))
  {
    SpelledWord(word, keyword);
    DigitsAreWord(digits);
    SplitWord(word, ' ', digits);
    SplitWord(digits, ' ', "");
    Assoc(word, " ", digits);
    assert "maxresults"[0] != "startposition"[0];
    hide Split, Lower, Value, Word, EndMode, InWord;
  }

  // ----- blanks around a text -----

  predicate Blank(s: string) {
    forall c :: c in s ==> IsSpace(c)
  }

  /** `s` is `t` with blanks around it, and `t` begins and ends with none. */
  predicate Trims(s: string, pre: string, t: string, post: string) {
    s == pre + (t + post) && Blank(pre) && Blank(post) && (t == "" || Solidly(t))
  }

  lemma {:induction false} LeftBlanks(pre: string, s: string)
    requires Blank(pre) && (s == "" || !IsSpace(s[0]))
    ensures StripLeft(pre + s) == s
    decreases |pre|
  {
    if pre == "" {
      assert pre + s == s;
    } else {
      assert pre[0] in pre && (pre + s)[1..] == pre[1..] + s;
      LeftBlanks(pre[1..], s);
    }
  }

  lemma {:induction false} RightBlanks(s: string, post: string)
    requires Blank(post) && (s == "" || !IsSpace(s[|s| - 1]))
    ensures StripRight(s + post) == s
    decreases |post|
  {
    if post == "" {
      assert s + post == s;
    } else {
      var n := |post| - 1;
      assert post[n] in post && (s + post)[..|s + post| - 1] == s + post[..n];
      RightBlanks(s, post[..n]);
    }
  }

  lemma StripTrims(s: string, pre: string, t: string, post: string)
    requires Trims(s, pre, t, post)
    ensures Strip(s) == t
  {
    if t == "" {
      assert s == (pre + post) + "";
      LeftBlanks(pre + post, "");
    } else {
      LeftBlanks(pre, t + post);
      RightBlanks(t, post);
    }
  }

  lemma {:induction false} LeftOf(s: string) returns (pre: string)
    ensures Blank(pre) && s == pre + StripLeft(s) && (StripLeft(s) != "" ==> !IsSpace(StripLeft(s)[0]))
  {
    if s != "" && IsSpace(s[0]) {
      var more := LeftOf(s[1..]);
      pre := [s[0]] + more;
    } else {
      pre := "";
    }
  }

  lemma {:induction false} RightOf(s: string) returns (post: string)
    ensures Blank(post) && s == StripRight(s) + post
    ensures StripRight(s) != "" ==> !IsSpace(StripRight(s)[|StripRight(s)| - 1]) && StripRight(s)[0] == s[0]
  {
    if s != "" && IsSpace(s[|s| - 1]) {
      var n := |s| - 1;
      var more := RightOf(s[..n]);
      post := more + [s[n]];
      assert s == s[..n] + [s[n]];
    } else {
      post := "";
    }
  }

  lemma TrimsStrip(s: string) returns (pre: string, post: string)
    ensures Trims(s, pre, Strip(s), post)
  {
    pre := LeftOf(s);
    post := RightOf(StripLeft(s));
  }

  // ----- a keyword and what follows it -----

  /** `clause` is the keyword, in any case, and then `rest` with blanks around it. */
  ghost predicate Follows(clause: string, keyword: string, rest: string) {
    exists w, pre, post :: FollowsBy(clause, keyword, rest, w, pre, post)
  }

  predicate FollowsBy(clause: string, keyword: string, rest: string, w: string, pre: string, post: string) {
    Spells(w, keyword) && w <= clause && Trims(clause[|w|..], pre, rest, post)
  }

  lemma AfterExactly(clause: string, keyword: string, rest: string)
    ensures After(clause, keyword) == Some(rest) <==> Follows(clause, Lower(keyword), rest)
  {
    assert |Lower(keyword)| == |keyword|;
    if After(clause, keyword) == Some(rest) {
      var w := clause[..|keyword|];
      var pre, post := TrimsStrip(clause[|keyword|..]);
      hide Strip, Trims;
      assert FollowsBy(clause, Lower(keyword), rest, w, pre, post);
    }
    forall w, pre, post | FollowsBy(clause, Lower(keyword), rest, w, pre, post)
      ensures After(clause, keyword) == Some(rest)
    {
      StripTrims(clause[|w|..], pre, rest, post);
      assert |Lower(w)| == |w|;
      hide Strip, Trims, Lower;
    }
  }

  // ----- lists of flags -----

  /** A part of a list that says `b`. */
  ghost predicate Says(part: string, b: bool) {
    exists pre, word, post :: Trims(part, pre, word, post) && Spells(word, BoolText(b))
  }

  lemma SaysExactly(part: string, b: bool)
    ensures Says(part, b) <==> Lower(Strip(part)) == BoolText(b)
    ensures Blank(part) <==> Strip(part) == ""
  {
    var pre, post := TrimsStrip(part);
    if Blank(part) {
      assert part == part + ("" + "");
      StripTrims(part, part, "", "");
    }
    forall pre, word, post | Trims(part, pre, word, post) && Spells(word, BoolText(b))
      ensures Lower(Strip(part)) == BoolText(b)
    {
      StripTrims(part, pre, word, post);
    }
    if Lower(Strip(part)) == BoolText(b) {
      hide Strip, Trims, Lower;
      assert Trims(part, pre, Strip(part), post) && Spells(Strip(part), BoolText(b));
    }
  }

  /** Parts between commas, each blank or a flag in any case, of which some says a flag; `values` are the flags. */
  ghost predicate SaysAll(parts: seq<string>, values: set<bool>) {
    && AllInOrder(parts)
    && values != {}
    && forall b :: b in values <==> exists i :: 0 <= i < |parts| && Says(parts[i], b)
  }

  ghost predicate Spelled(raw: string, parts: seq<string>, values: set<bool>) {
    raw == Join(parts, ",") && (forall w :: w in parts ==> ',' !in w) && SaysAll(parts, values)
  }

  lemma {:induction false} SplitApart(s: string, sep: char)
    ensures forall w :: w in Split(s, sep) ==> sep !in w
  {
    if s != "" {
      SplitApart(s[1..], sep);
      var rest := Split(s[1..], sep);
      assert rest[0] in rest && forall w :: w in rest[1..] ==> w in rest;
    }
  }

  lemma {:induction false} BoolWordsAre(parts: seq<string>, w: string)
    ensures w in BoolWords(parts)
            <==> exists i :: 0 <= i < |parts| && Strip(parts[i]) != "" && w == Lower(Strip(parts[i]))
  {
    hide Strip, Lower;
    if parts != [] {
      var rest := parts[1..];
      BoolWordsAre(rest, w);
      var head := if Strip(parts[0]) == "" then [] else [Lower(Strip(parts[0]))];
      assert w in BoolWords(parts) <==> w in head || w in BoolWords(rest);
      if i :| 0 <= i < |rest| && Strip(rest[i]) != "" && w == Lower(Strip(rest[i])) {
        assert parts[i + 1] == rest[i];
      }
      if i :| 0 <= i < |parts| && Strip(parts[i]) != "" && w == Lower(Strip(parts[i])) {
        if i > 0 { assert rest[i - 1] == parts[i]; }
      }
    }
  }

  /** A flag's text is among the words exactly when some part says it. */
  lemma WordsSay(parts: seq<string>, b: bool)
    ensures BoolText(b) in BoolWords(parts) <==> exists i :: 0 <= i < |parts| && Says(parts[i], b)
  {
    BoolWordsAre(parts, BoolText(b));
    forall i | 0 <= i < |parts|
      ensures Says(parts[i], b) <==> Strip(parts[i]) != "" && BoolText(b) == Lower(Strip(parts[i]))
    {
      SaysExactly(parts[i], b);
      assert |Lower(Strip(parts[i]))| == |Strip(parts[i])|;
    }
    hide Strip, Lower, Says, BoolWords;
  }

  /** A part is in order when it is blank or says a flag. */
  lemma InOrder(part: string)
    ensures (Blank(part) || exists b :: Says(part, b))
            <==> Strip(part) == "" || Lower(Strip(part)) == "true" || Lower(Strip(part)) == "false"
  {
    SaysExactly(part, true);
    SaysExactly(part, false);
    hide Strip, Lower, Says, Blank;
    assert BoolText(true) == "true" && BoolText(false) == "false";
  }

  ghost predicate AllInOrder(parts: seq<string>) {
    forall i :: 0 <= i < |parts| ==> Blank(parts[i]) || exists b :: Says(parts[i], b)
  }

  predicate FlagTexts(words: seq<string>) {
    forall w :: w in words ==> w == "true" || w == "false"
  }

  lemma OnlyFlags(parts: seq<string>)
    ensures AllInOrder(parts) <==> FlagTexts(BoolWords(parts))
  {
    hide Strip, Lower, Says, Blank, BoolWords;
    if AllInOrder(parts) {
      forall w | w in BoolWords(parts) ensures w == "true" || w == "false" {
        BoolWordsAre(parts, w);
        var i :| 0 <= i < |parts| && Strip(parts[i]) != "" && w == Lower(Strip(parts[i]));
        InOrder(parts[i]);
      }
    }
    if FlagTexts(BoolWords(parts)) {
      forall i | 0 <= i < |parts| ensures Blank(parts[i]) || exists b :: Says(parts[i], b) {
        InOrder(parts[i]);
        BoolWordsAre(parts, Lower(Strip(parts[i])));
      }
    }
  }

  lemma SomeFlag(values: set<bool>)
    ensures values == {} <==> true !in values && false !in values
  {
    if true !in values && false !in values {
      assert forall b :: b in values ==> b == true || b == false;
      assert values == {};
    }
  }

  lemma SameFlags(a: set<bool>, b: set<bool>)
    ensures a == b <==> (true in a <==> true in b) && (false in a <==> false in b)
  {
    SomeFlag(a - b);
    SomeFlag(b - a);
    if a - b == {} && b - a == {} { assert a <= b && b <= a; }
  }

  lemma PartsExactly(parts: seq<string>, values: set<bool>)
    ensures SaysAll(parts, values)
            <==> (BoolWords(parts) != [] && FlagTexts(BoolWords(parts))
                  && values == set w | w in BoolWords(parts) :: w == "true")
  {
    var words := BoolWords(parts);
    OnlyFlags(parts);
    WordsSay(parts, true);
    WordsSay(parts, false);
    hide Says, BoolWords, Blank, BoolText;
    if FlagTexts(words) { FlagSet(words, values); }
  }

  lemma FlagSet(words: seq<string>, values: set<bool>)
    requires FlagTexts(words)
    ensures (words != [] && values == (set w | w in words :: w == "true"))
            <==> (values != {} && forall b :: b in values <==> BoolText(b) in words)
  {
    var said := set w | w in words :: w == "true";
    assert "true"[0] != "false"[0];
    forall b ensures b in said <==> BoolText(b) in words {
      if BoolText(b) in words {
        var w := BoolText(b);
        assert (w == "true") == b;
      }
    }
    if words != [] { assert words[0] in words && (words[0] == "true") in said; }
    SomeFlag(values);
    SameFlags(values, said);
    if words != [] { assert words[0] == BoolText(words[0] == "true"); }
  }

  /** A list is read as `values` exactly when it is parts between commas that say them, in any case and with any
      blanks; blank parts are passed over, anything else is refused, and so is a list that says nothing. */
  lemma ListExactly(raw: string, values: set<bool>)
    ensures BoolList(raw) == Some(values) <==> exists parts :: Spelled(raw, parts, values)
  {
    var parts := Split(raw, ',');
    SplitJoin(raw, ',');
    SplitApart(raw, ',');
    PartsExactly(parts, values);
    hide Split, Join, BoolWords, SaysAll;
    if BoolList(raw) == Some(values) { assert Spelled(raw, parts, values); }
    forall ps | Spelled(raw, ps, values) ensures BoolList(raw) == Some(values) {
      SpelledSplit(raw, ps, values);
    }
  }

  lemma SpelledSplit(raw: string, parts: seq<string>, values: set<bool>)
    requires Spelled(raw, parts, values)
    ensures Split(raw, ',') == parts
  {
    SomeFlag(values);
    var b := true in values;
    assert b in values;
    assert exists i :: 0 <= i < |parts| && Says(parts[i], b);
    hide Says;
    SplitOfJoin(parts, ',');
    hide Split, Join;
  }

  // ----- conditions -----

  /** A condition on the flag: a bracketed list, or one flag. */
  ghost predicate AsksFlags(rest: string, values: set<bool>) {
    || (exists raw, parts :: Follows(rest, "in", "(" + raw + ")") && ')' !in raw && Spelled(raw, parts, values))
    || (exists word, b :: Follows(rest, "=", word) && Spells(word, BoolText(b)) && values == {b})
  }

  /** A condition on the number: one literal. */
  ghost predicate AsksNumber(rest: string, v: string) {
    exists body :: Follows(rest, "=", "'" + body + "'") && Spelling(body, v)
  }

  lemma BracketsOff(l: string, o: char, c: char)
    requires |l| >= 2 && l[0] == o && l[|l| - 1] == c
    ensures l == [o] + l[1..|l| - 1] + [c]
  {
  }

  lemma BracketsOn(raw: string, o: char, c: char)
    ensures var l := [o] + raw + [c]; |l| >= 2 && l[0] == o && l[|l| - 1] == c && l[1..|l| - 1] == raw
  {
  }

  lemma KeysLower()
    ensures Lower("IN") == "in" && Lower("=") == "=" && Lower("Active") == "active" && Lower("DocNumber") == "docnumber"
  {
  }

  lemma InExactly(rest: string, values: set<bool>)
    ensures (After(rest, "IN").Some? && ReadActive(rest) == Some(Active(values)))
            <==> exists raw, parts :: Follows(rest, "in", "(" + raw + ")") && ')' !in raw && Spelled(raw, parts, values)
  {
    KeysLower();
    var listed := After(rest, "IN");
    hide After, BoolList, Spelled, Follows;
    if listed.Some? && ReadActive(rest) == Some(Active(values)) {
      var l := listed.value;
      var raw := l[1..|l| - 1];
      BracketsOff(l, '(', ')');
      AfterExactly(rest, "IN", l);
      ListExactly(raw, values);
      var parts :| Spelled(raw, parts, values);
      assert Follows(rest, "in", "(" + raw + ")");
    }
    forall raw, parts | Follows(rest, "in", "(" + raw + ")") && ')' !in raw && Spelled(raw, parts, values)
      ensures After(rest, "IN").Some? && ReadActive(rest) == Some(Active(values))
    {
      AfterExactly(rest, "IN", "(" + raw + ")");
      BracketsOn(raw, '(', ')');
      ListExactly(raw, values);
    }
  }

  lemma IsExactly(rest: string, values: set<bool>)
    ensures (After(rest, "IN").None? && ReadActive(rest) == Some(Active(values)))
            <==> exists word, b :: Follows(rest, "=", word) && Spells(word, BoolText(b)) && values == {b}
  {
    KeysLower();
    var value := After(rest, "=");
    SignExcludesIn(rest);
    assert BoolText(true) == "true" && BoolText(false) == "false" && "true"[0] != "false"[0];
    hide After, Follows, Lower;
    if After(rest, "IN").None? && ReadActive(rest) == Some(Active(values)) {
      var word := value.value;
      AfterExactly(rest, "=", word);
      assert Follows(rest, "=", word) && Spells(word, BoolText(Lower(word) == "true"));
    }
    forall word, b | Follows(rest, "=", word) && Spells(word, BoolText(b)) && values == {b}
      ensures After(rest, "IN").None? && ReadActive(rest) == Some(Active(values))
    {
      AfterExactly(rest, "=", word);
    }
  }

  lemma SignExcludesIn(rest: string)
    ensures After(rest, "=").Some? ==> After(rest, "IN").None?
  {
    hide Strip;
    if After(rest, "=").Some? && |rest| >= 2 {
      assert Lower(rest[..1])[0] == LowerChar(rest[0]) == Lower("=")[0] == '=';
      assert Lower(rest[..2])[0] == LowerChar(rest[0]) && Lower("IN")[0] == 'i';
    }
  }

  /** The two fields are told apart by their first letter. */
  lemma NumberExcludesActive(clause: string)
    ensures After(clause, "DocNumber").Some? ==> After(clause, "Active").None?
  {
    hide Strip;
    if After(clause, "DocNumber").Some? {
      assert Lower(clause[..9])[0] == LowerChar(clause[0]) == Lower("DocNumber")[0] == 'd';
      assert Lower(clause[..6])[0] == LowerChar(clause[0]) && Lower("Active")[0] == 'a';
    }
  }

  lemma NumberExactly(rest: string, v: string)
    ensures ReadDocNumber(rest) == Some(DocNumber(v)) <==> AsksNumber(rest, v)
  {
    KeysLower();
    var value := After(rest, "=");
    hide After, Follows, Lower, Literal, Spelling;
    if ReadDocNumber(rest) == Some(DocNumber(v)) {
      var l := value.value;
      LiteralExactly(l, v);
      AfterExactly(rest, "=", l);
      BracketsOff(l, '\'', '\'');
      var body := l[1..|l| - 1];
      assert Follows(rest, "=", "'" + body + "'");
    }
    forall body | Follows(rest, "=", "'" + body + "'") && Spelling(body, v)
      ensures ReadDocNumber(rest) == Some(DocNumber(v))
    {
      AfterExactly(rest, "=", "'" + body + "'");
      BracketsOn(body, '\'', '\'');
      LiteralExactly("'" + body + "'", v);
    }
  }

  /** A clause is read as a condition exactly when it is written as one: `Active` with a bracketed list or one flag,
      or `DocNumber` with one literal, keywords and flags in any case and blanks anywhere between. */
  lemma ConditionExactly(clause: string, values: set<bool>, v: string)
    ensures ReadCondition(clause) == Some(Active(values))
            <==> exists rest :: Follows(clause, "active", rest) && AsksFlags(rest, values)
    ensures ReadCondition(clause) == Some(DocNumber(v))
            <==> exists rest :: Follows(clause, "docnumber", rest) && AsksNumber(rest, v)
  {
    KeysLower();
    NumberExcludesActive(clause);
    hide After, Follows, Lower, AsksFlags, AsksNumber;
    if After(clause, "Active").Some? {
      var rest := After(clause, "Active").value;
      AfterExactly(clause, "Active", rest);
      FlagsExactly(rest, values);
    }
    if After(clause, "DocNumber").Some? {
      var rest := After(clause, "DocNumber").value;
      AfterExactly(clause, "DocNumber", rest);
      NumberExactly(rest, v);
    }
    forall rest | Follows(clause, "active", rest) ensures After(clause, "Active") == Some(rest) {
      AfterExactly(clause, "Active", rest);
    }
    forall rest | Follows(clause, "docnumber", rest) ensures After(clause, "DocNumber") == Some(rest) {
      AfterExactly(clause, "DocNumber", rest);
    }
    ActiveIsNoNumber(clause, v);
  }

  lemma FlagsExactly(rest: string, values: set<bool>)
    ensures ReadActive(rest) == Some(Active(values)) <==> AsksFlags(rest, values)
  {
    InExactly(rest, values);
    IsExactly(rest, values);
    hide After, Follows, Spelled, Spells, ReadActive;
  }

  lemma ActiveIsNoNumber(clause: string, v: string)
    ensures After(clause, "Active").Some? ==> ReadCondition(clause) != Some(DocNumber(v))
  {
    hide After, BoolList, Lower;
  }

  // ----- the first clause -----

  predicate EntityOf(clause: string, select: string, from: string, entity: string) {
    && clause == Join(Opening(select, from, entity), " ")
    && Spells(select, "select") && Spells(from, "from") && ' ' !in entity
  }

  /** The first clause names an entity exactly when it is `select * from` and one word. */
  lemma EntityExactly(clause: string, entity: string)
    ensures ReadEntity(clause) == Some(entity) <==> exists select, from :: EntityOf(clause, select, from, entity)
  {
    var parts := Split(clause, ' ');
    SplitJoin(clause, ' ');
    SplitApart(clause, ' ');
    hide Split, Join, Lower;
    if ReadEntity(clause) == Some(entity) {
      assert parts == Opening(parts[0], parts[2], entity) && parts[3] in parts;
      assert EntityOf(clause, parts[0], parts[2], entity);
    }
    forall select, from | EntityOf(clause, select, from, entity) ensures ReadEntity(clause) == Some(entity) {
      SpelledWord(select, "select");
      SpelledWord(from, "from");
      var ws := Opening(select, from, entity);
      assert forall w :: w in ws ==> ' ' !in w;
      SplitOfJoin(ws, ' ');
    }
  }
}
