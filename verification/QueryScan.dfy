/** Splitting a query statement: the quote-aware word scanner, the clause grouper and the
    unescaping of a quoted literal. */
module QueryScan {
  import opened Text
  import opened Wrappers

  /** What a word is to the grouper; keywords are read without regard to case. */
  datatype Role = Where | And | Paging | Ordinary

  function RoleOf(w: string): Role {
    var k := Lower(w);
    if k == "where" then Where
    else if k == "and" then And
    else if k == "startposition" || k == "maxresults" then Paging
    else Ordinary
  }

  // ----- words -----

  /** Where the scanner stands: outside a literal, inside one, or just after a backslash in one. */
  datatype Mode = Plain | Quoted | Escaped

  function Advance(mode: Mode, c: char): Mode {
    match mode
    case Plain => if c == '\'' then Quoted else Plain
    case Quoted => if c == '\\' then Escaped else if c == '\'' then Plain else Quoted
    case Escaped => Quoted
  }

  function Flush(word: string): seq<string> {
    if word == "" then [] else [word]
  }

  /** The words of `s` when the scanner is in `mode` with `word` begun. */
  function Scan(s: string, mode: Mode, word: string): seq<string>
    decreases |s|
  {
    if s == "" then Flush(word)
    else if mode.Plain? && IsSpace(s[0]) then Flush(word) + Scan(s[1..], Plain, "")
    else Scan(s[1..], Advance(mode, s[0]), word + [s[0]])
  }

  function Words(s: string): seq<string> {
    Scan(s, Plain, "")
  }

  /** The text with the blanks outside literals taken out. */
  function Solid(s: string, mode: Mode): string
    decreases |s|
  {
    if s == "" then ""
    else if mode.Plain? && IsSpace(s[0]) then Solid(s[1..], Plain)
    else [s[0]] + Solid(s[1..], Advance(mode, s[0]))
  }

  /** No blank of `w` falls outside a literal. */
  predicate InWord(w: string, mode: Mode)
    decreases |w|
  {
    w == "" || (!(mode.Plain? && IsSpace(w[0])) && InWord(w[1..], Advance(mode, w[0])))
  }

  function EndMode(w: string, mode: Mode): Mode
    decreases |w|
  {
    if w == "" then mode else EndMode(w[1..], Advance(mode, w[0]))
  }

  predicate Word(w: string) {
    w != "" && InWord(w, Plain)
  }

  /** Words that can be written one after the other: all but the last end outside a literal. */
  predicate Sentence(ws: seq<string>) {
    && (forall w :: w in ws ==> Word(w))
    && forall i :: 0 <= i < |ws| - 1 ==> EndMode(ws[i], Plain).Plain?
  }

  lemma {:induction false} ScanWord(w: string, mode: Mode, word: string, rest: string)
    requires InWord(w, mode)
    ensures Scan(w + rest, mode, word) == Scan(rest, EndMode(w, mode), word + w)
    decreases |w|
  {
    if w == "" {
      assert w + rest == rest && word + w == word;
    } else {
      assert (w + rest)[0] == w[0] && (w + rest)[1..] == w[1..] + rest;
      ScanWord(w[1..], Advance(mode, w[0]), word + [w[0]], rest);
      assert (word + [w[0]]) + w[1..] == word + w;
    }
  }

  lemma {:induction false} InWordAppend(a: string, b: string, mode: Mode)
    ensures InWord(a + b, mode) <==> InWord(a, mode) && InWord(b, EndMode(a, mode))
    ensures EndMode(a + b, mode) == EndMode(b, EndMode(a, mode))
    decreases |a|
  {
    if a == "" {
      assert a + b == b;
    } else {
      assert (a + b)[0] == a[0] && (a + b)[1..] == a[1..] + b;
      InWordAppend(a[1..], b, Advance(mode, a[0]));
    }
  }

  /** A word ends at a blank, or with the text. */
  lemma WordEnds(w: string, rest: string)
    requires Word(w) && (rest == "" || (EndMode(w, Plain).Plain? && IsSpace(rest[0])))
    ensures Words(w + rest) == [w] + Words(rest)
    ensures rest != "" ==> Words(rest) == Words(rest[1..])
  {
    ScanWord(w, Plain, "", rest);
    hide InWord, EndMode;
    assert "" + w == w;
    if rest != "" {
      assert Scan(rest, Plain, w) == Flush(w) + Scan(rest[1..], Plain, "");
      assert Scan(rest, Plain, "") == Flush("") + Scan(rest[1..], Plain, "");
    } else {
      assert Words(rest) == [];
    }
  }

  lemma SentenceRest(ws: seq<string>)
    requires Sentence(ws) && ws != []
    ensures Word(ws[0]) && Sentence(ws[1..]) && (|ws| > 1 ==> EndMode(ws[0], Plain).Plain?)
  {
    hide Word, EndMode;
    assert ws[0] in ws && forall x :: x in ws[1..] ==> x in ws;
  }

  /** Scanning text that follows a complete piece splits off the piece's words. */
  lemma {:induction false} WordsOfSentence(ws: seq<string>, rest: string)
    requires Sentence(ws) && ws != []
    requires EndMode(ws[|ws| - 1], Plain).Plain? || rest == ""
    requires rest == "" || IsSpace(rest[0])
    ensures Words(Join(ws, " ") + rest) == ws + Words(rest)
    decreases |ws|
  {
    hide Scan, InWord, EndMode, Words, Join, Sentence, Word;
    SentenceRest(ws);
    JoinFirst(ws, " ", rest);
    if |ws| == 1 {
      WordEnds(ws[0], rest);
      assert ws == [ws[0]];
    } else {
      var tail := " " + (Join(ws[1..], " ") + rest);
      WordEnds(ws[0], tail);
      assert tail[1..] == Join(ws[1..], " ") + rest;
      WordsOfSentence(ws[1..], rest);
      HeadAgain(ws, Words(rest));
    }
  }

  lemma HeadAgain(ws: seq<string>, more: seq<string>)
    requires ws != []
    ensures [ws[0]] + (ws[1..] + more) == ws + more
  {
  }

  lemma SentenceTail(w: string, rest: seq<string>)
    requires Word(w) && EndMode(w, Plain).Plain? && Sentence(rest)
    ensures Sentence([w] + rest)
  {
  }

  /** What the scanner yields is a sentence, and holds every character but the blanks. */
  lemma {:induction false} ScanSound(s: string, mode: Mode, word: string)
    requires InWord(word, Plain) && EndMode(word, Plain) == mode
    ensures Sentence(Scan(s, mode, word))
    ensures Concat(Scan(s, mode, word)) == word + Solid(s, mode)
    decreases |s|
  {
    if s != "" {
      if mode.Plain? && IsSpace(s[0]) {
        ScanSound(s[1..], Plain, "");
        if word != "" { SentenceTail(word, Scan(s[1..], Plain, "")); }
        ConcatAppend(Flush(word), Scan(s[1..], Plain, ""));
      } else {
        InWordAppend(word, [s[0]], Plain);
        assert InWord([s[0]], mode) && EndMode([s[0]], mode) == Advance(mode, s[0]);
        ScanSound(s[1..], Advance(mode, s[0]), word + [s[0]]);
        assert (word + [s[0]]) + Solid(s[1..], Advance(mode, s[0])) == word + Solid(s, mode);
      }
    } else {
      assert word + "" == word;
      assert Concat([word]) == word + Concat([]);
    }
  }

  /** The words keep every character in order except blanks outside literals, and writing them
      with single blanks gives the same words again. */
  lemma WordsNormalForm(s: string)
    ensures Concat(Words(s)) == Solid(s, Plain)
    ensures Words(Join(Words(s), " ")) == Words(s)
  {
    ScanSound(s, Plain, "");
    var ws := Words(s);
    if ws != [] {
      WordsOfSentence(ws, "");
      assert Join(ws, " ") + "" == Join(ws, " ");
      assert ws + Words("") == ws;
    }
  }

  method Tokenize(statement: string) returns (words: seq<string>)
    ensures words == Words(statement)
  {
    words := [];
    var word := "";
    var quoted, escaped := false, false;
    var i := 0;
    while i < |statement|
      invariant 0 <= i <= |statement|
      invariant escaped ==> quoted
      invariant Words(statement)
                == words + Scan(statement[i..], if escaped then Escaped else if quoted then Quoted else Plain, word)
    {
      var ch := statement[i];
      assert statement[i..][1..] == statement[i + 1..];
      if quoted {
        word := word + [ch];
        if escaped {
          escaped := false;
        } else if ch == '\\' {
          escaped := true;
        } else if ch == '\'' {
          quoted := false;
        }
      } else if IsSpace(ch) {
        if word != "" {
          words := words + [word];
          word := "";
        }
      } else {
        word := word + [ch];
        quoted := ch == '\'';
      }
      i := i + 1;
    }
    if word != "" {
      words := words + [word];
    }
  }

  // ----- clauses -----

  function Clause(current: seq<string>): seq<string> {
    if current == [] then [] else [Join(current, " ")]
  }

  /** The clauses of `words` when `current` has been collected for the one being read. */
  function Group(words: seq<string>, current: seq<string>): seq<string>
    decreases |words|
  {
    if words == [] then Clause(current)
    else
      match RoleOf(words[0])
      case Where => Clause(current) + ["where"] + Group(words[1..], [])
      case And => Clause(current) + Group(words[1..], [])
      case Paging => Clause(current) + Group(words[1..], [words[0]])
      case Ordinary => Group(words[1..], current + [words[0]])
  }

  function Clauses(statement: string): seq<string> {
    Group(Words(statement), [])
  }

  /** What reading one word closes, and what is then being collected. */
  lemma GroupStep(words: seq<string>, current: seq<string>)
    requires words != []
    ensures var role := RoleOf(words[0]);
            var closed := (if role == Ordinary then [] else Clause(current))
                          + (if role == Where then ["where"] else []);
            var next := if role == Ordinary then current + [words[0]] else if role == Paging then [words[0]] else [];
            Group(words, current) == closed + Group(words[1..], next)
  {
    hide RoleOf, Join;
  }

  lemma EndOfGroup(current: seq<string>)
    ensures Group([], current) == Clause(current)
  {
  }

  method SplitClauses(statement: string) returns (clauses: seq<string>)
    ensures clauses == Clauses(statement)
  {
    hide RoleOf, Words, Join, Group;
    var words := Tokenize(statement);
    clauses := [];
    var current: seq<string> := [];
    var i := 0;
    while i < |words|
      invariant 0 <= i <= |words|
      invariant Clauses(statement) == clauses + Group(words[i..], current)
    {
      var w := words[i];
      assert words[i..][1..] == words[i + 1..];
      GroupStep(words[i..], current);
      var role := RoleOf(w);
      ghost var before := clauses;
      ghost var closed := (if role == Ordinary then [] else Clause(current))
                          + (if role == Where then ["where"] else []);
      if role != Ordinary {
        if current != [] {
          clauses := clauses + [Join(current, " ")];
        }
        current := if role == Where || role == And then [] else [w];
        if role == Where {
          clauses := clauses + ["where"];
        }
      } else {
        current := current + [w];
      }
      assert clauses == before + closed;
      i := i + 1;
      Assoc(before, closed, Group(words[i..], current));
    }
    assert words[i..] == [];
    EndOfGroup(current);
    if current != [] {
      clauses := clauses + [Join(current, " ")];
    }
  }

  /** The statement's words without any `and`, every `where` in lower case. */
  function Kept(words: seq<string>): seq<string> {
    if words == [] then []
    else
      (match RoleOf(words[0])
       case Where => ["where"]
       case And => []
       case _ => [words[0]]) + Kept(words[1..])
  }

  lemma {:induction false} GroupKeeps(words: seq<string>, current: seq<string>)
    ensures Join(Group(words, current), " ") == Join(current + Kept(words), " ")
    decreases |words|
  {
    hide RoleOf, Join;
    if words == [] {
      assert current + [] == current;
      ClauseJoin(current);
    } else {
      var w, role := words[0], RoleOf(words[0]);
      var next := if role == Ordinary then current + [w] else if role == Paging then [w] else [];
      GroupKeeps(words[1..], next);
      GroupEmpty(words[1..], next);
      GroupStep(words, current);
      KeptStep(words);
      hide Group, Kept, Clause;
      KeepsOne(current, w, role, Group(words[1..], next), Kept(words[1..]));
    }
  }

  lemma KeptStep(words: seq<string>)
    requires words != []
    ensures var role := RoleOf(words[0]);
            Kept(words) == (if role == Where then ["where"] else if role == And then [] else [words[0]])
                           + Kept(words[1..])
  {
    hide RoleOf;
  }

  lemma KeepsOne(current: seq<string>, w: string, role: Role, rest: seq<string>, more: seq<string>)
    requires var next := if role == Ordinary then current + [w] else if role == Paging then [w] else [];
             Join(rest, " ") == Join(next + more, " ") && (rest == [] <==> next + more == [])
    ensures var closed := (if role == Ordinary then [] else Clause(current))
                          + (if role == Where then ["where"] else []);
            var spelled := if role == Where then ["where"] else if role == And then [] else [w];
            Join(closed + rest, " ") == Join(current + (spelled + more), " ")
  {
    hide Join, Clause;
    if role == Ordinary {
      assert [] + [] + rest == rest && (current + [w]) + more == current + ([w] + more);
    } else {
      var next := if role == Paging then [w] else [];
      var mark := if role == Where then ["where"] else [];
      JoinSplit(current, mark, rest, next + more);
      var spelled := if role == Where then ["where"] else if role == And then [] else [w];
      assert mark + next == spelled;
      assert (current + mark) + (next + more) == current + ((mark + next) + more);
    }
  }

  lemma {:induction false} GroupEmpty(words: seq<string>, current: seq<string>)
    ensures Group(words, current) == [] <==> current + Kept(words) == []
    decreases |words|
  {
    hide RoleOf, Join;
    if words != [] {
      match RoleOf(words[0])
      case Where =>
      case And => GroupEmpty(words[1..], []);
      case Paging => GroupEmpty(words[1..], [words[0]]);
      case Ordinary => GroupEmpty(words[1..], current + [words[0]]);
    }
  }

  lemma ClauseJoin(current: seq<string>)
    ensures Join(Clause(current), " ") == Join(current, " ")
  {
  }

  /** Closing the current clause before what follows leaves the joined text as it was. */
  lemma JoinSplit(current: seq<string>, mark: seq<string>, rest: seq<string>, spelled: seq<string>)
    requires Join(rest, " ") == Join(spelled, " ") && (rest == [] <==> spelled == [])
    ensures Join(Clause(current) + mark + rest, " ") == Join((current + mark) + spelled, " ")
  {
    JoinAppend(Clause(current) + mark, rest, " ");
    JoinAppend(Clause(current), mark, " ");
    JoinAppend(current + mark, spelled, " ");
    JoinAppend(current, mark, " ");
  }

  /** Splitting drops no word but `and`: read in order, the clauses spell all the others. */
  lemma ClausesKeepWords(statement: string)
    ensures Join(Clauses(statement), " ") == Join(Kept(Words(statement)), " ")
  {
    GroupKeeps(Words(statement), []);
    assert [] + Kept(Words(statement)) == Kept(Words(statement));
  }

  /** Words that begin with a keyword start new clauses. */
  lemma {:induction false} GroupAppend(first: seq<string>, current: seq<string>, second: seq<string>)
    requires second != [] && RoleOf(second[0]) != Ordinary
    ensures Group(first + second, current) == Group(first, current) + Group(second, [])
    decreases |first|
  {
    hide RoleOf, Join;
    if first == [] {
      assert first + second == second;
      assert Clause([]) == [];
    } else {
      hide Group, Clause;
      var w, role, both := first[0], RoleOf(first[0]), first + second;
      var closed := (if role == Ordinary then [] else Clause(current))
                    + (if role == Where then ["where"] else []);
      var next := if role == Ordinary then current + [w] else if role == Paging then [w] else [];
      assert both[0] == w && both[1..] == first[1..] + second;
      GroupStep(first, current);
      GroupStep(both, current);
      GroupAppend(first[1..], next, second);
      Assoc(closed, Group(first[1..], next), Group(second, []));
    }
  }

  /** Words with no keyword among them are one clause. */
  lemma {:induction false} GroupPlain(words: seq<string>, current: seq<string>)
    requires forall w :: w in words ==> RoleOf(w) == Ordinary
    ensures Group(words, current) == Clause(current + words)
    decreases |words|
  {
    hide RoleOf, Join;
    if words == [] {
      assert current + words == current;
    } else {
      assert words[0] in words && forall w :: w in words[1..] ==> w in words;
      GroupPlain(words[1..], current + [words[0]]);
      assert (current + [words[0]]) + words[1..] == current + words;
    }
  }

  // ----- literals -----

  function Prepend(c: string, s: Option<string>): Option<string> {
    if s.None? then None else Some(c + s.value)
  }

  /** The content of a literal's inside, given whether a backslash is pending. */
  function Unescape(s: string, escaped: bool): Option<string> {
    if s == "" then (if escaped then None else Some(""))
    else if escaped then Prepend([s[0]], Unescape(s[1..], false))
    else if s[0] == '\\' then Unescape(s[1..], true)
    else if s[0] == '\'' then None
    else Prepend([s[0]], Unescape(s[1..], false))
  }

  function Literal(value: string): Option<string> {
    if |value| < 2 || value[0] != '\'' || value[|value| - 1] != '\'' then None
    else Unescape(value[1..|value| - 1], false)
  }

  lemma PrependTwice(a: string, b: string, s: Option<string>)
    ensures Prepend(a, Prepend(b, s)) == Prepend(a + b, s)
    ensures Prepend("", s) == s
  {
    if s.Some? {
      assert a + (b + s.value) == (a + b) + s.value && "" + s.value == s.value;
    }
  }

  method ReadLiteral(value: string) returns (content: Option<string>)
    ensures content == Literal(value)
  {
    if |value| < 2 || value[0] != '\'' || value[|value| - 1] != '\'' {
      return None;
    }
    var body := value[1..|value| - 1];
    var out := "";
    var escaped := false;
    var i := 0;
    assert body[0..] == body;
    PrependTwice("", "", Unescape(body, false));
    while i < |body|
      invariant 0 <= i <= |body|
      invariant Literal(value) == Prepend(out, Unescape(body[i..], escaped))
    {
      var ch := body[i];
      assert body[i..][1..] == body[i + 1..];
      PrependTwice(out, [ch], Unescape(body[i + 1..], false));
      if escaped {
        out := out + [ch];
        escaped := false;
      } else if ch == '\\' {
        escaped := true;
      } else if ch == '\'' {
        return None;
      } else {
        out := out + [ch];
      }
      i := i + 1;
    }
    content := if escaped then None else Some(out);
    assert out + "" == out;
  }

  /** How a client writes a value inside a literal. */
  function EscapeLiteral(v: string): string {
    if v == "" then ""
    else (if v[0] == '\\' || v[0] == '\'' then ['\\', v[0]] else [v[0]]) + EscapeLiteral(v[1..])
  }

  function QuoteLiteral(v: string): string {
    "'" + EscapeLiteral(v) + "'"
  }

  /** Unescaping inverts escaping for every string. */
  lemma {:induction false} UnescapeEscaped(v: string)
    ensures Unescape(EscapeLiteral(v), false) == Some(v)
  {
    if v != "" {
      UnescapeEscaped(v[1..]);
      var tail := EscapeLiteral(v[1..]);
      assert v == [v[0]] + v[1..];
      if v[0] == '\\' || v[0] == '\'' {
        var t := ['\\', v[0]] + tail;
        assert t[1..] == [v[0]] + tail && t[1..][1..] == tail;
      } else {
        assert ([v[0]] + tail)[1..] == tail;
      }
    }
  }

  /** An escaped value stays inside its literal to the end. */
  lemma {:induction false} EscapedStaysQuoted(v: string)
    ensures InWord(EscapeLiteral(v), Quoted) && EndMode(EscapeLiteral(v), Quoted) == Quoted
  {
    if v != "" {
      EscapedStaysQuoted(v[1..]);
      var head := if v[0] == '\\' || v[0] == '\'' then ['\\', v[0]] else [v[0]];
      InWordAppend(head, EscapeLiteral(v[1..]), Quoted);
      if |head| == 2 {
        assert head[1..] == [v[0]] && head[1..][1..] == "";
      } else {
        assert head[1..] == "";
      }
    }
  }

  lemma QuotedIsWord(v: string)
    ensures Word(QuoteLiteral(v)) && EndMode(QuoteLiteral(v), Plain).Plain?
    ensures Literal(QuoteLiteral(v)) == Some(v)
  {
    EscapedStaysQuoted(v);
    UnescapeEscaped(v);
    var e := EscapeLiteral(v);
    InWordAppend("'", e + "'", Plain);
    InWordAppend(e, "'", Quoted);
    assert QuoteLiteral(v) == "'" + (e + "'");
    assert "'"[1..] == "";
    assert QuoteLiteral(v)[1..|QuoteLiteral(v)| - 1] == e;
  }
}
