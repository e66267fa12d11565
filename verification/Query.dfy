/** Answering a query: clause readers, row selection and paging. A fault carries no detail text. */
module Query {
  import opened Digits
  import opened Text
  import opened QueryScan
  import opened Wrappers

  const DEFAULT_MAX_RESULTS := 100
  const MAX_RESULTS_LIMIT := 1000

  datatype Condition = Active(values: set<bool>) | DocNumber(value: string)

  datatype PageTerm = StartPosition(n: nat) | MaxResults(n: nat)

  /** A stored record: the two fields a query can test, and the rest of it. */
  datatype Row = Row(docNumber: Option<string>, active: Option<bool>, body: string)

  /** What a statement asks for: the conditions in order, and the last value of each paging term. */
  datatype Plan = Plan(entity: string, conditions: seq<Condition>, start: nat, size: nat)

  datatype Response = Fault | NoRows | Page(entity: string, rows: seq<Row>, start: nat, count: nat)

  // ----- clause readers -----

  function After(clause: string, keyword: string): Option<string> {
    if |clause| < |keyword| || Lower(clause[..|keyword|]) != Lower(keyword) then None
    else Some(Strip(clause[|keyword|..]))
  }

  function BoolWords(parts: seq<string>): seq<string> {
    if parts == [] then []
    else (if Strip(parts[0]) == "" then [] else [Lower(Strip(parts[0]))]) + BoolWords(parts[1..])
  }

  function BoolList(raw: string): Option<set<bool>> {
    var values := BoolWords(Split(raw, ','));
    if values == [] || exists v :: v in values && v != "true" && v != "false" then None
    else Some(set v | v in values :: v == "true")
  }

  function ReadActive(rest: string): Option<Condition> {
    var listed := After(rest, "IN");
    if listed.Some? then
      var l := listed.value;
      if |l| < 2 || l[0] != '(' || l[|l| - 1] != ')' || ')' in l[1..|l| - 1] then None
      else
        var values := BoolList(l[1..|l| - 1]);
        if values.None? then None else Some(Active(values.value))
    else
      var value := After(rest, "=");
      if value.Some? && Lower(value.value) in ["true", "false"] then Some(Active({Lower(value.value) == "true"}))
      else None
  }

  function ReadDocNumber(rest: string): Option<Condition> {
    var value := After(rest, "=");
    if value.None? then None
    else
      var literal := Literal(value.value);
      if literal.None? then None else Some(DocNumber(literal.value))
  }

  function ReadCondition(clause: string): Option<Condition> {
    var active := After(clause, "Active");
    if active.Some? then ReadActive(active.value)
    else
      var doc := After(clause, "DocNumber");
      if doc.None? then None else ReadDocNumber(doc.value)
  }

  function ReadPageTerm(clause: string): Option<PageTerm> {
    var parts := Split(clause, ' ');
    if |parts| == 2 && parts[1] != "" && AllDigits(parts[1]) then
      if Lower(parts[0]) == "startposition" then Some(StartPosition(Value(parts[1])))
      else if Lower(parts[0]) == "maxresults" then Some(MaxResults(Value(parts[1])))
      else None
    else None
  }

  function ReadEntity(clause: string): Option<string> {
    var parts := Split(clause, ' ');
    if |parts| == 4 && Lower(parts[0]) == "select" && parts[1] == "*" && Lower(parts[2]) == "from" then Some(parts[3])
    else None
  }

  // ----- what a statement asks for -----

  function SetPaging(p: Plan, term: PageTerm): Plan {
    match term
    case StartPosition(n) => p.(start := n)
    case MaxResults(n) => p.(size := n)
  }

  /** The clauses after the entity: `first` is true only of the clause right after it, and
      conditions count only between a leading `where` and the first paging term. */
  function Interpret(clauses: seq<string>, first: bool, inWhere: bool, p: Plan): Option<Plan>
    decreases |clauses|
  {
    if clauses == [] then Some(p)
    else if clauses[0] == "where" && first then Interpret(clauses[1..], false, true, p)
    else
      var term := ReadPageTerm(clauses[0]);
      if term.Some? then Interpret(clauses[1..], false, false, SetPaging(p, term.value))
      else
        var condition := if inWhere then ReadCondition(clauses[0]) else None;
        if condition.None? then None
        else Interpret(clauses[1..], false, inWhere, p.(conditions := p.conditions + [condition.value]))
  }

  function PlanOf(clauses: seq<string>): Option<Plan> {
    if clauses == [] then None
    else
      var entity := ReadEntity(clauses[0]);
      if entity.None? then None
      else Interpret(clauses[1..], true, false, Plan(entity.value, [], 1, DEFAULT_MAX_RESULTS))
  }

  // ----- which rows match -----

  /** The last Active condition decides; without one only active rows answer. */
  function ActiveValues(conditions: seq<Condition>): set<bool> {
    if conditions == [] then {true}
    else if conditions[|conditions| - 1].Active? then conditions[|conditions| - 1].values
    else ActiveValues(conditions[..|conditions| - 1])
  }

  /** A row without the flag (a transaction) counts as active. */
  predicate IsActive(r: Row, values: set<bool>) {
    (if r.active.Some? then r.active.value else true) in values
  }

  predicate DocsMatch(conditions: seq<Condition>, r: Row) {
    forall c :: c in conditions && c.DocNumber? ==> r.docNumber == Some(c.value)
  }

  predicate Matches(conditions: seq<Condition>, r: Row) {
    DocsMatch(conditions, r) && IsActive(r, ActiveValues(conditions))
  }

  function Matching(conditions: seq<Condition>): Row -> bool {
    r => Matches(conditions, r)
  }

  function Numbered(conditions: seq<Condition>): Row -> bool {
    r => DocsMatch(conditions, r)
  }

  function NumberedBy(value: string): Row -> bool {
    (r: Row) => r.docNumber == Some(value)
  }

  function Flagged(values: set<bool>): Row -> bool {
    r => IsActive(r, values)
  }

  function Keep(rows: seq<Row>, p: Row -> bool): seq<Row> {
    if rows == [] then []
    else if p(rows[0]) then [rows[0]] + Keep(rows[1..], p)
    else Keep(rows[1..], p)
  }

  /** The matching rows, in stored order. */
  function Select(conditions: seq<Condition>, rows: seq<Row>): seq<Row> {
    Keep(rows, Matching(conditions))
  }

  function Slice(rows: seq<Row>, start: nat, size: nat): seq<Row>
    requires start >= 1
  {
    if start - 1 >= |rows| then []
    else rows[start - 1..if start - 1 + size <= |rows| then start - 1 + size else |rows|]
  }

  /** The answer the documentation describes. */
  function Answer(entities: map<string, seq<Row>>, statement: string): Response {
    var plan := PlanOf(Clauses(statement));
    if plan.None? || plan.value.entity !in entities then Fault
    else
      var p := plan.value;
      if p.start < 1 || p.size < 1 || p.size > MAX_RESULTS_LIMIT then Fault
      else
        var page := Slice(Select(p.conditions, entities[p.entity]), p.start, p.size);
        if page == [] then NoRows else Page(p.entity, page, p.start, |page|)
  }

  // ----- the program: rows are filtered while the clauses are read -----

  lemma {:induction false} KeepTwice(rows: seq<Row>, p: Row -> bool, q: Row -> bool, both: Row -> bool)
    requires forall r :: both(r) <==> p(r) && q(r)
    ensures Keep(Keep(rows, p), q) == Keep(rows, both)
  {
    if rows != [] {
      KeepTwice(rows[1..], p, q, both);
      if p(rows[0]) {
        assert ([rows[0]] + Keep(rows[1..], p))[1..] == Keep(rows[1..], p);
      }
    }
  }

  lemma {:induction false} KeepAll(rows: seq<Row>, p: Row -> bool)
    requires forall r :: p(r)
    ensures Keep(rows, p) == rows
  {
    if rows != [] { KeepAll(rows[1..], p); }
  }

  lemma DocsMatchMore(conditions: seq<Condition>, c: Condition)
    ensures forall r :: DocsMatch(conditions + [c], r)
                        <==> (DocsMatch(conditions, r) && (c.DocNumber? ==> r.docNumber == Some(c.value)))
  {
    assert forall x :: x in conditions + [c] <==> x in conditions || x == c;
    assert c in conditions + [c];
  }

  /** Filtering by one more condition filters what the earlier ones left. */
  lemma DocsMore(rows: seq<Row>, conditions: seq<Condition>, c: Condition)
    ensures var before := Keep(rows, Numbered(conditions));
            Keep(rows, Numbered(conditions + [c]))
            == if c.DocNumber? then Keep(before, NumberedBy(c.value)) else before
  {
    DocsMatchMore(conditions, c);
    var p := Numbered(conditions);
    var q := (r: Row) => c.DocNumber? ==> r.docNumber == Some(c.value);
    var both := Numbered(conditions + [c]);
    KeepTwice(rows, p, q, both);
    if c.DocNumber? {
      KeepSame(Keep(rows, p), q, NumberedBy(c.value));
    } else {
      KeepAll(Keep(rows, p), q);
    }
  }

  lemma {:induction false} KeepSame(rows: seq<Row>, p: Row -> bool, q: Row -> bool)
    requires forall r :: p(r) <==> q(r)
    ensures Keep(rows, p) == Keep(rows, q)
  {
    if rows != [] { KeepSame(rows[1..], p, q); }
  }

  lemma SelectSplits(rows: seq<Row>, conditions: seq<Condition>, values: set<bool>)
    requires values == ActiveValues(conditions)
    ensures Select(conditions, rows) == Keep(Keep(rows, Numbered(conditions)), Flagged(values))
  {
    KeepTwice(rows, Numbered(conditions), Flagged(values), Matching(conditions));
  }

  lemma ActiveMore(conditions: seq<Condition>, c: Condition)
    ensures ActiveValues(conditions + [c]) == if c.Active? then c.values else ActiveValues(conditions)
  {
    assert (conditions + [c])[..|conditions|] == conditions;
  }

  method RunQuery(entities: map<string, seq<Row>>, statement: string) returns (response: Response)
    ensures response == Answer(entities, statement)
  {
    hide Words, Group, ReadPageTerm, ReadCondition, ReadEntity, Select, Keep, ActiveValues;
    var clauses := SplitClauses(statement);
    var entity := if clauses == [] then None else ReadEntity(clauses[0]);
    if entity.None? || entity.value !in entities {
      UnknownEntity(clauses, entities);
      return Fault;
    }
    var rows := entities[entity.value];
    var active := {true};
    var start: nat, size: nat := 1, DEFAULT_MAX_RESULTS;
    var inWhere := false;
    ghost var conditions: seq<Condition> := [];
    KeepAll(rows, Numbered(conditions));
    ActiveNone();
    var i := 1;
    while i < |clauses|
      invariant 1 <= i <= |clauses|
      invariant rows == Keep(entities[entity.value], Numbered(conditions))
      invariant active == ActiveValues(conditions)
      invariant PlanOf(clauses) == Interpret(clauses[i..], i == 1, inWhere, Plan(entity.value, conditions, start, size))
    {
      var clause := clauses[i];
      assert clauses[i..][1..] == clauses[i + 1..];
      if clause == "where" && i == 1 {
        inWhere := true;
      } else {
        var term := ReadPageTerm(clause);
        if term.Some? {
          match term.value {
            case StartPosition(n) => start := n;
            case MaxResults(n) => size := n;
          }
          inWhere := false;
        } else {
          var condition := if inWhere then ReadCondition(clause) else None;
          if condition.None? {
            return Fault;
          }
          DocsMore(entities[entity.value], conditions, condition.value);
          ActiveMore(conditions, condition.value);
          match condition.value {
            case Active(values) => active := values;
            case DocNumber(value) => rows := Keep(rows, NumberedBy(value));
          }
          conditions := conditions + [condition.value];
        }
      }
      i := i + 1;
    }
    assert clauses[i..] == [];
    SelectSplits(entities[entity.value], conditions, active);
    rows := Keep(rows, Flagged(active));
    if start < 1 || size < 1 || size > MAX_RESULTS_LIMIT {
      return Fault;
    }
    var page := Slice(rows, start, size);
    response := if page == [] then NoRows else Page(entity.value, page, start, |page|);
  }

  lemma ActiveNone()
    ensures ActiveValues([]) == {true}
  {
  }

  lemma {:induction false} InterpretKeepsEntity(clauses: seq<string>, first: bool, inWhere: bool, p: Plan)
    ensures var q := Interpret(clauses, first, inWhere, p); q.Some? ==> q.value.entity == p.entity
    decreases |clauses|
  {
    hide ReadPageTerm, ReadCondition;
    if clauses == [] {
    } else if clauses[0] == "where" && first {
      InterpretKeepsEntity(clauses[1..], false, true, p);
    } else {
      var term := ReadPageTerm(clauses[0]);
      if term.Some? {
        InterpretKeepsEntity(clauses[1..], false, false, SetPaging(p, term.value));
      } else if inWhere && ReadCondition(clauses[0]).Some? {
        InterpretKeepsEntity(clauses[1..], false, inWhere,
                             p.(conditions := p.conditions + [ReadCondition(clauses[0]).value]));
      }
    }
  }

  lemma UnknownEntity(clauses: seq<string>, entities: map<string, seq<Row>>)
    requires clauses == [] || ReadEntity(clauses[0]).None? || ReadEntity(clauses[0]).value !in entities
    ensures PlanOf(clauses).None? || PlanOf(clauses).value.entity !in entities
  {
    hide ReadEntity;
    if clauses != [] && ReadEntity(clauses[0]).Some? {
      InterpretKeepsEntity(clauses[1..], true, false, Plan(ReadEntity(clauses[0]).value, [], 1, DEFAULT_MAX_RESULTS));
    }
  }

  // ----- which statements are answered at all -----

  /** After the entity: nothing or a `where` with `k - 1` conditions, and then only paging terms. */
  predicate Shape(clauses: seq<string>, k: nat) {
    && k <= |clauses|
    && (k > 0 ==> clauses[0] == "where")
    && (forall i :: 0 < i < k ==> ReadPageTerm(clauses[i]).None? && ReadCondition(clauses[i]).Some?)
    && (forall i :: k <= i < |clauses| ==> ReadPageTerm(clauses[i]).Some?)
  }

  lemma {:induction false} OnlyTerms(clauses: seq<string>, p: Plan)
    ensures Interpret(clauses, false, false, p).Some?
            <==> forall i :: 0 <= i < |clauses| ==> ReadPageTerm(clauses[i]).Some?
    decreases |clauses|
  {
    hide ReadPageTerm, ReadCondition;
    if clauses != [] && ReadPageTerm(clauses[0]).Some? {
      OnlyTerms(clauses[1..], SetPaging(p, ReadPageTerm(clauses[0]).value));
      assert forall i :: 0 < i < |clauses| ==> clauses[i] == clauses[1..][i - 1];
    }
  }

  predicate ConditionsThenTerms(clauses: seq<string>, k: nat) {
    && k <= |clauses|
    && (forall i :: 0 <= i < k ==> ReadPageTerm(clauses[i]).None? && ReadCondition(clauses[i]).Some?)
    && (forall i :: k <= i < |clauses| ==> ReadPageTerm(clauses[i]).Some?)
  }

  lemma NeitherKind(clauses: seq<string>, k: nat)
    requires clauses != [] && ReadPageTerm(clauses[0]).None? && ReadCondition(clauses[0]).None?
    ensures !ConditionsThenTerms(clauses, k)
  {
    hide ReadPageTerm, ReadCondition;
  }

  lemma {:induction false} InsideWhere(clauses: seq<string>, p: Plan)
    ensures Interpret(clauses, false, true, p).Some? <==> exists k: nat :: ConditionsThenTerms(clauses, k)
    decreases |clauses|
  {
    hide ReadPageTerm, ReadCondition;
    if clauses == [] {
      assert ConditionsThenTerms(clauses, 0);
    } else {
      var tail := clauses[1..];
      assert forall i :: 0 < i < |clauses| ==> clauses[i] == tail[i - 1];
      if ReadPageTerm(clauses[0]).Some? {
        OnlyTerms(tail, SetPaging(p, ReadPageTerm(clauses[0]).value));
        if Interpret(clauses, false, true, p).Some? { assert ConditionsThenTerms(clauses, 0); }
        if k: nat :| ConditionsThenTerms(clauses, k) {
          assert forall i :: 0 <= i < |tail| ==> tail[i] == clauses[i + 1];
        }
      } else if ReadCondition(clauses[0]).Some? {
        InsideWhere(tail, p.(conditions := p.conditions + [ReadCondition(clauses[0]).value]));
        if k: nat :| ConditionsThenTerms(tail, k) { assert ConditionsThenTerms(clauses, k + 1); }
        if k: nat :| ConditionsThenTerms(clauses, k) {
          assert forall i :: 0 <= i < |tail| ==> tail[i] == clauses[i + 1];
          assert k > 0 && ConditionsThenTerms(tail, k - 1);
        }
      } else {
        forall k: nat ensures !ConditionsThenTerms(clauses, k) {
          NeitherKind(clauses, k);
        }
      }
    }
  }

  /** A statement is understood exactly when its first clause names an entity and the rest has that
      shape: an unknown clause, or a condition after a paging term, is never silently ignored. */
  lemma UnderstoodExactly(statement: string)
    ensures var clauses := Clauses(statement);
            PlanOf(clauses).Some?
            <==> (clauses != [] && ReadEntity(clauses[0]).Some? && exists k: nat :: Shape(clauses[1..], k))
  {
    hide ReadPageTerm, ReadCondition, ReadEntity, Clauses;
    var clauses := Clauses(statement);
    if clauses != [] && ReadEntity(clauses[0]).Some? {
      var rest := clauses[1..];
      var p := Plan(ReadEntity(clauses[0]).value, [], 1, DEFAULT_MAX_RESULTS);
      if rest != [] && rest[0] == "where" {
        var tail := rest[1..];
        InsideWhere(tail, p);
        WhereIsNoTerm();
        assert forall i :: 0 <= i < |tail| ==> tail[i] == rest[i + 1];
        assert forall i :: 0 < i < |rest| ==> rest[i] == tail[i - 1];
        if k: nat :| ConditionsThenTerms(tail, k) { assert Shape(rest, k + 1); }
        if k: nat :| Shape(rest, k) {
          assert k > 0 && ConditionsThenTerms(tail, k - 1);
        }
      } else {
        NotWhere(rest, p);
        if Interpret(rest, true, false, p).Some? { assert Shape(rest, 0); }
        if k: nat :| Shape(rest, k) { assert k == 0; }
      }
    }
  }

  lemma WhereIsNoTerm()
    ensures ReadPageTerm("where").None?
  {
    SplitWord("where", ' ', "");
  }

  lemma NotWhere(clauses: seq<string>, p: Plan)
    requires clauses == [] || clauses[0] != "where"
    ensures Interpret(clauses, true, false, p).Some?
            <==> forall i :: 0 <= i < |clauses| ==> ReadPageTerm(clauses[i]).Some?
  {
    hide ReadPageTerm, ReadCondition;
    OnlyTerms(clauses, p);
  }

  // ----- selection is exact -----

  /** The selected rows are exactly the matching ones, each as often as it is stored. */
  lemma {:induction false} SelectExact(conditions: seq<Condition>, rows: seq<Row>)
    ensures forall r :: multiset(Select(conditions, rows))[r] == if Matches(conditions, r) then multiset(rows)[r] else 0
  {
    if rows != [] {
      SelectExact(conditions, rows[1..]);
      assert rows == [rows[0]] + rows[1..];
      var head := if Matches(conditions, rows[0]) then [rows[0]] else [];
      assert Select(conditions, rows) == head + Select(conditions, rows[1..]);
    }
  }

  // ----- paging -----

  /** The rows of pages start, start + size, ... until a page is empty. */
  function Pages(rows: seq<Row>, start: nat, size: nat): seq<Row>
    requires start >= 1 && size >= 1
    decreases |rows| + size - start
  {
    if Slice(rows, start, size) == [] then [] else Slice(rows, start, size) + Pages(rows, start + size, size)
  }

  lemma {:induction false} PagesCover(rows: seq<Row>, start: nat, size: nat)
    requires start >= 1 && size >= 1
    ensures Pages(rows, start, size) == if start - 1 >= |rows| then [] else rows[start - 1..]
    decreases |rows| + size - start
  {
    if start - 1 < |rows| {
      PagesCover(rows, start + size, size);
    }
  }

  lemma {:induction false} InterpretPaging(clauses: seq<string>, first: bool, inWhere: bool, p: Plan,
                                           terms: seq<string>, start: nat, size: nat)
    requires |terms| == 2 && ReadPageTerm(terms[0]) == Some(StartPosition(start))
    requires ReadPageTerm(terms[1]) == Some(MaxResults(size)) && terms[0] != "where" && terms[1] != "where"
    ensures var q := Interpret(clauses, first, inWhere, p);
            Interpret(clauses + terms, first, inWhere, p)
            == if q.None? then None else Some(q.value.(start := start, size := size))
    decreases |clauses|
  {
    hide ReadPageTerm, ReadCondition;
    if clauses == [] {
      assert clauses + terms == terms;
      assert terms[1..][1..] == [];
      assert Interpret(terms, first, inWhere, p) == Interpret(terms[1..], false, false, p.(start := start));
    } else {
      assert (clauses + terms)[0] == clauses[0] && (clauses + terms)[1..] == clauses[1..] + terms;
      if clauses[0] == "where" && first {
        InterpretPaging(clauses[1..], false, true, p, terms, start, size);
      } else {
        var term := ReadPageTerm(clauses[0]);
        if term.Some? {
          InterpretPaging(clauses[1..], false, false, SetPaging(p, term.value), terms, start, size);
        } else if inWhere && ReadCondition(clauses[0]).Some? {
          InterpretPaging(clauses[1..], false, inWhere,
                          p.(conditions := p.conditions + [ReadCondition(clauses[0]).value]), terms, start, size);
        }
      }
    }
  }

  function PagingWords(start: nat, size: nat): seq<string> {
    ["STARTPOSITION", Numeral(start), "MAXRESULTS", Numeral(size)]
  }

  function PagingClauses(start: nat, size: nat): seq<string> {
    [Join(["STARTPOSITION", Numeral(start)], " "), Join(["MAXRESULTS", Numeral(size)], " ")]
  }

  /** The statement followed by the two paging terms. */
  function Paged(statement: string, start: nat, size: nat): string {
    statement + " " + Join(PagingWords(start, size), " ")
  }

  lemma {:induction false} DigitsAreWord(s: string)
    requires AllDigits(s)
    ensures InWord(s, Plain) && EndMode(s, Plain) == Plain && ' ' !in s && Lower(s) == s
  {
    if s != "" {
      assert AllDigits(s[1..]) && IsDigit(s[0]);
      DigitsAreWord(s[1..]);
      assert s == [s[0]] + s[1..];
      assert Lower(s)[0] == s[0] && Lower(s)[1..] == Lower(s[1..]);
    }
  }

  lemma {:induction false} LettersAreWord(s: string)
    requires s != "" && forall c :: c in s ==> 'A' <= c <= 'Z' || 'a' <= c <= 'z' || c == '*' || c == '='
    ensures Word(s) && EndMode(s, Plain) == Plain && ' ' !in s
  {
    assert s[0] in s && forall c :: c in s[1..] ==> c in s;
    if |s| > 1 {
      LettersAreWord(s[1..]);
    } else {
      assert s[1..] == "";
    }
  }

  lemma KeywordRoles(n: nat)
    ensures RoleOf("STARTPOSITION") == Paging && RoleOf("MAXRESULTS") == Paging && RoleOf(Numeral(n)) == Ordinary
    ensures Lower("STARTPOSITION") == "startposition" && Lower("MAXRESULTS") == "maxresults"
  {
    assert Lower("STARTPOSITION") == "startposition" && Lower("MAXRESULTS") == "maxresults";
    NumeralValue(n);
    DigitsAreWord(Numeral(n));
    assert "where"[0] == 'w' && "and"[0] == 'a' && "startposition"[0] == 's' && "maxresults"[0] == 'm';
    assert IsDigit(Numeral(n)[0]);
  }

  lemma TermReads(word: string, n: nat)
    requires word == "STARTPOSITION" || word == "MAXRESULTS"
    ensures ReadPageTerm(Join([word, Numeral(n)], " "))
            == Some(if word == "STARTPOSITION" then StartPosition(n) else MaxResults(n))
    ensures Join([word, Numeral(n)], " ") != "where"
  {
    hide Split, Lower, Value, Numeral, InWord, EndMode, RoleOf;
    var ws := [word, Numeral(n)];
    NumeralValue(n);
    DigitsAreWord(ws[1]);
    KeywordRoles(n);
    LettersAreWord(word);
    SplitOfJoin(ws, ' ');
    TermText(ws);
    assert "startposition"[0] != "maxresults"[0];
  }

  lemma TermText(ws: seq<string>)
    requires |ws| == 2 && ws[0] != "" && ws[0][0] != 'w'
    ensures Join(ws, " ") != "where"
  {
    JoinFirst(ws, " ", "");
    assert Join(ws, " ")[0] == ws[0][0] && "where"[0] == 'w';
  }

  lemma PagingGroups(start: nat, size: nat)
    ensures Group(PagingWords(start, size), []) == PagingClauses(start, size)
  {
    KeywordRoles(start);
    KeywordRoles(size);
    hide RoleOf, Join, Numeral;
    var a, b := ["STARTPOSITION", Numeral(start)], ["MAXRESULTS", Numeral(size)];
    assert PagingWords(start, size) == a + b;
    GroupAppend(a, [], b);
    OneTerm(a[0], a[1]);
    OneTerm(b[0], b[1]);
  }

  lemma OneTerm(a: string, s: string)
    requires RoleOf(a) == Paging && RoleOf(s) == Ordinary
    ensures Group([a, s], []) == [Join([a, s], " ")]
  {
    hide RoleOf, Join;
    assert [a, s][1..] == [s];
    GroupPlain([s], [a]);
    assert [a] + [s] == [a, s];
  }

  /** Appending paging terms to a statement that ends outside a literal changes the page asked
      for and nothing else. */
  lemma PagedPlan(statement: string, start: nat, size: nat)
    requires EndMode(statement, Plain).Plain?
    ensures var q := PlanOf(Clauses(statement));
            q.Some? ==> PlanOf(Clauses(Paged(statement, start, size))) == Some(q.value.(start := start, size := size))
  {
    PagedWords(statement, start, size);
    PagingGroups(start, size);
    TermReads("STARTPOSITION", start);
    TermReads("MAXRESULTS", size);
    KeywordRoles(start);
    hide Words, Group, ReadPageTerm, ReadCondition, ReadEntity, RoleOf, Join, Numeral;
    var terms := PagingClauses(start, size);
    GroupAppend(Words(statement), [], PagingWords(start, size));
    var clauses := Clauses(statement);
    assert Clauses(Paged(statement, start, size)) == clauses + terms;
    if clauses != [] {
      assert (clauses + terms)[0] == clauses[0] && (clauses + terms)[1..] == clauses[1..] + terms;
      var entity := ReadEntity(clauses[0]);
      if entity.Some? {
        InterpretPaging(clauses[1..], true, false, Plan(entity.value, [], 1, DEFAULT_MAX_RESULTS), terms, start, size);
      }
    }
  }

  lemma {:induction false} ScanThen(s: string, mode: Mode, word: string, rest: string)
    requires EndMode(s, mode).Plain? && rest != "" && IsSpace(rest[0])
    ensures Scan(s + rest, mode, word) == Scan(s, mode, word) + Words(rest)
    decreases |s|
  {
    if s == "" {
      assert s + rest == rest;
    } else {
      assert (s + rest)[0] == s[0] && (s + rest)[1..] == s[1..] + rest;
      if mode.Plain? && IsSpace(s[0]) {
        ScanThen(s[1..], Plain, "", rest);
      } else {
        ScanThen(s[1..], Advance(mode, s[0]), word + [s[0]], rest);
      }
    }
  }

  lemma PagedWords(statement: string, start: nat, size: nat)
    requires EndMode(statement, Plain).Plain?
    ensures Words(Paged(statement, start, size)) == Words(statement) + PagingWords(start, size)
  {
    var ws := PagingWords(start, size);
    PagingSentence(start, size);
    hide Join, Numeral, InWord, PagingWords;
    WordsOfSentence(ws, "");
    SpaceFirst("");
    assert ws + Words("") == ws;
    var tail := " " + Join(ws, " ");
    assert Paged(statement, start, size) == statement + tail;
    ScanThen(statement, Plain, "", tail);
    assert tail[1..] == Join(ws, " ") + "";
    SpaceFirst(tail);
  }

  lemma PagingSentence(start: nat, size: nat)
    ensures Sentence(PagingWords(start, size)) && |PagingWords(start, size)| == 4
  {
    hide InWord, EndMode, Numeral, Value, RoleOf, Lower;
    var ws := PagingWords(start, size);
    NumeralValue(start);
    NumeralValue(size);
    DigitsAreWord(ws[1]);
    DigitsAreWord(ws[3]);
    LettersAreWord(ws[0]);
    LettersAreWord(ws[2]);
    SentenceOf(ws);
  }

  /** Words that all end outside a literal. */
  lemma SentenceOf(ws: seq<string>)
    requires forall i :: 0 <= i < |ws| ==> Word(ws[i]) && EndMode(ws[i], Plain).Plain?
    ensures Sentence(ws)
  {
    hide Word, EndMode;
  }

  lemma SpaceFirst(t: string)
    ensures t == "" ==> Words(t) == []
    ensures t != "" && IsSpace(t[0]) ==> Words(t) == Words(t[1..])
  {
  }

  /** Pages 1, 1 + n, 1 + 2n, ... of a statement hold exactly its selected rows, in order, with
      nothing lost or repeated; each page is what the statement with those paging terms answers. */
  lemma PagesAreComplete(entities: map<string, seq<Row>>, statement: string, start: nat, size: nat)
    requires EndMode(statement, Plain).Plain? && 1 <= size <= MAX_RESULTS_LIMIT && start >= 1
    requires PlanOf(Clauses(statement)).Some? && PlanOf(Clauses(statement)).value.entity in entities
    ensures var p := PlanOf(Clauses(statement)).value;
            var rows := Select(p.conditions, entities[p.entity]);
            && Pages(rows, 1, size) == rows
            && Answer(entities, Paged(statement, start, size))
               == (if Slice(rows, start, size) == [] then NoRows
                   else Page(p.entity, Slice(rows, start, size), start, |Slice(rows, start, size)|))
  {
    var p := PlanOf(Clauses(statement)).value;
    PagedPlan(statement, start, size);
    hide Words, Group, Select;
    PagesCover(Select(p.conditions, entities[p.entity]), 1, size);
    var rows := Select(p.conditions, entities[p.entity]);
    assert rows[0..] == rows;
  }
}
