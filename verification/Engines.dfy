/** Database engines and the scopes that own them. A program is a tree of lookups, disposals and nested
    dispatch scopes; any of its steps may raise. */
module Engines {
  import opened Wrappers
  import Text

  /** `single` marks the one-connection engines a scope creates. */
  datatype Engine = Engine(id: nat, name: string, single: bool)

  /** A dict in insertion order. */
  datatype Entry = Entry(name: string, engine: Engine)

  datatype Event = Made(engine: Engine, inScope: bool) | Disposed(engine: Engine, byScope: bool)

  /** The two context variables, the module's cache, and everything created and disposed so far. */
  datatype State = State(control: Option<nat>, pool: Option<seq<Entry>>, cache: seq<Entry>, log: seq<Event>, next: nat)

  datatype Step =
    | Lookup(name: string)
    | Forget(name: string)
    | DisposeAll
    | Raise
    | Scope(maker: nat, passed: seq<Entry>, body: Program)

  datatype Program = Stop | Then(first: Step, rest: Program)

  datatype Outcome = Outcome(state: State, ok: bool)

  /** The control plane's own engine. */
  const CONTROL := Engine(0, "", false)

  // ----- the steps -----

  function Find(d: seq<Entry>, name: string): Option<Engine> {
    if d == [] then None
    else if d[0].name == name then Some(d[0].engine)
    else Find(d[1..], name)
  }

  function Without(d: seq<Entry>, name: string): seq<Entry> {
    if d == [] then []
    else if d[0].name == name then d[1..]
    else [d[0]] + Without(d[1..], name)
  }

  function Looked(s: State, name: string): (State, Engine) {
    var e := Engine(s.next, name, s.pool.Some?);
    var log := s.log + [Made(e, s.pool.Some?)];
    if s.pool.Some? then
      match Find(s.pool.value, name)
      case Some(found) => (s, found)
      case None => (s.(pool := Some(s.pool.value + [Entry(name, e)]), log := log, next := s.next + 1), e)
    else
      match Find(s.cache, name)
      case Some(found) => (s, found)
      case None => (s.(cache := s.cache + [Entry(name, e)], log := log, next := s.next + 1), e)
  }

  function Forgotten(s: State, name: string): State {
    match Find(s.cache, name)
    case None => s
    case Some(e) => s.(cache := Without(s.cache, name), log := s.log + [Disposed(e, false)])
  }

  /** Disposals of a dict's engines, in its order. */
  function Disposals(d: seq<Entry>, byScope: bool): seq<Event> {
    if d == [] then [] else [Disposed(d[0].engine, byScope)] + Disposals(d[1..], byScope)
  }

  /** The entries of a pool whose names were not passed in. */
  function Owned(d: seq<Entry>, passed: seq<Entry>): seq<Entry> {
    if d == [] then []
    else (if Find(passed, d[0].name) == None then [d[0]] else []) + Owned(d[1..], passed)
  }

  function AllDisposed(s: State): State {
    s.(cache := [], log := s.log + [Disposed(CONTROL, false)] + Disposals(s.cache, false))
  }

  function Entered(s: State, maker: nat, passed: seq<Entry>): State {
    s.(control := Some(maker), pool := Some(passed))
  }

  /** Leaving a scope: both variables as they were before it, then its own engines disposed. */
  function Left(before: State, inside: State, passed: seq<Entry>): State
    requires inside.pool.Some?
  {
    inside.(control := before.control, pool := before.pool,
            log := inside.log + Disposals(Owned(inside.pool.value, passed), true))
  }

  function Do(s: State, step: Step): (o: Outcome)
    ensures o.state.pool.Some? == s.pool.Some?
    decreases step
  {
    match step
    case Lookup(name) => Outcome(Looked(s, name).0, true)
    case Forget(name) => Outcome(Forgotten(s, name), true)
    case DisposeAll => Outcome(AllDisposed(s), true)
    case Raise => Outcome(s, false)
    case Scope(maker, passed, body) =>
      var o := Run(Entered(s, maker, passed), body);
      Outcome(Left(s, o.state, passed), o.ok)
  }

  function Run(s: State, p: Program): (o: Outcome)
    ensures o.state.pool.Some? == s.pool.Some?
    decreases p
  {
    match p
    case Stop => Outcome(s, true)
    case Then(first, rest) =>
      var o := Do(s, first);
      if o.ok then Run(o.state, rest) else o
  }

  lemma {:induction false} DisposalsAppend(a: seq<Entry>, b: seq<Entry>, byScope: bool)
    ensures Disposals(a + b, byScope) == Disposals(a, byScope) + Disposals(b, byScope)
  {
    if a == [] {
      assert a + b == b;
    } else {
      assert (a + b)[1..] == a[1..] + b;
      DisposalsAppend(a[1..], b, byScope);
    }
  }

  lemma DisposalsTake(d: seq<Entry>, i: nat, byScope: bool)
    requires i < |d|
    ensures Disposals(d[..i + 1], byScope) == Disposals(d[..i], byScope) + [Disposed(d[i].engine, byScope)]
  {
    assert d[..i + 1] == d[..i] + [d[i]];
    DisposalsAppend(d[..i], [d[i]], byScope);
  }

  lemma OwnedCons(e: Entry, rest: seq<Entry>, passed: seq<Entry>)
    ensures Owned([e] + rest, passed) == (if Find(passed, e.name) == None then [e] else []) + Owned(rest, passed)
  {
    hide Find;
    assert ([e] + rest)[1..] == rest;
  }

  lemma {:induction false} OwnedAppend(a: seq<Entry>, b: seq<Entry>, passed: seq<Entry>)
    ensures Owned(a + b, passed) == Owned(a, passed) + Owned(b, passed)
  {
    if a == [] {
      assert a + b == b;
    } else {
      hide Owned, Find;
      var e, rest := a[0], a[1..];
      OwnedAppend(rest, b, passed);
      OwnedCons(e, rest, passed);
      OwnedCons(e, rest + b, passed);
      assert a == [e] + rest && a + b == [e] + (rest + b);
      Text.Assoc(if Find(passed, e.name) == None then [e] else [], Owned(rest, passed), Owned(b, passed));
    }
  }

  lemma OwnedTake(d: seq<Entry>, i: nat, passed: seq<Entry>)
    requires i < |d|
    ensures Disposals(Owned(d[..i + 1], passed), true)
            == Disposals(Owned(d[..i], passed), true)
               + if Find(passed, d[i].name) == None then [Disposed(d[i].engine, true)] else []
  {
    assert d[..i + 1] == d[..i] + [d[i]];
    OwnedAppend(d[..i], [d[i]], passed);
    DisposalsAppend(Owned(d[..i], passed), Owned([d[i]], passed), true);
  }

  lemma DisposalsNone()
    ensures forall passed, d: seq<Entry> :: Disposals(Owned(d[..0], passed), true) == []
  {
  }

  // ----- the module, whose dicts and variables change in place -----

  class Pool {
    var entries: seq<Entry>

    constructor (entries: seq<Entry>)
      ensures this.entries == entries
    {
      this.entries := entries;
    }
  }

  class Database {
    var control: Option<nat>
    var pool: Pool?
    var cache: seq<Entry>
    var log: seq<Event>
    var next: nat

    constructor ()
      ensures Value() == State(None, None, [], [], 1)
    {
      control, pool, cache, log, next := None, null, [], [], 1;
    }

    function Value(): State
      reads this, pool
    {
      State(control, if pool == null then None else Some(pool.entries), cache, log, next)
    }

    method GetTenantEngine(name: string) returns (e: Engine)
      modifies this, pool
      ensures pool == old(pool)
      ensures (Value(), e) == Looked(old(Value()), name)
    {
      if pool != null {
        var found := Find(pool.entries, name);
        if found == None {
          e := Engine(next, name, true);
          pool.entries := pool.entries + [Entry(name, e)];
          log, next := log + [Made(e, true)], next + 1;
        } else {
          e := found.value;
        }
        return;
      }
      var found := Find(cache, name);
      if found == None {
        e := Engine(next, name, false);
        cache := cache + [Entry(name, e)];
        log, next := log + [Made(e, false)], next + 1;
      } else {
        e := found.value;
      }
    }

    method ForgetTenantEngine(name: string)
      modifies this`cache, this`log
      ensures Value() == Forgotten(old(Value()), name)
    {
      var engine := Find(cache, name);
      if engine != None {
        cache := Without(cache, name);
        log := log + [Disposed(engine.value, false)];
      }
    }

    method DisposeAllEngines()
      modifies this`cache, this`log
      ensures Value() == AllDisposed(old(Value()))
    {
      log := log + [Disposed(CONTROL, false)];
      ghost var start := log;
      var i := 0;
      while i < |cache|
        invariant 0 <= i <= |cache| && cache == old(cache)
        invariant log == start + Disposals(cache[..i], false)
      {
        DisposalsTake(cache, i, false);
        log := log + [Disposed(cache[i].engine, false)];
        i := i + 1;
      }
      assert cache[..i] == cache;
      cache := [];
    }

    /** Runs `body` inside a scope: a new pool is bound, and whether the body returns or raises, the old
        bindings come back and the pool's own engines are disposed. */
    method DispatchEngineScope(maker: nat, passed: seq<Entry>, body: Program) returns (ok: bool)
      modifies this, pool
      ensures pool == old(pool)
      ensures Outcome(Value(), ok) == Do(old(Value()), Scope(maker, passed, body))
      decreases Scope(maker, passed, body)
    {
      var own := new Pool(passed);
      var controlToken, poolToken := control, pool;
      control, pool := Some(maker), own;
      assert Value() == Entered(old(Value()), maker, passed);
      ok := Execute(body);
      ghost var inside := Value();
      assert poolToken != null ==> poolToken.entries == old(pool.entries);
      control, pool := controlToken, poolToken;
      DisposeOwned(own, passed);
      assert Value() == Left(old(Value()), inside, passed);
    }

    method DisposeOwned(own: Pool, passed: seq<Entry>)
      modifies this`log
      ensures log == old(log) + Disposals(Owned(own.entries, passed), true)
    {
      hide Disposals, Owned;
      var i := 0;
      DisposalsNone();
      while i < |own.entries|
        invariant 0 <= i <= |own.entries|
        invariant log == old(log) + Disposals(Owned(own.entries[..i], passed), true)
      {
        OwnedTake(own.entries, i, passed);
        if Find(passed, own.entries[i].name) == None {
          log := log + [Disposed(own.entries[i].engine, true)];
        }
        i := i + 1;
      }
      assert own.entries[..i] == own.entries;
    }

    method Execute(p: Program) returns (ok: bool)
      modifies this, pool
      ensures pool == old(pool)
      ensures Outcome(Value(), ok) == Run(old(Value()), p)
      decreases p
    {
      match p {
        case Stop => ok := true;
        case Then(first, rest) =>
          match first {
            case Lookup(name) => { var _ := GetTenantEngine(name); ok := true; }
            case Forget(name) => { ForgetTenantEngine(name); ok := true; }
            case DisposeAll => { DisposeAllEngines(); ok := true; }
            case Raise => { ok := false; }
            case Scope(maker, passed, body) => { ok := DispatchEngineScope(maker, passed, body); }
          }
          if ok { ok := Execute(rest); }
      }
    }
  }

  // ----- what every run keeps -----

  /** Engines made inside scopes, and engines disposed by scopes, in a stretch of the log. */
  function ScopeMade(log: seq<Event>): seq<Engine> {
    if log == [] then []
    else (if log[0].Made? && log[0].inScope then [log[0].engine] else []) + ScopeMade(log[1..])
  }

  function ScopeFreed(log: seq<Event>): seq<Engine> {
    if log == [] then []
    else (if log[0].Disposed? && log[0].byScope then [log[0].engine] else []) + ScopeFreed(log[1..])
  }

  function EnginesOf(d: seq<Entry>): seq<Engine> {
    if d == [] then [] else [d[0].engine] + EnginesOf(d[1..])
  }

  /** Engines new since `low`, each once. */
  predicate Fresh(made: seq<Engine>, low: nat, high: nat) {
    && (forall i :: 0 <= i < |made| ==> low <= made[i].id < high)
    && forall i, j :: 0 <= i < j < |made| ==> made[i].id < made[j].id
  }

  predicate Grown(s: State, t: State) {
    s.log <= t.log && s.next <= t.next
  }

  function Since(s: State, t: State): seq<Event>
    requires Grown(s, t)
  {
    t.log[|s.log|..]
  }

  /** The engines the scope in force still owns among those added to its pool. */
  function Held(s: State, t: State): seq<Engine>
    requires s.pool.Some? ==> t.pool.Some? && s.pool.value <= t.pool.value
  {
    if s.pool.None? then [] else EnginesOf(t.pool.value[|s.pool.value|..])
  }

  /** From `s` to `t` no binding moved; engines made in scopes are each new, and each has been disposed by a
      scope once, but for those the scope in force still holds; in a scope the module's cache got nothing. */
  predicate Kept(s: State, t: State) {
    && Grown(s, t)
    && t.control == s.control
    && t.pool.Some? == s.pool.Some?
    && (s.pool.Some? ==> s.pool.value <= t.pool.value)
    && Fresh(ScopeMade(Since(s, t)), s.next, t.next)
    && multiset(ScopeMade(Since(s, t))) == multiset(ScopeFreed(Since(s, t))) + multiset(Held(s, t))
    && (s.pool.Some? ==> forall e :: e in t.cache ==> e in s.cache)
  }

  lemma EventCons(e: Event, rest: seq<Event>)
    ensures ScopeMade([e] + rest) == (if e.Made? && e.inScope then [e.engine] else []) + ScopeMade(rest)
    ensures ScopeFreed([e] + rest) == (if e.Disposed? && e.byScope then [e.engine] else []) + ScopeFreed(rest)
  {
    assert ([e] + rest)[1..] == rest;
  }

  lemma {:induction false} OnlyMadeAppend(a: seq<Event>, b: seq<Event>)
    ensures ScopeMade(a + b) == ScopeMade(a) + ScopeMade(b)
  {
    if a == [] {
      assert a + b == b;
    } else {
      hide ScopeMade;
      var e, rest := a[0], a[1..];
      OnlyMadeAppend(rest, b);
      EventCons(e, rest);
      EventCons(e, rest + b);
      assert a == [e] + rest && a + b == [e] + (rest + b);
      Text.Assoc(if e.Made? && e.inScope then [e.engine] else [], ScopeMade(rest), ScopeMade(b));
    }
  }

  lemma {:induction false} OnlyFreedAppend(a: seq<Event>, b: seq<Event>)
    ensures ScopeFreed(a + b) == ScopeFreed(a) + ScopeFreed(b)
  {
    if a == [] {
      assert a + b == b;
    } else {
      hide ScopeFreed;
      var e, rest := a[0], a[1..];
      OnlyFreedAppend(rest, b);
      EventCons(e, rest);
      EventCons(e, rest + b);
      assert a == [e] + rest && a + b == [e] + (rest + b);
      Text.Assoc(if e.Disposed? && e.byScope then [e.engine] else [], ScopeFreed(rest), ScopeFreed(b));
    }
  }

  lemma MadeAppend(a: seq<Event>, b: seq<Event>)
    ensures ScopeMade(a + b) == ScopeMade(a) + ScopeMade(b)
    ensures ScopeFreed(a + b) == ScopeFreed(a) + ScopeFreed(b)
  {
    OnlyMadeAppend(a, b);
    OnlyFreedAppend(a, b);
  }

  lemma {:induction false} EnginesAppend(a: seq<Entry>, b: seq<Entry>)
    ensures EnginesOf(a + b) == EnginesOf(a) + EnginesOf(b)
  {
    if a == [] {
      assert a + b == b;
    } else {
      assert (a + b)[1..] == a[1..] + b;
      EnginesAppend(a[1..], b);
    }
  }

  lemma {:induction false} DisposalsFree(d: seq<Entry>, byScope: bool)
    ensures ScopeMade(Disposals(d, byScope)) == []
    ensures ScopeFreed(Disposals(d, byScope)) == if byScope then EnginesOf(d) else []
  {
    if d != [] {
      DisposalsFree(d[1..], byScope);
      var rest := Disposals(d[1..], byScope);
      assert Disposals(d, byScope)[1..] == rest;
    }
  }

  lemma SinceJoin(s: State, t: State, u: State)
    requires Grown(s, t) && Grown(t, u)
    ensures Grown(s, u) && Since(s, u) == Since(s, t) + Since(t, u)
  {
  }

  lemma HeldJoin(s: State, t: State, u: State)
    requires s.pool.Some? == t.pool.Some? == u.pool.Some?
    requires s.pool.Some? ==> s.pool.value <= t.pool.value <= u.pool.value
    ensures Held(s, u) == Held(s, t) + Held(t, u)
  {
    if s.pool.Some? {
      var a, b := t.pool.value[|s.pool.value|..], u.pool.value[|t.pool.value|..];
      assert u.pool.value[|s.pool.value|..] == a + b;
      EnginesAppend(a, b);
    }
  }

  lemma FreshJoin(a: seq<Engine>, b: seq<Engine>, low: nat, mid: nat, high: nat)
    requires Fresh(a, low, mid) && Fresh(b, mid, high) && low <= mid <= high
    ensures Fresh(a + b, low, high)
  {
  }

  /** `Kept` from the stretch of the log itself. */
  lemma KeptFrom(s: State, t: State, stretch: seq<Event>, held: seq<Engine>)
    requires t.log == s.log + stretch && s.next <= t.next && t.control == s.control
    requires t.pool.Some? == s.pool.Some? && (s.pool.Some? ==> s.pool.value <= t.pool.value)
    requires held == Held(s, t) && Fresh(ScopeMade(stretch), s.next, t.next)
    requires multiset(ScopeMade(stretch)) == multiset(ScopeFreed(stretch)) + multiset(held)
    requires s.pool.Some? ==> forall e :: e in t.cache ==> e in s.cache
    ensures Kept(s, t) && Since(s, t) == stretch
  {
    hide ScopeMade, ScopeFreed, Held, Fresh;
    assert t.log[|s.log|..] == stretch;
  }

  lemma KeptJoin(s: State, t: State, u: State)
    requires Kept(s, t) && Kept(t, u)
    ensures Kept(s, u)
  {
    SinceJoin(s, t, u);
    HeldJoin(s, t, u);
    MadeAppend(Since(s, t), Since(t, u));
    FreshJoin(ScopeMade(Since(s, t)), ScopeMade(Since(t, u)), s.next, t.next, u.next);
    hide ScopeMade, ScopeFreed, Held, Since, Fresh, Grown;
    var made, freed, held := ScopeMade(Since(s, t)), ScopeFreed(Since(s, t)), Held(s, t);
    Shuffle(made, freed, held, ScopeMade(Since(t, u)), ScopeFreed(Since(t, u)), Held(t, u));
  }

  lemma Shuffle(m: seq<Engine>, f: seq<Engine>, h: seq<Engine>, n: seq<Engine>, g: seq<Engine>, k: seq<Engine>)
    requires multiset(m) == multiset(f) + multiset(h) && multiset(n) == multiset(g) + multiset(k)
    ensures multiset(m + n) == multiset(f + g) + multiset(h + k)
  {
  }

  lemma OneEvent(e: Event)
    ensures ScopeMade([e]) == if e.Made? && e.inScope then [e.engine] else []
    ensures ScopeFreed([e]) == if e.Disposed? && e.byScope then [e.engine] else []
    ensures ScopeMade([]) == [] && ScopeFreed([]) == []
  {
    assert [e][1..] == [];
  }

  lemma HeldOne(s: State, t: State, more: seq<Entry>)
    requires s.pool.Some? == t.pool.Some?
    requires s.pool.Some? ==> t.pool == Some(s.pool.value + more)
    ensures Held(s, t) == if s.pool.None? then [] else EnginesOf(more)
    ensures EnginesOf([]) == []
    ensures forall e :: EnginesOf([e]) == [e.engine]
  {
    if s.pool.Some? { assert t.pool.value[|s.pool.value|..] == more; }
    forall e ensures EnginesOf([e]) == [e.engine] { assert [e][1..] == []; }
  }

  lemma HeldNone(s: State, t: State)
    requires t.pool == s.pool
    ensures Held(s, t) == []
  {
    if s.pool.Some? { assert t.pool.value[|s.pool.value|..] == []; }
  }

  lemma KeptSame(s: State)
    ensures Kept(s, s)
  {
    HeldNone(s, s);
    OneEvent(Disposed(CONTROL, false));
    KeptFrom(s, s, [], []);
  }

  lemma KeptLookup(s: State, name: string)
    ensures Kept(s, Looked(s, name).0)
  {
    var t, e := Looked(s, name).0, Looked(s, name).1;
    if t == s {
      KeptSame(s);
    } else {
      hide ScopeMade, ScopeFreed, Held, Kept, EnginesOf;
      OneEvent(Made(e, s.pool.Some?));
      HeldOne(s, t, [Entry(name, e)]);
      KeptFrom(s, t, [Made(e, s.pool.Some?)], if s.pool.Some? then [e] else []);
    }
  }

  lemma {:induction false} WithoutSubset(d: seq<Entry>, name: string)
    ensures forall e :: e in Without(d, name) ==> e in d
  {
    if d != [] && d[0].name != name { WithoutSubset(d[1..], name); }
  }

  lemma KeptForget(s: State, name: string)
    ensures Kept(s, Forgotten(s, name))
  {
    var t := Forgotten(s, name);
    if t == s {
      KeptSame(s);
    } else {
      WithoutSubset(s.cache, name);
      hide ScopeMade, ScopeFreed, Held, Kept, EnginesOf, Without;
      var gone := Disposed(Find(s.cache, name).value, false);
      OneEvent(gone);
      HeldNone(s, t);
      KeptFrom(s, t, [gone], []);
    }
  }

  lemma KeptDisposeAll(s: State)
    ensures Kept(s, AllDisposed(s))
  {
    hide ScopeMade, ScopeFreed, Held, Kept, EnginesOf, Disposals;
    var t := AllDisposed(s);
    var control := [Disposed(CONTROL, false)];
    OneEvent(control[0]);
    DisposalsFree(s.cache, false);
    MadeAppend(control, Disposals(s.cache, false));
    HeldNone(s, t);
    assert t.log == s.log + (control + Disposals(s.cache, false));
    KeptFrom(s, t, control + Disposals(s.cache, false), []);
  }

  // ----- scopes -----

  predicate Named(d: seq<Entry>, name: string) {
    exists i :: 0 <= i < |d| && d[i].name == name
  }

  lemma {:induction false} FindIs(d: seq<Entry>, name: string)
    ensures Find(d, name).Some? <==> Named(d, name)
    ensures Find(d, name).Some? ==> Entry(name, Find(d, name).value) in d
  {
    if d != [] {
      FindIs(d[1..], name);
      if d[0].name != name && Named(d, name) {
        var i :| 0 <= i < |d| && d[i].name == name;
        assert d[1..][i - 1] == d[i];
      }
      if d[0].name != name && Named(d[1..], name) {
        var i :| 0 <= i < |d[1..]| && d[1..][i].name == name;
        assert d[i + 1] == d[1..][i];
      }
    }
  }

  lemma {:induction false} FindExtended(d: seq<Entry>, more: seq<Entry>, name: string)
    requires Find(d, name).Some?
    ensures Find(d + more, name) == Find(d, name)
  {
    assert (d + more)[1..] == d[1..] + more;
    if d[0].name != name { FindExtended(d[1..], more, name); }
  }

  lemma {:induction false} OwnedSplits(d: seq<Entry>, passed: seq<Entry>)
    ensures (forall i :: 0 <= i < |d| ==> Named(passed, d[i].name)) ==> Owned(d, passed) == []
    ensures (forall i :: 0 <= i < |d| ==> !Named(passed, d[i].name)) ==> Owned(d, passed) == d
  {
    if d != [] {
      FindIs(passed, d[0].name);
      OwnedSplits(d[1..], passed);
      assert forall i :: 0 <= i < |d| - 1 ==> d[1..][i] == d[i + 1];
      assert d == [d[0]] + d[1..];
    }
  }

  /** Names added to a pool are not names it had. */
  predicate NewNames(d: seq<Entry>, more: seq<Entry>) {
    forall i :: 0 <= i < |more| ==> !Named(d, more[i].name)
  }

  /** What a scope owns at its exit is exactly what was added to the pool it began with. */
  lemma OwnedIsAdded(passed: seq<Entry>, more: seq<Entry>)
    requires NewNames(passed, more)
    ensures Owned(passed + more, passed) == more
  {
    OwnedAppend(passed, more, passed);
    OwnedSplits(passed, passed);
    OwnedSplits(more, passed);
  }

  /** How a run leaves the pool in force: grown by new names. */
  predicate PoolGrows(s: State, t: State) {
    s.pool.Some? ==>
      t.pool.Some? && s.pool.value <= t.pool.value && NewNames(s.pool.value, t.pool.value[|s.pool.value|..])
  }

  lemma NamedMore(d: seq<Entry>, m: seq<Entry>, name: string)
    requires d <= m
    ensures Named(d, name) ==> Named(m, name)
  {
    if Named(d, name) {
      var k :| 0 <= k < |d| && d[k].name == name;
      assert m[k] == d[k];
    }
  }

  lemma PoolGrowsJoin(s: State, t: State, u: State)
    requires PoolGrows(s, t) && PoolGrows(t, u) && s.pool.Some? == t.pool.Some?
    ensures PoolGrows(s, u)
  {
    if s.pool.Some? {
      var d, m, n := s.pool.value, t.pool.value, u.pool.value;
      var a, b := m[|d|..], n[|m|..];
      assert n[|d|..] == a + b;
      forall i | 0 <= i < |b| ensures !Named(d, b[i].name) {
        NamedMore(d, m, b[i].name);
      }
      hide Named;
    }
  }

  /** Every run keeps the bindings, adds only new names to the pool in force, and has every engine a
      scope made disposed by a scope exactly once, but for those its own scope still holds. */
  lemma {:induction false} RunKeeps(s: State, p: Program)
    ensures var t := Run(s, p).state; Kept(s, t) && PoolGrows(s, t)
    decreases p
  {
    match p
    case Stop => KeptSame(s);
    case Then(first, rest) =>
      StepKeeps(s, first);
      var o := Do(s, first);
      if o.ok {
        RunKeeps(o.state, rest);
        var t := Run(o.state, rest).state;
        hide Kept, PoolGrows;
        KeptJoin(s, o.state, t);
        PoolPresent(s, first);
        PoolGrowsJoin(s, o.state, t);
      }
  }

  lemma PoolPresent(s: State, step: Step)
    ensures Do(s, step).state.pool.Some? == s.pool.Some?
  {
  }

  lemma {:induction false} StepKeeps(s: State, step: Step)
    ensures var t := Do(s, step).state; Kept(s, t) && PoolGrows(s, t)
    decreases step
  {
    match step
    case Lookup(name) => KeptLookup(s, name); LookupGrows(s, name);
    case Forget(name) => KeptForget(s, name);
    case DisposeAll => KeptDisposeAll(s);
    case Raise => KeptSame(s);
    case Scope(maker, passed, body) =>
      RunKeeps(Entered(s, maker, passed), body);
      ScopeLeaves(s, maker, passed, Run(Entered(s, maker, passed), body).state);
  }

  lemma LookupGrows(s: State, name: string)
    ensures PoolGrows(s, Looked(s, name).0)
  {
    if s.pool.Some? { FindIs(s.pool.value, name); }
  }

  /** Leaving a scope disposes exactly what it held. */
  lemma ScopeLeaves(s: State, maker: nat, passed: seq<Entry>, inside: State)
    requires inside.pool.Some?
    requires Kept(Entered(s, maker, passed), inside) && PoolGrows(Entered(s, maker, passed), inside)
    ensures var t := Left(s, inside, passed);
            && Kept(s, t) && PoolGrows(s, t)
            && passed <= inside.pool.value
            && t.control == s.control && t.pool == s.pool
            && t.log == inside.log + Disposals(inside.pool.value[|passed|..], true)
            && multiset(ScopeMade(Since(s, t))) == multiset(ScopeFreed(Since(s, t)))
            && (forall e :: e in t.cache ==> e in s.cache)
  {
    hide ScopeMade, ScopeFreed, Owned, Disposals, EnginesOf, Fresh, NewNames;
    var e, t := Entered(s, maker, passed), Left(s, inside, passed);
    var more := inside.pool.value[|passed|..];
    assert inside.pool.value == passed + more;
    OwnedIsAdded(passed, more);
    var body, exit := Since(e, inside), Disposals(more, true);
    DisposalsFree(more, true);
    MadeAppend(body, exit);
    assert t.log == s.log + (body + exit);
    assert Held(e, inside) == EnginesOf(more);
    assert ScopeMade(body + exit) == ScopeMade(body);
    HeldNone(s, t);
    NoNewNames(s, t);
    hide Held, Kept, PoolGrows;
    KeptFrom(s, t, body + exit, []);
  }

  lemma NoNewNames(s: State, t: State)
    requires t.pool == s.pool
    ensures PoolGrows(s, t)
  {
  }

  lemma {:induction false} FreshOnce(made: seq<Engine>, low: nat, high: nat, e: Engine)
    requires Fresh(made, low, high)
    ensures multiset(made)[e] <= 1 && (e.id < low ==> e !in made)
  {
    if made != [] {
      var last := |made| - 1;
      FreshOnce(made[..last], low, made[last].id, e);
      assert made == made[..last] + [made[last]];
    }
  }

  /** What `Kept` says of each engine. */
  lemma KeptCounts(s: State, t: State, e: Engine)
    requires Kept(s, t)
    ensures multiset(ScopeFreed(Since(s, t)))[e] <= multiset(ScopeMade(Since(s, t)))[e] <= 1
    ensures e.id < s.next ==> e !in ScopeFreed(Since(s, t))
    ensures e in Held(s, t) ==> e !in ScopeFreed(Since(s, t))
  {
    var made, freed, held := ScopeMade(Since(s, t)), ScopeFreed(Since(s, t)), Held(s, t);
    FreshOnce(made, s.next, t.next, e);
    hide ScopeMade, ScopeFreed, Held, Fresh, Since;
    assert multiset(made)[e] == multiset(freed)[e] + multiset(held)[e];
    assert e.id < s.next ==> multiset(made)[e] == 0;
  }

  /** Whatever runs in a scope, and whether it returns or raises: at its exit both bindings are as before
      it, and it disposes, in order, exactly the engines it added to the pool it was given. */
  lemma ScopeRestores(s: State, maker: nat, passed: seq<Entry>, body: Program)
    ensures var inside := Run(Entered(s, maker, passed), body).state;
            var t := Do(s, Scope(maker, passed, body)).state;
            && inside.control == Some(maker) && inside.pool.Some? && passed <= inside.pool.value
            && t.control == s.control && t.pool == s.pool
            && t.log == inside.log + Disposals(inside.pool.value[|passed|..], true)
            && Kept(Entered(s, maker, passed), inside) && Kept(s, t)
            && multiset(ScopeMade(Since(s, t))) == multiset(ScopeFreed(Since(s, t)))
            && (forall e :: e in t.cache ==> e in s.cache)
  {
    var start := Entered(s, maker, passed);
    RunKeeps(start, body);
    var inside := Run(start, body).state;
    assert Do(s, Scope(maker, passed, body)).state == Left(s, inside, passed);
    assert inside.control == start.control == Some(maker);
    hide *;
    ScopeLeaves(s, maker, passed, inside);
  }

  /** Whether something in the program raises, at any depth. */
  predicate Raises(p: Program) {
    p.Then? && (p.first.Raise? || (p.first.Scope? && Raises(p.first.body)) || Raises(p.rest))
  }

  function Followed(p: Program, q: Program): Program {
    match p
    case Stop => q
    case Then(first, rest) => Then(first, Followed(rest, q))
  }

  /** What raises in a scope is raised by it, after its cleanup: a run ends well exactly when nothing in it raises,
      and what follows runs exactly then, from where it ended. */
  lemma {:induction false} RunRaises(s: State, p: Program, q: Program)
    ensures Run(s, p).ok <==> !Raises(p)
    ensures Run(s, Followed(p, q)) == if Raises(p) then Run(s, p) else Run(Run(s, p).state, q)
    decreases p
  {
    if p.Then? {
      var first := p.first;
      if first.Scope? { RunRaises(Entered(s, first.maker, first.passed), first.body, Stop); }
      if Do(s, first).ok { RunRaises(Do(s, first).state, p.rest, q); }
    }
  }

  /** The engines a scope disposes at its exit had not been disposed by any scope before; every engine made
      under it has at its exit been disposed by a scope exactly once; and no engine that existed
      before it, passed in or cached, has been disposed by it or by a scope below it. */
  lemma ScopeBalances(s: State, maker: nat, passed: seq<Entry>, body: Program, e: Engine)
    ensures var start := Entered(s, maker, passed);
            var inside := Run(start, body).state;
            var t := Do(s, Scope(maker, passed, body)).state;
            && Grown(start, inside) && Grown(s, t) && inside.pool.Some? && passed <= inside.pool.value
            && (e in EnginesOf(inside.pool.value[|passed|..]) ==> e !in ScopeFreed(Since(start, inside)))
            && multiset(ScopeFreed(Since(s, t)))[e] == multiset(ScopeMade(Since(s, t)))[e] <= 1
            && (e.id < s.next ==> e !in ScopeFreed(Since(s, t)))
  {
    ScopeRestores(s, maker, passed, body);
    var start := Entered(s, maker, passed);
    var inside := Run(start, body).state;
    var t := Do(s, Scope(maker, passed, body)).state;
    assert Held(start, inside) == EnginesOf(inside.pool.value[|passed|..]);
    hide Run, Do, Disposals, ScopeMade, ScopeFreed, EnginesOf, Held;
    KeptCounts(start, inside, e);
    KeptCounts(s, t, e);
  }

  /** Cached engines all exist already, after any run at all: so no scope disposes one. */
  predicate Aged(s: State) {
    forall i :: 0 <= i < |s.cache| ==> s.cache[i].engine.id < s.next
  }

  lemma {:induction false} RunsAge(s: State, p: Program)
    requires Aged(s)
    ensures Aged(Run(s, p).state) && s.next <= Run(s, p).state.next
    decreases p
  {
    if p.Then? {
      StepsAge(s, p.first);
      if Do(s, p.first).ok { RunsAge(Do(s, p.first).state, p.rest); }
    }
  }

  lemma {:induction false} StepsAge(s: State, step: Step)
    requires Aged(s)
    ensures Aged(Do(s, step).state) && s.next <= Do(s, step).state.next
    decreases step
  {
    match step
    case Forget(name) =>
      WithoutSubset(s.cache, name);
      var rest := Forgotten(s, name).cache;
      assert forall i :: 0 <= i < |rest| ==> rest[i] in s.cache;
    case Scope(maker, passed, body) => RunsAge(Entered(s, maker, passed), body);
    case _ =>
  }

  /** No scope disposes an engine of the module's cache. */
  lemma CachedSurviveScopes(s: State, maker: nat, passed: seq<Entry>, body: Program, name: string)
    requires Aged(s) && Find(s.cache, name).Some?
    ensures var t := Do(s, Scope(maker, passed, body)).state;
            Grown(s, t) && Find(s.cache, name).value !in ScopeFreed(Since(s, t))
  {
    FindIs(s.cache, name);
    ScopeBalances(s, maker, passed, body, Find(s.cache, name).value);
  }

  // ----- lookups -----

  /** In a scope a name means one engine: whatever runs in between, a second lookup changes nothing and
      returns what the first returned. */
  lemma LookupStable(s: State, name: string, p: Program)
    requires s.pool.Some?
    ensures var (first, e) := Looked(s, name);
            var later := Run(first, p).state;
            Looked(later, name) == (later, e)
  {
    var first, e := Looked(s, name).0, Looked(s, name).1;
    LookedIsFound(s, name);
    RunKeeps(first, p);
    var later := Run(first, p).state;
    FoundLater(first.pool.value, later.pool.value, name);
    hide Run, Find, Kept, PoolGrows;
  }

  lemma FoundLater(d: seq<Entry>, m: seq<Entry>, name: string)
    requires d <= m && Find(d, name).Some?
    ensures Find(m, name) == Find(d, name)
  {
    assert m == d + m[|d|..];
    FindExtended(d, m[|d|..], name);
  }

  lemma LookedIsFound(s: State, name: string)
    requires s.pool.Some?
    ensures var (t, e) := Looked(s, name); t.pool.Some? && Find(t.pool.value, name) == Some(e)
  {
    if Find(s.pool.value, name).None? { FindLast(s.pool.value, name, Looked(s, name).1); }
  }

  lemma {:induction false} FindLast(d: seq<Entry>, name: string, e: Engine)
    requires Find(d, name).None?
    ensures Find(d + [Entry(name, e)], name) == Some(e)
  {
    if d != [] {
      assert (d + [Entry(name, e)])[1..] == d[1..] + [Entry(name, e)];
      FindLast(d[1..], name, e);
    }
  }

  /** Nothing in the program forgets or disposes cached engines. */
  predicate Quiet(p: Program) {
    p.Then? ==>
      && !p.first.Forget? && !p.first.DisposeAll?
      && (p.first.Scope? ==> Quiet(p.first.body))
      && Quiet(p.rest)
  }

  /** Lookups in a scope, and in the scopes below it, never touch the module's cache. */
  lemma {:induction false} ScopedLookupsSpareCache(s: State, p: Program)
    requires s.pool.Some? && Quiet(p)
    ensures Run(s, p).state.cache == s.cache
    decreases p
  {
    if p.Then? {
      if p.first.Scope? { ScopedLookupsSpareCache(Entered(s, p.first.maker, p.first.passed), p.first.body); }
      var o := Do(s, p.first);
      if o.ok { ScopedLookupsSpareCache(o.state, p.rest); }
    }
  }

  // ----- the module's cache -----

  /** Nothing in the program, at any depth, forgets this name or disposes everything. */
  predicate Leaves(p: Program, name: string) {
    p.Then? ==>
      && p.first != Forget(name) && !p.first.DisposeAll?
      && (p.first.Scope? ==> Leaves(p.first.body, name))
      && Leaves(p.rest, name)
  }

  lemma {:induction false} FindWithout(d: seq<Entry>, gone: string, name: string)
    requires gone != name
    ensures Find(Without(d, gone), name) == Find(d, name)
  {
    if d != [] && d[0].name != gone {
      FindWithout(d[1..], gone, name);
      assert Without(d, gone)[1..] == Without(d[1..], gone);
    }
  }

  lemma {:induction false} CachedStays(s: State, p: Program, name: string, e: Engine)
    requires Find(s.cache, name) == Some(e) && Leaves(p, name)
    ensures Find(Run(s, p).state.cache, name) == Some(e)
    decreases p
  {
    if p.Then? {
      CachedStaysStep(s, p.first, name, e);
      var o := Do(s, p.first);
      if o.ok { CachedStays(o.state, p.rest, name, e); }
    }
  }

  lemma {:induction false} CachedStaysStep(s: State, step: Step, name: string, e: Engine)
    requires Find(s.cache, name) == Some(e)
    requires step != Forget(name) && !step.DisposeAll? && (step.Scope? ==> Leaves(step.body, name))
    ensures Find(Do(s, step).state.cache, name) == Some(e)
    decreases step
  {
    match step
    case Lookup(n) =>
      if s.pool.None? && Find(s.cache, n).None? { FindExtended(s.cache, [Entry(n, Looked(s, n).1)], name); }
    case Forget(n) => FindWithout(s.cache, n, name);
    case Scope(maker, passed, body) => CachedStays(Entered(s, maker, passed), body, name, e);
    case _ =>
  }

  /** Outside scopes a name means one engine too: the first lookup leaves it in the cache, and until something
      forgets that name or disposes everything, at whatever depth, another lookup returns it and changes
      nothing. */
  lemma CachedLookupStable(s: State, name: string, p: Program)
    requires s.pool.None? && Leaves(p, name)
    ensures var (first, e) := Looked(s, name);
            var later := Run(first, p).state;
            && Find(first.cache, name) == Some(e) && Find(later.cache, name) == Some(e)
            && Looked(later, name) == (later, e)
  {
    var first, e := Looked(s, name).0, Looked(s, name).1;
    if Find(s.cache, name).None? { FindLast(s.cache, name, e); }
    CachedStays(first, p, name, e);
  }

  /** A dict has one entry a name. */
  predicate Unique(d: seq<Entry>) {
    forall i, j :: 0 <= i < j < |d| ==> d[i].name != d[j].name
  }

  lemma {:induction false} WithoutUnique(d: seq<Entry>, name: string)
    requires Unique(d)
    ensures Unique(Without(d, name)) && Find(Without(d, name), name).None?
    ensures forall e :: e in Without(d, name) <==> e in d && e.name != name
  {
    if d == [] {
    } else if d[0].name == name {
      FindIs(d[1..], name);
      forall i | 0 <= i < |d[1..]| ensures d[1..][i].name != name {
        assert d[1..][i] == d[i + 1];
      }
      assert d == [d[0]] + d[1..];
    } else {
      var rest := Without(d[1..], name);
      WithoutUnique(d[1..], name);
      assert d == [d[0]] + d[1..];
      forall i | 0 <= i < |rest| ensures rest[i].name != d[0].name {
        assert rest[i] in d[1..];
      }
      assert ([d[0]] + rest)[1..] == rest;
    }
  }

  /** The cache keeps one entry a name, over every run. */
  lemma {:induction false} RunsUnique(s: State, p: Program)
    requires Unique(s.cache)
    ensures Unique(Run(s, p).state.cache)
    decreases p
  {
    if p.Then? {
      StepsUnique(s, p.first);
      var o := Do(s, p.first);
      if o.ok { RunsUnique(o.state, p.rest); }
    }
  }

  lemma {:induction false} StepsUnique(s: State, step: Step)
    requires Unique(s.cache)
    ensures Unique(Do(s, step).state.cache)
    decreases step
  {
    match step
    case Lookup(name) => FindIs(s.cache, name);
    case Forget(name) => WithoutUnique(s.cache, name);
    case Scope(maker, passed, body) => RunsUnique(Entered(s, maker, passed), body);
    case _ =>
  }

  /** After a name is forgotten, or everything disposed, the next lookup makes a new engine: for that name, with
      a full pool. Forgetting leaves every other name as it was. */
  lemma ForgottenIsMadeAnew(s: State, name: string, other: string)
    requires s.pool.None? && Unique(s.cache) && Aged(s)
    ensures var forgotten, disposed := Forgotten(s, name), AllDisposed(s);
            && Looked(forgotten, name).1 == Looked(disposed, name).1 == Engine(s.next, name, false)
            && (forall e :: e in s.cache ==> e.engine.id != s.next)
            && (other != name ==> Find(forgotten.cache, other) == Find(s.cache, other))
            && Find(disposed.cache, other).None?
  {
    WithoutUnique(s.cache, name);
    FindIs(s.cache, name);
    if other != name { FindWithout(s.cache, name, other); }
    if Find(s.cache, name).None? { assert Forgotten(s, name) == s; }
    assert forall e :: e in s.cache ==> exists i :: 0 <= i < |s.cache| && s.cache[i] == e;
  }

  // ----- what is made outside scopes -----

  function CacheMade(log: seq<Event>): seq<Engine> {
    if log == [] then []
    else (if log[0].Made? && !log[0].inScope then [log[0].engine] else []) + CacheMade(log[1..])
  }

  /** Engines disposed by forgetting or by disposing everything, the control plane's own aside. */
  function CacheFreed(log: seq<Event>): seq<Engine> {
    if log == [] then []
    else
      (if log[0].Disposed? && !log[0].byScope && log[0].engine != CONTROL then [log[0].engine] else [])
      + CacheFreed(log[1..])
  }

  lemma CacheCons(e: Event, rest: seq<Event>)
    ensures CacheMade([e] + rest) == (if e.Made? && !e.inScope then [e.engine] else []) + CacheMade(rest)
    ensures CacheFreed([e] + rest)
            == (if e.Disposed? && !e.byScope && e.engine != CONTROL then [e.engine] else []) + CacheFreed(rest)
  {
    assert ([e] + rest)[1..] == rest;
  }

  lemma {:induction false} CacheAppend(a: seq<Event>, b: seq<Event>)
    ensures CacheMade(a + b) == CacheMade(a) + CacheMade(b)
    ensures CacheFreed(a + b) == CacheFreed(a) + CacheFreed(b)
  {
    if a == [] {
      assert a + b == b;
    } else {
      hide CacheMade, CacheFreed;
      var e, rest := a[0], a[1..];
      CacheAppend(rest, b);
      CacheCons(e, rest);
      CacheCons(e, rest + b);
      assert a == [e] + rest && a + b == [e] + (rest + b);
      Text.Assoc(if e.Made? && !e.inScope then [e.engine] else [], CacheMade(rest), CacheMade(b));
      Text.Assoc(if e.Disposed? && !e.byScope && e.engine != CONTROL then [e.engine] else [],
                 CacheFreed(rest), CacheFreed(b));
    }
  }

  lemma {:induction false} DisposalsOfCache(d: seq<Entry>, byScope: bool)
    requires byScope || forall e :: e in d ==> e.engine != CONTROL
    ensures CacheMade(Disposals(d, byScope)) == []
    ensures CacheFreed(Disposals(d, byScope)) == if byScope then [] else EnginesOf(d)
  {
    if d != [] {
      DisposalsOfCache(d[1..], byScope);
      CacheCons(Disposed(d[0].engine, byScope), Disposals(d[1..], byScope));
      assert d[0] in d;
    }
  }

  /** The cache never holds the control plane's own engine. */
  predicate Numbered(s: State) {
    s.next > 0 && forall e :: e in s.cache ==> e.engine.id > 0
  }

  /** What there was with what was made is what is left with what was freed. */
  ghost predicate Even(before: seq<Engine>, made: seq<Engine>, freed: seq<Engine>, after: seq<Engine>) {
    multiset(before) + multiset(made) == multiset(freed) + multiset(after)
  }

  lemma EvenJoin(a: seq<Engine>, m: seq<Engine>, f: seq<Engine>, b: seq<Engine>, n: seq<Engine>, g: seq<Engine>,
                 c: seq<Engine>)
    requires Even(a, m, f, b) && Even(b, n, g, c)
    ensures Even(a, m + n, f + g, c)
  {
    assert multiset(m + n) == multiset(m) + multiset(n) && multiset(f + g) == multiset(f) + multiset(g);
    forall e ensures (multiset(a) + multiset(m + n))[e] == (multiset(f + g) + multiset(c))[e] {
      assert (multiset(a) + multiset(m))[e] == (multiset(f) + multiset(b))[e];
      assert (multiset(b) + multiset(n))[e] == (multiset(g) + multiset(c))[e];
    }
  }

  /** From `s` to `t`, what was cached with what was made outside scopes is what has been disposed with what is
      cached. */
  ghost predicate CacheBalances(s: State, t: State) {
    && Grown(s, t) && Numbered(t)
    && Even(EnginesOf(s.cache), CacheMade(Since(s, t)), CacheFreed(Since(s, t)), EnginesOf(t.cache))
  }

  lemma CacheBalancesFrom(s: State, t: State, stretch: seq<Event>)
    requires t.log == s.log + stretch && s.next <= t.next && Numbered(t)
    requires Even(EnginesOf(s.cache), CacheMade(stretch), CacheFreed(stretch), EnginesOf(t.cache))
    ensures CacheBalances(s, t)
  {
    hide CacheMade, CacheFreed, EnginesOf, Numbered, Even;
    assert t.log[|s.log|..] == stretch;
  }

  lemma CacheBalancesJoin(s: State, t: State, u: State)
    requires CacheBalances(s, t) && CacheBalances(t, u)
    ensures CacheBalances(s, u)
  {
    SinceJoin(s, t, u);
    CacheAppend(Since(s, t), Since(t, u));
    hide CacheMade, CacheFreed, EnginesOf, Since, Grown, Numbered, Even;
    EvenJoin(EnginesOf(s.cache), CacheMade(Since(s, t)), CacheFreed(Since(s, t)), EnginesOf(t.cache),
             CacheMade(Since(t, u)), CacheFreed(Since(t, u)), EnginesOf(u.cache));
  }

  lemma NoCacheEvents()
    ensures CacheMade([]) == [] && CacheFreed([]) == [] && EnginesOf([]) == []
  {
  }

  lemma {:induction false} WithoutOne(d: seq<Entry>, name: string)
    requires Find(d, name).Some?
    ensures multiset(EnginesOf(d)) == multiset(EnginesOf(Without(d, name))) + multiset{Find(d, name).value}
  {
    if d[0].name != name {
      WithoutOne(d[1..], name);
      assert Without(d, name)[1..] == Without(d[1..], name) && Without(d, name)[0] == d[0];
    }
  }

  lemma OneCacheEvent(e: Event)
    ensures CacheMade([e]) == if e.Made? && !e.inScope then [e.engine] else []
    ensures CacheFreed([e]) == if e.Disposed? && !e.byScope && e.engine != CONTROL then [e.engine] else []
  {
    NoCacheEvents();
    CacheCons(e, []);
    assert [e] + [] == [e];
  }

  lemma LookupBalances(s: State, name: string)
    requires Numbered(s)
    ensures CacheBalances(s, Looked(s, name).0)
  {
    var t, e := Looked(s, name).0, Looked(s, name).1;
    if t == s {
      LookupNothing(s);
    } else {
      var event := Made(e, s.pool.Some?);
      OneCacheEvent(event);
      EnginesAppend(s.cache, [Entry(name, e)]);
      OneEngine(Entry(name, e));
      hide CacheMade, CacheFreed, EnginesOf, CacheBalances, Find;
      CacheBalancesFrom(s, t, [event]);
    }
  }

  lemma OneEngine(e: Entry)
    ensures EnginesOf([e]) == [e.engine]
  {
    assert [e][1..] == [];
  }

  lemma ForgetBalances(s: State, name: string)
    requires Numbered(s)
    ensures CacheBalances(s, Forgotten(s, name))
  {
    var t := Forgotten(s, name);
    if Find(s.cache, name).None? {
      LookupNothing(s);
    } else {
      var e := Find(s.cache, name).value;
      FindIs(s.cache, name);
      WithoutOne(s.cache, name);
      WithoutSubset(s.cache, name);
      OneCacheEvent(Disposed(e, false));
      hide CacheMade, CacheFreed, EnginesOf, Without, Find, CacheBalances;
      CacheBalancesFrom(s, t, [Disposed(e, false)]);
    }
  }

  /** Disposing everything disposes the control plane's engine and each cached one, and nothing else. */
  lemma DisposeAllBalances(s: State)
    requires Numbered(s)
    ensures CacheBalances(s, AllDisposed(s)) && AllDisposed(s).cache == []
    ensures CacheFreed(Since(s, AllDisposed(s))) == EnginesOf(s.cache)
    ensures Disposed(CONTROL, false) in Since(s, AllDisposed(s))
  {
    var t, stretch := AllDisposed(s), [Disposed(CONTROL, false)] + Disposals(s.cache, false);
    DisposalsOfCache(s.cache, false);
    CacheCons(Disposed(CONTROL, false), Disposals(s.cache, false));
    NoCacheEvents();
    AllDisposedLog(s);
    hide CacheMade, CacheFreed, EnginesOf, Disposals, Since;
    CacheBalancesFrom(s, t, stretch);
    hide CacheBalances;
    assert stretch[0] in stretch;
  }

  lemma AllDisposedLog(s: State)
    ensures var stretch := [Disposed(CONTROL, false)] + Disposals(s.cache, false);
            AllDisposed(s).log == s.log + stretch && Since(s, AllDisposed(s)) == stretch
  {
    var stretch := [Disposed(CONTROL, false)] + Disposals(s.cache, false);
    Text.Assoc(s.log, [Disposed(CONTROL, false)], Disposals(s.cache, false));
    hide Disposals;
    assert (s.log + stretch)[|s.log|..] == stretch;
  }

  lemma {:induction false} RunBalances(s: State, p: Program)
    requires Numbered(s)
    ensures CacheBalances(s, Run(s, p).state)
    decreases p
  {
    match p
    case Stop => LookupNothing(s);
    case Then(first, rest) =>
      StepBalances(s, first);
      var o := Do(s, first);
      if o.ok {
        RunBalances(o.state, rest);
        var t := Run(o.state, rest).state;
        hide CacheBalances, Numbered;
        CacheBalancesJoin(s, o.state, t);
      }
  }

  lemma LookupNothing(s: State)
    requires Numbered(s)
    ensures CacheBalances(s, s)
  {
    NoCacheEvents();
    assert s.log == s.log + [];
    CacheBalancesFrom(s, s, []);
  }

  lemma {:induction false} StepBalances(s: State, step: Step)
    requires Numbered(s)
    ensures CacheBalances(s, Do(s, step).state)
    decreases step
  {
    match step
    case Lookup(name) => LookupBalances(s, name);
    case Forget(name) => ForgetBalances(s, name);
    case DisposeAll => DisposeAllBalances(s);
    case Raise => LookupNothing(s);
    case Scope(maker, passed, body) =>
      var start := Entered(s, maker, passed);
      RunBalances(start, body);
      ExitBalances(s, maker, passed, Run(start, body).state);
  }

  lemma ExitBalances(s: State, maker: nat, passed: seq<Entry>, inside: State)
    requires inside.pool.Some? && CacheBalances(Entered(s, maker, passed), inside)
    ensures CacheBalances(s, Left(s, inside, passed))
  {
    var t, exit := Left(s, inside, passed), Disposals(Owned(inside.pool.value, passed), true);
    DisposalsOfCache(Owned(inside.pool.value, passed), true);
    assert t.log == inside.log + exit;
    hide Disposals, Owned;
    SameCache(s, Entered(s, maker, passed), inside, t, exit);
  }

  lemma SameCache(s: State, start: State, inside: State, t: State, exit: seq<Event>)
    requires start.log == s.log && start.cache == s.cache && start.next == s.next
    requires t.log == inside.log + exit && t.cache == inside.cache && t.next == inside.next
    requires CacheMade(exit) == [] && CacheFreed(exit) == [] && CacheBalances(start, inside)
    ensures CacheBalances(s, t)
  {
    var body := Since(start, inside);
    CacheAppend(body, exit);
    hide CacheMade, CacheFreed, EnginesOf, Even;
    assert inside.log == s.log + body;
    Text.Assoc(s.log, body, exit);
    assert CacheFreed(body) + [] == CacheFreed(body) && CacheMade(body) + [] == CacheMade(body);
    CacheBalancesFrom(s, t, body + exit);
  }

  /** From the module's start, over every run: each engine made outside scopes is in the cache still or has been
      disposed by forgetting or disposing everything, exactly once either way. */
  lemma ModuleBalances(p: Program)
    ensures var t := Run(State(None, None, [], [], 1), p).state;
            multiset(CacheMade(t.log)) == multiset(CacheFreed(t.log)) + multiset(EnginesOf(t.cache))
  {
    var s := State(None, None, [], [], 1);
    RunBalances(s, p);
    var t := Run(s, p).state;
    NoCacheEvents();
    assert Since(s, t) == t.log;
  }

  // ----- which engine -----

  /** A dict's engines are for the names they stand under. */
  predicate Apt(d: seq<Entry>) {
    forall e :: e in d ==> e.engine.name == e.name
  }

  /** A lookup returns an engine for the name asked; one it makes is new, has one connection inside a scope and
      a full pool outside. */
  lemma LookupFits(s: State, name: string)
    requires Apt(s.cache) && (s.pool.Some? ==> Apt(s.pool.value))
    ensures var (t, e) := Looked(s, name);
            && e.name == name && Apt(t.cache) && (t.pool.Some? ==> Apt(t.pool.value))
            && (t != s ==> e == Engine(s.next, name, s.pool.Some?) && t.log == s.log + [Made(e, s.pool.Some?)])
  {
    FindIs(s.cache, name);
    if s.pool.Some? { FindIs(s.pool.value, name); }
  }
}
