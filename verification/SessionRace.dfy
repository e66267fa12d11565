/** Any number of concurrent `track_session` calls for one user, interleaved one Redis
    command at a time, beside logouts, prunes, revocations and key expiry. */
module SessionRace {
  import opened SortedSet

  /** How far a call has come: each constructor names the last command that answered. */
  datatype Phase =
    | Idle
    | Added                                // ZADD done
    | Counted(count: nat)                  // ZCARD answered more than the cap
    | Ranged(doomed: seq<string>)          // ZRANGE answered these, ZREM still to come
    | Returned(evicted: seq<string>)

  datatype Call = Call(jti: string, now: int, phase: Phase)

  /** `removed` records what other operations took out of the set. */
  datatype State = State(cap: int, tracked: seq<Entry>, calls: seq<Call>, removed: set<string>)

  /** The scheduler lets one call run its next command, or something outside the
      calls (a logout, a prune, a revocation, the key's expiry) drops some members. */
  datatype Event = Command(call: nat) | Elsewhere(jtis: set<string>)

  function SetPhase(s: State, i: nat, phase: Phase): State
    requires i < |s.calls|
  {
    s.(calls := s.calls[i := s.calls[i].(phase := phase)])
  }

  function RunCommand(s: State, i: nat): State
    requires i < |s.calls|
  {
    var c := s.calls[i];
    match c.phase
    case Idle => SetPhase(s.(tracked := Add(s.tracked, c.jti, c.now)), i, Added)
    case Added =>
      if s.cap > 0 && |s.tracked| > s.cap then SetPhase(s, i, Counted(|s.tracked|))
      else SetPhase(s, i, Returned([]))
    case Counted(count) =>
      var overflow := count - s.cap;
      var members := Jtis(Lowest(s.tracked, if overflow > 0 then overflow else 0));
      if members == [] then SetPhase(s, i, Returned([])) else SetPhase(s, i, Ranged(members))
    case Ranged(doomed) =>
      SetPhase(s.(tracked := Without(s.tracked, Listed(doomed))), i, Returned(doomed))
    case Returned(_) => s
  }

  function Fire(s: State, ev: Event): State {
    match ev
    case Command(i) => if i < |s.calls| then RunCommand(s, i) else s
    case Elsewhere(jtis) =>
      s.(tracked := Without(s.tracked, jtis), removed := s.removed + (jtis * Members(s.tracked)))
  }

  function Exec(s: State, schedule: seq<Event>): (t: State)
    ensures |t.calls| == |s.calls|
    decreases |schedule|
  {
    if schedule == [] then s else Exec(Fire(s, schedule[0]), schedule[1..])
  }

  ghost predicate Fresh(s: State) {
    forall i, j :: 0 <= i < j < |s.calls| ==> s.calls[i].jti != s.calls[j].jti
  }

  ghost predicate Start(s: State) {
    && Ordered(s.tracked)
    && Fresh(s)
    && s.removed == {}
    && forall c :: c in s.calls ==> c.phase.Idle? && c.jti !in Members(s.tracked)
  }

  predicate AllReturned(s: State) {
    forall c :: c in s.calls ==> c.phase.Returned?
  }

  /** What the returned calls told their callers to blocklist. */
  ghost predicate Evicted(s: State, jti: string) {
    exists i :: 0 <= i < |s.calls| && s.calls[i].phase.Returned? && jti in s.calls[i].phase.evicted
  }

  /** What has ever been put in the set: the initial members and every jti already ZADDed. */
  ghost predicate Issued(initial: set<string>, s: State, jti: string) {
    jti in initial || exists i :: 0 <= i < |s.calls| && !s.calls[i].phase.Idle? && s.calls[i].jti == jti
  }

  // ----- the cap -----

  /** Call `w` has counted, and what it will still remove brings the set within the cap. */
  predicate Covers(s: State, w: nat)
    requires w < |s.calls|
  {
    match s.calls[w].phase
    case Idle => false
    case Added => false
    case Counted(count) => |s.tracked| <= count
    case Ranged(doomed) => |Without(s.tracked, Listed(doomed))| <= s.cap
    case Returned(_) => |s.tracked| <= s.cap
  }

  predicate Counting(c: Call) {
    c.phase.Idle? || c.phase.Added?
  }

  /** Until every call has counted nothing is promised; from then on some call covers. */
  ghost predicate CapInv(s: State) {
    && Ordered(s.tracked)
    && (forall i :: 0 <= i < |s.calls| && s.calls[i].phase.Counted? ==> s.calls[i].phase.count > s.cap)
    && ((exists i :: 0 <= i < |s.calls| && Counting(s.calls[i]))
        || exists w :: 0 <= w < |s.calls| && Covers(s, w))
  }

  /** Taking members out never uncovers. */
  lemma CoversShrink(s: State, t: State, w: nat, gone: set<string>)
    requires w < |s.calls| && w < |t.calls| && s.calls[w] == t.calls[w] && s.cap == t.cap
    requires t.tracked == Without(s.tracked, gone)
    requires Covers(s, w)
    ensures Covers(t, w)
  {
    WithoutContents(s.tracked, gone);
    if s.calls[w].phase.Ranged? {
      var d := Listed(s.calls[w].phase.doomed);
      WithoutTwice(s.tracked, gone, d);
      WithoutTwice(s.tracked, d, gone);
      assert gone + d == d + gone;
      WithoutContents(Without(s.tracked, d), gone);
    }
  }

  /** ZRANGE turns "at most count tracked" into "the rest fits the cap". */
  lemma RangeCovers(z: seq<Entry>, count: nat, cap: int)
    requires Ordered(z) && 0 < cap < count && |z| <= count
    ensures var doomed := Jtis(Lowest(z, count - cap));
            |Without(z, Listed(doomed))| <= cap && (doomed == [] ==> |z| <= cap)
  {
    var k := if count - cap <= |z| then count - cap else |z|;
    JtisListed(z[..k]);
    WithoutLowest(z, k);
  }

  lemma CapStep(s: State, ev: Event)
    requires s.cap > 0 && CapInv(s)
    ensures CapInv(Fire(s, ev))
  {
    var t := Fire(s, ev);
    match ev
    case Elsewhere(jtis) =>
      WithoutOrdered(s.tracked, jtis);
      if w :| 0 <= w < |s.calls| && Covers(s, w) {
        CoversShrink(s, t, w, jtis);
      } else {
        var i :| 0 <= i < |s.calls| && Counting(s.calls[i]);
        assert Counting(t.calls[i]);
      }
    case Command(i) =>
      if i < |s.calls| { CapCommand(s, i); }
  }

  lemma CapCommand(s: State, i: nat)
    requires s.cap > 0 && CapInv(s) && i < |s.calls|
    ensures CapInv(RunCommand(s, i))
  {
    var t, c := RunCommand(s, i), s.calls[i];
    match c.phase
    case Idle =>
      AddKeepsOrder(s.tracked, c.jti, c.now);
      assert Counting(t.calls[i]);
    case Added =>
      assert Covers(t, i);
    case Counted(count) =>
      CapOthers(s, i, {});
      if Covers(s, i) { RangeCovers(s.tracked, count, s.cap); assert Covers(t, i); }
    case Ranged(doomed) =>
      WithoutOrdered(s.tracked, Listed(doomed));
      CapOthers(s, i, Listed(doomed));
      if Covers(s, i) { assert Covers(t, i); }
    case Returned(_) =>
  }

  /** Whatever witness another call provided, it still provides after call `i` moves on
      from its count without adding members. */
  lemma CapOthers(s: State, i: nat, gone: set<string>)
    requires CapInv(s) && i < |s.calls| && !Counting(s.calls[i])
    requires s.calls[i].phase.Counted? || s.calls[i].phase.Ranged?
    requires RunCommand(s, i).tracked == Without(s.tracked, gone)
             || (gone == {} && RunCommand(s, i).tracked == s.tracked)
    ensures Covers(s, i)
            || (exists k :: 0 <= k < |s.calls| && Counting(RunCommand(s, i).calls[k]))
            || (exists w :: 0 <= w < |s.calls| && Covers(RunCommand(s, i), w))
  {
    var t := RunCommand(s, i);
    if k :| 0 <= k < |s.calls| && Counting(s.calls[k]) {
      assert Counting(t.calls[k]);
    } else {
      var w :| 0 <= w < |s.calls| && Covers(s, w);
      if w != i {
        if gone == {} { WithoutNothing(s.tracked, {}); }
        CoversShrink(s, t, w, gone);
      }
    }
  }

  lemma {:induction false} ExecKeepsCap(s: State, schedule: seq<Event>)
    requires s.cap > 0 && CapInv(s)
    ensures CapInv(Exec(s, schedule)) && Exec(s, schedule).cap == s.cap
    ensures |Exec(s, schedule).calls| == |s.calls|
    decreases |schedule|
  {
    if schedule != [] {
      CapStep(s, schedule[0]);
      ExecKeepsCap(Fire(s, schedule[0]), schedule[1..]);
    }
  }

  /** However the commands of any number of logins interleave with one another and with
      removals, once every call has returned at most `cap` sessions are tracked. */
  lemma CapHolds(s: State, schedule: seq<Event>)
    requires Start(s) && s.cap > 0 && s.calls != []
    requires AllReturned(Exec(s, schedule))
    ensures |Exec(s, schedule).tracked| <= s.cap
  {
    assert Counting(s.calls[0]);
    ExecKeepsCap(s, schedule);
    var t := Exec(s, schedule);
    forall i | 0 <= i < |t.calls| ensures t.calls[i].phase.Returned? {
      assert t.calls[i] in t.calls;
    }
  }

  // ----- nothing lost, nothing kept twice -----

  /** Everything issued is tracked, or evicted by a returned call, or removed elsewhere;
      and what is tracked is neither. A pending ZRANGE answer names only issued jtis. */
  ghost predicate AccountInv(initial: set<string>, s: State) {
    && Ordered(s.tracked)
    && Fresh(s)
    && (forall j :: Issued(initial, s, j) <==> j in Members(s.tracked) || Evicted(s, j) || j in s.removed)
    && (forall j :: j in Members(s.tracked) ==> !Evicted(s, j) && j !in s.removed)
    && (forall i :: 0 <= i < |s.calls| && s.calls[i].phase.Ranged? ==>
          forall j :: j in s.calls[i].phase.doomed ==> Issued(initial, s, j))
    && (forall i :: 0 <= i < |s.calls| ==> s.calls[i].jti !in initial)
    && (s.cap <= 0 ==> forall i :: 0 <= i < |s.calls| ==>
          !s.calls[i].phase.Counted? && !s.calls[i].phase.Ranged?)
    && (s.cap <= 0 ==> forall j :: !Evicted(s, j))
  }

  lemma EvictedAfter(s: State, t: State, i: nat, phase: Phase)
    requires i < |s.calls| && t.calls == s.calls[i := s.calls[i].(phase := phase)]
    requires !s.calls[i].phase.Returned?
    ensures forall j :: Evicted(t, j) <==> Evicted(s, j) || (phase.Returned? && j in phase.evicted)
  {
    forall j ensures Evicted(t, j) <==> Evicted(s, j) || (phase.Returned? && j in phase.evicted) {
      if phase.Returned? && j in phase.evicted { assert t.calls[i].phase == phase; }
      if Evicted(s, j) {
        var k :| 0 <= k < |s.calls| && s.calls[k].phase.Returned? && j in s.calls[k].phase.evicted;
        assert t.calls[k] == s.calls[k];
      }
    }
  }

  lemma IssuedAfter(initial: set<string>, s: State, t: State, i: nat, phase: Phase)
    requires i < |s.calls| && t.calls == s.calls[i := s.calls[i].(phase := phase)] && !phase.Idle?
    ensures forall j :: Issued(initial, t, j) <==> Issued(initial, s, j) || j == s.calls[i].jti
  {
    forall j ensures Issued(initial, t, j) <==> Issued(initial, s, j) || j == s.calls[i].jti {
      assert t.calls[i].jti == s.calls[i].jti && !t.calls[i].phase.Idle?;
      if k :| 0 <= k < |s.calls| && !s.calls[k].phase.Idle? && s.calls[k].jti == j {
        assert !t.calls[k].phase.Idle? && t.calls[k].jti == j;
      }
    }
  }

  lemma AccountCommand(initial: set<string>, s: State, i: nat)
    requires AccountInv(initial, s) && i < |s.calls|
    ensures AccountInv(initial, RunCommand(s, i))
  {
    var t, c := RunCommand(s, i), s.calls[i];
    if !c.phase.Returned? {
      EvictedAfter(s, t, i, t.calls[i].phase);
      IssuedAfter(initial, s, t, i, t.calls[i].phase);
      if !c.phase.Idle? { assert Issued(initial, s, c.jti); }
      match c.phase
      case Idle =>
        AddKeepsOrder(s.tracked, c.jti, c.now);
        assert !Issued(initial, s, c.jti);
      case Added =>
      case Counted(count) =>
        var overflow := if count - s.cap > 0 then count - s.cap else 0;
        JtisListed(Lowest(s.tracked, overflow));
        assert Members(Lowest(s.tracked, overflow)) <= Members(s.tracked);
        assert forall j :: j in Jtis(Lowest(s.tracked, overflow)) ==> j in Listed(Jtis(Lowest(s.tracked, overflow)));
      case Ranged(doomed) =>
        WithoutContents(s.tracked, Listed(doomed));
        WithoutOrdered(s.tracked, Listed(doomed));
    }
  }

  lemma AccountStep(initial: set<string>, s: State, ev: Event)
    requires AccountInv(initial, s)
    ensures AccountInv(initial, Fire(s, ev))
  {
    match ev
    case Command(i) => if i < |s.calls| { AccountCommand(initial, s, i); }
    case Elsewhere(jtis) =>
      var t := Fire(s, ev);
      WithoutContents(s.tracked, jtis);
      WithoutOrdered(s.tracked, jtis);
      assert forall j :: Issued(initial, t, j) <==> Issued(initial, s, j);
      assert forall j :: Evicted(t, j) <==> Evicted(s, j);
  }

  lemma {:induction false} ExecKeepsAccount(initial: set<string>, s: State, schedule: seq<Event>)
    requires AccountInv(initial, s)
    ensures AccountInv(initial, Exec(s, schedule)) && Exec(s, schedule).cap == s.cap
    decreases |schedule|
  {
    if schedule != [] {
      AccountStep(initial, s, schedule[0]);
      ExecKeepsAccount(initial, Fire(s, schedule[0]), schedule[1..]);
    }
  }

  /** At every moment of every run: a jti was issued exactly if it is tracked, or named in a
      returned call's evicted list, or removed elsewhere; no tracked jti is either of the
      latter; and without a positive cap nothing is ever evicted. */
  lemma NothingLost(s: State, schedule: seq<Event>)
    requires Start(s)
    ensures var t := Exec(s, schedule);
            && (forall j :: Issued(Members(s.tracked), t, j)
                  <==> j in Members(t.tracked) || Evicted(t, j) || j in t.removed)
            && (forall j :: j in Members(t.tracked) ==> !Evicted(t, j) && j !in t.removed)
            && (s.cap <= 0 ==> forall j :: !Evicted(t, j))
  {
    forall i | 0 <= i < |s.calls| ensures s.calls[i].phase.Idle? && s.calls[i].jti !in Members(s.tracked) {
      assert s.calls[i] in s.calls;
    }
    assert AccountInv(Members(s.tracked), s);
    ExecKeepsAccount(Members(s.tracked), s, schedule);
  }

  // ----- which interleavings keep the newest sessions -----

  /** Call `i`'s next command is a ZRANGE, and the set no longer holds all that its ZCARD counted. */
  predicate Stale(s: State, i: nat) {
    i < |s.calls| && s.calls[i].phase.Counted? && 0 < |s.tracked| < s.calls[i].phase.count
  }

  function Newest(z: seq<Entry>, cap: int): seq<Entry> {
    Capped(z, cap).0
  }

  /** A ZRANGE names one of the newest `cap` tracked sessions exactly when its count is stale. */
  lemma StaleRangeTakesNewest(s: State, i: nat)
    requires Ordered(s.tracked) && i < |s.calls| && s.calls[i].phase.Counted? && 0 < s.cap < s.calls[i].phase.count
    ensures var next := RunCommand(s, i).calls[i].phase;
            (next.Ranged? && exists e :: e in Newest(s.tracked, s.cap) && e.jti in next.doomed) <==> Stale(s, i)
  {
    var z, count := s.tracked, s.calls[i].phase.count;
    var k := if count - s.cap <= |z| then count - s.cap else |z|;
    var low := if s.cap < |z| then |z| - s.cap else 0;
    assert |Jtis(z[..k])| == k;
    assert Newest(z, s.cap) == z[low..];
    LowestMeetNewest(z, k, low);
  }

  lemma LowestMeetNewest(z: seq<Entry>, k: nat, low: nat)
    requires Ordered(z) && k <= |z| && low <= |z|
    ensures (exists e :: e in z[low..] && e.jti in Jtis(z[..k])) <==> low < k
  {
    if low < k {
      assert z[low..][0] == z[low] && Jtis(z[..k])[low] == z[low].jti;
    } else {
      forall e | e in z[low..] ensures e.jti !in Jtis(z[..k]) {
        var n :| low <= n < |z| && z[n] == e;
        assert forall m :: 0 <= m < k ==> Jtis(z[..k])[m] == z[m].jti;
      }
    }
  }

  /** No outside removal, and no call ranges on a stale count. */
  predicate Timely(s: State, schedule: seq<Event>)
    decreases |schedule|
  {
    schedule != [] ==>
      && schedule[0].Command?
      && !Stale(s, schedule[0].call)
      && Timely(Fire(s, schedule[0]), schedule[1..])
  }

  predicate OnlyCommands(schedule: seq<Event>) {
    forall ev :: ev in schedule ==> ev.Command?
  }

  /** What one event issues, added to all that was issued before. */
  function Issuing(s: State, ev: Event, all: seq<Entry>): seq<Entry> {
    if ev.Command? && ev.call < |s.calls| && s.calls[ev.call].phase.Idle?
    then Insert(all, Entry(s.calls[ev.call].now, s.calls[ev.call].jti))
    else all
  }

  /** All that is issued by the end of a schedule, evicted or not, in the set's order. */
  function Everything(s: State, schedule: seq<Event>, all: seq<Entry>): seq<Entry>
    decreases |schedule|
  {
    if schedule == [] then all
    else Everything(Fire(s, schedule[0]), schedule[1..], Issuing(s, schedule[0], all))
  }

  /** `gone` has left the set, and neither it nor any pending ZREM touches the newest of all issued. */
  ghost predicate NewestSafe(s: State, all: seq<Entry>, gone: set<string>) {
    && Ordered(all) && Fresh(s) && s.tracked == Without(all, gone)
    && gone <= Members(all) && gone !! Members(Newest(all, s.cap))
    && forall i :: 0 <= i < |s.calls| ==> CallSafe(s.calls[i], all, s.cap)
  }

  ghost predicate CallSafe(c: Call, all: seq<Entry>, cap: int) {
    match c.phase
    case Idle => c.jti !in Members(all)
    case Counted(count) => count > cap
    case Ranged(doomed) => Listed(doomed) <= Members(all) && Listed(doomed) !! Members(Newest(all, cap))
    case _ => true
  }

  lemma {:induction false} WithoutAppend(a: seq<Entry>, b: seq<Entry>, gone: set<string>)
    ensures Without(a + b, gone) == Without(a, gone) + Without(b, gone)
  {
    if a == [] {
      assert a + b == b;
    } else {
      assert (a + b)[1..] == a[1..] + b;
      WithoutAppend(a[1..], b, gone);
    }
  }

  /** While the newest are safe the set ends with them, and holds nothing else if it is within the cap. */
  lemma NewestLast(s: State, all: seq<Entry>, gone: set<string>)
    requires s.cap > 0 && NewestSafe(s, all, gone)
    ensures Newest(s.tracked, s.cap) == Newest(all, s.cap)
    ensures |s.tracked| <= s.cap ==> s.tracked == Newest(all, s.cap)
  {
    var top := Newest(all, s.cap);
    var k := if s.cap < |all| then |all| - s.cap else 0;
    assert top == all[k..] && all == all[..k] + all[k..];
    WithoutAppend(all[..k], all[k..], gone);
    WithoutNothing(all[k..], gone);
    hide Without;
    var rest := Without(all[..k], gone);
    assert s.tracked == rest + top;
    if k == 0 {
      assert all[..k] == [];
      WithoutContents([], gone);
      assert rest == [];
    }
  }

  lemma {:induction false} InsertPlace(z: seq<Entry>, e: Entry) returns (p: nat)
    ensures p <= |z| && Insert(z, e) == z[..p] + [e] + z[p..]
  {
    if z == [] || Before(e, z[0]) {
      p := 0;
      assert z[..0] + [e] + z[0..] == [e] + z;
    } else {
      var q := InsertPlace(z[1..], e);
      p := q + 1;
      assert z[..p] == [z[0]] + z[1..][..q] && z[p..] == z[1..][q..];
      assert [z[0]] + (z[1..][..q] + [e] + z[1..][q..]) == z[..p] + [e] + z[p..];
    }
  }

  /** Adding an entry makes nothing newest but the entry. */
  lemma InsertNewest(z: seq<Entry>, e: Entry, cap: int)
    requires cap > 0
    ensures Members(Newest(Insert(z, e), cap)) <= Members(Newest(z, cap)) + {e.jti}
  {
    var p := InsertPlace(z, e);
    var more := Insert(z, e);
    hide Insert;
    var low := if cap < |z| then |z| - cap else 0;
    var high := if cap < |more| then |more| - cap else 0;
    assert Newest(z, cap) == z[low..] && Newest(more, cap) == more[high..];
    forall x | x in more[high..] ensures x == e || x in z[low..] {
      var n :| high <= n < |more| && more[n] == x;
      if n < p {
        assert x == z[n] == z[low..][n - low];
      } else if n > p {
        assert x == z[n - 1] == z[low..][n - 1 - low];
      }
    }
  }

  lemma WithoutCons(x: Entry, rest: seq<Entry>, gone: set<string>)
    ensures Without([x] + rest, gone) == if x.jti in gone then Without(rest, gone) else [x] + Without(rest, gone)
  {
    assert ([x] + rest)[1..] == rest;
  }

  lemma InsertCons(x: Entry, rest: seq<Entry>, e: Entry)
    ensures Insert([x] + rest, e) == if Before(e, x) then [e] + ([x] + rest) else [x] + Insert(rest, e)
  {
    assert ([x] + rest)[1..] == rest;
  }

  /** Inserting and removing other members commute. */
  lemma {:induction false} InsertWithout(z: seq<Entry>, e: Entry, gone: set<string>)
    requires Ordered(z) && e.jti !in gone
    ensures Without(Insert(z, e), gone) == Insert(Without(z, gone), e)
  {
    if z == [] {
      WithoutCons(e, [], gone);
    } else if Before(e, z[0]) {
      WithoutCons(e, z, gone);
      WithoutContents(z, gone);
      var rest := Without(z, gone);
      hide Without;
      if rest != [] {
        var n :| 0 <= n < |z| && z[n] == rest[0];
        if n > 0 { BeforeTransitive(e, z[0], z[n]); }
      }
    } else {
      InsertWithout(z[1..], e, gone);
      assert z == [z[0]] + z[1..];
      InsertCons(z[0], z[1..], e);
      WithoutCons(z[0], Insert(z[1..], e), gone);
      WithoutCons(z[0], z[1..], gone);
      InsertCons(z[0], Without(z[1..], gone), e);
      hide Without, Insert, Before;
    }
  }

  /** One timely command keeps the newest safe. */
  lemma SafeStep(s: State, i: nat, all: seq<Entry>, gone: set<string>) returns (more: set<string>)
    requires s.cap > 0 && NewestSafe(s, all, gone) && i < |s.calls| && !Stale(s, i)
    ensures NewestSafe(RunCommand(s, i), Issuing(s, Command(i), all), more)
  {
    more := gone;
    var c, t := s.calls[i], RunCommand(s, i);
    assert CallSafe(c, all, s.cap);
    match c.phase
    case Idle => SafeAdd(s, i, all, gone);
    case Added =>
    case Counted(count) => SafeRange(s, i, all, gone);
    case Ranged(doomed) =>
      more := gone + Listed(doomed);
      WithoutTwice(all, gone, Listed(doomed));
    case Returned(_) =>
  }

  lemma SafeAdd(s: State, i: nat, all: seq<Entry>, gone: set<string>)
    requires s.cap > 0 && NewestSafe(s, all, gone) && i < |s.calls| && s.calls[i].phase.Idle?
    ensures NewestSafe(RunCommand(s, i), Issuing(s, Command(i), all), gone)
  {
    var c, t := s.calls[i], RunCommand(s, i);
    var e := Entry(c.now, c.jti);
    var after := Insert(all, e);
    assert CallSafe(c, all, s.cap);
    InsertOrdered(all, e);
    InsertContents(all, e);
    InsertNewest(all, e, s.cap);
    AddWithout(all, e, gone);
    assert t == SetPhase(s.(tracked := Without(after, gone)), i, Added);
    hide Insert, Without, Newest, Ordered, Members, Add, RunCommand;
    forall k | 0 <= k < |t.calls| ensures CallSafe(t.calls[k], after, s.cap) {
      assert CallSafe(s.calls[k], all, s.cap);
      if k != i { OtherSafe(s.calls[k], c.jti, all, after, s.cap); }
    }
  }

  lemma OtherSafe(c: Call, jti: string, all: seq<Entry>, after: seq<Entry>, cap: int)
    requires CallSafe(c, all, cap) && c.jti != jti && jti !in Members(all)
    requires Members(after) == Members(all) + {jti}
    requires Members(Newest(after, cap)) <= Members(Newest(all, cap)) + {jti}
    ensures CallSafe(c, after, cap)
  {
    hide Newest, Members;
  }

  lemma AddWithout(all: seq<Entry>, e: Entry, gone: set<string>)
    requires Ordered(all) && e.jti !in Members(all) && gone <= Members(all)
    ensures Add(Without(all, gone), e.jti, e.score) == Without(Insert(all, e), gone)
  {
    WithoutContents(all, gone);
    WithoutNothing(Without(all, gone), {e.jti});
    InsertWithout(all, e, gone);
  }

  lemma SafeRange(s: State, i: nat, all: seq<Entry>, gone: set<string>)
    requires s.cap > 0 && NewestSafe(s, all, gone) && i < |s.calls| && s.calls[i].phase.Counted? && !Stale(s, i)
    ensures NewestSafe(RunCommand(s, i), all, gone)
  {
    var t, z := RunCommand(s, i), s.tracked;
    assert CallSafe(s.calls[i], all, s.cap);
    WithoutOrdered(all, gone);
    WithoutContents(all, gone);
    NewestLast(s, all, gone);
    StaleRangeTakesNewest(s, i);
    var next := t.calls[i].phase;
    if next.Ranged? {
      var count := s.calls[i].phase.count;
      JtisListed(Lowest(z, count - s.cap));
      assert Members(Lowest(z, count - s.cap)) <= Members(z);
      forall j | j in Members(Newest(all, s.cap)) ensures j !in next.doomed {
        var e :| e in Newest(all, s.cap) && e.jti == j;
      }
    }
    hide Newest, Without;
    forall k | 0 <= k < |t.calls| ensures CallSafe(t.calls[k], all, s.cap) {
      assert CallSafe(s.calls[k], all, s.cap);
    }
  }

  lemma {:induction false} SafeRun(s: State, schedule: seq<Event>, all: seq<Entry>, gone: set<string>)
    returns (more: set<string>)
    requires s.cap > 0 && NewestSafe(s, all, gone) && Timely(s, schedule)
    ensures NewestSafe(Exec(s, schedule), Everything(s, schedule, all), more)
    ensures Exec(s, schedule).cap == s.cap
    decreases |schedule|
  {
    more := gone;
    if schedule != [] {
      var ev := schedule[0];
      if ev.call < |s.calls| { more := SafeStep(s, ev.call, all, gone); }
      more := SafeRun(Fire(s, ev), schedule[1..], Issuing(s, ev, all), more);
    }
  }

  lemma StartSafe(s: State)
    requires Start(s)
    ensures NewestSafe(s, s.tracked, {})
  {
    WithoutNothing(s.tracked, {});
    forall i | 0 <= i < |s.calls| ensures CallSafe(s.calls[i], s.tracked, s.cap) {
      assert s.calls[i] in s.calls;
    }
  }

  /** However timely calls interleave, at every moment the newest `cap` of all that was issued are tracked,
      and once every call has returned nothing else is: what one login after another would have left. */
  lemma NewestKept(s: State, schedule: seq<Event>)
    requires Start(s) && s.cap > 0 && s.calls != [] && Timely(s, schedule)
    ensures var t, all := Exec(s, schedule), Everything(s, schedule, s.tracked);
            && Newest(t.tracked, s.cap) == Newest(all, s.cap)
            && (AllReturned(t) ==> t.tracked == Newest(all, s.cap))
  {
    StartSafe(s);
    var gone := SafeRun(s, schedule, s.tracked, {});
    var t, all := Exec(s, schedule), Everything(s, schedule, s.tracked);
    NewestLast(t, all, gone);
    if AllReturned(t) { CapHolds(s, schedule); }
  }

  /** `jti` is out of the set, or a pending ZREM will take it out, and its own ZADD is past. */
  ghost predicate Doomed(s: State, jti: string) {
    && (forall i :: 0 <= i < |s.calls| && s.calls[i].jti == jti ==> !s.calls[i].phase.Idle?)
    && (jti !in Members(s.tracked)
        || exists i :: 0 <= i < |s.calls| && s.calls[i].phase.Ranged? && jti in s.calls[i].phase.doomed)
  }

  lemma {:induction false} DoomedGoes(s: State, schedule: seq<Event>, jti: string)
    requires Doomed(s, jti) && OnlyCommands(schedule)
    ensures Doomed(Exec(s, schedule), jti)
    decreases |schedule|
  {
    if schedule != [] {
      assert schedule[0] in schedule && forall ev :: ev in schedule[1..] ==> ev in schedule;
      var i, t := schedule[0].call, Fire(s, schedule[0]);
      if i < |s.calls| { DoomedStep(s, i, jti); }
      DoomedGoes(t, schedule[1..], jti);
    }
  }

  lemma DoomedStep(s: State, i: nat, jti: string)
    requires Doomed(s, jti) && i < |s.calls|
    ensures Doomed(RunCommand(s, i), jti)
  {
    var c, t := s.calls[i], RunCommand(s, i);
    if c.phase.Idle? {
      WithoutContents(s.tracked, {c.jti});
      InsertContents(Without(s.tracked, {c.jti}), Entry(c.now, c.jti));
    }
    if c.phase.Ranged? {
      WithoutContents(s.tracked, Listed(c.phase.doomed));
    }
    hide Without, Insert, Lowest, Jtis, Members;
    if k :| 0 <= k < |s.calls| && s.calls[k].phase.Ranged? && jti in s.calls[k].phase.doomed {
      if k != i { assert t.calls[k] == s.calls[k]; }
    }
  }

  /** What a pending ZREM named and is not added again is gone once every call has returned. */
  lemma DoomedIsGone(s: State, schedule: seq<Event>, jti: string)
    requires Doomed(s, jti) && OnlyCommands(schedule) && AllReturned(Exec(s, schedule))
    ensures jti !in Members(Exec(s, schedule).tracked)
  {
    DoomedGoes(s, schedule, jti);
    var end := Exec(s, schedule);
    hide Exec, Members;
    forall k | 0 <= k < |end.calls| ensures !end.calls[k].phase.Ranged? {
      assert end.calls[k] in end.calls;
    }
  }

  /** From a moment when every login has been added and the newest are safe. */
  lemma {:induction false} LastRunExactly(s: State, schedule: seq<Event>, all: seq<Entry>, gone: set<string>)
    requires s.cap > 0 && NewestSafe(s, all, gone) && OnlyCommands(schedule)
    requires forall i :: 0 <= i < |s.calls| ==> !s.calls[i].phase.Idle?
    requires AllReturned(Exec(s, schedule)) && |Exec(s, schedule).tracked| <= s.cap
    ensures Exec(s, schedule).tracked == Newest(all, s.cap) <==> Timely(s, schedule)
    decreases |schedule|
  {
    if schedule == [] {
      NewestLast(s, all, gone);
    } else {
      assert schedule[0] in schedule && forall ev :: ev in schedule[1..] ==> ev in schedule;
      var i, t := schedule[0].call, Fire(s, schedule[0]);
      if Stale(s, i) {
        StaleLoses(s, i, schedule[1..], all, gone);
      } else {
        var more := gone;
        if i < |s.calls| { more := SafeStep(s, i, all, gone); }
        LastRunExactly(t, schedule[1..], all, more);
      }
    }
  }

  lemma StaleLoses(s: State, i: nat, rest: seq<Event>, all: seq<Entry>, gone: set<string>)
    requires s.cap > 0 && NewestSafe(s, all, gone) && OnlyCommands(rest) && Stale(s, i)
    requires forall k :: 0 <= k < |s.calls| ==> !s.calls[k].phase.Idle?
    requires AllReturned(Exec(RunCommand(s, i), rest))
    ensures Exec(RunCommand(s, i), rest).tracked != Newest(all, s.cap)
  {
    assert CallSafe(s.calls[i], all, s.cap);
    WithoutOrdered(all, gone);
    NewestLast(s, all, gone);
    StaleRangeTakesNewest(s, i);
    var t := RunCommand(s, i);
    var e :| e in Newest(all, s.cap) && e.jti in t.calls[i].phase.doomed;
    assert t.calls[i].phase.Ranged?;
    DoomedIsGone(t, rest, e.jti);
    hide Newest, Exec;
    assert e.jti !in Members(Exec(t, rest).tracked);
  }

  /** Once every login has been added, the interleaving of what is left decides: the final set is the newest
      `cap` of all that was issued exactly when no call from then on ranges on a stale count. */
  lemma NewestKeptExactly(s: State, first: seq<Event>, last: seq<Event>)
    requires Start(s) && s.cap > 0 && s.calls != [] && Timely(s, first) && OnlyCommands(last)
    requires forall c :: c in Exec(s, first).calls ==> !c.phase.Idle?
    requires AllReturned(Exec(Exec(s, first), last))
    ensures Exec(Exec(s, first), last).tracked == Newest(Everything(s, first, s.tracked), s.cap)
            <==> Timely(Exec(s, first), last)
  {
    StartSafe(s);
    var gone := SafeRun(s, first, s.tracked, {});
    ExecSplit(s, first, last);
    CapHolds(s, first + last);
    var t := Exec(s, first);
    forall i | 0 <= i < |t.calls| ensures !t.calls[i].phase.Idle? {
      assert t.calls[i] in t.calls;
    }
    LastRunExactly(t, last, Everything(s, first, s.tracked), gone);
  }

  // ----- the same said of a whole run -----

  /** If call `i`'s next command is a ZRANGE, it names none of `keep`. */
  predicate Spares(s: State, i: nat, keep: set<string>) {
    i < |s.calls| && s.calls[i].phase.Counted? && RunCommand(s, i).calls[i].phase.Ranged? ==>
      Listed(RunCommand(s, i).calls[i].phase.doomed) !! keep
  }

  /** No ZRANGE of the schedule names any of `keep`. */
  predicate AlwaysSpares(s: State, schedule: seq<Event>, keep: set<string>)
    decreases |schedule|
  {
    schedule != [] ==>
      && schedule[0].Command? && Spares(s, schedule[0].call, keep)
      && AlwaysSpares(Fire(s, schedule[0]), schedule[1..], keep)
  }

  /** `gone` has left the set, and neither it nor any pending ZREM holds any of `keep`. */
  ghost predicate Keeping(s: State, all: seq<Entry>, gone: set<string>, keep: set<string>) {
    && Ordered(all) && Fresh(s) && s.tracked == Without(all, gone)
    && gone <= Members(all) && gone !! keep
    && forall i :: 0 <= i < |s.calls| ==> CallKeeps(s.calls[i], all, keep)
  }

  ghost predicate CallKeeps(c: Call, all: seq<Entry>, keep: set<string>) {
    match c.phase
    case Idle => c.jti !in Members(all)
    case Ranged(doomed) => Listed(doomed) <= Members(all) && Listed(doomed) !! keep
    case _ => true
  }

  lemma KeepStep(s: State, i: nat, all: seq<Entry>, gone: set<string>, keep: set<string>) returns (more: set<string>)
    requires Keeping(s, all, gone, keep) && i < |s.calls| && Spares(s, i, keep)
    ensures Keeping(RunCommand(s, i), Issuing(s, Command(i), all), more, keep)
  {
    more := gone;
    var c, t := s.calls[i], RunCommand(s, i);
    assert CallKeeps(c, all, keep);
    match c.phase {
      case Idle => KeepAdd(s, i, all, gone, keep);
      case Counted(count) => KeepRange(s, i, all, gone, keep);
      case Ranged(doomed) =>
        more := gone + Listed(doomed);
        WithoutTwice(all, gone, Listed(doomed));
        assert forall k :: 0 <= k < |t.calls| && k != i ==> t.calls[k] == s.calls[k];
      case _ =>
        assert forall k :: 0 <= k < |t.calls| && k != i ==> t.calls[k] == s.calls[k];
    }
  }

  lemma KeepAdd(s: State, i: nat, all: seq<Entry>, gone: set<string>, keep: set<string>)
    requires Keeping(s, all, gone, keep) && i < |s.calls| && s.calls[i].phase.Idle?
    ensures Keeping(RunCommand(s, i), Issuing(s, Command(i), all), gone, keep)
  {
    var c, t := s.calls[i], RunCommand(s, i);
    var e := Entry(c.now, c.jti);
    var after := Insert(all, e);
    assert CallKeeps(c, all, keep);
    InsertOrdered(all, e);
    InsertContents(all, e);
    AddWithout(all, e, gone);
    assert t == SetPhase(s.(tracked := Without(after, gone)), i, Added);
    hide Insert, Without, Ordered, Members, Add, RunCommand;
    forall k | 0 <= k < |t.calls| ensures CallKeeps(t.calls[k], after, keep) {
      assert CallKeeps(s.calls[k], all, keep);
    }
  }

  lemma KeepRange(s: State, i: nat, all: seq<Entry>, gone: set<string>, keep: set<string>)
    requires Keeping(s, all, gone, keep) && i < |s.calls| && s.calls[i].phase.Counted? && Spares(s, i, keep)
    ensures Keeping(RunCommand(s, i), all, gone, keep)
  {
    var t := RunCommand(s, i);
    RangedTracked(s, i);
    WithoutContents(all, gone);
    hide Without, Members, RunCommand;
    forall k | 0 <= k < |t.calls| ensures CallKeeps(t.calls[k], all, keep) {
      assert CallKeeps(s.calls[k], all, keep);
    }
  }

  /** A ZRANGE changes its call alone, and names only tracked members. */
  lemma RangedTracked(s: State, i: nat)
    requires i < |s.calls| && s.calls[i].phase.Counted?
    ensures var t := RunCommand(s, i);
            && t.tracked == s.tracked && t.cap == s.cap && |t.calls| == |s.calls|
            && (forall k :: 0 <= k < |s.calls| && k != i ==> t.calls[k] == s.calls[k])
            && t.calls[i].jti == s.calls[i].jti && (t.calls[i].phase.Ranged? || t.calls[i].phase.Returned?)
            && (t.calls[i].phase.Ranged? ==> Listed(t.calls[i].phase.doomed) <= Members(s.tracked))
  {
    var overflow := s.calls[i].phase.count - s.cap;
    var low := Lowest(s.tracked, if overflow > 0 then overflow else 0);
    JtisListed(low);
    assert Members(low) <= Members(s.tracked);
    hide Members;
  }

  lemma {:induction false} EndExactly(s: State, schedule: seq<Event>, all: seq<Entry>, gone: set<string>,
                                      keep: set<string>)
    requires s.cap > 0 && Keeping(s, all, gone, keep) && OnlyCommands(schedule)
    requires AllReturned(Exec(s, schedule)) && |Exec(s, schedule).tracked| <= s.cap
    requires keep == Members(Newest(Everything(s, schedule, all), s.cap))
    ensures Exec(s, schedule).tracked == Newest(Everything(s, schedule, all), s.cap)
            <==> AlwaysSpares(s, schedule, keep)
    decreases |schedule|
  {
    if schedule == [] {
      forall i | 0 <= i < |s.calls| ensures CallSafe(s.calls[i], all, s.cap) {
        assert s.calls[i] in s.calls;
      }
      NewestLast(s, all, gone);
    } else {
      assert schedule[0] in schedule && forall ev :: ev in schedule[1..] ==> ev in schedule;
      var i, t := schedule[0].call, Fire(s, schedule[0]);
      if Spares(s, i, keep) {
        var more := gone;
        if i < |s.calls| { more := KeepStep(s, i, all, gone, keep); }
        EndExactly(t, schedule[1..], Issuing(s, schedule[0], all), more, keep);
      } else {
        NamedIsLost(s, i, schedule[1..], all, gone, keep);
      }
    }
  }

  lemma NamedIsLost(s: State, i: nat, rest: seq<Event>, all: seq<Entry>, gone: set<string>, keep: set<string>)
    requires Keeping(s, all, gone, keep) && OnlyCommands(rest) && !Spares(s, i, keep)
    requires AllReturned(Exec(RunCommand(s, i), rest))
    ensures Members(Exec(RunCommand(s, i), rest).tracked) != keep
  {
    var t := RunCommand(s, i);
    RangedTracked(s, i);
    WithoutContents(all, gone);
    var jti :| jti in Listed(t.calls[i].phase.doomed) && jti in keep;
    hide Without, RunCommand, Exec, Members;
    forall k | 0 <= k < |t.calls| && t.calls[k].jti == jti ensures !t.calls[k].phase.Idle? {
      assert CallKeeps(s.calls[k], all, keep);
    }
    DoomedIsGone(t, rest, jti);
  }

  /** For every interleaving of any logins, the final set is the newest `cap` of all that was issued exactly
      when no ZRANGE of the run names one of those. */
  lemma NewestEndExactly(s: State, schedule: seq<Event>)
    requires Start(s) && s.cap > 0 && s.calls != [] && OnlyCommands(schedule) && AllReturned(Exec(s, schedule))
    ensures var newest := Newest(Everything(s, schedule, s.tracked), s.cap);
            Exec(s, schedule).tracked == newest <==> AlwaysSpares(s, schedule, Members(newest))
  {
    var keep := Members(Newest(Everything(s, schedule, s.tracked), s.cap));
    WithoutNothing(s.tracked, {});
    forall i | 0 <= i < |s.calls| ensures CallKeeps(s.calls[i], s.tracked, keep) {
      assert s.calls[i] in s.calls;
    }
    CapHolds(s, schedule);
    EndExactly(s, schedule, s.tracked, {}, keep);
  }

  // ----- one call on its own, and two that are not -----

  /** A call whose commands nothing interrupts leaves exactly the newest `cap` entries and
      returns the others oldest first. */
  lemma SoloCall(s: State, i: nat)
    requires Ordered(s.tracked) && i < |s.calls| && s.calls[i].phase.Idle?
    ensures var t := Exec(s, [Command(i), Command(i), Command(i), Command(i)]);
            var result := Capped(Add(s.tracked, s.calls[i].jti, s.calls[i].now), s.cap);
            t.tracked == result.0 && t.calls[i].phase == Returned(result.1)
  {
    var step := Command(i);
    var c := s.calls[i];
    var z := Add(s.tracked, c.jti, c.now);
    AddKeepsOrder(s.tracked, c.jti, c.now);
    FourSteps(s, step, step, step, step);
    SoloRest(Fire(s, step), i, z);
  }

  lemma SoloRest(s: State, i: nat, z: seq<Entry>)
    requires Ordered(z) && s.tracked == z && i < |s.calls| && s.calls[i].phase.Added?
    ensures var t := Fire(Fire(Fire(s, Command(i)), Command(i)), Command(i));
            var result := Capped(z, s.cap);
            t.tracked == result.0 && t.calls[i].phase == Returned(result.1)
  {
    if 0 < s.cap < |z| {
      var k := |z| - s.cap;
      var s1 := Fire(s, Command(i));
      var s2 := Fire(s1, Command(i));
      assert s1.calls[i].phase == Counted(|z|);
      assert |Jtis(z[..k])| == k;
      assert s2.calls[i].phase == Ranged(Jtis(z[..k]));
      JtisListed(z[..k]);
      WithoutLowest(z, k);
    }
  }

  const FIRST := Entry(1, "a")
  const SECOND := Entry(2, "b")

  function BothIdle(): State {
    State(1, [], [Call("a", 1, Idle), Call("b", 2, Idle)], {})
  }

  function BothEvicted(): State {
    State(1, [], [Call("a", 1, Returned(["a"])), Call("b", 2, Returned(["b"]))], {})
  }

  /** Two logins have both added and counted before either ranges. */
  function BothCounted(): State {
    State(1, [FIRST, SECOND], [Call("a", 1, Counted(2)), Call("b", 2, Counted(2))], {})
  }

  lemma BothCount()
    ensures Exec(BothIdle(), [Command(0), Command(1), Command(0), Command(1)]) == BothCounted()
  {
    var s := BothIdle();
    FourSteps(s, Command(0), Command(1), Command(0), Command(1));
    var s1 := Fire(s, Command(0));
    assert s1.tracked == [FIRST];
    var s2 := Fire(s1, Command(1));
    WithoutNothing([FIRST], {"b"});
    assert Insert([FIRST], SECOND) == [FIRST] + Insert([], SECOND);
    assert s2.tracked == [FIRST, SECOND];
    assert Fire(Fire(s2, Command(0)), Command(1)).calls == BothCounted().calls;
  }

  /** The first call has returned; the second has counted two where one is left. */
  function FirstDone(): State {
    State(1, [SECOND], [Call("a", 1, Returned(["a"])), Call("b", 2, Counted(2))], {})
  }

  lemma FirstReturns()
    ensures Exec(BothCounted(), [Command(0), Command(0)]) == FirstDone()
  {
    var s := BothCounted();
    TwoSteps(s, Command(0), Command(0));
    assert Jtis(Lowest([FIRST, SECOND], 1)) == ["a"];
    JtisListed([FIRST]);
    WithoutLowest([FIRST, SECOND], 1);
    assert [FIRST, SECOND][..1] == [FIRST] && Jtis([FIRST]) == ["a"];
  }

  lemma SecondReturns()
    ensures Exec(FirstDone(), [Command(1), Command(1)]) == BothEvicted()
  {
    TwoSteps(FirstDone(), Command(1), Command(1));
    assert Jtis(Lowest([SECOND], 1)) == ["b"];
    JtisListed([SECOND]);
    WithoutLowest([SECOND], 1);
    assert [SECOND][..1] == [SECOND] && Jtis([SECOND]) == ["b"];
  }

  /** The cap is an upper bound only: with a cap of one, two simultaneous logins can evict each other and
      leave the user signed out of both, the second ranging on a stale count. */
  lemma TwoLoginsEvictEachOther()
    ensures Start(BothIdle()) && BothIdle().cap == 1
    ensures exists before :: Exec(BothIdle(), before) == FirstDone()
    ensures Stale(FirstDone(), 1)
    ensures exists after :: Exec(FirstDone(), after) == BothEvicted()
    ensures AllReturned(BothEvicted()) && BothEvicted().tracked == []
  {
    hide Exec;
    BothCount();
    FirstReturns();
    SecondReturns();
    var first, second := [Command(0), Command(1), Command(0), Command(1)], [Command(0), Command(0)];
    ExecSplit(BothIdle(), first, second);
    assert Exec(BothIdle(), first + second) == FirstDone();
  }

  lemma TwoSteps(s: State, a: Event, b: Event)
    ensures Exec(s, [a, b]) == Fire(Fire(s, a), b)
  {
    assert [a, b][1..] == [b] && [b][1..] == [];
    assert Exec(Fire(Fire(s, a), b), []) == Fire(Fire(s, a), b);
  }

  lemma FourSteps(s: State, a: Event, b: Event, c: Event, d: Event)
    ensures Exec(s, [a, b, c, d]) == Fire(Fire(Fire(Fire(s, a), b), c), d)
  {
    assert [a, b, c, d][1..] == [b, c, d] && [b, c, d][1..] == [c, d] && [c, d][1..] == [d] && [d][1..] == [];
    var s1 := Fire(s, a);
    var s2 := Fire(s1, b);
    var s3 := Fire(s2, c);
    assert Exec(s3, [d]) == Exec(Fire(s3, d), []);
    assert Exec(s2, [c, d]) == Exec(s3, [d]);
    assert Exec(s1, [b, c, d]) == Exec(s2, [c, d]);
  }

  lemma {:induction false} ExecSplit(s: State, first: seq<Event>, second: seq<Event>)
    ensures Exec(s, first + second) == Exec(Exec(s, first), second)
    decreases |first|
  {
    if first == [] {
      assert first + second == second;
    } else {
      assert (first + second)[1..] == first[1..] + second;
      ExecSplit(Fire(s, first[0]), first[1..], second);
    }
  }
}
