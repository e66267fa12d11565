/** The per-user session set, its companion metadata hash and the token blocklist, with
    key expiry. Every command of one call sees the same clock reading. */
module SessionStore {
  import opened SortedSet
  import opened Wrappers

  datatype SetKey = SetKey(entries: seq<Entry>, deadline: int)
  datatype HashKey = HashKey(fields: map<string, string>, deadline: int)

  /** `blocked` maps a blocklisted jti to the moment its key expires. */
  datatype Db = Db(clock: int, sets: map<string, SetKey>, metas: map<string, HashKey>, blocked: map<string, int>)

  function Tracked(db: Db, user: string): seq<Entry> {
    if user in db.sets && db.clock < db.sets[user].deadline then db.sets[user].entries else []
  }

  function Meta(db: Db, user: string): map<string, string> {
    if user in db.metas && db.clock < db.metas[user].deadline then db.metas[user].fields else map[]
  }

  predicate IsBlocked(db: Db, jti: string) {
    jti in db.blocked && db.clock < db.blocked[jti]
  }

  // ----- the operations on values -----

  function ZRem(db: Db, user: string, jtis: set<string>): Db {
    if user in db.sets
    then db.(sets := db.sets[user := db.sets[user].(entries := Without(db.sets[user].entries, jtis))])
    else db
  }

  function HDel(db: Db, user: string, jtis: set<string>): Db {
    if user in db.metas
    then db.(metas := db.metas[user := db.metas[user].(fields := db.metas[user].fields - jtis)])
    else db
  }

  /** ZADD and EXPIRE of the set, then HSET and EXPIRE of the hash when there is metadata. */
  function Enter(db: Db, user: string, jti: string, ttl: int, meta: Option<string>): Db {
    var set' := SetKey(Add(Tracked(db, user), jti, db.clock), db.clock + ttl);
    if meta.None? then db.(sets := db.sets[user := set'])
    else
      var hash := HashKey(Meta(db, user)[jti := meta.value], db.clock + ttl);
      db.(sets := db.sets[user := set'], metas := db.metas[user := hash])
  }

  function Forget(db: Db, user: string, jtis: set<string>): Db {
    HDel(ZRem(db, user, jtis), user, jtis)
  }

  function Track(db: Db, user: string, jti: string, ttl: int, cap: int, meta: Option<string>): (Db, seq<string>) {
    var entered := Enter(db, user, jti, ttl, meta);
    var evicted := Capped(Tracked(entered, user), cap).1;
    (if evicted == [] then entered else Forget(entered, user, Listed(evicted)), evicted)
  }

  function Block(db: Db, jti: string, ttl: int): Db {
    db.(blocked := db.blocked[jti := db.clock + ttl])
  }

  function RevokeSession(db: Db, user: string, jti: string, ttl: int): (Db, bool) {
    if jti in Members(Tracked(db, user)) then (Block(Forget(db, user, {jti}), jti, ttl), true) else (db, false)
  }

  function Others(jtis: seq<string>, except: Option<string>): seq<string> {
    if jtis == [] then []
    else (if except == Some(jtis[0]) then [] else [jtis[0]]) + Others(jtis[1..], except)
  }

  function BlockAll(db: Db, jtis: seq<string>, ttl: int): Db {
    db.(blocked := db.blocked + Burnt(jtis, db.clock + ttl))
  }

  function Burnt(jtis: seq<string>, until: int): map<string, int> {
    map j | j in jtis :: until
  }

  lemma BlockAllOutcome(db: Db, jtis: seq<string>, ttl: int)
    requires ttl > 0
    ensures var after := BlockAll(db, jtis, ttl);
            && after.sets == db.sets && after.metas == db.metas && after.clock == db.clock
            && forall j :: IsBlocked(after, j) <==> IsBlocked(db, j) || j in jtis
  {
  }

  lemma BlockAllStep(db: Db, jtis: seq<string>, i: nat, ttl: int)
    requires i < |jtis|
    ensures BlockAll(db, jtis[..i + 1], ttl) == Block(BlockAll(db, jtis[..i], ttl), jtis[i], ttl)
  {
    var until := db.clock + ttl;
    BurnStep(jtis, i, until);
    hide Burnt;
    var less, more, j := Burnt(jtis[..i], until), Burnt(jtis[..i + 1], until), jtis[i];
    MapsJoin(db.blocked, less, j, until);
    assert BlockAll(db, jtis[..i + 1], ttl) == db.(blocked := db.blocked + more);
    assert Block(BlockAll(db, jtis[..i], ttl), j, ttl) == db.(blocked := (db.blocked + less)[j := until]);
  }

  lemma BlockAllNone(db: Db, ttl: int)
    ensures BlockAll(db, [], ttl) == db
  {
    assert db.blocked + Burnt([], db.clock + ttl) == db.blocked;
  }

  lemma MapsJoin(a: map<string, int>, b: map<string, int>, k: string, v: int)
    ensures a + b[k := v] == (a + b)[k := v]
  {
  }

  lemma BurnStep(jtis: seq<string>, i: nat, until: int)
    requires i < |jtis|
    ensures Burnt(jtis[..i + 1], until) == Burnt(jtis[..i], until)[jtis[i] := until]
  {
    forall j ensures j in jtis[..i + 1] <==> j in jtis[..i] || j == jtis[i] {
      assert jtis[..i + 1] == jtis[..i] + [jtis[i]];
    }
  }

  function RevokeAll(db: Db, user: string, ttl: int, except: Option<string>): (Db, seq<string>) {
    var all := Jtis(Tracked(db, user));
    var jtis := Others(all, except);
    var burned := BlockAll(db, jtis, ttl);
    if jtis == [] then (db, [])
    else if except.Some? && except.value in all then (Forget(burned, user, Listed(jtis)), jtis)
    else (burned.(sets := burned.sets - {user}, metas := burned.metas - {user}), jtis)
  }

  function Claim(db: Db, jti: string, ttl: int): (Db, bool) {
    if IsBlocked(db, jti) then (db, false) else (Block(db, jti, ttl), true)
  }

  // ----- what one operation does -----

  lemma ForgetOutcome(db: Db, user: string, jtis: set<string>)
    ensures var after := Forget(db, user, jtis);
            && Tracked(after, user) == Without(Tracked(db, user), jtis)
            && Meta(after, user) == Meta(db, user) - jtis
            && after.blocked == db.blocked && after.clock == db.clock
            && forall u :: u != user ==> Tracked(after, u) == Tracked(db, u) && Meta(after, u) == Meta(db, u)
  {
  }

  lemma EnterOutcome(db: Db, user: string, jti: string, ttl: int, meta: Option<string>)
    requires ttl > 0
    ensures var after := Enter(db, user, jti, ttl, meta);
            && Tracked(after, user) == Add(Tracked(db, user), jti, db.clock)
            && Meta(after, user) == (if meta.Some? then Meta(db, user)[jti := meta.value] else Meta(db, user))
            && after.blocked == db.blocked && after.clock == db.clock
            && forall u :: u != user ==> Tracked(after, u) == Tracked(db, u) && Meta(after, u) == Meta(db, u)
  {
  }

  lemma CappedKeeps(z: seq<Entry>, cap: int)
    requires Ordered(z)
    ensures Capped(z, cap).1 == [] ==> Capped(z, cap).0 == z
    ensures Capped(z, cap).1 == [] ==> Listed(Capped(z, cap).1) == {}
    ensures Without(z, Listed(Capped(z, cap).1)) == Capped(z, cap).0
  {
    var k := if 0 < cap < |z| then |z| - cap else 0;
    if k > 0 {
      JtisListed(z[..k]);
      WithoutLowest(z, k);
      assert |Jtis(z[..k])| == k;
    } else {
      WithoutNothing(z, Listed([]));
    }
  }

  /** Every login: the set becomes the `cap` highest entries after the ZADD, the others are
      returned oldest first and lose their metadata; nobody else changes. */
  lemma TrackOutcome(db: Db, user: string, jti: string, ttl: int, cap: int, meta: Option<string>)
    requires ttl > 0 && Ordered(Tracked(db, user))
    ensures var (after, evicted) := Track(db, user, jti, ttl, cap, meta);
            var described := if meta.Some? then Meta(db, user)[jti := meta.value] else Meta(db, user);
            && (Tracked(after, user), evicted) == Capped(Add(Tracked(db, user), jti, db.clock), cap)
            && Meta(after, user) == described - Listed(evicted)
            && after.blocked == db.blocked
            && forall u :: u != user ==> Tracked(after, u) == Tracked(db, u) && Meta(after, u) == Meta(db, u)
  {
    AddKeepsOrder(Tracked(db, user), jti, db.clock);
    EnterOutcome(db, user, jti, ttl, meta);
    var entered := Enter(db, user, jti, ttl, meta);
    CappedKeeps(Tracked(entered, user), cap);
    ForgetOutcome(entered, user, Listed(Capped(Tracked(entered, user), cap).1));
  }

  /** A login later than every tracked one: the newest `cap` of the old set plus the new jti
      stay, and the rest come back oldest first. */
  lemma TrackNewest(db: Db, user: string, jti: string, ttl: int, cap: int, meta: Option<string>)
    requires ttl > 0 && Ordered(Tracked(db, user)) && jti !in Members(Tracked(db, user))
    requires forall e :: e in Tracked(db, user) ==> e.score < db.clock
    ensures var (after, evicted) := Track(db, user, jti, ttl, cap, meta);
            var all := Tracked(db, user) + [Entry(db.clock, jti)];
            var surplus := if 0 < cap < |all| then |all| - cap else 0;
            Tracked(after, user) == all[surplus..] && evicted == Jtis(all[..surplus])
  {
    TrackOutcome(db, user, jti, ttl, cap, meta);
    var z := Tracked(db, user);
    hide Track, Tracked, Meta;
    AddLast(z, jti, db.clock);
    CappedIs(z + [Entry(db.clock, jti)], cap);
    hide Add, Ordered, Members, Jtis, Capped;
  }

  lemma CappedIs(all: seq<Entry>, cap: int)
    ensures var surplus := if 0 < cap < |all| then |all| - cap else 0;
            Capped(all, cap) == (all[surplus..], Jtis(all[..surplus]))
  {
    assert all[..0] == [] && all[0..] == all && Jtis([]) == [];
  }

  lemma AddLast(z: seq<Entry>, jti: string, score: int)
    requires jti !in Members(z) && forall e :: e in z ==> e.score < score
    ensures Add(z, jti, score) == z + [Entry(score, jti)]
  {
    WithoutNothing(z, {jti});
    AddLatest(z, Entry(score, jti));
  }

  lemma {:induction false} OthersExact(jtis: seq<string>, except: Option<string>)
    ensures forall j :: j in Others(jtis, except) <==> j in jtis && except != Some(j)
  {
    if jtis != [] {
      OthersExact(jtis[1..], except);
      assert jtis == [jtis[0]] + jtis[1..];
    }
  }

  lemma OthersOf(z: seq<Entry>, except: Option<string>)
    ensures forall j :: j in Others(Jtis(z), except) <==> j in Members(z) && except != Some(j)
  {
    OthersExact(Jtis(z), except);
    JtisListed(z);
  }

  lemma MembersHold(z: seq<Entry>)
    ensures forall e :: e in z ==> e.jti in Members(z)
  {
  }

  lemma RevokeAllTracked(db: Db, user: string, ttl: int, except: Option<string>, e: Entry)
    ensures e in Tracked(RevokeAll(db, user, ttl, except).0, user) <==> e in Tracked(db, user) && except == Some(e.jti)
  {
    var z := Tracked(db, user);
    var revoked := Others(Jtis(z), except);
    OthersOf(z, except);
    MembersHold(z);
    JtisListed(z);
    var burned := BlockAll(db, revoked, ttl);
    assert Tracked(burned, user) == z;
    hide BlockAll, Others, Jtis, Without, Listed, Members;
    if revoked != [] {
      if except.Some? && except.value in Jtis(z) {
        RevokedGone(z, revoked, e);
        ForgetOutcome(burned, user, Listed(revoked));
      }
    } else if e in z {
      assert e.jti !in revoked;
    }
  }

  lemma RevokedGone(z: seq<Entry>, revoked: seq<string>, e: Entry)
    ensures e in Without(z, Listed(revoked)) <==> e in z && e.jti !in revoked
  {
    WithoutContents(z, Listed(revoked));
  }

  lemma RevokeAllElsewhere(db: Db, user: string, ttl: int, except: Option<string>)
    requires ttl > 0
    ensures var (after, revoked) := RevokeAll(db, user, ttl, except);
            && (forall j :: IsBlocked(after, j) <==> IsBlocked(db, j) || j in revoked)
            && (forall u :: u != user ==> Tracked(after, u) == Tracked(db, u) && Meta(after, u) == Meta(db, u))
  {
    var revoked := Others(Jtis(Tracked(db, user)), except);
    var burned := BlockAll(db, revoked, ttl);
    BlockAllOutcome(db, revoked, ttl);
    ForgetOutcome(burned, user, Listed(revoked));
    var (after, _) := RevokeAll(db, user, ttl, except);
    hide BlockAll, Others, Jtis, Forget, Listed;
    assert after.clock == db.clock;
    assert revoked != [] ==> after.blocked == burned.blocked;
    assert forall j :: IsBlocked(after, j) <==> IsBlocked(db, j) || j in revoked;
    hide IsBlocked;
  }

  lemma {:induction false} OthersInOrder(z: seq<Entry>, except: Option<string>)
    ensures Others(Jtis(z), except) == Jtis(if except.Some? then Without(z, {except.value}) else z)
  {
    if z == [] {
      assert Jtis(z) == [];
    } else {
      OthersInOrder(z[1..], except);
      assert z == [z[0]] + z[1..];
      JtisCons(z[0], z[1..]);
      OthersCons(z[0].jti, Jtis(z[1..]), except);
      if except.Some? { JtisCons(z[0], Without(z[1..], {except.value})); }
      hide Others, Jtis;
    }
  }

  lemma OthersCons(j: string, rest: seq<string>, except: Option<string>)
    ensures Others([j] + rest, except) == if except == Some(j) then Others(rest, except) else [j] + Others(rest, except)
  {
    assert ([j] + rest)[1..] == rest;
  }

  lemma JtisCons(e: Entry, rest: seq<Entry>)
    ensures Jtis([e] + rest) == [e.jti] + Jtis(rest)
  {
  }

  lemma RevokeAllMeta(db: Db, user: string, ttl: int, except: Option<string>)
    ensures var (after, revoked) := RevokeAll(db, user, ttl, except);
            Meta(after, user) == if revoked == [] then Meta(db, user)
                                 else if except.Some? && except.value in Members(Tracked(db, user))
                                 then Meta(db, user) - Listed(revoked)
                                 else map[]
  {
    var z := Tracked(db, user);
    var burned := BlockAll(db, Others(Jtis(z), except), ttl);
    JtisListed(z);
    assert forall j :: j in Jtis(z) <==> j in Listed(Jtis(z));
    ForgetOutcome(burned, user, Listed(Others(Jtis(z), except)));
    hide BlockAll, Others, Jtis, Forget, Listed, Members;
  }

  /** "Sign out everywhere else": only the excepted jti stays, and only if it was tracked; every other tracked
      jti is returned, oldest first, and blocked; the metadata left is the kept session's, none if no
      session is kept; other users and other jtis are untouched. */
  lemma RevokeAllOutcome(db: Db, user: string, ttl: int, except: Option<string>)
    requires ttl > 0
    ensures var (after, revoked) := RevokeAll(db, user, ttl, except);
            && (forall e :: e in Tracked(after, user) <==> e in Tracked(db, user) && except == Some(e.jti))
            && (forall j :: j in revoked <==> j in Members(Tracked(db, user)) && except != Some(j))
            && revoked == Jtis(if except.Some? then Without(Tracked(db, user), {except.value}) else Tracked(db, user))
            && (forall j :: IsBlocked(after, j) <==> IsBlocked(db, j) || j in revoked)
            && (Meta(after, user) == if revoked == [] then Meta(db, user)
                                     else if except.Some? && except.value in Members(Tracked(db, user))
                                     then Meta(db, user) - Listed(revoked)
                                     else map[])
            && (forall u :: u != user ==> Tracked(after, u) == Tracked(db, u) && Meta(after, u) == Meta(db, u))
  {
    OthersOf(Tracked(db, user), except);
    OthersInOrder(Tracked(db, user), except);
    RevokeAllElsewhere(db, user, ttl, except);
    RevokeAllMeta(db, user, ttl, except);
    hide Tracked, Meta, IsBlocked, Jtis, Listed, Without, Members, Others;
    forall e
      ensures e in Tracked(RevokeAll(db, user, ttl, except).0, user)
              <==> e in Tracked(db, user) && except == Some(e.jti)
    {
      RevokeAllTracked(db, user, ttl, except, e);
    }
  }

  /** A jti is revocable only through the set it is tracked in; then it alone is gone and blocked. */
  lemma RevokeSessionOutcome(db: Db, user: string, jti: string, ttl: int)
    requires ttl > 0
    ensures var (after, done) := RevokeSession(db, user, jti, ttl);
            && (done <==> jti in Members(Tracked(db, user)))
            && (!done ==> after == db)
            && (done ==> Tracked(after, user) == Without(Tracked(db, user), {jti})
                         && Meta(after, user) == Meta(db, user) - {jti})
            && (forall j :: IsBlocked(after, j) <==> IsBlocked(db, j) || (done && j == jti))
            && (forall u :: u != user ==> Tracked(after, u) == Tracked(db, u) && Meta(after, u) == Meta(db, u))
  {
    ForgetOutcome(db, user, {jti});
    hide Forget, Without;
  }

  // ----- whole runs, each call with its own lifetime -----

  datatype Op =
    | Wait(seconds: nat)
    | Login(user: string, jti: string, ttl: int, cap: int, meta: Option<string>)
    | Logout(user: string, jti: string)
    | Prune(user: string, jtis: seq<string>)
    | Revoke(user: string, jti: string, ttl: int)
    | SignOutElsewhere(user: string, ttl: int, except: Option<string>)
    | ClaimToken(jti: string, ttl: int)
    | BlockToken(jti: string, ttl: int)

  function Apply(db: Db, op: Op): Db {
    match op
    case Wait(d) => Later(db, d)
    case Login(u, j, ttl, cap, meta) => Track(db, u, j, ttl, cap, meta).0
    case Logout(u, j) => Forget(db, u, {j})
    case Prune(u, js) => if js == [] then db else Forget(db, u, Listed(js))
    case Revoke(u, j, ttl) => RevokeSession(db, u, j, ttl).0
    case SignOutElsewhere(u, ttl, except) => RevokeAll(db, u, ttl, except).0
    case ClaimToken(j, ttl) => Claim(db, j, ttl).0
    case BlockToken(j, ttl) => Block(db, j, ttl)
  }

  function Later(db: Db, d: nat): Db {
    db.(clock := db.clock + d)
  }

  function Run(db: Db, ops: seq<Op>): Db
    decreases |ops|
  {
    if ops == [] then db else Run(Apply(db, ops[0]), ops[1..])
  }

  function Empty(clock: int): Db {
    Db(clock, map[], map[], map[])
  }

  /** Redis refuses a SETEX whose time is not positive; logins live for a positive time too. */
  predicate Positive(ops: seq<Op>) {
    forall op :: op in ops ==>
      match op
      case Login(_, _, ttl, _, _) => ttl > 0
      case Revoke(_, _, ttl) => ttl > 0
      case SignOutElsewhere(_, ttl, _) => ttl > 0
      case ClaimToken(_, ttl) => ttl > 0
      case BlockToken(_, ttl) => ttl > 0
      case _ => true
  }

  // ----- order and times -----

  /** Every set is ordered and holds no future score. */
  ghost predicate Tidy(db: Db) {
    forall u :: u in db.sets ==>
      Ordered(db.sets[u].entries) && forall e :: e in db.sets[u].entries ==> e.score <= db.clock
  }

  lemma EnterTidy(db: Db, user: string, jti: string, ttl: int, meta: Option<string>)
    requires Tidy(db)
    ensures Tidy(Enter(db, user, jti, ttl, meta))
  {
    var z := Tracked(db, user);
    AddKeepsOrder(z, jti, db.clock);
    WithoutContents(z, {jti});
    InsertContents(Without(z, {jti}), Entry(db.clock, jti));
  }

  lemma ForgetTidy(db: Db, user: string, jtis: set<string>)
    requires Tidy(db)
    ensures Tidy(Forget(db, user, jtis))
  {
    if user in db.sets {
      WithoutContents(db.sets[user].entries, jtis);
      WithoutOrdered(db.sets[user].entries, jtis);
    }
  }

  lemma ApplyTidy(db: Db, op: Op)
    requires Tidy(db)
    ensures Tidy(Apply(db, op)) && Apply(db, op).clock >= db.clock
  {
    match op
    case Login(u, j, ttl, cap, meta) =>
      EnterTidy(db, u, j, ttl, meta);
      ForgetTidy(Enter(db, u, j, ttl, meta), u, Listed(Track(db, u, j, ttl, cap, meta).1));
    case Logout(u, j) => ForgetTidy(db, u, {j});
    case Prune(u, js) => ForgetTidy(db, u, Listed(js));
    case Revoke(u, j, ttl) => ForgetTidy(db, u, {j});
    case SignOutElsewhere(u, ttl, except) =>
      var jtis := Others(Jtis(Tracked(db, u)), except);
      ForgetTidy(BlockAll(db, jtis, ttl), u, Listed(jtis));
    case _ =>
  }

  lemma {:induction false} RunTidy(db: Db, ops: seq<Op>)
    requires Tidy(db)
    ensures Tidy(Run(db, ops))
    decreases |ops|
  {
    if ops != [] {
      ApplyTidy(db, ops[0]);
      RunTidy(Apply(db, ops[0]), ops[1..]);
    }
  }

  /** In every reachable state a login after any wait is later than all tracked ones, so `TrackNewest` applies
      to each login of a run with strictly increasing times. */
  lemma LaterLoginIsNewest(clock: int, ops: seq<Op>, d: nat, user: string)
    requires d > 0
    ensures var db := Later(Run(Empty(clock), ops), d);
            Ordered(Tracked(db, user)) && forall e :: e in Tracked(db, user) ==> e.score < db.clock
  {
    RunTidy(Empty(clock), ops);
  }

  // ----- metadata -----

  /** A live, non-empty hash belongs to a set that lives at least as long and tracks all its jtis. */
  ghost predicate Described(db: Db, user: string) {
    user in db.metas && db.clock < db.metas[user].deadline && db.metas[user].fields != map[] ==>
      && user in db.sets && db.metas[user].deadline <= db.sets[user].deadline
      && db.metas[user].fields.Keys <= Members(db.sets[user].entries)
  }

  ghost predicate AllDescribed(db: Db) {
    forall u :: Described(db, u)
  }

  /** Now and however long one waits, the hash holds no jti the set does not track. */
  ghost predicate Bounded(db: Db) {
    forall d: nat, u :: Meta(Later(db, d), u).Keys <= Members(Tracked(Later(db, d), u))
  }

  lemma BoundedIs(db: Db)
    ensures Bounded(db) <==> AllDescribed(db)
  {
    if AllDescribed(db) {
      forall d: nat, u ensures Meta(Later(db, d), u).Keys <= Members(Tracked(Later(db, d), u)) {
        assert Described(db, u);
      }
    }
    if Bounded(db) {
      forall u ensures Described(db, u) {
        BoundedUser(db, u);
      }
    }
  }

  lemma BoundedUser(db: Db, u: string)
    requires Bounded(db)
    ensures Described(db, u)
  {
    if u in db.metas && db.clock < db.metas[u].deadline && db.metas[u].fields != map[] {
      var k :| k in db.metas[u].fields;
      assert Meta(Later(db, 0), u).Keys <= Members(Tracked(Later(db, 0), u));
      assert k in Meta(Later(db, 0), u);
      var left: nat := db.metas[u].deadline - 1 - db.clock;
      assert Meta(Later(db, left), u).Keys <= Members(Tracked(Later(db, left), u));
      assert k in Meta(Later(db, left), u);
    }
  }

  /** A login without metadata that gives the set less time than its hash has left, the hash describing a
      session that this login does not evict. */
  predicate Brief(db: Db, op: Op) {
    && op.Login? && op.meta.None? && op.user in db.metas
    && db.clock + op.ttl < db.metas[op.user].deadline
    && exists j :: j in Meta(db, op.user) && j !in Capped(Add(Tracked(db, op.user), op.jti, db.clock), op.cap).1
  }

  lemma EnterMembers(db: Db, user: string, jti: string, ttl: int, meta: Option<string>)
    ensures var after := Enter(db, user, jti, ttl, meta);
            && user in after.sets && after.sets[user].deadline == db.clock + ttl
            && Members(after.sets[user].entries) == Members(Tracked(db, user)) + {jti}
  {
    WithoutContents(Tracked(db, user), {jti});
    InsertContents(Without(Tracked(db, user), {jti}), Entry(db.clock, jti));
  }

  /** What a login does to the metadata and the set it belongs to. */
  lemma LoginShape(db: Db, op: Op)
    requires op.Login? && op.ttl > 0
    ensures var u := op.user;
            var after, gone := Apply(db, op), Listed(Capped(Add(Tracked(db, u), op.jti, db.clock), op.cap).1);
            && after.clock == db.clock && u in after.sets && after.sets[u].deadline == db.clock + op.ttl
            && Members(after.sets[u].entries) == Members(Tracked(db, u)) + {op.jti} - gone
            && (op.meta.None? ==> (u in after.metas <==> u in db.metas))
            && (op.meta.None? && u in db.metas ==>
                  && after.metas[u].deadline == db.metas[u].deadline
                  && after.metas[u].fields == db.metas[u].fields - gone)
            && (op.meta.Some? ==>
                  && u in after.metas && after.metas[u].deadline == db.clock + op.ttl
                  && after.metas[u].fields == Meta(db, u)[op.jti := op.meta.value] - gone)
  {
    var u := op.user;
    var entered := Enter(db, u, op.jti, op.ttl, op.meta);
    EnterMembers(db, u, op.jti, op.ttl, op.meta);
    EnterOutcome(db, u, op.jti, op.ttl, op.meta);
    var gone := Listed(Capped(Tracked(entered, u), op.cap).1);
    WithoutContents(entered.sets[u].entries, gone);
    assert Capped(Tracked(entered, u), op.cap).1 == [] ==> gone == {};
    hide Add, Without, Capped, Members, Listed;
    assert (gone == {} && Apply(db, op) == entered) || Apply(db, op) == Forget(entered, u, gone);
  }

  lemma LoginDescribed(db: Db, op: Op)
    requires op.Login? && op.ttl > 0 && Described(db, op.user)
    ensures Described(Apply(db, op), op.user) <==> !Brief(db, op)
  {
    LoginShape(db, op);
    var u, evicted := op.user, Capped(Add(Tracked(db, op.user), op.jti, db.clock), op.cap).1;
    assert forall j :: j in Listed(evicted) <==> j in evicted;
    hide Apply, Add, Capped, Members, Listed;
    if op.meta.None? && u in db.metas && db.clock < db.metas[u].deadline {
      assert forall j :: j in db.metas[u].fields - Listed(evicted) <==> j in Meta(db, u) && j !in evicted;
      assert Apply(db, op).metas[u].fields != map[] <==> exists j :: j in Meta(db, u) && j !in evicted;
    }
  }

  lemma ForgetDescribed(db: Db, user: string, jtis: set<string>)
    requires AllDescribed(db)
    ensures AllDescribed(Forget(db, user, jtis))
  {
    if user in db.sets { WithoutContents(db.sets[user].entries, jtis); }
    hide Without, Members;
    forall u ensures Described(Forget(db, user, jtis), u) {
      assert Described(db, u);
    }
  }

  /** A state whose keys are as before, or gone together, still describes. */
  lemma Untouched(db: Db, after: Db)
    requires AllDescribed(db) && after.clock >= db.clock
    requires forall u :: u in after.sets ==> u in db.sets && after.sets[u] == db.sets[u]
    requires forall u :: u in after.metas ==>
               u in db.metas && after.metas[u] == db.metas[u] && (u in db.sets ==> u in after.sets)
    ensures AllDescribed(after)
  {
    forall u ensures Described(after, u) {
      assert Described(db, u);
    }
  }

  lemma RevokeAllDescribed(db: Db, user: string, ttl: int, except: Option<string>)
    requires AllDescribed(db)
    ensures AllDescribed(RevokeAll(db, user, ttl, except).0)
  {
    var jtis := Others(Jtis(Tracked(db, user)), except);
    var burned := BlockAll(db, jtis, ttl);
    Untouched(db, burned);
    ForgetDescribed(burned, user, Listed(jtis));
    Untouched(burned, burned.(sets := burned.sets - {user}, metas := burned.metas - {user}));
  }

  lemma LoginElsewhere(db: Db, op: Op, u: string)
    requires op.Login? && u != op.user && Described(db, u)
    ensures Described(Apply(db, op), u)
  {
    var entered := Enter(db, op.user, op.jti, op.ttl, op.meta);
    var gone := Listed(Track(db, op.user, op.jti, op.ttl, op.cap, op.meta).1);
    hide Add, Without, Capped, Members, Listed;
    assert Apply(db, op) == entered || Apply(db, op) == Forget(entered, op.user, gone);
  }

  lemma ApplyDescribed(db: Db, op: Op)
    requires AllDescribed(db) && Positive([op])
    ensures AllDescribed(Apply(db, op)) <==> !Brief(db, op)
  {
    match op
    case Login(_, _, _, _, _) => {
      assert op in [op];
      LoginDescribed(db, op);
      hide Apply, Described, Brief;
      forall u | u != op.user ensures Described(Apply(db, op), u) {
        LoginElsewhere(db, op, u);
      }
    }
    case Logout(u, j) => ForgetDescribed(db, u, {j});
    case Prune(u, js) => ForgetDescribed(db, u, Listed(js));
    case Revoke(u, j, ttl) =>
      ForgetDescribed(db, u, {j});
      Untouched(Forget(db, u, {j}), Block(Forget(db, u, {j}), j, ttl));
    case SignOutElsewhere(u, ttl, except) => RevokeAllDescribed(db, u, ttl, except);
    case _ => Untouched(db, Apply(db, op));
  }

  /** No login of the run is brief. */
  predicate Spanning(db: Db, ops: seq<Op>)
    decreases |ops|
  {
    ops != [] ==> !Brief(db, ops[0]) && Spanning(Apply(db, ops[0]), ops[1..])
  }

  /** At every moment of the run, and however long one waits there. */
  ghost predicate AlwaysBounded(db: Db, ops: seq<Op>)
    decreases |ops|
  {
    Bounded(db) && (ops != [] ==> AlwaysBounded(Apply(db, ops[0]), ops[1..]))
  }

  /** Metadata never describes a session that is not tracked, through expiry, eviction, logout, pruning and
      revocation, exactly when no login of the run is brief. */
  lemma {:induction false} MetadataBoundedExactly(db: Db, ops: seq<Op>)
    requires AllDescribed(db) && Positive(ops)
    ensures AlwaysBounded(db, ops) <==> Spanning(db, ops)
    decreases |ops|
  {
    BoundedIs(db);
    if ops != [] {
      assert ops[0] in ops && forall op :: op in ops[1..] ==> op in ops;
      ApplyDescribed(db, ops[0]);
      var after := Apply(db, ops[0]);
      hide Apply, Bounded, Brief, AllDescribed;
      if Brief(db, ops[0]) {
        BoundedIs(after);
      } else {
        MetadataBoundedExactly(after, ops[1..]);
      }
    }
  }

  predicate OneTtl(ops: seq<Op>, ttl: int) {
    forall op :: op in ops && op.Login? ==> op.ttl == ttl
  }

  lemma {:induction false} OneTtlSpans(db: Db, ops: seq<Op>, ttl: int)
    requires OneTtl(ops, ttl) && forall u :: u in db.metas ==> db.metas[u].deadline <= db.clock + ttl
    ensures Spanning(db, ops)
    decreases |ops|
  {
    if ops != [] {
      assert ops[0] in ops && forall op :: op in ops[1..] ==> op in ops;
      DeadlinesWithin(db, ops[0], ttl);
      OneTtlSpans(Apply(db, ops[0]), ops[1..], ttl);
    }
  }

  lemma DeadlinesWithin(db: Db, op: Op, ttl: int)
    requires op.Login? ==> op.ttl == ttl
    requires forall u :: u in db.metas ==> db.metas[u].deadline <= db.clock + ttl
    ensures var after := Apply(db, op); forall u :: u in after.metas ==> after.metas[u].deadline <= after.clock + ttl
  {
    hide Add, Without, Capped, Members, Listed, Others, Jtis, Burnt;
  }

  /** With one login lifetime, over every run from the empty store. */
  lemma MetadataNeverOutlives(clock: int, ops: seq<Op>, ttl: int)
    requires Positive(ops) && OneTtl(ops, ttl)
    ensures AlwaysBounded(Empty(clock), ops)
  {
    OneTtlSpans(Empty(clock), ops, ttl);
    MetadataBoundedExactly(Empty(clock), ops);
  }

  /** A login's set lives exactly the time it gave, however long one waits, and so does its metadata; a login that
      brings none leaves the hash its old time. */
  lemma SetLivesItsTime(db: Db, user: string, jti: string, ttl: int, cap: int, meta: Option<string>, d: nat)
    requires ttl > 0
    ensures var (now, evicted) := Track(db, user, jti, ttl, cap, meta);
            && Tracked(Later(now, d), user) == (if d < ttl then Tracked(now, user) else [])
            && Meta(Later(now, d), user) == (if meta.None? then Meta(Later(db, d), user) - Listed(evicted)
                                             else if d < ttl then Meta(now, user) else map[])
  {
    TrackDeadline(db, user, jti, ttl, cap, meta);
    hide Track;
  }

  lemma TrackDeadline(db: Db, user: string, jti: string, ttl: int, cap: int, meta: Option<string>)
    ensures var (after, evicted) := Track(db, user, jti, ttl, cap, meta);
            && after.clock == db.clock && user in after.sets && after.sets[user].deadline == db.clock + ttl
            && (meta.Some? ==> user in after.metas && after.metas[user].deadline == db.clock + ttl)
            && (meta.None? ==>
                  && (user in after.metas <==> user in db.metas)
                  && (user in db.metas ==>
                        after.metas[user] == HashKey(db.metas[user].fields - Listed(evicted), db.metas[user].deadline)))
  {
    hide Add, Capped, Without, Members;
    var evicted := Track(db, user, jti, ttl, cap, meta).1;
    if evicted == [] {
      assert Listed(evicted) == {};
      if user in db.metas { assert db.metas[user].fields - {} == db.metas[user].fields; }
    }
  }

  // ----- the blocklist -----

  /** When the operation's write to the jti's key ends, if it writes it. */
  function Ends(db: Db, op: Op, jti: string): Option<int> {
    match op
    case BlockToken(j, ttl) => if j == jti then Some(db.clock + ttl) else None
    case ClaimToken(j, ttl) => if j == jti && !IsBlocked(db, j) then Some(db.clock + ttl) else None
    case Revoke(u, j, ttl) => if j == jti && j in Members(Tracked(db, u)) then Some(db.clock + ttl) else None
    case SignOutElsewhere(u, ttl, except) =>
      if jti in Members(Tracked(db, u)) && except != Some(jti) then Some(db.clock + ttl) else None
    case _ => None
  }

  lemma SignOutEnds(db: Db, u: string, ttl: int, except: Option<string>, jti: string)
    ensures var after, jtis := RevokeAll(db, u, ttl, except).0, RevokeAll(db, u, ttl, except).1;
            && after.clock == db.clock
            && (jti in jtis <==> jti in Members(Tracked(db, u)) && except != Some(jti))
            && (jti in jtis ==> jti in after.blocked && after.blocked[jti] == db.clock + ttl)
            && (jti !in jtis ==> (jti in after.blocked <==> jti in db.blocked)
                                 && (jti in db.blocked ==> after.blocked[jti] == db.blocked[jti]))
  {
    var jtis := Others(Jtis(Tracked(db, u)), except);
    OthersOf(Tracked(db, u), except);
    ForgetOutcome(BlockAll(db, jtis, ttl), u, Listed(jtis));
    hide Others, Jtis, Members, Listed, Forget;
  }

  /** `Ends` says all that an operation does to the key. */
  lemma EndsIs(db: Db, op: Op, jti: string)
    ensures var after, end := Apply(db, op), Ends(db, op, jti);
            && after.clock >= db.clock
            && (end.Some? ==> jti in after.blocked && after.blocked[jti] == end.value)
            && (end.None? ==> (jti in after.blocked <==> jti in db.blocked)
                              && (jti in db.blocked ==> after.blocked[jti] == db.blocked[jti]))
  {
    match op
    case SignOutElsewhere(u, ttl, except) => SignOutEnds(db, u, ttl, except, jti);
    case Login(u, j, ttl, cap, meta) => LoginBlocksNothing(db, u, j, ttl, cap, meta);
    case Revoke(u, j, ttl) => ForgetOutcome(db, u, {j}); hide Forget, Members;
    case _ => hide Without, Members, Listed;
  }

  lemma LoginBlocksNothing(db: Db, user: string, jti: string, ttl: int, cap: int, meta: Option<string>)
    ensures var after := Track(db, user, jti, ttl, cap, meta).0; after.blocked == db.blocked && after.clock == db.clock
  {
    hide Add, Without, Capped, Listed;
  }

  /** The jti is blocked now and however long one waits until then. */
  ghost predicate Endures(db: Db, jti: string, until: int) {
    forall d: nat :: Later(db, d).clock < until ==> IsBlocked(Later(db, d), jti)
  }

  lemma EnduresIs(db: Db, jti: string, until: int)
    ensures Endures(db, jti, until) <==> (until <= db.clock || (jti in db.blocked && until <= db.blocked[jti]))
  {
    if Endures(db, jti, until) && db.clock < until {
      var left: nat := until - 1 - db.clock;
      assert Later(db, 0).clock < until && Later(db, left).clock < until;
      assert IsBlocked(Later(db, 0), jti) && IsBlocked(Later(db, left), jti);
    }
  }

  ghost predicate AlwaysEndures(db: Db, ops: seq<Op>, jti: string, until: int)
    decreases |ops|
  {
    Endures(db, jti, until) && (ops != [] ==> AlwaysEndures(Apply(db, ops[0]), ops[1..], jti, until))
  }

  /** No write to the jti's key before `until` ends before it. */
  predicate NeverShortened(db: Db, ops: seq<Op>, jti: string, until: int)
    decreases |ops|
  {
    ops != [] ==>
      && !(db.clock < until && Ends(db, ops[0], jti).Some? && Ends(db, ops[0], jti).value < until)
      && NeverShortened(Apply(db, ops[0]), ops[1..], jti, until)
  }

  /** A blocked jti stays blocked to its time, at every moment of a run and however long one waits, exactly when
      nothing overwrites its key with an earlier end. */
  lemma {:induction false} BlockEnduresExactly(db: Db, ops: seq<Op>, jti: string, until: int)
    requires Endures(db, jti, until)
    ensures AlwaysEndures(db, ops, jti, until) <==> NeverShortened(db, ops, jti, until)
    decreases |ops|
  {
    if ops != [] {
      var after := Apply(db, ops[0]);
      EndsIs(db, ops[0], jti);
      EnduresIs(db, jti, until);
      EnduresIs(after, jti, until);
      hide Apply, Ends, Endures;
      if Endures(after, jti, until) {
        BlockEnduresExactly(after, ops[1..], jti, until);
      }
    }
  }

  /** After a jti is claimed nobody can claim it again before its time, exactly when nothing overwrites its key
      with an earlier end. */
  lemma ClaimedOnce(db: Db, jti: string, ttl: int, between: seq<Op>)
    requires ttl > 0 && Claim(db, jti, ttl).1
    ensures var claimed, until := Claim(db, jti, ttl).0, db.clock + ttl;
            AlwaysEndures(claimed, between, jti, until) <==> NeverShortened(claimed, between, jti, until)
    ensures forall late, t: int :: Claim(late, jti, t).1 <==> !IsBlocked(late, jti)
  {
    EnduresIs(Claim(db, jti, ttl).0, jti, db.clock + ttl);
    BlockEnduresExactly(Claim(db, jti, ttl).0, between, jti, db.clock + ttl);
  }

  /** Every jti a sign-out-elsewhere returned stays blocked for its whole TTL, exactly when nothing overwrites
      its key with an earlier end. */
  lemma RevokedStaysBlocked(db: Db, user: string, ttl: int, except: Option<string>, later: seq<Op>, jti: string)
    requires ttl > 0 && jti in RevokeAll(db, user, ttl, except).1
    ensures var after, until := RevokeAll(db, user, ttl, except).0, db.clock + ttl;
            AlwaysEndures(after, later, jti, until) <==> NeverShortened(after, later, jti, until)
  {
    var after := RevokeAll(db, user, ttl, except).0;
    SignOutEnds(db, user, ttl, except, jti);
    hide RevokeAll, Members, Tracked, Endures, AlwaysEndures, NeverShortened;
    EnduresIs(after, jti, db.clock + ttl);
    BlockEnduresExactly(after, later, jti, db.clock + ttl);
  }

  /** It can happen: a block of one second ends an hour's claim, and the token is claimed again. */
  lemma ShortBlockReopens(jti: string)
    ensures var claimed := Claim(Empty(0), jti, 3600).0;
            var late := Run(claimed, [BlockToken(jti, 1), Wait(2)]);
            Claim(Empty(0), jti, 3600).1 && late.clock < 3600 && Claim(late, jti, 3600).1
  {
    var ops := [BlockToken(jti, 1), Wait(2)];
    assert ops[1..] == [Wait(2)] && [Wait(2)][1..] == [];
    var claimed := Claim(Empty(0), jti, 3600).0;
    assert Run(claimed, ops) == Run(Later(Block(claimed, jti, 1), 2), []);
  }

  // ----- the module's functions, command by command -----

  class Sessions {
    var clock: int
    var sets: map<string, SetKey>
    var metas: map<string, HashKey>
    var blocked: map<string, int>

    constructor (now: int)
      ensures View() == Db(now, map[], map[], map[])
    {
      clock, sets, metas, blocked := now, map[], map[], map[];
    }

    function View(): Db
      reads this
    {
      Db(clock, sets, metas, blocked)
    }

    /** Every tracked set is ordered: what ZADD maintains. */
    ghost predicate Valid()
      reads this
    {
      forall u :: u in sets ==> Ordered(sets[u].entries)
    }

    method TrackSession(user: string, jti: string, ttlSeconds: int, maxSessions: int, meta: Option<string>)
      returns (evicted: seq<string>)
      requires Valid()
      modifies this
      ensures Valid()
      ensures View() == Track(old(View()), user, jti, ttlSeconds, maxSessions, meta).0
      ensures evicted == Track(old(View()), user, jti, ttlSeconds, maxSessions, meta).1
    {
      Record(user, jti, ttlSeconds, meta);
      evicted := [];
      if maxSessions > 0 {
        var count := |Tracked(View(), user)|;
        if count > maxSessions {
          evicted := Decoded(Lowest(Tracked(View(), user), count - maxSessions));
          DropSessions(user, evicted);
        }
      }
    }

    method Record(user: string, jti: string, ttlSeconds: int, meta: Option<string>)
      requires Valid()
      modifies this
      ensures Valid() && View() == Enter(old(View()), user, jti, ttlSeconds, meta)
    {
      var db := View();
      AddKeepsOrder(Tracked(db, user), jti, clock);
      sets := sets[user := SetKey(Add(Tracked(db, user), jti, clock), clock + ttlSeconds)];
      if meta.Some? {
        metas := metas[user := HashKey(Meta(db, user)[jti := meta.value], clock + ttlSeconds)];
      }
    }

    method Decoded(members: seq<Entry>) returns (jtis: seq<string>)
      ensures jtis == Jtis(members)
    {
      jtis := [];
      var i := 0;
      while i < |members|
        invariant 0 <= i <= |members|
        invariant jtis == Jtis(members)[..i]
      {
        jtis := jtis + [members[i].jti];
        i := i + 1;
      }
    }

    method DropSessions(user: string, jtis: seq<string>)
      requires Valid()
      modifies this
      ensures Valid()
      ensures View() == if jtis == [] then old(View()) else Forget(old(View()), user, Listed(jtis))
    {
      if jtis == [] {
        return;
      }
      if user in sets {
        WithoutOrdered(sets[user].entries, Listed(jtis));
        sets := sets[user := sets[user].(entries := Without(sets[user].entries, Listed(jtis)))];
      }
      if user in metas {
        metas := metas[user := metas[user].(fields := metas[user].fields - Listed(jtis))];
      }
    }

    method UntrackSession(user: string, jti: string)
      requires Valid()
      modifies this
      ensures Valid()
      ensures View() == Forget(old(View()), user, {jti})
    {
      DropSessions(user, [jti]);
      assert Listed([jti]) == {jti};
    }

    method RevokeOne(user: string, jti: string, ttlSeconds: int) returns (done: bool)
      requires Valid()
      modifies this
      ensures Valid()
      ensures View() == RevokeSession(old(View()), user, jti, ttlSeconds).0
      ensures done == RevokeSession(old(View()), user, jti, ttlSeconds).1
    {
      done := jti in Members(Tracked(View(), user));
      if done {
        UntrackSession(user, jti);
        blocked := blocked[jti := clock + ttlSeconds];
      }
    }

    method RevokeAllSessions(user: string, ttlSeconds: int, except: Option<string>) returns (jtis: seq<string>)
      requires Valid()
      modifies this
      ensures Valid()
      ensures View() == RevokeAll(old(View()), user, ttlSeconds, except).0
      ensures jtis == RevokeAll(old(View()), user, ttlSeconds, except).1
    {
      var members := Jtis(Tracked(View(), user));
      jtis := Others(members, except);
      Burn(jtis, ttlSeconds);
      if jtis == [] {
        return;
      }
      if except.Some? && except.value in members {
        DropSessions(user, jtis);
      } else {
        sets := sets - {user};
        metas := metas - {user};
      }
    }

    method Burn(jtis: seq<string>, ttlSeconds: int)
      modifies this`blocked
      ensures jtis == [] ==> View() == old(View())
      ensures View() == BlockAll(old(View()), jtis, ttlSeconds)
    {
      hide BlockAll;
      BlockAllNone(View(), ttlSeconds);
      assert jtis[..0] == [];
      var i := 0;
      while i < |jtis|
        invariant 0 <= i <= |jtis|
        invariant View() == BlockAll(old(View()), jtis[..i], ttlSeconds)
      {
        BlockAllStep(old(View()), jtis, i, ttlSeconds);
        blocked := blocked[jtis[i] := clock + ttlSeconds];
        i := i + 1;
      }
      assert jtis[..i] == jtis;
    }

    method ClaimTokenBlock(jti: string, expiresIn: int) returns (won: bool)
      modifies this
      ensures View() == Claim(old(View()), jti, expiresIn).0
      ensures won == Claim(old(View()), jti, expiresIn).1
    {
      won := !IsBlocked(View(), jti);
      if won {
        blocked := blocked[jti := clock + expiresIn];
      }
    }
  }
}
