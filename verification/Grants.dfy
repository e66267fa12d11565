/** The sandbox company's OAuth grants: single-use codes, rotating refresh tokens, and
    revocation of a whole grant, between two resets of the module's state. */
module Grants {
  import opened Digits
  import opened Wrappers

  const TOKEN_PREFIX := "fake-qbo-sandbox-"
  const DEFAULT_ACCESS_TTL := 3600
  const REFRESH_TTL := 8726400

  datatype Kind = CodeKind | AccessKind | RefreshKind

  function KindText(kind: Kind): string {
    match kind
    case CodeKind => "code"
    case AccessKind => "access"
    case RefreshKind => "refresh"
  }

  function TokenText(kind: Kind, n: nat): string {
    TOKEN_PREFIX + KindText(kind) + "-" + Numeral(n)
  }

  /** `access` maps each access token of the grant to its expiry. */
  datatype Connection = Connection(refresh: Option<string>, refreshExpires: int, access: map<string, int>)

  datatype State = State(clock: int, counter: nat, codes: map<string, string>, connections: seq<Connection>,
                         accessTtl: int, refreshes: nat, rejected: nat, revocations: seq<string>)

  datatype Request =
    | Authorize(redirect: string)
    | Redeem(code: string, redirectUri: Option<string>)
    | Refresh(token: string)
    | OtherGrant
    | Revoke(token: string)
    | ApiCall(bearer: string)
    | SetAccessTtl(ttl: int)
    | ExpireAccess
    | RevokeConsent
    | Wait(seconds: nat)

  datatype Reply =
    | Code(code: string)
    | Tokens(access: string, refresh: string, expiresIn: int)
    | InvalidGrant
    | UnsupportedGrantType
    | Done
    | Authenticated
    | Unauthorized

  const FRESH := State(0, 0, map[], [], DEFAULT_ACCESS_TTL, 0, 0, [])

  // ----- the transitions -----

  /** Two mints and the bookkeeping of connection `i`. */
  function Issue(s: State, i: nat): (State, Reply)
    requires i < |s.connections|
  {
    var access, refresh := TokenText(AccessKind, s.counter + 1), TokenText(RefreshKind, s.counter + 2);
    var c := s.connections[i];
    var issued := Connection(Some(refresh), s.clock + REFRESH_TTL, c.access[access := s.clock + s.accessTtl]);
    (s.(counter := s.counter + 2, connections := s.connections[i := issued]), Tokens(access, refresh, s.accessTtl))
  }

  /** The first connection whose current refresh token this is, or their number. */
  function ConnectionOfRefresh(connections: seq<Connection>, token: string): (i: nat)
    ensures i <= |connections|
    ensures i < |connections| ==> connections[i].refresh == Some(token)
    ensures forall k :: 0 <= k < i ==> connections[k].refresh != Some(token)
  {
    if connections == [] || connections[0].refresh == Some(token) then 0
    else ConnectionOfRefresh(connections[1..], token) + 1
  }

  predicate Holds(c: Connection, token: string) {
    c.refresh == Some(token) || token in c.access
  }

  function Ended(c: Connection): Connection {
    c.(refresh := None, access := map[])
  }

  function EndMatching(connections: seq<Connection>, token: string): seq<Connection> {
    seq(|connections|, i requires 0 <= i < |connections| =>
      if Holds(connections[i], token) then Ended(connections[i]) else connections[i])
  }

  predicate Accepts(s: State, bearer: string) {
    exists i :: 0 <= i < |s.connections| && bearer in s.connections[i].access
                && s.connections[i].access[bearer] > s.clock
  }

  function Serve(s: State, request: Request): (State, Reply) {
    match request
    case Authorize(redirect) =>
      var code := TokenText(CodeKind, s.counter + 1);
      (s.(counter := s.counter + 1, codes := s.codes[code := redirect]), Code(code))
    case Redeem(code, redirectUri) =>
      var popped := s.(codes := s.codes - {code});
      if code !in s.codes || redirectUri != Some(s.codes[code]) then (popped, InvalidGrant)
      else Issue(popped.(connections := s.connections + [Connection(None, 0, map[])]), |s.connections|)
    case Refresh(token) =>
      var i := ConnectionOfRefresh(s.connections, token);
      if i == |s.connections| || s.connections[i].refreshExpires <= s.clock then (s, InvalidGrant)
      else Issue(s.(refreshes := s.refreshes + 1), i)
    case OtherGrant => (s, UnsupportedGrantType)
    case Revoke(token) =>
      (s.(revocations := s.revocations + [token], connections := EndMatching(s.connections, token)), Done)
    case ApiCall(bearer) =>
      if Accepts(s, bearer) then (s, Authenticated) else (s.(rejected := s.rejected + 1), Unauthorized)
    case SetAccessTtl(ttl) => (s.(accessTtl := ttl), Done)
    case ExpireAccess =>
      (s.(connections := seq(|s.connections|, i requires 0 <= i < |s.connections| =>
        s.connections[i].(access := map t | t in s.connections[i].access :: 0))), Done)
    case RevokeConsent =>
      (s.(connections := seq(|s.connections|, i requires 0 <= i < |s.connections| => Ended(s.connections[i]))), Done)
    case Wait(seconds) => (s.(clock := s.clock + seconds), Done)
  }

  function After(s: State, requests: seq<Request>): State
    decreases |requests|
  {
    if requests == [] then s else After(Serve(s, requests[0]).0, requests[1..])
  }

  /** The connection a token request is about to issue for. */
  function GrantOf(s: State, request: Request): nat {
    match request
    case Redeem(_, _) => |s.connections|
    case Refresh(token) => ConnectionOfRefresh(s.connections, token)
    case _ => 0
  }

  // ----- token texts -----

  ghost predicate Minted(kind: Kind, token: string, counter: nat) {
    exists n :: 0 < n <= counter && token == TokenText(kind, n)
  }

  lemma TokenTextInjective(k1: Kind, n1: nat, k2: Kind, n2: nat)
    requires TokenText(k1, n1) == TokenText(k2, n2)
    ensures k1 == k2 && n1 == n2
  {
    var t := TokenText(k1, n1);
    assert t[17] == KindText(k1)[0];
    assert TokenText(k2, n2)[17] == KindText(k2)[0];
    var start := 17 + |KindText(k1)| + 1;
    assert t[start..] == Numeral(n1) && TokenText(k2, n2)[start..] == Numeral(n2);
    NumeralInjective(n1, n2);
  }

  /** A token about to be minted is none of those minted so far, of whatever kind. */
  lemma MintIsNew(kind: Kind, n: nat, counter: nat)
    requires n > counter
    ensures forall other :: !Minted(other, TokenText(kind, n), counter)
  {
    forall other | Minted(other, TokenText(kind, n), counter) ensures false {
      var m :| 0 < m <= counter && TokenText(kind, n) == TokenText(other, m);
      TokenTextInjective(kind, n, other, m);
    }
  }

  lemma KindsDiffer(token: string, counter: nat)
    ensures !(Minted(AccessKind, token, counter) && Minted(RefreshKind, token, counter))
  {
    if Minted(AccessKind, token, counter) && Minted(RefreshKind, token, counter) {
      var m :| 0 < m <= counter && token == TokenText(AccessKind, m);
      var n :| 0 < n <= counter && token == TokenText(RefreshKind, n);
      TokenTextInjective(AccessKind, m, RefreshKind, n);
      assert false;
    }
  }

  // ----- what every step keeps -----

  ghost predicate Known(s: State, token: string) {
    Minted(AccessKind, token, s.counter) || Minted(RefreshKind, token, s.counter)
  }

  /** A token's place: only the given connection may hold it. */
  ghost predicate Home(s: State, token: string, i: nat) {
    && i < |s.connections|
    && Known(s, token)
    && forall j :: 0 <= j < |s.connections| && j != i ==> !Holds(s.connections[j], token)
  }

  ghost predicate Sound(s: State) {
    && (forall c :: c in s.codes ==> Minted(CodeKind, c, s.counter))
    && (forall i, t :: 0 <= i < |s.connections| && t in s.connections[i].access ==> Minted(AccessKind, t, s.counter))
    && (forall i :: 0 <= i < |s.connections| && s.connections[i].refresh.Some? ==>
          Minted(RefreshKind, s.connections[i].refresh.value, s.counter))
  }

  ghost predicate Apart(s: State) {
    forall i, j, t :: 0 <= i < j < |s.connections| ==> !(Holds(s.connections[i], t) && Holds(s.connections[j], t))
  }

  lemma MintedLater(s: State, t: State)
    requires s.counter <= t.counter
    ensures forall kind, x :: Minted(kind, x, s.counter) ==> Minted(kind, x, t.counter)
  {
  }

  /** Either nobody gains a token, or one connection gains two that nobody ever had. */
  predicate Shrinks(s: State, t: State) {
    && |t.connections| == |s.connections| && t.counter >= s.counter
    && forall i :: 0 <= i < |s.connections| ==>
         && (t.connections[i].refresh == s.connections[i].refresh || t.connections[i].refresh.None?)
         && t.connections[i].access.Keys <= s.connections[i].access.Keys
  }

  lemma ShrinkKeeps(s: State, t: State)
    requires Sound(s) && Apart(s) && Shrinks(s, t)
    requires forall c :: c in t.codes ==> c in s.codes || Minted(CodeKind, c, t.counter)
    ensures Sound(t) && Apart(t)
    ensures forall i, x :: 0 <= i < |s.connections| && Holds(t.connections[i], x) ==> Holds(s.connections[i], x)
  {
    MintedLater(s, t);
    forall i, j, x | 0 <= i < j < |t.connections| && Holds(t.connections[i], x) && Holds(t.connections[j], x)
      ensures false
    {
      assert Holds(s.connections[i], x) && Holds(s.connections[j], x);
    }
  }

  lemma IssueKeeps(s: State, i: nat)
    requires i < |s.connections| && Sound(s) && Apart(s)
    ensures var (t, reply) := Issue(s, i);
            && Sound(t) && Apart(t)
            && Home(t, reply.access, i) && Home(t, reply.refresh, i)
            && (forall j, x :: 0 <= j < |s.connections| && Known(s, x) && Holds(t.connections[j], x) ==>
                  Holds(s.connections[j], x))
  {
    var (t, reply) := Issue(s, i);
    var a, r := reply.access, reply.refresh;
    MintedLater(s, t);
    assert Minted(AccessKind, a, t.counter) && Minted(RefreshKind, r, t.counter);
    MintIsNew(AccessKind, s.counter + 1, s.counter);
    MintIsNew(RefreshKind, s.counter + 2, s.counter);
    assert forall other :: !Minted(other, a, s.counter) && !Minted(other, r, s.counter);
    hide TokenText;
    forall j | 0 <= j < |s.connections| ensures !Holds(s.connections[j], a) && !Holds(s.connections[j], r) {
      assert !Minted(AccessKind, a, s.counter) && !Minted(RefreshKind, a, s.counter);
      assert !Minted(AccessKind, r, s.counter) && !Minted(RefreshKind, r, s.counter);
    }
    forall j, x | 0 <= j < |s.connections| && Holds(t.connections[j], x)
      ensures Holds(s.connections[j], x) || (j == i && (x == a || x == r))
    {
    }
    forall j, k, x | 0 <= j < k < |t.connections| && Holds(t.connections[j], x) && Holds(t.connections[k], x)
      ensures false
    {
    }
  }

  /** Adding an empty connection changes nobody's tokens. */
  lemma OpenKeeps(s: State, t: State)
    requires Sound(s) && Apart(s)
    requires t == s.(codes := t.codes, connections := s.connections + [Connection(None, 0, map[])])
    requires forall c :: c in t.codes ==> c in s.codes
    ensures Sound(t) && Apart(t)
  {
    forall j, k, x | 0 <= j < k < |t.connections| && Holds(t.connections[j], x) && Holds(t.connections[k], x)
      ensures false
    {
    }
  }

  /** What one request does to the tokens that were there, and where the new ones go. */
  ghost predicate Keeps(s: State, t: State, reply: Reply, home: nat) {
    && Sound(t) && Apart(t) && t.counter >= s.counter && |t.connections| >= |s.connections|
    && (reply.Tokens? ==> Home(t, reply.access, home) && Home(t, reply.refresh, home))
    && (forall j, x :: 0 <= j < |s.connections| && Known(s, x) && Holds(t.connections[j], x) ==>
          Holds(s.connections[j], x))
    && (forall j, x :: |s.connections| <= j < |t.connections| && Known(s, x) ==> !Holds(t.connections[j], x))
  }

  lemma RedeemKeeps(s: State, code: string, uri: Option<string>)
    requires Sound(s) && Apart(s) && Serve(s, Redeem(code, uri)).1.Tokens?
    ensures var (t, reply) := Serve(s, Redeem(code, uri)); Keeps(s, t, reply, |s.connections|)
  {
    hide TokenText;
    var widened := s.(codes := s.codes - {code}, connections := s.connections + [Connection(None, 0, map[])]);
    OpenKeeps(s, widened);
    IssueKeeps(widened, |s.connections|);
    assert Serve(s, Redeem(code, uri)) == Issue(widened, |s.connections|);
    hide Serve, Issue, Sound, Apart;
    assert forall x :: Known(s, x) ==> Known(widened, x);
  }

  lemma RefreshKeeps(s: State, token: string)
    requires Sound(s) && Apart(s) && Serve(s, Refresh(token)).1.Tokens?
    ensures var (t, reply) := Serve(s, Refresh(token)); Keeps(s, t, reply, GrantOf(s, Refresh(token)))
  {
    hide TokenText;
    var counted := s.(refreshes := s.refreshes + 1);
    var i := GrantOf(s, Refresh(token));
    IssueKeeps(counted, i);
    assert Serve(s, Refresh(token)) == Issue(counted, i);
    assert |Issue(counted, i).0.connections| == |s.connections|;
    hide Serve, Issue, Sound, Apart, GrantOf;
    assert forall x :: Known(s, x) ==> Known(counted, x);
  }

  /** Every request keeps all tokens minted and apart, and moves none to another grant. */
  lemma ServeKeeps(s: State, q: Request)
    requires Sound(s) && Apart(s)
    ensures var (t, reply) := Serve(s, q); Keeps(s, t, reply, GrantOf(s, q))
  {
    var (t, reply) := Serve(s, q);
    hide TokenText;
    if reply.Tokens? {
      if q.Redeem? { RedeemKeeps(s, q.code, q.redirectUri); } else { RefreshKeeps(s, q.token); }
    } else {
      if q.Authorize? { assert Minted(CodeKind, reply.code, t.counter); }
      ShrinkKeeps(s, t);
    }
  }

  // ----- codes and refresh tokens are used at most once -----

  /** A code or refresh token that was minted and now opens nothing. */
  ghost predicate Spent(s: State, token: string) {
    && (Minted(CodeKind, token, s.counter) || Minted(RefreshKind, token, s.counter))
    && token !in s.codes
    && forall i :: 0 <= i < |s.connections| ==> s.connections[i].refresh != Some(token)
  }

  lemma SpentStep(s: State, q: Request, token: string)
    requires Sound(s) && Apart(s) && Spent(s, token)
    ensures Spent(Serve(s, q).0, token)
  {
    var t := Serve(s, q).0;
    MintedLater(s, t);
    MintIsNew(CodeKind, s.counter + 1, s.counter);
    MintIsNew(RefreshKind, s.counter + 2, s.counter);
    hide TokenText;
  }

  lemma {:induction false} SpentForever(s: State, requests: seq<Request>, token: string)
    requires Sound(s) && Apart(s) && Spent(s, token)
    ensures Spent(After(s, requests), token)
    decreases |requests|
  {
    if requests != [] {
      ServeKeeps(s, requests[0]);
      SpentStep(s, requests[0], token);
      SpentForever(Serve(s, requests[0]).0, requests[1..], token);
    }
  }

  lemma {:induction false} AfterKeeps(s: State, requests: seq<Request>)
    requires Sound(s) && Apart(s)
    ensures Sound(After(s, requests)) && Apart(After(s, requests))
    ensures After(s, requests).counter >= s.counter && |After(s, requests).connections| >= |s.connections|
    decreases |requests|
  {
    if requests != [] {
      ServeKeeps(s, requests[0]);
      AfterKeeps(Serve(s, requests[0]).0, requests[1..]);
    }
  }

  /** RFC 6749 section 4.1.2: after one attempt to redeem an outstanding code, whether or not its
      redirect matched, no later attempt with that code yields tokens. */
  lemma CodeIsSingleUse(before: seq<Request>, code: string, uri: Option<string>, between: seq<Request>,
                        again: Option<string>)
    requires code in After(FRESH, before).codes
    ensures var s := After(FRESH, before);
            Serve(After(Serve(s, Redeem(code, uri)).0, between), Redeem(code, again)).1 == InvalidGrant
  {
    var s := After(FRESH, before);
    AfterKeeps(FRESH, before);
    var t := Serve(s, Redeem(code, uri)).0;
    ServeKeeps(s, Redeem(code, uri));
    assert Spent(t, code) by { RedeemSpends(s, code, uri); }
    SpentForever(t, between, code);
  }

  lemma RedeemSpends(s: State, code: string, uri: Option<string>)
    requires Sound(s) && Apart(s) && code in s.codes
    ensures Spent(Serve(s, Redeem(code, uri)).0, code)
  {
    var t := Serve(s, Redeem(code, uri)).0;
    MintedLater(s, t);
    CodeIsNoRefresh(code, s.counter);
    MintIsNew(RefreshKind, s.counter + 2, s.counter);
    hide TokenText;
  }

  lemma CodeIsNoRefresh(token: string, counter: nat)
    ensures !(Minted(CodeKind, token, counter) && Minted(RefreshKind, token, counter))
  {
    if Minted(CodeKind, token, counter) && Minted(RefreshKind, token, counter) {
      var m :| 0 < m <= counter && token == TokenText(CodeKind, m);
      var n :| 0 < n <= counter && token == TokenText(RefreshKind, n);
      TokenTextInjective(CodeKind, m, RefreshKind, n);
      assert false;
    }
  }

  /** RFC 6749 section 6 with rotation: a refresh token that yielded tokens never does again. */
  lemma RefreshIsSingleUse(before: seq<Request>, token: string, between: seq<Request>)
    requires Serve(After(FRESH, before), Refresh(token)).1.Tokens?
    ensures Serve(After(Serve(After(FRESH, before), Refresh(token)).0, between), Refresh(token)).1 == InvalidGrant
  {
    var s := After(FRESH, before);
    AfterKeeps(FRESH, before);
    var t := Serve(s, Refresh(token)).0;
    ServeKeeps(s, Refresh(token));
    RefreshSpends(s, token);
    SpentForever(t, between, token);
  }

  lemma RefreshSpends(s: State, token: string)
    requires Sound(s) && Apart(s) && Serve(s, Refresh(token)).1.Tokens?
    ensures Spent(Serve(s, Refresh(token)).0, token)
  {
    var t := Serve(s, Refresh(token)).0;
    var i := ConnectionOfRefresh(s.connections, token);
    assert Holds(s.connections[i], token);
    MintedLater(s, t);
    CodeIsNoRefresh(token, s.counter);
    MintIsNew(RefreshKind, s.counter + 2, s.counter);
    hide TokenText;
    assert forall k :: 0 <= k < |s.connections| && k != i ==> !Holds(s.connections[k], token);
  }

  // ----- a token belongs to one grant, and a revoked grant is dead -----

  lemma {:induction false} HomeForever(s: State, requests: seq<Request>, token: string, i: nat)
    requires Sound(s) && Apart(s) && Home(s, token, i)
    ensures Home(After(s, requests), token, i)
    decreases |requests|
  {
    if requests != [] {
      var t := Serve(s, requests[0]).0;
      ServeKeeps(s, requests[0]);
      MintedLater(s, t);
      HomeForever(t, requests[1..], token, i);
    }
  }

  /** No token is ever shared: what one grant was issued, no other grant ever holds. */
  lemma TokensAreNeverShared(before: seq<Request>, q: Request, after: seq<Request>)
    requires Serve(After(FRESH, before), q).1.Tokens?
    ensures var s := After(FRESH, before);
            var (t, reply) := Serve(s, q);
            forall j :: 0 <= j < |After(t, after).connections| && j != GrantOf(s, q) ==>
              && !Holds(After(t, after).connections[j], reply.access)
              && !Holds(After(t, after).connections[j], reply.refresh)
  {
    var s := After(FRESH, before);
    AfterKeeps(FRESH, before);
    ServeKeeps(s, q);
    var (t, reply) := Serve(s, q);
    HomeForever(t, after, reply.access, GrantOf(s, q));
    HomeForever(t, after, reply.refresh, GrantOf(s, q));
  }

  predicate Dead(s: State, i: nat) {
    i < |s.connections| && s.connections[i].refresh.None? && s.connections[i].access == map[]
  }

  lemma {:induction false} DeadForever(s: State, requests: seq<Request>, i: nat)
    requires Dead(s, i)
    ensures Dead(After(s, requests), i)
    decreases |requests|
  {
    if requests != [] {
      hide TokenText;
      DeadForever(Serve(s, requests[0]).0, requests[1..], i);
    }
  }

  lemma DeadHolder(s: State, i: nat, access: string, refresh: string)
    requires Dead(s, i) && Home(s, access, i) && Home(s, refresh, i)
    ensures Serve(s, ApiCall(access)).1 == Unauthorized
    ensures Serve(s, Refresh(refresh)).1 == InvalidGrant
  {
    forall k | 0 <= k < |s.connections| ensures !Holds(s.connections[k], access) && !Holds(s.connections[k], refresh) {
    }
  }

  lemma DeadGetsNothing(s: State, i: nat, next: Request)
    requires Dead(s, i) && Serve(s, next).1.Tokens?
    ensures GrantOf(s, next) != i
  {
  }

  lemma {:induction false} AfterSplit(s: State, first: seq<Request>, second: seq<Request>)
    ensures After(s, first + second) == After(After(s, first), second)
    decreases |first|
  {
    if first == [] {
      assert first + second == second;
    } else {
      assert (first + second)[1..] == first[1..] + second;
      AfterSplit(Serve(s, first[0]).0, first[1..], second);
    }
  }

  // ----- what a grant was issued stays its own until it is used, expires or the grant ends -----

  /** A request among these uses the refresh token up. */
  predicate Spends(s: State, requests: seq<Request>, token: string)
    decreases |requests|
  {
    requests != [] &&
      ((requests[0] == Refresh(token) && Serve(s, requests[0]).1.Tokens?)
       || Spends(Serve(s, requests[0]).0, requests[1..], token))
  }

  function Elapsed(requests: seq<Request>): nat {
    if requests == [] then 0 else (if requests[0].Wait? then requests[0].seconds else 0) + Elapsed(requests[1..])
  }

  /** Connection `i` holds the access token until `expiry`, or has ended. */
  predicate Carries(s: State, i: nat, access: string, expiry: int) {
    && i < |s.connections|
    && (Dead(s, i) || (access in s.connections[i].access && s.connections[i].access[access] == expiry))
  }

  /** Connection `i`'s current refresh token is this one until `expiry`, or it has ended. */
  predicate Refreshes(s: State, i: nat, refresh: string, expiry: int) {
    && i < |s.connections|
    && (Dead(s, i) || (s.connections[i].refresh == Some(refresh) && s.connections[i].refreshExpires == expiry))
  }

  lemma CarriesStep(s: State, q: Request, i: nat, access: string, expiry: int)
    requires Carries(s, i, access, expiry) && Known(s, access)
    ensures Carries(Serve(s, q).0, i, access, if q == ExpireAccess then 0 else expiry)
  {
    MintIsNew(AccessKind, s.counter + 1, s.counter);
    assert access != TokenText(AccessKind, s.counter + 1);
    hide TokenText, Known;
  }

  lemma RefreshesStep(s: State, q: Request, i: nat, refresh: string, expiry: int)
    requires Refreshes(s, i, refresh, expiry) && !(q == Refresh(refresh) && Serve(s, q).1.Tokens?)
    ensures Refreshes(Serve(s, q).0, i, refresh, expiry)
  {
    hide TokenText;
  }

  lemma {:induction false} CarriesOn(s: State, requests: seq<Request>, i: nat, access: string, expiry: int)
    requires Carries(s, i, access, expiry) && Known(s, access) && Sound(s) && Apart(s)
    ensures Carries(After(s, requests), i, access, if ExpireAccess in requests then 0 else expiry)
    decreases |requests|
  {
    if requests != [] {
      var q, t := requests[0], Serve(s, requests[0]).0;
      CarriesStep(s, q, i, access, expiry);
      ServeKeeps(s, q);
      MintedLater(s, t);
      CarriesOn(t, requests[1..], i, access, if q == ExpireAccess then 0 else expiry);
      assert requests == [q] + requests[1..];
    }
  }

  lemma {:induction false} RefreshesOn(s: State, requests: seq<Request>, i: nat, refresh: string, expiry: int)
    requires Refreshes(s, i, refresh, expiry) && !Spends(s, requests, refresh)
    ensures Refreshes(After(s, requests), i, refresh, expiry)
    decreases |requests|
  {
    if requests != [] {
      RefreshesStep(s, requests[0], i, refresh, expiry);
      RefreshesOn(Serve(s, requests[0]).0, requests[1..], i, refresh, expiry);
    }
  }

  lemma {:induction false} SpendingSpends(s: State, requests: seq<Request>, token: string)
    requires Sound(s) && Apart(s) && Spends(s, requests, token)
    ensures Spent(After(s, requests), token) && Minted(RefreshKind, token, After(s, requests).counter)
    decreases |requests|
  {
    var t := Serve(s, requests[0]).0;
    ServeKeeps(s, requests[0]);
    AfterKeeps(t, requests[1..]);
    if requests[0] == Refresh(token) && Serve(s, requests[0]).1.Tokens? {
      RefreshSpends(s, token);
      SpentForever(t, requests[1..], token);
      MintedLater(s, After(t, requests[1..]));
    } else {
      SpendingSpends(t, requests[1..], token);
    }
  }

  lemma {:induction false} ClockIs(s: State, requests: seq<Request>)
    ensures After(s, requests).clock == s.clock + Elapsed(requests)
    decreases |requests|
  {
    if requests != [] { ClockIs(Serve(s, requests[0]).0, requests[1..]); }
  }

  lemma IssuedShape(s: State, q: Request)
    requires Serve(s, q).1.Tokens?
    ensures var (t, reply) := Serve(s, q);
            && t.clock == s.clock && !Dead(t, GrantOf(s, q))
            && Carries(t, GrantOf(s, q), reply.access, t.clock + reply.expiresIn)
            && Refreshes(t, GrantOf(s, q), reply.refresh, t.clock + REFRESH_TTL)
  {
    hide TokenText;
  }

  /** Two tokens of connection `i`, issued now. */
  ghost predicate Placed(t: State, i: nat, access: string, refresh: string, accessEnds: int, refreshEnds: int) {
    && Sound(t) && Apart(t) && Home(t, access, i) && Home(t, refresh, i)
    && Carries(t, i, access, accessEnds) && Refreshes(t, i, refresh, refreshEnds)
  }

  /** Where they are after more requests. */
  ghost predicate Found(t: State, middle: seq<Request>, i: nat, access: string, refresh: string, accessEnds: int,
                        refreshEnds: int)
  {
    var u := After(t, middle);
    && Sound(u) && Apart(u) && Home(u, access, i) && Home(u, refresh, i)
    && Carries(u, i, access, if ExpireAccess in middle then 0 else accessEnds)
    && (!Spends(t, middle, refresh) ==> Refreshes(u, i, refresh, refreshEnds))
    && (Spends(t, middle, refresh) ==> Spent(u, refresh) && Minted(RefreshKind, refresh, u.counter))
  }

  lemma PlacedIsFound(t: State, middle: seq<Request>, i: nat, access: string, refresh: string, accessEnds: int,
                      refreshEnds: int)
    requires Placed(t, i, access, refresh, accessEnds, refreshEnds)
    ensures Found(t, middle, i, access, refresh, accessEnds, refreshEnds)
  {
    AfterKeeps(t, middle);
    HomeForever(t, middle, access, i);
    HomeForever(t, middle, refresh, i);
    hide Serve, Carries, Refreshes, Spent, After, Sound, Apart;
    CarriesOn(t, middle, i, access, accessEnds);
    if Spends(t, middle, refresh) {
      SpendingSpends(t, middle, refresh);
    } else {
      RefreshesOn(t, middle, i, refresh, refreshEnds);
    }
  }

  lemma IssuedPlaced(s: State, q: Request)
    requires Sound(s) && Apart(s) && Serve(s, q).1.Tokens?
    ensures var (t, reply) := Serve(s, q);
            Placed(t, GrantOf(s, q), reply.access, reply.refresh, t.clock + reply.expiresIn, t.clock + REFRESH_TTL)
  {
    ServeKeeps(s, q);
    IssuedShape(s, q);
    hide Serve, GrantOf, Carries, Refreshes, Sound, Apart, Home;
  }

  lemma IssuedFound(s: State, q: Request, middle: seq<Request>)
    requires Sound(s) && Apart(s) && Serve(s, q).1.Tokens?
    ensures var (t, reply) := Serve(s, q);
            Found(t, middle, GrantOf(s, q), reply.access, reply.refresh, t.clock + reply.expiresIn,
                  t.clock + REFRESH_TTL)
  {
    hide *;
    var (t, reply) := Serve(s, q);
    IssuedPlaced(s, q);
    PlacedIsFound(t, middle, GrantOf(s, q), reply.access, reply.refresh, t.clock + reply.expiresIn,
                  t.clock + REFRESH_TTL);
  }

  /** What a request issued, after whatever came next: each token is where it was put. */
  lemma IssuedLater(before: seq<Request>, q: Request, middle: seq<Request>)
    requires Serve(After(FRESH, before), q).1.Tokens?
    ensures var (t, reply) := Serve(After(FRESH, before), q);
            Found(t, middle, GrantOf(After(FRESH, before), q), reply.access, reply.refresh,
                  t.clock + reply.expiresIn, t.clock + REFRESH_TTL)
  {
    hide *;
    ReachedSound(before);
    IssuedFound(After(FRESH, before), q, middle);
  }

  lemma ReachedSound(before: seq<Request>)
    ensures Sound(After(FRESH, before)) && Apart(After(FRESH, before))
  {
    hide After, Serve;
    AfterKeeps(FRESH, before);
  }

  // ----- revocation -----

  /** A revocation ends the connections that hold the token, and no other. */
  lemma EndsHolders(s: State, token: string, i: nat)
    requires i < |s.connections|
    ensures var t := Serve(s, Revoke(token)).0;
            && i < |t.connections|
            && (Holds(s.connections[i], token) ==> Dead(t, i))
            && (!Holds(s.connections[i], token) ==> t.connections[i] == s.connections[i])
  {
  }

  lemma SpentHeldNowhere(s: State, token: string)
    requires Sound(s) && Spent(s, token) && Minted(RefreshKind, token, s.counter)
    ensures forall i :: 0 <= i < |s.connections| ==> !Holds(s.connections[i], token)
  {
    KindsDiffer(token, s.counter);
  }

  /** RFC 7009 section 2.1, for every token ever issued: revoking an access token, expired or not, ends its
      grant; revoking a refresh token ends it exactly unless the token had been used up by then; either
      way no other grant is touched. */
  lemma RevocationIsExact(before: seq<Request>, q: Request, middle: seq<Request>, token: string)
    requires Serve(After(FRESH, before), q).1.Tokens?
    requires var reply := Serve(After(FRESH, before), q).1; token == reply.access || token == reply.refresh
    ensures var s := After(FRESH, before);
            var (t, reply) := Serve(s, q);
            var u, i := After(t, middle), GrantOf(s, q);
            var v := Serve(u, Revoke(token)).0;
            && i < |u.connections| == |v.connections|
            && (Dead(v, i) <==> Dead(u, i) || token == reply.access || !Spends(t, middle, reply.refresh))
            && forall j :: 0 <= j < |u.connections| && j != i ==> v.connections[j] == u.connections[j]
  {
    IssuedLater(before, q, middle);
    var s := After(FRESH, before);
    var (t, reply) := Serve(s, q);
    hide *;
    FoundRevoked(t, middle, GrantOf(s, q), reply.access, reply.refresh, t.clock + reply.expiresIn,
                 t.clock + REFRESH_TTL, token);
  }

  lemma FoundRevoked(t: State, middle: seq<Request>, i: nat, access: string, refresh: string, accessEnds: int,
                     refreshEnds: int, token: string)
    requires Found(t, middle, i, access, refresh, accessEnds, refreshEnds) && (token == access || token == refresh)
    ensures var u := After(t, middle);
            var v := Serve(u, Revoke(token)).0;
            && i < |u.connections| == |v.connections|
            && (Dead(v, i) <==> Dead(u, i) || token == access || !Spends(t, middle, refresh))
            && forall j :: 0 <= j < |u.connections| && j != i ==> v.connections[j] == u.connections[j]
  {
    var u := After(t, middle);
    assert |Serve(u, Revoke(token)).0.connections| == |u.connections|;
    if Spends(t, middle, refresh) { SpentHeldNowhere(u, refresh); }
    hide Serve, After, TokenText, Spent, Spends;
    EndsHolders(u, token, i);
    forall j | 0 <= j < |u.connections| && j != i ensures Serve(u, Revoke(token)).0.connections[j] == u.connections[j] {
      EndsHolders(u, token, j);
    }
  }

  /** Request `k` of a history, served where it stood. */
  function At(history: seq<Request>, k: nat): (State, Reply)
    requires k < |history|
  {
    Serve(After(FRESH, history[..k]), history[k])
  }

  predicate IssuesTo(history: seq<Request>, k: nat, i: nat) {
    k < |history| && At(history, k).1.Tokens? && GrantOf(After(FRESH, history[..k]), history[k]) == i
  }

  lemma HistorySplits(history: seq<Request>, k: nat)
    requires k < |history|
    ensures After(FRESH, history) == After(At(history, k).0, history[k + 1..])
  {
    hide Serve, After;
    var first, rest := history[..k], history[k..];
    assert history == first + rest && rest[1..] == history[k + 1..];
    AfterSplit(FRESH, first, rest);
    AfterOne(After(FRESH, first), rest);
  }

  lemma AfterOne(s: State, requests: seq<Request>)
    requires requests != []
    ensures After(s, requests) == After(Serve(s, requests[0]).0, requests[1..])
  {
    hide Serve;
  }

  /** After any history, revoking a token the grant was issued (an access token, expired or not, or a refresh
      token not used up) ends it for good: whatever follows, nothing it was issued at any time
      authenticates or refreshes, and it is issued nothing more. */
  lemma RevokedGrantStaysDead(history: seq<Request>, k: nat, i: nat, token: string, after: seq<Request>)
    requires IssuesTo(history, k, i)
    requires var (t, reply) := At(history, k);
             token == reply.access || (token == reply.refresh && !Spends(t, history[k + 1..], reply.refresh))
    ensures var late := After(Serve(After(FRESH, history), Revoke(token)).0, after);
            && (forall m: nat :: IssuesTo(history, m, i) ==>
                  && Serve(late, ApiCall(At(history, m).1.access)).1 == Unauthorized
                  && Serve(late, Refresh(At(history, m).1.refresh)).1 == InvalidGrant)
            && (forall next :: Serve(late, next).1.Tokens? ==> GrantOf(late, next) != i)
  {
    HistorySplits(history, k);
    RevocationIsExact(history[..k], history[k], history[k + 1..], token);
    var u := After(FRESH, history);
    var v := Serve(u, Revoke(token)).0;
    var late := After(v, after);
    assert Dead(v, i);
    DeadForever(v, after, i);
    forall m: nat | IssuesTo(history, m, i)
      ensures Serve(late, ApiCall(At(history, m).1.access)).1 == Unauthorized
      ensures Serve(late, Refresh(At(history, m).1.refresh)).1 == InvalidGrant
    {
      HomeAfterRevoke(history, m, i, token, after);
      DeadHolder(late, i, At(history, m).1.access, At(history, m).1.refresh);
    }
    forall next | Serve(late, next).1.Tokens? ensures GrantOf(late, next) != i {
      DeadGetsNothing(late, i, next);
    }
  }

  lemma IssuedHome(before: seq<Request>, q: Request, middle: seq<Request>)
    requires Serve(After(FRESH, before), q).1.Tokens?
    ensures var (t, reply) := Serve(After(FRESH, before), q);
            var u, i := After(t, middle), GrantOf(After(FRESH, before), q);
            Home(u, reply.access, i) && Home(u, reply.refresh, i)
  {
    hide *;
    IssuedLater(before, q, middle);
    var s := After(FRESH, before);
    var (t, reply) := Serve(s, q);
    FoundHome(t, middle, GrantOf(s, q), reply.access, reply.refresh, t.clock + reply.expiresIn, t.clock + REFRESH_TTL);
  }

  lemma FoundHome(t: State, middle: seq<Request>, i: nat, access: string, refresh: string, accessEnds: int,
                  refreshEnds: int)
    requires Found(t, middle, i, access, refresh, accessEnds, refreshEnds)
    ensures Home(After(t, middle), access, i) && Home(After(t, middle), refresh, i)
  {
    hide Serve, After, Carries, Refreshes, Sound, Apart, Home, Spends, Spent;
  }

  lemma AfterRevoke(s: State, middle: seq<Request>, token: string, after: seq<Request>)
    ensures After(s, middle + ([Revoke(token)] + after)) == After(Serve(After(s, middle), Revoke(token)).0, after)
  {
    AfterSplit(s, middle, [Revoke(token)] + after);
    assert ([Revoke(token)] + after)[1..] == after;
    hide Serve;
  }

  lemma HomeAfterRevoke(history: seq<Request>, m: nat, i: nat, token: string, after: seq<Request>)
    requires IssuesTo(history, m, i)
    ensures var late := After(Serve(After(FRESH, history), Revoke(token)).0, after);
            Home(late, At(history, m).1.access, i) && Home(late, At(history, m).1.refresh, i)
  {
    HistorySplits(history, m);
    hide Serve, After, GrantOf, Home;
    AfterRevoke(At(history, m).0, history[m + 1..], token, after);
    IssuedHome(history[..m], history[m], history[m + 1..] + ([Revoke(token)] + after));
  }

  /** A refresh token already rotated away revokes nothing: no grant changes at all. */
  lemma SpentRefreshRevokesNothing(before: seq<Request>, token: string, between: seq<Request>)
    requires Serve(After(FRESH, before), Refresh(token)).1.Tokens?
    ensures var s := After(Serve(After(FRESH, before), Refresh(token)).0, between);
            Serve(s, Revoke(token)).0 == s.(revocations := s.revocations + [token])
  {
    var s0 := After(FRESH, before);
    AfterKeeps(FRESH, before);
    var requests := [Refresh(token)] + between;
    assert requests[1..] == between;
    AfterKeeps(s0, requests);
    SpendingSpends(s0, requests, token);
    var s := After(s0, requests);
    SpentHeldNowhere(s, token);
    assert EndMatching(s.connections, token) == s.connections;
  }

  lemma IssueClock(before: seq<Request>, q: Request)
    requires Serve(After(FRESH, before), q).1.Tokens?
    ensures Serve(After(FRESH, before), q).0.clock >= 0
  {
    ClockIs(FRESH, before);
    IssuedShape(After(FRESH, before), q);
    hide Serve, After, GrantOf, Carries, Refreshes, Dead, Elapsed;
  }

  /** What was issued works, whatever came between: the access token exactly while its grant has not ended,
      nothing expired it and its lifetime lasts; the refresh token, for the same grant, exactly
      while the grant has not ended, it is unused and its own lifetime lasts. */
  lemma IssuedTokensWork(before: seq<Request>, q: Request, middle: seq<Request>)
    requires Serve(After(FRESH, before), q).1.Tokens?
    ensures var s := After(FRESH, before);
            var (t, reply) := Serve(s, q);
            var u, i := After(t, middle), GrantOf(s, q);
            && (Serve(u, ApiCall(reply.access)).1 == Authenticated
                <==> !Dead(u, i) && ExpireAccess !in middle && Elapsed(middle) < reply.expiresIn)
            && (Serve(u, Refresh(reply.refresh)).1.Tokens?
                <==> !Dead(u, i) && !Spends(t, middle, reply.refresh) && Elapsed(middle) < 101 * 86400)
            && (Serve(u, Refresh(reply.refresh)).1.Tokens? ==> GrantOf(u, Refresh(reply.refresh)) == i)
  {
    assert REFRESH_TTL == 101 * 86400;
    hide *;
    IssuedLater(before, q, middle);
    IssueClock(before, q);
    var s := After(FRESH, before);
    var (t, reply) := Serve(s, q);
    FoundWorks(t, middle, GrantOf(s, q), reply.access, reply.refresh, reply.expiresIn, REFRESH_TTL);
  }

  lemma FoundWorks(t: State, middle: seq<Request>, i: nat, access: string, refresh: string, accessTtl: int,
                   refreshTtl: int)
    requires t.clock >= 0
    requires Found(t, middle, i, access, refresh, t.clock + accessTtl, t.clock + refreshTtl)
    ensures var u := After(t, middle);
            && (Serve(u, ApiCall(access)).1 == Authenticated
                <==> !Dead(u, i) && ExpireAccess !in middle && Elapsed(middle) < accessTtl)
            && (Serve(u, Refresh(refresh)).1.Tokens?
                <==> !Dead(u, i) && !Spends(t, middle, refresh) && Elapsed(middle) < refreshTtl)
            && (Serve(u, Refresh(refresh)).1.Tokens? ==> GrantOf(u, Refresh(refresh)) == i)
  {
    var u := After(t, middle);
    ClockIs(t, middle);
    hide Serve, After, GrantOf, Spends, Elapsed, Home, Carries, Refreshes;
    AccessWorks(u, i, access, if ExpireAccess in middle then 0 else t.clock + accessTtl);
    if Spends(t, middle, refresh) {
      NoRefresh(u, refresh);
    } else {
      RefreshWorks(u, i, refresh, t.clock + refreshTtl);
    }
  }

  lemma AccessWorks(u: State, i: nat, access: string, expiry: int)
    requires Home(u, access, i) && Carries(u, i, access, expiry)
    ensures Serve(u, ApiCall(access)).1 == Authenticated <==> !Dead(u, i) && expiry > u.clock
  {
    assert forall k :: 0 <= k < |u.connections| && access in u.connections[k].access ==> k == i;
  }

  lemma NoRefresh(u: State, refresh: string)
    requires forall k :: 0 <= k < |u.connections| ==> u.connections[k].refresh != Some(refresh)
    ensures !Serve(u, Refresh(refresh)).1.Tokens?
  {
  }

  lemma RefreshWorks(u: State, i: nat, refresh: string, expiry: int)
    requires Home(u, refresh, i) && Refreshes(u, i, refresh, expiry)
    ensures Serve(u, Refresh(refresh)).1.Tokens? <==> !Dead(u, i) && expiry > u.clock
    ensures Serve(u, Refresh(refresh)).1.Tokens? ==> GrantOf(u, Refresh(refresh)) == i
  {
    hide TokenText;
    assert forall k :: 0 <= k < |u.connections| && u.connections[k].refresh == Some(refresh) ==> k == i;
  }

  // ----- which codes redeem -----

  /** Request `k` asked consent and was answered with this code, and no request since has tried to redeem it. */
  predicate Outstanding(history: seq<Request>, k: nat, code: string) {
    && k < |history| && history[k].Authorize? && At(history, k).1 == Code(code)
    && forall m :: k < m < |history| ==> !(history[m].Redeem? && history[m].code == code)
  }

  lemma AtPrefix(history: seq<Request>, k: nat)
    requires k < |history| - 1
    ensures At(history, k) == At(history[..|history| - 1], k)
  {
    assert history[..|history| - 1][..k] == history[..k];
    hide Serve, After;
  }

  lemma OutstandingStep(history: seq<Request>, k: nat, code: string)
    requires k < |history| - 1
    ensures Outstanding(history, k, code)
            <==> Outstanding(history[..|history| - 1], k, code)
                 && !(history[|history| - 1].Redeem? && history[|history| - 1].code == code)
  {
    AtPrefix(history, k);
    hide At;
  }

  lemma AfterLast(history: seq<Request>)
    requires history != []
    ensures var n := |history| - 1;
            After(FRESH, history) == At(history, n).0 && At(history, n) == Serve(After(FRESH, history[..n]), history[n])
  {
    var n := |history| - 1;
    HistorySplits(history, n);
    assert history[n + 1..] == [];
    hide Serve, At;
  }

  /** The codes in force after a history are exactly the outstanding ones, each for the redirect it was asked
      with. */
  ghost predicate CodesFit(history: seq<Request>, codes: map<string, string>, code: string) {
    && (code in codes <==> exists k: nat :: Outstanding(history, k, code))
    && forall k: nat :: Outstanding(history, k, code) ==> code in codes && codes[code] == history[k].redirect
  }

  lemma {:induction false} CodesAre(history: seq<Request>, code: string)
    ensures CodesFit(history, After(FRESH, history).codes, code)
    decreases |history|
  {
    if history != [] {
      hide After, Serve, Sound, Apart, TokenText, At, Outstanding;
      var n := |history| - 1;
      var before, q := history[..n], history[n];
      CodesAre(before, code);
      ReachedSound(before);
      AfterLast(history);
      OutstandingUnlessTried(history, code);
      LastOutstanding(history, code);
      CodesStep(After(FRESH, before), q, code);
      forall k: nat | Outstanding(history, k, code) ensures k == n || (Outstanding(before, k, code) && k < n) {
        EarlierOutstanding(history, k, code);
      }
    }
  }

  lemma LastOutstanding(history: seq<Request>, code: string)
    requires history != []
    ensures var n := |history| - 1;
            Outstanding(history, n, code) <==> history[n].Authorize? && At(history, n).1 == Code(code)
  {
    hide At;
  }

  lemma EarlierOutstanding(history: seq<Request>, k: nat, code: string)
    requires Outstanding(history, k, code)
    ensures k < |history| && history[k].Authorize?
    ensures k < |history| - 1 ==>
              Outstanding(history[..|history| - 1], k, code) && history[..|history| - 1][k] == history[k]
  {
    hide At;
    if k < |history| - 1 { OutstandingStep(history, k, code); }
  }

  lemma OutstandingUnlessTried(history: seq<Request>, code: string)
    requires history != []
    ensures var n := |history| - 1;
            (exists k: nat :: Outstanding(history, k, code))
            <==> Outstanding(history, n, code)
                 || ((exists k: nat :: Outstanding(history[..n], k, code))
                     && !(history[n].Redeem? && history[n].code == code))
  {
    var n := |history| - 1;
    forall k: nat | k < n ensures Outstanding(history, k, code)
        <==> Outstanding(history[..n], k, code) && !(history[n].Redeem? && history[n].code == code) {
      OutstandingStep(history, k, code);
    }
    assert forall k: nat :: Outstanding(history, k, code) ==> k <= n;
    assert forall k: nat :: Outstanding(history[..n], k, code) ==> k < n;
    hide Outstanding;
  }

  /** What one request does to one code: consent adds it, for its redirect, if it is the new one, and an
      attempt to redeem it takes it away. */
  lemma CodesStep(s: State, q: Request, code: string)
    requires Sound(s)
    ensures var (t, reply) := Serve(s, q);
            && (q.Authorize? && reply == Code(code) ==>
                  code !in s.codes && code in t.codes && t.codes[code] == q.redirect)
            && (q.Redeem? && q.code == code ==> code !in t.codes)
            && (!(q.Authorize? && reply == Code(code)) && !(q.Redeem? && q.code == code) ==>
                  (code in t.codes <==> code in s.codes) && (code in s.codes ==> t.codes[code] == s.codes[code]))
  {
    MintIsNew(CodeKind, s.counter + 1, s.counter);
    hide TokenText;
  }

  /** A code yields tokens exactly when a consent of the history returned it for the very redirect now given and
      nothing has tried to redeem it since; any other redirect, and any other code, is refused. */
  lemma RedemptionIsExact(history: seq<Request>, code: string, uri: Option<string>)
    ensures Serve(After(FRESH, history), Redeem(code, uri)).1.Tokens?
            <==> exists k: nat :: Outstanding(history, k, code) && uri == Some(history[k].redirect)
    ensures !Serve(After(FRESH, history), Redeem(code, uri)).1.Tokens? ==>
              Serve(After(FRESH, history), Redeem(code, uri)).1 == InvalidGrant
  {
    CodesAre(history, code);
    RedeemReply(After(FRESH, history), code, uri);
    hide After, Serve, At;
  }

  lemma RedeemReply(s: State, code: string, uri: Option<string>)
    ensures var reply := Serve(s, Redeem(code, uri)).1;
            && (reply.Tokens? <==> code in s.codes && uri == Some(s.codes[code]))
            && (!reply.Tokens? ==> reply == InvalidGrant)
  {
    hide TokenText;
  }

  // ----- the lifetime in force, the consent hook and the counters -----

  /** The lifetime of access tokens: the one set last, an hour before that. */
  function TtlSet(history: seq<Request>): int {
    if history == [] then 3600
    else
      var last := history[|history| - 1];
      if last.SetAccessTtl? then last.ttl else TtlSet(history[..|history| - 1])
  }

  function Refused(history: seq<Request>): nat {
    if history == [] then 0
    else
      var n := |history| - 1;
      Refused(history[..n]) + if At(history, n).1 == Unauthorized then 1 else 0
  }

  function Rotated(history: seq<Request>): nat {
    if history == [] then 0
    else
      var n := |history| - 1;
      Rotated(history[..n]) + if history[n].Refresh? && At(history, n).1.Tokens? then 1 else 0
  }

  function Posted(history: seq<Request>): seq<string> {
    if history == [] then []
    else
      var n := |history| - 1;
      Posted(history[..n]) + if history[n].Revoke? then [history[n].token] else []
  }

  lemma CountersStep(s: State, q: Request)
    ensures var (t, reply) := Serve(s, q);
            && t.accessTtl == (if q.SetAccessTtl? then q.ttl else s.accessTtl)
            && t.rejected == s.rejected + (if reply == Unauthorized then 1 else 0)
            && t.refreshes == s.refreshes + (if q.Refresh? && reply.Tokens? then 1 else 0)
            && t.revocations == s.revocations + (if q.Revoke? then [q.token] else [])
  {
    hide TokenText;
  }

  /** The settings and counters after a history say what happened in it: the lifetime set last, the calls
      refused, the refreshes answered, and the tokens posted to revocation, in order. */
  lemma {:induction false} CountersTally(history: seq<Request>)
    ensures var s := After(FRESH, history);
            && s.accessTtl == TtlSet(history) && s.rejected == Refused(history)
            && s.refreshes == Rotated(history) && s.revocations == Posted(history)
    decreases |history|
  {
    if history != [] {
      var n := |history| - 1;
      CountersTally(history[..n]);
      AfterLast(history);
      CountersStep(After(FRESH, history[..n]), history[n]);
      hide After, Serve, At;
    }
  }

  /** Every access token is issued for the lifetime in force. */
  lemma IssuedLifetime(history: seq<Request>, q: Request)
    requires Serve(After(FRESH, history), q).1.Tokens?
    ensures Serve(After(FRESH, history), q).1.expiresIn == TtlSet(history)
  {
    CountersTally(history);
    hide After, TokenText;
  }

  /** What a refusal leaves: no grant is touched and nothing is minted; the only code that goes is the one offered,
      and only a redemption or a refresh is told `invalid_grant`, only another grant type `unsupported_grant_type`. */
  lemma RefusalsAreInert(s: State, q: Request)
    ensures var (t, reply) := Serve(s, q);
            && (reply.UnsupportedGrantType? <==> q.OtherGrant?)
            && (reply.InvalidGrant? ==> q.Redeem? || q.Refresh?)
            && (reply.Unauthorized? ==> q.ApiCall?)
            && (reply.InvalidGrant? || reply.UnsupportedGrantType? || reply.Unauthorized? ==>
                  && t.connections == s.connections && t.counter == s.counter && t.clock == s.clock
                  && t.accessTtl == s.accessTtl
                  && forall c :: c in t.codes <==> c in s.codes && !(q.Redeem? && q.code == c))
  {
    hide TokenText, Accepts;
  }

  /** When consent is withdrawn every grant there is ends, for good. */
  lemma ConsentEndsAll(history: seq<Request>, after: seq<Request>, i: nat)
    requires i < |After(FRESH, history).connections|
    ensures Dead(After(Serve(After(FRESH, history), RevokeConsent).0, after), i)
  {
    var s := After(FRESH, history);
    hide After;
    DeadForever(Serve(s, RevokeConsent).0, after, i);
  }

  // ----- the module's functions -----

  class Sandbox {
    var clock: int
    var counter: nat
    var codes: map<string, string>
    var connections: seq<Connection>
    var accessTtl: int
    var refreshes: nat
    var rejected: nat
    var revocations: seq<string>

    constructor ()
      ensures View() == FRESH
    {
      clock, counter, codes, connections := 0, 0, map[], [];
      accessTtl, refreshes, rejected, revocations := DEFAULT_ACCESS_TTL, 0, 0, [];
    }

    function View(): State
      reads this
    {
      State(clock, counter, codes, connections, accessTtl, refreshes, rejected, revocations)
    }

    method Mint(kind: Kind) returns (token: string)
      modifies this`counter
      ensures counter == old(counter) + 1 && token == TokenText(kind, counter)
    {
      counter := counter + 1;
      token := TokenText(kind, counter);
    }

    method IssueFor(i: nat) returns (reply: Reply)
      requires i < |connections|
      modifies this`counter, this`connections
      ensures (View(), reply) == Issue(old(View()), i)
    {
      var access := Mint(AccessKind);
      var refresh := Mint(RefreshKind);
      connections := connections[i := connections[i].(access := connections[i].access[access := clock + accessTtl])];
      connections := connections[i := connections[i].(refresh := Some(refresh))];
      connections := connections[i := connections[i].(refreshExpires := clock + REFRESH_TTL)];
      reply := Tokens(access, refresh, accessTtl);
      assert connections == Issue(old(View()), i).0.connections;
    }

    method Consent(registeredRedirect: string) returns (code: string)
      modifies this
      ensures (View(), Code(code)) == Serve(old(View()), Authorize(registeredRedirect))
    {
      code := Mint(CodeKind);
      codes := codes[code := registeredRedirect];
    }

    method RedeemCode(code: string, redirectUri: Option<string>) returns (reply: Reply)
      modifies this
      ensures (View(), reply) == Serve(old(View()), Redeem(code, redirectUri))
    {
      var redirect := if code in codes then Some(codes[code]) else None;
      codes := codes - {code};
      if redirect.None? || redirect != redirectUri {
        return InvalidGrant;
      }
      connections := connections + [Connection(None, 0, map[])];
      reply := IssueFor(|connections| - 1);
    }

    method UseRefresh(token: string) returns (reply: Reply)
      modifies this
      ensures (View(), reply) == Serve(old(View()), Refresh(token))
    {
      var i := 0;
      while i < |connections| && connections[i].refresh != Some(token)
        invariant 0 <= i <= |connections|
        invariant forall k :: 0 <= k < i ==> connections[k].refresh != Some(token)
      {
        i := i + 1;
      }
      if i == |connections| || connections[i].refreshExpires <= clock {
        return InvalidGrant;
      }
      refreshes := refreshes + 1;
      reply := IssueFor(i);
    }

    method RevokeToken(token: string)
      modifies this
      ensures (View(), Done) == Serve(old(View()), Revoke(token))
    {
      revocations := revocations + [token];
      var i := 0;
      while i < |connections|
        invariant 0 <= i <= |connections| == |old(connections)|
        invariant forall k :: 0 <= k < i ==> connections[k] == EndMatching(old(connections), token)[k]
        invariant forall k :: i <= k < |connections| ==> connections[k] == old(connections)[k]
        invariant View() == old(View()).(revocations := old(revocations) + [token], connections := connections)
      {
        if Holds(connections[i], token) {
          connections := connections[i := Ended(connections[i])];
        }
        i := i + 1;
      }
      assert connections == EndMatching(old(connections), token);
    }

    method ExpireAllAccess()
      modifies this`connections
      ensures (View(), Done) == Serve(old(View()), ExpireAccess)
    {
      var i := 0;
      while i < |connections|
        invariant 0 <= i <= |connections| == |old(connections)|
        invariant forall k :: 0 <= k < i ==>
          connections[k] == old(connections)[k].(access := map t | t in old(connections)[k].access :: 0)
        invariant forall k :: i <= k < |connections| ==> connections[k] == old(connections)[k]
      {
        connections := connections[i := connections[i].(access := map t | t in connections[i].access :: 0)];
        i := i + 1;
      }
      assert connections == Serve(old(View()), ExpireAccess).0.connections;
    }

    method RevokeAllConsent()
      modifies this`connections
      ensures (View(), Done) == Serve(old(View()), RevokeConsent)
    {
      var i := 0;
      while i < |connections|
        invariant 0 <= i <= |connections| == |old(connections)|
        invariant forall k :: 0 <= k < i ==> connections[k] == Ended(old(connections)[k])
        invariant forall k :: i <= k < |connections| ==> connections[k] == old(connections)[k]
      {
        connections := connections[i := Ended(connections[i])];
        i := i + 1;
      }
      assert connections == Serve(old(View()), RevokeConsent).0.connections;
    }

    method RequireAuth(bearer: string) returns (reply: Reply)
      modifies this
      ensures (View(), reply) == Serve(old(View()), ApiCall(bearer))
    {
      var i := 0;
      while i < |connections|
        invariant 0 <= i <= |connections|
        invariant forall k :: 0 <= k < i ==> !(bearer in connections[k].access && connections[k].access[bearer] > clock)
      {
        if bearer in connections[i].access && connections[i].access[bearer] > clock {
          return Authenticated;
        }
        i := i + 1;
      }
      rejected := rejected + 1;
      reply := Unauthorized;
    }
  }
}
