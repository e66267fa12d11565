/** Splitting a database URL and swapping the database name in it. */
module TenantUrl {
  import opened Wrappers

  /** `user`, or `user:password`. */
  datatype Userinfo = Userinfo(user: string, password: Option<string>)

  datatype Url = Url(scheme: string, userinfo: Option<Userinfo>, host: string,
                     database: Option<string>, query: Option<string>)

  datatype Split = Split(server: string, database: Option<string>, query: Option<string>) | NoScheme

  datatype Made = Made(url: string) | EmptyName | StructuralName | NoDriver

  const STRUCTURAL := {'/', '?', '#', '@', ':', '\\', '%', '\"', '\'', ' ', '\t', '\r', '\n'}

  // ----- the documented grammar -----

  predicate Free(s: string, stops: set<char>) {
    forall k :: 0 <= k < |s| ==> s[k] !in stops
  }

  function UserinfoText(i: Option<Userinfo>): string {
    match i
    case None => ""
    case Some(Userinfo(user, None)) => user + "@"
    case Some(Userinfo(user, Some(password))) => user + ":" + password + "@"
  }

  function PathText(database: Option<string>, query: Option<string>): string {
    (if database.None? then "" else "/" + database.value) + (if query.None? then "" else "?" + query.value)
  }

  /** Everything up to the database path. */
  function Server(u: Url): string {
    u.scheme + "://" + UserinfoText(u.userinfo) + u.host
  }

  function UrlText(u: Url): string {
    Server(u) + PathText(u.database, u.query)
  }

  predicate DriverAt(url: string, k: nat) {
    k + 3 <= |url| && url[k] == ':' && url[k + 1] == '/' && url[k + 2] == '/'
  }

  /** "://" stands at `k` in `url` and nowhere before. */
  predicate SchemeAt(url: string, k: nat) {
    DriverAt(url, k) && forall p: nat :: p < k ==> !DriverAt(url, p)
  }

  /** Some `user@` or `user:password@` begins `rest`. */
  ghost predicate HasUserinfo(rest: string) {
    exists i: Userinfo, tail: string :: ValidUserinfo(i) && rest == UserinfoText(Some(i)) + tail
  }

  /** A username runs to the first `:`, `/` or `@`; a password to the first `@`. */
  predicate ValidUserinfo(i: Userinfo) {
    Free(i.user, {':', '/', '@'}) && (i.password.Some? ==> Free(i.password.value, {'@'}))
  }

  /** The URLs the docstring describes: userinfo present whenever it parses, the host and port up to the
      first `/` or `?`, the database up to the first `?`. */
  ghost predicate Grammatical(u: Url) {
    && SchemeAt(UrlText(u), |u.scheme|)
    && (u.userinfo.Some? ==> ValidUserinfo(u.userinfo.value))
    && (u.userinfo.None? ==> !HasUserinfo(u.host + PathText(u.database, u.query)))
    && Free(u.host, {'/', '?'})
    && (u.database.Some? ==> Free(u.database.value, {'?'}))
  }

  // ----- the scanner -----

  /** How many leading characters are not stops. */
  function Until(s: string, stops: set<char>): (k: nat)
    ensures k <= |s| && Free(s[..k], stops) && (k < |s| ==> s[k] in stops)
  {
    if s == "" || s[0] in stops then 0
    else
      var k := Until(s[1..], stops) + 1;
      assert s[..k] == [s[0]] + s[1..][..k - 1];
      k
  }

  function FindScheme(url: string): (k: Option<nat>)
    ensures k.Some? ==> SchemeAt(url, k.value)
    ensures k.None? ==> forall p: nat :: !DriverAt(url, p)
  {
    if |url| < 3 then None
    else if DriverAt(url, 0) then Some(0)
    else
      var k := FindScheme(url[1..]);
      assert forall p: nat :: p > 0 ==> DriverAt(url, p) == DriverAt(url[1..], p - 1);
      assert forall p: nat :: DriverAt(url[1..], p) == DriverAt(url, p + 1);
      if k.None? then None else Some(k.value + 1)
  }

  function ReadUserinfo(rest: string): (Option<Userinfo>, string) {
    var i := Until(rest, {':', '/', '@'});
    if i < |rest| && rest[i] == '@' then (Some(Userinfo(rest[..i], None)), rest[i + 1..])
    else if i < |rest| && rest[i] == ':' && Until(rest[i + 1..], {'@'}) < |rest| - i - 1 then
      var at := Until(rest[i + 1..], {'@'});
      (Some(Userinfo(rest[..i], Some(rest[i + 1..][..at]))), rest[i + 1..][at + 1..])
    else (None, rest)
  }

  /** Host and port, database, query. */
  function ReadPath(tail: string): (string, Option<string>, Option<string>) {
    var j := Until(tail, {'/', '?'});
    if j == |tail| then (tail, None, None)
    else if tail[j] == '?' then (tail[..j], None, Some(tail[j + 1..]))
    else
      var path := tail[j + 1..];
      var q := Until(path, {'?'});
      (tail[..j], Some(path[..q]), if q == |path| then None else Some(path[q + 1..]))
  }

  function Decompose(url: string): Option<Url> {
    var k := FindScheme(url);
    if k.None? then None
    else
      var (userinfo, tail) := ReadUserinfo(url[k.value + 3..]);
      var (host, database, query) := ReadPath(tail);
      Some(Url(url[..k.value], userinfo, host, database, query))
  }

  function SplitOf(url: string): Split {
    var u := Decompose(url);
    if u.None? then NoScheme else Split(Server(u.value), u.value.database, u.value.query)
  }

  function MakeTenantUrl(base: string, name: string): Made {
    if name == "" then EmptyName
    else if !Free(name, STRUCTURAL) then StructuralName
    else
      match SplitOf(base)
      case NoScheme => NoDriver
      case Split(server, _, query) =>
        Made(server + "/" + name + (if query.Some? then "?" + query.value else ""))
  }

  // ----- the scanner computes the grammar's unique decomposition -----

  lemma {:induction false} UntilIs(s: string, stops: set<char>, n: nat)
    requires n < |s| && Free(s[..n], stops) && s[n] in stops
    ensures Until(s, stops) == n
  {
    var k := Until(s, stops);
    assert forall p :: 0 <= p < n ==> s[..n][p] == s[p];
    assert forall p :: 0 <= p < k ==> s[..k][p] == s[p];
  }

  lemma UntilEnd(s: string, stops: set<char>)
    requires Free(s, stops)
    ensures Until(s, stops) == |s|
  {
  }

  lemma UserinfoSplits(rest: string)
    ensures var (i, tail) := ReadUserinfo(rest);
            && UserinfoText(i) + tail == rest
            && (i.Some? ==> ValidUserinfo(i.value))
            && (i.None? ==> !HasUserinfo(rest))
  {
    var (info, tail) := ReadUserinfo(rest);
    if info.None? {
      assert UserinfoText(None) + rest == rest;
      forall u: Userinfo, t: string | ValidUserinfo(u) && rest == UserinfoText(Some(u)) + t ensures false {
        NoInfo(rest, u, t);
      }
    } else {
      InfoSplits(rest);
    }
  }

  lemma InfoSplits(rest: string)
    requires ReadUserinfo(rest).0.Some?
    ensures var (i, tail) := ReadUserinfo(rest); UserinfoText(i) + tail == rest && ValidUserinfo(i.value)
  {
    hide Until, UserinfoText, Free;
    var i := Until(rest, {':', '/', '@'});
    if rest[i] == '@' {
      Cut(rest, i);
      RejoinUser(rest[..i], rest[i + 1..]);
    } else {
      PairCut(rest, i, Until(rest[i + 1..], {'@'}));
    }
  }

  lemma PairCut(s: string, n: nat, p: nat)
    requires n < |s| && s[n] == ':' && p < |s| - n - 1 && s[n + 1..][p] == '@'
    ensures s == UserinfoText(Some(Userinfo(s[..n], Some(s[n + 1..][..p])))) + s[n + 1..][p + 1..]
  {
    hide UserinfoText;
    Cut(s, n);
    Cut(s[n + 1..], p);
    Rejoin(s[..n], s[n + 1..][..p], s[n + 1..][p + 1..]);
  }

  lemma RejoinUser(user: string, tail: string)
    ensures UserinfoText(Some(Userinfo(user, None))) + tail == user + ("@" + tail)
  {
  }

  lemma NoInfo(rest: string, u: Userinfo, t: string)
    requires ValidUserinfo(u) && rest == UserinfoText(Some(u)) + t
    ensures ReadUserinfo(rest).0.Some?
  {
    UserinfoAt(u, t);
  }

  /** Where the scanner stops in text that begins with a userinfo. */
  lemma UserinfoAt(u: Userinfo, t: string)
    requires ValidUserinfo(u)
    ensures var rest := UserinfoText(Some(u)) + t;
            ReadUserinfo(rest) == (Some(u), t)
  {
    if u.password.None? { NoSecretAt(u.user, t); } else { SecretAt(u.user, u.password.value, t); }
    hide ReadUserinfo;
  }

  lemma NoSecretAt(user: string, t: string)
    requires Free(user, {':', '/', '@'})
    ensures ReadUserinfo(user + "@" + t) == (Some(Userinfo(user, None)), t)
  {
    var rest, n := user + "@" + t, |user|;
    assert rest[..n] == user && rest[n] == '@' && rest[n + 1..] == t;
    UntilIs(rest, {':', '/', '@'}, n);
  }

  lemma SecretAt(user: string, p: string, t: string)
    requires Free(user, {':', '/', '@'}) && Free(p, {'@'})
    ensures ReadUserinfo((user + ":" + p + "@") + t) == (Some(Userinfo(user, Some(p))), t)
  {
    var rest, n := (user + ":" + p + "@") + t, |user|;
    assert rest[..n] == user && rest[n] == ':';
    UntilIs(rest, {':', '/', '@'}, n);
    Rejoin(user, p, t);
    var more := rest[n + 1..];
    assert more == p + ("@" + t);
    assert more[..|p|] == p && more[|p|] == '@' && more[|p| + 1..] == t;
    UntilIs(more, {'@'}, |p|);
    hide Until, Free;
  }

  lemma PathSplits(tail: string)
    ensures var (host, database, query) := ReadPath(tail);
            && host + PathText(database, query) == tail && Free(host, {'/', '?'})
            && (database.Some? ==> Free(database.value, {'?'}))
  {
    hide Until, PathText;
    var j := Until(tail, {'/', '?'});
    if j == |tail| {
      NoPath(tail, j);
    } else {
      Cut(tail, j);
      var path := tail[j + 1..];
      if tail[j] == '/' {
        DatabaseText(path, Until(path, {'?'}));
      } else {
        QueryText(path);
      }
    }
  }

  lemma NoPath(tail: string, j: nat)
    requires j == |tail| && Free(tail[..j], {'/', '?'})
    ensures tail + PathText(None, None) == tail && Free(tail, {'/', '?'})
  {
    assert tail[..j] == tail;
  }

  lemma QueryText(path: string)
    ensures PathText(None, Some(path)) == ['?'] + path
  {
  }

  lemma Cut(s: string, k: nat)
    requires k < |s|
    ensures s == s[..k] + ([s[k]] + s[k + 1..])
  {
  }

  lemma DatabaseText(path: string, q: nat)
    requires q <= |path| && (q < |path| ==> path[q] == '?')
    ensures PathText(Some(path[..q]), if q == |path| then None else Some(path[q + 1..])) == ['/'] + path
  {
  }

  /** What the scanner reads is grammatical and spells the URL again. */
  lemma DecomposeSound(url: string)
    ensures var u := Decompose(url);
            && (u.Some? ==> UrlText(u.value) == url && Grammatical(u.value))
            && (u.None? <==> forall p: nat :: !DriverAt(url, p))
  {
    hide Until, ReadPath, ReadUserinfo, FindScheme, PathText, Free, HasUserinfo;
    var k := FindScheme(url);
    if k.Some? {
      var rest := url[k.value + 3..];
      UserinfoSplits(rest);
      var (info, tail) := ReadUserinfo(rest);
      PathSplits(tail);
      var (host, database, query) := ReadPath(tail);
      Regroup(url[..k.value], UserinfoText(info), host, PathText(database, query));
      SchemeText(url, k.value);
      var u := Url(url[..k.value], info, host, database, query);
      assert UrlText(u) == url && |u.scheme| == k.value;
      assert info.None? ==> UserinfoText(info) + tail == tail;
      assert info.None? ==> !HasUserinfo(host + PathText(database, query));
    }
  }

  lemma SchemeText(url: string, k: nat)
    requires DriverAt(url, k)
    ensures url == url[..k] + "://" + url[k + 3..]
  {
  }

  lemma Regroup(scheme: string, info: string, host: string, path: string)
    ensures (scheme + "://" + info + host) + path == scheme + "://" + (info + (host + path))
  {
  }

  lemma HostBack(host: string, path: string)
    requires Free(host, {'/', '?'}) && (path != "" ==> path[0] in {'/', '?'})
    ensures Until(host + path, {'/', '?'}) == |host|
    ensures (host + path)[..|host|] == host && (path != "" ==> (host + path)[|host| + 1..] == path[1..])
  {
    var tail := host + path;
    assert tail[..|host|] == host;
    if path == "" {
      assert tail == host;
      UntilEnd(tail, {'/', '?'});
    } else {
      assert tail[|host|] == path[0];
      UntilIs(tail, {'/', '?'}, |host|);
      assert tail[|host| + 1..] == path[1..];
    }
  }

  lemma PathHead(database: Option<string>, query: Option<string>)
    ensures var path := PathText(database, query);
            && (path == "" <==> database.None? && query.None?)
            && (database.Some? ==> path[0] == '/'
                                   && path[1..] == database.value + (if query.None? then "" else "?" + query.value))
            && (database.None? && query.Some? ==> path[0] == '?' && path[1..] == query.value)
  {
    var path := PathText(database, query);
    if database.Some? {
      assert path[1..] == database.value + (if query.None? then "" else "?" + query.value);
    } else if query.Some? {
      assert path[1..] == query.value;
    }
  }

  lemma ReadPathBack(host: string, database: Option<string>, query: Option<string>)
    requires Free(host, {'/', '?'}) && (database.Some? ==> Free(database.value, {'?'}))
    ensures ReadPath(host + PathText(database, query)) == (host, database, query)
  {
    var path := PathText(database, query);
    PathHead(database, query);
    HostBack(host, path);
    if database.Some? { QueryBack(database.value, query); }
    assert path == "" ==> host + path == host;
    hide Until, PathText, Free;
  }

  lemma QueryBack(database: string, query: Option<string>)
    requires Free(database, {'?'})
    ensures var path := database + (if query.None? then "" else "?" + query.value);
            var q := Until(path, {'?'});
            && path[..q] == database && (q == |path| <==> query.None?)
            && (query.Some? ==> path[q + 1..] == query.value)
  {
    var path := database + (if query.None? then "" else "?" + query.value);
    assert path[..|database|] == database;
    if query.Some? {
      UntilIs(path, {'?'}, |database|);
      assert path[|database| + 1..] == query.value;
    } else {
      assert path == database;
      UntilEnd(path, {'?'});
    }
  }

  lemma ReadUserinfoBack(i: Option<Userinfo>, tail: string)
    requires i.Some? ==> ValidUserinfo(i.value)
    requires i.None? ==> !HasUserinfo(tail)
    ensures ReadUserinfo(UserinfoText(i) + tail) == (i, tail)
  {
    var rest := UserinfoText(i) + tail;
    match i
    case None =>
      assert rest == tail;
      UserinfoSplits(rest);
      var (info, t) := ReadUserinfo(rest);
      if info.Some? { assert HasUserinfo(rest); }
    case Some(u) => UserinfoAt(u, tail);
  }

  lemma SchemeIs(url: string, k: nat)
    requires SchemeAt(url, k)
    ensures FindScheme(url) == Some(k)
  {
    assert DriverAt(url, k);
  }

  /** Every grammatical reading of a URL is the one the scanner finds. */
  lemma GrammarIsUnambiguous(u: Url)
    requires Grammatical(u)
    ensures Decompose(UrlText(u)) == Some(u)
  {
    var url := UrlText(u);
    SchemeIs(url, |u.scheme|);
    var tail := u.host + PathText(u.database, u.query);
    var rest := UserinfoText(u.userinfo) + tail;
    Regroup(u.scheme, UserinfoText(u.userinfo), u.host, PathText(u.database, u.query));
    assert url == u.scheme + "://" + rest;
    assert url[..|u.scheme|] == u.scheme && url[|u.scheme| + 3..] == rest;
    ReadUserinfoBack(u.userinfo, tail);
    ReadPathBack(u.host, u.database, u.query);
  }

  /** Server, `/database` and `?query` spell the URL again; a present query may be empty, and an empty
      one is not an absent one. */
  lemma SplitRecombines(url: string)
    ensures match SplitOf(url)
            case NoScheme => forall p: nat :: !DriverAt(url, p)
            case Split(server, database, query) => url == server + PathText(database, query)
  {
    DecomposeSound(url);
  }

  // ----- swapping the database name -----

  /** A name without structural characters keeps the rest of the URL parsing as it did. */
  lemma SwapKeepsGrammar(u: Url, name: string)
    requires Grammatical(u) && Free(name, STRUCTURAL)
    ensures Grammatical(u.(database := Some(name)))
  {
    var v := u.(database := Some(name));
    SameScheme(u, v);
    NameChars(name);
    if u.userinfo.None? && HasUserinfo(v.host + PathText(v.database, v.query)) {
      var i: Userinfo, tail: string :|
        ValidUserinfo(i) && v.host + PathText(v.database, v.query) == UserinfoText(Some(i)) + tail;
      NoNewUserinfo(u, name, i, tail);
    }
  }

  lemma NameChars(name: string)
    requires Free(name, STRUCTURAL)
    ensures Free(name, {'?'}) && Free(name, {'@'}) && Free(name, {'/'})
  {
  }

  lemma SameScheme(u: Url, v: Url)
    requires SchemeAt(UrlText(u), |u.scheme|) && v == u.(database := v.database)
    ensures SchemeAt(UrlText(v), |u.scheme|)
  {
    var n := |u.scheme| + 3;
    var s, t := UrlText(u), UrlText(v);
    assert s[..n] == u.scheme + "://" && t[..n] == u.scheme + "://";
    assert forall p :: 0 <= p < n ==> s[p] == s[..n][p] && t[p] == t[..n][p];
    assert forall p: nat :: p <= |u.scheme| ==> DriverAt(s, p) == DriverAt(t, p);
  }

  /** A userinfo that parses with the new name parsed before the swap. */
  lemma NoNewUserinfo(u: Url, name: string, i: Userinfo, tail: string)
    requires Free(u.host, {'/', '?'}) && Free(name, {'@'})
    requires ValidUserinfo(i)
    requires u.host + PathText(Some(name), u.query) == UserinfoText(Some(i)) + tail
    ensures HasUserinfo(u.host + PathText(u.database, u.query))
  {
    var now := u.host + PathText(Some(name), u.query);
    var was := u.host + PathText(u.database, u.query);
    var n := InHost(u, name, i, tail);
    if i.password.None? {
      assert was == UserinfoText(Some(i)) + was[n + 1..];
    } else {
      var at := n + 1 + |i.password.value|;
      assert now[at] == '@';
      var k := PasswordAt(u, name, at, n);
      PasswordFound(was, n, k);
    }
  }

  /** The user name of a userinfo that parses ends inside the host. */
  lemma InHost(u: Url, name: string, i: Userinfo, tail: string) returns (n: nat)
    requires Free(u.host, {'/', '?'}) && ValidUserinfo(i)
    requires u.host + PathText(Some(name), u.query) == UserinfoText(Some(i)) + tail
    ensures n == |i.user| && n < |u.host| && u.host[..n] == i.user
    ensures var was := u.host + PathText(u.database, u.query);
            was[..n] == i.user && was[n] == (if i.password.None? then '@' else ':')
  {
    var now := u.host + PathText(Some(name), u.query);
    var h := |u.host|;
    n := |i.user|;
    assert now[h] == '/';
    assert now[..n] == i.user && now[n] == if i.password.None? then '@' else ':';
    assert forall p :: 0 <= p < n ==> now[p] == i.user[p];
    assert n < h;
    assert forall p :: 0 <= p < h ==> now[p] == u.host[p];
  }

  lemma PasswordFound(was: string, n: nat, k: nat)
    requires n < k < |was| && was[n] == ':' && was[k] == '@' && Free(was[..n], {':', '/', '@'})
    ensures HasUserinfo(was)
  {
    hide Until, UserinfoText, Free;
    assert was[n + 1..][k - n - 1] == '@';
    var p := AtSign(was[n + 1..], k - n - 1);
    PairCut(was, n, p);
    var found := Userinfo(was[..n], Some(was[n + 1..][..p]));
    assert ValidUserinfo(found) && was == UserinfoText(Some(found)) + was[n + 1..][p + 1..];
  }

  lemma AtSign(rest: string, k: nat) returns (p: nat)
    requires k < |rest| && rest[k] == '@'
    ensures p < |rest| && rest[p] == '@' && Free(rest[..p], {'@'})
  {
    p := Until(rest, {'@'});
    assert rest[..|rest|] == rest;
  }

  lemma Rejoin(user: string, password: string, tail: string)
    ensures UserinfoText(Some(Userinfo(user, Some(password)))) + tail == user + (":" + (password + ("@" + tail)))
  {
  }

  /** An `@` after the host's `:` with the new name stood after it before the swap as well. */
  lemma PasswordAt(u: Url, name: string, at: nat, n: nat) returns (k: nat)
    requires Free(name, {'@'}) && n < |u.host| && n < at
    requires var now := u.host + PathText(Some(name), u.query); at < |now| && now[at] == '@'
    ensures var was := u.host + PathText(u.database, u.query); n < k < |was| && was[k] == '@'
  {
    var now := u.host + PathText(Some(name), u.query);
    var was := u.host + PathText(u.database, u.query);
    var h := |u.host|;
    if at < h {
      k := at;
    } else {
      assert now[h] == '/' && forall p :: h < p <= h + |name| ==> now[p] == name[p - h - 1];
      var q := at - h - 1 - |name|;
      assert u.query.Some? && now[at] == ("?" + u.query.value)[q];
      var skip := if u.database.None? then 0 else 1 + |u.database.value|;
      k := h + skip + q;
      assert was[k] == ("?" + u.query.value)[q];
    }
  }

  /** Splitting a made URL gives the base's server, exactly the name, and the base's query. */
  lemma MadeSplitsBack(base: string, name: string)
    requires MakeTenantUrl(base, name).Made?
    ensures var made := MakeTenantUrl(base, name).url;
            SplitOf(made) == SplitOf(base).(database := Some(name))
  {
    DecomposeSound(base);
    var u := Decompose(base).value;
    var v := u.(database := Some(name));
    SwapKeepsGrammar(u, name);
    GrammarIsUnambiguous(v);
    MadeText(u, name);
    hide Decompose, Grammatical, Free, Server, UrlText;
    assert SplitOf(base) == Split(Server(u), u.database, u.query);
    SameServer(u, v);
  }

  lemma SameServer(u: Url, v: Url)
    requires u.scheme == v.scheme && u.userinfo == v.userinfo && u.host == v.host
    ensures Server(u) == Server(v)
  {
  }

  lemma MadeText(u: Url, name: string)
    ensures Server(u) + "/" + name + (if u.query.Some? then "?" + u.query.value else "")
            == UrlText(u.(database := Some(name)))
  {
    var q := if u.query.Some? then "?" + u.query.value else "";
    SameServer(u, u.(database := Some(name)));
    hide Server;
    assert Server(u) + "/" + name + q == Server(u) + ("/" + name + q);
  }

  /** Rewriting twice is rewriting once with the last name, and distinct names give distinct URLs. */
  lemma LastNameWins(base: string, first: string, second: string)
    requires MakeTenantUrl(base, first).Made? && MakeTenantUrl(base, second).Made?
    ensures MakeTenantUrl(MakeTenantUrl(base, first).url, second) == MakeTenantUrl(base, second)
    ensures MakeTenantUrl(base, first) == MakeTenantUrl(base, second) <==> first == second
  {
    hide Decompose, Free;
    MadeSplitsBack(base, first);
    MadeSplitsBack(base, second);
  }

  /** A URL is made exactly for a base with a driver and a name that is not empty and holds none of the characters
      a URL is built with. */
  lemma MadeExactly(base: string, name: string)
    ensures MakeTenantUrl(base, name).Made?
            <==> && name != "" && (exists p: nat :: DriverAt(base, p))
                 && forall k :: 0 <= k < |name| ==> name[k] !in "/?#@:\\%\"' \t\r\n"
    ensures MakeTenantUrl(base, name) == EmptyName <==> name == ""
    ensures MakeTenantUrl(base, name).NoDriver? ==> forall p: nat :: !DriverAt(base, p)
  {
    DecomposeSound(base);
    FreeSpelled(name);
    assert SplitOf(base).NoScheme? <==> Decompose(base).None?;
    hide Decompose, DriverAt, Server, SplitOf, Free;
  }

  lemma FreeSpelled(name: string)
    ensures Free(name, STRUCTURAL) <==> forall k :: 0 <= k < |name| ==> name[k] !in "/?#@:\\%\"' \t\r\n"
  {
    StructuralSpelled();
    hide STRUCTURAL;
  }

  lemma StructuralSpelled()
    ensures forall c :: c in STRUCTURAL <==> c in "/?#@:\\%\"' \t\r\n"
  {
    assert forall c :: c in STRUCTURAL <==> c in "/?#@:\\%\"' \t\r\n";
  }

  // ----- the index loops -----

  method SplitDatabaseUrl(url: string) returns (split: Split)
    ensures split == SplitOf(url)
  {
    var schemeEnd := FindScheme(url);
    if schemeEnd.None? {
      return NoScheme;
    }
    var authorityStart := AuthorityStart(url, schemeEnd.value + 3);
    ghost var u := Decompose(url).value;
    assert (u.host, u.database, u.query) == ReadPath(url[authorityStart..]);
    DecomposeSound(url);
    PathSplits(url[authorityStart..]);
    hide ReadPath, Decompose, Until, Grammatical;
    var j, database, query := PathFrom(url, authorityStart);
    ServerPrefix(url, u, j, authorityStart);
    split := Split(url[..j], database, query);
  }

  lemma ServerPrefix(url: string, u: Url, j: nat, start: nat)
    requires UrlText(u) == url && start <= j <= |url| && j == start + |u.host|
    requires u.host + PathText(u.database, u.query) == url[start..]
    ensures url[..j] == Server(u)
  {
    hide Server, PathText;
    assert |PathText(u.database, u.query)| == |url| - j;
  }

  /** Userinfo: present only if a `user[:password]@` prefix parses. */
  method AuthorityStart(url: string, restStart: nat) returns (start: nat)
    requires restStart <= |url|
    ensures restStart <= start <= |url| && url[start..] == ReadUserinfo(url[restStart..]).1
  {
    hide Until;
    ghost var rest := url[restStart..];
    var i := Find(url, {':', '/', '@'}, restStart);
    start := restStart;
    assert i < |url| ==> rest[i - restStart + 1..] == url[i + 1..];
    if i < |url| && url[i] == '@' {
      start := i + 1;
    } else if i < |url| && url[i] == ':' {
      var at := Find(url, {'@'}, i + 1);
      if at < |url| {
        assert url[i + 1..][at - i - 1 + 1..] == url[at + 1..];
        start := at + 1;
      }
    }
  }

  method PathFrom(url: string, start: nat) returns (j: nat, database: Option<string>, query: Option<string>)
    requires start <= |url|
    ensures start <= j <= |url| && (url[start..j], database, query) == ReadPath(url[start..])
  {
    hide Until;
    ghost var tail := url[start..];
    j := Find(url, {'/', '?'}, start);
    assert tail[..j - start] == url[start..j];
    assert j < |url| ==> tail[j - start] == url[j];
    if j == |url| {
      assert url[start..j] == tail;
      return j, None, None;
    }
    assert tail[j - start + 1..] == url[j + 1..];
    if url[j] == '?' {
      return j, None, Some(url[j + 1..]);
    }
    j, database, query := AfterHost(url, start, j);
  }

  method AfterHost(url: string, start: nat, slash: nat)
    returns (j: nat, database: Option<string>, query: Option<string>)
    requires start <= slash < |url| && url[slash] == '/' && Until(url[start..], {'/', '?'}) == slash - start
    ensures j == slash && (url[start..j], database, query) == ReadPath(url[start..])
  {
    hide Until;
    j := slash;
    ghost var tail := url[start..];
    assert tail[..j - start] == url[start..j] && tail[j - start] == '/' && tail[j - start + 1..] == url[j + 1..];
    var q := Find(url, {'?'}, j + 1);
    assert url[j + 1..][..q - j - 1] == url[j + 1..q];
    if q == |url| {
      assert url[j + 1..q] == url[j + 1..];
      return j, Some(url[j + 1..]), None;
    }
    assert url[j + 1..][q - j - 1 + 1..] == url[q + 1..];
    return j, Some(url[j + 1..q]), Some(url[q + 1..]);
  }

  /** The first stop at or after `from`, or the URL's length. */
  method Find(url: string, stops: set<char>, from: nat) returns (j: nat)
    requires from <= |url|
    ensures from <= j <= |url| && j == from + Until(url[from..], stops)
    ensures j < |url| ==> url[j] in stops
  {
    j := from;
    while j < |url| && url[j] !in stops
      invariant from <= j <= |url|
      invariant Free(url[from..j], stops)
    {
      assert url[from..j + 1] == url[from..j] + [url[j]];
      j := j + 1;
    }
    assert url[from..][..j - from] == url[from..j];
    if j < |url| {
      UntilIs(url[from..], stops, j - from);
    } else {
      assert url[from..j] == url[from..];
      UntilEnd(url[from..], stops);
    }
  }
}
