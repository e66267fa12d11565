/** The FeohLedger rename: tenant databases one by one, then the control database, then one
    atomic rewrite of the organizations' db_name column. */
module Rename {

  datatype Names = Names(oldControl: string, newControl: string, oldPrefix: string, newPrefix: string)

  /** `dbs` maps each database's name to its identity; `orgs` is the db_name column. */
  datatype Cluster = Cluster(dbs: map<string, nat>, orgs: seq<string>)

  datatype Status = Conflict | AlreadyRenamed | NotPresent | WouldRename | Renamed

  datatype Step = RenameDb(old_: string, new_: string) | RewriteOrgs

  predicate Starts(s: string, prefix: string) {
    |prefix| <= |s| && s[..|prefix|] == prefix
  }

  /** The tenant name with its leading prefix swapped. */
  function Swapped(cfg: Names, name: string): string
    requires Starts(name, cfg.oldPrefix)
  {
    cfg.newPrefix + name[|cfg.oldPrefix|..]
  }

  function Rewritten(cfg: Names, name: string): string {
    if Starts(name, cfg.oldPrefix) then Swapped(cfg, name) else name
  }

  // ----- one step -----

  function StatusOf(c: Cluster, old_: string, new_: string, apply: bool): Status {
    if new_ in c.dbs then (if old_ in c.dbs then Conflict else AlreadyRenamed)
    else if old_ !in c.dbs then NotPresent
    else if apply then Renamed else WouldRename
  }

  /** The step with `--apply`: a rename happens only when the old name exists and the new one does not. */
  function Do(c: Cluster, cfg: Names, step: Step): Cluster {
    match step
    case RenameDb(old_, new_) =>
      if StatusOf(c, old_, new_, true) == Renamed then c.(dbs := (c.dbs - {old_})[new_ := c.dbs[old_]]) else c
    case RewriteOrgs =>
      if HasControl(c, cfg)
      then c.(orgs := seq(|c.orgs|, i requires 0 <= i < |c.orgs| => Rewritten(cfg, c.orgs[i])))
      else c
  }

  predicate HasControl(c: Cluster, cfg: Names) {
    cfg.newControl in c.dbs || cfg.oldControl in c.dbs
  }

  /** The tenant names a run discovers, in whatever order the server sorts them. */
  ghost predicate Lists(listing: seq<string>, c: Cluster, cfg: Names) {
    && (forall n :: n in listing <==> n in c.dbs && Starts(n, cfg.oldPrefix))
    && forall i, j :: 0 <= i < j < |listing| ==> listing[i] != listing[j]
  }

  function TenantSteps(cfg: Names, listing: seq<string>): seq<Step> {
    if listing == [] then []
    else [RenameDb(listing[0], Rewritten(cfg, listing[0]))] + TenantSteps(cfg, listing[1..])
  }

  function Steps(cfg: Names, listing: seq<string>): seq<Step> {
    TenantSteps(cfg, listing) + [RenameDb(cfg.oldControl, cfg.newControl), RewriteOrgs]
  }

  function DoAll(c: Cluster, cfg: Names, steps: seq<Step>): Cluster
    decreases |steps|
  {
    if steps == [] then c else DoAll(Do(c, cfg, steps[0]), cfg, steps[1..])
  }

  /** A run stopped after `k` steps. */
  function Stopped(c: Cluster, cfg: Names, listing: seq<string>, k: nat): Cluster {
    var steps := Steps(cfg, listing);
    DoAll(c, cfg, steps[..if k <= |steps| then k else |steps|])
  }

  function FullRun(c: Cluster, cfg: Names, listing: seq<string>): Cluster {
    DoAll(c, cfg, Steps(cfg, listing))
  }

  // ----- when the migration is promised to work -----

  predicate GoodNames(cfg: Names) {
    && !Starts(cfg.oldPrefix, cfg.newPrefix) && !Starts(cfg.newPrefix, cfg.oldPrefix)
    && !Starts(cfg.oldControl, cfg.oldPrefix) && !Starts(cfg.newControl, cfg.oldPrefix)
  }

  /** No name a rename would produce is taken, and no tenant would take a control name. */
  ghost predicate NoConflict(c: Cluster, cfg: Names) {
    && (forall n :: n in c.dbs && Starts(n, cfg.oldPrefix) ==>
          && Swapped(cfg, n) !in c.dbs && Swapped(cfg, n) != cfg.oldControl && Swapped(cfg, n) != cfg.newControl)
    && (cfg.oldControl in c.dbs ==> cfg.newControl !in c.dbs)
  }

  /** Where a database ends up. */
  function Target(cfg: Names, name: string): string {
    if Starts(name, cfg.oldPrefix) then Swapped(cfg, name)
    else if name == cfg.oldControl then cfg.newControl else name
  }

  /** The end state, said without steps: every database under its target name, no other names, and
      every row's leading prefix swapped. */
  ghost predicate Final(c: Cluster, cfg: Names, f: Cluster) {
    && (forall n :: n in c.dbs ==> Target(cfg, n) in f.dbs && f.dbs[Target(cfg, n)] == c.dbs[n])
    && (forall m :: m in f.dbs ==> exists n :: n in c.dbs && Target(cfg, n) == m)
    && |f.orgs| == |c.orgs|
    && forall i :: 0 <= i < |c.orgs| ==>
         f.orgs[i] == if HasControl(c, cfg) then Rewritten(cfg, c.orgs[i]) else c.orgs[i]
  }

  lemma FinalIsUnique(c: Cluster, cfg: Names, f: Cluster, g: Cluster)
    requires Final(c, cfg, f) && Final(c, cfg, g)
    ensures f == g
  {
    assert f.dbs == g.dbs by {
      forall m ensures m in f.dbs <==> m in g.dbs {
      }
      forall m | m in f.dbs ensures f.dbs[m] == g.dbs[m] {
        var n :| n in c.dbs && Target(cfg, n) == m;
      }
    }
    assert f.orgs == g.orgs;
  }

  /** A swapped name no longer carries the old prefix. */
  lemma SwappedIsNew(cfg: Names, name: string)
    requires GoodNames(cfg) && Starts(name, cfg.oldPrefix)
    ensures !Starts(Swapped(cfg, name), cfg.oldPrefix)
  {
    var s := Swapped(cfg, name);
    assert Starts(s, cfg.newPrefix);
    PrefixesNest(s, cfg.oldPrefix, cfg.newPrefix);
  }

  lemma PrefixesNest(s: string, a: string, b: string)
    ensures Starts(s, a) && Starts(s, b) ==> Starts(a, b) || Starts(b, a)
  {
    if Starts(s, a) && Starts(s, b) {
      if |a| <= |b| {
        assert b[..|a|] == s[..|b|][..|a|] == s[..|a|];
      } else {
        assert a[..|b|] == s[..|a|][..|b|] == s[..|b|];
      }
    }
  }

  lemma SwappedInjective(cfg: Names, a: string, b: string)
    requires Starts(a, cfg.oldPrefix) && Starts(b, cfg.oldPrefix) && Swapped(cfg, a) == Swapped(cfg, b)
    ensures a == b
  {
    var n := |cfg.newPrefix|;
    assert Swapped(cfg, a)[n..] == a[|cfg.oldPrefix|..] && Swapped(cfg, b)[n..] == b[|cfg.oldPrefix|..];
    assert a == a[..|cfg.oldPrefix|] + a[|cfg.oldPrefix|..];
    assert b == b[..|cfg.oldPrefix|] + b[|cfg.oldPrefix|..];
  }

  predicate PlannedStep(cfg: Names, step: Step) {
    match step
    case RenameDb(old_, new_) =>
      || (Starts(old_, cfg.oldPrefix) && new_ == Swapped(cfg, old_))
      || (old_ == cfg.oldControl && new_ == cfg.newControl)
    case RewriteOrgs => true
  }

  /** One planned step leaves the end state where it was, and makes no conflict. */
  lemma StepKeepsGoal(c: Cluster, cfg: Names, step: Step)
    requires GoodNames(cfg) && NoConflict(c, cfg) && PlannedStep(cfg, step)
    ensures var d := Do(c, cfg, step);
            && NoConflict(d, cfg) && HasControl(d, cfg) == HasControl(c, cfg)
            && forall f :: Final(d, cfg, f) ==> Final(c, cfg, f)
  {
    var d := Do(c, cfg, step);
    match step
    case RewriteOrgs =>
      forall i | 0 <= i < |c.orgs| ensures Rewritten(cfg, Rewritten(cfg, c.orgs[i])) == Rewritten(cfg, c.orgs[i]) {
        if Starts(c.orgs[i], cfg.oldPrefix) { SwappedIsNew(cfg, c.orgs[i]); }
      }
    case RenameDb(old_, new_) =>
      if StatusOf(c, old_, new_, true) == Renamed {
        if Starts(old_, cfg.oldPrefix) { SwappedIsNew(cfg, old_); }
        RenameKeepsConflictFree(c, cfg, old_, new_);
        forall f | Final(d, cfg, f) ensures Final(c, cfg, f) {
          RenameKeepsGoal(c, cfg, old_, new_, f);
        }
      }
  }

  lemma RenameKeepsConflictFree(c: Cluster, cfg: Names, old_: string, new_: string)
    requires GoodNames(cfg) && NoConflict(c, cfg) && PlannedStep(cfg, RenameDb(old_, new_))
    requires old_ in c.dbs && new_ !in c.dbs && !Starts(new_, cfg.oldPrefix)
    ensures NoConflict(Do(c, cfg, RenameDb(old_, new_)), cfg)
  {
    var d := Do(c, cfg, RenameDb(old_, new_));
    forall n | n in d.dbs && Starts(n, cfg.oldPrefix)
      ensures Swapped(cfg, n) !in d.dbs && Swapped(cfg, n) != cfg.oldControl && Swapped(cfg, n) != cfg.newControl
    {
      assert n in c.dbs && n != old_;
      if Starts(old_, cfg.oldPrefix) && Swapped(cfg, n) == new_ { SwappedInjective(cfg, n, old_); }
    }
  }

  lemma RenameKeepsGoal(c: Cluster, cfg: Names, old_: string, new_: string, f: Cluster)
    requires GoodNames(cfg) && NoConflict(c, cfg) && PlannedStep(cfg, RenameDb(old_, new_))
    requires old_ in c.dbs && new_ !in c.dbs && !Starts(new_, cfg.oldPrefix)
    requires Final(Do(c, cfg, RenameDb(old_, new_)), cfg, f)
    ensures Final(c, cfg, f)
  {
    var d := Do(c, cfg, RenameDb(old_, new_));
    assert Target(cfg, new_) == Target(cfg, old_) == new_;
    assert d.orgs == c.orgs && HasControl(d, cfg) == HasControl(c, cfg);
    assert d.dbs == (c.dbs - {old_})[new_ := c.dbs[old_]];
    hide Do, Target, Swapped, Starts, GoodNames, NoConflict, PlannedStep, HasControl, Rewritten;
    forall n | n in c.dbs ensures Target(cfg, n) in f.dbs && f.dbs[Target(cfg, n)] == c.dbs[n] {
      if n == old_ { assert new_ in d.dbs; } else { assert n in d.dbs && d.dbs[n] == c.dbs[n]; }
    }
    forall m | m in f.dbs ensures exists n :: n in c.dbs && Target(cfg, n) == m {
      var n :| n in d.dbs && Target(cfg, n) == m;
      if n == new_ { assert old_ in c.dbs && Target(cfg, old_) == m; } else { assert n in c.dbs; }
    }
  }

  lemma {:induction false} StepsKeepGoal(c: Cluster, cfg: Names, steps: seq<Step>)
    requires GoodNames(cfg) && NoConflict(c, cfg) && forall s :: s in steps ==> PlannedStep(cfg, s)
    ensures var d := DoAll(c, cfg, steps);
            && NoConflict(d, cfg) && HasControl(d, cfg) == HasControl(c, cfg)
            && forall f :: Final(d, cfg, f) ==> Final(c, cfg, f)
    decreases |steps|
  {
    if steps != [] {
      assert steps[0] in steps && forall s :: s in steps[1..] ==> s in steps;
      StepKeepsGoal(c, cfg, steps[0]);
      StepsKeepGoal(Do(c, cfg, steps[0]), cfg, steps[1..]);
    }
  }

  lemma {:induction false} TenantStepsPlanned(cfg: Names, listing: seq<string>)
    requires forall n :: n in listing ==> Starts(n, cfg.oldPrefix)
    ensures forall s :: s in TenantSteps(cfg, listing) ==> PlannedStep(cfg, s)
  {
    if listing != [] {
      assert listing[0] in listing && forall n :: n in listing[1..] ==> n in listing;
      TenantStepsPlanned(cfg, listing[1..]);
    }
  }

  lemma StepsPlanned(c: Cluster, cfg: Names, listing: seq<string>)
    requires Lists(listing, c, cfg)
    ensures forall s :: s in Steps(cfg, listing) ==> PlannedStep(cfg, s)
  {
    TenantStepsPlanned(cfg, listing);
  }

  // ----- a full run reaches the end state -----

  lemma {:induction false} DoAllAppend(c: Cluster, cfg: Names, a: seq<Step>, b: seq<Step>)
    ensures DoAll(c, cfg, a + b) == DoAll(DoAll(c, cfg, a), cfg, b)
    decreases |a|
  {
    if a == [] {
      assert a + b == b;
    } else {
      assert (a + b)[0] == a[0] && (a + b)[1..] == a[1..] + b;
      DoAllAppend(Do(c, cfg, a[0]), cfg, a[1..], b);
    }
  }

  /** After the tenant steps no old-prefix name is left. */
  lemma {:induction false} TenantsDone(c: Cluster, cfg: Names, listing: seq<string>)
    requires GoodNames(cfg) && NoConflict(c, cfg)
    requires forall n :: n in listing ==> Starts(n, cfg.oldPrefix)
    requires forall n :: n in c.dbs && Starts(n, cfg.oldPrefix) ==> n in listing
    ensures forall n :: n in DoAll(c, cfg, TenantSteps(cfg, listing)).dbs ==> !Starts(n, cfg.oldPrefix)
    decreases |listing|
  {
    if listing != [] {
      var step := TenantSteps(cfg, listing)[0];
      var d := Do(c, cfg, step);
      assert listing[0] in listing && forall n :: n in listing[1..] ==> n in listing;
      StepKeepsGoal(c, cfg, step);
      SwappedIsNew(cfg, listing[0]);
      forall n | n in d.dbs && Starts(n, cfg.oldPrefix) ensures n in listing[1..] {
        assert n in c.dbs && n != listing[0];
      }
      TenantsDone(d, cfg, listing[1..]);
      assert TenantSteps(cfg, listing)[1..] == TenantSteps(cfg, listing[1..]);
    }
  }

  lemma FullRunIsFinal(c: Cluster, cfg: Names, listing: seq<string>)
    requires GoodNames(cfg) && NoConflict(c, cfg) && Lists(listing, c, cfg)
    ensures Final(c, cfg, FullRun(c, cfg, listing)) && NoConflict(FullRun(c, cfg, listing), cfg)
  {
    var control := RenameDb(cfg.oldControl, cfg.newControl);
    var end := FullRun(c, cfg, listing);
    StepsPlanned(c, cfg, listing);
    StepsKeepGoal(c, cfg, Steps(cfg, listing));
    TenantsDone(c, cfg, listing);
    TenantStepsPlanned(cfg, listing);
    StepsKeepGoal(c, cfg, TenantSteps(cfg, listing));
    DoAllAppend(c, cfg, TenantSteps(cfg, listing), [control, RewriteOrgs]);
    var d := DoAll(c, cfg, TenantSteps(cfg, listing));
    var e := Do(d, cfg, control);
    assert [control, RewriteOrgs][1..] == [RewriteOrgs] && [RewriteOrgs][1..] == [];
    assert DoAll(e, cfg, [RewriteOrgs]) == DoAll(Do(e, cfg, RewriteOrgs), cfg, []);
    assert end == Do(e, cfg, RewriteOrgs);
    EndIsSettled(d, cfg);
  }

  /** Once no tenant has the old prefix, the last two steps leave nothing more to do. */
  lemma EndIsSettled(d: Cluster, cfg: Names)
    requires GoodNames(cfg) && NoConflict(d, cfg)
    requires forall n :: n in d.dbs ==> !Starts(n, cfg.oldPrefix)
    ensures var end := Do(Do(d, cfg, RenameDb(cfg.oldControl, cfg.newControl)), cfg, RewriteOrgs);
            Final(end, cfg, end)
  {
    var e := Do(d, cfg, RenameDb(cfg.oldControl, cfg.newControl));
    var end := Do(e, cfg, RewriteOrgs);
    forall n | n in end.dbs ensures Target(cfg, n) == n {
    }
    forall i | 0 <= i < |e.orgs| ensures Rewritten(cfg, Rewritten(cfg, e.orgs[i])) == Rewritten(cfg, e.orgs[i]) {
      if Starts(e.orgs[i], cfg.oldPrefix) { SwappedIsNew(cfg, e.orgs[i]); }
    }
  }

  // ----- the promises -----

  /** One attempt: the listing it discovered and how many steps it got through. */
  datatype Attempt = Attempt(listing: seq<string>, steps: nat)

  ghost predicate Attempts(c: Cluster, cfg: Names, attempts: seq<Attempt>)
    decreases |attempts|
  {
    attempts == [] || (Lists(attempts[0].listing, c, cfg)
      && Attempts(Stopped(c, cfg, attempts[0].listing, attempts[0].steps), cfg, attempts[1..]))
  }

  function AfterAttempts(c: Cluster, cfg: Names, attempts: seq<Attempt>): Cluster
    decreases |attempts|
  {
    if attempts == [] then c
    else AfterAttempts(Stopped(c, cfg, attempts[0].listing, attempts[0].steps), cfg, attempts[1..])
  }

  lemma {:induction false} AttemptsKeepGoal(c: Cluster, cfg: Names, attempts: seq<Attempt>)
    requires GoodNames(cfg) && NoConflict(c, cfg) && Attempts(c, cfg, attempts)
    ensures var d := AfterAttempts(c, cfg, attempts);
            NoConflict(d, cfg) && forall f :: Final(d, cfg, f) ==> Final(c, cfg, f)
    decreases |attempts|
  {
    if attempts != [] {
      var a := attempts[0];
      var steps := Steps(cfg, a.listing);
      StepsPlanned(c, cfg, a.listing);
      var done := steps[..if a.steps <= |steps| then a.steps else |steps|];
      assert forall s :: s in done ==> s in steps;
      StepsKeepGoal(c, cfg, done);
      AttemptsKeepGoal(Stopped(c, cfg, a.listing, a.steps), cfg, attempts[1..]);
    }
  }

  /** However often and wherever runs stop, a run that completes ends where one uninterrupted run
      would have; and running again changes nothing. */
  lemma RerunsConverge(c: Cluster, cfg: Names, attempts: seq<Attempt>, last: seq<string>, listing: seq<string>,
                       again: seq<string>)
    requires GoodNames(cfg) && NoConflict(c, cfg) && Attempts(c, cfg, attempts)
    requires Lists(last, AfterAttempts(c, cfg, attempts), cfg) && Lists(listing, c, cfg)
    requires Lists(again, FullRun(c, cfg, listing), cfg)
    ensures FullRun(AfterAttempts(c, cfg, attempts), cfg, last) == FullRun(c, cfg, listing)
    ensures FullRun(FullRun(c, cfg, listing), cfg, again) == FullRun(c, cfg, listing)
  {
    AttemptsKeepGoal(c, cfg, attempts);
    FullRunIsFinal(AfterAttempts(c, cfg, attempts), cfg, last);
    FullRunIsFinal(c, cfg, listing);
    FinalIsUnique(c, cfg, FullRun(AfterAttempts(c, cfg, attempts), cfg, last), FullRun(c, cfg, listing));
    var end := FullRun(c, cfg, listing);
    FullRunIsFinal(end, cfg, again);
    AttemptsKeepGoal(c, cfg, [Attempt(listing, |Steps(cfg, listing)|)]) by {
      assert [Attempt(listing, |Steps(cfg, listing)|)][1..] == [];
    }
    OneAttempt(c, cfg, listing);
    FinalIsUnique(c, cfg, FullRun(end, cfg, again), end);
  }

  lemma OneAttempt(c: Cluster, cfg: Names, listing: seq<string>)
    ensures AfterAttempts(c, cfg, [Attempt(listing, |Steps(cfg, listing)|)]) == FullRun(c, cfg, listing)
  {
    var a := [Attempt(listing, |Steps(cfg, listing)|)];
    assert a[1..] == [];
    assert Steps(cfg, listing)[..|Steps(cfg, listing)|] == Steps(cfg, listing);
    assert AfterAttempts(Stopped(c, cfg, listing, |Steps(cfg, listing)|), cfg, []) == FullRun(c, cfg, listing);
  }

  /** Nothing is lost or touched without cause: each database keeps its identity under its target
      name, and a name with neither the old prefix nor the old control name stays. */
  lemma DatabasesKept(c: Cluster, cfg: Names, listing: seq<string>, name: string)
    requires GoodNames(cfg) && NoConflict(c, cfg) && Lists(listing, c, cfg) && name in c.dbs
    ensures var f := FullRun(c, cfg, listing);
            && Target(cfg, name) in f.dbs && f.dbs[Target(cfg, name)] == c.dbs[name]
            && (!Starts(name, cfg.oldPrefix) && name != cfg.oldControl ==> name in f.dbs && f.dbs[name] == c.dbs[name])
            && |f.dbs| == |c.dbs|
  {
    FullRunIsFinal(c, cfg, listing);
    StepsPlanned(c, cfg, listing);
    SameCount(c, cfg, Steps(cfg, listing));
  }

  lemma {:induction false} SameCount(c: Cluster, cfg: Names, steps: seq<Step>)
    ensures |DoAll(c, cfg, steps).dbs| == |c.dbs|
    decreases |steps|
  {
    if steps != [] {
      var d := Do(c, cfg, steps[0]);
      if steps[0].RenameDb? && StatusOf(c, steps[0].old_, steps[0].new_, true) == Renamed {
        var m := c.dbs - {steps[0].old_};
        assert m.Keys == c.dbs.Keys - {steps[0].old_};
        assert d.dbs.Keys == m.Keys + {steps[0].new_};
        assert |m| == |m.Keys| && |d.dbs| == |d.dbs.Keys| && |c.dbs| == |c.dbs.Keys|;
      }
      SameCount(d, cfg, steps[1..]);
    }
  }

  /** A row that named an existing database names the same database afterwards, exactly unless it named
      the control database itself: that one is renamed and no row is repointed at it. */
  lemma RowsStillPoint(c: Cluster, cfg: Names, listing: seq<string>, i: nat)
    requires GoodNames(cfg) && NoConflict(c, cfg) && Lists(listing, c, cfg)
    requires HasControl(c, cfg) && i < |c.orgs| && c.orgs[i] in c.dbs
    ensures var f := FullRun(c, cfg, listing);
            && |f.orgs| == |c.orgs|
            && (f.orgs[i] in f.dbs <==> c.orgs[i] != cfg.oldControl)
            && (f.orgs[i] in f.dbs ==> f.dbs[f.orgs[i]] == c.dbs[c.orgs[i]])
  {
    FullRunIsFinal(c, cfg, listing);
    assert forall n :: n in c.dbs ==> Target(cfg, n) != cfg.oldControl || cfg.oldControl == cfg.newControl;
  }

  /** For example an organization kept in the control database itself, under the shipped names. */
  lemma ControlRowGoesStale()
    ensures var cfg := Names("account_payables", "feohledger", "ap_", "feoh_");
            var c := Cluster(map["account_payables" := 1], ["account_payables"]);
            && GoodNames(cfg) && NoConflict(c, cfg) && Lists([], c, cfg)
            && |FullRun(c, cfg, []).orgs| == 1 && FullRun(c, cfg, []).orgs[0] !in FullRun(c, cfg, []).dbs
  {
    var cfg := Names("account_payables", "feohledger", "ap_", "feoh_");
    var c := Cluster(map["account_payables" := 1], ["account_payables"]);
    assert "account_payables"[1] == 'c' && "ap_"[1] == 'p' && "feoh_"[0] == 'f' && "feohledger"[0] == 'f';
    RowsStillPoint(c, cfg, [], 0);
  }

  // ----- the names themselves -----

  /** No name in the way: said of the tails the two prefixes stand before. */
  ghost predicate WayIsClear(c: Cluster, cfg: Names) {
    && (forall tail: string :: cfg.oldPrefix + tail in c.dbs ==>
          && cfg.newPrefix + tail !in c.dbs
          && cfg.newPrefix + tail != cfg.oldControl && cfg.newPrefix + tail != cfg.newControl)
    && (cfg.oldControl in c.dbs ==> cfg.newControl !in c.dbs)
  }

  lemma PrefixTail(cfg: Names, tail: string)
    ensures Starts(cfg.oldPrefix + tail, cfg.oldPrefix)
    ensures Swapped(cfg, cfg.oldPrefix + tail) == cfg.newPrefix + tail
  {
    assert (cfg.oldPrefix + tail)[|cfg.oldPrefix|..] == tail;
  }

  lemma TailOf(cfg: Names, name: string) returns (tail: string)
    requires Starts(name, cfg.oldPrefix)
    ensures name == cfg.oldPrefix + tail
  {
    tail := name[|cfg.oldPrefix|..];
  }

  lemma ClearIsNoConflict(c: Cluster, cfg: Names)
    ensures WayIsClear(c, cfg) <==> NoConflict(c, cfg)
  {
    if WayIsClear(c, cfg) {
      forall n | n in c.dbs && Starts(n, cfg.oldPrefix)
        ensures Swapped(cfg, n) !in c.dbs && Swapped(cfg, n) != cfg.oldControl && Swapped(cfg, n) != cfg.newControl
      {
        var tail := TailOf(cfg, n);
        PrefixTail(cfg, tail);
      }
    }
    if NoConflict(c, cfg) {
      forall tail: string | cfg.oldPrefix + tail in c.dbs
        ensures cfg.newPrefix + tail !in c.dbs
        ensures cfg.newPrefix + tail != cfg.oldControl && cfg.newPrefix + tail != cfg.newControl
      {
        PrefixTail(cfg, tail);
      }
    }
  }

  /** After a full run every tenant database, and every organization's row, carries the new prefix where the old
      one stood, before the same tail; the control database has its new name; no other name has changed. */
  lemma PrefixIsSwapped(c: Cluster, cfg: Names, listing: seq<string>, tail: string)
    requires GoodNames(cfg) && WayIsClear(c, cfg) && Lists(listing, c, cfg)
    ensures var f := FullRun(c, cfg, listing);
            && (cfg.oldPrefix + tail in c.dbs ==>
                  cfg.newPrefix + tail in f.dbs && f.dbs[cfg.newPrefix + tail] == c.dbs[cfg.oldPrefix + tail])
            && cfg.oldPrefix + tail !in f.dbs
            && |f.orgs| == |c.orgs|
            && forall i :: 0 <= i < |c.orgs| && c.orgs[i] == cfg.oldPrefix + tail ==>
                 f.orgs[i] == if cfg.oldControl in c.dbs || cfg.newControl in c.dbs then cfg.newPrefix + tail
                              else c.orgs[i]
  {
    ClearIsNoConflict(c, cfg);
    FullRunIsFinal(c, cfg, listing);
    PrefixTail(cfg, tail);
    var f := FullRun(c, cfg, listing);
    hide FullRun, NoConflict, Lists;
    forall m | m in f.dbs ensures m != cfg.oldPrefix + tail {
      var n :| n in c.dbs && Target(cfg, n) == m;
      if Starts(n, cfg.oldPrefix) { SwappedIsNew(cfg, n); }
    }
  }

  /** Everything else: the control database, and names and rows without the old prefix. */
  lemma OthersAreKept(c: Cluster, cfg: Names, listing: seq<string>, name: string)
    requires GoodNames(cfg) && WayIsClear(c, cfg) && Lists(listing, c, cfg)
    requires !(cfg.oldPrefix <= name)
    ensures var f := FullRun(c, cfg, listing);
            && (name in c.dbs && name != cfg.oldControl ==> name in f.dbs && f.dbs[name] == c.dbs[name])
            && (cfg.oldControl in c.dbs ==> cfg.newControl in f.dbs && f.dbs[cfg.newControl] == c.dbs[cfg.oldControl])
            && |f.orgs| == |c.orgs|
            && forall i :: 0 <= i < |c.orgs| && c.orgs[i] == name ==> f.orgs[i] == name
  {
    ClearIsNoConflict(c, cfg);
    FullRunIsFinal(c, cfg, listing);
  }

  // ----- what the report counts -----

  /** How many of the steps report a conflict; without `apply` every step sees the same cluster. */
  function ConflictCount(c: Cluster, cfg: Names, steps: seq<Step>, apply: bool): nat
    decreases |steps|
  {
    if steps == [] then 0
    else
      (if steps[0].RenameDb? && StatusOf(c, steps[0].old_, steps[0].new_, apply) == Conflict then 1 else 0)
      + ConflictCount(if apply then Do(c, cfg, steps[0]) else c, cfg, steps[1..], apply)
  }

  function FirstSteps(cfg: Names, listing: seq<string>, stop: nat): seq<Step> {
    var steps := Steps(cfg, listing);
    steps[..if stop <= |steps| then stop else |steps|]
  }

  lemma {:induction false} CountAppend(c: Cluster, cfg: Names, a: seq<Step>, b: seq<Step>, apply: bool)
    ensures ConflictCount(c, cfg, a + b, apply)
            == ConflictCount(c, cfg, a, apply) + ConflictCount(if apply then DoAll(c, cfg, a) else c, cfg, b, apply)
    decreases |a|
  {
    if a == [] {
      assert a + b == b;
    } else {
      assert (a + b)[1..] == a[1..] + b;
      CountAppend(if apply then Do(c, cfg, a[0]) else c, cfg, a[1..], b, apply);
    }
  }

  lemma CountNone(c: Cluster, cfg: Names, apply: bool)
    ensures ConflictCount(c, cfg, [], apply) == 0
  {
  }

  lemma CountNext(c: Cluster, cfg: Names, steps: seq<Step>, i: nat, apply: bool)
    requires i < |steps|
    ensures var d := if apply then DoAll(c, cfg, steps[..i]) else c;
            ConflictCount(c, cfg, steps[..i + 1], apply)
            == ConflictCount(c, cfg, steps[..i], apply)
               + if steps[i].RenameDb? && StatusOf(d, steps[i].old_, steps[i].new_, apply) == Conflict then 1 else 0
  {
    assert steps[..i + 1] == steps[..i] + [steps[i]];
    CountAppend(c, cfg, steps[..i], [steps[i]], apply);
    assert [steps[i]][1..] == [];
  }

  /** No tenant's new name is a control name. */
  ghost predicate ControlsApart(c: Cluster, cfg: Names) {
    forall n :: n in c.dbs && Starts(n, cfg.oldPrefix) ==>
      Swapped(cfg, n) != cfg.oldControl && Swapped(cfg, n) != cfg.newControl
  }

  function Ending(cfg: Names): seq<Step> {
    [RenameDb(cfg.oldControl, cfg.newControl), RewriteOrgs]
  }

  lemma EndingCount(c: Cluster, cfg: Names, apply: bool)
    ensures ConflictCount(c, cfg, Ending(cfg), apply)
            == if cfg.oldControl in c.dbs && cfg.newControl in c.dbs then 1 else 0
  {
    var d := if apply then Do(c, cfg, Ending(cfg)[0]) else c;
    assert Ending(cfg)[1..] == [RewriteOrgs] && [RewriteOrgs][1..] == [];
    assert ConflictCount(if apply then Do(d, cfg, RewriteOrgs) else d, cfg, [], apply) == 0;
    assert ConflictCount(d, cfg, [RewriteOrgs], apply) == 0;
  }

  /** `rest` is still to be renamed, and what stood in its way or in the control's at `c` still does. */
  ghost predicate SameObstacles(c: Cluster, d: Cluster, cfg: Names, rest: seq<string>) {
    && (forall n :: n in rest ==>
          && Starts(n, cfg.oldPrefix) && n in c.dbs && n in d.dbs
          && (Swapped(cfg, n) in c.dbs <==> Swapped(cfg, n) in d.dbs))
    && (forall i, j :: 0 <= i < j < |rest| ==> rest[i] != rest[j])
    && (cfg.oldControl in c.dbs <==> cfg.oldControl in d.dbs) && (cfg.newControl in c.dbs <==> cfg.newControl in d.dbs)
  }

  lemma ObstaclesStay(c: Cluster, d: Cluster, cfg: Names, rest: seq<string>)
    requires GoodNames(cfg) && ControlsApart(c, cfg) && SameObstacles(c, d, cfg, rest) && rest != []
    ensures SameObstacles(c, Do(d, cfg, RenameDb(rest[0], Rewritten(cfg, rest[0]))), cfg, rest[1..])
  {
    var n, e := rest[0], Do(d, cfg, RenameDb(rest[0], Rewritten(cfg, rest[0])));
    assert n in rest;
    forall m | m in rest[1..]
      ensures Starts(m, cfg.oldPrefix) && m in c.dbs && m in e.dbs
      ensures Swapped(cfg, m) in c.dbs <==> Swapped(cfg, m) in e.dbs
    {
      assert m in rest && m != n;
      SwappedIsNew(cfg, m);
      if Swapped(cfg, m) == Swapped(cfg, n) { SwappedInjective(cfg, m, n); }
    }
  }

  lemma {:induction false} SameConflicts(c: Cluster, d: Cluster, cfg: Names, rest: seq<string>)
    requires GoodNames(cfg) && ControlsApart(c, cfg) && SameObstacles(c, d, cfg, rest)
    ensures ConflictCount(d, cfg, TenantSteps(cfg, rest) + Ending(cfg), true)
            == ConflictCount(c, cfg, TenantSteps(cfg, rest) + Ending(cfg), false)
    ensures ConflictCount(c, cfg, TenantSteps(cfg, rest) + Ending(cfg), false) == 0
            <==> (forall n :: n in rest ==> Swapped(cfg, n) !in c.dbs)
                 && !(cfg.oldControl in c.dbs && cfg.newControl in c.dbs)
    decreases |rest|
  {
    hide Ending;
    EndingCount(c, cfg, false);
    EndingCount(d, cfg, true);
    if rest == [] {
      assert TenantSteps(cfg, rest) + Ending(cfg) == Ending(cfg);
    } else {
      var steps := TenantSteps(cfg, rest) + Ending(cfg);
      assert rest[0] in rest && forall n :: n in rest <==> n == rest[0] || n in rest[1..];
      assert steps[1..] == TenantSteps(cfg, rest[1..]) + Ending(cfg);
      assert steps[0] == RenameDb(rest[0], Swapped(cfg, rest[0]));
      assert StatusOf(c, rest[0], Swapped(cfg, rest[0]), false) == Conflict <==> Swapped(cfg, rest[0]) in c.dbs;
      assert StatusOf(d, rest[0], Swapped(cfg, rest[0]), true) == Conflict <==> Swapped(cfg, rest[0]) in c.dbs;
      ObstaclesStay(c, d, cfg, rest);
      SameConflicts(c, Do(d, cfg, steps[0]), cfg, rest[1..]);
    }
  }

  /** A dry run reports as many conflicts as the real run would; and either reports none exactly when no
      name a rename would produce is taken. */
  lemma DryRunPredicts(c: Cluster, cfg: Names, listing: seq<string>)
    requires GoodNames(cfg) && ControlsApart(c, cfg) && Lists(listing, c, cfg)
    ensures ConflictCount(c, cfg, Steps(cfg, listing), false) == ConflictCount(c, cfg, Steps(cfg, listing), true)
    ensures ConflictCount(c, cfg, Steps(cfg, listing), false) == 0 <==> NoConflict(c, cfg)
  {
    assert Steps(cfg, listing) == TenantSteps(cfg, listing) + Ending(cfg);
    SameConflicts(c, c, cfg, listing);
  }

  // ----- when names are in the way -----

  /** Whatever the names and whatever is in the way, no run, wherever it stops, loses a database or makes one. */
  lemma NothingIsLost(c: Cluster, cfg: Names, listing: seq<string>, k: nat)
    ensures var d := Stopped(c, cfg, listing, k); d.dbs.Values == c.dbs.Values && |d.dbs| == |c.dbs|
  {
    var steps := Steps(cfg, listing);
    var done := steps[..if k <= |steps| then k else |steps|];
    SameCount(c, cfg, done);
    SameIdentities(c, cfg, done);
  }

  lemma {:induction false} SameIdentities(c: Cluster, cfg: Names, steps: seq<Step>)
    ensures DoAll(c, cfg, steps).dbs.Values == c.dbs.Values
    decreases |steps|
  {
    if steps != [] {
      var d := Do(c, cfg, steps[0]);
      if steps[0].RenameDb? && StatusOf(c, steps[0].old_, steps[0].new_, true) == Renamed {
        var a, b := steps[0].old_, steps[0].new_;
        forall id ensures id in d.dbs.Values <==> id in c.dbs.Values {
          if n :| n in c.dbs && c.dbs[n] == id { assert d.dbs[if n == a then b else n] == id; }
          if m :| m in d.dbs && d.dbs[m] == id { assert c.dbs[if m == b then a else m] == id; }
        }
      }
      SameIdentities(d, cfg, steps[1..]);
    }
  }

  /** Two databases that keep their names, each its own. */
  predicate BothStand(c: Cluster, d: Cluster, a: string, b: string) {
    a in c.dbs && b in c.dbs && a in d.dbs && b in d.dbs && d.dbs[a] == c.dbs[a] && d.dbs[b] == c.dbs[b]
  }

  lemma {:induction false} StepsSpare(c: Cluster, d: Cluster, cfg: Names, steps: seq<Step>, a: string, b: string)
    requires BothStand(c, d, a, b)
    requires forall s :: s in steps && s.RenameDb? ==>
               (s.old_ == a ==> s.new_ == b) && (s.old_ == b ==> s.new_ in {a, b})
    ensures BothStand(c, DoAll(d, cfg, steps), a, b)
    decreases |steps|
  {
    if steps != [] {
      assert steps[0] in steps && forall s :: s in steps[1..] ==> s in steps;
      StepsSpare(c, Do(d, cfg, steps[0]), cfg, steps[1..], a, b);
    }
  }

  /** Where both a tenant's old and its new name exist, or both control names, every run, wherever it stops, leaves
      both as they were. */
  lemma ConflictsAreLeft(c: Cluster, cfg: Names, listing: seq<string>, k: nat, tail: string)
    requires GoodNames(cfg) && Lists(listing, c, cfg)
    ensures var a, b, d := cfg.oldPrefix + tail, cfg.newPrefix + tail, Stopped(c, cfg, listing, k);
            && (a in c.dbs && b in c.dbs && b != cfg.oldControl ==> BothStand(c, d, a, b))
            && (cfg.oldControl in c.dbs && cfg.newControl in c.dbs ==> BothStand(c, d, cfg.oldControl, cfg.newControl))
  {
    var a, b := cfg.oldPrefix + tail, cfg.newPrefix + tail;
    var steps := Steps(cfg, listing);
    var done := steps[..if k <= |steps| then k else |steps|];
    StepsPlanned(c, cfg, listing);
    PrefixTail(cfg, tail);
    SwappedIsNew(cfg, a);
    hide Steps, DoAll, Do, Swapped;
    forall s | s in done ensures PlannedStep(cfg, s) {
      assert s in steps;
    }
    if a in c.dbs && b in c.dbs && b != cfg.oldControl { StepsSpare(c, c, cfg, done, a, b); }
    if cfg.oldControl in c.dbs && cfg.newControl in c.dbs {
      StepsSpare(c, c, cfg, done, cfg.oldControl, cfg.newControl);
    }
  }

  /** What a dry run would rename is what a real one renames, and once renamed it is reported so. */
  lemma RenamedOnce(c: Cluster, cfg: Names, old_: string, new_: string, apply: bool)
    ensures StatusOf(c, old_, new_, false) == WouldRename <==> StatusOf(c, old_, new_, true) == Renamed
    ensures StatusOf(c, old_, new_, true) == Renamed ==>
              && old_ in c.dbs && new_ !in c.dbs
              && StatusOf(Do(c, cfg, RenameDb(old_, new_)), old_, new_, apply) == AlreadyRenamed
  {
  }

  /** The names of tenants whose new name is taken. */
  function Taken(c: Cluster, cfg: Names): set<string> {
    set n | n in c.dbs && cfg.oldPrefix <= n && cfg.newPrefix + n[|cfg.oldPrefix|..] in c.dbs
  }

  function Among(names: set<string>, rest: seq<string>): set<string> {
    set n | n in names && n in rest
  }

  lemma AmongOneMore(names: set<string>, rest: seq<string>)
    requires rest != [] && rest[0] !in rest[1..]
    ensures |Among(names, rest)| == |Among(names, rest[1..])| + if rest[0] in names then 1 else 0
  {
    var n, before := rest[0], Among(names, rest[1..]);
    assert forall m :: m in rest <==> m == n || m in rest[1..];
    assert Among(names, rest) == if n in names then before + {n} else before;
  }

  lemma CountTenant(c: Cluster, cfg: Names, n: string, steps: seq<Step>)
    requires n in c.dbs && Starts(n, cfg.oldPrefix) && steps != [] && steps[0] == RenameDb(n, Rewritten(cfg, n))
    ensures ConflictCount(c, cfg, steps, false)
            == ConflictCount(c, cfg, steps[1..], false) + if n in Taken(c, cfg) then 1 else 0
  {
    assert StatusOf(c, n, Swapped(cfg, n), false) == Conflict <==> n in Taken(c, cfg);
  }

  lemma {:induction false} CountRest(c: Cluster, cfg: Names, rest: seq<string>)
    requires forall i :: 0 <= i < |rest| ==> rest[i] in c.dbs && Starts(rest[i], cfg.oldPrefix)
    requires forall i, j :: 0 <= i < j < |rest| ==> rest[i] != rest[j]
    ensures ConflictCount(c, cfg, TenantSteps(cfg, rest) + Ending(cfg), false)
            == |Among(Taken(c, cfg), rest)| + if cfg.oldControl in c.dbs && cfg.newControl in c.dbs then 1 else 0
  {
    var steps := TenantSteps(cfg, rest) + Ending(cfg);
    hide Ending, ConflictCount, StatusOf, Taken, Starts, Rewritten;
    EndingCount(c, cfg, false);
    if rest == [] {
      assert steps == Ending(cfg);
    } else {
      assert steps[1..] == TenantSteps(cfg, rest[1..]) + Ending(cfg);
      assert steps[0] == RenameDb(rest[0], Rewritten(cfg, rest[0]));
      hide TenantSteps, Among;
      CountRest(c, cfg, rest[1..]);
      CountTenant(c, cfg, rest[0], steps);
      AmongOneMore(Taken(c, cfg), rest);
    }
  }

  /** A dry run counts each tenant whose new name is taken, and the control database if both its names exist. */
  lemma ConflictsAreCounted(c: Cluster, cfg: Names, listing: seq<string>)
    requires Lists(listing, c, cfg)
    ensures ConflictCount(c, cfg, Steps(cfg, listing), false)
            == |Taken(c, cfg)| + if cfg.oldControl in c.dbs && cfg.newControl in c.dbs then 1 else 0
  {
    assert Steps(cfg, listing) == TenantSteps(cfg, listing) + Ending(cfg);
    assert Among(Taken(c, cfg), listing) == Taken(c, cfg);
    assert forall i :: 0 <= i < |listing| ==> listing[i] in listing;
    hide Steps, TenantSteps, Ending, ConflictCount;
    CountRest(c, cfg, listing);
  }

  // ----- the script -----

  class Migration {
    const cfg: Names
    var dbs: map<string, nat>
    var orgs: seq<string>

    constructor (cfg: Names, cluster: Cluster)
      ensures this.cfg == cfg && View() == cluster
    {
      this.cfg, dbs, orgs := cfg, cluster.dbs, cluster.orgs;
    }

    function View(): Cluster
      reads this
    {
      Cluster(dbs, orgs)
    }

    method RenameDatabase(old_: string, new_: string, apply: bool) returns (status: Status)
      modifies this`dbs
      ensures status == StatusOf(old(View()), old_, new_, apply)
      ensures View() == if apply then Do(old(View()), cfg, RenameDb(old_, new_)) else old(View())
    {
      if new_ in dbs {
        return if old_ in dbs then Conflict else AlreadyRenamed;
      }
      if old_ !in dbs {
        return NotPresent;
      }
      if !apply {
        return WouldRename;
      }
      dbs := (dbs - {old_})[new_ := dbs[old_]];
      status := Renamed;
    }

    method RewriteOrgDbNames(apply: bool)
      modifies this`orgs
      ensures View() == if apply then Do(old(View()), cfg, RewriteOrgs) else old(View())
    {
      var controlDb := if cfg.newControl in dbs then cfg.newControl else cfg.oldControl;
      if controlDb in dbs && apply {
        var rows, names := orgs, cfg;
        orgs := seq(|rows|, i requires 0 <= i < |rows| => Rewritten(names, rows[i]));
      }
    }

    /** Step 1, the tenants, stopping after `stop` of them. */
    method RenameTenants(listing: seq<string>, apply: bool, stop: nat) returns (conflicts: nat, done: nat)
      modifies this`dbs
      ensures done == if stop < |listing| then stop else |listing|
      ensures done <= |Steps(cfg, listing)|
      ensures var steps := Steps(cfg, listing)[..done];
              && View() == (if apply then DoAll(old(View()), cfg, steps) else old(View()))
              && conflicts == ConflictCount(old(View()), cfg, steps, apply)
    {
      hide ConflictCount, DoAll, Do, Steps, StatusOf, Rewritten;
      conflicts, done := 0, 0;
      StepsShape(cfg, listing);
      ghost var start := View();
      ghost var steps := Steps(cfg, listing);
      CountNone(start, cfg, apply);
      DoNone(start, cfg);
      assert steps[..0] == [];
      while done < |listing| && done < stop
        invariant 0 <= done <= |listing| && done <= stop
        invariant View() == if apply then DoAll(start, cfg, steps[..done]) else start
        invariant conflicts == ConflictCount(start, cfg, steps[..done], apply)
      {
        CountNext(start, cfg, steps, done, apply);
        NextStep(start, cfg, steps, done);
        var status := RenameDatabase(listing[done], Rewritten(cfg, listing[done]), apply);
        if status == Conflict {
          conflicts := conflicts + 1;
        }
        done := done + 1;
      }
    }

    /** A run that stops after `stop` steps (or completes), over the names it discovered. */
    method Run(listing: seq<string>, apply: bool, stop: nat) returns (conflicts: nat)
      modifies this
      ensures !apply ==> View() == old(View())
      ensures apply ==> View() == Stopped(old(View()), cfg, listing, stop)
      ensures conflicts == ConflictCount(old(View()), cfg, FirstSteps(cfg, listing, stop), apply)
    {
      hide ConflictCount, DoAll, Do, Steps, StatusOf, Rewritten;
      ghost var start := View();
      ghost var steps := Steps(cfg, listing);
      StepsShape(cfg, listing);
      var i;
      conflicts, i := RenameTenants(listing, apply, stop);
      if i == stop {
        return;
      }
      CountNext(start, cfg, steps, i, apply);
      NextStep(start, cfg, steps, i);
      var status := RenameDatabase(cfg.oldControl, cfg.newControl, apply);
      if status == Conflict {
        conflicts := conflicts + 1;
      }
      if i + 1 == stop {
        return;
      }
      CountNext(start, cfg, steps, i + 1, apply);
      NextStep(start, cfg, steps, i + 1);
      RewriteOrgDbNames(apply);
      assert steps[..i + 2] == steps;
    }
  }

  lemma DoNone(c: Cluster, cfg: Names)
    ensures DoAll(c, cfg, []) == c
  {
  }

  lemma {:induction false} StepsShape(cfg: Names, listing: seq<string>)
    ensures var steps := Steps(cfg, listing);
            && |steps| == |listing| + 2
            && (forall i :: 0 <= i < |listing| ==> steps[i] == RenameDb(listing[i], Rewritten(cfg, listing[i])))
            && steps[|listing|] == RenameDb(cfg.oldControl, cfg.newControl) && steps[|listing| + 1] == RewriteOrgs
  {
    if listing != [] {
      StepsShape(cfg, listing[1..]);
      assert Steps(cfg, listing) == [RenameDb(listing[0], Rewritten(cfg, listing[0]))] + Steps(cfg, listing[1..]);
    }
  }

  lemma NextStep(c: Cluster, cfg: Names, steps: seq<Step>, i: nat)
    requires i < |steps|
    ensures DoAll(c, cfg, steps[..i + 1]) == Do(DoAll(c, cfg, steps[..i]), cfg, steps[i])
  {
    DoAllAppend(c, cfg, steps[..i], [steps[i]]);
    assert steps[..i + 1] == steps[..i] + [steps[i]];
    assert [steps[i]][1..] == [];
  }
}
