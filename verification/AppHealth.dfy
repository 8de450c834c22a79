/**
  agent/apphealth.go: one checking goroutine per app and one reporter share the health and
  failure maps under a lock. Each critical section is one step; runs interleave them freely.
*/
module AppHealth {
  import opened Wrappers

  type Id = nat
  datatype Health = Disabled | Initializing | Healthy | Unhealthy
  datatype App = App(id: Id, health: Health, url: string, interval: int, threshold: int)
  type Table = map<Id, Health>

  predicate ShouldStartTicker(app: App) {
    app.url != "" && app.interval > 0 && app.threshold > 0
  }

  // ---- the shared maps ----

  datatype Shared = Shared(health: Table, failures: map<Id, nat>)

  /** A missing key of a Go map reads as zero. */
  function Failures(s: Shared, id: Id): nat {
    if id in s.failures then s.failures[id] else 0
  }

  /** The critical section after one check of an app. */
  function Checked(s: Shared, id: Id, threshold: nat, ok: bool): Shared {
    if ok then Shared(s.health[id := Healthy], s.failures[id := 0])
    else if Failures(s, id) < threshold then Shared(s.health, s.failures[id := Failures(s, id) + 1])
    else Shared(s.health[id := Unhealthy], s.failures)
  }

  class Monitor {
    var health: Table
    var failures: map<Id, nat>
    var enabled: bool

    function Value(): Shared
      reads this
    {
      Shared(health, failures)
    }

    /** The starting health map, and whether any app has its checks enabled. */
    constructor (apps: seq<App>)
      ensures Value() == Shared(StartingHealth(apps), map[])
      ensures enabled <==> AnyEnabled(apps)
    {
      health, failures, enabled := map[], map[], false;
      new;
      for i := 0 to |apps|
        invariant health == StartingHealth(apps[..i]) && failures == map[]
        invariant enabled <==> AnyEnabled(apps[..i])
      {
        assert apps[..i + 1][..i] == apps[..i];
        AnyEnabledSnoc(apps[..i], apps[i]);
        assert apps[..i] + [apps[i]] == apps[..i + 1];
        health := health[apps[i].id := apps[i].health];
        enabled := enabled || apps[i].health != Disabled;
      }
      assert apps[..|apps|] == apps;
    }

    method Record(id: Id, threshold: nat, ok: bool)
      modifies this
      ensures Value() == Checked(old(Value()), id, threshold, ok) && enabled == old(enabled)
    {
      if !ok {
        var count := if id in failures then failures[id] else 0;
        if count < threshold {
          failures := failures[id := count + 1];
        } else {
          health := health[id := Unhealthy];
        }
      } else {
        health := health[id := Healthy];
        failures := failures[id := 0];
      }
    }

    /** One reporter tick with nothing in between: the map to post, if there is one. */
    method Tick(last: Table) returns (post: Option<Table>, newLast: Table)
      requires last.Keys == health.Keys
      ensures newLast == health
      ensures post == if last == health then None else Some(health)
    {
      var changed := HealthChanged(last, health);
      ChangedIff(last, health);
      if !changed {
        return None, last;
      }
      newLast := CopyHealth(health);
      post := Some(newLast);
    }
  }

  function StartingHealth(apps: seq<App>): Table {
    if apps == [] then map[]
    else
      var app := apps[|apps| - 1];
      StartingHealth(apps[..|apps| - 1])[app.id := app.health]
  }

  predicate AnyEnabled(apps: seq<App>) { exists i :: 0 <= i < |apps| && apps[i].health != Disabled }

  lemma AnyEnabledSnoc(apps: seq<App>, app: App)
    ensures AnyEnabled(apps + [app]) <==> AnyEnabled(apps) || app.health != Disabled
  {
    var all := apps + [app];
    assert all[|apps|] == app;
    assert forall i :: 0 <= i < |apps| ==> all[i] == apps[i];
  }

  function Tickers(apps: seq<App>): map<Id, nat> {
    if apps == [] then map[]
    else
      var app := apps[|apps| - 1];
      var front := Tickers(apps[..|apps| - 1]);
      if ShouldStartTicker(app) then front[app.id := app.threshold] else front
  }

  /** The apps with a ticker, and their thresholds: none unless some app has its checks enabled. */
  function Ticking(apps: seq<App>): map<Id, nat> {
    if AnyEnabled(apps) then Tickers(apps) else map[]
  }

  ghost predicate DistinctIds(apps: seq<App>) {
    forall i, j :: 0 <= i < j < |apps| ==> apps[i].id != apps[j].id
  }

  lemma {:induction false} StartingIds(apps: seq<App>, id: Id)
    requires id in StartingHealth(apps)
    ensures exists i :: 0 <= i < |apps| && apps[i].id == id
  {
    var n := |apps| - 1;
    if apps[n].id != id {
      StartingIds(apps[..n], id);
      var i :| 0 <= i < n && apps[..n][i].id == id;
      assert apps[i].id == id;
    }
  }

  lemma {:induction false} TickersHaveHealth(apps: seq<App>)
    ensures Tickers(apps).Keys <= StartingHealth(apps).Keys
  {
    if apps != [] {
      TickersHaveHealth(apps[..|apps| - 1]);
    }
  }

  lemma {:induction false} TickersOfApps(apps: seq<App>, i: nat)
    requires DistinctIds(apps) && i < |apps|
    ensures AppStarts(apps, apps[i])
    decreases |apps|
  {
    var n := |apps| - 1;
    var front := apps[..n];
    if i < n {
      TickersOfApps(front, i);
      assert front[i].id != apps[n].id;
    } else {
      TickersHaveHealth(front);
      if apps[n].id in StartingHealth(front) {
        StartingIds(front, apps[n].id);
      }
    }
  }

  ghost predicate AppStarts(apps: seq<App>, app: App) {
    && app.id in StartingHealth(apps) && StartingHealth(apps)[app.id] == app.health
    && (app.id in Tickers(apps) <==> ShouldStartTicker(app))
    && (ShouldStartTicker(app) ==> Tickers(apps)[app.id] == app.threshold)
  }

  predicate Changed(before: Table, now: Table) {
    exists id :: id in now && (id !in before || before[id] != now[id])
  }

  /** Iteration over the new map in any order. */
  method HealthChanged(before: Table, now: Table) returns (changed: bool)
    ensures changed <==> Changed(before, now)
  {
    var todo := now.Keys;
    while todo != {}
      invariant todo <= now.Keys
      invariant forall id :: id in now && id !in todo ==> id in before && before[id] == now[id]
      decreases |todo|
    {
      var id :| id in todo;
      if id !in before || before[id] != now[id] {
        return true;
      }
      todo := todo - {id};
    }
    return false;
  }

  method CopyHealth(h1: Table) returns (h2: Table)
    ensures h2 == h1
  {
    h2 := map[];
    var todo := h1.Keys;
    while todo != {}
      invariant todo <= h1.Keys && h2.Keys == h1.Keys - todo
      invariant forall id :: id in h2 ==> h2[id] == h1[id]
      decreases |todo|
    {
      var id :| id in todo;
      h2 := h2[id := h1[id]];
      todo := todo - {id};
    }
  }

  /** Over the same apps, the one-sided comparison finds every difference. */
  lemma ChangedIff(a: Table, b: Table)
    requires a.Keys == b.Keys
    ensures Changed(a, b) <==> a != b
  {
    assert (forall id :: id in b ==> id in a && a[id] == b[id]) ==> a == b;
  }

  // ---- runs ----

  datatype Phase = Starting | Idle | Copying | Posting
  datatype Post = Post(healths: Table, delivered: bool)

  /** `last` is lastHealth, `first` its starting copy; posts lists the finished requests. */
  datatype State = State(shared: Shared, phase: Phase, first: Table, last: Table, posts: seq<Post>)

  datatype Step =
    | Check(id: Id, ok: bool)
    | Begin
    | Compare
    | Copy
    | Finish(delivered: bool)

  function Init(start: Table): State { State(Shared(start, map[]), Starting, map[], map[], []) }

  /** `ticking` maps the apps with a ticker to their thresholds. */
  predicate Can(ticking: map<Id, nat>, s: State, e: Step) {
    match e
    case Check(id, _) => id in ticking
    case Begin => s.phase == Starting
    case Compare => s.phase == Idle
    case Copy => s.phase == Copying
    case Finish(_) => s.phase == Posting
  }

  ghost function Next(ticking: map<Id, nat>, s: State, e: Step): State
    requires Can(ticking, s, e)
  {
    match e
    case Check(id, ok) => s.(shared := Checked(s.shared, id, ticking[id], ok))
    case Begin => s.(phase := Idle, first := s.shared.health, last := s.shared.health)
    case Compare => if Changed(s.last, s.shared.health) then s.(phase := Copying) else s
    case Copy => s.(phase := Posting, last := s.shared.health)
    case Finish(delivered) => s.(phase := Idle, posts := s.posts + [Post(s.last, delivered)])
  }

  ghost predicate Runs(ticking: map<Id, nat>, s: State, es: seq<Step>)
    decreases |es|, 0
  {
    es == [] ||
    (Runs(ticking, s, es[..|es| - 1]) &&
     Can(ticking, After(ticking, s, es[..|es| - 1]), es[|es| - 1]))
  }

  ghost function After(ticking: map<Id, nat>, s: State, es: seq<Step>): State
    requires Runs(ticking, s, es)
    decreases |es|, 1
  {
    if es == [] then s else Next(ticking, After(ticking, s, es[..|es| - 1]), es[|es| - 1])
  }

  // ---- counters and health of one app ----

  /** The results of one app's own checks. */
  function Results(es: seq<Step>, id: Id): seq<bool> {
    if es == [] then []
    else
      var e := es[|es| - 1];
      Results(es[..|es| - 1], id) + if e.Check? && e.id == id then [e.ok] else []
  }

  /** Failures since the last success. */
  function Streak(results: seq<bool>): (n: nat)
    ensures n <= |results|
  {
    if results == [] || results[|results| - 1] then 0 else 1 + Streak(results[..|results| - 1])
  }

  /** Unhealthy past the threshold, otherwise what held before the failing streak. */
  function ExpectedHealth(start: Health, threshold: nat, results: seq<bool>): Health {
    if Streak(results) > threshold then Unhealthy
    else if Streak(results) < |results| then Healthy
    else start
  }

  function Min(a: nat, b: nat): nat { if a < b then a else b }

  ghost predicate Tracks(s: Shared, start: Table, id: Id, threshold: nat, results: seq<bool>)
    requires id in start
  {
    && Failures(s, id) == Min(threshold, Streak(results))
    && id in s.health && s.health[id] == ExpectedHealth(start[id], threshold, results)
  }

  lemma CheckKeepsTracking(s: Shared, start: Table, id: Id, threshold: nat, results: seq<bool>, ok: bool)
    requires id in start && threshold > 0 && Tracks(s, start, id, threshold, results)
    ensures Tracks(Checked(s, id, threshold, ok), start, id, threshold, results + [ok])
  {
    assert (results + [ok])[..|results|] == results;
  }

  /**
    In every run, an app's counter is its failures since its last success, capped at the
    threshold, and its health follows from its own results alone.
  */
  lemma {:induction false} CounterAndHealth(ticking: map<Id, nat>, start: Table, es: seq<Step>, id: Id)
    requires Runs(ticking, Init(start), es) && id in ticking && id in start && ticking[id] > 0
    ensures Tracks(After(ticking, Init(start), es).shared, start, id, ticking[id], Results(es, id))
    decreases |es|
  {
    if es != [] {
      var front, e := es[..|es| - 1], es[|es| - 1];
      CounterAndHealth(ticking, start, front, id);
      var s := After(ticking, Init(start), front);
      if e.Check? && e.id == id {
        CheckKeepsTracking(s.shared, start, id, ticking[id], Results(front, id), e.ok);
      } else {
        assert Results(es, id) == Results(front, id);
      }
    }
  }

  /** For the apps of a workspace: each one that is checked follows its own results from its own start. */
  lemma AppFollowsResults(apps: seq<App>, es: seq<Step>, i: nat)
    requires DistinctIds(apps) && i < |apps|
    requires Runs(Ticking(apps), Init(StartingHealth(apps)), es)
    ensures var s := After(Ticking(apps), Init(StartingHealth(apps)), es).shared;
            var app, results := apps[i], Results(es, apps[i].id);
            && app.id in s.health
            && (AnyEnabled(apps) && app.url != "" && app.interval > 0 && app.threshold > 0 ==>
                  && Failures(s, app.id) == Min(app.threshold, Streak(results))
                  && s.health[app.id] == ExpectedHealth(app.health, app.threshold, results))
            && (!AnyEnabled(apps) || app.url == "" || app.interval <= 0 || app.threshold <= 0 ==>
                  s.health[app.id] == app.health)
  {
    TickersOfApps(apps, i);
    if AnyEnabled(apps) && ShouldStartTicker(apps[i]) {
      CounterAndHealth(Ticking(apps), StartingHealth(apps), es, apps[i].id);
    } else {
      UncheckedKeepsHealth(Ticking(apps), StartingHealth(apps), es, apps[i].id);
    }
  }

  lemma {:induction false} UncheckedKeepsHealth(ticking: map<Id, nat>, start: Table, es: seq<Step>, id: Id)
    requires Runs(ticking, Init(start), es) && id !in ticking && id in start
    ensures var h := After(ticking, Init(start), es).shared.health; id in h && h[id] == start[id]
    decreases |es|
  {
    if es != [] {
      UncheckedKeepsHealth(ticking, start, es[..|es| - 1], id);
    }
  }

  /** Whatever the other goroutines do: equal results give equal counters and health. */
  lemma OtherAppsDoNotMatter(ticking: map<Id, nat>, start: Table, es: seq<Step>, fs: seq<Step>, id: Id)
    requires Runs(ticking, Init(start), es) && Runs(ticking, Init(start), fs)
    requires id in ticking && id in start && ticking[id] > 0 && Results(es, id) == Results(fs, id)
    ensures var a, b := After(ticking, Init(start), es).shared, After(ticking, Init(start), fs).shared;
            Failures(a, id) == Failures(b, id) && id in a.health && id in b.health && a.health[id] == b.health[id]
  {
    CounterAndHealth(ticking, start, es, id);
    CounterAndHealth(ticking, start, fs, id);
  }

  // ---- the reporter ----

  function Server(start: Table, posts: seq<Post>): Table {
    if posts == [] then start
    else if posts[|posts| - 1].delivered then posts[|posts| - 1].healths
    else Server(start, posts[..|posts| - 1])
  }

  ghost predicate Reporting(start: Table, s: State) {
    && s.shared.health.Keys == start.Keys
    && (s.phase == Starting ==> s.posts == [])
    && (s.phase != Starting ==> s.last.Keys == start.Keys)
    && (s.phase == Idle || s.phase == Copying ==>
          s.last == if s.posts == [] then s.first else s.posts[|s.posts| - 1].healths)
  }

  lemma StepKeepsReporting(ticking: map<Id, nat>, start: Table, s: State, e: Step)
    requires ticking.Keys <= start.Keys && Reporting(start, s) && Can(ticking, s, e)
    ensures Reporting(start, Next(ticking, s, e))
  {
    match e
    case Check(id, ok) =>
      assert id in ticking.Keys;
      assert Checked(s.shared, id, ticking[id], ok).health.Keys == start.Keys;
    case Begin =>
    case Compare =>
    case Copy =>
    case Finish(_) =>
  }

  /** No check in the run changes any app's health. */
  ghost predicate Quiet(ticking: map<Id, nat>, s: State, es: seq<Step>)
    requires Runs(ticking, s, es)
    decreases |es|
  {
    es == [] ||
    (Quiet(ticking, s, es[..|es| - 1]) && After(ticking, s, es).shared.health == s.shared.health)
  }

  /**
    Once checks stop changing health and the reporter has compared the maps since, the map it
    holds is the health map, and it is the last one posted, or the starting copy if none was.
  */
  lemma {:induction false} QuietTickReports(ticking: map<Id, nat>, start: Table, s: State, es: seq<Step>)
    requires ticking.Keys <= start.Keys && Reporting(start, s)
    requires Runs(ticking, s, es) && Quiet(ticking, s, es) && Compare in es
    ensures var f := After(ticking, s, es);
            && Reporting(start, f) && f.phase != Starting
            && f.shared.health == s.shared.health
            && (f.phase != Copying ==> f.last == f.shared.health)
            && (f.phase == Idle ==>
                  f.shared.health == if f.posts == [] then f.first else f.posts[|f.posts| - 1].healths)
    decreases |es|
  {
    var front, e := es[..|es| - 1], es[|es| - 1];
    var b := After(ticking, s, front);
    FromReporting(ticking, start, s, front);
    if e == Compare {
      ChangedIff(b.last, b.shared.health);
    } else {
      assert es == front + [e];
      QuietTickReports(ticking, start, s, front);
    }
    StepKeepsReporting(ticking, start, b, e);
    assert Quiet(ticking, s, front);
    QuietHealth(ticking, s, front);
  }

  lemma QuietHealth(ticking: map<Id, nat>, s: State, es: seq<Step>)
    requires Runs(ticking, s, es) && Quiet(ticking, s, es)
    ensures After(ticking, s, es).shared.health == s.shared.health
  {
  }

  lemma {:induction false} FromReporting(ticking: map<Id, nat>, start: Table, s: State, es: seq<Step>)
    requires ticking.Keys <= start.Keys && Reporting(start, s) && Runs(ticking, s, es)
    ensures Reporting(start, After(ticking, s, es))
    decreases |es|
  {
    if es != [] {
      var front := es[..|es| - 1];
      FromReporting(ticking, start, s, front);
      StepKeepsReporting(ticking, start, After(ticking, s, front), es[|es| - 1]);
    }
  }

  lemma ReportingInEveryRun(ticking: map<Id, nat>, start: Table, es: seq<Step>)
    requires Runs(ticking, Init(start), es) && ticking.Keys <= start.Keys
    ensures Reporting(start, After(ticking, Init(start), es))
  {
    FromReporting(ticking, start, Init(start), es);
  }

  ghost predicate Settled(s: State) { s.phase == Idle && s.last == s.shared.health }

  /** From a settled state nothing more is posted until a check changes some health. */
  lemma {:induction false} SettledPostsNothing(ticking: map<Id, nat>, start: Table, s: State, es: seq<Step>)
    requires ticking.Keys <= start.Keys && Reporting(start, s) && Settled(s)
    requires Runs(ticking, s, es) && Quiet(ticking, s, es)
    ensures var f := After(ticking, s, es); Settled(f) && f.posts == s.posts
    decreases |es|
  {
    if es != [] {
      var front := es[..|es| - 1];
      SettledPostsNothing(ticking, start, s, front);
      var b := After(ticking, s, front);
      ChangedIff(b.last, b.shared.health);
    }
  }

  /**
    The server agrees with a settled reporter exactly if the last post was delivered or told it
    nothing new; without a post, if nothing had changed before the starting copy. A failed post is
    not sent again.
  */
  lemma ServerAgreesIff(ticking: map<Id, nat>, start: Table, es: seq<Step>, quiet: seq<Step>)
    requires ticking.Keys <= start.Keys && Runs(ticking, Init(start), es)
    requires var s := After(ticking, Init(start), es);
             Settled(s) && Runs(ticking, s, quiet) && Quiet(ticking, s, quiet)
    ensures var s := After(ticking, Init(start), es);
            var f := After(ticking, s, quiet);
            var n := |s.posts|;
            && (n == 0 ==> (Server(start, f.posts) == f.shared.health <==> s.first == start))
            && (n > 0 ==>
                  (Server(start, f.posts) == f.shared.health <==>
                     s.posts[n - 1].delivered || Server(start, s.posts[..n - 1]) == s.last))
  {
    var s := After(ticking, Init(start), es);
    ReportingInEveryRun(ticking, start, es);
    SettledPostsNothing(ticking, start, s, quiet);
    QuietHealth(ticking, s, quiet);
  }

  ghost predicate Disagrees(ticking: map<Id, nat>, start: Table, es: seq<Step>) {
    && Runs(ticking, Init(start), es)
    && var s := After(ticking, Init(start), es);
       Settled(s) && Server(start, s.posts) != s.shared.health
  }

  lemma AfterOneMore(ticking: map<Id, nat>, s: State, es: seq<Step>, e: Step)
    requires Runs(ticking, s, es) && Can(ticking, After(ticking, s, es), e)
    ensures Runs(ticking, s, es + [e])
    ensures After(ticking, s, es + [e]) == Next(ticking, After(ticking, s, es), e)
  {
    assert (es + [e])[..|es|] == es;
  }

  /** One success whose report fails: the reporter settles while the server still says initializing. */
  lemma LostPostDisagrees()
    ensures Disagrees(map[7 := 2], map[7 := Initializing],
                      [] + [Begin] + [Check(7, true)] + [Compare] + [Copy] + [Finish(false)])
  {
    var ticking: map<Id, nat>, start: Table := map[7 := 2], map[7 := Initializing];
    var s := Init(start);
    var es: seq<Step> := [];
    AfterOneMore(ticking, s, es, Begin);
    es := es + [Begin];
    AfterOneMore(ticking, s, es, Check(7, true));
    es := es + [Check(7, true)];
    var checked := After(ticking, s, es);
    assert 7 in checked.shared.health && checked.last[7] != checked.shared.health[7];
    AfterOneMore(ticking, s, es, Compare);
    es := es + [Compare];
    AfterOneMore(ticking, s, es, Copy);
    es := es + [Copy];
    AfterOneMore(ticking, s, es, Finish(false));
    es := es + [Finish(false)];
    assert After(ticking, s, es).posts == [Post(checked.shared.health, false)];
  }
}
