/**
  Workspace builds and the provisioner jobs behind them: coderd/workspacebuilds.go,
  coderd/workspaces.go and coderd/provisionerjobs.go.

  A request to create or cancel a build reads first and writes later, and anything may happen
  in between: the two halves are separate steps. Times are nanoseconds on one clock.
*/
module BuildLifecycle {
  import opened Wrappers

  const STALE_AFTER := 30_000_000_000
  const MAX_INT32 := 0x7FFF_FFFF

  datatype Job = Job(
    startedAt: Option<int>,
    completedAt: Option<int>,
    canceledAt: Option<int>,
    hasWorker: bool,
    failed: bool,
    updatedAt: int)

  datatype JobStatus = Pending | Running | Succeeded | Canceling | Canceled | Failed

  /** ConvertProvisionerJobStatus at time `now`. */
  function Status(j: Job, now: int): JobStatus {
    if j.canceledAt.Some? then
      if j.completedAt.None? then Canceling
      else if !j.failed then Canceled
      else Failed
    else if j.startedAt.None? then Pending
    else if j.completedAt.Some? then
      if !j.failed then Succeeded else Failed
    else if now - j.updatedAt > STALE_AFTER then Failed
    else Running
  }

  predicate Active(s: JobStatus) { s.Pending? || s.Running? || s.Canceling? }

  predicate JobActive(j: Job, now: int) { Active(Status(j, now)) }

  datatype Build = Build(number: int, job: Job)

  /** A cancel request that has read the job and not yet written it. */
  datatype PendingCancel = PendingCancel(build: nat, hadWorker: bool)

  /** `creates` holds the prior build number each create request read when its check passed. */
  datatype State = State(now: int, builds: seq<Build>, creates: seq<int>, cancels: seq<PendingCancel>)

  function NewJob(now: int): Job { Job(None, None, None, false, false, now) }

  /** postWorkspacesByOrganization inserts the workspace together with build 1. */
  function Init(now: int): State { State(now, [Build(1, NewJob(now))], [], []) }

  /** GetLatestWorkspaceBuildByWorkspaceID: the row with the highest build number. */
  function Latest(builds: seq<Build>): (i: nat)
    requires builds != []
    ensures i < |builds|
    ensures forall j :: 0 <= j < |builds| ==> builds[j].number <= builds[i].number
  {
    if |builds| == 1 then 0
    else
      var front := builds[..|builds| - 1];
      var i := Latest(front);
      assert forall j :: 0 <= j < |builds| - 1 ==> builds[j] == front[j];
      if builds[|builds| - 1].number > builds[i].number then |builds| - 1 else i
  }

  function WrapInt32(x: int): int { (x + 0x8000_0000) % 0x1_0000_0000 - 0x8000_0000 }

  predicate Taken(builds: seq<Build>, number: int) {
    exists i :: 0 <= i < |builds| && builds[i].number == number
  }

  datatype Step =
    | Tick(d: nat)
    | CreateCheck
    | CreateInsert(k: nat)
    | CancelCheck(i: nat)
    | CancelWrite(k: nat)
    | Acquire(i: nat)
    | Heartbeat(i: nat)
    | CompleteJob(i: nat)
    | FailJob(i: nat, message: bool)

  predicate Can(s: State, e: Step) {
    match e
    case Tick(_) => true
    case CreateCheck => s.builds != [] && !JobActive(s.builds[Latest(s.builds)].job, s.now)
    case CreateInsert(k) => k < |s.creates|
    case CancelCheck(i) =>
      i < |s.builds| && s.builds[i].job.completedAt.None? && s.builds[i].job.canceledAt.None?
    case CancelWrite(k) => k < |s.cancels| && s.cancels[k].build < |s.builds|
    case Acquire(i) =>
      i < |s.builds| && s.builds[i].job.startedAt.None? && s.builds[i].job.canceledAt.None?
      && s.builds[i].job.completedAt.None?
    case Heartbeat(i) => i < |s.builds| && s.builds[i].job.hasWorker
    case CompleteJob(i) => i < |s.builds| && s.builds[i].job.hasWorker
    case FailJob(i, _) => i < |s.builds| && s.builds[i].job.hasWorker && s.builds[i].job.completedAt.None?
  }

  function WithJob(s: State, i: nat, j: Job): State
    requires i < |s.builds|
  {
    s.(builds := s.builds[i := s.builds[i].(job := j)])
  }

  function Dropped<T>(q: seq<T>, k: nat): seq<T>
    requires k < |q|
  {
    q[..k] + q[k + 1..]
  }

  /** A request leaves its queue alone: the others stay. */
  lemma DroppedKeepsOthers<T>(q: seq<T>, k: nat)
    requires k < |q|
    ensures multiset(q) == multiset(Dropped(q, k)) + multiset{q[k]}
  {
    assert q == q[..k] + ([q[k]] + q[k + 1..]);
  }

  function Next(s: State, e: Step): State
    requires Can(s, e)
  {
    match e
    case Tick(d) => s.(now := s.now + d)
    case CreateCheck => s.(creates := s.creates + [s.builds[Latest(s.builds)].number])
    case CreateInsert(k) =>
      // The unique key on (workspace_id, build_number) refuses a number already taken.
      var number := WrapInt32(s.creates[k] + 1);
      var s' := s.(creates := Dropped(s.creates, k));
      if Taken(s.builds, number) then s' else s'.(builds := s.builds + [Build(number, NewJob(s.now))])
    case CancelCheck(i) => s.(cancels := s.cancels + [PendingCancel(i, s.builds[i].job.hasWorker)])
    case CancelWrite(k) =>
      var c := s.cancels[k];
      WithJob(s.(cancels := Dropped(s.cancels, k)), c.build,
              s.builds[c.build].job.(canceledAt := Some(s.now),
                                     completedAt := if c.hadWorker then None else Some(s.now)))
    case Acquire(i) =>
      WithJob(s, i, s.builds[i].job.(startedAt := Some(s.now), updatedAt := s.now, hasWorker := true))
    case Heartbeat(i) => WithJob(s, i, s.builds[i].job.(updatedAt := s.now))
    case CompleteJob(i) =>
      WithJob(s, i, s.builds[i].job.(updatedAt := s.now, completedAt := Some(s.now), failed := false))
    case FailJob(i, message) =>
      WithJob(s, i, s.builds[i].job.(updatedAt := s.now, completedAt := Some(s.now), failed := message))
  }

  ghost predicate Runs(s: State, es: seq<Step>)
    decreases |es|
  {
    es == [] || (Can(s, es[0]) && Runs(Next(s, es[0]), es[1..]))
  }

  ghost function Final(s: State, es: seq<Step>): State
    requires Runs(s, es)
    decreases |es|
  {
    if es == [] then s else Final(Next(s, es[0]), es[1..])
  }

  // ---- numbering ----

  ghost predicate Numbered(s: State) {
    && s.builds != []
    && (forall i :: 0 <= i < |s.builds| ==> s.builds[i].number == i + 1)
    && (forall k :: 0 <= k < |s.creates| ==> 1 <= s.creates[k] <= |s.builds|)
  }

  ghost predicate Coherent(j: Job) {
    && (j.startedAt.Some? <==> j.hasWorker)
    && (j.completedAt.Some? ==> j.startedAt.Some? || j.canceledAt.Some?)
  }

  ghost predicate Inv(s: State) {
    && (|s.builds| <= MAX_INT32 ==> Numbered(s))
    && (forall i :: 0 <= i < |s.builds| ==> Coherent(s.builds[i].job))
  }

  lemma LatestIsLast(s: State)
    requires Numbered(s)
    ensures Latest(s.builds) == |s.builds| - 1
  {
    assert s.builds[|s.builds| - 1].number <= s.builds[Latest(s.builds)].number;
  }

  lemma InsertKeepsNumbering(s: State, k: nat)
    requires Numbered(s) && k < |s.creates|
    requires |Next(s, CreateInsert(k)).builds| <= MAX_INT32
    ensures Numbered(Next(s, CreateInsert(k)))
    ensures Taken(s.builds, WrapInt32(s.creates[k] + 1)) <==> s.creates[k] < |s.builds|
  {
    var n := s.creates[k];
    if n < |s.builds| {
      assert s.builds[n].number == n + 1;
    }
  }

  lemma StepKeepsInv(s: State, e: Step)
    requires Inv(s) && Can(s, e)
    ensures Inv(Next(s, e)) && |s.builds| <= |Next(s, e).builds|
  {
    var s' := Next(s, e);
    if e.CreateInsert? {
      if |s'.builds| <= MAX_INT32 {
        InsertKeepsNumbering(s, e.k);
      }
    } else if e.CreateCheck? && |s.builds| <= MAX_INT32 {
      LatestIsLast(s);
    }
  }

  /**
    In every run, whatever workers, clients and the clock do, the build numbers are exactly
    1..N, as long as N fits the 32-bit column.
  */
  lemma {:induction false} BuildNumbersAreConsecutive(s: State, es: seq<Step>)
    requires Inv(s) && Runs(s, es)
    ensures Inv(Final(s, es))
    ensures var end := Final(s, es);
            |end.builds| <= MAX_INT32 ==> forall i :: 0 <= i < |end.builds| ==> end.builds[i].number == i + 1
    decreases |es|
  {
    if es != [] {
      StepKeepsInv(s, es[0]);
      BuildNumbersAreConsecutive(Next(s, es[0]), es[1..]);
    }
  }

  // ---- one active build ----

  ghost predicate OnlyLatestActive(s: State) {
    forall i :: 0 <= i < |s.builds| - 1 ==> !JobActive(s.builds[i].job, s.now)
  }

  /** A superseded build whose job is still open. */
  ghost predicate SupersededOpen(s: State, i: nat) {
    i < |s.builds| - 1 && s.builds[i].job.completedAt.None?
  }

  /**
    The steps that break the rule: a late heartbeat or cancel on a superseded build, and an
    insert whose check has gone out of date.
  */
  ghost predicate Revives(s: State, e: Step)
    requires Can(s, e)
  {
    match e
    case Heartbeat(i) => SupersededOpen(s, i)
    case CancelWrite(k) => s.cancels[k].build < |s.builds| - 1 && s.cancels[k].hadWorker
    case CreateInsert(k) =>
      && !Taken(s.builds, WrapInt32(s.creates[k] + 1))
      && s.builds != []
      && JobActive(s.builds[|s.builds| - 1].job, s.now)
    case _ => false
  }

  lemma JobStepActivity(s: State, e: Step, i: nat)
    requires Inv(s) && Can(s, e) && i < |s.builds| - 1 && !JobActive(s.builds[i].job, s.now)
    requires !e.CreateInsert?
    ensures var s' := Next(s, e);
            JobActive(s'.builds[i].job, s'.now) <==>
              || (e.Heartbeat? && e.i == i && s.builds[i].job.completedAt.None?)
              || (e.CancelWrite? && s.cancels[e.k].build == i && s.cancels[e.k].hadWorker)
  {
    assert Coherent(s.builds[i].job);
  }

  /** One step keeps the rule exactly when it is not one of those. */
  lemma StepKeepsOnlyLatestActiveIff(s: State, e: Step)
    requires Inv(s) && Numbered(s) && OnlyLatestActive(s) && Can(s, e)
    ensures OnlyLatestActive(Next(s, e)) <==> !Revives(s, e)
  {
    var s' := Next(s, e);
    if e.CreateInsert? {
      var last := |s.builds| - 1;
      assert s'.builds[last] == s.builds[last];
      forall i | 0 <= i < last ensures s'.builds[i] == s.builds[i] {}
    } else {
      assert |s'.builds| == |s.builds|;
      forall i | 0 <= i < |s.builds| - 1
        ensures JobActive(s'.builds[i].job, s'.now) <==>
                  || (e.Heartbeat? && e.i == i && s.builds[i].job.completedAt.None?)
                  || (e.CancelWrite? && s.cancels[e.k].build == i && s.cancels[e.k].hadWorker)
      {
        JobStepActivity(s, e, i);
      }
    }
  }

  ghost predicate AlwaysOnlyLatest(s: State, es: seq<Step>)
    requires Runs(s, es)
    decreases |es|
  {
    OnlyLatestActive(s) && (es == [] || AlwaysOnlyLatest(Next(s, es[0]), es[1..]))
  }

  ghost predicate NeverRevives(s: State, es: seq<Step>)
    requires Runs(s, es)
    decreases |es|
  {
    es == [] || (!Revives(s, es[0]) && NeverRevives(Next(s, es[0]), es[1..]))
  }

  lemma {:induction false} BuildsOnlyGrow(s: State, es: seq<Step>)
    requires Inv(s) && Runs(s, es)
    ensures |s.builds| <= |Final(s, es).builds|
    decreases |es|
  {
    if es != [] {
      StepKeepsInv(s, es[0]);
      BuildsOnlyGrow(Next(s, es[0]), es[1..]);
    }
  }

  /** Throughout a run only the latest build may be active, if and only if no step revives one. */
  lemma {:induction false} OneActiveBuildIff(s: State, es: seq<Step>)
    requires Inv(s) && OnlyLatestActive(s) && Runs(s, es) && |Final(s, es).builds| <= MAX_INT32
    ensures AlwaysOnlyLatest(s, es) <==> NeverRevives(s, es)
    decreases |es|
  {
    if es != [] {
      BuildsOnlyGrow(s, es);
      StepKeepsInv(s, es[0]);
      StepKeepsOnlyLatestActiveIff(s, es[0]);
      if OnlyLatestActive(Next(s, es[0])) {
        OneActiveBuildIff(Next(s, es[0]), es[1..]);
      }
    }
  }

  lemma AtMostOneActive(s: State, i: nat, j: nat)
    requires OnlyLatestActive(s) && i < |s.builds| && j < |s.builds|
    requires JobActive(s.builds[i].job, s.now) && JobActive(s.builds[j].job, s.now)
    ensures i == j
  {
  }

  lemma {:induction false} AlwaysMeansAtTheEnd(s: State, es: seq<Step>)
    requires Runs(s, es) && AlwaysOnlyLatest(s, es)
    ensures OnlyLatestActive(Final(s, es))
    decreases |es|
  {
    if es != [] {
      AlwaysMeansAtTheEnd(Next(s, es[0]), es[1..]);
    }
  }

  /** From the first build on: consecutive numbers, and no two active builds while no step revives one. */
  lemma OneActiveBuildFromStart(now: int, es: seq<Step>, i: nat, j: nat)
    requires Runs(Init(now), es) && NeverRevives(Init(now), es)
    requires |Final(Init(now), es).builds| <= MAX_INT32
    requires i < |Final(Init(now), es).builds| && j < |Final(Init(now), es).builds|
    ensures var end := Final(Init(now), es);
            && end.builds[i].number == i + 1
            && (JobActive(end.builds[i].job, end.now) && JobActive(end.builds[j].job, end.now) ==> i == j)
  {
    BuildNumbersAreConsecutive(Init(now), es);
    OneActiveBuildIff(Init(now), es);
    AlwaysMeansAtTheEnd(Init(now), es);
  }

  // ---- completed jobs ----

  ghost predicate Completed(s: State, i: nat) {
    i < |s.builds| && s.builds[i].job.completedAt.Some?
  }

  /** A cancel that read the job while a worker held it, and writes after the job completed. */
  ghost predicate StaleCancel(s: State, e: Step, i: nat)
    requires Can(s, e)
  {
    e.CancelWrite? && s.cancels[e.k].build == i && s.cancels[e.k].hadWorker
  }

  /** A completed job is inactive, and one step re-opens it exactly when it is a stale cancel. */
  lemma CompletedStaysIff(s: State, e: Step, i: nat)
    requires Inv(s) && Can(s, e) && Completed(s, i)
    ensures !JobActive(s.builds[i].job, s.now)
    ensures Completed(Next(s, e), i) <==> !StaleCancel(s, e, i)
    ensures JobActive(Next(s, e).builds[i].job, Next(s, e).now) <==> StaleCancel(s, e, i)
  {
    assert Coherent(s.builds[i].job);
  }

  ghost predicate NoStaleCancel(s: State, es: seq<Step>, i: nat)
    requires Runs(s, es)
    decreases |es|
  {
    es == [] || (!StaleCancel(s, es[0], i) && NoStaleCancel(Next(s, es[0]), es[1..], i))
  }

  ghost predicate NeverActive(s: State, es: seq<Step>, i: nat)
    requires Runs(s, es)
    decreases |es|
  {
    && (i < |s.builds| ==> !JobActive(s.builds[i].job, s.now))
    && (es != [] ==> NeverActive(Next(s, es[0]), es[1..], i))
  }

  /** Throughout a run a completed job is never active again, if and only if no stale cancel writes. */
  lemma {:induction false} CompletedNeverActiveAgainIff(s: State, es: seq<Step>, i: nat)
    requires Inv(s) && Runs(s, es) && Completed(s, i)
    ensures NeverActive(s, es, i) <==> NoStaleCancel(s, es, i)
    decreases |es|
  {
    if es == [] {
      assert Coherent(s.builds[i].job);
    } else {
      StepKeepsInv(s, es[0]);
      CompletedStaysIff(s, es[0], i);
      if !StaleCancel(s, es[0], i) {
        CompletedNeverActiveAgainIff(Next(s, es[0]), es[1..], i);
      }
    }
  }

  // ---- the rule does break ----

  /** Build 1 is picked up, falls silent, and build 2 is created after the timeout. */
  const SILENCED: seq<Step> := CHECKED + [CreateInsert(0)]

  lemma {:induction false} RunsThen(s: State, es: seq<Step>, e: Step)
    requires Runs(s, es) && Can(Final(s, es), e)
    ensures Runs(s, es + [e]) && Final(s, es + [e]) == Next(Final(s, es), e)
    decreases |es|
  {
    if es == [] {
      assert es + [e] == [e] && [e][1..] == [];
    } else {
      RunsThen(Next(s, es[0]), es[1..], e);
      assert (es + [e])[1..] == es[1..] + [e];
    }
  }

  function TwoBuilds(now: int): State {
    var later := now + STALE_AFTER + 1;
    State(later, [Build(1, Job(Some(now), None, None, true, false, now)), Build(2, NewJob(later))], [], [])
  }

  const CHECKED: seq<Step> := [] + [Acquire(0)] + [Tick(STALE_AFTER + 1)] + [CreateCheck]

  lemma SilencedCheck(now: int)
    ensures Runs(Init(now), CHECKED)
    ensures Final(Init(now), CHECKED) ==
            State(now + STALE_AFTER + 1, [Build(1, Job(Some(now), None, None, true, false, now))], [1], [])
  {
    var s := Init(now);
    var es: seq<Step> := [];
    RunsThen(s, es, Acquire(0));
    es := es + [Acquire(0)];
    RunsThen(s, es, Tick(STALE_AFTER + 1));
    es := es + [Tick(STALE_AFTER + 1)];
    RunsThen(s, es, CreateCheck);
  }

  lemma SilencedRun(now: int)
    ensures Runs(Init(now), SILENCED) && Final(Init(now), SILENCED) == TwoBuilds(now)
  {
    SilencedCheck(now);
    RunsThen(Init(now), CHECKED, CreateInsert(0));
  }

  /** From there a late heartbeat, or a cancel of the silent build, leaves two builds active. */
  lemma RuleBreaksAfterSilence(now: int)
    ensures Runs(Init(now), SILENCED)
    ensures var s := Final(Init(now), SILENCED);
            && OnlyLatestActive(s)
            && Can(s, Heartbeat(0))
            && !OnlyLatestActive(Next(s, Heartbeat(0)))
            && Can(s, CancelCheck(0)) && Can(Next(s, CancelCheck(0)), CancelWrite(0))
            && !OnlyLatestActive(Next(Next(s, CancelCheck(0)), CancelWrite(0)))
            && JobActive(s.builds[1].job, s.now)
  {
    SilencedRun(now);
    var s := TwoBuilds(now);
    assert JobActive(Next(s, Heartbeat(0)).builds[0].job, s.now);
    assert JobActive(Next(Next(s, CancelCheck(0)), CancelWrite(0)).builds[0].job, s.now);
  }

  ghost predicate ReopensAt(s: State, es: seq<Step>, e: Step, i: nat) {
    && Runs(s, es) && Can(Final(s, es), e) && Completed(Final(s, es), i)
    && var end := Next(Final(s, es), e);
       i < |end.builds| && JobActive(end.builds[i].job, end.now)
  }

  /** A cancel reads the job while a worker holds it, the job completes, and the cancel re-opens it. */
  lemma StaleCancelReopens(now: int)
    ensures ReopensAt(Init(now), [] + [Acquire(0)] + [CancelCheck(0)] + [CompleteJob(0)], CancelWrite(0), 0)
  {
    var s := Init(now);
    var es: seq<Step> := [];
    RunsThen(s, es, Acquire(0));
    es := es + [Acquire(0)];
    RunsThen(s, es, CancelCheck(0));
    es := es + [CancelCheck(0)];
    RunsThen(s, es, CompleteJob(0));
  }

  ghost predicate EndsWithTwoActive(s: State, es: seq<Step>) {
    && Runs(s, es)
    && var end := Final(s, es);
       |end.builds| == 2 && JobActive(end.builds[0].job, end.now) && JobActive(end.builds[1].job, end.now)
  }

  /** A create passes its check on a silent build, the worker writes again, and the insert goes through. */
  lemma OutdatedInsertBreaksRule(now: int)
    ensures EndsWithTwoActive(Init(now), [] + [Acquire(0)] + [Tick(STALE_AFTER + 1)] + [CreateCheck] + [Heartbeat(0)]
                                         + [CreateInsert(0)])
  {
    var s := Init(now);
    var es: seq<Step> := [];
    RunsThen(s, es, Acquire(0));
    es := es + [Acquire(0)];
    RunsThen(s, es, Tick(STALE_AFTER + 1));
    es := es + [Tick(STALE_AFTER + 1)];
    RunsThen(s, es, CreateCheck);
    es := es + [CreateCheck];
    assert Final(s, es).creates == [1];
    RunsThen(s, es, Heartbeat(0));
    es := es + [Heartbeat(0)];
    RunsThen(s, es, CreateInsert(0));
  }

  // ---- what a job reads as ----

  /** What has happened to one job: by whom it was ended last, and when its worker last wrote. */
  datatype Trace = Trace(acquired: bool, cancelled: bool, ended: bool, message: bool, touched: int)

  function Untouched(now: int): Trace { Trace(false, false, false, false, now) }

  function TraceStep(s: State, t: Trace, e: Step, i: nat): Trace
    requires Can(s, e)
  {
    match e
    case Acquire(j) => if j == i then t.(acquired := true, touched := s.now) else t
    case Heartbeat(j) => if j == i then t.(touched := s.now) else t
    case CompleteJob(j) => if j == i then t.(ended := true, message := false, touched := s.now) else t
    case FailJob(j, message) => if j == i then t.(ended := true, message := message, touched := s.now) else t
    case CancelWrite(k) =>
      if s.cancels[k].build == i then t.(cancelled := true, ended := !s.cancels[k].hadWorker) else t
    case _ => t
  }

  ghost function TraceOf(s: State, t: Trace, es: seq<Step>, i: nat): Trace
    requires Runs(s, es)
    decreases |es|
  {
    if es == [] then t else TraceOf(Next(s, es[0]), TraceStep(s, t, es[0], i), es[1..], i)
  }

  ghost predicate Reflects(j: Job, t: Trace) {
    && (j.startedAt.Some? <==> t.acquired)
    && (j.canceledAt.Some? <==> t.cancelled)
    && (j.completedAt.Some? <==> t.ended)
    && j.failed == t.message && j.updatedAt == t.touched
  }

  lemma StepReflects(s: State, e: Step, i: nat, t: Trace)
    requires Can(s, e) && i < |s.builds| && Reflects(s.builds[i].job, t)
    ensures i < |Next(s, e).builds| && Reflects(Next(s, e).builds[i].job, TraceStep(s, t, e, i))
  {
  }

  lemma {:induction false} RunReflects(s: State, es: seq<Step>, i: nat, t: Trace)
    requires Runs(s, es) && i < |s.builds| && Reflects(s.builds[i].job, t)
    ensures i < |Final(s, es).builds| && Reflects(Final(s, es).builds[i].job, TraceOf(s, t, es, i))
    decreases |es|
  {
    if es != [] {
      StepReflects(s, es[0], i, t);
      RunReflects(Next(s, es[0]), es[1..], i, TraceStep(s, t, es[0], i));
    }
  }

  /** How a job reads, case by case of what happened to it. */
  ghost predicate ReadsAs(t: Trace, now: int, status: JobStatus) {
    && (status.Pending? <==> !t.cancelled && !t.acquired)
    && (status.Canceling? <==> t.cancelled && !t.ended)
    && (status.Canceled? <==> t.cancelled && t.ended && !t.message)
    && (status.Succeeded? <==> !t.cancelled && t.acquired && t.ended && !t.message)
    && (status.Running? <==> !t.cancelled && t.acquired && !t.ended && now <= t.touched + STALE_AFTER)
  }

  /**
    In every run, at any time: the status of a build is decided by whether it was acquired and
    cancelled, by how it was ended last, and while it runs by its worker's last write.
  */
  lemma StatusFollowsSteps(s: State, es: seq<Step>, i: nat, t: Trace)
    requires Runs(s, es) && i < |s.builds| && Reflects(s.builds[i].job, t)
    ensures i < |Final(s, es).builds|
    ensures var end := Final(s, es);
            ReadsAs(TraceOf(s, t, es, i), end.now, Status(end.builds[i].job, end.now))
  {
    RunReflects(s, es, i, t);
  }

  /** The first build of a workspace, and every build inserted later, begins untouched. */
  lemma BuildsBeginUntouched(s: State, k: nat, now: int)
    requires k < |s.creates|
    ensures Reflects(Init(now).builds[0].job, Untouched(now))
    ensures var s' := Next(s, CreateInsert(k));
            |s'.builds| > |s.builds| ==> Reflects(s'.builds[|s.builds|].job, Untouched(s.now))
  {
  }

  /** No later step ends or cancels build i. */
  ghost predicate LeavesEnd(s: State, es: seq<Step>, i: nat)
    requires Runs(s, es)
    decreases |es|
  {
    es != [] ==>
      && es[0] != CompleteJob(i) && (es[0].FailJob? ==> es[0].i != i)
      && (es[0].CancelWrite? ==> s.cancels[es[0].k].build != i)
      && LeavesEnd(Next(s, es[0]), es[1..], i)
  }

  lemma {:induction false} EndStays(s: State, es: seq<Step>, i: nat)
    requires Runs(s, es) && i < |s.builds| && s.builds[i].job.completedAt.Some? && LeavesEnd(s, es, i)
    ensures i < |Final(s, es).builds|
    ensures var j, j' := s.builds[i].job, Final(s, es).builds[i].job;
            && j'.completedAt.Some? && j'.failed == j.failed && j'.canceledAt == j.canceledAt
            && j'.startedAt == j.startedAt
    decreases |es|
  {
    if es != [] {
      EndStays(Next(s, es[0]), es[1..], i);
    }
  }

  /**
    A job ended by its worker reads from then on as succeeded, or failed if an error message came
    with it; one that had been cancelled reads as canceled, or failed with a message.
  */
  lemma EndDecidesStatus(s: State, e: Step, es: seq<Step>, i: nat)
    requires Inv(s) && i < |s.builds| && Can(s, e) && (e == CompleteJob(i) || (e.FailJob? && e.i == i))
    requires Runs(Next(s, e), es) && LeavesEnd(Next(s, e), es, i)
    ensures i < |Final(Next(s, e), es).builds|
    ensures var end := Final(Next(s, e), es);
            Status(end.builds[i].job, end.now) ==
            if e.FailJob? && e.message then Failed
            else if s.builds[i].job.canceledAt.Some? then Canceled else Succeeded
  {
    assert Coherent(s.builds[i].job);
    EndStays(Next(s, e), es, i);
  }

  // ---- which requests a status admits ----

  /** A worker takes exactly pending jobs, and updates only others; a cancel is admitted once, until the job ends. */
  lemma StatusAdmits(s: State, i: nat)
    requires Inv(s) && i < |s.builds|
    ensures var status := Status(s.builds[i].job, s.now);
            && (Can(s, Acquire(i)) <==> status.Pending?)
            && (status.Pending? ==> !Can(s, Heartbeat(i)) && !Can(s, CompleteJob(i)) && !Can(s, FailJob(i, true)))
            && (status.Running? ==> Can(s, Heartbeat(i)) && Can(s, CompleteJob(i)) && Can(s, FailJob(i, true)))
            && (status.Pending? || status.Running? ==> Can(s, CancelCheck(i)))
            && (status.Succeeded? || status.Canceling? || status.Canceled? ==> !Can(s, CancelCheck(i)))
            && (status.Failed? ==> (Can(s, CancelCheck(i)) <==> s.builds[i].job.completedAt.None?))
  {
    assert Coherent(s.builds[i].job);
  }

  /** A create request that inserts right after its check keeps the rule of one active build. */
  lemma CheckedInsertKeepsRule(s: State)
    requires Numbered(s) && |s.builds| < MAX_INT32 && OnlyLatestActive(s) && Can(s, CreateCheck)
    ensures var checked := Next(s, CreateCheck);
            var s' := Next(checked, CreateInsert(|s.creates|));
            OnlyLatestActive(s') && |s'.builds| == |s.builds| + 1
  {
    LatestIsLast(s);
    var checked := Next(s, CreateCheck);
    InsertKeepsNumbering(checked, |s.creates|);
    var s' := Next(checked, CreateInsert(|s.creates|));
    assert forall i :: 0 <= i < |s.builds| ==> s'.builds[i] == s.builds[i];
  }

  /** A completion is not refused after the job failed, and turns it into a success. */
  lemma LateCompletionOverturns(s: State, i: nat)
    requires Can(s, FailJob(i, true)) && s.builds[i].job.canceledAt.None? && s.builds[i].job.startedAt.Some?
    ensures var failed := Next(s, FailJob(i, true));
            && Status(failed.builds[i].job, failed.now) == Failed && !Can(failed, FailJob(i, true))
            && Can(failed, CompleteJob(i))
            && Status(Next(failed, CompleteJob(i)).builds[i].job, failed.now) == Succeeded
  {
  }

  // ---- past the 32-bit column ----

  /**
    The build after number 2^31 - 1 wraps to the lowest number. It is never the latest, and no
    request that reads the latest number from then on can insert another.
  */
  lemma NumbersRunOut(s: State, k: nat)
    requires Numbered(s) && |s.builds| == MAX_INT32 && k < |s.creates| && s.creates[k] == MAX_INT32
    ensures var s' := Next(s, CreateInsert(k));
            && |s'.builds| == |s.builds| + 1 && s'.builds[|s.builds|].number == -0x8000_0000
            && Latest(s'.builds) == |s.builds| - 1
            && Taken(s'.builds, WrapInt32(s'.builds[Latest(s'.builds)].number + 1))
  {
    var s' := Next(s, CreateInsert(k));
    assert WrapInt32(MAX_INT32 + 1) == -0x8000_0000;
    assert !Taken(s.builds, -0x8000_0000);
    assert s'.builds[|s.builds| - 1] == s.builds[|s.builds| - 1];
    assert s'.builds[|s.builds|].number == -0x8000_0000;
    assert s'.builds[|s.builds| - 1].number <= s'.builds[Latest(s'.builds)].number;
  }
}
