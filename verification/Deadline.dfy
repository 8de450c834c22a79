/**
  The auto-stop deadline of a started workspace: activity bumps (coderd/activitybump.go),
  manual extensions and the time-to-live validator (coderd/workspaces.go).
  Times are nanoseconds since the zero time.
*/
module Deadline {
  import opened Counting
  import opened Durations
  import opened MachineInts
  import opened Wrappers

  const BUMP_AMOUNT: nat := HOUR
  const TEN_MINUTES: nat := 600_000_000_000
  const BUMP_THRESHOLD: nat := HOUR - TEN_MINUTES
  const SOON: nat := 29 * MINUTE
  const MICROSECOND: nat := 1000

  /** The row of the latest build and its job; no deadline means manual shutdown. */
  datatype Build = Build(start: bool, completedAt: Option<nat>, deadline: Option<nat>)

  /** database.Now rounds to whole microseconds, half up. */
  function Rounded(t: nat): (r: nat)
    ensures r % MICROSECOND == 0
    ensures t < r + 500 && r <= t + 500
  {
    var rest := t % MICROSECOND;
    if rest + rest < MICROSECOND then t - rest else t - rest + MICROSECOND
  }

  lemma RoundedMonotone(a: nat, b: nat)
    requires a <= b
    ensures Rounded(a) <= Rounded(b)
  {
    assert a / MICROSECOND <= b / MICROSECOND;
    assert a == a / MICROSECOND * MICROSECOND + a % MICROSECOND;
    assert b == b / MICROSECOND * MICROSECOND + b % MICROSECOND;
  }

  lemma RoundedWhole(t: nat)
    requires t % MICROSECOND == 0
    ensures Rounded(t) == t
  {
  }

  // ---- one transaction ----

  predicate Bumpable(b: Build) { b.start && b.completedAt.Some? && b.deadline.Some? }

  /** The guard of the bump, with the clock read at `now`. */
  predicate NeedsBump(b: Build, now: nat) {
    Bumpable(b) && b.deadline.value < now + BUMP_THRESHOLD
  }

  datatype Extension = NotStarted | StillBuilding | Manual | TooSoon | BeforeStart | Updated

  function Extend(b: Build, deadline: nat, now: nat): Extension {
    if !b.start then NotStarted
    else if b.completedAt.None? then StillBuilding
    else if b.deadline.None? then Manual
    else if deadline < now + SOON then TooSoon
    else if deadline < b.completedAt.value then BeforeStart
    else Updated
  }

  class Row {
    var build: Build

    constructor (b: Build)
      ensures build == b
    {
      build := b;
    }

    /** The clock is read for the check and again, not earlier, for the new deadline. */
    method ActivityBump(checkedAt: nat, stampedAt: nat)
      requires checkedAt <= stampedAt
      modifies this
      ensures build == old(build).(deadline := build.deadline)
      ensures !NeedsBump(old(build), checkedAt) ==> build == old(build)
      ensures NeedsBump(old(build), checkedAt) ==>
                && build.deadline == Some(Rounded(stampedAt) + BUMP_AMOUNT)
                && build.deadline.value > old(build).deadline.value
      ensures Bumpable(build) ==> build.deadline.value >= checkedAt + BUMP_THRESHOLD
    {
      if !build.start || build.completedAt.None? { return; }
      if build.deadline.None? { return; }
      if build.deadline.value >= checkedAt + BUMP_THRESHOLD { return; }
      var newDeadline := Rounded(stampedAt) + BUMP_AMOUNT;
      build := build.(deadline := Some(newDeadline));
    }

    method ExtendDeadline(deadline: nat, now: nat) returns (outcome: Extension)
      modifies this
      ensures outcome == Extend(old(build), deadline, now)
      ensures build == if outcome == Updated then old(build).(deadline := Some(deadline)) else old(build)
      ensures outcome == Updated <==>
                Bumpable(old(build)) && deadline >= now + 29 * MINUTE && deadline >= old(build).completedAt.value
      ensures outcome == NotStarted <==> !old(build).start
      ensures outcome == StillBuilding <==> old(build).start && old(build).completedAt.None?
      ensures outcome == Manual <==> old(build).start && old(build).completedAt.Some? && old(build).deadline.None?
      ensures outcome == TooSoon <==> Bumpable(old(build)) && deadline < now + 29 * MINUTE
    {
      if !build.start { return NotStarted; }
      if build.completedAt.None? { return StillBuilding; }
      if build.deadline.None? { return Manual; }
      if deadline < now + SOON { return TooSoon; }
      if deadline < build.completedAt.value { return BeforeStart; }
      build := build.(deadline := Some(deadline));
      return Updated;
    }
  }

  // ---- runs: the steps of overlapping transactions on one row ----

  /** A bump's statements run under a context of 15 seconds. */
  const BUMP_TIMEOUT: nat := 15_000_000_000

  datatype Writer = Nobody | ByBump(stampedAt: nat) | ByExtension(deadline: nat)

  /**
    An open bump: it has fetched the row, then passed its check, then stamped its new deadline.
    `since` is history: who wrote the row last since the fetch.
  */
  datatype Tx =
    | Fetched(seen: nat, fetchedAt: nat, since: Writer)
    | Checked(seen: nat, fetchedAt: nat, since: Writer, checkedAt: nat)
    | Stamped(seen: nat, fetchedAt: nat, since: Writer, checkedAt: nat, stampedAt: nat)

  function NewDeadline(tx: Tx): nat
    requires tx.Stamped?
  {
    Rounded(tx.stampedAt) + BUMP_AMOUNT
  }

  datatype Bump = Bump(stampedAt: nat, deadline: nat)

  /** `extensions` holds the deadlines of requests that passed their checks and have not written. */
  datatype State = State(now: nat, build: Build, txs: map<nat, Tx>, extensions: map<nat, nat>, bumps: seq<Bump>)

  datatype Step =
    | Tick(d: nat)
    | Fetch(c: nat)
    | Check(c: nat)
    | Stamp(c: nat)
    | Write(c: nat)
    | ExtendCheck(c: nat, deadline: nat)
    | ExtendWrite(c: nat)

  predicate Can(s: State, e: Step) {
    match e
    case Tick(_) => true
    case Fetch(c) => c !in s.txs
    case Check(c) => c in s.txs && s.txs[c].Fetched?
    case Stamp(c) => c in s.txs && s.txs[c].Checked?
    case Write(c) => c in s.txs && s.txs[c].Stamped? && s.now <= s.txs[c].fetchedAt + BUMP_TIMEOUT
    case ExtendCheck(c, _) => c !in s.extensions
    case ExtendWrite(c) => c in s.extensions
  }

  function Written(txs: map<nat, Tx>, w: Writer): map<nat, Tx> {
    map c | c in txs ::
      match txs[c]
      case Fetched(seen, fetchedAt, _) => Fetched(seen, fetchedAt, w)
      case Checked(seen, fetchedAt, _, checkedAt) => Checked(seen, fetchedAt, w, checkedAt)
      case Stamped(seen, fetchedAt, _, checkedAt, stampedAt) => Stamped(seen, fetchedAt, w, checkedAt, stampedAt)
  }

  function Next(s: State, e: Step): State
    requires Can(s, e)
  {
    match e
    case Tick(d) => s.(now := s.now + d)
    case Fetch(c) =>
      if Bumpable(s.build)
      then s.(txs := s.txs[c := Fetched(s.build.deadline.value, s.now, Nobody)])
      else s
    case Check(c) =>
      var tx := s.txs[c];
      if tx.seen < s.now + BUMP_THRESHOLD
      then s.(txs := s.txs[c := Checked(tx.seen, tx.fetchedAt, tx.since, s.now)])
      else s.(txs := s.txs - {c})
    case Stamp(c) =>
      var tx := s.txs[c];
      s.(txs := s.txs[c := Stamped(tx.seen, tx.fetchedAt, tx.since, tx.checkedAt, s.now)])
    case Write(c) =>
      var tx := s.txs[c];
      s.(build := s.build.(deadline := Some(NewDeadline(tx))),
         txs := Written(s.txs - {c}, ByBump(tx.stampedAt)),
         bumps := s.bumps + [Bump(tx.stampedAt, NewDeadline(tx))])
    case ExtendCheck(c, deadline) =>
      if Extend(s.build, deadline, s.now) == Updated then s.(extensions := s.extensions[c := deadline]) else s
    case ExtendWrite(c) =>
      var deadline := s.extensions[c];
      s.(build := s.build.(deadline := Some(deadline)),
         txs := Written(s.txs, ByExtension(deadline)),
         extensions := s.extensions - {c})
  }

  function Init(now: nat, build: Build): State { State(now, build, map[], map[], []) }

  ghost predicate Runs(s: State, es: seq<Step>)
    decreases |es|
  {
    es == [] || (Can(s, es[0]) && Runs(Next(s, es[0]), es[1..]))
  }

  ghost function Final(s: State, es: seq<Step>): State
    requires Runs(s, es)
    decreases |es|
  {
    if es == [] then s else Final(Next(s, es[0]), es[1..])
  }

  predicate NoExtension(es: seq<Step>) { forall i :: 0 <= i < |es| ==> !es[i].ExtendWrite? }

  function DeadlineOf(b: Build): nat { if b.deadline.Some? then b.deadline.value else 0 }

  // ---- any interleaving ----

  /** What the row holds for a bump is what it saw, or what the last writer since left. */
  ghost predicate TxOk(s: State, tx: Tx) {
    && tx.fetchedAt <= s.now
    && (!tx.Fetched? ==> tx.fetchedAt <= tx.checkedAt <= s.now && tx.seen < tx.checkedAt + BUMP_THRESHOLD)
    && (tx.Stamped? ==> tx.checkedAt <= tx.stampedAt <= s.now)
    && match tx.since
       case Nobody => s.build.deadline == Some(tx.seen)
       case ByExtension(deadline) => s.build.deadline == Some(deadline)
       case ByBump(t) =>
         && s.build.deadline == Some(Rounded(t) + BUMP_AMOUNT)
         && tx.fetchedAt <= t + BUMP_TIMEOUT
         && s.bumps != [] && s.bumps[|s.bumps| - 1].stampedAt == t
  }

  ghost predicate Inv(s: State) {
    && (forall c :: c in s.txs ==> TxOk(s, s.txs[c]))
    && (s.txs.Keys != {} || s.extensions.Keys != {} ==> Bumpable(s.build))
  }

  lemma WriteKeepsInv(s: State, c: nat)
    requires Inv(s) && Can(s, Write(c))
    ensures Inv(Next(s, Write(c)))
  {
    var s' := Next(s, Write(c));
    assert c in s.txs.Keys && TxOk(s, s.txs[c]);
    forall d | d in s'.txs ensures TxOk(s', s'.txs[d]) {
      assert TxOk(s, s.txs[d]);
    }
  }

  lemma ExtendWriteKeepsInv(s: State, c: nat)
    requires Inv(s) && Can(s, ExtendWrite(c))
    ensures Inv(Next(s, ExtendWrite(c)))
  {
    var s' := Next(s, ExtendWrite(c));
    assert c in s.extensions.Keys;
    forall d | d in s'.txs ensures TxOk(s', s'.txs[d]) {
      assert TxOk(s, s.txs[d]);
    }
  }

  lemma OtherKeepsInv(s: State, e: Step)
    requires Inv(s) && Can(s, e) && !e.Write? && !e.ExtendWrite?
    ensures Inv(Next(s, e)) && Next(s, e).build == s.build
  {
    var s' := Next(s, e);
    forall c | c in s'.txs ensures TxOk(s', s'.txs[c]) {
      assert c in s.txs ==> c in s.txs.Keys && TxOk(s, s.txs[c]);
    }
  }

  lemma StepKeepsInv(s: State, e: Step)
    requires Inv(s) && Can(s, e)
    ensures Inv(Next(s, e))
    ensures Next(s, e).build == s.build.(deadline := Next(s, e).build.deadline)
    ensures Next(s, e).build.deadline.Some? <==> s.build.deadline.Some?
  {
    if e.Write? {
      WriteKeepsInv(s, e.c);
      assert e.c in s.txs.Keys;
    } else if e.ExtendWrite? {
      ExtendWriteKeepsInv(s, e.c);
      assert e.c in s.extensions.Keys;
    } else {
      OtherKeepsInv(s, e);
    }
  }

  /** In every run a manual build stays manual, and only the deadline of the row changes. */
  lemma {:induction false} ManualStaysManual(s: State, es: seq<Step>)
    requires Inv(s) && Runs(s, es)
    ensures Final(s, es).build == s.build.(deadline := Final(s, es).build.deadline)
    ensures Final(s, es).build.deadline.Some? <==> s.build.deadline.Some?
    ensures Inv(Final(s, es))
    decreases |es|
  {
    if es != [] {
      StepKeepsInv(s, es[0]);
      ManualStaysManual(Next(s, es[0]), es[1..]);
    }
  }

  // ---- the time a bump leaves ----

  /** The steps that end a bump: a check that saw enough time left, and the write. */
  ghost predicate EndsBump(s: State, e: Step)
    requires Can(s, e)
  {
    e.Write? || EndsAtCheck(s, e)
  }

  ghost predicate EndsAtCheck(s: State, e: Step)
    requires Can(s, e)
  {
    e.Check? && s.txs[e.c].seen >= s.now + BUMP_THRESHOLD
  }

  /** The last to write since the fetch left less than 50 minutes from `now`. */
  ghost predicate Undercut(tx: Tx, now: nat) {
    match tx.since
    case Nobody => false
    case ByExtension(deadline) => deadline < now + BUMP_THRESHOLD
    case ByBump(t) => Rounded(t) + TEN_MINUTES < now
  }

  ghost predicate LeavesLife(s: State, e: Step)
    requires Can(s, e)
  {
    DeadlineOf(Next(s, e).build) >= s.now + BUMP_THRESHOLD
  }

  /**
    A bump that writes leaves 50 minutes. One that ends at its check, on the row it fetched,
    leaves them if and only if nobody undercut that row since; within the bump's own 15 seconds
    only an extension can.
  */
  lemma BumpLeavesLifeIff(s: State, e: Step)
    requires Inv(s) && Can(s, e) && EndsBump(s, e)
    ensures e.c !in Next(s, e).txs
    ensures LeavesLife(s, e) <==> !(e.Check? && Undercut(s.txs[e.c], s.now))
    ensures e.Check? && s.now <= s.txs[e.c].fetchedAt + BUMP_TIMEOUT ==>
              (Undercut(s.txs[e.c], s.now) <==>
                 s.txs[e.c].since.ByExtension? && s.txs[e.c].since.deadline < s.now + BUMP_THRESHOLD)
  {
    assert TxOk(s, s.txs[e.c]);
  }

  ghost predicate AlwaysLeavesLife(s: State, es: seq<Step>)
    requires Runs(s, es)
    decreases |es|
  {
    es != [] ==>
      && (EndsBump(s, es[0]) ==> LeavesLife(s, es[0]))
      && AlwaysLeavesLife(Next(s, es[0]), es[1..])
  }

  ghost predicate NeverUndercut(s: State, es: seq<Step>)
    requires Runs(s, es)
    decreases |es|
  {
    es != [] ==>
      && (EndsAtCheck(s, es[0]) ==> !Undercut(s.txs[es[0].c], s.now))
      && NeverUndercut(Next(s, es[0]), es[1..])
  }

  /** Throughout any run every bump that ends leaves 50 minutes, if and only if none ends its check undercut. */
  lemma {:induction false} FiftyMinutesLeftIff(s: State, es: seq<Step>)
    requires Inv(s) && Runs(s, es)
    ensures AlwaysLeavesLife(s, es) <==> NeverUndercut(s, es)
    decreases |es|
  {
    if es != [] {
      var e := es[0];
      StepKeepsInv(s, e);
      if EndsBump(s, e) {
        BumpLeavesLifeIff(s, e);
      }
      FiftyMinutesLeftIff(Next(s, e), es[1..]);
    }
  }

  // ---- when a bump moves the deadline earlier ----

  /** Since its fetch, a bump stamped later or an extension past its new deadline was the last to write. */
  ghost predicate Outrun(tx: Tx)
    requires tx.Stamped?
  {
    match tx.since
    case Nobody => false
    case ByBump(t) => Rounded(t) > Rounded(tx.stampedAt)
    case ByExtension(deadline) => deadline > NewDeadline(tx)
  }

  lemma WriteEarlierIff(s: State, c: nat)
    requires Inv(s) && Can(s, Write(c))
    ensures DeadlineOf(Next(s, Write(c)).build) < DeadlineOf(s.build) <==> Outrun(s.txs[c])
    ensures s.txs[c].since == Nobody ==> DeadlineOf(Next(s, Write(c)).build) > DeadlineOf(s.build)
  {
    assert TxOk(s, s.txs[c]);
  }

  ghost predicate BumpsOnlyExtend(s: State, es: seq<Step>)
    requires Runs(s, es)
    decreases |es|
  {
    es != [] ==>
      && (es[0].Write? ==> DeadlineOf(Next(s, es[0]).build) >= DeadlineOf(s.build))
      && BumpsOnlyExtend(Next(s, es[0]), es[1..])
  }

  ghost predicate NeverOutrun(s: State, es: seq<Step>)
    requires Runs(s, es)
    decreases |es|
  {
    es != [] ==>
      && (es[0].Write? ==> !Outrun(s.txs[es[0].c]))
      && NeverOutrun(Next(s, es[0]), es[1..])
  }

  /**
    In every run of overlapping bumps and extensions: no bump moves the deadline earlier if and
    only if none writes after being outrun between its fetch and its write.
  */
  lemma {:induction false} NeverEarlierIff(s: State, es: seq<Step>)
    requires Inv(s) && Runs(s, es)
    ensures BumpsOnlyExtend(s, es) <==> NeverOutrun(s, es)
    decreases |es|
  {
    if es != [] {
      var e := es[0];
      StepKeepsInv(s, e);
      if e.Write? {
        WriteEarlierIff(s, e.c);
      }
      NeverEarlierIff(Next(s, e), es[1..]);
    }
  }

  // ---- when an extension survives ----

  ghost predicate StaysFrom(s: State, es: seq<Step>, deadline: nat)
    requires Runs(s, es)
    decreases |es|
  {
    DeadlineOf(s.build) >= deadline && (es == [] || StaysFrom(Next(s, es[0]), es[1..], deadline))
  }

  /** Of the bumps that had fetched the row before, `stale`, none writes a deadline below the extension. */
  ghost predicate NotCutShort(s: State, es: seq<Step>, deadline: nat, stale: set<nat>)
    requires Runs(s, es)
    decreases |es|
  {
    es != [] ==>
      var e := es[0];
      && (e.Write? && e.c in stale ==> NewDeadline(s.txs[e.c]) >= deadline)
      && NotCutShort(Next(s, e), es[1..], deadline, if e.Write? then stale - {e.c} else stale)
  }

  lemma {:induction false} NotCutShortIff(s: State, es: seq<Step>, deadline: nat, stale: set<nat>)
    requires Inv(s) && Runs(s, es) && NoExtension(es) && DeadlineOf(s.build) >= deadline
    requires forall c :: c in s.txs && c !in stale ==> s.txs[c].seen >= deadline
    ensures StaysFrom(s, es, deadline) <==> NotCutShort(s, es, deadline, stale)
    decreases |es|
  {
    if es != [] {
      var e := es[0];
      var s' := Next(s, e);
      StepKeepsInv(s, e);
      assert e.Write? ==> TxOk(s, s.txs[e.c]);
      if DeadlineOf(s'.build) >= deadline {
        NotCutShortIff(s', es[1..], deadline, if e.Write? then stale - {e.c} else stale);
      }
    }
  }

  /**
    An accepted extension survives a run without further extensions if and only if no bump that
    had fetched the row before the extension was written writes an earlier deadline after it.
  */
  lemma ExtensionSurvivesIff(s: State, c: nat, es: seq<Step>)
    requires Inv(s) && Can(s, ExtendWrite(c))
    requires Runs(Next(s, ExtendWrite(c)), es) && NoExtension(es)
    ensures var t := Next(s, ExtendWrite(c));
            StaysFrom(t, es, s.extensions[c]) <==> NotCutShort(t, es, s.extensions[c], s.txs.Keys)
  {
    StepKeepsInv(s, ExtendWrite(c));
    NotCutShortIff(Next(s, ExtendWrite(c)), es, s.extensions[c], s.txs.Keys);
  }

  // ---- how often bumps write ----

  ghost predicate BumpOk(b: Bump) { b.deadline == Rounded(b.stampedAt) + BUMP_AMOUNT }

  /** Deadlines stored one after the other lie ten minutes apart. */
  ghost predicate Spaced(bumps: seq<Bump>) {
    |bumps| > 1 ==>
      && Spaced(bumps[..|bumps| - 1])
      && bumps[|bumps| - 1].deadline >= bumps[|bumps| - 2].deadline + TEN_MINUTES
  }

  /** Every write finds the row as its fetch saw it. */
  ghost predicate Undisturbed(s: State, es: seq<Step>)
    requires Runs(s, es)
    decreases |es|
  {
    es != [] ==>
      && (es[0].Write? ==> s.txs[es[0].c].since == Nobody)
      && Undisturbed(Next(s, es[0]), es[1..])
  }

  /** No extension so far: the row holds the last bump's deadline. */
  ghost predicate OnlyBumps(s: State) {
    && (forall c :: c in s.txs ==> !s.txs[c].since.ByExtension?)
    && (forall i :: 0 <= i < |s.bumps| ==> BumpOk(s.bumps[i]))
    && (s.bumps != [] ==> s.build.deadline == Some(s.bumps[|s.bumps| - 1].deadline))
  }

  lemma StepKeepsOnlyBumps(s: State, e: Step)
    requires Inv(s) && OnlyBumps(s) && Can(s, e) && !e.ExtendWrite?
    ensures OnlyBumps(Next(s, e))
  {
    assert e.Write? ==> TxOk(s, s.txs[e.c]);
  }

  /** A check that saw the last deadline comes ten minutes after the stamp that set it. */
  lemma ApartInDeadline(last: Bump, checkedAt: nat, stampedAt: nat)
    requires BumpOk(last) && last.deadline < checkedAt + BUMP_THRESHOLD && checkedAt <= stampedAt
    ensures Rounded(stampedAt) + BUMP_AMOUNT >= last.deadline + TEN_MINUTES
    ensures stampedAt > Rounded(last.stampedAt) + TEN_MINUTES
    ensures Rounded(stampedAt) + BUMP_AMOUNT > last.deadline + TEN_MINUTES <==>
            stampedAt >= Rounded(last.stampedAt) + TEN_MINUTES + 500
  {
    var floor := Rounded(last.stampedAt) + TEN_MINUTES;
    assert floor % MICROSECOND == 0;
    RoundedWhole(floor);
    RoundedMonotone(floor, stampedAt);
    if stampedAt < floor + 500 {
      assert stampedAt % MICROSECOND == stampedAt - floor;
    } else {
      RoundedMonotone(floor + 500, stampedAt);
      assert (floor + 500) % MICROSECOND == 500;
    }
  }

  lemma WriteSpacedIff(s: State, c: nat)
    requires Inv(s) && OnlyBumps(s) && Spaced(s.bumps) && Can(s, Write(c))
    ensures Spaced(Next(s, Write(c)).bumps) <==> s.txs[c].since == Nobody
  {
    var tx, n := s.txs[c], |s.bumps|;
    var bumps := Next(s, Write(c)).bumps;
    assert TxOk(s, tx);
    assert bumps[..n] == s.bumps;
    if tx.since == Nobody && n > 0 {
      ApartInDeadline(s.bumps[n - 1], tx.checkedAt, tx.stampedAt);
    }
  }

  lemma {:induction false} BumpsOnlyGrow(s: State, es: seq<Step>)
    requires Runs(s, es)
    ensures s.bumps <= Final(s, es).bumps
    decreases |es|
  {
    if es != [] {
      BumpsOnlyGrow(Next(s, es[0]), es[1..]);
    }
  }

  lemma {:induction false} PrefixSpaced(bumps: seq<Bump>, more: seq<Bump>)
    requires bumps <= more && Spaced(more)
    ensures Spaced(bumps)
    decreases |more|
  {
    if |bumps| < |more| {
      PrefixSpaced(bumps, more[..|more| - 1]);
    } else {
      assert bumps == more;
    }
  }

  lemma StepSpacedIff(s: State, e: Step)
    requires Inv(s) && OnlyBumps(s) && Spaced(s.bumps) && Can(s, e) && !e.ExtendWrite?
    ensures Spaced(Next(s, e).bumps) <==> (e.Write? ==> s.txs[e.c].since == Nobody)
  {
    if e.Write? {
      WriteSpacedIff(s, e.c);
    }
  }

  lemma {:induction false} SpacedIffUndisturbed(s: State, es: seq<Step>)
    requires Inv(s) && OnlyBumps(s) && Spaced(s.bumps) && Runs(s, es) && NoExtension(es)
    ensures Spaced(Final(s, es).bumps) <==> Undisturbed(s, es)
    decreases |es|
  {
    if es != [] {
      var e, rest := es[0], es[1..];
      var s' := Next(s, e);
      StepKeepsInv(s, e);
      StepKeepsOnlyBumps(s, e);
      StepSpacedIff(s, e);
      if Spaced(s'.bumps) {
        SpacedIffUndisturbed(s', rest);
      } else if Spaced(Final(s', rest).bumps) {
        BumpsOnlyGrow(s', rest);
        PrefixSpaced(s'.bumps, Final(s', rest).bumps);
      }
    }
  }

  /** Any k writes span (k-1) times ten minutes. */
  ghost predicate Spans(bumps: seq<Bump>) {
    forall i, j :: 0 <= i <= j < |bumps| ==> bumps[j].deadline >= bumps[i].deadline + (j - i) * TEN_MINUTES
  }

  lemma {:induction false} SpansOfSpaced(bumps: seq<Bump>, i: nat, j: nat)
    requires Spaced(bumps) && i <= j < |bumps|
    ensures bumps[j].deadline >= bumps[i].deadline + (j - i) * TEN_MINUTES
    decreases |bumps|
  {
    var front := bumps[..|bumps| - 1];
    if j < |bumps| - 1 {
      SpansOfSpaced(front, i, j);
    } else if i < j {
      SpansOfSpaced(front, i, j - 1);
    }
  }

  lemma {:induction false} SpacedOfSpans(bumps: seq<Bump>)
    requires Spans(bumps)
    ensures Spaced(bumps)
  {
    if |bumps| > 1 {
      var n := |bumps|;
      assert bumps[n - 1].deadline >= bumps[n - 2].deadline + (n - 1 - (n - 2)) * TEN_MINUTES;
      SpacedOfSpans(bumps[..n - 1]);
    }
  }

  /**
    In every run without extensions, any k bump writes store deadlines spanning (k-1) times ten
    minutes if and only if no bump writes over another that came between its fetch and its write.
  */
  lemma BumpWritesSpanIff(now: nat, build: Build, es: seq<Step>)
    requires Runs(Init(now, build), es) && NoExtension(es)
    ensures Spans(Final(Init(now, build), es).bumps) <==> Undisturbed(Init(now, build), es)
  {
    var bumps := Final(Init(now, build), es).bumps;
    SpacedIffUndisturbed(Init(now, build), es);
    if Spaced(bumps) {
      forall i, j | 0 <= i <= j < |bumps|
        ensures bumps[j].deadline >= bumps[i].deadline + (j - i) * TEN_MINUTES
      {
        SpansOfSpaced(bumps, i, j);
      }
    }
    if Spans(bumps) {
      SpacedOfSpans(bumps);
    }
  }

  /** The clock read for a bump is past the stored stamp of the bump before it by over ten minutes. */
  ghost predicate ReadingsApart(bumps: seq<Bump>) {
    forall i :: 0 <= i < |bumps| - 1 ==> ReadApart(bumps[i], bumps[i + 1])
  }

  ghost predicate ReadApart(a: Bump, b: Bump) { b.stampedAt > Rounded(a.stampedAt) + TEN_MINUTES }

  lemma {:induction false} UndisturbedReadings(s: State, es: seq<Step>)
    requires Inv(s) && OnlyBumps(s) && ReadingsApart(s.bumps)
    requires Runs(s, es) && NoExtension(es) && Undisturbed(s, es)
    ensures ReadingsApart(Final(s, es).bumps)
    decreases |es|
  {
    if es != [] {
      var e, n := es[0], |s.bumps|;
      StepKeepsInv(s, e);
      StepKeepsOnlyBumps(s, e);
      if e.Write? && n > 0 {
        assert TxOk(s, s.txs[e.c]);
        ApartInDeadline(s.bumps[n - 1], s.txs[e.c].checkedAt, s.txs[e.c].stampedAt);
        assert ReadApart(s.bumps[n - 1], Next(s, e).bumps[n]);
      }
      UndisturbedReadings(Next(s, e), es[1..]);
    }
  }

  /** In undisturbed runs the last of k readings exceeds the first stored stamp strictly by that span. */
  lemma BumpReadingsSpan(now: nat, build: Build, es: seq<Step>, i: nat, j: nat)
    requires Runs(Init(now, build), es) && NoExtension(es) && Undisturbed(Init(now, build), es)
    requires i < j < |Final(Init(now, build), es).bumps|
    ensures var bumps := Final(Init(now, build), es).bumps;
            && bumps[j].stampedAt > Rounded(bumps[i].stampedAt) + (j - i) * TEN_MINUTES
            && (bumps[i].stampedAt % MICROSECOND == 0 ==>
                  bumps[j].stampedAt - bumps[i].stampedAt > (j - i) * TEN_MINUTES)
  {
    var s := Init(now, build);
    var bumps := Final(s, es).bumps;
    BumpWritesSpanIff(now, build, es);
    UndisturbedReadings(s, es);
    OnlyBumpsInRun(s, es);
    assert ReadApart(bumps[j - 1], bumps[j]);
    assert BumpOk(bumps[i]) && BumpOk(bumps[j - 1]);
    assert bumps[j - 1].deadline >= bumps[i].deadline + (j - 1 - i) * TEN_MINUTES;
  }

  lemma {:induction false} OnlyBumpsInRun(s: State, es: seq<Step>)
    requires Inv(s) && OnlyBumps(s) && Runs(s, es) && NoExtension(es)
    ensures OnlyBumps(Final(s, es))
    decreases |es|
  {
    if es != [] {
      StepKeepsInv(s, es[0]);
      StepKeepsOnlyBumps(s, es[0]);
      OnlyBumpsInRun(Next(s, es[0]), es[1..]);
    }
  }

  // ---- runs in which the promises fail ----

  /** A started build that completed at time zero. */
  function Started(deadline: nat): Build { Build(true, Some(0), Some(deadline)) }

  lemma FinalOf(s: State, e: Step, es: seq<Step>)
    requires Can(s, e) && Runs(Next(s, e), es)
    ensures Runs(s, [e] + es) && Final(s, [e] + es) == Final(Next(s, e), es)
  {
    assert ([e] + es)[1..] == es;
  }

  /** The steps of one whole bump, followed by more steps. */
  function WholeBump(c: nat, rest: seq<Step>): seq<Step> {
    [Fetch(c)] + ([Check(c)] + ([Stamp(c)] + ([Write(c)] + rest)))
  }

  lemma BumpNow(s: State, c: nat, rest: seq<Step>)
    requires s.txs == map[] && NeedsBump(s.build, s.now)
    requires Runs(Bumped(s), rest)
    ensures Runs(s, WholeBump(c, rest)) && Final(s, WholeBump(c, rest)) == Final(Bumped(s), rest)
  {
    var a := Next(s, Fetch(c));
    var b := Next(a, Check(c));
    var d := Next(b, Stamp(c));
    assert d.txs - {c} == map[];
    assert Written(d.txs - {c}, ByBump(s.now)) == map[];
    assert Next(d, Write(c)) == Bumped(s);
    FinalOf(d, Write(c), rest);
    FinalOf(b, Stamp(c), [Write(c)] + rest);
    FinalOf(a, Check(c), [Stamp(c)] + ([Write(c)] + rest));
    FinalOf(s, Fetch(c), [Check(c)] + ([Stamp(c)] + ([Write(c)] + rest)));
  }

  function Bumped(s: State): State {
    var deadline := Rounded(s.now) + BUMP_AMOUNT;
    s.(build := s.build.(deadline := Some(deadline)), bumps := s.bumps + [Bump(s.now, deadline)])
  }

  ghost predicate TwoWrites(s: State, es: seq<Step>, span: int) {
    && Runs(s, es) && |Final(s, es).bumps| == 2
    && Final(s, es).bumps[1].deadline - Final(s, es).bumps[0].deadline == span
  }

  /**
    Rounding can make the span exactly ten minutes: the second check comes one nanosecond
    after the ten minutes and its stamp rounds down again.
  */
  lemma SpanNotStrict()
    ensures TwoWrites(Init(0, Started(0)), WholeBump(1, [Tick(TEN_MINUTES + 1)] + WholeBump(1, [])), TEN_MINUTES)
  {
    var s := Init(0, Started(0));
    var a := Bumped(s);
    var b := Next(a, Tick(TEN_MINUTES + 1));
    RoundedWhole(0);
    assert Rounded(b.now) == TEN_MINUTES;
    BumpNow(b, 1, []);
    FinalOf(a, Tick(TEN_MINUTES + 1), WholeBump(1, []));
    BumpNow(s, 1, [Tick(TEN_MINUTES + 1)] + WholeBump(1, []));
  }

  /** A bump is ready to write, followed by more steps. */
  function UpToStamp(c: nat, rest: seq<Step>): seq<Step> { [Fetch(c)] + ([Check(c)] + ([Stamp(c)] + rest)) }

  function Ready(s: State, c: nat): State {
    s.(txs := s.txs[c := Stamped(DeadlineOf(s.build), s.now, Nobody, s.now, s.now)])
  }

  lemma ReadyNow(s: State, c: nat, rest: seq<Step>)
    requires c !in s.txs && NeedsBump(s.build, s.now) && Runs(Ready(s, c), rest)
    ensures Runs(s, UpToStamp(c, rest)) && Final(s, UpToStamp(c, rest)) == Final(Ready(s, c), rest)
  {
    var a := Next(s, Fetch(c));
    var b := Next(a, Check(c));
    assert Next(b, Stamp(c)) == Ready(s, c);
    FinalOf(b, Stamp(c), rest);
    FinalOf(a, Check(c), [Stamp(c)] + rest);
    FinalOf(s, Fetch(c), [Check(c)] + ([Stamp(c)] + rest));
  }

  /** Two overlapping bumps both pass their check and write the same deadline at once. */
  lemma OverlappingBumpsBothWrite()
    ensures TwoWrites(Init(0, Started(0)), UpToStamp(1, UpToStamp(2, [Write(1)] + ([Write(2)] + []))), 0)
  {
    var s := Init(0, Started(0));
    var a := Ready(s, 1);
    var b := Ready(a, 2);
    var c := Next(b, Write(1));
    FinalOf(c, Write(2), []);
    FinalOf(b, Write(1), [Write(2)] + []);
    ReadyNow(a, 2, [Write(1)] + ([Write(2)] + []));
    ReadyNow(s, 1, UpToStamp(2, [Write(1)] + ([Write(2)] + [])));
  }

  ghost predicate EndsEarlier(s: State, es: seq<Step>, e: Step) {
    && Runs(s, es) && Can(Final(s, es), e)
    && DeadlineOf(Next(Final(s, es), e).build) < DeadlineOf(Final(s, es).build)
  }

  function Extended(s: State, deadline: nat): State {
    s.(build := s.build.(deadline := Some(deadline)), txs := Written(s.txs, ByExtension(deadline)))
  }

  lemma ExtendNow(s: State, c: nat, deadline: nat)
    requires c !in s.extensions && Extend(s.build, deadline, s.now) == Updated
    ensures var es := [ExtendCheck(c, deadline)] + ([ExtendWrite(c)] + []);
            Runs(s, es) && Final(s, es) == Extended(s, deadline)
  {
    var a := Next(s, ExtendCheck(c, deadline));
    assert a.extensions - {c} == s.extensions;
    assert Next(a, ExtendWrite(c)) == Extended(s, deadline);
    FinalOf(a, ExtendWrite(c), []);
    FinalOf(s, ExtendCheck(c, deadline), [ExtendWrite(c)] + []);
  }

  predicate Leaves(es: seq<Step>, c: nat) {
    forall i :: 0 <= i < |es| ==> es[i] != ExtendWrite(c) && !(es[i].ExtendCheck? && es[i].c == c)
  }

  lemma {:induction false} ExtensionStays(s: State, c: nat, es: seq<Step>)
    requires Runs(s, es) && Leaves(es, c)
    ensures var end := Final(s, es);
            (c in end.extensions <==> c in s.extensions) && (c in s.extensions ==> end.extensions[c] == s.extensions[c])
    decreases |es|
  {
    if es != [] {
      assert es[0] != ExtendWrite(c) && !(es[0].ExtendCheck? && es[0].c == c);
      ExtensionStays(Next(s, es[0]), c, es[1..]);
    }
  }

  /**
    A request to extend reaches its write, whatever runs in between, if and only if at its check the
    build was bumpable and the deadline 29 minutes away and not before the build's completion. It
    then stores the deadline it asked for.
  */
  lemma ExtensionWritesIff(s: State, c: nat, deadline: nat, es: seq<Step>)
    requires Can(s, ExtendCheck(c, deadline)) && Runs(Next(s, ExtendCheck(c, deadline)), es) && Leaves(es, c)
    ensures var end := Final(Next(s, ExtendCheck(c, deadline)), es);
            && (Can(end, ExtendWrite(c)) <==>
                  Bumpable(s.build) && deadline >= s.now + 29 * MINUTE && deadline >= s.build.completedAt.value)
            && (Can(end, ExtendWrite(c)) ==>
                  Next(end, ExtendWrite(c)).build == end.build.(deadline := Some(deadline)))
  {
    ExtensionStays(Next(s, ExtendCheck(c, deadline)), c, es);
  }

  /** A bump may write up to 15 seconds after its fetch, and not later. */
  lemma WriteWindow(s: State, c: nat, d: nat)
    requires c !in s.txs && NeedsBump(s.build, s.now)
    ensures var stamped := Next(Next(Next(s, Fetch(c)), Check(c)), Stamp(c));
            Can(Next(stamped, Tick(d)), Write(c)) <==> d <= 15_000_000_000
  {
  }

  /** An extension between check and write is undone by the bump. */
  lemma ExtensionIsLost()
    ensures EndsEarlier(Init(0, Started(0)),
                        UpToStamp(1, [ExtendCheck(1, DAY)] + ([ExtendWrite(1)] + [])), Write(1))
  {
    var s := Init(0, Started(0));
    var a := Ready(s, 1);
    ExtendNow(a, 1, DAY);
    ReadyNow(s, 1, [ExtendCheck(1, DAY)] + ([ExtendWrite(1)] + []));
    assert Extended(a, DAY).txs[1].stampedAt == 0;
  }

  ghost predicate EndsShort(s: State, es: seq<Step>, e: Step) {
    && Runs(s, es) && Can(Final(s, es), e)
    && EndsAtCheck(Final(s, es), e) && !LeavesLife(Final(s, es), e)
  }

  /** The bump sees 55 minutes, an extension to 30 minutes is written, and the check passes on the old row. */
  lemma StaleCheckLeavesThirtyMinutes()
    ensures EndsShort(Init(0, Started(55 * MINUTE)),
                      [Fetch(1)] + ([ExtendCheck(1, 30 * MINUTE)] + ([ExtendWrite(1)] + [])), Check(1))
  {
    var s := Init(0, Started(55 * MINUTE));
    var a := Next(s, Fetch(1));
    ExtendNow(a, 1, 30 * MINUTE);
    FinalOf(s, Fetch(1), [ExtendCheck(1, 30 * MINUTE)] + ([ExtendWrite(1)] + []));
  }

  // ---- time to live ----

  const MILLISECOND: nat := 1_000_000
  const TTL_MAX: nat := 7 * DAY
  const TWO_58: nat := 0x400_0000_0000_0000

  datatype TtlError = TtlTooShort | TtlTooLong
  datatype Ttl = Stored(value: Option<int>) | Refused(error: TtlError)

  /** Truncation towards zero of a possibly negative duration. */
  function TowardsZero(d: int): int {
    if d >= 0 then Truncated(d, MINUTE) else 0 - Truncated(-d, MINUTE)
  }

  /** validWorkspaceTTLMillis: the product of milliseconds wraps in 64 bits. */
  function ValidTtl(millis: Option<Duration>, default_: Duration): Ttl {
    if millis.None? || millis.value == 0 then
      Stored(if default_ == 0 then None else Some(default_))
    else
      var truncated := TowardsZero(Wrapped(millis.value * MILLISECOND));
      if truncated < MINUTE then Refused(TtlTooShort)
      else if truncated > TTL_MAX then Refused(TtlTooLong)
      else Stored(Some(truncated))
  }

  lemma WrappedInside(x: int)
    requires MIN_INT64 <= x < -MIN_INT64
    ensures Wrapped(x) == x
  {
  }

  /** What is stored is always a whole number of minutes from one minute to seven days. */
  lemma StoredTtlInRange(millis: Duration, default_: Duration)
    ensures var r := ValidTtl(Some(millis), default_);
            millis != 0 && r.Stored? ==>
              r.value.Some? && MINUTE <= r.value.value <= 7 * DAY && r.value.value % MINUTE == 0
  {
    var d: int := Wrapped(millis * MILLISECOND);
    if d >= 0 {
      WholeMinutes(d / MINUTE);
    }
  }

  lemma WholeMinutes(k: nat)
    ensures k * MINUTE % MINUTE == 0
  {
  }

  /** The requested time, rounded down to the minute, is stored exactly for 1 minute to 7 days. */
  lemma TtlFaithfulIff(millis: Duration, default_: Duration)
    requires millis != 0
    ensures ValidTtl(Some(millis), default_) == Stored(Some(millis * MILLISECOND / MINUTE * MINUTE))
       <==> 60_000 <= millis < 604_860_000
  {
    if 60_000 <= millis < 604_860_000 {
      WrappedInside(millis * MILLISECOND);
    } else {
      assert millis * MILLISECOND / MINUTE < 1 || millis * MILLISECOND / MINUTE > 7 * 1440;
    }
  }

  /** No request, or one of zero, stores the template's default, and nothing if that is zero. */
  lemma TtlDefault(default_: Duration)
    ensures ValidTtl(None, default_) == ValidTtl(Some(0), default_)
    ensures ValidTtl(None, 0) == Stored(None)
    ensures default_ != 0 ==> ValidTtl(None, default_) == Stored(Some(default_))
  {
  }

  /** Short of overflow, times under a minute are refused as too short and times past seven days as too long. */
  lemma TtlRefusedIff(millis: Duration, default_: Duration)
    requires millis != 0 && MIN_INT64 <= millis * MILLISECOND < -MIN_INT64
    ensures ValidTtl(Some(millis), default_) == Refused(TtlTooShort) <==> millis < 60_000
    ensures ValidTtl(Some(millis), default_) == Refused(TtlTooLong) <==> millis >= 604_860_000
  {
    WrappedInside(millis * MILLISECOND);
  }

  lemma WrappedPeriodic(x: int, j: int)
    ensures Wrapped(x + j * TWO_64) == Wrapped(x)
  {
    var y := x - MIN_INT64;
    DivModUnique(y + j * TWO_64, TWO_64, y / TWO_64 + j);
  }

  /** A million is 64 times an odd number, so times 2^58 milliseconds apart are not told apart. */
  lemma TtlPeriodic(millis: Duration, k: int, far: Duration, default_: Duration)
    requires millis != 0 && far != 0 && far == millis + k * TWO_58
    ensures ValidTtl(Some(far), default_) == ValidTtl(Some(millis), default_)
  {
    assert TWO_58 * MILLISECOND == 15625 * TWO_64;
    assert far * MILLISECOND == millis * MILLISECOND + (k * 15625) * TWO_64;
    WrappedPeriodic(millis * MILLISECOND, k * 15625);
  }

  /** Nine million years more than an hour is accepted as an hour. */
  lemma HugeTtlAccepted()
    ensures ValidTtl(Some(TWO_58 + 3_600_000), 0) == Stored(Some(HOUR))
  {
    TtlPeriodic(3_600_000, 1, TWO_58 + 3_600_000, 0);
    TtlFaithfulIff(3_600_000, 0);
  }
}
