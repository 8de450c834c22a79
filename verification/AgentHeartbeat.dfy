/**
  coderd/workspaceagents.go: the connection row of one agent, written by any number of
  overlapping connections, and the status read from it.

  Each connection keeps its own copy of the three times and writes all of them together;
  between taking a time and writing it other connections may write.
*/
module AgentHeartbeat {
  import opened Wrappers

  datatype Row = Row(first: Option<int>, last: Option<int>, disconnected: Option<int>)

  datatype Status = Connecting | Timeout | Connected | Disconnected

  /** The status switch of convertWorkspaceAgent. */
  function StatusOf(row: Row, createdAt: int, connectionTimeout: int, inactive: int, now: int): Status {
    if row.first.None? then
      if connectionTimeout > 0 && now - createdAt > connectionTimeout then Timeout else Connecting
    else if row.disconnected.Some? && (row.last.None? || row.disconnected.value > row.last.value) then
      Disconnected
    else if row.last.None? then
      // The zero time is longer ago than any timeout.
      Disconnected
    else if now - row.last.value > inactive then Disconnected
    else Connected
  }

  /** A connection: the row it was authenticated with, then its captured times. */
  datatype Conn =
    | Loaded(seen: Row)
    | Live(first: int, last: int, disconnected: Option<int>)
    | Closing(first: int, last: int, disconnectedAt: int)

  /** The last write that reached the row, and when. */
  datatype Written = Never | Wrote(at: int, conn: Conn)

  datatype State = State(now: int, row: Row, conns: map<nat, Conn>, written: Written)

  datatype Step =
    | Tick(d: nat)
    | Load(c: nat)
    | Open(c: nat)
    | Beat(c: nat)
    | Close(c: nat)
    | Write(c: nat)
    | Leave(c: nat)

  function Init(now: int): State { State(now, Row(None, None, None), map[], Never) }

  predicate Can(s: State, e: Step) {
    match e
    case Tick(_) => true
    case Load(c) => c !in s.conns
    case Open(c) => c in s.conns && s.conns[c].Loaded?
    case Beat(c) => c in s.conns && s.conns[c].Live?
    case Close(c) => c in s.conns && s.conns[c].Live?
    case Write(c) => c in s.conns && !s.conns[c].Loaded?
    case Leave(c) => c in s.conns
  }

  function RowOf(conn: Conn): Row
    requires !conn.Loaded?
  {
    match conn
    case Live(first, last, disconnected) => Row(Some(first), Some(last), disconnected)
    case Closing(first, last, at) => Row(Some(first), Some(last), Some(at))
  }

  /** Leaving without a Write is a closing update that did not land. */
  function Next(s: State, e: Step): State
    requires Can(s, e)
  {
    match e
    case Tick(d) => s.(now := s.now + d)
    case Load(c) => s.(conns := s.conns[c := Loaded(s.row)])
    case Open(c) =>
      var seen := s.conns[c].seen;
      var first := if seen.first.Some? then seen.first.value else s.now;
      s.(conns := s.conns[c := Live(first, s.now, seen.disconnected)])
    case Beat(c) => s.(conns := s.conns[c := Live(s.conns[c].first, s.now, s.conns[c].disconnected)])
    case Close(c) => s.(conns := s.conns[c := Closing(s.conns[c].first, s.conns[c].last, s.now)])
    case Write(c) => s.(row := RowOf(s.conns[c]), written := Wrote(s.now, s.conns[c]))
    case Leave(c) => s.(conns := s.conns - {c})
  }

  ghost predicate Runs(s: State, es: seq<Step>)
    decreases |es|
  {
    es == [] || (Can(s, es[0]) && Runs(Next(s, es[0]), es[1..]))
  }

  ghost function Final(s: State, es: seq<Step>): State
    requires Runs(s, es)
    decreases |es|
  {
    if es == [] then s else Final(Next(s, es[0]), es[1..])
  }

  // ---- invariant ----

  ghost predicate NotAfter(t: Option<int>, limit: int) { t.Some? ==> t.value <= limit }

  ghost predicate Timely(conn: Conn, now: int) {
    match conn
    case Loaded(seen) => NotAfter(seen.disconnected, now)
    case Live(_, last, disconnected) => last <= now && NotAfter(disconnected, last)
    case Closing(_, last, at) => last <= at <= now
  }

  ghost predicate Inv(s: State) {
    && (forall c :: c in s.conns ==> Timely(s.conns[c], s.now))
    && NotAfter(s.row.disconnected, s.now)
    && match s.written
       case Never => s.row == Row(None, None, None)
       case Wrote(at, conn) => at <= s.now && !conn.Loaded? && Timely(conn, at) && s.row == RowOf(conn)
  }

  lemma StepKeepsInv(s: State, e: Step)
    requires Inv(s) && Can(s, e)
    ensures Inv(Next(s, e))
  {
    var s' := Next(s, e);
    forall c | c in s'.conns ensures Timely(s'.conns[c], s'.now) {
      assert c in s.conns ==> Timely(s.conns[c], s.now);
    }
  }

  lemma {:induction false} InvInEveryRun(s: State, es: seq<Step>)
    requires Inv(s) && Runs(s, es)
    ensures Inv(Final(s, es))
    decreases |es|
  {
    if es != [] {
      StepKeepsInv(s, es[0]);
      InvInEveryRun(Next(s, es[0]), es[1..]);
    }
  }

  // ---- what the status says ----

  /**
    In every interleaving the status follows the last write alone. After a heartbeat write it
    is connected exactly until the inactivity timeout. After a closing write it is
    disconnected, unless the clock did not move since that connection's own last beat.
  */
  lemma StatusFollowsLastWrite(start: int, es: seq<Step>, createdAt: int, connectionTimeout: int, inactive: int)
    requires Runs(Init(start), es)
    ensures var s := Final(Init(start), es);
            var status := StatusOf(s.row, createdAt, connectionTimeout, inactive, s.now);
            match s.written
            case Never =>
              status == if connectionTimeout > 0 && s.now > createdAt + connectionTimeout then Timeout else Connecting
            case Wrote(at, Live(_, last, _)) =>
              status == if s.now - last <= inactive then Connected else Disconnected
            case Wrote(at, Closing(_, last, closedAt)) =>
              status == if closedAt == last && s.now - last <= inactive then Connected else Disconnected
            case _ => false
  {
    InvInEveryRun(Init(start), es);
  }

  /** Once the timeout has passed since the last write, the agent is disconnected, closed or not. */
  lemma SilenceDisconnects(start: int, es: seq<Step>, createdAt: int, connectionTimeout: int, inactive: int)
    requires Runs(Init(start), es)
    ensures var s := Final(Init(start), es);
            s.written.Wrote? && s.now - s.written.at > inactive ==>
              StatusOf(s.row, createdAt, connectionTimeout, inactive, s.now) == Disconnected
  {
    InvInEveryRun(Init(start), es);
  }

  ghost predicate Quiet(es: seq<Step>) { forall i :: 0 <= i < |es| ==> !es[i].Write? }

  lemma {:induction false} QuietKeepsRow(s: State, es: seq<Step>)
    requires Runs(s, es) && Quiet(es)
    ensures Final(s, es).row == s.row && Final(s, es).written == s.written && s.now <= Final(s, es).now
    decreases |es|
  {
    if es != [] {
      QuietKeepsRow(Next(s, es[0]), es[1..]);
    }
  }

  /** From one heartbeat write to the next write of any connection, only the timeout can end it. */
  lemma ConnectedUntilNextWrite(s: State, c: nat, es: seq<Step>, createdAt: int, connectionTimeout: int, inactive: int)
    requires Inv(s) && Can(s, Write(c)) && s.conns[c].Live?
    requires Runs(Next(s, Write(c)), es) && Quiet(es)
    ensures var end := Final(Next(s, Write(c)), es);
            StatusOf(end.row, createdAt, connectionTimeout, inactive, end.now) == Connected
            <==> end.now - s.conns[c].last <= inactive
  {
    StepKeepsInv(s, Write(c));
    QuietKeepsRow(Next(s, Write(c)), es);
  }

  // ---- the times a connection carries ----

  /** The clock after the steps. */
  function Clock(now: int, es: seq<Step>): int {
    if es == [] then now
    else Clock(now, es[..|es| - 1]) + if es[|es| - 1].Tick? then es[|es| - 1].d else 0
  }

  function OpenedAt(now: int, es: seq<Step>, c: nat): Option<int> {
    if es == [] then None
    else if es[|es| - 1] == Open(c) then Some(Clock(now, es))
    else OpenedAt(now, es[..|es| - 1], c)
  }

  /** When the connection last opened or beat. */
  function BeatAt(now: int, es: seq<Step>, c: nat): Option<int> {
    if es == [] then None
    else if es[|es| - 1] == Open(c) || es[|es| - 1] == Beat(c) then Some(Clock(now, es))
    else BeatAt(now, es[..|es| - 1], c)
  }

  function ClosedAt(now: int, es: seq<Step>, c: nat): Option<int> {
    if es == [] then None
    else if es[|es| - 1] == Close(c) then Some(Clock(now, es))
    else ClosedAt(now, es[..|es| - 1], c)
  }

  /** What a connection carries, given the row it loaded and when it began, last beat and ended. */
  ghost predicate Carries(conn: Conn, row: Row, began: Option<int>, beat: Option<int>, ended: Option<int>) {
    match conn
    case Loaded(seen) => seen == row && began.None? && ended.None?
    case Live(first, last, disconnected) =>
      && began.Some? && ended.None? && beat == Some(last) && disconnected == row.disconnected
      && first == (if row.first.Some? then row.first else began).value
    case Closing(first, last, at) =>
      && began.Some? && ended == Some(at) && beat == Some(last)
      && first == (if row.first.Some? then row.first else began).value
  }

  ghost predicate CarriesTimes(conn: Conn, row: Row, now: int, es: seq<Step>, c: nat) {
    Carries(conn, row, OpenedAt(now, es, c), BeatAt(now, es, c), ClosedAt(now, es, c))
  }

  lemma StepCarries(s: State, e: Step, c: nat, row: Row, began: Option<int>, beat: Option<int>, ended: Option<int>)
    requires c in s.conns && Carries(s.conns[c], row, began, beat, ended) && Can(s, e) && e != Leave(c)
    ensures var s' := Next(s, e);
            c in s'.conns &&
            Carries(s'.conns[c], row, if e == Open(c) then Some(s.now) else began,
                    if e == Open(c) || e == Beat(c) then Some(s.now) else beat,
                    if e == Close(c) then Some(s.now) else ended)
  {
  }

  lemma {:induction false} RunsSnoc(s: State, es: seq<Step>, e: Step)
    requires Runs(s, es + [e])
    ensures Runs(s, es) && Can(Final(s, es), e) && Final(s, es + [e]) == Next(Final(s, es), e)
    decreases |es|
  {
    if es == [] {
      assert es + [e] == [e];
    } else {
      assert (es + [e])[1..] == es[1..] + [e];
      RunsSnoc(Next(s, es[0]), es[1..], e);
    }
  }

  /**
    In every interleaving a connection carries the row it was authenticated with until it opens.
    From then on its first time is that row's, or else its opening; its last time is its own last
    beat; its disconnect time is that row's until it closes, and then the closing.
  */
  lemma ConnectionCarriesTimes(s: State, c: nat, es: seq<Step>)
    requires Can(s, Load(c)) && Runs(Next(s, Load(c)), es)
    requires forall i :: 0 <= i < |es| ==> es[i] != Leave(c)
    ensures var end := Final(Next(s, Load(c)), es);
            c in end.conns && CarriesTimes(end.conns[c], s.row, s.now, es, c)
  {
    LoadedCarriesTimes(Next(s, Load(c)), c, es);
  }

  lemma {:induction false} LoadedCarriesTimes(s: State, c: nat, es: seq<Step>)
    requires c in s.conns && s.conns[c].Loaded? && Runs(s, es)
    requires forall i :: 0 <= i < |es| ==> es[i] != Leave(c)
    ensures CarriesSoFar(Final(s, es), s.conns[c].seen, s.now, es, c)
    decreases |es|
  {
    if es != [] {
      var front, e := es[..|es| - 1], es[|es| - 1];
      assert front + [e] == es;
      RunsSnoc(s, front, e);
      LoadedCarriesTimes(s, c, front);
      OneMoreCarried(Final(s, front), e, c, s.conns[c].seen, s.now, front);
    }
  }

  ghost predicate CarriesSoFar(s: State, row: Row, now: int, es: seq<Step>, c: nat) {
    s.now == Clock(now, es) && c in s.conns && CarriesTimes(s.conns[c], row, now, es, c)
  }

  lemma OneMoreCarried(s: State, e: Step, c: nat, row: Row, now: int, es: seq<Step>)
    requires CarriesSoFar(s, row, now, es, c) && Can(s, e) && e != Leave(c)
    ensures CarriesSoFar(Next(s, e), row, now, es + [e], c)
  {
    TimesSnoc(now, es, e, c);
    StepCarries(s, e, c, row, OpenedAt(now, es, c), BeatAt(now, es, c), ClosedAt(now, es, c));
  }

  lemma TimesSnoc(now: int, es: seq<Step>, e: Step, c: nat)
    ensures var t, more := Clock(now, es), es + [e];
            && Clock(now, more) == t + (if e.Tick? then e.d else 0)
            && OpenedAt(now, more, c) == (if e == Open(c) then Some(t) else OpenedAt(now, es, c))
            && BeatAt(now, more, c) == (if e == Open(c) || e == Beat(c) then Some(t) else BeatAt(now, es, c))
            && ClosedAt(now, more, c) == (if e == Close(c) then Some(t) else ClosedAt(now, es, c))
  {
    assert (es + [e])[..|es|] == es;
  }
}
