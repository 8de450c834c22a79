/**
  coderd/provisionerjobs.go: following the logs of a provisioner job.

  Each pubsub message starts its own handler goroutine; handlers share a bounded buffer, the
  channel `closed` and a mutex. A handler is modelled at the grain of its critical section.
*/
module FollowChannel {
  import opened Wrappers

  const CAPACITY := 128

  datatype Message = Malformed | Notice(createdAfter: int, endOfLogs: bool)

  /** The next action of a handler; `log` and `rest` are the logs it has read and not yet offered. */
  datatype Pc =
    | Entry
    | Query
    | LockToSend(log: int, rest: seq<int>)
    | CheckToSend(log: int, rest: seq<int>)
    | Send(log: int, rest: seq<int>)
    | UnlockAfterSend(rest: seq<int>)
    | LockToEnd
    | CheckToEnd
    | CloseClosed
    | CloseBuffer
    | UnlockAfterEnd
    | UnlockAndReturn
    | Returned

  datatype Handler = Handler(msg: Message, pc: Pc)

  /**
    `panicked` records a send on a closed channel or a second close. `pushed` and `missed` are
    history: the rows buffered so far in order, and those some handler lost to a full buffer or to a
    failed read.
  */
  datatype Channel = Channel(
    handlers: seq<Handler>,
    mutex: Option<nat>,
    closed: bool,
    bufferClosed: bool,
    buffer: seq<int>,
    panicked: bool,
    pushed: seq<int>,
    missed: set<int>)

  const FRESH := Channel([], None, false, false, [], false, [], {})

  /** GetProvisionerLogsByIDBetween: rows above `after` or below `before`, ascending. */
  function RowsBetween(rows: seq<int>, after: int, before: int): (r: seq<int>)
    ensures forall x :: x in r <==> x in rows && (x > after || x < before)
  {
    if rows == [] then []
    else
      var rest := RowsBetween(rows[..|rows| - 1], after, before);
      var last := rows[|rows| - 1];
      assert rows == rows[..|rows| - 1] + [last];
      if last > after || last < before then rest + [last] else rest
  }

  predicate Increasing(s: seq<int>) {
    forall i, j :: 0 <= i < j < |s| ==> s[i] < s[j]
  }

  /** The query's answer is in ascending order, and no longer than the table. */
  lemma {:induction false} RowsAscending(rows: seq<int>, after: int, before: int)
    requires Increasing(rows)
    ensures var r := RowsBetween(rows, after, before);
            && Increasing(r) && |r| <= |rows|
            && forall x :: x in r <==> x in rows && (x > after || x < before)
  {
    if rows != [] {
      RowsAscending(rows[..|rows| - 1], after, before);
      var r := RowsBetween(rows[..|rows| - 1], after, before);
      forall k | 0 <= k < |r| ensures r[k] < rows[|rows| - 1] {
        assert r[k] in rows[..|rows| - 1];
      }
    }
  }

  function AfterSends(msg: Message, rest: seq<int>): Pc {
    if rest != [] then LockToSend(rest[0], rest[1..])
    else if msg.Notice? && msg.endOfLogs then LockToEnd
    else Returned
  }

  predicate Enabled(c: Channel, i: nat) {
    && i < |c.handlers|
    && !c.handlers[i].pc.Returned?
    && (c.handlers[i].pc.LockToSend? || c.handlers[i].pc.LockToEnd? ==> c.mutex.None?)
  }

  /** What the query of handler h reads. */
  function LogsFor(h: Handler, rows: seq<int>): seq<int> {
    if h.msg.Notice? && h.msg.createdAfter != 0 then RowsBetween(rows, h.msg.createdAfter, 0) else []
  }

  /** Where handler i goes; `rows` is the log table and `readOk` the fate of its query. */
  function NextPc(c: Channel, i: nat, rows: seq<int>, readOk: bool): Pc
    requires Enabled(c, i)
  {
    var h := c.handlers[i];
    match h.pc
    case Entry => if c.closed then Returned else Query
    case Query =>
      if h.msg.Malformed? || (h.msg.createdAfter != 0 && !readOk) then Returned
      else AfterSends(h.msg, LogsFor(h, rows))
    case LockToSend(log, rest) => CheckToSend(log, rest)
    case CheckToSend(log, rest) => if c.closed then UnlockAndReturn else Send(log, rest)
    case Send(_, rest) => if c.bufferClosed then Returned else UnlockAfterSend(rest)
    case UnlockAfterSend(rest) => AfterSends(h.msg, rest)
    case LockToEnd => CheckToEnd
    case CheckToEnd => if c.closed then UnlockAndReturn else CloseClosed
    case CloseClosed => CloseBuffer
    case CloseBuffer => UnlockAfterEnd
    case UnlockAfterEnd => Returned
    case UnlockAndReturn => Returned
  }

  /** What it does to the shared channel; the non-blocking send drops a log when the buffer is full. */
  function Effect(c: Channel, i: nat, rows: seq<int>, readOk: bool): Channel
    requires Enabled(c, i)
  {
    match c.handlers[i].pc
    case Query => if readOk then c else c.(missed := c.missed + set x | x in LogsFor(c.handlers[i], rows))
    case LockToSend(_, _) => c.(mutex := Some(i))
    case Send(log, _) =>
      if c.bufferClosed then c.(panicked := true)
      else if |c.buffer| < CAPACITY then c.(buffer := c.buffer + [log], pushed := c.pushed + [log])
      else c.(missed := c.missed + {log})
    case UnlockAfterSend(_) => c.(mutex := None)
    case LockToEnd => c.(mutex := Some(i))
    case CloseClosed => c.(closed := true, panicked := c.panicked || c.closed)
    case CloseBuffer => c.(bufferClosed := true, panicked := c.panicked || c.bufferClosed)
    case UnlockAfterEnd => c.(mutex := None)
    case UnlockAndReturn => c.(mutex := None)
    case _ => c
  }

  /** One action of handler i. */
  function Advance(c: Channel, i: nat, rows: seq<int>, readOk: bool): Channel
    requires Enabled(c, i)
  {
    var pc := NextPc(c, i, rows, readOk);
    Effect(c, i, rows, readOk).(handlers := c.handlers[i := c.handlers[i].(pc := pc)])
  }

  function Spawn(c: Channel, msg: Message): Channel {
    c.(handlers := c.handlers + [Handler(msg, Entry)])
  }

  function Take(c: Channel): Channel
    requires c.buffer != []
  {
    c.(buffer := c.buffer[1..])
  }

  // ---- safety in every interleaving ----

  ghost predicate Critical(pc: Pc) {
    pc.CheckToSend? || pc.Send? || pc.UnlockAfterSend? || pc.CheckToEnd? || pc.CloseClosed? ||
    pc.CloseBuffer? || pc.UnlockAfterEnd? || pc.UnlockAndReturn?
  }

  ghost predicate HandlerSafe(c: Channel, i: nat)
    requires i < |c.handlers|
  {
    var pc := c.handlers[i].pc;
    && (Critical(pc) <==> c.mutex == Some(i))
    && (pc.Send? || pc.CloseClosed? ==> !c.closed)
    && (pc.CloseBuffer? ==> c.closed && !c.bufferClosed)
    && (pc.UnlockAfterEnd? ==> c.bufferClosed)
    && (pc.UnlockAndReturn? ==> c.closed)
  }

  ghost predicate Safe(c: Channel) {
    && !c.panicked
    && (c.bufferClosed ==> c.closed)
    && (c.mutex.Some? ==> c.mutex.value < |c.handlers|)
    && (c.closed && !c.bufferClosed ==> c.mutex.Some? && c.handlers[c.mutex.value].pc.CloseBuffer?)
    && forall i :: 0 <= i < |c.handlers| ==> HandlerSafe(c, i)
  }

  lemma AdvanceIsSafe(c: Channel, i: nat, rows: seq<int>, readOk: bool)
    requires Safe(c) && Enabled(c, i)
    ensures Safe(Advance(c, i, rows, readOk))
  {
    var c' := Advance(c, i, rows, readOk);
    assert HandlerSafe(c, i);
    forall j | 0 <= j < |c'.handlers| ensures HandlerSafe(c', j) {
      assert HandlerSafe(c, j);
    }
  }

  datatype Event = Publish(msg: Message) | Act(i: nat, rows: seq<int>, readOk: bool) | Receive

  predicate EventEnabled(c: Channel, e: Event) {
    match e
    case Publish(_) => true
    case Act(i, _, _) => Enabled(c, i)
    case Receive => c.buffer != []
  }

  function Apply(c: Channel, e: Event): Channel
    requires EventEnabled(c, e)
  {
    match e
    case Publish(msg) => Spawn(c, msg)
    case Act(i, rows, readOk) => Advance(c, i, rows, readOk)
    case Receive => Take(c)
  }

  ghost predicate ChannelRuns(c: Channel, es: seq<Event>)
    decreases |es|
  {
    es == [] || (EventEnabled(c, es[0]) && ChannelRuns(Apply(c, es[0]), es[1..]))
  }

  ghost function ChannelFinal(c: Channel, es: seq<Event>): Channel
    requires ChannelRuns(c, es)
    decreases |es|
  {
    if es == [] then c else ChannelFinal(Apply(c, es[0]), es[1..])
  }

  lemma ApplyIsSafe(c: Channel, e: Event)
    requires Safe(c) && EventEnabled(c, e)
    ensures Safe(Apply(c, e))
  {
    if e.Act? {
      AdvanceIsSafe(c, e.i, e.rows, e.readOk);
    } else {
      var c' := Apply(c, e);
      forall j | 0 <= j < |c'.handlers| ensures HandlerSafe(c', j) {
        assert j < |c.handlers| ==> HandlerSafe(c, j);
      }
    }
  }

  /**
    Whatever messages arrive and however their handlers interleave, nothing is ever sent on
    the closed buffer and neither channel is closed twice; the mutex excludes.
  */
  lemma {:induction false} NoPanicInAnyRun(c: Channel, es: seq<Event>)
    requires Safe(c) && ChannelRuns(c, es)
    ensures Safe(ChannelFinal(c, es)) && !ChannelFinal(c, es).panicked
    decreases |es|
  {
    if es != [] {
      ApplyIsSafe(c, es[0]);
      NoPanicInAnyRun(Apply(c, es[0]), es[1..]);
    }
  }

  /** The buffer never holds more than 128 rows, and a row is dropped exactly when it holds that many. */
  lemma {:induction false} BufferIsBounded(c: Channel, es: seq<Event>)
    requires Safe(c) && |c.buffer| <= 128 && ChannelRuns(c, es)
    ensures var end := ChannelFinal(c, es);
            && |end.buffer| <= 128
            && forall i: nat, rows, ok :: Enabled(end, i) && end.handlers[i].pc.Send? ==>
                 DropsIffFull(end, Advance(end, i, rows, ok), end.handlers[i].pc.log)
    decreases |es|
  {
    if es == [] {
      forall i: nat, rows, ok | Enabled(c, i) && c.handlers[i].pc.Send?
        ensures DropsIffFull(c, Advance(c, i, rows, ok), c.handlers[i].pc.log)
      {
        assert HandlerSafe(c, i);
      }
    } else {
      ApplyIsSafe(c, es[0]);
      BufferIsBounded(Apply(c, es[0]), es[1..]);
    }
  }

  ghost predicate DropsIffFull(c: Channel, c': Channel, log: int) {
    if |c.buffer| == 128 then c'.buffer == c.buffer && c'.pushed == c.pushed && c'.missed == c.missed + {log}
    else c'.buffer == c.buffer + [log] && c'.pushed == c.pushed + [log] && c'.missed == c.missed
  }

  /** A handler that starts after the end only returns: it never reads the table. */
  lemma {:induction false} StartedLateStaysQuiet(c: Channel, i: nat, es: seq<Event>)
    requires c.closed && i < |c.handlers| && (c.handlers[i].pc.Entry? || c.handlers[i].pc.Returned?)
    requires ChannelRuns(c, es)
    ensures var end := ChannelFinal(c, es);
            end.closed && i < |end.handlers| && (end.handlers[i].pc.Entry? || end.handlers[i].pc.Returned?)
    decreases |es|
  {
    if es != [] {
      StartedLateStaysQuiet(Apply(c, es[0]), i, es[1..]);
    }
  }
}

/**
  The whole protocol: the worker that writes and announces logs
  (coderd/provisionerdserver/provisionerdserver.go), the handlers, and the request that
  subscribes, re-reads the job, reads history and then drains the buffer.
*/
module LogFollow {
  import opened Wrappers
  import opened FollowChannel

  /** Completed: the end is still to be announced. Stopped: nothing more will be written or announced. */
  datatype Writer = Idle | Announcing(lowest: int) | Completed | Ended | Stopped

  datatype Reader =
    | Start
    | Subscribed
    | JobRead(done: bool)
    | Encoding(done: bool, k: nat)
    | Streaming
    | Finished(historyOnly: bool)
    | Aborted

  /**
    `done` is whether the job row says completed. Two fields are history: `firstBatch` is the batch
    that begins with row 1, once it is written, and `late` whether the client subscribed only
    after the end was announced.
  */
  datatype State = State(
    rows: seq<int>,
    firstBatch: seq<int>,
    writer: Writer,
    done: bool,
    late: bool,
    reader: Reader,
    after: int,
    history: seq<int>,
    idsDone: set<int>,
    sent: seq<int>,
    chan: Channel)

  function Init(after: int, rows: seq<int>): State {
    State(rows, [], Idle, false, false, Start, after, [], {}, [], FRESH)
  }

  /**
    Drop: a pending job is cancelled, or fails while it is acquired, and nobody announces its end.
    Die: the worker goes away, its FailJob is refused, or publishing the end fails.
    MarkDone: a cancel that read the job while it was pending completes it under its worker.
    Reopen: a cancel that read the job while it was running undoes its completion.
  */
  datatype Step =
    | Insert(batch: seq<int>)
    | Announce
    | Complete
    | AnnounceEnd
    | Drop
    | Die
    | MarkDone
    | Reopen
    | Handle(i: nat, readOk: bool)
    | Subscribe
    | ReadJob
    | ReadHistory
    | Encode
    | Drain
    | Abort

  predicate Listening(r: Reader) { !r.Start? && !r.Finished? && !r.Aborted? }

  predicate Can(s: State, e: Step) {
    match e
    case Insert(batch) => s.writer.Idle? && batch != [] && batch[0] > 0 && Increasing(s.rows + batch)
    case Announce => s.writer.Announcing?
    case Complete => s.writer.Idle?
    case AnnounceEnd => s.writer.Completed?
    case Drop => s.writer.Idle?
    case Die => s.writer.Idle? || s.writer.Completed?
    case MarkDone => !RowsFixed(s.writer)
    case Reopen => s.done
    case Handle(i, _) => Enabled(s.chan, i)
    case Subscribe => s.reader.Start?
    case ReadJob => s.reader.Subscribed?
    case ReadHistory => s.reader.JobRead?
    case Encode => s.reader.Encoding? && s.reader.k <= |s.history|
    case Drain => s.reader.Streaming? && (s.chan.buffer != [] || s.chan.bufferClosed)
    case Abort => Listening(s.reader)
  }

  function Published(s: State, msg: Message): Channel {
    if Listening(s.reader) then Spawn(s.chan, msg) else s.chan
  }

  predicate RowsFixed(w: Writer) { w.Completed? || w.Ended? || w.Stopped? }

  predicate WriterStep(e: Step) {
    e.Insert? || e.Announce? || e.Complete? || e.AnnounceEnd? || e.Drop? || e.Die? || e.MarkDone? || e.Reopen?
  }

  predicate ReaderStep(e: Step) { !e.Handle? && !WriterStep(e) }

  function WriterNext(s: State, e: Step): State
    requires WriterStep(e) && Can(s, e)
  {
    match e
    case Insert(batch) =>
      s.(rows := s.rows + batch, writer := Announcing(batch[0]),
         firstBatch := if batch[0] == 1 then batch else s.firstBatch)
    case Announce => s.(chan := Published(s, Notice(s.writer.lowest - 1, false)), writer := Idle)
    case Complete => s.(writer := Completed, done := true)
    case AnnounceEnd => s.(chan := Published(s, Notice(0, true)), writer := Ended)
    case Drop => s.(writer := Stopped, done := true)
    case Die => s.(writer := Stopped)
    case MarkDone => s.(done := true)
    case Reopen => s.(done := false)
  }

  function ReaderNext(s: State, e: Step): State
    requires ReaderStep(e) && Can(s, e)
  {
    match e
    case Subscribe => s.(reader := Subscribed, late := s.writer.Ended?)
    case ReadJob => s.(reader := JobRead(s.done))
    case ReadHistory =>
      s.(history := RowsBetween(s.rows, s.after, 0), reader := Encoding(s.reader.done, 0))
    case Encode =>
      var k := s.reader.k;
      if k < |s.history| then
        var log := s.history[k];
        s.(idsDone := s.idsDone + {log}, sent := s.sent + [log], reader := Encoding(s.reader.done, k + 1))
      else s.(reader := if s.reader.done then Finished(true) else Streaming)
    case Drain =>
      if s.chan.buffer == [] then s.(reader := Finished(false))
      else
        var log := s.chan.buffer[0];
        var taken := s.(chan := Take(s.chan));
        if log in s.idsDone then taken else taken.(sent := s.sent + [log])
    case Abort => s.(reader := Aborted)
  }

  function Next(s: State, e: Step): State
    requires Can(s, e)
  {
    if e.Handle? then s.(chan := Advance(s.chan, e.i, s.rows, e.readOk))
    else if WriterStep(e) then WriterNext(s, e)
    else ReaderNext(s, e)
  }

  ghost predicate Runs(s: State, es: seq<Step>)
    decreases |es|
  {
    es == [] || (Can(s, es[0]) && Runs(Next(s, es[0]), es[1..]))
  }

  ghost function Final(s: State, es: seq<Step>): State
    requires Runs(s, es)
    decreases |es|
  {
    if es == [] then s else Final(Next(s, es[0]), es[1..])
  }

  // ---- what steps leave alone ----

  lemma WriterFrame(s: State, e: Step)
    requires WriterStep(e) && Can(s, e)
    ensures var s' := WriterNext(s, e);
            && s'.reader == s.reader && s'.late == s.late && s'.after == s.after
            && s'.history == s.history && s'.sent == s.sent
            && s'.chan == s.chan.(handlers := s'.chan.handlers)
            && (!e.Announce? && !e.AnnounceEnd? ==> s'.chan == s.chan)
            && (!e.Insert? ==> s'.rows == s.rows && s'.firstBatch == s.firstBatch)
            && (!e.Insert? ==> s'.writer == s.writer || !s'.writer.Announcing?)
            && (RowsFixed(s.writer) ==> RowsFixed(s'.writer) && !e.Insert?)
  {
  }

  lemma ReaderFrame(s: State, e: Step)
    requires ReaderStep(e) && Can(s, e)
    ensures var s' := ReaderNext(s, e);
            && s'.chan == s.chan.(buffer := s'.chan.buffer)
            && s'.rows == s.rows && s'.firstBatch == s.firstBatch && s'.writer == s.writer
            && s'.done == s.done && s'.after == s.after
            && (!e.ReadHistory? ==> s'.history == s.history)
  {
    if e.Drain? {
      DrainFrame(s);
    }
  }

  lemma DrainFrame(s: State)
    requires Can(s, Drain)
    ensures var s' := ReaderNext(s, Drain);
            s' == s.(reader := s'.reader, sent := s'.sent, chan := s.chan.(buffer := s'.chan.buffer))
  {
    if s.chan.buffer != [] {
      assert Take(s.chan) == s.chan.(buffer := s.chan.buffer[1..]);
    }
  }

  lemma ReaderProgress(s: State, e: Step)
    requires ReaderStep(e) && Can(s, e)
    ensures var s' := ReaderNext(s, e);
            && (e.Subscribe? ==> s'.late == s.writer.Ended?)
            && (!e.Subscribe? ==> s'.late == s.late && (Listening(s'.reader) ==> Listening(s.reader)))
            && (s'.reader.Finished? && !s'.reader.historyOnly ==> s.chan.bufferClosed && s'.chan.buffer == [])
  {
  }

  // ---- what one handler action does ----

  /** Row x has been read by the handler and not yet offered to the buffer. */
  ghost predicate Carries(pc: Pc, x: int) {
    match pc
    case LockToSend(log, rest) => x == log || x in rest
    case CheckToSend(log, rest) => x == log || x in rest
    case Send(log, rest) => x == log || x in rest
    case UnlockAfterSend(rest) => x in rest
    case _ => false
  }

  /** The rows a notice makes its handler read. */
  ghost predicate Asks(msg: Message, x: int) {
    msg.Notice? && msg.createdAfter != 0 && (x > msg.createdAfter || x < 0)
  }

  ghost predicate Moved(c: Channel, c': Channel, i: nat, rows: seq<int>) {
    && i < |c.handlers| == |c'.handlers|
    && (forall j :: 0 <= j < |c.handlers| && j != i ==> c'.handlers[j] == c.handlers[j])
    && c'.handlers[i].msg == c.handlers[i].msg
    && (forall x :: Carries(c'.handlers[i].pc, x) ==>
          Carries(c.handlers[i].pc, x) || (x in rows && Asks(c.handlers[i].msg, x)))
    && c.missed <= c'.missed
    && (c'.closed <==> c.closed || c.handlers[i].pc.CloseClosed?)
    && ((c'.buffer == c.buffer && c'.pushed == c.pushed)
        || (exists x :: Carries(c.handlers[i].pc, x) && c'.buffer == c.buffer + [x] && c'.pushed == c.pushed + [x]))
  }

  lemma NextCarries(c: Channel, i: nat, rows: seq<int>, readOk: bool, x: int)
    requires Enabled(c, i) && Carries(NextPc(c, i, rows, readOk), x)
    ensures Carries(c.handlers[i].pc, x) || (x in rows && Asks(c.handlers[i].msg, x))
  {
    var h := c.handlers[i];
    if h.pc.Query? {
      AfterSendsCarries(h.msg, LogsFor(h, rows), x);
    } else if h.pc.UnlockAfterSend? {
      AfterSendsCarries(h.msg, h.pc.rest, x);
    }
  }

  lemma AfterSendsCarries(msg: Message, rest: seq<int>, x: int)
    ensures Carries(AfterSends(msg, rest), x) <==> x in rest
  {
    assert rest != [] ==> rest == [rest[0]] + rest[1..];
  }

  lemma AdvanceMoves(c: Channel, i: nat, rows: seq<int>, readOk: bool)
    requires Enabled(c, i)
    ensures Moved(c, Advance(c, i, rows, readOk), i, rows)
  {
    forall x | Carries(NextPc(c, i, rows, readOk), x)
      ensures Carries(c.handlers[i].pc, x) || (x in rows && Asks(c.handlers[i].msg, x))
    {
      NextCarries(c, i, rows, readOk, x);
    }
    EffectPushes(c, i, rows, readOk);
  }

  lemma EffectPushes(c: Channel, i: nat, rows: seq<int>, readOk: bool)
    requires Enabled(c, i)
    ensures var c' := Effect(c, i, rows, readOk);
            || (c'.buffer == c.buffer && c'.pushed == c.pushed)
            || (exists x :: Carries(c.handlers[i].pc, x) && c'.buffer == c.buffer + [x] && c'.pushed == c.pushed + [x])
  {
    if c.handlers[i].pc.Send? {
      assert Carries(c.handlers[i].pc, c.handlers[i].pc.log);
    }
  }

  // ---- what holds in every run ----

  ghost predicate Genuine(s: State) {
    && (forall x :: x in s.history ==> x in s.rows)
    && (forall x :: x in s.chan.pushed ==> x in s.rows)
    && (forall i, x :: 0 <= i < |s.chan.handlers| && Carries(s.chan.handlers[i].pc, x) ==> x in s.rows)
  }

  /** Rows reach the client only from history or through the buffer. */
  ghost predicate Flow(s: State) {
    && (forall x :: x in s.chan.buffer ==> x in s.chan.pushed)
    && (forall x :: x in s.sent ==> x in s.history || x in s.chan.pushed)
    && (forall x :: x in s.chan.pushed ==> x in s.chan.buffer || x in s.sent || s.reader.Aborted?)
  }

  /** What has been encoded: the history so far, then only logs that are not in it. */
  ghost predicate Deduplicated(s: State) {
    && Increasing(s.history)
    && match s.reader
       case Encoding(_, k) =>
         k <= |s.history| && s.sent == s.history[..k] && s.idsDone == (set x | x in s.history[..k])
       case Streaming => HistoryThenOthers(s)
       case Finished(historyOnly) => HistoryThenOthers(s) && (historyOnly ==> s.sent == s.history)
       case Aborted => true
       case _ => s.sent == [] && s.idsDone == {}
  }

  ghost predicate HistoryThenOthers(s: State) {
    && s.idsDone == (set x | x in s.history)
    && s.history <= s.sent
    && forall j :: |s.history| <= j < |s.sent| ==> s.sent[j] !in s.history
  }

  ghost predicate Basic(s: State) {
    Safe(s.chan) && Increasing(s.rows) && Genuine(s) && Flow(s) && Deduplicated(s)
  }

  lemma MovedKeepsBasic(s: State, c': Channel, i: nat)
    requires Basic(s) && Safe(c') && Moved(s.chan, c', i, s.rows)
    ensures Basic(s.(chan := c'))
  {
    forall j, x | 0 <= j < |c'.handlers| && Carries(c'.handlers[j].pc, x) ensures x in s.rows {
      assert Carries(s.chan.handlers[j].pc, x) || x in s.rows;
    }
  }

  lemma SameRowsAndReader(s: State, s': State)
    requires Basic(s) && Safe(s'.chan) && s' == s.(writer := s'.writer, done := s'.done, chan := s'.chan)
    requires s'.chan.buffer == s.chan.buffer && s'.chan.pushed == s.chan.pushed
    requires forall i, x :: 0 <= i < |s'.chan.handlers| && Carries(s'.chan.handlers[i].pc, x) ==> x in s.rows
    ensures Basic(s')
  {
  }

  lemma PublishKeepsBasic(s: State, s': State, msg: Message)
    requires Basic(s) && s' == s.(writer := s'.writer, chan := Published(s, msg))
    ensures Basic(s')
  {
    ApplyIsSafe(s.chan, Publish(msg));
    forall i, x | 0 <= i < |s'.chan.handlers| && Carries(s'.chan.handlers[i].pc, x) ensures x in s.rows {
      assert i < |s.chan.handlers| ==> s'.chan.handlers[i] == s.chan.handlers[i];
    }
    SameRowsAndReader(s, s');
  }

  lemma InsertKeepsBasic(s: State, batch: seq<int>)
    requires Basic(s) && Can(s, Insert(batch))
    ensures Basic(WriterNext(s, Insert(batch)))
  {
  }

  lemma WriterKeepsBasic(s: State, e: Step)
    requires Basic(s) && WriterStep(e) && Can(s, e)
    ensures Basic(WriterNext(s, e))
  {
    var s' := WriterNext(s, e);
    if e.Insert? {
      InsertKeepsBasic(s, e.batch);
    } else if e.Announce? {
      PublishKeepsBasic(s, s', Notice(s.writer.lowest - 1, false));
    } else if e.AnnounceEnd? {
      PublishKeepsBasic(s, s', Notice(0, true));
    } else {
      SameRowsAndReader(s, s');
    }
  }

  lemma EncodeKeepsBasic(s: State)
    requires Basic(s) && Can(s, Encode)
    ensures Basic(Next(s, Encode))
  {
    var k := s.reader.k;
    if k < |s.history| {
      assert s.history[..k + 1] == s.history[..k] + [s.history[k]];
    } else {
      assert s.history[..k] == s.history;
    }
  }

  lemma DrainKeepsBasic(s: State)
    requires Basic(s) && Can(s, Drain)
    ensures Basic(Next(s, Drain))
  {
    if s.chan.buffer != [] {
      ApplyIsSafe(s.chan, Receive);
      var log := s.chan.buffer[0];
      assert forall x :: x in s.chan.buffer ==> x == log || x in s.chan.buffer[1..];
      assert log in s.idsDone ==> log in s.history && log in s.sent;
    }
  }

  lemma ReaderKeepsBasic(s: State, e: Step)
    requires Basic(s) && Can(s, e)
    requires e.Subscribe? || e.ReadJob? || e.ReadHistory? || e.Abort?
    ensures Basic(Next(s, e))
  {
    if e.ReadHistory? {
      RowsAscending(s.rows, s.after, 0);
    }
  }

  lemma StepKeepsBasic(s: State, e: Step)
    requires Basic(s) && Can(s, e)
    ensures Basic(Next(s, e))
  {
    if e.Handle? {
      AdvanceIsSafe(s.chan, e.i, s.rows, e.readOk);
      AdvanceMoves(s.chan, e.i, s.rows, e.readOk);
      MovedKeepsBasic(s, Advance(s.chan, e.i, s.rows, e.readOk), e.i);
    } else if WriterStep(e) {
      WriterKeepsBasic(s, e);
    } else if e.Encode? {
      EncodeKeepsBasic(s);
    } else if e.Drain? {
      DrainKeepsBasic(s);
    } else {
      ReaderKeepsBasic(s, e);
    }
  }

  lemma {:induction false} BasicInEveryRun(s: State, es: seq<Step>)
    requires Basic(s) && Runs(s, es)
    ensures Basic(Final(s, es))
    decreases |es|
  {
    if es != [] {
      StepKeepsBasic(s, es[0]);
      BasicInEveryRun(Next(s, es[0]), es[1..]);
    }
  }

  lemma AppearsOnceBetween(left: seq<int>, x: int, right: seq<int>)
    requires x !in left && x !in right
    ensures multiset(left + [x] + right)[x] == 1
  {
  }

  lemma AppearsOnce(front: seq<int>, all: seq<int>, x: int)
    requires Increasing(front) && front <= all && x in front
    requires forall j :: |front| <= j < |all| ==> all[j] !in front
    ensures multiset(all)[x] == 1
  {
    var i :| 0 <= i < |front| && front[i] == x;
    var left, right := all[..i], all[i + 1..];
    forall k | 0 <= k < |left| ensures left[k] != x {
      assert left[k] == front[k];
    }
    forall k | 0 <= k < |right| ensures right[k] != x {
      assert right[k] == all[i + 1 + k];
    }
    AppearsOnceBetween(left, x, right);
    assert all == left + [x] + right;
  }

  /**
    However the run interleaves, the client of a finished request has received every row of
    the historical read exactly once, and only rows of the job.
  */
  lemma HistoryExactlyOnce(after: int, rows: seq<int>, es: seq<Step>, x: int)
    requires Increasing(rows) && Runs(Init(after, rows), es)
    ensures var end := Final(Init(after, rows), es);
            && !end.chan.panicked
            && (end.reader.Finished? && x in end.history ==> multiset(end.sent)[x] == 1)
            && (x in end.sent ==> x in end.rows)
  {
    var end := Final(Init(after, rows), es);
    BasicInEveryRun(Init(after, rows), es);
    if end.reader.Finished? && x in end.history {
      AppearsOnce(end.history, end.sent, x);
    }
  }

  // ---- the end-of-logs message, in every run ----

  ghost predicate Sending(pc: Pc) { pc.LockToSend? || pc.CheckToSend? || pc.Send? || pc.UnlockAfterSend? }

  ghost predicate Ending(pc: Pc) {
    pc.LockToEnd? || pc.CheckToEnd? || pc.CloseClosed? || pc.CloseBuffer? || pc.UnlockAfterEnd?
  }

  /** The end of logs is announced last and with id zero; only its handler closes. */
  ghost predicate Shaped(h: Handler, last: bool, w: Writer) {
    && h.msg.Notice?
    && (h.msg.endOfLogs ==> last && w.Ended? && h.msg.createdAfter == 0 && !Sending(h.pc))
    && (!h.msg.endOfLogs ==> !Ending(h.pc))
  }

  /** Once the end is announced, a client that waits for it has a handler bringing it. */
  ghost predicate EndOnItsWay(s: State) {
    s.chan.bufferClosed ||
    exists i :: 0 <= i < |s.chan.handlers| && s.chan.handlers[i].msg.Notice?
             && s.chan.handlers[i].msg.endOfLogs && !s.chan.handlers[i].pc.Returned?
  }

  ghost predicate Ends(s: State) {
    && (forall i :: 0 <= i < |s.chan.handlers| ==>
          Shaped(s.chan.handlers[i], i == |s.chan.handlers| - 1, s.writer))
    && (s.chan.closed ==> s.writer.Ended?)
    && (s.writer.Ended? && Listening(s.reader) && !s.late ==> EndOnItsWay(s))
    && (s.reader.Finished? && !s.reader.historyOnly ==> s.chan.closed && s.chan.buffer == [])
  }

  lemma AdvanceKeepsShape(c: Channel, i: nat, rows: seq<int>, readOk: bool, last: bool, w: Writer)
    requires Enabled(c, i) && Shaped(c.handlers[i], last, w)
    ensures Shaped(c.handlers[i].(pc := NextPc(c, i, rows, readOk)), last, w)
  {
  }

  /** Between the two closes it is the end's handler that holds the mutex. */
  lemma EndHandlerCloses(s: State, i: nat)
    requires Safe(s.chan) && Ends(s) && i < |s.chan.handlers|
    requires s.chan.handlers[i].msg.Notice? && s.chan.handlers[i].msg.endOfLogs
    ensures s.chan.closed && !s.chan.bufferClosed ==> s.chan.handlers[i].pc.CloseBuffer?
  {
    var c := s.chan;
    assert Shaped(c.handlers[i], i == |c.handlers| - 1, s.writer);
    if c.closed && !c.bufferClosed {
      var j := c.mutex.value;
      assert Shaped(c.handlers[j], j == |c.handlers| - 1, s.writer);
    }
  }

  lemma HandlerOfEndReturns(s: State, i: nat, readOk: bool)
    requires Safe(s.chan) && Ends(s) && Enabled(s.chan, i)
    requires s.chan.handlers[i].msg.Notice? && s.chan.handlers[i].msg.endOfLogs
    requires Advance(s.chan, i, s.rows, readOk).handlers[i].pc.Returned?
    ensures EndOnItsWay(s.(chan := Advance(s.chan, i, s.rows, readOk)))
  {
    var c := s.chan;
    assert HandlerSafe(c, i);
    assert Shaped(c.handlers[i], i == |c.handlers| - 1, s.writer);
    EndHandlerCloses(s, i);
  }

  lemma HandleKeepsEnds(s: State, i: nat, readOk: bool)
    requires Basic(s) && Ends(s) && Enabled(s.chan, i)
    ensures Ends(Next(s, Handle(i, readOk)))
  {
    var c := s.chan;
    var c' := Advance(c, i, s.rows, readOk);
    var s' := s.(chan := c');
    AdvanceMoves(c, i, s.rows, readOk);
    assert Shaped(c.handlers[i], i == |c.handlers| - 1, s.writer);
    AdvanceKeepsShape(c, i, s.rows, readOk, i == |c.handlers| - 1, s.writer);
    forall j | 0 <= j < |c'.handlers| ensures Shaped(c'.handlers[j], j == |c'.handlers| - 1, s.writer) {
      assert Shaped(c.handlers[j], j == |c.handlers| - 1, s.writer);
    }
    assert HandlerSafe(c, i);
    assert c.closed ==> c'.buffer == c.buffer;
    if EndOnItsWay(s) {
      HandleKeepsEndComing(s, i, readOk);
    }
  }

  lemma HandleKeepsEndComing(s: State, i: nat, readOk: bool)
    requires Basic(s) && Ends(s) && Enabled(s.chan, i) && EndOnItsWay(s)
    ensures EndOnItsWay(s.(chan := Advance(s.chan, i, s.rows, readOk)))
  {
    var c := s.chan;
    var c' := Advance(c, i, s.rows, readOk);
    AdvanceMoves(c, i, s.rows, readOk);
    assert c.bufferClosed ==> c'.bufferClosed;
    if !c.bufferClosed {
      var j :| 0 <= j < |c.handlers| && c.handlers[j].msg.Notice? && c.handlers[j].msg.endOfLogs
            && !c.handlers[j].pc.Returned?;
      if j != i {
        assert c'.handlers[j] == c.handlers[j];
      } else if c'.handlers[i].pc.Returned? {
        HandlerOfEndReturns(s, i, readOk);
      } else {
        assert c'.handlers[i].msg == c.handlers[i].msg;
      }
    }
  }

  lemma PublishKeepsShape(s: State, msg: Message, w: Writer)
    requires Ends(s) && !s.writer.Ended? && msg.Notice?
    requires msg.endOfLogs ==> w.Ended? && msg.createdAfter == 0
    ensures var hs := Spawn(s.chan, msg).handlers;
            forall i :: 0 <= i < |hs| ==> Shaped(hs[i], i == |hs| - 1, w)
  {
    var hs := Spawn(s.chan, msg).handlers;
    forall i | 0 <= i < |hs| ensures Shaped(hs[i], i == |hs| - 1, w) {
      assert i < |hs| - 1 ==> Shaped(s.chan.handlers[i], i == |s.chan.handlers| - 1, s.writer);
    }
  }

  lemma WriterKeepsEnds(s: State, e: Step)
    requires Basic(s) && Ends(s) && Can(s, e)
    requires WriterStep(e)
    ensures Ends(Next(s, e))
  {
    var s' := Next(s, e);
    var n := |s.chan.handlers|;
    assert forall i :: 0 <= i < n ==> Shaped(s.chan.handlers[i], i == n - 1, s.writer);
    if e.Announce? {
      PublishKeepsShape(s, Notice(s.writer.lowest - 1, false), Idle);
    } else if e.AnnounceEnd? {
      PublishKeepsShape(s, Notice(0, true), Ended);
      if Listening(s.reader) {
        assert s'.chan.handlers[n] == Handler(Notice(0, true), Entry);
      }
    }
  }

  lemma ReaderKeepsEnds(s: State, e: Step)
    requires Basic(s) && Ends(s) && ReaderStep(e) && Can(s, e)
    ensures Ends(ReaderNext(s, e))
  {
    var s' := ReaderNext(s, e);
    ReaderFrame(s, e);
    ReaderProgress(s, e);
    var hs := s.chan.handlers;
    assert forall i :: 0 <= i < |hs| ==> Shaped(hs[i], i == |hs| - 1, s'.writer);
    if Listening(s'.reader) && s.writer.Ended? && !s'.late {
      assert Listening(s.reader) && EndOnItsWay(s);
    }
  }

  lemma StepKeepsEnds(s: State, e: Step)
    requires Basic(s) && Ends(s) && Can(s, e)
    ensures Ends(Next(s, e))
  {
    if e.Handle? {
      HandleKeepsEnds(s, e.i, e.readOk);
    } else if WriterStep(e) {
      WriterKeepsEnds(s, e);
    } else {
      ReaderKeepsEnds(s, e);
    }
  }

  // ---- the batch announced with id zero, in every run ----

  ghost predicate NoticeOf(s: State, msg: Message) {
    msg.Notice? && !msg.endOfLogs ==>
      && msg.createdAfter >= 0 && msg.createdAfter + 1 in s.rows
      && (msg.createdAfter != 0 ==> forall x :: x in s.firstBatch ==> x <= msg.createdAfter)
  }

  /** No handler ever reads a row of the batch that begins with row 1. */
  ghost predicate FirstSkipped(s: State) {
    && (forall x :: x in s.firstBatch ==> 1 <= x && x in s.rows && x !in s.chan.pushed)
    && (forall i :: 0 <= i < |s.chan.handlers| ==> NoticeOf(s, s.chan.handlers[i].msg))
    && (forall i, x :: 0 <= i < |s.chan.handlers| && Carries(s.chan.handlers[i].pc, x) ==> x !in s.firstBatch)
    && (s.writer.Announcing? ==> AnnouncingBatch(s))
  }

  ghost predicate AnnouncingBatch(s: State)
    requires s.writer.Announcing?
  {
    var l := s.writer.lowest;
    && l >= 1 && l in s.rows
    && (l == 1 ==> forall r :: r in s.rows && r >= 1 ==> r in s.firstBatch)
    && (l > 1 ==> forall x :: x in s.firstBatch ==> x < l)
  }

  lemma BatchIsAbove(rows: seq<int>, batch: seq<int>)
    requires Increasing(rows + batch) && batch != []
    ensures forall x :: x in rows ==> x < batch[0]
    ensures forall x :: x in batch ==> batch[0] <= x
    ensures forall x :: x in rows + batch <==> x in rows || x in batch
  {
    var all := rows + batch;
    forall x | x in rows ensures x < batch[0] {
      var k :| 0 <= k < |rows| && rows[k] == x;
      assert all[k] == x && all[|rows|] == batch[0];
    }
    forall x | x in batch ensures batch[0] <= x {
      var k :| 0 <= k < |batch| && batch[k] == x;
      assert all[|rows| + k] == x && all[|rows|] == batch[0];
    }
  }

  lemma InsertKeepsFirstSkipped(s: State, batch: seq<int>)
    requires Basic(s) && Ends(s) && FirstSkipped(s) && Can(s, Insert(batch))
    ensures FirstSkipped(Next(s, Insert(batch)))
  {
    var s' := Next(s, Insert(batch));
    BatchIsAbove(s.rows, batch);
    forall i | 0 <= i < |s.chan.handlers| ensures NoticeOf(s', s.chan.handlers[i].msg) {
      assert NoticeOf(s, s.chan.handlers[i].msg);
    }
    assert batch[0] in batch;
  }

  lemma PublishKeepsFirstSkipped(s: State, s': State, msg: Message)
    requires FirstSkipped(s) && NoticeOf(s, msg)
    requires s' == s.(chan := Spawn(s.chan, msg), writer := s'.writer) && !s'.writer.Announcing?
    ensures FirstSkipped(s')
  {
    var n := |s.chan.handlers|;
    forall i | 0 <= i < |s'.chan.handlers| ensures NoticeOf(s', s'.chan.handlers[i].msg) {
      assert i < n ==> NoticeOf(s, s.chan.handlers[i].msg);
      assert NoticeOf(s, msg);
    }
    forall i, x | 0 <= i < |s'.chan.handlers| && Carries(s'.chan.handlers[i].pc, x) ensures x !in s.firstBatch {
      assert i < n ==> s'.chan.handlers[i] == s.chan.handlers[i];
    }
  }

  lemma MovedKeepsFirstSkipped(s: State, c': Channel, i: nat)
    requires Ends(s) && FirstSkipped(s) && Moved(s.chan, c', i, s.rows)
    ensures FirstSkipped(s.(chan := c'))
  {
    var s' := s.(chan := c');
    assert NoticeOf(s, s.chan.handlers[i].msg);
    assert Shaped(s.chan.handlers[i], i == |s.chan.handlers| - 1, s.writer);
    forall j | 0 <= j < |c'.handlers| ensures NoticeOf(s', c'.handlers[j].msg) {
      assert NoticeOf(s, s.chan.handlers[j].msg);
    }
    forall j, x | 0 <= j < |c'.handlers| && Carries(c'.handlers[j].pc, x) ensures x !in s.firstBatch {
      assert Carries(s.chan.handlers[j].pc, x) || (j == i && Asks(s.chan.handlers[i].msg, x));
    }
  }

  lemma WriterKeepsFirstSkipped(s: State, e: Step)
    requires Basic(s) && Ends(s) && FirstSkipped(s) && WriterStep(e) && Can(s, e)
    ensures FirstSkipped(WriterNext(s, e))
  {
    var s' := WriterNext(s, e);
    WriterFrame(s, e);
    if e.Insert? {
      InsertKeepsFirstSkipped(s, e.batch);
    } else if e.Announce? && Listening(s.reader) {
      PublishKeepsFirstSkipped(s, s', Notice(s.writer.lowest - 1, false));
    } else if e.AnnounceEnd? && Listening(s.reader) {
      PublishKeepsFirstSkipped(s, s', Notice(0, true));
    } else {
      OnlyTheRest(s, s');
    }
  }

  lemma StepKeepsFirstSkipped(s: State, e: Step)
    requires Basic(s) && Ends(s) && FirstSkipped(s) && Can(s, e)
    ensures FirstSkipped(Next(s, e))
  {
    if e.Handle? {
      AdvanceMoves(s.chan, e.i, s.rows, e.readOk);
      MovedKeepsFirstSkipped(s, Advance(s.chan, e.i, s.rows, e.readOk), e.i);
    } else if WriterStep(e) {
      WriterKeepsFirstSkipped(s, e);
    } else {
      ReaderFrame(s, e);
      OnlyTheRest(s, ReaderNext(s, e));
    }
  }

  lemma OnlyTheRest(s: State, s': State)
    requires FirstSkipped(s) && s'.rows == s.rows && s'.firstBatch == s.firstBatch
    requires s'.chan.handlers == s.chan.handlers && s'.chan.pushed == s.chan.pushed
    requires s'.writer == s.writer || !s'.writer.Announcing?
    ensures FirstSkipped(s')
  {
    forall i | 0 <= i < |s.chan.handlers| ensures NoticeOf(s', s.chan.handlers[i].msg) {
      assert NoticeOf(s, s.chan.handlers[i].msg);
    }
  }

  // ---- until the channel closes every row is accounted for, in every run ----

  /** Handler h will still offer row r to the buffer, or record it as missed. */
  ghost predicate Owes(h: Handler, r: int) {
    if h.pc.Entry? || h.pc.Query? then
      h.msg.Notice? && !h.msg.endOfLogs && h.msg.createdAfter != 0 && h.msg.createdAfter < r
    else Carries(h.pc, r)
  }

  ghost predicate SomeoneOwes(c: Channel, r: int) {
    exists i :: 0 <= i < |c.handlers| && Owes(c.handlers[i], r)
  }

  ghost predicate Due(s: State, r: int) {
    || r in s.history
    || r in s.chan.pushed
    || r in s.chan.missed
    || r in s.firstBatch
    || (s.writer.Announcing? && s.writer.lowest <= r)
    || SomeoneOwes(s.chan, r)
  }

  /** The client has read its history and goes on to stream, or has streamed to the end. */
  ghost predicate Streams(r: Reader) {
    (r.Encoding? && !r.done) || r.Streaming? || (r.Finished? && !r.historyOnly)
  }

  ghost predicate Accounted(s: State) {
    Streams(s.reader) && !s.chan.closed ==> forall r :: r in s.rows && r > s.after ==> Due(s, r)
  }

  ghost predicate Inv(s: State) { Basic(s) && Ends(s) && FirstSkipped(s) && Accounted(s) }

  lemma AdvanceSettles(c: Channel, i: nat, rows: seq<int>, readOk: bool, r: int)
    requires Safe(c) && Enabled(c, i) && !c.closed && r in rows && Owes(c.handlers[i], r)
    ensures var c' := Advance(c, i, rows, readOk);
            Owes(c'.handlers[i], r) || r in c'.pushed || r in c'.missed
  {
    assert HandlerSafe(c, i);
    var h := c.handlers[i];
    assert h.pc.Query? ==> r in LogsFor(h, rows);
  }

  lemma HandleKeepsDue(s: State, i: nat, readOk: bool, r: int)
    requires Safe(s.chan) && !s.chan.closed && Enabled(s.chan, i) && r in s.rows && Due(s, r)
    ensures Due(Next(s, Handle(i, readOk)), r)
  {
    var s' := Next(s, Handle(i, readOk));
    AdvanceMoves(s.chan, i, s.rows, readOk);
    if j :| 0 <= j < |s.chan.handlers| && Owes(s.chan.handlers[j], r) {
      if j == i {
        AdvanceSettles(s.chan, i, s.rows, readOk, r);
      } else {
        assert s'.chan.handlers[j] == s.chan.handlers[j];
      }
    }
  }

  lemma PublishKeepsDue(s: State, s': State, msg: Message, r: int)
    requires FirstSkipped(s) && r in s.rows && Due(s, r)
    requires s'.chan == Spawn(s.chan, msg) && s'.history == s.history && s'.firstBatch == s.firstBatch
    requires s.writer.Announcing? ==> msg == Notice(s.writer.lowest - 1, false)
    ensures Due(s', r)
  {
    var n := |s.chan.handlers|;
    if s.writer.Announcing? && s.writer.lowest <= r {
      assert s.writer.lowest != 1 ==> Owes(s'.chan.handlers[n], r);
    }
    if j :| 0 <= j < n && Owes(s.chan.handlers[j], r) {
      assert s'.chan.handlers[j] == s.chan.handlers[j];
    }
  }

  lemma SameIsDue(s: State, s': State, r: int)
    requires Due(s, r) && s'.history == s.history && s'.firstBatch == s.firstBatch
    requires s'.chan.handlers == s.chan.handlers && s'.chan.pushed == s.chan.pushed && s'.chan.missed == s.chan.missed
    requires s'.writer == s.writer || !s.writer.Announcing?
    ensures Due(s', r)
  {
    if SomeoneOwes(s.chan, r) {
      assert SomeoneOwes(s'.chan, r);
    }
  }

  lemma WriterKeepsDue(s: State, e: Step, r: int)
    requires Basic(s) && FirstSkipped(s) && WriterStep(e) && Can(s, e) && Listening(s.reader)
    requires r in s.rows ==> Due(s, r)
    requires r in WriterNext(s, e).rows
    ensures Due(WriterNext(s, e), r)
  {
    var s' := WriterNext(s, e);
    WriterFrame(s, e);
    if e.Insert? {
      InsertKeepsDue(s, e.batch, r);
    } else if e.Announce? {
      PublishKeepsDue(s, s', Notice(s.writer.lowest - 1, false), r);
    } else if e.AnnounceEnd? {
      PublishKeepsDue(s, s', Notice(0, true), r);
    } else {
      assert s.writer.Announcing? ==> s'.writer == s.writer;
      SameIsDue(s, s', r);
    }
  }

  lemma InsertKeepsDue(s: State, batch: seq<int>, r: int)
    requires Basic(s) && FirstSkipped(s) && Can(s, Insert(batch))
    requires r in s.rows ==> Due(s, r)
    requires r in s.rows + batch
    ensures Due(WriterNext(s, Insert(batch)), r)
  {
    BatchIsAbove(s.rows, batch);
    var s' := WriterNext(s, Insert(batch));
    if r !in batch && r in s.firstBatch {
      assert batch[0] in batch && r < batch[0];
    }
    assert SomeoneOwes(s.chan, r) ==> SomeoneOwes(s'.chan, r);
  }

  lemma ReaderKeepsDue(s: State, e: Step, r: int)
    requires Accounted(s) && ReaderStep(e) && Can(s, e) && r in s.rows && r > s.after
    requires Streams(ReaderNext(s, e).reader) && !s.chan.closed
    ensures Due(ReaderNext(s, e), r)
  {
    ReaderFrame(s, e);
    if !e.ReadHistory? {
      assert Streams(s.reader);
      SameIsDue(s, ReaderNext(s, e), r);
    }
  }

  lemma StepKeepsDue(s: State, e: Step, r: int)
    requires Inv(s) && Can(s, e) && Streams(Next(s, e).reader) && !Next(s, e).chan.closed
    requires r in Next(s, e).rows && r > s.after
    ensures Due(Next(s, e), r)
  {
    if e.Handle? {
      AdvanceMoves(s.chan, e.i, s.rows, e.readOk);
      HandleKeepsDue(s, e.i, e.readOk, r);
    } else if WriterStep(e) {
      WriterFrame(s, e);
      WriterKeepsDue(s, e, r);
    } else {
      ReaderFrame(s, e);
      ReaderKeepsDue(s, e, r);
    }
  }

  lemma StepKeepsInv(s: State, e: Step)
    requires Inv(s) && Can(s, e)
    ensures Inv(Next(s, e)) && Next(s, e).after == s.after
  {
    StepKeepsBasic(s, e);
    StepKeepsEnds(s, e);
    StepKeepsFirstSkipped(s, e);
    var s' := Next(s, e);
    if Streams(s'.reader) && !s'.chan.closed {
      forall r | r in s'.rows && r > s'.after ensures Due(s', r) {
        StepKeepsDue(s, e, r);
      }
    }
  }

  lemma {:induction false} InvInEveryRun(s: State, es: seq<Step>)
    requires Inv(s) && Runs(s, es)
    ensures Inv(Final(s, es)) && Final(s, es).after == s.after
    decreases |es|
  {
    if es != [] {
      StepKeepsInv(s, es[0]);
      InvInEveryRun(Next(s, es[0]), es[1..]);
    }
  }

  // ---- which rows a finished client lacks, in every run ----

  ghost predicate Missing(s: State, r: int) { r in s.rows && r > s.after && r !in s.history }

  /** The client found the job completed and will be sent its history only. */
  ghost predicate ReadAsDone(r: Reader) { (r.Encoding? && r.done) || (r.Finished? && r.historyOnly) }

  ghost predicate Lost(s: State, r: int) {
    Missing(s, r) && (ReadAsDone(s.reader) || (s.chan.closed && Streams(s.reader) && r !in s.chan.pushed))
  }

  /** The channel closes after the history was read and before r was buffered. */
  ghost predicate ClosesEarly(s: State, e: Step, r: int)
    requires Can(s, e)
  {
    && e.Handle? && s.chan.handlers[e.i].pc.CloseClosed?
    && Streams(s.reader) && Missing(s, r) && r !in s.chan.pushed
  }

  /** The worker writes r after the client read the history of a job already marked completed. */
  ghost predicate WritesLate(s: State, e: Step, r: int)
    requires Can(s, e)
  {
    e.Insert? && r in e.batch && r > s.after && ReadAsDone(s.reader)
  }

  /** The steps that lose row r. */
  ghost predicate Loses(s: State, e: Step, r: int)
    requires Can(s, e)
  {
    ClosesEarly(s, e, r) || WritesLate(s, e, r)
  }

  ghost predicate LosesIn(s: State, es: seq<Step>, r: int)
    requires Runs(s, es)
    decreases |es|
  {
    es != [] && (Loses(s, es[0], r) || LosesIn(Next(s, es[0]), es[1..], r))
  }

  lemma HandleLosesIff(s: State, i: nat, readOk: bool, r: int)
    requires Inv(s) && Enabled(s.chan, i)
    ensures var e := Handle(i, readOk);
            Lost(Next(s, e), r) <==> Lost(s, r) || Loses(s, e, r)
  {
    AdvanceMoves(s.chan, i, s.rows, readOk);
    assert HandlerSafe(s.chan, i);
    assert Effect(s.chan, i, s.rows, readOk).pushed == s.chan.pushed
        || (s.chan.handlers[i].pc.Send? && !s.chan.closed);
  }

  lemma WriterLosesIff(s: State, e: Step, r: int)
    requires WriterStep(e) && Can(s, e) && (s.chan.closed ==> s.writer.Ended?)
    requires forall x :: x in s.history ==> x in s.rows
    ensures Lost(WriterNext(s, e), r) <==> Lost(s, r) || WritesLate(s, e, r)
  {
    WriterFrame(s, e);
    if e.Insert? {
      BatchIsAbove(s.rows, e.batch);
    }
  }

  lemma ReaderLosesIff(s: State, e: Step, r: int)
    requires ReaderStep(e) && Can(s, e) && !e.Abort?
    ensures Lost(ReaderNext(s, e), r) <==> Lost(s, r)
  {
  }

  lemma StepLosesIff(s: State, e: Step, r: int)
    requires Inv(s) && Can(s, e) && !e.Abort?
    ensures Lost(Next(s, e), r) <==> Lost(s, r) || Loses(s, e, r)
  {
    if e.Handle? {
      HandleLosesIff(s, e.i, e.readOk, r);
    } else if WriterStep(e) {
      WriterLosesIff(s, e, r);
    } else {
      ReaderLosesIff(s, e, r);
    }
  }

  lemma {:induction false} AbortedStays(s: State, es: seq<Step>)
    requires Runs(s, es) && s.reader.Aborted?
    ensures Final(s, es).reader.Aborted?
    decreases |es|
  {
    if es != [] {
      AbortedStays(Next(s, es[0]), es[1..]);
    }
  }

  lemma {:induction false} LostIff(s: State, es: seq<Step>, r: int)
    requires Inv(s) && Runs(s, es) && !Final(s, es).reader.Aborted?
    ensures Lost(Final(s, es), r) <==> Lost(s, r) || LosesIn(s, es, r)
    decreases |es|
  {
    if es != [] {
      var e := es[0];
      if e.Abort? {
        AbortedStays(Next(s, e), es[1..]);
      } else {
        StepKeepsInv(s, e);
        StepLosesIff(s, e, r);
        LostIff(Next(s, e), es[1..], r);
      }
    }
  }

  lemma FinishedLacks(s: State, r: int)
    requires Inv(s) && s.reader.Finished? && r in s.rows && r > s.after
    ensures r !in s.sent <==> Lost(s, r)
  {
    assert r in s.history ==> r in s.sent by {
      assert forall k :: 0 <= k < |s.history| ==> s.history[k] == s.sent[k];
    }
  }

  /**
    In every run, whatever is reordered, dropped or unread, a finished client lacks a row above
    its start id if and only if the channel was closed after its history was read and before
    that row was buffered, or the row was written after the client had found the job completed.
  */
  lemma DeliveredIff(after: int, rows: seq<int>, es: seq<Step>, r: int)
    requires Increasing(rows) && Runs(Init(after, rows), es)
    ensures var end := Final(Init(after, rows), es);
            end.reader.Finished? && r in end.rows && r > after ==>
              (r !in end.sent <==> LosesIn(Init(after, rows), es, r))
  {
    var s := Init(after, rows);
    InvInEveryRun(s, es);
    var end := Final(s, es);
    if end.reader.Finished? && r in end.rows && r > after {
      LostIff(s, es, r);
      FinishedLacks(end, r);
    }
  }

  // ---- why the channel closes too early ----

  /** The end-of-logs handler closes while another handler still owes row r. */
  ghost predicate Overtakes(s: State, e: Step, r: int)
    requires Can(s, e)
  {
    ClosesEarly(s, e, r) && SomeoneOwes(s.chan, r)
  }

  ghost predicate OvertakenIn(s: State, es: seq<Step>, r: int)
    requires Runs(s, es)
    decreases |es|
  {
    es != [] && (Overtakes(s, es[0], r) || OvertakenIn(Next(s, es[0]), es[1..], r))
  }

  ghost predicate WrittenLateIn(s: State, es: seq<Step>, r: int)
    requires Runs(s, es)
    decreases |es|
  {
    es != [] && (WritesLate(s, es[0], r) || WrittenLateIn(Next(s, es[0]), es[1..], r))
  }

  lemma LossHasCause(s: State, e: Step, r: int)
    requires Inv(s) && Can(s, e) && ClosesEarly(s, e, r)
    ensures Overtakes(s, e, r) || r in s.chan.missed || r in s.firstBatch
  {
    assert HandlerSafe(s.chan, e.i);
    assert Shaped(s.chan.handlers[e.i], e.i == |s.chan.handlers| - 1, s.writer);
    assert Due(s, r);
  }

  lemma StepMissed(s: State, e: Step)
    requires Can(s, e)
    ensures s.chan.missed <= Next(s, e).chan.missed
    ensures RowsFixed(s.writer) ==> RowsFixed(Next(s, e).writer) && Next(s, e).firstBatch == s.firstBatch
  {
    if e.Handle? {
      AdvanceMoves(s.chan, e.i, s.rows, e.readOk);
    } else if WriterStep(e) {
      WriterFrame(s, e);
    } else {
      ReaderFrame(s, e);
    }
  }

  lemma {:induction false} MissedStays(s: State, es: seq<Step>, r: int)
    requires Runs(s, es)
    ensures r in s.chan.missed ==> r in Final(s, es).chan.missed
    ensures RowsFixed(s.writer) ==> Final(s, es).firstBatch == s.firstBatch
    decreases |es|
  {
    if es != [] {
      StepMissed(s, es[0]);
      MissedStays(Next(s, es[0]), es[1..], r);
    }
  }

  lemma {:induction false} LossCauses(s: State, es: seq<Step>, r: int)
    requires Inv(s) && Runs(s, es) && LosesIn(s, es, r)
    ensures OvertakenIn(s, es, r) || WrittenLateIn(s, es, r)
            || r in Final(s, es).chan.missed || r in Final(s, es).firstBatch
    decreases |es|
  {
    var e := es[0];
    StepKeepsInv(s, e);
    if ClosesEarly(s, e, r) {
      LossHasCause(s, e, r);
      assert Shaped(s.chan.handlers[e.i], e.i == |s.chan.handlers| - 1, s.writer);
      MissedStays(s, es, r);
    } else if !WritesLate(s, e, r) {
      LossCauses(Next(s, e), es[1..], r);
    }
  }

  lemma {:induction false} CausesLose(s: State, es: seq<Step>, r: int)
    requires Runs(s, es) && (OvertakenIn(s, es, r) || WrittenLateIn(s, es, r))
    ensures LosesIn(s, es, r)
    decreases |es|
  {
    if !Loses(s, es[0], r) {
      CausesLose(Next(s, es[0]), es[1..], r);
    }
  }

  /** A step without faults: reads succeed and the buffer has room. */
  ghost predicate Faultless(s: State, e: Step)
    requires Can(s, e)
  {
    e.Handle? ==>
      var pc := s.chan.handlers[e.i].pc;
      (pc.Query? ==> e.readOk) && (pc.Send? ==> |s.chan.buffer| < CAPACITY)
  }

  ghost predicate RunsFaultless(s: State, es: seq<Step>)
    requires Runs(s, es)
    decreases |es|
  {
    es == [] || (Faultless(s, es[0]) && RunsFaultless(Next(s, es[0]), es[1..]))
  }

  lemma FaultlessStep(s: State, e: Step)
    requires Can(s, e) && Faultless(s, e)
    ensures Next(s, e).chan.missed == s.chan.missed
  {
    if e.Handle? {
      FaultlessEffect(s.chan, e.i, s.rows, e.readOk);
    } else if WriterStep(e) {
      WriterFrame(s, e);
    } else {
      ReaderFrame(s, e);
    }
  }

  lemma FaultlessEffect(c: Channel, i: nat, rows: seq<int>, readOk: bool)
    requires Enabled(c, i)
    requires (c.handlers[i].pc.Query? ==> readOk) && (c.handlers[i].pc.Send? ==> |c.buffer| < CAPACITY)
    ensures Effect(c, i, rows, readOk).missed == c.missed
  {
  }

  lemma {:induction false} FaultlessMissesNothing(s: State, es: seq<Step>)
    requires Runs(s, es) && RunsFaultless(s, es) && s.chan.missed == {}
    ensures Final(s, es).chan.missed == {}
    decreases |es|
  {
    if es != [] {
      FaultlessStep(s, es[0]);
      FaultlessMissesNothing(Next(s, es[0]), es[1..]);
    }
  }

  /**
    Without faults, in whatever order handlers run: a finished client lacks exactly the rows on
    which the end overtook their handler, those written after it had found the job completed, and
    those of the batch that begins with row 1 that were not yet there when its history was read.
  */
  lemma FaultlessDeliveryIff(after: int, rows: seq<int>, es: seq<Step>, r: int)
    requires Increasing(rows) && Runs(Init(after, rows), es) && RunsFaultless(Init(after, rows), es)
    ensures var end := Final(Init(after, rows), es);
            end.reader.Finished? && r in end.rows && r > after ==>
              (r !in end.sent <==>
                || OvertakenIn(Init(after, rows), es, r) || WrittenLateIn(Init(after, rows), es, r)
                || (r in end.firstBatch && r !in end.history))
  {
    var s := Init(after, rows);
    InvInEveryRun(s, es);
    FaultlessMissesNothing(s, es);
    var end := Final(s, es);
    if end.reader.Finished? && r in end.rows && r > after {
      DeliveredIff(after, rows, es, r);
      FinishedLacks(end, r);
      if LosesIn(s, es, r) {
        LossCauses(s, es, r);
      }
      if OvertakenIn(s, es, r) || WrittenLateIn(s, es, r) {
        CausesLose(s, es, r);
      }
    }
  }

  // ---- handlers run in publish order ----

  ghost predicate InOrder(s: State, e: Step) {
    e.Handle? ==> forall j :: 0 <= j < e.i && j < |s.chan.handlers| ==> s.chan.handlers[j].pc.Returned?
  }

  ghost predicate RunsInOrder(s: State, es: seq<Step>)
    requires Runs(s, es)
    decreases |es|
  {
    es == [] || (InOrder(s, es[0]) && RunsInOrder(Next(s, es[0]), es[1..]))
  }

  lemma {:induction false} InOrderNeverOvertakes(s: State, es: seq<Step>, r: int)
    requires Inv(s) && Runs(s, es) && RunsInOrder(s, es)
    ensures !OvertakenIn(s, es, r)
    decreases |es|
  {
    if es != [] {
      var e := es[0];
      StepKeepsInv(s, e);
      InOrderNeverOvertakes(Next(s, e), es[1..], r);
      if e.Handle? && s.chan.handlers[e.i].pc.CloseClosed? {
        assert Shaped(s.chan.handlers[e.i], e.i == |s.chan.handlers| - 1, s.writer);
        assert !Owes(s.chan.handlers[e.i], r);
      }
    }
  }

  /**
    With handlers run in publish order, a client whose request finished has received every row
    above its start id, save those some handler dropped or failed to read, those written after it
    had found the job completed, and those of the batch that begins with row 1.
  */
  lemma EveryRowDelivered(after: int, rows: seq<int>, es: seq<Step>, r: int)
    requires Increasing(rows) && Runs(Init(after, rows), es) && RunsInOrder(Init(after, rows), es)
    ensures var end := Final(Init(after, rows), es);
            end.reader.Finished? && r in end.rows && r > after ==>
              || r in end.sent || WrittenLateIn(Init(after, rows), es, r)
              || r in end.chan.missed || r in end.firstBatch
  {
    var s := Init(after, rows);
    DeliveredIff(after, rows, es, r);
    InOrderNeverOvertakes(s, es, r);
    if LosesIn(s, es, r) {
      LossCauses(s, es, r);
    }
  }

  /** In order and without faults the only rows a finished client lacks are late ones and those of that batch. */
  lemma InOrderDeliveryIff(after: int, rows: seq<int>, es: seq<Step>, r: int)
    requires Increasing(rows) && Runs(Init(after, rows), es)
    requires RunsInOrder(Init(after, rows), es) && RunsFaultless(Init(after, rows), es)
    ensures var end := Final(Init(after, rows), es);
            end.reader.Finished? && r in end.rows && r > after ==>
              (r !in end.sent <==> WrittenLateIn(Init(after, rows), es, r) || (r in end.firstBatch && r !in end.history))
  {
    FaultlessDeliveryIff(after, rows, es, r);
    InOrderNeverOvertakes(Init(after, rows), es, r);
  }

  // ---- jobs completed by their worker ----

  predicate NeverMarked(es: seq<Step>) { forall i :: 0 <= i < |es| ==> !es[i].MarkDone? }

  /** The job says completed, or said so to the client, only when no more rows will come. */
  ghost predicate DoneIsFinal(s: State) {
    s.done || (s.reader.JobRead? && s.reader.done) || ReadAsDone(s.reader) ==> RowsFixed(s.writer)
  }

  /** Unless a cancel completes a job under its worker, no row is written late. */
  lemma {:induction false} NeverMarkedNeverLate(s: State, es: seq<Step>, r: int)
    requires Runs(s, es) && NeverMarked(es) && DoneIsFinal(s)
    ensures !WrittenLateIn(s, es, r)
    decreases |es|
  {
    if es != [] {
      NeverMarkedNeverLate(Next(s, es[0]), es[1..], r);
    }
  }

  /** In order, without faults and without such cancels only that batch can be lacking. */
  lemma WorkerDoneDeliveryIff(after: int, rows: seq<int>, es: seq<Step>, r: int)
    requires Increasing(rows) && Runs(Init(after, rows), es) && NeverMarked(es)
    requires RunsInOrder(Init(after, rows), es) && RunsFaultless(Init(after, rows), es)
    ensures var end := Final(Init(after, rows), es);
            end.reader.Finished? && r in end.rows && r > after ==>
              (r !in end.sent <==> r in end.firstBatch && r !in end.history)
  {
    InOrderDeliveryIff(after, rows, es, r);
    NeverMarkedNeverLate(Init(after, rows), es, r);
  }

  // ---- when a client is left waiting ----

  /** No step is possible but giving up, and re-opening a job that nobody reads any more. */
  ghost predicate Stuck(s: State) { forall e :: Can(s, e) ==> e.Abort? || e.Reopen? }

  /**
    The client found the job unfinished, and its worker stopped without announcing the end or the
    end had been announced before the client subscribed.
  */
  ghost predicate LeftWaiting(s: State) { s.reader.Streaming? && (s.writer.Stopped? || s.late) }

  /** The holder of the mutex, or any handler when it is free, can take its next step. */
  lemma SomeHandlerMoves(s: State, i: nat)
    requires Inv(s) && i < |s.chan.handlers|
    ensures s.chan.handlers[i].pc.Returned? || exists j :: Can(s, Handle(j, true))
  {
    if s.chan.mutex.Some? {
      var j := s.chan.mutex.value;
      assert HandlerSafe(s.chan, j);
      assert Can(s, Handle(j, true));
    } else {
      assert s.chan.handlers[i].pc.Returned? || Can(s, Handle(i, true));
    }
  }

  /** Where the system comes to rest the request has finished or was given up, if and only if not left waiting. */
  lemma StuckIff(s: State)
    requires Inv(s) && Stuck(s)
    ensures s.writer.Ended? || s.writer.Stopped?
    ensures s.reader.Finished? || s.reader.Aborted? <==> !LeftWaiting(s)
  {
    assert !Can(s, Announce) && !Can(s, Complete) && !Can(s, AnnounceEnd);
    assert !Can(s, Subscribe) && !Can(s, ReadJob) && !Can(s, ReadHistory) && !Can(s, Encode) && !Can(s, Drain);
    forall i | 0 <= i < |s.chan.handlers| ensures s.chan.handlers[i].pc.Returned? {
      SomeHandlerMoves(s, i);
    }
  }

  /** Steps left to a handler, a buffered log counting one more for the client. */
  function Weight(pc: Pc, n: nat): nat {
    match pc
    case Entry => 5 * n + 7
    case Query => 5 * n + 6
    case LockToSend(_, rest) => 5 * |rest| + 10
    case CheckToSend(_, rest) => 5 * |rest| + 9
    case Send(_, rest) => 5 * |rest| + 8
    case UnlockAfterSend(rest) => 5 * |rest| + 6
    case LockToEnd => 5
    case CheckToEnd => 4
    case CloseClosed => 3
    case CloseBuffer => 2
    case UnlockAfterEnd => 1
    case UnlockAndReturn => 1
    case Returned => 0
  }

  function Weights(hs: seq<Handler>, n: nat): nat {
    if hs == [] then 0 else Weight(hs[0].pc, n) + Weights(hs[1..], n)
  }

  function ReaderWeight(s: State): nat {
    match s.reader
    case Start => |s.rows| + 5
    case Subscribed => |s.rows| + 4
    case JobRead(_) => |s.rows| + 3
    case Encoding(_, k) => if k <= |s.history| then |s.history| - k + 2 else 2
    case Streaming => 1
    case Finished(_) => 0
    case Aborted => 0
  }

  function Measure(s: State): nat {
    ReaderWeight(s) + Weights(s.chan.handlers, |s.rows|) + |s.chan.buffer| + if s.done then 1 else 0
  }

  lemma {:induction false} WeightsUpdate(hs: seq<Handler>, i: nat, h: Handler, n: nat)
    requires i < |hs|
    ensures Weights(hs[i := h], n) + Weight(hs[i].pc, n) == Weights(hs, n) + Weight(h.pc, n)
    decreases |hs|
  {
    if i > 0 {
      WeightsUpdate(hs[1..], i - 1, h, n);
      assert hs[i := h][1..] == hs[1..][i - 1 := h];
    } else {
      assert hs[i := h][1..] == hs[1..];
    }
  }

  lemma AdvanceGetsLighter(c: Channel, i: nat, rows: seq<int>, readOk: bool)
    requires Enabled(c, i) && Increasing(rows)
    ensures Weight(NextPc(c, i, rows, readOk), |rows|) + |Effect(c, i, rows, readOk).buffer|
          < Weight(c.handlers[i].pc, |rows|) + |c.buffer|
  {
    var h := c.handlers[i];
    if h.msg.Notice? {
      RowsAscending(rows, h.msg.createdAfter, 0);
    }
  }

  lemma HandleGetsLighter(s: State, i: nat, readOk: bool)
    requires Increasing(s.rows) && Enabled(s.chan, i)
    ensures Measure(Next(s, Handle(i, readOk))) < Measure(s)
  {
    var c := s.chan;
    AdvanceGetsLighter(c, i, s.rows, readOk);
    WeightsUpdate(c.handlers, i, c.handlers[i].(pc := NextPc(c, i, s.rows, readOk)), |s.rows|);
  }

  lemma ReaderGetsLighter(s: State, e: Step)
    requires Basic(s) && Can(s, e)
    requires e.Subscribe? || e.ReadJob? || e.ReadHistory? || e.Encode? || e.Abort?
    ensures ReaderWeight(Next(s, e)) < ReaderWeight(s)
    ensures Next(s, e).chan == s.chan && Next(s, e).rows == s.rows && Next(s, e).done == s.done
  {
    if e.ReadHistory? {
      RowsAscending(s.rows, s.after, 0);
    }
  }

  lemma LighterBuffer(s: State, s': State)
    requires s'.rows == s.rows && s'.done == s.done && s'.chan.handlers == s.chan.handlers
    requires ReaderWeight(s') + |s'.chan.buffer| < ReaderWeight(s) + |s.chan.buffer|
    ensures Measure(s') < Measure(s)
  {
  }

  lemma DrainGetsLighter(s: State)
    requires Can(s, Drain)
    ensures Measure(Next(s, Drain)) < Measure(s)
  {
    var s' := ReaderNext(s, Drain);
    ReaderFrame(s, Drain);
    assert if s.chan.buffer == [] then s'.reader == Finished(false) && s'.chan.buffer == []
           else s'.reader == s.reader && |s'.chan.buffer| == |s.chan.buffer| - 1;
    LighterBuffer(s, s');
  }

  predicate AtRest(w: Writer) { w.Ended? || w.Stopped? }

  lemma StepGetsLighter(s: State, e: Step)
    requires Inv(s) && AtRest(s.writer) && Can(s, e)
    ensures AtRest(Next(s, e).writer) && Measure(Next(s, e)) < Measure(s)
  {
    if e.Handle? {
      HandleGetsLighter(s, e.i, e.readOk);
    } else if e.Drain? {
      DrainGetsLighter(s);
    } else if !e.Reopen? {
      ReaderGetsLighter(s, e);
    }
  }

  /** After the worker is at rest a run has at most Measure more steps, in any schedule. */
  lemma {:induction false} RunsAreBounded(s: State, es: seq<Step>)
    requires Inv(s) && AtRest(s.writer) && Runs(s, es)
    ensures |es| + Measure(Final(s, es)) <= Measure(s)
    decreases |es|
  {
    if es != [] {
      StepKeepsInv(s, es[0]);
      StepGetsLighter(s, es[0]);
      RunsAreBounded(Next(s, es[0]), es[1..]);
    }
  }

  ghost predicate NeverAborts(es: seq<Step>) { forall i :: 0 <= i < |es| ==> !es[i].Abort? }

  lemma {:induction false} NotAborted(s: State, es: seq<Step>)
    requires Runs(s, es) && NeverAborts(es) && !s.reader.Aborted?
    ensures !Final(s, es).reader.Aborted?
    decreases |es|
  {
    if es != [] {
      NotAborted(Next(s, es[0]), es[1..]);
    }
  }

  lemma ReachedNotAborted(after: int, rows: seq<int>, es: seq<Step>)
    requires Increasing(rows) && Runs(Init(after, rows), es) && NeverAborts(es)
    ensures Inv(Final(Init(after, rows), es)) && !Final(Init(after, rows), es).reader.Aborted?
  {
    InvInEveryRun(Init(after, rows), es);
    NotAborted(Init(after, rows), es);
  }

  /**
    A client that keeps reading: once the worker is at rest every further run is bounded, and where
    it can go no further the request has finished if and only if the client is not left waiting.
  */
  lemma KeepsReadingFinishesIff(after: int, rows: seq<int>, es: seq<Step>, more: seq<Step>)
    requires Increasing(rows) && Runs(Init(after, rows), es) && NeverAborts(es)
    requires var s := Final(Init(after, rows), es);
             AtRest(s.writer) && Runs(s, more) && NeverAborts(more)
    ensures var s := Final(Init(after, rows), es);
            && |more| <= Measure(s)
            && (Stuck(Final(s, more)) ==> (Final(s, more).reader.Finished? <==> !LeftWaiting(Final(s, more))))
  {
    ReachedNotAborted(after, rows, es);
    RestIff(Final(Init(after, rows), es), more);
  }

  lemma RestIff(s: State, more: seq<Step>)
    requires Inv(s) && !s.reader.Aborted? && AtRest(s.writer) && Runs(s, more) && NeverAborts(more)
    ensures |more| <= Measure(s)
    ensures Stuck(Final(s, more)) ==> (Final(s, more).reader.Finished? <==> !LeftWaiting(Final(s, more)))
  {
    RunsAreBounded(s, more);
    InvInEveryRun(s, more);
    NotAborted(s, more);
    if Stuck(Final(s, more)) {
      StuckIff(Final(s, more));
    }
  }

  /** The client streams, nothing is buffered, no handler is at work and no batch is unannounced. */
  ghost predicate Quiescent(s: State) {
    && s.reader.Streaming? && !s.writer.Announcing?
    && forall e: Step :: e.Handle? || e.Drain? ==> !Can(s, e)
  }

  /**
    While the job goes on, whenever the system is quiet a streaming client already has every
    row above its start id, save dropped or unread ones and the batch that begins with row 1.
  */
  lemma QuietClientHasEverything(after: int, rows: seq<int>, es: seq<Step>, r: int)
    requires Increasing(rows) && Runs(Init(after, rows), es)
    ensures var s := Final(Init(after, rows), es);
            && (Quiescent(s) && r in s.rows && r > after ==> r in s.sent || r in s.chan.missed || r in s.firstBatch)
            && (Quiescent(s) && r in s.firstBatch && r !in s.history ==> r !in s.sent)
  {
    InvInEveryRun(Init(after, rows), es);
    var s := Final(Init(after, rows), es);
    if Quiescent(s) && r in s.rows && r > after {
      QuietHasEverything(s, r);
    }
  }

  lemma QuietHasEverything(s: State, r: int)
    requires Inv(s) && Quiescent(s) && r in s.rows && r > s.after
    ensures r in s.sent || r in s.chan.missed || r in s.firstBatch
  {
    assert !Can(s, Drain);
    forall i | 0 <= i < |s.chan.handlers| ensures s.chan.handlers[i].pc.Returned? {
      SomeHandlerMoves(s, i);
    }
    assert Due(s, r) && !SomeoneOwes(s.chan, r);
    assert forall k :: 0 <= k < |s.history| ==> s.history[k] == s.sent[k];
  }

  // ---- runs that lose a row ----

  lemma {:induction false} Grow(s: State, es: seq<Step>, e: Step)
    requires Runs(s, es) && RunsFaultless(s, es) && Can(Final(s, es), e) && Faultless(Final(s, es), e)
    ensures Runs(s, es + [e]) && RunsFaultless(s, es + [e]) && Final(s, es + [e]) == Next(Final(s, es), e)
    ensures RunsInOrder(s, es) && InOrder(Final(s, es), e) ==> RunsInOrder(s, es + [e])
    decreases |es|
  {
    if es == [] {
      assert es + [e] == [e] && [e][1..] == [];
    } else {
      Grow(Next(s, es[0]), es[1..], e);
      assert (es + [e])[1..] == es[1..] + [e];
    }
  }

  /** Some faultless run from s ends in t, with handlers in publish order if asked. */
  ghost predicate Reaches(s: State, t: State, ordered: bool) {
    exists es :: Runs(s, es) && RunsFaultless(s, es) && (ordered ==> RunsInOrder(s, es)) && Final(s, es) == t
  }

  lemma ReachesStep(s: State, t: State, e: Step, t': State, ordered: bool)
    requires Reaches(s, t, ordered) && Can(t, e) && Faultless(t, e) && (ordered ==> InOrder(t, e))
    requires t' == Next(t, e)
    ensures Reaches(s, t', ordered)
  {
    var es :| Runs(s, es) && RunsFaultless(s, es) && (ordered ==> RunsInOrder(s, es)) && Final(s, es) == t;
    Grow(s, es, e);
  }

  /** The client streams from an empty table. */
  const STREAMING := Init(0, []).(reader := Streaming)

  lemma ReachesNow(s: State, ordered: bool)
    ensures Reaches(s, s, ordered)
  {
    assert Runs(s, []) && RunsFaultless(s, []) && RunsInOrder(s, []) && Final(s, []) == s;
  }

  lemma SubscribesAndReads(s: State, t: State, ordered: bool)
    requires Reaches(s, t, ordered) && t.reader.Start?
    ensures Reaches(s, t.(late := t.writer.Ended?, reader := JobRead(t.done)), ordered)
  {
    var t' := t.(late := t.writer.Ended?, reader := Subscribed);
    ReachesStep(s, t, Subscribe, t', ordered);
    ReachesStep(s, t', ReadJob, t'.(reader := JobRead(t.done)), ordered);
  }

  lemma EncodesNothing(s: State, t: State, ordered: bool)
    requires Reaches(s, t, ordered) && t.reader.JobRead? && t.rows == [] && t.history == []
    ensures Reaches(s, t.(reader := if t.reader.done then Finished(true) else Streaming), ordered)
  {
    var t' := t.(reader := Encoding(t.reader.done, 0));
    ReachesStep(s, t, ReadHistory, t', ordered);
    ReachesStep(s, t', Encode, t.(reader := if t.reader.done then Finished(true) else Streaming), ordered);
  }

  /** A client follows a job without rows, as the job row has it. */
  lemma FollowsEmpty(s: State, t: State, ordered: bool)
    requires Reaches(s, t, ordered) && t.reader.Start? && t.rows == [] && t.history == []
    ensures Reaches(s, t.(late := t.writer.Ended?, reader := if t.done then Finished(true) else Streaming), ordered)
  {
    SubscribesAndReads(s, t, ordered);
    EncodesNothing(s, t.(late := t.writer.Ended?, reader := JobRead(t.done)), ordered);
  }

  lemma ReachesStreaming(ordered: bool)
    ensures Reaches(Init(0, []), STREAMING, ordered)
  {
    ReachesNow(Init(0, []), ordered);
    FollowsEmpty(Init(0, []), Init(0, []), ordered);
  }

  /** Row x was written and announced, then the end; handler 0 is at pc0 and the end's handler at pc1. */
  function Announced(x: int, pc0: Pc, pc1: Pc): State {
    var hs := [Handler(Notice(x - 1, false), pc0), Handler(Notice(0, true), pc1)];
    STREAMING.(rows := [x], firstBatch := if x == 1 then [x] else [], writer := Ended, done := true,
               chan := FRESH.(handlers := hs))
  }

  /** Row x written, with handler 0 at its entry. */
  function Inserted(x: int, w: Writer): State {
    STREAMING.(rows := [x], firstBatch := if x == 1 then [x] else [], writer := w,
               chan := FRESH.(handlers := [Handler(Notice(x - 1, false), Entry)]))
  }

  lemma ReachesInserted(x: int, ordered: bool)
    requires x > 0
    ensures Reaches(Init(0, []), Inserted(x, Idle), ordered)
  {
    ReachesStreaming(ordered);
    var t := STREAMING.(rows := [x], firstBatch := if x == 1 then [x] else [], writer := Announcing(x));
    ReachesStep(Init(0, []), STREAMING, Insert([x]), t, ordered);
    ReachesStep(Init(0, []), t, Announce, Inserted(x, Idle), ordered);
  }

  lemma ReachesAnnounced(x: int, ordered: bool)
    requires x > 0
    ensures Reaches(Init(0, []), Announced(x, Entry, Entry), ordered)
  {
    ReachesInserted(x, ordered);
    var s, t := Init(0, []), Inserted(x, Completed).(done := true);
    ReachesStep(s, Inserted(x, Idle), Complete, t, ordered);
    ReachesStep(s, t, AnnounceEnd, Announced(x, Entry, Entry), ordered);
  }

  function EndHolds(x: int, pc0: Pc, pc1: Pc, closed: bool, bufferClosed: bool): State {
    var t := Announced(x, pc0, pc1);
    t.(chan := t.chan.(mutex := Some(1), closed := closed, bufferClosed := bufferClosed))
  }

  lemma EndLocks(x: int, pc0: Pc, ordered: bool)
    requires Reaches(Init(0, []), Announced(x, pc0, Entry), ordered) && (ordered ==> pc0.Returned?)
    ensures Reaches(Init(0, []), EndHolds(x, pc0, CheckToEnd, false, false), ordered)
  {
    var s, h := Init(0, []), Handle(1, true);
    ReachesStep(s, Announced(x, pc0, Entry), h, Announced(x, pc0, Query), ordered);
    ReachesStep(s, Announced(x, pc0, Query), h, Announced(x, pc0, LockToEnd), ordered);
    ReachesStep(s, Announced(x, pc0, LockToEnd), h, EndHolds(x, pc0, CheckToEnd, false, false), ordered);
  }

  lemma EndHoldsStep(x: int, pc0: Pc, pc1: Pc, closed: bool, bufferClosed: bool, t': State, ordered: bool)
    requires Reaches(Init(0, []), EndHolds(x, pc0, pc1, closed, bufferClosed), ordered) && (ordered ==> pc0.Returned?)
    requires pc1.CheckToEnd? || pc1.CloseClosed? || pc1.CloseBuffer?
    requires t' == Next(EndHolds(x, pc0, pc1, closed, bufferClosed), Handle(1, true))
    ensures Reaches(Init(0, []), t', ordered)
  {
    ReachesStep(Init(0, []), EndHolds(x, pc0, pc1, closed, bufferClosed), Handle(1, true), t', ordered);
  }

  lemma EndChecks(x: int, pc0: Pc, ordered: bool)
    requires Reaches(Init(0, []), Announced(x, pc0, Entry), ordered) && (ordered ==> pc0.Returned?)
    ensures Reaches(Init(0, []), EndHolds(x, pc0, CloseClosed, false, false), ordered)
  {
    EndLocks(x, pc0, ordered);
    EndHoldsStep(x, pc0, CheckToEnd, false, false, EndHolds(x, pc0, CloseClosed, false, false), ordered);
  }

  lemma EndMarks(x: int, pc0: Pc, ordered: bool)
    requires Reaches(Init(0, []), Announced(x, pc0, Entry), ordered) && (ordered ==> pc0.Returned?)
    ensures Reaches(Init(0, []), EndHolds(x, pc0, CloseBuffer, true, false), ordered)
  {
    EndChecks(x, pc0, ordered);
    EndHoldsStep(x, pc0, CloseClosed, false, false, EndHolds(x, pc0, CloseBuffer, true, false), ordered);
  }

  /** From there the end's handler may close and the client finish, whatever becomes of handler 0. */
  lemma EndCloses(x: int, pc0: Pc, ordered: bool)
    requires Reaches(Init(0, []), Announced(x, pc0, Entry), ordered) && (ordered ==> pc0.Returned?)
    ensures Reaches(Init(0, []), EndHolds(x, pc0, UnlockAfterEnd, true, true).(reader := Finished(false)), ordered)
  {
    EndMarks(x, pc0, ordered);
    var t := EndHolds(x, pc0, UnlockAfterEnd, true, true);
    EndHoldsStep(x, pc0, CloseBuffer, true, false, t, ordered);
    ReachesStep(Init(0, []), t, Drain, t.(reader := Finished(false)), ordered);
  }

  /** Out of order: the end overtakes the handler of row 5, and a finished client lacks it. */
  lemma OutOfOrderLosesRow()
    ensures exists end :: Reaches(Init(0, []), end, false) && end.reader.Finished? && 5 in end.rows && 5 !in end.sent
  {
    ReachesAnnounced(5, false);
    EndCloses(5, Entry, false);
  }

  /** In order: the batch that begins with row 1 is announced with id zero, and a finished client lacks it. */
  lemma ZeroIdLosesRow()
    ensures exists end :: Reaches(Init(0, []), end, true) && end.reader.Finished? && 1 in end.rows && 1 !in end.sent
  {
    ReachesAnnounced(1, true);
    var s, h := Init(0, []), Handle(0, true);
    ReachesStep(s, Announced(1, Entry, Entry), h, Announced(1, Query, Entry), true);
    ReachesStep(s, Announced(1, Query, Entry), h, Announced(1, Returned, Entry), true);
    EndCloses(1, Returned, true);
  }

  const MARKED := Init(0, []).(done := true)

  lemma ReachesHistoryOnly()
    ensures Reaches(Init(0, []), MARKED.(reader := Finished(true)), true)
  {
    ReachesNow(Init(0, []), true);
    ReachesStep(Init(0, []), Init(0, []), MarkDone, MARKED, true);
    FollowsEmpty(Init(0, []), MARKED, true);
  }

  /** In order: a cancel completes the job under its worker, and row 5 comes after the client's history. */
  lemma LateRowIsLost()
    ensures exists end :: Reaches(Init(0, []), end, true) && end.reader.Finished? && 5 in end.rows && 5 !in end.sent
  {
    ReachesHistoryOnly();
    var t := MARKED.(reader := Finished(true));
    ReachesStep(Init(0, []), t, Insert([5]), t.(rows := [5], writer := Announcing(5)), true);
  }

  lemma NobodyMoves(s: State)
    requires s.reader.Streaming? && AtRest(s.writer) && s.chan == FRESH
    ensures Stuck(s)
  {
  }

  /** A pending job is dropped after the client found it unfinished: the client waits for good. */
  lemma DroppedJobLeavesWaiting()
    ensures exists end :: Reaches(Init(0, []), end, true) && Stuck(end) && LeftWaiting(end)
  {
    ReachesStreaming(true);
    var end := STREAMING.(writer := Stopped, done := true);
    ReachesStep(Init(0, []), STREAMING, Drop, end, true);
    NobodyMoves(end);
  }

  /** The end is announced, a cancel re-opens the job, and a client that follows it then waits for good. */
  lemma ReopenedJobLeavesWaiting()
    ensures exists end :: Reaches(Init(0, []), end, true) && Stuck(end) && LeftWaiting(end) && end.writer.Ended?
  {
    var s := Init(0, []);
    ReachesReopened();
    var u := s.(writer := Ended);
    FollowsEmpty(s, u, true);
    NobodyMoves(u.(late := true, reader := Streaming));
  }

  lemma ReachesReopened()
    ensures Reaches(Init(0, []), Init(0, []).(writer := Ended), true)
  {
    var s := Init(0, []);
    ReachesNow(s, true);
    var t := s.(writer := Completed, done := true);
    ReachesStep(s, s, Complete, t, true);
    ReachesStep(s, t, AnnounceEnd, t.(writer := Ended), true);
    ReachesStep(s, t.(writer := Ended), Reopen, s.(writer := Ended), true);
  }
}
