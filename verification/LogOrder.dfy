/**
  coderd/provisionerjobs.go: what exactly a following client is sent, in which order, and that it
  is not left waiting by a worker that announces its end.
*/
module LogOrder {
  import opened FollowChannel
  import opened LogFollow
  import opened Wrappers

  // ---- the start id ----

  /** The historical read holds exactly the rows above the start id. */
  lemma HistoryIsExact(s: State, x: int)
    requires Can(s, ReadHistory) && (forall r :: r in s.rows ==> r > 0)
    ensures x in Next(s, ReadHistory).history <==> x in s.rows && x > s.after
  {
  }

  ghost predicate AboveStart(s: State) {
    && (forall x :: x in s.rows ==> x > 0)
    && (forall x :: x in s.history ==> x > s.after)
  }

  lemma StepKeepsAboveStart(s: State, e: Step)
    requires AboveStart(s) && Can(s, e)
    ensures AboveStart(Next(s, e)) && Next(s, e).after == s.after
  {
    if e.Insert? {
      BatchIsAbove(s.rows, e.batch);
      WriterFrame(s, e);
    } else if WriterStep(e) {
      WriterFrame(s, e);
    } else if ReaderStep(e) {
      ReaderFrame(s, e);
      if e.ReadHistory? {
        forall x | x in Next(s, e).history ensures x > s.after { HistoryIsExact(s, x); }
      }
    }
  }

  lemma {:induction false} AboveStartInEveryRun(s: State, es: seq<Step>)
    requires AboveStart(s) && Runs(s, es)
    ensures AboveStart(Final(s, es)) && Final(s, es).after == s.after
    decreases |es|
  {
    if es != [] {
      StepKeepsAboveStart(s, es[0]);
      AboveStartInEveryRun(Next(s, es[0]), es[1..]);
    }
  }

  // ---- what is sent, in order ----

  /** The rows of xs that are not in the history. */
  function Unseen(xs: seq<int>, history: seq<int>): seq<int> {
    if xs == [] then []
    else
      var last := xs[|xs| - 1];
      Unseen(xs[..|xs| - 1], history) + if last in history then [] else [last]
  }

  /** The rows taken from the buffer so far. */
  function Drained(c: Channel): seq<int> {
    if |c.buffer| <= |c.pushed| then c.pushed[..|c.pushed| - |c.buffer|] else []
  }

  /** The buffer is the tail of what was pushed; the client has its history, then the unseen part of the rest. */
  ghost predicate Streamed(s: State) {
    && |s.chan.buffer| <= |s.chan.pushed|
    && s.chan.pushed == Drained(s.chan) + s.chan.buffer
    && match s.reader
       case Streaming => s.sent == s.history + Unseen(Drained(s.chan), s.history)
       case Finished(historyOnly) =>
         s.sent == if historyOnly then s.history else s.history + Unseen(Drained(s.chan), s.history)
       case Aborted => true
       case _ => Drained(s.chan) == []
  }

  lemma SameChannelStreamed(s: State, s': State)
    requires Streamed(s) && s'.chan.buffer == s.chan.buffer && s'.chan.pushed == s.chan.pushed
    requires s'.reader == s.reader && s'.sent == s.sent && s'.history == s.history
    ensures Streamed(s')
  {
  }

  lemma PushKeepsDrained(c: Channel, c': Channel, x: int)
    requires |c.buffer| <= |c.pushed| && c.pushed == Drained(c) + c.buffer
    requires c'.buffer == c.buffer + [x] && c'.pushed == c.pushed + [x]
    ensures |c'.buffer| <= |c'.pushed| && Drained(c') == Drained(c) && c'.pushed == Drained(c') + c'.buffer
  {
  }

  lemma HandleKeepsStreamed(s: State, i: nat, readOk: bool)
    requires Basic(s) && Ends(s) && Streamed(s) && Enabled(s.chan, i)
    ensures Streamed(s.(chan := Advance(s.chan, i, s.rows, readOk)))
  {
    var c, c' := s.chan, Advance(s.chan, i, s.rows, readOk);
    AdvanceMoves(c, i, s.rows, readOk);
    if c'.buffer == c.buffer && c'.pushed == c.pushed {
      SameChannelStreamed(s, s.(chan := c'));
    } else {
      var x :| c'.buffer == c.buffer + [x] && c'.pushed == c.pushed + [x];
      PushKeepsDrained(c, c', x);
    }
  }

  lemma DrainTakes(c: Channel)
    requires |c.buffer| <= |c.pushed| && c.pushed == Drained(c) + c.buffer && c.buffer != []
    ensures Drained(Take(c)) == Drained(c) + [c.buffer[0]]
    ensures Take(c).pushed == Drained(Take(c)) + Take(c).buffer
  {
  }

  lemma UnseenMore(xs: seq<int>, x: int, history: seq<int>)
    ensures Unseen(xs + [x], history) == Unseen(xs, history) + if x in history then [] else [x]
  {
    assert (xs + [x])[..|xs|] == xs;
  }

  lemma SeenIsHistory(s: State)
    requires Basic(s) && Can(s, Drain)
    ensures forall x :: x in s.idsDone <==> x in s.history
  {
  }

  lemma DrainSends(s: State)
    requires Can(s, Drain) && s.chan.buffer != [] && forall x :: x in s.idsDone <==> x in s.history
    ensures var s', x := ReaderNext(s, Drain), s.chan.buffer[0];
            && s'.chan == Take(s.chan) && s'.history == s.history && s.reader.Streaming? && s'.reader.Streaming?
            && s'.sent == s.sent + if x in s.history then [] else [x]
  {
    assert s.sent + [] == s.sent;
  }

  lemma OneMoreStreamed(s: State, s': State, x: int, drained: seq<int>)
    requires s'.reader.Streaming? && s'.history == s.history
    requires Drained(s'.chan) == drained + [x] && s'.chan.pushed == drained + [x] + s'.chan.buffer
    requires s.sent == s.history + Unseen(drained, s.history)
    requires s'.sent == s.sent + if x in s.history then [] else [x]
    ensures Streamed(s')
  {
    UnseenMore(drained, x, s.history);
  }

  lemma DrainKeepsStreamed(s: State)
    requires Streamed(s) && Can(s, Drain) && forall x :: x in s.idsDone <==> x in s.history
    ensures Streamed(ReaderNext(s, Drain))
  {
    if s.chan.buffer != [] {
      DrainTakes(s.chan);
      DrainSends(s);
      OneMoreStreamed(s, ReaderNext(s, Drain), s.chan.buffer[0], Drained(s.chan));
    }
  }

  lemma EncodedAll(s: State)
    requires Basic(s) && Can(s, Encode)
    ensures s.reader.k == |s.history| ==> s.sent == s.history
  {
    if s.reader.k == |s.history| {
      assert s.history[..s.reader.k] == s.history;
    }
  }

  lemma EncodeKeepsStreamed(s: State)
    requires Streamed(s) && Can(s, Encode) && s.reader.k <= |s.history|
    requires s.reader.k == |s.history| ==> s.sent == s.history
    ensures Streamed(ReaderNext(s, Encode))
  {
    assert s.history + [] == s.history;
  }

  lemma EarlierKeepsStreamed(s: State, e: Step)
    requires Streamed(s) && Can(s, e) && (e.Subscribe? || e.ReadJob? || e.ReadHistory? || e.Abort?)
    ensures Streamed(ReaderNext(s, e))
  {
  }

  lemma StepKeepsStreamed(s: State, e: Step)
    requires Basic(s) && Ends(s) && Streamed(s) && Can(s, e)
    ensures Streamed(Next(s, e))
  {
    if e.Handle? {
      HandleKeepsStreamed(s, e.i, e.readOk);
    } else if WriterStep(e) {
      WriterFrame(s, e);
      SameChannelStreamed(s, WriterNext(s, e));
    } else if e.Drain? {
      SeenIsHistory(s);
      DrainKeepsStreamed(s);
    } else if e.Encode? {
      EncodedAll(s);
      EncodeKeepsStreamed(s);
    } else {
      EarlierKeepsStreamed(s, e);
    }
  }

  lemma {:induction false} StreamedInEveryRun(s: State, es: seq<Step>)
    requires Inv(s) && Streamed(s) && Runs(s, es)
    ensures Streamed(Final(s, es))
    decreases |es|
  {
    if es != [] {
      StepKeepsInv(s, es[0]);
      StepKeepsStreamed(s, es[0]);
      StreamedInEveryRun(Next(s, es[0]), es[1..]);
    }
  }

  /**
    In every run a finished client has been sent exactly this, in this order: its history, and if
    it streamed, every row that was buffered and is not in the history, as it was buffered.
  */
  lemma SentExactly(after: int, rows: seq<int>, es: seq<Step>)
    requires Increasing(rows) && Runs(Init(after, rows), es)
    ensures var end := Final(Init(after, rows), es);
            end.reader.Finished? ==>
              end.sent == end.history + if end.reader.historyOnly then [] else Unseen(end.chan.pushed, end.history)
  {
    var s := Init(after, rows);
    StreamedInEveryRun(s, es);
    InvInEveryRun(s, es);
    var end := Final(s, es);
    if end.reader.Finished? {
      assert end.history + [] == end.history;
      if !end.reader.historyOnly {
        assert end.chan.pushed == Drained(end.chan);
      }
    }
  }

  lemma {:induction false} UnseenMembers(xs: seq<int>, history: seq<int>, x: int)
    ensures x in Unseen(xs, history) <==> x in xs && x !in history
  {
    if xs != [] {
      UnseenMembers(xs[..|xs| - 1], history, x);
      assert xs == xs[..|xs| - 1] + [xs[|xs| - 1]];
    }
  }

  /** A finished client has a row at or below its start id if and only if it streamed and some handler buffered it. */
  lemma BelowStartIff(after: int, rows: seq<int>, es: seq<Step>, x: int)
    requires Increasing(rows) && (forall r :: r in rows ==> r > 0) && Runs(Init(after, rows), es)
    ensures var end := Final(Init(after, rows), es);
            && (x in end.history ==> x > after)
            && (end.reader.Finished? && x <= after ==>
                  (x in end.sent <==> !end.reader.historyOnly && x in end.chan.pushed))
  {
    AboveStartInEveryRun(Init(after, rows), es);
    var end := Final(Init(after, rows), es);
    if end.reader.Finished? && x <= after {
      SentExactly(after, rows, es);
      UnseenMembers(end.chan.pushed, end.history, x);
    }
  }

  // ---- each handler offers its rows in ascending order ----

  /** The rows a handler has read and not yet offered, the next one first. */
  function Outstanding(pc: Pc): seq<int> {
    match pc
    case LockToSend(log, rest) => [log] + rest
    case CheckToSend(log, rest) => [log] + rest
    case Send(log, rest) => [log] + rest
    case UnlockAfterSend(rest) => rest
    case _ => []
  }

  lemma OutstandingAfterSends(msg: Message, rest: seq<int>)
    ensures Outstanding(AfterSends(msg, rest)) == rest
  {
    assert rest != [] ==> rest == [rest[0]] + rest[1..];
  }

  ghost predicate Offering(c: Channel) {
    forall i :: 0 <= i < |c.handlers| ==> Increasing(Outstanding(c.handlers[i].pc))
  }

  /** A query loads the rows of its notice in ascending order, or gives up. */
  lemma QueryOffers(c: Channel, i: nat, rows: seq<int>, readOk: bool)
    requires Enabled(c, i) && Increasing(rows) && c.handlers[i].pc.Query?
    ensures var now := Outstanding(NextPc(c, i, rows, readOk));
            Increasing(now) && (now == [] || now == LogsFor(c.handlers[i], rows))
  {
    var h := c.handlers[i];
    OutstandingAfterSends(h.msg, LogsFor(h, rows));
    if h.msg.Notice? {
      RowsAscending(rows, h.msg.createdAfter, 0);
    }
  }

  lemma LowestFirst(all: seq<int>, log: int, rest: seq<int>)
    requires all == [log] + rest && Increasing(all)
    ensures Increasing(rest) && forall y :: y in rest ==> log < y
  {
    forall k | 0 <= k < |rest| ensures log < rest[k] {
      assert all[0] == log && all[k + 1] == rest[k];
    }
    forall i, j | 0 <= i < j < |rest| ensures rest[i] < rest[j] {
      assert all[i + 1] == rest[i] && all[j + 1] == rest[j];
    }
  }

  /** Each send takes the lowest outstanding row. */
  lemma SendOffersLowest(c: Channel, i: nat, rows: seq<int>, readOk: bool)
    requires Enabled(c, i) && c.handlers[i].pc.Send? && !c.bufferClosed
    requires Increasing(Outstanding(c.handlers[i].pc))
    ensures var pc, now := c.handlers[i].pc, Outstanding(NextPc(c, i, rows, readOk));
            && Outstanding(pc) == [pc.log] + now
            && Increasing(now) && (forall y :: y in now ==> pc.log < y)
            && (|c.buffer| < CAPACITY ==> Effect(c, i, rows, readOk).pushed == c.pushed + [pc.log])
  {
    var pc := c.handlers[i].pc;
    LowestFirst(Outstanding(pc), pc.log, pc.rest);
  }

  /** Every other action keeps the outstanding rows or gives them up. */
  lemma OthersKeepOutstanding(c: Channel, i: nat, rows: seq<int>, readOk: bool)
    requires Enabled(c, i) && !c.handlers[i].pc.Query? && !c.handlers[i].pc.Send?
    ensures var now := Outstanding(NextPc(c, i, rows, readOk));
            now == Outstanding(c.handlers[i].pc) || now == []
  {
    var h := c.handlers[i];
    if h.pc.UnlockAfterSend? {
      OutstandingAfterSends(h.msg, h.pc.rest);
    }
  }

  lemma HandleKeepsOffering(c: Channel, i: nat, rows: seq<int>, readOk: bool)
    requires Enabled(c, i) && Increasing(rows) && Offering(c)
    ensures Increasing(Outstanding(NextPc(c, i, rows, readOk)))
  {
    assert Increasing(Outstanding(c.handlers[i].pc));
    if c.handlers[i].pc.Query? {
      QueryOffers(c, i, rows, readOk);
    } else if c.handlers[i].pc.Send? {
      if !c.bufferClosed {
        SendOffersLowest(c, i, rows, readOk);
      }
    } else {
      OthersKeepOutstanding(c, i, rows, readOk);
    }
  }

  lemma StepKeepsOffering(s: State, e: Step)
    requires Increasing(s.rows) && Offering(s.chan) && Can(s, e)
    ensures Offering(Next(s, e).chan)
  {
    if e.Handle? {
      HandleKeepsOffering(s.chan, e.i, s.rows, e.readOk);
    } else if WriterStep(e) {
      WriterFrame(s, e);
    } else {
      ReaderFrame(s, e);
    }
  }

  /** In every run each handler holds the rows it still owes in ascending order, the next to send first. */
  lemma {:induction false} OfferingInEveryRun(s: State, es: seq<Step>)
    requires Inv(s) && Offering(s.chan) && Runs(s, es)
    ensures Offering(Final(s, es).chan)
    decreases |es|
  {
    if es != [] {
      StepKeepsInv(s, es[0]);
      StepKeepsOffering(s, es[0]);
      OfferingInEveryRun(Next(s, es[0]), es[1..]);
    }
  }

  // ---- a worker that announces its end leaves nobody waiting ----

  predicate NeverReopened(es: seq<Step>) { forall i :: 0 <= i < |es| ==> !es[i].Reopen? }

  /** The end is announced only for a completed job, so a client that comes after it reads it as completed. */
  ghost predicate LateReadsDone(s: State) {
    && (s.writer.Ended? || s.writer.Completed? ==> s.done)
    && (s.late && Listening(s.reader) ==> s.writer.Ended?)
    && (s.late ==> !Streams(s.reader) && (s.reader.JobRead? ==> s.reader.done))
  }

  lemma StepKeepsLateReadsDone(s: State, e: Step)
    requires LateReadsDone(s) && Can(s, e) && !e.Reopen?
    ensures LateReadsDone(Next(s, e))
  {
    if WriterStep(e) {
      WriterFrame(s, e);
    } else if ReaderStep(e) {
      ReaderFrame(s, e);
    }
  }

  lemma {:induction false} LateReadsDoneInRun(s: State, es: seq<Step>)
    requires LateReadsDone(s) && Runs(s, es) && NeverReopened(es)
    ensures LateReadsDone(Final(s, es))
    decreases |es|
  {
    if es != [] {
      StepKeepsLateReadsDone(s, es[0]);
      LateReadsDoneInRun(Next(s, es[0]), es[1..]);
    }
  }

  /**
    When the worker announces its end and no cancel re-opens the job, a client that does not give
    up has finished wherever the run comes to rest, whenever it subscribed.
  */
  lemma AnnouncedEndFinishes(after: int, rows: seq<int>, es: seq<Step>)
    requires Increasing(rows) && Runs(Init(after, rows), es) && NeverAborts(es) && NeverReopened(es)
    ensures var end := Final(Init(after, rows), es);
            end.writer.Ended? && Stuck(end) ==> end.reader.Finished?
  {
    ReachedNotAborted(after, rows, es);
    LateReadsDoneInRun(Init(after, rows), es);
    var end := Final(Init(after, rows), es);
    if end.writer.Ended? && Stuck(end) {
      StuckIff(end);
    }
  }
}
