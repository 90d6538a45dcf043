/** Server-sent events: the query of app/services/events.py and the polling loop of
    app/api/reviews.py over the snapshots of the tables that it happens to see. */
module Stream {
  import opened Wrappers
  import opened Sorting
  import opened Database
  import opened DatabaseInvariant
  import opened Protocol
  import opened Progress

  // ---- The query ---------------------------------------------------------------------------

  predicate SequenceLe(a: JobEvent, b: JobEvent) {
    a.sequence <= b.sequence
  }

  function Beyond(log: Log, n: nat): Log {
    if log == [] then []
    else Beyond(log[..|log| - 1], n) + (if log[|log| - 1].sequence > n then [log[|log| - 1]] else [])
  }

  /** `list_events_after`. */
  function EventsAfter(log: Log, n: nat): Log {
    Sort(SequenceLe, Beyond(log, n))
  }

  /** The entries of a gap-free log above cursor `n`. */
  function After(log: Log, n: nat): Log {
    if n <= |log| then log[n..] else []
  }

  lemma {:induction false} BeyondIsAfter(log: Log, n: nat)
    requires Numbered(log)
    ensures Beyond(log, n) == After(log, n)
  {
    if log != [] {
      BeyondIsAfter(log[..|log| - 1], n);
      AfterSnoc(log, n);
      hide After;
    }
  }

  lemma AfterSnoc(log: Log, n: nat)
    requires log != []
    ensures After(log, n) == After(log[..|log| - 1], n) + (if |log| > n then [log[|log| - 1]] else [])
  {
    if |log| > n {
      assert log[n..] == log[..|log| - 1][n..] + [log[|log| - 1]];
    }
  }

  lemma EventsAfterIsAfter(log: Log, n: nat)
    requires Numbered(log)
    ensures EventsAfter(log, n) == After(log, n)
  {
    BeyondIsAfter(log, n);
    SortOfSorted(SequenceLe, After(log, n));
  }

  // ---- The events of a job -----------------------------------------------------------------

  /** The events after which the stream is closed. */
  predicate Closing(body: EventBody) {
    body.DoneEvent? || (body.StatusEvent? && body.status.Failed?)
  }

  ghost predicate ClosedLog(log: Log) {
    log != [] && Closing(log[|log| - 1].body)
  }

  ghost predicate LogShape(log: Log) {
    && log != [] && Numbered(log)
    && forall i :: 0 <= i < |log| - 1 ==> !Closing(log[i].body)
  }

  /** Nothing follows a closing event, and there is one exactly when the job has ended. */
  lemma ClosingIsLast(db: Db, j: nat)
    requires DbInv(db) && j < |db.jobs|
    ensures j < |db.logs| && LogShape(db.logs[j])
    ensures ClosedLog(db.logs[j]) <==> db.jobs[j].Terminal()
  {
    assert JobFits(db, j);
    var job, log := db.jobs[j], db.logs[j];
    if job.status.Done? {
      var n := |log| - |job.findings.value| - 2;
      forall i | 0 <= i < |log| - 1 ensures !Closing(log[i].body) {
        if n <= i < n + |job.findings.value| {
          assert log[n + (i - n)].body == FindingEvent(job.findings.value[i - n]);
        }
      }
    }
  }

  // ---- What a reader sees ------------------------------------------------------------------

  /** One turn of the loop: the tables at the query, the tables at the refresh of the row, and
      whether the client was gone by then. */
  datatype Round = Round(polled: Db, refreshed: Db, disconnected: bool)

  ghost predicate Fits(db: Db, j: nat) {
    DbInv(db) && j < |db.jobs| == |db.logs|
  }

  /** Snapshots of one history. */
  ghost predicate Observed(rounds: seq<Round>, j: nat) {
    && (forall i :: 0 <= i < |rounds| ==>
          Fits(rounds[i].polled, j) && Fits(rounds[i].refreshed, j) && Extends(rounds[i].polled, rounds[i].refreshed))
    && (forall i, k :: 0 <= i < k < |rounds| ==> Extends(rounds[i].refreshed, rounds[k].polled))
  }

  ghost function Polled(rounds: seq<Round>, j: nat, i: int): Log
    requires Observed(rounds, j) && 0 <= i < |rounds|
  {
    rounds[i].polled.logs[j]
  }

  ghost function Refreshed(rounds: seq<Round>, j: nat, i: int): Log
    requires Observed(rounds, j) && 0 <= i < |rounds|
  {
    rounds[i].refreshed.logs[j]
  }

  lemma SnapshotsGrow(rounds: seq<Round>, j: nat, i: nat)
    requires Observed(rounds, j) && i < |rounds|
    ensures LogShape(Polled(rounds, j, i)) && (ClosedLog(Polled(rounds, j, i)) <==> rounds[i].polled.jobs[j].Terminal())
    ensures Polled(rounds, j, i) <= Refreshed(rounds, j, i)
    ensures i > 0 ==> Polled(rounds, j, i - 1) <= Polled(rounds, j, i)
  {
    ClosingIsLast(rounds[i].polled, j);
    hide DbInv, LogShape, ClosedLog;
    assert RowExtends(rounds[i].polled, rounds[i].refreshed, j);
    if i > 0 {
      assert Extends(rounds[i - 1].refreshed, rounds[i].polled);
      assert RowExtends(rounds[i - 1].polled, rounds[i - 1].refreshed, j);
      assert RowExtends(rounds[i - 1].refreshed, rounds[i].polled, j);
    }
  }

  // ---- The loop ----------------------------------------------------------------------------

  /** How a stream stands: closed behind a closing event; closed because the row had failed and
      there was nothing to send; left by the client; or still polling. */
  datatype Ending = Delivered | RowFailed | Disconnected | Polling

  /** The cursor for a `Last-Event-ID` header, `None` if it is missing or no integer. */
  function Cursor(lastEventId: Option<int>): nat {
    if lastEventId.Some? && lastEventId.value > 0 then lastEventId.value else 0
  }

  /** Events that follow cursor `n`, of which only the last may close the stream. */
  ghost predicate Batch(events: Log, n: nat) {
    forall i :: 0 <= i < |events| ==> events[i].sequence == n + i + 1 && (Closing(events[i].body) ==> i == |events| - 1)
  }

  lemma BatchOf(log: Log, n: nat)
    requires LogShape(log)
    ensures Batch(After(log, n), n)
    ensures n < |log| ==> After(log, n) != [] && After(log, n)[|After(log, n)| - 1] == log[|log| - 1]
    ensures n >= |log| ==> After(log, n) == []
  {
    AfterSize(log, n);
  }

  /** A reader has been shown `shown` from cursor `start` on and then queries `log`: it receives the
      next entries, in order, and a closing event can only be the last of them. */
  lemma NextBatch(shown: Log, log: Log, start: nat, events: Log)
    requires shown <= log && LogShape(log) && !ClosedAbove(shown, start)
    requires events == After(log, start + |After(shown, start)|)
    ensures After(shown, start) + events == After(log, start)
    ensures Batch(events, start + |After(shown, start)|)
    ensures ClosedAbove(log, start) <==> events != [] && Closing(events[|events| - 1].body)
  {
    hide LogShape, After, Batch, Closing;
    AfterSplits(shown, log, start);
    AfterSize(shown, start);
    BatchOf(log, start + |After(shown, start)|);
    assert |shown| >= |log| ==> shown == log;
  }

  lemma AfterSize(log: Log, n: nat)
    ensures |After(log, n)| == if n <= |log| then |log| - n else 0
    ensures forall i :: 0 <= i < |After(log, n)| ==> After(log, n)[i] == log[n + i]
  {
  }

  /** What a reader is sent first and what it is sent later make up what there is above its cursor. */
  lemma AfterSplits(shown: Log, log: Log, start: nat)
    requires shown <= log
    ensures After(shown, start) + After(log, start + |After(shown, start)|) == After(log, start)
    ensures start <= |shown| ==> After(log, start + |After(shown, start)|) == log[|shown|..]
  {
    if start <= |shown| {
      assert shown == log[..|shown|];
      assert log[start..] == log[..|shown|][start..] + log[|shown|..];
    }
  }

  ghost predicate ClosedAbove(log: Log, start: nat) {
    start < |log| && ClosedLog(log)
  }

  ghost function Shown(rounds: seq<Round>, j: nat, start: nat, turns: int): Log
    requires Observed(rounds, j) && turns <= |rounds|
  {
    if turns <= 0 then [] else After(Polled(rounds, j, turns - 1), start)
  }

  /** Turn `i` shows the end of the job above the cursor. */
  ghost predicate ShowsEnd(rounds: seq<Round>, j: nat, start: nat, i: int)
    requires Observed(rounds, j) && 0 <= i < |rounds|
  {
    rounds[i].polled.jobs[j].Terminal() && start < |Polled(rounds, j, i)|
  }

  /** Turn `i` has nothing to send and then finds that the job has failed. */
  ghost predicate QuietFailure(rounds: seq<Round>, j: nat, start: nat, i: int)
    requires Observed(rounds, j) && 0 <= i < |rounds|
  {
    rounds[i].refreshed.jobs[j].status.Failed? && Shown(rounds, j, start, i + 1) == Shown(rounds, j, start, i)
  }

  ghost function EndingOf(rounds: seq<Round>, j: nat, start: nat, i: int): Ending
    requires Observed(rounds, j) && 0 <= i < |rounds|
  {
    if ShowsEnd(rounds, j, start, i) then Delivered
    else if QuietFailure(rounds, j, start, i) then RowFailed
    else if rounds[i].disconnected then Disconnected
    else Polling
  }

  predicate HasJob(round: Round, j: nat) {
    j < |round.polled.logs| && j < |round.refreshed.jobs|
  }

  /** The query of one turn. */
  function Query(round: Round, j: nat, sequence: nat): Log
    requires HasJob(round, j)
  {
    EventsAfter(round.polled.logs[j], sequence)
  }

  /** What the refreshed row of one turn says. */
  predicate RowHasFailed(round: Round, j: nat)
    requires HasJob(round, j)
  {
    round.refreshed.jobs[j].status.Failed?
  }

  lemma SnapshotRows(rounds: seq<Round>, j: nat, i: nat)
    requires Observed(rounds, j) && i < |rounds|
    ensures HasJob(rounds[i], j)
  {
    hide DbInv, Extends;
    assert Fits(rounds[i].polled, j) && Fits(rounds[i].refreshed, j);
  }

  /** What turn `i` receives after turns that have not closed the stream, and what it comes to. */
  lemma TurnOf(rounds: seq<Round>, j: nat, start: nat, i: nat, events: Log)
    requires Observed(rounds, j) && i < |rounds| && (i > 0 ==> EndingOf(rounds, j, start, i - 1) == Polling)
    requires HasJob(rounds[i], j) && events == Query(rounds[i], j, start + |Shown(rounds, j, start, i)|)
    ensures Shown(rounds, j, start, i) + events == Shown(rounds, j, start, i + 1)
    ensures Batch(events, start + |Shown(rounds, j, start, i)|)
    ensures EndingOf(rounds, j, start, i) ==
              if events != [] && Closing(events[|events| - 1].body) then Delivered
              else if RowHasFailed(rounds[i], j) && |events| == 0 then RowFailed
              else if rounds[i].disconnected then Disconnected
              else Polling
  {
    hide DbInv, Extends, LogShape, ClosedLog, After, EventsAfter;
    NothingShown(start);
    SnapshotsGrow(rounds, j, i);
    if i > 0 {
      SnapshotsGrow(rounds, j, i - 1);
    }
    QueryAnswers(Polled(rounds, j, i), start + |Shown(rounds, j, start, i)|);
    NextBatch(if i == 0 then [] else Polled(rounds, j, i - 1), Polled(rounds, j, i), start, events);
  }

  /** None of the first `n` turns ends the stream. */
  ghost predicate StillPolling(rounds: seq<Round>, j: nat, start: nat, n: int)
    requires Observed(rounds, j)
  {
    n <= |rounds| && forall i :: 0 <= i < n ==> EndingOf(rounds, j, start, i) == Polling
  }

  /** After `turns` turns the reader has been sent `sent`, its cursor follows, and it polls on. */
  ghost predicate Reading(rounds: seq<Round>, j: nat, start: nat, turns: int, sent: Log, sequence: nat) {
    && Observed(rounds, j) && 0 <= turns <= |rounds|
    && StillPolling(rounds, j, start, turns) && sent == Shown(rounds, j, start, turns)
    && sequence == start + |sent|
  }

  /** One turn more. */
  lemma AfterTurn(rounds: seq<Round>, j: nat, start: nat, turns: nat, sent: Log, sequence: nat, events: Log)
    requires Reading(rounds, j, start, turns, sent, sequence) && turns < |rounds| && HasJob(rounds[turns], j)
    requires events == Query(rounds[turns], j, sequence)
    ensures Batch(events, sequence)
    ensures var ending := if events != [] && Closing(events[|events| - 1].body) then Delivered
                          else if RowHasFailed(rounds[turns], j) && |events| == 0 then RowFailed
                          else if rounds[turns].disconnected then Disconnected
                          else Polling;
            && EndsAs(rounds, j, start, turns + 1, sent + events, ending)
            && (ending == Polling ==> Reading(rounds, j, start, turns + 1, sent + events, sequence + |events|))
  {
    hide Observed, EndingOf, Shown, Query, RowHasFailed, Batch, HasJob, Closing;
    TurnOf(rounds, j, start, turns, events);
  }

  /** The stream ends as `ending` in its last turn, having sent `sent`, and in no turn before it. */
  ghost predicate EndsAs(rounds: seq<Round>, j: nat, start: nat, turns: int, sent: Log, ending: Ending) {
    && Observed(rounds, j) && 0 < turns <= |rounds|
    && sent == Shown(rounds, j, start, turns)
    && ending == EndingOf(rounds, j, start, turns - 1)
    && StillPolling(rounds, j, start, turns - 1)
  }

  /** The inner loop: one event after the other, up to one that closes the stream. */
  method SendBatch(events: Log, cursor: nat) returns (sent: Log, sequence: nat, closed: bool)
    requires Batch(events, cursor)
    ensures sent == events && sequence == cursor + |events|
    ensures closed <==> events != [] && Closing(events[|events| - 1].body)
  {
    sent, sequence, closed := [], cursor, false;
    for i := 0 to |events|
      invariant sent == events[..i] && sequence == cursor + i
      invariant i > 0 ==> !Closing(events[i - 1].body)
    {
      sequence := events[i].sequence;
      sent := sent + [events[i]];
      if events[i].body.DoneEvent? {
        return sent, sequence, true;
      }
      if events[i].body.StatusEvent? && events[i].body.status.Failed? {
        return sent, sequence, true;
      }
    }
  }

  /** `stream_review`, with `turns` turns of its loop taken. What was sent is a
      gap-free and duplicate-free prefix of the log above the cursor: all that was committed at the
      last query. It ends in the first turn that shows the end of the job, has nothing to send of a
      failed job, or finds the client gone, and for the first of these reasons that holds. */
  method StreamReview(rounds: seq<Round>, j: nat, lastEventId: Option<int>)
    returns (sent: Log, ending: Ending, turns: nat)
    requires Observed(rounds, j)
    ensures turns == 0 ==> rounds == [] && sent == [] && ending == Polling
    ensures turns > 0 ==> EndsAs(rounds, j, Cursor(lastEventId), turns, sent, ending)
    ensures ending == Polling ==> turns == |rounds|
    ensures turns <= |rounds| && (turns > 0 ==> SentOf(sent, Polled(rounds, j, turns - 1), lastEventId))
    ensures NumberedAbove(sent, lastEventId)
    ensures turns > 0 ==> EndedFor(rounds, j, FirstNumber(lastEventId), turns - 1, ending)
    ensures forall i :: 0 <= i < turns - 1 ==> EndedFor(rounds, j, FirstNumber(lastEventId), i, Polling)
  {
    hide *;
    var start := Cursor(lastEventId);
    var sequence := start;
    sent, ending, turns := [], Polling, 0;
    NoTurns(rounds, j, start);
    NothingNumbered(lastEventId);
    while turns < |rounds|
      invariant turns <= |rounds| && ending == Polling
      invariant Reading(rounds, j, start, turns, sent, sequence)
      invariant if turns == 0 then sent == [] else EndsAs(rounds, j, start, turns, sent, Polling)
      invariant turns > 0 ==> SentOf(sent, Polled(rounds, j, turns - 1), lastEventId)
      invariant NumberedAbove(sent, lastEventId)
      invariant forall i :: 0 <= i < turns ==> EndedFor(rounds, j, FirstNumber(lastEventId), i, Polling)
    {
      SnapshotRows(rounds, j, turns);
      var round := rounds[turns];
      var events := Query(round, j, sequence);
      AfterTurn(rounds, j, start, turns, sent, sequence, events);
      var batch, closed;
      batch, sequence, closed := SendBatch(events, sequence);
      sent := sent + batch;
      turns := turns + 1;
      SentSoFar(rounds, j, lastEventId, turns, sent);
      EndedSoFar(rounds, j, lastEventId, turns, sent);
      if closed {
        return sent, Delivered, turns;
      }
      if RowHasFailed(round, j) && |events| == 0 {
        return sent, RowFailed, turns;
      }
      if round.disconnected {
        return sent, Disconnected, turns;
      }
    }
  }

  /** What a stream that last queried `log` has sent for a `Last-Event-ID` header: the whole log if the
      header is missing or negative, else all that comes after the first `n` entries of the log. */
  ghost predicate SentOf(sent: Log, log: Log, lastEventId: Option<int>) {
    match lastEventId
    case None => sent == log
    case Some(n) =>
      if n < 0 then sent == log
      else if n <= |log| then log[..n] + sent == log
      else sent == []
  }

  /** Consecutive numbers, from the one after the id given on; from 1 on if there is none or it is negative. */
  ghost predicate NumberedAbove(sent: Log, lastEventId: Option<int>) {
    match lastEventId
    case None => Numbered(sent)
    case Some(n) => if n < 0 then Numbered(sent) else forall i :: 0 <= i < |sent| ==> sent[i].sequence == n + 1 + i
  }

  /** The number of the first event that a reader with this header may be sent. */
  function FirstNumber(lastEventId: Option<int>): int {
    match lastEventId
    case None => 1
    case Some(n) => if n < 0 then 1 else n + 1
  }

  /** Turn `i` finds something in the log that is numbered `first` or above and was not there at the turn before. */
  ghost predicate HasNews(rounds: seq<Round>, j: nat, first: int, i: int)
    requires Observed(rounds, j) && 0 <= i < |rounds|
  {
    |Polled(rounds, j, i)| >= first && (i > 0 ==> |Polled(rounds, j, i)| > |Polled(rounds, j, i - 1)|)
  }

  /** Why turn `i` ends the stream, or that it does not: it shows the end of an ended job; the job has
      failed in the row while there is no news; the client is gone. */
  ghost predicate EndedFor(rounds: seq<Round>, j: nat, first: int, i: int, ending: Ending)
    requires Observed(rounds, j) && 0 <= i < |rounds|
  {
    var ended := rounds[i].polled.jobs[j].Terminal() && |Polled(rounds, j, i)| >= first;
    var failed := rounds[i].refreshed.jobs[j].status.Failed? && !HasNews(rounds, j, first, i);
    match ending
    case Delivered => ended
    case RowFailed => !ended && failed
    case Disconnected => !ended && !failed && rounds[i].disconnected
    case Polling => !ended && !failed && !rounds[i].disconnected
  }

  lemma EndingIs(rounds: seq<Round>, j: nat, start: nat, i: nat)
    requires Observed(rounds, j) && i < |rounds|
    ensures EndedFor(rounds, j, start + 1, i, EndingOf(rounds, j, start, i))
  {
    hide DbInv, Extends, LogShape, ClosedLog, After;
    SnapshotsGrow(rounds, j, i);
    AfterSize(Polled(rounds, j, i), start);
    if i > 0 {
      SnapshotsGrow(rounds, j, i - 1);
      AfterSize(Polled(rounds, j, i - 1), start);
      SameAfter(Polled(rounds, j, i - 1), Polled(rounds, j, i), start);
    }
  }

  lemma SameAfter(shorter: Log, longer: Log, start: nat)
    requires shorter <= longer
    ensures After(shorter, start) == After(longer, start) <==> |longer| <= start || |shorter| == |longer|
  {
    if |shorter| == |longer| {
      assert shorter == longer;
    }
  }

  lemma EndedSoFar(rounds: seq<Round>, j: nat, lastEventId: Option<int>, turns: nat, sent: Log)
    requires Observed(rounds, j) && 0 < turns <= |rounds|
    ensures FirstNumber(lastEventId) == Cursor(lastEventId) + 1
    ensures EndedFor(rounds, j, FirstNumber(lastEventId), turns - 1, EndingOf(rounds, j, Cursor(lastEventId), turns - 1))
    ensures forall ending :: EndsAs(rounds, j, Cursor(lastEventId), turns, sent, ending) ==>
              EndedFor(rounds, j, FirstNumber(lastEventId), turns - 1, ending)
  {
    hide EndingOf, EndedFor, Observed, Shown, StillPolling;
    EndingIs(rounds, j, Cursor(lastEventId), turns - 1);
  }

  lemma NothingNumbered(lastEventId: Option<int>)
    ensures NumberedAbove([], lastEventId)
  {
  }

  lemma SentSoFar(rounds: seq<Round>, j: nat, lastEventId: Option<int>, turns: nat, sent: Log)
    requires Observed(rounds, j) && 0 < turns <= |rounds|
    requires exists ending :: EndsAs(rounds, j, Cursor(lastEventId), turns, sent, ending)
    ensures SentOf(sent, Polled(rounds, j, turns - 1), lastEventId) && NumberedAbove(sent, lastEventId)
  {
    hide StillPolling, EndingOf, DbInv, Observed, ClosedLog;
    SnapshotsGrow(rounds, j, turns - 1);
    var log := Polled(rounds, j, turns - 1);
    assert sent == After(log, Cursor(lastEventId));
    AfterSize(log, Cursor(lastEventId));
  }

  /** A second stream, opened with the id of the last event received of the first, continues it. */
  lemma SentInTwo(first: Log, second: Log, lastEventId: Option<int>, sent: Log, before: Log, after: Log)
    requires Numbered(first) && Numbered(second) && first <= second && before <= sent
    requires SentOf(sent, first, lastEventId) && NumberedAbove(sent, lastEventId)
    requires SentOf(after, second, NextHeader(lastEventId, before))
    ensures SentOf(before + after, second, lastEventId)
  {
    if before != [] {
      var n := if lastEventId.Some? && lastEventId.value >= 0 then lastEventId.value else 0;
      assert before[|before| - 1].sequence == n + |before|;
      assert first == first[..n] + sent;
      assert second[..n + |before|] == first[..n] + before;
      assert second == second[..n + |before|] + after;
    } else {
      assert before + after == after;
    }
  }

  /** Earlier and later turns of one history. */
  lemma TwoParts(rounds: seq<Round>, more: seq<Round>, j: nat)
    requires Observed(rounds + more, j)
    ensures Observed(rounds, j) && Observed(more, j)
    ensures forall i, k :: 0 <= i < |rounds| && 0 <= k < |more| ==> Polled(rounds, j, i) <= Polled(more, j, k)
  {
    hide DbInv, Extends;
    var all := rounds + more;
    assert forall i :: 0 <= i < |rounds| ==> all[i] == rounds[i];
    assert forall k :: 0 <= k < |more| ==> all[|rounds| + k] == more[k];
    forall i, k | 0 <= i < |rounds| && 0 <= k < |more| ensures Polled(rounds, j, i) <= Polled(more, j, k) {
      ExtendsRow(all[i].polled, all[i].refreshed, j);
      assert Extends(all[i].refreshed, all[|rounds| + k].polled);
      ExtendsRow(all[i].refreshed, all[|rounds| + k].polled, j);
    }
    forall i, k | 0 <= i < k < |rounds| ensures Extends(rounds[i].refreshed, rounds[k].polled) {
      assert Extends(all[i].refreshed, all[k].polled);
    }
    forall i, k | 0 <= i < k < |more| ensures Extends(more[i].refreshed, more[k].polled) {
      assert Extends(all[|rounds| + i].refreshed, all[|rounds| + k].polled);
    }
  }

  /** The header of the next request of a reader that last received `received`. */
  function NextHeader(lastEventId: Option<int>, received: Log): Option<int> {
    if received == [] then lastEventId else Some(received[|received| - 1].sequence)
  }

  /** A reader that is cut off after at most `cut` events and comes back with the id of the last of them,
      or with its first header if it has received none, has in the end been sent exactly what lies
      above its first cursor: every event once, consecutively numbered, wherever it was cut off and
      whatever was committed in between. */
  method StreamInTwo(rounds: seq<Round>, more: seq<Round>, j: nat, lastEventId: Option<int>, cut: nat)
    returns (before: Log, after: Log, turns: nat)
    requires Observed(rounds + more, j)
    ensures Observed(more, j) && turns <= |more| && (turns == 0 <==> more == []) && |before| <= cut
    ensures turns > 0 ==> SentOf(before + after, Polled(more, j, turns - 1), lastEventId)
    ensures turns > 0 ==> NumberedAbove(before + after, lastEventId)
  {
    hide *;
    TwoParts(rounds, more, j);
    var sent, ending, seen := StreamReview(rounds, j, lastEventId);
    before := if |sent| <= cut then sent else sent[..cut];
    after, ending, turns := StreamReview(more, j, NextHeader(lastEventId, before));
    if turns > 0 {
      ghost var first := if seen == 0 then [] else Polled(rounds, j, seen - 1);
      if seen == 0 {
        NothingSent(lastEventId);
      } else {
        SnapshotsGrow(rounds, j, seen - 1);
        ShapeNumbers(first);
      }
      SnapshotsGrow(more, j, turns - 1);
      ShapeNumbers(Polled(more, j, turns - 1));
      SentInTwo(first, Polled(more, j, turns - 1), lastEventId, sent, before, after);
      SentNumbers(before + after, Polled(more, j, turns - 1), lastEventId);
    }
  }

  lemma NothingSent(lastEventId: Option<int>)
    ensures SentOf([], [], lastEventId) && Numbered([])
  {
  }

  lemma ShapeNumbers(log: Log)
    requires LogShape(log)
    ensures Numbered(log)
  {
  }

  lemma SentNumbers(sent: Log, log: Log, lastEventId: Option<int>)
    requires Numbered(log) && SentOf(sent, log, lastEventId)
    ensures NumberedAbove(sent, lastEventId)
  {
    if lastEventId.Some? && 0 <= lastEventId.value <= |log| {
      assert forall i :: 0 <= i < |sent| ==> sent[i] == (log[..lastEventId.value] + sent)[lastEventId.value + i];
    }
  }

  lemma NoTurns(rounds: seq<Round>, j: nat, start: nat)
    requires Observed(rounds, j)
    ensures Reading(rounds, j, start, 0, [], start)
  {
  }

  /** A job that has ended closes its streams, in any turn, exactly when it has failed or the cursor
      is below its last event: a stream of a done job opened at its last event or beyond polls until
      the client leaves. */
  lemma EndedJobCloses(rounds: seq<Round>, j: nat, start: nat, i: nat)
    requires Observed(rounds, j) && i < |rounds| && rounds[0].polled.jobs[j].Terminal()
    ensures (EndingOf(rounds, j, start, i) in {Delivered, RowFailed}) <==>
            (rounds[0].polled.jobs[j].status.Failed? || start < |Polled(rounds, j, 0)|)
  {
    EndedStays(rounds, j, i);
    if i > 0 {
      EndedStays(rounds, j, i - 1);
    }
  }

  /** Such a stream exists: after this run the job is done, and a reader that comes back with the id
      of its last event polls through any number of turns. */
  lemma DoneStreamPolls(sub: Submission, now: int, turns: nat)
    requires sub.request.maxFindings <= MAX_FINDINGS
    ensures var steps := [Submitted(sub, None, now), Claimed(0, 0), SourceDone(0, [])];
            && Legal(Init(1), steps)
            && var db := Final(Init(1), steps).db;
            && |db.jobs| == 1 == |db.logs| && db.jobs[0].status.Done? && ClosedLog(db.logs[0])
            && var rounds := seq(turns, i => Round(db, db, false));
            && Observed(rounds, 0) && forall i :: 0 <= i < turns ==> EndingOf(rounds, 0, |db.logs[0]|, i) == Polling
  {
    var a, b, c := Submitted(sub, None, now), Claimed(0, 0), SourceDone(0, []);
    var s1 := Apply(Init(1), a);
    assert FirstQueued(s1.db, 0);
    var s2 := Apply(s1, b);
    StatusAfter(s2.db, 0, [], "");
    TransactionIsOneRow(s2.db, 0, [], "");
    hide Append, AppendAll, FinishSource, DbInv, LogShape, RowExtends;
    LegalThree(Init(1), a, b, c);
    InitInv(1);
    RunKeepsInv(Init(1), [a, b, c]);
    var db := Apply(s2, c).db;
    DbInvSizes(db);
    SelfExtends(Apply(s2, c));
    ClosingIsLast(db, 0);
    var rounds := seq(turns, i => Round(db, db, false));
    forall i | 0 <= i < turns ensures EndingOf(rounds, 0, |db.logs[0]|, i) == Polling {
      EndedJobCloses(rounds, 0, |db.logs[0]|, i);
    }
  }

  lemma EndedStays(rounds: seq<Round>, j: nat, i: nat)
    requires Observed(rounds, j) && i < |rounds| && rounds[0].polled.jobs[j].Terminal()
    ensures rounds[i].polled.jobs[j] == rounds[i].refreshed.jobs[j] == rounds[0].polled.jobs[j]
    ensures Polled(rounds, j, i) == Polled(rounds, j, 0)
  {
    ExtendsRow(rounds[0].polled, rounds[0].refreshed, j);
    ExtendsRow(rounds[i].polled, rounds[i].refreshed, j);
    if i > 0 {
      ExtendsRow(rounds[0].refreshed, rounds[i].polled, j);
    }
    hide DbInv, Extends;
  }

  lemma NothingShown(start: nat)
    ensures After([], start) == [] && !ClosedAbove([], start)
  {
  }

  lemma QueryAnswers(log: Log, n: nat)
    requires LogShape(log)
    ensures EventsAfter(log, n) == After(log, n)
  {
    EventsAfterIsAfter(log, n);
  }

  // ---- What the loop promises the reader ---------------------------------------------------

  /** A job that ends done is delivered through its `done` event: the last event sent by a stream
      closed behind an event is the last event of the job, for ever. */
  lemma DeliveredIsComplete(before: Db, after: Db, j: nat, start: nat)
    requires Fits(before, j) && Fits(after, j) && Extends(before, after)
    requires before.jobs[j].Terminal() && start < |before.logs[j]|
    ensures After(before.logs[j], start) == After(after.logs[j], start) != []
    ensures var last := After(after.logs[j], start)[|After(after.logs[j], start)| - 1].body;
            if after.jobs[j].status.Done? then last.DoneEvent? && last.usage == after.jobs[j].UsageOf()
            else last == StatusEvent(Failed, after.jobs[j].error)
  {
    hide Extends;
    ExtendsRow(before, after, j);
    assert JobFits(after, j);
    hide DbInv, Numbered, Alternates;
  }

  lemma ExtendsRow(before: Db, after: Db, j: nat)
    requires Extends(before, after) && j < |before.jobs|
    ensures |before.jobs| == |before.logs| <= |after.jobs| == |after.logs| && RowExtends(before, after, j)
  {
  }

  /** A stream closed because the row had failed (`QuietFailure`), whatever its cursor, has missed of
      the whole log exactly what a reader gets that comes back with the last id it was sent. For a
      cursor within the log these are the events committed between its last query and the refresh;
      for one beyond it, those of them above the cursor. */
  lemma FailedCloseMisses(polled: Db, refreshed: Db, later: Db, j: nat, start: nat, sent: Log)
    requires Fits(polled, j) && Fits(refreshed, j) && Fits(later, j)
    requires Extends(polled, refreshed) && Extends(refreshed, later)
    requires refreshed.jobs[j].status.Failed? && sent == After(polled.logs[j], start)
    ensures later.logs[j] == refreshed.logs[j] && polled.logs[j] <= refreshed.logs[j]
    ensures EventsAfter(later.logs[j], ResumeAt(start, sent)) == After(refreshed.logs[j], start + |sent|)
    ensures sent + After(refreshed.logs[j], start + |sent|) == After(later.logs[j], start)
    ensures start <= |polled.logs[j]| ==> After(refreshed.logs[j], start + |sent|) == refreshed.logs[j][|polled.logs[j]|..]
  {
    FailedLogs(polled, refreshed, later, j);
    hide *;
    LastSequence(polled.logs[j], start);
    QueryAnswers(later.logs[j], ResumeAt(start, sent));
    AfterSplits(polled.logs[j], refreshed.logs[j], start);
  }

  lemma FailedLogs(polled: Db, refreshed: Db, later: Db, j: nat)
    requires Fits(polled, j) && Fits(refreshed, j) && Fits(later, j)
    requires Extends(polled, refreshed) && Extends(refreshed, later) && refreshed.jobs[j].status.Failed?
    ensures j < |polled.logs| && j < |refreshed.logs| && j < |later.logs|
    ensures later.logs[j] == refreshed.logs[j] && polled.logs[j] <= refreshed.logs[j]
    ensures LogShape(polled.logs[j]) && LogShape(later.logs[j])
  {
    ExtendsRow(polled, refreshed, j);
    ExtendsRow(refreshed, later, j);
    ClosingIsLast(later, j);
    ClosingIsLast(polled, j);
    hide DbInv, Extends, LogShape, ClosedLog;
  }

  /** The cursor of a reader that comes back after having been sent `sent`. */
  function ResumeAt(start: nat, sent: Log): nat {
    if sent == [] then start else sent[|sent| - 1].sequence
  }

  lemma LastSequence(log: Log, start: nat)
    requires LogShape(log)
    ensures ResumeAt(start, After(log, start)) == start + |After(log, start)|
  {
  }

  lemma PrefixIsShown(log: Log, start: nat, sent: Log) returns (shown: Log)
    requires LogShape(log) && sent <= After(log, start) && sent != []
    ensures shown <= log && After(shown, start) == sent
    ensures ResumeAt(start, sent) == start + |sent|
  {
    shown := log[..start + |sent|];
    assert shown[start..] == log[start..][..|sent|];
    assert sent[|sent| - 1] == log[start..][|sent| - 1];
  }

  /** Stopping after any event and resuming from its id gives what one stream gives: no gap and no
      repetition, wherever the first stream was cut. */
  lemma ResumeContinues(first: Log, second: Log, start: nat, sent: Log)
    requires LogShape(first) && LogShape(second) && first <= second
    requires sent <= After(first, start)
    ensures sent + EventsAfter(second, ResumeAt(start, sent)) == EventsAfter(second, start)
  {
    hide LogShape, After, EventsAfter;
    QueryAnswers(second, start);
    if sent != [] {
      QueryAnswers(second, ResumeAt(start, sent));
      var shown := PrefixIsShown(first, start, sent);
      AfterSplits(shown, second, start);
    }
  }

  // ---- Readers beside a run ----------------------------------------------------------------

  /** The state after the first `i` steps. */
  function StateAt(s: State, steps: seq<Step>, i: nat): State
    requires Legal(s, steps) && i <= |steps|
    decreases |steps|
  {
    if i == 0 then s else StateAt(Apply(s, steps[0]), steps[1..], i - 1)
  }

  lemma {:induction false} StatesGrow(s: State, steps: seq<Step>, i: nat, k: nat)
    requires Inv(s) && Legal(s, steps) && i <= k <= |steps|
    ensures Inv(StateAt(s, steps, i)) && Inv(StateAt(s, steps, k))
    ensures Extends(StateAt(s, steps, i).db, StateAt(s, steps, k).db)
    decreases |steps|
  {
    hide Inv, Extends, Enabled, Apply;
    SelfExtends(s);
    if k > 0 {
      var t := Apply(s, steps[0]);
      StepKeepsInv(s, steps[0]);
      if i > 0 {
        StatesGrow(t, steps[1..], i - 1, k - 1);
      } else {
        StatesGrow(t, steps[1..], 0, k - 1);
        StepExtends(s, steps[0]);
        ExtendsTransitive(s.db, t.db, StateAt(s, steps, k).db);
      }
    }
  }

  lemma SelfExtends(s: State)
    requires Inv(s)
    ensures Extends(s.db, s.db)
  {
    DbInvSizes(s.db);
    SameExtends(s.db);
  }

  /** Where one turn of a reader falls into a run. */
  datatype Turn = Turn(poll: nat, refresh: nat, disconnected: bool)

  ghost predicate InOrder(turns: seq<Turn>, end: nat) {
    && (forall i :: 0 <= i < |turns| ==> turns[i].poll <= turns[i].refresh <= end)
    && forall i, k :: 0 <= i < k < |turns| ==> turns[i].refresh <= turns[k].poll
  }

  function RoundAt(s: State, steps: seq<Step>, turn: Turn): Round
    requires Legal(s, steps) && turn.poll <= |steps| && turn.refresh <= |steps|
  {
    Round(StateAt(s, steps, turn.poll).db, StateAt(s, steps, turn.refresh).db, turn.disconnected)
  }

  /** Every interleaving of a reader of job `j` with a run of the service gives snapshots of one
      history: what is proved of `StreamReview` holds beside every run. */
  lemma ReadersSeeOneHistory(s: State, steps: seq<Step>, turns: seq<Turn>, j: nat)
    requires Inv(s) && Legal(s, steps) && j < |s.db.jobs| && InOrder(turns, |steps|)
    ensures Observed(seq(|turns|, i requires 0 <= i < |turns| => RoundAt(s, steps, turns[i])), j)
  {
    var rounds := seq(|turns|, i requires 0 <= i < |turns| => RoundAt(s, steps, turns[i]));
    forall i | 0 <= i < |turns|
      ensures Fits(rounds[i].polled, j) && Fits(rounds[i].refreshed, j) && Extends(rounds[i].polled, rounds[i].refreshed)
    {
      StateFits(s, steps, turns[i].poll, j);
      StateFits(s, steps, turns[i].refresh, j);
      StatesGrow(s, steps, turns[i].poll, turns[i].refresh);
    }
    forall i, k | 0 <= i < k < |turns| ensures Extends(rounds[i].refreshed, rounds[k].polled) {
      StatesGrow(s, steps, turns[i].refresh, turns[k].poll);
    }
  }

  lemma StateFits(s: State, steps: seq<Step>, i: nat, j: nat)
    requires Inv(s) && Legal(s, steps) && i <= |steps| && j < |s.db.jobs|
    ensures Fits(StateAt(s, steps, i).db, j)
  {
    StatesGrow(s, steps, 0, i);
    DbInvSizes(StateAt(s, steps, i).db);
    hide DbInv, RowExtends, Legal;
  }
}
