/** What every committed transaction keeps of the tables: cache ownership, the grammar of the event
    logs, and the agreement of rows, logs and cache entries. */
module DatabaseInvariant {
  import opened Wrappers
  import opened Findings
  import opened Database

  /** The first `n` events are queued, running, queued, running, ... */
  ghost predicate Alternates(log: Log, n: int) {
    0 <= n <= |log| &&
    forall i :: 0 <= i < n ==> log[i].body == StatusEvent(if i % 2 == 0 then Queued else Running, None)
  }

  /** The event log of a job: numbered 1, 2, ... without gaps; queued and running in turn, then, once
      the job has ended, either one failed status, or its findings in order, a done status and the
      `done` event with their count and the job's usage. Nothing follows. */
  ghost predicate LogFits(job: Job, log: Log) {
    && Numbered(log)
    && match job.status
       case Queued => |log| % 2 == 1 && Alternates(log, |log|)
       case Running => |log| % 2 == 0 && |log| > 0 && Alternates(log, |log|)
       case Failed =>
         && |log| % 2 == 1 && |log| >= 3 && Alternates(log, |log| - 1)
         && log[|log| - 1].body == StatusEvent(Failed, job.error)
       case Done => job.findings.Some? && EndsDone(job, log, |log| - |job.findings.value| - 2)
  }

  ghost predicate EndsDone(job: Job, log: Log, n: int)
    requires job.findings.Some?
  {
    var fs := job.findings.value;
    && n > 0 && n % 2 == 0 && |log| == n + |fs| + 2 && Alternates(log, n)
    && (forall i :: 0 <= i < |fs| ==> log[n + i].body == FindingEvent(fs[i]))
    && log[n + |fs|].body == StatusEvent(Done, None)
    && log[n + |fs| + 1].body == DoneEvent(|fs|, job.UsageOf())
  }

  ghost predicate JobFits(db: Db, j: int)
    requires 0 <= j < |db.jobs| == |db.logs|
  {
    var job := db.jobs[j];
    && job.request in db.cache
    && var e := db.cache[job.request];
    && (if job.cacheHit then e.source < j else e.source == j)
    && (job.error.Some? <==> job.status.Failed?) && job.error != Some("")
    && (job.findings.Some? <==> job.status.Done?)
    && (job.status.Done? ==> e.findings.Some? && job.findings.value == Take(e.findings.value, job.request.maxFindings))
    && LogFits(job, db.logs[j])
  }

  function StateFor(status: Status): CacheState {
    match status
    case Queued => InProgress
    case Running => InProgress
    case Done => Complete
    case Failed => Broken
  }

  /** A cache entry belongs to one job, the one that did not hit the cache, and reflects its status. */
  ghost predicate EntryFits(db: Db, r: Request)
    requires r in db.cache
  {
    var e := db.cache[r];
    && e.source < |db.jobs|
    && db.jobs[e.source].request == r && !db.jobs[e.source].cacheHit
    && e.state == StateFor(db.jobs[e.source].status)
    && (e.findings.Some? <==> e.state.Complete?)
    && (e.findings.Some? ==> Normal(e.findings.value))
  }

  ghost predicate KeysFit(db: Db) {
    forall k :: k in db.keys ==> k != "" && db.keys[k].job < |db.jobs|
  }

  ghost predicate DbInv(db: Db) {
    && |db.logs| == |db.jobs|
    && (forall j :: 0 <= j < |db.jobs| ==> JobFits(db, j))
    && (forall r :: r in db.cache ==> EntryFits(db, r))
    && KeysFit(db)
  }

  // ---- One row changes ---------------------------------------------------------------------

  /** `after` differs from `before` at most in row `j`, its log, and the cache entry of its request. */
  ghost predicate RowChange(before: Db, after: Db, j: nat) {
    && |before.logs| == |before.jobs| == |after.jobs| == |after.logs| && j < |before.jobs|
    && (forall k :: 0 <= k < |before.jobs| && k != j ==> after.jobs[k] == before.jobs[k] && after.logs[k] == before.logs[k])
    && after.jobs[j].request == before.jobs[j].request && after.jobs[j].cacheHit == before.jobs[j].cacheHit
    && after.cache.Keys == before.cache.Keys && after.keys == before.keys
    && (forall r :: r in before.cache ==>
          && after.cache[r].source == before.cache[r].source
          && (after.cache[r] == before.cache[r] || (r == before.jobs[j].request && before.cache[r].state.InProgress?)))
  }

  lemma RowChangeKeeps(before: Db, after: Db, j: nat)
    requires DbInv(before) && RowChange(before, after, j)
    requires JobFits(after, j) && EntryFits(after, before.jobs[j].request)
    ensures DbInv(after)
  {
    hide LogFits, Normal, Take;
    forall k | 0 <= k < |after.jobs| && k != j ensures JobFits(after, k) {
      assert JobFits(before, k);
      assert EntryFits(before, before.jobs[k].request);
    }
    forall r | r in after.cache && r != before.jobs[j].request ensures EntryFits(after, r) {
      assert EntryFits(before, r);
    }
    assert KeysFit(before);
  }

  // ---- Logs --------------------------------------------------------------------------------

  lemma StatusAppended(job: Job, log: Log, job': Job)
    requires LogFits(job, log) && !job.Terminal()
    requires job'.status == if job.status.Queued? then Running else Queued
    ensures LogFits(job', Append(log, StatusEvent(job'.status, None)))
  {
    NextSequence(log);
  }

  lemma FailureAppended(job: Job, log: Log, job': Job)
    requires LogFits(job, log) && job.status.Running? && job'.status.Failed?
    ensures LogFits(job', Append(log, StatusEvent(Failed, job'.error)))
  {
    NextSequence(log);
  }

  lemma ResultAppended(job: Job, log: Log, job': Job)
    requires LogFits(job, log) && job.status.Running?
    requires job'.status.Done? && job'.findings.Some? && job'.UsageOf() == job.UsageOf()
    ensures LogFits(job', AppendAll(log, DoneEvents(job, job'.findings.value)))
  {
    var fs, n := job'.findings.value, |log|;
    var bodies := DoneEvents(job, fs);
    var r := AppendAll(log, bodies);
    AppendAllNumbered(log, bodies);
    assert forall i :: 0 <= i < n ==> r[i] == r[..n][i];
    forall i | 0 <= i < |fs| ensures r[n + i].body == FindingEvent(fs[i]) {
      assert bodies[i] == FindingEvents(fs)[i];
    }
    assert bodies[|fs|] == StatusEvent(Done, None) && bodies[|fs| + 1] == DoneEvent(|fs|, job.UsageOf());
    assert EndsDone(job', r, n);
  }

  // ---- Each transaction --------------------------------------------------------------------

  lemma SubmitKeeps(db: Db, sub: Submission, key: Option<string>, now: int)
    requires DbInv(db)
    ensures DbInv(Submit(db, sub, key, now))
    ensures !Answer(db, sub, key).Inconsistent?
  {
    var after := Submit(db, sub, key, now);
    hide Normal, Take;
    if !(HasKey(key) && key.value in db.keys) {
      var id := |db.jobs|;
      NewLogFits(after.jobs[id]);
      hide LogFits, Append;
      forall j | 0 <= j < |after.jobs| ensures JobFits(after, j) {
        if j < id {
          assert JobFits(db, j);
        } else if sub.request in db.cache {
          assert EntryFits(db, sub.request);
        }
      }
      forall r | r in after.cache ensures EntryFits(after, r) {
        if r in db.cache {
          assert EntryFits(db, r);
        }
      }
    }
  }

  lemma NewLogFits(job: Job)
    requires job.status.Queued?
    ensures LogFits(job, Append([], StatusEvent(Queued, None)))
  {
  }

  lemma ClaimKeeps(db: Db, j: nat)
    requires DbInv(db) && j < |db.jobs| && db.jobs[j].status.Queued?
    ensures DbInv(Claim(db, j))
  {
    var after := Claim(db, j);
    assert JobFits(db, j) && EntryFits(db, db.jobs[j].request);
    StatusAppended(db.jobs[j], db.logs[j], after.jobs[j]);
    hide LogFits, Append, Normal;
    RowChangeKeeps(db, after, j);
  }

  lemma RequeueKeeps(db: Db, j: nat)
    requires DbInv(db) && j < |db.jobs| && db.jobs[j].status.Running?
    ensures DbInv(SetStatus(db, j, Queued))
  {
    var after := SetStatus(db, j, Queued);
    assert JobFits(db, j) && EntryFits(db, db.jobs[j].request);
    StatusAppended(db.jobs[j], db.logs[j], after.jobs[j]);
    hide LogFits, Append, Normal;
    RowChangeKeeps(db, after, j);
  }

  lemma {:induction false} RecoverFirstKeeps(db: Db, n: nat)
    requires DbInv(db) && n <= |db.jobs|
    ensures DbInv(RecoverFirst(db, n))
  {
    hide DbInv, SetStatus;
    DbInvSizes(db);
    if n > 0 {
      RecoverFirstKeeps(db, n - 1);
      if RecoverFirst(db, n - 1).jobs[n - 1].status.Running? {
        RequeueKeeps(RecoverFirst(db, n - 1), n - 1);
      }
    }
  }

  lemma DbInvSizes(db: Db)
    requires DbInv(db)
    ensures |db.logs| == |db.jobs|
  {
  }

  lemma FinishSourceKeeps(db: Db, j: nat, raw: seq<Finding>)
    requires DbInv(db) && j < |db.jobs| && db.jobs[j].status.Running? && !db.jobs[j].cacheHit
    ensures db.jobs[j].request in db.cache
    ensures DbInv(FinishSource(db, j, raw))
  {
    hide LogFits, AppendAll, DoneEvents, Normal, Ordered, Take;
    assert JobFits(db, j) && EntryFits(db, db.jobs[j].request);
    var after := FinishSource(db, j, raw);
    OrderedIsNormal(raw, FULL);
    ResultAppended(db.jobs[j], db.logs[j], after.jobs[j]);
    assert EntryFits(after, db.jobs[j].request);
    assert JobFits(after, j);
    RowChangeKeeps(db, after, j);
  }

  lemma FinishFollowerKeeps(db: Db, j: nat)
    requires DbInv(db) && j < |db.jobs| && db.jobs[j].status.Running? && db.jobs[j].cacheHit
    requires CacheReady(db, j)
    ensures DbInv(FinishFollower(db, j))
  {
    assert JobFits(db, j) && EntryFits(db, db.jobs[j].request);
    var after := FinishFollower(db, j);
    OrderedOfNormal(db.cache[db.jobs[j].request].findings.value, db.jobs[j].request.maxFindings);
    ResultAppended(db.jobs[j], db.logs[j], after.jobs[j]);
    hide LogFits, AppendAll, DoneEvents, Normal, Ordered, Take;
    RowChangeKeeps(db, after, j);
  }

  lemma FailJobKeeps(db: Db, j: nat, message: string)
    requires DbInv(db) && j < |db.jobs| && db.jobs[j].status.Running?
    ensures DbInv(FailJob(db, j, message))
  {
    var after := FailJob(db, j, message);
    assert JobFits(db, j) && EntryFits(db, db.jobs[j].request);
    FailedRow(db, j, message);
    hide *;
    FailureAppended(db.jobs[j], db.logs[j], after.jobs[j]);
    FailedRowFits(db, after, j);
    RowChangeKeeps(db, after, j);
  }

  /** What the failure transaction does to the row, the log and the entry. */
  lemma FailedRow(db: Db, j: nat, message: string)
    requires ValidId(db, j) && db.jobs[j].status.Running? && JobFits(db, j)
    requires db.jobs[j].request in db.cache && EntryFits(db, db.jobs[j].request)
    ensures var after := FailJob(db, j, message);
            && RowChange(db, after, j) && FailedAs(db, after, j)
            && after.logs[j] == Append(db.logs[j], StatusEvent(Failed, after.jobs[j].error))
            && LogFits(db.jobs[j], db.logs[j]) && db.jobs[j].status.Running? && after.jobs[j].status.Failed?
  {
    hide LogFits, Append, Normal, Take;
  }

  ghost predicate FailedAs(before: Db, after: Db, j: nat) {
    && |before.logs| == |before.jobs| == |after.jobs| == |after.logs| && j < |before.jobs|
    && before.jobs[j].request in before.cache && before.jobs[j].request in after.cache
    && after.jobs[j].status.Failed? && after.jobs[j].error.Some? && after.jobs[j].error != Some("")
    && after.jobs[j] == before.jobs[j].(status := Failed, error := after.jobs[j].error)
    && var e := before.cache[before.jobs[j].request];
       after.cache[before.jobs[j].request] == if e.source == j then e.(state := Broken) else e
  }

  lemma FailedRowFits(before: Db, after: Db, j: nat)
    requires RowChange(before, after, j) && FailedAs(before, after, j)
    requires JobFits(before, j) && before.jobs[j].status.Running? && EntryFits(before, before.jobs[j].request)
    requires LogFits(after.jobs[j], after.logs[j])
    ensures JobFits(after, j) && EntryFits(after, before.jobs[j].request)
  {
    hide LogFits, Normal, Take;
  }

  // ---- What the invariant says -------------------------------------------------------------

  /** At most one job per request did not hit the cache; it owns the entry. */
  lemma OneOwner(db: Db, j: nat, k: nat)
    requires DbInv(db) && j < |db.jobs| && k < |db.jobs|
    requires db.jobs[j].request == db.jobs[k].request && !db.jobs[j].cacheHit
    ensures db.jobs[k].request in db.cache && db.cache[db.jobs[k].request].source == j
    ensures !db.jobs[k].cacheHit ==> k == j
    ensures db.jobs[k].cacheHit ==> j < k
  {
    hide LogFits, Normal, Take;
    assert JobFits(db, j) && JobFits(db, k);
  }

  /** Whatever the provider is: two done jobs of one request have the same findings, whether or not
      they hit the cache. */
  lemma DoneJobsAgree(db: Db, j: nat, k: nat)
    requires DbInv(db) && j < |db.jobs| && k < |db.jobs|
    requires db.jobs[j].request == db.jobs[k].request && db.jobs[j].status.Done? && db.jobs[k].status.Done?
    ensures db.jobs[j].findings == db.jobs[k].findings && db.jobs[j].findings.Some?
  {
    hide LogFits, Normal, Take;
    assert JobFits(db, j) && JobFits(db, k);
  }

  /** The finding events of a log, in order. */
  function FindingsIn(log: Log): seq<Finding> {
    if log == [] then []
    else
      FindingsIn(log[..|log| - 1])
      + (if log[|log| - 1].body.FindingEvent? then [log[|log| - 1].body.finding] else [])
  }

  lemma {:induction false} FindingsOfDone(job: Job, log: Log, n: nat, i: nat)
    requires job.findings.Some? && EndsDone(job, log, n) && i <= |job.findings.value|
    ensures FindingsIn(log[..n + i]) == job.findings.value[..i]
    decreases n + i
  {
    if i > 0 {
      FindingsOfDone(job, log, n, i - 1);
      assert log[..n + i][..n + i - 1] == log[..n + i - 1];
      assert log[n + (i - 1)].body == FindingEvent(job.findings.value[i - 1]);
    } else {
      NoFindingsIn(log, n);
    }
  }

  lemma {:induction false} NoFindingsIn(log: Log, n: nat)
    requires Alternates(log, n)
    ensures FindingsIn(log[..n]) == []
  {
    if n > 0 {
      assert log[..n][..n - 1] == log[..n - 1];
      assert log[n - 1].body.StatusEvent?;
      NoFindingsIn(log, n - 1);
    }
  }

  lemma FindingsSkip(log: Log, n: nat)
    requires n < |log| && !log[n].body.FindingEvent?
    ensures FindingsIn(log[..n + 1]) == FindingsIn(log[..n])
  {
    assert log[..n + 1][..n] == log[..n];
  }

  /** Result conservation: the finding payloads in the log of a done job are, in order, the findings
      of its row; the `done` event closes the log and reports their number and the usage that
      polling reports. */
  lemma ResultConserved(db: Db, j: nat)
    requires DbInv(db) && j < |db.jobs| && j < |db.logs| && db.jobs[j].status.Done?
    ensures db.jobs[j].findings == Some(FindingsIn(db.logs[j])) && db.logs[j] != []
    ensures db.logs[j][|db.logs[j]| - 1].body == DoneEvent(|FindingsIn(db.logs[j])|, db.jobs[j].UsageOf())
  {
    hide FindingsIn;
    var job, log := db.jobs[j], db.logs[j];
    assert JobFits(db, j);
    var fs := job.findings.value;
    var n := |log| - |fs| - 2;
    FindingsOfDone(job, log, n, |fs|);
    FindingsSkip(log, n + |fs|);
    FindingsSkip(log, n + |fs| + 1);
    assert fs[..|fs|] == fs && log[..n + |fs| + 2] == log;
  }

  /** The status that the last status event of a log reports. */
  function LastStatus(log: Log): Option<Status> {
    if log == [] then None
    else if log[|log| - 1].body.StatusEvent? then Some(log[|log| - 1].body.status)
    else LastStatus(log[..|log| - 1])
  }

  lemma LastStatusIsRow(db: Db, j: nat)
    requires DbInv(db) && j < |db.jobs|
    ensures LastStatus(db.logs[j]) == Some(db.jobs[j].status)
  {
    assert JobFits(db, j);
    var job, log := db.jobs[j], db.logs[j];
    if job.status.Done? {
      var n := |log| - |job.findings.value| - 2;
      assert log[n + |job.findings.value|].body == StatusEvent(Done, None);
      assert !log[|log| - 1].body.StatusEvent?;
      assert log[..|log| - 1][|log| - 2] == log[|log| - 2];
    } else {
      assert log[|log| - 1].body.StatusEvent?;
    }
  }

  /** Polling reports what streaming tells: the status last told; the finding events, the count and
      usage of the `done` event, and the text of the failed status; and it reports a result or an
      error exactly for a job that has ended so. The usage of every job is that of its row. */
  lemma PollingAgreesWithLog(db: Db, j: nat)
    requires DbInv(db) && j < |db.jobs| && j < |db.logs|
    ensures var job, log, response := db.jobs[j], db.logs[j], ResponseOf(db.jobs[j]);
            && log != []
            && Some(response.status) == LastStatus(log) && response.status == job.status
            && response.usage.inputBytes == job.inputBytes && response.usage.chunks == job.chunks
            && response.usage.cacheHit == job.cacheHit
            && (response.findings.Some? <==> response.status.Done?) && (response.error.Some? <==> response.status.Failed?)
            && (response.status.Done? ==>
                  && response.findings == Some(FindingsIn(log))
                  && log[|log| - 1].body == DoneEvent(|FindingsIn(log)|, response.usage))
            && (response.status.Failed? ==> log[|log| - 1].body == StatusEvent(Failed, response.error))
  {
    assert JobFits(db, j);
    LastStatusIsRow(db, j);
    if db.jobs[j].status.Done? {
      ResultConserved(db, j);
    }
    hide DbInv, JobFits, FindingsIn, LastStatus, EndsDone, Numbered, Alternates, Take;
  }
}
