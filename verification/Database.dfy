/** The tables of app/db/models.py as values, and what each committed transaction of
    app/services/jobs.py, app/services/events.py and app/workers/review_worker.py does to them.
    A job's identity is its position in the order of submission. Request hashes are represented by
    the canonical requests they are taken of. */
module Database {
  import opened Wrappers
  import opened Findings

  datatype Status = Queued | Running | Done | Failed

  datatype Request = Request(diff: string, provider: string, maxFindings: nat)

  datatype Submission = Submission(request: Request, bodyHash: string, inputBytes: nat, chunks: nat)

  datatype Usage = Usage(inputBytes: nat, chunks: nat, cacheHit: bool)

  datatype Job = Job(
    request: Request,
    inputBytes: nat,
    chunks: nat,
    cacheHit: bool,
    createdAt: int,
    status: Status,
    findings: Option<seq<Finding>>,
    error: Option<string>)
  {
    function UsageOf(): Usage {
      Usage(inputBytes, chunks, cacheHit)
    }

    predicate Terminal() {
      status.Done? || status.Failed?
    }
  }

  datatype CacheState = InProgress | Complete | Broken

  datatype CacheEntry = CacheEntry(source: nat, state: CacheState, findings: Option<seq<Finding>>)

  datatype IdempotencyRecord = IdempotencyRecord(bodyHash: string, job: nat)

  datatype EventBody =
    | StatusEvent(status: Status, error: Option<string>)
    | FindingEvent(finding: Finding)
    | DoneEvent(total: nat, usage: Usage)

  datatype JobEvent = JobEvent(sequence: nat, body: EventBody)

  type Log = seq<JobEvent>

  /** `logs[j]` holds the event rows of job `j` in the order in which they were inserted. */
  datatype Db = Db(
    jobs: seq<Job>,
    logs: seq<Log>,
    cache: map<Request, CacheEntry>,
    keys: map<string, IdempotencyRecord>)

  datatype JobResponse = JobResponse(status: Status, findings: Option<seq<Finding>>, usage: Usage, error: Option<string>)

  /** `_job_response`: what polling reports. */
  function ResponseOf(job: Job): JobResponse {
    JobResponse(
      job.status,
      if job.status.Done? then job.findings else None,
      job.UsageOf(),
      if !job.status.Failed? then None
      else if job.error.Some? && job.error.value != "" then job.error
      else Some("Review processing failed."))
  }

  // ---- Events ------------------------------------------------------------------------------

  /** `coalesce(max(sequence), 0)`. */
  function MaxSequence(log: Log): nat {
    if log == [] then 0
    else
      var rest, last := MaxSequence(log[..|log| - 1]), log[|log| - 1].sequence;
      if rest > last then rest else last
  }

  /** The maximum of the sequence numbers, and 0 for none: the number after it is not yet taken. */
  lemma {:induction false} MaxSequenceIsMax(log: Log)
    ensures forall i :: 0 <= i < |log| ==> log[i].sequence <= MaxSequence(log)
    ensures log == [] ==> MaxSequence(log) == 0
    ensures log != [] ==> exists i :: 0 <= i < |log| && log[i].sequence == MaxSequence(log)
  {
    if log != [] {
      var n := |log| - 1;
      MaxSequenceIsMax(log[..n]);
      if MaxSequence(log) == log[n].sequence {
      } else {
        var i :| 0 <= i < |log[..n]| && log[..n][i].sequence == MaxSequence(log[..n]);
        assert log[i].sequence == MaxSequence(log);
      }
    }
  }

  /** `append_event`. */
  function Append(log: Log, body: EventBody): Log {
    log + [JobEvent(MaxSequence(log) + 1, body)]
  }

  function AppendAll(log: Log, bodies: seq<EventBody>): Log {
    if bodies == [] then log
    else Append(AppendAll(log, bodies[..|bodies| - 1]), bodies[|bodies| - 1])
  }

  ghost predicate Numbered(log: Log) {
    forall i :: 0 <= i < |log| ==> log[i].sequence == i + 1
  }

  /** Under gap-free numbering the next sequence number is the next natural number. */
  lemma {:induction false} NextSequence(log: Log)
    requires Numbered(log)
    ensures MaxSequence(log) == |log|
  {
    if log != [] {
      NextSequence(log[..|log| - 1]);
    }
  }

  lemma {:induction false} AppendAllNumbered(log: Log, bodies: seq<EventBody>)
    requires Numbered(log)
    ensures var r := AppendAll(log, bodies);
            && Numbered(r) && |r| == |log| + |bodies| && r[..|log|] == log
            && forall i :: 0 <= i < |bodies| ==> r[|log| + i].body == bodies[i]
  {
    if bodies != [] {
      var before := AppendAll(log, bodies[..|bodies| - 1]);
      AppendAllNumbered(log, bodies[..|bodies| - 1]);
      NextSequence(before);
    }
  }

  // ---- Submitting --------------------------------------------------------------------------

  datatype Response = Accepted(job: nat) | Conflict | Inconsistent

  /** A key that is missing or empty is no key. */
  predicate HasKey(key: Option<string>) {
    key.Some? && key.value != ""
  }

  /** The answer of `create_or_reuse_job`. */
  function Answer(db: Db, sub: Submission, key: Option<string>): Response {
    if HasKey(key) && key.value in db.keys then
      var existing := db.keys[key.value];
      if existing.bodyHash != sub.bodyHash then Conflict
      else if existing.job < |db.jobs| then Accepted(existing.job)
      else Inconsistent
    else Accepted(|db.jobs|)
  }

  /** The tables after `create_or_reuse_job`, the new row being constructed at time `now`. */
  function Submit(db: Db, sub: Submission, key: Option<string>, now: int): Db {
    if HasKey(key) && key.value in db.keys then db
    else
      var id, r := |db.jobs|, sub.request;
      var job := Job(r, sub.inputBytes, sub.chunks, r in db.cache, now, Queued, None, None);
      Db(db.jobs + [job],
         db.logs + [Append([], StatusEvent(Queued, None))],
         if r in db.cache then db.cache else db.cache[r := CacheEntry(id, InProgress, None)],
         if HasKey(key) then db.keys[key.value := IdempotencyRecord(sub.bodyHash, id)] else db.keys)
  }

  // ---- Working -----------------------------------------------------------------------------

  predicate ValidId(db: Db, j: nat) {
    j < |db.jobs| && |db.logs| == |db.jobs|
  }

  /** `j` is a job that `_claim_job` may select: queued, and none queued was created before it. */
  predicate FirstQueued(db: Db, j: nat) {
    && j < |db.jobs| && db.jobs[j].status.Queued?
    && forall k :: 0 <= k < |db.jobs| && db.jobs[k].status.Queued? ==> db.jobs[j].createdAt <= db.jobs[k].createdAt
  }

  function SetStatus(db: Db, j: nat, status: Status): Db
    requires ValidId(db, j)
  {
    db.(jobs := db.jobs[j := db.jobs[j].(status := status)],
        logs := db.logs[j := Append(db.logs[j], StatusEvent(status, None))])
  }

  function Claim(db: Db, j: nat): Db
    requires ValidId(db, j)
  {
    SetStatus(db, j, Running)
  }

  function FindingEvents(findings: seq<Finding>): (r: seq<EventBody>)
    ensures |r| == |findings| && forall i :: 0 <= i < |r| ==> r[i] == FindingEvent(findings[i])
  {
    seq(|findings|, i requires 0 <= i < |findings| => FindingEvent(findings[i]))
  }

  function DoneEvents(job: Job, findings: seq<Finding>): seq<EventBody> {
    FindingEvents(findings) + [StatusEvent(Done, None), DoneEvent(|findings|, job.UsageOf())]
  }

  function CompleteJob(db: Db, j: nat, findings: seq<Finding>): Db
    requires ValidId(db, j)
  {
    var job := db.jobs[j];
    db.(jobs := db.jobs[j := job.(findings := Some(findings), status := Done)],
        logs := db.logs[j := AppendAll(db.logs[j], DoneEvents(job, findings))])
  }

  const FULL: nat := 10_000_000

  /** The success transaction of `_process_job`, the provider having returned `raw`. */
  function FinishSource(db: Db, j: nat, raw: seq<Finding>): Db
    requires ValidId(db, j) && db.jobs[j].request in db.cache
  {
    var r, full := db.jobs[j].request, Ordered(raw, FULL);
    CompleteJob(db, j, Take(full, db.jobs[j].request.maxFindings))
      .(cache := db.cache[r := db.cache[r].(state := Complete, findings := Some(full))])
  }

  predicate CacheReady(db: Db, j: nat)
    requires ValidId(db, j)
  {
    var r := db.jobs[j].request;
    r in db.cache && db.cache[r].state.Complete? && db.cache[r].findings.Some?
  }

  /** The transaction of `_finish_from_cache`. */
  function FinishFollower(db: Db, j: nat): Db
    requires ValidId(db, j) && CacheReady(db, j)
  {
    var r := db.jobs[j].request;
    CompleteJob(db, j, Ordered(db.cache[r].findings.value, r.maxFindings))
  }

  /** `str(exc)[:1000] or "Review processing failed."`. */
  function ErrorText(message: string): (text: string)
    ensures text != "" && |text| <= 1000
    ensures message == "" ==> text == "Review processing failed."
    ensures message != "" ==> text <= message && (|message| <= 1000 ==> text == message) && (|message| > 1000 ==> |text| == 1000)
  {
    if message == "" then "Review processing failed." else Take(message, 1000)
  }

  /** The failure transaction of `_process_job`. */
  function FailJob(db: Db, j: nat, message: string): Db
    requires ValidId(db, j)
  {
    var job, text := db.jobs[j], ErrorText(message);
    var r := job.request;
    db.(jobs := db.jobs[j := job.(status := Failed, error := Some(text))],
        logs := db.logs[j := Append(db.logs[j], StatusEvent(Failed, Some(text)))],
        cache := if r in db.cache && db.cache[r].source == j then db.cache[r := db.cache[r].(state := Broken)] else db.cache)
  }

  /** `recover_abandoned_jobs`, row by row: the first `n` rows done. */
  function RecoverFirst(db: Db, n: nat): (r: Db)
    requires |db.logs| == |db.jobs| && n <= |db.jobs|
    ensures |r.jobs| == |db.jobs| && |r.logs| == |db.logs|
  {
    if n == 0 then db
    else
      var before := RecoverFirst(db, n - 1);
      if before.jobs[n - 1].status.Running? then SetStatus(before, n - 1, Queued) else before
  }

  function Recover(db: Db): Db
    requires |db.logs| == |db.jobs|
  {
    RecoverFirst(db, |db.jobs|)
  }

  lemma {:induction false} RecoverFirstRows(db: Db, n: nat)
    requires |db.logs| == |db.jobs| && n <= |db.jobs|
    ensures var r := RecoverFirst(db, n);
            && r.cache == db.cache && r.keys == db.keys
            && forall j :: 0 <= j < |db.jobs| ==>
                 if j < n && db.jobs[j].status.Running?
                 then r.jobs[j] == db.jobs[j].(status := Queued) && r.logs[j] == Append(db.logs[j], StatusEvent(Queued, None))
                 else r.jobs[j] == db.jobs[j] && r.logs[j] == db.logs[j]
  {
    hide Append;
    if n > 0 {
      RecoverFirstRows(db, n - 1);
    }
  }
}
