/** The service as a state machine: the committed tables, and what each worker task of the running
    process holds. Every step is one committed transaction; a transaction that raises has no effect. */
module Protocol {
  import opened Wrappers
  import opened Findings
  import opened Database
  import opened DatabaseInvariant

  datatype State = State(db: Db, workers: seq<Option<nat>>)

  datatype Step =
    | Submitted(sub: Submission, key: Option<string>, now: int)
    | Claimed(worker: nat, job: nat)
    | SourceDone(worker: nat, raw: seq<Finding>)
    | FollowerDone(worker: nat)
    | JobFailed(worker: nat, message: string)
    /** The failure transaction itself raises: the worker goes on, the row stays running. */
    | Lost(worker: nat)
    /** The process ends at any point, and one with `workers` workers starts and recovers. */
    | Restarted(workers: nat)

  /** The largest `maxFindings` that a request may carry. */
  const MAX_FINDINGS: nat := 10_000

  function Idle(n: nat): seq<Option<nat>> {
    seq(n, i => None)
  }

  function Init(n: nat): State {
    State(Db([], [], map[], map[]), Idle(n))
  }

  predicate Holds(s: State, w: nat) {
    w < |s.workers| && s.workers[w].Some? && ValidId(s.db, s.workers[w].value)
  }

  predicate HoldsSource(s: State, w: nat) {
    Holds(s, w) && !s.db.jobs[s.workers[w].value].cacheHit
  }

  predicate HoldsFollower(s: State, w: nat) {
    Holds(s, w) && s.db.jobs[s.workers[w].value].cacheHit
  }

  predicate Enabled(s: State, step: Step) {
    match step
    case Submitted(sub, key, now) => sub.request.maxFindings <= MAX_FINDINGS
    case Claimed(w, j) => w < |s.workers| && s.workers[w].None? && ValidId(s.db, j) && FirstQueued(s.db, j)
    case SourceDone(w, raw) => HoldsSource(s, w) && s.db.jobs[s.workers[w].value].request in s.db.cache
    case FollowerDone(w) => HoldsFollower(s, w) && CacheReady(s.db, s.workers[w].value)
    case JobFailed(w, message) => Holds(s, w)
    case Lost(w) => Holds(s, w)
    case Restarted(n) => |s.db.logs| == |s.db.jobs|
  }

  function Apply(s: State, step: Step): State
    requires Enabled(s, step)
  {
    match step
    case Submitted(sub, key, now) => s.(db := Submit(s.db, sub, key, now))
    case Claimed(w, j) => State(Claim(s.db, j), s.workers[w := Some(j)])
    case SourceDone(w, raw) => State(FinishSource(s.db, s.workers[w].value, raw), s.workers[w := None])
    case FollowerDone(w) => State(FinishFollower(s.db, s.workers[w].value), s.workers[w := None])
    case JobFailed(w, message) => State(FailJob(s.db, s.workers[w].value, message), s.workers[w := None])
    case Lost(w) => s.(workers := s.workers[w := None])
    case Restarted(n) => State(Recover(s.db), Idle(n))
  }

  predicate Legal(s: State, steps: seq<Step>)
    decreases |steps|
  {
    steps == [] || (Enabled(s, steps[0]) && Legal(Apply(s, steps[0]), steps[1..]))
  }

  function Final(s: State, steps: seq<Step>): State
    requires Legal(s, steps)
    decreases |steps|
  {
    if steps == [] then s else Final(Apply(s, steps[0]), steps[1..])
  }

  // ---- The invariant -----------------------------------------------------------------------

  /** Exclusive processing: what a worker holds is a running job, and no two hold the same. */
  ghost predicate WorkersFit(s: State) {
    && (forall w :: 0 <= w < |s.workers| && s.workers[w].Some? ==>
          s.workers[w].value < |s.db.jobs| && s.db.jobs[s.workers[w].value].status.Running?)
    && (forall v, w :: 0 <= v < w < |s.workers| && s.workers[v].Some? ==> s.workers[v] != s.workers[w])
  }

  ghost predicate Bounded(db: Db) {
    forall j :: 0 <= j < |db.jobs| ==> db.jobs[j].request.maxFindings <= MAX_FINDINGS
  }

  ghost predicate Inv(s: State) {
    DbInv(s.db) && WorkersFit(s) && Bounded(s.db)
  }

  /** `after` has the rows of `before`, possibly row `j` changed, but not its request. */
  ghost predicate OneRow(before: Db, after: Db, j: nat) {
    && |after.jobs| == |before.jobs| && j < |before.jobs|
    && (forall k :: 0 <= k < |before.jobs| && k != j ==> after.jobs[k] == before.jobs[k])
    && after.jobs[j].request == before.jobs[j].request
  }

  lemma WorkersOfOneRow(s: State, db: Db, w: nat, j: nat)
    requires WorkersFit(s) && Bounded(s.db) && OneRow(s.db, db, j) && w < |s.workers|
    requires s.workers[w] == Some(j) || s.workers[w] == None
    ensures Bounded(db)
    ensures s.workers[w] == Some(j) ==> WorkersFit(State(db, s.workers[w := None]))
    ensures s.db.jobs[j].status.Queued? && db.jobs[j].status.Running? ==> WorkersFit(State(db, s.workers[w := Some(j)]))
  {
  }

  lemma TransactionIsOneRow(db: Db, j: nat, raw: seq<Finding>, message: string)
    requires ValidId(db, j)
    ensures OneRow(db, Claim(db, j), j) && Claim(db, j).jobs[j].status.Running?
    ensures db.jobs[j].request in db.cache ==> OneRow(db, FinishSource(db, j, raw), j)
    ensures CacheReady(db, j) ==> OneRow(db, FinishFollower(db, j), j)
    ensures OneRow(db, FailJob(db, j, message), j)
  {
    hide Append, AppendAll, DoneEvents, Ordered, Take, ErrorText;
  }

  lemma StepKeepsDb(s: State, step: Step)
    requires DbInv(s.db) && WorkersFit(s) && Enabled(s, step)
    ensures DbInv(Apply(s, step).db)
  {
    hide DbInv, Submit, SetStatus, Claim, FinishSource, FinishFollower, FailJob, FirstQueued;
    match step {
      case Submitted(sub, key, now) => SubmitKeeps(s.db, sub, key, now);
      case Claimed(w, j) => QueuedIfFirst(s.db, j); ClaimKeeps(s.db, j);
      case SourceDone(w, raw) => FinishSourceKeeps(s.db, s.workers[w].value, raw);
      case FollowerDone(w) => FinishFollowerKeeps(s.db, s.workers[w].value);
      case JobFailed(w, message) => FailJobKeeps(s.db, s.workers[w].value, message);
      case Lost(w) =>
      case Restarted(n) => RecoverFirstKeeps(s.db, |s.db.jobs|);
    }
  }

  lemma QueuedIfFirst(db: Db, j: nat)
    requires FirstQueued(db, j)
    ensures j < |db.jobs| && db.jobs[j].status.Queued?
  {
  }

  /** Every step keeps the invariant. */
  lemma StepKeepsInv(s: State, step: Step)
    requires Inv(s) && Enabled(s, step)
    ensures Inv(Apply(s, step))
  {
    StepKeepsDb(s, step);
    hide DbInv, SetStatus, Claim, FinishSource, FinishFollower, FailJob, FirstQueued;
    match step {
      case Submitted(sub, key, now) =>
      case Claimed(w, j) =>
        QueuedIfFirst(s.db, j);
        TransactionIsOneRow(s.db, j, [], "");
        WorkersOfOneRow(s, Claim(s.db, j), w, j);
      case SourceDone(w, raw) =>
        TransactionIsOneRow(s.db, s.workers[w].value, raw, "");
        WorkersOfOneRow(s, FinishSource(s.db, s.workers[w].value, raw), w, s.workers[w].value);
      case FollowerDone(w) =>
        TransactionIsOneRow(s.db, s.workers[w].value, [], "");
        WorkersOfOneRow(s, FinishFollower(s.db, s.workers[w].value), w, s.workers[w].value);
      case JobFailed(w, message) =>
        TransactionIsOneRow(s.db, s.workers[w].value, [], message);
        WorkersOfOneRow(s, FailJob(s.db, s.workers[w].value, message), w, s.workers[w].value);
      case Lost(w) =>
      case Restarted(n) =>
        RecoverFirstRows(s.db, |s.db.jobs|);
    }
  }

  /** In every reachable state, restarts and lost jobs included, the tables and workers fit. */
  lemma {:induction false} RunKeepsInv(s: State, steps: seq<Step>)
    requires Inv(s) && Legal(s, steps)
    ensures Inv(Final(s, steps))
    decreases |steps|
  {
    hide Inv, Enabled, Apply;
    if steps != [] {
      StepKeepsInv(s, steps[0]);
      RunKeepsInv(Apply(s, steps[0]), steps[1..]);
    }
  }

  lemma InitInv(n: nat)
    ensures Inv(Init(n))
  {
  }

  /** The event log of every job in every reachable state: gap-free, of the form (queued running)*
      with an unfinished queued or running, or an ending, and its last status event is the row's. */
  lemma ReachableLogs(n: nat, steps: seq<Step>, j: nat)
    requires Legal(Init(n), steps) && j < |Final(Init(n), steps).db.jobs|
    ensures var db := Final(Init(n), steps).db;
            |db.logs| == |db.jobs| && LogFits(db.jobs[j], db.logs[j]) && LastStatus(db.logs[j]) == Some(db.jobs[j].status)
  {
    InitInv(n);
    RunKeepsInv(Init(n), steps);
    var s := Final(Init(n), steps);
    DbInvSizes(s.db);
    LastStatusIsRow(s.db, j);
    hide LogFits, Final, Legal, LastStatus, Bounded, Take;
    assert JobFits(s.db, j);
  }

  /** Cache ownership in every reachable state: an entry names the one job of its request that did
      not hit the cache, and is running, done or failed as that job is. */
  lemma ReachableEntries(n: nat, steps: seq<Step>, r: Request, j: nat)
    requires Legal(Init(n), steps)
    requires r in Final(Init(n), steps).db.cache && j < |Final(Init(n), steps).db.jobs|
    ensures var db := Final(Init(n), steps).db;
            && db.cache[r].source < |db.jobs|
            && (db.jobs[j].request == r && !db.jobs[j].cacheHit <==> j == db.cache[r].source)
            && db.cache[r].state == StateFor(db.jobs[db.cache[r].source].status)
  {
    InitInv(n);
    RunKeepsInv(Init(n), steps);
    var s := Final(Init(n), steps);
    DbInvSizes(s.db);
    hide LogFits, Final, Legal, Bounded, Take, Normal;
    assert JobFits(s.db, j) && EntryFits(s.db, r);
  }

  /** Only the source of an entry changes it, by ending: the failure of a follower spoils nothing. */
  lemma OnlyTheSourceChangesItsEntry(s: State, step: Step, r: Request)
    requires Inv(s) && Enabled(s, step) && r in s.db.cache
    ensures r in Apply(s, step).db.cache
    ensures Apply(s, step).db.cache[r] != s.db.cache[r] ==>
              && (step.SourceDone? || step.JobFailed?) && Holds(s, step.worker)
              && s.workers[step.worker].value == s.db.cache[r].source
  {
    DbInvSizes(s.db);
    if step.Restarted? {
      RecoverFirstRows(s.db, |s.db.jobs|);
    } else if step.SourceDone? {
      assert JobFits(s.db, s.workers[step.worker].value);
    }
    hide DbInv, Bounded, LogFits, Append, AppendAll, DoneEvents, Ordered, Take, ErrorText;
  }

  /** A failed job tells why: its row, its last event and polling all give the text of the exception, cut
      after 1000 characters, or a fixed text for an exception without one. */
  lemma FailureIsReported(s: State, w: nat, message: string)
    requires Inv(s) && Enabled(s, JobFailed(w, message))
    ensures var j, after := s.workers[w].value, Apply(s, JobFailed(w, message)).db;
            var text := if message == "" then "Review processing failed."
                        else if |message| > 1000 then message[..1000] else message;
            && j < |after.jobs| == |after.logs| && after.jobs[j].status == Failed && ResponseOf(after.jobs[j]).error == Some(text)
            && after.logs[j] != [] && after.logs[j][|after.logs[j]| - 1].body == StatusEvent(Failed, Some(text))
  {
    hide DbInv, Bounded;
  }

  // ---- History -----------------------------------------------------------------------------

  ghost predicate RowExtends(before: Db, after: Db, j: int)
    requires 0 <= j < |before.jobs| == |before.logs| <= |after.jobs| == |after.logs|
  {
    var a, b := before.jobs[j], after.jobs[j];
    && b.request == a.request && b.createdAt == a.createdAt && b.UsageOf() == a.UsageOf()
    && before.logs[j] <= after.logs[j]
    && (a.Terminal() ==> b == a && after.logs[j] == before.logs[j])
  }

  /** What time does to the tables: rows, events, keys and cache entries are only ever added; the log
      of a job only grows; what has ended, a job or a cache entry, stays as it is. */
  ghost predicate Extends(before: Db, after: Db) {
    && |before.jobs| == |before.logs| <= |after.jobs| == |after.logs|
    && (forall j :: 0 <= j < |before.jobs| ==> RowExtends(before, after, j))
    && (forall k :: k in before.keys ==> k in after.keys && after.keys[k] == before.keys[k])
    && (forall r :: r in before.cache ==>
          && r in after.cache && after.cache[r].source == before.cache[r].source
          && (!before.cache[r].state.InProgress? ==> after.cache[r] == before.cache[r]))
  }

  lemma ExtendsTransitive(a: Db, b: Db, c: Db)
    requires Extends(a, b) && Extends(b, c)
    ensures Extends(a, c)
  {
    forall j | 0 <= j < |a.jobs| ensures RowExtends(a, c, j) {
      assert RowExtends(a, b, j) && RowExtends(b, c, j);
    }
  }

  lemma {:induction false} AppendAllExtends(log: Log, bodies: seq<EventBody>)
    ensures log <= AppendAll(log, bodies)
  {
    if bodies != [] {
      AppendAllExtends(log, bodies[..|bodies| - 1]);
    }
  }

  /** A transaction on a job that has not ended, touching at most the cache entry it owns. */
  lemma RowStepExtends(before: Db, after: Db, j: nat)
    requires DbInv(before) && RowChange(before, after, j) && !before.jobs[j].Terminal()
    requires after.jobs[j].createdAt == before.jobs[j].createdAt && after.jobs[j].UsageOf() == before.jobs[j].UsageOf()
    requires before.logs[j] <= after.logs[j]
    ensures Extends(before, after)
  {
    hide JobFits, EntryFits;
  }

  lemma ClaimRowChange(db: Db, j: nat)
    requires ValidId(db, j)
    ensures RowChange(db, Claim(db, j), j) && db.logs[j] <= Claim(db, j).logs[j]
  {
  }

  lemma FinishSourceRowChange(db: Db, j: nat, raw: seq<Finding>)
    requires ValidId(db, j) && db.jobs[j].request in db.cache && db.cache[db.jobs[j].request].state.InProgress?
    ensures RowChange(db, FinishSource(db, j, raw), j) && db.logs[j] <= FinishSource(db, j, raw).logs[j]
  {
    AppendAllExtends(db.logs[j], DoneEvents(db.jobs[j], Take(Ordered(raw, FULL), db.jobs[j].request.maxFindings)));
    hide AppendAll, DoneEvents, Ordered, Take;
  }

  lemma FinishFollowerRowChange(db: Db, j: nat)
    requires ValidId(db, j) && CacheReady(db, j)
    ensures RowChange(db, FinishFollower(db, j), j) && db.logs[j] <= FinishFollower(db, j).logs[j]
  {
    var r := db.jobs[j].request;
    AppendAllExtends(db.logs[j], DoneEvents(db.jobs[j], Ordered(db.cache[r].findings.value, r.maxFindings)));
    hide AppendAll, DoneEvents, Ordered, Take;
  }

  lemma FailJobRowChange(db: Db, j: nat, message: string)
    requires DbInv(db) && ValidId(db, j) && db.jobs[j].status.Running?
    ensures RowChange(db, FailJob(db, j, message), j) && db.logs[j] <= FailJob(db, j, message).logs[j]
  {
    hide LogFits, ErrorText;
    assert JobFits(db, j) && EntryFits(db, db.jobs[j].request);
  }

  lemma SubmitExtends(db: Db, sub: Submission, key: Option<string>, now: int)
    requires |db.jobs| == |db.logs|
    ensures Extends(db, Submit(db, sub, key, now))
  {
    var after := Submit(db, sub, key, now);
    forall j | 0 <= j < |db.jobs| ensures RowExtends(db, after, j) {}
  }

  lemma RecoverExtends(db: Db)
    requires |db.jobs| == |db.logs|
    ensures Extends(db, Recover(db))
  {
    RecoverFirstRows(db, |db.jobs|);
    forall j | 0 <= j < |db.jobs| ensures RowExtends(db, Recover(db), j) {}
  }

  lemma StepExtends(s: State, step: Step)
    requires Inv(s) && Enabled(s, step)
    ensures Extends(s.db, Apply(s, step).db)
  {
    hide DbInv, Extends, Bounded, RowChange, Submit, Recover, FirstQueued;
    DbInvSizes(s.db);
    match step {
      case Submitted(sub, key, now) => SubmitExtends(s.db, sub, key, now);
      case Claimed(w, j) =>
        QueuedIfFirst(s.db, j);
        ClaimRowChange(s.db, j);
        RowStepExtends(s.db, Claim(s.db, j), j);
      case SourceDone(w, raw) =>
        var j := s.workers[w].value;
        RunningEntry(s.db, j);
        FinishSourceRowChange(s.db, j, raw);
        RowStepExtends(s.db, FinishSource(s.db, j, raw), j);
      case FollowerDone(w) =>
        FinishFollowerRowChange(s.db, s.workers[w].value);
        RowStepExtends(s.db, FinishFollower(s.db, s.workers[w].value), s.workers[w].value);
      case JobFailed(w, message) =>
        FailJobRowChange(s.db, s.workers[w].value, message);
        RowStepExtends(s.db, FailJob(s.db, s.workers[w].value, message), s.workers[w].value);
      case Lost(w) => SameExtends(s.db);
      case Restarted(n) => RecoverExtends(s.db);
    }
  }

  lemma SameExtends(db: Db)
    requires |db.jobs| == |db.logs|
    ensures Extends(db, db)
  {
  }

  lemma RunningEntry(db: Db, j: nat)
    requires DbInv(db) && ValidId(db, j) && db.jobs[j].status.Running? && !db.jobs[j].cacheHit
    ensures db.jobs[j].request in db.cache && db.cache[db.jobs[j].request].state.InProgress?
  {
    hide LogFits, Normal, Take;
    assert JobFits(db, j) && EntryFits(db, db.jobs[j].request);
  }

  /** Over any run: what has ended stays ended, logs grow, nothing is forgotten. */
  lemma {:induction false} RunExtends(s: State, steps: seq<Step>)
    requires Inv(s) && Legal(s, steps)
    ensures Extends(s.db, Final(s, steps).db)
    decreases |steps|
  {
    if steps == [] {
      DbInvSizes(s.db);
      SameExtends(s.db);
    } else {
      StepKeepsInv(s, steps[0]);
      StepExtends(s, steps[0]);
      RunExtends(Apply(s, steps[0]), steps[1..]);
      hide *;
      RunUnfolds(s, steps);
      ExtendsTransitive(s.db, Apply(s, steps[0]).db, Final(s, steps).db);
    }
  }

  lemma RunUnfolds(s: State, steps: seq<Step>)
    requires Legal(s, steps) && steps != []
    ensures Enabled(s, steps[0]) && Legal(Apply(s, steps[0]), steps[1..])
    ensures Final(s, steps) == Final(Apply(s, steps[0]), steps[1..])
  {
  }

  /** Only a restart takes a job back from running to queued. */
  lemma OnlyRestartRequeues(s: State, step: Step, j: nat)
    requires Inv(s) && Enabled(s, step) && j < |s.db.jobs| && s.db.jobs[j].status.Running?
    ensures j < |Apply(s, step).db.jobs|
    ensures Apply(s, step).db.jobs[j].status.Queued? <==> step.Restarted?
  {
    hide DbInv, Bounded, Append, AppendAll, DoneEvents, Ordered, Take, ErrorText;
    DbInvSizes(s.db);
    if step.Restarted? {
      RecoverFirstRows(s.db, |s.db.jobs|);
    }
  }

  // ---- Idempotency -------------------------------------------------------------------------

  /** After a submission under a key has been accepted, however many steps and restarts later: the
      same body gets the same job and changes nothing, a different body is refused and changes
      nothing. */
  lemma RepeatedSubmission(s: State, first: Step, steps: seq<Step>, again: Step)
    requires Inv(s) && first.Submitted? && again.Submitted? && again.key == first.key && HasKey(first.key)
    requires Enabled(s, first) && Answer(s.db, first.sub, first.key).Accepted?
    requires Legal(Apply(s, first), steps) && Enabled(Final(Apply(s, first), steps), again)
    ensures var t := Final(Apply(s, first), steps);
            && Apply(t, again) == t
            && Answer(t.db, again.sub, again.key)
                 == (if again.sub.bodyHash == first.sub.bodyHash then Answer(s.db, first.sub, first.key) else Conflict)
  {
    var mid := Apply(s, first);
    var t := Final(mid, steps);
    var k := first.key.value;
    StepKeepsInv(s, first);
    RunExtends(mid, steps);
    assert KeysFit(s.db);
    assert k in mid.db.keys && mid.db.keys[k].bodyHash == first.sub.bodyHash;
    assert k in t.db.keys && t.db.keys[k] == mid.db.keys[k];
  }

  /** An empty key behaves as no key, over runs: however many steps and restarts after a submission
      that was accepted, under any key, one without a key or with an empty key is accepted as a
      different, new job, even with the same body; it leaves no record, and an empty key makes no
      difference to a missing one. */
  lemma KeylessSubmissionIsNew(s: State, first: Step, steps: seq<Step>, again: Step)
    requires Inv(s) && first.Submitted? && again.Submitted? && again.key in {None, Some("")}
    requires Enabled(s, first) && Answer(s.db, first.sub, first.key).Accepted?
    requires Legal(Apply(s, first), steps) && Enabled(Final(Apply(s, first), steps), again)
    ensures var t := Final(Apply(s, first), steps);
            && Answer(t.db, again.sub, again.key) == Accepted(|t.db.jobs|)
            && Answer(t.db, again.sub, again.key) != Answer(s.db, first.sub, first.key)
            && |Apply(t, again).db.jobs| == |t.db.jobs| + 1 && Apply(t, again).db.keys == t.db.keys
            && Apply(t, again) == Apply(t, again.(key := None))
  {
    var mid := Apply(s, first);
    StepKeepsInv(s, first);
    RunExtends(mid, steps);
    assert KeysFit(s.db);
  }
}
