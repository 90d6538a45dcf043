/** The transactions of app/services/jobs.py, app/services/events.py and app/workers/review_worker.py
    as they are written: row by row and event by event, on tables updated in place. */
module ReviewStore {
  import opened Wrappers
  import opened Findings
  import opened Database
  import opened DatabaseInvariant
  import opened Protocol
  import opened Progress

  class Store {
    var jobs: seq<Job>
    var logs: seq<Log>
    var cache: map<Request, CacheEntry>
    var keys: map<string, IdempotencyRecord>

    ghost function Snapshot(): Db
      reads this
    {
      Db(jobs, logs, cache, keys)
    }

    constructor ()
      ensures Snapshot() == Init(0).db
    {
      jobs, logs, cache, keys := [], [], map[], map[];
    }

    /** One event row is added to the log of `j` and nothing else changes. Its number is above all that
        the log holds, so that no number is given twice, whatever state the log is in; and a gap-free
        log stays gap-free. */
    method AppendEvent(j: nat, body: EventBody)
      requires ValidId(Snapshot(), j)
      modifies this`logs
      ensures logs == old(logs)[j := Append(old(logs)[j], body)]
      ensures OneMoreEvent(old(logs)[j], logs[j], body)
    {
      var sequence := MaxSequence(logs[j]) + 1;
      AppendedNumber(logs[j], body);
      logs := logs[j := logs[j] + [JobEvent(sequence, body)]];
    }

    method CreateOrReuseJob(sub: Submission, key: Option<string>, now: int) returns (r: Response)
      requires |logs| == |jobs|
      modifies this
      ensures r == Answer(old(Snapshot()), sub, key)
      ensures Snapshot() == Submit(old(Snapshot()), sub, key, now)
    {
      if key.Some? && key.value != "" {
        if key.value in keys {
          var existing := keys[key.value];
          if existing.bodyHash != sub.bodyHash {
            return Conflict;
          }
          if existing.job >= |jobs| {
            return Inconsistent;
          }
          return Accepted(existing.job);
        }
      }
      var hit := sub.request in cache;
      var id := |jobs|;
      jobs := jobs + [Job(sub.request, sub.inputBytes, sub.chunks, hit, now, Queued, None, None)];
      logs := logs + [[]];
      if !hit {
        cache := cache[sub.request := CacheEntry(id, InProgress, None)];
      }
      if key.Some? && key.value != "" {
        keys := keys[key.value := IdempotencyRecord(sub.bodyHash, id)];
      }
      AppendEvent(id, StatusEvent(Queued, None));
      assert logs == old(logs) + [Append([], StatusEvent(Queued, None))];
      return Accepted(id);
    }

    /** The oldest queued job is claimed, unless none is queued. */
    method ClaimJob() returns (claimed: Option<nat>)
      requires |logs| == |jobs|
      modifies this`jobs, this`logs
      ensures claimed.None? ==> NothingQueued(old(Snapshot())) && Snapshot() == old(Snapshot())
      ensures claimed.Some? ==>
                FirstQueued(old(Snapshot()), claimed.value) && Snapshot() == Claim(old(Snapshot()), claimed.value)
    {
      claimed := None;
      for i := 0 to |jobs|
        invariant claimed.None? ==> forall k :: 0 <= k < i ==> !jobs[k].status.Queued?
        invariant claimed.Some? ==> claimed.value < i && jobs[claimed.value].status.Queued?
        invariant claimed.Some? ==>
          forall k :: 0 <= k < i && jobs[k].status.Queued? ==> jobs[claimed.value].createdAt <= jobs[k].createdAt
      {
        if jobs[i].status.Queued? && (claimed.None? || jobs[i].createdAt < jobs[claimed.value].createdAt) {
          claimed := Some(i);
        }
      }
      if claimed.Some? {
        var j := claimed.value;
        jobs := jobs[j := jobs[j].(status := Running)];
        AppendEvent(j, StatusEvent(Running, None));
      }
    }

    /** Finding events one by one, then the done status and the `done` event. */
    method AppendResult(j: nat, findings: seq<Finding>, usage: Usage)
      requires ValidId(Snapshot(), j) && usage == jobs[j].UsageOf()
      modifies this`logs
      ensures logs == old(logs)[j := AppendAll(old(logs)[j], DoneEvents(jobs[j], findings))]
    {
      hide OneMoreEvent, Append, AppendAll;
      ghost var base, bodies := logs[j], DoneEvents(jobs[j], findings);
      NoBodies(base, bodies);
      for i := 0 to |findings|
        invariant ValidId(Snapshot(), j)
        invariant logs == old(logs)[j := AppendAll(base, bodies[..i])]
      {
        AppendEvent(j, FindingEvent(findings[i]));
        NextBody(base, bodies, i);
      }
      AppendEvent(j, StatusEvent(Done, None));
      NextBody(base, bodies, |findings|);
      AppendEvent(j, DoneEvent(|findings|, usage));
      NextBody(base, bodies, |findings| + 1);
      assert bodies[..|findings| + 2] == bodies;
    }

    /** `_finish_from_cache`: false, and no effect, while the entry holds no result. */
    method FinishFromCache(j: nat) returns (finished: bool)
      requires ValidId(Snapshot(), j) && jobs[j].cacheHit && jobs[j].request in cache
      modifies this`jobs, this`logs
      ensures finished == CacheReady(old(Snapshot()), j)
      ensures finished ==> Snapshot() == FinishFollower(old(Snapshot()), j)
      ensures !finished ==> Snapshot() == old(Snapshot())
    {
      var job := jobs[j];
      var entry := cache[job.request];
      if entry.state != Complete || entry.findings.None? {
        return false;
      }
      var limited := Ordered(entry.findings.value, job.request.maxFindings);
      jobs := jobs[j := job.(findings := Some(limited), status := Done)];
      AppendResult(j, limited, Usage(job.inputBytes, job.chunks, true));
      SameEvents(job, jobs[j], limited);
      return true;
    }

    /** The success transaction of a source job; `false` for persistence state that is missing. */
    method CompleteSource(j: nat, raw: seq<Finding>) returns (ok: bool)
      requires ValidId(Snapshot(), j)
      modifies this
      ensures ok == (old(jobs)[j].request in old(cache))
      ensures ok ==> Snapshot() == FinishSource(old(Snapshot()), j, raw)
      ensures !ok ==> Snapshot() == old(Snapshot())
    {
      var full := Ordered(raw, FULL);
      var limited := Take(full, jobs[j].request.maxFindings);
      var job := jobs[j];
      if job.request !in cache {
        return false;
      }
      jobs := jobs[j := job.(findings := Some(limited), status := Done)];
      cache := cache[job.request := cache[job.request].(state := Complete, findings := Some(full))];
      AppendResult(j, limited, Usage(job.inputBytes, job.chunks, job.cacheHit));
      SameEvents(job, jobs[j], limited);
      return true;
    }

    /** The failure transaction. */
    method RecordFailure(j: nat, message: string)
      requires ValidId(Snapshot(), j)
      modifies this
      ensures Snapshot() == FailJob(old(Snapshot()), j, message)
    {
      var text := Take(message, 1000);
      if text == "" {
        text := "Review processing failed.";
      }
      var job := jobs[j];
      jobs := jobs[j := job.(status := Failed, error := Some(text))];
      AppendEvent(j, StatusEvent(Failed, Some(text)));
      if job.request in cache && cache[job.request].source == j {
        cache := cache[job.request := cache[job.request].(state := Broken)];
      }
    }

    method RecoverAbandonedJobs()
      requires |logs| == |jobs|
      modifies this`jobs, this`logs
      ensures Snapshot() == Recover(old(Snapshot()))
    {
      for i := 0 to |jobs|
        invariant |logs| == |jobs| == |old(jobs)|
        invariant Snapshot() == RecoverFirst(old(Snapshot()), i)
      {
        if jobs[i].status.Running? {
          jobs := jobs[i := jobs[i].(status := Queued)];
          AppendEvent(i, StatusEvent(Queued, None));
        }
      }
    }

    /** `_process_job` for a claimed job: all of it for a source; for a follower one turn of the waiting
        loop. It ends the job unless it is a follower that must wait, and by the step of the protocol
        that is due. */
    method ProcessJob(j: nat, p: Provider) returns (ended: bool)
      requires ValidId(Snapshot(), j)
      modifies this
      ensures ended <==> !MustWait(old(Snapshot()), j)
      ensures !ended ==> Snapshot() == old(Snapshot())
      ensures ended ==> Enabled(HeldBy(old(Snapshot()), j), DueStep(old(Snapshot()), j, p))
      ensures ended ==> Snapshot() == Apply(HeldBy(old(Snapshot()), j), DueStep(old(Snapshot()), j, p)).db
    {
      hide FinishSource, FinishFollower, FailJob;
      if jobs[j].cacheHit {
        if jobs[j].request !in cache {
          RecordFailure(j, ENTRY_MISSING);
          return true;
        }
        var finished := FinishFromCache(j);
        if finished {
          return true;
        }
        if cache[jobs[j].request].state == Broken {
          RecordFailure(j, SOURCE_FAILED);
          return true;
        }
        return false;
      }
      var answer := p(jobs[j].request);
      if answer.Err? {
        RecordFailure(j, answer.error);
        return true;
      }
      var ok := CompleteSource(j, answer.value);
      if !ok {
        RecordFailure(j, STATE_MISSING);
      }
      return true;
    }

    /** `worker_loop` of a process with one worker, until nothing is queued. When the jobs were created
        in the order of submission and recovery has left none running, every job ends, and what had
        ended before stays as it was. */
    method WorkerLoop(p: Provider)
      requires Inv(State(Snapshot(), [None])) && CreatedInOrder(Snapshot())
      requires forall j :: 0 <= j < |jobs| ==> !jobs[j].status.Running?
      modifies this
      ensures AllEnded(Snapshot()) && Extends(old(Snapshot()), Snapshot())
    {
      StartIsHealthy(Snapshot());
      hide *;
      ghost var before := Snapshot();
      var busy := true;
      while busy
        invariant Healthy(State(Snapshot(), [None])) && Extends(before, Snapshot())
        invariant !busy ==> AllEnded(Snapshot())
        decreases busy, Measure(jobs)
      {
        ghost var s := State(Snapshot(), [None]);
        HealthySizes(s);
        var claimed := ClaimJob();
        if claimed.None? {
          NothingLeft(s);
          busy := false;
        } else {
          var j := claimed.value;
          ClaimStep(before, s, j, p);
          ghost var held := Snapshot();
          HeldMoves(before, held, j, p);
          var ended := ProcessJob(j, p);
        }
      }
    }
  }

  // ---- Lemmas for the methods --------------------------------------------------------------

  /** `after` is `before` with one event more, whose number none before it has, and the next number
      when `before` is gap-free. */
  ghost predicate OneMoreEvent(before: Log, after: Log, body: EventBody) {
    && |after| == |before| + 1 && after[..|before|] == before
    && after[|before|].body == body
    && (forall i :: 0 <= i < |before| ==> before[i].sequence < after[|before|].sequence)
    && (Numbered(before) ==> Numbered(after) && after[|before|].sequence == |after|)
  }

  lemma AppendedNumber(log: Log, body: EventBody)
    ensures OneMoreEvent(log, Append(log, body), body)
  {
    MaxSequenceIsMax(log);
    if Numbered(log) {
      NextSequence(log);
    }
  }

  lemma NoBodies(base: Log, bodies: seq<EventBody>)
    ensures AppendAll(base, bodies[..0]) == base
  {
  }

  lemma NextBody(base: Log, bodies: seq<EventBody>, i: nat)
    requires i < |bodies|
    ensures AppendAll(base, bodies[..i + 1]) == Append(AppendAll(base, bodies[..i]), bodies[i])
  {
    assert bodies[..i + 1][..i] == bodies[..i];
  }

  lemma SameEvents(before: Job, after: Job, findings: seq<Finding>)
    requires before.UsageOf() == after.UsageOf()
    ensures DoneEvents(before, findings) == DoneEvents(after, findings)
  {
  }

  const ENTRY_MISSING := "Cached review state is missing."
  const STATE_MISSING := "Review persistence state is missing."

  /** A state in which the only worker holds `j`. */
  function HeldBy(db: Db, j: nat): State {
    State(db, [Some(j)])
  }

  /** `j` is a follower whose cache entry holds no result and has not failed. */
  predicate MustWait(db: Db, j: nat)
    requires ValidId(db, j)
  {
    && db.jobs[j].cacheHit
    && var r := db.jobs[j].request;
    && r in db.cache && !CacheReady(db, j) && !db.cache[r].state.Broken?
  }

  /** The step due for the held job `j`, given what providers answer. */
  function DueStep(db: Db, j: nat, p: Provider): Step
    requires ValidId(db, j)
  {
    var r := db.jobs[j].request;
    if db.jobs[j].cacheHit then
      if r !in db.cache then JobFailed(0, ENTRY_MISSING)
      else if CacheReady(db, j) then FollowerDone(0)
      else JobFailed(0, SOURCE_FAILED)
    else if p(r).Err? then JobFailed(0, p(r).error)
    else if r in db.cache then SourceDone(0, p(r).value)
    else JobFailed(0, STATE_MISSING)
  }

  lemma StartIsHealthy(db: Db)
    requires Inv(State(db, [None])) && CreatedInOrder(db)
    requires forall j :: 0 <= j < |db.jobs| ==> !db.jobs[j].status.Running?
    ensures Healthy(State(db, [None])) && Extends(db, db)
  {
    hide DbInv;
    DbInvSizes(db);
    SameExtends(db);
  }

  lemma HealthySizes(s: State)
    requires Healthy(s)
    ensures |s.db.logs| == |s.db.jobs|
  {
    DbInvSizes(s.db);
  }

  lemma NothingLeft(s: State)
    requires Healthy(s) && s.workers == [None] && NothingQueued(s.db)
    ensures AllEnded(s.db)
  {
    hide Inv, Fifo;
    forall j | 0 <= j < |s.db.jobs| ensures s.db.jobs[j].Terminal() {
      assert !Orphan(s, j);
    }
  }

  lemma ClaimStep(before: Db, s: State, j: nat, p: Provider)
    requires Healthy(s) && Extends(before, s.db) && s.workers == [None] && FirstQueued(s.db, j)
    ensures ValidId(s.db, j) && Healthy(HeldBy(Claim(s.db, j), j))
    ensures Extends(before, Claim(s.db, j)) && ValidId(Claim(s.db, j), j)
    ensures Measure(Claim(s.db, j).jobs) < Measure(s.db.jobs)
  {
    HealthySizes(s);
    QueuedIfFirst(s.db, j);
    var step := Claimed(0, j);
    assert Work(s, step, p);
    assert Apply(s, step) == HeldBy(Claim(s.db, j), j);
    HealthyInv(s);
    StepExtends(s, step);
    hide Healthy, Inv, Extends, Measure, Work, Apply;
    WorkKeepsHealthy(s, step, p);
    WorkLowers(s, step, p);
    ExtendsTransitive(before, s.db, Claim(s.db, j));
  }

  lemma HealthyInv(s: State)
    requires Healthy(s)
    ensures Inv(s)
  {
  }

  /** The only worker never waits: what it holds can be ended, and the service stays healthy. */
  lemma HeldMoves(before: Db, held: Db, j: nat, p: Provider)
    requires Healthy(HeldBy(held, j)) && Extends(before, held) && ValidId(held, j)
    ensures !MustWait(held, j) && Enabled(HeldBy(held, j), DueStep(held, j, p))
    ensures var t := Apply(HeldBy(held, j), DueStep(held, j, p));
            Healthy(State(t.db, [None])) && Extends(before, t.db) && Measure(t.db.jobs) < Measure(held.jobs)
  {
    var s := HeldBy(held, j);
    HealthyInv(s);
    HeldDoesNotWait(held, j, p);
    EntryOfOnly(held, j);
    var step := DueStep(held, j, p);
    assert Work(s, step, p);
    assert Apply(s, step).workers == [None];
    StepExtends(s, step);
    hide Healthy, Inv, Extends, Measure, Work, Apply, DueStep, MustWait, CacheReady;
    WorkKeepsHealthy(s, step, p);
    WorkLowers(s, step, p);
    ExtendsTransitive(before, held, Apply(s, step).db);
  }

  lemma EntryOfOnly(db: Db, j: nat)
    requires DbInv(db) && ValidId(db, j)
    ensures db.jobs[j].request in db.cache
  {
    assert JobFits(db, j);
  }

  lemma WaitingFollower(db: Db, j: nat)
    requires Inv(HeldBy(db, j)) && ValidId(db, j) && MustWait(db, j)
    ensures WaitsForUnended(HeldBy(db, j), 0)
  {
    var i := FollowsItsSource(HeldBy(db, j), 0);
  }

  lemma HeldDoesNotWait(held: Db, j: nat, p: Provider)
    requires Healthy(HeldBy(held, j)) && ValidId(held, j)
    ensures !MustWait(held, j)
  {
    var s := HeldBy(held, j);
    WorkGoesOn(s, p);
    StalledIffAllWait(s, p);
    HeldIsRunning(s, 0);
    HealthyInv(s);
    hide Inv, Fifo, Stalled, MustWait, WaitsForUnended, NoOrphans;
    if MustWait(held, j) {
      WaitingFollower(held, j);
    }
  }
}
