/** Progress of the workers: when they can be stuck, and that otherwise every job ends. */
module Progress {
  import opened Wrappers
  import opened Findings
  import opened Database
  import opened DatabaseInvariant
  import opened Protocol

  /** What reviewing a request comes to: findings, or an exception with its text. */
  type Provider = Request -> Result<seq<Finding>, string>

  const SOURCE_FAILED := "The source review for this cache entry failed."

  function HeldJob(s: State, w: nat): nat
    requires Holds(s, w)
  {
    s.workers[w].value
  }

  predicate FollowerOfBroken(s: State, w: nat) {
    && HoldsFollower(s, w)
    && var r := s.db.jobs[HeldJob(s, w)].request;
    && r in s.db.cache && s.db.cache[r].state.Broken?
  }

  /** The steps the workers take when nothing goes wrong around them: they claim, end a source as its
      provider answers, and end a follower as its cache entry says. */
  predicate Work(s: State, step: Step, p: Provider) {
    && Enabled(s, step)
    && match step
       case Claimed(w, j) => true
       case SourceDone(w, raw) => p(s.db.jobs[HeldJob(s, w)].request) == Ok(raw)
       case FollowerDone(w) => true
       case JobFailed(w, message) =>
         || (FollowerOfBroken(s, w) && message == SOURCE_FAILED)
         || (HoldsSource(s, w) && p(s.db.jobs[HeldJob(s, w)].request) == Err(message))
       case Submitted(_, _, _) => false
       case Lost(_) => false
       case Restarted(_) => false
  }

  ghost predicate Stalled(s: State, p: Provider) {
    forall step :: !Work(s, step, p)
  }

  ghost predicate AllEnded(db: Db) {
    forall j :: 0 <= j < |db.jobs| ==> db.jobs[j].Terminal()
  }

  ghost predicate NothingQueued(db: Db) {
    forall j :: 0 <= j < |db.jobs| ==> !db.jobs[j].status.Queued?
  }

  ghost predicate Held(s: State, j: int) {
    exists w :: 0 <= w < |s.workers| && s.workers[w] == Some(j)
  }

  /** A running job that no worker holds. */
  ghost predicate Orphan(s: State, j: int) {
    0 <= j < |s.db.jobs| && s.db.jobs[j].status.Running? && !Held(s, j)
  }

  ghost predicate NoOrphans(s: State) {
    forall j :: !Orphan(s, j)
  }

  // ---- The measure -------------------------------------------------------------------------

  function Weight(status: Status): nat {
    match status
    case Queued => 2
    case Running => 1
    case Done => 0
    case Failed => 0
  }

  /** `2 * queued + running`. */
  function Measure(jobs: seq<Job>): nat {
    if jobs == [] then 0 else Measure(jobs[..|jobs| - 1]) + Weight(jobs[|jobs| - 1].status)
  }

  lemma {:induction false} MeasureOneRow(a: seq<Job>, b: seq<Job>, j: nat)
    requires |a| == |b| && j < |a| && forall k :: 0 <= k < |a| && k != j ==> a[k] == b[k]
    ensures Measure(b) == Measure(a) - Weight(a[j].status) + Weight(b[j].status)
  {
    var n := |a| - 1;
    if j < n {
      MeasureOneRow(a[..n], b[..n], j);
    } else {
      assert a[..n] == b[..n];
    }
  }

  lemma {:induction false} MeasureZero(jobs: seq<Job>)
    ensures Measure(jobs) == 0 <==> forall j :: 0 <= j < |jobs| ==> jobs[j].Terminal()
  {
    if jobs != [] {
      var n := |jobs| - 1;
      MeasureZero(jobs[..n]);
      assert Measure(jobs) == 0 ==> forall j :: 0 <= j < n ==> jobs[..n][j] == jobs[j];
      assert (forall j :: 0 <= j < |jobs| ==> jobs[j].Terminal()) ==> forall j :: 0 <= j < n ==> jobs[..n][j].Terminal();
    }
  }

  lemma StatusAfter(db: Db, j: nat, raw: seq<Finding>, message: string)
    requires ValidId(db, j)
    ensures Claim(db, j).jobs[j].status.Running?
    ensures db.jobs[j].request in db.cache ==> FinishSource(db, j, raw).jobs[j].status.Done?
    ensures CacheReady(db, j) ==> FinishFollower(db, j).jobs[j].status.Done?
    ensures FailJob(db, j, message).jobs[j].status.Failed?
  {
    hide Append, AppendAll, DoneEvents, Ordered, Take, ErrorText;
  }

  /** Each step of work lowers the measure by exactly one. */
  lemma WorkLowers(s: State, step: Step, p: Provider)
    requires Inv(s) && Work(s, step, p)
    ensures Measure(Apply(s, step).db.jobs) == Measure(s.db.jobs) - 1
  {
    hide DbInv, Claim, FinishSource, FinishFollower, FailJob, FirstQueued, Measure;
    var raw := if step.SourceDone? then step.raw else [];
    var message := if step.JobFailed? then step.message else "";
    var j := if step.Claimed? then step.job else HeldJob(s, step.worker);
    if step.Claimed? {
      QueuedIfFirst(s.db, j);
    }
    TransactionIsOneRow(s.db, j, raw, message);
    StatusAfter(s.db, j, raw, message);
    MeasureOneRow(s.db.jobs, Apply(s, step).db.jobs, j);
  }

  // ---- When the workers are stuck ----------------------------------------------------------

  /** The job that owns the cache entry of the job that `w` holds. */
  predicate Follows(s: State, w: nat, source: nat) {
    && HoldsFollower(s, w)
    && var r := s.db.jobs[HeldJob(s, w)].request;
    && r in s.db.cache && s.db.cache[r].source == source && source < |s.db.jobs|
  }

  ghost predicate Resting(s: State, w: nat) {
    w < |s.workers| && s.workers[w].None? && NothingQueued(s.db)
  }

  ghost predicate WaitsForOrphan(s: State, w: nat) {
    exists i: nat :: Follows(s, w, i) && Orphan(s, i)
  }

  ghost predicate WaitsForQueued(s: State, w: nat) {
    exists i: nat :: Follows(s, w, i) && s.db.jobs[i].status.Queued?
  }

  ghost predicate WaitsForUnended(s: State, w: nat) {
    exists i: nat :: Follows(s, w, i) && !s.db.jobs[i].Terminal()
  }

  lemma {:induction false} OldestQueued(db: Db, n: nat) returns (j: nat)
    requires n <= |db.jobs| && exists k :: 0 <= k < n && db.jobs[k].status.Queued?
    ensures j < n && db.jobs[j].status.Queued?
    ensures forall k :: 0 <= k < n && db.jobs[k].status.Queued? ==> db.jobs[j].createdAt <= db.jobs[k].createdAt
  {
    if exists k :: 0 <= k < n - 1 && db.jobs[k].status.Queued? {
      j := OldestQueued(db, n - 1);
      if db.jobs[n - 1].status.Queued? && db.jobs[n - 1].createdAt < db.jobs[j].createdAt {
        j := n - 1;
      }
    } else {
      j := n - 1;
    }
  }

  lemma FollowsItsSource(s: State, w: nat) returns (i: nat)
    requires Inv(s) && HoldsFollower(s, w)
    ensures Follows(s, w, i) && !s.db.jobs[i].cacheHit
    ensures s.db.cache[s.db.jobs[HeldJob(s, w)].request].state == StateFor(s.db.jobs[i].status)
    ensures s.db.jobs[i].status.Done? ==> CacheReady(s.db, HeldJob(s, w))
  {
    hide LogFits, Normal, Take;
    var j := HeldJob(s, w);
    assert JobFits(s.db, j) && EntryFits(s.db, s.db.jobs[j].request);
    i := s.db.cache[s.db.jobs[j].request].source;
  }

  lemma SourceInCache(s: State, w: nat)
    requires Inv(s) && HoldsSource(s, w)
    ensures s.db.jobs[HeldJob(s, w)].request in s.db.cache
  {
    hide LogFits, Normal, Take;
    assert JobFits(s.db, HeldJob(s, w));
  }

  /** A worker can move unless it rests or waits for a source that has not ended. */
  lemma WorkerMoves(s: State, w: nat, p: Provider) returns (step: Step)
    requires Inv(s) && w < |s.workers| && !Resting(s, w) && !WaitsForUnended(s, w)
    ensures Work(s, step, p)
  {
    hide DbInv, Bounded;
    DbInvSizes(s.db);
    if s.workers[w].None? {
      var j := OldestQueued(s.db, |s.db.jobs|);
      step := Claimed(w, j);
    } else if HoldsSource(s, w) {
      SourceInCache(s, w);
      var answer := p(s.db.jobs[HeldJob(s, w)].request);
      step := if answer.Ok? then SourceDone(w, answer.value) else JobFailed(w, answer.error);
    } else {
      var i := FollowsItsSource(s, w);
      assert s.db.jobs[i].Terminal();
      step := if s.db.jobs[i].status.Done? then FollowerDone(w) else JobFailed(w, SOURCE_FAILED);
    }
  }

  lemma RestingCannotMove(s: State, w: nat, step: Step, p: Provider)
    requires Inv(s) && (Resting(s, w) || WaitsForUnended(s, w))
    requires !step.Submitted? && !step.Lost? && !step.Restarted? && step.worker == w
    ensures !Work(s, step, p)
  {
    hide DbInv, Bounded;
    if WaitsForUnended(s, w) {
      var i := FollowsItsSource(s, w);
    }
  }

  lemma StalledIffAllWait(s: State, p: Provider)
    requires Inv(s)
    ensures Stalled(s, p) <==> forall w: nat :: w < |s.workers| ==> Resting(s, w) || WaitsForUnended(s, w)
  {
    hide Inv, Resting, WaitsForUnended;
    if w: nat :| w < |s.workers| && !Resting(s, w) && !WaitsForUnended(s, w) {
      var step := WorkerMoves(s, w, p);
    } else {
      forall step ensures !Work(s, step, p) {
        if !step.Submitted? && !step.Lost? && !step.Restarted? && step.worker < |s.workers| {
          RestingCannotMove(s, step.worker, step, p);
        }
      }
    }
  }

  /** With jobs created in the order of submission, claims are first in first out: the source of a
      running follower is never queued. */
  ghost predicate Fifo(db: Db) {
    && CreatedInOrder(db)
    && forall j :: 0 <= j < |db.jobs| && db.jobs[j].status.Running? ==> SourceStarted(db, j)
  }

  ghost predicate CreatedInOrder(db: Db) {
    forall i, j :: 0 <= i < j < |db.jobs| ==> db.jobs[i].createdAt < db.jobs[j].createdAt
  }

  ghost predicate SourceStarted(db: Db, j: int)
    requires 0 <= j < |db.jobs|
  {
    var r := db.jobs[j].request;
    r in db.cache && db.cache[r].source < |db.jobs| && !db.jobs[db.cache[r].source].status.Queued?
  }

  /** A follower of a running source that some worker holds does not block that worker. */
  lemma HeldSourceMoves(s: State, w: nat, i: nat)
    requires Inv(s) && Follows(s, w, i) && s.db.jobs[i].status.Running? && Held(s, i)
    ensures exists v: nat :: v < |s.workers| && !Resting(s, v) && !WaitsForUnended(s, v)
  {
    var v :| 0 <= v < |s.workers| && s.workers[v] == Some(i);
    var _ := FollowsItsSource(s, w);
    assert !Resting(s, v) && !HoldsFollower(s, v);
  }

  /** With the clock in order, work stops exactly when every worker rests with nothing queued or
      waits for a job that was lost while running. */
  lemma StalledIffOrphans(s: State, p: Provider)
    requires Inv(s) && Fifo(s.db)
    ensures Stalled(s, p) <==> forall w: nat :: w < |s.workers| ==> Resting(s, w) || WaitsForOrphan(s, w)
  {
    StalledIffAllWait(s, p);
    hide Inv, Resting, Stalled, Held;
    forall w: nat | WaitsForOrphan(s, w) ensures WaitsForUnended(s, w) {}
    if Stalled(s, p) {
      forall w: nat | w < |s.workers| && !Resting(s, w) ensures WaitsForOrphan(s, w) {
        var i: nat :| Follows(s, w, i) && !s.db.jobs[i].Terminal();
        HeldIsRunning(s, w);
        assert SourceStarted(s.db, HeldJob(s, w));
        if Held(s, i) {
          HeldSourceMoves(s, w, i);
        }
      }
    }
  }

  lemma HeldIsRunning(s: State, w: nat)
    requires Inv(s) && Holds(s, w)
    ensures s.db.jobs[HeldJob(s, w)].status.Running?
  {
  }

  lemma HolderOf(s: State, j: nat) returns (w: nat)
    requires NoOrphans(s) && j < |s.db.jobs| && s.db.jobs[j].status.Running?
    ensures w < |s.workers| && s.workers[w] == Some(j)
    ensures !Resting(s, w) && !WaitsForOrphan(s, w)
  {
    assert !Orphan(s, j);
    w :| 0 <= w < |s.workers| && s.workers[w] == Some(j);
  }

  /** Progress: with at least one worker, the clock in order and no job lost, some worker can move
      as long as some job has not ended, whatever the providers answer. */
  lemma WorkGoesOn(s: State, p: Provider)
    requires Inv(s) && Fifo(s.db) && NoOrphans(s) && |s.workers| >= 1
    ensures Stalled(s, p) <==> AllEnded(s.db)
  {
    StalledIffOrphans(s, p);
    hide Fifo, Stalled, Inv;
    if Stalled(s, p) {
      assert Resting(s, 0) || WaitsForOrphan(s, 0);
      forall j | 0 <= j < |s.db.jobs| ensures s.db.jobs[j].Terminal() {
        if s.db.jobs[j].status.Running? {
          var _ := HolderOf(s, j);
        }
      }
    }
    if AllEnded(s.db) {
      forall w: nat | w < |s.workers| ensures Resting(s, w) {
        AllEndedAllIdle(s, w);
      }
    }
  }

  lemma AllEndedAllIdle(s: State, w: nat)
    requires Inv(s) && AllEnded(s.db) && w < |s.workers|
    ensures s.workers[w].None?
  {
    hide DbInv, Bounded;
  }

  /** Without any assumption on the clock: unfinished work with no job lost is stuck exactly when
      every worker holds a follower whose source is still queued. */
  lemma StalledIffSourcesQueued(s: State, p: Provider)
    requires Inv(s) && NoOrphans(s) && !AllEnded(s.db)
    ensures Stalled(s, p) <==> forall w: nat :: w < |s.workers| ==> WaitsForQueued(s, w)
  {
    StalledIffAllWait(s, p);
    hide Inv, Stalled;
    forall w: nat | WaitsForQueued(s, w) ensures WaitsForUnended(s, w) {}
    if Stalled(s, p) {
      forall w: nat | w < |s.workers| && WaitsForUnended(s, w) ensures WaitsForQueued(s, w) {
        var i: nat :| Follows(s, w, i) && !s.db.jobs[i].Terminal();
        if s.db.jobs[i].status.Running? {
          assert !Orphan(s, i);
          HeldSourceMoves(s, w, i);
        }
      }
      forall w: nat | w < |s.workers| ensures !Resting(s, w) {
        if Resting(s, w) {
          var j :| 0 <= j < |s.db.jobs| && !s.db.jobs[j].Terminal();
          var _ := HolderOf(s, j);
        }
      }
    }
  }

  /** The assumption on the clock is needed, strictness included: when the second of two submissions
      of one request is not created later, a single worker may claim the follower and then waits
      for the source for ever. */
  lemma ClockRegressionStalls(sub: Submission, first: int, second: int, p: Provider)
    requires second <= first && sub.request.maxFindings <= MAX_FINDINGS
    ensures var steps := [Submitted(sub, None, first), Submitted(sub, None, second), Claimed(0, 1)];
            && Legal(Init(1), steps)
            && var s := Final(Init(1), steps);
            && !AllEnded(s.db) && NoOrphans(s) && Stalled(s, p)
  {
    var s0 := Init(1);
    var s1 := Apply(s0, Submitted(sub, None, first));
    var s2 := Apply(s1, Submitted(sub, None, second));
    assert s2.db.jobs[0].createdAt == first && s2.db.jobs[1].createdAt == second;
    assert FirstQueued(s2.db, 1);
    var s3 := Apply(s2, Claimed(0, 1));
    LegalThree(s0, Submitted(sub, None, first), Submitted(sub, None, second), Claimed(0, 1));
    InitInv(1);
    StepKeepsInv(s0, Submitted(sub, None, first));
    StepKeepsInv(s1, Submitted(sub, None, second));
    StepKeepsInv(s2, Claimed(0, 1));
    assert s3.db.jobs[0].status.Queued? && s3.db.jobs[1].status.Running? && s3.workers == [Some(1)];
    assert s3.db.jobs[1].cacheHit && s3.db.cache[sub.request].source == 0;
    hide Inv, Append;
    assert Held(s3, 1) by { assert s3.workers[0] == Some(1); }
    assert Follows(s3, 0, 0);
    StalledIffSourcesQueued(s3, p);
  }

  /** A lost source stalls the only worker: it takes the source, loses it, and then waits for it in the
      follower for ever. */
  lemma LostSourceStalls(sub: Submission, first: int, second: int, p: Provider)
    requires first < second && sub.request.maxFindings <= MAX_FINDINGS
    ensures var steps := [Submitted(sub, None, first), Submitted(sub, None, second), Claimed(0, 0), Lost(0), Claimed(0, 1)];
            && ClockedRun(Init(1), steps) && Legal(Init(1), steps)
            && var s := Final(Init(1), steps);
            && !AllEnded(s.db) && Orphan(s, 0) && Stalled(s, p)
  {
    var a, b, c, d, e := Submitted(sub, None, first), Submitted(sub, None, second), Claimed(0, 0), Lost(0), Claimed(0, 1);
    var s0 := Init(1);
    var s1 := Apply(s0, a);
    var s2 := Apply(s1, b);
    assert FirstQueued(s2.db, 0);
    var s3 := Apply(s2, c);
    var s4 := Apply(s3, d);
    assert FirstQueued(s4.db, 1);
    var s5 := Apply(s4, e);
    InitInv(1);
    assert Clocked(s0, a) && Clocked(s1, b);
    assert s5.db.jobs[0].status.Running? && s5.db.jobs[1].status.Running? && s5.workers == [Some(1)];
    assert s5.db.jobs[1].cacheHit && s5.db.cache[sub.request].source == 0;
    hide Append, Apply, Enabled, Clocked, DbInv, Legal, Final, ClockedRun;
    FiveSteps(s0, a, b, c, d, e);
    RunKeepsFifo(s0, [a, b, c, d, e]);
    assert Follows(s5, 0, 0) && Orphan(s5, 0);
    assert WaitsForOrphan(s5, 0);
    StalledIffOrphans(s5, p);
  }

  lemma ClockedCons(s: State, step: Step, rest: seq<Step>)
    requires Enabled(s, step) && Clocked(s, step) && ClockedRun(Apply(s, step), rest) && Legal(Apply(s, step), rest)
    ensures ClockedRun(s, [step] + rest) && Legal(s, [step] + rest)
    ensures Final(s, [step] + rest) == Final(Apply(s, step), rest)
  {
    hide Enabled, Apply, Clocked;
    assert ([step] + rest)[1..] == rest;
  }

  lemma FiveSteps(s: State, a: Step, b: Step, c: Step, d: Step, e: Step)
    requires Enabled(s, a) && Clocked(s, a)
    requires var t := Apply(s, a); Enabled(t, b) && Clocked(t, b)
    requires var t := Apply(Apply(s, a), b); Enabled(t, c) && Clocked(t, c)
    requires var t := Apply(Apply(Apply(s, a), b), c); Enabled(t, d) && Clocked(t, d)
    requires var t := Apply(Apply(Apply(Apply(s, a), b), c), d); Enabled(t, e) && Clocked(t, e)
    ensures ClockedRun(s, [a, b, c, d, e]) && Legal(s, [a, b, c, d, e])
    ensures Final(s, [a, b, c, d, e]) == Apply(Apply(Apply(Apply(Apply(s, a), b), c), d), e)
  {
    hide Enabled, Apply, Clocked;
    var s2 := Apply(Apply(s, a), b);
    var s4 := Apply(Apply(s2, c), d);
    ClockedCons(s4, e, []);
    ClockedCons(Apply(s2, c), d, [e]);
    ClockedCons(s2, c, [d, e]);
    ClockedCons(Apply(s, a), b, [c, d, e]);
    ClockedCons(s, a, [b, c, d, e]);
    assert [e] + [] == [e] && [d] + [e] == [d, e] && [c] + [d, e] == [c, d, e];
    assert [b] + [c, d, e] == [b, c, d, e] && [a] + [b, c, d, e] == [a, b, c, d, e];
  }

  lemma LegalThree(s: State, a: Step, b: Step, c: Step)
    requires Enabled(s, a) && Enabled(Apply(s, a), b) && Enabled(Apply(Apply(s, a), b), c)
    ensures Legal(s, [a, b, c]) && Final(s, [a, b, c]) == Apply(Apply(Apply(s, a), b), c)
  {
    hide Enabled, Apply;
    assert [a, b, c][1..] == [b, c] && [b, c][1..] == [c] && [c][1..] == [];
    var t := Apply(Apply(s, a), b);
    assert Legal(Apply(t, c), []);
    assert Legal(t, [c]) && Final(t, [c]) == Apply(t, c);
    assert Legal(Apply(s, a), [b, c]) && Final(Apply(s, a), [b, c]) == Apply(t, c);
  }

  // ---- First in, first out -----------------------------------------------------------------

  /** A submission is given a later creation time than all before it. */
  ghost predicate Clocked(s: State, step: Step) {
    step.Submitted? ==> forall j :: 0 <= j < |s.db.jobs| ==> s.db.jobs[j].createdAt < step.now
  }

  /** `after` has the rows of `before`, row `j` having left the queue or ended. */
  lemma FifoOfOneRow(before: Db, after: Db, j: nat)
    requires Fifo(before) && OneRow(before, after, j)
    requires after.jobs[j].createdAt == before.jobs[j].createdAt && !after.jobs[j].status.Queued?
    requires forall r :: r in before.cache ==> r in after.cache && after.cache[r].source == before.cache[r].source
    requires after.jobs[j].status.Running? ==> SourceStarted(before, j) || IsOwnSource(before, j)
    ensures Fifo(after)
  {
    forall k | 0 <= k < |after.jobs| && after.jobs[k].status.Running? ensures SourceStarted(after, k) {
      if k != j {
        assert SourceStarted(before, k);
      }
    }
  }

  predicate IsOwnSource(db: Db, j: nat) {
    j < |db.jobs| && db.jobs[j].request in db.cache && db.cache[db.jobs[j].request].source == j
  }

  lemma ClaimTakesSourcesFirst(db: Db, j: nat)
    requires DbInv(db) && CreatedInOrder(db) && FirstQueued(db, j)
    ensures SourceStarted(db, j) || IsOwnSource(db, j)
  {
    hide LogFits, Normal, Take;
    assert JobFits(db, j) && EntryFits(db, db.jobs[j].request);
  }

  lemma SourcesKept(before: Db, after: Db)
    requires Extends(before, after)
    ensures forall r :: r in before.cache ==> r in after.cache && after.cache[r].source == before.cache[r].source
    ensures |before.jobs| <= |after.jobs|
    ensures forall j :: 0 <= j < |before.jobs| ==> after.jobs[j].createdAt == before.jobs[j].createdAt
  {
    hide LogFits;
    forall j | 0 <= j < |before.jobs| ensures after.jobs[j].createdAt == before.jobs[j].createdAt {
      assert RowExtends(before, after, j);
    }
  }

  lemma SubmitKeepsFifo(db: Db, sub: Submission, key: Option<string>, now: int)
    requires |db.jobs| == |db.logs| && Fifo(db)
    requires forall j :: 0 <= j < |db.jobs| ==> db.jobs[j].createdAt < now
    ensures Fifo(Submit(db, sub, key, now))
  {
    var after := Submit(db, sub, key, now);
    forall k | 0 <= k < |after.jobs| && after.jobs[k].status.Running? ensures SourceStarted(after, k) {
      assert SourceStarted(db, k);
    }
  }

  lemma StepKeepsFifo(s: State, step: Step)
    requires Inv(s) && Fifo(s.db) && Enabled(s, step) && Clocked(s, step)
    ensures Fifo(Apply(s, step).db)
  {
    StepExtends(s, step);
    SourcesKept(s.db, Apply(s, step).db);
    DbInvSizes(s.db);
    hide DbInv, Bounded, Extends, Fifo, Submit, Claim, FinishSource, FinishFollower, FailJob, FirstQueued;
    match step {
      case Submitted(sub, key, now) => SubmitKeepsFifo(s.db, sub, key, now);
      case Claimed(w, j) =>
        TransactionIsOneRow(s.db, j, [], "");
        FifoOrder(s.db);
        ClaimTakesSourcesFirst(s.db, j);
        FifoOfOneRow(s.db, Claim(s.db, j), j);
      case SourceDone(w, raw) =>
        TransactionIsOneRow(s.db, HeldJob(s, w), raw, "");
        StatusAfter(s.db, HeldJob(s, w), raw, "");
        FifoOfOneRow(s.db, FinishSource(s.db, HeldJob(s, w), raw), HeldJob(s, w));
      case FollowerDone(w) =>
        TransactionIsOneRow(s.db, HeldJob(s, w), [], "");
        StatusAfter(s.db, HeldJob(s, w), [], "");
        FifoOfOneRow(s.db, FinishFollower(s.db, HeldJob(s, w)), HeldJob(s, w));
      case JobFailed(w, message) =>
        TransactionIsOneRow(s.db, HeldJob(s, w), [], message);
        StatusAfter(s.db, HeldJob(s, w), [], message);
        FifoOfOneRow(s.db, FailJob(s.db, HeldJob(s, w), message), HeldJob(s, w));
      case Lost(w) =>
      case Restarted(n) =>
        RecoverFirstRows(s.db, |s.db.jobs|);
        FifoOrder(s.db);
        NoneRunningFifo(Recover(s.db));
    }
  }

  lemma FifoOrder(db: Db)
    requires Fifo(db)
    ensures CreatedInOrder(db)
  {
  }

  lemma NoneRunningFifo(db: Db)
    requires CreatedInOrder(db) && forall j :: 0 <= j < |db.jobs| ==> !db.jobs[j].status.Running?
    ensures Fifo(db)
  {
  }

  ghost predicate ClockedRun(s: State, steps: seq<Step>)
    decreases |steps|
  {
    steps == [] || (Enabled(s, steps[0]) && Clocked(s, steps[0]) && ClockedRun(Apply(s, steps[0]), steps[1..]))
  }

  /** The key invariant, over every run with the clock in order, crashes and lost jobs included. */
  lemma {:induction false} RunKeepsFifo(s: State, steps: seq<Step>)
    requires Inv(s) && Fifo(s.db) && ClockedRun(s, steps)
    ensures Legal(s, steps) && Inv(Final(s, steps)) && Fifo(Final(s, steps).db)
    decreases |steps|
  {
    hide Inv, Fifo, Enabled, Apply;
    if steps != [] {
      StepKeepsInv(s, steps[0]);
      StepKeepsFifo(s, steps[0]);
      RunKeepsFifo(Apply(s, steps[0]), steps[1..]);
    }
  }

  // ---- Orphans -----------------------------------------------------------------------------

  /** A job becomes an orphan only when its worker's failure transaction raises; a restart leaves
      none. */
  lemma OrphansComeFromLosses(s: State, step: Step, j: nat)
    requires Inv(s) && Enabled(s, step) && Orphan(Apply(s, step), j)
    ensures !step.Restarted?
    ensures Orphan(s, j) || (step.Lost? && s.workers[step.worker] == Some(j))
  {
    hide DbInv, Bounded, Append, AppendAll, DoneEvents, Ordered, Take, ErrorText;
    DbInvSizes(s.db);
    var t := Apply(s, step);
    if step.Restarted? {
      RecoverFirstRows(s.db, |s.db.jobs|);
      assert false;
    }
    if Held(s, j) {
      var w :| 0 <= w < |s.workers| && s.workers[w] == Some(j);
      assert t.workers[w] != Some(j);
    } else {
      assert step.Claimed? ==> t.workers[step.worker] == Some(step.job);
    }
  }

  // ---- Draining ----------------------------------------------------------------------------

  ghost predicate WorkRun(s: State, steps: seq<Step>, p: Provider)
    decreases |steps|
  {
    steps == [] || (Work(s, steps[0], p) && WorkRun(Apply(s, steps[0]), steps[1..], p))
  }

  ghost predicate Healthy(s: State) {
    Inv(s) && Fifo(s.db) && NoOrphans(s) && |s.workers| >= 1
  }

  /** A step at which nothing is lost: no failure transaction raises, submissions carry the clock
      on, and a restart starts workers. */
  ghost predicate Careful(s: State, step: Step) {
    Enabled(s, step) && Clocked(s, step) && !step.Lost? && (step.Restarted? ==> step.workers >= 1)
  }

  ghost predicate CarefulRun(s: State, steps: seq<Step>)
    decreases |steps|
  {
    steps == [] || (Careful(s, steps[0]) && CarefulRun(Apply(s, steps[0]), steps[1..]))
  }

  /** Health is kept by every such step: submissions, claims, any outcome of any job, and restarts. */
  lemma StepKeepsHealthy(s: State, step: Step)
    requires Healthy(s) && Careful(s, step)
    ensures Healthy(Apply(s, step))
  {
    StepKeepsInv(s, step);
    StepKeepsFifo(s, step);
    WorkersStay(s, step);
    hide Inv, Fifo, Orphan;
    forall j ensures !Orphan(Apply(s, step), j) {
      if Orphan(Apply(s, step), j) {
        OrphanIndex(Apply(s, step), j);
        OrphansComeFromLosses(s, step, j);
      }
    }
  }

  lemma WorkersStay(s: State, step: Step)
    requires Enabled(s, step)
    ensures |Apply(s, step).workers| == if step.Restarted? then step.workers else |s.workers|
  {
  }

  lemma WorkKeepsHealthy(s: State, step: Step, p: Provider)
    requires Healthy(s) && Work(s, step, p)
    ensures Healthy(Apply(s, step))
  {
    hide Healthy, Apply;
    StepKeepsHealthy(s, step);
  }

  lemma {:induction false} RunKeepsHealthy(s: State, steps: seq<Step>)
    requires Healthy(s) && CarefulRun(s, steps)
    ensures Legal(s, steps) && Healthy(Final(s, steps))
    decreases |steps|
  {
    hide Healthy, Apply, Enabled, Clocked;
    if steps != [] {
      StepKeepsHealthy(s, steps[0]);
      RunKeepsHealthy(Apply(s, steps[0]), steps[1..]);
    }
  }

  lemma InitHealthy(n: nat)
    requires n >= 1
    ensures Healthy(Init(n))
  {
    InitInv(n);
  }

  lemma OrphanIndex(s: State, j: int)
    requires Orphan(s, j)
    ensures 0 <= j < |s.db.jobs|
  {
  }

  /** Drain: once submissions stop, the workers take exactly `2 * queued + running` more steps,
      however they interleave, and when they can take no more every job has ended. */
  lemma {:induction false} Drain(s: State, steps: seq<Step>, p: Provider)
    requires Healthy(s) && WorkRun(s, steps, p)
    ensures Legal(s, steps)
    ensures var t := Final(s, steps);
            && |steps| + Measure(t.db.jobs) == Measure(s.db.jobs)
            && (Stalled(t, p) <==> AllEnded(t.db))
            && (Stalled(t, p) <==> |steps| == Measure(s.db.jobs))
    decreases |steps|
  {
    hide Inv, Fifo, NoOrphans, Apply, Measure;
    if steps == [] {
      WorkGoesOn(s, p);
      MeasureZero(s.db.jobs);
    } else {
      WorkLowers(s, steps[0], p);
      WorkKeepsHealthy(s, steps[0], p);
      Drain(Apply(s, steps[0]), steps[1..], p);
    }
  }

  /** After any run from an empty store, lost jobs and crashes included, a restart with at least one
      worker makes the service healthy: from there it drains. */
  lemma RestartMakesHealthy(n: nat, steps: seq<Step>, m: nat)
    requires ClockedRun(Init(n), steps) && m >= 1
    ensures Legal(Init(n), steps) && Enabled(Final(Init(n), steps), Restarted(m))
    ensures Healthy(Apply(Final(Init(n), steps), Restarted(m)))
  {
    InitInv(n);
    RunKeepsFifo(Init(n), steps);
    var s := Final(Init(n), steps);
    DbInvSizes(s.db);
    StepKeepsInv(s, Restarted(m));
    StepKeepsFifo(s, Restarted(m));
    RecoverFirstRows(s.db, |s.db.jobs|);
    hide Inv, Fifo, Append;
  }

  /** The service drains: start it with at least one worker, let it take any submissions, outcomes
      and restarts without losing a job, and then let the workers work. They take exactly
      `2 * queued + running` steps, in any order, and stop exactly when every job has ended. */
  lemma ServiceDrains(n: nat, steps: seq<Step>, work: seq<Step>, p: Provider)
    requires n >= 1 && CarefulRun(Init(n), steps)
    requires Legal(Init(n), steps) && WorkRun(Final(Init(n), steps), work, p)
    ensures Legal(Final(Init(n), steps), work)
    ensures var s := Final(Init(n), steps);
            var t := Final(s, work);
            && |work| + Measure(t.db.jobs) == Measure(s.db.jobs)
            && (Stalled(t, p) <==> AllEnded(t.db))
            && (Stalled(t, p) <==> |work| == Measure(s.db.jobs))
  {
    hide *;
    InitHealthy(n);
    RunKeepsHealthy(Init(n), steps);
    Drain(Final(Init(n), steps), work, p);
  }

  /** The same after any past, losses included, from the next restart on. */
  lemma RestartedServiceDrains(n: nat, past: seq<Step>, m: nat, steps: seq<Step>, work: seq<Step>, p: Provider)
    requires ClockedRun(Init(n), past) && m >= 1
    requires Legal(Init(n), past) && Enabled(Final(Init(n), past), Restarted(m))
    requires CarefulRun(Apply(Final(Init(n), past), Restarted(m)), steps)
    requires Legal(Apply(Final(Init(n), past), Restarted(m)), steps)
    requires WorkRun(Final(Apply(Final(Init(n), past), Restarted(m)), steps), work, p)
    ensures var s := Final(Apply(Final(Init(n), past), Restarted(m)), steps);
            && Legal(s, work)
            && |work| + Measure(Final(s, work).db.jobs) == Measure(s.db.jobs)
            && (Stalled(Final(s, work), p) <==> AllEnded(Final(s, work).db))
            && (Stalled(Final(s, work), p) <==> |work| == Measure(s.db.jobs))
  {
    hide *;
    RestartMakesHealthy(n, past, m);
    var start := Apply(Final(Init(n), past), Restarted(m));
    RunKeepsHealthy(start, steps);
    Drain(Final(start, steps), work, p);
  }

  // ---- At most one job a worker ------------------------------------------------------------

  ghost function RunningJobs(db: Db): set<int> {
    set j | 0 <= j < |db.jobs| && db.jobs[j].status.Running?
  }

  function HeldJobs(workers: seq<Option<nat>>): set<int> {
    if workers == [] then {}
    else
      var last := workers[|workers| - 1];
      HeldJobs(workers[..|workers| - 1]) + (if last.Some? then {last.value} else {})
  }

  lemma {:induction false} HeldJobsAre(workers: seq<Option<nat>>)
    ensures |HeldJobs(workers)| <= |workers|
    ensures forall j :: j in HeldJobs(workers) <==> exists w :: 0 <= w < |workers| && workers[w].Some? && workers[w].value == j
  {
    if workers != [] {
      var n := |workers| - 1;
      HeldJobsAre(workers[..n]);
      assert forall w :: 0 <= w < n ==> workers[..n][w] == workers[w];
    }
  }

  /** With no job lost, the running jobs are the held ones, at most one for each worker. */
  lemma RunningJobsAreHeld(s: State)
    requires Inv(s) && NoOrphans(s)
    ensures RunningJobs(s.db) == HeldJobs(s.workers) && |RunningJobs(s.db)| <= |s.workers|
  {
    hide DbInv, Bounded, HeldJobs;
    HeldJobsAre(s.workers);
    forall j ensures j in RunningJobs(s.db) <==> j in HeldJobs(s.workers) {
      assert !Orphan(s, j);
      if j in RunningJobs(s.db) {
        var w :| 0 <= w < |s.workers| && s.workers[w] == Some(j);
      }
    }
  }
}
