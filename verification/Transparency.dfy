/** The cache cannot be seen in the results. */
module Transparency {
  import opened Wrappers
  import opened Findings
  import opened Database
  import opened DatabaseInvariant
  import opened Protocol
  import opened Progress

  /** A fixed review function: of the diff and the provider's name. */
  type Reviewer = (string, string) -> Result<seq<Finding>, string>

  ghost predicate Obeys(s: State, step: Step, review: Reviewer) {
    step.SourceDone? && Holds(s, step.worker) ==>
      var r := s.db.jobs[HeldJob(s, step.worker)].request;
      review(r.diff, r.provider) == Ok(step.raw)
  }

  /** A run in which the providers answer by `review`; jobs may still fail at any time. */
  ghost predicate ReviewedRun(s: State, steps: seq<Step>, review: Reviewer)
    decreases |steps|
  {
    steps == [] || (Enabled(s, steps[0]) && Obeys(s, steps[0], review) && ReviewedRun(Apply(s, steps[0]), steps[1..], review))
  }

  ghost predicate EntryFaithful(db: Db, r: Request, review: Reviewer)
    requires r in db.cache
  {
    db.cache[r].findings.Some? ==>
      review(r.diff, r.provider).Ok? && db.cache[r].findings.value == Ordered(review(r.diff, r.provider).value, FULL)
  }

  ghost predicate Faithful(db: Db, review: Reviewer) {
    forall r :: r in db.cache ==> EntryFaithful(db, r, review)
  }

  /** Only the success transaction of a source job writes findings into the cache. */
  lemma OtherStepsKeepResults(s: State, step: Step, r: Request)
    requires Inv(s) && Enabled(s, step) && r in Apply(s, step).db.cache
    requires step.SourceDone? ==> r != s.db.jobs[HeldJob(s, step.worker)].request
    ensures r in s.db.cache ==> Apply(s, step).db.cache[r].findings == s.db.cache[r].findings
    ensures r !in s.db.cache ==> Apply(s, step).db.cache[r].findings == None
  {
    hide DbInv, Bounded, Append, AppendAll, DoneEvents, Ordered, Take, ErrorText;
    DbInvSizes(s.db);
    if step.Restarted? {
      RecoverFirstRows(s.db, |s.db.jobs|);
    }
  }

  lemma SourceWritesResult(db: Db, j: nat, raw: seq<Finding>)
    requires ValidId(db, j) && db.jobs[j].request in db.cache
    ensures FinishSource(db, j, raw).cache.Keys == db.cache.Keys
    ensures FinishSource(db, j, raw).cache[db.jobs[j].request].findings == Some(Ordered(raw, FULL))
  {
    hide AppendAll, DoneEvents, Ordered, Take;
  }

  lemma StepKeepsFaithful(s: State, step: Step, review: Reviewer)
    requires Inv(s) && Faithful(s.db, review) && Enabled(s, step) && Obeys(s, step, review)
    ensures Faithful(Apply(s, step).db, review)
  {
    var t := Apply(s, step);
    forall r | r in t.db.cache ensures EntryFaithful(t.db, r, review) {
      if step.SourceDone? && r == s.db.jobs[HeldJob(s, step.worker)].request {
        hide Inv, FinishSource;
        SourceWritesResult(s.db, HeldJob(s, step.worker), step.raw);
      } else {
        OtherStepsKeepResults(s, step, r);
        hide *;
        FaithfulStays(s.db, t.db, r, review);
      }
    }
  }

  lemma FaithfulStays(before: Db, after: Db, r: Request, review: Reviewer)
    requires Faithful(before, review) && r in after.cache
    requires r in before.cache ==> after.cache[r].findings == before.cache[r].findings
    requires r !in before.cache ==> after.cache[r].findings == None
    ensures EntryFaithful(after, r, review)
  {
    assert r in before.cache ==> EntryFaithful(before, r, review);
  }

  lemma {:induction false} RunKeepsFaithful(s: State, steps: seq<Step>, review: Reviewer)
    requires Inv(s) && Faithful(s.db, review) && ReviewedRun(s, steps, review)
    ensures Legal(s, steps) && Inv(Final(s, steps)) && Faithful(Final(s, steps).db, review)
    decreases |steps|
  {
    hide Inv, Faithful, Enabled, Obeys, Apply;
    if steps != [] {
      StepKeepsInv(s, steps[0]);
      StepKeepsFaithful(s, steps[0], review);
      RunKeepsFaithful(Apply(s, steps[0]), steps[1..], review);
    }
  }

  lemma DoneIsReviewed(s: State, review: Reviewer, j: nat)
    requires Inv(s) && Faithful(s.db, review) && j < |s.db.jobs| && s.db.jobs[j].status.Done?
    ensures var r := s.db.jobs[j].request;
            && review(r.diff, r.provider).Ok?
            && s.db.jobs[j].findings == Some(Ordered(review(r.diff, r.provider).value, r.maxFindings))
  {
    hide LogFits, Normal, Ordered, Take;
    assert JobFits(s.db, j) && EntryFaithful(s.db, s.db.jobs[j].request, review);
    var r := s.db.jobs[j].request;
    TakeOfOrdered(review(r.diff, r.provider).value, r.maxFindings);
  }

  lemma TakeOfOrdered(fs: seq<Finding>, n: nat)
    requires n <= FULL
    ensures Take(Ordered(fs, FULL), n) == Ordered(fs, n)
  {
    OrderedIsNormal(fs, FULL);
    OrderedOfNormal(Ordered(fs, FULL), n);
    OrderedTwice(fs, n, FULL);
  }

  /** Cache transparency: in every reachable state, however steps, failures and restarts interleave,
      a done job's findings are the normalised findings of its own review cut to its own limit,
      whether or not it hit the cache. */
  lemma CacheIsTransparent(n: nat, steps: seq<Step>, review: Reviewer, j: nat)
    requires ReviewedRun(Init(n), steps, review)
    ensures Legal(Init(n), steps)
    ensures var db := Final(Init(n), steps).db;
            j < |db.jobs| && db.jobs[j].status.Done? ==>
              var r := db.jobs[j].request;
              && review(r.diff, r.provider).Ok?
              && db.jobs[j].findings == Some(Ordered(review(r.diff, r.provider).value, r.maxFindings))
  {
    InitInv(n);
    RunKeepsFaithful(Init(n), steps, review);
    var t := Final(Init(n), steps);
    hide *;
    if j < |t.db.jobs| && t.db.jobs[j].status.Done? {
      DoneIsReviewed(t, review, j);
    }
  }

  // ---- How a drained service ends ----------------------------------------------------------

  /** The review of `r` has succeeded, or is still to come and will. */
  predicate Succeeds(db: Db, r: Request, p: Provider)
    requires r in db.cache
  {
    db.cache[r].state.Complete? || (db.cache[r].state.InProgress? && p(r).Ok?)
  }

  lemma StateAfter(db: Db, j: nat, raw: seq<Finding>, message: string, r: Request)
    requires ValidId(db, j) && r in db.cache
    ensures r in Claim(db, j).cache && Claim(db, j).cache[r] == db.cache[r]
    ensures db.jobs[j].request in db.cache ==>
              && r in FinishSource(db, j, raw).cache
              && FinishSource(db, j, raw).cache[r].state == (if r == db.jobs[j].request then Complete else db.cache[r].state)
    ensures CacheReady(db, j) ==> r in FinishFollower(db, j).cache && FinishFollower(db, j).cache[r] == db.cache[r]
    ensures r in FailJob(db, j, message).cache
    ensures FailJob(db, j, message).cache[r].state
              == (if r == db.jobs[j].request && db.cache[r].source == j then Broken else db.cache[r].state)
  {
    hide Append, AppendAll, DoneEvents, Ordered, Take, ErrorText;
  }

  /** What is told of an exception with this message: its first 1000 characters, or a fixed text if it has none. */
  function Told(message: string): string {
    if message == "" then "Review processing failed." else if |message| > 1000 then message[..1000] else message
  }

  /** Polling a failed job gives the provider's reason, or, for a follower, that its source failed. */
  ghost predicate ToldWhy(job: Job, p: Provider) {
    var error := ResponseOf(job).error;
    if job.cacheHit then error == Some("The source review for this cache entry failed.")
    else p(job.request).Err? && error == Some(Told(p(job.request).error))
  }

  lemma FailureTold(s: State, step: Step, p: Provider)
    requires Inv(s) && Work(s, step, p) && step.JobFailed?
    ensures var j := HeldJob(s, step.worker);
            j < |Apply(s, step).db.jobs| && ToldWhy(Apply(s, step).db.jobs[j], p)
  {
    hide Inv, Append, Bounded, DbInv;
  }

  /** Work does not change what becomes of a request, and the job it ends, ends accordingly. */
  lemma WorkKeepsFate(s: State, step: Step, p: Provider, r: Request, k: nat)
    requires Inv(s) && Work(s, step, p) && r in s.db.cache && k < |s.db.jobs|
    requires s.db.jobs[k].request == r && !s.db.jobs[k].Terminal()
    ensures r in Apply(s, step).db.cache && Succeeds(Apply(s, step).db, r, p) == Succeeds(s.db, r, p)
    ensures k < |Apply(s, step).db.jobs|
    ensures Apply(s, step).db.jobs[k].status.Done? ==> Succeeds(s.db, r, p)
    ensures Apply(s, step).db.jobs[k].status.Failed? ==> !Succeeds(s.db, r, p) && ToldWhy(Apply(s, step).db.jobs[k], p)
  {
    if step.JobFailed? {
      FailureTold(s, step, p);
    }
    var raw := if step.SourceDone? then step.raw else [];
    var message := if step.JobFailed? then step.message else "";
    var j := if step.Claimed? then step.job else HeldJob(s, step.worker);
    TransactionIsOneRow(s.db, j, raw, message);
    StatusAfter(s.db, j, raw, message);
    StateAfter(s.db, j, raw, message, r);
    if !step.Claimed? {
      EntryOfHeld(s, step.worker);
    }
    hide Inv, Claim, FinishSource, FinishFollower, FailJob, FirstQueued, OneRow, ToldWhy;
    OneRowStays(s.db, Apply(s, step).db, j, k);
  }

  lemma OneRowStays(before: Db, after: Db, j: nat, k: nat)
    requires OneRow(before, after, j) && k < |before.jobs|
    ensures k < |after.jobs| && (k != j ==> after.jobs[k] == before.jobs[k])
  {
  }

  lemma EntryOfHeld(s: State, w: nat)
    requires Inv(s) && Holds(s, w)
    ensures s.db.jobs[HeldJob(s, w)].request in s.db.cache
    ensures HoldsSource(s, w) ==>
              && s.db.cache[s.db.jobs[HeldJob(s, w)].request].state.InProgress?
              && s.db.cache[s.db.jobs[HeldJob(s, w)].request].source == HeldJob(s, w)
    ensures HoldsFollower(s, w) ==> s.db.cache[s.db.jobs[HeldJob(s, w)].request].source != HeldJob(s, w)
  {
    hide LogFits, Normal, Take;
    assert JobFits(s.db, HeldJob(s, w)) && EntryFits(s.db, s.db.jobs[HeldJob(s, w)].request);
  }

  /** The outcome of draining: a job that had not ended ends done exactly when the review of its
      request had succeeded, or had not been decided and the provider answers it; otherwise it ends
      failed, and polling tells the provider's reason or that the source failed. No follower is
      spoilt by anything but its source. */
  lemma {:induction false} DrainOutcome(s: State, steps: seq<Step>, p: Provider, k: nat)
    requires Healthy(s) && WorkRun(s, steps, p)
    requires k < |s.db.jobs| && !s.db.jobs[k].Terminal()
    ensures Legal(s, steps) && s.db.jobs[k].request in s.db.cache && k < |Final(s, steps).db.jobs|
    ensures var ended := Final(s, steps).db.jobs[k];
            && (ended.status.Done? ==> Succeeds(s.db, s.db.jobs[k].request, p))
            && (ended.status.Failed? ==> !Succeeds(s.db, s.db.jobs[k].request, p) && ToldWhy(ended, p))
            && (Stalled(Final(s, steps), p) ==> ended.Terminal())
    decreases |steps|
  {
    var r := s.db.jobs[k].request;
    JobInCache(s.db, k);
    if steps == [] {
      WorkGoesOn(s, p);
    } else {
      var t := Apply(s, steps[0]);
      WorkKeepsHealthy(s, steps[0], p);
      WorkKeepsFate(s, steps[0], p, r, k);
      WorkKeepsRequest(s, steps[0], k);
      DrainKeepsEnded(t, steps[1..], p, k);
      if !t.db.jobs[k].Terminal() {
        DrainOutcome(t, steps[1..], p, k);
      }
      hide Healthy, Apply, Succeeds, Stalled, Work, ToldWhy;
    }
  }

  /** The outcome for a service started with at least one worker that has not lost a job: whatever it
      has taken by then, submissions, failures and restarts included, this is how each of its
      unfinished jobs ends. */
  lemma ServiceOutcome(n: nat, steps: seq<Step>, work: seq<Step>, p: Provider, k: nat)
    requires n >= 1 && CarefulRun(Init(n), steps)
    requires Legal(Init(n), steps) && WorkRun(Final(Init(n), steps), work, p)
    requires k < |Final(Init(n), steps).db.jobs| && !Final(Init(n), steps).db.jobs[k].Terminal()
    ensures var s := Final(Init(n), steps);
            && Legal(s, work) && s.db.jobs[k].request in s.db.cache && k < |Final(s, work).db.jobs|
            && (Stalled(Final(s, work), p) ==>
                  if Succeeds(s.db, s.db.jobs[k].request, p) then Final(s, work).db.jobs[k].status.Done?
                  else Final(s, work).db.jobs[k].status.Failed? && ToldWhy(Final(s, work).db.jobs[k], p))
  {
    hide CarefulRun, Legal, Final, WorkRun, Healthy, Stalled, Succeeds, ToldWhy;
    InitHealthy(n);
    RunKeepsHealthy(Init(n), steps);
    DrainOutcome(Final(Init(n), steps), work, p, k);
  }

  /** The same after any past, losses included, from the next restart on. */
  lemma RestartedServiceOutcome(n: nat, past: seq<Step>, m: nat, steps: seq<Step>, work: seq<Step>, p: Provider, k: nat)
    requires ClockedRun(Init(n), past) && m >= 1
    requires Legal(Init(n), past) && Enabled(Final(Init(n), past), Restarted(m))
    requires CarefulRun(Apply(Final(Init(n), past), Restarted(m)), steps)
    requires Legal(Apply(Final(Init(n), past), Restarted(m)), steps)
    requires WorkRun(Final(Apply(Final(Init(n), past), Restarted(m)), steps), work, p)
    requires var s := Final(Apply(Final(Init(n), past), Restarted(m)), steps);
             k < |s.db.jobs| && !s.db.jobs[k].Terminal()
    ensures var s := Final(Apply(Final(Init(n), past), Restarted(m)), steps);
            && Legal(s, work) && s.db.jobs[k].request in s.db.cache && k < |Final(s, work).db.jobs|
            && (Stalled(Final(s, work), p) ==>
                  if Succeeds(s.db, s.db.jobs[k].request, p) then Final(s, work).db.jobs[k].status.Done?
                  else Final(s, work).db.jobs[k].status.Failed? && ToldWhy(Final(s, work).db.jobs[k], p))
  {
    hide CarefulRun, ClockedRun, Legal, Final, Enabled, Apply, WorkRun, Healthy, Stalled, Succeeds, ToldWhy;
    RestartMakesHealthy(n, past, m);
    var start := Apply(Final(Init(n), past), Restarted(m));
    RunKeepsHealthy(start, steps);
    DrainOutcome(Final(start, steps), work, p, k);
  }

  lemma JobInCache(db: Db, k: nat)
    requires DbInv(db) && k < |db.jobs|
    ensures db.jobs[k].request in db.cache
  {
    assert JobFits(db, k);
  }

  lemma WorkKeepsRequest(s: State, step: Step, k: nat)
    requires Inv(s) && Enabled(s, step) && k < |s.db.jobs|
    ensures k < |Apply(s, step).db.jobs| && Apply(s, step).db.jobs[k].request == s.db.jobs[k].request
  {
    DbInvSizes(s.db);
    StepExtends(s, step);
    hide DbInv, Apply;
    assert RowExtends(s.db, Apply(s, step).db, k);
  }

  lemma DrainKeepsEnded(s: State, steps: seq<Step>, p: Provider, k: nat)
    requires Healthy(s) && WorkRun(s, steps, p) && k < |s.db.jobs|
    ensures Legal(s, steps) && k < |Final(s, steps).db.jobs|
    ensures s.db.jobs[k].Terminal() ==> Final(s, steps).db.jobs[k] == s.db.jobs[k]
  {
    Drain(s, steps, p);
    DbInvSizes(s.db);
    RunExtends(s, steps);
    hide DbInv, Final, Legal, WorkRun;
    assert RowExtends(s.db, Final(s, steps).db, k);
  }
}
