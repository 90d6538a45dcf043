/** What the tables hold of the submissions of a run: the rows, the idempotency records and the answers
    are read off the submissions themselves. */
module Submissions {
  import opened Wrappers
  import opened Findings
  import opened Database
  import opened DatabaseInvariant
  import opened Protocol
  import opened Progress
  import opened Transparency

  /** A submission that was accepted as a new job. */
  datatype Creation = Creation(sub: Submission, key: Option<string>, now: int)

  predicate KeyGiven(key: Option<string>) {
    key != None && key != Some("")
  }

  ghost predicate KeyUsed(created: seq<Creation>, key: Option<string>) {
    KeyGiven(key) && exists i :: 0 <= i < |created| && created[i].key == key
  }

  /** One more step: a submission creates a job unless its key was used before. */
  ghost function WithStep(created: seq<Creation>, step: Step): seq<Creation> {
    if step.Submitted? && !KeyUsed(created, step.key) then created + [Creation(step.sub, step.key, step.now)]
    else created
  }

  ghost function WithSteps(created: seq<Creation>, steps: seq<Step>): seq<Creation>
    decreases |steps|
  {
    if steps == [] then created else WithSteps(WithStep(created, steps[0]), steps[1..])
  }

  /** The submissions of a run from an empty store that created its jobs, in order. */
  ghost function Created(steps: seq<Step>): seq<Creation> {
    WithSteps([], steps)
  }

  /** An earlier submission asked for the same diff, provider and limit. */
  ghost predicate AskedBefore(created: seq<Creation>, j: int)
    requires 0 <= j < |created|
  {
    exists i :: 0 <= i < j && created[i].sub.request == created[j].sub.request
  }

  ghost predicate RowOf(job: Job, created: seq<Creation>, j: int)
    requires 0 <= j < |created|
  {
    var c := created[j];
    && job.request.diff == c.sub.request.diff && job.request.provider == c.sub.request.provider
    && job.request.maxFindings == c.sub.request.maxFindings
    && job.inputBytes == c.sub.inputBytes && job.chunks == c.sub.chunks && job.createdAt == c.now
    && (job.cacheHit <==> AskedBefore(created, j))
  }

  ghost predicate RowsOf(db: Db, created: seq<Creation>) {
    && |db.jobs| == |db.logs| == |created|
    && forall j :: 0 <= j < |created| ==> RowOf(db.jobs[j], created, j)
  }

  ghost predicate Asked(created: seq<Creation>, r: Request) {
    exists i :: 0 <= i < |created| && created[i].sub.request == r
  }

  ghost predicate EntriesOf(db: Db, created: seq<Creation>) {
    forall r :: r in db.cache <==> Asked(created, r)
  }

  ghost predicate KeysOf(db: Db, created: seq<Creation>) {
    && (forall i :: 0 <= i < |created| && KeyGiven(created[i].key) ==>
          created[i].key.value in db.keys && db.keys[created[i].key.value] == IdempotencyRecord(created[i].sub.bodyHash, i))
    && (forall k :: k in db.keys ==> KeyUsed(created, Some(k)))
  }

  ghost predicate Records(db: Db, created: seq<Creation>) {
    RowsOf(db, created) && EntriesOf(db, created) && KeysOf(db, created)
  }

  // ---- One step ----------------------------------------------------------------------------

  /** Steps other than submissions make no rows, entries or keys. */
  lemma NothingNew(s: State, step: Step)
    requires Inv(s) && Enabled(s, step) && !step.Submitted?
    ensures |Apply(s, step).db.jobs| == |s.db.jobs| && Apply(s, step).db.keys == s.db.keys
    ensures Apply(s, step).db.cache.Keys == s.db.cache.Keys
  {
    hide DbInv, Bounded, Append, AppendAll, DoneEvents, Ordered, Take, ErrorText;
    DbInvSizes(s.db);
    if step.Restarted? {
      RecoverFirstRows(s.db, |s.db.jobs|);
    }
  }

  lemma OtherStepKeepsRecords(s: State, step: Step, created: seq<Creation>)
    requires Inv(s) && Enabled(s, step) && !step.Submitted? && Records(s.db, created)
    ensures Records(Apply(s, step).db, created)
  {
    NothingNew(s, step);
    StepExtends(s, step);
    hide Inv, Enabled, Apply, KeyUsed, Asked, AskedBefore;
    var t := Apply(s, step);
    forall j | 0 <= j < |created| ensures RowOf(t.db.jobs[j], created, j) {
      assert RowExtends(s.db, t.db, j) && RowOf(s.db.jobs[j], created, j);
    }
  }

  lemma AskedMore(created: seq<Creation>, c: Creation, r: Request)
    ensures Asked(created + [c], r) <==> Asked(created, r) || c.sub.request == r
  {
    var more := created + [c];
    if Asked(created, r) {
      var i :| 0 <= i < |created| && created[i].sub.request == r;
      assert more[i].sub.request == r;
    }
    assert more[|created|] == c;
  }

  lemma AskedBeforeMore(created: seq<Creation>, c: Creation, j: nat)
    requires j <= |created|
    ensures AskedBefore(created + [c], j) <==> if j < |created| then AskedBefore(created, j) else Asked(created, c.sub.request)
  {
    var more := created + [c];
    assert forall i :: 0 <= i < |created| ==> more[i] == created[i];
    assert more[|created|] == c;
  }

  lemma KeyUsedMore(created: seq<Creation>, c: Creation, key: Option<string>)
    ensures KeyUsed(created + [c], key) <==> KeyUsed(created, key) || (KeyGiven(key) && c.key == key)
  {
    var more := created + [c];
    if KeyUsed(created, key) {
      var i :| 0 <= i < |created| && created[i].key == key;
      assert more[i].key == key;
    }
    assert more[|created|] == c;
  }

  lemma NewRowRecorded(db: Db, c: Creation, created: seq<Creation>)
    requires Records(db, created) && !KeyUsed(created, c.key)
    ensures Records(Submit(db, c.sub, c.key, c.now), created + [c])
  {
    KeyIsNew(db, created, c.key);
    NewRows(db, c, created);
    NewEntries(db, c, created);
    NewKeys(db, c, created);
  }

  lemma KeyIsNew(db: Db, created: seq<Creation>, key: Option<string>)
    requires KeysOf(db, created) && !KeyUsed(created, key)
    ensures !(HasKey(key) && key.value in db.keys)
  {
    assert key.Some? ==> key == Some(key.value);
  }

  lemma NewRows(db: Db, c: Creation, created: seq<Creation>)
    requires RowsOf(db, created) && EntriesOf(db, created) && !(HasKey(c.key) && c.key.value in db.keys)
    ensures RowsOf(Submit(db, c.sub, c.key, c.now), created + [c])
  {
    var after, more := Submit(db, c.sub, c.key, c.now), created + [c];
    hide AskedBefore, Asked, Append;
    forall j | 0 <= j < |more| ensures RowOf(after.jobs[j], more, j) {
      AskedBeforeMore(created, c, j);
      if j < |created| {
        assert RowOf(db.jobs[j], created, j);
      }
    }
  }

  lemma NewEntries(db: Db, c: Creation, created: seq<Creation>)
    requires EntriesOf(db, created) && !(HasKey(c.key) && c.key.value in db.keys)
    ensures EntriesOf(Submit(db, c.sub, c.key, c.now), created + [c])
  {
    var after, more := Submit(db, c.sub, c.key, c.now), created + [c];
    hide Asked, Append;
    forall r ensures r in after.cache <==> Asked(more, r) {
      AskedMore(created, c, r);
    }
  }

  lemma NewKeys(db: Db, c: Creation, created: seq<Creation>)
    requires |db.jobs| == |created| && KeysOf(db, created) && !KeyUsed(created, c.key)
    requires !(HasKey(c.key) && c.key.value in db.keys)
    ensures KeysOf(Submit(db, c.sub, c.key, c.now), created + [c])
  {
    var after, more := Submit(db, c.sub, c.key, c.now), created + [c];
    hide Append;
    forall i | 0 <= i < |more| && KeyGiven(more[i].key)
      ensures more[i].key.value in after.keys && after.keys[more[i].key.value] == IdempotencyRecord(more[i].sub.bodyHash, i)
    {
      if i < |created| {
        assert created[i].key == more[i].key;
      }
    }
    forall k | k in after.keys ensures KeyUsed(more, Some(k)) {
      KeyUsedMore(created, c, Some(k));
    }
  }

  lemma StepKeepsRecords(s: State, step: Step, created: seq<Creation>)
    requires Inv(s) && Enabled(s, step) && Records(s.db, created)
    ensures Records(Apply(s, step).db, WithStep(created, step))
  {
    if !step.Submitted? {
      OtherStepKeepsRecords(s, step, created);
    } else if KeyUsed(created, step.key) {
      assert Apply(s, step) == s;
    } else {
      hide Submit, Records, KeyUsed, Inv;
      NewRowRecorded(s.db, Creation(step.sub, step.key, step.now), created);
    }
  }

  lemma {:induction false} RunKeepsRecords(s: State, steps: seq<Step>, created: seq<Creation>)
    requires Inv(s) && Legal(s, steps) && Records(s.db, created)
    ensures Records(Final(s, steps).db, WithSteps(created, steps))
    decreases |steps|
  {
    hide Inv, Enabled, Apply, Records, WithStep;
    if steps != [] {
      StepKeepsInv(s, steps[0]);
      StepKeepsRecords(s, steps[0], created);
      RunKeepsRecords(Apply(s, steps[0]), steps[1..], WithStep(created, steps[0]));
    }
  }

  // ---- Runs --------------------------------------------------------------------------------

  /** In every reachable state the rows are the submissions that created jobs, in order: row `j` holds
      the diff, the provider, the limit, the sizes and the time of the j-th of them, and hit the
      cache exactly if an earlier one asked for the same. */
  lemma RowsAreSubmissions(n: nat, steps: seq<Step>)
    requires Legal(Init(n), steps)
    ensures Records(Final(Init(n), steps).db, Created(steps))
    ensures RowsOf(Final(Init(n), steps).db, Created(steps))
  {
    InitInv(n);
    assert Records(Init(n).db, []);
    RunKeepsRecords(Init(n), steps, []);
    hide Final, WithSteps, Legal;
  }

  /** The answers over every run: a key that was used before gives the job it was first used for, or a
      conflict if the body differs; any other submission is a new job. */
  lemma AnswersOfRun(n: nat, steps: seq<Step>, sub: Submission, key: Option<string>)
    requires Legal(Init(n), steps)
    ensures var db, created := Final(Init(n), steps).db, Created(steps);
            && (!KeyUsed(created, key) ==> Answer(db, sub, key) == Accepted(|created|))
            && forall i :: 0 <= i < |created| && KeyGiven(key) && created[i].key == key ==>
                 Answer(db, sub, key) == if created[i].sub.bodyHash == sub.bodyHash then Accepted(i) else Conflict
  {
    RowsAreSubmissions(n, steps);
    var db, created := Final(Init(n), steps).db, Created(steps);
    hide Final, WithSteps, Legal, Created, RowOf, EntriesOf;
    assert HasKey(key) && key.value in db.keys ==> KeyUsed(created, Some(key.value));
  }

  /** What polling reports of a job is what was submitted: status as last told by the log, the usage of
      its submission, and the same usage closes the log of a done job. */
  lemma PollingReportsSubmission(n: nat, steps: seq<Step>, j: nat)
    requires Legal(Init(n), steps) && j < |Final(Init(n), steps).db.jobs|
    ensures var db, created := Final(Init(n), steps).db, Created(steps);
            && j < |created| && j < |db.logs|
            && var response, log := ResponseOf(db.jobs[j]), db.logs[j];
            && Some(response.status) == LastStatus(log)
            && response.usage.inputBytes == created[j].sub.inputBytes && response.usage.chunks == created[j].sub.chunks
            && (response.usage.cacheHit <==> AskedBefore(created, j))
            && (response.status.Done? ==>
                  log != [] && log[|log| - 1].body.DoneEvent? && log[|log| - 1].body.usage == response.usage)
  {
    RowsAreSubmissions(n, steps);
    InitInv(n);
    RunKeepsInv(Init(n), steps);
    var db, created := Final(Init(n), steps).db, Created(steps);
    DbInvSizes(db);
    hide Final, WithSteps, Legal, Created, DbInv, Bounded, LastStatus, FindingsIn, EntriesOf, KeysOf, AskedBefore;
    assert RowOf(db.jobs[j], created, j);
    PollingAgreesWithLog(db, j);
  }

  /** Cache transparency in terms of what was submitted: in every reachable state, a done job's
      findings are the normalised review of the diff its submitter sent, by the provider it named,
      cut to the limit it gave. */
  lemma ResultIsOfSubmission(n: nat, steps: seq<Step>, review: Reviewer, j: nat)
    requires ReviewedRun(Init(n), steps, review)
    ensures Legal(Init(n), steps) && |Final(Init(n), steps).db.jobs| == |Created(steps)|
    ensures var db, created := Final(Init(n), steps).db, Created(steps);
            j < |db.jobs| && db.jobs[j].status.Done? ==>
              var asked := created[j].sub.request;
              && review(asked.diff, asked.provider).Ok?
              && ResponseOf(db.jobs[j]).findings == Some(Ordered(review(asked.diff, asked.provider).value, asked.maxFindings))
              && db.jobs[j].findings == ResponseOf(db.jobs[j]).findings
  {
    CacheIsTransparent(n, steps, review, j);
    RowsAreSubmissions(n, steps);
    var db, created := Final(Init(n), steps).db, Created(steps);
    hide Final, WithSteps, Legal, Created, Ordered, EntriesOf, KeysOf, AskedBefore, ReviewedRun;
    assert j < |db.jobs| ==> RowOf(db.jobs[j], created, j);
  }
}
