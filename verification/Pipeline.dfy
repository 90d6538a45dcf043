/** Parsing, chunking and reviewing put together: what a submission is (app/services/jobs.py), what a
    source job computes (app/workers/review_worker.py), and what the service promises of the mock
    provider over whole runs. */
module Pipeline {
  import opened Wrappers
  import opened Text
  import opened Parser
  import opened ParserTotals
  import opened Findings
  import opened Chunker
  import opened MockProvider
  import opened ProviderIndependence
  import DB = Database
  import Protocol
  import Submissions
  import Transparency

  // ---- Submissions -------------------------------------------------------------------------

  /** `parse_submission`, from the validated request on. */
  function ParseSubmission(r: DB.Request, bodyHash: string, chunkBytes: int): Result<DB.Submission, ParseError> {
    var files :- Parse(r.diff);
    Ok(DB.Submission(r, bodyHash, Utf8Length(r.diff), |Chunks(files, chunkBytes)|))
  }

  /** Exactly the submissions whose diff parses are accepted. An accepted one asks for what the request
      asks for, under the hash of its body, and reports at least one chunk and at most one a file, the
      fewest that any in-order split into allowed parts needs, and the bytes of a diff that holds its files. */
  lemma SubmissionUsage(r: DB.Request, bodyHash: string, chunkBytes: int)
    ensures ParseSubmission(r, bodyHash, chunkBytes).Ok? <==> Parse(r.diff).Ok?
    ensures Parse(r.diff).Err? ==> ParseSubmission(r, bodyHash, chunkBytes).error == Parse(r.diff).error
    ensures Parse(r.diff).Ok? ==>
            var files, sub := Parse(r.diff).value, ParseSubmission(r, bodyHash, chunkBytes).value;
            && 1 <= sub.chunks <= |files|
            && (forall parts :: ValidSplit(parts, files, chunkBytes) ==> sub.chunks <= |parts|)
            && TotalBytes(files) <= sub.inputBytes == Utf8Length(r.diff)
            && sub.request == r && sub.bodyHash == bodyHash
  {
    hide Parse, Utf8Length;
    if Parse(r.diff).Err? {
      return;
    }
    var files := Parse(r.diff).value;
    RawsCoverDiff(r.diff);
    forall parts | ValidSplit(parts, files, chunkBytes) ensures |Chunks(files, chunkBytes)| <= |parts| {
      GreedyIsOptimal(parts, files, chunkBytes);
    }
    GreedyIsSplit([], files, chunkBytes);
    assert [] + files == files;
    SingleFilesAreAllowed(files, chunkBytes);
    assert |Chunks(files, chunkBytes)| <= |Singles(files)|;
  }

  function Singles(files: seq<FileDiff>): (parts: seq<Chunk>)
    ensures |parts| == |files|
  {
    if files == [] then [] else [[files[0]]] + Singles(files[1..])
  }

  lemma {:induction false} SingleFilesAreAllowed(files: seq<FileDiff>, limit: int)
    ensures ValidSplit(Singles(files), files, limit)
  {
    if files != [] {
      SingleFilesAreAllowed(files[1..], limit);
      FlattenCons([files[0]], Singles(files[1..]));
      assert [files[0]] + files[1..] == files;
    }
  }

  // ---- The review of a source job ----------------------------------------------------------

  /** The settings, the patterns of the mock provider, the language model as any function of the
      chunks, and the texts of the exceptions raised on the way. */
  datatype Setup = Setup(
    chunkBytes: int,
    patterns: Patterns,
    llm: seq<Chunk> -> Result<seq<Finding>, string>,
    parseFailed: string,
    buildFailed: string)

  const UNSUPPORTED := "Unsupported provider: "

  ghost function Answer(setup: Setup, diff: string, provider: string): Result<seq<Finding>, string> {
    if Parse(diff).Err? then Err(setup.parseFailed)
    else
      var files := Parse(diff).value;
      if provider == "mock" then
        var r := ReviewOf(setup.patterns, files);
        if r.Some? then Ok(r.value) else Err(setup.buildFailed)
      else if provider == "llm" then setup.llm(Chunks(files, setup.chunkBytes))
      else Err(UNSUPPORTED + provider)
  }

  ghost function ReviewerOf(setup: Setup): Transparency.Reviewer {
    (diff, provider) => Answer(setup, diff, provider)
  }

  /** Lines 92-97 of `_process_job`: parse, chunk, choose the provider, review. */
  method ReviewSource(setup: Setup, diff: string, provider: string) returns (r: Result<seq<Finding>, string>)
    ensures r == Answer(setup, diff, provider)
  {
    hide Parse, Hits, Build, Utf8Length;
    var files := ParseUnifiedDiff(diff);
    if files.Err? {
      return Err(setup.parseFailed);
    }
    var chunks := ChunkFileDiffs(files.value, setup.chunkBytes);
    if provider == "mock" {
      var found := Review(setup.patterns, chunks);
      return if found.Some? then Ok(found.value) else Err(setup.buildFailed);
    }
    if provider == "llm" {
      return setup.llm(chunks);
    }
    return Err(UNSUPPORTED + provider);
  }

  // ---- The service with the mock provider --------------------------------------------------

  /** In every reachable state of the service, the job of a submission to the mock provider, once done, is
      reported with the normalised mock findings of the files of the diff that was submitted, cut to
      the limit that was given: a value in which neither the chunk limit nor the cache nor the
      interleaving occurs. */
  lemma MockJobsAreExact(n: nat, steps: seq<Protocol.Step>, setup: Setup, j: nat)
    requires Transparency.ReviewedRun(Protocol.Init(n), steps, ReviewerOf(setup))
    ensures Protocol.Legal(Protocol.Init(n), steps)
    ensures |Protocol.Final(Protocol.Init(n), steps).db.jobs| == |Submissions.Created(steps)|
    ensures var db, created := Protocol.Final(Protocol.Init(n), steps).db, Submissions.Created(steps);
            j < |created| && db.jobs[j].status.Done? && created[j].sub.request.provider == "mock" ==>
              var asked, response := created[j].sub.request, DB.ResponseOf(db.jobs[j]);
              && Parse(asked.diff).Ok? && ReviewOf(setup.patterns, Parse(asked.diff).value).Some?
              && response.status.Done?
              && response.findings == Some(Ordered(ReviewOf(setup.patterns, Parse(asked.diff).value).value, asked.maxFindings))
  {
    Submissions.ResultIsOfSubmission(n, steps, ReviewerOf(setup), j);
    hide Parse, ReviewOf, Ordered, Protocol.Legal, Protocol.Final, Transparency.ReviewedRun, Submissions.Created;
  }

  /** An in-order split of `files` into allowed chunks, and none has fewer. */
  ghost predicate IsShortest(chunks: seq<Chunk>, files: seq<FileDiff>, limit: int) {
    ValidSplit(chunks, files, limit) && forall parts :: ValidSplit(parts, files, limit) ==> |chunks| <= |parts|
  }

  lemma ChunksAreShortest(files: seq<FileDiff>, limit: int)
    ensures IsShortest(Chunks(files, limit), files, limit)
  {
    hide Greedy, ValidSplit;
    GreedyIsSplit([], files, limit);
    assert [] + files == files;
    forall parts | ValidSplit(parts, files, limit) ensures |Chunks(files, limit)| <= |parts| {
      GreedyIsOptimal(parts, files, limit);
    }
  }

  /** What the language model is given of a diff, and how many chunks its submission reports. */
  lemma LlmAnswer(setup: Setup, sub: DB.Submission) returns (chunks: seq<Chunk>)
    ensures ReviewerOf(setup)(sub.request.diff, "llm").Ok? ==>
              && Parse(sub.request.diff).Ok? && IsShortest(chunks, Parse(sub.request.diff).value, setup.chunkBytes)
              && ReviewerOf(setup)(sub.request.diff, "llm") == setup.llm(chunks)
              && (ParseSubmission(sub.request, sub.bodyHash, setup.chunkBytes) == Ok(sub) ==> sub.chunks == |chunks|)
  {
    hide Parse, Utf8Length, Chunks, IsShortest, ReviewOf;
    chunks := [];
    if Parse(sub.request.diff).Ok? {
      chunks := Chunks(Parse(sub.request.diff).value, setup.chunkBytes);
      ChunksAreShortest(Parse(sub.request.diff).value, setup.chunkBytes);
    }
  }

  /** The same for the language model: a done job is reported with its findings, normalised and cut, for a
      shortest in-order split of the files of the submitted diff into allowed chunks; and the usage
      reported for a submission taken under the same chunk limit counts those very chunks. */
  lemma LlmJobsAreExact(n: nat, steps: seq<Protocol.Step>, setup: Setup, j: nat) returns (chunks: seq<Chunk>)
    requires Transparency.ReviewedRun(Protocol.Init(n), steps, ReviewerOf(setup))
    ensures Protocol.Legal(Protocol.Init(n), steps)
    ensures |Protocol.Final(Protocol.Init(n), steps).db.jobs| == |Submissions.Created(steps)|
    ensures var db, created := Protocol.Final(Protocol.Init(n), steps).db, Submissions.Created(steps);
            j < |created| && db.jobs[j].status.Done? && created[j].sub.request.provider == "llm" ==>
              var sub, response := created[j].sub, DB.ResponseOf(db.jobs[j]);
              && Parse(sub.request.diff).Ok? && IsShortest(chunks, Parse(sub.request.diff).value, setup.chunkBytes)
              && setup.llm(chunks).Ok?
              && response.findings == Some(Ordered(setup.llm(chunks).value, sub.request.maxFindings))
              && (ParseSubmission(sub.request, sub.bodyHash, setup.chunkBytes) == Ok(sub) ==> response.usage.chunks == |chunks|)
  {
    hide *;
    Submissions.ResultIsOfSubmission(n, steps, ReviewerOf(setup), j);
    var created := Submissions.Created(steps);
    chunks := [];
    if j < |created| {
      Submissions.PollingReportsSubmission(n, steps, j);
      chunks := LlmAnswer(setup, created[j].sub);
    }
  }

  /** Two services with the same patterns, whatever their chunk limits, their workers and their
      histories, report the same findings for done mock jobs whose submitted diffs hold the same
      files in any order. */
  lemma MockServicesAgree(n: nat, steps: seq<Protocol.Step>, setup: Setup, j: nat,
                          n': nat, steps': seq<Protocol.Step>, setup': Setup, j': nat)
    requires Transparency.ReviewedRun(Protocol.Init(n), steps, ReviewerOf(setup))
    requires Transparency.ReviewedRun(Protocol.Init(n'), steps', ReviewerOf(setup'))
    requires setup.patterns == setup'.patterns
    ensures Protocol.Legal(Protocol.Init(n), steps) && Protocol.Legal(Protocol.Init(n'), steps')
    ensures |Protocol.Final(Protocol.Init(n), steps).db.jobs| == |Submissions.Created(steps)|
    ensures |Protocol.Final(Protocol.Init(n'), steps').db.jobs| == |Submissions.Created(steps')|
    ensures var db, db' := Protocol.Final(Protocol.Init(n), steps).db, Protocol.Final(Protocol.Init(n'), steps').db;
            var created, created' := Submissions.Created(steps), Submissions.Created(steps');
            && j < |created| && j' < |created'| && db.jobs[j].status.Done? && db'.jobs[j'].status.Done?
            && SameReview(created[j].sub.request, created'[j'].sub.request) ==>
              DB.ResponseOf(db.jobs[j]).findings == DB.ResponseOf(db'.jobs[j']).findings
  {
    MockJobsAreExact(n, steps, setup, j);
    MockJobsAreExact(n', steps', setup', j');
    var created, created' := Submissions.Created(steps), Submissions.Created(steps');
    hide Parse, ReviewOf, Ordered, LinesAgree, Protocol.Legal, Protocol.Final, Transparency.ReviewedRun, Submissions.Created;
    hide DB.ResponseOf;
    if j < |created| && j' < |created'| && SameReview(created[j].sub.request, created'[j'].sub.request) {
      var r, r' := created[j].sub.request, created'[j'].sub.request;
      FileOrderIrrelevant(setup.patterns, Parse(r.diff).value, Parse(r'.diff).value, r.maxFindings);
    }
  }

  /** Two requests for a mock review with the same limit, of diffs that hold the same files, up to
      order, none of whose recorded lines contradict each other. */
  ghost predicate SameReview(a: DB.Request, b: DB.Request) {
    && a.provider == b.provider == "mock" && a.maxFindings == b.maxFindings
    && Parse(a.diff).Ok? && Parse(b.diff).Ok? && LinesAgree(Parse(a.diff).value)
    && forall file :: file in Parse(a.diff).value <==> file in Parse(b.diff).value
  }
}
