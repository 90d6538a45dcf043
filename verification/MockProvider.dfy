/** The mock provider of app/providers/mock.py. The regular expressions are parameters; what is
    modelled is which lines they are put to, the brace scanner for empty catch blocks, the findings
    built, and that neither chunking nor file order matters to the result. */
module MockProvider {
  import opened Wrappers
  import opened Text
  import opened Comments
  import opened Parser
  import opened Findings
  import opened Chunker

  datatype Rule = Rule(id: string, severity: Severity, category: Category, title: string)

  const RULES: seq<Rule> := [
    Rule("MOCK-001", Critical, Security, "eval usage"),
    Rule("MOCK-002", Critical, Security, "hardcoded credential"),
    Rule("MOCK-003", High, Security, "SQL string concatenation"),
    Rule("MOCK-005", Medium, Correctness, "loose null comparison"),
    Rule("MOCK-006", Medium, Performance, "deep-clone via JSON"),
    Rule("MOCK-007", Low, Style, "console.log left in"),
    Rule("MOCK-008", Low, Style, "unresolved marker"),
    Rule("MOCK-INJ", Critical, Security, "prompt-injection content")]

  const EMPTY_CATCH := Rule("MOCK-004", High, Correctness, "swallowed exception")

  /** `matches(id, s)`: the pattern of rule `id` occurs in `s`. `catchEnd(s)`: where the first match
      of the catch pattern in `s` ends. */
  datatype Patterns = Patterns(matches: (string, string) -> bool, catchEnd: string -> Option<nat>)

  // ---- The brace scanner -------------------------------------------------------------------

  /** The candidates as one text, each followed by a newline. */
  function Joined(candidates: seq<string>): string {
    if candidates == [] then "" else candidates[0] + "\n" + Joined(candidates[1..])
  }

  /** Braces still open after `text`, one being open before it. */
  function Depth(text: string): int {
    if text == "" then 1
    else
      var c := text[|text| - 1];
      Depth(text[..|text| - 1]) + (if c == '{' then 1 else if c == '}' then -1 else 0)
  }

  /** Position `i` of `text` holds the brace that closes the one open before it. */
  ghost predicate ClosesAt(text: string, i: int)
    ensures ClosesAt(text, i) ==> 0 <= i < |text|
  {
    && 0 <= i < |text|
    && Depth(text[..i + 1]) == 0
    && forall k :: 0 <= k <= i ==> Depth(text[..k]) > 0
  }

  /** Some brace of `text` closes the one open before it. */
  ghost predicate Closes(text: string) {
    exists i :: ClosesAt(text, i)
  }

  /** `body` is what stands before that brace. */
  ghost predicate IsBody(text: string, body: string) {
    exists i :: ClosesAt(text, i) && body == text[..i]
  }

  lemma DepthSnoc(text: string, i: nat)
    requires i < |text|
    ensures Depth(text[..i + 1]) == Depth(text[..i]) + (if text[i] == '{' then 1 else if text[i] == '}' then -1 else 0)
  {
    assert text[..i + 1][..i] == text[..i];
  }

  lemma ClosesOnce(text: string, i: int, j: int)
    requires ClosesAt(text, i) && ClosesAt(text, j)
    ensures i == j
  {
    hide Depth;
  }

  /** The nested loops of lines 98-119: they close exactly when the joined text has an unmatched
      closing brace, and then the collected body is exactly the text before the first one. */
  method ScanBody(candidates: seq<string>) returns (closed: bool, body: string)
    ensures closed <==> Closes(Joined(candidates))
    ensures closed ==> IsBody(Joined(candidates), body)
  {
    hide *;
    ghost var text := Joined(candidates);
    var depth := 1;
    body := "";
    closed := false;
    EmptyDepth(text);
    assert candidates[0..] == candidates;
    for k := 0 to |candidates|
      invariant !closed && Open(text, body, depth) && text == body + Joined(candidates[k..])
    {
      ghost var rest := "\n" + Joined(candidates[k + 1..]);
      JoinedHead(candidates, k);
      closed, depth, body := ScanCandidate(candidates[k], depth, body, text, rest);
      if closed {
        break;
      }
      NewlineNext(text, body, Joined(candidates[k + 1..]));
      OpenStep(text, body, depth, '\n');
      body := body + "\n";
    }
    if !closed {
      JoinedNone(candidates);
      assert text == body;
      NeverClosed(text, depth);
    }
  }

  /** The inner loop: one candidate, character by character. */
  method ScanCandidate(candidate: string, depth0: int, body0: string, ghost text: string, ghost rest: string)
    returns (closed: bool, depth: int, body: string)
    requires Open(text, body0, depth0) && text == body0 + (candidate + rest)
    ensures closed ==> Closes(text) && IsBody(text, body)
    ensures !closed ==> Open(text, body, depth) && text == body + rest
  {
    hide *;
    closed, depth, body := false, depth0, body0;
    assert candidate[0..] == candidate;
    for j := 0 to |candidate|
      invariant !closed && Open(text, body, depth) && text == body + (candidate[j..] + rest)
    {
      var character := candidate[j];
      Shift(text, body, candidate[j..], rest);
      OpenStep(text, body, depth, character);
      if character == '{' {
        depth := depth + 1;
        body := body + [character];
      } else if character == '}' {
        depth := depth - 1;
        if depth == 0 {
          closed := true;
          ClosesHere(text, body);
          break;
        }
        body := body + [character];
      } else {
        body := body + [character];
      }
    }
    assert !closed ==> candidate[|candidate|..] + rest == rest;
  }

  /** The scanned prefix `body` of `text` has left `depth` braces open, and never fewer than one. */
  ghost predicate Open(text: string, body: string, depth: int) {
    && body <= text && depth == Depth(body) && depth > 0
    && forall k :: 0 <= k <= |body| ==> Depth(text[..k]) > 0
  }

  lemma Shift(text: string, body: string, pending: string, rest: string)
    requires pending != "" && text == body + (pending + rest)
    ensures |body| < |text| && text[|body|] == pending[0]
    ensures text == body + [pending[0]] + (pending[1..] + rest)
  {
    assert pending == [pending[0]] + pending[1..];
  }

  lemma NewlineNext(text: string, body: string, rest: string)
    requires text == body + ("\n" + rest)
    ensures |body| < |text| && text[|body|] == '\n' && text == body + "\n" + rest
  {
  }

  /** Scanning one more character. */
  lemma OpenStep(text: string, body: string, depth: int, c: char)
    requires Open(text, body, depth) && |body| < |text| && text[|body|] == c
    ensures var after := depth + (if c == '{' then 1 else if c == '}' then -1 else 0);
            if after == 0 then ClosesAt(text, |body|) else Open(text, body + [c], after)
    ensures depth > 0 && body <= text
  {
    DepthSnoc(text, |body|);
    assert text[..|body|] == body && text[..|body| + 1] == body + [c];
  }

  lemma ClosesHere(text: string, body: string)
    requires ClosesAt(text, |body|) && body <= text
    ensures Closes(text) && IsBody(text, body)
  {
    hide ClosesAt;
    assert text[..|body|] == body;
  }

  lemma NeverClosed(text: string, depth: int)
    requires Open(text, text, depth)
    ensures !Closes(text)
  {
    hide Depth;
    forall i ensures !ClosesAt(text, i) {
    }
  }

  lemma EmptyDepth(text: string)
    ensures Open(text, "", 1)
  {
    assert text[..0] == "";
  }

  lemma JoinedHead(candidates: seq<string>, k: nat)
    requires k < |candidates|
    ensures Joined(candidates[k..]) == candidates[k] + ("\n" + Joined(candidates[k + 1..]))
  {
    assert candidates[k..][0] == candidates[k] && candidates[k..][1..] == candidates[k + 1..];
  }

  lemma JoinedNone(candidates: seq<string>)
    ensures Joined(candidates[|candidates|..]) == ""
  {
    assert candidates[|candidates|..] == [];
  }

  // ---- Empty catch blocks ------------------------------------------------------------------

  /** `s[n:]`. */
  function DropChars(s: string, n: nat): string {
    if n <= |s| then s[n..] else ""
  }

  function Contents(lines: seq<NewFileLine>): (r: seq<string>)
    ensures |r| == |lines|
  {
    seq(|lines|, i requires 0 <= i < |lines| => lines[i].content)
  }

  /** The text of a hunk after the catch match that ends at `end` on line `i`. */
  function AfterCatch(hunkLines: seq<NewFileLine>, i: nat, end: nat): seq<string>
    requires i < |hunkLines|
  {
    [DropChars(hunkLines[i].content, end)] + Contents(hunkLines[i + 1..])
  }

  /** Line `i` of the hunk is an added line whose catch block closes within the hunk and holds
      nothing but space and comments. */
  ghost predicate SwallowsAt(p: Patterns, hunkLines: seq<NewFileLine>, i: nat)
    requires i < |hunkLines|
  {
    && hunkLines[i].added
    && p.catchEnd(hunkLines[i].content).Some?
    && EmptyBody(Joined(AfterCatch(hunkLines, i, p.catchEnd(hunkLines[i].content).value)))
  }

  /** The block open before `text` closes in it, around nothing but space and comments. */
  ghost predicate EmptyBody(text: string) {
    exists k :: ClosesAt(text, k) && OnlyComments(text[..k])
  }

  ghost function SwallowedIn(p: Patterns, hunkLines: seq<NewFileLine>, n: nat): seq<NewFileLine>
    requires n <= |hunkLines|
  {
    if n == 0 then []
    else SwallowedIn(p, hunkLines, n - 1) + (if SwallowsAt(p, hunkLines, n - 1) then [hunkLines[n - 1]] else [])
  }

  /** The keys of `by_hunk`, in the order in which they were first set, and its values. */
  function HunkOrder(lines: seq<NewFileLine>): seq<int> {
    if lines == [] then []
    else
      var before, hunk := HunkOrder(lines[..|lines| - 1]), lines[|lines| - 1].hunk;
      if hunk in before then before else before + [hunk]
  }

  function OfHunk(lines: seq<NewFileLine>, hunk: int): seq<NewFileLine> {
    if lines == [] then []
    else OfHunk(lines[..|lines| - 1], hunk)
         + (if lines[|lines| - 1].hunk == hunk then [lines[|lines| - 1]] else [])
  }

  ghost function SwallowedInHunks(p: Patterns, lines: seq<NewFileLine>, hunks: seq<int>): seq<NewFileLine> {
    if hunks == [] then []
    else
      var hunkLines := OfHunk(lines, hunks[|hunks| - 1]);
      SwallowedInHunks(p, lines, hunks[..|hunks| - 1]) + SwallowedIn(p, hunkLines, |hunkLines|)
  }

  ghost function EmptyCatches(p: Patterns, file: FileDiff): seq<NewFileLine> {
    SwallowedInHunks(p, file.lines, HunkOrder(file.lines))
  }

  /** `_empty_catch_lines`. */
  method EmptyCatchLines(p: Patterns, file: FileDiff) returns (findings: seq<NewFileLine>)
    ensures findings == EmptyCatches(p, file)
  {
    hide OfHunk, HunkOrder, SwallowedIn, Grouped;
    var order, byHunk := GroupByHunk(file.lines);
    findings := [];
    for h := 0 to |order|
      invariant findings == SwallowedInHunks(p, file.lines, order[..h])
    {
      GroupAt(file.lines, order, byHunk, h);
      var swallowed := ScanHunk(p, byHunk[order[h]]);
      assert order[..h + 1][..h] == order[..h];
      findings := findings + swallowed;
    }
    assert order[..|order|] == order;
  }

  /** `order` and `byHunk` are the grouping of `lines`. */
  ghost predicate Grouped(lines: seq<NewFileLine>, order: seq<int>, byHunk: map<int, seq<NewFileLine>>) {
    && order == HunkOrder(lines)
    && (forall h :: h in byHunk <==> h in order)
    && (forall h :: OfHunk(lines, h) == if h in byHunk then byHunk[h] else [])
  }

  /** One more line of a hunk seen before. */
  lemma GroupOld(lines: seq<NewFileLine>, k: nat, order: seq<int>, byHunk: map<int, seq<NewFileLine>>)
    requires k < |lines| && Grouped(lines[..k], order, byHunk) && lines[k].hunk in byHunk
    ensures Grouped(lines[..k + 1], order, byHunk[lines[k].hunk := byHunk[lines[k].hunk] + [lines[k]]])
  {
    hide HunkOrder, OfHunk;
    HunkOrderSnoc(lines, k);
    var hunk, after := lines[k].hunk, byHunk[lines[k].hunk := byHunk[lines[k].hunk] + [lines[k]]];
    forall h ensures OfHunk(lines[..k + 1], h) == if h in after then after[h] else [] {
      OfHunkSnoc(lines, k, h);
    }
  }

  /** The first line of a hunk. */
  lemma GroupNew(lines: seq<NewFileLine>, k: nat, order: seq<int>, byHunk: map<int, seq<NewFileLine>>)
    requires k < |lines| && Grouped(lines[..k], order, byHunk) && lines[k].hunk !in byHunk
    ensures Grouped(lines[..k + 1], order + [lines[k].hunk], byHunk[lines[k].hunk := [lines[k]]])
  {
    hide HunkOrder, OfHunk;
    HunkOrderSnoc(lines, k);
    var after := byHunk[lines[k].hunk := [lines[k]]];
    forall h ensures OfHunk(lines[..k + 1], h) == if h in after then after[h] else [] {
      OfHunkSnoc(lines, k, h);
    }
  }

  lemma GroupAt(lines: seq<NewFileLine>, order: seq<int>, byHunk: map<int, seq<NewFileLine>>, i: nat)
    requires Grouped(lines, order, byHunk) && i < |order|
    ensures order[i] in byHunk && byHunk[order[i]] == OfHunk(lines, order[i])
  {
    hide OfHunk, HunkOrder;
    var h := order[i];
    assert h in order;
  }

  lemma GroupOrder(lines: seq<NewFileLine>, order: seq<int>, byHunk: map<int, seq<NewFileLine>>)
    requires Grouped(lines, order, byHunk)
    ensures order == HunkOrder(lines)
  {
  }

  lemma HunkOrderSnoc(lines: seq<NewFileLine>, k: nat)
    requires k < |lines|
    ensures var before, hunk := HunkOrder(lines[..k]), lines[k].hunk;
            HunkOrder(lines[..k + 1]) == if hunk in before then before else before + [hunk]
  {
    assert lines[..k + 1][..k] == lines[..k];
  }

  lemma OfHunkSnoc(lines: seq<NewFileLine>, k: nat, h: int)
    requires k < |lines|
    ensures OfHunk(lines[..k + 1], h) == OfHunk(lines[..k], h) + (if lines[k].hunk == h then [lines[k]] else [])
  {
    assert lines[..k + 1][..k] == lines[..k];
  }

  method GroupByHunk(lines: seq<NewFileLine>) returns (order: seq<int>, byHunk: map<int, seq<NewFileLine>>)
    ensures Grouped(lines, order, byHunk) && order == HunkOrder(lines)
  {
    order, byHunk := [], map[];
    assert Grouped(lines[..0], order, byHunk);
    hide *;
    for k := 0 to |lines|
      invariant Grouped(lines[..k], order, byHunk)
    {
      var line := lines[k];
      if line.hunk in byHunk {
        GroupOld(lines, k, order, byHunk);
        byHunk := byHunk[line.hunk := byHunk[line.hunk] + [line]];
      } else {
        GroupNew(lines, k, order, byHunk);
        order := order + [line.hunk];
        byHunk := byHunk[line.hunk := [line]];
      }
    }
    assert lines[..|lines|] == lines;
    GroupOrder(lines, order, byHunk);
  }

  method ScanHunk(p: Patterns, hunkLines: seq<NewFileLine>) returns (findings: seq<NewFileLine>)
    ensures findings == SwallowedIn(p, hunkLines, |hunkLines|)
  {
    hide EmptyBody, OnlyComments;
    findings := [];
    for index := 0 to |hunkLines|
      invariant findings == SwallowedIn(p, hunkLines, index)
    {
      var catchLine := hunkLines[index];
      if !catchLine.added {
        continue;
      }
      var match_ := p.catchEnd(catchLine.content);
      if match_.None? {
        continue;
      }
      var closed, body := ScanBody(AfterCatch(hunkLines, index, match_.value));
      BodyDecides(Joined(AfterCatch(hunkLines, index, match_.value)), closed, body);
      if !closed {
        continue;
      }
      if OnlyComments(body) {
        findings := findings + [catchLine];
      }
    }
  }

  lemma BodyDecides(text: string, closed: bool, body: string)
    requires closed <==> Closes(text)
    requires closed ==> IsBody(text, body)
    ensures EmptyBody(text) <==> closed && OnlyComments(body)
  {
    hide ClosesAt, OnlyComments;
    if closed {
      var k :| ClosesAt(text, k) && body == text[..k];
      if j :| ClosesAt(text, j) && OnlyComments(text[..j]) {
        ClosesOnce(text, k, j);
      }
    }
  }

  // ---- Findings ----------------------------------------------------------------------------

  /** A rule and a line it reports. */
  type Hit = (Rule, NewFileLine)

  function FindingId(rule: string, path: string, line: nat): string {
    rule + ":" + path + ":" + Decimal(line)
  }

  /** `_finding`; None is the validation error for a line number below one (app/schemas.py:39). */
  function FindingOf(hit: Hit): Option<Finding> {
    var (rule, line) := hit;
    if line.line < 1 then None
    else Some(Finding(FindingId(rule.id, line.path, line.line), rule.id, line.path, line.line,
                      rule.severity, rule.category, rule.title, line.content))
  }

  ghost function RuleHits(p: Patterns, line: NewFileLine, rules: seq<Rule>): seq<Hit> {
    if rules == [] then []
    else
      var rule := rules[|rules| - 1];
      RuleHits(p, line, rules[..|rules| - 1]) + (if p.matches(rule.id, line.content) then [(rule, line)] else [])
  }

  ghost function LineHits(p: Patterns, lines: seq<NewFileLine>): seq<Hit> {
    if lines == [] then []
    else
      var line := lines[|lines| - 1];
      LineHits(p, lines[..|lines| - 1]) + (if line.added then RuleHits(p, line, RULES) else [])
  }

  ghost function CatchHits(lines: seq<NewFileLine>): (r: seq<Hit>)
    ensures |r| == |lines|
  {
    seq(|lines|, i requires 0 <= i < |lines| => (EMPTY_CATCH, lines[i]))
  }

  ghost function FileHits(p: Patterns, file: FileDiff): seq<Hit> {
    LineHits(p, file.lines) + CatchHits(EmptyCatches(p, file))
  }

  ghost function Hits(p: Patterns, files: seq<FileDiff>): seq<Hit> {
    if files == [] then [] else Hits(p, files[..|files| - 1]) + FileHits(p, files[|files| - 1])
  }

  /** The findings of all hits, unless one of them cannot be built. */
  ghost function Build(hits: seq<Hit>): Option<seq<Finding>> {
    if hits == [] then Some([])
    else
      var before :- Build(hits[..|hits| - 1]);
      var f :- FindingOf(hits[|hits| - 1]);
      Some(before + [f])
  }

  lemma {:induction false} BuildFails(hits: seq<Hit>, more: seq<Hit>)
    requires Build(hits).None?
    ensures Build(hits + more).None?
    decreases |more|
  {
    if more == [] {
      assert hits + more == hits;
    } else {
      assert (hits + more)[..|hits + more| - 1] == hits + more[..|more| - 1];
      BuildFails(hits, more[..|more| - 1]);
    }
  }

  lemma BuildSnoc(hits: seq<Hit>, hit: Hit)
    ensures Build(hits + [hit]) == if Build(hits).Some? && FindingOf(hit).Some? then Some(Build(hits).value + [FindingOf(hit).value])
                                   else None
  {
    assert (hits + [hit])[..|hits|] == hits;
  }

  /** Building succeeds exactly when every hit is on a line numbered from one. */
  lemma {:induction false} BuildsIff(hits: seq<Hit>)
    ensures Build(hits).Some? <==> forall i :: 0 <= i < |hits| ==> hits[i].1.line >= 1
    ensures Build(hits).Some? ==> |Build(hits).value| == |hits|
    ensures Build(hits).Some? ==> forall i :: 0 <= i < |hits| ==> FindingOf(hits[i]) == Some(Build(hits).value[i])
  {
    if hits != [] {
      BuildsIff(hits[..|hits| - 1]);
      assert hits == hits[..|hits| - 1] + [hits[|hits| - 1]];
    }
  }

  lemma {:induction false} HitsAppend(p: Patterns, a: seq<FileDiff>, b: seq<FileDiff>)
    ensures Hits(p, a + b) == Hits(p, a) + Hits(p, b)
    decreases |b|
  {
    hide FileHits;
    if b == [] {
      assert a + b == a;
    } else {
      assert (a + b)[..|a + b| - 1] == a + b[..|b| - 1];
      HitsAppend(p, a, b[..|b| - 1]);
    }
  }

  /** `MockProvider.review`: the findings of every hit, file by file; None when building one of
      them raises. `found` carries the list being appended to. */
  method Review(p: Patterns, chunks: seq<Chunk>) returns (r: Option<seq<Finding>>)
    ensures r == Build(Hits(p, Flatten(chunks)))
  {
    var findings: seq<Finding> := [];
    for c := 0 to |chunks|
      invariant Build(Hits(p, Flatten(chunks[..c]))) == Some(findings)
    {
      var chunk := chunks[c];
      ghost var before := Flatten(chunks[..c]);
      FlattenPrefix(chunks, c);
      for k := 0 to |chunk|
        invariant Build(Hits(p, before + chunk[..k])) == Some(findings)
      {
        FilePrefix(p, before, chunk, k);
        var file := chunk[k];
        var more := ReviewFile(p, file, Hits(p, before + chunk[..k]), findings);
        if more.None? {
          FlattenRest(p, chunks, c, k);
          BuildFails(Hits(p, before + chunk[..k + 1]), Hits(p, chunk[k + 1..] + Flatten(chunks[c + 1..])));
          return None;
        }
        findings := more.value;
      }
      assert chunk[..|chunk|] == chunk;
    }
    assert chunks[..|chunks|] == chunks;
    return Some(findings);
  }

  lemma FlattenPrefix(chunks: seq<Chunk>, c: nat)
    requires c < |chunks|
    ensures Flatten(chunks[..c + 1]) == Flatten(chunks[..c]) + chunks[c]
    ensures Flatten(chunks[..c]) + chunks[c][..0] == Flatten(chunks[..c])
  {
    assert chunks[..c + 1] == chunks[..c] + [chunks[c]];
    FlattenAppend(chunks[..c], [chunks[c]]);
    FlattenOne(chunks[c]);
  }

  lemma FilePrefix(p: Patterns, before: seq<FileDiff>, chunk: Chunk, k: nat)
    requires k < |chunk|
    ensures Hits(p, before + chunk[..k + 1]) == Hits(p, before + chunk[..k]) + FileHits(p, chunk[k])
  {
    hide FileHits;
    var files := before + chunk[..k + 1];
    assert files[..|files| - 1] == before + chunk[..k] && files[|files| - 1] == chunk[k];
  }

  lemma FlattenRest(p: Patterns, chunks: seq<Chunk>, c: nat, k: nat)
    requires c < |chunks| && k < |chunks[c]|
    ensures Hits(p, Flatten(chunks)) == Hits(p, Flatten(chunks[..c]) + chunks[c][..k + 1])
                                        + Hits(p, chunks[c][k + 1..] + Flatten(chunks[c + 1..]))
  {
    hide Hits;
    var chunk, before, after := chunks[c], Flatten(chunks[..c]), Flatten(chunks[c + 1..]);
    assert chunks == chunks[..c + 1] + chunks[c + 1..];
    FlattenAppend(chunks[..c + 1], chunks[c + 1..]);
    FlattenPrefix(chunks, c);
    assert chunk == chunk[..k + 1] + chunk[k + 1..];
    assert Flatten(chunks) == (before + chunk[..k + 1]) + (chunk[k + 1..] + after);
    HitsAppend(p, before + chunk[..k + 1], chunk[k + 1..] + after);
  }

  /** One file (lines 138-145). */
  method ReviewFile(p: Patterns, file: FileDiff, ghost hits: seq<Hit>, found: seq<Finding>) returns (r: Option<seq<Finding>>)
    requires Build(hits) == Some(found)
    ensures r == Build(hits + FileHits(p, file))
  {
    var lineFindings := ReviewLines(p, file.lines, hits, found);
    hide Build, LineHits, EmptyCatches;
    ghost var lineHits, catches := LineHits(p, file.lines), EmptyCatches(p, file);
    assert hits + FileHits(p, file) == hits + lineHits + CatchHits(catches);
    if lineFindings.None? {
      BuildFails(hits + lineHits, CatchHits(catches));
      return None;
    }
    var swallowed := EmptyCatchLines(p, file);
    r := ReviewCatches(swallowed, hits + lineHits, lineFindings.value);
  }

  /** The empty catch blocks of a file (lines 142-145). */
  method ReviewCatches(swallowed: seq<NewFileLine>, ghost hits: seq<Hit>, found: seq<Finding>)
    returns (r: Option<seq<Finding>>)
    requires Build(hits) == Some(found)
    ensures r == Build(hits + CatchHits(swallowed))
  {
    hide Build, FindingOf;
    var findings := found;
    ghost var catches := CatchHits(swallowed);
    assert hits + catches[..0] == hits;
    for k := 0 to |swallowed|
      invariant Build(hits + catches[..k]) == Some(findings)
    {
      var f := FindingOf((EMPTY_CATCH, swallowed[k]));
      BuildSnoc(hits + catches[..k], catches[k]);
      assert hits + catches[..k + 1] == hits + catches[..k] + [catches[k]];
      if f.None? {
        assert hits + catches == hits + catches[..k + 1] + catches[k + 1..];
        BuildFails(hits + catches[..k + 1], catches[k + 1..]);
        return None;
      }
      findings := findings + [f.value];
    }
    assert catches[..|swallowed|] == catches;
    return Some(findings);
  }

  /** The rules on every added line (lines 138-141). */
  method ReviewLines(p: Patterns, lines: seq<NewFileLine>, ghost hits: seq<Hit>, found: seq<Finding>)
    returns (r: Option<seq<Finding>>)
    requires Build(hits) == Some(found)
    ensures r == Build(hits + LineHits(p, lines))
  {
    hide Build, RuleHits, RULES;
    var findings := found;
    assert hits + LineHits(p, lines[..0]) == hits;
    for k := 0 to |lines|
      invariant Build(hits + LineHits(p, lines[..k])) == Some(findings)
    {
      var line := lines[k];
      LinePrefix(p, lines, k);
      if line.added {
        var more := ReviewLine(p, line, hits + LineHits(p, lines[..k]), findings);
        assert hits + LineHits(p, lines[..k]) + RuleHits(p, line, RULES) == hits + LineHits(p, lines[..k + 1]);
        if more.None? {
          ghost var rest := LineHitsFrom(p, lines, k + 1);
          assert hits + LineHits(p, lines) == hits + LineHits(p, lines[..k + 1]) + rest;
          BuildFails(hits + LineHits(p, lines[..k + 1]), rest);
          return None;
        }
        findings := more.value;
      } else {
        assert LineHits(p, lines[..k + 1]) == LineHits(p, lines[..k]);
      }
    }
    assert lines[..|lines|] == lines;
    return Some(findings);
  }

  lemma LinePrefix(p: Patterns, lines: seq<NewFileLine>, k: nat)
    requires k < |lines|
    ensures LineHits(p, lines[..k + 1])
         == LineHits(p, lines[..k]) + (if lines[k].added then RuleHits(p, lines[k], RULES) else [])
  {
    hide RuleHits, RULES;
    assert lines[..k + 1][..k] == lines[..k];
  }

  lemma {:induction false} LineHitsFrom(p: Patterns, lines: seq<NewFileLine>, k: nat) returns (rest: seq<Hit>)
    requires k <= |lines|
    ensures LineHits(p, lines) == LineHits(p, lines[..k]) + rest
    decreases |lines| - k
  {
    hide RuleHits, RULES;
    if k == |lines| {
      assert lines[..k] == lines;
      rest := [];
    } else {
      var more := LineHitsFrom(p, lines, k + 1);
      LinePrefix(p, lines, k);
      rest := (if lines[k].added then RuleHits(p, lines[k], RULES) else []) + more;
    }
  }

  method ReviewLine(p: Patterns, line: NewFileLine, ghost hits: seq<Hit>, found: seq<Finding>)
    returns (r: Option<seq<Finding>>)
    requires Build(hits) == Some(found)
    ensures r == Build(hits + RuleHits(p, line, RULES))
  {
    hide Build, FindingOf, RULES;
    var findings := found;
    assert hits + RuleHits(p, line, RULES[..0]) == hits;
    for k := 0 to |RULES|
      invariant Build(hits + RuleHits(p, line, RULES[..k])) == Some(findings)
    {
      var rule := RULES[k];
      RulePrefix(p, line, RULES, k);
      if p.matches(rule.id, line.content) {
        BuildSnoc(hits + RuleHits(p, line, RULES[..k]), (rule, line));
        assert hits + RuleHits(p, line, RULES[..k]) + [(rule, line)] == hits + RuleHits(p, line, RULES[..k + 1]);
        var f := FindingOf((rule, line));
        if f.None? {
          ghost var rest := RuleHitsFrom(p, line, RULES, k + 1);
          assert hits + RuleHits(p, line, RULES) == hits + RuleHits(p, line, RULES[..k + 1]) + rest;
          BuildFails(hits + RuleHits(p, line, RULES[..k + 1]), rest);
          return None;
        }
        findings := findings + [f.value];
      } else {
        assert RuleHits(p, line, RULES[..k + 1]) == RuleHits(p, line, RULES[..k]);
      }
    }
    assert RULES[..|RULES|] == RULES;
    return Some(findings);
  }

  lemma RulePrefix(p: Patterns, line: NewFileLine, rules: seq<Rule>, k: nat)
    requires k < |rules|
    ensures RuleHits(p, line, rules[..k + 1])
         == RuleHits(p, line, rules[..k]) + (if p.matches(rules[k].id, line.content) then [(rules[k], line)] else [])
  {
    assert rules[..k + 1][..k] == rules[..k];
  }

  lemma {:induction false} RuleHitsFrom(p: Patterns, line: NewFileLine, rules: seq<Rule>, k: nat) returns (rest: seq<Hit>)
    requires k <= |rules|
    ensures RuleHits(p, line, rules) == RuleHits(p, line, rules[..k]) + rest
    decreases |rules| - k
  {
    if k == |rules| {
      assert rules[..k] == rules;
      rest := [];
    } else {
      var more := RuleHitsFrom(p, line, rules, k + 1);
      RulePrefix(p, line, rules, k);
      rest := (if p.matches(rules[k].id, line.content) then [(rules[k], line)] else []) + more;
    }
  }

  // ---- Chunking and file order do not matter -----------------------------------------------

  /** What the provider finds in the files of a diff, however they are chunked. */
  ghost function ReviewOf(p: Patterns, files: seq<FileDiff>): Option<seq<Finding>> {
    Build(Hits(p, files))
  }

  /** The findings, in order, are the same for every chunk limit. */
  lemma ChunkLimitIrrelevant(p: Patterns, files: seq<FileDiff>, limit: int)
    ensures ReviewOf(p, Flatten(Chunks(files, limit))) == ReviewOf(p, files)
  {
    hide ReviewOf;
    GreedyIsSplit([], files, limit);
    assert [] + files == files;
  }
}
