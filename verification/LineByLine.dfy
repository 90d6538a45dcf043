/** Which lines of a diff the parser records, told by their positions and their first characters, for
    every text (app/diff/parser.py:86-115). */
module LineByLine {
  import opened Wrappers
  import opened Text
  import opened Parser
  import opened ParserTotals
  import opened HunkHeader
  import opened ParserRoundTrip
  import opened PathNames

  predicate IsHeader(line: string) {
    HunkStart(line).Some?
  }

  predicate IsNote(line: string) {
    "\\ No newline at end of file" <= line
  }

  predicate IsAdded(line: string) {
    |line| >= 1 && line[0] == '+' && !(|line| >= 3 && line[1] == '+' && line[2] == '+')
  }

  predicate IsContext(line: string) {
    |line| >= 1 && line[0] == ' '
  }

  predicate IsDeleted(line: string) {
    |line| >= 1 && line[0] == '-' && !(|line| >= 3 && line[1] == '-' && line[2] == '-')
  }

  predicate IsNewSide(line: string) {
    IsAdded(line) || IsContext(line)
  }

  /** A line of no known kind. */
  predicate EndsHunk(line: string) {
    !IsHeader(line) && !IsNote(line) && !IsNewSide(line) && !IsDeleted(line)
  }

  /** From the header at `h` to position `i` there is neither another header nor the end of the hunk. */
  ghost predicate Within(body: seq<string>, h: int, i: int) {
    && 0 <= h < i <= |body| && IsHeader(body[h])
    && forall k :: h < k < i ==> !IsHeader(body[k]) && !EndsHunk(body[k])
  }

  ghost predicate InSomeHunk(body: seq<string>, i: int) {
    exists h :: Within(body, h, i)
  }

  /** Line `i` is recorded: it is a line of the new side, in a hunk that has not ended before it. */
  ghost predicate IsRecorded(body: seq<string>, i: int) {
    0 <= i < |body| && IsNewSide(body[i]) && InSomeHunk(body, i)
  }

  /** How many of the lines from `a` up to `b` are on the new side. */
  function NewSides(body: seq<string>, a: nat, b: nat): nat
    requires a <= b <= |body|
    decreases b
  {
    if a == b then 0 else NewSides(body, a, b - 1) + (if IsNewSide(body[b - 1]) then 1 else 0)
  }

  /** How many of the first `n` lines are headers. */
  function Headers(body: seq<string>, n: nat): nat
    requires n <= |body|
  {
    if n == 0 then 0 else Headers(body, n - 1) + (if IsHeader(body[n - 1]) then 1 else 0)
  }

  /** `line` is a mark, `content`, and nothing more but line ends. */
  ghost predicate Shows(line: string, content: string) {
    && 1 + |content| <= |line| && line[1..1 + |content|] == content
    && (forall i :: 1 + |content| <= i < |line| ==> line[i] == '\r' || line[i] == '\n')
    && (content != "" ==> content[|content| - 1] != '\r' && content[|content| - 1] != '\n')
  }

  /** What is recorded of line `i`, its hunk starting at `h`. */
  ghost predicate Describes(path: string, e: NewFileLine, body: seq<string>, h: int, i: int) {
    && Within(body, h, i) && i < |body| && HunkStart(body[h]).Some?
    && e.path == path && e.line == HunkStart(body[h]).value + NewSides(body, h + 1, i)
    && e.hunk == Headers(body, h) && e.added == IsAdded(body[i]) && Shows(body[i], e.content)
  }

  ghost predicate Matches(path: string, e: NewFileLine, body: seq<string>, i: int) {
    exists h :: Describes(path, e, body, h, i)
  }

  ghost predicate Increasing(at: seq<nat>) {
    forall m, n :: 0 <= m < n < |at| ==> at[m] < at[n]
  }

  /** `lines` are the recorded ones among the first `n`, in order; `at` tells their positions. */
  ghost predicate RecordsOf(path: string, lines: seq<NewFileLine>, body: seq<string>, at: seq<nat>, n: int) {
    && |at| == |lines| && Increasing(at)
    && (forall i :: i in at <==> i < n && IsRecorded(body, i))
    && (forall m :: 0 <= m < |at| ==> Matches(path, lines[m], body, at[m]))
  }

  /** The state after the first `n` lines, as far as the numbering goes. */
  ghost predicate Counts(s: Scan, body: seq<string>, n: nat)
    requires n <= |body|
  {
    && s.hunk == Headers(body, n) - 1 && (s.saw <==> Headers(body, n) > 0)
    && (s.current.Some? <==> InSomeHunk(body, n))
    && forall h :: Within(body, h, n) && s.current.Some? ==>
         && HunkStart(body[h]).Some? && s.current.value == HunkStart(body[h]).value + NewSides(body, h + 1, n)
         && s.hunk == Headers(body, h)
  }

  // ---- One line ----------------------------------------------------------------------------

  lemma NoteIsPrefix(line: string)
    ensures NO_NEWLINE <= line <==> IsNote(line)
  {
  }

  lemma {:induction false} StripEolShows(line: string)
    requires line != ""
    ensures Shows(line, StripEol(line[1..]))
  {
    StripEolTail(line[1..]);
    var content := StripEol(line[1..]);
    assert line[1..][..|content|] == line[1..1 + |content|];
    forall i | 1 + |content| <= i < |line| ensures line[i] == '\r' || line[i] == '\n' {
      assert line[i] == line[1..][i - 1];
    }
  }

  /** What the state machine does, by the kind of the line. */
  lemma LineEffect(path: string, s: Scan, line: string)
    ensures IsHeader(line) ==> ScanLine(path, s, line) == Scan(HunkStart(line), s.hunk + 1, s.lines, true)
    ensures !IsHeader(line) && s.current.None? ==> ScanLine(path, s, line) == s
    ensures !IsHeader(line) && (IsNote(line) || IsDeleted(line)) ==> ScanLine(path, s, line) == s
    ensures !IsHeader(line) && s.current.Some? && IsNewSide(line) ==>
              line != "" && ScanLine(path, s, line) == Record(path, s, StripEol(line[1..]), IsAdded(line))
    ensures s.current.Some? && EndsHunk(line) ==> ScanLine(path, s, line) == s.(current := None)
  {
    hide HunkStart, StripEol, Record;
    NoteIsPrefix(line);
    assert "+" <= line <==> |line| >= 1 && line[0] == '+';
    assert "-" <= line <==> |line| >= 1 && line[0] == '-';
    assert " " <= line <==> |line| >= 1 && line[0] == ' ';
    assert "+++" <= line <==> |line| >= 3 && line[0] == '+' && line[1] == '+' && line[2] == '+';
    assert "---" <= line <==> |line| >= 3 && line[0] == '-' && line[1] == '-' && line[2] == '-';
  }

  /** A header is none of the other kinds. */
  lemma HeaderAlone(line: string)
    requires IsHeader(line)
    ensures !IsNewSide(line) && !IsNote(line) && !IsDeleted(line)
  {
  }

  // ---- Positions ---------------------------------------------------------------------------

  lemma WithinNext(body: seq<string>, h: int, n: nat)
    requires n < |body|
    ensures Within(body, h, n + 1) <==>
            (if IsHeader(body[n]) then h == n else Within(body, h, n) && !EndsHunk(body[n]))
  {
    hide IsHeader, EndsHunk;
  }

  lemma SomeHunkNext(body: seq<string>, n: nat)
    requires n < |body|
    ensures InSomeHunk(body, n + 1) <==> IsHeader(body[n]) || (InSomeHunk(body, n) && !EndsHunk(body[n]))
  {
    hide IsHeader, EndsHunk, Within;
    WithinNext(body, n, n);
    if InSomeHunk(body, n + 1) {
      var h :| Within(body, h, n + 1);
      WithinNext(body, h, n);
    }
    if !IsHeader(body[n]) && InSomeHunk(body, n) && !EndsHunk(body[n]) {
      var h :| Within(body, h, n);
      WithinNext(body, h, n);
    }
  }

  lemma CountsNext(path: string, s: Scan, body: seq<string>, n: nat)
    requires n < |body| && Counts(s, body, n)
    ensures Counts(ScanLine(path, s, body[n]), body, n + 1)
  {
    var t := ScanLine(path, s, body[n]);
    LineEffect(path, s, body[n]);
    SomeHunkNext(body, n);
    if IsHeader(body[n]) {
      HeaderAlone(body[n]);
    }
    hide ScanLine, StripEol, InSomeHunk, Within, IsAdded, IsContext, IsNote, IsDeleted, HunkStart;
    forall h | Within(body, h, n + 1) && t.current.Some?
      ensures HunkStart(body[h]).Some? && t.current.value == HunkStart(body[h]).value + NewSides(body, h + 1, n + 1)
      ensures t.hunk == Headers(body, h)
    {
      WithinNext(body, h, n);
      if !IsHeader(body[n]) {
        assert Within(body, h, n);
        WithinBounds(body, h, n);
      }
    }
  }

  lemma WithinBounds(body: seq<string>, h: int, n: int)
    requires Within(body, h, n)
    ensures 0 <= h < n <= |body|
  {
  }

  lemma RecordedNow(path: string, s: Scan, body: seq<string>, n: nat)
    requires n < |body| && Counts(s, body, n) && s.current.Some? && IsNewSide(body[n])
    requires body[n] != "" && !IsHeader(body[n])
    ensures Matches(path, NewFileLine(path, s.current.value, StripEol(body[n][1..]), IsAdded(body[n]), s.hunk), body, n)
  {
    StripEolShows(body[n]);
    hide StripEol, Shows, IsAdded, IsNewSide, HunkStart;
    var h :| Within(body, h, n);
    assert Describes(path, NewFileLine(path, s.current.value, StripEol(body[n][1..]), IsAdded(body[n]), s.hunk), body, h, n);
  }

  lemma RecordsNext(path: string, lines: seq<NewFileLine>, body: seq<string>, at: seq<nat>, n: nat)
    requires RecordsOf(path, lines, body, at, n) && n < |body|
    ensures !IsRecorded(body, n) ==> RecordsOf(path, lines, body, at, n + 1)
    ensures forall e :: IsRecorded(body, n) && Matches(path, e, body, n) ==> RecordsOf(path, lines + [e], body, at + [n], n + 1)
  {
    hide IsRecorded, Matches;
    forall e | IsRecorded(body, n) && Matches(path, e, body, n)
      ensures RecordsOf(path, lines + [e], body, at + [n], n + 1)
    {
      assert forall m :: 0 <= m < |at| ==> at[m] in at;
    }
  }

  lemma {:induction false} ScanByPosition(path: string, body: seq<string>, n: nat) returns (at: seq<nat>)
    requires n <= |body| && path != DEV_NULL
    ensures var s := ScanLines(path, START, body[..n]);
            Counts(s, body, n) && RecordsOf(path, s.lines, body, at, n)
  {
    hide ScanLine, ScanLines, IsRecorded, Matches, RecordsOf, Counts, StripEol, HunkStart, IsNewSide, IsAdded, IsNote, IsDeleted;
    if n == 0 {
      at := [];
      NothingYet(path, body);
    } else {
      var before := ScanByPosition(path, body, n - 1);
      var s := ScanLines(path, START, body[..n - 1]);
      ScanSnoc(path, START, body, n - 1);
      CountsNext(path, s, body, n - 1);
      at := OneMoreLine(path, s, body, before, n - 1);
    }
  }

  lemma NothingYet(path: string, body: seq<string>)
    ensures var s := ScanLines(path, START, body[..0]); Counts(s, body, 0) && RecordsOf(path, s.lines, body, [], 0)
  {
    hide HunkStart;
    assert body[..0] == [];
  }

  lemma OneMoreLine(path: string, s: Scan, body: seq<string>, before: seq<nat>, n: nat) returns (at: seq<nat>)
    requires n < |body| && path != DEV_NULL && Counts(s, body, n) && RecordsOf(path, s.lines, body, before, n)
    ensures RecordsOf(path, ScanLine(path, s, body[n]).lines, body, at, n + 1)
  {
    LineEffect(path, s, body[n]);
    RecordsNext(path, s.lines, body, before, n);
    if IsHeader(body[n]) {
      HeaderAlone(body[n]);
    }
    if IsNewSide(body[n]) && s.current.Some? {
      RecordedNow(path, s, body, n);
      at := before + [n];
    } else {
      at := before;
    }
    hide ScanLine, StripEol, RecordsOf, Matches, InSomeHunk, HunkStart;
  }

  // ---- The path ----------------------------------------------------------------------------

  ghost predicate FirstPlus(section: seq<string>, h: int) {
    0 <= h < |section| && "+++ " <= section[h] && forall i :: 0 <= i < h ==> !("+++ " <= section[i])
  }

  ghost predicate PathCut(section: seq<string>, path: string, h: int, c: Cut) {
    FirstPlus(section, h) && IsCut(section[h][4..], c) && path == Named(c.name)
  }

  /** The path that the first "+++ " line of the section names. */
  ghost predicate PathOfSection(section: seq<string>, path: string) {
    exists h, c :: PathCut(section, path, h, c)
  }

  lemma PathOfParsed(section: seq<string>)
    requires ParseSection(section).Ok?
    ensures PathOfSection(section, ParseSection(section).value.0.path)
  {
    var h := FirstWithPrefix("+++ ", section).value;
    var c := CutHeader(section[h][4..]);
    CleanPathIs(section[h][4..], c);
    hide CleanPath, Named, ScanLines, Flatten, IsCut;
    assert PathCut(section, ParseSection(section).value.0.path, h, c);
  }

  // ---- Accepted diffs ----------------------------------------------------------------------

  /** On every accepted diff, in every file that is not deleted, the recorded lines are exactly, in order,
      the added ("+", not "+++") and context (" ") lines that stand between a hunk header and the
      first line after it of no known kind or the next header. Each bears the header's number plus
      the new-side lines before it in the hunk, the number of headers before its own, its text
      without mark and line ends, and whether it is added. From a line of no known kind to the next
      header nothing is recorded. The path is the one named by the first "+++ " line. */
  lemma RecordedLines(diff: string, k: nat) returns (at: seq<nat>)
    requires Parse(diff).Ok? && k < |Parse(diff).value| && Parse(diff).value[k].path != DEV_NULL
    ensures k < |SectionsOf(diff)|
    ensures var file, body := Parse(diff).value[k], BodyOf(SectionsOf(diff)[k]);
            RecordsOf(file.path, file.lines, body, at, |body|)
    ensures PathOfSection(SectionsOf(diff)[k], Parse(diff).value[k].path)
  {
    ParsedAt(diff, k);
    PathOfParsed(SectionsOf(diff)[k]);
    var body := BodyOf(SectionsOf(diff)[k]);
    assert body[..|body|] == body;
    hide Parse, SectionsOf, ScanLines, HunkStart, RecordsOf, Counts, PathOfSection;
    at := ScanByPosition(Parse(diff).value[k].path, body, |body|);
  }

  // ---- What is accepted --------------------------------------------------------------------

  predicate GitLine(line: string) {
    "diff --git " <= line
  }

  ghost predicate AnyGitLine(lines: seq<string>) {
    exists n :: 0 <= n < |lines| && GitLine(lines[n])
  }

  lemma StartsIff(git: bool, lines: seq<string>, i: nat)
    requires i < |lines|
    ensures i in StartsFrom(git, lines, 0) <==> IsStart(git, lines, i)
  {
    if IsStart(git, lines, i) { StartsComplete(git, lines, 0, i); }
    hide IsStart;
  }

  lemma GitStartsIff(lines: seq<string>)
    ensures StartsFrom(true, lines, 0) != [] <==> AnyGitLine(lines)
  {
    var starts := StartsFrom(true, lines, 0);
    if starts != [] {
      assert GitLine(lines[starts[0]]);
    }
    if n :| 0 <= n < |lines| && GitLine(lines[n]) {
      StartsComplete(true, lines, 0, n);
    }
    hide StartsFrom;
  }

  /** Where the sections of a diff start: at its "diff --git " lines if it has any, else wherever a "--- "
      line stands right before a "+++ " line. */
  lemma SectionsStartAt(lines: seq<string>, i: nat)
    requires i < |lines|
    ensures i in SectionStarts(lines) <==>
            if AnyGitLine(lines) then GitLine(lines[i])
            else i + 1 < |lines| && "--- " <= lines[i] && "+++ " <= lines[i + 1]
  {
    hide StartsFrom, AnyGitLine;
    GitStartsIff(lines);
    StartsIff(true, lines, i);
    StartsIff(false, lines, i);
  }

  ghost predicate HasBothHeaders(section: seq<string>) {
    (exists i :: 0 <= i < |section| && "--- " <= section[i]) && exists h :: FirstPlus(section, h)
  }

  /** The section has both header lines, and its first "+++ " line names a path. */
  ghost predicate NamesFile(section: seq<string>) {
    HasBothHeaders(section) && exists h :: FirstPlus(section, h) && CleanPath(section[h][4..]) != ""
  }

  ghost predicate AnyHeader(lines: seq<string>) {
    exists i :: 0 <= i < |lines| && IsHeader(lines[i])
  }

  /** A hunk header stands after the first "+++ " line. */
  ghost predicate HasHunk(section: seq<string>) {
    exists h :: FirstPlus(section, h) && AnyHeader(section[h + 1..])
  }

  lemma SectionAccepted(section: seq<string>)
    ensures ParseSection(section).Ok? <==> NamesFile(section)
    ensures ParseSection(section).Ok? ==> (ParseSection(section).value.1 <==> HasHunk(section))
    ensures ParseSection(section).Err? ==>
              ParseSection(section).error == if HasBothHeaders(section) then EmptyPath else MissingHeaders
  {
    hide FirstWithPrefix, CleanPath, ScanLines, Flatten, HunkStart, AnyHeader;
    var header := FirstWithPrefix("+++ ", section);
    if header.Some? {
      var h := header.value;
      assert FirstPlus(section, h) && forall n :: FirstPlus(section, n) ==> n == h;
      SawHeader(CleanPath(section[h][4..]), section[h + 1..]);
    }
  }

  lemma {:induction false} SawHeader(path: string, body: seq<string>)
    ensures ScanLines(path, START, body).saw <==> AnyHeader(body)
  {
    hide ScanLines, ScanLine, IsHeader, AnyHeader;
    if body == [] {
      NoneSeen(path);
    } else {
      var n := |body| - 1;
      SawHeader(path, body[..n]);
      ScanSnoc(path, START, body, n);
      assert body[..n + 1] == body;
      SawMore(path, ScanLines(path, START, body[..n]), body[n]);
      AnyHeaderSnoc(body);
    }
  }

  lemma NoneSeen(path: string)
    ensures !ScanLines(path, START, []).saw && !AnyHeader([])
  {
  }

  lemma AnyHeaderSnoc(body: seq<string>)
    requires body != []
    ensures var n := |body| - 1; AnyHeader(body) <==> AnyHeader(body[..n]) || IsHeader(body[n])
  {
    hide IsHeader;
    var n := |body| - 1;
    assert forall i :: 0 <= i < n ==> body[..n][i] == body[i];
  }

  lemma SawMore(path: string, s: Scan, line: string)
    ensures ScanLine(path, s, line).saw <==> s.saw || IsHeader(line)
  {
    hide HunkStart, StripEol;
  }

  ghost predicate AllOk(results: seq<Result<(FileDiff, bool), ParseError>>) {
    forall k :: 0 <= k < |results| ==> results[k].Ok?
  }

  ghost predicate SomeSaw(results: seq<Result<(FileDiff, bool), ParseError>>) {
    exists k :: 0 <= k < |results| && results[k].Ok? && results[k].value.1
  }

  lemma {:induction false} CollectedIff(results: seq<Result<(FileDiff, bool), ParseError>>)
    ensures Collect(results).Ok? <==> AllOk(results)
    ensures Collect(results).Ok? ==> (Collect(results).value.1 <==> SomeSaw(results))
  {
    if results != [] {
      var n := |results| - 1;
      CollectedIff(results[..n]);
      assert forall k :: 0 <= k < n ==> results[..n][k] == results[k];
    }
  }

  /** Every section of the diff has both header lines and a path. */
  ghost predicate AllNamed(sections: seq<seq<string>>) {
    forall k :: 0 <= k < |sections| ==> NamesFile(sections[k])
  }

  /** Some section of the diff has a hunk. */
  ghost predicate AnyHunk(sections: seq<seq<string>>) {
    exists k :: 0 <= k < |sections| && HasHunk(sections[k])
  }

  lemma EachAccepted(sections: seq<seq<string>>)
    ensures AllOk(ParseEach(sections)) <==> AllNamed(sections)
    ensures AllNamed(sections) ==> (SomeSaw(ParseEach(sections)) <==> AnyHunk(sections))
  {
    hide ParseSection, NamesFile, HasHunk;
    forall k | 0 <= k < |sections|
      ensures ParseEach(sections)[k].Ok? <==> NamesFile(sections[k])
      ensures NamesFile(sections[k]) ==> (ParseEach(sections)[k].value.1 <==> HasHunk(sections[k]))
    {
      SectionAccepted(sections[k]);
    }
  }

  ghost predicate HasText(s: string) {
    exists i :: 0 <= i < |s| && !IsSpace(s[i])
  }

  lemma TextIff(s: string)
    ensures s != "" && Strip(s) != "" <==> HasText(s)
  {
    BlankIff(s);
    hide Strip, IsSpace;
  }

  /** Every section before `k` is in order, section `k` is not. */
  ghost predicate FirstBad(sections: seq<seq<string>>, k: nat) {
    k < |sections| && !NamesFile(sections[k]) && AllNamed(sections[..k])
  }

  lemma FirstBadFails(sections: seq<seq<string>>, k: nat)
    requires FirstBad(sections, k)
    ensures Collect(ParseEach(sections)) == Err(if HasBothHeaders(sections[k]) then EmptyPath else MissingHeaders)
  {
    hide ParseSection, NamesFile, HasHunk, HasBothHeaders;
    var results := ParseEach(sections);
    SectionAccepted(sections[k]);
    EachAccepted(sections[..k]);
    assert ParseEach(sections[..k]) == results[..k];
    CollectedIff(results[..k]);
    assert results[..k + 1][..k] == results[..k];
    CollectFails(results, k + 1);
  }

  lemma {:induction false} SomeFirstBad(sections: seq<seq<string>>) returns (k: nat)
    requires !AllNamed(sections)
    ensures FirstBad(sections, k)
  {
    hide NamesFile;
    var n := |sections| - 1;
    if AllNamed(sections[..n]) {
      k := n;
      assert forall i :: 0 <= i < n ==> sections[..n][i] == sections[i];
    } else {
      k := SomeFirstBad(sections[..n]);
      assert sections[..n][..k] == sections[..k];
    }
  }

  lemma ParseOutcome(diff: string)
    ensures diff == "" || Strip(diff) == "" ==> Parse(diff) == Err(EmptyDiff)
    ensures diff != "" && Strip(diff) != "" && SectionsOf(diff) == [] ==> Parse(diff) == Err(NoFileHeader)
    ensures diff != "" && Strip(diff) != "" && SectionsOf(diff) != [] ==>
              var parsed := Collect(ParseEach(SectionsOf(diff)));
              && (parsed.Err? ==> Parse(diff) == Err(parsed.error))
              && (parsed.Ok? ==> Parse(diff) == if parsed.value.1 then Ok(parsed.value.0) else Err(NoHunks))
  {
    hide Strip, SplitLines, SectionStarts, Collect, ParseEach;
  }

  /** Exactly what is accepted, of all texts, and what each other text is refused as. A text is accepted
      if it is not blank, has a section, has in every section both header lines and a path, and in
      some section a hunk header. Otherwise the first of these it lacks is the error, and of the
      sections the first that is not in order decides. */
  lemma AcceptedIff(diff: string)
    ensures Parse(diff).Ok? <==>
            && HasText(diff) && SectionsOf(diff) != [] && AllNamed(SectionsOf(diff)) && AnyHunk(SectionsOf(diff))
    ensures !HasText(diff) ==> Parse(diff) == Err(EmptyDiff)
    ensures HasText(diff) && SectionsOf(diff) == [] ==> Parse(diff) == Err(NoFileHeader)
    ensures forall k :: 0 <= k < |SectionsOf(diff)| && HasText(diff) && FirstBad(SectionsOf(diff), k) ==>
              Parse(diff) == Err(if HasBothHeaders(SectionsOf(diff)[k]) then EmptyPath else MissingHeaders)
    ensures HasText(diff) && SectionsOf(diff) != [] && AllNamed(SectionsOf(diff)) && !AnyHunk(SectionsOf(diff)) ==>
              Parse(diff) == Err(NoHunks)
  {
    hide *;
    var sections := SectionsOf(diff);
    TextIff(diff);
    ParseOutcome(diff);
    CollectedIff(ParseEach(sections));
    EachAccepted(sections);
    forall k | 0 <= k < |sections| && HasText(diff) && FirstBad(sections, k)
      ensures Parse(diff) == Err(if HasBothHeaders(sections[k]) then EmptyPath else MissingHeaders)
    {
      FirstBadFails(sections, k);
    }
    if !AllNamed(sections) {
      var k := SomeFirstBad(sections);
    }
  }
}
