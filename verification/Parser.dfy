/** The unified-diff parser of app/diff/parser.py: a line state machine that gives new-file line
    numbers to the added and context lines of every hunk. */
module Parser {
  import opened Wrappers
  import opened Text

  datatype NewFileLine = NewFileLine(path: string, line: nat, content: string, added: bool, hunk: int)

  datatype FileDiff = FileDiff(path: string, raw: string, lines: seq<NewFileLine>) {
    function ByteSize(): nat {
      Utf8Length(raw)
    }
  }

  datatype ParseError = EmptyDiff | NoFileHeader | MissingHeaders | EmptyPath | NoHunks

  const DEV_NULL := "/dev/null"
  const NO_NEWLINE := "\\ No newline at end of file"

  // ---- The hunk header ---------------------------------------------------------------------

  /** `\d+(?:,\d+)?` at the head of `s`: the first number and what follows the range. */
  function ScanRange(s: string): Option<(string, string)> {
    var n := DigitRun(s);
    var rest := s[n..];
    if n == 0 then None
    else if rest != "" && rest[0] == ',' && DigitRun(rest[1..]) > 0 then
      Some((s[..n], rest[1..][DigitRun(rest[1..])..]))
    else Some((s[..n], rest))
  }

  /** `\s+` followed by `mark` at the head of `s`: what follows the mark. */
  function ScanSpaced(s: string, mark: string): Option<string> {
    if s == "" || !IsSpace(s[0]) then None
    else
      var rest := DropSpaces(s);
      if mark <= rest then Some(rest[|mark|..]) else None
  }

  /** `HUNK_RE.match(line)`, returning `int(match.group(1))`. */
  function HunkStart(line: string): Option<nat> {
    if !("@@" <= line) then None
    else
      var afterMinus :- ScanSpaced(line[2..], "-");
      var oldRange :- ScanRange(afterMinus);
      var afterPlus :- ScanSpaced(oldRange.1, "+");
      var newRange :- ScanRange(afterPlus);
      var tail :- ScanSpaced(newRange.1, "@@");
      DigitsOfRange(afterPlus);
      Some(Value(newRange.0))
  }

  lemma DigitsOfRange(s: string)
    ensures ScanRange(s).Some? ==> forall i :: 0 <= i < |ScanRange(s).value.0| ==> IsDigit(ScanRange(s).value.0[i])
  {
  }

  // ---- File headers and sections -----------------------------------------------------------

  function BeforeTab(s: string): string {
    if s == "" || s[0] == '\t' then "" else [s[0]] + BeforeTab(s[1..])
  }

  function Unquote(value: string): string {
    if value != "" && value[0] == '"' && value[|value| - 1] == '"' then
      (if |value| == 1 then "" else value[1..|value| - 1])
    else value
  }

  function CleanPath(header: string): string {
    var value := Unquote(Strip(BeforeTab(StripEol(header))));
    if "a/" <= value || "b/" <= value then value[2..] else value
  }

  /** Line `i` starts a file section: a "diff --git" line, or, in a diff that has none, a "---"
      line followed by a "+++" line. */
  predicate IsStart(git: bool, lines: seq<string>, i: nat)
    requires i < |lines|
  {
    if git then "diff --git " <= lines[i]
    else i + 1 < |lines| && "--- " <= lines[i] && "+++ " <= lines[i + 1]
  }

  function StartsFrom(git: bool, lines: seq<string>, i: nat): (starts: seq<nat>)
    requires i <= |lines|
    ensures forall k :: 0 <= k < |starts| ==> i <= starts[k] < |lines| && IsStart(git, lines, starts[k])
    ensures forall k, m :: 0 <= k < m < |starts| ==> starts[k] < starts[m]
    decreases |lines| - i
  {
    if i == |lines| then []
    else (if IsStart(git, lines, i) then [i] else []) + StartsFrom(git, lines, i + 1)
  }

  function SectionStarts(lines: seq<string>): seq<nat> {
    var gitStarts := StartsFrom(true, lines, 0);
    if gitStarts != [] then gitStarts else StartsFrom(false, lines, 0)
  }

  ghost predicate Increasing(starts: seq<nat>, bound: nat) {
    && (forall k :: 0 <= k < |starts| ==> starts[k] <= bound)
    && (forall k, m :: 0 <= k < m < |starts| ==> starts[k] < starts[m])
  }

  function Sections(lines: seq<string>, starts: seq<nat>): (sections: seq<seq<string>>)
    requires Increasing(starts, |lines|)
    ensures |sections| == |starts|
  {
    if starts == [] then []
    else
      var end := if |starts| > 1 then starts[1] else |lines|;
      [lines[starts[0]..end]] + Sections(lines, starts[1..])
  }

  function FirstWithPrefix(prefix: string, lines: seq<string>): (r: Option<nat>)
    ensures r.Some? ==> r.value < |lines| && prefix <= lines[r.value]
    ensures r.Some? ==> forall i :: 0 <= i < r.value ==> !(prefix <= lines[i])
    ensures r.None? ==> forall i :: 0 <= i < |lines| ==> !(prefix <= lines[i])
  {
    if lines == [] then None
    else if prefix <= lines[0] then Some(0)
    else match FirstWithPrefix(prefix, lines[1..]) case Some(i) => Some(i + 1) case None => None
  }

  // ---- The line state machine --------------------------------------------------------------

  /** `current_new_line`, `hunk_number`, `file_diff.lines`, and whether a hunk was seen. */
  datatype Scan = Scan(current: Option<nat>, hunk: int, lines: seq<NewFileLine>, saw: bool)

  const START := Scan(None, -1, [], false)

  function Record(path: string, s: Scan, content: string, added: bool): Scan
    requires s.current.Some?
  {
    Scan(Some(s.current.value + 1), s.hunk,
         if path != DEV_NULL then s.lines + [NewFileLine(path, s.current.value, content, added, s.hunk)] else s.lines,
         s.saw)
  }

  /** One iteration of the line loop, given what the hunk pattern says of the line. */
  function ScanLineAs(path: string, s: Scan, line: string, header: Option<nat>): Scan {
    if header.Some? then Scan(header, s.hunk + 1, s.lines, true)
    else if s.current.None? || NO_NEWLINE <= line then s
    else
      var content := if line != "" then StripEol(line[1..]) else "";
      if "+" <= line && !("+++" <= line) then Record(path, s, content, true)
      else if " " <= line then Record(path, s, content, false)
      else if "-" <= line && !("---" <= line) then s
      else s.(current := None)
  }

  function ScanLine(path: string, s: Scan, line: string): Scan {
    ScanLineAs(path, s, line, HunkStart(line))
  }

  function ScanLines(path: string, s: Scan, lines: seq<string>): Scan
    decreases |lines|
  {
    if lines == [] then s else ScanLines(path, ScanLine(path, s, lines[0]), lines[1..])
  }

  lemma {:induction false} ScanAppend(path: string, s: Scan, a: seq<string>, b: seq<string>)
    ensures ScanLines(path, s, a + b) == ScanLines(path, ScanLines(path, s, a), b)
    decreases |a|
  {
    if a == [] {
      assert a + b == b;
    } else {
      assert (a + b)[1..] == a[1..] + b;
      ScanAppend(path, ScanLine(path, s, a[0]), a[1..], b);
    }
  }

  lemma ScanSnoc(path: string, s: Scan, lines: seq<string>, k: nat)
    requires k < |lines|
    ensures ScanLines(path, s, lines[..k + 1]) == ScanLine(path, ScanLines(path, s, lines[..k]), lines[k])
  {
    assert lines[..k + 1] == lines[..k] + [lines[k]];
    ScanAppend(path, s, lines[..k], [lines[k]]);
    assert [lines[k]][1..] == [];
  }

  // ---- The parser --------------------------------------------------------------------------

  /** One file section: the file diff, and whether a hunk header was seen in it. */
  function ParseSection(section: seq<string>): Result<(FileDiff, bool), ParseError> {
    var newHeader := FirstWithPrefix("+++ ", section);
    if newHeader.None? || FirstWithPrefix("--- ", section).None? then Err(MissingHeaders)
    else
      var path := CleanPath(section[newHeader.value][4..]);
      if path == "" then Err(EmptyPath)
      else
        var s := ScanLines(path, START, section[newHeader.value + 1..]);
        Ok((FileDiff(path, Flatten(section), s.lines), s.saw))
  }

  function ParseEach(sections: seq<seq<string>>): (r: seq<Result<(FileDiff, bool), ParseError>>)
    ensures |r| == |sections|
  {
    seq(|sections|, i requires 0 <= i < |sections| => ParseSection(sections[i]))
  }

  /** Sections are parsed in order and the first error ends the parse; a hunk in any section counts. */
  function Collect(results: seq<Result<(FileDiff, bool), ParseError>>): (r: Result<(seq<FileDiff>, bool), ParseError>)
    ensures r.Ok? ==> |r.value.0| == |results|
  {
    if results == [] then Ok(([], false))
    else
      var before :- Collect(results[..|results| - 1]);
      var one :- results[|results| - 1];
      Ok((before.0 + [one.0], before.1 || one.1))
  }

  lemma {:induction false} CollectFails(results: seq<Result<(FileDiff, bool), ParseError>>, k: nat)
    requires k <= |results| && Collect(results[..k]).Err?
    ensures Collect(results) == Err(Collect(results[..k]).error)
    decreases |results| - k
  {
    if k < |results| {
      assert results[..k + 1][..k] == results[..k];
      CollectFails(results, k + 1);
    } else {
      assert results[..k] == results;
    }
  }

  function Parse(diff: string): Result<seq<FileDiff>, ParseError> {
    if diff == "" || Strip(diff) == "" then Err(EmptyDiff)
    else
      var lines := SplitLines(diff);
      var starts := SectionStarts(lines);
      if starts == [] then Err(NoFileHeader)
      else
        var parsed :- Collect(ParseEach(Sections(lines, starts)));
        if parsed.1 then Ok(parsed.0) else Err(NoHunks)
  }

  lemma {:induction false} SectionsAt(lines: seq<string>, starts: seq<nat>, k: nat)
    requires Increasing(starts, |lines|) && k < |starts|
    ensures Sections(lines, starts)[k] == lines[starts[k]..if k + 1 < |starts| then starts[k + 1] else |lines|]
  {
    if k > 0 {
      SectionsAt(lines, starts[1..], k - 1);
    }
  }

  /** `parse_unified_diff`, one method per loop. */
  method ParseUnifiedDiff(diff: string) returns (result: Result<seq<FileDiff>, ParseError>)
    ensures result == Parse(diff)
  {
    if diff == "" || Strip(diff) == "" {
      return Err(EmptyDiff);
    }
    var sourceLines := SplitLines(diff);
    var starts := SectionStarts(sourceLines);
    if starts == [] {
      return Err(NoFileHeader);
    }
    var sections := CutSections(sourceLines, starts);
    var parsed := ParseFiles(sections);
    if parsed.Err? {
      return Err(parsed.error);
    }
    if !parsed.value.1 {
      return Err(NoHunks);
    }
    return Ok(parsed.value.0);
  }

  method CutSections(lines: seq<string>, starts: seq<nat>) returns (sections: seq<seq<string>>)
    requires Increasing(starts, |lines|)
    ensures sections == Sections(lines, starts)
  {
    sections := [];
    for position := 0 to |starts|
      invariant sections == Sections(lines, starts)[..position]
    {
      var end := if position + 1 < |starts| then starts[position + 1] else |lines|;
      SectionsAt(lines, starts, position);
      sections := sections + [lines[starts[position]..end]];
    }
  }

  method ParseFiles(sections: seq<seq<string>>) returns (r: Result<(seq<FileDiff>, bool), ParseError>)
    ensures r == Collect(ParseEach(sections))
  {
    var parsed: seq<FileDiff> := [];
    var sawHunk := false;
    ghost var results := ParseEach(sections);
    hide ParseSection;
    for k := 0 to |sections|
      invariant Collect(results[..k]) == Ok((parsed, sawHunk))
    {
      var one := ParseFile(sections[k]);
      assert results[..k + 1][..k] == results[..k] && results[k] == one;
      if one.Err? {
        CollectFails(results, k + 1);
        return Err(one.error);
      }
      parsed := parsed + [one.value.0];
      sawHunk := sawHunk || one.value.1;
    }
    assert results[..|sections|] == results;
    return Ok((parsed, sawHunk));
  }

  /** The body of the section loop (app/diff/parser.py:73-117). */
  method ParseFile(section: seq<string>) returns (r: Result<(FileDiff, bool), ParseError>)
    ensures r == ParseSection(section)
  {
    hide CleanPath, ScanLines, Flatten;
    var newHeader := FirstWithPrefix("+++ ", section);
    if newHeader.None? || FirstWithPrefix("--- ", section).None? {
      return Err(MissingHeaders);
    }
    var path := CleanPath(section[newHeader.value][4..]);
    if path == "" {
      return Err(EmptyPath);
    }
    var lines, sawHunk := ScanBody(path, section[newHeader.value + 1..]);
    return Ok((FileDiff(path, Flatten(section), lines), sawHunk));
  }

  /** The inner loop of `parse_unified_diff` (app/diff/parser.py:86-115). */
  method ScanBody(path: string, body: seq<string>) returns (lines: seq<NewFileLine>, sawHunk: bool)
    ensures lines == ScanLines(path, START, body).lines && sawHunk == ScanLines(path, START, body).saw
  {
    var currentNewLine: Option<nat> := None;
    var hunkNumber := -1;
    lines, sawHunk := [], false;
    for k := 0 to |body|
      invariant Scan(currentNewLine, hunkNumber, lines, sawHunk) == ScanLines(path, START, body[..k])
    {
      var line := body[k];
      ScanSnoc(path, START, body, k);
      var hunkMatch := HunkStart(line);
      if hunkMatch.Some? {
        currentNewLine := hunkMatch;
        hunkNumber := hunkNumber + 1;
        sawHunk := true;
        continue;
      }
      if currentNewLine.None? {
        continue;
      }
      if NO_NEWLINE <= line {
        continue;
      }
      var content := if line != "" then StripEol(line[1..]) else "";
      if "+" <= line && !("+++" <= line) {
        if path != DEV_NULL {
          lines := lines + [NewFileLine(path, currentNewLine.value, content, true, hunkNumber)];
        }
        currentNewLine := Some(currentNewLine.value + 1);
      } else if " " <= line {
        if path != DEV_NULL {
          lines := lines + [NewFileLine(path, currentNewLine.value, content, false, hunkNumber)];
        }
        currentNewLine := Some(currentNewLine.value + 1);
      } else if "-" <= line && !("---" <= line) {
        continue;
      } else {
        currentNewLine := None;
      }
    }
    assert body[..|body|] == body;
  }
}
