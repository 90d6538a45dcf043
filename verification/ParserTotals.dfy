/** What holds of the parser on every input it accepts (app/diff/parser.py:45-121). */
module ParserTotals {
  import opened Wrappers
  import opened Text
  import opened Parser

  function Raws(files: seq<FileDiff>): seq<string> {
    seq(|files|, i requires 0 <= i < |files| => files[i].raw)
  }

  function TotalBytes(files: seq<FileDiff>): nat {
    if files == [] then 0 else files[0].ByteSize() + TotalBytes(files[1..])
  }

  lemma {:induction false} BytesOfRaws(files: seq<FileDiff>)
    ensures TotalBytes(files) == Utf8Length(Flatten(Raws(files)))
  {
    if files != [] {
      BytesOfRaws(files[1..]);
      assert Raws(files)[1..] == Raws(files[1..]);
      Utf8LengthAppend(files[0].raw, Flatten(Raws(files[1..])));
    }
  }

  lemma {:induction false} SectionsCover(lines: seq<string>, starts: seq<nat>)
    requires Increasing(starts, |lines|) && starts != []
    ensures Flatten(Sections(lines, starts)) == lines[starts[0]..]
  {
    var end := if |starts| > 1 then starts[1] else |lines|;
    var rest := Sections(lines, starts[1..]);
    assert Sections(lines, starts) == [lines[starts[0]..end]] + rest;
    assert (Sections(lines, starts))[1..] == rest;
    if |starts| > 1 {
      SectionsCover(lines, starts[1..]);
      assert lines[starts[0]..end] + lines[end..] == lines[starts[0]..];
    }
  }

  lemma FlattenSnoc<T>(parts: seq<seq<T>>, last: seq<T>)
    ensures Flatten(parts + [last]) == Flatten(parts) + last
  {
    FlattenAppend(parts, [last]);
    assert Flatten([last]) == last;
  }

  lemma {:induction false} CollectedAt(results: seq<Result<(FileDiff, bool), ParseError>>, k: nat)
    requires Collect(results).Ok? && k < |results|
    ensures results[k].Ok? && Collect(results).value.0[k] == results[k].value.0
  {
    var n := |results| - 1;
    if k < n {
      CollectedAt(results[..n], k);
    }
  }

  lemma ParsedAt(diff: string, k: nat)
    requires Parse(diff).Ok? && k < |Parse(diff).value|
    ensures |Parse(diff).value| == |SectionsOf(diff)|
    ensures ParseSection(SectionsOf(diff)[k]).Ok? && Parse(diff).value[k] == ParseSection(SectionsOf(diff)[k]).value.0
  {
    AcceptedSections(diff);
    CollectedAt(ParseEach(SectionsOf(diff)), k);
  }

  lemma {:induction false} ParsedRaws(sections: seq<seq<string>>, files: seq<FileDiff>)
    requires |files| == |sections|
    requires forall k :: 0 <= k < |files| ==> files[k].raw == Flatten(sections[k])
    ensures Flatten(Raws(files)) == Flatten(Flatten(sections))
  {
    if sections != [] {
      var n := |sections| - 1;
      ParsedRaws(sections[..n], files[..n]);
      assert Raws(files) == Raws(files[..n]) + [files[n].raw];
      FlattenSnoc(Raws(files[..n]), files[n].raw);
      assert sections == sections[..n] + [sections[n]];
      FlattenSnoc(sections[..n], sections[n]);
      FlattenAppend(Flatten(sections[..n]), sections[n]);
    }
  }

  /** The sections the parser cuts `diff` into. */
  function SectionsOf(diff: string): seq<seq<string>> {
    Sections(SplitLines(diff), SectionStarts(SplitLines(diff)))
  }

  lemma AcceptedSections(diff: string)
    requires Parse(diff).Ok?
    ensures SectionStarts(SplitLines(diff)) != []
    ensures Collect(ParseEach(SectionsOf(diff))).Ok?
    ensures Parse(diff).value == Collect(ParseEach(SectionsOf(diff))).value.0
  {
  }

  lemma FlattenSplit<T>(parts: seq<seq<T>>, k: nat)
    requires k <= |parts|
    ensures Flatten(parts) == Flatten(parts[..k]) + Flatten(parts[k..])
  {
    FlattenAppend(parts[..k], parts[k..]);
    assert parts[..k] + parts[k..] == parts;
  }

  /** Accepted input is non-empty, starts with whatever precedes the first file header, and after
      that is cut into the raw texts of at least one file, with nothing lost, added or reordered;
      so the byte sizes add up. */
  lemma RawsCoverDiff(diff: string)
    requires Parse(diff).Ok?
    ensures var files := Parse(diff).value; var starts := SectionStarts(SplitLines(diff));
            && starts != [] && |files| == |starts|
            && diff == Flatten(SplitLines(diff)[..starts[0]]) + Flatten(Raws(files))
            && Utf8Length(diff) == Utf8Length(Flatten(SplitLines(diff)[..starts[0]])) + TotalBytes(files)
  {
    var lines, starts, files := SplitLines(diff), SectionStarts(SplitLines(diff)), Parse(diff).value;
    AcceptedSections(diff);
    forall k | 0 <= k < |files| ensures files[k].raw == Flatten(SectionsOf(diff)[k]) {
      ParsedAt(diff, k);
    }
    ParsedRaws(SectionsOf(diff), files);
    SectionsCover(lines, starts);
    FlattenSplit(lines, starts[0]);
    BytesOfRaws(files);
    Utf8LengthAppend(Flatten(lines[..starts[0]]), Flatten(Raws(files)));
  }

  // ---- Line numbers ------------------------------------------------------------------------

  /** `starts`, and the number of one more line if it is a hunk header. */
  function AddStart(starts: seq<nat>, header: Option<nat>): seq<nat> {
    if header.Some? then starts + [header.value] else starts
  }

  /** The start numbers of the hunk headers among `lines`. */
  function HeaderStarts(lines: seq<string>): seq<nat> {
    if lines == [] then []
    else AddStart(HeaderStarts(lines[..|lines| - 1]), HunkStart(lines[|lines| - 1]))
  }

  /** The recorded lines belong to the hunks in order; the first line of a hunk bears the start
      number of that hunk's header, and each further line the next number. */
  ghost predicate Numbered(path: string, lines: seq<NewFileLine>, starts: seq<nat>) {
    forall i :: 0 <= i < |lines| ==> NumberedAt(path, lines, starts, i)
  }

  ghost predicate NumberedAt(path: string, lines: seq<NewFileLine>, starts: seq<nat>, i: int)
    requires 0 <= i < |lines|
  {
    && lines[i].path == path
    && 0 <= lines[i].hunk < |starts|
    && starts[lines[i].hunk] <= lines[i].line
    && (if i > 0 && lines[i - 1].hunk == lines[i].hunk then lines[i].line == lines[i - 1].line + 1
        else lines[i].line == starts[lines[i].hunk] && (i > 0 ==> lines[i - 1].hunk < lines[i].hunk))
  }

  ghost predicate ScanInvariant(path: string, s: Scan, starts: seq<nat>) {
    && s.hunk == |starts| - 1
    && (s.saw <==> starts != [])
    && Numbered(path, s.lines, starts)
    && (path == DEV_NULL ==> s.lines == [])
    && (s.current.Some? ==> starts != [])
    && (s.current.Some? && path != DEV_NULL ==>
        s.current.value == if s.lines != [] && s.lines[|s.lines| - 1].hunk == s.hunk
                           then s.lines[|s.lines| - 1].line + 1 else starts[s.hunk])
  }

  lemma NumberedUnderMore(path: string, lines: seq<NewFileLine>, starts: seq<nat>, n: nat)
    requires Numbered(path, lines, starts)
    ensures Numbered(path, lines, starts + [n])
  {
    forall i | 0 <= i < |lines| ensures NumberedAt(path, lines, starts + [n], i) {
      assert NumberedAt(path, lines, starts, i);
      assert (starts + [n])[lines[i].hunk] == starts[lines[i].hunk];
    }
  }

  lemma HeaderKeeps(path: string, s: Scan, starts: seq<nat>, n: nat)
    requires ScanInvariant(path, s, starts)
    ensures ScanInvariant(path, Scan(Some(n), s.hunk + 1, s.lines, true), starts + [n])
  {
    assert s.lines != [] ==> NumberedAt(path, s.lines, starts, |s.lines| - 1);
    NumberedUnderMore(path, s.lines, starts, n);
  }

  lemma NumberedSnoc(path: string, lines: seq<NewFileLine>, starts: seq<nat>, last: NewFileLine)
    requires Numbered(path, lines, starts)
    requires last.path == path && 0 <= last.hunk < |starts| && starts[last.hunk] <= last.line
    requires lines != [] ==> lines[|lines| - 1].hunk <= last.hunk
    requires last.line == if lines != [] && lines[|lines| - 1].hunk == last.hunk
                          then lines[|lines| - 1].line + 1 else starts[last.hunk]
    ensures Numbered(path, lines + [last], starts)
  {
    var more := lines + [last];
    forall i | 0 <= i < |more| ensures NumberedAt(path, more, starts, i) {
      if i < |lines| {
        assert NumberedAt(path, lines, starts, i);
      }
    }
  }

  lemma RecordKeeps(path: string, s: Scan, starts: seq<nat>, content: string, added: bool)
    requires ScanInvariant(path, s, starts) && s.current.Some?
    ensures ScanInvariant(path, Record(path, s, content, added), starts)
  {
    if path != DEV_NULL {
      assert s.lines != [] ==> NumberedAt(path, s.lines, starts, |s.lines| - 1);
      NumberedSnoc(path, s.lines, starts, NewFileLine(path, s.current.value, content, added, s.hunk));
    }
  }

  lemma ScanLineKeeps(path: string, s: Scan, starts: seq<nat>, line: string, header: Option<nat>)
    requires ScanInvariant(path, s, starts)
    ensures ScanInvariant(path, ScanLineAs(path, s, line, header), AddStart(starts, header))
  {
    if header.Some? {
      HeaderKeeps(path, s, starts, header.value);
    } else if s.current.Some? {
      var content := if line != "" then StripEol(line[1..]) else "";
      RecordKeeps(path, s, starts, content, true);
      RecordKeeps(path, s, starts, content, false);
    }
  }

  lemma {:induction false} ScanKeeps(path: string, lines: seq<string>)
    ensures ScanInvariant(path, ScanLines(path, START, lines), HeaderStarts(lines))
  {
    if lines != [] {
      var k := |lines| - 1;
      ScanKeeps(path, lines[..k]);
      ScanSnoc(path, START, lines, k);
      assert lines[..k + 1] == lines;
      ScanLineKeeps(path, ScanLines(path, START, lines[..k]), HeaderStarts(lines[..k]), lines[k], HunkStart(lines[k]));
    }
  }

  /** The lines of a section after its "+++" line. */
  function BodyOf(section: seq<string>): seq<string> {
    match FirstWithPrefix("+++ ", section) case Some(h) => section[h + 1..] case None => []
  }

  /** On every accepted diff, in every file: line numbers within a hunk are consecutive from the
      number its header gives, and a deleted file records nothing. */
  lemma LinesAreNumbered(diff: string, k: nat)
    requires Parse(diff).Ok? && k < |Parse(diff).value|
    ensures k < |SectionsOf(diff)|
    ensures var file := Parse(diff).value[k];
            && file.path != ""
            && Numbered(file.path, file.lines, HeaderStarts(BodyOf(SectionsOf(diff)[k])))
            && (file.path == DEV_NULL ==> file.lines == [])
  {
    ParsedAt(diff, k);
    ScanKeeps(Parse(diff).value[k].path, BodyOf(SectionsOf(diff)[k]));
  }
}
