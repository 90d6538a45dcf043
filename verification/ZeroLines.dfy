/** Findings need a line number of at least one (app/schemas.py:39), but a hunk header may start at
    zero: exactly which accepted diffs the mock provider fails on. */
module ZeroLines {
  import opened Wrappers
  import opened Text
  import opened Parser
  import opened ParserTotals
  import opened HunkHeader
  import opened ParserSoundness
  import opened ParserRoundTrip
  import opened MockProvider
  import opened ProviderIndependence
  import FailingDiffs
  import UnifiedDiff

  /** The start numbers of the hunk headers of file `k`. */
  function Starts(diff: string, k: nat): seq<nat>
    requires k < |SectionsOf(diff)|
  {
    HeaderStarts(BodyOf(SectionsOf(diff)[k]))
  }

  ghost predicate HasHit(p: Patterns, file: FileDiff, line: NewFileLine) {
    exists rule :: (rule, line) in FileHits(p, file)
  }

  /** Line `i` of file `k` is the first recorded line of a hunk whose header starts at zero, and the
      provider reports it. */
  ghost predicate ZeroHit(p: Patterns, diff: string, k: int, i: int)
    requires Parse(diff).Ok?
  {
    && 0 <= k < |Parse(diff).value| && k < |SectionsOf(diff)|
    && var lines := Parse(diff).value[k].lines;
    && 0 <= i < |lines| && (i > 0 ==> lines[i - 1].hunk != lines[i].hunk)
    && 0 <= lines[i].hunk < |Starts(diff, k)| && Starts(diff, k)[lines[i].hunk] == 0
    && HasHit(p, Parse(diff).value[k], lines[i])
  }

  lemma NumberedZero(path: string, lines: seq<NewFileLine>, starts: seq<nat>, i: nat)
    requires Numbered(path, lines, starts) && i < |lines|
    ensures 0 <= lines[i].hunk < |starts|
    ensures lines[i].line == 0 <==> (starts[lines[i].hunk] == 0 && (i > 0 ==> lines[i - 1].hunk != lines[i].hunk))
  {
    assert NumberedAt(path, lines, starts, i);
  }

  lemma HitAt(p: Patterns, files: seq<FileDiff>, h: Hit) returns (k: nat, i: nat)
    requires h in Hits(p, files)
    ensures k < |files| && i < |files[k].lines| && files[k].lines[i] == h.1 && h in FileHits(p, files[k])
  {
    hide FileHits, Hits;
    HitsForm(p, files);
    var file :| file in files && h in FileHits(p, file);
    k :| k < |files| && files[k] == file;
    FileHitsForm(p, file);
    i :| i < |file.lines| && file.lines[i] == h.1;
  }

  lemma FailureIsZeroHit(p: Patterns, diff: string) returns (k: nat, i: nat)
    requires Parse(diff).Ok? && ReviewOf(p, Parse(diff).value).None?
    ensures ZeroHit(p, diff, k, i)
  {
    var files := Parse(diff).value;
    var hits := Hits(p, files);
    BuildsIff(hits);
    var n :| 0 <= n < |hits| && hits[n].1.line < 1;
    hide *;
    k, i := HitAt(p, files, hits[n]);
    FileNumbered(diff, k, i);
    IsZeroHit(p, diff, k, i, hits[n].0);
  }

  lemma IsZeroHit(p: Patterns, diff: string, k: nat, i: nat, rule: Rule)
    requires Parse(diff).Ok? && k < |Parse(diff).value| && k < |SectionsOf(diff)| && i < |Parse(diff).value[k].lines|
    requires var lines := Parse(diff).value[k].lines;
             && (rule, lines[i]) in FileHits(p, Parse(diff).value[k])
             && 0 <= lines[i].hunk < |Starts(diff, k)| && Starts(diff, k)[lines[i].hunk] == 0
             && (i > 0 ==> lines[i - 1].hunk != lines[i].hunk)
    ensures ZeroHit(p, diff, k, i)
  {
    hide Parse, SectionsOf, Starts, FileHits;
  }

  /** On every accepted diff: the mock provider fails if and only if it reports the first recorded line
      of a hunk whose header starts at zero. */
  lemma ReviewFailsIff(p: Patterns, diff: string)
    requires Parse(diff).Ok?
    ensures ReviewOf(p, Parse(diff).value).None? <==> exists k, i :: ZeroHit(p, diff, k, i)
  {
    hide *;
    if ReviewOf(p, Parse(diff).value).None? {
      var k, i := FailureIsZeroHit(p, diff);
    }
    if k, i :| ZeroHit(p, diff, k, i) {
      ZeroHitFails(p, diff, k, i);
    }
  }

  lemma ZeroHitFails(p: Patterns, diff: string, k: int, i: int)
    requires Parse(diff).Ok? && ZeroHit(p, diff, k, i)
    ensures ReviewOf(p, Parse(diff).value).None?
  {
    ZeroHitIsHit(p, diff, k, i);
    hide Parse, Hits, Build, ZeroHit;
    BuildsIff(Hits(p, Parse(diff).value));
  }

  lemma FileNumbered(diff: string, k: nat, i: nat)
    requires Parse(diff).Ok? && k < |Parse(diff).value| && i < |Parse(diff).value[k].lines|
    ensures k < |SectionsOf(diff)|
    ensures var lines := Parse(diff).value[k].lines;
            && 0 <= lines[i].hunk < |Starts(diff, k)|
            && (lines[i].line == 0 <==> (Starts(diff, k)[lines[i].hunk] == 0 && (i > 0 ==> lines[i - 1].hunk != lines[i].hunk)))
  {
    hide Parse, SectionsOf, HeaderStarts;
    LinesAreNumbered(diff, k);
    NumberedZero(Parse(diff).value[k].path, Parse(diff).value[k].lines, Starts(diff, k), i);
  }

  lemma ZeroHitIsHit(p: Patterns, diff: string, k: int, i: int)
    requires Parse(diff).Ok? && ZeroHit(p, diff, k, i)
    ensures exists n :: 0 <= n < |Hits(p, Parse(diff).value)| && Hits(p, Parse(diff).value)[n].1.line < 1
  {
    hide Parse, Hits, FileHits, SectionsOf, Starts;
    var files := Parse(diff).value;
    FileNumbered(diff, k, i);
    var rule :| (rule, files[k].lines[i]) in FileHits(p, files[k]);
    HitsForm(p, files);
    assert files[k] in files;
    assert (rule, files[k].lines[i]) in Hits(p, files);
    var n :| 0 <= n < |Hits(p, files)| && Hits(p, files)[n] == (rule, files[k].lines[i]);
  }

  /** Diffs whose headers all start at one or more are reviewed. */
  lemma PositiveStartsReviewed(p: Patterns, diff: string)
    requires Parse(diff).Ok?
    requires forall k, h :: 0 <= k < |SectionsOf(diff)| && 0 <= h < |Starts(diff, k)| ==> Starts(diff, k)[h] >= 1
    ensures ReviewOf(p, Parse(diff).value).Some?
  {
    hide Parse, SectionsOf, Starts, Hits, Build;
    ReviewFailsIff(p, diff);
  }

  // ---- Such a diff -------------------------------------------------------------------------

  const LINES := ["--- a/f", "+++ b/f", "@@ -0,0 +0 @@", "+eval(x)"]

  function ZeroSection(): seq<string> {
    Terminated(LINES, "\n")
  }

  const ZERO_DIFF: string := Flatten(ZeroSection())

  /** The line it records. */
  const ZERO_LINE := NewFileLine("f", 0, "eval(x)", true, 0)

  lemma ZeroSectionIs()
    ensures var section := ZeroSection();
            && |section| == 4 && section[0] == "--- a/f" + "\n" && section[1] == "+++ " + "b/f\n"
            && section[2] == "@@ -0,0 +0 @@" + "\n" && section[3] == "+" + "eval(x)" + "\n"
            && section[1][4..] == "b/f\n"
  {
    TerminatedAt(LINES, "\n");
    assert LINES[1] + "\n" == "+++ " + "b/f\n";
    assert LINES[3] == "+" + "eval(x)";
  }

  lemma ZeroHeader()
    ensures HunkStart("@@ -0,0 +0 @@" + "\n") == Some(0)
  {
    var p := Parts(" ", "0", ",0", " ", "0", "", " ", "\n");
    assert Spaces(" ") && Digits("0") && OptionalCount(",0") by { assert ",0"[1..] == "0"; }
    assert WellFormed(p);
    assert Value("0") == 0 by { assert "0"[..0] == ""; }
    assert Spell(p) == "@@ -0,0 +0 @@" + "\n";
    HeaderRecognised(p);
  }

  lemma ZeroScan(header: string, line: string)
    requires header == "@@ -0,0 +0 @@" + "\n" && line == "+" + "eval(x)" + "\n"
    ensures ScanLines("f", START, [header, line]) == Scan(Some(1), 0, [ZERO_LINE], true)
  {
    ZeroHeader();
    HeaderStep(header);
    AddedStep(line);
    hide *;
    ScanTwo("f", header, line);
  }

  lemma AddedStep(line: string)
    requires line == "+" + "eval(x)" + "\n"
    ensures ScanLine("f", Scan(Some(0), 0, [], true), line) == Scan(Some(1), 0, [ZERO_LINE], true)
  {
    hide ScanLine, StripEol, HunkStart;
    var text := "eval(x)";
    assert OneLine(text) && text[0] == 'e';
    AddedLineRecordedIff("f", Scan(Some(0), 0, [], true), text, "\n");
    assert [] + [ZERO_LINE] == [ZERO_LINE];
  }

  lemma HeaderStep(header: string)
    requires HunkStart(header) == Some(0)
    ensures ScanLine("f", START, header) == Scan(Some(0), 0, [], true)
  {
    hide HunkStart;
  }

  lemma ScanTwo(path: string, a: string, b: string)
    ensures ScanLines(path, START, [a, b]) == ScanLine(path, ScanLine(path, START, a), b)
  {
    hide ScanLine;
    var rest: seq<string> := [b];
    assert [a, b][1..] == rest && rest[1..] == [];
    assert ScanLines(path, ScanLine(path, START, a), rest) == ScanLine(path, ScanLine(path, START, a), b);
  }

  lemma ZeroPath()
    ensures CleanPath("b/f\n") == "f"
  {
    FailingDiffs.ShortTexts();
    assert TargetNameOf() == "b/f" && "b/f" + "" + "\n" == "b/f\n";
    hide CleanPath;
    CleanPathOf(FailingDiffs.FILE, "", "\n");
  }

  function TargetNameOf(): string {
    UnifiedDiff.TargetName(FailingDiffs.FILE)
  }

  lemma ZeroPrefixes()
    ensures var section := ZeroSection();
            && |section| == 4 && FirstWithPrefix("+++ ", section) == Some(1) && FirstWithPrefix("--- ", section).Some?
  {
    ZeroSectionIs();
    var section := ZeroSection();
    assert section[0][0] == '-' && "+++ " <= section[1] && "--- " <= section[0];
    hide ZeroSection, FirstWithPrefix;
    assert [section[0]] + [section[1]] + section[2..] == section;
    FirstWithPrefixAt("+++ ", [section[0]], section[1], section[2..]);
  }

  lemma ZeroParsed()
    ensures ParseSection(ZeroSection()) == Ok((FileDiff("f", ZERO_DIFF, [ZERO_LINE]), true))
  {
    assert ZERO_DIFF == Flatten(ZeroSection());
    hide *;
    ZeroSectionIs();
    ZeroPath();
    ZeroPrefixes();
    var section := ZeroSection();
    ZeroScan(section[2], section[3]);
    assert section[2..] == [section[2], section[3]];
    ParsedFromParts(section, 1, "f");
  }

  lemma ZeroShape()
    ensures Shape(false, ZeroSection())
  {
    ZeroSectionIs();
    var section := ZeroSection();
    assert section[0][0] == '-' && section[1][0] == '+' && section[2][0] == '@' && section[3][0] == '+';
    assert "--- " <= section[0] && "+++ " <= section[1];
    hide ZeroSection;
  }

  lemma ZeroSplit()
    ensures SplitLines(ZERO_DIFF) == ZeroSection()
  {
    assert OneLine(LINES[0]) && OneLine(LINES[1]) && OneLine(LINES[2]) && OneLine(LINES[3]);
    assert OneLines(LINES);
    hide SplitLines, Terminated, Flatten, OneLines;
    SplitJoined(LINES, "\n");
  }

  lemma ZeroDiffParses()
    ensures Parse(ZERO_DIFF) == Ok([FileDiff("f", ZERO_DIFF, [ZERO_LINE])])
  {
    hide *;
    var sections := [ZeroSection()];
    ZeroSplit();
    ZeroShape();
    ZeroParsed();
    ZeroNotBlank();
    FlattenSingle(ZeroSection());
    SectionsFound(false, sections);
    OneResult(sections);
    ParseBySections(ZERO_DIFF, sections);
  }

  lemma FlattenSingle(lines: seq<string>)
    ensures Flatten([lines]) == lines
  {
    assert [lines][1..] == [];
  }

  lemma ZeroNotBlank()
    ensures ZERO_DIFF != "" && Strip(ZERO_DIFF) != ""
  {
    ZeroSectionIs();
    assert ZERO_DIFF[0] == '-';
    hide Flatten;
    StripKeeps(ZERO_DIFF);
  }

  lemma OneResult(sections: seq<seq<string>>)
    requires |sections| == 1 && ParseSection(sections[0]).Ok?
    ensures Collect(ParseEach(sections)) == Ok(([ParseSection(sections[0]).value.0], ParseSection(sections[0]).value.1))
  {
    hide ParseSection;
    var results := ParseEach(sections);
    assert results[..|results| - 1] == [];
    assert Collect(results[..|results| - 1]) == Ok(([], false));
    assert [] + [results[0].value.0] == [results[0].value.0];
  }

  lemma {:induction false} RuleReports(p: Patterns, line: NewFileLine, rules: seq<Rule>, rule: Rule)
    requires rule in rules && p.matches(rule.id, line.content)
    ensures (rule, line) in RuleHits(p, line, rules)
  {
    var n := |rules| - 1;
    if rule != rules[n] {
      RuleReports(p, line, rules[..n], rule);
    }
  }

  lemma OneAddedLine(p: Patterns, file: FileDiff, line: NewFileLine, rule: Rule)
    requires file.lines == [line] && line.added && (rule, line) in RuleHits(p, line, RULES)
    ensures HasHit(p, file, line)
  {
    hide RuleHits, EmptyCatches, RULES;
    assert file.lines[..0] == [];
    assert (rule, line) in LineHits(p, file.lines);
    assert (rule, line) in FileHits(p, file);
  }

  lemma HitFails(p: Patterns, file: FileDiff, line: NewFileLine)
    requires HasHit(p, file, line) && line.line == 0
    ensures ReviewOf(p, [file]).None?
  {
    hide FileHits, Hits, Build;
    var rule :| (rule, line) in FileHits(p, file);
    var hits := Hits(p, [file]);
    HitsForm(p, [file]);
    assert file in [file];
    assert (rule, line) in hits;
    BuildsIff(hits);
    var n :| 0 <= n < |hits| && hits[n] == (rule, line);
    assert hits[n].1.line < 1;
  }

  lemma EvalRule()
    ensures exists rule :: rule in RULES && rule.id == "MOCK-001"
  {
    assert RULES[0] in RULES && RULES[0].id == "MOCK-001";
  }

  /** The diff above is accepted, its added line is numbered zero, and the provider, which reports it,
      fails. */
  lemma ZeroDiffFails(p: Patterns)
    requires p.matches("MOCK-001", "eval(x)")
    ensures Parse(ZERO_DIFF) == Ok([FileDiff("f", ZERO_DIFF, [ZERO_LINE])])
    ensures ReviewOf(p, Parse(ZERO_DIFF).value).None?
  {
    assert ZERO_LINE.content == "eval(x)" && ZERO_LINE.added && ZERO_LINE.line == 0;
    hide *;
    ZeroDiffParses();
    EvalRule();
    var rule :| rule in RULES && rule.id == "MOCK-001";
    var file := FileDiff("f", ZERO_DIFF, [ZERO_LINE]);
    RuleReports(p, ZERO_LINE, RULES, rule);
    OneAddedLine(p, file, ZERO_LINE, rule);
    HitFails(p, file, ZERO_LINE);
  }
}
