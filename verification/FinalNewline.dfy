/** A newline at the end of a diff makes no difference to the parser but for the raw text of the last
    file: what is proved of diffs whose lines are all terminated holds without the last terminator. */
module FinalNewline {
  import opened Wrappers
  import opened Text
  import opened Parser
  import opened HunkHeader
  import opened UnifiedDiff
  import opened ParserSoundness
  import opened ParserRoundTrip

  /** `text` is not empty and its last line is not terminated. */
  predicate Unterminated(text: string) {
    text != "" && !IsLineBreak(text[|text| - 1])
  }

  function LastLonger(lines: seq<string>, eol: string): seq<string>
    requires lines != []
  {
    lines[..|lines| - 1] + [lines[|lines| - 1] + eol]
  }

  // ---- Splitting ---------------------------------------------------------------------------

  lemma {:induction false} FirstLineLonger(s: string, eol: string)
    requires Unterminated(s) && IsEol(eol)
    ensures FirstLine(s + eol) == if FirstLine(s) == |s| then |s| + |eol| else FirstLine(s)
    ensures FirstLine(s) == |s| ==> OneLine(s)
  {
    var t := s + eol;
    assert t[0] == s[0];
    if IsLineBreak(s[0]) {
      assert |s| > 1 && t[1] == s[1];
    } else if |s| == 1 {
      assert t[1..] == eol;
      FirstLineIs("", eol, "");
      assert "" + eol + "" == eol;
    } else {
      assert t[1..] == s[1..] + eol;
      FirstLineLonger(s[1..], eol);
      assert OneLine(s[1..]) ==> OneLine(s) by {
        assert forall i :: 0 < i < |s| ==> s[i] == s[1..][i - 1];
      }
    }
  }

  lemma SplitHead(s: string)
    requires s != ""
    ensures SplitLines(s) == [s[..FirstLine(s)]] + SplitLines(s[FirstLine(s)..])
    ensures SplitLines("") == []
  {
    hide FirstLine;
  }

  lemma LongerCons(head: string, tail: seq<string>, eol: string)
    requires tail != []
    ensures LastLonger([head] + tail, eol) == [head] + LastLonger(tail, eol)
    ensures ([head] + tail)[|tail|] == tail[|tail| - 1]
  {
    var lines := [head] + tail;
    assert lines[..|lines| - 1] == [head] + tail[..|tail| - 1];
  }

  lemma LongerOne(line: string, eol: string)
    ensures LastLonger([line], eol) == [line + eol]
  {
  }

  lemma UnterminatedRest(s: string, n: nat)
    requires Unterminated(s) && n < |s|
    ensures Unterminated(s[n..])
  {
  }

  lemma SplitLongerOne(s: string, eol: string)
    requires s != "" && FirstLine(s) == |s| && FirstLine(s + eol) == |s| + |eol|
    ensures SplitLines(s) == [s] && SplitLines(s + eol) == LastLonger([s], eol)
  {
    hide *;
    var t := s + eol;
    SplitHead(s);
    SplitHead(t);
    LongerOne(s, eol);
    assert s[..|s|] == s && s[|s|..] == "" && t[..|t|] == t && t[|t|..] == "";
  }

  lemma SplitLongerMore(s: string, eol: string, n: nat)
    requires s != "" && n < |s| && n == FirstLine(s) == FirstLine(s + eol)
    requires SplitLines(s[n..]) != [] && SplitLines(s[n..] + eol) == LastLonger(SplitLines(s[n..]), eol)
    ensures SplitLines(s) == [s[..n]] + SplitLines(s[n..])
    ensures SplitLines(s + eol) == LastLonger(SplitLines(s), eol)
  {
    hide *;
    var t := s + eol;
    assert t[..n] == s[..n] && t[n..] == s[n..] + eol;
    SplitHead(s);
    SplitHead(t);
    LongerCons(s[..n], SplitLines(s[n..]), eol);
  }

  lemma {:induction false} SplitLonger(s: string, eol: string)
    requires Unterminated(s) && IsEol(eol)
    ensures SplitLines(s) != [] && SplitLines(s + eol) == LastLonger(SplitLines(s), eol)
    ensures OneLine(SplitLines(s)[|SplitLines(s)| - 1])
    decreases |s|
  {
    var n := FirstLine(s);
    hide *;
    FirstLineLonger(s, eol);
    if n == |s| {
      SplitLongerOne(s, eol);
    } else {
      UnterminatedRest(s, n);
      SplitLonger(s[n..], eol);
      SplitLongerMore(s, eol, n);
    }
  }

  // ---- Lines that look alike ---------------------------------------------------------------

  /** The lines start alike, as far as the parser looks for sections and headers. */
  ghost predicate Alike(a: seq<string>, b: seq<string>) {
    && |a| == |b|
    && (forall i :: 0 <= i < |a| ==> ("diff --git " <= b[i] <==> "diff --git " <= a[i]))
    && (forall i :: 0 <= i < |a| ==> ("--- " <= b[i] <==> "--- " <= a[i]))
    && (forall i :: 0 <= i < |a| ==> ("+++ " <= b[i] <==> "+++ " <= a[i]))
  }

  lemma LongerIsAlike(lines: seq<string>, eol: string)
    requires lines != [] && OneLine(lines[|lines| - 1]) && IsEol(eol)
    ensures Alike(lines, LastLonger(lines, eol))
  {
    Prefixes();
    hide OneLine, IsEol;
    var last := lines[|lines| - 1];
    PrefixOfTerminated("diff --git ", last, eol);
    PrefixOfTerminated("--- ", last, eol);
    PrefixOfTerminated("+++ ", last, eol);
    var more := LastLonger(lines, eol);
    assert forall i :: 0 <= i < |lines| - 1 ==> more[i] == lines[i];
  }

  lemma Prefixes()
    ensures OneLine("diff --git ") && OneLine("--- ") && OneLine("+++ ")
  {
  }

  lemma {:induction false} StartsAlike(git: bool, a: seq<string>, b: seq<string>, i: nat)
    requires Alike(a, b) && i <= |a|
    ensures StartsFrom(git, a, i) == StartsFrom(git, b, i)
    decreases |a| - i
  {
    if i < |a| {
      StartsAlike(git, a, b, i + 1);
      assert IsStart(git, a, i) <==> IsStart(git, b, i);
    }
  }

  lemma {:induction false} FirstAlike(prefix: string, a: seq<string>, b: seq<string>)
    requires |a| == |b| && forall i :: 0 <= i < |a| ==> (prefix <= b[i] <==> prefix <= a[i])
    ensures FirstWithPrefix(prefix, a) == FirstWithPrefix(prefix, b)
  {
    if a != [] {
      FirstAlike(prefix, a[1..], b[1..]);
    }
  }

  // ---- One line ----------------------------------------------------------------------------

  /** A hunk header is recognised with or without its terminator. */
  lemma HunkStartLonger(line: string, eol: string)
    requires OneLine(line) && IsEol(eol)
    ensures HunkStart(line + eol) == HunkStart(line)
  {
    hide HunkStart;
    if HunkStart(line).Some? {
      var start := HunkStart(line).value;
      HunkStartMatchesPattern(line, start);
      var p :| WellFormed(p) && line == Spell(p) && start == Value(p.newStart);
      SpellLonger(p, eol);
      HunkStartMatchesPattern(line + eol, start);
    } else if HunkStart(line + eol).Some? {
      var start := HunkStart(line + eol).value;
      HunkStartMatchesPattern(line + eol, start);
      var p :| WellFormed(p) && line + eol == Spell(p) && start == Value(p.newStart);
      var q := SpellShorter(line, eol, p);
      HunkStartMatchesPattern(line, start);
    }
  }

  /** What a spelled header says before its closing mark. */
  ghost function FrontOf(p: Parts): string {
    "@@" + (p.gap1 + "-" + (p.oldStart + p.oldCount + (p.gap2 + "+" + (p.newStart + p.newCount + p.gap3))))
  }

  lemma Assoc(a: string, b: string, c: string)
    ensures a + (b + c) == a + b + c
  {
  }

  lemma SpellFront(p: Parts)
    ensures Spell(p) == FrontOf(p) + ("@@" + p.tail)
  {
    var rest := "@@" + p.tail;
    var f2 := p.newStart + p.newCount + p.gap3;
    var f3 := p.gap2 + "+" + f2;
    var f4 := p.oldStart + p.oldCount + f3;
    var f5 := p.gap1 + "-" + f4;
    assert AfterNewRange(p) == p.gap3 + rest;
    Assoc(p.newStart + p.newCount, p.gap3, rest);
    assert AfterPlus(p) == f2 + rest;
    Assoc(p.gap2 + "+", f2, rest);
    assert AfterOldRange(p) == f3 + rest;
    Assoc(p.oldStart + p.oldCount, f3, rest);
    assert AfterMinus(p) == f4 + rest;
    Assoc(p.gap1 + "-", f4, rest);
    Assoc("@@", f5, rest);
  }

  lemma TailSpelled(p: Parts, tail: string)
    requires WellFormed(p)
    ensures WellFormed(p.(tail := tail)) && Spell(p.(tail := tail)) == FrontOf(p) + ("@@" + tail)
  {
    SpellFront(p.(tail := tail));
  }

  lemma SpellLonger(p: Parts, eol: string)
    requires WellFormed(p)
    ensures var q := p.(tail := p.tail + eol); WellFormed(q) && Spell(q) == Spell(p) + eol
  {
    SpellFront(p);
    TailSpelled(p, p.tail + eol);
    hide FrontOf, Spell;
    Assoc("@@", p.tail, eol);
    Assoc(FrontOf(p), "@@" + p.tail, eol);
  }

  lemma SpellShorter(line: string, eol: string, p: Parts) returns (q: Parts)
    requires IsEol(eol) && WellFormed(p) && line + eol == Spell(p)
    ensures WellFormed(q) && line == Spell(q) && q.newStart == p.newStart
  {
    SpellFront(p);
    hide FrontOf, Spell;
    var k := CutTail(FrontOf(p), p.tail, line, eol);
    q := p.(tail := p.tail[..k]);
    TailSpelled(p, p.tail[..k]);
  }

  lemma CutTail(front: string, tail: string, line: string, eol: string) returns (k: nat)
    requires IsEol(eol) && front + ("@@" + tail) == line + eol
    ensures k <= |tail| && line == front + ("@@" + tail[..k])
  {
    var whole := front + ("@@" + tail);
    var n := |front| + 2;
    assert whole[n - 1] == '@' && whole[n - 2] == '@';
    assert whole[|line|] == eol[0] && whole[|whole| - 1] == eol[|eol| - 1];
    assert |line| >= n;
    k := |line| - n;
    assert whole[..|line|] == line;
    assert whole[..|line|] == front + ("@@" + tail[..k]);
  }

  lemma StripEolNone(line: string)
    requires OneLine(line)
    ensures StripEol(line) == line
  {
    assert line != "" ==> !IsLineBreak(line[|line| - 1]);
  }

  /** The state machine looks at nothing but these things of a line. */
  lemma ScanLineAlike(path: string, s: Scan, a: string, b: string, header: Option<nat>)
    requires a != "" && b != "" && StripEol(a[1..]) == StripEol(b[1..])
    requires (NO_NEWLINE <= a <==> NO_NEWLINE <= b) && ("+" <= a <==> "+" <= b) && ("+++" <= a <==> "+++" <= b)
    requires (" " <= a <==> " " <= b) && ("-" <= a <==> "-" <= b) && ("---" <= a <==> "---" <= b)
    ensures ScanLineAs(path, s, a, header) == ScanLineAs(path, s, b, header)
  {
    hide Record, StripEol;
  }

  lemma ScanLineIs(path: string, s: Scan, line: string)
    ensures ScanLine(path, s, line) == ScanLineAs(path, s, line, HunkStart(line))
  {
    hide HunkStart, ScanLineAs;
  }

  lemma ScanLineLonger(path: string, s: Scan, line: string, eol: string)
    requires OneLine(line) && line != "" && IsEol(eol)
    ensures ScanLine(path, s, line + eol) == ScanLine(path, s, line)
  {
    hide *;
    HunkStartLonger(line, eol);
    Marks();
    PrefixOfTerminated(NO_NEWLINE, line, eol);
    PrefixOfTerminated("+", line, eol);
    PrefixOfTerminated("+++", line, eol);
    PrefixOfTerminated(" ", line, eol);
    PrefixOfTerminated("-", line, eol);
    PrefixOfTerminated("---", line, eol);
    TailOneLine(line, 1);
    assert (line + eol)[1..] == line[1..] + eol;
    StripEolOf(line[1..], eol);
    StripEolNone(line[1..]);
    ScanLineIs(path, s, line);
    ScanLineIs(path, s, line + eol);
    ScanLineAlike(path, s, line, line + eol, HunkStart(line));
  }

  lemma Marks()
    ensures OneLine(NO_NEWLINE) && OneLine("+") && OneLine("+++") && OneLine(" ") && OneLine("-") && OneLine("---")
  {
  }

  lemma TailOneLine(line: string, n: nat)
    requires OneLine(line) && n <= |line|
    ensures OneLine(line[n..])
  {
  }

  // ---- One section -------------------------------------------------------------------------

  lemma ScanLonger(path: string, s: Scan, lines: seq<string>, eol: string)
    requires lines != [] && OneLine(lines[|lines| - 1]) && lines[|lines| - 1] != "" && IsEol(eol)
    ensures ScanLines(path, s, LastLonger(lines, eol)) == ScanLines(path, s, lines)
  {
    var n := |lines| - 1;
    var more := LastLonger(lines, eol);
    hide ScanLine, ScanLines;
    ScanSnoc(path, s, lines, n);
    ScanSnoc(path, s, more, n);
    assert lines[..n + 1] == lines && more[..n + 1] == more && more[..n] == lines[..n];
    ScanLineLonger(path, ScanLines(path, s, lines[..n]), lines[n], eol);
  }

  lemma CleanPathLonger(header: string, eol: string)
    requires OneLine(header) && IsEol(eol)
    ensures CleanPath(header + eol) == CleanPath(header)
  {
    StripEolOf(header, eol);
    StripEolNone(header);
    hide StripEol, BeforeTab, Strip, Unquote;
  }

  function WithRaw(r: Result<(FileDiff, bool), ParseError>, more: string): Result<(FileDiff, bool), ParseError> {
    match r case Ok(one) => Ok((one.0.(raw := one.0.raw + more), one.1)) case Err(e) => Err(e)
  }

  lemma {:induction false} FlattenLonger(lines: seq<string>, eol: string)
    requires lines != []
    ensures Flatten(LastLonger(lines, eol)) == Flatten(lines) + eol
  {
    if |lines| == 1 {
      assert LastLonger(lines, eol)[1..] == [] && lines[1..] == [];
    } else {
      assert LastLonger(lines, eol)[1..] == LastLonger(lines[1..], eol);
      FlattenLonger(lines[1..], eol);
    }
  }

  lemma SectionLonger(section: seq<string>, eol: string)
    requires section != [] && OneLine(section[|section| - 1]) && section[|section| - 1] != "" && IsEol(eol)
    ensures ParseSection(LastLonger(section, eol)) == WithRaw(ParseSection(section), eol)
  {
    var more := LastLonger(section, eol);
    LongerIsAlike(section, eol);
    FirstAlike("+++ ", section, more);
    FirstAlike("--- ", section, more);
    FlattenLonger(section, eol);
    var header := FirstWithPrefix("+++ ", section);
    if header.Some? {
      var h := header.value;
      BodyLonger(section, h, eol, CleanPath(section[h][4..]));
      hide FirstWithPrefix, CleanPath, ScanLines, Flatten, LastLonger, Alike;
    }
  }

  lemma BodyLonger(section: seq<string>, h: nat, eol: string, path: string)
    requires section != [] && OneLine(section[|section| - 1]) && section[|section| - 1] != "" && IsEol(eol)
    requires h < |section| && |section[h]| >= 4
    ensures var more := LastLonger(section, eol);
            && |more| == |section| && |more[h]| >= 4
            && CleanPath(more[h][4..]) == CleanPath(section[h][4..])
            && ScanLines(path, START, more[h + 1..]) == ScanLines(path, START, section[h + 1..])
  {
    var more := LastLonger(section, eol);
    if h == |section| - 1 {
      assert more[h] == section[h] + eol && (section[h] + eol)[4..] == section[h][4..] + eol;
      TailOneLine(section[h], 4);
      CleanPathLonger(section[h][4..], eol);
      assert more[h + 1..] == section[h + 1..] == [];
    } else {
      assert more[h + 1..] == LastLonger(section[h + 1..], eol);
      ScanLonger(path, START, section[h + 1..], eol);
    }
  }

  // ---- The whole diff ----------------------------------------------------------------------

  /** The last raw text is longer by `more`. */
  function LastRawLonger(files: seq<FileDiff>, more: string): seq<FileDiff> {
    if files == [] then []
    else
      var last := files[|files| - 1];
      files[..|files| - 1] + [last.(raw := last.raw + more)]
  }

  lemma LongerSize(lines: seq<string>, eol: string)
    requires lines != []
    ensures |LastLonger(lines, eol)| == |lines|
  {
  }

  lemma LongerSlice(lines: seq<string>, eol: string, i: nat, j: nat)
    requires i <= j < |lines| == |LastLonger(lines, eol)|
    ensures LastLonger(lines, eol)[i..j] == lines[i..j]
    ensures lines[i..][|lines| - i - 1] == lines[|lines| - 1]
    ensures LastLonger(lines, eol)[i..|lines|] == LastLonger(lines[i..], eol)
  {
    var n := |lines| - 1;
    assert lines[i..][..n - i] == lines[i..n];
  }

  lemma LastSection(lines: seq<string>, starts: seq<nat>)
    requires starts != [] && Increasing(starts, |lines|)
    ensures Sections(lines, starts)[|starts| - 1] == lines[starts[|starts| - 1]..|lines|]
  {
    hide Sections;
    SectionsAt(lines, starts, |starts| - 1);
  }

  lemma EarlierSection(lines: seq<string>, starts: seq<nat>, k: nat, eol: string)
    requires lines != [] && Increasing(starts, |lines|) && k + 1 < |starts| && starts[|starts| - 1] < |lines|
    requires |LastLonger(lines, eol)| == |lines|
    ensures Sections(LastLonger(lines, eol), starts)[k] == Sections(lines, starts)[k]
  {
    hide Sections, LastLonger;
    assert starts[k] < starts[k + 1] < |lines|;
    SectionsAt(lines, starts, k);
    SectionsAt(LastLonger(lines, eol), starts, k);
    LongerSlice(lines, eol, starts[k], starts[k + 1]);
  }

  lemma SectionsLonger(lines: seq<string>, starts: seq<nat>, eol: string)
    requires lines != [] && starts != [] && Increasing(starts, |lines|) && starts[|starts| - 1] < |lines|
    ensures Increasing(starts, |LastLonger(lines, eol)|)
    ensures var sections, more := Sections(lines, starts), Sections(LastLonger(lines, eol), starts);
            var m := |starts| - 1;
            && sections[m] != [] && sections[m][|sections[m]| - 1] == lines[|lines| - 1]
            && more[..m] == sections[..m] && more[m] == LastLonger(sections[m], eol)
  {
    LongerSize(lines, eol);
    hide *;
    var m := |starts| - 1;
    LastSection(lines, starts);
    LastSection(LastLonger(lines, eol), starts);
    LongerSlice(lines, eol, starts[m], starts[m]);
    assert lines[starts[m]..|lines|] == lines[starts[m]..];
    forall k | 0 <= k < m ensures Sections(LastLonger(lines, eol), starts)[k] == Sections(lines, starts)[k] {
      EarlierSection(lines, starts, k, eol);
    }
  }

  lemma CollectLonger(results: seq<Result<(FileDiff, bool), ParseError>>, more: seq<Result<(FileDiff, bool), ParseError>>, eol: string)
    requires |results| == |more| > 0
    requires var m := |results| - 1; more[..m] == results[..m] && more[m] == WithRaw(results[m], eol)
    ensures Collect(results).Err? ==> Collect(more) == Collect(results)
    ensures Collect(results).Ok? ==>
              Collect(more) == Ok((LastRawLonger(Collect(results).value.0, eol), Collect(results).value.1))
  {
    var m := |results| - 1;
    var before := Collect(results[..m]);
    if before.Ok? && results[m].Ok? {
      var files := before.value.0 + [results[m].value.0];
      assert files[..|files| - 1] == before.value.0;
    }
  }

  lemma ParsedSections(lines: seq<string>, starts: seq<nat>, eol: string)
    requires lines != [] && OneLine(lines[|lines| - 1]) && lines[|lines| - 1] != "" && IsEol(eol)
    requires starts != [] && Increasing(starts, |lines|) && starts[|starts| - 1] < |lines|
    ensures var results, more := ParseEach(Sections(lines, starts)), ParseEach(Sections(LastLonger(lines, eol), starts));
            |results| == |more| == |starts| && more[..|starts| - 1] == results[..|starts| - 1]
            && more[|starts| - 1] == WithRaw(results[|starts| - 1], eol)
  {
    hide ParseSection, OneLine, Sections, LastLonger, WithRaw;
    SectionsLonger(lines, starts, eol);
    SectionLonger(Sections(lines, starts)[|starts| - 1], eol);
  }

  lemma StripLonger(s: string, eol: string)
    requires IsEol(eol)
    ensures Strip(s + eol) == "" <==> Strip(s) == ""
  {
    BlankIff(s);
    BlankIff(s + eol);
    assert forall i :: 0 <= i < |eol| ==> IsSpace(eol[i]);
    var t := s + eol;
    assert forall i :: 0 <= i < |s| ==> t[i] == s[i];
    assert forall i :: |s| <= i < |t| ==> t[i] == eol[i - |s|];
  }

  lemma ParseIs(diff: string)
    ensures diff == "" || Strip(diff) == "" ==> Parse(diff) == Err(EmptyDiff)
    ensures diff != "" && Strip(diff) != "" && SectionStarts(SplitLines(diff)) == [] ==> Parse(diff) == Err(NoFileHeader)
    ensures diff != "" && Strip(diff) != "" && SectionStarts(SplitLines(diff)) != [] ==>
              var parsed := Collect(ParseEach(Sections(SplitLines(diff), SectionStarts(SplitLines(diff)))));
              && (parsed.Err? ==> Parse(diff) == Err(parsed.error))
              && (parsed.Ok? ==> Parse(diff) == if parsed.value.1 then Ok(parsed.value.0) else Err(NoHunks))
  {
    hide Strip, SplitLines, SectionStarts, Collect, ParseEach, Sections;
  }

  lemma StartsWithin(lines: seq<string>)
    ensures var starts := SectionStarts(lines);
            Increasing(starts, |lines|) && (starts != [] ==> starts[|starts| - 1] < |lines|)
  {
    hide StartsFrom;
  }

  lemma SameStarts(lines: seq<string>, eol: string)
    requires lines != [] && OneLine(lines[|lines| - 1]) && IsEol(eol)
    ensures SectionStarts(LastLonger(lines, eol)) == SectionStarts(lines)
  {
    LongerIsAlike(lines, eol);
    StartsAlike(true, lines, LastLonger(lines, eol), 0);
    StartsAlike(false, lines, LastLonger(lines, eol), 0);
    hide StartsFrom, LastLonger, Alike;
  }

  /** On every text whose last line is not terminated: terminating it changes nothing of the outcome, not
      the error, the paths or the recorded lines, but the raw text of the last file. */
  lemma FinalNewlineIrrelevant(diff: string, eol: string)
    requires Unterminated(diff) && IsEol(eol)
    ensures Parse(diff).Err? ==> Parse(diff + eol) == Parse(diff)
    ensures Parse(diff).Ok? ==> Parse(diff + eol) == Ok(LastRawLonger(Parse(diff).value, eol))
  {
    assert diff != "" && diff + eol != "";
    hide *;
    var lines := SplitLines(diff);
    StripLonger(diff, eol);
    SplitLonger(diff, eol);
    SameStarts(lines, eol);
    ParseIs(diff);
    ParseIs(diff + eol);
    var starts := SectionStarts(lines);
    StartsWithin(lines);
    if starts != [] {
      ParsedSections(lines, starts, eol);
      CollectLonger(ParseEach(Sections(lines, starts)), ParseEach(Sections(LastLonger(lines, eol), starts)), eol);
    }
  }

  // ---- Rendered diffs ----------------------------------------------------------------------

  lemma {:induction false} LastLine(lines: seq<string>, eol: string) returns (text: string)
    requires lines != [] && OneLines(lines) && lines[|lines| - 1] != ""
    ensures Flatten(Terminated(lines, eol)) == text + eol && Unterminated(text)
    decreases |lines|
  {
    var n := |lines| - 1;
    assert lines == lines[..n] + [lines[n]];
    TerminatedAppend(lines[..n], [lines[n]], eol);
    assert [lines[n]][1..] == [];
    assert Terminated([lines[n]], eol) == [lines[n] + eol];
    FlattenAppend(Terminated(lines[..n], eol), [lines[n] + eol]);
    var before := Flatten(Terminated(lines[..n], eol));
    FlattenOne(lines[n] + eol);
    text := before + lines[n];
    assert text[|text| - 1] == lines[n][|lines[n]| - 1];
    assert OneLine(lines[n]);
  }

  lemma FlattenOne(line: string)
    ensures Flatten([line]) == line
  {
    assert [line][1..] == [];
  }

  lemma LastLineOfFile(git: bool, f: FileEdit)
    requires Clean(f)
    ensures FileLines(git, f) != [] && FileLines(git, f)[|FileLines(git, f)| - 1] != ""
  {
    var script := ScriptLines(f.base, f.script, 0, 0);
    ScriptLinesForm(f.base, f.script, 0, 0);
    if script != [] {
      assert BodyLine(script[|script| - 1]);
      assert FileLines(git, f)[|FileLines(git, f)| - 1] == script[|script| - 1];
    }
    hide ScriptLines, CleanScript, CleanTarget, HeaderLines, TargetName;
  }

  lemma {:induction false} LastLineOfAll(git: bool, files: seq<FileEdit>)
    requires files != [] && AllClean(files)
    ensures AllLines(git, files) != [] && AllLines(git, files)[|AllLines(git, files)| - 1] != ""
  {
    AllCleanAt(files);
    LastLineOfFile(git, files[0]);
    hide FileLines, Clean;
    if |files| > 1 {
      LastLineOfAll(git, files[1..]);
    } else {
      assert files[1..] == [];
    }
  }

  /** A rendered diff without its last terminator: what is read of it is what is read of the whole, but
      for the raw text of the last file. So all that is proved of rendered diffs holds of it too. */
  lemma UnterminatedRender(git: bool, eol: string, files: seq<FileEdit>) returns (text: string)
    requires files != [] && IsEol(eol) && AllClean(files)
    ensures Render(git, eol, files) == text + eol
    ensures Parse(text).Err? ==> Parse(text) == Parse(Render(git, eol, files))
    ensures Parse(text).Ok? ==> Parse(Render(git, eol, files)) == Ok(LastRawLonger(Parse(text).value, eol))
  {
    RenderedLines(git, eol, files);
    LastLineOfAll(git, files);
    hide *;
    text := LastLine(AllLines(git, files), eol);
    FinalNewlineIrrelevant(text, eol);
  }
}
