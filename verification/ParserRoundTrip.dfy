/** The parser undoes the renderer: sections are found where they were written, headers give back
    the paths, and the line state machine gives back the new side of every hunk. */
module ParserRoundTrip {
  import opened Wrappers
  import opened Text
  import opened Parser
  import opened UnifiedDiff
  import opened ParserTotals
  import opened ParserSoundness

  // ---- The "+++" line ----------------------------------------------------------------------

  lemma {:induction false} BeforeTabOf(name: string, stamp: string)
    requires '\t' !in name && (stamp != "" ==> stamp[0] == '\t')
    ensures BeforeTab(name + stamp) == name
  {
    if name == "" {
      assert name + stamp == stamp;
    } else {
      assert (name + stamp)[1..] == name[1..] + stamp;
      BeforeTabOf(name[1..], stamp);
    }
  }

  lemma StripOf(name: string)
    requires name != "" && !IsSpace(name[0]) && !IsSpace(name[|name| - 1])
    ensures Strip(name) == name
  {
  }

  /** The displayed name of a target that survives trimming and unquoting. */
  lemma TargetNameForm(target: Target)
    requires CleanTarget(target)
    ensures var name := TargetName(target);
            name != "" && OneLine(name) && '\t' !in name && name[0] != '"'
            && !IsSpace(name[0]) && !IsSpace(name[|name| - 1])
  {
    var name := TargetName(target);
    if target.InTree? && target.prefixed {
      assert name[|name| - 1] == target.path[|target.path| - 1];
      forall i | 0 <= i < |name| ensures !IsLineBreak(name[i]) {
        if i >= 2 { assert name[i] == target.path[i - 2]; }
      }
    }
  }

  lemma CleanPathOf(target: Target, stamp: string, eol: string)
    requires CleanTarget(target) && OneLine(stamp) && (stamp != "" ==> stamp[0] == '\t') && IsEol(eol)
    ensures CleanPath(TargetName(target) + stamp + eol) == PathOf(target)
    ensures PathOf(target) != ""
  {
    var name := TargetName(target);
    TargetNameForm(target);
    OneLineParts(name, stamp);
    StripEolOf(name + stamp, eol);
    BeforeTabOf(name, stamp);
    StripOf(name);
    assert Unquote(name) == name;
    hide StripEol, BeforeTab, Strip, IsSpace, OneLine, IsLineBreak, Unquote;
    if target.InTree? && target.prefixed {
      assert name[2..] == target.path;
    }
  }

  // ---- One file section --------------------------------------------------------------------

  /** A line of a hunk or a hunk header: never mistaken for the start of a git section. */
  predicate BodyLine(line: string) {
    OneLine(line) && line != "" && line[0] != 'd'
  }

  lemma MarkedLine(mark: string, text: string)
    requires |mark| == 1 && mark[0] in "+- " && OneLine(text)
    ensures BodyLine(mark + text)
  {
    var line := mark + text;
    assert line[1..] == text;
    assert !IsLineBreak(mark[0]);
    OneLineParts(mark, text);
  }

  lemma {:induction false} HunkLinesForm(base: seq<string>, ops: seq<Op>)
    requires |base| == OldCount(ops) && CleanHunk(base, ops)
    ensures BodyLines(HunkLines(base, ops))
    decreases |ops|
  {
    hide BodyLine;
    if ops != [] {
      var n := if ops[0].Keep? || ops[0].Delete? then 1 else 0;
      HunkHead(base, ops);
      HunkLinesForm(base[n..], ops[1..]);
      match ops[0] {
        case Keep => MarkedLine(" ", base[0]);
        case Delete => MarkedLine("-", base[0]);
        case Insert(text) => MarkedLine("+", text);
        case Marker => MarkerForm();
      }
    }
  }

  lemma MarkerForm()
    ensures BodyLine("\\ No newline at end of file")
  {
  }

  lemma HeaderForm(oldBefore: nat, oldCount: nat, newBefore: nat, newCount: nat, heading: string)
    requires OneLine(heading)
    ensures BodyLine(HunkHeaderLine(oldBefore, oldCount, newBefore, newCount, heading))
  {
    var a, b := Decimal(RangeStart(oldBefore, oldCount)), RangeCount(oldCount);
    var c, d := Decimal(RangeStart(newBefore, newCount)), RangeCount(newCount);
    OneLineDecimal(RangeStart(oldBefore, oldCount));
    OneLineDecimal(RangeStart(newBefore, newCount));
    RangeCountForm(oldCount);
    RangeCountForm(newCount);
    hide Decimal, RangeStart, RangeCount, IsLineBreak;
    Literals();
    var p1 := "@@ -" + a;
    OneLineParts("@@ -", a);
    OneLineParts(p1, b);
    OneLineParts(p1 + b, " +");
    OneLineParts(p1 + b + " +", c);
    OneLineParts(p1 + b + " +" + c, d);
    OneLineParts(p1 + b + " +" + c + d, " @@");
    OneLineParts(p1 + b + " +" + c + d + " @@", heading);
  }

  lemma Literals()
    ensures OneLine("@@ -") && OneLine(" +") && OneLine(" @@") && OneLine("+++ ") && OneLine("--- ")
    ensures OneLine("diff --git ")
  {
  }

  ghost predicate BodyLines(lines: seq<string>) {
    forall i :: 0 <= i < |lines| ==> BodyLine(lines[i])
  }

  lemma BodyLinesAppend(a: seq<string>, b: seq<string>)
    requires BodyLines(a) && BodyLines(b)
    ensures BodyLines(a + b)
  {
    hide BodyLine;
  }

  lemma {:induction false} ScriptLinesForm(base: seq<string>, script: seq<Segment>, oldBefore: nat, newBefore: nat)
    requires Fits(base, script) && CleanScript(base, script)
    ensures BodyLines(ScriptLines(base, script, oldBefore, newBefore))
    decreases |script|
  {
    if script == [] {
      assert ScriptLines(base, script, oldBefore, newBefore) == [];
    } else {
      ScriptLinesFormCons(base, script, oldBefore, newBefore);
    }
  }

  lemma {:induction false} ScriptLinesFormCons(base: seq<string>, script: seq<Segment>, oldBefore: nat, newBefore: nat)
    requires script != [] && Fits(base, script) && CleanScript(base, script)
    ensures BodyLines(ScriptLines(base, script, oldBefore, newBefore))
    decreases |script|, 0
  {
    hide *;
    var n := Consumed(script[0]);
    ScriptHead("", base, script, 0, 0);
    ScriptLinesHead(base, script, oldBefore, newBefore);
    if script[0].Unchanged? {
      ScriptLinesForm(base[n..], script[1..], oldBefore + n, newBefore + n);
    } else {
      var ops := script[0].ops;
      var header, shown := HunkHeaderLine(oldBefore, n, newBefore, NewCount(ops), script[0].heading), HunkLines(base[..n], ops);
      var rest := ScriptLines(base[n..], script[1..], oldBefore + n, newBefore + NewCount(ops));
      HeaderForm(oldBefore, n, newBefore, NewCount(ops), script[0].heading);
      HunkLinesForm(base[..n], ops);
      ScriptLinesForm(base[n..], script[1..], oldBefore + n, newBefore + NewCount(ops));
      BodyLinesOf(header);
      BodyLinesAppend([header], shown);
      BodyLinesAppend([header] + shown, rest);
    }
  }

  lemma BodyLinesOf(line: string)
    requires BodyLine(line)
    ensures BodyLines([line])
  {
    hide BodyLine;
  }

  lemma {:induction false} FirstWithPrefixAt(prefix: string, a: seq<string>, line: string, b: seq<string>)
    requires forall i :: 0 <= i < |a| ==> !(prefix <= a[i])
    requires prefix <= line
    ensures FirstWithPrefix(prefix, a + [line] + b) == Some(|a|)
  {
    var all := a + [line] + b;
    assert all[|a|] == line;
    assert forall i :: 0 <= i < |a| ==> all[i] == a[i];
  }

  lemma {:induction false} TerminatedAt(lines: seq<string>, eol: string)
    ensures |Terminated(lines, eol)| == |lines|
    ensures forall i :: 0 <= i < |lines| ==> Terminated(lines, eol)[i] == lines[i] + eol
  {
    if lines != [] {
      TerminatedAt(lines[1..], eol);
    }
  }

  /** The text lines of one file of the diff. */
  function FileSection(git: bool, eol: string, f: FileEdit): seq<string>
    requires Fits(f.base, f.script)
  {
    Terminated(FileLines(git, f), eol)
  }

  lemma HeaderLinesForm(git: bool, f: FileEdit)
    requires Clean(f)
    ensures var lines := HeaderLines(git, f);
            && OneLines(lines) && lines != []
            && (forall i :: 0 <= i < |lines| ==> !("+++ " <= lines[i]))
            && "--- " <= lines[|lines| - 1]
            && (forall i :: 0 < i < |lines| ==> !("diff --git " <= lines[i]))
            && ("diff --git " <= lines[0] <==> git)
  {
    Literals();
    OneLineParts("diff --git ", f.gitArgs);
    OneLineParts("--- ", f.oldName);
    hide CleanScript, CleanTarget, IsLineBreak, OneLine;
    var lines := HeaderLines(git, f);
    assert lines[|lines| - 1] == "--- " + f.oldName;
    assert lines[|lines| - 1][0] == '-';
    if git {
      assert lines[0] == "diff --git " + f.gitArgs && lines[0][0] == 'd';
      assert forall i :: 0 < i <= |f.extended| ==> lines[i] == f.extended[i - 1];
      assert |lines| == |f.extended| + 2;
    }
    forall i | 0 <= i < |lines| ensures !("+++ " <= lines[i]) {
      if 0 < i < |lines| - 1 {
        assert lines[i] == f.extended[i - 1];
      }
    }
  }

  lemma TargetLineForm(f: FileEdit)
    requires Clean(f)
    ensures OneLine("+++ " + (TargetName(f.target) + f.stamp))
  {
    hide CleanScript, TargetName, IsLineBreak;
    Literals();
    TargetNameForm(f.target);
    OneLineParts(TargetName(f.target), f.stamp);
    OneLineParts("+++ ", TargetName(f.target) + f.stamp);
  }

  lemma PrefixesOfTerminated(prefix: string, lines: seq<string>, eol: string)
    requires OneLine(prefix) && IsEol(eol)
    ensures |Terminated(lines, eol)| == |lines|
    ensures forall i :: 0 <= i < |lines| ==> (prefix <= Terminated(lines, eol)[i] <==> prefix <= lines[i])
  {
    hide OneLine, IsEol, Terminated;
    TerminatedAt(lines, eol);
    forall i | 0 <= i < |lines| ensures prefix <= Terminated(lines, eol)[i] <==> prefix <= lines[i] {
      PrefixOfTerminated(prefix, lines[i], eol);
    }
  }

  /** The three parts of a file section. */
  lemma SectionParts(git: bool, eol: string, f: FileEdit)
    requires Clean(f) && IsEol(eol)
    ensures FileSection(git, eol, f)
         == Terminated(HeaderLines(git, f), eol) + ["+++ " + (TargetName(f.target) + f.stamp) + eol]
            + Terminated(ScriptLines(f.base, f.script, 0, 0), eol)
  {
    var target := "+++ " + (TargetName(f.target) + f.stamp);
    TerminatedAppend(HeaderLines(git, f) + [target], ScriptLines(f.base, f.script, 0, 0), eol);
    TerminatedAppend(HeaderLines(git, f), [target], eol);
    assert [target][1..] == [];
    assert Terminated([target], eol) == [target + eol];
  }

  lemma SectionPrefixes(git: bool, eol: string, f: FileEdit)
    requires Clean(f) && IsEol(eol)
    ensures |Terminated(HeaderLines(git, f), eol)| == |HeaderLines(git, f)|
    ensures FirstWithPrefix("+++ ", FileSection(git, eol, f)) == Some(|HeaderLines(git, f)|)
    ensures FirstWithPrefix("--- ", FileSection(git, eol, f)).Some?
  {
    var headers := Terminated(HeaderLines(git, f), eol);
    var target := "+++ " + (TargetName(f.target) + f.stamp) + eol;
    var body := Terminated(ScriptLines(f.base, f.script, 0, 0), eol);
    assert "+++ " <= target;
    hide *;
    SectionParts(git, eol, f);
    HeaderLinesForm(git, f);
    Literals();
    PrefixesOfTerminated("+++ ", HeaderLines(git, f), eol);
    PrefixesOfTerminated("--- ", HeaderLines(git, f), eol);
    FirstWithPrefixAt("+++ ", headers, target, body);
    assert "--- " <= FileSection(git, eol, f)[|headers| - 1];
  }

  lemma ParsedFromParts(section: seq<string>, header: nat, path: string)
    requires FirstWithPrefix("+++ ", section) == Some(header) && FirstWithPrefix("--- ", section).Some?
    requires header < |section| && |section[header]| >= 4 && path != ""
    requires CleanPath(section[header][4..]) == path
    ensures var s := ScanLines(path, START, section[header + 1..]);
            ParseSection(section) == Ok((FileDiff(path, Flatten(section), s.lines), s.saw))
  {
    hide FirstWithPrefix, CleanPath, ScanLines, Flatten;
  }

  /** The scan of a rendered script leaves what is read of it. */
  lemma ReadScan(git: bool, eol: string, f: FileEdit)
    requires Clean(f) && IsEol(eol)
    ensures var s := ScriptScan(PathOf(f.target), START, f.base, f.script, 0, 0, eol);
            && s.saw == (HunkCount(f.script) > 0)
            && ReadFile(git, eol, f) == FileDiff(PathOf(f.target), FileText(git, eol, f), s.lines)
  {
    var path := PathOf(f.target);
    ScriptScanned(path, START, f.base, f.script, 0, 0, eol);
    hide ScriptScan, ScriptRead, CleanScript, Fits, FileText, HunkCount;
  }

  /** A rendered section parses to the path and the text of the file it was rendered from, and what is
      read of its script. */
  lemma SectionParsed(git: bool, eol: string, f: FileEdit)
    requires Clean(f) && IsEol(eol)
    ensures ParseSection(FileSection(git, eol, f)) == Ok((ReadFile(git, eol, f), HunkCount(f.script) > 0))
  {
    var section, headers := FileSection(git, eol, f), Terminated(HeaderLines(git, f), eol);
    var name := TargetName(f.target) + f.stamp;
    var body := Terminated(ScriptLines(f.base, f.script, 0, 0), eol);
    var path := PathOf(f.target);
    ReadScan(git, eol, f);
    assert ScriptScan(path, START, f.base, f.script, 0, 0, eol) == ScanLines(path, START, body);
    assert FileText(git, eol, f) == Flatten(section);
    assert Clean(f) ==> CleanTarget(f.target) && OneLine(f.stamp) && (f.stamp != "" ==> f.stamp[0] == '\t');
    hide *;
    SectionPrefixes(git, eol, f);
    SectionParts(git, eol, f);
    SectionPieces(headers, name, eol, body);
    CleanPathOf(f.target, f.stamp, eol);
    ParsedFromParts(section, |headers|, path);
  }

  lemma SectionPieces(headers: seq<string>, name: string, eol: string, body: seq<string>)
    ensures var section := headers + ["+++ " + name + eol] + body;
            && section[|headers|] == "+++ " + name + eol
            && section[|headers|][4..] == name + eol
            && section[|headers| + 1..] == body
  {
  }

  // ---- Finding the sections ----------------------------------------------------------------

  /** What a section starts with, and that no other of its lines starts a git-style one. */
  ghost predicate Front(git: bool, section: seq<string>) {
    if git then
      && section != [] && "diff --git " <= section[0]
      && forall k :: 1 <= k < |section| ==> !("diff --git " <= section[k])
    else
      && |section| >= 2 && "--- " <= section[0] && "+++ " <= section[1]
      && forall k :: 0 <= k < |section| ==> !("diff --git " <= section[k])
  }

  ghost predicate NoInnerPair(section: seq<string>) {
    forall k :: 1 <= k < |section| - 1 ==> !("--- " <= section[k] && "+++ " <= section[k + 1])
  }

  /** A section starts where its first line says so, and nowhere else. */
  ghost predicate Shape(git: bool, section: seq<string>) {
    Front(git, section) && (git || NoInnerPair(section))
  }

  function Offsets(at: nat, sections: seq<seq<string>>): seq<nat>
    decreases |sections|
  {
    if sections == [] then [] else [at] + Offsets(at + |sections[0]|, sections[1..])
  }

  lemma {:induction false} SkipNonStarts(git: bool, lines: seq<string>, i: nat, j: nat)
    requires i <= j <= |lines|
    requires forall k :: i <= k < j ==> !IsStart(git, lines, k)
    ensures StartsFrom(git, lines, i) == StartsFrom(git, lines, j)
    decreases j - i
  {
    hide *;
    if i < j {
      NoStartHere(git, lines, i);
      SkipNonStarts(git, lines, i + 1, j);
    }
  }

  lemma NoStartHere(git: bool, lines: seq<string>, i: nat)
    requires i < |lines| && !IsStart(git, lines, i)
    ensures StartsFrom(git, lines, i) == StartsFrom(git, lines, i + 1)
  {
    hide IsStart;
  }

  lemma StartsInSection(git: bool, before: seq<string>, section: seq<string>, after: seq<string>)
    requires Shape(git, section) && (!git && after != [] ==> !("+++ " <= after[0]))
    ensures var lines := before + section + after;
            && IsStart(git, lines, |before|)
            && forall k :: |before| + 1 <= k < |before| + |section| ==> !IsStart(git, lines, k)
  {
    var lines := before + section + after;
    assert forall k :: 0 <= k < |section| ==> lines[|before| + k] == section[k];
    forall k | |before| + 1 <= k < |before| + |section| ensures !IsStart(git, lines, k) {
      assert lines[k] == section[k - |before|];
      if k + 1 < |before| + |section| {
        assert lines[k + 1] == section[k + 1 - |before|];
      } else if after != [] {
        assert lines[k + 1] == after[0];
      }
    }
  }

  lemma FlattenHead(before: seq<string>, sections: seq<seq<string>>)
    requires sections != []
    ensures before + Flatten(sections) == before + sections[0] + Flatten(sections[1..])
  {
  }

  lemma {:induction false} StartsFound(git: bool, before: seq<string>, sections: seq<seq<string>>)
    requires forall k :: 0 <= k < |sections| ==> Shape(git, sections[k])
    ensures StartsFrom(git, before + Flatten(sections), |before|) == Offsets(|before|, sections)
    decreases |sections|
  {
    hide *;
    var lines := before + Flatten(sections);
    OffsetsHead(|before|, sections);
    if sections == [] {
      FlattenNone<string>();
      assert lines == before;
      NoStartAtEnd(git, lines);
    } else {
      var first, rest := sections[0], sections[1..];
      FlattenHead(before, sections);
      ShapeNonEmpty(git, first);
      NextSectionStart(git, rest);
      StartsInSection(git, before, first, Flatten(rest));
      StartHere(git, lines, |before|);
      SkipNonStarts(git, lines, |before| + 1, |before| + |first|);
      StartsFound(git, before + first, rest);
    }
  }

  lemma NoStartAtEnd(git: bool, lines: seq<string>)
    ensures StartsFrom(git, lines, |lines|) == []
  {
  }

  lemma StartHere(git: bool, lines: seq<string>, i: nat)
    requires i < |lines| && IsStart(git, lines, i)
    ensures StartsFrom(git, lines, i) == [i] + StartsFrom(git, lines, i + 1)
  {
    hide IsStart;
  }

  lemma OffsetsHead(at: nat, sections: seq<seq<string>>)
    ensures Offsets(at, sections) == if sections == [] then [] else [at] + Offsets(at + |sections[0]|, sections[1..])
  {
  }

  lemma NextSectionStart(git: bool, sections: seq<seq<string>>)
    requires forall k :: 0 <= k < |sections| ==> Shape(git, sections[k])
    ensures !git && Flatten(sections) != [] ==> !("+++ " <= Flatten(sections)[0])
  {
    if !git && sections != [] {
      assert Shape(git, sections[0]);
      assert Flatten(sections)[0] == sections[0][0] && sections[0][0][0] == '-';
    }
  }

  lemma FlattenNone<T>()
    ensures Flatten<T>([]) == []
  {
  }

  lemma ShapeNonEmpty(git: bool, section: seq<string>)
    requires Shape(git, section)
    ensures section != []
  {
  }

  lemma {:induction false} OffsetsCut(before: seq<string>, sections: seq<seq<string>>)
    requires forall k :: 0 <= k < |sections| ==> sections[k] != []
    ensures var lines := before + Flatten(sections); var starts := Offsets(|before|, sections);
            Increasing(starts, |lines|) && Sections(lines, starts) == sections
    decreases |sections|
  {
    hide Flatten;
    if sections == [] {
      FlattenNone<string>();
    } else {
      var lines, starts := before + Flatten(sections), Offsets(|before|, sections);
      var first, rest := sections[0], sections[1..];
      FlattenHead(before, sections);
      OffsetsCut(before + first, rest);
      OffsetsBounds(|before| + |first|, rest);
      assert starts[1..] == Offsets(|before + first|, rest);
      assert lines[|before|..|before| + |first|] == first;
      if |starts| == 1 {
        FlattenNone<string>();
        assert rest == [];
      }
    }
  }

  lemma {:induction false} OffsetsBounds(at: nat, sections: seq<seq<string>>)
    ensures forall k :: 0 <= k < |Offsets(at, sections)| ==> at <= Offsets(at, sections)[k]
    ensures sections != [] ==> Offsets(at, sections) != [] && Offsets(at, sections)[0] == at
    ensures |Offsets(at, sections)| == |sections|
    decreases |sections|
  {
    if sections != [] {
      OffsetsBounds(at + |sections[0]|, sections[1..]);
    }
  }

  lemma {:induction false} NoGitStarts(sections: seq<seq<string>>)
    requires forall k :: 0 <= k < |sections| ==> Front(false, sections[k])
    ensures forall i :: 0 <= i < |Flatten(sections)| ==> !("diff --git " <= Flatten(sections)[i])
  {
    if sections != [] {
      NoGitStarts(sections[1..]);
      assert Front(false, sections[0]);
    }
  }

  lemma SectionsFound(git: bool, sections: seq<seq<string>>)
    requires sections != [] && forall k :: 0 <= k < |sections| ==> Shape(git, sections[k])
    ensures var lines := Flatten(sections);
            SectionStarts(lines) != [] && Sections(lines, SectionStarts(lines)) == sections
  {
    hide *;
    var lines := Flatten(sections);
    forall k | 0 <= k < |sections| ensures sections[k] != [] {
      ShapeNonEmpty(git, sections[k]);
    }
    assert [] + lines == lines;
    StartsFound(git, [], sections);
    OffsetsCut([], sections);
    OffsetsBounds(0, sections);
    if !git {
      ShapesAreFronts(sections);
      NoGitStartLines(sections);
    }
    StartsChosen(git, lines, Offsets(0, sections));
  }

  lemma ShapesAreFronts(sections: seq<seq<string>>)
    requires forall k :: 0 <= k < |sections| ==> Shape(false, sections[k])
    ensures forall k :: 0 <= k < |sections| ==> Front(false, sections[k])
  {
    hide Front, NoInnerPair;
  }

  lemma NoGitStartLines(sections: seq<seq<string>>)
    requires forall k :: 0 <= k < |sections| ==> Front(false, sections[k])
    ensures StartsFrom(true, Flatten(sections), 0) == []
  {
    var lines := Flatten(sections);
    NoGitStarts(sections);
    hide Flatten, Front;
    SkipNonStarts(true, lines, 0, |lines|);
  }

  lemma StartsChosen(git: bool, lines: seq<string>, starts: seq<nat>)
    requires starts != [] && StartsFrom(git, lines, 0) == starts
    requires !git ==> StartsFrom(true, lines, 0) == []
    ensures SectionStarts(lines) == starts
  {
    hide StartsFrom;
  }

  /** No line that starts with "--- " stands right before one that starts with "+++ ". */
  ghost predicate PairFree(lines: seq<string>) {
    forall k :: 0 <= k < |lines| - 1 ==> !("--- " <= lines[k] && "+++ " <= lines[k + 1])
  }

  lemma PairFreeCons(line: string, rest: seq<string>)
    ensures PairFree([line] + rest) <==> PairFree(rest) && !(rest != [] && "--- " <= line && "+++ " <= rest[0])
  {
    var lines := [line] + rest;
    assert forall k :: 0 <= k < |rest| ==> lines[k + 1] == rest[k];
    if PairFree(lines) {
      forall k | 0 <= k < |rest| - 1 ensures !("--- " <= rest[k] && "+++ " <= rest[k + 1]) {
        assert !("--- " <= lines[k + 1] && "+++ " <= lines[k + 1 + 1]);
      }
      assert rest != [] ==> !("--- " <= lines[0] && "+++ " <= lines[0 + 1]);
    }
    if PairFree(rest) && !(rest != [] && "--- " <= line && "+++ " <= rest[0]) {
      forall k | 0 <= k < |lines| - 1 ensures !("--- " <= lines[k] && "+++ " <= lines[k + 1]) {
        if k > 0 {
          assert !("--- " <= rest[k - 1] && "+++ " <= rest[k - 1 + 1]);
        }
      }
    }
  }

  /** Where a hunk header or nothing follows, the parts can be looked at one by one. */
  lemma PairFreeAppend(a: seq<string>, b: seq<string>)
    requires b == [] || !("+++ " <= b[0])
    ensures PairFree(a + b) <==> PairFree(a) && PairFree(b)
  {
    hide PairFree;
    if PairFree(a + b) {
      PairFreeParts(a, b);
    }
    if PairFree(a) && PairFree(b) {
      PairFreeWhole(a, b);
    }
  }

  lemma PairFreeParts(a: seq<string>, b: seq<string>)
    requires PairFree(a + b)
    ensures PairFree(a) && PairFree(b)
  {
    var lines := a + b;
    forall k | 0 <= k < |a| - 1 ensures !("--- " <= a[k] && "+++ " <= a[k + 1]) {
      assert lines[k] == a[k] && lines[k + 1] == a[k + 1];
    }
    forall k | 0 <= k < |b| - 1 ensures !("--- " <= b[k] && "+++ " <= b[k + 1]) {
      assert lines[|a| + k] == b[k] && lines[|a| + k + 1] == b[k + 1];
    }
  }

  lemma PairFreeWhole(a: seq<string>, b: seq<string>)
    requires PairFree(a) && PairFree(b) && (b == [] || !("+++ " <= b[0]))
    ensures PairFree(a + b)
  {
    var lines := a + b;
    forall k | 0 <= k < |lines| - 1 ensures !("--- " <= lines[k] && "+++ " <= lines[k + 1]) {
      if k < |a| - 1 {
        assert lines[k] == a[k] && lines[k + 1] == a[k + 1];
      } else if k == |a| - 1 {
        assert lines[k + 1] == b[0];
      } else {
        var m := k - |a|;
        assert lines[k] == b[m] && lines[k + 1] == b[m + 1];
      }
    }
  }

  /** The first line of a hunk body that could be one of a pair of headers. */
  lemma HunkLineKind(base: seq<string>, ops: seq<Op>)
    requires ops != [] && |base| == OldCount(ops)
    ensures HunkLines(base, ops) != []
    ensures "--- " <= HunkLines(base, ops)[0] <==> ops[0].Delete? && "-- " <= base[0]
    ensures "+++ " <= HunkLines(base, ops)[0] <==> ops[0].Insert? && "++ " <= ops[0].text
  {
    var first := HunkLines(base, ops)[0];
    match ops[0] {
      case Keep => assert first == [' '] + base[0]; MarkedPrefixes(' ', base[0]);
      case Delete => assert first == ['-'] + base[0]; MarkedPrefixes('-', base[0]);
      case Insert(text) => assert first == ['+'] + text; MarkedPrefixes('+', text);
      case Marker => assert first[0] == '\\';
    }
  }

  lemma MarkedPrefixes(mark: char, text: string)
    ensures "--- " <= [mark] + text <==> mark == '-' && "-- " <= text
    ensures "+++ " <= [mark] + text <==> mark == '+' && "++ " <= text
  {
    MarkedPrefix(mark, '-', "-- ", text);
    MarkedPrefix(mark, '+', "++ ", text);
    assert ['-'] + "-- " == "--- " && ['+'] + "++ " == "+++ ";
  }

  lemma MarkedPrefix(mark: char, first: char, prefix: string, text: string)
    ensures [first] + prefix <= [mark] + text <==> mark == first && prefix <= text
  {
    var line, sought := [mark] + text, [first] + prefix;
    assert line[1..] == text && sought[1..] == prefix;
    if sought <= line {
      assert line[0] == sought[0] && text[..|prefix|] == line[1..|prefix| + 1];
    }
    if mark == first && prefix <= text {
      assert line[..|sought|] == [mark] + text[..|prefix|];
    }
  }

  /** The lines of a hunk hold no such pair if and only if it does not mimic headers. */
  lemma {:induction false} HunkPairFree(base: seq<string>, ops: seq<Op>)
    requires |base| == OldCount(ops) && CleanHunk(base, ops)
    ensures PairFree(HunkLines(base, ops)) <==> NoMimicry(base, ops)
    decreases |ops|
  {
    if ops != [] {
      var n := if ops[0].Keep? || ops[0].Delete? then 1 else 0;
      HunkHead(base, ops);
      HunkPairFree(base[n..], ops[1..]);
      PairFreeCons(HunkLines(base, ops)[0], HunkLines(base[n..], ops[1..]));
      HunkLineKind(base, ops);
      if |ops| > 1 {
        HunkLineKind(base[n..], ops[1..]);
      }
      assert base[0..] == base;
      hide HunkLines, PairFree, CleanHunk, OneLine;
    }
  }

  lemma ScriptStart(base: seq<string>, script: seq<Segment>, oldBefore: nat, newBefore: nat)
    requires Fits(base, script)
    ensures var lines := ScriptLines(base, script, oldBefore, newBefore);
            lines == [] || (lines[0] != "" && lines[0][0] == '@')
    decreases |script|
  {
    if script != [] {
      ScriptLinesHead(base, script, oldBefore, newBefore);
      if script[0].Unchanged? {
        var n := script[0].count;
        ScriptStart(base[n..], script[1..], oldBefore + n, newBefore + n);
      }
    }
  }

  lemma MimicryHead(base: seq<string>, script: seq<Segment>)
    requires script != [] && Fits(base, script)
    ensures var n := Consumed(script[0]);
            && n <= |base| && (script[0].Hunk? ==> n == OldCount(script[0].ops)) && (script[0].Unchanged? ==> n == script[0].count)
            && (NoMimicryScript(base, script) <==>
                (script[0].Hunk? ==> NoMimicry(base[..n], script[0].ops)) && NoMimicryScript(base[n..], script[1..]))
  {
    hide NoMimicry, OldCount;
  }

  lemma {:induction false} ScriptPairFree(base: seq<string>, script: seq<Segment>, oldBefore: nat, newBefore: nat)
    requires Fits(base, script) && CleanScript(base, script)
    ensures PairFree(ScriptLines(base, script, oldBefore, newBefore)) <==> NoMimicryScript(base, script)
    decreases |script|
  {
    if script == [] {
      assert ScriptLines(base, script, oldBefore, newBefore) == [];
    } else {
      ScriptPairFreeCons(base, script, oldBefore, newBefore);
    }
  }

  lemma {:induction false} ScriptPairFreeCons(base: seq<string>, script: seq<Segment>, oldBefore: nat, newBefore: nat)
    requires script != [] && Fits(base, script) && CleanScript(base, script)
    ensures PairFree(ScriptLines(base, script, oldBefore, newBefore)) <==> NoMimicryScript(base, script)
    decreases |script|, 0
  {
    hide *;
    var n := Consumed(script[0]);
    ScriptHead("", base, script, 0, 0);
    ScriptLinesHead(base, script, oldBefore, newBefore);
    MimicryHead(base, script);
    if script[0].Unchanged? {
      ScriptPairFree(base[n..], script[1..], oldBefore + n, newBefore + n);
    } else {
      var ops := script[0].ops;
      var m := NewCount(ops);
      var header, shown := HunkHeaderLine(oldBefore, n, newBefore, m, script[0].heading), HunkLines(base[..n], ops);
      var rest := ScriptLines(base[n..], script[1..], oldBefore + n, newBefore + m);
      HunkPairFree(base[..n], ops);
      ScriptPairFree(base[n..], script[1..], oldBefore + n, newBefore + m);
      ScriptStart(base[n..], script[1..], oldBefore + n, newBefore + m);
      HeaderStart(oldBefore, n, newBefore, m, script[0].heading);
      PairFreeAppend([header] + shown, rest);
      PairFreeCons(header, shown);
    }
  }

  lemma HeaderStart(oldBefore: nat, oldCount: nat, newBefore: nat, newCount: nat, heading: string)
    ensures var line := HunkHeaderLine(oldBefore, oldCount, newBefore, newCount, heading); line != "" && line[0] == '@'
  {
  }

  lemma PairFreeTerminated(lines: seq<string>, eol: string)
    requires IsEol(eol)
    ensures PairFree(Terminated(lines, eol)) <==> PairFree(lines)
  {
    hide *;
    Literals();
    PrefixesOfTerminated("--- ", lines, eol);
    PrefixesOfTerminated("+++ ", lines, eol);
    PairFreeAlike(lines, Terminated(lines, eol));
  }

  lemma PairFreeAlike(a: seq<string>, b: seq<string>)
    requires |a| == |b|
    requires forall i :: 0 <= i < |a| ==> ("--- " <= b[i] <==> "--- " <= a[i])
    requires forall i :: 0 <= i < |a| ==> ("+++ " <= b[i] <==> "+++ " <= a[i])
    ensures PairFree(b) <==> PairFree(a)
  {
  }

  /** A rendered section starts as one; and it is taken for one alone if and only if it is git-style or
      does not mimic headers. */
  lemma FileSectionShape(git: bool, eol: string, f: FileEdit)
    requires Clean(f) && IsEol(eol)
    ensures Front(git, FileSection(git, eol, f))
    ensures Shape(git, FileSection(git, eol, f)) <==> git || NoMimicryScript(f.base, f.script)
  {
    var headers := Terminated(HeaderLines(git, f), eol);
    var script := ScriptLines(f.base, f.script, 0, 0);
    var body := Terminated(script, eol);
    var target := "+++ " + (TargetName(f.target) + f.stamp) + eol;
    assert "+++ " <= target && target[0] == '+';
    assert !("--- " <= target) && !("diff --git " <= target);
    ScriptLinesForm(f.base, f.script, 0, 0);
    assert forall i :: 0 <= i < |script| ==> BodyLine(script[i]);
    assert forall i :: 0 <= i < |script| ==> script[i][0] != 'd';
    assert !git ==> |HeaderLines(git, f)| == 1;
    ScriptPairFree(f.base, f.script, 0, 0);
    hide HeaderLines, ScriptLines, OneLine, Terminated, FileSection, Clean, TargetName, BodyLines, BodyLine, PairFree, NoMimicryScript, Shape, Front;
    PairFreeTerminated(script, eol);
    HeaderLinesForm(git, f);
    SectionParts(git, eol, f);
    Literals();
    PrefixesOfTerminated("--- ", HeaderLines(git, f), eol);
    PrefixesOfTerminated("diff --git ", HeaderLines(git, f), eol);
    PrefixesOfTerminated("diff --git ", script, eol);
    ShapeOfParts(git, headers, target, body);
  }

  lemma ShapeOfParts(git: bool, headers: seq<string>, target: string, body: seq<string>)
    requires headers != []
    requires "+++ " <= target && !("--- " <= target) && !("diff --git " <= target)
    requires forall i :: 0 <= i < |body| ==> !("diff --git " <= body[i])
    requires forall i :: 0 < i < |headers| ==> !("diff --git " <= headers[i])
    requires "diff --git " <= headers[0] <==> git
    requires !git ==> |headers| == 1 && "--- " <= headers[0]
    ensures Front(git, headers + [target] + body)
    ensures Shape(git, headers + [target] + body) <==> git || PairFree(body)
  {
    var section := headers + [target] + body;
    assert forall i :: 0 <= i < |headers| ==> section[i] == headers[i];
    assert section[|headers|] == target;
    assert forall k :: |headers| < k < |section| ==> section[k] == body[k - |headers| - 1];
    if !git {
      InnerPairs(section, target, body);
    }
  }

  lemma InnerPairs(section: seq<string>, target: string, body: seq<string>)
    requires |section| == |body| + 2 && section[1] == target && !("--- " <= target)
    requires forall k :: 1 < k < |section| ==> section[k] == body[k - 2]
    ensures NoInnerPair(section) <==> PairFree(body)
  {
    if NoInnerPair(section) {
      forall k | 0 <= k < |body| - 1 ensures !("--- " <= body[k] && "+++ " <= body[k + 1]) {
        assert section[k + 2] == body[k] && section[k + 2 + 1] == body[k + 1];
      }
    }
    if PairFree(body) {
      forall k | 1 <= k < |section| - 1 ensures !("--- " <= section[k] && "+++ " <= section[k + 1]) {
        if k > 1 {
          assert !("--- " <= body[k - 2] && "+++ " <= body[k - 2 + 1]);
        }
      }
    }
  }

  // ---- The whole diff ----------------------------------------------------------------------

  function FileSections(git: bool, eol: string, files: seq<FileEdit>): (r: seq<seq<string>>)
    requires AllFit(files)
    ensures |r| == |files|
  {
    if files == [] then [] else [FileSection(git, eol, files[0])] + FileSections(git, eol, files[1..])
  }

  lemma {:induction false} FileSectionsAt(git: bool, eol: string, files: seq<FileEdit>, k: nat)
    requires AllFit(files)
    requires k < |files|
    ensures FileSections(git, eol, files)[k] == FileSection(git, eol, files[k])
  {
    hide FileSection, Fits;
    if k > 0 {
      FileSectionsAt(git, eol, files[1..], k - 1);
    }
  }

  lemma FileLinesOneLine(git: bool, f: FileEdit)
    requires Clean(f)
    ensures OneLines(FileLines(git, f))
  {
    HeaderLinesForm(git, f);
    TargetLineForm(f);
    ScriptLinesForm(f.base, f.script, 0, 0);
    hide HeaderLines, ScriptLines, OneLine, TargetName;
    assert OneLines(ScriptLines(f.base, f.script, 0, 0));
  }

  function AllLines(git: bool, files: seq<FileEdit>): seq<string>
    requires AllFit(files)
  {
    if files == [] then [] else FileLines(git, files[0]) + AllLines(git, files[1..])
  }

  lemma {:induction false} RenderedLines(git: bool, eol: string, files: seq<FileEdit>)
    requires AllClean(files)
    ensures OneLines(AllLines(git, files))
    ensures Flatten(FileSections(git, eol, files)) == Terminated(AllLines(git, files), eol)
    ensures Render(git, eol, files) == Flatten(Terminated(AllLines(git, files), eol))
  {
    if files != [] {
      RenderedLines(git, eol, files[1..]);
      FileLinesOneLine(git, files[0]);
      hide Clean, FileLines, OneLine;
      var first, rest := FileLines(git, files[0]), AllLines(git, files[1..]);
      TerminatedAppend(first, rest, eol);
      FlattenAppend(Terminated(first, eol), Terminated(rest, eol));
      FlattenCons(FileSection(git, eol, files[0]), FileSections(git, eol, files[1..]));
    }
  }

  lemma RenderedSplit(git: bool, eol: string, files: seq<FileEdit>)
    requires IsEol(eol) && AllClean(files)
    ensures SplitLines(Render(git, eol, files)) == Flatten(FileSections(git, eol, files))
  {
    hide *;
    RenderedLines(git, eol, files);
    SplitJoined(AllLines(git, files), eol);
  }

  lemma RenderedNotBlank(git: bool, eol: string, files: seq<FileEdit>)
    requires files != [] && IsEol(eol) && Clean(files[0])
    requires AllFit(files)
    ensures Render(git, eol, files) != "" && Strip(Render(git, eol, files)) != ""
  {
    var text := Render(git, eol, files);
    var lines := FileLines(git, files[0]);
    HeaderLinesForm(git, files[0]);
    assert lines[0] == HeaderLines(git, files[0])[0];
    assert lines[0] != "" && (lines[0][0] == 'd' || lines[0][0] == '-');
    assert text[0] == lines[0][0];
    hide Render, FileLines, HeaderLines, Clean, Fits;
    StripKeeps(text);
  }

  lemma StripKeeps(s: string)
    requires s != "" && !IsSpace(s[0])
    ensures Strip(s) != ""
  {
    TrailingKeeps(s);
  }

  ghost predicate SomeHunk(files: seq<FileEdit>) {
    exists i :: 0 <= i < |files| && HunkCount(files[i].script) > 0
  }

  lemma {:induction false} CollectOks(results: seq<Result<(FileDiff, bool), ParseError>>, files: seq<FileDiff>)
    requires |results| == |files|
    requires forall i :: 0 <= i < |files| ==> results[i].Ok? && results[i].value.0 == files[i]
    ensures Collect(results) == Ok((files, exists i :: 0 <= i < |results| && results[i].value.1))
  {
    if results != [] {
      var n := |results| - 1;
      CollectOks(results[..n], files[..n]);
      assert files == files[..n] + [files[n]];
      assert (exists i :: 0 <= i < |results| && results[i].value.1)
          == ((exists i :: 0 <= i < |results[..n]| && results[..n][i].value.1) || results[n].value.1) by {
        if i :| 0 <= i < |results[..n]| && results[..n][i].value.1 {
          assert results[i].value.1;
        }
        if i :| 0 <= i < |results| && results[i].value.1 {
          assert i == n || results[..n][i].value.1;
        }
      }
    }
  }

  /** The diff is git-style, or no file of it mimics the headers of another. */
  ghost predicate Separable(git: bool, files: seq<FileEdit>)
    requires AllFit(files)
  {
    git || forall i :: 0 <= i < |files| ==> NoMimicryScript(files[i].base, files[i].script)
  }

  /** For every list of files and edit scripts whose sections can be told apart: parsing the rendered
      diff returns exactly the paths in order, each with its own text and what is read of its
      script; a diff without any hunk is refused. */
  lemma ParseReadsRender(git: bool, eol: string, files: seq<FileEdit>)
    requires files != [] && IsEol(eol) && AllClean(files) && Separable(git, files)
    ensures Parse(Render(git, eol, files))
         == if SomeHunk(files) then Ok(ReadFiles(git, eol, files)) else Err(NoHunks)
  {
    var sections := FileSections(git, eol, files);
    hide *;
    assert files[0] in files;
    AllCleanAt(files);
    RenderedNotBlank(git, eol, files);
    RenderedSplit(git, eol, files);
    SectionsRead(git, eol, files, sections);
    SectionsFound(git, sections);
    CollectSections(git, eol, files, sections);
    ParseBySections(Render(git, eol, files), sections);
  }

  lemma SectionsRead(git: bool, eol: string, files: seq<FileEdit>, sections: seq<seq<string>>)
    requires IsEol(eol) && AllFit(files) && sections == FileSections(git, eol, files) && Separable(git, files)
    requires forall k :: 0 <= k < |files| ==> Clean(files[k]) && Fits(files[k].base, files[k].script)
    ensures |sections| == |files| && forall k :: 0 <= k < |sections| ==> Shape(git, sections[k])
    ensures forall k :: 0 <= k < |files| ==>
              ParseSection(sections[k]) == Ok((ReadFile(git, eol, files[k]), HunkCount(files[k].script) > 0))
  {
    SeparableAt(git, files);
    hide *;
    forall k | 0 <= k < |files|
      ensures Shape(git, sections[k])
      ensures ParseSection(sections[k]) == Ok((ReadFile(git, eol, files[k]), HunkCount(files[k].script) > 0))
    {
      FileSectionsAt(git, eol, files, k);
      FileSectionShape(git, eol, files[k]);
      SectionParsed(git, eol, files[k]);
    }
  }

  lemma SeparableAt(git: bool, files: seq<FileEdit>)
    requires AllFit(files) && Separable(git, files)
    ensures forall i :: 0 <= i < |files| && !git ==> Fits(files[i].base, files[i].script) && NoMimicryScript(files[i].base, files[i].script)
  {
    hide Fits, NoMimicryScript;
  }

  lemma AllCleanAt(files: seq<FileEdit>)
    requires AllClean(files)
    ensures forall k :: 0 <= k < |files| ==> Clean(files[k]) && Fits(files[k].base, files[k].script)
  {
    hide Fits, CleanScript, CleanTarget, OneLine;
    forall k | 0 <= k < |files| ensures Clean(files[k]) && Fits(files[k].base, files[k].script) {
      assert files[k] in files;
    }
  }

  lemma CollectSections(git: bool, eol: string, files: seq<FileEdit>, sections: seq<seq<string>>)
    requires AllFit(files) && |sections| == |files|
    requires forall k :: 0 <= k < |files| ==> Fits(files[k].base, files[k].script)
    requires forall k :: 0 <= k < |files| ==>
               ParseSection(sections[k]) == Ok((ReadFile(git, eol, files[k]), HunkCount(files[k].script) > 0))
    ensures Collect(ParseEach(sections)) == Ok((ReadFiles(git, eol, files), SomeHunk(files)))
  {
    hide ParseSection, ReadFile, HunkCount, Fits, Collect;
    var results := ParseEach(sections);
    CollectOks(results, ReadFiles(git, eol, files));
    assert forall i :: 0 <= i < |results| ==> results[i].value.1 == (HunkCount(files[i].script) > 0);
    assert (exists i :: 0 <= i < |results| && results[i].value.1) <==> SomeHunk(files);
  }

  lemma ParseBySections(diff: string, sections: seq<seq<string>>)
    requires diff != "" && Strip(diff) != ""
    requires SectionStarts(SplitLines(diff)) != []
    requires Sections(SplitLines(diff), SectionStarts(SplitLines(diff))) == sections
    requires Collect(ParseEach(sections)).Ok?
    ensures var parsed := Collect(ParseEach(sections)).value;
            Parse(diff) == if parsed.1 then Ok(parsed.0) else Err(NoHunks)
  {
    hide Strip, SectionStarts, SplitLines, Sections, Collect, ParseEach;
  }

  // ---- What the recorded lines mean --------------------------------------------------------

  /** `shown` lists exactly the lines of `patched` that lie in hunks, in order, each under its
      number in the patched file (`first` being the number of patched[0]), marked added exactly
      when the script inserted it. */
  ghost predicate Lists(path: string, shown: seq<NewFileLine>, patched: seq<PatchedLine>, first: nat) {
    && (forall e :: e in shown ==> Describes(path, e, patched, first))
    && (forall i :: 0 <= i < |patched| && !patched[i].origin.PassedOver? ==> exists e :: e in shown && e.line == first + i)
    && (forall i, j :: 0 <= i < j < |shown| ==> shown[i].line < shown[j].line)
  }

  ghost predicate Describes(path: string, e: NewFileLine, patched: seq<PatchedLine>, first: nat) {
    && e.path == path && first <= e.line < first + |patched|
    && var p := patched[e.line - first];
       e.content == p.text && !p.origin.PassedOver? && e.added == p.origin.Inserted? && e.hunk == p.hunk
  }

  lemma ShownHead(path: string, patched: seq<PatchedLine>, first: nat) returns (head: seq<NewFileLine>)
    requires patched != []
    ensures Shown(path, patched, first) == head + Shown(path, patched[1..], first + 1)
    ensures if patched[0].origin.PassedOver? then head == []
            else |head| == 1 && head[0].line == first && Describes(path, head[0], patched, first)
  {
    head := if patched[0].origin.PassedOver? then []
            else [NewFileLine(path, first, patched[0].text, patched[0].origin.Inserted?, patched[0].hunk)];
  }

  lemma {:induction false} ShownDescribes(path: string, patched: seq<PatchedLine>, first: nat, e: NewFileLine)
    requires e in Shown(path, patched, first)
    ensures Describes(path, e, patched, first)
    decreases |patched|
  {
    var head := ShownHead(path, patched, first);
    hide Shown;
    if e !in head {
      ShownDescribes(path, patched[1..], first + 1, e);
    }
  }

  lemma {:induction false} ShownReaches(path: string, patched: seq<PatchedLine>, first: nat, i: nat) returns (e: NewFileLine)
    requires i < |patched| && !patched[i].origin.PassedOver?
    ensures e in Shown(path, patched, first) && e.line == first + i
    decreases |patched|
  {
    var head := ShownHead(path, patched, first);
    hide Shown;
    if i == 0 {
      e := head[0];
    } else {
      e := ShownReaches(path, patched[1..], first + 1, i - 1);
    }
  }

  lemma {:induction false} ShownAscends(path: string, patched: seq<PatchedLine>, first: nat)
    ensures var shown := Shown(path, patched, first);
            forall i, j :: 0 <= i < j < |shown| ==> shown[i].line < shown[j].line
    decreases |patched|
  {
    if patched == [] {
      assert Shown(path, patched, first) == [];
    } else {
      var rest := Shown(path, patched[1..], first + 1);
      var head := ShownHead(path, patched, first);
      ShownAscends(path, patched[1..], first + 1);
      hide Shown;
      forall j | 0 <= j < |rest| ensures first < rest[j].line {
        ShownDescribes(path, patched[1..], first + 1, rest[j]);
      }
      assert Shown(path, patched, first) == head + rest;
    }
  }

  lemma ShownLists(path: string, patched: seq<PatchedLine>, first: nat)
    ensures Lists(path, Shown(path, patched, first), patched, first)
  {
    hide Shown, Describes;
    ShownAscends(path, patched, first);
    forall e | e in Shown(path, patched, first) ensures Describes(path, e, patched, first) {
      ShownDescribes(path, patched, first, e);
    }
    forall i | 0 <= i < |patched| && !patched[i].origin.PassedOver?
      ensures exists e :: e in Shown(path, patched, first) && e.line == first + i
    {
      var e := ShownReaches(path, patched, first, i);
    }
  }

  // ---- Exactly when parsing is sound -------------------------------------------------------

  /** All new-side lines of the file can be read, unless it is deleted and has none; and its lines are
      not taken for another file. */
  ghost predicate Sound(git: bool, f: FileEdit)
    requires Fits(f.base, f.script)
  {
    && (f.target.InTree? ==> ReadableScript(f.base, f.script))
    && (git || NoMimicryScript(f.base, f.script))
  }

  ghost predicate AllSound(git: bool, files: seq<FileEdit>)
    requires AllFit(files)
  {
    forall k :: 0 <= k < |files| ==> Sound(git, files[k])
  }

  lemma ReadIsExpectedIff(git: bool, eol: string, f: FileEdit)
    requires Fits(f.base, f.script)
    ensures ReadFile(git, eol, f) == ExpectedFile(git, eol, f) <==> (f.target.InTree? ==> ReadableScript(f.base, f.script))
  {
    if f.target.InTree? {
      ScriptReadIffReadable(f.target.path, f.base, f.script, 0, 0);
    }
    hide ScriptRead, Shown, ReadableScript, Fits, FileText, Patch;
  }

  lemma TerminatedSlice(lines: seq<string>, eol: string, i: nat, j: nat)
    requires i <= j <= |lines|
    ensures |Terminated(lines, eol)| == |lines| && Terminated(lines, eol)[i..j] == Terminated(lines[i..j], eol)
  {
    TerminatedAt(lines, eol);
    TerminatedAt(lines[i..j], eol);
  }

  /** Lines are determined by their text. */
  lemma SameLines(a: seq<string>, b: seq<string>, eol: string)
    requires OneLines(a) && OneLines(b) && IsEol(eol)
    requires Flatten(Terminated(a, eol)) == Flatten(Terminated(b, eol))
    ensures Terminated(a, eol) == Terminated(b, eol)
  {
    SplitJoined(a, eol);
    SplitJoined(b, eol);
  }

  lemma OneLinesCut(lines: seq<string>, i: nat, j: nat)
    requires OneLines(lines) && i <= j <= |lines|
    ensures OneLines(lines[i..j])
  {
  }

  lemma RawOfSection(section: seq<string>)
    requires ParseSection(section).Ok?
    ensures ParseSection(section).value.0.raw == Flatten(section)
  {
    hide FirstWithPrefix, CleanPath, ScanLines, Flatten;
  }

  /** Where section `k` of a diff begins and ends. */
  lemma SectionBounds(diff: string, k: nat) returns (i: nat, j: nat)
    requires k < |SectionsOf(diff)|
    ensures i <= j <= |SplitLines(diff)| && SectionsOf(diff)[k] == SplitLines(diff)[i..j]
    ensures |SectionStarts(SplitLines(diff))| == |SectionsOf(diff)| && i == SectionStarts(SplitLines(diff))[k]
    ensures j == if k + 1 < |SectionStarts(SplitLines(diff))| then SectionStarts(SplitLines(diff))[k + 1] else |SplitLines(diff)|
  {
    var lines := SplitLines(diff);
    var starts := SectionStarts(lines);
    hide SplitLines, IsStart, StartsFrom;
    SectionsAt(lines, starts, k);
    i, j := starts[k], if k + 1 < |starts| then starts[k + 1] else |lines|;
  }

  /** Parsing can give back the texts of the files only by cutting the diff where they meet. */
  lemma SectionForced(git: bool, eol: string, files: seq<FileEdit>, k: nat)
    requires IsEol(eol) && AllClean(files) && k < |files|
    requires Parse(Render(git, eol, files)) == Ok(ExpectedFiles(git, eol, files))
    ensures k < |SectionsOf(Render(git, eol, files))|
    ensures Clean(files[k]) && SectionsOf(Render(git, eol, files))[k] == FileSection(git, eol, files[k])
    ensures ParseSection(SectionsOf(Render(git, eol, files))[k]).Ok?
    ensures ParseSection(SectionsOf(Render(git, eol, files))[k]).value.0 == ExpectedFile(git, eol, files[k])
  {
    var diff, all := Render(git, eol, files), AllLines(git, files);
    var f := files[k];
    AllCleanAt(files);
    assert FileText(git, eol, f) == Flatten(FileSection(git, eol, f));
    assert FileSection(git, eol, f) == Terminated(FileLines(git, f), eol);
    assert ExpectedFile(git, eol, f).raw == FileText(git, eol, f);
    assert ExpectedFiles(git, eol, files)[k] == ExpectedFile(git, eol, f);
    hide *;
    ParsedAt(diff, k);
    RawOfSection(SectionsOf(diff)[k]);
    RenderedLines(git, eol, files);
    SplitJoined(all, eol);
    var i, j := SectionBounds(diff, k);
    TerminatedAt(all, eol);
    TerminatedSlice(all, eol, i, j);
    OneLinesCut(all, i, j);
    FileLinesOneLine(git, f);
    SameLines(all[i..j], FileLines(git, f), eol);
  }

  lemma {:induction false} StartsComplete(git: bool, lines: seq<string>, i: nat, p: nat)
    requires i <= p < |lines| && IsStart(git, lines, p)
    ensures p in StartsFrom(git, lines, i)
    decreases |lines| - i
  {
    hide IsStart;
    if i < p {
      StartsComplete(git, lines, i + 1, p);
    }
  }

  lemma BetweenStarts(starts: seq<nat>, k: nat, p: nat)
    requires forall i, j :: 0 <= i < j < |starts| ==> starts[i] < starts[j]
    requires k < |starts| && starts[k] < p && (k + 1 < |starts| ==> p < starts[k + 1])
    ensures p !in starts
  {
    forall m | 0 <= m < |starts| ensures starts[m] != p {
      assert m < k || m == k || m == k + 1 || k + 1 < m;
    }
  }

  /** A section cut out at two neighbouring starts holds none between them. */
  lemma NothingStartsWithin(lines: seq<string>, i: nat, j: nat, k: nat)
    requires SectionStarts(lines) == StartsFrom(false, lines, 0) && k < |SectionStarts(lines)|
    requires i == SectionStarts(lines)[k]
    requires j == if k + 1 < |SectionStarts(lines)| then SectionStarts(lines)[k + 1] else |lines|
    requires i <= j <= |lines|
    ensures NoInnerPair(lines[i..j])
  {
    hide StartsFrom, SectionStarts;
    var section := lines[i..j];
    forall q | 1 <= q < |section| - 1 ensures !("--- " <= section[q] && "+++ " <= section[q + 1]) {
      assert section[q] == lines[i + q] && section[q + 1] == lines[i + q + 1];
      BetweenStarts(StartsFrom(false, lines, 0), k, i + q);
      if IsStart(false, lines, i + q) {
        StartsComplete(false, lines, 0, i + q);
      }
    }
  }

  lemma SectionSeparate(eol: string, files: seq<FileEdit>, k: nat)
    requires files != [] && IsEol(eol) && AllClean(files) && k < |files|
    requires Parse(Render(false, eol, files)) == Ok(ExpectedFiles(false, eol, files))
    ensures Clean(files[k]) && NoMimicryScript(files[k].base, files[k].script)
  {
    hide *;
    var diff := Render(false, eol, files);
    SectionForced(false, eol, files, k);
    var i, j := SectionBounds(diff, k);
    AllCleanAt(files);
    var sections := FileSections(false, eol, files);
    forall m | 0 <= m < |sections| ensures Front(false, sections[m]) {
      FileSectionsAt(false, eol, files, m);
      FileSectionShape(false, eol, files[m]);
    }
    RenderedSplit(false, eol, files);
    NoGitStartLines(sections);
    PlainStarts(SplitLines(diff));
    NothingStartsWithin(SplitLines(diff), i, j, k);
    FileSectionShape(false, eol, files[k]);
    FrontIsShape(FileSection(false, eol, files[k]));
  }

  lemma PlainStarts(lines: seq<string>)
    requires StartsFrom(true, lines, 0) == []
    ensures SectionStarts(lines) == StartsFrom(false, lines, 0)
  {
    hide StartsFrom;
  }

  lemma FrontIsShape(section: seq<string>)
    requires Front(false, section) && NoInnerPair(section)
    ensures Shape(false, section)
  {
  }

  lemma SoundIfExpected(git: bool, eol: string, files: seq<FileEdit>, k: nat)
    requires files != [] && IsEol(eol) && AllClean(files) && k < |files|
    requires Parse(Render(git, eol, files)) == Ok(ExpectedFiles(git, eol, files))
    ensures Clean(files[k]) && Sound(git, files[k])
  {
    hide Parse, Render, Clean, ReadFile, ExpectedFile, ReadableScript, NoMimicryScript, SectionsOf, FileSection, AllClean, AllFit;
    SectionForced(git, eol, files, k);
    SectionParsed(git, eol, files[k]);
    FitsIfClean(files[k]);
    ReadIsExpectedIff(git, eol, files[k]);
    if !git {
      SectionSeparate(eol, files, k);
    }
  }

  lemma FitsIfClean(f: FileEdit)
    requires Clean(f)
    ensures Fits(f.base, f.script)
  {
  }

  lemma {:induction false} NothingToMimic(base: seq<string>, script: seq<Segment>)
    requires Fits(base, script) && HunkCount(script) == 0
    ensures NoMimicryScript(base, script)
    decreases |script|
  {
    if script != [] {
      NothingToMimic(base[Consumed(script[0])..], script[1..]);
    }
  }

  lemma NoHunksSeparable(git: bool, files: seq<FileEdit>)
    requires AllClean(files) && !SomeHunk(files)
    ensures Separable(git, files)
  {
    AllCleanAt(files);
    hide Clean, Fits, NoMimicryScript, HunkCount;
    forall i | 0 <= i < |files| ensures NoMimicryScript(files[i].base, files[i].script) {
      NothingToMimic(files[i].base, files[i].script);
    }
  }

  lemma SoundSeparable(git: bool, files: seq<FileEdit>)
    requires AllFit(files) && AllSound(git, files)
    ensures Separable(git, files)
  {
    hide NoMimicryScript, ReadableScript, Fits;
    forall i | 0 <= i < |files| && !git ensures NoMimicryScript(files[i].base, files[i].script) {
      assert Sound(git, files[i]);
    }
  }

  lemma SoundReadsExpected(git: bool, eol: string, files: seq<FileEdit>)
    requires AllClean(files) && AllSound(git, files)
    ensures ReadFiles(git, eol, files) == ExpectedFiles(git, eol, files)
  {
    AllCleanAt(files);
    hide Clean, Fits, ReadFile, ExpectedFile, ReadableScript, NoMimicryScript;
    forall i | 0 <= i < |files| ensures ReadFiles(git, eol, files)[i] == ExpectedFiles(git, eol, files)[i] {
      assert Sound(git, files[i]);
      ReadIsExpectedIff(git, eol, files[i]);
    }
  }

  /** Parser soundness, exactly. For every list of files and edit scripts, git-style or plain, with
      either line ending: parsing the rendered diff gives the paths in order, each with its own
      text and exactly the new-side hunk lines of the patched file, if and only if there is a hunk
      at all and every file is sound. Without a hunk the diff is refused. */
  lemma ParseOfRender(git: bool, eol: string, files: seq<FileEdit>)
    requires files != [] && IsEol(eol) && AllClean(files)
    ensures Parse(Render(git, eol, files)) == Ok(ExpectedFiles(git, eol, files)) <==> SomeHunk(files) && AllSound(git, files)
    ensures !SomeHunk(files) ==> Parse(Render(git, eol, files)) == Err(NoHunks)
  {
    hide Parse, Render, Clean, AllClean, AllFit, Separable, SomeHunk, Sound;
    if !SomeHunk(files) {
      NoHunksSeparable(git, files);
      ParseReadsRender(git, eol, files);
    } else if AllSound(git, files) {
      SoundSeparable(git, files);
      SoundReadsExpected(git, eol, files);
      ParseReadsRender(git, eol, files);
    } else if Parse(Render(git, eol, files)) == Ok(ExpectedFiles(git, eol, files)) {
      AllCleanAt(files);
      forall k | 0 <= k < |files| ensures Sound(git, files[k]) {
        SoundIfExpected(git, eol, files, k);
      }
    }
  }

  /** What can be relied on without looking into the hunks: whatever the contents of the lines, in a
      diff whose sections can be told apart, every recorded line of a file stands in the patched
      file under its number and with its text, marked added exactly if it was inserted; and they are
      all the new-side hunk lines if and only if the script is readable. Lines are lost, never
      misnumbered. */
  lemma ParsedLinesAreThePatch(git: bool, eol: string, files: seq<FileEdit>, k: nat)
    requires IsEol(eol) && AllClean(files) && SomeHunk(files) && Separable(git, files)
    requires k < |files| && files[k].target.InTree?
    ensures Parse(Render(git, eol, files)).Ok?
    ensures |Parse(Render(git, eol, files)).value| == |files|
    ensures var file := Parse(Render(git, eol, files)).value[k];
            && Clean(files[k]) && file.path == files[k].target.path
            && AllDescribed(file.path, file.lines, Patch(files[k].base, files[k].script, 0), 1)
            && (ReadableScript(files[k].base, files[k].script) <==>
                Lists(file.path, file.lines, Patch(files[k].base, files[k].script, 0), 1))
  {
    AllCleanAt(files);
    hide *;
    ParseReadsRender(git, eol, files);
    ReadFileAt(git, eol, files, k);
    ReadLists(files[k].target.path, files[k].base, files[k].script);
  }

  lemma ReadFileAt(git: bool, eol: string, files: seq<FileEdit>, k: nat)
    requires AllFit(files) && k < |files| && files[k].target.InTree? && Fits(files[k].base, files[k].script)
    ensures ReadFiles(git, eol, files)[k].path == files[k].target.path
    ensures ReadFiles(git, eol, files)[k].lines == ScriptRead(files[k].target.path, files[k].base, files[k].script, 0, 0)
  {
    hide Fits, AllFit, ScriptRead, FileText;
  }

  lemma ReadLists(path: string, base: seq<string>, script: seq<Segment>)
    requires Fits(base, script)
    ensures var read, patched := ScriptRead(path, base, script, 0, 0), Patch(base, script, 0);
            && AllDescribed(path, read, patched, 1)
            && (ReadableScript(base, script) <==> Lists(path, read, patched, 1))
  {
    var read, patched := ScriptRead(path, base, script, 0, 0), Patch(base, script, 0);
    var all := Shown(path, patched, 1);
    hide *;
    ScriptReadIffReadable(path, base, script, 0, 0);
    SelectionOf(read, all, ReadableScript(base, script));
    ShownLists(path, patched, 1);
    ShownIsDescribed(path, patched, 1);
    SelectionDescribed(path, read, all, patched, 1);
    if Lists(path, read, patched, 1) {
      ListedAll(path, read, all, patched, 1);
    }
  }

  lemma SelectionOf(read: seq<NewFileLine>, all: seq<NewFileLine>, whole: bool)
    requires SelectsIf(read, all, whole)
    ensures (read == all <==> whole) && SelectsIf(read, all, read == all)
  {
  }

  ghost predicate AllDescribed(path: string, lines: seq<NewFileLine>, patched: seq<PatchedLine>, first: nat) {
    forall e :: e in lines ==> Describes(path, e, patched, first)
  }

  lemma ShownIsDescribed(path: string, patched: seq<PatchedLine>, first: nat)
    ensures AllDescribed(path, Shown(path, patched, first), patched, first)
  {
    forall e | e in Shown(path, patched, first) ensures Describes(path, e, patched, first) {
      ShownDescribes(path, patched, first, e);
    }
  }

  lemma SelectionDescribed(path: string, read: seq<NewFileLine>, all: seq<NewFileLine>, patched: seq<PatchedLine>, first: nat)
    requires AllDescribed(path, all, patched, first)
    ensures SelectsIf(read, all, read == all) ==> AllDescribed(path, read, patched, first)
  {
    hide Describes;
  }

  /** Two lists of the same lines are equal. */
  lemma ListedAll(path: string, a: seq<NewFileLine>, b: seq<NewFileLine>, patched: seq<PatchedLine>, first: nat)
    requires Lists(path, a, patched, first) && Lists(path, b, patched, first)
    ensures a == b
  {
    forall e ensures e in a <==> e in b {
      if e in a { ListedIn(path, a, b, patched, first, e); }
      if e in b { ListedIn(path, b, a, patched, first, e); }
    }
    assert Ascends(a) && Ascends(b);
    hide Lists;
    AscendingSame(a, b);
  }

  lemma ListedIn(path: string, a: seq<NewFileLine>, b: seq<NewFileLine>, patched: seq<PatchedLine>, first: nat, e: NewFileLine)
    requires Lists(path, a, patched, first) && Lists(path, b, patched, first) && e in a
    ensures e in b
  {
    assert Describes(path, e, patched, first);
    DescribedIsShown(path, e, patched, first);
    hide Describes;
    var g :| g in b && g.line == first + (e.line - first);
    assert Describes(path, g, patched, first);
    DescribedSame(path, e, g, patched, first);
  }

  lemma DescribedIsShown(path: string, e: NewFileLine, patched: seq<PatchedLine>, first: nat)
    requires Describes(path, e, patched, first)
    ensures 0 <= e.line - first < |patched| && !patched[e.line - first].origin.PassedOver?
  {
  }

  lemma DescribedSame(path: string, e: NewFileLine, g: NewFileLine, patched: seq<PatchedLine>, first: nat)
    requires Describes(path, e, patched, first) && Describes(path, g, patched, first) && e.line == g.line
    ensures e == g
  {
  }

  ghost predicate Ascends(lines: seq<NewFileLine>) {
    forall i, j :: 0 <= i < j < |lines| ==> lines[i].line < lines[j].line
  }

  lemma FirstIsIn(a: seq<NewFileLine>, b: seq<NewFileLine>)
    requires a != [] && forall e :: e in a ==> e in b
    ensures b != []
  {
    assert a[0] in b;
  }

  lemma SameEmptiness(a: seq<NewFileLine>, b: seq<NewFileLine>)
    requires forall e :: e in a <==> e in b
    ensures a == [] <==> b == []
  {
    if a != [] { FirstIsIn(a, b); }
    if b != [] { FirstIsIn(b, a); }
  }

  lemma {:induction false} AscendingSame(a: seq<NewFileLine>, b: seq<NewFileLine>)
    requires Ascends(a) && Ascends(b) && forall e :: e in a <==> e in b
    ensures a == b
    decreases |a|
  {
    if a == [] || b == [] {
      SameEmptiness(a, b);
    } else {
      assert a[0] in b;
      assert b[0] in a;
      assert a[0] == b[0];
      forall e ensures e in a[1..] <==> e in b[1..] {
        if e in a[1..] { assert e in b && e != a[0]; }
        if e in b[1..] { assert e in a && e != b[0]; }
      }
      AscendingSame(a[1..], b[1..]);
    }
  }
}
