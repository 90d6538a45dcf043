/** Parsing a rendered diff gives back the paths and, for every file, exactly the new-side lines of
    its hunks, each under the number it has in the patched file. */
module ParserSoundness {
  import opened Wrappers
  import opened Text
  import opened Parser
  import opened HunkHeader
  import opened UnifiedDiff

  // ---- What the parser should return -------------------------------------------------------

  /** The lines of `lines` that lie in hunks, `lines[0]` having number `first` in the new file. */
  function Shown(path: string, lines: seq<PatchedLine>, first: nat): seq<NewFileLine> {
    if lines == [] then []
    else
      (if lines[0].origin.PassedOver? then []
       else [NewFileLine(path, first, lines[0].text, lines[0].origin.Inserted?, lines[0].hunk)])
      + Shown(path, lines[1..], first + 1)
  }

  function PathOf(target: Target): string {
    match target case InTree(path, _) => path case Removed => DEV_NULL
  }

  function ExpectedFile(git: bool, eol: string, f: FileEdit): FileDiff
    requires Fits(f.base, f.script)
  {
    FileDiff(PathOf(f.target), FileText(git, eol, f),
             if f.target.InTree? then Shown(f.target.path, Patch(f.base, f.script, 0), 1) else [])
  }

  function ExpectedFiles(git: bool, eol: string, files: seq<FileEdit>): (r: seq<FileDiff>)
    requires AllFit(files)
    ensures |r| == |files|
  {
    seq(|files|, i requires 0 <= i < |files| => ExpectedFile(git, eol, files[i]))
  }

  // ---- What the parser does return ---------------------------------------------------------

  /** What is read of the new side of a hunk: all before the first inserted text that starts with
      "++" or deleted text that starts with "--". */
  function HunkRead(base: seq<string>, ops: seq<Op>, hunk: int): seq<PatchedLine>
    requires |base| == OldCount(ops)
  {
    if ops == [] then []
    else match ops[0]
      case Keep => [PatchedLine(base[0], Kept, hunk)] + HunkRead(base[1..], ops[1..], hunk)
      case Delete => if "--" <= base[0] then [] else HunkRead(base[1..], ops[1..], hunk)
      case Insert(text) => if "++" <= text then [] else [PatchedLine(text, Inserted, hunk)] + HunkRead(base, ops[1..], hunk)
      case Marker => HunkRead(base, ops[1..], hunk)
  }

  /** Such a line occurs in the hunk. */
  predicate Breaks(base: seq<string>, ops: seq<Op>)
    requires |base| == OldCount(ops)
  {
    ops != [] &&
    match ops[0]
    case Keep => Breaks(base[1..], ops[1..])
    case Delete => "--" <= base[0] || Breaks(base[1..], ops[1..])
    case Insert(text) => "++" <= text || Breaks(base, ops[1..])
    case Marker => Breaks(base, ops[1..])
  }

  /** The lines read of a script whose first segment starts after `newBefore` lines of the new file. */
  function ScriptRead(path: string, base: seq<string>, script: seq<Segment>, hunk: int, newBefore: nat): seq<NewFileLine>
    requires Fits(base, script)
    decreases |script|
  {
    if script == [] then []
    else
      var n := Consumed(script[0]);
      match script[0]
      case Unchanged(_) => ScriptRead(path, base[n..], script[1..], hunk, newBefore + n)
      case Hunk(ops, _) =>
        Shown(path, HunkRead(base[..n], ops, hunk), newBefore + 1)
        + ScriptRead(path, base[n..], script[1..], hunk + 1, newBefore + NewCount(ops))
  }

  function ReadFile(git: bool, eol: string, f: FileEdit): FileDiff
    requires Fits(f.base, f.script)
  {
    FileDiff(PathOf(f.target), FileText(git, eol, f),
             if f.target.InTree? then ScriptRead(f.target.path, f.base, f.script, 0, 0) else [])
  }

  function ReadFiles(git: bool, eol: string, files: seq<FileEdit>): (r: seq<FileDiff>)
    requires AllFit(files)
    ensures |r| == |files|
  {
    seq(|files|, i requires 0 <= i < |files| => ReadFile(git, eol, files[i]))
  }

  // ---- Prefixes and line ends --------------------------------------------------------------

  lemma PrefixOfTerminated(prefix: string, line: string, eol: string)
    requires OneLine(prefix) && IsEol(eol)
    ensures prefix <= line + eol <==> prefix <= line
  {
    var whole := line + eol;
    assert whole[|line|] == eol[0];
    if |prefix| <= |line| {
      assert whole[..|prefix|] == line[..|prefix|];
    } else {
      assert !IsLineBreak(prefix[|line|]);
    }
  }

  lemma OneLineParts(a: string, b: string)
    requires OneLine(a) && OneLine(b)
    ensures OneLine(a + b)
  {
  }

  lemma OneLineDecimal(n: nat)
    ensures OneLine(Decimal(n))
  {
    var s := Decimal(n);
    forall i | 0 <= i < |s| ensures !IsLineBreak(s[i]) {
      assert IsDigit(s[i]);
    }
  }

  // ---- Hunk headers ------------------------------------------------------------------------

  function PartsOf(oldBefore: nat, oldCount: nat, newBefore: nat, newCount: nat, tail: string): Parts {
    Parts(" ", Decimal(RangeStart(oldBefore, oldCount)), RangeCount(oldCount),
          " ", Decimal(RangeStart(newBefore, newCount)), RangeCount(newCount), " ", tail)
  }

  lemma RangeCountForm(count: nat)
    ensures OptionalCount(RangeCount(count)) && OneLine(RangeCount(count))
  {
    OneLineDecimal(count);
    if count != 1 {
      assert ("," + Decimal(count))[1..] == Decimal(count);
    }
  }

  lemma HeaderLineSpelled(oldBefore: nat, oldCount: nat, newBefore: nat, newCount: nat, heading: string, eol: string)
    ensures HunkHeaderLine(oldBefore, oldCount, newBefore, newCount, heading) + eol
         == Spell(PartsOf(oldBefore, oldCount, newBefore, newCount, heading + eol))
  {
    var a, b := Decimal(RangeStart(oldBefore, oldCount)), RangeCount(oldCount);
    var c, d := Decimal(RangeStart(newBefore, newCount)), RangeCount(newCount);
    Reassociate(a, b, c, d, heading, eol);
  }

  lemma Reassociate(a: string, b: string, c: string, d: string, heading: string, eol: string)
    ensures "@@ -" + a + b + " +" + c + d + " @@" + heading + eol
         == "@@" + (" " + "-" + (a + b + (" " + "+" + (c + d + (" " + "@@" + (heading + eol))))))
  {
    assert "@@ -" == "@@" + " " + "-" && " +" == " " + "+" && " @@" == " " + "@@";
  }

  /** A written header reads back as the number of the hunk's first new line. */
  lemma HeaderReadBack(oldBefore: nat, oldCount: nat, newBefore: nat, newCount: nat, heading: string, eol: string)
    ensures HunkStart(HunkHeaderLine(oldBefore, oldCount, newBefore, newCount, heading) + eol)
         == Some(RangeStart(newBefore, newCount))
  {
    var p := PartsOf(oldBefore, oldCount, newBefore, newCount, heading + eol);
    HeaderLineSpelled(oldBefore, oldCount, newBefore, newCount, heading, eol);
    RangeCountForm(oldCount);
    RangeCountForm(newCount);
    HeaderRecognised(p);
    ValueOfDecimal(RangeStart(newBefore, newCount));
  }

  // ---- Hunk bodies -------------------------------------------------------------------------

  lemma NoHeader(line: string)
    requires line != "" && line[0] != '@'
    ensures HunkStart(line) == None
  {
  }

  lemma OpLineScanned(path: string, s: Scan, mark: char, text: string, eol: string)
    requires mark in "+- " && s.current.Some? && OneLine(text) && IsEol(eol)
    requires mark == '+' ==> !("++" <= text)
    requires mark == '-' ==> !("--" <= text)
    ensures ScanLine(path, s, [mark] + text + eol) == if mark == '-' then s else Record(path, s, text, mark == '+')
  {
    hide HunkStart, Record, StripEol, IsSpace;
    var line := [mark] + text + eol;
    NoHeader(line);
    assert line[0] == mark && line[1..] == text + eol;
    StripEolOf(text, eol);
    PrefixOfTerminated("++", text, eol);
    PrefixOfTerminated("--", text, eol);
    OpLineKind(path, s, line);
  }

  lemma OpLineKind(path: string, s: Scan, line: string)
    requires line != "" && line[0] in "+- " && s.current.Some?
    requires line[0] == '+' ==> !("++" <= line[1..])
    requires line[0] == '-' ==> !("--" <= line[1..])
    ensures ScanLineAs(path, s, line, None)
         == if line[0] == '-' then s else Record(path, s, StripEol(line[1..]), line[0] == '+')
  {
    assert line == [line[0]] + line[1..];
  }

  /** Where the parser does not meet its purpose, and exactly where: an added line is recorded if
      and only if its text does not start with "++"; otherwise nothing is recorded and the rest of
      the hunk is lost, since the line number is forgotten. */
  lemma AddedLineRecordedIff(path: string, s: Scan, text: string, eol: string)
    requires s.current.Some? && OneLine(text) && IsEol(eol)
    ensures ScanLine(path, s, "+" + text + eol) == Record(path, s, text, true) <==> !("++" <= text)
    ensures "++" <= text ==> ScanLine(path, s, "+" + text + eol) == s.(current := None)
  {
    hide HunkStart, StripEol, IsSpace, IsLineBreak;
    var line := "+" + text + eol;
    if "++" <= text {
      NoHeader(line);
      assert "+++" <= line by { assert line[1] == text[0] && line[2] == text[1]; }
    } else {
      OpLineScanned(path, s, '+', text, eol);
      assert line == ['+'] + text + eol;
    }
  }

  /** Likewise a deleted line leaves the numbering alone if and only if its text does not start
      with "--". */
  lemma DeletedLineSkippedIff(path: string, s: Scan, text: string, eol: string)
    requires s.current.Some? && OneLine(text) && IsEol(eol)
    ensures ScanLine(path, s, "-" + text + eol) == s <==> !("--" <= text)
    ensures "--" <= text ==> ScanLine(path, s, "-" + text + eol) == s.(current := None)
  {
    hide HunkStart, StripEol, IsSpace, IsLineBreak;
    var line := "-" + text + eol;
    if "--" <= text {
      NoHeader(line);
      assert "---" <= line by { assert line[1] == text[0] && line[2] == text[1]; }
    } else {
      OpLineScanned(path, s, '-', text, eol);
      assert line == ['-'] + text + eol;
    }
  }

  /** The first rendered line of a hunk body moves the state machine like the operation it shows,
      unless it reads as a header: then the line number is forgotten. */
  ghost function OpEffect(path: string, s: Scan, base: seq<string>, op: Op): Scan
    requires s.current.Some? && (op.Keep? || op.Delete? ==> base != [])
  {
    match op
    case Keep => Record(path, s, base[0], false)
    case Insert(text) => if "++" <= text then s.(current := None) else Record(path, s, text, true)
    case Delete => if "--" <= base[0] then s.(current := None) else s
    case Marker => s
  }

  lemma MarkerScanned(path: string, s: Scan, eol: string)
    ensures ScanLine(path, s, NO_NEWLINE + eol) == s
  {
    hide HunkStart;
    NoHeader(NO_NEWLINE + eol);
  }

  lemma OpScanned(path: string, s: Scan, base: seq<string>, ops: seq<Op>, eol: string)
    requires ops != [] && |base| == OldCount(ops) && CleanHunk(base, ops) && IsEol(eol)
    requires s.current.Some?
    ensures ScanLine(path, s, HunkLines(base, ops)[0] + eol) == OpEffect(path, s, base, ops[0])
  {
    hide HunkStart, Record, ScanLine, ScanLineAs, IsLineBreak;
    var first := HunkLines(base, ops)[0] + eol;
    match ops[0] {
      case Keep =>
        OpLineScanned(path, s, ' ', base[0], eol);
        assert first == [' '] + base[0] + eol;
      case Delete => DeletedLineSkippedIff(path, s, base[0], eol);
      case Insert(text) => AddedLineRecordedIff(path, s, text, eol);
      case Marker => MarkerScanned(path, s, eol);
    }
  }

  /** What scanning `lines` from number `first` adds to the recorded lines. */
  function Recorded(path: string, lines: seq<PatchedLine>, first: nat): seq<NewFileLine> {
    if path != DEV_NULL then Shown(path, lines, first) else []
  }

  lemma RecordThenRest(path: string, s: Scan, line: PatchedLine, rest: seq<PatchedLine>)
    requires s.current.Some? && !line.origin.PassedOver? && line.hunk == s.hunk
    ensures Record(path, s, line.text, line.origin.Inserted?).lines + Recorded(path, rest, s.current.value + 1)
         == s.lines + Recorded(path, [line] + rest, s.current.value)
  {
    assert ([line] + rest)[1..] == rest;
  }

  /** The scan of a hunk from `s`. */
  ghost function HunkEnd(path: string, s: Scan, base: seq<string>, ops: seq<Op>): Scan
    requires |base| == OldCount(ops) && s.current.Some?
  {
    Scan(if Breaks(base, ops) then None else Some(s.current.value + NewCount(ops)), s.hunk,
         s.lines + Recorded(path, HunkRead(base, ops, s.hunk), s.current.value), s.saw)
  }

  /** A hunk taken apart at its first operation. */
  lemma ReadHead(base: seq<string>, ops: seq<Op>, hunk: int)
    requires ops != [] && |base| == OldCount(ops)
    ensures var n := if ops[0].Keep? || ops[0].Delete? then 1 else 0;
            && n <= |base| && |base[n..]| == OldCount(ops[1..])
            && NewCount(ops) == NewCount(ops[1..]) + (if ops[0].Keep? || ops[0].Insert? then 1 else 0)
    ensures ops[0].Keep? ==>
              && HunkRead(base, ops, hunk) == [PatchedLine(base[0], Kept, hunk)] + HunkRead(base[1..], ops[1..], hunk)
              && Breaks(base, ops) == Breaks(base[1..], ops[1..])
    ensures ops[0].Insert? ==>
              && HunkRead(base, ops, hunk) == (if "++" <= ops[0].text then []
                                               else [PatchedLine(ops[0].text, Inserted, hunk)] + HunkRead(base[0..], ops[1..], hunk))
              && Breaks(base, ops) == ("++" <= ops[0].text || Breaks(base[0..], ops[1..]))
    ensures ops[0].Delete? ==>
              && HunkRead(base, ops, hunk) == (if "--" <= base[0] then [] else HunkRead(base[1..], ops[1..], hunk))
              && Breaks(base, ops) == ("--" <= base[0] || Breaks(base[1..], ops[1..]))
    ensures ops[0].Marker? ==>
              && HunkRead(base, ops, hunk) == HunkRead(base[0..], ops[1..], hunk)
              && Breaks(base, ops) == Breaks(base[0..], ops[1..])
  {
    assert base[0..] == base;
  }

  lemma EffectThenRest(path: string, s: Scan, base: seq<string>, ops: seq<Op>)
    requires ops != [] && |base| == OldCount(ops) && s.current.Some?
    ensures var t := OpEffect(path, s, base, ops[0]);
            var n := if ops[0].Keep? || ops[0].Delete? then 1 else 0;
            && |base[n..]| == OldCount(ops[1..])
            && HunkEnd(path, s, base, ops) == if t.current.None? then t else HunkEnd(path, t, base[n..], ops[1..])
  {
    hide *;
    ReadHead(base, ops, s.hunk);
    var n := if ops[0].Keep? || ops[0].Delete? then 1 else 0;
    var t := OpEffect(path, s, base, ops[0]);
    EffectOf(path, s, base, ops[0]);
    if t.current.None? {
      EndBroken(path, s, base, ops);
    } else if ops[0].Keep? {
      EndRecord(path, s, base, ops, PatchedLine(base[0], Kept, s.hunk), base[1..]);
    } else if ops[0].Insert? {
      EndRecord(path, s, base, ops, PatchedLine(ops[0].text, Inserted, s.hunk), base[0..]);
    } else {
      EndSame(path, s, base, ops, base[n..]);
    }
  }

  lemma EffectOf(path: string, s: Scan, base: seq<string>, op: Op)
    requires s.current.Some? && (op.Keep? || op.Delete? ==> base != [])
    ensures var t := OpEffect(path, s, base, op);
            && (op.Keep? ==> t == Record(path, s, base[0], false) && t.current.Some?)
            && (op.Insert? && !("++" <= op.text) ==> t == Record(path, s, op.text, true) && t.current.Some?)
            && (op.Delete? && !("--" <= base[0]) ==> t == s) && (op.Marker? ==> t == s)
            && (t.current.None? ==> t == s.(current := None))
            && (t.current.None? <==> (op.Insert? && "++" <= op.text) || (op.Delete? && "--" <= base[0]))
  {
  }

  lemma EndBroken(path: string, s: Scan, base: seq<string>, ops: seq<Op>)
    requires |base| == OldCount(ops) && s.current.Some? && HunkRead(base, ops, s.hunk) == [] && Breaks(base, ops)
    ensures HunkEnd(path, s, base, ops) == s.(current := None)
  {
    hide HunkRead, Breaks, OldCount, NewCount;
    assert Recorded(path, [], s.current.value) == [] && s.lines + [] == s.lines;
  }

  lemma EndRecord(path: string, s: Scan, base: seq<string>, ops: seq<Op>, line: PatchedLine, rest: seq<string>)
    requires ops != [] && |base| == OldCount(ops) && s.current.Some? && |rest| == OldCount(ops[1..])
    requires HunkRead(base, ops, s.hunk) == [line] + HunkRead(rest, ops[1..], s.hunk)
    requires Breaks(base, ops) == Breaks(rest, ops[1..]) && NewCount(ops) == NewCount(ops[1..]) + 1
    requires !line.origin.PassedOver? && line.hunk == s.hunk
    ensures Record(path, s, line.text, line.origin.Inserted?).current.Some?
    ensures HunkEnd(path, s, base, ops) == HunkEnd(path, Record(path, s, line.text, line.origin.Inserted?), rest, ops[1..])
  {
    hide HunkRead, Breaks, OldCount, NewCount, Recorded;
    RecordThenRest(path, s, line, HunkRead(rest, ops[1..], s.hunk));
  }

  lemma EndSame(path: string, s: Scan, base: seq<string>, ops: seq<Op>, rest: seq<string>)
    requires ops != [] && |base| == OldCount(ops) && s.current.Some? && |rest| == OldCount(ops[1..])
    requires HunkRead(base, ops, s.hunk) == HunkRead(rest, ops[1..], s.hunk)
    requires Breaks(base, ops) == Breaks(rest, ops[1..]) && NewCount(ops) == NewCount(ops[1..])
    ensures HunkEnd(path, s, base, ops) == HunkEnd(path, s, rest, ops[1..])
  {
    hide HunkRead, Breaks, OldCount, NewCount, Recorded;
  }

  lemma ScanCons(path: string, s: Scan, line: string, rest: seq<string>, eol: string)
    ensures ScanLines(path, s, Terminated([line] + rest, eol))
         == ScanLines(path, ScanLine(path, s, line + eol), Terminated(rest, eol))
  {
    hide ScanLine;
    assert ([line] + rest)[1..] == rest;
  }

  lemma HunkHead(base: seq<string>, ops: seq<Op>)
    requires ops != [] && |base| == OldCount(ops) && CleanHunk(base, ops)
    ensures var n := if ops[0].Keep? || ops[0].Delete? then 1 else 0;
            && n <= |base| && |base[n..]| == OldCount(ops[1..])
            && CleanHunk(base[n..], ops[1..]) && (n == 1 ==> OneLine(base[0])) && (ops[0].Insert? ==> OneLine(ops[0].text))
            && HunkLines(base, ops) != []
            && HunkLines(base, ops) == [HunkLines(base, ops)[0]] + HunkLines(base[n..], ops[1..])
            && HunkLines(base, ops)[0] != "" && HunkLines(base, ops)[0][0] in "+- \\"
  {
    assert base[0..] == base;
  }

  /** Once the line number is forgotten, the rest of the hunk is passed over. */
  lemma {:induction false} RestOfHunkLost(path: string, s: Scan, base: seq<string>, ops: seq<Op>, eol: string)
    requires |base| == OldCount(ops) && CleanHunk(base, ops) && IsEol(eol)
    requires s.current.None?
    ensures ScanLines(path, s, Terminated(HunkLines(base, ops), eol)) == s
    decreases |ops|
  {
    hide HunkStart, CleanHunk, IsLineBreak;
    if ops != [] {
      var n := if ops[0].Keep? || ops[0].Delete? then 1 else 0;
      HunkHead(base, ops);
      var first := HunkLines(base, ops)[0];
      NoHeader(first + eol);
      ScanCons(path, s, first, HunkLines(base[n..], ops[1..]), eol);
      RestOfHunkLost(path, s, base[n..], ops[1..], eol);
      hide HunkLines, ScanLines;
    }
  }

  /** Scanning a written hunk records exactly what is read of it: the new side up to the first line
      that reads as a header, and nothing of what follows in the hunk. */
  lemma {:induction false} HunkScanned(path: string, s: Scan, base: seq<string>, ops: seq<Op>, eol: string)
    requires |base| == OldCount(ops) && CleanHunk(base, ops) && IsEol(eol)
    requires s.current.Some?
    ensures ScanLines(path, s, Terminated(HunkLines(base, ops), eol)) == HunkEnd(path, s, base, ops)
    decreases |ops|, 1
  {
    if ops == [] {
      assert s.lines + [] == s.lines;
    } else {
      HunkScannedCons(path, s, base, ops, eol);
    }
  }

  lemma {:induction false} HunkScannedCons(path: string, s: Scan, base: seq<string>, ops: seq<Op>, eol: string)
    requires ops != [] && |base| == OldCount(ops) && CleanHunk(base, ops) && IsEol(eol)
    requires s.current.Some?
    ensures ScanLines(path, s, Terminated(HunkLines(base, ops), eol)) == HunkEnd(path, s, base, ops)
    decreases |ops|, 0
  {
    hide *;
    var n := if ops[0].Keep? || ops[0].Delete? then 1 else 0;
    HunkHead(base, ops);
    OpScanned(path, s, base, ops, eol);
    EffectThenRest(path, s, base, ops);
    ScanCons(path, s, HunkLines(base, ops)[0], HunkLines(base[n..], ops[1..]), eol);
    var t := OpEffect(path, s, base, ops[0]);
    if t.current.Some? {
      HunkScanned(path, t, base[n..], ops[1..], eol);
    } else {
      RestOfHunkLost(path, t, base[n..], ops[1..], eol);
    }
  }

  // ---- When all of a hunk is read ----------------------------------------------------------

  /** What is read of a hunk is a beginning of its new side, and all of it if and only if the hunk is
      readable. */
  lemma {:induction false} HunkReadIffReadable(base: seq<string>, ops: seq<Op>, hunk: int)
    requires |base| == OldCount(ops)
    ensures HunkRead(base, ops, hunk) <= PatchHunk(base, ops, hunk)
    ensures HunkRead(base, ops, hunk) == PatchHunk(base, ops, hunk) <==> Readable(base, ops)
    decreases |ops|
  {
    if ops != [] {
      var n := if ops[0].Keep? || ops[0].Delete? then 1 else 0;
      assert base[0..] == base;
      HunkReadIffReadable(base[n..], ops[1..], hunk);
    }
  }

  /** Parser soundness for one hunk, exactly: from a header that gives the number of its first new-side
      line, the recorded lines are the hunk's new side if and only if the hunk is readable. */
  lemma HunkSoundIff(path: string, s: Scan, base: seq<string>, ops: seq<Op>, eol: string)
    requires |base| == OldCount(ops) && CleanHunk(base, ops) && IsEol(eol)
    requires s.current.Some? && path != DEV_NULL
    ensures ScanLines(path, s, Terminated(HunkLines(base, ops), eol)).lines
            == s.lines + Shown(path, PatchHunk(base, ops, s.hunk), s.current.value)
            <==> Readable(base, ops)
  {
    HunkScanned(path, s, base, ops, eol);
    HunkReadIffReadable(base, ops, s.hunk);
    var read, all := HunkRead(base, ops, s.hunk), PatchHunk(base, ops, s.hunk);
    InHunk(base, ops, s.hunk);
    hide HunkRead, PatchHunk, Readable, ScanLines, HunkLines, CleanHunk, Breaks, Shown;
    ShownSize(path, read, s.current.value);
    ShownSize(path, all, s.current.value);
  }

  lemma {:induction false} InHunk(base: seq<string>, ops: seq<Op>, hunk: int)
    requires |base| == OldCount(ops)
    ensures forall i :: 0 <= i < |PatchHunk(base, ops, hunk)| ==> !PatchHunk(base, ops, hunk)[i].origin.PassedOver?
    decreases |ops|
  {
    if ops != [] {
      assert base[0..] == base;
      InHunk(base[if ops[0].Keep? || ops[0].Delete? then 1 else 0..], ops[1..], hunk);
    }
  }

  lemma {:induction false} ShownSize(path: string, lines: seq<PatchedLine>, first: nat)
    requires forall i :: 0 <= i < |lines| ==> !lines[i].origin.PassedOver?
    ensures |Shown(path, lines, first)| == |lines|
    decreases |lines|
  {
    if lines != [] {
      ShownSize(path, lines[1..], first + 1);
    }
  }

  // ---- Scripts -----------------------------------------------------------------------------

  lemma {:induction false} TerminatedAppend(a: seq<string>, b: seq<string>, eol: string)
    ensures Terminated(a + b, eol) == Terminated(a, eol) + Terminated(b, eol)
  {
    if a == [] {
      assert a + b == b;
    } else {
      assert (a + b)[1..] == a[1..] + b;
      TerminatedAppend(a[1..], b, eol);
    }
  }

  lemma {:induction false} ShownAppend(path: string, a: seq<PatchedLine>, b: seq<PatchedLine>, first: nat)
    ensures Shown(path, a + b, first) == Shown(path, a, first) + Shown(path, b, first + |a|)
    decreases |a|
  {
    if a == [] {
      assert a + b == b;
    } else {
      assert (a + b)[1..] == a[1..] + b;
      ShownAppend(path, a[1..], b, first + 1);
    }
  }

  lemma {:induction false} PassedOverNotShown(path: string, lines: seq<PatchedLine>, first: nat)
    requires forall i :: 0 <= i < |lines| ==> lines[i].origin.PassedOver?
    ensures Shown(path, lines, first) == []
    decreases |lines|
  {
    if lines != [] {
      PassedOverNotShown(path, lines[1..], first + 1);
    }
  }

  /** From `s` to `t` the state machine counted `hunks` hunks and recorded `read`. */
  ghost predicate Advanced(path: string, s: Scan, t: Scan, hunks: nat, read: seq<NewFileLine>) {
    && t.hunk == s.hunk + hunks
    && t.saw == (s.saw || hunks > 0)
    && t.lines == s.lines + (if path != DEV_NULL then read else [])
  }

  lemma AdvancedTwice(path: string, s: Scan, mid: Scan, t: Scan, hunks: nat, first: seq<NewFileLine>, rest: seq<NewFileLine>)
    requires Advanced(path, s, mid, 1, first) && Advanced(path, mid, t, hunks, rest)
    ensures Advanced(path, s, t, hunks + 1, first + rest)
  {
  }

  lemma HeaderScanned(path: string, s: Scan, oldBefore: nat, oldCount: nat, newBefore: nat, newCount: nat,
                      heading: string, eol: string)
    ensures ScanLine(path, s, HunkHeaderLine(oldBefore, oldCount, newBefore, newCount, heading) + eol)
         == Scan(Some(RangeStart(newBefore, newCount)), s.hunk + 1, s.lines, true)
  {
    hide HunkStart, HunkHeaderLine;
    HeaderReadBack(oldBefore, oldCount, newBefore, newCount, heading, eol);
  }

  lemma HunkSegmentScanned(path: string, s: Scan, base: seq<string>, ops: seq<Op>, heading: string,
                           oldBefore: nat, newBefore: nat, eol: string)
    requires |base| == OldCount(ops) && CleanHunk(base, ops) && IsEol(eol)
    ensures var lines := [HunkHeaderLine(oldBefore, |base|, newBefore, NewCount(ops), heading)] + HunkLines(base, ops);
            Advanced(path, s, ScanLines(path, s, Terminated(lines, eol)), 1,
                     Shown(path, HunkRead(base, ops, s.hunk + 1), newBefore + 1))
    ensures var lines := [HunkHeaderLine(oldBefore, |base|, newBefore, NewCount(ops), heading)] + HunkLines(base, ops);
            ScanLines(path, s, Terminated(lines, eol)).hunk == s.hunk + 1
  {
    var header := HunkHeaderLine(oldBefore, |base|, newBefore, NewCount(ops), heading);
    var h := Scan(Some(RangeStart(newBefore, NewCount(ops))), s.hunk + 1, s.lines, true);
    HeaderScanned(path, s, oldBefore, |base|, newBefore, NewCount(ops), heading, eol);
    ScanCons(path, s, header, HunkLines(base, ops), eol);
    HunkScanned(path, h, base, ops, eol);
    HunkReadIffReadable(base, ops, s.hunk + 1);
    assert |PatchHunk(base, ops, s.hunk + 1)| == NewCount(ops);
    hide HunkHeaderLine, HunkLines, ScanLines, ScanLine, NewCount, PatchHunk, HunkRead, Readable, Breaks;
    if NewCount(ops) == 0 {
      assert HunkRead(base, ops, s.hunk + 1) == [];
    }
  }

  lemma ScannedInTwo(path: string, s: Scan, lines: seq<string>, more: seq<string>, eol: string)
    ensures ScanLines(path, s, Terminated(lines + more, eol))
         == ScanLines(path, ScanLines(path, s, Terminated(lines, eol)), Terminated(more, eol))
  {
    TerminatedAppend(lines, more, eol);
    ScanAppend(path, s, Terminated(lines, eol), Terminated(more, eol));
  }

  ghost function ScriptScan(path: string, s: Scan, base: seq<string>, script: seq<Segment>,
                            oldBefore: nat, newBefore: nat, eol: string): Scan
    requires Fits(base, script)
  {
    ScanLines(path, s, Terminated(ScriptLines(base, script, oldBefore, newBefore), eol))
  }

  /** A script taken apart at its first segment. */
  lemma ScriptHead(path: string, base: seq<string>, script: seq<Segment>, hunk: int, newBefore: nat)
    requires script != [] && Fits(base, script) && CleanScript(base, script)
    ensures var n := Consumed(script[0]);
            n <= |base| && (script[0].Unchanged? ==> n == script[0].count) && Fits(base[n..], script[1..]) && CleanScript(base[n..], script[1..])
    ensures script[0].Unchanged? ==>
              var n := script[0].count;
              && HunkCount(script) == HunkCount(script[1..])
              && ScriptRead(path, base, script, hunk, newBefore) == ScriptRead(path, base[n..], script[1..], hunk, newBefore + n)
    ensures script[0].Hunk? ==>
              var ops := script[0].ops; var n := OldCount(ops);
              && n == Consumed(script[0]) && CleanHunk(base[..n], ops) && OneLine(script[0].heading)
              && HunkCount(script) == HunkCount(script[1..]) + 1
              && ScriptRead(path, base, script, hunk, newBefore)
                 == Shown(path, HunkRead(base[..n], ops, hunk), newBefore + 1)
                    + ScriptRead(path, base[n..], script[1..], hunk + 1, newBefore + NewCount(ops))
  {
    hide HunkRead, CleanHunk, OneLine, NewCount, OldCount, Shown;
  }

  lemma ScriptLinesHead(base: seq<string>, script: seq<Segment>, oldBefore: nat, newBefore: nat)
    requires script != [] && Fits(base, script)
    ensures script[0].Unchanged? ==>
              var n := script[0].count;
              ScriptLines(base, script, oldBefore, newBefore)
              == ScriptLines(base[n..], script[1..], oldBefore + n, newBefore + n)
    ensures script[0].Hunk? ==>
              var ops := script[0].ops; var n := OldCount(ops);
              ScriptLines(base, script, oldBefore, newBefore)
              == [HunkHeaderLine(oldBefore, n, newBefore, NewCount(ops), script[0].heading)] + HunkLines(base[..n], ops)
                 + ScriptLines(base[n..], script[1..], oldBefore + n, newBefore + NewCount(ops))
  {
    hide HunkLines, HunkHeaderLine, NewCount, OldCount;
  }

  lemma ScriptScanHead(path: string, s: Scan, base: seq<string>, script: seq<Segment>,
                       oldBefore: nat, newBefore: nat, eol: string)
    requires script != [] && Fits(base, script)
    ensures script[0].Unchanged? ==>
              var n := script[0].count;
              ScriptScan(path, s, base, script, oldBefore, newBefore, eol)
              == ScriptScan(path, s, base[n..], script[1..], oldBefore + n, newBefore + n, eol)
    ensures script[0].Hunk? ==>
              var ops := script[0].ops; var n := OldCount(ops);
              var lines := [HunkHeaderLine(oldBefore, n, newBefore, NewCount(ops), script[0].heading)]
                           + HunkLines(base[..n], ops);
              ScriptScan(path, s, base, script, oldBefore, newBefore, eol)
              == ScriptScan(path, ScanLines(path, s, Terminated(lines, eol)), base[n..], script[1..],
                            oldBefore + n, newBefore + NewCount(ops), eol)
  {
    hide ScanLines, HunkLines, HunkHeaderLine, NewCount, OldCount;
    if script[0].Hunk? {
      var n, m := Consumed(script[0]), NewCount(script[0].ops);
      var lines := [HunkHeaderLine(oldBefore, n, newBefore, m, script[0].heading)] + HunkLines(base[..n], script[0].ops);
      ScannedInTwo(path, s, lines, ScriptLines(base[n..], script[1..], oldBefore + n, newBefore + m), eol);
    }
  }

  /** Scanning a written script records exactly what is read of it, for every script. */
  lemma {:induction false} ScriptScanned(path: string, s: Scan, base: seq<string>, script: seq<Segment>,
                                         oldBefore: nat, newBefore: nat, eol: string)
    requires Fits(base, script) && CleanScript(base, script) && IsEol(eol)
    ensures Advanced(path, s, ScriptScan(path, s, base, script, oldBefore, newBefore, eol),
                     HunkCount(script), ScriptRead(path, base, script, s.hunk + 1, newBefore))
    decreases |script|
  {
    hide *;
    if script == [] {
      ScriptScannedEmpty(path, s, base, oldBefore, newBefore, eol);
    } else {
      ScriptHead(path, base, script, s.hunk + 1, newBefore);
      ScriptScanHead(path, s, base, script, oldBefore, newBefore, eol);
      if script[0].Unchanged? {
        var n := script[0].count;
        ScriptScanned(path, s, base[n..], script[1..], oldBefore + n, newBefore + n, eol);
      } else {
        var ops := script[0].ops;
        var n, m := OldCount(ops), NewCount(ops);
        var lines := [HunkHeaderLine(oldBefore, n, newBefore, m, script[0].heading)] + HunkLines(base[..n], ops);
        var mid := ScanLines(path, s, Terminated(lines, eol));
        HunkSegmentScanned(path, s, base[..n], ops, script[0].heading, oldBefore, newBefore, eol);
        ScriptScanned(path, mid, base[n..], script[1..], oldBefore + n, newBefore + m, eol);
        AdvancedTwice(path, s, mid, ScriptScan(path, s, base, script, oldBefore, newBefore, eol), HunkCount(script[1..]),
                      Shown(path, HunkRead(base[..n], ops, s.hunk + 1), newBefore + 1),
                      ScriptRead(path, base[n..], script[1..], s.hunk + 2, newBefore + m));
      }
    }
  }

  lemma ScriptScannedEmpty(path: string, s: Scan, base: seq<string>, oldBefore: nat, newBefore: nat, eol: string)
    requires Fits(base, [])
    ensures Advanced(path, s, ScriptScan(path, s, base, [], oldBefore, newBefore, eol),
                     HunkCount([]), ScriptRead(path, base, [], s.hunk + 1, newBefore))
  {
  }

  // ---- When all of a script is read --------------------------------------------------------

  lemma ShownOfPrefix(path: string, read: seq<PatchedLine>, all: seq<PatchedLine>, first: nat)
    requires read <= all && forall i :: 0 <= i < |all| ==> !all[i].origin.PassedOver?
    ensures Shown(path, read, first) <= Shown(path, all, first)
    ensures Shown(path, read, first) == Shown(path, all, first) <==> read == all
  {
    assert all == read + all[|read|..];
    ShownAppend(path, read, all[|read|..], first);
    ShownSize(path, read, first);
    ShownSize(path, all, first);
  }

  lemma PatchHead(path: string, base: seq<string>, script: seq<Segment>, hunk: int, newBefore: nat)
    requires script != [] && Fits(base, script)
    ensures Consumed(script[0]) <= |base|
    ensures script[0].Unchanged? ==>
              var n := script[0].count;
              && (ReadableScript(base, script) <==> ReadableScript(base[n..], script[1..]))
              && Shown(path, Patch(base, script, hunk), newBefore + 1)
                 == Shown(path, Patch(base[n..], script[1..], hunk), newBefore + n + 1)
    ensures script[0].Hunk? ==>
              var ops := script[0].ops; var n := OldCount(ops);
              && (ReadableScript(base, script) <==> Readable(base[..n], ops) && ReadableScript(base[n..], script[1..]))
              && Shown(path, Patch(base, script, hunk), newBefore + 1)
                 == Shown(path, PatchHunk(base[..n], ops, hunk), newBefore + 1)
                    + Shown(path, Patch(base[n..], script[1..], hunk + 1), newBefore + NewCount(ops) + 1)
  {
    var n := Consumed(script[0]);
    if script[0].Unchanged? {
      var gap := PassOver(base[..n], hunk);
      ShownAppend(path, gap, Patch(base[n..], script[1..], hunk), newBefore + 1);
      PassedOverNotShown(path, gap, newBefore + 1);
    } else {
      ShownAppend(path, PatchHunk(base[..n], script[0].ops, hunk), Patch(base[n..], script[1..], hunk + 1), newBefore + 1);
    }
    hide Shown, PatchHunk, Readable, OldCount, NewCount;
  }

  lemma ScriptReadHead(path: string, base: seq<string>, script: seq<Segment>, hunk: int, newBefore: nat)
    requires script != [] && Fits(base, script)
    ensures var n := Consumed(script[0]); n <= |base| && Fits(base[n..], script[1..])
    ensures script[0].Unchanged? ==>
              var n := script[0].count;
              n == Consumed(script[0])
              && ScriptRead(path, base, script, hunk, newBefore) == ScriptRead(path, base[n..], script[1..], hunk, newBefore + n)
    ensures script[0].Hunk? ==>
              var ops := script[0].ops; var n := OldCount(ops);
              && n == Consumed(script[0]) && |base[..n]| == OldCount(ops)
              && ScriptRead(path, base, script, hunk, newBefore)
                 == Shown(path, HunkRead(base[..n], ops, hunk), newBefore + 1)
                    + ScriptRead(path, base[n..], script[1..], hunk + 1, newBefore + NewCount(ops))
  {
    hide HunkRead, NewCount, OldCount, Shown;
  }

  /** What is read of a script is a selection of the new-side hunk lines, each as it stands in the
      patched file; and it is all of them if and only if every hunk is readable. */
  lemma {:induction false} ScriptReadIffReadable(path: string, base: seq<string>, script: seq<Segment>, hunk: int, newBefore: nat)
    requires Fits(base, script)
    ensures SelectsIf(ScriptRead(path, base, script, hunk, newBefore),
                      Shown(path, Patch(base, script, hunk), newBefore + 1), ReadableScript(base, script))
    decreases |script|
  {
    hide *;
    if script == [] {
      NothingToRead(path, base, hunk, newBefore);
    } else {
      PatchHead(path, base, script, hunk, newBefore);
      ScriptReadHead(path, base, script, hunk, newBefore);
      if script[0].Unchanged? {
        var n := script[0].count;
        ScriptReadIffReadable(path, base[n..], script[1..], hunk, newBefore + n);
      } else {
        var ops := script[0].ops;
        var n, m := OldCount(ops), NewCount(ops);
        ScriptReadIffReadable(path, base[n..], script[1..], hunk + 1, newBefore + m);
        HunkSelects(path, base[..n], ops, hunk, newBefore + 1);
        ReadInTwo(Shown(path, HunkRead(base[..n], ops, hunk), newBefore + 1),
                  Shown(path, PatchHunk(base[..n], ops, hunk), newBefore + 1),
                  ScriptRead(path, base[n..], script[1..], hunk + 1, newBefore + m),
                  Shown(path, Patch(base[n..], script[1..], hunk + 1), newBefore + m + 1),
                  Readable(base[..n], ops), ReadableScript(base[n..], script[1..]));
      }
    }
  }

  lemma NothingToRead(path: string, base: seq<string>, hunk: int, newBefore: nat)
    requires Fits(base, [])
    ensures SelectsIf(ScriptRead(path, base, [], hunk, newBefore), Shown(path, Patch(base, [], hunk), newBefore + 1),
                      ReadableScript(base, []))
  {
  }

  lemma HunkSelects(path: string, base: seq<string>, ops: seq<Op>, hunk: int, first: nat)
    requires |base| == OldCount(ops)
    ensures var read, all := Shown(path, HunkRead(base, ops, hunk), first), Shown(path, PatchHunk(base, ops, hunk), first);
            read <= all && (read == all <==> Readable(base, ops))
  {
    hide *;
    HunkReadIffReadable(base, ops, hunk);
    InHunk(base, ops, hunk);
    ShownOfPrefix(path, HunkRead(base, ops, hunk), PatchHunk(base, ops, hunk), first);
  }

  /** `read` selects from `all`, and is all of it exactly if `whole` holds. */
  ghost predicate SelectsIf(read: seq<NewFileLine>, all: seq<NewFileLine>, whole: bool) {
    && (forall e :: e in read ==> e in all) && |read| <= |all|
    && (|read| == |all| ==> read == all) && (read == all <==> whole)
  }

  lemma ReadInTwo(read: seq<NewFileLine>, all: seq<NewFileLine>, moreRead: seq<NewFileLine>, moreAll: seq<NewFileLine>,
                  whole: bool, moreWhole: bool)
    requires read <= all && (read == all <==> whole) && SelectsIf(moreRead, moreAll, moreWhole)
    ensures SelectsIf(read + moreRead, all + moreAll, whole && moreWhole)
  {
    assert forall e :: e in read ==> e in all;
  }
}
