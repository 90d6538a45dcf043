/** Small diffs at which the parser does not meet its purpose: that the conditions proved necessary in
    ParserRoundTrip and ZeroLines do fail. */
module FailingDiffs {
  import opened Wrappers
  import opened Text
  import opened Parser
  import opened UnifiedDiff
  import opened ParserSoundness
  import opened ParserRoundTrip

  const FILE := InTree("f", true)

  function Edit(base: seq<string>, ops: seq<Op>): FileEdit {
    FileEdit(base, [Hunk(ops, "")], "a/f b/f", [], "a/f", FILE, "")
  }

  lemma ShortTexts()
    ensures OneLine("") && OneLine("a/f b/f") && OneLine("a/f") && CleanTarget(FILE)
  {
  }

  /** A script of one hunk. */
  lemma OneHunk(base: seq<string>, ops: seq<Op>)
    requires |base| == OldCount(ops) && CleanHunk(base, ops)
    ensures var script := [Hunk(ops, "")];
            && Fits(base, script) && CleanScript(base, script) && HunkCount(script) == 1
            && (ReadableScript(base, script) <==> Readable(base, ops))
            && (NoMimicryScript(base, script) <==> NoMimicry(base, ops))
            && ScriptRead("f", base, script, 0, 0) == Shown("f", HunkRead(base, ops, 0), 1)
            && Patch(base, script, 0) == PatchHunk(base, ops, 0)
  {
    assert OneLine("");
    var script := [Hunk(ops, "")];
    assert base[..|base|] == base && base[|base|..] == [] && script[1..] == [];
    hide OldCount, CleanHunk, OneLine, Readable, NoMimicry, Shown, HunkRead, PatchHunk;
  }

  /** One hunk over the whole of a file. */
  lemma EditIsClean(base: seq<string>, ops: seq<Op>)
    requires |base| == OldCount(ops) && CleanHunk(base, ops)
    ensures Clean(Edit(base, ops))
    ensures AllClean([Edit(base, ops)]) && SomeHunk([Edit(base, ops)])
  {
    ShortTexts();
    OneHunk(base, ops);
    hide OldCount, CleanHunk, OneLine, CleanTarget, Fits, CleanScript, HunkCount;
    assert [Edit(base, ops)][0] == Edit(base, ops);
    assert forall f :: f in [Edit(base, ops)] ==> f == Edit(base, ops);
  }

  lemma ParsedEdit(git: bool, base: seq<string>, ops: seq<Op>)
    requires |base| == OldCount(ops) && CleanHunk(base, ops) && (!git ==> NoMimicry(base, ops))
    ensures Clean(Edit(base, ops)) && AllClean([Edit(base, ops)])
    ensures Parse(Render(git, "\n", [Edit(base, ops)]))
         == Ok([FileDiff("f", FileText(git, "\n", Edit(base, ops)), Shown("f", HunkRead(base, ops, 0), 1))])
  {
    var files := [Edit(base, ops)];
    EditIsClean(base, ops);
    OneHunk(base, ops);
    assert ReadFiles(git, "\n", files) == [ReadFile(git, "\n", Edit(base, ops))];
    hide OldCount, CleanHunk, Clean, Readable, NoMimicry, Shown, HunkRead, Parse, Render, FileText, Fits, ScriptRead, SomeHunk, NoMimicryScript;
    ParseReadsRender(git, "\n", files);
  }

  /** Two lines are inserted, the first "++i;": none of the two is recorded. */
  lemma InsertedPlusPlusLost()
    ensures var f := Edit([], [Insert("++i;"), Insert("x")]);
            && Clean(f) && AllClean([f])
            && Parse(Render(true, "\n", [f])) == Ok([FileDiff("f", FileText(true, "\n", f), [])])
            && |Shown("f", Patch(f.base, f.script, 0), 1)| == 2
  {
    var ops := [Insert("++i;"), Insert("x")];
    PlusPlusHunk();
    hide *;
    ParsedEdit(true, [], ops);
    EditAlone([], ops);
    NothingShown();
    InHunk([], ops, 0);
    ShownSize("f", PatchHunk([], ops, 0), 1);
  }

  lemma EditAlone(base: seq<string>, ops: seq<Op>)
    requires |base| == OldCount(ops) && CleanHunk(base, ops)
    ensures var f := Edit(base, ops);
            f.target == FILE && f.base == base && f.script == [Hunk(ops, "")] && Clean(f) && AllClean([f])
            && Fits(f.base, f.script) && Patch(f.base, f.script, 0) == PatchHunk(base, ops, 0)
  {
    OneHunk(base, ops);
    EditIsClean(base, ops);
    hide OldCount, CleanHunk, Clean, AllClean, Patch, PatchHunk, Fits;
  }

  lemma NothingShown()
    ensures Shown("f", [], 1) == []
  {
  }

  lemma PlusPlusHunk()
    ensures var ops := [Insert("++i;"), Insert("x")];
            && OldCount(ops) == 0 && CleanHunk([], ops)
            && HunkRead([], ops, 0) == [] && |PatchHunk([], ops, 0)| == 2
  {
    var ops := [Insert("++i;"), Insert("x")];
    assert ops[1..] == [Insert("x")] && ops[1..][1..] == [];
    assert OneLine("++i;") && OneLine("x");
    assert OldCount(ops[1..]) == 0 && CleanHunk([], ops[1..]);
    assert NewCount(ops[1..]) == 1;
    assert NewCount(ops) == 2;
  }

  /** A line "-- old" is deleted before a line that is kept: the kept line is not recorded. */
  lemma KeptAfterDashesLost()
    ensures var f := Edit(["-- old", "kept"], [Delete, Keep]);
            && Clean(f) && AllClean([f])
            && Parse(Render(true, "\n", [f])) == Ok([FileDiff("f", FileText(true, "\n", f), [])])
            && |Shown("f", Patch(f.base, f.script, 0), 1)| == 1
  {
    var base, ops := ["-- old", "kept"], [Delete, Keep];
    DashesHunk();
    hide *;
    ParsedEdit(true, base, ops);
    EditAlone(base, ops);
    NothingShown();
    InHunk(base, ops, 0);
    ShownSize("f", PatchHunk(base, ops, 0), 1);
  }

  lemma DashesHunk()
    ensures var base, ops := ["-- old", "kept"], [Delete, Keep];
            && OldCount(ops) == 2 && CleanHunk(base, ops)
            && HunkRead(base, ops, 0) == [] && |PatchHunk(base, ops, 0)| == 1
  {
    var base, ops := ["-- old", "kept"], [Delete, Keep];
    assert ops[1..] == [Keep] && ops[1..][1..] == [] && base[1..] == ["kept"] && base[1..][1..] == [];
    assert OneLine("-- old") && OneLine("kept");
    assert OldCount(ops[1..]) == 1 && CleanHunk(base[1..], ops[1..]);
    assert NewCount(ops[1..]) == 1;
    assert NewCount(ops) == 1;
  }

  /** In a plain diff a deleted "-- a" followed by an inserted "++ b" is taken for the headers of
      another file: the file is not given back. */
  lemma MimickedHeader()
    ensures var f := Edit(["-- a"], [Delete, Insert("++ b")]);
            && Clean(f) && AllClean([f]) && SomeHunk([f])
            && Parse(Render(false, "\n", [f])) != Ok(ExpectedFiles(false, "\n", [f]))
  {
    var base, ops := ["-- a"], [Delete, Insert("++ b")];
    MimicryHunk();
    OneHunk(base, ops);
    EditIsClean(base, ops);
    var files := [Edit(base, ops)];
    hide Clean, AllClean, Parse, Render, ExpectedFiles, NoMimicryScript, ReadableScript, SomeHunk, Fits, NoMimicry, CleanHunk, OldCount;
    assert !AllSound(false, files) by { assert !Sound(false, files[0]); }
    ParseOfRender(false, "\n", files);
  }

  lemma MimicryHunk()
    ensures var base, ops := ["-- a"], [Delete, Insert("++ b")];
            && OldCount(ops) == 1 && CleanHunk(base, ops) && !NoMimicry(base, ops)
  {
    var base, ops := ["-- a"], [Delete, Insert("++ b")];
    assert ops[1..] == [Insert("++ b")] && ops[1..][1..] == [] && base[1..] == [];
    assert OneLine("-- a") && OneLine("++ b");
    assert OldCount(ops[1..]) == 0 && CleanHunk(base[1..], ops[1..]);
  }
}
