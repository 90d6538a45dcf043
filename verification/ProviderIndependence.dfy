/** The normalised result of the mock provider depends neither on how the files are chunked nor on
    their order: finding ids are injective in (rule, path, line), so deduplication and sorting
    leave nothing for the order to decide. */
module ProviderIndependence {
  import opened Wrappers
  import opened Text
  import opened Parser
  import opened Findings
  import opened MockProvider

  // ---- Finding ids -------------------------------------------------------------------------

  /** `rule:path:line` is injective as long as rule ids hold no colon, whatever the path holds. */
  lemma FindingIdInjective(r1: string, p1: string, n1: nat, r2: string, p2: string, n2: nat)
    requires ':' !in r1 && ':' !in r2
    requires FindingId(r1, p1, n1) == FindingId(r2, p2, n2)
    ensures r1 == r2 && p1 == p2 && n1 == n2
  {
    var d1, d2 := Decimal(n1), Decimal(n2);
    hide Decimal, IsDigit;
    NoColon(n1);
    NoColon(n2);
    assert FindingId(r1, p1, n1) == r1 + ":" + (p1 + ":" + d1);
    assert FindingId(r2, p2, n2) == r2 + ":" + (p2 + ":" + d2);
    HeadBeforeColon(r1, p1 + ":" + d1, r2, p2 + ":" + d2);
    TailAfterColon(p1, d1, p2, d2);
    ValueOfDecimal(n1);
    ValueOfDecimal(n2);
  }

  lemma NoColon(n: nat)
    ensures ':' !in Decimal(n)
  {
    var s := Decimal(n);
    forall i | 0 <= i < |s| ensures s[i] != ':' {
      assert IsDigit(s[i]);
    }
  }

  lemma FirstColon(a: string, x: string)
    requires ':' !in a
    ensures var s := a + ":" + x; s[|a|] == ':' && forall i :: 0 <= i < |a| ==> s[i] != ':'
  {
    var s := a + ":" + x;
    forall i | 0 <= i < |a| ensures s[i] != ':' {
      assert s[i] == a[i];
    }
  }

  lemma LastColon(x: string, a: string)
    requires ':' !in a
    ensures var s := x + ":" + a; s[|x|] == ':' && forall i :: |x| < i < |s| ==> s[i] != ':'
  {
    var s := x + ":" + a;
    forall i | |x| < i < |s| ensures s[i] != ':' {
      assert s[i] == a[i - |x| - 1];
    }
  }

  lemma HeadBeforeColon(a: string, x: string, b: string, y: string)
    requires ':' !in a && ':' !in b && a + ":" + x == b + ":" + y
    ensures a == b && x == y
  {
    var s := a + ":" + x;
    FirstColon(a, x);
    FirstColon(b, y);
    assert s[..|a|] == a && s[..|b|] == b;
    assert s[|a| + 1..] == x && s[|b| + 1..] == y;
  }

  lemma TailAfterColon(x: string, a: string, y: string, b: string)
    requires ':' !in a && ':' !in b && x + ":" + a == y + ":" + b
    ensures a == b && x == y
  {
    var s := x + ":" + a;
    LastColon(x, a);
    LastColon(y, b);
    assert s[..|x|] == x && s[..|y|] == y;
    assert s[|x| + 1..] == a && s[|y| + 1..] == b;
  }

  // ---- What the hits are -------------------------------------------------------------------

  const ALL_RULES: seq<Rule> := RULES + [EMPTY_CATCH]

  lemma RuleIdsDistinct()
    ensures forall r :: r in ALL_RULES ==> ':' !in r.id
    ensures forall r, s :: r in ALL_RULES && s in ALL_RULES && r.id == s.id ==> r == s
  {
    RuleTags();
    hide ALL_RULES;
    var tags := "1235678J4";
    forall i, j | 0 <= i < j < |ALL_RULES| ensures ALL_RULES[i].id != ALL_RULES[j].id {
      assert tags[i] != tags[j];
    }
  }

  /** The last characters of the rule ids. */
  lemma RuleTags()
    ensures |ALL_RULES| == 9
    ensures forall i :: 0 <= i < 9 ==> |ALL_RULES[i].id| == 8 && ALL_RULES[i].id[7] == "1235678J4"[i]
    ensures forall r :: r in ALL_RULES ==> ':' !in r.id
  {
  }

  /** A hit of a file is one of the rules on one of the file's lines. */
  ghost predicate HitOf(file: FileDiff, hit: Hit) {
    hit.0 in ALL_RULES && hit.1 in file.lines
  }

  lemma {:induction false} RuleHitsForm(p: Patterns, line: NewFileLine, rules: seq<Rule>)
    ensures forall h :: h in RuleHits(p, line, rules) ==> h.0 in rules && h.1 == line
  {
    if rules != [] {
      var init := rules[..|rules| - 1];
      RuleHitsForm(p, line, init);
      assert forall r :: r in init ==> r in rules;
    }
  }

  lemma {:induction false} LineHitsForm(p: Patterns, lines: seq<NewFileLine>)
    ensures forall h :: h in LineHits(p, lines) ==> h.0 in RULES && h.1 in lines
  {
    hide RULES;
    if lines != [] {
      var init := lines[..|lines| - 1];
      LineHitsForm(p, init);
      RuleHitsForm(p, lines[|lines| - 1], RULES);
      assert forall l :: l in init ==> l in lines;
    }
  }

  lemma {:induction false} OfHunkForm(lines: seq<NewFileLine>, hunk: int)
    ensures forall l :: l in OfHunk(lines, hunk) ==> l in lines
  {
    if lines != [] {
      OfHunkForm(lines[..|lines| - 1], hunk);
    }
  }

  lemma {:induction false} SwallowedInForm(p: Patterns, hunkLines: seq<NewFileLine>, n: nat)
    requires n <= |hunkLines|
    ensures forall l :: l in SwallowedIn(p, hunkLines, n) ==> l in hunkLines
  {
    hide SwallowsAt;
    if n > 0 {
      SwallowedInForm(p, hunkLines, n - 1);
    }
  }

  lemma {:induction false} SwallowedInHunksForm(p: Patterns, lines: seq<NewFileLine>, hunks: seq<int>)
    ensures forall l :: l in SwallowedInHunks(p, lines, hunks) ==> l in lines
  {
    hide SwallowedIn, OfHunk;
    if hunks != [] {
      var hunkLines := OfHunk(lines, hunks[|hunks| - 1]);
      SwallowedInHunksForm(p, lines, hunks[..|hunks| - 1]);
      SwallowedInForm(p, hunkLines, |hunkLines|);
      OfHunkForm(lines, hunks[|hunks| - 1]);
    }
  }

  lemma FileHitsForm(p: Patterns, file: FileDiff)
    ensures forall h :: h in FileHits(p, file) ==> HitOf(file, h)
  {
    hide RULES, LineHits, EmptyCatches, SwallowedInHunks;
    LineHitsForm(p, file.lines);
    EmptyCatchesForm(p, file);
    assert EMPTY_CATCH in ALL_RULES by { assert ALL_RULES[|RULES|] == EMPTY_CATCH; }
    assert forall r :: r in RULES ==> r in ALL_RULES;
  }

  lemma EmptyCatchesForm(p: Patterns, file: FileDiff)
    ensures forall l :: l in EmptyCatches(p, file) ==> l in file.lines
  {
    SwallowedInHunksForm(p, file.lines, HunkOrder(file.lines));
  }

  lemma {:induction false} HitsForm(p: Patterns, files: seq<FileDiff>)
    ensures forall h :: h in Hits(p, files) <==> exists file :: file in files && h in FileHits(p, file)
  {
    hide FileHits;
    if files != [] {
      HitsForm(p, files[..|files| - 1]);
      assert forall file :: file in files <==> file in files[..|files| - 1] || file == files[|files| - 1];
    }
  }

  // ---- Independence ------------------------------------------------------------------------

  /** No two recorded lines share a path and a number but not their text. */
  ghost predicate LinesAgree(files: seq<FileDiff>) {
    forall a, b, l, m ::
      (a in files && b in files && l in a.lines && m in b.lines && l.path == m.path && l.line == m.line) ==>
      l.content == m.content
  }

  /** The findings built are those of the hits. */
  lemma BuiltFrom(hits: seq<Hit>)
    requires Build(hits).Some?
    ensures forall f :: f in Build(hits).value <==> exists h :: h in hits && FindingOf(h) == Some(f)
  {
    hide Build, FindingOf;
    BuildsIff(hits);
    var fs := Build(hits).value;
    forall f ensures f in fs <==> exists h :: h in hits && FindingOf(h) == Some(f) {
      if f in fs {
        var i :| 0 <= i < |fs| && fs[i] == f;
        assert hits[i] in hits && FindingOf(hits[i]) == Some(f);
      }
      if h :| h in hits && FindingOf(h) == Some(f) {
        var i :| 0 <= i < |hits| && hits[i] == h;
        assert fs[i] == f;
      }
    }
  }

  lemma BuildsForSet(a: seq<Hit>, b: seq<Hit>)
    requires forall h :: h in a ==> h in b
    requires Build(b).Some?
    ensures Build(a).Some?
  {
    hide Build, FindingOf;
    BuildsIff(a);
    BuildsIff(b);
    forall i | 0 <= i < |a| ensures a[i].1.line >= 1 {
      assert a[i] in b;
      var j :| 0 <= j < |b| && b[j] == a[i];
    }
  }

  /** A finding of the files: a rule on a line. */
  lemma FindingSource(p: Patterns, files: seq<FileDiff>, f: Finding) returns (file: FileDiff, hit: Hit)
    requires ReviewOf(p, files).Some? && f in ReviewOf(p, files).value
    ensures file in files && HitOf(file, hit) && FindingOf(hit) == Some(f)
  {
    hide Build, FindingOf, Hits, FileHits;
    BuiltFrom(Hits(p, files));
    HitsForm(p, files);
    hit :| hit in Hits(p, files) && FindingOf(hit) == Some(f);
    file :| file in files && hit in FileHits(p, file);
    FileHitsForm(p, file);
  }

  lemma MockIdsDecide(p: Patterns, files: seq<FileDiff>)
    requires LinesAgree(files) && ReviewOf(p, files).Some?
    ensures EqualIdsAreEqual(ReviewOf(p, files).value) && KeysDecideIds(ReviewOf(p, files).value)
  {
    hide ReviewOf, ALL_RULES, FindingId;
    var fs := ReviewOf(p, files).value;
    RuleIdsDistinct();
    forall f, g | f in fs && g in fs
      ensures f.id == g.id ==> f == g
      ensures f.path == g.path && f.line == g.line && f.ruleId == g.ruleId ==> f.id == g.id
    {
      var a, h := FindingSource(p, files, f);
      var b, k := FindingSource(p, files, g);
      if f.id == g.id {
        FindingIdInjective(h.0.id, h.1.path, h.1.line, k.0.id, k.1.path, k.1.line);
      }
    }
  }

  /** The normalised findings depend only on which files there are: not on their order, nor on the
      chunks they come in. */
  lemma FileOrderIrrelevant(p: Patterns, files: seq<FileDiff>, others: seq<FileDiff>, maximum: nat)
    requires forall file :: file in files <==> file in others
    requires LinesAgree(files)
    ensures ReviewOf(p, files).Some? <==> ReviewOf(p, others).Some?
    ensures ReviewOf(p, files).Some? ==>
              Ordered(ReviewOf(p, files).value, maximum) == Ordered(ReviewOf(p, others).value, maximum)
  {
    HitsForm(p, files);
    HitsForm(p, others);
    hide Hits, FileHits, Build, LinesAgree, Ordered;
    var a, b := Hits(p, files), Hits(p, others);
    assert forall h :: h in a <==> h in b;
    if Build(a).Some? {
      BuildsForSet(b, a);
      BuiltFrom(a);
      BuiltFrom(b);
      MockIdsDecide(p, files);
      OrderedDependsOnSet(Build(a).value, Build(b).value, maximum);
    } else if Build(b).Some? {
      BuildsForSet(a, b);
    }
  }
}
