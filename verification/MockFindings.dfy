/** What the mock provider reports, told by the positions of the lines of a file and by the catalogue of
    its rules (app/providers/mock.py:19-146), for every list of files. */
module MockFindings {
  import opened Wrappers
  import opened Text
  import opened Parser
  import opened Findings
  import opened Comments
  import opened MockProvider

  // ---- The block after a catch -------------------------------------------------------------

  /** Braces open after the first `n` characters, one being open before them. */
  ghost function Balance(text: string, n: nat): int
    requires n <= |text|
  {
    var opening: int, closing: int := multiset(text[..n])['{'], multiset(text[..n])['}'];
    1 + opening - closing
  }

  /** The character at `k` closes the brace that was open before `text`. */
  ghost predicate ClosesBlock(text: string, k: int) {
    0 <= k < |text| && Balance(text, k + 1) == 0 && forall n :: 0 <= n <= k ==> Balance(text, n) > 0
  }

  ghost predicate EmptyUpTo(text: string, k: int, t: string) {
    ClosesBlock(text, k) && BlocksCut(text[..k], t) && BlankButLines(t)
  }

  /** The block closes, and up to there is nothing but space, block comments and line comments. */
  ghost predicate EmptyBlock(text: string) {
    exists k, t :: EmptyUpTo(text, k, t)
  }

  lemma {:induction false} DepthCounts(text: string)
    ensures Depth(text) == Balance(text, |text|)
  {
    assert text[..|text|] == text;
    if text != "" {
      var n := |text| - 1;
      var front := text[..n];
      DepthCounts(front);
      assert front[..|front|] == front;
      assert text == front + [text[n]];
      assert multiset(text) == multiset(front) + multiset{text[n]};
    }
  }

  lemma ClosesBlockIff(text: string, k: int)
    ensures ClosesAt(text, k) <==> ClosesBlock(text, k)
  {
    forall n | 0 <= n <= |text| ensures Depth(text[..n]) == Balance(text, n) {
      DepthCounts(text[..n]);
      assert text[..n][..n] == text[..n];
    }
    hide Depth, Balance;
  }

  lemma EmptyBlockIff(text: string)
    ensures EmptyBody(text) <==> EmptyBlock(text)
  {
    hide ClosesAt, ClosesBlock, OnlyComments, BlocksCut, BlankButLines;
    if k :| ClosesAt(text, k) && OnlyComments(text[..k]) {
      ClosesBlockIff(text, k);
      OnlyCommentsIff(text[..k]);
      var t :| BlocksCut(text[..k], t) && BlankButLines(t);
      assert EmptyUpTo(text, k, t);
    }
    if k, t :| EmptyUpTo(text, k, t) {
      ClosesBlockIff(text, k);
      OnlyCommentsIff(text[..k]);
    }
  }

  // ---- Empty catch blocks by position ------------------------------------------------------

  /** The lines of one hunk among `lines`, each with a newline after it. */
  function TextOfHunk(lines: seq<NewFileLine>, hunk: int): string {
    if lines == [] then ""
    else (if lines[0].hunk == hunk then lines[0].content + "\n" else "") + TextOfHunk(lines[1..], hunk)
  }

  /** What follows the catch match on line `i`: the rest of the line and the later lines of its hunk. */
  function TextAfter(p: Patterns, lines: seq<NewFileLine>, i: nat): string
    requires i < |lines| && p.catchEnd(lines[i].content).Some?
  {
    var content, end := lines[i].content, p.catchEnd(lines[i].content).value;
    (if end <= |content| then content[end..] else "") + "\n" + TextOfHunk(lines[i + 1..], lines[i].hunk)
  }

  /** Line `i` is an added line with a catch whose block, within the hunk, is empty. */
  ghost predicate Swallows(p: Patterns, lines: seq<NewFileLine>, i: int) {
    0 <= i < |lines| && lines[i].added && p.catchEnd(lines[i].content).Some? && EmptyBlock(TextAfter(p, lines, i))
  }

  lemma {:induction false} OfHunkAppend(a: seq<NewFileLine>, b: seq<NewFileLine>, hunk: int)
    ensures OfHunk(a + b, hunk) == OfHunk(a, hunk) + OfHunk(b, hunk)
    decreases |b|
  {
    if b == [] {
      assert a + b == a;
    } else {
      assert (a + b)[..|a + b| - 1] == a + b[..|b| - 1];
      OfHunkAppend(a, b[..|b| - 1], hunk);
    }
  }

  lemma OfHunkCons(lines: seq<NewFileLine>, hunk: int)
    requires lines != []
    ensures OfHunk(lines, hunk) == (if lines[0].hunk == hunk then [lines[0]] else []) + OfHunk(lines[1..], hunk)
  {
    assert lines == [lines[0]] + lines[1..];
    OfHunkAppend([lines[0]], lines[1..], hunk);
    assert [lines[0]][..0] == [];
    assert OfHunk([], hunk) == [];
  }

  lemma {:induction false} JoinedHunk(lines: seq<NewFileLine>, hunk: int)
    ensures Joined(Contents(OfHunk(lines, hunk))) == TextOfHunk(lines, hunk)
  {
    hide OfHunk, Joined, Contents;
    if lines == [] {
      NothingJoined(hunk);
    } else {
      OfHunkCons(lines, hunk);
      JoinedHunk(lines[1..], hunk);
      JoinedCons(lines[0], OfHunk(lines[1..], hunk));
      assert [] + OfHunk(lines[1..], hunk) == OfHunk(lines[1..], hunk);
    }
  }

  lemma NothingJoined(hunk: int)
    ensures Joined(Contents(OfHunk([], hunk))) == ""
  {
  }

  lemma JoinedCons(line: NewFileLine, rest: seq<NewFileLine>)
    ensures Joined(Contents([line] + rest)) == line.content + "\n" + Joined(Contents(rest))
  {
    assert Contents([line] + rest)[1..] == Contents(rest);
  }

  /** The positions of the lines of one hunk. */
  function Positions(lines: seq<NewFileLine>, hunk: int): (r: seq<nat>)
    ensures |r| == |OfHunk(lines, hunk)|
    ensures forall m :: 0 <= m < |r| ==> r[m] < |lines| && lines[r[m]].hunk == hunk
    ensures forall m, n :: 0 <= m < n < |r| ==> r[m] < r[n]
    ensures forall i :: 0 <= i < |lines| && lines[i].hunk == hunk ==> i in r
  {
    if lines == [] then []
    else Positions(lines[..|lines| - 1], hunk) + (if lines[|lines| - 1].hunk == hunk then [|lines| - 1] else [])
  }

  lemma {:induction false} PositionSplits(lines: seq<NewFileLine>, hunk: int, m: nat)
    requires m < |Positions(lines, hunk)|
    ensures var i := Positions(lines, hunk)[m];
            OfHunk(lines, hunk)[m] == lines[i] && OfHunk(lines, hunk)[m + 1..] == OfHunk(lines[i + 1..], hunk)
  {
    hide *;
    var i := Positions(lines, hunk)[m];
    PositionRank(lines, hunk, m);
    assert lines == lines[..i] + lines[i..] && lines[i..][1..] == lines[i + 1..] && lines[i..][0] == lines[i];
    OfHunkAppend(lines[..i], lines[i..], hunk);
    OfHunkCons(lines[i..], hunk);
    var before, after := OfHunk(lines[..i], hunk), OfHunk(lines[i + 1..], hunk);
    assert OfHunk(lines, hunk) == before + ([lines[i]] + after);
  }

  lemma {:induction false} PositionRank(lines: seq<NewFileLine>, hunk: int, m: nat)
    requires m < |Positions(lines, hunk)|
    ensures |OfHunk(lines[..Positions(lines, hunk)[m]], hunk)| == m
  {
    var n := |lines| - 1;
    if m < |Positions(lines[..n], hunk)| {
      PositionRank(lines[..n], hunk, m);
      var i := Positions(lines[..n], hunk)[m];
      assert lines[..n][..i] == lines[..i];
    }
  }

  lemma SwallowsIff(p: Patterns, lines: seq<NewFileLine>, hunk: int, m: nat)
    requires m < |OfHunk(lines, hunk)|
    ensures SwallowsAt(p, OfHunk(lines, hunk), m) <==> Swallows(p, lines, Positions(lines, hunk)[m])
  {
    hide *;
    var i := Positions(lines, hunk)[m];
    PositionSplits(lines, hunk, m);
    if p.catchEnd(lines[i].content).Some? {
      EmptyBlockIff(TextAfter(p, lines, i));
      JoinedAfter(p, lines, OfHunk(lines, hunk), m, i);
    }
    SwallowsAlike(p, OfHunk(lines, hunk), m, lines, i);
  }

  lemma SwallowsAlike(p: Patterns, hunkLines: seq<NewFileLine>, m: nat, lines: seq<NewFileLine>, i: nat)
    requires m < |hunkLines| && i < |lines| && hunkLines[m] == lines[i]
    requires p.catchEnd(lines[i].content).Some? ==>
               (EmptyBody(Joined(AfterCatch(hunkLines, m, p.catchEnd(lines[i].content).value))) <==> EmptyBlock(TextAfter(p, lines, i)))
    ensures SwallowsAt(p, hunkLines, m) <==> Swallows(p, lines, i)
  {
    hide EmptyBody, EmptyBlock, Joined, AfterCatch, TextAfter;
  }

  lemma JoinedAfter(p: Patterns, lines: seq<NewFileLine>, hunkLines: seq<NewFileLine>, m: nat, i: nat)
    requires m < |hunkLines| && i < |lines| && hunkLines[m] == lines[i] && p.catchEnd(lines[i].content).Some?
    requires hunkLines[m + 1..] == OfHunk(lines[i + 1..], lines[i].hunk)
    ensures Joined(AfterCatch(hunkLines, m, p.catchEnd(hunkLines[m].content).value)) == TextAfter(p, lines, i)
  {
    JoinedHunk(lines[i + 1..], lines[i].hunk);
    hide OfHunk, Contents, TextOfHunk;
    var parts := AfterCatch(hunkLines, m, p.catchEnd(hunkLines[m].content).value);
    assert parts[1..] == Contents(hunkLines[m + 1..]);
  }

  ghost predicate FirstAt(lines: seq<NewFileLine>, i: int, x: int, y: int) {
    0 <= i < |lines| && lines[i].hunk == x && forall k :: 0 <= k <= i ==> lines[k].hunk != y
  }

  /** A line of hunk `x` stands before every line of hunk `y`. */
  ghost predicate SeenBefore(lines: seq<NewFileLine>, x: int, y: int) {
    exists i :: FirstAt(lines, i, x, y)
  }

  /** Hunks in the order in which they are first seen, and within a hunk in the order of its lines. */
  ghost predicate Precedes(lines: seq<NewFileLine>, a: int, b: int) {
    && 0 <= a < |lines| && 0 <= b < |lines|
    && if lines[a].hunk == lines[b].hunk then a < b else SeenBefore(lines, lines[a].hunk, lines[b].hunk)
  }

  /** `found` are the lines at the positions `at`, in order. */
  ghost predicate Picked(lines: seq<NewFileLine>, found: seq<NewFileLine>, at: seq<nat>) {
    && |at| == |found|
    && (forall m :: 0 <= m < |at| ==> at[m] < |lines| && found[m] == lines[at[m]])
    && (forall m, n :: 0 <= m < n < |at| ==> Precedes(lines, at[m], at[n]))
  }

  ghost predicate HasHunk(lines: seq<NewFileLine>, x: int) {
    exists i :: 0 <= i < |lines| && lines[i].hunk == x
  }

  lemma SeenNext(lines: seq<NewFileLine>, x: int, y: int)
    requires lines != []
    ensures var n := |lines| - 1;
            && (HasHunk(lines[..n], x) ==> HasHunk(lines, x)) && HasHunk(lines, lines[n].hunk)
            && (SeenBefore(lines[..n], x, y) ==> SeenBefore(lines, x, y))
            && (HasHunk(lines[..n], x) && !HasHunk(lines[..n], y) ==> SeenBefore(lines, x, y))
  {
    var n := |lines| - 1;
    var front := lines[..n];
    if i :| 0 <= i < |front| && front[i].hunk == x {
      assert lines[i].hunk == x;
      if !HasHunk(front, y) {
        assert forall k :: 0 <= k <= i ==> lines[k] == front[k];
        assert FirstAt(lines, i, x, y);
      }
    }
    if i :| FirstAt(front, i, x, y) {
      assert forall k :: 0 <= k <= i ==> lines[k] == front[k];
      assert FirstAt(lines, i, x, y);
    }
  }

  /** The order of the hunks has each hunk of the lines, once, in the order in which they are first seen. */
  lemma {:induction false} OrderOfHunks(lines: seq<NewFileLine>)
    ensures forall x :: x in HunkOrder(lines) <==> HasHunk(lines, x)
    ensures forall m, n :: 0 <= m < n < |HunkOrder(lines)| ==> SeenBefore(lines, HunkOrder(lines)[m], HunkOrder(lines)[n])
  {
    hide SeenBefore;
    if lines != [] {
      var k := |lines| - 1;
      OrderOfHunks(lines[..k]);
      var before, order := HunkOrder(lines[..k]), HunkOrder(lines);
      forall x ensures x in order <==> HasHunk(lines, x) {
        SeenNext(lines, x, x);
        if HasHunk(lines, x) && x != lines[k].hunk {
          var i :| 0 <= i < |lines| && lines[i].hunk == x;
          assert lines[..k][i].hunk == x;
        }
      }
      hide HasHunk, HunkOrder;
      forall m, n | 0 <= m < n < |order| ensures SeenBefore(lines, order[m], order[n]) {
        SeenNext(lines, order[m], order[n]);
        assert order[m] == before[m] && before[m] in before;
      }
    }
  }

  lemma PickedMore(lines: seq<NewFileLine>, a: seq<NewFileLine>, at: seq<nat>, b: seq<NewFileLine>, bt: seq<nat>)
    requires Picked(lines, a, at) && Picked(lines, b, bt)
    requires forall x, y :: x in at && y in bt ==> Precedes(lines, x, y)
    ensures Picked(lines, a + b, at + bt)
  {
    hide Precedes;
    var all := at + bt;
    forall m, n | 0 <= m < n < |all| ensures Precedes(lines, all[m], all[n]) {
      if m < |at| && |at| <= n {
        assert all[m] == at[m] && at[m] in at && all[n] == bt[n - |at|] && bt[n - |at|] in bt;
      }
    }
  }

  lemma PickedOne(lines: seq<NewFileLine>, i: nat)
    requires i < |lines|
    ensures Picked(lines, [lines[i]], [i])
  {
  }

  lemma NonePicked(lines: seq<NewFileLine>)
    ensures Picked(lines, [], [])
  {
  }

  lemma SwallowedInNext(p: Patterns, hunkLines: seq<NewFileLine>, n: nat)
    requires n < |hunkLines|
    ensures SwallowedIn(p, hunkLines, 0) == []
    ensures SwallowedIn(p, hunkLines, n + 1) == SwallowedIn(p, hunkLines, n) + (if SwallowsAt(p, hunkLines, n) then [hunkLines[n]] else [])
  {
    hide SwallowsAt;
  }

  /** An empty catch among the first `n` lines of a hunk. */
  ghost predicate AmongFirst(p: Patterns, lines: seq<NewFileLine>, hunk: int, n: nat, i: int)
    requires n <= |Positions(lines, hunk)|
  {
    i in Positions(lines, hunk)[..n] && Swallows(p, lines, i)
  }

  lemma AmongNext(p: Patterns, lines: seq<NewFileLine>, hunk: int, n: nat, i: int)
    requires n < |Positions(lines, hunk)|
    ensures var pos := Positions(lines, hunk);
            && (AmongFirst(p, lines, hunk, n + 1, i) <==> AmongFirst(p, lines, hunk, n, i) || (i == pos[n] && Swallows(p, lines, pos[n])))
            && (AmongFirst(p, lines, hunk, n, i) ==> Precedes(lines, i, pos[n]))
            && !AmongFirst(p, lines, hunk, 0, i)
  {
    hide Positions, Swallows;
    var pos := Positions(lines, hunk);
    assert pos[..n + 1] == pos[..n] + [pos[n]];
  }

  lemma {:induction false} SwallowedInHunk(p: Patterns, lines: seq<NewFileLine>, hunk: int, n: nat) returns (at: seq<nat>)
    requires n <= |OfHunk(lines, hunk)| == |Positions(lines, hunk)|
    ensures Picked(lines, SwallowedIn(p, OfHunk(lines, hunk), n), at)
    ensures forall i :: i in at <==> AmongFirst(p, lines, hunk, n, i)
  {
    hide *;
    var pos, hunkLines := Positions(lines, hunk), OfHunk(lines, hunk);
    if n == 0 {
      at := [];
      NonePicked(lines);
      NoneAmong(p, lines, hunk);
    } else {
      var k := n - 1;
      var before := SwallowedInHunk(p, lines, hunk, k);
      SwallowsIff(p, lines, hunk, k);
      PositionSplits(lines, hunk, k);
      SwallowedInNext(p, hunkLines, k);
      forall i ensures (AmongFirst(p, lines, hunk, n, i) <==> AmongFirst(p, lines, hunk, k, i) || (i == pos[k] && Swallows(p, lines, pos[k])))
              ensures AmongFirst(p, lines, hunk, k, i) ==> Precedes(lines, i, pos[k]) {
        AmongNext(p, lines, hunk, k, i);
      }
      if SwallowsAt(p, hunkLines, k) {
        at := before + [pos[k]];
        PickedOne(lines, pos[k]);
        PickedMore(lines, SwallowedIn(p, hunkLines, k), before, [hunkLines[k]], [pos[k]]);
      } else {
        at := before;
        assert SwallowedIn(p, hunkLines, k) + [] == SwallowedIn(p, hunkLines, k);
      }
    }
  }

  lemma NoneAmong(p: Patterns, lines: seq<NewFileLine>, hunk: int)
    ensures forall i :: !AmongFirst(p, lines, hunk, 0, i)
    ensures SwallowedIn(p, OfHunk(lines, hunk), 0) == []
  {
  }

  /** An empty catch in one of the first `n` hunks. */
  ghost predicate InHunks(p: Patterns, lines: seq<NewFileLine>, n: nat, i: int)
    requires n <= |HunkOrder(lines)|
  {
    Swallows(p, lines, i) && 0 <= i < |lines| && lines[i].hunk in HunkOrder(lines)[..n]
  }

  lemma InHunksNext(p: Patterns, lines: seq<NewFileLine>, n: nat, i: int)
    requires n < |HunkOrder(lines)|
    ensures var hunk := HunkOrder(lines)[n];
            InHunks(p, lines, n + 1, i) <==> InHunks(p, lines, n, i) || AmongFirst(p, lines, hunk, |Positions(lines, hunk)|, i)
  {
    var order := HunkOrder(lines);
    var pos := Positions(lines, order[n]);
    assert order[..n + 1] == order[..n] + [order[n]] && pos[..|pos|] == pos;
    hide HunkOrder, Positions, Swallows;
    assert forall k :: k in pos <==> 0 <= k < |lines| && lines[k].hunk == order[n];
  }

  lemma HunkAfterHunk(p: Patterns, lines: seq<NewFileLine>, n: nat, a: int, b: int)
    requires n < |HunkOrder(lines)| && InHunks(p, lines, n, a)
    requires var hunk := HunkOrder(lines)[n]; AmongFirst(p, lines, hunk, |Positions(lines, hunk)|, b)
    ensures Precedes(lines, a, b)
  {
    OrderOfHunks(lines);
    hide HunkOrder, Swallows, SeenBefore;
    var order := HunkOrder(lines);
    var m :| 0 <= m < n && order[m] == lines[a].hunk;
    assert SeenBefore(lines, order[m], order[n]);
    SeenIsOther(lines, order[m], order[n]);
    assert b in Positions(lines, order[n]);
    hide Positions;
  }

  lemma SeenIsOther(lines: seq<NewFileLine>, x: int, y: int)
    requires SeenBefore(lines, x, y)
    ensures x != y
  {
    var i :| FirstAt(lines, i, x, y);
  }

  lemma SwallowedInHunksNext(p: Patterns, lines: seq<NewFileLine>, n: nat)
    requires n < |HunkOrder(lines)|
    ensures SwallowedInHunks(p, lines, HunkOrder(lines)[..n + 1])
         == SwallowedInHunks(p, lines, HunkOrder(lines)[..n])
            + SwallowedIn(p, OfHunk(lines, HunkOrder(lines)[n]), |OfHunk(lines, HunkOrder(lines)[n])|)
  {
    hide HunkOrder, OfHunk, SwallowedIn;
    assert HunkOrder(lines)[..n + 1][..n] == HunkOrder(lines)[..n];
  }

  lemma NoHunks(p: Patterns, lines: seq<NewFileLine>)
    ensures SwallowedInHunks(p, lines, HunkOrder(lines)[..0]) == []
    ensures forall i :: !InHunks(p, lines, 0, i)
  {
  }

  lemma {:induction false} SwallowedByHunk(p: Patterns, lines: seq<NewFileLine>, n: nat) returns (at: seq<nat>)
    requires n <= |HunkOrder(lines)|
    ensures Picked(lines, SwallowedInHunks(p, lines, HunkOrder(lines)[..n]), at)
    ensures forall i :: i in at <==> InHunks(p, lines, n, i)
  {
    hide *;
    if n == 0 {
      at := [];
      NonePicked(lines);
      NoHunks(p, lines);
    } else {
      var k, hunk := n - 1, HunkOrder(lines)[n - 1];
      var before := SwallowedByHunk(p, lines, k);
      var more := SwallowedInHunk(p, lines, hunk, |OfHunk(lines, hunk)|);
      SwallowedInHunksNext(p, lines, k);
      forall i ensures InHunks(p, lines, n, i) <==> InHunks(p, lines, k, i) || AmongFirst(p, lines, hunk, |Positions(lines, hunk)|, i) {
        InHunksNext(p, lines, k, i);
      }
      forall a, b | a in before && b in more ensures Precedes(lines, a, b) {
        HunkAfterHunk(p, lines, k, a, b);
      }
      at := before + more;
      PickedMore(lines, SwallowedInHunks(p, lines, HunkOrder(lines)[..k]), before,
                 SwallowedIn(p, OfHunk(lines, hunk), |OfHunk(lines, hunk)|), more);
    }
  }

  /** The empty catch blocks of a file, whatever its lines: exactly the lines with one are found, each
      once, hunk after hunk in the order in which the hunks are first seen, line after line within. */
  lemma EmptyCatchesAre(p: Patterns, file: FileDiff) returns (at: seq<nat>)
    ensures Picked(file.lines, EmptyCatches(p, file), at)
    ensures forall i :: i in at <==> Swallows(p, file.lines, i)
  {
    var order := HunkOrder(file.lines);
    at := SwallowedByHunk(p, file.lines, |order|);
    assert order[..|order|] == order;
    OrderOfHunks(file.lines);
    assert forall i :: 0 <= i < |file.lines| ==> HasHunk(file.lines, file.lines[i].hunk);
    hide HunkOrder, HasHunk, SeenBefore, SwallowedInHunks, EmptyBlock, TextAfter;
  }

  // ---- Rules by position -------------------------------------------------------------------

  /** Rule `r` reports line `i`. */
  datatype Place = Place(line: nat, rule: nat)

  ghost predicate Fires(p: Patterns, lines: seq<NewFileLine>, rules: seq<Rule>, place: Place) {
    && place.line < |lines| && lines[place.line].added
    && place.rule < |rules| && p.matches(rules[place.rule].id, lines[place.line].content)
  }

  predicate PlaceBefore(a: Place, b: Place) {
    if a.line != b.line then a.line < b.line else a.rule < b.rule
  }

  /** `hits` are the rules and lines at the places `at`, line after line and rule after rule. */
  ghost predicate HitAt(lines: seq<NewFileLine>, rules: seq<Rule>, hits: seq<Hit>, at: seq<Place>) {
    && |at| == |hits|
    && (forall m :: 0 <= m < |at| ==>
          at[m].line < |lines| && at[m].rule < |rules| && hits[m] == (rules[at[m].rule], lines[at[m].line]))
    && (forall m, n :: 0 <= m < n < |at| ==> PlaceBefore(at[m], at[n]))
  }

  lemma HitMore(lines: seq<NewFileLine>, rules: seq<Rule>, a: seq<Hit>, at: seq<Place>, b: seq<Hit>, bt: seq<Place>)
    requires HitAt(lines, rules, a, at) && HitAt(lines, rules, b, bt)
    requires forall x, y :: x in at && y in bt ==> PlaceBefore(x, y)
    ensures HitAt(lines, rules, a + b, at + bt)
  {
    hide PlaceBefore;
    var all := at + bt;
    forall m, n | 0 <= m < n < |all| ensures PlaceBefore(all[m], all[n]) {
      if m < |at| && |at| <= n {
        assert all[m] == at[m] && at[m] in at && all[n] == bt[n - |at|] && bt[n - |at|] in bt;
      }
    }
  }

  lemma RuleHitsNext(p: Patterns, line: NewFileLine, rules: seq<Rule>, n: nat)
    requires n < |rules|
    ensures RuleHits(p, line, rules[..0]) == []
    ensures RuleHits(p, line, rules[..n + 1])
         == RuleHits(p, line, rules[..n]) + (if p.matches(rules[n].id, line.content) then [(rules[n], line)] else [])
  {
    assert rules[..n + 1][..n] == rules[..n];
  }

  ghost predicate FiresBelow(p: Patterns, lines: seq<NewFileLine>, rules: seq<Rule>, i: nat, n: nat, place: Place) {
    Fires(p, lines, rules, place) && place.line == i && place.rule < n
  }

  lemma FiresNext(p: Patterns, lines: seq<NewFileLine>, rules: seq<Rule>, i: nat, n: nat, place: Place)
    requires i < |lines| && lines[i].added && n < |rules|
    ensures !FiresBelow(p, lines, rules, i, 0, place)
    ensures FiresBelow(p, lines, rules, i, n, place) ==> PlaceBefore(place, Place(i, n))
    ensures FiresBelow(p, lines, rules, i, n + 1, place) <==>
            FiresBelow(p, lines, rules, i, n, place) || (place == Place(i, n) && p.matches(rules[n].id, lines[i].content))
  {
  }

  lemma OneHit(lines: seq<NewFileLine>, rules: seq<Rule>, i: nat, r: nat)
    requires i < |lines| && r < |rules|
    ensures HitAt(lines, rules, [(rules[r], lines[i])], [Place(i, r)])
    ensures HitAt(lines, rules, [], [])
  {
  }

  /** The rules that fire on line `i`, of the first `n`. */
  lemma {:induction false} RulesOnLine(p: Patterns, lines: seq<NewFileLine>, rules: seq<Rule>, i: nat, n: nat) returns (at: seq<Place>)
    requires i < |lines| && lines[i].added && n <= |rules| && rules != []
    ensures HitAt(lines, rules, RuleHits(p, lines[i], rules[..n]), at)
    ensures forall place :: place in at <==> FiresBelow(p, lines, rules, i, n, place)
  {
    hide *;
    var k := if n == 0 then 0 else n - 1;
    RuleHitsNext(p, lines[i], rules, k);
    OneHit(lines, rules, i, k);
    if n == 0 {
      at := [];
      forall place ensures !FiresBelow(p, lines, rules, i, n, place) {
        FiresNext(p, lines, rules, i, 0, place);
      }
    } else {
      forall place
        ensures FiresBelow(p, lines, rules, i, k, place) ==> PlaceBefore(place, Place(i, k))
        ensures FiresBelow(p, lines, rules, i, n, place) <==>
                FiresBelow(p, lines, rules, i, k, place) || (place == Place(i, k) && p.matches(rules[k].id, lines[i].content))
      {
        FiresNext(p, lines, rules, i, k, place);
      }
      var before := RulesOnLine(p, lines, rules, i, k);
      if p.matches(rules[k].id, lines[i].content) {
        at := before + [Place(i, k)];
        HitMore(lines, rules, RuleHits(p, lines[i], rules[..k]), before, [(rules[k], lines[i])], [Place(i, k)]);
      } else {
        at := before;
        assert RuleHits(p, lines[i], rules[..k]) + [] == RuleHits(p, lines[i], rules[..k]);
      }
    }
  }

  lemma NoHitYet(p: Patterns, lines: seq<NewFileLine>, rules: seq<Rule>)
    ensures HitAt(lines, rules, LineHits(p, lines[..0]), []) && RULES != []
  {
  }

  /** The rules report exactly the places where they fire, line after line and rule after rule. */
  lemma {:induction false} RulesOnLines(p: Patterns, lines: seq<NewFileLine>, n: nat) returns (at: seq<Place>)
    requires n <= |lines|
    ensures HitAt(lines, RULES, LineHits(p, lines[..n]), at)
    ensures forall place :: place in at <==> Fires(p, lines, RULES, place) && place.line < n
  {
    hide RULES, LineHits, RuleHits, HitAt;
    NoHitYet(p, lines, RULES);
    if n == 0 {
      at := [];
    } else {
      var before := RulesOnLines(p, lines, n - 1);
      LinePrefix(p, lines, n - 1);
      if lines[n - 1].added {
        var more := RulesOnLine(p, lines, RULES, n - 1, |RULES|);
        assert RULES[..|RULES|] == RULES;
        at := before + more;
        HitMore(lines, RULES, LineHits(p, lines[..n - 1]), before, RuleHits(p, lines[n - 1], RULES), more);
      } else {
        at := before;
        assert LineHits(p, lines[..n]) == LineHits(p, lines[..n - 1]);
      }
    }
  }

  // ---- What is reported --------------------------------------------------------------------

  /** The rules: what each id stands for. */
  ghost predicate Catalogued(id: string, severity: Severity, category: Category, title: string) {
    || (id == "MOCK-001" && severity.Critical? && category.Security? && title == "eval usage")
    || (id == "MOCK-002" && severity.Critical? && category.Security? && title == "hardcoded credential")
    || (id == "MOCK-003" && severity.High? && category.Security? && title == "SQL string concatenation")
    || (id == "MOCK-004" && severity.High? && category.Correctness? && title == "swallowed exception")
    || (id == "MOCK-005" && severity.Medium? && category.Correctness? && title == "loose null comparison")
    || (id == "MOCK-006" && severity.Medium? && category.Performance? && title == "deep-clone via JSON")
    || (id == "MOCK-007" && severity.Low? && category.Style? && title == "console.log left in")
    || (id == "MOCK-008" && severity.Low? && category.Style? && title == "unresolved marker")
    || (id == "MOCK-INJ" && severity.Critical? && category.Security? && title == "prompt-injection content")
  }

  predicate InCatalogue(rule: Rule) {
    rule in RULES || rule == EMPTY_CATCH
  }

  lemma CatalogueIs(rule: Rule)
    ensures InCatalogue(rule) <==> Catalogued(rule.id, rule.severity, rule.category, rule.title)
    ensures rule == EMPTY_CATCH <==> InCatalogue(rule) && rule.id == "MOCK-004"
  {
    if rule in RULES {
      var k :| 0 <= k < |RULES| && rule == RULES[k];
      RuleAt(k);
    }
    if Catalogued(rule.id, rule.severity, rule.category, rule.title) && rule.id != "MOCK-004" {
      var k := CataloguedAt(rule);
    }
    hide RULES;
  }

  lemma RuleAt(k: nat)
    requires k < |RULES|
    ensures Catalogued(RULES[k].id, RULES[k].severity, RULES[k].category, RULES[k].title)
    ensures RULES[k].id != "MOCK-004"
  {
    assert "MOCK-004"[5..] == "004" && RULES[k].id[5..] != "004";
  }

  lemma CataloguedAt(rule: Rule) returns (k: nat)
    requires Catalogued(rule.id, rule.severity, rule.category, rule.title) && rule.id != "MOCK-004"
    ensures k < |RULES| && rule == RULES[k]
  {
    k := if rule.title == RULES[0].title then 0
         else if rule.title == RULES[1].title then 1
         else if rule.title == RULES[2].title then 2
         else if rule.title == RULES[3].title then 3
         else if rule.title == RULES[4].title then 4
         else if rule.title == RULES[5].title then 5
         else if rule.title == RULES[6].title then 6
         else 7;
  }

  /** `f` reports line `i`: one of the rules on a line that its pattern matches, or MOCK-004 on a line with
      an empty catch block, with the line's path, number and text. */
  ghost predicate Reports(p: Patterns, lines: seq<NewFileLine>, i: int, f: Finding) {
    && 0 <= i < |lines| && lines[i].added
    && f.path == lines[i].path && f.line == lines[i].line >= 1 && f.evidence == lines[i].content
    && Catalogued(f.ruleId, f.severity, f.category, f.title)
    && f.id == f.ruleId + ":" + f.path + ":" + Decimal(lines[i].line)
    && if f.ruleId == "MOCK-004" then Swallows(p, lines, i) else p.matches(f.ruleId, lines[i].content)
  }

  /** A hit on line `i`. */
  ghost predicate HitsLine(p: Patterns, lines: seq<NewFileLine>, hit: Hit, i: int) {
    && 0 <= i < |lines| && lines[i].added && hit.1 == lines[i] && InCatalogue(hit.0)
    && if hit.0 == EMPTY_CATCH then Swallows(p, lines, i) else p.matches(hit.0.id, lines[i].content)
  }

  lemma LineHitsAre(p: Patterns, lines: seq<NewFileLine>, hit: Hit)
    ensures hit in LineHits(p, lines) <==>
            exists place :: Fires(p, lines, RULES, place) && hit == (RULES[place.rule], lines[place.line])
  {
    var at := RulesOnLines(p, lines, |lines|);
    var hits := LineHits(p, lines);
    assert lines[..|lines|] == lines;
    hide LineHits, RULES;
    if hit in hits {
      var m :| 0 <= m < |hits| && hits[m] == hit;
      assert at[m] in at;
    }
    if place :| Fires(p, lines, RULES, place) && hit == (RULES[place.rule], lines[place.line]) {
      assert place in at;
    }
  }

  lemma CatchHitsAre(p: Patterns, file: FileDiff, hit: Hit)
    ensures hit in CatchHits(EmptyCatches(p, file)) <==>
            exists i :: Swallows(p, file.lines, i) && 0 <= i < |file.lines| && hit == (EMPTY_CATCH, file.lines[i])
  {
    var at := EmptyCatchesAre(p, file);
    var found := EmptyCatches(p, file);
    hide EmptyCatches, Swallows, EMPTY_CATCH;
    if hit in CatchHits(found) {
      var m :| 0 <= m < |found| && CatchHits(found)[m] == hit;
      assert at[m] in at;
    }
    if i :| Swallows(p, file.lines, i) && 0 <= i < |file.lines| && hit == (EMPTY_CATCH, file.lines[i]) {
      var m :| 0 <= m < |at| && at[m] == i;
      assert CatchHits(found)[m] == hit;
    }
  }

  lemma FileHitsAre(p: Patterns, file: FileDiff, hit: Hit)
    ensures hit in FileHits(p, file) <==> exists i :: HitsLine(p, file.lines, hit, i)
  {
    CatalogueIs(hit.0);
    LineHitsAre(p, file.lines, hit);
    CatchHitsAre(p, file, hit);
    hide LineHits, CatchHits, EmptyCatches, Swallows, RULES;
    if hit in LineHits(p, file.lines) {
      var place :| Fires(p, file.lines, RULES, place) && hit == (RULES[place.rule], file.lines[place.line]);
      CatalogueIs(RULES[place.rule]);
      RuleAt(place.rule);
      assert HitsLine(p, file.lines, hit, place.line);
    }
    if i :| HitsLine(p, file.lines, hit, i) && hit.0 != EMPTY_CATCH {
      var r :| 0 <= r < |RULES| && hit.0 == RULES[r];
      assert Fires(p, file.lines, RULES, Place(i, r));
    }
    if i :| Swallows(p, file.lines, i) && 0 <= i < |file.lines| && hit == (EMPTY_CATCH, file.lines[i]) {
      SwallowsAdded(p, file.lines, i);
      assert HitsLine(p, file.lines, hit, i);
    }
    if i :| HitsLine(p, file.lines, hit, i) && hit.0 == EMPTY_CATCH {
      assert Swallows(p, file.lines, i);
    }
  }

  lemma SwallowsAdded(p: Patterns, lines: seq<NewFileLine>, i: int)
    requires Swallows(p, lines, i)
    ensures 0 <= i < |lines| && lines[i].added
  {
  }

  /** The order of the hits of a file: first those of the rules, line after line and rule after rule, then
      the empty catch blocks. */
  lemma FileHitsInOrder(p: Patterns, file: FileDiff) returns (at: seq<Place>, catches: seq<nat>)
    ensures |at| <= |FileHits(p, file)| == |at| + |catches|
    ensures HitAt(file.lines, RULES, FileHits(p, file)[..|at|], at)
    ensures forall place :: place in at <==> Fires(p, file.lines, RULES, place)
    ensures forall i :: i in catches <==> Swallows(p, file.lines, i)
    ensures forall m :: 0 <= m < |catches| ==>
              catches[m] < |file.lines| && FileHits(p, file)[|at| + m] == (EMPTY_CATCH, file.lines[catches[m]])
    ensures forall m, n :: 0 <= m < n < |catches| ==> Precedes(file.lines, catches[m], catches[n])
  {
    var lines := file.lines;
    at := RulesOnLines(p, lines, |lines|);
    assert lines[..|lines|] == lines;
    catches := EmptyCatchesAre(p, file);
    hide RULES, EMPTY_CATCH, Swallows, EmptyCatches, LineHits, Precedes, RuleHits;
    assert FileHits(p, file)[..|at|] == LineHits(p, lines);
  }

  lemma FindingIs(p: Patterns, lines: seq<NewFileLine>, hit: Hit, i: int, f: Finding)
    requires HitsLine(p, lines, hit, i)
    ensures FindingOf(hit) == Some(f) <==>
            Reports(p, lines, i, f) && hit.0 == Rule(f.ruleId, f.severity, f.category, f.title)
  {
    CatalogueIs(hit.0);
    hide InCatalogue, Swallows, Catalogued, Decimal, EMPTY_CATCH;
  }

  lemma {:induction false} HitsIff(p: Patterns, files: seq<FileDiff>, hit: Hit)
    ensures hit in Hits(p, files) <==> exists k :: 0 <= k < |files| && hit in FileHits(p, files[k])
  {
    hide FileHits;
    if files != [] {
      var n := |files| - 1;
      HitsIff(p, files[..n], hit);
      if k :| 0 <= k < |files| && hit in FileHits(p, files[k]) && k < n {
        assert files[..n][k] == files[k];
      }
    }
  }

  ghost predicate ReportedIn(p: Patterns, file: FileDiff, f: Finding) {
    exists i :: Reports(p, file.lines, i, f)
  }

  lemma ReportedIff(p: Patterns, file: FileDiff, f: Finding)
    ensures ReportedIn(p, file, f) <==>
            exists hit :: hit in FileHits(p, file) && FindingOf(hit) == Some(f)
  {
    hide FileHits, FindingOf, Reports, HitsLine, InCatalogue;
    if i :| Reports(p, file.lines, i, f) {
      var hit := HitOf(p, file.lines, i, f);
      FileHitsAre(p, file, hit);
      FindingIs(p, file.lines, hit, i, f);
    }
    if hit :| hit in FileHits(p, file) && FindingOf(hit) == Some(f) {
      FileHitsAre(p, file, hit);
      var i :| HitsLine(p, file.lines, hit, i);
      FindingIs(p, file.lines, hit, i, f);
    }
  }

  lemma HitOf(p: Patterns, lines: seq<NewFileLine>, i: int, f: Finding) returns (hit: Hit)
    requires Reports(p, lines, i, f)
    ensures HitsLine(p, lines, hit, i) && hit.0 == Rule(f.ruleId, f.severity, f.category, f.title)
  {
    hit := (Rule(f.ruleId, f.severity, f.category, f.title), lines[i]);
    CatalogueIs(hit.0);
    hide InCatalogue, Swallows, Catalogued, Decimal, EMPTY_CATCH;
  }

  /** The findings of a review, whatever the files: exactly those that report a line of one of them. */
  lemma ReviewReports(p: Patterns, files: seq<FileDiff>, f: Finding)
    requires ReviewOf(p, files).Some?
    ensures f in ReviewOf(p, files).value <==> exists k :: 0 <= k < |files| && ReportedIn(p, files[k], f)
  {
    var hits, found := Hits(p, files), ReviewOf(p, files).value;
    BuildsIff(hits);
    hide Hits, Build, FileHits, FindingOf, ReportedIn;
    if f in found {
      var m :| 0 <= m < |found| && found[m] == f;
      HitsIff(p, files, hits[m]);
      var k :| 0 <= k < |files| && hits[m] in FileHits(p, files[k]);
      ReportedIff(p, files[k], f);
    }
    if k :| 0 <= k < |files| && ReportedIn(p, files[k], f) {
      ReportedIff(p, files[k], f);
      var hit :| hit in FileHits(p, files[k]) && FindingOf(hit) == Some(f);
      HitsIff(p, files, hit);
      var m :| 0 <= m < |hits| && hits[m] == hit;
      assert found[m] == f;
    }
  }
}
