/** The hunk-header scanner against the pattern it stands for (app/diff/parser.py:33):
    `^@@\s+-\d+(?:,\d+)?\s+\+(\d+)(?:,\d+)?\s+@@`. */
module HunkHeader {
  import opened Wrappers
  import opened Text
  import opened Parser

  datatype Parts = Parts(
    gap1: string, oldStart: string, oldCount: string,
    gap2: string, newStart: string, newCount: string,
    gap3: string, tail: string)

  ghost predicate Spaces(s: string) {
    s != "" && forall i :: 0 <= i < |s| ==> IsSpace(s[i])
  }

  ghost predicate Digits(s: string) {
    s != "" && forall i :: 0 <= i < |s| ==> IsDigit(s[i])
  }

  ghost predicate OptionalCount(s: string) {
    s == "" || (s[0] == ',' && Digits(s[1..]))
  }

  ghost predicate WellFormed(p: Parts) {
    && Spaces(p.gap1) && Digits(p.oldStart) && OptionalCount(p.oldCount)
    && Spaces(p.gap2) && Digits(p.newStart) && OptionalCount(p.newCount)
    && Spaces(p.gap3)
  }

  ghost function Spell(p: Parts): string {
    "@@" + (p.gap1 + "-" + AfterMinus(p))
  }

  ghost function AfterMinus(p: Parts): string {
    p.oldStart + p.oldCount + AfterOldRange(p)
  }

  ghost function AfterOldRange(p: Parts): string {
    p.gap2 + "+" + AfterPlus(p)
  }

  ghost function AfterPlus(p: Parts): string {
    p.newStart + p.newCount + AfterNewRange(p)
  }

  ghost function AfterNewRange(p: Parts): string {
    p.gap3 + "@@" + p.tail
  }

  lemma {:induction false} DropSpacesOf(gap: string, rest: string)
    requires forall i :: 0 <= i < |gap| ==> IsSpace(gap[i])
    requires rest != "" && !IsSpace(rest[0])
    ensures DropSpaces(gap + rest) == rest
  {
    if gap == "" {
      assert gap + rest == rest;
    } else {
      assert (gap + rest)[1..] == gap[1..] + rest;
      DropSpacesOf(gap[1..], rest);
    }
  }

  lemma ScanSpacedOf(gap: string, mark: string, rest: string)
    requires Spaces(gap) && mark != "" && !IsSpace(mark[0])
    ensures ScanSpaced(gap + mark + rest, mark) == Some(rest)
  {
    assert gap + mark + rest == gap + (mark + rest);
    DropSpacesOf(gap, mark + rest);
    assert (mark + rest)[|mark|..] == rest;
  }

  lemma {:induction false} DropSpacesSplit(s: string) returns (gap: string)
    ensures s == gap + DropSpaces(s)
    ensures forall i :: 0 <= i < |gap| ==> IsSpace(gap[i])
    ensures s != "" && IsSpace(s[0]) ==> gap != ""
  {
    if s != "" && IsSpace(s[0]) {
      var g := DropSpacesSplit(s[1..]);
      gap := [s[0]] + g;
    } else {
      gap := "";
    }
  }

  lemma ScanSpacedSplit(s: string, mark: string) returns (gap: string)
    requires ScanSpaced(s, mark).Some?
    ensures Spaces(gap) && s == gap + mark + ScanSpaced(s, mark).value
  {
    gap := DropSpacesSplit(s);
  }

  lemma {:induction false} DigitRunOf(digits: string, rest: string)
    requires forall i :: 0 <= i < |digits| ==> IsDigit(digits[i])
    requires rest == "" || !IsDigit(rest[0])
    ensures DigitRun(digits + rest) == |digits|
  {
    if digits == "" {
      assert digits + rest == rest;
    } else {
      assert (digits + rest)[1..] == digits[1..] + rest;
      DigitRunOf(digits[1..], rest);
    }
  }

  lemma ScanRangeOf(start: string, count: string, rest: string)
    requires Digits(start) && OptionalCount(count)
    requires rest != "" && IsSpace(rest[0])
    ensures ScanRange(start + count + rest) == Some((start, rest))
  {
    assert start + count + rest == start + (count + rest);
    DigitRunOf(start, count + rest);
    assert (start + (count + rest))[|start|..] == count + rest;
    if count != "" {
      assert (count + rest)[1..] == count[1..] + rest;
      DigitRunOf(count[1..], rest);
    }
  }

  lemma ScanRangeSplit(s: string) returns (count: string)
    requires ScanRange(s).Some?
    ensures var (start, rest) := ScanRange(s).value;
            Digits(start) && OptionalCount(count) && s == start + count + rest
  {
    var n := DigitRun(s);
    var rest := s[n..];
    if rest != "" && rest[0] == ',' && DigitRun(rest[1..]) > 0 {
      var m := DigitRun(rest[1..]);
      count := rest[..m + 1];
      assert count[1..] == rest[1..][..m];
    } else {
      count := "";
    }
  }

  lemma ScanOldRange(p: Parts)
    requires WellFormed(p)
    ensures "@@" <= Spell(p)
    ensures ScanSpaced(Spell(p)[2..], "-") == Some(AfterMinus(p))
    ensures ScanRange(AfterMinus(p)) == Some((p.oldStart, AfterOldRange(p)))
  {
    assert Spell(p)[2..] == p.gap1 + "-" + AfterMinus(p);
    ScanSpacedOf(p.gap1, "-", AfterMinus(p));
    assert AfterOldRange(p)[0] == p.gap2[0];
    ScanRangeOf(p.oldStart, p.oldCount, AfterOldRange(p));
  }

  lemma ScanNewRange(p: Parts)
    requires WellFormed(p)
    ensures ScanSpaced(AfterOldRange(p), "+") == Some(AfterPlus(p))
    ensures ScanRange(AfterPlus(p)) == Some((p.newStart, AfterNewRange(p)))
  {
    ScanSpacedOf(p.gap2, "+", AfterPlus(p));
    assert AfterNewRange(p)[0] == p.gap3[0];
    ScanRangeOf(p.newStart, p.newCount, AfterNewRange(p));
  }

  lemma ScanClosingMark(p: Parts)
    requires WellFormed(p)
    ensures ScanSpaced(AfterNewRange(p), "@@") == Some(p.tail)
  {
    ScanSpacedOf(p.gap3, "@@", p.tail);
  }

  /** A line the pattern matches is recognised, with the captured number as the start. */
  lemma HeaderRecognised(p: Parts)
    requires WellFormed(p)
    ensures HunkStart(Spell(p)) == Some(Value(p.newStart))
  {
    ScanOldRange(p);
    ScanNewRange(p);
    ScanClosingMark(p);
  }

  /** Only lines the pattern matches are recognised. */
  lemma RecognisedIsHeader(line: string) returns (p: Parts)
    requires HunkStart(line).Some?
    ensures WellFormed(p) && line == Spell(p) && HunkStart(line) == Some(Value(p.newStart))
  {
    var gap1 := ScanSpacedSplit(line[2..], "-");
    var afterMinus := ScanSpaced(line[2..], "-").value;
    var oldCount := ScanRangeSplit(afterMinus);
    var (oldStart, afterOld) := ScanRange(afterMinus).value;
    var gap2 := ScanSpacedSplit(afterOld, "+");
    var afterPlus := ScanSpaced(afterOld, "+").value;
    var newCount := ScanRangeSplit(afterPlus);
    var (newStart, afterNew) := ScanRange(afterPlus).value;
    var gap3 := ScanSpacedSplit(afterNew, "@@");
    p := Parts(gap1, oldStart, oldCount, gap2, newStart, newCount, gap3, ScanSpaced(afterNew, "@@").value);
    assert line == "@@" + line[2..];
  }

  /** The scanner accepts exactly the lines the pattern matches, and reads the captured number. */
  lemma HunkStartMatchesPattern(line: string, start: nat)
    ensures HunkStart(line) == Some(start) <==>
            exists p :: WellFormed(p) && line == Spell(p) && start == Value(p.newStart)
  {
    if HunkStart(line) == Some(start) {
      var p := RecognisedIsHeader(line);
    }
    if p :| WellFormed(p) && line == Spell(p) && start == Value(p.newStart) {
      HeaderRecognised(p);
    }
  }

  // ---- The number --------------------------------------------------------------------------

  function PowerOfTen(n: nat): nat {
    if n == 0 then 1 else 10 * PowerOfTen(n - 1)
  }

  predicate AllDigits(s: string) {
    forall i :: 0 <= i < |s| ==> IsDigit(s[i])
  }

  lemma ValueSnoc(a: string, b: string)
    requires AllDigits(a) && AllDigits(b) && b != ""
    ensures AllDigits(a + b) && AllDigits(b[..|b| - 1])
    ensures Value(a + b) == 10 * Value(a + b[..|b| - 1]) + (b[|b| - 1] as int - '0' as int)
    ensures Value(b) == 10 * Value(b[..|b| - 1]) + (b[|b| - 1] as int - '0' as int)
  {
    assert (a + b)[..|a + b| - 1] == a + b[..|b| - 1];
  }

  lemma TimesTen(v: nat, p: nat)
    ensures v * (10 * p) == 10 * (v * p)
  {
  }

  lemma ValueOfNone(a: string)
    requires AllDigits(a)
    ensures a + "" == a && Value("") == 0 && (|a| == 1 ==> Value(a) == a[0] as int - '0' as int)
  {
  }

  /** A digit stands for itself, and for ten times as much one place further to the left. */
  lemma {:induction false} PlaceValue(a: string, b: string)
    requires AllDigits(a) && AllDigits(b)
    ensures Value(a + b) == Value(a) * PowerOfTen(|b|) + Value(b)
    ensures |a| == 1 ==> Value(a) == a[0] as int - '0' as int
    decreases |b|
  {
    hide Value;
    ValueOfNone(a);
    if b != "" {
      var n := |b| - 1;
      ValueSnoc(a, b);
      PlaceValue(a, b[..n]);
      TimesTen(Value(a), PowerOfTen(n));
    }
  }
}
