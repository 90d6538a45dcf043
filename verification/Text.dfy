/** The string operations of Python that the diff parser leans on. */
module Text {

  /** The line boundaries of `str.splitlines`. */
  predicate IsLineBreak(c: char) {
    || c == '\n' || c == '\r' || c == '\U{000B}' || c == '\U{000C}'
    || '\U{001C}' <= c <= '\U{001E}'
    || c == '\U{0085}' || c == '\U{2028}' || c == '\U{2029}'
  }

  /** `str.isspace`, which is also `\s` in a pattern and what `str.strip` removes. */
  predicate IsSpace(c: char) {
    || '\t' <= c <= '\r' || '\U{001C}' <= c <= ' '
    || c == '\U{0085}' || c == '\U{00A0}' || c == '\U{1680}'
    || '\U{2000}' <= c <= '\U{200A}' || c == '\U{2028}' || c == '\U{2029}'
    || c == '\U{202F}' || c == '\U{205F}' || c == '\U{3000}'
  }

  predicate IsDigit(c: char) {
    '0' <= c <= '9'
  }

  function Flatten<T>(parts: seq<seq<T>>): seq<T> {
    if parts == [] then [] else parts[0] + Flatten(parts[1..])
  }

  lemma {:induction false} FlattenAppend<T>(a: seq<seq<T>>, b: seq<seq<T>>)
    ensures Flatten(a + b) == Flatten(a) + Flatten(b)
  {
    if a == [] {
      assert a + b == b;
    } else {
      assert (a + b)[1..] == a[1..] + b;
      FlattenAppend(a[1..], b);
    }
  }

  /** `len(s.encode("utf-8"))`. */
  function Utf8Length(s: string): nat {
    if s == "" then 0
    else (if s[0] < '\U{0080}' then 1 else if s[0] < '\U{0800}' then 2
          else if s[0] < '\U{10000}' then 3 else 4) + Utf8Length(s[1..])
  }

  lemma {:induction false} Utf8LengthAppend(a: string, b: string)
    ensures Utf8Length(a + b) == Utf8Length(a) + Utf8Length(b)
  {
    if a == "" {
      assert a + b == b;
    } else {
      assert (a + b)[1..] == a[1..] + b;
      Utf8LengthAppend(a[1..], b);
    }
  }

  // ---- Lines -------------------------------------------------------------------------------

  /** The length of the first line of `s`, its terminator included; "\r\n" is one terminator. */
  function FirstLine(s: string): (n: nat)
    requires s != ""
    ensures 1 <= n <= |s|
  {
    if IsLineBreak(s[0]) then (if s[0] == '\r' && |s| > 1 && s[1] == '\n' then 2 else 1)
    else if |s| == 1 then 1
    else 1 + FirstLine(s[1..])
  }

  /** `s.splitlines(keepends=True)`. */
  function SplitLines(s: string): (lines: seq<string>)
    ensures Flatten(lines) == s
    ensures forall i :: 0 <= i < |lines| ==> lines[i] != ""
  {
    if s == "" then []
    else
      var n := FirstLine(s);
      assert s == s[..n] + s[n..];
      [s[..n]] + SplitLines(s[n..])
  }

  predicate OneLine(s: string) {
    forall i :: 0 <= i < |s| ==> !IsLineBreak(s[i])
  }

  predicate IsEol(eol: string) {
    eol == "\n" || eol == "\r\n"
  }

  lemma {:induction false} FirstLineIs(line: string, eol: string, rest: string)
    requires OneLine(line) && IsEol(eol)
    ensures FirstLine(line + eol + rest) == |line| + |eol|
  {
    var s := line + eol + rest;
    if line == "" {
      assert s[0] == eol[0];
      assert |eol| == 2 ==> s[1] == eol[1];
    } else {
      assert s[1..] == line[1..] + eol + rest;
      FirstLineIs(line[1..], eol, rest);
    }
  }

  predicate OneLines(lines: seq<string>) {
    forall i :: 0 <= i < |lines| ==> OneLine(lines[i])
  }

  function Terminated(lines: seq<string>, eol: string): seq<string> {
    if lines == [] then [] else [lines[0] + eol] + Terminated(lines[1..], eol)
  }

  /** Splitting undoes joining, for lines that hold no line boundary of their own. */
  lemma {:induction false} SplitJoined(lines: seq<string>, eol: string)
    requires OneLines(lines) && IsEol(eol)
    ensures SplitLines(Flatten(Terminated(lines, eol))) == Terminated(lines, eol)
  {
    if lines != [] {
      var line, rest := lines[0] + eol, Flatten(Terminated(lines[1..], eol));
      FirstLineIs(lines[0], eol, rest);
      SplitJoined(lines[1..], eol);
      FlattenCons(line, Terminated(lines[1..], eol));
      assert (line + rest)[|line|..] == rest && (line + rest)[..|line|] == line;
    }
  }

  lemma FlattenCons<T>(head: seq<T>, tail: seq<seq<T>>)
    ensures Flatten([head] + tail) == head + Flatten(tail)
  {
    assert ([head] + tail)[1..] == tail;
  }

  // ---- Stripping ---------------------------------------------------------------------------

  function DropSpaces(s: string): (r: string)
    ensures |r| <= |s|
    ensures r != "" ==> !IsSpace(r[0])
  {
    if s != "" && IsSpace(s[0]) then DropSpaces(s[1..]) else s
  }

  function DropTrailingSpaces(s: string): (r: string)
    ensures r <= s
  {
    if s != "" && IsSpace(s[|s| - 1]) then DropTrailingSpaces(s[..|s| - 1]) else s
  }

  /** `s.strip()`. */
  function Strip(s: string): string {
    DropTrailingSpaces(DropSpaces(s))
  }

  lemma {:induction false} TrailingKeeps(s: string)
    requires s != "" && !IsSpace(s[0])
    ensures DropTrailingSpaces(s) != ""
  {
    if |s| > 1 {
      TrailingKeeps(s[..|s| - 1]);
    }
  }

  lemma {:induction false} DropBlank(s: string)
    ensures DropSpaces(s) == "" <==> forall i :: 0 <= i < |s| ==> IsSpace(s[i])
  {
    if s != "" && IsSpace(s[0]) {
      DropBlank(s[1..]);
      assert forall i :: 0 < i < |s| ==> s[i] == s[1..][i - 1];
    }
  }

  /** Stripping leaves nothing exactly of a text that is all space. */
  lemma BlankIff(s: string)
    ensures Strip(s) == "" <==> forall i :: 0 <= i < |s| ==> IsSpace(s[i])
  {
    DropBlank(s);
    var t := DropSpaces(s);
    if t != "" {
      TrailingKeeps(t);
    }
  }

  /** `s.rstrip("\r\n")`. */
  function StripEol(s: string): (r: string)
    ensures r <= s
  {
    if s != "" && (s[|s| - 1] == '\r' || s[|s| - 1] == '\n') then StripEol(s[..|s| - 1]) else s
  }

  /** Only line ends are stripped, and all of them. */
  lemma {:induction false} StripEolTail(s: string)
    ensures forall i :: |StripEol(s)| <= i < |s| ==> s[i] == '\r' || s[i] == '\n'
    ensures StripEol(s) != "" ==> var r := StripEol(s); r[|r| - 1] != '\r' && r[|r| - 1] != '\n'
  {
    if s != "" && (s[|s| - 1] == '\r' || s[|s| - 1] == '\n') {
      StripEolTail(s[..|s| - 1]);
    }
  }

  lemma StripEolSnoc(s: string, c: char)
    requires c == '\r' || c == '\n'
    ensures StripEol(s + [c]) == StripEol(s)
  {
    assert (s + [c])[..|s|] == s;
  }

  lemma StripEolOf(line: string, eol: string)
    requires OneLine(line) && IsEol(eol)
    ensures StripEol(line + eol) == line
  {
    StripEolSnoc(line, eol[0]);
    if eol == "\n" {
      assert line + eol == line + [eol[0]];
    } else {
      StripEolSnoc(line + [eol[0]], eol[1]);
      assert line + eol == line + [eol[0]] + [eol[1]];
    }
    if line != "" {
      assert !IsLineBreak(line[|line| - 1]);
    }
  }

  // ---- Decimal numbers ---------------------------------------------------------------------

  /** `str(n)`. */
  function Decimal(n: nat): (s: string)
    ensures s != "" && forall i :: 0 <= i < |s| ==> IsDigit(s[i])
  {
    if n < 10 then [('0' as int + n) as char] else Decimal(n / 10) + [('0' as int + n % 10) as char]
  }

  /** `int(s)` for a non-empty string of digits. */
  function Value(s: string): nat
    requires forall i :: 0 <= i < |s| ==> IsDigit(s[i])
  {
    if s == "" then 0
    else
      assert IsDigit(s[|s| - 1]);
      10 * Value(s[..|s| - 1]) + (s[|s| - 1] as int - '0' as int)
  }

  lemma {:induction false} ValueOfDecimal(n: nat)
    ensures Value(Decimal(n)) == n
  {
    var s := Decimal(n);
    if n >= 10 {
      ValueOfDecimal(n / 10);
      assert s[..|s| - 1] == Decimal(n / 10);
    } else {
      assert s[..|s| - 1] == "";
    }
  }

  /** The length of the longest run of digits at the head of `s`. */
  function DigitRun(s: string): (n: nat)
    ensures n <= |s|
    ensures forall i :: 0 <= i < n ==> IsDigit(s[i])
    ensures n < |s| ==> !IsDigit(s[n])
  {
    if s != "" && IsDigit(s[0]) then 1 + DigitRun(s[1..]) else 0
  }
}
