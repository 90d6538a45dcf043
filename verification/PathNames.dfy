/** What path a "+++ " line names, for every line (app/diff/parser.py:36-42). */
module PathNames {
  import opened Text
  import opened Parser
  import opened ParserRoundTrip

  /** A header text cut up: the name, the space around it, and what follows from a tab on. */
  datatype Cut = Cut(before: string, name: string, after: string, tail: string)

  ghost predicate Blank(s: string) {
    forall i :: 0 <= i < |s| ==> IsSpace(s[i])
  }

  ghost predicate IsCut(header: string, c: Cut) {
    && header == c.before + c.name + c.after + c.tail
    && Blank(c.before) && Blank(c.after) && '\t' !in c.before + c.name + c.after
    && (c.tail == "" || c.tail[0] == '\t')
    && if c.name == "" then c.after == "" else !IsSpace(c.name[0]) && !IsSpace(c.name[|c.name| - 1])
  }

  /** A name in double quotes stands for what is between them; a lone quote for nothing. */
  function Unquoted(name: string): string {
    if name == "\"" then ""
    else if |name| >= 2 && name[0] == '"' && name[|name| - 1] == '"' then name[1..|name| - 1]
    else name
  }

  /** A leading "a/" or "b/", inside the quotes if there are any, is no part of the path. */
  function Named(name: string): string {
    var n := Unquoted(name);
    if |n| >= 2 && (n[0] == 'a' || n[0] == 'b') && n[1] == '/' then n[2..] else n
  }

  lemma {:induction false} DropBefore(before: string, s: string)
    requires Blank(before)
    ensures DropSpaces(before + s) == DropSpaces(s)
  {
    if before == "" {
      assert before + s == s;
    } else {
      assert (before + s)[0] == before[0] && (before + s)[1..] == before[1..] + s;
      DropBefore(before[1..], s);
    }
  }

  lemma {:induction false} DropAfter(s: string, after: string)
    requires Blank(after)
    ensures DropTrailingSpaces(s + after) == DropTrailingSpaces(s)
  {
    if after == "" {
      assert s + after == s;
    } else {
      var n := |after| - 1;
      assert (s + after)[|s| + n] == after[n] && (s + after)[..|s| + n] == s + after[..n];
      DropAfter(s, after[..n]);
    }
  }

  lemma StripPadded(before: string, name: string, after: string)
    requires Blank(before) && Blank(after) && (name == "" ==> after == "")
    requires name != "" ==> !IsSpace(name[0]) && !IsSpace(name[|name| - 1])
    ensures Strip(before + name + after) == name
  {
    DropBefore(before, name + after);
    DropAfter(name, after);
    assert before + name + after == before + (name + after);
    assert name != "" ==> (name + after)[0] == name[0];
  }

  lemma EolIsSpace(c: char)
    requires c == '\r' || c == '\n'
    ensures IsSpace(c)
  {
  }

  /** Line ends are stripped from the tail, the text before it stays. */
  lemma EolsOfTail(header: string, text: string, tail: string)
    requires header == text + tail && '\t' !in text && tail != "" && tail[0] == '\t'
    ensures BeforeTab(StripEol(header)) == text
  {
    StripEolTail(header);
    hide StripEol, BeforeTab;
    var kept := StripEol(header);
    assert |kept| > |text| by {
      assert header[|text|] == '\t';
    }
    assert kept == text + kept[|text|..] && kept[|text|..][0] == '\t';
    BeforeTabOf(text, kept[|text|..]);
  }

  /** Without a tail they are stripped from the space behind the name. */
  lemma EolsOfSpace(text: string, n: nat)
    requires '\t' !in text && n <= |text| && (n > 0 ==> !IsSpace(text[n - 1])) && Blank(text[n..])
    ensures BeforeTab(StripEol(text)) <= text && |BeforeTab(StripEol(text))| >= n
  {
    StripEolTail(text);
    var kept := StripEol(text);
    assert kept == text[..|kept|] && kept + "" == kept;
    BeforeTabOf(kept, "");
    hide StripEol, BeforeTab, IsSpace;
    if |kept| < n {
      EolIsSpace(text[n - 1]);
    }
  }

  /** What is left behind the name. */
  lemma EolsGo(header: string, c: Cut) returns (after: string)
    requires IsCut(header, c)
    ensures BeforeTab(StripEol(header)) == if c.name == "" then after else c.before + c.name + after
    ensures Blank(after)
  {
    hide StripEol, BeforeTab, IsSpace;
    var text := c.before + c.name + c.after;
    if c.tail != "" {
      EolsOfTail(header, text, c.tail);
      after := if c.name == "" then c.before else c.after;
      assert c.name == "" ==> text == c.before;
    } else {
      assert header == text;
      var n := if c.name == "" then 0 else |c.before + c.name|;
      assert c.name == "" ==> text == c.before && text[n..] == text;
      assert c.name != "" ==> text[n - 1] == c.name[|c.name| - 1] && text[n..] == c.after;
      EolsOfSpace(text, n);
      after := BeforeTab(StripEol(text))[n..];
      assert text[..n] + after == BeforeTab(StripEol(text));
      assert forall i :: 0 <= i < |after| ==> after[i] == text[n..][i];
    }
  }

  lemma UnquotedAlike(name: string)
    ensures Unquote(name) == Unquoted(name)
  {
  }

  lemma UnprefixedAlike(n: string)
    ensures "a/" <= n <==> |n| >= 2 && n[0] == 'a' && n[1] == '/'
    ensures "b/" <= n <==> |n| >= 2 && n[0] == 'b' && n[1] == '/'
  {
  }

  lemma CleanPathSteps(header: string, name: string)
    requires Strip(BeforeTab(StripEol(header))) == name
    ensures CleanPath(header) == Named(name)
  {
    hide StripEol, BeforeTab, Strip, Unquote, Unquoted;
    UnquotedAlike(name);
    UnprefixedAlike(Unquoted(name));
  }

  /** Every header text names the name cut out of it, without quotes and then without a leading "a/" or
      "b/"; a blank one names nothing. */
  lemma CleanPathIs(header: string, c: Cut)
    requires IsCut(header, c)
    ensures CleanPath(header) == Named(c.name)
  {
    hide CleanPath, Named, StripEol, BeforeTab, Strip, IsSpace;
    var after := EolsGo(header, c);
    if c.name == "" {
      BlankIff(after);
    } else {
      StripPadded(c.before, c.name, after);
    }
    CleanPathSteps(header, c.name);
  }

  lemma {:induction false} CutTab(s: string) returns (text: string, tail: string)
    ensures s == text + tail && '\t' !in text && (tail == "" || tail[0] == '\t')
  {
    if s == "" || s[0] == '\t' {
      text, tail := "", s;
    } else {
      text, tail := CutTab(s[1..]);
      text := [s[0]] + text;
    }
  }

  lemma {:induction false} CutLeading(s: string) returns (space: string, rest: string)
    ensures s == space + rest && Blank(space) && (rest == "" || !IsSpace(rest[0]))
  {
    if s == "" || !IsSpace(s[0]) {
      space, rest := "", s;
    } else {
      space, rest := CutLeading(s[1..]);
      space := [s[0]] + space;
    }
  }

  lemma {:induction false} CutTrailing(s: string) returns (rest: string, space: string)
    ensures s == rest + space && Blank(space) && (rest == "" || !IsSpace(rest[|rest| - 1]))
  {
    var n := |s| - 1;
    if s == "" || !IsSpace(s[n]) {
      rest, space := s, "";
    } else {
      rest, space := CutTrailing(s[..n]);
      space := space + [s[n]];
    }
  }

  /** Every header text can be cut so. */
  lemma CutHeader(header: string) returns (c: Cut)
    ensures IsCut(header, c)
  {
    hide IsSpace;
    var text, tail := CutTab(header);
    var before, rest := CutLeading(text);
    var name, after := CutTrailing(rest);
    assert (after == "" || IsSpace(after[0])) && (name == "" ==> rest == after);
    assert name != "" ==> name[0] == rest[0];
    assert before + name + after == text;
    c := Cut(before, name, after, tail);
  }
}
