/** The two substitutions that take the comments out of a catch block (app/providers/mock.py:122-125), and
    what a text that they leave blank looks like. */
module Comments {
  import opened Wrappers
  import opened Text

  // ---- The substitutions -------------------------------------------------------------------

  function Find(pattern: string, s: string): (r: Option<nat>)
    requires pattern != ""
    ensures r.Some? ==> r.value + |pattern| <= |s| && pattern <= s[r.value..]
  {
    if s == "" then None
    else if pattern <= s then Some(0)
    else match Find(pattern, s[1..])
      case Some(k) => assert s[1..][k..] == s[k + 1..]; Some(k + 1)
      case None => None
  }

  // The substitution of line 123: every block comment goes, leftmost and shortest first.
  function StripBlockComments(s: string): string
    decreases |s|
  {
    if s == "" then ""
    else if "/*" <= s && Find("*/", s[2..]).Some? then StripBlockComments(s[2..][Find("*/", s[2..]).value + 2..])
    else [s[0]] + StripBlockComments(s[1..])
  }

  function FromNewline(s: string): (r: string)
    ensures |r| <= |s|
  {
    if s == "" || s[0] == '\n' then s else FromNewline(s[1..])
  }

  // The substitution of line 124: every line comment goes, up to its newline.
  function StripLineComments(s: string): string
    decreases |s|
  {
    if s == "" then ""
    else if "//" <= s then StripLineComments(FromNewline(s[2..]))
    else [s[0]] + StripLineComments(s[1..])
  }

  predicate OnlyComments(body: string) {
    Strip(StripLineComments(StripBlockComments(body))) == ""
  }

  /** The two characters of `mark` stand at position `i` of `s`. */
  ghost predicate MarkAt(mark: string, s: string, i: int)
    requires |mark| == 2
  {
    0 <= i && i + 2 <= |s| && s[i] == mark[0] && s[i + 1] == mark[1]
  }

  lemma MarkIsPrefix(mark: string, s: string)
    requires |mark| == 2
    ensures mark <= s <==> MarkAt(mark, s, 0)
  {
    assert MarkAt(mark, s, 0) ==> s[..2] == mark;
  }

  /** `Find` gives the first position of a mark, if it has one. */
  lemma {:induction false} FindMark(mark: string, s: string)
    requires |mark| == 2
    ensures Find(mark, s).Some? ==>
              MarkAt(mark, s, Find(mark, s).value) && forall i :: 0 <= i < Find(mark, s).value ==> !MarkAt(mark, s, i)
    ensures Find(mark, s).None? ==> forall i :: !MarkAt(mark, s, i)
  {
    MarkIsPrefix(mark, s);
    if s != "" && !MarkAt(mark, s, 0) {
      FindMark(mark, s[1..]);
      assert forall i :: i > 0 ==> (MarkAt(mark, s, i) <==> MarkAt(mark, s[1..], i - 1));
    }
  }

  /** No mark starts inside `prefix` when it is followed by `mark`. */
  ghost predicate Before(prefix: string, mark: string)
    requires |mark| == 2
  {
    forall i :: 0 <= i < |prefix| ==> !MarkAt(mark, prefix + mark, i)
  }

  lemma MarkAfter(prefix: string, mark: string, rest: string)
    requires |mark| == 2 && Before(prefix, mark)
    ensures var s := prefix + mark + rest;
            MarkAt(mark, s, |prefix|) && (forall i :: 0 <= i < |prefix| ==> !MarkAt(mark, s, i)) && s[|prefix| + 2..] == rest
  {
    var s := prefix + mark + rest;
    forall i | 0 <= i < |prefix| ensures !MarkAt(mark, s, i) {
      assert !MarkAt(mark, prefix + mark, i);
      assert s[i] == (prefix + mark)[i] && s[i + 1] == (prefix + mark)[i + 1];
    }
  }

  lemma FindClosing(comment: string, mark: string, rest: string)
    requires |mark| == 2 && Before(comment, mark)
    ensures Find(mark, comment + mark + rest) == Some(|comment|)
    ensures (comment + mark + rest)[|comment| + 2..] == rest
  {
    hide Find, Before, MarkAt;
    MarkAfter(comment, mark, rest);
    FindMark(mark, comment + mark + rest);
  }

  /** The first character of a text that starts before the first mark. */
  lemma BeforeTail(prefix: string, mark: string, rest: string)
    requires prefix != "" && |mark| == 2 && Before(prefix, mark)
    ensures Before(prefix[1..], mark) && !(mark <= prefix + mark + rest)
    ensures (prefix + mark + rest)[0] == prefix[0]
    ensures (prefix + mark + rest)[1..] == prefix[1..] + mark + rest
  {
    var s := prefix + mark + rest;
    MarkAfter(prefix, mark, rest);
    MarkIsPrefix(mark, s);
    forall i | 0 <= i < |prefix| - 1 ensures !MarkAt(mark, prefix[1..] + mark, i) {
      assert !MarkAt(mark, prefix + mark, i + 1);
    }
  }

  lemma StripBlockHead(s: string)
    requires s != "" && !("/*" <= s && Find("*/", s[2..]).Some?)
    ensures StripBlockComments(s) == [s[0]] + StripBlockComments(s[1..])
  {
    hide Find;
  }

  lemma StripBlockHere(s: string, tail: string, close: nat)
    requires s != "" && "/*" <= s && s[2..] == tail && Find("*/", tail) == Some(close)
    ensures close + 2 <= |tail| && StripBlockComments(s) == StripBlockComments(tail[close + 2..])
  {
    hide Find;
  }

  /** The first block comment of a text goes, from its opening mark, over newlines, up to the first
      closing mark after it; what stands before it is kept, and the rest is treated alike. */
  lemma {:induction false} BlockCommentVanishes(prefix: string, comment: string, rest: string)
    requires Before(prefix, "/*") && Before(comment, "*/")
    ensures StripBlockComments(prefix + "/*" + (comment + "*/" + rest)) == prefix + StripBlockComments(rest)
    decreases |prefix|
  {
    hide *;
    var tail := comment + "*/" + rest;
    var s := prefix + "/*" + tail;
    if prefix == "" {
      FindClosing(comment, "*/", rest);
      assert s[2..] == tail && "/*" <= s;
      StripBlockHere(s, tail, |comment|);
    } else {
      BeforeTail(prefix, "/*", tail);
      BlockCommentVanishes(prefix[1..], comment, rest);
      StripBlockHead(s);
      assert [prefix[0]] + (prefix[1..] + StripBlockComments(rest)) == prefix + StripBlockComments(rest);
    }
  }

  /** No opening mark of `s` is followed by a closing one. */
  ghost predicate NoComment(s: string) {
    forall i, k :: MarkAt("/*", s, i) && i + 2 <= k ==> !MarkAt("*/", s, k)
  }

  /** A text without a block comment is kept whole. */
  lemma {:induction false} NoBlockComment(s: string)
    requires NoComment(s)
    ensures StripBlockComments(s) == s
  {
    if s != "" {
      MarkIsPrefix("/*", s);
      if "/*" <= s {
        FindMark("*/", s[2..]);
        assert forall k :: k >= 0 ==> (MarkAt("*/", s[2..], k) <==> MarkAt("*/", s, k + 2));
      }
      assert forall i :: i >= 0 ==> (MarkAt("/*", s[1..], i) <==> MarkAt("/*", s, i + 1));
      assert forall i :: i >= 0 ==> (MarkAt("*/", s[1..], i) <==> MarkAt("*/", s, i + 1));
      NoBlockComment(s[1..]);
      hide Find, StripBlockComments;
      StripBlockHead(s);
    }
  }

  lemma {:induction false} FromNewlineAt(comment: string, rest: string)
    requires '\n' !in comment && (rest == "" || rest[0] == '\n')
    ensures FromNewline(comment + rest) == rest
  {
    var s := comment + rest;
    if comment != "" {
      assert s[0] == comment[0] && s[1..] == comment[1..] + rest;
      FromNewlineAt(comment[1..], rest);
    } else {
      assert s == rest;
    }
  }

  /** The first line comment of a text goes, from its mark up to its newline, which stays, or to the
      end of the text; what stands before it is kept, and the rest is treated alike. */
  lemma {:induction false} LineCommentVanishes(prefix: string, comment: string, rest: string)
    requires Before(prefix, "//") && '\n' !in comment && (rest == "" || rest[0] == '\n')
    ensures StripLineComments(prefix + "//" + (comment + rest)) == prefix + StripLineComments(rest)
    decreases |prefix|
  {
    hide Before, FromNewline;
    var tail := comment + rest;
    var s := prefix + "//" + tail;
    if prefix == "" {
      assert s[2..] == tail && "//" <= s;
      FromNewlineAt(comment, rest);
    } else {
      BeforeTail(prefix, "//", tail);
      LineCommentVanishes(prefix[1..], comment, rest);
      assert [prefix[0]] + (prefix[1..] + StripLineComments(rest)) == prefix + StripLineComments(rest);
    }
  }

  /** A text without the mark of a line comment is kept whole. */
  lemma {:induction false} NoLineComment(s: string)
    requires forall i :: !MarkAt("//", s, i)
    ensures StripLineComments(s) == s
  {
    if s != "" {
      MarkIsPrefix("//", s);
      assert forall i :: i >= 0 ==> (MarkAt("//", s[1..], i) <==> MarkAt("//", s, i + 1));
      NoLineComment(s[1..]);
    }
  }

  /** Text without a slash is kept by both. */
  lemma PlainTextKept(body: string)
    requires '/' !in body
    ensures StripBlockComments(body) == body && StripLineComments(body) == body
  {
    assert forall i :: 0 <= i < |body| ==> body[i] != '/';
    NoBlockComment(body);
    NoLineComment(body);
  }

  lemma CutText(mark: string, s: string, k: nat)
    requires |mark| == 2 && MarkAt(mark, s, k)
    ensures s[..k] + mark == s[..k + 2] && s == s[..k] + mark + s[k + 2..]
  {
    assert s[k..k + 2] == mark;
  }

  lemma CutAtMark(mark: string, s: string)
    requires |mark| == 2 && Find(mark, s).Some?
    ensures var k := Find(mark, s).value;
            k + 2 <= |s| && Before(s[..k], mark) && s == s[..k] + mark + s[k + 2..]
  {
    FindMark(mark, s);
    hide Find;
    var k := Find(mark, s).value;
    CutText(mark, s, k);
    var head := s[..k + 2];
    forall i | 0 <= i < k ensures !MarkAt(mark, head, i) {
      assert !MarkAt(mark, s, i);
    }
  }

  lemma MarkInTail(mark: string, s: string, from: nat, k: int)
    requires |mark| == 2 && from <= k && MarkAt(mark, s, k)
    ensures from <= |s| && MarkAt(mark, s[from..], k - from)
  {
  }

  /** A text with a mark has a first one. */
  lemma FindBefore(mark: string, s: string, i: int)
    requires |mark| == 2 && MarkAt(mark, s, i)
    ensures Find(mark, s).Some? && Find(mark, s).value <= i && Find(mark, s).value + 2 <= |s|
  {
    FindMark(mark, s);
    hide Find;
  }

  lemma OpeningAndClosing(s: string, i: int, k: int)
    requires MarkAt("/*", s, i) && i + 2 <= k && MarkAt("*/", s, k)
    ensures Find("/*", s).Some? && Find("/*", s).value + 2 <= |s| && Find("*/", s[Find("/*", s).value + 2..]).Some?
  {
    hide *;
    FindBefore("/*", s, i);
    var from := Find("/*", s).value + 2;
    MarkInTail("*/", s, from, k);
    FindBefore("*/", s[from..], k - from);
  }

  lemma CommentMarks(s: string) returns (i: int, k: int)
    requires !NoComment(s)
    ensures MarkAt("/*", s, i) && i + 2 <= k && MarkAt("*/", s, k)
  {
    hide MarkAt;
    i, k :| MarkAt("/*", s, i) && i + 2 <= k && MarkAt("*/", s, k);
  }

  /** Every text that has a block comment has a first one: with `NoBlockComment`,
      `BlockCommentVanishes` says of every text what is left of it. */
  lemma FirstBlockComment(s: string) returns (prefix: string, comment: string, rest: string)
    requires !NoComment(s)
    ensures s == prefix + "/*" + (comment + "*/" + rest) && Before(prefix, "/*") && Before(comment, "*/")
  {
    hide *;
    var i, k := CommentMarks(s);
    OpeningAndClosing(s, i, k);
    var open := Find("/*", s).value;
    var tail := s[open + 2..];
    CutAtMark("/*", s);
    CutAtMark("*/", tail);
    var close := Find("*/", tail).value;
    prefix, comment, rest := s[..open], tail[..close], tail[close + 2..];
  }

  /** Every text with the mark of a line comment has a first one. */
  lemma FirstLineComment(s: string, i: int) returns (prefix: string, comment: string, rest: string)
    requires MarkAt("//", s, i)
    ensures s == prefix + "//" + (comment + rest) && Before(prefix, "//")
    ensures '\n' !in comment && (rest == "" || rest[0] == '\n')
  {
    FindMark("//", s);
    hide *;
    CutAtMark("//", s);
    var mark := Find("//", s).value;
    prefix := s[..mark];
    comment, rest := CutAtNewline(s[mark + 2..]);
  }

  lemma {:induction false} CutAtNewline(s: string) returns (line: string, rest: string)
    ensures s == line + rest && '\n' !in line && (rest == "" || rest[0] == '\n')
  {
    if s == "" || s[0] == '\n' {
      line, rest := "", s;
    } else {
      line, rest := CutAtNewline(s[1..]);
      line := [s[0]] + line;
    }
  }

  // ---- What block comments are -------------------------------------------------------------

  /** A stretch of text and the comment that follows it. */
  datatype Part = Part(kept: string, comment: string)

  /** The text made of `parts`, each comment between its marks, and then of `last`. */
  function Written(parts: seq<Part>, last: string): string {
    if parts == [] then last
    else parts[0].kept + "/*" + (parts[0].comment + "*/" + Written(parts[1..], last))
  }

  function WithoutComments(parts: seq<Part>, last: string): string {
    if parts == [] then last else parts[0].kept + WithoutComments(parts[1..], last)
  }

  /** No comment is opened before its part's comment, none is closed within it, and none is left over. */
  ghost predicate LeftmostFirst(parts: seq<Part>, last: string) {
    && (forall i :: 0 <= i < |parts| ==> Before(parts[i].kept, "/*") && Before(parts[i].comment, "*/"))
    && NoComment(last)
  }

  ghost predicate IsCutBy(s: string, t: string, parts: seq<Part>, last: string) {
    LeftmostFirst(parts, last) && s == Written(parts, last) && t == WithoutComments(parts, last)
  }

  /** `t` is `s` with its block comments, leftmost first, taken out. */
  ghost predicate BlocksCut(s: string, t: string) {
    exists parts, last :: IsCutBy(s, t, parts, last)
  }

  lemma {:induction false} CutIsStrip(parts: seq<Part>, last: string)
    requires LeftmostFirst(parts, last)
    ensures StripBlockComments(Written(parts, last)) == WithoutComments(parts, last)
  {
    hide StripBlockComments, Before, NoComment;
    if parts == [] {
      NoBlockComment(last);
    } else {
      CutIsStrip(parts[1..], last);
      BlockCommentVanishes(parts[0].kept, parts[0].comment, Written(parts[1..], last));
    }
  }

  lemma {:induction false} StripIsCut(s: string) returns (parts: seq<Part>, last: string)
    ensures IsCutBy(s, StripBlockComments(s), parts, last)
    decreases |s|
  {
    hide StripBlockComments, Before, NoComment;
    if NoComment(s) {
      NoBlockComment(s);
      parts, last := [], s;
    } else {
      var prefix, comment, rest := FirstBlockComment(s);
      parts, last := StripIsCut(rest);
      BlockCommentVanishes(prefix, comment, rest);
      var part := Part(prefix, comment);
      assert ([part] + parts)[1..] == parts;
      parts := [part] + parts;
    }
  }

  /** The first substitution takes the block comments out, leftmost first, and there is one way to do so. */
  lemma BlocksCutIff(s: string, t: string)
    ensures BlocksCut(s, t) <==> t == StripBlockComments(s)
  {
    hide StripBlockComments, LeftmostFirst, Written, WithoutComments;
    if parts, last :| IsCutBy(s, t, parts, last) {
      CutIsStrip(parts, last);
    }
    var parts, last := StripIsCut(s);
  }

  // ---- What line comments are --------------------------------------------------------------

  /** Position `i` stands in the line comment opened at `m`: from there to here there is no newline. */
  ghost predicate CommentedFrom(s: string, m: int, i: int) {
    MarkAt("//", s, m) && m <= i < |s| && forall k :: m <= k <= i ==> s[k] != '\n'
  }

  ghost predicate InLineComment(s: string, i: int) {
    exists m :: CommentedFrom(s, m, i)
  }

  /** The characters from position `i` on that stand in no line comment. */
  ghost function Outside(s: string, i: nat): string
    requires i <= |s|
    decreases |s| - i
  {
    if i == |s| then ""
    else if InLineComment(s, i) then Outside(s, i + 1)
    else [s[i]] + Outside(s, i + 1)
  }

  /** No line comment opened before position `i` reaches it. */
  ghost predicate Fresh(s: string, i: nat) {
    forall m :: m < i ==> !CommentedFrom(s, m, i)
  }

  lemma {:induction false} SkipComment(s: string, m: int, i: nat, e: nat)
    requires m <= i <= e <= |s| && MarkAt("//", s, m) && (forall k :: m <= k < e ==> s[k] != '\n')
    ensures Outside(s, i) == Outside(s, e)
    decreases e - i
  {
    if i < e {
      assert CommentedFrom(s, m, i);
      SkipComment(s, m, i + 1, e);
    }
  }

  lemma {:induction false} NewlineFrom(s: string, i: nat) returns (e: nat)
    requires i <= |s|
    ensures i <= e <= |s| && (e == |s| || s[e] == '\n') && (forall k :: i <= k < e ==> s[k] != '\n')
    ensures FromNewline(s[i..]) == s[e..]
    decreases |s| - i
  {
    if i == |s| || s[i] == '\n' {
      e := i;
    } else {
      e := NewlineFrom(s, i + 1);
    }
  }

  lemma FreshNext(s: string, i: nat)
    requires i < |s| && Fresh(s, i) && !MarkAt("//", s, i)
    ensures !InLineComment(s, i) && Fresh(s, i + 1)
  {
    var next := i + 1;
    forall m | m < next ensures !CommentedFrom(s, m, next) {
      if CommentedFrom(s, m, next) {
        assert CommentedFrom(s, m, i);
      }
    }
  }

  lemma {:induction false} StripIsOutside(s: string, i: nat)
    requires i <= |s| && Fresh(s, i)
    ensures StripLineComments(s[i..]) == Outside(s, i)
    decreases |s| - i
  {
    if i < |s| {
      MarkIsPrefix("//", s[i..]);
      assert MarkAt("//", s[i..], 0) <==> MarkAt("//", s, i);
      if MarkAt("//", s, i) {
        var e := NewlineFrom(s, i + 2);
        assert s[i..][2..] == s[i + 2..];
        SkipComment(s, i, i, e);
        StripIsOutside(s, e);
      } else {
        FreshNext(s, i);
        StripIsOutside(s, i + 1);
      }
    }
  }

  /** The second substitution keeps exactly the characters outside line comments. */
  lemma LinesCut(s: string)
    ensures StripLineComments(s) == Outside(s, 0)
  {
    assert forall m :: m < 0 ==> !CommentedFrom(s, m, 0);
    StripIsOutside(s, 0);
    assert s[0..] == s;
  }

  lemma {:induction false} OutsideBlank(s: string, i: nat)
    requires i <= |s|
    ensures AllSpace(Outside(s, i)) <==> forall k :: i <= k < |s| ==> IsSpace(s[k]) || InLineComment(s, k)
    decreases |s| - i
  {
    hide InLineComment, IsSpace, AllSpace;
    if i < |s| {
      OutsideBlank(s, i + 1);
      AllSpaceCons(s[i], Outside(s, i + 1));
    } else {
      NoneIsSpace();
    }
  }

  ghost predicate AllSpace(s: string) {
    forall i :: 0 <= i < |s| ==> IsSpace(s[i])
  }

  lemma NoneIsSpace()
    ensures AllSpace("")
  {
  }

  lemma AllSpaceCons(c: char, s: string)
    ensures AllSpace([c] + s) <==> IsSpace(c) && AllSpace(s)
  {
    hide IsSpace;
    if AllSpace([c] + s) {
      assert ([c] + s)[0] == c;
      assert forall i :: 0 <= i < |s| ==> ([c] + s)[i + 1] == s[i];
    }
  }

  // ---- What counts as empty ----------------------------------------------------------------

  /** `t` holds nothing but space and line comments. */
  ghost predicate BlankButLines(t: string) {
    forall k :: 0 <= k < |t| ==> IsSpace(t[k]) || InLineComment(t, k)
  }

  /** A body counts as empty exactly if what is left of it without its block comments, leftmost first, is
      nothing but space and, up to a newline each, text from a "//" on. */
  lemma OnlyCommentsIff(s: string)
    ensures OnlyComments(s) <==> exists t :: BlocksCut(s, t) && BlankButLines(t)
  {
    var t := StripBlockComments(s);
    BlocksCutIff(s, t);
    LinesCut(t);
    OutsideBlank(t, 0);
    BlankIff(StripLineComments(t));
    hide StripBlockComments, StripLineComments, BlocksCut, Outside, InLineComment, Strip, IsSpace;
    if u :| BlocksCut(s, u) && BlankButLines(u) {
      BlocksCutIff(s, u);
    }
  }

  /** A block comment counts as empty whatever it holds but its closing mark, be it "//": behind space it
      can be left out. */
  lemma BlockCommentCounts(space: string, comment: string, rest: string)
    requires (forall i :: 0 <= i < |space| ==> IsSpace(space[i])) && Before(comment, "*/")
    ensures OnlyComments(space + "/*" + (comment + "*/" + rest)) <==> OnlyComments(rest)
  {
    var s, t := space + "/*" + (comment + "*/" + rest), StripBlockComments(rest);
    BlockCommentVanishes(space, comment, rest);
    LeadingSpace(space, t);
    BlankIff(StripLineComments(space + t));
    BlankIff(StripLineComments(t));
    hide StripBlockComments, StripLineComments, Strip, IsSpace, Before;
    var u := StripLineComments(t);
    assert forall i :: 0 <= i < |u| ==> (space + u)[|space| + i] == u[i];
  }

  /** The block comments go first: the "//" of a link in one opens no line comment. */
  lemma LinkInBlockComment(link: string, tail: string)
    requires '*' !in link && (forall i :: 0 <= i < |tail| ==> IsSpace(tail[i]))
    ensures OnlyComments("/*" + ("http://" + link + "*/" + tail))
  {
    var comment := "http://" + link;
    assert forall i :: 0 <= i < |comment| ==> (comment + "*/")[i] == comment[i] != '*';
    BlockCommentCounts("", comment, tail);
    assert "" + "/*" + (comment + "*/" + tail) == "/*" + ("http://" + link + "*/" + tail);
    SpaceIsEmpty(tail);
  }

  lemma SpaceIsEmpty(space: string)
    requires forall i :: 0 <= i < |space| ==> IsSpace(space[i])
    ensures OnlyComments(space)
  {
    PlainTextKept(space);
    BlankIff(space);
  }

  lemma {:induction false} LeadingSpace(space: string, t: string)
    requires forall i :: 0 <= i < |space| ==> IsSpace(space[i])
    ensures StripLineComments(space + t) == space + StripLineComments(t)
  {
    if space == "" {
      assert space + t == t && space + StripLineComments(t) == StripLineComments(t);
    } else {
      assert (space + t)[0] == space[0] && (space + t)[1..] == space[1..] + t;
      LeadingSpace(space[1..], t);
      assert space + StripLineComments(t) == [space[0]] + (space[1..] + StripLineComments(t));
    }
  }
}
