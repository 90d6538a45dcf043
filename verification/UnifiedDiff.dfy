/** The unified format itself (POSIX `diff`, "Diff -u or -U Output Format"; git's variant adds a
    "diff --git" line and extended headers): edit scripts, the files they patch, and their text. */
module UnifiedDiff {
  import opened Text

  /** One line of a hunk. `Keep` and `Delete` consume a line of the old file; `Marker` is the
      "\ No newline at end of file" note and touches neither file. */
  datatype Op = Keep | Delete | Insert(text: string) | Marker

  /** An edit script walks the old file: lines passed over, and hunks. */
  datatype Segment = Unchanged(count: nat) | Hunk(ops: seq<Op>, heading: string)

  datatype Target = InTree(path: string, prefixed: bool) | Removed

  /** One file of a diff. `stamp` is what follows the name on the "+++" line. */
  datatype FileEdit = FileEdit(
    base: seq<string>,
    script: seq<Segment>,
    gitArgs: string,
    extended: seq<string>,
    oldName: string,
    target: Target,
    stamp: string)

  // ---- Applying a script -------------------------------------------------------------------

  datatype Origin = PassedOver | Kept | Inserted

  /** A line of the patched file, with where it came from; `hunk` counts hunks from 0. */
  datatype PatchedLine = PatchedLine(text: string, origin: Origin, hunk: int)

  function OldCount(ops: seq<Op>): nat {
    if ops == [] then 0 else (if ops[0].Keep? || ops[0].Delete? then 1 else 0) + OldCount(ops[1..])
  }

  function NewCount(ops: seq<Op>): nat {
    if ops == [] then 0 else (if ops[0].Keep? || ops[0].Insert? then 1 else 0) + NewCount(ops[1..])
  }

  function Consumed(segment: Segment): nat {
    match segment
    case Unchanged(count) => count
    case Hunk(ops, _) => OldCount(ops)
  }

  /** The script covers the old file exactly. */
  predicate Fits(base: seq<string>, script: seq<Segment>) {
    if script == [] then base == []
    else Consumed(script[0]) <= |base| && Fits(base[Consumed(script[0])..], script[1..])
  }

  function PatchHunk(base: seq<string>, ops: seq<Op>, hunk: int): (r: seq<PatchedLine>)
    requires |base| == OldCount(ops)
    ensures |r| == NewCount(ops)
  {
    if ops == [] then []
    else match ops[0]
      case Keep => [PatchedLine(base[0], Kept, hunk)] + PatchHunk(base[1..], ops[1..], hunk)
      case Delete => PatchHunk(base[1..], ops[1..], hunk)
      case Insert(text) => [PatchedLine(text, Inserted, hunk)] + PatchHunk(base, ops[1..], hunk)
      case Marker => PatchHunk(base, ops[1..], hunk)
  }

  function PassOver(base: seq<string>, hunk: int): (r: seq<PatchedLine>)
    ensures |r| == |base| && forall i :: 0 <= i < |r| ==> r[i] == PatchedLine(base[i], PassedOver, hunk)
  {
    seq(|base|, i requires 0 <= i < |base| => PatchedLine(base[i], PassedOver, hunk))
  }

  /** The patched file, line by line; its text is the `text` of each line. */
  function Patch(base: seq<string>, script: seq<Segment>, hunk: int): seq<PatchedLine>
    requires Fits(base, script)
  {
    if script == [] then []
    else
      var n := Consumed(script[0]);
      match script[0]
      case Unchanged(_) => PassOver(base[..n], hunk) + Patch(base[n..], script[1..], hunk)
      case Hunk(ops, _) => PatchHunk(base[..n], ops, hunk) + Patch(base[n..], script[1..], hunk + 1)
  }

  // ---- Writing a script --------------------------------------------------------------------

  function HunkLines(base: seq<string>, ops: seq<Op>): seq<string>
    requires |base| == OldCount(ops)
  {
    if ops == [] then []
    else match ops[0]
      case Keep => [" " + base[0]] + HunkLines(base[1..], ops[1..])
      case Delete => ["-" + base[0]] + HunkLines(base[1..], ops[1..])
      case Insert(text) => ["+" + text] + HunkLines(base, ops[1..])
      case Marker => ["\\ No newline at end of file"] + HunkLines(base, ops[1..])
  }

  /** The first line of a range of `count` lines after `before` lines: an empty range is numbered by
      the line before it. */
  function RangeStart(before: nat, count: nat): nat {
    if count == 0 then before else before + 1
  }

  /** A count of one is left out. */
  function RangeCount(count: nat): string {
    if count == 1 then "" else "," + Decimal(count)
  }

  function HunkHeaderLine(oldBefore: nat, oldCount: nat, newBefore: nat, newCount: nat, heading: string): string {
    "@@ -" + Decimal(RangeStart(oldBefore, oldCount)) + RangeCount(oldCount)
    + " +" + Decimal(RangeStart(newBefore, newCount)) + RangeCount(newCount)
    + " @@" + heading
  }

  function ScriptLines(base: seq<string>, script: seq<Segment>, oldBefore: nat, newBefore: nat): seq<string>
    requires Fits(base, script)
  {
    if script == [] then []
    else
      var n := Consumed(script[0]);
      match script[0]
      case Unchanged(_) => ScriptLines(base[n..], script[1..], oldBefore + n, newBefore + n)
      case Hunk(ops, heading) =>
        [HunkHeaderLine(oldBefore, n, newBefore, NewCount(ops), heading)]
        + HunkLines(base[..n], ops)
        + ScriptLines(base[n..], script[1..], oldBefore + n, newBefore + NewCount(ops))
  }

  function TargetName(target: Target): string {
    match target
    case InTree(path, prefixed) => if prefixed then "b/" + path else path
    case Removed => "/dev/null"
  }

  function HeaderLines(git: bool, f: FileEdit): seq<string> {
    (if git then ["diff --git " + f.gitArgs] + f.extended else []) + ["--- " + f.oldName]
  }

  function FileLines(git: bool, f: FileEdit): seq<string>
    requires Fits(f.base, f.script)
  {
    HeaderLines(git, f) + ["+++ " + (TargetName(f.target) + f.stamp)] + ScriptLines(f.base, f.script, 0, 0)
  }

  function FileText(git: bool, eol: string, f: FileEdit): string
    requires Fits(f.base, f.script)
  {
    Flatten(Terminated(FileLines(git, f), eol))
  }

  predicate AllFit(files: seq<FileEdit>) {
    forall f :: f in files ==> Fits(f.base, f.script)
  }

  /** The text of a whole diff. */
  function Render(git: bool, eol: string, files: seq<FileEdit>): string
    requires AllFit(files)
  {
    if files == [] then "" else FileText(git, eol, files[0]) + Render(git, eol, files[1..])
  }

  // ---- What a diff may contain -------------------------------------------------------------

  /** The lines of a hunk hold no line boundary of their own. */
  ghost predicate CleanHunk(base: seq<string>, ops: seq<Op>)
    requires |base| == OldCount(ops)
  {
    ops == [] ||
    match ops[0]
    case Keep => OneLine(base[0]) && CleanHunk(base[1..], ops[1..])
    case Delete => OneLine(base[0]) && CleanHunk(base[1..], ops[1..])
    case Insert(text) => OneLine(text) && CleanHunk(base, ops[1..])
    case Marker => CleanHunk(base, ops[1..])
  }

  ghost predicate CleanScript(base: seq<string>, script: seq<Segment>)
    requires Fits(base, script)
  {
    script == [] ||
    var n := Consumed(script[0]);
    && (script[0].Hunk? ==> OneLine(script[0].heading) && CleanHunk(base[..n], script[0].ops))
    && CleanScript(base[n..], script[1..])
  }

  /** Paths that survive the trimming and unquoting of the "+++" line. */
  ghost predicate CleanTarget(target: Target) {
    target.InTree? ==>
      var path := target.path;
      && path != "" && path != "/dev/null" && OneLine(path) && '\t' !in path
      && !IsSpace(path[|path| - 1])
      && (!target.prefixed ==> !IsSpace(path[0]) && path[0] != '"' && !("a/" <= path) && !("b/" <= path))
  }

  ghost predicate Clean(f: FileEdit) {
    && Fits(f.base, f.script) && CleanScript(f.base, f.script)
    && OneLine(f.gitArgs) && OneLine(f.oldName) && OneLine(f.stamp)
    && (f.stamp != "" ==> f.stamp[0] == '\t')
    && CleanTarget(f.target)
    && forall i :: 0 <= i < |f.extended| ==>
         OneLine(f.extended[i]) && !("diff --git " <= f.extended[i]) && !("+++ " <= f.extended[i])
  }

  ghost predicate AllClean(files: seq<FileEdit>)
    ensures AllClean(files) ==> AllFit(files)
  {
    forall f :: f in files ==> Clean(f)
  }

  function HunkCount(script: seq<Segment>): nat {
    if script == [] then 0 else (if script[0].Hunk? then 1 else 0) + HunkCount(script[1..])
  }

  // ---- What a line-by-line reader can mistake ----------------------------------------------

  /** No inserted text of the hunk starts with "++", and no deleted text that starts with "--" is
      followed in it by a line of the new side. */
  predicate Readable(base: seq<string>, ops: seq<Op>)
    requires |base| == OldCount(ops)
  {
    ops == [] ||
    match ops[0]
    case Keep => Readable(base[1..], ops[1..])
    case Delete => if "--" <= base[0] then NewCount(ops[1..]) == 0 else Readable(base[1..], ops[1..])
    case Insert(text) => !("++" <= text) && Readable(base, ops[1..])
    case Marker => Readable(base, ops[1..])
  }

  predicate ReadableScript(base: seq<string>, script: seq<Segment>)
    requires Fits(base, script)
  {
    script == [] ||
    var n := Consumed(script[0]);
    && (script[0].Hunk? ==> Readable(base[..n], script[0].ops))
    && ReadableScript(base[n..], script[1..])
  }

  /** No deleted text that starts with "-- " stands right before an inserted one that starts with
      "++ ": the two would read as the headers of another file. */
  predicate NoMimicry(base: seq<string>, ops: seq<Op>)
    requires |base| == OldCount(ops)
  {
    ops == [] ||
    match ops[0]
    case Keep => NoMimicry(base[1..], ops[1..])
    case Delete =>
      && !("-- " <= base[0] && |ops| > 1 && ops[1].Insert? && "++ " <= ops[1].text)
      && NoMimicry(base[1..], ops[1..])
    case Insert(_) => NoMimicry(base, ops[1..])
    case Marker => NoMimicry(base, ops[1..])
  }

  predicate NoMimicryScript(base: seq<string>, script: seq<Segment>)
    requires Fits(base, script)
  {
    script == [] ||
    var n := Consumed(script[0]);
    && (script[0].Hunk? ==> NoMimicry(base[..n], script[0].ops))
    && NoMimicryScript(base[n..], script[1..])
  }
}
