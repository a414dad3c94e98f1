/**
 * The rename_symbol tool: validation of the request, interpretation of tsserver's
 * rename reply, the workspace boundary, and the line-local text edits applied to each
 * file from the bottom up.
 */
module Rename {
  import opened Wrappers
  import opened Text
  import opened Arrays
  import opened Paths
  import opened Workspace

  // ---------------------------------------------------------------------------
  // Records

  /** One edit: columns [start.offset - 1, end.offset - 1) of line start.line become newText. */
  datatype TextChange = TextChange(start: Location, end: Location, newText: string)

  /** A line as it was and as it became. */
  datatype FileChange = FileChange(line: int, oldText: string, newText: string)

  datatype FileModification = FileModification(filePath: string, changeCount: nat, changes: seq<FileChange>)

  datatype Span = Span(start: Location, end: Location)
  datatype FileLocations = FileLocations(file: string, locs: seq<Span>)
  datatype RenameInfo = RenameInfo(canRename: bool, localizedErrorMessage: Option<string>)
  datatype RenameBody = RenameBody(info: Option<RenameInfo>, locs: Option<seq<FileLocations>>)

  datatype RenameInput = RenameInput(workspaceRoot: string, filePath: string, line: int, column: int, newName: string)
  datatype RenameSuccess = RenameSuccess(filesModified: seq<FileModification>, totalChanges: nat)

  // ---------------------------------------------------------------------------
  // The identifier check

  predicate IdentifierStart(c: char) {
    'a' <= c <= 'z' || 'A' <= c <= 'Z' || c == '_' || c == '$'
  }

  predicate IdentifierPart(c: char) {
    IdentifierStart(c) || '0' <= c <= '9'
  }

  /** The whole of s matches `[a-zA-Z_$][a-zA-Z0-9_$]*`. */
  predicate IsIdentifier(s: string) {
    |s| >= 1 && IdentifierStart(s[0]) && forall i | 1 <= i < |s| :: IdentifierPart(s[i])
  }

  /**
   * What the pattern accepts: never the empty name nor one that begins with a digit;
   * never a name holding anything besides letters, digits, '_' and '$'; and an
   * identifier stays one when more such characters follow it.
   */
  lemma {:induction false} IdentifierShape(s: string, more: string)
    ensures IsIdentifier(s) ==> s != [] && !('0' <= s[0] <= '9')
    ensures (exists i | 0 <= i < |s| :: !IdentifierPart(s[i])) ==> !IsIdentifier(s)
    ensures IsIdentifier(s) && (forall i | 0 <= i < |more| :: IdentifierPart(more[i])) ==> IsIdentifier(s + more)
    ensures IsIdentifier("newName") && IsIdentifier("$el") && !IsIdentifier("my-var")
  {
    if IsIdentifier(s) && forall i | 0 <= i < |more| :: IdentifierPart(more[i]) {
      var t := s + more;
      forall i | 1 <= i < |t| ensures IdentifierPart(t[i]) {
        if i >= |s| {
          assert t[i] == more[i - |s|];
        }
      }
    }
    assert "my-var"[2] == '-';
  }

  // ---------------------------------------------------------------------------
  // The workspace boundary

  /**
   * `isWithinWorkspace` as written: the resolved path's text begins with the resolved
   * root's text; `cwd` is the working directory `path.resolve` starts from.
   */
  predicate IsWithinWorkspace(cwd: string, filePath: string, root: string) {
    StartsWith(AbsolutePath(cwd, filePath), AbsolutePath(cwd, root))
  }

  /** The boundary as intended: the resolved path is the root or lies below it. */
  predicate IsInsideWorkspace(cwd: string, filePath: string, root: string) {
    IsInside(AbsolutePath(cwd, filePath), AbsolutePath(cwd, root))
  }

  /** Which workspace check filters the rename locations: the one written, or the intended one. */
  datatype Boundary = AsWritten | Intended

  predicate Admits(boundary: Boundary, cwd: string, filePath: string, root: string) {
    match boundary
    case AsWritten => IsWithinWorkspace(cwd, filePath, root)
    case Intended => IsInsideWorkspace(cwd, filePath, root)
  }

  /**
   * The written check admits a sibling directory whose name extends the root's: the file
   * is let through although its path relative to the root leaves the root.
   */
  lemma {:induction false} SiblingAdmitted()
    ensures IsWithinWorkspace("/", "/ws/app-old/x.ts", "/ws/app")
    ensures !IsInsideWorkspace("/", "/ws/app-old/x.ts", "/ws/app")
    ensures MakeRelativePath("/ws/app-old/x.ts", "/ws/app") == "../app-old/x.ts"
    ensures JoinPath("/ws/app", MakeRelativePath("/ws/app-old/x.ts", "/ws/app")) != "/ws/app-old/x.ts"
  {
    SiblingPrefix();
    SiblingClimbs();
    var joined := JoinPath("/ws/app", "../app-old/x.ts");
    assert joined == "/ws/app" + "/" + "../app-old/x.ts";
    assert joined[7] != "/ws/app-old/x.ts"[7];
  }

  /** "/ws/app-old/x.ts" begins with the text "/ws/app" but not with "/ws/app/". */
  lemma {:induction false} SiblingPrefix()
    ensures StartsWith("/ws/app-old/x.ts", "/ws/app")
    ensures !IsInside("/ws/app-old/x.ts", "/ws/app")
  {
    var p, root := "/ws/app-old/x.ts", "/ws/app";
    assert p[..|root|] == root;
    assert p[|root|] == '-';
    assert (root + "/")[|root|] == '/';
  }

  /** Relative to "/ws/app", the sibling's path climbs out of the root and back into "app-old". */
  lemma {:induction false} SiblingClimbs()
    ensures MakeRelativePath("/ws/app-old/x.ts", "/ws/app") == "../app-old/x.ts"
  {
    var p, root := "/ws/app-old/x.ts", "/ws/app";
    SiblingPrefix();
    assert p[|root|..][0] == '-';
    assert LastSegment("/ws/") == "";
    assert LastSegment(root) == "app";
    assert p[|root| - 3..] == "app-old/x.ts";
  }


  /**
   * Every file the intended check admits lies in the workspace: its path relative to
   * the root, joined back onto the root, is the path itself.
   */
  lemma {:induction false} InsideAdmitsOnlyWorkspaceFiles(cwd: string, filePath: string, root: string)
    requires IsInsideWorkspace(cwd, filePath, root)
    requires AbsolutePath(cwd, root) != ""
    requires Normal(AbsolutePath(cwd, root)) && Normal(AbsolutePath(cwd, filePath))
    ensures IsWithinWorkspace(cwd, filePath, root)
    ensures var p, r := AbsolutePath(cwd, filePath), AbsolutePath(cwd, root);
            JoinPath(r, MakeRelativePath(p, r)) == p
  {
    InsideRoundTrip(AbsolutePath(cwd, root), AbsolutePath(cwd, filePath));
  }

  // ---------------------------------------------------------------------------
  // Line-local edits

  /** `substring`'s clamping of an index into [0, n]. */
  function Clamp(i: int, n: nat): (r: nat)
    ensures r <= n
    ensures 0 <= i <= n ==> r == i
  {
    if i < 0 then 0 else if i > n then n else i
  }

  /** `line.substring(0, startCol) + text + line.substring(endCol)`. */
  function Splice(line: string, startCol: int, endCol: int, text: string): string {
    line[..Clamp(startCol, |line|)] + text + line[Clamp(endCol, |line|)..]
  }

  /** Within bounds, a splice keeps what lies before and after the replaced columns. */
  lemma {:induction false} SpliceReplaces(line: string, startCol: int, endCol: int, text: string)
    requires 0 <= startCol <= endCol <= |line|
    ensures var r := Splice(line, startCol, endCol, text);
            |r| == |line| - (endCol - startCol) + |text|
            && r[..startCol] == line[..startCol]
            && r[startCol..startCol + |text|] == text
            && r[startCol + |text|..] == line[endCol..]
  {
  }

  /**
   * Why the edits go from the right: two disjoint edits of one line, the later one
   * applied first, give both replacements at their original columns.
   */
  lemma {:induction false} RightToLeft(line: string, s1: int, e1: int, t1: string, s2: int, e2: int, t2: string)
    requires 0 <= s1 <= e1 <= s2 <= e2 <= |line|
    ensures Splice(Splice(line, s2, e2, t2), s1, e1, t1)
            == line[..s1] + t1 + line[e1..s2] + t2 + line[e2..]
  {
    var mid := Splice(line, s2, e2, t2);
    assert mid == line[..s2] + t2 + line[e2..];
    assert mid[..s1] == line[..s1];
    assert mid[e1..] == line[e1..s2] + t2 + line[e2..];
  }

  /** The sort order of `applyChangesToFile`: by start line, then start offset, both descending. */
  predicate ApplyOrder(a: TextChange, b: TextChange) {
    a.start.line > b.start.line || (a.start.line == b.start.line && a.start.offset >= b.start.offset)
  }

  lemma {:induction false} ApplyOrderIsTotal()
    ensures TotalPreorder(ApplyOrder)
  {
  }

  /** The index of the line a change targets, when it is within the file. */
  predicate InRange(c: TextChange, n: nat) {
    0 <= c.start.line - 1 < n
  }

  /** One change applied to the lines; a change whose line is out of range is skipped. */
  function ApplyEdit(lines: seq<string>, c: TextChange): (r: seq<string>)
    ensures |r| == |lines|
    ensures forall k | 0 <= k < |lines| && k != c.start.line - 1 :: r[k] == lines[k]
    ensures InRange(c, |lines|) ==>
              r[c.start.line - 1] == Splice(lines[c.start.line - 1], c.start.offset - 1, c.end.offset - 1, c.newText)
    ensures !InRange(c, |lines|) ==> r == lines
  {
    if InRange(c, |lines|) then
      var i := c.start.line - 1;
      lines[i := Splice(lines[i], c.start.offset - 1, c.end.offset - 1, c.newText)]
    else lines
  }

  /** The changes applied in the given order. */
  function ApplyAll(lines: seq<string>, cs: seq<TextChange>): (r: seq<string>)
    ensures |r| == |lines|
    decreases |cs|
  {
    if cs == [] then lines else ApplyEdit(ApplyAll(lines, cs[..|cs| - 1]), cs[|cs| - 1])
  }

  /** The record pushed for each applied change, in the order of application. */
  function Journal(lines: seq<string>, cs: seq<TextChange>): seq<FileChange>
    decreases |cs|
  {
    if cs == [] then []
    else
      var before := ApplyAll(lines, cs[..|cs| - 1]);
      var c := cs[|cs| - 1];
      Journal(lines, cs[..|cs| - 1])
      + if InRange(c, |lines|) then
          [FileChange(c.start.line, before[c.start.line - 1], ApplyEdit(before, c)[c.start.line - 1])]
        else []
  }

  /** `InRange` as the predicate `Filter` applies. */
  function InRangeOf(n: nat): TextChange -> bool {
    (c: TextChange) => InRange(c, n)
  }

  /** The changes whose line is within the file, in order. */
  function Applicable(cs: seq<TextChange>, n: nat): seq<TextChange> {
    Filter(cs, InRangeOf(n))
  }

  /** A line no change targets keeps its text. */
  lemma {:induction false} UntouchedLines(lines: seq<string>, cs: seq<TextChange>, k: int)
    requires 0 <= k < |lines|
    requires forall j | 0 <= j < |cs| :: cs[j].start.line != k + 1
    ensures ApplyAll(lines, cs)[k] == lines[k]
    decreases |cs|
  {
    if cs != [] {
      UntouchedLines(lines, cs[..|cs| - 1], k);
    }
  }

  /**
   * One record per applied change, even when several hit one line: the journal lists the
   * applicable changes' lines in order, with the line's text before and after the change.
   */
  lemma {:induction false} JournalMatches(lines: seq<string>, cs: seq<TextChange>)
    ensures |Journal(lines, cs)| == |Applicable(cs, |lines|)|
    ensures forall i | 0 <= i < |Journal(lines, cs)| ::
              Journal(lines, cs)[i].line == Applicable(cs, |lines|)[i].start.line
    decreases |cs|
  {
    if cs != [] {
      var init := cs[..|cs| - 1];
      JournalMatches(lines, init);
      JournalStep(lines, cs);
      ApplicableStep(cs, |lines|);
      var j, j0 := Journal(lines, cs), Journal(lines, init);
      var app, app0 := Applicable(cs, |lines|), Applicable(init, |lines|);
      forall i | 0 <= i < |j| ensures j[i].line == app[i].start.line {
        if i < |j0| {
          assert j[i] == j0[i] && app[i] == app0[i];
        }
      }
    }
  }

  /** The journal of one more change: the records so far, then one record when the change applies. */
  lemma {:induction false} JournalStep(lines: seq<string>, cs: seq<TextChange>)
    requires cs != []
    ensures var init, c := cs[..|cs| - 1], cs[|cs| - 1];
            Journal(lines, init) <= Journal(lines, cs)
            && |Journal(lines, cs)| == |Journal(lines, init)| + (if InRange(c, |lines|) then 1 else 0)
            && (InRange(c, |lines|) ==> Journal(lines, cs)[|Journal(lines, init)|].line == c.start.line)
  {
  }

  /** The applicable changes among one more change: those so far, then the change when it applies. */
  lemma {:induction false} ApplicableStep(cs: seq<TextChange>, n: nat)
    requires cs != []
    ensures var init, c := cs[..|cs| - 1], cs[|cs| - 1];
            Applicable(init, n) <= Applicable(cs, n)
            && |Applicable(cs, n)| == |Applicable(init, n)| + (if InRange(c, n) then 1 else 0)
            && (InRange(c, n) ==> Applicable(cs, n)[|Applicable(init, n)|] == c)
  {
    var init, c := cs[..|cs| - 1], cs[|cs| - 1];
    InitLast(cs);
    FilterAppend(init, [c], InRangeOf(n));
    FilterSingle(c, InRangeOf(n));
  }

  /** The records, once reversed, come in ascending line order. */
  lemma {:induction false} ReportedInDocumentOrder(lines: seq<string>, changes: seq<TextChange>)
    ensures var rev := Reverse(Journal(lines, SortBy(changes, ApplyOrder)));
            forall i, j | 0 <= i < j < |rev| :: rev[i].line <= rev[j].line
  {
    var sorted := SortBy(changes, ApplyOrder);
    ApplyOrderIsTotal();
    SortBySorts(changes, ApplyOrder);
    FilterSorted(sorted, InRangeOf(|lines|), ApplyOrder);
    JournalMatches(lines, sorted);
    var journal := Journal(lines, sorted);
    var app := Applicable(sorted, |lines|);
    var rev := Reverse(journal);
    forall i, j | 0 <= i < j < |rev| ensures rev[i].line <= rev[j].line {
      var a, b := |journal| - 1 - j, |journal| - 1 - i;
      assert ApplyOrder(app[a], app[b]);
    }
  }

  // ---------------------------------------------------------------------------
  // applyChangesToFile

  /**
   * What `applyChangesToFile` does to the file store and reports: the file's lines with
   * every change applied in descending position order, written back joined by newlines,
   * and the records reversed. Reading a missing file or a directory throws.
   */
  function ChangeFile(fs: FileSystem, path: string, changes: seq<TextChange>, root: string)
    : (r: Result<(FileModification, FileSystem), string>)
    ensures r.Failure? <==> path !in fs || fs[path].Directory?
    ensures r.Success? ==>
              var (m, fs') := r.value;
              m.changeCount == |m.changes| && fs'.Keys == fs.Keys
              && (forall q | q in fs && q != path :: fs'[q] == fs[q])
              && fs'[path].File?
              && m.filePath == MakeRelativePath(path, root)
  {
    if path !in fs then Failure("ENOENT: no such file or directory, open '" + path + "'")
    else match fs[path]
      case Directory => Failure(EISDIR_MESSAGE)
      case File(content) =>
        var lines := Split(content);
        var sorted := SortBy(changes, ApplyOrder);
        var reported := Reverse(Journal(lines, sorted));
        Success((FileModification(MakeRelativePath(path, root), |reported|, reported),
                 fs[path := File(Join(ApplyAll(lines, sorted)))]))
  }

  /** The number of changes reported for a file is the number whose line lies in it. */
  lemma {:induction false} ChangeCountIsApplicable(fs: FileSystem, path: string, changes: seq<TextChange>, root: string)
    requires path in fs && fs[path].File?
    ensures var r := ChangeFile(fs, path, changes, root);
            r.Success?
            && r.value.0.changeCount == |Applicable(changes, |Split(fs[path].content)|)|
  {
    var n := |Split(fs[path].content)|;
    var sorted := SortBy(changes, ApplyOrder);
    JournalMatches(Split(fs[path].content), sorted);
    FilterPermutation(sorted, changes, InRangeOf(n));
  }

  /** `[...changes].sort(compare)`: a copy of the changes, sorted in place. */
  method SortedCopy(changes: seq<TextChange>) returns (sorted: seq<TextChange>)
    ensures sorted == SortBy(changes, ApplyOrder)
  {
    var copy := new TextChange[|changes|](i requires 0 <= i < |changes| => changes[i]);
    assert copy[..] == changes;
    SortInPlace(copy, ApplyOrder);
    sorted := copy[..];
  }

  /**
   * The loop of `applyChangesToFile`: each change in turn rewrites its line of the array
   * in place, and a record of the line before and after is pushed.
   */
  method EditLines(lines: array<string>, sorted: seq<TextChange>) returns (fileChanges: seq<FileChange>)
    modifies lines
    ensures lines[..] == ApplyAll(old(lines[..]), sorted)
    ensures fileChanges == Journal(old(lines[..]), sorted)
  {
    ghost var parts := lines[..];
    fileChanges := [];
    for i := 0 to |sorted|
      invariant lines[..] == ApplyAll(parts, sorted[..i])
      invariant fileChanges == Journal(parts, sorted[..i])
    {
      var change := sorted[i];
      assert sorted[..i + 1][..i] == sorted[..i] && sorted[..i + 1][i] == change;
      var lineIdx := change.start.line - 1;
      if 0 <= lineIdx < lines.Length {
        var oldLine := lines[lineIdx];
        var newLine := Splice(oldLine, change.start.offset - 1, change.end.offset - 1, change.newText);
        fileChanges := fileChanges + [FileChange(change.start.line, oldLine, newLine)];
        lines[lineIdx] := newLine;
      }
    }
    assert sorted[..|sorted|] == sorted;
  }

  /**
   * `applyChangesToFile`: the file's lines are split into an array, the changes are
   * applied in place in descending position order, the lines are written back, and the
   * records of the changes are reversed into document order.
   */
  method ApplyChangesToFile(fs: FileSystem, path: string, changes: seq<TextChange>, root: string)
    returns (r: Result<(FileModification, FileSystem), string>)
    ensures r == ChangeFile(fs, path, changes, root)
  {
    if path !in fs {
      return Failure("ENOENT: no such file or directory, open '" + path + "'");
    }
    if fs[path].Directory? {
      return Failure(EISDIR_MESSAGE);
    }
    var parts := Split(fs[path].content);
    var lines := new string[|parts|](i requires 0 <= i < |parts| => parts[i]);
    assert lines[..] == parts;
    var sorted := SortedCopy(changes);
    var fileChanges := EditLines(lines, sorted);
    var written := fs[path := File(Join(lines[..]))];
    var reported := Reverse(fileChanges);
    r := Success((FileModification(MakeRelativePath(path, root), |reported|, reported), written));
  }

  // ---------------------------------------------------------------------------
  // handleRenameSymbol

  const NO_SYMBOL_MESSAGE := "No symbol found at the specified position"

  function NoSymbol<S>(): Response<S> {
    Err(ErrorInfo(NoSymbolAtPosition, NO_SYMBOL_MESSAGE))
  }

  /** The edits tsserver's locations ask for, all replacing with `newName`. */
  function ChangesFor(group: FileLocations, newName: string): (r: seq<TextChange>)
    ensures |r| == |group.locs|
    ensures forall i | 0 <= i < |r| ::
              r[i].start == group.locs[i].start && r[i].end == group.locs[i].end && r[i].newText == newName
  {
    seq(|group.locs|, i requires 0 <= i < |group.locs| => TextChange(group.locs[i].start, group.locs[i].end, newName))
  }

  function InvalidIdentifier<S>(newName: string): Response<S> {
    Err(ErrorInfo(RenameConflict, "Invalid identifier: \"" + newName
                                  + "\" is not a valid JavaScript/TypeScript identifier"))
  }

  /** The rename locations of the reply that the workspace check admits, in order. */
  function WorkspaceLocations(boundary: Boundary, cwd: string, root: string, locs: seq<FileLocations>)
    : (r: seq<FileLocations>)
    ensures forall i | 0 <= i < |r| :: Admits(boundary, cwd, r[i].file, root) && r[i] in locs
    ensures forall i | 0 <= i < |locs| && Admits(boundary, cwd, locs[i].file, root) :: locs[i] in r
  {
    Filter(locs, AdmittedBy(boundary, cwd, root))
  }

  /** `Admits` as the predicate `Filter` applies. */
  function AdmittedBy(boundary: Boundary, cwd: string, root: string): FileLocations -> bool {
    (g: FileLocations) => Admits(boundary, cwd, g.file, root)
  }

  /**
   * With the check as written, a reply whose only locations lie in the sibling
   * directory "/ws/app-old" of the root "/ws/app" is accepted and the sibling file is
   * edited and reported as "../app-old/x.ts"; the intended check answers the same reply
   * with a rename conflict.
   */
  lemma {:induction false} SiblingRenamed(fs: FileSystem, newName: string, span: Span)
    requires "/ws/app-old/x.ts" in fs && fs["/ws/app-old/x.ts"].File?
    ensures var g := FileLocations("/ws/app-old/x.ts", [span]);
            var reply: Result<Reply<RenameBody>, string> := Success(Reply(true, None, Some(RenameBody(None, Some([g])))));
            ServerPlan(AsWritten, "/", "/ws/app", None, reply) == Ok([g])
            && ServerPlan(Intended, "/", "/ws/app", None, reply).Err?
            && ServerPlan(Intended, "/", "/ws/app", None, reply).error.code == RenameConflict
            && |RenameFiles(fs, [g], newName, "/ws/app").0| == 1
            && RenameFiles(fs, [g], newName, "/ws/app").0[0].filePath == "../app-old/x.ts"
  {
    var g := FileLocations("/ws/app-old/x.ts", [span]);
    SiblingKept(g);
    SiblingFileEdited(fs, newName, g);
  }

  /** The sibling's locations pass the written filter and not the intended one. */
  lemma {:induction false} SiblingKept(g: FileLocations)
    requires g.file == "/ws/app-old/x.ts"
    ensures WorkspaceLocations(AsWritten, "/", "/ws/app", [g]) == [g]
    ensures WorkspaceLocations(Intended, "/", "/ws/app", [g]) == []
  {
    SiblingAdmitted();
    FilterSingle(g, AdmittedBy(AsWritten, "/", "/ws/app"));
    FilterSingle(g, AdmittedBy(Intended, "/", "/ws/app"));
  }

  /** Renaming in the sibling's locations edits the sibling file and reports it as a climb out of the root. */
  lemma {:induction false} SiblingFileEdited(fs: FileSystem, newName: string, g: FileLocations)
    requires g.file == "/ws/app-old/x.ts" && g.file in fs && fs[g.file].File?
    ensures |RenameFiles(fs, [g], newName, "/ws/app").0| == 1
    ensures RenameFiles(fs, [g], newName, "/ws/app").0[0].filePath == "../app-old/x.ts"
  {
    SiblingAdmitted();
    assert [g][..0] == [];
  }

  /**
   * With the intended check, every file the rename plans to edit lies in the workspace:
   * the written check admits it too, and its path relative to the root joins back onto
   * the root as the file's own path.
   */
  lemma {:induction false} IntendedPlanStaysInside(cwd: string, root: string, openError: Option<string>,
                                                   reply: Result<Reply<RenameBody>, string>)
    requires AbsolutePath(cwd, root) != "" && Normal(AbsolutePath(cwd, root))
    ensures var r := ServerPlan(Intended, cwd, root, openError, reply);
            r.Ok? ==>
              forall i | 0 <= i < |r.value| ::
                var p, base := AbsolutePath(cwd, r.value[i].file), AbsolutePath(cwd, root);
                IsInsideWorkspace(cwd, r.value[i].file, root) && IsWithinWorkspace(cwd, r.value[i].file, root)
                && (Normal(p) ==> JoinPath(base, MakeRelativePath(p, base)) == p)
  {
    var r := ServerPlan(Intended, cwd, root, openError, reply);
    if r.Ok? {
      forall i | 0 <= i < |r.value|
        ensures var p, base := AbsolutePath(cwd, r.value[i].file), AbsolutePath(cwd, root);
                IsInsideWorkspace(cwd, r.value[i].file, root) && IsWithinWorkspace(cwd, r.value[i].file, root)
                && (Normal(p) ==> JoinPath(base, MakeRelativePath(p, base)) == p)
      {
        var file := r.value[i].file;
        assert Admits(Intended, cwd, file, root);
        InsideStartsWith(AbsolutePath(cwd, file), AbsolutePath(cwd, root));
        if Normal(AbsolutePath(cwd, file)) {
          InsideAdmitsOnlyWorkspaceFiles(cwd, file, root);
        }
      }
    }
  }

  /**
   * The tsserver part of the rename: `openError` is the error the open request threw,
   * if any, and `reply` the rename request's reply or the error it threw. The result is
   * the locations to edit, or the error response.
   */
  function ServerPlan(boundary: Boundary, cwd: string, root: string, openError: Option<string>,
                      reply: Result<Reply<RenameBody>, string>): (r: Response<seq<FileLocations>>)
    ensures !r.Thrown?
    ensures openError.Some? ==> r == ServerFailure(openError.value)
    ensures openError.None? && reply.Failure? ==> r == ServerFailure(reply.error)
    ensures openError.None? && reply.Success? && !reply.value.success ==>
              r.Err?
              && (r.error.code == NoSymbolAtPosition <==>
                    reply.value.message.Some? && Contains(reply.value.message.value, "not find"))
              && (r.error.code != NoSymbolAtPosition ==> r.error.code == LanguageServerError)
    ensures openError.None? && reply.Success? && reply.value.success ==>
              var body := reply.value.body;
              (body.None? ==> r == NoSymbol())
              && (body.Some? && body.value.info.Some? && !body.value.info.value.canRename ==>
                    r.Err? && r.error.code == RenameConflict)
              && (body.Some? && !(body.value.info.Some? && !body.value.info.value.canRename) ==>
                    (body.value.locs.None? || body.value.locs.value == [] ==> r == NoSymbol())
                    && (body.value.locs.Some? && body.value.locs.value != [] ==>
                          var inside := WorkspaceLocations(boundary, cwd, root, body.value.locs.value);
                          (inside == [] ==> r.Err? && r.error.code == RenameConflict)
                          && (inside != [] ==> r == Ok(inside))))
  {
    if openError.Some? then ServerFailure(openError.value)
    else match reply
      case Failure(e) => ServerFailure(e)
      case Success(answer) =>
        if !answer.success then
          if answer.message.Some? && Contains(answer.message.value, "not find") then NoSymbol()
          else ServerFailure(OrElse(answer.message, "Failed to get rename information from language server"))
        else match answer.body
          case None => NoSymbol()
          case Some(body) =>
            if body.info.Some? && !body.info.value.canRename then
              Err(ErrorInfo(RenameConflict, OrElse(body.info.value.localizedErrorMessage, "Cannot rename this symbol")))
            else if body.locs.None? || body.locs.value == [] then NoSymbol()
            else
              var inside := WorkspaceLocations(boundary, cwd, root, body.locs.value);
              if inside == [] then
                Err(ErrorInfo(RenameConflict, "No rename locations found within the workspace"))
              else Ok(inside)
  }

  /**
   * Everything before the edits, first failure answering: the target checks, the
   * identifier check, then the tsserver part.
   */
  function RenamePlan(boundary: Boundary, fs: FileSystem, cwd: string, input: RenameInput, openError: Option<string>,
                      reply: Result<Reply<RenameBody>, string>): (r: Response<seq<FileLocations>>)
    ensures var checked := CheckTarget(fs, input.workspaceRoot, input.filePath, input.line, input.column);
            (!checked.Ok? ==> r == Recast(checked))
            && (checked.Ok? && !IsIdentifier(input.newName) ==> r == InvalidIdentifier(input.newName))
            && (checked.Ok? && IsIdentifier(input.newName) ==>
                  r == ServerPlan(boundary, cwd, input.workspaceRoot, openError, reply))
  {
    var checked := CheckTarget(fs, input.workspaceRoot, input.filePath, input.line, input.column);
    if !checked.Ok? then Recast(checked)
    else if !IsIdentifier(input.newName) then InvalidIdentifier(input.newName)
    else ServerPlan(boundary, cwd, input.workspaceRoot, openError, reply)
  }

  /** The sum of the change counts. */
  function TotalChanges(mods: seq<FileModification>): nat {
    if mods == [] then 0 else TotalChanges(mods[..|mods| - 1]) + mods[|mods| - 1].changeCount
  }

  /** The number of line records reported over all modifications. */
  function ReportedChanges(mods: seq<FileModification>): nat {
    if mods == [] then 0 else ReportedChanges(mods[..|mods| - 1]) + |mods[|mods| - 1].changes|
  }

  /** The edit loop over the files, in order: a file whose edit throws is skipped. */
  function RenameFiles(fs: FileSystem, groups: seq<FileLocations>, newName: string, root: string)
    : (r: (seq<FileModification>, FileSystem))
    ensures |r.0| <= |groups|
    ensures r.1.Keys == fs.Keys
    ensures forall i | 0 <= i < |r.0| :: r.0[i].changeCount == |r.0[i].changes|
    decreases |groups|
  {
    if groups == [] then ([], fs)
    else
      var (mods, fs1) := RenameFiles(fs, groups[..|groups| - 1], newName, root);
      var g := groups[|groups| - 1];
      match ChangeFile(fs1, g.file, ChangesFor(g, newName), root)
      case Failure(_) => (mods, fs1)
      case Success((m, fs2)) => (mods + [m], fs2)
  }

  /** The total reported is the number of line records in the modifications. */
  lemma {:induction false} TotalIsReported(mods: seq<FileModification>)
    requires forall i | 0 <= i < |mods| :: mods[i].changeCount == |mods[i].changes|
    ensures TotalChanges(mods) == ReportedChanges(mods)
    decreases |mods|
  {
    if mods != [] {
      TotalIsReported(mods[..|mods| - 1]);
    }
  }

  /** Files outside the edited set keep their content. */
  lemma {:induction false} OnlyListedFilesChange(fs: FileSystem, groups: seq<FileLocations>,
                                                 newName: string, root: string, q: string)
    requires q in fs
    requires forall g | g in groups :: g.file != q
    ensures RenameFiles(fs, groups, newName, root).1[q] == fs[q]
    decreases |groups|
  {
    if groups != [] {
      OnlyListedFilesChange(fs, groups[..|groups| - 1], newName, root, q);
      assert groups[|groups| - 1] in groups;
    }
  }

  /** The loop over the workspace files: each edited in turn, counts summed. */
  method EditFiles(fs: FileSystem, groups: seq<FileLocations>, newName: string, root: string)
    returns (filesModified: seq<FileModification>, fs': FileSystem, totalChanges: nat)
    ensures (filesModified, fs') == RenameFiles(fs, groups, newName, root)
    ensures totalChanges == TotalChanges(filesModified)
  {
    filesModified := [];
    totalChanges := 0;
    fs' := fs;
    for i := 0 to |groups|
      invariant (filesModified, fs') == RenameFiles(fs, groups[..i], newName, root)
      invariant totalChanges == TotalChanges(filesModified)
    {
      var fileLocs := groups[i];
      assert groups[..i + 1][..i] == groups[..i];
      var textChanges := ChangesFor(fileLocs, newName);
      var modification := ApplyChangesToFile(fs', fileLocs.file, textChanges, root);
      if modification.Success? {
        var (m, written) := modification.value;
        filesModified := filesModified + [m];
        totalChanges := totalChanges + m.changeCount;
        fs' := written;
      }
    }
    assert groups[..|groups|] == groups;
  }

  /** The commands the handler sends to tsserver. */
  function RenameRequests(checked: Response<Target>, newName: string, openError: Option<string>): seq<string> {
    if !checked.Ok? || !IsIdentifier(newName) then []
    else if openError.Some? then ["open"]
    else ["open", "rename"]
  }

  /**
   * `handleRenameSymbol`: the plan, then each workspace file edited in turn, the
   * modifications collected and their change counts summed; a file that cannot be
   * edited is skipped and the result is still a success. `requests` lists the tsserver
   * commands sent: none when validation fails.
   */
  method HandleRenameSymbol(fs: FileSystem, cwd: string, input: RenameInput, openError: Option<string>,
                            reply: Result<Reply<RenameBody>, string>)
    returns (r: Response<RenameSuccess>, fs': FileSystem, requests: seq<string>)
    ensures var plan := RenamePlan(AsWritten, fs, cwd, input, openError, reply);
            (!plan.Ok? ==> r == Recast(plan) && fs' == fs)
            && (plan.Ok? ==>
                  var (mods, after) := RenameFiles(fs, plan.value, input.newName, input.workspaceRoot);
                  r == Ok(RenameSuccess(mods, TotalChanges(mods))) && fs' == after)
    ensures var checked := CheckTarget(fs, input.workspaceRoot, input.filePath, input.line, input.column);
            requests == RenameRequests(checked, input.newName, openError)
            && (requests == [] <==> !checked.Ok? || !IsIdentifier(input.newName))
  {
    var checked := CheckTarget(fs, input.workspaceRoot, input.filePath, input.line, input.column);
    requests := RenameRequests(checked, input.newName, openError);
    var plan := RenamePlan(AsWritten, fs, cwd, input, openError, reply);
    if !plan.Ok? {
      return Recast(plan), fs, requests;
    }
    var filesModified, written, totalChanges := EditFiles(fs, plan.value, input.newName, input.workspaceRoot);
    r := Ok(RenameSuccess(filesModified, totalChanges));
    fs' := written;
  }

  /** A request naming `123invalid` is refused as a rename conflict before tsserver is asked. */
  lemma {:induction false} DigitFirstRefused(fs: FileSystem, cwd: string, input: RenameInput, openError: Option<string>,
                          reply: Result<Reply<RenameBody>, string>)
    requires input.newName == "123invalid"
    requires CheckTarget(fs, input.workspaceRoot, input.filePath, input.line, input.column).Ok?
    ensures forall boundary :: RenamePlan(boundary, fs, cwd, input, openError, reply) == InvalidIdentifier("123invalid")
  {
    assert !IdentifierStart('1');
  }
}
