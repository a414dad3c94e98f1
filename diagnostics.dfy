/**
 * The get_diagnostics tool: the severity of a tsserver category, the conversion of one
 * tsserver diagnostic, the three diagnostic groups of a file (syntactic ones forced to
 * errors, suggestions forced to hints), the search for TypeScript sources in the
 * project-wide mode, which skips files that fail, and the counts by severity.
 */
module Diagnostics {
  import opened Wrappers
  import opened Text
  import opened Arrays
  import opened Paths
  import opened Workspace

  datatype Severity = Error | Warning | Info | Hint

  /** One diagnostic as tsserver reports it. */
  datatype TsDiagnostic = TsDiagnostic(start: Location, end: Location, text: string, code: int, category: string)

  /** A reply body: an array of diagnostics, or anything that is not an array. */
  datatype DiagnosticsBody = DiagnosticList(items: seq<TsDiagnostic>) | NotAList

  /** The replies to the three requests of `getDiagnostics`. */
  datatype GroupReplies = GroupReplies(syntactic: Reply<DiagnosticsBody>, semantic: Reply<DiagnosticsBody>,
                                       suggestion: Reply<DiagnosticsBody>)

  datatype Diagnostic = Diagnostic(filePath: string, line: int, column: int, endLine: int, endColumn: int,
                                   severity: Severity, code: string, message: string, codeSnippet: string)

  datatype GetDiagnosticsInput = GetDiagnosticsInput(workspaceRoot: string, filePath: Option<string>)
  datatype GetDiagnosticsSuccess = GetDiagnosticsSuccess(diagnostics: seq<Diagnostic>, errorCount: nat,
                                                         warningCount: nat, infoCount: nat, hintCount: nat)

  /**
   * What a file's diagnostics exchange with tsserver gives: the three replies, or the
   * message of what the open request or one of the three diagnostics requests threw.
   */
  type Exchange = string -> Result<GroupReplies, string>

  // ---------------------------------------------------------------------------
  // mapCategoryToSeverity and transformDiagnostic

  function MapCategoryToSeverity(category: string): Severity {
    var c := ToLower(category);
    if c == "error" then Error
    else if c == "warning" then Warning
    else if c == "suggestion" then Hint
    else Info
  }

  /** The category is matched without regard to the case of its letters. */
  lemma {:induction false} SeverityIgnoresCase(category: string)
    ensures MapCategoryToSeverity(ToLower(category)) == MapCategoryToSeverity(category)
  {
    LowerCased(category);
  }

  /**
   * Every category has a severity, whatever the case of its letters: exactly the
   * categories reading "error" and "warning" keep their names, exactly those reading
   * "suggestion" become hints, and every other category (such as "message") is info.
   */
  lemma {:induction false} KnownCategories(category: string)
    ensures var c, severity := ToLower(category), MapCategoryToSeverity(category);
            (severity == Error <==> c == "error")
            && (severity == Warning <==> c == "warning")
            && (severity == Hint <==> c == "suggestion")
            && (severity == Info <==> c != "error" && c != "warning" && c != "suggestion")
    ensures MapCategoryToSeverity("Error") == Error && MapCategoryToSeverity("message") == Info
  {
    assert ToLower("Error") == "error";
    assert ToLower("message") == "message";
  }

  /** The code "TS" + the number reads back as the number when it is not negative. */
  lemma {:induction false} CodeText(code: int)
    ensures var text := "TS" + IntText(code);
            StartsWith(text, "TS") && (code >= 0 ==> IsDigits(text[2..]) && DigitsValue(text[2..]) == code)
  {
    var text := "TS" + IntText(code);
    assert text[2..] == IntText(code);
    if code >= 0 {
      DecimalRoundTrip(code);
    }
  }

  /**
   * One tsserver diagnostic of the file `filePath` as reported: the file relative to the
   * root, the 1-based range, the severity of its category, the code as "TS" followed by
   * the number, the text, and the source line where it starts.
   */
  function TransformDiagnostic(fs: FileSystem, diag: TsDiagnostic, filePath: string, root: string): Diagnostic {
    var absolutePath := AbsolutePath(root, filePath);
    Diagnostic(MakeRelativePath(absolutePath, root), diag.start.line, diag.start.offset,
               diag.end.line, diag.end.offset, MapCategoryToSeverity(diag.category), "TS" + IntText(diag.code),
               diag.text, ReadLine(fs, absolutePath, diag.start.line))
  }

  /**
   * A reported diagnostic keeps tsserver's range and text, has the severity of its
   * category, a code that reads back as tsserver's number, and the one source line where
   * it starts as snippet.
   */
  lemma {:induction false} TransformReports(fs: FileSystem, diag: TsDiagnostic, filePath: string, root: string)
    ensures var d := TransformDiagnostic(fs, diag, filePath, root);
            d.line == diag.start.line && d.column == diag.start.offset
            && d.endLine == diag.end.line && d.endColumn == diag.end.offset
            && d.message == diag.text && d.severity == MapCategoryToSeverity(diag.category)
            && StartsWith(d.code, "TS")
            && (diag.code >= 0 ==> IsDigits(d.code[2..]) && DigitsValue(d.code[2..]) == diag.code)
            && d.codeSnippet == ReadLine(fs, AbsolutePath(root, filePath), diag.start.line)
            && '\n' !in d.codeSnippet
  {
    CodeText(diag.code);
  }

  /** The reported path of a file inside a normal root joins back onto the root as the file's path. */
  lemma {:induction false} ReportedPathJoinsBack(fs: FileSystem, diag: TsDiagnostic, filePath: string, root: string)
    requires root != "" && Normal(root)
    requires Normal(AbsolutePath(root, filePath)) && IsInside(AbsolutePath(root, filePath), root)
    ensures JoinPath(root, TransformDiagnostic(fs, diag, filePath, root).filePath) == AbsolutePath(root, filePath)
  {
    InsideRoundTrip(root, AbsolutePath(root, filePath));
  }

  // ---------------------------------------------------------------------------
  // The three groups of one file

  datatype Group = Syntactic | Semantic | Suggestion

  /** Syntactic diagnostics are given the category "error", suggestions "suggestion". */
  function Forced(kind: Group, diag: TsDiagnostic): TsDiagnostic {
    match kind
    case Syntactic => diag.(category := "error")
    case Semantic => diag
    case Suggestion => diag.(category := "suggestion")
  }

  /** The severity a diagnostic of the group is reported with. */
  function GroupSeverity(kind: Group, diag: TsDiagnostic): Severity {
    match kind
    case Syntactic => Error
    case Semantic => MapCategoryToSeverity(diag.category)
    case Suggestion => Hint
  }

  /** A reply is used only when it succeeded and its body is an array. */
  predicate Listed(reply: Reply<DiagnosticsBody>) {
    reply.success && reply.body.Some? && reply.body.value.DiagnosticList?
  }

  /** The diagnostics one reply contributes, in tsserver's order. */
  function GroupDiagnostics(fs: FileSystem, root: string, file: string, kind: Group,
                            reply: Reply<DiagnosticsBody>): seq<Diagnostic>
  {
    if Listed(reply) then
      var items := reply.body.value.items;
      seq(|items|, i requires 0 <= i < |items| => TransformDiagnostic(fs, Forced(kind, items[i]), file, root))
    else []
  }

  /**
   * A reply that is not a successful array contributes nothing; otherwise one diagnostic
   * per item, in order, with its position and text, and with the severity of its group:
   * every syntactic one an error, every suggestion a hint.
   */
  lemma {:induction false} GroupReport(fs: FileSystem, root: string, file: string, kind: Group, reply: Reply<DiagnosticsBody>)
    ensures var r := GroupDiagnostics(fs, root, file, kind, reply);
            (!Listed(reply) ==> r == [])
            && (Listed(reply) ==>
                  var items := reply.body.value.items;
                  |r| == |items|
                  && forall i | 0 <= i < |r| ::
                       r[i].line == items[i].start.line && r[i].column == items[i].start.offset
                       && r[i].message == items[i].text && r[i].severity == GroupSeverity(kind, items[i]))
  {
    KnownCategories("error");
    KnownCategories("suggestion");
    if Listed(reply) {
      var items := reply.body.value.items;
      forall i | 0 <= i < |items| {
        TransformReports(fs, Forced(kind, items[i]), file, root);
      }
    }
  }

  /** A file's diagnostics: the syntactic ones, then the semantic ones, then the suggestions. */
  function FileDiagnostics(fs: FileSystem, root: string, file: string, replies: GroupReplies): seq<Diagnostic> {
    GroupDiagnostics(fs, root, file, Syntactic, replies.syntactic)
    + GroupDiagnostics(fs, root, file, Semantic, replies.semantic)
    + GroupDiagnostics(fs, root, file, Suggestion, replies.suggestion)
  }

  /** The push loop over one reply. */
  method PushGroup(diagnostics: seq<Diagnostic>, fs: FileSystem, root: string, file: string, kind: Group,
                   reply: Reply<DiagnosticsBody>) returns (out: seq<Diagnostic>)
    ensures out == diagnostics + GroupDiagnostics(fs, root, file, kind, reply)
  {
    out := diagnostics;
    if Listed(reply) {
      var items := reply.body.value.items;
      ghost var all := GroupDiagnostics(fs, root, file, kind, reply);
      for i := 0 to |items|
        invariant out == diagnostics + all[..i]
      {
        var d := TransformDiagnostic(fs, Forced(kind, items[i]), file, root);
        assert d == all[i];
        PrefixStep(diagnostics, all, i);
        out := out + [d];
      }
      assert all[..|items|] == all;
    }
  }

  /** The three push loops of one file. */
  method CollectFile(diagnostics: seq<Diagnostic>, fs: FileSystem, root: string, file: string,
                     replies: GroupReplies) returns (out: seq<Diagnostic>)
    ensures out == diagnostics + FileDiagnostics(fs, root, file, replies)
  {
    ghost var syntactic := GroupDiagnostics(fs, root, file, Syntactic, replies.syntactic);
    ghost var semantic := GroupDiagnostics(fs, root, file, Semantic, replies.semantic);
    ghost var suggestion := GroupDiagnostics(fs, root, file, Suggestion, replies.suggestion);
    out := PushGroup(diagnostics, fs, root, file, Syntactic, replies.syntactic);
    out := PushGroup(out, fs, root, file, Semantic, replies.semantic);
    out := PushGroup(out, fs, root, file, Suggestion, replies.suggestion);
    AppendAssoc(diagnostics, syntactic, semantic);
    AppendAssoc(diagnostics, syntactic + semantic, suggestion);
  }

  // ---------------------------------------------------------------------------
  // Counting by severity

  function OfSeverity(severity: Severity): Diagnostic -> bool {
    (d: Diagnostic) => d.severity == severity
  }

  /** `diagnostics.filter((d) => d.severity === severity).length` */
  function CountOf(ds: seq<Diagnostic>, severity: Severity): nat {
    |Filter(ds, OfSeverity(severity))|
  }

  /** Every diagnostic has exactly one of the four severities, so the counts add up. */
  lemma {:induction false} CountsPartition(ds: seq<Diagnostic>)
    ensures CountOf(ds, Error) + CountOf(ds, Warning) + CountOf(ds, Info) + CountOf(ds, Hint) == |ds|
  {
    if ds != [] {
      CountsPartition(ds[1..]);
      CountStep(ds, Error);
      CountStep(ds, Warning);
      CountStep(ds, Info);
      CountStep(ds, Hint);
    }
  }

  /** The first diagnostic counts towards its own severity only. */
  lemma {:induction false} CountStep(ds: seq<Diagnostic>, severity: Severity)
    requires ds != []
    ensures CountOf(ds, severity) == (if ds[0].severity == severity then 1 else 0) + CountOf(ds[1..], severity)
  {
  }

  lemma {:induction false} CountUniform(ds: seq<Diagnostic>, severity: Severity, other: Severity)
    requires forall i | 0 <= i < |ds| :: ds[i].severity == severity
    ensures CountOf(ds, other) == if other == severity then |ds| else 0
  {
    if ds != [] {
      CountUniform(ds[1..], severity, other);
      CountStep(ds, other);
    }
  }

  /** One severity's count over three groups when all of the first are errors and all of the last hints. */
  lemma {:induction false} CountOfGroups(syntactic: seq<Diagnostic>, semantic: seq<Diagnostic>, suggestion: seq<Diagnostic>,
                      severity: Severity)
    requires forall i | 0 <= i < |syntactic| :: syntactic[i].severity == Error
    requires forall i | 0 <= i < |suggestion| :: suggestion[i].severity == Hint
    ensures CountOf(syntactic + semantic + suggestion, severity)
            == (if severity == Error then |syntactic| else 0) + CountOf(semantic, severity)
               + (if severity == Hint then |suggestion| else 0)
  {
    FilterAppend(syntactic + semantic, suggestion, OfSeverity(severity));
    FilterAppend(syntactic, semantic, OfSeverity(severity));
    CountUniform(syntactic, Error, severity);
    CountUniform(suggestion, Hint, severity);
  }

  /**
   * In a file's counts, every syntactic diagnostic is an error and every suggestion a
   * hint; warnings and infos come from the semantic group alone.
   */
  lemma {:induction false} FileCounts(fs: FileSystem, root: string, file: string, replies: GroupReplies)
    ensures var ds := FileDiagnostics(fs, root, file, replies);
            var syntactic := GroupDiagnostics(fs, root, file, Syntactic, replies.syntactic);
            var semantic := GroupDiagnostics(fs, root, file, Semantic, replies.semantic);
            var suggestion := GroupDiagnostics(fs, root, file, Suggestion, replies.suggestion);
            CountOf(ds, Error) == |syntactic| + CountOf(semantic, Error)
            && CountOf(ds, Warning) == CountOf(semantic, Warning)
            && CountOf(ds, Info) == CountOf(semantic, Info)
            && CountOf(ds, Hint) == CountOf(semantic, Hint) + |suggestion|
  {
    GroupReport(fs, root, file, Syntactic, replies.syntactic);
    GroupReport(fs, root, file, Suggestion, replies.suggestion);
    var syntactic := GroupDiagnostics(fs, root, file, Syntactic, replies.syntactic);
    var semantic := GroupDiagnostics(fs, root, file, Semantic, replies.semantic);
    var suggestion := GroupDiagnostics(fs, root, file, Suggestion, replies.suggestion);
    CountOfGroups(syntactic, semantic, suggestion, Error);
    CountOfGroups(syntactic, semantic, suggestion, Warning);
    CountOfGroups(syntactic, semantic, suggestion, Info);
    CountOfGroups(syntactic, semantic, suggestion, Hint);
  }

  /** The success record: the diagnostics with their counts by severity. */
  function Counted(ds: seq<Diagnostic>): (r: GetDiagnosticsSuccess)
    ensures r.diagnostics == ds
    ensures r.errorCount + r.warningCount + r.infoCount + r.hintCount == |ds|
  {
    CountsPartition(ds);
    GetDiagnosticsSuccess(ds, CountOf(ds, Error), CountOf(ds, Warning), CountOf(ds, Info), CountOf(ds, Hint))
  }

  // ---------------------------------------------------------------------------
  // findTsFiles

  /** A directory entry as `readdirSync` reports it; anything else (a link, a socket) is other. */
  datatype Entry = FileEntry(name: string) | DirectoryEntry(name: string, listing: Listing) | OtherEntry(name: string)

  /** A directory's entries in the order `readdirSync` gives them, or the failure to read it. */
  datatype Listing = Unreadable | Entries(entries: seq<Entry>)

  /** A TypeScript source: ".ts" or ".tsx", but not a ".d.ts" declaration file. */
  predicate IsTsSource(name: string) {
    (EndsWith(name, ".ts") || EndsWith(name, ".tsx")) && !EndsWith(name, ".d.ts")
  }

  /** Directories the search does not enter. */
  predicate Skipped(name: string) {
    name == "node_modules" || name == "dist"
  }

  function Remaining(listing: Listing, i: nat): nat {
    if listing.Entries? && i < |listing.entries| then |listing.entries| - i else 0
  }

  lemma {:induction false} SuffixOfAppend(prefix: string, name: string, suffix: string)
    requires |suffix| <= |name|
    ensures EndsWith(prefix + name, suffix) <==> EndsWith(name, suffix)
  {
    assert (prefix + name)[|prefix + name| - |suffix|..] == name[|name| - |suffix|..];
  }

  /** A source's name after a separator is still a source. */
  lemma {:induction false} SourceAfterSeparator(prefix: string, name: string)
    requires prefix != "" && prefix[|prefix| - 1] == '/'
    requires IsTsSource(name)
    ensures IsTsSource(prefix + name)
  {
    var p := prefix + name;
    SuffixOfAppend(prefix, name, ".ts");
    if |name| >= 4 {
      SuffixOfAppend(prefix, name, ".tsx");
    }
    if |name| >= 5 {
      SuffixOfAppend(prefix, name, ".d.ts");
    } else {
      assert 3 <= |name| <= 4;
      var j := 5 - |name| - 1;
      assert p[|p| - |name| - 1] == '/';
      if |p| >= 5 {
        assert p[|p| - 5..][j] == '/';
        assert ".d.ts"[j] != '/';
      }
    }
  }

  /** Joining a source's name to a directory gives a path that is still a source. */
  lemma {:induction false} JoinKeepsSource(dir: string, name: string)
    requires IsTsSource(name)
    ensures IsTsSource(JoinPath(dir, name))
  {
    if dir != "" && dir[|dir| - 1] == '/' {
      SourceAfterSeparator(dir, name);
    } else if dir != "" {
      assert JoinPath(dir, name) == (dir + "/") + name;
      SourceAfterSeparator(dir + "/", name);
    }
  }

  /** What entry `e` of a directory `dir` adds to the search. */
  function EntryFiles(dir: string, e: Entry, rest: Listing): seq<string>
    requires e.DirectoryEntry? ==> e.listing < rest
    decreases rest, 0, 0
  {
    match e
    case FileEntry(name) => if IsTsSource(name) then [JoinPath(dir, name)] else []
    case DirectoryEntry(name, sub) => if Skipped(name) then [] else TsFilesFrom(JoinPath(dir, name), sub, 0)
    case OtherEntry(_) => []
  }

  /**
   * The sources found from entry `i` of a listing of `dir` on: each source file in
   * order, the sources of each sub-directory not skipped, nothing from an unreadable
   * directory.
   */
  function TsFilesFrom(dir: string, listing: Listing, i: nat): seq<string>
    decreases listing, 1, Remaining(listing, i)
  {
    if listing.Unreadable? || i >= |listing.entries| then []
    else EntryFiles(dir, listing.entries[i], listing) + TsFilesFrom(dir, listing, i + 1)
  }

  /** Every path the search finds is a TypeScript source. */
  predicate AllSources(files: seq<string>) {
    forall k | 0 <= k < |files| :: IsTsSource(files[k])
  }

  lemma {:induction false} BothSources(a: seq<string>, b: seq<string>)
    requires AllSources(a) && AllSources(b)
    ensures AllSources(a + b)
  {
    forall k | 0 <= k < |a + b| ensures IsTsSource((a + b)[k]) {
      if k < |a| {
        assert (a + b)[k] == a[k];
      } else {
        assert (a + b)[k] == b[k - |a|];
      }
    }
  }

  lemma {:induction false} OnlySources(dir: string, listing: Listing, i: nat)
    ensures AllSources(TsFilesFrom(dir, listing, i))
    decreases listing, Remaining(listing, i)
  {
    if listing.Entries? && i < |listing.entries| {
      var e := listing.entries[i];
      OnlySources(dir, listing, i + 1);
      match e {
        case FileEntry(name) =>
          if IsTsSource(name) {
            JoinKeepsSource(dir, name);
          }
        case DirectoryEntry(name, sub) =>
          if !Skipped(name) {
            OnlySources(JoinPath(dir, name), sub, 0);
          }
        case OtherEntry(_) =>
      }
      BothSources(EntryFiles(dir, e, listing), TsFilesFrom(dir, listing, i + 1));
    }
  }

  /**
   * Where a source file lies: `file` is the entry itself, a source file in `dir`, or lies
   * in a readable sub-directory that is not skipped.
   */
  predicate Found(dir: string, e: Entry, file: string)
    decreases e
  {
    match e
    case FileEntry(name) => IsTsSource(name) && file == JoinPath(dir, name)
    case DirectoryEntry(name, sub) =>
      !Skipped(name) && sub.Entries?
      && exists k | 0 <= k < |sub.entries| :: Found(JoinPath(dir, name), sub.entries[k], file)
    case OtherEntry(_) => false
  }

  /** The search finds exactly the source files reachable without entering a skipped directory. */
  lemma {:induction false} TsFilesExactly(dir: string, listing: Listing, i: nat, file: string)
    ensures file in TsFilesFrom(dir, listing, i) <==>
              listing.Entries? && exists k | i <= k < |listing.entries| :: Found(dir, listing.entries[k], file)
    decreases listing, 1, Remaining(listing, i)
  {
    if listing.Entries? && i < |listing.entries| {
      var e := listing.entries[i];
      var here, rest := EntryFiles(dir, e, listing), TsFilesFrom(dir, listing, i + 1);
      assert TsFilesFrom(dir, listing, i) == here + rest;
      assert file in here + rest <==> file in here || file in rest;
      TsFilesExactly(dir, listing, i + 1, file);
      EntryExactly(dir, e, listing, file);
      FoundFrom(dir, listing.entries, i, file);
    }
  }

  /** One entry adds exactly the source files found through it. */
  lemma {:induction false} EntryExactly(dir: string, e: Entry, listing: Listing, file: string)
    requires e.DirectoryEntry? ==> e.listing < listing
    ensures file in EntryFiles(dir, e, listing) <==> Found(dir, e, file)
    decreases listing, 0
  {
    match e {
      case DirectoryEntry(name, sub) =>
        if !Skipped(name) {
          TsFilesExactly(JoinPath(dir, name), sub, 0, file);
        }
      case FileEntry(name) =>
      case OtherEntry(_) =>
    }
  }

  /** A file is found from entry i on when it is found through entry i or from entry i + 1 on. */
  lemma {:induction false} FoundFrom(dir: string, entries: seq<Entry>, i: nat, file: string)
    requires i < |entries|
    ensures (exists k | i <= k < |entries| :: Found(dir, entries[k], file)) <==>
              Found(dir, entries[i], file) || exists k | i + 1 <= k < |entries| :: Found(dir, entries[k], file)
  {
  }

  /** `findTsFiles(dir, files)`: pushes the sources under `dir` onto `files`. */
  method FindTsFiles(dir: string, listing: Listing, files: seq<string>) returns (found: seq<string>)
    ensures found == files + TsFilesFrom(dir, listing, 0)
    decreases listing
  {
    found := files;
    if listing.Unreadable? {
      return;
    }
    var entries := listing.entries;
    for i := 0 to |entries|
      invariant found + TsFilesFrom(dir, listing, i) == files + TsFilesFrom(dir, listing, 0)
    {
      ghost var here := EntryFiles(dir, entries[i], listing);
      ghost var rest := TsFilesFrom(dir, listing, i + 1);
      assert TsFilesFrom(dir, listing, i) == here + rest;
      var before := found;
      match entries[i] {
        case DirectoryEntry(name, sub) =>
          if !Skipped(name) {
            found := FindTsFiles(JoinPath(dir, name), sub, found);
          }
        case FileEntry(name) =>
          if IsTsSource(name) {
            found := found + [JoinPath(dir, name)];
          }
        case OtherEntry(_) =>
      }
      assert found == before + here;
      AppendAssoc(before, here, rest);
    }
    assert TsFilesFrom(dir, listing, |entries|) == [];
  }

  // ---------------------------------------------------------------------------
  // The project-wide mode

  predicate Readable(fs: FileSystem, file: string) {
    file in fs && fs[file].File?
  }

  function ReadableIn(fs: FileSystem): string -> bool {
    (file: string) => Readable(fs, file)
  }

  /** What one file adds: nothing when reading it or asking tsserver about it failed. */
  function FileContribution(fs: FileSystem, root: string, exchange: Exchange, file: string): seq<Diagnostic> {
    if Readable(fs, file) && exchange(file).Success? then FileDiagnostics(fs, root, file, exchange(file).value)
    else []
  }

  function Contribution(fs: FileSystem, root: string, exchange: Exchange): string -> seq<Diagnostic> {
    (file: string) => FileContribution(fs, root, exchange, file)
  }

  /** The diagnostics of the files in turn. */
  function ProjectDiagnostics(fs: FileSystem, root: string, files: seq<string>, exchange: Exchange)
    : seq<Diagnostic>
  {
    FlatMap(files, Contribution(fs, root, exchange))
  }

  /**
   * A file that cannot be read, or whose exchange with tsserver fails, is skipped: the
   * result is that of the other files alone.
   */
  lemma {:induction false} FailingFileSkipped(fs: FileSystem, root: string, before: seq<string>, file: string,
                           after: seq<string>, exchange: Exchange)
    requires !Readable(fs, file) || exchange(file).Failure?
    ensures ProjectDiagnostics(fs, root, before + [file] + after, exchange)
            == ProjectDiagnostics(fs, root, before + after, exchange)
  {
    var f := Contribution(fs, root, exchange);
    FlatMapAppend(before + [file], after, f);
    FlatMapAppend(before, after, f);
    FlatMapAppend(before, [file], f);
    assert [file][..0] == [];
  }

  // ---------------------------------------------------------------------------
  // handleGetDiagnostics

  /** A file is named (neither absent nor ""): diagnostics of that file alone. */
  predicate SingleFile(input: GetDiagnosticsInput) {
    input.filePath.Some? && input.filePath.value != ""
  }

  /** The single-file mode, once the file exists: reading it and asking tsserver. */
  function SingleFileResult(fs: FileSystem, root: string, path: string, exchange: Exchange)
    : Response<GetDiagnosticsSuccess>
    requires path in fs
  {
    if fs[path].Directory? then ServerFailure(EISDIR_MESSAGE)
    else match exchange(path)
      case Failure(e) => ServerFailure(e)
      case Success(replies) => Ok(Counted(FileDiagnostics(fs, root, path, replies)))
  }

  /** The project-wide mode: the diagnostics of every source the search finds. */
  function ProjectResult(fs: FileSystem, root: string, tree: Listing, exchange: Exchange)
    : Response<GetDiagnosticsSuccess>
  {
    Ok(Counted(ProjectDiagnostics(fs, root, TsFilesFrom(root, tree, 0), exchange)))
  }

  /**
   * The handler's answer. `tree` is what `readdirSync` gives for the root and below;
   * `exchange` is tsserver's answer for each file. Every failure after validation is
   * caught: in the single-file mode it becomes LANGUAGE_SERVER_ERROR, in the
   * project-wide mode the file is skipped.
   */
  function DiagnosticsResult(fs: FileSystem, input: GetDiagnosticsInput, tree: Listing, exchange: Exchange)
    : Response<GetDiagnosticsSuccess>
  {
    var root := input.workspaceRoot;
    if root !in fs then WorkspaceMissing(root)
    else if SingleFile(input) then
      var path := AbsolutePath(root, input.filePath.value);
      if path !in fs then FileMissing(input.filePath.value)
      else SingleFileResult(fs, root, path, exchange)
    else ProjectResult(fs, root, tree, exchange)
  }

  /**
   * The outcomes: WORKSPACE_NOT_FOUND exactly when the root is missing; in the
   * single-file mode FILE_NOT_FOUND exactly when the file is missing and
   * LANGUAGE_SERVER_ERROR exactly when it is a directory or tsserver fails on it; the
   * project-wide mode always succeeds; nothing escapes; the counts add up.
   */
  lemma {:induction false} DiagnosticsOutcomes(fs: FileSystem, input: GetDiagnosticsInput, tree: Listing, exchange: Exchange)
    ensures var r := DiagnosticsResult(fs, input, tree, exchange);
            var root := input.workspaceRoot;
            !r.Thrown?
            && (root !in fs <==> r == WorkspaceMissing(root))
            && (SingleFile(input) ==>
                  (root in fs && AbsolutePath(root, input.filePath.value) !in fs <==> r == FileMissing(input.filePath.value)))
            && (r.Err? && r.error.code == LanguageServerError <==>
                  root in fs && SingleFile(input)
                  && var path := AbsolutePath(root, input.filePath.value);
                     path in fs && (fs[path].Directory? || exchange(path).Failure?))
            && (root in fs && !SingleFile(input) ==> r.Ok?)
            && (r.Ok? ==> r.value.errorCount + r.value.warningCount + r.value.infoCount + r.value.hintCount
                          == |r.value.diagnostics|)
  {
  }

  lemma {:induction false} AskedStep(fs: FileSystem, files: seq<string>, i: nat)
    requires i < |files|
    ensures Filter(files[..i + 1], ReadableIn(fs))
            == Filter(files[..i], ReadableIn(fs)) + if Readable(fs, files[i]) then [files[i]] else []
  {
    PrefixStep([], files, i);
    FilterAppend(files[..i], [files[i]], ReadableIn(fs));
    assert [files[i]][1..] == [];
  }

  /** The project-wide loop; `asked` lists the files tsserver was asked about. */
  method ProjectLoop(fs: FileSystem, root: string, files: seq<string>, exchange: Exchange)
    returns (diagnostics: seq<Diagnostic>, asked: seq<string>)
    ensures diagnostics == ProjectDiagnostics(fs, root, files, exchange)
    ensures asked == Filter(files, ReadableIn(fs))
  {
    diagnostics := [];
    asked := [];
    ghost var contribution := Contribution(fs, root, exchange);
    for i := 0 to |files|
      invariant diagnostics == FlatMap(files[..i], contribution)
      invariant asked == Filter(files[..i], ReadableIn(fs))
    {
      var file := files[i];
      FlatMapStep(files, i, contribution);
      assert contribution(file) == FileContribution(fs, root, exchange, file);
      AskedStep(fs, files, i);
      if Readable(fs, file) {
        asked := asked + [file];
        match exchange(file) {
          case Success(replies) =>
            diagnostics := CollectFile(diagnostics, fs, root, file, replies);
          case Failure(_) =>
        }
      }
    }
    assert files[..|files|] == files;
  }

  /** The single-file mode once the file exists; `asked` is the file when it reads. */
  method SingleFileMode(fs: FileSystem, root: string, path: string, exchange: Exchange)
    returns (r: Response<GetDiagnosticsSuccess>, asked: seq<string>)
    requires path in fs
    ensures r == SingleFileResult(fs, root, path, exchange)
    ensures asked == if Readable(fs, path) then [path] else []
  {
    if fs[path].Directory? {
      return ServerFailure(EISDIR_MESSAGE), [];
    }
    asked := [path];
    match exchange(path) {
      case Failure(e) =>
        r := ServerFailure(e);
      case Success(replies) =>
        var diagnostics := CollectFile([], fs, root, path, replies);
        assert diagnostics == FileDiagnostics(fs, root, path, replies);
        r := Ok(Counted(diagnostics));
    }
  }

  /** The project-wide mode: the search, then the loop over what it found. */
  method ProjectMode(fs: FileSystem, root: string, tree: Listing, exchange: Exchange)
    returns (r: Response<GetDiagnosticsSuccess>, asked: seq<string>)
    ensures r == ProjectResult(fs, root, tree, exchange)
    ensures asked == Filter(TsFilesFrom(root, tree, 0), ReadableIn(fs))
  {
    var files := FindTsFiles(root, tree, []);
    assert files == TsFilesFrom(root, tree, 0);
    var diagnostics;
    diagnostics, asked := ProjectLoop(fs, root, files, exchange);
    r := Ok(Counted(diagnostics));
  }

  /**
   * `handleGetDiagnostics`; `asked` lists the files tsserver was asked about: the named
   * file when it reads, or every source the search found that reads.
   */
  method HandleGetDiagnostics(fs: FileSystem, input: GetDiagnosticsInput, tree: Listing, exchange: Exchange)
    returns (r: Response<GetDiagnosticsSuccess>, asked: seq<string>)
    ensures r == DiagnosticsResult(fs, input, tree, exchange)
    ensures input.workspaceRoot in fs && !SingleFile(input) ==>
              asked == Filter(TsFilesFrom(input.workspaceRoot, tree, 0), ReadableIn(fs))
    ensures input.workspaceRoot in fs && SingleFile(input) ==>
              var path := AbsolutePath(input.workspaceRoot, input.filePath.value);
              asked == if Readable(fs, path) then [path] else []
    ensures input.workspaceRoot !in fs ==> asked == []
  {
    var root := input.workspaceRoot;
    if root !in fs {
      return WorkspaceMissing(root), [];
    }
    if SingleFile(input) {
      var path := AbsolutePath(root, input.filePath.value);
      if path !in fs {
        return FileMissing(input.filePath.value), [];
      }
      r, asked := SingleFileMode(fs, root, path, exchange);
    } else {
      r, asked := ProjectMode(fs, root, tree, exchange);
    }
  }
}
