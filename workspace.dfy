/**
 * What the four tool handlers share: the file store they read, the error codes and
 * responses they return, the reply of tsserver they interpret, and the validation of a
 * workspace, a file and a 1-based position that three of them run first.
 */
module Workspace {
  import opened Wrappers
  import opened Text
  import opened Paths

  /** A node of the file store; reading a directory as a file throws. */
  datatype Node = File(content: string) | Directory

  /** The file system as the handlers see it, by absolute path. */
  type FileSystem = map<string, Node>

  datatype ErrorCode =
    | NotImplemented
    | WorkspaceNotFound
    | FileNotFound
    | InvalidPosition
    | NoSymbolAtPosition
    | RenameConflict
    | ConfigNotFound
    | LanguageServerError

  datatype ErrorInfo = ErrorInfo(code: ErrorCode, message: string)

  /**
   * What a handler produces: its success record, an error response, or an exception
   * that escapes it (and that the tool callback turns into an error response).
   */
  datatype Response<S> = Ok(value: S) | Err(error: ErrorInfo) | Thrown(message: string)

  /** What tsserver answered to a request: its success flag, message and body. */
  datatype Reply<B> = Reply(success: bool, message: Option<string>, body: Option<B>)

  /** A line/offset pair of tsserver, both 1-based. */
  datatype Location = Location(line: int, offset: int)

  /** The message Node gives when a directory is read as a file. */
  const EISDIR_MESSAGE := "EISDIR: illegal operation on a directory, read"

  /** JavaScript's `s || fallback` for an optional string: the fallback for absent or "". */
  function OrElse(s: Option<string>, fallback: string): (r: string)
    ensures s.Some? && s.value != "" ==> r == s.value
    ensures s.None? || s.value == "" ==> r == fallback
  {
    if s.Some? && s.value != "" then s.value else fallback
  }

  /** An exception thrown by a request to tsserver becomes LANGUAGE_SERVER_ERROR with its message. */
  function ServerFailure<S>(message: string): (r: Response<S>)
    ensures r.Err? && r.error.code == LanguageServerError && r.error.message == message
  {
    Err(ErrorInfo(LanguageServerError, message))
  }

  /** An early answer carried over to another success type. */
  function Recast<S, T>(r: Response<S>): (q: Response<T>)
    requires !r.Ok?
    ensures r.Err? ==> q == Err(r.error)
    ensures r.Thrown? ==> q == Thrown(r.message)
  {
    match r
    case Err(e) => Err(e)
    case Thrown(m) => Thrown(m)
  }

  // ---------------------------------------------------------------------------
  // readLineFromFile

  /** Line `n` (1-based) of the file at `path`; "" when out of range, missing or unreadable. */
  function ReadLine(fs: FileSystem, path: string, n: int): (r: string)
    ensures '\n' !in r
    ensures path in fs && fs[path].File? && 1 <= n <= |Split(fs[path].content)| ==>
              r == Split(fs[path].content)[n - 1]
    ensures !(path in fs && fs[path].File?) || n < 1 || n > |Split(fs[path].content)| ==> r == ""
  {
    if path in fs && fs[path].File? then
      var lines := Split(fs[path].content);
      if 0 < n <= |lines| then
        SplitLines(fs[path].content);
        lines[n - 1]
      else ""
    else ""
  }

  /** A file written as the newline-joined `lines` reads back line n as `lines[n - 1]`. */
  lemma {:induction false} ReadLineOfJoined(fs: FileSystem, path: string, lines: seq<string>, n: int)
    requires path in fs && fs[path] == File(Join(lines))
    requires lines != [] && NoNewlines(lines)
    ensures 1 <= n <= |lines| ==> ReadLine(fs, path, n) == lines[n - 1]
    ensures n < 1 || n > |lines| ==> ReadLine(fs, path, n) == ""
  {
    SplitJoin(lines);
  }

  // ---------------------------------------------------------------------------
  // The validation chain of rename, references and definition

  /** A request that passed validation: the file's absolute path, its text and lines. */
  datatype Target = Target(absolutePath: string, content: string, lines: seq<string>, line: int, column: int)

  function WorkspaceMissing<S>(root: string): Response<S> {
    Err(ErrorInfo(WorkspaceNotFound, "Workspace directory does not exist: " + root))
  }

  function FileMissing<S>(filePath: string): Response<S> {
    Err(ErrorInfo(FileNotFound, "File does not exist: " + filePath))
  }

  /** The line lies within the file's lines. */
  predicate LineInFile(lines: seq<string>, line: int) {
    1 <= line <= |lines|
  }

  /** The column lies on the line or just after its last character. */
  predicate ColumnOnLine(lines: seq<string>, line: int, column: int)
    requires LineInFile(lines, line)
  {
    1 <= column <= |lines[line - 1]| + 1
  }

  /**
   * The checks in their fixed order, the first failure answering: the workspace exists,
   * the file exists, the file reads (a directory throws), the line is within the file,
   * the column is within the line.
   */
  function CheckTarget(fs: FileSystem, root: string, filePath: string, line: int, column: int)
    : (r: Response<Target>)
    ensures root !in fs <==> r == WorkspaceMissing(root)
    ensures root in fs && AbsolutePath(root, filePath) !in fs <==> r == FileMissing(filePath)
    ensures r.Thrown? <==>
              root in fs && AbsolutePath(root, filePath) in fs && fs[AbsolutePath(root, filePath)].Directory?
    ensures r.Thrown? ==> r.message == EISDIR_MESSAGE
    ensures r.Err? && r.error.code == InvalidPosition <==>
              root in fs && AbsolutePath(root, filePath) in fs && fs[AbsolutePath(root, filePath)].File?
              && var lines := Split(fs[AbsolutePath(root, filePath)].content);
                 !(LineInFile(lines, line) && ColumnOnLine(lines, line, column))
    ensures r.Ok? <==>
              root in fs && AbsolutePath(root, filePath) in fs && fs[AbsolutePath(root, filePath)].File?
              && var lines := Split(fs[AbsolutePath(root, filePath)].content);
                 LineInFile(lines, line) && ColumnOnLine(lines, line, column)
    ensures r.Ok? ==>
              var t := r.value;
              t.absolutePath == AbsolutePath(root, filePath)
              && fs[t.absolutePath] == File(t.content) && t.lines == Split(t.content)
              && t.line == line && t.column == column
    ensures r.Err? ==> r.error.code in {WorkspaceNotFound, FileNotFound, InvalidPosition}
  {
    if root !in fs then WorkspaceMissing(root)
    else
      var absolutePath := AbsolutePath(root, filePath);
      if absolutePath !in fs then FileMissing(filePath)
      else match fs[absolutePath]
        case Directory => Thrown(EISDIR_MESSAGE)
        case File(content) =>
          var lines := Split(content);
          if line < 1 || line > |lines| then
            Err(ErrorInfo(InvalidPosition,
              "Line " + IntText(line) + " is out of bounds (file has " + Decimal(|lines|) + " lines)"))
          else if column < 1 || column > |lines[line - 1]| + 1 then
            Err(ErrorInfo(InvalidPosition,
              "Column " + IntText(column) + " is out of bounds for line " + IntText(line)
              + " (line has " + Decimal(|lines[line - 1]|) + " characters)"))
          else Ok(Target(absolutePath, content, lines, line, column))
  }
}
