/**
 * The go_to_definition tool: validation, tsserver's definition reply, and the report of
 * each definition with its path relative to the workspace unless it is external (under
 * node_modules, or a declaration file outside the workspace).
 */
module Definition {
  import opened Wrappers
  import opened Text
  import opened Paths
  import opened Workspace

  /** One entry of tsserver's definition reply. */
  datatype TsDefinition = TsDefinition(file: string, start: Location, end: Location)

  datatype Definition = Definition(filePath: string, line: int, column: int, codeSnippet: string, isExternal: bool)

  datatype GoToDefinitionInput = GoToDefinitionInput(workspaceRoot: string, filePath: string, line: int, column: int)
  datatype GoToDefinitionSuccess = GoToDefinitionSuccess(definitions: seq<Definition>)

  /** `isExternalPath`: under node_modules, or a ".d.ts" file whose path does not begin with the root. */
  function IsExternalPath(filePath: string, root: string): bool {
    if Contains(filePath, "node_modules") then true
    else if EndsWith(filePath, ".d.ts") && !StartsWith(filePath, root) then true
    else false
  }

  /**
   * What is external and what is not: a path under node_modules always is; a
   * declaration file whose path does not begin with the root is; an external path is
   * always one of the two; and a file inside the workspace that is not under
   * node_modules is never external, declaration file or not.
   */
  lemma {:induction false} ExternalExactly(filePath: string, root: string)
    ensures Contains(filePath, "node_modules") ==> IsExternalPath(filePath, root)
    ensures EndsWith(filePath, ".d.ts") && !StartsWith(filePath, root) ==> IsExternalPath(filePath, root)
    ensures IsExternalPath(filePath, root) ==>
              Contains(filePath, "node_modules") || (EndsWith(filePath, ".d.ts") && !StartsWith(filePath, root))
    ensures IsInside(filePath, root) && !Contains(filePath, "node_modules") ==> !IsExternalPath(filePath, root)
  {
    if IsInside(filePath, root) {
      InsideStartsWith(filePath, root);
    }
  }

  /**
   * As written, the declaration test compares text prefixes: a declaration file in a
   * sibling directory whose name extends the root's (such as "/ws/app-types" beside
   * "/ws/app") is taken as internal and reported with a path that climbs out of the
   * workspace, although it lies outside it and the intended test calls it external.
   */
  lemma {:induction false} PrefixSiblingDeclaration(fs: FileSystem, root: string, def: TsDefinition)
    requires root != "" && Normal(root)
    requires EndsWith(def.file, ".d.ts") && !Contains(def.file, "node_modules")
    requires StartsWith(def.file, root) && !IsInside(def.file, root)
    ensures !ToDefinition(fs, root, def).isExternal
    ensures StartsWith(ToDefinition(fs, root, def).filePath, "../")
    ensures IsExternalPathIntended(def.file, root)
  {
    OutsideClimbs(root, def.file);
  }

  /** "/ws/app-types/index.d.ts" with the root "/ws/app" is such a file. */
  lemma {:induction false} SiblingDeclaration()
    ensures var p, root := "/ws/app-types/index.d.ts", "/ws/app";
            root != "" && Normal(root)
            && EndsWith(p, ".d.ts") && !Contains(p, "node_modules")
            && StartsWith(p, root) && !IsInside(p, root)
            && !IsExternalPath(p, root) && IsExternalPathIntended(p, root)
  {
    SiblingTypesOutside();
    SiblingTypesNoDependency();
  }

  /** The sibling declaration file begins with the root's text but lies outside the root. */
  lemma {:induction false} SiblingTypesOutside()
    ensures var p, root := "/ws/app-types/index.d.ts", "/ws/app";
            Normal(root) && EndsWith(p, ".d.ts") && StartsWith(p, root) && !IsInside(p, root)
  {
    var p, root := "/ws/app-types/index.d.ts", "/ws/app";
    assert p[..|root|] == root;
    assert p[|root|] == '-';
    assert (root + "/")[|root|] == '/';
    assert p[|p| - 5..] == ".d.ts";
  }

  /** No "node_modules" in the sibling declaration file's path: it has no 'n' early enough. */
  lemma {:induction false} SiblingTypesNoDependency()
    ensures !Contains("/ws/app-types/index.d.ts", "node_modules")
  {
    var p := "/ws/app-types/index.d.ts";
    var head := p[..13];
    assert head == "/ws/app-types" && 'n' !in head;
    forall i ensures !OccursAt(p, "node_modules", i) {
      if 0 <= i <= |p| - 12 {
        assert p[i..i + 12][0] == p[i] == head[i];
      }
    }
    ContainsAt(p, "node_modules");
  }

  /**
   * `isExternalPath` as its comment intends: under node_modules, or a declaration file
   * outside the workspace, the workspace being the root and what lies below "root/".
   */
  function IsExternalPathIntended(filePath: string, root: string): bool {
    Contains(filePath, "node_modules") || (EndsWith(filePath, ".d.ts") && !IsInside(filePath, root))
  }

  /**
   * The intended test: a declaration file is external exactly when it lies outside the
   * workspace, a file inside the workspace and not under node_modules never is, and
   * everything the written test calls external it calls external too.
   */
  lemma {:induction false} IntendedExternalExactly(filePath: string, root: string)
    ensures !Contains(filePath, "node_modules") && EndsWith(filePath, ".d.ts") ==>
              (IsExternalPathIntended(filePath, root) <==> !IsInside(filePath, root))
    ensures IsInside(filePath, root) && !Contains(filePath, "node_modules") ==> !IsExternalPathIntended(filePath, root)
    ensures IsExternalPath(filePath, root) ==> IsExternalPathIntended(filePath, root)
  {
    if IsInside(filePath, root) {
      InsideStartsWith(filePath, root);
    }
  }

  /** The three-argument `makeRelativePath`: external paths are kept as they are. */
  function RelativeUnlessExternal(absolutePath: string, root: string, isExternal: bool): (r: string)
    ensures isExternal ==> r == absolutePath
    ensures !isExternal && !StartsWith(absolutePath, root) ==> r == absolutePath
  {
    if isExternal then absolutePath else MakeRelativePath(absolutePath, root)
  }

  /** One tsserver definition as reported. */
  function ToDefinition(fs: FileSystem, root: string, def: TsDefinition): Definition {
    var isExternal := IsExternalPath(def.file, root);
    Definition(RelativeUnlessExternal(def.file, root, isExternal), def.start.line, def.start.offset,
               ReadLine(fs, def.file, def.start.line), isExternal)
  }

  /**
   * The reported path of a definition: the file itself when external, otherwise relative
   * to the root, so that a file inside a normal root joins back onto the root.
   */
  lemma {:induction false} ReportedDefinitionPath(fs: FileSystem, root: string, def: TsDefinition)
    ensures var d := ToDefinition(fs, root, def);
            d.isExternal == IsExternalPath(def.file, root)
            && (d.isExternal ==> d.filePath == def.file)
            && (!d.isExternal && root != "" && Normal(root) && Normal(def.file) && IsInside(def.file, root) ==>
                  JoinPath(root, d.filePath) == def.file)
            && d.line == def.start.line && d.column == def.start.offset
            && d.codeSnippet == ReadLine(fs, def.file, def.start.line)
  {
    var d := ToDefinition(fs, root, def);
    if !d.isExternal && root != "" && Normal(root) && Normal(def.file) && IsInside(def.file, root) {
      InsideRoundTrip(root, def.file);
    }
  }

  /** `tsDefinitions.map(...)`. */
  function Definitions(fs: FileSystem, root: string, defs: seq<TsDefinition>): (r: seq<Definition>)
    ensures |r| == |defs|
  {
    seq(|defs|, i requires 0 <= i < |defs| => ToDefinition(fs, root, defs[i]))
  }

  /** The map keeps tsserver's order: the i-th definition reported is the i-th one tsserver gave. */
  lemma {:induction false} DefinitionsInOrder(fs: FileSystem, root: string, defs: seq<TsDefinition>)
    ensures var r := Definitions(fs, root, defs);
            forall i | 0 <= i < |r| ::
              r[i].line == defs[i].start.line && r[i].column == defs[i].start.offset
              && r[i].isExternal == IsExternalPath(defs[i].file, root)
              && (r[i].isExternal ==> r[i].filePath == defs[i].file)
  {
    var r := Definitions(fs, root, defs);
    forall i | 0 <= i < |r| ensures r[i].isExternal ==> r[i].filePath == defs[i].file {
      ReportedDefinitionPath(fs, root, defs[i]);
    }
  }

  /**
   * `handleGoToDefinition`: the target checks (reading a directory throws), then the
   * tsserver exchange (`openError` is what the open request threw, if any; `reply` is the
   * definition request's reply or what it threw).
   */
  function GoToDefinition(fs: FileSystem, input: GoToDefinitionInput, openError: Option<string>,
                          reply: Result<Reply<seq<TsDefinition>>, string>): (r: Response<GoToDefinitionSuccess>)
    ensures r.Thrown? <==> CheckTarget(fs, input.workspaceRoot, input.filePath, input.line, input.column).Thrown?
    ensures r.Ok? ==> forall d | d in r.value.definitions :: d.isExternal ==>
                        Contains(d.filePath, "node_modules") || EndsWith(d.filePath, ".d.ts")
  {
    var checked := CheckTarget(fs, input.workspaceRoot, input.filePath, input.line, input.column);
    if !checked.Ok? then Recast(checked)
    else if openError.Some? then ServerFailure(openError.value)
    else match reply
      case Failure(e) => ServerFailure(e)
      case Success(answer) =>
        if !answer.success then
          ServerFailure(OrElse(answer.message, "Failed to get definition from language server"))
        else if answer.body.None? || answer.body.value == [] then Ok(GoToDefinitionSuccess([]))
        else Ok(GoToDefinitionSuccess(Definitions(fs, input.workspaceRoot, answer.body.value)))
  }

  /**
   * The outcomes: the first failing check answers; after the checks, LANGUAGE_SERVER_ERROR
   * exactly when a request threw or tsserver reported failure, with tsserver's message or
   * the fallback; otherwise one definition per entry of the reply, none when it has none.
   */
  lemma {:induction false} DefinitionOutcomes(fs: FileSystem, input: GoToDefinitionInput, openError: Option<string>,
                           reply: Result<Reply<seq<TsDefinition>>, string>)
    ensures var r := GoToDefinition(fs, input, openError, reply);
            var checked := CheckTarget(fs, input.workspaceRoot, input.filePath, input.line, input.column);
            (!checked.Ok? ==> r == Recast(checked))
            && (checked.Ok? ==>
                  !r.Thrown?
                  && (r.Err? <==> openError.Some? || reply.Failure? || !reply.value.success)
                  && (r.Err? ==> r.error.code == LanguageServerError)
                  && (openError.None? && reply.Success? && !reply.value.success ==>
                        r.error.message == OrElse(reply.value.message, "Failed to get definition from language server"))
                  && (r.Ok? ==>
                        var body := if reply.value.body.None? then [] else reply.value.body.value;
                        |r.value.definitions| == |body|
                        && forall i | 0 <= i < |body| ::
                             r.value.definitions[i] == ToDefinition(fs, input.workspaceRoot, body[i])))
  {
  }
}
