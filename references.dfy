/**
 * The find_references tool: validation, tsserver's references reply, the node_modules
 * filter, labelling of declarations, the sort (declarations first, then by file and
 * line) and the truncation to 500 results with the full count reported.
 */
module References {
  import opened Wrappers
  import opened Text
  import opened Arrays
  import opened Paths
  import opened Workspace

  const MAX_RESULTS: nat := 500

  datatype ReferenceType = Declaration | Usage

  /** One entry of tsserver's `refs`. */
  datatype TsReference = TsReference(file: string, start: Location, end: Location, isDefinition: Option<bool>)
  datatype ReferencesBody = ReferencesBody(refs: Option<seq<TsReference>>)

  datatype Reference = Reference(filePath: string, line: int, column: int, codeSnippet: string,
                                 referenceType: ReferenceType)

  datatype FindReferencesInput = FindReferencesInput(workspaceRoot: string, filePath: string, line: int,
                                                     column: int, includeNodeModules: Option<bool>)
  datatype FindReferencesSuccess = FindReferencesSuccess(references: seq<Reference>, totalCount: nat, truncated: bool)

  predicate IsInNodeModules(filePath: string) {
    Contains(filePath, "node_modules")
  }

  /** A declaration exactly when tsserver marks the reference as a definition. */
  function DetermineReferenceType(ref: TsReference): (t: ReferenceType)
    ensures t == Declaration <==> ref.isDefinition == Some(true)
  {
    if ref.isDefinition == Some(true) then Declaration else Usage
  }

  /** The filter: references under node_modules are dropped unless asked for. */
  predicate Kept(ref: TsReference, includeNodeModules: bool) {
    includeNodeModules || !IsInNodeModules(ref.file)
  }

  /** The filter as the predicate `Filter` applies. */
  function KeptBy(includeNodeModules: bool): TsReference -> bool {
    (ref: TsReference) => Kept(ref, includeNodeModules)
  }

  /** One tsserver reference as reported: relative path, 1-based position, its line's text, its kind. */
  function ToReference(fs: FileSystem, root: string, ref: TsReference): Reference {
    Reference(MakeRelativePath(ref.file, root), ref.start.line, ref.start.offset,
              ReadLine(fs, ref.file, ref.start.line), DetermineReferenceType(ref))
  }

  /** The filter and map of the pipeline. */
  function Transform(fs: FileSystem, root: string, refs: seq<TsReference>, includeNodeModules: bool)
    : (r: seq<Reference>)
    ensures var kept := Filter(refs, KeptBy(includeNodeModules));
            |r| == |kept| && forall i | 0 <= i < |r| :: r[i] == ToReference(fs, root, kept[i])
  {
    var kept := Filter(refs, KeptBy(includeNodeModules));
    seq(|kept|, i requires 0 <= i < |kept| => ToReference(fs, root, kept[i]))
  }

  /**
   * The sort comparator, as "a may come before b": a declaration before a usage; among
   * references of one kind, by file path, then by line.
   */
  predicate RefLe(a: Reference, b: Reference) {
    (a.referenceType == Declaration && b.referenceType != Declaration)
    || (a.referenceType == b.referenceType
        && (if a.filePath != b.filePath then LexLe(a.filePath, b.filePath) else a.line <= b.line))
  }

  /**
   * The comparator the sort is given: negative when a goes first, positive when b does.
   * A declaration goes before a usage; otherwise the paths' comparison decides when it
   * is not zero, and the lines' difference when it is.
   */
  function Compare(a: Reference, b: Reference): int {
    if a.referenceType == Declaration && b.referenceType != Declaration then -1
    else if a.referenceType != Declaration && b.referenceType == Declaration then 1
    else if LexCompare(a.filePath, b.filePath) != 0 then LexCompare(a.filePath, b.filePath)
    else a.line - b.line
  }

  /** "a may come before b" is exactly the comparator not putting b first. */
  lemma {:induction false} RefLeIsCompare(a: Reference, b: Reference)
    ensures RefLe(a, b) <==> Compare(a, b) <= 0
  {
    LexCompareAgrees(a.filePath, b.filePath);
  }

  lemma {:induction false} RefLeIsTotal()
    ensures TotalPreorder(RefLe)
  {
    forall a, b ensures RefLe(a, b) || RefLe(b, a) {
      LexTotal(a.filePath, b.filePath);
    }
    forall a, b, c | RefLe(a, b) && RefLe(b, c) ensures RefLe(a, c) {
      if a.referenceType == b.referenceType == c.referenceType {
        if a.filePath != b.filePath && b.filePath != c.filePath {
          LexTransitive(a.filePath, b.filePath, c.filePath);
          if a.filePath == c.filePath {
            LexAntisymmetric(a.filePath, b.filePath);
          }
        }
      }
    }
  }

  /** The success record for the references tsserver returned. */
  function FindResult(fs: FileSystem, root: string, refs: seq<TsReference>, includeNodeModules: bool)
    : (r: FindReferencesSuccess)
    ensures |r.references| <= MAX_RESULTS
    ensures |r.references| <= r.totalCount
    ensures r.truncated <==> |r.references| < r.totalCount
  {
    var sorted := SortBy(Transform(fs, root, refs, includeNodeModules), RefLe);
    FindReferencesSuccess(Take(sorted, MAX_RESULTS), |sorted|, |sorted| > MAX_RESULTS)
  }

  /**
   * The count is taken before truncation: it is the number of references the filter
   * keeps; the list is truncated exactly when that count exceeds 500, to its first 500.
   */
  lemma {:induction false} CountBeforeTruncation(fs: FileSystem, root: string, refs: seq<TsReference>, includeNodeModules: bool)
    ensures var r := FindResult(fs, root, refs, includeNodeModules);
            var kept := Filter(refs, KeptBy(includeNodeModules));
            r.totalCount == |kept|
            && (r.truncated <==> r.totalCount > MAX_RESULTS)
            && |r.references| == (if r.totalCount > MAX_RESULTS then MAX_RESULTS else r.totalCount)
            && multiset(r.references) <= multiset(Transform(fs, root, refs, includeNodeModules))
            && forall x, y | x in r.references && y in multiset(Transform(fs, root, refs, includeNodeModules))
                                                         - multiset(r.references) :: RefLe(x, y)
  {
    var all := Transform(fs, root, refs, includeNodeModules);
    var sorted := SortBy(all, RefLe);
    RefLeIsTotal();
    SortBySorts(all, RefLe);
    TakeKeepsFirst(sorted, MAX_RESULTS, RefLe);
  }

  /** In the result every declaration comes before every usage, and one kind is ordered by path, then line. */
  lemma {:induction false} ResultOrder(fs: FileSystem, root: string, refs: seq<TsReference>, includeNodeModules: bool)
    ensures var rs := FindResult(fs, root, refs, includeNodeModules).references;
            forall i, j | 0 <= i < j < |rs| ::
              !(rs[i].referenceType == Usage && rs[j].referenceType == Declaration)
              && (rs[i].referenceType == rs[j].referenceType && rs[i].filePath != rs[j].filePath ==>
                    LexLe(rs[i].filePath, rs[j].filePath))
              && (rs[i].referenceType == rs[j].referenceType && rs[i].filePath == rs[j].filePath ==>
                    rs[i].line <= rs[j].line)
  {
    var sorted := SortBy(Transform(fs, root, refs, includeNodeModules), RefLe);
    RefLeIsTotal();
    SortBySorts(Transform(fs, root, refs, includeNodeModules), RefLe);
    var rs := Take(sorted, MAX_RESULTS);
    forall i, j | 0 <= i < j < |rs| ensures RefLe(rs[i], rs[j]) {
      assert rs[i] == sorted[i] && rs[j] == sorted[j];
    }
  }

  /**
   * Each reported reference comes from a tsserver reference the filter keeps (so none
   * from node_modules unless asked for), and every kept one is reported.
   */
  lemma {:induction false} FilterKeepsExactly(fs: FileSystem, root: string, refs: seq<TsReference>, includeNodeModules: bool)
    ensures var all := Transform(fs, root, refs, includeNodeModules);
            forall r | r in all :: exists k | 0 <= k < |refs| ::
              Kept(refs[k], includeNodeModules) && r == ToReference(fs, root, refs[k])
              && r.filePath == MakeRelativePath(refs[k].file, root)
              && r.line == refs[k].start.line && r.column == refs[k].start.offset
              && (r.referenceType == Declaration <==> refs[k].isDefinition == Some(true))
    ensures var all := Transform(fs, root, refs, includeNodeModules);
            forall k | 0 <= k < |refs| && Kept(refs[k], includeNodeModules) :: ToReference(fs, root, refs[k]) in all
  {
    var kept := Filter(refs, KeptBy(includeNodeModules));
    var all := Transform(fs, root, refs, includeNodeModules);
    forall r | r in all
      ensures exists k | 0 <= k < |refs| :: Kept(refs[k], includeNodeModules) && r == ToReference(fs, root, refs[k])
    {
      var i :| 0 <= i < |all| && all[i] == r;
      var k :| 0 <= k < |refs| && refs[k] == kept[i];
      assert KeptBy(includeNodeModules)(kept[i]);
      assert Kept(refs[k], includeNodeModules) && all[i] == ToReference(fs, root, refs[k]);
    }
    forall k | 0 <= k < |refs| && Kept(refs[k], includeNodeModules)
      ensures ToReference(fs, root, refs[k]) in all
    {
      assert KeptBy(includeNodeModules)(refs[k]);
      var i :| 0 <= i < |kept| && kept[i] == refs[k];
      assert all[i] == ToReference(fs, root, refs[k]);
    }
  }

  /**
   * The node_modules switch: when asked for, every tsserver reference is reported, in
   * order; otherwise exactly those whose path does not mention node_modules are.
   */
  lemma {:induction false} NodeModulesFilter(fs: FileSystem, root: string, refs: seq<TsReference>)
    ensures var all := Transform(fs, root, refs, true);
            |all| == |refs| && forall i | 0 <= i < |refs| :: all[i] == ToReference(fs, root, refs[i])
    ensures var kept := Transform(fs, root, refs, false);
            (forall r | r in kept :: exists k | 0 <= k < |refs| ::
               !IsInNodeModules(refs[k].file) && r == ToReference(fs, root, refs[k]))
            && (forall k | 0 <= k < |refs| && !IsInNodeModules(refs[k].file) :: ToReference(fs, root, refs[k]) in kept)
  {
    FilterAll(refs, KeptBy(true));
    FilterKeepsExactly(fs, root, refs, false);
  }

  // ---------------------------------------------------------------------------
  // handleFindReferences

  /**
   * Everything before the pipeline: the target checks, then the tsserver exchange
   * (`openError` is what the open request threw, if any; `reply` is the references
   * request's reply or the error it threw). The result is tsserver's references,
   * empty when the reply has none.
   */
  function ReferencesPlan(fs: FileSystem, input: FindReferencesInput, openError: Option<string>,
                          reply: Result<Reply<ReferencesBody>, string>): (r: Response<seq<TsReference>>)
    ensures var checked := CheckTarget(fs, input.workspaceRoot, input.filePath, input.line, input.column);
            (!checked.Ok? ==> r == Recast(checked))
            && (checked.Ok? ==>
                  !r.Thrown?
                  && (r.Err? <==> openError.Some? || reply.Failure? || !reply.value.success)
                  && (r.Err? ==> r.error.code == LanguageServerError)
                  && (openError.Some? ==> r.error.message == openError.value)
                  && (openError.None? && reply.Failure? ==> r.error.message == reply.error)
                  && (openError.None? && reply.Success? && !reply.value.success ==>
                        r.error.message == OrElse(reply.value.message, "Failed to get references from language server"))
                  && (r.Ok? ==>
                        r.value == (if reply.value.body.None? || reply.value.body.value.refs.None? then []
                                    else reply.value.body.value.refs.value)))
  {
    var checked := CheckTarget(fs, input.workspaceRoot, input.filePath, input.line, input.column);
    if !checked.Ok? then Recast(checked)
    else if openError.Some? then ServerFailure(openError.value)
    else match reply
      case Failure(e) => ServerFailure(e)
      case Success(answer) =>
        if !answer.success then
          ServerFailure(OrElse(answer.message, "Failed to get references from language server"))
        else if answer.body.None? || answer.body.value.refs.None? then Ok([])
        else Ok(answer.body.value.refs.value)
  }

  /**
   * The pipeline in place: the references are filtered and mapped, sorted in place,
   * counted, and cut down to the first 500 when there are more.
   */
  method Pipeline(fs: FileSystem, root: string, refs: seq<TsReference>, includeNodeModules: bool)
    returns (r: FindReferencesSuccess)
    ensures r == FindResult(fs, root, refs, includeNodeModules)
  {
    var transformed := Transform(fs, root, refs, includeNodeModules);
    var references := new Reference[|transformed|](i requires 0 <= i < |transformed| => transformed[i]);
    assert references[..] == transformed;
    SortInPlace(references, RefLe);
    var totalCount := references.Length;
    var truncated := totalCount > MAX_RESULTS;
    var result := references[..];
    if truncated {
      result := references[..MAX_RESULTS];
    }
    r := FindReferencesSuccess(result, totalCount, truncated);
  }

  /** `handleFindReferences`; `requests` lists the tsserver commands sent. */
  method HandleFindReferences(fs: FileSystem, input: FindReferencesInput, openError: Option<string>,
                              reply: Result<Reply<ReferencesBody>, string>)
    returns (r: Response<FindReferencesSuccess>, requests: seq<string>)
    ensures var plan := ReferencesPlan(fs, input, openError, reply);
            (!plan.Ok? ==> r == Recast(plan))
            && (plan.Ok? && plan.value == [] ==> r == Ok(FindReferencesSuccess([], 0, false)))
            && (plan.Ok? ==>
                  r == Ok(FindResult(fs, input.workspaceRoot, plan.value,
                                     input.includeNodeModules == Some(true))))
    ensures var checked := CheckTarget(fs, input.workspaceRoot, input.filePath, input.line, input.column);
            requests == (if !checked.Ok? then [] else if openError.Some? then ["open"] else ["open", "references"])
  {
    var checked := CheckTarget(fs, input.workspaceRoot, input.filePath, input.line, input.column);
    requests := if !checked.Ok? then [] else if openError.Some? then ["open"] else ["open", "references"];
    var includeNodeModules := match input.includeNodeModules case None => false case Some(b) => b;
    var plan := ReferencesPlan(fs, input, openError, reply);
    if !plan.Ok? {
      return Recast(plan), requests;
    }
    if plan.value == [] {
      assert FindResult(fs, input.workspaceRoot, [], includeNodeModules) == FindReferencesSuccess([], 0, false);
      return Ok(FindReferencesSuccess([], 0, false)), requests;
    }
    var result := Pipeline(fs, input.workspaceRoot, plan.value, includeNodeModules);
    r := Ok(result);
  }
}
