/** `src/index.js`: the untyped first version. Its registry is built by a chain of array
    operations over rows `[file, export, args, path]`, and its request callback matches on the
    path alone. */
module LegacyIndex {
  import opened Wrappers
  import opened Seqs
  import opened Http
  import opened Routing
  import opened DirScan
  import opened LegacyHandlers
  import FileTools
  import ServerTools

  /** `array[p]`: the element at `p`, or undefined past the end. */
  function At<T>(xs: seq<T>, p: nat): (v: Option<T>)
    ensures v.Some? <==> p < |xs|
    ensures v.Some? ==> v.value == xs[p]
  {
    if p < |xs| then Some(xs[p]) else None
  }

  /** `arrayConcatOperation(fn, p)(array)`: a non-empty array gets `fn(array[p], array)`
      appended, an empty one becomes `[]`; an exception of `fn` escapes. */
  function ArrayConcatOperation<T, E>(fn: (Option<T>, seq<T>) -> Result<T, E>, p: nat, xs: seq<T>): (r: Result<seq<T>, E>)
    ensures xs == [] ==> r == Success([])
    ensures xs != [] ==> (r.Success? <==> fn(At(xs, p), xs).Success?)
    ensures xs != [] && r.Success? ==>
      |r.value| == |xs| + 1 && r.value[..|xs|] == xs && r.value[|xs|] == fn(At(xs, p), xs).value
    ensures r.Failure? ==> r.error == fn(At(xs, p), xs).error
  {
    if |xs| > 0 then
      match fn(At(xs, p), xs)
      case Success(v) => Success(xs + [v])
      case Failure(e) => Failure(e)
    else Success([])
  }

  /** One cell of a registry row: a file path, a loaded module, or a list of names. */
  datatype Cell = FileName(path: string) | Module(loaded: ExportKind) | Names(names: seq<string>)

  /** What `path.join` throws for a cell that is not a string. */
  const ArgTypeError: string := "TypeError [ERR_INVALID_ARG_TYPE]: The \"path\" argument must be of type string"

  /** `file => require(path.join(folder, file))`, with `require` given as `exports`. Rows reach
      this step as `[file]`, so the other cases do not arise. */
  function RequireStep(exports: string -> ExportKind): (Option<Cell>, seq<Cell>) -> Result<Cell, string>
  {
    (c: Option<Cell>, row: seq<Cell>) =>
      if c.Some? && c.value.FileName? then Success(Module(exports(c.value.path))) else Failure(ArgTypeError)
  }

  /** `typeof arr[1] === "function"`. */
  predicate IsFunctionRow(row: seq<Cell>)
  {
    |row| > 1 && row[1].Module? && row[1].loaded.FunctionExport?
  }

  /** `fn => extractFunctionArguments(fn)`. Rows reach this step with a function in their second
      cell, so the other cases do not arise. */
  function ArgumentsStep(c: Option<Cell>, row: seq<Cell>): Result<Cell, string>
  {
    if c.Some? && c.value.Module? && c.value.loaded.FunctionExport? then
      match ExtractFunctionArguments(c.value.loaded.fn.source)
      case Success(names) => Success(Names(names))
      case Failure(e) => Failure(e)
    else Failure(NoMatch)
  }

  /** `file => (file[0] === "/" ? file.slice(1) : file).split("/")`. Rows reach this step with
      a file path in their first cell, so the other case does not arise. */
  function PathStep(c: Option<Cell>, row: seq<Cell>): Result<Cell, string>
  {
    if c.Some? && c.value.FileName? then Success(Names(FileTools.UrlPath(c.value.path))) else Failure(ArgTypeError)
  }

  /** `array => ({ file: array[0], handler: array[1], args: array[2], path: array[3] })`. Rows
      reach this step as `[file, function, args, path]`, so the fallback view is never built. */
  function ToView(row: seq<Cell>): View
  {
    if |row| == 4 && row[0].FileName? && row[1].Module? && row[1].loaded.FunctionExport?
       && row[2].Names? && row[3].Names?
    then View(row[0].path, row[1].loaded.fn, row[2].names, row[3].names)
    else View("", HandlerRef(0, ""), [], [])
  }

  /** `file => [file]`. */
  function Single(): string -> seq<Cell>
  {
    (f: string) => [FileName(f)]
  }

  /** `arrayConcatOperation(file => require(...), 0)`. */
  function RequireRow(exports: string -> ExportKind): seq<Cell> -> Result<seq<Cell>, string>
  {
    (row: seq<Cell>) => ArrayConcatOperation(RequireStep(exports), 0, row)
  }

  /** `arrayConcatOperation(fn => extractFunctionArguments(fn), 1)`. */
  function ArgumentsRow(): seq<Cell> -> Result<seq<Cell>, string>
  {
    (row: seq<Cell>) => ArrayConcatOperation(ArgumentsStep, 1, row)
  }

  /** `arrayConcatOperation(file => ....split("/"), 0)`. */
  function PathRow(): seq<Cell> -> Result<seq<Cell>, string>
  {
    (row: seq<Cell>) => ArrayConcatOperation(PathStep, 0, row)
  }

  /** `importViewDir(folder)` after the scan. */
  function ImportFiles(files: seq<string>, exports: string -> ExportKind): Result<seq<View>, string>
  {
    var sources := Filter(files, FileTools.IsHandlerSource);
    var rows1 := Map(sources, Single());
    var rows2 :- MapResult(rows1, RequireRow(exports));
    var rows3 := Filter(rows2, IsFunctionRow);
    var rows4 :- MapResult(rows3, ArgumentsRow());
    var rows5 :- MapResult(rows4, PathRow());
    Success(Map(rows5, ToView))
  }

  /** `importViewDir(folder)`, with `require` given as `exports`. */
  function ImportViewDir(folder: seq<Entry>, exports: string -> ExportKind): Result<seq<View>, string>
  {
    ImportFiles(ScanRoot(folder), exports)
  }

  /** The files the chain keeps: handler sources that export a function. */
  predicate Loads(exports: string -> ExportKind, file: string)
  {
    FileTools.IsHandlerSource(file) && exports(file).FunctionExport?
  }

  /** `Loads` as a filter callback. */
  function Loader(exports: string -> ExportKind): string -> bool
  {
    (f: string) => Loads(exports, f)
  }

  /** The view of one kept file: the reference definition. */
  function ViewOf(exports: string -> ExportKind, file: string): Result<View, string>
  {
    match exports(file)
    case OtherExport => Failure(NoMatch)
    case FunctionExport(fn) =>
      match ExtractFunctionArguments(fn.source)
      case Success(args) => Success(View(file, fn, args, FileTools.UrlPath(file)))
      case Failure(e) => Failure(e)
  }

  /** `ViewOf` as a map callback. */
  function Viewer(exports: string -> ExportKind): string -> Result<View, string>
  {
    (f: string) => ViewOf(exports, f)
  }

  /** The row a handler source has after `require`. */
  function Loaded(exports: string -> ExportKind): string -> seq<Cell>
  {
    (f: string) => [FileName(f), Module(exports(f))]
  }

  /** The first two steps turn every handler source into its loaded row. */
  lemma RequireRows(sources: seq<string>, exports: string -> ExportKind)
    ensures MapResult(Map(sources, Single()), RequireRow(exports)) == Success(Map(sources, Loaded(exports)))
  {
    var rows1 := Map(sources, Single());
    var r := MapResult(rows1, RequireRow(exports));
    forall i | 0 <= i < |rows1|
      ensures RequireRow(exports)(rows1[i]) == Success(Loaded(exports)(sources[i]))
    {
      assert rows1[i] == [FileName(sources[i])];
      assert At(rows1[i], 0) == Some(FileName(sources[i]));
      assert rows1[i] + [Module(exports(sources[i]))] == Loaded(exports)(sources[i]);
    }
    assert r.value == Map(sources, Loaded(exports));
  }

  /** The function filter keeps the loaded rows of exactly the kept files. */
  lemma FunctionRows(files: seq<string>, exports: string -> ExportKind)
    ensures Filter(Map(Filter(files, FileTools.IsHandlerSource), Loaded(exports)), IsFunctionRow)
         == Map(Filter(files, Loader(exports)), Loaded(exports))
  {
    var sources := Filter(files, FileTools.IsHandlerSource);
    var exporting := (f: string) => exports(f).FunctionExport?;
    FilterMap(sources, Loaded(exports), IsFunctionRow, exporting);
    FilterTwice(files, FileTools.IsHandlerSource, exporting, Loader(exports));
  }

  /** The last three steps turn the loaded row of a kept file into its view, or throw what
      `ViewOf` throws. */
  lemma RowSteps(exports: string -> ExportKind, file: string)
    requires exports(file).FunctionExport?
    ensures var row4 := ArgumentsRow()(Loaded(exports)(file));
      && (row4.Success? <==> ViewOf(exports, file).Success?)
      && (row4.Failure? ==> row4.error == ViewOf(exports, file).error)
      && (row4.Success? ==> PathRow()(row4.value).Success? && ToView(PathRow()(row4.value).value) == ViewOf(exports, file).value)
  {
    var row := Loaded(exports)(file);
    assert At(row, 1) == Some(Module(exports(file)));
    var row4 := ArrayConcatOperation(ArgumentsStep, 1, row);
    if row4.Success? {
      assert At(row4.value, 0) == Some(FileName(file));
      var row5 := ArrayConcatOperation(PathStep, 0, row4.value);
      assert row5.value == row4.value + [Names(FileTools.UrlPath(file))];
    }
  }

  /** Over the loaded rows of kept files, the last three steps are `ViewOf`. */
  lemma LastSteps(kept: seq<string>, exports: string -> ExportKind)
    requires forall i :: 0 <= i < |kept| ==> exports(kept[i]).FunctionExport?
    ensures var rows4 := MapResult(Map(kept, Loaded(exports)), ArgumentsRow());
      var expected := MapResult(kept, Viewer(exports));
      && (rows4.Success? <==> expected.Success?)
      && (rows4.Failure? ==> rows4.error == expected.error)
      && (rows4.Success? ==> MapResult(rows4.value, PathRow()).Success?
                             && Map(MapResult(rows4.value, PathRow()).value, ToView) == expected.value)
  {
    ExtractionAgrees(kept, exports);
    ExtractedViews(kept, exports);
  }

  /** The extraction step over the loaded rows fails exactly when `ViewOf` fails on some kept
      file, and with the same exception. */
  lemma ExtractionAgrees(kept: seq<string>, exports: string -> ExportKind)
    requires forall i :: 0 <= i < |kept| ==> exports(kept[i]).FunctionExport?
    ensures var rows4 := MapResult(Map(kept, Loaded(exports)), ArgumentsRow());
      var expected := MapResult(kept, Viewer(exports));
      && (rows4.Success? <==> expected.Success?)
      && (rows4.Failure? ==> rows4.error == expected.error)
  {
    RowsAgree(kept, exports);
    MapResultAgree(Map(kept, Loaded(exports)), kept, ArgumentsRow(), Viewer(exports));
  }

  /** After a successful extraction step, the path step and the object literal give the
      views. */
  lemma ExtractedViews(kept: seq<string>, exports: string -> ExportKind)
    requires forall i :: 0 <= i < |kept| ==> exports(kept[i]).FunctionExport?
    ensures var rows4 := MapResult(Map(kept, Loaded(exports)), ArgumentsRow());
      rows4.Success? ==> MapResult(rows4.value, PathRow()).Success?
                         && Map(MapResult(rows4.value, PathRow()).value, ToView) == MapResult(kept, Viewer(exports)).value
  {
    var rows4 := MapResult(Map(kept, Loaded(exports)), ArgumentsRow());
    if rows4.Success? {
      ExtractedRows(kept, exports);
      LastStepsViews(kept, exports, rows4.value);
    }
  }

  /** Row by row, extracting the arguments succeeds and fails as `ViewOf` does. */
  lemma RowsAgree(kept: seq<string>, exports: string -> ExportKind)
    requires forall i :: 0 <= i < |kept| ==> exports(kept[i]).FunctionExport?
    ensures forall i :: 0 <= i < |kept| ==>
      (ArgumentsRow()(Map(kept, Loaded(exports))[i]).Success? <==> Viewer(exports)(kept[i]).Success?)
    ensures forall i :: 0 <= i < |kept| ==> ArgumentsRow()(Map(kept, Loaded(exports))[i]).Failure? ==>
      ArgumentsRow()(Map(kept, Loaded(exports))[i]).error == Viewer(exports)(kept[i]).error
  {
    forall i | 0 <= i < |kept|
      ensures ArgumentsRow()(Map(kept, Loaded(exports))[i]).Success? <==> Viewer(exports)(kept[i]).Success?
      ensures ArgumentsRow()(Map(kept, Loaded(exports))[i]).Failure? ==>
        ArgumentsRow()(Map(kept, Loaded(exports))[i]).error == Viewer(exports)(kept[i]).error
    {
      assert Map(kept, Loaded(exports))[i] == Loaded(exports)(kept[i]);
      RowSteps(exports, kept[i]);
    }
  }

  /** When every kept file's arguments were extracted, the path step and the object literal
      give the views. */
  lemma LastStepsViews(kept: seq<string>, exports: string -> ExportKind, rows4: seq<seq<Cell>>)
    requires forall i :: 0 <= i < |kept| ==> exports(kept[i]).FunctionExport?
    requires |rows4| == |kept|
    requires forall i :: 0 <= i < |kept| ==> ArgumentsRow()(Loaded(exports)(kept[i])) == Success(rows4[i])
    ensures MapResult(kept, Viewer(exports)).Success?
    ensures MapResult(rows4, PathRow()).Success?
    ensures Map(MapResult(rows4, PathRow()).value, ToView) == MapResult(kept, Viewer(exports)).value
  {
    forall i | 0 <= i < |kept|
      ensures Viewer(exports)(kept[i]).Success? && PathRow()(rows4[i]).Success?
      ensures ToView(PathRow()(rows4[i]).value) == Viewer(exports)(kept[i]).value
    {
      RowSteps(exports, kept[i]);
    }
  }

  /** The rows a successful extraction step yields, one per kept file. */
  lemma ExtractedRows(kept: seq<string>, exports: string -> ExportKind)
    requires MapResult(Map(kept, Loaded(exports)), ArgumentsRow()).Success?
    ensures var rows4 := MapResult(Map(kept, Loaded(exports)), ArgumentsRow()).value;
      && |rows4| == |kept|
      && forall i :: 0 <= i < |kept| ==> ArgumentsRow()(Loaded(exports)(kept[i])) == Success(rows4[i])
  {
  }

  /** The untyped `importViewDir` of a list of files: the views of the handler sources that
      export a function, in file order, or the exception of the first one whose source text
      does not match. */
  lemma ImportFilesIsViews(files: seq<string>, exports: string -> ExportKind)
    ensures ImportFiles(files, exports) == MapResult(Filter(files, Loader(exports)), Viewer(exports))
  {
    var kept := Filter(files, Loader(exports));
    RequireRows(Filter(files, FileTools.IsHandlerSource), exports);
    FunctionRows(files, exports);
    forall i | 0 <= i < |kept| ensures exports(kept[i]).FunctionExport? {
      assert Loader(exports)(kept[i]);
    }
    LastSteps(kept, exports);
  }

  /** `importViewDir(folder)` yields the views of the handler sources of the tree that export a
      function, depth-first in listing order, each routed at its file path without the leading
      "/", or throws when one of them does not start with a `function` declaration. */
  lemma ImportViewDirIsViews(folder: seq<Entry>, exports: string -> ExportKind)
    requires ValidNames(folder)
    ensures var kept := Filter(RootedAll(Leaves(folder, [])), Loader(exports));
      && ImportViewDir(folder, exports) == MapResult(kept, Viewer(exports))
      && (ImportViewDir(folder, exports).Success? <==>
          forall i :: 0 <= i < |kept| ==> ExtractFunctionArguments(exports(kept[i]).fn.source).Success?)
  {
    ScanRootIsLeaves(folder);
    ImportFilesIsViews(ScanRoot(folder), exports);
    var kept := Filter(RootedAll(Leaves(folder, [])), Loader(exports));
    forall i | 0 <= i < |kept| ensures exports(kept[i]).FunctionExport? {
      assert Loader(exports)(kept[i]);
    }
  }

  /** `matchViewToPath(sections)` as a filter callback. */
  function MatchViewToPath(sections: seq<string>): View -> bool
  {
    (v: View) => SectionsMatch(sections, v.path)
  }

  /** A view matches exactly when its path equals the URL sections. */
  lemma MatchViewToPathIsEquality(sections: seq<string>, v: View)
    ensures MatchViewToPath(sections)(v) <==> sections == v.path
  {
    SectionsMatchIsEquality(sections, v.path);
  }

  /** `_views.filter(matchViewToPath(sections))[0]`: the first view at the path, whatever the
      request's method. */
  function FirstAtPath(views: seq<View>, sections: seq<string>): (r: Option<View>)
    ensures r.None? <==> forall i :: 0 <= i < |views| ==> views[i].path != sections
    ensures r.Some? ==> exists k :: 0 <= k < |views| && views[k] == r.value && r.value.path == sections
                                    && forall j :: 0 <= j < k ==> views[j].path != sections
  {
    var matching := Filter(views, MatchViewToPath(sections));
    assert forall v :: MatchViewToPath(sections)(v) <==> sections == v.path by {
      forall v ensures MatchViewToPath(sections)(v) <==> sections == v.path {
        MatchViewToPathIsEquality(sections, v);
      }
    }
    if matching == [] then
      assert forall i :: 0 <= i < |views| ==> views[i] !in matching;
      None
    else
      FilterHead(views, MatchViewToPath(sections));
      Some(matching[0])
  }

  /** `Object.keys(q).length === args.length ? args.map(a => q[a]) : undefined`. */
  function QueryArguments(query: map<string, QueryValue>, names: seq<string>): (r: Option<seq<Option<QueryValue>>>)
    ensures r.Some? <==> KeyCount(query) == |names|
    ensures r.Some? ==> |r.value| == |names| && forall i :: 0 <= i < |names| ==> r.value[i] == Lookup(query, names[i])
  {
    if KeyCount(query) == |names| then Some(LookupAll(query, names)) else None
  }

  const NotEnoughArguments: string := ErrorBody("not enough arguments provided")

  /** Whether the arity check lets the call through: arguments are undefined only when counts
      differ, and that is an error only for a handler with parameters. */
  predicate ArityAccepted(query: map<string, QueryValue>, names: seq<string>)
  {
    !(QueryArguments(query, names).None? && |names| > 0)
  }

  /** The arity check refuses the call exactly when the handler has parameters and the query a
      different number of keys; the names themselves are not checked. */
  lemma ArityAcceptedIsCount(query: map<string, QueryValue>, names: seq<string>)
    ensures ArityAccepted(query, names) <==> |names| == 0 || KeyCount(query) == |names|
  {
  }

  /** The outcome for a handler result: a string or Buffer is sent at once; otherwise
      `isPromise` runs, which throws for `null`; a resolved value is sent as it is, a rejection
      as `JSON.stringify(err)` (given as `stringify`), any other plain value as the
      unsupported-response error. An exception thrown by the handler escapes the callback. */
  function Deliver(result: HandlerResult, stringify: JsValue -> string): (out: Response)
    ensures out.Thrown? <==> result.Threw? || result == Returned(JsNull)
    ensures result.Threw? ==> out == Thrown(result.error)
    ensures result == Returned(JsNull) ==> out == Thrown(NullThen)
    ensures result.Returned? && result.v.IsText() ==> out == End(result.v)
    ensures result.Returned? && !result.v.IsText() && result.v != JsNull ==> out == End(JsString(ResponseNotSupported))
    ensures result.Resolved? ==> out == End(result.v)
    ensures result.Rejected? ==> out == End(JsString(stringify(result.reason)))
  {
    match result
    case Returned(v) =>
      if v.IsText() then End(v)
      else if v == JsNull then Thrown(NullThen)
      else End(JsString(ResponseNotSupported))
    case Resolved(v) => End(v)
    case Rejected(e) => End(JsString(stringify(e)))
    case Threw(e) => Thrown(e)
  }

  /** The typed server treats plain results, thrown exceptions and text thenables the same way;
      it differs on a thenable resolving to anything else, which it refuses, and on a string
      rejection reason, which it sends verbatim. */
  lemma DeliverAgainstSettle(result: HandlerResult, stringify: JsValue -> string)
    ensures result.Returned? || result.Threw? ==> Deliver(result, stringify) == ServerTools.Settle(result)
    ensures result.Resolved? && result.v.IsText() ==> Deliver(result, stringify) == ServerTools.Settle(result)
    ensures result.Resolved? && !result.v.IsText() ==> Deliver(result, stringify) != ServerTools.Settle(result)
    ensures result.Rejected? && result.reason.JsString? && stringify(result.reason) != result.reason.s ==>
      Deliver(result, stringify) != ServerTools.Settle(result)
  {
  }

  /** The outcome of one request to `createServer(views)`, for the URL after defaulting. */
  function Respond(views: seq<View>, url: string, query: map<string, QueryValue>,
                   run: (HandlerRef, seq<Option<QueryValue>>) -> HandlerResult, stringify: JsValue -> string): Response
  {
    match FirstAtPath(views, PathSections(url))
    case None => End(JsString(NoHandlerFound))
    case Some(view) =>
      if !ArityAccepted(query, view.args) then End(JsString(NotEnoughArguments))
      else Deliver(run(view.handler, QueryArguments(query, view.args).GetOr([])), stringify)
  }

  /** When the first view at the request's path is `views[k]`, a request it cannot accept is
      answered with the arity error, and otherwise it is called with the query value (or
      undefined) of each of its names in declared order, or with none at all when the counts
      differ and it has no parameters. */
  lemma RespondFirstAtPath(views: seq<View>, url: string, query: map<string, QueryValue>,
                           run: (HandlerRef, seq<Option<QueryValue>>) -> HandlerResult, stringify: JsValue -> string, k: nat)
    requires k < |views| && views[k].path == PathSections(url)
    requires forall j :: 0 <= j < k ==> views[j].path != PathSections(url)
    ensures !ArityAccepted(query, views[k].args) ==>
      Respond(views, url, query, run, stringify) == End(JsString(NotEnoughArguments))
    ensures ArityAccepted(query, views[k].args) ==>
      Respond(views, url, query, run, stringify)
        == Deliver(run(views[k].handler, if KeyCount(query) == |views[k].args| then LookupAll(query, views[k].args) else []), stringify)
  {
    var r := FirstAtPath(views, PathSections(url));
    var i :| 0 <= i < |views| && views[i] == r.value && r.value.path == PathSections(url)
             && forall j :: 0 <= j < i ==> views[j].path != PathSections(url);
    assert i == k;
  }

  /** A request with as many keys as names but other names still calls the handler, with
      undefined in the positions of the missing names. */
  lemma MissingNamesAreUndefined(views: seq<View>, url: string, query: map<string, QueryValue>,
                                 run: (HandlerRef, seq<Option<QueryValue>>) -> HandlerResult, stringify: JsValue -> string, k: nat, i: nat)
    requires k < |views| && views[k].path == PathSections(url)
    requires forall j :: 0 <= j < k ==> views[j].path != PathSections(url)
    requires KeyCount(query) == |views[k].args| && i < |views[k].args| && views[k].args[i] !in query
    ensures exists args :: Respond(views, url, query, run, stringify) == Deliver(run(views[k].handler, args), stringify)
                           && |args| == |views[k].args| && args[i] == None
  {
    RespondFirstAtPath(views, url, query, run, stringify, k);
    var args := LookupAll(query, views[k].args);
    assert args[i] == None;
  }

  /** The request callback of `createServer(views)`: `req.url` is overwritten with its default;
      then either exactly one payload is passed to `res.end`, or the callback throws and nothing
      is sent. */
  method HandleRequest(views: seq<View>, req: IncomingMessage, res: ServerResponse, query: map<string, QueryValue>,
                       run: (HandlerRef, seq<Option<QueryValue>>) -> HandlerResult, stringify: JsValue -> string)
    returns (outcome: Response)
    modifies req, res
    ensures req.url == Some(DefaultUrl(old(req.url)))
    ensures outcome == Respond(views, DefaultUrl(old(req.url)), query, run, stringify)
    ensures res.ended == old(res.ended) + (if outcome.End? then [outcome.payload] else [])
  {
    req.url := Some(DefaultUrl(req.url));
    var sections := PathSections(req.url.value);
    var view := FirstAtPath(views, sections);
    if view.None? {
      outcome := End(JsString(NoHandlerFound));
      res.End(outcome.payload);
      return;
    }
    var args := QueryArguments(query, view.value.args);
    if args.None? && |view.value.args| > 0 {
      outcome := End(JsString(NotEnoughArguments));
      res.End(outcome.payload);
      return;
    }
    var result := run(view.value.handler, args.GetOr([]));
    outcome := Deliver(result, stringify);
    if outcome.End? {
      res.End(outcome.payload);
    }
  }
}
