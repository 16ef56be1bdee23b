/** src/JSXServeFileTools.ts: configuration normalising and building the handler registry from a
    scanned directory. */
module FileTools {
  import opened Wrappers
  import opened Text
  import opened NodePath
  import opened Http
  import opened Seqs
  import opened Introspect
  import opened DirScan

  /** The HTTP methods a handler entry may name. */
  datatype Method = GET | POST | PUT | DELETE

  function MethodName(m: Method): string
  {
    match m
    case GET => "GET"
    case POST => "POST"
    case PUT => "PUT"
    case DELETE => "DELETE"
  }

  const SupportedMethods: seq<string> := ["POST", "PUT", "GET", "DELETE"]

  /** The method a name stands for, when it is one of the supported four. */
  function ParseMethod(name: string): (m: Option<Method>)
    ensures m.Some? <==> name in SupportedMethods
    ensures m.Some? ==> MethodName(m.value) == name
  {
    if name == "GET" then Some(GET)
    else if name == "POST" then Some(POST)
    else if name == "PUT" then Some(PUT)
    else if name == "DELETE" then Some(DELETE)
    else None
  }

  /** The `method` key of a handler entry as given: absent, JSON `null`, or a string. */
  datatype RawMethod = MethodAbsent | MethodNull | MethodGiven(name: string)

  /** A handler entry as the configuration file gives it; absent keys are None. `file` and
      `alias` are only tested for truthiness, where `null` and absent agree; `method` is
      compared with `undefined`, so `null` is kept apart. */
  datatype RawHandler = RawHandler(file: Option<string>, alias: Option<string>, httpMethod: RawMethod)

  /** The `defaults` object as given. */
  datatype RawDefaults = RawDefaults(host: Option<string>, mode: Option<string>, port: Option<int>)

  /** The parsed configuration object as given; `defaults` may be missing. */
  datatype RawConfiguration = RawConfiguration(defaults: Option<RawDefaults>, handlers: Option<seq<RawHandler>>)

  /** A normalised handler entry: `file` is set, `httpMethod` is one of the four. */
  datatype HandlerConfiguration = HandlerConfiguration(file: string, alias: Option<string>, httpMethod: Method)

  datatype Defaults = Defaults(host: string, mode: string, port: int)

  /** The normalised configuration. */
  datatype Configuration = Configuration(defaults: Defaults, handlers: seq<HandlerConfiguration>)

  /** The errors `parseJSXServeConfiguration` throws; `DefaultsMissing` is the TypeError of
      reading a property of an undefined `defaults`. */
  datatype ConfigError = FileRequired | AliasRequired | MethodNotSupported | DefaultsMissing

  function ErrorMessage(e: ConfigError): string
  {
    match e
    case FileRequired => "Configuration Parsing Error: file is required"
    case AliasRequired => "Configuration Parsing Error: alias is required in strict mode"
    case MethodNotSupported => "Configuration Parsing Error: method is not supported"
    case DefaultsMissing => "TypeError: Cannot read properties of undefined (reading 'host')"
  }

  /** JavaScript truthiness of an optional string: present and not "". */
  predicate Truthy(v: Option<string>)
  {
    v.Some? && v.value != ""
  }

  /** `v || fallback` for an optional string. */
  function Or(v: Option<string>, fallback: string): (r: string)
    ensures Truthy(v) ==> r == v.value
    ensures !Truthy(v) ==> r == fallback
  {
    if Truthy(v) then v.value else fallback
  }

  /** `parseJSXServeHandlerConfiguration`, given the mode exactly as the input holds it. */
  function ParseHandlerConfiguration(rawMode: Option<string>, h: RawHandler): (r: Result<HandlerConfiguration, ConfigError>)
    ensures r.Success? <==>
              Truthy(h.file) && (Truthy(h.alias) || rawMode != Some("strict"))
              && (h.httpMethod.MethodAbsent? || (h.httpMethod.MethodGiven? && h.httpMethod.name in SupportedMethods))
    ensures r == Failure(FileRequired) <==> !Truthy(h.file)
    ensures r == Failure(AliasRequired) <==> Truthy(h.file) && !Truthy(h.alias) && rawMode == Some("strict")
    ensures r == Failure(MethodNotSupported) <==>
              Truthy(h.file) && (Truthy(h.alias) || rawMode != Some("strict"))
              && !h.httpMethod.MethodAbsent? && !(h.httpMethod.MethodGiven? && h.httpMethod.name in SupportedMethods)
    ensures r.Success? ==> r.value.file == h.file.value && r.value.alias == h.alias
    ensures r.Success? ==> MethodName(r.value.httpMethod) == (if h.httpMethod.MethodGiven? then h.httpMethod.name else "GET")
  {
    if !Truthy(h.file) then Failure(FileRequired)
    else if !Truthy(h.alias) && rawMode == Some("strict") then Failure(AliasRequired)
    else if h.httpMethod.MethodNull? then Failure(MethodNotSupported)
    else if h.httpMethod.MethodGiven? && ParseMethod(h.httpMethod.name).None? then Failure(MethodNotSupported)
    else
      var m := if h.httpMethod.MethodGiven? then ParseMethod(h.httpMethod.name).value else GET;
      Success(HandlerConfiguration(h.file.value, h.alias, m))
  }

  /** `handlers.map(parseJSXServeHandlerConfiguration)`: the first entry that throws decides
      the error; otherwise every entry is normalised in place of the original. */
  function ParseHandlers(rawMode: Option<string>, hs: seq<RawHandler>): (r: Result<seq<HandlerConfiguration>, ConfigError>)
    ensures r.Success? <==> forall i :: 0 <= i < |hs| ==> ParseHandlerConfiguration(rawMode, hs[i]).Success?
    ensures r.Success? ==> |r.value| == |hs|
    ensures r.Success? ==> forall i :: 0 <= i < |hs| ==> Success(r.value[i]) == ParseHandlerConfiguration(rawMode, hs[i])
    ensures r.Failure? ==> exists i :: 0 <= i < |hs| && ParseHandlerConfiguration(rawMode, hs[i]) == Failure(r.error)
                                       && forall j :: 0 <= j < i ==> ParseHandlerConfiguration(rawMode, hs[j]).Success?
  {
    if hs == [] then Success([])
    else
      match ParseHandlerConfiguration(rawMode, hs[0])
      case Failure(e) => Failure(e)
      case Success(first) =>
        match ParseHandlers(rawMode, hs[1..])
        case Failure(e) =>
          assert forall i :: 1 <= i < |hs| ==> hs[i] == hs[1..][i - 1];
          Failure(e)
        case Success(rest) => Success([first] + rest)
  }

  /** `parseJSXServeConfiguration`. */
  function ParseConfiguration(raw: RawConfiguration): (r: Result<Configuration, ConfigError>)
    ensures raw.defaults.None? ==> r == Failure(DefaultsMissing)
    ensures r.Success? ==>
      var d := raw.defaults.value;
      && r.value.defaults == Defaults(Or(d.host, "127.0.0.1"), Or(d.mode, "strict"),
                                      if d.port.Some? && d.port.value != 0 then d.port.value else 8080)
      && |r.value.handlers| == |raw.handlers.GetOr([])|
    ensures raw.defaults.Some? ==>
      var handlers := ParseHandlers(raw.defaults.value.mode, raw.handlers.GetOr([]));
      && (r.Success? <==> handlers.Success?)
      && (r.Success? ==> r.value.handlers == handlers.value)
      && (r.Failure? ==> r.error == handlers.error)
  {
    if raw.defaults.None? then Failure(DefaultsMissing)
    else
      var d := raw.defaults.value;
      var defaults := Defaults(Or(d.host, "127.0.0.1"), Or(d.mode, "strict"),
                               if d.port.Some? && d.port.value != 0 then d.port.value else 8080);
      var handlers :- ParseHandlers(d.mode, raw.handlers.GetOr([]));
      Success(Configuration(defaults, handlers))
  }

  /** The alias check reads the mode as given: with no mode at all, no entry is asked for an
      alias, although the normalised mode is then "strict". */
  lemma AbsentModeSkipsAliasCheck(raw: RawConfiguration)
    requires raw.defaults.Some? && raw.defaults.value.mode.None?
    ensures ParseConfiguration(raw) != Failure(AliasRequired)
    ensures ParseConfiguration(raw).Success? ==> ParseConfiguration(raw).value.defaults.mode == "strict"
  {
    var hs := raw.handlers.GetOr([]);
    var r := ParseHandlers(None, hs);
    if r.Failure? {
      var i :| 0 <= i < |hs| && ParseHandlerConfiguration(None, hs[i]) == Failure(r.error);
    }
  }

  /** With the mode given literally as "strict", the first entry without an alias (after
      valid entries) fails the whole configuration. */
  lemma StrictModeRequiresAlias(raw: RawConfiguration, i: nat)
    requires raw.defaults.Some? && raw.defaults.value.mode == Some("strict")
    requires raw.handlers.Some? && i < |raw.handlers.value|
    requires Truthy(raw.handlers.value[i].file) && !Truthy(raw.handlers.value[i].alias)
    requires forall j :: 0 <= j < i ==> ParseHandlerConfiguration(Some("strict"), raw.handlers.value[j]).Success?
    ensures ParseConfiguration(raw) == Failure(AliasRequired)
  {
    var hs := raw.handlers.value;
    var r := ParseHandlers(Some("strict"), hs);
    assert !ParseHandlerConfiguration(Some("strict"), hs[i]).Success?;
    var k :| 0 <= k < |hs| && ParseHandlerConfiguration(Some("strict"), hs[k]) == Failure(r.error)
             && forall j :: 0 <= j < k ==> ParseHandlerConfiguration(Some("strict"), hs[j]).Success?;
  }

  /** `extractFunctionArguments`: no match gives no names, as does an empty parameter list;
      otherwise the comma-separated pieces of the parameter text. */
  function ExtractFunctionArguments(src: string): (names: seq<string>)
    ensures names == [] <==> CaptureParameters(src).None? || CaptureParameters(src) == Some("")
    ensures names != [] ==> Join(names, ',') == CaptureParameters(src).value
    ensures forall i :: 0 <= i < |names| ==> ',' !in names[i]
  {
    match CaptureParameters(src)
    case None => []
    case Some(captured) => SplitParameters(captured)
  }

  /** A nullary declaration yields no names, never [""]. */
  lemma NullaryHandlerHasNoArguments(pre: string, rest: string)
    requires '(' !in pre
    ensures ExtractFunctionArguments(Keyword + pre + "()" + rest) == []
  {
    var src := Keyword + pre + "()" + rest;
    assert src == Keyword + pre + "(" + "" + ")" + rest;
    CaptureOfDeclaration(src, pre, "", rest);
  }

  /** A declaration with separator-free parameter names yields exactly those names. */
  lemma ArgumentsOfDeclaration(pre: string, names: seq<string>, rest: string)
    requires '(' !in pre
    requires names != [] && names != [""]
    requires forall i :: 0 <= i < |names| ==> ',' !in names[i] && ')' !in names[i]
    ensures ExtractFunctionArguments(Keyword + pre + "(" + Join(names, ',') + ")" + rest) == names
  {
    var params := Join(names, ',');
    JoinHasNo(names, ',', ')');
    CaptureOfDeclaration(Keyword + pre + "(" + params + ")" + rest, pre, params, rest);
    SplitParametersOfJoin(names);
  }

  /** Joining pieces free of a character `c` other than the separator leaves the join free of `c`. */
  lemma {:induction false} JoinHasNo(parts: seq<string>, sep: char, c: char)
    requires c != sep
    requires forall i :: 0 <= i < |parts| ==> c !in parts[i]
    ensures c !in Join(parts, sep)
  {
    if |parts| > 1 {
      JoinHasNo(parts[1..], sep, c);
    }
  }

  /** `filterFilePathByExtname(allowed)(file)`. */
  predicate FilterFilePathByExtname(allowed: seq<string>, file: string)
  {
    Extname(file) in allowed
  }

  /** A scanned file is a handler source when its extname is ".js" or ".jsx". */
  predicate IsHandlerSource(file: string)
  {
    FilterFilePathByExtname([".js", ".jsx"], file)
  }

  /** For a path not ending in "/", being a handler source means ending in ".js" or ".jsx"
      after a character other than "/". */
  lemma HandlerSourceBySuffix(file: string)
    requires file == [] || file[|file| - 1] != '/'
    ensures IsHandlerSource(file) <==>
      (|file| > 3 && file[|file| - 3..] == ".js" && file[|file| - 4] != '/') ||
      (|file| > 4 && file[|file| - 4..] == ".jsx" && file[|file| - 5] != '/')
  {
    HandlerExtnames(file);
    SuffixExtname(file, ".js");
    SuffixExtname(file, ".jsx");
    EndsWithLiteral(file, ".js");
    EndsWithLiteral(file, ".jsx");
  }

  lemma HandlerExtnames(file: string)
    ensures IsHandlerSource(file) <==> Extname(file) == ".js" || Extname(file) == ".jsx"
  {
  }

  /** `file` ends in `e` after a character other than "/". */
  predicate EndsWithExtension(file: string, e: string)
  {
    |file| > |e| && file[|file| - |e|..] == e && file[|file| - |e| - 1] != '/'
  }

  lemma EndsWithLiteral(file: string, e: string)
    requires e == ".js" || e == ".jsx"
    ensures e == ".js" ==> (EndsWithExtension(file, e) <==>
      |file| > 3 && file[|file| - 3..] == ".js" && file[|file| - 4] != '/')
    ensures e == ".jsx" ==> (EndsWithExtension(file, e) <==>
      |file| > 4 && file[|file| - 4..] == ".jsx" && file[|file| - 5] != '/')
  {
  }

  /** `ExtnameIsSuffix` for one of the handler extensions. */
  lemma SuffixExtname(file: string, e: string)
    requires e == ".js" || e == ".jsx"
    requires file == [] || file[|file| - 1] != '/'
    ensures Extname(file) == e <==> EndsWithExtension(file, e)
  {
    HandlerExtensionsAreExtensions();
    ExtnameIsSuffix(file, e);
  }

  lemma HandlerExtensionsAreExtensions()
    ensures IsExtension(".js") && IsExtension(".jsx")
  {
    assert ".js"[1] == 'j' && ".js"[2] == 's';
    assert ".jsx"[1] == 'j' && ".jsx"[2] == 's' && ".jsx"[3] == 'x';
  }

  /** `_config.handlers.filter(f => f.file === file)[0]`, None standing for undefined. */
  function FindHandlerConfiguration(handlers: seq<HandlerConfiguration>, file: string): (r: Option<HandlerConfiguration>)
    ensures r.None? <==> forall i :: 0 <= i < |handlers| ==> handlers[i].file != file
    ensures r.Some? ==> exists i :: 0 <= i < |handlers| && handlers[i] == r.value && r.value.file == file
                                   && forall j :: 0 <= j < i ==> handlers[j].file != file
  {
    var matching := Filter(handlers, (h: HandlerConfiguration) => h.file == file);
    if matching == [] then
      assert forall i :: 0 <= i < |handlers| ==> handlers[i] !in matching;
      None
    else
      FilterHead(handlers, (h: HandlerConfiguration) => h.file == file);
      Some(matching[0])
  }

  /** The URL path of a handler: the target with one leading "/" removed, split on "/". */
  function UrlPath(target: string): (path: seq<string>)
    ensures |path| >= 1
  {
    Split(if |target| > 0 && target[0] == '/' then target[1..] else target, '/')
  }

  /** The sections of a URL path are the pieces of the target, without one leading "/",
      between its slashes: none holds a "/", and joined with "/" they give that text back. */
  lemma UrlPathSections(target: string)
    ensures forall k :: 0 <= k < |UrlPath(target)| ==> '/' !in UrlPath(target)[k]
    ensures Join(UrlPath(target), '/') == (if |target| > 0 && target[0] == '/' then target[1..] else target)
  {
    JoinSplit(if |target| > 0 && target[0] == '/' then target[1..] else target, '/');
  }

  /** The scanned path of a file is turned back into the names leading to it. */
  lemma UrlPathOfRooted(names: seq<string>)
    requires NamePath(names)
    ensures UrlPath(Rooted(names)) == names
  {
    SplitJoin(names, '/');
  }

  /** An entry in the handler registry. */
  datatype Descriptor = Descriptor(file: string, handler: HandlerRef, args: seq<string>, path: seq<string>, httpMethod: Method)

  /** Whether a handler source file is registered: it has a configuration entry or the mode is
      not "strict", and it exports a function. */
  predicate Admitted(config: Configuration, exports: string -> ExportKind, file: string)
  {
    && !(config.defaults.mode == "strict" && FindHandlerConfiguration(config.handlers, file).None?)
    && exports(file).FunctionExport?
  }

  /** `Admitted` as a filter callback. */
  function Admits(config: Configuration, exports: string -> ExportKind): string -> bool
  {
    f => Admitted(config, exports, f)
  }

  /** The files `importViewDir` keeps: admitted handler sources. */
  function Keeps(config: Configuration, exports: string -> ExportKind): string -> bool
  {
    f => IsHandlerSource(f) && Admitted(config, exports, f)
  }

  /** The descriptor built for an admitted file. */
  function DescriptorFor(config: Configuration, exports: string -> ExportKind, file: string): (d: Descriptor)
    requires exports(file).FunctionExport?
    ensures d.file == file && |d.path| >= 1
  {
    var entry := FindHandlerConfiguration(config.handlers, file);
    var fn := exports(file).fn;
    var alias := if entry.Some? then entry.value.alias else None;
    Descriptor(file, fn, ExtractFunctionArguments(fn.source), UrlPath(Or(alias, file)),
               if entry.Some? then entry.value.httpMethod else GET)
  }

  /** One step of the reduce in `importViewDir`. */
  function ImportStep(config: Configuration, exports: string -> ExportKind, handlers: seq<Descriptor>, file: string): seq<Descriptor>
  {
    var entry := FindHandlerConfiguration(config.handlers, file);
    if config.defaults.mode == "strict" && entry.None? then handlers
    else
      match exports(file)
      case OtherExport => handlers
      case FunctionExport(fn) =>
        var alias := if entry.Some? then entry.value.alias else None;
        handlers + [Descriptor(file, fn, ExtractFunctionArguments(fn.source), UrlPath(Or(alias, file)),
                               if entry.Some? then entry.value.httpMethod else GET)]
  }

  /** `files.reduce(importStep, handlers)`. */
  function ImportFold(config: Configuration, exports: string -> ExportKind, handlers: seq<Descriptor>, files: seq<string>): seq<Descriptor>
    decreases files
  {
    if files == [] then handlers
    else ImportFold(config, exports, ImportStep(config, exports, handlers, files[0]), files[1..])
  }

  /** `importViewDir(folder, config)`, with `require` given as `exports`. */
  function ImportViewDir(folder: seq<Entry>, config: Configuration, exports: string -> ExportKind): seq<Descriptor>
  {
    ImportFiles(ScanRoot(folder), config, exports)
  }

  /** The part of `importViewDir` after the scan: the extension filter and the reduce. */
  function ImportFiles(files: seq<string>, config: Configuration, exports: string -> ExportKind): seq<Descriptor>
  {
    ImportFold(config, exports, [], Filter(files, IsHandlerSource))
  }

  /** The descriptors of the admitted files among `files`, in order: the reference definition. */
  function Registered(config: Configuration, exports: string -> ExportKind, files: seq<string>): seq<Descriptor>
  {
    if files == [] then []
    else
      (if Admitted(config, exports, files[0]) then [DescriptorFor(config, exports, files[0])] else [])
      + Registered(config, exports, files[1..])
  }

  /** The reduce appends exactly the descriptors of the admitted files, in file order. */
  lemma {:induction false} ImportFoldIsRegistered(config: Configuration, exports: string -> ExportKind, handlers: seq<Descriptor>, files: seq<string>)
    ensures ImportFold(config, exports, handlers, files) == handlers + Registered(config, exports, files)
    decreases files
  {
    if files != [] {
      var next := ImportStep(config, exports, handlers, files[0]);
      ImportFoldIsRegistered(config, exports, next, files[1..]);
      if Admitted(config, exports, files[0]) {
        assert next == handlers + [DescriptorFor(config, exports, files[0])];
      } else {
        assert next == handlers;
      }
    }
  }

  /** The registered files are exactly the admitted ones, in order. */
  lemma {:induction false} RegisteredFiles(config: Configuration, exports: string -> ExportKind, files: seq<string>)
    ensures |Registered(config, exports, files)| == |Filter(files, Admits(config, exports))|
    ensures forall i :: 0 <= i < |Registered(config, exports, files)| ==>
      Registered(config, exports, files)[i] == DescriptorFor(config, exports, Filter(files, Admits(config, exports))[i])
  {
    if files != [] {
      RegisteredFiles(config, exports, files[1..]);
    }
  }

  /** Of a list of scanned files, one descriptor is registered for every admitted handler
      source, in order, and nothing else. */
  lemma ImportFilesIsRegistered(files: seq<string>, config: Configuration, exports: string -> ExportKind)
    ensures var kept := Filter(files, Keeps(config, exports));
      && |ImportFiles(files, config, exports)| == |kept|
      && forall i :: 0 <= i < |kept| ==> ImportFiles(files, config, exports)[i] == DescriptorFor(config, exports, kept[i])
  {
    var sources := Filter(files, IsHandlerSource);
    var registry := ImportFiles(files, config, exports);
    var kept := Filter(files, Keeps(config, exports));
    ImportFoldIsRegistered(config, exports, [], sources);
    assert registry == Registered(config, exports, sources);
    RegisteredFiles(config, exports, sources);
    FilterTwice(files, IsHandlerSource, Admits(config, exports), Keeps(config, exports));
    assert kept == Filter(sources, Admits(config, exports));
    forall i | 0 <= i < |kept| ensures registry[i] == DescriptorFor(config, exports, kept[i]) {
    }
  }

  /** The files of a registry, in registry order. */
  function Files(registry: seq<Descriptor>): (files: seq<string>)
    ensures |files| == |registry|
    ensures forall i :: 0 <= i < |registry| ==> files[i] == registry[i].file
  {
    if registry == [] then [] else [registry[0].file] + Files(registry[1..])
  }

  /** The registry follows the order of the files, and holds at most one descriptor per file
      when no file is listed twice. */
  lemma RegistryFollowsFiles(files: seq<string>, config: Configuration, exports: string -> ExportKind)
    ensures IsSubsequence(Files(ImportFiles(files, config, exports)), files)
    ensures Distinct(files) ==> Distinct(Files(ImportFiles(files, config, exports)))
  {
    ImportFilesIsRegistered(files, config, exports);
    var kept := Filter(files, Keeps(config, exports));
    assert Files(ImportFiles(files, config, exports)) == kept;
    if Distinct(files) {
      FilterDistinct(files, Keeps(config, exports));
    }
  }

  /** In strict mode every registered file has a configuration entry. */
  lemma StrictRegistryHasEntries(files: seq<string>, config: Configuration, exports: string -> ExportKind)
    requires config.defaults.mode == "strict"
    ensures forall d :: d in ImportFiles(files, config, exports) ==>
      FindHandlerConfiguration(config.handlers, d.file).Some?
  {
    ImportFilesIsRegistered(files, config, exports);
    var kept := Filter(files, Keeps(config, exports));
    forall d | d in ImportFiles(files, config, exports)
      ensures FindHandlerConfiguration(config.handlers, d.file).Some?
    {
      var i :| 0 <= i < |kept| && ImportFiles(files, config, exports)[i] == d;
      assert Keeps(config, exports)(kept[i]);
    }
  }

  /** The descriptor of a file without a configuration entry: its own path, under GET. */
  lemma DescriptorOfUnconfigured(config: Configuration, exports: string -> ExportKind, file: string)
    requires exports(file).FunctionExport?
    requires forall i :: 0 <= i < |config.handlers| ==> config.handlers[i].file != file
    ensures DescriptorFor(config, exports, file)
         == Descriptor(file, exports(file).fn, ExtractFunctionArguments(exports(file).fn.source), UrlPath(file), GET)
  {
    assert FindHandlerConfiguration(config.handlers, file).None?;
  }

  /** Outside strict mode a handler source that exports a function and has no entry is
      registered under GET, at the path of its file. */
  lemma UnconfiguredFileRegistered(files: seq<string>, config: Configuration, exports: string -> ExportKind, file: string)
    requires config.defaults.mode != "strict"
    requires file in files && IsHandlerSource(file) && exports(file).FunctionExport?
    requires forall i :: 0 <= i < |config.handlers| ==> config.handlers[i].file != file
    ensures Descriptor(file, exports(file).fn, ExtractFunctionArguments(exports(file).fn.source), UrlPath(file), GET)
            in ImportFiles(files, config, exports)
  {
    ImportFilesIsRegistered(files, config, exports);
    DescriptorOfUnconfigured(config, exports, file);
    var kept := Filter(files, Keeps(config, exports));
    assert Keeps(config, exports)(file);
    assert file in kept;
    var i :| 0 <= i < |kept| && kept[i] == file;
    assert ImportFiles(files, config, exports)[i] == DescriptorFor(config, exports, file);
  }

  /** `importViewDir` registers the admitted handler sources of the scanned tree, in
      depth-first listing order. */
  lemma ImportViewDirIsRegistered(folder: seq<Entry>, config: Configuration, exports: string -> ExportKind)
    requires ValidNames(folder)
    ensures var kept := Filter(RootedAll(Leaves(folder, [])), Keeps(config, exports));
      && |ImportViewDir(folder, config, exports)| == |kept|
      && forall i :: 0 <= i < |kept| ==> ImportViewDir(folder, config, exports)[i] == DescriptorFor(config, exports, kept[i])
  {
    ScanRootIsLeaves(folder);
    ImportFilesIsRegistered(ScanRoot(folder), config, exports);
  }

  /** In a tree without repeated names, `importViewDir` registers each file at most once. */
  lemma ImportViewDirOnePerFile(folder: seq<Entry>, config: Configuration, exports: string -> ExportKind)
    requires ValidNames(folder) && DistinctNames(folder)
    ensures Distinct(Files(ImportViewDir(folder, config, exports)))
  {
    ScanRootIsDistinct(folder);
    RegistryFollowsFiles(ScanRoot(folder), config, exports);
  }

  /** A file with a configuration entry takes the path of the first entry's alias, or of the
      file when that alias is falsy, and the first entry's method. */
  lemma DescriptorOfConfigured(config: Configuration, exports: string -> ExportKind, file: string, i: nat)
    requires exports(file).FunctionExport?
    requires i < |config.handlers| && config.handlers[i].file == file
    requires forall j :: 0 <= j < i ==> config.handlers[j].file != file
    ensures DescriptorFor(config, exports, file)
         == Descriptor(file, exports(file).fn, ExtractFunctionArguments(exports(file).fn.source),
                       UrlPath(Or(config.handlers[i].alias, file)), config.handlers[i].httpMethod)
  {
    var entry := FindHandlerConfiguration(config.handlers, file);
    var k :| 0 <= k < |config.handlers| && config.handlers[k] == entry.value && entry.value.file == file
             && forall j :: 0 <= j < k ==> config.handlers[j].file != file;
    assert k == i;
  }

  /** A handler source that exports a function and has an entry with a truthy alias is
      registered, in any mode, at the URL path of that alias under the entry's method. */
  lemma ConfiguredFileRegistered(files: seq<string>, config: Configuration, exports: string -> ExportKind, file: string, i: nat)
    requires file in files && IsHandlerSource(file) && exports(file).FunctionExport?
    requires i < |config.handlers| && config.handlers[i].file == file
    requires forall j :: 0 <= j < i ==> config.handlers[j].file != file
    requires Truthy(config.handlers[i].alias)
    ensures Descriptor(file, exports(file).fn, ExtractFunctionArguments(exports(file).fn.source),
                       UrlPath(config.handlers[i].alias.value), config.handlers[i].httpMethod)
            in ImportFiles(files, config, exports)
  {
    ImportFilesIsRegistered(files, config, exports);
    DescriptorOfConfigured(config, exports, file, i);
    var kept := Filter(files, Keeps(config, exports));
    assert FindHandlerConfiguration(config.handlers, file).Some?;
    assert Keeps(config, exports)(file);
    assert file in kept;
    var k :| 0 <= k < |kept| && kept[k] == file;
    assert ImportFiles(files, config, exports)[k] == DescriptorFor(config, exports, file);
  }

  /** Without an alias in its entry, a descriptor is routed at the path of its file. */
  lemma DescriptorPathWithoutAlias(config: Configuration, exports: string -> ExportKind, file: string)
    requires exports(file).FunctionExport?
    requires forall i :: 0 <= i < |config.handlers| ==> config.handlers[i].alias.None?
    ensures DescriptorFor(config, exports, file).path == UrlPath(file)
  {
    var entry := FindHandlerConfiguration(config.handlers, file);
    assert entry.Some? ==> entry.value.alias.None?;
  }

  /** Without aliases, a handler registered from rooted name paths is routed at its names. */
  lemma RegistryPaths(leaves: seq<seq<string>>, config: Configuration, exports: string -> ExportKind)
    requires forall names :: names in leaves ==> NamePath(names)
    requires forall i :: 0 <= i < |config.handlers| ==> config.handlers[i].alias.None?
    ensures forall d :: d in ImportFiles(RootedAll(leaves), config, exports) ==>
      d.path in leaves && d.file == Rooted(d.path)
  {
    var rooted := RootedAll(leaves);
    ImportFilesIsRegistered(rooted, config, exports);
    var registry := ImportFiles(rooted, config, exports);
    var kept := Filter(rooted, Keeps(config, exports));
    forall d | d in registry
      ensures d.path in leaves && d.file == Rooted(d.path)
    {
      var i :| 0 <= i < |kept| && registry[i] == d;
      FilterElement(rooted, Keeps(config, exports), i);
      var j :| 0 <= j < |leaves| && rooted[j] == kept[i];
      var names := leaves[j];
      assert names in leaves;
      DescriptorPathWithoutAlias(config, exports, kept[i]);
      UrlPathOfRooted(names);
    }
  }

  /** Without aliases, every registered handler is routed at the names leading to its file. */
  lemma ImportViewDirPaths(folder: seq<Entry>, config: Configuration, exports: string -> ExportKind)
    requires ValidNames(folder)
    requires forall i :: 0 <= i < |config.handlers| ==> config.handlers[i].alias.None?
    ensures forall d :: d in ImportViewDir(folder, config, exports) ==>
      d.path in Leaves(folder, []) && d.file == Rooted(d.path)
  {
    ScanRootIsLeaves(folder);
    LeavesAreValid(folder, []);
    RegistryPaths(Leaves(folder, []), config, exports);
  }
}
