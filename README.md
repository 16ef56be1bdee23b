# jsx-serve in Dafny

jsx-serve serves plain JavaScript functions over HTTP. The functions come from a scanned
directory. The server works out three things for each function:

- the URL path, from the file's location or from a configured alias;
- the expected query arguments, from the function's declared parameter names;
- the HTTP method, from configuration or by default GET.

At request time it does the following:

- it picks the first handler whose path (and, in the typed version, method) matches the URL;
- it binds the query values to the parameter names;
- it calls the function;
- it answers with exactly one body: the string or Buffer the handler produced, or a JSON error. There are two exceptions. If the handler throws, the exception escapes the callback. If the handler returns `null`, the thenable test (`typeof v === "object" && !!v.then`) throws a TypeError. In both cases nothing is sent. In `server.js` every result that is not a string or Buffer throws, because the `isPromise` it calls is never imported (see "## Left out").

This project models two generations of that logic and proves properties of them.

- **Typed version** (`src/JSXServeFileTools.ts`, `src/JSXServeServerTools.ts`):
  - `FileTools`: configuration normalisation (`parseJSXServeConfiguration`), parameter-name introspection (`extractFunctionArguments`), extension filtering and the registry builder (`importViewDir`).
  - `ServerTools`: the request callback, covering path splitting, first path-and-method match, count-then-name argument binding and result classification.
- **Untyped version** (`src/index.js`, `lib/handlers.js`, `server.js`, `lib/config.js`):
  - `LegacyIndex`: the row-pipeline `importViewDir` built on `arrayConcatOperation`, and the path-only request callback of `src/index.js`.
  - `LegacyHandlers`: the argument extractor without a null guard, and the filter factory of `lib/handlers.js`.
  - `LegacyServer`: the request callback of `server.js`.
  - `LegacyConfig`: the in-place normaliser of `lib/config.js`, as a class whose method rewrites the object's fields.
- **Shared pieces**:
  - `DirScan`: `readDirRecursive` and `reduceMultiDimensionalArray`. The code is identical in `src/JSXServeFileTools.ts:93-127` and `src/index.js:32-66`.
  - `Introspect`: the capture-then-split step every `extractFunctionArguments` shares.
  - `NodePath`: Node's POSIX `path.extname` and the `path.join` shapes the scan produces.
  - `Routing`: URL path sections and the section-by-section path match.
  - `Http`: the values crossing the HTTP boundary, a request whose `url` is overwritten in place, and a response that records what `end` received.
  - `Text`: `String.prototype.split`, the matching join, and `indexOf`.
  - `Seqs`: `Array.prototype.filter`, `map`, and `map` with a throwing callback.
  - `Wrappers`: `Option` and `Result`.

The environment is passed in as values:

- The filesystem is a tree of `DirScan.Entry` values, listed in `fs.readdirSync` order.
- `require` is a function from a rooted file path to an `ExportKind` (a function with its stripped source text, or anything else).
- Calling a handler is a function `run` from the handler and its arguments to a `HandlerResult`. That result is a plain value (`null` distinguished from other non-text values), a thenable that has already resolved or rejected, or an exception the handler threw.
- `JSON.stringify` of an arbitrary rejection reason is a parameter `stringify`.
- The query is the map that `url.parse(url, true).query` produced.

Four bodies of code are repeated in the repository:

- `extractFunctionArguments` in `src/index.js:73-86` and `lib/handlers.js:1-14` is the same code. `LegacyHandlers.ExtractFunctionArguments` models both.
- The arity rule and path split of `server.js` are those of `src/index.js`. `LegacyServer.RespondAgreesWithIndex` proves the two callbacks send the same payload whenever `server.js` sends one.
- `createHandlerMatchingFilter` of `lib/handlers.js` selects what `matchViewToPath` of `src/index.js` selects (`LegacyServer.FirstMatchingIsFirstAtPath`).
- The untyped `extractFunctionArguments` succeeds with exactly the names the typed one returns, and throws where the typed one returns `[]` for non-matching text.

### Behaviour taken from the code

Where the repository's own description of the design says something else, the model follows
the code:

- In `src/JSXServeServerTools.ts:113-117`, a rejected thenable goes through the same classifier as a resolved one. A string reason is sent verbatim and any other reason becomes `{"error":"handler response not supported"}`. The reason is not JSON-serialised; only `src/index.js:179` and `server.js:46` do that.
- The arity message of the typed server is `{"error":"not enought arguments provided"}`, with the typo (`src/JSXServeServerTools.ts:90`). The untyped versions say "not enough".
- In the typed server, a query with the right number of keys but a missing parameter name also gets the arity error, because undefined lookups are filtered out before the lengths are compared (`src/JSXServeServerTools.ts:82-89`).
- `lib/config.js:4` defaults the host to `"127.0.0.0.1"`. The typed version uses `"127.0.0.1"`.
- The typed alias check reads the raw `defaults.mode`, so an absent mode never requires an alias. `lib/config.js` checks after normalising, so an absent mode counts as strict.

## Model

| member | source | states |
|---|---|---|
| FileTools.ParseMethod | src/JSXServeFileTools.ts:21-24 | a method name is accepted exactly when it is one of POST, PUT, GET, DELETE, and then names that method |
| FileTools.ParseHandlerConfiguration | src/JSXServeFileTools.ts:12-31 | an entry is accepted iff its file is truthy, it has an alias or the raw mode is not "strict", and its method is absent or one of the four names. A falsy file gives exactly the file-required error. A missing alias under raw strict mode gives exactly the alias error. On an otherwise valid entry, a `method` that is present but not one of the four names, `null` and `""` included, gives exactly the method error. An accepted entry keeps file and alias, and its method is the given one or GET |
| FileTools.ParseHandlers | src/JSXServeFileTools.ts:39 | the handler list succeeds iff every entry does, then has the same length and each element is that entry's normalisation; on failure the error is that of the first failing entry |
| FileTools.ParseConfiguration | src/JSXServeFileTools.ts:33-40 | a missing `defaults` is the TypeError. Otherwise the result succeeds iff the handler list parses under the raw mode; its handlers are that list's normalised entries and its error is that list's first error. On success the defaults are host‖"127.0.0.1", mode‖"strict" and port‖8080 (0 counts as falsy), and the handlers keep the input length (absent is empty) |
| FileTools.AbsentModeSkipsAliasCheck | src/JSXServeFileTools.ts:17-36 | with no mode given, parsing never fails with the alias error, and the normalised mode is "strict" |
| FileTools.StrictModeRequiresAlias | src/JSXServeFileTools.ts:17-19 | under raw mode "strict", the first entry with a file but no alias makes the whole configuration fail with the alias error |
| FileTools.ExtractFunctionArguments | src/JSXServeFileTools.ts:49-65 | the names are empty iff the text does not match or the parameter list is empty; otherwise they join with "," back to the captured text and none contains "," |
| FileTools.NullaryHandlerHasNoArguments | src/JSXServeFileTools.ts:59-63 | a declaration with `()` yields no names, never `[""]` |
| FileTools.ArgumentsOfDeclaration | src/JSXServeFileTools.ts:49-65 | a declaration listing comma-free names yields exactly those names in order |
| FileTools.HandlerSourceBySuffix | src/JSXServeFileTools.ts:73-77 | for a path not ending in "/", the ".js"/".jsx" extname filter holds iff the path ends in ".js" or ".jsx" after a character other than "/" |
| FileTools.HandlerExtnames | src/JSXServeFileTools.ts:131 | a file passes the filter iff its extname is ".js" or ".jsx" |
| FileTools.FilterFilePathByExtname | src/JSXServeFileTools.ts:73-77 | no contract of its own; `HandlerExtnames` and `HandlerSourceBySuffix` state which paths it keeps |
| FileTools.FindHandlerConfiguration | src/JSXServeFileTools.ts:134 | no entry is found iff no entry's file equals the path; otherwise the entry found is the first whose file equals it |
| FileTools.DescriptorFor | src/JSXServeFileTools.ts:134-157 | the descriptor of a kept file names that file and has at least one path section; `DescriptorOfConfigured` (a file with an entry) and `DescriptorOfUnconfigured` (a file without one) state its whole value |
| FileTools.ImportStep | src/JSXServeFileTools.ts:132-158 | no contract of its own; `ImportFoldIsRegistered` states what the reduce over it builds |
| FileTools.ImportFiles | src/JSXServeFileTools.ts:130-158 | no contract of its own; `ImportFilesIsRegistered` states its value |
| FileTools.ImportViewDir | src/JSXServeFileTools.ts:129-159 | no contract of its own; `ImportViewDirIsRegistered` states its value |
| FileTools.UrlPath | src/JSXServeFileTools.ts:148-149 | the URL path of a target has at least one section; `UrlPathSections` states its value |
| FileTools.UrlPathSections | src/JSXServeFileTools.ts:148-149 | no section of the URL path holds "/", and the sections joined with "/" give back the target without its one leading "/" |
| FileTools.UrlPathOfRooted | src/JSXServeFileTools.ts:148-149 | the URL path of "/" + names joined by "/" is those names, for non-empty slash-free names |
| FileTools.DescriptorOfUnconfigured | src/JSXServeFileTools.ts:134-157 | a file with no configuration entry gets its own path, its extracted arguments and GET |
| FileTools.DescriptorOfConfigured | src/JSXServeFileTools.ts:134-157 | a file whose first entry is the i-th gets its extracted arguments, the URL path of that entry's alias (of the file when the alias is falsy) and that entry's method |
| FileTools.ConfiguredFileRegistered | src/JSXServeFileTools.ts:130-158 | in any mode, a handler source that exports a function and whose first entry has a truthy alias is registered at the URL path of that alias under that entry's method |
| FileTools.DescriptorPathWithoutAlias | src/JSXServeFileTools.ts:148-149 | when no entry has an alias, a descriptor's path is the URL path of its file |
| FileTools.ImportFoldIsRegistered | src/JSXServeFileTools.ts:132-158 | the reduce appends to its accumulator exactly the descriptors of the admitted files, in order |
| FileTools.RegisteredFiles | src/JSXServeFileTools.ts:137-157 | there is one descriptor per admitted file, the i-th built from the i-th admitted file |
| FileTools.ImportFilesIsRegistered | src/JSXServeFileTools.ts:130-158 | the registry has one descriptor per file that has a handler extension, is admitted by the mode and exports a function, in file order |
| FileTools.RegistryFollowsFiles | src/JSXServeFileTools.ts:130-158 | the registry's files are an order-preserving subsequence of the scanned files; if no file is listed twice, no file is registered twice |
| FileTools.ImportViewDirOnePerFile | src/JSXServeFileTools.ts:129-159 | in a tree where no directory holds two entries of the same name, each file is registered at most once |
| FileTools.StrictRegistryHasEntries | src/JSXServeFileTools.ts:136-139 | in strict mode every registered file has a configuration entry |
| FileTools.UnconfiguredFileRegistered | src/JSXServeFileTools.ts:134-157 | outside strict mode, a scanned handler file that exports a function and has no entry is registered at its own path with GET |
| FileTools.ImportViewDirIsRegistered | src/JSXServeFileTools.ts:129-159 | the registry of a tree has one descriptor per kept file, taken from the depth-first rooted file list, in order |
| FileTools.ImportViewDirPaths | src/JSXServeFileTools.ts:129-159 | without aliases every descriptor's path is the name path of a file in the tree, and its file is that path rooted at "/" |
| NodePath.Extname | src/JSXServeFileTools.ts:75 | `path.extname` is empty or starts with "." and has no "/" |
| NodePath.ExtnameIsSuffix | src/JSXServeFileTools.ts:75 | for a path not ending in "/", the extname is a given extension iff the path ends in it after a character other than "/" |
| NodePath.PathJoinRooted | src/JSXServeFileTools.ts:102 | joining a name onto a rooted path gives the rooted path with one more name |
| NodePath.PathJoin | src/JSXServeFileTools.ts:102 | no contract of its own; `PathJoinRooted` states its value on the paths the scan builds |
| DirScan.ReduceMultiDimensionalArray | src/JSXServeFileTools.ts:116-122 | the processed list is kept as a prefix, followed by the single path or by every path of the array |
| DirScan.ConditionalRecursionMap | src/JSXServeFileTools.ts:101-109 | no contract of its own; `EntryIsLeaves` states its value |
| DirScan.ReadDirRecursive | src/JSXServeFileTools.ts:93-127 | no contract of its own; `ReadDirIsLeaves` states its value |
| DirScan.ScanRoot | src/JSXServeFileTools.ts:93 | no contract of its own; `ScanRootIsLeaves` and `ScanRootIsDistinct` state its value |
| DirScan.ReduceFlattens | src/JSXServeFileTools.ts:124-126 | the reduce appends the one-level flattening of the mapped entries to its accumulator |
| DirScan.MapEntries | src/JSXServeFileTools.ts:124-125 | mapping keeps one item per listed entry |
| DirScan.EntryIsLeaves | src/JSXServeFileTools.ts:101-109 | a file entry gives its own rooted path, a directory the rooted paths of every file below it, depth-first |
| DirScan.FlattenIsLeaves | src/JSXServeFileTools.ts:124-126 | the flattened listing is the rooted paths of all files below, in listing order |
| DirScan.ReadDirIsLeaves | src/JSXServeFileTools.ts:93-127 | `readDirRecursive` at a rooted directory returns the rooted paths of all files below it, depth-first in listing order |
| DirScan.ScanRootIsLeaves | src/JSXServeFileTools.ts:93-127 | scanning from "/" gives every file of the tree, depth-first, each starting with "/" |
| DirScan.LeavesDistinct | src/JSXServeFileTools.ts:101-109 | in a tree without repeated names within a directory, no name path occurs twice |
| DirScan.RootedInjective | src/JSXServeFileTools.ts:102 | different name paths have different rooted paths |
| DirScan.ScanRootIsDistinct | src/JSXServeFileTools.ts:93-127 | in a tree without repeated names within a directory, the scan lists no path twice |
| DirScan.LeavesAreValid | src/JSXServeFileTools.ts:101-109 | every file found is a non-empty path of slash-free names |
| DirScan.ReadDirAppend | src/JSXServeFileTools.ts:124-126 | the scan of a concatenated listing is the concatenation of the scans |
| DirScan.EmptyDirectoryContributesNothing | src/JSXServeFileTools.ts:104-105 | an empty subdirectory adds no paths |
| Introspect.CaptureOfDeclaration | src/JSXServeFileTools.ts:49-51 | the capture of `function<pre>(<params>)<rest>` is `params` |
| Introspect.CaptureParameters | src/JSXServeFileTools.ts:49-51 | no contract of its own; `CaptureIsDeclaration` states its value |
| Introspect.DeclarationOfCapture | src/JSXServeFileTools.ts:49-51 | any capture comes from such a declaration |
| Introspect.CaptureIsDeclaration | src/JSXServeFileTools.ts:49-51 | the capture is `params` iff the text is a declaration with parameter text `params` |
| Introspect.SplitParameters | src/JSXServeFileTools.ts:57-65 | the names are empty iff the capture is ""; otherwise they join back to the capture; none contains "," |
| Introspect.SplitParametersOfJoin | src/JSXServeFileTools.ts:57-65 | splitting comma-joined names (not the single empty name) gives back the names |
| Text.Split | src/JSXServeFileTools.ts:57 | `split` gives at least one piece and no piece contains the separator |
| Text.JoinSplit | src/JSXServeFileTools.ts:57 | joining the pieces of a split gives back the string |
| Text.SplitJoin | src/JSXServeFileTools.ts:57 | splitting separator-free pieces joined by the separator gives back the pieces |
| Seqs.Filter | src/JSXServeFileTools.ts:131 | `filter` keeps exactly the elements that pass, as an order-preserving subsequence |
| Seqs.FilterMultiplicity | src/JSXServeFileTools.ts:131 | each element that passes occurs as often as in the input; the others not at all |
| Seqs.FilterDistinct | src/JSXServeFileTools.ts:131 | filtering a duplicate-free sequence keeps it duplicate-free |
| Seqs.FilterHead | src/JSXServeServerTools.ts:63-67 | `filter(...)[0]` is the first element that passes |
| Seqs.MapResult | src/JSXServeFileTools.ts:39 | a `map` with a throwing callback succeeds iff every call does, elementwise; otherwise it throws the first call's exception |
| Routing.PathSections | src/JSXServeServerTools.ts:52-58 | the path sections of a URL are never empty |
| Routing.PathSectionsOf | src/JSXServeServerTools.ts:52-58 | the sections are the text between the first character and the first "?", split on "/" |
| Routing.RootSections | src/JSXServeServerTools.ts:48-58 | "/" and "/?a=1" give `[""]` |
| Routing.CountMatchingAll | src/JSXServeServerTools.ts:21-28 | for equal lengths, every section matches iff the sequences are equal |
| Routing.SectionsMatchIsEquality | src/JSXServeServerTools.ts:13-29 | the length-then-sections test holds iff the URL sections equal the path |
| Http.DefaultUrl | src/JSXServeServerTools.ts:48 | a missing or empty URL becomes "/", any other is kept |
| Http.KeyCount | src/JSXServeServerTools.ts:77 | no contract of its own: `Object.keys(query).length` is the number of distinct keys of the map |
| Http.Lookup | src/JSXServeServerTools.ts:79 | `query[name]` is defined iff the key is present, and then is its value |
| Http.LookupAll | src/JSXServeServerTools.ts:78-80 | one lookup per name, in order |
| Http.ServerResponse.End | src/JSXServeServerTools.ts:72 | `end` records its payload after those already sent |
| ServerTools.MatchViewToPath | src/JSXServeServerTools.ts:13-29 | no contract of its own; `Routing.SectionsMatchIsEquality` states its value: `matchViewToPath(u)(h)` holds iff `h.path` equals `u` |
| ServerTools.CandidatesServe | src/JSXServeServerTools.ts:63-67 | filtering by path then by method is filtering by both |
| ServerTools.SelectHandlerIsFirstMatch | src/JSXServeServerTools.ts:63-67 | no handler is selected iff none matches path and method; otherwise the selected one is the first that does |
| ServerTools.SelectHandler | src/JSXServeServerTools.ts:63-67 | no contract of its own; `SelectHandlerIsFirstMatch` states its value |
| ServerTools.Defined | src/JSXServeServerTools.ts:82-84 | removing undefined values keeps the length iff all are defined, and then keeps the values |
| ServerTools.BindArguments | src/JSXServeServerTools.ts:76-84 | no contract of its own; `BindArgumentsArity` states its value |
| ServerTools.BindArgumentsArity | src/JSXServeServerTools.ts:76-91 | the bound arguments are as many as the names iff there are no names, or the key count equals the name count and every name is a key; then the i-th argument is the value of the i-th name |
| ServerTools.Classify | src/JSXServeServerTools.ts:103-109 | a string or Buffer is sent verbatim, any other value (`null` included) as the unsupported-response error |
| ServerTools.Settle | src/JSXServeServerTools.ts:94-120 | the result throws iff the handler threw (that exception) or returned `null` (the TypeError of `null.then`). Any other plain value, a resolved value and a rejection reason alike are classified, and the body is always a string or Buffer |
| ServerTools.Dispatch | src/JSXServeServerTools.ts:45-121 | a request ends with one string or Buffer body. It throws only when a handler was selected, the arity check passed, and the call threw or returned `null` |
| ServerTools.DispatchNoHandler | src/JSXServeServerTools.ts:71-73 | a request no handler serves gets `{"error":"no handler found"}` |
| ServerTools.DispatchFirstServing | src/JSXServeServerTools.ts:76-120 | for the first serving handler: the arity error iff the binding rule refuses the query, otherwise the settled outcome of calling it with its parameters' query values |
| ServerTools.NullaryHandlerIgnoresQuery | src/JSXServeServerTools.ts:76-91 | a handler without parameters runs with none whatever the query holds |
| ServerTools.RejectionIsClassified | src/JSXServeServerTools.ts:113-117 | a rejected string is sent verbatim and any other rejection reason as the unsupported error, exactly as if it had resolved |
| ServerTools.AddDispatch | src/JSXServeServerTools.ts:45-121 | `/add?a=2&b=3` selects `add`, binds `["2", "3"]` and is answered by settling what the call returns |
| ServerTools.AddAnswered | src/JSXServeServerTools.ts:44-121 | `/add?a=2&b=3` on `add(a, b)` is answered with what `add("2", "3")` returns |
| ServerTools.AddReturningNullThrows | src/JSXServeServerTools.ts:94-117 | if `add("2", "3")` returned `null`, the callback would throw the TypeError and send nothing; a thenable resolving to `null` is refused |
| ServerTools.AddMissingArgument | src/JSXServeServerTools.ts:76-91 | `/add?a=2` on `add(a, b)` gets the arity error |
| ServerTools.MissingNotFound | src/JSXServeServerTools.ts:71-73 | `/missing` gets the no-handler error |
| ServerTools.AddPostNotFound | src/JSXServeServerTools.ts:63-73 | a POST to a GET handler's path gets the no-handler error |
| LegacyHandlers.ExtractFunctionArguments | lib/handlers.js:1-14 | text that does not match throws `null[1]`'s TypeError; otherwise the names are those of the null-guarded extractor |
| LegacyHandlers.NullaryDeclarationHasNoArguments | lib/handlers.js:9-11 | a declaration with `()` yields no names |
| LegacyHandlers.ArgumentsOfDeclaration | lib/handlers.js:2-13 | a declaration listing comma-free names yields exactly those names |
| LegacyHandlers.ArrowFunctionThrows | src/index.js:74-77 | text starting with "(" (an arrow function) throws |
| LegacyHandlers.HandlerMatchingFilterIsEquality | lib/handlers.js:16-31 | the filter holds iff the URL sections equal the handler's path |
| LegacyHandlers.CreateHandlerMatchingFilter | lib/handlers.js:16-31 | no contract of its own; `HandlerMatchingFilterIsEquality` and `HandlerMatchingFilterIgnoresHandlers` state its value |
| LegacyHandlers.HandlerMatchingFilterIgnoresHandlers | lib/handlers.js:16-17 | the handler list given to the factory does not change the filter |
| LegacyIndex.ArrayConcatOperation | src/index.js:95-104 | an empty array gives `[]`; otherwise the array with one appended element `fn(array[p], array)`, or the exception `fn` throws |
| LegacyIndex.RequireRows | src/index.js:132-133 | wrapping and `require` turn every handler source into the row [file, export] |
| LegacyIndex.FunctionRows | src/index.js:131-134 | the function filter keeps the rows of exactly the handler sources that export a function |
| LegacyIndex.RowSteps | src/index.js:135-137 | for one kept file, the argument step fails iff its view fails, with the same exception; otherwise the path step and the object literal give its view |
| LegacyIndex.LastSteps | src/index.js:135-137 | over all kept files, the last three steps succeed iff every view does, with the first exception, and then give the views |
| LegacyIndex.ImportFilesIsViews | src/index.js:129-138 | the pipeline is a throwing `map` of the view builder over the handler sources that export a function |
| LegacyIndex.ImportFiles | src/index.js:130-137 | no contract of its own; `ImportFilesIsViews` states its value |
| LegacyIndex.ImportViewDir | src/index.js:129-138 | no contract of its own; `ImportViewDirIsViews` states its value |
| LegacyIndex.ImportViewDirIsViews | src/index.js:129-138 | over a tree, the views of the depth-first files, and success iff every kept file's source matches the declaration pattern |
| LegacyIndex.MatchViewToPathIsEquality | src/index.js:111-123 | the filter holds iff the URL sections equal the view's path |
| LegacyIndex.MatchViewToPath | src/index.js:111-123 | no contract of its own; `MatchViewToPathIsEquality` states its value |
| LegacyIndex.FirstAtPath | src/index.js:151 | no view iff none has the path; otherwise the first that has it, whatever its method |
| LegacyIndex.QueryArguments | src/index.js:160-161 | arguments exist iff the key count equals the name count, and are then the lookups of the names, undefined where missing |
| LegacyIndex.ArityAcceptedIsCount | src/index.js:160-166 | the handler runs iff it has no parameters or the key count equals the parameter count |
| LegacyIndex.Deliver | src/index.js:169-182 | a string or Buffer is sent verbatim. A returned `null` throws the TypeError of `null.then`, and a thrown exception escapes. Any other plain value is sent as the unsupported error, a resolved value unclassified, and a rejection as its JSON text |
| LegacyIndex.DeliverAgainstSettle | src/index.js:169-182 | this agrees with the typed server on plain values, thrown exceptions and resolved strings and Buffers. It differs for any other resolved value, and for a rejected string whose JSON text differs from it |
| LegacyIndex.RespondFirstAtPath | src/index.js:150-182 | for the first view at the path: the arity error iff the rule refuses, otherwise the delivered outcome of calling it with the looked-up values |
| LegacyIndex.Respond | src/index.js:141-183 | no contract of its own; `FirstAtPath`, `RespondFirstAtPath` and `Deliver` state its value |
| LegacyIndex.MissingNamesAreUndefined | src/index.js:160-169 | with the right key count but a missing name, the handler still runs, with undefined in that position |
| LegacyIndex.HandleRequest | src/index.js:140-185 | `req.url` is overwritten with its default, and the outcome is the response for that URL. Exactly one payload is passed to `res.end` when that is a body, none when it throws |
| LegacyServer.FirstMatchingIsFirstAtPath | server.js:18 | the handler found with `lib/handlers.js`'s filter is the first at the path |
| LegacyServer.FirstMatching | server.js:18 | no contract of its own; `FirstMatchingIsFirstAtPath` states its value |
| LegacyServer.Respond | server.js:8-49 | no contract of its own; `RespondAgreesWithIndex` states its value against `src/index.js` |
| LegacyServer.RespondAgreesWithIndex | server.js:8-49 | whenever `server.js` sends a payload it is what `src/index.js` sends. It throws iff the found handler was called and did not return a string or Buffer. Wherever the two callbacks differ, `server.js` threw the ReferenceError of the missing `isPromise` |
| LegacyServer.HandleRequest | server.js:8-50 | `req.url` is overwritten with its default. Then one payload is sent, or the callback throws (the handler's exception, or the ReferenceError) and nothing is sent |
| LegacyConfig.NormaliseDefaults | lib/config.js:2-6 | port‖8080 (0 falsy), host‖"127.0.0.0.1", mode‖"strict", all present |
| LegacyConfig.NormaliseMethods | lib/config.js:20-21 | an array is kept (even empty), a non-empty scalar is wrapped, absent or "" gives ["*"] |
| LegacyConfig.NormaliseHandler | lib/config.js:9-22 | a falsy filename gives exactly the filename error; a missing alias under the normalised strict mode exactly the alias error; otherwise filename, alias and the normalised methods |
| LegacyConfig.NormaliseHandlers | lib/config.js:8-23 | no contract of its own; `NormaliseHandlersShape` states its value |
| LegacyConfig.NormaliseHandlersShape | lib/config.js:8-23 | normalising succeeds iff every entry has a filename and an alias or a non-strict mode, and then keeps length, order, filename and alias |
| LegacyConfig.NormaliseIsIdempotent | lib/config.js:1-26 | normalising normalised defaults and handlers changes nothing |
| LegacyConfig.AbsentModeRequiresAlias | lib/config.js:5-15 | with no mode given, an entry without an alias throws the alias error |
| LegacyConfig.ConfigObject.ParseConfiguration | lib/config.js:1-26 | a missing `defaults` throws and changes nothing; otherwise `defaults` is replaced first; on success `handlers` is replaced and the same object returned; on failure `handlers` is unchanged |

## Left out

- HTTP transport: `http.createServer`, `listen` and what Node does with the value given to `response.end`. A response is the list of payloads passed to `end`.
- `url.parse` query decoding. The query is the map it produced; a repeated key is one `Many` value.
- `fs.readdirSync`, `fs.statSync` and `fileIsDirectory`: replaced by an explicit tree. Listing names "." and "..", which `readdirSync` never returns, are not excluded.
- `path.join(_folder, file)` before `require`: exports are keyed by the rooted path relative to the folder.
- `require` itself: replaced by the `exports` function. Module caching and load errors are not modelled.
- The comment-and-whitespace stripping regex and `Function.prototype.toString`: the model reads already-stripped source text. After stripping there are no line breaks, so the `m` flag plays no part.
- Promise timing: a thenable is an already-settled tagged value, and `isObjectPromise`/`isPromise` become those tags. Concurrency between requests is not modelled.
- `JSON.stringify` of an arbitrary rejection reason: an opaque `stringify` parameter.
- `LegacyIndex.Deliver`: a resolved non-string value is passed to `res.end` as it is. Node's TypeError for it is not modelled.
- `ServerTools.Dispatch`: its own contract states only that a body is a string or Buffer, and when the callback can throw. `DispatchNoHandler`, `DispatchFirstServing` and `Settle` state which outcome.
- server.js:43-49: unreachable, because the `isPromise` they call is never imported (server.js:3), so the callback throws first. `LegacyServer.Respond` gives that exception.
- The CLI entry points (`src/cli.ts`, `cli.js`, `src/cli.js`), `lib/files.js`, `src/server.ts`, the `dist/` copies of the src files, `gulpfile.js` and the `index.js` wrapper: I/O plumbing, broken or unused code, or transpiled duplicates.
- The type-only files `src/IJSXServe*.ts`: they shape the datatypes and have no behaviour.
