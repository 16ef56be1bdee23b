/** `JSXServeServerTools`: the request callback of `createServer`, as a pure function of the
    registry and one request. Its only effect, the single `response.end` call, is the `Response`
    it returns. */
module ServerTools {
  import opened Wrappers
  import opened Seqs
  import opened Http
  import opened Routing
  import opened FileTools

  /** The handler object behind `matchViewToPath(sections)`: equal lengths, every section
      matched. */
  predicate MatchesPath(sections: seq<string>, h: Descriptor)
  {
    SectionsMatch(sections, h.path)
  }

  /** `matchViewToPath(sections)` as a filter callback. */
  function MatchViewToPath(sections: seq<string>): Descriptor -> bool
  {
    (h: Descriptor) => MatchesPath(sections, h)
  }

  /** `handler => handler.method === request.method`. */
  function HasMethod(httpMethod: string): Descriptor -> bool
  {
    (h: Descriptor) => MethodName(h.httpMethod) == httpMethod
  }

  /** A handler serves a request when its path and its method both match: the reference
      definition. */
  predicate Serves(sections: seq<string>, httpMethod: string, h: Descriptor)
  {
    h.path == sections && MethodName(h.httpMethod) == httpMethod
  }

  /** `Serves` as a filter callback. */
  function Server(sections: seq<string>, httpMethod: string): Descriptor -> bool
  {
    (h: Descriptor) => Serves(sections, httpMethod, h)
  }

  /** `_handlers.filter(matchViewToPath(sections)).filter(hasMethod)[0]`. */
  function SelectHandler(registry: seq<Descriptor>, sections: seq<string>, httpMethod: string): Option<Descriptor>
  {
    var candidates := Filter(Filter(registry, MatchViewToPath(sections)), HasMethod(httpMethod));
    if candidates == [] then None else Some(candidates[0])
  }

  /** The two filters keep exactly the handlers that serve the request, in registry order. */
  lemma CandidatesServe(registry: seq<Descriptor>, sections: seq<string>, httpMethod: string)
    ensures Filter(Filter(registry, MatchViewToPath(sections)), HasMethod(httpMethod))
         == Filter(registry, Server(sections, httpMethod))
  {
    forall h ensures Server(sections, httpMethod)(h) == (MatchViewToPath(sections)(h) && HasMethod(httpMethod)(h)) {
      SectionsMatchIsEquality(sections, h.path);
    }
    FilterTwice(registry, MatchViewToPath(sections), HasMethod(httpMethod), Server(sections, httpMethod));
  }

  /** The selected handler is the first in registry order whose path and method match, and
      there is none exactly when no handler serves the request. */
  lemma SelectHandlerIsFirstMatch(registry: seq<Descriptor>, sections: seq<string>, httpMethod: string)
    ensures SelectHandler(registry, sections, httpMethod).None? <==>
      forall i :: 0 <= i < |registry| ==> !Serves(sections, httpMethod, registry[i])
    ensures SelectHandler(registry, sections, httpMethod).Some? ==>
      exists i :: 0 <= i < |registry| && registry[i] == SelectHandler(registry, sections, httpMethod).value
        && Serves(sections, httpMethod, registry[i])
        && forall j :: 0 <= j < i ==> !Serves(sections, httpMethod, registry[j])
  {
    CandidatesServe(registry, sections, httpMethod);
    var serving := Filter(registry, Server(sections, httpMethod));
    if serving == [] {
      forall i | 0 <= i < |registry| ensures !Serves(sections, httpMethod, registry[i]) {
        assert registry[i] !in serving;
      }
    } else {
      FilterHead(registry, Server(sections, httpMethod));
    }
  }

  /** `.filter(a => a !== undefined)`, keeping the values. */
  function Defined(vs: seq<Option<QueryValue>>): (r: seq<QueryValue>)
    ensures |r| <= |vs|
    ensures |r| == |vs| <==> forall i :: 0 <= i < |vs| ==> vs[i].Some?
    ensures |r| == |vs| ==> forall i :: 0 <= i < |vs| ==> r[i] == vs[i].value
  {
    if vs == [] then []
    else if vs[0].Some? then [vs[0].value] + Defined(vs[1..])
    else Defined(vs[1..])
  }

  /** The bound argument list: name lookups in declared order when the query has as many keys
      as there are names (otherwise undefined, read as `[]`), with undefined entries removed. */
  function BindArguments(query: map<string, QueryValue>, names: seq<string>): seq<QueryValue>
  {
    var looked: Option<seq<Option<QueryValue>>> :=
      if KeyCount(query) == |names| then Some(LookupAll(query, names)) else None;
    Defined(looked.GetOr([]))
  }

  /** The arity check passes exactly when the handler is nullary, or the query has exactly as
      many keys as there are names and holds every name; the arguments are then the values of
      the names, in declared order. */
  lemma BindArgumentsArity(query: map<string, QueryValue>, names: seq<string>)
    ensures |BindArguments(query, names)| == |names| <==>
      |names| == 0 || (KeyCount(query) == |names| && forall i :: 0 <= i < |names| ==> names[i] in query)
    ensures |BindArguments(query, names)| == |names| ==>
      forall i :: 0 <= i < |names| ==> BindArguments(query, names)[i] == query[names[i]]
  {
    if KeyCount(query) == |names| {
      var looked := LookupAll(query, names);
      assert BindArguments(query, names) == Defined(looked);
      assert (forall i :: 0 <= i < |looked| ==> looked[i].Some?) <==>
             (forall i :: 0 <= i < |names| ==> names[i] in query);
    }
  }

  const NotEnoughtArguments: string := ErrorBody("not enought arguments provided")

  /** `sendRequestMatchingHandlerResult`: a string or Buffer is the body, anything else is
      refused. */
  function Classify(v: JsValue): (body: JsValue)
    ensures body.IsText()
    ensures v.IsText() ==> body == v
    ensures !v.IsText() ==> body == JsString(ResponseNotSupported)
  {
    if v.IsText() then v else JsString(ResponseNotSupported)
  }

  /** The outcome for a handler result. A plain value goes through `isObjectPromise` first,
      which throws for `null`; otherwise it is classified at once. A thenable's resolved value
      and rejection reason alike are classified through `.then(send).catch(send)`. An exception
      thrown by the handler escapes the callback. */
  function Settle(r: HandlerResult): (out: Response)
    ensures out.End? ==> out.payload.IsText()
    ensures out.Thrown? <==> r.Threw? || r == Returned(JsNull)
    ensures r.Threw? ==> out == Thrown(r.error)
    ensures r == Returned(JsNull) ==> out == Thrown(NullThen)
    ensures (r.Returned? && r.v != JsNull) || r.Resolved? ==>
      out == End(if r.v.IsText() then r.v else JsString(ResponseNotSupported))
    ensures r.Rejected? ==>
      out == End(if r.reason.IsText() then r.reason else JsString(ResponseNotSupported))
  {
    match r
    case Returned(v) => if v == JsNull then Thrown(NullThen) else End(Classify(v))
    case Resolved(v) => End(Classify(v))
    case Rejected(e) => End(Classify(e))
    case Threw(e) => Thrown(e)
  }

  /** The request callback of `createServer(registry)`: `query` is the parsed query string of
      the URL and `run` calls a handler with its arguments. The callback ends the response with
      one string or Buffer body, unless the handler it calls throws or returns `null`. */
  function Dispatch(registry: seq<Descriptor>, httpMethod: string, url: Option<string>,
                    query: map<string, QueryValue>, run: (HandlerRef, seq<QueryValue>) -> HandlerResult): (r: Response)
    ensures r.End? ==> r.payload.IsText()
    ensures r.Thrown? ==>
      var h := SelectHandler(registry, PathSections(DefaultUrl(url)), httpMethod);
      && h.Some? && |BindArguments(query, h.value.args)| == |h.value.args|
      && var result := run(h.value.handler, BindArguments(query, h.value.args));
         result.Threw? || result == Returned(JsNull)
  {
    var sections := PathSections(DefaultUrl(url));
    match SelectHandler(registry, sections, httpMethod)
    case None => End(JsString(NoHandlerFound))
    case Some(h) =>
      var args := BindArguments(query, h.args);
      if |h.args| != |args| then End(JsString(NotEnoughtArguments))
      else Settle(run(h.handler, args))
  }

  /** A request that no handler serves is answered `{"error":"no handler found"}`. */
  lemma DispatchNoHandler(registry: seq<Descriptor>, httpMethod: string, url: Option<string>,
                          query: map<string, QueryValue>, run: (HandlerRef, seq<QueryValue>) -> HandlerResult)
    requires forall i :: 0 <= i < |registry| ==> !Serves(PathSections(DefaultUrl(url)), httpMethod, registry[i])
    ensures Dispatch(registry, httpMethod, url, query, run) == End(JsString(NoHandlerFound))
  {
    SelectHandlerIsFirstMatch(registry, PathSections(DefaultUrl(url)), httpMethod);
  }

  /** When the first handler serving the request is `registry[k]`, the request is answered by
      the arity error exactly when the binding rule refuses the query, and otherwise by the
      classified result of calling that handler with the query values of its parameters. */
  lemma DispatchFirstServing(registry: seq<Descriptor>, httpMethod: string, url: Option<string>,
                             query: map<string, QueryValue>, run: (HandlerRef, seq<QueryValue>) -> HandlerResult, k: nat)
    requires k < |registry| && Serves(PathSections(DefaultUrl(url)), httpMethod, registry[k])
    requires forall j :: 0 <= j < k ==> !Serves(PathSections(DefaultUrl(url)), httpMethod, registry[j])
    ensures var names := registry[k].args;
      var accepted := |names| == 0 || (KeyCount(query) == |names| && forall i :: 0 <= i < |names| ==> names[i] in query);
      && (!accepted ==> Dispatch(registry, httpMethod, url, query, run) == End(JsString(NotEnoughtArguments)))
      && (accepted ==> Dispatch(registry, httpMethod, url, query, run)
                       == Settle(run(registry[k].handler, BindArguments(query, names))))
      && (accepted ==> forall i :: 0 <= i < |names| ==> BindArguments(query, names)[i] == query[names[i]])
  {
    var sections := PathSections(DefaultUrl(url));
    SelectHandlerIsFirstMatch(registry, sections, httpMethod);
    var h := SelectHandler(registry, sections, httpMethod).value;
    var i :| 0 <= i < |registry| && registry[i] == h && Serves(sections, httpMethod, registry[i])
             && forall j :: 0 <= j < i ==> !Serves(sections, httpMethod, registry[j]);
    assert i == k;
    BindArgumentsArity(query, registry[k].args);
  }

  /** A nullary handler runs with no arguments, whatever the query holds. */
  lemma NullaryHandlerIgnoresQuery(registry: seq<Descriptor>, httpMethod: string, url: Option<string>,
                                   query: map<string, QueryValue>, run: (HandlerRef, seq<QueryValue>) -> HandlerResult, k: nat)
    requires k < |registry| && Serves(PathSections(DefaultUrl(url)), httpMethod, registry[k])
    requires forall j :: 0 <= j < k ==> !Serves(PathSections(DefaultUrl(url)), httpMethod, registry[j])
    requires registry[k].args == []
    ensures Dispatch(registry, httpMethod, url, query, run) == Settle(run(registry[k].handler, []))
  {
    DispatchFirstServing(registry, httpMethod, url, query, run, k);
    assert BindArguments(query, []) == [];
  }

  /** A rejected thenable is answered like a resolved one: a string reason verbatim, any other
      reason with the unsupported-response error. */
  lemma RejectionIsClassified(reason: JsValue)
    ensures reason.JsString? ==> Settle(Rejected(reason)) == End(reason)
    ensures !reason.IsText() ==> Settle(Rejected(reason)) == End(JsString(ResponseNotSupported))
    ensures Settle(Rejected(reason)) == Settle(Resolved(reason))
  {
  }

  /** The handler `add(a, b)` of "/add.js", configured with the alias "add" (without it the
      path would be ["add.js"]): its path is ["add"]. */
  function AddHandler(): Descriptor
  {
    Descriptor("/add.js", HandlerRef(1, "function(a,b){return String(+a + +b)}"), ["a", "b"], ["add"], GET)
  }

  /** The sections of a URL "/" + path + query, step by step. */
  lemma SectionsOf(url: string, path: string, query: string)
    requires url == ['/'] + path + query
    requires '?' !in path && '/' !in path
    requires query == "" || query[0] == '?'
    ensures PathSections(DefaultUrl(Some(url))) == [path]
  {
    assert DefaultUrl(Some(url)) == url;
    PathSectionsOf('/', path, query);
    Text.SplitWithout(path, '/');
  }

  lemma PairOf(s: seq<QueryValue>, x: QueryValue, y: QueryValue)
    requires |s| == 2 && s[0] == x && s[1] == y
    ensures s == [x, y]
  {
  }

  /** The query of `/add?a=2&b=3` binds both parameters of `add`, in order. */
  lemma AddArguments(q: map<string, QueryValue>)
    requires q == map["a" := One("2"), "b" := One("3")]
    ensures KeyCount(q) == 2 && "a" in q && "b" in q
    ensures BindArguments(q, ["a", "b"]) == [One("2"), One("3")]
  {
    assert q.Keys == {"a", "b"};
    var names := ["a", "b"];
    assert forall i :: 0 <= i < |names| ==> names[i] in q;
    BindArgumentsArity(q, names);
    var args := BindArguments(q, names);
    assert args[0] == q[names[0]] && args[1] == q[names[1]];
    PairOf(args, One("2"), One("3"));
  }

  /** `/add?a=2&b=3` calls `add("2", "3")` and settles what it returns. */
  lemma AddDispatch(url: string, q: map<string, QueryValue>, run: (HandlerRef, seq<QueryValue>) -> HandlerResult)
    requires url == "/add?a=2&b=3" && q == map["a" := One("2"), "b" := One("3")]
    ensures Dispatch([AddHandler()], "GET", Some(url), q, run) == Settle(run(AddHandler().handler, [One("2"), One("3")]))
  {
    SectionsOf(url, "add", "?a=2&b=3");
    AddArguments(q);
    var names := AddHandler().args;
    assert forall i :: 0 <= i < |names| ==> names[i] in q;
    DispatchFirstServing([AddHandler()], "GET", Some(url), q, run, 0);
  }

  /** `/add?a=2&b=3` is answered with what `add("2", "3")` returns. */
  lemma AddAnswered(url: string, q: map<string, QueryValue>, run: (HandlerRef, seq<QueryValue>) -> HandlerResult)
    requires url == "/add?a=2&b=3" && q == map["a" := One("2"), "b" := One("3")]
    requires run(AddHandler().handler, [One("2"), One("3")]) == Returned(JsString("5"))
    ensures Dispatch([AddHandler()], "GET", Some(url), q, run) == End(JsString("5"))
  {
    AddDispatch(url, q, run);
  }

  /** If `add("2", "3")` returned `null`, the thenable test would throw and nothing would be
      sent; a thenable resolving to `null` is refused instead. */
  lemma AddReturningNullThrows(url: string, q: map<string, QueryValue>, run: (HandlerRef, seq<QueryValue>) -> HandlerResult)
    requires url == "/add?a=2&b=3" && q == map["a" := One("2"), "b" := One("3")]
    requires run(AddHandler().handler, [One("2"), One("3")]) == Returned(JsNull)
    ensures Dispatch([AddHandler()], "GET", Some(url), q, run) == Thrown(NullThen)
    ensures Settle(Resolved(JsNull)) == End(JsString(ResponseNotSupported))
  {
    AddDispatch(url, q, run);
  }

  /** `/add?a=2` lacks an argument of `add(a, b)`. */
  lemma AddMissingArgument(run: (HandlerRef, seq<QueryValue>) -> HandlerResult)
    ensures Dispatch([AddHandler()], "GET", Some("/add?a=2"), map["a" := One("2")], run)
         == End(JsString(NotEnoughtArguments))
  {
    SectionsOf("/add?a=2", "add", "?a=2");
    var q := map["a" := One("2")];
    assert q.Keys == {"a"};
    DispatchFirstServing([AddHandler()], "GET", Some("/add?a=2"), q, run, 0);
  }

  /** `/missing` has no handler. */
  lemma MissingNotFound(run: (HandlerRef, seq<QueryValue>) -> HandlerResult)
    ensures Dispatch([AddHandler()], "GET", Some("/missing"), map[], run) == End(JsString(NoHandlerFound))
  {
    SectionsOf("/missing", "missing", "");
    assert !Serves(["missing"], "GET", AddHandler()) by { assert "missing"[0] != "add"[0]; }
    DispatchNoHandler([AddHandler()], "GET", Some("/missing"), map[], run);
  }

  /** `add` answers GET only. */
  lemma AddPostNotFound(run: (HandlerRef, seq<QueryValue>) -> HandlerResult)
    ensures Dispatch([AddHandler()], "POST", Some("/add"), map[], run) == End(JsString(NoHandlerFound))
  {
    SectionsOf("/add", "add", "");
    assert !Serves(["add"], "POST", AddHandler()) by { assert MethodName(GET) == "GET"; }
    DispatchNoHandler([AddHandler()], "POST", Some("/add"), map[], run);
  }
}
