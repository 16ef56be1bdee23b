/** `server.js`: the request callback of the first server. It routes with the filter of
    `lib/handlers.js`, on the path alone, and calls `isPromise`, which it never imports, for any
    result that is not a string or a Buffer. */
module LegacyServer {
  import opened Wrappers
  import opened Seqs
  import opened Http
  import opened Routing
  import opened LegacyHandlers
  import LegacyIndex

  /** What referring to the missing `isPromise` throws. */
  const IsPromiseUndefined: string := "ReferenceError: isPromise is not defined"

  /** `_handlers.filter(handlerMatchingFilter(sections))[0]`. */
  function FirstMatching(handlers: seq<View>, sections: seq<string>): Option<View>
  {
    var matching := Filter(handlers, CreateHandlerMatchingFilter(handlers)(sections));
    if matching == [] then None else Some(matching[0])
  }

  /** The filter of `lib/handlers.js` finds the same handler as `matchViewToPath` of
      `src/index.js`: the first one at the path. */
  lemma FirstMatchingIsFirstAtPath(handlers: seq<View>, sections: seq<string>)
    ensures FirstMatching(handlers, sections) == LegacyIndex.FirstAtPath(handlers, sections)
  {
    forall h ensures CreateHandlerMatchingFilter(handlers)(sections)(h) == LegacyIndex.MatchViewToPath(sections)(h) {
      HandlerMatchingFilterIsEquality(handlers, sections, h);
      LegacyIndex.MatchViewToPathIsEquality(sections, h);
    }
    FilterCongruent(handlers, CreateHandlerMatchingFilter(handlers)(sections), LegacyIndex.MatchViewToPath(sections));
  }

  /** A string or a Buffer, sent as it is. */
  predicate IsText(result: HandlerResult)
  {
    result.Returned? && result.v.IsText()
  }

  /** The outcome of one request, for the URL after defaulting: a payload for `res.end`, or the
      exception escaping the callback. */
  function Respond(handlers: seq<View>, url: string, query: map<string, QueryValue>,
                   run: (HandlerRef, seq<Option<QueryValue>>) -> HandlerResult): Response
  {
    match FirstMatching(handlers, PathSections(url))
    case None => End(JsString(NoHandlerFound))
    case Some(h) =>
      if !LegacyIndex.ArityAccepted(query, h.args) then End(JsString(LegacyIndex.NotEnoughArguments))
      else
        var result := run(h.handler, LegacyIndex.QueryArguments(query, h.args).GetOr([]));
        if IsText(result) then End(result.v)
        else if result.Threw? then Thrown(result.error)
        else Thrown(IsPromiseUndefined)
  }

  /** Whatever `server.js` sends is what `src/index.js` sends for the same request; it throws
      exactly when the handler was called and did not return a string or a Buffer, and where
      the two callbacks differ, `server.js` threw the missing `isPromise`. */
  lemma RespondAgreesWithIndex(handlers: seq<View>, url: string, query: map<string, QueryValue>,
                               run: (HandlerRef, seq<Option<QueryValue>>) -> HandlerResult, stringify: JsValue -> string)
    ensures Respond(handlers, url, query, run).End? ==>
      Respond(handlers, url, query, run) == LegacyIndex.Respond(handlers, url, query, run, stringify)
    ensures Respond(handlers, url, query, run).Thrown? <==>
      var first := LegacyIndex.FirstAtPath(handlers, PathSections(url));
      && first.Some? && LegacyIndex.ArityAccepted(query, first.value.args)
      && !IsText(run(first.value.handler, LegacyIndex.QueryArguments(query, first.value.args).GetOr([])))
    ensures Respond(handlers, url, query, run) != LegacyIndex.Respond(handlers, url, query, run, stringify) ==>
      Respond(handlers, url, query, run) == Thrown(IsPromiseUndefined)
  {
    FirstMatchingIsFirstAtPath(handlers, PathSections(url));
  }

  /** The request callback: `req.url` is overwritten with its default; then either exactly one
      payload is passed to `res.end`, or the callback throws and nothing is sent. */
  method HandleRequest(handlers: seq<View>, req: IncomingMessage, res: ServerResponse, query: map<string, QueryValue>,
                       run: (HandlerRef, seq<Option<QueryValue>>) -> HandlerResult) returns (outcome: Response)
    modifies req, res
    ensures req.url == Some(DefaultUrl(old(req.url)))
    ensures outcome == Respond(handlers, DefaultUrl(old(req.url)), query, run)
    ensures res.ended == old(res.ended) + (if outcome.End? then [outcome.payload] else [])
  {
    req.url := Some(DefaultUrl(req.url));
    var sections := PathSections(req.url.value);
    var handler := FirstMatching(handlers, sections);
    if handler.None? {
      outcome := End(JsString(NoHandlerFound));
      res.End(outcome.payload);
      return;
    }
    var args := LegacyIndex.QueryArguments(query, handler.value.args);
    if args.None? && |handler.value.args| > 0 {
      outcome := End(JsString(LegacyIndex.NotEnoughArguments));
      res.End(outcome.payload);
      return;
    }
    var result := run(handler.value.handler, args.GetOr([]));
    if IsText(result) {
      outcome := End(result.v);
      res.End(outcome.payload);
      return;
    }
    outcome := if result.Threw? then Thrown(result.error) else Thrown(IsPromiseUndefined);
  }
}
