/** `lib/handlers.js`: the untyped argument extractor and the path filter factory of the first
    server, and the handler object (`{file, handler, args, path}`) the untyped server works on. */
module LegacyHandlers {
  import opened Wrappers
  import opened Text
  import opened Http
  import opened Introspect
  import opened Routing
  import FileTools

  /** A handler as the untyped `importViewDir` builds it: no method, no configuration. */
  datatype View = View(file: string, handler: HandlerRef, args: seq<string>, path: seq<string>)

  /** What `null[1]` throws when the source text does not match the declaration pattern. */
  const NoMatch: string := "TypeError: Cannot read properties of null (reading '1')"

  /** `extractFunctionArguments` without a null guard: source text that does not match throws. */
  function ExtractFunctionArguments(src: string): (r: Result<seq<string>, string>)
    ensures r.Failure? <==> CaptureParameters(src).None?
    ensures r.Failure? ==> r.error == NoMatch
    ensures r.Success? ==> r.value == FileTools.ExtractFunctionArguments(src)
  {
    match CaptureParameters(src)
    case None => Failure(NoMatch)
    case Some(captured) => Success(SplitParameters(captured))
  }

  /** A nullary declaration matches, and, as in the typed extractor, has no names, never
      [""]. */
  lemma NullaryDeclarationHasNoArguments(pre: string, rest: string)
    requires '(' !in pre
    ensures ExtractFunctionArguments(Keyword + pre + "()" + rest) == Success([])
  {
    var src := Keyword + pre + "()" + rest;
    assert src == Keyword + pre + "(" + "" + ")" + rest;
    CaptureOfDeclaration(src, pre, "", rest);
    FileTools.NullaryHandlerHasNoArguments(pre, rest);
  }

  /** A declaration with separator-free parameter names matches, and, as in the typed
      extractor, yields exactly those names. */
  lemma ArgumentsOfDeclaration(pre: string, names: seq<string>, rest: string)
    requires '(' !in pre
    requires names != [] && names != [""]
    requires forall i :: 0 <= i < |names| ==> ',' !in names[i] && ')' !in names[i]
    ensures ExtractFunctionArguments(Keyword + pre + "(" + Join(names, ',') + ")" + rest) == Success(names)
  {
    var params := Join(names, ',');
    FileTools.JoinHasNo(names, ',', ')');
    CaptureOfDeclaration(Keyword + pre + "(" + params + ")" + rest, pre, params, rest);
    FileTools.ArgumentsOfDeclaration(pre, names, rest);
  }

  /** Source text that does not start with the keyword, such as an arrow function, throws. */
  lemma ArrowFunctionThrows(src: string)
    requires |src| > 0 && src[0] == '('
    ensures ExtractFunctionArguments(src) == Failure(NoMatch)
  {
    assert Keyword[0] == 'f';
    if |src| >= |Keyword| {
      assert src[..|Keyword|][0] == '(';
    }
  }

  /** `createHandlerMatchingFilter(handlers)`: a filter factory over URL sections. */
  function CreateHandlerMatchingFilter(handlers: seq<View>): seq<string> -> View -> bool
  {
    (sections: seq<string>) => (h: View) => SectionsMatch(sections, h.path)
  }

  /** The filter holds exactly when the sections equal the handler's path. */
  lemma HandlerMatchingFilterIsEquality(handlers: seq<View>, sections: seq<string>, h: View)
    ensures CreateHandlerMatchingFilter(handlers)(sections)(h) <==> sections == h.path
  {
    SectionsMatchIsEquality(sections, h.path);
  }

  /** The list handed to the factory plays no part in the filter. */
  lemma HandlerMatchingFilterIgnoresHandlers(a: seq<View>, b: seq<View>, sections: seq<string>, h: View)
    ensures CreateHandlerMatchingFilter(a)(sections)(h) == CreateHandlerMatchingFilter(b)(sections)(h)
  {
  }
}
