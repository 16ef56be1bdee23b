/** Reading a handler's parameter names from its source text: the capture-then-split step shared
    by every version of `extractFunctionArguments`. */
module Introspect {
  import opened Wrappers
  import opened Text

  const Keyword: string := "function"

  /** `src` is a declaration `function<pre>(<params>)<rest>`, where `pre` holds no "(" and
      `params` no ")". */
  predicate IsDeclaration(src: string, pre: string, params: string, rest: string)
  {
    '(' !in pre && ')' !in params && src == Keyword + pre + "(" + params + ")" + rest
  }

  /** Group 1 of `^function\s*[^\(]*\(\s*([^\)]*)\)` on source text whose comments and
      whitespace are already removed: from the first "(" after the keyword to the next ")";
      None where `match` gives null. */
  function CaptureParameters(src: string): Option<string>
  {
    if |src| < |Keyword| || src[..|Keyword|] != Keyword then None
    else CaptureAfterKeyword(src[|Keyword|..])
  }

  /** The capture on the text after the keyword: from the first "(" on. */
  function CaptureAfterKeyword(afterKeyword: string): Option<string>
  {
    var open := IndexOf(afterKeyword, '(');
    if open == -1 then None else CaptureBeforeClose(afterKeyword[open + 1..])
  }

  /** The capture on the text after the first "(": up to the next ")". */
  function CaptureBeforeClose(inside: string): Option<string>
  {
    var close := IndexOf(inside, ')');
    if close == -1 then None else Some(inside[..close])
  }

  /** The capture of a declaration is its parameter text. */
  lemma CaptureOfDeclaration(src: string, pre: string, params: string, rest: string)
    requires IsDeclaration(src, pre, params, rest)
    ensures CaptureParameters(src) == Some(params)
  {
    var inside := params + ")" + rest;
    Nest(src, pre, params, rest);
    CaptureAfterPrefix(src, pre + "(" + inside);
    CaptureAfterOpen(pre, inside);
    CaptureUpToClose(params, rest);
  }

  lemma Nest(src: string, pre: string, params: string, rest: string)
    requires src == Keyword + pre + "(" + params + ")" + rest
    ensures src == Keyword + (pre + "(" + (params + ")" + rest))
  {
  }

  lemma CaptureAfterPrefix(src: string, afterKeyword: string)
    requires src == Keyword + afterKeyword
    ensures CaptureParameters(src) == CaptureAfterKeyword(afterKeyword)
  {
    assert src[..|Keyword|] == Keyword && src[|Keyword|..] == afterKeyword;
  }

  lemma CaptureAfterOpen(pre: string, inside: string)
    requires '(' !in pre
    ensures CaptureAfterKeyword(pre + "(" + inside) == CaptureBeforeClose(inside)
  {
    FirstIndexOf(pre, '(', inside);
    assert (pre + "(" + inside)[|pre| + 1..] == inside;
  }

  lemma CaptureUpToClose(params: string, rest: string)
    requires ')' !in params
    ensures CaptureBeforeClose(params + ")" + rest) == Some(params)
  {
    FirstIndexOf(params, ')', rest);
    assert (params + ")" + rest)[..|params|] == params;
  }

  /** The first `c` in `a + [c] + b` is the one after `a` when `a` holds none. */
  lemma FirstIndexOf(a: string, c: char, b: string)
    requires c !in a
    ensures IndexOf(a + [c] + b, c) == |a|
  {
    assert (a + [c] + b)[|a|] == c;
  }

  /** A capture only comes from a declaration. */
  lemma DeclarationOfCapture(src: string) returns (pre: string, rest: string)
    requires CaptureParameters(src).Some?
    ensures IsDeclaration(src, pre, CaptureParameters(src).value, rest)
  {
    var afterKeyword := src[|Keyword|..];
    var open := IndexOf(afterKeyword, '(');
    var inside := afterKeyword[open + 1..];
    var close := IndexOf(inside, ')');
    var params := inside[..close];
    pre := afterKeyword[..open];
    rest := inside[close + 1..];
    assert CaptureParameters(src) == Some(params);
    assert '(' !in pre && ')' !in params;
    assert inside == params + ")" + rest by {
      SplitAt(inside, close);
    }
    assert afterKeyword == pre + "(" + inside by {
      SplitAt(afterKeyword, open);
    }
    assert src == Keyword + afterKeyword by {
      assert src == src[..|Keyword|] + src[|Keyword|..];
    }
    Reassociate(src, afterKeyword, inside, pre, params, rest);
  }

  lemma Reassociate(src: string, afterKeyword: string, inside: string, pre: string, params: string, rest: string)
    requires inside == params + ")" + rest
    requires afterKeyword == pre + "(" + inside
    requires src == Keyword + afterKeyword
    ensures src == Keyword + pre + "(" + params + ")" + rest
  {
  }

  /** A string is its prefix, the character at `k` and its suffix. */
  lemma SplitAt(s: string, k: nat)
    requires k < |s|
    ensures s == s[..k] + [s[k]] + s[k + 1..]
  {
  }

  /** The capture is `params` exactly when the source declares the parameter text `params`. */
  lemma CaptureIsDeclaration(src: string, params: string)
    ensures CaptureParameters(src) == Some(params) <==>
            exists pre, rest :: IsDeclaration(src, pre, params, rest)
  {
    if CaptureParameters(src) == Some(params) {
      var pre, rest := DeclarationOfCapture(src);
    }
    if exists pre, rest :: IsDeclaration(src, pre, params, rest) {
      var pre, rest :| IsDeclaration(src, pre, params, rest);
      CaptureOfDeclaration(src, pre, params, rest);
    }
  }

  /** `captured.split(",")`, with the single empty piece of an empty parameter list read as
      no parameters at all. */
  function SplitParameters(captured: string): (names: seq<string>)
    ensures names == [] <==> captured == ""
    ensures names != [] ==> Join(names, ',') == captured
    ensures forall i :: 0 <= i < |names| ==> ',' !in names[i]
  {
    var parts := Split(captured, ',');
    SplitIsEmptyPiece(captured, ',');
    JoinSplit(captured, ',');
    if |parts| == 1 && parts[0] == "" then [] else parts
  }

  /** Splitting the comma-joined names of a non-empty parameter list gives back the names. */
  lemma SplitParametersOfJoin(names: seq<string>)
    requires names != [] && names != [""]
    requires forall i :: 0 <= i < |names| ==> ',' !in names[i]
    ensures SplitParameters(Join(names, ',')) == names
  {
    SplitJoin(names, ',');
  }
}
