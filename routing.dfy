/** URL path splitting and path matching, written the same way in every version of the server. */
module Routing {
  import opened Text

  /** `url.slice(1, q === -1 ? undefined : q).split("/")` with `q = url.indexOf("?")`. */
  function PathSections(url: string): (sections: seq<string>)
    ensures |sections| >= 1
  {
    var q := IndexOf(url, '?');
    var stop := if q == -1 then |url| else q;
    var start := if |url| >= 1 then 1 else 0;
    Split(if start <= stop then url[start..stop] else "", '/')
  }

  /** The sections of a URL are the pieces of the text between its first character and its
      query string. */
  lemma PathSectionsOf(first: char, path: string, query: string)
    requires first != '?' && '?' !in path
    requires query == "" || query[0] == '?'
    ensures PathSections([first] + path + query) == Split(path, '/')
  {
    var url := [first] + path + query;
    if query == "" {
      assert url == [first] + path;
      assert IndexOf(url, '?') == -1;
    } else {
      assert url[|path| + 1] == '?';
      assert '?' !in url[..|path| + 1] by {
        assert url[..|path| + 1] == [first] + path;
      }
      assert IndexOf(url, '?') == |path| + 1;
    }
    assert url[1..|path| + 1] == path;
  }

  /** The root URL, with or without a query, has the single empty section. */
  lemma RootSections()
    ensures PathSections("/") == [""]
    ensures PathSections("/?a=1") == [""]
  {
    PathSectionsOf('/', "", "");
    PathSectionsOf('/', "", "?a=1");
  }

  /** The number of positions `i` of `url` with `path[i] === url[i]` (undefined past the end of
      `path` matches nothing): the length of `url.filter((s, i) => path[i] === s)`. */
  function CountMatching(url: seq<string>, path: seq<string>): (n: nat)
    ensures n <= |url|
  {
    if url == [] then 0
    else
      (if path != [] && path[0] == url[0] then 1 else 0)
      + CountMatching(url[1..], if path == [] then [] else path[1..])
  }

  /** The matching filter: equal lengths and every section matched. */
  predicate SectionsMatch(url: seq<string>, path: seq<string>)
  {
    |url| == |path| && CountMatching(url, path) == |url|
  }

  /** Every section is counted exactly when the two sequences agree on all of `url`. */
  lemma {:induction false} CountMatchingAll(url: seq<string>, path: seq<string>)
    requires |url| == |path|
    ensures CountMatching(url, path) == |url| <==> url == path
  {
    if url != [] {
      CountMatchingAll(url[1..], path[1..]);
      if path[0] != url[0] {
        assert CountMatching(url, path) <= |url| - 1;
      } else if url[1..] == path[1..] {
        assert url == [url[0]] + url[1..];
        assert path == [path[0]] + path[1..];
      }
    }
  }

  /** The matching filter holds exactly when the sections equal the handler's path. */
  lemma SectionsMatchIsEquality(url: seq<string>, path: seq<string>)
    ensures SectionsMatch(url, path) <==> url == path
  {
    if |url| == |path| {
      CountMatchingAll(url, path);
    }
  }
}
