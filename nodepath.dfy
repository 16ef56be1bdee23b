/** The two functions of Node's POSIX `path` module that the handler scan relies on. */
module NodePath {
  import opened Text

  /** `p` without the run of '/' characters at its end. */
  function TrimTrailingSlashes(p: string): (r: string)
    ensures |r| <= |p| && r == p[..|r|]
    ensures r == [] || r[|r| - 1] != '/'
    ensures forall i :: |r| <= i < |p| ==> p[i] == '/'
  {
    if p != [] && p[|p| - 1] == '/' then TrimTrailingSlashes(p[..|p| - 1]) else p
  }

  /** The last path component: everything after the last '/'. */
  function Basename(p: string): (b: string)
    ensures |b| <= |p| && b == p[|p| - |b|..]
    ensures '/' !in b
    ensures |b| == |p| || p[|p| - |b| - 1] == '/'
  {
    if p == [] || p[|p| - 1] == '/' then []
    else
      var b := Basename(p[..|p| - 1]);
      assert p[..|p| - 1][|p| - 1 - |b|..] + [p[|p| - 1]] == p[|p| - 1 - |b|..];
      b + [p[|p| - 1]]
  }

  /** `s.lastIndexOf(c)`: the last position of `c`, or -1. */
  function LastIndexOf(s: string, c: char): (k: int)
    ensures -1 <= k < |s|
    ensures k == -1 <==> c !in s
    ensures k >= 0 ==> s[k] == c && forall j :: k < j < |s| ==> s[j] != c
  {
    if s == [] then -1
    else if s[|s| - 1] == c then |s| - 1
    else
      var k := LastIndexOf(s[..|s| - 1], c);
      assert k == -1 ==> s == s[..|s| - 1] + [s[|s| - 1]];
      k
  }

  /** `path.extname(p)`: from the last '.' of the last component, trailing slashes ignored;
      "" when that component has no '.', starts with its only '.', or is "..". */
  function Extname(p: string): (e: string)
    ensures e == [] || (e[0] == '.' && '/' !in e)
  {
    BaseExtname(Basename(TrimTrailingSlashes(p)))
  }

  /** The extension part of one path component `b`. */
  function BaseExtname(b: string): (e: string)
    ensures '/' !in b ==> e == [] || (e[0] == '.' && '/' !in e)
  {
    var d := LastIndexOf(b, '.');
    if d <= 0 || b == ".." then "" else b[d..]
  }

  /** The shape of an extension such as ".js": a dot, then at least one character that is
      neither a dot nor a slash. */
  predicate IsExtension(e: string)
  {
    |e| >= 2 && e[0] == '.' && '/' !in e && forall i :: 1 <= i < |e| ==> e[i] != '.'
  }

  /** Within one component, the extension is `e` exactly when the component ends in `e`
      after at least one other character. */
  lemma BaseExtnameIsSuffix(b: string, e: string)
    requires IsExtension(e)
    ensures BaseExtname(b) == e <==> |b| > |e| && b[|b| - |e|..] == e
  {
    var d := LastIndexOf(b, '.');
    if |b| > |e| && b[|b| - |e|..] == e {
      var k := |b| - |e|;
      assert b[k] == e[0] == '.';
      forall j | k < j < |b| ensures b[j] != '.' {
        assert b[j] == e[j - k];
      }
      assert d == k;
    }
    if BaseExtname(b) == e {
      assert 0 < d;
    }
  }

  /** A path ending in `n` characters other than '/' has a last component at least that long. */
  lemma BasenameCovers(p: string, n: nat)
    requires n <= |p|
    requires forall i :: |p| - n <= i < |p| ==> p[i] != '/'
    ensures |Basename(p)| >= n
  {
  }

  /** The last component of a path ends in `e` (after at least one more character) exactly
      when the path does, with something other than '/' before `e`. */
  lemma BasenameSuffix(p: string, e: string)
    requires '/' !in e
    ensures (|Basename(p)| > |e| && Basename(p)[|Basename(p)| - |e|..] == e) <==>
            (|p| > |e| && p[|p| - |e|..] == e && p[|p| - |e| - 1] != '/')
  {
    var b := Basename(p);
    var s := |p| - |e|;
    if |p| > |e| && p[s..] == e && p[s - 1] != '/' {
      forall i | s - 1 <= i < |p| ensures p[i] != '/' {
        if i >= s {
          assert p[i] == e[i - s];
        }
      }
      BasenameCovers(p, |e| + 1);
      assert b[|b| - |e|..] == p[s..];
    }
    if |b| > |e| && b[|b| - |e|..] == e {
      assert p[s..] == b[|b| - |e|..];
      assert p[s - 1] == b[|b| - |e| - 1];
    }
  }

  /** For a path that does not end in '/', its extname is `e` exactly when the path ends in `e`
      and something other than '/' stands before it. */
  lemma ExtnameIsSuffix(p: string, e: string)
    requires IsExtension(e)
    requires p == [] || p[|p| - 1] != '/'
    ensures Extname(p) == e <==> |p| > |e| && p[|p| - |e|..] == e && p[|p| - |e| - 1] != '/'
  {
    assert TrimTrailingSlashes(p) == p;
    BaseExtnameIsSuffix(Basename(p), e);
    BasenameSuffix(p, e);
  }

  /** `path.join(dir, name)` for a directory already produced by the scan and a name as a
      directory listing returns it. */
  function PathJoin(dir: string, name: string): string
  {
    if dir == "/" then "/" + name else dir + "/" + name
  }

  /** The absolute-looking relative path of a sequence of names: "/" then the names joined by "/". */
  function Rooted(names: seq<string>): string
  {
    "/" + Join(names, '/')
  }

  /** Joining a name onto a rooted path gives the rooted path of one more name. */
  lemma PathJoinRooted(names: seq<string>, name: string)
    requires names == [] || names[0] != ""
    ensures PathJoin(Rooted(names), name) == Rooted(names + [name])
  {
    if names == [] {
      assert names + [name] == [name];
    } else {
      JoinNonEmpty(names, '/');
      JoinSnoc(names, name, '/');
    }
  }
}
