/** `readDirRecursive`: flattening a directory tree into "/"-prefixed relative file paths.
    The filesystem is an explicit tree; `fs.readdirSync` order is the order of each `seq`. */
module DirScan {
  import opened Text
  import opened NodePath
  import opened Seqs

  /** A directory entry: a file, or a directory with its listing. */
  datatype Entry = File(name: string) | Dir(name: string, children: seq<Entry>)

  /** Names as a directory listing gives them: not empty and without "/". */
  predicate ValidNames(listing: seq<Entry>)
  {
    forall i :: 0 <= i < |listing| ==>
      listing[i].name != "" && '/' !in listing[i].name &&
      (listing[i].Dir? ==> ValidNames(listing[i].children))
  }

  /** No two entries of one directory share a name, at any depth, as on a real filesystem. */
  predicate DistinctNames(listing: seq<Entry>)
  {
    (forall i, j :: 0 <= i < j < |listing| ==> listing[i].name != listing[j].name) &&
    forall i :: 0 <= i < |listing| ==> listing[i].Dir? ==> DistinctNames(listing[i].children)
  }

  /** What `conditionalRecursionMap` yields for one entry: a single path (a string) or the
      paths found below a subdirectory (an array). */
  datatype Listed = Path(path: string) | Paths(paths: seq<string>)

  /** `reduceMultiDimensionalArray`: an array is concatenated, a single value appended. */
  function ReduceMultiDimensionalArray(processed: seq<string>, insertion: Listed): (r: seq<string>)
    ensures |r| >= |processed| && r[..|processed|] == processed
    ensures insertion.Path? ==> r[|processed|..] == [insertion.path]
    ensures insertion.Paths? ==> r[|processed|..] == insertion.paths
  {
    match insertion
    case Path(p) => processed + [p]
    case Paths(ps) => processed + ps
  }

  /** `items.reduce(reduceMultiDimensionalArray, acc)`: a left fold. */
  function Reduce(acc: seq<string>, items: seq<Listed>): seq<string>
    decreases items
  {
    if items == [] then acc else Reduce(ReduceMultiDimensionalArray(acc, items[0]), items[1..])
  }

  /** The paths one item stands for. */
  function Contents(item: Listed): seq<string>
  {
    match item
    case Path(p) => [p]
    case Paths(ps) => ps
  }

  /** The contents of `items` flattened by exactly one level, defined from the right. */
  function Flatten(items: seq<Listed>): seq<string>
  {
    if items == [] then [] else Contents(items[0]) + Flatten(items[1..])
  }

  /** The fold appends the one-level flattening of its items to the accumulator. */
  lemma {:induction false} ReduceFlattens(acc: seq<string>, items: seq<Listed>)
    ensures Reduce(acc, items) == acc + Flatten(items)
    decreases items
  {
    if items != [] {
      var item, rest := items[0], items[1..];
      ReduceStep(acc, item);
      ReduceFlattens(acc + Contents(item), rest);
      AppendAssociates(acc, Contents(item), Flatten(rest));
    }
  }

  lemma ReduceStep(acc: seq<string>, item: Listed)
    ensures ReduceMultiDimensionalArray(acc, item) == acc + Contents(item)
  {
    match item
    case Path(p) =>
    case Paths(ps) =>
  }

  lemma AppendAssociates(a: seq<string>, b: seq<string>, c: seq<string>)
    ensures (a + b) + c == a + (b + c)
  {
  }

  /** `conditionalRecursionMap`: a directory is scanned below `path.join(rel, name)`, a file
      is that path. */
  function ConditionalRecursionMap(rel: string, entry: Entry): Listed
    decreases entry
  {
    var path := PathJoin(rel, entry.name);
    match entry
    case File(_) => Path(path)
    case Dir(_, children) => Paths(ReadDirRecursive(children, path))
  }

  /** `fs.readdirSync(...).map(conditionalRecursionMap)`. */
  function MapEntries(rel: string, listing: seq<Entry>): (r: seq<Listed>)
    decreases listing, 0
    ensures |r| == |listing|
  {
    if listing == [] then [] else [ConditionalRecursionMap(rel, listing[0])] + MapEntries(rel, listing[1..])
  }

  /** `readDirRecursive(base, rel)` over the listing of the directory at `rel`. */
  function ReadDirRecursive(listing: seq<Entry>, rel: string): seq<string>
    decreases listing, 1
  {
    Reduce([], MapEntries(rel, listing))
  }

  /** `readDirRecursive(base)`: the scan starts at relative path "/". */
  function ScanRoot(listing: seq<Entry>): seq<string>
  {
    ReadDirRecursive(listing, "/")
  }

  /** The name paths of all files, depth-first in listing order: the reference definition. */
  function Leaves(listing: seq<Entry>, dirs: seq<string>): seq<seq<string>>
    decreases listing, 1
  {
    if listing == [] then [] else LeavesOf(listing[0], dirs) + Leaves(listing[1..], dirs)
  }

  /** The name paths of the files at or below one entry of the directory at `dirs`. */
  function LeavesOf(entry: Entry, dirs: seq<string>): seq<seq<string>>
    decreases entry
  {
    match entry
    case File(n) => [dirs + [n]]
    case Dir(n, children) => Leaves(children, dirs + [n])
  }

  /** The rooted path of every name path. */
  function RootedAll(paths: seq<seq<string>>): (r: seq<string>)
    ensures |r| == |paths|
    ensures forall i :: 0 <= i < |paths| ==> r[i] == Rooted(paths[i])
  {
    if paths == [] then [] else [Rooted(paths[0])] + RootedAll(paths[1..])
  }

  lemma {:induction false} RootedAllAppend(a: seq<seq<string>>, b: seq<seq<string>>)
    ensures RootedAll(a + b) == RootedAll(a) + RootedAll(b)
  {
    if a != [] {
      assert (a + b)[1..] == a[1..] + b;
      RootedAllAppend(a[1..], b);
    }
  }

  /** The scan of a directory at name path `dirs` yields the rooted paths of its files,
      depth-first in listing order; empty directories contribute nothing. */
  lemma {:induction false} ReadDirIsLeaves(listing: seq<Entry>, dirs: seq<string>)
    requires ValidNames(listing)
    requires dirs == [] || dirs[0] != ""
    ensures ReadDirRecursive(listing, Rooted(dirs)) == RootedAll(Leaves(listing, dirs))
    decreases listing, 1
  {
    ReduceFlattens([], MapEntries(Rooted(dirs), listing));
    FlattenIsLeaves(listing, dirs);
  }

  lemma {:induction false} FlattenIsLeaves(listing: seq<Entry>, dirs: seq<string>)
    requires ValidNames(listing)
    requires dirs == [] || dirs[0] != ""
    ensures Flatten(MapEntries(Rooted(dirs), listing)) == RootedAll(Leaves(listing, dirs))
    decreases listing, 0
  {
    if listing != [] {
      EntryIsLeaves(listing[0], dirs);
      FlattenIsLeaves(listing[1..], dirs);
      RootedAllAppend(LeavesOf(listing[0], dirs), Leaves(listing[1..], dirs));
    }
  }

  lemma {:induction false} EntryIsLeaves(entry: Entry, dirs: seq<string>)
    requires entry.name != "" && '/' !in entry.name
    requires entry.Dir? ==> ValidNames(entry.children)
    requires dirs == [] || dirs[0] != ""
    ensures Contents(ConditionalRecursionMap(Rooted(dirs), entry)) == RootedAll(LeavesOf(entry, dirs))
    decreases entry
  {
    PathJoinRooted(dirs, entry.name);
    if entry.Dir? {
      ReadDirIsLeaves(entry.children, dirs + [entry.name]);
    }
  }

  /** The top-level scan lists every file of the tree, as "/" followed by its names joined by
      "/", depth-first in listing order, and nothing else. */
  lemma ScanRootIsLeaves(listing: seq<Entry>)
    requires ValidNames(listing)
    ensures ScanRoot(listing) == RootedAll(Leaves(listing, []))
    ensures forall i :: 0 <= i < |ScanRoot(listing)| ==> ScanRoot(listing)[i][0] == '/'
  {
    assert Rooted([]) == "/";
    ReadDirIsLeaves(listing, []);
  }

  /** A path of names leading to a file: not empty, no name holding "/". */
  predicate NamePath(names: seq<string>)
  {
    names != [] && forall k :: 0 <= k < |names| ==> '/' !in names[k]
  }

  /** Every name path of a tree with valid names is a `NamePath`. */
  lemma {:induction false} LeavesAreValid(listing: seq<Entry>, dirs: seq<string>)
    requires ValidNames(listing)
    requires forall k :: 0 <= k < |dirs| ==> '/' !in dirs[k]
    ensures forall names :: names in Leaves(listing, dirs) ==> NamePath(names)
    decreases listing, 1
  {
    if listing != [] {
      LeavesOfAreValid(listing[0], dirs);
      LeavesAreValid(listing[1..], dirs);
    }
  }

  lemma {:induction false} LeavesOfAreValid(entry: Entry, dirs: seq<string>)
    requires '/' !in entry.name
    requires entry.Dir? ==> ValidNames(entry.children)
    requires forall k :: 0 <= k < |dirs| ==> '/' !in dirs[k]
    ensures forall names :: names in LeavesOf(entry, dirs) ==> NamePath(names)
    decreases entry
  {
    if entry.Dir? {
      LeavesAreValid(entry.children, dirs + [entry.name]);
    }
  }

  lemma {:induction false} MapEntriesAppend(rel: string, a: seq<Entry>, b: seq<Entry>)
    ensures MapEntries(rel, a + b) == MapEntries(rel, a) + MapEntries(rel, b)
  {
    if a == [] {
      assert a + b == b;
    } else {
      assert (a + b)[0] == a[0];
      assert (a + b)[1..] == a[1..] + b;
      MapEntriesAppend(rel, a[1..], b);
    }
  }

  lemma {:induction false} FlattenAppend(a: seq<Listed>, b: seq<Listed>)
    ensures Flatten(a + b) == Flatten(a) + Flatten(b)
  {
    if a == [] {
      assert a + b == b;
    } else {
      assert (a + b)[0] == a[0];
      assert (a + b)[1..] == a[1..] + b;
      FlattenAppend(a[1..], b);
    }
  }

  /** Listing order is kept: the entries listed first contribute their paths first. */
  lemma ReadDirAppend(a: seq<Entry>, b: seq<Entry>, rel: string)
    ensures ReadDirRecursive(a + b, rel) == ReadDirRecursive(a, rel) + ReadDirRecursive(b, rel)
  {
    ReduceFlattens([], MapEntries(rel, a + b));
    ReduceFlattens([], MapEntries(rel, a));
    ReduceFlattens([], MapEntries(rel, b));
    MapEntriesAppend(rel, a, b);
    FlattenAppend(MapEntries(rel, a), MapEntries(rel, b));
  }

  /** An empty directory contributes nothing to the scan. */
  lemma EmptyDirectoryContributesNothing(name: string, rest: seq<Entry>, rel: string)
    ensures ReadDirRecursive([Dir(name, [])] + rest, rel) == ReadDirRecursive(rest, rel)
  {
    ReadDirAppend([Dir(name, [])], rest, rel);
    ReduceFlattens([], MapEntries(rel, [Dir(name, [])]));
    assert ReadDirRecursive([], PathJoin(rel, name)) == [];
    assert MapEntries(rel, [Dir(name, [])]) == [Paths([])];
    assert Flatten([Paths([])]) == [];
  }

  /** Every file below an entry of the directory at `dirs` has a name path extending `dirs` by
      that entry's name. */
  lemma {:induction false} LeavesOfUnder(entry: Entry, dirs: seq<string>)
    ensures forall names :: names in LeavesOf(entry, dirs) ==>
      |names| > |dirs| && names[..|dirs|] == dirs && names[|dirs|] == entry.name
    decreases entry
  {
    if entry.Dir? {
      LeavesUnder(entry.children, dirs + [entry.name]);
      forall names | names in LeavesOf(entry, dirs)
        ensures |names| > |dirs| && names[..|dirs|] == dirs && names[|dirs|] == entry.name
      {
        assert names[..|dirs| + 1] == dirs + [entry.name];
        assert names[..|dirs|] == names[..|dirs| + 1][..|dirs|];
        assert names[|dirs|] == names[..|dirs| + 1][|dirs|];
      }
    }
  }

  /** Every file below the directory at `dirs` has a name path extending `dirs` by the name of
      one of its entries. */
  lemma {:induction false} LeavesUnder(listing: seq<Entry>, dirs: seq<string>)
    ensures forall names :: names in Leaves(listing, dirs) ==>
      |names| > |dirs| && names[..|dirs|] == dirs
      && exists k :: 0 <= k < |listing| && names[|dirs|] == listing[k].name
    decreases listing, 1
  {
    if listing != [] {
      LeavesOfUnder(listing[0], dirs);
      LeavesUnder(listing[1..], dirs);
      forall names | names in Leaves(listing, dirs)
        ensures |names| > |dirs| && names[..|dirs|] == dirs
                && exists k :: 0 <= k < |listing| && names[|dirs|] == listing[k].name
      {
        if names in LeavesOf(listing[0], dirs) {
          assert names[|dirs|] == listing[0].name;
        } else {
          assert names in Leaves(listing[1..], dirs);
          var k :| 0 <= k < |listing[1..]| && names[|dirs|] == listing[1..][k].name;
          assert listing[1..][k] == listing[k + 1];
        }
      }
    }
  }

  /** A tree without repeated names has no file listed twice. */
  lemma {:induction false} LeavesDistinct(listing: seq<Entry>, dirs: seq<string>)
    requires DistinctNames(listing)
    ensures Distinct(Leaves(listing, dirs))
    decreases listing, 1
  {
    if listing != [] {
      var first, rest := LeavesOf(listing[0], dirs), Leaves(listing[1..], dirs);
      LeavesOfDistinct(listing[0], dirs);
      assert DistinctNames(listing[1..]) by {
        forall i, j | 0 <= i < j < |listing[1..]| ensures listing[1..][i].name != listing[1..][j].name {
          assert listing[1..][i] == listing[i + 1] && listing[1..][j] == listing[j + 1];
        }
        forall i | 0 <= i < |listing[1..]| ensures listing[1..][i].Dir? ==> DistinctNames(listing[1..][i].children) {
          assert listing[1..][i] == listing[i + 1];
        }
      }
      LeavesDistinct(listing[1..], dirs);
      LeavesOfUnder(listing[0], dirs);
      LeavesUnder(listing[1..], dirs);
      forall names | names in rest ensures names[|dirs|] != listing[0].name {
        var k :| 0 <= k < |listing[1..]| && names[|dirs|] == listing[1..][k].name;
        assert listing[1..][k] == listing[k + 1];
      }
      DistinctAppend(first, rest);
    }
  }

  lemma {:induction false} LeavesOfDistinct(entry: Entry, dirs: seq<string>)
    requires entry.Dir? ==> DistinctNames(entry.children)
    ensures Distinct(LeavesOf(entry, dirs))
    decreases entry
  {
    if entry.Dir? {
      LeavesDistinct(entry.children, dirs + [entry.name]);
    }
  }

  /** Different name paths have different rooted paths. */
  lemma RootedInjective(a: seq<string>, b: seq<string>)
    requires NamePath(a) && NamePath(b)
    ensures Rooted(a) == Rooted(b) ==> a == b
  {
    SplitJoin(a, '/');
    SplitJoin(b, '/');
    assert Rooted(a)[1..] == Join(a, '/') && Rooted(b)[1..] == Join(b, '/');
  }

  /** Rooting distinct name paths keeps them distinct. */
  lemma RootedAllDistinct(paths: seq<seq<string>>)
    requires Distinct(paths)
    requires forall names :: names in paths ==> NamePath(names)
    ensures Distinct(RootedAll(paths))
  {
    forall i, j | 0 <= i < j < |paths| ensures RootedAll(paths)[i] != RootedAll(paths)[j] {
      RootedInjective(paths[i], paths[j]);
    }
  }

  /** A tree without repeated names is scanned without repeating a path. */
  lemma ScanRootIsDistinct(listing: seq<Entry>)
    requires ValidNames(listing) && DistinctNames(listing)
    ensures Distinct(ScanRoot(listing))
  {
    ScanRootIsLeaves(listing);
    LeavesDistinct(listing, []);
    LeavesAreValid(listing, []);
    RootedAllDistinct(Leaves(listing, []));
  }
}
