/** Path resolution of outline items (core/parsers/misc.py and its older twin in
    core/parser.py).  An item's path text is relative to its parent's resolved path;
    a top-level project file (`*.kmol`) resolves to the directory that holds it.
    The Qt path helpers are kept uninterpreted: they are fields of `PathOps`. */
module Paths {
  import opened Strs

  /** `join(d, n)` is `QDir(d).filePath(n)`, `dirOf(p)` is `QFileInfo(p).absolutePath()`,
      `absolute(p)` is `QFileInfo(p).absoluteFilePath()`; `isFile(p)` is
      `QFileInfo(p).isFile()` and `dirExists(d)` is `QDir(d).exists()`, both read
      from one snapshot of the file system. */
  datatype PathOps = PathOps(
    join: (string, string) -> string,
    dirOf: string -> string,
    absolute: string -> string,
    isFile: string -> bool,
    dirExists: string -> bool)

  /** The package modules under core/parsers/ or the older module core/parser.py. */
  datatype Version = Package | Legacy

  /** The suffix rule of a version. */
  function RuleOf(v: Version): SuffixRule {
    match v
    case Package => Complete
    case Legacy => Last
  }

  /** Which suffix a file name is judged by: the package version uses
      `completeSuffix` (after the first dot), the older module `suffix` (after the last). */
  datatype SuffixRule = Complete | Last

  function SuffixOf(rule: SuffixRule, p: string): string {
    match rule
    case Complete => CompleteSuffix(p)
    case Last => LastSuffix(p)
  }

  /** `file_suffix` of core/parsers/misc.py: everything after the first dot of the file name. */
  function FileSuffix(p: string): string {
    CompleteSuffix(p)
  }

  /** A file name without a dot has no suffix; otherwise the suffix follows the
      first dot of the name. */
  lemma FileSuffixShape(p: string)
    ensures '.' !in FileName(p) ==> FileSuffix(p) == []
    ensures FileSuffix(p) != [] ==> exists b :: '.' !in b && FileName(p) == b + "." + FileSuffix(p)
  {
    CompleteSuffixShape(p);
  }

  /** What a top-level item resolves to: the containing directory of a project
      file, its own path text otherwise. */
  function RootBase(ops: PathOps, rule: SuffixRule, p: string): string {
    if SuffixOf(rule, p) == "kmol" then ops.dirOf(p) else p
  }

  /** `node_getpath` (and the older `_getpath`) of the item whose chain of path texts,
      from its top-level ancestor down to itself, is `chain`. */
  function NodeGetPath(ops: PathOps, rule: SuffixRule, chain: seq<string>): (r: string)
    requires |chain| > 0
    ensures |chain| == 1 && SuffixOf(rule, chain[0]) == "kmol" ==> r == ops.dirOf(chain[0])
    ensures |chain| == 1 && SuffixOf(rule, chain[0]) != "kmol" ==> r == chain[0]
    decreases |chain|
  {
    if |chain| == 1 then RootBase(ops, rule, chain[0])
    else ops.join(NodeGetPath(ops, rule, chain[..|chain| - 1]), chain[|chain| - 1])
  }

  /** `getpath`: a top-level item's own path text; for an item with a parent, the
      absolute form of its resolved path. */
  function GetPath(ops: PathOps, rule: SuffixRule, chain: seq<string>): (r: string)
    requires |chain| > 0
    ensures |chain| == 1 ==> r == chain[0]
    ensures |chain| > 1 ==> r == ops.absolute(NodeGetPath(ops, rule, chain))
  {
    if |chain| == 1 then chain[0]
    else ops.absolute(ops.join(NodeGetPath(ops, rule, chain[..|chain| - 1]), chain[|chain| - 1]))
  }

  /** Reference definition: start at the resolved top-level item and join the
      path texts one by one going down. */
  function FoldJoin(ops: PathOps, base: string, names: seq<string>): string
    decreases |names|
  {
    if names == [] then base else FoldJoin(ops, ops.join(base, names[0]), names[1..])
  }

  lemma {:induction false} FoldJoinSnoc(ops: PathOps, base: string, names: seq<string>, x: string)
    ensures FoldJoin(ops, base, names + [x]) == ops.join(FoldJoin(ops, base, names), x)
    decreases |names|
  {
    if names == [] {
      assert names + [x] == [x];
      assert [x][1..] == [];
    } else {
      assert (names + [x])[1..] == names[1..] + [x];
      FoldJoinSnoc(ops, ops.join(base, names[0]), names[1..], x);
    }
  }

  /** The recursion on the parent link resolves exactly like the top-down fold. */
  lemma {:induction false} NodeGetPathFold(ops: PathOps, rule: SuffixRule, chain: seq<string>)
    requires |chain| > 0
    ensures NodeGetPath(ops, rule, chain) == FoldJoin(ops, RootBase(ops, rule, chain[0]), chain[1..])
    decreases |chain|
  {
    if |chain| > 1 {
      var n := |chain|;
      var up := chain[..n - 1];
      NodeGetPathFold(ops, rule, up);
      assert up[0] == chain[0];
      assert chain[1..] == up[1..] + [chain[n - 1]];
      FoldJoinSnoc(ops, RootBase(ops, rule, chain[0]), up[1..], chain[n - 1]);
    }
  }

  /** `getpath` of an item with a parent, by the top-down fold. */
  lemma GetPathFold(ops: PathOps, rule: SuffixRule, chain: seq<string>)
    requires |chain| > 1
    ensures GetPath(ops, rule, chain) == ops.absolute(FoldJoin(ops, RootBase(ops, rule, chain[0]), chain[1..]))
  {
    NodeGetPathFold(ops, rule, chain);
  }

  /** Resolution only depends on the chain, so items that share their ancestors'
      path texts resolve through the same parent path. */
  lemma NodeGetPathPrefix(ops: PathOps, rule: SuffixRule, chain: seq<string>, x: string)
    requires |chain| > 0
    ensures NodeGetPath(ops, rule, chain + [x]) == ops.join(NodeGetPath(ops, rule, chain), x)
  {
    assert (chain + [x])[..|chain|] == chain;
  }

  /** The two suffix rules resolve every chain alike when the top-level file name
      has at most one dot. */
  lemma RulesAgree(ops: PathOps, chain: seq<string>)
    requires |chain| > 0
    requires '.' !in CompleteSuffix(chain[0])
    ensures NodeGetPath(ops, Complete, chain) == NodeGetPath(ops, Last, chain)
    ensures GetPath(ops, Complete, chain) == GetPath(ops, Last, chain)
  {
    SuffixParts(chain[0]);
    NodeGetPathFold(ops, Complete, chain);
    NodeGetPathFold(ops, Last, chain);
  }

  /** They differ for a project file with two dots: `a.b.kmol` is a project for
      the older rule only. */
  lemma RulesDifferOnDoubleSuffix(ops: PathOps)
    ensures SuffixOf(Complete, "a.b.kmol") == "b.kmol"
    ensures SuffixOf(Last, "a.b.kmol") == "kmol"
    ensures NodeGetPath(ops, Complete, ["a.b.kmol"]) == "a.b.kmol"
    ensures NodeGetPath(ops, Last, ["a.b.kmol"]) == ops.dirOf("a.b.kmol")
  {
    DoubleSuffixComplete();
    DoubleSuffixLast();
  }

  lemma DoubleSuffixComplete()
    ensures CompleteSuffix("a.b.kmol") == "b.kmol"
  {
    var p := "a.b.kmol";
    assert '/' !in p by {
      assert forall k :: 0 <= k < |p| ==> p[k] != '/';
    }
    FileNameNoSlash(p);
    assert FirstIndex(p, '.') == 1;
  }

  lemma DoubleSuffixLast()
    ensures LastSuffix("a.b.kmol") == "kmol"
  {
    var p, tail := "a.b.kmol", "kmol";
    assert '/' !in p by {
      assert forall k :: 0 <= k < |p| ==> p[k] != '/';
    }
    FileNameNoSlash(p);
    assert p == "a.b" + ['.'] + tail;
    assert '.' !in tail by {
      assert forall k :: 0 <= k < |tail| ==> tail[k] != '.';
    }
    AfterLastOfSplit("a.b", '.', tail);
  }
}
