/** `parse` of core/parsers/__init__.py and of core/parser.py: an item is
    (re)loaded from the file its path resolves to, dispatched on the file's
    suffix; a project file is read by `_parse_tree`, which rebuilds the described
    items and then parses every item of its parse list in turn.  The parse of an
    item first detaches its children (`takeChildren`), so an item of the parse
    list that lies below an item parsed before it is parsed detached: its chain
    of parents now starts at a direct child of the deepest such item, and its
    result is dropped. */
module Loader {
  import opened Strs
  import opened Store
  import opened Outline
  import opened Paths
  import opened Codec
  import opened XmlCodec
  import opened Markdown

  /** The file system as the parse sees it: the path helpers, the text of a file
      (None for FileNotFoundError), the message stored for a missing file
      (`str(e)`), and the parsed project documents of a path (None for a missing
      file). */
  datatype Env = Env(
    ops: PathOps,
    read: string -> Option<string>,
    missing: string -> string,
    yaml: string -> Option<Project>,
    xml: string -> Option<XmlRoot>)

  /** The file `parse` opens, `getpath(node)`: the path text of a top-level item,
      else the absolute form of the path text joined to the parent's resolved
      path `parent`. */
  function FileNameOf(ops: PathOps, parent: Option<string>, path: string): string {
    match parent
    case None => path
    case Some(b) => ops.absolute(ops.join(b, path))
  }

  /** The item's own resolved path, `node_getpath(node)`. */
  function ItemBase(ops: PathOps, rule: SuffixRule, parent: Option<string>, path: string): string {
    match parent
    case None => RootBase(ops, rule, path)
    case Some(b) => ops.join(b, path)
  }

  /** With the parent's resolved path taken from the chain of path texts, both
      agree with `getpath` and `node_getpath` on the full chain. */
  lemma ResolvedByChain(ops: PathOps, rule: SuffixRule, chain: seq<string>)
    requires |chain| > 0
    ensures var parent := if |chain| == 1 then None else Some(NodeGetPath(ops, rule, chain[..|chain| - 1]));
      FileNameOf(ops, parent, chain[|chain| - 1]) == GetPath(ops, rule, chain) &&
      ItemBase(ops, rule, parent, chain[|chain| - 1]) == NodeGetPath(ops, rule, chain)
  {
  }

  /** The texts once the item's code is chosen: `new_num` reserves a fresh code. */
  function Reserved(texts: map<Code, string>, code: Option<Code>, c: Code): map<Code, string> {
    if code.Some? then texts else texts[c := ""]
  }

  /** The code of the item: its own when it has one, else one no text is stored under. */
  predicate CodeChosen(texts: map<Code, string>, code: Option<Code>, c: Code) {
    if code.Some? then c == code.value else c !in texts
  }

  /** What a text parse stores: the file's text, or the error message. */
  function TextOf(env: Env, file: string): string {
    match env.read(file)
    case Some(t) => t
    case None => env.missing(file)
  }

  /** `parse_text` (and `_parse_text`). */
  method ParseText(content: Option<string>, missing: string, code: Code, store: DataDict)
    modifies store
    ensures store.texts == old(store.texts)[code := if content.Some? then content.value else missing]
    ensures store.unsaved == old(store.unsaved) && store.macros == old(store.macros)
  {
    if content.None? {
      store.Set(code, missing);
    } else {
      store.Set(code, content.value);
    }
  }

  // ---------------------------------------------------------------------------
  // The parse list
  // ---------------------------------------------------------------------------

  /** Entry `k` of the parse list lies below an entry parsed before it. */
  predicate Detached(queue: seq<Addr>, k: nat)
    requires k < |queue|
  {
    exists i :: 0 <= i < k && Below(queue[i], queue[k])
  }

  /** `b` lies neither at nor below nor above any entry of the parse list. */
  predicate ApartAll(queue: seq<Addr>, b: Addr) {
    forall k :: 0 <= k < |queue| ==> Apart(queue[k], b)
  }

  /** The children a project item ends with, against the items `orig` rebuilt
      from its document and the parse list `queue`: as many top-level items with
      the same names and paths, and every item away from the parse list as it was
      rebuilt. */
  ghost predicate Grafted(ts: seq<Node>, orig: seq<Node>, queue: seq<Addr>) {
    |ts| == |orig| &&
    (forall i :: 0 <= i < |ts| ==> ts[i].name == orig[i].name && ts[i].path == orig[i].path) &&
    (forall b :: ValidAddr(orig, b) && ApartAll(queue, b) ==> ValidAddr(ts, b) && At(ts, b) == At(orig, b))
  }

  /** The top-level items keep their names and paths. */
  predicate SameTops(ts: seq<Node>, orig: seq<Node>) {
    |ts| == |orig| && forall i :: 0 <= i < |ts| ==> ts[i].name == orig[i].name && ts[i].path == orig[i].path
  }

  /** Every item away from the first `j` entries of the parse list is as rebuilt. */
  ghost predicate Kept(ts: seq<Node>, orig: seq<Node>, queue: seq<Addr>, j: nat)
    requires j <= |queue|
  {
    forall b :: ValidAddr(orig, b) && ApartAll(queue[..j], b) ==> ValidAddr(ts, b) && At(ts, b) == At(orig, b)
  }

  /** Every entry from `j` on that is not detached still addresses an item. */
  predicate Pending(ts: seq<Node>, queue: seq<Addr>, j: nat)
    requires j <= |queue|
  {
    forall k :: j <= k < |queue| && !Detached(queue, k) ==> ValidAddr(ts, queue[k])
  }

  /** Every entry of a parse list addresses a rebuilt item. */
  lemma QueueValid(queued: string -> bool, ds: seq<Desc>)
    ensures var queue := QueueAll(queued, [], ds, 0);
      forall k :: 0 <= k < |queue| ==> ValidAddr(RebuildAll(ds), queue[k])
  {
    var queue := QueueAll(queued, [], ds, 0);
    forall k | 0 <= k < |queue| ensures ValidAddr(RebuildAll(ds), queue[k]) {
      QueueSound(queued, [], ds, 0, queue[k]);
      assert [queue[k][0] - 0] + queue[k][1..] == queue[k];
    }
  }

  /** The depth of the deepest of the first `n` entries that lies above entry
      `k`, or 0 when none does.  Once those entries are parsed, the chain of
      parents of the item at `queue[k]` starts just below that depth. */
  function CutDepth(queue: seq<Addr>, k: nat, n: nat): (r: nat)
    requires n <= k < |queue|
    ensures r == 0 || r < |queue[k]|
    ensures forall i :: 0 <= i < n && Below(queue[i], queue[k]) ==> |queue[i]| <= r
    ensures r == 0 || exists i :: 0 <= i < n && Below(queue[i], queue[k]) && |queue[i]| == r
  {
    if n == 0 then 0
    else
      var d := CutDepth(queue, k, n - 1);
      if Below(queue[n - 1], queue[k]) && |queue[n - 1]| > d then |queue[n - 1]| else d
  }

  /** The resolved path of the parent entry `k` is parsed under, for a project
      item that resolves to `base`.  An entry that is not detached hangs below
      the project item.  A detached one hangs below the direct child of the
      deepest earlier entry above it, which `takeChildren` left without a parent:
      it has no parent when it is that child itself. */
  function EntryParent(ops: PathOps, rule: SuffixRule, base: string, orig: seq<Node>, queue: seq<Addr>, k: nat)
    : Option<string>
    requires k < |queue| && ValidAddr(orig, queue[k])
  {
    var a := queue[k];
    var chain := Chain(orig, a);
    if !Detached(queue, k) then Some(FoldJoin(ops, base, chain[..|a| - 1]))
    else
      var d := CutDepth(queue, k, k);
      if d + 1 == |a| then None else Some(NodeGetPath(ops, rule, chain[d..|a| - 1]))
  }

  /** What the parse of an entry promises about the item it returns, whatever
      the store: the entry's name and path, its own code unless it is a project
      file, and no children when it is a plain text file. */
  predicate Outcome(v: Version, env: Env, parent: Option<string>, item: Node, x: Node) {
    var kind := SuffixOf(RuleOf(v), FileNameOf(env.ops, parent, item.path));
    x.name == item.name && x.path == item.path &&
    (kind != "kmol" ==> x.code == item.code) &&
    (kind != "md" && kind != "kmol" ==> x.children == [])
  }

  /** Every entry is parsed under its parent and returns `parsed[k]`. */
  ghost predicate Outcomes(v: Version, env: Env, base: string, orig: seq<Node>, queue: seq<Addr>, parsed: seq<Node>) {
    |parsed| == |queue| &&
    (forall k :: 0 <= k < |queue| ==> ValidAddr(orig, queue[k])) &&
    forall k :: 0 <= k < |queue| ==>
      Outcome(v, env, EntryParent(env.ops, RuleOf(v), base, orig, queue, k), At(orig, queue[k]), parsed[k])
  }

  /** Entry `k` is not detached, and no entry after it and before `j` lies at
      or above it. */
  predicate Settled(queue: seq<Addr>, k: nat, j: nat)
    requires k < j <= |queue|
  {
    !Detached(queue, k) && forall i :: k < i < j ==> !(queue[i] <= queue[k])
  }

  /** Every settled entry before `j` holds the item its parse returned. */
  ghost predicate Placed(ts: seq<Node>, queue: seq<Addr>, parsed: seq<Node>, j: nat)
    requires j <= |queue| && j <= |parsed|
  {
    forall k :: 0 <= k < j && Settled(queue, k, j) ==> ValidAddr(ts, queue[k]) && At(ts, queue[k]) == parsed[k]
  }

  /** The children a project item ends with after its parse list is done: the
      items away from the list as rebuilt, and every settled entry replaced by
      what its parse returned. */
  ghost predicate Loaded(v: Version, env: Env, base: string, ts: seq<Node>, orig: seq<Node>, queue: seq<Addr>) {
    Grafted(ts, orig, queue) &&
    exists parsed: seq<Node> :: Outcomes(v, env, base, orig, queue, parsed) && Placed(ts, queue, parsed, |queue|)
  }

  /** `for node_item in parse_list: parse(node_item, data)` over the items
      `orig` of a project whose item resolves to `base`. */
  method ParseQueue(v: Version, env: Env, base: string, orig: seq<Node>, queue: seq<Addr>,
                    store: DataDict, fuel: nat)
    returns (ts: seq<Node>, ok: bool, ghost parsed: seq<Node>)
    requires forall k :: 0 <= k < |queue| ==> ValidAddr(orig, queue[k])
    modifies store
    ensures ok ==> Grafted(ts, orig, queue)
    ensures ok ==> Outcomes(v, env, base, orig, queue, parsed) && Placed(ts, queue, parsed, |queue|)
    decreases fuel, 2
  {
    ts := orig;
    ok := true;
    parsed := [];
    var j := 0;
    assert Kept(ts, orig, queue, 0) && Pending(ts, queue, 0);
    while j < |queue|
      invariant j <= |queue| && SameTops(ts, orig) && |parsed| == j
      invariant Kept(ts, orig, queue, j) && Pending(ts, queue, j)
      invariant Placed(ts, queue, parsed, j)
      invariant forall k :: 0 <= k < j ==>
        Outcome(v, env, EntryParent(env.ops, RuleOf(v), base, orig, queue, k), At(orig, queue[k]), parsed[k])
    {
      ghost var x;
      ts, ok, x := ParseEntry(v, env, base, orig, queue, j, ts, parsed, store, fuel);
      if !ok {
        return;
      }
      parsed := parsed + [x];
      j := j + 1;
    }
    KeptAll(ts, orig, queue);
  }

  /** Once every entry is done, the items away from the parse list are as rebuilt. */
  lemma KeptAll(ts: seq<Node>, orig: seq<Node>, queue: seq<Addr>)
    requires SameTops(ts, orig) && Kept(ts, orig, queue, |queue|)
    ensures Grafted(ts, orig, queue)
  {
    assert queue[..|queue|] == queue;
  }

  /** One turn of that loop: entry `j` is parsed with its code kept, under the
      parent `EntryParent` gives.  A detached entry's result is dropped; any
      other replaces the item at its address.  `x` is the parse's result. */
  method ParseEntry(v: Version, env: Env, base: string, orig: seq<Node>, queue: seq<Addr>, j: nat,
                    ts: seq<Node>, ghost parsed: seq<Node>, store: DataDict, fuel: nat)
    returns (ts': seq<Node>, ok: bool, ghost x: Node)
    requires j < |queue| && ValidAddr(orig, queue[j]) && |parsed| == j
    requires SameTops(ts, orig) && Kept(ts, orig, queue, j) && Pending(ts, queue, j)
    requires Placed(ts, queue, parsed, j)
    modifies store
    ensures Outcome(v, env, EntryParent(env.ops, RuleOf(v), base, orig, queue, j), At(orig, queue[j]), x)
    ensures ok ==> SameTops(ts', orig) && Kept(ts', orig, queue, j + 1) && Pending(ts', queue, j + 1)
    ensures ok ==> Placed(ts', queue, parsed + [x], j + 1)
    decreases fuel, 1
  {
    var a := queue[j];
    var item := At(orig, a);
    var parent := EntryParent(env.ops, RuleOf(v), base, orig, queue, j);
    var r, fine, _, _ := Parse(v, env, parent, item.name, item.path, Some(item.code), store, fuel);
    if Detached(queue, j) {
      KeptShrink(ts, orig, queue, j);
      PlacedSkip(ts, queue, parsed, j, r);
      return ts, fine, r;
    }
    GraftStep(ts, orig, queue, j, r);
    PlacedStep(ts, queue, parsed, j, r);
    return ReplaceAt(ts, a, r), fine, r;
  }

  /** A detached entry leaves the settled entries where they were. */
  lemma PlacedSkip(ts: seq<Node>, queue: seq<Addr>, parsed: seq<Node>, j: nat, x: Node)
    requires j < |queue| && |parsed| == j && Detached(queue, j)
    requires Placed(ts, queue, parsed, j)
    ensures Placed(ts, queue, parsed + [x], j + 1)
  {
    forall k | 0 <= k < j + 1 && Settled(queue, k, j + 1)
      ensures ValidAddr(ts, queue[k]) && At(ts, queue[k]) == (parsed + [x])[k]
    {
      SettledShrink(queue, k, j);
    }
  }

  /** A settled entry before `j + 1` is settled before `j`, and entry `j` itself
      is settled only when it is not detached. */
  lemma SettledShrink(queue: seq<Addr>, k: nat, j: nat)
    requires k <= j < |queue| && Settled(queue, k, j + 1)
    ensures k == j ==> !Detached(queue, j)
    ensures k < j ==> Settled(queue, k, j)
  {
  }

  /** Replacing an entry that is not detached places its result and keeps every
      other settled entry, since none of them lies at, above or below it. */
  lemma PlacedStep(ts: seq<Node>, queue: seq<Addr>, parsed: seq<Node>, j: nat, x: Node)
    requires j < |queue| && |parsed| == j && !Detached(queue, j) && ValidAddr(ts, queue[j])
    requires Placed(ts, queue, parsed, j)
    ensures Placed(ReplaceAt(ts, queue[j], x), queue, parsed + [x], j + 1)
  {
    var r := ReplaceAt(ts, queue[j], x);
    forall k | 0 <= k < j + 1 && Settled(queue, k, j + 1)
      ensures ValidAddr(r, queue[k]) && At(r, queue[k]) == (parsed + [x])[k]
    {
      if k == j {
        ReplaceAtRead(ts, queue[j], x);
      } else {
        SettledShrink(queue, k, j);
        assert !(queue[j] <= queue[k]);
        assert !Below(queue[k], queue[j]);
        ReplaceAtApart(ts, queue[j], x, queue[k]);
      }
    }
  }

  /** Skipping a detached entry keeps the loop state: an address apart from the
      first `j + 1` entries is apart from the first `j`. */
  lemma KeptShrink(ts: seq<Node>, orig: seq<Node>, queue: seq<Addr>, j: nat)
    requires j < |queue| && Kept(ts, orig, queue, j) && Pending(ts, queue, j)
    ensures Kept(ts, orig, queue, j + 1) && Pending(ts, queue, j + 1)
  {
    forall b | ValidAddr(orig, b) && ApartAll(queue[..j + 1], b)
      ensures ValidAddr(ts, b) && At(ts, b) == At(orig, b)
    {
      assert forall k :: 0 <= k < j ==> queue[..j][k] == queue[..j + 1][k];
      assert ApartAll(queue[..j], b);
    }
  }

  /** Replacing entry `j`, which is not detached, by an item of the same name and
      path keeps the loop state of `ParseQueue`. */
  lemma GraftStep(ts: seq<Node>, orig: seq<Node>, queue: seq<Addr>, j: nat, x: Node)
    requires j < |queue| && !Detached(queue, j)
    requires ValidAddr(orig, queue[j])
    requires x.name == At(orig, queue[j]).name && x.path == At(orig, queue[j]).path
    requires SameTops(ts, orig) && Kept(ts, orig, queue, j) && Pending(ts, queue, j)
    ensures var r := ReplaceAt(ts, queue[j], x);
      SameTops(r, orig) && Kept(r, orig, queue, j + 1) && Pending(r, queue, j + 1)
  {
    var a := queue[j];
    var r := ReplaceAt(ts, a, x);
    forall i | 0 <= i < |r| ensures r[i].name == orig[i].name && r[i].path == orig[i].path {
      ReplaceAtTop(ts, a, x, i);
      if i == a[0] && |a| == 1 {
        assert At(orig, a) == orig[i];
      }
    }
    forall b | ValidAddr(orig, b) && ApartAll(queue[..j + 1], b)
      ensures ValidAddr(r, b) && At(r, b) == At(orig, b)
    {
      assert forall k :: 0 <= k < j ==> queue[..j][k] == queue[..j + 1][k];
      assert queue[..j + 1][j] == a;
      ReplaceAtApart(ts, a, x, b);
    }
    forall k | j + 1 <= k < |queue| && !Detached(queue, k) ensures ValidAddr(r, queue[k]) {
      assert !Below(queue[j], queue[k]);
      ReplaceAtValid(ts, a, x, queue[k]);
    }
  }

  // ---------------------------------------------------------------------------
  // Project files
  // ---------------------------------------------------------------------------

  /** `_parse_tree` of core/parsers/__init__.py: the YAML document named by the
      item's raw path text; a missing file leaves the item empty. */
  method ParseTreeYaml(env: Env, parent: Option<string>, name: string, path: string, c: Code,
                       store: DataDict, fuel: nat)
    returns (r: Node, ok: bool)
    modifies store
    ensures r.name == name && r.path == path
    ensures env.yaml(path).None? ==>
      ok && r == Node(name, path, c, []) &&
      store.texts == old(store.texts) && store.unsaved == old(store.unsaved) && store.macros == old(store.macros)
    ensures env.yaml(path).Some? && ok ==>
      var p := env.yaml(path).value;
      r.code == p.description && store.unsaved == {} &&
      Loaded(Package, env, ItemBase(env.ops, Complete, parent, path), r.children,
             RebuildAll(p.node), QueueAll(Queued(Complete), [], p.node, 0))
    decreases fuel, 3
  {
    var y := env.yaml(path);
    if y.None? {
      return Node(name, path, c, []), true;
    }
    var p := y.value;
    store.Update(p.data);
    var kids, queue := AddDescNodes([], p.node, store);
    QueueValid(Queued(Complete), p.node);
    var base := ItemBase(env.ops, Complete, parent, path);
    var ts;
    ghost var parsed;
    ts, ok, parsed := ParseQueue(Package, env, base, kids, queue, store, fuel);
    r := Node(name, path, p.description, ts);
    if ok {
      store.SaveAll();
    }
  }

  /** `_parse_tree` of core/parser.py: the XML document named by the item's raw
      path text; a missing file is an uncaught error. */
  method ParseTreeXml(env: Env, parent: Option<string>, name: string, path: string, c: Code,
                      store: DataDict, fuel: nat)
    returns (r: Node, ok: bool)
    modifies store
    ensures r.name == name && r.path == path
    ensures env.xml(path).None? ==> !ok
    ensures env.xml(path).Some? && ok ==>
      var doc := env.xml(path).value;
      r.code == doc.code && store.unsaved == {} &&
      Loaded(Legacy, env, ItemBase(env.ops, Last, parent, path), r.children,
             RebuildAll(ReadDescAll(doc.children)), QueueAll(Queued(Last), [], ReadDescAll(doc.children), 0))
    decreases fuel, 3
  {
    var x := env.xml(path);
    if x.None? {
      return Node(name, path, c, []), false;
    }
    var doc := x.value;
    var kids, queue := XReadRoot(doc, store);
    QueueValid(Queued(Last), ReadDescAll(doc.children));
    var base := ItemBase(env.ops, Last, parent, path);
    var ts;
    ghost var parsed;
    ts, ok, parsed := ParseQueue(Legacy, env, base, kids, queue, store, fuel);
    r := Node(name, path, doc.code, ts);
    if ok {
      store.SaveAll();
    }
  }

  // ---------------------------------------------------------------------------
  // parse
  // ---------------------------------------------------------------------------

  /** `parse(node, data)` for an item named `name` with path text `path` and
      code `code` (None for an empty code column), whose parent resolves to
      `parent`.  `ok` is false when an uncaught error ends the parse: the
      IndexError of an empty Markdown fragment, a missing XML project file, or a
      chain of nested project files longer than `fuel`.  The ghost `c` is the
      code chosen and `items` the Markdown outliner's items. */
  method Parse(v: Version, env: Env, parent: Option<string>, name: string, path: string, code: Option<Code>,
               store: DataDict, fuel: nat)
    returns (r: Node, ok: bool, ghost c: Code, ghost items: seq<Item>)
    modifies store
    ensures r.name == name && r.path == path
    ensures CodeChosen(old(store.texts), code, c)
    ensures var file := FileNameOf(env.ops, parent, path);
      SuffixOf(RuleOf(v), file) == "md" ==>
        r.code == c && r.children == Kids(items, -1, 0) &&
        store.unsaved == old(store.unsaved) && store.macros == old(store.macros) &&
        (env.read(file).None? ==>
          ok && items == [] && store.texts == Reserved(old(store.texts), code, c)[c := env.missing(file)]) &&
        (env.read(file).Some? ==>
          Parsed(Split(env.read(file).value, '\n'), c, items, !ok, Reserved(old(store.texts), code, c), store.texts))
    ensures var file := FileNameOf(env.ops, parent, path);
      SuffixOf(RuleOf(v), file) != "md" && SuffixOf(RuleOf(v), file) != "kmol" ==>
        ok && r == Node(name, path, c, []) &&
        store.texts == Reserved(old(store.texts), code, c)[c := TextOf(env, file)] &&
        store.unsaved == old(store.unsaved) && store.macros == old(store.macros)
    ensures SuffixOf(RuleOf(v), FileNameOf(env.ops, parent, path)) == "kmol" ==>
      (fuel == 0 ==> !ok) &&
      (v.Package? && env.yaml(path).None? ==>
        ok == (fuel > 0) && r.code == c && r.children == [] &&
        store.texts == Reserved(old(store.texts), code, c) &&
        store.unsaved == old(store.unsaved) && store.macros == old(store.macros)) &&
      (v.Package? && env.yaml(path).Some? && ok ==>
        var p := env.yaml(path).value;
        r.code == p.description && store.unsaved == {} &&
        Loaded(v, env, ItemBase(env.ops, Complete, parent, path), r.children,
               RebuildAll(p.node), QueueAll(Queued(Complete), [], p.node, 0))) &&
      (v.Legacy? && env.xml(path).None? ==> !ok) &&
      (v.Legacy? && env.xml(path).Some? && ok ==>
        var doc := env.xml(path).value;
        r.code == doc.code && store.unsaved == {} &&
        Loaded(v, env, ItemBase(env.ops, Last, parent, path), r.children,
               RebuildAll(ReadDescAll(doc.children)), QueueAll(Queued(Last), [], ReadDescAll(doc.children), 0)))
    decreases fuel, 0
  {
    var file := FileNameOf(env.ops, parent, path);
    var kind := SuffixOf(RuleOf(v), file);
    var k;
    if code.Some? {
      k := code.value;
    } else {
      k := store.NewNum();
    }
    c := k;
    items := [];
    assert store.texts == Reserved(old(store.texts), code, c);
    if kind == "md" {
      var its, crashed := ParseMarkdown(env.read(file), env.missing(file), k, store);
      items := its;
      r := Node(name, path, k, Kids(its, -1, 0));
      ok := !crashed;
    } else if kind == "kmol" {
      if fuel == 0 {
        r := Node(name, path, k, []);
        ok := false;
      } else if v.Package? {
        r, ok := ParseTreeYaml(env, parent, name, path, k, store, fuel - 1);
      } else {
        r, ok := ParseTreeXml(env, parent, name, path, k, store, fuel - 1);
      }
    } else {
      ParseText(env.read(file), env.missing(file), k, store);
      r := Node(name, path, k, []);
      ok := true;
    }
  }

  // ---------------------------------------------------------------------------
  // Detached entries
  // ---------------------------------------------------------------------------

  /** In a list of records that has nothing below a queued record, a queued
      item has no children. */
  lemma {:induction false} LeafAt(queued: string -> bool, ds: seq<Desc>, b: Addr)
    requires QueuedLeavesAll(queued, ds) && ValidAddr(RebuildAll(ds), b)
    requires queued(At(RebuildAll(ds), b).path)
    ensures At(RebuildAll(ds), b).children == []
    decreases |b|, |ds|
  {
    var ts := RebuildAll(ds);
    assert ts == [Rebuild(ds[0])] + RebuildAll(ds[1..]);
    if b[0] > 0 {
      var t := [b[0] - 1] + b[1..];
      assert b == [t[0] + 1] + t[1..];
      assert t[1..] == b[1..];
      AddrShift(Rebuild(ds[0]), RebuildAll(ds[1..]), t[0], t[1..]);
      LeafAt(queued, ds[1..], t);
    } else if |b| > 1 {
      AddrInFirst(ts, b[1..]);
      assert b == [0] + b[1..];
      LeafAt(queued, ds[0].sub, b[1..]);
    }
  }

  /** The XML reader never queues an item below another queued one, so no entry
      of its parse list is detached. */
  lemma XmlNeverDetached(es: seq<Element>)
    ensures var queue := QueueAll(Queued(Last), [], ReadDescAll(es), 0);
      forall k :: 0 <= k < |queue| ==> !Detached(queue, k)
  {
    var ds := ReadDescAll(es);
    var queue := QueueAll(Queued(Last), [], ds, 0);
    ReadLeaves(es);
    forall k, i | 0 <= i < k < |queue| ensures !Below(queue[i], queue[k]) {
      QueueSound(Queued(Last), [], ds, 0, queue[i]);
      QueueSound(Queued(Last), [], ds, 0, queue[k]);
      assert [queue[i][0] - 0] + queue[i][1..] == queue[i];
      assert [queue[k][0] - 0] + queue[k][1..] == queue[k];
      LeafAt(Queued(Last), ds, queue[i]);
      if Below(queue[i], queue[k]) {
        BelowHasChildren(RebuildAll(ds), queue[i], queue[k]);
      }
    }
  }

  /** A one-letter Markdown file name has a suffix, so the YAML reader queues it. */
  lemma MdQueued(x: char)
    requires x != '.' && x != '/'
    ensures CompleteSuffix([x] + ".md") == "md"
    ensures Queued(Complete)([x] + ".md")
  {
    var p := [x] + ".md";
    assert '/' !in p by {
      assert forall k :: 0 <= k < |p| ==> p[k] != '/';
    }
    FileNameNoSlash(p);
    assert FirstIndex(p, '.') == 1;
  }

  /** A queued record with one queued record below it gives two entries, the
      second below the first. */
  lemma QueueNested(queued: string -> bool, d: Desc)
    requires queued(d.path) && |d.sub| == 1 && queued(d.sub[0].path) && d.sub[0].sub == []
    ensures QueueAll(queued, [], [d], 0) == [[0], [0, 0]]
  {
    var e := d.sub[0];
    assert QueueOf(queued, [0, 0], e) == [[0, 0]] by {
      assert QueueAll(queued, [0, 0], [], 0) == [];
    }
    ReadOne(queued, map[], [0], e, 0);
    assert [0] + [0] == [0, 0];
    assert d.sub == [e];
    ReadOne(queued, map[], [], d, 0);
    assert [] + [0] == [0];
  }

  /** The YAML reader queues file items below other file items (`a.md` with
      `b.md` below it, see `MdQueued`): the entry of the inner one is detached. */
  lemma YamlDetaches(d: Desc)
    requires Queued(Complete)(d.path) && |d.sub| == 1
    requires Queued(Complete)(d.sub[0].path) && d.sub[0].sub == []
    ensures var queue := QueueAll(Queued(Complete), [], [d], 0);
      |queue| == 2 && Detached(queue, 1)
  {
    QueueNested(Queued(Complete), d);
    var queue: seq<Addr> := [[0], [0, 0]];
    assert Below(queue[0], queue[1]);
  }

  /** A detached entry that is a direct child of the earlier entry above it is
      parsed as a top-level item: `takeChildren` left it without a parent. */
  lemma DirectChildRoot(ops: PathOps, rule: SuffixRule, base: string, orig: seq<Node>)
    requires ValidAddr(orig, [0, 0])
    ensures EntryParent(ops, rule, base, orig, [[0], [0, 0]], 1) == None
  {
    var queue: seq<Addr> := [[0], [0, 0]];
    assert Below(queue[0], queue[1]);
    assert CutDepth(queue, 1, 1) == 1;
  }

  /** A detached entry two levels below the earlier entry above it keeps the
      direct child between them as its parent: `a.md` holding `sub` holding
      `b.txt` reads `b.txt` from the absolute form of `sub` joined to `b.txt`. */
  lemma GrandchildUnderChild(ops: PathOps, base: string, orig: seq<Node>)
    requires ValidAddr(orig, [0, 0, 0]) && orig[0].children[0].path == "sub"
    ensures var parent := EntryParent(ops, Complete, base, orig, [[0], [0, 0, 0]], 1);
      parent == Some("sub") &&
      FileNameOf(ops, parent, At(orig, [0, 0, 0]).path) == ops.absolute(ops.join("sub", At(orig, [0, 0, 0]).path))
  {
    var queue: seq<Addr> := [[0], [0, 0, 0]];
    assert Below(queue[0], queue[1]);
    assert CutDepth(queue, 1, 1) == 1;
    var kids := orig[0].children;
    assert Chain(orig, [0, 0, 0]) == [orig[0].path] + Chain(kids, [0, 0]);
    assert Chain(kids, [0, 0]) == ["sub"] + Chain(kids[0].children, [0]);
    assert Chain(orig, queue[1])[1..2] == ["sub"];
    PlainName(ops, "sub");
  }

  /** A name without '/' or '.' has no suffix, so it resolves as itself. */
  lemma PlainName(ops: PathOps, p: string)
    requires p != [] && forall k :: 0 <= k < |p| ==> p[k] != '/' && p[k] != '.'
    ensures CompleteSuffix(p) == [] && NodeGetPath(ops, Complete, [p]) == p
  {
    assert '/' !in p && '.' !in p;
    FileNameNoSlash(p);
  }

}
