/** The YAML project codec of core/parsers/__init__.py (`_write_tree` and the
    rebuild half of `_parse_tree`), over the descriptor the YAML document holds
    rather than over YAML text.  A project item's children are written as nested
    `{code, name, path, sub}` records; the texts of the project item and of every
    item that no supported file backs are embedded in a `data` table. */
module Codec {
  import opened Strs
  import opened Store
  import opened Outline
  import opened Paths

  /** A `NodeDict`. */
  datatype Desc = Desc(code: Code, name: string, path: string, sub: seq<Desc>)

  /** The YAML document: `description` (the project item's code), `node` (its
      described children) and `data` (the embedded texts). */
  datatype Project = Project(description: Code, node: seq<Desc>, data: map<Code, string>)

  /** `_SUPPORT_FILE_SUFFIX` (the same tuple as `SUPPORT_FILE_SUFFIX` of core/parser.py). */
  predicate Supported(suffix: string) {
    suffix == "kmol" || suffix == "md" || suffix == "html" || suffix == "py" || suffix == "tex" || suffix == "txt"
  }

  // ---------------------------------------------------------------------------
  // Write side
  // ---------------------------------------------------------------------------

  /** The item `n`, whose parent resolves to `base` (`node_getpath(node.parent())`),
      names an existing file, so its children are not written. */
  predicate FileBacked(ops: PathOps, base: string, n: Node) {
    ops.isFile(ops.join(base, n.path))
  }

  /** The record `add_node` writes for `n`. */
  function Describe(ops: PathOps, base: string, n: Node): Desc
    decreases n, 1
  {
    Desc(n.code, n.name, n.path,
         if FileBacked(ops, base, n) then [] else DescribeAll(ops, ops.join(base, n.path), n.children))
  }

  function DescribeAll(ops: PathOps, base: string, ns: seq<Node>): (r: seq<Desc>)
    ensures |r| == |ns|
    decreases ns, 0
  {
    if ns == [] then [] else [Describe(ops, base, ns[0])] + DescribeAll(ops, base, ns[1..])
  }

  /** The codes `add_node` appends to `my_codes` for `n`, in order: its own when its
      path has no supported suffix, then those of its written children. */
  function Embedded(ops: PathOps, base: string, n: Node): seq<Code>
    decreases n, 1
  {
    (if Supported(FileSuffix(n.path)) then [] else [n.code]) +
    (if FileBacked(ops, base, n) then [] else EmbeddedAll(ops, ops.join(base, n.path), n.children))
  }

  function EmbeddedAll(ops: PathOps, base: string, ns: seq<Node>): seq<Code>
    decreases ns, 0
  {
    if ns == [] then [] else Embedded(ops, base, ns[0]) + EmbeddedAll(ops, base, ns[1..])
  }

  lemma {:induction false} DescribeAllAppend(ops: PathOps, base: string, a: seq<Node>, b: seq<Node>)
    ensures DescribeAll(ops, base, a + b) == DescribeAll(ops, base, a) + DescribeAll(ops, base, b)
    ensures EmbeddedAll(ops, base, a + b) == EmbeddedAll(ops, base, a) + EmbeddedAll(ops, base, b)
    decreases |a|
  {
    if a == [] {
      assert a + b == b;
    } else {
      assert (a + b)[0] == a[0] && (a + b)[1..] == a[1..] + b;
      DescribeAllAppend(ops, base, a[1..], b);
    }
  }

  lemma DescribeAllOne(ops: PathOps, base: string, n: Node)
    ensures DescribeAll(ops, base, [n]) == [Describe(ops, base, n)]
    ensures EmbeddedAll(ops, base, [n]) == Embedded(ops, base, n)
  {
    assert [n][1..] == [];
  }

  /** `add_node` of `_write_tree`: the record of `n` and the codes it embeds. */
  method AddNode(ops: PathOps, base: string, n: Node) returns (d: Desc, codes: seq<Code>)
    ensures d == Describe(ops, base, n)
    ensures codes == Embedded(ops, base, n)
    decreases n, 1
  {
    codes := [];
    if !Supported(FileSuffix(n.path)) {
      codes := codes + [n.code];
    }
    if ops.isFile(ops.join(base, n.path)) {
      return Desc(n.code, n.name, n.path, []), codes;
    }
    var sub, more := AddNodes(ops, ops.join(base, n.path), n.children);
    d := Desc(n.code, n.name, n.path, sub);
    codes := codes + more;
  }

  /** The loop `for j in range(node.childCount())` that records every child in turn. */
  method AddNodes(ops: PathOps, base: string, ns: seq<Node>) returns (ds: seq<Desc>, codes: seq<Code>)
    ensures ds == DescribeAll(ops, base, ns)
    ensures codes == EmbeddedAll(ops, base, ns)
    decreases ns, 0
  {
    ds := [];
    codes := [];
    var j := 0;
    while j < |ns|
      invariant j <= |ns|
      invariant ds == DescribeAll(ops, base, ns[..j])
      invariant codes == EmbeddedAll(ops, base, ns[..j])
    {
      var d, more := AddNode(ops, base, ns[j]);
      DescribeAllAppend(ops, base, ns[..j], [ns[j]]);
      DescribeAllOne(ops, base, ns[j]);
      assert ns[..j + 1] == ns[..j] + [ns[j]];
      ds := ds + [d];
      codes := codes + more;
      j := j + 1;
    }
    assert ns[..j] == ns;
  }

  /** The texts embedded for the codes `codes`, read from `texts` (as `data[code]`). */
  function DataOf(texts: map<Code, string>, codes: seq<Code>): (m: map<Code, string>)
    ensures forall c :: c in m <==> c in codes
    ensures forall c :: c in m ==> m[c] == Lookup(texts, c)
  {
    map c | c in codes :: Lookup(texts, c)
  }

  /** Reading one more code adds its text to the data. */
  lemma DataOfSnoc(texts: map<Code, string>, cs: seq<Code>, c: Code)
    ensures DataOf(texts, cs + [c]) == DataOf(texts, cs)[c := Lookup(texts, c)]
  {
    var l, r := DataOf(texts, cs + [c]), DataOf(texts, cs)[c := Lookup(texts, c)];
    assert forall d :: d in l <==> d in r;
  }

  /** What `_write_tree` writes for the project item `root`, which resolves to
      `base` (`node_getpath(root_node)`, the directory of a top-level project file). */
  function ProjectOf(ops: PathOps, base: string, root: Node, texts: map<Code, string>): Project {
    Project(root.code, DescribeAll(ops, base, root.children),
            DataOf(texts, [root.code] + EmbeddedAll(ops, base, root.children)))
  }

  /** The dictionary `{root_code: data[root_code]}` extended, code by code, with
      `data[code]` for every embedded code. */
  method ReadData(store: DataDict, first: Code, codes: seq<Code>) returns (data: map<Code, string>)
    ensures data == DataOf(store.texts, [first] + codes)
  {
    data := map[first := store.Get(first)];
    assert [first] + codes[..0] == [] + [first];
    DataOfSnoc(store.texts, [], first);
    var j := 0;
    while j < |codes|
      invariant j <= |codes|
      invariant data == DataOf(store.texts, [first] + codes[..j])
    {
      assert [first] + codes[..j + 1] == ([first] + codes[..j]) + [codes[j]];
      DataOfSnoc(store.texts, [first] + codes[..j], codes[j]);
      data := data[codes[j] := store.Get(codes[j])];
      j := j + 1;
    }
    assert codes[..j] == codes;
  }

  /** `_write_tree(proj_name, root_node, data)`: the document to write; every code
      is marked saved afterwards. */
  method WriteTree(ops: PathOps, base: string, root: Node, store: DataDict) returns (p: Project)
    modifies store
    ensures p == ProjectOf(ops, base, root, old(store.texts))
    ensures store.texts == old(store.texts) && store.macros == old(store.macros)
    ensures store.unsaved == {}
  {
    var nodes, codes := AddNodes(ops, base, root.children);
    var data := ReadData(store, root.code, codes);
    store.SaveAll();
    p := Project(root.code, nodes, data);
  }

  // ---------------------------------------------------------------------------
  // What the written document says
  // ---------------------------------------------------------------------------

  /** The codes a reader finds embedded-worthy in a described forest: those of the
      records, in preorder, whose path has no supported suffix. */
  function UnbackedCodes(d: Desc): seq<Code>
    decreases d, 1
  {
    (if Supported(FileSuffix(d.path)) then [] else [d.code]) + UnbackedCodesAll(d.sub)
  }

  function UnbackedCodesAll(ds: seq<Desc>): seq<Code>
    decreases ds, 0
  {
    if ds == [] then [] else UnbackedCodes(ds[0]) + UnbackedCodesAll(ds[1..])
  }

  /** The embedded codes are exactly those of the written records whose path has
      no supported suffix, in the order of the records. */
  lemma {:induction false} EmbeddedFromDocument(ops: PathOps, base: string, ns: seq<Node>)
    ensures EmbeddedAll(ops, base, ns) == UnbackedCodesAll(DescribeAll(ops, base, ns))
    decreases ns, 0
  {
    if ns != [] {
      EmbeddedFromDocumentOne(ops, base, ns[0]);
      EmbeddedFromDocument(ops, base, ns[1..]);
    }
  }

  lemma {:induction false} EmbeddedFromDocumentOne(ops: PathOps, base: string, n: Node)
    ensures Embedded(ops, base, n) == UnbackedCodes(Describe(ops, base, n))
    decreases n, 1
  {
    if !FileBacked(ops, base, n) {
      EmbeddedFromDocument(ops, ops.join(base, n.path), n.children);
    }
  }

  /** The embedded texts are those of the project item and of the unbacked
      records, as the store held them. */
  lemma ProjectData(ops: PathOps, base: string, root: Node, texts: map<Code, string>, c: Code)
    ensures var p := ProjectOf(ops, base, root, texts);
      p.description == root.code &&
      (c in p.data <==> c == root.code || c in UnbackedCodesAll(p.node)) &&
      (c in p.data ==> p.data[c] == Lookup(texts, c))
  {
    EmbeddedFromDocument(ops, base, root.children);
  }

  /** Reading a written project file back (`data.update(yml_data['data'])`)
      restores the project item's text and every embedded text. */
  lemma YamlRestoresRoot(ops: PathOps, base: string, root: Node, texts: map<Code, string>,
                         t: map<Code, string>, c: Code)
    requires c == root.code || c in EmbeddedAll(ops, base, root.children)
    ensures var after := t + ProjectOf(ops, base, root, texts).data;
      c in after && after[c] == Lookup(texts, c)
  {
  }

  // ---------------------------------------------------------------------------
  // Read side and the round trip
  // ---------------------------------------------------------------------------

  /** The item the rebuild makes from a record (`QTreeItem(name, path, code)` with
      the rebuilt records below it). */
  function Rebuild(d: Desc): Node
    decreases d, 1
  {
    Node(d.name, d.path, d.code, RebuildAll(d.sub))
  }

  function RebuildAll(ds: seq<Desc>): (r: seq<Node>)
    ensures |r| == |ds|
    decreases ds, 0
  {
    if ds == [] then [] else [Rebuild(ds[0])] + RebuildAll(ds[1..])
  }

  lemma {:induction false} RebuildAllAppend(a: seq<Desc>, b: seq<Desc>)
    ensures RebuildAll(a + b) == RebuildAll(a) + RebuildAll(b)
    decreases |a|
  {
    if a == [] {
      assert a + b == b;
    } else {
      assert (a + b)[0] == a[0] && (a + b)[1..] == a[1..] + b;
      RebuildAllAppend(a[1..], b);
    }
  }

  /** The tree as written: every item that names an existing file loses its children. */
  function Prune(ops: PathOps, base: string, n: Node): Node
    decreases n, 1
  {
    n.(children := if FileBacked(ops, base, n) then [] else PruneAll(ops, ops.join(base, n.path), n.children))
  }

  function PruneAll(ops: PathOps, base: string, ns: seq<Node>): (r: seq<Node>)
    ensures |r| == |ns|
    decreases ns, 0
  {
    if ns == [] then [] else [Prune(ops, base, ns[0])] + PruneAll(ops, base, ns[1..])
  }

  /** Rebuilding the written records gives back the tree with the children of
      file-backed items dropped. */
  lemma {:induction false} RebuildDescribe(ops: PathOps, base: string, ns: seq<Node>)
    ensures RebuildAll(DescribeAll(ops, base, ns)) == PruneAll(ops, base, ns)
    decreases ns, 0
  {
    if ns != [] {
      RebuildDescribeOne(ops, base, ns[0]);
      RebuildDescribe(ops, base, ns[1..]);
    }
  }

  lemma {:induction false} RebuildDescribeOne(ops: PathOps, base: string, n: Node)
    ensures Rebuild(Describe(ops, base, n)) == Prune(ops, base, n)
    decreases n, 1
  {
    if !FileBacked(ops, base, n) {
      RebuildDescribe(ops, ops.join(base, n.path), n.children);
    }
  }

  /** Without file-backed items the rebuild gives the tree back unchanged. */
  lemma {:induction false} PruneNothing(ops: PathOps, base: string, ns: seq<Node>)
    requires NoneBacked(ops, base, ns)
    ensures PruneAll(ops, base, ns) == ns
    decreases ns, 0
  {
    if ns != [] {
      var n := ns[0];
      PruneNothing(ops, ops.join(base, n.path), n.children);
      PruneNothing(ops, base, ns[1..]);
      assert ns == [n] + ns[1..];
    }
  }

  /** No item of the forest names an existing file. */
  predicate NoneBacked(ops: PathOps, base: string, ns: seq<Node>)
    decreases ns, 0
  {
    ns != [] ==>
      !FileBacked(ops, base, ns[0]) &&
      NoneBacked(ops, ops.join(base, ns[0].path), ns[0].children) &&
      NoneBacked(ops, base, ns[1..])
  }

  /** The macro table after the rebuild: every record whose name starts with '@'
      binds the rest of its name to its code, in preorder (a later record wins). */
  function AddMacros(m: map<string, Code>, d: Desc): map<string, Code>
    decreases d, 1
  {
    AddMacrosAll(if StartsWith(d.name, "@") then m[d.name[1..] := d.code] else m, d.sub)
  }

  function AddMacrosAll(m: map<string, Code>, ds: seq<Desc>): map<string, Code>
    decreases ds, 0
  {
    if ds == [] then m else AddMacrosAll(AddMacros(m, ds[0]), ds[1..])
  }

  /** The records of a forest in preorder. */
  function Flat(d: Desc): (r: seq<Desc>)
    ensures |r| > 0 && r[0] == d
    decreases d, 1
  {
    [d] + FlatAll(d.sub)
  }

  function FlatAll(ds: seq<Desc>): seq<Desc>
    decreases ds, 0
  {
    if ds == [] then [] else Flat(ds[0]) + FlatAll(ds[1..])
  }

  /** Reference definition: bind the '@' names of a list of records one by one. */
  function BindAll(m: map<string, Code>, ds: seq<Desc>): map<string, Code>
    decreases |ds|
  {
    if ds == [] then m
    else BindAll(if StartsWith(ds[0].name, "@") then m[ds[0].name[1..] := ds[0].code] else m, ds[1..])
  }

  lemma {:induction false} BindAllAppend(m: map<string, Code>, a: seq<Desc>, b: seq<Desc>)
    ensures BindAll(m, a + b) == BindAll(BindAll(m, a), b)
    decreases |a|
  {
    if a == [] {
      assert a + b == b;
    } else {
      assert (a + b)[0] == a[0] && (a + b)[1..] == a[1..] + b;
      BindAllAppend(if StartsWith(a[0].name, "@") then m[a[0].name[1..] := a[0].code] else m, a[1..], b);
    }
  }

  /** The recursive registration binds the names of the preorder list in order. */
  lemma {:induction false} AddMacrosFlat(m: map<string, Code>, ds: seq<Desc>)
    ensures AddMacrosAll(m, ds) == BindAll(m, FlatAll(ds))
    decreases ds, 0
  {
    if ds != [] {
      AddMacrosFlatOne(m, ds[0]);
      AddMacrosFlat(AddMacros(m, ds[0]), ds[1..]);
      BindAllAppend(m, Flat(ds[0]), FlatAll(ds[1..]));
    }
  }

  lemma {:induction false} AddMacrosFlatOne(m: map<string, Code>, d: Desc)
    ensures AddMacros(m, d) == BindAll(m, Flat(d))
    decreases d, 1
  {
    var m1 := if StartsWith(d.name, "@") then m[d.name[1..] := d.code] else m;
    AddMacrosFlat(m1, d.sub);
    assert Flat(d)[1..] == FlatAll(d.sub);
  }

  /** Record `d` binds the macro name `k`. */
  predicate Binds(d: Desc, k: string) {
    StartsWith(d.name, "@") && d.name[1..] == k
  }

  /** A name that no '@' record of the list carries keeps its binding. */
  lemma {:induction false} BindAllUntouched(m: map<string, Code>, ds: seq<Desc>, k: string)
    requires forall i :: 0 <= i < |ds| ==> !Binds(ds[i], k)
    ensures k in BindAll(m, ds) <==> k in m
    ensures k in m ==> BindAll(m, ds)[k] == m[k]
    decreases |ds|
  {
    if ds != [] {
      assert forall i :: 0 <= i < |ds| - 1 ==> ds[1..][i] == ds[i + 1];
      BindAllUntouched(if StartsWith(ds[0].name, "@") then m[ds[0].name[1..] := ds[0].code] else m, ds[1..], k);
    }
  }

  /** A name that '@' records carry is bound to the code of the last of them. */
  lemma BindAllLast(m: map<string, Code>, ds: seq<Desc>, k: string, i: nat)
    requires i < |ds| && Binds(ds[i], k)
    requires forall j :: i < j < |ds| ==> !Binds(ds[j], k)
    ensures k in BindAll(m, ds) && BindAll(m, ds)[k] == ds[i].code
  {
    assert ds == ds[..i] + [ds[i]] + ds[i + 1..];
    BindAllAppend(m, ds[..i] + [ds[i]], ds[i + 1..]);
    BindAllAppend(m, ds[..i], [ds[i]]);
    var m1 := BindAll(BindAll(m, ds[..i]), [ds[i]]);
    assert k in m1 && m1[k] == ds[i].code;
    assert forall j :: i < j < |ds| ==> ds[i + 1..][j - i - 1] == ds[j];
    BindAllUntouched(m1, ds[i + 1..], k);
  }

  /** The test that puts a record on the parse list: its path has a suffix under `rule`. */
  function Queued(rule: SuffixRule): string -> bool {
    p => SuffixOf(rule, p) != ""
  }

  /** The addresses (below the project item) of the records whose path passes
      `queued`, in preorder: the parse list. */
  function QueueOf(queued: string -> bool, at: Addr, d: Desc): seq<Addr>
    decreases d, 1
  {
    (if queued(d.path) then [at] else []) + QueueAll(queued, at, d.sub, 0)
  }

  function QueueAll(queued: string -> bool, at: Addr, ds: seq<Desc>, i: nat): seq<Addr>
    decreases ds, 0
  {
    if ds == [] then [] else QueueOf(queued, at + [i], ds[0]) + QueueAll(queued, at, ds[1..], i + 1)
  }

  /** Every entry of a parse list addresses a rebuilt item whose path has a suffix. */
  lemma {:induction false} QueueSound(queued: string -> bool, at: Addr, ds: seq<Desc>, i: nat, a: Addr)
    requires a in QueueAll(queued, at, ds, i)
    ensures |a| > |at| && a[..|at|] == at && a[|at|] >= i
    ensures ValidAddr(RebuildAll(ds), [a[|at|] - i] + a[|at| + 1..])
    ensures queued(At(RebuildAll(ds), [a[|at|] - i] + a[|at| + 1..]).path)
    decreases ds, 0
  {
    var ts := RebuildAll(ds);
    assert ts == [Rebuild(ds[0])] + RebuildAll(ds[1..]);
    if a in QueueOf(queued, at + [i], ds[0]) {
      QueueSoundOne(queued, at + [i], ds[0], a);
      var tail := a[|at| + 1..];
      assert a[..|at| + 1][..|at|] == at;
      assert a[|at|] == a[..|at| + 1][|at|] == i;
      if |a| == |at| + 1 {
        assert [a[|at|] - i] + tail == [0];
      } else {
        assert a[|at| + 1..] == tail;
        AddrInFirst(ts, tail);
        assert [a[|at|] - i] + tail == [0] + tail;
      }
    } else {
      QueueSound(queued, at, ds[1..], i + 1, a);
      var tail := a[|at| + 1..];
      AddrShift(Rebuild(ds[0]), RebuildAll(ds[1..]), a[|at|] - i - 1, tail);
      assert [a[|at|] - i - 1 + 1] + tail == [a[|at|] - i] + tail;
    }
  }

  lemma {:induction false} QueueSoundOne(queued: string -> bool, at: Addr, d: Desc, a: Addr)
    requires a in QueueOf(queued, at, d)
    ensures |a| >= |at| && a[..|at|] == at
    ensures a == at ==> queued(d.path)
    ensures |a| > |at| ==>
      ValidAddr(Rebuild(d).children, a[|at|..]) && queued(At(Rebuild(d).children, a[|at|..]).path)
    decreases d, 1
  {
    if a !in (if queued(d.path) then [at] else []) {
      QueueSound(queued, at, d.sub, 0, a);
      assert [a[|at|] - 0] + a[|at| + 1..] == a[|at|..];
    }
  }

  lemma QueueAllCons(queued: string -> bool, at: Addr, ds: seq<Desc>, i: nat)
    requires ds != []
    ensures QueueAll(queued, at, ds, i) == QueueOf(queued, at + [i], ds[0]) + QueueAll(queued, at, ds[1..], i + 1)
  {
  }

  lemma {:induction false} QueueAllAppend(queued: string -> bool, at: Addr, a: seq<Desc>, b: seq<Desc>, i: nat)
    ensures QueueAll(queued, at, a + b, i) == QueueAll(queued, at, a, i) + QueueAll(queued, at, b, i + |a|)
    decreases |a|
  {
    if a == [] {
      assert a + b == b;
    } else {
      assert (a + b)[0] == a[0] && (a + b)[1..] == a[1..] + b;
      QueueAllAppend(queued, at, a[1..], b, i + 1);
      QueueAllCons(queued, at, a + b, i);
      QueueAllCons(queued, at, a, i);
    }
  }

  lemma {:induction false} AddMacrosAllAppend(m: map<string, Code>, a: seq<Desc>, b: seq<Desc>)
    ensures AddMacrosAll(m, a + b) == AddMacrosAll(AddMacrosAll(m, a), b)
    decreases |a|
  {
    if a == [] {
      assert a + b == b;
    } else {
      assert (a + b)[0] == a[0] && (a + b)[1..] == a[1..] + b;
      AddMacrosAllAppend(AddMacros(m, a[0]), a[1..], b);
    }
  }

  lemma ReadOne(queued: string -> bool, m: map<string, Code>, at: Addr, d: Desc, i: nat)
    ensures RebuildAll([d]) == [Rebuild(d)]
    ensures QueueAll(queued, at, [d], i) == QueueOf(queued, at + [i], d)
    ensures AddMacrosAll(m, [d]) == AddMacros(m, d)
  {
    assert [d][1..] == [];
  }

  /** `add_node` of `_parse_tree`: the item rebuilt from record `d` (at address
      `at` below the project item), its '@' name registered as a macro, and the
      addresses it adds to the parse list. */
  method AddDescNode(at: Addr, d: Desc, store: DataDict) returns (n: Node, queue: seq<Addr>)
    modifies store
    ensures n == Rebuild(d)
    ensures queue == QueueOf(Queued(Complete), at, d)
    ensures store.macros == AddMacros(old(store.macros), d)
    ensures store.texts == old(store.texts) && store.unsaved == old(store.unsaved)
    decreases d, 1
  {
    if StartsWith(d.name, "@") {
      store.AddMacro(d.name[1..], d.code);
    }
    queue := if Queued(Complete)(d.path) then [at] else [];
    var kids, more := AddDescNodes(at, d.sub, store);
    n := Node(d.name, d.path, d.code, kids);
    queue := queue + more;
  }

  /** The records of one `sub` list (or of `node`), added in order. */
  method AddDescNodes(at: Addr, ds: seq<Desc>, store: DataDict) returns (ns: seq<Node>, queue: seq<Addr>)
    modifies store
    ensures ns == RebuildAll(ds)
    ensures queue == QueueAll(Queued(Complete), at, ds, 0)
    ensures store.macros == AddMacrosAll(old(store.macros), ds)
    ensures store.texts == old(store.texts) && store.unsaved == old(store.unsaved)
    decreases ds, 0
  {
    ns := [];
    queue := [];
    var j := 0;
    while j < |ds|
      invariant j <= |ds|
      invariant ns == RebuildAll(ds[..j])
      invariant queue == QueueAll(Queued(Complete), at, ds[..j], 0)
      invariant store.macros == AddMacrosAll(old(store.macros), ds[..j])
      invariant store.texts == old(store.texts) && store.unsaved == old(store.unsaved)
    {
      ghost var m := store.macros;
      var n, more := AddDescNode(at + [j], ds[j], store);
      assert ds[..j + 1] == ds[..j] + [ds[j]];
      RebuildAllAppend(ds[..j], [ds[j]]);
      QueueAllAppend(Queued(Complete), at, ds[..j], [ds[j]], 0);
      AddMacrosAllAppend(old(store.macros), ds[..j], [ds[j]]);
      ReadOne(Queued(Complete), m, at, ds[j], j);
      ns := ns + [n];
      queue := queue + more;
      j := j + 1;
    }
    assert ds[..j] == ds;
  }
}
