/** The XML project codec of the older module core/parser.py (`_write_tree` and
    the rebuild half of `_parse_tree`), over the element tree rather than XML text.
    A project file holds one `node` element per described item, nested like the
    YAML records, followed by a `data-structure` element with the embedded texts.
    Unlike the YAML codec, the codes embedded are those of the items that no
    existing file backs, whatever their suffix, and never the project item's own. */
module XmlCodec {
  import opened Strs
  import opened Store
  import opened Outline
  import opened Paths
  import opened Codec

  /** A child element of `kmolroot` or of a `node` element: a `node` with its
      `name`, `path` and `code` attributes, a `data-structure` with its `data`
      entries (code and text), or an element of any other tag. */
  datatype Element =
    | NodeElem(name: string, path: string, code: Code, children: seq<Element>)
    | DataStructure(entries: map<Code, string>)
    | OtherElem

  /** The `kmolroot` element: its `code` attribute and its children in order. */
  datatype XmlRoot = XmlRoot(code: Code, children: seq<Element>)

  // ---------------------------------------------------------------------------
  // Write side
  // ---------------------------------------------------------------------------

  /** The `node` element written for a record: XML nests the same records as YAML. */
  function ToElem(d: Desc): Element
    decreases d, 1
  {
    NodeElem(d.name, d.path, d.code, ToElemAll(d.sub))
  }

  function ToElemAll(ds: seq<Desc>): (r: seq<Element>)
    ensures |r| == |ds|
    decreases ds, 0
  {
    if ds == [] then [] else [ToElem(ds[0])] + ToElemAll(ds[1..])
  }

  /** The codes `add_node` puts in `codes` for `n` (whose parent resolves to `base`):
      none when `n` names an existing file, else its own and those below it. */
  function XCodes(ops: PathOps, base: string, n: Node): set<Code>
    decreases n, 1
  {
    if FileBacked(ops, base, n) then {}
    else {n.code} + XCodesAll(ops, ops.join(base, n.path), n.children)
  }

  function XCodesAll(ops: PathOps, base: string, ns: seq<Node>): set<Code>
    decreases ns, 0
  {
    if ns == [] then {} else XCodes(ops, base, ns[0]) + XCodesAll(ops, base, ns[1..])
  }

  /** The `data` entries written: every stored text whose code was collected. */
  function Entries(texts: map<Code, string>, codes: set<Code>): map<Code, string> {
    map c | c in texts && c in codes :: texts[c]
  }

  /** The document `_write_tree` writes for the project item `root`, which
      resolves to `base` (`_getpath(root_node)`). */
  function XmlOf(ops: PathOps, base: string, root: Node, texts: map<Code, string>): XmlRoot {
    XmlRoot(root.code, ToElemAll(DescribeAll(ops, base, root.children)) +
                       [DataStructure(Entries(texts, XCodesAll(ops, base, root.children)))])
  }

  lemma {:induction false} XAppend(ops: PathOps, base: string, a: seq<Node>, b: seq<Node>)
    ensures XCodesAll(ops, base, a + b) == XCodesAll(ops, base, a) + XCodesAll(ops, base, b)
    decreases |a|
  {
    if a == [] {
      assert a + b == b;
    } else {
      assert (a + b)[0] == a[0] && (a + b)[1..] == a[1..] + b;
      XAppend(ops, base, a[1..], b);
    }
  }

  lemma {:induction false} ToElemAllAppend(a: seq<Desc>, b: seq<Desc>)
    ensures ToElemAll(a + b) == ToElemAll(a) + ToElemAll(b)
    decreases |a|
  {
    if a == [] {
      assert a + b == b;
    } else {
      assert (a + b)[0] == a[0] && (a + b)[1..] == a[1..] + b;
      ToElemAllAppend(a[1..], b);
    }
  }

  lemma XOne(ops: PathOps, base: string, n: Node, d: Desc)
    ensures XCodesAll(ops, base, [n]) == XCodes(ops, base, n)
    ensures ToElemAll([d]) == [ToElem(d)]
  {
    assert [n][1..] == [] && [d][1..] == [];
  }

  /** `add_node` of the XML `_write_tree`: the element of `n` and the codes it collects. */
  method XAddNode(ops: PathOps, base: string, n: Node) returns (e: Element, codes: set<Code>)
    ensures e == ToElem(Describe(ops, base, n))
    ensures codes == XCodes(ops, base, n)
    decreases n, 1
  {
    if ops.isFile(ops.join(base, n.path)) {
      return NodeElem(n.name, n.path, n.code, []), {};
    }
    codes := {n.code};
    var sub, more := XAddNodes(ops, ops.join(base, n.path), n.children);
    e := NodeElem(n.name, n.path, n.code, sub);
    codes := codes + more;
  }

  /** The loop `for j in range(node.childCount())` of the XML writer. */
  method XAddNodes(ops: PathOps, base: string, ns: seq<Node>) returns (es: seq<Element>, codes: set<Code>)
    ensures es == ToElemAll(DescribeAll(ops, base, ns))
    ensures codes == XCodesAll(ops, base, ns)
    decreases ns, 0
  {
    es := [];
    codes := {};
    var j := 0;
    while j < |ns|
      invariant j <= |ns|
      invariant es == ToElemAll(DescribeAll(ops, base, ns[..j]))
      invariant codes == XCodesAll(ops, base, ns[..j])
    {
      var e, more := XAddNode(ops, base, ns[j]);
      assert ns[..j + 1] == ns[..j] + [ns[j]];
      DescribeAllAppend(ops, base, ns[..j], [ns[j]]);
      DescribeAllOne(ops, base, ns[j]);
      ToElemAllAppend(DescribeAll(ops, base, ns[..j]), [Describe(ops, base, ns[j])]);
      XAppend(ops, base, ns[..j], [ns[j]]);
      XOne(ops, base, ns[j], Describe(ops, base, ns[j]));
      es := es + [e];
      codes := codes + more;
      j := j + 1;
    }
    assert ns[..j] == ns;
  }

  /** The loop `for code, context in data.items()` that keeps the collected codes. */
  method CollectEntries(texts: map<Code, string>, codes: set<Code>) returns (m: map<Code, string>)
    ensures forall c :: c in m <==> c in texts && c in codes
    ensures forall c :: c in m ==> m[c] == texts[c]
  {
    var rest := texts.Keys;
    m := map[];
    while rest != {}
      invariant rest <= texts.Keys
      invariant forall c :: c in m <==> c in texts && c in codes && c !in rest
      invariant forall c :: c in m ==> m[c] == texts[c]
      decreases rest
    {
      assert (forall j :: j !in rest) ==> rest == {};
      var k :| k in rest;
      if k in codes {
        m := m[k := texts[k]];
      }
      rest := rest - {k};
    }
  }

  /** `_write_tree` of core/parser.py: the document to write; every code is
      marked saved afterwards. */
  method XWriteTree(ops: PathOps, base: string, root: Node, store: DataDict) returns (doc: XmlRoot)
    modifies store
    ensures doc == XmlOf(ops, base, root, old(store.texts))
    ensures store.texts == old(store.texts) && store.macros == old(store.macros)
    ensures store.unsaved == {}
  {
    var nodes, codes := XAddNodes(ops, base, root.children);
    var entries := CollectEntries(store.texts, codes);
    assert forall c :: c in entries <==> c in Entries(store.texts, codes);
    assert forall c :: c in entries ==> entries[c] == Entries(store.texts, codes)[c];
    assert entries == Entries(store.texts, codes);
    store.SaveAll();
    doc := XmlRoot(root.code, nodes + [DataStructure(entries)]);
  }

  /** Only codes of the project item's descendants are collected. */
  lemma {:induction false} XCodesWithin(ops: PathOps, base: string, ns: seq<Node>)
    ensures XCodesAll(ops, base, ns) <= CodesOf(ns)
    decreases ns, 0
  {
    if ns != [] {
      var n := ns[0];
      if !FileBacked(ops, base, n) {
        XCodesWithin(ops, ops.join(base, n.path), n.children);
      }
      XCodesWithin(ops, base, ns[1..]);
    }
  }

  /** The written entries are the stored texts of the collected codes, and the
      project item's text is not among them unless a descendant shares its code. */
  lemma WrittenEntries(ops: PathOps, base: string, root: Node, texts: map<Code, string>, c: Code)
    ensures var doc := XmlOf(ops, base, root, texts);
      var m := doc.children[|doc.children| - 1].entries;
      doc.children[|doc.children| - 1].DataStructure? &&
      (c in m <==> c in texts && c in XCodesAll(ops, base, root.children)) &&
      (c in m ==> m[c] == texts[c]) &&
      (root.code !in CodesOf(root.children) ==> root.code !in m)
  {
    XCodesWithin(ops, base, root.children);
  }

  // ---------------------------------------------------------------------------
  // Read side
  // ---------------------------------------------------------------------------

  /** The record a `node` element is read as: its attributes and, when its path
      has no suffix (`QFileInfo.suffix`), its `node` children; children of other
      tags are skipped. */
  function ReadDesc(e: Element): Desc
    requires e.NodeElem?
    decreases e, 1
  {
    Desc(e.code, e.name, e.path, if Queued(Last)(e.path) then [] else ReadDescAll(e.children))
  }

  function ReadDescAll(es: seq<Element>): seq<Desc>
    decreases es, 0
  {
    if es == [] then []
    else (if es[0].NodeElem? then [ReadDesc(es[0])] else []) + ReadDescAll(es[1..])
  }

  /** The empty text for every code of `s`. */
  function Blank(s: set<Code>): map<Code, string> {
    map c | c in s :: ""
  }

  /** The texts after the rebuild loop `for child in root`, starting from `t`: a
      `data-structure` element's entries are stored, and every code of a read
      `node` element is set to "". */
  function LoadTexts(t: map<Code, string>, es: seq<Element>): map<Code, string>
    decreases |es|
  {
    if es == [] then t
    else
      var t1 := match es[0]
        case DataStructure(m) => t + m
        case NodeElem(_, _, _, _) => t + Blank(Codes(Rebuild(ReadDesc(es[0]))))
        case OtherElem => t;
      LoadTexts(t1, es[1..])
  }

  lemma ReadDescAllStep(es: seq<Element>, j: nat)
    requires j < |es|
    ensures ReadDescAll(es[..j + 1]) == ReadDescAll(es[..j]) + (if es[j].NodeElem? then [ReadDesc(es[j])] else [])
  {
    ReadDescAllAppend(es[..j], [es[j]]);
    assert es[..j + 1] == es[..j] + [es[j]];
    assert [es[j]][1..] == [];
  }

  lemma {:induction false} ReadDescAllAppend(a: seq<Element>, b: seq<Element>)
    ensures ReadDescAll(a + b) == ReadDescAll(a) + ReadDescAll(b)
    decreases |a|
  {
    if a == [] {
      assert a + b == b;
    } else {
      assert (a + b)[0] == a[0] && (a + b)[1..] == a[1..] + b;
      ReadDescAllAppend(a[1..], b);
    }
  }

  lemma BlankUnion(t: map<Code, string>, a: set<Code>, b: set<Code>)
    ensures t + Blank(a) + Blank(b) == t + Blank(a + b)
  {
  }

  lemma BlankOwn(t: map<Code, string>, n: Node)
    ensures t[n.code := ""] + Blank(CodesOf(n.children)) == t + Blank(Codes(n))
  {
  }

  /** One read element appended to the read list: the new items, the new parse
      list entries and the new macros follow the element's record. */
  lemma ReadStep(ns: seq<Node>, at: Addr, ds: seq<Desc>, d: Desc)
    requires ns == RebuildAll(ds)
    ensures RebuildAll(ds + [d]) == ns + [Rebuild(d)]
    ensures QueueAll(Queued(Last), at, ds + [d], 0) == QueueAll(Queued(Last), at, ds, 0) + QueueOf(Queued(Last), at + [|ns|], d)
  {
    RebuildAllAppend(ds, [d]);
    QueueAllAppend(Queued(Last), at, ds, [d], 0);
    ReadOne(Queued(Last), map[], at, d, |ds|);
  }

  lemma ReadStepMacros(m: map<string, Code>, ds: seq<Desc>, d: Desc)
    ensures AddMacrosAll(m, ds + [d]) == AddMacros(AddMacrosAll(m, ds), d)
  {
    AddMacrosAllAppend(m, ds, [d]);
    ReadOne(Queued(Last), AddMacrosAll(m, ds), [], d, 0);
  }

  lemma ReadStepCodes(ns: seq<Node>, n: Node)
    ensures CodesOf(ns + [n]) == CodesOf(ns) + Codes(n)
  {
    CodesOfAppend(ns, [n]);
    assert [n][1..] == [];
  }

  /** `add_node` of the XML `_parse_tree` for the element `e`, placed at address
      `at` below the project item: the rebuilt item, its parse list entries, its
      codes set to "" and its '@' names registered. */
  method XReadNode(e: Element, at: Addr, store: DataDict) returns (n: Node, queue: seq<Addr>)
    requires e.NodeElem?
    modifies store
    ensures n == Rebuild(ReadDesc(e))
    ensures queue == QueueOf(Queued(Last), at, ReadDesc(e))
    ensures store.texts == old(store.texts) + Blank(Codes(n))
    ensures store.macros == AddMacros(old(store.macros), ReadDesc(e))
    ensures store.unsaved == old(store.unsaved)
    decreases e, 1
  {
    ghost var t0 := store.texts;
    store.Set(e.code, "");
    if StartsWith(e.name, "@") {
      store.AddMacro(e.name[1..], e.code);
    }
    if Queued(Last)(e.path) {
      n := Node(e.name, e.path, e.code, []);
      queue := [at];
      BlankOwn(t0, n);
      return;
    }
    var kids, more := XReadNodes(e.children, at, store);
    n := Node(e.name, e.path, e.code, kids);
    queue := more;
    BlankOwn(t0, n);
  }

  /** The loop `for n_child in n_node` over the children of a `node` element. */
  method XReadNodes(es: seq<Element>, at: Addr, store: DataDict) returns (ns: seq<Node>, queue: seq<Addr>)
    modifies store
    ensures ns == RebuildAll(ReadDescAll(es))
    ensures queue == QueueAll(Queued(Last), at, ReadDescAll(es), 0)
    ensures store.texts == old(store.texts) + Blank(CodesOf(ns))
    ensures store.macros == AddMacrosAll(old(store.macros), ReadDescAll(es))
    ensures store.unsaved == old(store.unsaved)
    decreases es, 0
  {
    ns := [];
    queue := [];
    var j := 0;
    while j < |es|
      invariant j <= |es|
      invariant ns == RebuildAll(ReadDescAll(es[..j]))
      invariant queue == QueueAll(Queued(Last), at, ReadDescAll(es[..j]), 0)
      invariant store.texts == old(store.texts) + Blank(CodesOf(ns))
      invariant store.macros == AddMacrosAll(old(store.macros), ReadDescAll(es[..j]))
      invariant store.unsaved == old(store.unsaved)
    {
      ReadDescAllStep(es, j);
      if es[j].NodeElem? {
        var ds := ReadDescAll(es[..j]);
        ReadStep(ns, at, ds, ReadDesc(es[j]));
        ReadStepMacros(old(store.macros), ds, ReadDesc(es[j]));
        var n, more := XReadNode(es[j], at + [|ns|], store);
        ReadStepCodes(ns, n);
        BlankUnion(old(store.texts), CodesOf(ns), Codes(n));
        ns := ns + [n];
        queue := queue + more;
      } else {
        assert ReadDescAll(es[..j]) + [] == ReadDescAll(es[..j]);
      }
      j := j + 1;
    }
    assert es[..j] == es;
  }

  lemma LoadTextsStep(t: map<Code, string>, es: seq<Element>, j: nat)
    requires j < |es|
    ensures LoadTexts(t, es[..j + 1]) == LoadTexts(LoadTexts(t, es[..j]), [es[j]])
  {
    LoadTextsAppend(t, es[..j], [es[j]]);
    assert es[..j + 1] == es[..j] + [es[j]];
  }

  lemma {:induction false} LoadTextsAppend(t: map<Code, string>, a: seq<Element>, b: seq<Element>)
    ensures LoadTexts(t, a + b) == LoadTexts(LoadTexts(t, a), b)
    decreases |a|
  {
    if a == [] {
      assert a + b == b;
    } else {
      assert (a + b)[0] == a[0] && (a + b)[1..] == a[1..] + b;
      var t1 := match a[0]
        case DataStructure(m) => t + m
        case NodeElem(_, _, _, _) => t + Blank(Codes(Rebuild(ReadDesc(a[0]))))
        case OtherElem => t;
      LoadTextsAppend(t1, a[1..], b);
    }
  }

  /** One turn of the rebuild loop: child `j` of the root element. */
  method XReadChild(es: seq<Element>, j: nat, ghost t0: map<Code, string>, ghost m0: map<string, Code>,
                    ns: seq<Node>, queue: seq<Addr>, store: DataDict)
    returns (ns': seq<Node>, queue': seq<Addr>)
    modifies store
    requires j < |es|
    requires ns == RebuildAll(ReadDescAll(es[..j]))
    requires queue == QueueAll(Queued(Last), [], ReadDescAll(es[..j]), 0)
    requires store.texts == LoadTexts(t0, es[..j])
    requires store.macros == AddMacrosAll(m0, ReadDescAll(es[..j]))
    ensures ns' == RebuildAll(ReadDescAll(es[..j + 1]))
    ensures queue' == QueueAll(Queued(Last), [], ReadDescAll(es[..j + 1]), 0)
    ensures store.texts == LoadTexts(t0, es[..j + 1])
    ensures store.macros == AddMacrosAll(m0, ReadDescAll(es[..j + 1]))
    ensures store.unsaved == old(store.unsaved)
  {
    ReadDescAllStep(es, j);
    LoadTextsStep(t0, es, j);
    assert [es[j]][1..] == [];
    ns', queue' := ns, queue;
    match es[j] {
      case DataStructure(m) =>
        store.Update(m);
        assert ReadDescAll(es[..j]) + [] == ReadDescAll(es[..j]);
      case NodeElem(_, _, _, _) =>
        var ds := ReadDescAll(es[..j]);
        ReadStep(ns, [], ds, ReadDesc(es[j]));
        ReadStepMacros(m0, ds, ReadDesc(es[j]));
        var n, more := XReadNode(es[j], [] + [|ns|], store);
        ns' := ns + [n];
        queue' := queue + more;
      case OtherElem =>
        assert ReadDescAll(es[..j]) + [] == ReadDescAll(es[..j]);
    }
  }

  /** The rebuild loop `for child in root` of the XML `_parse_tree`, after the
      project item's own code has been set to "": the top-level rebuilt items,
      the parse list, the texts and the macros. */
  method XReadRoot(doc: XmlRoot, store: DataDict) returns (ns: seq<Node>, queue: seq<Addr>)
    modifies store
    ensures ns == RebuildAll(ReadDescAll(doc.children))
    ensures queue == QueueAll(Queued(Last), [], ReadDescAll(doc.children), 0)
    ensures store.texts == LoadTexts(old(store.texts)[doc.code := ""], doc.children)
    ensures store.macros == AddMacrosAll(old(store.macros), ReadDescAll(doc.children))
    ensures store.unsaved == old(store.unsaved)
  {
    store.Set(doc.code, "");
    ghost var t0 := store.texts;
    ns := [];
    queue := [];
    var es := doc.children;
    var j := 0;
    while j < |es|
      invariant j <= |es|
      invariant ns == RebuildAll(ReadDescAll(es[..j]))
      invariant queue == QueueAll(Queued(Last), [], ReadDescAll(es[..j]), 0)
      invariant store.texts == LoadTexts(t0, es[..j])
      invariant store.macros == AddMacrosAll(old(store.macros), ReadDescAll(es[..j]))
      invariant store.unsaved == old(store.unsaved)
    {
      ns, queue := XReadChild(es, j, t0, old(store.macros), ns, queue, store);
      j := j + 1;
    }
    assert es[..j] == es;
  }

  // ---------------------------------------------------------------------------
  // The round trip
  // ---------------------------------------------------------------------------

  /** Every record whose path `queued` accepts has no records below it. */
  predicate QueuedLeaves(queued: string -> bool, d: Desc)
    decreases d, 1
  {
    (queued(d.path) ==> d.sub == []) && QueuedLeavesAll(queued, d.sub)
  }

  predicate QueuedLeavesAll(queued: string -> bool, ds: seq<Desc>)
    decreases ds, 0
  {
    ds != [] ==> QueuedLeaves(queued, ds[0]) && QueuedLeavesAll(queued, ds[1..])
  }

  /** The reader never reads below an item it queues for parsing. */
  lemma {:induction false} ReadLeaves(es: seq<Element>)
    ensures QueuedLeavesAll(Queued(Last), ReadDescAll(es))
    decreases es, 0
  {
    if es != [] {
      if es[0].NodeElem? {
        ReadLeavesOne(es[0]);
      }
      ReadLeaves(es[1..]);
      var h := if es[0].NodeElem? then [ReadDesc(es[0])] else [];
      LeavesAppend(h, ReadDescAll(es[1..]));
    }
  }

  lemma {:induction false} ReadLeavesOne(e: Element)
    requires e.NodeElem?
    ensures QueuedLeaves(Queued(Last), ReadDesc(e))
    decreases e, 1
  {
    if !Queued(Last)(e.path) {
      ReadLeaves(e.children);
    }
  }

  lemma {:induction false} LeavesAppend(a: seq<Desc>, b: seq<Desc>)
    requires |a| <= 1 && (a != [] ==> QueuedLeaves(Queued(Last), a[0]))
    requires QueuedLeavesAll(Queued(Last), b)
    ensures QueuedLeavesAll(Queued(Last), a + b)
  {
    if a != [] {
      assert (a + b)[0] == a[0] && (a + b)[1..] == b;
    } else {
      assert a + b == b;
    }
  }

  /** Reading the written elements gives the records back, as long as no record
      below an item with a suffix was written; the reader drops those. */
  lemma {:induction false} ReadBack(ds: seq<Desc>)
    requires QueuedLeavesAll(Queued(Last), ds)
    ensures ReadDescAll(ToElemAll(ds)) == ds
    decreases ds, 0
  {
    if ds != [] {
      ReadBackOne(ds[0]);
      ReadBack(ds[1..]);
      assert ToElemAll(ds)[1..] == ToElemAll(ds[1..]);
    }
  }

  lemma {:induction false} ReadBackOne(d: Desc)
    requires QueuedLeaves(Queued(Last), d)
    ensures ReadDesc(ToElem(d)) == d
    decreases d, 1
  {
    if !Queued(Last)(d.path) {
      ReadBack(d.sub);
    }
  }

  /** A record with a suffix that was written with records below it comes back
      without them. */
  lemma ReadDropsBelowQueued(d: Desc)
    requires Queued(Last)(d.path) && d.sub != []
    ensures ReadDesc(ToElem(d)) == d.(sub := [])
  {
  }

  lemma ToElemAllNodes(ds: seq<Desc>)
    ensures forall i :: 0 <= i < |ToElemAll(ds)| ==> ToElemAll(ds)[i].NodeElem?
  {
    forall i | 0 <= i < |ToElemAll(ds)| ensures ToElemAll(ds)[i].NodeElem? {
      ToElemAllAt(ds, i);
    }
  }

  lemma {:induction false} ToElemAllAt(ds: seq<Desc>, i: nat)
    requires i < |ds|
    ensures ToElemAll(ds)[i] == ToElem(ds[i])
    decreases |ds|
  {
    if i > 0 {
      ToElemAllAt(ds[1..], i - 1);
    }
  }

  /** `node` elements only ever set texts to "": every other text is kept. */
  lemma {:induction false} LoadTextsNodes(t: map<Code, string>, es: seq<Element>)
    requires forall i :: 0 <= i < |es| ==> es[i].NodeElem?
    ensures forall c :: c in t ==> c in LoadTexts(t, es)
    ensures forall c :: c in LoadTexts(t, es) ==> LoadTexts(t, es)[c] == "" || (c in t && LoadTexts(t, es)[c] == t[c])
    decreases |es|
  {
    if es != [] {
      var t1 := t + Blank(Codes(Rebuild(ReadDesc(es[0]))));
      assert forall i :: 0 <= i < |es| - 1 ==> es[1..][i] == es[i + 1];
      LoadTextsNodes(t1, es[1..]);
    }
  }

  /** After a written project file is read back, every embedded text is restored
      and the project item's own text is "" unless a descendant shares its code:
      the older format loses the project item's text, which the YAML format keeps
      (`YamlRestoresRoot`). */
  lemma XmlTextsAfterLoad(ops: PathOps, base: string, root: Node, texts: map<Code, string>,
                          t: map<Code, string>, c: Code)
    ensures var doc := XmlOf(ops, base, root, texts);
      var after := LoadTexts(t[doc.code := ""], doc.children);
      (c in texts && c in XCodesAll(ops, base, root.children) ==> c in after && after[c] == texts[c]) &&
      (root.code !in XCodesAll(ops, base, root.children) ==> root.code in after && after[root.code] == "")
  {
    var doc := XmlOf(ops, base, root, texts);
    var t0 := t[doc.code := ""];
    var nodes := ToElemAll(DescribeAll(ops, base, root.children));
    var m := Entries(texts, XCodesAll(ops, base, root.children));
    LoadTextsAppend(t0, nodes, [DataStructure(m)]);
    ToElemAllNodes(DescribeAll(ops, base, root.children));
    LoadTextsNodes(t0, nodes);
    var mid := LoadTexts(t0, nodes);
    assert LoadTexts(mid, [DataStructure(m)]) == mid + m by {
      assert [DataStructure(m)][1..] == [];
    }
  }
}
