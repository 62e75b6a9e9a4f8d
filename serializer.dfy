/** `save_file` of core/parsers/__init__.py and of core/parser.py: a post-order
    walk that merges every item's text with its children's (`@others`
    expansion), combines the saved flags with AND, and decides which files and
    project documents to write.  The writes are returned as actions, in the order
    in which they happen, instead of being performed. */
module Serializer {
  import opened Strs
  import opened Store
  import opened Outline
  import opened Paths
  import opened Codec
  import opened XmlCodec

  // ---------------------------------------------------------------------------
  // The `@others` merge
  // ---------------------------------------------------------------------------

  /** A line that the children's texts replace. */
  predicate IsOthers(line: string) {
    EndsWith(line, "@others")
  }

  /** What an `@others` line with the text `prefix` before the marker becomes:
      every child text behind the prefix, separated by blank lines. */
  function Spliced(prefix: string, kids: seq<string>): string {
    Join(seq(|kids|, i requires 0 <= i < |kids| => prefix + kids[i]), "\n\n")
  }

  /** One line of an item's own text after the merge. */
  function MergeLine(line: string, kids: seq<string>): string {
    if IsOthers(line) then Spliced(line[..|line| - 7], kids) else line
  }

  /** Reference definition of the merge: the item's own text, split into lines
      (`str.splitlines`), every line merged, joined again with '\n'. */
  function Merged(text: string, kids: seq<string>): string {
    Join(MergeLines(SplitLines(text), kids), "\n")
  }

  /** Every line merged on its own. */
  function MergeLines(lines: seq<string>, kids: seq<string>): (r: seq<string>)
    ensures |r| == |lines|
    ensures forall i :: 0 <= i < |lines| ==> r[i] == MergeLine(lines[i], kids)
  {
    seq(|lines|, i requires 0 <= i < |lines| => MergeLine(lines[i], kids))
  }

  /** The merge loop of `save_file`, which rewrites the list of lines in place. */
  method Merge(text: string, kids: seq<string>) returns (content: string)
    ensures content == Merged(text, kids)
  {
    var lines := SplitLines(text);
    ghost var original := lines;
    var i := 0;
    while i < |lines|
      invariant i <= |lines| == |original|
      invariant forall k :: 0 <= k < i ==> lines[k] == MergeLine(original[k], kids)
      invariant forall k :: i <= k < |lines| ==> lines[k] == original[k]
    {
      if EndsWith(lines[i], "@others") {
        var merged := MergeOthers(lines[i], kids);
        lines := lines[i := merged];
      }
      i := i + 1;
    }
    assert lines == MergeLines(original, kids);
    content := Join(lines, "\n");
  }

  /** The rewrite of one `@others` line: the text before the marker goes in front
      of every child's text, and the results are joined by blank lines. */
  method MergeOthers(line: string, kids: seq<string>) returns (r: string)
    requires IsOthers(line)
    ensures r == MergeLine(line, kids)
  {
    var prefix := line[..|line| - |"@others"|];
    r := Join(seq(|kids|, j requires 0 <= j < |kids| => prefix + kids[j]), "\n\n");
  }

  /** The children's texts come out in order, each behind the prefix, one blank
      line apart. */
  lemma SplicedCons(prefix: string, k: string, ks: seq<string>)
    ensures Spliced(prefix, [k] + ks) == if ks == [] then prefix + k else prefix + k + "\n\n" + Spliced(prefix, ks)
  {
    var a := seq(|[k] + ks|, i requires 0 <= i < |[k] + ks| => prefix + ([k] + ks)[i]);
    var b := seq(|ks|, i requires 0 <= i < |ks| => prefix + ks[i]);
    assert a[1..] == b;
  }

  /** With no children an `@others` line becomes empty. */
  lemma SplicedNone(prefix: string)
    ensures Spliced(prefix, []) == ""
  {
  }

  /** Lines without the marker pass through: the text is only re-split and joined. */
  lemma MergedPlain(text: string, kids: seq<string>)
    requires forall i :: 0 <= i < |SplitLines(text)| ==> !IsOthers(SplitLines(text)[i])
    ensures Merged(text, kids) == Join(SplitLines(text), "\n")
  {
    var lines := SplitLines(text);
    assert MergeLines(lines, kids) == lines;
  }

  /** A one-line text without line breaks and without the marker is kept as it is. */
  lemma MergedOneLine(text: string, kids: seq<string>)
    requires forall k :: 0 <= k < |text| ==> !IsLineBreak(text[k])
    requires !IsOthers(text)
    ensures Merged(text, kids) == text
  {
    if text != [] {
      SplitLinesSingle(text);
      MergedPlain(text, kids);
    }
  }

  /** The text "@others" that the Markdown outliner gives a document starting with
      a title becomes the children's texts, one blank line apart. */
  lemma MergedOthers(kids: seq<string>)
    ensures Merged("@others", kids) == Join(kids, "\n\n")
  {
    var t := "@others";
    assert forall k :: 0 <= k < |t| ==> !IsLineBreak(t[k]);
    SplitLinesSingle(t);
    assert IsOthers(t);
    assert t[..|t| - 7] == "";
    var spliced := seq(|kids|, i requires 0 <= i < |kids| => "" + kids[i]);
    assert forall i :: 0 <= i < |kids| ==> spliced[i] == kids[i];
    assert spliced == kids;
  }

  // ---------------------------------------------------------------------------
  // The write decision
  // ---------------------------------------------------------------------------

  /** A write `save_file` performs. */
  datatype Action =
    | MakeDir(dir: string)
    | WriteText(file: string, text: string)
    | WriteYaml(file: string, project: Project)
    | WriteXml(file: string, doc: XmlRoot)

  /** The outcome of `save_file` on a subtree: the returned text and saved flag,
      the writes in order and the codes still unsaved afterwards (a project write
      runs `save_all`). */
  datatype Outcome = Outcome(content: string, saved: bool, actions: seq<Action>, unsaved: set<Code>)

  /** The children's outcomes, left to right. */
  datatype KidsOutcome = KidsOutcome(contents: seq<string>, saved: bool, actions: seq<Action>, unsaved: set<Code>)

  /** "Add end new line": a final '\n' unless the text is empty or has one. */
  function WithNewline(s: string): string {
    if s != [] && s[|s| - 1] != '\n' then s + "\n" else s
  }

  lemma WithNewlineShape(s: string)
    ensures WithNewline(s) == [] <==> s == []
    ensures WithNewline(s) != [] ==> WithNewline(s)[|WithNewline(s)| - 1] == '\n'
    ensures WithNewline(s)[..|s|] == s && |WithNewline(s)| <= |s| + 1
    ensures WithNewline(WithNewline(s)) == WithNewline(s)
  {
  }

  /** `save_file(node, data)` with `node` resolving to `base` (its chain of path
      texts under `RuleOf(v)`, see `NodeGetPathPrefix`), over the texts `texts`
      and the unsaved codes `unsaved`: the children first, then the item. */
  function Save(v: Version, ops: PathOps, base: string, n: Node, texts: map<Code, string>, unsaved: set<Code>): Outcome
    decreases n, 1
  {
    var kids := SaveKids(v, ops, base, n.children, texts, unsaved);
    Finish(v, ops, base, n, texts, kids, n.code !in unsaved && kids.saved)
  }

  /** The children's outcomes, left to right, each computed with the unsaved
      codes its earlier siblings left. */
  function SaveKids(v: Version, ops: PathOps, base: string, ns: seq<Node>, texts: map<Code, string>,
                    unsaved: set<Code>): (r: KidsOutcome)
    ensures |r.contents| == |ns|
    decreases ns, 0
  {
    if ns == [] then KidsOutcome([], true, [], unsaved)
    else
      var before := SaveKids(v, ops, base, ns[..|ns| - 1], texts, unsaved);
      var last := ns[|ns| - 1];
      var o := Save(v, ops, ops.join(base, last.path), last, texts, before.unsaved);
      KidsOutcome(before.contents + [o.content], before.saved && o.saved, before.actions + o.actions, o.unsaved)
  }

  /** One more child: `SaveKids` on a prefix grows by that child's outcome. */
  lemma SaveKidsSnoc(v: Version, ops: PathOps, base: string, ns: seq<Node>, i: nat,
                     texts: map<Code, string>, unsaved: set<Code>)
    requires i < |ns|
    ensures var before := SaveKids(v, ops, base, ns[..i], texts, unsaved);
      var o := Save(v, ops, ops.join(base, ns[i].path), ns[i], texts, before.unsaved);
      SaveKids(v, ops, base, ns[..i + 1], texts, unsaved) ==
      KidsOutcome(before.contents + [o.content], before.saved && o.saved, before.actions + o.actions, o.unsaved)
  {
    assert ns[..i + 1][..i] == ns[..i];
  }

  /** The item's part once its children are done: the merge, then the writes when
      the item has a file name and something below it is unsaved. */
  function Finish(v: Version, ops: PathOps, base: string, n: Node, texts: map<Code, string>,
                  kids: KidsOutcome, allSaved: bool): Outcome
  {
    var content := Merged(Lookup(texts, n.code), kids.contents);
    if FileName(n.path) == [] || allSaved then Outcome(content, allSaved, kids.actions, kids.unsaved)
    else Written(v, ops, base, n, texts, content, kids.actions, kids.unsaved)
  }

  /** The writes of an item with a file name below which something is unsaved,
      after the writes `actions` of its children; `content` is its merged text. */
  function Written(v: Version, ops: PathOps, base: string, n: Node, texts: map<Code, string>,
                   content: string, actions: seq<Action>, unsaved: set<Code>): Outcome
  {
    var name := FileName(n.path);
    var suffix := LastSuffix(name);
    var dir := ops.dirOf(base);
    var mkdir := if ops.dirExists(dir) then [] else [MakeDir(dir)];
    var text := WithNewline(content);
    match v
    case Package =>
      if suffix == "kmol" then
        Outcome(content, false, actions + [WriteYaml(n.path, ProjectOf(ops, base, n, texts))], {})
      else if Supported(suffix) then
        Outcome(text, false, actions + mkdir + [WriteText(ops.join(dir, name), text)], unsaved)
      else Outcome(content, false, actions + mkdir, unsaved)
    case Legacy =>
      if suffix == "kmol" then
        Outcome(content, false, actions + [WriteXml(n.path, XmlOf(ops, base, n, texts))], {})
      else if Supported(suffix) then
        Outcome(text, false, actions + mkdir + [WriteText(ops.join(dir, name), text)], unsaved)
      else Outcome(content, false, actions, unsaved)
  }

  /** `save_file`, recursive like the source. */
  method SaveFile(v: Version, ops: PathOps, base: string, n: Node, store: DataDict)
    returns (content: string, saved: bool, actions: seq<Action>)
    modifies store
    ensures var o := Save(v, ops, base, n, old(store.texts), old(store.unsaved));
      content == o.content && saved == o.saved && actions == o.actions && store.unsaved == o.unsaved
    ensures store.texts == old(store.texts) && store.macros == old(store.macros)
    decreases n, 1
  {
    var own := store.IsSaved(n.code);
    var textData, kidsSaved, acts := SaveChildren(v, ops, base, n.children, store);
    saved := own && kidsSaved;
    content, actions := FinishSave(v, ops, base, n, store, textData, saved, acts);
  }

  /** The loop `for i in range(node.childCount())` with `all_saved &= saved`. */
  method SaveChildren(v: Version, ops: PathOps, base: string, ns: seq<Node>, store: DataDict)
    returns (textData: seq<string>, saved: bool, actions: seq<Action>)
    modifies store
    ensures KidsOutcome(textData, saved, actions, store.unsaved) ==
            SaveKids(v, ops, base, ns, old(store.texts), old(store.unsaved))
    ensures store.texts == old(store.texts) && store.macros == old(store.macros)
    decreases ns, 0
  {
    textData := [];
    saved := true;
    actions := [];
    var i := 0;
    while i < |ns|
      invariant i <= |ns|
      invariant store.texts == old(store.texts) && store.macros == old(store.macros)
      invariant KidsOutcome(textData, saved, actions, store.unsaved) ==
                SaveKids(v, ops, base, ns[..i], old(store.texts), old(store.unsaved))
    {
      var child := ns[i];
      var doc, s, acts := SaveFile(v, ops, ops.join(base, child.path), child, store);
      SaveKidsSnoc(v, ops, base, ns, i, old(store.texts), old(store.unsaved));
      textData := textData + [doc];
      saved := saved && s;
      actions := actions + acts;
      i := i + 1;
    }
    assert ns[..i] == ns;
  }

  /** The merge and the write decision of `save_file`, after the children. */
  method FinishSave(v: Version, ops: PathOps, base: string, n: Node, store: DataDict,
                    textData: seq<string>, allSaved: bool, acts: seq<Action>)
    returns (content: string, actions: seq<Action>)
    modifies store
    ensures Outcome(content, allSaved, actions, store.unsaved) ==
            Finish(v, ops, base, n, old(store.texts), KidsOutcome(textData, allSaved, acts, old(store.unsaved)), allSaved)
    ensures store.texts == old(store.texts) && store.macros == old(store.macros)
  {
    actions := acts;
    content := Merge(store.Get(n.code), textData);
    if FileName(n.path) != [] && !allSaved {
      content, actions := WriteFile(v, ops, base, n, store, content, acts);
    }
  }

  /** The writes of `save_file` for an item with a file name and something unsaved. */
  method WriteFile(v: Version, ops: PathOps, base: string, n: Node, store: DataDict,
                   merged: string, acts: seq<Action>)
    returns (content: string, actions: seq<Action>)
    modifies store
    ensures Outcome(content, false, actions, store.unsaved) ==
            Written(v, ops, base, n, old(store.texts), merged, acts, old(store.unsaved))
    ensures store.texts == old(store.texts) && store.macros == old(store.macros)
  {
    content, actions := merged, acts;
    var name := FileName(n.path);
    var suffix := LastSuffix(name);
    var dir := ops.dirOf(base);
    if suffix == "kmol" {
      match v
      case Package =>
        var p := WriteTree(ops, base, n, store);
        actions := actions + [WriteYaml(n.path, p)];
      case Legacy =>
        var doc := XWriteTree(ops, base, n, store);
        actions := actions + [WriteXml(n.path, doc)];
    } else if v.Package? || Supported(suffix) {
      if !ops.dirExists(dir) {
        actions := actions + [MakeDir(dir)];
      }
      if Supported(suffix) {
        if content != [] && content[|content| - 1] != '\n' {
          content := content + "\n";
        }
        actions := actions + [WriteText(ops.join(dir, name), content)];
      }
    }
  }

  // ---------------------------------------------------------------------------
  // Properties of the save
  // ---------------------------------------------------------------------------

  /** Reference definition of a subtree's text: every item's own text with its
      children's texts merged in, nothing else. */
  function Flatten(texts: map<Code, string>, n: Node): string
    decreases n, 1
  {
    Merged(Lookup(texts, n.code), FlattenAll(texts, n.children))
  }

  function FlattenAll(texts: map<Code, string>, ns: seq<Node>): (r: seq<string>)
    ensures |r| == |ns|
    decreases ns, 0
  {
    seq(|ns|, i requires 0 <= i < |ns| => Flatten(texts, ns[i]))
  }

  /** A subtree none of whose codes is unsaved writes nothing, reports itself
      saved, leaves the unsaved codes alone and returns the merged text. */
  lemma {:induction false} SavedSubtree(v: Version, ops: PathOps, base: string, n: Node,
                                        texts: map<Code, string>, unsaved: set<Code>)
    requires Codes(n) !! unsaved
    ensures var o := Save(v, ops, base, n, texts, unsaved);
      o.actions == [] && o.saved && o.unsaved == unsaved && o.content == Flatten(texts, n)
    decreases n, 1
  {
    SavedKids(v, ops, base, n.children, texts, unsaved);
  }

  lemma {:induction false} SavedKids(v: Version, ops: PathOps, base: string, ns: seq<Node>,
                                     texts: map<Code, string>, unsaved: set<Code>)
    requires CodesOf(ns) !! unsaved
    ensures var k := SaveKids(v, ops, base, ns, texts, unsaved);
      k.actions == [] && k.saved && k.unsaved == unsaved && k.contents == FlattenAll(texts, ns)
    decreases ns, 0
  {
    if ns != [] {
      var m := |ns| - 1;
      var last := ns[m];
      assert ns[..m] + [last] == ns;
      CodesOfAppend(ns[..m], [last]);
      CodesOfSingle(last);
      SavedKids(v, ops, base, ns[..m], texts, unsaved);
      SavedSubtree(v, ops, ops.join(base, last.path), last, texts, unsaved);
      FlattenAllSnoc(texts, ns[..m], last);
    }
  }

  lemma FlattenAllSnoc(texts: map<Code, string>, ns: seq<Node>, x: Node)
    ensures FlattenAll(texts, ns + [x]) == FlattenAll(texts, ns) + [Flatten(texts, x)]
  {
    var l, r := FlattenAll(texts, ns + [x]), FlattenAll(texts, ns) + [Flatten(texts, x)];
    forall i | 0 <= i < |l|
      ensures l[i] == r[i]
    {
      if i < |ns| {
        assert (ns + [x])[i] == ns[i];
      }
    }
  }

  /** The item writes a project document: it has a file name whose last suffix is "kmol". */
  predicate IsProject(n: Node) {
    FileName(n.path) != [] && LastSuffix(FileName(n.path)) == "kmol"
  }

  /** No project file anywhere in the subtree. */
  predicate NoProjects(n: Node)
    decreases n
  {
    !IsProject(n) && forall i :: 0 <= i < |n.children| ==> NoProjects(n.children[i])
  }

  /** Without project files the unsaved codes never change, and a subtree reports
      itself saved exactly when none of its codes is unsaved. */
  lemma {:induction false} SavedIff(v: Version, ops: PathOps, base: string, n: Node,
                                    texts: map<Code, string>, unsaved: set<Code>)
    requires NoProjects(n)
    ensures var o := Save(v, ops, base, n, texts, unsaved);
      o.unsaved == unsaved && (o.saved <==> Codes(n) !! unsaved)
    decreases n, 1
  {
    SavedIffKids(v, ops, base, n.children, texts, unsaved);
    var kids := SaveKids(v, ops, base, n.children, texts, unsaved);
    var content := Merged(Lookup(texts, n.code), kids.contents);
    WrittenKeepsUnsaved(v, ops, base, n, texts, content, kids.actions, kids.unsaved);
  }

  /** Only a project document clears the unsaved codes. */
  lemma WrittenKeepsUnsaved(v: Version, ops: PathOps, base: string, n: Node, texts: map<Code, string>,
                            content: string, actions: seq<Action>, unsaved: set<Code>)
    requires !IsProject(n)
    ensures var o := Written(v, ops, base, n, texts, content, actions, unsaved);
      o.unsaved == unsaved && !o.saved
  {
  }

  lemma {:induction false} SavedIffKids(v: Version, ops: PathOps, base: string, ns: seq<Node>,
                                        texts: map<Code, string>, unsaved: set<Code>)
    requires forall i :: 0 <= i < |ns| ==> NoProjects(ns[i])
    ensures var k := SaveKids(v, ops, base, ns, texts, unsaved);
      k.unsaved == unsaved && (k.saved <==> CodesOf(ns) !! unsaved)
    decreases ns, 0
  {
    if ns != [] {
      var m := |ns| - 1;
      assert ns[..m] + [ns[m]] == ns;
      CodesOfAppend(ns[..m], [ns[m]]);
      assert CodesOf([ns[m]]) == Codes(ns[m]) by {
        assert [ns[m]][1..] == [];
      }
      SavedIffKids(v, ops, base, ns[..m], texts, unsaved);
      SavedIff(v, ops, ops.join(base, ns[m].path), ns[m], texts, unsaved);
    }
  }

  /** Every text file written ends in a line break unless it is empty. */
  predicate NewlineTerminated(actions: seq<Action>) {
    forall i :: 0 <= i < |actions| && actions[i].WriteText? ==>
      actions[i].text == [] || actions[i].text[|actions[i].text| - 1] == '\n'
  }

  lemma {:induction false} WrittenTextsEndInNewline(v: Version, ops: PathOps, base: string, n: Node,
                                                    texts: map<Code, string>, unsaved: set<Code>)
    ensures NewlineTerminated(Save(v, ops, base, n, texts, unsaved).actions)
    decreases n, 1
  {
    var kids := SaveKids(v, ops, base, n.children, texts, unsaved);
    WrittenKidsEndInNewline(v, ops, base, n.children, texts, unsaved);
    FinishEndsInNewline(v, ops, base, n, texts, kids, n.code !in unsaved && kids.saved);
  }

  lemma FinishEndsInNewline(v: Version, ops: PathOps, base: string, n: Node, texts: map<Code, string>,
                            kids: KidsOutcome, allSaved: bool)
    requires NewlineTerminated(kids.actions)
    ensures NewlineTerminated(Finish(v, ops, base, n, texts, kids, allSaved).actions)
  {
    var content := Merged(Lookup(texts, n.code), kids.contents);
    if FileName(n.path) != [] && !allSaved {
      WrittenEndsInNewline(v, ops, base, n, texts, content, kids.actions, kids.unsaved);
    }
  }

  lemma WrittenEndsInNewline(v: Version, ops: PathOps, base: string, n: Node, texts: map<Code, string>,
                             content: string, actions: seq<Action>, unsaved: set<Code>)
    requires NewlineTerminated(actions)
    ensures NewlineTerminated(Written(v, ops, base, n, texts, content, actions, unsaved).actions)
  {
    WithNewlineShape(content);
  }

  lemma {:induction false} WrittenKidsEndInNewline(v: Version, ops: PathOps, base: string, ns: seq<Node>,
                                                   texts: map<Code, string>, unsaved: set<Code>)
    ensures NewlineTerminated(SaveKids(v, ops, base, ns, texts, unsaved).actions)
    decreases ns, 0
  {
    if ns != [] {
      var m := |ns| - 1;
      WrittenKidsEndInNewline(v, ops, base, ns[..m], texts, unsaved);
      var before := SaveKids(v, ops, base, ns[..m], texts, unsaved);
      WrittenTextsEndInNewline(v, ops, ops.join(base, ns[m].path), ns[m], texts, before.unsaved);
    }
  }

  /** An unsaved project item writes its document last, with the whole subtree in
      it, and leaves nothing unsaved (`_write_tree` ends with `save_all`). */
  lemma ProjectSave(v: Version, ops: PathOps, base: string, n: Node, texts: map<Code, string>, unsaved: set<Code>)
    requires IsProject(n) && n.code in unsaved
    ensures var o := Save(v, ops, base, n, texts, unsaved);
      o.unsaved == {} && !o.saved && |o.actions| > 0 &&
      o.actions[|o.actions| - 1] == match v
        case Package => WriteYaml(n.path, ProjectOf(ops, base, n, texts))
        case Legacy => WriteXml(n.path, XmlOf(ops, base, n, texts))
  {
  }
}
