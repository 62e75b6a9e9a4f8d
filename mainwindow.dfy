/** The tree actions of the editor window (`MainWindow` in
    core/main_window/__init__.py): moving, adding, copying, cloning and deleting
    outline items.  The `QTreeWidget` is the list of its top-level trees plus the
    address of its current item; the window owns the content store. */
module MainWindow {
  import opened Strs
  import opened Store
  import opened Outline

  // ---------------------------------------------------------------------------
  // Module-level helpers
  // ---------------------------------------------------------------------------

  /** `_get_root`: follow the parents up to the top-level item. */
  function GetRoot(a: Addr): (r: Addr)
    requires |a| > 0
    ensures |r| == 1 && r <= a
    decreases |a|
  {
    if |a| == 1 then a else GetRoot(ParentOf(a))
  }

  /** The root of an item is the top-level tree it lies in. */
  lemma GetRootItem(ts: seq<Node>, a: Addr)
    requires ValidAddr(ts, a)
    ensures GetRoot(a) == [a[0]]
    ensures ValidAddr(ts, GetRoot(a)) && At(ts, GetRoot(a)) == ts[a[0]]
  {
    var r := GetRoot(a);
    assert r == a[..1];
  }

  /** `s.find(c)` for a one-character needle: the first index of `c`, or -1. */
  function Find(s: string, c: char): int {
    if c in s then FirstIndex(s, c) else -1
  }

  /** A Python slice bound: negative counts from the end, then clamped to the text. */
  function SliceBound(k: int, n: nat): (r: nat)
    ensures r <= n
  {
    if k < 0 then (if k + n < 0 then 0 else k + n) else if k > n then n else k
  }

  /** `s[i:j]`. */
  function Slice(s: string, i: int, j: int): string {
    var lo, hi := SliceBound(i, |s|), SliceBound(j, |s|);
    if lo < hi then s[lo..hi] else ""
  }

  /** `_str_between(s, front, back)`: `s[s.find(front) + 1 : s.find(back)]`. */
  function StrBetween(s: string, front: char, back: char): string {
    Slice(s, Find(s, front) + 1, Find(s, back))
  }

  /** With both characters present and `front` first, the result is exactly the
      text between the first `front` and the first `back`. */
  lemma StrBetweenFound(s: string, front: char, back: char)
    requires front in s && back in s && FirstIndex(s, front) < FirstIndex(s, back)
    ensures var f, b := FirstIndex(s, front), FirstIndex(s, back);
      s == s[..f] + [front] + StrBetween(s, front, back) + [back] + s[b + 1..] &&
      front !in s[..f] &&
      back !in s[..f] + [front] + StrBetween(s, front, back)
  {
    var f, b := FirstIndex(s, front), FirstIndex(s, back);
    FirstIndexShape(s, front);
    FirstIndexShape(s, back);
    var r := StrBetween(s, front, back);
    assert r == s[f + 1..b];
    var upto := s[..f] + [front] + r;
    assert upto == s[..b];
    assert back !in upto;
    assert s == upto + [back] + s[b + 1..];
  }

  /** Without `front`, the result is the text before the first `back`. */
  lemma StrBetweenNoFront(s: string, front: char, back: char)
    requires front !in s && back in s
    ensures StrBetween(s, front, back) == s[..FirstIndex(s, back)]
    ensures back !in StrBetween(s, front, back)
  {
    FirstIndexShape(s, back);
  }

  /** A `back` before the first `front` gives the empty text. */
  lemma StrBetweenBackFirst(s: string, front: char, back: char)
    requires front in s && back in s && FirstIndex(s, back) <= FirstIndex(s, front)
    ensures StrBetween(s, front, back) == ""
  {
  }

  /** Without `back`, `find` answers -1 and the slice stops before the last character. */
  lemma StrBetweenNoBack(s: string, front: char, back: char)
    requires back !in s && |s| > 0
    ensures front !in s ==> StrBetween(s, front, back) == s[..|s| - 1]
    ensures front in s ==>
      StrBetween(s, front, back) ==
      if FirstIndex(s, front) + 1 < |s| - 1 then s[FirstIndex(s, front) + 1..|s| - 1] else ""
  {
  }

  // ---------------------------------------------------------------------------
  // Sibling-list moves
  // ---------------------------------------------------------------------------

  /** `move_up_node` on a sibling list: remove item `i`, insert it at `i - 1`. */
  function MovedUp(l: seq<Node>, i: nat): seq<Node>
    requires 0 < i < |l|
  {
    Insert(Remove(l, i), i - 1, l[i])
  }

  /** `move_down_node` on a sibling list: remove item `i`, insert it at `i + 1`. */
  function MovedDown(l: seq<Node>, i: nat): seq<Node>
    requires i + 1 < |l|
  {
    Insert(Remove(l, i), i + 1, l[i])
  }

  /** `move_right_node`: item `i` becomes the last child of item `i - 1`. */
  function MovedRight(l: seq<Node>, i: nat): seq<Node>
    requires 0 < i < |l|
  {
    Remove(l, i)[i - 1 := l[i - 1].(children := l[i - 1].children + [l[i]])]
  }

  /** `move_left_node`: child `i` of item `k` becomes the sibling just after item `k`. */
  function MovedLeft(g: seq<Node>, k: nat, i: nat): seq<Node>
    requires k < |g| && i < |g[k].children|
  {
    Insert(g[k := g[k].(children := Remove(g[k].children, i))], k + 1, g[k].children[i])
  }

  /** Moving up swaps the item with the one before it; nothing else moves. */
  lemma MovedUpSwaps(l: seq<Node>, i: nat)
    requires 0 < i < |l|
    ensures var r := MovedUp(l, i);
      |r| == |l| && r[i - 1] == l[i] && r[i] == l[i - 1] &&
      forall j :: 0 <= j < |l| && j != i - 1 && j != i ==> r[j] == l[j]
  {
    var rem := Remove(l, i);
    var r := Insert(rem, i - 1, l[i]);
    assert r[i] == r[i..][0] == rem[i - 1..][0];
    forall j | 0 <= j < |l| && j != i - 1 && j != i
      ensures r[j] == l[j]
    {
      if j < i - 1 {
        assert r[j] == r[..i - 1][j] == rem[..i - 1][j] == rem[j];
        assert rem[j] == rem[..i][j] == l[..i][j];
      } else {
        assert r[j] == r[i..][j - i] == rem[i - 1..][j - i] == rem[j - 1];
        assert rem[j - 1] == rem[i..][j - 1 - i] == l[i + 1..][j - 1 - i];
      }
    }
  }

  /** Moving down swaps the item with the one after it; nothing else moves. */
  lemma MovedDownSwaps(l: seq<Node>, i: nat)
    requires i + 1 < |l|
    ensures var r := MovedDown(l, i);
      |r| == |l| && r[i + 1] == l[i] && r[i] == l[i + 1] &&
      forall j :: 0 <= j < |l| && j != i && j != i + 1 ==> r[j] == l[j]
  {
    var rem := Remove(l, i);
    var r := Insert(rem, i + 1, l[i]);
    assert r[i] == r[..i + 1][i] == rem[..i + 1][i] == rem[i];
    assert rem[i] == rem[i..][0] == l[i + 1..][0];
    forall j | 0 <= j < |l| && j != i && j != i + 1
      ensures r[j] == l[j]
    {
      if j < i {
        assert r[j] == r[..i + 1][j] == rem[..i + 1][j] == rem[j];
        assert rem[j] == rem[..i][j] == l[..i][j];
      } else {
        assert r[j] == r[i + 2..][j - i - 2] == rem[i + 1..][j - i - 2] == rem[j - 1];
        assert rem[j - 1] == rem[i..][j - 1 - i] == l[i + 1..][j - 1 - i];
      }
    }
  }

  /** Moving down undoes moving up, and moving up undoes moving down. */
  lemma MoveUpDown(l: seq<Node>, i: nat)
    requires 0 < i < |l|
    ensures MovedDown(MovedUp(l, i), i - 1) == l
    ensures MovedUp(MovedDown(l, i - 1), i) == l
  {
    MovedUpSwaps(l, i);
    MovedDownSwaps(MovedUp(l, i), i - 1);
    assert forall j :: 0 <= j < |l| ==> MovedDown(MovedUp(l, i), i - 1)[j] == l[j];
    MovedDownSwaps(l, i - 1);
    MovedUpSwaps(MovedDown(l, i - 1), i);
    assert forall j :: 0 <= j < |l| ==> MovedUp(MovedDown(l, i - 1), i)[j] == l[j];
  }

  /** After a move right, the item before keeps its columns and gains the moved item
      as its last child; the others keep their order. */
  lemma MovedRightShape(l: seq<Node>, i: nat)
    requires 0 < i < |l|
    ensures var r := MovedRight(l, i);
      |r| == |l| - 1 &&
      r[i - 1] == l[i - 1].(children := l[i - 1].children + [l[i]]) &&
      (forall j :: 0 <= j < i - 1 ==> r[j] == l[j]) &&
      (forall j :: i <= j < |r| ==> r[j] == l[j + 1])
  {
    var rem := Remove(l, i);
    forall j | 0 <= j < i - 1
      ensures rem[j] == l[j]
    {
      assert rem[j] == rem[..i][j];
    }
    forall j | i <= j < |rem|
      ensures rem[j] == l[j + 1]
    {
      assert rem[j] == rem[i..][j - i];
    }
  }

  /** After a move left, the old parent has lost the child and the child follows it. */
  lemma MovedLeftShape(g: seq<Node>, k: nat, i: nat)
    requires k < |g| && i < |g[k].children|
    ensures var r := MovedLeft(g, k, i);
      |r| == |g| + 1 &&
      r[k] == g[k].(children := Remove(g[k].children, i)) &&
      r[k + 1] == g[k].children[i] &&
      (forall j :: 0 <= j < k ==> r[j] == g[j]) &&
      (forall j :: k + 1 < j < |r| ==> r[j] == g[j - 1])
  {
    var g' := g[k := g[k].(children := Remove(g[k].children, i))];
    var r := Insert(g', k + 1, g[k].children[i]);
    assert r[k] == r[..k + 1][k] == g'[..k + 1][k];
    forall j | 0 <= j < k
      ensures r[j] == g[j]
    {
      assert r[j] == r[..k + 1][j] == g'[..k + 1][j];
    }
    forall j | k + 1 < j < |r|
      ensures r[j] == g[j - 1]
    {
      assert r[j] == r[k + 2..][j - k - 2] == g'[k + 1..][j - k - 2];
    }
  }

  /** A move left of the last child undoes a move right. */
  lemma RightThenLeft(l: seq<Node>, i: nat)
    requires 0 < i < |l|
    ensures var r := MovedRight(l, i);
      |l[i - 1].children| < |r[i - 1].children| &&
      MovedLeft(r, i - 1, |l[i - 1].children|) == l
  {
    var c := l[i - 1].children;
    var rem := Remove(l, i);
    var r := MovedRight(l, i);
    assert rem[i - 1] == rem[..i][i - 1] == l[i - 1];
    RemoveInsert(c, |c|, l[i]);
    assert Insert(c, |c|, l[i]) == c + [l[i]];
    assert r[i - 1].children == c + [l[i]];
    assert r[i - 1 := r[i - 1].(children := c)] == rem;
    InsertRemove(l, i);
  }

  /** A move right of the moved item undoes a move left of a last child. */
  lemma LeftThenRight(g: seq<Node>, k: nat)
    requires k < |g| && |g[k].children| > 0
    ensures var i := |g[k].children| - 1;
      k + 1 < |MovedLeft(g, k, i)| && MovedRight(MovedLeft(g, k, i), k + 1) == g
  {
    var c := g[k].children;
    var i := |c| - 1;
    var g' := g[k := g[k].(children := Remove(c, i))];
    var r := MovedLeft(g, k, i);
    MovedLeftShape(g, k, i);
    RemoveInsert(g', k + 1, c[i]);
    assert Remove(c, i) + [c[i]] == c;
    assert g'[k := g'[k].(children := Remove(c, i) + [c[i]])] == g;
  }

  /** Moving up or down loses or adds no code. */
  lemma MoveUpDownKeepCodes(l: seq<Node>, i: nat)
    requires i < |l|
    ensures 0 < i ==> CodesOf(MovedUp(l, i)) == CodesOf(l)
    ensures i + 1 < |l| ==> CodesOf(MovedDown(l, i)) == CodesOf(l)
  {
    CodesOfRemove(l, i);
    if 0 < i {
      CodesOfInsert(Remove(l, i), i - 1, l[i]);
    }
    if i + 1 < |l| {
      CodesOfInsert(Remove(l, i), i + 1, l[i]);
    }
  }

  /** Nor does a move right. */
  lemma MoveRightKeepsCodes(l: seq<Node>, i: nat)
    requires 0 < i < |l|
    ensures CodesOf(MovedRight(l, i)) == CodesOf(l)
  {
    var rem := Remove(l, i);
    var p, x := l[i - 1], l[i];
    var y := p.(children := p.children + [x]);
    assert rem[i - 1] == rem[..i][i - 1] == p;
    GrownCodes(p, x);
    CodesOfUpdate(rem, i - 1, y, {}, Codes(x));
    CodesOfRemove(l, i);
    var moved := rem[i - 1 := y];
    assert MovedRight(l, i) == moved;
    assert CodesOf(moved) + {} == CodesOf(moved);
  }

  /** An item that gets one more child gets that child's codes. */
  lemma GrownCodes(p: Node, x: Node)
    ensures Codes(p.(children := p.children + [x])) + {} == Codes(p) + Codes(x)
  {
    CodesOfAppend(p.children, [x]);
    CodesOfSingle(x);
  }

  /** Nor does a move left. */
  lemma MoveLeftKeepsCodes(g: seq<Node>, k: nat, i: nat)
    requires k < |g| && i < |g[k].children|
    ensures CodesOf(MovedLeft(g, k, i)) == CodesOf(g)
  {
    var c := g[k].children;
    var y := g[k].(children := Remove(c, i));
    CodesOfRemove(c, i);
    CodesOfUpdate(g, k, y, Codes(c[i]), {});
    CodesOfInsert(g[k := y], k + 1, c[i]);
  }

  // ---------------------------------------------------------------------------
  // Copies: fresh codes (`copy_node`, `new_pointer`) against shared ones (`clone`)
  // ---------------------------------------------------------------------------

  /** The codes of a tree, the item's own first, then each child's in order: the
      order in which `new_pointer` visits the items. */
  function Preorder(n: Node): seq<Code>
    decreases n, 1
  {
    [n.code] + PreorderAll(n.children)
  }

  function PreorderAll(ns: seq<Node>): seq<Code>
    decreases ns, 0
  {
    if ns == [] then [] else Preorder(ns[0]) + PreorderAll(ns[1..])
  }

  lemma {:induction false} PreorderAllSnoc(ns: seq<Node>, x: Node)
    ensures PreorderAll(ns + [x]) == PreorderAll(ns) + Preorder(x)
    decreases |ns|
  {
    if ns == [] {
      assert [x][1..] == [];
      assert ns + [x] == [x];
    } else {
      assert (ns + [x])[1..] == ns[1..] + [x];
      PreorderAllSnoc(ns[1..], x);
    }
  }

  /** The pre-order lists exactly the codes of the tree. */
  lemma {:induction false} PreorderCodes(n: Node)
    ensures forall c :: c in Preorder(n) <==> c in Codes(n)
    decreases n, 1
  {
    PreorderAllCodes(n.children);
  }

  lemma {:induction false} PreorderAllCodes(ns: seq<Node>)
    ensures forall c :: c in PreorderAll(ns) <==> c in CodesOf(ns)
    decreases ns, 0
  {
    if ns != [] {
      PreorderCodes(ns[0]);
      PreorderAllCodes(ns[1..]);
    }
  }

  /** `m` has the names, paths and shape of `n`; only the codes may differ. */
  predicate SameShape(m: Node, n: Node)
    decreases n
  {
    m.name == n.name && m.path == n.path && |m.children| == |n.children| &&
    forall i :: 0 <= i < |n.children| ==> SameShape(m.children[i], n.children[i])
  }

  /** Two lists of trees of the same shapes, pairwise. */
  predicate SameShapes(ms: seq<Node>, ns: seq<Node>) {
    |ms| == |ns| && forall i :: 0 <= i < |ns| ==> SameShape(ms[i], ns[i])
  }

  lemma SameShapesSnoc(ms: seq<Node>, ns: seq<Node>, i: nat, m: Node)
    requires i < |ns| && SameShapes(ms, ns[..i]) && SameShape(m, ns[i])
    ensures SameShapes(ms + [m], ns[..i + 1])
  {
    assert ns[..i + 1] == ns[..i] + [ns[i]];
  }

  /** Two trees of the same shape have as many items. */
  lemma {:induction false} SameShapeSize(m: Node, n: Node)
    requires SameShape(m, n)
    ensures |Preorder(m)| == |Preorder(n)|
    decreases n, 1
  {
    SameShapeSizeAll(m.children, n.children);
  }

  lemma {:induction false} SameShapeSizeAll(ms: seq<Node>, ns: seq<Node>)
    requires |ms| == |ns| && forall i :: 0 <= i < |ns| ==> SameShape(ms[i], ns[i])
    ensures |PreorderAll(ms)| == |PreorderAll(ns)|
    decreases ns, 0
  {
    if ns != [] {
      SameShapeSize(ms[0], ns[0]);
      SameShapeSizeAll(ms[1..], ns[1..]);
    }
  }

  /** The codes of `news` are new to `t` and pairwise different. */
  predicate Fresh(news: seq<Code>, t: map<Code, string>) {
    (forall j :: 0 <= j < |news| ==> news[j] !in t) &&
    (forall j, k :: 0 <= j < k < |news| ==> news[j] != news[k])
  }

  /** Fresh codes handed out after others stay fresh together with them. */
  lemma FreshAppend(a: seq<Code>, b: seq<Code>, t: map<Code, string>, t': map<Code, string>)
    requires Fresh(a, t) && Fresh(b, t')
    requires forall c :: c in t || c in a ==> c in t'
    ensures Fresh(a + b, t)
  {
    forall j, k | 0 <= j < k < |a + b| ensures (a + b)[j] != (a + b)[k] {
      if j < |a| && k >= |a| {
        assert (a + b)[k] == b[k - |a|] && b[k - |a|] !in t';
        assert (a + b)[j] == a[j] && a[j] in a;
      }
    }
    forall j | 0 <= j < |a + b| ensures (a + b)[j] !in t {
      if j >= |a| {
        assert (a + b)[j] == b[j - |a|] && b[j - |a|] !in t';
      }
    }
  }

  /** One turn of the loop over the children in `new_pointer`. */
  lemma PointerStep(t0: map<Code, string>, n: Node, i: nat, code: Code, kids: seq<Node>, k: Node,
                    t1: map<Code, string>, t2: map<Code, string>)
    requires i < |n.children| && |kids| == i
    requires |PreorderAll(kids)| == |PreorderAll(n.children[..i])|
    requires Fresh([code] + PreorderAll(kids), t0)
    requires t1 == Copied(t0, [n.code] + PreorderAll(n.children[..i]), [code] + PreorderAll(kids))
    requires |Preorder(k)| == |Preorder(n.children[i])| && Fresh(Preorder(k), t1)
    requires t2 == Copied(t1, Preorder(n.children[i]), Preorder(k))
    ensures |PreorderAll(kids + [k])| == |PreorderAll(n.children[..i + 1])|
    ensures Fresh([code] + PreorderAll(kids + [k]), t0)
    ensures t2 == Copied(t0, [n.code] + PreorderAll(n.children[..i + 1]), [code] + PreorderAll(kids + [k]))
  {
    var olds, news := [n.code] + PreorderAll(n.children[..i]), [code] + PreorderAll(kids);
    var x := n.children[i];
    CopiedKeys(t0, olds, news);
    CopiedAppend(t0, olds, news, Preorder(x), Preorder(k));
    FreshAppend(news, Preorder(k), t0, t1);
    assert n.children[..i + 1] == n.children[..i] + [x];
    HeadedSnoc(n.code, n.children[..i], x);
    HeadedSnoc(code, kids, k);
  }

  /** The pre-order of one more child, behind a head code. */
  lemma HeadedSnoc(c: Code, ns: seq<Node>, x: Node)
    ensures [c] + PreorderAll(ns + [x]) == ([c] + PreorderAll(ns)) + Preorder(x)
  {
    PreorderAllSnoc(ns, x);
  }

  /** The texts after `code = data.new_num(); data[code] = data[old]` for each
      pair of an old and a new code, in turn. */
  function Copied(t: map<Code, string>, olds: seq<Code>, news: seq<Code>): map<Code, string>
    requires |olds| == |news|
    decreases |olds|
  {
    if olds == [] then t else Copied(t[news[0] := Lookup(t, olds[0])], olds[1..], news[1..])
  }

  /** The copies add exactly the new codes to the store. */
  lemma {:induction false} CopiedKeys(t: map<Code, string>, olds: seq<Code>, news: seq<Code>)
    requires |olds| == |news|
    ensures forall c :: c in Copied(t, olds, news) <==> c in t || c in news
    decreases |olds|
  {
    if olds != [] {
      CopiedKeys(t[news[0] := Lookup(t, olds[0])], olds[1..], news[1..]);
      assert news == [news[0]] + news[1..];
    }
  }

  lemma {:induction false} CopiedAppend(t: map<Code, string>, o1: seq<Code>, n1: seq<Code>, o2: seq<Code>, n2: seq<Code>)
    requires |o1| == |n1| && |o2| == |n2|
    ensures Copied(t, o1 + o2, n1 + n2) == Copied(Copied(t, o1, n1), o2, n2)
    decreases |o1|
  {
    if o1 == [] {
      assert o1 + o2 == o2 && n1 + n2 == n2;
    } else {
      assert (o1 + o2)[1..] == o1[1..] + o2 && (n1 + n2)[1..] == n1[1..] + n2;
      CopiedAppend(t[n1[0] := Lookup(t, o1[0])], o1[1..], n1[1..], o2, n2);
    }
  }

  /** Every fresh code of a copy holds the text of the code it copies, and every
      code the store already held keeps its text.  The first needs the copied
      codes to be none of the new ones: a code missing from the store can be
      handed out by `new_num` and then read after it was overwritten. */
  lemma {:induction false} CopiedTexts(t: map<Code, string>, olds: seq<Code>, news: seq<Code>)
    requires |olds| == |news| && Fresh(news, t)
    ensures (forall c :: c in olds ==> c !in news) ==>
      forall j :: 0 <= j < |news| ==> Lookup(Copied(t, olds, news), news[j]) == Lookup(t, olds[j])
    ensures forall c :: c in t ==> Lookup(Copied(t, olds, news), c) == t[c]
    decreases |olds|
  {
    if olds != [] {
      var t' := t[news[0] := Lookup(t, olds[0])];
      assert Fresh(news[1..], t') by {
        forall j | 0 <= j < |news[1..]| ensures news[1..][j] !in t' {
          assert news[1..][j] == news[j + 1] != news[0];
        }
      }
      CopiedTexts(t', olds[1..], news[1..]);
      var r := Copied(t, olds, news);
      if forall c :: c in olds ==> c !in news {
        assert forall c :: c in olds[1..] ==> c in olds;
        assert forall c :: c in news[1..] ==> c in news;
        forall j | 0 <= j < |news|
          ensures Lookup(r, news[j]) == Lookup(t, olds[j])
        {
          if j == 0 {
            assert news[0] in t';
            assert Lookup(r, news[0]) == t'[news[0]];
          } else {
            assert news[1..][j - 1] == news[j] && olds[1..][j - 1] == olds[j];
            assert olds[j] in olds;
          }
        }
      }
    }
  }

  /** In particular when every copied code is held by the store. */
  lemma CopiedTextsHeld(t: map<Code, string>, olds: seq<Code>, news: seq<Code>)
    requires |olds| == |news| && Fresh(news, t) && forall c :: c in olds ==> c in t
    ensures forall j :: 0 <= j < |news| ==>
      news[j] != olds[j] && news[j] in Copied(t, olds, news) && Copied(t, olds, news)[news[j]] == t[olds[j]]
    ensures forall c :: c in t ==> c in Copied(t, olds, news) && Copied(t, olds, news)[c] == t[c]
  {
    CopiedTexts(t, olds, news);
    CopiedKeys(t, olds, news);
    forall j | 0 <= j < |news| ensures news[j] !in olds {
    }
    forall j | 0 <= j < |news| ensures news[j] != olds[j] {
      assert olds[j] in olds;
    }
  }

  // ---------------------------------------------------------------------------
  // Deleting: the codes of a subtree leave the store
  // ---------------------------------------------------------------------------

  /** The macro table without the names bound to the codes of `s`. */
  function Unbound(m: map<string, Code>, s: set<Code>): (r: map<string, Code>)
    ensures forall k :: k in r <==> k in m && m[k] !in s
    ensures forall k :: k in r ==> r[k] == m[k]
  {
    map k | k in m && m[k] !in s :: m[k]
  }

  lemma MinusTwice<V>(m: map<Code, V>, s: set<Code>, t: set<Code>)
    ensures m - s - t == m - (s + t)
  {
  }

  lemma UnboundTwice(m: map<string, Code>, s: set<Code>, t: set<Code>)
    ensures Unbound(Unbound(m, s), t) == Unbound(m, s + t)
  {
  }

  // ---------------------------------------------------------------------------
  // add_node
  // ---------------------------------------------------------------------------

  /** `add_node` as written, on the item at `a`: the new item `x` becomes the last
      child of an item that has children or a path, and otherwise the sibling just
      after it.  For a top-level item the code calls `indexOfTopLevelItem` with
      two arguments, which raises a TypeError: None. */
  function AddedAsWritten(ts: seq<Node>, a: Addr, x: Node): Option<seq<Node>>
    requires ValidAddr(ts, a)
  {
    var n := At(ts, a);
    if |n.children| > 0 || n.path != "" then Some(SetListAt(ts, a, n.children + [x]))
    else if |a| > 1 then
      AtInList(ts, a);
      Some(SetListAt(ts, ParentOf(a), Insert(ListAt(ts, ParentOf(a)), IndexOf(a) + 1, x)))
    else None
  }

  /** `add_node` as intended: a top-level item gets its sibling through
      `insertTopLevelItem`, like every other item. */
  function Added(ts: seq<Node>, a: Addr, x: Node): seq<Node>
    requires ValidAddr(ts, a)
  {
    var n := At(ts, a);
    if |n.children| > 0 || n.path != "" then SetListAt(ts, a, n.children + [x])
    else
      AtInList(ts, a);
      SetListAt(ts, ParentOf(a), Insert(ListAt(ts, ParentOf(a)), IndexOf(a) + 1, x))
  }

  /** Where the new item of `add_node` lands. */
  function AddedAt(ts: seq<Node>, a: Addr): Addr
    requires ValidAddr(ts, a)
  {
    var n := At(ts, a);
    if |n.children| > 0 || n.path != "" then a + [|n.children|] else ParentOf(a) + [IndexOf(a) + 1]
  }

  /** The code as written raises on a top-level item with no children and no path. */
  lemma AddAsWrittenRaises(x: Node)
    ensures AddedAsWritten([Node("A", "", 0, [])], [0], x) == None
  {
  }

  /** Everywhere else the code as written and the intended one agree. */
  lemma AddAsWrittenAgrees(ts: seq<Node>, a: Addr, x: Node)
    requires ValidAddr(ts, a)
    ensures AddedAsWritten(ts, a, x).None? <==> |a| == 1 && At(ts, a).children == [] && At(ts, a).path == ""
    ensures AddedAsWritten(ts, a, x).Some? ==> AddedAsWritten(ts, a, x).value == Added(ts, a, x)
  {
  }

  /** The intended `add_node` puts the new item where `AddedAt` says, leaves the
      chosen item where it was, and adds no code but the new item's. */
  lemma AddedPlacesItem(ts: seq<Node>, a: Addr, x: Node)
    requires ValidAddr(ts, a) && x.children == []
    ensures ValidAddr(Added(ts, a, x), a)
    ensures ValidAddr(Added(ts, a, x), AddedAt(ts, a)) && At(Added(ts, a, x), AddedAt(ts, a)) == x
    ensures CodesOf(Added(ts, a, x)) == CodesOf(ts) + {x.code}
  {
    var n := At(ts, a);
    if |n.children| > 0 || n.path != "" {
      AddedAsChild(ts, a, x);
    } else {
      InsertedAfterShape(ts, a, x);
    }
  }

  /** The first branch of `add_node`: `x` becomes the last child of the item. */
  lemma AddedAsChild(ts: seq<Node>, a: Addr, x: Node)
    requires ValidAddr(ts, a) && x.children == []
    ensures var n := At(ts, a);
      var r := SetListAt(ts, a, n.children + [x]);
      ValidAddr(r, a) && ValidAddr(r, a + [|n.children|]) && At(r, a + [|n.children|]) == x &&
      CodesOf(r) == CodesOf(ts) + {x.code}
  {
    var n := At(ts, a);
    var r := SetListAt(ts, a, n.children + [x]);
    CodesOfSingle(x);
    ListAtChildren(ts, a);
    SetListAtItem(ts, a, n.children + [x]);
    SetListAtRead(ts, a, n.children + [x]);
    ExtendPath(r, a, |n.children|);
    CodesOfAppend(n.children, [x]);
    CodesOfSetListAt(ts, a, n.children + [x], {}, {x.code});
  }

  // ---------------------------------------------------------------------------
  // The window: tree widget, current item and store
  // ---------------------------------------------------------------------------

  /** The siblings of the item at `a`: its parent's children, or the top-level list. */
  function Siblings(ts: seq<Node>, a: Addr): (l: seq<Node>)
    requires ValidAddr(ts, a)
    ensures ValidPath(ts, ParentOf(a)) && l == ListAt(ts, ParentOf(a))
    ensures IndexOf(a) < |l| && l[IndexOf(a)] == At(ts, a)
    ensures |a| > 1 ==> ValidAddr(ts, ParentOf(a)) && l == At(ts, ParentOf(a)).children
  {
    AtInList(ts, a);
    if |a| > 1 then ListAtChildren(ts, ParentOf(a)); ListAt(ts, ParentOf(a))
    else ListAt(ts, ParentOf(a))
  }

  /** The address of the next sibling. */
  function Next(a: Addr): Addr
    requires |a| > 0
  {
    ParentOf(a) + [IndexOf(a) + 1]
  }

  /** `parent.insertChild(parent.indexOfChild(node) + 1, x)`: the item stays where
      it was, `x` follows it, and the tree gains the codes of `x`. */
  function InsertedAfter(ts: seq<Node>, a: Addr, x: Node): (r: seq<Node>)
    requires ValidAddr(ts, a)
    ensures ValidAddr(r, a) && At(r, a) == At(ts, a)
    ensures ValidAddr(r, Next(a)) && At(r, Next(a)) == x
    ensures CodesOf(r) == CodesOf(ts) + Codes(x)
  {
    InsertedAfterShape(ts, a, x);
    SetListAt(ts, ParentOf(a), Insert(Siblings(ts, a), IndexOf(a) + 1, x))
  }

  lemma InsertedAfterShape(ts: seq<Node>, a: Addr, x: Node)
    requires ValidAddr(ts, a)
    ensures var r := SetListAt(ts, ParentOf(a), Insert(Siblings(ts, a), IndexOf(a) + 1, x));
      ValidAddr(r, a) && At(r, a) == At(ts, a) &&
      ValidAddr(r, Next(a)) && At(r, Next(a)) == x &&
      CodesOf(r) == CodesOf(ts) + Codes(x)
  {
    var p, i := ParentOf(a), IndexOf(a);
    var l := Insert(Siblings(ts, a), i + 1, x);
    var r := SetListAt(ts, p, l);
    SetListAtRead(ts, p, l);
    assert a == p + [i];
    assert l[i] == l[..i + 1][i] == ListAt(ts, p)[i];
    ExtendPath(r, p, i);
    ExtendPath(r, p, i + 1);
    CodesOfInsert(ListAt(ts, p), i + 1, x);
    CodesOfSetListAt(ts, p, l, {}, Codes(x));
  }

  /** The codes of an item are codes of the tree. */
  lemma {:induction false} AtCodes(ts: seq<Node>, a: Addr)
    requires ValidAddr(ts, a)
    ensures Codes(At(ts, a)) <= CodesOf(ts)
    decreases |a|
  {
    CodesOfElement(ts, a[0]);
    if |a| > 1 {
      AtCodes(ts[a[0]].children, a[1..]);
    }
  }

  class Window {
    /** The top-level items of `tree_main`. */
    var top: seq<Node>
    /** `tree_main.currentItem()`. */
    var current: Option<Addr>
    /** The window's content store. */
    const data: DataDict

    predicate Valid()
      reads this
    {
      current.Some? ==> ValidAddr(top, current.value)
    }

    constructor (top: seq<Node>, data: DataDict)
      ensures this.top == top && this.current == None && this.data == data
      ensures Valid()
    {
      this.top := top;
      this.current := None;
      this.data := data;
    }

    /** `__root_unsaved`: the top-level item above the current item is marked
        unsaved, so that the next save rewrites its file. */
    method RootUnsaved()
      requires Valid()
      modifies data
      ensures data.texts == old(data.texts) && data.macros == old(data.macros)
      ensures current.None? ==> data.unsaved == old(data.unsaved)
      ensures current.Some? ==> data.unsaved == old(data.unsaved) + {top[current.value[0]].code}
    {
      if current.Some? {
        var r := GetRoot(current.value);
        GetRootItem(top, current.value);
        data.SetSaved(At(top, r).code, false);
      }
    }

    /** `move_up_node`. */
    method MoveUpNode()
      requires Valid()
      modifies this, data
      ensures Valid()
      ensures data.texts == old(data.texts) && data.macros == old(data.macros)
      ensures match old(current)
        case None => top == old(top) && current == None && data.unsaved == old(data.unsaved)
        case Some(a) =>
          var l, i := Siblings(old(top), a), IndexOf(a);
          if i == 0 then top == old(top) && current == old(current) && data.unsaved == old(data.unsaved)
          else
            top == SetListAt(old(top), ParentOf(a), MovedUp(l, i)) &&
            current == Some(ParentOf(a) + [i - 1]) && At(top, current.value) == At(old(top), a) &&
            data.unsaved == old(data.unsaved) + {top[current.value[0]].code}
    {
      if current.None? {
        return;
      }
      var a := current.value;
      var p, i := ParentOf(a), IndexOf(a);
      var l := Siblings(top, a);
      if i == 0 {
        return;
      }
      var moved := MovedUp(l, i);
      MovedUpSwaps(l, i);
      SetListAtRead(top, p, moved);
      ExtendPath(SetListAt(top, p, moved), p, i - 1);
      top := SetListAt(top, p, moved);
      current := Some(p + [i - 1]);
      RootUnsaved();
    }

    /** `move_down_node`. */
    method MoveDownNode()
      requires Valid()
      modifies this, data
      ensures Valid()
      ensures data.texts == old(data.texts) && data.macros == old(data.macros)
      ensures match old(current)
        case None => top == old(top) && current == None && data.unsaved == old(data.unsaved)
        case Some(a) =>
          var l, i := Siblings(old(top), a), IndexOf(a);
          if i == |l| - 1 then top == old(top) && current == old(current) && data.unsaved == old(data.unsaved)
          else
            top == SetListAt(old(top), ParentOf(a), MovedDown(l, i)) &&
            current == Some(ParentOf(a) + [i + 1]) && At(top, current.value) == At(old(top), a) &&
            data.unsaved == old(data.unsaved) + {top[current.value[0]].code}
    {
      if current.None? {
        return;
      }
      var a := current.value;
      var p, i := ParentOf(a), IndexOf(a);
      var l := Siblings(top, a);
      if i == |l| - 1 {
        return;
      }
      var moved := MovedDown(l, i);
      MovedDownSwaps(l, i);
      SetListAtRead(top, p, moved);
      ExtendPath(SetListAt(top, p, moved), p, i + 1);
      top := SetListAt(top, p, moved);
      current := Some(p + [i + 1]);
      RootUnsaved();
    }

    /** `move_right_node`: the item becomes the last child of the sibling before it. */
    method MoveRightNode()
      requires Valid()
      modifies this, data
      ensures Valid()
      ensures data.texts == old(data.texts) && data.macros == old(data.macros)
      ensures match old(current)
        case None => top == old(top) && current == None && data.unsaved == old(data.unsaved)
        case Some(a) =>
          var l, i := Siblings(old(top), a), IndexOf(a);
          if i == 0 then top == old(top) && current == old(current) && data.unsaved == old(data.unsaved)
          else
            top == SetListAt(old(top), ParentOf(a), MovedRight(l, i)) &&
            current == Some(ParentOf(a) + [i - 1, |l[i - 1].children|]) &&
            At(top, current.value) == At(old(top), a) &&
            data.unsaved == old(data.unsaved) + {top[current.value[0]].code}
    {
      if current.None? {
        return;
      }
      var a := current.value;
      var p, i := ParentOf(a), IndexOf(a);
      var l := Siblings(top, a);
      if i == 0 {
        return;
      }
      var moved := MovedRight(l, i);
      var c := |l[i - 1].children|;
      MovedRightShape(l, i);
      SetListAtRead(top, p, moved);
      var t := SetListAt(top, p, moved);
      ExtendPath(t, p, i - 1);
      ExtendPath(t, p + [i - 1], c);
      assert p + [i - 1] + [c] == p + [i - 1, c];
      top := t;
      current := Some(p + [i - 1, c]);
      RootUnsaved();
    }

    /** `move_left_node`: an item that has a parent and a grandparent becomes the
        sibling just after its old parent. */
    method MoveLeftNode()
      requires Valid()
      modifies this, data
      ensures Valid()
      ensures data.texts == old(data.texts) && data.macros == old(data.macros)
      ensures match old(current)
        case None => top == old(top) && current == None && data.unsaved == old(data.unsaved)
        case Some(a) =>
          if |a| < 3 then top == old(top) && current == old(current) && data.unsaved == old(data.unsaved)
          else
            var q := ParentOf(a);
            var l, gl := Siblings(old(top), a), Siblings(old(top), q);
            var g, k, i := ParentOf(q), IndexOf(q), IndexOf(a);
            top == SetListAt(old(top), g, MovedLeft(gl, k, i)) &&
            current == Some(g + [k + 1]) && At(top, current.value) == At(old(top), a) &&
            data.unsaved == old(data.unsaved) + {top[current.value[0]].code}
    {
      if current.None? {
        return;
      }
      var a := current.value;
      if |a| < 3 {
        return;
      }
      var q := ParentOf(a);
      var l := Siblings(top, a);
      var gl := Siblings(top, q);
      var g, k, i := ParentOf(q), IndexOf(q), IndexOf(a);
      var moved := MovedLeft(gl, k, i);
      MovedLeftShape(gl, k, i);
      SetListAtRead(top, g, moved);
      ExtendPath(SetListAt(top, g, moved), g, k + 1);
      top := SetListAt(top, g, moved);
      current := Some(g + [k + 1]);
      RootUnsaved();
    }

    /** `add_node`, as intended (see `AddedAsWritten` for the top-level case as
        written).  The code is taken from the store before anything else, so a
        call without a current item reserves it and then stops (`ok` false). */
    method AddNode() returns (ok: bool, ghost c: Code)
      requires Valid()
      modifies this, data
      ensures Valid() && current == old(current)
      ensures c !in old(data.texts) && data.texts == old(data.texts)[c := ""]
      ensures data.unsaved == old(data.unsaved) && data.macros == old(data.macros)
      ensures ok == old(current).Some?
      ensures !ok ==> top == old(top)
      ensures ok ==>
        var a, x := old(current).value, Node("New node", "", c, []);
        top == Added(old(top), a, x) &&
        ValidAddr(top, AddedAt(old(top), a)) && At(top, AddedAt(old(top), a)) == x &&
        CodesOf(top) == CodesOf(old(top)) + {c}
    {
      var code := data.NewNum();
      c := code;
      if current.None? {
        ok := false;
        return;
      }
      var a := current.value;
      var x := Node("New node", "", code, []);
      AddedPlacesItem(top, a, x);
      var n := At(top, a);
      if |n.children| > 0 || n.path != "" {
        top := SetListAt(top, a, n.children + [x]);
      } else {
        var l := Siblings(top, a);
        top := SetListAt(top, ParentOf(a), Insert(l, IndexOf(a) + 1, x));
      }
      ok := true;
    }

    /** `copy_node`: a childless copy under a fresh code holding the same text,
        put right after the item.  A top-level item has no parent to insert into:
        the code raises after the new code was written (`ok` false). */
    method CopyNode() returns (ok: bool, ghost c: Code)
      requires Valid()
      modifies this, data
      ensures Valid() && current == old(current)
      ensures data.unsaved == old(data.unsaved) && data.macros == old(data.macros)
      ensures old(current).None? ==> !ok && top == old(top) && data.texts == old(data.texts)
      ensures old(current).Some? ==>
        var a := old(current).value;
        var n := At(old(top), a);
        c !in old(data.texts) && data.texts == Copied(old(data.texts), [n.code], [c]) &&
        ok == (|a| > 1) &&
        (!ok ==> top == old(top)) &&
        (ok ==> top == InsertedAfter(old(top), a, n.(code := c, children := [])) &&
                 At(top, a) == n && At(top, Next(a)) == n.(code := c, children := []))
    {
      c := 0;
      if current.None? {
        ok := false;
        return;
      }
      var a := current.value;
      var origin := At(top, a);
      ghost var t0 := data.texts;
      var code := data.NewNum();
      assert data.Get(origin.code) == Lookup(t0, origin.code);
      data.Set(code, data.Get(origin.code));
      c := code;
      var node := origin.(code := code, children := []);
      if |a| == 1 {
        ok := false;
        return;
      }
      top := InsertedAfter(top, a, node);
      ok := true;
    }

    /** `clone_node`: a childless copy that keeps the item's code. */
    method CloneNode() returns (ok: bool)
      requires Valid()
      modifies this
      ensures Valid() && current == old(current)
      ensures old(current).None? ==> !ok && top == old(top)
      ensures old(current).Some? ==>
        var a := old(current).value;
        var n := At(old(top), a);
        ok == (|a| > 1) &&
        (!ok ==> top == old(top)) &&
        (ok ==> top == InsertedAfter(old(top), a, n.(children := [])) &&
                 At(top, a) == n && At(top, Next(a)).code == n.code &&
                 CodesOf(top) == CodesOf(old(top)))
    {
      if current.None? {
        ok := false;
        return;
      }
      var a := current.value;
      var origin := At(top, a);
      var node := origin.(children := []);
      if |a| == 1 {
        ok := false;
        return;
      }
      AtCodes(top, a);
      assert Codes(node) == {origin.code} <= Codes(origin);
      top := InsertedAfter(top, a, node);
      ok := true;
    }

    /** `new_pointer`: every item of the (cloned) tree `n` gets a fresh code
        holding the text of the code it replaces, visiting the item before its
        children. */
    method NewPointer(n: Node) returns (m: Node)
      modifies data
      ensures SameShape(m, n)
      ensures |Preorder(m)| == |Preorder(n)| && Fresh(Preorder(m), old(data.texts))
      ensures data.texts == Copied(old(data.texts), Preorder(n), Preorder(m))
      ensures data.unsaved == old(data.unsaved) && data.macros == old(data.macros)
      decreases n
    {
      ghost var t0 := data.texts;
      var code := data.NewNum();
      assert data.Get(n.code) == Lookup(t0, n.code);
      data.Set(code, data.Get(n.code));
      assert data.texts == Copied(t0, [n.code], [code]);
      var kids: seq<Node> := [];
      var i := 0;
      while i < |n.children|
        invariant i <= |n.children| && |kids| == i
        invariant SameShapes(kids, n.children[..i])
        invariant |PreorderAll(kids)| == |PreorderAll(n.children[..i])|
        invariant Fresh([code] + PreorderAll(kids), t0)
        invariant data.texts == Copied(t0, [n.code] + PreorderAll(n.children[..i]), [code] + PreorderAll(kids))
        invariant data.unsaved == old(data.unsaved) && data.macros == old(data.macros)
      {
        ghost var t1 := data.texts;
        var k := NewPointer(n.children[i]);
        PointerStep(t0, n, i, code, kids, k, t1, data.texts);
        SameShapesSnoc(kids, n.children, i, k);
        kids := kids + [k];
        i := i + 1;
      }
      assert n.children[..i] == n.children;
      m := n.(code := code, children := kids);
    }

    /** `copy_node_recursive`: a copy of the whole subtree in which every item has
        a fresh code holding its original's text, put right after the item.  For
        a top-level item the codes are written before the insertion raises. */
    method CopyNodeRecursive() returns (ok: bool, ghost copy: Node)
      requires Valid()
      modifies this, data
      ensures Valid() && current == old(current)
      ensures data.unsaved == old(data.unsaved) && data.macros == old(data.macros)
      ensures old(current).None? ==> !ok && top == old(top) && data.texts == old(data.texts)
      ensures old(current).Some? ==>
        var a := old(current).value;
        var n := At(old(top), a);
        SameShape(copy, n) && |Preorder(copy)| == |Preorder(n)| &&
        Fresh(Preorder(copy), old(data.texts)) &&
        data.texts == Copied(old(data.texts), Preorder(n), Preorder(copy)) &&
        ok == (|a| > 1) &&
        (!ok ==> top == old(top)) &&
        (ok ==> top == InsertedAfter(old(top), a, copy) && At(top, a) == n && At(top, Next(a)) == copy)
    {
      copy := Node("", "", 0, []);
      if current.None? {
        ok := false;
        return;
      }
      var a := current.value;
      var origin := At(top, a);
      var node := NewPointer(origin);
      copy := node;
      if |a| == 1 {
        ok := false;
        return;
      }
      top := InsertedAfter(top, a, node);
      ok := true;
    }

    /** `clone_node_recursive`: a copy of the whole subtree that keeps every code,
        so both copies share their texts. */
    method CloneNodeRecursive() returns (ok: bool)
      requires Valid()
      modifies this
      ensures Valid() && current == old(current)
      ensures old(current).None? ==> !ok && top == old(top)
      ensures old(current).Some? ==>
        var a := old(current).value;
        var n := At(old(top), a);
        ok == (|a| > 1) &&
        (!ok ==> top == old(top)) &&
        (ok ==> top == InsertedAfter(old(top), a, n) &&
                 At(top, a) == n && At(top, Next(a)) == n &&
                 CodesOf(top) == CodesOf(old(top)))
    {
      if current.None? {
        ok := false;
        return;
      }
      var a := current.value;
      var origin := At(top, a);
      if |a| == 1 {
        ok := false;
        return;
      }
      AtCodes(top, a);
      top := InsertedAfter(top, a, origin);
      ok := true;
    }

    /** `__delete_node_data`: the codes of the item and of every item below it
        leave the store, with their saved flags and macro names. */
    method DeleteNodeData(n: Node)
      modifies data
      ensures data.texts == old(data.texts) - Codes(n)
      ensures data.unsaved == old(data.unsaved) - Codes(n)
      ensures data.macros == Unbound(old(data.macros), Codes(n))
      decreases n
    {
      data.Pop(n.code);
      assert data.macros == Unbound(old(data.macros), {n.code});
      ghost var gone := {n.code};
      var i := 0;
      while i < |n.children|
        invariant i <= |n.children|
        invariant gone == {n.code} + CodesOf(n.children[..i])
        invariant data.texts == old(data.texts) - gone
        invariant data.unsaved == old(data.unsaved) - gone
        invariant data.macros == Unbound(old(data.macros), gone)
      {
        var child := n.children[i];
        DeleteNodeData(child);
        MinusTwice(old(data.texts), gone, Codes(child));
        UnboundTwice(old(data.macros), gone, Codes(child));
        assert n.children[..i + 1] == n.children[..i] + [child];
        CodesOfAppend(n.children[..i], [child]);
        CodesOfSingle(child);
        gone := gone + Codes(child);
        i := i + 1;
      }
      assert n.children[..i] == n.children;
    }

    /** `delete_node`: an item with a parent leaves the tree with all its codes,
        and its parent becomes the current item; a top-level item stays. */
    method DeleteNode()
      requires Valid()
      modifies this, data
      ensures Valid()
      ensures old(current).None? || |old(current).value| == 1 ==>
        top == old(top) && current == old(current) &&
        data.texts == old(data.texts) && data.unsaved == old(data.unsaved) && data.macros == old(data.macros)
      ensures old(current).Some? && |old(current).value| > 1 ==>
        var a := old(current).value;
        var gone := Codes(At(old(top), a));
        top == SetListAt(old(top), ParentOf(a), Remove(Siblings(old(top), a), IndexOf(a))) &&
        current == Some(ParentOf(a)) &&
        data.texts == old(data.texts) - gone && data.unsaved == old(data.unsaved) - gone &&
        data.macros == Unbound(old(data.macros), gone) &&
        forall c :: c in gone ==> data.Get(c) == ""
    {
      if current.None? {
        return;
      }
      var a := current.value;
      if |a| == 1 {
        return;
      }
      var node := At(top, a);
      var p := ParentOf(a);
      var l := Siblings(top, a);
      current := Some(p);
      DeleteNodeData(node);
      SetListAtItem(top, p, Remove(l, IndexOf(a)));
      top := SetListAt(top, p, Remove(l, IndexOf(a)));
    }
  }
}
