/** The outline tree: a `QTreeWidgetItem` carries a name (column 0), a path
    (column 1) and a code (column 2) and owns an ordered list of children.  The
    tree widget's top-level items are a list of such trees; an item inside it is
    addressed by the sequence of child indices from the top-level list down, so
    the item's parent is the address without its last index. */
module Outline {
  import opened Store

  datatype Node = Node(name: string, path: string, code: Code, children: seq<Node>)

  type Addr = seq<nat>

  /** Every code used in a tree. */
  function Codes(n: Node): set<Code>
    decreases n, 1
  {
    {n.code} + CodesOf(n.children)
  }

  /** Every code used in a list of trees. */
  function CodesOf(ns: seq<Node>): set<Code>
    decreases ns, 0
  {
    if ns == [] then {} else Codes(ns[0]) + CodesOf(ns[1..])
  }

  lemma {:induction false} CodesOfAppend(a: seq<Node>, b: seq<Node>)
    ensures CodesOf(a + b) == CodesOf(a) + CodesOf(b)
    decreases |a|
  {
    if a != [] {
      assert (a + b)[1..] == a[1..] + b;
      CodesOfAppend(a[1..], b);
    } else {
      assert a + b == b;
    }
  }

  lemma {:induction false} CodesOfElement(ns: seq<Node>, i: nat)
    requires i < |ns|
    ensures Codes(ns[i]) <= CodesOf(ns)
    decreases |ns|
  {
    if i > 0 {
      CodesOfElement(ns[1..], i - 1);
    }
  }

  // ---------------------------------------------------------------------------
  // Addresses
  // ---------------------------------------------------------------------------

  /** `p` leads, index by index, to an existing item; [] stands for the list itself. */
  predicate ValidPath(ts: seq<Node>, p: Addr)
    decreases |p|
  {
    p == [] || (p[0] < |ts| && ValidPath(ts[p[0]].children, p[1..]))
  }

  /** `a` is the address of an item. */
  predicate ValidAddr(ts: seq<Node>, a: Addr) {
    |a| > 0 && ValidPath(ts, a)
  }

  /** The item at address `a`. */
  function At(ts: seq<Node>, a: Addr): Node
    requires ValidAddr(ts, a)
    decreases |a|
  {
    if |a| == 1 then ts[a[0]] else At(ts[a[0]].children, a[1..])
  }

  /** The list `p` leads to: the top-level list for [], else the children of `At(ts, p)`. */
  function ListAt(ts: seq<Node>, p: Addr): seq<Node>
    requires ValidPath(ts, p)
    decreases |p|
  {
    if p == [] then ts else ListAt(ts[p[0]].children, p[1..])
  }

  /** `ts` with the list that `p` leads to replaced by `l`. */
  function SetListAt(ts: seq<Node>, p: Addr, l: seq<Node>): seq<Node>
    requires ValidPath(ts, p)
    decreases |p|
  {
    if p == [] then l
    else ts[p[0] := ts[p[0]].(children := SetListAt(ts[p[0]].children, p[1..], l))]
  }

  /** The address of the parent's list: `a` without its last index. */
  function ParentOf(a: Addr): Addr
    requires |a| > 0
  {
    a[..|a| - 1]
  }

  /** The index of the item in its parent's list. */
  function IndexOf(a: Addr): nat
    requires |a| > 0
  {
    a[|a| - 1]
  }

  /** The path texts from the top-level item down to the item at `a`. */
  function Chain(ts: seq<Node>, a: Addr): (c: seq<string>)
    requires ValidAddr(ts, a)
    ensures |c| == |a|
    decreases |a|
  {
    [ts[a[0]].path] + if |a| == 1 then [] else Chain(ts[a[0]].children, a[1..])
  }

  /** An item is an element of its parent's list. */
  lemma {:induction false} AtInList(ts: seq<Node>, a: Addr)
    requires ValidAddr(ts, a)
    ensures ValidPath(ts, ParentOf(a))
    ensures IndexOf(a) < |ListAt(ts, ParentOf(a))|
    ensures At(ts, a) == ListAt(ts, ParentOf(a))[IndexOf(a)]
    decreases |a|
  {
    if |a| > 1 {
      AtInList(ts[a[0]].children, a[1..]);
      assert ParentOf(a) == [a[0]] + ParentOf(a[1..]);
      assert ParentOf(a)[1..] == ParentOf(a[1..]);
    }
  }

  /** Extending a valid list path by an index of that list gives an item address. */
  lemma {:induction false} ExtendPath(ts: seq<Node>, p: Addr, i: nat)
    requires ValidPath(ts, p)
    requires i < |ListAt(ts, p)|
    ensures ValidAddr(ts, p + [i])
    ensures ParentOf(p + [i]) == p && IndexOf(p + [i]) == i
    ensures At(ts, p + [i]) == ListAt(ts, p)[i]
    ensures ValidPath(ts, p + [i]) && ListAt(ts, p + [i]) == ListAt(ts, p)[i].children
    decreases |p|
  {
    if p != [] {
      ExtendPath(ts[p[0]].children, p[1..], i);
      assert (p + [i])[1..] == p[1..] + [i];
    }
  }

  /** Replacing a list and reading it back gives the new list; the path stays valid. */
  lemma {:induction false} SetListAtRead(ts: seq<Node>, p: Addr, l: seq<Node>)
    requires ValidPath(ts, p)
    ensures ValidPath(SetListAt(ts, p, l), p)
    ensures ListAt(SetListAt(ts, p, l), p) == l
    ensures |SetListAt(ts, p, l)| == if p == [] then |l| else |ts|
    decreases |p|
  {
    if p != [] {
      SetListAtRead(ts[p[0]].children, p[1..], l);
    }
  }

  /** Writing the list that is already there changes nothing. */
  lemma {:induction false} SetListAtSame(ts: seq<Node>, p: Addr)
    requires ValidPath(ts, p)
    ensures SetListAt(ts, p, ListAt(ts, p)) == ts
    decreases |p|
  {
    if p != [] {
      SetListAtSame(ts[p[0]].children, p[1..]);
    }
  }

  /** The item at address `a`, replaced by `n`. */
  function ReplaceAt(ts: seq<Node>, a: Addr, n: Node): (r: seq<Node>)
    requires ValidAddr(ts, a)
    ensures |r| == |ts|
    decreases |a|
  {
    if |a| == 1 then ts[a[0] := n]
    else ts[a[0] := ts[a[0]].(children := ReplaceAt(ts[a[0]].children, a[1..], n))]
  }

  /** Neither address lies at or below the other. */
  predicate Apart(a: Addr, b: Addr) {
    !(a <= b) && !(b <= a)
  }

  /** The replacement is found where it was put. */
  lemma {:induction false} ReplaceAtRead(ts: seq<Node>, a: Addr, n: Node)
    requires ValidAddr(ts, a)
    ensures ValidAddr(ReplaceAt(ts, a, n), a) && At(ReplaceAt(ts, a, n), a) == n
    decreases |a|
  {
    if |a| > 1 {
      ReplaceAtRead(ts[a[0]].children, a[1..], n);
    }
  }

  /** An address that does not lie below the replaced one still leads to an item. */
  lemma {:induction false} ReplaceAtValid(ts: seq<Node>, a: Addr, n: Node, b: Addr)
    requires ValidAddr(ts, a) && ValidAddr(ts, b) && !Below(a, b)
    ensures ValidAddr(ReplaceAt(ts, a, n), b)
    decreases |a|
  {
    if |a| > 1 && |b| > 1 && a[0] == b[0] {
      assert !Below(a[1..], b[1..]);
      ReplaceAtValid(ts[a[0]].children, a[1..], n, b[1..]);
    }
  }

  /** An item apart from the replaced one is left as it was. */
  lemma {:induction false} ReplaceAtApart(ts: seq<Node>, a: Addr, n: Node, b: Addr)
    requires ValidAddr(ts, a) && ValidAddr(ts, b) && Apart(a, b)
    ensures ValidAddr(ReplaceAt(ts, a, n), b) && At(ReplaceAt(ts, a, n), b) == At(ts, b)
    decreases |a|
  {
    if a[0] == b[0] {
      assert |a| > 1 && |b| > 1;
      assert Apart(a[1..], b[1..]);
      ReplaceAtApart(ts[a[0]].children, a[1..], n, b[1..]);
    }
  }

  /** A replacement below the top level keeps the top-level item's name, path and code. */
  lemma ReplaceAtTop(ts: seq<Node>, a: Addr, n: Node, i: nat)
    requires ValidAddr(ts, a) && i < |ts|
    ensures var r := ReplaceAt(ts, a, n);
      if i == a[0] && |a| == 1 then r[i] == n
      else r[i].name == ts[i].name && r[i].path == ts[i].path && r[i].code == ts[i].code
  {
  }

  /** The top-level index of an address does not change under a replacement below it,
      and neither does the top-level item's path. */
  lemma {:induction false} SetListAtTop(ts: seq<Node>, p: Addr, l: seq<Node>)
    requires ValidPath(ts, p) && p != []
    ensures |SetListAt(ts, p, l)| == |ts|
    ensures SetListAt(ts, p, l)[p[0]].path == ts[p[0]].path
    ensures SetListAt(ts, p, l)[p[0]].code == ts[p[0]].code
  {
  }

  // ---------------------------------------------------------------------------
  // Sibling list edits (QTreeWidgetItem.insertChild / removeChild / addChild)
  // ---------------------------------------------------------------------------

  /** `insertChild(i, x)`. */
  function Insert(l: seq<Node>, i: nat, x: Node): (r: seq<Node>)
    requires i <= |l|
    ensures |r| == |l| + 1 && r[i] == x
    ensures r[..i] == l[..i] && r[i + 1..] == l[i..]
  {
    l[..i] + [x] + l[i..]
  }

  /** `removeChild` of the item at index `i`. */
  function Remove(l: seq<Node>, i: nat): (r: seq<Node>)
    requires i < |l|
    ensures |r| == |l| - 1
    ensures r[..i] == l[..i] && r[i..] == l[i + 1..]
  {
    l[..i] + l[i + 1..]
  }

  /** Inserting an item and removing it again gives the list back. */
  lemma RemoveInsert(l: seq<Node>, i: nat, x: Node)
    requires i <= |l|
    ensures Remove(Insert(l, i, x), i) == l
  {
    assert Insert(l, i, x)[..i] + Insert(l, i, x)[i + 1..] == l[..i] + l[i..];
    assert l[..i] + l[i..] == l;
  }

  /** `a` is a proper prefix of `b`: the item at `b` lies below the one at `a`. */
  predicate Below(a: Addr, b: Addr) {
    |a| < |b| && b[..|a|] == a
  }

  /** Putting an item in front of a list shifts the first index of every address by one. */
  lemma AddrShift(x: Node, ts: seq<Node>, k: nat, t: Addr)
    requires ValidAddr(ts, [k] + t)
    ensures ValidAddr([x] + ts, [k + 1] + t)
    ensures At([x] + ts, [k + 1] + t) == At(ts, [k] + t)
  {
    assert ([k + 1] + t)[1..] == t && ([k] + t)[1..] == t;
  }

  /** An address inside the first item of a list. */
  lemma AddrInFirst(ts: seq<Node>, t: Addr)
    requires |ts| > 0 && ValidAddr(ts[0].children, t)
    ensures ValidAddr(ts, [0] + t)
    ensures At(ts, [0] + t) == At(ts[0].children, t)
  {
    assert ([0] + t)[1..] == t;
  }

  /** An item that has another item below it has children. */
  lemma {:induction false} BelowHasChildren(ts: seq<Node>, b: Addr, a: Addr)
    requires ValidAddr(ts, a) && Below(b, a) && |b| > 0
    ensures ValidAddr(ts, b) && |At(ts, b).children| > 0
    decreases |b|
  {
    assert b[0] == a[..|b|][0] == a[0];
    assert ValidPath(ts[a[0]].children, a[1..]) && a[1..] != [];
    if |b| > 1 {
      assert a[1..][..|b| - 1] == b[1..];
      BelowHasChildren(ts[a[0]].children, b[1..], a[1..]);
    }
  }

  /** Below an item, the list an address leads to is that item's children. */
  lemma {:induction false} ListAtChildren(ts: seq<Node>, q: Addr)
    requires ValidAddr(ts, q)
    ensures ListAt(ts, q) == At(ts, q).children
    decreases |q|
  {
    if |q| > 1 {
      ListAtChildren(ts[q[0]].children, q[1..]);
    }
  }

  /** Replacing the children of an item keeps the item's own columns. */
  lemma {:induction false} SetListAtItem(ts: seq<Node>, q: Addr, l: seq<Node>)
    requires ValidAddr(ts, q)
    ensures ValidAddr(SetListAt(ts, q, l), q)
    ensures At(SetListAt(ts, q, l), q) == At(ts, q).(children := l)
    decreases |q|
  {
    if |q| > 1 {
      SetListAtItem(ts[q[0]].children, q[1..], l);
    }
  }

  /** A second replacement of the same list overrides the first. */
  lemma {:induction false} SetListAtTwice(ts: seq<Node>, p: Addr, l1: seq<Node>, l2: seq<Node>)
    requires ValidPath(ts, p)
    ensures ValidPath(SetListAt(ts, p, l1), p)
    ensures SetListAt(SetListAt(ts, p, l1), p, l2) == SetListAt(ts, p, l2)
    decreases |p|
  {
    SetListAtRead(ts, p, l1);
    if p != [] {
      SetListAtTwice(ts[p[0]].children, p[1..], l1, l2);
    }
  }

  lemma CodesOfSingle(x: Node)
    ensures CodesOf([x]) == Codes(x)
  {
    assert [x][1..] == [];
  }

  /** Replacing one element of a list: what the new element adds (`t`) or lacks
      (`s`) compared with the old one, the list adds or lacks too. */
  lemma CodesOfUpdate(ts: seq<Node>, j: nat, y: Node, s: set<Code>, t: set<Code>)
    requires j < |ts| && Codes(y) + s == Codes(ts[j]) + t
    ensures CodesOf(ts[j := y]) + s == CodesOf(ts) + t
  {
    assert ts == ts[..j] + [ts[j]] + ts[j + 1..];
    assert ts[j := y] == ts[..j] + [y] + ts[j + 1..];
    CodesOfAppend(ts[..j] + [ts[j]], ts[j + 1..]);
    CodesOfAppend(ts[..j], [ts[j]]);
    CodesOfAppend(ts[..j] + [y], ts[j + 1..]);
    CodesOfAppend(ts[..j], [y]);
    CodesOfSingle(y);
    CodesOfSingle(ts[j]);
  }

  /** The same for a list anywhere in the tree. */
  lemma {:induction false} CodesOfSetListAt(ts: seq<Node>, p: Addr, l: seq<Node>, s: set<Code>, t: set<Code>)
    requires ValidPath(ts, p)
    requires CodesOf(l) + s == CodesOf(ListAt(ts, p)) + t
    ensures CodesOf(SetListAt(ts, p, l)) + s == CodesOf(ts) + t
    decreases |p|
  {
    if p != [] {
      var x := ts[p[0]];
      var l' := SetListAt(x.children, p[1..], l);
      CodesOfSetListAt(x.children, p[1..], l, s, t);
      CodesOfUpdate(ts, p[0], x.(children := l'), s, t);
    }
  }

  /** `insertChild` adds the codes of the new item. */
  lemma CodesOfInsert(l: seq<Node>, i: nat, x: Node)
    requires i <= |l|
    ensures CodesOf(Insert(l, i, x)) == CodesOf(l) + Codes(x)
  {
    assert l == l[..i] + l[i..];
    CodesOfAppend(l[..i] + [x], l[i..]);
    CodesOfAppend(l[..i], [x]);
    CodesOfAppend(l[..i], l[i..]);
    CodesOfSingle(x);
  }

  /** `removeChild` loses at most the codes of the removed item. */
  lemma {:induction false} CodesOfRemove(l: seq<Node>, i: nat)
    requires i < |l|
    ensures CodesOf(Remove(l, i)) + Codes(l[i]) == CodesOf(l)
    decreases i
  {
    var r := Remove(l, i);
    if i == 0 {
      assert r == l[1..];
    } else {
      var r' := Remove(l[1..], i - 1);
      assert r[0] == l[0] && r[1..] == r';
      CodesOfRemove(l[1..], i - 1);
      assert CodesOf(r) == Codes(l[0]) + CodesOf(r');
    }
  }

  /** Taking an item out and putting it back where it was gives the list back. */
  lemma InsertRemove(l: seq<Node>, i: nat)
    requires i < |l|
    ensures Insert(Remove(l, i), i, l[i]) == l
  {
    assert l[..i] + [l[i]] + l[i + 1..] == l;
  }
}
