/**
 The red-black tree of dsa/rb/rb.cpp, parent pointers and all. The pointer
 structure is described by a tree value and, around the node being worked on,
 by the path from it up to the root.
 */
module RedBlack {

  datatype Color = Black | Red

  class Node {
    var data: int
    var color: Color
    var parent: Node?
    var right: Node?
    var left: Node?

    constructor (d: int)
      ensures data == d && color == Red && parent == null && right == null && left == null
    {
      data, color, parent, right, left := d, Red, null, null, null;
    }
  }

  // A subtree: its nodes with the colors and keys they hold.
  datatype Tree = Leaf | T(l: Tree, n: Node, c: Color, k: int, r: Tree)

  // A tree with a hole: what surrounds a subtree, from its parent upwards.
  datatype Path =
    | Top
    | InLeft(up: Path, n: Node, c: Color, k: int, r: Tree)
    | InRight(up: Path, l: Tree, n: Node, c: Color, k: int)

  ghost function Plug(p: Path, t: Tree): Tree {
    match p
    case Top => t
    case InLeft(up, n, c, k, r) => Plug(up, T(t, n, c, k, r))
    case InRight(up, l, n, c, k) => Plug(up, T(l, n, c, k, t))
  }

  ghost function Inorder(t: Tree): seq<int> {
    match t
    case Leaf => []
    case T(l, n, c, k, r) => Inorder(l) + [k] + Inorder(r)
  }

  // The keys before and after the hole.
  ghost function Before(p: Path): seq<int> {
    match p
    case Top => []
    case InLeft(up, n, c, k, r) => Before(up)
    case InRight(up, l, n, c, k) => Before(up) + Inorder(l) + [k]
  }

  ghost function After(p: Path): seq<int> {
    match p
    case Top => []
    case InLeft(up, n, c, k, r) => [k] + Inorder(r) + After(up)
    case InRight(up, l, n, c, k) => After(up)
  }

  lemma {:induction false} PlugInorder(p: Path, t: Tree)
    ensures Inorder(Plug(p, t)) == Before(p) + Inorder(t) + After(p)
    decreases p
  {
    match p
    case Top =>
    case InLeft(up, n, c, k, r) => PlugInorder(up, T(t, n, c, k, r));
    case InRight(up, l, n, c, k) => PlugInorder(up, T(l, n, c, k, t));
  }

  // ---- Red-black trees as values ----

  ghost predicate BlackRoot(t: Tree) {
    t.T? ==> t.c == Black
  }

  // No red node has a red child, and every way down passes h black nodes.
  ghost predicate Balanced(t: Tree, h: nat) {
    match t
    case Leaf => h == 0
    case T(l, n, c, k, r) =>
      if c == Red then BlackRoot(l) && BlackRoot(r) && Balanced(l, h) && Balanced(r, h)
      else h > 0 && Balanced(l, h - 1) && Balanced(r, h - 1)
  }

  ghost predicate RedBlackTree(t: Tree) {
    BlackRoot(t) && exists h: nat :: Balanced(t, h)
  }

  ghost predicate BlackFrame(p: Path) {
    p.Top? || p.c == Black
  }

  // What surrounds the hole is a red-black tree if a subtree of black height h is
  // put there, except that the subtree's root may be red under a red parent.
  ghost predicate PathOk(p: Path, h: nat) {
    match p
    case Top => true
    case InLeft(up, n, c, k, r) =>
      && Balanced(r, h) && (up.Top? ==> c == Black)
      && (c == Red ==> BlackRoot(r) && BlackFrame(up))
      && PathOk(up, if c == Black then h + 1 else h)
    case InRight(up, l, n, c, k) =>
      && Balanced(l, h) && (up.Top? ==> c == Black)
      && (c == Red ==> BlackRoot(l) && BlackFrame(up))
      && PathOk(up, if c == Black then h + 1 else h)
  }

  lemma {:induction false} PlugBalanced(p: Path, t: Tree, h: nat)
    requires PathOk(p, h) && Balanced(t, h) && (BlackRoot(t) || !p.Top?) && (BlackRoot(t) || BlackFrame(p))
    ensures RedBlackTree(Plug(p, t))
    decreases p
  {
    match p
    case Top =>
    case InLeft(up, n, c, k, r) => PlugBalanced(up, T(t, n, c, k, r), if c == Black then h + 1 else h);
    case InRight(up, l, n, c, k) => PlugBalanced(up, T(l, n, c, k, t), if c == Black then h + 1 else h);
  }

  // The surroundings of a place in a red-black tree are all right.
  lemma {:induction false} UnplugBalanced(p: Path, t: Tree) returns (h: nat)
    requires RedBlackTree(Plug(p, t))
    ensures PathOk(p, h) && Balanced(t, h) && (BlackRoot(t) || (!p.Top? && p.c == Black))
    decreases p
  {
    match p
    case Top =>
      h :| Balanced(t, h);
    case InLeft(up, n, c, k, r) =>
      var h' := UnplugBalanced(up, T(t, n, c, k, r));
      h := if c == Black then h' - 1 else h';
    case InRight(up, l, n, c, k) =>
      var h' := UnplugBalanced(up, T(l, n, c, k, t));
      h := if c == Black then h' - 1 else h';
  }

  // ---- Nodes and pointers ----

  ghost function Nodes(t: Tree): set<Node> {
    match t
    case Leaf => {}
    case T(l, n, c, k, r) => Nodes(l) + {n} + Nodes(r)
  }

  ghost function PathNodes(p: Path): set<Node> {
    match p
    case Top => {}
    case InLeft(up, n, c, k, r) => PathNodes(up) + {n} + Nodes(r)
    case InRight(up, l, n, c, k) => PathNodes(up) + {n} + Nodes(l)
  }

  ghost function RootSet(t: Tree): set<Node> {
    if t.Leaf? then {} else {t.n}
  }

  ghost function UpSet(p: Path): set<Node> {
    if p.Top? then {} else {p.n}
  }

  ghost function Ptr(t: Tree): Node? {
    if t.Leaf? then null else t.n
  }

  ghost function UpPtr(p: Path): Node? {
    if p.Top? then null else p.n
  }

  // The root of the tree in whose hole `hole` is.
  ghost function RootPtr(p: Path, hole: Node?): Node? {
    match p
    case Top => hole
    case InLeft(up, n, c, k, r) => RootPtr(up, n)
    case InRight(up, l, n, c, k) => RootPtr(up, n)
  }

  ghost predicate NodeIs(n: Node, l: Node?, r: Node?, up: Node?, c: Color, k: int)
    reads n
  {
    n.left == l && n.right == r && n.parent == up && n.color == c && n.data == k
  }

  // The heap holds subtree t under `up`.
  ghost predicate Linked(t: Tree, up: Node?)
    reads Nodes(t)
    decreases t
  {
    match t
    case Leaf => true
    case T(l, n, c, k, r) => NodeIs(n, Ptr(l), Ptr(r), up, c, k) && Linked(l, n) && Linked(r, n)
  }

  // The heap holds path p, with `hole` where the hole is.
  ghost predicate PathLinked(p: Path, hole: Node?)
    reads PathNodes(p)
    decreases p
  {
    match p
    case Top => true
    case InLeft(up, n, c, k, r) =>
      NodeIs(n, hole, Ptr(r), UpPtr(up), c, k) && Linked(r, n) && PathLinked(up, n)
    case InRight(up, l, n, c, k) =>
      NodeIs(n, Ptr(l), hole, UpPtr(up), c, k) && Linked(l, n) && PathLinked(up, n)
  }

  ghost predicate Apart(t: Tree) {
    match t
    case Leaf => true
    case T(l, n, c, k, r) => n !in Nodes(l) && n !in Nodes(r) && Nodes(l) !! Nodes(r) && Apart(l) && Apart(r)
  }

  ghost predicate PathApart(p: Path) {
    match p
    case Top => true
    case InLeft(up, n, c, k, r) =>
      && n !in PathNodes(up) && n !in Nodes(r) && PathNodes(up) !! Nodes(r) && PathApart(up) && Apart(r)
    case InRight(up, l, n, c, k) =>
      && n !in PathNodes(up) && n !in Nodes(l) && PathNodes(up) !! Nodes(l) && PathApart(up) && Apart(l)
  }

  ghost predicate AllApart(p: Path, t: Tree) {
    Apart(t) && PathApart(p) && PathNodes(p) !! Nodes(t)
  }

  // The heap holds t in the hole of p, all nodes distinct.
  ghost predicate Holds(p: Path, t: Tree)
    reads PathNodes(p), Nodes(t)
  {
    Linked(t, UpPtr(p)) && PathLinked(p, Ptr(t)) && AllApart(p, t)
  }

  lemma {:induction false} RootInPath(p: Path, hole: Node?)
    ensures if p.Top? then RootPtr(p, hole) == hole else RootPtr(p, hole) in PathNodes(p)
  {
    match p
    case Top =>
    case InLeft(up, n, c, k, r) => RootInPath(up, n);
    case InRight(up, l, n, c, k) => RootInPath(up, n);
  }

  // The nodes of the pieces of a rotation: x and y, three subtrees, and the path.
  ghost predicate Separate(p: Path, a: Tree, b: Tree, c: Tree, x: Node, y: Node) {
    && x != y && x !in Nodes(a) && x !in Nodes(b) && x !in Nodes(c) && x !in PathNodes(p)
    && y !in Nodes(a) && y !in Nodes(b) && y !in Nodes(c) && y !in PathNodes(p)
    && Nodes(a) !! Nodes(b) && Nodes(a) !! Nodes(c) && Nodes(b) !! Nodes(c)
    && PathNodes(p) !! Nodes(a) && PathNodes(p) !! Nodes(b) && PathNodes(p) !! Nodes(c)
    && UpSet(p) <= PathNodes(p) && RootSet(a) <= Nodes(a) && RootSet(b) <= Nodes(b) && RootSet(c) <= Nodes(c)
    && Apart(a) && Apart(b) && Apart(c) && PathApart(p)
  }

  ghost predicate Pieces(p: Path, a: Tree, b: Tree, c: Tree, ua: Node, ub: Node, uc: Node, hole: Node)
    reads PathNodes(p), Nodes(a), Nodes(b), Nodes(c)
  {
    Linked(a, ua) && Linked(b, ub) && Linked(c, uc) && PathLinked(p, hole)
  }

  lemma Roots(p: Path, a: Tree, b: Tree, c: Tree)
    ensures UpSet(p) <= PathNodes(p) && RootSet(a) <= Nodes(a) && RootSet(b) <= Nodes(b) && RootSet(c) <= Nodes(c)
  {
  }

  lemma RightSeparate(p: Path, a: Tree, b: Tree, c: Tree, x: Node, cx: Color, kx: int, y: Node, cy: Color, ky: int)
    ensures AllApart(p, T(T(a, x, cx, kx, b), y, cy, ky, c)) <==> Separate(p, a, b, c, x, y)
  {
    hide PathApart, PathNodes, RootSet, UpSet;
    Roots(p, a, b, c);
    var t := T(a, x, cx, kx, b);
    assert Nodes(t) == Nodes(a) + {x} + Nodes(b);
    assert Nodes(T(t, y, cy, ky, c)) == Nodes(t) + {y} + Nodes(c);
    assert Apart(t) <==> x !in Nodes(a) && x !in Nodes(b) && Nodes(a) !! Nodes(b) && Apart(a) && Apart(b);
  }

  lemma LeftSeparate(p: Path, a: Tree, b: Tree, c: Tree, x: Node, cx: Color, kx: int, y: Node, cy: Color, ky: int)
    ensures AllApart(p, T(a, x, cx, kx, T(b, y, cy, ky, c))) <==> Separate(p, a, b, c, x, y)
  {
    hide PathApart, PathNodes, RootSet, UpSet;
    Roots(p, a, b, c);
    var t := T(b, y, cy, ky, c);
    assert Nodes(t) == Nodes(b) + {y} + Nodes(c);
    assert Nodes(T(a, x, cx, kx, t)) == Nodes(a) + {x} + Nodes(t);
    assert Apart(t) <==> y !in Nodes(b) && y !in Nodes(c) && Nodes(b) !! Nodes(c) && Apart(b) && Apart(c);
  }

  // Two nodes above three subtrees: x above a and b, and y above x and c.
  lemma RightLeaning(p: Path, a: Tree, b: Tree, c: Tree, x: Node, cx: Color, kx: int, y: Node, cy: Color, ky: int)
    ensures Holds(p, T(T(a, x, cx, kx, b), y, cy, ky, c))
      <==> (&& Separate(p, a, b, c, x, y) && Pieces(p, a, b, c, x, x, y, y)
            && NodeIs(x, Ptr(a), Ptr(b), y, cx, kx) && NodeIs(y, x, Ptr(c), UpPtr(p), cy, ky))
  {
    hide PathApart, PathLinked, AllApart, Separate, Nodes, PathNodes, Apart;
    var t := T(a, x, cx, kx, b);
    RightSeparate(p, a, b, c, x, cx, kx, y, cy, ky);
    assert Linked(t, y) <==> NodeIs(x, Ptr(a), Ptr(b), y, cx, kx) && Linked(a, x) && Linked(b, x);
  }

  // x above a and y, and y above b and c.
  lemma LeftLeaning(p: Path, a: Tree, b: Tree, c: Tree, x: Node, cx: Color, kx: int, y: Node, cy: Color, ky: int)
    ensures Holds(p, T(a, x, cx, kx, T(b, y, cy, ky, c)))
      <==> (&& Separate(p, a, b, c, x, y) && Pieces(p, a, b, c, x, y, y, x)
            && NodeIs(x, Ptr(a), y, UpPtr(p), cx, kx) && NodeIs(y, Ptr(b), Ptr(c), x, cy, ky))
  {
    hide PathApart, PathLinked, AllApart, Separate, Nodes, PathNodes, Apart;
    var t := T(b, y, cy, ky, c);
    LeftSeparate(p, a, b, c, x, cx, kx, y, cy, ky);
    assert Linked(t, x) <==> NodeIs(y, Ptr(b), Ptr(c), x, cy, ky) && Linked(b, y) && Linked(c, y);
  }

  // The focus may move between a node and its children.
  lemma FocusLeft(p: Path, l: Tree, n: Node, c: Color, k: int, r: Tree)
    ensures Holds(p, T(l, n, c, k, r)) <==> Holds(InLeft(p, n, c, k, r), l)
  {
    assert Nodes(T(l, n, c, k, r)) == Nodes(l) + {n} + Nodes(r);
    assert PathNodes(InLeft(p, n, c, k, r)) == PathNodes(p) + {n} + Nodes(r);
  }

  lemma FocusRight(p: Path, l: Tree, n: Node, c: Color, k: int, r: Tree)
    ensures Holds(p, T(l, n, c, k, r)) <==> Holds(InRight(p, l, n, c, k), r)
  {
    assert Nodes(T(l, n, c, k, r)) == Nodes(l) + {n} + Nodes(r);
    assert PathNodes(InRight(p, l, n, c, k)) == PathNodes(p) + {n} + Nodes(l);
  }

  lemma Focused(p: Path, t: Tree)
    requires Holds(p, t) && t.T?
    ensures NodeIs(t.n, Ptr(t.l), Ptr(t.r), UpPtr(p), t.c, t.k)
    ensures t.n in Nodes(t) && Nodes(t.l) <= Nodes(t) && Nodes(t.r) <= Nodes(t)
  {
  }

  lemma {:induction false} FocusTop(p: Path, t: Tree)
    requires Holds(p, t)
    ensures Holds(Top, Plug(p, t)) && RootPtr(p, Ptr(t)) == Ptr(Plug(p, t))
    decreases p
  {
    hide Holds;
    match p
    case Top =>
    case InLeft(up, n, c, k, r) =>
      FocusLeft(up, t, n, c, k, r);
      FocusTop(up, T(t, n, c, k, r));
    case InRight(up, l, n, c, k) =>
      FocusRight(up, l, n, c, k, t);
      FocusTop(up, T(l, n, c, k, t));
  }

  // ---- Keys ----

  ghost predicate Sorted(s: seq<int>) {
    forall i, j :: 0 <= i < j < |s| ==> s[i] <= s[j]
  }

  ghost predicate AtMost(s: seq<int>, d: int) {
    forall i :: 0 <= i < |s| ==> s[i] <= d
  }

  ghost predicate AtLeast(s: seq<int>, d: int) {
    forall i :: 0 <= i < |s| ==> d <= s[i]
  }

  ghost predicate Above(s: seq<int>, d: int) {
    forall i :: 0 <= i < |s| ==> d < s[i]
  }

  // A new key goes after the keys equal to it.
  lemma SortedWith(before: seq<int>, d: int, after: seq<int>)
    requires Sorted(before + after) && AtMost(before, d) && Above(after, d)
    ensures Sorted(before + [d] + after)
    ensures multiset(before + [d] + after) == multiset(before + after) + multiset{d}
  {
    var s := before + after;
    var u := before + [d] + after;
    forall i, j | 0 <= i < j < |u| ensures u[i] <= u[j] {
      if i != |before| && j != |before| {
        assert u[i] == s[if i < |before| then i else i - 1] && u[j] == s[if j < |before| then j else j - 1];
      }
    }
  }

  lemma SortedParts(b: seq<int>, l: seq<int>, k: int, r: seq<int>, a: seq<int>)
    requires Sorted(b + (l + [k] + r) + a)
    ensures AtMost(l, k) && AtLeast(r, k)
  {
    var s := b + (l + [k] + r) + a;
    var m := |b| + |l|;
    assert s[m] == k;
    forall i | 0 <= i < |l| ensures l[i] <= k { assert l[i] == s[|b| + i]; }
    forall i | 0 <= i < |r| ensures k <= r[i] { assert r[i] == s[m + 1 + i]; }
  }

  lemma Turned(b: seq<int>, l: seq<int>, k: int, r: seq<int>, a: seq<int>, d: int)
    requires AtMost(l, k) && AtLeast(r, k) && AtMost(b, d) && Above(a, d)
    ensures if d < k then Above([k] + r + a, d) else AtMost(b + l + [k], d)
  {
  }

  // Where the search turns, the whole of the other side has been compared.
  lemma SearchTurn(p: Path, t: Tree, d: int)
    requires t.T? && Sorted(Inorder(Plug(p, t))) && AtMost(Before(p), d) && Above(After(p), d)
    ensures d < t.k ==>
      AtMost(Before(InLeft(p, t.n, t.c, t.k, t.r)), d) && Above(After(InLeft(p, t.n, t.c, t.k, t.r)), d)
    ensures d >= t.k ==>
      AtMost(Before(InRight(p, t.l, t.n, t.c, t.k)), d) && Above(After(InRight(p, t.l, t.n, t.c, t.k)), d)
  {
    PlugInorder(p, t);
    SortedParts(Before(p), Inorder(t.l), t.k, Inorder(t.r), After(p));
    Turned(Before(p), Inorder(t.l), t.k, Inorder(t.r), After(p), d);
    hide Sorted, AtMost, Above, Inorder;
  }

  // ---- Repair ----

  // The only fault is that the red node at the focus may have a red parent.
  ghost predicate Repairable(p: Path, t: Tree, h: nat) {
    && t.T? && (t.c == Red || p.Top?) && BlackRoot(t.l) && BlackRoot(t.r) && Balanced(t.l, h) && Balanced(t.r, h)
    && PathOk(p, h)
  }

  ghost function Depth(p: Path): nat {
    if p.Top? then 0 else 1 + Depth(p.up)
  }

  // The subtree one step up.
  ghost function Up(p: Path, t: Tree): (u: Tree)
    requires !p.Top?
    ensures u.T?
  {
    if p.InLeft? then T(t, p.n, p.c, p.k, p.r) else T(p.l, p.n, p.c, p.k, t)
  }

  lemma FocusUp(p: Path, t: Tree)
    requires !p.Top?
    ensures Holds(p, t) <==> Holds(p.up, Up(p, t))
    ensures Plug(p, t) == Plug(p.up, Up(p, t))
    ensures RootPtr(p, Ptr(t)) == RootPtr(p.up, p.n)
  {
    hide Holds;
    match p
    case InLeft(up, n, c, k, r) => FocusLeft(up, t, n, c, k, r);
    case InRight(up, l, n, c, k) => FocusRight(up, l, n, c, k, t);
  }

  lemma {:induction false} PlugNodes(p: Path, t: Tree)
    ensures Nodes(Plug(p, t)) == PathNodes(p) + Nodes(t)
    decreases p
  {
    match p
    case Top =>
    case InLeft(up, n, c, k, r) => PlugNodes(up, T(t, n, c, k, r));
    case InRight(up, l, n, c, k) => PlugNodes(up, T(l, n, c, k, t));
  }

  lemma Grown(p: Path, n: Node, d: int)
    requires Sorted(Inorder(Plug(p, Leaf))) && AtMost(Before(p), d) && Above(After(p), d)
    ensures var t := T(Leaf, n, Red, d, Leaf);
      && Sorted(Inorder(Plug(p, t)))
      && multiset(Inorder(Plug(p, t))) == multiset(Inorder(Plug(p, Leaf))) + multiset{d}
  {
    var t := T(Leaf, n, Red, d, Leaf);
    PlugLeaf(p);
    PlugOne(p, n, d);
    hide Plug, Inorder, Before, After, Sorted, AtMost, Above;
    SortedWith(Before(p), d, After(p));
  }

  lemma PlugLeaf(p: Path)
    ensures Inorder(Plug(p, Leaf)) == Before(p) + After(p)
  {
    PlugInorder(p, Leaf);
    hide Plug, Before, After;
    assert Before(p) + [] == Before(p);
  }

  lemma PlugOne(p: Path, n: Node, d: int)
    ensures Inorder(Plug(p, T(Leaf, n, Red, d, Leaf))) == Before(p) + [d] + After(p)
  {
    PlugInorder(p, T(Leaf, n, Red, d, Leaf));
    hide Plug, Before, After;
    assert Inorder(T(Leaf, n, Red, d, Leaf)) == [d];
  }

  lemma GrownNodes(p: Path, n: Node, d: int)
    requires !p.Top?
    ensures var t := T(Leaf, n, Red, d, Leaf);
      Nodes(Plug(p, t)) == Nodes(Plug(p, Leaf)) + {n} && Ptr(Plug(p, t)) == Ptr(Plug(p, Leaf))
  {
    var t := T(Leaf, n, Red, d, Leaf);
    PlugNodes(p, t);
    PlugNodes(p, Leaf);
    PlugRoot(p, t, Leaf);
  }

  lemma {:induction false} PlugRoot(p: Path, t: Tree, u: Tree)
    requires !p.Top?
    ensures Ptr(Plug(p, t)) == Ptr(Plug(p, u))
    decreases p
  {
    if !p.up.Top? { PlugRoot(p.up, Up(p, t), Up(p, u)); }
  }

  // The keys in order and the nodes are those of t.
  ghost predicate Same(t: Tree, u: Tree) {
    Inorder(t) == Inorder(u) && Nodes(t) == Nodes(u)
  }

  lemma SamePlugged(p: Path, t: Tree, u: Tree)
    requires Same(t, u)
    ensures Same(Plug(p, t), Plug(p, u))
  {
    PlugInorder(p, t);
    PlugInorder(p, u);
    PlugNodes(p, t);
    PlugNodes(p, u);
  }

  lemma SameRotated(a: Tree, x: Node, cx: Color, cx': Color, kx: int, b: Tree, y: Node, cy: Color, cy': Color,
                    ky: int, c: Tree)
    ensures Same(T(T(a, x, cx, kx, b), y, cy, ky, c), T(a, x, cx', kx, T(b, y, cy', ky, c)))
  {
    var i, j, k := Inorder(a), Inorder(b), Inorder(c);
    assert (i + [kx] + j) + [ky] + k == i + [kx] + (j + [ky] + k);
  }

  // Parent and uncle are red: they turn black, and the fault moves to the grandparent.
  ghost function Recolored(p: Path, t: Tree): Tree
    requires !p.Top? && !p.up.Top?
  {
    var u := Painted(Up(p, t), Black);
    if p.up.InLeft? then T(u, p.up.n, Red, p.up.k, Painted(p.up.r, Black)) else T(Painted(p.up.l, Black), p.up.n, Red,
        p.up.k, u)
  }

  ghost function Painted(t: Tree, c: Color): Tree {
    if t.Leaf? then t else t.(c := c)
  }

  ghost function Sibling(p: Path): Tree
    requires !p.Top?
  {
    if p.InLeft? then p.r else p.l
  }

  ghost predicate RedParent(p: Path) {
    !p.Top? && p.c == Red && !p.up.Top?
  }

  lemma Recolors(p: Path, t: Tree, h: nat)
    requires Repairable(p, t, h) && RedParent(p) && Sibling(p.up).T? && Sibling(p.up).c == Red
    ensures Repairable(p.up.up, Recolored(p, t), h + 1)
    ensures Same(Plug(p, t), Plug(p.up.up, Recolored(p, t)))
  {
    assert PathOk(p.up, h) && PathOk(p.up.up, h + 1);
    assert Balanced(Painted(Sibling(p.up), Black), h + 1) && Balanced(Painted(Up(p, t), Black), h + 1);
    var w := Up(p.up, Up(p, t));
    assert Same(w, Recolored(p, t)) by { SameRecolored(p, t); }
    SamePlugged(p.up.up, w, Recolored(p, t));
  }

  lemma SameRecolored(p: Path, t: Tree)
    requires !p.Top? && !p.up.Top?
    ensures Same(Up(p.up, Up(p, t)), Recolored(p, t))
  {
    var u := Sibling(p.up);
    assert Same(u, Painted(u, Black));
    assert Same(Up(p, t), Painted(Up(p, t), Black));
  }

  // The focus on the inner side of a red parent: a rotation brings it to the outer side.
  lemma TurnsOut(g: Path, a: Tree, x: Node, kx: int, b: Tree, y: Node, ky: int, c: Tree, h: nat)
    requires BlackFrame(g) && !g.Top?
    ensures Repairable(InRight(g, a, x, Red, kx), T(b, y, Red, ky, c), h)
      <==> Repairable(InLeft(g, y, Red, ky, c), T(a, x, Red, kx, b), h)
    ensures Same(Plug(InRight(g, a, x, Red, kx), T(b, y, Red, ky, c)), Plug(InLeft(g, y, Red, ky, c), T(a, x, Red, kx,
        b)))
  {
    SameRotated(a, x, Red, Red, kx, b, y, Red, Red, ky, c);
    SamePlugged(g, T(a, x, Red, kx, T(b, y, Red, ky, c)), T(T(a, x, Red, kx, b), y, Red, ky, c));
  }

  // The focus on the outer side, with a black uncle: the last rotation removes the fault.
  lemma MendsLeft(g: Path, t: Tree, x: Node, kx: int, s: Tree, y: Node, ky: int, u: Tree, h: nat)
    requires Repairable(InLeft(InLeft(g, y, Black, ky, u), x, Red, kx, s), t, h) && BlackRoot(u)
    ensures Repairable(InLeft(g, x, Black, kx, T(s, y, Red, ky, u)), t, h)
    ensures Same(Plug(InLeft(InLeft(g, y, Black, ky, u), x, Red, kx, s), t), Plug(InLeft(g, x, Black, kx, T(s, y, Red,
        ky, u)), t))
  {
    assert PathOk(InLeft(g, y, Black, ky, u), h) && PathOk(g, h + 1) && Balanced(T(s, y, Red, ky, u), h);
    SameRotated(t, x, Red, Black, kx, s, y, Black, Red, ky, u);
    SamePlugged(g, T(T(t, x, Red, kx, s), y, Black, ky, u), T(t, x, Black, kx, T(s, y, Red, ky, u)));
  }

  lemma MendsRight(g: Path, t: Tree, x: Node, kx: int, s: Tree, y: Node, ky: int, u: Tree, h: nat)
    requires Repairable(InRight(InRight(g, u, y, Black, ky), s, x, Red, kx), t, h) && BlackRoot(u)
    ensures Repairable(InRight(g, T(u, y, Red, ky, s), x, Black, kx), t, h)
    ensures Same(Plug(InRight(InRight(g, u, y, Black, ky), s, x, Red, kx), t), Plug(InRight(g, T(u, y, Red, ky, s), x,
        Black, kx), t))
  {
    assert PathOk(InRight(g, u, y, Black, ky), h) && PathOk(g, h + 1) && Balanced(T(u, y, Red, ky, s), h);
    SameRotated(u, y, Red, Black, ky, s, x, Black, Red, kx, t);
    SameRotated(u, y, Black, Red, ky, s, x, Red, Black, kx, t);
    SamePlugged(g, T(u, y, Black, ky, T(s, x, Red, kx, t)), T(T(u, y, Red, ky, s), x, Black, kx, t));
  }

  lemma Within(p: Path, t: Tree)
    requires Holds(p, t) && t.T? && !p.Top? && !p.up.Top?
    ensures t.n in Nodes(Plug(p, t)) && p.n in Nodes(Plug(p, t)) && p.up.n in Nodes(Plug(p, t))
    ensures RootSet(t.l) <= Nodes(Plug(p, t)) && RootSet(t.r) <= Nodes(Plug(p, t))
    ensures RootSet(Sibling(p)) <= Nodes(Plug(p, t)) && RootSet(Sibling(p.up)) <= Nodes(Plug(p, t))
    ensures UpSet(p.up.up) <= Nodes(Plug(p, t))
    ensures t.n != p.n && t.n != p.up.n && p.n != p.up.n && Ptr(Sibling(p)) != t.n && Ptr(Sibling(p.up)) != p.n
  {
    PlugNodes(p, t);
  }

  lemma Fault(p: Path, t: Tree, h: nat)
    requires Repairable(p, t, h) && RedParent(p)
    ensures t.T? && t.c == Red && p.up.c == Black && BlackRoot(Sibling(p))
  {
  }

  // The first node, black at once.
  lemma Planted(n: Node)
    requires NodeIs(n, null, null, null, Black, n.data)
    ensures var t := T(Leaf, n, Black, n.data, Leaf);
      && Holds(Top, t) && Repairable(Top, t, 0) && RootPtr(Top, n) == n && Plug(Top, t) == t
      && Inorder(t) == [n.data] && Sorted([n.data]) && Nodes(t) == {n}
    ensures Inorder(Leaf) == [] && Nodes(Leaf) == {}
  {
  }

  lemma AtTop(t: Tree, d: int)
    ensures PathNodes(Top) == {} && Plug(Top, t) == t && AtMost(Before(Top), d) && Above(After(Top), d)
  {
  }

  lemma Attached(p: Path, n: Node, d: int, h: nat)
    requires PathOk(p, h) && Balanced(Leaf, h) && Plug(p, Leaf).T?
    ensures !p.Top? && Repairable(p, T(Leaf, n, Red, d, Leaf), h)
  {
  }

  // What the guard of the repair loop reads.
  lemma LoopGuard(p: Path, t: Tree, h: nat)
    requires Holds(p, t) && Repairable(p, t, h)
    ensures t.T? && (RootPtr(p, t.n) == t.n <==> p.Top?)
    ensures !p.Top? ==> t.n.parent == p.n && p.n.color == p.c && (p.c == Red ==> RedParent(p))
    ensures RedParent(p) ==> p.n.parent == p.up.n && (p.n == p.up.n.left <==> p.up.InLeft?)
  {
    RootInPath(p, t.n);
    if RedParent(p) {
      FocusUp(p, t);
      Focused(p.up.up, Up(p.up, Up(p, t)));
      FocusUp(p.up, Up(p, t));
      Within(p, t);
    }
  }

  lemma Repaired(p: Path, t: Tree, h: nat)
    requires Repairable(p, t, h) && !RedParent(p)
    ensures Plug(p, t).T? && RedBlackTree(Painted(Plug(p, t), Black))
    ensures Same(Plug(p, t), Painted(Plug(p, t), Black))
  {
    if p.Top? {
      assert Balanced(Painted(t, Black), h + 1);
    } else {
      assert BlackFrame(p);
      PlugBalanced(p, t, h);
      PlugNodes(p, t);
    }
  }

  class RbTree {
    var root: Node?
    ghost var tree: Tree

    ghost predicate Valid()
      reads this, Nodes(tree)
    {
      Holds(Top, tree) && root == Ptr(tree) && RedBlackTree(tree) && Sorted(Inorder(tree))
    }

    constructor ()
      ensures Valid() && tree == Leaf && Inorder(tree) == [] && Nodes(tree) == {}
    {
      root, tree := null, Leaf;
      assert Balanced(Leaf, 0);
    }

    // The part the two rotations share: `child` takes the place of `loc` under loc's parent.
    method TakePlace(loc: Node, child: Node, ghost p: Path)
      requires PathLinked(p, loc) && PathApart(p) && loc !in PathNodes(p) && child !in PathNodes(p) && child != loc
      requires loc.parent == UpPtr(p) && root == RootPtr(p, loc)
      modifies this`root, child`parent, UpSet(p)
      ensures PathLinked(p, child) && root == RootPtr(p, child) && child.parent == UpPtr(p)
    {
      child.parent := loc.parent;
      if loc.parent == null {
        root := child;
      } else if loc == loc.parent.left {
        loc.parent.left := child;
      } else {
        loc.parent.right := child;
      }
    }

    // The subtree under `child`, if there is one, gets another parent.
    method Adopt(child: Node?, ghost t: Tree, ghost from: Node, loc: Node)
      requires Linked(t, from) && Apart(t) && child == Ptr(t)
      modifies RootSet(t)
      ensures Linked(t, loc)
    {
      assert t.T? ==> Linked(t.l, t.n) && Linked(t.r, t.n);
      if child != null {
        child.parent := loc;
        assert Linked(t.l, t.n) && Linked(t.r, t.n);
      }
    }

    // rightrotate at loc: x, its left child, comes up, and loc goes down.
    method RightRotate(loc: Node, ghost p: Path, ghost a: Tree, ghost x: Node, ghost cx: Color, ghost kx: int,
                       ghost b: Tree,
                       ghost cy: Color, ghost ky: int, ghost c: Tree)
      requires Holds(p, T(T(a, x, cx, kx, b), loc, cy, ky, c)) && root == RootPtr(p, loc)
      modifies this`root, loc, x, RootSet(b), UpSet(p)
      ensures Holds(p, T(a, x, cx, kx, T(b, loc, cy, ky, c))) && root == RootPtr(p, x)
    {
      hide Holds, Linked, PathLinked, Apart, PathApart, RootPtr, Nodes, PathNodes, RootSet, UpSet, Ptr, UpPtr;
      RightLeaning(p, a, b, c, x, cx, kx, loc, cy, ky);
      assert allocated(Nodes(a)) && allocated(Nodes(b)) && allocated(Nodes(c)) && allocated(PathNodes(p));
      var leftChild := loc.left;
      loc.left := leftChild.right;
      assert Pieces(p, a, b, c, x, x, loc, loc);
      Adopt(leftChild.right, b, x, loc);
      assert Pieces(p, a, b, c, x, loc, loc, loc);
      TakePlace(loc, leftChild, p);
      assert Pieces(p, a, b, c, x, loc, loc, x);
      leftChild.right := loc;
      loc.parent := leftChild;
      assert Pieces(p, a, b, c, x, loc, loc, x);
      LeftLeaning(p, a, b, c, x, cx, kx, loc, cy, ky);
    }

    // leftrotate at loc, the other way round: y, its right child, comes up.
    method LeftRotate(loc: Node, ghost p: Path, ghost a: Tree, ghost cx: Color, ghost kx: int, ghost b: Tree,
                      ghost y: Node, ghost cy: Color, ghost ky: int, ghost c: Tree)
      requires Holds(p, T(a, loc, cx, kx, T(b, y, cy, ky, c))) && root == RootPtr(p, loc)
      modifies this`root, loc, y, RootSet(b), UpSet(p)
      ensures Holds(p, T(T(a, loc, cx, kx, b), y, cy, ky, c)) && root == RootPtr(p, y)
    {
      hide Holds, Linked, PathLinked, Apart, PathApart, RootPtr, Nodes, PathNodes, RootSet, UpSet, Ptr, UpPtr;
      LeftLeaning(p, a, b, c, loc, cx, kx, y, cy, ky);
      assert allocated(Nodes(a)) && allocated(Nodes(b)) && allocated(Nodes(c)) && allocated(PathNodes(p));
      var rightChild := loc.right;
      loc.right := rightChild.left;
      assert Pieces(p, a, b, c, loc, y, y, loc);
      Adopt(rightChild.left, b, y, loc);
      assert Pieces(p, a, b, c, loc, loc, y, loc);
      TakePlace(loc, rightChild, p);
      assert Pieces(p, a, b, c, loc, loc, y, y);
      rightChild.left := loc;
      loc.parent := rightChild;
      assert Pieces(p, a, b, c, loc, loc, y, y);
      RightLeaning(p, a, b, c, loc, cx, kx, y, cy, ky);
    }
  
    // One node gets another color.
    method Paint(n: Node, c: Color, ghost p: Path, ghost t: Tree)
      requires Holds(p, t) && t.T? && n == t.n
      modifies n`color
      ensures Holds(p, Painted(t, c))
    {
      n.color := c;
    }

    method HangLeft(start: Node, node: Node, ghost p: Path, ghost t: Tree)
      requires Holds(p, t) && t.T? && start == t.n && t.l.Leaf?
      requires NodeIs(node, null, null, null, Red, node.data) && node !in Nodes(t) && node !in PathNodes(p)
      modifies start`left, node`parent
      ensures Holds(InLeft(p, t.n, t.c, t.k, t.r), T(Leaf, node, Red, node.data, Leaf))
    {
      FocusLeft(p, t.l, t.n, t.c, t.k, t.r);
      start.left := node;
      node.parent := start;
    }

    method HangRight(start: Node, node: Node, ghost p: Path, ghost t: Tree)
      requires Holds(p, t) && t.T? && start == t.n && t.r.Leaf?
      requires NodeIs(node, null, null, null, Red, node.data) && node !in Nodes(t) && node !in PathNodes(p)
      modifies start`right, node`parent
      ensures Holds(InRight(p, t.l, t.n, t.c, t.k), T(Leaf, node, Red, node.data, Leaf))
    {
      FocusRight(p, t.l, t.n, t.c, t.k, t.r);
      start.right := node;
      node.parent := start;
    }

    // The recursive insert: the new node is hung where the search for its key ends.
    method InsertAt(start: Node, node: Node, ghost p: Path, ghost t: Tree) returns (ghost q: Path)
      requires Holds(p, t) && t.T? && start == t.n
      requires NodeIs(node, null, null, null, Red, node.data) && node !in Nodes(t) && node !in PathNodes(p)
      requires Sorted(Inorder(Plug(p, t))) && AtMost(Before(p), node.data) && Above(After(p), node.data)
      modifies Nodes(t)`left, Nodes(t)`right, node`parent
      ensures Holds(q, T(Leaf, node, Red, node.data, Leaf)) && Plug(q, Leaf) == Plug(p, t)
      ensures AtMost(Before(q), node.data) && Above(After(q), node.data)
      decreases t
    {
      hide Holds, Sorted, AtMost, Above, Before, After, Inorder;
      SearchTurn(p, t, node.data);
      Focused(p, t);
      FocusLeft(p, t.l, t.n, t.c, t.k, t.r);
      FocusRight(p, t.l, t.n, t.c, t.k, t.r);
      if node.data < start.data {
        if start.left == null {
          HangLeft(start, node, p, t);
          q := InLeft(p, t.n, t.c, t.k, t.r);
        } else {
          q := InsertAt(start.left, node, InLeft(p, t.n, t.c, t.k, t.r), t.l);
        }
      } else {
        if start.right == null {
          HangRight(start, node, p, t);
          q := InRight(p, t.l, t.n, t.c, t.k);
        } else {
          q := InsertAt(start.right, node, InRight(p, t.l, t.n, t.c, t.k), t.r);
        }
      }
    }
    
    // The end of the same branch, with loc on the outer side.
    method LastTurnRight(loc: Node, ghost p: Path, ghost t: Tree, ghost h: nat)
      requires Holds(p, t) && Repairable(p, t, h) && loc == t.n && root == RootPtr(p, loc)
      requires RedParent(p) && p.InLeft? && p.up.InLeft? && BlackRoot(p.up.r)
      modifies this`root, Nodes(Plug(p, t))
      ensures var q := InLeft(p.up.up, p.n, Black, p.k, T(p.r, p.up.n, Red, p.up.k, p.up.r));
        Holds(q, t) && Repairable(q, t, h) && root == RootPtr(q, loc) && Same(Plug(p, t), Plug(q, t))
    {
      hide Holds, Repairable, Plug, RootPtr, Inorder, Nodes;
      Fault(p, t, h);
      Focused(p, t);
      FocusUp(p, t);
      Focused(p.up, Up(p, t));
      FocusUp(p.up, Up(p, t));
      Focused(p.up.up, Up(p.up, Up(p, t)));
      Within(p, t);
      ghost var g, x, y, r := p.up.up, p.n, p.up.n, p.up.r;
      ghost var w := Painted(Up(p, t), Black);
      Paint(loc.parent, Black, p.up, Up(p, t));
      FocusUp(p.up, w);
      Paint(loc.parent.parent, Red, g, T(w, y, Black, p.up.k, r));
      MendsLeft(g, t, x, p.k, p.r, y, p.up.k, r, h);
      RightRotate(loc.parent.parent, g, t, x, Black, p.k, p.r, Red, p.up.k, r);
      FocusUp(InLeft(g, x, Black, p.k, T(p.r, y, Red, p.up.k, r)), t);
    }

    // Its mirror image.
    method LastTurnLeft(loc: Node, ghost p: Path, ghost t: Tree, ghost h: nat)
      requires Holds(p, t) && Repairable(p, t, h) && loc == t.n && root == RootPtr(p, loc)
      requires RedParent(p) && p.InRight? && p.up.InRight? && BlackRoot(p.up.l)
      modifies this`root, Nodes(Plug(p, t))
      ensures var q := InRight(p.up.up, T(p.up.l, p.up.n, Red, p.up.k, p.l), p.n, Black, p.k);
        Holds(q, t) && Repairable(q, t, h) && root == RootPtr(q, loc) && Same(Plug(p, t), Plug(q, t))
    {
      hide Holds, Repairable, Plug, RootPtr, Inorder, Nodes;
      Fault(p, t, h);
      Focused(p, t);
      FocusUp(p, t);
      Focused(p.up, Up(p, t));
      FocusUp(p.up, Up(p, t));
      Focused(p.up.up, Up(p.up, Up(p, t)));
      Within(p, t);
      ghost var g, x, y, l := p.up.up, p.n, p.up.n, p.up.l;
      ghost var w := Painted(Up(p, t), Black);
      Paint(loc.parent, Black, p.up, Up(p, t));
      FocusUp(p.up, w);
      Paint(loc.parent.parent, Red, g, T(l, y, Black, p.up.k, w));
      MendsRight(g, t, x, p.k, p.l, y, p.up.k, l, h);
      LeftRotate(loc.parent.parent, g, l, Red, p.up.k, p.l, x, Black, p.k, t);
      FocusUp(InRight(g, T(l, y, Red, p.up.k, p.l), x, Black, p.k), t);
    }

    // The body of the loop when the parent is a left child.
    method UnderLeft(x: Node, ghost p: Path, ghost t: Tree, ghost h: nat)
      returns (loc: Node, ghost q: Path, ghost u: Tree, ghost k: nat)
      requires Holds(p, t) && Repairable(p, t, h) && x == t.n && root == RootPtr(p, x)
      requires RedParent(p) && p.up.InLeft?
      modifies this`root, Nodes(Plug(p, t))
      ensures Holds(q, u) && Repairable(q, u, k) && loc == u.n && root == RootPtr(q, loc)
      ensures Same(Plug(p, t), Plug(q, u)) && Depth(q) < Depth(p)
    {
      hide Holds, Repairable, Plug, RootPtr, Inorder, Nodes;
      loc := x;
      Fault(p, t, h);
      Focused(p, t);
      FocusUp(p, t);
      Focused(p.up, Up(p, t));
      FocusUp(p.up, Up(p, t));
      Focused(p.up.up, Up(p.up, Up(p, t)));
      FocusRight(p.up.up, Up(p, t), p.up.n, p.up.c, p.up.k, p.up.r);
      Within(p, t);
      ghost var g, y, r := p.up.up, p.up.n, p.up.r;
      var uncle := loc.parent.parent.right;
      if r.T? { Focused(InRight(g, Up(p, t), y, Black, p.up.k), r); }
      if uncle != null && uncle.color == Red {
        Recolors(p, t, h);
        Paint(loc.parent, Black, p.up, Up(p, t));
        FocusUp(p.up, Painted(Up(p, t), Black));
        FocusRight(g, Painted(Up(p, t), Black), y, Black, p.up.k, r);
        Paint(uncle, Black, InRight(g, Painted(Up(p, t), Black), y, Black, p.up.k), r);
        FocusRight(g, Painted(Up(p, t), Black), y, Black, p.up.k, Painted(r, Black));
        Paint(loc.parent.parent, Red, g, T(Painted(Up(p, t), Black), y, Black, p.up.k, Painted(r, Black)));
        loc := loc.parent.parent;
        q, u, k := g, Recolored(p, t), h + 1;
      } else {
        q, u, k := p, t, h;
        if loc == loc.parent.right {
          loc := loc.parent;
          TurnsOut(p.up, p.l, p.n, p.k, t.l, t.n, t.k, t.r, h);
          LeftRotate(loc, p.up, p.l, Red, p.k, t.l, t.n, Red, t.k, t.r);
          q, u := InLeft(p.up, t.n, Red, t.k, t.r), T(p.l, p.n, Red, p.k, t.l);
          FocusUp(q, u);
        }
        LastTurnRight(loc, q, u, h);
        q := InLeft(g, q.n, Black, q.k, T(q.r, y, Red, p.up.k, r));
      }
    }
  
    // The body of the loop when the parent is a right child.
    method UnderRight(x: Node, ghost p: Path, ghost t: Tree, ghost h: nat)
      returns (loc: Node, ghost q: Path, ghost u: Tree, ghost k: nat)
      requires Holds(p, t) && Repairable(p, t, h) && x == t.n && root == RootPtr(p, x)
      requires RedParent(p) && p.up.InRight?
      modifies this`root, Nodes(Plug(p, t))
      ensures Holds(q, u) && Repairable(q, u, k) && loc == u.n && root == RootPtr(q, loc)
      ensures Same(Plug(p, t), Plug(q, u)) && Depth(q) < Depth(p)
    {
      hide Holds, Repairable, Plug, RootPtr, Inorder, Nodes;
      loc := x;
      Fault(p, t, h);
      Focused(p, t);
      FocusUp(p, t);
      Focused(p.up, Up(p, t));
      FocusUp(p.up, Up(p, t));
      Focused(p.up.up, Up(p.up, Up(p, t)));
      FocusLeft(p.up.up, p.up.l, p.up.n, p.up.c, p.up.k, Up(p, t));
      Within(p, t);
      ghost var g, y, l := p.up.up, p.up.n, p.up.l;
      var uncle := loc.parent.parent.left;
      if l.T? { Focused(InLeft(g, y, Black, p.up.k, Up(p, t)), l); }
      if uncle != null && uncle.color == Red {
        Recolors(p, t, h);
        Paint(loc.parent, Black, p.up, Up(p, t));
        FocusUp(p.up, Painted(Up(p, t), Black));
        FocusLeft(g, l, y, Black, p.up.k, Painted(Up(p, t), Black));
        Paint(uncle, Black, InLeft(g, y, Black, p.up.k, Painted(Up(p, t), Black)), l);
        FocusLeft(g, Painted(l, Black), y, Black, p.up.k, Painted(Up(p, t), Black));
        Paint(loc.parent.parent, Red, g, T(Painted(l, Black), y, Black, p.up.k, Painted(Up(p, t), Black)));
        loc := loc.parent.parent;
        q, u, k := g, Recolored(p, t), h + 1;
      } else {
        q, u, k := p, t, h;
        if loc == loc.parent.left {
          loc := loc.parent;
          TurnsOut(p.up, t.l, t.n, t.k, t.r, p.n, p.k, p.r, h);
          RightRotate(loc, p.up, t.l, t.n, Red, t.k, t.r, Red, p.k, p.r);
          q, u := InRight(p.up, t.l, t.n, Red, t.k), T(t.r, p.n, Red, p.k, p.r);
          FocusUp(q, u);
        }
        LastTurnLeft(loc, q, u, h);
        q := InRight(g, T(l, y, Red, p.up.k, q.l), q.n, Black, q.k);
      }
    }

    // fixup: the red node loc may have a red parent.
    method Fixup(x: Node, ghost p0: Path, ghost t0: Tree, ghost h0: nat)
      requires Holds(p0, t0) && Repairable(p0, t0, h0) && x == t0.n && root == RootPtr(p0, x)
      requires tree == Plug(p0, t0) && Sorted(Inorder(tree))
      modifies this, Nodes(tree)
      ensures Valid() && Same(tree, old(tree))
    {
      hide Holds, Repairable, Plug, RootPtr, Inorder, Nodes, RedBlackTree, Sorted;
      var loc := x;
      ghost var p, t, h := p0, t0, h0;
      LoopGuard(p, t, h);
      while loc != root && loc.parent.color == Red
        invariant Holds(p, t) && Repairable(p, t, h) && t.T? && loc == t.n && root == RootPtr(p, loc)
        invariant Same(Plug(p, t), old(tree)) && tree == old(tree)
        invariant loc == root <==> p.Top?
        invariant !p.Top? ==> loc.parent == p.n && loc.parent.color == p.c
        decreases Depth(p)
      {
        LoopGuard(p, t, h);
        if loc.parent == loc.parent.parent.left {
          loc, p, t, h := UnderLeft(loc, p, t, h);
        } else {
          loc, p, t, h := UnderRight(loc, p, t, h);
        }
        LoopGuard(p, t, h);
      }
      Repaired(p, t, h);
      FocusTop(p, t);
      ghost var whole := Plug(p, t);
      Focused(Top, whole);
      assert root == Ptr(whole) == Ptr(Painted(whole, Black));
      tree := Painted(whole, Black);
      assert PathNodes(Top) == {} && Holds(Top, whole);
      Paint(root, Black, Top, whole);
    }
  
    // insert(int): the new node is in its place, and the focus is on it. Fixup is still to be called.
    method Insert(data: int) returns (node: Node, ghost p: Path, ghost t: Tree, ghost h: nat)
      requires Valid()
      modifies this, Nodes(tree)
      ensures fresh(node) && node.data == data
      ensures Holds(p, t) && Repairable(p, t, h) && node == t.n && root == RootPtr(p, node) && tree == Plug(p, t)
      ensures Sorted(Inorder(tree)) && multiset(Inorder(tree)) == multiset(old(Inorder(tree))) + multiset{data}
      ensures Nodes(tree) == old(Nodes(tree)) + {node}
    {
      hide Holds, Repairable, Plug, RootPtr, Inorder, Nodes, RedBlackTree, Sorted, AtMost, Above;
      assert allocated(Nodes(tree));
      AtTop(tree, data);
      node := new Node(data);
      assert Holds(Top, tree) && node !in Nodes(tree);
      if root == null {
        root := node;
        root.color := Black;
        p, t, h := Top, T(Leaf, node, Black, data, Leaf), 0;
        Planted(node);
      } else {
        p := InsertAt(root, node, Top, tree);
        t := T(Leaf, node, Red, data, Leaf);
        h := UnplugBalanced(p, Leaf);
        Attached(p, node, data, h);
        Grown(p, node, data);
        GrownNodes(p, node, data);
        FocusTop(p, t);
      }
      assert allocated(PathNodes(p)) && allocated(Nodes(t));
      tree := Plug(p, t);
    }
  }

  // The driver's loop: every number is inserted, and the tree repaired each time.
  method Build(a: seq<int>) returns (rb: RbTree)
    ensures fresh(rb) && rb.Valid() && fresh(Nodes(rb.tree))
    ensures multiset(Inorder(rb.tree)) == multiset(a) && Sorted(Inorder(rb.tree))
  {
    hide Holds, Inorder, Nodes, Repairable, Plug, RootPtr, RedBlackTree, Sorted;
    rb := new RbTree();
    var i := 0;
    while i < |a|
      invariant 0 <= i <= |a|
      invariant fresh(rb) && rb.Valid() && fresh(Nodes(rb.tree))
      invariant multiset(Inorder(rb.tree)) == multiset(a[..i])
    {
      var node, p, t, h := rb.Insert(a[i]);
      rb.Fixup(node, p, t, h);
      assert a[..i + 1] == a[..i] + [a[i]];
      i := i + 1;
    }
    assert a[..i] == a;
  }

  // ---- What a red-black tree is for ----

  ghost function Height(t: Tree): nat {
    if t.Leaf? then 0 else 1 + if Height(t.l) > Height(t.r) then Height(t.l) else Height(t.r)
  }

  ghost function Power2(n: nat): nat {
    if n == 0 then 1 else 2 * Power2(n - 1)
  }

  lemma {:induction false} PowerSum(m: nat, n: nat)
    ensures Power2(m + n) == Power2(m) * Power2(n)
  {
    if m > 0 {
      PowerSum(m - 1, n);
      assert Power2(m) * Power2(n) == 2 * (Power2(m - 1) * Power2(n));
    }
  }

  lemma {:induction false} PowerGrows(m: nat, n: nat)
    requires m <= n
    ensures Power2(m) <= Power2(n)
  {
    if m < n { PowerGrows(m, n - 1); }
  }

  lemma {:induction false} BlackHeight(t: Tree, h: nat)
    requires Balanced(t, h)
    ensures Power2(h) <= |Inorder(t)| + 1
    ensures Height(t) <= if BlackRoot(t) then 2 * h else 2 * h + 1
  {
    if t.T? {
      var k := if t.c == Red then h else h - 1;
      BlackHeight(t.l, k);
      BlackHeight(t.r, k);
    }
  }

  lemma SquareGrows(m: nat, n: nat)
    requires m <= n
    ensures m * m <= n * n
  {
  }

  // The way down is at most twice the logarithm of the number of keys.
  lemma LogHeight(t: Tree)
    requires RedBlackTree(t)
    ensures Power2(Height(t)) <= (|Inorder(t)| + 1) * (|Inorder(t)| + 1)
  {
    var h: nat :| Balanced(t, h);
    BlackHeight(t, h);
    hide Power2, Inorder, Balanced, Height;
    PowerGrows(Height(t), h + h);
    PowerSum(h, h);
    SquareGrows(Power2(h), |Inorder(t)| + 1);
  }

  // The rules of the tree as the fields show them: parent and child point at each other,
  // a red node has no red child, and no child is on the wrong side of its parent.
  ghost predicate FieldRules(n: Node, top: Node, up: Node?)
    reads n, n.left, n.right, n.parent
  {
    && (if n == top then n.parent == up else n.parent != null && (n.parent.left == n || n.parent.right == n))
    && (n.left != null ==> n.left.parent == n && n.left.data <= n.data)
    && (n.right != null ==> n.right.parent == n && n.data <= n.right.data)
    && (n.color == Red ==> (n.left == null || n.left.color == Black) && (n.right == null || n.right.color == Black))
  }

  lemma RootKey(t: Tree)
    requires t.T?
    ensures |Inorder(t.l)| < |Inorder(t)| && Inorder(t)[|Inorder(t.l)|] == t.k
  {
  }

  lemma SortedHalves(t: Tree)
    requires t.T? && Sorted(Inorder(t))
    ensures Sorted(Inorder(t.l)) && (t.l.T? ==> t.l.k <= t.k)
    ensures Sorted(Inorder(t.r)) && (t.r.T? ==> t.k <= t.r.k)
  {
    var l, r := Inorder(t.l), Inorder(t.r);
    var s := l + [t.k] + r;
    forall i, j | 0 <= i < j < |r| ensures r[i] <= r[j] {
      assert r[i] == s[|l| + 1 + i] && r[j] == s[|l| + 1 + j];
    }
    forall i, j | 0 <= i < j < |l| ensures l[i] <= l[j] {
      assert l[i] == s[i] && l[j] == s[j];
    }
    assert s[|l|] == t.k;
    if t.l.T? {
      RootKey(t.l);
      assert s[|Inorder(t.l.l)|] == t.l.k;
    }
    if t.r.T? {
      RootKey(t.r);
      assert s[|l| + 1 + |Inorder(t.r.l)|] == t.r.k;
    }
  }

  lemma {:induction false} PointerRules(t: Tree, up: Node?, h: nat)
    requires Linked(t, up) && Apart(t) && Balanced(t, h) && Sorted(Inorder(t))
    ensures t.T? ==> forall n <- Nodes(t) :: FieldRules(n, t.n, up)
  {
    hide Sorted, Inorder;
    if t.T? {
      SortedHalves(t);
      PointerRules(t.l, t.n, if t.c == Red then h else h - 1);
      PointerRules(t.r, t.n, if t.c == Red then h else h - 1);
      forall n | n in Nodes(t) ensures FieldRules(n, t.n, up) {
        if n == t.n {
        } else if n in Nodes(t.l) {
          assert FieldRules(n, t.l.n, t.n);
        } else {
          assert FieldRules(n, t.r.n, t.n);
        }
      }
    }
  }
}
