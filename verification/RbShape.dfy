// The value-level picture of a red-black tree that rbtree.c keeps in mutable
// nodes: a tree, the same tree seen from one of its nodes (a context around a
// hole), and the colour rules of both.
module RbShape {
  datatype Color = Red | Black

  datatype Dir = Left | Right

  // The address range of the area that embeds the node (rb_entry).
  datatype Area = Area(start: nat, end: nat)

  class Node {
    const area: Area
    var parent: Node?
    var left: Node?
    var right: Node?
    var color: Color

    constructor (a: Area)
      ensures area == a && fresh(this)
    {
      area := a;
      parent, left, right, color := null, null, null, Red;
    }

    // Structure assignment.
    method Copy(n: Node)
      modifies this
      ensures parent == old(n.parent) && left == old(n.left) && right == old(n.right) && color == old(n.color)
    {
      parent, left, right, color := n.parent, n.left, n.right, n.color;
    }
  }

  datatype Tree = Leaf | Fork(left: Tree, node: Node, color: Color, right: Tree)

  // A tree with a hole: the path from the hole up to the root, with the
  // subtree on the other side at each step.
  datatype Ctx = Top | Hole(dir: Dir, up: Ctx, node: Node, color: Color, sib: Tree)

  ghost function Join(d: Dir, t: Tree, x: Node, k: Color, s: Tree): Tree {
    if d == Left then Fork(t, x, k, s) else Fork(s, x, k, t)
  }

  ghost function Plug(c: Ctx, t: Tree): Tree {
    match c
    case Top => t
    case Hole(d, up, x, k, s) => Plug(up, Join(d, t, x, k, s))
  }

  ghost function Nodes(t: Tree): set<Node> {
    match t
    case Leaf => {}
    case Fork(l, x, _, r) => Nodes(l) + {x} + Nodes(r)
  }

  ghost function CtxNodes(c: Ctx): set<Node> {
    match c
    case Top => {}
    case Hole(_, up, x, _, s) => CtxNodes(up) + {x} + Nodes(s)
  }

  ghost function InOrder(t: Tree): seq<Node> {
    match t
    case Leaf => []
    case Fork(l, x, _, r) => InOrder(l) + [x] + InOrder(r)
  }

  // What comes before and after the hole in the in-order sequence.
  ghost function Before(c: Ctx): seq<Node> {
    match c
    case Top => []
    case Hole(d, up, x, _, s) => if d == Left then Before(up) else Before(up) + InOrder(s) + [x]
  }

  ghost function After(c: Ctx): seq<Node> {
    match c
    case Top => []
    case Hole(d, up, x, _, s) => if d == Right then After(up) else [x] + InOrder(s) + After(up)
  }

  // No node is used twice.
  ghost predicate Distinct(t: Tree) {
    match t
    case Leaf => true
    case Fork(l, x, _, r) =>
      x !in Nodes(l) && x !in Nodes(r) && Nodes(l) !! Nodes(r) && Distinct(l) && Distinct(r)
  }

  ghost predicate CtxDistinct(c: Ctx) {
    match c
    case Top => true
    case Hole(_, up, x, _, s) =>
      x !in CtxNodes(up) && x !in Nodes(s) && CtxNodes(up) !! Nodes(s) && CtxDistinct(up) && Distinct(s)
  }

  ghost predicate Apart(c: Ctx, t: Tree) {
    CtxDistinct(c) && Distinct(t) && CtxNodes(c) !! Nodes(t)
  }

  ghost function Ref(t: Tree): Node? {
    if t.Leaf? then null else t.node
  }

  // The node directly above the hole; p stands above the whole context.
  ghost function Above(c: Ctx, p: Node?): Node? {
    if c.Top? then p else c.node
  }

  // What the fields of a node hold.
  datatype Cell = Cell(parent: Node?, left: Node?, right: Node?, color: Color)

  type Heap = map<Node, Cell>

  ghost function CellOf(n: Node): Cell
    reads n
  {
    Cell(n.parent, n.left, n.right, n.color)
  }

  ghost function Snap(s: set<Node>): Heap
    reads s
  {
    map n | n in s :: CellOf(n)
  }

  // The cells of the nodes of t spell out t, hanging below p.
  ghost predicate Shaped(h: Heap, t: Tree, p: Node?) {
    match t
    case Leaf => true
    case Fork(l, x, k, r) =>
      x in h && h[x] == Cell(p, Ref(l), Ref(r), k) && Shaped(h, l, x) && Shaped(h, r, x)
  }

  // The cells of the nodes of c spell out c, with n in the hole, top as the
  // outermost node (or n itself) and p above it.
  ghost predicate Around(h: Heap, c: Ctx, n: Node?, top: Node?, p: Node?) {
    match c
    case Top => n == top
    case Hole(d, up, x, k, s) =>
      x in h && h[x] == (if d == Left then Cell(Above(up, p), n, Ref(s), k) else Cell(Above(up, p), Ref(s), n, k)) &&
      Shaped(h, s, x) && Around(h, up, x, top, p)
  }

  ghost predicate SameOn(h: Heap, h': Heap, s: set<Node>) {
    forall n <- s :: n in h ==> n in h' && h'[n] == h[n]
  }

  lemma {:induction false} ShapedKept(h: Heap, h': Heap, t: Tree, p: Node?)
    requires Shaped(h, t, p) && SameOn(h, h', Nodes(t))
    ensures Shaped(h', t, p)
  {
    if t.Fork? {
      ShapedKept(h, h', t.left, t.node);
      ShapedKept(h, h', t.right, t.node);
    }
  }

  lemma {:induction false} AroundKept(h: Heap, h': Heap, c: Ctx, n: Node?, top: Node?, p: Node?)
    requires Around(h, c, n, top, p) && SameOn(h, h', CtxNodes(c))
    ensures Around(h', c, n, top, p)
  {
    if c.Hole? {
      ShapedKept(h, h', c.sib, c.node);
      AroundKept(h, h', c.up, c.node, top, p);
    }
  }

  // Cell of n with its parent replaced.
  ghost function WithParent(h: Heap, n: Node, p: Node?): Cell
    requires n in h
  {
    h[n].(parent := p)
  }

  // Cell of the node above the hole of c, pointing at m instead.
  ghost function WithChild(h: Heap, c: Ctx, m: Node?): Cell
    requires c.Hole? && c.node in h
  {
    if c.dir == Left then h[c.node].(left := m) else h[c.node].(right := m)
  }

  // Only the root of t was written, and only its parent field.
  lemma ShapedMoved(h: Heap, h': Heap, t: Tree, p: Node?, q: Node?)
    requires Shaped(h, t, p) && Distinct(t)
    requires SameOn(h, h', Nodes(t) - {Ref(t)})
    requires t.Fork? ==> t.node in h' && h'[t.node] == WithParent(h, t.node, q)
    ensures Shaped(h', t, q)
  {
    if t.Fork? {
      ShapedKept(h, h', t.left, t.node);
      ShapedKept(h, h', t.right, t.node);
    }
  }

  // Only the link into the hole of c was written, from n to m.
  lemma AroundMoved(h: Heap, h': Heap, c: Ctx, n: Node?, top: Node?, m: Node?, top': Node?, p: Node?)
    requires Around(h, c, n, top, p) && CtxDistinct(c)
    requires SameOn(h, h', CtxNodes(c) - {Above(c, null)})
    requires if c.Top? then top' == m else top' == top && c.node in h' && h'[c.node] == WithChild(h, c, m)
    ensures Around(h', c, m, top', p)
  {
    if c.Hole? {
      ShapedKept(h, h', c.sib, c.node);
      AroundKept(h, h', c.up, c.node, top, p);
    }
  }

  // ---- plugging

  lemma {:induction false} PlugNodes(c: Ctx, t: Tree)
    ensures Nodes(Plug(c, t)) == CtxNodes(c) + Nodes(t)
    ensures Distinct(Plug(c, t)) <==> Apart(c, t)
  {
    match c
    case Top =>
    case Hole(d, up, x, k, s) => PlugNodes(up, Join(d, t, x, k, s));
  }

  lemma Regroup(p: seq<Node>, a: seq<Node>, b: seq<Node>, q: seq<Node>)
    ensures p + (a + b) + q == p + a + (b + q) == (p + a) + b + q
  {
  }

  // Plugging puts the sequence of t between what the context holds.
  lemma {:induction false} PlugInOrder(c: Ctx, t: Tree)
    ensures InOrder(Plug(c, t)) == Before(c) + InOrder(t) + After(c)
  {
    match c
    case Top =>
    case Hole(d, up, x, k, s) =>
      var j := Join(d, t, x, k, s);
      PlugInOrder(up, j);
      if d == Left {
        Regroup(Before(up), InOrder(t), [x] + InOrder(s), After(up));
        assert InOrder(j) == InOrder(t) + ([x] + InOrder(s));
      } else {
        Regroup(Before(up), InOrder(s) + [x], InOrder(t), After(up));
        assert Before(c) == Before(up) + (InOrder(s) + [x]);
        assert InOrder(j) == (InOrder(s) + [x]) + InOrder(t);
      }
  }

  // The heap view splits and joins along any context.
  lemma {:induction false} PlugShaped(h: Heap, c: Ctx, t: Tree, p: Node?)
    ensures Shaped(h, Plug(c, t), p) <==>
            Around(h, c, Ref(t), Ref(Plug(c, t)), p) && Shaped(h, t, Above(c, p))
  {
    match c
    case Top =>
    case Hole(d, up, x, k, s) =>
      var j := Join(d, t, x, k, s);
      PlugShaped(h, up, j, p);
  }

  lemma {:induction false} AroundTop(h: Heap, c: Ctx, t: Tree, top: Node?, p: Node?)
    requires Around(h, c, Ref(t), top, p)
    ensures Ref(Plug(c, t)) == top
  {
    match c
    case Top =>
    case Hole(d, up, x, k, s) => AroundTop(h, up, Join(d, t, x, k, s), top, p);
  }

  lemma {:induction false} PlugNonEmpty(c: Ctx, t: Tree)
    ensures Plug(c, t).Leaf? <==> c.Top? && t.Leaf?
  {
    match c
    case Top =>
    case Hole(d, up, x, k, s) => PlugNonEmpty(up, Join(d, t, x, k, s));
  }

  // d inside c.
  ghost function Over(d: Ctx, c: Ctx): Ctx {
    match d
    case Top => c
    case Hole(e, up, x, k, s) => Hole(e, Over(up, c), x, k, s)
  }

  lemma {:induction false} PlugOver(d: Ctx, c: Ctx, t: Tree)
    ensures Plug(Over(d, c), t) == Plug(c, Plug(d, t))
  {
    match d
    case Top =>
    case Hole(e, up, x, k, s) => PlugOver(up, c, Join(e, t, x, k, s));
  }

  ghost function Depth(c: Ctx): nat {
    if c.Top? then 0 else 1 + Depth(c.up)
  }

  // Every node of a tree is the root of a subtree in some context.
  lemma {:induction false} Locate(t: Tree, n: Node) returns (c: Ctx, s: Tree)
    requires n in Nodes(t)
    ensures s.Fork? && s.node == n && Plug(c, s) == t
  {
    if n == t.node {
      c, s := Top, t;
    } else if n in Nodes(t.left) {
      c, s := Locate(t.left, n);
      PlugOver(c, Hole(Left, Top, t.node, t.color, t.right), s);
      c := Over(c, Hole(Left, Top, t.node, t.color, t.right));
    } else {
      c, s := Locate(t.right, n);
      PlugOver(c, Hole(Right, Top, t.node, t.color, t.left), s);
      c := Over(c, Hole(Right, Top, t.node, t.color, t.left));
    }
  }

  // ---- colour rules

  ghost predicate IsRed(t: Tree) {
    t.Fork? && t.color == Red
  }

  // t has no red node below a red node, and h black nodes on every path.
  ghost predicate RedBlack(t: Tree, h: nat) {
    match t
    case Leaf => h == 0
    case Fork(l, _, Red, r) => !IsRed(l) && !IsRed(r) && RedBlack(l, h) && RedBlack(r, h)
    case Fork(l, _, Black, r) => h > 0 && RedBlack(l, h - 1) && RedBlack(r, h - 1)
  }

  // c accepts in its hole a tree of black height h, up to the colour of the
  // hole's root against the node above it.
  ghost predicate Accepts(c: Ctx, h: nat) {
    match c
    case Top => true
    case Hole(_, up, _, Red, s) =>
      !IsRed(s) && RedBlack(s, h) && up.Hole? && up.color == Black && Accepts(up, h)
    case Hole(_, up, _, Black, s) => RedBlack(s, h) && Accepts(up, h + 1)
  }

  ghost predicate RedAbove(c: Ctx) {
    c.Hole? && c.color == Red
  }

  ghost predicate Valid(t: Tree) {
    !IsRed(t) && Distinct(t) && exists h: nat :: RedBlack(t, h)
  }

  ghost function Blacken(t: Tree): Tree {
    if t.Leaf? then t else t.(color := Black)
  }

  lemma {:induction false} PlugRedBlack(c: Ctx, t: Tree, h: nat) returns (g: nat)
    requires Accepts(c, h) && RedBlack(t, h) && !(RedAbove(c) && IsRed(t))
    ensures RedBlack(Plug(c, t), g)
    ensures c.Hole? || !IsRed(t) ==> !IsRed(Plug(c, t))
  {
    match c
    case Top => g := h;
    case Hole(d, up, x, k, s) =>
      g := PlugRedBlack(up, Join(d, t, x, k, s), if k == Red then h else h + 1);
  }

  lemma {:induction false} SplitRedBlack(c: Ctx, t: Tree, g: nat) returns (h: nat)
    requires RedBlack(Plug(c, t), g) && !IsRed(Plug(c, t))
    ensures Accepts(c, h) && RedBlack(t, h) && !(RedAbove(c) && IsRed(t)) && (c.Top? ==> h == g)
  {
    match c
    case Top => h := g;
    case Hole(d, up, x, k, s) =>
      h := SplitRedBlack(up, Join(d, t, x, k, s), g);
      if k == Black { h := h - 1; }
  }
}
