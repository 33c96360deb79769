// rbtree.c: linking, rotations, both colour repairs, erasure and stepping, on
// nodes that are rewritten in place. The ghost field tree is the value the
// nodes spell out; ghost (context, subtree) pairs that plug to it say where in
// the tree each operation stands.
module RbTree {
  import opened RbShape
  import opened RbSteps

  class Root {
    var node: Node?
    ghost var nodes: set<Node>
    ghost var tree: Tree

    // The fields of nodes spell out tree.
    ghost predicate Shows()
      reads this, nodes
    {
      nodes == Nodes(tree) && Distinct(tree) && node == Ref(tree) && Shaped(Snap(nodes), tree, null)
    }

    // The same, seen from subtree t.
    lemma Focus(c: Ctx, t: Tree)
      requires Shows() && tree == Plug(c, t)
      ensures Apart(c, t) && nodes == CtxNodes(c) + Nodes(t)
      ensures Around(Snap(nodes), c, Ref(t), node, null) && Shaped(Snap(nodes), t, Above(c, null))
    {
      PlugNodes(c, t);
      PlugShaped(Snap(nodes), c, t, null);
    }

    lemma Unfocus(c: Ctx, t: Tree)
      requires Apart(c, t) && nodes == CtxNodes(c) + Nodes(t) && tree == Plug(c, t)
      requires Around(Snap(nodes), c, Ref(t), node, null) && Shaped(Snap(nodes), t, Above(c, null))
      ensures Shows()
    {
      PlugNodes(c, t);
      AroundTop(Snap(nodes), c, t, node, null);
      PlugShaped(Snap(nodes), c, t, null);
    }

    // What the fields of the root of t hold.
    lemma See(c: Ctx, t: Tree)
      requires Shows() && tree == Plug(c, t)
      ensures t.Fork? ==> t.node in nodes && CellOf(t.node) == Cell(Above(c, null), Ref(t.left), Ref(t.right), t.color)
      ensures c.Hole? ==> c.node in nodes && CellOf(c.node) == Sided(c.dir, Above(c.up, null), Ref(t), Ref(c.sib), c.color)
      ensures c.Top? <==> node == Ref(t)
      ensures c.Hole? && c.sib.Fork? ==> c.sib.node in nodes && c.sib.node != Ref(t)
    {
      Focus(c, t);
      var h := Snap(nodes);
      assert t.Fork? ==> t.node in h && h[t.node] == CellOf(t.node);
      assert c.Hole? ==> c.node in h && h[c.node] == CellOf(c.node);
      if c.Hole? {
        assert c.sib.Fork? ==> c.sib.node in Nodes(c.sib);
        AroundTop(h, c, t, node, null);
        TopInCtx(c, t);
      }
    }

    lemma RotationReads(d: Dir, c: Ctx, a: Tree, k: Color, b: Tree, y: Node, j: Color, e: Tree, x: Node)
      requires Shows() && tree == Plug(c, Join(d, a, x, k, Join(d, b, y, j, e)))
      ensures x in nodes && y in nodes && x != y && x != Above(c, null) && y != Above(c, null)
      ensures CellOf(x) == Sided(d, Above(c, null), Ref(a), y, k) && CellOf(y) == Sided(d, x, Ref(b), Ref(e), j)
      ensures CanTurn(x, y, Ref(b), nodes)
      ensures if c.Top? then node == x else c.node in nodes && (c.dir == Left <==> c.node.left == x)
    {
      var t := Join(d, a, x, k, Join(d, b, y, j, e));
      Focus(c, t);
      var h := Snap(nodes);
      RotateReads(d, h, c, t, node);
      assert h[x] == CellOf(x) && h[y] == CellOf(y) && (c.Hole? ==> h[c.node] == CellOf(c.node));
      assert b.Fork? ==> b.node in h;
      See(c, t);
    }

    // The fields after a rotation, against the snapshot h from before it.
    lemma RotationDone(d: Dir, h: Heap, c: Ctx, a: Tree, k: Color, b: Tree, y: Node, j: Color, e: Tree, x: Node, top: Node?)
      requires var t := Join(d, a, x, k, Join(d, b, y, j, e));
        CtxNodes(c) + Nodes(t) == nodes == h.Keys && Apart(c, t) &&
        Around(h, c, x, top, null) && Shaped(h, t, Above(c, null)) && tree == Plug(c, Rotated(d, t))
      requires forall n <- h :: n != x && n != y && n != Ref(b) && n != Above(c, null) ==> h[n] == CellOf(n)
      requires CellOf(x) == Sided(d, y, Ref(a), Ref(b), k)
      requires CellOf(y) == Sided(d, Above(c, null), x, Ref(e), j)
      requires b.Fork? ==> b.node in h && CellOf(b.node) == WithParent(h, b.node, x)
      requires if c.Top? then node == y else node == top && CellOf(c.node) == WithChild(h, c, y)
      ensures Shows() && InOrder(tree) == InOrder(Plug(c, Join(d, a, x, k, Join(d, b, y, j, e))))
    {
      var t := Join(d, a, x, k, Join(d, b, y, j, e));
      RotateReads(d, h, c, t, top);
      RotationShows(d, h, c, t, top);
      PlugSame(c, t, Rotated(d, t));
    }

    lemma RotationShows(d: Dir, h: Heap, c: Ctx, t: Tree, top: Node?)
      requires t.Fork? && Far(d, t).Fork? && CtxNodes(c) + Nodes(t) == nodes == h.Keys && Apart(c, t)
      requires Around(h, c, t.node, top, null) && Shaped(h, t, Above(c, null))
      requires var (x, y) := (t.node, Far(d, t)); var b := Near(d, y);
        (forall n <- nodes :: n != x && n != y.node && n != Ref(b) && n != Above(c, null) ==> h[n] == CellOf(n)) &&
        x in nodes && CellOf(x) == Sided(d, y.node, Ref(Near(d, t)), Ref(b), t.color) &&
        y.node in nodes && CellOf(y.node) == Sided(d, Above(c, null), x, Ref(Far(d, y)), y.color) &&
        (b.Fork? ==> b.node in nodes && CellOf(b.node) == WithParent(h, b.node, x)) &&
        if c.Top? then node == y.node else node == top && c.node in nodes && CellOf(c.node) == WithChild(h, c, y.node)
      requires tree == Plug(c, Rotated(d, t))
      ensures Shows()
    {
      RotateWrites(d, h, Snap(nodes), c, t, top, node);
      Unfocus(c, Rotated(d, t));
    }

    ghost function Just(n: Node?): set<Node> {
      if n == null then {} else {n}
    }

    // Cell of the parent p of n once it points at s instead.
    ghost function Turned(p: Node, n: Node, s: Node?): Cell
      reads p
    {
      if p.left == n then CellOf(p).(left := s) else CellOf(p).(right := s)
    }

    lemma ReplaceReads(c: Ctx, l: Tree, n: Node, k: Color, r: Tree, s: Node)
      requires Shows() && tree == Plug(c, Fork(l, n, k, r))
      ensures s !in nodes ==> CanReplace(n, s)
      ensures CellOf(n) == Cell(Above(c, null), Ref(l), Ref(r), k) && n in nodes
      ensures r.Fork? ==> Above(c, null) != r.node && Ref(l) != r.node
      ensures c.Top? ==> node == n
      ensures c.Hole? ==> c.node in nodes && c.node != n && (c.dir == Left <==> c.node.left == n)
      ensures l.Fork? ==> l.node in nodes && l.node != n && Above(c, null) != l.node
      ensures r.Fork? ==> r.node in nodes && r.node != n
    {
      See(c, Fork(l, n, k, r));
      Focus(c, Fork(l, n, k, r));
      Separate(c, Fork(l, n, k, r));
    }

    lemma ReplaceDone(h: Heap, c: Ctx, l: Tree, n: Node, k: Color, r: Tree, s: Node, top: Node?)
      requires var t := Fork(l, n, k, r);
        Apart(c, t) && Around(h, c, n, top, null) && Shaped(h, t, Above(c, null)) && h.Keys == CtxNodes(c) + Nodes(t)
      requires s !in h && nodes == h.Keys - {n} + {s} && tree == Plug(c, Fork(l, s, k, r))
      requires forall y <- h :: y != n && y != Ref(l) && y != Ref(r) && y != Above(c, null) ==> CellOf(y) == h[y]
      requires CellOf(s) == Cell(Above(c, null), Ref(l), Ref(r), k)
      requires l.Fork? ==> CellOf(l.node) == WithParent(h, l.node, s)
      requires r.Fork? ==> CellOf(r.node) == WithParent(h, r.node, s)
      requires if c.Top? then node == s else node == top && CellOf(c.node) == WithChild(h, c, s)
      ensures Shows()
    {
      NearHole(h, c, Fork(l, n, k, r), top);
      Separate(c, Fork(l, n, k, r));
      ReplaceCells(h, Snap(nodes), c, l, n, k, r, s, top, node);
      Unfocus(c, Fork(l, s, k, r));
    }

    // x and its child y with inner child b, all in s, and different nodes.
    ghost predicate CanTurn(x: Node, y: Node?, b: Node?, s: set<Node>)
      reads s
    {
      x in s && y != null && y in s && x != y && (b != null ==> b in s && b != x && b != y && b != x.parent) &&
      (x.parent != null ==> x.parent in s && x.parent != x && x.parent != y && (x.parent.left == x <==> x.parent.right != x))
    }

    // The writes of RotateLeft; s holds the nodes of the tree.
    method WriteLeft(x: Node, ghost s: set<Node>)
      requires CanTurn(x, x.right, if x.right == null then null else x.right.left, s)
      modifies this`node, s
      ensures var (y, b, p) := (old(x.right), old(x.right.left), old(x.parent));
        CellOf(x) == old(Cell(y, x.left, b, x.color)) && CellOf(y) == old(Cell(x.parent, x, y.right, y.color)) &&
        (forall z <- s :: z != x && z != y && z != b && z != p ==> CellOf(z) == old(CellOf(z))) &&
        (b != null ==> CellOf(b) == old(CellOf(b)).(parent := x)) &&
        if p == null then node == y else node == old(node) && CellOf(p) == old(Turned(p, x, y))
    {
      var right := x.right;
      var parent := x.parent;
      x.right := right.left;
      if right.left != null {
        right.left.parent := x;
      }
      right.left := x;
      right.parent := parent;
      if parent != null {
        if x == parent.left {
          parent.left := right;
        } else {
          parent.right := right;
        }
      } else {
        node := right;
      }
      x.parent := right;
    }

    method RotateLeft(x: Node, ghost c: Ctx, ghost t: Tree)
      requires Shows() && tree == Plug(c, t) && t.Fork? && t.right.Fork? && x == t.node
      modifies this`node, this`tree, nodes
      ensures Shows() && tree == Plug(c, Rotated(Left, t))
      ensures InOrder(tree) == InOrder(old(tree)) && nodes == old(nodes)
    {
      ghost var h, top := Snap(nodes), node;
      ghost var Fork(a, _, k, Fork(b, y, j, e)) := t;
      Focus(c, t);
      RotationReads(Left, c, a, k, b, y, j, e, x);
      hide Nodes, CtxNodes, InOrder, Distinct, CtxDistinct, Apart, Shaped, Around, Plug, Rotated, CanTurn;
      WriteLeft(x, nodes);
      tree := Plug(c, Rotated(Left, t));
      RotationDone(Left, h, c, a, k, b, y, j, e, x, top);
    }

    // The writes of RotateRight; s holds the nodes of the tree.
    method WriteRight(x: Node, ghost s: set<Node>)
      requires CanTurn(x, x.left, if x.left == null then null else x.left.right, s)
      modifies this`node, s
      ensures var (y, b, p) := (old(x.left), old(x.left.right), old(x.parent));
        CellOf(x) == old(Cell(y, b, x.right, x.color)) && CellOf(y) == old(Cell(x.parent, y.left, x, y.color)) &&
        (forall z <- s :: z != x && z != y && z != b && z != p ==> CellOf(z) == old(CellOf(z))) &&
        (b != null ==> CellOf(b) == old(CellOf(b)).(parent := x)) &&
        if p == null then node == y else node == old(node) && CellOf(p) == old(Turned(p, x, y))
    {
      var left := x.left;
      var parent := x.parent;
      x.left := left.right;
      if left.right != null {
        left.right.parent := x;
      }
      left.right := x;
      left.parent := parent;
      if parent != null {
        if x == parent.right {
          parent.right := left;
        } else {
          parent.left := left;
        }
      } else {
        node := left;
      }
      x.parent := left;
    }

    method RotateRight(x: Node, ghost c: Ctx, ghost t: Tree)
      requires Shows() && tree == Plug(c, t) && t.Fork? && t.left.Fork? && x == t.node
      modifies this`node, this`tree, nodes
      ensures Shows() && tree == Plug(c, Rotated(Right, t))
      ensures InOrder(tree) == InOrder(old(tree)) && nodes == old(nodes)
    {
      ghost var h, top := Snap(nodes), node;
      ghost var Fork(Fork(e, y, j, b), _, k, a) := t;
      Focus(c, t);
      RotationReads(Right, c, a, k, b, y, j, e, x);
      hide Nodes, CtxNodes, InOrder, Distinct, CtxDistinct, Apart, Shaped, Around, Plug, Rotated, CanTurn;
      WriteRight(x, nodes);
      tree := Plug(c, Rotated(Right, t));
      RotationDone(Right, h, c, a, k, b, y, j, e, x, top);
    }

    method SetColor(x: Node, k: Color, ghost c: Ctx, ghost t: Tree)
      requires Shows() && tree == Plug(c, t) && t.Fork? && x == t.node
      modifies this`tree, nodes`color
      ensures Shows() && tree == Plug(c, t.(color := k))
      ensures InOrder(tree) == InOrder(old(tree)) && nodes == old(nodes)
    {
      PlugSame(c, t, t.(color := k));
      ghost var h := Snap(nodes);
      Focus(c, t);
      See(c, t);
      x.color := k;
      tree := Plug(c, t.(color := k));
      Recolored(h, Snap(nodes), c, t, k, node);
      Unfocus(c, t.(color := k));
    }

    // What InsertColor knows of the place it works at.
    ghost predicate InsertLoop(c: Ctx, t: Tree, h: nat) {
      Accepts(c, h) && RedBlack(t, h) && IsRed(t)
    }

    // Red uncle: blacken it and the parent, and climb to gparent.
    method RecolorUp(parent: Node, gparent: Node, uncle: Node, ghost c: Ctx, ghost t: Tree, ghost h: nat)
      returns (n: Node, ghost t': Tree)
      requires Shows() && tree == Plug(c, t) && InsertLoop(c, t, h) && RedAbove(c) && c.up.Hole? && IsRed(c.up.sib)
      requires parent == c.node && gparent == c.up.node && uncle == c.up.sib.node
      modifies this`node, this`tree, nodes
      ensures Shows() && tree == Plug(c.up.up, t') && InsertLoop(c.up.up, t', h + 1) && Depth(c.up.up) < Depth(c)
      ensures n == gparent == t'.node
      ensures InOrder(tree) == InOrder(old(tree)) && nodes == old(nodes)
    {
      hide InOrder, Nodes, Distinct, RedBlack, Accepts, Depth;
      InsertRecolor(c, t, h);
      ghost var Hole(d, up, g, k, u) := c.up;
      ghost var q, other := Join(c.dir, t, parent, Red, c.sib), if d == Left then Right else Left;
      See(Hole(other, up, g, k, q), u);
      SetColor(uncle, Black, Hole(other, up, g, k, q), u);
      See(Hole(d, up, g, k, u.(color := Black)), q);
      SetColor(parent, Black, Hole(d, up, g, k, u.(color := Black)), q);
      t' := Join(d, q.(color := Black), g, k, u.(color := Black));
      See(up, t');
      SetColor(gparent, Red, up, t');
      n, t' := gparent, t'.(color := Red);
    }

    // Black uncle, parent on the left of gparent.
    method TurnLeft(start: Node, above: Node, gparent: Node, ghost c0: Ctx, ghost t0: Tree, ghost h: nat)
      returns (n: Node, ghost c: Ctx, ghost t: Tree)
      requires Shows() && tree == Plug(c0, t0) && InsertLoop(c0, t0, h) && RedAbove(c0) && c0.up.Hole?
      requires start == t0.node && above == c0.node && gparent == c0.up.node && c0.up.dir == Left && !IsRed(c0.up.sib)
      modifies this`node, this`tree, nodes
      ensures Shows() && tree == Plug(c, t) && InsertLoop(c, t, h) && n == t.node && Depth(c) < Depth(c0)
      ensures InOrder(tree) == InOrder(old(tree)) && nodes == old(nodes)
    {
      hide InOrder, Nodes, Distinct, RedBlack, Accepts, Depth;
      InsertStart(c0, h);
      n, c, t := start, c0, t0;
      var parent := above;
      ghost var up, g, u := c.up.up, c.up.node, c.up.sib;
      See(c, t);
      if parent.right == n {
        RotateLeft(parent, c.up, Join(c.dir, t, parent, Red, c.sib));
        InsertInner(c, n, t.right, t.left, h);
        parent, n := n, parent;
        c, t := Hole(Left, c.up, parent, Red, t.right), Fork(c.sib, n, Red, t.left);
      }
      InsertTurn(c, t, h);
      ghost var q := Fork(t, parent, Red, c.sib);
      SetColor(parent, Black, c.up, q);
      SetColor(gparent, Red, up, Fork(q.(color := Black), g, Black, u));
      RotateRight(gparent, up, Fork(q.(color := Black), g, Red, u));
      c := Hole(Left, up, parent, Black, Join(Left, c.sib, g, Red, u));
    }

    // Black uncle, parent on the right of gparent.
    method TurnRight(start: Node, above: Node, gparent: Node, ghost c0: Ctx, ghost t0: Tree, ghost h: nat)
      returns (n: Node, ghost c: Ctx, ghost t: Tree)
      requires Shows() && tree == Plug(c0, t0) && InsertLoop(c0, t0, h) && RedAbove(c0) && c0.up.Hole?
      requires start == t0.node && above == c0.node && gparent == c0.up.node && c0.up.dir == Right && !IsRed(c0.up.sib)
      modifies this`node, this`tree, nodes
      ensures Shows() && tree == Plug(c, t) && InsertLoop(c, t, h) && n == t.node && Depth(c) < Depth(c0)
      ensures InOrder(tree) == InOrder(old(tree)) && nodes == old(nodes)
    {
      hide InOrder, Nodes, Distinct, RedBlack, Accepts, Depth;
      InsertStart(c0, h);
      n, c, t := start, c0, t0;
      var parent := above;
      ghost var up, g, u := c.up.up, c.up.node, c.up.sib;
      See(c, t);
      if parent.left == n {
        RotateRight(parent, c.up, Join(c.dir, t, parent, Red, c.sib));
        InsertInner(c, n, t.left, t.right, h);
        parent, n := n, parent;
        c, t := Hole(Right, c.up, parent, Red, t.left), Fork(t.right, n, Red, c.sib);
      }
      InsertTurn(c, t, h);
      ghost var q := Fork(c.sib, parent, Red, t);
      SetColor(parent, Black, c.up, q);
      SetColor(gparent, Red, up, Fork(u, g, Black, q.(color := Black)));
      RotateLeft(gparent, up, Fork(u, g, Red, q.(color := Black)));
      c := Hole(Right, up, parent, Black, Join(Right, c.sib, g, Red, u));
    }

    // One round of the repair, parent on the left of gparent.
    method RedLeft(start: Node, parent: Node, gparent: Node, ghost c0: Ctx, ghost t0: Tree, ghost h0: nat)
      returns (n: Node, ghost c: Ctx, ghost t: Tree, ghost h: nat)
      requires Shows() && tree == Plug(c0, t0) && InsertLoop(c0, t0, h0) && RedAbove(c0) && c0.up.Hole?
      requires start == t0.node && parent == c0.node && gparent == c0.up.node && c0.up.dir == Left
      modifies this`node, this`tree, nodes
      ensures Shows() && tree == Plug(c, t) && InsertLoop(c, t, h) && n == t.node && Depth(c) < Depth(c0)
      ensures InOrder(tree) == InOrder(old(tree)) && nodes == old(nodes)
    {
      hide InOrder, Nodes, Distinct, Shaped, RedBlack, Accepts, Depth;
      ghost var q := Join(c0.dir, t0, parent, Red, c0.sib);
      See(c0.up, q);
      See(Hole(Right, c0.up.up, gparent, c0.up.color, q), c0.up.sib);
      var uncle := gparent.right;
      if uncle != null && uncle.color == Red {
        n, t := RecolorUp(parent, gparent, uncle, c0, t0, h0);
        c, h := c0.up.up, h0 + 1;
      } else {
        n, c, t := TurnLeft(start, parent, gparent, c0, t0, h0);
        h := h0;
      }
    }

    // One round of the repair, parent on the right of gparent.
    method RedRight(start: Node, parent: Node, gparent: Node, ghost c0: Ctx, ghost t0: Tree, ghost h0: nat)
      returns (n: Node, ghost c: Ctx, ghost t: Tree, ghost h: nat)
      requires Shows() && tree == Plug(c0, t0) && InsertLoop(c0, t0, h0) && RedAbove(c0) && c0.up.Hole?
      requires start == t0.node && parent == c0.node && gparent == c0.up.node && c0.up.dir == Right
      modifies this`node, this`tree, nodes
      ensures Shows() && tree == Plug(c, t) && InsertLoop(c, t, h) && n == t.node && Depth(c) < Depth(c0)
      ensures InOrder(tree) == InOrder(old(tree)) && nodes == old(nodes)
    {
      hide InOrder, Nodes, Distinct, Shaped, RedBlack, Accepts, Depth;
      ghost var q := Join(c0.dir, t0, parent, Red, c0.sib);
      See(c0.up, q);
      See(Hole(Left, c0.up.up, gparent, c0.up.color, q), c0.up.sib);
      var uncle := gparent.left;
      if uncle != null && uncle.color == Red {
        n, t := RecolorUp(parent, gparent, uncle, c0, t0, h0);
        c, h := c0.up.up, h0 + 1;
      } else {
        n, c, t := TurnRight(start, parent, gparent, c0, t0, h0);
        h := h0;
      }
    }

    // The new node is a red leaf in a context that is red-black but may be red
    // just above it.
    method InsertColor(inserted: Node, ghost around: Ctx)
      requires Shows() && tree == Plug(around, Fork(Leaf, inserted, Red, Leaf)) && Accepts(around, 0)
      modifies this`node, this`tree, nodes
      ensures Shows() && Valid(tree)
      ensures InOrder(tree) == InOrder(old(tree)) && nodes == old(nodes)
    {
      var n := inserted;
      ghost var c, t, h := around, Fork(Leaf, n, Red, Leaf), 0;
      assert RedBlack(t, h);
      hide InOrder, Nodes, Distinct, Shaped, RedBlack, Accepts, Depth;
      See(c, t);
      var parent := n.parent;
      while parent != null && parent.color == Red
        invariant Shows() && tree == Plug(c, t) && InsertLoop(c, t, h) && t.node == n
        invariant parent == Above(c, null)
        invariant InOrder(tree) == InOrder(old(tree)) && nodes == old(nodes)
        decreases Depth(c)
      {
        See(c, t);
        InsertStart(c, h);
        See(c.up, Join(c.dir, t, parent, Red, c.sib));
        var gparent := parent.parent;
        if parent == gparent.left {
          n, c, t, h := RedLeft(n, parent, gparent, c, t, h);
        } else {
          n, c, t, h := RedRight(n, parent, gparent, c, t, h);
        }
        See(c, t);
        parent := n.parent;
      }
      See(c, t);
      InsertEnd(c, t, h);
      SetColor(node, Black, Top, tree);
    }

    // Red sibling, node on the left of parent.
    method SiblingLeft(parent: Node, red: Node, ghost c: Ctx, ghost t: Tree, ghost h: nat)
      returns (other: Node, ghost c': Ctx)
      requires Shows() && tree == Plug(c, t) && Short(c, t, h) && c.Hole? && c.dir == Left && IsRed(c.sib)
      requires parent == c.node && red == c.sib.node
      modifies this`node, this`tree, nodes
      ensures Shows() && tree == Plug(c', t) && Short(c', t, h) && c'.Hole? && c'.dir == Left && c'.node == parent && c'.color == Red
      ensures c'.sib.Fork? && !IsRed(c'.sib) && other == c'.sib.node
      ensures InOrder(tree) == InOrder(old(tree)) && nodes == old(nodes)
    {
      hide InOrder, Nodes, Distinct, Shaped, RedBlack, Accepts;
      EraseStart(c, t, h);
      EraseSibling(c, t, h);
      ghost var x, w := Join(Left, t, parent, Black, c.sib), c.sib;
      SetColor(red, Black, Hole(Right, c.up, parent, Black, t), w);
      SetColor(parent, Red, c.up, Join(Left, t, parent, Black, w.(color := Black)));
      RotateLeft(parent, c.up, Join(Left, t, parent, Red, w.(color := Black)));
      c' := Hole(Left, Hole(Left, c.up, red, Black, Far(Left, w)), parent, Red, Near(Left, w));
      See(c', t);
      other := parent.right;
    }

    // Red sibling, node on the right of parent.
    method SiblingRight(parent: Node, red: Node, ghost c: Ctx, ghost t: Tree, ghost h: nat)
      returns (other: Node, ghost c': Ctx)
      requires Shows() && tree == Plug(c, t) && Short(c, t, h) && c.Hole? && c.dir == Right && IsRed(c.sib)
      requires parent == c.node && red == c.sib.node
      modifies this`node, this`tree, nodes
      ensures Shows() && tree == Plug(c', t) && Short(c', t, h) && c'.Hole? && c'.dir == Right && c'.node == parent && c'.color == Red
      ensures c'.sib.Fork? && !IsRed(c'.sib) && other == c'.sib.node
      ensures InOrder(tree) == InOrder(old(tree)) && nodes == old(nodes)
    {
      hide InOrder, Nodes, Distinct, Shaped, RedBlack, Accepts;
      EraseStart(c, t, h);
      EraseSibling(c, t, h);
      ghost var x, w := Join(Right, t, parent, Black, c.sib), c.sib;
      SetColor(red, Black, Hole(Left, c.up, parent, Black, t), w);
      SetColor(parent, Red, c.up, Join(Right, t, parent, Black, w.(color := Black)));
      RotateRight(parent, c.up, Join(Right, t, parent, Red, w.(color := Black)));
      c' := Hole(Right, Hole(Right, c.up, red, Black, Far(Right, w)), parent, Red, Near(Right, w));
      See(c', t);
      other := parent.left;
    }

    // Black sibling with a red child, node on the left of parent.
    method NephewLeft(parent: Node, sibling: Node, ghost c0: Ctx, ghost t: Tree, ghost h: nat)
      returns (ghost g: nat)
      requires Shows() && tree == Plug(c0, t) && Short(c0, t, h) && !IsRed(t) && c0.Hole? && c0.dir == Left
      requires c0.sib.Fork? && !IsRed(c0.sib) && (IsRed(c0.sib.left) || IsRed(c0.sib.right))
      requires parent == c0.node && sibling == c0.sib.node
      modifies this`node, this`tree, nodes
      ensures Shows() && RedBlack(tree, g) && !IsRed(tree) && tree.Fork?
      ensures InOrder(tree) == InOrder(old(tree)) && nodes == old(nodes)
    {
      hide InOrder, Nodes, Distinct, Shaped, RedBlack, Accepts;
      var other := sibling;
      ghost var c, w := c0, c0.sib;
      See(Hole(Right, c.up, parent, c.color, t), w);
      See(Hole(Right, Hole(Right, c.up, parent, c.color, t), other, w.color, w.left), w.right);
      if other.right == null || other.right.color == Black {
        EraseInner(c, t, h);
        ghost var v := w.left;
        See(Hole(Left, Hole(Right, c.up, parent, c.color, t), other, Black, w.right), v);
        SetColor(other.left, Black, Hole(Left, Hole(Right, c.up, parent, c.color, t), other, Black, w.right), v);
        SetColor(other, Red, Hole(Right, c.up, parent, c.color, t), Join(Left, v.(color := Black), other, Black, w.right));
        RotateRight(other, Hole(Right, c.up, parent, c.color, t), Join(Left, v.(color := Black), other, Red, w.right));
        w := Join(Left, v.left, v.node, Black, Join(Left, v.right, other, Red, w.right));
        c := c.(sib := w);
        See(c, t);
        other := parent.right;
      }
      g := EraseOuter(c, t, h);
      See(c, t);
      SetColor(other, parent.color, Hole(Right, c.up, parent, c.color, t), w);
      w := w.(color := c.color);
      SetColor(parent, Black, c.up, Join(Left, t, parent, c.color, w));
      See(Hole(Right, c.up, parent, Black, t), w);
      SetColor(other.right, Black, Hole(Right, Hole(Right, c.up, parent, Black, t), other, w.color, w.left), w.right);
      RotateLeft(parent, c.up, Join(Left, t, parent, Black, Join(Left, w.left, other, w.color, w.right.(color := Black))));
    }

    // Black sibling with a red child, node on the right of parent.
    method NephewRight(parent: Node, sibling: Node, ghost c0: Ctx, ghost t: Tree, ghost h: nat)
      returns (ghost g: nat)
      requires Shows() && tree == Plug(c0, t) && Short(c0, t, h) && !IsRed(t) && c0.Hole? && c0.dir == Right
      requires c0.sib.Fork? && !IsRed(c0.sib) && (IsRed(c0.sib.left) || IsRed(c0.sib.right))
      requires parent == c0.node && sibling == c0.sib.node
      modifies this`node, this`tree, nodes
      ensures Shows() && RedBlack(tree, g) && !IsRed(tree) && tree.Fork?
      ensures InOrder(tree) == InOrder(old(tree)) && nodes == old(nodes)
    {
      hide InOrder, Nodes, Distinct, Shaped, RedBlack, Accepts;
      var other := sibling;
      ghost var c, w := c0, c0.sib;
      See(Hole(Left, c.up, parent, c.color, t), w);
      See(Hole(Left, Hole(Left, c.up, parent, c.color, t), other, w.color, w.right), w.left);
      if other.left == null || other.left.color == Black {
        EraseInner(c, t, h);
        ghost var v := w.right;
        See(Hole(Right, Hole(Left, c.up, parent, c.color, t), other, Black, w.left), v);
        SetColor(other.right, Black, Hole(Right, Hole(Left, c.up, parent, c.color, t), other, Black, w.left), v);
        SetColor(other, Red, Hole(Left, c.up, parent, c.color, t), Join(Right, v.(color := Black), other, Black, w.left));
        RotateLeft(other, Hole(Left, c.up, parent, c.color, t), Join(Right, v.(color := Black), other, Red, w.left));
        w := Join(Right, v.right, v.node, Black, Join(Right, v.left, other, Red, w.left));
        c := c.(sib := w);
        See(c, t);
        other := parent.left;
      }
      g := EraseOuter(c, t, h);
      See(c, t);
      SetColor(other, parent.color, Hole(Left, c.up, parent, c.color, t), w);
      w := w.(color := c.color);
      SetColor(parent, Black, c.up, Join(Right, t, parent, c.color, w));
      See(Hole(Left, c.up, parent, Black, t), w);
      SetColor(other.left, Black, Hole(Left, Hole(Left, c.up, parent, Black, t), other, w.color, w.right), w.left);
      RotateRight(parent, c.up, Join(Right, t, parent, Black, Join(Right, w.right, other, w.color, w.left.(color := Black))));
    }

    // The root of t and the colours of its children.
    lemma SeeBelow(c: Ctx, t: Tree)
      requires Shows() && tree == Plug(c, t) && t.Fork?
      ensures CellOf(t.node) == Cell(Above(c, null), Ref(t.left), Ref(t.right), t.color)
      ensures t.left.Fork? ==> t.left.node in nodes && t.left.node.color == t.left.color
      ensures t.right.Fork? ==> t.right.node in nodes && t.right.node.color == t.right.color
    {
      See(c, t);
      See(Hole(Left, c, t.node, t.color, t.right), t.left);
      See(Hole(Right, c, t.node, t.color, t.left), t.right);
    }

    // What each round of the repair brings down.
    ghost function Rank(c: Ctx, t: Tree): nat {
      if IsRed(t) then 0 else 1 + Depth(c)
    }

    // One round of the repair, node on the left of parent; done when nothing is left to repair.
    method ShortLeft(above: Node, ghost c0: Ctx, ghost t0: Tree, ghost h0: nat)
      returns (n: Node, parent: Node?, done: bool, ghost c: Ctx, ghost t: Tree, ghost h: nat)
      requires Shows() && tree == Plug(c0, t0) && Short(c0, t0, h0) && !IsRed(t0) && c0.Hole? && c0.dir == Left && above == c0.node
      modifies this`node, this`tree, nodes
      ensures Shows() && tree == Plug(c, t) && n == Ref(t) && parent == Above(c, null)
      ensures if done then c.Top? && RedBlack(t, h) && !IsRed(t) else Short(c, t, h) && Rank(c, t) < Rank(c0, t0)
      ensures InOrder(tree) == InOrder(old(tree)) && nodes == old(nodes)
    {
      hide InOrder, Nodes, Distinct, Shaped, RedBlack, Accepts, Depth;
      EraseStart(c0, t0, h0);
      parent, c, t, h := above, c0, t0, h0;
      See(c, t);
      See(Hole(Right, c.up, parent, c.color, t), c.sib);
      var other := parent.right;
      if other.color == Red {
        other, c := SiblingLeft(parent, other, c, t, h);
      }
      SeeBelow(Hole(Right, c.up, parent, c.color, t), c.sib);
      done := !((other.left == null || other.left.color == Black) && (other.right == null || other.right.color == Black));
      if !done {
        h := EraseClimb(c, t, h);
        SetColor(other, Red, Hole(Right, c.up, parent, c.color, t), c.sib);
        c, t := c.up, Join(Left, t, parent, c.color, c.sib.(color := Red));
        See(c, t);
        n := parent;
        parent := n.parent;
      } else {
        h := NephewLeft(parent, other, c, t, h);
        c, t := Top, tree;
        n, parent := node, null;
      }
    }

    // One round of the repair, node on the right of parent; done when nothing is left to repair.
    method ShortRight(above: Node, ghost c0: Ctx, ghost t0: Tree, ghost h0: nat)
      returns (n: Node, parent: Node?, done: bool, ghost c: Ctx, ghost t: Tree, ghost h: nat)
      requires Shows() && tree == Plug(c0, t0) && Short(c0, t0, h0) && !IsRed(t0) && c0.Hole? && c0.dir == Right && above == c0.node
      modifies this`node, this`tree, nodes
      ensures Shows() && tree == Plug(c, t) && n == Ref(t) && parent == Above(c, null)
      ensures if done then c.Top? && RedBlack(t, h) && !IsRed(t) else Short(c, t, h) && Rank(c, t) < Rank(c0, t0)
      ensures InOrder(tree) == InOrder(old(tree)) && nodes == old(nodes)
    {
      hide InOrder, Nodes, Distinct, Shaped, RedBlack, Accepts, Depth;
      EraseStart(c0, t0, h0);
      parent, c, t, h := above, c0, t0, h0;
      See(c, t);
      See(Hole(Left, c.up, parent, c.color, t), c.sib);
      var other := parent.left;
      if other.color == Red {
        other, c := SiblingRight(parent, other, c, t, h);
      }
      SeeBelow(Hole(Left, c.up, parent, c.color, t), c.sib);
      done := !((other.left == null || other.left.color == Black) && (other.right == null || other.right.color == Black));
      if !done {
        h := EraseClimb(c, t, h);
        SetColor(other, Red, Hole(Left, c.up, parent, c.color, t), c.sib);
        c, t := c.up, Join(Right, t, parent, c.color, c.sib.(color := Red));
        See(c, t);
        n := parent;
        parent := n.parent;
      } else {
        h := NephewRight(parent, other, c, t, h);
        c, t := Top, tree;
        n, parent := node, null;
      }
    }

    // The subtree below above that starts at start is one black node short.
    method EraseColor(start: Node?, above: Node?, ghost c0: Ctx, ghost t0: Tree, ghost h0: nat)
      requires Shows() && tree == Plug(c0, t0) && Short(c0, t0, h0) && start == Ref(t0) && above == Above(c0, null)
      modifies this`node, this`tree, nodes
      ensures Shows() && Valid(tree)
      ensures InOrder(tree) == InOrder(old(tree)) && nodes == old(nodes)
    {
      hide InOrder, Nodes, Distinct, Shaped, RedBlack, Accepts, Depth;
      var n, parent := start, above;
      ghost var c, t, h := c0, t0, h0;
      See(c, t);
      while (n == null || n.color == Black) && n != node
        invariant Shows() && tree == Plug(c, t) && Short(c, t, h) && n == Ref(t) && parent == Above(c, null)
        invariant InOrder(tree) == InOrder(old(tree)) && nodes == old(nodes)
        decreases Rank(c, t)
      {
        See(c, t);
        EraseStart(c, t, h);
        var done;
        if parent.left == n {
          n, parent, done, c, t, h := ShortLeft(parent, c, t, h);
        } else {
          n, parent, done, c, t, h := ShortRight(parent, c, t, h);
        }
        if done {
          break;
        }
      }
      See(c, t);
      EraseEnd(c, t, h);
      if n != null {
        SetColor(n, Black, c, t);
      }
    }

    // Make the parent of x, or the root, point at m instead of x.
    method Relink(x: Node, m: Node?, parent: Node?)
      modifies this`node, (if parent == null then {} else {parent})`left, (if parent == null then {} else {parent})`right
      ensures parent == null ==> node == m
      ensures parent != null ==> node == old(node)
      ensures parent != null ==>
        if x == old(parent.left) then parent.left == m && parent.right == old(parent.right)
        else parent.left == old(parent.left) && parent.right == m
    {
      if parent != null {
        if x == parent.left {
          parent.left := m;
        } else {
          parent.right := m;
        }
      } else {
        node := m;
      }
    }

    lemma SpliceDone(h: Heap, c: Ctx, s: Tree, t: Tree, top: Node?)
      requires Apart(c, s) && s.Fork? && h.Keys == CtxNodes(c) + Nodes(s)
      requires (t == s.left && s.right.Leaf?) || (t == s.right && s.left.Leaf?)
      requires Around(h, c, s.node, top, null) && Shaped(h, s, Above(c, null))
      requires nodes == h.Keys - {s.node} && tree == Plug(c, t)
      requires forall n <- h :: n != s.node && n != Ref(t) && n != Above(c, null) ==> h[n] == CellOf(n)
      requires t.Fork? ==> t.node in nodes && CellOf(t.node) == WithParent(h, t.node, Above(c, null))
      requires if c.Top? then node == Ref(t) else node == top && c.node in nodes && CellOf(c.node) == WithChild(h, c, Ref(t))
      ensures Shows()
    {
      Separate(c, s);
      assert CtxNodes(c) + Nodes(t) == nodes;
      SpliceCells(h, Snap(nodes), c, s, t, top, node);
      Unfocus(c, t);
    }

    // The writes of Splice; all holds the nodes of the tree.
    method WriteSplice(n: Node, child: Node?, ghost all: set<Node>)
      requires n.parent != n && (n.parent != null ==> n.parent in all && n.parent != child) && (child != null ==> child in all && child != n)
      modifies this`node, all
      ensures forall y <- all :: y != child && y != old(n.parent) ==> CellOf(y) == old(CellOf(y))
      ensures child != null ==> CellOf(child) == old(CellOf(child)).(parent := old(n.parent))
      ensures if old(n.parent) == null then node == child
              else node == old(node) && CellOf(old(n.parent)) == old(Turned(n.parent, n, child))
    {
      var parent := n.parent;
      if child != null {
        child.parent := parent;
      }
      Relink(n, child, parent);
    }

    // Lines 278-287: child takes the place of n.
    method Splice(n: Node, child: Node?, ghost c: Ctx, ghost s: Tree, ghost t: Tree)
      requires Shows() && tree == Plug(c, s) && s.Fork? && n == s.node && child == Ref(t)
      requires (t == s.left && s.right.Leaf?) || (t == s.right && s.left.Leaf?)
      modifies this, nodes
      ensures Shows() && tree == Plug(c, t) && nodes == old(nodes) - {n}
    {
      ghost var h, top := Snap(nodes), node;
      Focus(c, s);
      ReplaceReads(c, s.left, n, s.color, s.right, n);
      hide Nodes, CtxNodes, InOrder, Distinct, CtxDistinct, Apart, Shaped, Around, Plug;
      WriteSplice(n, child, nodes);
      tree, nodes := Plug(c, t), nodes - {n};
      SpliceDone(h, c, s, t, top);
    }

    // The nodes around victim are different nodes.
    ghost predicate CanReplace(victim: Node, heir: Node)
      reads victim
    {
      victim != heir && heir != victim.parent && heir != victim.left && heir != victim.right &&
      victim != victim.parent && victim != victim.left && victim != victim.right &&
      (victim.parent != null ==> victim.parent != victim.left && victim.parent != victim.right) &&
      (victim.left != null ==> victim.left != victim.right)
    }

    method WriteReplace(victim: Node, heir: Node, ghost s: set<Node>)
      requires CanReplace(victim, heir) && victim in s && heir !in s
      requires (victim.parent != null ==> victim.parent in s) && (victim.left != null ==> victim.left in s) && (victim.right != null ==> victim.right in s)
      modifies this`node, s, heir
      ensures CellOf(heir) == CellOf(victim) == old(CellOf(victim))
      ensures forall y <- s :: y != victim.parent && y != victim.left && y != victim.right ==> CellOf(y) == old(CellOf(y))
      ensures victim.left != null ==> CellOf(victim.left) == old(CellOf(victim.left)).(parent := heir)
      ensures victim.right != null ==> CellOf(victim.right) == old(CellOf(victim.right)).(parent := heir)
      ensures if victim.parent == null then node == heir
              else node == old(node) && CellOf(victim.parent) == old(Turned(victim.parent, victim, heir))
    {
      var parent := victim.parent;
      if parent != null {
        if victim == parent.left {
          parent.left := heir;
        } else {
          parent.right := heir;
        }
      } else {
        node := heir;
      }
      if victim.left != null {
        victim.left.parent := heir;
      }
      if victim.right != null {
        victim.right.parent := heir;
      }
      heir.Copy(victim);
    }

    method ReplaceNode(victim: Node, heir: Node, ghost c: Ctx, ghost t: Tree)
      requires Shows() && tree == Plug(c, t) && t.Fork? && victim == t.node && heir !in nodes
      modifies this, nodes, heir
      ensures Shows() && tree == Plug(c, t.(node := heir)) && nodes == old(nodes) - {victim} + {heir}
    {
      ghost var h, top := Snap(nodes), node;
      ghost var Fork(l, _, k, r) := t;
      Focus(c, t);
      ReplaceReads(c, l, victim, k, r, heir);
      hide Nodes, CtxNodes, InOrder, Distinct, CtxDistinct, Apart, Shaped, Around, Plug, CanReplace;
      WriteReplace(victim, heir, nodes);
      tree, nodes := Plug(c, Fork(l, heir, k, r)), nodes - {victim} + {heir};
      ReplaceDone(h, c, l, victim, k, r, heir, top);
    }

    // The writes of TakeNear.
    method WriteNear(n: Node, s: Node) returns (child: Node?, parent: Node, color: Color)
      requires n.left != null && n != s && n.left != n && n.left != s
      requires n.parent != n && n.parent != s && n.parent != n.left
      modifies this`node, Just(n.parent), s, n.left
      ensures child == old(s.right) && parent == s && color == old(s.color)
      ensures CellOf(s) == old(Cell(n.parent, n.left, s.right, n.color)) && CellOf(n.left) == old(CellOf(n.left)).(parent := s)
      ensures if n.parent == null then node == s else node == old(node) && CellOf(n.parent) == old(Turned(n.parent, n, s))
    {
      Relink(n, s, n.parent);
      child, parent, color := s.right, s, s.color;
      s.parent, s.color := n.parent, n.color;
      s.left := n.left;
      n.left.parent := s;
    }

    lemma NearReads(c: Ctx, l: Tree, n: Node, k: Color, s: Node, j: Color, q: Tree)
      requires Shows() && tree == Plug(c, Fork(l, n, k, Fork(Leaf, s, j, q)))
      ensures s in nodes && CellOf(s) == Cell(n, null, Ref(q), j) && s != n && s != Above(c, null) && s != Ref(l)
    {
      var r := Fork(Leaf, s, j, q);
      Focus(c, Fork(l, n, k, r));
      Separate(c, Fork(l, n, k, r));
      See(Hole(Right, c, n, k, l), r);
    }

    lemma NearDone(h: Heap, c: Ctx, l: Tree, n: Node, k: Color, s: Node, j: Color, q: Tree, top: Node?)
      requires var t := Fork(l, n, k, Fork(Leaf, s, j, q));
        l.Fork? && Apart(c, t) && Around(h, c, n, top, null) && Shaped(h, t, Above(c, null)) && h.Keys == CtxNodes(c) + Nodes(t)
      requires nodes == h.Keys - {n} && tree == Plug(c, Fork(l, s, k, q))
      requires forall y <- h :: y != n && y != s && y != l.node && y != Above(c, null) ==> CellOf(y) == h[y]
      requires s in nodes && CellOf(s) == Cell(Above(c, null), l.node, Ref(q), k)
      requires l.node in nodes && CellOf(l.node) == WithParent(h, l.node, s)
      requires if c.Top? then node == s else node == top && c.node in nodes && CellOf(c.node) == WithChild(h, c, s)
      ensures Shows()
    {
      NearCells(h, Snap(nodes), c, l, n, k, s, j, q, top, node);
      Unfocus(c, Fork(l, s, k, q));
    }

    // Lines 245-270: the successor s, the right child of n, takes the place of n.
    method TakeNear(n: Node, s: Node, ghost c: Ctx, ghost l: Tree, ghost k: Color, ghost j: Color, ghost q: Tree)
      returns (child: Node?, parent: Node, color: Color)
      requires Shows() && l.Fork? && tree == Plug(c, Fork(l, n, k, Fork(Leaf, s, j, q)))
      modifies this, nodes
      ensures Shows() && tree == Plug(c, Fork(l, s, k, q)) && nodes == old(nodes) - {n}
      ensures child == Ref(q) && parent == s && color == j
    {
      ghost var h, top := Snap(nodes), node;
      Focus(c, Fork(l, n, k, Fork(Leaf, s, j, q)));
      ReplaceReads(c, l, n, k, Fork(Leaf, s, j, q), n);
      NearReads(c, l, n, k, s, j, q);
      hide Nodes, CtxNodes, InOrder, Distinct, CtxDistinct, Apart, Shaped, Around, Plug;
      child, parent, color := WriteNear(n, s);
      tree, nodes := Plug(c, Fork(l, s, k, q)), nodes - {n};
      NearDone(h, c, l, n, k, s, j, q, top);
    }

    // Lines 245-270: the successor s, further down, leaves its place to its
    // right child and takes the place of n.
    method TakeFar(n: Node, s: Node, ghost c: Ctx, ghost l: Tree, ghost k: Color, ghost d: Ctx, ghost j: Color, ghost q: Tree)
      returns (child: Node?, parent: Node, color: Color)
      requires Shows() && tree == Plug(c, Fork(l, n, k, Plug(d, Fork(Leaf, s, j, q))))
      requires d.Hole? && d.dir == Left
      modifies this, nodes
      ensures Shows() && tree == Plug(c, Fork(l, s, k, Plug(d, q))) && nodes == old(nodes) - {n}
      ensures child == Ref(q) && parent == d.node && color == j
    {
      ghost var t, below := Fork(Leaf, s, j, q), Over(d, Hole(Right, c, n, k, l));
      PlugOver(d, Hole(Right, c, n, k, l), t);
      PlugOver(d, Hole(Right, c, n, k, l), q);
      See(below, t);
      child, parent, color := s.right, s.parent, s.color;
      Splice(s, child, below, t, q);
      ReplaceNode(n, s, c, Fork(l, n, k, Plug(d, q)));
    }

    // rb_link_node into the empty slot on side d of parent, or into the empty root.
    method LinkNode(n: Node, parent: Node?, d: Dir) returns (ghost c: Ctx)
      requires Shows() && Valid(tree) && n !in nodes
      requires if parent == null then node == null
               else parent in nodes && if d == Left then parent.left == null else parent.right == null
      modifies this, nodes, n
      ensures Shows() && tree == Plug(c, Fork(Leaf, n, Red, Leaf)) && Accepts(c, 0) && nodes == old(nodes) + {n}
      ensures old(tree) == Plug(c, Leaf) && parent == Above(c, null) && (c.Hole? ==> c.dir == d)
      ensures InOrder(old(tree)) == Before(c) + After(c) && InOrder(tree) == Before(c) + [n] + After(c)
    {
      ghost var h, top := Snap(nodes), node;
      c := FindSlot(parent, d);
      Focus(c, Leaf);
      See(c, Leaf);
      hide Nodes, CtxNodes, InOrder, Distinct, CtxDistinct, Apart, Shaped, Around, Plug;
      WriteLink(n, parent, d, nodes);
      tree, nodes := Plug(c, Fork(Leaf, n, Red, Leaf)), nodes + {n};
      LinkDone(h, c, n, top);
    }

    // The writes of LinkNode; s holds the nodes of the tree.
    method WriteLink(n: Node, parent: Node?, d: Dir, ghost s: set<Node>)
      requires n !in s && (parent != null ==> parent in s)
      modifies this`node, s, n
      ensures CellOf(n) == Cell(parent, null, null, Red)
      ensures forall y <- s :: y != parent ==> CellOf(y) == old(CellOf(y))
      ensures parent == null ==> node == n
      ensures parent != null ==> node == old(node)
      ensures parent != null ==>
        CellOf(parent) == if d == Left then old(CellOf(parent)).(left := n) else old(CellOf(parent)).(right := n)
    {
      n.parent, n.left, n.right, n.color := parent, null, null, Red;
      if parent == null {
        node := n;
      } else if d == Left {
        parent.left := n;
      } else {
        parent.right := n;
      }
    }

    lemma FindSlot(parent: Node?, d: Dir) returns (c: Ctx)
      requires Shows() && Valid(tree)
      requires if parent == null then node == null
               else parent in nodes && if d == Left then parent.left == null else parent.right == null
      ensures tree == Plug(c, Leaf) && parent == Above(c, null) && (c.Hole? ==> c.dir == d) && Accepts(c, 0)
      ensures parent != null ==> (if d == Left then parent.left else parent.right) == null
      ensures InOrder(tree) == Before(c) + After(c) && nodes == CtxNodes(c)
    {
      if parent == null {
        c := Top;
      } else {
        var up, t := Locate(tree, parent);
        See(up, t);
        c := if d == Left then Hole(Left, up, parent, t.color, t.right) else Hole(Right, up, parent, t.color, t.left);
      }
      var g: nat :| RedBlack(tree, g);
      var h := SplitRedBlack(c, Leaf, g);
      PlugInOrder(c, Leaf);
      Focus(c, Leaf);
    }

    lemma LinkDone(h: Heap, c: Ctx, n: Node, top: Node?)
      requires Apart(c, Leaf) && Around(h, c, null, top, null) && h.Keys == CtxNodes(c) && n !in h
      requires nodes == h.Keys + {n} && tree == Plug(c, Fork(Leaf, n, Red, Leaf))
      requires forall y <- h :: y != Above(c, null) ==> CellOf(y) == h[y]
      requires CellOf(n) == Cell(Above(c, null), null, null, Red)
      requires if c.Top? then node == n else node == top && c.node in h && CellOf(c.node) == WithChild(h, c, n)
      ensures Shows() && InOrder(tree) == Before(c) + [n] + After(c)
    {
      PlugInOrder(c, Fork(Leaf, n, Red, Leaf));
      LinkCells(h, Snap(nodes), c, n, top, node);
      Unfocus(c, Fork(Leaf, n, Red, Leaf));
    }

    // The loop down the left links: the first node of subtree r.
    method GoLeft(start: Node, ghost c: Ctx, ghost r: Tree) returns (n: Node, ghost d: Ctx, ghost t: Tree)
      requires Shows() && tree == Plug(c, r) && r.Fork? && start == r.node
      ensures r == Plug(d, t) && t.Fork? && t.left.Leaf? && n == t.node && Before(d) == [] && (d.Hole? ==> d.dir == Left)
    {
      n, d, t := start, Top, r;
      PlugOver(d, c, t);
      See(Over(d, c), t);
      while n.left != null
        invariant r == Plug(d, t) && t.Fork? && n == t.node && Before(d) == [] && (d.Hole? ==> d.dir == Left)
        invariant n.left == Ref(t.left)
        decreases t
      {
        n := n.left;
        d, t := Hole(Left, d, t.node, t.color, t.right), t.left;
        PlugOver(d, c, t);
        See(Over(d, c), t);
      }
    }

    // The loop down the right links: the last node of subtree r.
    method GoRight(start: Node, ghost c: Ctx, ghost r: Tree) returns (n: Node, ghost d: Ctx, ghost t: Tree)
      requires Shows() && tree == Plug(c, r) && r.Fork? && start == r.node
      ensures r == Plug(d, t) && t.Fork? && t.right.Leaf? && n == t.node && After(d) == [] && (d.Hole? ==> d.dir == Right)
    {
      n, d, t := start, Top, r;
      PlugOver(d, c, t);
      See(Over(d, c), t);
      while n.right != null
        invariant r == Plug(d, t) && t.Fork? && n == t.node && After(d) == [] && (d.Hole? ==> d.dir == Right)
        invariant n.right == Ref(t.right)
        decreases t
      {
        n := n.right;
        d, t := Hole(Right, d, t.node, t.color, t.left), t.right;
        PlugOver(d, c, t);
        See(Over(d, c), t);
      }
    }

    // Lines 234-237 and 275-287: n has at most one child.
    method UnlinkSimple(n: Node, ghost c: Ctx, ghost t: Tree, ghost g: nat)
      returns (child: Node?, parent: Node?, color: Color, ghost u: Tree, ghost h: nat)
      requires Shows() && RedBlack(tree, g) && !IsRed(tree) && tree == Plug(c, t) && t.Fork? && n == t.node
      requires n.left == null || n.right == null
      modifies this, nodes
      ensures Shows() && tree == Plug(c, u) && child == Ref(u) && parent == Above(c, null)
      ensures if color == Black then Short(c, u, h) else RedBlack(tree, h) && !IsRed(tree)
      ensures nodes == old(nodes) - {n} && InOrder(tree) == Without(InOrder(old(tree)), n)
    {
      See(c, t);
      if n.left == null {
        child := n.right;
        u := t.right;
      } else {
        child := n.left;
        u := t.left;
      }
      h := EraseSimple(c, t, u, g);
      hide InOrder, Nodes, Distinct, Shaped, RedBlack, Accepts;
      parent, color := n.parent, n.color;
      Splice(n, child, c, t, u);
    }

    // Lines 238-272: n has two children.
    method UnlinkInner(n: Node, ghost c: Ctx, ghost t: Tree, ghost g: nat)
      returns (child: Node?, parent: Node?, color: Color, ghost e: Ctx, ghost u: Tree, ghost h: nat)
      requires Shows() && RedBlack(tree, g) && !IsRed(tree) && tree == Plug(c, t) && t.Fork? && n == t.node
      requires n.left != null && n.right != null
      modifies this, nodes
      ensures Shows() && tree == Plug(e, u) && child == Ref(u) && parent == Above(e, null)
      ensures if color == Black then Short(e, u, h) else RedBlack(tree, h) && !IsRed(tree)
      ensures nodes == old(nodes) - {n} && InOrder(tree) == Without(InOrder(old(tree)), n)
    {
      hide InOrder, Nodes, Distinct, Shaped, RedBlack, Accepts;
      ghost var Fork(l, _, k, r) := t;
      See(c, t);
      ghost var d: Ctx, st: Tree;
      var s;
      s, d, st := GoLeft(n.right, Hole(Right, c, n, k, l), r);
      ghost var Fork(_, _, j, q) := st;
      u, e := q, Over(d, Hole(Right, c, s, k, l));
      h := EraseInnerNode(c, l, n, k, d, s, j, q, g);
      PlugOver(d, Hole(Right, c, n, k, l), st);
      See(Over(d, Hole(Right, c, n, k, l)), st);
      DistinctAbove(c, l, n, k, d, st);
      if s.parent == n {
        child, parent, color := TakeNear(n, s, c, l, k, j, q);
      } else {
        child, parent, color := TakeFar(n, s, c, l, k, d, j, q);
      }
    }

    lemma DistinctAbove(c: Ctx, l: Tree, n: Node, k: Color, d: Ctx, t: Tree)
      requires Shows() && tree == Plug(c, Fork(l, n, k, Plug(d, t)))
      ensures Above(Over(d, Hole(Right, c, n, k, l)), null) == Above(d, n)
      ensures d.Hole? ==> d.node != n
    {
      PlugNodes(c, Fork(l, n, k, Plug(d, t)));
      PlugNodes(d, t);
    }

    method Erase(n: Node)
      requires Shows() && Valid(tree) && n in nodes
      modifies this, nodes
      ensures Shows() && Valid(tree) && nodes == old(nodes) - {n}
      ensures InOrder(tree) == Without(InOrder(old(tree)), n)
    {
      ghost var c, t := Locate(tree, n);
      ghost var g: nat :| RedBlack(tree, g);
      hide InOrder, Nodes, Distinct, Shaped, RedBlack, Accepts;
      var child, parent, color;
      ghost var e, u, h := c, t, g;
      if n.left == null || n.right == null {
        child, parent, color, u, h := UnlinkSimple(n, c, t, g);
      } else {
        child, parent, color, e, u, h := UnlinkInner(n, c, t, g);
      }
      if color == Black {
        EraseColor(child, parent, e, u, h);
      }
    }

    // Linking a node and repairing the colours, as every client does it.
    method Insert(n: Node, parent: Node?, d: Dir)
      requires Shows() && Valid(tree) && n !in nodes
      requires if parent == null then node == null
               else parent in nodes && if d == Left then parent.left == null else parent.right == null
      modifies this, nodes, n
      ensures Shows() && Valid(tree) && nodes == old(nodes) + {n}
      ensures parent == null ==> InOrder(old(tree)) == [] && InOrder(tree) == [n]
      ensures parent != null ==> InOrder(tree) == Beside(InOrder(old(tree)), parent, d, n)
    {
      ghost var w := tree;
      ghost var c := LinkNode(n, parent, d);
      InsertColor(n, c);
      BesideAt(w, c, n);
    }

    // ---- stepping

    method First() returns (n: Node?)
      requires Shows()
      ensures InOrder(tree) == [] ==> n == null
      ensures InOrder(tree) != [] ==> n == InOrder(tree)[0]
    {
      n := node;
      if n == null {
        return;
      }
      ghost var d, t;
      n, d, t := GoLeft(n, Top, tree);
      LeftmostIs(tree, d, t);
    }

    method Last() returns (n: Node?)
      requires Shows()
      ensures InOrder(tree) == [] ==> n == null
      ensures InOrder(tree) != [] ==> n == InOrder(tree)[|InOrder(tree)| - 1]
    {
      n := node;
      if n == null {
        return;
      }
      ghost var d, t;
      n, d, t := GoRight(n, Top, tree);
      RightmostIs(tree, d, t);
    }

    // The node after start in the in-order sequence, null after the last one.
    method Next(start: Node) returns (n: Node?)
      requires Shows() && start in nodes
      ensures Follows(InOrder(tree), start, n)
    {
      var x := start;
      ghost var c, t := Locate(tree, start);
      ReplaceReads(c, t.left, start, t.color, t.right, start);
      hide InOrder, Nodes, CtxNodes, Distinct, CtxDistinct, Shaped, Around, Apart, Follows, Snap;
      if x.parent == x {
        return null;
      }
      if x.right != null {
        ghost var d, s;
        n, d, s := GoLeft(x.right, Hole(Right, c, start, t.color, t.left), t.right);
        LeftmostIs(t.right, d, s);
        NextBelow(c, t);
        return;
      }
      n := x.parent;
      ghost var e, s := c, t;
      while n != null && x == n.right
        invariant tree == Plug(e, s) && s.Fork? && x == s.node && n == Above(e, null) && After(e) == After(c)
        decreases Depth(e)
      {
        See(e, s);
        e, s := e.up, Join(e.dir, s, e.node, e.color, e.sib);
        x := n;
        See(e, s);
        n := x.parent;
      }
      See(e, s);
      NextAbove(c, t);
    }

    // The node before start in the in-order sequence, null before the first one.
    method Prev(start: Node) returns (n: Node?)
      requires Shows() && start in nodes
      ensures if n == null then IsFirst(InOrder(tree), start) else Follows(InOrder(tree), n, start)
    {
      var x := start;
      ghost var c, t := Locate(tree, start);
      ReplaceReads(c, t.left, start, t.color, t.right, start);
      hide InOrder, Nodes, CtxNodes, Distinct, CtxDistinct, Shaped, Around, Apart, Follows, IsFirst, Snap;
      if x.parent == x {
        return null;
      }
      if x.left != null {
        ghost var d, s;
        n, d, s := GoRight(x.left, Hole(Left, c, start, t.color, t.right), t.left);
        RightmostIs(t.left, d, s);
        PrevBelow(c, t);
        return;
      }
      n := x.parent;
      ghost var e, s := c, t;
      while n != null && x == n.left
        invariant tree == Plug(e, s) && s.Fork? && x == s.node && n == Above(e, null) && Before(e) == Before(c)
        decreases Depth(e)
      {
        See(e, s);
        e, s := e.up, Join(e.dir, s, e.node, e.color, e.sib);
        x := n;
        See(e, s);
        n := x.parent;
      }
      See(e, s);
      PrevAbove(c, t);
    }
  }
}
