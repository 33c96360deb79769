// What rbtree.c does to the picture of a tree, on values: turns, the colour
// steps of both repairs, the in-order sequence around an insertion or erasure,
// and how field writes carry the picture from one snapshot to the next.
module RbSteps {
  import opened RbShape

  // The subtree on the side of d, and the one on the other side.
  ghost function Near(d: Dir, t: Tree): Tree
    requires t.Fork?
  {
    if d == Left then t.left else t.right
  }

  ghost function Far(d: Dir, t: Tree): Tree
    requires t.Fork?
  {
    if d == Left then t.right else t.left
  }

  // t turned towards d: the root of its far subtree becomes the root.
  ghost function Rotated(d: Dir, t: Tree): (r: Tree)
    requires t.Fork? && Far(d, t).Fork?
    ensures InOrder(r) == InOrder(t) && Nodes(r) == Nodes(t) && (Distinct(t) <==> Distinct(r))
  {
    var y := Far(d, t);
    var r := Join(d, Join(d, Near(d, t), t.node, t.color, Near(d, y)), y.node, y.color, Far(d, y));
    assert InOrder(r) == InOrder(t) by {
      if d == Left {
        Regroup(InOrder(t.left) + [t.node], InOrder(y.left), [y.node], InOrder(y.right));
      } else {
        Regroup(InOrder(y.left), [y.node], InOrder(y.right), [t.node] + InOrder(t.right));
      }
    }
    r
  }

  // Cell with its children named by side.
  ghost function Sided(d: Dir, p: Node?, near: Node?, far: Node?, k: Color): Cell {
    if d == Left then Cell(p, near, far, k) else Cell(p, far, near, k)
  }

  // Where the parts of t and c can not meet.
  lemma Separate(c: Ctx, t: Tree)
    requires Apart(c, t) && t.Fork?
    ensures t.node !in Nodes(t.left) && t.node !in Nodes(t.right) && t.node !in CtxNodes(c)
    ensures Nodes(t.left) !! Nodes(t.right) && Nodes(t.left) !! CtxNodes(c) && Nodes(t.right) !! CtxNodes(c)
    ensures Apart(c, t.left) && Apart(c, t.right)
    ensures t.left.Fork? ==> t.left.node in Nodes(t.left)
    ensures t.right.Fork? ==> t.right.node in Nodes(t.right)
    ensures c.Hole? ==> c.node in CtxNodes(c)
  {
  }

  // The cells a rotation reads, and that they are different cells.
  lemma RotateReads(d: Dir, h: Heap, c: Ctx, t: Tree, top: Node?)
    requires Apart(c, t) && t.Fork? && Far(d, t).Fork?
    requires Around(h, c, t.node, top, null) && Shaped(h, t, Above(c, null))
    ensures var (x, y) := (t.node, Far(d, t)); var b := Near(d, y);
      x in h && h[x] == Sided(d, Above(c, null), Ref(Near(d, t)), y.node, t.color) &&
      y.node in h && h[y.node] == Sided(d, x, Ref(b), Ref(Far(d, y)), y.color) &&
      (b.Fork? ==> b.node in h && b.node != x && b.node != y.node && b.node != Above(c, null)) &&
      x != y.node && x != Above(c, null) && y.node != Above(c, null) &&
      if c.Top? then top == x else c.node in h && (c.dir == Left <==> h[c.node].left == x)
  {
    var y := Far(d, t);
    assert Shaped(h, y, t.node);
    assert Shaped(h, Near(d, y), y.node);
    Separate(c, t);
    Separate(c, y);
  }

  // Writing just those cells turns the tree.
  lemma RotateWrites(d: Dir, h: Heap, h': Heap, c: Ctx, t: Tree, top: Node?, top': Node?)
    requires Apart(c, t) && t.Fork? && Far(d, t).Fork?
    requires Around(h, c, t.node, top, null) && Shaped(h, t, Above(c, null))
    requires var (x, y) := (t.node, Far(d, t)); var b := Near(d, y);
      SameOn(h, h', h.Keys - {x, y.node, Ref(b), Above(c, null)}) &&
      x in h' && h'[x] == Sided(d, y.node, Ref(Near(d, t)), Ref(b), t.color) &&
      y.node in h' && h'[y.node] == Sided(d, Above(c, null), x, Ref(Far(d, y)), y.color) &&
      (b.Fork? ==> b.node in h && b.node in h' && h'[b.node] == WithParent(h, b.node, x)) &&
      if c.Top? then top' == y.node else top' == top && c.node in h && c.node in h' && h'[c.node] == WithChild(h, c, y.node)
    ensures Around(h', c, Far(d, t).node, top', null) && Shaped(h', Rotated(d, t), Above(c, null))
  {
    var (a, x, y) := (Near(d, t), t.node, Far(d, t));
    assert Shaped(h, y, x);
    Separate(c, t);
    Separate(c, y);
    ShapedKept(h, h', a, x);
    ShapedKept(h, h', Far(d, y), y.node);
    ShapedMoved(h, h', Near(d, y), y.node, x);
    AroundMoved(h, h', c, x, top, y.node, top', null);
    assert Shaped(h', Join(d, a, x, t.color, Near(d, y)), y.node);
  }

  // Trees with the same sequence are alike in every context.
  lemma PlugSame(c: Ctx, t: Tree, t': Tree)
    requires InOrder(t) == InOrder(t')
    ensures InOrder(Plug(c, t)) == InOrder(Plug(c, t'))
  {
    PlugInOrder(c, t);
    PlugInOrder(c, t');
  }

  // ---- the colour steps of insertion: t is red below the red p below g

  lemma InsertStart(c: Ctx, h: nat)
    requires RedAbove(c) && Accepts(c, h)
    ensures c.up.Hole? && c.up.color == Black
  {
  }

  // A red uncle u: the trouble moves up to g.
  lemma InsertRecolor(c: Ctx, t: Tree, h: nat)
    requires RedAbove(c) && Accepts(c, h) && RedBlack(t, h) && IsRed(c.up.sib)
    ensures var up := c.up; var q := Join(c.dir, t, c.node, Black, c.sib);
      Depth(up.up) < Depth(c) && Accepts(up.up, h + 1) &&
      RedBlack(Join(up.dir, q, up.node, Red, up.sib.(color := Black)), h + 1)
  {
  }

  // An inner t = (a n b): after the turn the outer red node is p.
  lemma InsertInner(c: Ctx, n: Node, a: Tree, b: Tree, h: nat)
    requires RedAbove(c) && Accepts(c, h) && c.up.dir != c.dir && RedBlack(Join(c.dir, a, n, Red, b), h)
    ensures RedBlack(Join(c.dir, b, c.node, Red, c.sib), h) && Accepts(Hole(c.up.dir, c.up, n, Red, a), h)
    ensures Depth(Hole(c.up.dir, c.up, n, Red, a)) == Depth(c)
  {
  }

  // A black uncle: p rises to the place of g, and nothing is left to repair.
  lemma InsertTurn(c: Ctx, t: Tree, h: nat)
    requires RedAbove(c) && Accepts(c, h) && !IsRed(c.up.sib)
    ensures var up := c.up; var c' := Hole(up.dir, up.up, c.node, Black, Join(up.dir, c.sib, up.node, Red, up.sib));
      Depth(c') < Depth(c) && Accepts(c', h)
  {
  }

  lemma InsertEnd(c: Ctx, t: Tree, h: nat)
    requires !RedAbove(c) && Accepts(c, h) && RedBlack(t, h) && IsRed(t)
    ensures var w := Plug(c, t); w.Fork? && exists g: nat :: RedBlack(Blacken(w), g)
  {
    var g := PlugRedBlack(c, t, h);
    PlugNonEmpty(c, t);
    var w := Plug(c, t);
    assert RedBlack(Blacken(w), if IsRed(w) then g + 1 else g);
  }

  // ---- the colour steps of erasure: t is one black node short

  // Accepts asks for one black node more than the black-rooted t has; a red t
  // makes it up by turning black.
  ghost predicate Short(c: Ctx, t: Tree, h: nat) {
    Accepts(c, h + 1) && if IsRed(t) then RedBlack(Blacken(t), h + 1) else RedBlack(t, h)
  }

  lemma EraseStart(c: Ctx, t: Tree, h: nat)
    requires c.Hole? && Short(c, t, h)
    ensures c.sib.Fork?
    ensures IsRed(c.sib) ==> c.color == Black && c.sib.left.Fork? && c.sib.right.Fork? && !IsRed(c.sib.left) && !IsRed(c.sib.right)
  {
    if IsRed(c.sib) {
      assert RedBlack(c.sib.left, h + 1) && RedBlack(c.sib.right, h + 1);
    }
  }

  // A red sibling: after the turn the sibling is black and t hangs lower.
  lemma EraseSibling(c: Ctx, t: Tree, h: nat)
    requires c.Hole? && Short(c, t, h) && IsRed(c.sib)
    ensures var w := c.sib; Short(Hole(c.dir, Hole(c.dir, c.up, w.node, Black, Far(c.dir, w)), c.node, Red, Near(c.dir, w)), t, h)
  {
  }

  // A black sibling with black children gives up a black node; the lack moves up.
  lemma EraseClimb(c: Ctx, t: Tree, h: nat) returns (h': nat)
    requires c.Hole? && Short(c, t, h) && !IsRed(t) && !IsRed(c.sib) && c.sib.Fork? && !IsRed(c.sib.left) && !IsRed(c.sib.right)
    ensures Short(c.up, Join(c.dir, t, c.node, c.color, c.sib.(color := Red)), h') && Depth(c.up) < Depth(c)
  {
    h' := if c.color == Red then h else h + 1;
  }

  // Only the near child of the black sibling is red: it takes the sibling's place.
  lemma EraseInner(c: Ctx, t: Tree, h: nat)
    requires c.Hole? && Short(c, t, h) && !IsRed(c.sib) && c.sib.Fork? && IsRed(Near(c.dir, c.sib)) && !IsRed(Far(c.dir, c.sib))
    ensures var (d, w) := (c.dir, c.sib); var v := Near(d, w);
      Short(c.(sib := Join(d, Near(d, v), v.node, Black, Join(d, Far(d, v), w.node, Red, Far(d, w)))), t, h)
  {
    assert RedBlack(Near(c.dir, c.sib), h) && RedBlack(Far(c.dir, c.sib), h);
    var (d, w) := (c.dir, c.sib);
    var v := Near(d, w);
    assert RedBlack(v.left, h) && RedBlack(v.right, h);
    assert RedBlack(Join(d, Far(d, v), w.node, Red, Far(d, w)), h);
  }

  // The far child of the black sibling is red: a turn pays the debt.
  lemma EraseOuter(c: Ctx, t: Tree, h: nat) returns (g: nat)
    requires c.Hole? && Short(c, t, h) && !IsRed(t) && !IsRed(c.sib) && c.sib.Fork? && IsRed(Far(c.dir, c.sib))
    ensures var (d, w) := (c.dir, c.sib);
      var j := Join(d, Join(d, t, c.node, Black, Near(d, w)), w.node, c.color, Far(d, w).(color := Black));
      RedBlack(Plug(c.up, j), g) && !IsRed(Plug(c.up, j)) && Plug(c.up, j).Fork?
  {
    var (d, w) := (c.dir, c.sib);
    var j := Join(d, Join(d, t, c.node, Black, Near(d, w)), w.node, c.color, Far(d, w).(color := Black));
    assert RedBlack(Near(d, w), h) && RedBlack(Far(d, w), h);
    assert RedBlack(Far(d, w).left, h) && RedBlack(Far(d, w).right, h);
    g := PlugRedBlack(c.up, j, if c.color == Red then h + 1 else h + 2);
    PlugNonEmpty(c.up, j);
  }

  lemma EraseEnd(c: Ctx, t: Tree, h: nat)
    requires if c.Top? then !IsRed(t) ==> RedBlack(t, h) else Short(c, t, h) && IsRed(t)
    requires c.Top? && IsRed(t) ==> Short(c, t, h)
    ensures var w := Plug(c, Blacken(t)); !IsRed(w) && exists g: nat :: RedBlack(w, g)
  {
    if c.Hole? || IsRed(t) {
      var g := PlugRedBlack(c, Blacken(t), h + 1);
    } else {
      assert RedBlack(Plug(c, Blacken(t)), h);
    }
  }

  // Taking S out of its place in c, its only child t moving up.
  lemma EraseUnlink(c: Ctx, s: Tree, t: Tree, h: nat)
    requires Accepts(c, h) && RedBlack(s, h) && s.Fork?
    requires (s.left.Leaf? && t == s.right) || (s.right.Leaf? && t == s.left)
    ensures if s.color == Red then t.Leaf? && h == 0 else h > 0 && Short(c, t, h - 1)
  {
    if s.color == Red {
      assert RedBlack(t, h);
    } else {
      assert RedBlack(t, h - 1);
    }
  }

  lemma Recolored(h: Heap, h': Heap, c: Ctx, t: Tree, k: Color, top: Node?)
    requires Apart(c, t) && t.Fork? && Around(h, c, t.node, top, null) && Shaped(h, t, Above(c, null))
    requires SameOn(h, h', h.Keys - {t.node}) && t.node in h' && h'[t.node] == h[t.node].(color := k)
    ensures Apart(c, t.(color := k))
    ensures Around(h', c, t.node, top, null) && Shaped(h', t.(color := k), Above(c, null))
  {
    Separate(c, t);
    ShapedKept(h, h', t.left, t.node);
    ShapedKept(h, h', t.right, t.node);
    AroundKept(h, h', c, t.node, top, null);
  }

  // The outermost node of a context is one of its nodes.
  lemma {:induction false} TopInCtx(c: Ctx, t: Tree)
    requires c.Hole?
    ensures Ref(Plug(c, t)) in CtxNodes(c)
  {
    match c
    case Hole(d, up, x, k, s) =>
      if up.Hole? { TopInCtx(up, Join(d, t, x, k, s)); }
  }

  // n out of the sequence, the rest in order.
  ghost function Without(s: seq<Node>, n: Node): seq<Node> {
    if s == [] then [] else if s[0] == n then s[1..] else [s[0]] + Without(s[1..], n)
  }

  lemma {:induction false} WithoutAt(p: seq<Node>, n: Node, q: seq<Node>)
    requires n !in p
    ensures Without(p + [n] + q, n) == p + q
  {
    if p == [] {
      assert p + [n] + q == [n] + q;
    } else {
      WithoutAt(p[1..], n, q);
      assert p + [n] + q == [p[0]] + (p[1..] + [n] + q);
      assert [p[0]] + (p[1..] + q) == p + q;
    }
  }

  lemma {:induction false} InOrderNodes(t: Tree, n: Node)
    ensures n in InOrder(t) <==> n in Nodes(t)
  {
    if t.Fork? {
      InOrderNodes(t.left, n);
      InOrderNodes(t.right, n);
    }
  }

  lemma {:induction false} CtxOrderNodes(c: Ctx, n: Node)
    ensures n in Before(c) + After(c) <==> n in CtxNodes(c)
  {
    if c.Hole? {
      CtxOrderNodes(c.up, n);
      InOrderNodes(c.sib, n);
    }
  }

  // Replacing the root s of c's subtree (a one-child tree) by its child t.
  lemma SpliceCells(h: Heap, h': Heap, c: Ctx, s: Tree, t: Tree, top: Node?, top': Node?)
    requires Apart(c, s) && s.Fork? && (t == s.left || t == s.right)
    requires Around(h, c, s.node, top, null) && Shaped(h, s, Above(c, null))
    requires SameOn(h, h', h.Keys - {s.node, Ref(t), Above(c, null)})
    requires t.Fork? ==> t.node in h && t.node in h' && h'[t.node] == WithParent(h, t.node, Above(c, null))
    requires if c.Top? then top' == Ref(t) else top' == top && c.node in h && c.node in h' && h'[c.node] == WithChild(h, c, Ref(t))
    ensures Around(h', c, Ref(t), top', null) && Shaped(h', t, Above(c, null))
  {
    Separate(c, s);
    assert Shaped(h, t, s.node);
    ShapedMoved(h, h', t, s.node, Above(c, null));
    AroundMoved(h, h', c, s.node, top, Ref(t), top', null);
  }

  // Linking n into the empty hole of c.
  lemma LinkCells(h: Heap, h': Heap, c: Ctx, n: Node, top: Node?, top': Node?)
    requires CtxDistinct(c) && n !in CtxNodes(c) && Around(h, c, null, top, null)
    requires SameOn(h, h', h.Keys - {n, Above(c, null)})
    requires n in h' && h'[n] == Cell(Above(c, null), null, null, Red)
    requires if c.Top? then top' == n else top' == top && c.node in h && c.node in h' && h'[c.node] == WithChild(h, c, n)
    ensures Around(h', c, n, top', null) && Shaped(h', Fork(Leaf, n, Red, Leaf), Above(c, null))
  {
    AroundMoved(h, h', c, null, top, n, top', null);
  }

  // s standing in the place of n, with l to its left and q to its right.
  lemma OccupyCells(h: Heap, h': Heap, c: Ctx, l: Tree, n: Node, k: Color, s: Node, q: Tree, top: Node?, top': Node?)
    requires CtxDistinct(c) && Distinct(l) && Around(h, c, n, top, null) && Shaped(h, l, n) && Shaped(h', q, s)
    requires SameOn(h, h', CtxNodes(c) + Nodes(l) - {Ref(l), Above(c, null)}) && CtxNodes(c) !! Nodes(l)
    requires s in h' && h'[s] == Cell(Above(c, null), Ref(l), Ref(q), k)
    requires l.Fork? ==> l.node in h && l.node in h' && h'[l.node] == WithParent(h, l.node, s)
    requires if c.Top? then top' == s else top' == top && c.node in h && c.node in h' && h'[c.node] == WithChild(h, c, s)
    ensures Around(h', c, s, top', null) && Shaped(h', Fork(l, s, k, q), Above(c, null))
  {
    assert l.Fork? ==> l.node in Nodes(l);
    assert c.Hole? ==> c.node in CtxNodes(c);
    ShapedMoved(h, h', l, n, s);
    AroundMoved(h, h', c, n, top, s, top', null);
  }

  // s, from outside, in the place of n.
  lemma ReplaceCells(h: Heap, h': Heap, c: Ctx, l: Tree, n: Node, k: Color, r: Tree, s: Node, top: Node?, top': Node?)
    requires var t := Fork(l, n, k, r);
      Apart(c, t) && Around(h, c, n, top, null) && Shaped(h, t, Above(c, null)) && h.Keys == CtxNodes(c) + Nodes(t)
    requires s !in h && h'.Keys == h.Keys - {n} + {s} && h'[s] == Cell(Above(c, null), Ref(l), Ref(r), k)
    requires forall y <- h' :: y != s && y != Ref(l) && y != Ref(r) && y != Above(c, null) ==> y in h && h'[y] == h[y]
    requires l.Fork? ==> l.node in h && l.node in h' && h'[l.node] == WithParent(h, l.node, s)
    requires r.Fork? ==> r.node in h && r.node in h' && h'[r.node] == WithParent(h, r.node, s)
    requires if c.Top? then top' == s else top' == top && c.node in h && c.node in h' && h'[c.node] == WithChild(h, c, s)
    ensures var t := Fork(l, s, k, r);
      Apart(c, t) && h'.Keys == CtxNodes(c) + Nodes(t) && Around(h', c, s, top', null) && Shaped(h', t, Above(c, null))
  {
    Separate(c, Fork(l, n, k, r));
    ShapedMoved(h, h', r, n, s);
    OccupyCells(h, h', c, l, n, k, s, r, top, top');
  }

  // s, the right child of n, in the place of n.
  lemma NearCells(h: Heap, h': Heap, c: Ctx, l: Tree, n: Node, k: Color, s: Node, j: Color, q: Tree, top: Node?, top': Node?)
    requires var t := Fork(l, n, k, Fork(Leaf, s, j, q));
      Apart(c, t) && Around(h, c, n, top, null) && Shaped(h, t, Above(c, null)) && h.Keys == CtxNodes(c) + Nodes(t)
    requires h'.Keys == h.Keys - {n} && s in h' && h'[s] == Cell(Above(c, null), Ref(l), Ref(q), k)
    requires forall y <- h' :: y != s && y != Ref(l) && y != Above(c, null) ==> y in h && h'[y] == h[y]
    requires l.Fork? ==> l.node in h && l.node in h' && h'[l.node] == WithParent(h, l.node, s)
    requires if c.Top? then top' == s else top' == top && c.node in h && c.node in h' && h'[c.node] == WithChild(h, c, s)
    ensures var t := Fork(l, s, k, q);
      Apart(c, t) && h'.Keys == CtxNodes(c) + Nodes(t) && Around(h', c, s, top', null) && Shaped(h', t, Above(c, null))
  {
    var r := Fork(Leaf, s, j, q);
    Separate(c, Fork(l, n, k, r));
    Separate(c, r);
    assert Shaped(h, r, n);
    assert CtxDistinct(c) && Distinct(l) && Shaped(h, l, n) && Shaped(h, q, s) && SameOn(h, h', Nodes(q));
    assert Apart(c, Fork(l, s, k, q)) && h'.Keys == CtxNodes(c) + Nodes(Fork(l, s, k, q));
    hide Nodes, CtxNodes, InOrder, Distinct, CtxDistinct, Apart, Around, Plug;
    ShapedKept(h, h', q, s);
    OccupyCells(h, h', c, l, n, k, s, q, top, top');
  }

  lemma Middle(p: seq<Node>, a: seq<Node>, n: Node, b: seq<Node>, q: seq<Node>)
    ensures p + (a + [n] + b) + q == (p + a) + [n] + (b + q)
    ensures p + (a + b) + q == (p + a) + (b + q)
  {
  }

  lemma SequenceAround(c: Ctx, l: Tree, n: Node, k: Color, r: Tree)
    requires Distinct(Plug(c, Fork(l, n, k, r)))
    ensures Without(InOrder(Plug(c, Fork(l, n, k, r))), n) == Before(c) + (InOrder(l) + InOrder(r)) + After(c)
  {
    var t := Fork(l, n, k, r);
    PlugInOrder(c, t);
    PlugNodes(c, t);
    CtxOrderNodes(c, n);
    InOrderNodes(l, n);
    var (p, q) := (Before(c) + InOrder(l), InOrder(r) + After(c));
    assert n !in p;
    Middle(Before(c), InOrder(l), n, InOrder(r), After(c));
    WithoutAt(p, n, q);
  }

  // Removing a node with at most one child u.
  lemma EraseSimple(c: Ctx, t: Tree, u: Tree, g: nat) returns (h: nat)
    requires t.Fork? && RedBlack(Plug(c, t), g) && !IsRed(Plug(c, t)) && Distinct(Plug(c, t))
    requires (t.left.Leaf? && u == t.right) || (t.right.Leaf? && u == t.left)
    ensures t.color == Black ==> Short(c, u, h)
    ensures t.color == Red ==> RedBlack(Plug(c, u), h) && !IsRed(Plug(c, u))
    ensures InOrder(Plug(c, u)) == Without(InOrder(Plug(c, t)), t.node)
  {
    var a := SplitRedBlack(c, t, g);
    EraseUnlink(c, t, u, a);
    if t.color == Black {
      h := a - 1;
    } else {
      h := PlugRedBlack(c, u, a);
    }
    SequenceAround(c, t.left, t.node, t.color, t.right);
    PlugInOrder(c, u);
    assert InOrder(u) == InOrder(t.left) + InOrder(t.right);
  }

  // Removing a node with two children: its successor s takes its place and colour.
  lemma EraseInnerNode(c: Ctx, l: Tree, n: Node, k: Color, d: Ctx, s: Node, j: Color, q: Tree, g: nat) returns (h: nat)
    requires var w := Plug(c, Fork(l, n, k, Plug(d, Fork(Leaf, s, j, q)))); RedBlack(w, g) && !IsRed(w) && Distinct(w)
    requires Before(d) == []
    ensures var e := Over(d, Hole(Right, c, s, k, l)); var w' := Plug(c, Fork(l, s, k, Plug(d, q)));
      w' == Plug(e, q) && Above(e, null) == Above(d, s) &&
      (if j == Black then Short(e, q, h) else RedBlack(w', h) && !IsRed(w')) &&
      InOrder(w') == Without(InOrder(Plug(c, Fork(l, n, k, Plug(d, Fork(Leaf, s, j, q))))), n)
  {
    var t, e := Fork(Leaf, s, j, q), Over(d, Hole(Right, c, s, k, l));
    var r := Plug(d, t);
    var a := SplitRedBlack(c, Fork(l, n, k, r), g);
    var b := PlugRedBlack(c, Fork(l, s, k, r), a);
    PlugOver(d, Hole(Right, c, s, k, l), t);
    PlugOver(d, Hole(Right, c, s, k, l), q);
    PlugNonEmpty(c, Fork(l, n, k, r));
    var f := SplitRedBlack(e, t, b);
    EraseUnlink(e, t, q, f);
    if j == Black {
      h := f - 1;
    } else {
      h := PlugRedBlack(e, q, f);
    }
    SuccessorOrder(c, l, n, k, d, s, j, q);
  }

  lemma SuccessorOrder(c: Ctx, l: Tree, n: Node, k: Color, d: Ctx, s: Node, j: Color, q: Tree)
    requires Before(d) == [] && Distinct(Plug(c, Fork(l, n, k, Plug(d, Fork(Leaf, s, j, q)))))
    ensures InOrder(Plug(c, Fork(l, s, k, Plug(d, q)))) == Without(InOrder(Plug(c, Fork(l, n, k, Plug(d, Fork(Leaf, s, j, q))))), n)
  {
    var r := Plug(d, Fork(Leaf, s, j, q));
    SequenceAround(c, l, n, k, r);
    PlugInOrder(d, Fork(Leaf, s, j, q));
    PlugInOrder(d, q);
    PlugInOrder(c, Fork(l, s, k, Plug(d, q)));
    Shift(InOrder(l), s, InOrder(q), After(d));
  }

  lemma Shift(a: seq<Node>, s: Node, b: seq<Node>, q: seq<Node>)
    ensures a + [s] + ([] + b + q) == a + ([] + ([] + [s] + b) + q)
  {
  }

  // m comes right after n in s, or n is last and m is null.
  ghost predicate Follows(s: seq<Node>, n: Node, m: Node?) {
    exists i :: FollowsAt(s, i, n, m)
  }

  ghost predicate FollowsAt(s: seq<Node>, i: int, n: Node, m: Node?) {
    0 <= i < |s| && s[i] == n && if i + 1 < |s| then m == s[i + 1] else m == null
  }

  // n is first in s.
  ghost predicate IsFirst(s: seq<Node>, n: Node) {
    s != [] && s[0] == n
  }

  // n next to p in s, before it or after it.
  ghost function Beside(s: seq<Node>, p: Node, d: Dir, n: Node): seq<Node> {
    if s == [] then [n]
    else if s[0] == p then (if d == Left then [n] + s else [p, n] + s[1..])
    else [s[0]] + Beside(s[1..], p, d, n)
  }

  lemma {:induction false} BesideSplit(a: seq<Node>, p: Node, b: seq<Node>, d: Dir, n: Node)
    requires p !in a
    ensures Beside(a + [p] + b, p, d, n) == if d == Left then a + [n] + ([p] + b) else (a + [p]) + [n] + b
  {
    if a == [] {
      assert a + [p] + b == [p] + b;
    } else {
      BesideSplit(a[1..], p, b, d, n);
      assert a + [p] + b == [a[0]] + (a[1..] + [p] + b);
    }
  }

  lemma BesideAt(w: Tree, c: Ctx, n: Node)
    requires w == Plug(c, Leaf) && Distinct(w)
    ensures c.Top? ==> InOrder(w) == []
    ensures c.Hole? ==> Before(c) + [n] + After(c) == Beside(InOrder(w), c.node, c.dir, n)
  {
    PlugInOrder(c, Leaf);
    PlugNodes(c, Leaf);
    if c.Hole? {
      CtxOrderNodes(c.up, c.node);
      InOrderNodes(c.sib, c.node);
      BesideSlot(Before(c.up), c.node, InOrder(c.sib), After(c.up), c.dir, n);
    }
  }

  lemma BesideSlot(a: seq<Node>, x: Node, m: seq<Node>, b: seq<Node>, d: Dir, n: Node)
    requires x !in a && x !in m
    ensures d == Left ==> a + [n] + ([x] + m + b) == Beside(a + [] + ([x] + m + b), x, Left, n)
    ensures d == Right ==> (a + m + [x]) + [n] + b == Beside((a + m + [x]) + [] + b, x, Right, n)
  {
    if d == Left {
      BesideSplit(a, x, m + b, Left, n);
      Tuck(a, x, m, b);
    } else {
      BesideSplit(a + m, x, b, Right, n);
      assert (a + m + [x]) + [] + b == (a + m) + [x] + b;
    }
  }

  lemma Tuck(a: seq<Node>, x: Node, m: seq<Node>, b: seq<Node>)
    ensures [x] + m + b == [x] + (m + b) && a + [] + ([x] + m + b) == a + [x] + (m + b)
  {
  }

  lemma Spread(c: Ctx, t: Tree)
    requires t.Fork?
    ensures InOrder(Plug(c, t)) == (Before(c) + InOrder(t.left)) + [t.node] + (InOrder(t.right) + After(c))
  {
    PlugInOrder(c, t);
    Middle(Before(c), InOrder(t.left), t.node, InOrder(t.right), After(c));
  }

  lemma LeftmostIs(r: Tree, d: Ctx, s: Tree)
    requires r == Plug(d, s) && Before(d) == [] && s.Fork? && s.left.Leaf?
    ensures InOrder(r) != [] && InOrder(r)[0] == s.node
  {
    PlugInOrder(d, s);
  }

  lemma RightmostIs(l: Tree, d: Ctx, s: Tree)
    requires l == Plug(d, s) && After(d) == [] && s.Fork? && s.right.Leaf?
    ensures InOrder(l) != [] && InOrder(l)[|InOrder(l)| - 1] == s.node
  {
    PlugInOrder(d, s);
  }

  lemma NextBelow(c: Ctx, t: Tree)
    requires t.Fork? && t.right.Fork?
    ensures InOrder(t.right) != [] && Follows(InOrder(Plug(c, t)), t.node, InOrder(t.right)[0])
  {
    Spread(c, t);
    var i := |Before(c) + InOrder(t.left)|;
    assert FollowsAt(InOrder(Plug(c, t)), i, t.node, InOrder(t.right)[0]);
  }

  lemma NextAbove(c: Ctx, t: Tree)
    requires t.Fork? && t.right.Leaf?
    ensures Follows(InOrder(Plug(c, t)), t.node, if After(c) == [] then null else After(c)[0])
  {
    Spread(c, t);
    var (i, s) := (|Before(c) + InOrder(t.left)|, InOrder(Plug(c, t)));
    var m: Node? := if After(c) == [] then null else After(c)[0];
    assert InOrder(t.right) + After(c) == After(c);
    assert 0 <= i < |s| && s[i] == t.node && |s| == i + 1 + |After(c)|;
    assert FollowsAt(s, i, t.node, m);
  }

  lemma PrevBelow(c: Ctx, t: Tree)
    requires t.Fork? && t.left.Fork?
    ensures var s := InOrder(t.left); s != [] && Follows(InOrder(Plug(c, t)), s[|s| - 1], t.node)
  {
    Spread(c, t);
    var i := |Before(c) + InOrder(t.left)|;
    assert FollowsAt(InOrder(Plug(c, t)), i - 1, InOrder(t.left)[|InOrder(t.left)| - 1], t.node);
  }

  lemma PrevAbove(c: Ctx, t: Tree)
    requires t.Fork? && t.left.Leaf?
    ensures var b := Before(c); var s := InOrder(Plug(c, t));
      if b == [] then IsFirst(s, t.node) else Follows(s, b[|b| - 1], t.node)
  {
    Spread(c, t);
    var (b, s) := (Before(c), InOrder(Plug(c, t)));
    if b != [] {
      assert FollowsAt(s, |b| - 1, b[|b| - 1], t.node);
    }
  }

  // What the cells around the root of t hold.
  lemma NearHole(h: Heap, c: Ctx, t: Tree, top: Node?)
    requires t.Fork? && Apart(c, t) && Around(h, c, t.node, top, null) && Shaped(h, t, Above(c, null))
    ensures t.node in h && h[t.node] == Cell(Above(c, null), Ref(t.left), Ref(t.right), t.color)
    ensures c.Top? ==> top == t.node
    ensures c.Hole? ==> c.node in h && (c.dir == Left <==> h[c.node].left == t.node)
    ensures t.left.Fork? ==> t.left.node in h
    ensures t.right.Fork? ==> t.right.node in h
  {
    Separate(c, t);
    if c.Hole? {
      assert c.sib.Fork? ==> c.sib.node in CtxNodes(c);
    }
  }
}
