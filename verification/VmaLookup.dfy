// The red-black tree as the index of an address space: how deep it gets, and
// vmm_find_vma over it against the linear scan of the area list.
module VmaLookup {
  import opened Dyadic
  import opened RbShape
  import opened RbSteps
  import opened RbTree

  ghost function Height(t: Tree): nat {
    if t.Leaf? then 0
    else 1 + if Height(t.left) > Height(t.right) then Height(t.left) else Height(t.right)
  }

  lemma {:induction false} BlackHeightBounds(t: Tree, h: nat)
    requires RedBlack(t, h)
    ensures Pow2(h) <= |InOrder(t)| + 1
    ensures Height(t) <= 2 * h + (if IsRed(t) then 1 else 0)
  {
    if t.Fork? {
      var g := if t.color == Red then h else h - 1;
      BlackHeightBounds(t.left, g);
      BlackHeightBounds(t.right, g);
    }
  }

  // A valid tree of n nodes has height at most 2 * log2(n + 1).
  lemma HeightBound(t: Tree)
    requires Valid(t)
    ensures var n := |InOrder(t)|; Pow2(Height(t)) <= (n + 1) * (n + 1)
  {
    var h: nat :| RedBlack(t, h);
    BlackHeightBounds(t, h);
    Pow2Monotone(Height(t), 2 * h);
    Pow2Add(h, h);
    SquareMonotone(Pow2(h), |InOrder(t)| + 1);
  }

  lemma SquareMonotone(p: nat, m: nat)
    requires p <= m
    ensures p * p <= m * m
  {
    assert p * p <= p * m <= m * m;
  }

  ghost predicate Contains(a: Area, addr: nat) {
    a.start <= addr < a.end
  }

  // The areas follow one another without overlap.
  ghost predicate Disjoint(s: seq<Node>) {
    (forall i :: 0 <= i < |s| ==> s[i].area.start <= s[i].area.end) &&
    forall i, j :: 0 <= i < j < |s| ==> s[i].area.end <= s[j].area.start
  }

  // Areas left of the hole end before, areas right of it start after, any
  // area inside.
  lemma DisjointParts(c: Ctx, t: Tree)
    requires t.Fork? && Disjoint(InOrder(Plug(c, t)))
    ensures forall n <- Before(c) + InOrder(t.left) :: n.area.end <= t.node.area.start
    ensures forall n <- InOrder(t.right) + After(c) :: t.node.area.end <= n.area.start
    ensures t.node.area.start <= t.node.area.end
    ensures forall n <- InOrder(Plug(c, t)) :: n.area.start <= n.area.end
  {
    Spread(c, t);
    var (s, p, q) := (InOrder(Plug(c, t)), Before(c) + InOrder(t.left), InOrder(t.right) + After(c));
    assert s[|p|] == t.node;
    forall n | n in p ensures n.area.end <= t.node.area.start {
      var i :| 0 <= i < |p| && p[i] == n;
      assert s[i] == n;
    }
    forall n | n in q ensures t.node.area.end <= n.area.start {
      var i :| 0 <= i < |q| && q[i] == n;
      assert s[|p| + 1 + i] == n;
    }
  }

  // How many nodes the search for addr looks at.
  ghost function Visits(t: Tree, addr: nat): nat {
    match t
    case Leaf => 0
    case Fork(l, n, _, r) => 1 + if addr < n.area.start then Visits(l, addr) else if addr >= n.area.end then Visits(r, addr) else 0
  }

  lemma {:induction false} VisitsHeight(t: Tree, addr: nat)
    ensures Visits(t, addr) <= Height(t)
  {
    if t.Fork? {
      VisitsHeight(t.left, addr);
      VisitsHeight(t.right, addr);
    }
  }

  // vmm_find_vma, tree form.
  method FindVma(root: Root, addr: nat) returns (vma: Node?, ghost steps: nat)
    requires root.Shows() && Disjoint(InOrder(root.tree))
    ensures vma != null ==> vma in root.nodes && Contains(vma.area, addr)
    ensures vma == null ==> forall n <- root.nodes :: !Contains(n.area, addr)
    ensures steps == Visits(root.tree, addr) <= Height(root.tree)
  {
    VisitsHeight(root.tree, addr);
    var x := root.node;
    vma := null;
    steps := 0;
    ghost var c, t := Top, root.tree;
    while x != null
      invariant root.tree == Plug(c, t) && x == Ref(t) && vma == null
      invariant forall n <- Before(c) + After(c) :: !Contains(n.area, addr)
      invariant steps + Visits(t, addr) == Visits(root.tree, addr)
      decreases t
    {
      root.See(c, t);
      DisjointParts(c, t);
      steps := steps + 1;
      Descend(c, t, addr);
      if addr < x.area.start {
        c, t := Hole(Left, c, t.node, t.color, t.right), t.left;
        x := x.left;
      } else if addr >= x.area.end {
        c, t := Hole(Right, c, t.node, t.color, t.left), t.right;
        x := x.right;
      } else {
        vma := x;
        return;
      }
    }
    NothingLeft(root, c, t);
  }

  lemma Descend(c: Ctx, t: Tree, addr: nat)
    requires t.Fork? && Disjoint(InOrder(Plug(c, t)))
    requires forall n <- Before(c) + After(c) :: !Contains(n.area, addr)
    ensures addr < t.node.area.start ==> var d := Hole(Left, c, t.node, t.color, t.right);
      forall n <- Before(d) + After(d) :: !Contains(n.area, addr)
    ensures addr >= t.node.area.end ==> var d := Hole(Right, c, t.node, t.color, t.left);
      forall n <- Before(d) + After(d) :: !Contains(n.area, addr)
  {
    DisjointParts(c, t);
    var (p, q) := (Before(c) + InOrder(t.left), InOrder(t.right) + After(c));
    assert forall n <- InOrder(t.left) :: n in p;
    assert forall n <- InOrder(t.right) :: n in q;
    assert forall n <- Before(c) :: n in Before(c) + After(c);
    assert forall n <- After(c) :: n in Before(c) + After(c);
  }

  lemma NothingLeft(root: Root, c: Ctx, t: Tree)
    requires root.Shows() && root.tree == Plug(c, t) && t.Leaf?
    ensures forall n <- root.nodes :: n in Before(c) + After(c)
  {
    PlugNodes(c, t);
    forall n | n in root.nodes ensures n in Before(c) + After(c) {
      CtxOrderNodes(c, n);
    }
  }

  // vmm_find_vma, list form: the areas in the order of the vm_next links.
  method ScanVma(list: seq<Node>, addr: nat) returns (vma: Node?)
    ensures vma != null ==> Contains(vma.area, addr)
    ensures vma != null ==> exists i :: 0 <= i < |list| && list[i] == vma && forall j :: 0 <= j < i ==> !Contains(list[j].area, addr)
    ensures vma == null ==> forall n <- list :: !Contains(n.area, addr)
  {
    var i := 0;
    while i < |list|
      invariant i <= |list| && forall j :: 0 <= j < i ==> !Contains(list[j].area, addr)
    {
      if addr >= list[i].area.start && addr < list[i].area.end {
        return list[i];
      }
      i := i + 1;
    }
    return null;
  }

  // Tree search and list scan agree, whatever the order of the list.
  method FindAgrees(root: Root, list: seq<Node>, addr: nat) returns (found: Node?, scanned: Node?, ghost steps: nat)
    requires root.Shows() && Valid(root.tree) && Disjoint(InOrder(root.tree))
    requires forall n: Node :: n in list <==> n in root.nodes
    ensures found == scanned && steps == Visits(root.tree, addr)
    ensures Pow2(steps) <= (|root.nodes| + 1) * (|root.nodes| + 1)
  {
    found, steps := FindVma(root, addr);
    scanned := ScanVma(list, addr);
    HeightBound(root.tree);
    Pow2Monotone(steps, Height(root.tree));
    CountNodes(root.tree);
    if found != null && scanned != null {
      OnlyOne(root.tree, found, scanned, addr);
    }
  }

  lemma {:induction false} CountNodes(t: Tree)
    requires Distinct(t)
    ensures |InOrder(t)| == |Nodes(t)|
  {
    if t.Fork? {
      CountNodes(t.left);
      CountNodes(t.right);
    }
  }

  lemma OnlyOne(t: Tree, a: Node, b: Node, addr: nat)
    requires Disjoint(InOrder(t)) && a in Nodes(t) && b in Nodes(t) && Contains(a.area, addr) && Contains(b.area, addr)
    ensures a == b
  {
    InOrderNodes(t, a);
    InOrderNodes(t, b);
    var i :| 0 <= i < |InOrder(t)| && InOrder(t)[i] == a;
    var j :| 0 <= j < |InOrder(t)| && InOrder(t)[j] == b;
  }
}
