/** `QRedBlackTree` of common/qredblacktree.h: insertion with rotations and recolouring on node objects
    with parent pointers and a sentinel leaf, and search. */
module RedBlackTree {
  import opened RedBlackShape

  const MAX_TREE_SIZE := 400000

  // ---------------------------------------------------------------- rotations

  ghost function RotatedLeft(t: Tree): Tree
    requires t.Node? && t.r.Node?
  {
    var y := t.r;
    Node(y.n, y.color, y.key, y.value, Node(t.n, t.color, t.key, t.value, t.l, y.l), y.r)
  }

  ghost function RotatedRight(t: Tree): Tree
    requires t.Node? && t.l.Node?
  {
    var y := t.l;
    Node(y.n, y.color, y.key, y.value, y.l, Node(t.n, t.color, t.key, t.value, y.r, t.r))
  }

  /** The nodes of a rotation are all apart: `x` and `y`, the subtrees below them and the way up. */
  ghost predicate AllApart(p: Path, x: RBNode, y: RBNode, a: Tree, b: Tree, c: Tree)
  {
    && x != y && Nodes(a) !! Nodes(b) && Nodes(a) !! Nodes(c) && Nodes(b) !! Nodes(c)
    && PathNodes(p) !! Nodes(a) + Nodes(b) + Nodes(c)
    && {x, y} !! Nodes(a) + Nodes(b) + Nodes(c) + PathNodes(p)
    && Distinct(a) && Distinct(b) && Distinct(c)
  }

  /** The fields that a rotation writes: those of `x` and `y`, the parent of the subtree `b` that
      changes sides, and the child link above. */
  ghost predicate Rotates(m: Memory, m': Memory, p: Path, x: RBNode, y: RBNode, b: Tree, leaf: RBNode)
  {
    && Same(m, m', m.Keys - {x, y, Ptr(b, leaf), PathPtr(p, leaf)})
    && x in m && y in m && x in m' && y in m'
    && (b.Node? ==> b.n in m && b.n in m' && m'[b.n] == m[b.n].(parent := x))
    && (!p.Top? ==> p.n in m && p.n in m' && m'[p.n] == PathFields(p, y, leaf))
  }

  /** What a rotation leaves alone. */
  lemma RotationFrame(m: Memory, m': Memory, p: Path, x: RBNode, y: RBNode, a: Tree, b: Tree, c: Tree, leaf: RBNode)
    requires AllApart(p, x, y, a, b, c) && PathDistinct(p) && Rotates(m, m', p, x, y, b, leaf)
    requires leaf !in m.Keys && m.Keys == {x, y} + Nodes(a) + Nodes(b) + Nodes(c) + PathNodes(p)
    requires Linked(m, a, x, leaf) && Linked(m, b, y, leaf) && Linked(m, c, y, leaf) && PathLinked(m, p, x, leaf)
    ensures Linked(m', a, x, leaf) && Linked(m', b, x, leaf) && Linked(m', c, y, leaf) && PathLinked(m', p, y, leaf)
  {
    RotationSame(m, m', p, x, y, a, b, c, leaf);
    FrameTree(m, m', a, x, leaf);
    FrameTree(m, m', c, y, leaf);
    if b.Node? {
      FrameTree(m, m', b.l, b.n, leaf);
      FrameTree(m, m', b.r, b.n, leaf);
    }
    ReplaceChild(m, m', p, x, y, leaf);
  }

  lemma RotationSame(m: Memory, m': Memory, p: Path, x: RBNode, y: RBNode, a: Tree, b: Tree, c: Tree, leaf: RBNode)
    requires AllApart(p, x, y, a, b, c) && PathDistinct(p) && Rotates(m, m', p, x, y, b, leaf)
    requires leaf !in m.Keys && m.Keys == {x, y} + Nodes(a) + Nodes(b) + Nodes(c) + PathNodes(p)
    ensures Same(m, m', Nodes(a)) && Same(m, m', Nodes(c)) && Same(m, m', PathNodes(p) - {PathPtr(p, leaf)})
    ensures b.Node? ==> Same(m, m', Nodes(b.l)) && Same(m, m', Nodes(b.r))
  {
    assert b.Node? ==> b.n in Nodes(b) && b.n !in Nodes(b.l) && b.n !in Nodes(b.r);
    assert !p.Top? ==> p.n in PathNodes(p);
  }

  lemma SeparateLeft(p: Path, t: Tree, leaf: RBNode)
    requires Apart(p, t, leaf) && t.Node? && t.r.Node?
    ensures Apart(p, RotatedLeft(t), leaf) && Nodes(RotatedLeft(t)) == Nodes(t)
    ensures Nodes(t) == {t.n, t.r.n} + Nodes(t.l) + Nodes(t.r.l) + Nodes(t.r.r)
    ensures AllApart(p, t.n, t.r.n, t.l, t.r.l, t.r.r)
  {
    assert Distinct(t.r);
    assert Nodes(t.r) == {t.r.n} + Nodes(t.r.l) + Nodes(t.r.r);
    assert Nodes(RotatedLeft(t).l) == {t.n} + Nodes(t.l) + Nodes(t.r.l);
  }

  lemma PointersLeft(m: Memory, p: Path, t: Tree, root: RBNode, leaf: RBNode)
    requires Holds(m, Plug(p, t), root, leaf) && t.Node? && t.r.Node?
    ensures var x, y, b, up := t.n, t.r.n, Ptr(t.r.l, leaf), PathPtr(p, leaf);
            && x in m && y in m && m[x].right == y && m[y].left == b && m[x].parent == up
            && (b != leaf ==> t.r.l.Node? && b in m)
                && (up != leaf ==> !p.Top? && up in m && m[up] == PathFields(p, x, leaf))
            && leaf !in {x, y} && x != y && b != x && b != y && up != x && up != y && (b == up ==> b == leaf)
            && (t.r.l.Node? ==> b != leaf) && (!p.Top? ==> up != leaf && Ptr(p.sib, leaf) != x)
            && root == RootPtr(p, x) && leaf !in m
  {
    ZoomIn(m, p, t, root, leaf);
    SeparateLeft(p, t, leaf);
    assert Linked(m, t.r, t.n, leaf);
    assert t.r.l.Node? ==> t.r.l.n in Nodes(t.r.l);
    if !p.Top? {
      assert p.n in PathNodes(p);
      if p.sib.Node? { assert p.sib.n in Nodes(p.sib) && p.sib.n in PathNodes(p); }
    }
  }

  lemma RotateLeft(m: Memory, m': Memory, p: Path, t: Tree, root: RBNode, leaf: RBNode)
    requires Holds(m, Plug(p, t), root, leaf) && t.Node? && t.r.Node?
    requires m'.Keys == m.Keys && Rotates(m, m', p, t.n, t.r.n, t.r.l, leaf)
    requires m'[t.n] == m[t.n].(right := Ptr(t.r.l, leaf), parent := t.r.n)
    requires m'[t.r.n] == m[t.r.n].(left := t.n, parent := PathPtr(p, leaf))
    ensures Holds(m', Plug(p, RotatedLeft(t)), RootPtr(p, t.r.n), leaf)
  {
    ZoomIn(m, p, t, root, leaf);
    var x, y := t.n, t.r.n;
    SeparateLeft(p, t, leaf);
    assert Linked(m, t.r, x, leaf);
    RotationFrame(m, m', p, x, y, t.l, t.r.l, t.r.r, leaf);
    assert Linked(m', RotatedLeft(t).l, y, leaf);
    ZoomOut(m', p, RotatedLeft(t), RootPtr(p, t.r.n), leaf);
  }

  lemma SeparateRight(p: Path, t: Tree, leaf: RBNode)
    requires Apart(p, t, leaf) && t.Node? && t.l.Node?
    ensures Apart(p, RotatedRight(t), leaf) && Nodes(RotatedRight(t)) == Nodes(t)
    ensures Nodes(t) == {t.n, t.l.n} + Nodes(t.r) + Nodes(t.l.r) + Nodes(t.l.l)
    ensures AllApart(p, t.n, t.l.n, t.r, t.l.r, t.l.l)
  {
    assert Distinct(t.l);
    assert Nodes(t.l) == {t.l.n} + Nodes(t.l.l) + Nodes(t.l.r);
    assert Nodes(RotatedRight(t).r) == {t.n} + Nodes(t.r) + Nodes(t.l.r);
  }

  lemma PointersRight(m: Memory, p: Path, t: Tree, root: RBNode, leaf: RBNode)
    requires Holds(m, Plug(p, t), root, leaf) && t.Node? && t.l.Node?
    ensures var x, y, b, up := t.n, t.l.n, Ptr(t.l.r, leaf), PathPtr(p, leaf);
            && x in m && y in m && m[x].left == y && m[y].right == b && m[x].parent == up
            && (b != leaf ==> t.l.r.Node? && b in m)
                && (up != leaf ==> !p.Top? && up in m && m[up] == PathFields(p, x, leaf))
            && leaf !in {x, y} && x != y && b != x && b != y && up != x && up != y && (b == up ==> b == leaf)
            && (t.l.r.Node? ==> b != leaf) && (!p.Top? ==> up != leaf && Ptr(p.sib, leaf) != x)
            && root == RootPtr(p, x) && leaf !in m
  {
    ZoomIn(m, p, t, root, leaf);
    SeparateRight(p, t, leaf);
    assert Linked(m, t.l, t.n, leaf);
    assert t.l.r.Node? ==> t.l.r.n in Nodes(t.l.r);
    if !p.Top? {
      assert p.n in PathNodes(p);
      if p.sib.Node? { assert p.sib.n in Nodes(p.sib) && p.sib.n in PathNodes(p); }
    }
  }

  lemma RotateRight(m: Memory, m': Memory, p: Path, t: Tree, root: RBNode, leaf: RBNode)
    requires Holds(m, Plug(p, t), root, leaf) && t.Node? && t.l.Node?
    requires m'.Keys == m.Keys && Rotates(m, m', p, t.n, t.l.n, t.l.r, leaf)
    requires m'[t.n] == m[t.n].(left := Ptr(t.l.r, leaf), parent := t.l.n)
    requires m'[t.l.n] == m[t.l.n].(right := t.n, parent := PathPtr(p, leaf))
    ensures Holds(m', Plug(p, RotatedRight(t)), RootPtr(p, t.l.n), leaf)
  {
    ZoomIn(m, p, t, root, leaf);
    var x, y := t.n, t.l.n;
    SeparateRight(p, t, leaf);
    assert Linked(m, t.l, x, leaf);
    RotationFrame(m, m', p, x, y, t.r, t.l.r, t.l.l, leaf);
    assert Linked(m', RotatedRight(t).r, y, leaf);
    ZoomOut(m', p, RotatedRight(t), RootPtr(p, t.l.n), leaf);
  }

  /** What `new(std::nothrow)` gives: nothing, or a cell whose `count` the constructor leaves as it is found. */
  datatype Allocation = Failed | Cell(found: int)

  class RBTree {
    var root: RBNode
    var leaf: RBNode
    var nodeNum: int
    ghost var mem: Memory               // what the node objects hold
    ghost var tree: Tree                // the tree they form
    ghost var contents: map<int, Entry> // the keys inserted so far, with their values and counts

    /** The red-black laws, the order of the keys, and agreement with the map of inserts. */
    ghost predicate Valid()
      reads this, mem.Keys, leaf
    {
      Here(Top, tree) && leaf.color == Black && Lawful(tree, nodeNum, contents)
    }

    /** The map of inserts and its size. */
    ghost function Held(): Store
      reads this`contents, this`nodeNum
    {
      Store(contents, nodeNum)
    }

    constructor ()
      ensures Valid() && fresh(leaf) && mem == map[] && contents == map[] && nodeNum == 0
    {
      nodeNum := 0;
      leaf := new RBNode.Leaf();
      root := leaf;
      mem, tree, contents := map[], Nil, map[];
    }

    /** `mem` is what the objects of the tree hold. */
    ghost predicate Mirrors()
      reads this`mem, this`leaf, mem.Keys
    {
      leaf !in mem && forall n <- mem.Keys :: FieldsOf(n) == mem[n]
    }

    /** The objects hold the tree `Plug(p, t)`. */
    ghost predicate Here(p: Path, t: Tree)
      reads this`root, this`mem, this`leaf, mem.Keys
    {
      Mirrors() && Holds(mem, Plug(p, t), root, leaf)
    }

    /** `LeftRotate`, pointer by pointer: `y` is the right child of `x`, `b` the left child of `y`. */
    method LeftRotate(x: RBNode, ghost y: RBNode, ghost b: RBNode, ghost up: RBNode)
      requires x.right == y && y.left == b && x.parent == up
      requires x != leaf && y != leaf && x != y && b != x && b != y && up != x && up != y && (b == up ==> b == leaf)
      modifies this`root, {x, y, b, up} - {leaf}
      ensures FieldsOf(x) == old(FieldsOf(x)).(right := b, parent := y)
      ensures FieldsOf(y) == old(FieldsOf(y)).(left := x, parent := up)
      ensures b != leaf ==> FieldsOf(b) == old(FieldsOf(b)).(parent := x)
      ensures up != leaf ==>
                FieldsOf(up) ==
                if old(up.left) == x then old(FieldsOf(up)).(left := y) else old(FieldsOf(up)).(right := y)
      ensures root == if up == leaf then y else old(root)
    {
      var tempNode := x.right;
      x.right := tempNode.left;
      if tempNode.left != leaf { tempNode.left.parent := x; }
      tempNode.parent := x.parent;
      if x.parent == leaf {
        root := tempNode;
      } else if x == x.parent.left {
        x.parent.left := tempNode;
      } else {
        x.parent.right := tempNode;
      }
      tempNode.left := x;
      x.parent := tempNode;
    }

    /** What the rotation does to the memory. */
    method LeftRotateIn(x: RBNode, ghost y: RBNode, ghost b: RBNode, ghost up: RBNode)
      requires Mirrors() && x in mem && y in mem && mem[x].right == y && mem[y].left == b && mem[x].parent == up
      requires (b == leaf || b in mem) && (up == leaf || up in mem)
      requires x != y && b != x && b != y && up != x && up != y && (b == up ==> b == leaf)
      modifies this`root, this`mem, mem.Keys
      ensures Mirrors() && mem.Keys == old(mem.Keys) && Same(old(mem), mem, mem.Keys - {x, y, b, up})
      ensures mem[x] == old(mem)[x].(right := b, parent := y) && mem[y] == old(mem)[y].(left := x, parent := up)
      ensures b != leaf ==> mem[b] == old(mem)[b].(parent := x)
      ensures up != leaf ==>
                mem[up] == if old(mem)[up].left == x then old(mem)[up].(left := y) else old(mem)[up].(right := y)
      ensures root == if up == leaf then y else old(root)
    {
      ghost var nodes := mem.Keys;
      assert forall n <- nodes :: FieldsOf(n) == mem[n];
      LeftRotate(x, y, b, up);
      mem := Snapshot(nodes);
    }

    /** What the rotation does to the tree. */
    method LeftRotateAt(x: RBNode, ghost p: Path, ghost t: Tree)
      requires Here(p, t) && t.Node? && t.r.Node? && x == t.n
      modifies this`root, this`mem, mem.Keys
      ensures Here(p, RotatedLeft(t)) && mem.Keys == old(mem.Keys)
    {
      PointersLeft(mem, p, t, root, leaf);
      LeftRotateIn(x, t.r.n, Ptr(t.r.l, leaf), PathPtr(p, leaf));
      RotateLeft(old(mem), mem, p, t, old(root), leaf);
    }

    /** `RightRotate`, pointer by pointer: `y` is the left child of `x`, `b` the right child of `y`. */
    method RightRotate(x: RBNode, ghost y: RBNode, ghost b: RBNode, ghost up: RBNode)
      requires x.left == y && y.right == b && x.parent == up
      requires x != leaf && y != leaf && x != y && b != x && b != y && up != x && up != y && (b == up ==> b == leaf)
      modifies this`root, {x, y, b, up} - {leaf}
      ensures FieldsOf(x) == old(FieldsOf(x)).(left := b, parent := y)
      ensures FieldsOf(y) == old(FieldsOf(y)).(right := x, parent := up)
      ensures b != leaf ==> FieldsOf(b) == old(FieldsOf(b)).(parent := x)
      ensures up != leaf ==>
                FieldsOf(up) ==
                if old(up.left) == x then old(FieldsOf(up)).(left := y) else old(FieldsOf(up)).(right := y)
      ensures root == if up == leaf then y else old(root)
    {
      var tempNode := x.left;
      x.left := tempNode.right;
      if tempNode.right != leaf { tempNode.right.parent := x; }
      tempNode.parent := x.parent;
      if x.parent == leaf {
        root := tempNode;
      } else if x == x.parent.left {
        x.parent.left := tempNode;
      } else {
        x.parent.right := tempNode;
      }
      tempNode.right := x;
      x.parent := tempNode;
    }

    /** What the rotation does to the memory. */
    method RightRotateIn(x: RBNode, ghost y: RBNode, ghost b: RBNode, ghost up: RBNode)
      requires Mirrors() && x in mem && y in mem && mem[x].left == y && mem[y].right == b && mem[x].parent == up
      requires (b == leaf || b in mem) && (up == leaf || up in mem)
      requires x != y && b != x && b != y && up != x && up != y && (b == up ==> b == leaf)
      modifies this`root, this`mem, mem.Keys
      ensures Mirrors() && mem.Keys == old(mem.Keys) && Same(old(mem), mem, mem.Keys - {x, y, b, up})
      ensures mem[x] == old(mem)[x].(left := b, parent := y) && mem[y] == old(mem)[y].(right := x, parent := up)
      ensures b != leaf ==> mem[b] == old(mem)[b].(parent := x)
      ensures up != leaf ==>
                mem[up] == if old(mem)[up].left == x then old(mem)[up].(left := y) else old(mem)[up].(right := y)
      ensures root == if up == leaf then y else old(root)
    {
      ghost var nodes := mem.Keys;
      assert forall n <- nodes :: FieldsOf(n) == mem[n];
      RightRotate(x, y, b, up);
      mem := Snapshot(nodes);
    }

    /** What the rotation does to the tree. */
    method RightRotateAt(x: RBNode, ghost p: Path, ghost t: Tree)
      requires Here(p, t) && t.Node? && t.l.Node? && x == t.n
      modifies this`root, this`mem, mem.Keys
      ensures Here(p, RotatedRight(t)) && mem.Keys == old(mem.Keys)
    {
      PointersRight(mem, p, t, root, leaf);
      RightRotateIn(x, t.l.n, Ptr(t.l.r, leaf), PathPtr(p, leaf));
      RotateRight(old(mem), mem, p, t, old(root), leaf);
    }

    /** One colour is written. */
    method Paint(n: RBNode, c: Color)
      requires Mirrors() && n in mem
      modifies this`mem, n`color
      ensures Mirrors() && mem == Painted(old(mem), n, c)
    {
      n.color := c;
      mem := Painted(mem, n, c);
    }

    method RecolorIn(node: RBNode, uncle: RBNode, ghost pa: RBNode, ghost gp: RBNode) returns (g: RBNode)
      requires Mirrors() && node in mem && uncle in mem && pa in mem && gp in mem
      requires mem[node].parent == pa && mem[uncle].parent == gp
      modifies this`mem, pa`color, uncle`color, gp`color
      ensures Mirrors() && mem == Painted(Painted(Painted(old(mem), pa, Black), uncle, Black), gp, Red) && g == gp
    {
      Paint(node.parent, Black);
      Paint(uncle, Black);
      g := uncle.parent;
      Paint(g, Red);
    }

    /** A red uncle: parent and uncle become black, the grandparent red, and it is the new `node`. */
    method RedUncle(node: RBNode, uncle: RBNode, ghost p: Path, ghost t: Tree) returns (g: RBNode)
      requires Here(p, t) && t.Node? && node == t.n && !p.Top? && !p.up.Top? && p.up.sib.Node? && uncle == p.up.sib.n
      modifies this`mem, mem.Keys
      ensures Here(p.up.up, Recolored(p, t)) && g == p.up.n && mem.Keys == old(mem.Keys)
    {
      Neighbours(mem, p, t, root, leaf);
      g := RecolorIn(node, uncle, p.n, p.up.n);
      RecolorThree(old(mem), p, t, root, leaf);
    }

    method PaintPairIn(node: RBNode, ghost pa: RBNode, ghost gp: RBNode) returns (g: RBNode)
      requires Mirrors() && node in mem && pa in mem && gp in mem
      requires mem[node].parent == pa && mem[pa].parent == gp
      modifies this`mem, pa`color, gp`color
      ensures Mirrors() && mem == Painted(Painted(old(mem), pa, Black), gp, Red) && g == gp
    {
      Paint(node.parent, Black);
      Paint(node.parent.parent, Red);
      g := node.parent.parent;
    }

    /** A black uncle, the parent being a left child, once `node` is on the outside. */
    method LiftRight(node: RBNode, ghost pp: Path, ghost tp: Tree)
      requires Here(pp, tp) && tp.Node? && tp.l.Node? && node == tp.l.n && pp.InLeft?
      modifies this`root, this`mem, mem.Keys
      ensures Here(pp.up, LiftedRight(pp, tp)) && mem.Keys == old(mem.Keys)
    {
      LiftPointers(mem, pp, tp, root, leaf);
      PaintTwo(mem, pp, tp, root, leaf);
      var g := PaintPairIn(node, tp.n, pp.n);
      RightRotateAt(g, pp.up, Join(Repaint(pp, Red), tp.(color := Black)));
    }

    /** A black uncle, the parent being a left child: one rotation, or two when `node` is on the
        inside. */
    method BlackUncleLeft(node: RBNode, ghost p: Path, ghost t: Tree)
      requires Here(p, t) && t.Node? && node == t.n && !p.Top? && p.up.InLeft?
      modifies this`root, this`mem, mem.Keys
      ensures Here(p.up.up, BalancedLeft(p, t)) && mem.Keys == old(mem.Keys)
    {
      Neighbours(mem, p, t, root, leaf);
      if node == node.parent.right {
        var n := node.parent;
        LeftRotateAt(n, p.up, Join(p, t));
        LiftRight(n, p.up, RotatedLeft(Join(p, t)));
      } else {
        LiftRight(node, p.up, Join(p, t));
      }
    }

    /** A black uncle, the parent being a right child, once `node` is on the outside. */
    method LiftLeft(node: RBNode, ghost pp: Path, ghost tp: Tree)
      requires Here(pp, tp) && tp.Node? && tp.r.Node? && node == tp.r.n && pp.InRight?
      modifies this`root, this`mem, mem.Keys
      ensures Here(pp.up, LiftedLeft(pp, tp)) && mem.Keys == old(mem.Keys)
    {
      LiftPointers(mem, pp, tp, root, leaf);
      PaintTwo(mem, pp, tp, root, leaf);
      var g := PaintPairIn(node, tp.n, pp.n);
      LeftRotateAt(g, pp.up, Join(Repaint(pp, Red), tp.(color := Black)));
    }

    /** A black uncle, the parent being a right child: one rotation, or two when `node` is on the
        inside. */
    method BlackUncleRight(node: RBNode, ghost p: Path, ghost t: Tree)
      requires Here(p, t) && t.Node? && node == t.n && !p.Top? && p.up.InRight?
      modifies this`root, this`mem, mem.Keys
      ensures Here(p.up.up, BalancedRight(p, t)) && mem.Keys == old(mem.Keys)
    {
      Neighbours(mem, p, t, root, leaf);
      if node == node.parent.left {
        var n := node.parent;
        RightRotateAt(n, p.up, Join(p, t));
        LiftLeft(n, p.up, RotatedRight(Join(p, t)));
      } else {
        LiftLeft(node, p.up, Join(p, t));
      }
    }

    /** One round of `InsertFixup`; `stop` after the black-uncle case. */
    method FixStep(node: RBNode, ghost p: Path, ghost t: Tree)
        returns (next: RBNode, stop: bool, ghost q: Path, ghost u: Tree)
      requires Here(p, t) && leaf.color == Black && Fixable(p, t) && node == t.n && TopRed(p)
      modifies this`root, this`mem, mem.Keys
      ensures Here(q, u) && mem.Keys == old(mem.Keys) && Length(q) < Length(p) && u.Node?
      ensures InOrder(Plug(q, u)) == InOrder(Plug(p, t))
      ensures if stop then RedBlack(u) && !IsRed(u) && Fits(q, BlackHeight(u)) else Fixable(q, u) && next == u.n
    {
      Neighbours(mem, p, t, root, leaf);
      next, q := node, p.up.up;
      var left := node.parent == node.parent.parent.left;
      var uncle := if left then node.parent.parent.right else node.parent.parent.left;
      stop := uncle.color != Red;
      if !stop {
        RecoloredFixable(p, t);
        u := Recolored(p, t);
        next := RedUncle(node, uncle, p, t);
      } else {
        BalancedIsFixed(p, t);
        if left {
          u := BalancedLeft(p, t);
          BlackUncleLeft(node, p, t);
        } else {
          u := BalancedRight(p, t);
          BlackUncleRight(node, p, t);
        }
      }
    }

    /** The test of the loop of `InsertFixup`; the sentinel above the root is black. */
    method ParentIsRed(node: RBNode, ghost p: Path, ghost t: Tree) returns (red: bool)
      requires Here(p, t) && leaf.color == Black && t.Node? && node == t.n
      ensures red <==> TopRed(p)
    {
      ParentColor(mem, p, t, root, leaf);
      red := node.parent.color == Red;
    }

    /** `InsertFixup`: the red-black laws hold again, the keys and values are where they were. */
    method InsertFixup(newNode: RBNode, ghost p0: Path, ghost t0: Tree) returns (ghost tree: Tree)
      requires Here(p0, t0) && leaf.color == Black && Fixable(p0, t0) && newNode == t0.n
      modifies this`root, this`mem, mem.Keys
      ensures Here(Top, tree) && mem.Keys == old(mem.Keys)
      ensures RedBlack(tree) && !IsRed(tree) && InOrder(tree) == InOrder(Plug(p0, t0))
    {
      var node := newNode;
      ghost var p, t := p0, t0;
      var go := ParentIsRed(node, p, t);
      while go
        invariant Here(p, t) && mem.Keys == old(mem.Keys) && Fixing(p, t, node, go)
        invariant InOrder(Plug(p, t)) == InOrder(Plug(p0, t0))
        decreases Length(p)
      {
        var stop;
        node, stop, p, t := FixStep(node, p, t);
        if stop { break; }
        go := ParentIsRed(node, p, t);
      }
      tree := BlackenRoot(p, t);
    }

    /** The end of `InsertFixup`: the root becomes black. */
    method BlackenRoot(ghost p: Path, ghost t: Tree) returns (ghost tree: Tree)
      requires Here(p, t) && t.Node? && RedBlack(t) && Fits(p, BlackHeight(t)) && !(IsRed(t) && TopRed(p))
      modifies this`mem, mem.Keys
      ensures Here(Top, tree) && mem.Keys == old(mem.Keys)
      ensures RedBlack(tree) && !IsRed(tree) && InOrder(tree) == InOrder(Plug(p, t))
    {
      ghost var whole := Plug(p, t);
      PlugIsNode(p, t);
      PlugRedBlack(p, t);
      RecolorWhole(mem, whole, Black, root, leaf);
      Paint(root, Black);
      tree := whole.(color := Black);
    }

    /** The descent of `insert`: down to the node with the key, or to the leaf where it belongs. */
    method Descend(key: int) returns (cur: RBNode, pre: RBNode, ghost p: Path, ghost t: Tree)
      requires Valid()
      ensures Here(p, t) && Plug(p, t) == tree && Around(p, key) && cur == Ptr(t, leaf)
      ensures t.Nil? ==> pre == PathPtr(p, leaf)
      ensures if t.Nil? then Attachable(p, key) else t.key == key
    {
      cur, pre, p, t := root, leaf, Top, tree;
      while cur != leaf
        invariant Here(p, t) && Plug(p, t) == tree && Descending(p, t, key)
        invariant cur == Ptr(t, leaf) && pre == PathPtr(p, leaf)
        decreases t
      {
        AtNode(mem, p, t, root, leaf);
        pre := cur;
        if cur.key == key {
          return;
        } else if key < cur.key {
          GoLeft(p, t, key);
          cur := cur.left;
          p, t := DownLeft(p, t), t.l;
        } else {
          GoRight(p, t, key);
          cur := cur.right;
          p, t := DownRight(p, t), t.r;
        }
      }
      AtNode(mem, p, t, root, leaf);
    }

    /** The new node, red and with the sentinel below. */
    method NewNode(key: int, value: Entry, pre: RBNode) returns (newNode: RBNode)
      ensures fresh(newNode) && FieldsOf(newNode) == Fields(Red, key, value, pre, leaf, leaf)
    {
      newNode := new RBNode(key, value.value, value.count);
      newNode.parent := pre;
      newNode.left, newNode.right := leaf, leaf;
      newNode.color := Red;
    }

    /** The new red node, linked below `pre`. */
    method Attach(key: int, value: Entry, pre: RBNode) returns (newNode: RBNode)
      requires Mirrors() && (pre == leaf || pre in mem)
      modifies this`root, this`mem, mem.Keys
      ensures Mirrors() && fresh(newNode) && mem.Keys == old(mem.Keys) + {newNode}
      ensures Same(old(mem), mem, old(mem.Keys) - {pre}) && mem[newNode] == Fields(Red, key, value, pre, leaf, leaf)
      ensures pre != leaf ==>
                mem[pre] == if key < old(mem)[pre].key then old(mem)[pre].(left := newNode)
                    else old(mem)[pre].(right := newNode)
      ensures root == if pre == leaf then newNode else old(root)
    {
      newNode := NewNode(key, value, pre);
      ghost var fields := Fields(Red, key, value, pre, leaf, leaf);
      if pre == leaf {
        root := newNode;
        mem := mem[newNode := fields];
      } else if key < pre.key {
        pre.left := newNode;
        mem := mem[pre := mem[pre].(left := newNode)][newNode := fields];
      } else {
        pre.right := newNode;
        mem := mem[pre := mem[pre].(right := newNode)][newNode := fields];
      }
    }

    method AttachAt(key: int, value: Entry, pre: RBNode, ghost p: Path) returns (newNode: RBNode)
      requires Here(p, Nil) && pre == PathPtr(p, leaf) && Attachable(p, key)
      modifies this`root, this`mem, mem.Keys
      ensures fresh(newNode) && Here(p, Node(newNode, Red, key, value, Nil, Nil))
              && mem.Keys == old(mem.Keys) + {newNode}
    {
      AtBottom(mem, p, root, leaf);
      newNode := Attach(key, value, pre);
      AttachLeaf(old(mem), mem, p, newNode, key, value, old(root), leaf);
    }

    /** The rest of `insert` for a key that is not there yet. */
    method InsertNew(key: int, value: Entry, pre: RBNode, ghost p: Path) returns (ghost u: Tree)
      requires Here(p, Nil) && leaf.color == Black && pre == PathPtr(p, leaf) && Attachable(p, key)
      modifies this`root, this`mem, mem.Keys
      ensures Here(Top, u) && leaf.color == Black && fresh(mem.Keys - old(mem.Keys))
      ensures RedBlack(u) && !IsRed(u) && InOrder(u) == Before(p) + [(key, value)] + After(p)
    {
      var newNode;
      ghost var t;
      newNode, t := AttachRed(key, value, pre, p);
      u := InsertFixup(newNode, p, t);
    }

    method AttachRed(key: int, value: Entry, pre: RBNode, ghost p: Path) returns (newNode: RBNode, ghost t: Tree)
      requires Here(p, Nil) && leaf.color == Black && pre == PathPtr(p, leaf) && Attachable(p, key)
      modifies this`root, this`mem, mem.Keys
      ensures Here(p, t) && leaf !in mem.Keys && leaf.color == Black && fresh(mem.Keys - old(mem.Keys))
      ensures Fixable(p, t) && newNode == t.n && InOrder(Plug(p, t)) == Before(p) + [(key, value)] + After(p)
    {
      assert leaf !in mem.Keys;
      newNode := AttachAt(key, value, pre, p);
      t := Node(newNode, Red, key, value, Nil, Nil);
      NewNodeFixable(p, t);
    }

    /** What `insert` does to the node of a known key: its value is overwritten, or else it is counted, or nothing. */
    method Write(cur: RBNode, value: int, coverFlag: bool, countFlag: bool, ghost e: Entry)
      requires Mirrors() && cur in mem && e == Again(mem[cur].value, value, coverFlag, countFlag)
      modifies this`mem, cur`value, cur`count
      ensures Mirrors() && mem == old(mem)[cur := old(mem)[cur].(value := e)]
    {
      if coverFlag {
        cur.value := value;
      } else if countFlag {
        cur.count := cur.count + 1;
      }
      mem := mem[cur := mem[cur].(value := e)];
    }

    method Overwrite(cur: RBNode, value: int, coverFlag: bool, countFlag: bool, ghost e: Entry, ghost p: Path,
        ghost t: Tree)
      requires Here(p, t) && t.Node? && cur == t.n && e == Again(t.value, value, coverFlag, countFlag)
      modifies this`mem, this`tree, mem.Keys
      ensures Here(Top, tree) && mem.Keys == old(mem.Keys) && tree == Plug(p, t.(value := e))
    {
      AtNode(mem, p, t, root, leaf);
      RewriteRoot(mem, p, t, e, root, leaf);
      Write(cur, value, coverFlag, countFlag, e);
      tree := Plug(p, t.(value := e));
    }

    /** The ghost state follows the objects. */
    method Adopt(ghost u: Tree, ghost m: map<int, Entry>, n: int)
      requires Here(Top, u) && leaf.color == Black && Lawful(u, n, m)
      modifies this`tree, this`contents, this`nodeNum
      ensures Valid() && tree == u && contents == m && nodeNum == n
    {
      tree, contents, nodeNum := u, m, n;
    }

    method InsertMissing(key: int, value: Entry, pre: RBNode, ghost p: Path)
      requires Valid() && Here(p, Nil) && Plug(p, Nil) == tree && Around(p, key)
      requires pre == PathPtr(p, leaf) && Attachable(p, key)
      modifies this, mem.Keys
      ensures Valid() && leaf == old(leaf) && fresh(mem.Keys - old(mem.Keys))
      ensures key !in old(contents) && contents == old(contents)[key := value] && nodeNum == old(nodeNum) + 1
    {
      ghost var u := InsertNew(key, value, pre, p);
      InsertedLawful(p, u, (key, value), nodeNum, contents);
      Adopt(u, contents[key := value], nodeNum + 1);
    }

    /** `insert` for a key that is there. */
    method InsertFound(cur: RBNode, value: int, coverFlag: bool, countFlag: bool, ghost e: Entry, ghost p: Path,
        ghost t: Tree)
      requires Valid() && Here(p, t) && t.Node? && Plug(p, t) == tree && cur == t.n
      requires e == Again(t.value, value, coverFlag, countFlag)
      modifies this`mem, this`tree, this`contents, this`nodeNum, mem.Keys
      ensures Valid() && mem.Keys == old(mem.Keys) && nodeNum == old(nodeNum)
      ensures t.key in old(contents) && t.value == old(contents)[t.key] && contents == old(contents)[t.key := e]
    {
      FoundPair(p, t, contents);
      RewrittenLawful(p, t, e, nodeNum, contents);
      Overwrite(cur, value, coverFlag, countFlag, e, p, t);
      Adopt(tree, contents[t.key := e], nodeNum);
    }

    /** `insert`: after any insert the tree is lawful and agrees with the map of inserts.  The first value wins unless
        `coverFlag`; a repeated key that is not covered is counted if `countFlag`.  `memory` is what the allocation of
        a new node gives. */
    method Insert(key: int, value: int, coverFlag: bool, countFlag: bool, memory: Allocation) returns (r: int)
      requires Valid()
      modifies this, mem.Keys
      ensures Valid() && leaf == old(leaf) && fresh(mem.Keys - old(mem.Keys))
      ensures r == if old(nodeNum) > 400000 then -10 else if key in old(contents) then 1
                   else if memory.Cell? then 0 else -1
      ensures r < 0 ==> contents == old(contents)
      ensures r == 0 ==> contents == old(contents)[key := Entry(value, memory.found)]
      ensures r == 1 ==> contents == old(contents)[key := Again(old(contents)[key], value, coverFlag, countFlag)]
      ensures nodeNum == old(nodeNum) + if r == 0 then 1 else 0
    {
      if nodeNum > MAX_TREE_SIZE { return -10; }
      var cur, pre;
      ghost var p, t;
      cur, pre, p, t := Descend(key);
      AtNode(mem, p, t, root, leaf);
      if cur != leaf {
        InsertFound(cur, value, coverFlag, countFlag, Again(t.value, value, coverFlag, countFlag), p, t);
        return 1;
      }
      if memory.Failed? {
        MissingPair(p, key, nodeNum, contents);
        return -1;
      }
      InsertMissing(key, Entry(value, memory.found), pre, p);
      return 0;
    }

    /** Every path of the tree has at most `2 * log2(n + 1)` nodes. */
    lemma PathsAreShort()
      requires Valid()
      ensures Pow2(Height(tree)) <= (nodeNum + 1) * (nodeNum + 1)
    {
      SizeInOrder(tree);
      LogarithmicHeight(tree);
    }

    /** `search` agrees with the map of inserts; `_value` is left alone when the key is missing. */
    method Search(key: int, current: int) returns (r: int, value: int)
      requires Valid()
      ensures r == if key in contents then 0 else -1
      ensures value == if key in contents then contents[key].value else current
    {
      var node := root;
      ghost var p, t := Top, tree;
      while node != leaf
        invariant Here(p, t) && Plug(p, t) == tree && Descending(p, t, key) && node == Ptr(t, leaf)
        decreases t
      {
        AtNode(mem, p, t, root, leaf);
        if key == node.key {
          FoundPair(p, t, contents);
          return 0, node.value;
        } else if key < node.key {
          GoLeft(p, t, key);
          node := node.left;
          p, t := DownLeft(p, t), t.l;
        } else {
          GoRight(p, t, key);
          node := node.right;
          p, t := DownRight(p, t), t.r;
        }
      }
      AtNode(mem, p, t, root, leaf);
      PlugInOrder(p, Nil);
      InsertedPair(Before(p), After(p), (key, Entry(0, 0)), contents);
      return -1, current;
    }
  }

  /** The entry of a key that is inserted again: a covered key has the new value and its old count, a counted one its
      old value and one more. */
  function Again(e: Entry, value: int, coverFlag: bool, countFlag: bool): (r: Entry)
    ensures r.value == (if coverFlag then value else e.value)
    ensures r.count - e.count == (if countFlag && !coverFlag then 1 else 0)
  {
    if coverFlag then e.(value := value) else if countFlag then e.(count := e.count + 1) else e
  }

  ghost function Painted(m: Memory, n: RBNode, c: Color): (m': Memory)
    requires n in m
    ensures m'.Keys == m.Keys
  {
    m[n := m[n].(color := c)]
  }

  lemma RecolorRoot(m: Memory, p: Path, t: Tree, c: Color, root: RBNode, leaf: RBNode)
    requires Located(m, p, t, root, leaf) && t.Node?
    ensures t.n in m && Located(Painted(m, t.n, c), p, t.(color := c), root, leaf)
  {
    assert t.n in Nodes(t);
    var m' := Painted(m, t.n, c);
    FrameTree(m, m', t.l, t.n, leaf);
    FrameTree(m, m', t.r, t.n, leaf);
    FramePath(m, m', p, t.n, leaf);
  }

  lemma RecolorWhole(m: Memory, whole: Tree, c: Color, root: RBNode, leaf: RBNode)
    requires Holds(m, whole, root, leaf) && whole.Node?
    ensures root in m && Holds(Painted(m, root, c), whole.(color := c), root, leaf)
  {
    ZoomIn(m, Top, whole, root, leaf);
    RecolorRoot(m, Top, whole, c, root, leaf);
    ZoomOut(Painted(m, root, c), Top, whole.(color := c), root, leaf);
  }

  lemma RecolorSibling(m: Memory, p: Path, t: Tree, c: Color, root: RBNode, leaf: RBNode)
    requires Located(m, p, t, root, leaf) && !p.Top? && p.sib.Node?
    ensures p.sib.n in m && Located(Painted(m, p.sib.n, c), WithSibling(p, p.sib.(color := c)), t, root, leaf)
  {
    var tg, up := Join(p, t), p.up;
    StepUp(m, p, t, root, leaf);
    StepDown(m, up, tg, root, leaf);
    var side := if p.InLeft? then DownRight(up, tg) else DownLeft(up, tg);
    var u := p.sib.(color := c);
    RecolorRoot(m, side, p.sib, c, root, leaf);
    var m' := Painted(m, p.sib.n, c);
    StepUp(m', side, u, root, leaf);
    StepDown(m', up, Join(side, u), root, leaf);
  }

  /** The pointers around a node, its parent, its grandparent and its uncle. */
  lemma Neighbours(m: Memory, p: Path, t: Tree, root: RBNode, leaf: RBNode)
    requires Holds(m, Plug(p, t), root, leaf) && t.Node? && !p.Top? && !p.up.Top?
    ensures t.n in m && p.n in m && p.up.n in m && leaf !in m
    ensures m[t.n].parent == p.n && m[p.n] == PathFields(p, t.n, leaf) && m[p.up.n] == PathFields(p.up, p.n, leaf)
    ensures t.n != p.n && p.n != p.up.n && Ptr(p.sib, leaf) != t.n && Ptr(p.up.sib, leaf) != p.n
    ensures p.up.sib.Node? ==>
            p.up.sib.n in m && m[p.up.sib.n].parent == p.up.n && m[p.up.sib.n].color == p.up.sib.color
    ensures p.up.sib.Node? ==> p.up.sib.n != p.n && p.up.sib.n != p.up.n
  {
    ZoomIn(m, p, t, root, leaf);
    assert t.n in Nodes(t) && p.n in PathNodes(p) && p.up.n in PathNodes(p.up);
    assert p.sib.Node? ==> p.sib.n in Nodes(p.sib) && p.sib.n in PathNodes(p);
    assert p.up.sib.Node? ==> p.up.sib.n in Nodes(p.up.sib) && p.up.sib.n in PathNodes(p.up);
    assert PathLinked(m, p.up, p.n, leaf) && PathDistinct(p.up);
  }

  /** What the red-uncle case makes of the grandparent's subtree. */
  ghost function Recolored(p: Path, t: Tree): Tree
    requires !p.Top? && !p.up.Top? && p.up.sib.Node?
  {
    Join(Repaint(WithSibling(p.up, p.up.sib.(color := Black)), Red), Join(Repaint(p, Black), t))
  }

  lemma RecolorThree(m: Memory, p: Path, t: Tree, root: RBNode, leaf: RBNode)
    requires Holds(m, Plug(p, t), root, leaf) && t.Node? && !p.Top? && !p.up.Top? && p.up.sib.Node?
    ensures p.n in m && p.up.sib.n in m && p.up.n in m
    ensures Holds(Painted(Painted(Painted(m, p.n, Black), p.up.sib.n, Black), p.up.n, Red),
            Plug(p.up.up, Recolored(p, t)), root, leaf)
  {
    ZoomIn(m, p, t, root, leaf);
    Neighbours(m, p, t, root, leaf);
    var tp := Join(p, t);
    StepUp(m, p, t, root, leaf);
    RecolorRoot(m, p.up, tp, Black, root, leaf);
    var m1 := Painted(m, p.n, Black);
    var tp' := tp.(color := Black);
    RecolorSibling(m1, p.up, tp', Black, root, leaf);
    var m2 := Painted(m1, p.up.sib.n, Black);
    var pp := WithSibling(p.up, p.up.sib.(color := Black));
    StepUp(m2, pp, tp', root, leaf);
    RecolorRoot(m2, p.up.up, Join(pp, tp'), Red, root, leaf);
    ZoomOut(Painted(Painted(Painted(m, p.n, Black), p.up.sib.n, Black), p.up.n, Red), p.up.up, Recolored(p, t),
        root, leaf);
  }

  ghost function LiftedRight(pp: Path, tp: Tree): Tree
    requires pp.InLeft? && tp.Node?
  {
    RotatedRight(Join(Repaint(pp, Red), tp.(color := Black)))
  }

  ghost function BalancedLeft(p: Path, t: Tree): Tree
    requires !p.Top? && p.up.InLeft? && t.Node?
  {
    LiftedRight(p.up, if p.InRight? then RotatedLeft(Join(p, t)) else Join(p, t))
  }

  ghost function LiftedLeft(pp: Path, tp: Tree): Tree
    requires pp.InRight? && tp.Node?
  {
    RotatedLeft(Join(Repaint(pp, Red), tp.(color := Black)))
  }

  ghost function BalancedRight(p: Path, t: Tree): Tree
    requires !p.Top? && p.up.InRight? && t.Node?
  {
    LiftedLeft(p.up, if p.InLeft? then RotatedRight(Join(p, t)) else Join(p, t))
  }

  lemma LiftPointers(m: Memory, pp: Path, tp: Tree, root: RBNode, leaf: RBNode)
    requires Holds(m, Plug(pp, tp), root, leaf) && tp.Node? && !pp.Top?
    ensures tp.n in m && pp.n in m && m[tp.n].parent == pp.n
    ensures tp.l.Node? ==> tp.l.n in m && m[tp.l.n].parent == tp.n
    ensures tp.r.Node? ==> tp.r.n in m && m[tp.r.n].parent == tp.n
  {
    ZoomIn(m, pp, tp, root, leaf);
    if tp.l.Node? { Neighbours(m, DownLeft(pp, tp), tp.l, root, leaf); }
    if tp.r.Node? { Neighbours(m, DownRight(pp, tp), tp.r, root, leaf); }
  }

  lemma PaintTwo(m: Memory, pp: Path, tp: Tree, root: RBNode, leaf: RBNode)
    requires Holds(m, Plug(pp, tp), root, leaf) && tp.Node? && !pp.Top?
    ensures tp.n in m && pp.n in m
    ensures Holds(Painted(Painted(m, tp.n, Black), pp.n, Red),
            Plug(pp.up, Join(Repaint(pp, Red), tp.(color := Black))), root, leaf)
  {
    ZoomIn(m, pp, tp, root, leaf);
    RecolorRoot(m, pp, tp, Black, root, leaf);
    var m1, tp' := Painted(m, tp.n, Black), tp.(color := Black);
    StepUp(m1, pp, tp', root, leaf);
    RecolorRoot(m1, pp.up, Join(pp, tp'), Red, root, leaf);
    ZoomOut(Painted(Painted(m, tp.n, Black), pp.n, Red), pp.up, Join(Repaint(pp, Red), tp.(color := Black)),
        root, leaf);
  }

  // ---------------------------------------------------------------- what the cases do to the shape

  lemma Regroup(a: seq<(int, Entry)>, e: seq<(int, Entry)>, b: seq<(int, Entry)>, f: seq<(int, Entry)>,
      c: seq<(int, Entry)>)
    ensures a + e + (b + f + c) == (a + e + b) + f + c
  {
  }

  lemma RotationInOrder(t: Tree)
    ensures t.Node? && t.r.Node? ==> InOrder(RotatedLeft(t)) == InOrder(t)
    ensures t.Node? && t.l.Node? ==> InOrder(RotatedRight(t)) == InOrder(t)
  {
    if t.Node? {
      var e := [(t.key, t.value)];
      if t.r.Node? { Regroup(InOrder(t.l), e, InOrder(t.r.l), [(t.r.key, t.r.value)], InOrder(t.r.r)); }
      if t.l.Node? { Regroup(InOrder(t.l.l), [(t.l.key, t.l.value)], InOrder(t.l.r), e, InOrder(t.r)); }
    }
  }

  lemma PlugSameInOrder(p: Path, t: Tree, t': Tree)
    requires InOrder(t) == InOrder(t')
    ensures InOrder(Plug(p, t)) == InOrder(Plug(p, t'))
  {
    PlugInOrder(p, t);
    PlugInOrder(p, t');
  }

  /** The loop invariant of `InsertFixup`: only the edge above `t` may join two red nodes. */
  ghost predicate Fixable(p: Path, t: Tree)
  {
    IsRed(t) && RedBlack(t) && Fits(p, BlackHeight(t))
  }

  ghost predicate Fixing(p: Path, t: Tree, node: RBNode, go: bool)
  {
    Fixable(p, t) && node == t.n && (go <==> TopRed(p))
  }

  lemma ParentColor(m: Memory, p: Path, t: Tree, root: RBNode, leaf: RBNode)
    requires Holds(m, Plug(p, t), root, leaf) && t.Node?
    ensures t.n in m && m[t.n].parent == PathPtr(p, leaf)
    ensures !p.Top? ==> p.n in m && m[p.n].color == p.color && p.n != leaf
  {
    ZoomIn(m, p, t, root, leaf);
    assert !p.Top? ==> p.n in PathNodes(p);
  }

  lemma {:induction false} PlugIsNode(p: Path, t: Tree)
    requires t.Node?
    ensures Plug(p, t).Node?
    decreases p
  {
    if !p.Top? { PlugIsNode(p.up, Join(p, t)); }
  }

  lemma RecoloredFixable(p: Path, t: Tree)
    requires Fixable(p, t) && TopRed(p) && IsRed(p.up.sib)
    ensures Fixable(p.up.up, Recolored(p, t)) && InOrder(Plug(p.up.up, Recolored(p, t))) == InOrder(Plug(p, t))
  {
    PlugSameInOrder(p.up.up, Recolored(p, t), Join(p.up, Join(p, t)));
    assert Fits(p.up, BlackHeight(t));
    assert Fits(p.up.up, BlackHeight(t) + 1);
    assert RedBlack(Join(Repaint(p, Black), t)) && RedBlack(p.up.sib.(color := Black));
  }

  /** After the black-uncle case nothing is left to fix. */
  lemma BalancedIsFixed(p: Path, t: Tree)
    requires Fixable(p, t) && TopRed(p) && !IsRed(p.up.sib)
    ensures p.up.InLeft? || p.up.InRight?
    ensures var b := if p.up.InLeft? then BalancedLeft(p, t) else BalancedRight(p, t);
            && RedBlack(b) && !IsRed(b) && Fits(p.up.up, BlackHeight(b))
            && InOrder(Plug(p.up.up, b)) == InOrder(Plug(p, t))
  {
    var tp := Join(p, t);
    RotationInOrder(tp);
    var tp' := if p.up.InLeft? then (if p.InRight? then RotatedLeft(tp) else tp)
               else (if p.InLeft? then RotatedRight(tp) else tp);
    RotationInOrder(Join(Repaint(p.up, Red), tp'.(color := Black)));
    var b := if p.up.InLeft? then BalancedLeft(p, t) else BalancedRight(p, t);
    PlugSameInOrder(p.up.up, b, Join(p.up, tp));
    assert Fits(p.up, BlackHeight(t));
    assert Fits(p.up.up, BlackHeight(t) + 1);
    assert RedBlack(t.l) && RedBlack(t.r);
    assert RedBlack(b.l) && RedBlack(b.r);
  }

  // ---------------------------------------------------------------- any run of inserts

  datatype Op = Op(key: int, value: int, cover: bool, count: bool, memory: Allocation)

  datatype Store = Store(contents: map<int, Entry>, size: int)

  /** What one insert means: the first value wins unless it is covered, repetitions are counted on request, and a full
      tree refuses. */
  function InsertInto(s: Store, op: Op): Store
  {
    if s.size > MAX_TREE_SIZE then s
    else if op.key in s.contents then
      s.(contents := s.contents[op.key := Again(s.contents[op.key], op.value, op.cover, op.count)])
    else if op.memory.Failed? then s
    else Store(s.contents[op.key := Entry(op.value, op.memory.found)], s.size + 1)
  }

  function InsertAll(ops: seq<Op>): Store
  {
    if ops == [] then Store(map[], 0) else InsertInto(InsertAll(ops[..|ops| - 1]), ops[|ops| - 1])
  }

  lemma InsertAllNext(ops: seq<Op>, i: nat)
    requires i < |ops|
    ensures InsertAll(ops[..i + 1]) == InsertInto(InsertAll(ops[..i]), ops[i])
  {
    assert ops[..i + 1][..i] == ops[..i];
  }

  method InsertOp(t: RBTree, op: Op)
    requires t.Valid()
    modifies t, t.mem.Keys
    ensures t.Valid() && t.leaf == old(t.leaf) && fresh(t.mem.Keys - old(t.mem.Keys))
    ensures t.Held() == InsertInto(old(t.Held()), op)
  {
    var _ := t.Insert(op.key, op.value, op.cover, op.count, op.memory);
  }

  method InsertEach(t: RBTree, ops: seq<Op>)
    requires t.Valid() && t.Held() == InsertAll([])
    modifies t, t.mem.Keys
    ensures t.Valid() && t.Held() == InsertAll(ops)
  {
    for i := 0 to |ops|
      invariant t.Valid() && t.leaf == old(t.leaf) && fresh(t.mem.Keys - old(t.mem.Keys))
      invariant t.Held() == InsertAll(ops[..i])
    {
      InsertAllNext(ops, i);
      InsertOp(t, ops[i]);
    }
    assert ops[..|ops|] == ops;
  }

  /** After any run of inserts from empty the tree is valid and holds the map of the run. */
  method Build(ops: seq<Op>) returns (t: RBTree)
    ensures t.Valid() && t.Held() == InsertAll(ops)
    ensures Pow2(Height(t.tree)) <= (t.nodeNum + 1) * (t.nodeNum + 1)
  {
    t := new RBTree();
    InsertEach(t, ops);
    t.PathsAreShort();
  }

  lemma {:induction false} SizeInOrder(t: Tree)
    ensures |InOrder(t)| == Size(t)
  {
    if t.Node? { SizeInOrder(t.l); SizeInOrder(t.r); }
  }

  // ---------------------------------------------------------------- searching and inserting

  ghost predicate Agrees(s: seq<(int, Entry)>, m: map<int, Entry>)
  {
    && (forall e :: e in s ==> e.0 in m && m[e.0] == e.1)
    && (forall k :: k in m ==> (k, m[k]) in s)
  }

  /** The red-black laws, the order of the keys, the node count, and agreement with the map. */
  ghost predicate Lawful(t: Tree, n: int, m: map<int, Entry>)
  {
    RedBlack(t) && !IsRed(t) && Sorted(InOrder(t)) && n == |InOrder(t)| && Agrees(InOrder(t), m)
  }

  lemma InsertedLawful(p: Path, u: Tree, x: (int, Entry), n: int, m: map<int, Entry>)
    requires Lawful(Plug(p, Nil), n, m) && Around(p, x.0)
    requires RedBlack(u) && !IsRed(u) && InOrder(u) == Before(p) + [x] + After(p)
    ensures x.0 !in m && Lawful(u, n + 1, m[x.0 := x.1])
  {
    PlugInOrder(p, Nil);
    InsertedPair(Before(p), After(p), x, m);
  }

  /** Where the path ends at a leaf the key is missing. */
  lemma MissingPair(p: Path, key: int, n: int, m: map<int, Entry>)
    requires Lawful(Plug(p, Nil), n, m) && Around(p, key)
    ensures key !in m
  {
    PlugInOrder(p, Nil);
    InsertedPair(Before(p), After(p), (key, Entry(0, 0)), m);
  }

  lemma RewrittenLawful(p: Path, t: Tree, value: Entry, n: int, m: map<int, Entry>)
    requires t.Node? && Lawful(Plug(p, t), n, m)
    ensures Lawful(Plug(p, t.(value := value)), n, m[t.key := value])
  {
    RewrittenShape(p, t, value);
    RewrittenPair(p, t, value, m);
  }

  /** The key belongs where the path leads. */
  ghost predicate Around(p: Path, key: int)
  {
    && (forall e :: e in Before(p) ==> e.0 < key)
    && (forall e :: e in After(p) ==> key < e.0)
  }

  ghost predicate Descending(p: Path, t: Tree, key: int)
  {
    && Around(p, key) && Sorted(InOrder(t))
    && RedBlack(t) && Fits(p, BlackHeight(t)) && (IsRed(t) ==> !p.Top? && !TopRed(p))
    && (p.InLeft? ==> key < p.key) && (p.InRight? ==> p.key < key)
  }

  /** A leaf where the key can be attached. */
  ghost predicate Attachable(p: Path, key: int)
  {
    Fits(p, 0) && (p.InLeft? ==> key < p.key) && (p.InRight? ==> p.key < key)
  }

  lemma AtNode(m: Memory, p: Path, t: Tree, root: RBNode, leaf: RBNode)
    requires Holds(m, Plug(p, t), root, leaf)
    ensures leaf !in m
    ensures t.Node? ==> t.n in m && t.n != leaf &&
                        m[t.n] == Fields(t.color, t.key, t.value, PathPtr(p, leaf), Ptr(t.l, leaf), Ptr(t.r, leaf))
  {
    ZoomIn(m, p, t, root, leaf);
    assert t.Node? ==> t.n in Nodes(t);
  }

  lemma SortedParts(a: seq<(int, Entry)>, x: (int, Entry), b: seq<(int, Entry)>)
    requires Sorted(a + [x] + b)
    ensures Sorted(a) && Sorted(b)
    ensures forall e :: e in a ==> e.0 < x.0
    ensures forall e :: e in b ==> x.0 < e.0
  {
    var s := a + [x] + b;
    assert s[|a|] == x;
    assert forall i :: 0 <= i < |a| ==> s[i] == a[i];
    assert forall i :: 0 <= i < |b| ==> s[|a| + 1 + i] == b[i];
  }

  lemma GoLeft(p: Path, t: Tree, key: int)
    requires Descending(p, t, key) && t.Node? && key < t.key
    ensures Descending(DownLeft(p, t), t.l, key)
  {
    SortedParts(InOrder(t.l), (t.key, t.value), InOrder(t.r));
  }

  lemma GoRight(p: Path, t: Tree, key: int)
    requires Descending(p, t, key) && t.Node? && t.key < key
    ensures Descending(DownRight(p, t), t.r, key)
  {
    SortedParts(InOrder(t.l), (t.key, t.value), InOrder(t.r));
  }

  lemma AtBottom(m: Memory, p: Path, root: RBNode, leaf: RBNode)
    requires Holds(m, Plug(p, Nil), root, leaf)
    ensures leaf !in m
    ensures !p.Top? ==> p.n in m && p.n != leaf && m[p.n] == PathFields(p, leaf, leaf)
    ensures root == RootPtr(p, leaf)
  {
    ZoomIn(m, p, Nil, root, leaf);
    assert !p.Top? ==> p.n in PathNodes(p);
  }

  lemma AttachLeaf(m: Memory, m': Memory, p: Path, n: RBNode, key: int, value: Entry, root: RBNode, leaf: RBNode)
    requires Holds(m, Plug(p, Nil), root, leaf) && n !in m && n != leaf
    requires m'.Keys == m.Keys + {n} && m'[n] == Fields(Red, key, value, PathPtr(p, leaf), leaf, leaf)
    requires Same(m, m', m.Keys - {PathPtr(p, leaf)})
    requires !p.Top? ==> p.n in m' && m'[p.n] == PathFields(p, n, leaf)
    ensures Holds(m', Plug(p, Node(n, Red, key, value, Nil, Nil)), RootPtr(p, n), leaf)
  {
    ZoomIn(m, p, Nil, root, leaf);
    ReplaceChild(m, m', p, leaf, n, leaf);
    ZoomOut(m', p, Node(n, Red, key, value, Nil, Nil), RootPtr(p, n), leaf);
  }

  lemma RewriteRoot(m: Memory, p: Path, t: Tree, value: Entry, root: RBNode, leaf: RBNode)
    requires Holds(m, Plug(p, t), root, leaf) && t.Node?
    ensures t.n in m && Holds(m[t.n := m[t.n].(value := value)], Plug(p, t.(value := value)), root, leaf)
  {
    ZoomIn(m, p, t, root, leaf);
    assert t.n in Nodes(t);
    var m' := m[t.n := m[t.n].(value := value)];
    FrameTree(m, m', t.l, t.n, leaf);
    FrameTree(m, m', t.r, t.n, leaf);
    FramePath(m, m', p, t.n, leaf);
    ZoomOut(m[t.n := m[t.n].(value := value)], p, t.(value := value), root, leaf);
  }

  lemma NewNodeFixable(p: Path, t: Tree)
    requires t.Node? && t.l.Nil? && t.r.Nil? && t.color == Red && Fits(p, 0)
    ensures Fixable(p, t) && InOrder(Plug(p, t)) == Before(p) + [(t.key, t.value)] + After(p)
  {
    PlugInOrder(p, t);
    assert InOrder(t) == [(t.key, t.value)];
  }

  /** A value does not matter to the red-black laws. */
  lemma {:induction false} RewrittenShape(p: Path, t: Tree, value: Entry)
    requires t.Node?
    ensures RedBlack(Plug(p, t.(value := value))) == RedBlack(Plug(p, t))
            && IsRed(Plug(p, t.(value := value))) == IsRed(Plug(p, t))
  {
    SameShapeRefl(t.l);
    SameShapeRefl(t.r);
    PlugSameShape(p, t, t.(value := value));
    SameShapeLawful(Plug(p, t), Plug(p, t.(value := value)));
  }

  ghost predicate SameShape(t: Tree, u: Tree)
  {
    if t.Nil? then u.Nil?
    else u.Node? && t.color == u.color && SameShape(t.l, u.l) && SameShape(t.r, u.r)
  }

  lemma {:induction false} SameShapeRefl(t: Tree)
    ensures SameShape(t, t)
  {
    if t.Node? { SameShapeRefl(t.l); SameShapeRefl(t.r); }
  }

  lemma {:induction false} SameShapeLawful(t: Tree, u: Tree)
    requires SameShape(t, u)
    ensures RedBlack(t) == RedBlack(u) && BlackHeight(t) == BlackHeight(u) && IsRed(t) == IsRed(u)
  {
    if t.Node? { SameShapeLawful(t.l, u.l); SameShapeLawful(t.r, u.r); }
  }

  lemma {:induction false} PlugSameShape(p: Path, t: Tree, u: Tree)
    requires SameShape(t, u)
    ensures SameShape(Plug(p, t), Plug(p, u))
    decreases p
  {
    if !p.Top? {
      SameShapeRefl(p.sib);
      PlugSameShape(p.up, Join(p, t), Join(p, u));
    }
  }

  /** A pair of a sorted sequence is in the map. */
  lemma FoundPair(p: Path, t: Tree, m: map<int, Entry>)
    requires t.Node? && Agrees(InOrder(Plug(p, t)), m)
    ensures t.key in m && m[t.key] == t.value
  {
    PlugInOrder(p, t);
    assert (t.key, t.value) in InOrder(t);
    assert (t.key, t.value) in InOrder(Plug(p, t));
  }

  /** A new pair between smaller and larger keys. */
  lemma InsertedPair(a: seq<(int, Entry)>, b: seq<(int, Entry)>, x: (int, Entry), m: map<int, Entry>)
    requires Sorted(a + [] + b) && Agrees(a + [] + b, m)
    requires (forall e :: e in a ==> e.0 < x.0) && (forall e :: e in b ==> x.0 < e.0)
    ensures x.0 !in m && Sorted(a + [x] + b) && Agrees(a + [x] + b, m[x.0 := x.1])
  {
    var s, s' := a + [] + b, a + [x] + b;
    assert forall e :: e in s <==> e in a || e in b;
    if x.0 in m { assert (x.0, m[x.0]) in s; }
    SortedInserted(a, b, x);
    AgreesInserted(s, s', x, m);
  }

  lemma SortedInserted(a: seq<(int, Entry)>, b: seq<(int, Entry)>, x: (int, Entry))
    requires Sorted(a + [] + b)
    requires (forall e :: e in a ==> e.0 < x.0) && (forall e :: e in b ==> x.0 < e.0)
    ensures Sorted(a + [x] + b)
  {
    var s, s' := a + [] + b, a + [x] + b;
    forall i, j | 0 <= i < j < |s'| ensures s'[i].0 < s'[j].0 {
      if i < |a| { assert s'[i] == a[i] == s[i] && a[i] in a; }
      if j < |a| { assert s'[j] == s[j]; }
      if i > |a| { assert s'[i] == b[i - |a| - 1] == s[i - 1]; }
      if j > |a| { assert s'[j] == b[j - |a| - 1] == s[j - 1] && b[j - |a| - 1] in b; }
    }
  }

  lemma AgreesInserted(s: seq<(int, Entry)>, s': seq<(int, Entry)>, x: (int, Entry), m: map<int, Entry>)
    requires Agrees(s, m) && x.0 !in m && forall e :: e in s' <==> e in s || e == x
    ensures Agrees(s', m[x.0 := x.1])
  {
  }

  /** A pair with a new value under the same key. */
  lemma RewrittenPair(p: Path, t: Tree, value: Entry, m: map<int, Entry>)
    requires t.Node? && Sorted(InOrder(Plug(p, t))) && Agrees(InOrder(Plug(p, t)), m)
    ensures Sorted(InOrder(Plug(p, t.(value := value))))
            && Agrees(InOrder(Plug(p, t.(value := value))), m[t.key := value])
    ensures |InOrder(Plug(p, t.(value := value)))| == |InOrder(Plug(p, t))|
  {
    var s, s', i := InOrder(Plug(p, t)), InOrder(Plug(p, t.(value := value))), |Before(p)| + |InOrder(t.l)|;
    PlugReplaced(p, t, value);
    RewrittenAt(s, s', i, t.key, value, m);
  }

  ghost predicate Replaces(s: seq<(int, Entry)>, s': seq<(int, Entry)>, i: nat, k: int, value: Entry)
  {
    i < |s| && s[i].0 == k && s' == s[i := (k, value)]
  }

  lemma PlugReplaced(p: Path, t: Tree, value: Entry)
    requires t.Node?
    ensures Replaces(InOrder(Plug(p, t)), InOrder(Plug(p, t.(value := value))), |Before(p)| + |InOrder(t.l)|,
            t.key, value)
  {
    PlugInOrder(p, t);
    PlugInOrder(p, t.(value := value));
    Replaced(Before(p), InOrder(t.l), (t.key, t.value), (t.key, value), InOrder(t.r), After(p));
  }

  lemma Replaced(a: seq<(int, Entry)>, b: seq<(int, Entry)>, x: (int, Entry), y: (int, Entry), c: seq<(int, Entry)>,
      d: seq<(int, Entry)>)
    ensures var s := a + (b + [x] + c) + d;
            s[|a| + |b|] == x && a + (b + [y] + c) + d == s[|a| + |b| := y]
  {
  }

  lemma RewrittenAt(s: seq<(int, Entry)>, s': seq<(int, Entry)>, i: nat, k: int, value: Entry, m: map<int, Entry>)
    requires Replaces(s, s', i, k, value) && Sorted(s) && Agrees(s, m)
    ensures Sorted(s') && Agrees(s', m[k := value])
  {
    forall e | e in s' ensures e.0 in m[k := value] && m[k := value][e.0] == e.1 {
      var j :| 0 <= j < |s'| && s'[j] == e;
      if j != i { assert s[j] in s && s[j].0 != k; }
    }
    var m' := m[k := value];
    forall q | q in m' ensures (q, m'[q]) in s' {
      if q == k {
        assert s'[i] == (k, value);
      } else {
        assert (q, m[q]) in s;
        var j :| 0 <= j < |s| && s[j] == (q, m[q]);
        assert s'[j] == s[j];
      }
    }
  }
}
