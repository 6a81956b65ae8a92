/** The shapes behind `QRedBlackTree` (common/qredblacktree.h): trees and one-hole contexts over node
    objects, what the pointers of the objects say about them, and the red-black laws. */
module RedBlackShape {
  import opened Arithmetic

  datatype Color = Red | Black

  /** What a node holds under its key. */
  datatype Entry = Entry(value: int, count: int)

  /** A node object. */
  class RBNode {
    var color: Color
    var key: int
    var value: int
    var count: int
    var parent: RBNode?
    var left: RBNode?
    var right: RBNode?

    /** The sentinel: black, its own parent and children. */
    constructor Leaf()
      ensures color == Black && parent == left == right == this
    {
      color := Black;
      new;
      parent, left, right := this, this, this;
    }

    /** The two-argument constructor does not set `count`, which stays what the memory held. */
    constructor (k: int, v: int, found: int)
      ensures key == k && value == v && count == found
    {
      key, value, count := k, v, found;
    }
  }

  datatype Tree = Nil | Node(n: RBNode, color: Color, key: int, value: Entry, l: Tree, r: Tree)

  /** The way up from a subtree: `InLeft` when it is the left child of `n`, whose other child is `sib`. */
  datatype Path =
    | Top
    | InLeft(n: RBNode, color: Color, key: int, value: Entry, sib: Tree, up: Path)
    | InRight(n: RBNode, color: Color, key: int, value: Entry, sib: Tree, up: Path)

  ghost function Length(p: Path): nat { if p.Top? then 0 else 1 + Length(p.up) }

  /** One step up. */
  ghost function Join(p: Path, t: Tree): Tree
    requires !p.Top?
  {
    if p.InLeft? then Node(p.n, p.color, p.key, p.value, t, p.sib) else Node(p.n, p.color, p.key, p.value, p.sib, t)
  }

  /** One step down to the left or to the right child. */
  ghost function DownLeft(p: Path, t: Tree): Path
    requires t.Node?
  {
    InLeft(t.n, t.color, t.key, t.value, t.r, p)
  }

  ghost function DownRight(p: Path, t: Tree): Path
    requires t.Node?
  {
    InRight(t.n, t.color, t.key, t.value, t.l, p)
  }

  ghost function Repaint(p: Path, c: Color): Path
  {
    match p
    case Top => Top
    case InLeft(n, _, key, value, sib, up) => InLeft(n, c, key, value, sib, up)
    case InRight(n, _, key, value, sib, up) => InRight(n, c, key, value, sib, up)
  }

  ghost function WithSibling(p: Path, sib: Tree): Path
  {
    match p
    case Top => Top
    case InLeft(n, c, key, value, _, up) => InLeft(n, c, key, value, sib, up)
    case InRight(n, c, key, value, _, up) => InRight(n, c, key, value, sib, up)
  }

  ghost function Plug(p: Path, t: Tree): Tree
    decreases p
  {
    if p.Top? then t else Plug(p.up, Join(p, t))
  }

  // ---------------------------------------------------------------- pointers

  ghost function Nodes(t: Tree): set<RBNode>
  {
    if t.Nil? then {} else {t.n} + Nodes(t.l) + Nodes(t.r)
  }

  ghost function PathNodes(p: Path): set<RBNode>
  {
    if p.Top? then {} else {p.n} + Nodes(p.sib) + PathNodes(p.up)
  }

  ghost predicate Distinct(t: Tree)
  {
    t.Node? ==>
      && t.n !in Nodes(t.l) && t.n !in Nodes(t.r) && Nodes(t.l) !! Nodes(t.r)
      && Distinct(t.l) && Distinct(t.r)
  }

  ghost predicate PathDistinct(p: Path)
  {
    !p.Top? ==>
      && p.n !in Nodes(p.sib) && p.n !in PathNodes(p.up) && Nodes(p.sib) !! PathNodes(p.up)
      && Distinct(p.sib) && PathDistinct(p.up)
  }

  ghost function Ptr(t: Tree, leaf: RBNode): RBNode { if t.Nil? then leaf else t.n }

  ghost function PathPtr(p: Path, leaf: RBNode): RBNode { if p.Top? then leaf else p.n }

  /** The node at the top, when `hole` is the node at the bottom. */
  ghost function RootPtr(p: Path, hole: RBNode): RBNode
  {
    if p.Top? then hole else RootPtr(p.up, p.n)
  }

  /** The fields of a node object at one moment. */
  datatype Fields = Fields(color: Color, key: int, value: Entry, parent: RBNode?, left: RBNode?, right: RBNode?)

  type Memory = map<RBNode, Fields>

  ghost function FieldsOf(n: RBNode): Fields
    reads n
  {
    Fields(n.color, n.key, Entry(n.value, n.count), n.parent, n.left, n.right)
  }

  ghost function Snapshot(nodes: set<RBNode>): (m: Memory)
    reads nodes
    ensures m.Keys == nodes && forall n <- nodes :: m[n] == FieldsOf(n)
  {
    map n | n in nodes :: FieldsOf(n)
  }

  /** In memory `m`, the nodes of a tree hold its colours, keys, values and links, with `up` above. */
  ghost predicate Linked(m: Memory, t: Tree, up: RBNode, leaf: RBNode)
  {
    t.Node? ==>
      && t.n in m && m[t.n] == Fields(t.color, t.key, t.value, up, Ptr(t.l, leaf), Ptr(t.r, leaf))
      && Linked(m, t.l, t.n, leaf) && Linked(m, t.r, t.n, leaf)
  }

  /** What the lowest node of a path holds when `hole` is the node below it. */
  ghost function PathFields(p: Path, hole: RBNode, leaf: RBNode): Fields
    requires !p.Top?
  {
    if p.InLeft? then Fields(p.color, p.key, p.value, PathPtr(p.up, leaf), hole, Ptr(p.sib, leaf))
    else Fields(p.color, p.key, p.value, PathPtr(p.up, leaf), Ptr(p.sib, leaf), hole)
  }

  ghost predicate PathLinked(m: Memory, p: Path, hole: RBNode, leaf: RBNode)
  {
    !p.Top? ==>
      && p.n in m && m[p.n] == PathFields(p, hole, leaf)
      && Linked(m, p.sib, p.n, leaf) && PathLinked(m, p.up, p.n, leaf)
  }

  ghost predicate Same(m: Memory, m': Memory, nodes: set<RBNode>)
  {
    forall n <- nodes :: n in m && n in m' && m'[n] == m[n]
  }

  lemma {:induction false} FrameTree(m: Memory, m': Memory, t: Tree, up: RBNode, leaf: RBNode)
    requires Linked(m, t, up, leaf)
    requires Same(m, m', Nodes(t))
    ensures Linked(m', t, up, leaf)
  {
    if t.Node? {
      FrameTree(m, m', t.l, t.n, leaf);
      FrameTree(m, m', t.r, t.n, leaf);
    }
  }

  lemma {:induction false} FramePath(m: Memory, m': Memory, p: Path, hole: RBNode, leaf: RBNode)
    requires PathLinked(m, p, hole, leaf)
    requires Same(m, m', PathNodes(p))
    ensures PathLinked(m', p, hole, leaf)
    decreases p
  {
    if !p.Top? {
      FrameTree(m, m', p.sib, p.n, leaf);
      FramePath(m, m', p.up, p.n, leaf);
    }
  }

  /** Only the child link at the bottom of the path changes. */
  lemma ReplaceChild(m: Memory, m': Memory, p: Path, hole: RBNode, hole': RBNode, leaf: RBNode)
    requires PathDistinct(p) && PathLinked(m, p, hole, leaf)
    requires Same(m, m', PathNodes(p) - {PathPtr(p, leaf)})
    requires !p.Top? ==> p.n in m' && m'[p.n] == PathFields(p, hole', leaf)
    ensures PathLinked(m', p, hole', leaf)
  {
    if !p.Top? {
      FrameTree(m, m', p.sib, p.n, leaf);
      FramePath(m, m', p.up, p.n, leaf);
    }
  }

  ghost predicate Apart(p: Path, t: Tree, leaf: RBNode)
  {
    && PathDistinct(p) && Distinct(t) && PathNodes(p) !! Nodes(t)
    && leaf !in PathNodes(p) && leaf !in Nodes(t)
  }

  /** The memory holds exactly the tree `Plug(p, t)`, seen from the root of `t`. */
  ghost predicate Located(m: Memory, p: Path, t: Tree, root: RBNode, leaf: RBNode)
  {
    && Apart(p, t, leaf) && m.Keys == PathNodes(p) + Nodes(t) && root == RootPtr(p, Ptr(t, leaf))
    && PathLinked(m, p, Ptr(t, leaf), leaf) && Linked(m, t, PathPtr(p, leaf), leaf)
  }

  lemma StepUp(m: Memory, p: Path, t: Tree, root: RBNode, leaf: RBNode)
    requires !p.Top? && Located(m, p, t, root, leaf)
    ensures Located(m, p.up, Join(p, t), root, leaf)
  {
    assert Nodes(Join(p, t)) == {p.n} + Nodes(p.sib) + Nodes(t);
  }

  lemma StepDown(m: Memory, p: Path, t: Tree, root: RBNode, leaf: RBNode)
    requires t.Node? && Located(m, p, t, root, leaf)
    ensures Located(m, DownLeft(p, t), t.l, root, leaf) && Located(m, DownRight(p, t), t.r, root, leaf)
  {
    assert PathNodes(DownLeft(p, t)) == {t.n} + Nodes(t.r) + PathNodes(p);
    assert PathNodes(DownRight(p, t)) == {t.n} + Nodes(t.l) + PathNodes(p);
  }

  /** The memory holds exactly a given tree. */
  ghost predicate Holds(m: Memory, whole: Tree, root: RBNode, leaf: RBNode)
  {
    Distinct(whole) && m.Keys == Nodes(whole) && leaf !in m.Keys && root == Ptr(whole, leaf)
        && Linked(m, whole, leaf, leaf)
  }

  lemma {:induction false} ZoomOut(m: Memory, p: Path, t: Tree, root: RBNode, leaf: RBNode)
    requires Located(m, p, t, root, leaf)
    ensures Holds(m, Plug(p, t), root, leaf)
    decreases p
  {
    if !p.Top? {
      StepUp(m, p, t, root, leaf);
      ZoomOut(m, p.up, Join(p, t), root, leaf);
    }
  }

  lemma {:induction false} ZoomIn(m: Memory, p: Path, t: Tree, root: RBNode, leaf: RBNode)
    requires Holds(m, Plug(p, t), root, leaf)
    ensures Located(m, p, t, root, leaf)
    decreases p
  {
    if !p.Top? {
      ZoomIn(m, p.up, Join(p, t), root, leaf);
      StepDown(m, p.up, Join(p, t), root, leaf);
    }
  }

  // ---------------------------------------------------------------- keys and values

  ghost function InOrder(t: Tree): seq<(int, Entry)>
  {
    if t.Nil? then [] else InOrder(t.l) + [(t.key, t.value)] + InOrder(t.r)
  }

  ghost function Before(p: Path): seq<(int, Entry)>
  {
    match p
    case Top => []
    case InLeft(_, _, _, _, _, up) => Before(up)
    case InRight(_, _, key, value, sib, up) => Before(up) + InOrder(sib) + [(key, value)]
  }

  ghost function After(p: Path): seq<(int, Entry)>
  {
    match p
    case Top => []
    case InLeft(_, _, key, value, sib, up) => [(key, value)] + InOrder(sib) + After(up)
    case InRight(_, _, _, _, _, up) => After(up)
  }

  lemma {:induction false} PlugInOrder(p: Path, t: Tree)
    ensures InOrder(Plug(p, t)) == Before(p) + InOrder(t) + After(p)
    decreases p
  {
    if !p.Top? {
      PlugInOrder(p.up, Join(p, t));
      var x := [(p.key, p.value)];
      if p.InLeft? {
        RegroupRight(Before(p.up), InOrder(t), x, InOrder(p.sib), After(p.up));
      } else {
        RegroupLeft(Before(p.up), InOrder(p.sib), x, InOrder(t), After(p.up));
      }
    }
  }

  lemma RegroupRight(a: seq<(int, Entry)>, b: seq<(int, Entry)>, x: seq<(int, Entry)>, c: seq<(int, Entry)>,
      d: seq<(int, Entry)>)
    ensures a + (b + x + c) + d == a + b + (x + c + d)
  {
  }

  lemma RegroupLeft(a: seq<(int, Entry)>, b: seq<(int, Entry)>, x: seq<(int, Entry)>, c: seq<(int, Entry)>,
      d: seq<(int, Entry)>)
    ensures a + (b + x + c) + d == (a + b + x) + c + d
  {
  }

  ghost predicate Sorted(s: seq<(int, Entry)>)
  {
    forall i, j :: 0 <= i < j < |s| ==> s[i].0 < s[j].0
  }

  // ---------------------------------------------------------------- colours and heights

  ghost predicate IsRed(t: Tree) { t.Node? && t.color == Red }

  ghost predicate TopRed(p: Path) { !p.Top? && p.color == Red }

  ghost function BlackHeight(t: Tree): nat
  {
    if t.Nil? then 0 else BlackHeight(t.l) + (if t.color == Black then 1 else 0)
  }

  /** All black heights agree and no red node has a red child. */
  ghost predicate RedBlack(t: Tree)
  {
    t.Node? ==>
      && BlackHeight(t.l) == BlackHeight(t.r)
      && (t.color == Red ==> !IsRed(t.l) && !IsRed(t.r))
      && RedBlack(t.l) && RedBlack(t.r)
  }

  /** A context that wants a subtree of black height `h`: lawful itself, with a black root. */
  ghost predicate Fits(p: Path, h: nat)
    decreases p
  {
    !p.Top? ==>
      && RedBlack(p.sib) && BlackHeight(p.sib) == h
      && (p.color == Red ==> !IsRed(p.sib) && !p.up.Top? && !TopRed(p.up))
      && Fits(p.up, h + (if p.color == Black then 1 else 0))
  }

  lemma {:induction false} PlugRedBlack(p: Path, t: Tree)
    requires RedBlack(t) && Fits(p, BlackHeight(t)) && !(IsRed(t) && TopRed(p))
    ensures RedBlack(Plug(p, t))
    ensures !p.Top? ==> !IsRed(Plug(p, t))
    decreases p
  {
    if !p.Top? { PlugRedBlack(p.up, Join(p, t)); }
  }

  ghost function Size(t: Tree): nat
  {
    if t.Nil? then 0 else 1 + Size(t.l) + Size(t.r)
  }

  /** The number of nodes on the longest path. */
  ghost function Height(t: Tree): nat
  {
    if t.Nil? then 0 else 1 + (if Height(t.l) > Height(t.r) then Height(t.l) else Height(t.r))
  }

  ghost function Pow2(n: nat): nat { if n == 0 then 1 else 2 * Pow2(n - 1) }

  lemma {:induction false} SizeBound(t: Tree)
    requires RedBlack(t)
    ensures Pow2(BlackHeight(t)) <= Size(t) + 1
  {
    if t.Node? { SizeBound(t.l); SizeBound(t.r); }
  }

  lemma {:induction false} HeightBound(t: Tree)
    requires RedBlack(t)
    ensures Height(t) <= 2 * BlackHeight(t) + (if IsRed(t) then 1 else 0)
  {
    if t.Node? { HeightBound(t.l); HeightBound(t.r); }
  }

  lemma {:induction false} Pow2Monotone(m: nat, n: nat)
    requires m <= n
    ensures Pow2(m) <= Pow2(n)
  {
    if m < n { Pow2Monotone(m, n - 1); }
  }

  lemma {:induction false} Pow2Square(n: nat)
    ensures Pow2(2 * n) == Pow2(n) * Pow2(n)
  {
    if n > 0 {
      Pow2Square(n - 1);
      assert Pow2(2 * n) == 4 * Pow2(2 * (n - 1));
      assert Pow2(n) * Pow2(n) == 4 * (Pow2(n - 1) * Pow2(n - 1));
    }
  }

  lemma SquareMonotone(b: nat, n: nat)
    requires b <= n
    ensures b * b <= n * n
  {
    Monotone(b, b, n);
    Monotone(n, b, n);
  }

  /** Every path of a lawful tree with a black root has at most `2 * log2(n + 1)` nodes. */
  lemma LogarithmicHeight(t: Tree)
    requires RedBlack(t) && !IsRed(t)
    ensures Pow2(Height(t)) <= (Size(t) + 1) * (Size(t) + 1)
  {
    SizeBound(t);
    HeightBound(t);
    Pow2Monotone(Height(t), 2 * BlackHeight(t));
    Pow2Square(BlackHeight(t));
    SquareMonotone(Pow2(BlackHeight(t)), Size(t) + 1);
  }
}
