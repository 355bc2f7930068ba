/**
Searching, planting a new node, cutting a node out and putting one node in the place of
another: what each does to the shape that the links stand for.
*/
module AvlEdits {
  import opened MachineWords
  import opened LinkList
  import opened AvlShape
  import opened AvlLinks

  // Searching

  /** Everything outside the subtree is on the right side of `key`. */
  ghost predicate Narrowed(c: Path, key: Word) {
    (forall e :: e in Before(c) ==> e.key < key) && (forall e :: e in After(c) ==> key < e.key)
  }

  lemma SearchStep(c: Path, t: Shape, key: Word)
    requires t.Branch? && Ascending(InOrder(Plug(c, t))) && Narrowed(c, key)
    ensures key < t.key ==> Narrowed(InLeft(c, t.node, t.key, t.right), key)
    ensures t.key < key ==> Narrowed(InRight(c, t.left, t.node, t.key), key)
    ensures Entry(t.node, t.key) in InOrder(Plug(c, t))
  {
    PlugInOrder(c, t);
    Divides(Before(c), InOrder(t.left), Entry(t.node, t.key), InOrder(t.right), After(c));
  }

  /** In an ascending sequence, one entry divides the smaller from the larger. */
  lemma Divides(b: seq<Entry<Node>>, l: seq<Entry<Node>>, e: Entry<Node>, r: seq<Entry<Node>>, a: seq<Entry<Node>>)
    requires Ascending(b + (l + [e] + r) + a)
    ensures forall x :: x in b + l + [e] ==> x == e || x.key < e.key
    ensures forall x :: x in [e] + r + a ==> x == e || e.key < x.key
    ensures e in b + (l + [e] + r) + a
  {
    var low, high := b + l, r + a;
    assert b + (l + [e] + r) + a == low + ([e] + high) == (low + [e]) + high;
    AscendingSplit(low, [e] + high);
    AscendingSplit(low + [e], high);
    assert e in [e] + high && e in low + [e];
  }

  lemma SearchFails(c: Path, key: Word)
    requires Narrowed(c, key)
    ensures forall e :: e in InOrder(Plug(c, Leaf)) ==> e.key != key
  {
    PlugInOrder(c, Leaf);
  }

  /** A linked node is filed under the key it holds. */
  lemma {:induction false} MemberEntry(m: Memory, t: Shape, parent: Node?, n: Node)
    requires Linked(m, t, parent) && n in Nodes(t)
    ensures n in m && Entry(n, m[n].key) in InOrder(t)
    decreases t
  {
    if n in Nodes(t.left) {
      MemberEntry(m, t.left, t.node, n);
    } else if n in Nodes(t.right) {
      MemberEntry(m, t.right, t.node, n);
    }
  }

  // Planting

  lemma PlantedAscending(c: Path, n: Node, key: Word)
    requires Ascending(InOrder(Plug(c, Leaf))) && Narrowed(c, key)
    ensures Ascending(Before(c) + [Entry(n, key)] + After(c))
  {
    PlugInOrder(c, Leaf);
    assert InOrder(Plug(c, Leaf)) == Before(c) + After(c);
    AscendingSplit(Before(c), After(c));
    AscendingJoin(Before(c), [Entry(n, key)]);
    AscendingJoin(Before(c) + [Entry(n, key)], After(c));
  }

  lemma PlantedEntries(c: Path, n: Node, key: Word)
    ensures |Before(c)| <= |InOrder(Plug(c, Leaf))|
    ensures Before(c) + [Entry(n, key)] + After(c) ==
      Inserted(InOrder(Plug(c, Leaf)), |Before(c)|, Entry(n, key))
  {
    PlugInOrder(c, Leaf);
    assert InOrder(Plug(c, Leaf)) == Before(c) + After(c);
  }

  lemma {:induction false} ContextEntries(c: Path)
    ensures forall e :: e in Before(c) || e in After(c) ==> e.node in ContextNodes(c)
    decreases c
  {
    if !c.Top? {
      ContextEntries(c.up);
      TreeEntries(Sibling(c));
    }
  }

  lemma {:induction false} TreeEntries(t: Shape)
    ensures forall e :: e in InOrder(t) ==> e.node in Nodes(t)
    decreases t
  {
    if t.Branch? {
      TreeEntries(t.left);
      TreeEntries(t.right);
    }
  }

  lemma PlantedSize(w: Shape, c: Path, n: Node, key: Word)
    requires InOrder(w) == Before(c) + [Entry(n, key)] + After(c)
    ensures Size(w) == Size(Plug(c, Leaf)) + 1
  {
    SizeIsLength(w);
    SizeIsLength(Plug(c, Leaf));
    PlantedEntries(c, n, key);
  }

  /** The planted node still holds its key, since nothing else in the tree is that node. */
  lemma PlantedKey(m: Memory, w: Shape, c: Path, n: Node, key: Word)
    requires Linked(m, w, null) && n in Nodes(w) && n !in ContextNodes(c)
    requires InOrder(w) == Before(c) + [Entry(n, key)] + After(c)
    ensures n in m && m[n].key == key
  {
    MemberEntry(m, w, null, n);
    ContextEntries(c);
  }

  /** When the search for its key has failed, the node is not in the tree. */
  lemma NewNode(m: Memory, c: Path, n: Node, root: Node?)
    requires Proper(Plug(c, Leaf)) && Linked(m, Plug(c, Leaf), null) && Root(Plug(c, Leaf)) == root
    requires Balanced(Plug(c, Leaf))
    requires n in m ==> Narrowed(c, m[n].key)
    ensures n !in ContextNodes(c) && Nodes(Plug(c, Leaf)) == ContextNodes(c)
    ensures Zipped(m, c, Leaf, 0, root) && BalancedContext(c, 0)
  {
    Unzip(m, c, Leaf, root);
    PlugInOrder(c, Leaf);
    PlugBalanced(c, Leaf);
    if n in Nodes(Plug(c, Leaf)) {
      MemberEntry(m, Plug(c, Leaf), null, n);
      SearchFails(c, m[n].key);
    }
  }

  lemma Planted(m: Memory, m': Memory, c: Path, n: Node, key: Word, root: Node?)
    requires !c.Top? && Zipped(m, c, Leaf, 0, root) && BalancedContext(c, 0) && n !in ContextNodes(c)
    requires forall x :: x in ContextNodes(c) && x in m && x != c.node ==> x in m' && m'[x] == m[x]
    requires c.node in m'
    requires m'[c.node] == if c.InLeft? then m[c.node].(left := n) else m[c.node].(right := n)
    requires n in m' && m'[n] == Cell(c.node, null, null, key, 0)
    ensures Climbing(m', c, Branch(Leaf, n, key, Leaf), 0, root, ContextNodes(c) + {n},
                     Before(c) + [Entry(n, key)] + After(c))
  {
    var t := Branch(Leaf, n, key, Leaf);
    Refilled(m, m', c, null, n, 0, root);
    PlugInOrder(c, t);
    assert InOrder(t) == [Entry(n, key)];
  }

  /** All members but the one at the top of `t`, in order. */
  ghost function Without(c: Path, t: Shape): seq<Entry<Node>>
    requires t.Branch?
  {
    Before(c) + (InOrder(t.left) + InOrder(t.right)) + After(c)
  }

  ghost function Rank(c: Path, t: Shape): nat
    requires t.Branch?
  {
    |Before(c)| + |InOrder(t.left)|
  }

  // Cutting out a node with at most one child

  ghost function OnlyChild(t: Shape): Shape
    requires t.Branch?
  {
    if t.left.Leaf? then t.right else t.left
  }

  /** `u` hangs in the hole of `c` where `t` did, and the balance above has been corrected. */
  ghost predicate CutCells(m: Memory, m': Memory, c: Path, u: Shape) {
    && (!c.Top? ==> c.node in m && c.node in m')
    && (c.InLeft? ==> m'[c.node] == m[c.node].(left := Root(u), balance := Skew(Widen(c, u))))
    && (c.InRight? ==> m'[c.node] == m[c.node].(right := Root(u), balance := Skew(Widen(c, u))))
    && (u.Branch? ==> u.node in m && u.node in m' && m'[u.node] == m[u.node].(parent := Above(c)))
    && forall x :: x in m && x in Nodes(u) + ContextNodes(c) && x !in {Above(c), Root(u)} ==>
      x in m' && m'[x] == m[x]
  }

  lemma CutZips(m: Memory, m': Memory, c: Path, t: Shape, root: Node?)
    requires !c.Top? && t.Branch? && (t.left.Leaf? || t.right.Leaf?)
    requires Zipped(m, c, t, Height(t), root)
    requires CutCells(m, m', c, OnlyChild(t))
    ensures Zipped(m', c.up, Widen(c, OnlyChild(t)), Raise(c, Height(t)), root)
  {
    var u := OnlyChild(t);
    assert Linked(m, u, t.node);
    Relinked(m, m', u, t.node, c.node);
    Relinked(m, m', Sibling(c), c.node, c.node);
    SameContext(m, m', c.up, c.node, Raise(c, Height(t)), root);
  }

  lemma CutClimbs(m: Memory, m': Memory, c: Path, t: Shape, root: Node?)
    requires !c.Top? && t.Branch? && (t.left.Leaf? || t.right.Leaf?)
    requires Zipped(m, c, t, Height(t), root) && Balanced(t) && BalancedContext(c, Height(t))
    requires CutCells(m, m', c, OnlyChild(t))
    ensures var u := OnlyChild(t); var w, h := Widen(c, u), Raise(c, Height(t));
      && Climbing(m', c.up, w, h, root, Nodes(u) + ContextNodes(c), Without(c, t))
      && Shrunk(w, h)
  {
    CutZips(m, m', c, t, root);
    ShrinkStep(c, OnlyChild(t), Height(t));
    PlugInOrder(c, OnlyChild(t));
    OnlyChildInOrder(t);
  }

  lemma OnlyChildInOrder(t: Shape)
    requires t.Branch? && (t.left.Leaf? || t.right.Leaf?)
    ensures InOrder(OnlyChild(t)) == InOrder(t.left) + InOrder(t.right)
    ensures Nodes(OnlyChild(t)) == Nodes(t.left) + Nodes(t.right)
  {
  }

  /** With no parent, the child becomes the whole tree. */
  lemma CutAtRoot(m: Memory, m': Memory, t: Shape)
    requires t.Branch? && (t.left.Leaf? || t.right.Leaf?)
    requires Zipped(m, Top, t, Height(t), t.node) && Balanced(t)
    requires CutCells(m, m', Top, OnlyChild(t))
    ensures var u := OnlyChild(t);
      Climbing(m', Top, u, Height(u), Root(u), Nodes(u), Without(Top, t)) && Balanced(u)
  {
    var u := OnlyChild(t);
    OnlyChildInOrder(t);
    assert Linked(m, u, t.node);
    Relinked(m, m', u, t.node, null);
  }

  // A right child without a left subtree moves up one place

  ghost predicate MovedUpCells(m: Memory, m': Memory, c: Path, t: Shape)
    requires t.Branch? && t.left.Branch? && t.right.Branch?
  {
    var cl, cr := t.left.node, t.right.node;
    && t.node in m && cl in m && cr in m && cl in m' && cr in m'
    && m'[cr] == m[cr].(parent := Above(c), left := cl, balance := m[t.node].balance - 1)
    && m'[cl] == m[cl].(parent := cr)
    && (!c.Top? ==> c.node in m && c.node in m' && m'[c.node] == ReplaceChild(m, c.node, t.node, cr)[c.node])
    && forall x :: x in m && x in Nodes(t) + ContextNodes(c) && x !in {t.node, cl, cr, Above(c)} ==>
      x in m' && m'[x] == m[x]
  }

  /** The rewriting in the order of the code. */
  lemma MovedUpByLinks(m: Memory, m': Memory, c: Path, t: Shape, root: Node?)
    requires t.Branch? && t.left.Branch? && t.right.Branch? && t.right.left.Leaf?
    requires Zipped(m, c, t, Height(t), root)
    requires t.node in m && t.right.node in m && t.left.node in m && (!c.Top? ==> c.node in m)
    requires var cr := t.right.node;
      m' == SetBalance(LinkLeft(Hang(m, Above(c), t.node, cr), cr, t.left.node), cr, m[t.node].balance - 1)
    ensures MovedUpCells(m, m', c, t)
  {
    assert t.left.node in Nodes(t) && t.right.node in Nodes(t);
  }

  lemma MovedUpLinks(m: Memory, m': Memory, c: Path, t: Shape, root: Node?)
    requires t.Branch? && t.left.Branch? && t.right.Branch? && t.right.left.Leaf?
    requires Zipped(m, c, t, Height(t), root) && MovedUpCells(m, m', c, t)
    ensures Linked(m', t.right.(left := t.left), Above(c))
  {
    var cr := t.right.node;
    assert Linked(m, t.left, t.node) && Linked(m, t.right, t.node) && Linked(m, t.right.right, cr);
    assert Proper(t.right) && Nodes(t.right) == {cr} + Nodes(t.right.right);
    Relinked(m, m', t.left, t.node, cr);
    Relinked(m, m', t.right.right, cr, cr);
  }

  lemma MovedUpShape(t: Shape)
    requires t.Branch? && t.left.Branch? && t.right.Branch? && t.right.left.Leaf? && Proper(t) && Balanced(t)
    ensures var u := t.right.(left := t.left);
      && InOrder(u) == InOrder(t.left) + InOrder(t.right) && Nodes(u) == Nodes(t) - {t.node}
      && Proper(u) && Shrunk(u, Height(t))
  {
    assert Balanced(t.right);
  }

  lemma MovedUpZips(m: Memory, m': Memory, c: Path, t: Shape, root: Node?)
    requires t.Branch? && t.left.Branch? && t.right.Branch? && t.right.left.Leaf?
    requires Zipped(m, c, t, Height(t), root) && Balanced(t) && MovedUpCells(m, m', c, t)
    ensures var u := t.right.(left := t.left);
      Zipped(m', c, u, Height(t), if c.Top? then u.node else root)
  {
    MovedUpLinks(m, m', c, t, root);
    MovedUpShape(t);
    assert t.right.node in Nodes(t) && t.left.node in Nodes(t);
    ReplacedChild(m, m', c, t.node, t.right.node, Height(t), root);
  }

  lemma MovedUpClimbs(m: Memory, m': Memory, c: Path, t: Shape, root: Node?)
    requires t.Branch? && t.left.Branch? && t.right.Branch? && t.right.left.Leaf?
    requires Zipped(m, c, t, Height(t), root) && Balanced(t) && BalancedContext(c, Height(t))
    requires MovedUpCells(m, m', c, t)
    ensures var u := t.right.(left := t.left);
      && Climbing(m', c, u, Height(t), if c.Top? then u.node else root, Nodes(u) + ContextNodes(c),
                  Without(c, t))
      && Shrunk(u, Height(t))
  {
    MovedUpShape(t);
    MovedUpZips(m, m', c, t, root);
    PlugInOrder(c, t.right.(left := t.left));
  }

  /** The same with the old top dropped from the memory. */
  lemma MovedUpReady(m: Memory, m': Memory, m'': Memory, c: Path, t: Shape, root: Node?)
    requires t.Branch? && t.left.Branch? && t.right.Branch? && t.right.left.Leaf?
    requires Zipped(m, c, t, Height(t), root) && Balanced(t) && BalancedContext(c, Height(t))
    requires MovedUpCells(m, m', c, t) && m'' == m' - {t.node}
    ensures var u := t.right.(left := t.left);
      && Climbing(m'', c, u, Height(t), if c.Top? then u.node else root,
                  Nodes(t) + ContextNodes(c) - {t.node}, Without(c, t))
      && Shrunk(u, Height(t))
  {
    assert t.left.node in Nodes(t.left) && t.right.node in Nodes(t.right);
    assert MovedUpCells(m, m'', c, t);
    MovedUpShape(t);
    MovedUpClimbs(m, m'', c, t, root);
    assert Nodes(t) + ContextNodes(c) - {t.node} == Nodes(t.right.(left := t.left)) + ContextNodes(c);
  }

  // One node takes the place of another

  ghost function Swapped(x: Node?, a: Node, b: Node): Node? {
    if x == a then b else x
  }

  ghost function RenamedCell(cell: Cell, a: Node, b: Node): Cell {
    cell.(parent := Swapped(cell.parent, a, b), left := Swapped(cell.left, a, b), right := Swapped(cell.right, a, b))
  }

  /** Over the nodes `s`, every pointer to `a` now leads to `b`, which holds what `a` held under key `k`. */
  ghost predicate CellsRenamed(m: Memory, m': Memory, s: set<Node>, a: Node, b: Node, k: Word) {
    forall x :: x in s && x in m ==>
      var y := if x == a then b else x;
      y in m' && m'[y] == if x == a then RenamedCell(m[x], a, b).(key := k) else RenamedCell(m[x], a, b)
  }

  lemma {:induction false} RenamedLinked(m: Memory, m': Memory, t: Shape, parent: Node?, a: Node, b: Node, k: Word)
    requires Linked(m, t, parent) && CellsRenamed(m, m', Nodes(t), a, b, k)
    ensures Linked(m', Renamed(t, a, b, k), Swapped(parent, a, b))
    decreases t
  {
    if t.Branch? {
      RenamedLinked(m, m', t.left, t.node, a, b, k);
      RenamedLinked(m, m', t.right, t.node, a, b, k);
      RenamedBalances(t.left, a, b, k);
      RenamedBalances(t.right, a, b, k);
      var u := Renamed(t, a, b, k);
      assert u.left == Renamed(t.left, a, b, k) && u.right == Renamed(t.right, a, b, k);
      assert Root(u.left) == Swapped(Root(t.left), a, b) && Root(u.right) == Swapped(Root(t.right), a, b);
      assert m'[u.node] == Cell(Swapped(parent, a, b), Root(u.left), Root(u.right), u.key, Skew(u));
    }
  }

  lemma {:induction false} RenamedLinkedContext(m: Memory, m': Memory, c: Path, hole: Node?, h: nat, root: Node?,
                                                a: Node, b: Node, k: Word)
    requires LinkedContext(m, c, hole, h, root) && CellsRenamed(m, m', ContextNodes(c), a, b, k)
    ensures LinkedContext(m', RenamedContext(c, a, b, k), Swapped(hole, a, b), h, Swapped(root, a, b))
    decreases c
  {
    if !c.Top? {
      RenamedLinked(m, m', Sibling(c), c.node, a, b, k);
      RenamedBalances(Sibling(c), a, b, k);
      RenamedLinkedContext(m, m', c.up, c.node, Raise(c, h), root, a, b, k);
      var d := RenamedContext(c, a, b, k);
      RenamedEnds(c.up, Sibling(c), a, b, k);
      assert Sibling(d) == Renamed(Sibling(c), a, b, k);
      assert Raise(d, h) == Raise(c, h);
      RenamedFrame(m, m', c, hole, h, root, a, b, k);
    }
  }

  lemma RenamedEnds(c: Path, t: Shape, a: Node, b: Node, k: Word)
    ensures Above(RenamedContext(c, a, b, k)) == Swapped(Above(c), a, b)
    ensures Root(Renamed(t, a, b, k)) == Swapped(Root(t), a, b)
  {
  }

  lemma RenamedFrame(m: Memory, m': Memory, c: Path, hole: Node?, h: nat, root: Node?, a: Node, b: Node, k: Word)
    requires !c.Top? && LinkedContext(m, c, hole, h, root) && CellsRenamed(m, m', ContextNodes(c), a, b, k)
    ensures var d, now := RenamedContext(c, a, b, k), Swapped(hole, a, b);
      && d.node in m'
      && (c.InLeft? ==> m'[d.node] == Cell(Above(d.up), now, Root(d.right), d.key, Height(d.right) - h))
      && (c.InRight? ==> m'[d.node] == Cell(Above(d.up), Root(d.left), now, d.key, h - Height(d.left)))
  {
    RenamedBalances(Sibling(c), a, b, k);
    var d, n := RenamedContext(c, a, b, k), c.node;
    assert n in ContextNodes(c);
    assert d.node == (if n == a then b else n) && d.key == (if n == a then k else c.key);
    RenamedEnds(c.up, Sibling(c), a, b, k);
    if c.InLeft? {
      assert Root(d.right) == Swapped(Root(c.right), a, b);
      assert m[n] == Cell(Above(c.up), hole, Root(c.right), c.key, Height(c.right) - h);
    } else {
      assert Root(d.left) == Swapped(Root(c.left), a, b);
      assert m[n] == Cell(Above(c.up), Root(c.left), hole, c.key, h - Height(c.left));
    }
  }

  lemma RenamedClimbs(m: Memory, m': Memory, c: Path, t: Shape, h: nat, root: Node?, s: set<Node>,
                      all: seq<Entry<Node>>, a: Node, b: Node, k: Word)
    requires Climbing(m, c, t, h, root, s, all) && CellsRenamed(m, m', s, a, b, k) && b !in s
    ensures Climbing(m', RenamedContext(c, a, b, k), Renamed(t, a, b, k), h, Swapped(root, a, b),
                     Swap(s, a, b), RenamedEntries(all, a, b, k))
  {
    var c', t' := RenamedContext(c, a, b, k), Renamed(t, a, b, k);
    PlugInOrder(c, t);
    PlugProper(c, t);
    RenamedPlug(c, t, a, b, k);
    RenamedNodes(Plug(c, t), a, b, k);
    RenamedInOrder(Plug(c, t), a, b, k);
    PlugProper(c', t');
    RenamedLinked(m, m', t, Above(c), a, b, k);
    RenamedLinkedContext(m, m', c, Root(t), h, root, a, b, k);
    RenamedBalanced(c, h, a, b, k);
  }

  /** Only its parent and children point to a node. */
  ghost predicate PointedFrom(m: Memory, s: set<Node>, a: Node) {
    && a in m
    && m[a].parent != a && m[a].left != a && m[a].right != a
    && (m[a].left != null ==> m[a].left !in {m[a].right, m[a].parent})
    && (m[a].right != null ==> m[a].right != m[a].parent)
    && forall x :: x in s ==>
      && x in m
      && (m[x].parent == a <==> x == m[a].left || x == m[a].right)
      && (m[x].left == a || m[x].right == a <==> x == m[a].parent)
      && (m[x].left == a ==> m[x].right != a)
  }

  lemma NeighboursOf(m: Memory, w: Shape, x: Node)
    requires Proper(w) && Linked(m, w, null) && x in Nodes(w)
    ensures x in m
    ensures var p := m[x].parent; p != null ==>
      p in Nodes(w) && p in m && p != x && (m[p].left == x || m[p].right == x)
    ensures var l := m[x].left; l != null ==>
      l in Nodes(w) && l in m && m[l].parent == x && l !in {x, m[x].right, m[x].parent}
    ensures var r := m[x].right; r != null ==>
      r in Nodes(w) && r in m && m[r].parent == x && r !in {x, m[x].parent}
  {
    var (c, t) := Locate(Top, w, x);
    Unzip(m, c, t, Root(w));
    PlugInOrder(c, t);
    assert Linked(m, t.left, x) && Linked(m, t.right, x);
    assert t.left.Branch? ==> t.left.node in Nodes(t);
    assert t.right.Branch? ==> t.right.node in Nodes(t);
  }

  lemma PointersTo(m: Memory, w: Shape, a: Node)
    requires Proper(w) && Linked(m, w, null) && a in Nodes(w)
    ensures PointedFrom(m, Nodes(w), a)
  {
    NeighboursOf(m, w, a);
    forall x | x in Nodes(w)
      ensures x in m
      ensures m[x].parent == a <==> x == m[a].left || x == m[a].right
      ensures m[x].left == a || m[x].right == a <==> x == m[a].parent
      ensures m[x].left == a ==> m[x].right != a
    {
      NeighboursOf(m, w, x);
    }
  }

  /** What the code writes when `b`, coming from outside `s`, takes the place of `a`. */
  ghost predicate PlaceTaken(m: Memory, m': Memory, s: set<Node>, a: Node, b: Node, k: Word)
    requires a in m
  {
    var p, l, r := m[a].parent, m[a].left, m[a].right;
    && b in m' && m'[b] == m[a].(key := k)
    && (p != null ==> p in m && p in m' && m'[p] == ReplaceChild(m, p, a, b)[p])
    && (l != null ==> l in m && l in m' && m'[l] == m[l].(parent := b))
    && (r != null ==> r in m && r in m' && m'[r] == m[r].(parent := b))
    && forall x :: x in s && x in m && x !in {a, p, l, r} ==> x in m' && m'[x] == m[x]
  }

  lemma PlaceTakenRenames(m: Memory, m': Memory, s: set<Node>, a: Node, b: Node, k: Word)
    requires PointedFrom(m, s, a) && PlaceTaken(m, m', s, a, b, k)
    ensures CellsRenamed(m, m', s, a, b, k)
  {
  }

  // Deletion

  lemma WithoutEntries(c: Path, t: Shape)
    requires t.Branch?
    ensures var o := InOrder(Plug(c, t));
      Rank(c, t) < |o| && o[Rank(c, t)] == Entry(t.node, t.key) && Without(c, t) == Removed(o, Rank(c, t))
    ensures Size(Plug(c, t)) == |Without(c, t)| + 1
  {
    PlugInOrder(c, t);
    SizeIsLength(Plug(c, t));
    MiddleRemoved(Before(c), InOrder(t.left), Entry(t.node, t.key), InOrder(t.right), After(c));
  }

  lemma MiddleRemoved(b: seq<Entry<Node>>, l: seq<Entry<Node>>, e: Entry<Node>, r: seq<Entry<Node>>, a: seq<Entry<Node>>)
    ensures var o, i := b + (l + [e] + r) + a, |b| + |l|;
      i < |o| && o[i] == e && Removed(o, i) == b + (l + r) + a
  {
  }

  lemma RemovedAscending(s: seq<Entry<Node>>, i: nat)
    requires Ascending(s) && i < |s|
    ensures Ascending(Removed(s, i))
  {
    var r := Removed(s, i);
    forall j, k | 0 <= j < k < |r| ensures r[j].key < r[k].key {
      assert r[j] == s[if j < i then j else j + 1] && r[k] == s[if k < i then k else k + 1];
    }
  }

  lemma WithoutAscending(c: Path, t: Shape)
    requires t.Branch? && Ascending(InOrder(Plug(c, t)))
    ensures Ascending(Without(c, t))
  {
    WithoutEntries(c, t);
    RemovedAscending(InOrder(Plug(c, t)), Rank(c, t));
  }

  /** The state in which a deletion starts. */
  lemma AtMember(m: Memory, c: Path, t: Shape, root: Node?)
    requires t.Branch? && Proper(Plug(c, t)) && Linked(m, Plug(c, t), null) && Root(Plug(c, t)) == root
    requires Balanced(Plug(c, t))
    ensures Zipped(m, c, t, Height(t), root) && Balanced(t) && BalancedContext(c, Height(t))
    ensures t.node in m && m[t.node] == Cell(Above(c), Root(t.left), Root(t.right), t.key, Skew(t))
    ensures !c.Top? ==> c.node in m && (c.InLeft? <==> m[c.node].left == t.node)
    ensures c.InLeft? ==> m[c.node].balance == Height(c.right) - Height(t)
    ensures c.InRight? ==> m[c.node].balance == Height(t) - Height(c.left)
    ensures Nodes(Plug(c, t)) == Nodes(t) + ContextNodes(c)
    ensures Nodes(t.left) + Nodes(t.right) + ContextNodes(c) == Nodes(Plug(c, t)) - {t.node}
  {
    Unzip(m, c, t, root);
    PlugInOrder(c, t);
    PlugBalanced(c, t);
    if c.InRight? {
      assert c.left.Branch? ==> c.left.node in ContextNodes(c);
    }
  }

  // A node with both children gives way to the smallest node on its right

  /** The memory once `b`, already cut out elsewhere, has been linked in place of `a`. */
  ghost function TakePlace(m: Memory, a: Node, b: Node): (m': Memory)
    requires a in m && b in m && (m[a].parent != null ==> m[a].parent in m)
    requires (m[a].left != null ==> m[a].left in m) && (m[a].right != null ==> m[a].right in m)
    ensures m'.Keys == m.Keys
  {
    LinkRight(LinkLeft(Hang(SetBalance(m, b, m[a].balance), m[a].parent, a, b), b, m[a].left), b, m[a].right)
  }

  lemma TakePlaceCells(m: Memory, s: set<Node>, a: Node, b: Node)
    requires PointedFrom(m, s, a) && a in s && b in m && b !in s
    requires (m[a].parent != null ==> m[a].parent in s) && (m[a].left != null ==> m[a].left in s)
    requires m[a].right != null ==> m[a].right in s
    ensures PlaceTaken(m, TakePlace(m, a, b), s, a, b, m[b].key)
  {
  }

  /** Where the walk to the smallest node on the right of `a` has got to. */
  ghost predicate SeekingMin(c: Path, t: Shape, d: Path, v: Shape)
    requires t.Branch?
  {
    && v.Branch? && Plug(d, v) == Plug(c, t)
    && Before(d) == Before(c) + InOrder(t.left) + [Entry(t.node, t.key)]
    && InOrder(v) + After(d) == InOrder(t.right) + After(c)
    && t.node in ContextNodes(d)
  }

  lemma SeekStart(c: Path, t: Shape)
    requires t.Branch? && t.right.Branch?
    ensures SeekingMin(c, t, InRight(c, t.left, t.node, t.key), t.right)
  {
  }

  lemma SeekStep(c: Path, t: Shape, d: Path, v: Shape)
    requires t.Branch? && SeekingMin(c, t, d, v) && v.left.Branch?
    ensures SeekingMin(c, t, InLeft(d, v.node, v.key, v.right), v.left)
  {
  }

  /** Taking the place of `a` by the cut-out minimum leaves exactly the other entries. */
  lemma MinReplaces(c: Path, t: Shape, d: Path, v: Shape)
    requires t.Branch? && SeekingMin(c, t, d, v) && v.left.Leaf? && Apart(d, v)
    ensures RenamedEntries(Before(d) + InOrder(v.right) + After(d), t.node, v.node, v.key) == Without(c, t)
  {
    var e, x := Entry(t.node, t.key), Entry(v.node, v.key);
    NotElsewhere(c, t, d, v);
    assert InOrder(v) == [x] + InOrder(v.right);
    FirstAfter(Before(c), InOrder(t.left), InOrder(t.right), After(c), x, InOrder(v.right), After(d));
    RenamedMiddle(Before(c) + InOrder(t.left), e, InOrder(v.right) + After(d), x.node, x.key);
    Regroup(Before(c) + InOrder(t.left), e, InOrder(v.right), After(d));
  }

  lemma FirstAfter(b: seq<Entry<Node>>, l: seq<Entry<Node>>, r: seq<Entry<Node>>, a: seq<Entry<Node>>,
                   x: Entry<Node>, r': seq<Entry<Node>>, a': seq<Entry<Node>>)
    requires [x] + r' + a' == r + a
    ensures (b + l) + [x] + (r' + a') == b + (l + r) + a
  {
    assert [x] + r' + a' == [x] + (r' + a');
    assert (b + l) + [x] + (r' + a') == (b + l) + ([x] + (r' + a'));
  }

  lemma Regroup(low: seq<Entry<Node>>, e: Entry<Node>, r: seq<Entry<Node>>, a: seq<Entry<Node>>)
    ensures low + [e] + r + a == low + [e] + (r + a)
  {
  }

  lemma NotElsewhere(c: Path, t: Shape, d: Path, v: Shape)
    requires t.Branch? && SeekingMin(c, t, d, v) && v.left.Leaf? && Apart(d, v)
    ensures forall x :: x in Before(c) + InOrder(t.left) || x in InOrder(v.right) + After(d) ==> x.node != t.node
  {
    PlugProper(d, v);
    PlugProper(c, t);
    ContextEntries(c);
    TreeEntries(t.left);
    TreeEntries(t.right);
    assert forall x :: x in InOrder(v.right) + After(d) ==> x in InOrder(v) + After(d);
  }

  /** Cutting the minimum out redirects no pointer to `a`. */
  lemma CutKeepsPointers(m: Memory, m': Memory, d: Path, v: Shape, root: Node?, a: Node)
    requires d.InLeft? && v.Branch? && v.left.Leaf? && Zipped(m, d, v, Height(v), root)
    requires CutCells(m, m', d, v.right) && a in ContextNodes(d) && a != d.node
    requires PointedFrom(m, Nodes(v) + ContextNodes(d), a)
    ensures PointedFrom(m', Nodes(v.right) + ContextNodes(d), a)
    ensures m'[a] == m[a]
  {
    assert Linked(m, v.right, v.node);
    assert v.right.Branch? ==> v.right.node in Nodes(v.right);
    assert d.node in ContextNodes(d);
  }

  lemma TakePlaceRenames(m: Memory, s: set<Node>, a: Node, b: Node)
    requires PointedFrom(m, s, a) && a in s && b in m && b !in s
    requires (m[a].parent != null ==> m[a].parent in s) && (m[a].left != null ==> m[a].left in s)
    requires m[a].right != null ==> m[a].right in s
    ensures CellsRenamed(m, TakePlace(m, a, b) - {a}, s, a, b, m[b].key)
  {
    var m' := TakePlace(m, a, b);
    TakePlaceCells(m, s, a, b);
    PlaceTakenNarrowed(m, m', s, a, b, m[b].key);
    PlaceTakenRenames(m, m' - {a}, s, a, b, m[b].key);
  }

  /** What is left of the old node does not matter. */
  lemma PlaceTakenNarrowed(m: Memory, m': Memory, s: set<Node>, a: Node, b: Node, k: Word)
    requires a in m && b != a && m[a].parent != a && m[a].left != a && m[a].right != a
    requires PlaceTaken(m, m', s, a, b, k)
    ensures PlaceTaken(m, m' - {a}, s, a, b, k)
  {
  }

  /** The whole replacement: `v.node` is cut out of its place and put in the place of `t.node`. */
  lemma MinTakesPlace(m: Memory, m1: Memory, m2: Memory, c: Path, t: Shape, d: Path, v: Shape, root: Node?)
    requires t.Branch? && SeekingMin(c, t, d, v) && v.left.Leaf? && d.InLeft?
    requires Zipped(m, d, v, Height(v), root) && Balanced(v) && BalancedContext(d, Height(v))
    requires CutCells(m, m1, d, v.right)
    requires CellsRenamed(m1, m2, Nodes(v.right) + ContextNodes(d), t.node, v.node, v.key)
    ensures var w, h := Renamed(Widen(d, v.right), t.node, v.node, v.key), Raise(d, Height(v));
      && Climbing(m2, RenamedContext(d.up, t.node, v.node, v.key), w, h, Swapped(root, t.node, v.node),
                  Nodes(v) + ContextNodes(d) - {t.node}, Without(c, t))
      && Shrunk(w, h)
  {
    var s, a, b := Nodes(v.right) + ContextNodes(d), t.node, v.node;
    var w, h := Widen(d, v.right), Raise(d, Height(v));
    CutClimbs(m, m1, d, v, root);
    RenamedClimbs(m1, m2, d.up, w, h, root, s, Without(d, v), a, b, v.key);
    RenamedShrunk(w, h, a, b, v.key);
    MinMembers(c, t, d, v);
  }

  lemma MinMembers(c: Path, t: Shape, d: Path, v: Shape)
    requires t.Branch? && SeekingMin(c, t, d, v) && v.left.Leaf? && Apart(d, v)
    ensures RenamedEntries(Without(d, v), t.node, v.node, v.key) == Without(c, t)
    ensures Swap(Nodes(v.right) + ContextNodes(d), t.node, v.node) == Nodes(v) + ContextNodes(d) - {t.node}
    ensures v.node !in Nodes(v.right) + ContextNodes(d)
  {
    MinReplaces(c, t, d, v);
    OnlyChildInOrder(v);
  }

  /** The state before the replacement, at the node to go and at the minimum. */
  ghost predicate MinFound(m: Memory, c: Path, t: Shape, d: Path, v: Shape, root: Node?, s: set<Node>) {
    && t.Branch? && SeekingMin(c, t, d, v) && v.left.Leaf? && d.InLeft? && d.node != t.node
    && Zipped(m, d, v, Height(v), root) && Balanced(v) && BalancedContext(d, Height(v))
    && s == Nodes(v) + ContextNodes(d) && s == m.Keys
    && PointedFrom(m, s, t.node) && t.node in s && v.node in s
    && m[t.node] == Cell(Above(c), Root(t.left), Root(t.right), t.key, Skew(t))
    && Above(c) != v.node && Root(t.left) != v.node && Root(t.right) != v.node
    && (!c.Top? ==> c.node in s) && (t.left.Branch? ==> t.left.node in s) && (t.right.Branch? ==> t.right.node in s)
    && m[d.node].balance == Height(d.right) - Height(v) && m[v.node].parent == d.node && m[v.node].key == v.key
    && (c.Top? ==> root == t.node) && (!c.Top? ==> root != t.node)
  }

  lemma AtMin(m: Memory, c: Path, t: Shape, d: Path, v: Shape, root: Node?)
    requires t.Branch? && SeekingMin(c, t, d, v) && v.left.Leaf? && d.InLeft? && d.node != t.node
    requires t.right.Branch? && t.right.left.Branch?
    requires Proper(Plug(c, t)) && Linked(m, Plug(c, t), null) && Root(Plug(c, t)) == root
    requires Balanced(Plug(c, t)) && m.Keys == Nodes(Plug(c, t))
    ensures MinFound(m, c, t, d, v, root, m.Keys)
  {
    AtMember(m, c, t, root);
    AtMember(m, d, v, root);
    PointersTo(m, Plug(c, t), t.node);
  }

  /** The state after it, with the old node dropped from the memory. */
  lemma WithoutMin(d: Path, v: Shape)
    requires v.Branch? && v.left.Leaf? && Apart(d, v)
    ensures Nodes(v) + ContextNodes(d) - {v.node} == Nodes(v.right) + ContextNodes(d)
  {
  }

  lemma MinReady(m: Memory, m1: Memory, m2: Memory, c: Path, t: Shape, d: Path, v: Shape, root: Node?, s: set<Node>)
    requires MinFound(m, c, t, d, v, root, s)
    requires CutCells(m, m1, d, v.right) && m1.Keys == s && m1[v.node] == m[v.node]
    requires m1[t.node] == m[t.node] && m2 == TakePlace(m1, t.node, v.node) - {t.node}
    ensures var w, h := Renamed(Widen(d, v.right), t.node, v.node, v.key), Raise(d, Height(v));
      && Climbing(m2, RenamedContext(d.up, t.node, v.node, v.key), w, h, if c.Top? then v.node else root,
                  s - {t.node}, Without(c, t))
      && Shrunk(w, h)
  {
    CutKeepsPointers(m, m1, d, v, root, t.node);
    WithoutMin(d, v);
    TakePlaceRenames(m1, s - {v.node}, t.node, v.node);
    MinTakesPlace(m, m1, m2, c, t, d, v, root);
  }

  lemma CutElsewhere(m: Memory, m1: Memory, c: Path, t: Shape, d: Path, v: Shape, root: Node?, s: set<Node>)
    requires MinFound(m, c, t, d, v, root, s) && CutCells(m, m1, d, v.right)
    ensures t.node in m1 && m1[t.node] == m[t.node]
  {
    CutKeepsPointers(m, m1, d, v, root, t.node);
  }

  lemma RightChild(m: Memory, c: Path, t: Shape, root: Node?)
    requires t.Branch? && t.right.Branch? && Zipped(m, c, t, Height(t), root)
    ensures t.right.node in m && m[t.right.node].left == Root(t.right.left)
  {
    assert Linked(m, t.right, t.node);
  }

  /** In an ascending tree, the entry of a node found under a key is the only one with that node. */
  lemma FiledOnce(w: Shape, n: Node, key: Word)
    requires Proper(w) && Entry(n, key) in InOrder(w)
    ensures n in Nodes(w)
    ensures forall e :: e in InOrder(w) && e.node == n ==> e.key == key
  {
    TreeEntries(w);
    OneEntry(w, n);
  }

  lemma {:induction false} OneEntry(w: Shape, n: Node)
    requires Proper(w)
    ensures forall d, e :: d in InOrder(w) && e in InOrder(w) && d.node == n && e.node == n ==> d == e
    decreases w
  {
    if w.Branch? {
      OneEntry(w.left, n);
      OneEntry(w.right, n);
      TreeEntries(w.left);
      TreeEntries(w.right);
    }
  }

  lemma RootHasNoParent(m: Memory, w: Shape, n: Node)
    requires Proper(w) && Linked(m, w, null) && n in Nodes(w)
    ensures n in m && (m[n].parent == null <==> Root(w) == n)
  {
    var (c, t) := Locate(Top, w, n);
    Unzip(m, c, t, Root(w));
  }

  // Swapping a node from outside for a member

  /** Everything around `b` is there. */
  ghost predicate Closed(m: Memory, b: Node) {
    && b in m
    && (m[b].parent != null ==> m[b].parent in m)
    && (m[b].left != null ==> m[b].left in m)
    && (m[b].right != null ==> m[b].right in m)
  }

  ghost function MovedCell(m: Memory, from: Node, to: Node): (m': Memory)
    requires from in m && to in m
  {
    m[to := m[from]][from := Cell(null, null, null, 0, 0)]
  }

  ghost function Redirected(m: Memory, was: Node, now: Node): (m': Memory)
    requires Closed(m, now)
  {
    var m1 := ReplaceChild(m, m[now].parent, was, now);
    var m2 := Adopt(m1, m1[now].left, now);
    Adopt(m2, m2[now].right, now)
  }

  /** What the swap needs to know about the node it takes out. */
  ghost predicate SwapBase(m: Memory, w: Shape, a: Node) {
    && a in Nodes(w) && a in m && Closed(m, a) && PointedFrom(m, Nodes(w), a)
    && Proper(w) && Linked(m, w, null)
    && (m[a].parent == null <==> Root(w) == a)
    && (m[a].parent != null ==> m[a].parent in Nodes(w))
    && (m[a].left != null ==> m[a].left in Nodes(w))
    && (m[a].right != null ==> m[a].right in Nodes(w))
  }

  lemma SwapStart(m0: Memory, m: Memory, w: Shape, a: Node)
    requires Proper(w) && Linked(m0, w, null) && a in Nodes(w)
    requires forall x :: x in Nodes(w) && x in m0 ==> x in m && m[x] == m0[x]
    ensures SwapBase(m, w, a)
  {
    if w.Branch? {
      assert w.node in Nodes(w) && m[w.node] == m0[w.node];
      Relinked(m0, m, w.left, w.node, w.node);
      Relinked(m0, m, w.right, w.node, w.node);
    }
    PointersTo(m, w, a);
    NeighboursOf(m, w, a);
    RootHasNoParent(m, w, a);
  }

  /** The shape `w` with `b` in the place of `a` is what the links now stand for. */
  ghost predicate SwappedTo(m: Memory, w: Shape, a: Node, b: Node, k: Word, root: Node?) {
    var u := Renamed(w, a, b, k);
    && Proper(u) && Linked(m, u, null) && Root(u) == root && Balanced(u) && Ascending(InOrder(u))
    && Size(u) == Size(w) && Nodes(u) == Nodes(w) - {a} + {b} && InOrder(u) == RenamedEntries(InOrder(w), a, b, k)
  }

  lemma SwapReady(m: Memory, m1: Memory, m2: Memory, w: Shape, a: Node, b: Node)
    requires SwapBase(m, w, a) && Balanced(w) && Ascending(InOrder(w)) && b in m && b !in Nodes(w)
    requires Closed(MovedCell(m, a, b), b) && m1 == Redirected(MovedCell(m, a, b), a, b) && m2 == m1 - {a}
    ensures SwappedTo(m2, w, a, b, m[a].key, if m[a].parent == null then b else Root(w))
    ensures m1[a] == Cell(null, null, null, 0, 0)
  {
    RedirectedTakesPlace(m, m1, m2, w, a, b);
    PlaceTakenRenames(m, m2, Nodes(w), a, b, m[a].key);
    SwappedShape(m, m2, w, a, b);
  }

  lemma RedirectedTakesPlace(m: Memory, m1: Memory, m2: Memory, w: Shape, a: Node, b: Node)
    requires SwapBase(m, w, a) && b in m && b !in Nodes(w)
    requires Closed(MovedCell(m, a, b), b) && m1 == Redirected(MovedCell(m, a, b), a, b) && m2 == m1 - {a}
    ensures PlaceTaken(m, m2, Nodes(w), a, b, m[a].key)
    ensures m1[a] == Cell(null, null, null, 0, 0)
  {
  }

  lemma SwappedShape(m: Memory, m': Memory, w: Shape, a: Node, b: Node)
    requires Proper(w) && Linked(m, w, null) && Balanced(w) && Ascending(InOrder(w)) && a in Nodes(w)
    requires a in m && b !in Nodes(w)
    requires CellsRenamed(m, m', Nodes(w), a, b, m[a].key)
    ensures SwappedTo(m', w, a, b, m[a].key, Swapped(Root(w), a, b))
  {
    var k := m[a].key;
    RenamedNodes(w, a, b, k);
    RenamedInOrder(w, a, b, k);
    RenamedBalances(w, a, b, k);
    RenamedLinked(m, m', w, null, a, b, k);
    SizeIsLength(w);
    SizeIsLength(Renamed(w, a, b, k));
    SameKeys(m, w, a, b);
  }

  /** Every entry of the node files it under the key it holds, so that the renaming keeps the keys. */
  lemma SameKeys(m: Memory, w: Shape, a: Node, b: Node)
    requires Proper(w) && Linked(m, w, null) && Ascending(InOrder(w)) && a in Nodes(w) && a in m
    ensures Ascending(RenamedEntries(InOrder(w), a, b, m[a].key))
  {
    MemberEntry(m, w, null, a);
    OneEntry(w, a);
    var s := InOrder(w);
    var r := RenamedEntries(s, a, b, m[a].key);
    forall i | 0 <= i < |s| ensures r[i].key == s[i].key {
      assert s[i] in s;
    }
  }
}
