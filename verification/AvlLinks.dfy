/**
What it means for linked nodes to stand for a shape, and how each way of rewriting
links keeps that meaning. The heap is seen here as a map from node to cell contents,
so that every step is an equation between maps.
*/
module AvlLinks {
  import opened MachineWords
  import opened LinkList
  import opened AvlShape

  class Node {
    var parent: Node?
    var left: Node?
    var right: Node?
    var key: Word
    var balance: int
    /** Threads the node on an ordered list; only module IndexedTree touches it. */
    const link: Link<Node>

    constructor (key: Word)
      ensures this.key == key && parent == null && left == null && right == null && balance == 0
      ensures fresh(link) && link.owner == Some(this)
    {
      this.key := key;
      parent, left, right, balance := null, null, null, 0;
      link := new Link();
      new;
      link.owner := Some(this);
    }
  }

  datatype Cell = Cell(parent: Node?, left: Node?, right: Node?, key: Word, balance: int)
  type Memory = map<Node, Cell>
  type Shape = Tree<Node>
  type Path = Context<Node>

  ghost function View(s: set<Node>): (m: Memory)
    reads s
    ensures m.Keys == s
  {
    map n | n in s :: Cell(n.parent, n.left, n.right, n.key, n.balance)
  }

  ghost function Root(t: Shape): Node? {
    if t.Branch? then t.node else null
  }

  ghost function Above(c: Path): Node? {
    if c.Top? then null else c.node
  }

  /**
  The nodes below `parent` are linked as `t`, hold its keys, and each stored balance
  is the true height difference.
  */
  ghost predicate Linked(m: Memory, t: Shape, parent: Node?) {
    t.Branch? ==>
      && t.node in m
      && m[t.node] == Cell(parent, Root(t.left), Root(t.right), t.key, Skew(t))
      && Linked(m, t.left, t.node)
      && Linked(m, t.right, t.node)
  }

  /**
  The nodes around the hole are linked as `c`, with `hole` hanging in it, and each
  balance is the true height difference when the hole counts as height `h`.
  */
  ghost predicate LinkedContext(m: Memory, c: Path, hole: Node?, h: nat, root: Node?)
    decreases c
  {
    match c
    case Top => root == hole
    case InLeft(up, n, k, r) =>
      && n in m
      && m[n] == Cell(Above(up), hole, Root(r), k, Height(r) - h)
      && Linked(m, r, n)
      && LinkedContext(m, up, n, Raise(c, h), root)
    case InRight(up, l, n, k) =>
      && n in m
      && m[n] == Cell(Above(up), Root(l), hole, k, h - Height(l))
      && Linked(m, l, n)
      && LinkedContext(m, up, n, Raise(c, h), root)
  }

  /** The whole tree, taken apart at the hole of `c`, which holds `t`. */
  ghost predicate Zipped(m: Memory, c: Path, t: Shape, h: nat, root: Node?) {
    Apart(c, t) && Linked(m, t, Above(c)) && LinkedContext(m, c, Root(t), h, root)
  }

  lemma {:induction false} Unzip(m: Memory, c: Path, t: Shape, root: Node?)
    requires Proper(Plug(c, t)) && Linked(m, Plug(c, t), null) && Root(Plug(c, t)) == root
    ensures Zipped(m, c, t, Height(t), root)
    decreases c
  {
    PlugProper(c, t);
    if !c.Top? {
      Unzip(m, c.up, Widen(c, t), root);
    }
  }

  lemma {:induction false} Zip(m: Memory, c: Path, t: Shape, root: Node?)
    requires Zipped(m, c, t, Height(t), root)
    ensures Proper(Plug(c, t)) && Linked(m, Plug(c, t), null) && Root(Plug(c, t)) == root
    decreases c
  {
    PlugProper(c, t);
    if !c.Top? {
      Zip(m, c.up, Widen(c, t), root);
    }
  }

  // Frames

  /** A subtree whose top alone is given a new parent is still linked. */
  lemma {:induction false} Relinked(m: Memory, m': Memory, t: Shape, was: Node?, now: Node?)
    requires Proper(t) && Linked(m, t, was)
    requires forall x :: x in Nodes(t) && x in m && x != Root(t) ==> x in m' && m'[x] == m[x]
    requires t.Branch? ==> t.node in m' && m'[t.node] == m[t.node].(parent := now)
    ensures Linked(m', t, now)
  {
    if t.Branch? {
      Relinked(m, m', t.left, t.node, t.node);
      Relinked(m, m', t.right, t.node, t.node);
    }
  }

  lemma {:induction false} SameContext(m: Memory, m': Memory, c: Path, hole: Node?, h: nat, root: Node?)
    requires ProperContext(c) && LinkedContext(m, c, hole, h, root)
    requires forall x :: x in ContextNodes(c) && x in m ==> x in m' && m'[x] == m[x]
    ensures LinkedContext(m', c, hole, h, root)
    decreases c
  {
    if !c.Top? {
      Relinked(m, m', Sibling(c), c.node, c.node);
      SameContext(m, m', c.up, c.node, Raise(c, h), root);
    }
  }

  /** What hanging `r` where `n` hung below `p` does to the parent's cell. */
  ghost function ReplaceChild(m: Memory, p: Node?, n: Node, r: Node?): Memory
    requires p != null ==> p in m
  {
    if p == null then m
    else if m[p].left == n then m[p := m[p].(left := r)]
    else m[p := m[p].(right := r)]
  }

  /** Hanging something else in the hole touches the bottom frame only. */
  lemma Refilled(m: Memory, m': Memory, c: Path, was: Node?, now: Node?, h: nat, root: Node?)
    requires ProperContext(c) && LinkedContext(m, c, was, h, root)
    requires forall x :: x in ContextNodes(c) && x in m && x != Above(c) ==> x in m' && m'[x] == m[x]
    requires c.InLeft? ==> c.node in m' && m'[c.node] == m[c.node].(left := now)
    requires c.InRight? ==> c.node in m' && m'[c.node] == m[c.node].(right := now)
    ensures LinkedContext(m', c, now, h, if c.Top? then now else root)
  {
    if !c.Top? {
      Relinked(m, m', Sibling(c), c.node, c.node);
      SameContext(m, m', c.up, c.node, Raise(c, h), root);
    }
  }

  lemma ReplacedChild(m: Memory, m': Memory, c: Path, n: Node, r: Node?, h: nat, root: Node?)
    requires ProperContext(c) && LinkedContext(m, c, n, h, root) && n !in ContextNodes(c)
    requires forall x :: x in ContextNodes(c) && x in m ==>
      x in m' && m'[x] == ReplaceChild(m, Above(c), n, r)[x]
    ensures LinkedContext(m', c, r, h, if c.Top? then r else root)
  {
    if c.InRight? {
      assert Root(c.left) != n;
    }
    Refilled(m, m', c, n, r, h, root);
  }

  /** Correcting the balance one level up makes the wider subtree fully linked. */
  lemma Ascend(m: Memory, m': Memory, c: Path, t: Shape, h: nat, root: Node?)
    requires !c.Top? && Zipped(m, c, t, h, root)
    requires m' == m[c.node := m[c.node].(balance := Skew(Widen(c, t)))]
    ensures Zipped(m', c.up, Widen(c, t), Raise(c, h), root)
  {
    Relinked(m, m', t, c.node, c.node);
    Relinked(m, m', Sibling(c), c.node, c.node);
    SameContext(m, m', c.up, c.node, Raise(c, h), root);
  }

  // The primitive rewritings that the tree operations are made of

  ghost function Adopt(m: Memory, child: Node?, parent: Node): Memory
    requires child != null ==> child in m
  {
    if child == null then m else m[child := m[child].(parent := parent)]
  }

  /** `r` hangs where `n` hung below `p`. */
  ghost function Hang(m: Memory, p: Node?, n: Node, r: Node?): (m': Memory)
    requires (p != null ==> p in m) && (r != null ==> r in m)
    ensures m'.Keys == m.Keys
  {
    var m' := ReplaceChild(m, p, n, r);
    if r == null then m' else m'[r := m'[r].(parent := p)]
  }

  ghost function LinkLeft(m: Memory, n: Node, child: Node?): (m': Memory)
    requires n in m && (child != null ==> child in m)
    ensures m'.Keys == m.Keys
  {
    Adopt(m[n := m[n].(left := child)], child, n)
  }

  ghost function LinkRight(m: Memory, n: Node, child: Node?): (m': Memory)
    requires n in m && (child != null ==> child in m)
    ensures m'.Keys == m.Keys
  {
    Adopt(m[n := m[n].(right := child)], child, n)
  }

  ghost function SetBalance(m: Memory, n: Node, b: int): (m': Memory)
    requires n in m
    ensures m'.Keys == m.Keys
  {
    m[n := m[n].(balance := b)]
  }

  // Rotations, first as rewritings in the order of the code

  /** Everything that a rotation reads through is there. */
  ghost predicate Covers(m: Memory, n: Node, child: Node) {
    && n in m && child in m
    && (m[n].parent != null ==> m[n].parent in m)
    && (m[child].left != null ==> m[child].left in m)
    && (m[child].right != null ==> m[child].right in m)
  }

  /** A level child that has come up leaves `n` leaning by `lean`, and leans the other way itself. */
  ghost function BalanceSingle(m: Memory, n: Node, child: Node, lean: int): (m': Memory)
    requires n in m && child in m
    ensures m'.Keys == m.Keys
  {
    if m[child].balance == 0 then SetBalance(SetBalance(m, n, lean), child, -lean)
    else SetBalance(SetBalance(m, n, 0), child, 0)
  }

  ghost function RotateRight(m: Memory, n: Node, cl: Node): Memory
    requires Covers(m, n, cl)
  {
    BalanceSingle(LinkRight(LinkLeft(Hang(m, m[n].parent, n, cl), n, m[cl].right), cl, n), n, cl, -1)
  }

  ghost function RotateLeft(m: Memory, n: Node, cr: Node): Memory
    requires Covers(m, n, cr)
  {
    BalanceSingle(LinkLeft(LinkRight(Hang(m, m[n].parent, n, cr), n, m[cr].left), cr, n), n, cr, 1)
  }

  /** The balances that a double rotation gives the lower two nodes, from the middle one's. */
  function LowBalance(middle: int): int {
    if middle > 0 then -1 else 0
  }

  function HighBalance(middle: int): int {
    if middle < 0 then 1 else 0
  }

  ghost function BalanceDouble(m: Memory, lo: Node, hi: Node, mid: Node): (m': Memory)
    requires lo in m && hi in m && mid in m
    ensures m'.Keys == m.Keys
  {
    var b := m[mid].balance;
    SetBalance(SetBalance(SetBalance(m, lo, LowBalance(b)), hi, HighBalance(b)), mid, 0)
  }

  /** `mid`, already hung above, gives its children to `lo` and `hi` and takes those two as its own. */
  ghost function RaiseMiddle(m: Memory, lo: Node, hi: Node, mid: Node): (m': Memory)
    requires lo in m && hi in m && mid in m
    requires (m[mid].left != null ==> m[mid].left in m) && (m[mid].right != null ==> m[mid].right in m)
    ensures m'.Keys == m.Keys
  {
    var m1 := LinkRight(LinkLeft(m, hi, m[mid].right), lo, m[mid].left);
    BalanceDouble(LinkLeft(LinkRight(m1, mid, hi), mid, lo), lo, hi, mid)
  }

  ghost predicate CoversDouble(m: Memory, n: Node, child: Node, mid: Node) {
    Covers(m, n, child) && Covers(m, child, mid) && mid !in {n, m[n].parent}
  }

  ghost function RotateRightLeft(m: Memory, n: Node, cr: Node, grl: Node): Memory
    requires CoversDouble(m, n, cr, grl)
  {
    RaiseMiddle(Hang(m, m[n].parent, n, grl), n, cr, grl)
  }

  ghost function RotateLeftRight(m: Memory, n: Node, cl: Node, glr: Node): Memory
    requires CoversDouble(m, n, cl, glr)
  {
    RaiseMiddle(Hang(m, m[n].parent, n, glr), cl, n, glr)
  }

  // Then cell by cell

  /** `lo` was the left child of `hi`, and now it is the other way round, with balances `bl` and `bh`. */
  ghost predicate RightCells(m: Memory, m': Memory, lo: Node, hi: Node, bl: int, bh: int) {
    && lo in m && hi in m
    && var p, inner := m[hi].parent, m[lo].right;
    && m'.Keys == m.Keys
    && m'[lo] == Cell(p, m[lo].left, hi, m[lo].key, bl)
    && m'[hi] == Cell(lo, inner, m[hi].right, m[hi].key, bh)
    && (p != null ==> p in m && m'[p] == ReplaceChild(m, p, hi, lo)[p])
    && (inner != null ==> inner in m && m'[inner] == m[inner].(parent := hi))
    && forall x :: x in m && x !in {lo, hi, p, inner} ==> m'[x] == m[x]
  }

  ghost predicate LeftCells(m: Memory, m': Memory, lo: Node, hi: Node, bl: int, bh: int) {
    && lo in m && hi in m
    && var p, inner := m[lo].parent, m[hi].left;
    && m'.Keys == m.Keys
    && m'[hi] == Cell(p, lo, m[hi].right, m[hi].key, bh)
    && m'[lo] == Cell(hi, m[lo].left, inner, m[lo].key, bl)
    && (p != null ==> p in m && m'[p] == ReplaceChild(m, p, lo, hi)[p])
    && (inner != null ==> inner in m && m'[inner] == m[inner].(parent := lo))
    && forall x :: x in m && x !in {lo, hi, p, inner} ==> m'[x] == m[x]
  }

  /**
  `mid` came up between `lo` and `hi`, of which `top` was the upper one, with balances
  `bl`, `bh` and `bm`.
  */
  ghost predicate DoubleCells(m: Memory, m': Memory, top: Node, lo: Node, hi: Node, mid: Node,
                              bl: int, bh: int, bm: int)
  {
    && lo in m && hi in m && mid in m && top in {lo, hi}
    && var p, inner, outer := m[top].parent, m[mid].left, m[mid].right;
    && m'.Keys == m.Keys
    && m'[lo] == Cell(mid, m[lo].left, inner, m[lo].key, bl)
    && m'[hi] == Cell(mid, outer, m[hi].right, m[hi].key, bh)
    && m'[mid] == Cell(p, lo, hi, m[mid].key, bm)
    && (p != null ==> p in m && m'[p] == ReplaceChild(m, p, top, mid)[p])
    && (inner != null ==> inner in m && m'[inner] == m[inner].(parent := lo))
    && (outer != null ==> outer in m && m'[outer] == m[outer].(parent := hi))
    && forall x :: x in m && x !in {lo, hi, mid, p, inner, outer} ==> m'[x] == m[x]
  }

  /** The cells that a rotation writes are all different. */
  ghost predicate Separate(a: Node, b: Node, p: Node?, inner: Node?) {
    a != b && p !in {a, b} && inner !in {a, b} && (inner != null ==> inner != p)
  }

  ghost predicate SeparateDouble(a: Node, b: Node, mid: Node, p: Node?, inner: Node?, outer: Node?) {
    && Separate(a, b, p, inner) && Separate(a, mid, p, outer) && Separate(b, mid, p, inner)
    && outer != b && (inner != null ==> inner != outer)
  }

  lemma RotateRightCells(m: Memory, n: Node, cl: Node)
    requires Covers(m, n, cl) && m[n].left == cl && Separate(n, cl, m[n].parent, m[cl].right)
    ensures RightCells(m, RotateRight(m, n, cl), cl, n,
                       if m[cl].balance == 0 then 1 else 0, if m[cl].balance == 0 then -1 else 0)
  {
  }

  lemma RotateLeftCells(m: Memory, n: Node, cr: Node)
    requires Covers(m, n, cr) && m[n].right == cr && Separate(n, cr, m[n].parent, m[cr].left)
    ensures LeftCells(m, RotateLeft(m, n, cr), n, cr,
                      if m[cr].balance == 0 then 1 else 0, if m[cr].balance == 0 then -1 else 0)
  {
  }

  lemma RaiseMiddleCells(m: Memory, lo: Node, hi: Node, mid: Node)
    requires lo in m && hi in m && mid in m
    requires (m[mid].left != null ==> m[mid].left in m) && (m[mid].right != null ==> m[mid].right in m)
    requires SeparateDouble(lo, hi, mid, null, m[mid].left, m[mid].right)
    ensures var m', inner, outer := RaiseMiddle(m, lo, hi, mid), m[mid].left, m[mid].right;
      && m'[lo] == Cell(mid, m[lo].left, inner, m[lo].key, LowBalance(m[mid].balance))
      && m'[hi] == Cell(mid, outer, m[hi].right, m[hi].key, HighBalance(m[mid].balance))
      && m'[mid] == Cell(m[mid].parent, lo, hi, m[mid].key, 0)
      && (inner != null ==> m'[inner] == m[inner].(parent := lo))
      && (outer != null ==> m'[outer] == m[outer].(parent := hi))
      && forall x :: x in m && x !in {lo, hi, mid, inner, outer} ==> m'[x] == m[x]
  {
    var inner, outer := m[mid].left, m[mid].right;
    var m1 := LinkRight(LinkLeft(m, hi, outer), lo, inner);
    assert m1[lo] == m[lo].(right := inner) && m1[hi] == m[hi].(left := outer) && m1[mid] == m[mid];
    assert inner != null ==> m1[inner] == m[inner].(parent := lo);
    assert outer != null ==> m1[outer] == m[outer].(parent := hi);
    assert forall x :: x in m && x !in {lo, hi, inner, outer} ==> m1[x] == m[x];
    var m2 := LinkLeft(LinkRight(m1, mid, hi), mid, lo);
    assert m2[lo] == m1[lo].(parent := mid) && m2[hi] == m1[hi].(parent := mid);
    assert m2[mid] == m[mid].(left := lo, right := hi);
    assert forall x :: x in m && x !in {lo, hi, mid} ==> m2[x] == m1[x];
  }

  /** `top` is the one of `lo` and `hi` that `mid` replaces below the parent. */
  lemma HangAndRaiseCells(m: Memory, top: Node, lo: Node, hi: Node, mid: Node)
    requires lo in m && hi in m && top in {lo, hi} && Covers(m, top, mid)
    requires SeparateDouble(lo, hi, mid, m[top].parent, m[mid].left, m[mid].right)
    ensures DoubleCells(m, RaiseMiddle(Hang(m, m[top].parent, top, mid), lo, hi, mid), top, lo, hi, mid,
                        LowBalance(m[mid].balance), HighBalance(m[mid].balance), 0)
  {
    var p := m[top].parent;
    var m0 := Hang(m, p, top, mid);
    assert m0[lo] == m[lo] && m0[hi] == m[hi] && m0[mid] == m[mid].(parent := p);
    assert forall x :: x in m && x !in {p, mid} ==> m0[x] == m[x];
    RaiseMiddleCells(m0, lo, hi, mid);
  }

  // Then as changes of shape

  /** Outside `t`, all that changed is which child hangs below the parent. */
  ghost predicate OnlyReplaced(m: Memory, m': Memory, t: Shape, p: Node?, n: Node, r: Node) {
    && (p != null ==> p in m)
    && forall x :: x in m && x !in Nodes(t) ==> x in m' && m'[x] == ReplaceChild(m, p, n, r)[x]
  }

  lemma RightCellsLink(m: Memory, m': Memory, t: Shape, p: Node?)
    requires t.Branch? && t.left.Branch? && Proper(t) && Linked(m, t, p) && p !in Nodes(t)
    requires RightCells(m, m', t.left.node, t.node, Skew(RotatedRight(t)), Skew(RotatedRight(t).right))
    ensures Linked(m', RotatedRight(t), p)
    ensures OnlyReplaced(m, m', t, p, t.node, t.left.node)
  {
    var lo, hi := t.left.node, t.node;
    var a, b, z := t.left.left, t.left.right, t.right;
    assert Linked(m, t.left, hi);
    assert Proper(t.left) && Nodes(t.left) == Nodes(a) + {lo} + Nodes(b);
    assert Nodes(a) !! Nodes(b) !! Nodes(z) !! {lo} !! {hi};
    Relinked(m, m', a, lo, lo);
    Relinked(m, m', b, lo, hi);
    Relinked(m, m', z, hi, hi);
    assert Linked(m', Branch(b, hi, t.key, z), lo);
  }

  lemma LeftCellsLink(m: Memory, m': Memory, t: Shape, p: Node?)
    requires t.Branch? && t.right.Branch? && Proper(t) && Linked(m, t, p) && p !in Nodes(t)
    requires LeftCells(m, m', t.node, t.right.node, Skew(RotatedLeft(t).left), Skew(RotatedLeft(t)))
    ensures Linked(m', RotatedLeft(t), p)
    ensures OnlyReplaced(m, m', t, p, t.node, t.right.node)
  {
    var lo, hi := t.node, t.right.node;
    var a, b, z := t.left, t.right.left, t.right.right;
    assert Linked(m, t.right, lo);
    assert Proper(t.right) && Nodes(t.right) == Nodes(b) + {hi} + Nodes(z);
    assert Nodes(a) !! Nodes(b) !! Nodes(z) !! {lo} !! {hi};
    Relinked(m, m', a, lo, lo);
    Relinked(m, m', b, hi, lo);
    Relinked(m, m', z, hi, hi);
    assert Linked(m', Branch(a, lo, t.key, b), hi);
  }

  /** `m` still holds the parts that both double rotations put together as `u`. */
  ghost predicate DoubleParts(m: Memory, u: Shape, top: Node, p: Node?) {
    && u.Branch? && u.left.Branch? && u.right.Branch?
    && top in {u.left.node, u.right.node}
    && u.left.node in m && u.right.node in m && u.node in m && m[top].parent == p
    && m[u.left.node].left == Root(u.left.left) && m[u.left.node].key == u.left.key
    && m[u.right.node].right == Root(u.right.right) && m[u.right.node].key == u.right.key
    && m[u.node].left == Root(u.left.right) && m[u.node].right == Root(u.right.left) && m[u.node].key == u.key
    && Linked(m, u.left.left, u.left.node) && Linked(m, u.left.right, u.node)
    && Linked(m, u.right.left, u.node) && Linked(m, u.right.right, u.right.node)
  }

  lemma DoubleCellsLink(m: Memory, m': Memory, top: Node, u: Shape, p: Node?)
    requires DoubleParts(m, u, top, p) && Proper(u) && p !in Nodes(u)
    requires DoubleCells(m, m', top, u.left.node, u.right.node, u.node, Skew(u.left), Skew(u.right), Skew(u))
    ensures Linked(m', u, p)
  {
    DoubleLeftLinks(m, m', top, u, p);
    DoubleRightLinks(m, m', top, u, p);
  }

  lemma DoubleLeftLinks(m: Memory, m': Memory, top: Node, u: Shape, p: Node?)
    requires DoubleParts(m, u, top, p) && Proper(u) && p !in Nodes(u)
    requires DoubleCells(m, m', top, u.left.node, u.right.node, u.node, Skew(u.left), Skew(u.right), Skew(u))
    ensures Linked(m', u.left, u.node)
  {
    ProperParts(u);
    Relinked(m, m', u.left.left, u.left.node, u.left.node);
    Relinked(m, m', u.left.right, u.node, u.left.node);
  }

  lemma DoubleRightLinks(m: Memory, m': Memory, top: Node, u: Shape, p: Node?)
    requires DoubleParts(m, u, top, p) && Proper(u) && p !in Nodes(u)
    requires DoubleCells(m, m', top, u.left.node, u.right.node, u.node, Skew(u.left), Skew(u.right), Skew(u))
    ensures Linked(m', u.right, u.node)
  {
    ProperParts(u);
    Relinked(m, m', u.right.left, u.node, u.right.node);
    Relinked(m, m', u.right.right, u.right.node, u.right.node);
  }

  lemma DoubleCellsReplace(m: Memory, m': Memory, top: Node, u: Shape, p: Node?, bl: int, bh: int, bm: int)
    requires DoubleParts(m, u, top, p) && Proper(u) && p !in Nodes(u)
    requires DoubleCells(m, m', top, u.left.node, u.right.node, u.node, bl, bh, bm)
    ensures OnlyReplaced(m, m', u, p, top, u.node)
  {
    ProperParts(u);
  }

  /** A relinked subtree goes back into its context. */
  lemma Rezip(m: Memory, m': Memory, c: Path, t: Shape, u: Shape, h: nat, root: Node?)
    requires t.Branch? && u.Branch? && Zipped(m, c, t, h, root) && SameMembers(t, u)
    requires Linked(m', u, Above(c)) && OnlyReplaced(m, m', u, Above(c), t.node, u.node)
    ensures Zipped(m', c, u, h, if c.Top? then u.node else root)
  {
    ReplacedChild(m, m', c, t.node, u.node, h, root);
  }

  /** What a rotation at the top of `t` reads through. */
  lemma CoversChildren(m: Memory, c: Path, t: Shape, h: nat, root: Node?)
    requires t.Branch? && Zipped(m, c, t, h, root)
    ensures t.left.Branch? ==> Linked(m, t.left, t.node) && Covers(m, t.node, t.left.node)
    ensures t.right.Branch? ==> Linked(m, t.right, t.node) && Covers(m, t.node, t.right.node)
    ensures Above(c) !in Nodes(t) && m[t.node].parent == Above(c)
  {
    assert Linked(m, t.left, t.node) && Linked(m, t.right, t.node);
    assert t.left.Branch? ==> Linked(m, t.left.left, t.left.node) && Linked(m, t.left.right, t.left.node);
    assert t.right.Branch? ==> Linked(m, t.right.left, t.right.node) && Linked(m, t.right.right, t.right.node);
  }

  lemma RotateRightZips(m: Memory, c: Path, t: Shape, h: nat, root: Node?)
    requires t.Branch? && t.left.Branch? && Zipped(m, c, t, h, root)
    requires Skew(t) == -2 && -1 <= Skew(t.left) <= 0
    ensures Covers(m, t.node, t.left.node)
    ensures Zipped(RotateRight(m, t.node, t.left.node), c, RotatedRight(t), h, if c.Top? then t.left.node else root)
  {
    CoversChildren(m, c, t, h, root);
    RotateRightKeeps(t);
    assert Nodes(t.left) == Nodes(t.left.left) + {t.left.node} + Nodes(t.left.right);
    assert Proper(t.left);
    RotateRightCells(m, t.node, t.left.node);
    var m' := RotateRight(m, t.node, t.left.node);
    RightCellsLink(m, m', t, Above(c));
    Rezip(m, m', c, t, RotatedRight(t), h, root);
  }

  lemma RotateLeftZips(m: Memory, c: Path, t: Shape, h: nat, root: Node?)
    requires t.Branch? && t.right.Branch? && Zipped(m, c, t, h, root)
    requires Skew(t) == 2 && 0 <= Skew(t.right) <= 1
    ensures Covers(m, t.node, t.right.node)
    ensures Zipped(RotateLeft(m, t.node, t.right.node), c, RotatedLeft(t), h, if c.Top? then t.right.node else root)
  {
    CoversChildren(m, c, t, h, root);
    RotateLeftKeeps(t);
    assert Nodes(t.right) == Nodes(t.right.left) + {t.right.node} + Nodes(t.right.right);
    assert Proper(t.right);
    RotateLeftCells(m, t.node, t.right.node);
    var m' := RotateLeft(m, t.node, t.right.node);
    LeftCellsLink(m, m', t, Above(c));
    Rezip(m, m', c, t, RotatedLeft(t), h, root);
  }

  lemma RotateRightLeftParts(m: Memory, c: Path, t: Shape, h: nat, root: Node?)
    requires t.Branch? && t.right.Branch? && t.right.left.Branch? && Zipped(m, c, t, h, root)
    requires Balanced(t.right) && Skew(t) == 2 && Skew(t.right) == -1
    ensures var u, mid := RotatedRightLeft(t), Skew(t.right.left);
      Skew(u.left) == LowBalance(mid) && Skew(u.right) == HighBalance(mid) && Skew(u) == 0
    ensures CoversDouble(m, t.node, t.right.node, t.right.left.node)
    ensures m[t.node].parent == Above(c) && m[t.node].right == t.right.node
    ensures m[t.right.node].left == t.right.left.node && m[t.right.left.node].balance == Skew(t.right.left)
    ensures DoubleParts(m, RotatedRightLeft(t), t.node, Above(c))
    ensures var mid := t.right.left.node;
      SeparateDouble(t.node, t.right.node, mid, Above(c), m[mid].left, m[mid].right)
  {
    CoversChildren(m, c, t, h, root);
    var g := t.right.left;
    assert Linked(m, g, t.right.node) && Linked(m, g.left, g.node) && Linked(m, g.right, g.node);
    assert Balanced(g);
    RotateRightLeftKeeps(t);
    ProperParts(RotatedRightLeft(t));
  }

  lemma RotateRightLeftZips(m: Memory, c: Path, t: Shape, h: nat, root: Node?)
    requires t.Branch? && t.right.Branch? && t.right.left.Branch? && Zipped(m, c, t, h, root)
    requires Balanced(t.right) && Skew(t) == 2 && Skew(t.right) == -1
    ensures CoversDouble(m, t.node, t.right.node, t.right.left.node)
    ensures Zipped(RotateRightLeft(m, t.node, t.right.node, t.right.left.node), c, RotatedRightLeft(t), h,
                   if c.Top? then t.right.left.node else root)
  {
    var n, cr, grl, u := t.node, t.right.node, t.right.left.node, RotatedRightLeft(t);
    RotateRightLeftParts(m, c, t, h, root);
    RotateRightLeftKeeps(t);
    assert Above(c) !in Nodes(u);
    HangAndRaiseCells(m, n, n, cr, grl);
    var m' := RotateRightLeft(m, n, cr, grl);
    DoubleCellsLink(m, m', n, u, Above(c));
    DoubleCellsReplace(m, m', n, u, Above(c), Skew(u.left), Skew(u.right), Skew(u));
    Rezip(m, m', c, t, u, h, root);
  }

  lemma RotateLeftRightParts(m: Memory, c: Path, t: Shape, h: nat, root: Node?)
    requires t.Branch? && t.left.Branch? && t.left.right.Branch? && Zipped(m, c, t, h, root)
    requires Balanced(t.left) && Skew(t) == -2 && Skew(t.left) == 1
    ensures var u, mid := RotatedLeftRight(t), Skew(t.left.right);
      Skew(u.left) == LowBalance(mid) && Skew(u.right) == HighBalance(mid) && Skew(u) == 0
    ensures CoversDouble(m, t.node, t.left.node, t.left.right.node)
    ensures m[t.node].parent == Above(c) && m[t.node].left == t.left.node
    ensures m[t.left.node].right == t.left.right.node && m[t.left.right.node].balance == Skew(t.left.right)
    ensures DoubleParts(m, RotatedLeftRight(t), t.node, Above(c))
    ensures var mid := t.left.right.node;
      SeparateDouble(t.node, t.left.node, mid, Above(c), m[mid].left, m[mid].right)
  {
    CoversChildren(m, c, t, h, root);
    var g := t.left.right;
    assert Linked(m, g, t.left.node) && Linked(m, g.left, g.node) && Linked(m, g.right, g.node);
    assert Balanced(g);
    RotateLeftRightKeeps(t);
    ProperParts(RotatedLeftRight(t));
  }

  lemma RotateLeftRightZips(m: Memory, c: Path, t: Shape, h: nat, root: Node?)
    requires t.Branch? && t.left.Branch? && t.left.right.Branch? && Zipped(m, c, t, h, root)
    requires Balanced(t.left) && Skew(t) == -2 && Skew(t.left) == 1
    ensures CoversDouble(m, t.node, t.left.node, t.left.right.node)
    ensures Zipped(RotateLeftRight(m, t.node, t.left.node, t.left.right.node), c, RotatedLeftRight(t), h,
                   if c.Top? then t.left.right.node else root)
  {
    var n, cl, glr, u := t.node, t.left.node, t.left.right.node, RotatedLeftRight(t);
    RotateLeftRightParts(m, c, t, h, root);
    RotateLeftRightKeeps(t);
    assert Above(c) !in Nodes(u);
    HangAndRaiseCells(m, n, cl, n, glr);
    var m' := RotateLeftRight(m, n, cl, glr);
    DoubleCellsLink(m, m', n, u, Above(c));
    DoubleCellsReplace(m, m', n, u, Above(c), Skew(u.left), Skew(u.right), Skew(u));
    Rezip(m, m', c, t, u, h, root);
  }

  // Walking up

  /**
  A repair loop in the middle of its walk: the memory `m` over the nodes `s` holds the
  tree of members `all`, taken apart at `c`, where the subtree is `t` and the balances
  further up still count it as height `h`.
  */
  ghost predicate Climbing(m: Memory, c: Path, t: Shape, h: nat, root: Node?, s: set<Node>, all: seq<Entry<Node>>) {
    && Zipped(m, c, t, h, root)
    && Nodes(Plug(c, t)) == s
    && InOrder(Plug(c, t)) == all
    && BalancedContext(c, h)
  }

  lemma ClimbUp(m: Memory, m': Memory, c: Path, t: Shape, h: nat, root: Node?, s: set<Node>, all: seq<Entry<Node>>)
    requires !c.Top? && Climbing(m, c, t, h, root, s, all)
    requires m' == m[c.node := m[c.node].(balance := Skew(Widen(c, t)))]
    ensures Climbing(m', c.up, Widen(c, t), Raise(c, h), root, s, all)
  {
    Ascend(m, m', c, t, h, root);
  }

  /** Once heights agree with the balances above, the walk can stop anywhere. */
  lemma ClimbDone(m: Memory, c: Path, t: Shape, h: nat, root: Node?, s: set<Node>, all: seq<Entry<Node>>)
    requires Climbing(m, c, t, h, root, s, all) && Balanced(t) && (c.Top? || Height(t) == h)
    ensures var w := Plug(c, t);
      && Proper(w) && Linked(m, w, null) && Root(w) == root
      && Balanced(w) && InOrder(w) == all && Nodes(w) == s
  {
    Zip(m, c, t, root);
    PlugBalanced(c, t);
  }

  lemma SamePlugged(c: Path, t: Shape, u: Shape)
    requires SameMembers(t, u)
    ensures InOrder(Plug(c, u)) == InOrder(Plug(c, t)) && Nodes(Plug(c, u)) == Nodes(Plug(c, t))
  {
    PlugInOrder(c, t);
    PlugInOrder(c, u);
  }

  lemma RotateLeftClimbs(m: Memory, c: Path, t: Shape, h: nat, root: Node?, s: set<Node>, all: seq<Entry<Node>>)
    requires t.Branch? && t.right.Branch? && Climbing(m, c, t, h, root, s, all)
    requires Balanced(t.left) && Balanced(t.right) && Skew(t) == 2 && Skew(t.right) >= 0
    ensures Covers(m, t.node, t.right.node)
    ensures Climbing(RotateLeft(m, t.node, t.right.node), c, RotatedLeft(t), h,
                     if c.Top? then t.right.node else root, s, all)
  {
    RotateLeftZips(m, c, t, h, root);
    RotateLeftKeeps(t);
    SamePlugged(c, t, RotatedLeft(t));
  }

  lemma RotateRightClimbs(m: Memory, c: Path, t: Shape, h: nat, root: Node?, s: set<Node>, all: seq<Entry<Node>>)
    requires t.Branch? && t.left.Branch? && Climbing(m, c, t, h, root, s, all)
    requires Balanced(t.left) && Balanced(t.right) && Skew(t) == -2 && Skew(t.left) <= 0
    ensures Covers(m, t.node, t.left.node)
    ensures Climbing(RotateRight(m, t.node, t.left.node), c, RotatedRight(t), h,
                     if c.Top? then t.left.node else root, s, all)
  {
    RotateRightZips(m, c, t, h, root);
    RotateRightKeeps(t);
    SamePlugged(c, t, RotatedRight(t));
  }

  lemma RotateRightLeftClimbs(m: Memory, c: Path, t: Shape, h: nat, root: Node?, s: set<Node>, all: seq<Entry<Node>>)
    requires t.Branch? && t.right.Branch? && t.right.left.Branch? && Climbing(m, c, t, h, root, s, all)
    requires Balanced(t.left) && Balanced(t.right) && Skew(t) == 2 && Skew(t.right) == -1
    ensures CoversDouble(m, t.node, t.right.node, t.right.left.node)
    ensures m[t.right.node].left == t.right.left.node
    ensures Climbing(RotateRightLeft(m, t.node, t.right.node, t.right.left.node), c, RotatedRightLeft(t), h,
                     if c.Top? then t.right.left.node else root, s, all)
  {
    RotateRightLeftParts(m, c, t, h, root);
    RotateRightLeftZips(m, c, t, h, root);
    RotateRightLeftKeeps(t);
    SamePlugged(c, t, RotatedRightLeft(t));
  }

  lemma RotateLeftRightClimbs(m: Memory, c: Path, t: Shape, h: nat, root: Node?, s: set<Node>, all: seq<Entry<Node>>)
    requires t.Branch? && t.left.Branch? && t.left.right.Branch? && Climbing(m, c, t, h, root, s, all)
    requires Balanced(t.left) && Balanced(t.right) && Skew(t) == -2 && Skew(t.left) == 1
    ensures CoversDouble(m, t.node, t.left.node, t.left.right.node)
    ensures m[t.left.node].right == t.left.right.node
    ensures Climbing(RotateLeftRight(m, t.node, t.left.node, t.left.right.node), c, RotatedLeftRight(t), h,
                     if c.Top? then t.left.right.node else root, s, all)
  {
    RotateLeftRightParts(m, c, t, h, root);
    RotateLeftRightZips(m, c, t, h, root);
    RotateLeftRightKeeps(t);
    SamePlugged(c, t, RotatedLeftRight(t));
  }

  /** What the heap says at the top of the subtree. */
  lemma ClimbTop(m: Memory, c: Path, t: Shape, h: nat, root: Node?, s: set<Node>, all: seq<Entry<Node>>)
    requires t.Branch? && Climbing(m, c, t, h, root, s, all)
    ensures t.node in m && m[t.node] == Cell(Above(c), Root(t.left), Root(t.right), t.key, Skew(t))
    ensures t.left.Branch? ==>
      t.left.node in m && m[t.left.node].parent == t.node && m[t.left.node].balance == Skew(t.left)
    ensures t.right.Branch? ==>
      t.right.node in m && m[t.right.node].parent == t.node && m[t.right.node].balance == Skew(t.right)
    ensures !c.Top? ==> c.node in m
    ensures c.InLeft? ==> m[c.node].balance == Skew(Widen(c, t)) + Height(t) - h
    ensures c.InRight? ==> m[c.node].balance == Skew(Widen(c, t)) - Height(t) + h
    ensures !c.Top? ==> (c.InLeft? <==> m[c.node].left == t.node)
    ensures c.Top? ==> root == t.node
  {
    assert Linked(m, t.left, t.node) && Linked(m, t.right, t.node);
    if c.InRight? {
      assert c.left.Branch? ==> c.left.node in ContextNodes(c);
    }
  }
}
