/**
The heap-free side of the AVL proof: the tree that the linked nodes stand for, the
one-hole context that surrounds a subtree while a repair loop walks upwards, and the
facts about them that no pointer is needed for.
*/
module AvlShape {
  import opened MachineWords

  /** One member of the tree: the node and the key it was inserted under. */
  datatype Entry<T> = Entry(node: T, key: Word)

  datatype Tree<T> = Leaf | Branch(left: Tree<T>, node: T, key: Word, right: Tree<T>)

  /** A tree with one subtree missing. `up` leads towards the root. */
  datatype Context<T> =
    | Top
    | InLeft(up: Context<T>, node: T, key: Word, right: Tree<T>)
    | InRight(up: Context<T>, left: Tree<T>, node: T, key: Word)

  ghost function Height<T>(t: Tree<T>): nat {
    match t
    case Leaf => 0
    case Branch(l, _, _, r) => 1 + Max(Height(l), Height(r))
  }

  ghost function Size<T>(t: Tree<T>): nat {
    match t
    case Leaf => 0
    case Branch(l, _, _, r) => Size(l) + 1 + Size(r)
  }

  ghost function InOrder<T>(t: Tree<T>): seq<Entry<T>> {
    match t
    case Leaf => []
    case Branch(l, n, k, r) => InOrder(l) + [Entry(n, k)] + InOrder(r)
  }

  ghost function Nodes<T>(t: Tree<T>): set<T> {
    match t
    case Leaf => {}
    case Branch(l, n, _, r) => Nodes(l) + {n} + Nodes(r)
  }

  /** The right subtree's height minus the left's: what a stored balance must equal. */
  ghost function Skew<T>(t: Tree<T>): int
    requires t.Branch?
  {
    Height(t.right) - Height(t.left)
  }

  /** The AVL condition. */
  ghost predicate Balanced<T>(t: Tree<T>) {
    t.Branch? ==> -1 <= Skew(t) <= 1 && Balanced(t.left) && Balanced(t.right)
  }

  /** No node occurs twice. */
  ghost predicate Proper<T>(t: Tree<T>) {
    t.Branch? ==>
      && t.node !in Nodes(t.left)
      && t.node !in Nodes(t.right)
      && Nodes(t.left) !! Nodes(t.right)
      && Proper(t.left)
      && Proper(t.right)
  }

  ghost predicate Ascending<T>(s: seq<Entry<T>>) {
    forall i, j :: 0 <= i < j < |s| ==> s[i].key < s[j].key
  }

  // Contexts

  ghost function Plug<T>(c: Context<T>, t: Tree<T>): Tree<T>
    decreases c
  {
    match c
    case Top => t
    case InLeft(up, n, k, r) => Plug(up, Branch(t, n, k, r))
    case InRight(up, l, n, k) => Plug(up, Branch(l, n, k, t))
  }

  ghost function Before<T>(c: Context<T>): seq<Entry<T>> {
    match c
    case Top => []
    case InLeft(up, _, _, _) => Before(up)
    case InRight(up, l, n, k) => Before(up) + InOrder(l) + [Entry(n, k)]
  }

  ghost function After<T>(c: Context<T>): seq<Entry<T>> {
    match c
    case Top => []
    case InLeft(up, n, k, r) => [Entry(n, k)] + InOrder(r) + After(up)
    case InRight(up, _, _, _) => After(up)
  }

  ghost function ContextNodes<T>(c: Context<T>): set<T> {
    match c
    case Top => {}
    case InLeft(up, n, _, r) => ContextNodes(up) + {n} + Nodes(r)
    case InRight(up, l, n, _) => ContextNodes(up) + Nodes(l) + {n}
  }

  /** The height the bottom frame of `c` has once its hole is filled to height `h`. */
  ghost function Raise<T>(c: Context<T>, h: nat): nat
    requires !c.Top?
  {
    1 + Max(h, Height(Sibling(c)))
  }

  ghost function Sibling<T>(c: Context<T>): Tree<T>
    requires !c.Top?
  {
    if c.InLeft? then c.right else c.left
  }

  /** The subtree one level up, once the hole holds `t`. */
  ghost function Widen<T>(c: Context<T>, t: Tree<T>): (w: Tree<T>)
    requires !c.Top?
  {
    if c.InLeft? then Branch(t, c.node, c.key, c.right) else Branch(c.left, c.node, c.key, t)
  }

  /** The AVL condition for every frame, with the hole counted as height `h`. */
  ghost predicate BalancedContext<T>(c: Context<T>, h: nat)
    decreases c
  {
    !c.Top? ==>
      && -1 <= Height(Sibling(c)) - h <= 1
      && Balanced(Sibling(c))
      && BalancedContext(c.up, Raise(c, h))
  }

  ghost predicate ProperContext<T>(c: Context<T>)
    decreases c
  {
    !c.Top? ==>
      && c.node !in Nodes(Sibling(c))
      && c.node !in ContextNodes(c.up)
      && Nodes(Sibling(c)) !! ContextNodes(c.up)
      && Proper(Sibling(c))
      && ProperContext(c.up)
  }

  /** `t` and the context around it share no node, and neither repeats one. */
  ghost predicate Apart<T>(c: Context<T>, t: Tree<T>) {
    Proper(t) && ProperContext(c) && Nodes(t) !! ContextNodes(c)
  }

  lemma {:induction false} PlugInOrder<T>(c: Context<T>, t: Tree<T>)
    ensures InOrder(Plug(c, t)) == Before(c) + InOrder(t) + After(c)
    ensures Nodes(Plug(c, t)) == Nodes(t) + ContextNodes(c)
    decreases c
  {
    if !c.Top? {
      PlugInOrder(c.up, Widen(c, t));
    }
  }

  lemma {:induction false} PlugBalanced<T>(c: Context<T>, t: Tree<T>)
    ensures Balanced(t) && BalancedContext(c, Height(t)) <==> Balanced(Plug(c, t))
    decreases c
  {
    if !c.Top? {
      var w := Widen(c, t);
      PlugBalanced(c.up, w);
      assert Plug(c, t) == Plug(c.up, w);
      assert Height(w) == Raise(c, Height(t));
      assert Balanced(w) <==>
        Balanced(t) && Balanced(Sibling(c)) && -1 <= Height(Sibling(c)) - Height(t) <= 1;
    }
  }

  lemma {:induction false} PlugProper<T>(c: Context<T>, t: Tree<T>)
    ensures Apart(c, t) <==> Proper(Plug(c, t))
    decreases c
  {
    if !c.Top? {
      PlugProper(c.up, Widen(c, t));
    }
  }

  /** The context and subtree at a given member. */
  ghost function Locate<T>(c: Context<T>, t: Tree<T>, n: T): (r: (Context<T>, Tree<T>))
    requires n in Nodes(t)
    ensures Plug(r.0, r.1) == Plug(c, t)
    ensures r.1.Branch? && r.1.node == n
    decreases t
  {
    if t.node == n then
      (c, t)
    else if n in Nodes(t.left) then
      Locate(InLeft(c, t.node, t.key, t.right), t.left, n)
    else
      Locate(InRight(c, t.left, t.node, t.key), t.right, n)
  }

  // Members and order

  lemma {:induction false} SizeIsLength<T>(t: Tree<T>)
    ensures |InOrder(t)| == Size(t)
  {
    if t.Branch? {
      SizeIsLength(t.left);
      SizeIsLength(t.right);
    }
  }

  lemma AscendingSplit<T>(a: seq<Entry<T>>, b: seq<Entry<T>>)
    requires Ascending(a + b)
    ensures Ascending(a) && Ascending(b)
    ensures forall x, y :: x in a && y in b ==> x.key < y.key
  {
    var s := a + b;
    forall i, j | 0 <= i < j < |b| ensures b[i].key < b[j].key {
      assert s[|a| + i] == b[i] && s[|a| + j] == b[j];
    }
    forall i, j | 0 <= i < j < |a| ensures a[i].key < a[j].key {
      assert s[i] == a[i] && s[j] == a[j];
    }
    forall x, y | x in a && y in b ensures x.key < y.key {
      var i :| 0 <= i < |a| && a[i] == x;
      var j :| 0 <= j < |b| && b[j] == y;
      assert s[i] == x && s[|a| + j] == y;
    }
  }

  lemma AscendingJoin<T>(a: seq<Entry<T>>, b: seq<Entry<T>>)
    requires Ascending(a) && Ascending(b)
    requires forall x, y :: x in a && y in b ==> x.key < y.key
    ensures Ascending(a + b)
  {
    forall i, j | 0 <= i < j < |a + b| ensures (a + b)[i].key < (a + b)[j].key {
      if i < |a| <= j {
        assert a[i] in a && b[j - |a|] in b;
      }
    }
  }

  // Rotations

  ghost function RotatedRight<T>(t: Tree<T>): Tree<T>
    requires t.Branch? && t.left.Branch?
  {
    Branch(t.left.left, t.left.node, t.left.key, Branch(t.left.right, t.node, t.key, t.right))
  }

  ghost function RotatedLeft<T>(t: Tree<T>): Tree<T>
    requires t.Branch? && t.right.Branch?
  {
    Branch(Branch(t.left, t.node, t.key, t.right.left), t.right.node, t.right.key, t.right.right)
  }

  ghost function RotatedLeftRight<T>(t: Tree<T>): Tree<T>
    requires t.Branch? && t.left.Branch? && t.left.right.Branch?
  {
    RotatedRight(t.(left := RotatedLeft(t.left)))
  }

  ghost function RotatedRightLeft<T>(t: Tree<T>): Tree<T>
    requires t.Branch? && t.right.Branch? && t.right.left.Branch?
  {
    RotatedLeft(t.(right := RotatedRight(t.right)))
  }

  /** `u` has the members of `t` in the order of `t`. */
  ghost predicate SameMembers<T>(t: Tree<T>, u: Tree<T>) {
    InOrder(t) == InOrder(u) && Nodes(t) == Nodes(u) && Proper(t) == Proper(u)
  }

  lemma RotateRightKeeps<T>(t: Tree<T>)
    requires t.Branch? && t.left.Branch?
    ensures SameMembers(t, RotatedRight(t))
  {
    var a, n, m, b, d := InOrder(t.left.left), [Entry(t.left.node, t.left.key)],
                         [Entry(t.node, t.key)], InOrder(t.left.right), InOrder(t.right);
    assert (a + n + b) + m + d == a + n + (b + m + d);
  }

  lemma RotateLeftKeeps<T>(t: Tree<T>)
    requires t.Branch? && t.right.Branch?
    ensures SameMembers(t, RotatedLeft(t))
  {
    RotateRightKeeps(RotatedLeft(t));
  }

  lemma RotateLeftRightKeeps<T>(t: Tree<T>)
    requires t.Branch? && t.left.Branch? && t.left.right.Branch?
    ensures SameMembers(t, RotatedLeftRight(t))
  {
    RotateLeftKeeps(t.left);
    RotateRightKeeps(t.(left := RotatedLeft(t.left)));
  }

  lemma RotateRightLeftKeeps<T>(t: Tree<T>)
    requires t.Branch? && t.right.Branch? && t.right.left.Branch?
    ensures SameMembers(t, RotatedRightLeft(t))
  {
    RotateRightKeeps(t.right);
    RotateLeftKeeps(t.(right := RotatedRight(t.right)));
  }

  /** A single rotation restores a left-heavy node; it loses a level unless the child was level. */
  lemma RotateRightBalances<T>(t: Tree<T>)
    requires t.Branch? && Balanced(t.left) && Balanced(t.right)
    requires Skew(t) == -2 && Skew(t.left) <= 0
    ensures Balanced(RotatedRight(t))
    ensures Height(RotatedRight(t)) == if Skew(t.left) == 0 then Height(t) else Height(t) - 1
  {
  }

  lemma RotateLeftBalances<T>(t: Tree<T>)
    requires t.Branch? && Balanced(t.left) && Balanced(t.right)
    requires Skew(t) == 2 && Skew(t.right) >= 0
    ensures Balanced(RotatedLeft(t))
    ensures Height(RotatedLeft(t)) == if Skew(t.right) == 0 then Height(t) else Height(t) - 1
  {
  }

  /** A double rotation restores the opposite lean, and always loses a level. */
  lemma RotateLeftRightBalances<T>(t: Tree<T>)
    requires t.Branch? && Balanced(t.left) && Balanced(t.right)
    requires Skew(t) == -2 && Skew(t.left) == 1
    ensures Balanced(RotatedLeftRight(t)) && Height(RotatedLeftRight(t)) == Height(t) - 1
  {
    assert Balanced(t.left.right);
  }

  lemma RotateRightLeftBalances<T>(t: Tree<T>)
    requires t.Branch? && Balanced(t.left) && Balanced(t.right)
    requires Skew(t) == 2 && Skew(t.right) == -1
    ensures Balanced(RotatedRightLeft(t)) && Height(RotatedRightLeft(t)) == Height(t) - 1
  {
    assert Balanced(t.right.left);
  }

  /** What a subtree grown by one level does to the level above it. */
  lemma GrowthStep<T>(c: Context<T>, t: Tree<T>, h: nat)
    requires !c.Top? && BalancedContext(c, h) && t.Branch? && Balanced(t)
    requires Height(t) == h + 1 && (Skew(t) != 0 || Height(t) == 1)
    ensures var w := Widen(c, t);
      && BalancedContext(c.up, Raise(c, h)) && Balanced(w.left) && Balanced(w.right)
      && -2 <= Skew(w) <= 2
      && Height(w) == (if Skew(w) == 0 then Raise(c, h) else Raise(c, h) + 1)
      && (Skew(w) == 2 ==> w.right == t && Skew(t) != 0)
      && (Skew(w) == -2 ==> w.left == t && Skew(t) != 0)
  {
  }

  /**
  The state of a subtree that deletion has touched, by its top node's height difference:
  level means that it lost a level from its old height `h`, anything else that it did not.
  */
  ghost predicate Shrunk<T>(t: Tree<T>, h: nat) {
    && t.Branch? && Balanced(t.left) && Balanced(t.right) && -2 <= Skew(t) <= 2
    && h == if Skew(t) == 0 then Height(t) + 1 else Height(t)
  }

  /** What a subtree one level shorter does to the level above it. */
  lemma ShrinkStep<T>(c: Context<T>, t: Tree<T>, h: nat)
    requires !c.Top? && BalancedContext(c, h) && Balanced(t) && Height(t) + 1 == h
    ensures BalancedContext(c.up, Raise(c, h)) && Shrunk(Widen(c, t), Raise(c, h))
  {
  }

  /** The parts that a double rotation puts together share nothing. */
  lemma ProperParts<T>(u: Tree<T>)
    requires u.Branch? && u.left.Branch? && u.right.Branch? && Proper(u)
    ensures Nodes(u.left.left) !! Nodes(u.left.right) !! Nodes(u.right.left) !! Nodes(u.right.right)
      !! {u.left.node} !! {u.node} !! {u.right.node}
    ensures Nodes(u) == Nodes(u.left.left) + Nodes(u.left.right) + Nodes(u.right.left) + Nodes(u.right.right)
                        + {u.left.node, u.node, u.right.node}
    ensures Proper(u.left) && Proper(u.right)
  {
    assert Nodes(u.left) == Nodes(u.left.left) + {u.left.node} + Nodes(u.left.right);
    assert Nodes(u.right) == Nodes(u.right.left) + {u.right.node} + Nodes(u.right.right);
  }

  // Renaming one member: a node takes the place of another

  ghost function Renamed<T>(t: Tree<T>, a: T, b: T, k: Word): Tree<T> {
    match t
    case Leaf => Leaf
    case Branch(l, n, key, r) =>
      if n == a then Branch(Renamed(l, a, b, k), b, k, Renamed(r, a, b, k))
      else Branch(Renamed(l, a, b, k), n, key, Renamed(r, a, b, k))
  }

  ghost function RenamedContext<T>(c: Context<T>, a: T, b: T, k: Word): Context<T> {
    match c
    case Top => Top
    case InLeft(up, n, key, r) =>
      if n == a then InLeft(RenamedContext(up, a, b, k), b, k, Renamed(r, a, b, k))
      else InLeft(RenamedContext(up, a, b, k), n, key, Renamed(r, a, b, k))
    case InRight(up, l, n, key) =>
      if n == a then InRight(RenamedContext(up, a, b, k), Renamed(l, a, b, k), b, k)
      else InRight(RenamedContext(up, a, b, k), Renamed(l, a, b, k), n, key)
  }

  ghost function RenamedEntries<T>(s: seq<Entry<T>>, a: T, b: T, k: Word): (r: seq<Entry<T>>)
    ensures |r| == |s|
  {
    seq(|s|, i requires 0 <= i < |s| => if s[i].node == a then Entry(b, k) else s[i])
  }

  ghost function Swap<T>(s: set<T>, a: T, b: T): set<T> {
    if a in s then s - {a} + {b} else s
  }

  lemma {:induction false} RenamedBalances<T>(t: Tree<T>, a: T, b: T, k: Word)
    ensures Height(Renamed(t, a, b, k)) == Height(t)
    ensures Balanced(t) ==> Balanced(Renamed(t, a, b, k))
    decreases t
  {
    if t.Branch? {
      RenamedBalances(t.left, a, b, k);
      RenamedBalances(t.right, a, b, k);
    }
  }

  lemma RenamedShrunk<T>(t: Tree<T>, h: nat, a: T, b: T, k: Word)
    requires Shrunk(t, h)
    ensures Shrunk(Renamed(t, a, b, k), h)
  {
    RenamedBalances(t.left, a, b, k);
    RenamedBalances(t.right, a, b, k);
  }

  lemma {:induction false} RenamedNodes<T>(t: Tree<T>, a: T, b: T, k: Word)
    requires b !in Nodes(t)
    ensures Nodes(Renamed(t, a, b, k)) == Swap(Nodes(t), a, b)
    ensures Proper(t) ==> Proper(Renamed(t, a, b, k))
    decreases t
  {
    if t.Branch? {
      RenamedNodes(t.left, a, b, k);
      RenamedNodes(t.right, a, b, k);
    }
  }

  lemma {:induction false} RenamedInOrder<T>(t: Tree<T>, a: T, b: T, k: Word)
    ensures InOrder(Renamed(t, a, b, k)) == RenamedEntries(InOrder(t), a, b, k)
    decreases t
  {
    if t.Branch? {
      RenamedInOrder(t.left, a, b, k);
      RenamedInOrder(t.right, a, b, k);
    }
  }

  lemma {:induction false} RenamedPlug<T>(c: Context<T>, t: Tree<T>, a: T, b: T, k: Word)
    ensures Plug(RenamedContext(c, a, b, k), Renamed(t, a, b, k)) == Renamed(Plug(c, t), a, b, k)
    decreases c
  {
    if !c.Top? {
      RenamedPlug(c.up, Widen(c, t), a, b, k);
    }
  }

  lemma {:induction false} RenamedBalanced<T>(c: Context<T>, h: nat, a: T, b: T, k: Word)
    requires BalancedContext(c, h) && b !in ContextNodes(c)
    ensures BalancedContext(RenamedContext(c, a, b, k), h)
    decreases c
  {
    if !c.Top? {
      RenamedBalances(Sibling(c), a, b, k);
      RenamedBalanced(c.up, Raise(c, h), a, b, k);
    }
  }

  /** Only the entry of the renamed member changes. */
  lemma RenamedMiddle<T>(low: seq<Entry<T>>, e: Entry<T>, high: seq<Entry<T>>, b: T, k: Word)
    requires forall x :: x in low || x in high ==> x.node != e.node
    ensures RenamedEntries(low + [e] + high, e.node, b, k) == low + [Entry(b, k)] + high
  {
  }

  // Height bound

  ghost function Fib(n: nat): nat {
    if n < 2 then n else Fib(n - 1) + Fib(n - 2)
  }

  ghost function Pow2(n: nat): nat {
    if n == 0 then 1 else 2 * Pow2(n - 1)
  }

  /** The largest `k` with `Pow2(k) <= n`. */
  ghost function Log2(n: nat): (k: nat)
    requires n > 0
    ensures Pow2(k) <= n < Pow2(k + 1)
  {
    if n == 1 then 0 else 1 + Log2(n / 2)
  }

  lemma {:induction false} Pow2Monotone(a: nat, b: nat)
    requires a <= b
    ensures Pow2(a) <= Pow2(b)
    decreases b
  {
    if a < b {
      Pow2Monotone(a, b - 1);
    }
  }

  lemma FibStep(n: nat)
    ensures Fib(n + 2) == Fib(n + 1) + Fib(n) && Fib(n) <= Fib(n + 1)
  {
  }

  /** An AVL tree of height h has at least Fib(h + 2) - 1 nodes. */
  lemma {:induction false} SizeAtLeastFib<T>(t: Tree<T>)
    requires Balanced(t)
    ensures Size(t) + 1 >= Fib(Height(t) + 2)
    decreases t
  {
    if t.Branch? {
      SizeAtLeastFib(t.left);
      SizeAtLeastFib(t.right);
      SumOfSides(Height(t.left), Height(t.right));
    }
  }

  lemma SumOfSides(a: nat, b: nat)
    requires -1 <= a - b <= 1
    ensures Fib(a + 2) + Fib(b + 2) >= Fib(1 + Max(a, b) + 2)
  {
    FibStep(1 + Max(a, b));
    FibStep(a + 1);
    FibStep(b + 1);
  }

  lemma {:induction false} FibDoubles(h: nat)
    requires h > 0
    ensures Fib(h + 2) > Pow2((h - 1) / 2)
  {
    if h > 2 {
      FibDoubles(h - 2);
      FibStep(h);
    }
  }

  /** Height is at most twice the number of binary digits of the count. */
  lemma HeightBound<T>(t: Tree<T>)
    requires Balanced(t) && t.Branch?
    ensures Size(t) > 0
    ensures Height(t) <= 2 * (Log2(Size(t)) + 1)
  {
    var h, k := Height(t), Log2(Size(t));
    SizeAtLeastFib(t);
    FibDoubles(h);
    if k < (h - 1) / 2 {
      Pow2Monotone(k + 1, (h - 1) / 2);
    }
  }
}
