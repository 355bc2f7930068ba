/**
The AVL tree with parent pointers: nodes linked in place, balance factors instead of
heights, and repair loops that walk up and stop early. Every method is proved against
the shape (module AvlShape) that the links stand for.
*/
module AvlTree {
  import opened MachineWords
  import opened LinkList
  import opened AvlShape
  import L = AvlLinks
  import opened AvlLinks
  import E = AvlEdits
  import opened AvlEdits

  class AmTree {
    var root: Node?
    var count: Word32
    ghost var shape: Shape
    /** How many rotations, single or double, there have been. */
    ghost var rotations: nat

    /** Links, keys and balance factors agree with a shape that is an AVL search tree. */
    ghost predicate Sound()
      reads this, Nodes(shape)
    {
      && Proper(shape)
      && Linked(View(Nodes(shape)), shape, null)
      && root == Root(shape)
      && Balanced(shape)
      && Ascending(InOrder(shape))
    }

    ghost predicate Valid()
      reads this, Nodes(shape)
    {
      Sound() && count == Wrap32(Size(shape))
    }

    constructor ()
      ensures Valid() && shape == Leaf
    {
      root, count, shape := null, 0, Leaf;
    }

    // Linking, as the code does it over and over

    /** Hangs `r` where `n` hangs below its parent `p`, or at the root. */
    method Hang(p: Node?, n: Node, r: Node?, ghost s: set<Node>)
      requires (p != null ==> p in s) && (r != null ==> r in s)
      modifies this`root, s
      ensures View(s) == L.Hang(old(View(s)), p, n, r)
      ensures root == if p == null then r else old(root)
    {
      if p == null {
        root := r;
      } else if p.left == n {
        p.left := r;
      } else {
        p.right := r;
      }
      assert View(s) == ReplaceChild(old(View(s)), p, n, r);
      if r != null {
        r.parent := p;
      }
    }

    method LinkLeft(n: Node, child: Node?, ghost s: set<Node>)
      requires n in s && (child != null ==> child in s)
      modifies s
      ensures View(s) == L.LinkLeft(old(View(s)), n, child)
    {
      n.left := child;
      assert View(s) == old(View(s))[n := old(View(s))[n].(left := child)];
      if child != null {
        child.parent := n;
      }
    }

    method LinkRight(n: Node, child: Node?, ghost s: set<Node>)
      requires n in s && (child != null ==> child in s)
      modifies s
      ensures View(s) == L.LinkRight(old(View(s)), n, child)
    {
      n.right := child;
      assert View(s) == old(View(s))[n := old(View(s))[n].(right := child)];
      if child != null {
        child.parent := n;
      }
    }

    method SetBalance(n: Node, b: int, ghost s: set<Node>)
      requires n in s
      modifies s
      ensures View(s) == L.SetBalance(old(View(s)), n, b)
    {
      n.balance := b;
    }

    // Rotations

    /** `child` has come up above `n`: both balances follow from its old one. */
    method BalanceSingle(n: Node, child: Node, lean: int, ghost s: set<Node>)
      requires n in s && child in s
      modifies s
      ensures View(s) == L.BalanceSingle(old(View(s)), n, child, lean)
    {
      if child.balance == 0 {
        SetBalance(n, lean, s);
        SetBalance(child, -lean, s);
      } else {
        SetBalance(n, 0, s);
        SetBalance(child, 0, s);
      }
    }

    method RotateRight(n: Node, cl: Node, ghost s: set<Node>)
      requires Covers(View(s), n, cl)
      modifies this`root, this`rotations, s
      ensures View(s) == L.RotateRight(old(View(s)), n, cl)
      ensures root == if old(n.parent) == null then cl else old(root)
      ensures rotations == old(rotations) + 1
    {
      rotations := rotations + 1;
      assert View(s) == old(View(s));
      var p := n.parent;
      var glr := cl.right;

      Hang(p, n, cl, s);
      LinkLeft(n, glr, s);
      LinkRight(cl, n, s);

      BalanceSingle(n, cl, -1, s);
    }

    method RotateLeft(n: Node, cr: Node, ghost s: set<Node>)
      requires Covers(View(s), n, cr)
      modifies this`root, this`rotations, s
      ensures View(s) == L.RotateLeft(old(View(s)), n, cr)
      ensures root == if old(n.parent) == null then cr else old(root)
      ensures rotations == old(rotations) + 1
    {
      rotations := rotations + 1;
      assert View(s) == old(View(s));
      var p := n.parent;
      var grl := cr.left;

      Hang(p, n, cr, s);
      LinkRight(n, grl, s);
      LinkLeft(cr, n, s);

      BalanceSingle(n, cr, 1, s);
    }

    /** `mid` has come up between `lo` and `hi`: all three balances follow from its old one. */
    method BalanceDouble(lo: Node, hi: Node, mid: Node, ghost s: set<Node>)
      requires lo in s && hi in s && mid in s
      modifies s
      ensures View(s) == L.BalanceDouble(old(View(s)), lo, hi, mid)
    {
      if mid.balance > 0 {
        SetBalance(lo, -1, s);
        SetBalance(hi, 0, s);
      } else if mid.balance == 0 {
        SetBalance(lo, 0, s);
        SetBalance(hi, 0, s);
      } else {
        SetBalance(lo, 0, s);
        SetBalance(hi, 1, s);
      }
      SetBalance(mid, 0, s);
    }

    /** The part that both double rotations share. */
    method RaiseMiddle(lo: Node, hi: Node, mid: Node, ghost s: set<Node>)
      requires lo in s && hi in s && mid in s
      requires (mid.left != null ==> mid.left in s) && (mid.right != null ==> mid.right in s)
      modifies s
      ensures View(s) == L.RaiseMiddle(old(View(s)), lo, hi, mid)
    {
      var inner, outer := mid.left, mid.right;
      LinkLeft(hi, outer, s);
      LinkRight(lo, inner, s);
      LinkRight(mid, hi, s);
      LinkLeft(mid, lo, s);
      BalanceDouble(lo, hi, mid, s);
    }

    method RotateRightLeft(n: Node, cr: Node, ghost s: set<Node>)
      requires cr.left != null && CoversDouble(View(s), n, cr, cr.left)
      modifies this`root, this`rotations, s
      ensures View(s) == L.RotateRightLeft(old(View(s)), n, cr, old(cr.left))
      ensures root == if old(n.parent) == null then old(cr.left) else old(root)
      ensures rotations == old(rotations) + 1
    {
      rotations := rotations + 1;
      assert View(s) == old(View(s));
      var grl := cr.left;
      Hang(n.parent, n, grl, s);
      RaiseMiddle(n, cr, grl, s);
    }

    method RotateLeftRight(n: Node, cl: Node, ghost s: set<Node>)
      requires cl.right != null && CoversDouble(View(s), n, cl, cl.right)
      modifies this`root, this`rotations, s
      ensures View(s) == L.RotateLeftRight(old(View(s)), n, cl, old(cl.right))
      ensures root == if old(n.parent) == null then old(cl.right) else old(root)
      ensures rotations == old(rotations) + 1
    {
      rotations := rotations + 1;
      assert View(s) == old(View(s));
      var glr := cl.right;
      Hang(n.parent, n, glr, s);
      RaiseMiddle(cl, n, glr, s);
    }

    /** Adds to the count, which wraps at 32 bits. */
    method ChangeCount(d: int, ghost size: nat)
      requires Sound() && count == Wrap32(size)
      modifies this`count
      ensures Sound() && count == Wrap32(size + d)
    {
      Wrap32Step(size, d);
      count := Wrap32(count + d);
    }

    // Insertion

    /** The walk is over: `c` and `t` together are the new shape. */
    ghost method Settle(s: set<Node>, c: Path, t: Shape, h: nat, all: seq<Entry<Node>>)
      requires Climbing(View(s), c, t, h, root, s, all) && Balanced(t) && (c.Top? || Height(t) == h)
      requires Ascending(all)
      modifies this`shape
      ensures Sound() && InOrder(shape) == all && Nodes(shape) == s
    {
      ClimbDone(View(s), c, t, h, root, s, all);
      shape := Plug(c, t);
    }

    /** Moves one level up after the subtree has changed its height by `delta`. */
    method Rise(p: Node, n: Node, delta: int, ghost s: set<Node>, ghost c: Path, ghost t: Shape, ghost h: nat,
                ghost all: seq<Entry<Node>>)
      requires t.Branch? && t.node == n && Above(c) == p && Climbing(View(s), c, t, h, root, s, all)
      requires Height(t) == h + delta
      modifies s
      ensures Climbing(View(s), c.up, Widen(c, t), Raise(c, h), root, s, all)
      ensures p.balance == Skew(Widen(c, t)) && p.parent == Above(c.up) && n.parent == p
    {
      ClimbTop(View(s), c, t, h, root, s, all);
      ClimbUp(View(s), View(s)[c.node := View(s)[c.node].(balance := Skew(Widen(c, t)))], c, t, h, root, s, all);
      if p.left == n {
        SetBalance(p, p.balance - delta, s);
      } else {
        SetBalance(p, p.balance + delta, s);
      }
    }

    /** Repairs the balances above `start`, whose subtree has just grown by one level. */
    method BalanceAdd(start: Node, ghost s: set<Node>, ghost c0: Path, ghost t0: Shape, ghost h0: nat,
                      ghost all: seq<Entry<Node>>)
      requires t0.Branch? && t0.node == start
      requires Climbing(View(s), c0, t0, h0, root, s, all) && Ascending(all)
      requires Balanced(t0) && Height(t0) == h0 + 1 && (Skew(t0) != 0 || Height(t0) == 1)
      modifies this`root, this`rotations, this`shape, s
      ensures Sound() && InOrder(shape) == all && Nodes(shape) == s
      ensures rotations <= old(rotations) + 1
    {
      var n := start;
      ghost var c, t, h := c0, t0, h0;
      ClimbTop(View(s), c, t, h, root, s, all);
      var p := n.parent;
      while p != null
        invariant t.Branch? && t.node == n && p == Above(c) && rotations == old(rotations)
        invariant Climbing(View(s), c, t, h, root, s, all)
        invariant Balanced(t) && Height(t) == h + 1 && (Skew(t) != 0 || Height(t) == 1)
        decreases c
      {
        var done := AddStep(p, n, s, c, t, h, all);
        if done {
          return;
        }
        c, t, h := c.up, Widen(c, t), Raise(c, h);
        n, p := n.parent, p.parent;
      }
      Settle(s, c, t, h, all);
    }

    /** One turn of the walk: `p`, above the subtree that has grown, takes note and may end it. */
    method AddStep(p: Node, n: Node, ghost s: set<Node>, ghost c: Path, ghost t: Shape, ghost h: nat,
                   ghost all: seq<Entry<Node>>)
      returns (done: bool)
      requires t.Branch? && t.node == n && p == Above(c) && Climbing(View(s), c, t, h, root, s, all) && Ascending(all)
      requires Balanced(t) && Height(t) == h + 1 && (Skew(t) != 0 || Height(t) == 1)
      modifies this`root, this`rotations, this`shape, s
      ensures rotations <= old(rotations) + 1
      ensures done ==> Sound() && InOrder(shape) == all && Nodes(shape) == s
      ensures !done ==> var t', h' := Widen(c, t), Raise(c, h);
        && Climbing(View(s), c.up, t', h', root, s, all)
        && Balanced(t') && Height(t') == h' + 1 && Skew(t') != 0
        && n.parent == p && p.parent == Above(c.up) && rotations == old(rotations)
    {
      GrowthStep(c, t, h);
      Rise(p, n, 1, s, c, t, h, all);
      if p.balance != 1 && p.balance != -1 {
        StopAdd(p, n, s, c.up, Widen(c, t), Raise(c, h), all);
        return true;
      }
      done := false;
    }

    /** The cases of the switch that end the walk. */
    method StopAdd(p: Node, n: Node, ghost s: set<Node>, ghost c: Path, ghost t: Shape, ghost h: nat,
                   ghost all: seq<Entry<Node>>)
      requires t.Branch? && t.node == p && Climbing(View(s), c, t, h, root, s, all) && Ascending(all)
      requires p.balance == Skew(t) && Balanced(t.left) && Balanced(t.right) && -2 <= Skew(t) <= 2
      requires Height(t) == if Skew(t) == 0 then h else h + 1
      requires -1 <= Skew(t) <= 1 ==> Skew(t) == 0
      requires Skew(t) == 2 ==> Root(t.right) == n && Skew(t.right) != 0
      requires Skew(t) == -2 ==> Root(t.left) == n && Skew(t.left) != 0
      modifies this`root, this`rotations, this`shape, s
      ensures Sound() && InOrder(shape) == all && Nodes(shape) == s
      ensures rotations <= old(rotations) + 1
    {
      if p.balance == 0 {
        Settle(s, c, t, h, all);
      } else if p.balance == 2 {
        FixRight(p, n, s, c, t, h, all);
      } else if p.balance == -2 {
        FixLeft(p, n, s, c, t, h, all);
      } else {
        // abort() in the original
        assert false;
      }
    }

    /** The subtree at `p` has become too heavy on the right. */
    method FixRight(p: Node, n: Node, ghost s: set<Node>, ghost c: Path, ghost t: Shape, ghost h: nat,
                    ghost all: seq<Entry<Node>>)
      requires t.Branch? && t.right.Branch? && t.node == p && t.right.node == n
      requires Climbing(View(s), c, t, h, root, s, all) && Ascending(all)
      requires Balanced(t.left) && Balanced(t.right) && Skew(t) == 2 && Skew(t.right) != 0 && Height(t) == h + 1
      modifies this`root, this`rotations, this`shape, s
      ensures Sound() && InOrder(shape) == all && Nodes(shape) == s
      ensures rotations == old(rotations) + 1
    {
      ClimbTop(View(s), c, t, h, root, s, all);
      if n.balance == 1 {
        FixOuterRight(p, n, s, c, t, h, all);
      } else {
        FixInnerRight(p, n, s, c, t, h, all);
      }
    }

    method FixOuterRight(p: Node, n: Node, ghost s: set<Node>, ghost c: Path, ghost t: Shape, ghost h: nat,
                         ghost all: seq<Entry<Node>>)
      requires t.Branch? && t.right.Branch? && t.node == p && t.right.node == n
      requires Climbing(View(s), c, t, h, root, s, all) && Ascending(all)
      requires Balanced(t.left) && Balanced(t.right) && Skew(t) == 2 && Skew(t.right) == 1 && Height(t) == h + 1
      modifies this`root, this`rotations, this`shape, s
      ensures Sound() && InOrder(shape) == all && Nodes(shape) == s
      ensures rotations == old(rotations) + 1
    {
      RotateLeftClimbs(View(s), c, t, h, root, s, all);
      RotateLeftBalances(t);
      RotateLeft(p, n, s);
      Settle(s, c, RotatedLeft(t), h, all);
    }

    /** The inner grandchild comes up above `p` and `n`, which restores the balance and costs a level. */
    method RaiseInnerRight(p: Node, n: Node, ghost s: set<Node>, ghost c: Path, ghost t: Shape, ghost h: nat,
                        ghost all: seq<Entry<Node>>)
      returns (ghost u: Shape)
      requires t.Branch? && t.right.Branch? && t.node == p && t.right.node == n
      requires Climbing(View(s), c, t, h, root, s, all)
      requires Balanced(t.left) && Balanced(t.right) && Skew(t) == 2 && Skew(t.right) == -1
      modifies this`root, this`rotations, s
      ensures Climbing(View(s), c, u, h, root, s, all) && Balanced(u) && Height(u) == Height(t) - 1
      ensures u.Branch? && p.parent == u.node
      ensures rotations == old(rotations) + 1
    {
      RotateRightLeftClimbs(View(s), c, t, h, root, s, all);
      RotateRightLeftBalances(t);
      RotateRightLeft(p, n, s);
      u := RotatedRightLeft(t);
      ClimbTop(View(s), c, u, h, root, s, all);
    }

    method FixInnerRight(p: Node, n: Node, ghost s: set<Node>, ghost c: Path, ghost t: Shape, ghost h: nat,
                         ghost all: seq<Entry<Node>>)
      requires t.Branch? && t.right.Branch? && t.node == p && t.right.node == n
      requires Climbing(View(s), c, t, h, root, s, all) && Ascending(all)
      requires Balanced(t.left) && Balanced(t.right) && Skew(t) == 2 && Skew(t.right) == -1 && Height(t) == h + 1
      modifies this`root, this`rotations, this`shape, s
      ensures Sound() && InOrder(shape) == all && Nodes(shape) == s
      ensures rotations == old(rotations) + 1
    {
      ghost var u := RaiseInnerRight(p, n, s, c, t, h, all);
      Settle(s, c, u, h, all);
    }

    /** The subtree at `p` has become too heavy on the left. */
    method FixLeft(p: Node, n: Node, ghost s: set<Node>, ghost c: Path, ghost t: Shape, ghost h: nat,
                    ghost all: seq<Entry<Node>>)
      requires t.Branch? && t.left.Branch? && t.node == p && t.left.node == n
      requires Climbing(View(s), c, t, h, root, s, all) && Ascending(all)
      requires Balanced(t.left) && Balanced(t.right) && Skew(t) == -2 && Skew(t.left) != 0 && Height(t) == h + 1
      modifies this`root, this`rotations, this`shape, s
      ensures Sound() && InOrder(shape) == all && Nodes(shape) == s
      ensures rotations == old(rotations) + 1
    {
      ClimbTop(View(s), c, t, h, root, s, all);
      if n.balance == -1 {
        FixOuterLeft(p, n, s, c, t, h, all);
      } else {
        FixInnerLeft(p, n, s, c, t, h, all);
      }
    }

    method FixOuterLeft(p: Node, n: Node, ghost s: set<Node>, ghost c: Path, ghost t: Shape, ghost h: nat,
                         ghost all: seq<Entry<Node>>)
      requires t.Branch? && t.left.Branch? && t.node == p && t.left.node == n
      requires Climbing(View(s), c, t, h, root, s, all) && Ascending(all)
      requires Balanced(t.left) && Balanced(t.right) && Skew(t) == -2 && Skew(t.left) == -1 && Height(t) == h + 1
      modifies this`root, this`rotations, this`shape, s
      ensures Sound() && InOrder(shape) == all && Nodes(shape) == s
      ensures rotations == old(rotations) + 1
    {
      RotateRightClimbs(View(s), c, t, h, root, s, all);
      RotateRightBalances(t);
      RotateRight(p, n, s);
      Settle(s, c, RotatedRight(t), h, all);
    }

    /** The inner grandchild comes up above `p` and `n`, which restores the balance and costs a level. */
    method RaiseInnerLeft(p: Node, n: Node, ghost s: set<Node>, ghost c: Path, ghost t: Shape, ghost h: nat,
                        ghost all: seq<Entry<Node>>)
      returns (ghost u: Shape)
      requires t.Branch? && t.left.Branch? && t.node == p && t.left.node == n
      requires Climbing(View(s), c, t, h, root, s, all)
      requires Balanced(t.left) && Balanced(t.right) && Skew(t) == -2 && Skew(t.left) == 1
      modifies this`root, this`rotations, s
      ensures Climbing(View(s), c, u, h, root, s, all) && Balanced(u) && Height(u) == Height(t) - 1
      ensures u.Branch? && p.parent == u.node
      ensures rotations == old(rotations) + 1
    {
      RotateLeftRightClimbs(View(s), c, t, h, root, s, all);
      RotateLeftRightBalances(t);
      RotateLeftRight(p, n, s);
      u := RotatedLeftRight(t);
      ClimbTop(View(s), c, u, h, root, s, all);
    }

    method FixInnerLeft(p: Node, n: Node, ghost s: set<Node>, ghost c: Path, ghost t: Shape, ghost h: nat,
                         ghost all: seq<Entry<Node>>)
      requires t.Branch? && t.left.Branch? && t.node == p && t.left.node == n
      requires Climbing(View(s), c, t, h, root, s, all) && Ascending(all)
      requires Balanced(t.left) && Balanced(t.right) && Skew(t) == -2 && Skew(t.left) == 1 && Height(t) == h + 1
      modifies this`root, this`rotations, this`shape, s
      ensures Sound() && InOrder(shape) == all && Nodes(shape) == s
      ensures rotations == old(rotations) + 1
    {
      ghost var u := RaiseInnerLeft(p, n, s, c, t, h, all);
      Settle(s, c, u, h, all);
    }

    // Lookup

    ghost function Keys(): set<Word>
      reads this
    {
      set e | e in InOrder(shape) :: e.key
    }

    ghost predicate Least(n: Node)
      reads this, n
    {
      n in Nodes(shape) && forall e :: e in InOrder(shape) ==> n.key <= e.key
    }

    ghost predicate Greatest(n: Node)
      reads this, n
    {
      n in Nodes(shape) && forall e :: e in InOrder(shape) ==> e.key <= n.key
    }

    ghost predicate Files(n: Node, key: Word)
      reads this
    {
      Entry(n, key) in InOrder(shape)
    }

    /** The node filed under `key`, if any, within as many steps as the tree is high. */
    method Find(key: Word) returns (found: Node?, ghost steps: nat)
      requires Valid()
      ensures found != null ==> Files(found, key)
      ensures found == null <==> key !in Keys()
      ensures steps <= Height(shape)
      ensures shape.Branch? ==> steps <= 2 * (Log2(Size(shape)) + 1)
      ensures Valid()
    {
      if shape.Branch? {
        HeightBound(shape);
      }
      steps := 0;
      var cur := root;
      ghost var m := View(Nodes(shape));
      ghost var c, t := Top, shape;
      while cur != null
        invariant Plug(c, t) == shape && cur == Root(t) && Narrowed(c, key)
        invariant Linked(m, t, Above(c))
        invariant steps + Height(t) <= Height(shape)
        decreases t
      {
        SearchStep(c, t, key);
        steps := steps + 1;
        if key > cur.key {
          cur := cur.right;
          c, t := InRight(c, t.left, t.node, t.key), t.right;
        } else if key < cur.key {
          cur := cur.left;
          c, t := InLeft(c, t.node, t.key, t.right), t.left;
        } else {
          return cur, steps;
        }
      }
      SearchFails(c, key);
      return null, steps;
    }

    /** Files `n` under its key; hands back the node already there, if any, and changes nothing then. */
    method Insert(n: Node) returns (existing: Node?, ghost at: nat)
      requires Valid()
      modifies this, Nodes(shape), n
      ensures Valid()
      ensures existing == null <==> old(n.key !in Keys())
      ensures existing != null ==>
        && Files(existing, n.key)
        && unchanged(this) && unchanged(n) && View(Nodes(shape)) == old(View(Nodes(shape)))
      ensures existing == null ==>
        && at <= old(|InOrder(shape)|)
        && InOrder(shape) == Inserted(old(InOrder(shape)), at, Entry(n, old(n.key)))
        && Nodes(shape) == old(Nodes(shape)) + {n}
        && n.key == old(n.key)
        && Size(shape) == old(Size(shape)) + 1
        && rotations <= old(rotations) + 1
    {
      at := 0;
      if root == null {
        InsertFirst(n);
        return null, 0;
      }

      ghost var m := View(Nodes(shape));
      var found, parent;
      ghost var c;
      found, parent, c := Descend(n);
      if found {
        assert View(Nodes(shape)) == m;
        return parent, 0;
      }
      at := |Before(c)|;
      Plant(n, parent, c);
      existing := null;
    }

    /** Walks down to the node filed under the key of `n`, or to the node that `n` belongs below. */
    method Descend(n: Node) returns (found: bool, parent: Node, ghost c: Path)
      requires Valid() && root != null
      ensures Valid()
      ensures found <==> n.key in Keys()
      ensures found ==> Files(parent, n.key)
      ensures !found ==>
        && n !in Nodes(shape) && !c.Top? && c.node == parent && Plug(c, Leaf) == shape && Narrowed(c, n.key)
        && (c.InLeft? <==> n.key < parent.key)
    {
      var next := root;
      ghost var m := View(Nodes(shape));
      ghost var t := shape;
      parent, c := next, Top;
      while next != null
        invariant Plug(c, t) == shape && next == Root(t) && Narrowed(c, n.key)
        invariant Linked(m, t, Above(c))
        invariant c.Top? ==> next != null
        invariant !c.Top? ==> parent == c.node && (c.InLeft? <==> n.key < parent.key)
        decreases t
      {
        SearchStep(c, t, n.key);
        parent := next;
        if n.key > parent.key {
          next := parent.right;
          c, t := InRight(c, t.left, t.node, t.key), t.right;
        } else if n.key < parent.key {
          next := parent.left;
          c, t := InLeft(c, t.node, t.key, t.right), t.left;
        } else {
          return true, parent, c;
        }
      }
      SearchFails(c, n.key);
      NewNode(m, c, n, root);
      found := false;
    }

    method InsertFirst(n: Node)
      requires Valid() && root == null
      modifies this, n
      ensures Valid() && shape == Branch(Leaf, n, n.key, Leaf)
      ensures count == 1 && n.key == old(n.key)
      ensures rotations == old(rotations)
    {
      root := n;
      count := 1;
      n.parent := null;
      n.left := null;
      n.right := null;
      n.balance := 0;
      shape := Branch(Leaf, n, n.key, Leaf);
    }

    /** Links the new leaf `n` below `parent`, where the search ended, and repairs the balances. */
    method Plant(n: Node, parent: Node, ghost c: Path)
      requires Valid() && !c.Top? && c.node == parent && Plug(c, Leaf) == shape && Narrowed(c, n.key)
      requires c.InLeft? <==> n.key < parent.key
      modifies this, Nodes(shape), n
      ensures Valid() && n.key == old(n.key)
      ensures |Before(c)| <= old(|InOrder(shape)|)
      ensures InOrder(shape) == Inserted(old(InOrder(shape)), |Before(c)|, Entry(n, old(n.key)))
      ensures Nodes(shape) == old(Nodes(shape)) + {n}
      ensures Size(shape) == old(Size(shape)) + 1
      ensures rotations <= old(rotations) + 1
    {
      PlantedEntries(c, n, n.key);
      ChangeCount(1, Size(shape));
      GrowLeaf(n, parent, c);
    }

    method GrowLeaf(n: Node, parent: Node, ghost c: Path)
      requires Sound() && !c.Top? && c.node == parent && Plug(c, Leaf) == shape && Narrowed(c, n.key)
      requires c.InLeft? <==> n.key < parent.key
      modifies this`root, this`rotations, this`shape, Nodes(shape), n
      ensures Sound()
      ensures InOrder(shape) == Before(c) + [Entry(n, old(n.key))] + After(c)
      ensures Nodes(shape) == old(Nodes(shape)) + {n}
      ensures n.key == old(n.key)
      ensures Size(shape) == old(Size(shape)) + 1
      ensures rotations <= old(rotations) + 1
    {
      ghost var t := Branch(Leaf, n, n.key, Leaf);
      ghost var s := Nodes(shape) + {n};
      ghost var all := Before(c) + [Entry(n, n.key)] + After(c);
      PlantLinks(n, parent, c, s);
      BalanceAdd(n, s, c, t, 0, all);
      PlantedSize(shape, c, n, t.key);
      PlantedKey(View(s), shape, c, n, t.key);
    }

    method PlantLinks(n: Node, parent: Node, ghost c: Path, ghost s: set<Node>)
      requires Sound() && !c.Top? && c.node == parent && Plug(c, Leaf) == shape && Narrowed(c, n.key)
      requires s == Nodes(shape) + {n}
      requires c.InLeft? <==> n.key < parent.key
      modifies s
      ensures Climbing(View(s), c, Branch(Leaf, n, old(n.key), Leaf), 0, root, s,
                       Before(c) + [Entry(n, old(n.key))] + After(c))
      ensures Ascending(Before(c) + [Entry(n, old(n.key))] + After(c))
      ensures n !in ContextNodes(c)
    {
      ghost var m := View(Nodes(shape));
      ghost var key := n.key;
      NewNode(m, c, n, root);
      PlantedAscending(c, n, key);
      n.left := null;
      n.right := null;
      n.balance := 0;
      n.parent := parent;
      if n.key < parent.key {
        parent.left := n;
      } else {
        parent.right := n;
      }
      Planted(m, View(s), c, n, key, root);
    }

    // Deletion

    /** Repairs the balances from `start` up, whose subtree has just lost a node. */
    method BalanceDel(start: Node, ghost s: set<Node>, ghost c0: Path, ghost t0: Shape, ghost h0: nat,
                      ghost all: seq<Entry<Node>>)
      requires t0.Branch? && t0.node == start
      requires Climbing(View(s), c0, t0, h0, root, s, all) && Ascending(all) && Shrunk(t0, h0)
      modifies this`root, this`rotations, this`shape, s
      ensures Sound() && InOrder(shape) == all && Nodes(shape) == s
    {
      var parent := start;
      ghost var c, t, h := c0, t0, h0;
      while true
        invariant t.Branch? && t.node == parent
        invariant Climbing(View(s), c, t, h, root, s, all) && Shrunk(t, h)
        decreases c
      {
        var stop, top;
        ghost var u;
        stop, top, u := LevelOff(parent, s, c, t, h, all);
        if stop {
          return;
        }
        var next := top.parent;
        if next == null {
          Settle(s, c, u, h, all);
          return;
        }
        ShrinkStep(c, u, h);
        Rise(next, top, -1, s, c, u, h, all);
        parent := next;
        c, t, h := c.up, Widen(c, u), Raise(c, h);
      }
    }

    /** One turn of the switch: either the walk is over, or the subtree, now led by `top`, is one level shorter. */
    method LevelOff(parent: Node, ghost s: set<Node>, ghost c: Path, ghost t: Shape, ghost h: nat,
                    ghost all: seq<Entry<Node>>)
      returns (stop: bool, top: Node, ghost u: Shape)
      requires t.Branch? && t.node == parent
      requires Climbing(View(s), c, t, h, root, s, all) && Ascending(all) && Shrunk(t, h)
      modifies this`root, this`rotations, this`shape, s
      ensures stop ==> Sound() && InOrder(shape) == all && Nodes(shape) == s
      ensures !stop ==> u.Branch? && u.node == top && top.parent == Above(c)
      ensures !stop ==> Climbing(View(s), c, u, h, root, s, all) && Balanced(u) && Height(u) + 1 == h
    {
      ClimbTop(View(s), c, t, h, root, s, all);
      if parent.balance == 0 {
        return false, parent, t;
      } else if parent.balance == 1 || parent.balance == -1 {
        Settle(s, c, t, h, all);
        return true, parent, t;
      } else if parent.balance == 2 {
        stop, top, u := LevelRight(parent, s, c, t, h, all);
      } else if parent.balance == -2 {
        stop, top, u := LevelLeft(parent, s, c, t, h, all);
      } else {
        // abort() in the original
        assert false;
        return true, parent, t;
      }
    }

    method LevelRight(parent: Node, ghost s: set<Node>, ghost c: Path, ghost t: Shape, ghost h: nat,
                      ghost all: seq<Entry<Node>>)
      returns (stop: bool, top: Node, ghost u: Shape)
      requires t.Branch? && t.node == parent && Skew(t) == 2
      requires Climbing(View(s), c, t, h, root, s, all) && Ascending(all) && Shrunk(t, h)
      modifies this`root, this`rotations, this`shape, s
      ensures stop ==> Sound() && InOrder(shape) == all && Nodes(shape) == s
      ensures !stop ==> u.Branch? && u.node == top && top.parent == Above(c)
      ensures !stop ==> Climbing(View(s), c, u, h, root, s, all) && Balanced(u) && Height(u) + 1 == h
    {
      ClimbTop(View(s), c, t, h, root, s, all);
      var child := parent.right;
      if child.balance != -1 {
        stop := SingleRight(parent, child, s, c, t, h, all);
        return stop, child, RotatedLeft(t);
      }
      u := RaiseInnerRight(parent, child, s, c, t, h, all);
      ClimbTop(View(s), c, u, h, root, s, all);
      return false, parent.parent, u;
    }

    method SingleRight(parent: Node, child: Node, ghost s: set<Node>, ghost c: Path, ghost t: Shape, ghost h: nat,
                       ghost all: seq<Entry<Node>>)
      returns (stop: bool)
      requires t.Branch? && t.right.Branch? && t.node == parent && t.right.node == child
      requires Skew(t) == 2 && Skew(t.right) >= 0
      requires Climbing(View(s), c, t, h, root, s, all) && Ascending(all) && Shrunk(t, h)
      modifies this`root, this`rotations, this`shape, s
      ensures stop ==> Sound() && InOrder(shape) == all && Nodes(shape) == s
      ensures !stop ==> child.parent == Above(c)
      ensures !stop ==> var u := RotatedLeft(t);
        u.node == child && Climbing(View(s), c, u, h, root, s, all) && Balanced(u) && Height(u) + 1 == h
    {
      RotateLeftClimbs(View(s), c, t, h, root, s, all);
      RotateLeftBalances(t);
      RotateLeft(parent, child, s);
      ClimbTop(View(s), c, RotatedLeft(t), h, root, s, all);
      stop := child.balance != 0;
      if stop {
        Settle(s, c, RotatedLeft(t), h, all);
      }
    }

    method LevelLeft(parent: Node, ghost s: set<Node>, ghost c: Path, ghost t: Shape, ghost h: nat,
                      ghost all: seq<Entry<Node>>)
      returns (stop: bool, top: Node, ghost u: Shape)
      requires t.Branch? && t.node == parent && Skew(t) == -2
      requires Climbing(View(s), c, t, h, root, s, all) && Ascending(all) && Shrunk(t, h)
      modifies this`root, this`rotations, this`shape, s
      ensures stop ==> Sound() && InOrder(shape) == all && Nodes(shape) == s
      ensures !stop ==> u.Branch? && u.node == top && top.parent == Above(c)
      ensures !stop ==> Climbing(View(s), c, u, h, root, s, all) && Balanced(u) && Height(u) + 1 == h
    {
      ClimbTop(View(s), c, t, h, root, s, all);
      var child := parent.left;
      if child.balance != 1 {
        stop := SingleLeft(parent, child, s, c, t, h, all);
        return stop, child, RotatedRight(t);
      }
      u := RaiseInnerLeft(parent, child, s, c, t, h, all);
      ClimbTop(View(s), c, u, h, root, s, all);
      return false, parent.parent, u;
    }

    method SingleLeft(parent: Node, child: Node, ghost s: set<Node>, ghost c: Path, ghost t: Shape, ghost h: nat,
                       ghost all: seq<Entry<Node>>)
      returns (stop: bool)
      requires t.Branch? && t.left.Branch? && t.node == parent && t.left.node == child
      requires Skew(t) == -2 && Skew(t.left) <= 0
      requires Climbing(View(s), c, t, h, root, s, all) && Ascending(all) && Shrunk(t, h)
      modifies this`root, this`rotations, this`shape, s
      ensures stop ==> Sound() && InOrder(shape) == all && Nodes(shape) == s
      ensures !stop ==> child.parent == Above(c)
      ensures !stop ==> var u := RotatedRight(t);
        u.node == child && Climbing(View(s), c, u, h, root, s, all) && Balanced(u) && Height(u) + 1 == h
    {
      RotateRightClimbs(View(s), c, t, h, root, s, all);
      RotateRightBalances(t);
      RotateRight(parent, child, s);
      ClimbTop(View(s), c, RotatedRight(t), h, root, s, all);
      stop := child.balance != 0;
      if stop {
        Settle(s, c, RotatedRight(t), h, all);
      }
    }

    /** A node with at most one child: the child goes up in its place. */
    method CutOut(node: Node, ghost c: Path, ghost t: Shape)
      requires Sound() && Plug(c, t) == shape && t.Branch? && t.node == node
      requires t.left.Leaf? || t.right.Leaf?
      modifies this`root, this`rotations, this`shape, Nodes(shape)
      ensures Sound() && InOrder(shape) == Without(c, t) && Nodes(shape) == old(Nodes(shape)) - {node}
    {
      ghost var m := View(Nodes(shape));
      ghost var s := Nodes(shape) - {node};
      ghost var u := OnlyChild(t);
      AtMember(m, c, t, root);
      WithoutAscending(c, t);

      var p := node.parent;
      LiftChild(p, node, s, m, c, t);
      if p == null {
        CutAtRoot(m, View(s), t);
        Settle(s, c, u, Height(u), Without(c, t));
      } else {
        RepairCut(p, s, m, c, t);
      }
    }

    /** The repair after an only child has been lifted to below `p`. */
    method RepairCut(p: Node, ghost s: set<Node>, ghost m: Memory, ghost c: Path, ghost t: Shape)
      requires !c.Top? && c.node == p && t.Branch? && (t.left.Leaf? || t.right.Leaf?)
      requires Zipped(m, c, t, Height(t), root) && Balanced(t) && BalancedContext(c, Height(t))
      requires CutCells(m, View(s), c, OnlyChild(t)) && s == Nodes(OnlyChild(t)) + ContextNodes(c)
      requires Ascending(Without(c, t))
      modifies this`root, this`rotations, this`shape, s
      ensures Sound() && InOrder(shape) == Without(c, t) && Nodes(shape) == s
    {
      CutClimbs(m, View(s), c, t, root);
      BalanceDel(p, s, c.up, Widen(c, OnlyChild(t)), Raise(c, Height(t)), Without(c, t));
    }

    method LiftChild(p: Node?, node: Node, ghost s: set<Node>, ghost m: Memory, ghost c: Path, ghost t: Shape)
      requires t.Branch? && t.node == node && Above(c) == p && (t.left.Leaf? || t.right.Leaf?)
      requires s == Nodes(OnlyChild(t)) + ContextNodes(c) && node !in s
      requires View(s + {node}) == m && Zipped(m, c, t, Height(t), root)
      requires c.InLeft? <==> p != null && p.left == node
      requires c.InLeft? ==> p.balance == Height(c.right) - Height(t)
      requires c.InRight? ==> p.balance == Height(t) - Height(c.left)
      modifies this`root, s
      ensures CutCells(m, View(s), c, OnlyChild(t))
      ensures root == if p == null then Root(OnlyChild(t)) else old(root)
    {
      assert m[node] == Cell(p, Root(t.left), Root(t.right), t.key, Skew(t));
      var child := if node.right != null then node.right else node.left;
      assert child == Root(OnlyChild(t)) && (child != null ==> child != p);
      if child != null {
        child.parent := p;
      }
      if p == null {
        root := child;
      } else if p.left == node {
        p.left := child;
        p.balance := p.balance + 1;
      } else {
        p.right := child;
        p.balance := p.balance - 1;
      }
    }

    /** Both children present, and the right one has no left child: it moves up. */
    method MoveUp(node: Node, cl: Node, cr: Node, ghost c: Path, ghost t: Shape)
      requires Sound() && Plug(c, t) == shape && t.Branch? && t.node == node
      requires t.left.Branch? && t.right.Branch? && t.left.node == cl && t.right.node == cr && t.right.left.Leaf?
      modifies this`root, this`rotations, this`shape, Nodes(shape)
      ensures Sound() && InOrder(shape) == Without(c, t) && Nodes(shape) == old(Nodes(shape)) - {node}
    {
      ghost var m := View(Nodes(shape));
      ghost var s := Nodes(shape) - {node};
      AtMember(m, c, t, root);
      WithoutAscending(c, t);
      LiftRight(node, cl, cr, Nodes(shape), c, t);
      MovedUpReady(m, View(s + {node}), View(s), c, t, old(root));
      BalanceDel(cr, s, c, t.right.(left := t.left), Height(t), Without(c, t));
    }

    method LiftRight(node: Node, cl: Node, cr: Node, ghost s: set<Node>, ghost c: Path, ghost t: Shape)
      requires t.Branch? && t.left.Branch? && t.right.Branch? && t.right.left.Leaf?
      requires t.node == node && t.left.node == cl && t.right.node == cr
      requires Zipped(View(s), c, t, Height(t), root) && s == Nodes(t) + ContextNodes(c)
      modifies this`root, s
      ensures MovedUpCells(old(View(s)), View(s), c, t)
      ensures root == if c.Top? then cr else old(root)
    {
      ghost var m := View(s);
      var p := node.parent;
      assert p == Above(c) && node in s && cl in s && cr in s;
      Hang(p, node, cr, s);
      LinkLeft(cr, cl, s);
      assert View(s)[node].balance == m[node].balance;
      SetBalance(cr, node.balance - 1, s);
      MovedUpByLinks(m, View(s), c, t, old(root));
    }

    /** The smallest node to the right of `node`, and where it hangs. */
    method SeekMin(node: Node, cr: Node, ghost c: Path, ghost t: Shape) returns (min: Node, ghost d: Path, ghost v: Shape)
      requires Sound() && Plug(c, t) == shape && t.Branch? && t.node == node
      requires t.right.Branch? && t.right.node == cr && t.right.left.Branch?
      ensures SeekingMin(c, t, d, v) && v.node == min && v.left.Leaf? && d.InLeft? && d.node != node
    {
      ghost var m := View(Nodes(shape));
      min := cr;
      d, v := InRight(c, t.left, t.node, t.key), t.right;
      SeekStart(c, t);
      AtMember(m, d, v, root);
      while min.left != null
        invariant SeekingMin(c, t, d, v) && v.node == min
        invariant v == t.right || (d.InLeft? && d.node != node)
        invariant Apart(d, v) && min in m && m[min].left == Root(v.left)
        decreases v
      {
        SeekStep(c, t, d, v);
        min := min.left;
        d, v := InLeft(d, v.node, v.key, v.right), v.left;
        AtMember(m, d, v, root);
      }
    }

    /** Cuts out a leftmost node, leaving its own links as they are. */
    method CutMin(min: Node, min_p: Node, ghost s: set<Node>, ghost d: Path, ghost v: Shape)
      requires d.InLeft? && d.node == min_p && v.Branch? && v.node == min && v.left.Leaf?
      requires s == Nodes(v) + ContextNodes(d) && Zipped(View(s), d, v, Height(v), root)
      requires min_p.balance == Height(d.right) - Height(v)
      modifies s
      ensures CutCells(old(View(s)), View(s), d, v.right)
      ensures View(s)[min] == old(View(s))[min]
    {
      ghost var m := View(s);
      assert m[min] == Cell(min_p, null, Root(v.right), v.key, Skew(v));
      assert min_p in ContextNodes(d);
      assert v.right.Branch? ==> v.right.node in Nodes(v.right);
      min_p.left := min.right;
      if min.right != null {
        min.right.parent := min_p;
      }
      min_p.balance := min_p.balance + 1;
    }

    /** Links `min` in where `node` was. */
    method TakePlace(node: Node, min: Node, p: Node?, cl: Node, cr: Node, ghost s: set<Node>)
      requires node in s && min in s && cl in s && cr in s && (p != null ==> p in s)
      requires p == node.parent && cl == node.left && cr == node.right
      modifies this`root, s
      ensures View(s) == E.TakePlace(old(View(s)), node, min)
      ensures root == if p == null then min else old(root)
    {
      SetBalance(min, node.balance, s);
      Hang(p, node, min, s);
      LinkLeft(min, cl, s);
      LinkRight(min, cr, s);
    }

    /** Cuts `min` out and links it in where `node` was. */
    method RaiseMin(node: Node, min: Node, ghost s: set<Node>, ghost c: Path, ghost t: Shape, ghost d: Path,
                    ghost v: Shape)
      returns (start: Node)
      requires MinFound(View(s), c, t, d, v, root, s) && t.node == node && v.node == min
      requires t.left.Branch? && t.right.Branch?
      modifies this`root, s
      ensures start == d.node
      ensures var w, h := Renamed(Widen(d, v.right), node, min, v.key), Raise(d, Height(v));
        && Climbing(View(s - {node}), RenamedContext(d.up, node, min, v.key), w, h, root, s - {node}, Without(c, t))
        && Shrunk(w, h)
    {
      ghost var m := View(s);
      ghost var m1;
      start, m1 := MoveMin(node, min, s, c, t, d, v);
      MinReady(m, m1, View(s - {node}), c, t, d, v, old(root), s);
    }

    /** The writes that this takes; `m1` is the memory between the cutting and the linking. */
    method MoveMin(node: Node, min: Node, ghost s: set<Node>, ghost c: Path, ghost t: Shape, ghost d: Path, ghost v: Shape)
      returns (start: Node, ghost m1: Memory)
      requires MinFound(View(s), c, t, d, v, root, s) && t.node == node && v.node == min
      requires t.left.Branch? && t.right.Branch?
      modifies this`root, s
      ensures start == d.node
      ensures CutCells(old(View(s)), m1, d, v.right) && m1.Keys == s
      ensures m1[min] == old(View(s))[min] && m1[node] == old(View(s))[node]
      ensures View(s) == E.TakePlace(m1, node, min) && root == if c.Top? then min else old(root)
    {
      ghost var m := View(s);
      assert m[node] == Cell(Above(c), t.left.node, t.right.node, t.key, Skew(t));
      var p, cl, cr, min_p := node.parent, node.left, node.right, min.parent;
      CutMin(min, min_p, s, d, v);
      m1 := View(s);
      CutElsewhere(m, m1, c, t, d, v, root, s);
      TakePlace(node, min, p, cl, cr, s);
      start := min_p;
    }

    /** Both children present, and the smallest node on the right lies deeper: it takes the place of `node`. */
    method ReplaceByMin(node: Node, cr: Node, ghost c: Path, ghost t: Shape)
      requires Sound() && Plug(c, t) == shape && t.Branch? && t.node == node
      requires t.left.Branch? && t.right.Branch? && t.right.node == cr && t.right.left.Branch?
      modifies this`root, this`rotations, this`shape, Nodes(shape)
      ensures Sound() && InOrder(shape) == Without(c, t) && Nodes(shape) == old(Nodes(shape)) - {node}
    {
      ghost var m, s := View(Nodes(shape)), Nodes(shape);
      WithoutAscending(c, t);
      var min;
      ghost var d, v;
      min, d, v := SeekMin(node, cr, c, t);
      AtMin(m, c, t, d, v, root);
      var start := RaiseMin(node, min, s, c, t, d, v);
      BalanceDel(start, s - {node}, RenamedContext(d.up, node, min, v.key), Renamed(Widen(d, v.right), node, min, v.key),
                 Raise(d, Height(v)), Without(c, t));
    }

    /** Where a member is, in the tree and in its walk. */
    lemma Place(node: Node) returns (c: Path, t: Shape, at: nat)
      requires Sound() && node in Nodes(shape)
      ensures Plug(c, t) == shape && t.Branch? && t.node == node
      ensures node.left == Root(t.left) && node.right == Root(t.right)
      ensures at < |InOrder(shape)| && InOrder(shape)[at].node == node
      ensures Without(c, t) == Removed(InOrder(shape), at) && Size(shape) == |Without(c, t)| + 1
    {
      var place := Locate(Top, shape, node);
      c, t := place.0, place.1;
      AtMember(View(Nodes(shape)), c, t, root);
      WithoutEntries(c, t);
      at := Rank(c, t);
    }

    /** Takes `node`, a member, out of the tree. */
    method Delete(node: Node) returns (ghost at: nat)
      requires Valid() && node in Nodes(shape)
      modifies this, Nodes(shape)
      ensures Valid()
      ensures at < |old(InOrder(shape))| && old(InOrder(shape))[at].node == node
      ensures InOrder(shape) == Removed(old(InOrder(shape)), at)
      ensures Nodes(shape) == old(Nodes(shape)) - {node}
    {
      ChangeCount(-1, Size(shape));
      at := Remove(node);
    }

    method Remove(node: Node) returns (ghost at: nat)
      requires Sound() && node in Nodes(shape)
      modifies this`root, this`rotations, this`shape, Nodes(shape)
      ensures Sound() && Size(shape) == old(Size(shape)) - 1
      ensures at < |old(InOrder(shape))| && old(InOrder(shape))[at].node == node
      ensures InOrder(shape) == Removed(old(InOrder(shape)), at)
      ensures Nodes(shape) == old(Nodes(shape)) - {node}
    {
      ghost var c, t;
      c, t, at := Place(node);
      Unlink(node, node.left, node.right, c, t);
    }

    /** The three ways to take a node out. */
    method Unlink(node: Node, cl: Node?, cr: Node?, ghost c: Path, ghost t: Shape)
      requires Sound() && Plug(c, t) == shape && t.Branch? && t.node == node
      requires cl == Root(t.left) && cr == Root(t.right)
      modifies this`root, this`rotations, this`shape, Nodes(shape)
      ensures Sound() && InOrder(shape) == Without(c, t) && Nodes(shape) == old(Nodes(shape)) - {node}
      ensures Size(shape) == |Without(c, t)|
    {
      AtMember(View(Nodes(shape)), c, t, root);
      if cr != null && cl != null {
        RightChild(View(Nodes(shape)), c, t, root);
        if cr.left == null {
          MoveUp(node, cl, cr, c, t);
        } else {
          ReplaceByMin(node, cr, c, t);
        }
      } else {
        CutOut(node, c, t);
      }
      SizeIsLength(shape);
    }

    /** Deletes the node filed under `key` and hands it back, if there is one. */
    method DeleteKey(key: Word) returns (target: Node?, ghost at: nat)
      requires Valid()
      modifies this, Nodes(shape)
      ensures Valid()
      ensures target == null <==> old(key !in Keys())
      ensures target == null ==> unchanged(this) && View(Nodes(shape)) == old(View(Nodes(shape)))
      ensures target != null ==>
        && at < |old(InOrder(shape))|
        && old(InOrder(shape))[at].node == target && old(InOrder(shape))[at].key == key
        && InOrder(shape) == Removed(old(InOrder(shape)), at)
        && Nodes(shape) == old(Nodes(shape)) - {target}
    {
      at := 0;
      ghost var m := View(Nodes(shape));
      ghost var steps;
      target, steps := Find(key);
      assert View(Nodes(shape)) == m;
      if target == null {
        return;
      }
      FiledOnce(shape, target, key);
      at := Delete(target);
    }

    /** `toInsert` takes the place of `toRemove`, key and all; `toRemove` is wiped. */
    method Swap(toRemove: Node, toInsert: Node)
      requires Valid() && toRemove in Nodes(shape) && toInsert !in Nodes(shape)
      modifies this`root, this`shape, Nodes(shape), toInsert
      ensures Valid()
      ensures InOrder(shape) == RenamedEntries(old(InOrder(shape)), toRemove, toInsert, old(toRemove.key))
      ensures Nodes(shape) == old(Nodes(shape)) - {toRemove} + {toInsert}
      ensures toRemove.parent == null && toRemove.left == null && toRemove.right == null
      ensures toRemove.key == 0 && toRemove.balance == 0
    {
      ghost var s := Nodes(shape) + {toInsert};
      ghost var w, u := shape, Renamed(shape, toRemove, toInsert, toRemove.key);
      SwapStart(View(Nodes(shape)), View(s), w, toRemove);
      SwapLinks(toRemove, toInsert, s, w);
      assert Nodes(u) == s - {toRemove};
      shape := u;
    }

    method SwapLinks(toRemove: Node, toInsert: Node, ghost s: set<Node>, ghost w: Shape)
      requires SwapBase(View(s), w, toRemove) && toInsert !in Nodes(w) && s == Nodes(w) + {toInsert}
      requires Balanced(w) && Ascending(InOrder(w)) && root == Root(w)
      modifies this`root, s
      ensures SwappedTo(View(s - {toRemove}), w, toRemove, toInsert, old(toRemove.key), root)
      ensures toRemove.parent == null && toRemove.left == null && toRemove.right == null
      ensures toRemove.key == 0 && toRemove.balance == 0
    {
      ghost var m := View(s);
      PutInPlace(toRemove, toInsert, s);
      SwapReady(m, View(s), View(s - {toRemove}), w, toRemove, toInsert);
      assert View(s)[toRemove] == Cell(null, null, null, 0, 0);
    }

    method PutInPlace(toRemove: Node, toInsert: Node, ghost s: set<Node>)
      requires toRemove in s && toInsert in s && toRemove != toInsert && Closed(View(s), toRemove)
      modifies this`root, s
      ensures Closed(MovedCell(old(View(s)), toRemove, toInsert), toInsert)
      ensures View(s) == Redirected(MovedCell(old(View(s)), toRemove, toInsert), toRemove, toInsert)
      ensures root == if old(toRemove.parent) == null then toInsert else old(root)
    {
      MoveCell(toRemove, toInsert, s);
      Redirect(toRemove, toInsert, s);
    }

    method MoveCell(from: Node, to: Node, ghost s: set<Node>)
      requires from in s && to in s && from != to
      modifies s
      ensures View(s) == MovedCell(old(View(s)), from, to)
    {
      to.parent, to.left, to.right, to.key, to.balance := from.parent, from.left, from.right, from.key, from.balance;
      from.parent, from.left, from.right, from.key, from.balance := null, null, null, 0, 0;
    }

    /** The neighbours of `was`, which `now` has taken over, are made to point to `now`. */
    method Redirect(was: Node, now: Node, ghost s: set<Node>)
      requires now in s && Closed(View(s), now)
      modifies this`root, s
      ensures View(s) == Redirected(old(View(s)), was, now)
      ensures root == if old(now.parent) == null then now else old(root)
    {
      if now.parent == null {
        root := now;
      } else if now.parent.left == was {
        now.parent.left := now;
      } else {
        now.parent.right := now;
      }
      assert View(s) == ReplaceChild(old(View(s)), old(View(s))[now].parent, was, now);
      Adopt(now.left, now, s);
      Adopt(now.right, now, s);
    }

    method Adopt(child: Node?, parent: Node, ghost s: set<Node>)
      requires child != null ==> child in s
      modifies s
      ensures View(s) == L.Adopt(old(View(s)), child, parent)
    {
      if child != null {
        child.parent := parent;
      }
    }
  }
}
