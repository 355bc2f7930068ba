/**
The AVL tree whose nodes are also threaded on a circular list. The tree part is module
AvlTree; what is added here is that the list, read from its anchor, is at all times the
in-order walk of the tree.
*/
module IndexedTree {
  import opened MachineWords
  import opened LinkList
  import opened AvlShape
  import opened AvlLinks
  import opened AvlEdits
  import opened AvlTree

  type Walk = seq<Entry<Node>>

  /** The links that the walk `o` stands for, anchor first. */
  ghost function Threads(anchor: Link<Node>, o: Walk): (s: seq<Link<Node>>)
    ensures |s| == |o| + 1
  {
    [anchor] + seq(|o|, i requires 0 <= i < |o| => o[i].node.link)
  }

  /** Each link knows the node that it is in, and the anchor is in none. */
  ghost predicate Embedded(o: Walk, w: seq<Wire<Node>>)
    requires |w| == |o| + 1
  {
    w[0].owner == None && forall i :: 0 <= i < |o| ==> w[i + 1].owner == Some(o[i].node)
  }

  /**
  The list read from its anchor, forwards along `next` and backwards along `prev`, is the
  walk `o`.
  */
  ghost predicate Threaded(anchor: Link<Node>, o: Walk)
    reads Threads(anchor, o)
  {
    var s := Threads(anchor, o);
    Circular(s, Wires(s)) && Embedded(o, Wires(s))
  }

  lemma ThreadsInserted(anchor: Link<Node>, o: Walk, at: nat, e: Entry<Node>)
    requires at <= |o|
    ensures Threads(anchor, Inserted(o, at, e)) == Inserted(Threads(anchor, o), at + 1, e.node.link)
  {
  }

  lemma NowThreaded(anchor: Link<Node>, o: Walk, at: nat, e: Entry<Node>)
    requires at <= |o| && Ring(Inserted(Threads(anchor, o), at + 1, e.node.link))
    requires e.node.link.owner == Some(e.node) && Embedded(o, Wires(Threads(anchor, o)))
    ensures Threaded(anchor, Inserted(o, at, e))
  {
    var s := Threads(anchor, o);
    ThreadsInserted(anchor, o, at, e);
    assert Wires(Inserted(s, at + 1, e.node.link)) ==
      Inserted(Wires(s), at + 1, Wire(e.node.link.next, e.node.link.prev, e.node.link.owner));
    EmbeddedInserted(o, Wires(s), at, e, Wire(e.node.link.next, e.node.link.prev, e.node.link.owner));
  }

  lemma EmbeddedInserted(o: Walk, w: seq<Wire<Node>>, at: nat, e: Entry<Node>, x: Wire<Node>)
    requires |w| == |o| + 1 && Embedded(o, w) && at <= |o| && x.owner == Some(e.node)
    ensures Embedded(Inserted(o, at, e), Inserted(w, at + 1, x))
  {
    var o', w' := Inserted(o, at, e), Inserted(w, at + 1, x);
    forall i | 0 <= i < |o'| ensures w'[i + 1].owner == Some(o'[i].node) {
      if i != at {
        var j := if i < at then i else i - 1;
        assert o'[i] == o[j] && w'[i + 1] == w[j + 1];
      }
    }
  }

  lemma ThreadsRemoved(anchor: Link<Node>, o: Walk, at: nat)
    requires at < |o|
    ensures Threads(anchor, Removed(o, at)) == Removed(Threads(anchor, o), at + 1)
  {
  }

  lemma WiresRemoved(s: seq<Link<Node>>, i: nat)
    requires i < |s|
    ensures Wires(Removed(s, i)) == Removed(Wires(s), i)
  {
  }

  lemma NowUnthreaded(anchor: Link<Node>, o: Walk, at: nat)
    requires at < |o| && Ring(Removed(Threads(anchor, o), at + 1)) && Embedded(o, Wires(Threads(anchor, o)))
    ensures Threaded(anchor, Removed(o, at))
  {
    var s := Threads(anchor, o);
    ThreadsRemoved(anchor, o, at);
    WiresRemoved(s, at + 1);
    EmbeddedRemoved(o, Wires(s), at);
  }

  lemma EmbeddedRemoved(o: Walk, w: seq<Wire<Node>>, at: nat)
    requires |w| == |o| + 1 && Embedded(o, w) && at < |o|
    ensures Embedded(Removed(o, at), Removed(w, at + 1))
  {
    var o', w' := Removed(o, at), Removed(w, at + 1);
    forall i | 0 <= i < |o'| ensures w'[i + 1].owner == Some(o'[i].node) {
      var j := if i < at then i else i + 1;
      assert o'[i] == o[j] && w'[i + 1] == w[j + 1];
    }
  }

  /** A node that is not in the walk has a link that is not in the list. */
  lemma ThreadedOnlyMembers(anchor: Link<Node>, o: Walk, n: Node)
    requires Threaded(anchor, o) && n.link.owner == Some(n) && forall e :: e in o ==> e.node != n
    ensures n.link !in Threads(anchor, o)
  {
    var s := Threads(anchor, o);
    forall i | 0 <= i < |s| ensures s[i] != n.link {
      if i > 0 {
        assert o[i - 1] in o && s[i].owner == Some(o[i - 1].node);
      }
    }
  }

  lemma Joined(a: Walk, b: Walk)
    ensures a + [] + b == a + b
    ensures forall i :: 0 <= i < |a| ==> (a + b)[i] == a[i]
    ensures b != [] ==> (a + b)[|a|] == b[0]
  {
  }

  /** A node about to hang below `c.node` comes directly before or after it in the walk. */
  lemma BesideParent(w: Shape, c: Path)
    requires !c.Top? && w == Plug(c, Leaf)
    ensures var o, i := InOrder(w), |Before(c)|;
      && i <= |o|
      && (c.InLeft? ==> i < |o| && o[i].node == c.node)
      && (c.InRight? ==> i > 0 && o[i - 1].node == c.node)
  {
    PlugInOrder(c, Leaf);
    Joined(Before(c), After(c));
    if c.InLeft? {
      assert After(c)[0] == Entry(c.node, c.key);
    } else {
      assert Before(c)[|Before(c)| - 1] == Entry(c.node, c.key);
    }
  }

  lemma NotYetThreaded(w: Shape, n: Node)
    requires n !in Nodes(w)
    ensures forall e :: e in InOrder(w) ==> e.node != n
  {
    TreeEntries(w);
  }

  /** Each member comes up once in the walk. */
  lemma ComesOnce(w: Shape, i: nat, j: nat)
    requires Proper(w) && Ascending(InOrder(w)) && i < |InOrder(w)| && j < |InOrder(w)|
    requires InOrder(w)[i].node == InOrder(w)[j].node
    ensures i == j
  {
    OneEntry(w, InOrder(w)[i].node);
    assert InOrder(w)[i] in InOrder(w) && InOrder(w)[j] in InOrder(w);
  }

  lemma ComesUp(w: Shape, n: Node) returns (i: nat)
    requires n in Nodes(w)
    ensures i < |InOrder(w)| && InOrder(w)[i].node == n
  {
    var (c, t) := Locate(Top, w, n);
    WithoutEntries(c, t);
    i := Rank(c, t);
  }

  class AmITree {
    const tree: AmTree
    const anchor: Link<Node>

    ghost function Order(): Walk
      reads tree
    {
      InOrder(tree.shape)
    }

    /** The in-order walk of a valid tree is the list. */
    ghost predicate Valid()
      reads tree, Nodes(tree.shape), Threads(anchor, Order())
    {
      tree.Valid() && Threaded(anchor, Order())
    }

    constructor ()
      ensures Valid() && Order() == [] && fresh(tree) && fresh(anchor)
    {
      tree := new AmTree();
      anchor := new Link();
      new;
      Init(anchor);
      assert Threads(anchor, Order()) == [anchor];
    }

    /** Files and threads `n`, or hands back the node already filed under its key. */
    method Insert(n: Node) returns (existing: Node?, ghost at: nat)
      requires Valid() && n.link.owner == Some(n)
      modifies tree, Nodes(tree.shape), n, n.link, Threads(anchor, Order())
      ensures Valid()
      ensures existing == null <==> old(n.key !in tree.Keys())
      ensures existing != null ==>
        && tree.Files(existing, n.key)
        && unchanged(tree) && unchanged(n) && unchanged(n.link)
        && View(Nodes(tree.shape)) == old(View(Nodes(tree.shape)))
        && Wires(Threads(anchor, Order())) == old(Wires(Threads(anchor, Order())))
      ensures existing == null ==>
        && at <= old(|Order()|) && Order() == Inserted(old(Order()), at, Entry(n, old(n.key)))
        && tree.rotations <= old(tree.rotations) + 1
    {
      at := 0;
      ghost var m, w := View(Nodes(tree.shape)), Wires(Threads(anchor, Order()));
      if tree.root == null {
        InsertFirst(n);
        return null, 0;
      }
      var found, parent;
      ghost var c;
      found, parent, c := Descend(n);
      if found {
        assert View(Nodes(tree.shape)) == m && Wires(Threads(anchor, Order())) == w;
        return parent, 0;
      }
      at := |Before(c)|;
      Splice(n, parent, c);
      Plant(n, parent, c, Inserted(Order(), at, Entry(n, n.key)));
      existing := null;
    }

    method Descend(n: Node) returns (found: bool, parent: Node, ghost c: Path)
      requires Valid() && tree.root != null
      ensures Valid()
      ensures found <==> n.key in tree.Keys()
      ensures found ==> tree.Files(parent, n.key)
      ensures !found ==>
        && n !in Nodes(tree.shape) && !c.Top? && c.node == parent && Plug(c, Leaf) == tree.shape && Narrowed(c, n.key)
        && (c.InLeft? <==> n.key < parent.key)
    {
      ghost var s := Threads(anchor, Order());
      ghost var w := Wires(s);
      found, parent, c := tree.Descend(n);
      assert Wires(s) == w;
    }

    method InsertFirst(n: Node)
      requires Valid() && n.link.owner == Some(n) && tree.root == null
      modifies tree, n, n.link, Threads(anchor, Order())
      ensures Valid() && Order() == [Entry(n, old(n.key))]
      ensures tree.rotations == old(tree.rotations)
    {
      ghost var s := Threads(anchor, Order());
      ThreadedOnlyMembers(anchor, Order(), n);
      Add(anchor, n.link, s, 0);
      tree.InsertFirst(n);
      assert Threads(anchor, Order()) == Inserted(s, 1, n.link);
    }

    /** Threads `n` beside the node that it is about to hang below. */
    method Splice(n: Node, parent: Node, ghost c: Path)
      requires Valid() && n.link.owner == Some(n) && !c.Top? && c.node == parent && Plug(c, Leaf) == tree.shape
      requires c.InLeft? <==> n.key < parent.key
      requires n !in Nodes(tree.shape)
      modifies n.link, Threads(anchor, Order())
      ensures tree.Valid()
      ensures |Before(c)| <= |Order()| && Threaded(anchor, Inserted(Order(), |Before(c)|, Entry(n, n.key)))
    {
      ghost var m, o := View(Nodes(tree.shape)), Order();
      NotYetThreaded(tree.shape, n);
      BesideParent(tree.shape, c);
      ThreadBeside(n, parent, o, |Before(c)|);
      assert View(Nodes(tree.shape)) == m;
    }

    method ThreadBeside(n: Node, parent: Node, ghost o: Walk, ghost i: nat)
      requires Threaded(anchor, o) && i <= |o|
      requires n.key < parent.key ==> i < |o| && o[i].node == parent
      requires n.key >= parent.key ==> i > 0 && o[i - 1].node == parent
      requires n.link.owner == Some(n) && forall e :: e in o ==> e.node != n
      modifies n.link, Threads(anchor, o)
      ensures Threaded(anchor, Inserted(o, i, Entry(n, n.key)))
    {
      ghost var s := Threads(anchor, o);
      ThreadedOnlyMembers(anchor, o, n);
      if n.key < parent.key {
        assert s[i + 1] == parent.link;
        AddTail(parent.link, n.link, s, i + 1);
      } else {
        assert s[i] == parent.link;
        Add(parent.link, n.link, s, i);
      }
      NowThreaded(anchor, o, i, Entry(n, n.key));
    }

    method Plant(n: Node, parent: Node, ghost c: Path, ghost o: Walk)
      requires tree.Valid() && !c.Top? && c.node == parent && Plug(c, Leaf) == tree.shape && Narrowed(c, n.key)
      requires c.InLeft? <==> n.key < parent.key
      requires |Before(c)| <= |Order()| && o == Inserted(Order(), |Before(c)|, Entry(n, n.key))
      requires Threaded(anchor, o)
      modifies tree, Nodes(tree.shape), n
      ensures Valid() && Order() == o && n.key == old(n.key)
      ensures tree.rotations <= old(tree.rotations) + 1
    {
      ghost var s := Threads(anchor, o);
      ghost var w := Wires(s);
      tree.Plant(n, parent, c);
      assert Wires(s) == w;
    }

    /** Takes `node`, a member, out of the tree and off the list. */
    method Delete(node: Node) returns (ghost at: nat)
      requires Valid() && node in Nodes(tree.shape)
      modifies tree, Nodes(tree.shape), Threads(anchor, Order())
      ensures Valid()
      ensures at < |old(Order())| && old(Order())[at].node == node
      ensures Order() == Removed(old(Order()), at)
      ensures Nodes(tree.shape) == old(Nodes(tree.shape)) - {node}
      ensures node.link.next == null && node.link.prev == null
    {
      at := ComesUp(tree.shape, node);
      Unthread(node, at);
      Drop(node, at, Removed(Order(), at));
    }

    method Unthread(node: Node, ghost i: nat)
      requires Valid() && i < |Order()| && Order()[i].node == node
      modifies Threads(anchor, Order())
      ensures tree.Valid() && Threaded(anchor, Removed(Order(), i))
      ensures node.link.next == null && node.link.prev == null
    {
      ghost var m := View(Nodes(tree.shape));
      TakeOff(node, Order(), i);
      assert View(Nodes(tree.shape)) == m;
    }

    method TakeOff(node: Node, ghost o: Walk, ghost i: nat)
      requires Threaded(anchor, o) && i < |o| && o[i].node == node
      modifies Threads(anchor, o)
      ensures Threaded(anchor, Removed(o, i))
      ensures node.link.next == null && node.link.prev == null
    {
      ghost var s := Threads(anchor, o);
      assert s[i + 1] == node.link;
      Del(node.link, s, i + 1);
      Wipe(node.link, Removed(s, i + 1));
      NowUnthreaded(anchor, o, i);
    }

    method Drop(node: Node, ghost i: nat, ghost o: Walk)
      requires tree.Valid() && node in Nodes(tree.shape)
      requires i < |Order()| && Order()[i].node == node && o == Removed(Order(), i) && Threaded(anchor, o)
      modifies tree, Nodes(tree.shape)
      ensures Valid() && Order() == o
      ensures Nodes(tree.shape) == old(Nodes(tree.shape)) - {node}
    {
      ghost var t, s := tree.shape, Threads(anchor, o);
      ghost var w := Wires(s);
      ghost var at := tree.Delete(node);
      ComesOnce(t, i, at);
      assert Wires(s) == w;
    }

    method DeleteKey(key: Word) returns (target: Node?, ghost at: nat)
      requires Valid()
      modifies tree, Nodes(tree.shape), Threads(anchor, Order())
      ensures Valid()
      ensures target == null <==> old(key !in tree.Keys())
      ensures target == null ==> Order() == old(Order()) && tree.count == old(tree.count)
      ensures target != null ==>
        && at < |old(Order())| && old(Order())[at].node == target && old(Order())[at].key == key
        && Order() == Removed(old(Order()), at)
    {
      at := 0;
      target := Find(key);
      if target == null {
        return;
      }
      FiledOnce(tree.shape, target, key);
      at := Delete(target);
    }

    method Find(key: Word) returns (found: Node?)
      requires Valid()
      ensures Valid()
      ensures found != null ==> tree.Files(found, key)
      ensures found == null <==> key !in tree.Keys()
    {
      ghost var s := Threads(anchor, Order());
      ghost var w := Wires(s);
      ghost var steps;
      found, steps := tree.Find(key);
      assert Wires(s) == w;
    }

    /** `toInsert` takes the place of `toRemove` in the tree and on the list. */
    method Swap(toRemove: Node, toInsert: Node) returns (ghost at: nat)
      requires Valid() && toRemove in Nodes(tree.shape) && toInsert !in Nodes(tree.shape)
      requires toInsert.link.owner == Some(toInsert)
      modifies tree`root, tree`shape, Nodes(tree.shape), toInsert, Threads(anchor, Order()), toInsert.link
      ensures Valid()
      ensures at < |old(Order())| && old(Order())[at].node == toRemove
      ensures Order() == old(Order())[at := Entry(toInsert, old(toRemove.key))]
      ensures toRemove.link.next == null && toRemove.link.prev == null
    {
      at := ComesUp(tree.shape, toRemove);
      SwapThread(toRemove, toInsert, at);
      SwapNode(toRemove, toInsert, at, Order()[at := Entry(toInsert, toRemove.key)]);
    }

    method SwapThread(toRemove: Node, toInsert: Node, ghost i: nat)
      requires Valid() && i < |Order()| && Order()[i].node == toRemove && toInsert !in Nodes(tree.shape)
      requires toInsert.link.owner == Some(toInsert)
      modifies Threads(anchor, Order()), toInsert.link
      ensures tree.Valid() && Threaded(anchor, Order()[i := Entry(toInsert, toRemove.key)])
      ensures toRemove.link.next == null && toRemove.link.prev == null
    {
      ghost var m := View(Nodes(tree.shape));
      TreeEntries(tree.shape);
      RelayLink(toRemove, toInsert, Order(), i);
      assert View(Nodes(tree.shape)) == m;
    }

    /** Hands the list position of one node to another. */
    method RelayLink(toRemove: Node, toInsert: Node, ghost o: Walk, ghost i: nat)
      requires Threaded(anchor, o) && i < |o| && o[i].node == toRemove
      requires toInsert.link.owner == Some(toInsert) && forall e :: e in o ==> e.node != toInsert
      modifies Threads(anchor, o), toInsert.link
      ensures Threaded(anchor, o[i := Entry(toInsert, toRemove.key)])
      ensures toRemove.link.next == null && toRemove.link.prev == null
    {
      ghost var s := Threads(anchor, o);
      ThreadedOnlyMembers(anchor, o, toInsert);
      assert s[i + 1] == toRemove.link;
      TakeOver(toRemove.link, toInsert.link, s, i + 1);
      assert Threads(anchor, o[i := Entry(toInsert, toRemove.key)]) == s[i + 1 := toInsert.link];
    }

    method SwapNode(toRemove: Node, toInsert: Node, ghost i: nat, ghost o: Walk)
      requires tree.Valid() && toInsert !in Nodes(tree.shape) && toRemove in Nodes(tree.shape)
      requires i < |Order()| && Order()[i].node == toRemove && o == Order()[i := Entry(toInsert, toRemove.key)]
      requires Threaded(anchor, o)
      modifies tree`root, tree`shape, Nodes(tree.shape), toInsert
      ensures Valid() && Order() == o
    {
      ghost var s := Threads(anchor, o);
      ghost var w := Wires(s);
      RenamedOnce(tree.shape, toRemove, toInsert, toRemove.key, i);
      tree.Swap(toRemove, toInsert);
      assert Wires(s) == w;
    }

    // Iteration along the list

    function Smallest(): Node?
      reads tree, anchor, anchor.next
    {
      if tree.count == 0 then null else EntryOf(anchor.next)
    }

    function Largest(): Node?
      reads tree, anchor, anchor.prev
    {
      if tree.count == 0 then null else EntryOf(anchor.prev)
    }

    function Larger(n: Node): Node?
      reads n.link, n.link.next
    {
      if n.link.next == anchor then null else EntryOf(n.link.next)
    }

    function Smaller(n: Node): Node?
      reads n.link, n.link.prev
    {
      if n.link.prev == anchor then null else EntryOf(n.link.prev)
    }

    /** First and last are the extreme members; a count that has wrapped round to zero hides them. */
    lemma EndsAreExtreme()
      requires Valid()
      ensures Smallest() == null <==> tree.count == 0
      ensures Largest() == null <==> tree.count == 0
      ensures Smallest() != null ==> tree.Least(Smallest())
      ensures Largest() != null ==> tree.Greatest(Largest())
      ensures Size(tree.shape) < TWO32 ==> (tree.count == 0 <==> tree.shape.Leaf?)
    {
      ghost var o := Order();
      SizeIsLength(tree.shape);
      if tree.count != 0 {
        ListEnds(anchor, o);
        AtRank(View(Nodes(tree.shape)), tree.shape, 0, o[0].node);
        AtRank(View(Nodes(tree.shape)), tree.shape, |o| - 1, o[|o| - 1].node);
        Divided(o, 0);
        Divided(o, |o| - 1);
      }
    }

    /** Stepping along the list is stepping to the neighbouring key. */
    lemma StepsAreNeighbours(n: Node)
      requires Valid() && n in Nodes(tree.shape)
      ensures Larger(n) == null <==> NoneAbove(Order(), n.key)
      ensures Larger(n) != null ==> Larger(n) in Nodes(tree.shape) && Consecutive(Order(), n.key, Larger(n).key)
      ensures Smaller(n) == null <==> NoneBelow(Order(), n.key)
      ensures Smaller(n) != null ==> Smaller(n) in Nodes(tree.shape) && Consecutive(Order(), Smaller(n).key, n.key)
    {
      var i := ComesUp(tree.shape, n);
      ListStep(anchor, Order(), i);
      NeighbourKeys(View(Nodes(tree.shape)), tree.shape, Order(), i);
    }
  }

  lemma NeighbourKeys(m: Memory, w: Shape, o: Walk, i: nat)
    requires Proper(w) && Linked(m, w, null) && Ascending(o) && o == InOrder(w) && i < |o|
    ensures o[i].node in m && m[o[i].node].key == o[i].key
    ensures i + 1 == |o| <==> NoneAbove(o, o[i].key)
    ensures i + 1 < |o| ==>
      var r := o[i + 1].node; r in Nodes(w) && r in m && Consecutive(o, o[i].key, m[r].key)
    ensures i == 0 <==> NoneBelow(o, o[i].key)
    ensures i > 0 ==>
      var l := o[i - 1].node; l in Nodes(w) && l in m && Consecutive(o, m[l].key, o[i].key)
  {
    AtRank(m, w, i, o[i].node);
    Divided(o, i);
    if i + 1 < |o| {
      AtRank(m, w, i + 1, o[i + 1].node);
    }
    if i > 0 {
      AtRank(m, w, i - 1, o[i - 1].node);
      Divided(o, i - 1);
    }
  }

  /** The node that a link is embedded in. */
  function EntryOf(l: Link?<Node>): Node?
    reads l
  {
    if l != null && l.owner.Some? then l.owner.value else null
  }

  lemma ListEnds(anchor: Link<Node>, o: Walk)
    requires Threaded(anchor, o) && |o| > 0
    ensures EntryOf(anchor.next) == o[0].node && EntryOf(anchor.prev) == o[|o| - 1].node
  {
    var s := Threads(anchor, o);
    assert Around(s, 0) == 1 && Around(s, |o|) == 0;
    assert Wires(s)[0].next == s[1] && Wires(s)[0].prev == s[|o|];
    assert Wires(s)[1].owner == s[1].owner && Wires(s)[|o|].owner == s[|o|].owner;
  }

  lemma ListStep(anchor: Link<Node>, o: Walk, i: nat)
    requires Threaded(anchor, o) && i < |o|
    ensures var l := o[i].node.link;
      && (l.next == anchor <==> i + 1 == |o|)
      && (i + 1 < |o| ==> EntryOf(l.next) == o[i + 1].node)
      && (l.prev == anchor <==> i == 0)
      && (i > 0 ==> EntryOf(l.prev) == o[i - 1].node)
  {
    var s := Threads(anchor, o);
    assert Around(s, i) == i + 1 && Around(s, i + 1) == if i + 1 == |o| then 0 else i + 2;
    assert s[0] == anchor && s[i + 1] == o[i].node.link;
    assert Wires(s)[i + 1].next == s[i + 1].next && Wires(s)[i + 1].prev == s[i + 1].prev;
    assert Wires(s)[i].owner == s[i].owner && Wires(s)[Around(s, i + 1)].owner == s[Around(s, i + 1)].owner;
  }

  lemma AtRank(m: Memory, w: Shape, i: nat, n: Node)
    requires Proper(w) && Linked(m, w, null) && i < |InOrder(w)| && InOrder(w)[i].node == n
    ensures n in Nodes(w) && n in m && m[n].key == InOrder(w)[i].key
  {
    assert InOrder(w)[i] in InOrder(w);
    FiledOnce(w, n, InOrder(w)[i].key);
    MemberEntry(m, w, null, n);
  }

  ghost predicate NoneAbove(o: Walk, key: Word) {
    forall e :: e in o ==> e.key <= key
  }

  ghost predicate NoneBelow(o: Walk, key: Word) {
    forall e :: e in o ==> key <= e.key
  }

  /** `low` comes before `high`, and no key comes between. */
  ghost predicate Consecutive(o: Walk, low: Word, high: Word) {
    low < high && forall e :: e in o ==> e.key <= low || high <= e.key
  }

  /** A position in an ascending walk divides the keys. */
  lemma Divided(o: Walk, i: nat)
    requires Ascending(o) && i < |o|
    ensures i + 1 < |o| ==> Consecutive(o, o[i].key, o[i + 1].key)
    ensures i + 1 == |o| <==> NoneAbove(o, o[i].key)
    ensures i == 0 <==> NoneBelow(o, o[i].key)
  {
    forall e | e in o ensures e.key <= o[i].key || (i + 1 < |o| && o[i + 1].key <= e.key) {
      var j :| 0 <= j < |o| && o[j] == e;
    }
    if i == 0 {
      forall e | e in o ensures o[i].key <= e.key {
        var j :| 0 <= j < |o| && o[j] == e;
      }
    } else {
      assert o[i - 1] in o;
    }
    assert i + 1 < |o| ==> o[i + 1] in o;
  }

  lemma RenamedOnce(w: Shape, a: Node, b: Node, k: Word, i: nat)
    requires Proper(w) && Ascending(InOrder(w)) && i < |InOrder(w)| && InOrder(w)[i].node == a
    ensures RenamedEntries(InOrder(w), a, b, k) == InOrder(w)[i := Entry(b, k)]
  {
    forall j | 0 <= j < |InOrder(w)| && j != i ensures InOrder(w)[j].node != a {
      if InOrder(w)[j].node == a {
        ComesOnce(w, i, j);
      }
    }
  }
}
