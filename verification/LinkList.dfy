/**
The circular doubly linked list that every container of the library threads its
members on. A list is seen as a ring: the sequence of its links in `next` order,
starting anywhere, usually at the anchor.
*/
module LinkList {
  datatype Option<+T> = None | Some(value: T)

  class Link<T> {
    var next: Link?<T>
    var prev: Link?<T>
    /** The structure that the link is embedded in; `None` for an anchor. */
    var owner: Option<T>

    constructor ()
      ensures owner == None && next == null && prev == null
    {
      next, prev, owner := null, null, None;
    }
  }

  /** The position after `i` on the way round `s`. */
  ghost function Around<T>(s: seq<T>, i: nat): nat
    requires i < |s|
  {
    if i + 1 == |s| then 0 else i + 1
  }

  ghost predicate NoRepeats<T>(s: seq<T>) {
    forall i, j :: 0 <= i < j < |s| ==> s[i] != s[j]
  }

  datatype Wire<T> = Wire(next: Link?<T>, prev: Link?<T>, owner: Option<T>)

  /** What the links of `s` hold. */
  ghost function Wires<T>(s: seq<Link<T>>): (w: seq<Wire<T>>)
    reads s
    ensures |w| == |s|
  {
    seq(|s|, i requires 0 <= i < |s| reads s => Wire(s[i].next, s[i].prev, s[i].owner))
  }

  ghost predicate Circular<T>(s: seq<Link<T>>, w: seq<Wire<T>>)
    requires |w| == |s|
  {
    && |s| > 0
    && NoRepeats(s)
    && forall i {:trigger Around(s, i)} :: 0 <= i < |s| ==> w[i].next == s[Around(s, i)] && w[Around(s, i)].prev == s[i]
  }

  /** `s` is exactly one trip round a circular list, forwards and backwards. */
  ghost predicate Ring<T>(s: seq<Link<T>>)
    reads s
  {
    Circular(s, Wires(s))
  }

  ghost function Inserted<T>(s: seq<T>, i: nat, x: T): (r: seq<T>)
    requires i <= |s|
    ensures |r| == |s| + 1
  {
    s[..i] + [x] + s[i..]
  }

  ghost function Removed<T>(s: seq<T>, i: nat): (r: seq<T>)
    requires i < |s|
    ensures |r| == |s| - 1
  {
    s[..i] + s[i + 1..]
  }

  method Init<T>(list: Link<T>)
    modifies list
    ensures Ring([list]) && list.owner == old(list.owner)
  {
    list.next := list;
    list.prev := list;
  }

  /** Splices `entry` in behind the link at position `i` of the ring `s`. */
  method Add<T>(head: Link<T>, entry: Link<T>, ghost s: seq<Link<T>>, ghost i: nat)
    requires Ring(s) && i < |s| && s[i] == head && entry !in s
    modifies s, entry
    ensures Ring(Inserted(s, i + 1, entry))
    ensures forall l :: l in s + [entry] ==> l.owner == old(l.owner)
  {
    assert s[i].next == s[Around(s, i)];
    var next := head.next;
    AddBetween(entry, head, next, s, i);
  }

  /** Splices `entry` in before the link at position `i`; before the anchor means at the end. */
  method AddTail<T>(head: Link<T>, entry: Link<T>, ghost s: seq<Link<T>>, ghost i: nat)
    requires Ring(s) && i < |s| && s[i] == head && entry !in s
    modifies s, entry
    ensures Ring(Inserted(s, if i == 0 then |s| else i, entry))
    ensures forall l :: l in s + [entry] ==> l.owner == old(l.owner)
  {
    ghost var before := if i == 0 then |s| - 1 else i - 1;
    assert Around(s, before) == i;
    var prev := head.prev;
    AddBetween(entry, prev, head, s, before);
  }

  method AddBetween<T>(entry: Link<T>, prev: Link<T>, next: Link<T>, ghost s: seq<Link<T>>, ghost i: nat)
    requires Ring(s) && i < |s| && s[i] == prev && s[Around(s, i)] == next && entry !in s
    modifies prev, next, entry
    ensures Ring(Inserted(s, i + 1, entry))
    ensures forall l :: l in s + [entry] ==> l.owner == old(l.owner)
  {
    next.prev := entry;
    entry.next := next;
    entry.prev := prev;
    prev.next := entry;
    RingInserted(s, i, entry);
  }

  lemma RingInserted<T>(s: seq<Link<T>>, i: nat, entry: Link<T>)
    requires NoRepeats(s) && i < |s| && entry !in s
    requires forall j :: 0 <= j < |s| && j != i ==> s[j].next == s[Around(s, j)] && s[Around(s, j)].prev == s[j]
    requires s[i].next == entry && entry.prev == s[i]
    requires entry.next == s[Around(s, i)] && s[Around(s, i)].prev == entry
    ensures Ring(Inserted(s, i + 1, entry))
  {
    var r := Inserted(s, i + 1, entry);
    forall j | 0 <= j < |r| ensures r[j].next == r[Around(r, j)] && r[Around(r, j)].prev == r[j] {
      if j > i + 1 {
        assert s[j - 1].next == s[Around(s, j - 1)];
      } else if j < i {
        assert s[j].next == s[Around(s, j)];
      }
    }
  }

  /** Takes the link at position `i` out of the ring; the anchor is at position 0. */
  method Del<T>(entry: Link<T>, ghost s: seq<Link<T>>, ghost i: nat)
    requires Ring(s) && 0 < i < |s| && s[i] == entry
    modifies s
    ensures Ring(Removed(s, i))
    ensures forall l :: l in s ==> l.owner == old(l.owner)
  {
    var prev, next := entry.prev, entry.next;
    assert Around(s, i - 1) == i && s[i].next == s[Around(s, i)];
    next.prev := prev;
    prev.next := next;
    RingRemoved(s, i);
  }

  /** Clears a link that is in no list. */
  method Wipe<T>(entry: Link<T>, ghost s: seq<Link<T>>)
    requires Ring(s) && entry !in s
    modifies entry`next, entry`prev
    ensures Ring(s) && entry.next == null && entry.prev == null
    ensures forall l :: l in s ==> l.owner == old(l.owner)
  {
    ghost var w := Wires(s);
    entry.next, entry.prev := null, null;
    assert Wires(s) == w;
  }

  lemma RingRemoved<T>(s: seq<Link<T>>, i: nat)
    requires NoRepeats(s) && 0 < i < |s|
    requires forall j :: 0 <= j < |s| && j != i && j != i - 1 ==>
      s[j].next == s[Around(s, j)] && s[Around(s, j)].prev == s[j]
    requires s[i - 1].next == s[Around(s, i)] && s[Around(s, i)].prev == s[i - 1]
    ensures Ring(Removed(s, i))
  {
    var r := Removed(s, i);
    forall j | 0 <= j < |r| ensures r[j].next == r[Around(r, j)] && r[Around(r, j)].prev == r[j] {
      if j >= i {
        assert s[j + 1].next == s[Around(s, j + 1)];
      } else if j < i - 1 {
        assert s[j].next == s[Around(s, j)];
      }
    }
  }

  /** Another link has taken over the neighbours of the one at position `i`. */
  lemma RingReplaced<T>(s: seq<Link<T>>, i: nat, entry: Link<T>)
    requires NoRepeats(s) && 0 < i < |s| && entry !in s
    requires forall j :: 0 <= j < |s| && j != i && j != i - 1 ==>
      s[j].next == s[Around(s, j)] && s[Around(s, j)].prev == s[j]
    requires s[i - 1].next == entry && entry.prev == s[i - 1]
    requires entry.next == s[Around(s, i)] && s[Around(s, i)].prev == entry
    ensures Ring(s[i := entry])
  {
    var r := s[i := entry];
    forall j | 0 <= j < |r| ensures r[j].next == r[Around(r, j)] && r[Around(r, j)].prev == r[j] {
      if j != i && j != i - 1 {
        assert s[j].next == s[Around(s, j)];
      }
    }
  }

  /** `entry` is copied over the link at position `i` and takes its place; that link is wiped. */
  method TakeOver<T>(was: Link<T>, entry: Link<T>, ghost s: seq<Link<T>>, ghost i: nat)
    requires Ring(s) && 0 < i < |s| && s[i] == was && entry !in s
    modifies s, entry
    ensures Ring(s[i := entry])
    ensures was.next == null && was.prev == null
    ensures forall l :: l in s + [entry] ==> l.owner == old(l.owner)
  {
    assert s[i - 1].next == s[Around(s, i - 1)] && s[i].next == s[Around(s, i)];
    entry.next, entry.prev := was.next, was.prev;
    was.next, was.prev := null, null;
    entry.next.prev := entry;
    entry.prev.next := entry;
    RingReplaced(s, i, entry);
  }

  predicate Empty<T>(list: Link<T>)
    reads list
  {
    list.next == list
  }

  lemma EmptyMeansAnchorOnly<T>(s: seq<Link<T>>)
    requires Ring(s)
    ensures Empty(s[0]) <==> |s| == 1
  {
    assert s[0].next == s[Around(s, 0)];
  }
}
