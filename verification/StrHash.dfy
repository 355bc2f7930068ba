/**
The string hash: buckets of entries, doubled as a whole when they fill up, with a list of
spare entries. Entries are told apart by the 64-bit hash of their key alone.
*/
module StrHash {
  import opened MachineWords
  import opened LinkList
  import opened Counting
  import opened Threads

  datatype Entry = Entry(key: Ptr, hash: Word, value: Ptr)
  datatype Bucket = Bucket(entries: seq<Entry>, size: Word)
  datatype Flags = Flags(fixedSize: bool, dupKeys: bool, overwrite: bool)
  datatype Attr = Attr(percent: Word, bucketLimit: Word, freeSize: Word)

  const DEFAULT_INITIAL_CAPACITY: Word := 8
  const DEFAULT_RESIZE_PERCENT: Word := 65
  const DEFAULT_RESIZE_PER_BUCKET: Word := 4

  /** The attributes in force, given those asked for. */
  function Settled(a: Attr): (s: Attr)
    ensures s.percent == (if a.percent > 0 then a.percent else 65)
    ensures s.bucketLimit == (if a.bucketLimit > 1 then a.bucketLimit else 4)
    ensures s.freeSize == a.freeSize
  {
    a.(percent := if a.percent == 0 then DEFAULT_RESIZE_PERCENT else a.percent,
       bucketLimit := if a.bucketLimit <= 1 then DEFAULT_RESIZE_PER_BUCKET else a.bucketLimit)
  }

  function Slot(h: Word, n: nat): (i: nat)
    requires n > 0
    ensures i < n
  {
    h % n
  }

  /** The number of entries at which a table of this capacity counts as full. */
  function Threshold(percent: Word, capacity: Word): Word {
    Hundredth(percent * capacity)
  }

  function Hundredth(n: int): Word {
    Wrap64(n) / 100
  }

  // What the table stands for: a map from hashes to items

  datatype Item = Item(key: Ptr, value: Ptr)
  type Items = map<Word, Item>

  ghost predicate Distinct(s: seq<Entry>) {
    forall j, k :: 0 <= j < k < |s| ==> s[j].hash != s[k].hash
  }

  ghost predicate Has(s: seq<Entry>, h: Word) {
    exists k :: 0 <= k < |s| && s[k].hash == h
  }

  /** Each entry of a list is one of `items` and belongs to slot `i` of `n`. */
  ghost predicate Files(s: seq<Entry>, i: nat, n: nat, items: Items)
    requires n > 0
  {
    && Distinct(s)
    && forall e :: e in s ==> Slot(e.hash, n) == i && e.hash in items && items[e.hash] == Item(e.key, e.value)
  }

  /** The buckets hold exactly `items`, each in its own slot, and know their sizes. */
  ghost predicate Holds(t: seq<Bucket>, items: Items) {
    && |t| > 0
    && (forall i :: 0 <= i < |t| ==> t[i].size == |t[i].entries| && Files(t[i].entries, i, |t|, items))
    && (forall h :: h in items ==> Has(t[Slot(h, |t|)].entries, h))
  }

  ghost function Sizes(): Bucket -> int {
    (b: Bucket) => b.size
  }

  function Grown(b: Bucket, e: Entry): Bucket
    requires b.size + 1 < TWO64
  {
    Bucket([e] + b.entries, b.size + 1)
  }

  /** A new entry, filed in front of its bucket, adds its item. */
  lemma GrownHolds(t: seq<Bucket>, items: Items, e: Entry)
    requires Holds(t, items) && e.hash !in items && t[Slot(e.hash, |t|)].size + 1 < TWO64
    ensures var i := Slot(e.hash, |t|);
      && Holds(t[i := Grown(t[i], e)], items[e.hash := Item(e.key, e.value)])
      && Total(t[i := Grown(t[i], e)], Sizes()) == Total(t, Sizes()) + 1
  {
    var i, n := Slot(e.hash, |t|), |t|;
    var t', items' := t[i := Grown(t[i], e)], items[e.hash := Item(e.key, e.value)];
    TotalUpdate(t, i, Grown(t[i], e), Sizes());
    forall h | h in items' ensures Has(t'[Slot(h, n)].entries, h) {
      if h == e.hash {
        assert t'[i].entries[0].hash == h;
      } else if Slot(h, n) == i {
        var k :| 0 <= k < |t[i].entries| && t[i].entries[k].hash == h;
        assert t'[i].entries[k + 1].hash == h;
      }
    }
    forall j | 0 <= j < n ensures t'[j].size == |t'[j].entries| && Files(t'[j].entries, j, n, items') {
      assert Files(t[j].entries, j, n, items);
      if j == i {
        GrownFiles(t[i].entries, i, n, items, e);
      } else {
        assert t'[j] == t[j];
      }
    }
  }

  lemma GrownFiles(s: seq<Entry>, i: nat, n: nat, items: Items, e: Entry)
    requires n > 0 && Files(s, i, n, items) && e.hash !in items && Slot(e.hash, n) == i
    ensures Files([e] + s, i, n, items[e.hash := Item(e.key, e.value)])
  {
    var s' := [e] + s;
    forall j, k | 0 <= j < k < |s'| ensures s'[j].hash != s'[k].hash {
      assert s'[k] == s[k - 1] && s[k - 1] in s;
      if j > 0 {
        assert s'[j] == s[j - 1];
      }
    }
  }

  function Shrunk(b: Bucket, k: nat): Bucket
    requires k < |b.entries| == b.size
  {
    Bucket(b.entries[..k] + b.entries[k + 1..], b.size - 1)
  }

  /** Taking an entry off its bucket takes its item away. */
  lemma ShrunkHolds(t: seq<Bucket>, items: Items, i: nat, k: nat)
    requires Holds(t, items) && i < |t| && k < |t[i].entries|
    ensures var t' := t[i := Shrunk(t[i], k)];
      && Holds(t', items - {t[i].entries[k].hash})
      && Total(t', Sizes()) == Total(t, Sizes()) - 1
    ensures t[i].entries[k].hash in items
  {
    var n, e, t' := |t|, t[i].entries[k], t[i := Shrunk(t[i], k)];
    var items' := items - {e.hash};
    TotalUpdate(t, i, Shrunk(t[i], k), Sizes());
    assert Files(t[i].entries, i, n, items) && e in t[i].entries;
    forall h | h in items' ensures Has(t'[Slot(h, n)].entries, h) {
      var j :| 0 <= j < |t[Slot(h, n)].entries| && t[Slot(h, n)].entries[j].hash == h;
      if Slot(h, n) == i {
        assert t'[i].entries[if j < k then j else j - 1] == t[i].entries[j];
      } else {
        assert t'[Slot(h, n)].entries[j].hash == h;
      }
    }
    forall j | 0 <= j < n ensures t'[j].size == |t'[j].entries| && Files(t'[j].entries, j, n, items') {
      assert Files(t[j].entries, j, n, items);
      if j == i {
        ShrunkFiles(t[i].entries, i, n, items, k);
      } else {
        OtherFiles(t[j].entries, j, n, items, e.hash);
      }
    }
  }

  lemma ShrunkFiles(s: seq<Entry>, i: nat, n: nat, items: Items, k: nat)
    requires n > 0 && Files(s, i, n, items) && k < |s|
    ensures Files(s[..k] + s[k + 1..], i, n, items - {s[k].hash})
  {
    var r := s[..k] + s[k + 1..];
    forall j | 0 <= j < |r| ensures r[j] == s[if j < k then j else j + 1] && r[j] in s && r[j].hash != s[k].hash {
    }
  }

  lemma OtherFiles(s: seq<Entry>, j: nat, n: nat, items: Items, h: Word)
    requires n > 0 && Files(s, j, n, items) && Slot(h, n) != j
    ensures Files(s, j, n, items - {h})
  {
  }

  /** Swapping out a value changes that item alone. */
  lemma RevaluedHolds(t: seq<Bucket>, items: Items, i: nat, k: nat, v: Ptr)
    requires Holds(t, items) && i < |t| && k < |t[i].entries|
    ensures t[i].entries[k].hash in items
    ensures var e := t[i].entries[k].(value := v);
      var t' := t[i := t[i].(entries := t[i].entries[k := e])];
      && Holds(t', items[e.hash := Item(e.key, v)])
      && Total(t', Sizes()) == Total(t, Sizes())
  {
    var n, e := |t|, t[i].entries[k].(value := v);
    var b' := t[i].(entries := t[i].entries[k := e]);
    var t', items' := t[i := b'], items[e.hash := Item(e.key, v)];
    TotalUpdate(t, i, b', Sizes());
    assert Files(t[i].entries, i, n, items) && t[i].entries[k] in t[i].entries;
    forall h | h in items' ensures Has(t'[Slot(h, n)].entries, h) {
      var j :| 0 <= j < |t[Slot(h, n)].entries| && t[Slot(h, n)].entries[j].hash == h;
      assert t'[Slot(h, n)].entries[j].hash == h;
    }
    forall j | 0 <= j < n ensures t'[j].size == |t'[j].entries| && Files(t'[j].entries, j, n, items') {
      assert Files(t[j].entries, j, n, items);
      if j == i {
        RevaluedFiles(t[i].entries, i, n, items, k, v);
      } else {
        OtherFilesKept(t[j].entries, j, n, items, e.hash, Item(e.key, v));
      }
    }
  }

  lemma OtherFilesKept(s: seq<Entry>, j: nat, n: nat, items: Items, h: Word, item: Item)
    requires n > 0 && Files(s, j, n, items) && Slot(h, n) != j
    ensures Files(s, j, n, items[h := item])
  {
  }

  lemma RevaluedFiles(s: seq<Entry>, i: nat, n: nat, items: Items, k: nat, v: Ptr)
    requires n > 0 && Files(s, i, n, items) && k < |s|
    ensures Files(s[k := s[k].(value := v)], i, n, items[s[k].hash := Item(s[k].key, v)])
  {
    var r := s[k := s[k].(value := v)];
    forall e | e in r ensures e == r[k] || (e in s && e.hash != s[k].hash) {
      var j :| 0 <= j < |r| && r[j] == e;
    }
    assert s[k] in s;
  }

  /** Looking through its bucket finds the entry of a hash exactly when it has an item. */
  lemma FoundInBucket(t: seq<Bucket>, items: Items, h: Word)
    requires Holds(t, items)
    ensures var s := t[Slot(h, |t|)].entries;
      && (h in items <==> Has(s, h))
      && forall k :: 0 <= k < |s| && s[k].hash == h ==> s[k] == Entry(items[h].key, h, items[h].value)
  {
    var i := Slot(h, |t|);
    var s := t[i].entries;
    assert Files(s, i, |t|, items);
    forall k | 0 <= k < |s| && s[k].hash == h ensures h in items && s[k] == Entry(items[h].key, h, items[h].value) {
      assert s[k] in s;
    }
  }

  lemma NothingHeld(t: seq<Bucket>, items: Items)
    requires Holds(t, items) && forall j :: 0 <= j < |t| ==> t[j].entries == []
    ensures items == map[]
  {
    forall h: Word ensures h !in items {
      assert !Has(t[Slot(h, |t|)].entries, h);
    }
  }

  /** While an old bucket has an entry left, a new one has not reached the end of its count. */
  lemma SizeFits(from: seq<Bucket>, i: nat, to: seq<Bucket>, k: nat, size: Word)
    requires i < |from| && from[i].size > 0 && k < |to|
    requires Total(from, Sizes()) + Total(to, Sizes()) == size
    ensures to[k].size + 1 < TWO64
  {
    TotalCovers(from, Sizes());
    TotalCovers(to, Sizes());
    assert Sizes()(from[i]) > 0 && Sizes()(to[k]) == to[k].size;
  }

  /** The items are shared out between the old buckets and the new ones. */
  ghost predicate Parted(from: seq<Bucket>, rest: Items, to: seq<Bucket>, moved: Items, items: Items, size: Word) {
    && Holds(from, rest) && Holds(to, moved)
    && rest.Keys !! moved.Keys && rest + moved == items
    && Total(from, Sizes()) + Total(to, Sizes()) == size
  }

  /** An old bucket's first entry is filed anew. */
  lemma PartedNext(from: seq<Bucket>, rest: Items, to: seq<Bucket>, moved: Items, items: Items, size: Word, i: nat)
    requires Parted(from, rest, to, moved, items, size) && i < |from| && from[i].entries != []
    ensures var e := from[i].entries[0];
      var k := Slot(e.hash, |to|);
      && to[k].size + 1 < TWO64 && |from[i].entries| == from[i].size
      && Parted(from[i := Shrunk(from[i], 0)], rest - {e.hash}, to[k := Grown(to[k], e)],
                moved[e.hash := Item(e.key, e.value)], items, size)
  {
    var e := from[i].entries[0];
    assert e in from[i].entries && Files(from[i].entries, i, |from|, rest);
    ShrunkHolds(from, rest, i, 0);
    SizeFits(from, i, to, Slot(e.hash, |to|), size);
    GrownHolds(to, moved, e);
    OneOver(rest, moved, items, e.hash);
  }

  /** When the old buckets are empty, the new ones hold everything. */
  lemma AllMoved(from: seq<Bucket>, rest: Items, to: seq<Bucket>, moved: Items, items: Items, size: Word)
    requires Parted(from, rest, to, moved, items, size) && forall j :: 0 <= j < |from| ==> from[j].entries == []
    ensures Holds(to, items) && Total(to, Sizes()) == size
  {
    NothingHeld(from, rest);
    TotalNone(from, Sizes());
  }

  lemma OneOver(rest: Items, moved: Items, items: Items, h: Word)
    requires rest.Keys !! moved.Keys && rest + moved == items && h in rest
    ensures (rest - {h}).Keys !! moved[h := rest[h]].Keys && (rest - {h}) + moved[h := rest[h]] == items
  {
  }

  lemma NoneHold(n: nat)
    requires n > 0
    ensures Holds(seq(n, _ => Bucket([], 0)), map[]) && Total(seq(n, _ => Bucket([], 0)), Sizes()) == 0
  {
    TotalNone(seq(n, _ => Bucket([], 0)), Sizes());
  }

  // The table in memory

  class AmStrHash {
    const flags: Flags
    const attr: Attr
    var freeEnts: seq<Entry>
    var freeSize: Word
    var capacity: Word
    var size: Word
    var buckets: array<Bucket>
    ghost var items: Items

    /** The buckets hold the items; every count is right; spares are kept up to their limit. */
    ghost predicate Valid()
      reads this, buckets
    {
      && buckets.Length == capacity
      && Holds(buckets[..], items)
      && size == Total(buckets[..], Sizes())
      && freeSize == |freeEnts| <= attr.freeSize
    }

    constructor (initialCapacity: Word, flags: Flags, attr: Attr)
      ensures Valid() && fresh(buckets) && items == map[] && size == 0
      ensures this.flags == flags && this.attr == Settled(attr)
      ensures capacity == if initialCapacity < 8 then 8 else initialCapacity
      ensures freeEnts == [] && freeSize == 0
      ensures size < (this.attr.percent * capacity) % TWO64 / 100 <==> (this.attr.percent * capacity) % TWO64 >= 100
    {
      var c := if initialCapacity < DEFAULT_INITIAL_CAPACITY then DEFAULT_INITIAL_CAPACITY else initialCapacity;
      this.flags, this.attr := flags, Settled(attr);
      buckets := new Bucket[c](_ => Bucket([], 0));
      capacity, size, freeEnts, freeSize := c, 0, [], 0;
      items := map[];
      new;
      TotalNone(buckets[..], Sizes());
    }

    /** The entry filed under the hash of the key, if any; `text` is what strings are in memory. */
    method Find(key: Ptr, text: Ptr -> string, hash: string -> Word) returns (found: Option<Entry>, k: nat)
      requires Valid()
      ensures var h := hash(text(key));
        && (found.None? <==> h !in items)
        && (found.Some? ==> found.value == Entry(items[h].key, h, items[h].value))
        && (found.Some? ==>
              k < |buckets[Slot(h, capacity)].entries| && buckets[Slot(h, capacity)].entries[k] == found.value)
      ensures (items, Reply(found.Some?, AsTold(found, text))) == Served(items, Get(key), flags, text, hash)
    {
      var h := hash(text(key));
      var list := buckets[Slot(h, capacity)].entries;
      FoundInBucket(buckets[..], items, h);
      k := 0;
      var i := 0;
      while i < |list|
        invariant i <= |list| && forall j :: 0 <= j < i ==> list[j].hash != h
      {
        var ent := list[i];
        if ent.hash == h {
          if ent.key != key {
            return Some(ent), i;
          }
          if text(ent.key) == text(key) {
            return Some(ent), i;
          }
        }
        i := i + 1;
      }
      found := None;
    }

    /** Twice the buckets, with every entry filed anew: the items stay what they were. */
    method Upsize()
      requires Valid() && 2 * capacity < TWO64
      modifies this`capacity, this`buckets, buckets
      ensures Valid() && fresh(buckets) && capacity == 2 * old(capacity)
    {
      var from, oldCapacity := buckets, capacity;
      capacity := 2 * capacity;
      buckets := NewBuckets(capacity);
      ghost var moved, rest: Items := map[], items;
      assert rest + moved == items;
      var i := 0;
      while i < oldCapacity
        invariant i <= oldCapacity == from.Length && buckets.Length == capacity && fresh(buckets) && from != buckets
        invariant Parted(from[..], rest, buckets[..], moved, items, size)
        invariant forall j :: 0 <= j < i ==> from[j].entries == []
        modifies from, buckets
      {
        rest, moved := MoveAll(from, i, rest, moved);
        i := i + 1;
      }
      AllMoved(from[..], rest, buckets[..], moved, items, size);
    }

    static method NewBuckets(capacity: Word) returns (b: array<Bucket>)
      requires capacity > 0
      ensures fresh(b) && b.Length == capacity && Holds(b[..], map[]) && Total(b[..], Sizes()) == 0
    {
      b := new Bucket[capacity](_ => Bucket([], 0));
      NoneHold(capacity);
      assert b[..] == seq(capacity, _ => Bucket([], 0));
    }

    /** Empties one old bucket. */
    method MoveAll(from: array<Bucket>, i: nat, ghost rest0: Items, ghost moved0: Items)
      returns (ghost rest: Items, ghost moved: Items)
      requires from != buckets && buckets.Length == capacity
      requires Parted(from[..], rest0, buckets[..], moved0, items, size) && i < from.Length
      modifies from, buckets
      ensures Parted(from[..], rest, buckets[..], moved, items, size)
      ensures from[i].entries == [] && forall j :: 0 <= j < from.Length && j != i ==> from[j] == old(from[j])
    {
      rest, moved := rest0, moved0;
      while from[i].entries != []
        invariant Parted(from[..], rest, buckets[..], moved, items, size)
        invariant forall j :: 0 <= j < from.Length && j != i ==> from[j] == old(from[j])
        decreases |from[i].entries|
      {
        rest, moved := MoveFirst(from, i, rest, moved);
      }
    }

    /** Takes the first entry of an old bucket over to where it belongs now. */
    method MoveFirst(from: array<Bucket>, i: nat, ghost rest: Items, ghost moved: Items)
      returns (ghost rest': Items, ghost moved': Items)
      requires from != buckets && buckets.Length == capacity && Parted(from[..], rest, buckets[..], moved, items, size)
      requires i < from.Length && from[i].entries != []
      modifies from, buckets
      ensures Parted(from[..], rest', buckets[..], moved', items, size)
      ensures forall j :: 0 <= j < from.Length && j != i ==> from[j] == old(from[j])
      ensures from[i].entries == old(from[i].entries)[1..]
    {
      var ent := from[i].entries[0];
      ghost var f, t := from[..], buckets[..];
      PartedNext(f, rest, t, moved, items, size, i);
      from[i] := Shrunk(from[i], 0);
      var to := Slot(ent.hash, capacity);
      buckets[to] := Grown(buckets[to], ent);
      assert from[..] == f[i := Shrunk(f[i], 0)] && buckets[..] == t[to := Grown(t[to], ent)];
      rest', moved' := rest - {ent.hash}, moved[ent.hash := Item(ent.key, ent.value)];
    }

    /** There are fewer entries than the table counts as full. */
    ghost predicate Loaded()
      reads this
    {
      size < Threshold(attr.percent, capacity)
    }

    /** One more entry for this hash would reach a limit, of the table or of its bucket. */
    predicate Crowded(h: Word)
      requires 0 < capacity == buckets.Length
      reads this, buckets
    {
      size + 1 >= Threshold(attr.percent, capacity) || buckets[Slot(h, capacity)].size + 1 >= attr.bucketLimit
    }

    /** The same, with the limits as they are computed. */
    method InsertEntry(key: Ptr, value: Ptr, text: Ptr -> string, hash: string -> Word, copy: Ptr)
      returns (ok: bool, existing: Option<Entry>, released: Option<Item>)
      requires Valid() && (hash(text(key)) !in items ==> size + 1 < TWO64)
      requires hash(text(key)) !in items && !flags.fixedSize && Crowded(hash(text(key))) ==> 2 * capacity < TWO64
      modifies this, buckets
      ensures Valid() && (buckets == old(buckets) || fresh(buckets))
      ensures (items, Reply(ok, if released.Some? then Some(Named(released.value, text)) else AsTold(existing, text)))
        == Served(old(items), Put(key, value, copy), flags, text, hash)
      ensures var h := hash(text(key));
        && (h !in old(items) ==>
              && ok && existing.None? && released.None?
              && items == old(items)[h := Item(if flags.dupKeys then copy else key, value)]
              && size == old(size) + 1)
        && (h in old(items) && flags.overwrite ==>
              && ok && existing.None? && released == Some(Item(key, old(items)[h].value))
              && items == old(items)[h := Item(old(items)[h].key, value)] && size == old(size))
        && (h in old(items) && !flags.overwrite ==>
              && !ok && existing == Some(Entry(old(items)[h].key, h, old(items)[h].value)) && released.None?
              && items == old(items) && size == old(size))
      ensures capacity == (if flags.fixedSize || hash(text(key)) in old(items) || !old(Crowded(hash(text(key))))
        then old(capacity) else 2 * old(capacity))
      ensures !flags.fixedSize && old(Loaded()) && attr.percent * (2 * old(capacity)) < TWO64 ==> Loaded()
      ensures freeSize == if hash(text(key)) in old(items) || old(freeSize) == 0 then old(freeSize) else old(freeSize) - 1
    {
      existing, released := None, None;
      var h := hash(text(key));
      var found, k := Find(key, text, hash);
      if found.Some? {
        if flags.overwrite {
          released := Some(Item(key, found.value.value));
          SetValue(h, k, value);
          return true, None, released;
        }
        return false, found, None;
      }
      if !flags.fixedSize {
        var shouldResize := Crowded(h);
        LoadStep(attr.percent, capacity, size);
        if shouldResize {
          Upsize();
        }
      }
      EntNew(key, h, value, copy);
      ok := true;
    }

    /**
    Adds an item under a new hash; hands over or refuses the value when the hash is taken.
    `copy` is where a duplicate of the key would be put, `released` what the delete
    callback is told.
    */
    method Insert(key: Ptr, value: Ptr, text: Ptr -> string, hash: string -> Word, copy: Ptr)
      returns (ok: bool, existing: Option<Entry>, released: Option<Item>)
      requires Valid() && (hash(text(key)) !in items ==> size + 1 < TWO64)
      requires (
        && hash(text(key)) !in items && !flags.fixedSize
        && (size + 1 >= (attr.percent * capacity) % TWO64 / 100
            || |buckets[hash(text(key)) % capacity].entries| + 1 >= attr.bucketLimit)
        ==> 2 * capacity < TWO64)
      modifies this, buckets
      ensures Valid() && (buckets == old(buckets) || fresh(buckets))
      ensures (items, Reply(ok, if released.Some? then Some(Named(released.value, text)) else AsTold(existing, text)))
        == Served(old(items), Put(key, value, copy), flags, text, hash)
      ensures var h := hash(text(key));
        && (h !in old(items) ==>
              && ok && existing.None? && released.None?
              && items == old(items)[h := Item(if flags.dupKeys then copy else key, value)]
              && size == old(size) + 1)
        && (h in old(items) && flags.overwrite ==>
              && ok && existing.None? && released == Some(Item(key, old(items)[h].value))
              && items == old(items)[h := Item(old(items)[h].key, value)] && size == old(size))
        && (h in old(items) && !flags.overwrite ==>
              && !ok && existing == Some(Entry(old(items)[h].key, h, old(items)[h].value)) && released.None?
              && items == old(items) && size == old(size))
      ensures capacity == (if flags.fixedSize || hash(text(key)) in old(items)
          || (old(size) + 1 < (attr.percent * old(capacity)) % TWO64 / 100
              && old(|buckets[hash(text(key)) % capacity].entries|) + 1 < attr.bucketLimit)
        then old(capacity) else 2 * old(capacity))
      ensures (
        && !flags.fixedSize && attr.percent * (2 * old(capacity)) < TWO64
        && old(size) < (attr.percent * old(capacity)) / 100
        ==> size < (attr.percent * capacity) / 100)
      ensures freeSize == if hash(text(key)) in old(items) || old(freeSize) == 0 then old(freeSize) else old(freeSize) - 1
    {
      Spelt(attr.percent, capacity);
      Spelt(attr.percent, 2 * capacity);
      TwiceProduct(attr.percent, capacity);
      var h := hash(text(key));
      assert buckets[..][Slot(h, capacity)].size == |buckets[..][Slot(h, capacity)].entries|;
      ok, existing, released := InsertEntry(key, value, text, hash, copy);
    }

    method SetValue(h: Word, k: nat, value: Ptr)
      requires Valid() && k < |buckets[Slot(h, capacity)].entries| && buckets[Slot(h, capacity)].entries[k].hash == h
      modifies this`items, buckets
      ensures Valid() && h in old(items) && items == old(items)[h := Item(old(items)[h].key, value)]
    {
      var i := Slot(h, capacity);
      ghost var t := buckets[..];
      RevaluedHolds(t, items, i, k, value);
      FoundInBucket(t, items, h);
      var e := buckets[i].entries[k].(value := value);
      buckets[i] := buckets[i].(entries := buckets[i].entries[k := e]);
      assert buckets[..] == t[i := t[i].(entries := t[i].entries[k := e])];
      items := items[h := Item(e.key, value)];
    }

    /** Files a new entry, made from a spare if there is one. */
    method EntNew(key: Ptr, h: Word, value: Ptr, copy: Ptr)
      requires Valid() && h !in items && size + 1 < TWO64
      modifies this`items, this`size, this`freeEnts, this`freeSize, buckets
      ensures Valid() && size == old(size) + 1
      ensures items == old(items)[h := Item(if flags.dupKeys then copy else key, value)]
      ensures freeSize == if old(freeSize) > 0 then old(freeSize) - 1 else 0
    {
      if freeEnts != [] {
        assert freeSize > 0;
        freeEnts := freeEnts[1..];
        freeSize := freeSize - 1;
      } else {
        assert freeSize == 0;
      }
      var ent := Entry(if flags.dupKeys then copy else key, h, value);
      var i := Slot(h, capacity);
      ghost var t := buckets[..];
      TotalCovers(t, Sizes());
      assert Sizes()(t[i]) <= size;
      GrownHolds(t, items, ent);
      buckets[i] := Grown(buckets[i], ent);
      assert buckets[..] == t[i := Grown(t[i], ent)];
      size := size + 1;
      items := items[h := Item(ent.key, value)];
    }

    /** Takes a located entry out, keeping it as a spare if there is room. */
    method EntRemove(i: nat, k: nat) returns (released: Item)
      requires Valid() && i < capacity && k < |buckets[i].entries|
      modifies this`items, this`size, this`freeEnts, this`freeSize, buckets
      ensures Valid() && size == old(size) - 1
      ensures freeSize == if old(freeSize) < attr.freeSize then old(freeSize) + 1 else old(freeSize)
      ensures var h := old(buckets[i].entries[k].hash);
        h in old(items) && released == old(items)[h] && items == old(items) - {h}
    {
      var ent := buckets[i].entries[k];
      ghost var t := buckets[..];
      ShrunkHolds(t, items, i, k);
      TotalCovers(t, Sizes());
      assert Files(t[i].entries, i, |t|, items) && ent in t[i].entries;
      assert Sizes()(t[i]) <= size && Slot(ent.hash, capacity) == i;

      released := Item(ent.key, ent.value);
      buckets[Slot(ent.hash, capacity)] := Shrunk(buckets[Slot(ent.hash, capacity)], k);
      assert buckets[..] == t[i := Shrunk(t[i], k)];
      size := size - 1;
      if freeSize < attr.freeSize {
        freeEnts := [Entry(0, ent.hash, 0)] + freeEnts;
        freeSize := freeSize + 1;
      }
      items := items - {ent.hash};
    }

    method RemoveKey(key: Ptr, text: Ptr -> string, hash: string -> Word) returns (ok: bool, released: Option<Item>)
      requires Valid()
      modifies this, buckets
      ensures Valid() && capacity == old(capacity)
      ensures var h := hash(text(key));
        && ok == (h in old(items))
        && items == old(items) - {h}
        && released == (if h in old(items) then Some(old(items)[h]) else None)
      ensures (items, Reply(ok, if released.Some? then Some(Named(released.value, text)) else None))
        == Served(old(items), Drop(key), flags, text, hash)
      ensures var limit := (attr.percent * capacity) % TWO64 / 100; old(size) < limit ==> size < limit
      ensures size == old(size) - if ok then 1 else 0
    {
      var found, k := Find(key, text, hash);
      if found.None? {
        return false, None;
      }
      var item := EntRemove(Slot(found.value.hash, capacity), k);
      return true, Some(item);
    }
  }

  /** The threshold in so many words. */
  lemma Spelt(percent: Word, capacity: nat)
    ensures capacity < TWO64 ==> Threshold(percent, capacity) == (percent * capacity) % TWO64 / 100
    ensures capacity < TWO64 && percent * capacity < TWO64 ==> Threshold(percent, capacity) == (percent * capacity) / 100
  {
    TimesNotNegative(percent, capacity);
    if percent * capacity < TWO64 {
      Small(percent * capacity);
    }
  }

  lemma TimesNotNegative(a: nat, b: nat)
    ensures a * b >= 0
  {
  }

  /** One doubling is enough to keep the entries below the threshold. */
  lemma LoadStep(percent: Word, capacity: Word, size: Word)
    ensures size < Threshold(percent, capacity) && 2 * capacity < TWO64 && percent * (2 * capacity) < TWO64 ==>
      size + 1 < Threshold(percent, 2 * capacity)
  {
    TwiceProduct(percent, capacity);
    LoadDoubles(percent * capacity, percent * (2 * capacity), size);
  }

  lemma TwiceProduct(a: nat, b: nat)
    ensures a * (2 * b) == 2 * (a * b) && a * b >= 0
  {
  }

  lemma LoadDoubles(x: nat, y: nat, size: Word)
    requires y == 2 * x
    ensures y < TWO64 && size < Hundredth(x) ==> size + 1 < Hundredth(y)
  {
    if y < TWO64 && size < Hundredth(x) {
      Small(x);
      Small(y);
      Doubled(x, size);
    }
  }

  lemma Small(x: nat)
    requires x < TWO64
    ensures x % TWO64 == x
  {
  }

  lemma Doubled(x: nat, size: nat)
    requires size < x / 100
    ensures size + 1 < (2 * x) / 100
  {
    assert 100 * (size + 1) <= x;
  }

  // The table as a map from strings

  /** A request to the table; `copy` is where a duplicate of the key would be put. */
  datatype Op = Put(key: Ptr, value: Ptr, copy: Ptr) | Get(key: Ptr) | Drop(key: Ptr)

  /** A string with the value that goes with it. */
  datatype Pair = Pair(name: string, value: Ptr)

  /** What a caller learns: success or failure, and the entry handed back or reported as released. */
  datatype Reply = Reply(ok: bool, told: Option<Pair>)

  function Named(item: Item, text: Ptr -> string): Pair {
    Pair(text(item.key), item.value)
  }

  function AsTold(found: Option<Entry>, text: Ptr -> string): Option<Pair> {
    if found.Some? then Some(Pair(text(found.value.key), found.value.value)) else None
  }

  ghost function Looked(items: Items, h: Word, text: Ptr -> string): Reply {
    if h in items then Reply(true, Some(Named(items[h], text))) else Reply(false, None)
  }

  /** What becomes of the items, and what the caller learns, when the hash alone decides. */
  ghost function Served(items: Items, op: Op, flags: Flags, text: Ptr -> string, hash: string -> Word): (Items, Reply) {
    var h := hash(text(op.key));
    match op
    case Put(key, value, copy) =>
      if h !in items then (items[h := Item(if flags.dupKeys then copy else key, value)], Reply(true, None))
      else if flags.overwrite then
        (items[h := Item(items[h].key, value)], Reply(true, Some(Pair(text(key), items[h].value))))
      else (items, Reply(false, Some(Named(items[h], text))))
    case Get(_) => (items, Looked(items, h, text))
    case Drop(_) => (items - {h}, Looked(items, h, text))
  }

  type Dict = map<string, Ptr>

  ghost function LookedUp(dict: Dict, s: string): Reply {
    if s in dict then Reply(true, Some(Pair(s, dict[s]))) else Reply(false, None)
  }

  /** What the caller of a map from strings expects of the same request. */
  ghost function Expected(dict: Dict, op: Op, overwrite: bool, text: Ptr -> string): (Dict, Reply) {
    var s := text(op.key);
    match op
    case Put(_, value, _) =>
      if s !in dict then (dict[s := value], Reply(true, None))
      else if overwrite then (dict[s := value], Reply(true, Some(Pair(s, dict[s]))))
      else (dict, Reply(false, Some(Pair(s, dict[s]))))
    case Get(_) => (dict, LookedUp(dict, s))
    case Drop(_) => (dict - {s}, LookedUp(dict, s))
  }

  /** The items are the strings of `dict` with their values, each under the hash of its own string. */
  ghost predicate Mirrors(items: Items, dict: Dict, text: Ptr -> string, hash: string -> Word) {
    && (forall s :: s in dict ==> hash(s) in items && Named(items[hash(s)], text) == Pair(s, dict[s]))
    && (forall h :: h in items ==> text(items[h].key) in dict && hash(text(items[h].key)) == h)
  }

  /** Some other string in the map has the hash of `s`. */
  ghost predicate Clashes(dict: Dict, s: string, hash: string -> Word) {
    exists t :: t in dict && t != s && hash(t) == hash(s)
  }

  /** A duplicate reads like the key that it was made from. */
  ghost predicate Copied(op: Op, flags: Flags, text: Ptr -> string) {
    op.Put? && flags.dupKeys ==> text(op.copy) == text(op.key)
  }

  /** What the table finds under a hash is the string that was asked for, or another that clashes with it. */
  lemma ClashIsFound(items: Items, dict: Dict, s: string, text: Ptr -> string, hash: string -> Word)
    requires Mirrors(items, dict, text, hash)
    ensures Clashes(dict, s, hash) <==> hash(s) in items && text(items[hash(s)].key) != s
    ensures Clashes(dict, s, hash) ==> s !in dict
    ensures !Clashes(dict, s, hash) ==> (hash(s) in items <==> s in dict)
  {
    if hash(s) in items {
      var t := text(items[hash(s)].key);
      assert t in dict && hash(t) == hash(s);
    }
  }

  /** The answer is that of a map from strings exactly if the string clashes with none in the map. */
  lemma AnswersByText(items: Items, dict: Dict, op: Op, flags: Flags, text: Ptr -> string, hash: string -> Word)
    requires Mirrors(items, dict, text, hash)
    ensures Served(items, op, flags, text, hash).1 == Expected(dict, op, flags.overwrite, text).1
      <==> !Clashes(dict, text(op.key), hash)
  {
    ClashIsFound(items, dict, text(op.key), text, hash);
  }

  /** And then it stays one. */
  lemma StaysMirrored(items: Items, dict: Dict, op: Op, flags: Flags, text: Ptr -> string, hash: string -> Word)
    requires Mirrors(items, dict, text, hash) && Copied(op, flags, text) && !Clashes(dict, text(op.key), hash)
    ensures Mirrors(Served(items, op, flags, text, hash).0, Expected(dict, op, flags.overwrite, text).0, text, hash)
  {
    var s := text(op.key);
    var items', dict' := Served(items, op, flags, text, hash).0, Expected(dict, op, flags.overwrite, text).0;
    ClashIsFound(items, dict, s, text, hash);
    forall t | t in dict' ensures hash(t) in items' && Named(items'[hash(t)], text) == Pair(t, dict'[t]) {
      assert t != s ==> t in dict && hash(t) != hash(s);
    }
    forall h | h in items' ensures text(items'[h].key) in dict' && hash(text(items'[h].key)) == h {
      assert h != hash(s) ==> h in items && text(items[h].key) != s;
    }
  }

  ghost function Replies(items: Items, ops: seq<Op>, flags: Flags, text: Ptr -> string, hash: string -> Word): seq<Reply>
    decreases |ops|
  {
    if ops == [] then [] else
      var (items', reply) := Served(items, ops[0], flags, text, hash);
      [reply] + Replies(items', ops[1..], flags, text, hash)
  }

  ghost function ExpectedReplies(dict: Dict, ops: seq<Op>, overwrite: bool, text: Ptr -> string): seq<Reply>
    decreases |ops|
  {
    if ops == [] then [] else
      var (dict', reply) := Expected(dict, ops[0], overwrite, text);
      [reply] + ExpectedReplies(dict', ops[1..], overwrite, text)
  }

  /** No request in the run clashes with a string that is in the map at the time. */
  ghost predicate ClashFree(dict: Dict, ops: seq<Op>, overwrite: bool, text: Ptr -> string, hash: string -> Word)
    decreases |ops|
  {
    ops != [] ==>
      && !Clashes(dict, text(ops[0].key), hash)
      && ClashFree(Expected(dict, ops[0], overwrite, text).0, ops[1..], overwrite, text, hash)
  }

  lemma {:induction false} RunByText(items: Items, dict: Dict, ops: seq<Op>, flags: Flags, text: Ptr -> string,
                                     hash: string -> Word)
    requires Mirrors(items, dict, text, hash) && forall op :: op in ops ==> Copied(op, flags, text)
    ensures Replies(items, ops, flags, text, hash) == ExpectedReplies(dict, ops, flags.overwrite, text)
      <==> ClashFree(dict, ops, flags.overwrite, text, hash)
    decreases |ops|
  {
    if ops != [] {
      var op, rest := ops[0], ops[1..];
      var (items', reply) := Served(items, op, flags, text, hash);
      var (dict', wanted) := Expected(dict, op, flags.overwrite, text);
      AnswersByText(items, dict, op, flags, text, hash);
      if reply == wanted {
        StaysMirrored(items, dict, op, flags, text, hash);
        RunByText(items', dict', rest, flags, text, hash);
        assert Replies(items, ops, flags, text, hash)[1..] == Replies(items', rest, flags, text, hash);
        assert ExpectedReplies(dict, ops, flags.overwrite, text)[1..] == ExpectedReplies(dict', rest, flags.overwrite, text);
      } else {
        assert Replies(items, ops, flags, text, hash)[0] != ExpectedReplies(dict, ops, flags.overwrite, text)[0];
      }
    }
  }

  /**
  From an empty table on, over any run of insertions, lookups and removals, all answers are
  those of a map from strings if and only if no string asked about shares its hash with
  another one present at the time.
  */
  lemma MapOfStrings(ops: seq<Op>, flags: Flags, text: Ptr -> string, hash: string -> Word)
    requires forall op :: op in ops ==> Copied(op, flags, text)
    ensures Replies(map[], ops, flags, text, hash) == ExpectedReplies(map[], ops, flags.overwrite, text)
      <==> ClashFree(map[], ops, flags.overwrite, text, hash)
  {
    RunByText(map[], map[], ops, flags, text, hash);
  }

  /** The strings that are in the map or are asked about. */
  ghost function Names(dict: Dict, ops: seq<Op>, text: Ptr -> string): set<string> {
    dict.Keys + set op | op in ops :: text(op.key)
  }

  /** It is enough that no two of the strings ever used share a hash. */
  lemma {:induction false} NoSharedHash(dict: Dict, ops: seq<Op>, overwrite: bool, text: Ptr -> string,
                                        hash: string -> Word)
    requires forall s, t :: s in Names(dict, ops, text) && t in Names(dict, ops, text) && hash(s) == hash(t) ==> s == t
    ensures ClashFree(dict, ops, overwrite, text, hash)
    decreases |ops|
  {
    if ops != [] {
      var dict', rest := Expected(dict, ops[0], overwrite, text).0, ops[1..];
      assert ops[0] in ops && text(ops[0].key) in Names(dict, ops, text);
      assert Names(dict', rest, text) <= Names(dict, ops, text);
      NoSharedHash(dict', rest, overwrite, text, hash);
    }
  }

  /** Two strings with one hash: whatever is then asked about the second is answered about the first. */
  lemma ClashMisleads(a: Ptr, b: Ptr, value: Ptr, other: Ptr, flags: Flags, text: Ptr -> string, hash: string -> Word)
    requires text(a) != text(b) && hash(text(a)) == hash(text(b))
    ensures var items := Served(map[], Put(a, value, a), flags, text, hash).0;
      && Served(items, Get(b), flags, text, hash).1 == Reply(true, Some(Pair(text(a), value)))
      && Served(items, Drop(b), flags, text, hash) == (map[], Reply(true, Some(Pair(text(a), value))))
      && Served(items, Put(b, other, b), flags, text, hash)
         == if flags.overwrite then (map[hash(text(a)) := Item(a, other)], Reply(true, Some(Pair(text(b), value))))
            else (items, Reply(false, Some(Pair(text(a), value))))
  {
    var h := hash(text(a));
    var items := Served(map[], Put(a, value, a), flags, text, hash).0;
    assert items == map[h := Item(a, value)];
    assert items - {h} == map[] && items[h := Item(a, other)] == map[h := Item(a, other)];
  }
}
