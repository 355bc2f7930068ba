/**
The pool allocator: one bucket for each size step and one for everything larger, each with
a list of chunks in use and a list of spares; allocation, release and reallocation with
their canary checks and their accounting.
*/
module Pool {
  import opened MachineWords
  import opened Counting
  import opened LinkList
  import opened PoolChunk

  const AMPOOL_STEP_COUNT: nat := 32
  const AMPOOL_MAX_STEPPED: Word32 := 512
  const AMPOOL_MAX_MEMSET: nat := 1024
  /** The largest size whose rounding up still fits 32 bits. */
  const LARGEST: Word32 := 0xFFFF_FFF0

  /** Rounds up to the next multiple of the alignment, in 32 bits. */
  function AlignSize(size: Word32): Word32 {
    var n := Wrap32(size + AMPOOL_ALIGN - 1);
    n - n % AMPOOL_ALIGN
  }

  /** Rounding up works up to the largest size and for no size beyond it. */
  lemma AlignFits(size: Word32)
    ensures AlignSize(size) >= size <==> size <= LARGEST
    ensures 0 < size <= LARGEST ==> AlignSize(size) % AMPOOL_ALIGN == 0 && AlignSize(size) - AMPOOL_ALIGN < size
    ensures 0 < size <= LARGEST ==> (size <= AMPOOL_MAX_STEPPED <==> AlignSize(size) <= AMPOOL_MAX_STEPPED)
  {
  }

  /** The step for an aligned size, in 32 bits, lies inside the table just for the sizes that round up to something. */
  lemma StepInTable(size: Word32)
    ensures AlignSize(size) <= AMPOOL_MAX_STEPPED ==>
      (Wrap32(AlignSize(size) / AMPOOL_ALIGN - 1) < AMPOOL_STEP_COUNT <==> 0 < size <= LARGEST)
    ensures size > LARGEST ==> AlignSize(size) == 0
  {
    var n := AlignSize(size);
    AlignFits(size);
    if 0 < size <= LARGEST {
      assert 0 <= n / AMPOOL_ALIGN - 1 < TWO32;
    } else {
      assert n == 0 && Wrap32(-1) == TWO32 - 1;
    }
  }

  /** The bucket for an aligned size; the last one takes all that is larger. */
  function BucketIndex(aligned: Word32): (i: nat)
    requires aligned % AMPOOL_ALIGN == 0 && aligned > 0
    ensures i <= AMPOOL_STEP_COUNT
  {
    if aligned <= AMPOOL_MAX_STEPPED then aligned / 16 - 1 else AMPOOL_STEP_COUNT
  }

  function IndexOf(size: Word32): (i: nat)
    requires 0 < size <= LARGEST
    ensures i <= AMPOOL_STEP_COUNT
  {
    AlignFits(size);
    BucketIndex(AlignSize(size))
  }

  function ElementSize(i: nat): nat {
    if i < AMPOOL_STEP_COUNT then (i + 1) * AMPOOL_ALIGN else 0
  }

  datatype Bucket = Bucket(elementSize: Word32, used: seq<Chunk>, free: seq<Chunk>, usedSize: Word, usedCount: Word)

  /** How many bytes a chunk of this bucket has, given the size asked for. */
  function MallocSize(b: Bucket, size: Word32): Word32 {
    if b.elementSize == 0 then AlignSize(size) else b.elementSize
  }

  /** Alloc and free of a size agree on the bucket, and a bucket's chunks fit every size that goes there. */
  lemma BucketFits(size: Word32, b: Bucket)
    requires 0 < size <= LARGEST && b.elementSize == ElementSize(IndexOf(size))
    ensures MallocSize(b, size) == AlignSize(size)
    ensures MallocSize(b, size) >= size && MallocSize(b, size) - AMPOOL_ALIGN < size
    ensures b.elementSize == 0 || size <= AMPOOL_MAX_STEPPED
    ensures b.elementSize > 0 || size > AMPOOL_MAX_STEPPED
    ensures IndexOf(size) < AMPOOL_STEP_COUNT <==> b.elementSize > 0
  {
    AlignFits(size);
    var a := AlignSize(size);
    assert a % 16 == 0;
    if a <= AMPOOL_MAX_STEPPED {
      assert (a / 16 - 1 + 1) * AMPOOL_ALIGN == a;
    }
  }

  // One bucket

  ghost function Bytes(): Chunk -> int {
    (c: Chunk) => c.size
  }

  /** The chunk belongs to bucket `i`. */
  ghost predicate Belongs(c: Chunk, i: nat) {
    0 < c.size <= LARGEST && IndexOf(c.size) == i && |c.data| == AlignSize(c.size)
  }

  /** What clients see of the chunks in use, by address, and where the spares are. */
  type Live = map<nat, seq<Byte>>
  type Spares = map<nat, nat>

  ghost predicate UsedOk(c: Chunk, i: nat, m: Magic, validate: bool, live: Live) {
    && Belongs(c, i) && InUse(c, m, validate)
    && c.address in live && live[c.address] == c.data[..c.size]
  }

  ghost predicate FreeOk(c: Chunk, i: nat, m: Magic, validate: bool, spares: Spares) {
    && Belongs(c, i) && i < AMPOOL_STEP_COUNT && PoolChunk.Spare(c, m, validate)
    && c.address in spares && spares[c.address] == i
  }

  ghost predicate Distinct(s: seq<Chunk>) {
    forall j, k :: 0 <= j < k < |s| ==> s[j].address != s[k].address
  }

  ghost predicate BucketOk(b: Bucket, i: nat, m: Magic, validate: bool, live: Live, spares: Spares) {
    && b.elementSize == ElementSize(i)
    && (forall k :: 0 <= k < |b.used| ==> UsedOk(b.used[k], i, m, validate, live)) && Distinct(b.used)
    && (forall k :: 0 <= k < |b.free| ==> FreeOk(b.free[k], i, m, validate, spares)) && Distinct(b.free)
    && b.usedSize == Wrap64(Total(b.used, Bytes()))
    && b.usedCount == Wrap64(|b.used|)
  }

  /** A chunk goes into use, from the spares or fresh from the system. */
  function Taken(b: Bucket, c: Chunk): Bucket {
    b.(used := [c] + b.used, free := if b.free == [] then [] else b.free[1..],
       usedSize := Wrap64(b.usedSize + c.size), usedCount := Wrap64(b.usedCount + 1))
  }

  /** The chunk at position `k` goes out of use and, as `c`, among the spares unless it is oversized. */
  function Returned(b: Bucket, k: nat, c: Chunk): Bucket
    requires k < |b.used|
  {
    b.(used := b.used[..k] + b.used[k + 1..], free := if b.elementSize > 0 then [c] + b.free else b.free,
       usedSize := Wrap64(b.usedSize - c.size), usedCount := Wrap64(b.usedCount - 1))
  }

  lemma InUseIsLive(b: Bucket, i: nat, m: Magic, validate: bool, live: Live, spares: Spares, k: nat)
    requires BucketOk(b, i, m, validate, live, spares) && k < |b.used|
    ensures b.used[k].address in live
  {
    assert UsedOk(b.used[k], i, m, validate, live);
  }

  lemma TakenOk(b: Bucket, i: nat, m: Magic, validate: bool, live: Live, spares: Spares, c: Chunk)
    requires BucketOk(b, i, m, validate, live, spares) && Belongs(c, i) && InUse(c, m, validate)
    requires c.address !in live && (if b.free == [] then c.address !in spares else c.address == b.free[0].address)
    ensures BucketOk(Taken(b, c), i, m, validate, live[c.address := c.data[..c.size]], spares - {c.address})
    ensures Total(Taken(b, c).used, Bytes()) == Total(b.used, Bytes()) + c.size
  {
    var b', live' := Taken(b, c), live[c.address := c.data[..c.size]];
    assert b'.used[1..] == b.used;
    Wrap64Step(Total(b.used, Bytes()), c.size);
    Wrap64Step(|b.used|, 1);
    forall k | 0 <= k < |b'.used| ensures UsedOk(b'.used[k], i, m, validate, live') {
      if k > 0 {
        assert b'.used[k] == b.used[k - 1] && UsedOk(b.used[k - 1], i, m, validate, live);
      }
    }
    forall j, k | 0 <= j < k < |b'.used| ensures b'.used[j].address != b'.used[k].address {
      assert b'.used[k] == b.used[k - 1] && UsedOk(b.used[k - 1], i, m, validate, live);
      if j > 0 {
        assert b'.used[j] == b.used[j - 1];
      }
    }
    forall k | 0 <= k < |b'.free| ensures FreeOk(b'.free[k], i, m, validate, spares - {c.address}) {
      assert b'.free[k] == b.free[k + 1] && FreeOk(b.free[k + 1], i, m, validate, spares);
    }
  }

  lemma {:induction false} TotalCut(s: seq<Chunk>, k: nat)
    requires k < |s|
    ensures Total(s[..k] + s[k + 1..], Bytes()) == Total(s, Bytes()) - s[k].size
    decreases k
  {
    if k == 0 {
      assert s[..0] + s[1..] == s[1..];
    } else {
      TotalCut(s[1..], k - 1);
      assert (s[..k] + s[k + 1..])[1..] == s[1..][..k - 1] + s[1..][k..];
    }
  }

  lemma CutOk(b: Bucket, i: nat, m: Magic, validate: bool, live: Live, spares: Spares, k: nat)
    requires BucketOk(b, i, m, validate, live, spares) && k < |b.used|
    ensures var used', live' := b.used[..k] + b.used[k + 1..], live - {b.used[k].address};
      (forall j :: 0 <= j < |used'| ==> UsedOk(used'[j], i, m, validate, live')) && Distinct(used')
  {
    var used', live' := b.used[..k] + b.used[k + 1..], live - {b.used[k].address};
    forall j | 0 <= j < |used'| ensures UsedOk(used'[j], i, m, validate, live') {
      var from := if j < k then j else j + 1;
      assert used'[j] == b.used[from] && UsedOk(b.used[from], i, m, validate, live);
    }
    forall j, l | 0 <= j < l < |used'| ensures used'[j].address != used'[l].address {
      assert used'[j] == b.used[if j < k then j else j + 1] && used'[l] == b.used[if l < k then l else l + 1];
    }
  }

  lemma ReturnedOk(b: Bucket, i: nat, m: Magic, validate: bool, live: Live, spares: Spares, k: nat, c: Chunk)
    requires BucketOk(b, i, m, validate, live, spares) && i <= AMPOOL_STEP_COUNT && k < |b.used|
    requires c.address == b.used[k].address && c.size == b.used[k].size && |c.data| == |b.used[k].data|
    requires b.elementSize > 0 ==> PoolChunk.Spare(c, m, validate)
    requires c.address !in spares
    ensures var spares' := if b.elementSize > 0 then spares[c.address := i] else spares;
      BucketOk(Returned(b, k, c), i, m, validate, live - {c.address}, spares')
    ensures Total(Returned(b, k, c).used, Bytes()) == Total(b.used, Bytes()) - c.size
  {
    assert UsedOk(b.used[k], i, m, validate, live);
    TotalCut(b.used, k);
    Wrap64Step(Total(b.used, Bytes()), 0 - c.size);
    Wrap64Step(|b.used|, -1);
    CutOk(b, i, m, validate, live, spares, k);
    FreedOk(b, i, m, validate, live, spares, c);
  }

  lemma FreedOk(b: Bucket, i: nat, m: Magic, validate: bool, live: Live, spares: Spares, c: Chunk)
    requires BucketOk(b, i, m, validate, live, spares) && i <= AMPOOL_STEP_COUNT
    requires Belongs(c, i) && c.address !in spares && (b.elementSize > 0 ==> PoolChunk.Spare(c, m, validate))
    ensures var spares' := if b.elementSize > 0 then spares[c.address := i] else spares;
      var free' := if b.elementSize > 0 then [c] + b.free else b.free;
      (forall k :: 0 <= k < |free'| ==> FreeOk(free'[k], i, m, validate, spares')) && Distinct(free')
  {
    if b.elementSize > 0 {
      var spares', free' := spares[c.address := i], [c] + b.free;
      forall k | 0 <= k < |free'| ensures FreeOk(free'[k], i, m, validate, spares') {
        if k > 0 {
          assert free'[k] == b.free[k - 1] && FreeOk(b.free[k - 1], i, m, validate, spares);
        }
      }
      forall j, k | 0 <= j < k < |free'| ensures free'[j].address != free'[k].address {
        assert free'[k] == b.free[k - 1] && FreeOk(b.free[k - 1], i, m, validate, spares);
        if j > 0 {
          assert free'[j] == b.free[j - 1];
        }
      }
    }
  }

  /** A client has written into its own bytes. */
  lemma WrittenOk(b: Bucket, i: nat, m: Magic, validate: bool, live: Live, spares: Spares, k: nat, data: seq<Byte>)
    requires BucketOk(b, i, m, validate, live, spares) && k < |b.used|
    requires |data| == |b.used[k].data| && b.used[k].size <= |data|
    requires data[b.used[k].size..] == b.used[k].data[b.used[k].size..]
    ensures var c := b.used[k].(data := data);
      var b' := b.(used := b.used[k := c]);
      && BucketOk(b', i, m, validate, live[c.address := data[..c.size]], spares)
      && Total(b'.used, Bytes()) == Total(b.used, Bytes())
  {
    var c := b.used[k].(data := data);
    var b', live' := b.(used := b.used[k := c]), live[c.address := data[..c.size]];
    assert UsedOk(b.used[k], i, m, validate, live);
    WritesInside(b.used[k], m, validate, data);
    TotalUpdate(b.used, k, c, Bytes());
    forall j | 0 <= j < |b'.used| ensures UsedOk(b'.used[j], i, m, validate, live') {
      if j != k {
        assert UsedOk(b.used[j], i, m, validate, live) && b.used[j].address != b.used[k].address;
      }
    }
  }

  // All buckets

  ghost predicate Listed(s: seq<Chunk>, p: nat) {
    exists k :: 0 <= k < |s| && s[k].address == p
  }

  ghost predicate LiveOk(bs: seq<Bucket>, live: Live, p: nat)
    requires |bs| == AMPOOL_STEP_COUNT + 1
  {
    p in live ==> 0 < |live[p]| <= LARGEST && Listed(bs[IndexOf(|live[p]|)].used, p)
  }

  ghost predicate Pooled(bs: seq<Bucket>, m: Magic, validate: bool, live: Live, spares: Spares) {
    && |bs| == AMPOOL_STEP_COUNT + 1
    && (forall i :: 0 <= i < |bs| ==> BucketOk(bs[i], i, m, validate, live, spares))
    && live.Keys !! spares.Keys
    && (forall p :: LiveOk(bs, live, p))
  }

  ghost function UsedBytes(): Bucket -> int {
    (b: Bucket) => Total(b.used, Bytes())
  }

  ghost function UsedChunks(): Bucket -> int {
    (b: Bucket) => |b.used|
  }

  /** What happens at one address does not concern buckets that have no chunk there. */
  lemma ElsewhereOk(b: Bucket, j: nat, m: Magic, validate: bool, live: Live, spares: Spares, live': Live, spares': Spares,
                    p: nat)
    requires BucketOk(b, j, m, validate, live, spares)
    requires forall q :: q != p ==> (q in live <==> q in live') && (q in live ==> live'[q] == live[q])
    requires forall q :: q != p ==> (q in spares <==> q in spares') && (q in spares ==> spares'[q] == spares[q])
    requires p in live ==> 0 < |live[p]| <= LARGEST && IndexOf(|live[p]|) != j
    requires p in spares ==> spares[p] != j
    ensures BucketOk(b, j, m, validate, live', spares')
  {
    forall k | 0 <= k < |b.used| ensures UsedOk(b.used[k], j, m, validate, live') {
      assert UsedOk(b.used[k], j, m, validate, live);
      assert |b.used[k].data[..b.used[k].size]| == b.used[k].size;
    }
    forall k | 0 <= k < |b.free| ensures FreeOk(b.free[k], j, m, validate, spares') {
      assert FreeOk(b.free[k], j, m, validate, spares);
    }
  }

  lemma TakenPooled(bs: seq<Bucket>, m: Magic, validate: bool, live: Live, spares: Spares, c: Chunk)
    requires Pooled(bs, m, validate, live, spares) && 0 < c.size <= LARGEST
    requires Belongs(c, IndexOf(c.size)) && InUse(c, m, validate) && c.address !in live
    requires var b := bs[IndexOf(c.size)];
      if b.free == [] then c.address !in spares else c.address == b.free[0].address
    ensures var i := IndexOf(c.size);
      var bs' := bs[i := Taken(bs[i], c)];
      && Pooled(bs', m, validate, live[c.address := c.data[..c.size]], spares - {c.address})
      && Total(bs', UsedBytes()) == Total(bs, UsedBytes()) + c.size
      && Total(bs', UsedChunks()) == Total(bs, UsedChunks()) + 1
  {
    var i := IndexOf(c.size);
    var b, bs' := bs[i], bs[i := Taken(bs[i], c)];
    var live', spares' := live[c.address := c.data[..c.size]], spares - {c.address};
    AlignFits(c.size);
    assert BucketOk(b, i, m, validate, live, spares);
    assert b.free != [] ==> FreeOk(b.free[0], i, m, validate, spares);
    TakenOk(b, i, m, validate, live, spares, c);
    TotalUpdate(bs, i, Taken(b, c), UsedBytes());
    TotalUpdate(bs, i, Taken(b, c), UsedChunks());
    forall j | 0 <= j < |bs'| && j != i ensures BucketOk(bs'[j], j, m, validate, live', spares') {
      ElsewhereOk(bs[j], j, m, validate, live, spares, live', spares', c.address);
    }
    forall p ensures LiveOk(bs', live', p) {
      TakenListed(bs, live, c, p);
    }
  }

  lemma TakenListed(bs: seq<Bucket>, live: Live, c: Chunk, p: nat)
    requires |bs| == AMPOOL_STEP_COUNT + 1 && LiveOk(bs, live, p) && 0 < c.size <= LARGEST && c.size <= |c.data|
    ensures var i := IndexOf(c.size);
      LiveOk(bs[i := Taken(bs[i], c)], live[c.address := c.data[..c.size]], p)
  {
    var i := IndexOf(c.size);
    var used' := Taken(bs[i], c).used;
    if p == c.address {
      assert used'[0].address == p;
    } else if p in live && IndexOf(|live[p]|) == i {
      var k :| 0 <= k < |bs[i].used| && bs[i].used[k].address == p;
      assert used'[k + 1].address == p;
    }
  }

  lemma ReturnedPooled(bs: seq<Bucket>, m: Magic, validate: bool, live: Live, spares: Spares, i: nat, k: nat, c: Chunk)
    requires Pooled(bs, m, validate, live, spares) && i < |bs| && k < |bs[i].used|
    requires c.address == bs[i].used[k].address && c.size == bs[i].used[k].size && |c.data| == |bs[i].used[k].data|
    requires bs[i].elementSize > 0 ==> PoolChunk.Spare(c, m, validate)
    ensures var spares' := if bs[i].elementSize > 0 then spares[c.address := i] else spares;
      var bs' := bs[i := Returned(bs[i], k, c)];
      && Pooled(bs', m, validate, live - {c.address}, spares')
      && Total(bs', UsedBytes()) == Total(bs, UsedBytes()) - c.size
      && Total(bs', UsedChunks()) == Total(bs, UsedChunks()) - 1
  {
    var b, bs' := bs[i], bs[i := Returned(bs[i], k, c)];
    var live', spares' := live - {c.address}, if b.elementSize > 0 then spares[c.address := i] else spares;
    assert BucketOk(b, i, m, validate, live, spares) && UsedOk(b.used[k], i, m, validate, live);
    ReturnedOk(b, i, m, validate, live, spares, k, c);
    TotalUpdate(bs, i, Returned(b, k, c), UsedBytes());
    TotalUpdate(bs, i, Returned(b, k, c), UsedChunks());
    assert |live[c.address]| == c.size;
    forall j | 0 <= j < |bs'| && j != i ensures BucketOk(bs'[j], j, m, validate, live', spares') {
      ElsewhereOk(bs[j], j, m, validate, live, spares, live', spares', c.address);
    }
    forall p ensures LiveOk(bs', live', p) {
      ReturnedListed(bs, live, i, k, c, p);
    }
  }

  lemma ReturnedListed(bs: seq<Bucket>, live: Live, i: nat, k: nat, c: Chunk, p: nat)
    requires |bs| == AMPOOL_STEP_COUNT + 1 && LiveOk(bs, live, p) && i < |bs| && k < |bs[i].used|
    requires c.address == bs[i].used[k].address
    ensures LiveOk(bs[i := Returned(bs[i], k, c)], live - {c.address}, p)
  {
    if p in live && p != c.address && IndexOf(|live[p]|) == i {
      var l :| 0 <= l < |bs[i].used| && bs[i].used[l].address == p;
      assert Returned(bs[i], k, c).used[if l < k then l else l - 1].address == p;
    }
  }

  lemma WrittenPooled(bs: seq<Bucket>, m: Magic, validate: bool, live: Live, spares: Spares, i: nat, k: nat, data: seq<Byte>)
    requires Pooled(bs, m, validate, live, spares) && i < |bs| && k < |bs[i].used|
    requires |data| == |bs[i].used[k].data| && bs[i].used[k].size <= |data|
    requires data[bs[i].used[k].size..] == bs[i].used[k].data[bs[i].used[k].size..]
    ensures var c := bs[i].used[k].(data := data);
      var bs' := bs[i := bs[i].(used := bs[i].used[k := c])];
      && Pooled(bs', m, validate, live[c.address := data[..c.size]], spares)
      && Total(bs', UsedBytes()) == Total(bs, UsedBytes()) && Total(bs', UsedChunks()) == Total(bs, UsedChunks())
  {
    var b, c := bs[i], bs[i].used[k].(data := data);
    var b' := b.(used := b.used[k := c]);
    var bs', live' := bs[i := b'], live[c.address := data[..c.size]];
    assert BucketOk(b, i, m, validate, live, spares) && UsedOk(b.used[k], i, m, validate, live);
    WrittenOk(b, i, m, validate, live, spares, k, data);
    TotalUpdate(bs, i, b', UsedBytes());
    TotalUpdate(bs, i, b', UsedChunks());
    assert |live[c.address]| == c.size;
    forall j | 0 <= j < |bs'| && j != i ensures BucketOk(bs'[j], j, m, validate, live', spares) {
      ElsewhereOk(bs[j], j, m, validate, live, spares, live', spares, c.address);
    }
    forall p ensures LiveOk(bs', live', p) {
      WrittenListed(bs, live, i, k, data, p);
    }
  }

  lemma WrittenListed(bs: seq<Bucket>, live: Live, i: nat, k: nat, data: seq<Byte>, p: nat)
    requires |bs| == AMPOOL_STEP_COUNT + 1 && LiveOk(bs, live, p) && i < |bs| && k < |bs[i].used|
    requires var c := bs[i].used[k];
      c.address in live && LiveOk(bs, live, c.address) && |live[c.address]| == c.size <= |data|
    ensures var c := bs[i].used[k].(data := data);
      LiveOk(bs[i := bs[i].(used := bs[i].used[k := c])], live[c.address := data[..c.size]], p)
  {
    var b, c := bs[i], bs[i].used[k].(data := data);
    if p in live {
      var l :| 0 <= l < |bs[IndexOf(|live[p]|)].used| && bs[IndexOf(|live[p]|)].used[l].address == p;
      if IndexOf(|live[p]|) == i {
        assert b.used[k := c][l].address == p;
      }
    }
  }

  /** Which chunk of a list has its data at `p`. */
  function PositionOf(s: seq<Chunk>, p: nat): (k: nat)
    requires Listed(s, p)
    ensures k < |s| && s[k].address == p
  {
    if s[0].address == p then 0
    else
      assert Listed(s[1..], p) by {
        var k :| 0 <= k < |s| && s[k].address == p;
        assert s[1..][k - 1].address == p;
      }
      1 + PositionOf(s[1..], p)
  }

  /** The pointer and size that a client passes lead to the chunk they came from. */
  lemma Leads(bs: seq<Bucket>, m: Magic, validate: bool, live: Live, spares: Spares, p: nat)
    requires Pooled(bs, m, validate, live, spares) && p in live
    ensures 0 < |live[p]| <= LARGEST
    ensures var b := bs[IndexOf(|live[p]|)];
      && Listed(b.used, p)
      && UsedOk(b.used[PositionOf(b.used, p)], IndexOf(|live[p]|), m, validate, live)
      && b.used[PositionOf(b.used, p)].size == |live[p]|
      && b.elementSize == ElementSize(IndexOf(|live[p]|))
  {
    assert LiveOk(bs, live, p);
    var i := IndexOf(|live[p]|);
    assert BucketOk(bs[i], i, m, validate, live, spares);
    assert UsedOk(bs[i].used[PositionOf(bs[i].used, p)], i, m, validate, live);
  }

  // The pool

  /** What an allocation does to the buckets: the spare kept last is handed out, or else new memory. */
  ghost predicate HandedOut(bs: seq<Bucket>, bs': seq<Bucket>, i: nat, address: nat, ptr: nat) {
    && i < |bs| == |bs'| && bs' == bs[i := bs'[i]]
    && if bs[i].free == [] then ptr == address && bs'[i].free == []
       else ptr == bs[i].free[0].address && bs'[i].free == bs[i].free[1..]
  }

  /** What a release does to them: up to 512 bytes the chunk is kept, to be the next handed out. */
  ghost predicate TakenBack(bs: seq<Bucket>, bs': seq<Bucket>, i: nat, size: nat, ptr: nat) {
    && i < |bs| == |bs'| && bs' == bs[i := bs'[i]]
    && if size <= 512 then bs'[i].free != [] && bs'[i].free[0].address == ptr && bs'[i].free[1..] == bs[i].free
       else bs'[i].free == bs[i].free
  }

  lemma HandsOut(bs: seq<Bucket>, bs': seq<Bucket>, i: nat, c: Chunk, address: nat)
    requires i < |bs| && bs' == bs[i := Taken(bs[i], c)]
    requires c.address == if bs[i].free == [] then address else bs[i].free[0].address
    ensures HandedOut(bs, bs', i, address, c.address)
  {
  }

  lemma TakesBack(bs: seq<Bucket>, bs': seq<Bucket>, i: nat, k: nat, c: Chunk, size: Word32)
    requires 0 < size <= LARGEST && i == IndexOf(size) < |bs| && bs[i].elementSize == ElementSize(i)
    requires k < |bs[i].used| && bs' == bs[i := Returned(bs[i], k, c)]
    ensures TakenBack(bs, bs', i, size, c.address)
  {
    BucketFits(size, bs[i]);
  }

  /** A client's bytes are made anew, overwritten, and the old ones given up. */
  lemma Replaced(live: Live, ptr: nat, newPtr: nat, made: seq<Byte>, bytes: seq<Byte>)
    requires ptr in live && newPtr !in live
    ensures live[newPtr := made][newPtr := bytes] - {ptr} == (live - {ptr})[newPtr := bytes]
    ensures live[newPtr := made][ptr] == live[ptr]
  {
  }

  class AmPool {
    const validate: bool
    const magic: Magic
    var size: Word
    var elementCount: Word
    var buckets: array<Bucket>
    /** What clients see: the bytes at each address handed out and not yet given back. */
    ghost var live: Live
    ghost var spares: Spares

    /** The buckets are in order, and the pool's two counts are theirs added up. */
    ghost predicate Valid()
      reads this, buckets
    {
      && Pooled(buckets[..], magic, validate, live, spares)
      && size == Wrap64(Total(buckets[..], UsedBytes()))
      && elementCount == Wrap64(Total(buckets[..], UsedChunks()))
      && Total(buckets[..], UsedChunks()) == |live|
    }

    constructor (validate: bool, magic: Magic)
      ensures Valid() && fresh(buckets) && live == map[] && this.validate == validate && this.magic == magic
    {
      this.validate, this.magic := validate, magic;
      size, elementCount := 0, 0;
      buckets := new Bucket[AMPOOL_STEP_COUNT + 1](i requires 0 <= i <= AMPOOL_STEP_COUNT =>
        Bucket(ElementSize(i), [], [], 0, 0));
      live, spares := map[], map[];
      new;
      TotalNone(buckets[..], UsedBytes());
      TotalNone(buckets[..], UsedChunks());
    }

    /** Hands out `size` bytes, the first of them cleared; `address` and `raw` are what the system would give. */
    method Alloc(size: Word32, address: nat, raw: seq<Byte>) returns (ptr: Option<nat>)
      requires Valid() && size <= LARGEST
      requires address !in live && address !in spares && |raw| == AlignSize(size)
      modifies this, buckets
      ensures Valid() && buckets == old(buckets)
      ensures ptr.None? <==> size == 0
      ensures ptr.None? ==> live == old(live) && this.size == old(this.size) && elementCount == old(elementCount)
      ensures ptr.Some? ==>
        && ptr.value !in old(live) && ptr.value in live
        && live == old(live)[ptr.value := live[ptr.value]] && |live[ptr.value]| == size
        && forall i :: 0 <= i < size && i < 1024 ==> live[ptr.value][i] == 0
      ensures ptr.Some? ==>
        HandedOut(old(buckets[..]), buckets[..], IndexOf(size), address, ptr.value)
      ensures ptr.Some? ==>
        this.size == Plus(old(this.size), size) && elementCount == Plus(old(elementCount), 1)
    {
      if size == 0 {
        return None;
      }
      AlignFits(size);
      var i := BucketIndex(AlignSize(size));
      var chunk := AllocFrom(i, size, address, raw);
      return Some(chunk.address);
    }

    /** Takes a chunk of bucket `i` into use and counts it. */
    method AllocFrom(i: nat, size: Word32, address: nat, raw: seq<Byte>) returns (chunk: Chunk)
      requires Valid() && 0 < size <= LARGEST && i == IndexOf(size) < buckets.Length
      requires address !in live && address !in spares && |raw| == AlignSize(size)
      modifies this, buckets
      ensures Valid() && buckets == old(buckets)
      ensures chunk.address !in old(live) && chunk.size == size <= |chunk.data|
      ensures live == old(live)[chunk.address := chunk.data[..size]]
      ensures forall j :: 0 <= j < size && j < AMPOOL_MAX_MEMSET ==> chunk.data[j] == 0
      ensures HandedOut(old(buckets[..]), buckets[..], i, address, chunk.address)
      ensures this.size == Plus(old(this.size), size) && elementCount == Plus(old(elementCount), 1)
    {
      ghost var bs := buckets[..];
      assert BucketOk(bs[i], i, magic, validate, live, spares);
      chunk := BucketAlloc(buckets[i], i, size, address, raw);
      PutInUse(i, chunk);
      ghost var bs' := buckets[..];
      HandsOut(bs, bs', i, chunk, address);
      CountIn(size, Total(bs, UsedBytes()), Total(bs, UsedChunks()));
      assert buckets[..] == bs';
    }

    method PutInUse(i: nat, chunk: Chunk)
      requires Pooled(buckets[..], magic, validate, live, spares) && 0 < chunk.size <= LARGEST && i == IndexOf(chunk.size)
      requires Belongs(chunk, i) && InUse(chunk, magic, validate) && chunk.address !in live
      requires var b := buckets[i];
        if b.free == [] then chunk.address !in spares else chunk.address == b.free[0].address
      modifies this`live, this`spares, buckets
      ensures Pooled(buckets[..], magic, validate, live, spares)
      ensures live == old(live)[chunk.address := chunk.data[..chunk.size]] && |live| == |old(live)| + 1
      ensures buckets[..] == old(buckets[..])[i := Taken(old(buckets[i]), chunk)]
      ensures Total(buckets[..], UsedBytes()) == old(Total(buckets[..], UsedBytes())) + chunk.size
      ensures Total(buckets[..], UsedChunks()) == old(Total(buckets[..], UsedChunks())) + 1
    {
      ghost var bs := buckets[..];
      TakenPooled(bs, magic, validate, live, spares, chunk);
      buckets[i] := Taken(buckets[i], chunk);
      assert buckets[..] == bs[i := Taken(bs[i], chunk)];
      live, spares := live[chunk.address := chunk.data[..chunk.size]], spares - {chunk.address};
    }

    /** Takes a spare chunk, or a new one, and gets it ready for use. */
    method BucketAlloc(b: Bucket, i: nat, subSize: Word32, address: nat, raw: seq<Byte>) returns (chunk: Chunk)
      requires 0 < subSize <= LARGEST && i == IndexOf(subSize) && BucketOk(b, i, magic, validate, live, spares)
      requires live.Keys !! spares.Keys && address !in live && address !in spares && |raw| == AlignSize(subSize)
      ensures chunk.size == subSize && Belongs(chunk, i) && InUse(chunk, magic, validate)
      ensures chunk.address !in live
      ensures chunk.address == if b.free == [] then address else b.free[0].address
      ensures forall j :: 0 <= j < subSize && j < AMPOOL_MAX_MEMSET ==> chunk.data[j] == 0
    {
      BucketFits(subSize, b);
      var sizeMalloc := MallocSize(b, subSize);
      assert sizeMalloc >= subSize && sizeMalloc - AMPOOL_ALIGN < subSize;
      assert b.elementSize == 0 || subSize <= AMPOOL_MAX_STEPPED;
      assert b.elementSize > 0 || subSize > AMPOOL_MAX_STEPPED;
      if b.free == [] {
        chunk := Chunk(address, subSize, magic, raw);
      } else {
        chunk := b.free[0];
        assert FreeOk(chunk, i, magic, validate, spares);
        var ok := ChunkTest(chunk, true, validate, magic);
        assert ok;
      }
      chunk := chunk.(size := subSize);
      chunk := ChunkSet(chunk, true, validate, magic);
      chunk := Clear(chunk, Min(subSize, AMPOOL_MAX_MEMSET));
    }

    /** Clears the first `n` bytes of a chunk in use. */
    method Clear(c: Chunk, n: nat) returns (c': Chunk)
      requires InUse(c, magic, validate) && n <= c.size
      ensures c' == c.(data := c'.data) && |c'.data| == |c.data| && InUse(c', magic, validate)
      ensures forall j :: 0 <= j < n ==> c'.data[j] == 0
    {
      var data := seq(n, _ => 0 as Byte) + c.data[n..];
      assert data[c.size..] == c.data[c.size..];
      WritesInside(c, magic, validate, data);
      c' := c.(data := data);
    }

    /** Takes back what `Alloc` of the same size has handed out. */
    method Free(ptr: nat, size: Word32)
      requires Valid() && ptr in live && |live[ptr]| == size
      modifies this, buckets
      ensures Valid() && buckets == old(buckets) && live == old(live) - {ptr}
      ensures 0 < size <= LARGEST
      ensures TakenBack(old(buckets[..]), buckets[..], IndexOf(size), size, ptr)
      ensures this.size == Minus(old(this.size), size) && elementCount == Minus(old(elementCount), 1)
    {
      ghost var bs := buckets[..];
      var i, k := Lookup(ptr, size);
      assert buckets[..] == bs;
      FreeInto(i, k, ptr, size);
    }

    /** Takes the chunk at position `k` of bucket `i` out of use and counts it. */
    method FreeInto(i: nat, k: nat, ptr: nat, size: Word32)
      requires Valid() && 0 < size <= LARGEST && i == IndexOf(size) < buckets.Length && k < |buckets[i].used|
      requires buckets[i].used[k].address == ptr && buckets[i].used[k].size == size
      requires UsedOk(buckets[i].used[k], i, magic, validate, live) && buckets[i].elementSize == ElementSize(i)
      modifies this, buckets
      ensures Valid() && buckets == old(buckets) && live == old(live) - {ptr}
      ensures TakenBack(old(buckets[..]), buckets[..], i, size, ptr)
      ensures this.size == Minus(old(this.size), size) && elementCount == Minus(old(elementCount), 1)
    {
      ghost var bs := buckets[..];
      var chunk := BucketFree(buckets[i], i, k);
      assert buckets[..] == bs;
      PutOutOfUse(i, k, chunk);
      ghost var bs' := buckets[..];
      TakesBack(bs, bs', i, k, chunk, size);
      CountOut(size, Total(bs, UsedBytes()), Total(bs, UsedChunks()));
      assert buckets[..] == bs';
    }

    /** From the pointer and size that a client passes to the bucket and the chunk. */
    method Lookup(ptr: nat, size: Word32) returns (i: nat, k: nat)
      requires Pooled(buckets[..], magic, validate, live, spares) && ptr in live && |live[ptr]| == size
      ensures 0 < size <= LARGEST && i == IndexOf(size) < buckets.Length && k < |buckets[i].used|
      ensures buckets[i].used[k].address == ptr && buckets[i].used[k].size == size
      ensures UsedOk(buckets[i].used[k], i, magic, validate, live) && buckets[i].elementSize == ElementSize(i)
    {
      Leads(buckets[..], magic, validate, live, spares, ptr);
      AlignFits(size);
      i := BucketIndex(AlignSize(size));
      k := PositionOf(buckets[i].used, ptr);
    }

    method PutOutOfUse(i: nat, k: nat, chunk: Chunk)
      requires Pooled(buckets[..], magic, validate, live, spares) && i < buckets.Length && k < |buckets[i].used|
      requires var c := buckets[i].used[k];
        chunk.address == c.address && chunk.size == c.size && |chunk.data| == |c.data|
      requires buckets[i].elementSize > 0 ==> PoolChunk.Spare(chunk, magic, validate)
      modifies this`live, this`spares, buckets
      ensures Pooled(buckets[..], magic, validate, live, spares)
      ensures live == old(live) - {chunk.address} && |live| == |old(live)| - 1
      ensures buckets[..] == old(buckets[..])[i := Returned(old(buckets[i]), k, chunk)]
      ensures Total(buckets[..], UsedBytes()) == old(Total(buckets[..], UsedBytes())) - chunk.size
      ensures Total(buckets[..], UsedChunks()) == old(Total(buckets[..], UsedChunks())) - 1
    {
      ghost var bs := buckets[..];
      ReturnedPooled(bs, magic, validate, live, spares, i, k, chunk);
      InUseIsLive(bs[i], i, magic, validate, live, spares, k);
      spares := if buckets[i].elementSize > 0 then spares[chunk.address := i] else spares;
      buckets[i] := Returned(buckets[i], k, chunk);
      assert buckets[..] == bs[i := Returned(bs[i], k, chunk)];
      OneLess(live, chunk.address);
      live := live - {chunk.address};
    }

    /** `amsync_add` and `amsync_inc` on the pool's two counts. */
    method CountIn(bytes: nat, ghost totalBytes: int, ghost totalChunks: int)
      requires Pooled(buckets[..], magic, validate, live, spares)
      requires size == Wrap64(totalBytes) && elementCount == Wrap64(totalChunks)
      requires Total(buckets[..], UsedBytes()) == totalBytes + bytes
      requires Total(buckets[..], UsedChunks()) == totalChunks + 1 == |live|
      modifies this`size, this`elementCount
      ensures Valid() && size == Plus(old(size), bytes) && elementCount == Plus(old(elementCount), 1)
    {
      Wrap64Step(totalBytes, bytes);
      Wrap64Step(totalChunks, 1);
      size := Plus(size, bytes);
      elementCount := Plus(elementCount, 1);
    }

    /** `amsync_sub` and `amsync_dec` on them. */
    method CountOut(bytes: nat, ghost totalBytes: int, ghost totalChunks: int)
      requires Pooled(buckets[..], magic, validate, live, spares)
      requires size == Wrap64(totalBytes) && elementCount == Wrap64(totalChunks)
      requires Total(buckets[..], UsedBytes()) == totalBytes - bytes
      requires Total(buckets[..], UsedChunks()) == totalChunks - 1 == |live|
      modifies this`size, this`elementCount
      ensures Valid() && size == Minus(old(size), bytes) && elementCount == Minus(old(elementCount), 1)
    {
      Wrap64Step(totalBytes, 0 - bytes);
      Wrap64Step(totalChunks, -1);
      size := Minus(size, bytes);
      elementCount := Minus(elementCount, 1);
    }

    /** Checks the chunk at position `k` and gets it ready to be spare; oversized ones go back to the system. */
    method BucketFree(b: Bucket, i: nat, k: nat) returns (chunk: Chunk)
      requires k < |b.used| && UsedOk(b.used[k], i, magic, validate, live) && b.elementSize == ElementSize(i)
      ensures chunk.address == b.used[k].address && chunk.size == b.used[k].size && |chunk.data| == |b.used[k].data|
      ensures b.elementSize > 0 ==> PoolChunk.Spare(chunk, magic, validate)
    {
      chunk := b.used[k];
      BucketFits(chunk.size, b);
      var sizeMalloc := MallocSize(b, chunk.size);
      assert sizeMalloc >= chunk.size && sizeMalloc - AMPOOL_ALIGN < chunk.size;
      assert b.elementSize == 0 || chunk.size <= AMPOOL_MAX_STEPPED;
      assert b.elementSize > 0 || chunk.size > AMPOOL_MAX_STEPPED;
      var ok := ChunkTest(chunk, false, validate, magic);
      assert ok;
      if b.elementSize > 0 {
        chunk := ChunkSet(chunk, false, validate, magic);
      }
    }

    /** A client writes into its own bytes, which become `bytes`. */
    method Write(ptr: nat, size: Word32, bytes: seq<Byte>)
      requires Valid() && ptr in live && |live[ptr]| == size == |bytes|
      modifies this`live, buckets
      ensures Valid() && live == old(live)[ptr := bytes]
    {
      ghost var bs := buckets[..];
      var i, k := Lookup(ptr, size);
      var c := buckets[i].used[k];
      var data := bytes + c.data[size..];
      assert data[size..] == c.data[size..] && data[..size] == bytes;
      WrittenPooled(bs, magic, validate, live, spares, i, k, data);
      buckets[i] := buckets[i].(used := buckets[i].used[k := c.(data := data)]);
      assert buckets[..] == bs[i := bs[i].(used := bs[i].used[k := c.(data := data)])];
      live := live[ptr := bytes];
    }

    method Read(ptr: nat, size: Word32) returns (bytes: seq<Byte>)
      requires Valid() && ptr in live && |live[ptr]| == size
      ensures bytes == live[ptr]
    {
      var i, k := Lookup(ptr, size);
      bytes := buckets[i].used[k].data[..size];
    }

    /** Moves a client's bytes to a chunk of another size; what is new in it is cleared. */
    method Realloc(ptr: nat, oldSize: Word32, newSize: Word32, address: nat, raw: seq<Byte>) returns (newPtr: Option<nat>)
      requires Valid() && ptr in live && |live[ptr]| == oldSize && newSize <= LARGEST
      requires address !in live && address !in spares && |raw| == AlignSize(newSize)
      modifies this, buckets
      ensures Valid()
      ensures newPtr.None? <==> newSize == 0
      ensures newPtr.None? ==> live == old(live) - {ptr}
      ensures newPtr.Some? ==>
        var kept := Min(oldSize, newSize);
        && newPtr.value !in old(live)
        && live == (old(live) - {ptr})[newPtr.value := old(live)[ptr][..kept] + seq(newSize - kept, _ => 0 as Byte)]
    {
      ghost var before := live;
      newPtr := Alloc(newSize, address, raw);
      if newPtr.Some? {
        ghost var made := live[newPtr.value];
        CopyOver(ptr, oldSize, newPtr.value, newSize);
        Replaced(before, ptr, newPtr.value, made, live[newPtr.value]);
      }
      Free(ptr, oldSize);
    }

    /** Copies what fits and clears the rest. */
    method CopyOver(ptr: nat, oldSize: Word32, newPtr: nat, newSize: Word32)
      requires Valid() && ptr in live && |live[ptr]| == oldSize && newPtr in live && |live[newPtr]| == newSize
      modifies this`live, buckets
      ensures Valid()
      ensures var kept := Min(oldSize, newSize);
        live == old(live)[newPtr := old(live)[ptr][..kept] + seq(newSize - kept, _ => 0 as Byte)]
    {
      var min := Min(oldSize, newSize);
      var bytes := Read(ptr, oldSize);
      Write(newPtr, newSize, bytes[..min] + seq(newSize - min, _ => 0 as Byte));
    }

    /** The checks on the way to giving up the whole pool: every chunk is in order, and the counts add up. */
    method PoolFree()
      requires Valid()
    {
      var deletedSize, deletedCount: Word := 0, 0;
      ghost var bs := buckets[..];
      var i := 0;
      while i < buckets.Length
        invariant i <= buckets.Length && buckets[..] == bs
        invariant deletedSize == Wrap64(Total(bs[..i], UsedBytes()))
        invariant deletedCount == Wrap64(Total(bs[..i], UsedChunks()))
      {
        var b := buckets[i];
        assert BucketOk(b, i, magic, validate, live, spares);
        assert bs[..i + 1] == bs[..i] + [b];
        TotalAppend(bs[..i], b, UsedBytes());
        TotalAppend(bs[..i], b, UsedChunks());
        Wrap64Sum(Total(bs[..i], UsedBytes()), Total(b.used, Bytes()));
        Wrap64Sum(Total(bs[..i], UsedChunks()), |b.used|);
        deletedSize := Wrap64(deletedSize + b.usedSize);
        deletedCount := Wrap64(deletedCount + b.usedCount);
        BucketTerm(b, i);
        i := i + 1;
      }
      assert bs[..i] == bs;
      assert deletedSize == size;
      assert deletedCount == elementCount;
    }

    method BucketTerm(b: Bucket, i: nat)
      requires BucketOk(b, i, magic, validate, live, spares)
    {
      var k := 0;
      while k < |b.used|
        invariant k <= |b.used|
      {
        assert UsedOk(b.used[k], i, magic, validate, live);
        var ok := ChunkTest(b.used[k], false, validate, magic);
        assert ok;
        k := k + 1;
      }
      k := 0;
      while k < |b.free|
        invariant k <= |b.free|
      {
        assert FreeOk(b.free[k], i, magic, validate, spares);
        var ok := ChunkTest(b.free[k], true, validate, magic);
        assert ok;
        k := k + 1;
      }
    }
  }

  lemma OneLess(live: Live, p: nat)
    requires p in live
    ensures |live - {p}| == |live| - 1
  {
    assert (live - {p})[p := live[p]] == live;
  }

  lemma Wrap64Sum(a: int, b: int)
    ensures Wrap64(Wrap64(a) + Wrap64(b)) == Wrap64(a + b)
  {
    Wrap64Step(a, Wrap64(b));
    Wrap64Step(b, a);
  }
}
