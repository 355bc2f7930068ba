/**
The bounded queue shared by any number of threads. Each operation first claims a slot
index by compare-and-swap and then hands its value over through the slot, so several
threads may wait on one slot at once. One step of the model is one access to shared
memory by one thread; steps of different threads interleave in any order.
*/
module CircularQueue {
  import opened MachineWords
  import opened Counting
  import opened Threads

  /** The memory that the threads share. */
  datatype Memory = Memory(lock: Word, head: Word, tail: Word, slots: seq<Ptr>)

  /** What a thread that is in no operation asks for next. */
  datatype Call = Enqueue(data: Ptr) | Dequeue

  /** Where a thread stands, named after the access that it makes next, with its local variables. */
  datatype Pc =
    | Idle
    | EnqReadTail(data: Ptr)
    | EnqSwapTail(data: Ptr, tail: Word)
    | EnqPut(data: Ptr, slot: Word)
    | DeqLock
    | DeqReadHead
    | DeqReadTail(head: Word)
    | DeqUnlockEmpty
    | DeqSwapHead(head: Word)
    | DeqUnlock(slot: Word)
    | DeqReadSlot(slot: Word)
    | DeqTake(slot: Word, ptr: Ptr)
    | Enqueued
    | EnqueueRefused
    | Dequeued(ptr: Ptr)
    | FoundEmpty

  /** The slot indices among the local variables are in range. */
  predicate InRange(m: Memory, p: Pc) {
    && m.head < |m.slots| < TWO64 && m.tail < |m.slots|
    && match p
       case EnqPut(_, i) => i < |m.slots|
       case DeqUnlock(i) => i < |m.slots|
       case DeqReadSlot(i) => i < |m.slots|
       case DeqTake(i, _) => i < |m.slots|
       case _ => true
  }

  function Unlocked(m: Memory): Memory {
    m.(lock := if m.lock == 1 then 0 else m.lock)
  }

  /** One access to shared memory, and where it takes the thread. */
  function Act(m: Memory, p: Pc, call: Call): (Memory, Pc)
    requires InRange(m, p)
  {
    match p
    case EnqReadTail(d) => (m, EnqSwapTail(d, m.tail))
    case EnqSwapTail(d, t) =>
      if m.tail == t then (m.(tail := (t + 1) % |m.slots|), EnqPut(d, t)) else (m, EnqReadTail(d))
    case EnqPut(d, i) =>
      if m.slots[i] == NULL then (m.(slots := m.slots[i := d]), Enqueued) else (m, p)
    case DeqLock => if m.lock == 0 then (m.(lock := 1), DeqReadHead) else (m, p)
    case DeqReadHead => (m, DeqReadTail(m.head))
    case DeqReadTail(h) => (m, if h == m.tail then DeqUnlockEmpty else DeqSwapHead(h))
    case DeqUnlockEmpty => (Unlocked(m), FoundEmpty)
    case DeqSwapHead(h) =>
      if m.head == h then (m.(head := (h + 1) % |m.slots|), DeqUnlock(h)) else (m, DeqReadHead)
    case DeqUnlock(i) => (Unlocked(m), DeqReadSlot(i))
    case DeqReadSlot(i) => (m, if m.slots[i] == NULL then p else DeqTake(i, m.slots[i]))
    case DeqTake(i, ptr) =>
      if m.slots[i] == ptr then (m.(slots := m.slots[i := NULL]), Dequeued(ptr)) else (m, DeqReadSlot(i))
    case _ => (m, Begin(call))
  }

  function Begin(call: Call): Pc {
    match call
    case Enqueue(d) => if d == NULL then EnqueueRefused else EnqReadTail(d)
    case Dequeue => DeqLock
  }

  // The queue in memory

  class AmCQueue {
    var readLock: Word
    var head: Word
    var tail: Word
    const data: array<Ptr>

    ghost function Shared(): Memory
      reads this, data
    {
      Memory(readLock, head, tail, data[..])
    }

    /** One slot more than asked for. */
    constructor (capacity: Word)
      requires capacity + 1 < TWO64
      ensures Shared() == Fresh(capacity) && fresh(data) && data.Length == capacity + 1
    {
      readLock, head, tail := 0, 0, 0;
      data := new Ptr[capacity + 1](_ => NULL);
    }

    /** The access that a thread at `p` makes. */
    method Step(p: Pc, call: Call) returns (p': Pc)
      requires InRange(Shared(), p)
      modifies this, data
      ensures (Shared(), p') == Act(old(Shared()), p, call)
    {
      p' := p;
      match p {
        case EnqReadTail(d) =>
          p' := EnqSwapTail(d, tail);
        case EnqSwapTail(d, t) =>
          if tail == t {
            tail := (t + 1) % data.Length;
            p' := EnqPut(d, t);
          } else {
            p' := EnqReadTail(d);
          }
        case EnqPut(d, i) =>
          if data[i] == NULL {
            data[i] := d;
            p' := Enqueued;
          }
        case DeqLock =>
          if readLock == 0 {
            readLock := 1;
            p' := DeqReadHead;
          }
        case DeqReadHead =>
          p' := DeqReadTail(head);
        case DeqReadTail(h) =>
          p' := if h == tail then DeqUnlockEmpty else DeqSwapHead(h);
        case DeqUnlockEmpty =>
          Unlock();
          p' := FoundEmpty;
        case DeqSwapHead(h) =>
          if head == h {
            head := (h + 1) % data.Length;
            p' := DeqUnlock(h);
          } else {
            p' := DeqReadHead;
          }
        case DeqUnlock(i) =>
          Unlock();
          p' := DeqReadSlot(i);
        case DeqReadSlot(i) =>
          if data[i] != NULL {
            p' := DeqTake(i, data[i]);
          }
        case DeqTake(i, ptr) =>
          if data[i] == ptr {
            data[i] := NULL;
            p' := Dequeued(ptr);
          } else {
            p' := DeqReadSlot(i);
          }
        case _ =>
          p' := Begin(call);
      }
    }

    method Unlock()
      modifies this`readLock
      ensures Shared() == Unlocked(old(Shared()))
    {
      if readLock == 1 {
        readLock := 0;
      }
    }
  }

  // All threads together, with what has happened so far

  /**
  `threads[i]` is where thread `i` stands, and `mine[i]` the number of the claim that it
  made last. Claims on either end are counted from zero. `offers[k]` is the value that
  the `k`-th claim on the tail will put, `got[k]` what the `k`-th claim on the head has
  taken, `stamp[i]` the claim whose value was put last into slot `i`. `started` holds all
  values handed to enqueue so far, `taken` all values that dequeue has returned.
  */
  datatype State = State(
    memory: Memory,
    threads: seq<Pc>,
    mine: seq<nat>,
    claimed: nat,
    offers: seq<Ptr>,
    got: map<nat, Ptr>,
    stamp: seq<nat>,
    started: multiset<Ptr>,
    taken: multiset<Ptr>)

  ghost function Fresh(capacity: Word): Memory
    requires capacity + 1 < TWO64
  {
    Memory(0, 0, 0, seq(capacity + 1, _ => NULL))
  }

  ghost function Initial(capacity: Word, n: nat): State
    requires capacity + 1 < TWO64
  {
    State(Fresh(capacity), seq(n, _ => Idle), seq(n, _ => 0), 0, [], map[], seq(capacity + 1, _ => 0),
          multiset{}, multiset{})
  }

  ghost predicate Shaped(s: State) {
    && |s.mine| == |s.threads| && |s.stamp| == |s.memory.slots|
    && s.memory.head < |s.memory.slots| < TWO64 && s.memory.tail < |s.memory.slots|
    && forall i :: 0 <= i < |s.threads| ==> InRange(s.memory, s.threads[i])
  }

  /** Thread `i` makes its next access. */
  ghost function Next(s: State, i: nat, call: Call): State
    requires Shaped(s) && i < |s.threads|
  {
    var p, (m, p') := s.threads[i], Act(s.memory, s.threads[i], call);
    var s' := s.(memory := m, threads := s.threads[i := p']);
    match p
    case EnqSwapTail(d, _) =>
      if p'.EnqPut? then s'.(mine := s.mine[i := |s.offers|], offers := s.offers + [d]) else s'
    case DeqSwapHead(_) =>
      if p'.DeqUnlock? then s'.(mine := s.mine[i := s.claimed], claimed := s.claimed + 1) else s'
    case EnqPut(_, k) =>
      if p'.Enqueued? then s'.(stamp := s.stamp[k := s.mine[i]]) else s'
    case DeqTake(_, ptr) =>
      if p'.Dequeued? then s'.(got := s.got[s.mine[i] := ptr], taken := s.taken + multiset{ptr}) else s'
    case _ =>
      if p'.EnqReadTail? && !p.EnqSwapTail? then s'.(started := s.started + multiset{p'.data}) else s'
  }

  // What holds in every reachable state

  ghost function HoldsLock(): Pc -> int {
    (p: Pc) => if p.DeqReadHead? || p.DeqReadTail? || p.DeqUnlockEmpty? || p.DeqSwapHead? || p.DeqUnlock? then 1 else 0
  }

  ghost function PutsTo(k: nat): Pc -> int {
    (p: Pc) => if p.EnqPut? && p.slot == k then 1 else 0
  }

  ghost function TakesFrom(k: nat): Pc -> int {
    (p: Pc) => if (p.DeqUnlock? || p.DeqReadSlot? || p.DeqTake?) && p.slot == k then 1 else 0
  }

  ghost function Carries(v: Ptr): Pc -> int {
    (p: Pc) => if (p.EnqReadTail? || p.EnqSwapTail? || p.EnqPut?) && p.data == v then 1 else 0
  }

  /** How many of the claims from `h` up to `t` fall on slot `k` of `c`. */
  ghost function Tickets(h: nat, t: nat, k: nat, c: nat): nat
    requires c > 0
    decreases t
  {
    if h >= t then 0 else Tickets(h, t - 1, k, c) + if (t - 1) % c == k then 1 else 0
  }

  /** Thread `i` knows what its program counter says it knows. */
  ghost predicate Sane(s: State, i: nat)
    requires Shaped(s) && i < |s.threads|
  {
    var c, n := |s.memory.slots|, s.mine[i];
    match s.threads[i]
    case EnqReadTail(d) => d != NULL
    case EnqSwapTail(d, _) => d != NULL
    case EnqPut(d, k) => d != NULL && n < |s.offers| && s.offers[n] == d && k == n % c
    case DeqReadTail(h) => h == s.memory.head
    case DeqSwapHead(h) => h == s.memory.head && s.claimed < |s.offers|
    case DeqUnlock(k) => n < s.claimed && k == n % c
    case DeqReadSlot(k) => n < s.claimed && k == n % c
    case DeqTake(k, ptr) => ptr != NULL && n < s.claimed && k == n % c
    case _ => true
  }

  /** Writers waiting on slot `k`, plus its value, less readers waiting on it: the claims not yet matched. */
  ghost predicate Ledger(s: State, k: nat)
    requires k < |s.memory.slots|
  {
    Outstanding(s, k) == Tickets(s.claimed, |s.offers|, k, |s.memory.slots|)
  }

  ghost function Outstanding(s: State, k: nat): int
    requires k < |s.memory.slots|
  {
    Total(s.threads, PutsTo(k)) + Filled(s.memory.slots, k) - Total(s.threads, TakesFrom(k))
  }

  /** Every value handed in is still carried by its thread, or in a slot, or has been taken out. */
  ghost predicate Conserved(s: State, v: Ptr) {
    s.started[v] == Total(s.threads, Carries(v)) + Total(s.memory.slots, Is(v)) + s.taken[v]
  }

  ghost predicate Claims(s: State)
    requires Shaped(s)
  {
    && s.claimed <= |s.offers|
    && s.memory.head == s.claimed % |s.memory.slots|
    && s.memory.tail == |s.offers| % |s.memory.slots|
    && 0 <= s.memory.lock <= 1
    && Total(s.threads, HoldsLock()) == s.memory.lock
  }

  ghost predicate Inv(s: State) {
    && Shaped(s)
    && Claims(s)
    && (forall i :: 0 <= i < |s.threads| ==> Sane(s, i))
    && (forall k :: 0 <= k < |s.memory.slots| ==> Ledger(s, k))
    && (forall v :: v != NULL ==> Conserved(s, v))
  }

  // Counting claims

  lemma {:induction false} TicketServed(h: nat, t: nat, k: nat, c: nat)
    requires c > 0 && h < t
    ensures Tickets(h, t, k, c) == Tickets(h + 1, t, k, c) + if h % c == k then 1 else 0
    decreases t
  {
    if h + 1 < t {
      TicketServed(h, t - 1, k, c);
    } else {
      assert Tickets(h, t - 1, k, c) == 0;
    }
  }

  lemma {:induction false} NoTickets(h: nat, t: nat, k: nat, c: nat)
    requires c > 0 && forall n :: h <= n < t ==> n % c != k
    ensures Tickets(h, t, k, c) == 0
    decreases t
  {
    if h < t {
      NoTickets(h, t - 1, k, c);
    }
  }

  /** Within one lap, no slot is claimed twice. */
  lemma {:induction false} OneTicket(h: nat, t: nat, k: nat, c: nat)
    requires c > 0 && t - h <= c
    ensures Tickets(h, t, k, c) <= 1
    decreases t
  {
    if h < t {
      if (t - 1) % c == k {
        forall n | h <= n < t - 1 ensures n % c != k {
          if n % c == k {
            SameRemainder(n, t - 1, c);
          }
        }
        NoTickets(h, t - 1, k, c);
      } else {
        OneTicket(h, t - 1, k, c);
      }
    }
  }

  // Every step keeps it

  lemma InitiallyInv(capacity: Word, n: nat)
    requires capacity + 1 < TWO64
    ensures Inv(Initial(capacity, n))
  {
    var s := Initial(capacity, n);
    var c := |s.memory.slots|;
    assert c > 0 && 0 % c == 0;
    TotalNone(s.threads, HoldsLock());
    forall k | 0 <= k < c ensures Ledger(s, k) {
      TotalNone(s.threads, PutsTo(k));
      TotalNone(s.threads, TakesFrom(k));
    }
    forall v | v != NULL ensures Conserved(s, v) {
      TotalNone(s.threads, Carries(v));
      TotalNone(s.memory.slots, Is(v));
    }
  }

  /** No two threads are between locking and unlocking. */
  lemma OneHolder(s: State, i: nat, j: nat)
    requires Shaped(s) && Claims(s) && i < |s.threads| && j < |s.threads| && i != j
    requires HoldsLock()(s.threads[i]) == 1
    ensures s.memory.lock == 1 && HoldsLock()(s.threads[j]) == 0
  {
    TotalCovers(s.threads, HoldsLock());
  }

  lemma NextShaped(s: State, i: nat, call: Call)
    requires Shaped(s) && i < |s.threads|
    ensures Shaped(Next(s, i, call))
  {
    var m, p := s.memory, s.threads[i];
    var (m', p') := Act(m, p, call);
    assert m'.head < |m'.slots| == |m.slots| && m'.tail < |m'.slots|;
    assert InRange(m', p');
    forall j | 0 <= j < |s.threads| && j != i ensures InRange(m', s.threads[j]) {
      assert InRange(m, s.threads[j]);
    }
  }

  /** The lock is taken and given back exactly on the way in and out of the locked part. */
  lemma LockFollows(m: Memory, p: Pc, call: Call)
    requires InRange(m, p) && 0 <= m.lock <= 1 && HoldsLock()(p) <= m.lock
    ensures var (m', p') := Act(m, p, call);
      m'.lock - m.lock == HoldsLock()(p') - HoldsLock()(p)
  {
  }

  lemma NextLock(s: State, i: nat, call: Call)
    requires Shaped(s) && i < |s.threads| && 0 <= s.memory.lock <= 1
    requires Total(s.threads, HoldsLock()) == s.memory.lock
    ensures var s' := Next(s, i, call);
      0 <= s'.memory.lock <= 1 && Total(s'.threads, HoldsLock()) == s'.memory.lock
  {
    TotalCovers(s.threads, HoldsLock());
    LockFollows(s.memory, s.threads[i], call);
    TotalUpdate(s.threads, i, Next(s, i, call).threads[i], HoldsLock());
    TotalCovers(Next(s, i, call).threads, HoldsLock());
    assert Next(s, i, call).memory.lock <= 1;
  }

  lemma NextClaims(s: State, i: nat, call: Call)
    requires Shaped(s) && Claims(s) && i < |s.threads| && Sane(s, i)
    ensures Shaped(Next(s, i, call)) && Claims(Next(s, i, call))
  {
    NextShaped(s, i, call);
    NextLock(s, i, call);
    NextIndex(s.claimed, |s.memory.slots|);
    NextIndex(|s.offers|, |s.memory.slots|);
  }

  lemma MoverSane(s: State, i: nat, call: Call)
    requires Shaped(s) && Claims(s) && i < |s.threads| && Shaped(Next(s, i, call)) && Sane(s, i)
    ensures Sane(Next(s, i, call), i)
  {
    if s.threads[i].DeqReadTail? && s.memory.head != s.memory.tail {
      assert s.claimed < |s.offers|;
    }
  }

  lemma OthersSane(s: State, i: nat, call: Call, j: nat)
    requires Shaped(s) && Claims(s) && i < |s.threads| && j < |s.threads| && Shaped(Next(s, i, call))
    requires i != j && Sane(s, i) && Sane(s, j)
    ensures Sane(Next(s, i, call), j)
  {
    if HoldsLock()(s.threads[i]) == 1 {
      OneHolder(s, i, j);
    }
  }

  /** Only the claims change what the ledger of a slot adds up. */
  lemma OutstandingFollows(m: Memory, p: Pc, call: Call, k: nat)
    requires InRange(m, p) && k < |m.slots|
    requires (p.EnqPut? ==> p.data != NULL) && (p.DeqTake? ==> p.ptr != NULL)
    ensures var (m', p') := Act(m, p, call);
      && |m'.slots| == |m.slots|
      && PutsTo(k)(p') - PutsTo(k)(p) + Filled(m'.slots, k) - Filled(m.slots, k) - TakesFrom(k)(p') + TakesFrom(k)(p)
         == (if p.EnqSwapTail? && p'.EnqPut? && p.tail == k then 1 else 0)
            - (if p.DeqSwapHead? && p'.DeqUnlock? && p.head == k then 1 else 0)
  {
  }

  lemma NextOutstanding(s: State, i: nat, call: Call, k: nat)
    requires Shaped(s) && i < |s.threads| && Sane(s, i) && k < |s.memory.slots|
    ensures var s', p := Next(s, i, call), s.threads[i];
      && |s'.memory.slots| == |s.memory.slots|
      && Outstanding(s', k) == Outstanding(s, k)
           + (if p.EnqSwapTail? && s'.threads[i].EnqPut? && p.tail == k then 1 else 0)
           - (if p.DeqSwapHead? && s'.threads[i].DeqUnlock? && p.head == k then 1 else 0)
  {
    var p' := Act(s.memory, s.threads[i], call).1;
    assert Next(s, i, call).threads == s.threads[i := p'];
    OutstandingFollows(s.memory, s.threads[i], call, k);
    TotalUpdate(s.threads, i, p', PutsTo(k));
    TotalUpdate(s.threads, i, p', TakesFrom(k));
  }

  /** The claims on the slot grow and shrink likewise. */
  lemma NextTickets(s: State, i: nat, call: Call, k: nat)
    requires Shaped(s) && Claims(s) && i < |s.threads| && Sane(s, i) && k < |s.memory.slots|
    ensures var s', p, c := Next(s, i, call), s.threads[i], |s.memory.slots|;
      Tickets(s'.claimed, |s'.offers|, k, c) == Tickets(s.claimed, |s.offers|, k, c)
           + (if p.EnqSwapTail? && s'.threads[i].EnqPut? && p.tail == k then 1 else 0)
           - (if p.DeqSwapHead? && s'.threads[i].DeqUnlock? && p.head == k then 1 else 0)
  {
    if s.threads[i].DeqSwapHead? {
      TicketServed(s.claimed, |s.offers|, k, |s.memory.slots|);
    }
  }

  lemma NextLedger(s: State, i: nat, call: Call, k: nat)
    requires Shaped(s) && Claims(s) && i < |s.threads| && Sane(s, i) && k < |s.memory.slots|
    requires Ledger(s, k)
    ensures |Next(s, i, call).memory.slots| == |s.memory.slots| && Ledger(Next(s, i, call), k)
  {
    NextOutstanding(s, i, call, k);
    NextTickets(s, i, call, k);
  }

  /** Only the beginning of an operation hands a value in. */
  lemma StartedFollows(s: State, i: nat, call: Call)
    requires Shaped(s) && i < |s.threads|
    ensures var p, s' := s.threads[i], Next(s, i, call);
      var p' := s'.threads[i];
      && s'.threads == s.threads[i := p']
      && s'.started == if p'.EnqReadTail? && !p.EnqSwapTail? then s.started + multiset{p'.data} else s.started
  {
  }

  lemma CarriesFollows(m: Memory, p: Pc, call: Call, v: Ptr)
    requires InRange(m, p)
    ensures var p' := Act(m, p, call).1;
      Carries(v)(p') + (if p.EnqPut? && p.data == v && p'.Enqueued? then 1 else 0)
        == Carries(v)(p) + (if p'.EnqReadTail? && !p.EnqSwapTail? && p'.data == v then 1 else 0)
  {
  }

  lemma NextCarried(s: State, i: nat, call: Call, v: Ptr)
    requires Shaped(s) && i < |s.threads| && Sane(s, i) && v != NULL
    ensures var s', p := Next(s, i, call), s.threads[i];
      && Total(s'.threads, Carries(v)) - s'.started[v]
         == Total(s.threads, Carries(v)) - s.started[v] - (if p.EnqPut? && p.data == v && s'.threads[i].Enqueued? then 1 else 0)
  {
    StartedFollows(s, i, call);
    CarriesFollows(s.memory, s.threads[i], call, v);
    TotalUpdate(s.threads, i, Next(s, i, call).threads[i], Carries(v));
  }

  lemma StoredFollows(m: Memory, p: Pc, call: Call, v: Ptr)
    requires InRange(m, p) && v != NULL
    ensures var (m', p') := Act(m, p, call);
      Total(m'.slots, Is(v)) == Total(m.slots, Is(v))
        + (if p.EnqPut? && p.data == v && p'.Enqueued? then 1 else 0)
        - (if p.DeqTake? && p.ptr == v && p'.Dequeued? then 1 else 0)
  {
    match p
    case EnqPut(d, k) => TotalUpdate(m.slots, k, d, Is(v));
    case DeqTake(k, _) => TotalUpdate(m.slots, k, NULL, Is(v));
    case _ => assert Act(m, p, call).0.slots == m.slots;
  }

  lemma NextStored(s: State, i: nat, call: Call, v: Ptr)
    requires Shaped(s) && i < |s.threads| && Sane(s, i) && v != NULL
    ensures var s', p := Next(s, i, call), s.threads[i];
      && Total(s'.memory.slots, Is(v)) + s'.taken[v]
         == Total(s.memory.slots, Is(v)) + s.taken[v] + (if p.EnqPut? && p.data == v && s'.threads[i].Enqueued? then 1 else 0)
  {
    StoredFollows(s.memory, s.threads[i], call, v);
  }

  lemma NextConserved(s: State, i: nat, call: Call, v: Ptr)
    requires Shaped(s) && i < |s.threads| && Sane(s, i) && v != NULL && Conserved(s, v)
    ensures Conserved(Next(s, i, call), v)
  {
    NextCarried(s, i, call, v);
    NextStored(s, i, call, v);
  }

  lemma NextInv(s: State, i: nat, call: Call)
    requires Inv(s) && i < |s.threads|
    ensures Inv(Next(s, i, call))
  {
    NextClaims(s, i, call);
    forall j | 0 <= j < |s.threads| ensures Sane(Next(s, i, call), j) {
      if i == j {
        MoverSane(s, i, call);
      } else {
        OthersSane(s, i, call, j);
      }
    }
    forall k | 0 <= k < |s.memory.slots| ensures Ledger(Next(s, i, call), k) {
      NextLedger(s, i, call, k);
    }
    forall v | v != NULL ensures Conserved(Next(s, i, call), v) {
      NextConserved(s, i, call, v);
    }
  }

  // Whole runs

  ghost function Run(s: State, turns: seq<Turn<Call>>): (r: State)
    requires Shaped(s) && forall t :: t in turns ==> t.thread < |s.threads|
    ensures Shaped(r) && |r.threads| == |s.threads|
    decreases |turns|
  {
    if turns == [] then s
    else
      var t := turns[0];
      NextShaped(s, t.thread, t.call);
      Run(Next(s, t.thread, t.call), turns[1..])
  }

  lemma {:induction false} RunInv(s: State, turns: seq<Turn<Call>>)
    requires Inv(s) && forall t :: t in turns ==> t.thread < |s.threads|
    ensures Inv(Run(s, turns))
    decreases |turns|
  {
    if turns != [] {
      NextInv(s, turns[0].thread, turns[0].call);
      RunInv(Next(s, turns[0].thread, turns[0].call), turns[1..]);
    }
  }

  /** Any number of threads, under any interleaving. */
  lemma EveryRunInv(capacity: Word, n: nat, turns: seq<Turn<Call>>)
    requires capacity + 1 < TWO64 && forall t :: t in turns ==> t.thread < n
    ensures Inv(Run(Initial(capacity, n), turns))
  {
    InitiallyInv(capacity, n);
    RunInv(Initial(capacity, n), turns);
  }

  // What follows in every reachable state

  /** A thread whose next access cannot succeed until another thread has moved. */
  ghost predicate Blocked(s: State, i: nat)
    requires Shaped(s) && i < |s.threads|
  {
    match s.threads[i]
    case EnqPut(_, k) => s.memory.slots[k] != NULL
    case DeqReadSlot(k) => s.memory.slots[k] == NULL
    case DeqLock => s.memory.lock != 0
    case _ => false
  }

  /** A reader that finds its slot empty has a writer that can fill it now. */
  lemma ReaderHasWriter(s: State, i: nat, k: nat) returns (j: nat)
    requires Inv(s) && i < |s.threads| && k < |s.memory.slots|
    requires TakesFrom(k)(s.threads[i]) == 1 && s.memory.slots[k] == NULL
    ensures j < |s.threads| && PutsTo(k)(s.threads[j]) == 1 && !Blocked(s, j)
  {
    assert Ledger(s, k);
    TotalCovers(s.threads, TakesFrom(k));
    j := TotalWitness(s.threads, PutsTo(k));
  }

  /** While the claims outstanding fit, a writer that finds its slot full has a reader that can empty it now. */
  lemma WriterHasReader(s: State, i: nat, k: nat) returns (j: nat)
    requires Inv(s) && i < |s.threads| && k < |s.memory.slots| && |s.offers| - s.claimed <= |s.memory.slots|
    requires PutsTo(k)(s.threads[i]) == 1 && s.memory.slots[k] != NULL
    ensures j < |s.threads| && TakesFrom(k)(s.threads[j]) == 1 && !Blocked(s, j)
  {
    assert Ledger(s, k);
    TotalCovers(s.threads, PutsTo(k));
    OneTicket(s.claimed, |s.offers|, k, |s.memory.slots|);
    j := TotalWitness(s.threads, TakesFrom(k));
  }

  /** Whoever is blocked waits for a thread that is not; only writers need the claims outstanding to fit for that. */
  lemma NoDeadlock(s: State, i: nat) returns (j: nat)
    requires Inv(s) && i < |s.threads| && Blocked(s, i)
    requires s.threads[i].EnqPut? ==> |s.offers| - s.claimed <= |s.memory.slots|
    ensures j < |s.threads| && j != i && !Blocked(s, j)
    ensures s.threads[i].EnqPut? ==> TakesFrom(s.threads[i].slot)(s.threads[j]) == 1
    ensures s.threads[i].DeqReadSlot? ==> PutsTo(s.threads[i].slot)(s.threads[j]) == 1
    ensures s.threads[i].DeqLock? ==> HoldsLock()(s.threads[j]) == 1
  {
    match s.threads[i]
    case EnqPut(_, k) => j := WriterHasReader(s, i, k);
    case DeqReadSlot(k) => j := ReaderHasWriter(s, i, k);
    case DeqLock => j := TotalWitness(s.threads, HoldsLock());
  }

  /** Dequeue reports an empty queue exactly when no claim is open, or when a whole lap of them is. */
  lemma EmptyAnswer(s: State, i: nat, call: Call)
    requires Inv(s) && i < |s.threads| && s.threads[i].DeqReadTail? && |s.offers| - s.claimed <= |s.memory.slots|
    ensures Next(s, i, call).threads[i].DeqUnlockEmpty?
      <==> |s.offers| == s.claimed || |s.offers| == s.claimed + |s.memory.slots|
  {
    var h, t, c := s.claimed, |s.offers|, |s.memory.slots|;
    assert Sane(s, i);
    if h % c == t % c && t < h + c {
      SameRemainder(h, t, c);
    }
    if t == h + c {
      assert h == (h / c) * c + h % c;
      assert (h / c + 1) * c == (h / c) * c + c;
      QuotientAndRest(h / c + 1, c, h % c);
    }
  }

  /** The thread is between two operations. */
  ghost predicate Rests(p: Pc) {
    p.Idle? || p.Enqueued? || p.EnqueueRefused? || p.Dequeued? || p.FoundEmpty?
  }

  /** When no operation is under way, the slots of the open claims are full and all others empty. */
  lemma AtRest(s: State, k: nat)
    requires Inv(s) && k < |s.memory.slots|
    requires forall i :: 0 <= i < |s.threads| ==> Rests(s.threads[i])
    ensures Filled(s.memory.slots, k) == Tickets(s.claimed, |s.offers|, k, |s.memory.slots|)
    ensures forall v :: v != NULL ==> s.started[v] == Total(s.memory.slots, Is(v)) + s.taken[v]
  {
    assert Ledger(s, k);
    TotalNone(s.threads, PutsTo(k));
    TotalNone(s.threads, TakesFrom(k));
    forall v | v != NULL ensures s.started[v] == Total(s.memory.slots, Is(v)) + s.taken[v] {
      assert Conserved(s, v);
      TotalNone(s.threads, Carries(v));
    }
  }

  // All slots together

  ghost function Filling(): Pc -> int {
    (p: Pc) => if p.EnqPut? then 1 else 0
  }

  ghost function Emptying(): Pc -> int {
    (p: Pc) => if p.DeqUnlock? || p.DeqReadSlot? || p.DeqTake? then 1 else 0
  }

  ghost function Carrying(): Pc -> int {
    (p: Pc) => if p.EnqReadTail? || p.EnqSwapTail? || p.EnqPut? then 1 else 0
  }

  ghost function Present(): Ptr -> int {
    (x: Ptr) => if x == NULL then 0 else 1
  }

  /** The values that the queue has been handed and has not given back. */
  ghost function Load(s: State): int {
    Total(s.threads, Carrying()) + Total(s.memory.slots, Present())
  }

  /** The ledger of the whole queue, by claims and by values. */
  ghost predicate Weighed(s: State) {
    && |s.offers| - s.claimed
       == Total(s.threads, Filling()) + Total(s.memory.slots, Present()) - Total(s.threads, Emptying())
    && |s.started| == Load(s) + |s.taken|
  }

  lemma InitiallyWeighed(capacity: Word, n: nat)
    requires capacity + 1 < TWO64
    ensures Weighed(Initial(capacity, n))
  {
    var s := Initial(capacity, n);
    TotalNone(s.threads, Filling());
    TotalNone(s.threads, Emptying());
    TotalNone(s.threads, Carrying());
    TotalNone(s.memory.slots, Present());
  }

  lemma PresentFollows(m: Memory, p: Pc, call: Call)
    requires InRange(m, p) && (p.EnqPut? ==> p.data != NULL) && (p.DeqTake? ==> p.ptr != NULL)
    ensures var (m', p') := Act(m, p, call);
      Total(m'.slots, Present()) == Total(m.slots, Present())
        + (if p.EnqPut? && p'.Enqueued? then 1 else 0) - (if p.DeqTake? && p'.Dequeued? then 1 else 0)
  {
    match p
    case EnqPut(d, k) => TotalUpdate(m.slots, k, d, Present());
    case DeqTake(k, _) => TotalUpdate(m.slots, k, NULL, Present());
    case _ => assert Act(m, p, call).0.slots == m.slots;
  }

  lemma WeightsFollow(m: Memory, p: Pc, call: Call)
    requires InRange(m, p)
    ensures var p' := Act(m, p, call).1;
      && Filling()(p') - Filling()(p)
         == (if p.EnqSwapTail? && p'.EnqPut? then 1 else 0) - (if p.EnqPut? && p'.Enqueued? then 1 else 0)
      && Emptying()(p') - Emptying()(p)
         == (if p.DeqSwapHead? && p'.DeqUnlock? then 1 else 0) - (if p.DeqTake? && p'.Dequeued? then 1 else 0)
      && Carrying()(p') - Carrying()(p)
         == (if p'.EnqReadTail? && !p.EnqSwapTail? then 1 else 0) - (if p.EnqPut? && p'.Enqueued? then 1 else 0)
  {
  }

  lemma NextWeighed(s: State, i: nat, call: Call)
    requires Shaped(s) && i < |s.threads| && Sane(s, i) && Weighed(s)
    ensures Weighed(Next(s, i, call))
  {
    var p, s' := s.threads[i], Next(s, i, call);
    PresentFollows(s.memory, p, call);
    WeightsFollow(s.memory, p, call);
    TotalUpdate(s.threads, i, s'.threads[i], Filling());
    TotalUpdate(s.threads, i, s'.threads[i], Emptying());
    TotalUpdate(s.threads, i, s'.threads[i], Carrying());
    NextHistory(s, i, call);
  }

  /** Which step moves which part of the history. */
  lemma NextHistory(s: State, i: nat, call: Call)
    requires Shaped(s) && i < |s.threads|
    ensures var p, s' := s.threads[i], Next(s, i, call);
      && |s'.offers| == |s.offers| + (if p.EnqSwapTail? && s'.threads[i].EnqPut? then 1 else 0)
      && s'.claimed == s.claimed + (if p.DeqSwapHead? && s'.threads[i].DeqUnlock? then 1 else 0)
      && |s'.started| == |s.started| + (if s'.threads[i].EnqReadTail? && !p.EnqSwapTail? then 1 else 0)
      && |s'.taken| == |s.taken| + (if p.DeqTake? && s'.threads[i].Dequeued? then 1 else 0)
  {
  }

  /** No more claims are open than values are in the queue. */
  lemma OpenWithinLoad(s: State)
    requires Weighed(s)
    ensures |s.offers| - s.claimed <= Load(s)
  {
    TotalOrder(s.threads, Filling(), Carrying());
    TotalCovers(s.threads, Emptying());
  }

  // First in, first out

  ghost predicate Puts(p: Pc) {
    p.EnqPut?
  }

  ghost predicate Takes(p: Pc) {
    p.DeqUnlock? || p.DeqReadSlot? || p.DeqTake?
  }

  /** No claim is made on a slot before the claim one lap earlier has been served. */
  ghost predicate Timely(s: State, i: nat)
    requires Shaped(s) && i < |s.threads|
  {
    var p, t, c := s.threads[i], |s.offers|, |s.memory.slots|;
    p.EnqSwapTail? && p.tail == s.memory.tail && t >= c ==> t - c in s.got
  }

  ghost predicate TimelyRun(s: State, turns: seq<Turn<Call>>)
    requires Shaped(s) && forall t :: t in turns ==> t.thread < |s.threads|
    decreases |turns|
  {
    turns != [] ==>
      && Timely(s, turns[0].thread)
      && (NextShaped(s, turns[0].thread, turns[0].call);
          TimelyRun(Next(s, turns[0].thread, turns[0].call), turns[1..]))
  }

  /** Claim `n` has been made on the tail and not been served. */
  ghost predicate Open(s: State, n: nat) {
    n < |s.offers| && n !in s.got
  }

  /** The value in slot `k` belongs to the open claim that its stamp names. */
  ghost predicate Stamped(s: State, k: nat)
    requires Shaped(s) && k < |s.stamp|
  {
    s.memory.slots[k] != NULL ==>
      var n := s.stamp[k];
      Open(s, n) && n % |s.memory.slots| == k && s.memory.slots[k] == s.offers[n]
  }

  /** A thread in the hand-over works for an open claim, and a writer's value is not in place yet. */
  ghost predicate Working(s: State, i: nat)
    requires Shaped(s) && i < |s.threads|
  {
    && (Puts(s.threads[i]) ==>
          Open(s, s.mine[i]) && (s.memory.slots[s.threads[i].slot] != NULL ==> s.stamp[s.threads[i].slot] != s.mine[i]))
    && (Takes(s.threads[i]) ==> Open(s, s.mine[i]))
  }

  /** No two threads work for one claim at one end. */
  ghost predicate Exclusive(s: State, i: nat, j: nat)
    requires Shaped(s) && i < |s.threads| && j < |s.threads|
  {
    && (i != j && Puts(s.threads[i]) && Puts(s.threads[j]) ==> s.mine[i] != s.mine[j])
    && (i != j && Takes(s.threads[i]) && Takes(s.threads[j]) ==> s.mine[i] != s.mine[j])
  }

  /** The claims a lap back have been served, each with the value of its own number. */
  ghost predicate Served(s: State) {
    && (forall n :: 0 <= n < |s.offers| - |s.memory.slots| ==> n in s.got)
    && (forall n :: n in s.got ==> n < s.claimed && n < |s.offers| && s.got[n] == s.offers[n])
  }

  ghost predicate Ordered(s: State)
    requires Shaped(s)
  {
    && Served(s)
    && (forall k :: 0 <= k < |s.stamp| ==> Stamped(s, k))
    && (forall i :: 0 <= i < |s.threads| ==> Working(s, i))
    && (forall i, j :: 0 <= i < |s.threads| && 0 <= j < |s.threads| ==> Exclusive(s, i, j))
  }

  /** Of the open claims on one slot there is only one. */
  lemma OneOpen(s: State, m: nat, n: nat)
    requires Shaped(s) && (forall n :: 0 <= n < |s.offers| - |s.memory.slots| ==> n in s.got)
    requires Open(s, m) && Open(s, n) && m % |s.memory.slots| == n % |s.memory.slots|
    ensures m == n
  {
    SameRemainder(Min(m, n), Max(m, n), |s.memory.slots|);
  }

  /** What is taken from a slot is the value of the claim that it is taken for. */
  lemma TakesOwn(s: State, i: nat)
    requires Inv(s) && Ordered(s) && i < |s.threads| && s.threads[i].DeqTake?
    requires s.memory.slots[s.threads[i].slot] != NULL
    ensures Open(s, s.mine[i]) && s.stamp[s.threads[i].slot] == s.mine[i]
    ensures s.memory.slots[s.threads[i].slot] == s.offers[s.mine[i]] && s.mine[i] < s.claimed
  {
    assert Sane(s, i) && Working(s, i) && Stamped(s, s.threads[i].slot);
    OneOpen(s, s.mine[i], s.stamp[s.threads[i].slot]);
  }

  lemma NextServed(s: State, i: nat, call: Call)
    requires Shaped(s) && i < |s.threads| && Sane(s, i) && Served(s) && Timely(s, i)
    requires s.threads[i].DeqTake? && s.memory.slots[s.threads[i].slot] == s.threads[i].ptr ==>
      && s.mine[i] < s.claimed && s.mine[i] < |s.offers| && s.threads[i].ptr == s.offers[s.mine[i]]
    ensures Served(Next(s, i, call))
  {
    var p, s' := s.threads[i], Next(s, i, call);
    if p.EnqSwapTail? {
      ServedByClaim(s, s', p.data);
    } else if p.DeqTake? {
      ServedByTake(s, s', s.mine[i]);
    } else {
      ServedOtherwise(s, s');
    }
  }

  lemma ServedByClaim(s: State, s': State, d: Ptr)
    requires Served(s) && |s'.memory.slots| == |s.memory.slots| && s'.claimed == s.claimed && s'.got == s.got
    requires s'.offers == s.offers || s'.offers == s.offers + [d]
    requires s'.offers == s.offers || (|s.offers| >= |s.memory.slots| ==> |s.offers| - |s.memory.slots| in s.got)
    ensures Served(s')
  {
  }

  lemma ServedByTake(s: State, s': State, n: nat)
    requires Served(s) && |s'.memory.slots| == |s.memory.slots| && s'.claimed == s.claimed && s'.offers == s.offers
    requires s'.got == s.got || (n < s.claimed && n < |s.offers| && s'.got == s.got[n := s.offers[n]])
    ensures Served(s')
  {
  }

  lemma ServedOtherwise(s: State, s': State)
    requires Served(s) && |s'.memory.slots| == |s.memory.slots| && s'.claimed >= s.claimed
    requires s'.offers == s.offers && s'.got == s.got
    ensures Served(s')
  {
  }

  lemma NextStamped(s: State, i: nat, call: Call, k: nat)
    requires Inv(s) && Ordered(s) && i < |s.threads| && k < |s.stamp| && Shaped(Next(s, i, call))
    ensures Stamped(Next(s, i, call), k)
  {
    assert Sane(s, i) && Working(s, i) && Stamped(s, k);
  }

  lemma MoverWorking(s: State, i: nat, call: Call)
    requires Shaped(s) && i < |s.threads| && Shaped(Next(s, i, call)) && Sane(s, i) && Working(s, i)
    requires Stamped(s, s.memory.tail) && forall n :: n in s.got ==> n < s.claimed && n < |s.offers|
    ensures Working(Next(s, i, call), i)
  {
    match s.threads[i]
    case EnqSwapTail(_, t) => assert s.memory.tail == t ==> Open(s.(offers := s.offers + [0]), |s.offers|);
    case DeqSwapHead(_) => assert s.claimed !in s.got;
    case _ =>
  }

  lemma OthersWorking(s: State, i: nat, call: Call, j: nat)
    requires Shaped(s) && i < |s.threads| && j < |s.threads| && i != j && Shaped(Next(s, i, call))
    requires Sane(s, i) && Sane(s, j) && Working(s, i) && Working(s, j) && Exclusive(s, i, j)
    requires s.threads[i].DeqTake? && s.memory.slots[s.threads[i].slot] == s.threads[i].ptr ==>
      s.stamp[s.threads[i].slot] == s.mine[i]
    ensures Working(Next(s, i, call), j)
  {
  }

  lemma NextExclusive(s: State, i: nat, call: Call, j: nat)
    requires Shaped(s) && i < |s.threads| && j < |s.threads| && i != j && Shaped(Next(s, i, call))
    requires Sane(s, i) && Sane(s, j) && Exclusive(s, i, j)
    ensures Exclusive(Next(s, i, call), i, j) && Exclusive(Next(s, i, call), j, i)
  {
  }

  lemma NextOrdered(s: State, i: nat, call: Call)
    requires Inv(s) && Ordered(s) && i < |s.threads| && Timely(s, i)
    ensures Shaped(Next(s, i, call)) && Ordered(Next(s, i, call))
  {
    var s' := Next(s, i, call);
    NextShaped(s, i, call);
    assert Sane(s, i) && Working(s, i) && Stamped(s, s.memory.tail);
    MoverWorking(s, i, call);
    if s.threads[i].DeqTake? && s.memory.slots[s.threads[i].slot] == s.threads[i].ptr {
      TakesOwn(s, i);
    }
    NextServed(s, i, call);
    forall k | 0 <= k < |s.stamp| ensures Stamped(s', k) {
      NextStamped(s, i, call, k);
    }
    forall j | 0 <= j < |s.threads| && j != i ensures Working(s', j) && Exclusive(s', i, j) && Exclusive(s', j, i) {
      assert Sane(s, j) && Working(s, j) && Exclusive(s, i, j);
      OthersWorking(s, i, call, j);
      NextExclusive(s, i, call, j);
    }
    OthersExclusive(s, i, call);
  }

  lemma OthersExclusive(s: State, i: nat, call: Call)
    requires Shaped(s) && i < |s.threads| && Shaped(Next(s, i, call))
    requires forall a, b :: 0 <= a < |s.threads| && 0 <= b < |s.threads| ==> Exclusive(s, a, b)
    ensures var s' := Next(s, i, call);
      forall a, b :: 0 <= a < |s.threads| && 0 <= b < |s.threads| && a != i && b != i ==> Exclusive(s', a, b)
  {
    forall a, b | 0 <= a < |s.threads| && 0 <= b < |s.threads| && a != i && b != i
      ensures Exclusive(Next(s, i, call), a, b)
    {
      assert Exclusive(s, a, b);
    }
  }

  /** If every claim waits for the one a lap earlier, each dequeue gets the value of the enqueue with its own number. */
  lemma {:induction false} TimelyRunInOrder(s: State, turns: seq<Turn<Call>>)
    requires Inv(s) && Ordered(s) && (forall t :: t in turns ==> t.thread < |s.threads|) && TimelyRun(s, turns)
    ensures var r := Run(s, turns);
      forall n :: n in r.got ==> n < |r.offers| && r.got[n] == r.offers[n]
    decreases |turns|
  {
    if turns != [] {
      var t := turns[0];
      NextInv(s, t.thread, t.call);
      NextOrdered(s, t.thread, t.call);
      TimelyRunInOrder(Next(s, t.thread, t.call), turns[1..]);
      assert Run(s, turns) == Run(Next(s, t.thread, t.call), turns[1..]);
    }
  }

  lemma FirstInFirstOut(capacity: Word, n: nat, turns: seq<Turn<Call>>)
    requires capacity + 1 < TWO64 && forall t :: t in turns ==> t.thread < n
    requires TimelyRun(Initial(capacity, n), turns)
    ensures var r := Run(Initial(capacity, n), turns);
      forall k :: k in r.got ==> k < |r.offers| && r.got[k] == r.offers[k]
  {
    InitiallyInv(capacity, n);
    TimelyRunInOrder(Initial(capacity, n), turns);
  }

  // Keeping within the capacity is not enough for that

  ghost predicate Fits(s: State) {
    |s.offers| - s.claimed < |s.memory.slots|
  }

  /** The claims outstanding fit into the capacity all along the run. */
  ghost predicate FitsRun(s: State, turns: seq<Turn<Call>>)
    requires Shaped(s) && forall t :: t in turns ==> t.thread < |s.threads|
    decreases |turns|
  {
    && Fits(s)
    && (turns != [] ==>
          (NextShaped(s, turns[0].thread, turns[0].call);
           FitsRun(Next(s, turns[0].thread, turns[0].call), turns[1..])))
  }

  lemma {:induction false} RunOn(s: State, a: seq<Turn<Call>>, b: seq<Turn<Call>>)
    requires Shaped(s) && (forall t :: t in a ==> t.thread < |s.threads|) && (forall t :: t in b ==> t.thread < |s.threads|)
    ensures forall t :: t in a + b ==> t.thread < |s.threads|
    ensures Run(s, a + b) == Run(Run(s, a), b)
    ensures FitsRun(s, a) && FitsRun(Run(s, a), b) ==> FitsRun(s, a + b)
    decreases |a|
  {
    if a == [] {
      assert a + b == b;
    } else {
      assert (a + b)[0] == a[0] && (a + b)[1..] == a[1..] + b;
      NextShaped(s, a[0].thread, a[0].call);
      RunOn(Next(s, a[0].thread, a[0].call), a[1..], b);
    }
  }

  lemma RunOne(s: State, t: Turn<Call>)
    requires Shaped(s) && t.thread < |s.threads|
    ensures Shaped(Next(s, t.thread, t.call))
    ensures Run(s, [t]) == Next(s, t.thread, t.call)
    ensures Fits(s) && Fits(Next(s, t.thread, t.call)) ==> FitsRun(s, [t])
  {
    NextShaped(s, t.thread, t.call);
    assert [t][1..] == [];
    assert Run(s, [t]) == Run(Next(s, t.thread, t.call), []);
  }

  /** The turns so far lead from `s` to `r` within the capacity. */
  ghost predicate Leads(s: State, turns: seq<Turn<Call>>, r: State) {
    && Shaped(s) && (forall t :: t in turns ==> t.thread < |s.threads|)
    && Run(s, turns) == r && FitsRun(s, turns) && Fits(r)
  }

  /** One more turn at the end. */
  lemma OneMore(s: State, turns: seq<Turn<Call>>, r: State, last: Turn<Call>)
    requires Leads(s, turns, r) && last.thread < |s.threads| && Fits(Next(r, last.thread, last.call))
    ensures Leads(s, turns + [last], Next(r, last.thread, last.call))
  {
    RunOne(r, last);
    RunOn(s, turns, [last]);
  }

  /** A thread claims on the tail undisturbed. */
  lemma ClaimTail(s: State, turns: seq<Turn<Call>>, r: State, i: nat, d: Ptr) returns (turns': seq<Turn<Call>>, r': State)
    requires Leads(s, turns, r) && i < |s.threads| && r.threads[i].Idle? && d != NULL
    requires |r.offers| + 1 - r.claimed < |r.memory.slots|
    ensures Leads(s, turns', r')
    ensures r' == r.(memory := r.memory.(tail := (r.memory.tail + 1) % |r.memory.slots|),
                     threads := r.threads[i := EnqPut(d, r.memory.tail)],
                     mine := r.mine[i := |r.offers|],
                     offers := r.offers + [d],
                     started := r.started + multiset{d})
  {
    var t := Turn(i, Enqueue(d));
    var p1, p2 := EnqReadTail(d), EnqSwapTail(d, r.memory.tail);
    Twice(r.threads, i, p1, p2);
    Twice(r.threads, i, p2, EnqPut(d, r.memory.tail));
    var r1 := r.(threads := r.threads[i := p1], started := r.started + multiset{d});
    OneMore(s, turns, r, t);
    var r2 := r1.(threads := r.threads[i := p2]);
    OneMore(s, turns + [t], r1, t);
    OneMore(s, turns + [t] + [t], r2, t);
    turns' := turns + [t] + [t] + [t];
    r' := Next(r2, i, t.call);
  }

  /** A thread claims on the head undisturbed. */
  lemma ClaimHead(s: State, turns: seq<Turn<Call>>, r: State, i: nat) returns (turns': seq<Turn<Call>>, r': State)
    requires Leads(s, turns, r) && i < |s.threads| && r.threads[i].Idle?
    requires r.memory.lock == 0 && r.memory.head != r.memory.tail
    ensures Leads(s, turns', r')
    ensures r' == r.(memory := r.memory.(head := (r.memory.head + 1) % |r.memory.slots|),
                     threads := r.threads[i := DeqReadSlot(r.memory.head)],
                     mine := r.mine[i := r.claimed],
                     claimed := r.claimed + 1)
  {
    var t, h := Turn(i, Dequeue), r.memory.head;
    var turns1, r1 := SeeHead(s, turns, r, i);
    Twice(r.threads, i, DeqSwapHead(h), DeqUnlock(h));
    OneMore(s, turns1, r1, t);
    var r2 := Next(r1, i, t.call);
    Twice(r.threads, i, DeqUnlock(h), DeqReadSlot(h));
    OneMore(s, turns1 + [t], r2, t);
    turns' := turns1 + [t] + [t];
    r' := Next(r2, i, t.call);
  }

  lemma SeeHead(s: State, turns: seq<Turn<Call>>, r: State, i: nat) returns (turns': seq<Turn<Call>>, r': State)
    requires Leads(s, turns, r) && i < |s.threads| && r.threads[i].Idle?
    requires r.memory.lock == 0 && r.memory.head != r.memory.tail
    ensures Leads(s, turns', r')
    ensures r' == r.(memory := r.memory.(lock := 1), threads := r.threads[i := DeqSwapHead(r.memory.head)])
  {
    var t, h := Turn(i, Dequeue), r.memory.head;
    var turns1, r1 := LockHead(s, turns, r, i);
    Twice(r.threads, i, DeqReadTail(h), DeqSwapHead(h));
    OneMore(s, turns1, r1, t);
    turns' := turns1 + [t];
    r' := Next(r1, i, t.call);
  }

  lemma LockHead(s: State, turns: seq<Turn<Call>>, r: State, i: nat) returns (turns': seq<Turn<Call>>, r': State)
    requires Leads(s, turns, r) && i < |s.threads| && r.threads[i].Idle? && r.memory.lock == 0
    ensures Leads(s, turns', r')
    ensures r' == r.(memory := r.memory.(lock := 1), threads := r.threads[i := DeqReadTail(r.memory.head)])
  {
    var t, h := Turn(i, Dequeue), r.memory.head;
    Twice(r.threads, i, DeqLock, DeqReadHead);
    Twice(r.threads, i, DeqReadHead, DeqReadTail(h));
    OneMore(s, turns, r, t);
    var r1 := r.(threads := r.threads[i := DeqLock]);
    OneMore(s, turns + [t], r1, t);
    var r2 := r.(memory := r.memory.(lock := 1), threads := r.threads[i := DeqReadHead]);
    OneMore(s, turns + [t] + [t], r2, t);
    turns' := turns + [t] + [t] + [t];
    r' := Next(r2, i, t.call);
  }

  lemma OneClaim() returns (turns: seq<Turn<Call>>, r: State)
    ensures Leads(Initial(1, 5), turns, r) && |r.threads| == |r.mine| == 5
    ensures r.memory == Memory(0, 1, 1, [NULL, NULL]) && r.offers == [1] && r.claimed == 1
    ensures r.threads[1] == DeqReadSlot(0) && r.mine[1] == 0 && r.threads[2..] == [Idle, Idle, Idle]
  {
    var s := Initial(1, 5);
    assert s.memory.slots == [NULL, NULL] && s.threads == [Idle, Idle, Idle, Idle, Idle];
    assert Leads(s, [], s);
    turns, r := ClaimTail(s, [], s, 0, 1);
    turns, r := ClaimHead(s, turns, r, 1);
  }

  lemma TwoClaims() returns (turns: seq<Turn<Call>>, r: State)
    ensures Leads(Initial(1, 5), turns, r) && |r.threads| == |r.mine| == 5
    ensures r.memory == Memory(0, 0, 0, [NULL, NULL]) && r.offers == [1, 2] && r.claimed == 2
    ensures r.threads[1] == DeqReadSlot(0) && r.mine[1] == 0 && r.threads[4] == Idle
  {
    var s := Initial(1, 5);
    turns, r := OneClaim();
    assert r.threads[2] == r.threads[2..][0] && r.threads[3] == r.threads[2..][1] && r.threads[4] == r.threads[2..][2];
    turns, r := ClaimTail(s, turns, r, 2, 2);
    turns, r := ClaimHead(s, turns, r, 3);
  }

  lemma ThreeClaims() returns (turns: seq<Turn<Call>>, r: State)
    ensures Leads(Initial(1, 5), turns, r) && |r.threads| == |r.mine| == 5
    ensures r.memory == Memory(0, 0, 1, [NULL, NULL]) && r.offers == [1, 2, 3] && r.claimed == 2
    ensures r.threads[1] == DeqReadSlot(0) && r.mine[1] == 0 && r.threads[4] == EnqPut(3, 0)
  {
    turns, r := TwoClaims();
    turns, r := ClaimTail(Initial(1, 5), turns, r, 4, 3);
  }

  lemma ThirdPut() returns (turns: seq<Turn<Call>>, r: State)
    ensures Leads(Initial(1, 5), turns, r) && |r.threads| == |r.mine| == 5
    ensures r.memory == Memory(0, 0, 1, [3, NULL]) && r.offers == [1, 2, 3] && r.claimed == 2
    ensures r.threads[1] == DeqReadSlot(0) && r.mine[1] == 0
  {
    var turns1, r1 := ThreeClaims();
    var put := Turn(4, Dequeue);
    OneMore(Initial(1, 5), turns1, r1, put);
    turns, r := turns1 + [put], Next(r1, 4, Dequeue);
  }

  lemma ThirdSeen() returns (turns: seq<Turn<Call>>, r: State)
    ensures Leads(Initial(1, 5), turns, r) && |r.threads| == |r.mine| == 5
    ensures r.memory == Memory(0, 0, 1, [3, NULL]) && r.offers == [1, 2, 3] && r.claimed == 2
    ensures r.threads[1] == DeqTake(0, 3) && r.mine[1] == 0
  {
    var turns1, r1 := ThirdPut();
    var look := Turn(1, Dequeue);
    OneMore(Initial(1, 5), turns1, r1, look);
    turns, r := turns1 + [look], Next(r1, 1, Dequeue);
  }

  /**
  One value queued and one being waited for is all that this run ever has, and yet the
  reader of the first claim gets the value of the third, which falls on the same slot.
  */
  lemma LapBreaksOrder() returns (turns: seq<Turn<Call>>, r: State)
    ensures (forall t :: t in turns ==> t.thread < 5) && Run(Initial(1, 5), turns) == r
    ensures FitsRun(Initial(1, 5), turns)
    ensures 0 in r.got && |r.offers| > 0 && r.got[0] != r.offers[0]
  {
    var turns1, r1 := ThirdSeen();
    var take := Turn(1, Dequeue);
    OneMore(Initial(1, 5), turns1, r1, take);
    turns, r := turns1 + [take], Next(r1, 1, Dequeue);
  }
}
