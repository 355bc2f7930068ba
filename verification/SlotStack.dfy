/**
The bounded stack shared by any number of threads. An operation claims a slot by moving
the size with compare-and-swap and then hands its value over through the slot; pushers
and poppers of several rounds may wait on one slot together.
*/
module SlotStack {
  import opened MachineWords
  import opened Counting
  import opened Threads

  datatype Memory = Memory(size: Word, slots: seq<Ptr>)

  datatype Call = Push(data: Ptr) | Pop

  /** Where a thread stands, named after the access that it makes next, with its local variables. */
  datatype Pc =
    | Idle
    | PushReadSize(data: Ptr)
    | PushSwapSize(data: Ptr, size: Word)
    | PushPut(data: Ptr, slot: Word)
    | PopReadSize
    | PopSwapSize(size: Word)
    | PopReadSlot(slot: Word)
    | PopTake(slot: Word, ptr: Ptr)
    | Pushed
    | PushRefused
    | Popped(ptr: Ptr)
    | PopRefused

  /** The local variables fit the memory and each other. */
  predicate InRange(m: Memory, p: Pc) {
    && m.size <= |m.slots| < TWO64
    && match p
       case PushReadSize(d) => d != NULL
       case PushSwapSize(d, n) => d != NULL && n < |m.slots|
       case PushPut(d, i) => d != NULL && i < |m.slots|
       case PopSwapSize(n) => 0 < n
       case PopReadSlot(i) => i < |m.slots|
       case PopTake(i, ptr) => ptr != NULL && i < |m.slots|
       case _ => true
  }

  function Begin(call: Call): Pc {
    match call
    case Push(d) => if d == NULL then PushRefused else PushReadSize(d)
    case Pop => PopReadSize
  }

  /** One access to shared memory, and where it takes the thread. */
  function Act(m: Memory, p: Pc, call: Call): (Memory, Pc)
    requires InRange(m, p)
  {
    match p
    case PushReadSize(d) => (m, if m.size >= |m.slots| then PushRefused else PushSwapSize(d, m.size))
    case PushSwapSize(d, n) => if m.size == n then (m.(size := n + 1), PushPut(d, n)) else (m, PushReadSize(d))
    case PushPut(d, i) => if m.slots[i] == NULL then (m.(slots := m.slots[i := d]), Pushed) else (m, p)
    case PopReadSize => (m, if m.size == 0 then PopRefused else PopSwapSize(m.size))
    case PopSwapSize(n) => if m.size == n then (m.(size := n - 1), PopReadSlot(n - 1)) else (m, PopReadSize)
    case PopReadSlot(i) => (m, if m.slots[i] == NULL then p else PopTake(i, m.slots[i]))
    case PopTake(i, ptr) =>
      if m.slots[i] == ptr then (m.(slots := m.slots[i := NULL]), Popped(ptr)) else (m, PopReadSlot(i))
    case _ => (m, Begin(call))
  }

  class AmStack {
    var size: Word
    const data: array<Ptr>

    ghost function Shared(): Memory
      reads this, data
    {
      Memory(size, data[..])
    }

    constructor (capacity: Word)
      ensures Shared() == Fresh(capacity) && fresh(data)
    {
      size := 0;
      data := new Ptr[capacity](_ => NULL);
    }

    /** The access that a thread at `p` makes. */
    method Step(p: Pc, call: Call) returns (p': Pc)
      requires InRange(Shared(), p)
      modifies this, data
      ensures (Shared(), p') == Act(old(Shared()), p, call)
    {
      p' := p;
      match p {
        case PushReadSize(d) =>
          p' := if size >= data.Length then PushRefused else PushSwapSize(d, size);
        case PushSwapSize(d, n) =>
          if size == n {
            size := n + 1;
            p' := PushPut(d, n);
          } else {
            p' := PushReadSize(d);
          }
        case PushPut(d, i) =>
          if data[i] == NULL {
            data[i] := d;
            p' := Pushed;
          }
        case PopReadSize =>
          p' := if size == 0 then PopRefused else PopSwapSize(size);
        case PopSwapSize(n) =>
          if size == n {
            size := n - 1;
            p' := PopReadSlot(n - 1);
          } else {
            p' := PopReadSize;
          }
        case PopReadSlot(i) =>
          if data[i] != NULL {
            p' := PopTake(i, data[i]);
          }
        case PopTake(i, ptr) =>
          if data[i] == ptr {
            data[i] := NULL;
            p' := Popped(ptr);
          } else {
            p' := PopReadSlot(i);
          }
        case _ =>
          p' := Begin(call);
      }
    }
  }

  // All threads together

  /**
  `started` holds all values handed to push so far, `refused` those that push has turned
  away from a full stack, `taken` all values that pop has returned.
  */
  datatype State = State(
    memory: Memory,
    threads: seq<Pc>,
    started: multiset<Ptr>,
    refused: multiset<Ptr>,
    taken: multiset<Ptr>)

  ghost function Fresh(capacity: Word): Memory {
    Memory(0, seq(capacity, _ => NULL))
  }

  ghost function Initial(capacity: Word, n: nat): State {
    State(Fresh(capacity), seq(n, _ => Idle), multiset{}, multiset{}, multiset{})
  }

  ghost predicate Shaped(s: State) {
    s.memory.size <= |s.memory.slots| < TWO64 && forall i :: 0 <= i < |s.threads| ==> InRange(s.memory, s.threads[i])
  }

  /** Thread `i` makes its next access. */
  ghost function Next(s: State, i: nat, call: Call): State
    requires Shaped(s) && i < |s.threads|
  {
    var p, (m, p') := s.threads[i], Act(s.memory, s.threads[i], call);
    var s' := s.(memory := m, threads := s.threads[i := p']);
    if p'.Popped? && p.PopTake? then s'.(taken := s.taken + multiset{p'.ptr})
    else if p'.PushRefused? && p.PushReadSize? then s'.(refused := s.refused + multiset{p.data})
    else if p'.PushReadSize? && !p.PushSwapSize? then s'.(started := s.started + multiset{p'.data})
    else s'
  }

  // What holds in every reachable state

  ghost function PutsTo(k: nat): Pc -> int {
    (p: Pc) => if p.PushPut? && p.slot == k then 1 else 0
  }

  ghost function TakesFrom(k: nat): Pc -> int {
    (p: Pc) => if (p.PopReadSlot? || p.PopTake?) && p.slot == k then 1 else 0
  }

  ghost function Carries(v: Ptr): Pc -> int {
    (p: Pc) => if (p.PushReadSize? || p.PushSwapSize? || p.PushPut?) && p.data == v then 1 else 0
  }

  /** Pushers waiting on slot `k`, plus its value, less poppers waiting on it: one if `k` is below the size. */
  ghost predicate Ledger(s: State, k: nat)
    requires k < |s.memory.slots|
  {
    Total(s.threads, PutsTo(k)) + Filled(s.memory.slots, k) - Total(s.threads, TakesFrom(k))
    == if k < s.memory.size then 1 else 0
  }

  /** Every value handed in is still carried by its thread, or in a slot, or refused, or taken out again. */
  ghost predicate Conserved(s: State, v: Ptr) {
    s.started[v] == Total(s.threads, Carries(v)) + Total(s.memory.slots, Is(v)) + s.refused[v] + s.taken[v]
  }

  ghost predicate Inv(s: State) {
    && Shaped(s)
    && (forall k :: 0 <= k < |s.memory.slots| ==> Ledger(s, k))
    && (forall v :: v != NULL ==> Conserved(s, v))
  }

  lemma InitiallyInv(capacity: Word, n: nat)
    ensures Inv(Initial(capacity, n))
  {
    var s := Initial(capacity, n);
    forall k | 0 <= k < |s.memory.slots| ensures Ledger(s, k) {
      TotalNone(s.threads, PutsTo(k));
      TotalNone(s.threads, TakesFrom(k));
    }
    forall v | v != NULL ensures Conserved(s, v) {
      TotalNone(s.threads, Carries(v));
      TotalNone(s.memory.slots, Is(v));
    }
  }

  lemma NextShaped(s: State, i: nat, call: Call)
    requires Shaped(s) && i < |s.threads|
    ensures Shaped(Next(s, i, call)) && |Next(s, i, call).memory.slots| == |s.memory.slots|
  {
    var m, p := s.memory, s.threads[i];
    var (m', p') := Act(m, p, call);
    assert InRange(m', p') && |m'.slots| == |m.slots|;
    forall j | 0 <= j < |s.threads| && j != i ensures InRange(m', s.threads[j]) {
      assert InRange(m, s.threads[j]);
    }
  }

  /** What one access adds to the ledger of a slot is what it adds to the size. */
  lemma LedgerFollows(m: Memory, p: Pc, call: Call, k: nat)
    requires InRange(m, p) && k < |m.slots|
    ensures var (m', p') := Act(m, p, call);
      && |m'.slots| == |m.slots|
      && PutsTo(k)(p') - PutsTo(k)(p) + Filled(m'.slots, k) - Filled(m.slots, k) - TakesFrom(k)(p') + TakesFrom(k)(p)
         == (if k < m'.size then 1 else 0) - (if k < m.size then 1 else 0)
  {
  }

  lemma NextLedger(s: State, i: nat, call: Call, k: nat)
    requires Shaped(s) && i < |s.threads| && k < |s.memory.slots| && Ledger(s, k)
    ensures |Next(s, i, call).memory.slots| == |s.memory.slots| && Ledger(Next(s, i, call), k)
  {
    var p' := Next(s, i, call).threads[i];
    LedgerFollows(s.memory, s.threads[i], call, k);
    TotalUpdate(s.threads, i, p', PutsTo(k));
    TotalUpdate(s.threads, i, p', TakesFrom(k));
  }

  /** Which steps hand a value in, and which turn one away. */
  lemma StartedFollows(s: State, i: nat, call: Call)
    requires Shaped(s) && i < |s.threads|
    ensures var p, s' := s.threads[i], Next(s, i, call);
      var p' := s'.threads[i];
      && s'.threads == s.threads[i := p']
      && s'.started == (if p'.PushReadSize? && !p.PushSwapSize? then s.started + multiset{p'.data} else s.started)
      && s'.refused == (if p'.PushRefused? && p.PushReadSize? then s.refused + multiset{p.data} else s.refused)
  {
  }

  lemma CarriesFollows(m: Memory, p: Pc, call: Call, v: Ptr)
    requires InRange(m, p)
    ensures var p' := Act(m, p, call).1;
      Carries(v)(p') + (if p.PushPut? && p.data == v && p'.Pushed? then 1 else 0)
          + (if p'.PushRefused? && p.PushReadSize? && p.data == v then 1 else 0)
        == Carries(v)(p) + (if p'.PushReadSize? && !p.PushSwapSize? && p'.data == v then 1 else 0)
  {
  }

  lemma NextCarried(s: State, i: nat, call: Call, v: Ptr)
    requires Shaped(s) && i < |s.threads| && v != NULL
    ensures var s', p := Next(s, i, call), s.threads[i];
      && Total(s'.threads, Carries(v)) + s'.refused[v] - s'.started[v]
         == Total(s.threads, Carries(v)) + s.refused[v] - s.started[v] - (if p.PushPut? && p.data == v && s'.threads[i].Pushed? then 1 else 0)
  {
    StartedFollows(s, i, call);
    CarriesFollows(s.memory, s.threads[i], call, v);
    TotalUpdate(s.threads, i, Next(s, i, call).threads[i], Carries(v));
  }

  lemma StoredFollows(m: Memory, p: Pc, call: Call, v: Ptr)
    requires InRange(m, p) && v != NULL
    ensures var (m', p') := Act(m, p, call);
      Total(m'.slots, Is(v)) == Total(m.slots, Is(v))
        + (if p.PushPut? && p.data == v && p'.Pushed? then 1 else 0)
        - (if p.PopTake? && p.ptr == v && p'.Popped? then 1 else 0)
  {
    match p
    case PushPut(d, k) => TotalUpdate(m.slots, k, d, Is(v));
    case PopTake(k, _) => TotalUpdate(m.slots, k, NULL, Is(v));
    case _ => assert Act(m, p, call).0.slots == m.slots;
  }

  lemma NextStored(s: State, i: nat, call: Call, v: Ptr)
    requires Shaped(s) && i < |s.threads| && v != NULL
    ensures var s', p := Next(s, i, call), s.threads[i];
      && Total(s'.memory.slots, Is(v)) + s'.taken[v]
         == Total(s.memory.slots, Is(v)) + s.taken[v] + (if p.PushPut? && p.data == v && s'.threads[i].Pushed? then 1 else 0)
  {
    StoredFollows(s.memory, s.threads[i], call, v);
  }

  lemma NextInv(s: State, i: nat, call: Call)
    requires Inv(s) && i < |s.threads|
    ensures Inv(Next(s, i, call))
  {
    NextShaped(s, i, call);
    forall k | 0 <= k < |s.memory.slots| ensures Ledger(Next(s, i, call), k) {
      NextLedger(s, i, call, k);
    }
    forall v | v != NULL ensures Conserved(Next(s, i, call), v) {
      assert Conserved(s, v);
      NextCarried(s, i, call, v);
      NextStored(s, i, call, v);
    }
  }

  // Whole runs

  ghost function Run(s: State, turns: seq<Turn<Call>>): (r: State)
    requires Shaped(s) && forall t :: t in turns ==> t.thread < |s.threads|
    ensures Shaped(r) && |r.threads| == |s.threads|
    decreases |turns|
  {
    if turns == [] then s
    else
      var t := turns[0];
      NextShaped(s, t.thread, t.call);
      Run(Next(s, t.thread, t.call), turns[1..])
  }

  lemma {:induction false} RunInv(s: State, turns: seq<Turn<Call>>)
    requires Inv(s) && forall t :: t in turns ==> t.thread < |s.threads|
    ensures Inv(Run(s, turns))
    decreases |turns|
  {
    if turns != [] {
      NextInv(s, turns[0].thread, turns[0].call);
      RunInv(Next(s, turns[0].thread, turns[0].call), turns[1..]);
    }
  }

  /** Any number of threads, under any interleaving. */
  lemma EveryRunInv(capacity: Word, n: nat, turns: seq<Turn<Call>>)
    requires forall t :: t in turns ==> t.thread < n
    ensures Inv(Run(Initial(capacity, n), turns))
  {
    InitiallyInv(capacity, n);
    RunInv(Initial(capacity, n), turns);
  }

  // What follows in every reachable state

  /** A thread whose next access cannot succeed until another thread has moved. */
  ghost predicate Blocked(s: State, i: nat)
    requires Shaped(s) && i < |s.threads|
  {
    match s.threads[i]
    case PushPut(_, k) => s.memory.slots[k] != NULL
    case PopReadSlot(k) => s.memory.slots[k] == NULL
    case _ => false
  }

  /** Whoever is blocked on a slot waits for a thread of the other kind, which is not. */
  lemma NoDeadlock(s: State, i: nat) returns (j: nat)
    requires Inv(s) && i < |s.threads| && Blocked(s, i)
    ensures j < |s.threads| && j != i && !Blocked(s, j)
    ensures s.threads[i].PushPut? ==> TakesFrom(s.threads[i].slot)(s.threads[j]) == 1
    ensures s.threads[i].PopReadSlot? ==> PutsTo(s.threads[i].slot)(s.threads[j]) == 1
  {
    var k := s.threads[i].slot;
    assert Ledger(s, k);
    if s.threads[i].PushPut? {
      TotalCovers(s.threads, PutsTo(k));
      j := TotalWitness(s.threads, TakesFrom(k));
    } else {
      TotalCovers(s.threads, TakesFrom(k));
      j := TotalWitness(s.threads, PutsTo(k));
    }
  }

  /** The thread is between two operations. */
  ghost predicate Resting(p: Pc) {
    p.Idle? || p.Pushed? || p.PushRefused? || p.Popped? || p.PopRefused?
  }

  ghost predicate AllRest(s: State) {
    forall i :: 0 <= i < |s.threads| ==> Resting(s.threads[i])
  }

  /** When no operation is under way, the filled slots are exactly those below the size. */
  lemma AtRest(s: State, k: nat)
    requires Inv(s) && k < |s.memory.slots| && AllRest(s)
    ensures s.memory.slots[k] != NULL <==> k < s.memory.size
  {
    assert Ledger(s, k);
    TotalNone(s.threads, PutsTo(k));
    TotalNone(s.threads, TakesFrom(k));
  }

  /** What the stack holds when no operation is under way, top last. */
  ghost function Contents(m: Memory): seq<Ptr>
    requires m.size <= |m.slots|
  {
    m.slots[..m.size]
  }

  // Undisturbed operations

  /** Thread `i`, asking for `call`, gets from `s` to `r` in `n` turns of its own. */
  ghost predicate Solo(s: State, i: nat, call: Call, n: nat, r: State) {
    && Shaped(s) && i < |s.threads|
    && Run(s, Alone(i, call, n)) == r
  }

  ghost function Alone(i: nat, call: Call, n: nat): seq<Turn<Call>> {
    seq(n, _ => Turn(i, call))
  }

  lemma SoloMore(s: State, i: nat, call: Call, n: nat, r: State)
    requires Solo(s, i, call, n, r)
    ensures Shaped(r) && i < |r.threads| && Solo(s, i, call, n + 1, Next(r, i, call))
  {
    RunMore(s, Alone(i, call, n), Turn(i, call));
    assert Alone(i, call, n + 1) == Alone(i, call, n) + [Turn(i, call)];
  }

  lemma {:induction false} RunMore(s: State, a: seq<Turn<Call>>, last: Turn<Call>)
    requires Shaped(s) && (forall t :: t in a ==> t.thread < |s.threads|) && last.thread < |s.threads|
    ensures Shaped(Run(s, a)) && (forall t :: t in a + [last] ==> t.thread < |s.threads|)
    ensures Run(s, a + [last]) == Next(Run(s, a), last.thread, last.call)
    decreases |a|
  {
    if a == [] {
      NextShaped(s, last.thread, last.call);
      assert ([] + [last])[1..] == [];
      assert Run(s, [last]) == Run(Next(s, last.thread, last.call), []);
    } else {
      assert (a + [last])[0] == a[0] && (a + [last])[1..] == a[1..] + [last];
      NextShaped(s, a[0].thread, a[0].call);
      RunMore(Next(s, a[0].thread, a[0].call), a[1..], last);
    }
  }

  lemma SoloNone(s: State, i: nat, call: Call)
    requires Shaped(s) && i < |s.threads|
    ensures Solo(s, i, call, 0, s)
  {
    assert Alone(i, call, 0) == [];
  }

  lemma BeginPush(s: State, i: nat, v: Ptr) returns (r: State)
    requires Shaped(s) && i < |s.threads| && Resting(s.threads[i]) && v != NULL
    ensures Solo(s, i, Push(v), 1, r) && r.memory == s.memory && r.threads == s.threads[i := PushReadSize(v)]
  {
    SoloNone(s, i, Push(v));
    SoloMore(s, i, Push(v), 0, s);
    r := Next(s, i, Push(v));
  }

  /** The thread has claimed the slot at the old size for its value. */
  lemma ClaimPush(s: State, i: nat, v: Ptr) returns (r: State)
    requires Shaped(s) && i < |s.threads| && Resting(s.threads[i]) && v != NULL && s.memory.size < |s.memory.slots|
    ensures Solo(s, i, Push(v), 3, r)
    ensures r.memory == s.memory.(size := s.memory.size + 1) && r.threads == s.threads[i := PushPut(v, s.memory.size)]
  {
    var call, n := Push(v), s.memory.size;
    var s1 := BeginPush(s, i, v);
    var s2 := s1.(threads := s.threads[i := PushSwapSize(v, n)]);
    Twice(s.threads, i, PushReadSize(v), PushSwapSize(v, n));
    SoloMore(s, i, call, 1, s1);
    Twice(s.threads, i, PushSwapSize(v, n), PushPut(v, n));
    SoloMore(s, i, call, 2, s2);
    r := Next(s2, i, call);
  }

  /** An undisturbed push adds its value on top, unless the stack is full. */
  lemma SoloPush(s: State, i: nat, v: Ptr) returns (r: State)
    requires Inv(s) && AllRest(s) && i < |s.threads| && v != NULL && s.memory.size < |s.memory.slots|
    ensures Solo(s, i, Push(v), 4, r)
    ensures r.threads == s.threads[i := Pushed] && r.memory.size == s.memory.size + 1 <= |r.memory.slots|
    ensures Contents(r.memory) == Contents(s.memory) + [v]
  {
    AtRest(s, s.memory.size);
    var s1 := ClaimPush(s, i, v);
    SoloMore(s, i, Push(v), 3, s1);
    Twice(s.threads, i, PushPut(v, s.memory.size), Pushed);
    r := Next(s1, i, Push(v));
  }

  /** On a full stack it is refused. */
  lemma SoloPushFull(s: State, i: nat, v: Ptr) returns (r: State)
    requires Inv(s) && i < |s.threads| && Resting(s.threads[i]) && v != NULL && s.memory.size == |s.memory.slots|
    ensures Solo(s, i, Push(v), 2, r) && r.threads == s.threads[i := PushRefused] && r.memory == s.memory
  {
    var s1 := BeginPush(s, i, v);
    Twice(s.threads, i, PushReadSize(v), PushRefused);
    SoloMore(s, i, Push(v), 1, s1);
    r := Next(s1, i, Push(v));
  }

  lemma BeginPop(s: State, i: nat) returns (r: State)
    requires Shaped(s) && i < |s.threads| && Resting(s.threads[i])
    ensures Solo(s, i, Pop, 1, r) && r == s.(threads := s.threads[i := PopReadSize])
  {
    SoloNone(s, i, Pop);
    SoloMore(s, i, Pop, 0, s);
    r := Next(s, i, Pop);
  }

  lemma ClaimPop(s: State, i: nat) returns (r: State)
    requires Shaped(s) && i < |s.threads| && Resting(s.threads[i]) && s.memory.size > 0
    ensures Solo(s, i, Pop, 3, r)
    ensures r.memory == s.memory.(size := s.memory.size - 1) && r.threads == s.threads[i := PopReadSlot(s.memory.size - 1)]
  {
    var n := s.memory.size;
    var s1 := BeginPop(s, i);
    var s2 := s.(threads := s.threads[i := PopSwapSize(n)]);
    Twice(s.threads, i, PopReadSize, PopSwapSize(n));
    SoloMore(s, i, Pop, 1, s1);
    Twice(s.threads, i, PopSwapSize(n), PopReadSlot(n - 1));
    SoloMore(s, i, Pop, 2, s2);
    r := Next(s2, i, Pop);
  }

  /** The thread has seen the value in the slot that it has claimed. */
  lemma SeePop(s: State, i: nat) returns (r: State)
    requires Inv(s) && AllRest(s) && i < |s.threads| && s.memory.size > 0
    ensures s.memory.slots[s.memory.size - 1] != NULL
    ensures Solo(s, i, Pop, 4, r)
    ensures var n := s.memory.size - 1;
      r.memory == s.memory.(size := n) && r.threads == s.threads[i := PopTake(n, s.memory.slots[n])]
  {
    var n := s.memory.size - 1;
    AtRest(s, n);
    var s1 := ClaimPop(s, i);
    Twice(s.threads, i, PopReadSlot(n), PopTake(n, s.memory.slots[n]));
    SoloMore(s, i, Pop, 3, s1);
    r := Next(s1, i, Pop);
  }

  /** An undisturbed pop takes the value on top. */
  lemma SoloPop(s: State, i: nat) returns (r: State)
    requires Inv(s) && AllRest(s) && i < |s.threads| && s.memory.size > 0
    ensures Solo(s, i, Pop, 5, r)
    ensures var v := s.memory.slots[s.memory.size - 1];
      && r.threads == s.threads[i := Popped(v)] && r.memory.size == s.memory.size - 1 <= |r.memory.slots|
      && Contents(s.memory) == Contents(r.memory) + [v]
  {
    var n := s.memory.size - 1;
    var s1 := SeePop(s, i);
    Twice(s.threads, i, PopTake(n, s.memory.slots[n]), Popped(s.memory.slots[n]));
    SoloMore(s, i, Pop, 4, s1);
    r := Next(s1, i, Pop);
  }

  /** On an empty stack it fails. */
  lemma SoloPopEmpty(s: State, i: nat) returns (r: State)
    requires Inv(s) && i < |s.threads| && Resting(s.threads[i]) && s.memory.size == 0
    ensures Solo(s, i, Pop, 2, r) && r.threads == s.threads[i := PopRefused] && r.memory == s.memory
  {
    var s1 := BeginPop(s, i);
    Twice(s.threads, i, PopReadSize, PopRefused);
    SoloMore(s, i, Pop, 1, s1);
    r := Next(s1, i, Pop);
  }
}
