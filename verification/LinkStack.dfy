/**
The stack of linked nodes shared by any number of threads. Push and pop swing the head
with compare-and-swap; poppers take turns under a spinlock, which is what keeps a saved
successor valid until the swap.
*/
module LinkStack {
  import opened MachineWords
  import opened Counting
  import opened Threads

  /** `next` holds the link field of every node, wherever the node is. */
  datatype Memory = Memory(lock: Word, head: Ptr, size: Word, next: map<Ptr, Ptr>)

  datatype Call = Push(node: Ptr) | Pop

  /** Where a thread stands, named after the access that it makes next, with its local variables. */
  datatype Pc =
    | Idle
    | PushReadHead(node: Ptr)
    | PushSetNext(node: Ptr, head: Ptr)
    | PushSwapHead(node: Ptr, head: Ptr)
    | PushCount(node: Ptr)
    | PopLock
    | PopReadHead
    | PopReadNext(head: Ptr)
    | PopSwapHead(head: Ptr, next: Ptr)
    | PopClearNext(head: Ptr)
    | PopCount(head: Ptr)
    | PopUnlock(head: Ptr)
    | Pushed
    | Popped(node: Ptr)
    | Aborted

  function NextOf(m: Memory, n: Ptr): Ptr {
    if n in m.next then m.next[n] else NULL
  }

  function Begin(call: Call): Pc {
    match call
    case Push(n) => PushReadHead(n)
    case Pop => PopLock
  }

  /** One access to shared memory, and where it takes the thread. */
  function Act(m: Memory, p: Pc, call: Call): (Memory, Pc) {
    match p
    case PushReadHead(n) => (m, PushSetNext(n, m.head))
    case PushSetNext(n, h) => (m.(next := m.next[n := h]), PushSwapHead(n, h))
    case PushSwapHead(n, h) => if m.head == h then (m.(head := n), PushCount(n)) else (m, PushReadHead(n))
    case PushCount(_) => (m.(size := (m.size + 1) % TWO64), Pushed)
    case PopLock => if m.lock == 0 then (m.(lock := 1), PopReadHead) else (m, p)
    case PopReadHead => (m, if m.head == NULL then PopUnlock(NULL) else PopReadNext(m.head))
    case PopReadNext(h) => (m, PopSwapHead(h, NextOf(m, h)))
    case PopSwapHead(h, x) => if m.head == h then (m.(head := x), PopClearNext(h)) else (m, PopReadHead)
    case PopClearNext(h) => (m.(next := m.next[h := NULL]), PopCount(h))
    case PopCount(h) => (m.(size := (m.size - 1) % TWO64), PopUnlock(h))
    case PopUnlock(h) => if m.lock == 1 then (m.(lock := 0), Popped(h)) else (m, Aborted)
    case Aborted => (m, p)
    case _ => (m, Begin(call))
  }

  class AmLStack {
    var consumerLock: Word
    var head: Ptr
    var size: Word
    var next: map<Ptr, Ptr>

    ghost function Shared(): Memory
      reads this
    {
      Memory(consumerLock, head, size, next)
    }

    /** Leaves the lock as it finds it. */
    method Init()
      modifies this`head, this`size
      ensures Shared() == old(Shared()).(head := NULL, size := 0)
    {
      size := 0;
      head := NULL;
    }

    /** The access that a thread at `p` makes. */
    method Step(p: Pc, call: Call) returns (p': Pc)
      modifies this
      ensures (Shared(), p') == Act(old(Shared()), p, call)
    {
      p' := p;
      match p {
        case PushReadHead(n) =>
          p' := PushSetNext(n, head);
        case PushSetNext(n, h) =>
          next := next[n := h];
          p' := PushSwapHead(n, h);
        case PushSwapHead(n, h) =>
          if head == h {
            head := n;
            p' := PushCount(n);
          } else {
            p' := PushReadHead(n);
          }
        case PushCount(_) =>
          size := (size + 1) % TWO64;
          p' := Pushed;
        case PopLock =>
          if consumerLock == 0 {
            consumerLock := 1;
            p' := PopReadHead;
          }
        case PopReadHead =>
          p' := if head == NULL then PopUnlock(NULL) else PopReadNext(head);
        case PopReadNext(h) =>
          p' := PopSwapHead(h, if h in next then next[h] else NULL);
        case PopSwapHead(h, x) =>
          if head == h {
            head := x;
            p' := PopClearNext(h);
          } else {
            p' := PopReadHead;
          }
        case PopClearNext(h) =>
          next := next[h := NULL];
          p' := PopCount(h);
        case PopCount(h) =>
          size := (size - 1) % TWO64;
          p' := PopUnlock(h);
        case PopUnlock(h) =>
          if consumerLock == 1 {
            consumerLock := 0;
            p' := Popped(h);
          } else {
            p' := Aborted;
          }
        case Aborted =>
        case _ =>
          p' := Begin(call);
      }
    }
  }

  // All threads together, with the stack that the links stand for

  /** The moment at which an operation takes effect. */
  datatype Event = PutOnTop(node: Ptr) | TookTop(node: Ptr) | SawEmpty

  /**
  `stack` lists the nodes from the top down. `log` holds the moments at which operations
  took effect, in order, and `point[i]` the place in it of thread `i`'s latest operation.
  */
  datatype State = State(memory: Memory, threads: seq<Pc>, stack: seq<Ptr>, log: seq<Event>, point: seq<nat>)

  ghost function Initial(lock: Word, next: map<Ptr, Ptr>, n: nat): State {
    State(Memory(lock, NULL, 0, next), seq(n, _ => Idle), [], [], seq(n, _ => 0))
  }

  ghost function Logged(s: State, i: nat, e: Event): State
    requires i < |s.point|
  {
    s.(log := s.log + [e], point := s.point[i := |s.log|])
  }

  /** Thread `i` makes its next access. */
  ghost function Next(s: State, i: nat, call: Call): State
    requires i < |s.threads| == |s.point|
  {
    var p, (m, p') := s.threads[i], Act(s.memory, s.threads[i], call);
    var s' := s.(memory := m, threads := s.threads[i := p']);
    if p.PushSwapHead? && p'.PushCount? then Logged(s'.(stack := [p.node] + s.stack), i, PutOnTop(p.node))
    else if p.PopSwapHead? && p'.PopClearNext? then
      Logged(s'.(stack := if s.stack == [] then [] else s.stack[1..]), i, TookTop(p.head))
    else if p.PopReadHead? && p'.PopUnlock? then Logged(s', i, SawEmpty)
    else s'
  }

  /** The node that a thread alone may touch. */
  ghost function Owned(p: Pc): Ptr {
    match p
    case PushReadHead(n) => n
    case PushSetNext(n, _) => n
    case PushSwapHead(n, _) => n
    case PopClearNext(h) => h
    case PopCount(h) => h
    case PopUnlock(h) => h
    case _ => NULL
  }

  ghost predicate Resting(p: Pc) {
    p.Idle? || p.Pushed? || p.Popped?
  }

  /** Callers push only nodes that are theirs: not on the stack and in no other thread's hands. */
  ghost predicate Fair(s: State, i: nat, call: Call)
    requires i < |s.threads|
  {
    Resting(s.threads[i]) && call.Push? ==>
      && call.node != NULL && call.node !in s.stack
      && forall j :: 0 <= j < |s.threads| ==> Owned(s.threads[j]) != call.node
  }

  // What holds in every reachable state

  ghost function HoldsLock(): Pc -> int {
    (p: Pc) => if p.PopReadHead? || p.PopReadNext? || p.PopSwapHead? || p.PopClearNext? || p.PopCount? || p.PopUnlock?
               then 1 else 0
  }

  /** What the thread has yet to add to the size. */
  ghost function Owes(): Pc -> int {
    (p: Pc) => if p.PushCount? then 1 else if p.PopClearNext? || p.PopCount? then -1 else 0
  }

  ghost function Below(stack: seq<Ptr>, k: nat): Ptr {
    if k + 1 < |stack| then stack[k + 1] else NULL
  }

  /** The links from the head run down the stack. */
  ghost predicate Chained(m: Memory, stack: seq<Ptr>) {
    && m.head == (if stack == [] then NULL else stack[0])
    && (forall k :: 0 <= k < |stack| ==> stack[k] != NULL && NextOf(m, stack[k]) == Below(stack, k))
    && (forall j, k :: 0 <= j < k < |stack| ==> stack[j] != stack[k])
  }

  ghost predicate LoggedAt(s: State, i: nat, e: Event)
    requires i < |s.point|
  {
    s.point[i] < |s.log| && s.log[s.point[i]] == e
  }

  /** What taking the node `h`, or finding none, must have been logged as. */
  ghost function Taking(h: Ptr): Event {
    if h == NULL then SawEmpty else TookTop(h)
  }

  /** Thread `i` knows what its program counter says it knows. */
  ghost predicate Sane(s: State, i: nat)
    requires i < |s.threads| == |s.point|
  {
    var p := s.threads[i];
    && (Owned(p) != NULL ==> Owned(p) !in s.stack)
    && match p
       case PushReadHead(n) => n != NULL
       case PushSetNext(n, _) => n != NULL
       case PushSwapHead(n, h) => n != NULL && NextOf(s.memory, n) == h
       case PushCount(n) => LoggedAt(s, i, PutOnTop(n))
       case PopReadNext(h) => h in s.stack
       case PopSwapHead(h, x) => h in s.stack && x == NextOf(s.memory, h)
       case PopClearNext(h) => h != NULL && LoggedAt(s, i, Taking(h))
       case PopCount(h) => h != NULL && LoggedAt(s, i, Taking(h))
       case PopUnlock(h) => LoggedAt(s, i, Taking(h))
       case Popped(h) => LoggedAt(s, i, Taking(h))
       case Aborted => false
       case _ => true
  }

  ghost predicate Exclusive(s: State, i: nat, j: nat)
    requires i < |s.threads| && j < |s.threads|
  {
    i != j && Owned(s.threads[i]) != NULL ==> Owned(s.threads[i]) != Owned(s.threads[j])
  }

  /** Read as calls made one after the other, the log is a correct use of a stack that ends as `stack`. */
  ghost predicate Replays(log: seq<Event>, stack: seq<Ptr>) {
    if log == [] then stack == []
    else
      var before := log[..|log| - 1];
      match log[|log| - 1]
      case PutOnTop(n) => stack != [] && stack[0] == n && Replays(before, stack[1..])
      case TookTop(n) => Replays(before, [n] + stack)
      case SawEmpty => stack == [] && Replays(before, [])
  }

  ghost predicate Inv(s: State) {
    && |s.point| == |s.threads|
    && Chained(s.memory, s.stack)
    && Replays(s.log, s.stack)
    && 0 <= s.memory.lock <= 1 && Total(s.threads, HoldsLock()) == s.memory.lock
    && s.memory.size == (|s.stack| - Total(s.threads, Owes())) % TWO64
    && (forall i :: 0 <= i < |s.threads| ==> Sane(s, i))
    && (forall i, j :: 0 <= i < |s.threads| && 0 <= j < |s.threads| ==> Exclusive(s, i, j))
  }

  lemma InitiallyInv(next: map<Ptr, Ptr>, n: nat)
    ensures Inv(Initial(0, next, n))
  {
    var s := Initial(0, next, n);
    TotalNone(s.threads, HoldsLock());
    TotalNone(s.threads, Owes());
  }

  /** The lock is taken and given back exactly on the way in and out of the locked part. */
  lemma LockFollows(m: Memory, p: Pc, call: Call)
    requires 0 <= m.lock <= 1 && HoldsLock()(p) <= m.lock
    ensures var (m', p') := Act(m, p, call);
      && 0 <= m'.lock <= 1
      && m'.lock - m.lock == HoldsLock()(p') - HoldsLock()(p)
      && (p'.Aborted? ==> p.Aborted?)
  {
  }

  lemma NextLock(s: State, i: nat, call: Call)
    requires i < |s.threads| == |s.point| && 0 <= s.memory.lock <= 1
    requires Total(s.threads, HoldsLock()) == s.memory.lock
    ensures var s' := Next(s, i, call);
      0 <= s'.memory.lock <= 1 && Total(s'.threads, HoldsLock()) == s'.memory.lock
  {
    TotalCovers(s.threads, HoldsLock());
    LockFollows(s.memory, s.threads[i], call);
    TotalUpdate(s.threads, i, Next(s, i, call).threads[i], HoldsLock());
  }

  /** The thread that has locked is alone in the locked part. */
  lemma OneHolder(s: State, i: nat, j: nat)
    requires i < |s.threads| && j < |s.threads| && i != j
    requires Total(s.threads, HoldsLock()) == s.memory.lock <= 1
    requires HoldsLock()(s.threads[i]) == 1
    ensures HoldsLock()(s.threads[j]) == 0
  {
    TotalCovers(s.threads, HoldsLock());
  }

  /** A saved successor is still the true one when the swap succeeds. */
  lemma SavedNextIsSuccessor(s: State, i: nat)
    requires |s.point| == |s.threads| && Chained(s.memory, s.stack) && i < |s.threads| && Sane(s, i)
    requires s.threads[i].PopSwapHead? && s.memory.head == s.threads[i].head
    ensures s.stack != [] && s.stack[0] == s.threads[i].head
    ensures s.threads[i].next == if |s.stack| > 1 then s.stack[1] else NULL
  {
    assert s.threads[i].head == s.stack[0];
    assert NextOf(s.memory, s.stack[0]) == Below(s.stack, 0);
  }

  lemma ChainedPop(m: Memory, stack: seq<Ptr>)
    requires Chained(m, stack) && stack != []
    ensures Chained(m.(head := Below(stack, 0)), stack[1..])
  {
    var rest := stack[1..];
    forall k | 0 <= k < |rest| ensures rest[k] != NULL && NextOf(m, rest[k]) == Below(rest, k) {
      assert rest[k] == stack[k + 1] && Below(rest, k) == Below(stack, k + 1);
    }
  }

  lemma ChainedPush(m: Memory, stack: seq<Ptr>, n: Ptr)
    requires Chained(m, stack) && n != NULL && n !in stack && NextOf(m, n) == m.head
    ensures Chained(m.(head := n), [n] + stack)
  {
    var more := [n] + stack;
    assert forall k :: 0 <= k < |stack| ==> more[k + 1] == stack[k];
    forall k | 0 <= k < |more| ensures more[k] != NULL && NextOf(m, more[k]) == Below(more, k) {
      if k > 0 {
        assert more[k] == stack[k - 1] && Below(more, k) == Below(stack, k - 1);
      }
    }
    forall j, k | 0 <= j < k < |more| ensures more[j] != more[k] {
      assert more[k] == stack[k - 1];
    }
  }

  /** The link field of a node elsewhere is no part of the chain. */
  lemma ChainedElsewhere(m: Memory, stack: seq<Ptr>, n: Ptr, x: Ptr)
    requires Chained(m, stack) && n !in stack
    ensures Chained(m.(next := m.next[n := x]), stack)
  {
    forall k | 0 <= k < |stack| ensures NextOf(m.(next := m.next[n := x]), stack[k]) == Below(stack, k) {
      assert NextOf(m, stack[k]) == Below(stack, k);
    }
  }

  lemma NextChained(s: State, i: nat, call: Call)
    requires |s.point| == |s.threads| && Chained(s.memory, s.stack) && i < |s.threads| && Sane(s, i)
    ensures var s' := Next(s, i, call); Chained(s'.memory, s'.stack)
  {
    match s.threads[i]
    case PopSwapHead(h, _) =>
      if s.memory.head == h {
        SavedNextIsSuccessor(s, i);
        ChainedPop(s.memory, s.stack);
      }
    case PushSwapHead(n, h) =>
      if s.memory.head == h {
        ChainedPush(s.memory, s.stack, n);
      }
    case PushSetNext(n, h) => ChainedElsewhere(s.memory, s.stack, n, h);
    case PopClearNext(h) => ChainedElsewhere(s.memory, s.stack, h, NULL);
    case _ =>
  }

  lemma NextReplays(s: State, i: nat, call: Call)
    requires |s.point| == |s.threads| && Chained(s.memory, s.stack) && i < |s.threads| && Sane(s, i)
    requires Replays(s.log, s.stack)
    ensures var s' := Next(s, i, call); Replays(s'.log, s'.stack)
  {
    var p, s' := s.threads[i], Next(s, i, call);
    if s'.log != s.log {
      assert s'.log[..|s'.log| - 1] == s.log;
      if p.PopSwapHead? {
        SavedNextIsSuccessor(s, i);
        assert s.stack == [p.head] + s.stack[1..];
      } else if p.PushSwapHead? {
        assert ([p.node] + s.stack)[1..] == s.stack;
      }
    }
  }

  /** What a step adds to the size word. */
  ghost function Counted(p: Pc): int {
    if p.PushCount? then 1 else if p.PopCount? then -1 else 0
  }

  lemma SizeFollows(m: Memory, p: Pc, call: Call)
    ensures Act(m, p, call).0.size == (m.size + Counted(p)) % TWO64
  {
  }

  /** What a step adds to the stack less what it adds to the size is what the thread then owes. */
  lemma OwesFollows(s: State, i: nat, call: Call)
    requires |s.point| == |s.threads| && i < |s.threads|
    requires s.threads[i].PopSwapHead? && s.memory.head == s.threads[i].head ==> s.stack != []
    ensures var s', p := Next(s, i, call), s.threads[i];
      |s'.stack| - |s.stack| - Counted(p) == Owes()(s'.threads[i]) - Owes()(p)
  {
  }

  lemma NextSize(s: State, i: nat, call: Call)
    requires |s.point| == |s.threads| && Chained(s.memory, s.stack) && i < |s.threads| && Sane(s, i)
    requires s.memory.size == (|s.stack| - Total(s.threads, Owes())) % TWO64
    ensures var s' := Next(s, i, call);
      s'.memory.size == (|s'.stack| - Total(s'.threads, Owes())) % TWO64
  {
    var s' := Next(s, i, call);
    SizeFollows(s.memory, s.threads[i], call);
    OwesFollows(s, i, call);
    TotalUpdate(s.threads, i, s'.threads[i], Owes());
    assert |s'.stack| - Total(s'.threads, Owes()) == |s.stack| - Total(s.threads, Owes()) + Counted(s.threads[i]);
    Wrap64Step(|s.stack| - Total(s.threads, Owes()), Counted(s.threads[i]));
  }

  lemma MoverSane(s: State, i: nat, call: Call)
    requires |s.point| == |s.threads| && Chained(s.memory, s.stack) && i < |s.threads| && Sane(s, i)
    requires Fair(s, i, call) && 0 <= s.memory.lock <= 1 && HoldsLock()(s.threads[i]) <= s.memory.lock
    ensures Sane(Next(s, i, call), i)
  {
    LockFollows(s.memory, s.threads[i], call);
    if s.threads[i].PopSwapHead? && s.memory.head == s.threads[i].head {
      SavedNextIsSuccessor(s, i);
    }
  }

  lemma OthersSane(s: State, i: nat, call: Call, j: nat)
    requires |s.point| == |s.threads| && Chained(s.memory, s.stack)
    requires i < |s.threads| && j < |s.threads| && i != j && Sane(s, i) && Sane(s, j) && Exclusive(s, j, i)
    requires HoldsLock()(s.threads[i]) == 1 ==> HoldsLock()(s.threads[j]) == 0
    ensures Sane(Next(s, i, call), j)
  {
    if s.threads[i].PopSwapHead? && s.memory.head == s.threads[i].head {
      SavedNextIsSuccessor(s, i);
    }
  }

  /** A thread comes by a node of its own as the caller's, or off the top of the stack. */
  lemma OwnedFollows(s: State, i: nat, call: Call)
    requires |s.point| == |s.threads| && Chained(s.memory, s.stack) && i < |s.threads| && Sane(s, i)
    ensures var n, p := Owned(Next(s, i, call).threads[i]), s.threads[i];
      || n == NULL || n == Owned(p)
      || (Resting(p) && call.Push? && n == call.node)
      || n in s.stack
  {
    if s.threads[i].PopSwapHead? && s.memory.head == s.threads[i].head {
      SavedNextIsSuccessor(s, i);
    }
  }

  lemma NextExclusive(s: State, i: nat, call: Call, j: nat)
    requires |s.point| == |s.threads| && Chained(s.memory, s.stack)
    requires i < |s.threads| && j < |s.threads| && i != j && Sane(s, i) && Sane(s, j)
    requires Exclusive(s, i, j) && Exclusive(s, j, i) && Fair(s, i, call)
    ensures Exclusive(Next(s, i, call), i, j) && Exclusive(Next(s, i, call), j, i)
  {
    OwnedFollows(s, i, call);
    assert Next(s, i, call).threads[j] == s.threads[j];
    NewOwner(Owned(Next(s, i, call).threads[i]), Owned(s.threads[j]), s, i, call, j);
  }

  lemma NewOwner(n: Ptr, m: Ptr, s: State, i: nat, call: Call, j: nat)
    requires i < |s.threads| && j < |s.threads| && i != j && m == Owned(s.threads[j])
    requires (m != NULL ==> m !in s.stack) && Fair(s, i, call) && Exclusive(s, i, j) && Exclusive(s, j, i)
    requires n == NULL || n == Owned(s.threads[i]) || (Resting(s.threads[i]) && call.Push? && n == call.node) || n in s.stack
    ensures n != NULL || m != NULL ==> n != m
  {
  }

  lemma NextInv(s: State, i: nat, call: Call)
    requires Inv(s) && i < |s.threads| && Fair(s, i, call)
    ensures Inv(Next(s, i, call))
  {
    var s' := Next(s, i, call);
    NextLock(s, i, call);
    NextChained(s, i, call);
    NextReplays(s, i, call);
    NextSize(s, i, call);
    TotalCovers(s.threads, HoldsLock());
    MoverSane(s, i, call);
    forall j | 0 <= j < |s.threads| && j != i ensures Sane(s', j) && Exclusive(s', i, j) && Exclusive(s', j, i) {
      if HoldsLock()(s.threads[i]) == 1 {
        OneHolder(s, i, j);
      }
      OthersSane(s, i, call, j);
      NextExclusive(s, i, call, j);
    }
    OthersExclusive(s, i, call);
  }

  lemma OthersExclusive(s: State, i: nat, call: Call)
    requires |s.point| == |s.threads| && i < |s.threads|
    requires forall a, b :: 0 <= a < |s.threads| && 0 <= b < |s.threads| ==> Exclusive(s, a, b)
    ensures var s' := Next(s, i, call);
      && Exclusive(s', i, i)
      && forall a, b :: 0 <= a < |s.threads| && 0 <= b < |s.threads| && a != i && b != i ==> Exclusive(s', a, b)
  {
    forall a, b | 0 <= a < |s.threads| && 0 <= b < |s.threads| && a != i && b != i
      ensures Exclusive(Next(s, i, call), a, b)
    {
      assert Exclusive(s, a, b);
    }
  }

  // Whole runs

  ghost function Run(s: State, turns: seq<Turn<Call>>): (r: State)
    requires |s.point| == |s.threads| && forall t :: t in turns ==> t.thread < |s.threads|
    ensures |r.point| == |r.threads| == |s.threads|
    decreases |turns|
  {
    if turns == [] then s else Run(Next(s, turns[0].thread, turns[0].call), turns[1..])
  }

  /** Nodes are pushed only by those who own them, all along the run. */
  ghost predicate FairRun(s: State, turns: seq<Turn<Call>>)
    requires |s.point| == |s.threads| && forall t :: t in turns ==> t.thread < |s.threads|
    decreases |turns|
  {
    turns != [] ==>
      Fair(s, turns[0].thread, turns[0].call) && FairRun(Next(s, turns[0].thread, turns[0].call), turns[1..])
  }

  lemma {:induction false} RunInv(s: State, turns: seq<Turn<Call>>)
    requires Inv(s) && (forall t :: t in turns ==> t.thread < |s.threads|) && FairRun(s, turns)
    ensures Inv(Run(s, turns))
    decreases |turns|
  {
    if turns != [] {
      NextInv(s, turns[0].thread, turns[0].call);
      RunInv(Next(s, turns[0].thread, turns[0].call), turns[1..]);
    }
  }

  /**
  Any number of pushers and poppers, under any interleaving: the operations took effect
  one at a time as on a sequential stack, which is the one that the links hold now; and
  no unlocking has failed.
  */
  lemma EveryRunIsAStack(next: map<Ptr, Ptr>, n: nat, turns: seq<Turn<Call>>)
    requires (forall t :: t in turns ==> t.thread < n) && FairRun(Initial(0, next, n), turns)
    ensures var s := Run(Initial(0, next, n), turns);
      && Inv(s)
      && Chained(s.memory, s.stack) && Replays(s.log, s.stack)
      && forall i :: 0 <= i < n ==> !s.threads[i].Aborted?
  {
    InitiallyInv(next, n);
    RunInv(Initial(0, next, n), turns);
    var s := Run(Initial(0, next, n), turns);
    forall i | 0 <= i < n ensures !s.threads[i].Aborted? {
      assert Sane(s, i);
    }
  }

  // What a pop hands back

  /** The node that a pop has cleared still leads nowhere. */
  ghost predicate Cleared(s: State, i: nat)
    requires i < |s.threads|
  {
    var p := s.threads[i];
    (p.PopCount? || p.PopUnlock?) && p.head != NULL ==> NextOf(s.memory, p.head) == NULL
  }

  lemma NextCleared(s: State, i: nat, call: Call, j: nat)
    requires |s.point| == |s.threads| && i < |s.threads| && j < |s.threads|
    requires Cleared(s, j) && (i != j ==> Exclusive(s, j, i))
    ensures Cleared(Next(s, i, call), j)
  {
  }

  lemma {:induction false} RunCleared(s: State, turns: seq<Turn<Call>>)
    requires Inv(s) && (forall t :: t in turns ==> t.thread < |s.threads|) && FairRun(s, turns)
    requires forall i :: 0 <= i < |s.threads| ==> Cleared(s, i)
    ensures Inv(Run(s, turns)) && forall i :: 0 <= i < |s.threads| ==> Cleared(Run(s, turns), i)
    decreases |turns|
  {
    if turns != [] {
      var i, call := turns[0].thread, turns[0].call;
      NextInv(s, i, call);
      forall j | 0 <= j < |s.threads| ensures Cleared(Next(s, i, call), j) {
        assert i != j ==> Exclusive(s, j, i);
        NextCleared(s, i, call, j);
      }
      RunCleared(Next(s, i, call), turns[1..]);
    }
  }

  /** In every run, the node that a pop returns leads nowhere at that moment. */
  lemma PopsHandBackCleared(next: map<Ptr, Ptr>, n: nat, turns: seq<Turn<Call>>, i: nat, call: Call)
    requires (forall t :: t in turns ==> t.thread < n) && FairRun(Initial(0, next, n), turns) && i < n
    ensures var s := Run(Initial(0, next, n), turns);
      var s' := Next(s, i, call);
      s.threads[i].PopUnlock? ==>
        && s'.threads[i] == Popped(s.threads[i].head)
        && (s.threads[i].head != NULL ==> NextOf(s'.memory, s.threads[i].head) == NULL)
  {
    InitiallyInv(next, n);
    RunCleared(Initial(0, next, n), turns);
    var s := Run(Initial(0, next, n), turns);
    if s.threads[i].PopUnlock? {
      assert Sane(s, i) && Cleared(s, i);
      TotalCovers(s.threads, HoldsLock());
    }
  }

  /** The operation of this thread has taken effect. */
  ghost predicate Past(p: Pc) {
    p.PushCount? || p.Pushed? || p.PopClearNext? || p.PopCount? || p.PopUnlock? || p.Popped?
  }

  /** Each operation is logged once, by one of its own steps, and reports what was logged. */
  lemma TakesEffectOnce(s: State, i: nat, call: Call)
    requires Inv(s) && i < |s.threads| && Fair(s, i, call)
    ensures var s' := Next(s, i, call);
      && |s'.log| == |s.log| + (if !Past(s.threads[i]) && Past(s'.threads[i]) then 1 else 0)
      && s'.log[..|s.log|] == s.log
      && (s'.log != s.log ==> s'.point[i] == |s.log|)
      && (s'.threads[i].Popped? ==> LoggedAt(s', i, Taking(s'.threads[i].node)))
      && (s'.threads[i].PushCount? ==> LoggedAt(s', i, PutOnTop(s'.threads[i].node)))
  {
    NextInv(s, i, call);
    LogsOnce(s, i, call);
    assert Sane(Next(s, i, call), i);
  }

  lemma LogsOnce(s: State, i: nat, call: Call)
    requires |s.point| == |s.threads| && i < |s.threads| && Sane(s, i) && Chained(s.memory, s.stack)
    ensures var s' := Next(s, i, call);
      && |s'.log| == |s.log| + (if !Past(s.threads[i]) && Past(s'.threads[i]) then 1 else 0)
      && s'.log[..|s.log|] == s.log
      && (s'.log != s.log ==> s'.point[i] == |s.log|)
  {
  }

  /** When no operation is under way the size is exact, as a 64-bit word. */
  lemma SizeAtRest(s: State)
    requires Inv(s) && forall i :: 0 <= i < |s.threads| ==> Resting(s.threads[i])
    ensures s.memory.size == |s.stack| % TWO64
  {
    TotalNone(s.threads, Owes());
  }

  /** Only the lock makes a thread wait, and whoever holds it can go on. */
  lemma NoDeadlock(s: State, i: nat) returns (j: nat)
    requires Inv(s) && i < |s.threads| && s.threads[i].PopLock? && s.memory.lock != 0
    ensures j < |s.threads| && HoldsLock()(s.threads[j]) == 1
    ensures forall call :: Next(s, j, call).threads[j] != s.threads[j]
  {
    j := TotalWitness(s.threads, HoldsLock());
  }

  // A stack whose lock word was not clear

  ghost predicate LockedOut(s: State, lock: Word) {
    && s.memory.lock == lock
    && forall i :: 0 <= i < |s.threads| ==>
      HoldsLock()(s.threads[i]) == 0 && !s.threads[i].Popped? && !s.threads[i].Aborted?
  }

  lemma {:induction false} StaysLockedOut(s: State, lock: Word, turns: seq<Turn<Call>>)
    requires |s.point| == |s.threads| && forall t :: t in turns ==> t.thread < |s.threads|
    requires lock != 0 && LockedOut(s, lock)
    ensures LockedOut(Run(s, turns), lock)
    decreases |turns|
  {
    if turns != [] {
      StaysLockedOut(Next(s, turns[0].thread, turns[0].call), lock, turns[1..]);
    }
  }

  /** In the end some pop has returned. */
  ghost predicate PopReturns(s: State, turns: seq<Turn<Call>>)
    requires |s.point| == |s.threads|
  {
    && (forall t :: t in turns ==> t.thread < |s.threads|)
    && exists i :: 0 <= i < |s.threads| && Run(s, turns).threads[i].Popped?
  }

  /** Initialization leaves the lock word alone: after it a pop can ever return if and only if the word was clear before. */
  lemma NeedsClearLock(lock: Word, next: map<Ptr, Ptr>, n: nat)
    requires n > 0
    ensures (exists turns :: PopReturns(Initial(lock, next, n), turns)) <==> lock == 0
  {
    var s := Initial(lock, next, n);
    if lock == 0 {
      PopOfNothing(next, n);
    } else {
      forall turns: seq<Turn<Call>> | (forall t :: t in turns ==> t.thread < |s.threads|) ensures !PopReturns(s, turns) {
        StaysLockedOut(s, lock, turns);
      }
    }
  }

  lemma PopOfNothing(next: map<Ptr, Ptr>, n: nat)
    requires n > 0
    ensures var t := Turn(0, Pop); PopReturns(Initial(0, next, n), [t, t, t, t])
  {
    var s, t := Initial(0, next, n), Turn(0, Pop);
    var s1 := Next(s, 0, Pop);
    var s2 := Next(s1, 0, Pop);
    var s3 := Next(s2, 0, Pop);
    var s4 := Next(s3, 0, Pop);
    assert s1.threads[0] == PopLock && s2.threads[0] == PopReadHead && s3.threads[0] == PopUnlock(NULL);
    assert s4.threads[0] == Popped(NULL);
    assert [t, t, t, t][1..] == [t, t, t] && [t, t, t][1..] == [t, t] && [t, t][1..] == [t] && [t][1..] == [];
    assert Run(s, [t, t, t, t]) == Run(s1, [t, t, t]) == Run(s2, [t, t]) == Run(s3, [t]) == Run(s4, []);
  }
}
