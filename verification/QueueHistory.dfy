/**
The bounded queue as its callers see it: what every operation, from its call to its return,
has done to the queue, and on what grounds it gave its answer.
*/
module QueueHistory {
  import opened MachineWords
  import opened Threads
  import opened CircularQueue

  /** At turn `turn` a dequeue compared the two ends, with `open` claims not yet matched. */
  datatype Sight = Sight(turn: nat, open: int)

  /**
  An operation called at turn `from`: the claims that it has made on each end, the values
  that it has put into slots and taken from slots, and its looks at the two ends.
  */
  datatype Op = Op(call: Call, from: nat, tails: int, heads: int, put: seq<Ptr>, got: seq<Ptr>, sights: seq<Sight>)

  /** An operation that has returned, at turn `until`. */
  datatype Done = Done(thread: nat, op: Op, answer: Pc, until: nat)

  /** A state with its past: `clock` turns have been taken, and `ops[i]` is thread `i`'s latest operation. */
  datatype Traced = Traced(s: State, clock: nat, ops: seq<Op>, done: seq<Done>)

  ghost predicate Whole(t: Traced) {
    Shaped(t.s) && |t.ops| == |t.s.threads|
  }

  ghost function Begun(capacity: Word, n: nat): Traced
    requires capacity + 1 < TWO64
  {
    Traced(Initial(capacity, n), 0, seq(n, _ => Called(Dequeue, 0)), [])
  }

  ghost function Called(call: Call, turn: nat): Op {
    Op(call, turn, 0, 0, [], [], [])
  }

  /** What a step of its thread adds to an operation. */
  ghost function Moved(op: Op, s: State, s': State, p: Pc, turn: nat): Op
  {
    var before, after := s.memory.slots, s'.memory.slots;
    op.(tails := op.tails + |s'.offers| - |s.offers|,
        heads := op.heads + s'.claimed - s.claimed,
        put := if after != before && p.EnqPut? && p.slot < |after| then op.put + [after[p.slot]] else op.put,
        got := if after != before && p.DeqTake? && p.slot < |before| then op.got + [before[p.slot]] else op.got,
        sights := if p.DeqReadTail? then op.sights + [Sight(turn, |s.offers| - s.claimed)] else op.sights)
  }

  ghost function Step(t: Traced, i: nat, call: Call): Traced
    requires Whole(t) && i < |t.s.threads|
  {
    var p, s' := t.s.threads[i], Next(t.s, i, call);
    var op := if Rests(p) then Called(call, t.clock) else Moved(t.ops[i], t.s, s', p, t.clock);
    var done := if Rests(s'.threads[i]) then t.done + [Done(i, op, s'.threads[i], t.clock)] else t.done;
    Traced(s', t.clock + 1, t.ops[i := op], done)
  }

  // What each operation can say of itself

  ghost predicate SawWholeLaps(op: Op, c: nat)
    requires c > 0
  {
    && op.sights != []
    && var last := op.sights[|op.sights| - 1];
       last.open >= 0 && last.open % c == 0 && op.from < last.turn
  }

  /** How far an operation has come fits where its thread stands. */
  ghost predicate Under(op: Op, p: Pc, c: nat)
    requires c > 0
  {
    && (p.EnqReadTail? || p.EnqSwapTail? ==> op.call == Enqueue(p.data) && op.tails == 0)
    && (p.EnqPut? ==> op.call == Enqueue(p.data) && op.tails == 1)
    && (p.EnqReadTail? || p.EnqSwapTail? || p.EnqPut? ==>
          op.heads == 0 && op.put == [] && op.got == [] && op.call.data != NULL)
    && (HoldsLock()(p) == 1 || p.DeqLock? || p.DeqReadSlot? || p.DeqTake? ==>
          op.call == Dequeue && op.tails == 0 && op.put == [] && op.got == [])
    && (p.DeqLock? || p.DeqReadHead? || p.DeqReadTail? || p.DeqUnlockEmpty? || p.DeqSwapHead? ==> op.heads == 0)
    && (p.DeqUnlock? || p.DeqReadSlot? || p.DeqTake? ==> op.heads == 1)
    && (p.DeqUnlockEmpty? ==> SawWholeLaps(op, c))
  }

  ghost predicate InTime(op: Op, clock: nat) {
    op.from < clock && forall k :: 0 <= k < |op.sights| ==> op.sights[k].turn < clock
  }

  /**
  What an operation that has returned has done. An enqueue of NULL is refused and does nothing;
  any other claims one slot and puts its value there. A dequeue either claims one slot and
  answers with the value that it took there, or has seen the queue without open claims, or
  with a whole number of laps of them, by a step of its own, and does nothing.
  */
  ghost predicate Lawful(d: Done, c: nat)
    requires c > 0
  {
    match d.op.call
    case Enqueue(v) =>
      && d.op.heads == 0 && d.op.got == []
      && if v == NULL then d.answer == EnqueueRefused && d.op.tails == 0 && d.op.put == []
         else d.answer == Enqueued && d.op.tails == 1 && d.op.put == [v]
    case Dequeue =>
      && d.op.tails == 0 && d.op.put == []
      && match d.answer
         case Dequeued(v) => d.op.heads == 1 && d.op.got == [v] && v != NULL
         case FoundEmpty =>
           && d.op.heads == 0 && d.op.got == [] && SawWholeLaps(d.op, c)
           && d.op.sights[|d.op.sights| - 1].turn < d.until
         case _ => false
  }

  ghost predicate Sound(t: Traced) {
    && Whole(t) && Inv(t.s)
    && (forall i :: 0 <= i < |t.ops| ==>
          !Rests(t.s.threads[i]) ==> Under(t.ops[i], t.s.threads[i], |t.s.memory.slots|) && InTime(t.ops[i], t.clock))
    && (forall k :: 0 <= k < |t.done| ==> Lawful(t.done[k], |t.s.memory.slots|))
  }

  // Every step keeps it

  lemma BegunSound(capacity: Word, n: nat)
    requires capacity + 1 < TWO64
    ensures Sound(Begun(capacity, n)) && |Begun(capacity, n).s.memory.slots| == capacity + 1
  {
    InitiallyInv(capacity, n);
  }

  /** The ends compare equal exactly if a whole number of laps is open. */
  lemma SeesWholeLaps(s: State, i: nat, call: Call)
    requires Shaped(s) && Claims(s) && i < |s.threads| && Sane(s, i) && s.threads[i].DeqReadTail?
    ensures Next(s, i, call).threads[i].DeqUnlockEmpty? <==> (|s.offers| - s.claimed) % |s.memory.slots| == 0
  {
    SameRest(s.claimed, |s.offers|, |s.memory.slots|);
  }

  lemma CalledUnder(m: Memory, p: Pc, call: Call, turn: nat, c: nat)
    requires InRange(m, p) && Rests(p) && c > 0
    ensures var p' := Act(m, p, call).1;
      if Rests(p') then Lawful(Done(0, Called(call, turn), p', turn), c)
      else Under(Called(call, turn), p', c)
  {
  }

  /** What an operation has come to after a step of its thread. */
  ghost predicate ComesTo(s: State, i: nat, call: Call, op: Op, turn: nat)
    requires Shaped(s) && i < |s.threads|
  {
    var s' := Next(s, i, call);
    var p', op' := s'.threads[i], Moved(op, s, s', s.threads[i], turn);
    if Rests(p') then Lawful(Done(i, op', p', turn), |s.memory.slots|) else Under(op', p', |s.memory.slots|)
  }

  lemma EnqueueComesTo(s: State, i: nat, call: Call, op: Op, turn: nat)
    requires Shaped(s) && i < |s.threads|
    requires var p := s.threads[i]; p.EnqReadTail? || p.EnqSwapTail? || p.EnqPut?
    requires Under(op, s.threads[i], |s.memory.slots|)
    ensures ComesTo(s, i, call, op, turn)
  {
    var p := s.threads[i];
    if p.EnqPut? && s.memory.slots[p.slot] == NULL {
      assert Next(s, i, call).memory.slots[p.slot] == p.data;
    }
  }

  lemma TakeComesTo(s: State, i: nat, call: Call, op: Op, turn: nat)
    requires Shaped(s) && i < |s.threads| && Sane(s, i)
    requires var p := s.threads[i]; p.DeqUnlock? || p.DeqReadSlot? || p.DeqTake?
    requires Under(op, s.threads[i], |s.memory.slots|)
    ensures ComesTo(s, i, call, op, turn)
  {
    var p := s.threads[i];
    if p.DeqTake? && s.memory.slots[p.slot] == p.ptr {
      assert Next(s, i, call).memory.slots[p.slot] == NULL;
    }
  }

  lemma LookComesTo(s: State, i: nat, call: Call, op: Op, turn: nat)
    requires Shaped(s) && Claims(s) && i < |s.threads| && Sane(s, i) && s.threads[i].DeqReadTail?
    requires Under(op, s.threads[i], |s.memory.slots|) && op.from < turn
    ensures ComesTo(s, i, call, op, turn)
  {
    SeesWholeLaps(s, i, call);
  }

  lemma LockedComesTo(s: State, i: nat, call: Call, op: Op, turn: nat)
    requires Shaped(s) && i < |s.threads|
    requires var p := s.threads[i]; p.DeqLock? || p.DeqReadHead? || p.DeqUnlockEmpty? || p.DeqSwapHead?
    requires Under(op, s.threads[i], |s.memory.slots|) && InTime(op, turn)
    ensures ComesTo(s, i, call, op, turn)
  {
  }

  lemma MoverComesTo(s: State, i: nat, call: Call, op: Op, turn: nat)
    requires Shaped(s) && Claims(s) && i < |s.threads| && Sane(s, i) && !Rests(s.threads[i])
    requires Under(op, s.threads[i], |s.memory.slots|) && InTime(op, turn)
    ensures ComesTo(s, i, call, op, turn)
  {
    var p := s.threads[i];
    if p.EnqReadTail? || p.EnqSwapTail? || p.EnqPut? {
      EnqueueComesTo(s, i, call, op, turn);
    } else if p.DeqUnlock? || p.DeqReadSlot? || p.DeqTake? {
      TakeComesTo(s, i, call, op, turn);
    } else if p.DeqReadTail? {
      LookComesTo(s, i, call, op, turn);
    } else {
      LockedComesTo(s, i, call, op, turn);
    }
  }

  /** The thread that moves, and the operation that it finishes if it does. */
  lemma MoverSound(t: Traced, i: nat, call: Call)
    requires Whole(t) && Claims(t.s) && i < |t.ops| && Sane(t.s, i)
    requires !Rests(t.s.threads[i]) ==>
      Under(t.ops[i], t.s.threads[i], |t.s.memory.slots|) && InTime(t.ops[i], t.clock)
    ensures var t', c := Step(t, i, call), |t.s.memory.slots|;
      && |t'.ops| == |t.ops| && |t'.s.threads| == |t.s.threads|
      && (!Rests(t'.s.threads[i]) ==> Under(t'.ops[i], t'.s.threads[i], c) && InTime(t'.ops[i], t'.clock))
      && (t'.done == t.done
          || (|t'.done| == |t.done| + 1 && t'.done[..|t.done|] == t.done && Lawful(t'.done[|t.done|], c)))
  {
    assert InRange(t.s.memory, t.s.threads[i]);
    if Rests(t.s.threads[i]) {
      CalledUnder(t.s.memory, t.s.threads[i], call, t.clock, |t.s.memory.slots|);
    } else {
      MoverComesTo(t.s, i, call, t.ops[i], t.clock);
    }
  }

  lemma StepSound(t: Traced, i: nat, call: Call)
    requires Sound(t) && i < |t.ops|
    ensures Sound(Step(t, i, call)) && |Step(t, i, call).ops| == |t.ops|
    ensures |Step(t, i, call).s.memory.slots| == |t.s.memory.slots|
  {
    var t' := Step(t, i, call);
    NextInv(t.s, i, call);
    SlotsStay(t.s, i, call);
    assert Sane(t.s, i);
    MoverSound(t, i, call);
    forall j | 0 <= j < |t.ops| && j != i && !Rests(t'.s.threads[j])
      ensures Under(t'.ops[j], t'.s.threads[j], |t'.s.memory.slots|) && InTime(t'.ops[j], t'.clock)
    {
      assert t'.ops[j] == t.ops[j] && t'.s.threads[j] == t.s.threads[j];
    }
    forall k | 0 <= k < |t'.done| ensures Lawful(t'.done[k], |t'.s.memory.slots|) {
      assert k < |t.done| ==> t'.done[k] == t.done[k];
    }
  }

  lemma SlotsStay(s: State, i: nat, call: Call)
    requires Shaped(s) && i < |s.threads|
    ensures |Next(s, i, call).memory.slots| == |s.memory.slots|
  {
    ActSlots(s.memory, s.threads[i], call);
    assert Next(s, i, call).memory == Act(s.memory, s.threads[i], call).0;
  }

  lemma ActSlots(m: Memory, p: Pc, call: Call)
    requires InRange(m, p)
    ensures |Act(m, p, call).0.slots| == |m.slots|
  {
  }

  // Whole runs

  ghost function Traces(t: Traced, turns: seq<Turn<Call>>): (r: Traced)
    requires Whole(t) && forall x :: x in turns ==> x.thread < |t.ops|
    ensures Whole(r) && r.s == Run(t.s, turns)
    decreases |turns|
  {
    if turns == [] then t
    else
      NextShaped(t.s, turns[0].thread, turns[0].call);
      Traces(Step(t, turns[0].thread, turns[0].call), turns[1..])
  }

  lemma {:induction false} TracesSound(t: Traced, turns: seq<Turn<Call>>)
    requires Sound(t) && forall x :: x in turns ==> x.thread < |t.ops|
    ensures Sound(Traces(t, turns)) && |Traces(t, turns).s.memory.slots| == |t.s.memory.slots|
    decreases |turns|
  {
    if turns != [] {
      StepSound(t, turns[0].thread, turns[0].call);
      TracesSound(Step(t, turns[0].thread, turns[0].call), turns[1..]);
    }
  }

  /**
  In every run of any number of threads, from whichever answer on each thread calls again:
  every operation that has returned has done, and seen, what its answer says.
  */
  lemma EveryAnswerIsTrue(capacity: Word, n: nat, turns: seq<Turn<Call>>)
    requires capacity + 1 < TWO64 && forall x :: x in turns ==> x.thread < n
    ensures var t := Traces(Begun(capacity, n), turns);
      && t.s == Run(Initial(capacity, n), turns)
      && forall k :: 0 <= k < |t.done| ==> Lawful(t.done[k], capacity + 1)
  {
    BegunSound(capacity, n);
    TracesSound(Begun(capacity, n), turns);
  }

  /** If the open claims fitted at that look, an empty answer has seen none of them open, or exactly one lap. */
  lemma EmptyOrOneLap(d: Done, c: nat)
    requires c > 0 && Lawful(d, c) && d.answer == FoundEmpty
    ensures d.op.sights != []
    ensures var open := d.op.sights[|d.op.sights| - 1].open;
      open <= c ==> open == 0 || open == c
  {
    var open := d.op.sights[|d.op.sights| - 1].open;
    if 0 < open < c {
      QuotientAndRest(0, c, open);
    }
  }
}
