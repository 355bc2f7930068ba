/**
The bounded stack as its callers see it: what every operation, from its call to its return,
has done to the stack, and on what grounds it gave its answer; and how far a thread gets
that is left alone.
*/
module StackHistory {
  import opened MachineWords
  import opened Threads
  import opened SlotStack

  /** At turn `turn` an operation read this size. */
  datatype Sight = Sight(turn: nat, size: int)

  /**
  An operation called at turn `from`: how often it has moved the size, the values that it has
  put into slots and taken from slots, and the sizes that it has read.
  */
  datatype Op = Op(call: Call, from: nat, claims: nat, put: seq<Ptr>, got: seq<Ptr>, sights: seq<Sight>)

  /** An operation that has returned, at turn `until`. */
  datatype Done = Done(thread: nat, op: Op, answer: Pc, until: nat)

  /** A state with its past: `clock` turns have been taken, and `ops[i]` is thread `i`'s latest operation. */
  datatype Traced = Traced(s: State, clock: nat, ops: seq<Op>, done: seq<Done>)

  ghost predicate Whole(t: Traced) {
    Shaped(t.s) && |t.ops| == |t.s.threads|
  }

  ghost function Called(call: Call, turn: nat): Op {
    Op(call, turn, 0, [], [], [])
  }

  ghost function Begun(capacity: Word, n: nat): Traced {
    Traced(Initial(capacity, n), 0, seq(n, _ => Called(Pop, 0)), [])
  }

  /** What a step of its thread adds to an operation. */
  ghost function Moved(op: Op, m: Memory, m': Memory, p: Pc, turn: nat): Op {
    op.(claims := if m'.size != m.size then op.claims + 1 else op.claims,
        put := if m'.slots != m.slots && p.PushPut? && p.slot < |m'.slots| then op.put + [m'.slots[p.slot]] else op.put,
        got := if m'.slots != m.slots && p.PopTake? && p.slot < |m.slots| then op.got + [m.slots[p.slot]] else op.got,
        sights := if p.PushReadSize? || p.PopReadSize? then op.sights + [Sight(turn, m.size)] else op.sights)
  }

  ghost function Step(t: Traced, i: nat, call: Call): Traced
    requires Whole(t) && i < |t.s.threads|
  {
    var p, s' := t.s.threads[i], Next(t.s, i, call);
    var op := if Resting(p) then Called(call, t.clock) else Moved(t.ops[i], t.s.memory, s'.memory, p, t.clock);
    var done := if Resting(s'.threads[i]) then t.done + [Done(i, op, s'.threads[i], t.clock)] else t.done;
    Traced(s', t.clock + 1, t.ops[i := op], done)
  }

  // What each operation can say of itself

  ghost predicate SawLast(op: Op, size: int) {
    && op.sights != []
    && var last := op.sights[|op.sights| - 1]; last.size == size && op.from < last.turn
  }

  /** How far an operation has come fits where its thread stands. */
  ghost predicate Under(op: Op, p: Pc) {
    && (p.PushReadSize? || p.PushSwapSize? || p.PushPut? ==> op.call == Push(p.data) && p.data != NULL)
    && (p.PopReadSize? || p.PopSwapSize? || p.PopReadSlot? || p.PopTake? ==> op.call == Pop)
    && (p.PushReadSize? || p.PushSwapSize? || p.PopReadSize? || p.PopSwapSize? ==> op.claims == 0)
    && (p.PushPut? || p.PopReadSlot? || p.PopTake? ==> op.claims == 1)
    && (!Resting(p) ==> op.put == [] && op.got == [])
    && (p.PushSwapSize? || p.PopSwapSize? ==> SawLast(op, p.size))
  }

  ghost predicate InTime(op: Op, clock: nat) {
    op.from < clock && forall k :: 0 <= k < |op.sights| ==> op.sights[k].turn < clock
  }

  /**
  What an operation that has returned has done. A push puts its value into the one slot that
  it has claimed, or is refused: it was given NULL, or has itself read the size as the
  capacity. A pop answers with the value of the one slot that it has claimed, or is refused:
  it has itself read the size as zero. What is refused has done nothing.
  */
  ghost predicate Lawful(d: Done, capacity: nat) {
    match d.answer
    case Pushed => d.op.call.Push? && d.op.claims == 1 && d.op.put == [d.op.call.data] && d.op.got == []
    case Popped(v) => d.op.call.Pop? && d.op.claims == 1 && d.op.put == [] && d.op.got == [v] && v != NULL
    case PushRefused =>
      && d.op.call.Push? && d.op.claims == 0 && d.op.put == [] && d.op.got == []
      && (d.op.call.data == NULL || SawLast(d.op, capacity))
    case PopRefused =>
      d.op.call.Pop? && d.op.claims == 0 && d.op.put == [] && d.op.got == [] && SawLast(d.op, 0)
    case _ => false
  }

  ghost predicate Sound(t: Traced) {
    && Whole(t)
    && (forall i :: 0 <= i < |t.ops| && !Resting(t.s.threads[i]) ==>
          Under(t.ops[i], t.s.threads[i]) && InTime(t.ops[i], t.clock))
    && (forall k :: 0 <= k < |t.done| ==> Lawful(t.done[k], |t.s.memory.slots|) && t.done[k].until < t.clock)
  }

  // Every step keeps it

  lemma CalledUnder(m: Memory, p: Pc, call: Call, turn: nat, i: nat)
    requires InRange(m, p) && Resting(p)
    ensures var (m', p') := Act(m, p, call);
      && m' == m
      && if Resting(p') then Lawful(Done(i, Called(call, turn), p', turn), |m.slots|) else Under(Called(call, turn), p')
  {
  }

  /** A failed swap leaves an operation under way; it returns only from its slot, or refused by the size just read. */
  lemma MovedUnder(m: Memory, p: Pc, call: Call, op: Op, turn: nat, i: nat)
    requires InRange(m, p) && !Resting(p) && Under(op, p) && InTime(op, turn)
    ensures var (m', p') := Act(m, p, call);
      var op' := Moved(op, m, m', p, turn);
      && |m'.slots| == |m.slots|
      && if Resting(p') then Lawful(Done(i, op', p', turn), |m.slots|) else Under(op', p')
  {
    var m' := Act(m, p, call).0;
    if p.PushPut? && m.slots[p.slot] == NULL {
      assert m'.slots[p.slot] == p.data;
    } else if p.PopTake? && m.slots[p.slot] == p.ptr {
      assert m'.slots[p.slot] == NULL;
    }
  }

  /** The thread that moves, and the operation that it finishes if it does. */
  lemma MoverSound(t: Traced, i: nat, call: Call)
    requires Whole(t) && i < |t.ops|
    requires !Resting(t.s.threads[i]) ==> Under(t.ops[i], t.s.threads[i]) && InTime(t.ops[i], t.clock)
    ensures var t' := Step(t, i, call);
      && |t'.s.memory.slots| == |t.s.memory.slots| && |t'.s.threads| == |t.s.threads|
      && (!Resting(t'.s.threads[i]) ==> Under(t'.ops[i], t'.s.threads[i]) && InTime(t'.ops[i], t'.clock))
      && (t'.done == t.done
          || (|t'.done| == |t.done| + 1 && t'.done[..|t.done|] == t.done
              && Lawful(t'.done[|t.done|], |t.s.memory.slots|) && t'.done[|t.done|].until == t.clock))
  {
    if Resting(t.s.threads[i]) {
      CalledUnder(t.s.memory, t.s.threads[i], call, t.clock, i);
    } else {
      MovedUnder(t.s.memory, t.s.threads[i], call, t.ops[i], t.clock, i);
    }
  }

  lemma StepSound(t: Traced, i: nat, call: Call)
    requires Sound(t) && i < |t.ops|
    ensures Sound(Step(t, i, call)) && |Step(t, i, call).ops| == |t.ops|
    ensures |Step(t, i, call).s.memory.slots| == |t.s.memory.slots|
  {
    var t' := Step(t, i, call);
    NextShaped(t.s, i, call);
    MoverSound(t, i, call);
    forall j | 0 <= j < |t.ops| && j != i && !Resting(t'.s.threads[j])
      ensures Under(t'.ops[j], t'.s.threads[j]) && InTime(t'.ops[j], t'.clock)
    {
      assert t'.ops[j] == t.ops[j] && t'.s.threads[j] == t.s.threads[j];
    }
    forall k | 0 <= k < |t'.done| ensures Lawful(t'.done[k], |t'.s.memory.slots|) && t'.done[k].until < t'.clock {
      assert k < |t.done| ==> t'.done[k] == t.done[k];
    }
  }

  // Whole runs

  ghost function Traces(t: Traced, turns: seq<Turn<Call>>): (r: Traced)
    requires Whole(t) && forall x :: x in turns ==> x.thread < |t.ops|
    ensures Whole(r) && r.s == Run(t.s, turns)
    decreases |turns|
  {
    if turns == [] then t
    else
      NextShaped(t.s, turns[0].thread, turns[0].call);
      Traces(Step(t, turns[0].thread, turns[0].call), turns[1..])
  }

  lemma {:induction false} TracesSound(t: Traced, turns: seq<Turn<Call>>)
    requires Sound(t) && forall x :: x in turns ==> x.thread < |t.ops|
    ensures Sound(Traces(t, turns)) && |Traces(t, turns).s.memory.slots| == |t.s.memory.slots|
    decreases |turns|
  {
    if turns != [] {
      StepSound(t, turns[0].thread, turns[0].call);
      TracesSound(Step(t, turns[0].thread, turns[0].call), turns[1..]);
    }
  }

  /**
  In every run of any number of threads, from whichever answer on each thread calls again:
  every operation that has returned has done, and seen, what its answer says.
  */
  lemma EveryAnswerIsTrue(capacity: Word, n: nat, turns: seq<Turn<Call>>)
    requires forall x :: x in turns ==> x.thread < n
    ensures var t := Traces(Begun(capacity, n), turns);
      && t.s == Run(Initial(capacity, n), turns)
      && forall k :: 0 <= k < |t.done| ==> Lawful(t.done[k], capacity)
  {
    TracesSound(Begun(capacity, n), turns);
  }

  // A thread left alone

  /** At most so many turns are left to a thread that is not disturbed. */
  ghost function Rank(m: Memory, p: Pc): nat
    requires InRange(m, p)
  {
    match p
    case PushReadSize(_) => 3
    case PushSwapSize(_, n) => if n == m.size then 2 else 4
    case PushPut(_, _) => 1
    case PopReadSize => 4
    case PopSwapSize(n) => if n == m.size then 3 else 5
    case PopReadSlot(_) => 2
    case PopTake(k, ptr) => if m.slots[k] == ptr then 1 else 3
    case _ => 0
  }

  /** Every access of a thread that is not blocked brings it nearer to its answer. */
  lemma ComesNearer(s: State, i: nat, call: Call)
    requires Shaped(s) && i < |s.threads| && !Resting(s.threads[i]) && !Blocked(s, i)
    ensures var s' := Next(s, i, call);
      && InRange(s.memory, s.threads[i]) && InRange(s'.memory, s'.threads[i])
      && Rank(s'.memory, s'.threads[i]) < Rank(s.memory, s.threads[i])
  {
    NextShaped(s, i, call);
  }

  /** Left alone, a thread in an operation has its answer, or has to wait for another, within five turns. */
  lemma {:induction false} RunsAlone(s: State, i: nat) returns (n: nat, r: State)
    requires Shaped(s) && i < |s.threads|
    ensures InRange(s.memory, s.threads[i]) && n <= Rank(s.memory, s.threads[i]) <= 5
    ensures Solo(s, i, Pop, n, r) && Shaped(r) && i < |r.threads|
    ensures Resting(r.threads[i]) || Blocked(r, i)
    decreases Rank(s.memory, s.threads[i])
  {
    if Resting(s.threads[i]) || Blocked(s, i) {
      assert Alone(i, Pop, 0) == [];
      return 0, s;
    }
    ComesNearer(s, i, Pop);
    NextShaped(s, i, Pop);
    var m;
    m, r := RunsAlone(Next(s, i, Pop), i);
    n := m + 1;
    assert Alone(i, Pop, n)[0] == Turn(i, Pop) && Alone(i, Pop, n)[1..] == Alone(i, Pop, m);
  }
}
