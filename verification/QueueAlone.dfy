/**
One thread of the bounded queue taking turns while the others pause: it comes to an answer
or to a wait for another thread, and used that way the queue is a sequence.
*/
module QueueAlone {
  import opened MachineWords
  import opened Counting
  import opened Threads
  import opened CircularQueue
  import opened Overtaking

  // How far it is to the answer

  /** At most so many turns are left to a thread that is not disturbed. */
  ghost function Rank(m: Memory, p: Pc): nat
    requires InRange(m, p)
  {
    match p
    case EnqReadTail(_) => 3
    case EnqSwapTail(_, t) => if t == m.tail then 2 else 4
    case EnqPut(_, _) => 1
    case DeqLock => 9
    case DeqReadHead => 8
    case DeqReadTail(h) => if h == m.head then 7 else 10
    case DeqUnlockEmpty => 1
    case DeqSwapHead(h) => if h == m.head then 6 else 9
    case DeqUnlock(_) => 5
    case DeqReadSlot(_) => 3
    case DeqTake(k, ptr) => if m.slots[k] == ptr then 1 else 4
    case _ => 0
  }

  /** Every access of a thread that is not blocked brings it nearer to its answer. */
  lemma ComesNearer(s: State, i: nat, call: Call)
    requires Shaped(s) && i < |s.threads| && !Rests(s.threads[i]) && !Blocked(s, i)
    ensures var s' := Next(s, i, call);
      && InRange(s.memory, s.threads[i]) && InRange(s'.memory, s'.threads[i])
      && Rank(s'.memory, s'.threads[i]) < Rank(s.memory, s.threads[i])
  {
    NextShaped(s, i, call);
  }

  ghost function Alone(i: nat, n: nat): seq<Turn<Call>> {
    seq(n, _ => Turn(i, Dequeue))
  }

  /** Left alone, a thread in an operation has its answer, or has to wait for another, within ten turns. */
  lemma {:induction false} RunsAlone(s: State, i: nat) returns (n: nat, r: State)
    requires Shaped(s) && i < |s.threads|
    ensures InRange(s.memory, s.threads[i]) && n <= Rank(s.memory, s.threads[i]) <= 10
    ensures Reaches(s, Alone(i, n), r) && Shaped(r) && i < |r.threads|
    ensures Rests(r.threads[i]) || Blocked(r, i)
    decreases Rank(s.memory, s.threads[i])
  {
    if Rests(s.threads[i]) || Blocked(s, i) {
      assert Alone(i, 0) == [];
      return 0, s;
    }
    ComesNearer(s, i, Dequeue);
    NextShaped(s, i, Dequeue);
    var m;
    m, r := RunsAlone(Next(s, i, Dequeue), i);
    n := m + 1;
    assert Alone(i, n)[0] == Turn(i, Dequeue) && Alone(i, n)[1..] == Alone(i, m);
  }

  // Undisturbed operations

  /** The turns lead from `s` to `r`, and no claim among them comes too early. */
  ghost predicate Leisurely(s: State, turns: seq<Turn<Call>>, r: State) {
    Reaches(s, turns, r) && TimelyRun(s, turns)
  }

  lemma {:induction false} OnTime(s: State, turns: seq<Turn<Call>>, r: State, last: Turn<Call>)
    requires Leisurely(s, turns, r) && last.thread < |s.threads|
    requires Shaped(r) && |r.threads| == |s.threads| && Timely(r, last.thread)
    ensures Leisurely(s, turns + [last], Next(r, last.thread, last.call))
    decreases |turns|
  {
    NextShaped(r, last.thread, last.call);
    if turns == [] {
      assert ([] + [last])[1..] == [];
      assert Run(r, [last]) == Run(Next(r, last.thread, last.call), []);
    } else {
      var t := turns[0];
      NextShaped(s, t.thread, t.call);
      OnTime(Next(s, t.thread, t.call), turns[1..], r, last);
      assert (turns + [last])[0] == t && (turns + [last])[1..] == turns[1..] + [last];
    }
  }

  ghost predicate AllRest(s: State) {
    forall i :: 0 <= i < |s.threads| ==> Rests(s.threads[i])
  }

  /** A queue in order, with no operation under way. */
  ghost predicate Quiet(s: State) {
    Inv(s) && Ordered(s) && Attended(s) && AllRest(s)
  }

  lemma InitiallyQuiet(capacity: Word, n: nat)
    requires capacity + 1 < TWO64
    ensures Quiet(Initial(capacity, n))
  {
    InitiallyInv(capacity, n);
  }

  /** The values offered and not yet claimed, first come first. */
  ghost function Contents(s: State): seq<Ptr>
    requires s.claimed <= |s.offers|
  {
    s.offers[s.claimed..]
  }

  /** In a quiet queue the slot of each open claim has the value of that claim. */
  lemma InPlace(s: State, n: nat)
    requires Quiet(s) && s.claimed <= n < |s.offers|
    ensures s.memory.slots[n % |s.memory.slots|] == s.offers[n] != NULL
  {
    var k := n % |s.memory.slots|;
    AtRest(s, k);
    SomeTicket(s.claimed, |s.offers|, n, |s.memory.slots|);
    assert Stamped(s, k);
    OneOpen(s, s.stamp[k], n);
  }

  lemma {:induction false} SomeTicket(h: nat, t: nat, n: nat, c: nat)
    requires c > 0 && h <= n < t
    ensures Tickets(h, t, n % c, c) > 0
    decreases t
  {
    if n < t - 1 {
      SomeTicket(h, t - 1, n, c);
    }
  }

  /** In a quiet queue with a slot to spare, the next slot is empty and its last claim served. */
  lemma RoomForNext(s: State)
    requires Quiet(s) && |s.offers| - s.claimed < |s.memory.slots|
    ensures s.memory.slots[s.memory.tail] == NULL && s.memory.lock == 0
    ensures |s.offers| >= |s.memory.slots| ==> |s.offers| - |s.memory.slots| in s.got
  {
    var c, t := |s.memory.slots|, |s.offers|;
    AtRest(s, s.memory.tail);
    forall n | s.claimed <= n < t ensures n % c != t % c {
      if n % c == t % c {
        SameRemainder(n, t, c);
      }
    }
    NoTickets(s.claimed, t, s.memory.tail, c);
    TotalNone(s.threads, HoldsLock());
  }

  /** One turn more, of a thread that is not claiming on the tail. */
  lemma Unhurried(s: State, turns: seq<Turn<Call>>, r: State, i: nat, call: Call, r': State)
    requires Leisurely(s, turns, r) && Shaped(r) && i < |s.threads| == |r.threads| && !r.threads[i].EnqSwapTail?
    requires r' == Next(r, i, call)
    ensures Leisurely(s, turns + [Turn(i, call)], r') && Shaped(r') && |r'.threads| == |s.threads|
  {
    NextShaped(r, i, call);
    OnTime(s, turns, r, Turn(i, call));
  }

  lemma ClaimAlone(s: State, i: nat, v: Ptr) returns (turns: seq<Turn<Call>>, r: State)
    requires Quiet(s) && i < |s.threads| && v != NULL && |s.offers| - s.claimed < |s.memory.slots|
    ensures |turns| == 3 && Leisurely(s, turns, r) && Shaped(r)
    ensures r == s.(memory := s.memory.(tail := (s.memory.tail + 1) % |s.memory.slots|),
                    threads := s.threads[i := EnqPut(v, s.memory.tail)], mine := s.mine[i := |s.offers|],
                    offers := s.offers + [v], started := s.started + multiset{v})
  {
    var call, k := Enqueue(v), s.memory.tail;
    RoomForNext(s);
    var s1 := s.(threads := s.threads[i := EnqReadTail(v)], started := s.started + multiset{v});
    assert Leisurely(s, [], s);
    Unhurried(s, [], s, i, call, s1);
    Twice(s.threads, i, EnqReadTail(v), EnqSwapTail(v, k));
    var s2 := s1.(threads := s.threads[i := EnqSwapTail(v, k)]);
    Unhurried(s, [] + [Turn(i, call)], s1, i, call, s2);
    Twice(s.threads, i, EnqSwapTail(v, k), EnqPut(v, k));
    OnTime(s, [] + [Turn(i, call)] + [Turn(i, call)], s2, Turn(i, call));
    turns, r := [] + [Turn(i, call)] + [Turn(i, call)] + [Turn(i, call)], Next(s2, i, call);
    NextShaped(s2, i, call);
  }

  /** An undisturbed enqueue adds its value at the end. */
  lemma EnqueueAppends(s: State, i: nat, v: Ptr) returns (turns: seq<Turn<Call>>, r: State)
    requires Quiet(s) && i < |s.threads| && v != NULL && |Contents(s)| < |s.memory.slots|
    ensures |turns| == 4 && Leisurely(s, turns, r) && Quiet(r)
    ensures r.threads == s.threads[i := Enqueued] && Contents(r) == Contents(s) + [v]
  {
    var turns1, r1 := ClaimAlone(s, i, v);
    RoomForNext(s);
    Twice(s.threads, i, EnqPut(v, s.memory.tail), Enqueued);
    r := Next(r1, i, Enqueue(v));
    Unhurried(s, turns1, r1, i, Enqueue(v), r);
    turns := turns1 + [Turn(i, Enqueue(v))];
    TimelyRunAttended(s, turns);
    assert r.offers == s.offers + [v] && r.claimed == s.claimed;
  }

  /** The thread has locked and read the head. */
  lemma LockAlone(s: State, i: nat) returns (turns: seq<Turn<Call>>, r: State)
    requires Quiet(s) && i < |s.threads|
    ensures |turns| == 3 && Leisurely(s, turns, r) && Shaped(r)
    ensures r == s.(memory := s.memory.(lock := 1), threads := s.threads[i := DeqReadTail(s.memory.head)])
  {
    TotalNone(s.threads, HoldsLock());
    var one := [Turn(i, Dequeue)];
    var s1 := s.(threads := s.threads[i := DeqLock]);
    assert Leisurely(s, [], s);
    Unhurried(s, [], s, i, Dequeue, s1);
    Twice(s.threads, i, DeqLock, DeqReadHead);
    var s2 := s1.(memory := s.memory.(lock := 1), threads := s.threads[i := DeqReadHead]);
    Unhurried(s, [] + one, s1, i, Dequeue, s2);
    Twice(s.threads, i, DeqReadHead, DeqReadTail(s.memory.head));
    r := s2.(threads := s.threads[i := DeqReadTail(s.memory.head)]);
    Unhurried(s, [] + one + one, s2, i, Dequeue, r);
    turns := [] + one + one + one;
  }

  lemma FindEmptyAlone(s: State, i: nat) returns (turns: seq<Turn<Call>>, r: State)
    requires Quiet(s) && i < |s.threads| && s.claimed == |s.offers|
    ensures |turns| == 5 && Leisurely(s, turns, r) && r == s.(threads := s.threads[i := FoundEmpty])
  {
    TotalNone(s.threads, HoldsLock());
    var turns1, r1 := LockAlone(s, i);
    var one := [Turn(i, Dequeue)];
    Twice(s.threads, i, DeqReadTail(s.memory.head), DeqUnlockEmpty);
    var r2 := r1.(threads := s.threads[i := DeqUnlockEmpty]);
    Unhurried(s, turns1, r1, i, Dequeue, r2);
    Twice(s.threads, i, DeqUnlockEmpty, FoundEmpty);
    r := r2.(memory := s.memory, threads := s.threads[i := FoundEmpty]);
    Unhurried(s, turns1 + one, r2, i, Dequeue, r);
    turns := turns1 + one + one;
  }

  /** An undisturbed dequeue on a queue without contents answers that it is empty. */
  lemma DequeueFindsEmpty(s: State, i: nat) returns (turns: seq<Turn<Call>>, r: State)
    requires Quiet(s) && i < |s.threads| && Contents(s) == []
    ensures |turns| == 5 && Leisurely(s, turns, r) && Quiet(r)
    ensures r.threads == s.threads[i := FoundEmpty] && r.memory == s.memory && Contents(r) == []
  {
    turns, r := FindEmptyAlone(s, i);
    TimelyRunAttended(s, turns);
  }

  /** The thread has seen that there is something to claim. */
  lemma SeeSomeAlone(s: State, i: nat) returns (turns: seq<Turn<Call>>, r: State)
    requires Quiet(s) && i < |s.threads| && 0 < |s.offers| - s.claimed < |s.memory.slots|
    ensures |turns| == 4 && Leisurely(s, turns, r) && Shaped(r)
    ensures r == s.(memory := s.memory.(lock := 1), threads := s.threads[i := DeqSwapHead(s.memory.head)])
  {
    TotalNone(s.threads, HoldsLock());
    var turns1, r1 := LockAlone(s, i);
    ApartEnds(s);
    Twice(s.threads, i, DeqReadTail(s.memory.head), DeqSwapHead(s.memory.head));
    r := r1.(threads := s.threads[i := DeqSwapHead(s.memory.head)]);
    Unhurried(s, turns1, r1, i, Dequeue, r);
    turns := turns1 + [Turn(i, Dequeue)];
  }

  /** The thread has claimed the first value and given the lock back. */
  lemma ClaimFirstAlone(s: State, i: nat) returns (turns: seq<Turn<Call>>, r: State)
    requires Quiet(s) && i < |s.threads| && 0 < |s.offers| - s.claimed < |s.memory.slots|
    ensures |turns| == 6 && Leisurely(s, turns, r) && Shaped(r)
    ensures r == s.(memory := s.memory.(head := (s.memory.head + 1) % |s.memory.slots|),
                    threads := s.threads[i := DeqReadSlot(s.memory.head)], mine := s.mine[i := s.claimed],
                    claimed := s.claimed + 1)
  {
    TotalNone(s.threads, HoldsLock());
    var h, one := s.memory.head, [Turn(i, Dequeue)];
    var turns1, r1 := SeeSomeAlone(s, i);
    Twice(s.threads, i, DeqSwapHead(h), DeqUnlock(h));
    var r2 := Next(r1, i, Dequeue);
    Unhurried(s, turns1, r1, i, Dequeue, r2);
    Twice(s.threads, i, DeqUnlock(h), DeqReadSlot(h));
    r := Next(r2, i, Dequeue);
    Unhurried(s, turns1 + one, r2, i, Dequeue, r);
    turns := turns1 + one + one;
  }

  /** The thread has the first value in view. */
  lemma SeeFirstAlone(s: State, i: nat) returns (turns: seq<Turn<Call>>, r: State)
    requires Quiet(s) && i < |s.threads| && 0 < |s.offers| - s.claimed < |s.memory.slots|
    ensures |turns| == 7 && Leisurely(s, turns, r) && Shaped(r) && |r.threads| == |s.threads| == |r.mine|
    ensures r.memory.slots == s.memory.slots && r.offers == s.offers && r.claimed == s.claimed + 1
    ensures s.memory.head < |s.memory.slots| && s.memory.slots[s.memory.head] == s.offers[s.claimed]
    ensures r.threads == s.threads[i := DeqTake(s.memory.head, s.offers[s.claimed])]
  {
    var h, v := s.memory.head, s.offers[s.claimed];
    InPlace(s, s.claimed);
    var turns1, r1 := ClaimFirstAlone(s, i);
    Twice(s.threads, i, DeqReadSlot(h), DeqTake(h, v));
    r := r1.(threads := s.threads[i := DeqTake(h, v)]);
    Unhurried(s, turns1, r1, i, Dequeue, r);
    turns := turns1 + [Turn(i, Dequeue)];
  }

  lemma TakeFirstAlone(s: State, i: nat) returns (turns: seq<Turn<Call>>, r: State)
    requires Quiet(s) && i < |s.threads| && 0 < |s.offers| - s.claimed < |s.memory.slots|
    ensures |turns| == 8 && Leisurely(s, turns, r)
    ensures r.threads == s.threads[i := Dequeued(s.offers[s.claimed])]
    ensures r.offers == s.offers && r.claimed == s.claimed + 1
  {
    var h, v := s.memory.head, s.offers[s.claimed];
    var turns1, r1 := SeeFirstAlone(s, i);
    Twice(s.threads, i, DeqTake(h, v), Dequeued(v));
    r := Next(r1, i, Dequeue);
    Unhurried(s, turns1, r1, i, Dequeue, r);
    turns := turns1 + [Turn(i, Dequeue)];
  }

  /** An undisturbed dequeue takes the first value. */
  lemma DequeueTakesFirst(s: State, i: nat) returns (turns: seq<Turn<Call>>, r: State)
    requires Quiet(s) && i < |s.threads| && 0 < |Contents(s)| < |s.memory.slots|
    ensures |turns| == 8 && Leisurely(s, turns, r) && Quiet(r)
    ensures r.threads == s.threads[i := Dequeued(Contents(s)[0])] && Contents(s) == [Contents(s)[0]] + Contents(r)
  {
    turns, r := TakeFirstAlone(s, i);
    TimelyRunAttended(s, turns);
  }
}
