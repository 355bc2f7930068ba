/**
The line buffers of the logging thread. They go round between two queues: loggers take a
free buffer from one, write a line and put it into the other; the relay thread takes it
from there, serves it to the sinks and puts it back.
*/
module LogRelay {
  import opened MachineWords
  import opened Counting
  import opened Threads
  import Q = CircularQueue

  type Line = Ptr
  const THREAD_LINE_BUFFER_SIZE: Word := 2048

  /** What happens to a logger that finds no free buffer. */
  datatype OnError = Drop | Block | Abort

  /** Where a thread stands in its round; a queue operation under way has its own program counter. */
  datatype Hand =
    | Ready
    | Fetching
    | Writing(line: Line)
    | Posting
    | Crashed
    | Polling
    | Serving(line: Line)
    | Returning
    | Stopped

  /** The queue that a thread steps on next. */
  datatype Move = Stay | OnOut(call: Q.Call) | OnIn(call: Q.Call)

  function Wants(h: Hand): Move {
    match h
    case Ready => OnOut(Q.Dequeue)
    case Fetching => OnOut(Q.Dequeue)
    case Writing(b) => OnIn(Q.Enqueue(b))
    case Posting => OnIn(Q.Dequeue)
    case Polling => OnIn(Q.Dequeue)
    case Serving(b) => OnOut(Q.Enqueue(b))
    case Returning => OnOut(Q.Dequeue)
    case _ => Stay
  }

  /** Where the step leaves a thread, given where its queue operation now stands. */
  function Onward(h: Hand, p: Q.Pc, policy: OnError, keepRunning: bool): Hand {
    match h
    case Ready => Fetching
    case Fetching =>
      (match p
       case Dequeued(b) => Writing(b)
       case FoundEmpty => (match policy case Drop => Ready case Block => Fetching case Abort => Crashed)
       case _ => Fetching)
    case Writing(_) => Posting
    case Posting => if p.Enqueued? then Ready else Posting
    case Polling =>
      (match p
       case Dequeued(b) => Serving(b)
       case FoundEmpty => if keepRunning then Polling else Stopped
       case _ => Polling)
    case Serving(_) => Returning
    case Returning => if p.Enqueued? then Polling else Returning
    case _ => h
  }

  class LogThread {
    const outQueue: Q.AmCQueue
    const inQueue: Q.AmCQueue

    /** Both queues have room for all buffers, and all of them start out free. */
    constructor (lines: Word)
      requires lines + 1 < TWO64
      ensures fresh(outQueue) && fresh(inQueue) && fresh(outQueue.data) && fresh(inQueue.data)
      ensures inQueue.Shared() == Q.Fresh(lines) && outQueue.Shared() == StockedMemory(lines, lines)
    {
      inQueue := new Q.AmCQueue(lines);
      outQueue := new Q.AmCQueue(lines);
      new;
      assert outQueue.Shared() == StockedMemory(lines, 0);
      var i := 0;
      while i < lines
        invariant i <= lines && outQueue.Shared() == StockedMemory(lines, i)
        invariant inQueue.Shared() == Q.Fresh(lines)
        invariant fresh(outQueue) && fresh(outQueue.data) && fresh(inQueue.data)
        modifies outQueue, outQueue.data
      {
        Enqueue(outQueue, lines, i, i + 1);
        i := i + 1;
      }
    }

    /** The whole of an enqueue that nothing interferes with. */
    static method Enqueue(q: Q.AmCQueue, lines: Word, ghost k: nat, line: Line)
      requires lines + 1 < TWO64 && k < lines && line == k + 1 && q.Shared() == StockedMemory(lines, k)
      modifies q, q.data
      ensures q.Shared() == StockedMemory(lines, k + 1)
    {
      var p := Q.Begin(Q.Enqueue(line));
      p := q.Step(p, Q.Dequeue);
      p := q.Step(p, Q.Dequeue);
      p := q.Step(p, Q.Dequeue);
      StockedNext(lines, k);
    }

    /** One step of a thread that stands at `h`, with its operations on the two queues at `out` and `inn`. */
    method Step(h: Hand, out: Q.Pc, inn: Q.Pc, policy: OnError, keepRunning: bool)
      returns (h': Hand, out': Q.Pc, inn': Q.Pc)
      requires outQueue != inQueue && outQueue.data != inQueue.data
      requires Q.InRange(outQueue.Shared(), out) && Q.InRange(inQueue.Shared(), inn)
      modifies outQueue, outQueue.data, inQueue, inQueue.data
      ensures match Wants(h)
        case Stay =>
          outQueue.Shared() == old(outQueue.Shared()) && inQueue.Shared() == old(inQueue.Shared())
          && out' == out && inn' == inn && h' == h
        case OnOut(call) =>
          (outQueue.Shared(), out') == Q.Act(old(outQueue.Shared()), out, call)
          && inQueue.Shared() == old(inQueue.Shared()) && inn' == inn && h' == Onward(h, out', policy, keepRunning)
        case OnIn(call) =>
          (inQueue.Shared(), inn') == Q.Act(old(inQueue.Shared()), inn, call)
          && outQueue.Shared() == old(outQueue.Shared()) && out' == out && h' == Onward(h, inn', policy, keepRunning)
    {
      h', out', inn' := h, out, inn;
      match Wants(h) {
        case Stay =>
        case OnOut(call) =>
          out' := outQueue.Step(out, call);
          h' := Onward(h, out', policy, keepRunning);
        case OnIn(call) =>
          inn' := inQueue.Step(inn, call);
          h' := Onward(h, inn', policy, keepRunning);
      }
    }
  }

  /** The free queue when the first `k` buffers have been put into it. */
  ghost function StockedMemory(lines: Word, k: nat): Q.Memory
    requires k <= lines && lines + 1 < TWO64
  {
    Q.Memory(0, 0, k, seq(lines + 1, j requires 0 <= j => if j < k then j + 1 else NULL))
  }

  lemma StockedNext(lines: Word, k: nat)
    requires k < lines && lines + 1 < TWO64
    ensures var m := StockedMemory(lines, k);
      StockedMemory(lines, k + 1) == m.(tail := (m.tail + 1) % |m.slots|, slots := m.slots[k := k + 1])
  {
    var m := StockedMemory(lines, k);
    assert (k + 1) % (lines + 1) == k + 1;
    assert StockedMemory(lines, k + 1).slots == m.slots[k := k + 1];
  }

  // The relay thread and any number of loggers together

  /** Thread `i` has the same number in both queues; `policy` and the number of lines are fixed. */
  datatype State = State(lines: Word, policy: OnError, out: Q.State, inn: Q.State, hands: seq<Hand>)

  ghost predicate Shaped(s: State) {
    && s.lines + 1 < TWO64
    && Q.Shaped(s.out) && Q.Shaped(s.inn)
    && |s.out.threads| == |s.inn.threads| == |s.hands|
  }

  ghost function Next(s: State, i: nat, keepRunning: bool): State
    requires Shaped(s) && i < |s.hands|
  {
    match Wants(s.hands[i])
    case Stay => s
    case OnOut(call) =>
      var out := Q.Next(s.out, i, call);
      s.(out := out, hands := s.hands[i := Onward(s.hands[i], out.threads[i], s.policy, keepRunning)])
    case OnIn(call) =>
      var inn := Q.Next(s.inn, i, call);
      s.(inn := inn, hands := s.hands[i := Onward(s.hands[i], inn.threads[i], s.policy, keepRunning)])
  }

  ghost function Lines(k: nat): (s: seq<Line>)
    requires k < TWO64
    ensures |s| == k
  {
    if k == 0 then [] else Lines(k - 1) + [k]
  }

  /** The free queue after the first `k` steps of its filling, which the first thread does. */
  ghost function Stocked(lines: Word, n: nat, k: nat): Q.State
    requires lines + 1 < TWO64 && n > 0 && k <= lines
  {
    Q.State(StockedMemory(lines, k), Q.Initial(lines, n).threads[0 := if k == 0 then Q.Idle else Q.Enqueued],
            Q.Initial(lines, n).mine[0 := if k == 0 then 0 else k - 1], 0, Lines(k), map[],
            seq(lines + 1, j requires 0 <= j => if j < k then j else 0), multiset(Lines(k)), multiset{})
  }

  /** The state in which buffer `k + 1` has its place claimed. */
  ghost function Claimed(lines: Word, n: nat, k: nat): Q.State
    requires lines + 1 < TWO64 && n > 0 && k < lines
  {
    var s := Stocked(lines, n, k);
    s.(memory := s.memory.(tail := k + 1), threads := s.threads[0 := Q.EnqPut(k + 1, k)],
       mine := s.mine[0 := k], offers := s.offers + [k + 1], started := s.started + multiset{k + 1})
  }

  ghost function Claiming(lines: Word, n: nat, k: nat): Q.State
    requires lines + 1 < TWO64 && n > 0 && k < lines
  {
    var s := Stocked(lines, n, k);
    s.(threads := s.threads[0 := Q.EnqSwapTail(k + 1, k)], started := s.started + multiset{k + 1})
  }

  lemma StockedBegin(lines: Word, n: nat, k: nat)
    requires lines + 1 < TWO64 && n > 0 && k < lines
    requires Q.Inv(Stocked(lines, n, k)) && Q.Weighed(Stocked(lines, n, k))
    ensures Q.Inv(Claiming(lines, n, k)) && Q.Weighed(Claiming(lines, n, k))
  {
    var s := Stocked(lines, n, k);
    var s1 := s.(threads := s.threads[0 := Q.EnqReadTail(k + 1)], started := s.started + multiset{k + 1});
    KeepsOn(s, Q.Enqueue(k + 1), s1);
    Twice(s.threads, 0, Q.EnqReadTail(k + 1), Q.EnqSwapTail(k + 1, k));
    KeepsOn(s1, Q.Enqueue(k + 1), Claiming(lines, n, k));
  }

  lemma StockedClaim(lines: Word, n: nat, k: nat)
    requires lines + 1 < TWO64 && n > 0 && k < lines
    requires Q.Inv(Stocked(lines, n, k)) && Q.Weighed(Stocked(lines, n, k))
    ensures Q.Inv(Claimed(lines, n, k)) && Q.Weighed(Claimed(lines, n, k))
  {
    StockedBegin(lines, n, k);
    Twice(Stocked(lines, n, k).threads, 0, Q.EnqSwapTail(k + 1, k), Q.EnqPut(k + 1, k));
    StockedNext(lines, k);
    KeepsOn(Claiming(lines, n, k), Q.Enqueue(k + 1), Claimed(lines, n, k));
  }

  /** Filling is four steps of the queue for each buffer. */
  lemma StockedStep(lines: Word, n: nat, k: nat)
    requires lines + 1 < TWO64 && n > 0 && k < lines
    requires Q.Inv(Stocked(lines, n, k)) && Q.Weighed(Stocked(lines, n, k))
    ensures Q.Inv(Stocked(lines, n, k + 1)) && Q.Weighed(Stocked(lines, n, k + 1))
  {
    StockedClaim(lines, n, k);
    StockedLast(lines, n, k);
    KeepsOn(Claimed(lines, n, k), Q.Dequeue, Stocked(lines, n, k + 1));
  }

  lemma KeepsOn(s: Q.State, call: Q.Call, s': Q.State)
    requires Q.Inv(s) && Q.Weighed(s) && |s.threads| > 0 && Q.Next(s, 0, call) == s'
    ensures Q.Inv(s') && Q.Weighed(s')
  {
    assert Q.Sane(s, 0);
    Q.NextInv(s, 0, call);
    Q.NextWeighed(s, 0, call);
  }

  lemma StockedLast(lines: Word, n: nat, k: nat)
    requires lines + 1 < TWO64 && n > 0 && k < lines
    ensures var s, s' := Stocked(lines, n, k), Stocked(lines, n, k + 1);
      && s'.threads == s.threads[0 := Q.EnqPut(k + 1, k)][0 := Q.Enqueued] && s'.mine == s.mine[0 := k]
      && s'.offers == s.offers + [k + 1] && s'.started == s.started + multiset{k + 1}
      && s'.stamp == s.stamp[k := k]
      && s'.memory == s.memory.(tail := k + 1, slots := s.memory.slots[k := k + 1])
      && s.memory.slots[k] == NULL && s.memory.tail == k
  {
    StockedNext(lines, k);
    assert (k + 1) % (lines + 1) == k + 1;
  }

  lemma {:induction false} StockedInv(lines: Word, n: nat, k: nat)
    requires lines + 1 < TWO64 && n > 0 && k <= lines
    ensures Q.Inv(Stocked(lines, n, k)) && Q.Weighed(Stocked(lines, n, k))
    decreases k
  {
    if k == 0 {
      Q.InitiallyInv(lines, n);
      Q.InitiallyWeighed(lines, n);
      assert Stocked(lines, n, 0) == Q.Initial(lines, n);
    } else {
      StockedInv(lines, n, k - 1);
      StockedStep(lines, n, k - 1);
    }
  }

  lemma {:induction false} LinesOnce(k: nat)
    requires k < TWO64
    ensures forall v: Line :: multiset(Lines(k))[v] == if 1 <= v <= k then 1 else 0
  {
    if k > 0 {
      LinesOnce(k - 1);
    }
  }

  /** Thread 0 is the relay, all others are loggers. */
  ghost function Initial(lines: Word, policy: OnError, n: nat): State
    requires lines + 1 < TWO64 && n > 0
  {
    State(lines, policy, Stocked(lines, n, lines), Q.Initial(lines, n), [Polling] + seq(n - 1, _ => Ready))
  }

  // What holds in every reachable state

  ghost predicate Puts(p: Q.Pc) {
    p.EnqReadTail? || p.EnqSwapTail? || p.EnqPut?
  }

  /** Each thread is in at most one queue operation, the one that its place in the round calls for. */
  ghost predicate Tied(h: Hand, out: Q.Pc, inn: Q.Pc) {
    match h
    case Fetching => !Puts(out) && Q.Rests(inn)
    case Posting => Q.Rests(out) && Puts(inn)
    case Polling => Q.Rests(out) && !Puts(inn)
    case Returning => Puts(out) && Q.Rests(inn)
    case Writing(b) => b != NULL && Q.Rests(out) && Q.Rests(inn)
    case Serving(b) => b != NULL && Q.Rests(out) && Q.Rests(inn)
    case _ => Q.Rests(out) && Q.Rests(inn)
  }

  ghost function Writes(): Hand -> int {
    (h: Hand) => if h.Writing? then 1 else 0
  }

  ghost function Serves(): Hand -> int {
    (h: Hand) => if h.Serving? then 1 else 0
  }

  ghost function WritesLine(v: Line): Hand -> int {
    (h: Hand) => if h == Writing(v) then 1 else 0
  }

  ghost function ServesLine(v: Line): Hand -> int {
    (h: Hand) => if h == Serving(v) then 1 else 0
  }

  /** What left one queue is in a thread's hands or has been put into the other. */
  ghost predicate Flows(s: State) {
    && |s.out.taken| == Total(s.hands, Writes()) + |s.inn.started|
    && |s.inn.taken| + s.lines == Total(s.hands, Serves()) + |s.out.started|
  }

  ghost predicate FlowsLine(s: State, v: Line) {
    && s.out.taken[v] == Total(s.hands, WritesLine(v)) + s.inn.started[v]
    && s.inn.taken[v] + (if 1 <= v <= s.lines then 1 else 0) == Total(s.hands, ServesLine(v)) + s.out.started[v]
  }

  ghost predicate Sound(q: Q.State, lines: Word) {
    Q.Inv(q) && Q.Weighed(q) && |q.memory.slots| == lines + 1
  }

  ghost predicate Inv(s: State) {
    && Shaped(s)
    && Sound(s.out, s.lines) && Sound(s.inn, s.lines)
    && (forall i :: 0 <= i < |s.hands| ==> Tied(s.hands[i], s.out.threads[i], s.inn.threads[i]))
    && Flows(s)
    && (forall v: Line :: v != NULL ==> FlowsLine(s, v))
  }

  lemma InitiallyInv(lines: Word, policy: OnError, n: nat)
    requires lines + 1 < TWO64 && n > 0
    ensures Inv(Initial(lines, policy, n))
  {
    var s := Initial(lines, policy, n);
    StockedInv(lines, n, lines);
    Q.InitiallyInv(lines, n);
    Q.InitiallyWeighed(lines, n);
    InitiallyFlows(lines, policy, n);
  }

  lemma InitiallyFlows(lines: Word, policy: OnError, n: nat)
    requires lines + 1 < TWO64 && n > 0
    ensures var s := Initial(lines, policy, n);
      Flows(s) && forall v: Line :: v != NULL ==> FlowsLine(s, v)
  {
    var s := Initial(lines, policy, n);
    LinesOnce(lines);
    TotalNone(s.hands, Writes());
    TotalNone(s.hands, Serves());
    forall v: Line | v != NULL ensures FlowsLine(s, v) {
      TotalNone(s.hands, WritesLine(v));
      TotalNone(s.hands, ServesLine(v));
    }
  }

  lemma SoundNext(q: Q.State, lines: Word, i: nat, call: Q.Call)
    requires Sound(q, lines) && i < |q.threads|
    ensures Sound(Q.Next(q, i, call), lines) && |Q.Next(q, i, call).threads| == |q.threads|
  {
    assert Q.Sane(q, i);
    Q.NextInv(q, i, call);
    Q.NextWeighed(q, i, call);
  }

  /** What a queue step does to the values that have passed in and out. */
  lemma Passes(q: Q.State, i: nat, call: Q.Call)
    requires Q.Shaped(q) && i < |q.threads| && Q.Sane(q, i)
    ensures var p, q' := q.threads[i], Q.Next(q, i, call);
      var p' := q'.threads[i];
      && q'.started == (if p'.EnqReadTail? && !p.EnqSwapTail? then q.started + multiset{p'.data} else q.started)
      && q'.taken == (if p.DeqTake? && p'.Dequeued? then q.taken + multiset{p'.ptr} else q.taken)
      && (p.DeqTake? && p'.Dequeued? ==> p'.ptr != NULL)
  {
    Q.StartedFollows(q, i, call);
    PassesOut(q, i, call);
  }

  lemma PassesOut(q: Q.State, i: nat, call: Q.Call)
    requires Q.Shaped(q) && i < |q.threads| && Q.Sane(q, i)
    ensures var p, q' := q.threads[i], Q.Next(q, i, call);
      var p' := q'.threads[i];
      && q'.taken == (if p.DeqTake? && p'.Dequeued? then q.taken + multiset{p'.ptr} else q.taken)
      && (p.DeqTake? && p'.Dequeued? ==> p'.ptr != NULL)
  {
  }

  /** A step on the free queue moves values as the hand of its thread moves. */
  lemma OutFollows(h: Hand, p: Q.Pc, m: Q.Memory, call: Q.Call, policy: OnError, keepRunning: bool, inn: Q.Pc)
    requires Q.InRange(m, p) && Wants(h) == OnOut(call) && Tied(h, p, inn) && (p.DeqTake? ==> p.ptr != NULL)
    ensures var p' := Q.Act(m, p, call).1;
      var h' := Onward(h, p', policy, keepRunning);
      && Tied(h', p', inn)
      && (p'.EnqReadTail? && !p.EnqSwapTail? <==> h.Serving?)
      && (p.DeqTake? && p'.Dequeued? <==> h'.Writing?)
      && (h.Serving? ==> p'.data == h.line) && (h'.Writing? ==> p'.ptr == h'.line)
      && !h.Writing? && !h'.Serving?
  {
  }

  /** And a step on the queue of written lines likewise. */
  lemma InFollows(h: Hand, p: Q.Pc, m: Q.Memory, call: Q.Call, policy: OnError, keepRunning: bool, out: Q.Pc)
    requires Q.InRange(m, p) && Wants(h) == OnIn(call) && Tied(h, out, p) && (p.DeqTake? ==> p.ptr != NULL)
    ensures var p' := Q.Act(m, p, call).1;
      var h' := Onward(h, p', policy, keepRunning);
      && Tied(h', out, p')
      && (p'.EnqReadTail? && !p.EnqSwapTail? <==> h.Writing?)
      && (p.DeqTake? && p'.Dequeued? <==> h'.Serving?)
      && (h.Writing? ==> p'.data == h.line) && (h'.Serving? ==> p'.ptr == h'.line)
      && !h.Serving? && !h'.Writing?
  {
  }

  lemma NextTied(s: State, i: nat, keepRunning: bool)
    requires Shaped(s) && i < |s.hands| && Q.Sane(s.out, i) && Q.Sane(s.inn, i)
    requires Tied(s.hands[i], s.out.threads[i], s.inn.threads[i])
    ensures var s' := Next(s, i, keepRunning);
      Tied(s'.hands[i], s'.out.threads[i], s'.inn.threads[i])
  {
    var h, out, inn := s.hands[i], s.out.threads[i], s.inn.threads[i];
    match Wants(h)
    case Stay =>
    case OnOut(call) => OutFollows(h, out, s.out.memory, call, s.policy, keepRunning, inn);
    case OnIn(call) => InFollows(h, inn, s.inn.memory, call, s.policy, keepRunning, out);
  }

  /** What a step of a thread passes in and out of the two queues. */
  ghost predicate PassedOn(s: State, s': State, h: Hand, h': Hand) {
    && s'.out.started == (if h.Serving? then s.out.started + multiset{h.line} else s.out.started)
    && s'.inn.started == (if h.Writing? then s.inn.started + multiset{h.line} else s.inn.started)
    && s'.out.taken == (if h'.Writing? && !h.Writing? then s.out.taken + multiset{h'.line} else s.out.taken)
    && s'.inn.taken == (if h'.Serving? && !h.Serving? then s.inn.taken + multiset{h'.line} else s.inn.taken)
    && (h.Writing? ==> !h'.Writing?) && (h.Serving? ==> !h'.Serving?)
  }

  lemma OutPasses(s: State, i: nat, call: Q.Call, keepRunning: bool)
    requires Shaped(s) && i < |s.hands| && Q.Sane(s.out, i)
    requires Tied(s.hands[i], s.out.threads[i], s.inn.threads[i]) && Wants(s.hands[i]) == OnOut(call)
    ensures var s' := Next(s, i, keepRunning); PassedOn(s, s', s.hands[i], s'.hands[i])
  {
    var h, out' := s.hands[i], Q.Next(s.out, i, call);
    Passes(s.out, i, call);
    OutFollows(h, s.out.threads[i], s.out.memory, call, s.policy, keepRunning, s.inn.threads[i]);
    assert out'.threads[i] == Q.Act(s.out.memory, s.out.threads[i], call).1;
    assert Next(s, i, keepRunning).out == out' && Next(s, i, keepRunning).inn == s.inn;
  }

  lemma InPasses(s: State, i: nat, call: Q.Call, keepRunning: bool)
    requires Shaped(s) && i < |s.hands| && Q.Sane(s.inn, i)
    requires Tied(s.hands[i], s.out.threads[i], s.inn.threads[i]) && Wants(s.hands[i]) == OnIn(call)
    ensures var s' := Next(s, i, keepRunning); PassedOn(s, s', s.hands[i], s'.hands[i])
  {
    var h, inn' := s.hands[i], Q.Next(s.inn, i, call);
    Passes(s.inn, i, call);
    InFollows(h, s.inn.threads[i], s.inn.memory, call, s.policy, keepRunning, s.out.threads[i]);
    assert inn'.threads[i] == Q.Act(s.inn.memory, s.inn.threads[i], call).1;
    assert Next(s, i, keepRunning).inn == inn' && Next(s, i, keepRunning).out == s.out;
  }

  lemma NextPasses(s: State, i: nat, keepRunning: bool)
    requires Shaped(s) && i < |s.hands| && Q.Sane(s.out, i) && Q.Sane(s.inn, i)
    requires Tied(s.hands[i], s.out.threads[i], s.inn.threads[i])
    ensures var s' := Next(s, i, keepRunning);
      s'.hands == s.hands[i := s'.hands[i]] && PassedOn(s, s', s.hands[i], s'.hands[i])
  {
    match Wants(s.hands[i])
    case Stay =>
    case OnOut(call) => OutPasses(s, i, call, keepRunning);
    case OnIn(call) => InPasses(s, i, call, keepRunning);
  }

  lemma NextFlows(s: State, i: nat, keepRunning: bool)
    requires Shaped(s) && i < |s.hands| && Q.Sane(s.out, i) && Q.Sane(s.inn, i)
    requires Tied(s.hands[i], s.out.threads[i], s.inn.threads[i]) && Flows(s)
    ensures Flows(Next(s, i, keepRunning))
  {
    NextPasses(s, i, keepRunning);
    TotalUpdate(s.hands, i, Next(s, i, keepRunning).hands[i], Writes());
    TotalUpdate(s.hands, i, Next(s, i, keepRunning).hands[i], Serves());
  }

  lemma NextFlowsLine(s: State, i: nat, keepRunning: bool, v: Line)
    requires Shaped(s) && i < |s.hands| && Q.Sane(s.out, i) && Q.Sane(s.inn, i)
    requires Tied(s.hands[i], s.out.threads[i], s.inn.threads[i]) && FlowsLine(s, v)
    ensures FlowsLine(Next(s, i, keepRunning), v)
  {
    NextPasses(s, i, keepRunning);
    TotalUpdate(s.hands, i, Next(s, i, keepRunning).hands[i], WritesLine(v));
    TotalUpdate(s.hands, i, Next(s, i, keepRunning).hands[i], ServesLine(v));
  }

  lemma NextInv(s: State, i: nat, keepRunning: bool)
    requires Inv(s) && i < |s.hands|
    ensures Inv(Next(s, i, keepRunning))
  {
    var s' := Next(s, i, keepRunning);
    assert Q.Sane(s.out, i) && Q.Sane(s.inn, i);
    match Wants(s.hands[i])
    {
      case Stay =>
      case OnOut(call) => SoundNext(s.out, s.lines, i, call);
      case OnIn(call) => SoundNext(s.inn, s.lines, i, call);
    }
    NextTied(s, i, keepRunning);
    forall j | 0 <= j < |s.hands| && j != i ensures Tied(s'.hands[j], s'.out.threads[j], s'.inn.threads[j]) {
      OthersStay(s, i, keepRunning, j);
    }
    NextFlows(s, i, keepRunning);
    forall v: Line | v != NULL ensures FlowsLine(s', v) {
      NextFlowsLine(s, i, keepRunning, v);
    }
  }

  lemma OthersStay(s: State, i: nat, keepRunning: bool, j: nat)
    requires Shaped(s) && i < |s.hands| && j < |s.hands| && i != j
    ensures var s' := Next(s, i, keepRunning);
      |s'.out.threads| == |s'.inn.threads| == |s'.hands| == |s.hands|
      && s'.hands[j] == s.hands[j] && s'.out.threads[j] == s.out.threads[j] && s'.inn.threads[j] == s.inn.threads[j]
  {
  }

  // Whole runs

  datatype Turn = Turn(thread: nat, keepRunning: bool)

  ghost function Run(s: State, turns: seq<Turn>): State
    requires Inv(s) && forall t :: t in turns ==> t.thread < |s.hands|
    decreases |turns|
  {
    if turns == [] then s
    else
      NextInv(s, turns[0].thread, turns[0].keepRunning);
      Run(Next(s, turns[0].thread, turns[0].keepRunning), turns[1..])
  }

  lemma {:induction false} RunInv(s: State, turns: seq<Turn>)
    requires Inv(s) && forall t :: t in turns ==> t.thread < |s.hands|
    ensures Inv(Run(s, turns)) && Run(s, turns).lines == s.lines
    decreases |turns|
  {
    if turns != [] {
      NextInv(s, turns[0].thread, turns[0].keepRunning);
      RunInv(Next(s, turns[0].thread, turns[0].keepRunning), turns[1..]);
    }
  }

  /** In how many places buffer `v` is: carried to or waiting in a queue, or in a thread's hands. */
  ghost function PlacesOf(s: State, v: Line): int {
    Total(s.out.threads, Q.Carries(v)) + Total(s.out.memory.slots, Is(v))
    + Total(s.inn.threads, Q.Carries(v)) + Total(s.inn.memory.slots, Is(v))
    + Total(s.hands, WritesLine(v)) + Total(s.hands, ServesLine(v))
  }

  /** Each buffer is always in exactly one place, and nothing else goes round. */
  lemma BuffersConserved(s: State, v: Line)
    requires Inv(s) && v != NULL
    ensures PlacesOf(s, v) == if 1 <= v <= s.lines then 1 else 0
  {
    assert FlowsLine(s, v) && Q.Conserved(s.out, v) && Q.Conserved(s.inn, v);
  }

  /** So neither queue ever has more open claims than its capacity. */
  lemma NeverOverfull(s: State)
    requires Inv(s)
    ensures 0 <= |s.out.offers| - s.out.claimed <= s.lines
    ensures 0 <= |s.inn.offers| - s.inn.claimed <= s.lines
  {
    Q.OpenWithinLoad(s.out);
    Q.OpenWithinLoad(s.inn);
    TotalCovers(s.out.threads, Q.Carrying());
    TotalCovers(s.out.memory.slots, Q.Present());
    TotalCovers(s.inn.threads, Q.Carrying());
    TotalCovers(s.inn.memory.slots, Q.Present());
    TotalCovers(s.hands, Writes());
    TotalCovers(s.hands, Serves());
  }

  /** Hence a dequeue on either queue reports empty exactly when no claim is open there. */
  lemma EmptyIsTrue(s: State, i: nat, call: Q.Call)
    requires Inv(s) && i < |s.hands|
    ensures s.out.threads[i].DeqReadTail? ==>
      (Q.Next(s.out, i, call).threads[i].DeqUnlockEmpty? <==> |s.out.offers| == s.out.claimed)
    ensures s.inn.threads[i].DeqReadTail? ==>
      (Q.Next(s.inn, i, call).threads[i].DeqUnlockEmpty? <==> |s.inn.offers| == s.inn.claimed)
  {
    NeverOverfull(s);
    if s.out.threads[i].DeqReadTail? {
      Q.EmptyAnswer(s.out, i, call);
    }
    if s.inn.threads[i].DeqReadTail? {
      Q.EmptyAnswer(s.inn, i, call);
    }
  }

  /** Any number of loggers and the relay thread, under any interleaving, with the library's buffers. */
  lemma EveryRunCirculates(policy: OnError, n: nat, turns: seq<Turn>)
    requires n > 0 && forall t :: t in turns ==> t.thread < n
    ensures Inv(Initial(THREAD_LINE_BUFFER_SIZE, policy, n))
    ensures var s := Run(Initial(THREAD_LINE_BUFFER_SIZE, policy, n), turns);
      && Inv(s)
      && |s.out.offers| - s.out.claimed <= THREAD_LINE_BUFFER_SIZE < |s.out.memory.slots|
      && |s.inn.offers| - s.inn.claimed <= THREAD_LINE_BUFFER_SIZE < |s.inn.memory.slots|
      && forall v: Line :: v != NULL ==> PlacesOf(s, v) == if v <= THREAD_LINE_BUFFER_SIZE then 1 else 0
  {
    InitiallyInv(THREAD_LINE_BUFFER_SIZE, policy, n);
    RunInv(Initial(THREAD_LINE_BUFFER_SIZE, policy, n), turns);
    var s := Run(Initial(THREAD_LINE_BUFFER_SIZE, policy, n), turns);
    NeverOverfull(s);
    forall v: Line | v != NULL ensures PlacesOf(s, v) == if v <= THREAD_LINE_BUFFER_SIZE then 1 else 0 {
      BuffersConserved(s, v);
    }
  }
}
