/**
The linked stack as its callers see it: every operation, from its call to its return,
takes effect once, at a moment in between, and the moments in their order are a correct
use of a sequential stack.
*/
module Linearized {
  import opened MachineWords
  import opened Threads
  import opened LinkStack

  /**
  An operation that has returned. `from` and `until` are the turns of its call and of its
  return, `called` and `returned` the lengths of the log then, `point` its entry in the log.
  */
  datatype Done = Done(thread: nat, call: Call, answer: Pc, from: nat, called: nat, point: nat, returned: nat, until: nat)

  /**
  A state with its past: `clock` turns have been taken, thread `who[q]` made the entry `q` of
  the log, and thread `i` made its latest call at turn `from[i]`, when the log was `called[i]` long.
  */
  datatype Traced = Traced(
    s: State,
    clock: nat,
    who: seq<nat>,
    calls: seq<Call>,
    from: seq<nat>,
    called: seq<nat>,
    done: seq<Done>)

  ghost predicate Shaped(t: Traced) {
    && |t.s.point| == |t.s.threads| == |t.calls| == |t.from| == |t.called|
    && |t.who| == |t.s.log|
    && forall q :: 0 <= q < |t.who| ==> t.who[q] < |t.s.threads|
  }

  ghost function Begun(next: map<Ptr, Ptr>, n: nat): Traced {
    Traced(Initial(0, next, n), 0, [], seq(n, _ => Pop), seq(n, _ => 0), seq(n, _ => 0), [])
  }

  ghost function Step(t: Traced, i: nat, call: Call): Traced
    requires Shaped(t) && i < |t.s.threads|
  {
    var p, s' := t.s.threads[i], Next(t.s, i, call);
    var p' := s'.threads[i];
    var t' := t.(s := s', clock := t.clock + 1, who := if |s'.log| > |t.s.log| then t.who + [i] else t.who);
    if Resting(p) then
      t'.(calls := t.calls[i := call], from := t.from[i := t.clock], called := t.called[i := |t.s.log|])
    else if Resting(p') then
      t'.(done := t.done + [Done(i, t.calls[i], p', t.from[i], t.called[i], s'.point[i], |s'.log|, t.clock)])
    else t'
  }

  // What each thread and each finished operation can say of the log

  /** Where an operation stands fits what was called. */
  ghost predicate Matches(call: Call, p: Pc) {
    match p
    case Idle => true
    case PushReadHead(n) => call == Push(n)
    case PushSetNext(n, _) => call == Push(n)
    case PushSwapHead(n, _) => call == Push(n)
    case PushCount(n) => call == Push(n)
    case Pushed => call.Push?
    case Aborted => false
    case _ => call == Pop
  }

  /** The effect of an operation that stands at `p` past that moment. */
  ghost function EffectOf(call: Call, p: Pc): Event
    requires Past(p) && Matches(call, p)
  {
    if call.Push? then PutOnTop(call.node)
    else if p.Popped? then Taking(p.node)
    else Taking(p.head)
  }

  /** Since its latest call a thread has made no entry in the log, or the one entry at its point. */
  ghost predicate OneEntry(t: Traced, i: nat)
    requires Shaped(t) && i < |t.s.threads|
  {
    var p := t.s.threads[i];
    && t.called[i] <= |t.s.log| && t.from[i] <= t.clock
    && Matches(t.calls[i], p)
    && (forall q :: t.called[i] <= q < |t.who| && t.who[q] == i ==> Past(p) && q == t.s.point[i])
    && (Past(p) ==>
          && t.called[i] <= t.s.point[i] < |t.s.log| && t.who[t.s.point[i]] == i
          && t.s.log[t.s.point[i]] == EffectOf(t.calls[i], p))
  }

  /** Between its call and its return the operation made one entry, of what it was asked for and answered. */
  ghost predicate Lawful(d: Done, log: seq<Event>, who: seq<nat>)
    requires |log| == |who|
  {
    && d.called <= d.point < d.returned <= |log| && d.from <= d.until
    && (d.answer.Pushed? || d.answer.Popped?) && Matches(d.call, d.answer)
    && who[d.point] == d.thread && log[d.point] == EffectOf(d.call, d.answer)
    && forall q :: d.called <= q < d.returned && who[q] == d.thread ==> q == d.point
  }

  /** The log had not shrunk by the time of a later call. */
  ghost predicate Before(d: Done, t: Traced, i: nat)
    requires Shaped(t) && i < |t.s.threads|
  {
    && (d.until < t.from[i] ==> d.returned <= t.called[i])
    && (d.thread == i && !Resting(t.s.threads[i]) ==> d.until < t.from[i])
  }

  /** `a` returned first; if `b` was called later still, or by the same thread, it came after all of `a`. */
  ghost predicate InTurn(a: Done, b: Done) {
    && a.until < b.until
    && (a.until < b.from ==> a.returned <= b.called)
    && (a.thread == b.thread ==> a.until < b.from)
  }

  /** The entry `q` of the log was made by an operation that has returned or is about to. */
  ghost predicate Accounted(t: Traced, q: nat)
    requires Shaped(t) && q < |t.s.log|
  {
    || (exists k :: 0 <= k < |t.done| && t.done[k].thread == t.who[q] && t.done[k].point == q)
    || (Past(t.s.threads[t.who[q]]) && !Resting(t.s.threads[t.who[q]]) && t.s.point[t.who[q]] == q)
  }

  ghost predicate Sound(t: Traced) {
    && Shaped(t)
    && Inv(t.s)
    && (forall i :: 0 <= i < |t.s.threads| ==> OneEntry(t, i))
    && (forall k :: 0 <= k < |t.done| ==> Lawful(t.done[k], t.s.log, t.who) && t.done[k].until < t.clock)
    && (forall k, i :: 0 <= k < |t.done| && 0 <= i < |t.s.threads| ==> Before(t.done[k], t, i))
    && (forall a, b :: 0 <= a < b < |t.done| ==> InTurn(t.done[a], t.done[b]))
    && (forall q :: 0 <= q < |t.s.log| ==> Accounted(t, q))
  }

  lemma BegunSound(next: map<Ptr, Ptr>, n: nat)
    ensures Sound(Begun(next, n))
  {
    InitiallyInv(next, n);
  }

  // Every step keeps it

  /** A call makes no entry in the log and is not past its effect. */
  lemma Calling(s: State, i: nat, call: Call)
    requires Inv(s) && i < |s.threads| && Resting(s.threads[i])
    ensures var s' := Next(s, i, call);
      && s'.log == s.log && s'.point == s.point
      && !Past(s'.threads[i]) && !Resting(s'.threads[i]) && Matches(call, s'.threads[i])
  {
  }

  /** Any other step makes an entry just if it is the one that takes effect, and then of that effect. */
  lemma Moving(s: State, i: nat, call: Call, asked: Call)
    requires Inv(s) && i < |s.threads| && !Resting(s.threads[i]) && Matches(asked, s.threads[i])
    requires !Next(s, i, call).threads[i].Aborted?
    ensures var s', p := Next(s, i, call), s.threads[i];
      var p' := s'.threads[i];
      && Matches(asked, p') && !p'.Idle? && (Past(p) ==> Past(p')) && (Resting(p') ==> Past(p))
      && (Past(p) ==> s'.log == s.log && s'.point == s.point && EffectOf(asked, p') == EffectOf(asked, p))
      && (!Past(p') ==> s'.log == s.log && s'.point == s.point)
      && (!Past(p) && Past(p') ==> s'.log == s.log + [EffectOf(asked, p')] && s'.point == s.point[i := |s.log|])
  {
    assert Sane(s, i);
  }

  /** What a step leaves alone, and by how much it makes the log longer. */
  ghost predicate Extends(t: Traced, t': Traced, i: nat)
    requires Shaped(t) && Shaped(t') && i < |t.s.threads|
  {
    && |t'.s.threads| == |t.s.threads| && t'.clock == t.clock + 1
    && t.s.log <= t'.s.log && t.who <= t'.who && |t'.who| <= |t.who| + 1
    && (|t'.who| > |t.who| ==> t'.who[|t.who|] == i)
    && t.done <= t'.done && |t'.done| <= |t.done| + 1
    && forall j :: 0 <= j < |t.s.threads| && j != i ==>
      && t'.s.threads[j] == t.s.threads[j] && t'.s.point[j] == t.s.point[j]
      && t'.calls[j] == t.calls[j] && t'.from[j] == t.from[j] && t'.called[j] == t.called[j]
  }

  lemma StepExtends(t: Traced, i: nat, call: Call)
    requires Shaped(t) && i < |t.s.threads|
    ensures Shaped(Step(t, i, call)) && Extends(t, Step(t, i, call), i)
  {
  }

  lemma NotAborted(s: State, i: nat)
    requires Inv(s) && i < |s.threads|
    ensures !s.threads[i].Aborted?
  {
    assert Sane(s, i);
  }

  lemma MoverOneEntry(t: Traced, i: nat, call: Call)
    requires Shaped(t) && Inv(t.s) && i < |t.s.threads| && OneEntry(t, i)
    requires !Next(t.s, i, call).threads[i].Aborted? && Shaped(Step(t, i, call))
    ensures OneEntry(Step(t, i, call), i)
  {
    if Resting(t.s.threads[i]) {
      Calling(t.s, i, call);
    } else {
      Moving(t.s, i, call, t.calls[i]);
    }
  }

  lemma OthersOneEntry(t: Traced, t': Traced, i: nat, j: nat)
    requires Shaped(t) && Shaped(t') && i < |t.s.threads| && j < |t.s.threads| && i != j
    requires Extends(t, t', i) && OneEntry(t, j)
    ensures OneEntry(t', j)
  {
  }

  /** What an operation can say of the log stays true of a longer one. */
  lemma LawfulStill(d: Done, log: seq<Event>, who: seq<nat>, log': seq<Event>, who': seq<nat>)
    requires |log| == |who| && |log'| == |who'| && log <= log' && who <= who' && Lawful(d, log, who)
    ensures Lawful(d, log', who')
  {
  }

  /** The operation that has just returned. */
  ghost function Returning(t: Traced, i: nat, call: Call): Done
    requires Shaped(t) && i < |t.s.threads|
  {
    var s' := Next(t.s, i, call);
    Done(i, t.calls[i], s'.threads[i], t.from[i], t.called[i], s'.point[i], |s'.log|, t.clock)
  }

  ghost predicate Returns(t: Traced, i: nat, call: Call)
    requires Shaped(t) && i < |t.s.threads|
  {
    !Resting(t.s.threads[i]) && Resting(Next(t.s, i, call).threads[i])
  }

  lemma ReturningLawful(t: Traced, i: nat, call: Call)
    requires Shaped(t) && Inv(t.s) && i < |t.s.threads| && OneEntry(t, i) && Returns(t, i, call)
    requires !Next(t.s, i, call).threads[i].Aborted? && Shaped(Step(t, i, call))
    ensures Lawful(Returning(t, i, call), Step(t, i, call).s.log, Step(t, i, call).who)
  {
    Moving(t.s, i, call, t.calls[i]);
  }

  lemma StepLawful(t: Traced, i: nat, call: Call)
    requires Sound(t) && i < |t.s.threads| && Fair(t.s, i, call)
    ensures var t' := Step(t, i, call);
      && Shaped(t')
      && forall k :: 0 <= k < |t'.done| ==> Lawful(t'.done[k], t'.s.log, t'.who) && t'.done[k].until < t'.clock
  {
    var t' := Step(t, i, call);
    assert OneEntry(t, i);
    StepExtends(t, i, call);
    NextInv(t.s, i, call);
    NotAborted(t'.s, i);
    forall k | 0 <= k < |t'.done| ensures Lawful(t'.done[k], t'.s.log, t'.who) && t'.done[k].until < t'.clock {
      if k < |t.done| {
        LawfulStill(t.done[k], t.s.log, t.who, t'.s.log, t'.who);
      } else {
        ReturningLawful(t, i, call);
      }
    }
  }

  lemma StepBefore(t: Traced, i: nat, call: Call, k: nat, j: nat)
    requires Shaped(t) && i < |t.s.threads| && j < |t.s.threads| && Shaped(Step(t, i, call))
    requires Extends(t, Step(t, i, call), i) && k < |Step(t, i, call).done| && t.from[j] <= t.clock
    requires k < |t.done| ==>
      Before(t.done[k], t, j) && t.done[k].until < t.clock && t.done[k].returned <= |t.s.log|
    ensures Before(Step(t, i, call).done[k], Step(t, i, call), j)
  {
  }

  /** The operation that has just returned comes after those that had returned before it was called. */
  lemma ReturningInTurn(t: Traced, i: nat, call: Call, k: nat)
    requires Shaped(t) && i < |t.s.threads| && k < |t.done| && Before(t.done[k], t, i) && Returns(t, i, call)
    requires t.done[k].until < t.clock
    ensures InTurn(t.done[k], Returning(t, i, call))
  {
  }

  lemma StepInTurn(t: Traced, i: nat, call: Call)
    requires Sound(t) && i < |t.s.threads| && Fair(t.s, i, call)
    ensures var t' := Step(t, i, call);
      forall a, b :: 0 <= a < b < |t'.done| ==> InTurn(t'.done[a], t'.done[b])
  {
    var t' := Step(t, i, call);
    StepExtends(t, i, call);
    forall a, b | 0 <= a < b < |t'.done| ensures InTurn(t'.done[a], t'.done[b]) {
      if b == |t.done| {
        ReturningInTurn(t, i, call, a);
      } else {
        assert InTurn(t.done[a], t.done[b]);
      }
    }
  }

  lemma OldAccounted(t: Traced, i: nat, call: Call, q: nat)
    requires Shaped(t) && Inv(t.s) && i < |t.s.threads| && OneEntry(t, i) && q < |t.s.log| && Accounted(t, q)
    requires !Next(t.s, i, call).threads[i].Aborted?
    requires Shaped(Step(t, i, call)) && Extends(t, Step(t, i, call), i)
    ensures Accounted(Step(t, i, call), q)
  {
    var t' := Step(t, i, call);
    if k :| 0 <= k < |t.done| && t.done[k].thread == t.who[q] && t.done[k].point == q {
      assert t'.done[k] == t.done[k] && t'.who[q] == t.who[q];
    } else if t.who[q] == i {
      Moving(t.s, i, call, t.calls[i]);
      if Returns(t, i, call) {
        assert t'.done[|t.done|] == Returning(t, i, call);
      }
    }
  }

  lemma NewAccounted(t: Traced, i: nat, call: Call)
    requires Shaped(t) && Inv(t.s) && i < |t.s.threads| && OneEntry(t, i)
    requires !Next(t.s, i, call).threads[i].Aborted? && Shaped(Step(t, i, call))
    requires |Step(t, i, call).s.log| > |t.s.log|
    ensures Accounted(Step(t, i, call), |t.s.log|)
  {
    if Resting(t.s.threads[i]) {
      Calling(t.s, i, call);
    } else {
      Moving(t.s, i, call, t.calls[i]);
    }
  }

  lemma StepOneEntries(t: Traced, i: nat, call: Call)
    requires Sound(t) && i < |t.s.threads| && Fair(t.s, i, call)
    ensures var t' := Step(t, i, call);
      Shaped(t') && forall j :: 0 <= j < |t'.s.threads| ==> OneEntry(t', j)
  {
    var t' := Step(t, i, call);
    assert OneEntry(t, i);
    StepExtends(t, i, call);
    NextInv(t.s, i, call);
    NotAborted(t'.s, i);
    forall j | 0 <= j < |t.s.threads| ensures OneEntry(t', j) {
      if j == i {
        MoverOneEntry(t, i, call);
      } else {
        assert OneEntry(t, j);
        OthersOneEntry(t, t', i, j);
      }
    }
  }

  lemma StepBefores(t: Traced, i: nat, call: Call)
    requires Sound(t) && i < |t.s.threads|
    ensures var t' := Step(t, i, call);
      && Shaped(t')
      && forall k, j :: 0 <= k < |t'.done| && 0 <= j < |t'.s.threads| ==> Before(t'.done[k], t', j)
  {
    var t' := Step(t, i, call);
    StepExtends(t, i, call);
    forall k, j | 0 <= k < |t'.done| && 0 <= j < |t.s.threads| ensures Before(t'.done[k], t', j) {
      assert OneEntry(t, j);
      assert k < |t.done| ==> Lawful(t.done[k], t.s.log, t.who) && Before(t.done[k], t, j);
      StepBefore(t, i, call, k, j);
    }
  }

  lemma StepAccounted(t: Traced, i: nat, call: Call)
    requires Sound(t) && i < |t.s.threads| && Fair(t.s, i, call)
    ensures var t' := Step(t, i, call);
      Shaped(t') && forall q :: 0 <= q < |t'.s.log| ==> Accounted(t', q)
  {
    var t' := Step(t, i, call);
    assert OneEntry(t, i);
    StepExtends(t, i, call);
    NextInv(t.s, i, call);
    NotAborted(t'.s, i);
    forall q | 0 <= q < |t'.s.log| ensures Accounted(t', q) {
      if q < |t.s.log| {
        assert Accounted(t, q);
        OldAccounted(t, i, call, q);
      } else {
        NewAccounted(t, i, call);
      }
    }
  }

  lemma StepSound(t: Traced, i: nat, call: Call)
    requires Sound(t) && i < |t.s.threads| && Fair(t.s, i, call)
    ensures Sound(Step(t, i, call))
  {
    NextInv(t.s, i, call);
    StepOneEntries(t, i, call);
    StepLawful(t, i, call);
    StepBefores(t, i, call);
    StepInTurn(t, i, call);
    StepAccounted(t, i, call);
  }

  // Whole runs

  ghost function Traces(t: Traced, turns: seq<Turn<Call>>): (r: Traced)
    requires Shaped(t) && forall x :: x in turns ==> x.thread < |t.s.threads|
    ensures Shaped(r) && |r.s.threads| == |t.s.threads| && r.s == Run(t.s, turns)
    decreases |turns|
  {
    if turns == [] then t
    else
      StepExtends(t, turns[0].thread, turns[0].call);
      Traces(Step(t, turns[0].thread, turns[0].call), turns[1..])
  }

  lemma {:induction false} TracesSound(t: Traced, turns: seq<Turn<Call>>)
    requires Sound(t) && (forall x :: x in turns ==> x.thread < |t.s.threads|) && FairRun(t.s, turns)
    ensures Sound(Traces(t, turns))
    decreases |turns|
  {
    if turns != [] {
      StepExtends(t, turns[0].thread, turns[0].call);
      StepSound(t, turns[0].thread, turns[0].call);
      TracesSound(Step(t, turns[0].thread, turns[0].call), turns[1..]);
    }
  }

  /** Different operations that have returned have different entries, in the order of their turns if these do not overlap. */
  lemma EntriesDiffer(t: Traced, a: nat, b: nat)
    requires Sound(t) && a < |t.done| && b < |t.done| && a != b
    ensures t.done[a].point != t.done[b].point
    ensures t.done[a].until < t.done[b].from ==> t.done[a].point < t.done[b].point
  {
    var low, high := Min(a, b), Max(a, b);
    assert InTurn(t.done[low], t.done[high]);
    assert Lawful(t.done[a], t.s.log, t.who) && Lawful(t.done[b], t.s.log, t.who);
  }

  /**
  Any number of pushers and poppers, under any interleaving. The log, read in order, is a
  correct use of a sequential stack that ends as the links now are. Every operation that has
  returned made one entry in it between its call and its return, of the node that it was
  asked to push or has answered with; no two made the same; an operation called after
  another's return has the later entry; and every entry is that of an operation that has
  returned or is under way.
  */
  lemma Linearizable(next: map<Ptr, Ptr>, n: nat, turns: seq<Turn<Call>>)
    requires (forall x :: x in turns ==> x.thread < n) && FairRun(Initial(0, next, n), turns)
    ensures var t := Traces(Begun(next, n), turns);
      && t.s == Run(Initial(0, next, n), turns)
      && Chained(t.s.memory, t.s.stack) && Replays(t.s.log, t.s.stack)
      && (forall k :: 0 <= k < |t.done| ==> Lawful(t.done[k], t.s.log, t.who))
      && (forall a, b :: 0 <= a < |t.done| && 0 <= b < |t.done| && a != b ==> t.done[a].point != t.done[b].point)
      && (forall a, b :: 0 <= a < |t.done| && 0 <= b < |t.done| && t.done[a].until < t.done[b].from ==>
            t.done[a].point < t.done[b].point)
      && (forall q :: 0 <= q < |t.s.log| ==> Accounted(t, q))
  {
    BegunSound(next, n);
    TracesSound(Begun(next, n), turns);
    var t := Traces(Begun(next, n), turns);
    forall a, b | 0 <= a < |t.done| && 0 <= b < |t.done|
      ensures a != b ==> t.done[a].point != t.done[b].point
      ensures t.done[a].until < t.done[b].from ==> t.done[a].point < t.done[b].point
    {
      assert Lawful(t.done[a], t.s.log, t.who);
      if a != b {
        EntriesDiffer(t, a, b);
      }
    }
  }

  // A thread left alone

  ghost predicate Waits(s: State, i: nat)
    requires i < |s.threads|
  {
    s.threads[i].PopLock? && s.memory.lock != 0
  }

  /** At most so many turns are left to a thread that is not disturbed. */
  ghost function Rank(m: Memory, p: Pc): nat {
    match p
    case PushReadHead(_) => 4
    case PushSetNext(_, h) => if h == m.head then 3 else 6
    case PushSwapHead(_, h) => if h == m.head then 2 else 5
    case PushCount(_) => 1
    case PopLock => 8
    case PopReadHead => 7
    case PopReadNext(h) => if h == m.head then 6 else 9
    case PopSwapHead(h, _) => if h == m.head then 5 else 8
    case PopClearNext(_) => 3
    case PopCount(_) => 2
    case PopUnlock(_) => 1
    case _ => 0
  }

  /** Every access of a thread that does not wait for the lock brings it nearer to its return. */
  lemma ComesNearer(s: State, i: nat, call: Call)
    requires |s.point| == |s.threads| && i < |s.threads|
    requires !Resting(s.threads[i]) && !s.threads[i].Aborted? && !Waits(s, i)
    ensures var s' := Next(s, i, call); Rank(s'.memory, s'.threads[i]) < Rank(s.memory, s.threads[i])
  {
  }

  /** Left alone, a thread in an operation has returned, or has to wait for the lock, within nine turns. */
  lemma {:induction false} RunsAlone(s: State, i: nat) returns (turns: seq<Turn<Call>>, r: State)
    requires Inv(s) && i < |s.threads|
    ensures |turns| <= Rank(s.memory, s.threads[i]) <= 9 && forall t :: t in turns ==> t == Turn(i, Pop)
    ensures |r.threads| == |s.threads| && Run(s, turns) == r && (Resting(r.threads[i]) || Waits(r, i))
    decreases Rank(s.memory, s.threads[i])
  {
    NotAborted(s, i);
    if Resting(s.threads[i]) || Waits(s, i) {
      return [], s;
    }
    ComesNearer(s, i, Pop);
    NextInv(s, i, Pop);
    var rest;
    rest, r := RunsAlone(Next(s, i, Pop), i);
    turns := [Turn(i, Pop)] + rest;
    assert turns[1..] == rest;
  }
}
