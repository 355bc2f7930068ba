/**
What each logger and the logging thread has done so far, and where an empty queue takes
them: the lines taken, put and dropped, and when the logging thread stops.
*/
module RelayHistory {
  import opened MachineWords
  import Q = CircularQueue
  import opened LogRelay

  /**
  What a thread has done: the messages that it was called for, the lines that it has taken
  from a queue and put into one, the empty answers that it got, and whether one of these
  came when it was not to keep running.
  */
  datatype Deeds = Deeds(calls: nat, got: nat, put: nat, dry: nat, dismissed: bool)

  datatype Traced = Traced(s: State, deeds: seq<Deeds>)

  ghost predicate Took(p: Q.Pc, p': Q.Pc) {
    !p.Dequeued? && p'.Dequeued?
  }

  ghost predicate Gave(p: Q.Pc, p': Q.Pc) {
    !p.Enqueued? && p'.Enqueued?
  }

  ghost predicate Missed(p: Q.Pc, p': Q.Pc) {
    !p.FoundEmpty? && p'.FoundEmpty?
  }

  /** What a turn adds, read off the queues: `out` and `inn` are the thread's places in them before, the others after. */
  ghost function Done(d: Deeds, h: Hand, out: Q.Pc, inn: Q.Pc, out': Q.Pc, inn': Q.Pc, keepRunning: bool): Deeds {
    Deeds(if h.Ready? then d.calls + 1 else d.calls,
          if Took(out, out') || Took(inn, inn') then d.got + 1 else d.got,
          if Gave(out, out') || Gave(inn, inn') then d.put + 1 else d.put,
          if Missed(out, out') || Missed(inn, inn') then d.dry + 1 else d.dry,
          d.dismissed || ((Missed(out, out') || Missed(inn, inn')) && !keepRunning))
  }

  ghost function Step(t: Traced, i: nat, keepRunning: bool): (t': Traced)
    requires Shaped(t.s) && |t.deeds| == |t.s.hands| && i < |t.deeds|
    ensures |t'.deeds| == |t.deeds|
  {
    var s, s' := t.s, Next(t.s, i, keepRunning);
    Traced(s', t.deeds[i := Done(t.deeds[i], s.hands[i], s.out.threads[i], s.inn.threads[i],
                                 s'.out.threads[i], s'.inn.threads[i], keepRunning)])
  }

  // What every thread can say of itself

  /**
  A logger has put back all lines but the one that it holds. It is through with every
  message but the one under way: put it, or dropped it for want of a line if that is the
  policy. It has crashed if and only if it wanted for a line and the policy is to abort.
  */
  ghost predicate LoggerHonest(policy: OnError, d: Deeds, h: Hand) {
    && (h.Ready? || h.Fetching? || h.Writing? || h.Posting? || h.Crashed?)
    && d.got == d.put + (if h.Writing? || h.Posting? then 1 else 0)
    && d.calls == d.put + (if policy.Drop? then d.dry else 0) + (if h.Ready? then 0 else 1)
    && (h.Crashed? <==> policy.Abort? && d.dry > 0)
  }

  /**
  The logging thread has given back all lines but the one that it holds. It has stopped if
  and only if it found no line at a turn at which it was not to keep running.
  */
  ghost predicate RelayHonest(d: Deeds, h: Hand) {
    && (h.Polling? || h.Serving? || h.Returning? || h.Stopped?)
    && d.got == d.put + (if h.Serving? || h.Returning? then 1 else 0)
    && (h.Stopped? <==> d.dismissed)
  }

  ghost predicate InRole(relay: bool, policy: OnError, d: Deeds, h: Hand) {
    if relay then RelayHonest(d, h) else LoggerHonest(policy, d, h)
  }

  ghost predicate Honest(s: State, i: nat, d: Deeds)
    requires i < |s.hands|
  {
    InRole(i == 0, s.policy, d, s.hands[i])
  }

  ghost predicate Sound(t: Traced) {
    && Inv(t.s) && |t.deeds| == |t.s.hands|
    && forall i :: 0 <= i < |t.deeds| ==> Honest(t.s, i, t.deeds[i])
  }

  // Every turn keeps it

  /** Where a turn on the free queue takes a thread. */
  ghost predicate OutGoes(h: Hand, p: Q.Pc, p': Q.Pc, policy: OnError, h': Hand) {
    && (h.Ready? ==> h'.Fetching? && !Took(p, p') && !Gave(p, p') && !Missed(p, p'))
    && (h.Fetching? ==>
          && !Gave(p, p') && (Took(p, p') <==> h'.Writing?)
          && (if Missed(p, p') then h' == (match policy case Drop => Ready case Block => Fetching case Abort => Crashed)
              else h'.Writing? || h'.Fetching?))
    && (h.Serving? ==> h'.Returning? && !Took(p, p') && !Missed(p, p') && !Gave(p, p'))
    && (h.Returning? ==>
          && !Took(p, p') && !Missed(p, p')
          && (if Gave(p, p') then h'.Polling? else h'.Returning?))
  }

  /** Where a turn on the queue of written lines takes a thread. */
  ghost predicate InGoes(h: Hand, p: Q.Pc, p': Q.Pc, keepRunning: bool, h': Hand) {
    && (h.Writing? ==> h'.Posting? && !Took(p, p') && !Missed(p, p') && !Gave(p, p'))
    && (h.Posting? ==>
          && !Took(p, p') && !Missed(p, p')
          && (if Gave(p, p') then h'.Ready? else h'.Posting?))
    && (h.Polling? ==>
          && !Gave(p, p') && (Took(p, p') <==> h'.Serving?)
          && (if Missed(p, p') then h' == (if keepRunning then Polling else Stopped)
              else h'.Serving? || h'.Polling?))
  }

  lemma NextGoesOut(s: State, i: nat, keepRunning: bool)
    requires Shaped(s) && i < |s.hands| && Wants(s.hands[i]).OnOut?
    requires Tied(s.hands[i], s.out.threads[i], s.inn.threads[i])
    ensures var s' := Next(s, i, keepRunning);
      && |s'.hands| == |s'.out.threads| == |s.hands| && s'.inn == s.inn && s'.policy == s.policy
      && OutGoes(s.hands[i], s.out.threads[i], s'.out.threads[i], s.policy, s'.hands[i])
  {
    var call := Wants(s.hands[i]).call;
    assert Next(s, i, keepRunning).out.threads[i] == Q.Act(s.out.memory, s.out.threads[i], call).1;
  }

  lemma NextGoesIn(s: State, i: nat, keepRunning: bool)
    requires Shaped(s) && i < |s.hands| && Wants(s.hands[i]).OnIn?
    requires Tied(s.hands[i], s.out.threads[i], s.inn.threads[i])
    ensures var s' := Next(s, i, keepRunning);
      && |s'.hands| == |s'.inn.threads| == |s.hands| && s'.out == s.out && s'.policy == s.policy
      && InGoes(s.hands[i], s.inn.threads[i], s'.inn.threads[i], keepRunning, s'.hands[i])
  {
    var call := Wants(s.hands[i]).call;
    assert Next(s, i, keepRunning).inn.threads[i] == Q.Act(s.inn.memory, s.inn.threads[i], call).1;
  }

  /**
  An empty answer leaves a logger fetching under Block, and ready for another message under
  Drop, and is its end under Abort; it leaves the logging thread polling while it is to keep
  running, and stops it otherwise.
  */
  lemma AfterEmptyAnswer(s: State, i: nat, keepRunning: bool)
    requires Inv(s) && i < |s.hands|
    ensures var s' := Next(s, i, keepRunning);
      && |s'.hands| == |s'.out.threads| == |s'.inn.threads| == |s.hands|
      && (Missed(s.out.threads[i], s'.out.threads[i]) ==>
            && s.hands[i].Fetching?
            && (s.policy.Block? ==> s'.hands[i] == Fetching)
            && (s.policy.Drop? ==> s'.hands[i] == Ready)
            && (s.policy.Abort? ==> s'.hands[i] == Crashed))
      && (Missed(s.inn.threads[i], s'.inn.threads[i]) ==>
            s.hands[i].Polling? && s'.hands[i] == if keepRunning then Polling else Stopped)
  {
    NextInv(s, i, keepRunning);
    if Wants(s.hands[i]).OnOut? {
      NextGoesOut(s, i, keepRunning);
    } else if Wants(s.hands[i]).OnIn? {
      NextGoesIn(s, i, keepRunning);
    }
  }

  lemma OutHonest(relay: bool, policy: OnError, d: Deeds, h: Hand, p: Q.Pc, p': Q.Pc, inn: Q.Pc, h': Hand, keepRunning: bool)
    requires Wants(h).OnOut? && InRole(relay, policy, d, h) && OutGoes(h, p, p', policy, h')
    ensures InRole(relay, policy, Done(d, h, p, inn, p', inn, keepRunning), h')
  {
  }

  lemma InHonest(relay: bool, policy: OnError, d: Deeds, h: Hand, out: Q.Pc, p: Q.Pc, p': Q.Pc, h': Hand, keepRunning: bool)
    requires Wants(h).OnIn? && InRole(relay, policy, d, h) && InGoes(h, p, p', keepRunning, h')
    ensures InRole(relay, policy, Done(d, h, out, p, out, p', keepRunning), h')
  {
  }

  lemma MoverHonest(t: Traced, i: nat, keepRunning: bool)
    requires Shaped(t.s) && |t.deeds| == |t.s.hands| && i < |t.deeds| && Honest(t.s, i, t.deeds[i])
    requires Tied(t.s.hands[i], t.s.out.threads[i], t.s.inn.threads[i])
    ensures var t' := Step(t, i, keepRunning);
      |t'.s.hands| == |t.deeds| && Honest(t'.s, i, t'.deeds[i])
  {
    var s, s', h, d := t.s, Next(t.s, i, keepRunning), t.s.hands[i], t.deeds[i];
    var out, inn := s.out.threads[i], s.inn.threads[i];
    if Wants(h).OnOut? {
      NextGoesOut(s, i, keepRunning);
      OutHonest(i == 0, s.policy, d, h, out, s'.out.threads[i], inn, s'.hands[i], keepRunning);
    } else if Wants(h).OnIn? {
      NextGoesIn(s, i, keepRunning);
      InHonest(i == 0, s.policy, d, h, out, inn, s'.inn.threads[i], s'.hands[i], keepRunning);
    }
  }

  lemma StepSound(t: Traced, i: nat, keepRunning: bool)
    requires Sound(t) && i < |t.deeds|
    ensures Sound(Step(t, i, keepRunning))
  {
    var t' := Step(t, i, keepRunning);
    NextInv(t.s, i, keepRunning);
    assert Honest(t.s, i, t.deeds[i]);
    MoverHonest(t, i, keepRunning);
    forall j | 0 <= j < |t'.deeds| && j != i ensures Honest(t'.s, j, t'.deeds[j]) {
      assert Honest(t.s, j, t.deeds[j]);
      OthersStay(t.s, i, keepRunning, j);
    }
  }

  // Whole runs

  ghost function Begun(lines: Word, policy: OnError, n: nat): Traced
    requires lines + 1 < TWO64 && n > 0
  {
    Traced(Initial(lines, policy, n), seq(n, _ => Deeds(0, 0, 0, 0, false)))
  }

  ghost function Traces(t: Traced, turns: seq<Turn>): (r: Traced)
    requires Sound(t) && forall x :: x in turns ==> x.thread < |t.deeds|
    ensures r.s == Run(t.s, turns) && Sound(r) && |r.deeds| == |t.deeds|
    decreases |turns|
  {
    if turns == [] then t
    else
      StepSound(t, turns[0].thread, turns[0].keepRunning);
      Traces(Step(t, turns[0].thread, turns[0].keepRunning), turns[1..])
  }

  lemma BegunSound(lines: Word, policy: OnError, n: nat)
    requires lines + 1 < TWO64 && n > 0
    ensures Sound(Begun(lines, policy, n))
  {
    InitiallyInv(lines, policy, n);
    var s := Initial(lines, policy, n);
    forall i | 0 < i < n ensures s.hands[i].Ready? {
      assert s.hands[i] == seq(n - 1, _ => Ready)[i - 1];
    }
  }

  /**
  In every run of loggers and the logging thread with the library's buffers: the logging
  thread has stopped if and only if it found no line when it was not to keep running; and
  every logger's message has been put, or dropped if that is the policy, or is under way,
  for ever if the logger has aborted.
  */
  lemma EveryoneIsHonest(policy: OnError, n: nat, turns: seq<Turn>)
    requires n > 0 && forall x :: x in turns ==> x.thread < n
    ensures Sound(Begun(THREAD_LINE_BUFFER_SIZE, policy, n))
    ensures var t := Traces(Begun(THREAD_LINE_BUFFER_SIZE, policy, n), turns);
      && |t.deeds| == |t.s.hands| == n
      && RelayHonest(t.deeds[0], t.s.hands[0])
      && forall i :: 0 < i < n ==> LoggerHonest(policy, t.deeds[i], t.s.hands[i])
  {
    BegunSound(THREAD_LINE_BUFFER_SIZE, policy, n);
    var t := Traces(Begun(THREAD_LINE_BUFFER_SIZE, policy, n), turns);
    PolicyStays(Begun(THREAD_LINE_BUFFER_SIZE, policy, n).s, turns);
    assert Honest(t.s, 0, t.deeds[0]);
    forall i | 0 < i < n ensures LoggerHonest(policy, t.deeds[i], t.s.hands[i]) {
      assert Honest(t.s, i, t.deeds[i]);
    }
  }

  lemma {:induction false} PolicyStays(s: State, turns: seq<Turn>)
    requires Inv(s) && forall x :: x in turns ==> x.thread < |s.hands|
    ensures Run(s, turns).policy == s.policy
    decreases |turns|
  {
    if turns != [] {
      NextInv(s, turns[0].thread, turns[0].keepRunning);
      PolicyStays(Next(s, turns[0].thread, turns[0].keepRunning), turns[1..]);
    }
  }
}
