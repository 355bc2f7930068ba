/**
When the thread pool starts a thread, when it turns a start away, and when a worker leaves:
the grounds on which callers and workers decide, over whole runs.
*/
module ThreadStarts {
  import opened MachineWords
  import opened Counting
  import opened ThreadPool

  // One thread of control alone

  /** The turns are possible and lead from `s` to `r`. */
  ghost predicate Reaches(s: State, turns: seq<Turn>, r: State) {
    CanRun(s, turns) && Run(s, turns) == r
  }

  lemma {:induction false} Further(s: State, turns: seq<Turn>, r: State, last: Turn)
    requires Reaches(s, turns, r) && Can(r, last) && Roomy(r, last)
    ensures Reaches(s, turns + [last], Next(r, last))
    decreases |turns|
  {
    if turns == [] {
      assert ([] + [last])[1..] == [];
    } else {
      Further(Next(s, turns[0]), turns[1..], r, last);
      assert (turns + [last])[0] == turns[0] && (turns + [last])[1..] == turns[1..] + [last];
    }
  }

  /** There is room under the cap for one more. */
  ghost predicate RoomFor(s: State, held: int) {
    s.config.maxThreads == 0 || held < s.config.maxThreads
  }

  /** The caller has counted its thread and read how many are running, in either order. */
  lemma CountAlone(s: State, turns: seq<Turn>, r: State, i: nat, countFirst: bool) returns (turns': seq<Turn>, r': State)
    requires Reaches(s, turns, r) && r.counters.created + 1 < TWO64
    requires r.counters.destroyed <= r.counters.created && |r.places| == r.counters.created - r.counters.destroyed
    requires i < |r.starters| && r.starters[i] == (if countFirst then CountFirst else ReadFirst)
    ensures Reaches(s, turns', r')
    ensures r' == r.(counters := r.counters.(created := r.counters.created + 1),
                     starters := r.starters[i := Compare(|r.places|)], places := r.places + [ByStarter(i)])
  {
    var t, created, destroyed := Start(i, countFirst), r.counters.created, r.counters.destroyed;
    Fits(created, 1);
    Apart(created, destroyed);
    Further(s, turns, r, t);
    var r1 := Next(r, t);
    Further(s, turns + [t], r1, t);
    Twice(r.starters, i, r1.starters[i], Compare(|r.places|));
    turns', r' := turns + [t] + [t], Next(r1, t);
  }

  lemma Apart(a: Word, b: Word)
    requires b <= a
    ensures Minus(a, b) == a - b
  {
  }

  /** The caller has found that nothing is being drained. */
  lemma BeginAlone(s: State, i: nat, countFirst: bool) returns (turns: seq<Turn>, r: State)
    requires i < |s.starters| && s.starters[i].Resting? && !s.counters.drain
    ensures Reaches(s, turns, r)
    ensures r == s.(starters := s.starters[i := if countFirst then CountFirst else ReadFirst])
  {
    var t := Start(i, countFirst);
    var r1 := s.(starters := s.starters[i := SeeDrain]);
    Further(s, [], s, t);
    Twice(s.starters, i, SeeDrain, if countFirst then CountFirst else ReadFirst);
    Further(s, [] + [t], r1, t);
    turns, r := [] + [t] + [t], Next(r1, t);
  }

  /** The places once the last one, of caller `i`, has been given up or passed on. */
  lemma LastPlace(places: seq<Holder>, i: nat, j: nat)
    requires ByStarter(i) !in places
    ensures Vacated(places + [ByStarter(i)], ByStarter(i)) == places
    ensures Handed(places + [ByStarter(i)], ByStarter(i), ByWorker(j)) == places + [ByWorker(j)]
  {
    LastIs(places, ByStarter(i));
    assert (places + [ByStarter(i)])[|places| := ByWorker(j)] == places + [ByWorker(j)];
  }

  lemma {:induction false} LastIs(places: seq<Holder>, h: Holder)
    requires h !in places
    ensures Place(places + [h], h) == |places|
    decreases |places|
  {
    if places != [] {
      assert (places + [h])[1..] == places[1..] + [h] && (places + [h])[0] == places[0];
      LastIs(places[1..], h);
    }
  }

  lemma NoPlaceYet(s: State, i: nat)
    requires Placed(s) && i < |s.starters| && Reserves()(s.starters[i]) == 0
    ensures ByStarter(i) !in s.places
  {
    forall k | 0 <= k < |s.places| ensures s.places[k] != ByStarter(i) {
      assert PlaceOk(s, k);
    }
  }

  /**
  An undisturbed start leaves one worker more if and only if nothing is being drained and
  there is no cap or a place left under it; otherwise the counters are what they were.
  */
  lemma StartAlone(s: State, i: nat, countFirst: bool) returns (turns: seq<Turn>, r: State)
    requires Inv(s) && i < |s.starters| && s.starters[i].Resting? && s.counters.created + 1 < TWO64
    ensures Reaches(s, turns, r) && Inv(r) && r.starters == s.starters && r.config == s.config && r.ids == s.ids
    ensures if !s.counters.drain && RoomFor(s, |s.places|) then
        && r.workers == s.workers + [TakeId] && r.places == s.places + [ByWorker(|s.workers|)]
        && r.counters == s.counters.(created := s.counters.created + 1)
      else r == s
  {
    if s.counters.drain {
      turns, r := RefusedAlone(s, i, countFirst);
    } else {
      turns, r := BeginAlone(s, i, countFirst);
      turns, r := CountAlone(s, turns, r, i, countFirst);
      turns, r := DecideAlone(s, turns, r, i, countFirst);
    }
    RunInv(s, turns);
  }

  lemma RefusedAlone(s: State, i: nat, countFirst: bool) returns (turns: seq<Turn>, r: State)
    requires i < |s.starters| && s.starters[i].Resting? && s.counters.drain
    ensures Reaches(s, turns, r) && r == s
  {
    var t := Start(i, countFirst);
    var r1 := s.(starters := s.starters[i := SeeDrain]);
    Further(s, [], s, t);
    Further(s, [] + [t], r1, t);
    turns, r := [] + [t] + [t], Next(r1, t);
    assert r.starters == s.starters;
  }

  lemma DecideAlone(s: State, turns: seq<Turn>, r: State, i: nat, countFirst: bool) returns (turns': seq<Turn>, r': State)
    requires Reaches(s, turns, r) && Placed(s) && i < |s.starters| && s.starters[i].Resting?
    requires s.counters.created + 1 < TWO64 && |s.places| < TWO64
    requires r == s.(counters := s.counters.(created := s.counters.created + 1),
                     starters := s.starters[i := Compare(|s.places|)], places := s.places + [ByStarter(i)])
    ensures Reaches(s, turns', r')
    ensures if RoomFor(s, |s.places|) then
        r' == s.(counters := r.counters, workers := s.workers + [TakeId], places := s.places + [ByWorker(|s.workers|)])
      else r' == s
  {
    var t := Start(i, countFirst);
    NoPlaceYet(s, i);
    LastPlace(s.places, i, |s.workers|);
    Fits(s.counters.created + 1, -1);
    Further(s, turns, r, t);
    var r1 := Next(r, t);
    Further(s, turns + [t], r1, t);
    turns', r' := turns + [t] + [t], Next(r1, t);
    assert r'.starters == s.starters;
  }

  /** Creating a pool starts the minimum of threads: each start in turn finds room, even if the cap is no higher. */
  lemma {:induction false} CreateStartsMinimum(config: Config, n: nat, i: nat, k: nat) returns (turns: seq<Turn>, r: State)
    requires i < n && k <= Settled(config).minThreads && k + 1 < TWO64
    ensures Reaches(Initial(config, n), turns, r) && Inv(r) && r.starters == Initial(config, n).starters
    ensures |r.workers| == k == |r.places| == r.counters.created && r.counters.destroyed == 0 && !r.counters.drain
    ensures forall j :: 0 <= j < k ==> r.workers[j] == TakeId
    ensures r.config == Settled(config)
    decreases k
  {
    var s := Initial(config, n);
    if k == 0 {
      InitiallyOk(config, n);
      turns, r := [], s;
    } else {
      var turns1, r1 := CreateStartsMinimum(config, n, i, k - 1);
      var more;
      more, r := StartAlone(r1, i, true);
      turns := turns1 + more;
      OneAfterOther(s, turns1, r1, more, r);
    }
  }

  lemma {:induction false} OneAfterOther(s: State, a: seq<Turn>, r: State, b: seq<Turn>, q: State)
    requires Reaches(s, a, r) && Reaches(r, b, q)
    ensures Reaches(s, a + b, q)
    decreases |a|
  {
    if a == [] {
      assert a + b == b;
    } else {
      OneAfterOther(Next(s, a[0]), a[1..], r, b, q);
      assert (a + b)[0] == a[0] && (a + b)[1..] == a[1..] + b;
    }
  }

  // What callers and workers decide on

  /** The counts that a caller has gone by: of created threads before its own, and of destroyed ones. */
  datatype Grounds = Grounds(before: Word, destroyed: Word)

  /**
  What a worker has been through: its id, the tasks that it has found and run, and, of the
  latest time that it asked: whether there was a task, whether the pool was being drained,
  and how long it had been idle.
  */
  datatype Career = Career(id: Word, tasks: nat, ran: nat, found: bool, drained: bool, idleFor: Word)

  ghost function Hired(): Career {
    Career(0, 0, 0, false, false, 0)
  }

  /** A state with what callers and workers have seen so far. */
  datatype Traced = Traced(s: State, grounds: seq<Grounds>, careers: seq<Career>)

  ghost predicate Whole(t: Traced) {
    |t.grounds| == |t.s.starters| && |t.careers| == |t.s.workers|
  }

  ghost function Begun(config: Config, n: nat): Traced {
    Traced(Initial(config, n), seq(n, _ => Grounds(0, 0)), [])
  }

  ghost function Learned(g: Grounds, c: Counters, p: Starter): Grounds {
    if p.CountFirst? || p.CountLast? then g.(before := c.created)
    else if p.ReadDestroyed? || p.ReadFirst? then g.(destroyed := c.destroyed)
    else g
  }

  ghost function Lived(k: Career, c: Counters, p: Worker, found: bool, elapsed: Word): Career {
    match p
    case TakeId => k.(id := c.runningId)
    case TryPop(_, _) => k.(found := found, tasks := if found then k.tasks + 1 else k.tasks)
    case Work(_) => k.(ran := k.ran + 1)
    case CheckDrain(_) => k.(drained := c.drain)
    case Consider(_) => k.(idleFor := elapsed)
    case _ => k
  }

  ghost function Step(t: Traced, turn: Turn): Traced
    requires Whole(t) && Can(t.s, turn)
  {
    var s' := Next(t.s, turn);
    match turn
    case Start(i, _) =>
      Traced(s', t.grounds[i := Learned(t.grounds[i], t.s.counters, t.s.starters[i])],
             if |s'.workers| > |t.s.workers| then t.careers + [Hired()] else t.careers)
    case Serve(j, found, elapsed) =>
      Traced(s', t.grounds, t.careers[j := Lived(t.careers[j], t.s.counters, t.s.workers[j], found, elapsed)])
    case Drain => t.(s := s')
  }

  /** By these counts, in 64 bits, the cap was reached. */
  ghost predicate CapSeen(config: Config, g: Grounds) {
    config.maxThreads > 0 && (g.before - g.destroyed) % TWO64 >= config.maxThreads
  }

  /** A caller turns its start away exactly if the counts that it has gone by say so. */
  ghost predicate Justified(config: Config, g: Grounds, p: Starter) {
    match p
    case ReadDestroyed(before) => before == g.before
    case CountLast(destroyed) => destroyed == g.destroyed
    case Compare(a) => a == (g.before - g.destroyed) % TWO64
    case RollBack => CapSeen(config, g)
    case Spawn => !CapSeen(config, g)
    case _ => true
  }

  ghost predicate Expired(config: Config, k: Career) {
    config.idleTimeout > 0 && k.idleFor >= config.idleTimeout && k.id > config.minThreads
  }

  /**
  A worker has run every task that it has found but the one it is about to run. It is
  leaving if and only if it has read the drain signal, or has been idle for the set time
  with an id above the minimum; and then it had found nothing.
  */
  ghost predicate Deserved(config: Config, k: Career, p: Worker) {
    && (if p.TakeId? then k == Hired() else !p.Gone? ==> p.id == k.id)
    && k.tasks == k.ran + (if p.LeaveForTask? || p.Work? then 1 else 0)
    && (Leaving(p) <==> k.drained || Expired(config, k))
    && (Leaving(p) || p.CheckDrain? || p.Consider? || p.BackToIdle? ==> !k.found)
  }

  ghost predicate Sound(t: Traced) {
    && Whole(t)
    && (forall i :: 0 <= i < |t.grounds| ==> Justified(t.s.config, t.grounds[i], t.s.starters[i]))
    && (forall j :: 0 <= j < |t.careers| ==> Deserved(t.s.config, t.careers[j], t.s.workers[j]))
  }

  lemma StarterJustified(config: Config, c: Counters, g: Grounds, p: Starter, countFirst: bool)
    requires Justified(config, g, p)
    ensures Justified(config, Learned(g, c, p), StarterAct(config, c, p, countFirst).1)
  {
  }

  lemma WorkerDeserved(config: Config, c: Counters, k: Career, p: Worker, found: bool, elapsed: Word)
    requires Deserved(config, k, p)
    ensures Deserved(config, Lived(k, c, p, found, elapsed), WorkerAct(config, c, p, found, elapsed).1)
  {
  }

  lemma StepSound(t: Traced, turn: Turn)
    requires Sound(t) && Can(t.s, turn)
    ensures Sound(Step(t, turn)) && |Step(t, turn).grounds| == |t.grounds|
  {
    var t', s := Step(t, turn), t.s;
    match turn
    case Start(i, countFirst) =>
      StarterJustified(s.config, s.counters, t.grounds[i], s.starters[i], countFirst);
      forall j | 0 <= j < |t'.careers| ensures Deserved(s.config, t'.careers[j], t'.s.workers[j]) {
        assert j < |t.careers| ==> t'.careers[j] == t.careers[j] && t'.s.workers[j] == s.workers[j];
      }
    case Serve(j, found, elapsed) =>
      WorkerDeserved(s.config, s.counters, t.careers[j], s.workers[j], found, elapsed);
    case Drain =>
  }

  ghost function Traces(t: Traced, turns: seq<Turn>): (r: Traced)
    requires Whole(t) && CanRun(t.s, turns)
    ensures Whole(r) && r.s == Run(t.s, turns) && |r.grounds| == |t.grounds|
    decreases |turns|
  {
    if turns == [] then t else Traces(Step(t, turns[0]), turns[1..])
  }

  lemma {:induction false} TracesSound(t: Traced, turns: seq<Turn>)
    requires Sound(t) && CanRun(t.s, turns)
    ensures Sound(Traces(t, turns)) && Traces(t, turns).s.config == t.s.config
    decreases |turns|
  {
    if turns != [] {
      StepSound(t, turns[0]);
      TracesSound(Step(t, turns[0]), turns[1..]);
    }
  }

  /**
  In every run: a caller that rolls its start back has found the cap reached by the count of
  created threads before its own and the count of destroyed ones that it read, and one that
  starts its thread has not; every worker runs what it finds, and leaves if and only if it
  has read the drain signal or outlasted the idle timeout with an id above the minimum.
  */
  lemma DecisionsJustified(config: Config, n: nat, turns: seq<Turn>)
    requires CanRun(Initial(config, n), turns)
    ensures var t := Traces(Begun(config, n), turns);
      && t.s == Run(Initial(config, n), turns) && t.s.config == Settled(config)
      && (forall i :: 0 <= i < n && t.s.starters[i].RollBack? ==> CapSeen(t.s.config, t.grounds[i]))
      && (forall i :: 0 <= i < n && t.s.starters[i].Spawn? ==> !CapSeen(t.s.config, t.grounds[i]))
      && (forall j :: 0 <= j < |t.careers| ==> Deserved(t.s.config, t.careers[j], t.s.workers[j]))
  {
    TracesSound(Begun(config, n), turns);
    var t := Traces(Begun(config, n), turns);
    forall i | 0 <= i < n
      ensures t.s.starters[i].RollBack? ==> CapSeen(t.s.config, t.grounds[i])
      ensures t.s.starters[i].Spawn? ==> !CapSeen(t.s.config, t.grounds[i])
    {
      assert Justified(t.s.config, t.grounds[i], t.s.starters[i]);
    }
  }

  /** The cap was truly reached by these counts, unless more threads were destroyed meanwhile than created before. */
  lemma CapSeenMeans(config: Config, g: Grounds)
    ensures CapSeen(config, g) && g.destroyed <= g.before ==> 0 < config.maxThreads <= g.before - g.destroyed
    ensures !CapSeen(config, g) && g.destroyed <= g.before ==> RoomUnder(config, g.before - g.destroyed)
    ensures 0 < config.maxThreads <= TWO63 && g.before < g.destroyed <= TWO63 ==> CapSeen(config, g)
  {
    if g.destroyed <= g.before {
      Small(g.before - g.destroyed);
    } else {
      Small(g.before - g.destroyed + TWO64);
      assert (g.before - g.destroyed) % TWO64 == (g.before - g.destroyed + TWO64) % TWO64;
    }
  }

  ghost predicate RoomUnder(config: Config, held: int) {
    config.maxThreads == 0 || held < config.maxThreads
  }

  lemma Small(x: nat)
    requires x < TWO64
    ensures x % TWO64 == x
  {
  }

  // Workers alone

  /** A worker that is about to run a task runs it within two of its own turns. */
  lemma RunsItsTask(t: Traced, j: nat, a: Turn, b: Turn)
    requires Sound(t) && j < |t.careers| && t.careers[j].tasks == t.careers[j].ran + 1
    requires a.Serve? && a.j == j && b.Serve? && b.j == j
    ensures Step(t, a).careers[j].ran == t.careers[j].tasks
      || (Whole(Step(t, a)) && Can(Step(t, a).s, b) && Step(Step(t, a), b).careers[j].ran == t.careers[j].tasks)
  {
    StepSound(t, a);
  }

  ghost predicate Outlasted(config: Config, id: Word, elapsed: Word) {
    config.idleTimeout > 0 && elapsed >= config.idleTimeout && id > config.minThreads
  }

  /** At most so many turns are left to a worker that finds nothing and has reason to leave. */
  ghost function Rank(p: Worker, outlasted: bool): nat {
    match p
    case TryPop(_, _) => 7
    case BackToIdle(_) => 6
    case CheckDrain(_) => 5
    case Consider(_) => if outlasted then 4 else 8
    case LeaveIdle(_) => 3
    case LeaveActive(_) => 2
    case Retire(_) => 1
    case _ => 0
  }

  /** With reason to leave and nothing to do, each of its turns brings a worker nearer to the end. */
  lemma ComesNearer(s: State, j: nat, elapsed: Word, outlasted: bool)
    requires j < |s.workers| && Rank(s.workers[j], outlasted) > 0
    requires outlasted <==> Outlasted(s.config, s.workers[j].id, elapsed)
    requires outlasted || s.counters.drain
    ensures var s' := Next(s, Serve(j, false, elapsed));
      var p := s'.workers[j];
      && Rank(p, outlasted) < Rank(s.workers[j], outlasted)
      && (p.Gone? || (Rank(p, outlasted) > 0 && p.id == s.workers[j].id))
      && s'.counters.drain == s.counters.drain && s'.config == s.config && s'.starters == s.starters
      && s'.counters.created == s.counters.created && s'.workers == s.workers[j := p]
  {
  }

  /** Left alone, such a worker is gone within eight turns. */
  lemma {:induction false} LeavesAlone(s: State, j: nat, elapsed: Word, outlasted: bool)
    returns (turns: seq<Turn>, r: State)
    requires j < |s.workers| && Rank(s.workers[j], outlasted) > 0
    requires outlasted <==> Outlasted(s.config, s.workers[j].id, elapsed)
    requires outlasted || s.counters.drain
    ensures |turns| <= Rank(s.workers[j], outlasted) <= 8 && Reaches(s, turns, r) && r.workers == s.workers[j := Gone]
    ensures r.config == s.config && r.starters == s.starters && r.counters.created == s.counters.created
    decreases Rank(s.workers[j], outlasted)
  {
    var t := Serve(j, false, elapsed);
    ComesNearer(s, j, elapsed, outlasted);
    var s' := Next(s, t);
    if s'.workers[j].Gone? {
      assert [t][1..] == [] && Run(s', []) == s';
      return [t], s';
    }
    var rest;
    rest, r := LeavesAlone(s', j, elapsed, outlasted);
    turns := [t] + rest;
    assert turns[1..] == rest;
  }

  // A start turned away with room to spare

  /** Caller 0 has counted its thread and not yet read how many are gone. */
  lemma OnePaused() returns (turns: seq<Turn>, r: State)
    ensures Reaches(Initial(Config(3, 1, 1), 2), turns, r) && Inv(r) && r.config == Config(3, 1, 1)
    ensures r.starters == [ReadDestroyed(0), Resting] && r.workers == [] && |r.places| == 1
    ensures r.counters == Counters(1, 0, 0, 0, 1, false)
  {
    var s := Initial(Config(3, 1, 1), 2);
    InitiallyOk(Config(3, 1, 1), 2);
    assert s.starters == [Resting, Resting];
    turns, r := BeginAlone(s, 0, true);
    Fits(0, 1);
    Further(s, turns, r, Start(0, true));
    turns, r := turns + [Start(0, true)], Next(r, Start(0, true));
    RunInv(s, turns);
  }

  /** And caller 1 has started two. */
  lemma PausedStart() returns (turns: seq<Turn>, r: State)
    ensures Reaches(Initial(Config(3, 1, 1), 2), turns, r) && r.config == Config(3, 1, 1)
    ensures r.starters == [ReadDestroyed(0), Resting] && r.workers == [TakeId, TakeId]
    ensures r.counters.created == 3 && r.counters.runningId == 1 && !r.counters.drain
  {
    var s := Initial(Config(3, 1, 1), 2);
    turns, r := OnePaused();
    var turns2, r2 := StartAlone(r, 1, true);
    OneAfterOther(s, turns, r, turns2, r2);
    var turns3, r3 := StartAlone(r2, 1, true);
    OneAfterOther(s, turns + turns2, r2, turns3, r3);
    turns, r := turns + turns2 + turns3, r3;
  }

  /** Both workers have taken their ids, and the second is waiting for tasks. */
  lemma PausedWithWorkers() returns (turns: seq<Turn>, r: State)
    ensures Reaches(Initial(Config(3, 1, 1), 2), turns, r) && r.config == Config(3, 1, 1)
    ensures r.starters == [ReadDestroyed(0), Resting] && r.workers == [JoinActive(1), TryPop(2, false)]
    ensures r.counters.created == 3
  {
    var s := Initial(Config(3, 1, 1), 2);
    var turns1, r1 := PausedStart();
    Further(s, turns1, r1, Serve(0, false, 0));
    var r2 := Next(r1, Serve(0, false, 0));
    assert r2.workers == [JoinActive(1), TakeId] && r2.counters.runningId == 2;
    Further(s, turns1 + [Serve(0, false, 0)], r2, Serve(1, false, 0));
    var r3 := Next(r2, Serve(1, false, 0));
    assert r3.workers == [JoinActive(1), JoinActive(2)];
    Further(s, turns1 + [Serve(0, false, 0)] + [Serve(1, false, 0)], r3, Serve(1, false, 0));
    var r4 := Next(r3, Serve(1, false, 0));
    assert r4.workers == [JoinActive(1), JoinIdle(2)];
    Further(s, turns1 + [Serve(0, false, 0)] + [Serve(1, false, 0)] + [Serve(1, false, 0)], r4, Serve(1, false, 0));
    r := Next(r4, Serve(1, false, 0));
    turns := turns1 + [Serve(0, false, 0)] + [Serve(1, false, 0)] + [Serve(1, false, 0)] + [Serve(1, false, 0)];
  }

  /**
  If another thread is started and destroyed between a caller's counting and its reading,
  the difference wraps round: with a cap of three and one worker left, the start is turned
  away all the same.
  */
  lemma TurnedAwayWithRoom() returns (turns: seq<Turn>, r: State)
    ensures Reaches(Initial(Config(3, 1, 1), 2), turns, r)
    ensures |r.starters| > 0 && r.starters[0] == RollBack && r.config.maxThreads == 3 && r.workers == [JoinActive(1), Gone]
  {
    var s := Initial(Config(3, 1, 1), 2);
    var turns1, r1 := PausedWithWorkers();
    var turns2, r2 := LeavesAlone(r1, 1, 1, true);
    OneAfterOther(s, turns1, r1, turns2, r2);
    OneGone(s, turns1 + turns2, r2);
    var t := Start(0, true);
    Further(s, turns1 + turns2, r2, t);
    var r3 := Next(r2, t);
    assert r3.starters[0] == Compare(TWO64 - 1);
    Further(s, turns1 + turns2 + [t], r3, t);
    turns, r := turns1 + turns2 + [t] + [t], Next(r3, t);
  }

  lemma OneGone(s: State, turns: seq<Turn>, r: State)
    requires s == Initial(Config(3, 1, 1), 2) && Reaches(s, turns, r) && r.workers == [JoinActive(1), Gone]
    ensures r.counters.destroyed == 1
  {
    InitiallyOk(Config(3, 1, 1), 2);
    RunInv(s, turns);
    assert r.workers[1..] == [Gone] && r.workers[1..][1..] == [];
    assert Total([Gone], Live()) == 0;
  }
}
