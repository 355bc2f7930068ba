/**
The counters of the thread pool: callers that start threads reserve a place by fetch-and-add
and give it back if the pool is full, while workers come, work, and leave. Any number of
callers and workers take steps in any order; a step is one access to one counter.
*/
module ThreadPool {
  import opened MachineWords
  import opened Counting

  datatype Config = Config(maxThreads: Word, minThreads: Word, idleTimeout: Word)

  datatype Counters = Counters(
    created: Word,
    destroyed: Word,
    active: Word,
    idle: Word,
    runningId: Word,
    drain: bool)

  /** The settings that a pool runs with, given those asked for. */
  function Settled(config: Config): (c: Config)
    ensures c.minThreads > 0 && (c.maxThreads == 0 || c.maxThreads >= c.minThreads)
    ensures c.minThreads == (if config.minThreads == 0 then 1 else config.minThreads)
    ensures c.idleTimeout == config.idleTimeout
    ensures c.maxThreads != config.maxThreads ==> 0 < config.maxThreads < c.maxThreads == c.minThreads
  {
    var low := if config.minThreads == 0 then 1 else config.minThreads;
    var high := if config.maxThreads != 0 && config.maxThreads < low then low else config.maxThreads;
    config.(minThreads := low, maxThreads := high)
  }

  /** What fetch-and-add leaves in a counter. */
  function Add(n: Word, d: int): Word {
    Wrap64(n + d)
  }

  // A caller that starts a thread

  /**
  The order in which the count of destroyed threads is read and the count of created ones
  raised is left to the compiler, so both orders are there.
  */
  datatype Starter =
    | Resting
    | SeeDrain
    | CountFirst
    | ReadDestroyed(before: Word)
    | ReadFirst
    | CountLast(destroyed: Word)
    | Compare(active: Word)
    | RollBack
    | Spawn

  function StarterAct(config: Config, c: Counters, p: Starter, countFirst: bool): (Counters, Starter) {
    match p
    case Resting => (c, SeeDrain)
    case SeeDrain => (c, if c.drain then Resting else if countFirst then CountFirst else ReadFirst)
    case CountFirst => (c.(created := Add(c.created, 1)), ReadDestroyed(c.created))
    case ReadDestroyed(before) => (c, Compare(Minus(before, c.destroyed)))
    case ReadFirst => (c, CountLast(c.destroyed))
    case CountLast(d) => (c.(created := Add(c.created, 1)), Compare(Minus(c.created, d)))
    case Compare(a) => (c, if config.maxThreads > 0 && a >= config.maxThreads then RollBack else Spawn)
    case RollBack => (c.(created := Add(c.created, -1)), Resting)
    case Spawn => (c, Resting)
  }

  // A worker

  datatype Worker =
    | TakeId
    | JoinActive(id: Word)
    | JoinIdle(id: Word)
    | TryPop(id: Word, busy: bool)
    | LeaveForTask(id: Word)
    | Work(id: Word)
    | BackToIdle(id: Word)
    | CheckDrain(id: Word)
    | Consider(id: Word)
    | LeaveIdle(id: Word)
    | LeaveActive(id: Word)
    | Retire(id: Word)
    | Gone

  /** Whether a worker that has been idle for `elapsed` gives up. */
  predicate ShouldStop(config: Config, id: Word, elapsed: Word) {
    if config.idleTimeout == 0 || elapsed < config.idleTimeout then false
    else if id <= config.minThreads then false
    else true
  }

  /** `found` tells whether the task queue had a task, `elapsed` how long the worker has been idle. */
  function WorkerAct(config: Config, c: Counters, p: Worker, found: bool, elapsed: Word): (Counters, Worker) {
    match p
    case TakeId => (c.(runningId := Add(c.runningId, 1)), JoinActive(c.runningId))
    case JoinActive(id) => (c.(active := Add(c.active, 1)), JoinIdle(id))
    case JoinIdle(id) => (c.(idle := Add(c.idle, 1)), TryPop(id, false))
    case TryPop(id, busy) =>
      (c, if found then (if busy then Work(id) else LeaveForTask(id))
          else if busy then BackToIdle(id) else CheckDrain(id))
    case LeaveForTask(id) => (c.(idle := Add(c.idle, -1)), Work(id))
    case Work(id) => (c, TryPop(id, true))
    case BackToIdle(id) => (c.(idle := Add(c.idle, 1)), CheckDrain(id))
    case CheckDrain(id) => (c, if c.drain then LeaveIdle(id) else Consider(id))
    case Consider(id) => (c, if ShouldStop(config, id, elapsed) then LeaveIdle(id) else TryPop(id, false))
    case LeaveIdle(id) => (c.(idle := Add(c.idle, -1)), LeaveActive(id))
    case LeaveActive(id) => (c.(active := Add(c.active, -1)), Retire(id))
    case Retire(_) => (c.(destroyed := Add(c.destroyed, 1)), Gone)
    case Gone => (c, p)
  }

  class LamThreadPool {
    const config: Config
    var threadsCreated: Word
    var threadsDestroyed: Word
    var activeThreadCount: Word
    var idleThreadCount: Word
    var runningId: Word
    var drainSignal: bool

    ghost function Shared(): Counters
      reads this
    {
      Counters(threadsCreated, threadsDestroyed, activeThreadCount, idleThreadCount, runningId, drainSignal)
    }

    constructor (config: Config)
      ensures this.config == Settled(config) && Shared() == Counters(0, 0, 0, 0, 1, false)
    {
      this.config := Settled(config);
      threadsCreated, threadsDestroyed := 0, 0;
      activeThreadCount, idleThreadCount := 0, 0;
      runningId := 1;
      drainSignal := false;
    }

    method StarterStep(p: Starter, countFirst: bool) returns (p': Starter)
      modifies this
      ensures (Shared(), p') == StarterAct(config, old(Shared()), p, countFirst)
    {
      match p {
        case Resting =>
          p' := SeeDrain;
        case SeeDrain =>
          p' := if drainSignal then Resting else if countFirst then CountFirst else ReadFirst;
        case CountFirst =>
          p' := ReadDestroyed(threadsCreated);
          threadsCreated := Add(threadsCreated, 1);
        case ReadDestroyed(before) =>
          p' := Compare(Minus(before, threadsDestroyed));
        case ReadFirst =>
          p' := CountLast(threadsDestroyed);
        case CountLast(d) =>
          p' := Compare(Minus(threadsCreated, d));
          threadsCreated := Add(threadsCreated, 1);
        case Compare(a) =>
          p' := if config.maxThreads > 0 && a >= config.maxThreads then RollBack else Spawn;
        case RollBack =>
          threadsCreated := Add(threadsCreated, -1);
          p' := Resting;
        case Spawn =>
          p' := Resting;
      }
    }

    method WorkerStep(p: Worker, found: bool, elapsed: Word) returns (p': Worker)
      modifies this
      ensures (Shared(), p') == WorkerAct(config, old(Shared()), p, found, elapsed)
    {
      match p {
        case TakeId =>
          p' := JoinActive(runningId);
          runningId := Add(runningId, 1);
        case JoinActive(id) =>
          activeThreadCount := Add(activeThreadCount, 1);
          p' := JoinIdle(id);
        case JoinIdle(id) =>
          idleThreadCount := Add(idleThreadCount, 1);
          p' := TryPop(id, false);
        case TryPop(id, busy) =>
          if found {
            p' := if busy then Work(id) else LeaveForTask(id);
          } else {
            p' := if busy then BackToIdle(id) else CheckDrain(id);
          }
        case LeaveForTask(id) =>
          idleThreadCount := Add(idleThreadCount, -1);
          p' := Work(id);
        case Work(id) =>
          p' := TryPop(id, true);
        case BackToIdle(id) =>
          idleThreadCount := Add(idleThreadCount, 1);
          p' := CheckDrain(id);
        case CheckDrain(id) =>
          p' := if drainSignal then LeaveIdle(id) else Consider(id);
        case Consider(id) =>
          p' := if ShouldStop(config, id, elapsed) then LeaveIdle(id) else TryPop(id, false);
        case LeaveIdle(id) =>
          idleThreadCount := Add(idleThreadCount, -1);
          p' := LeaveActive(id);
        case LeaveActive(id) =>
          activeThreadCount := Add(activeThreadCount, -1);
          p' := Retire(id);
        case Retire(_) =>
          threadsDestroyed := Add(threadsDestroyed, 1);
          p' := Gone;
        case Gone =>
          p' := p;
      }
    }
  }

  // Callers and workers together

  /** Who keeps a place in the count of created threads. */
  datatype Holder = ByStarter(i: nat) | ByWorker(j: nat)

  /**
  `places` lists the holders of places in the order in which they took them, `ids` the
  workers in the order in which they took an id.
  */
  datatype State = State(
    config: Config,
    counters: Counters,
    starters: seq<Starter>,
    workers: seq<Worker>,
    places: seq<Holder>,
    ids: seq<nat>)

  datatype Turn =
    | Start(i: nat, countFirst: bool)
    | Serve(j: nat, found: bool, elapsed: Word)
    | Drain

  ghost function Initial(config: Config, n: nat): State {
    State(Settled(config), Counters(0, 0, 0, 0, 1, false), seq(n, _ => Resting), [], [], [])
  }

  ghost predicate Can(s: State, t: Turn) {
    match t
    case Start(i, _) => i < |s.starters|
    case Serve(j, _, _) => j < |s.workers|
    case Drain => true
  }

  ghost function Place(places: seq<Holder>, h: Holder): (k: nat)
    requires h in places
    ensures k < |places| && places[k] == h
  {
    if places[0] == h then 0 else 1 + Place(places[1..], h)
  }

  /** The places once `h` has given up its own. */
  ghost function Vacated(places: seq<Holder>, h: Holder): seq<Holder> {
    if h in places then var k := Place(places, h); places[..k] + places[k + 1..] else places
  }

  /** The places once `h'` has taken over that of `h`. */
  ghost function Handed(places: seq<Holder>, h: Holder, h': Holder): seq<Holder> {
    if h in places then places[Place(places, h) := h'] else places
  }

  ghost function Next(s: State, t: Turn): State
    requires Can(s, t)
  {
    match t
    case Drain => s.(counters := s.counters.(drain := true))
    case Serve(j, found, elapsed) =>
      var p, (c, p') := s.workers[j], WorkerAct(s.config, s.counters, s.workers[j], found, elapsed);
      var s' := s.(counters := c, workers := s.workers[j := p']);
      if p.TakeId? then s'.(ids := s.ids + [j])
      else if p.Retire? then s'.(places := Vacated(s.places, ByWorker(j)))
      else s'
    case Start(i, countFirst) =>
      var p, (c, p') := s.starters[i], StarterAct(s.config, s.counters, s.starters[i], countFirst);
      var s' := s.(counters := c, starters := s.starters[i := p']);
      if p.CountFirst? || p.CountLast? then s'.(places := s.places + [ByStarter(i)])
      else if p.RollBack? then s'.(places := Vacated(s.places, ByStarter(i)))
      else if p.Spawn? then
        s'.(workers := s.workers + [TakeId], places := Handed(s.places, ByStarter(i), ByWorker(|s.workers|)))
      else s'
  }

  // What holds in every reachable state

  ghost function Reserves(): Starter -> int {
    (p: Starter) => if p.ReadDestroyed? || p.Compare? || p.RollBack? || p.Spawn? then 1 else 0
  }

  ghost function Live(): Worker -> int {
    (p: Worker) => if p.Gone? then 0 else 1
  }

  ghost function InActive(): Worker -> int {
    (p: Worker) => if p.TakeId? || p.JoinActive? || p.Retire? || p.Gone? then 0 else 1
  }

  ghost function InIdle(): Worker -> int {
    (p: Worker) =>
      if p.LeaveForTask? || p.CheckDrain? || p.Consider? || p.LeaveIdle? || (p.TryPop? && !p.busy) then 1 else 0
  }

  ghost function WorkersIn(places: seq<Holder>): nat {
    if places == [] then 0 else WorkersIn(places[1..]) + if places[0].ByWorker? then 1 else 0
  }

  ghost predicate Counted(s: State) {
    var c := s.counters;
    && |s.places| == c.created - c.destroyed
    && c.created == |s.workers| + Total(s.starters, Reserves())
    && c.destroyed == |s.workers| - Total(s.workers, Live())
    && WorkersIn(s.places) == Total(s.workers, Live())
    && c.active == Total(s.workers, InActive())
    && c.idle == Total(s.workers, InIdle())
  }

  /** Position `k` is under the cap, if there is one. */
  ghost predicate Under(config: Config, k: int) {
    config.maxThreads == 0 || k < config.maxThreads
  }

  /**
  What the holder of place `k` has seen, or will see, is no less than `k` unless the
  place is under the cap; a thread that has been started always has such a place.
  */
  ghost predicate PlaceOk(s: State, k: nat)
    requires k < |s.places|
  {
    match s.places[k]
    case ByWorker(j) => j < |s.workers| && !s.workers[j].Gone? && Under(s.config, k)
    case ByStarter(i) =>
      && i < |s.starters|
      && match s.starters[i]
         case ReadDestroyed(before) => Under(s.config, k) || before - s.counters.destroyed >= k
         case Compare(a) => Under(s.config, k) || a >= k
         case RollBack => true
         case Spawn => Under(s.config, k)
         case _ => false
  }

  ghost predicate NoRepeats(places: seq<Holder>) {
    forall a, b :: 0 <= a < b < |places| ==> places[a] != places[b]
  }

  ghost predicate Placed(s: State) {
    && NoRepeats(s.places)
    && (forall k :: 0 <= k < |s.places| ==> PlaceOk(s, k))
    && (forall i :: 0 <= i < |s.starters| && Reserves()(s.starters[i]) == 1 ==> ByStarter(i) in s.places)
    && (forall j :: 0 <= j < |s.workers| && !s.workers[j].Gone? ==> ByWorker(j) in s.places)
    && (forall i :: 0 <= i < |s.starters| && s.starters[i].CountLast? ==>
          s.starters[i].destroyed <= s.counters.destroyed)
  }

  /** The count of created threads has not run through all 64 bits. */
  ghost predicate Roomy(s: State, t: Turn)
    requires Can(s, t)
  {
    t.Start? && (s.starters[t.i].CountFirst? || s.starters[t.i].CountLast?) ==> s.counters.created + 1 < TWO64
  }

  // Places

  lemma VacatedIs(places: seq<Holder>, h: Holder) returns (q: nat)
    requires NoRepeats(places) && h in places
    ensures q < |places| && places[q] == h && Vacated(places, h) == places[..q] + places[q + 1..]
    ensures NoRepeats(Vacated(places, h))
    ensures forall x :: x in places && x != h ==> x in Vacated(places, h)
  {
    q := Place(places, h);
    CutNoRepeats(places, q);
    forall x | x in places && x != h ensures x in Vacated(places, h) {
      var k :| 0 <= k < |places| && places[k] == x;
      assert Vacated(places, h)[if k < q then k else k - 1] == x;
    }
  }

  lemma CutNoRepeats(places: seq<Holder>, q: nat)
    requires NoRepeats(places) && q < |places|
    ensures NoRepeats(places[..q] + places[q + 1..])
  {
    var v := places[..q] + places[q + 1..];
    forall a, b | 0 <= a < b < |v| ensures v[a] != v[b] {
      assert v[a] == places[if a < q then a else a + 1] && v[b] == places[if b < q then b else b + 1];
    }
  }

  lemma {:induction false} WorkersInJoin(a: seq<Holder>, b: seq<Holder>)
    ensures WorkersIn(a + b) == WorkersIn(a) + WorkersIn(b)
  {
    if a == [] {
      assert a + b == b;
    } else {
      assert (a + b)[0] == a[0] && (a + b)[1..] == a[1..] + b;
      WorkersInJoin(a[1..], b);
    }
  }

  lemma WorkersInOne(h: Holder)
    ensures WorkersIn([h]) == if h.ByWorker? then 1 else 0
  {
    assert [h][1..] == [];
  }

  lemma WorkersInUpdate(places: seq<Holder>, k: nat, h: Holder)
    requires k < |places|
    ensures WorkersIn(places[k := h])
         == WorkersIn(places) - (if places[k].ByWorker? then 1 else 0) + (if h.ByWorker? then 1 else 0)
    ensures WorkersIn(places[..k] + places[k + 1..]) == WorkersIn(places) - if places[k].ByWorker? then 1 else 0
  {
    assert places == places[..k] + ([places[k]] + places[k + 1..]);
    assert places[k := h] == places[..k] + ([h] + places[k + 1..]);
    WorkersInJoin(places[..k], [places[k]] + places[k + 1..]);
    WorkersInJoin(places[..k], [h] + places[k + 1..]);
    WorkersInJoin(places[..k], places[k + 1..]);
    WorkersInJoin([places[k]], places[k + 1..]);
    WorkersInJoin([h], places[k + 1..]);
    WorkersInOne(places[k]);
    WorkersInOne(h);
  }

  /** Threads whose places are all below `n` are no more than `n`. */
  lemma {:induction false} WorkersBelow(places: seq<Holder>, n: nat)
    requires forall k :: n <= k < |places| ==> !places[k].ByWorker?
    ensures WorkersIn(places) <= n
    decreases |places|
  {
    if places != [] {
      forall k | (if n == 0 then 0 else n - 1) <= k < |places[1..]| ensures !places[1..][k].ByWorker? {
        assert places[1..][k] == places[k + 1];
      }
      if n == 0 {
        WorkersBelow(places[1..], 0);
      } else {
        WorkersBelow(places[1..], n - 1);
      }
    }
  }

  // Every step keeps it

  lemma InitiallyOk(config: Config, n: nat)
    ensures Counted(Initial(config, n)) && Placed(Initial(config, n))
  {
    TotalNone(Initial(config, n).starters, Reserves());
  }

  /** No counter is taken below zero or past its width. */
  lemma CountersFit(s: State)
    requires Counted(s) && Placed(s)
    ensures 0 <= Total(s.workers, InIdle()) <= Total(s.workers, InActive()) <= Total(s.workers, Live()) <= |s.workers|
    ensures |s.workers| <= s.counters.created
  {
    TotalCovers(s.workers, InIdle());
    TotalOrder(s.workers, InIdle(), InActive());
    TotalOrder(s.workers, InActive(), Live());
    TotalAtMost(s.workers, Live());
    TotalCovers(s.starters, Reserves());
  }

  /** How a worker's step moves the three counters that workers share. */
  lemma WorkerFollows(config: Config, c: Counters, p: Worker, found: bool, elapsed: Word)
    ensures var (c', p') := WorkerAct(config, c, p, found, elapsed);
      && c'.active == Add(c.active, InActive()(p') - InActive()(p))
      && c'.idle == Add(c.idle, InIdle()(p') - InIdle()(p))
      && c'.destroyed == Add(c.destroyed, Live()(p) - Live()(p'))
      && c'.created == c.created && c'.drain == c.drain
      && (p'.Gone? <==> p.Retire? || p.Gone?)
  {
  }

  lemma ServeCounts(s: State, j: nat, found: bool, elapsed: Word)
    requires Counted(s) && Placed(s) && j < |s.workers|
    ensures Counted(Next(s, Serve(j, found, elapsed)))
  {
    var s' := Next(s, Serve(j, found, elapsed));
    WorkerFollows(s.config, s.counters, s.workers[j], found, elapsed);
    ServeTotals(s, j, s'.workers[j]);
    ServePlaces(s, j, found, elapsed);
  }

  /** The three sums over workers and the three words for them move together. */
  lemma ServeTotals(s: State, j: nat, p': Worker)
    requires Counted(s) && Placed(s) && j < |s.workers|
    ensures var p, workers, c := s.workers[j], s.workers[j := p'], s.counters;
      && Add(c.active, InActive()(p') - InActive()(p)) == Total(workers, InActive())
      && Add(c.idle, InIdle()(p') - InIdle()(p)) == Total(workers, InIdle())
      && Add(c.destroyed, Live()(p) - Live()(p')) == |workers| - Total(workers, Live())
  {
    TotalUpdate(s.workers, j, p', Live());
    TotalUpdate(s.workers, j, p', InActive());
    TotalUpdate(s.workers, j, p', InIdle());
    CountersFit(s);
    NewTotalsFit(s.workers[j := p']);
    Fits(s.counters.active, InActive()(p') - InActive()(s.workers[j]));
    Fits(s.counters.idle, InIdle()(p') - InIdle()(s.workers[j]));
    Fits(s.counters.destroyed, Live()(s.workers[j]) - Live()(p'));
  }

  lemma Fits(n: Word, d: int)
    ensures 0 <= n + d < TWO64 ==> Add(n, d) == n + d
  {
  }

  lemma ServePlaces(s: State, j: nat, found: bool, elapsed: Word)
    requires Counted(s) && Placed(s) && j < |s.workers|
    ensures var s' := Next(s, Serve(j, found, elapsed));
      && |s'.places| == |s.places| - (if s.workers[j].Retire? then 1 else 0)
      && WorkersIn(s'.places) == WorkersIn(s.places) - (if s.workers[j].Retire? then 1 else 0)
      && Total(s'.workers, Live()) == Total(s.workers, Live()) - (if s.workers[j].Retire? then 1 else 0)
  {
    var p' := WorkerAct(s.config, s.counters, s.workers[j], found, elapsed).1;
    assert Next(s, Serve(j, found, elapsed)).workers == s.workers[j := p'];
    WorkerFollows(s.config, s.counters, s.workers[j], found, elapsed);
    TotalUpdate(s.workers, j, p', Live());
    if s.workers[j].Retire? {
      RetirePlaces(s, j);
    }
  }

  lemma RetirePlaces(s: State, j: nat)
    requires Placed(s) && j < |s.workers| && s.workers[j].Retire?
    ensures var v := Vacated(s.places, ByWorker(j));
      |v| == |s.places| - 1 && WorkersIn(v) == WorkersIn(s.places) - 1
  {
    var q := VacatedIs(s.places, ByWorker(j));
    WorkersInUpdate(s.places, q, ByWorker(j));
  }

  lemma NewTotalsFit(workers: seq<Worker>)
    ensures 0 <= Total(workers, InIdle()) <= Total(workers, InActive()) <= Total(workers, Live()) <= |workers|
  {
    TotalCovers(workers, InIdle());
    TotalOrder(workers, InIdle(), InActive());
    TotalOrder(workers, InActive(), Live());
    TotalAtMost(workers, Live());
  }

  lemma ServePlaced(s: State, j: nat, found: bool, elapsed: Word)
    requires Counted(s) && Placed(s) && j < |s.workers|
    ensures Placed(Next(s, Serve(j, found, elapsed)))
  {
    if s.workers[j].Retire? {
      CountersFit(s);
      RetireNext(s, j, found, elapsed);
      RetirePlaced(s, j, Next(s, Serve(j, found, elapsed)));
    } else {
      StayNext(s, j, found, elapsed);
      StayPlaced(s, j, Next(s, Serve(j, found, elapsed)));
    }
  }

  lemma RetireNext(s: State, j: nat, found: bool, elapsed: Word)
    requires j < |s.workers| && s.workers[j].Retire? && s.counters.destroyed + 1 < TWO64
    ensures Next(s, Serve(j, found, elapsed))
      == s.(counters := s.counters.(destroyed := s.counters.destroyed + 1), workers := s.workers[j := Gone],
            places := Vacated(s.places, ByWorker(j)))
  {
  }

  lemma StayNext(s: State, j: nat, found: bool, elapsed: Word)
    requires j < |s.workers| && !s.workers[j].Retire?
    ensures var s' := Next(s, Serve(j, found, elapsed));
      && s'.places == s.places && s'.starters == s.starters && s'.config == s.config
      && s'.counters.destroyed == s.counters.destroyed
      && |s'.workers| == |s.workers| && s'.workers == s.workers[j := s'.workers[j]]
      && (s'.workers[j].Gone? <==> s.workers[j].Gone?)
  {
  }

  lemma StayPlaced(s: State, j: nat, s': State)
    requires Placed(s) && j < |s.workers| && |s'.workers| == |s.workers| && s'.places == s.places
    requires s'.starters == s.starters && s'.config == s.config && s'.counters.destroyed == s.counters.destroyed
    requires s'.workers[j].Gone? <==> s.workers[j].Gone?
    requires s'.workers == s.workers[j := s'.workers[j]]
    ensures Placed(s')
  {
    forall k | 0 <= k < |s'.places| ensures PlaceOk(s', k) {
      assert PlaceOk(s, k);
    }
  }

  lemma RetirePlaced(s: State, j: nat, s': State)
    requires Placed(s) && j < |s.workers| && s.workers[j].Retire? && s.counters.destroyed + 1 < TWO64
    requires s' == s.(counters := s.counters.(destroyed := s.counters.destroyed + 1), workers := s.workers[j := Gone],
                      places := Vacated(s.places, ByWorker(j)))
    ensures Placed(s')
  {
    var q := VacatedIs(s.places, ByWorker(j));
    assert PlaceOk(s, q);
    forall k | 0 <= k < |s'.places| ensures PlaceOk(s', k) {
      var from := if k < q then k else k + 1;
      assert s'.places[k] == s.places[from] && s.places[from] != ByWorker(j);
      assert PlaceOk(s, from);
    }
  }

  lemma StartCounts(s: State, i: nat, countFirst: bool)
    requires Counted(s) && Placed(s) && i < |s.starters| && Roomy(s, Start(i, countFirst))
    ensures Counted(Next(s, Start(i, countFirst)))
  {
    var p := s.starters[i];
    if p.CountFirst? || p.CountLast? {
      ReserveCounted(s, i, countFirst);
    } else if p.RollBack? {
      RollBackCounted(s, i, countFirst);
    } else if p.Spawn? {
      SpawnCounted(s, i, countFirst);
    } else {
      CompareCounted(s, i, countFirst);
    }
  }

  lemma ReserveCounted(s: State, i: nat, countFirst: bool)
    requires Counted(s) && i < |s.starters| && Roomy(s, Start(i, countFirst))
    requires s.starters[i].CountFirst? || s.starters[i].CountLast?
    ensures Counted(Next(s, Start(i, countFirst)))
  {
    TotalUpdate(s.starters, i, Next(s, Start(i, countFirst)).starters[i], Reserves());
    Fits(s.counters.created, 1);
    AppendPlace(s.places, ByStarter(i));
  }

  lemma RollBackCounted(s: State, i: nat, countFirst: bool)
    requires Counted(s) && Placed(s) && i < |s.starters| && s.starters[i].RollBack?
    ensures Counted(Next(s, Start(i, countFirst)))
  {
    TotalUpdate(s.starters, i, Next(s, Start(i, countFirst)).starters[i], Reserves());
    RollBackCounts(s, i);
  }

  lemma SpawnCounted(s: State, i: nat, countFirst: bool)
    requires Counted(s) && Placed(s) && i < |s.starters| && s.starters[i].Spawn?
    ensures Counted(Next(s, Start(i, countFirst)))
  {
    TotalUpdate(s.starters, i, Next(s, Start(i, countFirst)).starters[i], Reserves());
    SpawnCounts(s, i);
  }

  /** Steps that only read and compare. */
  lemma CompareCounted(s: State, i: nat, countFirst: bool)
    requires Counted(s) && i < |s.starters|
    requires var p := s.starters[i]; !p.CountFirst? && !p.CountLast? && !p.RollBack? && !p.Spawn?
    ensures Counted(Next(s, Start(i, countFirst)))
  {
    TotalUpdate(s.starters, i, Next(s, Start(i, countFirst)).starters[i], Reserves());
  }

  lemma RollBackCounts(s: State, i: nat)
    requires Counted(s) && Placed(s) && i < |s.starters| && s.starters[i].RollBack?
    ensures Add(s.counters.created, -1) == s.counters.created - 1
    ensures var v := Vacated(s.places, ByStarter(i));
      |v| == |s.places| - 1 && WorkersIn(v) == WorkersIn(s.places)
  {
    TotalCovers(s.starters, Reserves());
    Fits(s.counters.created, -1);
    var q := VacatedIs(s.places, ByStarter(i));
    WorkersInUpdate(s.places, q, ByStarter(i));
  }

  lemma SpawnCounts(s: State, i: nat)
    requires Placed(s) && i < |s.starters| && s.starters[i].Spawn?
    ensures var workers, places := s.workers + [TakeId], Handed(s.places, ByStarter(i), ByWorker(|s.workers|));
      && |places| == |s.places| && WorkersIn(places) == WorkersIn(s.places) + 1
      && Total(workers, Live()) == Total(s.workers, Live()) + 1
      && Total(workers, InActive()) == Total(s.workers, InActive())
      && Total(workers, InIdle()) == Total(s.workers, InIdle())
  {
    var q := Place(s.places, ByStarter(i));
    WorkersInUpdate(s.places, q, ByWorker(|s.workers|));
    TotalAppend(s.workers, TakeId, Live());
    TotalAppend(s.workers, TakeId, InActive());
    TotalAppend(s.workers, TakeId, InIdle());
  }

  lemma AppendPlace(places: seq<Holder>, h: Holder)
    requires h.ByStarter?
    ensures WorkersIn(places + [h]) == WorkersIn(places)
  {
    WorkersInJoin(places, [h]);
    WorkersInOne(h);
  }

  lemma StartPlaced(s: State, i: nat, countFirst: bool)
    requires Counted(s) && Placed(s) && i < |s.starters| && Roomy(s, Start(i, countFirst))
    ensures Placed(Next(s, Start(i, countFirst)))
  {
    var p, s' := s.starters[i], Next(s, Start(i, countFirst));
    Fits(s.counters.created, 1);
    match p
    case CountFirst => ReservePlaced(s, i, s');
    case CountLast(_) => ReservePlaced(s, i, s');
    case RollBack => RollBackPlaced(s, i, s');
    case Spawn => SpawnPlaced(s, i, s');
    case _ => ComparePlaced(s, i, s');
  }

  /** Neither reading a counter nor comparing it costs a place its standing. */
  lemma ComparePlaced(s: State, i: nat, s': State)
    requires Placed(s) && i < |s.starters|
    requires s.starters[i].Resting? || s.starters[i].SeeDrain? || s.starters[i].ReadDestroyed?
      || s.starters[i].ReadFirst? || s.starters[i].Compare?
    requires exists countFirst :: s' == Next(s, Start(i, countFirst))
    ensures Placed(s')
  {
    forall k | 0 <= k < |s'.places| ensures PlaceOk(s', k) {
      assert PlaceOk(s, k);
    }
  }

  lemma ReservePlaced(s: State, i: nat, s': State)
    requires Counted(s) && Placed(s) && i < |s.starters| && (s.starters[i].CountFirst? || s.starters[i].CountLast?)
    requires s.counters.created + 1 < TWO64
    requires s'.config == s.config && s'.workers == s.workers && s'.places == s.places + [ByStarter(i)]
    requires s'.counters == s.counters.(created := s.counters.created + 1)
    requires s'.starters == s.starters[i := if s.starters[i].CountFirst? then ReadDestroyed(s.counters.created)
                                            else Compare(Minus(s.counters.created, s.starters[i].destroyed))]
    ensures Placed(s')
  {
    forall k | 0 <= k < |s.places| ensures s.places[k] != ByStarter(i) {
      assert PlaceOk(s, k);
    }
    forall k | 0 <= k < |s'.places| ensures PlaceOk(s', k) {
      if k < |s.places| {
        assert PlaceOk(s, k);
      }
    }
  }

  lemma RollBackPlaced(s: State, i: nat, s': State)
    requires Placed(s) && i < |s.starters| && s.starters[i].RollBack?
    requires s'.config == s.config && s'.workers == s.workers && s'.counters.destroyed == s.counters.destroyed
    requires s'.places == Vacated(s.places, ByStarter(i)) && s'.starters == s.starters[i := Resting]
    ensures Placed(s')
  {
    var q := VacatedIs(s.places, ByStarter(i));
    forall k | 0 <= k < |s'.places| ensures PlaceOk(s', k) {
      var from := if k < q then k else k + 1;
      assert s'.places[k] == s.places[from] && s.places[from] != ByStarter(i);
      assert PlaceOk(s, from);
    }
  }

  lemma SpawnPlaced(s: State, i: nat, s': State)
    requires Placed(s) && i < |s.starters| && s.starters[i].Spawn?
    requires s'.config == s.config && s'.counters == s.counters && s'.workers == s.workers + [TakeId]
    requires s'.places == Handed(s.places, ByStarter(i), ByWorker(|s.workers|)) && s'.starters == s.starters[i := Resting]
    ensures Placed(s')
  {
    var q := Place(s.places, ByStarter(i));
    forall k | 0 <= k < |s.places| && k != q ensures s.places[k] != ByStarter(i) && s.places[k] != ByWorker(|s.workers|) {
      assert PlaceOk(s, k);
    }
    forall k | 0 <= k < |s'.places| ensures PlaceOk(s', k) {
      assert PlaceOk(s, k);
    }
    forall x | x in s.places && x != ByStarter(i) ensures x in s'.places {
      var k :| 0 <= k < |s.places| && s.places[k] == x;
      assert s'.places[k] == x;
    }
    assert s'.places[q] == ByWorker(|s.workers|);
  }

  // Worker ids

  ghost predicate Leaving(p: Worker) {
    p.LeaveIdle? || p.LeaveActive? || p.Retire? || p.Gone?
  }

  /** The worker in place `k` of the order of ids holds id `k + 1`, and stays if ids that low must. */
  ghost predicate IdOk(s: State, k: nat)
    requires k < |s.ids|
  {
    && s.ids[k] < |s.workers|
    && var p := s.workers[s.ids[k]];
       && !p.TakeId?
       && (!p.Gone? ==> p.id == (k + 1) % TWO64)
       && (!s.counters.drain && k + 1 <= s.config.minThreads ==> !Leaving(p))
  }

  ghost predicate Numbered(s: State) {
    && s.counters.runningId == (|s.ids| + 1) % TWO64
    && (forall k :: 0 <= k < |s.ids| ==> IdOk(s, k))
    && (forall a, b :: 0 <= a < b < |s.ids| ==> s.ids[a] != s.ids[b])
  }

  lemma ServeNumbered(s: State, j: nat, found: bool, elapsed: Word)
    requires Numbered(s) && j < |s.workers|
    ensures Numbered(Next(s, Serve(j, found, elapsed)))
  {
    var p, s' := s.workers[j], Next(s, Serve(j, found, elapsed));
    if p.TakeId? {
      forall k | 0 <= k < |s.ids| ensures s.ids[k] != j && IdOk(s', k) {
        assert IdOk(s, k);
      }
      Wrap64Step(|s.ids| + 1, 1);
      assert IdOk(s', |s.ids|);
    } else {
      assert s'.ids == s.ids;
      forall k | 0 <= k < |s.ids| ensures IdOk(s', k) {
        assert IdOk(s, k);
        if s.ids[k] == j {
          LowIdsStay(s, k, found, elapsed);
        }
      }
    }
  }

  /** Before the drain, a worker with one of the lowest ids does not time out. */
  lemma LowIdsStay(s: State, k: nat, found: bool, elapsed: Word)
    requires k < |s.ids| && IdOk(s, k)
    ensures IdOk(Next(s, Serve(s.ids[k], found, elapsed)), k)
  {
    if k + 1 <= s.config.minThreads {
      assert (k + 1) % TWO64 == k + 1;
    }
  }

  lemma StartNumbered(s: State, i: nat, countFirst: bool)
    requires Numbered(s) && i < |s.starters|
    ensures Numbered(Next(s, Start(i, countFirst)))
  {
    var s' := Next(s, Start(i, countFirst));
    forall k | 0 <= k < |s.ids| ensures IdOk(s', k) {
      assert IdOk(s, k);
    }
  }

  // Whole runs

  ghost predicate Inv(s: State) {
    Counted(s) && Placed(s) && Numbered(s)
  }

  lemma NextInv(s: State, t: Turn)
    requires Inv(s) && Can(s, t) && Roomy(s, t)
    ensures Inv(Next(s, t))
  {
    match t
    case Start(i, countFirst) =>
      StartCounts(s, i, countFirst);
      StartPlaced(s, i, countFirst);
      StartNumbered(s, i, countFirst);
    case Serve(j, found, elapsed) =>
      ServeCounts(s, j, found, elapsed);
      ServePlaced(s, j, found, elapsed);
      ServeNumbered(s, j, found, elapsed);
    case Drain => DrainInv(s);
  }

  lemma DrainInv(s: State)
    requires Inv(s)
    ensures Inv(Next(s, Drain))
  {
    var s' := Next(s, Drain);
    forall k | 0 <= k < |s.places| ensures PlaceOk(s', k) {
      assert PlaceOk(s, k);
    }
    forall k | 0 <= k < |s.ids| ensures IdOk(s', k) {
      assert IdOk(s, k);
    }
  }

  /** Each turn is possible, and the count of created threads has room for it. */
  ghost predicate CanRun(s: State, turns: seq<Turn>)
    decreases |turns|
  {
    turns != [] ==> Can(s, turns[0]) && Roomy(s, turns[0]) && CanRun(Next(s, turns[0]), turns[1..])
  }

  ghost function Run(s: State, turns: seq<Turn>): State
    requires CanRun(s, turns)
    decreases |turns|
  {
    if turns == [] then s else Run(Next(s, turns[0]), turns[1..])
  }

  lemma {:induction false} RunInv(s: State, turns: seq<Turn>)
    requires Inv(s) && CanRun(s, turns)
    ensures Inv(Run(s, turns)) && Run(s, turns).config == s.config
    decreases |turns|
  {
    if turns != [] {
      NextInv(s, turns[0]);
      RunInv(Next(s, turns[0]), turns[1..]);
    }
  }

  /** Never are more threads running than the cap allows, under any interleaving. */
  lemma CapHolds(config: Config, n: nat, turns: seq<Turn>)
    requires CanRun(Initial(config, n), turns)
    ensures var s := Run(Initial(config, n), turns);
      && s.counters.destroyed == |s.workers| - Total(s.workers, Live())
      && (config.maxThreads > 0 ==> |s.workers| - s.counters.destroyed <= Settled(config).maxThreads)
  {
    InitiallyOk(config, n);
    RunInv(Initial(config, n), turns);
    var s := Run(Initial(config, n), turns);
    if config.maxThreads > 0 {
      forall k | s.config.maxThreads <= k < |s.places| ensures !s.places[k].ByWorker? {
        assert PlaceOk(s, k);
      }
      WorkersBelow(s.places, s.config.maxThreads);
    }
  }

  /** The idle workers are some of the active ones, and no counter is taken down from zero. */
  lemma IdleWithinActive(s: State)
    requires Inv(s)
    ensures s.counters.idle <= s.counters.active <= |s.workers| - s.counters.destroyed
    ensures forall j :: 0 <= j < |s.workers| ==>
      && (s.workers[j].LeaveForTask? || s.workers[j].LeaveIdle? ==> s.counters.idle > 0)
      && (s.workers[j].LeaveActive? ==> s.counters.active > 0)
    ensures forall i :: 0 <= i < |s.starters| && s.starters[i].RollBack? ==> s.counters.created > 0
  {
    NewTotalsFit(s.workers);
    TotalCovers(s.workers, InIdle());
    TotalCovers(s.workers, InActive());
    TotalCovers(s.starters, Reserves());
  }

  ghost function Stays(): Worker -> int {
    (p: Worker) => if Leaving(p) then 0 else 1
  }

  /** Until the drain, at least the minimum of threads stays, once that many have come. */
  lemma MinimumStays(config: Config, n: nat, turns: seq<Turn>)
    requires CanRun(Initial(config, n), turns)
    ensures var s := Run(Initial(config, n), turns);
      !s.counters.drain ==> Total(s.workers, Stays()) >= Min(Settled(config).minThreads, |s.ids|)
  {
    InitiallyOk(config, n);
    RunInv(Initial(config, n), turns);
    var s := Run(Initial(config, n), turns);
    if !s.counters.drain {
      var low := s.ids[..Min(s.config.minThreads, |s.ids|)];
      forall k | 0 <= k < |low| ensures low[k] < |s.workers| && Stays()(s.workers[low[k]]) >= 1 {
        assert IdOk(s, k);
      }
      TotalOfSome(s.workers, Stays(), Gone, low);
    }
  }

  /** What the wait in destroy establishes at the moment at which it ends. */
  lemma NoneLeft(s: State)
    requires Inv(s) && s.counters.destroyed >= s.counters.created
    ensures forall j :: 0 <= j < |s.workers| ==> s.workers[j].Gone?
    ensures forall i :: 0 <= i < |s.starters| ==> Reserves()(s.starters[i]) == 0
    ensures s.counters.active == 0 && s.counters.idle == 0
  {
    assert s.places == [];
    TotalNone(s.workers, InActive());
    TotalNone(s.workers, InIdle());
  }
}
