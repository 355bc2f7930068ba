/**
What becomes of the order of the bounded queue when a claim on the tail does not wait for
the one a lap earlier: with two claims open on one slot, the run can be continued so that
a dequeue gets a value that is not its own.
*/
module Overtaking {
  import opened MachineWords
  import opened Counting
  import opened Threads
  import opened CircularQueue

  /** Thread `j` is to take the value of claim `n`. */
  ghost predicate Attends(s: State, j: nat, n: nat)
    requires |s.mine| == |s.threads|
  {
    j < |s.threads| && Takes(s.threads[j]) && s.mine[j] == n
  }

  /** Every claim on the head that has not been served has a thread that is to serve it. */
  ghost predicate Attended(s: State)
    requires |s.mine| == |s.threads|
  {
    forall n :: 0 <= n < s.claimed && n !in s.got ==> exists j :: Attends(s, j, n)
  }

  lemma NextAttended(s: State, i: nat, call: Call)
    requires Shaped(s) && i < |s.threads| && Attended(s)
    ensures |Next(s, i, call).mine| == |s.threads| && Attended(Next(s, i, call))
  {
    var s' := Next(s, i, call);
    forall n | 0 <= n < s'.claimed && n !in s'.got ensures exists j :: Attends(s', j, n) {
      if n == s.claimed {
        assert Attends(s', i, n);
      } else {
        var j :| Attends(s, j, n);
        assert Attends(s', j, n);
      }
    }
  }

  /** Timely claims keep the order and leave no claim unattended. */
  lemma {:induction false} TimelyRunAttended(s: State, turns: seq<Turn<Call>>)
    requires Inv(s) && Ordered(s) && Attended(s)
    requires (forall t :: t in turns ==> t.thread < |s.threads|) && TimelyRun(s, turns)
    ensures var r := Run(s, turns); Inv(r) && Ordered(r) && Attended(r)
    decreases |turns|
  {
    if turns != [] {
      var t := turns[0];
      NextInv(s, t.thread, t.call);
      NextOrdered(s, t.thread, t.call);
      NextAttended(s, t.thread, t.call);
      TimelyRunAttended(Next(s, t.thread, t.call), turns[1..]);
    }
  }

  /** The turns lead from `s` to `r`. */
  ghost predicate Reaches(s: State, turns: seq<Turn<Call>>, r: State) {
    Shaped(s) && (forall t :: t in turns ==> t.thread < |s.threads|) && Run(s, turns) == r
  }

  lemma Further(s: State, turns: seq<Turn<Call>>, r: State, last: Turn<Call>)
    requires Reaches(s, turns, r) && last.thread < |s.threads|
    ensures Shaped(r) && |r.threads| == |s.threads| && Reaches(s, turns + [last], Next(r, last.thread, last.call))
  {
    RunOne(r, last);
    RunOn(s, turns, [last]);
  }

  // One reader takes whatever lies in its slot

  ghost predicate Reads(p: Pc, k: nat) {
    Takes(p) && p.slot == k
  }

  lemma GetsToRead(s: State, turns: seq<Turn<Call>>, r: State, j: nat, k: nat) returns (turns': seq<Turn<Call>>, r': State)
    requires Reaches(s, turns, r) && Shaped(r) && j < |s.threads| == |r.threads| && Reads(r.threads[j], k)
    requires k < |r.memory.slots|
    ensures Reaches(s, turns', r') && Shaped(r') && |r'.threads| == |r.threads|
    ensures r'.memory.slots == r.memory.slots && r'.offers == r.offers && r'.got == r.got && r'.mine == r.mine
    ensures r'.threads[j] == DeqReadSlot(k) || r'.threads[j] == DeqTake(k, r.memory.slots[k])
  {
    if r.threads[j] == DeqReadSlot(k) || r.threads[j] == DeqTake(k, r.memory.slots[k]) {
      return turns, r;
    }
    Further(s, turns, r, Turn(j, Dequeue));
    NextShaped(r, j, Dequeue);
    turns', r' := turns + [Turn(j, Dequeue)], Next(r, j, Dequeue);
  }

  lemma GetsReady(s: State, turns: seq<Turn<Call>>, r: State, j: nat, k: nat) returns (turns': seq<Turn<Call>>, r': State)
    requires Reaches(s, turns, r) && Shaped(r) && j < |s.threads| == |r.threads| && Reads(r.threads[j], k)
    requires k < |r.memory.slots| && r.memory.slots[k] != NULL
    ensures Reaches(s, turns', r') && Shaped(r') && |r'.threads| == |r.threads|
    ensures r'.memory.slots == r.memory.slots && r'.offers == r.offers && r'.got == r.got && r'.mine == r.mine
    ensures r'.threads[j] == DeqTake(k, r.memory.slots[k])
  {
    var t := Turn(j, Dequeue);
    turns', r' := GetsToRead(s, turns, r, j, k);
    if r'.threads[j].DeqReadSlot? {
      Further(s, turns', r', t);
      NextShaped(r', j, Dequeue);
      turns', r' := turns' + [t], Next(r', j, Dequeue);
    }
  }

  lemma TakesWhatIsThere(s: State, turns: seq<Turn<Call>>, r: State, j: nat, k: nat)
    returns (turns': seq<Turn<Call>>, r': State)
    requires Reaches(s, turns, r) && Shaped(r) && j < |s.threads| == |r.threads| && Reads(r.threads[j], k)
    requires k < |r.memory.slots| && r.memory.slots[k] != NULL
    ensures Reaches(s, turns', r')
    ensures r'.offers == r.offers && r'.got == r.got[r.mine[j] := r.memory.slots[k]]
  {
    var turns1, r1 := GetsReady(s, turns, r, j, k);
    Further(s, turns1, r1, Turn(j, Dequeue));
    turns', r' := turns1 + [Turn(j, Dequeue)], Next(r1, j, Dequeue);
  }

  /** Some dequeue has got a value other than the one of its own claim. */
  ghost predicate OutOfOrder(r: State) {
    exists n :: n in r.got && n < |r.offers| && r.got[n] != r.offers[n]
  }

  /** The claim one lap before the next one. */
  ghost function LapBefore(s: State): int {
    |s.offers| - |s.memory.slots|
  }

  /** Thread `i` is about to claim on the tail while the claim a lap earlier is still open. */
  ghost predicate Hasty(s: State, i: nat)
    requires Shaped(s)
  {
    i < |s.threads| && !Timely(s, i)
  }

  /** What a hasty claim finds: the earlier claim falls on the same slot, is open, and has a reader waiting. */
  lemma HastyFinds(s: State, i: nat) returns (j: nat)
    requires Inv(s) && Ordered(s) && Attended(s) && Fits(s) && Hasty(s, i)
    ensures 0 <= LapBefore(s) && Open(s, LapBefore(s)) && LapBefore(s) % |s.memory.slots| == s.memory.tail
    ensures Attends(s, j, LapBefore(s)) && j != i && Reads(s.threads[j], s.memory.tail)
    ensures s.memory.slots[s.memory.tail] != NULL ==> s.memory.slots[s.memory.tail] == s.offers[LapBefore(s)]
  {
    var n, c, k := LapBefore(s), |s.memory.slots|, s.memory.tail;
    LapSlot(n, c);
    j :| Attends(s, j, n);
    assert Sane(s, j) && Stamped(s, k);
    if s.memory.slots[k] != NULL {
      OneOpen(s, s.stamp[k], n);
    }
  }

  lemma LapSlot(n: nat, c: nat)
    requires c > 0
    ensures n % c == (n + c) % c
  {
    var q := n / c;
    assert n == q * c + n % c && n + c == (q + 1) * c + n % c;
    QuotientAndRest(q + 1, c, n % c);
  }

  /** The state right after the hasty claim. */
  ghost function Claimed(s: State, i: nat): (r: State)
    requires Shaped(s) && Hasty(s, i)
    ensures Shaped(r) && |r.threads| == |s.threads|
  {
    NextShaped(s, i, Dequeue);
    Next(s, i, Dequeue)
  }

  /** If the slot is still empty the hasty writer gets in first, and the waiting reader gets its value. */
  lemma EmptySlotBreaks(s: State, i: nat) returns (turns: seq<Turn<Call>>)
    requires Inv(s) && Ordered(s) && Attended(s) && Fits(s) && Hasty(s, i)
    requires s.memory.slots[s.memory.tail] == NULL && s.offers[LapBefore(s)] != s.threads[i].data
    ensures (forall t :: t in turns ==> t.thread < |s.threads|) && OutOfOrder(Run(Claimed(s, i), turns))
  {
    var j := HastyFinds(s, i);
    var t, k, d := Turn(i, Dequeue), s.memory.tail, s.threads[i].data;
    var r1 := Claimed(s, i);
    assert Sane(s, i) && Reaches(r1, [], r1);
    assert r1.threads[i] == EnqPut(d, k) && r1.memory.slots == s.memory.slots;
    Further(r1, [], r1, t);
    var r2 := Next(r1, i, Dequeue);
    NextShaped(r1, i, Dequeue);
    var r;
    turns, r := TakesWhatIsThere(r1, [] + [t], r2, j, k);
    assert LapBefore(s) in r.got && r.got[LapBefore(s)] == d && r.offers[LapBefore(s)] == s.offers[LapBefore(s)];
  }

  // If the earlier value is in place already, other readers have to come in between

  /** From the `from`-th on, these threads are idle, and no two are the same. */
  ghost predicate Spares(s: State, spare: seq<nat>, from: nat) {
    && (forall k :: from <= k < |spare| ==> spare[k] < |s.threads| && s.threads[spare[k]].Idle?)
    && (forall j, k :: 0 <= j < k < |spare| ==> spare[j] != spare[k])
  }

  /** The ends are where the claims on them lead, nobody holds the lock, and more than `n` claims are open. */
  ghost predicate Claimable(r: State, n: nat) {
    && 0 < |r.memory.slots| && r.memory.lock == 0
    && r.memory.head == r.claimed % |r.memory.slots| && r.memory.tail == |r.offers| % |r.memory.slots|
    && r.claimed + n <= |r.offers| < r.claimed + |r.memory.slots|
  }

  lemma ApartEnds(r: State)
    requires Claimable(r, 1)
    ensures r.memory.head != r.memory.tail
  {
    if r.memory.head == r.memory.tail {
      SameRemainder(r.claimed, |r.offers|, |r.memory.slots|);
    }
  }

  /** Thread `u` looks for the value of claim `n`. */
  ghost predicate LooksFor(r: State, u: nat, n: nat) {
    && u < |r.threads| == |r.mine| && 0 < |r.memory.slots| < TWO64
    && r.threads[u] == DeqReadSlot(n % |r.memory.slots|) && r.mine[u] == n
  }

  /** One idle thread claims on the head, which leaves the others idle. */
  lemma ClaimFirst(s: State, turns: seq<Turn<Call>>, r: State, spare: seq<nat>, k: nat)
    returns (turns': seq<Turn<Call>>, r': State)
    requires Leads(s, turns, r) && |r.threads| == |s.threads| == |r.mine|
    requires k < |spare| && Spares(r, spare, k) && Claimable(r, |spare| - k)
    ensures Leads(s, turns', r') && |r'.threads| == |s.threads| == |r'.mine|
    ensures r'.memory.slots == r.memory.slots && r'.offers == r.offers && r'.claimed == r.claimed + 1
    ensures LooksFor(r', spare[k], r.claimed)
    ensures Spares(r', spare, k + 1) && Claimable(r', |spare| - k - 1)
  {
    ApartEnds(r);
    NextIndex(r.claimed, |r.memory.slots|);
    turns', r' := ClaimHead(s, turns, r, spare[k]);
  }

  /** Idle threads claim on the head one after the other, up to claim `n`. */
  lemma {:induction false} ClaimHeads(s: State, turns: seq<Turn<Call>>, r: State, spare: seq<nat>, k: nat, n: nat)
    returns (turns': seq<Turn<Call>>, r': State)
    requires Leads(s, turns, r) && |r.threads| == |s.threads| == |r.mine|
    requires k < |spare| && Spares(r, spare, k) && Claimable(r, |spare| - k)
    requires n == r.claimed + |spare| - 1 - k
    ensures Leads(s, turns', r') && |r'.threads| == |s.threads| == |r'.mine|
    ensures r'.memory.slots == r.memory.slots && r'.offers == r.offers
    ensures LooksFor(r', spare[|spare| - 1], n)
    decreases |spare| - k
  {
    turns', r' := ClaimFirst(s, turns, r, spare, k);
    if k + 1 < |spare| {
      turns', r' := ClaimHeads(s, turns', r', spare, k + 1, n);
    }
  }

  /** If the earlier value is in place, enough idle readers can claim up to the hasty claim and take that value for it. */
  lemma FullSlotBreaks(s: State, i: nat, spare: seq<nat>) returns (turns: seq<Turn<Call>>)
    requires Inv(s) && Ordered(s) && Attended(s) && Fits(s) && Hasty(s, i)
    requires s.memory.slots[s.memory.tail] != NULL && s.offers[LapBefore(s)] != s.threads[i].data
    requires Spares(s, spare, 0) && |spare| == |s.offers| + 1 - s.claimed < |s.memory.slots| && s.memory.lock == 0
    ensures (forall t :: t in turns ==> t.thread < |s.threads|) && OutOfOrder(Run(Claimed(s, i), turns))
  {
    var j := HastyFinds(s, i);
    var r1, n := Claimed(s, i), |s.offers|;
    NextIndex(n, |s.memory.slots|);
    assert Leads(r1, [], r1) && Claimable(r1, |spare|);
    var turns2, r2 := ClaimHeads(r1, [], r1, spare, 0, n);
    assert s.memory.tail == n % |s.memory.slots| && LooksFor(r2, spare[|spare| - 1], n);
    Lead(r1, turns2, r2);
    var r;
    turns, r := TakesWhatIsThere(r1, turns2, r2, spare[|spare| - 1], s.memory.tail);
    assert n in r.got && r.got[n] == s.offers[LapBefore(s)] && r.offers[n] == s.threads[i].data;
  }

  lemma Lead(s: State, turns: seq<Turn<Call>>, r: State)
    requires Leads(s, turns, r)
    ensures Reaches(s, turns, r) && Shaped(r) && |r.threads| == |s.threads|
  {
  }

  /** A thread may go wrong by claiming now: the earlier value is not in place, or enough others are free to overtake. */
  ghost predicate Exposed(s: State, i: nat, spare: seq<nat>)
    requires Shaped(s)
  {
    && Hasty(s, i) && s.offers[LapBefore(s)] != s.threads[i].data
    && (s.memory.slots[s.memory.tail] == NULL
        || (Spares(s, spare, 0) && |spare| == |s.offers| + 1 - s.claimed < |s.memory.slots| && s.memory.lock == 0))
  }

  /**
  Order is kept by timely claims, and by nothing less: after any run of timely claims, the
  first that does not wait, if it is exposed, can be followed by turns that serve a dequeue
  with a value which is not its own.
  */
  lemma OrderNeedsTimelyClaims(capacity: Word, n: nat, turns: seq<Turn<Call>>, i: nat, spare: seq<nat>)
    returns (rest: seq<Turn<Call>>)
    requires capacity + 1 < TWO64 && forall t :: t in turns ==> t.thread < n
    requires TimelyRun(Initial(capacity, n), turns)
    requires Fits(Run(Initial(capacity, n), turns)) && Exposed(Run(Initial(capacity, n), turns), i, spare)
    ensures (forall t :: t in rest ==> t.thread < n)
    ensures !OutOfOrder(Run(Initial(capacity, n), turns))
    ensures OutOfOrder(Run(Claimed(Run(Initial(capacity, n), turns), i), rest))
  {
    var s := Run(Initial(capacity, n), turns);
    InitiallyInv(capacity, n);
    TimelyRunAttended(Initial(capacity, n), turns);
    if s.memory.slots[s.memory.tail] == NULL {
      rest := EmptySlotBreaks(s, i);
    } else {
      rest := FullSlotBreaks(s, i, spare);
    }
  }
}
