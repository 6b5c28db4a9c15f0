/** When a periodic heartbeat keeps a lease alive at every instant. */
module HeartbeatTiming {
  import opened Options
  import opened AccountLease

  // The lease duration and heartbeat period, and bounds on what the surroundings add: the time from the
  // acquisition until the heartbeat task starts, the time the scheduler takes to run a task that is due, the
  // time a request takes to be decided by the store, and the time its answer takes back.
  datatype Timing = Timing(duration: int, period: int, startUp: int, wake: int, request: int, response: int)

  ghost predicate Sensible(t: Timing) {
    t.period > 0 && t.duration > t.period && t.startUp >= 0 && t.wake >= 0 && t.request >= 0 && t.response >= 0
  }

  // One life of the heartbeat task: the acquisition, and for tick k its deadline, the moment it fires,
  // the moment the store decides it and the moment its answer is back.
  datatype Schedule = Schedule(acquired: int, deadline: nat -> int, fires: nat -> int,
                               decided: nat -> int, answered: nat -> int)

  function Max(a: int, b: int): int {
    if a < b then b else a
  }

  // The first point of the ticker's grid after a moment.
  function GridAfter(first: int, period: int, now: int): (next: int)
    requires period > 0 && now >= first
    ensures now < next <= now + period
  {
    first + ((now - first) / period + 1) * period
  }

  // A schedule the ticker can produce. The first deadline is one period after the start; a tick is due at its
  // deadline, or when the previous answer is back if that is later, and fires when the scheduler gets to it;
  // missed ticks are skipped, so the next deadline is the first grid point after the tick fired.
  ghost predicate Possible(t: Timing, s: Schedule)
    requires t.period > 0
  {
    && s.acquired + t.period <= s.deadline(0) <= s.acquired + t.startUp + t.period
    && s.deadline(0) <= s.fires(0) <= s.deadline(0) + t.wake
    && (forall k: nat :: s.deadline(0) <= s.fires(k) <= s.decided(k) <= s.fires(k) + t.request)
    && (forall k: nat :: s.decided(k) <= s.answered(k) <= s.decided(k) + t.response)
    && (forall k: nat {:trigger s.deadline(k + 1)} :: s.deadline(k + 1) == GridAfter(s.deadline(0), t.period, s.fires(k)))
    && (forall k: nat {:trigger s.fires(k + 1)} ::
          Max(s.deadline(k + 1), s.answered(k)) <= s.fires(k + 1) <= Max(s.deadline(k + 1), s.answered(k)) + t.wake)
  }

  // The interval up to the decision of tick k.
  function Since(s: Schedule, k: nat): int {
    if k == 0 then s.acquired else s.decided(k - 1)
  }

  // Any calls by other owners, `others(k)` between the decisions of ticks k - 1 and k.
  ghost predicate Foreign(s: Schedule, others: nat -> seq<Timed>, token: Token) {
    forall k: nat :: InTime(others(k), Since(s, k), s.decided(k)) && forall c :: c in others(k) ==> c.call.token != token
  }

  // The row right after the heartbeats before tick k and everybody's calls up to then.
  function RowBefore(t: Timing, s: Schedule, others: nat -> seq<Timed>, owner: string, token: Token, k: nat): Option<Lease> {
    if k == 0 then Some(Lease(owner, token, s.acquired + t.duration))
    else
      var row := DecideAll(RowBefore(t, s, others, owner, token, k - 1), others(k - 1));
      Decide(row, Timed(s.decided(k - 1), HeartbeatCall(owner, token, t.duration)))
  }

  // The row within the interval of tick k, after the first j calls of others in it.
  function RowWithin(t: Timing, s: Schedule, others: nat -> seq<Timed>, owner: string, token: Token, k: nat, j: nat): Option<Lease>
    requires j <= |others(k)|
  {
    DecideAll(RowBefore(t, s, others, owner, token, k), others(k)[..j])
  }

  ghost predicate HeldAt(t: Timing, s: Schedule, others: nat -> seq<Timed>, owner: string, token: Token, k: nat, j: nat, now: int)
    requires j <= |others(k)|
  {
    Holds(RowWithin(t, s, others, owner, token, k, j), owner, token, now)
  }

  ghost predicate LiveThroughout(t: Timing, s: Schedule, others: nat -> seq<Timed>, owner: string, token: Token) {
    forall k: nat, j: nat, now ::
      j <= |others(k)| && Since(s, k) <= now <= s.decided(k) ==> HeldAt(t, s, others, owner, token, k, j, now)
  }

  ghost predicate Safe(t: Timing) {
    && t.startUp + t.period + t.wake + t.request < t.duration
    && t.response + t.wake + t.request < t.duration
  }

  // The gap between two decisions.
  lemma Gap(t: Timing, s: Schedule, k: nat)
    requires Sensible(t) && Possible(t, s)
    ensures s.decided(k + 1) <= s.decided(k) + Max(t.period, t.response) + t.wake + t.request
  {
    assert s.fires(k + 1) <= Max(s.deadline(k + 1), s.answered(k)) + t.wake;
    assert s.deadline(k + 1) == GridAfter(s.deadline(0), t.period, s.fires(k));
  }

  // While the own lease is live, calls by others change nothing.
  lemma {:induction false} ForeignCallsChangeNothing(lease: Lease, calls: seq<Timed>, from: int, to: int)
    requires InTime(calls, from, to) && to < lease.until && forall c :: c in calls ==> c.call.token != lease.token
    ensures DecideAll(Some(lease), calls) == Some(lease)
  {
    if calls != [] {
      var n := |calls| - 1;
      assert calls[n] in calls;
      ForeignCallsChangeNothing(lease, calls[..n], from, to);
    }
  }

  // The facts about one tick.
  lemma ForeignAt(s: Schedule, others: nat -> seq<Timed>, token: Token, k: nat)
    requires Foreign(s, others, token)
    ensures InTime(others(k), Since(s, k), s.decided(k)) && forall c :: c in others(k) ==> c.call.token != token
  {
    hide InTime, Since;
  }

  lemma FirstTick(t: Timing, s: Schedule)
    requires Sensible(t) && Possible(t, s)
    ensures s.decided(0) <= s.acquired + t.startUp + t.period + t.wake + t.request
  {
    assert s.decided(0) <= s.fires(0) + t.request;
    hide GridAfter, Max;
  }

  lemma RowStep(t: Timing, s: Schedule, others: nat -> seq<Timed>, owner: string, token: Token, k: nat)
    ensures RowBefore(t, s, others, owner, token, 0) == Some(Lease(owner, token, s.acquired + t.duration))
    ensures RowBefore(t, s, others, owner, token, k + 1)
         == Decide(DecideAll(RowBefore(t, s, others, owner, token, k), others(k)),
                   Timed(s.decided(k), HeartbeatCall(owner, token, t.duration)))
  {
    hide Decide, DecideAll;
  }

  lemma HeldIsExtended(lease: Lease, now: int, duration: int)
    requires now < lease.until
    ensures Decide(Some(lease), Timed(now, HeartbeatCall(lease.owner, lease.token, duration)))
         == Some(Lease(lease.owner, lease.token, now + duration))
  {
  }

  // One heartbeat after any calls of others extends the lease.
  lemma NextRow(t: Timing, s: Schedule, others: nat -> seq<Timed>, owner: string, token: Token, k: nat)
    requires Foreign(s, others, token) && s.decided(k) < Since(s, k) + t.duration
    requires RowBefore(t, s, others, owner, token, k) == Some(Lease(owner, token, Since(s, k) + t.duration))
    ensures RowBefore(t, s, others, owner, token, k + 1) == Some(Lease(owner, token, s.decided(k) + t.duration))
  {
    hide *;
    var lease := Lease(owner, token, Since(s, k) + t.duration);
    ForeignAt(s, others, token, k);
    ForeignCallsChangeNothing(lease, others(k), Since(s, k), s.decided(k));
    RowStep(t, s, others, owner, token, k);
    HeldIsExtended(lease, s.decided(k), t.duration);
  }

  lemma {:induction false} RowIsExtended(t: Timing, s: Schedule, others: nat -> seq<Timed>, owner: string, token: Token, k: nat)
    requires Sensible(t) && Possible(t, s) && Safe(t) && Foreign(s, others, token)
    ensures RowBefore(t, s, others, owner, token, k) == Some(Lease(owner, token, Since(s, k) + t.duration))
    ensures s.decided(k) < Since(s, k) + t.duration
  {
    hide Possible, Foreign, RowBefore;
    if k == 0 {
      FirstTick(t, s);
      RowStep(t, s, others, owner, token, 0);
    } else {
      RowIsExtended(t, s, others, owner, token, k - 1);
      NextRow(t, s, others, owner, token, k - 1);
      Gap(t, s, k - 1);
    }
  }

  // Within the interval the row is the own lease, whatever part of the others' calls was decided.
  lemma OwnRowWithin(t: Timing, s: Schedule, others: nat -> seq<Timed>, owner: string, token: Token, k: nat, j: nat)
    requires Sensible(t) && Possible(t, s) && Safe(t) && Foreign(s, others, token) && j <= |others(k)|
    ensures RowWithin(t, s, others, owner, token, k, j) == Some(Lease(owner, token, Since(s, k) + t.duration))
    ensures s.decided(k) < Since(s, k) + t.duration
  {
    hide Possible, Foreign, RowBefore, Safe, Sensible;
    RowIsExtended(t, s, others, owner, token, k);
    ForeignAt(s, others, token, k);
    ForeignCallsChangeNothing(Lease(owner, token, Since(s, k) + t.duration), others(k)[..j], Since(s, k), s.decided(k));
  }

  lemma SafeIsLive(t: Timing, s: Schedule, others: nat -> seq<Timed>, owner: string, token: Token)
    requires Sensible(t) && Possible(t, s) && Safe(t) && Foreign(s, others, token)
    ensures LiveThroughout(t, s, others, owner, token)
  {
    forall k: nat, j: nat, now | j <= |others(k)| && Since(s, k) <= now <= s.decided(k)
      ensures HeldAt(t, s, others, owner, token, k, j, now)
    {
      OwnRowWithin(t, s, others, owner, token, k, j);
    }
  }

  // ---- Every unsafe timing has a schedule that loses the lease

  // The firing times for a chosen start and chosen delays.
  function FireAt(t: Timing, first: int, wake: nat -> nat, request: nat -> nat, response: nat -> nat, k: nat): (f: int)
    requires t.period > 0
    ensures f >= first
  {
    if k == 0 then first + wake(0)
    else
      var previous := FireAt(t, first, wake, request, response, k - 1);
      Max(GridAfter(first, t.period, previous), previous + request(k - 1) + response(k - 1)) + wake(k)
  }

  function MakeSchedule(t: Timing, first: int, wake: nat -> nat, request: nat -> nat, response: nat -> nat): Schedule
    requires t.period > 0
  {
    Schedule(0,
             (k: nat) => if k == 0 then first
                         else GridAfter(first, t.period, FireAt(t, first, wake, request, response, k - 1)),
             (k: nat) => FireAt(t, first, wake, request, response, k),
             (k: nat) => FireAt(t, first, wake, request, response, k) + request(k),
             (k: nat) => FireAt(t, first, wake, request, response, k) + request(k) + response(k))
  }

  lemma MadeIsPossible(t: Timing, first: int, wake: nat -> nat, request: nat -> nat, response: nat -> nat)
    requires Sensible(t) && t.period <= first <= t.startUp + t.period
    requires forall k: nat :: wake(k) <= t.wake && request(k) <= t.request && response(k) <= t.response
    ensures Possible(t, MakeSchedule(t, first, wake, request, response))
  {
    hide GridAfter;
    var s := MakeSchedule(t, first, wake, request, response);
    forall k: nat
      ensures s.fires(k + 1) == Max(s.deadline(k + 1), s.answered(k)) + wake(k + 1)
      ensures s.deadline(k + 1) == GridAfter(first, t.period, s.fires(k))
    {
      FireNext(t, first, wake, request, response, k);
    }
    hide FireAt;
    assert s.fires(0) == first + wake(0) by { FireFirst(t, first, wake, request, response); }
  }

  lemma FireFirst(t: Timing, first: int, wake: nat -> nat, request: nat -> nat, response: nat -> nat)
    requires t.period > 0
    ensures FireAt(t, first, wake, request, response, 0) == first + wake(0)
  {
  }

  lemma FireNext(t: Timing, first: int, wake: nat -> nat, request: nat -> nat, response: nat -> nat, k: nat)
    requires t.period > 0
    ensures FireAt(t, first, wake, request, response, k + 1)
         == Max(GridAfter(first, t.period, FireAt(t, first, wake, request, response, k)),
                FireAt(t, first, wake, request, response, k) + request(k) + response(k)) + wake(k + 1)
  {
    hide GridAfter;
  }

  // Nobody else calls.
  function Nobody(): nat -> seq<Timed> {
    k => []
  }

  // The lease is not held where it should be.
  lemma NotLive(t: Timing, s: Schedule, owner: string, token: Token, k: nat)
    requires Since(s, k) <= s.decided(k)
    requires !Holds(RowBefore(t, s, Nobody(), owner, token, k), owner, token, s.decided(k))
    ensures !LiveThroughout(t, s, Nobody(), owner, token)
  {
    assert Nobody()(k)[..0] == [];
    assert RowWithin(t, s, Nobody(), owner, token, k, 0) == RowBefore(t, s, Nobody(), owner, token, k);
    assert !HeldAt(t, s, Nobody(), owner, token, k, 0, s.decided(k));
  }

  lemma NobodyIsForeign(s: Schedule, token: Token)
    ensures Foreign(s, Nobody(), token)
  {
  }

  lemma LateFirstTick(t: Timing, owner: string, token: Token) returns (s: Schedule)
    requires Sensible(t) && t.startUp + t.period + t.wake + t.request >= t.duration
    ensures Possible(t, s) && !LiveThroughout(t, s, Nobody(), owner, token)
  {
    var wake, request, response := (k: nat) => if k == 0 then t.wake else 0, (k: nat) => if k == 0 then t.request else 0, (k: nat) => 0;
    var first := t.startUp + t.period;
    s := MakeSchedule(t, first, wake, request, response);
    MadeIsPossible(t, first, wake, request, response);
    assert s.decided(0) == first + t.wake + t.request;
    hide Possible, LiveThroughout, FireAt;
    assert RowBefore(t, s, Nobody(), owner, token, 0) == Some(Lease(owner, token, t.duration));
    NotLive(t, s, owner, token, 0);
  }

  lemma LateSecondTick(t: Timing, owner: string, token: Token) returns (s: Schedule)
    requires Sensible(t) && t.response + t.wake + t.request >= t.duration
    ensures Possible(t, s) && !LiveThroughout(t, s, Nobody(), owner, token)
  {
    var wake, request := (k: nat) => if k == 1 then t.wake else 0, (k: nat) => if k == 1 then t.request else 0;
    var response := (k: nat) => if k == 0 then t.response else 0;
    s := MakeSchedule(t, t.period, wake, request, response);
    MadeIsPossible(t, t.period, wake, request, response);
    assert s.decided(0) == t.period;
    assert s.fires(1) >= t.period + t.response + t.wake;
    assert s.decided(1) == s.fires(1) + t.request;
    hide Possible, LiveThroughout, FireAt, RowBefore, MakeSchedule;
    assert Nobody()(0) == [];
    RowStep(t, s, Nobody(), owner, token, 0);
    HeldIsExtended(Lease(owner, token, t.duration), t.period, t.duration);
    NotLive(t, s, owner, token, 1);
  }

  /**
   * The heartbeat keeps the lease live at every instant of every possible schedule, over any number of ticks and
   * whatever other owners call, exactly when start-up, period, scheduling and request delay together, and the
   * round trip with its scheduling alone, stay below the lease duration.
   */
  lemma LiveIffSafe(t: Timing, owner: string, token: Token)
    requires Sensible(t)
    ensures Safe(t) <==>
            forall s, others :: Possible(t, s) && Foreign(s, others, token) ==> LiveThroughout(t, s, others, owner, token)
  {
    if Safe(t) {
      forall s, others | Possible(t, s) && Foreign(s, others, token)
        ensures LiveThroughout(t, s, others, owner, token)
      {
        SafeIsLive(t, s, others, owner, token);
      }
    } else {
      var s;
      if t.startUp + t.period + t.wake + t.request >= t.duration {
        s := LateFirstTick(t, owner, token);
      } else {
        s := LateSecondTick(t, owner, token);
      }
      NobodyIsForeign(s, token);
    }
  }

  /** With safe timing, every acquisition by another owner, among any calls of others at any tick, is refused. */
  lemma OthersAreRefused(t: Timing, s: Schedule, others: nat -> seq<Timed>, owner: string, token: Token, k: nat, j: nat)
    requires Sensible(t) && Possible(t, s) && Safe(t) && Foreign(s, others, token)
    requires j < |others(k)| && others(k)[j].call.AcquireCall?
    ensures var row, c := RowWithin(t, s, others, owner, token, k, j), others(k)[j];
      && Holds(row, owner, token, c.at)
      && Acquire(row, c.at, c.call.owner, c.call.token, c.call.duration) == (row, None)
  {
    OwnRowWithin(t, s, others, owner, token, k, j);
    assert InTime(others(k), Since(s, k), s.decided(k));
    hide Possible, RowWithin;
  }

  /** A period just below the duration, all that the configuration checks, loses the lease after one slow start. */
  lemma ShortPeriodIsNotEnough(owner: string, token: Token) returns (s: Schedule)
    ensures var t := Timing(30, 29, 1, 0, 0, 0);
      Sensible(t) && !Safe(t) && Possible(t, s) && !LiveThroughout(t, s, Nobody(), owner, token)
  {
    s := LateFirstTick(Timing(30, 29, 1, 0, 0, 0), owner, token);
  }
}
