/** The sticky cancel bit of one lease guard, under any interleaving with its heartbeat task, time and other owners. */
module GuardRuns {
  import opened Options
  import opened AccountLease

  type OpId = nat

  // A request capability heartbeats before it is handed out; a credential replacement is sent to the store.
  datatype Kind = Capability | Replacement

  // Failing: the failure of the store call is known, the bit not yet set.
  datatype Phase = Fresh | Checked(kind: Kind) | Passed(kind: Kind) | Failing | Refused

  // The store's row and clock, and the guard of one acquisition.
  datatype Guard = Guard(row: Option<Lease>, now: int, owner: string, token: Token, duration: int,
                         cancelled: bool, releasing: bool, failedBeats: nat, ops: map<OpId, Phase>)

  // A call reaches the store or not, and its answer comes back or not.
  datatype Delivery = Answered | AnswerLost | RequestLost

  datatype Action =
    | CheckUsable(op: OpId, kind: Kind)
    | AskStore(op: OpId, delivery: Delivery)
    | SetBit(op: OpId)
    | Beat(delivery: Delivery)
    | SetBeatBit
    | BeginRelease
    | DecideRelease
      // Time, and calls by other owners.
    | Tick(delta: nat)
    | OtherCall(call: Call)

  function PhaseOf(g: Guard, op: OpId): Phase {
    if op in g.ops then g.ops[op] else Fresh
  }

  // The store takes the guard for the holder of a live lease.
  predicate IsHeld(g: Guard) {
    Holds(g.row, g.owner, g.token, g.now)
  }

  // The store decides a call now.
  function Decided(g: Guard, call: Call): Guard {
    g.(row := Decide(g.row, Timed(g.now, call)))
  }

  function OwnHeartbeat(g: Guard): Call {
    HeartbeatCall(g.owner, g.token, g.duration)
  }

  // The call of an operation: a heartbeat for a capability; a replacement only asks whether the lease is held.
  function Sent(g: Guard, kind: Kind, delivery: Delivery): Guard {
    if kind.Capability? && !delivery.RequestLost? then Decided(g, OwnHeartbeat(g)) else g
  }

  predicate Enabled(g: Guard, a: Action) {
    match a
    case CheckUsable(op, _) => PhaseOf(g, op).Fresh?
    case AskStore(op, _) => PhaseOf(g, op).Checked?
    case SetBit(op) => PhaseOf(g, op).Failing?
    case Beat(_) => true
    case SetBeatBit => g.failedBeats > 0
    case BeginRelease => true
    case DecideRelease => g.releasing
    case Tick(_) => true
    case OtherCall(call) => call.token != g.token
  }

  function After(g: Guard, a: Action): Guard {
    match a
    case CheckUsable(op, kind) => g.(ops := g.ops[op := if g.cancelled then Refused else Checked(kind)])
    case AskStore(op, delivery) =>
      var phase := PhaseOf(g, op);
      if !phase.Checked? then g
      else
        var result := if IsHeld(g) && delivery.Answered? then Passed(phase.kind)
                      else if phase.kind.Capability? then Failing else Refused;
        Sent(g, phase.kind, delivery).(ops := g.ops[op := result])
    case SetBit(op) => g.(cancelled := true, ops := g.ops[op := Refused])
    case Beat(delivery) =>
      var sent := Sent(g, Capability, delivery);
      if IsHeld(g) && delivery.Answered? then sent else sent.(failedBeats := g.failedBeats + 1)
    case SetBeatBit => g.(cancelled := true)
    case BeginRelease => g.(cancelled := true, releasing := true)
    case DecideRelease => Decided(g, ReleaseCall(g.owner, g.token))
    case Tick(delta) => g.(now := g.now + delta)
    case OtherCall(call) => Decided(g, call)
  }

  ghost predicate Run(g: Guard, actions: seq<Action>) {
    actions != [] ==>
      var n := |actions| - 1;
      Run(g, actions[..n]) && Enabled(End(g, actions[..n]), actions[n])
  }

  function End(g: Guard, actions: seq<Action>): Guard {
    if actions == [] then g else After(End(g, actions[..|actions| - 1]), actions[|actions| - 1])
  }

  // ---- The calls of a run, in the order the store decides them

  function CallOf(g: Guard, a: Action): seq<Timed> {
    match a
    case AskStore(op, delivery) =>
      if PhaseOf(g, op).Checked? && PhaseOf(g, op).kind.Capability? && !delivery.RequestLost?
      then [Timed(g.now, OwnHeartbeat(g))] else []
    case Beat(delivery) => if delivery.RequestLost? then [] else [Timed(g.now, OwnHeartbeat(g))]
    case DecideRelease => [Timed(g.now, ReleaseCall(g.owner, g.token))]
    case OtherCall(call) => [Timed(g.now, call)]
    case _ => []
  }

  function Calls(g: Guard, actions: seq<Action>): seq<Timed> {
    if actions == [] then []
    else
      var n := |actions| - 1;
      Calls(g, actions[..n]) + CallOf(End(g, actions[..n]), actions[n])
  }

  lemma StepDecides(g: Guard, a: Action)
    requires Enabled(g, a)
    ensures |CallOf(g, a)| <= 1
    ensures After(g, a).row == if CallOf(g, a) == [] then g.row else Decide(g.row, CallOf(g, a)[0])
    ensures forall t :: t in CallOf(g, a) ==> t.at == g.now && !(t.call.AcquireCall? && t.call.token == g.token)
    ensures After(g, a).now >= g.now && After(g, a).token == g.token && After(g, a).owner == g.owner
  {
    hide Decide;
  }

  lemma DecidePush(row: Option<Lease>, calls: seq<Timed>, more: seq<Timed>)
    requires |more| <= 1
    ensures DecideAll(row, calls + more) == if more == [] then DecideAll(row, calls) else Decide(DecideAll(row, calls), more[0])
  {
    if more == [] {
      assert calls + more == calls;
    } else {
      assert (calls + more)[..|calls|] == calls && (calls + more)[|calls|] == more[0];
    }
    hide Decide;
  }

  // The row of a run is what the store makes of its calls.
  lemma {:induction false} RowFollowsCalls(g: Guard, actions: seq<Action>)
    requires Run(g, actions)
    ensures End(g, actions).row == DecideAll(g.row, Calls(g, actions))
    ensures InTime(Calls(g, actions), g.now, End(g, actions).now) && NotReused(Calls(g, actions), g.token)
    ensures g.now <= End(g, actions).now && End(g, actions).token == g.token && End(g, actions).owner == g.owner
  {
    hide Decide, CallOf, Enabled, After, InTime, NotReused, DecideAll;
    if actions == [] {
      NoCalls(g);
    } else {
      var n := |actions| - 1;
      RowFollowsCalls(g, actions[..n]);
      var before := End(g, actions[..n]);
      var more := CallOf(before, actions[n]);
      StepDecides(before, actions[n]);
      DecidePush(g.row, Calls(g, actions[..n]), more);
      CallsPush(Calls(g, actions[..n]), more, g.now, before.now, End(g, actions).now, g.token);
    }
  }

  lemma NoCalls(g: Guard)
    ensures DecideAll(g.row, []) == g.row && InTime([], g.now, g.now) && NotReused([], g.token)
  {
  }

  lemma CallsPush(calls: seq<Timed>, more: seq<Timed>, from: int, now: int, to: int, token: Token)
    requires InTime(calls, from, now) && NotReused(calls, token) && |more| <= 1 && from <= now <= to
    requires forall t :: t in more ==> t.at == now && !(t.call.AcquireCall? && t.call.token == token)
    ensures InTime(calls + more, from, to) && NotReused(calls + more, token)
  {
    if more != [] {
      assert more[0] in more;
    }
  }

  /** A guard that lost its lease never holds it again, over every run. */
  lemma LostStaysLost(g: Guard, actions: seq<Action>)
    requires Run(g, actions) && !IsHeld(g)
    ensures !IsHeld(End(g, actions))
  {
    RowFollowsCalls(g, actions);
    hide Decide, Run, End;
    DeadTokensStayDead(g.row, g.owner, g.token, g.now, Calls(g, actions), End(g, actions).now);
  }

  /** The bit only goes from false to true. */
  lemma {:induction false} BitIsSticky(g: Guard, actions: seq<Action>)
    requires Run(g, actions)
    ensures g.cancelled ==> End(g, actions).cancelled
  {
    if actions != [] {
      BitIsSticky(g, actions[..|actions| - 1]);
      hide Decide;
    }
  }

  // ---- What still goes through

  /** Without the lease nothing goes through, set bit or not: what passed had passed before. */
  lemma {:induction false} NothingPassesWithoutLease(g: Guard, actions: seq<Action>, op: OpId)
    requires Run(g, actions) && !IsHeld(g)
    ensures PhaseOf(End(g, actions), op).Passed? ==> PhaseOf(g, op).Passed?
  {
    if actions != [] {
      var n := |actions| - 1;
      hide Decide, IsHeld;
      NothingPassesWithoutLease(g, actions[..n], op);
      LostStaysLost(g, actions[..n]);
      PassingNeedsLease(End(g, actions[..n]), actions[n], op);
      hide After, Enabled;
    }
  }

  lemma PassingNeedsLease(g: Guard, a: Action, op: OpId)
    requires !IsHeld(g)
    ensures PhaseOf(After(g, a), op).Passed? ==> PhaseOf(g, op).Passed?
  {
    hide Decide, IsHeld;
  }

  /** After the bit is set no usability check succeeds: what was not checked before never gets past its check. */
  lemma {:induction false} NothingIsCheckedAfterTheBit(g: Guard, actions: seq<Action>, op: OpId)
    requires Run(g, actions) && g.cancelled && !PhaseOf(g, op).Checked? && !PhaseOf(g, op).Passed?
    ensures !PhaseOf(End(g, actions), op).Checked? && !PhaseOf(End(g, actions), op).Passed?
  {
    if actions != [] {
      var n := |actions| - 1;
      NothingIsCheckedAfterTheBit(g, actions[..n], op);
      BitIsSticky(g, actions[..n]);
      hide Decide, IsHeld;
    }
  }

  // The store's answer to a request of the guard was lost, or was a refusal.
  predicate Fails(g: Guard, a: Action) {
    match a
    case AskStore(_, delivery) => !IsHeld(g) || !delivery.Answered?
    case Beat(delivery) => !IsHeld(g) || !delivery.Answered?
    case BeginRelease => true
    case _ => false
  }

  // Nothing has failed or is being released.
  ghost predicate IsHealthy(g: Guard) {
    !g.cancelled && g.failedBeats == 0 && forall op :: !PhaseOf(g, op).Failing?
  }

  // No request fails in the run.
  ghost predicate GoesWell(g: Guard, actions: seq<Action>) {
    forall k :: 0 <= k < |actions| ==> !Fails(End(g, actions[..k]), actions[k])
  }

  /** The bit is set for a reason: in a run without a failed request or a release it stays clear. */
  lemma {:induction false} HealthyIsNotCancelled(g: Guard, actions: seq<Action>)
    requires Run(g, actions) && IsHealthy(g) && GoesWell(g, actions)
    ensures IsHealthy(End(g, actions))
  {
    if actions != [] {
      var n := |actions| - 1;
      assert forall k :: 0 <= k < n ==> actions[..n][..k] == actions[..k] && actions[..n][k] == actions[k];
      HealthyIsNotCancelled(g, actions[..n]);
      StaysHealthy(End(g, actions[..n]), actions[n]);
      hide IsHealthy, After, Enabled, Fails;
    }
  }

  lemma StaysHealthy(g: Guard, a: Action)
    requires Enabled(g, a) && IsHealthy(g) && !Fails(g, a)
    ensures IsHealthy(After(g, a))
  {
    hide Decide, IsHeld;
    var after := After(g, a);
    forall op
      ensures !PhaseOf(after, op).Failing?
    {
      assert !PhaseOf(g, op).Failing?;
    }
  }

  /**
   * A request that fails does not pass. A failed capability check then sets the bit; a refused replacement does not,
   * and leaves the guard to its heartbeat.
   */
  lemma FailedRequestIsRefused(g: Guard, op: OpId, delivery: Delivery)
    requires PhaseOf(g, op).Checked? && Fails(g, AskStore(op, delivery))
    ensures var after := After(g, AskStore(op, delivery));
      && !PhaseOf(after, op).Passed? && after.cancelled == g.cancelled
      && (PhaseOf(g, op).kind.Capability? ==>
            Enabled(after, SetBit(op)) && After(after, SetBit(op)).cancelled && PhaseOf(After(after, SetBit(op)), op) == Refused)
      && (PhaseOf(g, op).kind.Replacement? ==> !Enabled(after, SetBit(op)) && PhaseOf(after, op) == Refused)
  {
    hide Decide, IsHeld;
  }

  /** A failed heartbeat can set the bit, and only after one has failed. */
  lemma FailedBeatSetsTheBit(g: Guard, delivery: Delivery)
    ensures Fails(g, Beat(delivery)) ==> Enabled(After(g, Beat(delivery)), SetBeatBit)
    ensures !Fails(g, Beat(delivery)) ==> After(g, Beat(delivery)).failedBeats == g.failedBeats
  {
    hide Decide, IsHeld;
  }

  // What sets the bit: a failed operation, a failed heartbeat, or a release.
  predicate SetsBit(a: Action) {
    a.SetBit? || a.SetBeatBit? || a.BeginRelease?
  }

  /** From a failure or the start of a release on, no unchecked operation gets past its check. */
  lemma NothingIsCheckedAfterAFailure(g: Guard, a: Action, actions: seq<Action>, op: OpId)
    requires SetsBit(a) && Enabled(g, a) && Run(After(g, a), actions)
    requires !PhaseOf(g, op).Checked? && !PhaseOf(g, op).Passed?
    ensures After(g, a).cancelled && End(After(g, a), actions).cancelled
    ensures !PhaseOf(End(After(g, a), actions), op).Checked? && !PhaseOf(End(After(g, a), actions), op).Passed?
  {
    hide Run, End, Decide;
    NothingIsCheckedAfterTheBit(After(g, a), actions, op);
    BitIsSticky(After(g, a), actions);
  }

  // A run after which the operation went through.
  ghost predicate Completes(g: Guard, actions: seq<Action>, op: OpId) {
    Run(g, actions) && PhaseOf(End(g, actions), op).Passed?
  }

  /**
   * Exactly which operations still go through after the bit is set: those that passed their usability check
   * before it while the store still holds the lease live for the token. The check and the store call are two steps.
   */
  lemma GoesThroughIff(g: Guard, op: OpId)
    requires g.cancelled && !PhaseOf(g, op).Passed?
    ensures (exists actions :: Completes(g, actions, op)) <==> PhaseOf(g, op).Checked? && IsHeld(g)
  {
    if PhaseOf(g, op).Checked? && IsHeld(g) {
      var actions := [AskStore(op, Answered)];
      assert actions[..0] == [] && Run(g, []) && End(g, []) == g;
      assert End(g, actions) == After(g, AskStore(op, Answered));
      assert Completes(g, actions, op);
    } else {
      hide IsHeld;
      forall actions | Run(g, actions)
        ensures !Completes(g, actions, op)
      {
        if PhaseOf(g, op).Checked? {
          NothingPassesWithoutLease(g, actions, op);
        } else {
          NothingIsCheckedAfterTheBit(g, actions, op);
        }
      }
    }
  }

  /** Once the store decided the release, nothing goes through any more. */
  lemma NothingAfterRelease(g: Guard, actions: seq<Action>, op: OpId)
    requires g.releasing && Run(After(g, DecideRelease), actions)
    ensures PhaseOf(End(After(g, DecideRelease), actions), op).Passed? ==> PhaseOf(g, op).Passed?
  {
    var released := After(g, DecideRelease);
    assert !IsHeld(released);
    NothingPassesWithoutLease(released, actions, op);
    hide Run, End;
  }

  /** Once a heartbeat was answered with a refusal, nothing goes through any more. */
  lemma NothingAfterRefusal(g: Guard, actions: seq<Action>, op: OpId)
    requires Heartbeat(g.row, g.now, g.owner, g.token, g.duration).1.Err? && Run(After(g, Beat(Answered)), actions)
    ensures PhaseOf(End(After(g, Beat(Answered)), actions), op).Passed? ==> PhaseOf(g, op).Passed?
  {
    var refused := After(g, Beat(Answered));
    assert !IsHeld(refused);
    NothingPassesWithoutLease(refused, actions, op);
    hide Run, End;
  }

  // A guard right after its acquisition.
  function Acquired(owner: string, token: Token, duration: int): Guard {
    Guard(Some(Lease(owner, token, duration)), 0, owner, token, duration, false, false, 0, map[])
  }

  /**
   * A replacement can go through after its guard was cancelled: checked, then a heartbeat whose answer is lost
   * sets the bit, then the store, which still holds the lease, accepts the replacement.
   */
  lemma CancelledReplacementGoesThrough(owner: string, token: Token, duration: int) returns (before: seq<Action>, after: seq<Action>)
    requires duration > 0
    ensures var start := Acquired(owner, token, duration);
      && Run(start, before) && End(start, before).cancelled && !PhaseOf(End(start, before), 0).Passed?
      && Run(End(start, before), after) && PhaseOf(End(End(start, before), after), 0) == Passed(Replacement)
  {
    var start := Acquired(owner, token, duration);
    var a, b, d, e := CheckUsable(0, Replacement), Beat(AnswerLost), SetBeatBit, AskStore(0, Answered);
    before, after := [a, b, d], [e];
    assert before[..2] == [a, b] && [a, b][..1] == [a] && [a][..0] == [] && after[..0] == [];
    var one, two := After(start, a), After(After(start, a), b);
    assert Run(start, []) && End(start, []) == start;
    assert Run(start, [a]) && End(start, [a]) == one;
    assert Run(start, [a, b]) && End(start, [a, b]) == two;
    var three := After(two, d);
    assert Run(start, before) && End(start, before) == three;
    assert Run(three, []) && End(three, []) == three;
    assert End(three, after) == After(three, e);
  }
}
