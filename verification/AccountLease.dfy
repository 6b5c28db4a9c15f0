/** The distributed account lease: one row per account, decided by the store's clock, fenced by a fresh token. */
module AccountLease {
  import opened Options

  type Token = nat

  datatype Lease = Lease(owner: string, token: Token, until: int)

  datatype LeaseError = LeaseLost | Backend | InvalidLeaseDuration | AlreadyRunning

  predicate IsLive(row: Option<Lease>, now: int) {
    row.Some? && row.value.until > now
  }

  predicate Holds(row: Option<Lease>, owner: string, token: Token, now: int) {
    IsLive(row, now) && row.value.owner == owner && row.value.token == token
  }

  // ---- The store's operations on the row, at store time `now`

  // A live row of anybody refuses; an expired or absent one is taken over.
  function Acquire(row: Option<Lease>, now: int, owner: string, token: Token, duration: int): (r: (Option<Lease>, Option<Lease>)) {
    if IsLive(row, now) then (row, None)
    else
      var lease := Lease(owner, token, now + duration);
      (Some(lease), Some(lease))
  }

  function Heartbeat(row: Option<Lease>, now: int, owner: string, token: Token, duration: int)
    : (Option<Lease>, Result<Lease, LeaseError>)
  {
    if !Holds(row, owner, token, now) then (row, Err(LeaseLost))
    else
      var lease := row.value.(until := now + duration);
      (Some(lease), Ok(lease))
  }

  function Release(row: Option<Lease>, now: int, owner: string, token: Token): (Option<Lease>, Result<(), LeaseError>) {
    if Holds(row, owner, token, now) then (None, Ok(())) else (row, Err(LeaseLost))
  }

  // ---- Store calls as they arrive, in order

  datatype Call =
    | AcquireCall(owner: string, token: Token, duration: int)
    | HeartbeatCall(owner: string, token: Token, duration: int)
    | ReleaseCall(owner: string, token: Token)

  // A call and the store time at which it is decided.
  datatype Timed = Timed(at: int, call: Call)

  function Decide(row: Option<Lease>, t: Timed): Option<Lease> {
    match t.call
    case AcquireCall(owner, token, duration) => Acquire(row, t.at, owner, token, duration).0
    case HeartbeatCall(owner, token, duration) => Heartbeat(row, t.at, owner, token, duration).0
    case ReleaseCall(owner, token) => Release(row, t.at, owner, token).0
  }

  function DecideAll(row: Option<Lease>, calls: seq<Timed>): Option<Lease> {
    if calls == [] then row else Decide(DecideAll(row, calls[..|calls| - 1]), calls[|calls| - 1])
  }

  // No acquisition uses this token: tokens are drawn fresh.
  predicate NotReused(calls: seq<Timed>, token: Token) {
    forall k :: 0 <= k < |calls| ==> !(calls[k].call.AcquireCall? && calls[k].call.token == token)
  }

  predicate InTime(calls: seq<Timed>, from: int, to: int) {
    && (forall k :: 0 <= k < |calls| ==> from <= calls[k].at <= to)
    && (forall j, k :: 0 <= j < k < |calls| ==> calls[j].at <= calls[k].at)
  }

  lemma DeadAfterCall(row: Option<Lease>, owner: string, token: Token, now: int, t: Timed, later: int)
    requires !Holds(row, owner, token, now) && now <= t.at <= later
    requires !(t.call.AcquireCall? && t.call.token == token)
    ensures !Holds(Decide(row, t), owner, token, later)
  {
  }

  /** A token that does not hold the lease never holds it again, whatever calls arrive. */
  lemma {:induction false} DeadTokensStayDead(row: Option<Lease>, owner: string, token: Token, now: int, calls: seq<Timed>, later: int)
    requires !Holds(row, owner, token, now) && InTime(calls, now, later) && now <= later && NotReused(calls, token)
    ensures !Holds(DecideAll(row, calls), owner, token, later)
  {
    if calls != [] {
      var n := |calls| - 1;
      DeadTokensStayDead(row, owner, token, now, calls[..n], calls[n].at);
      DeadAfterCall(DecideAll(row, calls[..n]), owner, token, calls[n].at, calls[n], later);
    }
  }

  lemma ReleaseTakesTheToken(row: Option<Lease>, now: int, owner: string, token: Token)
    ensures !Holds(Release(row, now, owner, token).0, owner, token, now)
  {
  }

  /**
   * A repeated release never frees another owner's lease: after the first release was decided, a second
   * one with the same token changes nothing, whatever other calls came between.
   */
  lemma SecondReleaseChangesNothing(row: Option<Lease>, owner: string, token: Token, first: int, calls: seq<Timed>, second: int)
    requires InTime(calls, first, second) && first <= second && NotReused(calls, token)
    ensures var between := DecideAll(Release(row, first, owner, token).0, calls);
      Release(between, second, owner, token) == (between, Err(LeaseLost))
  {
    ReleaseTakesTheToken(row, first, owner, token);
    DeadTokensStayDead(Release(row, first, owner, token).0, owner, token, first, calls, second);
  }

  /** A release by anyone else, or with an older token, leaves a live lease in place. */
  lemma ReleaseNeedsTheToken(row: Option<Lease>, now: int, owner: string, token: Token)
    requires IsLive(row, now) && row.value.token != token
    ensures Release(row, now, owner, token) == (row, Err(LeaseLost))
    ensures forall d :: Heartbeat(row, now, owner, token, d) == (row, Err(LeaseLost))
  {
  }

  // ---- The guard

  // Whether a request reaches the store, and its answer the caller.
  datatype Line = Line(reaches: bool, answers: bool)

  class LeaseStore {
    var row: Option<Lease>
    var now: int
    var nextToken: Token

    constructor (row: Option<Lease>, now: int, nextToken: Token)
      ensures this.row == row && this.now == now && this.nextToken == nextToken
    {
      this.row, this.now, this.nextToken := row, now, nextToken;
    }
  }

  class AccountLeaseGuard {
    const store: LeaseStore
    var lease: Lease
    var cancelled: bool

    // For a lease that was just acquired.
    constructor (store: LeaseStore, lease: Lease)
      ensures this.store == store && this.lease == lease && !cancelled
    {
      this.store, this.lease, cancelled := store, lease, false;
    }

    method EnsureUsable() returns (r: Result<(), LeaseError>)
      ensures r == if cancelled then Err(LeaseLost) else Ok(())
    {
      r := if cancelled then Err(LeaseLost) else Ok(());
    }

    // Any failure, a lost request or answer among them, cancels the guard for good.
    method SendHeartbeat(duration: int, line: Line) returns (r: Result<(), LeaseError>)
      modifies this, store
      ensures store.row == if old(cancelled) || !line.reaches then old(store.row)
                           else Heartbeat(old(store.row), old(store.now), old(lease).owner, old(lease).token, duration).0
      ensures r.Ok? <==> !old(cancelled) && line.reaches && line.answers
                         && Holds(old(store.row), old(lease).owner, old(lease).token, old(store.now))
      ensures cancelled <==> r.Err?
      ensures r.Ok? ==> store.row == Some(lease) && lease == old(lease).(until := store.now + duration)
      ensures r.Err? ==> lease == old(lease)
      ensures store.now == old(store.now) && store.nextToken == old(store.nextToken)
    {
      var usable := EnsureUsable();
      if usable.Err? {
        return usable;
      }
      var (row, answer) := Heartbeat(store.row, store.now, lease.owner, lease.token, duration);
      if line.reaches {
        store.row := row;
      }
      if !line.reaches || !line.answers {
        cancelled := true;
        return Err(Backend);
      }
      match answer {
        case Ok(extended) =>
          lease := extended;
          r := Ok(());
        case Err(error) =>
          cancelled := true;
          r := Err(error);
      }
    }

    // The bit is set before the request goes out.
    method SendRelease(line: Line) returns (r: Result<(), LeaseError>)
      modifies this, store
      ensures cancelled && lease == old(lease)
      ensures store.row == if line.reaches then Release(old(store.row), store.now, lease.owner, lease.token).0 else old(store.row)
      ensures r.Ok? <==> line.reaches && line.answers && Holds(old(store.row), lease.owner, lease.token, store.now)
      ensures line.reaches ==> !Holds(store.row, lease.owner, lease.token, store.now)
      ensures store.now == old(store.now) && store.nextToken == old(store.nextToken)
    {
      cancelled := true;
      var (row, answer) := Release(store.row, store.now, lease.owner, lease.token);
      if line.reaches {
        store.row := row;
      }
      if !line.reaches || !line.answers {
        return Err(Backend);
      }
      r := answer;
    }
  }

  // Acquiring draws a fresh token; another live owner refuses.
  method AcquireGuard(store: LeaseStore, owner: string, duration: int, line: Line)
    returns (r: Result<Option<AccountLeaseGuard>, LeaseError>)
    modifies store
    ensures store.now == old(store.now) && store.nextToken == old(store.nextToken) + 1
    ensures store.row == if line.reaches then Acquire(old(store.row), store.now, owner, old(store.nextToken), duration).0
                         else old(store.row)
    ensures r.Ok? <==> line.reaches && line.answers
    ensures r.Ok? ==> (r.value.Some? <==> !IsLive(old(store.row), store.now))
    ensures r.Ok? && r.value.Some? ==>
      && fresh(r.value.value) && r.value.value.store == store && !r.value.value.cancelled
      && r.value.value.lease == Lease(owner, old(store.nextToken), store.now + duration) && store.row == Some(r.value.value.lease)
  {
    var token := store.nextToken;
    store.nextToken := token + 1;
    var (row, acquired) := Acquire(store.row, store.now, owner, token, duration);
    if line.reaches {
      store.row := row;
    }
    if !line.reaches || !line.answers {
      return Err(Backend);
    }
    if acquired.None? {
      return Ok(None);
    }
    var guard := new AccountLeaseGuard(store, acquired.value);
    r := Ok(Some(guard));
  }
}
