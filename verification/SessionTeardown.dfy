/** Opening and tearing down an authenticated browser session, its future dropped at any await or never. */
module SessionTeardown {
  import opened Options
  import opened AccountLease

  type ClientId = nat

  // What reaches the outside: in the order it was issued.
  datatype Event =
    | HeartbeatEnded(aborted: bool)
    | BrowserClosing(client: ClientId)
    | HandleAbandoned(client: ClientId)
    | ClientDropped(client: ClientId)
    | ReleaseSent(owner: string, token: Token)

  // Every release comes after the heartbeat ended.
  ghost predicate ReleasedAfterHeartbeat(events: seq<Event>) {
    forall k :: 0 <= k < |events| && events[k].ReleaseSent? ==> exists j :: 0 <= j < k && events[j].HeartbeatEnded?
  }

  // Where the release future is dropped, if its await is reached at all.
  datatype DropPoint = BeforeStart | AtHeartbeatStop | AtBrowserClose | AtLeaseRelease(sent: bool) | NeverDropped

  // How the parts answer: an earlier heartbeat failure, the WebDriver quit, the store's release.
  datatype Answers = Answers(heartbeatFailed: bool, quit: bool, released: bool)

  // The local capacity.
  class BrowserPool {
    const capacity: nat
    var permits: nat
    var closed: bool

    constructor (capacity: nat)
      requires capacity > 0
      ensures this.capacity == capacity && permits == capacity && !closed
    {
      this.capacity, permits, closed := capacity, capacity, false;
    }
  }

  class AuthenticatedBrowserSession {
    const pool: BrowserPool
    const runtime: bool
    var lease: Option<Lease>
    var heartbeat: bool
    var client: Option<ClientId>
    var cleanup: bool
    var permit: bool
    var events: seq<Event>

    constructor (pool: BrowserPool, runtime: bool, lease: Lease)
      ensures this.pool == pool && this.runtime == runtime && this.lease == Some(lease)
      ensures !heartbeat && client == None && cleanup && permit && events == []
    {
      this.pool, this.runtime, this.lease := pool, runtime, Some(lease);
      heartbeat, client, cleanup, permit, events := false, None, true, true, [];
    }

    // In use: everything still belongs to the session.
    predicate IsOpen()
      reads this
    {
      lease.Some? && cleanup && permit && events == []
    }

    // Nothing is left behind.
    predicate IsGone()
      reads this
    {
      !heartbeat && client.None? && !cleanup && !permit
    }

    method AttachClient(c: ClientId)
      requires IsOpen() && client.None?
      modifies this
      ensures IsOpen() && client == Some(c) && lease == old(lease) && heartbeat == old(heartbeat)
    {
      client := Some(c);
    }

    // A second heartbeat is refused; so are periods that do not fit the lease.
    method StartLeaseHeartbeat(period: int, duration: int, usable: bool) returns (r: Result<(), LeaseError>)
      modifies this`heartbeat
      ensures r.Ok? <==> !old(heartbeat) && usable && 0 < period < duration
      ensures heartbeat == (old(heartbeat) || r.Ok?)
      ensures old(heartbeat) ==> r == Err(AlreadyRunning)
    {
      if heartbeat {
        return Err(AlreadyRunning);
      }
      if !usable {
        return Err(LeaseLost);
      }
      if period <= 0 || duration <= 0 || period >= duration {
        return Err(InvalidLeaseDuration);
      }
      heartbeat := true;
      r := Ok(());
    }

    // Hands the client to the closing task; a clone is abandoned unless the quit succeeds in time.
    method CloseWebDriver(c: ClientId, quit: bool, dropped: bool) returns (ok: bool)
      modifies this`events
      ensures ok == (quit && !dropped)
      ensures events == old(events) + Closing(c, ok)
    {
      events := events + [BrowserClosing(c)];
      ok := quit && !dropped;
      if !ok {
        events := events + [HandleAbandoned(c)];
      }
    }

    // What the cleanup closure does with what it is handed. The spawned task runs to its end.
    method ScheduleCleanup(l: Option<Lease>, c: Option<ClientId>, h: bool, a: Answers)
      modifies this`events
      ensures events == old(events) + CleanupEvents(runtime, l, c, h, a)
    {
      if h {
        events := events + [HeartbeatEnded(true)];
      }
      if !runtime {
        if c.Some? {
          events := events + [ClientDropped(c.value)];
        }
        return;
      }
      if l.Some? {
        events := events + [ReleaseSent(l.value.owner, l.value.token)];
      }
      if c.Some? {
        var _ := CloseWebDriver(c.value, a.quit, false);
      }
    }

    // The Drop implementation, then the fields: the permit goes back to the pool.
    method Drop(a: Answers)
      requires permit
      modifies this, pool
      ensures IsGone() && pool.permits == old(pool.permits) + 1 && pool.closed == old(pool.closed)
      ensures events == old(events) + (if old(cleanup) then CleanupEvents(runtime, old(lease), old(client), old(heartbeat), a)
                                       else if old(heartbeat) then [HeartbeatEnded(true)] else [])
    {
      if cleanup {
        cleanup := false;
        var l, c, h := lease, client, heartbeat;
        lease, client, heartbeat := None, None, false;
        ScheduleCleanup(l, c, h, a);
      } else {
        if heartbeat {
          events := events + [HeartbeatEnded(true)];
        }
        client, heartbeat := None, false;
      }
      permit := false;
      pool.permits := pool.permits + 1;
    }

    // The release future. `None` is a future dropped before it finished.
    method Release(drop: DropPoint, a: Answers) returns (r: Option<Result<(), LeaseError>>)
      requires IsOpen()
      modifies this, pool
      ensures IsGone() && pool.permits == old(pool.permits) + 1 && pool.closed == old(pool.closed)
      ensures events == ReleaseEvents(runtime, old(lease).value, old(client), old(heartbeat), drop, a)
      ensures r.None? <==> DroppedAt(drop, old(heartbeat), old(client))
      ensures r.Some? ==> (r.value.Ok? <==>
        a.released && (old(heartbeat) ==> !a.heartbeatFailed) && (old(client).Some? ==> a.quit))
    {
      hide CleanupEvents, Closing;
      if drop.BeforeStart? {
        Drop(a);
        return None;
      }
      var beating, hasClient := heartbeat, client.Some?;
      var stopped := StopLeaseHeartbeat(drop.AtHeartbeatStop?, a.heartbeatFailed);
      if drop.AtHeartbeatStop? && beating {
        Drop(a);
        return None;
      }
      var closed := CloseClient(a.quit, drop.AtBrowserClose?);
      if drop.AtBrowserClose? && hasClient {
        Drop(a);
        return None;
      }
      if drop.AtLeaseRelease? {
        if drop.sent {
          events := events + [ReleaseSent(lease.value.owner, lease.value.token)];
        } else {
          NothingAdded(events);
        }
        Drop(a);
        return None;
      }
      events := events + [ReleaseSent(lease.value.owner, lease.value.token)];
      if a.released {
        lease, cleanup := None, false;
        NothingAdded(events);
      }
      Drop(a);
      if !a.released {
        return Some(Err(LeaseLost));
      }
      r := if closed && stopped then Some(Ok(())) else Some(Err(Backend));
    }

    // Stopping takes the handle out first; a stop that is dropped aborts the task.
    method StopLeaseHeartbeat(dropped: bool, failed: bool) returns (ok: bool)
      requires events == []
      modifies this`heartbeat, this`events
      ensures !heartbeat && events == Stopping(old(heartbeat), dropped)
      ensures ok <==> (old(heartbeat) ==> !failed)
    {
      if heartbeat {
        heartbeat := false;
        events := [HeartbeatEnded(dropped)];
        return !failed;
      }
      ok := true;
    }

    method CloseClient(quit: bool, dropped: bool) returns (ok: bool)
      modifies this`client, this`events
      ensures client == None
      ensures events == old(events) + ClosingAny(old(client), quit && !dropped)
      ensures ok <==> (old(client).Some? ==> quit && !dropped)
    {
      if client.Some? {
        var c := client.value;
        client := None;
        ok := CloseWebDriver(c, quit, dropped);
      } else {
        NothingAdded(events);
        ok := true;
      }
    }
  }

  /** Closing hands the client over once, and abandons its handle exactly if the quit did not succeed in time. */
  lemma ClosingAbandonsUnless(before: seq<Event>, c: ClientId, ok: bool)
    ensures var after := before + Closing(c, ok);
      && multiset(after)[HandleAbandoned(c)] == multiset(before)[HandleAbandoned(c)] + (if ok then 0 else 1)
      && multiset(after)[BrowserClosing(c)] == multiset(before)[BrowserClosing(c)] + 1
  {
    assert multiset(before + Closing(c, ok)) == multiset(before) + multiset(Closing(c, ok));
  }

  lemma NothingAdded(events: seq<Event>)
    ensures events + [] == events
  {
  }

  // ---- The specification of the event orders

  function Closing(c: ClientId, ok: bool): seq<Event> {
    [BrowserClosing(c)] + (if ok then [] else [HandleAbandoned(c)])
  }

  function Stopping(heartbeat: bool, dropped: bool): seq<Event> {
    if heartbeat then [HeartbeatEnded(dropped)] else []
  }

  function ClosingAny(c: Option<ClientId>, ok: bool): seq<Event> {
    if c.Some? then Closing(c.value, ok) else []
  }

  function Sending(l: Option<Lease>): seq<Event> {
    if l.Some? then [ReleaseSent(l.value.owner, l.value.token)] else []
  }

  function CleanupEvents(runtime: bool, l: Option<Lease>, c: Option<ClientId>, h: bool, a: Answers): seq<Event> {
    if runtime then Stopping(h, true) + Sending(l) + ClosingAny(c, a.quit)
    else Stopping(h, true) + (if c.Some? then [ClientDropped(c.value)] else [])
  }

  predicate DroppedAt(drop: DropPoint, heartbeat: bool, client: Option<ClientId>) {
    match drop
    case BeforeStart => true
    case AtHeartbeatStop => heartbeat
    case AtBrowserClose => client.Some?
    case AtLeaseRelease(_) => true
    case NeverDropped => false
  }

  function ReleaseEvents(runtime: bool, lease: Lease, client: Option<ClientId>, heartbeat: bool, drop: DropPoint, a: Answers)
    : seq<Event>
  {
    if drop.BeforeStart? then [] + CleanupEvents(runtime, Some(lease), client, heartbeat, a)
    else if drop.AtHeartbeatStop? && heartbeat then
      Stopping(true, true) + CleanupEvents(runtime, Some(lease), client, false, a)
    else
      var send := Sending(Some(lease));
      var cleaned := CleanupEvents(runtime, Some(lease), None, false, a);
      var ended := Stopping(heartbeat, drop.AtHeartbeatStop?) + ClosingAny(client, a.quit && !drop.AtBrowserClose?);
      if drop.AtBrowserClose? && client.Some? then ended + cleaned
      else if drop.AtLeaseRelease? then ended + (if drop.sent then send else []) + cleaned
      else ended + send + (if a.released then [] else cleaned)
  }

  // How often each kind of event occurs.
  datatype Counts = Counts(releases: nat, closers: nat, drops: nat, abandoned: nat, stops: nat, aborts: nat)

  const NONE := Counts(0, 0, 0, 0, 0, 0)

  predicate IsSum(m: Counts, n: Counts, sum: Counts) {
    && sum.releases == m.releases + n.releases && sum.closers == m.closers + n.closers && sum.drops == m.drops + n.drops
    && sum.abandoned == m.abandoned + n.abandoned && sum.stops == m.stops + n.stops && sum.aborts == m.aborts + n.aborts
  }

  function Releases(r: nat): Counts {
    Counts(r, 0, 0, 0, 0, 0)
  }

  // The counts for one lease and one client; no other lease is released and no other client closed, dropped or abandoned.
  ghost predicate Tally(events: seq<Event>, lease: Lease, client: ClientId, n: Counts) {
    && multiset(events)[ReleaseSent(lease.owner, lease.token)] == n.releases
    && multiset(events)[BrowserClosing(client)] == n.closers
    && multiset(events)[ClientDropped(client)] == n.drops
    && multiset(events)[HandleAbandoned(client)] == n.abandoned
    && multiset(events)[HeartbeatEnded(false)] == n.stops
    && multiset(events)[HeartbeatEnded(true)] == n.aborts
    && forall e :: e in events ==> IsOwn(e, lease, client)
  }

  predicate IsOwn(e: Event, lease: Lease, client: ClientId) {
    match e
    case ReleaseSent(owner, token) => owner == lease.owner && token == lease.token
    case BrowserClosing(c) => c == client
    case ClientDropped(c) => c == client
    case HandleAbandoned(c) => c == client
    case HeartbeatEnded(_) => true
  }

  function One(b: bool): nat {
    if b then 1 else 0
  }

  function CountOf(e: Event): Counts {
    Counts(One(e.ReleaseSent?), One(e.BrowserClosing?), One(e.ClientDropped?), One(e.HandleAbandoned?),
           One(e == HeartbeatEnded(false)), One(e == HeartbeatEnded(true)))
  }

  lemma TallyConcat(a: seq<Event>, b: seq<Event>, lease: Lease, client: ClientId, m: Counts, n: Counts, sum: Counts)
    requires Tally(a, lease, client, m) && Tally(b, lease, client, n) && IsSum(m, n, sum)
    ensures Tally(a + b, lease, client, sum)
  {
    hide IsOwn;
  }

  lemma TallyNone(lease: Lease, client: ClientId)
    ensures Tally([], lease, client, NONE)
  {
  }

  lemma TallyOne(e: Event, lease: Lease, client: ClientId)
    requires IsOwn(e, lease, client)
    ensures Tally([e], lease, client, CountOf(e))
  {
  }

  // The heartbeat's end.
  function Stopped(heartbeat: bool, dropped: bool): Counts {
    Counts(0, 0, 0, 0, One(heartbeat && !dropped), One(heartbeat && dropped))
  }

  lemma TallyStopping(lease: Lease, client: ClientId, heartbeat: bool, dropped: bool)
    ensures Tally(Stopping(heartbeat, dropped), lease, client, Stopped(heartbeat, dropped))
  {
    hide Tally;
    TallyNone(lease, client);
    TallyOne(HeartbeatEnded(dropped), lease, client);
  }

  lemma TallySending(lease: Lease, client: ClientId)
    ensures Tally(Sending(Some(lease)), lease, client, Releases(1))
  {
    hide Tally;
    TallyOne(ReleaseSent(lease.owner, lease.token), lease, client);
  }

  // A client given to a closer, which may fail to quit it.
  function Closed(hasClient: bool, ok: bool): Counts {
    Counts(0, One(hasClient), 0, One(hasClient && !ok), 0, 0)
  }

  lemma TallyClosing(lease: Lease, client: ClientId, hasClient: bool, ok: bool)
    ensures Tally(ClosingAny(if hasClient then Some(client) else None, ok), lease, client, Closed(hasClient, ok))
  {
    TallyNone(lease, client);
    TallyQuit(lease, client);
    TallyAbandoned(lease, client);
    hide Tally, Closing;
  }

  lemma TallyQuit(lease: Lease, client: ClientId)
    ensures Tally(Closing(client, true), lease, client, Closed(true, true))
  {
    NothingAdded([BrowserClosing(client)]);
    TallyOne(BrowserClosing(client), lease, client);
    hide Tally;
  }

  lemma TallyAbandoned(lease: Lease, client: ClientId)
    ensures Tally(Closing(client, false), lease, client, Closed(true, false))
  {
    var e, f := BrowserClosing(client), HandleAbandoned(client);
    OwnClosing(lease, client);
    hide *;
    TallyOne(e, lease, client);
    TallyOne(f, lease, client);
    TallyConcat([e], [f], lease, client, CountOf(e), CountOf(f), Closed(true, false));
  }

  lemma OwnClosing(lease: Lease, client: ClientId)
    ensures IsOwn(BrowserClosing(client), lease, client) && IsOwn(HandleAbandoned(client), lease, client)
    ensures Closing(client, false) == [BrowserClosing(client)] + [HandleAbandoned(client)]
    ensures IsSum(CountOf(BrowserClosing(client)), CountOf(HandleAbandoned(client)), Closed(true, false))
  {
  }

  // What the cleanup does with a client and a heartbeat.
  function Cleaned(runtime: bool, hasClient: bool, heartbeat: bool, quit: bool): Counts {
    Counts(One(runtime), One(runtime && hasClient), One(!runtime && hasClient), One(runtime && hasClient && !quit), 0, One(heartbeat))
  }

  lemma TallyCleanup(runtime: bool, lease: Lease, client: ClientId, hasClient: bool, heartbeat: bool, a: Answers)
    ensures Tally(CleanupEvents(runtime, Some(lease), if hasClient then Some(client) else None, heartbeat, a),
                  lease, client, Cleaned(runtime, hasClient, heartbeat, a.quit))
  {
    if runtime {
      TallySpawned(lease, client, hasClient, heartbeat, a);
    } else {
      TallyInPlace(lease, client, hasClient, heartbeat, a);
    }
  }

  lemma TallySpawned(lease: Lease, client: ClientId, hasClient: bool, heartbeat: bool, a: Answers)
    ensures Tally(CleanupEvents(true, Some(lease), if hasClient then Some(client) else None, heartbeat, a),
                  lease, client, Cleaned(true, hasClient, heartbeat, a.quit))
  {
    var c, stopped, sent := if hasClient then Some(client) else None, Stopping(heartbeat, true), Sending(Some(lease));
    assert CleanupEvents(true, Some(lease), c, heartbeat, a) == stopped + sent + ClosingAny(c, a.quit);
    TallyAborted(lease, client, heartbeat);
    TallyClosing(lease, client, hasClient, a.quit);
    SpawnedCounts(hasClient, heartbeat, a.quit);
    hide *;
    TallyConcat(stopped + sent, ClosingAny(c, a.quit), lease, client, Aborted(heartbeat),
                Closed(hasClient, a.quit), Cleaned(true, hasClient, heartbeat, a.quit));
  }

  // A release after an aborted heartbeat.
  function Aborted(heartbeat: bool): Counts {
    Counts(1, 0, 0, 0, 0, One(heartbeat))
  }

  lemma TallyAborted(lease: Lease, client: ClientId, heartbeat: bool)
    ensures Tally(Stopping(heartbeat, true) + Sending(Some(lease)), lease, client, Aborted(heartbeat))
  {
    hide Tally, Stopping, Sending;
    TallyStopping(lease, client, heartbeat, true);
    TallySending(lease, client);
    TallyConcat(Stopping(heartbeat, true), Sending(Some(lease)), lease, client, Stopped(heartbeat, true), Releases(1),
                Aborted(heartbeat));
  }

  lemma SpawnedCounts(hasClient: bool, heartbeat: bool, quit: bool)
    ensures IsSum(Aborted(heartbeat), Closed(hasClient, quit), Cleaned(true, hasClient, heartbeat, quit))
  {
  }

  lemma TallyInPlace(lease: Lease, client: ClientId, hasClient: bool, heartbeat: bool, a: Answers)
    ensures Tally(CleanupEvents(false, Some(lease), if hasClient then Some(client) else None, heartbeat, a),
                  lease, client, Cleaned(false, hasClient, heartbeat, a.quit))
  {
    var c, dropped := if hasClient then Some(client) else None, if hasClient then [ClientDropped(client)] else [];
    assert CleanupEvents(false, Some(lease), c, heartbeat, a) == Stopping(heartbeat, true) + dropped;
    TallyDropped(lease, client, hasClient);
    InPlaceCounts(hasClient, heartbeat, a.quit);
    hide *;
    TallyStopping(lease, client, heartbeat, true);
    TallyConcat(Stopping(heartbeat, true), dropped, lease, client, Stopped(heartbeat, true),
                Dropped(hasClient), Cleaned(false, hasClient, heartbeat, a.quit));
  }

  // A client dropped in place.
  function Dropped(hasClient: bool): Counts {
    Counts(0, 0, One(hasClient), 0, 0, 0)
  }

  lemma TallyDropped(lease: Lease, client: ClientId, hasClient: bool)
    ensures Tally(if hasClient then [ClientDropped(client)] else [], lease, client, Dropped(hasClient))
  {
    TallyNone(lease, client);
    TallyOne(ClientDropped(client), lease, client);
    hide Tally;
  }

  lemma InPlaceCounts(hasClient: bool, heartbeat: bool, quit: bool)
    ensures IsSum(Stopped(heartbeat, true), Dropped(hasClient), Cleaned(false, hasClient, heartbeat, quit))
  {
  }

  // The release itself reaches the store.
  predicate SendsItself(drop: DropPoint, heartbeat: bool, client: Option<ClientId>) {
    !DroppedAt(drop, heartbeat, client) || (drop.AtLeaseRelease? && drop.sent)
  }

  // The cleanup still has the lease to release.
  predicate LeavesTheLease(drop: DropPoint, heartbeat: bool, client: Option<ClientId>, a: Answers) {
    DroppedAt(drop, heartbeat, client) || !a.released
  }

  // The cleanup still has the client.
  predicate LeavesTheClient(drop: DropPoint, heartbeat: bool) {
    drop.BeforeStart? || (drop.AtHeartbeatStop? && heartbeat)
  }

  // The heartbeat is aborted instead of stopped.
  predicate Aborts(drop: DropPoint) {
    drop.BeforeStart? || drop.AtHeartbeatStop?
  }

  // What a teardown does, in numbers.
  function Torn(runtime: bool, client: Option<ClientId>, heartbeat: bool, drop: DropPoint, a: Answers): Counts {
    var inPlace := !runtime && LeavesTheClient(drop, heartbeat);
    Counts(One(SendsItself(drop, heartbeat, client)) + One(runtime && LeavesTheLease(drop, heartbeat, client, a)),
           One(client.Some? && !inPlace), One(client.Some? && inPlace), One(client.Some? && !inPlace && CloserFails(drop, a)),
           One(heartbeat && !Aborts(drop)), One(heartbeat && Aborts(drop)))
  }

  // The quit fails, or is dropped before it is known to have succeeded.
  predicate CloserFails(drop: DropPoint, a: Answers) {
    !a.quit || drop.AtBrowserClose?
  }

  lemma TallyRelease(runtime: bool, lease: Lease, client: ClientId, hasClient: bool, heartbeat: bool, drop: DropPoint, a: Answers)
    ensures var c := if hasClient then Some(client) else None;
      Tally(ReleaseEvents(runtime, lease, c, heartbeat, drop, a), lease, client, Torn(runtime, c, heartbeat, drop, a))
  {
    if drop.BeforeStart? {
      TallyUnstarted(runtime, lease, client, hasClient, heartbeat, drop, a);
    } else if drop.AtHeartbeatStop? && heartbeat {
      TallyUnstopped(runtime, lease, client, hasClient, drop, a);
    } else {
      TallyLater(runtime, lease, client, hasClient, heartbeat, drop, a);
    }
  }

  lemma TallyUnstarted(runtime: bool, lease: Lease, client: ClientId, hasClient: bool, heartbeat: bool, drop: DropPoint, a: Answers)
    requires drop.BeforeStart?
    ensures var c := if hasClient then Some(client) else None;
      Tally(ReleaseEvents(runtime, lease, c, heartbeat, drop, a), lease, client, Torn(runtime, c, heartbeat, drop, a))
  {
    hide Tally, CleanupEvents;
    var c := if hasClient then Some(client) else None;
    assert [] + CleanupEvents(runtime, Some(lease), c, heartbeat, a) == CleanupEvents(runtime, Some(lease), c, heartbeat, a);
    TallyCleanup(runtime, lease, client, hasClient, heartbeat, a);
    assert Torn(runtime, c, heartbeat, drop, a) == Cleaned(runtime, hasClient, heartbeat, a.quit);
  }

  // Dropped while the heartbeat stops.
  lemma TallyUnstopped(runtime: bool, lease: Lease, client: ClientId, hasClient: bool, drop: DropPoint, a: Answers)
    requires drop.AtHeartbeatStop?
    ensures var c := if hasClient then Some(client) else None;
      Tally(ReleaseEvents(runtime, lease, c, true, drop, a), lease, client, Torn(runtime, c, true, drop, a))
  {
    var c := if hasClient then Some(client) else None;
    var cleaned := CleanupEvents(runtime, Some(lease), c, false, a);
    assert ReleaseEvents(runtime, lease, c, true, drop, a) == Stopping(true, true) + cleaned;
    UnstoppedCounts(runtime, c, drop, a);
    hide *;
    TallyStopping(lease, client, true, true);
    TallyCleanup(runtime, lease, client, hasClient, false, a);
    TallyConcat(Stopping(true, true), cleaned, lease, client, Stopped(true, true), Cleaned(runtime, hasClient, false, a.quit),
                Torn(runtime, c, true, drop, a));
  }

  lemma UnstoppedCounts(runtime: bool, client: Option<ClientId>, drop: DropPoint, a: Answers)
    requires drop.AtHeartbeatStop?
    ensures IsSum(Stopped(true, true), Cleaned(runtime, client.Some?, false, a.quit), Torn(runtime, client, true, drop, a))
  {
  }

  // Past the heartbeat.
  lemma TallyLater(runtime: bool, lease: Lease, client: ClientId, hasClient: bool, heartbeat: bool, drop: DropPoint, a: Answers)
    requires !LeavesTheClient(drop, heartbeat)
    ensures var c := if hasClient then Some(client) else None;
      Tally(ReleaseEvents(runtime, lease, c, heartbeat, drop, a), lease, client, Torn(runtime, c, heartbeat, drop, a))
  {
    var c, ok := if hasClient then Some(client) else None, a.quit && !drop.AtBrowserClose?;
    var ended := Stopping(heartbeat, drop.AtHeartbeatStop?) + ClosingAny(c, ok);
    var cleaned := CleanupEvents(runtime, Some(lease), None, false, a);
    hide *;
    LaterEvents(runtime, lease, c, heartbeat, drop, a);
    LaterCounts(runtime, c, heartbeat, drop, a);
    TallyEnded(lease, client, hasClient, heartbeat, drop.AtHeartbeatStop?, ok);
    TallyCleanup(runtime, lease, client, false, false, a);
    TallyEnds(ReleaseEvents(runtime, lease, c, heartbeat, drop, a), ended, cleaned, lease, client,
              hasClient, heartbeat, drop.AtHeartbeatStop?, ok, One(runtime),
              SendsItself(drop, heartbeat, c), LeavesTheLease(drop, heartbeat, c, a));
  }

  // The end of the heartbeat, the closing, and so many releases.
  function Ended(hasClient: bool, heartbeat: bool, dropped: bool, ok: bool, r: nat): Counts {
    Counts(r, One(hasClient), 0, One(hasClient && !ok), One(heartbeat && !dropped), One(heartbeat && dropped))
  }

  // Which of the four endings a release has, past the heartbeat.
  lemma LaterEvents(runtime: bool, lease: Lease, client: Option<ClientId>, heartbeat: bool, drop: DropPoint, a: Answers)
    requires !LeavesTheClient(drop, heartbeat)
    ensures var events := ReleaseEvents(runtime, lease, client, heartbeat, drop, a);
      var ended := Stopping(heartbeat, drop.AtHeartbeatStop?) + ClosingAny(client, a.quit && !drop.AtBrowserClose?);
      var cleaned, send := CleanupEvents(runtime, Some(lease), None, false, a), Sending(Some(lease));
      var sends, leaves := SendsItself(drop, heartbeat, client), LeavesTheLease(drop, heartbeat, client, a);
      && (sends || leaves)
      && (!sends ==> events == ended + cleaned || events == ended + [] + cleaned)
      && (sends && leaves ==> events == ended + send + cleaned)
      && (sends && !leaves ==> events == ended + send + [])
  {
    hide Stopping, ClosingAny, CleanupEvents, Sending;
  }

  lemma LaterCounts(runtime: bool, client: Option<ClientId>, heartbeat: bool, drop: DropPoint, a: Answers)
    requires !LeavesTheClient(drop, heartbeat)
    ensures var sends, leaves := SendsItself(drop, heartbeat, client), LeavesTheLease(drop, heartbeat, client, a);
      && Cleaned(runtime, false, false, a.quit) == Releases(One(runtime))
      && Torn(runtime, client, heartbeat, drop, a)
         == Ended(client.Some?, heartbeat, drop.AtHeartbeatStop?, a.quit && !drop.AtBrowserClose?,
                  if !sends then One(runtime) else if leaves then 1 + One(runtime) else 1)
  {
  }

  lemma TallyEnded(lease: Lease, client: ClientId, hasClient: bool, heartbeat: bool, dropped: bool, ok: bool)
    ensures Tally(Stopping(heartbeat, dropped) + ClosingAny(if hasClient then Some(client) else None, ok), lease, client,
                  Ended(hasClient, heartbeat, dropped, ok, 0))
  {
    hide Tally, Stopping, ClosingAny;
    TallyStopping(lease, client, heartbeat, dropped);
    TallyClosing(lease, client, hasClient, ok);
    TallyConcat(Stopping(heartbeat, dropped), ClosingAny(if hasClient then Some(client) else None, ok), lease, client,
                Stopped(heartbeat, dropped), Closed(hasClient, ok), Ended(hasClient, heartbeat, dropped, ok, 0));
  }

  lemma TallyEnds(events: seq<Event>, ended: seq<Event>, cleaned: seq<Event>, lease: Lease, client: ClientId,
                  hasClient: bool, heartbeat: bool, dropped: bool, ok: bool, r: nat, sends: bool, leaves: bool)
    requires Tally(ended, lease, client, Ended(hasClient, heartbeat, dropped, ok, 0))
    requires Tally(cleaned, lease, client, Releases(r))
    requires !sends ==> events == ended + cleaned || events == ended + [] + cleaned
    requires sends && leaves ==> events == ended + Sending(Some(lease)) + cleaned
    requires sends && !leaves ==> events == ended + Sending(Some(lease)) + []
    ensures Tally(events, lease, client, Ended(hasClient, heartbeat, dropped, ok, if !sends then r else if leaves then 1 + r else 1))
  {
    hide Tally, Sending, One;
    var send := Sending(Some(lease));
    var zero, one := Ended(hasClient, heartbeat, dropped, ok, 0), Ended(hasClient, heartbeat, dropped, ok, 1);
    if sends {
      TallySending(lease, client);
      TallyConcat(ended, send, lease, client, zero, Releases(1), one);
      NothingAdded(ended + send);
      TallyConcat(ended + send, cleaned, lease, client, one, Releases(r), Ended(hasClient, heartbeat, dropped, ok, 1 + r));
    } else {
      NothingAdded(ended);
      TallyConcat(ended, cleaned, lease, client, zero, Releases(r), Ended(hasClient, heartbeat, dropped, ok, r));
    }
  }

  // What every teardown keeps: no foreign lease is released and no foreign client touched, a heartbeat ends once and
  // before anything is released, a client goes to one closer or, only without a runtime, is dropped in place, and it
  // is abandoned, once, if and only if its closer failed.
  ghost predicate IsTidy(events: seq<Event>, runtime: bool, lease: Lease, client: Option<ClientId>, heartbeat: bool, failed: bool) {
    && (forall e :: e in events ==> (client.Some? && IsOwn(e, lease, client.value)) || IsOwnWithout(e, lease))
    && (heartbeat ==>
          && ReleasedAfterHeartbeat(events)
          && multiset(events)[HeartbeatEnded(true)] + multiset(events)[HeartbeatEnded(false)] == 1)
    && (client.Some? ==>
          && multiset(events)[BrowserClosing(client.value)] + multiset(events)[ClientDropped(client.value)] == 1
          && (runtime ==> ClientDropped(client.value) !in events)
          && multiset(events)[HandleAbandoned(client.value)]
             == One(failed && multiset(events)[BrowserClosing(client.value)] == 1))
  }

  // An event of a session without a client.
  predicate IsOwnWithout(e: Event, lease: Lease) {
    e.HeartbeatEnded? || e == ReleaseSent(lease.owner, lease.token)
  }

  /**
   * In every way the release can be dropped or finish, the teardown is tidy. The lease release is sent by the
   * release itself if it got that far, and once more by the cleanup if there is a runtime and the lease is left:
   * with a runtime once or twice, without one at most once.
   */
  lemma TeardownIsComplete(runtime: bool, lease: Lease, client: Option<ClientId>, heartbeat: bool, drop: DropPoint, a: Answers)
    ensures var events := ReleaseEvents(runtime, lease, client, heartbeat, drop, a);
      var sent := multiset(events)[ReleaseSent(lease.owner, lease.token)];
      && IsTidy(events, runtime, lease, client, heartbeat, CloserFails(drop, a))
      && (heartbeat ==> (HeartbeatEnded(true) in events <==> Aborts(drop)))
      && sent == One(SendsItself(drop, heartbeat, client)) + One(runtime && LeavesTheLease(drop, heartbeat, client, a))
      && (if runtime then 1 <= sent <= 2 else sent <= 1)
  {
    hide *;
    var events, c := ReleaseEvents(runtime, lease, client, heartbeat, drop, a), if client.Some? then client.value else 0;
    var n := Torn(runtime, client, heartbeat, drop, a);
    assert client == if client.Some? then Some(c) else None;
    TallyRelease(runtime, lease, c, client.Some?, heartbeat, drop, a);
    if heartbeat {
      HeartbeatIsFirst(runtime, lease, client, drop, a);
    }
    if client.None? {
      NoClientEvents(runtime, lease, heartbeat, drop, a);
    }
    TornIs(runtime, client, heartbeat, drop, a);
    TallyIsTidy(events, runtime, lease, client, c, heartbeat, n, CloserFails(drop, a), Aborts(drop));
  }

  lemma TornIs(runtime: bool, client: Option<ClientId>, heartbeat: bool, drop: DropPoint, a: Answers)
    ensures var n := Torn(runtime, client, heartbeat, drop, a);
      && n.releases == One(SendsItself(drop, heartbeat, client)) + One(runtime && LeavesTheLease(drop, heartbeat, client, a))
      && (if runtime then 1 <= n.releases <= 2 else n.releases <= 1)
      && (client.Some? ==> n.closers + n.drops == 1 && n.abandoned == One(CloserFails(drop, a) && n.closers == 1))
      && (runtime ==> n.drops == 0)
      && n.aborts == One(heartbeat && Aborts(drop)) && n.aborts + n.stops == One(heartbeat)
  {
  }

  lemma NoClientEvents(runtime: bool, lease: Lease, heartbeat: bool, drop: DropPoint, a: Answers)
    ensures forall e :: e in ReleaseEvents(runtime, lease, None, heartbeat, drop, a) ==> IsOwnWithout(e, lease)
  {
  }

  lemma TallyIsTidy(events: seq<Event>, runtime: bool, lease: Lease, client: Option<ClientId>, c: ClientId, heartbeat: bool,
                    n: Counts, failed: bool, aborts: bool)
    requires Tally(events, lease, c, n) && (client.Some? ==> c == client.value)
    requires client.Some? ==> n.closers + n.drops == 1 && n.abandoned == One(failed && n.closers == 1)
    requires client.None? ==> forall e :: e in events ==> IsOwnWithout(e, lease)
    requires runtime ==> n.drops == 0
    requires n.aborts == One(heartbeat && aborts) && n.aborts + n.stops == One(heartbeat)
    requires heartbeat ==> events != [] && events[0].HeartbeatEnded?
    ensures IsTidy(events, runtime, lease, client, heartbeat, failed)
    ensures multiset(events)[ReleaseSent(lease.owner, lease.token)] == n.releases
    ensures heartbeat ==> (HeartbeatEnded(true) in events <==> aborts)
  {
    hide IsOwn, IsOwnWithout;
  }

  /**
   * The order of a release that is not dropped: the heartbeat ends, then the browser is closed, then the lease is
   * given back, so that nobody else gets the account while the browser still uses it.
   */
  lemma ReleasedAfterClosing(runtime: bool, lease: Lease, client: ClientId, heartbeat: bool, drop: DropPoint, a: Answers)
    requires !DroppedAt(drop, heartbeat, Some(client))
    ensures var events := ReleaseEvents(runtime, lease, Some(client), heartbeat, drop, a);
      var k := One(heartbeat);
      && k < |events| && events[k] == BrowserClosing(client) && (heartbeat ==> events[0] == HeartbeatEnded(false))
      && forall j :: 0 <= j < |events| && events[j].ReleaseSent? ==> k < j
  {
  }

  lemma HeartbeatIsFirst(runtime: bool, lease: Lease, client: Option<ClientId>, drop: DropPoint, a: Answers)
    ensures var events := ReleaseEvents(runtime, lease, client, true, drop, a);
      events != [] && events[0].HeartbeatEnded?
  {
  }

  /**
   * Without a runtime, a release dropped before it got to the store sends nothing: the lease is left to expire.
   * The client is dropped in place exactly when the release had not taken it yet.
   */
  lemma WithoutRuntime(lease: Lease, client: Option<ClientId>, heartbeat: bool, drop: DropPoint, a: Answers)
    ensures var events := ReleaseEvents(false, lease, client, heartbeat, drop, a);
      && (ReleaseSent(lease.owner, lease.token) in events <==> SendsItself(drop, heartbeat, client))
      && (forall e :: e in events && e.ReleaseSent? ==> e == ReleaseSent(lease.owner, lease.token))
      && (client.Some? ==> (ClientDropped(client.value) in events <==> LeavesTheClient(drop, heartbeat)))
  {
    var c := if client.Some? then client.value else 0;
    assert client == if client.Some? then Some(c) else None;
    hide *;
    TallyRelease(false, lease, c, client.Some?, heartbeat, drop, a);
    TallyMembers(ReleaseEvents(false, lease, client, heartbeat, drop, a), lease, c, Torn(false, client, heartbeat, drop, a));
    TornInPlace(client, heartbeat, drop, a);
  }

  lemma TallyMembers(events: seq<Event>, lease: Lease, client: ClientId, n: Counts)
    requires Tally(events, lease, client, n)
    ensures ReleaseSent(lease.owner, lease.token) in events <==> n.releases > 0
    ensures ClientDropped(client) in events <==> n.drops > 0
    ensures forall e :: e in events && e.ReleaseSent? ==> e == ReleaseSent(lease.owner, lease.token)
  {
  }

  lemma TornInPlace(client: Option<ClientId>, heartbeat: bool, drop: DropPoint, a: Answers)
    ensures var n := Torn(false, client, heartbeat, drop, a);
      && (n.releases > 0 <==> SendsItself(drop, heartbeat, client))
      && (n.drops > 0 <==> client.Some? && LeavesTheClient(drop, heartbeat))
  {
  }

  /**
   * The first release that is decided takes the token off the account for good, and no further one changes
   * anything, whatever others did in between; a live row with another token is left alone from the start.
   */
  lemma TeardownFreesOnlyItsOwnLease(lease: Lease, row: Option<Lease>, first: int, calls: seq<Timed>, second: int)
    requires InTime(calls, first, second) && first <= second && NotReused(calls, lease.token)
    ensures IsLive(row, first) && row.value.token != lease.token ==> Release(row, first, lease.owner, lease.token).0 == row
    ensures var between := DecideAll(Release(row, first, lease.owner, lease.token).0, calls);
      !Holds(between, lease.owner, lease.token, second) && Release(between, second, lease.owner, lease.token).0 == between
  {
    hide Release;
    if IsLive(row, first) && row.value.token != lease.token {
      ReleaseNeedsTheToken(row, first, lease.owner, lease.token);
    }
    var released := Release(row, first, lease.owner, lease.token).0;
    ReleaseTakesTheToken(row, first, lease.owner, lease.token);
    DeadTokensStayDead(released, lease.owner, lease.token, first, calls, second);
    SecondReleaseChangesNothing(row, lease.owner, lease.token, first, calls, second);
  }

  // ---- Opening

  // Local capacity first, then the account lease; a refusal gives the permit back. `None` is a future that still
  // waits for a permit.
  method OpenAuthenticated(pool: BrowserPool, store: LeaseStore, runtime: bool, owner: string, duration: int, line: Line)
    returns (r: Option<Result<Option<AuthenticatedBrowserSession>, LeaseError>>)
    modifies pool, store
    ensures r.None? <==> !old(pool.closed) && old(pool.permits) == 0
    ensures r.None? ==> store.nextToken == old(store.nextToken)
    ensures r.None? || old(pool.closed) ==> store.row == old(store.row)
    ensures pool.closed == old(pool.closed) && (pool.closed ==> r == Some(Err(Backend)))
    ensures r.Some? && r.value.Ok? && r.value.value.Some? ==> 
      Opened(r.value.value.value, pool, runtime, owner, duration, store, old(store.nextToken))
    ensures r.Some? && r.value.Ok? <==> !old(pool.closed) && old(pool.permits) > 0 && line.reaches && line.answers
    ensures r.Some? && r.value.Ok? ==> (r.value.value.Some? <==> !IsLive(old(store.row), store.now))
    ensures r.Some? && r.value.Ok? && r.value.value.Some? ==>
      fresh(r.value.value.value) && pool.permits == old(pool.permits) - 1 && !IsLive(old(store.row), store.now)
    ensures !(r.Some? && r.value.Ok? && r.value.value.Some?) ==> pool.permits == old(pool.permits)
    ensures r.Some? && r.value.Ok? && r.value.value.None? ==> IsLive(store.row, store.now) && store.row == old(store.row)
  {
    if pool.closed {
      return Some(Err(Backend));
    }
    if pool.permits == 0 {
      return None;
    }
    pool.permits := pool.permits - 1;
    var acquired := AcquireGuard(store, owner, duration, line);
    if acquired.Err? || acquired.value.None? {
      pool.permits := pool.permits + 1;
      return Some(if acquired.Err? then Err(acquired.error) else Ok(None));
    }
    var session := new AuthenticatedBrowserSession(pool, runtime, acquired.value.value.lease);
    r := Some(Ok(Some(session)));
  }

  // A session as it was opened: it holds the row under a fresh token and has done nothing yet.
  predicate Opened(session: AuthenticatedBrowserSession, pool: BrowserPool, runtime: bool, owner: string, duration: int,
                   store: LeaseStore, token: Token)
    reads session, store
  {
    && session.pool == pool && session.runtime == runtime && session.IsOpen()
    && session.client == None && !session.heartbeat
    && session.lease == Some(Lease(owner, token, store.now + duration)) && store.row == session.lease
  }

  // A whole session, opened, used and torn down in any way: the permit is back, the session keeps nothing, and what
  // it sent is tidy and names the token it drew. The store decides the sent releases on its own time
  // (TeardownFreesOnlyItsOwnLease), so the row here is still the one that was acquired.
  method OpenAndRelease(pool: BrowserPool, store: LeaseStore, runtime: bool, owner: string, duration: int, line: Line, period: int,
                        client: Option<ClientId>, drop: DropPoint, a: Answers)
    returns (session: Option<AuthenticatedBrowserSession>)
    modifies pool, store
    ensures pool.permits == old(pool.permits) && pool.closed == old(pool.closed)
    ensures session.Some? <==> !old(pool.closed) && old(pool.permits) > 0 && line == Line(true, true) && !IsLive(old(store.row), store.now)
    ensures session.Some? ==> session.value.IsGone()
    ensures session.Some? ==>
      var lease := Lease(owner, old(store.nextToken), store.now + duration);
      && store.row == Some(lease)
      && session.value.events == ReleaseEvents(runtime, lease, client, 0 < period < duration, drop, a)
      && IsTidy(session.value.events, runtime, lease, client, 0 < period < duration, CloserFails(drop, a))
  {
    hide ReleaseEvents, IsTidy, IsLive, CleanupEvents;
    var result := OpenAuthenticated(pool, store, runtime, owner, duration, line);
    if result.None? || result.value.Err? || result.value.value.None? {
      return None;
    }
    var used := result.value.value.value;
    if client.Some? {
      used.AttachClient(client.value);
    }
    var started := used.StartLeaseHeartbeat(period, duration, true);
    TeardownIsComplete(runtime, used.lease.value, client, 0 < period < duration, drop, a);
    var _ := used.Release(drop, a);
    session := Some(used);
  }
}
