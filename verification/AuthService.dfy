/** Credential refresh and replacement as one service runs them, with other replicas acting at every await. */
module AuthService {
  import opened Options
  import opened AccountLease
  import opened CredentialRuns

  datatype AuthError = AccountNotFound | NeedsSetup | AccountDisabled | AccountBusy | LeaseFailure | RefreshFailed
                     | CipherFailure | StoreFailure(error: StoreError)

  datatype Outcome = Unchanged | Refreshed

  // The shared tables as this service sees them between awaits, and all it has seen of them.
  class Shared {
    var store: Store
    ghost var seen: seq<Store>

    constructor (store: Store)
      ensures this.store == store && seen == []
    {
      this.store, seen := store, [];
    }
  }

  // ---- What the others may do to the store while this service waits

  // No write from index `from` on carries the token.
  predicate NotBy(log: seq<Write>, from: nat, token: Token) {
    forall k :: from <= k < |log| && HasToken(log[k].origin) ==> log[k].origin.token != token
  }

  // Time passes and the log only grows.
  predicate LogGrows(before: Store, after: Store) {
    && (StoreGood(before) ==> StoreGood(after)) && before.log <= after.log
    && before.now <= after.now && before.nextToken <= after.nextToken
  }

  // What is added is by others.
  predicate Grown(before: Store, after: Store, token: Token) {
    LogGrows(before, after) && NotBy(after.log, |before.log|, token)
  }

  // With the record loaded: moreover nobody else writes credentials while `token` stays in the lease row.
  predicate Others(before: Store, after: Store, token: Token) {
    && Grown(before, after, token)
    && (after.lease.Some? && after.lease.value.token == token && token < before.nextToken ==>
          && before.lease.Some? && before.lease.value.token == token
          && before.log == after.log
          && (before.account.Some? <==> after.account.Some?)
          && (before.account.Some? ==>
                && before.account.value.version == after.account.value.version
                && before.account.value.secret == after.account.value.secret))
  }

  lemma GrownReflexive(s: Store, token: Token)
    ensures Grown(s, s, token)
  {
  }

  lemma GrownTransitive(a: Store, b: Store, c: Store, token: Token)
    requires Grown(a, b, token) && Grown(b, c, token)
    ensures Grown(a, c, token)
  {
    hide StoreGood;
    forall k | |a.log| <= k < |c.log| && HasToken(c.log[k].origin)
      ensures c.log[k].origin.token != token
    {
      if k < |b.log| {
        assert c.log[k] == b.log[k];
      }
    }
  }

  lemma OthersReflexive(s: Store, token: Token)
    ensures Others(s, s, token)
  {
    hide StoreGood;
  }

  lemma OthersTransitive(a: Store, b: Store, c: Store, token: Token)
    requires Others(a, b, token) && Others(b, c, token)
    ensures Others(a, c, token)
  {
    GrownTransitive(a, b, c, token);
    hide StoreGood, NotBy;
  }

  predicate ByOther(a: Action, agent: AgentId) {
    match a
    case TakeLease(other, _, _) => other != agent
    case Beat(_, _) => true
    case Load(other) => other != agent
    case CommitReplacement(other, _) => other != agent
    case GiveBack(other) => other != agent
    case Crash(other) => other != agent
    case _ => true
  }

  predicate LoadedAs(phase: Phase, token: Token) {
    phase.Loaded? && phase.token == token
  }

  // The token is drawn, and no other agent has it.
  ghost predicate Owned(s: System, agent: AgentId, token: Token) {
    token < s.store.nextToken
    && forall other :: other != agent && !PhaseOf(s, other).Idle? ==> PhaseOf(s, other).token != token
  }

  lemma OwnedStep(s: System, a: Action, agent: AgentId, token: Token)
    requires Owned(s, agent, token) && ByOther(a, agent)
    ensures Owned(After(s, a), agent, token)
    ensures PhaseOf(After(s, a), agent) == PhaseOf(s, agent)
  {
    var after := After(s, a);
    forall other | other != agent && !PhaseOf(after, other).Idle?
      ensures PhaseOf(after, other).token != token
    {
      if !PhaseOf(s, other).Idle? {
        assert PhaseOf(s, other).token != token;
      }
    }
  }

  lemma GrownStep(s: System, a: Action, agent: AgentId, token: Token)
    requires Good(s) && Owned(s, agent, token) && ByOther(a, agent)
    ensures Grown(s.store, After(s, a).store, token)
  {
    StepKeepsGood(s, a);
    if a.CommitReplacement? && PhaseOf(s, a.agent).Loaded? {
      assert PhaseOf(s, a.agent).token != token;
    }
    hide StoreGood, Distinct, AgentGood;
  }

  /** Any run of the other agents and of administration only grows the log, by writes under other tokens. */
  lemma {:induction false} GrownCoversEveryRun(s: System, actions: seq<Action>, agent: AgentId, token: Token)
    requires Good(s) && Owned(s, agent, token)
    requires forall k :: 0 <= k < |actions| ==> ByOther(actions[k], agent)
    ensures Grown(s.store, End(s, actions).store, token)
    decreases |actions|
  {
    if actions == [] {
      GrownReflexive(s.store, token);
    } else {
      var next := After(s, actions[0]);
      GrownStep(s, actions[0], agent, token);
      OwnedStep(s, actions[0], agent, token);
      StepKeepsGood(s, actions[0]);
      hide Grown, Good, After, Owned;
      GrownCoversEveryRun(next, actions[1..], agent, token);
      GrownTransitive(s.store, next.store, End(next, actions[1..]).store, token);
    }
  }

  /** Any run at all only grows the log. */
  lemma {:induction false} LogGrowsOverEveryRun(s: System, actions: seq<Action>)
    requires Good(s)
    ensures LogGrows(s.store, End(s, actions).store)
    decreases |actions|
  {
    hide StoreGood;
    if actions != [] {
      StepKeepsGood(s, actions[0]);
      LogGrowsOverEveryRun(After(s, actions[0]), actions[1..]);
    }
  }

  lemma LoadedOwns(s: System, agent: AgentId, token: Token)
    requires Good(s) && LoadedAs(PhaseOf(s, agent), token)
    ensures Owned(s, agent, token)
  {
    assert AgentGood(s.store, PhaseOf(s, agent));
    hide StoreGood, AgentGood;
  }

  lemma OtherStep(s: System, a: Action, agent: AgentId, token: Token)
    requires Good(s) && LoadedAs(PhaseOf(s, agent), token) && ByOther(a, agent)
    ensures Others(s.store, After(s, a).store, token)
    ensures PhaseOf(After(s, a), agent) == PhaseOf(s, agent)
  {
    LoadedOwns(s, agent, token);
    GrownStep(s, a, agent, token);
    OwnedStep(s, a, agent, token);
    assert AgentGood(s.store, PhaseOf(s, agent));
    if a.CommitReplacement? && PhaseOf(s, a.agent).Loaded? {
      assert PhaseOf(s, a.agent).token != token;
    }
    hide StoreGood, Grown, Distinct;
  }

  /** Any run of the other agents and of administration is something `Others` allows. */
  lemma {:induction false} OthersCoverEveryRun(s: System, actions: seq<Action>, agent: AgentId, token: Token)
    requires Good(s) && LoadedAs(PhaseOf(s, agent), token)
    requires forall k :: 0 <= k < |actions| ==> ByOther(actions[k], agent)
    ensures Others(s.store, End(s, actions).store, token)
    decreases |actions|
  {
    if actions == [] {
      OthersReflexive(s.store, token);
    } else {
      var next := After(s, actions[0]);
      OtherStep(s, actions[0], agent, token);
      StepKeepsGood(s, actions[0]);
      hide Others, Good, After;
      OthersCoverEveryRun(next, actions[1..], agent, token);
      OthersTransitive(s.store, next.store, End(next, actions[1..]).store, token);
    }
  }

  // ---- The service

  // What a committed write leaves as the last one: the successor of the record it read under its lease.
  ghost predicate CommittedOver(log: seq<Write>, token: Token, current: Secret, replacement: Secret) {
    && |log| >= 2
    && var last, previous := log[|log| - 1], log[|log| - 2];
    && last.origin == Replaced(token, previous.version, |log| - 1)
    && last.incarnation == previous.incarnation && last.version == previous.version + 1
    && previous.secret == Some(current) && last.secret == Some(replacement)
  }

  ghost predicate EnrolledLast(log: seq<Write>, token: Token, secret: Secret) {
    && |log| >= 2
    && var last, previous := log[|log| - 1], log[|log| - 2];
    && last.origin == Enrolled(token, |log| - 1) && previous.secret.None? && last.secret == Some(secret)
    && last.incarnation == previous.incarnation && last.version == previous.version + 1
  }

  // One own write: the last entry, and none before it since `from`.
  ghost predicate WroteOnce(log: seq<Write>, from: nat, token: Token) {
    && |log| > from && HasToken(log[|log| - 1].origin) && log[|log| - 1].origin.token == token
    && NotBy(log[..|log| - 1], from, token)
  }

  // ---- What each answer says

  // One look at the clock and the record, and whether they can be read and deciphered.
  datatype Look = Look(readable: bool, deciphers: bool)

  // What works: the lease request and its answer, the start of the heartbeat, the guard at its two checks,
  // enciphering, the commit, and at the end the heartbeat's stop and the release's answer.
  datatype Conditions = Conditions(first: Look, delivered: bool, answered: bool, starts: bool, second: Look,
                                   usableBefore: bool, usableAfter: bool, enciphers: bool, commits: bool,
                                   stops: bool, releases: bool)

  // What a call sees from its start on, and the store's clock at its start and end.
  datatype Sight = Sight(seen: seq<Store>, from: nat, start: int, end: int)

  ghost predicate Saw(v: Sight, account: Option<Record>) {
    exists k :: v.from <= k < |v.seen| && v.seen[k].account == account
  }

  predicate IsActive(rec: Record) {
    !SetupRequired(rec) && !rec.disabled
  }

  // An active record was read whose secret is, or is not, to be refreshed at an instant of the call.
  ghost predicate SawActive(v: Sight, needsRefresh: (Secret, int) -> bool, rec: Record, now: int, due: bool) {
    Saw(v, Some(rec)) && IsActive(rec) && v.start <= now <= v.end && needsRefresh(rec.secret.value, now) == due
  }

  // The answer of a look that goes no further.
  ghost predicate Looked(v: Sight, look: Look, needsRefresh: (Secret, int) -> bool, r: Result<Outcome, AuthError>) {
    if r == Err(StoreFailure(Unavailable)) then !look.readable
    else look.readable && match r
      case Err(AccountNotFound) => Saw(v, None)
      case Err(NeedsSetup) => exists rec :: Saw(v, Some(rec)) && SetupRequired(rec)
      case Err(AccountDisabled) => exists rec :: Saw(v, Some(rec)) && !SetupRequired(rec) && rec.disabled
      case Err(CipherFailure) => !look.deciphers && exists rec :: Saw(v, Some(rec)) && IsActive(rec)
      case Ok(Unchanged) => look.deciphers && exists rec, now :: SawActive(v, needsRefresh, rec, now, false)
      case _ => false
  }

  // The answer of a refresh of a secret that was due, with the guard as the conditions say; `held` is whether the token
  // still holds the lease at the end.
  predicate Attempted(x: Conditions, upstream: Option<Secret>, held: bool, r: Result<Outcome, AuthError>) {
    match r
    case Err(LeaseFailure) => !x.usableBefore || (upstream.Some? && !x.usableAfter)
    case Err(RefreshFailed) => x.usableBefore && upstream.None?
    case Err(CipherFailure) => x.usableBefore && x.usableAfter && upstream.Some? && !x.enciphers
    case Err(StoreFailure(Unavailable)) => x.usableBefore && x.usableAfter && upstream.Some? && x.enciphers && !x.commits
    case Err(StoreFailure(Conflict)) =>
      x.usableBefore && x.usableAfter && upstream.Some? && x.enciphers && x.commits && !held
    case Ok(Refreshed) => x.usableBefore && x.usableAfter && upstream.Some? && x.enciphers && x.commits
    case _ => false
  }

  // The answer of the part under the lease.
  ghost predicate AnsweredUnderLease(v: Sight, x: Conditions, needsRefresh: (Secret, int) -> bool, upstream: Secret -> Option<Secret>,
                                     held: bool, r: Result<Outcome, AuthError>) {
    || Looked(v, x.second, needsRefresh, r)
    || (x.second == Look(true, true)
        && exists rec, now :: SawActive(v, needsRefresh, rec, now, true) && Attempted(x, upstream(rec.secret.value), held, r))
  }

  // The answer of the whole refresh, before a failing heartbeat or release hides it.
  ghost predicate AnsweredInAll(v: Sight, x: Conditions, needsRefresh: (Secret, int) -> bool, upstream: Secret -> Option<Secret>,
                                held: bool, r: Result<Outcome, AuthError>) {
    || Looked(v, x.first, needsRefresh, r)
    || (x.first == Look(true, true) && (exists rec, now :: SawActive(v, needsRefresh, rec, now, true))
        && (|| (r == Err(LeaseFailure) && !(x.delivered && x.answered && x.starts))
            || (r == Err(AccountBusy) && x.delivered && x.answered && SawBusy(v))
            || (x.delivered && x.answered && x.starts && AnsweredUnderLease(v, x, needsRefresh, upstream, held, r))))
  }

  ghost predicate SawBusy(v: Sight) {
    exists k :: v.from <= k < |v.seen| && IsLive(v.seen[k].lease, v.seen[k].now)
  }

  lemma SeesMore(v: Sight, w: Sight)
    requires v.seen <= w.seen && w.from <= v.from && w.start <= v.start && v.end <= w.end
    ensures forall account :: Saw(v, account) ==> Saw(w, account)
    ensures SawBusy(v) ==> SawBusy(w)
  {
    forall account | Saw(v, account)
      ensures Saw(w, account)
    {
      var k :| v.from <= k < |v.seen| && v.seen[k].account == account;
      assert w.seen[k] == v.seen[k];
    }
    if SawBusy(v) {
      var k :| v.from <= k < |v.seen| && IsLive(v.seen[k].lease, v.seen[k].now);
      assert w.seen[k] == v.seen[k];
    }
  }

  lemma LookedInAll(v: Sight, w: Sight, look: Look, needsRefresh: (Secret, int) -> bool, r: Result<Outcome, AuthError>)
    requires v.seen <= w.seen && w.from <= v.from && w.start <= v.start && v.end <= w.end
    ensures forall rec, now, due :: SawActive(v, needsRefresh, rec, now, due) ==> SawActive(w, needsRefresh, rec, now, due)
    ensures Looked(v, look, needsRefresh, r) ==> Looked(w, look, needsRefresh, r)
  {
    SeesMore(v, w);
    hide Saw;
    assert forall rec, now, due :: SawActive(v, needsRefresh, rec, now, due) ==> SawActive(w, needsRefresh, rec, now, due);
    hide SawActive;
  }

  /**
   * With everything working, an account that is active and due whenever it is looked at, an answer from upstream and
   * the lease held to the end, the only answer left is that the secret was refreshed.
   */
  lemma UndisturbedRefreshes(v: Sight, x: Conditions, needsRefresh: (Secret, int) -> bool, upstream: Secret -> Option<Secret>,
                             r: Result<Outcome, AuthError>)
    requires AnsweredUnderLease(v, x, needsRefresh, upstream, true, r)
    requires x.second == Look(true, true) && x.usableBefore && x.usableAfter && x.enciphers && x.commits
    requires !Saw(v, None)
    requires forall rec :: Saw(v, Some(rec)) ==> IsActive(rec) && upstream(rec.secret.value).Some?
    requires forall rec, now :: !SawActive(v, needsRefresh, rec, now, false)
    ensures r == Ok(Refreshed)
  {
    assert forall rec :: Saw(v, Some(rec)) ==> !SetupRequired(rec) && !rec.disabled;
    assert forall rec, now :: SawActive(v, needsRefresh, rec, now, true) ==> Saw(v, Some(rec));
    hide Saw, SawActive;
  }

  // An await without a lease.
  method AwaitIdle(shared: Shared)
    modifies shared
    ensures LogGrows(old(shared.store), shared.store) && shared.seen == old(shared.seen) + [shared.store]
  {
    var next: Store := *;
    if LogGrows(shared.store, next) {
      shared.store := next;
    }
    shared.seen := shared.seen + [shared.store];
  }

  // An await under the lease, without a loaded record.
  method AwaitUnloaded(shared: Shared, token: Token)
    modifies shared
    ensures Grown(old(shared.store), shared.store, token) && shared.seen == old(shared.seen) + [shared.store]
  {
    GrownReflexive(shared.store, token);
    var next: Store := *;
    if Grown(shared.store, next, token) {
      shared.store := next;
    }
    shared.seen := shared.seen + [shared.store];
  }

  // An await with the record loaded under the token.
  method AwaitLoaded(shared: Shared, token: Token)
    modifies shared
    ensures Others(old(shared.store), shared.store, token) && shared.seen == old(shared.seen) + [shared.store]
  {
    OthersReflexive(shared.store, token);
    var next: Store := *;
    if Others(shared.store, next, token) {
      shared.store := next;
    }
    shared.seen := shared.seen + [shared.store];
  }

  // Commits a write over the loaded record; the repository decides, or fails and rolls back.
  method CommitLoaded(shared: Shared, owner: string, token: Token, read: Record, seen: nat, secret: Secret,
                      works: bool)
    returns (r: Result<(), AuthError>)
    requires StoreGood(shared.store)
    requires shared.store.lease.Some? && shared.store.lease.value.token == token ==>
      && seen == |shared.store.log| && shared.store.account.Some?
      && shared.store.account.value.version == read.version && shared.store.account.value.secret == read.secret
    modifies shared
    ensures StoreGood(shared.store)
    ensures shared.store.now == old(shared.store).now && shared.store.nextToken == old(shared.store).nextToken
    ensures shared.seen == old(shared.seen)
    ensures r.Err? ==> shared.store == old(shared.store)
    ensures r.Err? ==> r.error == if works then StoreFailure(Conflict) else StoreFailure(Unavailable)
    ensures r.Ok? <==> works && Holds(old(shared.store).lease, owner, token, old(shared.store).now)
    ensures r.Ok? ==> |shared.store.log| == |old(shared.store).log| + 1 && old(shared.store).log <= shared.store.log
    ensures r.Ok? && read.secret.Some? ==> CommittedOver(shared.store.log, token, read.secret.value, secret)
    ensures r.Ok? && read.secret.None? ==> EnrolledLast(shared.store.log, token, secret)
  {
    if !works {
      return Err(StoreFailure(Unavailable));
    }
    var s := shared.store;
    var phase := Loaded(owner, token, read, seen);
    CommitIsFenced(s, phase, secret);
    var committed := Commit(s, phase, secret);
    match committed {
      case Err(error) =>
        r := Err(StoreFailure(error));
      case Ok(next) =>
        shared.store := next;
        r := Ok(());
    }
  }

  lemma CommitIsFenced(s: Store, phase: Phase, secret: Secret)
    requires StoreGood(s) && phase.Loaded?
    requires s.lease.Some? && s.lease.value.token == phase.token ==>
      && phase.seen == |s.log| && s.account.Some?
      && s.account.value.version == phase.read.version && s.account.value.secret == phase.read.secret
    ensures Commit(s, phase, secret).Ok? <==> Holds(s.lease, phase.owner, phase.token, s.now)
    ensures Commit(s, phase, secret).Err? ==> Commit(s, phase, secret).error == Conflict
    ensures Commit(s, phase, secret).Ok? ==>
      var after := Commit(s, phase, secret).value;
      && StoreGood(after) && |after.log| == |s.log| + 1 && after.log[..|s.log|] == s.log
      && after.now == s.now && after.nextToken == s.nextToken
      && (phase.read.secret.Some? ==> CommittedOver(after.log, phase.token, phase.read.secret.value, secret))
      && (phase.read.secret.None? ==> EnrolledLast(after.log, phase.token, secret))
  {
    if Commit(s, phase, secret).Ok? {
      var w := Commit(s, phase, secret).value.log[|s.log|];
      assert Follows(s.log + [w], |s.log|);
      PushWrite(s, w);
      assert Commit(s, phase, secret).value.log == s.log + [w];
    }
    hide Chain, TokensAscend;
  }

  // The commit is the only own write since `start`.
  lemma OnlyOwnWrite(start: Store, before: Store, log: seq<Write>, token: Token)
    requires Grown(start, before, token) && |log| == |before.log| + 1 && before.log <= log
    requires HasToken(log[|log| - 1].origin) && log[|log| - 1].origin.token == token
    ensures WroteOnce(log, |start.log|, token)
  {
    hide StoreGood;
    assert log[..|log| - 1] == before.log;
  }

  // The refresh under the lease.
  method RefreshUnderLease(shared: Shared, owner: string, token: Token, x: Conditions,
                           needsRefresh: (Secret, int) -> bool, upstream: Secret -> Option<Secret>)
    returns (r: Result<Outcome, AuthError>)
    requires StoreGood(shared.store) && token < shared.store.nextToken
    modifies shared
    ensures StoreGood(shared.store) && old(shared.store).now <= shared.store.now && old(shared.seen) <= shared.seen
    ensures old(shared.store).nextToken <= shared.store.nextToken && old(shared.store).log <= shared.store.log
    ensures AnsweredUnderLease(Sight(shared.seen, |old(shared.seen)|, old(shared.store).now, shared.store.now), x,
                               needsRefresh, upstream, Holds(shared.store.lease, owner, token, shared.store.now), r)
    ensures r == Ok(Refreshed) ==>
      && WroteOnce(shared.store.log, |old(shared.store).log|, token)
      && exists current, replacement, now ::
        && old(shared.store).now <= now <= shared.store.now
        && needsRefresh(current, now) && upstream(current) == Some(replacement)
        && CommittedOver(shared.store.log, token, current, replacement)
    ensures r != Ok(Refreshed) ==> Grown(old(shared.store), shared.store, token)
  {
    hide StoreGood, NotBy, CommittedOver, WroteOnce, AnsweredUnderLease, Looked, Saw, SawActive;
    ghost var start, from := shared.store, |shared.seen|;
    AwaitUnloaded(shared, token);
    var now := shared.store.now;
    GrownReflexive(start, token);
    ghost var first := shared.store;
    AwaitUnloaded(shared, token);
    GrownTransitive(start, first, shared.store, token);
    var s := shared.store;
    ghost var sight := Sight(shared.seen, from, start.now, s.now);
    if !x.second.readable {
      LookFails(sight, x, needsRefresh, upstream, Holds(s.lease, owner, token, s.now));
      return Err(StoreFailure(Unavailable));
    }
    LookDecides(sight, s, x, needsRefresh, upstream, Holds(s.lease, owner, token, s.now), now);
    if s.account.None? {
      return Err(AccountNotFound);
    }
    var read, seen := s.account.value, |s.log|;
    if SetupRequired(read) {
      return Err(NeedsSetup);
    }
    if read.disabled {
      return Err(AccountDisabled);
    }
    if !x.second.deciphers {
      return Err(CipherFailure);
    }
    var current := read.secret.value;
    if !needsRefresh(current, now) {
      return Ok(Unchanged);
    }
    r := RefreshDue(shared, owner, token, x, read, seen, upstream);
    if r != Ok(Refreshed) {
      GrownTransitive(start, s, shared.store, token);
    } else {
      OwnWriteSince(start, s, shared.store, token);
    }
    AttemptAnswers(sight, Sight(shared.seen, from, start.now, shared.store.now), read, now, x, needsRefresh, upstream,
                   Holds(shared.store.lease, owner, token, shared.store.now), r);
  }

  // Refreshes a loaded secret that is due.
  method RefreshDue(shared: Shared, owner: string, token: Token, x: Conditions, read: Record, seen: nat,
                    upstream: Secret -> Option<Secret>)
    returns (r: Result<Outcome, AuthError>)
    requires StoreGood(shared.store) && token < shared.store.nextToken
    requires read.secret.Some? && shared.store.account == Some(read) && seen == |shared.store.log|
    modifies shared
    ensures StoreGood(shared.store) && LogGrows(old(shared.store), shared.store) && old(shared.seen) <= shared.seen
    ensures Attempted(x, upstream(read.secret.value), Holds(shared.store.lease, owner, token, shared.store.now), r)
    ensures r != Ok(Refreshed) ==> Grown(old(shared.store), shared.store, token)
    ensures r == Ok(Refreshed) ==>
      && WroteOnce(shared.store.log, |old(shared.store).log|, token)
      && CommittedOver(shared.store.log, token, read.secret.value, upstream(read.secret.value).value)
  {
    hide StoreGood, NotBy, CommittedOver, WroteOnce;
    ghost var s := shared.store;
    GrownReflexive(s, token);
    if !x.usableBefore {
      return Err(LeaseFailure);
    }
    AwaitLoaded(shared, token);
    var refreshed := upstream(read.secret.value);
    if refreshed.None? {
      return Err(RefreshFailed);
    }
    if !x.usableAfter {
      return Err(LeaseFailure);
    }
    if !x.enciphers {
      return Err(CipherFailure);
    }
    ghost var third := shared.store;
    AwaitLoaded(shared, token);
    OthersTransitive(s, third, shared.store, token);
    ghost var before := shared.store;
    var committed := CommitLoaded(shared, owner, token, read, seen, refreshed.value, x.commits);
    if committed.Err? {
      return Err(committed.error);
    }
    OnlyOwnWrite(s, before, shared.store.log, token);
    r := Ok(Refreshed);
  }

  lemma OwnWriteSince(start: Store, s: Store, end: Store, token: Token)
    requires Grown(start, s, token) && WroteOnce(end.log, |s.log|, token) && s.log <= end.log
    ensures WroteOnce(end.log, |start.log|, token)
  {
    hide StoreGood;
    var n := |end.log| - 1;
    forall k | |start.log| <= k < n && HasToken(end.log[k].origin)
      ensures end.log[k].origin.token != token
    {
      if k < |s.log| {
        assert end.log[k] == s.log[k];
      } else {
        assert end.log[..n][k] == end.log[k];
      }
    }
  }

  lemma LookFails(v: Sight, x: Conditions, needsRefresh: (Secret, int) -> bool, upstream: Secret -> Option<Secret>, held: bool)
    requires !x.second.readable
    ensures AnsweredUnderLease(v, x, needsRefresh, upstream, held, Err(StoreFailure(Unavailable)))
  {
  }

  // What a record that was read decides, and whether its secret was due.
  lemma LookDecides(v: Sight, s: Store, x: Conditions, needsRefresh: (Secret, int) -> bool, upstream: Secret -> Option<Secret>,
                    held: bool, now: int)
    requires v.from < |v.seen| && v.seen[|v.seen| - 1] == s && v.start <= now <= v.end && x.second.readable
    ensures s.account.None? ==> AnsweredUnderLease(v, x, needsRefresh, upstream, held, Err(AccountNotFound))
    ensures s.account.Some? && SetupRequired(s.account.value) ==>
              AnsweredUnderLease(v, x, needsRefresh, upstream, held, Err(NeedsSetup))
    ensures s.account.Some? && !SetupRequired(s.account.value) && s.account.value.disabled ==>
              AnsweredUnderLease(v, x, needsRefresh, upstream, held, Err(AccountDisabled))
    ensures s.account.Some? && IsActive(s.account.value) ==>
      && (!x.second.deciphers ==> AnsweredUnderLease(v, x, needsRefresh, upstream, held, Err(CipherFailure)))
      && var due := needsRefresh(s.account.value.secret.value, now);
      && SawActive(v, needsRefresh, s.account.value, now, due)
      && (x.second.deciphers && !due ==> AnsweredUnderLease(v, x, needsRefresh, upstream, held, Ok(Unchanged)))
  {
    LookAnswers(v, s, x.second, needsRefresh, now);
    hide Looked, Saw, SawActive, Attempted;
  }

  lemma LookAnswers(v: Sight, s: Store, look: Look, needsRefresh: (Secret, int) -> bool, now: int)
    requires v.from < |v.seen| && v.seen[|v.seen| - 1] == s && v.start <= now <= v.end && look.readable
    ensures s.account.None? ==> Looked(v, look, needsRefresh, Err(AccountNotFound))
    ensures s.account.Some? && SetupRequired(s.account.value) ==> Looked(v, look, needsRefresh, Err(NeedsSetup))
    ensures s.account.Some? && !SetupRequired(s.account.value) && s.account.value.disabled ==>
              Looked(v, look, needsRefresh, Err(AccountDisabled))
    ensures s.account.Some? && IsActive(s.account.value) ==>
      && (!look.deciphers ==> Looked(v, look, needsRefresh, Err(CipherFailure)))
      && var due := needsRefresh(s.account.value.secret.value, now);
      && SawActive(v, needsRefresh, s.account.value, now, due)
      && (look.deciphers && !due ==> Looked(v, look, needsRefresh, Ok(Unchanged)))
  {
    assert Saw(v, s.account);
    if s.account.Some? && IsActive(s.account.value) {
      assert SawActive(v, needsRefresh, s.account.value, now, needsRefresh(s.account.value.secret.value, now));
    }
    hide Saw, SawActive;
  }

  lemma AttemptAnswers(v: Sight, w: Sight, rec: Record, now: int, x: Conditions, needsRefresh: (Secret, int) -> bool,
                       upstream: Secret -> Option<Secret>, held: bool, r: Result<Outcome, AuthError>)
    requires v.seen <= w.seen && w.from <= v.from && w.start <= v.start && v.end <= w.end
    requires SawActive(v, needsRefresh, rec, now, true) && x.second == Look(true, true)
    requires rec.secret.Some? && Attempted(x, upstream(rec.secret.value), held, r)
    ensures AnsweredUnderLease(w, x, needsRefresh, upstream, held, r)
  {
    hide Attempted, Looked;
    SeesMore(v, w);
    hide Saw;
    assert SawActive(w, needsRefresh, rec, now, true);
  }

  // The operator's replacement, from the acquired lease to the commit.
  method ReplaceUnderLease(shared: Shared, owner: string, token: Token, secret: Secret, x: Conditions) returns (r: Result<(), AuthError>)
    requires StoreGood(shared.store) && token < shared.store.nextToken
    modifies shared
    ensures StoreGood(shared.store) && old(shared.seen) <= shared.seen
    ensures r.Ok? ==>
      && WroteOnce(shared.store.log, |old(shared.store).log|, token)
      && ((exists current :: CommittedOver(shared.store.log, token, current, secret))
          || EnrolledLast(shared.store.log, token, secret))
    ensures r.Err? ==> Grown(old(shared.store), shared.store, token)
    ensures var v := Sight(shared.seen, |old(shared.seen)|, old(shared.store).now, shared.store.now);
      ReplacementAnswered(v, x, Holds(shared.store.lease, owner, token, shared.store.now), r)
  {
    hide StoreGood, NotBy, CommittedOver, EnrolledLast, WroteOnce;
    ghost var start := shared.store;
    AwaitUnloaded(shared, token);
    if !x.second.readable {
      return Err(StoreFailure(Unavailable));
    }
    var s := shared.store;
    assert shared.seen[|old(shared.seen)|] == s;
    if s.account.None? {
      return Err(AccountNotFound);
    }
    var read, seen := s.account.value, |s.log|;
    if !x.enciphers {
      return Err(CipherFailure);
    }
    if !x.usableBefore {
      return Err(LeaseFailure);
    }
    AwaitLoaded(shared, token);
    GrownTransitive(start, s, shared.store, token);
    ghost var before := shared.store;
    r := CommitLoaded(shared, owner, token, read, seen, secret, x.commits);
    assert shared.seen[|old(shared.seen)|] == s;
    if r.Ok? {
      OnlyOwnWrite(start, before, shared.store.log, token);
    }
  }

  // Why a replacement failed; if it succeeded, everything it needed worked.
  ghost predicate ReplacementAnswered(v: Sight, x: Conditions, held: bool, r: Result<(), AuthError>) {
    if r == Err(StoreFailure(Unavailable)) && !x.second.readable then true
    else x.second.readable && match r
      case Err(AccountNotFound) => Saw(v, None)
      case Err(CipherFailure) => SawAccount(v) && !x.enciphers
      case Err(LeaseFailure) => SawAccount(v) && x.enciphers && !x.usableBefore
      case Err(StoreFailure(Unavailable)) => SawAccount(v) && x.enciphers && x.usableBefore && !x.commits
      case Err(StoreFailure(Conflict)) => SawAccount(v) && x.enciphers && x.usableBefore && x.commits && !held
      case Ok(_) => SawAccount(v) && x.enciphers && x.usableBefore && x.commits
      case _ => false
  }

  ghost predicate SawAccount(v: Sight) {
    exists k :: v.from <= k < |v.seen| && v.seen[k].account.Some?
  }

  // Some entry since `from` carries the token.
  ghost predicate Wrote(log: seq<Write>, from: nat, token: Token) {
    !NotBy(log, from, token)
  }

  // The whole refresh: a first look without the lease, a second one under it, and the lease given back. `inner`
  // is what it came to before the lease was given back; a failing heartbeat or release hides it. Unless the answer to
  // the lease request was lost or the heartbeat did not start, the token no longer holds the lease at the end.
  method RefreshIfNeeded(shared: Shared, owner: string, leaseFor: int, x: Conditions,
                         needsRefresh: (Secret, int) -> bool, upstream: Secret -> Option<Secret>)
    returns (r: Result<Outcome, AuthError>, ghost token: Token, ghost inner: Result<Outcome, AuthError>, ghost held: bool)
    requires StoreGood(shared.store)
    modifies shared
    ensures StoreGood(shared.store)
    ensures AnsweredInAll(Sight(shared.seen, |old(shared.seen)|, old(shared.store).now, shared.store.now), x,
                          needsRefresh, upstream, held, inner)
    ensures r == inner || (r == Err(LeaseFailure) && Hidden(shared.seen, x, owner, token))
    ensures !x.delivered || (x.answered && x.starts) ==> !Holds(shared.store.lease, owner, token, shared.store.now)
    ensures Wrote(shared.store.log, |old(shared.store).log|, token) <==> inner == Ok(Refreshed)
    ensures inner == Ok(Refreshed) ==>
      exists log: seq<Write>, current, replacement, now ::
        && log <= shared.store.log && old(shared.store).now <= now <= shared.store.now
        && needsRefresh(current, now) && upstream(current) == Some(replacement)
        && CommittedOver(log, token, current, replacement)
  {
    hide StoreGood, CommittedOver, NotBy, AnsweredInAll, Looked, Saw, SawActive, AnsweredUnderLease, Attempted, Hidden;
    ghost var start, from := shared.store, |shared.seen|;
    AwaitIdle(shared);
    var now := shared.store.now;
    AwaitIdle(shared);
    var s := shared.store;
    var initial := s.account;
    ghost var sight := Sight(shared.seen, from, start.now, s.now);
    token, held := s.nextToken, false;
    FreshToken(s, |start.log|);
    FreshTokenIsNotHeld(s, owner, token);
    FirstLookDecides(sight, s, x, needsRefresh, upstream, now);
    if !x.first.readable {
      r := Err(StoreFailure(Unavailable));
    } else if initial.None? {
      r := Err(AccountNotFound);
    } else if SetupRequired(initial.value) {
      r := Err(NeedsSetup);
    } else if initial.value.disabled {
      r := Err(AccountDisabled);
    } else if !x.first.deciphers {
      r := Err(CipherFailure);
    } else if !needsRefresh(initial.value.secret.value, now) {
      r := Ok(Unchanged);
    } else {
      AwaitIdle(shared);
      ghost var mid, midSeen := shared.store, |shared.seen|;
      r, token, inner, held := AcquireAndRefresh(shared, owner, leaseFor, x, needsRefresh, upstream);
      FreshToken(mid, |start.log|);
      WroteSince(start, mid, shared.store, token, inner == Ok(Refreshed));
      ghost var all := Sight(shared.seen, from, start.now, shared.store.now);
      assert all.seen[midSeen - 1] == mid;
      LeaseAnswers(sight, Sight(shared.seen, midSeen, mid.now, shared.store.now), all, initial.value, now, mid, x,
                   needsRefresh, upstream, held, inner);
      return;
    }
    inner := r;
  }

  // A failing heartbeat or release hides the result: the task failed, the release's answer was lost, or the lease
  // was gone by then.
  ghost predicate Hidden(seen: seq<Store>, x: Conditions, owner: string, token: Token) {
    !x.stops || !x.releases || exists k :: 0 <= k < |seen| && !Holds(seen[k].lease, owner, token, seen[k].now)
  }

  lemma FirstLookDecides(v: Sight, s: Store, x: Conditions, needsRefresh: (Secret, int) -> bool,
                         upstream: Secret -> Option<Secret>, now: int)
    requires v.from < |v.seen| && v.seen[|v.seen| - 1] == s && v.start <= now <= v.end
    ensures !x.first.readable ==> AnsweredInAll(v, x, needsRefresh, upstream, false, Err(StoreFailure(Unavailable)))
    ensures x.first.readable && s.account.None? ==> AnsweredInAll(v, x, needsRefresh, upstream, false, Err(AccountNotFound))
    ensures x.first.readable && s.account.Some? && SetupRequired(s.account.value) ==>
              AnsweredInAll(v, x, needsRefresh, upstream, false, Err(NeedsSetup))
    ensures x.first.readable && s.account.Some? && !SetupRequired(s.account.value) && s.account.value.disabled ==>
              AnsweredInAll(v, x, needsRefresh, upstream, false, Err(AccountDisabled))
    ensures x.first.readable && s.account.Some? && IsActive(s.account.value) ==>
      && (!x.first.deciphers ==> AnsweredInAll(v, x, needsRefresh, upstream, false, Err(CipherFailure)))
      && var due := needsRefresh(s.account.value.secret.value, now);
      && SawActive(v, needsRefresh, s.account.value, now, due)
      && (x.first.deciphers && !due ==> AnsweredInAll(v, x, needsRefresh, upstream, false, Ok(Unchanged)))
  {
    if x.first.readable {
      LookAnswers(v, s, x.first, needsRefresh, now);
      hide Looked;
    }
    hide Saw, SawActive, Attempted, AnsweredUnderLease;
  }

  // The answer of the lease's part in the sight of the whole call.
  lemma LeaseAnswers(v: Sight, w: Sight, all: Sight, rec: Record, now: int, mid: Store, x: Conditions,
                     needsRefresh: (Secret, int) -> bool, upstream: Secret -> Option<Secret>, held: bool,
                     r: Result<Outcome, AuthError>)
    requires v.seen <= all.seen && v.from == all.from && v.start == all.start && v.end <= all.end
    requires w.seen == all.seen && all.from <= w.from && all.start <= w.start && w.end == all.end
    requires SawActive(v, needsRefresh, rec, now, true) && x.first == Look(true, true)
    requires all.from < w.from <= |all.seen| && all.seen[w.from - 1] == mid
    requires AnsweredByLease(w, mid, x, needsRefresh, upstream, held, r)
    ensures AnsweredInAll(all, x, needsRefresh, upstream, held, r)
  {
    LookedInAll(v, all, x.second, needsRefresh, r);
    LookedInAll(w, all, x.second, needsRefresh, r);
    assert SawActive(all, needsRefresh, rec, now, true);
    if IsLive(mid.lease, mid.now) {
      assert SawBusy(all);
    }
    hide Looked, Saw, SawActive, Attempted, SawBusy;
    assert AnsweredUnderLease(w, x, needsRefresh, upstream, held, r) ==> AnsweredUnderLease(all, x, needsRefresh, upstream, held, r);
    hide AnsweredUnderLease;
  }

  // From the lease request on, made over the store `mid`.
  ghost predicate AnsweredByLease(v: Sight, mid: Store, x: Conditions, needsRefresh: (Secret, int) -> bool,
                                  upstream: Secret -> Option<Secret>, held: bool, r: Result<Outcome, AuthError>) {
    || (r == Err(LeaseFailure) && !(x.delivered && x.answered && x.starts))
    || (r == Err(AccountBusy) && x.delivered && x.answered && IsLive(mid.lease, mid.now))
    || (x.delivered && x.answered && x.starts && AnsweredUnderLease(v, x, needsRefresh, upstream, held, r))
  }

  // No write carries a token that was not drawn yet.
  lemma FreshToken(s: Store, from: nat)
    requires StoreGood(s)
    ensures forall token :: token >= s.nextToken ==> NotBy(s.log, from, token)
  {
    hide Chain, TokensAscend;
  }

  lemma FreshTokenIsNotHeld(s: Store, owner: string, token: Token)
    requires StoreGood(s) && token >= s.nextToken
    ensures !Holds(s.lease, owner, token, s.now)
  {
    hide Chain, TokensAscend;
  }

  lemma WroteSince(start: Store, mid: Store, end: Store, token: Token, wrote: bool)
    requires start.log <= mid.log <= end.log && NotBy(mid.log, |start.log|, token)
    requires Wrote(end.log, |mid.log|, token) <==> wrote
    ensures Wrote(end.log, |start.log|, token) <==> wrote
  {
    if !wrote {
      forall k | |start.log| <= k < |end.log| && HasToken(end.log[k].origin)
        ensures end.log[k].origin.token != token
      {
        if k < |mid.log| {
          assert end.log[k] == mid.log[k];
        }
      }
    }
  }

  // From the acquisition to the release. The acquisition or its answer may get lost, and the heartbeat may refuse to
  // start; the lease then stays until it expires. `held` is whether the token held the lease before it was given back.
  method AcquireAndRefresh(shared: Shared, owner: string, leaseFor: int, x: Conditions,
                           needsRefresh: (Secret, int) -> bool, upstream: Secret -> Option<Secret>)
    returns (r: Result<Outcome, AuthError>, ghost token: Token, ghost inner: Result<Outcome, AuthError>, ghost held: bool)
    requires StoreGood(shared.store)
    modifies shared
    ensures StoreGood(shared.store) && old(shared.store).now <= shared.store.now && old(shared.store).log <= shared.store.log
    ensures token >= old(shared.store).nextToken && old(shared.seen) <= shared.seen
    ensures AnsweredByLease(Sight(shared.seen, |old(shared.seen)|, old(shared.store).now, shared.store.now), old(shared.store), x,
                            needsRefresh, upstream, held, inner)
    ensures r == inner || (r == Err(LeaseFailure) && Hidden(shared.seen, x, owner, token))
    ensures !x.delivered || (x.answered && x.starts) ==> !Holds(shared.store.lease, owner, token, shared.store.now)
    ensures Wrote(shared.store.log, |old(shared.store).log|, token) <==> inner == Ok(Refreshed)
    ensures inner == Ok(Refreshed) ==>
      exists log: seq<Write>, current, replacement, now ::
        && log <= shared.store.log && old(shared.store).now <= now <= shared.store.now
        && needsRefresh(current, now) && upstream(current) == Some(replacement)
        && CommittedOver(log, token, current, replacement)
  {
    hide StoreGood, CommittedOver, NotBy, Looked, Saw, SawActive, AnsweredUnderLease, Attempted;
    var s := shared.store;
    var mine := s.nextToken;
    token, held := mine, false;
    var (row, lease) := Acquire(s.lease, s.now, owner, mine, leaseFor);
    AcquiringKeepsGood(s, owner, leaseFor);
    FreshToken(s, |s.log|);
    FreshTokenIsNotHeld(s, owner, mine);
    if x.delivered {
      shared.store := s.(lease := row, nextToken := mine + 1);
    }
    if !x.delivered || !x.answered || (lease.Some? && !x.starts) {
      r := Err(LeaseFailure);
      inner := r;
      return;
    }
    if lease.None? {
      r := Err(AccountBusy);
      inner := r;
      return;
    }
    ghost var from := |shared.seen|;
    r := RefreshUnderLease(shared, owner, mine, x, needsRefresh, upstream);
    inner := r;
    ghost var done, near := shared.store, Sight(shared.seen, from, s.now, shared.store.now);
    held := Holds(done.lease, owner, mine, done.now);
    AwaitUnloaded(shared, mine);
    UnderLeaseInAll(near, Sight(shared.seen, from, s.now, shared.store.now), x, needsRefresh, upstream, held, inner);
    UnderLeaseWrote(s, done, shared.store, mine, inner == Ok(Refreshed));
    ReleasingKeepsGood(shared.store, owner, mine);
    assert shared.seen[|shared.seen| - 1] == shared.store;
    var (after, answer) := Release(shared.store.lease, shared.store.now, owner, mine);
    shared.store := shared.store.(lease := after);
    if !x.stops || !x.releases || answer.Err? {
      r := Err(LeaseFailure);
    }
  }

  lemma UnderLeaseInAll(v: Sight, w: Sight, x: Conditions, needsRefresh: (Secret, int) -> bool,
                        upstream: Secret -> Option<Secret>, held: bool, r: Result<Outcome, AuthError>)
    requires v.seen <= w.seen && w.from <= v.from && w.start <= v.start && v.end <= w.end
    requires AnsweredUnderLease(v, x, needsRefresh, upstream, held, r)
    ensures AnsweredUnderLease(w, x, needsRefresh, upstream, held, r)
  {
    LookedInAll(v, w, x.second, needsRefresh, r);
    hide Looked, SawActive, Attempted, Saw;
  }

  lemma UnderLeaseWrote(start: Store, done: Store, end: Store, token: Token, wrote: bool)
    requires start.log <= done.log && Grown(done, end, token)
    requires if wrote then WroteOnce(done.log, |start.log|, token) else NotBy(done.log, |start.log|, token)
    ensures Wrote(end.log, |start.log|, token) <==> wrote
  {
    hide StoreGood;
    if wrote {
      var k := |done.log| - 1;
      assert end.log[k] == done.log[k];
    } else {
      forall k | |start.log| <= k < |end.log| && HasToken(end.log[k].origin)
        ensures end.log[k].origin.token != token
      {
        if k < |done.log| {
          assert end.log[k] == done.log[k];
        }
      }
    }
  }

  lemma AcquiringKeepsGood(s: Store, owner: string, duration: int)
    requires StoreGood(s)
    ensures StoreGood(s.(lease := Acquire(s.lease, s.now, owner, s.nextToken, duration).0, nextToken := s.nextToken + 1))
  {
    hide Chain, TokensAscend;
  }

  lemma ReleasingKeepsGood(s: Store, owner: string, token: Token)
    requires StoreGood(s)
    ensures StoreGood(s.(lease := Release(s.lease, s.now, owner, token).0))
  {
    hide Chain, TokensAscend;
  }
}
