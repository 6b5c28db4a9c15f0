/** Credential versions of one account while any number of replicas take, keep, lose and use its lease. */
module CredentialRuns {
  import opened Options
  import opened AccountLease

  type Secret = nat
  type AgentId = nat

  datatype Record = Record(version: nat, secret: Option<Secret>, disabled: bool)

  // A placeholder row still requires setup.
  predicate SetupRequired(r: Record) {
    r.secret.None?
  }

  // How a version came to be. A replacement names its token, the version it read and how many writes it had seen.
  datatype Origin = Provisioned | Placeholder | Replaced(token: Token, read: nat, seen: nat) | Enrolled(token: Token, seen: nat)

  // Every version ever stored; deleting and creating the account starts a new incarnation.
  datatype Write = Write(incarnation: nat, version: nat, secret: Option<Secret>, origin: Origin)

  datatype Store = Store(now: int, account: Option<Record>, lease: Option<Lease>, nextToken: Token,
                         incarnation: nat, log: seq<Write>)

  datatype StoreError = Conflict | NotFound | Unavailable

  // ---- The repository's operations

  function Create(s: Store, secret: Option<Secret>): Result<Store, StoreError> {
    if s.account.Some? then Err(Conflict)
    else
      var write := Write(s.incarnation + 1, 1, secret, if secret.Some? then Provisioned else Placeholder);
      Ok(s.(account := Some(Record(1, secret, false)), incarnation := s.incarnation + 1, log := s.log + [write]))
  }

  // Replacing needs the live fencing token and the version that was read.
  function Replace(s: Store, expected: nat, secret: Secret, owner: string, token: Token, seen: nat): Result<Store, StoreError> {
    if Holds(s.lease, owner, token, s.now) && s.account.Some? && s.account.value.version == expected
       && !SetupRequired(s.account.value)
    then
      var write := Write(s.incarnation, expected + 1, Some(secret), Replaced(token, expected, seen));
      Ok(s.(account := Some(s.account.value.(version := expected + 1, secret := Some(secret))), log := s.log + [write]))
    else Err(Conflict)
  }

  function Enroll(s: Store, secret: Secret, owner: string, token: Token, seen: nat): Result<Store, StoreError> {
    if Holds(s.lease, owner, token, s.now) && s.account.Some? && SetupRequired(s.account.value)
    then
      var version := s.account.value.version + 1;
      var write := Write(s.incarnation, version, Some(secret), Enrolled(token, seen));
      Ok(s.(account := Some(s.account.value.(version := version, secret := Some(secret))), log := s.log + [write]))
    else Err(Conflict)
  }

  // Deleting the account deletes its lease row in the same transaction.
  function Delete(s: Store): Result<Store, StoreError> {
    if s.account.None? then Err(NotFound) else Ok(s.(account := None, lease := None))
  }

  function SetDisabled(s: Store, disabled: bool): Result<Store, StoreError> {
    if s.account.None? then Err(NotFound) else Ok(s.(account := Some(s.account.value.(disabled := disabled))))
  }

  // ---- The system

  datatype Phase =
    | Idle
    | Leased(owner: string, token: Token)
    | Loaded(owner: string, token: Token, read: Record, seen: nat)

  datatype System = System(store: Store, agents: map<AgentId, Phase>)

  datatype Action =
    | Tick(delta: nat)
    | TakeLease(agent: AgentId, owner: string, duration: int)
    | Beat(agent: AgentId, duration: int)
    | Load(agent: AgentId)
    | CommitReplacement(agent: AgentId, secret: Secret)
    | GiveBack(agent: AgentId)
    | Crash(agent: AgentId)
    | Provision(initial: Option<Secret>)
    | DeleteAccount
    | Disable(disabled: bool)

  function PhaseOf(s: System, agent: AgentId): Phase {
    if agent in s.agents then s.agents[agent] else Idle
  }

  function Applied(s: Store, r: Result<Store, StoreError>): Store {
    if r.Ok? then r.value else s
  }

  // The commit of `replace` and `refresh_under_lease`: a placeholder is enrolled, anything else replaced.
  function Commit(s: Store, phase: Phase, secret: Secret): Result<Store, StoreError>
    requires phase.Loaded?
  {
    if SetupRequired(phase.read) then Enroll(s, secret, phase.owner, phase.token, phase.seen)
    else Replace(s, phase.read.version, secret, phase.owner, phase.token, phase.seen)
  }

  function After(s: System, a: Action): System {
    var store := s.store;
    match a
    case Tick(delta) => s.(store := store.(now := store.now + delta))
    case TakeLease(agent, owner, duration) =>
      if !PhaseOf(s, agent).Idle? then s
      else
        var (row, lease) := Acquire(store.lease, store.now, owner, store.nextToken, duration);
        System(store.(lease := row, nextToken := store.nextToken + 1),
               if lease.Some? then s.agents[agent := Leased(owner, store.nextToken)] else s.agents)
    case Beat(agent, duration) =>
      var phase := PhaseOf(s, agent);
      if phase.Idle? then s
      else s.(store := store.(lease := Heartbeat(store.lease, store.now, phase.owner, phase.token, duration).0))
    case Load(agent) =>
      var phase := PhaseOf(s, agent);
      if phase.Idle? || store.account.None? then s
      else s.(agents := s.agents[agent := Loaded(phase.owner, phase.token, store.account.value, |store.log|)])
    case CommitReplacement(agent, secret) =>
      var phase := PhaseOf(s, agent);
      if !phase.Loaded? then s
      else System(Applied(store, Commit(store, phase, secret)), s.agents[agent := Leased(phase.owner, phase.token)])
    case GiveBack(agent) =>
      var phase := PhaseOf(s, agent);
      if phase.Idle? then s
      else System(store.(lease := Release(store.lease, store.now, phase.owner, phase.token).0), s.agents[agent := Idle])
    case Crash(agent) => s.(agents := s.agents[agent := Idle])
    case Provision(secret) => s.(store := Applied(store, Create(store, secret)))
    case DeleteAccount => s.(store := Applied(store, Delete(store)))
    case Disable(disabled) => s.(store := Applied(store, SetDisabled(store, disabled)))
  }

  // ---- The version chain

  predicate HasToken(o: Origin) {
    o.Replaced? || o.Enrolled?
  }

  // Write k starts an incarnation, or directly follows the very write it had read.
  predicate Follows(log: seq<Write>, k: nat)
    requires k < |log|
  {
    var w := log[k];
    match w.origin
    case Provisioned => w.version == 1 && w.secret.Some? && (k > 0 ==> w.incarnation > log[k - 1].incarnation)
    case Placeholder => w.version == 1 && w.secret.None? && (k > 0 ==> w.incarnation > log[k - 1].incarnation)
    case Replaced(_, read, seen) =>
      && k > 0 && seen == k && w.incarnation == log[k - 1].incarnation
      && read == log[k - 1].version && log[k - 1].secret.Some? && w.secret.Some? && w.version == read + 1
    case Enrolled(_, seen) =>
      && k > 0 && seen == k && w.incarnation == log[k - 1].incarnation
      && log[k - 1].secret.None? && w.secret.Some? && w.version == log[k - 1].version + 1
  }

  predicate Chain(log: seq<Write>) {
    forall k: nat :: k < |log| ==> Follows(log, k)
  }

  // Tokens of successive writes never go back.
  predicate TokensAscend(log: seq<Write>) {
    forall j, k :: 0 <= j < k < |log| && HasToken(log[j].origin) && HasToken(log[k].origin) ==>
      log[j].origin.token <= log[k].origin.token
  }

  // The log ends with the current account, and knows only tokens up to the current lease.
  predicate StoreGood(s: Store) {
    && Chain(s.log) && TokensAscend(s.log)
    && (forall k :: 0 <= k < |s.log| ==> s.log[k].incarnation <= s.incarnation)
    && (s.account.Some? ==>
          && s.log != []
          && var last := s.log[|s.log| - 1];
          last.incarnation == s.incarnation && last.version == s.account.value.version && last.secret == s.account.value.secret)
    && (s.lease.Some? ==> s.lease.value.token < s.nextToken)
    && (forall k :: 0 <= k < |s.log| && HasToken(s.log[k].origin) ==>
          s.log[k].origin.token < s.nextToken && (s.lease.Some? ==> s.log[k].origin.token <= s.lease.value.token))
  }

  // As long as the agent's token is in the lease row, what it loaded is still the stored record.
  ghost predicate AgentGood(s: Store, phase: Phase) {
    && (!phase.Idle? ==> phase.token < s.nextToken)
    && (phase.Loaded? ==> phase.seen <= |s.log|)
    && (phase.Loaded? && s.lease.Some? && s.lease.value.token == phase.token ==>
          && phase.seen == |s.log| && s.account.Some?
          && s.account.value.version == phase.read.version && s.account.value.secret == phase.read.secret)
  }

  ghost predicate Distinct(s: System) {
    forall a, b :: a != b && !PhaseOf(s, a).Idle? && !PhaseOf(s, b).Idle? ==> PhaseOf(s, a).token != PhaseOf(s, b).token
  }

  ghost predicate Good(s: System) {
    StoreGood(s.store) && Distinct(s) && forall agent :: AgentGood(s.store, PhaseOf(s, agent))
  }

  // Appending one write that follows the last keeps the chain.
  lemma PushWrite(s: Store, w: Write)
    requires StoreGood(s) && w.incarnation >= s.incarnation
    requires Follows(s.log + [w], |s.log|)
    requires HasToken(w.origin) ==> s.lease.Some? && w.origin.token == s.lease.value.token
    ensures Chain(s.log + [w]) && TokensAscend(s.log + [w])
  {
    var log := s.log + [w];
    forall k: nat | k < |log|
      ensures Follows(log, k)
    {
      if k < |s.log| {
        assert Follows(s.log, k);
      }
    }
  }

  lemma CommitKeepsStore(s: Store, phase: Phase, secret: Secret)
    requires StoreGood(s) && phase.Loaded? && AgentGood(s, phase)
    ensures StoreGood(Applied(s, Commit(s, phase, secret)))
  {
    var r := Commit(s, phase, secret);
    if r.Ok? {
      var w := r.value.log[|s.log|];
      assert r.value.log == s.log + [w];
      assert Follows(s.log + [w], |s.log|);
      PushWrite(s, w);
    }
  }

  lemma CreateKeepsStore(s: Store, secret: Option<Secret>)
    requires StoreGood(s)
    ensures StoreGood(Applied(s, Create(s, secret)))
  {
    var r := Create(s, secret);
    if r.Ok? {
      var w := r.value.log[|s.log|];
      assert Follows(s.log + [w], |s.log|);
      PushWrite(s, w);
    }
  }

  lemma StepKeepsStore(s: System, a: Action)
    requires Good(s)
    ensures StoreGood(After(s, a).store)
  {
    match a {
      case CommitReplacement(agent, secret) =>
        assert AgentGood(s.store, PhaseOf(s, agent));
        if PhaseOf(s, agent).Loaded? {
          CommitKeepsStore(s.store, PhaseOf(s, agent), secret);
        }
      case Provision(secret) =>
        CreateKeepsStore(s.store, secret);
      case _ =>
        hide Chain, TokensAscend;
    }
  }

  lemma StepKeepsAgents(s: System, a: Action)
    requires Good(s)
    ensures Distinct(After(s, a)) && forall agent :: AgentGood(After(s, a).store, PhaseOf(After(s, a), agent))
  {
    var after := After(s, a);
    hide StoreGood;
    assert s.store.lease.Some? ==> s.store.lease.value.token < s.store.nextToken by { LeaseToken(s.store); }
    forall agent
      ensures AgentGood(after.store, PhaseOf(after, agent))
    {
      assert AgentGood(s.store, PhaseOf(s, agent));
    }
    forall b, d | b != d && !PhaseOf(after, b).Idle? && !PhaseOf(after, d).Idle?
      ensures PhaseOf(after, b).token != PhaseOf(after, d).token
    {
      assert AgentGood(s.store, PhaseOf(s, b)) && AgentGood(s.store, PhaseOf(s, d));
    }
  }

  lemma LeaseToken(s: Store)
    requires StoreGood(s)
    ensures s.lease.Some? ==> s.lease.value.token < s.nextToken
  {
  }

  /** Every step of any agent, and of administration, keeps the version chain and every agent's fence. */
  lemma StepKeepsGood(s: System, a: Action)
    requires Good(s)
    ensures Good(After(s, a))
  {
    StepKeepsStore(s, a);
    StepKeepsAgents(s, a);
    hide After;
  }

  function End(s: System, actions: seq<Action>): System
    decreases |actions|
  {
    if actions == [] then s else End(After(s, actions[0]), actions[1..])
  }

  lemma {:induction false} RunsKeepGood(s: System, actions: seq<Action>)
    requires Good(s)
    ensures Good(End(s, actions))
    decreases |actions|
  {
    if actions != [] {
      StepKeepsGood(s, actions[0]);
      hide Good, After;
      RunsKeepGood(After(s, actions[0]), actions[1..]);
    }
  }

  lemma {:induction false} VersionsClimb(log: seq<Write>, j: nat, k: nat)
    requires Chain(log) && j < k < |log|
    ensures log[j].incarnation < log[k].incarnation
         || (log[j].incarnation == log[k].incarnation && log[j].version < log[k].version)
    decreases k
  {
    assert Follows(log, k);
    if j < k - 1 {
      VersionsClimb(log, j, k - 1);
    }
  }

  ghost predicate WrittenOnce(log: seq<Write>) {
    forall j, k :: 0 <= j < k < |log| ==> (log[j].incarnation, log[j].version) != (log[k].incarnation, log[k].version)
  }

  // A replacement's record number k is the next version after number k - 1, which is the one it had read.
  ghost predicate NothingBetween(log: seq<Write>) {
    forall k :: 0 <= k < |log| && log[k].origin.Replaced? ==>
      && k > 0 && log[k].origin.seen == k && log[k].origin.read == log[k - 1].version
      && log[k].incarnation == log[k - 1].incarnation && log[k].version == log[k - 1].version + 1
  }

  lemma ChainMeans(log: seq<Write>)
    requires Chain(log)
    ensures WrittenOnce(log) && NothingBetween(log)
  {
    forall j, k | 0 <= j < k < |log|
      ensures (log[j].incarnation, log[j].version) != (log[k].incarnation, log[k].version)
    {
      VersionsClimb(log, j, k);
    }
    forall k | 0 <= k < |log| && log[k].origin.Replaced?
      ensures k > 0 && log[k].origin.seen == k && log[k].origin.read == log[k - 1].version
        && log[k].incarnation == log[k - 1].incarnation && log[k].version == log[k - 1].version + 1
    {
      assert Follows(log, k);
    }
  }

  const EMPTY := System(Store(0, None, None, 0, 0, []), map[])

  /**
   * Over every run from an empty store: each stored version of each incarnation was written exactly once;
   * each replacement overwrote the very record it had read, so no committed update was lost; and the fencing
   * tokens of successive writes never go back.
   */
  lemma NoUpdateIsLost(actions: seq<Action>)
    ensures var log := End(EMPTY, actions).store.log;
      WrittenOnce(log) && NothingBetween(log) && TokensAscend(log)
  {
    assert Good(EMPTY);
    RunsKeepGood(EMPTY, actions);
    hide End;
    ChainMeans(End(EMPTY, actions).store.log);
  }

  /**
   * In every reachable state a loaded agent's commit succeeds exactly when its token holds the live lease:
   * the version check can only fail together with the lease.
   */
  lemma CommitsIffLeaseIsLive(s: System, agent: AgentId, secret: Secret)
    requires Good(s) && PhaseOf(s, agent).Loaded?
    ensures var phase := PhaseOf(s, agent);
      Commit(s.store, phase, secret).Ok? <==> Holds(s.store.lease, phase.owner, phase.token, s.store.now)
  {
    assert AgentGood(s.store, PhaseOf(s, agent));
    hide StoreGood, Distinct;
  }

  // ---- Stale holders

  ghost predicate IsDead(s: Store, owner: string, token: Token) {
    token < s.nextToken && !Holds(s.lease, owner, token, s.now)
  }

  /** A token that lost its lease never holds it again, over every run, so its holder never writes again. */
  lemma {:induction false} StaleHoldersNeverWrite(s: System, actions: seq<Action>, owner: string, token: Token)
    requires Good(s) && IsDead(s.store, owner, token)
    ensures IsDead(End(s, actions).store, owner, token)
    ensures forall expected, secret, seen :: Replace(End(s, actions).store, expected, secret, owner, token, seen) == Err(Conflict)
    ensures forall secret, seen :: Enroll(End(s, actions).store, secret, owner, token, seen) == Err(Conflict)
    decreases |actions|
  {
    if actions != [] {
      StepKeepsGood(s, actions[0]);
      DeadStays(s, actions[0], owner, token);
      hide Good, After;
      StaleHoldersNeverWrite(After(s, actions[0]), actions[1..], owner, token);
    }
  }

  lemma DeadStays(s: System, a: Action, owner: string, token: Token)
    requires IsDead(s.store, owner, token)
    ensures IsDead(After(s, a).store, owner, token)
  {
  }

  // ---- Administration

  /** Deleting the account ends every lease on it: no token drawn before ever writes again, not even after it is provisioned anew. */
  lemma DeletionFencesEverybody(s: System, actions: seq<Action>, owner: string, token: Token)
    requires Good(s) && s.store.account.Some? && token < s.store.nextToken
    ensures var deleted := After(s, DeleteAccount);
      && deleted.store.account.None? && IsDead(deleted.store, owner, token)
      && IsDead(End(deleted, actions).store, owner, token)
  {
    StepKeepsGood(s, DeleteAccount);
    assert IsDead(After(s, DeleteAccount).store, owner, token);
    hide Good, After;
    StaleHoldersNeverWrite(After(s, DeleteAccount), actions, owner, token);
  }

  /** Creating starts a new incarnation at version 1, and only if there is no account. */
  lemma ProvisionStartsOver(s: System, secret: Option<Secret>)
    ensures var after := After(s, Provision(secret)).store;
      if s.store.account.Some? then after == s.store
      else after.account == Some(Record(1, secret, false)) && after.incarnation > s.store.incarnation && after.lease == s.store.lease
  {
  }

  /** Only disabling and enabling, deletion and provisioning change whether an account is disabled, over every run. */
  lemma {:induction false} DisabledStays(s: System, actions: seq<Action>)
    requires s.store.account.Some?
    requires forall a :: a in actions ==> !a.Disable? && a != DeleteAccount
    ensures var end := End(s, actions).store;
      end.account.Some? && end.account.value.disabled == s.store.account.value.disabled
    decreases |actions|
  {
    if actions != [] {
      assert actions[0] in actions;
      OtherActionsKeepTheFlag(s, actions[0]);
      hide After;
      DisabledStays(After(s, actions[0]), actions[1..]);
    }
  }

  lemma OtherActionsKeepTheFlag(s: System, a: Action)
    requires s.store.account.Some? && !a.Disable? && a != DeleteAccount
    ensures var after := After(s, a).store;
      after.account.Some? && after.account.value.disabled == s.store.account.value.disabled
  {
  }

  lemma DisableSetsTheFlag(s: System, disabled: bool)
    ensures var after := After(s, Disable(disabled)).store;
      && after == s.store.(account := after.account)
      && (s.store.account.Some? ==>
            after.account == Some(Record(s.store.account.value.version, s.store.account.value.secret, disabled)))
      && (s.store.account.None? ==> after.account.None?)
  {
  }

  // ---- Undisturbed

  /** An idle agent gets the lease, under a fresh token, exactly when nobody holds it live. */
  lemma IdleAgentGetsTheLeaseIff(s: System, agent: AgentId, owner: string, duration: int)
    requires Good(s) && PhaseOf(s, agent).Idle? && duration > 0
    ensures var after := After(s, TakeLease(agent, owner, duration));
      && (PhaseOf(after, agent) == Leased(owner, s.store.nextToken) <==> !IsLive(s.store.lease, s.store.now))
      && (!IsLive(s.store.lease, s.store.now) ==> Holds(after.store.lease, owner, s.store.nextToken, s.store.now))
      && (IsLive(s.store.lease, s.store.now) ==> PhaseOf(after, agent).Idle? && after.store.lease == s.store.lease)
      && after.store.nextToken == s.store.nextToken + 1
  {
    hide StoreGood;
  }

  /** Lease, load, commit, give back: undisturbed, this replaces or enrolls the secret, and leaves the account free. */
  lemma UndisturbedReplacementCommits(s: System, agent: AgentId, owner: string, duration: int, secret: Secret)
    requires PhaseOf(s, agent).Idle? && duration > 0 && s.store.account.Some? && !IsLive(s.store.lease, s.store.now)
    ensures var leased := After(s, TakeLease(agent, owner, duration));
      var committed := After(After(leased, Load(agent)), CommitReplacement(agent, secret));
      var done := After(committed, GiveBack(agent));
      && done.store.account == Some(s.store.account.value.(version := s.store.account.value.version + 1, secret := Some(secret)))
      && |done.store.log| == |s.store.log| + 1
      && done.store.lease.None? && PhaseOf(done, agent).Idle?
  {
  }

  /** A heartbeat keeps the lease of an agent that holds it, and a crash leaves it to expire. */
  lemma BeatKeepsTheLease(s: System, agent: AgentId, duration: int)
    requires !PhaseOf(s, agent).Idle? && duration > 0
    ensures var owner, token := PhaseOf(s, agent).owner, PhaseOf(s, agent).token;
      && (Holds(s.store.lease, owner, token, s.store.now) ==>
            && Holds(After(s, Beat(agent, duration)).store.lease, owner, token, s.store.now)
            && After(s, Beat(agent, duration)).store.lease.value.until == s.store.now + duration)
      && After(s, Crash(agent)).store == s.store && PhaseOf(After(s, Crash(agent)), agent).Idle?
  {
  }

  /** A live holder with the current version can replace credentials or enroll a placeholder, never the other way round. */
  lemma ReplaceOrEnroll(s: Store, secret: Secret, owner: string, token: Token, seen: nat)
    requires Holds(s.lease, owner, token, s.now) && s.account.Some?
    ensures Replace(s, s.account.value.version, secret, owner, token, seen).Ok? <==> !SetupRequired(s.account.value)
    ensures Enroll(s, secret, owner, token, seen).Ok? <==> SetupRequired(s.account.value)
  {
  }
}
