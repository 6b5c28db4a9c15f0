/** Any number of article writers, interleaved in any order with each other and with source administration. */
module ArticleRuns {
  import opened Options
  import opened ArticleStore
  import opened ArticleHandlers
  import opened ArticleLaws
  import UrlRewriter
  import AssetFetch

  type WorkerId = nat

  // What a worker acquired outside any transaction.
  datatype Work = BackfillWork(observation: Prepared) | RefreshWork(requested: RefreshOutcome, prepared: Option<Prepared>)

  datatype Claim = Claim(job: JobId, token: nat, key: Key, version: nat)

  datatype Phase =
    | Idle
    | Reserved(claim: Claim)
    | Ready(claim: Claim, work: Work)
      // A transaction is open and holds the lock of the source row, if there is one.
    | Locked(claim: Claim, work: Work, revision: Option<nat>)

  datatype State = State(db: Db, nextVersion: nat, workers: map<WorkerId, Phase>)

  datatype Action =
    | ReserveVersion(w: WorkerId, job: JobId, token: nat, key: Key)
    | FinishAcquisition(w: WorkerId, work: Work)
    | LockSource(w: WorkerId)
    | CommitWork(w: WorkerId, answer: StoreAnswer)
    | Abort(w: WorkerId)
      // A refresh job that lost its target is finished without any other write.
    | FinishUnresolvable(w: WorkerId)
      // The rest of the service.
    | ClaimJob(job: JobId, token: nat)
    | RebuildDone(source: SourceId)
    | AddSource(source: SourceId)
    | BumpSource(source: SourceId)
    | RemoveSource(source: SourceId)

  function PhaseOf(s: State, w: WorkerId): Phase {
    if w in s.workers then s.workers[w] else Idle
  }

  predicate HoldsLock(phase: Phase, source: SourceId) {
    phase.Locked? && phase.revision.Some? && phase.claim.key.source == source
  }

  ghost predicate IsLocked(s: State, source: SourceId) {
    exists w :: HoldsLock(PhaseOf(s, w), source)
  }

  // The work belongs to the claim: its key and reserved version, with what acquisition guarantees.
  ghost predicate Belongs(c: Config, claim: Claim, work: Work) {
    match work
    case BackfillWork(p) => p.key == claim.key && p.article.version == claim.version && WellAcquired(c, p)
    case RefreshWork(requested, prepared) =>
      && requested != Superseded && (requested == Succeeded ==> prepared.Some?)
      && (prepared.Some? ==>
            && prepared.value.key == claim.key && prepared.value.article.version == claim.version
            && WellAcquired(c, prepared.value) && CompleteAcquisition(c, prepared.value))
  }

  function Inputs(work: Work): seq<AssetInput> {
    match work
    case BackfillWork(p) => p.fetched
    case RefreshWork(_, prepared) => if prepared.Some? then prepared.value.fetched else []
  }

  ghost predicate Enabled(c: Config, s: State, a: Action) {
    match a
    case ReserveVersion(w, _, _, _) => PhaseOf(s, w).Idle?
    case FinishAcquisition(w, work) => PhaseOf(s, w).Reserved? && Belongs(c, PhaseOf(s, w).claim, work)
    case LockSource(w) => PhaseOf(s, w).Ready? && !IsLocked(s, PhaseOf(s, w).claim.key.source)
    case CommitWork(w, answer) => PhaseOf(s, w).Locked? && Answers(answer, Inputs(PhaseOf(s, w).work))
    case Abort(_) => true
    case FinishUnresolvable(w) => PhaseOf(s, w).Reserved? || (PhaseOf(s, w).Ready? && PhaseOf(s, w).work.RefreshWork?)
    case ClaimJob(_, _) => true
    case RebuildDone(_) => true
    case AddSource(source) => source !in s.db.sources
    case BumpSource(source) => source in s.db.sources && !IsLocked(s, source)
    case RemoveSource(source) => !IsLocked(s, source)
  }

  // The transaction of a locked worker.
  function Transaction(c: Config, db: Db, phase: Phase, answer: StoreAnswer): Result<Db, StoreError>
    requires phase.Locked?
  {
    var claim := phase.claim;
    match phase.work
    case BackfillWork(p) =>
      if phase.revision.None? then Err(NotFound)
      else BackfillCommit(c, db, claim.key.source, phase.revision.value, p, answer, claim.job, claim.token)
    case RefreshWork(requested, prepared) =>
      match RefreshCommit(c, db, claim.key, phase.revision, Some(claim.version), requested, prepared, answer, claim.job, claim.token)
      case Err(error) => Err(error)
      case Ok(refreshed) => Ok(refreshed.db)
  }

  function After(c: Config, s: State, a: Action): State {
    match a
    case ReserveVersion(w, job, token, key) =>
      State(s.db, s.nextVersion + 1, s.workers[w := Reserved(Claim(job, token, key, s.nextVersion))])
    case FinishAcquisition(w, work) =>
      if PhaseOf(s, w).Reserved? then s.(workers := s.workers[w := Ready(PhaseOf(s, w).claim, work)]) else s
    case LockSource(w) =>
      var phase := PhaseOf(s, w);
      if !phase.Ready? then s
      else
        var source := phase.claim.key.source;
        var revision := if source in s.db.sources then Some(s.db.sources[source]) else None;
        s.(workers := s.workers[w := Locked(phase.claim, phase.work, revision)])
    case CommitWork(w, answer) =>
      var phase := PhaseOf(s, w);
      if !phase.Locked? then s
      else
        var done := s.(workers := s.workers[w := Idle]);
        var r := Transaction(c, s.db, phase, answer);
        if r.Err? then done else done.(db := r.value)
    case Abort(w) => s.(workers := s.workers[w := Idle])
    case FinishUnresolvable(w) =>
      var phase := PhaseOf(s, w);
      if phase.Idle? then s
      else
        var r := FinishJob(s.db, phase.claim.job, phase.claim.token);
        State(if r.Ok? then r.value else s.db, s.nextVersion, s.workers[w := Idle])
    case ClaimJob(job, token) => s.(db := s.db.(jobs := s.db.jobs[job := Running(token)]))
    case RebuildDone(source) => s.(db := s.db.(rebuilds := s.db.rebuilds - {source}))
    case AddSource(source) => s.(db := s.db.(sources := s.db.sources[source := 0]))
    case BumpSource(source) =>
      if source in s.db.sources then s.(db := s.db.(sources := s.db.sources[source := s.db.sources[source] + 1])) else s
    case RemoveSource(source) => s.(db := DeleteSource(s.db, source))
  }

  // ---- The invariant

  ghost predicate LockCurrent(s: State, w: WorkerId) {
    var phase := PhaseOf(s, w);
    phase.Locked? && phase.revision.Some? ==>
      phase.claim.key.source in s.db.sources && s.db.sources[phase.claim.key.source] == phase.revision.value
  }

  ghost predicate WorkBelongs(c: Config, s: State, w: WorkerId) {
    var phase := PhaseOf(s, w);
    phase.Ready? || phase.Locked? ==> Belongs(c, phase.claim, phase.work)
  }

  // No two workers hold the lock of one source.
  ghost predicate Exclusive(s: State) {
    forall v, w, source :: HoldsLock(PhaseOf(s, v), source) && HoldsLock(PhaseOf(s, w), source) ==> v == w
  }

  ghost predicate Orderly(c: Config, s: State) {
    Exclusive(s) && forall w :: LockCurrent(s, w) && WorkBelongs(c, s, w)
  }

  ghost predicate Good(c: Config, s: State) {
    Orderly(c, s) && Linked(s.db)
  }

  // A refresh about to replace links has content, or there is nothing cached to lose.
  ghost predicate CarriesContent(s: State, a: Action) {
    a.CommitWork? && PhaseOf(s, a.w).Locked? && PhaseOf(s, a.w).work.RefreshWork?
    && PhaseOf(s, a.w).work.prepared.Some? && PhaseOf(s, a.w).claim.key in s.db.articles ==>
      PhaseOf(s, a.w).work.prepared.value.article.html != [] || IsFresh(s.db.articles[PhaseOf(s, a.w).claim.key].html)
  }

  // The source rows other than the worker's own are not written by its transaction.
  lemma TransactionSources(c: Config, db: Db, phase: Phase, answer: StoreAnswer)
    requires phase.Locked? && (phase.revision.Some? ==> phase.claim.key.source in db.sources
                                                        && db.sources[phase.claim.key.source] == phase.revision.value)
    ensures var r := Transaction(c, db, phase, answer);
      && (r.Ok? ==> forall source :: source != phase.claim.key.source ==>
            (source in r.value.sources <==> source in db.sources)
            && (source in db.sources ==> r.value.sources[source] == db.sources[source]))
      && (r.Ok? && phase.revision.None? ==> r.value.sources == db.sources)
      && (phase.revision.Some? && r.Err? ==> r.error == Storage || r.error == LeaseLost)
  {
    var claim := phase.claim;
    hide BackfillCommit, RefreshCommit;
    if phase.revision.Some? {
      match phase.work
      case BackfillWork(p) =>
        BackfillPublishes(c, db, claim.key.source, phase.revision.value, p, answer, claim.job, claim.token);
      case RefreshWork(requested, prepared) =>
        RefreshPublishes(c, db, claim.key, Some(claim.version), requested, prepared, answer, claim.job, claim.token);
    } else if phase.work.RefreshWork? {
      WithoutSource(c, db, claim, phase.work.requested, phase.work.prepared, answer);
    }
  }

  lemma WithoutSource(c: Config, db: Db, claim: Claim, requested: RefreshOutcome, prepared: Option<Prepared>, answer: StoreAnswer)
    ensures RefreshCommit(c, db, claim.key, None, Some(claim.version), requested, prepared, answer, claim.job, claim.token)
         == WithOutcome(FinishJob(db, claim.job, claim.token), Deleted)
  {
  }

  /** While a worker holds its lock, its revision compare-and-set cannot fail. */
  lemma RevisionNeverConflicts(c: Config, s: State, w: WorkerId, answer: StoreAnswer)
    requires Orderly(c, s) && PhaseOf(s, w).Locked? && PhaseOf(s, w).revision.Some?
    ensures var r := Transaction(c, s.db, PhaseOf(s, w), answer);
      r != Err(RevisionConflict) && r != Err(NotFound)
  {
    assert LockCurrent(s, w);
    TransactionSources(c, s.db, PhaseOf(s, w), answer);
  }

  lemma StaysExclusive(c: Config, s: State, a: Action)
    requires Exclusive(s) && Enabled(c, s, a)
    ensures Exclusive(After(c, s, a))
  {
    var after := After(c, s, a);
    hide Transaction, Belongs, DeleteSource;
    forall v, w, source | HoldsLock(PhaseOf(after, v), source) && HoldsLock(PhaseOf(after, w), source)
      ensures v == w
    {
      if a.LockSource? {
        assert v != a.w ==> HoldsLock(PhaseOf(s, v), source);
        assert w != a.w ==> HoldsLock(PhaseOf(s, w), source);
      } else {
        assert HoldsLock(PhaseOf(s, v), source) && HoldsLock(PhaseOf(s, w), source);
      }
    }
  }

  lemma CommitStaysOrderly(c: Config, s: State, w: WorkerId, answer: StoreAnswer)
    requires Orderly(c, s) && PhaseOf(s, w).Locked? && Enabled(c, s, CommitWork(w, answer))
    ensures Orderly(c, After(c, s, CommitWork(w, answer)))
  {
    var phase, after := PhaseOf(s, w), After(c, s, CommitWork(w, answer));
    assert LockCurrent(s, w);
    TransactionSources(c, s.db, phase, answer);
    StaysExclusive(c, s, CommitWork(w, answer));
    hide Transaction, Belongs;
    forall v
      ensures LockCurrent(after, v) && WorkBelongs(c, after, v)
    {
      assert LockCurrent(s, v) && WorkBelongs(c, s, v);
      assert v != w ==> PhaseOf(after, v) == PhaseOf(s, v);
      assert phase.revision.Some? ==> HoldsLock(PhaseOf(s, w), phase.claim.key.source);
      assert HoldsLock(PhaseOf(s, v), phase.claim.key.source) && phase.revision.Some? ==> v == w;
    }
  }

  lemma StaysOrderly(c: Config, s: State, a: Action)
    requires Orderly(c, s) && Enabled(c, s, a)
    ensures Orderly(c, After(c, s, a))
  {
    if a.CommitWork? {
      CommitStaysOrderly(c, s, a.w, a.answer);
    } else {
      StaysExclusive(c, s, a);
      hide Transaction, Belongs;
      var after := After(c, s, a);
      forall v
        ensures LockCurrent(after, v) && WorkBelongs(c, after, v)
      {
        assert LockCurrent(s, v) && WorkBelongs(c, s, v);
        var phase := PhaseOf(s, v);
        assert phase.Locked? && phase.revision.Some? ==> HoldsLock(phase, phase.claim.key.source);
      }
    }
  }

  // ---- Safety of the links over whole runs

  lemma TransactionKeepsLinked(c: Config, db: Db, phase: Phase, answer: StoreAnswer)
    requires phase.Locked? && Linked(db) && Belongs(c, phase.claim, phase.work) && Answers(answer, Inputs(phase.work))
    requires phase.revision.Some? ==> phase.claim.key.source in db.sources
                                      && db.sources[phase.claim.key.source] == phase.revision.value
    requires phase.work.RefreshWork? && phase.work.prepared.Some? && phase.claim.key in db.articles ==>
      phase.work.prepared.value.article.html != [] || IsFresh(db.articles[phase.claim.key].html)
    ensures Transaction(c, db, phase, answer).Ok? ==> Linked(Transaction(c, db, phase, answer).value)
  {
    var claim := phase.claim;
    var r := Transaction(c, db, phase, answer);
    if r.Ok? {
      match phase.work
      case BackfillWork(p) =>
        BackfillPublishes(c, db, claim.key.source, phase.revision.value, p, answer, claim.job, claim.token);
        ApplyKeepsLinked(c, db, p, answer);
        SameTables(ApplyArticle(c, db, p, answer).value.db, r.value);
      case RefreshWork(requested, prepared) =>
        RefreshKeepsLinked(c, db, claim, phase.revision, requested, prepared, answer);
    }
  }

  lemma SameTables(a: Db, b: Db)
    requires Linked(a) && a.articles == b.articles && a.links == b.links
    ensures Linked(b)
  {
    forall key
      ensures LinkedAt(b, key)
    {
      assert LinkedAt(a, key);
    }
  }

  lemma RefreshKeepsLinked(c: Config, db: Db, claim: Claim, locked: Option<nat>, requested: RefreshOutcome,
                           prepared: Option<Prepared>, answer: StoreAnswer)
    requires Linked(db) && Belongs(c, claim, RefreshWork(requested, prepared))
    requires Answers(answer, Inputs(RefreshWork(requested, prepared)))
    requires locked.Some? ==> claim.key.source in db.sources && db.sources[claim.key.source] == locked.value
    requires prepared.Some? && claim.key in db.articles ==>
      prepared.value.article.html != [] || IsFresh(db.articles[claim.key].html)
    ensures var r := RefreshCommit(c, db, claim.key, locked, Some(claim.version), requested, prepared, answer, claim.job, claim.token);
      r.Ok? ==> Linked(r.value.db)
  {
    var r := RefreshCommit(c, db, claim.key, locked, Some(claim.version), requested, prepared, answer, claim.job, claim.token);
    if locked.None? {
      WithoutSource(c, db, claim, requested, prepared, answer);
      if r.Ok? {
        SameTables(db, r.value.db);
      }
    } else if r.Ok? {
      RefreshPublishes(c, db, claim.key, Some(claim.version), requested, prepared, answer, claim.job, claim.token);
      if r.value.outcome == Succeeded {
        var p := prepared.value;
        RefreshKeepsLinkedIff(c, db, claim.key, p, answer.ids);
        SameTables(RefreshWrite(c, db, claim.key, p, answer.ids), r.value.db);
      } else {
        SameTables(db, r.value.db);
      }
    }
  }

  lemma DeletionKeepsLinked(db: Db, source: SourceId)
    requires Linked(db)
    ensures Linked(DeleteSource(db, source))
  {
    var after := DeleteSource(db, source);
    forall key
      ensures LinkedAt(after, key)
    {
      assert LinkedAt(db, key);
    }
  }

  /** Every step keeps every cached reference linked, refreshes without content excepted. */
  lemma StepKeepsGood(c: Config, s: State, a: Action)
    requires Good(c, s) && Enabled(c, s, a) && CarriesContent(s, a)
    ensures Good(c, After(c, s, a))
  {
    StaysOrderly(c, s, a);
    match a {
      case CommitWork(w, answer) =>
        assert LockCurrent(s, w) && WorkBelongs(c, s, w);
        TransactionKeepsLinked(c, s.db, PhaseOf(s, w), answer);
      case RemoveSource(source) =>
        DeletionKeepsLinked(s.db, source);
      case _ =>
        hide Transaction, Orderly;
        SameTables(s.db, After(c, s, a).db);
    }
  }

  // A run: every action is enabled where it happens.
  ghost predicate Run(c: Config, s: State, actions: seq<Action>)
    decreases |actions|
  {
    actions != [] ==> Enabled(c, s, actions[0]) && Run(c, After(c, s, actions[0]), actions[1..])
  }

  function End(c: Config, s: State, actions: seq<Action>): State
    decreases |actions|
  {
    if actions == [] then s else End(c, After(c, s, actions[0]), actions[1..])
  }

  // No refresh of the run replaces links without bringing content.
  ghost predicate AllCarryContent(c: Config, s: State, actions: seq<Action>)
    decreases |actions|
  {
    actions != [] ==> CarriesContent(s, actions[0]) && AllCarryContent(c, After(c, s, actions[0]), actions[1..])
  }

  /** Over every run of any number of writers, every cached reference of every stored article is linked. */
  lemma {:induction false} RunsStayLinked(c: Config, s: State, actions: seq<Action>)
    requires Good(c, s) && Run(c, s, actions) && AllCarryContent(c, s, actions)
    ensures Good(c, End(c, s, actions))
    decreases |actions|
  {
    if actions != [] {
      StepKeepsGood(c, s, actions[0]);
      hide Good, Enabled, CarriesContent, After;
      RunsStayLinked(c, After(c, s, actions[0]), actions[1..]);
    }
  }

  // ---- Digests over whole runs

  lemma TransactionKeepsDigests(c: Config, db: Db, phase: Phase, answer: StoreAnswer)
    requires phase.Locked? && AllDigested(c, db) && Belongs(c, phase.claim, phase.work)
    requires phase.revision.Some? ==> phase.claim.key.source in db.sources
                                      && db.sources[phase.claim.key.source] == phase.revision.value
    ensures Transaction(c, db, phase, answer).Ok? ==> AllDigested(c, Transaction(c, db, phase, answer).value)
  {
    var claim := phase.claim;
    hide BackfillCommit, RefreshCommit, ApplyArticle, Digested, IsFresh;
    if phase.revision.None? {
      if phase.work.RefreshWork? {
        WithoutSource(c, db, claim, phase.work.requested, phase.work.prepared, answer);
      }
    } else {
      match phase.work
      case BackfillWork(p) =>
        BackfillPublishes(c, db, claim.key.source, phase.revision.value, p, answer, claim.job, claim.token);
        ApplyKeepsDigests(c, db, p, answer);
      case RefreshWork(requested, prepared) =>
        RefreshPublishes(c, db, claim.key, Some(claim.version), requested, prepared, answer, claim.job, claim.token);
        if prepared.Some? && answer.Stored? {
          RefreshKeepsDigests(c, db, claim.key, prepared.value, answer.ids);
        }
    }
  }

  lemma StepKeepsDigests(c: Config, s: State, a: Action)
    requires Orderly(c, s) && Enabled(c, s, a) && AllDigested(c, s.db)
    ensures AllDigested(c, After(c, s, a).db)
  {
    if a.CommitWork? {
      assert LockCurrent(s, a.w) && WorkBelongs(c, s, a.w);
      TransactionKeepsDigests(c, s.db, PhaseOf(s, a.w), a.answer);
    }
    hide Transaction, Orderly, Digested;
  }

  /** Over every run, every stored article carries the digest of its stored content. */
  lemma {:induction false} DigestsMatchContent(c: Config, s: State, actions: seq<Action>)
    requires Orderly(c, s) && Run(c, s, actions) && AllDigested(c, s.db)
    ensures AllDigested(c, End(c, s, actions).db)
    decreases |actions|
  {
    if actions != [] {
      StaysOrderly(c, s, actions[0]);
      StepKeepsDigests(c, s, actions[0]);
      hide Orderly, Enabled, After, AllDigested;
      DigestsMatchContent(c, After(c, s, actions[0]), actions[1..]);
    }
  }

  // ---- Versions over whole runs

  // The part of a change that the feed sees, at the key a worker writes.
  ghost predicate FeedChanged(before: Db, after: Db, key: Key) {
    Visible(before, key) != Visible(after, key)
  }

  lemma ApplyReportsTheChange(c: Config, db: Db, p: Prepared, answer: StoreAnswer)
    ensures var r := ApplyArticle(c, db, p, answer);
      r.Ok? ==>
        && (r.value.changed <==> FeedChanged(db, r.value.db, p.key))
        && r.value.db.articles - {p.key} == db.articles - {p.key}
  {
    hide Localized, MentionsAssets, CompleteAssetSet, LinksOf;
    forall base: Db, article: Article | base.articles == db.articles
      ensures var up := Upsert(base, p.key, article);
        (up.changed <==> FeedChanged(db, up.db, p.key)) && up.db.articles - {p.key} == db.articles - {p.key}
    {
      UpsertReportsTheChange(base, p.key, article);
    }
    hide Upsert;
  }

  lemma RefreshReportsTheChange(c: Config, db: Db, key: Key, p: Prepared, ids: seq<AssetId>)
    ensures var stored := StoredFor(p.fetched, ids);
      var up := Upsert(ReplaceLinks(db, key, stored), key, Localized(c, p.article, stored));
      && (up.changed <==> FeedChanged(db, up.db, key)) && up.db.articles - {key} == db.articles - {key}
      && NotOlder(db, up.db)
  {
    var stored := StoredFor(p.fetched, ids);
    hide Localized, LinksOf, Upsert, StoredFor;
    UpsertNotOlder(ReplaceLinks(db, key, stored), key, Localized(c, p.article, stored));
    UpsertReportsTheChange(ReplaceLinks(db, key, stored), key, Localized(c, p.article, stored));
  }

  // What one commit may do: nothing but its job, or one observation of its own article, published exactly when
  // the feed sees the change.
  ghost predicate CommitOf(before: Db, after: Db, claim: Claim) {
    && NotOlder(before, after)
    && after.articles - {claim.key} == before.articles - {claim.key}
    && (after == before || after == before.(jobs := after.jobs)
        || Published(before, after, claim.key.source, FeedChanged(before, after, claim.key), claim.job, claim.token))
  }

  /**
   * In every orderly state, the revision of a commit's source advances, and a rebuild of it is requested, if and
   * only if what the feed shows of the article changed; versions never go back and no other article is touched.
   */
  lemma CommitEffect(c: Config, s: State, w: WorkerId, answer: StoreAnswer)
    requires Orderly(c, s) && PhaseOf(s, w).Locked?
    ensures var before, after, claim := s.db, After(c, s, CommitWork(w, answer)).db, PhaseOf(s, w).claim;
      && CommitOf(before, after, claim)
      && (FeedChanged(before, after, claim.key) <==> after.sources != before.sources)
      && (FeedChanged(before, after, claim.key) <==> after.enqueued != before.enqueued)
  {
    var phase := PhaseOf(s, w);
    var claim := phase.claim;
    assert LockCurrent(s, w) && WorkBelongs(c, s, w);
    var r := Transaction(c, s.db, phase, answer);
    hide BackfillCommit, RefreshCommit, ApplyArticle, Localized, IsFresh, Digested, StoredFor, CompleteAcquisition, Visible, Continues;
    if r.Ok? {
      if phase.revision.None? {
        WithoutSource(c, s.db, claim, phase.work.requested, phase.work.prepared, answer);
      } else {
        match phase.work
        case BackfillWork(p) =>
          BackfillPublishes(c, s.db, claim.key.source, phase.revision.value, p, answer, claim.job, claim.token);
          ApplyNotOlder(c, s.db, p, answer);
          ApplyReportsTheChange(c, s.db, p, answer);
        case RefreshWork(requested, prepared) =>
          RefreshPublishes(c, s.db, claim.key, Some(claim.version), requested, prepared, answer, claim.job, claim.token);
          if requested == Succeeded && prepared.Some? && answer.Stored? {
            hide Upsert, ReplaceLinks;
            RefreshReportsTheChange(c, s.db, claim.key, prepared.value, answer.ids);
          }
      }
    }
  }

  lemma StepNotOlder(c: Config, s: State, a: Action, key: Key)
    requires Orderly(c, s) && Enabled(c, s, a) && a != RemoveSource(key.source) && key in s.db.articles
    ensures var after := After(c, s, a).db;
      key in after.articles && Continues(s.db.articles[key], after.articles[key])
  {
    if a.CommitWork? {
      CommitEffect(c, s, a.w, a.answer);
      hide After, Published;
    } else {
      hide Transaction, Orderly;
    }
  }

  /**
   * Over every run in which its source is not deleted, an article stays, its version never decreases, and neither
   * its content nor a field that was once known is lost.
   */
  lemma {:induction false} VersionsNeverDecrease(c: Config, s: State, actions: seq<Action>, key: Key)
    requires Orderly(c, s) && Run(c, s, actions) && key in s.db.articles
    requires RemoveSource(key.source) !in actions
    ensures Orderly(c, End(c, s, actions))
    ensures key in End(c, s, actions).db.articles
    ensures Continues(s.db.articles[key], End(c, s, actions).db.articles[key])
    decreases |actions|
  {
    if actions != [] {
      StaysOrderly(c, s, actions[0]);
      StepNotOlder(c, s, actions[0], key);
      hide Orderly, Enabled, After;
      VersionsNeverDecrease(c, After(c, s, actions[0]), actions[1..], key);
    }
  }

  // The reserved version is behind the stored one: strictly for a backfill, or equal for a refresh.
  predicate IsStale(s: State, claim: Claim, work: Work) {
    claim.key in s.db.articles &&
    if work.BackfillWork? then claim.version < s.db.articles[claim.key].version
    else claim.version <= s.db.articles[claim.key].version
  }

  lemma StaleCommit(c: Config, s: State, w: WorkerId, answer: StoreAnswer)
    requires Orderly(c, s) && PhaseOf(s, w).Locked? && PhaseOf(s, w).revision.Some?
    requires IsStale(s, PhaseOf(s, w).claim, PhaseOf(s, w).work)
    ensures var claim := PhaseOf(s, w).claim;
      After(c, s, CommitWork(w, answer)).db
      == if claim.job in s.db.jobs && s.db.jobs[claim.job] == Running(claim.token)
         then s.db.(jobs := s.db.jobs[claim.job := Finished]) else s.db
  {
    assert WorkBelongs(c, s, w);
    var phase := PhaseOf(s, w);
    var claim := phase.claim;
    match phase.work
    case BackfillWork(p) =>
      StaleBackfill(c, s.db, claim.key.source, phase.revision.value, p, answer, claim.job, claim.token);
      hide BackfillCommit;
    case RefreshWork(requested, prepared) =>
      StaleRefresh(c, s.db, claim.key, phase.revision.value, claim.version, requested, prepared, answer, claim.job, claim.token);
      hide RefreshCommit;
  }

  /**
   * Once another worker has stored a newer version, a worker that still holds an older reservation commits
   * nothing but its job outcome, whatever else happens in between.
   */
  lemma StaleWorkersChangeNothing(c: Config, s: State, actions: seq<Action>, w: WorkerId, answer: StoreAnswer)
    requires Orderly(c, s) && Run(c, s, actions)
    requires var end := PhaseOf(End(c, s, actions), w);
      && end.Locked? && end.revision.Some? && IsStale(s, end.claim, end.work)
      && RemoveSource(end.claim.key.source) !in actions
    ensures var before := End(c, s, actions);
      var after := After(c, before, CommitWork(w, answer)).db;
      && after.articles == before.db.articles && after.links == before.db.links && after.sources == before.db.sources
      && after.rebuilds == before.db.rebuilds && after.enqueued == before.db.enqueued
      && (var claim := PhaseOf(before, w).claim;
          claim.job in before.db.jobs && before.db.jobs[claim.job] == Running(claim.token) ==>
            after.jobs == before.db.jobs[claim.job := Finished])
  {
    var end := End(c, s, actions);
    var phase := PhaseOf(end, w);
    VersionsNeverDecrease(c, s, actions, phase.claim.key);
    assert IsStale(end, phase.claim, phase.work);
    hide Orderly, Run, End, After;
    StaleCommit(c, end, w, answer);
  }

  // ---- Revisions and rebuilds over whole runs

  lemma StepCountsRebuilds(c: Config, s: State, a: Action, source: SourceId)
    requires Orderly(c, s) && Enabled(c, s, a) && source in s.db.sources
    requires a != BumpSource(source) && a != RemoveSource(source)
    ensures var after := After(c, s, a).db;
      && source in after.sources
      && after.sources[source] + multiset(s.db.enqueued)[source]
         == s.db.sources[source] + multiset(after.enqueued)[source]
  {
    if a.CommitWork? {
      CommitEffect(c, s, a.w, a.answer);
      hide After, FeedChanged, NotOlder, Orderly;
    } else {
      hide Transaction, Orderly;
    }
  }

  /**
   * Over every run in which nothing else bumps or deletes a source, its revision grows by exactly the number of
   * rebuilds requested for it.
   */
  lemma {:induction false} RevisionsCountRebuilds(c: Config, s: State, actions: seq<Action>, source: SourceId)
    requires Orderly(c, s) && Run(c, s, actions) && source in s.db.sources
    requires BumpSource(source) !in actions && RemoveSource(source) !in actions
    ensures var end := End(c, s, actions).db;
      && source in end.sources
      && end.sources[source] + multiset(s.db.enqueued)[source] == s.db.sources[source] + multiset(end.enqueued)[source]
    decreases |actions|
  {
    if actions != [] {
      StaysOrderly(c, s, actions[0]);
      StepCountsRebuilds(c, s, actions[0], source);
      hide Orderly, Enabled, After;
      RevisionsCountRebuilds(c, After(c, s, actions[0]), actions[1..], source);
    }
  }

  // ---- A refresh without content loses links

  lemma {:induction false} RunPush(c: Config, s: State, actions: seq<Action>, a: Action)
    requires Run(c, s, actions) && Enabled(c, End(c, s, actions), a)
    ensures Run(c, s, actions + [a]) && End(c, s, actions + [a]) == After(c, End(c, s, actions), a)
    decreases |actions|
  {
    hide Enabled, After;
    if actions == [] {
      assert ([] + [a])[1..] == [];
      assert Run(c, After(c, s, a), []) && End(c, After(c, s, a), []) == After(c, s, a);
    } else {
      assert (actions + [a])[1..] == actions[1..] + [a] && (actions + [a])[0] == actions[0];
      RunPush(c, After(c, s, actions[0]), actions[1..], a);
    }
  }

  // A worker that took its job, its version, its work and the lock.
  function Armed(s: State, w: WorkerId, job: JobId, token: nat, key: Key, work: Work): State
    requires key.source in s.db.sources
  {
    State(s.db.(jobs := s.db.jobs[job := Running(token)]), s.nextVersion + 1,
          s.workers[w := Locked(Claim(job, token, key, s.nextVersion), work, Some(s.db.sources[key.source]))])
  }

  lemma Arm(c: Config, start: State, before: seq<Action>, s: State, w: WorkerId, job: JobId, token: nat, key: Key, work: Work)
    returns (actions: seq<Action>)
    requires Run(c, start, before) && End(c, start, before) == s
    requires forall v :: PhaseOf(s, v).Idle?
    requires key.source in s.db.sources && Belongs(c, Claim(job, token, key, s.nextVersion), work)
    ensures Run(c, start, actions) && End(c, start, actions) == Armed(s, w, job, token, key, work)
  {
    var a, b, d, e := ClaimJob(job, token), ReserveVersion(w, job, token, key), FinishAcquisition(w, work), LockSource(w);
    var s1 := After(c, s, a);
    var s2 := After(c, s1, b);
    var s3 := After(c, s2, d);
    hide Belongs, Run, End, Transaction;
    assert PhaseOf(s, w).Idle? && PhaseOf(s1, w) == PhaseOf(s, w);
    assert PhaseOf(s2, w) == Reserved(Claim(job, token, key, s.nextVersion));
    assert forall v :: v != w ==> PhaseOf(s3, v) == PhaseOf(s, v);
    assert PhaseOf(s3, w).Ready? && !IsLocked(s3, key.source);
    assert After(c, s3, e) == Armed(s, w, job, token, key, work);
    RunPush(c, start, before, a);
    RunPush(c, start, before + [a], b);
    RunPush(c, start, before + [a] + [b], d);
    RunPush(c, start, before + [a] + [b] + [d], e);
    actions := before + [a] + [b] + [d] + [e];
  }

  const EMPTY := State(Db(map[], map[], map[], {}, [], map[]), 1, map[])
  const EXAMPLE_KEY := Key(0, "review")
  const EXAMPLE_META := Metadata("title", None, None, None, None, 0)

  // A page with one image, its image fetched.
  function PageWithImage(c: Config, url: Url, referer: Url): Prepared {
    var html := UrlRewriter.Serialize(["<img", " />"], [url]);
    Prepared(EXAMPLE_KEY, Article(EXAMPLE_META, html, Some(c.sha(html)), 1), [url],
             [AssetFetch.AssetInput(url, url, "image/png", [0], 0)], referer)
  }

  // The same article read again from a page whose body sanitizes to nothing.
  function EmptyPage(referer: Url): Prepared {
    Prepared(EXAMPLE_KEY, Article(EXAMPLE_META, "", None, 2), [], [], referer)
  }

  lemma ShortTextIsFresh(s: string)
    requires |s| < 6
    ensures IsFresh(s) && UrlRewriter.Synced(s)
  {
    UrlRewriter.FindIsFirst(s);
    assert UrlRewriter.NextValue(s) == None;
    hide UrlRewriter.Find, UrlRewriter.NextValue;
    UrlRewriter.NoIteration(s, v => None);
  }

  lemma PageIsAcquired(c: Config, url: Url, referer: Url)
    requires c.maxCount > 0 && !c.signed(url) && !c.signed(referer) && IsAbsolute(url)
    ensures var p := PageWithImage(c, url, referer);
      && WellAcquired(c, p) && CompleteAcquisition(c, p) && Shows(p, ["<img", " />"], [url]) && p.article.html != []
  {
    hide UrlRewriter.Serialize, IsAbsolute, IsFresh, UrlRewriter.Synced;
    var p := PageWithImage(c, url, referer);
    ShortTextIsFresh("<img");
    ShortTextIsFresh(" />");
    FreshIffTextsAreFresh(["<img", " />"], [url]);
    DocumentIsNonempty(["<img", " />"], [url]);
    assert p.fetched[0].occurrence == 0 && p.fetched[0].source == url;
    assert MatchesOnce(p.fetched, 0, url);
  }

  lemma DocumentIsNonempty(texts: seq<string>, sources: seq<string>)
    requires |texts| == |sources| + 1 && texts[0] != []
    ensures UrlRewriter.Serialize(texts, sources) != []
  {
    hide UrlRewriter.EscapeAttribute;
  }

  // Rewriting a stored page puts the route of its image into it.
  lemma StoredPageIsCached(c: Config, p: Prepared, url: Url)
    requires Shows(p, ["<img", " />"], [url]) && CompleteAcquisition(c, p) && |p.fetched| == 1
    ensures !IsFresh(UrlRewriter.RewriteSanitizedHtml(p.article.html, Table(StoredFor(p.fetched, [EXAMPLE_ASSET]))))
  {
    var ids, html := [EXAMPLE_ASSET], p.article.html;
    var stored := StoredFor(p.fetched, ids);
    var f, value := Replacement(stored), UrlRewriter.EscapeAttribute(url);
    assert url in [url] && url in p.external && IsAbsolute(url);
    assert stored[0].id == EXAMPLE_ASSET && |stored| == 1;
    assert html == UrlRewriter.Serialize(["<img", " />"], [url]);
    ExampleAnswer(p.fetched);
    hide UrlRewriter.Serialize, UrlRewriter.EscapeAttribute, Route, Replacement, StoredFor, Table, CompleteAssetSet, IsAbsolute,
         UrlRewriter.ScanValues, UrlRewriter.Rewrite, UrlRewriter.Replace;
    var k := CompleteHasEverySource(c, p, ids, url);
    ExampleAssetIsAnId();
    SourceIsReplaced(stored, url, k);
    assert UrlRewriter.Replace(f, value) == Route(EXAMPLE_ASSET);
    PageScans(url);
    SanitizedRewrite(html, stored);
    UrlRewriter.ScanOfRewrite(html, f);
    ReplacedIsListed(f, UrlRewriter.ScanValues(html), value);
    assert Refers(UrlRewriter.Rewrite(html, f), EXAMPLE_ASSET);
  }

  // The page's image is found by the scan.
  lemma PageScans(url: Url)
    requires IsAbsolute(url)
    ensures UrlRewriter.EscapeAttribute(url) in UrlRewriter.ScanValues(UrlRewriter.Serialize(["<img", " />"], [url]))
  {
    EscapedIsCompact(url);
    ShortTextIsFresh("<img");
    hide UrlRewriter.Serialize, UrlRewriter.EscapeAttribute, UrlRewriter.ScanValues, UrlRewriter.Synced;
    var texts, sources := ["<img", " />"], [url];
    UrlRewriter.DocumentScans(texts, sources, UrlRewriter.EscapeAttribute(url));
    assert UrlRewriter.Synced(texts[0]) && UrlRewriter.EscapeAttribute(url) == UrlRewriter.EscapeAttribute(sources[0]);
  }

  lemma ReplacedIsListed(f: string -> Option<string>, values: seq<string>, v: string)
    requires v in values
    ensures UrlRewriter.Replace(f, v) in UrlRewriter.ReplaceAll(f, values)
  {
    var i :| 0 <= i < |values| && values[i] == v;
    assert UrlRewriter.ReplaceAll(f, values)[i] == UrlRewriter.Replace(f, v);
  }

  // A backfill of a running job whose observation applies, commits.
  lemma AppliedCommits(c: Config, db: Db, p: Prepared, answer: StoreAnswer)
    requires ApplyArticle(c, db, p, answer).Ok? && 0 in db.sources && db.sources[0] == 0
    requires 0 in db.jobs && db.jobs[0] == Running(0)
    ensures var r := BackfillCommit(c, db, 0, 0, p, answer, 0, 0);
      && r.Ok? && 0 in r.value.sources && r.value.articles == ApplyArticle(c, db, p, answer).value.db.articles
      && r.value.links == ApplyArticle(c, db, p, answer).value.db.links
  {
    OnlyArticlesChange(c, db, p, answer);
    hide ApplyArticle;
  }

  // The first transaction of the run: the page with its image is stored, its route in the article.
  lemma FirstCommit(c: Config, db: Db, url: Url, referer: Url)
    requires c.archiving && c.maxCount > 0 && !c.signed(url) && !c.signed(referer) && IsAbsolute(url)
    requires db.articles == map[] && db.sources == map[0 := 0] && db.jobs == map[0 := Running(0)]
    ensures var r := BackfillCommit(c, db, 0, 0, PageWithImage(c, url, referer), Stored([EXAMPLE_ASSET]), 0, 0);
      && r.Ok? && EXAMPLE_KEY in r.value.articles && r.value.articles[EXAMPLE_KEY].version == 1 && 0 in r.value.sources
      && !IsFresh(r.value.articles[EXAMPLE_KEY].html) && Linked(r.value)
  {
    var p := PageWithImage(c, url, referer);
    assert Linked(db);
    assert |p.fetched| == 1 && p.article.version == 1 && p.key == EXAMPLE_KEY;
    PageIsAcquired(c, url, referer);
    hide ApplyArticle, BackfillCommit, PageWithImage, Shows, CompleteAcquisition, WellAcquired, StoredFor, Table, IsFresh,
         IsAbsolute, Linked;
    assert CompleteAssetSet(c, p.external, p.fetched, p.referer) by { CompleteParts(c, p); }
    CompleteIsInstalled(c, db, p, [EXAMPLE_ASSET]);
    AcceptedIsStored(c, db, p, Stored([EXAMPLE_ASSET]));
    AppliedCommits(c, db, p, Stored([EXAMPLE_ASSET]));
    StoredPageIsCached(c, p, url);
    ExampleAnswer(p.fetched);
    ApplyKeepsLinked(c, db, p, Stored([EXAMPLE_ASSET]));
    SameTables(ApplyArticle(c, db, p, Stored([EXAMPLE_ASSET])).value.db,
               BackfillCommit(c, db, 0, 0, p, Stored([EXAMPLE_ASSET]), 0, 0).value);
  }

  lemma CompleteParts(c: Config, p: Prepared)
    requires CompleteAcquisition(c, p)
    ensures CompleteAssetSet(c, p.external, p.fetched, p.referer)
  {
  }

  // The second: a refresh with no content commits, and the stored reference has lost its row.
  lemma SecondCommit(c: Config, db: Db, revision: nat, referer: Url)
    requires Linked(db) && EXAMPLE_KEY in db.articles && db.articles[EXAMPLE_KEY].version == 1
    requires !IsFresh(db.articles[EXAMPLE_KEY].html)
    requires 0 in db.sources && db.sources[0] == revision && 1 in db.jobs && db.jobs[1] == Running(1)
    requires WellAcquired(c, EmptyPage(referer)) && CompleteAcquisition(c, EmptyPage(referer))
    ensures var r := RefreshCommit(c, db, EXAMPLE_KEY, Some(revision), Some(2), Succeeded, Some(EmptyPage(referer)), Stored([]), 1, 1);
      r.Ok? && !Linked(r.value.db)
  {
    var p := EmptyPage(referer);
    RefreshKeepsLinkedIff(c, db, EXAMPLE_KEY, p, []);
    var written := RefreshWrite(c, db, EXAMPLE_KEY, p, []);
    hide Linked, IsFresh, WellAcquired, CompleteAcquisition, Localized, LinksOf;
    var r := RefreshCommit(c, db, EXAMPLE_KEY, Some(revision), Some(2), Succeeded, Some(p), Stored([]), 1, 1);
    assert r.Ok? && r.value.db.articles == written.articles && r.value.db.links == written.links;
    if Linked(r.value.db) {
      SameTables(r.value.db, written);
    }
  }

  lemma EmptyPageIsAcquired(c: Config, referer: Url)
    ensures WellAcquired(c, EmptyPage(referer)) && CompleteAcquisition(c, EmptyPage(referer))
  {
    EmptyIsFresh();
  }

  // The commit of an armed worker when its transaction succeeds.
  lemma ArmedCommit(c: Config, start: State, before: seq<Action>, s: State, w: WorkerId, job: JobId, token: nat, key: Key,
                    work: Work, answer: StoreAnswer)
    requires (forall v :: PhaseOf(s, v).Idle?) && key.source in s.db.sources
    requires var armed := Armed(s, w, job, token, key, work);
      && Run(c, start, before) && End(c, start, before) == armed && Answers(answer, Inputs(work))
      && Transaction(c, armed.db, armed.workers[w], answer).Ok?
    ensures var armed := Armed(s, w, job, token, key, work);
      var end := End(c, start, before + [CommitWork(w, answer)]);
      && Run(c, start, before + [CommitWork(w, answer)])
      && end.db == Transaction(c, armed.db, armed.workers[w], answer).value
      && end.nextVersion == s.nextVersion + 1 && forall v :: PhaseOf(end, v).Idle?
  {
    var armed := Armed(s, w, job, token, key, work);
    hide Transaction, Run, End, Answers;
    assert PhaseOf(armed, w) == armed.workers[w];
    assert forall v :: v != w ==> PhaseOf(armed, v) == PhaseOf(s, v);
    assert Enabled(c, armed, CommitWork(w, answer));
    RunPush(c, start, before, CommitWork(w, answer));
    var end := After(c, armed, CommitWork(w, answer));
    forall v
      ensures PhaseOf(end, v).Idle?
    {
      assert PhaseOf(s, v).Idle?;
    }
  }

  function OneSource(): State {
    State(EMPTY.db.(sources := map[0 := 0]), 1, map[])
  }

  lemma FirstAction(c: Config)
    ensures Good(c, EMPTY) && Run(c, EMPTY, [AddSource(0)]) && End(c, EMPTY, [AddSource(0)]) == OneSource()
    ensures forall v :: PhaseOf(OneSource(), v).Idle?
  {
    RunPush(c, EMPTY, [], AddSource(0));
    assert [] + [AddSource(0)] == [AddSource(0)];
    assert map[][0 := 0] == map[0 := 0];
    hide Transaction, DeleteSource;
  }

  // The run up to the stored page.
  lemma StoredPageIsReachable(c: Config, url: Url, referer: Url) returns (actions: seq<Action>)
    requires c.archiving && c.maxCount > 0 && !c.signed(url) && !c.signed(referer) && IsAbsolute(url)
    ensures Run(c, EMPTY, actions)
    ensures var end := End(c, EMPTY, actions);
      && Linked(end.db) && EXAMPLE_KEY in end.db.articles && end.db.articles[EXAMPLE_KEY].version == 1
      && !IsFresh(end.db.articles[EXAMPLE_KEY].html) && 0 in end.db.sources && end.nextVersion == 2
      && forall v :: PhaseOf(end, v).Idle?
  {
    var s, p := OneSource(), PageWithImage(c, url, referer);
    var answer := Stored([EXAMPLE_ASSET]);
    FirstAction(c);
    PageIsAcquired(c, url, referer);
    ExampleAnswer(p.fetched);
    assert Belongs(c, Claim(0, 0, EXAMPLE_KEY, 1), BackfillWork(p)) && Answers(answer, Inputs(BackfillWork(p)));
    assert Armed(s, 0, 0, 0, EXAMPLE_KEY, BackfillWork(p)).db.jobs == map[0 := Running(0)];
    hide Run, End, Belongs, Linked, IsFresh, PageWithImage, BackfillCommit, IsAbsolute, Answers, WellAcquired,
         CompleteAcquisition, Shows;
    var before := Arm(c, EMPTY, [AddSource(0)], s, 0, 0, 0, EXAMPLE_KEY, BackfillWork(p));
    FirstCommit(c, Armed(s, 0, 0, 0, EXAMPLE_KEY, BackfillWork(p)).db, url, referer);
    ArmedCommit(c, EMPTY, before, s, 0, 0, 0, EXAMPLE_KEY, BackfillWork(p), answer);
    actions := before + [CommitWork(0, answer)];
  }

  /**
   * From an empty service, for every archiving deployment and every absolute image URL: a run of a backfill and a
   * refresh, every action enabled, after which a cached reference of a stored article has no row.
   */
  lemma EmptyRefreshLosesLinks(c: Config, url: Url, referer: Url) returns (actions: seq<Action>)
    requires c.archiving && c.maxCount > 0 && !c.signed(url) && !c.signed(referer) && IsAbsolute(url)
    ensures Good(c, EMPTY) && Run(c, EMPTY, actions) && !Linked(End(c, EMPTY, actions).db)
  {
    var before := StoredPageIsReachable(c, url, referer);
    var s, p := End(c, EMPTY, before), EmptyPage(referer);
    var work := RefreshWork(Succeeded, Some(p));
    FirstAction(c);
    EmptyPageIsAcquired(c, referer);
    assert Belongs(c, Claim(1, 1, EXAMPLE_KEY, 2), work) && Answers(Stored([]), Inputs(work));
    assert EXAMPLE_KEY.source == 0;
    var revision := s.db.sources[0];
    hide Run, End, Belongs, Linked, IsFresh, EmptyPage, RefreshCommit, IsAbsolute, Answers, WellAcquired, CompleteAcquisition,
         Good;
    var armed := Arm(c, EMPTY, before, s, 1, 1, 1, EXAMPLE_KEY, work);
    ArmedStaysLinked(s, 1, 1, 1, EXAMPLE_KEY, work);
    SecondCommit(c, Armed(s, 1, 1, 1, EXAMPLE_KEY, work).db, revision, referer);
    ArmedCommit(c, EMPTY, armed, s, 1, 1, 1, EXAMPLE_KEY, work, Stored([]));
    actions := armed + [CommitWork(1, Stored([]))];
  }

  lemma ArmedStaysLinked(s: State, w: WorkerId, job: JobId, token: nat, key: Key, work: Work)
    requires Linked(s.db) && key.source in s.db.sources
    ensures Linked(Armed(s, w, job, token, key, work).db)
  {
    hide Linked;
    SameTables(s.db, Armed(s, w, job, token, key, work).db);
  }
}
