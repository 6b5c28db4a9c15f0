/** The writers of articles: the backfill transaction (also one batch of a source sync) and the refresh transaction. */
module ArticleHandlers {
  import opened Options
  import opened ArticleStore
  import UrlRewriter
  import AssetFetch

  type Url = string
  type AssetInput = AssetFetch.AssetInput

  // Deployment: whether assets are archived, the content digest, and which URLs carry a provider signature.
  datatype Config = Config(archiving: bool, sha: string -> string, signed: Url -> bool, maxCount: nat)

  // One observation of an article: normalized content, the images it needs, and those that were fetched.
  datatype Prepared = Prepared(key: Key, article: Article, external: seq<Url>, fetched: seq<AssetInput>, referer: Url)

  // ---- Complete asset sets

  predicate CompleteAssetSet(c: Config, external: seq<Url>, fetched: seq<AssetInput>, referer: Url) {
    && |external| == |fetched|
    && (forall u :: u in external ==> !c.signed(u))
    && (forall a :: a in fetched ==> !c.signed(a.source) && !c.signed(a.final) && !c.signed(referer))
    && (forall i :: 0 <= i < |external| ==> MatchesOnce(fetched, i, external[i]))
  }

  // Exactly one fetched image stands at this occurrence with this URL.
  predicate MatchesOnce(fetched: seq<AssetInput>, occurrence: nat, url: Url) {
    exists k :: 0 <= k < |fetched| && fetched[k].occurrence == occurrence && fetched[k].source == url
      && forall j :: 0 <= j < |fetched| && fetched[j].occurrence == occurrence && fetched[j].source == url ==> j == k
  }

  predicate CompleteAcquisition(c: Config, p: Prepared) {
    |p.external| <= c.maxCount && CompleteAssetSet(c, p.external, p.fetched, p.referer)
  }

  // Every fetched image stands at a position of its own, with the URL of that position.
  predicate StandApart(external: seq<Url>, fetched: seq<AssetInput>) {
    && (forall k :: 0 <= k < |fetched| ==> fetched[k].occurrence < |external| && fetched[k].source == external[fetched[k].occurrence])
    && forall j, k :: 0 <= j < k < |fetched| ==> fetched[j].occurrence != fetched[k].occurrence
  }

  // No URL that was listed, fetched, redirected to or referred from is signed.
  predicate NothingSigned(c: Config, external: seq<Url>, fetched: seq<AssetInput>, referer: Url) {
    && (forall i :: 0 <= i < |external| ==> !c.signed(external[i]))
    && (forall k :: 0 <= k < |fetched| ==> !c.signed(fetched[k].source) && !c.signed(fetched[k].final))
    && (fetched != [] ==> !c.signed(referer))
  }

  /** A set is complete exactly when nothing is signed and the images are one for each URL, whatever their order. */
  lemma CompleteIff(c: Config, external: seq<Url>, fetched: seq<AssetInput>, referer: Url)
    ensures CompleteAssetSet(c, external, fetched, referer)
       <==> NothingSigned(c, external, fetched, referer) && |external| == |fetched| && StandApart(external, fetched)
  {
    SignedIff(c, external, fetched, referer);
    if |external| == |fetched| {
      MatchedIff(external, fetched);
    }
    hide MatchesOnce, StandApart, NothingSigned;
  }

  lemma SignedIff(c: Config, external: seq<Url>, fetched: seq<AssetInput>, referer: Url)
    ensures NothingSigned(c, external, fetched, referer)
       <==> (forall u :: u in external ==> !c.signed(u))
            && forall a :: a in fetched ==> !c.signed(a.source) && !c.signed(a.final) && !c.signed(referer)
  {
    if fetched != [] {
      assert fetched[0] in fetched;
    }
  }

  // Which image matches a position.
  ghost function MatchOf(fetched: seq<AssetInput>, i: nat, url: Url): (k: nat)
    requires MatchesOnce(fetched, i, url)
    ensures k < |fetched| && fetched[k].occurrence == i && fetched[k].source == url
  {
    var k :| 0 <= k < |fetched| && fetched[k].occurrence == i && fetched[k].source == url;
    k
  }

  lemma MatchedIff(external: seq<Url>, fetched: seq<AssetInput>)
    requires |external| == |fetched|
    ensures (forall i :: 0 <= i < |external| ==> MatchesOnce(fetched, i, external[i])) <==> StandApart(external, fetched)
  {
    var n := |external|;
    if forall i :: 0 <= i < n ==> MatchesOnce(fetched, i, external[i]) {
      var ks := seq(n, i requires 0 <= i < n => MatchOf(fetched, i, external[i]));
      hide MatchesOnce;
      forall k: nat | k < n
        ensures fetched[k].occurrence < n && ks[fetched[k].occurrence] == k
      {
        EveryNumberIsThere(ks, k);
        var i :| 0 <= i < n && ks[i] == k;
        assert fetched[k].occurrence == i;
      }
    }
    if StandApart(external, fetched) {
      var occurrences := seq(n, k requires 0 <= k < n => fetched[k].occurrence);
      forall i: nat | i < n
        ensures MatchesOnce(fetched, i, external[i])
      {
        EveryNumberIsThere(occurrences, i);
        var k :| 0 <= k < n && occurrences[k] == i;
        assert fetched[k].occurrence == i && fetched[k].source == external[i];
      }
    }
  }

  // n different numbers below n are all of them.
  lemma EveryNumberIsThere(numbers: seq<nat>, i: nat)
    requires forall j, k :: 0 <= j < k < |numbers| ==> numbers[j] != numbers[k]
    requires forall k :: 0 <= k < |numbers| ==> numbers[k] < |numbers|
    requires i < |numbers|
    ensures i in numbers
  {
    DistinctMembers(numbers);
    if i !in numbers {
      FewerWithout(Members(numbers), Below(|numbers|), i);
    }
  }

  ghost function Below(n: nat): (numbers: set<nat>)
    ensures (forall x: nat :: x in numbers <==> x < n) && |numbers| == n
  {
    if n == 0 then {} else Below(n - 1) + {n - 1}
  }

  ghost function Members(numbers: seq<nat>): (members: set<nat>)
    ensures forall x: nat :: x in members <==> x in numbers
  {
    if numbers == [] then {}
    else
      var n := |numbers| - 1;
      assert numbers == numbers[..n] + [numbers[n]];
      Members(numbers[..n]) + {numbers[n]}
  }

  lemma FewerWithout(some: set<nat>, all: set<nat>, i: nat)
    requires some <= all && i in all && i !in some
    ensures |some| < |all|
  {
    assert some <= all - {i};
    SmallerSubset(some, all - {i});
  }

  lemma {:induction false} SmallerSubset(a: set<nat>, b: set<nat>)
    requires a <= b
    ensures |a| <= |b|
  {
    if a != {} {
      var x :| x in a;
      SmallerSubset(a - {x}, b - {x});
    }
  }

  lemma {:induction false} DistinctMembers(numbers: seq<nat>)
    requires forall j, k :: 0 <= j < k < |numbers| ==> numbers[j] != numbers[k]
    ensures |Members(numbers)| == |numbers|
  {
    if numbers != [] {
      DistinctMembers(numbers[..|numbers| - 1]);
    }
  }

  lemma {:induction false} IncreasingIsLarge(fetched: seq<AssetInput>, bound: nat, k: nat)
    requires AssetFetch.Increasing(fetched, bound) && k < |fetched|
    ensures fetched[k].occurrence >= k
  {
    if k > 0 {
      IncreasingIsLarge(fetched, bound, k - 1);
    }
  }

  lemma {:induction false} IncreasingIsSmall(fetched: seq<AssetInput>, bound: nat, k: nat)
    requires AssetFetch.Increasing(fetched, bound) && k < |fetched|
    ensures fetched[k].occurrence + |fetched| <= bound + k
    decreases |fetched| - k
  {
    if k + 1 < |fetched| {
      IncreasingIsSmall(fetched, bound, k + 1);
    }
  }

  /**
   * What a fetch returned is complete exactly when it returned as many images as there are URLs and
   * nothing is signed; then its occurrences are exactly the positions of the URLs.
   */
  lemma FetchedIsCompleteIff(c: Config, external: seq<Url>, fetched: seq<AssetInput>, referer: Url)
    requires AssetFetch.Increasing(fetched, |external|)
    requires forall a :: a in fetched ==> a.occurrence < |external| && a.source == external[a.occurrence]
    requires forall a :: a in fetched ==> !c.signed(a.source) && !c.signed(a.final) && !c.signed(referer)
    ensures CompleteAssetSet(c, external, fetched, referer) <==> |fetched| == |external|
    ensures |fetched| == |external| ==> forall k :: 0 <= k < |fetched| ==> fetched[k].occurrence == k
  {
    if |fetched| == |external| {
      forall k | 0 <= k < |fetched|
        ensures fetched[k].occurrence == k && fetched[k].source == external[k]
      {
        IncreasingIsLarge(fetched, |external|, k);
        IncreasingIsSmall(fetched, |external|, k);
        assert fetched[k] in fetched;
      }
      forall i | 0 <= i < |external|
        ensures MatchesOnce(fetched, i, external[i]) && !c.signed(external[i])
      {
        assert fetched[i].occurrence == i && fetched[i] in fetched;
      }
    }
  }

  // ---- One accepted observation

  // The store's answer to replacing an article's assets: one identifier per input, a policy rejection, or a fault.
  datatype StoreAnswer = Stored(ids: seq<AssetId>) | Rejected | Broken

  ghost predicate Answers(answer: StoreAnswer, inputs: seq<AssetInput>) {
    answer.Stored? ==> |answer.ids| == |inputs| && forall k :: 0 <= k < |answer.ids| ==> IsAssetId(answer.ids[k])
  }

  function StoredFor(inputs: seq<AssetInput>, ids: seq<AssetId>): (stored: seq<StoredAsset>)
    ensures |stored| == AssetFetch.Min(|inputs|, |ids|)
    ensures forall k :: 0 <= k < |stored| ==> stored[k] == StoredAsset(inputs[k].occurrence, inputs[k].source, ids[k])
  {
    seq(AssetFetch.Min(|inputs|, |ids|), k requires 0 <= k < AssetFetch.Min(|inputs|, |ids|) =>
      StoredAsset(inputs[k].occurrence, inputs[k].source, ids[k]))
  }

  // The article with its images replaced by local routes, and the digest of the new content.
  function Localized(c: Config, article: Article, stored: seq<StoredAsset>): Article {
    var rewritten := UrlRewriter.RewriteSanitizedHtml(article.html, Table(stored));
    if rewritten != article.html then article.(html := rewritten, hash := Some(c.sha(rewritten))) else article
  }

  predicate PreserveCached(c: Config, current: Option<Article>, p: Prepared) {
    !CompleteAssetSet(c, p.external, p.fetched, p.referer) && current.Some? && MentionsAssets(current.value.html)
  }

  function Current(db: Db, key: Key): Option<Article> {
    if key in db.articles then Some(db.articles[key]) else None
  }

  // One observation applied inside a transaction, with archiving.
  function Reconcile(c: Config, db: Db, p: Prepared, answer: StoreAnswer): Result<Upserted, StoreError> {
    var current := Current(db, p.key);
    if current.Some? && p.article.version < current.value.version then Ok(Upserted(db, false))
    else if PreserveCached(c, current, p) then Ok(Upsert(db, p.key, KeepContent(p.article, current.value)))
    else if p.article.html == [] then Ok(Upsert(db, p.key, p.article))
    else match answer
      case Broken => Err(Storage)
      case Stored(ids) =>
        var stored := StoredFor(p.fetched, ids);
        Ok(Upsert(ReplaceLinks(db, p.key, stored), p.key, Localized(c, p.article, stored)))
      case Rejected =>
        if current.Some? && MentionsAssets(current.value.html)
        then Ok(Upsert(db, p.key, KeepContent(p.article, current.value)))
        else Ok(Upsert(ClearLinks(db, p.key), p.key, p.article))
  }

  function KeepContent(article: Article, current: Article): Article {
    article.(html := current.html, hash := current.hash)
  }

  function ApplyArticle(c: Config, db: Db, p: Prepared, answer: StoreAnswer): Result<Upserted, StoreError> {
    if c.archiving then Reconcile(c, db, p, answer) else Ok(Upsert(db, p.key, p.article))
  }

  // ---- Whole transactions

  // After the articles: the revision and the rebuild when the feed changed, then the job outcome.
  function Publish(db: Db, source: SourceId, revision: nat, changed: bool, job: JobId, token: nat): Result<Db, StoreError> {
    if !changed then FinishJob(db, job, token)
    else match BumpFeedRevision(db, source, revision)
      case Err(error) => Err(error)
      case Ok(bumped) => FinishJob(EnqueueRebuild(bumped, source), job, token)
  }

  // The backfill transaction, begun when the source had `revision`.
  function BackfillCommit(c: Config, db: Db, source: SourceId, revision: nat, p: Prepared, answer: StoreAnswer,
                          job: JobId, token: nat): Result<Db, StoreError> {
    match ApplyArticle(c, db, p, answer)
    case Err(error) => Err(error)
    case Ok(up) => Publish(up.db, source, revision, up.changed, job, token)
  }

  datatype RefreshOutcome = Succeeded | Inconclusive | Superseded | Deleted

  // The refresh decision, with the source and article rows locked.
  function RefreshDecision(current: Option<Article>, sourceFound: bool, reserved: Option<nat>, requested: RefreshOutcome)
    : RefreshOutcome
  {
    if !sourceFound || current.None? then Deleted
    else if reserved.Some? && current.value.version >= reserved.value then Superseded
    else requested
  }

  datatype Refreshed = Refreshed(db: Db, outcome: RefreshOutcome)

  // The refresh transaction; `locked` is the revision of the locked source row, if it exists.
  function RefreshCommit(c: Config, db: Db, key: Key, locked: Option<nat>, reserved: Option<nat>, requested: RefreshOutcome,
                         prepared: Option<Prepared>, answer: StoreAnswer, job: JobId, token: nat): Result<Refreshed, StoreError>
  {
    var outcome := RefreshDecision(Current(db, key), locked.Some?, reserved, requested);
    if outcome != Succeeded then WithOutcome(FinishJob(db, job, token), outcome)
    else if prepared.None? then Err(Storage)
    else match answer
      case Broken => Err(Storage)
      case Rejected => WithOutcome(FinishJob(db, job, token), Inconclusive)
      case Stored(ids) =>
        var stored := StoredFor(prepared.value.fetched, ids);
        var up := Upsert(ReplaceLinks(db, key, stored), key, Localized(c, prepared.value.article, stored));
        WithOutcome(Publish(up.db, key.source, locked.value, up.changed, job, token), Succeeded)
  }

  function WithOutcome(r: Result<Db, StoreError>, outcome: RefreshOutcome): Result<Refreshed, StoreError> {
    match r
    case Err(error) => Err(error)
    case Ok(db) => Ok(Refreshed(db, outcome))
  }

  // ---- The transaction object and the handler code

  class Database {
    var state: Db

    constructor (state: Db)
      ensures this.state == state
    {
      this.state := state;
    }
  }

  // No operation from `from` up to `to` failed.
  predicate NoFault(faults: nat -> bool, from: nat, to: nat) {
    forall i :: from <= i < to ==> !faults(i)
  }

  // A unit of work: writes stay in `work` until the commit. `faults` says which operations the storage fails, in the
  // order of their calls.
  class UnitOfWork {
    const database: Database
    const faults: nat -> bool
    var work: Db
    var calls: nat

    constructor (database: Database, faults: nat -> bool)
      ensures this.database == database && this.faults == faults && work == database.state && calls == 0
    {
      this.database, this.faults := database, faults;
      work, calls := database.state, 0;
    }

    method Attempt() returns (failed: bool)
      modifies this`calls
      ensures failed == faults(old(calls)) && calls == old(calls) + 1
    {
      failed := faults(calls);
      calls := calls + 1;
    }

    method FindSourceForUpdate(source: SourceId) returns (r: Result<nat, StoreError>)
      modifies this`calls
      ensures calls == old(calls) + 1
      ensures r == if faults(old(calls)) then Err(Storage)
                   else if source in work.sources then Ok(work.sources[source]) else Err(NotFound)
    {
      var failed := Attempt();
      if failed {
        return Err(Storage);
      }
      r := if source in work.sources then Ok(work.sources[source]) else Err(NotFound);
    }

    method FindArticleForUpdate(key: Key) returns (r: Result<Option<Article>, StoreError>)
      modifies this`calls
      ensures calls == old(calls) + 1
      ensures r == if faults(old(calls)) then Err(Storage) else Ok(Current(work, key))
    {
      var failed := Attempt();
      if failed {
        return Err(Storage);
      }
      r := Ok(Current(work, key));
    }

    // A rejected or failed replacement rolls back to its savepoint.
    method ReplaceForArticle(key: Key, inputs: seq<AssetInput>, answer: StoreAnswer) returns (r: StoreAnswer, stored: seq<StoredAsset>)
      requires Answers(answer, inputs)
      modifies this`work
      ensures r == answer
      ensures answer.Stored? ==> stored == StoredFor(inputs, answer.ids) && work == ReplaceLinks(old(work), key, stored)
      ensures !answer.Stored? ==> work == old(work)
    {
      r, stored := answer, [];
      if answer.Stored? {
        stored := StoredFor(inputs, answer.ids);
        work := ReplaceLinks(work, key, stored);
      }
    }

    method ClearForArticle(key: Key) returns (ok: bool)
      modifies this`calls, this`work
      ensures calls == old(calls) + 1 && ok == !faults(old(calls))
      ensures work == if ok then ClearLinks(old(work), key) else old(work)
    {
      var failed := Attempt();
      if failed {
        return false;
      }
      work := ClearLinks(work, key);
      ok := true;
    }

    // Resetting the refresh lineage touches none of the tables modelled here.
    method ResetRefreshLineage() returns (ok: bool)
      modifies this`calls
      ensures calls == old(calls) + 1 && ok == !faults(old(calls))
    {
      var failed := Attempt();
      ok := !failed;
    }

    method UpsertArticle(key: Key, article: Article) returns (ok: bool, changed: bool)
      modifies this`calls, this`work
      ensures calls == old(calls) + 1 && ok == !faults(old(calls))
      ensures ok ==> Upserted(work, changed) == Upsert(old(work), key, article)
    {
      var failed := Attempt();
      if failed {
        return false, false;
      }
      var up := Upsert(work, key, article);
      work := up.db;
      return true, up.changed;
    }

    method BumpRevision(source: SourceId, expected: nat) returns (r: Result<(), StoreError>)
      modifies this`calls, this`work
      ensures calls == old(calls) + 1
      ensures r.Ok? <==> !faults(old(calls)) && BumpFeedRevision(old(work), source, expected).Ok?
      ensures r.Ok? ==> BumpFeedRevision(old(work), source, expected) == Ok(work)
      ensures r == Err(RevisionConflict) ==> BumpFeedRevision(old(work), source, expected) == Err(RevisionConflict)
    {
      var failed := Attempt();
      if failed {
        return Err(Storage);
      }
      match BumpFeedRevision(work, source, expected) {
        case Err(error) =>
          r := Err(error);
        case Ok(bumped) =>
          work := bumped;
          r := Ok(());
      }
    }

    method Enqueue(source: SourceId) returns (ok: bool)
      modifies this`calls, this`work
      ensures calls == old(calls) + 1 && ok == !faults(old(calls))
      ensures ok ==> work == EnqueueRebuild(old(work), source)
    {
      var failed := Attempt();
      if failed {
        return false;
      }
      work := EnqueueRebuild(work, source);
      ok := true;
    }

    method ApplySuccess(job: JobId, token: nat) returns (ok: bool)
      modifies this`calls, this`work
      ensures calls == old(calls) + 1
      ensures ok <==> !faults(old(calls)) && FinishJob(old(work), job, token).Ok?
      ensures ok ==> FinishJob(old(work), job, token) == Ok(work)
    {
      var failed := Attempt();
      if failed {
        return false;
      }
      match FinishJob(work, job, token) {
        case Err(_) =>
          ok := false;
        case Ok(finished) =>
          work := finished;
          ok := true;
      }
    }

    // Only the commit publishes the work.
    method Commit() returns (ok: bool)
      modifies this`calls, database
      ensures calls == old(calls) + 1 && ok == !faults(old(calls))
      ensures database.state == if ok then work else old(database.state)
    {
      var failed := Attempt();
      if failed {
        return false;
      }
      database.state := work;
      ok := true;
    }
  }

  // The end of either transaction, up to the commit.
  method PublishChange(u: UnitOfWork, source: SourceId, revision: nat, changed: bool, job: JobId, token: nat)
    returns (ok: bool)
    modifies u
    ensures u.calls >= old(u.calls)
    ensures ok <==> NoFault(u.faults, old(u.calls), u.calls) && Publish(old(u.work), source, revision, changed, job, token).Ok?
    ensures ok ==> Publish(old(u.work), source, revision, changed, job, token) == Ok(u.work)
  {
    hide EnqueueRebuild, FinishJob, BumpFeedRevision;
    if changed {
      var bumped := u.BumpRevision(source, revision);
      if bumped.Err? {
        return false;
      }
      var queued := u.Enqueue(source);
      if !queued {
        return false;
      }
    }
    ok := u.ApplySuccess(job, token);
  }

  // The article part of a backfill transaction.
  method PersistArticle(c: Config, u: UnitOfWork, p: Prepared, answer: StoreAnswer) returns (ok: bool, changed: bool)
    requires Answers(answer, p.fetched)
    modifies u
    ensures u.calls >= old(u.calls)
    ensures ok <==> NoFault(u.faults, old(u.calls), u.calls) && ApplyArticle(c, old(u.work), p, answer).Ok?
    ensures ok ==> ApplyArticle(c, old(u.work), p, answer) == Ok(Upserted(u.work, changed))
  {
    hide Upsert, ReplaceLinks, ClearLinks, StoredFor, MentionsAssets, CompleteAssetSet, Table, UrlRewriter.RewriteSanitizedHtml;
    if !c.archiving {
      ok, changed := u.UpsertArticle(p.key, p.article);
      return;
    }
    var found := u.FindArticleForUpdate(p.key);
    if found.Err? {
      return false, false;
    }
    var current := found.value;
    if current.Some? && p.article.version < current.value.version {
      return true, false;
    }
    var article := p.article;
    var hasCached := current.Some? && MentionsAssets(current.value.html);
    var complete := CompleteAssetSet(c, p.external, p.fetched, p.referer);
    if !complete && hasCached {
      article := article.(html := current.value.html, hash := current.value.hash);
    } else if p.article.html != [] {
      var r, stored := u.ReplaceForArticle(p.key, p.fetched, answer);
      match r {
        case Stored(_) =>
          var rewritten := UrlRewriter.RewriteSanitizedHtml(p.article.html, Table(stored));
          if rewritten != p.article.html {
            article := article.(html := rewritten, hash := Some(c.sha(rewritten)));
          }
          if complete {
            var reset := u.ResetRefreshLineage();
            if !reset {
              return false, false;
            }
          }
        case Rejected =>
          if hasCached {
            article := article.(html := current.value.html, hash := current.value.hash);
          } else {
            var cleared := u.ClearForArticle(p.key);
            if !cleared {
              return false, false;
            }
          }
        case Broken =>
          return false, false;
      }
    }
    ok, changed := u.UpsertArticle(p.key, article);
  }

  // The backfill transaction; a failure anywhere leaves the database as it was.
  method PersistSuccess(c: Config, database: Database, faults: nat -> bool, source: SourceId, p: Prepared, answer: StoreAnswer,
                        job: JobId, token: nat)
    returns (ok: bool, ghost calls: nat)
    requires Answers(answer, p.fetched)
    modifies database
    ensures var db := old(database.state);
      && (ok <==> NoFault(faults, 0, calls) && source in db.sources
                  && BackfillCommit(c, db, source, db.sources[source], p, answer, job, token).Ok?)
      && (ok ==> BackfillCommit(c, db, source, db.sources[source], p, answer, job, token) == Ok(database.state))
      && (!ok ==> database.state == db)
  {
    hide ApplyArticle, Publish;
    var u := new UnitOfWork(database, faults);
    var found := u.FindSourceForUpdate(source);
    calls := u.calls;
    if found.Err? {
      return false, calls;
    }
    var revision := found.value;
    var persisted, changed := PersistArticle(c, u, p, answer);
    calls := u.calls;
    if !persisted {
      return false, calls;
    }
    var published := PublishChange(u, source, revision, changed, job, token);
    calls := u.calls;
    if !published {
      return false, calls;
    }
    ok := u.Commit();
    calls := u.calls;
  }

  // The article part of a refresh that wants to succeed: the outcome, and whether the feed changed.
  method StoreRefreshed(c: Config, u: UnitOfWork, key: Key, p: Prepared, answer: StoreAnswer)
    returns (ok: bool, outcome: RefreshOutcome, changed: bool)
    requires Answers(answer, p.fetched)
    modifies u
    ensures u.calls >= old(u.calls)
    ensures ok <==> NoFault(u.faults, old(u.calls), u.calls) && answer != Broken
    ensures ok && answer == Rejected ==> outcome == Inconclusive && !changed && u.work == old(u.work)
    ensures ok && answer.Stored? ==>
      var stored := StoredFor(p.fetched, answer.ids);
      outcome == Succeeded
      && Upserted(u.work, changed) == Upsert(ReplaceLinks(old(u.work), key, stored), key, Localized(c, p.article, stored))
  {
    outcome, changed := Succeeded, false;
    var article := p.article;
    var r, stored := u.ReplaceForArticle(key, p.fetched, answer);
    match r {
      case Rejected =>
        return true, Inconclusive, false;
      case Broken =>
        return false, outcome, false;
      case Stored(_) =>
        var rewritten := UrlRewriter.RewriteSanitizedHtml(article.html, Table(stored));
        if rewritten != article.html {
          article := article.(hash := Some(c.sha(rewritten)), html := rewritten);
        }
        ok, changed := u.UpsertArticle(key, article);
    }
  }

  // What a refresh comes to: of its target if the job still refers to one, else only the job is finished.
  function FinalizeCommit(c: Config, db: Db, target: Option<Key>, reserved: Option<nat>, requested: RefreshOutcome,
                          prepared: Option<Prepared>, answer: StoreAnswer, job: JobId, token: nat): Result<Db, StoreError>
  {
    if target.None? then FinishJob(db, job, token)
    else match RefreshCommit(c, db, target.value, LockedRevision(db, target.value), reserved, requested, prepared, answer, job, token)
      case Err(error) => Err(error)
      case Ok(refreshed) => Ok(refreshed.db)
  }

  function LockedRevision(db: Db, key: Key): Option<nat> {
    if key.source in db.sources then Some(db.sources[key.source]) else None
  }

  // The refresh transaction. `target` is the article that the job still refers to; a job without a valid
  // target is only finished.
  method Finalize(c: Config, database: Database, faults: nat -> bool, target: Option<Key>, reserved: Option<nat>,
                  requested: RefreshOutcome, prepared: Option<Prepared>, answer: StoreAnswer, job: JobId, token: nat)
    returns (ok: bool, outcome: Option<RefreshOutcome>, ghost calls: nat)
    requires prepared.Some? ==> Answers(answer, prepared.value.fetched)
    modifies database
    ensures var committed := FinalizeCommit(c, old(database.state), target, reserved, requested, prepared, answer, job, token);
      && (ok <==> NoFault(faults, 0, calls) && committed.Ok?)
      && (ok ==> committed == Ok(database.state))
      && (!ok ==> database.state == old(database.state))
    ensures ok && target.None? ==> outcome == None
    ensures ok && target.Some? ==>
      var db, key := old(database.state), target.value;
      outcome.Some?
      && RefreshCommit(c, db, key, LockedRevision(db, key), reserved, requested, prepared, answer, job, token)
         == Ok(Refreshed(database.state, outcome.value))
  {
    hide RefreshCommit, FinishJob;
    outcome := None;
    var u := new UnitOfWork(database, faults);
    // Reading the target.
    var failed := u.Attempt();
    calls := u.calls;
    if failed {
      return false, None, calls;
    }
    if target.None? {
      var finished := u.ApplySuccess(job, token);
      calls := u.calls;
      if !finished {
        return false, None, calls;
      }
      ok := u.Commit();
      calls := u.calls;
      return;
    }
    var decided;
    ok, decided := FinalizeTarget(c, u, target.value, reserved, requested, prepared, answer, job, token);
    calls := u.calls;
    if !ok {
      return false, None, calls;
    }
    ok := u.Commit();
    calls := u.calls;
    outcome := Some(decided);
  }

  // The transaction of a refresh with a target, up to the commit.
  method FinalizeTarget(c: Config, u: UnitOfWork, key: Key, reserved: Option<nat>, requested: RefreshOutcome,
                        prepared: Option<Prepared>, answer: StoreAnswer, job: JobId, token: nat)
    returns (ok: bool, outcome: RefreshOutcome)
    requires prepared.Some? ==> Answers(answer, prepared.value.fetched)
    modifies u
    ensures u.calls >= old(u.calls)
    ensures var db := old(u.work);
      var refreshed := RefreshCommit(c, db, key, LockedRevision(db, key), reserved, requested, prepared, answer, job, token);
      && (ok <==> NoFault(u.faults, old(u.calls), u.calls) && refreshed.Ok?)
      && (ok ==> refreshed == Ok(Refreshed(u.work, outcome)))
  {
    hide Upsert, ReplaceLinks, Localized, StoredFor, EnqueueRebuild, FinishJob, BumpFeedRevision;
    outcome := requested;
    var source := u.FindSourceForUpdate(key.source);
    if source.Err? && source.error != NotFound {
      return false, outcome;
    }
    var found := u.FindArticleForUpdate(key);
    if found.Err? {
      return false, outcome;
    }
    var current := found.value;
    if source.Err? || current.None? {
      outcome := Deleted;
    } else if reserved.Some? && current.value.version >= reserved.value {
      outcome := Superseded;
    }
    var feedChanged := false;
    if outcome == Succeeded {
      if prepared.None? {
        return false, outcome;
      }
      var stored;
      stored, outcome, feedChanged := StoreRefreshed(c, u, key, prepared.value, answer);
      if !stored {
        return false, outcome;
      }
    }
    ok := PublishChange(u, key.source, if source.Ok? then source.value else 0, feedChanged, job, token);
  }
}
