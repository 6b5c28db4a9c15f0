/** What one transaction of either article writer does, for every database and every answer of the store. */
module ArticleLaws {
  import opened Options
  import opened ArticleStore
  import opened ArticleHandlers
  import UrlRewriter
  import AssetFetch

  // ---- Hypotheses about an acquired observation

  ghost predicate DistinctInputs(inputs: seq<AssetInput>) {
    forall j, k :: 0 <= j < k < |inputs| ==> inputs[j].occurrence != inputs[k].occurrence
  }

  // The digest belongs to the content; empty content has none.
  predicate Digested(c: Config, a: Article) {
    a.hash == if a.html == [] then None else Some(c.sha(a.html))
  }

  // Sanitized content has no cached reference and carries its digest, a fetch never returns an occurrence twice, and empty
  // content needs no images but signed ones.
  ghost predicate WellAcquired(c: Config, p: Prepared) {
    && IsFresh(p.article.html) && Digested(c, p.article) && DistinctInputs(p.fetched)
    && (p.article.html == [] ==> forall u :: u in p.external ==> c.signed(u))
  }

  // ---- Effects on the feed

  // The revision advances and a rebuild is requested exactly when the article change is visible in the
  // feed, and the job finishes in the same commit.
  ghost predicate Published(before: Db, after: Db, source: SourceId, changed: bool, job: JobId, token: nat) {
    && source in before.sources && after.sources == (if changed then before.sources[source := before.sources[source] + 1] else before.sources)
    && after.enqueued == before.enqueued + (if changed then [source] else [])
    && after.rebuilds == before.rebuilds + (if changed then {source} else {})
    && job in before.jobs && before.jobs[job] == Running(token) && after.jobs == before.jobs[job := Finished]
  }

  /** A backfill commit publishes exactly the visible change it made. */
  lemma BackfillPublishes(c: Config, db: Db, source: SourceId, revision: nat, p: Prepared, answer: StoreAnswer,
                          job: JobId, token: nat)
    requires source in db.sources && db.sources[source] == revision
    ensures var r := BackfillCommit(c, db, source, revision, p, answer, job, token);
      && (r.Ok? ==>
            && ApplyArticle(c, db, p, answer).Ok?
            && Published(db, r.value, source, ApplyArticle(c, db, p, answer).value.changed, job, token)
            && r.value.articles == ApplyArticle(c, db, p, answer).value.db.articles
            && r.value.links == ApplyArticle(c, db, p, answer).value.db.links)
      && (r.Err? ==> r.error == Storage || r.error == LeaseLost)
  {
    OnlyArticlesChange(c, db, p, answer);
    hide ApplyArticle;
  }

  // Applying an observation writes articles and links only.
  lemma OnlyArticlesChange(c: Config, db: Db, p: Prepared, answer: StoreAnswer)
    ensures ApplyArticle(c, db, p, answer).Ok? ==>
              var after := ApplyArticle(c, db, p, answer).value.db;
              after == db.(articles := after.articles, links := after.links)
    ensures ApplyArticle(c, db, p, answer).Err? ==> ApplyArticle(c, db, p, answer).error == Storage
  {
    hide Localized, MergeObservation, FeedVisibleChange, MentionsAssets, CompleteAssetSet, LinksOf;
  }

  /** A refresh commit publishes exactly the visible change it made, and nothing unless it succeeded. */
  lemma RefreshPublishes(c: Config, db: Db, key: Key, reserved: Option<nat>, requested: RefreshOutcome,
                         prepared: Option<Prepared>, answer: StoreAnswer, job: JobId, token: nat)
    requires key.source in db.sources
    ensures var r := RefreshCommit(c, db, key, Some(db.sources[key.source]), reserved, requested, prepared, answer, job, token);
      && (r.Ok? && r.value.outcome != Succeeded ==>
            && job in db.jobs && db.jobs[job] == Running(token)
            && r.value.db == db.(jobs := db.jobs[job := Finished]))
      && (r.Ok? && r.value.outcome == Succeeded ==>
            && requested == Succeeded && prepared.Some? && answer.Stored?
            && var stored := StoredFor(prepared.value.fetched, answer.ids);
            var up := Upsert(ReplaceLinks(db, key, stored), key, Localized(c, prepared.value.article, stored));
            && Published(db, r.value.db, key.source, up.changed, job, token)
            && r.value.db.articles == up.db.articles && r.value.db.links == up.db.links)
      && (r.Err? ==> r.error == Storage || r.error == LeaseLost)
  {
    hide Localized, MergeObservation, FeedVisibleChange, LinksOf;
  }

  // ---- Stale workers

  /** A stale backfill finishes its job and changes nothing else, with or without archiving. */
  lemma StaleBackfill(c: Config, db: Db, source: SourceId, revision: nat, p: Prepared, answer: StoreAnswer, job: JobId, token: nat)
    requires p.key in db.articles && p.article.version < db.articles[p.key].version
    ensures BackfillCommit(c, db, source, revision, p, answer, job, token) == FinishJob(db, job, token)
  {
  }

  /** A refresh at or below the stored version is superseded: it finishes its job and changes nothing else. */
  lemma StaleRefresh(c: Config, db: Db, key: Key, locked: nat, version: nat, requested: RefreshOutcome,
                     prepared: Option<Prepared>, answer: StoreAnswer, job: JobId, token: nat)
    requires key in db.articles && version <= db.articles[key].version
    ensures RefreshCommit(c, db, key, Some(locked), Some(version), requested, prepared, answer, job, token)
         == WithOutcome(FinishJob(db, job, token), Superseded)
  {
  }

  // ---- Versions

  // A later state of an article: not an older version, and nothing that was known is lost.
  predicate Continues(a: Article, b: Article) {
    && a.version <= b.version && (a.html != [] ==> b.html != [])
    && (a.meta.author.Some? ==> b.meta.author.Some?) && (a.meta.summary.Some? ==> b.meta.summary.Some?)
    && (a.meta.cover.Some? ==> b.meta.cover.Some?) && (a.meta.original.Some? ==> b.meta.original.Some?)
  }

  predicate NotOlder(before: Db, after: Db) {
    && before.articles.Keys <= after.articles.Keys
    && forall key :: key in before.articles ==> Continues(before.articles[key], after.articles[key])
  }

  lemma UpsertNotOlder(db: Db, key: Key, incoming: Article)
    ensures NotOlder(db, Upsert(db, key, incoming).db)
  {
  }

  lemma ApplyNotOlder(c: Config, db: Db, p: Prepared, answer: StoreAnswer)
    ensures ApplyArticle(c, db, p, answer).Ok? ==> NotOlder(db, ApplyArticle(c, db, p, answer).value.db)
  {
    hide Localized, MentionsAssets, CompleteAssetSet, Upsert;
    forall base: Db, article: Article
      ensures NotOlder(base, Upsert(base, p.key, article).db)
    {
      UpsertNotOlder(base, p.key, article);
    }
  }

  // ---- Links

  lemma DistinctStored(inputs: seq<AssetInput>, ids: seq<AssetId>)
    requires DistinctInputs(inputs)
    ensures DistinctOccurrences(StoredFor(inputs, ids))
  {
  }

  // Localized fresh content refers only to what was stored.
  lemma LocalizedIsLinked(c: Config, article: Article, inputs: seq<AssetInput>, ids: seq<AssetId>, id: AssetId)
    requires IsFresh(article.html) && DistinctInputs(inputs) && Answers(Stored(ids), inputs)
    requires Refers(Localized(c, article, StoredFor(inputs, ids)).html, id)
    ensures id in LinksOf(StoredFor(inputs, ids)).Values
  {
    var stored := StoredFor(inputs, ids);
    DistinctStored(inputs, ids);
    hide Refers, UrlRewriter.RewriteSanitizedHtml, LinksOf;
    RewrittenRefsAreLinked(article.html, stored, id);
  }

  // Rewriting nonempty content leaves it nonempty.
  lemma LocalizedIsNonempty(c: Config, article: Article, stored: seq<StoredAsset>)
    requires article.html != []
    ensures Localized(c, article, stored).html != []
    ensures Localized(c, article, stored).version == article.version
  {
    if UrlRewriter.NextValue(article.html).Some? {
      assert |article.html| > 0;
    }
    hide UrlRewriter.NextValue, Table, UrlRewriter.Replace;
  }

  lemma ReplacedAndLocalizedLinked(c: Config, db: Db, key: Key, article: Article, inputs: seq<AssetInput>, ids: seq<AssetId>)
    requires Linked(db) && IsFresh(article.html) && DistinctInputs(inputs) && Answers(Stored(ids), inputs)
    requires article.html != [] && (key in db.articles ==> article.version >= db.articles[key].version)
    ensures var stored := StoredFor(inputs, ids);
      Linked(Upsert(ReplaceLinks(db, key, stored), key, Localized(c, article, stored)).db)
  {
    var stored := StoredFor(inputs, ids);
    var replaced := ReplaceLinks(db, key, stored);
    var local := Localized(c, article, stored);
    LocalizedIsNonempty(c, article, stored);
    assert LinksAt(replaced, key) == LinksOf(stored);
    OtherKeysLinked(db, replaced, key);
    hide Refers, Localized, LinksOf, StoredFor, ReplaceLinks, Upsert;
    forall id | Refers(local.html, id)
      ensures id in LinksAt(replaced, key).Values
    {
      LocalizedIsLinked(c, article, inputs, ids, id);
    }
    UpsertKeepsLinked(replaced, key, local);
  }

  // Changing the links of one key leaves the others linked.
  lemma OtherKeysLinked(before: Db, after: Db, key: Key)
    requires Linked(before) && after.articles == before.articles
    requires forall other :: other != key ==> LinksAt(after, other) == LinksAt(before, other)
    ensures forall other :: other != key ==> LinkedAt(after, other)
  {
    hide Refers, LinksAt;
    forall other | other != key
      ensures LinkedAt(after, other)
    {
      assert LinkedAt(before, other);
    }
  }

  lemma KeptContentLinked(db: Db, key: Key, article: Article)
    requires Linked(db) && key in db.articles && article.version >= db.articles[key].version
    ensures Linked(Upsert(db, key, KeepContent(article, db.articles[key])).db)
  {
    assert LinkedAt(db, key);
    EmptyIsFresh();
    hide Refers, LinksAt, Upsert;
    UpsertKeepsLinked(db, key, KeepContent(article, db.articles[key]));
  }

  lemma FreshContentLinked(db: Db, key: Key, article: Article)
    requires Linked(db) && IsFresh(article.html) && (key in db.articles ==> article.version >= db.articles[key].version)
    ensures Linked(Upsert(db, key, article).db)
  {
    assert LinkedAt(db, key);
    EmptyIsFresh();
    hide Refers, LinksAt, Upsert;
    UpsertKeepsLinked(db, key, article);
  }

  lemma ClearedLinked(db: Db, key: Key, article: Article)
    requires Linked(db) && IsFresh(article.html) && article.html != []
    requires key in db.articles ==> article.version >= db.articles[key].version
    ensures Linked(Upsert(ClearLinks(db, key), key, article).db)
  {
    var cleared := ClearLinks(db, key);
    OtherKeysLinked(db, cleared, key);
    hide Refers, LinksAt, Upsert;
    UpsertKeepsLinked(cleared, key, article);
  }

  /** Every path of a backfill keeps every cached reference linked. */
  lemma ApplyKeepsLinked(c: Config, db: Db, p: Prepared, answer: StoreAnswer)
    requires Linked(db) && WellAcquired(c, p) && Answers(answer, p.fetched)
    ensures ApplyArticle(c, db, p, answer).Ok? ==> Linked(ApplyArticle(c, db, p, answer).value.db)
  {
    var current := Current(db, p.key);
    hide Linked, Upsert, ReplaceLinks, ClearLinks, Localized, KeepContent, StoredFor, MentionsAssets, CompleteAssetSet;
    if current.Some? && p.article.version < current.value.version {
      assert c.archiving ==> ApplyArticle(c, db, p, answer) == Ok(Upserted(db, false));
      StaleUpsert(db, p.key, p.article);
    } else {
      FreshContentLinked(db, p.key, p.article);
      if current.Some? {
        KeptContentLinked(db, p.key, p.article);
      }
      if p.article.html != [] {
        ClearedLinked(db, p.key, p.article);
        if answer.Stored? {
          ReplacedAndLocalizedLinked(c, db, p.key, p.article, p.fetched, answer.ids);
        }
      }
    }
  }

  lemma StaleUpsert(db: Db, key: Key, article: Article)
    requires key in db.articles && article.version < db.articles[key].version
    ensures Upsert(db, key, article) == Upserted(db, false)
  {
  }

  // The write of a refresh that succeeds.
  function RefreshWrite(c: Config, db: Db, key: Key, p: Prepared, ids: seq<AssetId>): Db {
    var stored := StoredFor(p.fetched, ids);
    Upsert(ReplaceLinks(db, key, stored), key, Localized(c, p.article, stored)).db
  }

  lemma NonemptyHasMember(urls: seq<Url>)
    ensures urls != [] ==> exists u :: u in urls
  {
    if urls != [] {
      assert urls[0] in urls;
    }
  }

  lemma NoInputsForEmptyContent(c: Config, p: Prepared)
    requires WellAcquired(c, p) && CompleteAcquisition(c, p) && p.article.html == []
    ensures p.fetched == []
  {
    NonemptyHasMember(p.external);
  }

  /**
   * A successful refresh keeps every cached reference linked exactly when its content is nonempty or the
   * stored content has no cached reference: empty content keeps the stored HTML but drops its links.
   */
  lemma RefreshKeepsLinkedIff(c: Config, db: Db, key: Key, p: Prepared, ids: seq<AssetId>)
    requires Linked(db) && WellAcquired(c, p) && CompleteAcquisition(c, p) && Answers(Stored(ids), p.fetched)
    requires key in db.articles && p.article.version >= db.articles[key].version
    ensures Linked(RefreshWrite(c, db, key, p, ids)) <==> p.article.html != [] || IsFresh(db.articles[key].html)
  {
    if p.article.html != [] {
      ReplacedAndLocalizedLinked(c, db, key, p.article, p.fetched, ids);
    } else {
      NoInputsForEmptyContent(c, p);
      EmptyRefresh(c, db, key, p, ids);
    }
  }

  lemma EmptyRefresh(c: Config, db: Db, key: Key, p: Prepared, ids: seq<AssetId>)
    requires Linked(db) && p.article.html == [] && p.fetched == []
    requires key in db.articles && p.article.version >= db.articles[key].version
    ensures Linked(RefreshWrite(c, db, key, p, ids)) <==> IsFresh(db.articles[key].html)
  {
    var stored := StoredFor(p.fetched, ids);
    assert stored == [];
    assert Table(stored) == [];
    var after := RefreshWrite(c, db, key, p, ids);
    var replaced := ReplaceLinks(db, key, stored);
    assert Localized(c, p.article, stored) == p.article;
    assert after.articles[key].html == db.articles[key].html;
    assert LinksAt(after, key) == map[];
    OtherKeysLinked(db, replaced, key);
    assert forall other :: other != key ==> LinksAt(after, other) == LinksAt(replaced, other);
    hide Refers, LinksAt, ReplaceLinks, LinksOf;
    if IsFresh(db.articles[key].html) {
      forall other
        ensures LinkedAt(after, other)
      {
        if other != key {
          assert LinkedAt(replaced, other);
        }
      }
    } else {
      var id :| Refers(db.articles[key].html, id);
      assert !LinkedAt(after, key);
    }
  }

  // ---- What an accepted observation leaves behind

  // The part of an article that a feed shows.
  function Visible(db: Db, key: Key): Option<(Metadata, string, Option<string>)> {
    if key in db.articles then Some((db.articles[key].meta, db.articles[key].html, db.articles[key].hash)) else None
  }

  /** An upsert reports a change exactly when what the feed shows changed, and touches no other article. */
  lemma UpsertReportsTheChange(db: Db, key: Key, incoming: Article)
    ensures var up := Upsert(db, key, incoming);
      && (up.changed <==> Visible(db, key) != Visible(up.db, key))
      && up.db == db.(articles := up.db.articles) && up.db.articles - {key} == db.articles - {key}
  {
  }

  /** Repeating an upsert changes nothing and reports no change. */
  lemma UpsertIsIdempotent(db: Db, key: Key, incoming: Article)
    ensures var once := Upsert(db, key, incoming).db;
      Upsert(once, key, incoming) == Upserted(once, false)
  {
    var once := Upsert(db, key, incoming).db;
    assert once.articles[key := once.articles[key]] == once.articles;
  }

  /** An observation that is not older is stored under its version, whichever path it takes. */
  lemma AcceptedIsStored(c: Config, db: Db, p: Prepared, answer: StoreAnswer)
    requires p.key in db.articles ==> p.article.version >= db.articles[p.key].version
    requires ApplyArticle(c, db, p, answer).Ok?
    ensures var after := ApplyArticle(c, db, p, answer).value.db;
      && p.key in after.articles && after.articles[p.key].version == p.article.version
      && after.articles[p.key].meta.title == p.article.meta.title
      && after.articles[p.key].meta.published == p.article.meta.published
  {
    hide UrlRewriter.RewriteSanitizedHtml, MentionsAssets, CompleteAssetSet, LinksOf, StoredFor, Table;
  }

  /** A complete observation whose assets are stored replaces content and links by its own. */
  lemma CompleteIsInstalled(c: Config, db: Db, p: Prepared, ids: seq<AssetId>)
    requires c.archiving && p.article.html != [] && CompleteAssetSet(c, p.external, p.fetched, p.referer)
    requires p.key in db.articles ==> p.article.version >= db.articles[p.key].version
    ensures ApplyArticle(c, db, p, Stored(ids)).Ok?
    ensures var after := ApplyArticle(c, db, p, Stored(ids)).value.db;
      var stored := StoredFor(p.fetched, ids);
      && p.key in after.articles && after.articles[p.key].html == UrlRewriter.RewriteSanitizedHtml(p.article.html, Table(stored))
      && after.links == db.links[p.key := LinksOf(stored)]
  {
    LocalizedIsNonempty(c, p.article, StoredFor(p.fetched, ids));
    hide UrlRewriter.RewriteSanitizedHtml, CompleteAssetSet, LinksOf, StoredFor, Table, MentionsAssets;
  }

  // ---- The tables after a commit, path by path

  predicate IsAccepted(db: Db, key: Key, version: nat) {
    key in db.articles ==> db.articles[key].version <= version
  }

  // The stored article has cached images.
  predicate HasCached(db: Db, key: Key) {
    key in db.articles && MentionsAssets(db.articles[key].html)
  }

  // A present field is taken, an absent one keeps what was known.
  predicate Takes<T(==)>(known: Option<T>, incoming: Option<T>, field: Option<T>) {
    && (incoming.Some? ==> field == incoming)
    && (incoming.None? ==> field == known)
  }

  predicate TakesMetadata(known: Option<Article>, incoming: Metadata, stored: Metadata) {
    && stored.title == incoming.title && stored.published == incoming.published
    && Takes(if known.Some? then known.value.meta.author else None, incoming.author, stored.author)
    && Takes(if known.Some? then known.value.meta.summary else None, incoming.summary, stored.summary)
    && Takes(if known.Some? then known.value.meta.cover else None, incoming.cover, stored.cover)
    && Takes(if known.Some? then known.value.meta.original else None, incoming.original, stored.original)
  }

  // Nonempty content is taken; a digest is kept only with the content it belongs to.
  predicate TakesContent(known: Option<Article>, html: string, hash: Option<string>, stored: Article) {
    && (html != [] ==> stored.html == html)
    && (html == [] ==> stored.html == if known.Some? then known.value.html else [])
    && Takes(if known.Some? && known.value.html == stored.html then known.value.hash else None, hash, stored.hash)
  }

  // The content and the digest of the observation with its images replaced by the stored ones.
  predicate TakesRewritten(c: Config, known: Option<Article>, article: Article, stored: seq<StoredAsset>, after: Article) {
    var rewritten := UrlRewriter.RewriteSanitizedHtml(article.html, Table(stored));
    && (rewritten != article.html ==> after.html == rewritten && after.hash == Some(c.sha(rewritten)))
    && (rewritten == article.html ==> TakesContent(known, article.html, article.hash, after))
  }

  // One article is written, as this version of an observation.
  predicate WritesOnly(before: Db, after: Db, key: Key, article: Article) {
    && key in after.articles && after.articles - {key} == before.articles - {key}
    && after.articles[key].version == article.version
    && TakesMetadata(Current(before, key), article.meta, after.articles[key].meta)
  }

  lemma UpsertWrites(before: Db, base: Db, key: Key, incoming: Article)
    requires base.articles == before.articles && IsAccepted(before, key, incoming.version)
    ensures var after := Upsert(base, key, incoming).db;
      && WritesOnly(before, after, key, incoming)
      && TakesContent(Current(before, key), incoming.html, incoming.hash, after.articles[key])
      && after.links == base.links
  {
  }

  // Content and links of one path of a backfill with archiving.
  ghost predicate ArchivesAs(c: Config, before: Db, after: Db, p: Prepared, answer: StoreAnswer)
    requires p.key in after.articles
  {
    var key, known, stored := p.key, Current(before, p.key), after.articles[p.key];
    var complete := CompleteAssetSet(c, p.external, p.fetched, p.referer);
    // Cached images are not given up for an incomplete or rejected set.
    && (HasCached(before, key) && (!complete || (p.article.html != [] && answer.Rejected?)) ==>
          after.links == before.links && stored.html == known.value.html && stored.hash == known.value.hash)
    // Nothing to store.
    && (p.article.html == [] && (complete || !HasCached(before, key)) ==>
          after.links == before.links && TakesContent(known, p.article.html, p.article.hash, stored))
    // Whatever was fetched is installed.
    && (p.article.html != [] && answer.Stored? && (complete || !HasCached(before, key)) ==>
          var assets := StoredFor(p.fetched, answer.ids);
          after.links == before.links[key := LinksOf(assets)] && TakesRewritten(c, known, p.article, assets, stored))
    // A rejected set leaves no links, and external images.
    && (p.article.html != [] && answer.Rejected? && !HasCached(before, key) ==>
          after.links == before.links - {key} && TakesContent(known, p.article.html, p.article.hash, stored))
  }

  /**
   * The tables after any committed backfill, path by path: a stale observation writes nothing; without archiving
   * content and digest are its own; with archiving they are those of the path that answer and images lead to.
   */
  lemma BackfillWrites(c: Config, db: Db, source: SourceId, revision: nat, p: Prepared, answer: StoreAnswer,
                       job: JobId, token: nat)
    requires BackfillCommit(c, db, source, revision, p, answer, job, token).Ok?
    ensures var after := BackfillCommit(c, db, source, revision, p, answer, job, token).value;
      && (!IsAccepted(db, p.key, p.article.version) ==> after.articles == db.articles && after.links == db.links)
      && (IsAccepted(db, p.key, p.article.version) ==>
            && WritesOnly(db, after, p.key, p.article)
            && (c.archiving ==> ArchivesAs(c, db, after, p, answer))
            && (!c.archiving ==>
                  && after.links == db.links
                  && TakesContent(Current(db, p.key), p.article.html, p.article.hash, after.articles[p.key])))
  {
    PublishingKeepsTables(c, db, source, revision, p, answer, job, token);
    if IsAccepted(db, p.key, p.article.version) {
      ApplyWrites(c, db, p, answer);
    } else {
      StaleUpsert(db, p.key, p.article);
    }
    hide ApplyArticle, TakesContent, TakesRewritten, TakesMetadata, CompleteAssetSet, MentionsAssets, StoredFor, LinksOf;
  }

  lemma PublishingKeepsTables(c: Config, db: Db, source: SourceId, revision: nat, p: Prepared, answer: StoreAnswer,
                              job: JobId, token: nat)
    requires BackfillCommit(c, db, source, revision, p, answer, job, token).Ok?
    ensures var after := BackfillCommit(c, db, source, revision, p, answer, job, token).value;
      && ApplyArticle(c, db, p, answer).Ok?
      && after.articles == ApplyArticle(c, db, p, answer).value.db.articles
      && after.links == ApplyArticle(c, db, p, answer).value.db.links
    ensures !IsAccepted(db, p.key, p.article.version) ==>
              ApplyArticle(c, db, p, answer).value.db == db
  {
    if !IsAccepted(db, p.key, p.article.version) {
      StaleUpsert(db, p.key, p.article);
    }
    hide Upsert, Localized, MentionsAssets, CompleteAssetSet, LinksOf, StoredFor;
  }

  lemma ApplyWrites(c: Config, db: Db, p: Prepared, answer: StoreAnswer)
    requires ApplyArticle(c, db, p, answer).Ok? && IsAccepted(db, p.key, p.article.version)
    ensures var after := ApplyArticle(c, db, p, answer).value.db;
      && WritesOnly(db, after, p.key, p.article)
      && (c.archiving ==> ArchivesAs(c, db, after, p, answer))
      && (!c.archiving ==>
            && after.links == db.links
            && TakesContent(Current(db, p.key), p.article.html, p.article.hash, after.articles[p.key]))
  {
    hide Upsert, MentionsAssets, CompleteAssetSet, LinksOf, StoredFor, Localized, TakesMetadata, TakesRewritten;
    UpsertWrites(db, db, p.key, p.article);
    if p.key in db.articles {
      UpsertWrites(db, db, p.key, KeepContent(p.article, db.articles[p.key]));
    }
    UpsertWrites(db, ClearLinks(db, p.key), p.key, p.article);
    if answer.Stored? {
      LocalizedWrites(c, db, p.key, p.article, StoredFor(p.fetched, answer.ids));
    }
  }

  lemma LocalizedWrites(c: Config, db: Db, key: Key, article: Article, stored: seq<StoredAsset>)
    requires IsAccepted(db, key, article.version)
    ensures var after := Upsert(ReplaceLinks(db, key, stored), key, Localized(c, article, stored)).db;
      && WritesOnly(db, after, key, article) && after.links == db.links[key := LinksOf(stored)]
      && TakesRewritten(c, Current(db, key), article, stored, after.articles[key])
  {
    var local := Localized(c, article, stored);
    var rewritten := UrlRewriter.RewriteSanitizedHtml(article.html, Table(stored));
    if article.html != [] {
      LocalizedIsNonempty(c, article, stored);
    }
    EmptyStaysEmpty(Table(stored));
    hide UrlRewriter.RewriteSanitizedHtml, Upsert, LinksOf, Table;
    UpsertWrites(db, ReplaceLinks(db, key, stored), key, local);
  }

  lemma EmptyStaysEmpty(table: seq<(string, string)>)
    ensures UrlRewriter.RewriteSanitizedHtml([], table) == []
  {
    assert UrlRewriter.Find([]) == 0;
  }

  /**
   * What any committed refresh decided, and the tables after it: only a wanted success on a found, not superseded
   * target whose assets the store took writes, and then content, digest and links are those of what was stored.
   */
  lemma RefreshWrites(c: Config, db: Db, key: Key, locked: Option<nat>, reserved: Option<nat>, requested: RefreshOutcome,
                      prepared: Option<Prepared>, answer: StoreAnswer, job: JobId, token: nat)
    requires RefreshCommit(c, db, key, locked, reserved, requested, prepared, answer, job, token).Ok?
    ensures var Refreshed(after, outcome) := RefreshCommit(c, db, key, locked, reserved, requested, prepared, answer, job, token).value;
      && outcome == (if locked.None? || key !in db.articles then Deleted
                     else if reserved.Some? && reserved.value <= db.articles[key].version then Superseded
                     else if requested == Succeeded && answer.Rejected? then Inconclusive
                     else requested)
      && (outcome != Succeeded ==> after.articles == db.articles && after.links == db.links)
      && (outcome == Succeeded ==>
            && prepared.Some? && answer.Stored? && key in after.articles
            && var stored := StoredFor(prepared.value.fetched, answer.ids);
            && after.links == db.links[key := LinksOf(stored)]
            && (IsAccepted(db, key, prepared.value.article.version) ==>
                  && WritesOnly(db, after, key, prepared.value.article)
                  && TakesRewritten(c, Current(db, key), prepared.value.article, stored, after.articles[key])))
  {
    hide Localized, LinksOf, StoredFor, Upsert, TakesRewritten, TakesMetadata;
    if prepared.Some? && answer.Stored? {
      var stored := StoredFor(prepared.value.fetched, answer.ids);
      if IsAccepted(db, key, prepared.value.article.version) {
        LocalizedWrites(c, db, key, prepared.value.article, stored);
      }
      UpsertReportsTheChange(ReplaceLinks(db, key, stored), key, Localized(c, prepared.value.article, stored));
      UpsertKeepsKeys(ReplaceLinks(db, key, stored), key, Localized(c, prepared.value.article, stored));
    }
  }

  lemma UpsertKeepsKeys(db: Db, key: Key, incoming: Article)
    ensures key in Upsert(db, key, incoming).db.articles
  {
  }

  // ---- Digests

  ghost predicate AllDigested(c: Config, db: Db) {
    forall key :: key in db.articles ==> Digested(c, db.articles[key])
  }

  lemma UpsertKeepsDigests(c: Config, db: Db, key: Key, incoming: Article)
    requires AllDigested(c, db) && Digested(c, incoming)
    ensures AllDigested(c, Upsert(db, key, incoming).db)
  {
  }

  lemma LocalizedIsDigested(c: Config, article: Article, stored: seq<StoredAsset>)
    requires Digested(c, article)
    ensures Digested(c, Localized(c, article, stored))
  {
    if article.html != [] {
      LocalizedIsNonempty(c, article, stored);
    }
    hide UrlRewriter.Rewrite, Table;
  }

  /** Every path of a backfill stores the digest of the content it stores. */
  lemma ApplyKeepsDigests(c: Config, db: Db, p: Prepared, answer: StoreAnswer)
    requires AllDigested(c, db) && Digested(c, p.article)
    ensures ApplyArticle(c, db, p, answer).Ok? ==> AllDigested(c, ApplyArticle(c, db, p, answer).value.db)
  {
    var current := Current(db, p.key);
    hide Upsert, Localized, MentionsAssets, CompleteAssetSet, LinksOf;
    UpsertKeepsDigests(c, db, p.key, p.article);
    UpsertKeepsDigests(c, ClearLinks(db, p.key), p.key, p.article);
    if current.Some? {
      UpsertKeepsDigests(c, db, p.key, KeepContent(p.article, current.value));
    }
    if answer.Stored? {
      var stored := StoredFor(p.fetched, answer.ids);
      LocalizedIsDigested(c, p.article, stored);
      UpsertKeepsDigests(c, ReplaceLinks(db, p.key, stored), p.key, Localized(c, p.article, stored));
    }
  }

  lemma RefreshKeepsDigests(c: Config, db: Db, key: Key, p: Prepared, ids: seq<AssetId>)
    requires AllDigested(c, db) && Digested(c, p.article)
    ensures AllDigested(c, RefreshWrite(c, db, key, p, ids))
  {
    hide Upsert, Localized, LinksOf;
    var stored := StoredFor(p.fetched, ids);
    LocalizedIsDigested(c, p.article, stored);
    UpsertKeepsDigests(c, ReplaceLinks(db, key, stored), key, Localized(c, p.article, stored));
  }

  // ---- The archived representation survives

  /**
   * When the stored article has cached routes and the new images are incomplete or rejected, a backfill
   * keeps content, digest and links of the archived representation.
   */
  lemma ArchiveSurvives(c: Config, db: Db, p: Prepared, answer: StoreAnswer)
    requires c.archiving && p.key in db.articles && MentionsAssets(db.articles[p.key].html)
    requires !CompleteAssetSet(c, p.external, p.fetched, p.referer) || answer == Rejected
    ensures ApplyArticle(c, db, p, answer).Ok?
    ensures var after := ApplyArticle(c, db, p, answer).value.db;
      && after.links == db.links && p.key in after.articles
      && after.articles[p.key].html == db.articles[p.key].html
      && (p.article.html != [] ==> after.articles[p.key].hash == db.articles[p.key].hash)
  {
    hide MentionsAssets, CompleteAssetSet, UrlRewriter.RewriteSanitizedHtml;
  }

  // ---- Which images a complete refresh makes local

  // Listed image URLs are absolute: they start with their scheme and have no spaces.
  predicate IsAbsolute(url: Url) {
    url != [] && url[0] == 'h' && UrlRewriter.IsCompact(url)
  }

  lemma {:induction false} EscapedIsCompact(s: string)
    requires UrlRewriter.IsCompact(s)
    ensures UrlRewriter.IsCompact(UrlRewriter.EscapeAttribute(s))
  {
    if s != [] {
      assert s[0] in s && forall c :: c in s[1..] ==> c in s;
      EscapedIsCompact(s[1..]);
    }
  }

  // The replacement that the stored assets define.
  function Replacement(stored: seq<StoredAsset>): string -> Option<string> {
    v => UrlRewriter.Lookup(Table(stored), v)
  }

  ghost predicate AbsoluteSources(stored: seq<StoredAsset>) {
    forall k :: 0 <= k < |stored| ==> IsAbsolute(stored[k].source)
  }

  lemma ReplacementLeavesSpaced(stored: seq<StoredAsset>)
    requires AbsoluteSources(stored)
    ensures UrlRewriter.LeavesSpaced(Replacement(stored))
  {
    var table := Table(stored);
    hide UrlRewriter.EscapeAttribute, UrlRewriter.Lookup;
    forall v | ' ' in v
      ensures UrlRewriter.Lookup(table, v) == None
    {
      UrlRewriter.LookupFinds(table, v);
      forall e | e in table
        ensures UrlRewriter.EscapeAttribute(e.0) != v
      {
        var k :| 0 <= k < |table| && table[k] == e;
        EscapedIsCompact(stored[k].source);
      }
    }
  }

  // The shortcuts of the rewriter for empty tables and texts change nothing.
  lemma SanitizedRewrite(html: string, stored: seq<StoredAsset>)
    ensures UrlRewriter.RewriteSanitizedHtml(html, Table(stored)) == UrlRewriter.Rewrite(html, Replacement(stored))
  {
    if stored == [] {
      UrlRewriter.UnmatchedIsUnchanged(html, Replacement(stored));
    } else if html == [] {
      UrlRewriter.EmptyHasNoValues();
      UrlRewriter.UnmatchedIsUnchanged(html, Replacement(stored));
    }
    hide UrlRewriter.Rewrite, UrlRewriter.ScanValues;
  }

  lemma CompleteHasEverySource(c: Config, p: Prepared, ids: seq<AssetId>, source: string) returns (k: nat)
    requires CompleteAcquisition(c, p) && Answers(Stored(ids), p.fetched) && source in p.external
    ensures k < |StoredFor(p.fetched, ids)| && StoredFor(p.fetched, ids)[k].source == source
  {
    var i :| 0 <= i < |p.external| && p.external[i] == source;
    assert MatchesOnce(p.fetched, i, p.external[i]);
    k :| 0 <= k < |p.fetched| && p.fetched[k].occurrence == i && p.fetched[k].source == p.external[i];
  }

  lemma SourceIsReplaced(stored: seq<StoredAsset>, source: string, j: nat)
    requires ValidIds(stored) && j < |stored| && stored[j].source == source
    ensures IsLocal(stored, source, UrlRewriter.Replace(Replacement(stored), UrlRewriter.EscapeAttribute(source)))
  {
    var table, key := Table(stored), UrlRewriter.EscapeAttribute(source);
    UrlRewriter.LookupFinds(table, key);
    assert table[j] in table;
    var e :| e in table && UrlRewriter.EscapeAttribute(e.0) == key && UrlRewriter.Lookup(table, key).value == e.1;
    var k :| 0 <= k < |stored| && table[k] == e;
    UrlRewriter.EscapeInjective(stored[k].source, source);
    RouteIsUnescaped(stored[k].id);
  }

  // The value is the route of an asset stored for this source.
  ghost predicate IsLocal(stored: seq<StoredAsset>, source: string, value: string) {
    exists k :: 0 <= k < |stored| && stored[k].source == source && value == Route(stored[k].id)
  }

  // Every text before an image is synced.
  predicate SyncedDocument(texts: seq<string>) {
    forall i :: 0 <= i < |texts| - 1 ==> UrlRewriter.Synced(texts[i])
  }

  // The observation's content is the document of these texts and sources, every one of them listed and absolute.
  ghost predicate Shows(p: Prepared, texts: seq<string>, sources: seq<string>) {
    && |texts| == |sources| + 1 && p.article.html == UrlRewriter.Serialize(texts, sources)
    && (forall source :: source in sources ==> source in p.external)
    && (forall url :: url in p.external ==> IsAbsolute(url))
    && (forall a :: a in p.fetched ==> a.source in p.external)
  }

  lemma RefreshedDocument(c: Config, p: Prepared, ids: seq<AssetId>, texts: seq<string>, sources: seq<string>)
    requires Answers(Stored(ids), p.fetched) && Shows(p, texts, sources)
    ensures var stored := StoredFor(p.fetched, ids);
      var f := Replacement(stored);
      && Localized(c, p.article, stored).html
         == UrlRewriter.Assemble(UrlRewriter.RewriteTexts(texts, f), UrlRewriter.RewriteImages(texts, sources, f))
  {
    var stored := StoredFor(p.fetched, ids);
    forall k | 0 <= k < |stored|
      ensures IsAbsolute(stored[k].source)
    {
      assert p.fetched[k] in p.fetched;
    }
    forall i | 0 <= i < |sources|
      ensures UrlRewriter.IsCompact(UrlRewriter.EscapeAttribute(sources[i]))
    {
      assert sources[i] in sources;
      EscapedIsCompact(sources[i]);
    }
    ReplacementLeavesSpaced(stored);
    SanitizedRewrite(p.article.html, stored);
    hide UrlRewriter.Rewrite, UrlRewriter.Serialize, UrlRewriter.RewriteTexts, UrlRewriter.RewriteImages, Replacement, Table;
    UrlRewriter.DocumentRewrites(texts, sources, Replacement(stored));
  }

  // One image of the refreshed document.
  lemma ImageIsLocalIff(c: Config, p: Prepared, ids: seq<AssetId>, texts: seq<string>, sources: seq<string>, i: nat)
    requires CompleteAcquisition(c, p) && Answers(Stored(ids), p.fetched) && Shows(p, texts, sources) && i < |sources|
    ensures var stored := StoredFor(p.fetched, ids);
      var value := UrlRewriter.RewriteImages(texts, sources, Replacement(stored))[i];
      && UrlRewriter.QUOTE !in value
      && (IsLocal(stored, sources[i], value) <==> UrlRewriter.Synced(texts[i]))
      && (!UrlRewriter.Synced(texts[i]) ==> value == UrlRewriter.EscapeAttribute(sources[i]))
  {
    var stored, source := StoredFor(p.fetched, ids), sources[i];
    var f := Replacement(stored);
    UrlRewriter.EscapedHasNoQuote(source);
    UrlRewriter.ReplacedHasNoQuote(f, UrlRewriter.EscapeAttribute(source));
    assert source in sources && source in p.external;
    hide UrlRewriter.EscapeAttribute, UrlRewriter.Synced, Route, UrlRewriter.Replace, Replacement, Table;
    if UrlRewriter.Synced(texts[i]) {
      var j := CompleteHasEverySource(c, p, ids, source);
      SourceIsReplaced(stored, source, j);
    } else {
      forall k | 0 <= k < |stored|
        ensures UrlRewriter.EscapeAttribute(source) != Route(stored[k].id)
      {
        RouteIsNotAbsolute(source, stored[k].id);
      }
    }
  }

  lemma RouteIsNotAbsolute(source: string, id: AssetId)
    requires source != [] && source[0] == 'h'
    ensures UrlRewriter.EscapeAttribute(source) != Route(id)
  {
    assert UrlRewriter.EscapeAttribute(source)[0] == 'h';
    assert Route(id)[0] == '/';
  }

  /**
   * A complete refresh leaves every image of the stored document local if and only if the document is synced;
   * image by image, one behind an unsynced text keeps its external URL, whatever the table holds. The values
   * are those that stand between the refreshed texts in the stored HTML.
   */
  lemma CompleteRefreshIsLocalIff(c: Config, p: Prepared, ids: seq<AssetId>, texts: seq<string>, sources: seq<string>,
                                  values: seq<string>)
    requires CompleteAcquisition(c, p) && Answers(Stored(ids), p.fetched) && Shows(p, texts, sources)
    requires |values| == |sources| && forall i :: 0 <= i < |values| ==> UrlRewriter.QUOTE !in values[i]
    requires var stored := StoredFor(p.fetched, ids);
      Localized(c, p.article, stored).html
      == UrlRewriter.Assemble(UrlRewriter.RewriteTexts(texts, Replacement(stored)), values)
    ensures var stored := StoredFor(p.fetched, ids);
      && ((forall i :: 0 <= i < |sources| ==> IsLocal(stored, sources[i], values[i])) <==> SyncedDocument(texts))
      && forall i :: 0 <= i < |sources| && !UrlRewriter.Synced(texts[i]) ==>
           values[i] == UrlRewriter.EscapeAttribute(sources[i])
  {
    var stored := StoredFor(p.fetched, ids);
    var f := Replacement(stored);
    var images := UrlRewriter.RewriteImages(texts, sources, f);
    RefreshedDocument(c, p, ids, texts, sources);
    forall i | 0 <= i < |sources|
      ensures UrlRewriter.QUOTE !in images[i]
      ensures IsLocal(stored, sources[i], images[i]) <==> UrlRewriter.Synced(texts[i])
      ensures !UrlRewriter.Synced(texts[i]) ==> images[i] == UrlRewriter.EscapeAttribute(sources[i])
    {
      ImageIsLocalIff(c, p, ids, texts, sources, i);
    }
    hide UrlRewriter.RewriteTexts, UrlRewriter.RewriteImages, UrlRewriter.Assemble, Localized, StoredFor, Replacement,
         IsLocal, UrlRewriter.Synced, UrlRewriter.EscapeAttribute;
    UrlRewriter.AssembledOnce(UrlRewriter.RewriteTexts(texts, f), values, images);
  }

  // A paragraph whose text opens a value, and the image tag behind it.
  function UnsyncedText(): string {
    "<p>" + (UrlRewriter.Marker() + "x</p><img")
  }

  lemma UnsyncedTextOpensAValue()
    ensures !UrlRewriter.Synced(UnsyncedText()) && UrlRewriter.NextValue(UnsyncedText()) == None
  {
    var stray := UrlRewriter.Marker() + "x</p><img";
    assert stray[0..6] == UrlRewriter.Marker();
    assert UrlRewriter.Find(stray) == 0;
    assert stray[6..] == "x</p><img";
    assert UrlRewriter.QUOTE !in stray[6..];
    assert UrlRewriter.NextValue(stray) == None;
    UrlRewriter.FindSkips("<p>", stray);
    UrlRewriter.NothingBehind("<p>", stray);
    hide UrlRewriter.Find, UrlRewriter.NextValue;
  }

  // Content with one image behind that text, its image fetched.
  function UnsyncedObservation(c: Config, key: Key, version: nat, url: Url, referer: Url): Prepared {
    var html := UrlRewriter.Serialize([UnsyncedText(), " />"], [url]);
    var image := AssetFetch.AssetInput(url, url, "image/png", [0], 0);
    Prepared(key, Article(Metadata("title", None, None, None, None, 0), html, Some(c.sha(html)), version), [url], [image], referer)
  }

  lemma UnsyncedIsComplete(c: Config, key: Key, version: nat, url: Url, referer: Url)
    requires c.maxCount > 0 && !c.signed(url) && !c.signed(referer) && IsAbsolute(url)
    ensures var p := UnsyncedObservation(c, key, version, url, referer);
      && CompleteAcquisition(c, p) && Shows(p, [UnsyncedText(), " />"], [url])
      && p.article.html != [] && p.article.version == version && |p.fetched| == 1
  {
    hide UrlRewriter.Serialize, UnsyncedText, IsAbsolute;
    var p := UnsyncedObservation(c, key, version, url, referer);
    assert p.fetched[0].occurrence == 0 && p.fetched[0].source == url;
    assert MatchesOnce(p.fetched, 0, url);
    NonemptyDocument(url);
  }

  lemma NonemptyDocument(url: Url)
    ensures UrlRewriter.Serialize([UnsyncedText(), " />"], [url]) != []
  {
    hide UnsyncedText, UrlRewriter.EscapeAttribute;
  }

  // The image keeps its value.
  lemma UnsyncedImage(url: Url, f: string -> Option<string>)
    ensures UrlRewriter.RewriteImages([UnsyncedText(), " />"], [url], f) == [UrlRewriter.EscapeAttribute(url)]
  {
    UnsyncedTextOpensAValue();
    hide UrlRewriter.Synced, UnsyncedText, UrlRewriter.EscapeAttribute;
  }

  /**
   * For every absolute image URL: a refresh that fetched it, and nothing else was listed, commits as succeeded and
   * stores the image's external URL all the same, because the text before it opens a value that swallows it.
   */
  lemma SucceededRefreshLeavesImageExternal(c: Config, db: Db, key: Key, version: nat, url: Url, referer: Url, job: JobId, token: nat)
    requires c.maxCount > 0 && !c.signed(url) && !c.signed(referer) && IsAbsolute(url)
    requires key.source in db.sources && key in db.articles && db.articles[key].version < version
    requires job in db.jobs && db.jobs[job] == Running(token)
    ensures var p := UnsyncedObservation(c, key, version, url, referer);
      var r := RefreshCommit(c, db, key, Some(db.sources[key.source]), Some(version), Succeeded, Some(p),
                             Stored([EXAMPLE_ASSET]), job, token);
      && CompleteAcquisition(c, p)
      && r.Ok? && r.value.outcome == Succeeded && key in r.value.db.articles
      && exists texts :: |texts| == 2
           && r.value.db.articles[key].html == UrlRewriter.Assemble(texts, [UrlRewriter.EscapeAttribute(url)])
  {
    hide *;
    var p := UnsyncedObservation(c, key, version, url, referer);
    var texts, sources, ids := [UnsyncedText(), " />"], [url], [EXAMPLE_ASSET];
    UnsyncedIsComplete(c, key, version, url, referer);
    ExampleAnswer(p.fetched);
    RefreshedDocument(c, p, ids, texts, sources);
    UnsyncedImage(url, Replacement(StoredFor(p.fetched, ids)));
    LocalizedIsNonempty(c, p.article, StoredFor(p.fetched, ids));
    RefreshInstalls(c, db, key, version, p, ids, job, token);
  }

  lemma ExampleAnswer(inputs: seq<AssetInput>)
    ensures |inputs| == 1 ==> Answers(Stored([EXAMPLE_ASSET]), inputs)
  {
    ExampleAssetIsAnId();
    hide IsAssetId;
  }

  // A refresh of an older article whose assets are stored installs its content.
  lemma RefreshInstalls(c: Config, db: Db, key: Key, version: nat, p: Prepared, ids: seq<AssetId>, job: JobId, token: nat)
    requires key.source in db.sources && key in db.articles && db.articles[key].version < version == p.article.version
    requires job in db.jobs && db.jobs[job] == Running(token)
    requires Localized(c, p.article, StoredFor(p.fetched, ids)).html != []
    requires Localized(c, p.article, StoredFor(p.fetched, ids)).version == version
    ensures var r := RefreshCommit(c, db, key, Some(db.sources[key.source]), Some(version), Succeeded, Some(p), Stored(ids), job, token);
      && r.Ok? && r.value.outcome == Succeeded && key in r.value.db.articles
      && r.value.db.articles[key].html == Localized(c, p.article, StoredFor(p.fetched, ids)).html
  {
    hide Localized, StoredFor, LinksOf;
  }

  // ---- Where fresh content comes from

  /** A sanitized document of absolute image URLs is fresh if and only if none of its texts holds a complete route. */
  lemma FreshIffTextsAreFresh(texts: seq<string>, sources: seq<string>)
    requires |texts| == |sources| + 1 && forall k :: 0 <= k < |sources| ==> IsAbsolute(sources[k])
    ensures IsFresh(UrlRewriter.Serialize(texts, sources)) <==> forall i :: 0 <= i < |texts| ==> IsFresh(texts[i])
  {
    hide Refers, UrlRewriter.Serialize, IsAbsolute;
    var html := UrlRewriter.Serialize(texts, sources);
    if forall i :: 0 <= i < |texts| ==> IsFresh(texts[i]) {
      forall id
        ensures !Refers(html, id)
      {
        ReferenceIsInText(texts, sources, id);
      }
    } else {
      var i :| 0 <= i < |texts| && !IsFresh(texts[i]);
      var id :| Refers(texts[i], id);
      ReferenceIsInText(texts, sources, id);
      assert Refers(html, id);
    }
  }

  lemma ReferenceIsInText(texts: seq<string>, sources: seq<string>, id: AssetId)
    requires |texts| == |sources| + 1 && forall k :: 0 <= k < |sources| ==> IsAbsolute(sources[k])
    ensures Refers(UrlRewriter.Serialize(texts, sources), id) <==> exists i :: 0 <= i < |texts| && Refers(texts[i], id)
  {
    if IsAssetId(id) {
      RouteIsCompact(id);
      forall k | 0 <= k < |sources|
        ensures UrlRewriter.IsCompact(UrlRewriter.EscapeAttribute(sources[k]))
        ensures UrlRewriter.EscapeAttribute(sources[k]) != Route(id)
      {
        EscapedIsCompact(sources[k]);
        RouteIsNotAbsolute(sources[k], id);
      }
      hide UrlRewriter.Serialize, UrlRewriter.ScanValues, UrlRewriter.EscapeAttribute, Route, UrlRewriter.Synced, IsAssetId;
      UrlRewriter.DocumentScans(texts, sources, Route(id));
      forall i | 0 <= i < |texts|
        ensures Refers(texts[i], id) <==> Route(id) in UrlRewriter.ScanValues(texts[i])
      {
      }
    }
  }

  const EXAMPLE_ASSET := "bd264535-3e4f-4da5-be01-73f3dcc98625"

  lemma ExampleAssetIsAnId()
    ensures IsAssetId(EXAMPLE_ASSET)
  {
  }

  // A text with a complete value: the route of the example asset.
  function StrayText(): string {
    UrlRewriter.Marker() + Route(EXAMPLE_ASSET) + [UrlRewriter.QUOTE] + ""
  }

  /** A text that spells a route is taken for a cached image, so freshness needs its condition. */
  lemma TextCanLookCached()
    ensures !IsFresh(UrlRewriter.Serialize([StrayText()], []))
  {
    ExampleAssetIsAnId();
    RouteIsPlain();
    assert UrlRewriter.Find("") == 0;
    UrlRewriter.GapThenMarker("");
    assert "" + UrlRewriter.Marker() == UrlRewriter.Marker();
    hide Route, UrlRewriter.Marker, UrlRewriter.Find, UrlRewriter.NextValue, UrlRewriter.Rewrite;
    UrlRewriter.SplitStep(UrlRewriter.Marker(), Route(EXAMPLE_ASSET), "", v => None);
    assert Route(EXAMPLE_ASSET) in UrlRewriter.ScanValues(StrayText());
    assert Refers(StrayText(), EXAMPLE_ASSET);
  }

  lemma RouteIsPlain()
    ensures UrlRewriter.QUOTE !in Route(EXAMPLE_ASSET)
  {
  }
}
