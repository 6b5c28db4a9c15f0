/** The article tables: articles, asset links, source revisions, the rebuild queue and job leases. */
module ArticleStore {
  import opened Options
  import opened Text
  import UrlRewriter

  type SourceId = nat
  type JobId = nat
  type AssetId = string

  datatype Key = Key(source: SourceId, review: string)

  // The fields of an article besides its content; all of them can alter the feed.
  datatype Metadata = Metadata(title: string, author: Option<string>, summary: Option<string>, cover: Option<string>,
                               original: Option<string>, published: int)

  datatype Article = Article(meta: Metadata, html: string, hash: Option<string>, version: nat)

  // One asset stored for an article: where its URL stood, which URL, and the identifier it got.
  datatype StoredAsset = StoredAsset(occurrence: nat, source: string, id: AssetId)

  datatype JobState = Running(token: nat) | Finished

  // `rebuilds` holds the sources with an active rebuild job, `enqueued` every rebuild request ever committed.
  datatype Db = Db(
    sources: map<SourceId, nat>,
    articles: map<Key, Article>,
    links: map<Key, map<nat, AssetId>>,
    rebuilds: set<SourceId>,
    enqueued: seq<SourceId>,
    jobs: map<JobId, JobState>)

  // ---- Cached references in stored HTML

  // The stable local route of an asset.
  function Route(id: AssetId): string {
    "/assets/" + id
  }

  // Asset identifiers are UUIDs in their hyphenated form; none of their characters is escaped in HTML.
  predicate IsAssetId(id: AssetId) {
    |id| == 36 && forall i :: 0 <= i < 36 ==>
      if i == 8 || i == 13 || i == 18 || i == 23 then id[i] == '-' else '0' <= id[i] <= '9' || 'a' <= id[i] <= 'f'
  }

  ghost predicate Refers(html: string, id: AssetId) {
    IsAssetId(id) && Route(id) in UrlRewriter.ScanValues(html)
  }

  ghost predicate IsFresh(html: string) {
    forall id :: !Refers(html, id)
  }

  // The handlers' test for a cached representation.
  predicate MentionsAssets(html: string) {
    exists i :: 0 <= i <= |html| && IsPrefixAt("/assets/", html, i)
  }

  lemma {:induction false} ScannedIsInside(html: string, v: string) returns (i: nat)
    requires v in UrlRewriter.ScanValues(html)
    ensures i + |v| <= |html| && html[i..i + |v|] == v
    decreases |html|
  {
    hide *;
    assert UrlRewriter.NextValue(html).Some? by {
      if UrlRewriter.NextValue(html).None? {
        UrlRewriter.NoIteration(html, w => None);
      }
    }
    var (a, b) := UrlRewriter.NextValue(html).value;
    UrlRewriter.Iteration(html, w => None, a, b);
    if v == html[a..b] {
      i := a;
    } else {
      var j := ScannedIsInside(html[b + 1..], v);
      i := b + 1 + j;
      SliceOfRest(html, b + 1, j, |v|);
    }
  }

  lemma SliceOfRest(s: string, c: nat, j: nat, n: nat)
    requires c + j + n <= |s|
    ensures s[c..][j..j + n] == s[c + j..c + j + n]
  {
  }

  // A cached reference is visible to the textual test.
  lemma RefersIsMentioned(html: string, id: AssetId)
    requires Refers(html, id)
    ensures MentionsAssets(html)
  {
    var i := ScannedIsInside(html, Route(id));
    RouteStarts(id);
    assert html[i..i + |Route(id)|][..8] == html[i..i + 8];
    assert IsPrefixAt("/assets/", html, i);
  }

  /** The test asks whether the text occurs anywhere. */
  lemma MentionsIffInside(html: string)
    ensures MentionsAssets(html) <==> exists a: string, b: string :: html == a + "/assets/" + b
  {
    if MentionsAssets(html) {
      var i :| 0 <= i <= |html| && IsPrefixAt("/assets/", html, i);
      assert html == html[..i] + "/assets/" + html[i + 8..];
    }
    if a: string, b: string :| html == a + "/assets/" + b {
      assert html[|a|..|a| + 8] == "/assets/";
      assert IsPrefixAt("/assets/", html, |a|);
    }
  }

  lemma RouteStarts(id: AssetId)
    ensures |Route(id)| == 8 + |id| && Route(id)[..8] == "/assets/" && Route(id)[8..] == id
  {
  }

  lemma RouteInjective(a: AssetId, b: AssetId)
    requires Route(a) == Route(b)
    ensures a == b
  {
    RouteStarts(a);
    RouteStarts(b);
  }

  // References have no spaces.
  lemma RouteIsCompact(id: AssetId)
    requires IsAssetId(id)
    ensures UrlRewriter.IsCompact(Route(id))
  {
    RouteStarts(id);
    forall i | 0 <= i < |Route(id)|
      ensures Route(id)[i] != ' '
    {
      if i >= 8 {
        assert Route(id)[i] == id[i - 8];
      }
    }
  }

  predicate IsPlain(s: string) {
    forall i :: 0 <= i < |s| ==> UrlRewriter.EscapeChar(s[i]) == [s[i]]
  }

  lemma {:induction false} PlainIsUnescaped(s: string)
    requires IsPlain(s)
    ensures UrlRewriter.EscapeAttribute(s) == s
  {
    if s != [] {
      PlainIsUnescaped(s[1..]);
      assert s == [s[0]] + s[1..];
    }
  }

  lemma RouteIsUnescaped(id: AssetId)
    requires IsAssetId(id)
    ensures UrlRewriter.EscapeAttribute(Route(id)) == Route(id)
  {
    assert IsPlain(Route(id));
    PlainIsUnescaped(Route(id));
  }

  // ---- Asset links

  function LinksAt(db: Db, key: Key): map<nat, AssetId> {
    if key in db.links then db.links[key] else map[]
  }

  // Attaching in order: a later asset takes over an occurrence.
  function LinksOf(stored: seq<StoredAsset>): map<nat, AssetId> {
    if stored == [] then map[]
    else
      var last := stored[|stored| - 1];
      LinksOf(stored[..|stored| - 1])[last.occurrence := last.id]
  }

  function ReplaceLinks(db: Db, key: Key, stored: seq<StoredAsset>): Db {
    db.(links := db.links[key := LinksOf(stored)])
  }

  function ClearLinks(db: Db, key: Key): Db {
    db.(links := db.links - {key})
  }

  ghost predicate DistinctOccurrences(stored: seq<StoredAsset>) {
    forall j, k :: 0 <= j < k < |stored| ==> stored[j].occurrence != stored[k].occurrence
  }

  lemma {:induction false} EveryStoredIsLinked(stored: seq<StoredAsset>, k: nat)
    requires DistinctOccurrences(stored) && k < |stored|
    ensures stored[k].occurrence in LinksOf(stored) && LinksOf(stored)[stored[k].occurrence] == stored[k].id
  {
    var n := |stored| - 1;
    if k < n {
      EveryStoredIsLinked(stored[..n], k);
    }
  }

  /** Only what was stored is linked, under the occurrence it stood at. */
  lemma {:induction false} OnlyStoredIsLinked(stored: seq<StoredAsset>, occurrence: nat)
    ensures occurrence in LinksOf(stored) ==>
              exists k :: 0 <= k < |stored| && stored[k].occurrence == occurrence && stored[k].id == LinksOf(stored)[occurrence]
  {
    if stored != [] {
      var n := |stored| - 1;
      OnlyStoredIsLinked(stored[..n], occurrence);
      if occurrence in LinksOf(stored) && stored[n].occurrence != occurrence {
        var k :| 0 <= k < n && stored[..n][k].occurrence == occurrence && stored[..n][k].id == LinksOf(stored[..n])[occurrence];
        assert stored[k] == stored[..n][k];
      }
    }
  }

  // ---- Articles

  function OrElse<T>(a: Option<T>, b: Option<T>): Option<T> {
    if a.Some? then a else b
  }

  // Empty content keeps the stored content; absent optional fields keep the stored ones.
  function MergeObservation(current: Article, incoming: Article): Article {
    var html := if incoming.html == [] then current.html else incoming.html;
    var hash := OrElse(incoming.hash, if html == current.html then current.hash else None);
    var meta := Metadata(incoming.meta.title, OrElse(incoming.meta.author, current.meta.author),
                         OrElse(incoming.meta.summary, current.meta.summary), OrElse(incoming.meta.cover, current.meta.cover),
                         OrElse(incoming.meta.original, current.meta.original), incoming.meta.published);
    Article(meta, html, hash, incoming.version)
  }

  predicate FeedVisibleChange(current: Article, merged: Article) {
    current.meta != merged.meta || current.html != merged.html || current.hash != merged.hash
  }

  datatype Upserted = Upserted(db: Db, changed: bool)

  function Upsert(db: Db, key: Key, incoming: Article): Upserted {
    if key !in db.articles then Upserted(db.(articles := db.articles[key := incoming]), true)
    else
      var current := db.articles[key];
      if incoming.version < current.version then Upserted(db, false)
      else
        var merged := MergeObservation(current, incoming);
        Upserted(db.(articles := db.articles[key := merged]), FeedVisibleChange(current, merged))
  }

  // ---- Sources, the queue and jobs

  datatype StoreError = NotFound | RevisionConflict | LeaseLost | Storage

  // A compare-and-set on the feed revision.
  function BumpFeedRevision(db: Db, source: SourceId, expected: nat): Result<Db, StoreError> {
    if source !in db.sources then Err(NotFound)
    else if db.sources[source] != expected then Err(RevisionConflict)
    else Ok(db.(sources := db.sources[source := expected + 1]))
  }

  // One active rebuild job per source: the deduplication key names the source.
  function EnqueueRebuild(db: Db, source: SourceId): Db {
    db.(rebuilds := db.rebuilds + {source}, enqueued := db.enqueued + [source])
  }

  // Finishing a job needs the token of its current claim.
  function FinishJob(db: Db, job: JobId, token: nat): Result<Db, StoreError> {
    if job in db.jobs && db.jobs[job] == Running(token) then Ok(db.(jobs := db.jobs[job := Finished]))
    else Err(LeaseLost)
  }

  // Deleting a source cascades to its articles and their links.
  function DeleteSource(db: Db, source: SourceId): Db {
    db.(sources := db.sources - {source},
        articles := map k | k in db.articles && k.source != source :: db.articles[k],
        links := map k | k in db.links && k.source != source :: db.links[k])
  }

  /** Nothing of a deleted source is left, and nothing else is touched. */
  lemma DeletedSourceIsGone(db: Db, source: SourceId, key: Key)
    ensures var after := DeleteSource(db, source);
      && source !in after.sources && after.sources == db.sources - {source}
      && Equal(after.articles, if key.source == source then map[] else db.articles, key)
      && Equal(after.links, if key.source == source then map[] else db.links, key)
      && after == db.(sources := after.sources, articles := after.articles, links := after.links)
  {
  }

  // Two tables agree at a key.
  predicate Equal<T(==)>(a: map<Key, T>, b: map<Key, T>, key: Key) {
    (key in a <==> key in b) && (key in a ==> a[key] == b[key])
  }

  // ---- The link invariant

  // Every cached reference of the article at `key` has a relationship row.
  ghost predicate LinkedAt(db: Db, key: Key) {
    key in db.articles ==> forall id :: Refers(db.articles[key].html, id) ==> id in LinksAt(db, key).Values
  }

  ghost predicate Linked(db: Db) {
    forall key :: LinkedAt(db, key)
  }

  // The replacement table of the stored assets.
  function Table(stored: seq<StoredAsset>): (table: seq<(string, string)>)
    ensures |table| == |stored|
    ensures forall k :: 0 <= k < |stored| ==> table[k] == (stored[k].source, Route(stored[k].id))
  {
    seq(|stored|, k requires 0 <= k < |stored| => (stored[k].source, Route(stored[k].id)))
  }

  ghost predicate ValidIds(stored: seq<StoredAsset>) {
    forall k :: 0 <= k < |stored| ==> IsAssetId(stored[k].id)
  }

  /** Every reference that rewriting puts into fresh HTML is linked, whatever the HTML. */
  lemma RewrittenRefsAreLinked(html: string, stored: seq<StoredAsset>, id: AssetId)
    requires IsFresh(html) && ValidIds(stored) && DistinctOccurrences(stored)
    requires Refers(UrlRewriter.RewriteSanitizedHtml(html, Table(stored)), id)
    ensures id in LinksOf(stored).Values
  {
    var table := Table(stored);
    UrlRewriter.RewrittenValues(html, table, Route(id));
    assert !Refers(html, id);
    var e :| e in table && Route(id) == UrlRewriter.EscapeAttribute(e.1);
    var k :| 0 <= k < |stored| && table[k] == e;
    RouteIsUnescaped(stored[k].id);
    RouteInjective(id, stored[k].id);
    EveryStoredIsLinked(stored, k);
  }

  // Writing an article whose new content is linked, or keeps linked content, keeps the invariant.
  lemma UpsertKeepsLinked(db: Db, key: Key, incoming: Article)
    requires forall other :: other != key ==> LinkedAt(db, other)
    requires incoming.html != [] ==> forall id :: Refers(incoming.html, id) ==> id in LinksAt(db, key).Values
    requires incoming.html == [] ==> LinkedAt(db, key) && IsFresh("")
    requires key in db.articles ==> incoming.version >= db.articles[key].version
    ensures Linked(Upsert(db, key, incoming).db)
  {
    hide Refers, LinksAt;
    var after := Upsert(db, key, incoming).db;
    assert after.links == db.links;
    LinksUnchanged(db, after);
    forall other
      ensures LinkedAt(after, other)
    {
      if other != key {
        assert LinkedAt(db, other);
      }
    }
  }

  lemma LinksUnchanged(a: Db, b: Db)
    requires a.links == b.links
    ensures forall key :: LinksAt(a, key) == LinksAt(b, key)
  {
  }

  lemma EmptyIsFresh()
    ensures IsFresh("")
  {
    assert UrlRewriter.Find("") == 0;
    assert UrlRewriter.ScanValues("") == [];
  }
}
