/** Validation of portable configuration bundles: a mutating loop against a declarative specification. */
module ConfigBundle {
  import opened Options
  import opened Text

  const CONFIG_BUNDLE_FORMAT := "werrss-config"
  const CONFIG_BUNDLE_VERSION := 1
  const MAX_BUNDLE_BYTES := 2 * 1024 * 1024
  const MAX_SECTION_RECORDS := 1_000
  // The largest number of whole seconds a duration of i64 milliseconds represents.
  const MAX_DURATION_SECONDS := 0x7FFF_FFFF_FFFF_FFFF / 1000

  // A UUID; zero is the nil UUID.
  type Uuid = nat
  const NIL: Uuid := 0

  datatype PortableSource = PortableSource(
    id: Uuid, bookId: string, displayName: string, articleUrl: Option<string>, accountId: Option<Uuid>,
    enabled: bool, syncIntervalSeconds: int, rssItemLimit: nat, priority: int, maxAttempts: nat)

  datatype PortableWeReadAccount = PortableWeReadAccount(accountId: Uuid, displayName: string, enabled: bool)

  datatype Bundle = Bundle(
    format: string, version: nat, exportedAt: int,
    sources: Option<seq<PortableSource>>, accounts: Option<seq<PortableWeReadAccount>>)

  datatype Section = SourcesSection | AccountsSection

  datatype Error =
    | UnsupportedFormat(format: string)
    | UnsupportedVersion(version: nat)
    | NoSectionsPresent
    | SectionTooLarge(section: Section, count: nat)
    | PayloadTooLarge(size: nat)
    | Json
    | NilSourceId
    | DuplicateSourceId(id: Uuid)
    | EmptyBookId
    | NonCanonicalBookId(bookId: string)
    | DuplicateBookId(bookId: string)
    | EmptySourceName
    | NilBinding
    | InvalidArticleUrl
    | InvalidSyncInterval
    | InvalidItemLimit
    | InvalidMaxAttempts
    | NilAccountId
    | DuplicateAccountId(id: Uuid)
    | EmptyAccountName

  /** The libraries the validator calls: the verified-URL parser and the JSON serializer. */
  datatype Libraries = Libraries(
    parseUrl: string -> Option<string>,
    toJson: Bundle -> seq<nat>,
    fromJson: seq<nat> -> Option<Bundle>)
  {
    // Parsing a URL the parser produced returns it unchanged.
    ghost predicate IdempotentUrls() {
      forall url :: parseUrl(url).Some? ==> parseUrl(parseUrl(url).value) == parseUrl(url)
    }

    // Every bundle survives serialization.
    ghost predicate JsonRoundTrips() {
      forall b :: fromJson(toJson(b)) == Some(b)
    }
  }

  // ---- Declarative specification

  ghost predicate Distinct<T>(keys: seq<T>) {
    forall i, j :: 0 <= i < j < |keys| ==> keys[i] != keys[j]
  }

  // The key stands at two positions.
  ghost predicate Repeats<T>(keys: seq<T>, key: T) {
    exists i, j :: 0 <= i < j < |keys| && keys[i] == key == keys[j]
  }

  ghost function SourceIds(s: seq<PortableSource>): (ids: seq<Uuid>)
    ensures |ids| == |s|
  {
    seq(|s|, i requires 0 <= i < |s| => s[i].id)
  }

  ghost function BookIds(s: seq<PortableSource>): (ids: seq<string>)
    ensures |ids| == |s|
  {
    seq(|s|, i requires 0 <= i < |s| => s[i].bookId)
  }

  ghost function AccountIds(s: seq<PortableWeReadAccount>): (ids: seq<Uuid>)
    ensures |ids| == |s|
  {
    seq(|s|, i requires 0 <= i < |s| => s[i].accountId)
  }

  ghost predicate SourceOk(lib: Libraries, s: PortableSource) {
    && s.id != NIL
    && s.bookId != [] && IsTrimmed(s.bookId)
    && !AllWhitespace(s.displayName)
    && s.accountId != Some(NIL)
    && (s.articleUrl.Some? ==> lib.parseUrl(s.articleUrl.value).Some?)
    && 0 < s.syncIntervalSeconds <= MAX_DURATION_SECONDS
    && s.rssItemLimit != 0
    && s.maxAttempts != 0
  }

  ghost predicate AccountOk(a: PortableWeReadAccount) {
    a.accountId != NIL && !AllWhitespace(a.displayName)
  }

  ghost predicate SourcesOk(lib: Libraries, s: seq<PortableSource>) {
    && (forall i :: 0 <= i < |s| ==> SourceOk(lib, s[i]))
    && Distinct(SourceIds(s)) && Distinct(BookIds(s))
  }

  ghost predicate AccountsOk(s: seq<PortableWeReadAccount>) {
    && (forall i :: 0 <= i < |s| ==> AccountOk(s[i]))
    && Distinct(AccountIds(s))
  }

  function CanonicalSource(lib: Libraries, s: PortableSource): PortableSource {
    if s.articleUrl.Some? && lib.parseUrl(s.articleUrl.value).Some?
    then s.(articleUrl := lib.parseUrl(s.articleUrl.value)) else s
  }

  function CanonicalSources(lib: Libraries, s: seq<PortableSource>): (c: seq<PortableSource>)
    ensures |c| == |s| && forall i :: 0 <= i < |s| ==> c[i] == CanonicalSource(lib, s[i])
  {
    seq(|s|, i requires 0 <= i < |s| => CanonicalSource(lib, s[i]))
  }

  // The bundle with its article URLs in canonical form and nothing else changed.
  function Canonical(lib: Libraries, b: Bundle): Bundle {
    match b.sources
    case None => b
    case Some(s) => b.(sources := Some(CanonicalSources(lib, s)))
  }

  // The imported source: the article URL as the parser writes it, and every other field as it was.
  ghost predicate DiffersInUrlOnly(lib: Libraries, s: PortableSource, c: PortableSource) {
    && c.(articleUrl := s.articleUrl) == s
    && (s.articleUrl.None? ==> c.articleUrl.None?)
    && (s.articleUrl.Some? ==> c.articleUrl == lib.parseUrl(s.articleUrl.value))
  }

  ghost predicate WithinSections(b: Bundle) {
    && (b.sources.Some? ==> |b.sources.value| <= MAX_SECTION_RECORDS)
    && (b.accounts.Some? ==> |b.accounts.value| <= MAX_SECTION_RECORDS)
  }

  /** The bundles an import accepts. */
  ghost predicate Importable(lib: Libraries, b: Bundle) {
    && b.format == CONFIG_BUNDLE_FORMAT
    && b.version == CONFIG_BUNDLE_VERSION
    && (b.sources.Some? || b.accounts.Some?)
    && WithinSections(b)
    && (b.sources.Some? ==> SourcesOk(lib, b.sources.value))
    && (b.accounts.Some? ==> AccountsOk(b.accounts.value))
    && |lib.toJson(Canonical(lib, b))| <= MAX_BUNDLE_BYTES
  }

  ghost predicate DiffersInUrlsOnly(lib: Libraries, b: Bundle, c: Bundle) {
    && c.(sources := b.sources) == b && (c.sources.Some? <==> b.sources.Some?)
    && (b.sources.Some? ==>
          && |c.sources.value| == |b.sources.value|
          && forall i :: 0 <= i < |b.sources.value| ==> DiffersInUrlOnly(lib, b.sources.value[i], c.sources.value[i]))
  }

  lemma ImportDiffersInUrlsOnly(lib: Libraries, b: Bundle)
    requires Importable(lib, b)
    ensures DiffersInUrlsOnly(lib, b, Canonical(lib, b))
  {
    if b.sources.Some? {
      forall i | 0 <= i < |b.sources.value|
        ensures DiffersInUrlOnly(lib, b.sources.value[i], Canonical(lib, b).sources.value[i])
      {
        assert SourceOk(lib, b.sources.value[i]);
      }
    }
  }

  // What an error says is true of the bundle.
  ghost predicate Justified(lib: Libraries, b: Bundle, e: Error) {
    match e
    case UnsupportedFormat(f) => b.format == f != CONFIG_BUNDLE_FORMAT
    case UnsupportedVersion(v) => b.version == v != CONFIG_BUNDLE_VERSION
    case NoSectionsPresent => b.sources.None? && b.accounts.None?
    case SectionTooLarge(SourcesSection, n) => b.sources.Some? && |b.sources.value| == n > MAX_SECTION_RECORDS
    case SectionTooLarge(AccountsSection, n) => b.accounts.Some? && |b.accounts.value| == n > MAX_SECTION_RECORDS
    case PayloadTooLarge(n) => |lib.toJson(Canonical(lib, b))| == n > MAX_BUNDLE_BYTES
    case Json => false
    case NilAccountId => b.accounts.Some? && exists a :: a in b.accounts.value && a.accountId == NIL
    case EmptyAccountName => b.accounts.Some? && exists a :: a in b.accounts.value && AllWhitespace(a.displayName)
    case DuplicateAccountId(id) => b.accounts.Some? && Repeats(AccountIds(b.accounts.value), id)
    case DuplicateSourceId(id) => b.sources.Some? && Repeats(SourceIds(b.sources.value), id)
    case DuplicateBookId(k) => b.sources.Some? && Repeats(BookIds(b.sources.value), k)
    case _ => b.sources.Some? && exists s :: s in b.sources.value && SourceFault(lib, s, e)
  }

  ghost predicate SourceFault(lib: Libraries, s: PortableSource, e: Error) {
    match e
    case NilSourceId => s.id == NIL
    case EmptyBookId => AllWhitespace(s.bookId)
    case NonCanonicalBookId(k) => s.bookId == k && !IsTrimmed(k)
    case EmptySourceName => AllWhitespace(s.displayName)
    case NilBinding => s.accountId == Some(NIL)
    case InvalidArticleUrl => s.articleUrl.Some? && lib.parseUrl(s.articleUrl.value).None?
    case InvalidSyncInterval => s.syncIntervalSeconds <= 0 || MAX_DURATION_SECONDS < s.syncIntervalSeconds
    case InvalidItemLimit => s.rssItemLimit == 0
    case InvalidMaxAttempts => s.maxAttempts == 0
    case _ => false
  }

  // ---- The validator

  function IsBlank(s: string): (b: bool)
    ensures b <==> AllWhitespace(s)
  {
    BlankIffAllWhitespace(s);
    Trim(s) == []
  }

  lemma BlankIffAllWhitespace(s: string)
    ensures Trim(s) == [] <==> AllWhitespace(s)
  {
    if AllWhitespace(s) {
      AllWhitespaceTrimsToNothing(s);
    } else {
      var a, b := TrimSplits(s);
      assert Trim(s) == [] ==> s == a + b && AllWhitespace(a + b);
    }
  }

  function TrimsToItself(s: string): (b: bool)
    ensures b <==> IsTrimmed(s)
  {
    TrimsToItselfIffTrimmed(s);
    s == Trim(s)
  }

  lemma TrimsToItselfIffTrimmed(s: string)
    ensures s == Trim(s) <==> IsTrimmed(s)
  {
    if IsTrimmed(s) {
      TrimOfTrimmed(s);
    }
    var a, b := TrimSplits(s);
  }

  // The checks of one source record, given the ids and book ids of the records before it.
  method CheckSource(lib: Libraries, s: PortableSource, seenIds: set<Uuid>, seenBookIds: set<string>)
    returns (r: Result<PortableSource, Error>)
    ensures r.Ok? <==> SourceOk(lib, s) && s.id !in seenIds && s.bookId !in seenBookIds
    ensures r.Ok? ==> r.value == CanonicalSource(lib, s)
    ensures r.Err? ==>
              || SourceFault(lib, s, r.error)
              || (r.error == DuplicateSourceId(s.id) && s.id in seenIds)
              || (r.error == DuplicateBookId(s.bookId) && s.bookId in seenBookIds)
  {
    var source := s;
    if source.id == NIL { return Err(NilSourceId); }
    if source.id in seenIds { return Err(DuplicateSourceId(source.id)); }
    if IsBlank(source.bookId) {
      assert source.bookId != [] ==> !IsTrimmed(source.bookId);
      return Err(EmptyBookId);
    }
    if !TrimsToItself(source.bookId) { return Err(NonCanonicalBookId(source.bookId)); }
    if source.bookId in seenBookIds { return Err(DuplicateBookId(source.bookId)); }
    assert source.bookId != [] by { assert AllWhitespace([]); }
    if IsBlank(source.displayName) { return Err(EmptySourceName); }
    if source.accountId == Some(NIL) { return Err(NilBinding); }
    if source.articleUrl.Some? {
      var canonical := lib.parseUrl(source.articleUrl.value);
      if canonical.None? { return Err(InvalidArticleUrl); }
      source := source.(articleUrl := canonical);
    }
    if source.syncIntervalSeconds <= 0 || MAX_DURATION_SECONDS < source.syncIntervalSeconds {
      return Err(InvalidSyncInterval);
    }
    if source.rssItemLimit == 0 { return Err(InvalidItemLimit); }
    if source.maxAttempts == 0 { return Err(InvalidMaxAttempts); }
    return Ok(source);
  }

  // The set of keys seen before position i.
  ghost predicate Seen<T(!new)>(keys: seq<T>, i: nat, seen: set<T>)
    requires i <= |keys|
  {
    forall key :: key in seen <==> key in keys[..i]
  }

  lemma SeeOneMore<T(!new)>(keys: seq<T>, i: nat, seen: set<T>)
    requires i < |keys| && Seen(keys, i, seen)
    ensures Seen(keys, i + 1, seen + {keys[i]})
    ensures keys[i] in seen ==> Repeats(keys, keys[i])
    ensures keys[i] !in seen && Distinct(keys[..i]) ==> Distinct(keys[..i + 1])
  {
    assert keys[..i + 1] == keys[..i] + [keys[i]];
    if keys[i] in seen {
      var j :| 0 <= j < i && keys[..i][j] == keys[i];
    }
  }

  lemma FaultIsNotOk(lib: Libraries, s: PortableSource, e: Error)
    requires SourceFault(lib, s, e)
    ensures !SourceOk(lib, s)
  {
  }

  // What a rejected record says about the whole section.
  lemma SourceRejected(lib: Libraries, b: Bundle, i: nat, e: Error)
    requires b.sources.Some? && i < |b.sources.value|
    requires var s := b.sources.value;
             || SourceFault(lib, s[i], e)
             || (e == DuplicateSourceId(s[i].id) && Repeats(SourceIds(s), s[i].id))
             || (e == DuplicateBookId(s[i].bookId) && Repeats(BookIds(s), s[i].bookId))
    ensures Justified(lib, b, e) && !SourcesOk(lib, b.sources.value)
  {
    var s := b.sources.value;
    if SourceFault(lib, s[i], e) {
      FaultIsNotOk(lib, s[i], e);
      assert s[i] in s;
    }
  }

  method CheckSources(lib: Libraries, b: Bundle) returns (r: Result<seq<PortableSource>, Error>)
    requires b.sources.Some?
    ensures r.Ok? ==> SourcesOk(lib, b.sources.value) && r.value == CanonicalSources(lib, b.sources.value)
    ensures r.Err? ==> Justified(lib, b, r.error) && !SourcesOk(lib, b.sources.value)
  {
    ghost var input := b.sources.value;
    ghost var ids, books := SourceIds(input), BookIds(input);
    var sources := b.sources.value;
    var seenIds: set<Uuid>, seenBookIds: set<string> := {}, {};
    for i := 0 to |sources|
      invariant |sources| == |input|
      invariant forall k :: 0 <= k < i ==> sources[k] == CanonicalSource(lib, input[k])
      invariant forall k :: i <= k < |sources| ==> sources[k] == input[k]
      invariant forall k :: 0 <= k < i ==> SourceOk(lib, input[k])
      invariant Seen(ids, i, seenIds) && Distinct(ids[..i])
      invariant Seen(books, i, seenBookIds) && Distinct(books[..i])
    {
      var checked := CheckSource(lib, sources[i], seenIds, seenBookIds);
      SeeOneMore(ids, i, seenIds);
      SeeOneMore(books, i, seenBookIds);
      if checked.Err? {
        SourceRejected(lib, b, i, checked.error);
        return Err(checked.error);
      }
      seenIds, seenBookIds := seenIds + {sources[i].id}, seenBookIds + {sources[i].bookId};
      sources := sources[i := checked.value];
    }
    assert sources == CanonicalSources(lib, input);
    assert ids[..|ids|] == ids && books[..|books|] == books;
    return Ok(sources);
  }

  method CheckAccounts(lib: Libraries, b: Bundle) returns (r: Result<(), Error>)
    requires b.accounts.Some?
    ensures r.Ok? ==> AccountsOk(b.accounts.value)
    ensures r.Err? ==> Justified(lib, b, r.error) && !AccountsOk(b.accounts.value)
  {
    var accounts := b.accounts.value;
    ghost var ids := AccountIds(accounts);
    var seenIds: set<Uuid> := {};
    for i := 0 to |accounts|
      invariant forall k :: 0 <= k < i ==> AccountOk(accounts[k])
      invariant Seen(ids, i, seenIds) && Distinct(ids[..i])
    {
      var account := accounts[i];
      assert account in accounts;
      SeeOneMore(ids, i, seenIds);
      if account.accountId == NIL { return Err(NilAccountId); }
      if account.accountId in seenIds { return Err(DuplicateAccountId(account.accountId)); }
      seenIds := seenIds + {account.accountId};
      if IsBlank(account.displayName) { return Err(EmptyAccountName); }
    }
    assert ids[..|ids|] == ids;
    return Ok(());
  }

  method SerializeLimited(lib: Libraries, b: Bundle) returns (r: Result<seq<nat>, Error>)
    ensures r.Ok? <==> WithinSections(b) && |lib.toJson(b)| <= MAX_BUNDLE_BYTES
    ensures r.Ok? ==> r.value == lib.toJson(b)
    ensures r.Err? && WithinSections(b) ==> r.error == PayloadTooLarge(|lib.toJson(b)|)
  {
    if b.sources.Some? && |b.sources.value| > MAX_SECTION_RECORDS {
      return Err(SectionTooLarge(SourcesSection, |b.sources.value|));
    }
    if b.accounts.Some? && |b.accounts.value| > MAX_SECTION_RECORDS {
      return Err(SectionTooLarge(AccountsSection, |b.accounts.value|));
    }
    var bytes := lib.toJson(b);
    if |bytes| > MAX_BUNDLE_BYTES { return Err(PayloadTooLarge(|bytes|)); }
    return Ok(bytes);
  }

  /** Validates a bundle: it succeeds exactly on the importable ones, and every error is true of the input. */
  method TryFrom(lib: Libraries, input: Bundle) returns (r: Result<Bundle, Error>)
    ensures r.Ok? <==> Importable(lib, input)
    ensures r.Ok? ==> r.value == Canonical(lib, input) && DiffersInUrlsOnly(lib, input, r.value)
    ensures r.Err? ==> Justified(lib, input, r.error)
  {
    hide DiffersInUrlsOnly;
    if Importable(lib, input) {
      ImportDiffersInUrlsOnly(lib, input);
    }
    var bundle := input;
    if bundle.format != CONFIG_BUNDLE_FORMAT { return Err(UnsupportedFormat(bundle.format)); }
    if bundle.version != CONFIG_BUNDLE_VERSION { return Err(UnsupportedVersion(bundle.version)); }
    if bundle.sources.None? && bundle.accounts.None? { return Err(NoSectionsPresent); }
    if bundle.sources.Some? {
      if |bundle.sources.value| > MAX_SECTION_RECORDS {
        return Err(SectionTooLarge(SourcesSection, |bundle.sources.value|));
      }
      var checked := CheckSources(lib, bundle);
      if checked.Err? { return Err(checked.error); }
      bundle := bundle.(sources := Some(checked.value));
    }
    if bundle.accounts.Some? {
      if |bundle.accounts.value| > MAX_SECTION_RECORDS {
        return Err(SectionTooLarge(AccountsSection, |bundle.accounts.value|));
      }
      var checked := CheckAccounts(lib, input);
      if checked.Err? { return Err(checked.error); }
    }
    assert bundle == Canonical(lib, input);
    var bytes := SerializeLimited(lib, bundle);
    if bytes.Err? { return Err(bytes.error); }
    return Ok(bundle);
  }

  method ParseLimited(lib: Libraries, bytes: seq<nat>) returns (r: Result<Bundle, Error>)
    ensures r.Ok? <==>
            && |bytes| <= MAX_BUNDLE_BYTES && lib.fromJson(bytes).Some?
            && Importable(lib, lib.fromJson(bytes).value)
    ensures r.Ok? ==> r.value == Canonical(lib, lib.fromJson(bytes).value)
  {
    if |bytes| > MAX_BUNDLE_BYTES { return Err(PayloadTooLarge(|bytes|)); }
    var parsed := lib.fromJson(bytes);
    if parsed.None? { return Err(Json); }
    r := TryFrom(lib, parsed.value);
  }

  // ---- Laws of validation

  lemma CanonicalSourcesAreOk(lib: Libraries, s: seq<PortableSource>)
    requires lib.IdempotentUrls() && SourcesOk(lib, s)
    ensures SourcesOk(lib, CanonicalSources(lib, s))
    ensures CanonicalSources(lib, CanonicalSources(lib, s)) == CanonicalSources(lib, s)
  {
    var c := CanonicalSources(lib, s);
    forall i | 0 <= i < |s| ensures SourceOk(lib, c[i]) && CanonicalSource(lib, c[i]) == c[i] {
      assert SourceOk(lib, s[i]);
    }
    assert CanonicalSources(lib, c) == c;
    assert SourceIds(c) == SourceIds(s) && BookIds(c) == BookIds(s);
  }

  // With an idempotent URL parser, a validated bundle is importable and already canonical.
  lemma ValidationIsIdempotent(lib: Libraries, b: Bundle)
    requires lib.IdempotentUrls() && Importable(lib, b)
    ensures Canonical(lib, Canonical(lib, b)) == Canonical(lib, b)
    ensures Importable(lib, Canonical(lib, b))
  {
    if b.sources.Some? {
      CanonicalSourcesAreOk(lib, b.sources.value);
    }
  }

  /** Export and import of a validated bundle: it serializes within the limit and parses back to itself. */
  method ExportThenImport(lib: Libraries, input: Bundle) returns (r: Result<Bundle, Error>)
    requires lib.IdempotentUrls() && lib.JsonRoundTrips()
    ensures Importable(lib, input) ==> r == Ok(Canonical(lib, input))
  {
    var validated := TryFrom(lib, input);
    if validated.Err? { return validated; }
    ValidationIsIdempotent(lib, input);
    var bytes := SerializeLimited(lib, validated.value);
    assert bytes.Ok?;
    r := ParseLimited(lib, bytes.value);
  }
}
