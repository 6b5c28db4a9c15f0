/** Budgeted fetching of an article's images: byte, count and time budgets shared by two nested loops. */
module AssetFetch {
  import opened Options

  type Byte = b: nat | b < 0x100
  type U64 = n: nat | n < 0x1_0000_0000_0000_0000
  type Url = string

  function SatAdd(a: U64, b: nat): U64 {
    if a + b < 0x1_0000_0000_0000_0000 then a + b else 0xFFFF_FFFF_FFFF_FFFF
  }

  function SatSub(a: nat, b: nat): nat {
    if a < b then 0 else a - b
  }

  function Min(a: nat, b: nat): nat {
    if a < b then a else b
  }

  datatype Policy = Policy(maxCount: nat, maxFetchBytes: U64, maxAssetSize: U64, maxFetchTime: nat)

  // The outbound checks: which URLs may be requested, which carry a provider signature,
  // and which bodies start as their media type demands.
  datatype Checks = Checks(safe: Url -> bool, signed: Url -> bool, matches: (string, seq<Byte>) -> bool)

  // ---- The network and the clock, as scripts

  datatype ChunkEvent = Chunk(data: seq<Byte>) | BodyFailed | BodyTimedOut

  // The body ends after its events.
  datatype Response = Response(success: bool, mediaType: Option<string>, contentLength: Option<U64>,
                               url: Url, body: seq<ChunkEvent>)

  datatype Reply = Responded(response: Response) | SendFailed | SendTimedOut

  // `clock(r)` is the time elapsed since the start at the r-th reading; `replies[i]` answers a request for URL i.
  datatype World = World(clock: nat -> nat, replies: nat -> Reply)

  ghost predicate Monotone(w: World) {
    forall i: nat, j: nat :: i <= j ==> w.clock(i) <= w.clock(j)
  }

  // `remaining_fetch_time` at reading r has a value.
  predicate InTime(p: Policy, w: World, r: nat) {
    w.clock(r) <= p.maxFetchTime
  }

  datatype AssetInput = AssetInput(source: Url, final: Url, mediaType: string, bytes: seq<Byte>, occurrence: nat)

  // ---- One body

  // The loop state: bytes gathered from this body, the aggregate counter, the clock readings made
  // so far, and the sizes of all chunks that have ever arrived.
  datatype Reading = Reading(got: seq<Byte>, fetched: U64, r: nat, chunks: seq<nat>)

  datatype BodyRead = BodyRead(bytes: Option<seq<Byte>>, fetched: U64, r: nat, chunks: seq<nat>)

  // Reading the rest of a body.
  function ReadRest(p: Policy, w: World, body: seq<ChunkEvent>, limit: nat, s: Reading): BodyRead
    decreases |body|
  {
    if !InTime(p, w, s.r) then BodyRead(None, s.fetched, s.r + 1, s.chunks)
    else if body == [] then
      BodyRead(if InTime(p, w, s.r + 1) && s.got != [] then Some(s.got) else None, s.fetched, s.r + 2, s.chunks)
    else match body[0]
      case BodyFailed => BodyRead(None, s.fetched, s.r + 1, s.chunks)
      case BodyTimedOut => BodyRead(None, s.fetched, s.r + 1, s.chunks)
      case Chunk(data) =>
        var arrived := s.chunks + [|data|];
        if !InTime(p, w, s.r + 1) then BodyRead(None, s.fetched, s.r + 2, arrived)
        else if |data| > SatSub(limit, |s.got|) then BodyRead(None, SatAdd(s.fetched, |data|), s.r + 2, arrived)
        else ReadRest(p, w, body[1..], limit, Reading(s.got + data, SatAdd(s.fetched, |data|), s.r + 2, arrived))
  }

  // The chunk loop. `fetched0` is the caller's aggregate counter.
  method ReadBody(p: Policy, w: World, body: seq<ChunkEvent>, limit: nat, fetched0: U64, r0: nat, ghost chunks0: seq<nat>)
    returns (bytes: Option<seq<Byte>>, fetched: U64, r: nat, ghost chunks: seq<nat>)
    ensures var b := ReadRest(p, w, body, limit, Reading([], fetched0, r0, chunks0));
      bytes == b.bytes && fetched == b.fetched && r == b.r
    ensures chunks == ReadRest(p, w, body, limit, Reading([], fetched0, r0, chunks0)).chunks
  {
    var got, i := [], 0;
    fetched, r, chunks := fetched0, r0, chunks0;
    ghost var whole := ReadRest(p, w, body, limit, Reading([], fetched0, r0, chunks0));
    assert body[0..] == body;
    while true
      invariant 0 <= i <= |body|
      invariant whole == ReadRest(p, w, body[i..], limit, Reading(got, fetched, r, chunks))
      decreases |body| - i
    {
      if !InTime(p, w, r) {
        return None, fetched, r + 1, chunks;
      }
      if i < |body| && !body[i].Chunk? {
        return None, fetched, r + 1, chunks;
      }
      if i < |body| {
        chunks := chunks + [|body[i].data|];
      }
      if !InTime(p, w, r + 1) {
        return None, fetched, r + 2, chunks;
      }
      if i == |body| {
        break;
      }
      var data := body[i].data;
      if |data| > SatSub(limit, |got|) {
        return None, SatAdd(fetched, |data|), r + 2, chunks;
      }
      got := got + data;
      fetched := SatAdd(fetched, |data|);
      assert body[i..][1..] == body[i + 1..];
      i, r := i + 1, r + 2;
    }
    r := r + 2;
    bytes := if got == [] then None else Some(got);
  }

  function Sum(ns: seq<nat>): nat {
    if ns == [] then 0 else Sum(ns[..|ns| - 1]) + ns[|ns| - 1]
  }

  // The total without the most recent chunk.
  function BeforeLast(ns: seq<nat>): (b: nat)
    ensures b <= Sum(ns)
  {
    if ns == [] then 0 else Sum(ns[..|ns| - 1])
  }

  lemma SumPush(ns: seq<nat>, n: nat)
    ensures Sum(ns + [n]) == Sum(ns) + n && BeforeLast(ns + [n]) == Sum(ns)
  {
    assert (ns + [n])[..|ns|] == ns;
  }

  function Content(body: seq<ChunkEvent>): seq<Byte> {
    if body == [] then [] else (if body[0].Chunk? then body[0].data else []) + Content(body[1..])
  }

  ghost predicate Complete(body: seq<ChunkEvent>) {
    forall i :: 0 <= i < |body| ==> body[i].Chunk?
  }

  lemma OneChunk(body: seq<ChunkEvent>, got: seq<Byte>)
    requires body != [] && body[0].Chunk?
    ensures got + body[0].data + Content(body[1..]) == got + Content(body)
    ensures Complete(body) <==> Complete(body[1..])
  {
    OneEvent(body);
    var data, rest := body[0].data, Content(body[1..]);
    assert Content(body) == data + rest;
    hide Content, Complete;
    assert got + data + rest == got + (data + rest);
  }

  lemma OneEvent(body: seq<ChunkEvent>)
    requires body != []
    ensures Complete(body) <==> body[0].Chunk? && Complete(body[1..])
  {
    var rest := body[1..];
    assert forall i :: 0 < i < |body| ==> body[i] == rest[i - 1];
    if body[0].Chunk? && Complete(rest) {
      forall i | 0 <= i < |body|
        ensures body[i].Chunk?
      {
        assert i > 0 ==> rest[i - 1].Chunk?;
      }
    }
  }

  // No later reading is in time.
  ghost predicate TimeOver(p: Policy, w: World, r: nat) {
    forall k: nat :: k >= r ==> !InTime(p, w, k)
  }

  lemma LateForever(p: Policy, w: World, r: nat, s: nat)
    requires Monotone(w) && !InTime(p, w, r) && r <= s
    ensures TimeOver(p, w, s)
  {
  }

  // Every chunk that arrived has been counted, and only the last can have passed the budget;
  // otherwise nothing can be requested any more.
  ghost predicate Accounted(p: Policy, w: World, fetched: U64, r: nat, chunks: seq<nat>) {
    && BeforeLast(chunks) <= p.maxFetchBytes && fetched <= Sum(chunks)
    && (fetched == Sum(chunks) || fetched >= p.maxFetchBytes || TimeOver(p, w, r))
  }

  /**
   * Reading one body within the remaining budget keeps the accounts; an accepted body is
   * nonempty, within its limit and counted exactly.
   */
  lemma {:induction false} BodyAccounting(p: Policy, w: World, body: seq<ChunkEvent>, limit: nat, s: Reading)
    requires Monotone(w) && |s.got| <= limit && s.fetched + limit - |s.got| <= p.maxFetchBytes
    requires s.fetched == Sum(s.chunks)
    ensures var b := ReadRest(p, w, body, limit, s);
      && s.r <= b.r && Accounted(p, w, b.fetched, b.r, b.chunks)
      && (b.bytes.Some? ==> 0 < |b.bytes.value| <= limit && b.fetched == Sum(b.chunks)
                            && b.fetched + |s.got| == s.fetched + |b.bytes.value|)
    decreases |body|
  {
    hide Monotone, TimeOver, Sum, BeforeLast;
    if !InTime(p, w, s.r) {
      LateForever(p, w, s.r, s.r + 1);
    } else if body != [] && body[0].Chunk? {
      var data := body[0].data;
      SumPush(s.chunks, |data|);
      if !InTime(p, w, s.r + 1) {
        LateForever(p, w, s.r + 1, s.r + 2);
      } else if |data| <= limit - |s.got| {
        var next := Reading(s.got + data, s.fetched + |data|, s.r + 2, s.chunks + [|data|]);
        BodyAccounting(p, w, body[1..], limit, next);
      }
    }
  }

  /**
   * A body is accepted exactly when every event is a chunk, the content is nonempty and within the
   * limit, and the last reading is still in time; what is accepted is the whole content.
   */
  lemma {:induction false} AcceptedExactly(p: Policy, w: World, body: seq<ChunkEvent>, limit: nat, s: Reading)
    requires Monotone(w) && |s.got| <= limit
    ensures var b := ReadRest(p, w, body, limit, s);
      && (b.bytes.Some? <==> && Complete(body) && 0 < |s.got + Content(body)| <= limit
                             && w.clock(s.r + 2 * |body| + 1) <= p.maxFetchTime)
      && (b.bytes.Some? ==> b.bytes.value == s.got + Content(body))
    decreases |body|
  {
    if body != [] && body[0].Chunk? {
      var data := body[0].data;
      OneChunk(body, s.got);
      hide Content, Complete;
      if InTime(p, w, s.r) && InTime(p, w, s.r + 1) && |data| <= limit - |s.got| {
        AcceptedExactly(p, w, body[1..], limit,
                        Reading(s.got + data, SatAdd(s.fetched, |data|), s.r + 2, s.chunks + [|data|]));
      }
    }
  }

  // ---- All images of one article

  // A request as it was issued: the counter and the bytes received so far, and the time.
  datatype Request = Request(occurrence: nat, url: Url, fetched: U64, received: nat, time: nat)

  datatype FetchState = FetchState(fetched: U64, r: nat, assets: seq<AssetInput>, chunks: seq<nat>, requests: seq<Request>)

  const START := FetchState(0, 0, [], [], [])

  datatype Attempt = Continue(state: FetchState) | Stop(state: FetchState)

  // Whether the head of a response lets its body be read.
  predicate Readable(c: Checks, response: Response, limit: nat) {
    && response.success && response.mediaType.Some?
    && (response.contentLength.Some? ==> response.contentLength.value <= limit)
    && c.safe(response.url) && !c.signed(response.url)
  }

  function AfterRequest(p: Policy, c: Checks, w: World, url: Url, i: nat, s: FetchState): Attempt {
    match w.replies(i)
    case SendFailed => Continue(s)
    case SendTimedOut => Stop(s)
    case Responded(response) =>
      var limit := Min(p.maxAssetSize, SatSub(p.maxFetchBytes, s.fetched));
      if !Readable(c, response, limit) then Continue(s)
      else
        var b := ReadRest(p, w, response.body, limit, Reading([], s.fetched, s.r, s.chunks));
        var read := s.(fetched := b.fetched, r := b.r, chunks := b.chunks);
        if b.bytes.None? || !c.matches(response.mediaType.value, b.bytes.value) then Continue(read)
        else
          var asset := AssetInput(url, response.url, response.mediaType.value, b.bytes.value, i);
          Continue(read.(assets := s.assets + [asset]))
  }

  function AttemptUrl(p: Policy, c: Checks, w: World, url: Url, i: nat, s: FetchState): Attempt {
    if i >= p.maxCount then Stop(s)
    else if !InTime(p, w, s.r) then Stop(s.(r := s.r + 1))
    else if SatSub(p.maxFetchBytes, s.fetched) == 0 then Stop(s.(r := s.r + 1))
    else if !c.safe(url) || c.signed(url) then Continue(s.(r := s.r + 1))
    else
      var request := Request(i, url, s.fetched, Sum(s.chunks), w.clock(s.r));
      AfterRequest(p, c, w, url, i, s.(r := s.r + 1, requests := s.requests + [request]))
  }

  // The images from URL i on.
  function FetchFrom(p: Policy, c: Checks, w: World, urls: seq<Url>, i: nat, s: FetchState): FetchState
    requires i <= |urls|
    decreases |urls| - i
  {
    if i == |urls| then s
    else match AttemptUrl(p, c, w, urls[i], i, s)
      case Stop(done) => done
      case Continue(next) => FetchFrom(p, c, w, urls, i + 1, next)
  }

  // The URL loop.
  method FetchAssets(p: Policy, c: Checks, w: World, urls: seq<Url>)
    returns (assets: seq<AssetInput>, fetched: U64, ghost end: FetchState)
    ensures end == FetchFrom(p, c, w, urls, 0, START)
    ensures var done := FetchFrom(p, c, w, urls, 0, START);
      assets == done.assets && fetched == done.fetched
  {
    hide ReadRest, Sum, InTime;
    assets, fetched := [], 0;
    var r := 0;
    ghost var chunks: seq<nat>, requests: seq<Request> := [], [];
    var i := 0;
    while i < |urls|
      invariant 0 <= i <= |urls|
      invariant FetchFrom(p, c, w, urls, 0, START)
             == FetchFrom(p, c, w, urls, i, FetchState(fetched, r, assets, chunks, requests))
    {
      var url := urls[i];
      if i >= p.maxCount {
        break;
      }
      var inTime := InTime(p, w, r);
      r := r + 1;
      if !inTime {
        break;
      }
      var remaining := SatSub(p.maxFetchBytes, fetched);
      if remaining == 0 {
        break;
      }
      i := i + 1;
      if !c.safe(url) || c.signed(url) {
        continue;
      }
      requests := requests + [Request(i - 1, url, fetched, Sum(chunks), w.clock(r - 1))];
      var reply := w.replies(i - 1);
      if reply.SendTimedOut? {
        i := i - 1;
        break;
      }
      if reply.SendFailed? || !reply.response.success || reply.response.mediaType.None? {
        continue;
      }
      var response := reply.response;
      var limit := Min(p.maxAssetSize, remaining);
      if response.contentLength.Some? && response.contentLength.value > limit {
        continue;
      }
      if !c.safe(response.url) || c.signed(response.url) {
        continue;
      }
      var bytes;
      bytes, fetched, r, chunks := ReadBody(p, w, response.body, limit, fetched, r, chunks);
      if bytes.None? || !c.matches(response.mediaType.value, bytes.value) {
        continue;
      }
      assets := assets + [AssetInput(url, response.url, response.mediaType.value, bytes.value, i - 1)];
    }
    end := FetchState(fetched, r, assets, chunks, requests);
  }

  function AssetBytes(assets: seq<AssetInput>): nat {
    if assets == [] then 0 else AssetBytes(assets[..|assets| - 1]) + |assets[|assets| - 1].bytes|
  }

  // A request was issued with exact accounts, inside every budget, to an allowed URL of the list.
  ghost predicate WithinBudget(p: Policy, c: Checks, urls: seq<Url>, q: Request) {
    && q.fetched == q.received && q.fetched < p.maxFetchBytes && q.time <= p.maxFetchTime
    && q.occurrence < p.maxCount && q.occurrence < |urls| && q.url == urls[q.occurrence]
    && c.safe(q.url) && !c.signed(q.url)
  }

  // An asset is within its own limit and comes from its own, accepted URL.
  ghost predicate Acceptable(p: Policy, c: Checks, urls: seq<Url>, a: AssetInput) {
    && 0 < |a.bytes| <= p.maxAssetSize && c.matches(a.mediaType, a.bytes)
    && a.occurrence < p.maxCount && a.occurrence < |urls| && a.source == urls[a.occurrence]
    && c.safe(a.source) && !c.signed(a.source) && c.safe(a.final) && !c.signed(a.final)
  }

  ghost predicate Increasing(assets: seq<AssetInput>, bound: nat) {
    && (forall j, k :: 0 <= j < k < |assets| ==> assets[j].occurrence < assets[k].occurrence)
    && (forall j :: 0 <= j < |assets| ==> assets[j].occurrence < bound)
  }

  ghost predicate Good(p: Policy, c: Checks, w: World, urls: seq<Url>, i: nat, s: FetchState) {
    && Accounted(p, w, s.fetched, s.r, s.chunks)
    && (forall q :: q in s.requests ==> WithinBudget(p, c, urls, q))
    && (forall a :: a in s.assets ==> Acceptable(p, c, urls, a))
    && Increasing(s.assets, i)
    && AssetBytes(s.assets) <= s.fetched && AssetBytes(s.assets) <= p.maxFetchBytes
  }

  lemma PushAsset(p: Policy, c: Checks, urls: seq<Url>, assets: seq<AssetInput>, a: AssetInput, i: nat)
    requires Increasing(assets, i) && a.occurrence == i
    ensures Increasing(assets + [a], i + 1)
    ensures AssetBytes(assets + [a]) == AssetBytes(assets) + |a.bytes|
  {
    assert (assets + [a])[..|assets|] == assets;
  }

  lemma Later(assets: seq<AssetInput>, i: nat)
    requires Increasing(assets, i)
    ensures Increasing(assets, i + 1)
  {
  }

  lemma RequestKeepsGood(p: Policy, c: Checks, w: World, urls: seq<Url>, i: nat, s: FetchState)
    requires Monotone(w) && i < |urls| && i < p.maxCount && Good(p, c, w, urls, i, s)
    requires s.fetched == Sum(s.chunks) && s.fetched < p.maxFetchBytes && c.safe(urls[i]) && !c.signed(urls[i])
    ensures Good(p, c, w, urls, i + 1, AfterRequest(p, c, w, urls[i], i, s).state)
  {
    hide ReadRest, Accounted, Increasing, AssetBytes, Monotone, Sum;
    Later(s.assets, i);
    if w.replies(i).Responded? {
      var response := w.replies(i).response;
      var limit := Min(p.maxAssetSize, SatSub(p.maxFetchBytes, s.fetched));
      if Readable(c, response, limit) {
        var start := Reading([], s.fetched, s.r, s.chunks);
        BodyAccounting(p, w, response.body, limit, start);
        var b := ReadRest(p, w, response.body, limit, start);
        CountNeverFalls(p, w, response.body, limit, start);
        if b.bytes.Some? {
          PushAsset(p, c, urls, s.assets,
                    AssetInput(urls[i], response.url, response.mediaType.value, b.bytes.value, i), i);
        }
      }
    }
  }

  lemma {:induction false} CountNeverFalls(p: Policy, w: World, body: seq<ChunkEvent>, limit: nat, s: Reading)
    ensures s.fetched <= ReadRest(p, w, body, limit, s).fetched
    decreases |body|
  {
    if body != [] && body[0].Chunk? && InTime(p, w, s.r) && InTime(p, w, s.r + 1)
       && |body[0].data| <= SatSub(limit, |s.got|) {
      var data := body[0].data;
      CountNeverFalls(p, w, body[1..], limit,
                      Reading(s.got + data, SatAdd(s.fetched, |data|), s.r + 2, s.chunks + [|data|]));
    }
  }

  lemma AttemptKeepsGood(p: Policy, c: Checks, w: World, urls: seq<Url>, i: nat, s: FetchState)
    requires Monotone(w) && i < |urls| && Good(p, c, w, urls, i, s)
    ensures Good(p, c, w, urls, i + 1, AttemptUrl(p, c, w, urls[i], i, s).state)
  {
    Later(s.assets, i);
    var asked := s.(r := s.r + 1);
    if i < p.maxCount && InTime(p, w, s.r) && s.fetched < p.maxFetchBytes && c.safe(urls[i]) && !c.signed(urls[i]) {
      var request := Request(i, urls[i], s.fetched, Sum(s.chunks), w.clock(s.r));
      assert s.fetched == Sum(s.chunks);
      assert WithinBudget(p, c, urls, request);
      hide AfterRequest, Increasing, AssetBytes, Sum, Monotone, BeforeLast, Acceptable, WithinBudget;
      RequestKeepsGood(p, c, w, urls, i, asked.(requests := s.requests + [request]));
    }
  }

  lemma {:induction false} FetchKeepsGood(p: Policy, c: Checks, w: World, urls: seq<Url>, i: nat, s: FetchState)
    requires Monotone(w) && i <= |urls| && Good(p, c, w, urls, i, s)
    ensures Good(p, c, w, urls, |urls|, FetchFrom(p, c, w, urls, i, s))
    decreases |urls| - i
  {
    hide AttemptUrl, Good;
    if i < |urls| {
      AttemptKeepsGood(p, c, w, urls, i, s);
      var a := AttemptUrl(p, c, w, urls[i], i, s);
      if a.Continue? {
        FetchKeepsGood(p, c, w, urls, i + 1, a.state);
      } else {
        GoodIsWeaker(p, c, w, urls, i + 1, |urls|, a.state);
      }
    }
  }

  lemma GoodIsWeaker(p: Policy, c: Checks, w: World, urls: seq<Url>, i: nat, n: nat, s: FetchState)
    requires Good(p, c, w, urls, i, s) && i <= n
    ensures Good(p, c, w, urls, n, s)
  {
  }

  /**
   * Every fetch, whatever the network does: each request goes out with a counter equal to all bytes
   * received so far and below the budget; everything received but the last chunk fits the budget;
   * the assets are in URL order, each within its limit, together within the budget.
   */
  lemma FetchIsBounded(p: Policy, c: Checks, w: World, urls: seq<Url>)
    requires Monotone(w)
    ensures var end := FetchFrom(p, c, w, urls, 0, START);
      && (forall q :: q in end.requests ==> WithinBudget(p, c, urls, q))
      && BeforeLast(end.chunks) <= p.maxFetchBytes && end.fetched <= Sum(end.chunks)
      && (forall a :: a in end.assets ==> Acceptable(p, c, urls, a))
      && Increasing(end.assets, |urls|)
      && AssetBytes(end.assets) <= p.maxFetchBytes
  {
    FetchKeepsGood(p, c, w, urls, 0, START);
    hide FetchFrom;
  }

  // ---- Exactly the delivered images, while the budgets last

  // The URL may be requested at all.
  predicate Requestable(c: Checks, url: Url) {
    c.safe(url) && !c.signed(url)
  }

  // The reply to URL k delivers an acceptable image.
  ghost predicate Delivers(p: Policy, c: Checks, w: World, url: Url, k: nat) {
    && Requestable(c, url) && w.replies(k).Responded?
    && var response := w.replies(k).response;
    && response.success && response.mediaType.Some? && Requestable(c, response.url)
    && (response.contentLength.Some? ==> response.contentLength.value <= p.maxAssetSize)
    && Complete(response.body) && 0 < |Content(response.body)| <= p.maxAssetSize
    && c.matches(response.mediaType.value, Content(response.body))
  }

  // The image that URL k delivers, at its own position.
  ghost function Image(p: Policy, c: Checks, w: World, urls: seq<Url>, k: nat): AssetInput
    requires k < |urls| && Delivers(p, c, w, urls[k], k)
  {
    var response := w.replies(k).response;
    AssetInput(urls[k], response.url, response.mediaType.value, Content(response.body), k)
  }

  function Max(a: nat, b: nat): nat {
    if a < b then b else a
  }

  // The most that the reply to URL k takes from the byte budget: what it announces within the size limit, or what arrives.
  function Weight(p: Policy, w: World, k: nat): nat {
    match w.replies(k)
    case Responded(response) =>
      var announced := if response.contentLength.Some? then response.contentLength.value else 0;
      Max(|Content(response.body)|, if announced <= p.maxAssetSize then announced else 0)
    case _ => 0
  }

  function TotalWeight(p: Policy, w: World, i: nat, n: nat): nat
    requires i <= n
    decreases n - i
  {
    if i == n then 0 else Weight(p, w, i) + TotalWeight(p, w, i + 1, n)
  }

  // Time and bytes suffice for the URLs from i up to n, and none of their requests times out.
  ghost predicate Suffices(p: Policy, c: Checks, w: World, urls: seq<Url>, i: nat, n: nat, fetched: nat)
    requires i <= n <= |urls|
  {
    && (forall r: nat :: InTime(p, w, r))
    && fetched + TotalWeight(p, w, i, n) <= p.maxFetchBytes && n <= p.maxCount
    && forall k :: i <= k < n && Requestable(c, urls[k]) ==> !w.replies(k).SendTimedOut?
  }

  // At URL n the run is over: there is no such URL, the count is reached, or its request times out.
  predicate EndsAt(p: Policy, c: Checks, w: World, urls: seq<Url>, n: nat)
    requires n <= |urls|
  {
    n == |urls| || n == p.maxCount || (Requestable(c, urls[n]) && w.replies(n).SendTimedOut?)
  }

  // The assets of the URLs from i up to n: one for each that delivers, and nothing else.
  ghost predicate AreDelivered(p: Policy, c: Checks, w: World, urls: seq<Url>, i: nat, n: nat, assets: seq<AssetInput>)
    requires n <= |urls|
  {
    && Increasing(assets, n)
    && (forall a :: a in assets ==> i <= a.occurrence < n && Delivers(p, c, w, urls[a.occurrence], a.occurrence)
                                    && a == Image(p, c, w, urls, a.occurrence))
    && forall k :: i <= k < n && Delivers(p, c, w, urls[k], k) ==> Image(p, c, w, urls, k) in assets
  }

  lemma {:induction false} ArrivedIsContent(p: Policy, w: World, body: seq<ChunkEvent>, limit: nat, s: Reading)
    ensures ReadRest(p, w, body, limit, s).fetched <= s.fetched + |Content(body)|
    decreases |body|
  {
    if body != [] && body[0].Chunk? && InTime(p, w, s.r) && InTime(p, w, s.r + 1)
       && |body[0].data| <= SatSub(limit, |s.got|) {
      var data := body[0].data;
      ArrivedIsContent(p, w, body[1..], limit, Reading(s.got + data, SatAdd(s.fetched, |data|), s.r + 2, s.chunks + [|data|]));
    }
  }

  // A limit that the budget does not cut accepts exactly the body that delivers.
  lemma BodyDelivers(p: Policy, w: World, body: seq<ChunkEvent>, limit: nat, s: Reading)
    requires Monotone(w) && (forall r: nat :: InTime(p, w, r)) && s.got == []
    requires limit <= p.maxAssetSize && (limit == p.maxAssetSize || |Content(body)| <= limit)
    ensures var b := ReadRest(p, w, body, limit, s);
      && (b.bytes.Some? <==> Complete(body) && 0 < |Content(body)| <= p.maxAssetSize)
      && (b.bytes.Some? ==> b.bytes.value == Content(body))
      && b.fetched <= s.fetched + |Content(body)|
  {
    AcceptedExactly(p, w, body, limit, s);
    ArrivedIsContent(p, w, body, limit, s);
    assert InTime(p, w, s.r + 2 * |body| + 1);
    assert [] + Content(body) == Content(body);
    hide ReadRest, Complete, Content, Monotone;
  }

  // One URL: its image is added exactly if it delivers, whatever else it does.
  lemma OneUrl(p: Policy, c: Checks, w: World, urls: seq<Url>, i: nat, n: nat, s: FetchState)
    requires Monotone(w) && i < n <= |urls| && Suffices(p, c, w, urls, i, n, s.fetched)
    requires s.fetched < p.maxFetchBytes
    ensures var a := AttemptUrl(p, c, w, urls[i], i, s);
      && a.Continue? && Suffices(p, c, w, urls, i + 1, n, a.state.fetched)
      && a.state.assets == s.assets + if Delivers(p, c, w, urls[i], i) then [Image(p, c, w, urls, i)] else []
  {
    hide ReadRest, Complete, Content, Monotone, TotalWeight, Sum;
    assert TotalWeight(p, w, i, n) == Weight(p, w, i) + TotalWeight(p, w, i + 1, n) by { WeightUnfolds(p, w, i, n); }
    if Requestable(c, urls[i]) && w.replies(i).Responded? {
      var response := w.replies(i).response;
      var limit := Min(p.maxAssetSize, SatSub(p.maxFetchBytes, s.fetched));
      BodyDelivers(p, w, response.body, limit, Reading([], s.fetched, s.r + 1, s.chunks));
    }
  }

  lemma WeightUnfolds(p: Policy, w: World, i: nat, n: nat)
    requires i < n
    ensures TotalWeight(p, w, i, n) == Weight(p, w, i) + TotalWeight(p, w, i + 1, n)
  {
    hide Weight;
  }

  // With the bytes spent exactly, nothing that is left delivers.
  lemma {:induction false} NothingLeft(p: Policy, c: Checks, w: World, urls: seq<Url>, i: nat, n: nat)
    requires i <= n <= |urls| && TotalWeight(p, w, i, n) == 0
    ensures forall k :: i <= k < n ==> !Delivers(p, c, w, urls[k], k)
    decreases n - i
  {
    if i < n {
      NothingLeft(p, c, w, urls, i + 1, n);
      hide Complete, TotalWeight;
      WeightUnfolds(p, w, i, n);
    }
  }

  lemma Delivered0(p: Policy, c: Checks, w: World, urls: seq<Url>, i: nat, n: nat)
    requires i <= n <= |urls| && forall k :: i <= k < n ==> !Delivers(p, c, w, urls[k], k)
    ensures AreDelivered(p, c, w, urls, i, n, [])
  {
    hide Delivers;
  }

  lemma DeliveredMore(p: Policy, c: Checks, w: World, urls: seq<Url>, i: nat, n: nat, rest: seq<AssetInput>)
    requires i < n <= |urls| && AreDelivered(p, c, w, urls, i + 1, n, rest)
    ensures var own := if Delivers(p, c, w, urls[i], i) then [Image(p, c, w, urls, i)] else [];
      AreDelivered(p, c, w, urls, i, n, own + rest)
  {
    hide Delivers;
    var own := if Delivers(p, c, w, urls[i], i) then [Image(p, c, w, urls, i)] else [];
    var all := own + rest;
    forall j, k | 0 <= j < k < |all|
      ensures all[j].occurrence < all[k].occurrence
    {
      assert all[k] == rest[k - |own|] && rest[k - |own|] in rest;
      if j >= |own| {
        assert all[j] == rest[j - |own|];
      }
    }
  }

  /**
   * While time and bytes suffice and until the run ends, by the last URL, the count limit or a send timeout: the
   * assets are exactly the images of the URLs that deliver, each at its own position and in order, whatever the others do.
   */
  lemma {:induction false} ArchivesExactly(p: Policy, c: Checks, w: World, urls: seq<Url>, i: nat, n: nat, s: FetchState)
    returns (assets: seq<AssetInput>)
    requires Monotone(w) && i <= n <= |urls| && Suffices(p, c, w, urls, i, n, s.fetched) && EndsAt(p, c, w, urls, n)
    ensures FetchFrom(p, c, w, urls, i, s).assets == s.assets + assets && AreDelivered(p, c, w, urls, i, n, assets)
    decreases n - i
  {
    hide *;
    if i == n {
      assets := [];
      Delivered0(p, c, w, urls, i, n);
      EndedRun(p, c, w, urls, n, s);
    } else if s.fetched >= p.maxFetchBytes {
      assets := [];
      SpentRun(p, c, w, urls, i, n, s);
    } else {
      OneUrl(p, c, w, urls, i, n, s);
      FetchUnfolds(p, c, w, urls, i, s);
      var a := AttemptUrl(p, c, w, urls[i], i, s);
      var rest := ArchivesExactly(p, c, w, urls, i + 1, n, a.state);
      DeliveredMore(p, c, w, urls, i, n, rest);
      assets := (if Delivers(p, c, w, urls[i], i) then [Image(p, c, w, urls, i)] else []) + rest;
    }
  }

  lemma FetchUnfolds(p: Policy, c: Checks, w: World, urls: seq<Url>, i: nat, s: FetchState)
    requires i < |urls| && AttemptUrl(p, c, w, urls[i], i, s).Continue?
    ensures FetchFrom(p, c, w, urls, i, s) == FetchFrom(p, c, w, urls, i + 1, AttemptUrl(p, c, w, urls[i], i, s).state)
  {
    hide AttemptUrl;
  }

  lemma SpentRun(p: Policy, c: Checks, w: World, urls: seq<Url>, i: nat, n: nat, s: FetchState)
    requires i < n <= |urls| && Suffices(p, c, w, urls, i, n, s.fetched) && s.fetched >= p.maxFetchBytes
    ensures FetchFrom(p, c, w, urls, i, s).assets == s.assets && AreDelivered(p, c, w, urls, i, n, [])
  {
    hide Delivers, AreDelivered, Weight;
    NothingLeft(p, c, w, urls, i, n);
    Delivered0(p, c, w, urls, i, n);
    StopsIff(p, c, w, urls, i, s);
  }

  lemma EndedRun(p: Policy, c: Checks, w: World, urls: seq<Url>, n: nat, s: FetchState)
    requires n <= |urls| && EndsAt(p, c, w, urls, n)
    ensures FetchFrom(p, c, w, urls, n, s).assets == s.assets
  {
    if n < |urls| {
      StopsIff(p, c, w, urls, n, s);
    }
  }

  /** A whole article: with budgets that suffice, exactly what is delivered comes back. */
  lemma FetchReturnsTheDelivered(p: Policy, c: Checks, w: World, urls: seq<Url>, n: nat)
    requires Monotone(w) && n <= |urls| && Suffices(p, c, w, urls, 0, n, 0) && EndsAt(p, c, w, urls, n)
    ensures AreDelivered(p, c, w, urls, 0, n, FetchFrom(p, c, w, urls, 0, START).assets)
  {
    var assets := ArchivesExactly(p, c, w, urls, 0, n, START);
    assert [] + assets == assets;
    hide FetchFrom, AreDelivered;
  }

  /**
   * What ends a run before its last URL, exactly: the count limit, spent time, spent bytes, or a send timeout of a
   * request. Then nothing more is requested but the one that timed out, and nothing more is archived.
   */
  lemma StopsIff(p: Policy, c: Checks, w: World, urls: seq<Url>, i: nat, s: FetchState)
    requires i < |urls|
    ensures var stops := i >= p.maxCount || w.clock(s.r) > p.maxFetchTime || s.fetched >= p.maxFetchBytes
                         || (Requestable(c, urls[i]) && w.replies(i).SendTimedOut?);
      var end := FetchFrom(p, c, w, urls, i, s);
      && (AttemptUrl(p, c, w, urls[i], i, s).Stop? <==> stops)
      && (stops ==> end.assets == s.assets && end.fetched == s.fetched && end.chunks == s.chunks
                    && s.requests <= end.requests && |end.requests| <= |s.requests| + 1)
      && (i >= p.maxCount || w.clock(s.r) > p.maxFetchTime || s.fetched >= p.maxFetchBytes ==> end.requests == s.requests)
  {
    hide ReadRest;
  }

  // ---- The repair fetch reads one body with typed failures

  datatype RepairFailure = BudgetSpent | BodyUnreadable

  // Reading the rest of a body; the deadline is checked once before each event.
  function RepairRest(w: World, body: seq<ChunkEvent>, limit: U64, deadline: nat, got: seq<Byte>, r: nat)
    : Result<seq<Byte>, RepairFailure>
    decreases |body|
  {
    if w.clock(r) > deadline then Err(BudgetSpent)
    else if body == [] then (if got == [] then Err(BodyUnreadable) else Ok(got))
    else match body[0]
      case BodyFailed => Err(BodyUnreadable)
      case BodyTimedOut => Err(BudgetSpent)
      case Chunk(data) =>
        if |data| > SatSub(limit, |got|) then Err(BudgetSpent)
        else RepairRest(w, body[1..], limit, deadline, got + data, r + 1)
  }

  method ReadRepairBody(w: World, body: seq<ChunkEvent>, limit: U64, deadline: nat)
    returns (result: Result<seq<Byte>, RepairFailure>)
    ensures result == RepairRest(w, body, limit, deadline, [], 0)
  {
    var got, i := [], 0;
    assert body[0..] == body;
    while true
      invariant 0 <= i <= |body|
      invariant RepairRest(w, body, limit, deadline, [], 0) == RepairRest(w, body[i..], limit, deadline, got, i)
      decreases |body| - i
    {
      if w.clock(i) > deadline {
        return Err(BudgetSpent);
      }
      if i == |body| {
        break;
      }
      match body[i] {
        case BodyFailed => return Err(BodyUnreadable);
        case BodyTimedOut => return Err(BudgetSpent);
        case Chunk(data) =>
          if |data| > SatSub(limit, |got|) {
            return Err(BudgetSpent);
          }
          assert body[i..][1..] == body[i + 1..];
          got := got + data;
          i := i + 1;
      }
    }
    result := if got == [] then Err(BodyUnreadable) else Ok(got);
  }

  /**
   * A repair body is accepted exactly when it arrives whole, nonempty, within the limit and before the
   * deadline; an oversized or late one is a budget failure, never a body failure.
   */
  lemma {:induction false} RepairExactly(w: World, body: seq<ChunkEvent>, limit: U64, deadline: nat, got: seq<Byte>, r: nat)
    requires Monotone(w) && |got| <= limit
    ensures var out := RepairRest(w, body, limit, deadline, got, r);
      && (out.Ok? <==> Complete(body) && 0 < |got + Content(body)| <= limit && w.clock(r + |body|) <= deadline)
      && (out.Ok? ==> out.value == got + Content(body))
      && (Complete(body) && got + Content(body) != [] && !out.Ok? ==> out == Err(BudgetSpent))
    decreases |body|
  {
    if body != [] && body[0].Chunk? {
      var data := body[0].data;
      OneChunk(body, got);
      hide Content, Complete;
      if w.clock(r) <= deadline && |data| <= limit - |got| {
        RepairExactly(w, body[1..], limit, deadline, got + data, r + 1);
      }
    }
  }

  // Up to event n the body arrives in time and within the limit.
  ghost predicate ArrivesUpTo(w: World, body: seq<ChunkEvent>, limit: nat, deadline: nat, got: seq<Byte>, r: nat, n: nat) {
    n <= |body| && Complete(body[..n]) && |got + Content(body[..n])| <= limit && w.clock(r + n) <= deadline
  }

  // In time and within the limit, event n fails, or the body ends with nothing in it.
  ghost predicate BreaksAt(w: World, body: seq<ChunkEvent>, limit: nat, deadline: nat, got: seq<Byte>, r: nat, n: nat) {
    && ArrivesUpTo(w, body, limit, deadline, got, r, n)
    && if n == |body| then got + Content(body) == [] else body[n].BodyFailed?
  }

  /**
   * The failure kinds of a repair body, exactly: it is unreadable if the transfer fails, or ends with nothing, while
   * everything before it arrived in time and within the limit; every other failure is a spent budget.
   */
  lemma {:induction false} RepairFailsExactly(w: World, body: seq<ChunkEvent>, limit: U64, deadline: nat, got: seq<Byte>, r: nat)
    requires Monotone(w) && |got| <= limit
    ensures RepairRest(w, body, limit, deadline, got, r) == Err(BodyUnreadable)
       <==> exists n: nat :: BreaksAt(w, body, limit, deadline, got, r, n)
    decreases |body|
  {
    if w.clock(r) <= deadline && body != [] && body[0].Chunk? && |body[0].data| <= limit - |got| {
      var rest, more, later := body[1..], got + body[0].data, r + 1;
      RepairFailsExactly(w, rest, limit, deadline, more, later);
      assert !BreaksAt(w, body, limit, deadline, got, r, 0);
      hide BreaksAt;
      if n: nat :| BreaksAt(w, rest, limit, deadline, more, later, n) {
        BreaksShift(w, body, limit, deadline, got, r, n);
      }
      if n: nat :| BreaksAt(w, body, limit, deadline, got, r, n) {
        BreaksShift(w, body, limit, deadline, got, r, n - 1);
      }
    } else {
      BreaksNow(w, body, limit, deadline, got, r);
    }
  }

  lemma BreaksShift(w: World, body: seq<ChunkEvent>, limit: nat, deadline: nat, got: seq<Byte>, r: nat, n: nat)
    requires body != [] && body[0].Chunk?
    ensures BreaksAt(w, body[1..], limit, deadline, got + body[0].data, r + 1, n)
       <==> BreaksAt(w, body, limit, deadline, got, r, n + 1)
  {
    var data := body[0].data;
    if n + 1 <= |body| {
      var head, tail := body[..n + 1], body[1..][..n];
      assert head[1..] == tail;
      assert head == [body[0]] + tail;
      assert got + data + Content(tail) == got + Content(head);
      assert got + data + Content(body[1..]) == got + Content(body);
      hide Content;
      assert Complete(tail) <==> Complete(head);
    }
  }

  // Where reading stops at once.
  lemma BreaksNow(w: World, body: seq<ChunkEvent>, limit: nat, deadline: nat, got: seq<Byte>, r: nat)
    requires Monotone(w) && |got| <= limit
    requires w.clock(r) > deadline || body == [] || !body[0].Chunk? || |body[0].data| > limit - |got|
    ensures (exists n: nat :: BreaksAt(w, body, limit, deadline, got, r, n))
       <==> w.clock(r) <= deadline && ((body == [] && got == []) || (body != [] && body[0].BodyFailed?))
  {
    assert got + Content(body[..0]) == got && Complete(body[..0]);
    forall n: nat
      ensures BreaksAt(w, body, limit, deadline, got, r, n) ==> n == 0
    {
      ArrivesFirst(w, body, limit, deadline, got, r, n);
    }
    if w.clock(r) <= deadline && ((body == [] && got == []) || (body != [] && body[0].BodyFailed?)) {
      assert BreaksAt(w, body, limit, deadline, got, r, 0);
    }
  }

  lemma ArrivesFirst(w: World, body: seq<ChunkEvent>, limit: nat, deadline: nat, got: seq<Byte>, r: nat, n: nat)
    requires Monotone(w) && |got| <= limit
    ensures n > 0 && ArrivesUpTo(w, body, limit, deadline, got, r, n) ==>
              w.clock(r) <= deadline && body[0].Chunk? && |body[0].data| <= limit - |got|
  {
    if n > 0 && ArrivesUpTo(w, body, limit, deadline, got, r, n) {
      assert body[..n][0] == body[0];
      assert w.clock(r) <= w.clock(r + n);
      LongerContent(body, n);
    }
  }

  lemma LongerContent(body: seq<ChunkEvent>, n: nat)
    requires 0 < n <= |body| && body[0].Chunk?
    ensures |Content(body[..n])| >= |body[0].data|
  {
    assert body[..n][0] == body[0];
  }
}
