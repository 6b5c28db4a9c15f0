/** The session a QR login yields: cookie lookup, cookie append, and the completed cookie header. */
module QrSession {
  import opened Options
  import opened Text
  import opened CookieJar

  // ---- Case-sensitive lookup in a header

  // The non-empty value one piece of a header gives a name.
  function PieceValue(piece: string, name: string): Option<string> {
    match SplitOnce(Trim(piece), '=')
    case None => None
    case Some((key, value)) => if Trim(key) == name && Trim(value) != [] then Some(Trim(value)) else None
  }

  // The first value the pieces give a name.
  function PiecesValue(pieces: seq<string>, name: string): Option<string> {
    if pieces == [] then None
    else if PieceValue(pieces[0], name).Some? then PieceValue(pieces[0], name)
    else PiecesValue(pieces[1..], name)
  }

  function CookieValue(header: string, name: string): Option<string> {
    PiecesValue(Split(header, ';'), name)
  }

  // ---- Append

  datatype SessionError = InvalidResponse

  // A cookie name as the service's constants have it.
  ghost predicate PlainName(name: string) {
    name != [] && IsTrimmed(name) && '=' !in name && ';' !in name
  }

  predicate AppendableValue(value: string) {
    value != [] && !HasControl(value) && ';' !in value
  }

  function Appended(header: string, name: string, value: string): string {
    if header == [] then name + ['='] + value else header + [';'] + ([' '] + (name + ['='] + value))
  }

  method AppendCookie(header: string, name: string, value: string) returns (r: Result<string, SessionError>)
    ensures r.Ok? <==> AppendableValue(value)
    ensures r.Ok? ==> r.value == Appended(header, name, value)
  {
    if value == [] || HasControl(value) || ';' in value { return Err(InvalidResponse); }
    var grown := header;
    if grown != [] { grown := grown + "; "; }
    grown := grown + name;
    grown := grown + ['='];
    grown := grown + value;
    assert header != [] ==> grown == Appended(header, name, value);
    assert header == [] ==> grown == name + ['='] + value;
    return Ok(grown);
  }

  lemma OnePiece(piece: string, name: string)
    requires ';' !in piece
    ensures CookieValue(piece, name) == PieceValue(piece, name)
  {
    hide PieceValue;
    SplitSingle(piece, ';');
    assert PiecesValue([piece][1..], name) == None;
  }

  lemma PieceThenRest(piece: string, rest: string, name: string)
    requires ';' !in piece
    ensures CookieValue(piece + [';'] + rest, name) ==
            if PieceValue(piece, name).Some? then PieceValue(piece, name) else CookieValue(rest, name)
  {
    hide PieceValue, Split;
    SplitCons(piece, ';', rest);
    assert ([piece] + Split(rest, ';'))[1..] == Split(rest, ';');
  }

  // A header up to its first semicolon, and the rest.
  lemma FirstPiece(header: string) returns (piece: string, rest: string)
    ensures ';' !in piece
    ensures ';' in header ==> header == piece + [';'] + rest && |rest| < |header|
    ensures ';' !in header ==> header == piece
  {
    var i := IndexOf(header, ';');
    piece := header[..i];
    rest := if i < |header| then header[i + 1..] else [];
  }

  // One more piece at the end: the pieces before it win.
  lemma {:induction false} LastPiece(header: string, piece: string, name: string)
    requires ';' !in piece
    ensures CookieValue(header + [';'] + piece, name) ==
            if CookieValue(header, name).Some? then CookieValue(header, name) else PieceValue(piece, name)
    decreases |header|
  {
    hide *;
    var first, rest := FirstPiece(header);
    OnePiece(piece, name);
    if ';' in header {
      LastPiece(rest, piece, name);
      assert header + [';'] + piece == first + [';'] + (rest + [';'] + piece);
      PieceThenRest(first, rest + [';'] + piece, name);
      PieceThenRest(first, rest, name);
    } else {
      PieceThenRest(header, piece, name);
      OnePiece(header, name);
    }
  }

  // What the appended piece gives each name.
  lemma AppendedPieceValue(lead: string, name: string, value: string, asked: string)
    requires PlainName(name) && AllWhitespace(lead)
    ensures PieceValue(lead + (name + ['='] + value), asked) ==
            if asked == name && Trim(value) != [] then Some(Trim(value)) else None
  {
    var pair := name + ['='] + value;
    var a, b := TrimSplits(value);
    assert !IsWhitespace('=');
    if Trim(value) == [] {
      var core := name + ['='];
      assert lead + pair == lead + core + (a + b);
      TrimUnique(lead, core, a + b);
      assert name + ['='] + [] == core;
      SplitOnceAt(name, '=', []);
    } else {
      var core := name + ['='] + (a + Trim(value));
      assert lead + pair == lead + core + b;
      assert core[|core| - 1] == Trim(value)[|Trim(value)| - 1];
      assert core[0] == name[0];
      TrimUnique(lead, core, b);
      SplitOnceAt(name, '=', a + Trim(value));
      TrimUnique(a, Trim(value), []);
      assert a + Trim(value) + [] == a + Trim(value);
    }
    TrimOfTrimmed(name);
  }

  /** Lookup after append, for every header: an earlier value wins, other names are unchanged, and an absent
      name is found with the trimmed value, unless trimming leaves nothing of it. */
  lemma LookupAfterAppend(header: string, name: string, value: string, asked: string)
    requires PlainName(name) && AppendableValue(value)
    ensures CookieValue(Appended(header, name, value), asked) ==
            if CookieValue(header, asked).Some? then CookieValue(header, asked)
            else if asked == name && Trim(value) != [] then Some(Trim(value)) else None
  {
    hide CookieValue, PieceValue;
    var pair := name + ['='] + value;
    if header == [] {
      OnePiece(pair, asked);
      AppendedPieceValue([], name, value, asked);
      assert [] + pair == pair;
      EmptyHeader(asked);
    } else {
      AppendedPieceValue([' '], name, value, asked);
      LastPiece(header, [' '] + pair, asked);
    }
  }

  lemma EmptyHeader(name: string)
    ensures CookieValue([], name) == None
  {
    OnePiece([], name);
  }

  // A value of whitespace alone is appended but never found: the law needs the trimmed value.
  lemma BlankValueIsAppendedButNotFound()
    ensures AppendableValue(" ") && CookieValue(Appended([], "wr_vid", " "), "wr_vid") == None
  {
    assert PlainName("wr_vid");
    AllWhitespaceTrimsToNothing(" ");
    LookupAfterAppend([], "wr_vid", " ", "wr_vid");
    EmptyHeader("wr_vid");
  }

  // A looked-up value is trimmed, not empty, and free of semicolons.
  lemma {:induction false} FoundValues(pieces: seq<string>, name: string)
    requires forall p :: p in pieces ==> ';' !in p
    ensures PiecesValue(pieces, name).Some? ==>
              var v := PiecesValue(pieces, name).value; v != [] && IsTrimmed(v) && ';' !in v
  {
    if pieces != [] {
      assert pieces[0] in pieces;
      var piece := pieces[0];
      TrimHasNo(piece, ';');
      var once := SplitOnce(Trim(piece), '=');
      if once.Some? {
        TrimHasNo(once.value.1, ';');
        var a, b := TrimSplits(once.value.1);
      }
      FoundValues(pieces[1..], name);
    }
  }

  lemma FoundValue(header: string, name: string)
    ensures CookieValue(header, name).Some? ==>
              var v := CookieValue(header, name).value; v != [] && IsTrimmed(v) && ';' !in v
  {
    SplitHasNoSeparator(header, ';');
    FoundValues(Split(header, ';'), name);
  }

  // ---- The upstream response

  // A response field: the string, the object of strings, or anything else.
  datatype Json = Text(text: string) | Fields(fields: seq<(string, Json)>) | Other

  type JsonObject = map<string, Json>

  function NonBlank(j: Json): Option<string> {
    match j
    case Text(t) => if Trim(t) == [] then None else Some(Trim(t))
    case _ => None
  }

  function FindKey(obj: JsonObject, keys: seq<string>): Option<string> {
    if keys == [] then None
    else if keys[0] in obj && NonBlank(obj[keys[0]]).Some? then NonBlank(obj[keys[0]])
    else FindKey(obj, keys[1..])
  }

  function FindString(objects: seq<JsonObject>, keys: seq<string>): Option<string> {
    if objects == [] then None
    else if FindKey(objects[0], keys).Some? then FindKey(objects[0], keys)
    else FindString(objects[1..], keys)
  }

  function TextFields(fields: seq<(string, Json)>): seq<string> {
    if fields == [] then []
    else
      var (name, value) := fields[0];
      (match value case Text(t) => [name + ['='] + t] case _ => []) + TextFields(fields[1..])
  }

  function ObjectCookies(obj: JsonObject): Option<string> {
    var own := if "cookie" in obj then NonBlank(obj["cookie"]) else None;
    if own.Some? then own
    else if "cookies" !in obj then None
    else if NonBlank(obj["cookies"]).Some? then NonBlank(obj["cookies"])
    else match obj["cookies"]
      case Fields(fields) => var header := Join(TextFields(fields)); if header == [] then None else Some(header)
      case _ => None
  }

  function FindCookieHeader(objects: seq<JsonObject>): Option<string> {
    if objects == [] then None
    else if ObjectCookies(objects[0]).Some? then ObjectCookies(objects[0])
    else FindCookieHeader(objects[1..])
  }

  // ---- What a search of the response objects means

  // The object has a nonblank text under the key.
  predicate HasText(obj: JsonObject, key: string) {
    key in obj && obj[key].Text? && Trim(obj[key].text) != []
  }

  predicate HasAnyText(obj: JsonObject, keys: seq<string>) {
    exists k :: 0 <= k < |keys| && HasText(obj, keys[k])
  }

  // What the object has under the first of the keys under which it has a text.
  predicate IsFirstIn(obj: JsonObject, keys: seq<string>, k: nat, text: string) {
    && k < |keys| && HasText(obj, keys[k]) && text == Trim(obj[keys[k]].text)
    && forall j :: 0 <= j < k ==> !HasText(obj, keys[j])
  }

  // What the first object has that has a text under any of the keys.
  predicate IsFirst(objects: seq<JsonObject>, keys: seq<string>, i: nat, k: nat, text: string) {
    && i < |objects| && IsFirstIn(objects[i], keys, k, text)
    && forall j :: 0 <= j < i ==> !HasAnyText(objects[j], keys)
  }

  // The trimmed first text, if there is any.
  ghost predicate IsFirstText(objects: seq<JsonObject>, keys: seq<string>, text: Option<string>) {
    match text
    case None => forall i :: 0 <= i < |objects| ==> !HasAnyText(objects[i], keys)
    case Some(t) => exists i: nat, k: nat :: IsFirst(objects, keys, i, k, t)
  }

  lemma {:induction false} FindKeyIs(obj: JsonObject, keys: seq<string>) returns (k: nat)
    ensures FindKey(obj, keys).None? <==> !HasAnyText(obj, keys)
    ensures FindKey(obj, keys).Some? ==> IsFirstIn(obj, keys, k, FindKey(obj, keys).value)
  {
    hide Trim;
    k := 0;
    if keys != [] {
      if HasText(obj, keys[0]) {
        assert HasAnyText(obj, keys);
      } else {
        var rest := keys[1..];
        var j := FindKeyIs(obj, rest);
        assert forall n :: 0 < n < |keys| ==> keys[n] == rest[n - 1];
        k := j + 1;
      }
    }
  }

  lemma {:induction false} FindStringIs(objects: seq<JsonObject>, keys: seq<string>)
    ensures IsFirstText(objects, keys, FindString(objects, keys))
  {
    hide Trim, HasText, HasAnyText, IsFirstIn, FindKey;
    if objects != [] {
      var k := FindKeyIs(objects[0], keys);
      if FindKey(objects[0], keys).Some? {
        assert IsFirst(objects, keys, 0, k, FindKey(objects[0], keys).value);
      } else {
        FindStringIs(objects[1..], keys);
        FirstInRest(objects, keys, FindString(objects[1..], keys));
      }
    }
  }

  lemma FirstInRest(objects: seq<JsonObject>, keys: seq<string>, text: Option<string>)
    requires objects != [] && !HasAnyText(objects[0], keys) && IsFirstText(objects[1..], keys, text)
    ensures IsFirstText(objects, keys, text)
  {
    var rest := objects[1..];
    assert forall i :: 0 < i < |objects| ==> objects[i] == rest[i - 1];
    hide HasAnyText, IsFirstIn;
    if text.Some? {
      var i: nat, k: nat :| IsFirst(rest, keys, i, k, text.value);
      assert IsFirst(objects, keys, i + 1, k, text.value);
    }
  }

  lemma FirstTextIsUnique(objects: seq<JsonObject>, keys: seq<string>, a: Option<string>, b: Option<string>)
    requires IsFirstText(objects, keys, a) && IsFirstText(objects, keys, b)
    ensures a == b
  {
    forall obj, k: nat, t | IsFirstIn(obj, keys, k, t)
      ensures HasAnyText(obj, keys)
    {
    }
    if a.Some? && b.Some? {
      var i: nat, k: nat :| IsFirst(objects, keys, i, k, a.value);
      var j: nat, n: nat :| IsFirst(objects, keys, j, n, b.value);
      assert i == j;
      FirstInIsUnique(objects[i], keys, k, n, a.value, b.value);
    }
    hide HasAnyText, IsFirstIn;
  }

  lemma FirstInIsUnique(obj: JsonObject, keys: seq<string>, k: nat, n: nat, a: string, b: string)
    requires IsFirstIn(obj, keys, k, a) && IsFirstIn(obj, keys, n, b)
    ensures a == b
  {
    hide Trim, HasText;
  }

  // A credential: the first text under its keys, else the value its cookie has in the merged header.
  ghost predicate IsCredential(objects: seq<JsonObject>, keys: seq<string>, merged: string, cookie: string, value: Option<string>) {
    || (value.Some? && IsFirstText(objects, keys, value))
    || (IsFirstText(objects, keys, None) && value == CookieValue(merged, cookie))
  }

  lemma CredentialIs(objects: seq<JsonObject>, keys: seq<string>, merged: string, cookie: string, value: Option<string>)
    ensures IsCredential(objects, keys, merged, cookie, value)
       <==> value == OrElse(FindString(objects, keys), CookieValue(merged, cookie))
  {
    hide IsFirstText, FindString, CookieValue;
    FindStringIs(objects, keys);
    var found := FindString(objects, keys);
    if IsFirstText(objects, keys, None) {
      FirstTextIsUnique(objects, keys, None, found);
    }
    if IsFirstText(objects, keys, value) {
      FirstTextIsUnique(objects, keys, value, found);
    }
  }

  lemma {:induction false} FoundKeyIsNonBlank(obj: JsonObject, keys: seq<string>)
    ensures FindKey(obj, keys).Some? ==>
              FindKey(obj, keys).value != [] && IsTrimmed(FindKey(obj, keys).value)
  {
    if keys != [] {
      if keys[0] in obj && obj[keys[0]].Text? {
        var a, b := TrimSplits(obj[keys[0]].text);
      }
      FoundKeyIsNonBlank(obj, keys[1..]);
    }
  }

  lemma {:induction false} FoundStringIsNonBlank(objects: seq<JsonObject>, keys: seq<string>)
    ensures FindString(objects, keys).Some? ==>
              FindString(objects, keys).value != [] && IsTrimmed(FindString(objects, keys).value)
  {
    if objects != [] {
      FoundKeyIsNonBlank(objects[0], keys);
      FoundStringIsNonBlank(objects[1..], keys);
    }
  }

  datatype Session = Session(accessToken: string, refreshToken: string, cookieHeader: string, expiresAt: int)

  function OrElse(a: Option<string>, b: Option<string>): (r: Option<string>)
    ensures r == a || r == b
  {
    if a.Some? then a else b
  }

  // The final check and trimming of an authenticated result.
  function NewSession(accessToken: string, refreshToken: string, cookieHeader: string, expiresAt: int)
    : (r: Result<Session, SessionError>)
    ensures r.Ok? ==> r.value == Session(Trim(accessToken), Trim(refreshToken), Trim(cookieHeader), expiresAt)
    ensures r.Ok? <==> 0 < expiresAt && !HasControl(cookieHeader)
                       && Trim(accessToken) != [] && Trim(refreshToken) != [] && Trim(cookieHeader) != []
  {
    if Trim(accessToken) == [] || Trim(refreshToken) == [] || Trim(cookieHeader) == [] || HasControl(cookieHeader)
       || expiresAt <= 0
    then Err(InvalidResponse)
    else Ok(Session(Trim(accessToken), Trim(refreshToken), Trim(cookieHeader), expiresAt))
  }

  // Adds a cookie under a name the header gives no value yet.
  method EnsureCookie(header: string, name: string, value: string) returns (r: Result<string, SessionError>)
    requires PlainName(name) && value != [] && IsTrimmed(value)
    ensures r.Ok? ==> CookieValue(r.value, name) == OrElse(CookieValue(header, name), Some(value))
    ensures r.Ok? ==> forall asked :: asked != name ==> CookieValue(r.value, asked) == CookieValue(header, asked)
    ensures r.Err? <==> CookieValue(header, name).None? && !AppendableValue(value)
    ensures r.Ok? && !HasControl(name) ==> (HasControl(r.value) <==> HasControl(header))
  {
    if CookieValue(header, name).Some? { return Ok(header); }
    r := AppendCookie(header, name, value);
    if r.Ok? {
      AppendedControl(header, name, value);
      hide HasControl;
      TrimOfTrimmed(value);
      forall asked | asked != name ensures CookieValue(r.value, asked) == CookieValue(header, asked) {
        LookupAfterAppend(header, name, value, asked);
      }
      LookupAfterAppend(header, name, value, name);
    }
  }

  lemma ControlConcat(a: string, b: string)
    ensures HasControl(a + b) <==> HasControl(a) || HasControl(b)
  {
    if i :| 0 <= i < |a| && IsControl(a[i]) {
      assert (a + b)[i] == a[i];
    }
    if i :| 0 <= i < |b| && IsControl(b[i]) {
      assert (a + b)[|a| + i] == b[i];
    }
  }

  lemma AppendedControl(header: string, name: string, value: string)
    requires AppendableValue(value)
    ensures !HasControl(name) ==> (HasControl(Appended(header, name, value)) <==> HasControl(header))
  {
    assert !HasControl([';']) && !HasControl([' ']) && !HasControl(['=']) && !HasControl([]);
    hide HasControl;
    ControlConcat(name, ['=']);
    ControlConcat(name + ['='], value);
    ControlConcat([' '], name + ['='] + value);
    ControlConcat(header, [';']);
    ControlConcat(header + [';'], [' '] + (name + ['='] + value));
  }

  lemma RequiredNamesArePlain()
    ensures PlainName("wr_vid") && PlainName("wr_skey") && PlainName("wr_rt")
    ensures !HasControl("wr_vid") && !HasControl("wr_skey") && !HasControl("wr_rt")
  {
  }

  // The header gives the required cookies their values and leaves every other name as it was.
  ghost predicate Completes(header: string, merged: string, vid: Option<string>, accessToken: string, refreshToken: string) {
    && CookieValue(header, "wr_vid").Some?
    && CookieValue(header, "wr_vid") == OrElse(CookieValue(merged, "wr_vid"), vid)
    && CookieValue(header, "wr_skey") == OrElse(CookieValue(merged, "wr_skey"), Some(accessToken))
    && CookieValue(header, "wr_rt") == OrElse(CookieValue(merged, "wr_rt"), Some(refreshToken))
    && forall asked :: asked != "wr_vid" && asked != "wr_skey" && asked != "wr_rt" ==>
                         CookieValue(header, asked) == CookieValue(merged, asked)
  }

  lemma CompletesIgnoresTrim(header: string, merged: string, vid: Option<string>, accessToken: string, refreshToken: string)
    requires Completes(header, merged, vid, accessToken, refreshToken)
    ensures Completes(Trim(header), merged, vid, accessToken, refreshToken)
  {
    hide CookieValue, Trim, OrElse;
    forall asked ensures CookieValue(Trim(header), asked) == CookieValue(header, asked) {
      LookupIgnoresTrim(header, asked);
    }
  }

  // Every required cookie is in the merged header or can be appended.
  predicate CanComplete(merged: string, vid: Option<string>, accessToken: string, refreshToken: string) {
    && (CookieValue(merged, "wr_vid").Some? || (vid.Some? && AppendableValue(vid.value)))
    && (CookieValue(merged, "wr_skey").Some? || AppendableValue(accessToken))
    && (CookieValue(merged, "wr_rt").Some? || AppendableValue(refreshToken))
  }

  // Adds the required cookies the merged header lacks.
  method CompleteHeader(merged: string, vid: Option<string>, accessToken: string, refreshToken: string)
    returns (r: Result<string, SessionError>)
    requires vid.Some? ==> vid.value != [] && IsTrimmed(vid.value)
    requires accessToken != [] && IsTrimmed(accessToken) && refreshToken != [] && IsTrimmed(refreshToken)
    ensures r.Ok? <==> CanComplete(merged, vid, accessToken, refreshToken)
    ensures r.Ok? ==> Completes(r.value, merged, vid, accessToken, refreshToken)
    ensures r.Ok? ==> (HasControl(r.value) <==> HasControl(merged))
  {
    RequiredNamesArePlain();
    hide CookieValue, AppendableValue, PlainName, IsTrimmed, HasControl;
    var header := merged;
    if CookieValue(header, "wr_vid").None? {
      if vid.None? { return Err(InvalidResponse); }
      var withVid := EnsureCookie(header, "wr_vid", vid.value);
      if withVid.Err? { return Err(InvalidResponse); }
      header := withVid.value;
    }
    var withKey := EnsureCookie(header, "wr_skey", accessToken);
    if withKey.Err? { return Err(InvalidResponse); }
    var withToken := EnsureCookie(withKey.value, "wr_rt", refreshToken);
    if withToken.Err? { return Err(InvalidResponse); }
    return withToken;
  }

  // The header merged from the response cookies and the cookies in the body.
  function MergedHeader(objects: seq<JsonObject>, responseCookies: Option<string>): string {
    HeaderText(Merged(Accepted(MergePieces(responseCookies, FindCookieHeader(objects)))))
  }

  function AccessToken(objects: seq<JsonObject>, merged: string): Option<string> {
    OrElse(FindString(objects, ["accessToken", "access_token"]), CookieValue(merged, "wr_skey"))
  }

  function RefreshToken(objects: seq<JsonObject>, merged: string): Option<string> {
    OrElse(FindString(objects, ["refreshToken", "refresh_token"]), CookieValue(merged, "wr_rt"))
  }

  function Vid(objects: seq<JsonObject>): Option<string> {
    FindString(objects, ["vid", "webLoginVid", "userVid"])
  }

  lemma TokensAreNonBlank(objects: seq<JsonObject>, merged: string)
    ensures AccessToken(objects, merged).Some? ==>
              AccessToken(objects, merged).value != [] && IsTrimmed(AccessToken(objects, merged).value)
    ensures RefreshToken(objects, merged).Some? ==>
              RefreshToken(objects, merged).value != [] && IsTrimmed(RefreshToken(objects, merged).value)
    ensures Vid(objects).Some? ==> Vid(objects).value != [] && IsTrimmed(Vid(objects).value)
  {
    hide FindString, CookieValue, IsTrimmed;
    FoundStringIsNonBlank(objects, ["accessToken", "access_token"]);
    FoundStringIsNonBlank(objects, ["refreshToken", "refresh_token"]);
    FoundStringIsNonBlank(objects, ["vid", "webLoginVid", "userVid"]);
    FoundValue(merged, "wr_skey");
    FoundValue(merged, "wr_rt");
  }

  // What a session needs: both credentials, the required cookies, a header without controls and an expiry.
  ghost predicate IsSession(objects: seq<JsonObject>, merged: string, expiresAt: int, a: string, t: string, v: Option<string>) {
    && IsCredential(objects, ["accessToken", "access_token"], merged, "wr_skey", Some(a))
    && IsCredential(objects, ["refreshToken", "refresh_token"], merged, "wr_rt", Some(t))
    && IsFirstText(objects, ["vid", "webLoginVid", "userVid"], v)
    && CanComplete(merged, v, a, t) && !HasControl(merged) && 0 < expiresAt
  }

  /**
   * Builds the authenticated session, exactly when the response has what it needs. Then the credentials are the
   * first texts under their keys or the values of their cookies, and the final header gives every required cookie
   * a nonempty value: the one already there, or the one found in the response body.
   */
  method ParseAuthenticatedSession(objects: seq<JsonObject>, responseCookies: Option<string>, expiresAt: int)
    returns (r: Result<Session, SessionError>)
    ensures r.Ok? <==> exists a, t, v :: IsSession(objects, MergedHeader(objects, responseCookies), expiresAt, a, t, v)
    ensures r.Ok? ==>
              var merged := MergedHeader(objects, responseCookies);
              && (exists v ::
                    && IsSession(objects, merged, expiresAt, r.value.accessToken, r.value.refreshToken, v)
                    && Completes(r.value.cookieHeader, merged, v, r.value.accessToken, r.value.refreshToken))
              && r.value.expiresAt == expiresAt
  {
    var header := MergeHeaders(objects, responseCookies);
    hide *;
    var accessToken, refreshToken, vid := AccessToken(objects, header), RefreshToken(objects, header), Vid(objects);
    SessionIs(objects, header, expiresAt);
    if accessToken.None? { return Err(InvalidResponse); }
    if refreshToken.None? { return Err(InvalidResponse); }
    TokensAreNonBlank(objects, header);
    var completed := CompleteHeader(header, vid, accessToken.value, refreshToken.value);
    if completed.Err? { return Err(InvalidResponse); }
    CompletesIgnoresTrim(completed.value, header, vid, accessToken.value, refreshToken.value);
    CompleteIsNotBlank(completed.value, header, vid, accessToken.value, refreshToken.value);
    TrimOfTrimmed(accessToken.value);
    TrimOfTrimmed(refreshToken.value);
    r := NewSession(accessToken.value, refreshToken.value, completed.value, expiresAt);
    if r.Ok? {
      assert IsSession(objects, header, expiresAt, accessToken.value, refreshToken.value, vid);
    }
  }

  // What makes a session is determined by the response.
  lemma SessionIs(objects: seq<JsonObject>, merged: string, expiresAt: int)
    ensures forall a, t, v :: IsSession(objects, merged, expiresAt, a, t, v) <==>
              && AccessToken(objects, merged) == Some(a) && RefreshToken(objects, merged) == Some(t) && Vid(objects) == v
              && CanComplete(merged, v, a, t) && !HasControl(merged) && 0 < expiresAt
  {
    hide IsCredential, IsFirstText, CanComplete, HasControl, FindString, CookieValue;
    var vids := ["vid", "webLoginVid", "userVid"];
    FindStringIs(objects, vids);
    forall a, t, v
      ensures IsCredential(objects, ["accessToken", "access_token"], merged, "wr_skey", Some(a)) <==> AccessToken(objects, merged) == Some(a)
      ensures IsCredential(objects, ["refreshToken", "refresh_token"], merged, "wr_rt", Some(t)) <==> RefreshToken(objects, merged) == Some(t)
      ensures IsFirstText(objects, vids, v) <==> Vid(objects) == v
    {
      CredentialIs(objects, ["accessToken", "access_token"], merged, "wr_skey", Some(a));
      CredentialIs(objects, ["refreshToken", "refresh_token"], merged, "wr_rt", Some(t));
      if IsFirstText(objects, vids, v) {
        FirstTextIsUnique(objects, vids, v, Vid(objects));
      }
    }
  }

  lemma CompleteIsNotBlank(header: string, merged: string, vid: Option<string>, accessToken: string, refreshToken: string)
    requires Completes(header, merged, vid, accessToken, refreshToken)
    ensures Trim(header) != []
  {
    hide CookieValue, Trim;
    LookupIgnoresTrim(header, "wr_vid");
    EmptyHeader("wr_vid");
  }

  // The cookie header an object gives: its `cookie` text, else its `cookies` text, else its `cookies` fields.
  predicate GivesHeader(obj: JsonObject, header: string) {
    if HasText(obj, "cookie") then header == Trim(obj["cookie"].text)
    else if HasText(obj, "cookies") then header == Trim(obj["cookies"].text)
    else "cookies" in obj && obj["cookies"].Fields? && header != [] && header == Join(TextFields(obj["cookies"].fields))
  }

  // What the first object gives that gives one.
  predicate IsFirstHeader(objects: seq<JsonObject>, i: nat, header: string) {
    i < |objects| && GivesHeader(objects[i], header) && forall j :: 0 <= j < i ==> ObjectCookies(objects[j]).None?
  }

  lemma ObjectGives(obj: JsonObject, header: string)
    ensures ObjectCookies(obj) == Some(header) <==> GivesHeader(obj, header)
  {
    hide Join, TextFields, Trim;
  }

  lemma {:induction false} FirstHeaderIsFound(objects: seq<JsonObject>) returns (i: nat)
    ensures FindCookieHeader(objects).Some? ==> IsFirstHeader(objects, i, FindCookieHeader(objects).value)
    ensures FindCookieHeader(objects).None? ==> forall j, header :: 0 <= j < |objects| ==> !GivesHeader(objects[j], header)
  {
    hide GivesHeader, ObjectCookies;
    i := 0;
    if objects != [] {
      forall header
        ensures ObjectCookies(objects[0]) == Some(header) <==> GivesHeader(objects[0], header)
      {
        ObjectGives(objects[0], header);
      }
      if ObjectCookies(objects[0]).None? {
        var rest := objects[1..];
        var k := FirstHeaderIsFound(rest);
        i := k + 1;
        assert forall j :: 0 < j < |objects| ==> objects[j] == rest[j - 1];
      }
    }
  }

  /** The fields of `cookies` are listed in order, each text as a pair and anything else not at all. */
  lemma {:induction false} FieldsAreListed(a: seq<(string, Json)>, b: seq<(string, Json)>)
    ensures TextFields(a + b) == TextFields(a) + TextFields(b)
  {
    if a == [] {
      assert a + b == b;
      assert TextFields(a) == [];
    } else {
      hide TextFields;
      FieldsAreListed(a[1..], b);
      FirstField(a);
      FirstField(a + b);
      assert (a + b)[1..] == a[1..] + b;
      Associate(if a[0].1.Text? then [a[0].0 + ['='] + a[0].1.text] else [], TextFields(a[1..]), TextFields(b));
    }
  }

  lemma Associate(x: seq<string>, y: seq<string>, z: seq<string>)
    ensures (x + y) + z == x + (y + z)
  {
  }

  lemma FirstField(fields: seq<(string, Json)>)
    requires fields != []
    ensures TextFields(fields)
         == (if fields[0].1.Text? then [fields[0].0 + ['='] + fields[0].1.text] else []) + TextFields(fields[1..])
  {
  }

  lemma OneFieldIsListed(name: string, value: Json)
    ensures TextFields([(name, value)]) == if value.Text? then [name + ['='] + value.text] else []
  {
    assert TextFields([(name, value)][1..]) == [];
  }

  /**
   * The merged header has the names of the response cookies and of the cookies in the body, and on a shared name the
   * body wins.
   */
  lemma BodyCookiesWin(objects: seq<JsonObject>, responseCookies: Option<string>)
    ensures var p, q := Accepted(PiecesOf(responseCookies)), Accepted(PiecesOf(FindCookieHeader(objects)));
      var jar := ParseHeader([], MergedHeader(objects, responseCookies));
      && (forall c :: c in jar ==> if WritesKey(q, Fold(c.name)) then IsLastWritten(q, c) else IsLastWritten(p, c))
      && (forall key :: WritesKey(p, key) || WritesKey(q, key) <==> WritesKey(jar, key))
  {
    MergedIsValid(responseCookies, FindCookieHeader(objects));
    hide Accepted, Merged, MergePieces, PiecesOf, ParseHeader, HeaderText, FindCookieHeader, IsLastWritten, WritesKey, Valid;
    HeaderRoundTrip(Merged(Accepted(MergePieces(responseCookies, FindCookieHeader(objects)))));
    SecondaryWins(responseCookies, FindCookieHeader(objects));
  }

  method MergeHeaders(objects: seq<JsonObject>, responseCookies: Option<string>) returns (header: string)
    ensures header == MergedHeader(objects, responseCookies)
  {
    hide Merged, Accepted, MergePieces, FindCookieHeader, ParseHeader, Valid;
    var merged := MergeCookieHeaders(responseCookies, FindCookieHeader(objects));
    header := if merged.Some? then merged.value else [];
  }

  // ---- Trimming the header changes no lookup

  lemma PieceIgnoresPadding(a: string, piece: string, b: string, name: string)
    requires AllWhitespace(a) && AllWhitespace(b)
    ensures PieceValue(a + piece + b, name) == PieceValue(piece, name)
  {
    TrimIgnoresPadding(a, piece, b);
  }

  lemma NoSemicolon(a: string)
    requires AllWhitespace(a)
    ensures ';' !in a
  {
    assert !IsWhitespace(';');
  }

  lemma LeadIgnored(a: string, header: string, name: string)
    requires AllWhitespace(a)
    ensures CookieValue(a + header, name) == CookieValue(header, name)
  {
    hide CookieValue, PieceValue;
    NoSemicolon(a);
    var first, rest := FirstPiece(header);
    PieceIgnoresPadding(a, first, [], name);
    assert a + first + [] == a + first;
    if ';' in header {
      assert a + header == (a + first) + [';'] + rest;
      PieceThenRest(first, rest, name);
      PieceThenRest(a + first, rest, name);
    } else {
      OnePiece(header, name);
      OnePiece(a + header, name);
    }
  }

  lemma {:induction false} TailIgnored(header: string, b: string, name: string)
    requires AllWhitespace(b)
    ensures CookieValue(header + b, name) == CookieValue(header, name)
    decreases |header|
  {
    hide CookieValue, PieceValue;
    NoSemicolon(b);
    var first, rest := FirstPiece(header);
    if ';' in header {
      TailIgnored(rest, b, name);
      assert header + b == first + [';'] + (rest + b);
      PieceThenRest(first, rest, name);
      PieceThenRest(first, rest + b, name);
    } else {
      PieceIgnoresPadding([], header, b, name);
      assert [] + header + b == header + b;
      OnePiece(header, name);
      OnePiece(header + b, name);
    }
  }

  lemma LookupIgnoresTrim(header: string, name: string)
    ensures CookieValue(Trim(header), name) == CookieValue(header, name)
  {
    var a, b := TrimSplits(header);
    assert header == a + (Trim(header) + b);
    LeadIgnored(a, Trim(header) + b, name);
    TailIgnored(Trim(header), b, name);
  }
}
