/** Encrypted credential records: the blob framing, the payload, and the expiry cross-check against the stored row. */
module CredentialCipher {
  import opened Options
  import opened Text

  type Byte = b: nat | b < 0x100
  type AccountId = nat

  // Instants are nanoseconds since the Unix epoch.
  type Instant = int

  datatype Credentials = Credentials(access: string, refresh: string, cookie: Option<string>, expires: Instant)

  datatype CredentialError = EmptyToken | ExpiryNotAfterIssue | InvalidWebCookie

  datatype CipherError = InvalidCiphertext | InvalidPayload

  // ---- What credentials must satisfy

  predicate IsCookiePart(part: string) {
    Trim(part) != [] && SplitOnce(Trim(part), '=').Some? && Trim(SplitOnce(Trim(part), '=').value.0) != []
  }

  predicate IsWebCookie(header: string) {
    Trim(header) != [] && !HasControl(header) && forall part :: part in Split(header, ';') ==> IsCookiePart(part)
  }

  // Every piece between semicolons names a cookie.
  predicate NamesCookies(header: string) {
    forall part :: part in Split(header, ';') ==> IsCookiePart(part)
  }

  /** A piece names a cookie if it has an equals sign with more than whitespace before it. */
  lemma CookiePartIff(part: string)
    ensures IsCookiePart(part)
       <==> exists name: string, value: string :: Trim(part) == name + ['='] + value && '=' !in name && Trim(name) != []
  {
    var text := Trim(part);
    if IsCookiePart(part) {
      var (name, value) := SplitOnce(text, '=').value;
      assert text == name + ['='] + value;
    }
    if name: string, value: string :| text == name + ['='] + value && '=' !in name && Trim(name) != [] {
      SplitOnceAt(name, '=', value);
    }
  }

  /** A web cookie is a nonblank header without controls, each of whose pieces names a cookie. */
  lemma WebCookieIff(a: string, b: string)
    requires ';' !in a
    ensures IsWebCookie(a) <==> Trim(a) != [] && !HasControl(a) && IsCookiePart(a)
    ensures NamesCookies(a + [';'] + b) <==> IsCookiePart(a) && NamesCookies(b)
    ensures forall header :: IsWebCookie(header) <==> Trim(header) != [] && !HasControl(header) && NamesCookies(header)
  {
    SplitSingle(a, ';');
    SplitCons(a, ';', b);
    hide Trim, HasControl, IsCookiePart, Split;
    var pieces := Split(b, ';');
    assert forall part :: part in [a] + pieces <==> part == a || part in pieces;
  }

  function NewCredentials(access: string, refresh: string, expires: Instant, issued: Instant): Result<Credentials, CredentialError> {
    if Trim(access) == [] || Trim(refresh) == [] then Err(EmptyToken)
    else if expires <= issued then Err(ExpiryNotAfterIssue)
    else Ok(Credentials(access, refresh, None, expires))
  }

  function WithWebCookie(c: Credentials, header: string): Result<Credentials, CredentialError> {
    if !IsWebCookie(header) then Err(InvalidWebCookie) else Ok(c.(cookie := Some(header)))
  }

  // Everything the constructors let through.
  predicate WellFormed(c: Credentials) {
    Trim(c.access) != [] && Trim(c.refresh) != [] && (c.cookie.Some? ==> IsWebCookie(c.cookie.value))
  }

  // ---- The cipher and the payload encoding, by their laws

  const NONCE_LENGTH := 12
  const BLOB_VERSION: Byte := 1

  // An AEAD under one key (section 2.8 of RFC 8439); the account id is the associated data.
  datatype Aead = Aead(seal: (seq<Byte>, AccountId, seq<Byte>) -> seq<Byte>,
                       open: (seq<Byte>, AccountId, seq<Byte>) -> Option<seq<Byte>>)

  datatype Json = Json(encode: Credentials -> seq<Byte>, decode: seq<Byte> -> Option<Credentials>)

  datatype Cipher = Cipher(aead: Aead, json: Json)

  // The ideal AEAD: opening succeeds exactly on what was sealed with the same nonce and account, nothing sealed
  // is empty, and a sealed text determines its nonce, account and plaintext.
  ghost predicate LawfulAead(aead: Aead) {
    && (forall n, a, p, c :: aead.open(n, a, c) == Some(p) <==> c == aead.seal(n, a, p))
    && (forall n, a, p :: aead.seal(n, a, p) != [])
    && (forall n, a, p, m, b, q :: aead.seal(n, a, p) == aead.seal(m, b, q) ==> n == m && a == b && p == q)
  }

  ghost predicate Lawful(k: Cipher) {
    LawfulAead(k.aead) && forall c :: k.json.decode(k.json.encode(c)) == Some(c)
  }

  // The laws have a model: account and nonce written in front of the plaintext, each with its own end.
  function Unary(a: nat): seq<Byte> {
    if a == 0 then [0] else [1] + Unary(a - 1)
  }

  function Delimited(n: seq<Byte>): seq<Byte> {
    if n == [] then [0] else [1, n[0]] + Delimited(n[1..])
  }

  function Header(n: seq<Byte>, a: AccountId): seq<Byte> {
    Unary(a) + Delimited(n)
  }

  function IdealAead(): Aead {
    Aead((n, a, p) => Header(n, a) + p,
         (n, a, c) => if Header(n, a) <= c then Some(c[|Header(n, a)|..]) else None)
  }

  lemma {:induction false} UnaryDecides(a: nat, b: nat, s: seq<Byte>, t: seq<Byte>)
    requires Unary(a) + s == Unary(b) + t
    ensures a == b && s == t
  {
    var x, y := Unary(a) + s, Unary(b) + t;
    assert x[0] == Unary(a)[0] && y[0] == Unary(b)[0];
    if a == 0 || b == 0 {
      assert x[1..] == s && y[1..] == t;
    } else {
      assert x[1..] == Unary(a - 1) + s && y[1..] == Unary(b - 1) + t;
      UnaryDecides(a - 1, b - 1, s, t);
    }
  }

  lemma {:induction false} DelimitedDecides(m: seq<Byte>, n: seq<Byte>, s: seq<Byte>, t: seq<Byte>)
    requires Delimited(m) + s == Delimited(n) + t
    ensures m == n && s == t
  {
    var x, y := Delimited(m) + s, Delimited(n) + t;
    assert x[0] == Delimited(m)[0] && y[0] == Delimited(n)[0];
    if m == [] || n == [] {
      assert x[1..] == s && y[1..] == t;
    } else {
      assert x[1] == m[0] && y[1] == n[0];
      assert x[2..] == Delimited(m[1..]) + s && y[2..] == Delimited(n[1..]) + t;
      DelimitedDecides(m[1..], n[1..], s, t);
      assert m == [m[0]] + m[1..] && n == [n[0]] + n[1..];
    }
  }

  /** The laws of the ideal AEAD do not contradict each other. */
  lemma IdealAeadIsLawful()
    ensures LawfulAead(IdealAead())
  {
    var aead := IdealAead();
    forall n, a, p, c
      ensures aead.open(n, a, c) == Some(p) <==> c == aead.seal(n, a, p)
    {
      var h := Header(n, a);
      if h <= c {
        assert c == h + c[|h|..];
      }
    }
    forall n, a, p, m, b, q | aead.seal(n, a, p) == aead.seal(m, b, q)
      ensures n == m && a == b && p == q
    {
      assert Header(n, a) + p == Unary(a) + (Delimited(n) + p);
      assert Header(m, b) + q == Unary(b) + (Delimited(m) + q);
      UnaryDecides(a, b, Delimited(n) + p, Delimited(m) + q);
      DelimitedDecides(n, m, p, q);
    }
    forall n, a, p
      ensures aead.seal(n, a, p) != []
    {
      assert Unary(a) != [];
    }
  }

  // ---- Framing: version, nonce, ciphertext

  function Frame(nonce: seq<Byte>, sealed: seq<Byte>): seq<Byte> {
    [BLOB_VERSION] + nonce + sealed
  }

  function Encrypted(k: Cipher, account: AccountId, c: Credentials, nonce: seq<Byte>): seq<Byte> {
    Frame(nonce, k.aead.seal(nonce, account, k.json.encode(c)))
  }

  // The buffer is sealed, then appended to the version and the nonce.
  method Encrypt(k: Cipher, account: AccountId, c: Credentials, nonce: seq<Byte>) returns (encrypted: seq<Byte>)
    requires |nonce| == NONCE_LENGTH
    ensures encrypted == Encrypted(k, account, c, nonce)
  {
    var bytes := k.json.encode(c);
    bytes := k.aead.seal(nonce, account, bytes);
    encrypted := [BLOB_VERSION];
    encrypted := encrypted + nonce;
    encrypted := encrypted + bytes;
  }

  predicate OpensTo(k: Cipher, nonce: seq<Byte>, account: AccountId, sealed: seq<Byte>, plain: seq<Byte>) {
    k.aead.open(nonce, account, sealed) == Some(plain)
  }

  /** The blob carries the drawn nonce, and what follows opens under exactly this nonce and account to the payload. */
  lemma EncryptedUnderItsNonce(k: Cipher, account: AccountId, c: Credentials, nonce: seq<Byte>)
    requires Lawful(k) && |nonce| == NONCE_LENGTH
    ensures var blob := Encrypted(k, account, c, nonce);
      && |blob| > 1 + NONCE_LENGTH && blob[0] == BLOB_VERSION && blob[1..1 + NONCE_LENGTH] == nonce
      && var sealed := blob[1 + NONCE_LENGTH..];
      forall m, a, plain :: OpensTo(k, m, a, sealed, plain)
                            <==> m == nonce && a == account && plain == k.json.encode(c)
  {
    var plain := k.json.encode(c);
    var sealed := k.aead.seal(nonce, account, plain);
    FramesSplit(Encrypted(k, account, c, nonce), nonce, sealed);
    forall m, a, p
      ensures OpensTo(k, m, a, sealed, p) <==> m == nonce && a == account && p == plain
    {
      assert k.aead.open(m, a, sealed) == Some(p) <==> sealed == k.aead.seal(m, a, p);
    }
  }

  // The payload is rebuilt through the constructors, with the epoch as its issue instant.
  function Rebuild(p: Credentials): Result<Credentials, CipherError> {
    var rebuilt := NewCredentials(p.access, p.refresh, p.expires, 0);
    if rebuilt.Err? then Err(InvalidPayload)
    else if p.cookie.None? then Ok(rebuilt.value)
    else
      var withCookie := WithWebCookie(rebuilt.value, p.cookie.value);
      if withCookie.Err? then Err(InvalidPayload) else Ok(withCookie.value)
  }

  function Decrypt(k: Cipher, account: AccountId, blob: seq<Byte>): Result<Credentials, CipherError> {
    if |blob| <= 1 + NONCE_LENGTH || blob[0] != BLOB_VERSION then Err(InvalidCiphertext)
    else
      var plain := k.aead.open(blob[1..1 + NONCE_LENGTH], account, blob[1 + NONCE_LENGTH..]);
      if plain.None? then Err(InvalidCiphertext)
      else
        var payload := k.json.decode(plain.value);
        if payload.None? then Err(InvalidPayload) else Rebuild(payload.value)
  }

  lemma RebuildIff(p: Credentials, c: Credentials)
    ensures Rebuild(p) == Ok(c) <==> p == c && WellFormed(c) && c.expires > 0
  {
    hide IsWebCookie, Trim;
  }

  lemma RebuildNamesThePayload(p: Credentials)
    ensures Rebuild(p) != Err(InvalidCiphertext)
  {
    hide IsWebCookie, Trim;
  }

  lemma FramesSplit(blob: seq<Byte>, nonce: seq<Byte>, sealed: seq<Byte>)
    requires |nonce| == NONCE_LENGTH && |sealed| > 0
    ensures blob == Frame(nonce, sealed)
       <==> |blob| > 1 + NONCE_LENGTH && blob[0] == BLOB_VERSION
            && blob[1..1 + NONCE_LENGTH] == nonce && blob[1 + NONCE_LENGTH..] == sealed
  {
    if |blob| > 1 + NONCE_LENGTH && blob[0] == BLOB_VERSION {
      assert blob == [blob[0]] + blob[1..1 + NONCE_LENGTH] + blob[1 + NONCE_LENGTH..];
    }
  }

  /**
   * Decryption accepts exactly the blobs that frame a sealed payload of well-formed credentials for the same
   * account, with an expiry after the epoch.
   */
  lemma DecryptsExactly(k: Cipher, account: AccountId, blob: seq<Byte>, c: Credentials)
    requires Lawful(k)
    ensures Decrypt(k, account, blob) == Ok(c)
       <==> WellFormed(c) && c.expires > 0
            && exists nonce, plain :: |nonce| == NONCE_LENGTH && k.json.decode(plain) == Some(c)
                 && blob == Frame(nonce, k.aead.seal(nonce, account, plain))
  {
    hide WellFormed, Rebuild;
    if Decrypt(k, account, blob) == Ok(c) {
      var nonce, sealed := blob[1..1 + NONCE_LENGTH], blob[1 + NONCE_LENGTH..];
      var plain := k.aead.open(nonce, account, sealed).value;
      RebuildIff(k.json.decode(plain).value, c);
      FramesSplit(blob, nonce, sealed);
      assert sealed == k.aead.seal(nonce, account, plain);
    }
    if WellFormed(c) && c.expires > 0 {
      forall nonce, plain | |nonce| == NONCE_LENGTH && k.json.decode(plain) == Some(c)
                            && blob == Frame(nonce, k.aead.seal(nonce, account, plain))
        ensures Decrypt(k, account, blob) == Ok(c)
      {
        FramesSplit(blob, nonce, k.aead.seal(nonce, account, plain));
        assert k.aead.open(nonce, account, k.aead.seal(nonce, account, plain)) == Some(plain);
        RebuildIff(c, c);
      }
    }
  }

  /** Every encrypted payload decrypts to itself exactly when it expires after the epoch. */
  lemma RoundTripIff(k: Cipher, account: AccountId, c: Credentials, nonce: seq<Byte>)
    requires Lawful(k) && WellFormed(c) && |nonce| == NONCE_LENGTH
    ensures Decrypt(k, account, Encrypted(k, account, c, nonce)) == if c.expires > 0 then Ok(c) else Err(InvalidPayload)
  {
    var plain := k.json.encode(c);
    FramesSplit(Encrypted(k, account, c, nonce), nonce, k.aead.seal(nonce, account, plain));
    assert k.aead.open(nonce, account, k.aead.seal(nonce, account, plain)) == Some(plain);
    hide WellFormed;
    RebuildIff(c, c);
  }

  // What some sealing for the account produced, framed.
  ghost predicate IsSealedFor(k: Cipher, account: AccountId, blob: seq<Byte>) {
    exists nonce, plain :: |nonce| == NONCE_LENGTH && blob == Frame(nonce, k.aead.seal(nonce, account, plain))
  }

  /** The ciphertext is refused exactly when the blob is not a framed sealing for this account. */
  lemma RefusesCiphertextIff(k: Cipher, account: AccountId, blob: seq<Byte>)
    requires Lawful(k)
    ensures Decrypt(k, account, blob) == Err(InvalidCiphertext) <==> !IsSealedFor(k, account, blob)
  {
    hide Rebuild;
    if IsSealedFor(k, account, blob) {
      var nonce, plain :| |nonce| == NONCE_LENGTH && blob == Frame(nonce, k.aead.seal(nonce, account, plain));
      FramesSplit(blob, nonce, k.aead.seal(nonce, account, plain));
      assert k.aead.open(nonce, account, k.aead.seal(nonce, account, plain)) == Some(plain);
      if k.json.decode(plain).Some? {
        RebuildNamesThePayload(k.json.decode(plain).value);
      }
    }
    if Decrypt(k, account, blob) != Err(InvalidCiphertext) {
      var nonce, sealed := blob[1..1 + NONCE_LENGTH], blob[1 + NONCE_LENGTH..];
      var plain := k.aead.open(nonce, account, sealed).value;
      assert sealed == k.aead.seal(nonce, account, plain);
      FramesSplit(blob, nonce, sealed);
    }
  }

  /** A blob that was moved to another account, or whose nonce was exchanged, is refused. */
  lemma MovedBlobIsRefused(k: Cipher, account: AccountId, plain: seq<Byte>, nonce: seq<Byte>, other: AccountId, exchanged: seq<Byte>)
    requires Lawful(k) && |nonce| == NONCE_LENGTH && |exchanged| == NONCE_LENGTH
    requires other != account || exchanged != nonce
    ensures Decrypt(k, other, Frame(exchanged, k.aead.seal(nonce, account, plain))) == Err(InvalidCiphertext)
  {
    hide Decrypt, Frame;
    var sealed := k.aead.seal(nonce, account, plain);
    var blob := Frame(exchanged, sealed);
    FramesSplit(blob, exchanged, sealed);
    forall n, p | |n| == NONCE_LENGTH
      ensures blob != Frame(n, k.aead.seal(n, other, p))
    {
      FramesSplit(blob, n, k.aead.seal(n, other, p));
    }
    RefusesCiphertextIff(k, other, blob);
  }

  // ---- The stored row

  const EPOCH_2000 := 946_684_800_000_000_000

  // A timestamp column keeps whole microseconds, counted from 2000 and truncated toward it.
  function StoredInstant(t: Instant): Instant {
    var d := t - EPOCH_2000;
    EPOCH_2000 + (if d >= 0 then d / 1000 * 1000 else -((-d) / 1000 * 1000))
  }

  lemma StoredInstantIff(t: Instant)
    ensures StoredInstant(t) == t <==> t % 1000 == 0
  {
    var d := t - EPOCH_2000;
    EpochIsWhole(t);
    if d >= 0 {
      WholeIff(d);
    } else {
      WholeIff(-d);
      NegatedWhole(d);
    }
  }

  /** What is stored is the nearest whole microsecond on the side of 2000. */
  lemma StoredInstantTruncates(t: Instant)
    ensures var stored := StoredInstant(t);
      && stored % 1000 == 0
      && (t >= EPOCH_2000 ==> stored <= t < stored + 1000)
      && (t <= EPOCH_2000 ==> stored - 1000 < t <= stored)
  {
    EpochIsWhole(StoredInstant(t));
    var d := t - EPOCH_2000;
    if d >= 0 {
      IsMultiple(StoredInstant(t) - EPOCH_2000, d / 1000);
    } else {
      IsMultiple(StoredInstant(t) - EPOCH_2000, -((-d) / 1000));
    }
  }

  lemma EpochIsWhole(t: Instant)
    ensures t % 1000 == 0 <==> (t - EPOCH_2000) % 1000 == 0
  {
    var q := t / 1000;
    assert t == 1000 * q + t % 1000;
    assert t - EPOCH_2000 == 1000 * (q - 946_684_800_000_000) + t % 1000;
  }

  lemma WholeIff(d: nat)
    ensures d / 1000 * 1000 == d <==> d % 1000 == 0
  {
    assert d == d / 1000 * 1000 + d % 1000;
  }

  lemma IsMultiple(t: int, q: int)
    requires t == 1000 * q
    ensures t % 1000 == 0
  {
  }

  lemma NegatedWhole(d: int)
    ensures (-d) % 1000 == 0 <==> d % 1000 == 0
  {
    if d % 1000 == 0 {
      IsMultiple(-d, -(d / 1000));
    }
    if (-d) % 1000 == 0 {
      IsMultiple(d, -((-d) / 1000));
    }
  }

  datatype Row = Row(ciphertext: Option<seq<Byte>>, expires: Option<Instant>, setupRequired: bool)

  const PLACEHOLDER := Row(None, None, true)

  datatype ServiceError = SetupRequired | CipherFailed(error: CipherError) | Rejected

  // One committed write of credentials, by provision, replacement, refresh or enrolment.
  function CommitCredentials(k: Cipher, account: AccountId, row: Row, c: Credentials, nonce: seq<Byte>): Result<Row, ServiceError> {
    if c.expires <= 0 then Err(Rejected)
    else Ok(Row(Some(Encrypted(k, account, c, nonce)), Some(StoredInstant(c.expires)), false))
  }

  // The service's decryption: the payload's expiry must equal the row's.
  function DecryptRow(k: Cipher, account: AccountId, row: Row): Result<Credentials, ServiceError> {
    if row.setupRequired || row.ciphertext.None? then Err(SetupRequired)
    else match Decrypt(k, account, row.ciphertext.value)
      case Err(error) => Err(CipherFailed(error))
      case Ok(c) => if Some(c.expires) != row.expires then Err(CipherFailed(InvalidPayload)) else Ok(c)
  }

  // A history of attempted writes; rejected ones leave the row as it was.
  function Replay(k: Cipher, account: AccountId, writes: seq<(Credentials, seq<Byte>)>): Row {
    if writes == [] then PLACEHOLDER
    else
      var n := |writes| - 1;
      var before := Replay(k, account, writes[..n]);
      var r := CommitCredentials(k, account, before, writes[n].0, writes[n].1);
      if r.Ok? then r.value else before
  }

  // The last write the store took.
  function LastCommitted(writes: seq<(Credentials, seq<Byte>)>): Option<Credentials> {
    if writes == [] then None
    else
      var last := writes[|writes| - 1].0;
      if last.expires > 0 then Some(last) else LastCommitted(writes[..|writes| - 1])
  }

  /**
   * After any history of writes, decrypting the row gives exactly the credentials last committed, if and only
   * if their expiry is a whole number of microseconds; otherwise the cross-check rejects the record for good.
   */
  lemma {:induction false} RowDecryptsIffWholeMicroseconds(k: Cipher, account: AccountId, writes: seq<(Credentials, seq<Byte>)>)
    requires Lawful(k) && forall w :: w in writes ==> WellFormed(w.0) && |w.1| == NONCE_LENGTH
    ensures var last := LastCommitted(writes);
      DecryptRow(k, account, Replay(k, account, writes))
      == if last.None? then Err(SetupRequired)
         else if last.value.expires % 1000 == 0 then Ok(last.value)
         else Err(CipherFailed(InvalidPayload))
  {
    if writes != [] {
      var n := |writes| - 1;
      assert writes[n] in writes;
      if writes[n].0.expires > 0 {
        RoundTripIff(k, account, writes[n].0, writes[n].1);
        StoredInstantIff(writes[n].0.expires);
      } else {
        RowDecryptsIffWholeMicroseconds(k, account, writes[..n]);
      }
      hide Decrypt, Encrypted, StoredInstant, WellFormed, Lawful;
    }
  }
}
