/** The cookie jar of one QR-login attempt, header merging, and the case-sensitive lookup beside it. */
module CookieJar {
  import opened Options
  import opened Text

  datatype Cookie = Cookie(name: string, value: string)
  type Jar = seq<Cookie>

  function LowerChar(c: char): char {
    if 'A' <= c <= 'Z' then (c as int + 32) as char else c
  }

  // The key of a cookie: its name without ASCII case.
  function Fold(name: string): (f: string)
    ensures |f| == |name|
  {
    seq(|name|, i requires 0 <= i < |name| => LowerChar(name[i]))
  }

  const UPPER := "ABCDEFGHIJKLMNOPQRSTUVWXYZ"
  const LOWER := "abcdefghijklmnopqrstuvwxyz"

  // The same character, or the two cases of one ASCII letter.
  ghost predicate SameIgnoringCase(x: char, y: char) {
    x == y || exists k :: 0 <= k < 26 && ((x == UPPER[k] && y == LOWER[k]) || (x == LOWER[k] && y == UPPER[k]))
  }

  /** Names have the same key exactly when they are equal up to ASCII case. */
  lemma FoldsAlikeIff(a: string, b: string)
    ensures Fold(a) == Fold(b) <==> |a| == |b| && forall i :: 0 <= i < |a| ==> SameIgnoringCase(a[i], b[i])
  {
    forall x, y
      ensures LowerChar(x) == LowerChar(y) <==> SameIgnoringCase(x, y)
    {
      CharsAlikeIff(x, y);
    }
    if Fold(a) == Fold(b) {
      assert forall i :: 0 <= i < |a| ==> Fold(a)[i] == LowerChar(a[i]) && Fold(b)[i] == LowerChar(b[i]);
    }
    hide LowerChar, SameIgnoringCase;
  }

  lemma CharsAlikeIff(x: char, y: char)
    ensures LowerChar(x) == LowerChar(y) <==> SameIgnoringCase(x, y)
  {
    LettersInOrder();
    if x != y && LowerChar(x) == LowerChar(y) {
      var k := LowerChar(x) as int - 'a' as int;
      assert LOWER[k] == LowerChar(x);
    }
  }

  lemma LettersInOrder()
    ensures forall k :: 0 <= k < 26 ==> UPPER[k] == ('A' as int + k) as char && LOWER[k] == ('a' as int + k) as char
  {
    assert UPPER[0] == 'A' && LOWER[0] == 'a';
  }

  // ---- What one pair does

  // The cookie a raw pair stands for, when it stands for one.
  function ParsePair(pair: string): Option<Cookie> {
    match SplitOnce(Trim(pair), '=')
    case None => None
    case Some((rawName, rawValue)) =>
      var name, value := Trim(rawName), Trim(rawValue);
      if name == [] || HasControl(name) || HasControl(value) then None else Some(Cookie(name, value))
  }

  // The position of the cookie with this key, or |jar|.
  function Position(jar: Jar, key: string): (i: nat)
    ensures i <= |jar| && (i < |jar| ==> Fold(jar[i].name) == key)
    ensures forall k :: 0 <= k < i ==> Fold(jar[k].name) != key
  {
    if jar == [] || Fold(jar[0].name) == key then 0 else Position(jar[1..], key) + 1
  }

  // The jar with the cookie put in the place of the one with the same key, or at the end.
  function Put(jar: Jar, c: Cookie): Jar {
    var i := Position(jar, Fold(c.name));
    if i < |jar| then jar[i := c] else jar + [c]
  }

  function PutPair(jar: Jar, pair: string): Jar {
    match ParsePair(pair)
    case None => jar
    case Some(c) => Put(jar, c)
  }

  function PutAll(jar: Jar, cookies: seq<Cookie>): Jar {
    if cookies == [] then jar else Put(PutAll(jar, cookies[..|cookies| - 1]), cookies[|cookies| - 1])
  }

  function Parsed(pairs: seq<string>): (p: seq<Option<Cookie>>)
    ensures |p| == |pairs| && forall i :: 0 <= i < |pairs| ==> p[i] == ParsePair(pairs[i])
  {
    seq(|pairs|, i requires 0 <= i < |pairs| => ParsePair(pairs[i]))
  }

  function Keep(options: seq<Option<Cookie>>): seq<Cookie> {
    if options == [] then []
    else
      var before := Keep(options[..|options| - 1]);
      match options[|options| - 1]
      case None => before
      case Some(c) => before + [c]
  }

  // The cookies that the raw pairs stand for, in order.
  function Accepted(pairs: seq<string>): seq<Cookie> {
    Keep(Parsed(pairs))
  }

  function ParseHeader(jar: Jar, header: string): Jar {
    PutAll(jar, Accepted(Split(header, ';')))
  }

  lemma AcceptOneMore(pairs: seq<string>, i: nat)
    requires i < |pairs|
    ensures Accepted(pairs[..i + 1]) == Accepted(pairs[..i]) + Keep([ParsePair(pairs[i])])
  {
    var options := Parsed(pairs[..i + 1]);
    assert options[..i] == Parsed(pairs[..i]);
    assert Keep([options[i]][..0]) == [];
  }

  lemma PutOneMore(jar: Jar, pairs: seq<string>, i: nat)
    requires i < |pairs|
    ensures PutAll(jar, Accepted(pairs[..i + 1])) == PutPair(PutAll(jar, Accepted(pairs[..i])), pairs[i])
  {
    AcceptOneMore(pairs, i);
    var option := ParsePair(pairs[i]);
    assert Keep([option][..0]) == [];
    var before := Accepted(pairs[..i]);
    if option.Some? {
      assert (before + [option.value])[..|before|] == before;
    } else {
      assert before + [] == before;
    }
  }

  // ---- The invariant

  // A cookie that prints as one pair and parses back as itself.
  ghost predicate Clean(c: Cookie) {
    && c.name != [] && IsTrimmed(c.name) && '=' !in c.name && ';' !in c.name && !HasControl(c.name)
    && IsTrimmed(c.value) && ';' !in c.value && !HasControl(c.value)
  }

  ghost predicate UniqueKeys(jar: Jar) {
    forall i, j :: 0 <= i < j < |jar| ==> Fold(jar[i].name) != Fold(jar[j].name)
  }

  ghost predicate Valid(jar: Jar) {
    UniqueKeys(jar) && forall i :: 0 <= i < |jar| ==> Clean(jar[i])
  }

  lemma TrimHasNo(s: string, c: char)
    requires c !in s
    ensures c !in Trim(s)
  {
    var a, b := TrimSplits(s);
    forall k | 0 <= k < |Trim(s)| ensures Trim(s)[k] != c {
      assert s[|a| + k] == Trim(s)[k];
    }
  }

  lemma ParsePairIsClean(pair: string)
    requires ';' !in pair
    ensures ParsePair(pair).Some? ==> Clean(ParsePair(pair).value)
  {
    TrimHasNo(pair, ';');
    var once := SplitOnce(Trim(pair), '=');
    if once.Some? {
      var (rawName, rawValue) := once.value;
      TrimHasNo(rawName, '=');
      TrimHasNo(rawName, ';');
      TrimHasNo(rawValue, ';');
      var a, b := TrimSplits(rawName);
      a, b := TrimSplits(rawValue);
    }
  }

  lemma PutKeepsValid(jar: Jar, c: Cookie)
    requires Valid(jar) && Clean(c)
    ensures Valid(Put(jar, c))
  {
  }

  lemma PutPairKeepsValid(jar: Jar, pair: string)
    requires Valid(jar) && ';' !in pair
    ensures Valid(PutPair(jar, pair))
  {
    ParsePairIsClean(pair);
    if ParsePair(pair).Some? {
      PutKeepsValid(jar, ParsePair(pair).value);
    }
  }

  lemma {:induction false} PutAllKeepsValid(jar: Jar, cookies: seq<Cookie>)
    requires Valid(jar) && forall i :: 0 <= i < |cookies| ==> Clean(cookies[i])
    ensures Valid(PutAll(jar, cookies))
  {
    if cookies != [] {
      PutAllKeepsValid(jar, cookies[..|cookies| - 1]);
      PutKeepsValid(PutAll(jar, cookies[..|cookies| - 1]), cookies[|cookies| - 1]);
    }
  }

  lemma {:induction false} KeepIsClean(options: seq<Option<Cookie>>)
    requires forall i :: 0 <= i < |options| ==> options[i].None? || Clean(options[i].value)
    ensures forall i :: 0 <= i < |Keep(options)| ==> Clean(Keep(options)[i])
  {
    if options != [] {
      KeepIsClean(options[..|options| - 1]);
    }
  }

  // Every header keeps the invariant, whatever it holds.
  lemma ParseHeaderKeepsValid(jar: Jar, header: string)
    requires Valid(jar)
    ensures Valid(ParseHeader(jar, header))
  {
    var pairs := Split(header, ';');
    SplitHasNoSeparator(header, ';');
    forall i | 0 <= i < |pairs| ensures Parsed(pairs)[i].None? || Clean(Parsed(pairs)[i].value) {
      assert pairs[i] in pairs;
      ParsePairIsClean(pairs[i]);
    }
    KeepIsClean(Parsed(pairs));
    PutAllKeepsValid(jar, Accepted(pairs));
  }

  // ---- Printing and parsing back

  function PairText(c: Cookie): string {
    c.name + ['='] + c.value
  }

  // The pieces joined by "; ".
  function Join(pieces: seq<string>): string {
    if pieces == [] then []
    else if |pieces| == 1 then pieces[0]
    else pieces[0] + [';'] + ([' '] + Join(pieces[1..]))
  }

  function Texts(jar: Jar): (t: seq<string>)
    ensures |t| == |jar| && forall i :: 0 <= i < |jar| ==> t[i] == PairText(jar[i])
  {
    seq(|jar|, i requires 0 <= i < |jar| => PairText(jar[i]))
  }

  // The cookies as one header, "a=1; b=2".
  function HeaderText(jar: Jar): string {
    Join(Texts(jar))
  }

  lemma JoinCons(lead: string, pieces: seq<string>)
    requires |pieces| > 1
    ensures lead + Join(pieces) == (lead + pieces[0]) + [';'] + ([' '] + Join(pieces[1..]))
  {
  }

  // Splitting a joined header gives its pieces back, all but the first after a space.
  lemma {:induction false} SplitJoined(lead: string, pieces: seq<string>)
    requires pieces != [] && ';' !in lead && forall p :: p in pieces ==> ';' !in p
    ensures |Split(lead + Join(pieces), ';')| == |pieces|
    ensures Split(lead + Join(pieces), ';')[0] == lead + pieces[0]
    ensures forall i :: 1 <= i < |pieces| ==> Split(lead + Join(pieces), ';')[i] == [' '] + pieces[i]
    decreases |pieces|
  {
    hide Split;
    var first, rest := lead + pieces[0], pieces[1..];
    if rest == [] {
      SplitSingle(first, ';');
    } else {
      SplitJoined([' '], rest);
      var tail := [' '] + Join(rest);
      JoinCons(lead, pieces);
      SplitCons(first, ';', tail);
      var parts := Split(tail, ';');
      assert Split(lead + Join(pieces), ';') == [first] + parts;
      assert forall i :: 1 <= i < |pieces| ==> ([first] + parts)[i] == parts[i - 1] && pieces[i] == rest[i - 1];
    }
  }

  lemma PrintedPairParses(c: Cookie)
    requires Clean(c)
    ensures ';' !in PairText(c)
    ensures ParsePair(PairText(c)) == Some(c) == ParsePair([' '] + PairText(c))
  {
    var text := PairText(c);
    assert !IsWhitespace('=');
    assert IsTrimmed(text);
    TrimOfTrimmed(text);
    TrimUnique([' '], text, []);
    assert [' '] + text + [] == [' '] + text;
    SplitOnceAt(c.name, '=', c.value);
    TrimOfTrimmed(c.name);
    TrimOfTrimmed(c.value);
  }

  lemma PutNew(jar: Jar, c: Cookie)
    requires forall i :: 0 <= i < |jar| ==> Fold(jar[i].name) != Fold(c.name)
    ensures Put(jar, c) == jar + [c]
  {
  }

  lemma {:induction false} KeepAll(cookies: seq<Cookie>, options: seq<Option<Cookie>>)
    requires |options| == |cookies| && forall i :: 0 <= i < |cookies| ==> options[i] == Some(cookies[i])
    ensures Keep(options) == cookies
  {
    if cookies != [] {
      var n := |cookies| - 1;
      KeepAll(cookies[..n], options[..n]);
      assert cookies == cookies[..n] + [cookies[n]];
    }
  }

  // Putting cookies with distinct keys into an empty jar keeps them all in order.
  lemma {:induction false} PutDistinct(jar: Jar)
    requires UniqueKeys(jar)
    ensures PutAll([], jar) == jar
  {
    if jar != [] {
      var n := |jar| - 1;
      PutDistinct(jar[..n]);
      PutNew(jar[..n], jar[n]);
      assert jar == jar[..n] + [jar[n]];
    }
  }

  /** Parsing a printed jar into an empty one gives the same ordered jar back. */
  lemma HeaderRoundTrip(jar: Jar)
    requires Valid(jar)
    ensures ParseHeader([], HeaderText(jar)) == jar
  {
    var pairs := Split(HeaderText(jar), ';');
    if jar == [] {
      SplitSingle([], ';');
      EmptyPairAddsNothing();
    } else {
      PrintedPieces(jar);
      KeepAll(jar, Parsed(pairs));
      PutDistinct(jar);
    }
  }

  lemma EmptyPairAddsNothing()
    ensures Accepted([[]]) == []
  {
    assert Parsed([[]]) == [None];
    assert Keep([None][..0]) == [];
  }

  lemma PrintedPieces(jar: Jar)
    requires Valid(jar) && jar != []
    ensures var pieces := Split(HeaderText(jar), ';');
            |pieces| == |jar| && forall i :: 0 <= i < |jar| ==> ParsePair(pieces[i]) == Some(jar[i])
  {
    hide ParsePair, Split, PairText, Join;
    var texts := Texts(jar);
    forall i | 0 <= i < |jar|
      ensures ';' !in texts[i] && ParsePair(texts[i]) == Some(jar[i]) == ParsePair([' '] + texts[i])
    {
      PrintedPairParses(jar[i]);
    }
    SplitJoined([], texts);
    assert [] + Join(texts) == Join(texts) && [] + texts[0] == texts[0];
  }

  // ---- Merging: first-seen order, last writer wins

  // The keys of a list of cookies in the order they were first seen.
  function FirstSeenKeys(cookies: seq<Cookie>): (keys: seq<string>)
    ensures forall i, j :: 0 <= i < j < |keys| ==> keys[i] != keys[j]
    ensures forall key :: key in keys <==> exists i :: 0 <= i < |cookies| && Fold(cookies[i].name) == key
  {
    if cookies == [] then []
    else
      var before := FirstSeenKeys(cookies[..|cookies| - 1]);
      var key := Fold(cookies[|cookies| - 1].name);
      if key in before then before else before + [key]
  }

  // The last cookie written under a key.
  function LastWritten(cookies: seq<Cookie>, key: string): (c: Cookie)
    requires key in FirstSeenKeys(cookies)
    ensures Fold(c.name) == key && c in cookies
  {
    var last := cookies[|cookies| - 1];
    if Fold(last.name) == key then last else LastWritten(cookies[..|cookies| - 1], key)
  }

  /** One cookie per key: in the order the keys were first seen, each the last one written. */
  function Merged(cookies: seq<Cookie>): (jar: Jar)
    ensures |jar| == |FirstSeenKeys(cookies)|
  {
    var keys := FirstSeenKeys(cookies);
    seq(|keys|, i requires 0 <= i < |keys| => LastWritten(cookies, keys[i]))
  }

  // Putting the cookies one by one into an empty jar merges them.
  lemma {:induction false} PutAllMerges(cookies: seq<Cookie>)
    ensures PutAll([], cookies) == Merged(cookies)
  {
    hide Merged, Put, Fold, FirstSeenKeys, LastWritten;
    if cookies == [] {
      NothingMerged();
    } else {
      var before, c := cookies[..|cookies| - 1], cookies[|cookies| - 1];
      PutAllMerges(before);
      MergeOneMore(before, c);
      assert cookies == before + [c];
    }
  }

  lemma NothingMerged()
    ensures Merged([]) == []
  {
  }

  lemma MergeOneMore(before: seq<Cookie>, c: Cookie)
    ensures Put(Merged(before), c) == Merged(before + [c])
  {
    hide Merged, Fold, Put, LastWritten, FirstSeenKeys;
    var jar, all, keys := Merged(before), Merged(before + [c]), FirstSeenKeys(before);
    KeysOneMore(before, c);
    MergedAt(before);
    MergedAt(before + [c]);
    forall i | 0 <= i < |keys|
      ensures all[i] == if keys[i] == Fold(c.name) then c else jar[i]
    {
      LastOneMore(before, c, keys[i]);
    }
    if Fold(c.name) !in keys {
      LastOneMore(before, c, Fold(c.name));
    }
    PutIs(jar, keys, c, all);
  }

  // Where a cookie is put in a jar with these keys.
  lemma PutIs(jar: Jar, keys: seq<string>, c: Cookie, all: Jar)
    requires |jar| == |keys| && forall i :: 0 <= i < |keys| ==> Fold(jar[i].name) == keys[i]
    requires forall i, j :: 0 <= i < j < |keys| ==> keys[i] != keys[j]
    requires |all| == if Fold(c.name) in keys then |keys| else |keys| + 1
    requires forall i :: 0 <= i < |keys| ==> all[i] == if keys[i] == Fold(c.name) then c else jar[i]
    requires Fold(c.name) !in keys ==> all[|keys|] == c
    ensures Put(jar, c) == all
  {
    hide Fold;
    var p := Position(jar, Fold(c.name));
    assert p < |jar| ==> keys[p] == Fold(c.name);
    hide Position;
  }

  lemma KeysOneMore(before: seq<Cookie>, c: Cookie)
    ensures var keys, all := FirstSeenKeys(before), FirstSeenKeys(before + [c]);
      all == if Fold(c.name) in keys then keys else keys + [Fold(c.name)]
  {
    hide Fold;
    assert (before + [c])[..|before|] == before;
  }

  lemma LastOneMore(before: seq<Cookie>, c: Cookie, key: string)
    requires key in FirstSeenKeys(before + [c])
    ensures Fold(c.name) == key ==> LastWritten(before + [c], key) == c
    ensures Fold(c.name) != key ==> key in FirstSeenKeys(before) && LastWritten(before + [c], key) == LastWritten(before, key)
  {
    hide Fold, FirstSeenKeys;
    assert (before + [c])[..|before|] == before;
  }

  lemma MergedAt(cookies: seq<Cookie>)
    ensures var keys := FirstSeenKeys(cookies);
      forall i :: 0 <= i < |keys| ==> Merged(cookies)[i] == LastWritten(cookies, keys[i]) && Fold(Merged(cookies)[i].name) == keys[i]
  {
    hide Fold, FirstSeenKeys, LastWritten;
  }

  lemma {:induction false} KeepConcat(a: seq<Option<Cookie>>, b: seq<Option<Cookie>>)
    ensures Keep(a + b) == Keep(a) + Keep(b)
  {
    if b == [] {
      assert a + b == a;
    } else {
      assert (a + b)[..|a + b| - 1] == a + b[..|b| - 1];
      KeepConcat(a, b[..|b| - 1]);
    }
  }

  lemma {:induction false} PutAllConcat(jar: Jar, a: seq<Cookie>, b: seq<Cookie>)
    ensures PutAll(jar, a + b) == PutAll(PutAll(jar, a), b)
  {
    if b == [] {
      assert a + b == a;
    } else {
      assert (a + b)[..|a + b| - 1] == a + b[..|b| - 1];
      PutAllConcat(jar, a, b[..|b| - 1]);
    }
  }

  function PiecesOf(header: Option<string>): seq<string> {
    if header.Some? then Split(header.value, ';') else []
  }

  // The pieces of two headers, one after the other.
  function MergePieces(primary: Option<string>, secondary: Option<string>): seq<string> {
    PiecesOf(primary) + PiecesOf(secondary)
  }

  // The cookie was written, and nothing under its key after it.
  ghost predicate IsLastWritten(cookies: seq<Cookie>, c: Cookie) {
    exists i :: 0 <= i < |cookies| && cookies[i] == c && forall j :: i < j < |cookies| ==> Fold(cookies[j].name) != Fold(c.name)
  }

  ghost predicate WritesKey(cookies: seq<Cookie>, key: string) {
    exists i :: 0 <= i < |cookies| && Fold(cookies[i].name) == key
  }

  lemma {:induction false} LastWrittenIsLast(cookies: seq<Cookie>, key: string)
    requires key in FirstSeenKeys(cookies)
    ensures IsLastWritten(cookies, LastWritten(cookies, key))
  {
    var n, c := |cookies| - 1, LastWritten(cookies, key);
    var before := cookies[..n];
    hide Fold;
    if Fold(cookies[n].name) != key {
      LastWrittenIsLast(before, key);
      OneMoreWritten(before, cookies[n], c);
      assert cookies == before + [cookies[n]];
    } else {
      assert c == cookies[n];
    }
    hide FirstSeenKeys, LastWritten;
  }

  lemma OneMoreWritten(before: seq<Cookie>, last: Cookie, c: Cookie)
    requires IsLastWritten(before, c) && Fold(last.name) != Fold(c.name)
    ensures IsLastWritten(before + [last], c)
  {
    hide Fold;
    var i :| 0 <= i < |before| && before[i] == c && forall j :: i < j < |before| ==> Fold(before[j].name) != Fold(c.name);
    assert (before + [last])[i] == c;
  }

  // The last write to two lists is the last one to the second list, if that has the key.
  lemma LastOfTwo(a: seq<Cookie>, b: seq<Cookie>, c: Cookie)
    requires IsLastWritten(a + b, c)
    ensures if WritesKey(b, Fold(c.name)) then IsLastWritten(b, c) else IsLastWritten(a, c)
  {
    hide Fold;
    var all := a + b;
    var i :| 0 <= i < |all| && all[i] == c && forall j :: i < j < |all| ==> Fold(all[j].name) != Fold(c.name);
    assert forall j :: 0 <= j < |b| ==> b[j] == all[|a| + j];
    assert forall j :: 0 <= j < |a| ==> a[j] == all[j];
    if i >= |a| {
      assert b[i - |a|] == c;
    } else {
      assert a[i] == c;
    }
  }

  /**
   * Merging two headers: every name of either is in the merge, and on a shared name the secondary header wins,
   * with the last value it writes; any other name has the last value of the primary header.
   */
  lemma SecondaryWins(primary: Option<string>, secondary: Option<string>)
    ensures var p, q := Accepted(PiecesOf(primary)), Accepted(PiecesOf(secondary));
      var jar := Merged(Accepted(MergePieces(primary, secondary)));
      && (forall c :: c in jar ==> if WritesKey(q, Fold(c.name)) then IsLastWritten(q, c) else IsLastWritten(p, c))
      && (forall key :: WritesKey(p, key) || WritesKey(q, key) <==> WritesKey(jar, key))
  {
    var p, q := Accepted(PiecesOf(primary)), Accepted(PiecesOf(secondary));
    AcceptedConcat(PiecesOf(primary), PiecesOf(secondary));
    hide Accepted, Fold, LastWritten;
    var all := p + q;
    var jar, keys := Merged(all), FirstSeenKeys(all);
    forall c | c in jar
      ensures if WritesKey(q, Fold(c.name)) then IsLastWritten(q, c) else IsLastWritten(p, c)
    {
      var i :| 0 <= i < |jar| && jar[i] == c;
      LastWrittenIsLast(all, keys[i]);
      LastOfTwo(p, q, c);
    }
    forall key
      ensures WritesKey(p, key) || WritesKey(q, key) <==> WritesKey(jar, key)
    {
      KeyOfTwo(p, q, key);
      KeyOfMerge(all, key);
    }
  }

  lemma KeyOfTwo(a: seq<Cookie>, b: seq<Cookie>, key: string)
    ensures WritesKey(a + b, key) <==> WritesKey(a, key) || WritesKey(b, key)
  {
    hide Fold;
    if i :| 0 <= i < |a| && Fold(a[i].name) == key {
      assert (a + b)[i] == a[i];
    }
    if i :| 0 <= i < |b| && Fold(b[i].name) == key {
      assert (a + b)[|a| + i] == b[i];
    }
  }

  lemma KeyOfMerge(cookies: seq<Cookie>, key: string)
    ensures WritesKey(Merged(cookies), key) <==> WritesKey(cookies, key)
  {
    hide Fold, LastWritten;
    var jar, keys := Merged(cookies), FirstSeenKeys(cookies);
    assert forall i :: 0 <= i < |jar| ==> Fold(jar[i].name) == keys[i];
    if WritesKey(cookies, key) {
      assert key in keys;
      var i :| 0 <= i < |keys| && keys[i] == key;
      assert Fold(jar[i].name) == key;
    }
    if i :| 0 <= i < |jar| && Fold(jar[i].name) == key {
      assert keys[i] in keys;
    }
  }

  // The part of each Set-Cookie value before its first semicolon.
  function FirstPieces(setCookies: seq<string>): (firsts: seq<string>)
    ensures |firsts| == |setCookies|
  {
    seq(|setCookies|, i requires 0 <= i < |setCookies| => Split(setCookies[i], ';')[0])
  }

  lemma FirstPieceEndsAtSemicolon(setCookies: seq<string>, i: nat)
    requires i < |setCookies|
    ensures var s, p := setCookies[i], FirstPieces(setCookies)[i];
      ';' !in p && p <= s && (p == s || s[|p|] == ';')
  {
  }

  // ---- The jar object

  class AttemptCookieJar {
    var values: Jar

    ghost predicate Ok() reads this { Valid(values) }

    constructor ()
      ensures Ok() && values == []
    {
      values := [];
    }

    method UpdatePair(pair: string)
      requires Ok() && ';' !in pair
      modifies this
      ensures Ok() && values == PutPair(old(values), pair)
    {
      PutPairKeepsValid(values, pair);
      var once := SplitOnce(Trim(pair), '=');
      if once.None? { return; }
      var name, value := Trim(once.value.0), Trim(once.value.1);
      if name == [] || HasControl(name) || HasControl(value) { return; }
      var i := 0;
      while i < |values| && Fold(values[i].name) != Fold(name)
        invariant 0 <= i <= |values| && i <= Position(values, Fold(name))
        invariant values == old(values)
      {
        i := i + 1;
      }
      if i < |values| {
        values := values[i := Cookie(name, value)];
      } else {
        values := values + [Cookie(name, value)];
      }
    }

    method UpdateFromHeader(header: string)
      requires Ok()
      modifies this
      ensures Ok() && values == ParseHeader(old(values), header)
    {
      var pieces := Split(header, ';');
      SplitHasNoSeparator(header, ';');
      for i := 0 to |pieces|
        invariant Ok() && values == PutAll(old(values), Accepted(pieces[..i]))
      {
        assert pieces[i] in pieces;
        UpdatePair(pieces[i]);
        PutOneMore(old(values), pieces, i);
      }
      assert pieces[..|pieces|] == pieces;
    }

    // The Set-Cookie values of one response: only the part before the first semicolon counts.
    method UpdateFromResponse(setCookies: seq<string>)
      requires Ok()
      modifies this
      ensures Ok() && values == PutAll(old(values), Accepted(FirstPieces(setCookies)))
    {
      ghost var firsts := FirstPieces(setCookies);
      for i := 0 to |setCookies|
        invariant Ok() && values == PutAll(old(values), Accepted(firsts[..i]))
      {
        var pieces := Split(setCookies[i], ';');
        SplitHasNoSeparator(setCookies[i], ';');
        assert pieces[0] in pieces;
        UpdatePair(pieces[0]);
        PutOneMore(old(values), firsts, i);
      }
      assert firsts[..|firsts|] == firsts;
    }

    method Header() returns (header: Option<string>)
      requires Ok()
      ensures header.None? <==> values == []
      ensures header.Some? ==> header.value == HeaderText(values) && ParseHeader([], header.value) == values
    {
      if values == [] { return None; }
      HeaderRoundTrip(values);
      return Some(HeaderText(values));
    }
  }

  lemma AcceptedConcat(a: seq<string>, b: seq<string>)
    ensures Accepted(a + b) == Accepted(a) + Accepted(b)
  {
    hide Parsed, ParsePair, Keep;
    assert Parsed(a + b) == Parsed(a) + Parsed(b);
    KeepConcat(Parsed(a), Parsed(b));
  }

  lemma MergedInTwoSteps(a: seq<string>, b: seq<string>)
    ensures PutAll(PutAll([], Accepted(a)), Accepted(b)) == Merged(Accepted(a + b))
  {
    AcceptedConcat(a, b);
    hide *;
    PutAllConcat([], Accepted(a), Accepted(b));
    PutAllMerges(Accepted(a + b));
  }

  lemma MergedIsValid(primary: Option<string>, secondary: Option<string>)
    ensures Valid(Merged(Accepted(MergePieces(primary, secondary))))
  {
    PiecesAreValid([], primary);
    PiecesAreValid(PutAll([], Accepted(PiecesOf(primary))), secondary);
    MergedInTwoSteps(PiecesOf(primary), PiecesOf(secondary));
    hide Accepted, PutAll, Merged, Valid, PiecesOf;
  }

  lemma PiecesAreValid(jar: Jar, header: Option<string>)
    requires Valid(jar)
    ensures Valid(PutAll(jar, Accepted(PiecesOf(header))))
  {
    hide Accepted, Valid;
    if header.Some? {
      ParseHeaderKeepsValid(jar, header.value);
    } else {
      assert Accepted([]) == [] by { NothingAccepted(); }
    }
  }

  lemma NothingAccepted()
    ensures Accepted([]) == []
  {
  }

  /** Merges two headers into one that parses as their merge. */
  method MergeCookieHeaders(primary: Option<string>, secondary: Option<string>) returns (header: Option<string>)
    ensures var jar := Merged(Accepted(MergePieces(primary, secondary)));
            && Valid(jar)
            && (header.None? <==> jar == [])
            && (header.Some? ==> header.value == HeaderText(jar) && ParseHeader([], header.value) == jar)
  {
    hide Split, ParsePair, Put, HeaderText, Merged, FirstSeenKeys;
    var jar := new AttemptCookieJar();
    if primary.Some? { jar.UpdateFromHeader(primary.value); }
    if secondary.Some? { jar.UpdateFromHeader(secondary.value); }
    MergedInTwoSteps(PiecesOf(primary), PiecesOf(secondary));
    assert PutAll([], Accepted([])) == [];
    header := jar.Header();
  }
}
