/** Decoding of a public account's `__biz` value into its numeric identifier. */
module Identity {
  import opened Options
  import opened Text
  import opened Base64

  // ---- UTF-8, as far as this decoding depends on it

  // A text codec that agrees with ASCII and whose decoding inverts its encoding.
  datatype Utf8 = Utf8(encode: string -> seq<Byte>, decode: seq<Byte> -> Option<string>)

  predicate IsAscii(s: string) {
    forall i :: 0 <= i < |s| ==> s[i] as int < 0x80
  }

  function AsciiBytes(s: string): (b: seq<Byte>)
    requires IsAscii(s)
    ensures |b| == |s|
  {
    seq(|s|, i requires 0 <= i < |s| => s[i] as int)
  }

  ghost predicate Lawful(u: Utf8) {
    && (forall s: string :: u.decode(u.encode(s)) == Some(s))
    && (forall b: seq<Byte> :: u.decode(b).Some? ==> u.encode(u.decode(b).value) == b)
    && (forall s: string :: IsAscii(s) ==> u.encode(s) == AsciiBytes(s))
  }

  lemma DecodesAscii(u: Utf8, s: string)
    requires Lawful(u) && IsAscii(s)
    ensures u.encode(s) == AsciiBytes(s) && u.decode(AsciiBytes(s)) == Some(s)
  {
  }

  // ---- Percent decoding (section 2.1 of RFC 3986)

  function HexValue(c: nat): Option<nat> {
    if 0x30 <= c <= 0x39 then Some(c - 0x30)
    else if 0x41 <= c <= 0x46 then Some(c - 0x41 + 10)
    else if 0x61 <= c <= 0x66 then Some(c - 0x61 + 10)
    else None
  }

  const HEX_LOWER := "0123456789abcdef"
  const HEX_UPPER := "0123456789ABCDEF"

  /** The value of a hexadecimal digit is its place among the sixteen, in either case; nothing else has one. */
  lemma HexValueIff(c: char, v: nat)
    ensures HexValue(c as int) == Some(v) <==> v < 16 && (c == HEX_LOWER[v] || c == HEX_UPPER[v])
  {
    if v < 16 {
      HexDigits(v);
    }
  }

  lemma HexDigits(v: nat)
    requires v < 16
    ensures v < 10 ==> HEX_LOWER[v] == HEX_UPPER[v] == (0x30 + v) as char
    ensures v >= 10 ==> HEX_LOWER[v] == (0x61 + v - 10) as char && HEX_UPPER[v] == (0x41 + v - 10) as char
  {
    assert HEX_LOWER[0] == '0' && HEX_UPPER[0] == '0';
  }

  predicate IsTriplet(b: seq<Byte>) {
    |b| >= 3 && b[0] == 0x25 && HexValue(b[1]).Some? && HexValue(b[2]).Some?
  }

  // A '%' that starts no triplet stands for itself.
  function PercentDecode(b: seq<Byte>): seq<Byte> {
    if b == [] then []
    else if IsTriplet(b) then [HexValue(b[1]).value * 16 + HexValue(b[2]).value] + PercentDecode(b[3..])
    else [b[0]] + PercentDecode(b[1..])
  }

  // `w` writes the text `t` with each character either itself or a triplet in either case.
  ghost predicate Spells(w: string, t: string) {
    if t == [] then w == []
    else
      || (w != [] && w[0] == t[0] && w[0] != '%' && w[0] as int < 0x80 && Spells(w[1..], t[1..]))
      || (&& |w| >= 3 && w[0] == '%'
          && HexValue(w[1] as int).Some? && HexValue(w[2] as int).Some?
          && HexValue(w[1] as int).value * 16 + HexValue(w[2] as int).value == t[0] as int
          && Spells(w[3..], t[1..]))
  }

  lemma {:induction false} SpellingDecodes(w: string, t: string)
    requires Spells(w, t) && IsAscii(t)
    ensures IsAscii(w) && PercentDecode(AsciiBytes(w)) == AsciiBytes(t)
  {
    if t != [] {
      if w[0] == t[0] && w[0] != '%' && w[0] as int < 0x80 && Spells(w[1..], t[1..]) {
        SpellingDecodes(w[1..], t[1..]);
        assert forall i :: 0 < i < |w| ==> w[i] == w[1..][i - 1];
        assert AsciiBytes(w)[1..] == AsciiBytes(w[1..]);
        assert AsciiBytes(t) == [t[0] as int] + AsciiBytes(t[1..]);
      } else {
        SpellingDecodes(w[3..], t[1..]);
        assert w[1] as int < 0x80 && w[2] as int < 0x80;
        assert forall i :: 3 <= i < |w| ==> w[i] == w[3..][i - 3];
        assert AsciiBytes(w)[3..] == AsciiBytes(w[3..]);
        assert AsciiBytes(t) == [t[0] as int] + AsciiBytes(t[1..]);
      }
    }
  }

  // A spelling of text without whitespace has none either.
  lemma {:induction false} SpellingIsDense(w: string, t: string)
    requires Spells(w, t) && (forall i :: 0 <= i < |t| ==> !IsWhitespace(t[i]))
    ensures forall i :: 0 <= i < |w| ==> !IsWhitespace(w[i])
    ensures t != [] ==> w != []
  {
    if t != [] {
      if w[0] == t[0] && w[0] != '%' && w[0] as int < 0x80 && Spells(w[1..], t[1..]) {
        SpellingIsDense(w[1..], t[1..]);
        assert forall i :: 0 < i < |w| ==> w[i] == w[1..][i - 1];
      } else {
        SpellingIsDense(w[3..], t[1..]);
        assert forall i :: 3 <= i < |w| ==> w[i] == w[3..][i - 3];
      }
    }
  }

  // ---- The decoding

  datatype IdentityError = InvalidBiz

  predicate IsDigits(s: string) {
    forall i :: 0 <= i < |s| ==> '0' <= s[i] <= '9'
  }

  /** An identifier is written in the ten digits only. */
  lemma DigitsIff(s: string)
    ensures IsDigits(s) <==> forall i :: 0 <= i < |s| ==> s[i] in "0123456789"
  {
    forall c: char
      ensures '0' <= c <= '9' <==> c in "0123456789"
    {
      if '0' <= c <= '9' {
        assert "0123456789"[c as int - 0x30] == c;
      }
    }
  }

  function PadChars(n: nat): string {
    if n == 0 then [] else PadChars(n - 1) + ['=']
  }

  // Percent decoding, then trimming.
  function BizText(u: Utf8, value: string): Option<string> {
    match u.decode(PercentDecode(u.encode(Trim(value))))
    case None => None
    case Some(text) => Some(Trim(text))
  }

  // The text with padding to a multiple of four bytes, as bytes.
  function Padded(u: Utf8, text: string): seq<Byte> {
    u.encode(text + PadChars((4 - |u.encode(text)| % 4) % 4))
  }

  function DecodeBiz(u: Utf8, value: string): Result<string, IdentityError> {
    var text := BizText(u, value);
    if text.None? || text.value == [] then Err(InvalidBiz)
    else
      var decoded := Decode(Padded(u, text.value));
      if decoded.None? || u.decode(decoded.value).None? then Err(InvalidBiz)
      else
        var bid := Trim(u.decode(decoded.value).value);
        if bid == [] || !IsDigits(bid) then Err(InvalidBiz) else Ok(bid)
  }

  datatype ArticleIdentity = ArticleIdentity(biz: string, bid: string, bookId: string)

  function IdentityFromBiz(u: Utf8, biz: string): Result<ArticleIdentity, IdentityError> {
    match DecodeBiz(u, biz)
    case Err(error) => Err(error)
    case Ok(bid) => Ok(ArticleIdentity(biz, bid, "MP_WXS_" + bid))
  }

  // `bytes` hold the digits `bid`, possibly between whitespace.
  ghost predicate CarriesDigits(u: Utf8, bytes: seq<Byte>, bid: string) {
    && bid != [] && IsDigits(bid)
    && exists before, after :: AllWhitespace(before) && AllWhitespace(after) && bytes == u.encode(before + bid + after)
  }

  lemma DigitsAreTrimmed(d: string)
    requires IsDigits(d)
    ensures IsTrimmed(d) && IsAscii(d)
  {
  }

  // Some bytes decode and trim to the digits exactly when they carry them.
  lemma TrimmedDigits(u: Utf8, bytes: seq<Byte>, bid: string)
    requires Lawful(u) && bid != [] && IsDigits(bid)
    ensures u.decode(bytes).Some? && Trim(u.decode(bytes).value) == bid <==> CarriesDigits(u, bytes, bid)
  {
    DigitsAreTrimmed(bid);
    if u.decode(bytes).Some? && Trim(u.decode(bytes).value) == bid {
      var s := u.decode(bytes).value;
      var a, b := TrimSplits(s);
      assert bytes == u.encode(a + bid + b);
    }
    if CarriesDigits(u, bytes, bid) {
      var a, b :| AllWhitespace(a) && AllWhitespace(b) && bytes == u.encode(a + bid + b);
      assert u.decode(bytes) == Some(a + bid + b);
      TrimUnique(a, bid, b);
    }
  }

  /**
   * Exactly which values decode to which identifier: those whose repadded text is the Base64
   * text of bytes that carry the digits. Every other value is rejected.
   */
  lemma DecodesExactly(u: Utf8, value: string, bid: string)
    requires Lawful(u)
    ensures DecodeBiz(u, value) == Ok(bid)
       <==> && BizText(u, value).Some? && BizText(u, value).value != []
            && exists bytes :: Padded(u, BizText(u, value).value) == Encode(bytes) && CarriesDigits(u, bytes, bid)
    ensures DecodeBiz(u, value).Ok? ==>
              && DecodeBiz(u, value).value != [] && IsDigits(DecodeBiz(u, value).value)
              && IdentityFromBiz(u, value) == Ok(ArticleIdentity(value, DecodeBiz(u, value).value,
                                                                 "MP_WXS_" + DecodeBiz(u, value).value))
  {
    hide Padded, BizText, Decode, Encode, CarriesDigits, Trim, Lawful, IsDigits;
    var text := BizText(u, value);
    if text.Some? && text.value != [] {
      var padded := Padded(u, text.value);
      if DecodeBiz(u, value) == Ok(bid) {
        var bytes := Decode(padded).value;
        DecodeIffEncoded(padded, bytes);
        TrimmedDigits(u, bytes, bid);
      }
      if bytes :| padded == Encode(bytes) && CarriesDigits(u, bytes, bid) {
        CarriedIsDigits(u, bytes, bid);
        DecodeIffEncoded(padded, bytes);
        TrimmedDigits(u, bytes, bid);
      }
    }
  }

  lemma CarriedIsDigits(u: Utf8, bytes: seq<Byte>, bid: string)
    requires CarriesDigits(u, bytes, bid)
    ensures bid != [] && IsDigits(bid)
  {
  }

  // ---- Every accepted spelling of every identifier

  // The Base64 text of a string of ASCII characters.
  function Base64Text(d: string): (t: string)
    requires IsAscii(d)
    ensures |t| % 4 == 0 && PaddingOf(|d|) <= |t| && (d != [] ==> |t| >= 4)
  {
    var e := Encode(AsciiBytes(d));
    seq(|e|, i requires 0 <= i < |e| => Letter(e[i]))
  }

  function Letter(b: Byte): char {
    b as char
  }

  lemma Base64TextShape(d: string)
    requires IsAscii(d)
    ensures IsAscii(Base64Text(d)) && AsciiBytes(Base64Text(d)) == Encode(AsciiBytes(d))
    ensures forall i :: 0 <= i < |Base64Text(d)| ==> !IsWhitespace(Base64Text(d)[i])
    ensures PaddingOf(|d|) <= |Base64Text(d)|
    ensures forall i :: |Base64Text(d)| - PaddingOf(|d|) <= i < |Base64Text(d)| ==> Base64Text(d)[i] == '='
  {
    EncodeShape(AsciiBytes(d));
    var e := Encode(AsciiBytes(d));
    forall i | 0 <= i < |e|
      ensures e[i] < 0x80 && !IsWhitespace(Letter(e[i]))
    {
      if i < |e| - PaddingOf(|d|) {
        SymbolIsDense(e[i]);
      }
    }
    assert AsciiBytes(Base64Text(d)) == e;
  }

  lemma SymbolIsDense(b: Byte)
    requires IsSymbol(b)
    ensures b < 0x80 && !IsWhitespace(b as char)
  {
  }

  lemma {:induction false} PadCharsAre(n: nat)
    ensures |PadChars(n)| == n && (forall i :: 0 <= i < n ==> PadChars(n)[i] == '=')
  {
    if n > 0 {
      PadCharsAre(n - 1);
    }
  }

  lemma PaddingReturns(t: string, removed: nat)
    requires removed <= |t| && IsAscii(t) && (forall i :: |t| - removed <= i < |t| ==> t[i] == '=')
    ensures t[..|t| - removed] + PadChars(removed) == t && IsAscii(t[..|t| - removed])
  {
    PadCharsAre(removed);
  }

  lemma PaddedToFour(u: Utf8, t: string, removed: nat)
    requires Lawful(u) && IsAscii(t) && |t| % 4 == 0 && removed < 4 && removed <= |t|
    requires forall i :: |t| - removed <= i < |t| ==> t[i] == '='
    ensures Padded(u, t[..|t| - removed]) == AsciiBytes(t)
  {
    var kept := t[..|t| - removed];
    PaddingReturns(t, removed);
    hide PadChars, IsAscii;
    DecodesAscii(u, kept);
    DecodesAscii(u, t);
    assert |u.encode(kept)| == |t| - removed;
    assert (4 - (|t| - removed) % 4) % 4 == removed;
  }

  // Repadding restores the padding that was removed.
  lemma RepaddingRestores(u: Utf8, d: string, removed: nat)
    requires Lawful(u) && IsAscii(d) && d != [] && removed <= PaddingOf(|d|)
    ensures removed <= |Base64Text(d)|
    ensures Padded(u, Base64Text(d)[..|Base64Text(d)| - removed]) == Encode(AsciiBytes(d))
  {
    var t := Base64Text(d);
    Base64TextShape(d);
    hide *;
    PaddedToFour(u, t, removed);
  }

  // Trimming and percent decoding leave the text that was spelled.
  lemma SpelledText(u: Utf8, w: string, kept: string, before: string, after: string)
    requires Lawful(u) && Spells(w, kept) && IsAscii(kept)
    requires forall i :: 0 <= i < |kept| ==> !IsWhitespace(kept[i])
    requires AllWhitespace(before) && AllWhitespace(after)
    ensures BizText(u, before + w + after) == Some(kept)
  {
    SpellingDecodes(w, kept);
    SpellingIsDense(w, kept);
    TrimUnique(before, w, after);
    TrimOfTrimmed(kept);
    hide PercentDecode, Trim, AsciiBytes, Spells;
    DecodesAscii(u, w);
    DecodesAscii(u, kept);
  }

  /**
   * Decoding undoes every encoding of every identifier: the Base64 text of the digits with any
   * number of its padding characters removed, any characters percent-encoded, between whitespace.
   */
  lemma UndoesEveryEncoding(u: Utf8, d: string, removed: nat, w: string, before: string, after: string)
    requires Lawful(u) && d != [] && IsDigits(d) && removed <= PaddingOf(|d|)
    requires Spells(w, Base64Text(d)[..|Base64Text(d)| - removed])
    requires AllWhitespace(before) && AllWhitespace(after)
    ensures DecodeBiz(u, before + w + after) == Ok(d)
  {
    var kept := Base64Text(d)[..|Base64Text(d)| - removed];
    DigitsAreTrimmed(d);
    Base64TextShape(d);
    assert kept != [];
    hide Encode, Decode, Padded, Base64Text, BizText, Trim, PadChars, AsciiBytes, Spells;
    SpelledText(u, w, kept, before, after);
    RepaddingRestores(u, d, removed);
    DecodeIffEncoded(Encode(AsciiBytes(d)), AsciiBytes(d));
    DecodesAscii(u, d);
    TrimOfTrimmed(d);
  }
}
