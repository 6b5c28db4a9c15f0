/** Base64 with the standard alphabet and required canonical padding (sections 3.2, 3.5 and 4 of RFC 4648). */
module Base64 {
  import opened Options

  type Byte = b: nat | b < 0x100

  const PAD: Byte := 0x3D  // '='

  function Symbol(n: nat): Byte
    requires n < 64
  {
    if n < 26 then 0x41 + n          // A-Z
    else if n < 52 then 0x61 + n - 26  // a-z
    else if n < 62 then 0x30 + n - 52  // 0-9
    else if n == 62 then 0x2B        // +
    else 0x2F                        // /
  }

  const ALPHABET := "ABCDEFGHIJKLMNOPQRSTUVWXYZ" + "abcdefghijklmnopqrstuvwxyz" + "0123456789" + "+/"

  /** The symbols are the standard alphabet in its order (section 4 of RFC 4648). */
  lemma SymbolIsListed(n: nat)
    requires n < 64
    ensures Symbol(n) == ALPHABET[n] as int
  {
    var upper, lower, digits := "ABCDEFGHIJKLMNOPQRSTUVWXYZ", "abcdefghijklmnopqrstuvwxyz", "0123456789";
    assert ALPHABET[n] == if n < 26 then upper[n] else if n < 52 then lower[n - 26] else if n < 62 then digits[n - 52] else "+/"[n - 62];
    assert upper[0] == 'A' && lower[0] == 'a' && digits[0] == '0';
  }

  function SymbolValue(c: Byte): Option<nat> {
    if 0x41 <= c <= 0x5A then Some(c - 0x41)
    else if 0x61 <= c <= 0x7A then Some(c - 0x61 + 26)
    else if 0x30 <= c <= 0x39 then Some(c - 0x30 + 52)
    else if c == 0x2B then Some(62)
    else if c == 0x2F then Some(63)
    else None
  }

  lemma SymbolsAreValues(c: Byte, n: nat)
    requires n < 64
    ensures SymbolValue(c) == Some(n) <==> c == Symbol(n)
    ensures Symbol(n) != PAD
  {
  }

  lemma ValuesAreSmall(c: Byte)
    ensures SymbolValue(c).Some? ==> SymbolValue(c).value < 64 && Symbol(SymbolValue(c).value) == c
    ensures SymbolValue(PAD) == None
  {
  }

  // ---- One group of bytes and its four symbols

  function EncodeGroup(g: seq<Byte>): seq<Byte>
    requires 1 <= |g| <= 3
  {
    if |g| == 1 then
      [Symbol(g[0] / 4), Symbol(g[0] % 4 * 16), PAD, PAD]
    else if |g| == 2 then
      [Symbol(g[0] / 4), Symbol(g[0] % 4 * 16 + g[1] / 16), Symbol(g[1] % 16 * 4), PAD]
    else
      [Symbol(g[0] / 4), Symbol(g[0] % 4 * 16 + g[1] / 16), Symbol(g[1] % 16 * 4 + g[2] / 64), Symbol(g[2] % 64)]
  }

  // A full group carries 24 bits.
  function DecodeFull(q: seq<Byte>): Option<seq<Byte>>
    requires |q| == 4
  {
    var a, b, c, d := SymbolValue(q[0]), SymbolValue(q[1]), SymbolValue(q[2]), SymbolValue(q[3]);
    if a.None? || b.None? || c.None? || d.None? then None
    else Join(a.value, b.value, c.value, d.value)
  }

  function Join(a: nat, b: nat, c: nat, d: nat): Option<seq<Byte>> {
    var x, y, z := a * 4 + b / 16, b % 16 * 16 + c / 4, c % 4 * 64 + d;
    if x < 0x100 && y < 0x100 && z < 0x100 then Some([x, y, z]) else None
  }

  // The last group may be padded; unused trailing bits must be zero.
  function DecodeLast(q: seq<Byte>): Option<seq<Byte>>
    requires |q| == 4
  {
    if q[3] != PAD then DecodeFull(q)
    else
      var a, b := SymbolValue(q[0]), SymbolValue(q[1]);
      if a.None? || b.None? then None
      else if q[2] == PAD then
        if b.value % 16 == 0 then Prefix(Join(a.value, b.value, 0, 0), 1) else None
      else
        var c := SymbolValue(q[2]);
        if c.None? || c.value % 4 != 0 then None else Prefix(Join(a.value, b.value, c.value, 0), 2)
  }

  function Prefix(r: Option<seq<Byte>>, n: nat): Option<seq<Byte>>
    requires r.Some? ==> n <= |r.value|
  {
    if r.None? then None else Some(r.value[..n])
  }

  function Encode(bytes: seq<Byte>): (text: seq<Byte>)
    ensures |text| == (|bytes| + 2) / 3 * 4
  {
    if bytes == [] then []
    else if |bytes| <= 3 then EncodeGroup(bytes)
    else EncodeGroup(bytes[..3]) + Encode(bytes[3..])
  }

  function Decode(text: seq<Byte>): Option<seq<Byte>> {
    if text == [] then Some([])
    else if |text| < 4 then None
    else if |text| == 4 then DecodeLast(text)
    else
      var first, rest := DecodeFull(text[..4]), Decode(text[4..]);
      if first.None? || rest.None? then None else Some(first.value + rest.value)
  }

  // ---- Decoding is the exact inverse of encoding

  // Six-bit values and bytes carry the same 24 bits.
  lemma JoinInverse(a: nat, b: nat, c: nat, d: nat, x: Byte, y: Byte, z: Byte)
    requires a < 64 && b < 64 && c < 64 && d < 64
    ensures Join(a, b, c, d) == Some([x, y, z])
       <==> a == x / 4 && b == x % 4 * 16 + y / 16 && c == y % 16 * 4 + z / 64 && d == z % 64
  {
    var p, q, r := a * 4 + b / 16, b % 16 * 16 + c / 4, c % 4 * 64 + d;
    SplitByte(p, a, b / 16, 4);
    SplitByte(q, b % 16, c / 4, 16);
    SplitByte(r, c % 4, d, 64);
    if p == x && q == y && r == z {
      assert x % 4 == b / 16 && y / 16 == b % 16 && y % 16 == c / 4 && z / 64 == c % 4;
    }
    if a == x / 4 && b == x % 4 * 16 + y / 16 && c == y % 16 * 4 + z / 64 && d == z % 64 {
      SplitByte(b, x % 4, y / 16, 16);
      SplitByte(c, y % 16, z / 64, 4);
    }
    assert [p, q, r] == [x, y, z] <==> p == x && q == y && r == z by {
      if [p, q, r] == [x, y, z] {
        assert [p, q, r][0] == x && [p, q, r][1] == y && [p, q, r][2] == z;
      }
    }
  }

  lemma SplitByte(n: nat, high: nat, low: nat, base: nat)
    requires base == 4 || base == 16 || base == 64
    requires n == high * base + low && low < base
    ensures n / base == high && n % base == low
  {
  }

  lemma FullGroup(q: seq<Byte>, g: seq<Byte>)
    requires |q| == 4 && |g| == 3
    ensures DecodeFull(q) == Some(g) <==> q == EncodeGroup(g)
  {
    SymbolsAreValues(q[0], g[0] / 4);
    SymbolsAreValues(q[1], g[0] % 4 * 16 + g[1] / 16);
    SymbolsAreValues(q[2], g[1] % 16 * 4 + g[2] / 64);
    SymbolsAreValues(q[3], g[2] % 64);
    ValuesAreSmall(q[0]);
    ValuesAreSmall(q[1]);
    ValuesAreSmall(q[2]);
    ValuesAreSmall(q[3]);
    assert g == [g[0], g[1], g[2]] && q == [q[0], q[1], q[2], q[3]];
    var a, b, c, d := SymbolValue(q[0]), SymbolValue(q[1]), SymbolValue(q[2]), SymbolValue(q[3]);
    if a.Some? && b.Some? && c.Some? && d.Some? {
      JoinInverse(a.value, b.value, c.value, d.value, g[0], g[1], g[2]);
    }
    var e := EncodeGroup(g);
    assert q == e <==> q[0] == e[0] && q[1] == e[1] && q[2] == e[2] && q[3] == e[3];
    hide Symbol, SymbolValue, Join;
  }

  lemma FullGroupHasThree(q: seq<Byte>)
    requires |q| == 4
    ensures DecodeFull(q).Some? ==> |DecodeFull(q).value| == 3
  {
  }

  lemma PaddedTwice(q: seq<Byte>, g: seq<Byte>)
    requires |q| == 4 && q[3] == PAD && q[2] == PAD && |g| == 1
    ensures DecodeLast(q) == Some(g) <==> q == EncodeGroup(g)
  {
    SymbolsAreValues(q[0], g[0] / 4);
    SymbolsAreValues(q[1], g[0] % 4 * 16);
    ValuesAreSmall(q[0]);
    ValuesAreSmall(q[1]);
    var a, b := SymbolValue(q[0]), SymbolValue(q[1]);
    assert q == [q[0], q[1], PAD, PAD] && g == [g[0]];
    if a.Some? && b.Some? {
      assert a.value * 4 + b.value / 16 < 0x100;
      assert Join(a.value, b.value, 0, 0).Some? ==> Join(a.value, b.value, 0, 0).value[..1] == [a.value * 4 + b.value / 16];
    }
    var e := EncodeGroup(g);
    assert q == e <==> q[0] == e[0] && q[1] == e[1];
    hide Symbol, SymbolValue;
  }

  lemma PaddedOnce(q: seq<Byte>, g: seq<Byte>)
    requires |q| == 4 && q[3] == PAD && q[2] != PAD && |g| == 2
    ensures DecodeLast(q) == Some(g) <==> q == EncodeGroup(g)
  {
    SymbolsAreValues(q[0], g[0] / 4);
    SymbolsAreValues(q[1], g[0] % 4 * 16 + g[1] / 16);
    SymbolsAreValues(q[2], g[1] % 16 * 4);
    ValuesAreSmall(q[0]);
    ValuesAreSmall(q[1]);
    ValuesAreSmall(q[2]);
    var a, b, c := SymbolValue(q[0]), SymbolValue(q[1]), SymbolValue(q[2]);
    assert q == [q[0], q[1], q[2], PAD] && g == [g[0], g[1]];
    if a.Some? && b.Some? && c.Some? {
      JoinInverse(a.value, b.value, c.value, 0, g[0], g[1], 0);
      var j := Join(a.value, b.value, c.value, 0);
      JoinKeepsTwo(a.value, b.value, c.value, g);
    }
    var e := EncodeGroup(g);
    assert q == e <==> q[0] == e[0] && q[1] == e[1] && q[2] == e[2];
    hide Symbol, SymbolValue, Join;
  }

  lemma JoinKeepsTwo(a: nat, b: nat, c: nat, g: seq<Byte>)
    requires a < 64 && b < 64 && c < 64 && |g| == 2
    ensures Join(a, b, c, 0).Some? && |Join(a, b, c, 0).value| == 3
    ensures c % 4 == 0 ==> (Join(a, b, c, 0).value[..2] == g <==> Join(a, b, c, 0) == Some([g[0], g[1], 0]))
  {
    var j := Join(a, b, c, 0).value;
    assert j == [j[0], j[1], j[2]] && j[..2] == [j[0], j[1]] && g == [g[0], g[1]];
    assert j[2] == c % 4 * 64;
  }

  // The padding fixes how many bytes the last group carries.
  lemma LastGroupLength(q: seq<Byte>)
    requires |q| == 4
    ensures DecodeLast(q).Some? ==> |DecodeLast(q).value| == (if q[3] != PAD then 3 else if q[2] != PAD then 2 else 1)
  {
  }

  lemma EncodedGroupPadding(g: seq<Byte>)
    requires 1 <= |g| <= 3
    ensures EncodeGroup(g)[3] == PAD <==> |g| < 3
    ensures EncodeGroup(g)[2] == PAD <==> |g| == 1
  {
  }

  lemma LastGroup(q: seq<Byte>, g: seq<Byte>)
    requires |q| == 4
    ensures DecodeLast(q) == Some(g) <==> 1 <= |g| <= 3 && q == EncodeGroup(g)
  {
    LastGroupLength(q);
    if 1 <= |g| <= 3 {
      EncodedGroupPadding(g);
    }
    if q[3] != PAD {
      if |g| == 3 {
        FullGroup(q, g);
      }
    } else if q[2] != PAD {
      if |g| == 2 {
        PaddedOnce(q, g);
      }
    } else if |g| == 1 {
      PaddedTwice(q, g);
    }
    hide EncodeGroup, DecodeFull;
  }

  /** A text decodes to some bytes exactly when it is the Base64 text of those bytes. */
  lemma {:induction false} DecodeIffEncoded(text: seq<Byte>, bytes: seq<Byte>)
    ensures Decode(text) == Some(bytes) <==> text == Encode(bytes)
  {
    hide EncodeGroup, DecodeFull, DecodeLast;
    if |text| < 4 {
    } else if |text| == 4 {
      LastGroup(text, bytes);
    } else {
      var first, rest := DecodeFull(text[..4]), Decode(text[4..]);
      FullGroupHasThree(text[..4]);
      if |bytes| > 3 {
        FullGroup(text[..4], bytes[..3]);
        DecodeIffEncoded(text[4..], bytes[3..]);
        assert text == text[..4] + text[4..] && bytes == bytes[..3] + bytes[3..];
        if Decode(text) == Some(bytes) {
          assert first.value == bytes[..3] && rest.value == bytes[3..];
        }
        if text == Encode(bytes) {
          assert text[..4] == EncodeGroup(bytes[..3]) && text[4..] == Encode(bytes[3..]);
        }
      } else if rest.Some? {
        DecodeIffEncoded(text[4..], rest.value);
      }
    }
  }

  // ---- Padding

  // The number of padding symbols in the encoding of n bytes.
  function PaddingOf(n: nat): (p: nat)
    ensures p < 3
  {
    (3 - n % 3) % 3
  }

  predicate IsSymbol(c: Byte) {
    SymbolValue(c).Some?
  }

  // The text is symbols followed by the padding.
  lemma {:induction false} EncodeShape(bytes: seq<Byte>)
    ensures PaddingOf(|bytes|) <= |Encode(bytes)|
    ensures forall i :: 0 <= i < |Encode(bytes)| - PaddingOf(|bytes|) ==> IsSymbol(Encode(bytes)[i])
    ensures forall i :: |Encode(bytes)| - PaddingOf(|bytes|) <= i < |Encode(bytes)| ==> Encode(bytes)[i] == PAD
  {
    hide Symbol, SymbolValue;
    if |bytes| > 3 {
      GroupShape(bytes[..3]);
      EncodeShape(bytes[3..]);
    } else if |bytes| > 0 {
      GroupShape(bytes);
    }
  }

  lemma GroupShape(g: seq<Byte>)
    requires 1 <= |g| <= 3
    ensures |EncodeGroup(g)| == 4
    ensures forall i :: 0 <= i < 4 - PaddingOf(|g|) ==> IsSymbol(EncodeGroup(g)[i])
    ensures forall i :: 4 - PaddingOf(|g|) <= i < 4 ==> EncodeGroup(g)[i] == PAD
  {
    SymbolsAreSymbols();
    hide Symbol, IsSymbol;
  }

  lemma SymbolsAreSymbols()
    ensures forall n {:trigger Symbol(n)} :: 0 <= n < 64 ==> IsSymbol(Symbol(n))
  {
  }
}
