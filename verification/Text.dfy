/** String operations of the service's text handling: trimming, splitting, searching. */
module Text {
  import opened Options

  // The Unicode White_Space characters.
  predicate IsWhitespace(c: char) {
    var n := c as int;
    || 0x09 <= n <= 0x0D || n == 0x20 || n == 0x85 || n == 0xA0 || n == 0x1680
    || 0x2000 <= n <= 0x200A || n == 0x2028 || n == 0x2029 || n == 0x202F || n == 0x205F || n == 0x3000
  }

  const WHITESPACE := "\U{9}\U{A}\U{B}\U{C}\U{D} \U{85}\U{A0}\U{1680}\U{2000}\U{2001}\U{2002}\U{2003}\U{2004}\U{2005}\U{2006}"
    + "\U{2007}\U{2008}\U{2009}\U{200A}\U{2028}\U{2029}\U{202F}\U{205F}\U{3000}"

  /** The ranges are exactly the listed characters. */
  lemma WhitespaceIff(c: char)
    ensures IsWhitespace(c) <==> c in WHITESPACE
  {
    if IsWhitespace(c) {
      var n := c as int;
      var k := if n <= 0x0D then n - 9 else if n == 0x20 then 5 else if n == 0x85 then 6 else if n == 0xA0 then 7
               else if n == 0x1680 then 8 else if n <= 0x200A then n - 0x2000 + 9 else if n == 0x2028 then 20
               else if n == 0x2029 then 21 else if n == 0x202F then 22 else if n == 0x205F then 23 else 24;
      assert WHITESPACE[k] == c;
    }
  }

  // General category Cc.
  predicate IsControl(c: char) {
    c as int <= 0x1F || 0x7F <= c as int <= 0x9F
  }

  predicate HasControl(s: string) {
    exists i :: 0 <= i < |s| && IsControl(s[i])
  }

  predicate AllWhitespace(s: string) {
    forall i :: 0 <= i < |s| ==> IsWhitespace(s[i])
  }

  function TrimStart(s: string): string {
    if s != [] && IsWhitespace(s[0]) then TrimStart(s[1..]) else s
  }

  function TrimEnd(s: string): string {
    if s != [] && IsWhitespace(s[|s| - 1]) then TrimEnd(s[..|s| - 1]) else s
  }

  function Trim(s: string): string {
    TrimEnd(TrimStart(s))
  }

  // No whitespace at either end.
  predicate IsTrimmed(s: string) {
    s != [] ==> !IsWhitespace(s[0]) && !IsWhitespace(s[|s| - 1])
  }

  lemma {:induction false} TrimStartSplits(s: string) returns (a: string)
    ensures s == a + TrimStart(s) && AllWhitespace(a)
    ensures TrimStart(s) != [] ==> !IsWhitespace(TrimStart(s)[0])
  {
    if s != [] && IsWhitespace(s[0]) {
      var t := TrimStartSplits(s[1..]);
      a := [s[0]] + t;
    } else {
      a := [];
    }
  }

  lemma {:induction false} TrimEndSplits(s: string) returns (b: string)
    ensures s == TrimEnd(s) + b && AllWhitespace(b)
    ensures TrimEnd(s) != [] ==> !IsWhitespace(TrimEnd(s)[|TrimEnd(s)| - 1])
  {
    if s != [] && IsWhitespace(s[|s| - 1]) {
      var t := TrimEndSplits(s[..|s| - 1]);
      b := t + [s[|s| - 1]];
    } else {
      b := [];
    }
  }

  // A string is its trimmed core between two runs of whitespace.
  lemma TrimSplits(s: string) returns (a: string, b: string)
    ensures s == a + Trim(s) + b && AllWhitespace(a) && AllWhitespace(b)
    ensures IsTrimmed(Trim(s))
  {
    a := TrimStartSplits(s);
    b := TrimEndSplits(TrimStart(s));
    if Trim(s) != [] {
      assert Trim(s)[0] == TrimStart(s)[0];
    }
  }

  lemma {:induction false} TrimStartPrefix(a: string, s: string)
    requires AllWhitespace(a)
    ensures TrimStart(a + s) == TrimStart(s)
  {
    if a == [] {
      assert a + s == s;
    } else {
      assert (a + s)[1..] == a[1..] + s;
      TrimStartPrefix(a[1..], s);
    }
  }

  lemma {:induction false} TrimEndSuffix(s: string, b: string)
    requires AllWhitespace(b)
    ensures TrimEnd(s + b) == TrimEnd(s)
  {
    if b == [] {
      assert s + b == s;
    } else {
      assert (s + b)[..|s + b| - 1] == s + b[..|b| - 1];
      TrimEndSuffix(s, b[..|b| - 1]);
    }
  }

  lemma AllWhitespaceTrimsToNothing(a: string)
    requires AllWhitespace(a)
    ensures TrimStart(a) == [] && TrimEnd(a) == [] && Trim(a) == []
  {
    TrimStartPrefix(a, []);
    TrimEndSuffix([], a);
    assert a + [] == a && [] + a == a;
  }

  // The core between two runs of whitespace is what trimming leaves.
  lemma TrimUnique(a: string, s: string, b: string)
    requires AllWhitespace(a) && AllWhitespace(b) && IsTrimmed(s)
    ensures Trim(a + s + b) == s
  {
    assert a + s + b == a + (s + b);
    TrimStartPrefix(a, s + b);
    if s == [] {
      assert s + b == b;
      AllWhitespaceTrimsToNothing(b);
    } else {
      TrimEndSuffix(s, b);
    }
  }

  // Surrounding whitespace does not change what trimming leaves.
  lemma TrimIgnoresPadding(a: string, s: string, b: string)
    requires AllWhitespace(a) && AllWhitespace(b)
    ensures Trim(a + s + b) == Trim(s)
  {
    var p, q := TrimSplits(s);
    assert a + s + b == (a + p) + Trim(s) + (q + b);
    TrimUnique(a + p, Trim(s), q + b);
  }

  lemma TrimOfTrimmed(s: string)
    requires IsTrimmed(s)
    ensures Trim(s) == s
  {
    TrimUnique([], s, []);
    assert [] + s + [] == s;
  }

  // The first index of c, or |s| when c is absent.
  function IndexOf(s: string, c: char): (i: nat)
    ensures i <= |s| && (forall k :: 0 <= k < i ==> s[k] != c) && (i < |s| ==> s[i] == c)
  {
    if s == [] || s[0] == c then 0 else IndexOf(s[1..], c) + 1
  }

  lemma IndexOfIs(s: string, c: char, i: nat)
    requires i <= |s| && (forall k :: 0 <= k < i ==> s[k] != c) && (i < |s| ==> s[i] == c)
    ensures IndexOf(s, c) == i
  {
    if s != [] && s[0] != c {
      IndexOfIs(s[1..], c, i - 1);
    }
  }

  // The pieces of s between occurrences of sep; always at least one piece.
  function Split(s: string, sep: char): (pieces: seq<string>)
    ensures pieces != []
    decreases |s|
  {
    var i := IndexOf(s, sep);
    if i == |s| then [s] else [s[..i]] + Split(s[i + 1..], sep)
  }

  lemma SplitCons(a: string, sep: char, b: string)
    requires sep !in a
    ensures Split(a + [sep] + b, sep) == [a] + Split(b, sep)
  {
    var s := a + [sep] + b;
    assert s[..|a|] == a && s[|a| + 1..] == b;
    IndexOfIs(s, sep, |a|);
  }

  lemma SplitSingle(a: string, sep: char)
    requires sep !in a
    ensures Split(a, sep) == [a]
  {
    assert a[..|a|] == a;
    IndexOfIs(a, sep, |a|);
  }

  lemma {:induction false} SplitHasNoSeparator(s: string, sep: char)
    ensures forall p :: p in Split(s, sep) ==> sep !in p
    decreases |s|
  {
    var i := IndexOf(s, sep);
    if i == |s| {
      assert s[..i] == s;
    } else {
      SplitHasNoSeparator(s[i + 1..], sep);
    }
  }

  // The parts before and after the first sep.
  function SplitOnce(s: string, sep: char): Option<(string, string)> {
    var i := IndexOf(s, sep);
    if i == |s| then None else Some((s[..i], s[i + 1..]))
  }

  lemma SplitOnceAt(a: string, sep: char, b: string)
    requires sep !in a
    ensures SplitOnce(a + [sep] + b, sep) == Some((a, b))
  {
    var s := a + [sep] + b;
    assert s[..|a|] == a && s[|a| + 1..] == b;
    IndexOfIs(s, sep, |a|);
  }

  predicate IsPrefixAt(pattern: string, s: string, i: nat) {
    i + |pattern| <= |s| && s[i..i + |pattern|] == pattern
  }
}
