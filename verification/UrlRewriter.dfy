/** Rewriting of serialized `src` attributes in sanitized article HTML. */
module UrlRewriter {
  import opened Options
  import opened Text

  // What precedes an attribute value.
  function Marker(): (m: string)
    ensures |m| == 6
  {
    " src=\""
  }

  const QUOTE := '"'

  // ---- Escaping

  function EscapeChar(c: char): string {
    if c == '&' then "&amp;"
    else if c == '<' then "&lt;"
    else if c == '>' then "&gt;"
    else if c == '"' then "&quot;"
    else if c == '\'' then "&#39;"
    else [c]
  }

  function EscapeAttribute(value: string): string {
    if value == [] then [] else EscapeChar(value[0]) + EscapeAttribute(value[1..])
  }

  predicate IsAllowedHtmlCharacter(c: char) {
    var n := c as int;
    n == 0x9 || n == 0xA || n == 0xD || 0x20 <= n <= 0xD7FF || 0xE000 <= n <= 0xFFFD || 0x10000 <= n <= 0x10FFFF
  }

  /** Dropped are the control characters below the space, but for tab and line ends, and two noncharacters. */
  lemma AllowedIff(c: char)
    ensures IsAllowedHtmlCharacter(c) <==> (c < ' ' ==> c in "\t\n\r") && c != '\U{FFFE}' && c != '\U{FFFF}'
  {
  }

  // The sanitizer's escaping of attribute values, which drops characters HTML does not allow.
  function AppendEscaped(value: string): string {
    if value == [] then []
    else if IsAllowedHtmlCharacter(value[0]) then EscapeChar(value[0]) + AppendEscaped(value[1..])
    else AppendEscaped(value[1..])
  }

  lemma {:induction false} EscapedHasNoQuote(value: string)
    ensures QUOTE !in EscapeAttribute(value)
  {
    if value != [] {
      EscapedHasNoQuote(value[1..]);
    }
  }

  // The character references that escaped text is read with, and how many characters each takes.
  function Reference(s: string): (char, nat)
    requires s != []
    ensures 0 < Reference(s).1 <= |s|
  {
    if "&amp;" <= s then ('&', 5)
    else if "&lt;" <= s then ('<', 4)
    else if "&gt;" <= s then ('>', 4)
    else if "&quot;" <= s then ('"', 6)
    else if "&#39;" <= s then ('\'', 5)
    else (s[0], 1)
  }

  function Unescape(s: string): string {
    if s == [] then [] else [Reference(s).0] + Unescape(s[Reference(s).1..])
  }

  /** Reading the escaped text gives the value back. */
  lemma {:induction false} UnescapeInverts(value: string)
    ensures Unescape(EscapeAttribute(value)) == value
  {
    hide Reference, EscapeChar;
    if value != [] {
      var code, rest := EscapeChar(value[0]), EscapeAttribute(value[1..]);
      UnescapeInverts(value[1..]);
      ReferenceOfCode(value[0], rest);
      assert (code + rest)[|code|..] == rest;
      assert value == [value[0]] + value[1..];
    }
  }

  /** Escaped text holds no character that HTML takes for markup. */
  lemma {:induction false} EscapedIsSafe(value: string)
    ensures forall c :: c in EscapeAttribute(value) ==> c != '<' && c != '>' && c != '"' && c != '\''
  {
    if value != [] {
      EscapedIsSafe(value[1..]);
    }
  }

  lemma ReferenceOfCode(c: char, rest: string)
    ensures EscapeChar(c) != [] && Reference(EscapeChar(c) + rest) == (c, |EscapeChar(c)|)
  {
    var s := EscapeChar(c) + rest;
    assert s[0] == EscapeChar(c)[0];
    if c == '&' || c == '<' || c == '>' || c == '"' || c == '\'' {
      assert s[..|EscapeChar(c)|] == EscapeChar(c);
      assert s[1] == EscapeChar(c)[1];
    }
  }

  // The escapes are a prefix code.
  lemma EscapeCharDecides(x: char, s: string, y: char, t: string)
    requires EscapeChar(x) + s == EscapeChar(y) + t
    ensures x == y && s == t
  {
    var whole := EscapeChar(x) + s;
    assert whole[0] == EscapeChar(x)[0] == EscapeChar(y)[0];
    if |EscapeChar(x)| > 1 && |EscapeChar(y)| > 1 {
      assert whole[1] == EscapeChar(x)[1] == EscapeChar(y)[1];
    }
    assert x == y;
    var n := |EscapeChar(x)|;
    assert whole[n..] == s && whole[n..] == t;
  }

  /** Different strings are escaped differently. */
  lemma {:induction false} EscapeInjective(a: string, b: string)
    requires EscapeAttribute(a) == EscapeAttribute(b)
    ensures a == b
  {
    if a != [] && b != [] {
      EscapeCharDecides(a[0], EscapeAttribute(a[1..]), b[0], EscapeAttribute(b[1..]));
      EscapeInjective(a[1..], b[1..]);
      assert a == [a[0]] + a[1..] && b == [b[0]] + b[1..];
    }
  }

  lemma {:induction false} SanitizerEscapesNoMore(value: string)
    ensures |AppendEscaped(value)| <= |EscapeAttribute(value)|
  {
    if value != [] {
      SanitizerEscapesNoMore(value[1..]);
    }
  }

  /** The rewriter's table key is the sanitizer's serialization exactly when no character is dropped. */
  lemma {:induction false} EscapesAgreeIffAllowed(value: string)
    ensures AppendEscaped(value) == EscapeAttribute(value)
       <==> forall i :: 0 <= i < |value| ==> IsAllowedHtmlCharacter(value[i])
  {
    if value != [] {
      var e, rest := EscapeChar(value[0]), value[1..];
      EscapesAgreeIffAllowed(rest);
      SanitizerEscapesNoMore(rest);
      assert |e| >= 1;
      assert (e + AppendEscaped(rest))[|e|..] == AppendEscaped(rest);
      assert (e + EscapeAttribute(rest))[|e|..] == EscapeAttribute(rest);
      assert (forall i :: 0 <= i < |rest| ==> rest[i] == value[i + 1]);
      if forall i :: 0 <= i < |value| ==> IsAllowedHtmlCharacter(value[i]) {
        assert forall i :: 0 <= i < |rest| ==> IsAllowedHtmlCharacter(rest[i]);
      } else if IsAllowedHtmlCharacter(value[0]) {
        var i :| 0 <= i < |value| && !IsAllowedHtmlCharacter(value[i]);
        assert rest[i - 1] == value[i];
      }
    }
  }

  // ---- Scanning

  // The first occurrence of the marker, or |s| when there is none.
  function Find(s: string): (i: nat)
    ensures i <= |s|
  {
    if s == [] || IsPrefixAt(Marker(), s, 0) then 0 else Find(s[1..]) + 1
  }

  lemma {:induction false} FindIsFirst(s: string)
    ensures Find(s) < |s| ==> IsPrefixAt(Marker(), s, Find(s))
    ensures forall k :: 0 <= k < Find(s) ==> !IsPrefixAt(Marker(), s, k)
  {
    hide Marker;
    if s != [] && !IsPrefixAt(Marker(), s, 0) {
      FindIsFirst(s[1..]);
      MarkerShifts(s);
      hide IsPrefixAt;
      forall k | 0 <= k < Find(s)
        ensures !IsPrefixAt(Marker(), s, k)
      {
        if k > 0 {
          assert !IsPrefixAt(Marker(), s[1..], k - 1);
        }
      }
    }
  }

  lemma MarkerShifts(s: string)
    requires s != []
    ensures forall k :: 1 <= k <= |s| ==> (IsPrefixAt(Marker(), s, k) <==> IsPrefixAt(Marker(), s[1..], k - 1))
  {
    var n := 6;
    forall k | 1 <= k <= |s|
      ensures IsPrefixAt(Marker(), s, k) <==> IsPrefixAt(Marker(), s[1..], k - 1)
    {
      if k + n <= |s| {
        SliceShifts(s, k, n);
      }
    }
  }

  lemma SliceShifts(s: string, k: nat, n: nat)
    requires 1 <= k <= k + n <= |s|
    ensures s[k..k + n] == s[1..][k - 1..k - 1 + n]
  {
    var here, there := s[k..k + n], s[1..][k - 1..k - 1 + n];
    forall j | 0 <= j < n
      ensures here[j] == there[j]
    {
      assert s[1..][k - 1 + j] == s[k + j];
    }
  }

  // The bounds of the first attribute value: after the first marker, up to the next quote.
  function NextValue(s: string): (hit: Option<(nat, nat)>)
    ensures hit.Some? ==> 6 <= hit.value.0 <= hit.value.1 < |s|
  {
    var i := Find(s);
    if i == |s| then None
    else
      FindIsFirst(s);
      var start := i + 6;
      var length := IndexOf(s[start..], QUOTE);
      if start + length == |s| then None else Some((start, start + length))
  }

  function ScanValues(s: string): seq<string>
    decreases |s|
  {
    match NextValue(s)
    case None => []
    case Some((start, end)) => [s[start..end]] + ScanValues(s[end + 1..])
  }

  // The text put in place of a value.
  function Replace(f: string -> Option<string>, value: string): string {
    match f(value)
    case None => value
    case Some(target) => EscapeAttribute(target)
  }

  function Rewrite(s: string, f: string -> Option<string>): string
    decreases |s|
  {
    match NextValue(s)
    case None => s
    case Some((start, end)) => s[..start] + Replace(f, s[start..end]) + [QUOTE] + Rewrite(s[end + 1..], f)
  }

  function ReplaceAll(f: string -> Option<string>, values: seq<string>): (replaced: seq<string>)
    ensures |replaced| == |values|
    ensures forall i :: 0 <= i < |values| ==> replaced[i] == Replace(f, values[i])
  {
    if values == [] then [] else [Replace(f, values[0])] + ReplaceAll(f, values[1..])
  }

  // One iteration: what the first value of the text contributes.
  lemma Iteration(rest: string, f: string -> Option<string>, start: nat, end: nat)
    requires NextValue(rest) == Some((start, end))
    ensures ScanValues(rest) == [rest[start..end]] + ScanValues(rest[end + 1..])
    ensures Rewrite(rest, f) == rest[..start] + Replace(f, rest[start..end]) + [QUOTE] + Rewrite(rest[end + 1..], f)
  {
    hide NextValue, Replace;
  }

  lemma NoIteration(s: string, f: string -> Option<string>)
    requires NextValue(s) == None
    ensures Rewrite(s, f) == s && ScanValues(s) == []
  {
    hide NextValue;
  }

  // The rewriting loop; `rest` is the text from the cursor on.
  method RewriteSrcAttributes(html: string, f: string -> Option<string>) returns (output: string)
    ensures output == Rewrite(html, f)
  {
    hide *;
    output := "";
    var rest := html;
    while true
      invariant Rewrite(html, f) == output + Rewrite(rest, f)
      decreases |rest|
    {
      var hit := NextValue(rest);
      if hit.None? {
        NoIteration(rest, f);
        break;
      }
      var (start, end) := hit.value;
      Iteration(rest, f, start, end);
      Reassociate(output, rest[..start], Replace(f, rest[start..end]), [QUOTE], Rewrite(rest[end + 1..], f));
      output := output + rest[..start];
      var target := f(rest[start..end]);
      ReplaceIs(f, rest[start..end]);
      if target.Some? {
        output := output + EscapeAttribute(target.value);
      } else {
        output := output + rest[start..end];
      }
      output := output + [QUOTE];
      rest := rest[end + 1..];
    }
    output := output + rest;
  }

  lemma ReplaceIs(f: string -> Option<string>, value: string)
    ensures Replace(f, value) == if f(value).Some? then EscapeAttribute(f(value).value) else value
  {
  }

  lemma Reassociate(a: string, b: string, c: string, d: string, e: string)
    ensures a + (b + c + d + e) == a + b + c + d + e
  {
  }

  ghost predicate Matches(values: seq<string>, p: string -> bool) {
    exists v :: v in values && p(v)
  }

  lemma MatchesCons(v: string, values: seq<string>, p: string -> bool)
    ensures Matches([v] + values, p) <==> p(v) || Matches(values, p)
  {
    var all := [v] + values;
    assert v in all;
    if Matches(values, p) {
      var w :| w in values && p(w);
      assert w in all;
    }
  }

  // The search loop behind the asset-route tests.
  method HasSrcMatching(html: string, p: string -> bool) returns (has: bool)
    ensures has <==> Matches(ScanValues(html), p)
  {
    var rest := html;
    while true
      invariant Matches(ScanValues(html), p) <==> Matches(ScanValues(rest), p)
      decreases |rest|
    {
      var hit := NextValue(rest);
      hide Find, NextValue, Rewrite, ScanValues;
      if hit.None? {
        NoIteration(rest, v => None);
        return false;
      }
      var (start, end) := hit.value;
      Iteration(rest, v => None, start, end);
      hide Matches;
      MatchesCons(rest[start..end], ScanValues(rest[end + 1..]), p);
      if p(rest[start..end]) {
        return true;
      }
      rest := rest[end + 1..];
    }
  }

  // ---- The laws of rewriting

  // A piece of text up to and including its first marker.
  ghost predicate IsHead(h: string) {
    |h| >= 6 && Find(h) == |h| - 6
  }

  lemma FindIs(s: string, i: nat)
    requires i < |s| && IsPrefixAt(Marker(), s, i) && (forall k :: 0 <= k < i ==> !IsPrefixAt(Marker(), s, k))
    ensures Find(s) == i
  {
    FindIsFirst(s);
  }

  // A marker inside a prefix is a marker of the whole, and the other way round.
  lemma MarkerInPrefix(h: string, t: string, k: nat)
    requires k + 6 <= |h|
    ensures IsPrefixAt(Marker(), h, k) <==> IsPrefixAt(Marker(), h + t, k)
  {
    assert (h + t)[k..k + 6] == h[k..k + 6];
  }

  lemma HeadFinds(h: string, t: string)
    requires IsHead(h)
    ensures Find(h + t) == |h| - 6
  {
    var i := |h| - 6;
    FindIsFirst(h);
    hide Find, Marker;
    forall k | 0 <= k <= i
      ensures IsPrefixAt(Marker(), h, k) <==> IsPrefixAt(Marker(), h + t, k)
    {
      MarkerInPrefix(h, t, k);
    }
    FindIs(h + t, i);
  }

  // A head, a value without quotes and a quote are found again, whatever follows.
  lemma ValueFound(h: string, v: string, rest: string)
    requires IsHead(h) && QUOTE !in v
    ensures var s := h + v + [QUOTE] + rest;
      NextValue(s) == Some((|h|, |h| + |v|)) && s[..|h|] == h && s[|h|..|h| + |v|] == v && s[|h| + |v| + 1..] == rest
  {
    var s, tail := h + v + [QUOTE] + rest, v + [QUOTE] + rest;
    Regroup(h, v, rest);
    assert tail[|v|] == QUOTE;
    IndexOfIs(tail, QUOTE, |v|);
    hide Find, IndexOf, Marker;
    HeadFinds(h, tail);
  }

  lemma Regroup(h: string, v: string, rest: string)
    ensures var s, tail := h + v + [QUOTE] + rest, v + [QUOTE] + rest;
      s == h + tail && s[|h|..] == tail && s[..|h|] == h && s[|h|..|h| + |v|] == v && s[|h| + |v| + 1..] == rest
  {
  }

  // Every hit splits the text this way.
  lemma ValueSplits(s: string) returns (h: string, v: string, rest: string)
    requires NextValue(s).Some?
    ensures s == h + v + [QUOTE] + rest && IsHead(h) && QUOTE !in v
    ensures NextValue(s).value == (|h|, |h| + |v|) && v == s[|h|..|h| + |v|] && rest == s[|h| + |v| + 1..] && h == s[..|h|]
  {
    var (start, end) := NextValue(s).value;
    h, v, rest := s[..start], s[start..end], s[end + 1..];
    assert s[start..][..end - start] == v;
    assert s == h + v + [QUOTE] + rest;
    HeadOf(s, start - 6);
  }

  lemma HeadOf(s: string, i: nat)
    requires i == Find(s) < |s|
    ensures i + 6 <= |s| && IsHead(s[..i + 6])
  {
    FindIsFirst(s);
    var m := i + 6;
    assert m <= |s|;
    hide Find, Marker, IsPrefixAt;
    forall k | 0 <= k <= i
      ensures IsPrefixAt(Marker(), s[..m], k) <==> IsPrefixAt(Marker(), s, k)
    {
      MarkerBelow(s, m, k);
    }
    FindIs(s[..m], i);
  }

  lemma MarkerBelow(s: string, m: nat, k: nat)
    requires k + 6 <= m <= |s|
    ensures IsPrefixAt(Marker(), s[..m], k) <==> IsPrefixAt(Marker(), s, k)
  {
    assert s[..m][k..k + 6] == s[k..k + 6];
  }

  lemma ReplacedHasNoQuote(f: string -> Option<string>, v: string)
    requires QUOTE !in v
    ensures QUOTE !in Replace(f, v)
  {
    if f(v).Some? {
      EscapedHasNoQuote(f(v).value);
    }
  }

  // One step of scanning and rewriting a split text.
  lemma SplitStep(h: string, v: string, rest: string, f: string -> Option<string>)
    requires IsHead(h) && QUOTE !in v
    ensures var s := h + v + [QUOTE] + rest;
      && ScanValues(s) == [v] + ScanValues(rest)
      && Rewrite(s, f) == h + Replace(f, v) + [QUOTE] + Rewrite(rest, f)
  {
    hide Find, NextValue, Marker;
    ValueFound(h, v, rest);
  }

  /** Scanning the rewritten text gives the replaced values, one for one, for every text. */
  lemma {:induction false} ScanOfRewrite(s: string, f: string -> Option<string>)
    ensures ScanValues(Rewrite(s, f)) == ReplaceAll(f, ScanValues(s))
    decreases |s|
  {
    if NextValue(s).Some? {
      var h, v, rest := ValueSplits(s);
      SplitStep(h, v, rest, f);
      ScanOfRewrite(rest, f);
      ReplacedHasNoQuote(f, v);
      SplitStep(h, Replace(f, v), Rewrite(rest, f), f);
    }
  }

  // Replacing by f, then by g.
  function Compose(f: string -> Option<string>, g: string -> Option<string>): string -> Option<string> {
    v => if g(Replace(f, v)).Some? then g(Replace(f, v)) else f(v)
  }

  /** Rewriting twice is rewriting once with the composed replacement, for every text. */
  lemma {:induction false} RewriteComposes(s: string, f: string -> Option<string>, g: string -> Option<string>)
    ensures Rewrite(Rewrite(s, f), g) == Rewrite(s, Compose(f, g))
    decreases |s|
  {
    if NextValue(s).Some? {
      var h, v, rest := ValueSplits(s);
      SplitStep(h, v, rest, f);
      SplitStep(h, v, rest, Compose(f, g));
      RewriteComposes(rest, f, g);
      ReplacedHasNoQuote(f, v);
      SplitStep(h, Replace(f, v), Rewrite(rest, f), g);
    }
  }

  /** A text none of whose values is replaced is left as it is. */
  lemma {:induction false} UnmatchedIsUnchanged(s: string, f: string -> Option<string>)
    requires forall v :: v in ScanValues(s) ==> Replace(f, v) == v
    ensures Rewrite(s, f) == s
    decreases |s|
  {
    if NextValue(s).Some? {
      var h, v, rest := ValueSplits(s);
      SplitStep(h, v, rest, f);
      assert v in ScanValues(s);
      UnmatchedIsUnchanged(rest, f);
    }
  }

  // ---- Serialized documents

  // Sanitized HTML: text between image sources. The last piece of text follows the last source.
  function Serialize(gaps: seq<string>, sources: seq<string>): string
    requires |gaps| == |sources| + 1
  {
    if sources == [] then gaps[0]
    else gaps[0] + Marker() + EscapeAttribute(sources[0]) + [QUOTE] + Serialize(gaps[1..], sources[1..])
  }

  // The same document with its escaped sources replaced.
  function SerializeReplaced(gaps: seq<string>, sources: seq<string>, f: string -> Option<string>): string
    requires |gaps| == |sources| + 1
  {
    if sources == [] then gaps[0]
    else gaps[0] + Marker() + Replace(f, EscapeAttribute(sources[0])) + [QUOTE] + SerializeReplaced(gaps[1..], sources[1..], f)
  }

  // No text reads like the start of a source; the last may, if it does not also close it.
  predicate Aligned(gaps: seq<string>)
    requires gaps != []
  {
    if |gaps| == 1 then NextValue(gaps[0]) == None
    else Find(gaps[0]) == |gaps[0]| && Aligned(gaps[1..])
  }

  // The marker cannot straddle the end of a text and the marker that follows it.
  lemma GapThenMarker(gap: string)
    requires Find(gap) == |gap|
    ensures IsHead(gap + Marker())
  {
    var h := gap + Marker();
    MarkerAtEnd(gap);
    FindIsFirst(gap);
    hide Find, Marker, IsPrefixAt;
    forall k | 0 <= k < |gap|
      ensures !IsPrefixAt(Marker(), h, k)
    {
      if k + 6 <= |gap| {
        MarkerInPrefix(gap, Marker(), k);
      } else {
        NoStraddling(gap, k);
      }
    }
    FindIs(h, |gap|);
  }

  lemma MarkerAtEnd(gap: string)
    ensures IsPrefixAt(Marker(), gap + Marker(), |gap|)
  {
    assert (gap + Marker())[|gap|..|gap| + 6] == Marker();
  }

  lemma NoStraddling(gap: string, k: nat)
    requires k < |gap| < k + 6
    ensures !IsPrefixAt(Marker(), gap + Marker(), k)
  {
    var h, j := gap + Marker(), |gap| - k;
    assert h[|gap|] == ' ';
    MarkerHasOneSpace(j);
    if k + 6 <= |h| {
      assert h[k..k + 6][j] == h[|gap|];
    }
  }

  lemma MarkerHasOneSpace(j: nat)
    requires 0 < j < 6
    ensures Marker()[j] != ' '
  {
  }

  lemma DocumentStep(gap: string, source: string, rest: string, f: string -> Option<string>)
    requires Find(gap) == |gap|
    ensures var s := gap + Marker() + EscapeAttribute(source) + [QUOTE] + rest;
      && ScanValues(s) == [EscapeAttribute(source)] + ScanValues(rest)
      && Rewrite(s, f) == gap + Marker() + Replace(f, EscapeAttribute(source)) + [QUOTE] + Rewrite(rest, f)
  {
    GapThenMarker(gap);
    EscapedHasNoQuote(source);
    SplitStep(gap + Marker(), EscapeAttribute(source), rest, f);
  }

  function EscapeAll(sources: seq<string>): (escaped: seq<string>)
    ensures |escaped| == |sources| && forall i :: 0 <= i < |sources| ==> escaped[i] == EscapeAttribute(sources[i])
  {
    if sources == [] then [] else [EscapeAttribute(sources[0])] + EscapeAll(sources[1..])
  }

  lemma {:induction false} AlignedRewrites(gaps: seq<string>, sources: seq<string>, f: string -> Option<string>)
    requires |gaps| == |sources| + 1 && Aligned(gaps)
    ensures Rewrite(Serialize(gaps, sources), f) == SerializeReplaced(gaps, sources, f)
    ensures ScanValues(Serialize(gaps, sources)) == EscapeAll(sources)
  {
    if sources != [] {
      AlignedRewrites(gaps[1..], sources[1..], f);
      DocumentStep(gaps[0], sources[0], Serialize(gaps[1..], sources[1..]), f);
    }
  }

  lemma StrayIsFirst(gap: string, tail: string)
    requires Find(gap) < |gap|
    ensures Find(gap + tail) == Find(gap) && Find(gap) + 6 <= |gap|
  {
    var i := Find(gap);
    FindIsFirst(gap);
    hide Find, Marker;
    forall k | 0 <= k <= i
      ensures IsPrefixAt(Marker(), gap, k) <==> IsPrefixAt(Marker(), gap + tail, k)
    {
      MarkerInPrefix(gap, tail, k);
    }
    FindIs(gap + tail, i);
  }

  lemma LetterStays(c: char)
    requires c == 'a' || c == 'b'
    ensures EscapeAttribute([c]) == [c]
  {
    assert [c][1..] == [];
  }

  lemma ReplacedBy(f: string -> Option<string>, v: string, c: char)
    requires f(v) == Some([c]) && EscapeAttribute([c]) == [c]
    ensures Replace(f, v) == [c]
  {
    hide EscapeAttribute;
  }

  // Replacing every value by one other character changes the text where the first value starts.
  lemma FirstValueChanges(s: string) returns (c: char)
    requires NextValue(s).Some?
    ensures var a := NextValue(s).value.0;
      var r := Rewrite(s, v => Some([c]));
      a < |s| && a < |r| && r[a] == c && c != s[a]
  {
    var h, v, rest := ValueSplits(s);
    c := if s[|h|] == 'a' then 'b' else 'a';
    var f := (w: string) => Some([c]);
    LetterStays(c);
    hide *;
    SplitStep(h, v, rest, f);
    ReplacedBy(f, v, c);
    assert Rewrite(s, f)[|h|] == c;
  }

  // Unless every text is aligned, some replacement changes the document outside its sources.
  lemma {:induction false} Misaligned(gaps: seq<string>, sources: seq<string>) returns (c: char)
    requires |gaps| == |sources| + 1 && !Aligned(gaps)
    ensures var f := (v: string) => Some([c]);
      Rewrite(Serialize(gaps, sources), f) != SerializeReplaced(gaps, sources, f)
  {
    if sources == [] {
      c := FirstValueChanges(gaps[0]);
    } else if Find(gaps[0]) < |gaps[0]| {
      c := StrayChanges(gaps, sources);
    } else {
      c := Misaligned(gaps[1..], sources[1..]);
      var f := (v: string) => Some([c]);
      DocumentStep(gaps[0], sources[0], Serialize(gaps[1..], sources[1..]), f);
      var head := gaps[0] + Marker() + Replace(f, EscapeAttribute(sources[0])) + [QUOTE];
      SamePrefix(head, Rewrite(Serialize(gaps[1..], sources[1..]), f), SerializeReplaced(gaps[1..], sources[1..], f));
    }
  }

  lemma SamePrefix(head: string, a: string, b: string)
    ensures head + a == head + b <==> a == b
  {
    assert (head + a)[|head|..] == a && (head + b)[|head|..] == b;
  }

  // A text before an image that reads like the start of a source.
  lemma StrayChanges(gaps: seq<string>, sources: seq<string>) returns (c: char)
    requires |gaps| == |sources| + 1 && sources != [] && Find(gaps[0]) < |gaps[0]|
    ensures var f := (v: string) => Some([c]);
      Rewrite(Serialize(gaps, sources), f) != SerializeReplaced(gaps, sources, f)
  {
    var gap := gaps[0];
    var tail := After(EscapeAttribute(sources[0]), Serialize(gaps[1..], sources[1..]));
    SerializedParts(gaps, sources, v => None);
    hide *;
    StrayIsFirst(gap, tail);
    QuoteFollows(gap, tail, Find(gap));
    c := FirstValueChanges(gap + tail);
    var f := (v: string) => Some([c]);
    SerializedParts(gaps, sources, f);
    var after := After(Replace(f, EscapeAttribute(sources[0])), SerializeReplaced(gaps[1..], sources[1..], f));
    SameAtStart(gap, tail, after, NextValue(gap + tail).value.0);
  }

  function After(value: string, rest: string): (s: string)
    ensures |s| >= 6 && s[..6] == Marker()
  {
    var s := Marker() + value + [QUOTE] + rest;
    assert s[..6] == Marker();
    s
  }

  lemma SerializedParts(gaps: seq<string>, sources: seq<string>, f: string -> Option<string>)
    requires |gaps| == |sources| + 1 && sources != []
    ensures Serialize(gaps, sources)
         == gaps[0] + After(EscapeAttribute(sources[0]), Serialize(gaps[1..], sources[1..]))
    ensures SerializeReplaced(gaps, sources, f)
         == gaps[0] + After(Replace(f, EscapeAttribute(sources[0])), SerializeReplaced(gaps[1..], sources[1..], f))
  {
    hide EscapeAttribute, Replace, Marker;
    Reassociate(gaps[0], Marker(), EscapeAttribute(sources[0]), [QUOTE], Serialize(gaps[1..], sources[1..]));
    Reassociate(gaps[0], Marker(), Replace(f, EscapeAttribute(sources[0])), [QUOTE],
                SerializeReplaced(gaps[1..], sources[1..], f));
  }

  lemma SameAtStart(gap: string, a: string, b: string, i: nat)
    requires i <= |gap| && |a| >= 6 && |b| >= 6 && a[..6] == b[..6]
    ensures i < |gap + a| && i < |gap + b| && (gap + a)[i] == (gap + b)[i]
  {
    assert a[0] == a[..6][0] && b[0] == b[..6][0];
  }

  // The marker that follows closes the stray value.
  lemma QuoteFollows(gap: string, tail: string, i: nat)
    requires |tail| >= 6 && tail[..6] == Marker() && i + 6 <= |gap| && Find(gap + tail) == i
    ensures NextValue(gap + tail).Some? && NextValue(gap + tail).value.0 == i + 6
  {
    var s := gap + tail;
    assert s[|gap| + 5] == tail[..6][5] == QUOTE;
    assert s[i + 6..][|gap| + 5 - (i + 6)] == QUOTE;
  }

  /**
   * Rewriting replaces exactly the image sources of a document, for every replacement, if and only if
   * no text before an image contains the marker and the last text holds no complete stray value.
   */
  lemma RewritesExactlyTheSourcesIffAligned(gaps: seq<string>, sources: seq<string>)
    requires |gaps| == |sources| + 1
    ensures Aligned(gaps) <==>
            forall f: string -> Option<string> :: Rewrite(Serialize(gaps, sources), f) == SerializeReplaced(gaps, sources, f)
  {
    if Aligned(gaps) {
      forall f: string -> Option<string>
        ensures Rewrite(Serialize(gaps, sources), f) == SerializeReplaced(gaps, sources, f)
      {
        AlignedRewrites(gaps, sources, f);
      }
    } else {
      var c := Misaligned(gaps, sources);
      var f := (v: string) => Some([c]);
      assert Rewrite(Serialize(gaps, sources), f) != SerializeReplaced(gaps, sources, f);
    }
  }

  // ---- Replacement tables

  // The table of `rewrite_sanitized_html`: escaped source to target, later entries winning.
  function Lookup(table: seq<(string, string)>, value: string): Option<string> {
    if table == [] then None
    else
      var last := table[|table| - 1];
      if EscapeAttribute(last.0) == value then Some(last.1) else Lookup(table[..|table| - 1], value)
  }

  function RewriteSanitizedHtml(html: string, table: seq<(string, string)>): string {
    if table == [] || html == [] then html else Rewrite(html, v => Lookup(table, v))
  }

  lemma {:induction false} LookupFinds(table: seq<(string, string)>, value: string)
    ensures Lookup(table, value).Some? ==>
              exists e :: e in table && EscapeAttribute(e.0) == value && Lookup(table, value).value == e.1
    ensures Lookup(table, value) == None ==> forall e :: e in table ==> EscapeAttribute(e.0) != value
  {
    if table != [] {
      var n := |table| - 1;
      assert table == table[..n] + [table[n]];
      assert table[n] in table;
      hide EscapeAttribute;
      LookupFinds(table[..n], value);
    }
  }

  /**
   * After rewriting, every scanned value is either the escaped target of some table entry or a value
   * that was there before and that no entry covers. It holds for every text.
   */
  lemma RewrittenValues(html: string, table: seq<(string, string)>, w: string)
    requires w in ScanValues(RewriteSanitizedHtml(html, table))
    ensures || (exists e :: e in table && w == EscapeAttribute(e.1))
            || (w in ScanValues(html) && forall e :: e in table ==> EscapeAttribute(e.0) != w)
  {
    if table != [] && html != [] {
      var f := v => Lookup(table, v);
      assert RewriteSanitizedHtml(html, table) == Rewrite(html, f);
      hide *;
      ScanOfRewrite(html, f);
      var before := ScanValues(html);
      var i := ReplacedAt(f, before, w);
      LookupReplaces(table, before[i]);
      assert before[i] in before;
    } else {
      hide Rewrite, NextValue;
      EmptyHasNoValues();
    }
  }

  lemma EmptyHasNoValues()
    ensures ScanValues("") == []
  {
  }

  lemma ReplacedAt(f: string -> Option<string>, values: seq<string>, w: string) returns (i: nat)
    requires w in ReplaceAll(f, values)
    ensures i < |values| && w == Replace(f, values[i])
  {
    i :| 0 <= i < |values| && ReplaceAll(f, values)[i] == w;
  }

  // A replaced value is the target of an entry for it, or stays as it is when there is none.
  lemma LookupReplaces(table: seq<(string, string)>, value: string)
    ensures var w := Replace(v => Lookup(table, v), value);
      || (exists e :: e in table && EscapeAttribute(e.0) == value && w == EscapeAttribute(e.1))
      || (w == value && forall e :: e in table ==> EscapeAttribute(e.0) != value)
  {
    LookupFinds(table, value);
    hide Lookup, EscapeAttribute;
  }

  // ---- Documents whose texts hold stray values

  // Behind its complete stray values a text has no further marker.
  predicate Synced(text: string)
    decreases |text|
  {
    match NextValue(text)
    case None => Find(text) == |text|
    case Some((start, end)) => Synced(text[end + 1..])
  }

  // Absolute URLs have no spaces.
  predicate IsCompact(s: string) {
    ' ' !in s
  }

  // A replacement that leaves values with spaces alone, as one for URLs does.
  ghost predicate LeavesSpaced(f: string -> Option<string>) {
    forall v :: ' ' in v ==> f(v) == None
  }

  // Any texts and attribute values as one document.
  function Assemble(texts: seq<string>, values: seq<string>): string
    requires |texts| == |values| + 1
  {
    if values == [] then texts[0]
    else texts[0] + Marker() + values[0] + [QUOTE] + Assemble(texts[1..], values[1..])
  }

  // What rewriting does to the texts: their complete stray values are replaced like any other.
  function RewriteTexts(texts: seq<string>, f: string -> Option<string>): (r: seq<string>)
    ensures |r| == |texts|
    ensures forall i :: 0 <= i < |texts| ==> r[i] == Rewrite(texts[i], f)
  {
    if texts == [] then [] else [Rewrite(texts[0], f)] + RewriteTexts(texts[1..], f)
  }

  // What rewriting does to the image values: those behind a synced text are replaced, the others are swallowed.
  function RewriteImages(texts: seq<string>, sources: seq<string>, f: string -> Option<string>): (r: seq<string>)
    requires |texts| == |sources| + 1
    ensures |r| == |sources|
    ensures forall i :: 0 <= i < |sources| ==>
              r[i] == if Synced(texts[i]) then Replace(f, EscapeAttribute(sources[i])) else EscapeAttribute(sources[i])
  {
    if sources == [] then []
    else
      var value := EscapeAttribute(sources[0]);
      [if Synced(texts[0]) then Replace(f, value) else value] + RewriteImages(texts[1..], sources[1..], f)
  }

  lemma {:induction false} FindSkips(x: string, t: string)
    requires IsCompact(x)
    ensures Find(x + t) == |x| + Find(t)
  {
    if x == [] {
      assert x + t == t;
    } else {
      assert (x + t)[1..] == x[1..] + t;
      FindSkips(x[1..], t);
      CompactStarts(x, t);
      hide IsPrefixAt, Marker;
    }
  }

  // A marker never starts inside text without spaces.
  lemma CompactStarts(x: string, t: string)
    requires IsCompact(x) && x != []
    ensures !IsPrefixAt(Marker(), x + t, 0)
  {
    assert x[0] in x && (x + t)[0] == x[0];
    assert |x + t| >= 6 ==> (x + t)[0..6][0] == x[0];
  }

  // Text without spaces is passed over.
  lemma CompactIsSkipped(x: string, t: string, f: string -> Option<string>)
    requires IsCompact(x)
    ensures Rewrite(x + t, f) == x + Rewrite(t, f) && ScanValues(x + t) == ScanValues(t)
  {
    hide *;
    if NextValue(t).None? {
      NothingBehind(x, t);
      NoIteration(t, f);
      NoIteration(x + t, f);
    } else {
      var head, value, rest := ValueSplits(t);
      HeadBehind(x, head);
      SplitStep(head, value, rest, f);
      SplitStep(x + head, value, rest, f);
      Reassociate(x, head, value, [QUOTE], rest);
      Reassociate(x, head, Replace(f, value), [QUOTE], Rewrite(rest, f));
    }
  }

  lemma HeadBehind(x: string, head: string)
    requires IsCompact(x) && IsHead(head)
    ensures IsHead(x + head)
  {
    hide Find, IsCompact;
    FindSkips(x, head);
  }

  lemma NothingBehind(x: string, t: string)
    requires IsCompact(x) && NextValue(t) == None
    ensures NextValue(x + t) == None
  {
    FindSkips(x, t);
    FindIsFirst(t);
    var i := Find(t);
    if i < |t| {
      assert (x + t)[|x| + i + 6..] == t[i + 6..];
    }
    hide Find, IndexOf, Marker, IsCompact;
  }

  // ---- One text and the image behind it

  function ImageTail(value: string, rest: string): string {
    Marker() + value + [QUOTE] + rest
  }

  // What one text, its image and the rest of the document become.
  ghost predicate TextAndImage(text: string, source: string, rest: string, f: string -> Option<string>) {
    var value := EscapeAttribute(source);
    var whole := text + ImageTail(value, rest);
    && Rewrite(whole, f)
       == Rewrite(text, f) + ImageTail(if Synced(text) then Replace(f, value) else value, Rewrite(rest, f))
    && (forall v :: IsCompact(v) ==>
          (v in ScanValues(whole) <==> v in ScanValues(text) || (Synced(text) && v == value) || v in ScanValues(rest)))
  }

  // After its last complete value a text either lets the image be found or swallows it.
  lemma LastTextAndImage(text: string, source: string, rest: string, f: string -> Option<string>)
    requires NextValue(text) == None && IsCompact(EscapeAttribute(source)) && LeavesSpaced(f)
    ensures TextAndImage(text, source, rest, f)
  {
    var value := EscapeAttribute(source);
    NoIteration(text, f);
    if Find(text) == |text| {
      DocumentStep(text, source, rest, f);
      ImageRegroups(text, value, rest);
      ImageRegroups(text, Replace(f, value), Rewrite(rest, f));
      hide NextValue, Rewrite, Find, EscapeAttribute, ImageTail, Replace, ScanValues;
    } else {
      Swallowed(text, value, rest, f);
      hide NextValue, Rewrite, Find, EscapeAttribute, ImageTail, Replace, ScanValues;
    }
  }

  lemma ImageRegroups(text: string, value: string, rest: string)
    ensures text + ImageTail(value, rest) == text + Marker() + value + [QUOTE] + rest
  {
    hide Marker;
  }

  lemma Swallowed(text: string, value: string, rest: string, f: string -> Option<string>)
    requires NextValue(text) == None && Find(text) < |text| && IsCompact(value) && LeavesSpaced(f)
    ensures var whole := text + ImageTail(value, rest);
      && Rewrite(whole, f) == text + ImageTail(value, Rewrite(rest, f))
      && (forall v :: IsCompact(v) ==> (v in ScanValues(whole) <==> v in ScanValues(rest)))
  {
    var head, open := OpenValue(text);
    var stray, tail := open + Stem(), value + [QUOTE];
    assert ' ' in stray by { assert Stem()[0] == ' '; assert stray[|open|] == ' '; }
    assert IsCompact(tail);
    assert f(stray) == None;
    SwallowedParts(head, open, value, rest);
    SwallowedParts(head, open, value, Rewrite(rest, f));
    hide IsHead, Rewrite, ScanValues, Stem, ImageTail, LeavesSpaced;
    SplitStep(head, stray, tail + rest, f);
    CompactIsSkipped(tail, rest, f);
  }

  // The marker without its quote.
  function Stem(): (m: string)
    ensures Marker() == m + [QUOTE] && |m| == 5
  {
    " src="
  }

  // A text that opens a value and does not close it.
  lemma OpenValue(text: string) returns (head: string, open: string)
    requires NextValue(text) == None && Find(text) < |text|
    ensures IsHead(head) && QUOTE !in open && text == head + open
  {
    var i := Find(text);
    HeadOf(text, i);
    head, open := text[..i + 6], text[i + 6..];
    hide Find, Marker;
  }

  lemma SwallowedParts(head: string, open: string, value: string, rest: string)
    ensures head + open + ImageTail(value, rest) == head + (open + Stem()) + [QUOTE] + (value + [QUOTE] + rest)
  {
    hide Marker, Stem;
  }

  // With a complete value in front: what holds behind it holds for the whole text.
  lemma ValueThenTextAndImage(head: string, v: string, more: string, source: string, rest: string, f: string -> Option<string>)
    requires IsHead(head) && QUOTE !in v && TextAndImage(more, source, rest, f)
    ensures TextAndImage(head + v + [QUOTE] + more, source, rest, f)
  {
    var value := EscapeAttribute(source);
    var text := head + v + [QUOTE] + more;
    var tail := ImageTail(value, rest);
    SyncedBehind(head, v, more);
    hide IsHead, Rewrite, ScanValues, ImageTail, Synced, EscapeAttribute, Replace, IsCompact;
    SplitStep(head, v, more, f);
    SplitStep(head, v, more + tail, f);
    Reassemble(head, v, more, tail);
    var put := if Synced(text) then Replace(f, value) else value;
    Reassemble(head, Replace(f, v), Rewrite(more, f), ImageTail(put, Rewrite(rest, f)));
  }

  lemma Reassemble(a: string, b: string, c: string, d: string)
    ensures (a + b + [QUOTE] + c) + d == a + b + [QUOTE] + (c + d)
  {
  }

  lemma SyncedBehind(head: string, v: string, more: string)
    requires IsHead(head) && QUOTE !in v
    ensures Synced(head + v + [QUOTE] + more) == Synced(more)
  {
    ValueFound(head, v, more);
    hide NextValue, IsHead;
  }

  lemma {:induction false} EveryTextAndImage(text: string, source: string, rest: string, f: string -> Option<string>)
    requires IsCompact(EscapeAttribute(source)) && LeavesSpaced(f)
    ensures TextAndImage(text, source, rest, f)
    decreases |text|
  {
    hide *;
    if NextValue(text).None? {
      LastTextAndImage(text, source, rest, f);
    } else {
      var head, v, more := ValueSplits(text);
      EveryTextAndImage(more, source, rest, f);
      ValueThenTextAndImage(head, v, more, source, rest, f);
    }
  }

  /**
   * What rewriting makes of any document of compact sources: stray values inside texts are replaced like any
   * other, an image behind a synced text is replaced, and every other image keeps its value.
   */
  lemma {:induction false} DocumentRewrites(texts: seq<string>, sources: seq<string>, f: string -> Option<string>)
    requires |texts| == |sources| + 1 && LeavesSpaced(f)
    requires forall i :: 0 <= i < |sources| ==> IsCompact(EscapeAttribute(sources[i]))
    ensures Rewrite(Serialize(texts, sources), f) == Assemble(RewriteTexts(texts, f), RewriteImages(texts, sources, f))
  {
    if sources == [] {
      assert RewriteTexts(texts, f)[0] == Rewrite(texts[0], f);
    } else {
      var rest := Serialize(texts[1..], sources[1..]);
      DocumentRewrites(texts[1..], sources[1..], f);
      EveryTextAndImage(texts[0], sources[0], rest, f);
      var value := EscapeAttribute(sources[0]);
      hide Rewrite, EscapeAttribute, Replace, Synced, ScanValues;
      ImageRegroups(texts[0], value, rest);
      ImageRegroups(Rewrite(texts[0], f), if Synced(texts[0]) then Replace(f, value) else value, Rewrite(rest, f));
    }
  }

  /** The compact values a scan of such a document lists: those of its texts, and its images behind synced texts. */
  lemma {:induction false} DocumentScans(texts: seq<string>, sources: seq<string>, v: string)
    requires |texts| == |sources| + 1 && IsCompact(v)
    requires forall i :: 0 <= i < |sources| ==> IsCompact(EscapeAttribute(sources[i]))
    ensures v in ScanValues(Serialize(texts, sources)) <==>
              || (exists i :: 0 <= i < |texts| && v in ScanValues(texts[i]))
              || (exists i :: 0 <= i < |sources| && Synced(texts[i]) && v == EscapeAttribute(sources[i]))
  {
    if sources == [] {
      assert v in ScanValues(texts[0]) <==> exists i :: 0 <= i < |texts| && v in ScanValues(texts[i]);
    } else {
      var rest := Serialize(texts[1..], sources[1..]);
      DocumentScans(texts[1..], sources[1..], v);
      EveryTextAndImage(texts[0], sources[0], rest, w => None);
      ImageRegroups(texts[0], EscapeAttribute(sources[0]), rest);
      hide Rewrite, EscapeAttribute, Replace, Synced, ScanValues;
      ExistsShift(texts, sources, v);
    }
  }

  lemma ExistsShift(texts: seq<string>, sources: seq<string>, v: string)
    requires |texts| == |sources| + 1 && sources != []
    ensures (exists i :: 0 <= i < |texts| && v in ScanValues(texts[i])) <==>
              v in ScanValues(texts[0]) || exists i :: 0 <= i < |texts[1..]| && v in ScanValues(texts[1..][i])
    ensures (exists i :: 0 <= i < |sources| && Synced(texts[i]) && v == EscapeAttribute(sources[i])) <==>
              || (Synced(texts[0]) && v == EscapeAttribute(sources[0]))
              || exists i :: 0 <= i < |sources[1..]| && Synced(texts[1..][i]) && v == EscapeAttribute(sources[1..][i])
  {
    hide EscapeAttribute, Synced, ScanValues;
    if i :| 0 <= i < |texts| && v in ScanValues(texts[i]) {
      assert i > 0 ==> texts[1..][i - 1] == texts[i];
    }
    if i :| 0 <= i < |texts[1..]| && v in ScanValues(texts[1..][i]) {
      assert texts[i + 1] == texts[1..][i];
    }
    if i :| 0 <= i < |sources| && Synced(texts[i]) && v == EscapeAttribute(sources[i]) {
      assert i > 0 ==> texts[1..][i - 1] == texts[i] && sources[1..][i - 1] == sources[i];
    }
    if i :| 0 <= i < |sources[1..]| && Synced(texts[1..][i]) && v == EscapeAttribute(sources[1..][i]) {
      assert texts[i + 1] == texts[1..][i] && sources[i + 1] == sources[1..][i];
    }
  }

  /** Given its texts, the image values of a document are determined: a value ends at the next quote. */
  lemma {:induction false} AssembledOnce(texts: seq<string>, a: seq<string>, b: seq<string>)
    requires |texts| == |a| + 1 == |b| + 1 && Assemble(texts, a) == Assemble(texts, b)
    requires forall i :: 0 <= i < |a| ==> QUOTE !in a[i] && QUOTE !in b[i]
    ensures a == b
  {
    if a != [] {
      var ra, rb := Assemble(texts[1..], a[1..]), Assemble(texts[1..], b[1..]);
      ImageRegroups(texts[0], a[0], ra);
      ImageRegroups(texts[0], b[0], rb);
      SameValue(texts[0], a[0], ra, b[0], rb);
      AssembledOnce(texts[1..], a[1..], b[1..]);
      assert a == [a[0]] + a[1..] && b == [b[0]] + b[1..];
    }
  }

  lemma SameValue(text: string, a: string, ra: string, b: string, rb: string)
    requires QUOTE !in a && QUOTE !in b && text + ImageTail(a, ra) == text + ImageTail(b, rb)
    ensures a == b && ra == rb
  {
    var x, y := a + [QUOTE] + ra, b + [QUOTE] + rb;
    TailParts(text, a, ra);
    TailParts(text, b, rb);
    assert x == y;
    IndexOfIs(x, QUOTE, |a|);
    IndexOfIs(y, QUOTE, |b|);
    assert x[..|a|] == a && y[..|b|] == b && x[|a| + 1..] == ra && y[|b| + 1..] == rb;
  }

  lemma TailParts(text: string, v: string, r: string)
    ensures |text| + 6 <= |text + ImageTail(v, r)| && (text + ImageTail(v, r))[|text| + 6..] == v + [QUOTE] + r
  {
    assert ImageTail(v, r) == Marker() + (v + [QUOTE] + r);
    hide Marker;
  }
}
