/** The binding block an owner pastes into a SecCheck review, and the test that finds it there again. */
module SecurityBinding {
  import opened Text
  import opened Uuids

  const START := "[APPSTORE-SECURITY-CHECK:v1]"
  const END := "[/APPSTORE-SECURITY-CHECK]"
  const MARK := "[APPSTORE-SECURITY-CHECK"

  /** The 17 fields an owner types, as the content hash sees them. */
  datatype AppInput = AppInput(
    name: string, slug: string, summary: string, description: string, icon: string, gradient: string,
    serviceUrl: string, categoryId: string, tags: seq<string>, screenshots: seq<string>,
    language: string, framework: string, supportsMcp: bool, supportsApi: bool,
    team: string, version: string, visibility: string)

  /** The content hash is not modelled: any function to 64 hexadecimal digits stands for it. */
  ghost predicate IsDigest(digest: AppInput -> string) {
    forall input :: |digest(input)| == 64 && forall i :: 0 <= i < 64 ==> IsHex(digest(input)[i])
  }

  /** One character inside a string as encoding/json writes it. */
  function QuoteChar(c: char): string {
    if c == '"' then "\\\""
    else if c == '\\' then "\\\\"
    else if c == '\n' then "\\n"
    else if c == '\r' then "\\r"
    else if c == '\t' then "\\t"
    else if c == '\U{08}' then "\\b"
    else if c == '\U{0C}' then "\\f"
    else if c < ' ' || c in {'<', '>', '&', '\U{2028}', '\U{2029}'} then "\\u" + Hex(c as nat, 4)
    else [c]
  }

  function QuoteAll(s: string): (r: string)
    ensures |s| <= |r|
  {
    if s == "" then "" else QuoteChar(s[0]) + QuoteAll(s[1..])
  }

  function Quote(s: string): string {
    "\"" + QuoteAll(s) + "\""
  }

  /** The nine lines of the block. */
  function BlockLines(id: Uuid, nonce: Uuid, input: AppInput, digest: AppInput -> string): (lines: seq<string>)
    ensures |lines| == 9
  {
    [START, "app_id=" + FormatUuid(id), "challenge=" + FormatUuid(nonce), "name=" + Quote(input.name),
     "slug=" + Quote(input.slug), "service_url=" + Quote(input.serviceUrl), "version=" + Quote(input.version),
     "content_sha256=" + digest(input), END]
  }

  function BindingText(id: Uuid, nonce: Uuid, input: AppInput, digest: AppInput -> string): string {
    Join(BlockLines(id, nonce, input, digest))
  }

  /** The expected block as the matcher requires it: no carriage return or NUL, and both markers in place. */
  predicate WellFormed(e: string) {
    '\r' !in e && '\0' !in e && START + "\n" <= e && EndsWith(e, "\n" + END)
  }

  predicate EndsWith(s: string, suffix: string) {
    |suffix| <= |s| && s[|s| - |suffix|..] == suffix
  }

  /** The counting part of the match: each marker once on both sides, the block once, as whole lines. */
  predicate MatchBlock(d: string, e: string, mark: string, end: string)
    requires |mark| > 0 && |end| > 0 && |e| > 0
  {
    if Count(d, mark) != 1 || Count(d, end) != 1 then false
    else if Count(e, mark) != 1 || Count(e, end) != 1 then false
    else if Count(d, e) != 1 then false
    else
      var start := Index(d, e);
      start != -1 && (start == 0 || d[start - 1] == '\n') && (start + |e| == |d| || d[start + |e|] == '\n')
  }

  predicate BindingMatches(description: string, expected: string) {
    var d := NormalizeNewlines(description);
    var e := NormalizeNewlines(expected);
    WellFormed(e) && MatchBlock(d, e, MARK, END)
  }

  /** The block stands in the text as whole lines. */
  ghost predicate WholeLinesAt(d: string, e: string, i: int) {
    OccursAt(d, e, i) && (i == 0 || d[i - 1] == '\n') && (i + |e| == |d| || d[i + |e|] == '\n')
  }

  lemma MarkersStartUniquely()
    ensures StartsUniquely(MARK) && StartsUniquely(END)
    ensures START[..|MARK|] == MARK && |MARK| == 24 && |END| == 26 && |START| == 28
  {
  }

  lemma SlashOnlyInEnd()
    ensures END[1] == '/' && forall i :: 0 <= i < |START| ==> START[i] != '/'
  {
  }

  /** A block occurs where its first marker does, and ends where its last one does. */
  ghost predicate Framed(e: string, mark: string, end: string) {
    OccursAt(e, mark, 0) && OccursAt(e, end, |e| - |end|)
  }

  lemma WellFormedIsFramed(e: string)
    requires WellFormed(e)
    ensures Framed(e, MARK, END)
  {
    MarkersStartUniquely();
    PrefixFrames(e, START, MARK);
    SuffixFrames(e, END);
  }

  lemma PrefixFrames(e: string, start: string, mark: string)
    requires start + "\n" <= e && |mark| <= |start| && start[..|mark|] == mark
    ensures OccursAt(e, mark, 0)
  {
    assert e[..|mark|] == (start + "\n")[..|mark|] == start[..|mark|];
  }

  lemma SuffixFrames(e: string, end: string)
    requires EndsWith(e, "\n" + end)
    ensures OccursAt(e, end, |e| - |end|)
  {
    var tail, k := "\n" + end, |e| - |end|;
    assert tail[1..] == end;
    assert e[k - 1..][1..] == e[k..] == e[k..k + |end|];
  }

  lemma FramedOccurrence(d: string, e: string, mark: string, end: string, i: int)
    requires Framed(e, mark, end) && OccursAt(d, e, i)
    ensures OccursAt(d, mark, i) && OccursAt(d, end, i + |e| - |end|)
  {
    Within(d, e, i, mark, 0);
    Within(d, e, i, end, |e| - |end|);
  }

  lemma Within(d: string, e: string, i: int, p: string, j: int)
    requires OccursAt(d, e, i) && OccursAt(e, p, j)
    ensures OccursAt(d, p, i + j)
  {
    var at := i + j;
    forall x | 0 <= x < |p| ensures d[at..at + |p|][x] == p[x] {
      assert e[j..j + |p|][x] == e[j + x] == d[i..i + |e|][j + x] == d[at + x];
    }
    assert d[at..at + |p|] == p;
  }

  /** One marker of each kind on both sides, and the block standing as whole lines. */
  ghost predicate OneWholeBlock(d: string, e: string, mark: string, end: string) {
    && OccursOnce(d, mark) && OccursOnce(d, end) && OccursOnce(e, mark) && OccursOnce(e, end)
    && exists i :: WholeLinesAt(d, e, i)
  }

  lemma CountingFindsOneBlock(d: string, e: string, mark: string, end: string)
    requires StartsUniquely(mark) && StartsUniquely(end) && Framed(e, mark, end)
    ensures |e| > 0 && (MatchBlock(d, e, mark, end) <==> OneWholeBlock(d, e, mark, end))
  {
    CountOne(d, mark);
    CountOne(d, end);
    CountOne(e, mark);
    CountOne(e, end);
    if OccursOnce(d, mark) {
      forall i, j | OccursAt(d, e, i) && OccursAt(d, e, j) ensures i == j {
        FramedOccurrence(d, e, mark, end, i);
        FramedOccurrence(d, e, mark, end, j);
      }
      CountAtMostOne(d, e);
      if i :| WholeLinesAt(d, e, i) {
        assert OccursAt(d, e, i) && Index(d, e) == i;
      }
      assert MatchBlock(d, e, mark, end) ==> WholeLinesAt(d, e, Index(d, e));
    }
  }

  /** What the matcher decides, without counting. */
  lemma MatchMeansOneWholeBlock(description: string, expected: string)
    ensures var d, e := NormalizeNewlines(description), NormalizeNewlines(expected);
            BindingMatches(description, expected) <==> WellFormed(e) && OneWholeBlock(d, e, MARK, END)
  {
    var d, e := NormalizeNewlines(description), NormalizeNewlines(expected);
    MarkersStartUniquely();
    if WellFormed(e) {
      WellFormedIsFramed(e);
      CountingFindsOneBlock(d, e, MARK, END);
    }
  }

  lemma SameBlock(d: string, a: string, b: string, mark: string, end: string)
    requires Framed(a, mark, end) && Framed(b, mark, end)
    requires OneWholeBlock(d, a, mark, end) && OneWholeBlock(d, b, mark, end)
    ensures a == b
  {
    var i :| WholeLinesAt(d, a, i);
    var j :| WholeLinesAt(d, b, j);
    FramedOccurrence(d, a, mark, end, i);
    FramedOccurrence(d, b, mark, end, j);
    var m :| OccursOnlyAt(d, mark, m);
    var n :| OccursOnlyAt(d, end, n);
    assert i == m == j && |a| == |b|;
  }

  /** One review description fits at most one expected block. */
  lemma DescriptionFitsOneBlock(description: string, e1: string, e2: string)
    requires BindingMatches(description, e1) && BindingMatches(description, e2)
    ensures NormalizeNewlines(e1) == NormalizeNewlines(e2)
  {
    var d, a, b := NormalizeNewlines(description), NormalizeNewlines(e1), NormalizeNewlines(e2);
    MatchMeansOneWholeBlock(description, e1);
    MatchMeansOneWholeBlock(description, e2);
    WellFormedIsFramed(a);
    WellFormedIsFramed(b);
    SameBlock(d, a, b, MARK, END);
  }

  // ---- The block of one app ----

  lemma {:induction false} QuoteAllPlain(s: string)
    ensures OneLine(QuoteAll(s))
  {
    if s != "" {
      QuoteAllPlain(s[1..]);
      assert OneLine(QuoteChar(s[0]));
    }
  }

  /** The character a two-character escape stands for by section 7 of RFC 8259. */
  function ShortEscape(c: char): char {
    match c
    case 'b' => '\U{08}'
    case 'f' => '\U{0C}'
    case 'n' => '\n'
    case 'r' => '\r'
    case 't' => '\t'
    case _ => c
  }

  function CodeOf(hex: string): char {
    if HexValue(hex) < 0xD800 then HexValue(hex) as char else '\U{FFFD}'
  }

  /** The inside of a quoted string as a reader of JSON takes it. */
  function Unquoted(q: string): string {
    if q == "" then ""
    else if q[0] != '\\' || |q| == 1 then [q[0]] + Unquoted(q[1..])
    else if q[1] == 'u' && |q| >= 6 then [CodeOf(q[2..6])] + Unquoted(q[6..])
    else [ShortEscape(q[1])] + Unquoted(q[2..])
  }

  lemma UnquotedFirst(c: char, rest: string)
    ensures Unquoted(QuoteChar(c) + rest) == [c] + Unquoted(rest)
  {
    var p := QuoteChar(c);
    assert (p + rest)[|p|..] == rest;
    if |p| == 6 {
      assert (p + rest)[2..6] == Hex(c as nat, 4);
      assert Pow16(2) == 256;
      HexReadsBack(c as nat, 4);
    }
  }

  /** Whatever is quoted is read back. */
  lemma {:induction false} QuotingReadsBack(s: string)
    ensures Unquoted(QuoteAll(s)) == s
  {
    if s != "" {
      QuotingReadsBack(s[1..]);
      UnquotedFirst(s[0], QuoteAll(s[1..]));
    }
  }

  /** `key="..."` lines with the same key and text quote the same value. */
  lemma FieldLineInjective(key: string, s: string, t: string)
    requires key + Quote(s) == key + Quote(t)
    ensures s == t
  {
    hide QuoteAll, Unquoted;
    var a, b := key + Quote(s), key + Quote(t);
    var n := |key| + 1;
    assert a[n..|a| - 1] == QuoteAll(s) && b[n..|b| - 1] == QuoteAll(t);
    QuotingReadsBack(s);
    QuotingReadsBack(t);
  }

  /** No control characters: no line break, carriage return or NUL. */
  ghost predicate OneLine(s: string) {
    forall i :: 0 <= i < |s| ==> s[i] >= ' '
  }

  lemma FieldOneLine(key: string, value: string)
    requires OneLine(key)
    ensures OneLine(key + Quote(value))
  {
    QuoteAllPlain(value);
  }

  lemma TextOneLine(key: string, value: string)
    requires OneLine(key) && OneLine(value)
    ensures OneLine(key + value)
  {
  }

  lemma BlockLinesAreLines(id: Uuid, nonce: Uuid, input: AppInput, digest: AppInput -> string)
    requires IsDigest(digest)
    ensures forall i :: 0 <= i < 9 ==> OneLine(BlockLines(id, nonce, input, digest)[i])
  {
    hide Quote, FormatUuid, OneLine;
    var lines := BlockLines(id, nonce, input, digest);
    FieldOneLine("name=", input.name);
    FieldOneLine("slug=", input.slug);
    FieldOneLine("service_url=", input.serviceUrl);
    FieldOneLine("version=", input.version);
    TextOneLine("app_id=", FormatUuid(id));
    TextOneLine("challenge=", FormatUuid(nonce));
    TextOneLine("content_sha256=", digest(input));
    MarkerLines();
    forall i | 0 <= i < 9 ensures OneLine(lines[i]) {
      if i == 0 {} else if i == 1 {} else if i == 2 {} else if i == 3 {} else if i == 4 {}
      else if i == 5 {} else if i == 6 {} else if i == 7 {} else {}
    }
  }

  lemma MarkerLines()
    ensures OneLine(START) && OneLine(END)
  {
  }

  /** No field can smuggle a line break, a carriage return or a NUL into the block. */
  lemma BlockIsWellFormed(id: Uuid, nonce: Uuid, input: AppInput, digest: AppInput -> string)
    requires IsDigest(digest)
    ensures WellFormed(BindingText(id, nonce, input, digest))
    ensures NormalizeNewlines(BindingText(id, nonce, input, digest)) == BindingText(id, nonce, input, digest)
  {
    hide Quote, FormatUuid;
    var lines := BlockLines(id, nonce, input, digest);
    var e := Join(lines);
    BlockLinesAreLines(id, nonce, input, digest);
    JoinHasNoNew(lines, '\r');
    JoinHasNoNew(lines, '\0');
    assert e == START + "\n" + Join(lines[1..]);
    var front := lines[..8];
    assert lines == front + [END];
    JoinAppend(front, END);
    assert e == Join(front) + ("\n" + END);
    NormalizeWithoutCarriageReturn(e);
  }

  /** Two blocks read the same only for the same app, challenge, hash and quoted fields. */
  lemma BlockDeterminesApp(id1: Uuid, n1: Uuid, c1: AppInput, id2: Uuid, n2: Uuid, c2: AppInput,
                           digest: AppInput -> string)
    requires IsDigest(digest)
    requires BindingText(id1, n1, c1, digest) == BindingText(id2, n2, c2, digest)
    ensures id1 == id2 && n1 == n2 && digest(c1) == digest(c2)
    ensures c1.name == c2.name && c1.slug == c2.slug && c1.serviceUrl == c2.serviceUrl && c1.version == c2.version
  {
    var a, b := BlockLines(id1, n1, c1, digest), BlockLines(id2, n2, c2, digest);
    BlockLinesAreLines(id1, n1, c1, digest);
    BlockLinesAreLines(id2, n2, c2, digest);
    JoinInjective(a, b);
    assert a[1][7..] == FormatUuid(id1) && b[1][7..] == FormatUuid(id2);
    FormatInjective(id1, id2);
    assert a[2][10..] == FormatUuid(n1) && b[2][10..] == FormatUuid(n2);
    FormatInjective(n1, n2);
    assert a[7][15..] == digest(c1) && b[7][15..] == digest(c2);
    FieldLineInjective("name=", c1.name, c2.name) by { assert a[3] == b[3]; }
    FieldLineInjective("slug=", c1.slug, c2.slug) by { assert a[4] == b[4]; }
    FieldLineInjective("service_url=", c1.serviceUrl, c2.serviceUrl) by { assert a[5] == b[5]; }
    FieldLineInjective("version=", c1.version, c2.version) by { assert a[6] == b[6]; }
  }

  /** One review description fits at most one app, challenge, content hash and set of quoted fields. */
  lemma DescriptionFitsOneApp(description: string, id1: Uuid, n1: Uuid, c1: AppInput,
                              id2: Uuid, n2: Uuid, c2: AppInput, digest: AppInput -> string)
    requires IsDigest(digest)
    requires BindingMatches(description, BindingText(id1, n1, c1, digest))
    requires BindingMatches(description, BindingText(id2, n2, c2, digest))
    ensures id1 == id2 && n1 == n2 && digest(c1) == digest(c2)
    ensures c1.name == c2.name && c1.slug == c2.slug && c1.serviceUrl == c2.serviceUrl && c1.version == c2.version
  {
    BlockIsWellFormed(id1, n1, c1, digest);
    BlockIsWellFormed(id2, n2, c2, digest);
    DescriptionFitsOneBlock(description, BindingText(id1, n1, c1, digest), BindingText(id2, n2, c2, digest));
    BlockDeterminesApp(id1, n1, c1, id2, n2, c2, digest);
  }

  // ---- Which apps can be matched at all ----

  /** Characters that no escape contains and that no escape replaces. */
  predicate MarkerChar(c: char) {
    'A' <= c <= 'Z' || c == '-' || c == '/' || c == ']'
  }

  /** A marker: a bracket, then marker characters. */
  ghost predicate IsMarker(p: string) {
    |p| > 1 && p[0] == '[' && forall k :: 0 < k < |p| ==> MarkerChar(p[k])
  }

  lemma MarkersAreMarkers()
    ensures IsMarker(MARK) && IsMarker(END)
  {
  }

  lemma EscapesHoldNoBracket(c: char)
    ensures forall i :: 0 <= i < |QuoteChar(c)| && QuoteChar(c)[i] == '[' ==> c == '['
  {
  }

  lemma {:induction false} QuotedPrefix(s: string, p: string)
    requires forall k :: 0 <= k < |p| ==> QuoteChar(p[k]) == [p[k]]
    ensures p <= QuoteAll(s) <==> p <= s
    decreases |p|
  {
    if p != "" && s != "" {
      var q := QuoteChar(s[0]);
      assert QuoteAll(s)[0] == q[0];
      if q == [s[0]] {
        assert QuoteAll(s)[1..] == QuoteAll(s[1..]);
        QuotedPrefix(s[1..], p[1..]);
        assert p <= s <==> p[0] == s[0] && p[1..] <= s[1..];
        assert p <= QuoteAll(s) <==> p[0] == s[0] && p[1..] <= QuoteAll(s[1..]);
      } else {
        assert q[0] == '\\';
        assert QuoteChar(p[0]) == [p[0]];
        assert p[0] != '\\' && p[0] != s[0];
      }
    }
  }

  lemma OccursInCons(c: string, s: string, p: string)
    requires forall i :: 0 <= i < |c| && OccursAt(c + s, p, i) ==> i == 0
    ensures Occurs(c + s, p) <==> p <= c + s || Occurs(s, p)
  {
    var t := c + s;
    if k :| OccursAt(s, p, k) {
      assert t[|c| + k..|c| + k + |p|] == s[k..k + |p|];
      assert OccursAt(t, p, |c| + k);
    }
    if k :| OccursAt(t, p, k) {
      if k < |c| {
        assert k == 0;
      } else {
        assert t[k..k + |p|] == s[k - |c|..k - |c| + |p|];
        assert OccursAt(s, p, k - |c|);
      }
    }
    if p <= t {
      assert OccursAt(t, p, 0);
    }
  }

  /** Escaping neither hides a marker nor makes one. */
  lemma {:induction false} QuotingKeepsMarkers(s: string, p: string)
    requires IsMarker(p)
    ensures Occurs(QuoteAll(s), p) <==> Occurs(s, p)
  {
    if s != "" {
      var q, rest := QuoteChar(s[0]), QuoteAll(s[1..]);
      EscapesHoldNoBracket(s[0]);
      forall i | 0 <= i < |q| ensures OccursAt(q + rest, p, i) ==> i == 0 {
        assert i + |p| <= |q + rest| ==> (q + rest)[i..i + |p|][0] == q[i];
      }
      OccursInCons(q, rest, p);
      assert [s[0]] + s[1..] == s;
      OccursInCons([s[0]], s[1..], p);
      QuotingKeepsMarkers(s[1..], p);
      assert forall k :: 0 <= k < |p| ==> QuoteChar(p[k]) == [p[k]];
      QuotedPrefix(s, p);
    }
  }

  /** A marker has no line break in it, so it occurs in joined lines where it occurs in one of them. */
  lemma OccurrencesInLines(a: string, b: string, p: string)
    requires IsMarker(p)
    ensures forall k :: OccursAt(a + "\n" + b, p, k) <==> OccursAt(a, p, k) || OccursAt(b, p, k - |a| - 1)
  {
    var s := a + "\n" + b;
    forall k ensures OccursAt(s, p, k) <==> OccursAt(a, p, k) || OccursAt(b, p, k - |a| - 1) {
      if 0 <= k && k + |p| <= |a| {
        assert s[k..k + |p|] == a[k..k + |p|];
      } else if |a| < k && k + |p| <= |s| {
        var j := k - |a| - 1;
        assert b[j..j + |p|] == s[k..k + |p|];
      } else if 0 <= k && k + |p| <= |s| {
        assert s[k..k + |p|][|a| - k] == s[|a|] == '\n';
      }
    }
  }

  lemma OnceInLines(a: string, b: string, p: string)
    requires IsMarker(p)
    ensures Occurs(a + "\n" + b, p) <==> Occurs(a, p) || Occurs(b, p)
    ensures OccursOnce(a, p) ==> (OccursOnce(a + "\n" + b, p) <==> !Occurs(b, p))
    ensures OccursOnce(b, p) ==> (OccursOnce(a + "\n" + b, p) <==> !Occurs(a, p))
  {
    var s := a + "\n" + b;
    OccurrencesInLines(a, b, p);
    if k :| OccursAt(a, p, k) {
      assert OccursAt(s, p, k);
    }
    if k :| OccursAt(b, p, k) {
      assert OccursAt(b, p, (k + |a| + 1) - |a| - 1);
      assert OccursAt(s, p, k + |a| + 1);
    }
    if OccursOnce(a, p) {
      var i :| OccursOnlyAt(a, p, i);
      if !Occurs(b, p) {
        assert OccursOnlyAt(s, p, i);
      } else {
        var j :| OccursAt(b, p, j);
        assert OccursAt(s, p, i) && OccursAt(s, p, j + |a| + 1) && i < j + |a| + 1;
      }
    }
    if OccursOnce(b, p) {
      var j :| OccursOnlyAt(b, p, j);
      assert OccursAt(s, p, j + |a| + 1);
      if !Occurs(a, p) {
        assert OccursOnlyAt(s, p, j + |a| + 1);
      } else {
        var i :| OccursAt(a, p, i);
        assert OccursAt(s, p, i) && i < j + |a| + 1;
      }
    }
  }

  lemma {:induction false} OccursInJoin(lines: seq<string>, p: string)
    requires IsMarker(p)
    ensures Occurs(Join(lines), p) <==> exists i :: 0 <= i < |lines| && Occurs(lines[i], p)
  {
    if |lines| == 0 {
    } else if |lines| == 1 {
      assert lines[0] == Join(lines);
    } else {
      OnceInLines(lines[0], Join(lines[1..]), p);
      OccursInJoin(lines[1..], p);
      if i :| 0 <= i < |lines[1..]| && Occurs(lines[1..][i], p) {
        assert lines[i + 1] == lines[1..][i];
      }
      if i :| 0 <= i < |lines| && Occurs(lines[i], p) {
        if i > 0 {
          assert lines[1..][i - 1] == lines[i];
        }
      }
    }
  }

  lemma OccursInside(before: string, q: string, after: string, p: string, k: int)
    requires 0 <= k && k + |p| <= |q|
    ensures OccursAt(before + q + after, p, |before| + k) <==> OccursAt(q, p, k)
  {
    var s := before + q + after;
    var at := |before| + k;
    assert s[at..at + |p|] == q[k..k + |p|];
  }

  /** Around a marker-free head and a closing quote, a marker occurs only in the middle. */
  lemma OccursBetween(before: string, q: string, p: string)
    requires IsMarker(p) && '[' !in before
    ensures Occurs(before + q + "\"", p) <==> Occurs(q, p)
  {
    var s := before + q + "\"";
    if k :| OccursAt(q, p, k) {
      OccursInside(before, q, "\"", p, k);
    }
    if k :| OccursAt(s, p, k) {
      OccurrenceIsInMiddle(before, q, p, k);
      OccursInside(before, q, "\"", p, k - |before|);
    }
  }

  lemma OccurrenceIsInMiddle(before: string, q: string, p: string, k: int)
    requires IsMarker(p) && '[' !in before && OccursAt(before + q + "\"", p, k)
    ensures |before| <= k && k + |p| <= |before| + |q|
  {
    var s := before + q + "\"";
    assert s[k] == s[k..k + |p|][0] == p[0];
    forall i | 0 <= i < |before| ensures s[i] != '[' {
      assert s[i] == before[i] && before[i] in before;
    }
    var last := k + |p| - 1;
    assert s[last] == s[k..k + |p|][|p| - 1] == p[|p| - 1];
    assert MarkerChar(p[|p| - 1]);
    assert s[|s| - 1] == '"';
  }

  /** A `key="..."` line holds a marker exactly when the quoted value does. */
  lemma OccursInField(key: string, value: string, p: string)
    requires IsMarker(p) && '[' !in key
    ensures Occurs(key + Quote(value), p) <==> Occurs(value, p)
  {
    var q := QuoteAll(value);
    QuotingKeepsMarkers(value, p);
    OccursBetween(key + "\"", q, p);
    Regroup(key, q);
  }

  lemma Regroup(key: string, q: string)
    ensures key + ("\"" + q + "\"") == (key + "\"") + q + "\""
  {
  }

  lemma NoBracketNoMarker(s: string, p: string)
    requires IsMarker(p) && '[' !in s
    ensures !Occurs(s, p)
  {
    forall k ensures !OccursAt(s, p, k) {
      if 0 <= k && k + |p| <= |s| {
        assert s[k..k + |p|][0] == s[k];
      }
    }
  }

  /** One of the quoted fields contains the text. */
  ghost predicate FieldHolds(input: AppInput, p: string) {
    Occurs(input.name, p) || Occurs(input.slug, p) || Occurs(input.serviceUrl, p) || Occurs(input.version, p)
  }

  lemma OccursInSeven(lines: seq<string>, p: string)
    requires IsMarker(p) && |lines| == 7
    requires !Occurs(lines[0], p) && !Occurs(lines[1], p) && !Occurs(lines[6], p)
    ensures Occurs(Join(lines), p)
            <==> Occurs(lines[2], p) || Occurs(lines[3], p) || Occurs(lines[4], p) || Occurs(lines[5], p)
  {
    OccursInJoin(lines, p);
    if i :| 0 <= i < 7 && Occurs(lines[i], p) {
      assert i == 2 || i == 3 || i == 4 || i == 5;
    }
  }

  /** Between its own first and last line the block holds a marker exactly when a quoted field does. */
  lemma BodyHolds(id: Uuid, nonce: Uuid, input: AppInput, digest: AppInput -> string, p: string)
    requires IsMarker(p) && IsDigest(digest)
    ensures Occurs(Join(BlockLines(id, nonce, input, digest)[1..8]), p) <==> FieldHolds(input, p)
  {
    var l0, l1, l6 := "app_id=" + FormatUuid(id), "challenge=" + FormatUuid(nonce), "content_sha256=" + digest(input);
    var l2, l3 := "name=" + Quote(input.name), "slug=" + Quote(input.slug);
    var l4, l5 := "service_url=" + Quote(input.serviceUrl), "version=" + Quote(input.version);
    NoBracketNoMarker(l0, p);
    NoBracketNoMarker(l1, p);
    NoBracketNoMarker(l6, p);
    OccursInField("name=", input.name, p);
    OccursInField("slug=", input.slug, p);
    OccursInField("service_url=", input.serviceUrl, p);
    OccursInField("version=", input.version, p);
    OccursInSeven([l0, l1, l2, l3, l4, l5, l6], p);
    assert BlockLines(id, nonce, input, digest)[1..8] == [l0, l1, l2, l3, l4, l5, l6];
  }

  lemma MarkersApart()
    ensures OccursOnce(START, MARK) && !Occurs(START, END) && OccursOnce(END, END) && !Occurs(END, MARK)
  {
    MarkersStartUniquely();
    SlashOnlyInEnd();
    assert START[0..24] == MARK;
    assert OccursOnlyAt(START, MARK, 0) by {
      forall k | OccursAt(START, MARK, k) ensures k == 0 {
        assert START[k] == START[k..k + 24][0];
      }
    }
    forall k ensures !OccursAt(START, END, k) {
      if 0 <= k && k + 26 <= |START| {
        assert START[k..k + 26][1] == START[k + 1];
      }
    }
    assert END[0..26] == END;
    assert OccursOnlyAt(END, END, 0);
    forall k ensures !OccursAt(END, MARK, k) {
      if 0 <= k && k + 24 <= |END| {
        assert END[k..k + 24][0] == END[k] && END[k..k + 24][1] == END[k + 1];
        assert MARK[0] == END[0] && MARK[1] == START[..24][1] == START[1];
      }
    }
  }

  lemma MarkersInBlock(id: Uuid, nonce: Uuid, input: AppInput, digest: AppInput -> string)
    requires IsDigest(digest)
    ensures OccursOnce(BindingText(id, nonce, input, digest), MARK) <==> !FieldHolds(input, MARK)
    ensures OccursOnce(BindingText(id, nonce, input, digest), END) <==> !FieldHolds(input, END)
  {
    var lines := BlockLines(id, nonce, input, digest);
    var body := lines[1..8];
    MarkersAreMarkers();
    MarkersApart();
    BodyHolds(id, nonce, input, digest, MARK);
    BodyHolds(id, nonce, input, digest, END);
    assert lines[1..] == body + [END];
    JoinAppend(body, END);
    var rest := Join(body) + "\n" + END;
    assert Join(lines) == START + "\n" + rest;
    OnceInLines(Join(body), END, MARK);
    OnceInLines(Join(body), END, END);
    OnceInLines(START, rest, MARK);
    if OccursOnce(rest, END) {
      OnceInLines(START, rest, END);
    } else {
      OnlyFromRest(START, rest, END);
    }
  }

  lemma OnlyFromRest(a: string, b: string, p: string)
    requires IsMarker(p) && !Occurs(a, p)
    ensures OccursOnce(a + "\n" + b, p) ==> OccursOnce(b, p)
  {
    OccurrencesInLines(a, b, p);
    var s := a + "\n" + b;
    if k :| OccursOnlyAt(s, p, k) {
      assert OccursAt(b, p, k - |a| - 1);
      forall j | OccursAt(b, p, j) ensures j == k - |a| - 1 {
        assert OccursAt(b, p, (j + |a| + 1) - |a| - 1);
        assert OccursAt(s, p, j + |a| + 1);
      }
      assert OccursOnlyAt(b, p, k - |a| - 1);
    }
  }

  /** An app's own block, pasted alone, is recognised exactly when no field quoted in it holds a
      marker: an app named after a marker can never be cleared. */
  lemma OwnBlockMatchesExactly(id: Uuid, nonce: Uuid, input: AppInput, digest: AppInput -> string)
    requires IsDigest(digest)
    ensures var e := BindingText(id, nonce, input, digest);
            BindingMatches(e, e) <==> !FieldHolds(input, MARK) && !FieldHolds(input, END)
  {
    var e := BindingText(id, nonce, input, digest);
    BlockIsWellFormed(id, nonce, input, digest);
    MatchMeansOneWholeBlock(e, e);
    MarkersInBlock(id, nonce, input, digest);
    assert e[0..|e|] == e;
    assert WholeLinesAt(e, e, 0);
  }

  /** With a marker in one of those fields, no description whatever matches. */
  lemma MarkerInFieldBlocksEveryReview(description: string, id: Uuid, nonce: Uuid, input: AppInput,
                                       digest: AppInput -> string)
    requires IsDigest(digest)
    requires FieldHolds(input, MARK) || FieldHolds(input, END)
    ensures !BindingMatches(description, BindingText(id, nonce, input, digest))
  {
    BlockIsWellFormed(id, nonce, input, digest);
    MatchMeansOneWholeBlock(description, BindingText(id, nonce, input, digest));
    MarkersInBlock(id, nonce, input, digest);
  }
}
