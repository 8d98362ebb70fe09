/** After tagging every script tag carries a nonce, and tagging again changes nothing. */
module SnippetsProof {
  import opened Text
  import opened Splicing
  import opened Snippets

  /** No opening is followed by a text that lacks something. */
  ghost predicate NothingLacks(s: string, open: string, lacks: string -> bool) {
    forall e :: OpensBefore(s, e, open) ==> !lacks(s[e..])
  }

  ghost predicate NoStart(text: string, open: string)
    requires open != ""
  {
    forall i :: 0 <= i < |text| ==> LowerChar(text[i]) != open[0]
  }

  /** No opening starts after the first one's start and before what follows the addition. */
  lemma NoStartWithin(s: string, end: nat, added: string, after: string, k: nat, open: string)
    requires StartsUniquely(open) && OpensBefore(s, end, open) && NoStart(added, open)
    requires end - |open| < k < end + |added|
    ensures LowerChar((s[..end] + added + after)[k]) != open[0]
  {
    var whole := s[..end] + added + after;
    if k < end {
      OpenRead(s, end, k - (end - |open|), open);
      assert whole[k] == s[k];
    } else {
      assert whole[k] == added[k - end];
    }
  }

  lemma OpensInPrefix(s: string, end: nat, e: int, open: string, rest: string)
    requires end <= |s| && e <= end && OpensBefore(s[..end] + rest, e, open)
    ensures OpensBefore(s, e, open)
  {
    var whole := s[..end] + rest;
    assert Lower(whole)[e - |open|..e] == Lower(s)[e - |open|..e];
  }

  lemma OpeningUpToTheFirst(s: string, end: nat, rest: string, e: int, open: string)
    requires end == FirstOpening(s, open) && OpensBefore(s[..end] + rest, e, open) && e <= end
    ensures e == end
  {
    OpensInPrefix(s, end, e, open, rest);
    FirstOpeningIsFirst(s, open);
  }

  lemma StartsBehind(s: string, end: nat, added: string, after: string, e: int, open: string)
    requires StartsUniquely(open) && OpensBefore(s, end, open) && NoStart(added, open) && e > end
    requires OpensBefore(s[..end] + added + after, e, open)
    ensures end + |added| + |open| <= e <= |s[..end] + added + after|
  {
    hide OccursAt, NoStart;
    OpenRead(s[..end] + added + after, e, 0, open);
    if e - |open| < end + |added| {
      NoStartWithin(s, end, added, after, e - |open|, open);
    }
  }

  lemma OpeningAfterTheFirst(s: string, end: nat, added: string, after: string, e: int, open: string)
    requires StartsUniquely(open) && OpensBefore(s, end, open) && NoStart(added, open) && e > end
    requires OpensBefore(s[..end] + added + after, e, open)
    ensures e >= end + |added| && OpensBefore(after, e - end - |added|, open)
  {
    hide OccursAt, NoStart, StartsUniquely;
    var whole := s[..end] + added + after;
    StartsBehind(s, end, added, after, e, open);
    assert whole[end + |added|..] == after;
    OpensInSuffix(whole, end + |added|, e - end - |added|, open);
  }

  /** In a text that ends with its first opening, continued, the openings are that one and those after it. */
  lemma OpeningsOfJoined(s: string, end: nat, added: string, after: string, e: int, open: string)
    requires StartsUniquely(open) && end == FirstOpening(s, open) && NoStart(added, open)
    requires OpensBefore(s[..end] + added + after, e, open)
    ensures e == end || (e >= end + |added| && OpensBefore(after, e - end - |added|, open))
  {
    if e <= end {
      assert s[..end] + added + after == s[..end] + (added + after);
      OpeningUpToTheFirst(s, end, added + after, e, open);
    } else {
      FirstOpeningIsFirst(s, open);
      OpeningAfterTheFirst(s, end, added, after, e, open);
    }
  }

  /** A text that carries what is wanted still does after further additions. */
  ghost predicate Keeps(t: string, first: string -> int, lacks: string -> bool, addition: string)
    requires Searches(first)
  {
    !lacks(t) ==> !lacks(Spliced(t, first, lacks, addition))
  }

  ghost predicate Fills(t: string, lacks: string -> bool, addition: string) {
    !lacks(addition + t)
  }

  ghost predicate Finds(t: string, open: string, first: string -> int) {
    first(t) == FirstOpening(t, open)
  }

  /** What an addition must be for tagging to work: it starts no tag, what it precedes lacks nothing, and
      further additions do not take away what a text carries. */
  ghost predicate Supplies(addition: string, open: string, first: string -> int, lacks: string -> bool)
    requires open != ""
  {
    && Searches(first) && NoStart(addition, open)
    && (forall t :: Fills(t, lacks, addition))
    && (forall t :: Keeps(t, first, lacks, addition))
    && (forall t :: Finds(t, open, first))
  }

  lemma JoinedLacksNothing(
      s: string, end: nat, added: string, after: string, open: string, lacks: string -> bool)
    requires StartsUniquely(open) && end == FirstOpening(s, open) && NoStart(added, open)
    requires !lacks(added + after) && NothingLacks(after, open, lacks)
    ensures NothingLacks(s[..end] + added + after, open, lacks)
  {
    var whole := s[..end] + added + after;
    forall e | OpensBefore(whole, e, open) ensures !lacks(whole[e..]) {
      OpeningsOfJoined(s, end, added, after, e, open);
      if e == end {
        assert whole[e..] == added + after;
      } else {
        assert whole[e..] == after[e - end - |added|..];
      }
    }
  }

  lemma StepLacksNothing(
      s: string, after: string, open: string, first: string -> int, lacks: string -> bool, addition: string)
    requires StartsUniquely(open) && NoStart(addition, open) && Searches(first)
    requires first(s) == FirstOpening(s, open) >= 0 && after == Spliced(s[first(s)..], first, lacks, addition)
    requires Fills(after, lacks, addition) && Keeps(s[first(s)..], first, lacks, addition)
    requires NothingLacks(after, open, lacks)
    ensures NothingLacks(Spliced(s, first, lacks, addition), open, lacks)
  {
    var end := first(s);
    var added := if lacks(s[end..]) then addition else "";
    assert "" + after == after;
    JoinedLacksNothing(s, end, added, after, open, lacks);
  }

  lemma {:induction false} SplicedLacksNothing(s: string, open: string, first: string -> int, lacks: string -> bool,
                                               addition: string)
    requires StartsUniquely(open) && Supplies(addition, open, first, lacks)
    ensures NothingLacks(Spliced(s, first, lacks, addition), open, lacks)
    decreases |s|
  {
    assert Finds(s, open, first);
    if first(s) < 0 {
      FirstOpeningIsFirst(s, open);
    } else {
      var rest := s[first(s)..];
      SplicedLacksNothing(rest, open, first, lacks, addition);
      assert Keeps(rest, first, lacks, addition);
      assert Fills(Spliced(rest, first, lacks, addition), lacks, addition);
      StepLacksNothing(s, Spliced(rest, first, lacks, addition), open, first, lacks, addition);
    }
  }

  lemma RestLacksNothing(s: string, end: nat, open: string, lacks: string -> bool)
    requires end <= |s| && NothingLacks(s, open, lacks)
    ensures NothingLacks(s[end..], open, lacks)
  {
    forall e | OpensBefore(s[end..], e, open) ensures !lacks(s[end..][e..]) {
      OpensInSuffix(s, end, e, open);
      assert s[end..][e..] == s[end + e..];
    }
  }

  /** A text in which nothing lacks is left alone. */
  lemma {:induction false} NothingToAdd(s: string, open: string, first: string -> int, lacks: string -> bool,
                                        addition: string)
    requires open != "" && Searches(first) && forall t :: Finds(t, open, first)
    requires NothingLacks(s, open, lacks)
    ensures Spliced(s, first, lacks, addition) == s
    decreases |s|
  {
    assert Finds(s, open, first);
    var end := first(s);
    if end >= 0 {
      FirstOpeningIsFirst(s, open);
      assert !lacks(s[end..]);
      RestLacksNothing(s, end, open, lacks);
      NothingToAdd(s[end..], open, first, lacks, addition);
      assert s[..end] + "" + s[end..] == s;
    }
  }

  // ---- The nonce ----

  /** The word stands somewhere before the first closing character. */
  ghost predicate CarriedAt(rest: string, word: string, close: char, p: int) {
    OccursAt(Lower(rest), word, p) && forall i :: 0 <= i < p + |word| ==> rest[i] != close
  }

  ghost predicate CarriesBefore(rest: string, word: string, close: char) {
    exists p :: CarriedAt(rest, word, close, p)
  }

  lemma CloseShows(rest: string, close: char)
    ensures var c := Index(rest, [close]);
            && (c == -1 ==> forall i :: 0 <= i < |rest| ==> rest[i] != close)
            && (c != -1 ==> rest[c] == close && forall i :: 0 <= i < c ==> rest[i] != close)
  {
    var c := Index(rest, [close]);
    if c != -1 {
      assert rest[c..c + 1][0] == rest[c];
    }
    forall i | 0 <= i < |rest| && (c == -1 || i < c) ensures rest[i] != close {
      assert !OccursAt(rest, [close], i);
      assert rest[i..i + 1] == [rest[i]];
    }
  }

  lemma TagIsPrefix(rest: string, r: Rule)
    ensures Tag(rest, r) <= rest && (forall i :: 0 <= i < |Tag(rest, r)| ==> rest[i] != r.close)
    ensures |Tag(rest, r)| < |rest| ==> rest[|Tag(rest, r)|] == r.close
  {
    CloseShows(rest, r.close);
  }

  lemma CarriesMeans(rest: string, r: Rule)
    requires r.word != ""
    ensures Carries(rest, r) <==> CarriesBefore(rest, r.word, r.close)
  {
    var tag := Tag(rest, r);
    TagIsPrefix(rest, r);
    assert Lower(tag) == Lower(rest)[..|tag|];
    var p := Index(Lower(tag), r.word);
    if p != -1 {
      assert Lower(rest)[..|tag|][p..p + |r.word|] == Lower(rest)[p..p + |r.word|];
      assert CarriedAt(rest, r.word, r.close, p);
    }
    if q :| CarriedAt(rest, r.word, r.close, q) {
      assert q + |r.word| <= |tag|;
      assert Lower(rest)[..|tag|][q..q + |r.word|] == Lower(rest)[q..q + |r.word|];
      assert OccursAt(Lower(tag), r.word, q);
    }
  }

  lemma CarriedShift(before: string, rest: string, word: string, close: char, p: int)
    requires CarriedAt(rest, word, close, p) && forall i :: 0 <= i < |before| ==> before[i] != close
    ensures CarriedAt(before + rest, word, close, |before| + p)
  {
    var whole := before + rest;
    assert Lower(whole)[|before| + p..|before| + p + |word|] == Lower(rest)[p..p + |word|];
  }

  lemma CarriedInPrefix(s: string, end: nat, rest: string, word: string, close: char, p: int)
    requires end <= |s| && CarriedAt(s, word, close, p) && p + |word| <= end
    ensures CarriedAt(s[..end] + rest, word, close, p)
  {
    var whole := s[..end] + rest;
    assert Lower(whole)[p..p + |word|] == Lower(s)[p..p + |word|];
  }

  lemma CarriedInSuffix(s: string, end: nat, word: string, close: char, p: int)
    requires end <= |s| && CarriedAt(s, word, close, p) && end <= p
    ensures CarriedAt(s[end..], word, close, p - end)
  {
    assert Lower(s[end..])[p - end..p - end + |word|] == Lower(s)[p..p + |word|];
  }

  lemma CarriedRead(s: string, word: string, close: char, p: int, k: int)
    requires CarriedAt(s, word, close, p) && 0 <= k < |word|
    ensures LowerChar(s[p + k]) == word[k]
  {
    assert Lower(s)[p..p + |word|][k] == Lower(s)[p + k];
  }

  /** The opening's last character is not in the word. */
  ghost predicate EndsOutside(open: string, word: string) {
    open != "" && forall i :: 0 <= i < |word| ==> word[i] != open[|open| - 1]
  }

  /** An opening never ends inside the word when its last character is not in the word. */
  lemma WordIsNotCut(s: string, end: nat, open: string, word: string, close: char, p: int)
    requires OpensBefore(s, end, open) && CarriedAt(s, word, close, p) && EndsOutside(open, word)
    ensures p + |word| <= end || end <= p
  {
    OpenRead(s, end, |open| - 1, open);
    if p < end < p + |word| {
      CarriedRead(s, word, close, p, end - 1 - p);
    }
  }

  lemma WordIsOnOneSide(t: string, open: string, word: string, close: char, p: int)
    requires EndsOutside(open, word) && CarriedAt(t, word, close, p) && FirstOpening(t, open) >= 0
    ensures var end := FirstOpening(t, open);
            p + |word| <= end || (end <= p && CarriedAt(t[end..], word, close, p - end))
  {
    var end := FirstOpening(t, open);
    FirstOpeningIsFirst(t, open);
    WordIsNotCut(t, end, open, word, close, p);
    if p >= end {
      CarriedInSuffix(t, end, word, close, p);
    }
  }

  lemma {:induction false} CarriedKept(
      t: string, p: int, open: string, word: string, close: char, first: string -> int, lacks: string -> bool,
      addition: string)
    requires EndsOutside(open, word) && Searches(first) && forall s :: Finds(s, open, first)
    requires (forall i :: 0 <= i < |addition| ==> addition[i] != close) && CarriedAt(t, word, close, p)
    ensures CarriesBefore(Spliced(t, first, lacks, addition), word, close)
    decreases |t|
  {
    assert Finds(t, open, first);
    var end := first(t);
    if end >= 0 {
      WordIsOnOneSide(t, open, word, close, p);
      if p + |word| > end {
        CarriedKept(t[end..], p - end, open, word, close, first, lacks, addition);
      }
      CarriedInSpliced(t, end, first, lacks, addition, word, close, p);
    }
  }

  lemma CarriedInSpliced(
      t: string, end: nat, first: string -> int, lacks: string -> bool, addition: string, word: string, close: char,
      p: int)
    requires Searches(first) && end == first(t) && CarriedAt(t, word, close, p)
    requires forall i :: 0 <= i < |addition| ==> addition[i] != close
    requires p + |word| <= end || (end <= p && CarriesBefore(Spliced(t[end..], first, lacks, addition), word, close))
    ensures CarriesBefore(Spliced(t, first, lacks, addition), word, close)
  {
    var added := if lacks(t[end..]) then addition else "";
    CarriedInJoined(t, end, added, Spliced(t[end..], first, lacks, addition), word, close, p);
  }

  lemma CarriedInJoined(t: string, end: nat, added: string, after: string, word: string, close: char, p: int)
    requires end <= |t| && CarriedAt(t, word, close, p) && forall i :: 0 <= i < |added| ==> added[i] != close
    requires p + |word| <= end || (end <= p && CarriesBefore(after, word, close))
    ensures CarriesBefore(t[..end] + added + after, word, close)
  {
    if p + |word| <= end {
      CarriedInPrefix(t, end, added + after, word, close, p);
      assert t[..end] + (added + after) == t[..end] + added + after;
    } else {
      var q :| CarriedAt(after, word, close, q);
      CarriedShift(t[..end] + added, after, word, close, q);
    }
  }

  lemma {:induction false} EscapedHasNoBrackets(s: string)
    ensures forall i :: 0 <= i < |EscapeHtml(s)| ==> EscapeHtml(s)[i] !in {'<', '>', '"'}
  {
    if s != "" {
      EscapedHasNoBrackets(s[1..]);
    }
  }

  /** The character a text begins with, to a browser reading character references, and what follows it. */
  function FirstRead(s: string): (char, string)
    requires s != ""
  {
    if s[0] != '&' then (s[0], s[1..])
    else if "&amp;" <= s then ('&', s[5..])
    else if "&#39;" <= s then ('\'', s[5..])
    else if "&#34;" <= s then ('"', s[5..])
    else if "&lt;" <= s then ('<', s[4..])
    else if "&gt;" <= s then ('>', s[4..])
    else ('&', s[1..])
  }

  function Unescaped(s: string): string {
    if s == "" then "" else [FirstRead(s).0] + Unescaped(FirstRead(s).1)
  }

  lemma NotPrefix(l: string, p: string, rest: string, k: nat)
    requires k < |l| && k < |p| && l[k] != p[k]
    ensures !(l <= p + rest)
  {
  }

  lemma EscapedFirst(c: char, rest: string)
    ensures FirstRead(EscapeChar(c) + rest) == (c, rest)
  {
    var p := EscapeChar(c);
    assert p <= p + rest && (p + rest)[|p|..] == rest && (p + rest)[0] == p[0];
    if |p| > 1 && c != '&' {
      NotPrefix("&amp;", p, rest, 1);
      if c == '"' {
        NotPrefix("&#39;", p, rest, 3);
      } else if c != '\'' {
        NotPrefix("&#39;", p, rest, 1);
        NotPrefix("&#34;", p, rest, 1);
      }
      if c == '>' {
        NotPrefix("&lt;", p, rest, 1);
      }
    }
  }

  lemma {:induction false} EscapingReadsBack(s: string)
    ensures Unescaped(EscapeHtml(s)) == s
  {
    if s != "" {
      hide FirstRead, EscapeChar;
      EscapingReadsBack(s[1..]);
      EscapedFirst(s[0], EscapeHtml(s[1..]));
    }
  }

  /** The attribute is the word, then in quotation marks a value that ends at the second one, and that a browser
      reads as the nonce. */
  lemma NonceReadsBack(nonce: string) returns (value: string)
    ensures Attribute(nonce) == " nonce=\"" + value + "\"" && '"' !in value && Unescaped(value) == nonce
  {
    value := EscapeHtml(nonce);
    EscapingReadsBack(nonce);
    EscapedHasNoBrackets(nonce);
  }

  lemma AttributeShape(nonce: string)
    ensures var a := Attribute(nonce);
            && (forall i :: 0 <= i < |a| ==> a[i] != '<' && a[i] != '>')
            && |a| > 7 && a[..7] == " nonce="
  {
    EscapedHasNoBrackets(nonce);
  }

  lemma AttributeFills(nonce: string, t: string)
    ensures Fills(t, LacksNonce, Attribute(nonce))
  {
    var a := Attribute(nonce);
    AttributeShape(nonce);
    var whole := a + t;
    assert forall i :: 0 <= i < 7 ==> whole[i] == a[..7][i];
    assert Lower(whole)[1..7] == "nonce=";
    assert CarriedAt(whole, "nonce=", '>', 1);
    CarriesMeans(whole, SCRIPT);
  }

  lemma AttributeKeeps(nonce: string, t: string)
    ensures Keeps(t, FirstScript, LacksNonce, Attribute(nonce))
  {
    AttributeShape(nonce);
    CarriesMeans(t, SCRIPT);
    CarriesMeans(Tagged(t, Attribute(nonce)), SCRIPT);
    if p :| CarriedAt(t, SCRIPT.word, SCRIPT.close, p) {
      ScriptEndsOutsideWord();
      forall s ensures Finds(s, SCRIPT.open, FirstScript) {
      }
      CarriedKept(t, p, SCRIPT.open, SCRIPT.word, SCRIPT.close, FirstScript, LacksNonce, Attribute(nonce));
    }
  }

  lemma ScriptEndsOutsideWord()
    ensures EndsOutside(SCRIPT.open, SCRIPT.word)
  {
  }

  lemma AttributeSupplies(nonce: string)
    ensures Supplies(Attribute(nonce), SCRIPT.open, FirstScript, LacksNonce)
  {
    AttributeShape(nonce);
    forall t ensures Fills(t, LacksNonce, Attribute(nonce)) {
      AttributeFills(nonce, t);
    }
    forall t ensures Keeps(t, FirstScript, LacksNonce, Attribute(nonce)) {
      AttributeKeeps(nonce, t);
    }
    forall t ensures Finds(t, SCRIPT.open, FirstScript) {
    }
  }

  /** After tagging, every script tag carries a nonce before its next closing bracket; a snippet is left as it
      is exactly when that held already, so tagging twice is tagging once. */
  lemma EveryScriptCarriesANonce(snippet: string, nonce: string)
    ensures NothingLacks(Tagged(snippet, Attribute(nonce)), SCRIPT.open, LacksNonce)
    ensures Tagged(snippet, Attribute(nonce)) == snippet <==> NothingLacks(snippet, SCRIPT.open, LacksNonce)
    ensures Tagged(Tagged(snippet, Attribute(nonce)), Attribute(nonce)) == Tagged(snippet, Attribute(nonce))
  {
    var addition := Attribute(nonce);
    ScriptOpensUniquely();
    AttributeSupplies(nonce);
    SplicedLacksNothing(snippet, SCRIPT.open, FirstScript, LacksNonce, addition);
    NothingToAdd(Tagged(snippet, addition), SCRIPT.open, FirstScript, LacksNonce, addition);
    if NothingLacks(snippet, SCRIPT.open, LacksNonce) {
      NothingToAdd(snippet, SCRIPT.open, FirstScript, LacksNonce, addition);
    }
  }

  /** Where in the tagged snippet the attributes that tagging put in begin. */
  function Inserted(snippet: string, at: int -> bool, nonce: string): seq<nat> {
    Places(snippet, 0, at, |Attribute(nonce)|, 0)
  }

  /** Cutting the inserted attributes out of the tagged snippet gives the snippet back. */
  lemma ErasingGivesTheSnippetBack(snippet: string, at: int -> bool, nonce: string)
    requires Names(at, snippet, SCRIPT.open, LacksNonce)
    ensures var tagged, places := Tagged(snippet, Attribute(nonce)), Inserted(snippet, at, nonce);
            && (forall k :: 0 <= k < |places| ==> OccursAt(tagged, Attribute(nonce), places[k]))
            && Erased(tagged, 0, places, |Attribute(nonce)|) == snippet
  {
    hide Attribute, Woven, Tagged, Erased, Places, Names;
    var addition := Attribute(nonce);
    var woven, places := Woven(snippet, 0, at, addition), Inserted(snippet, at, nonce);
    TaggedExactlyWhereLacking(snippet, at, addition);
    assert "" + woven == woven && snippet[0..] == snippet;
    ErasingUndoesWeaving("", snippet, 0, at, addition);
    forall k | 0 <= k < |places| ensures OccursAt(woven, addition, places[k]) {
      AdditionsStandAtPlaces("", snippet, 0, at, addition, k);
    }
  }
}
