/** Tracking snippets: the nonce every script tag must carry. Texts are ASCII, where lowering keeps positions. */
module Snippets {
  import opened Splicing
  import opened Text

  /** What opens a tag, the word it must carry, and the character that closes it. */
  datatype Rule = Rule(open: string, word: string, close: char)

  const SCRIPT := Rule("<script", "nonce=", '>')

  /** html.EscapeString. */
  function EscapeChar(c: char): string {
    match c
    case '&' => "&amp;"
    case '\'' => "&#39;"
    case '<' => "&lt;"
    case '>' => "&gt;"
    case '"' => "&#34;"
    case _ => [c]
  }

  function EscapeHtml(s: string): string {
    if s == "" then "" else EscapeChar(s[0]) + EscapeHtml(s[1..])
  }

  function Attribute(nonce: string): string {
    " nonce=\"" + EscapeHtml(nonce) + "\""
  }

  /** The text of a tag whose opening has just been read: up to the next closing character, if there is one. */
  function Tag(rest: string, r: Rule): string {
    var closing := Index(rest, [r.close]);
    if closing >= 0 then rest[..closing] else rest
  }

  predicate Carries(rest: string, r: Rule) {
    Index(Lower(Tag(rest, r)), r.word) != -1
  }

  /** Where the first opening of a tag ends, or -1. */
  function FirstOpening(s: string, open: string): (e: int)
    ensures e == -1 || |open| <= e <= |s|
  {
    var index := Index(Lower(s), open);
    if index < 0 then -1 else index + |open|
  }

  function FirstScript(s: string): int {
    FirstOpening(s, SCRIPT.open)
  }

  predicate LacksNonce(rest: string) {
    !Carries(rest, SCRIPT)
  }

  function Tagged(s: string, attribute: string): string {
    Spliced(s, FirstScript, LacksNonce, attribute)
  }

  lemma SplicedUnfolds(builder: string, s: string, first: string -> int, lacks: string -> bool, addition: string)
    requires Searches(first) && first(s) >= 0
    ensures var end := first(s);
            builder + Spliced(s, first, lacks, addition)
            == (builder + s[..end] + (if lacks(s[end..]) then addition else ""))
               + Spliced(s[end..], first, lacks, addition)
  {
    Reassociate(builder, s[..first(s)], if lacks(s[first(s)..]) then addition else "",
                Spliced(s[first(s)..], first, lacks, addition));
  }

  lemma Reassociate(a: string, b: string, c: string, d: string)
    ensures a + (b + c + d) == (a + b + c) + d
  {
  }

  method Bare(rest: string) returns (bare: bool)
    ensures bare == LacksNonce(rest)
  {
    var tag := rest;
    var closing := Index(tag, ">");
    if closing >= 0 {
      tag := tag[..closing];
    }
    return Index(Lower(tag), SCRIPT.word) == -1;
  }

  method WithNonce(snippet: string, nonce: string) returns (result: string)
    ensures result == if nonce == "" || snippet == "" then snippet else Tagged(snippet, Attribute(nonce))
  {
    if nonce == "" || snippet == "" {
      return snippet;
    }
    var builder := "";
    var remaining := snippet;
    var attribute := Attribute(nonce);
    var end := FirstScript(remaining);
    while end >= 0
      invariant end == FirstScript(remaining) <= |remaining|
      invariant builder + Tagged(remaining, attribute) == Tagged(snippet, attribute)
      decreases |remaining|
    {
      SplicedUnfolds(builder, remaining, FirstScript, LacksNonce, attribute);
      builder := builder + remaining[..end];
      remaining := remaining[end..];
      var bare := Bare(remaining);
      builder := builder + (if bare then attribute else "");
      end := FirstScript(remaining);
    }
    return builder + remaining;
  }

  // ---- Positions ----

  /** A tag opens just before this position. */
  predicate OpensBefore(s: string, e: int, open: string) {
    |open| <= e <= |s| && OccursAt(Lower(s), open, e - |open|)
  }

  lemma OpenRead(s: string, e: int, k: int, open: string)
    requires OpensBefore(s, e, open) && 0 <= k < |open|
    ensures LowerChar(s[e - |open| + k]) == open[k]
  {
    assert Lower(s)[e - |open|..e][k] == Lower(s)[e - |open| + k];
  }

  lemma OpeningsDoNotOverlap(s: string, e: int, f: int, open: string)
    requires StartsUniquely(open) && OpensBefore(s, e, open) && OpensBefore(s, f, open) && e < f
    ensures e <= f - |open|
  {
    if f - |open| < e {
      OpenRead(s, e, f - e, open);
      OpenRead(s, f, 0, open);
    }
  }

  lemma OpensInSuffix(s: string, from: nat, e: int, open: string)
    requires from <= |s|
    ensures OpensBefore(s[from..], e, open) <==> OpensBefore(s, from + e, open) && |open| <= e
  {
    assert Lower(s[from..]) == Lower(s)[from..];
    if |open| <= e <= |s| - from {
      assert Lower(s)[from..][e - |open|..e] == Lower(s)[from + e - |open|..from + e];
    }
  }

  lemma FirstOpeningIsFirst(s: string, open: string)
    ensures FirstOpening(s, open) != -1 ==> OpensBefore(s, FirstOpening(s, open), open)
    ensures forall e :: OpensBefore(s, e, open) ==> FirstOpening(s, open) != -1 && FirstOpening(s, open) <= e
  {
  }

  /** A place where a new search starts: the beginning, or right after an opening. */
  ghost predicate Clean(s: string, from: nat, open: string) {
    from <= |s| && (from == 0 || OpensBefore(s, from, open))
  }

  /** The next opening after a clean place, in the whole text's positions. */
  lemma NextOpening(s: string, from: nat, e: int, open: string)
    requires StartsUniquely(open) && Clean(s, from, open) && OpensBefore(s, e, open) && from < e
    ensures FirstOpening(s[from..], open) != -1 && from + FirstOpening(s[from..], open) <= e
  {
    if from > 0 {
      OpeningsDoNotOverlap(s, from, e, open);
    }
    OpensInSuffix(s, from, e - from, open);
    FirstOpeningIsFirst(s[from..], open);
  }

  /** `at` names the openings after which something is lacking. */
  ghost predicate Names(at: int -> bool, s: string, open: string, lacks: string -> bool) {
    forall e :: at(e) <==> OpensBefore(s, e, open) && lacks(s[e..])
  }

  lemma NoneBefore(s: string, from: nat, upTo: int, open: string, lacks: string -> bool, at: int -> bool)
    requires StartsUniquely(open) && Clean(s, from, open) && Names(at, s, open, lacks) && upTo <= |s|
    requires FirstOpening(s[from..], open) == -1 || upTo < from + FirstOpening(s[from..], open)
    ensures forall e :: from < e <= upTo ==> !at(e)
  {
    forall e | from < e <= upTo ensures !at(e) {
      if OpensBefore(s, e, open) {
        NextOpening(s, from, e, open);
      }
    }
  }

  lemma OpeningFound(s: string, from: nat, open: string)
    requires Clean(s, from, open) && open != "" && FirstOpening(s[from..], open) != -1
    ensures from < from + FirstOpening(s[from..], open) <= |s|
    ensures OpensBefore(s, from + FirstOpening(s[from..], open), open)
  {
    FirstOpeningIsFirst(s[from..], open);
    OpensInSuffix(s, from, FirstOpening(s[from..], open), open);
  }

  lemma StepsFrom(s: string, from: nat, open: string, start: int -> bool, first: string -> int, lacks: string -> bool,
                  at: int -> bool)
    requires StartsUniquely(open) && Clean(s, from, open) && Names(at, s, open, lacks)
    requires first(s[from..]) == FirstOpening(s[from..], open)
    requires forall e :: start(e) <==> 0 <= e && Clean(s, e, open)
    ensures StepsTo(s, from, start, first, lacks, at)
  {
    hide OpensBefore, FirstOpening;
    var n := FirstOpening(s[from..], open);
    if n == -1 {
      NoneBefore(s, from, |s|, open, lacks, at);
    } else {
      OpeningFound(s, from, open);
      NoneBefore(s, from, from + n - 1, open, lacks, at);
      assert Clean(s, from + n, open) && start(from + n);
      assert at(from + n) <==> OpensBefore(s, from + n, open) && lacks(s[from + n..]);
    }
  }

  lemma SplicedAtOpenings(
      s: string, open: string, start: int -> bool, first: string -> int, lacks: string -> bool, at: int -> bool,
      addition: string)
    requires StartsUniquely(open) && Names(at, s, open, lacks)
    requires forall e :: start(e) <==> 0 <= e && Clean(s, e, open)
    requires Searches(first) && forall t :: first(t) == FirstOpening(t, open)
    ensures Spliced(s, first, lacks, addition) == Woven(s, 0, at, addition)
  {
    forall from | 0 <= from <= |s| && start(from) ensures StepsTo(s, from, start, first, lacks, at) {
      StepsFrom(s, from, open, start, first, lacks, at);
    }
    SplicedIsWoven(s, 0, start, first, lacks, at, addition);
    assert s[0..] == s;
  }

  lemma ScriptOpensUniquely()
    ensures StartsUniquely(SCRIPT.open)
  {
  }

  /** The attribute goes in right after every opening of a script tag that carries no nonce, and nowhere else. */
  lemma TaggedExactlyWhereLacking(s: string, at: int -> bool, attribute: string)
    requires Names(at, s, SCRIPT.open, LacksNonce)
    ensures Tagged(s, attribute) == Woven(s, 0, at, attribute)
  {
    ScriptOpensUniquely();
    SplicedAtOpenings(s, SCRIPT.open, e => 0 <= e && Clean(s, e, SCRIPT.open), FirstScript, LacksNonce, at, attribute);
  }
}
