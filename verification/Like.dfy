/** LIKE patterns for catalog search: escaping makes a term match itself and nothing else. */
module Like {

  /** One step of the replacer that neutralises the three LIKE metacharacters. */
  function EscapeChar(c: char): string {
    match c
    case '\\' => "\\\\"
    case '%' => "\\%"
    case '_' => "\\_"
    case _ => [c]
  }

  function EscapeLike(term: string): string {
    if term == "" then "" else EscapeChar(term[0]) + EscapeLike(term[1..])
  }

  function LikePattern(term: string): string {
    "%" + EscapeLike(term) + "%"
  }

  /** PostgreSQL's `s LIKE p ESCAPE '\'`, comparing characters after `fold`: the identity for
      LIKE, a case folding for ILIKE. A pattern that ends in its escape character matches nothing. */
  predicate Matches(s: string, p: string, fold: char -> char)
    decreases |p|
  {
    if p == "" then s == ""
    else if p[0] == '%' then exists k | 0 <= k <= |s| :: Matches(s[k..], p[1..], fold)
    else if p[0] == '_' then s != "" && Matches(s[1..], p[1..], fold)
    else if p[0] == '\\' then |p| >= 2 && s != "" && fold(s[0]) == fold(p[1]) && Matches(s[1..], p[2..], fold)
    else s != "" && fold(s[0]) == fold(p[0]) && Matches(s[1..], p[1..], fold)
  }

  ghost predicate SameFolded(a: string, b: string, fold: char -> char) {
    |a| == |b| && forall i :: 0 <= i < |a| ==> fold(a[i]) == fold(b[i])
  }

  ghost predicate FoundAt(s: string, term: string, fold: char -> char, i: int) {
    0 <= i && i + |term| <= |s| && SameFolded(s[i..i + |term|], term, fold)
  }

  /** The meaning of a search: the term occurs in the text, up to folding. */
  ghost predicate Found(s: string, term: string, fold: char -> char) {
    exists i :: FoundAt(s, term, fold, i)
  }

  lemma SameFoldedCons(s: string, term: string, fold: char -> char)
    requires 0 < |term| <= |s|
    ensures SameFolded(s[..|term|], term, fold)
            <==> fold(s[0]) == fold(term[0]) && SameFolded(s[1..][..|term| - 1], term[1..], fold)
  {
    var a, b := s[..|term|], s[1..][..|term| - 1];
    assert a == [s[0]] + b && term == [term[0]] + term[1..];
    if SameFolded(a, term, fold) {
      forall i | 0 <= i < |b| ensures fold(b[i]) == fold(term[1..][i]) {
        assert a[i + 1] == b[i] && term[i + 1] == term[1..][i];
      }
    }
  }

  /** An escaped term consumes exactly its own text, whatever pattern follows it. */
  lemma {:induction false} EscapedTermIsLiteral(s: string, term: string, rest: string, fold: char -> char)
    ensures Matches(s, EscapeLike(term) + rest, fold)
            <==> |term| <= |s| && SameFolded(s[..|term|], term, fold) && Matches(s[|term|..], rest, fold)
    decreases |term|
  {
    if term == "" {
      assert EscapeLike(term) + rest == rest && s[0..] == s;
    } else {
      var e, tail := EscapeChar(term[0]), EscapeLike(term[1..]) + rest;
      var p := EscapeLike(term) + rest;
      assert p == e + tail;
      EscapedCharIsLiteral(s, term[0], tail, fold);
      if s != "" {
        EscapedTermIsLiteral(s[1..], term[1..], rest, fold);
        if |term| <= |s| {
          assert s[1..][|term| - 1..] == s[|term|..];
          SameFoldedCons(s, term, fold);
        }
      }
    }
  }

  lemma EscapedCharIsLiteral(s: string, c: char, rest: string, fold: char -> char)
    ensures Matches(s, EscapeChar(c) + rest, fold) <==> s != "" && fold(s[0]) == fold(c) && Matches(s[1..], rest, fold)
  {
    var p := EscapeChar(c) + rest;
    assert p[|EscapeChar(c)|..] == rest;
  }

  lemma PercentMatchesAll(s: string, fold: char -> char)
    ensures Matches(s, "%", fold)
  {
    assert Matches(s[|s|..], "%"[1..], fold);
  }

  /** Searching for a term finds exactly the texts that contain it, whatever the term is made of. */
  lemma PatternFindsExactlyTheTerm(s: string, term: string, fold: char -> char)
    ensures Matches(s, LikePattern(term), fold) <==> Found(s, term, fold)
  {
    var rest := EscapeLike(term) + "%";
    assert LikePattern(term)[1..] == rest;
    forall k | 0 <= k <= |s|
      ensures Matches(s[k..], rest, fold) <==> FoundAt(s, term, fold, k)
    {
      EscapedTermIsLiteral(s[k..], term, "%", fold);
      if |term| <= |s| - k {
        PercentMatchesAll(s[k..][|term|..], fold);
        assert s[k..][..|term|] == s[k..k + |term|];
      }
    }
    if Found(s, term, fold) {
      var i :| FoundAt(s, term, fold, i);
      assert Matches(s[i..], rest, fold);
    }
    if Matches(s, LikePattern(term), fold) {
      var k :| 0 <= k <= |s| && Matches(s[k..], LikePattern(term)[1..], fold);
      assert FoundAt(s, term, fold, k);
    }
  }

  predicate IsMeta(c: char) {
    c in {'\\', '%', '_'}
  }

  /** The shortest text a pattern stands for, with `x` for every single-character wildcard. */
  function Sample(p: string): (s: string)
    ensures |s| <= |p|
  {
    if p == "" then ""
    else if p[0] == '%' then Sample(p[1..])
    else if p[0] == '_' then "x" + Sample(p[1..])
    else if p[0] == '\\' && |p| >= 2 then [p[1]] + Sample(p[2..])
    else [p[0]] + Sample(p[1..])
  }

  lemma {:induction false} SampleMatches(p: string, fold: char -> char)
    ensures Matches(Sample(p + "%"), p + "%", fold)
    decreases |p|
  {
    var q := p + "%";
    var s := Sample(q);
    if p == "" {
      PercentMatchesAll(s, fold);
      assert q == "%";
    } else if p[0] == '\\' {
      if |p| == 1 {
        assert q == "\\%" && q[2..] == "" && s == "%" + Sample("");
        assert s[1..] == "";
      } else {
        assert q[2..] == p[2..] + "%" && q[1] == p[1];
        SampleMatches(p[2..], fold);
        assert s[1..] == Sample(q[2..]);
      }
    } else {
      assert q[1..] == p[1..] + "%";
      SampleMatches(p[1..], fold);
      if p[0] == '%' {
        assert s[0..] == s;
      } else {
        assert s[1..] == Sample(q[1..]);
      }
    }
  }

  lemma {:induction false} SampleDiffers(p: string)
    ensures |Sample(p + "%")| <= |p|
    ensures (exists i :: 0 <= i < |p| && IsMeta(p[i])) ==> Sample(p + "%") != p
    decreases |p|
  {
    var q := p + "%";
    var s := Sample(q);
    if p == "" {
      assert q[1..] == "";
    } else if p[0] == '\\' {
      if |p| == 1 {
        assert q == "\\%" && q[2..] == "";
      } else {
        assert q[2..] == p[2..] + "%";
        SampleDiffers(p[2..]);
      }
    } else {
      assert q[1..] == p[1..] + "%";
      SampleDiffers(p[1..]);
      if p[0] != '%' && p[0] != '_' && s == p {
        assert s[1..] == Sample(q[1..]) && p[1..] == s[1..];
        forall i | 0 <= i < |p| ensures !IsMeta(p[i]) {
          if i > 0 {
            assert p[1..][i - 1] == p[i];
          }
        }
      }
      if p[0] == '_' {
        assert s[0] == 'x';
      }
    }
  }

  lemma {:induction false} PlainTermNeedsNoEscape(term: string)
    requires forall i :: 0 <= i < |term| ==> !IsMeta(term[i])
    ensures EscapeLike(term) == term
  {
    if term != "" {
      assert !IsMeta(term[0]);
      PlainTermNeedsNoEscape(term[1..]);
    }
  }

  /** A term with a metacharacter, left unescaped, matches some text that does not contain it. */
  lemma {:induction false} UnescapedMetaFindsTooMuch(term: string, fold: char -> char) returns (s: string)
    requires exists i :: 0 <= i < |term| && IsMeta(term[i])
    requires forall c :: fold(c) == c
    ensures Matches(s, "%" + term + "%", fold) && !Found(s, term, fold)
  {
    s := Sample(term + "%");
    SampleMatches(term, fold);
    SampleDiffers(term);
    var p := "%" + term + "%";
    assert p[1..] == term + "%" && s[0..] == s;
    forall i ensures !FoundAt(s, term, fold, i) {
      if |s| == |term| {
        var k :| 0 <= k < |s| && s[k] != term[k];
        assert s[0..|term|] == s;
        assert fold(s[k]) != fold(term[k]);
      }
    }
  }

  ghost predicate SearchesFor(pattern: string, term: string, fold: char -> char) {
    forall s :: Matches(s, pattern, fold) <==> Found(s, term, fold)
  }

  /** Escaping can be skipped for a term exactly when the term holds none of the three metacharacters. */
  lemma EscapingIsNeededExactlyForMeta(term: string, fold: char -> char)
    requires forall c :: fold(c) == c
    ensures SearchesFor("%" + term + "%", term, fold) <==> forall i :: 0 <= i < |term| ==> !IsMeta(term[i])
  {
    if forall i :: 0 <= i < |term| ==> !IsMeta(term[i]) {
      PlainTermNeedsNoEscape(term);
      forall s ensures Matches(s, "%" + term + "%", fold) <==> Found(s, term, fold) {
        PatternFindsExactlyTheTerm(s, term, fold);
      }
    } else {
      var s := UnescapedMetaFindsTooMuch(term, fold);
    }
  }
}
