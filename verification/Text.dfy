/** The string searches and rewrites the service borrows from Go's strings package. */
module Text {

  predicate OccursAt(s: string, p: string, i: int) {
    0 <= i && i + |p| <= |s| && s[i..i + |p|] == p
  }

  ghost predicate Occurs(s: string, p: string) {
    exists i :: OccursAt(s, p, i)
  }

  ghost predicate OccursOnlyAt(s: string, p: string, i: int) {
    OccursAt(s, p, i) && forall k :: OccursAt(s, p, k) ==> k == i
  }

  ghost predicate OccursOnce(s: string, p: string) {
    exists i :: OccursOnlyAt(s, p, i)
  }

  /** The leftmost occurrence at or after `from`, or -1. */
  function IndexFrom(s: string, p: string, from: nat): (r: int)
    requires from <= |s|
    ensures r == -1 || (from <= r && OccursAt(s, p, r))
    ensures forall k :: from <= k && OccursAt(s, p, k) ==> r != -1 && r <= k
    decreases |s| - from
  {
    if OccursAt(s, p, from) then from
    else if from == |s| then -1
    else IndexFrom(s, p, from + 1)
  }

  function Index(s: string, p: string): (r: int)
    ensures r == -1 || OccursAt(s, p, r)
    ensures forall k :: OccursAt(s, p, k) ==> r != -1 && r <= k
  {
    IndexFrom(s, p, 0)
  }

  /** strings.Count: occurrences that do not overlap, taken from the left. */
  function CountFrom(s: string, p: string, from: nat): nat
    requires |p| > 0 && from <= |s|
    decreases |s| - from
  {
    var i := IndexFrom(s, p, from);
    if i == -1 then 0 else 1 + CountFrom(s, p, i + |p|)
  }

  function Count(s: string, p: string): nat
    requires |p| > 0
  {
    CountFrom(s, p, 0)
  }

  /** A text whose first character does not come back in it cannot overlap itself. */
  ghost predicate StartsUniquely(p: string) {
    |p| > 0 && forall k :: 0 < k < |p| ==> p[k] != p[0]
  }

  /** Counting one non-overlapping occurrence means there is exactly one occurrence. */
  lemma CountOne(s: string, p: string)
    requires StartsUniquely(p)
    ensures Count(s, p) == 1 <==> OccursOnce(s, p)
  {
    var i := Index(s, p);
    if i != -1 {
      var j := IndexFrom(s, p, i + |p|);
      assert Count(s, p) == 1 + CountFrom(s, p, i + |p|);
      assert CountFrom(s, p, i + |p|) == 0 <==> j == -1;
      if j == -1 {
        forall k | OccursAt(s, p, k) ensures k == i {
          assert i <= k < i + |p|;
          assert s[i..i + |p|][k - i] == s[k] == s[k..k + |p|][0];
        }
        assert OccursOnlyAt(s, p, i);
      } else {
        assert OccursAt(s, p, i) && OccursAt(s, p, j) && i != j;
      }
    } else {
      assert Count(s, p) == 0;
    }
  }

  /** With at most one occurrence, counting one is the same as occurring. */
  lemma CountAtMostOne(s: string, p: string)
    requires |p| > 0
    requires forall i, j :: OccursAt(s, p, i) && OccursAt(s, p, j) ==> i == j
    ensures Count(s, p) == 1 <==> Occurs(s, p)
  {
    var i := Index(s, p);
    if i != -1 {
      assert IndexFrom(s, p, i + |p|) == -1;
      assert Count(s, p) == 1 + CountFrom(s, p, i + |p|);
      assert CountFrom(s, p, i + |p|) == 0;
    }
  }

  /** strings.ReplaceAll(s, "\r\n", "\n"). */
  function NormalizeNewlines(s: string): string {
    if |s| >= 2 && s[0] == '\r' && s[1] == '\n' then "\n" + NormalizeNewlines(s[2..])
    else if s == "" then ""
    else [s[0]] + NormalizeNewlines(s[1..])
  }

  lemma {:induction false} NormalizeWithoutCarriageReturn(s: string)
    requires '\r' !in s
    ensures NormalizeNewlines(s) == s
  {
    if s != "" {
      assert s[0] in s;
      NormalizeWithoutCarriageReturn(s[1..]);
    }
  }

  /** The cut between two pieces of a text falls inside a CRLF pair. */
  predicate CutsPair(a: string, b: string) {
    a != "" && b != "" && a[|a| - 1] == '\r' && b[0] == '\n'
  }

  lemma CommonHead(head: string, whole: string, a: string, b: string)
    ensures head + whole == (head + a) + b <==> whole == a + b
  {
    assert head + (a + b) == (head + a) + b;
    assert whole == (head + whole)[|head|..];
    assert a + b == ((head + a) + b)[|head|..];
  }

  /** The cut inside a pair keeps both characters: one more than the whole text has. */
  lemma CutPairIsLonger(b: string)
    requires b != "" && b[0] == '\n'
    ensures NormalizeNewlines("\r" + b) == NormalizeNewlines(b) && NormalizeNewlines("\r") == "\r"
  {
    assert ("\r" + b)[2..] == b[1..];
    assert "\r"[1..] == "";
  }

  /** Two pieces can be normalised separately exactly when the cut does not fall inside a CRLF pair. */
  lemma {:induction false} NormalizeSplit(a: string, b: string)
    ensures NormalizeNewlines(a + b) == NormalizeNewlines(a) + NormalizeNewlines(b)
            <==> !CutsPair(a, b)
    ensures |NormalizeNewlines(a)| + |NormalizeNewlines(b)| == |NormalizeNewlines(a + b)|
            + (if CutsPair(a, b) then 1 else 0)
    decreases |a|
  {
    if a == "" {
      assert a + b == b;
    } else if CutsPair(a, b) && |a| == 1 {
      assert a == "\r";
      CutPairIsLonger(b);
    } else {
      var k := if |a| >= 2 && a[0] == '\r' && a[1] == '\n' then 2 else 1;
      var head := if k == 2 then "\n" else [a[0]];
      assert (a + b)[k..] == a[k..] + b;
      NormalizeSplit(a[k..], b);
      CommonHead(head, NormalizeNewlines(a[k..] + b), NormalizeNewlines(a[k..]), NormalizeNewlines(b));
    }
  }

  /** unicode.IsSpace. */
  predicate IsSpace(c: char) {
    c in {'\t', '\n', '\U{0B}', '\U{0C}', '\r', ' ', '\U{85}', '\U{A0}', '\U{1680}',
          '\U{2028}', '\U{2029}', '\U{202F}', '\U{205F}', '\U{3000}'}
    || '\U{2000}' <= c <= '\U{200A}'
  }

  function TrimLeft(s: string): string {
    if s != "" && IsSpace(s[0]) then TrimLeft(s[1..]) else s
  }

  function TrimRight(s: string): string {
    if s != "" && IsSpace(s[|s| - 1]) then TrimRight(s[..|s| - 1]) else s
  }

  /** strings.TrimSpace. */
  function Trim(s: string): string {
    TrimRight(TrimLeft(s))
  }

  /** strings.TrimRight(s, "/"). */
  function TrimSlashes(s: string): string {
    if s != "" && s[|s| - 1] == '/' then TrimSlashes(s[..|s| - 1]) else s
  }

  /** `r` is `s` up to its closing slashes. */
  ghost predicate WithoutSlashes(s: string, r: string) {
    && r <= s && (forall i :: |r| <= i < |s| ==> s[i] == '/') && (r != "" ==> r[|r| - 1] != '/')
  }

  lemma {:induction false} TrimSlashesExactly(s: string)
    ensures WithoutSlashes(s, TrimSlashes(s))
    ensures TrimSlashes(s) == "" <==> forall i :: 0 <= i < |s| ==> s[i] == '/'
  {
    if s != "" && s[|s| - 1] == '/' {
      TrimSlashesExactly(s[..|s| - 1]);
      assert forall i :: 0 <= i < |s| - 1 ==> s[..|s| - 1][i] == s[i];
    }
  }

  /** strings.Join(lines, "\n"). */
  function Join(lines: seq<string>): string {
    if |lines| == 0 then ""
    else if |lines| == 1 then lines[0]
    else lines[0] + "\n" + Join(lines[1..])
  }

  lemma {:induction false} JoinAppend(lines: seq<string>, last: string)
    requires |lines| > 0
    ensures Join(lines + [last]) == Join(lines) + "\n" + last
  {
    var all := lines + [last];
    assert all[1..] == lines[1..] + [last];
    if |lines| == 1 {
      assert all[1..] == [last];
    } else {
      JoinAppend(lines[1..], last);
      assert Join(all) == lines[0] + "\n" + (Join(lines[1..]) + "\n" + last);
    }
  }

  /** A character other than the line break is in the joined text only if it is in a line. */
  lemma {:induction false} JoinHasNoNew(lines: seq<string>, c: char)
    requires c != '\n'
    requires forall i :: 0 <= i < |lines| ==> c !in lines[i]
    ensures c !in Join(lines)
  {
    if |lines| > 1 {
      JoinHasNoNew(lines[1..], c);
    }
  }

  lemma FirstBreak(a: string, x: string)
    requires '\n' !in a
    ensures Index(a + "\n" + x, "\n") == |a|
  {
    var s := a + "\n" + x;
    assert s[|a|..|a| + 1] == "\n";
    assert OccursAt(s, "\n", |a|);
    forall k | 0 <= k < |a| ensures !OccursAt(s, "\n", k) {
      assert s[k] == a[k] && a[k] in a;
      assert s[k..k + 1][0] == s[k];
    }
  }

  lemma FirstLineSplit(a: string, x: string, b: string, y: string)
    requires '\n' !in a && '\n' !in b && a + "\n" + x == b + "\n" + y
    ensures a == b && x == y
  {
    var s := a + "\n" + x;
    FirstBreak(a, x);
    FirstBreak(b, y);
    assert a == s[..|a|] == b;
    assert x == s[|a| + 1..] == y;
  }

  /** Lines without line breaks can be read back from their joined text. */
  lemma {:induction false} JoinInjective(a: seq<string>, b: seq<string>)
    requires |a| == |b| && Join(a) == Join(b)
    requires forall i :: 0 <= i < |a| ==> '\n' !in a[i] && '\n' !in b[i]
    ensures a == b
  {
    if |a| == 1 {
      assert a == [a[0]] && b == [b[0]];
    } else if |a| > 1 {
      FirstLineSplit(a[0], Join(a[1..]), b[0], Join(b[1..]));
      JoinInjective(a[1..], b[1..]);
      assert a == [a[0]] + a[1..] && b == [b[0]] + b[1..];
    }
  }

  lemma {:induction false} TrimRightEnds(s: string)
    ensures TrimRight(s) <= s
    ensures TrimRight(s) != "" ==> !IsSpace(TrimRight(s)[|TrimRight(s)| - 1])
  {
    if s != "" && IsSpace(s[|s| - 1]) {
      TrimRightEnds(s[..|s| - 1]);
    }
  }

  lemma {:induction false} TrimLeftStarts(s: string)
    ensures TrimLeft(s) != "" ==> !IsSpace(TrimLeft(s)[0])
  {
    if s != "" && IsSpace(s[0]) {
      TrimLeftStarts(s[1..]);
    }
  }

  lemma TrimIdempotent(s: string)
    ensures Trim(Trim(s)) == Trim(s)
  {
    TrimLeftStarts(s);
    TrimRightEnds(TrimLeft(s));
  }

  ghost predicate Blank(s: string) {
    forall i :: 0 <= i < |s| ==> IsSpace(s[i])
  }

  lemma {:induction false} TrimLeftExactly(s: string)
    ensures |TrimLeft(s)| <= |s| && s[|s| - |TrimLeft(s)|..] == TrimLeft(s)
    ensures Blank(s[..|s| - |TrimLeft(s)|])
  {
    if s != "" && IsSpace(s[0]) {
      TrimLeftExactly(s[1..]);
      var n := |s| - |TrimLeft(s)|;
      assert s[..n] == [s[0]] + s[1..][..n - 1];
    }
  }

  lemma {:induction false} TrimRightExactly(s: string)
    ensures TrimRight(s) <= s && Blank(s[|TrimRight(s)|..])
  {
    if s != "" && IsSpace(s[|s| - 1]) {
      TrimRightExactly(s[..|s| - 1]);
      var n := |TrimRight(s)|;
      assert s[n..] == s[..|s| - 1][n..] + [s[|s| - 1]];
    }
  }

  /** Trimming takes white space off both ends and nothing else, and leaves none there. */
  lemma TrimExactly(s: string) returns (before: string, after: string)
    ensures s == before + Trim(s) + after && Blank(before) && Blank(after)
    ensures Trim(s) != "" ==> !IsSpace(Trim(s)[0]) && !IsSpace(Trim(s)[|Trim(s)| - 1])
  {
    var rest := TrimLeft(s);
    TrimLeftExactly(s);
    TrimRightExactly(rest);
    TrimLeftStarts(s);
    TrimRightEnds(rest);
    before, after := s[..|s| - |rest|], rest[|Trim(s)|..];
  }

  /** Trimmed, blanks dropped, each text kept where it first occurs. */
  function Unique(values: seq<string>): seq<string> {
    if values == [] then []
    else
      var before, value := Unique(values[..|values| - 1]), Trim(values[|values| - 1]);
      if value == "" || value in before then before else before + [value]
  }

  method UniqueStrings(values: seq<string>) returns (result: seq<string>)
    ensures result == Unique(values)
  {
    var seen: set<string> := {};
    result := [];
    for i := 0 to |values|
      invariant result == Unique(values[..i])
      invariant forall v :: v in seen <==> v in result
    {
      assert values[..i + 1][..i] == values[..i];
      var value := Trim(values[i]);
      if value == "" {
        continue;
      }
      if value in seen {
        continue;
      }
      seen := seen + {value};
      result := result + [value];
    }
    assert values[..|values|] == values;
  }

  ghost predicate Clean(values: seq<string>) {
    && (forall i :: 0 <= i < |values| ==> values[i] != "" && Trim(values[i]) == values[i])
    && (forall i, j :: 0 <= i < j < |values| ==> values[i] != values[j])
  }

  /** The result is clean and holds exactly the non-blank texts of the input. */
  lemma {:induction false} UniqueIsClean(values: seq<string>)
    ensures Clean(Unique(values))
    ensures forall v :: v in Unique(values) <==> v != "" && exists i :: 0 <= i < |values| && Trim(values[i]) == v
  {
    if values != [] {
      var n := |values| - 1;
      UniqueIsClean(values[..n]);
      TrimIdempotent(values[n]);
      forall v ensures v in Unique(values) <==> v != "" && exists i :: 0 <= i < |values| && Trim(values[i]) == v {
        if i :| 0 <= i < |values| && Trim(values[i]) == v {
          assert i < n ==> values[..n][i] == values[i];
        }
        if i :| 0 <= i < n && Trim(values[..n][i]) == v {
          assert values[i] == values[..n][i];
        }
      }
    }
  }

  /** A clean list is left alone, so cleaning twice is cleaning once. */
  lemma {:induction false} UniqueKeepsClean(values: seq<string>)
    requires Clean(values)
    ensures Unique(values) == values
  {
    if values != [] {
      var n := |values| - 1;
      UniqueKeepsClean(values[..n]);
      assert values == values[..n] + [values[n]];
      assert forall i :: 0 <= i < n ==> values[i] != values[n];
    }
  }

  /** `v` comes up in a list before `w` does. */
  ghost predicate ComesBefore(values: seq<string>, v: string, w: string) {
    exists k :: 0 <= k < |values| && Trim(values[k]) == v && forall l :: 0 <= l <= k ==> Trim(values[l]) != w
  }

  /** The result is in the order in which its texts first come up. */
  lemma {:induction false} UniqueKeepsOrder(values: seq<string>)
    ensures forall i, j :: 0 <= i < j < |Unique(values)| ==> ComesBefore(values, Unique(values)[i], Unique(values)[j])
  {
    if values != [] {
      var n := |values| - 1;
      UniqueKeepsOrder(values[..n]);
      UniqueIsClean(values[..n]);
      var before, result := Unique(values[..n]), Unique(values);
      forall i, j | 0 <= i < j < |result| ensures ComesBefore(values, result[i], result[j]) {
        assert result[i] == before[i] && before[i] in before;
        if j < |before| {
          assert ComesBefore(values[..n], before[i], before[j]);
          var k :| 0 <= k < n && Trim(values[..n][k]) == before[i]
                   && forall l :: 0 <= l <= k ==> Trim(values[..n][l]) != before[j];
          assert forall l :: 0 <= l <= k ==> values[l] == values[..n][l];
        } else {
          var k :| 0 <= k < n && Trim(values[..n][k]) == before[i];
          assert forall l :: 0 <= l < n ==> values[l] == values[..n][l];
          assert forall l :: 0 <= l <= k ==> Trim(values[..n][l]) != result[j];
        }
      }
    }
  }

  /** A list cleaned: exactly its trimmed, non-blank texts, each once, in the order in which they first come up. */
  ghost predicate Cleaned(values: seq<string>, result: seq<string>) {
    && Clean(result)
    && (forall v :: v in result <==> v != "" && exists i :: 0 <= i < |values| && Trim(values[i]) == v)
    && forall i, j :: 0 <= i < j < |result| ==> ComesBefore(values, result[i], result[j])
  }

  lemma UniqueIdempotent(values: seq<string>)
    ensures Unique(Unique(values)) == Unique(values)
  {
    UniqueIsClean(values);
    UniqueKeepsClean(Unique(values));
  }

  function LowerChar(c: char): (r: char)
    ensures if 'A' <= c <= 'Z' then 'a' <= r <= 'z' && r as int - 'a' as int == c as int - 'A' as int else r == c
  {
    if 'A' <= c <= 'Z' then (c as int + 32) as char else c
  }

  /** strings.ToLower on ASCII. */
  function Lower(s: string): (r: string)
    ensures |r| == |s| && forall i :: 0 <= i < |s| ==> r[i] == LowerChar(s[i])
  {
    seq(|s|, i requires 0 <= i < |s| => LowerChar(s[i]))
  }
}
