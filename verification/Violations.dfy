/** The bounded recorder of policy violations, against the full list of reports since it was last emptied. */
module Violations {
  import opened Text

  const MAX_VIOLATIONS := 100

  datatype Violation = Violation(origin: string, directive: string, page: string, count: nat, firstSeen: int,
                                 lastSeen: int)

  /** One accepted report. */
  datatype Report = Report(key: string, at: int)

  function Shorten(s: string, limit: nat): (r: string)
    ensures r <= s && |r| == if |s| > limit then limit else |s|
  {
    if |s| > limit then s[..limit] else s
  }

  /** The directive's name: the first word, lowered, with a default. */
  function Directive(raw: string): string {
    var trimmed := Trim(Lower(raw));
    var space := Index(trimmed, " ");
    var name := if space > 0 then trimmed[..space] else trimmed;
    Shorten(if name == "" then "connect-src" else name, 40)
  }

  function Key(directive: string, origin: string): string {
    directive + " " + origin
  }

  lemma {:induction false} TrimLeftHasNoOuterSpace(s: string)
    ensures Trim(s) != "" ==> !IsSpace(Trim(s)[0])
  {
    TrimLeftStarts(s);
    TrimRightEnds(TrimLeft(s));
  }

  lemma NoSpaceBefore(s: string, i: int)
    requires Index(s, " ") == i
    ensures forall k :: 0 <= k < |s| && (i == -1 || k < i) ==> s[k] != ' '
  {
    forall k | 0 <= k < |s| && (i == -1 || k < i) ensures s[k] != ' ' {
      assert !OccursAt(s, " ", k);
      assert s[k..k + 1] == [s[k]];
    }
  }

  lemma NoLeadingSpace(s: string)
    requires s != "" ==> s[0] != ' '
    ensures Index(s, " ") != 0
  {
    if s != "" {
      assert s[0..1] == [s[0]];
    }
  }

  lemma FirstWord(word: string, rest: string)
    requires forall k :: 0 <= k < |word| ==> word[k] != ' '
    ensures Index(word + " " + rest, " ") == |word|
  {
    var s := word + " " + rest;
    assert s[|word|..|word| + 1] == " ";
    assert OccursAt(s, " ", |word|);
    forall k | 0 <= k < |word| ensures !OccursAt(s, " ", k) {
      assert s[k..k + 1] == [word[k]];
    }
  }

  /** A report without a directive is one of connections. Otherwise the name is the first word, lowered and without
      outer space, and of a long word the first forty characters. */
  lemma DirectiveExactly(raw: string)
    ensures var text, name := Trim(Lower(raw)), Directive(raw);
            if text == "" then name == "connect-src"
            else && name <= text && ' ' !in name && |name| <= 40
                 && (|name| < 40 ==> name == text || text[|name|] == ' ')
  {
    var text := Trim(Lower(raw));
    DirectiveIsAWord(raw);
    TrimLeftHasNoOuterSpace(Lower(raw));
    NoLeadingSpace(text);
    var space := Index(text, " ");
    if space > 0 {
      assert text[space] == text[space..space + 1][0];
    }
  }

  lemma DirectiveIsAWord(raw: string)
    ensures forall k :: 0 <= k < |Directive(raw)| ==> Directive(raw)[k] != ' '
  {
    var trimmed := Trim(Lower(raw));
    TrimLeftHasNoOuterSpace(Lower(raw));
    NoSpaceBefore(trimmed, Index(trimmed, " "));
    NoLeadingSpace(trimmed);
  }

  /** Two reports share an entry exactly when both their directive and their origin are the same. */
  lemma KeysAreDistinctExactly(raw: string, origin: string, raw': string, origin': string)
    ensures Key(Directive(raw), origin) == Key(Directive(raw'), origin')
            <==> Directive(raw) == Directive(raw') && origin == origin'
  {
    var a, b := Directive(raw), Directive(raw');
    DirectiveIsAWord(raw);
    DirectiveIsAWord(raw');
    if Key(a, origin) == Key(b, origin') {
      var k := Key(a, origin);
      FirstWord(a, origin);
      FirstWord(b, origin');
      assert a == k[..|a|] && b == k[..|b|];
      assert origin == k[|a| + 1..] && origin' == k[|b| + 1..];
    }
  }

  // ---- Counting ----

  ghost function Total(m: map<string, Violation>): nat
    decreases |m|
  {
    if m == map[] then 0
    else
      var k :| k in m;
      m[k].count + Total(m - {k})
  }

  lemma {:induction false} TotalWithout(m: map<string, Violation>, k: string)
    requires k in m
    ensures Total(m) == m[k].count + Total(m - {k})
    decreases |m|
  {
    assert m != map[];
    var j :| j in m && Total(m) == m[j].count + Total(m - {j});
    if j != k {
      TotalWithout(m - {j}, k);
      TotalWithout(m - {k}, j);
      assert m - {j} - {k} == m - {k} - {j};
    }
  }

  lemma TotalUpdated(m: map<string, Violation>, k: string, v: Violation)
    ensures Total(m[k := v]) == Total(m - {k}) + v.count
  {
    TotalWithout(m[k := v], k);
    assert m[k := v] - {k} == m - {k};
  }

  lemma TotalAbsent(m: map<string, Violation>, k: string)
    requires k !in m
    ensures m - {k} == m
  {
  }

  ghost predicate Reported(reports: seq<Report>, key: string) {
    exists i :: 0 <= i < |reports| && reports[i].key == key
  }

  /** How often a key was reported. */
  function Times(reports: seq<Report>, key: string): nat {
    if reports == [] then 0
    else Times(reports[..|reports| - 1], key) + (if reports[|reports| - 1].key == key then 1 else 0)
  }

  /** When a key was last reported. */
  ghost function LastAt(reports: seq<Report>, key: string): int
    requires Reported(reports, key)
  {
    if reports[|reports| - 1].key == key then reports[|reports| - 1].at
    else
      assert Reported(reports[..|reports| - 1], key) by {
        var i :| 0 <= i < |reports| && reports[i].key == key;
        assert reports[..|reports| - 1][i].key == key;
      }
      LastAt(reports[..|reports| - 1], key)
  }

  lemma OneMoreReport(reports: seq<Report>, r: Report, key: string)
    ensures Reported(reports + [r], key) <==> r.key == key || Reported(reports, key)
    ensures Times(reports + [r], key) == Times(reports, key) + (if r.key == key then 1 else 0)
    ensures Reported(reports + [r], key) ==>
              LastAt(reports + [r], key) == if r.key == key then r.at else LastAt(reports, key)
  {
    var more := reports + [r];
    assert more[..|reports|] == reports;
    assert more[|reports|] == r;
    if Reported(reports, key) {
      var i :| 0 <= i < |reports| && reports[i].key == key;
      assert more[i].key == key;
    }
  }

  // ---- The recorder ----

  /** No entry was reported longer ago than this one. */
  predicate Oldest(m: map<string, Violation>, key: string) {
    key in m && forall k :: k in m ==> m[key].lastSeen <= m[k].lastSeen
  }

  function Repeated(v: Violation, page: string, now: int): Violation {
    v.(count := v.count + 1, lastSeen := now, page := page)
  }

  ghost predicate EntryOk(k: string, v: Violation, reports: seq<Report>, clock: int) {
    && k == Key(v.directive, v.origin) && 1 <= v.count <= Times(reports, k) && v.lastSeen <= clock
    && Reported(reports, k) && v.lastSeen == LastAt(reports, k)
  }

  /** What is not held was pushed out by a full recorder, and everything held was reported since. */
  ghost predicate AbsentOk(k: string, m: map<string, Violation>, reports: seq<Report>) {
    Reported(reports, k) && k !in m ==>
      |m| == MAX_VIOLATIONS && forall j :: j in m ==> LastAt(reports, k) <= m[j].lastSeen
  }

  /** A recorder's entries against the reports behind them. */
  ghost predicate Faithful(m: map<string, Violation>, reports: seq<Report>, clock: int, lost: nat) {
    && |m| <= MAX_VIOLATIONS
    && (forall k :: k in m ==> EntryOk(k, m[k], reports, clock))
    && (forall k :: AbsentOk(k, m, reports))
    && Total(m) + lost == |reports|
  }

  lemma KeyIsNotEmpty(directive: string, origin: string)
    ensures Key(directive, origin) != ""
  {
    assert Key(directive, origin)[|directive|] == ' ';
  }

  /** A report of a key that then holds a fresh entry, everything else being as it was or gone. */
  lemma ReportKeepsEntries(
      m: map<string, Violation>, m': map<string, Violation>, reports: seq<Report>, clock: int, r: Report)
    requires (forall k :: k in m ==> EntryOk(k, m[k], reports, clock)) && clock <= r.at
    requires r.key in m' && (forall k :: k in m' && k != r.key ==> k in m && m'[k] == m[k])
    requires var v := m'[r.key];
             && r.key == Key(v.directive, v.origin) && v.lastSeen == r.at
             && v.count == 1 + (if r.key in m then m[r.key].count else 0)
    ensures forall k :: k in m' ==> EntryOk(k, m'[k], reports + [r], r.at)
  {
    forall k | k in m' ensures EntryOk(k, m'[k], reports + [r], r.at) {
      OneMoreReport(reports, r, k);
      assert k in m ==> EntryOk(k, m[k], reports, clock);
    }
  }

  lemma AbsentStays(m: map<string, Violation>, m': map<string, Violation>, reports: seq<Report>, clock: int, r: Report,
                    k: string)
    requires AbsentOk(k, m, reports) && r.key in m' && m'[r.key].lastSeen == r.at && k !in m
    requires forall j :: j in m' && j != r.key ==> j in m && m'[j] == m[j]
    requires |m| == MAX_VIOLATIONS ==> |m'| == MAX_VIOLATIONS
    requires forall j :: Reported(reports, j) ==> LastAt(reports, j) <= clock
    requires clock <= r.at
    ensures AbsentOk(k, m', reports + [r])
  {
    OneMoreReport(reports, r, k);
  }

  lemma {:induction false} ClockBoundsReports(reports: seq<Report>, clock: int, k: string)
    requires Reported(reports, k) && forall i :: 0 <= i < |reports| ==> reports[i].at <= clock
    ensures LastAt(reports, k) <= clock
  {
    if reports[|reports| - 1].key != k {
      var i :| 0 <= i < |reports| && reports[i].key == k;
      assert reports[..|reports| - 1][i].key == k;
      ClockBoundsReports(reports[..|reports| - 1], clock, k);
    }
  }

  lemma RepeatKeeps(m: map<string, Violation>, reports: seq<Report>, clock: int, lost: nat, r: Report, page: string)
    requires Faithful(m, reports, clock, lost) && clock <= r.at && r.key in m
    requires forall i :: 0 <= i < |reports| ==> reports[i].at <= clock
    ensures Faithful(m[r.key := Repeated(m[r.key], page, r.at)], reports + [r], r.at, lost)
  {
    hide AbsentOk, Total, Key, Reported;
    var m' := m[r.key := Repeated(m[r.key], page, r.at)];
    assert EntryOk(r.key, m[r.key], reports, clock);
    assert m'.Keys == m.Keys;
    ReportKeepsEntries(m, m', reports, clock, r);
    AbsenceKept(m, m', reports, clock, lost, r);
    TotalUpdated(m, r.key, m'[r.key]);
    TotalWithout(m, r.key);
  }

  lemma AbsenceKept(
      m: map<string, Violation>, m': map<string, Violation>, reports: seq<Report>, clock: int, lost: nat, r: Report)
    requires Faithful(m, reports, clock, lost) && clock <= r.at && r.key in m' && m'[r.key].lastSeen == r.at
    requires forall i :: 0 <= i < |reports| ==> reports[i].at <= clock
    requires forall j :: j in m' && j != r.key ==> j in m && m'[j] == m[j]
    requires |m| == MAX_VIOLATIONS ==> |m'| == MAX_VIOLATIONS
    requires forall k :: k in m && k !in m' ==> |m'| == MAX_VIOLATIONS && Oldest(m, k)
    ensures forall k :: AbsentOk(k, m', reports + [r])
  {
    forall j | Reported(reports, j) ensures LastAt(reports, j) <= clock {
      ClockBoundsReports(reports, clock, j);
    }
    forall k ensures AbsentOk(k, m', reports + [r]) {
      OneMoreReport(reports, r, k);
      assert AbsentOk(k, m, reports);
      if k in m {
        assert EntryOk(k, m[k], reports, clock);
      } else {
        AbsentStays(m, m', reports, clock, r, k);
      }
    }
  }

  lemma AddingCounts(m: map<string, Violation>, key: string, v: Violation)
    requires key !in m
    ensures |m[key := v]| == |m| + 1 && Total(m[key := v]) == Total(m) + v.count
  {
    assert m[key := v].Keys == m.Keys + {key};
    TotalUpdated(m, key, v);
    TotalAbsent(m, key);
  }

  lemma AddingKeeps(m: map<string, Violation>, reports: seq<Report>, clock: int, lost: nat, r: Report, v: Violation)
    requires Faithful(m, reports, clock, lost) && clock <= r.at && r.key !in m && |m| < MAX_VIOLATIONS
    requires forall i :: 0 <= i < |reports| ==> reports[i].at <= clock
    requires r.key == Key(v.directive, v.origin) && v.count == 1 && v.lastSeen == r.at
    ensures Faithful(m[r.key := v], reports + [r], r.at, lost)
  {
    hide EntryOk, AbsentOk, Total, Key, Reported;
    var m' := m[r.key := v];
    AddingCounts(m, r.key, v);
    ReportKeepsEntries(m, m', reports, clock, r);
    AbsenceKept(m, m', reports, clock, lost, r);
  }

  lemma EvictionKeeps(
      m: map<string, Violation>, reports: seq<Report>, clock: int, lost: nat, r: Report, gone: string, v: Violation)
    requires Faithful(m, reports, clock, lost) && clock <= r.at && r.key !in m && |m| == MAX_VIOLATIONS
    requires Oldest(m, gone)
    requires forall i :: 0 <= i < |reports| ==> reports[i].at <= clock
    requires r.key == Key(v.directive, v.origin) && v.count == 1 && v.lastSeen == r.at
    ensures Faithful((m - {gone})[r.key := v], reports + [r], r.at, lost + m[gone].count)
  {
    hide EntryOk, AbsentOk, Total, Key, Reported;
    var m' := (m - {gone})[r.key := v];
    SwapCounts(m, gone, r.key, v);
    ReportKeepsEntries(m, m', reports, clock, r);
    AbsenceKept(m, m', reports, clock, lost, r);
  }

  lemma SwapCounts(m: map<string, Violation>, gone: string, key: string, v: Violation)
    requires gone in m && key !in m
    ensures var m' := (m - {gone})[key := v];
            |m'| == |m| && Total(m') + m[gone].count == Total(m) + v.count
  {
    var kept := m - {gone};
    var m' := kept[key := v];
    assert m.Keys == kept.Keys + {gone} && m'.Keys == kept.Keys + {key};
    TotalUpdated(kept, key, v);
    TotalAbsent(kept, key);
    TotalWithout(m, gone);
  }

  /** What recording does: a repeat evicts nothing; a new entry pushes out an oldest one only when there is no room. */
  ghost predicate Recorded(
      m: map<string, Violation>, lost: nat, m': map<string, Violation>, lost': nat, key: string, entry: Violation)
  {
    if key in m then m' == m[key := Repeated(m[key], entry.page, entry.lastSeen)] && lost' == lost
    else if |m| < MAX_VIOLATIONS then m' == m[key := entry] && lost' == lost
    else exists gone :: Oldest(m, gone) && m' == (m - {gone})[key := entry] && lost' == lost + m[gone].count
  }

  lemma NoEmptyKey(m: map<string, Violation>, reports: seq<Report>, clock: int, lost: nat)
    requires Faithful(m, reports, clock, lost)
    ensures "" !in m
  {
    if "" in m {
      assert EntryOk("", m[""], reports, clock);
      KeyIsNotEmpty(m[""].directive, m[""].origin);
    }
  }

  lemma RecordingKeeps(m: map<string, Violation>, reports: seq<Report>, clock: int, lost: nat,
      m': map<string, Violation>, lost': nat, r: Report, entry: Violation)
    requires Faithful(m, reports, clock, lost) && clock <= r.at
    requires forall i :: 0 <= i < |reports| ==> reports[i].at <= clock
    requires r.key == Key(entry.directive, entry.origin) && entry.count == 1 && entry.lastSeen == r.at
    requires Recorded(m, lost, m', lost', r.key, entry)
    ensures Faithful(m', reports + [r], r.at, lost')
  {
    if r.key in m {
      RepeatKeeps(m, reports, clock, lost, r, entry.page);
    } else if |m| < MAX_VIOLATIONS {
      AddingKeeps(m, reports, clock, lost, r, entry);
    } else {
      var gone :| Oldest(m, gone) && m' == (m - {gone})[r.key := entry] && lost' == lost + m[gone].count;
      EvictionKeeps(m, reports, clock, lost, r, gone, entry);
    }
  }

  // ---- Exactness ----

  function CountOf(m: map<string, Violation>, key: string): nat {
    if key in m then m[key].count else 0
  }

  /** Nothing lost yet means every count is exact; something lost means some reported key is missing. */
  ghost predicate Exact(m: map<string, Violation>, reports: seq<Report>, lost: nat) {
    if lost == 0 then forall k :: CountOf(m, k) == Times(reports, k)
    else exists k :: Reported(reports, k) && k !in m
  }

  lemma {:induction false} TimesPositive(reports: seq<Report>, key: string)
    ensures Reported(reports, key) <==> Times(reports, key) > 0
  {
    if reports != [] {
      var front := reports[..|reports| - 1];
      TimesPositive(front, key);
      OneMoreReport(front, reports[|reports| - 1], key);
      assert reports == front + [reports[|reports| - 1]];
    }
  }

  lemma RecordingStaysExact(m: map<string, Violation>, reports: seq<Report>, clock: int, lost: nat,
      m': map<string, Violation>, lost': nat, r: Report, entry: Violation)
    requires Faithful(m, reports, clock, lost) && Exact(m, reports, lost) && entry.count == 1
    requires Recorded(m, lost, m', lost', r.key, entry)
    ensures Exact(m', reports + [r], lost')
  {
    if lost' == 0 {
      NothingEvicted(m, reports, clock, lost, m', lost', r, entry);
      forall k ensures CountOf(m', k) == Times(reports + [r], k) {
        OneMoreReport(reports, r, k);
        assert CountOf(m, k) == Times(reports, k);
      }
    } else if r.key in m || |m| < MAX_VIOLATIONS {
      var k :| Reported(reports, k) && k !in m;
      assert AbsentOk(k, m, reports);
      OneMoreReport(reports, r, k);
      assert k !in m';
    } else {
      var gone :| Oldest(m, gone) && m' == (m - {gone})[r.key := entry];
      assert EntryOk(gone, m[gone], reports, clock);
      OneMoreReport(reports, r, gone);
      assert gone !in m';
    }
  }

  lemma NothingEvicted(m: map<string, Violation>, reports: seq<Report>, clock: int, lost: nat,
      m': map<string, Violation>, lost': nat, r: Report, entry: Violation)
    requires Faithful(m, reports, clock, lost) && Recorded(m, lost, m', lost', r.key, entry) && lost' == 0
    requires entry.count == 1
    ensures lost == 0 && forall k :: CountOf(m', k) == CountOf(m, k) + (if k == r.key then 1 else 0)
  {
    forall gone | gone in m ensures m[gone].count >= 1 {
      assert EntryOk(gone, m[gone], reports, clock);
    }
  }

  ghost function KeysOf(reports: seq<Report>): set<string> {
    set i | 0 <= i < |reports| :: reports[i].key
  }

  lemma SubsetSize<T>(a: set<T>, b: set<T>)
    requires a <= b
    ensures |a| <= |b|
  {
    assert b == a + (b - a);
  }

  /** The counts shown are the true counts of every key exactly when no more than a hundred different directive
      and origin pairs were reported since the recorder was last emptied; nothing is lost exactly then. */
  lemma CountsAreTrueExactly(m: map<string, Violation>, reports: seq<Report>, clock: int, lost: nat)
    requires Faithful(m, reports, clock, lost) && Exact(m, reports, lost)
    ensures (forall k :: CountOf(m, k) == Times(reports, k)) <==> |KeysOf(reports)| <= MAX_VIOLATIONS
    ensures lost == 0 <==> |KeysOf(reports)| <= MAX_VIOLATIONS
  {
    if lost == 0 {
      forall k | k in KeysOf(reports) ensures k in m.Keys {
        TimesPositive(reports, k);
        assert CountOf(m, k) == Times(reports, k);
      }
      SubsetSize(KeysOf(reports), m.Keys);
    } else {
      var k :| Reported(reports, k) && k !in m;
      assert AbsentOk(k, m, reports);
      forall j | j in m.Keys + {k} ensures j in KeysOf(reports) {
        assert j in m ==> EntryOk(j, m[j], reports, clock);
        assert Reported(reports, j);
      }
      SubsetSize(m.Keys + {k}, KeysOf(reports));
      TimesPositive(reports, k);
      assert CountOf(m, k) != Times(reports, k);
    }
  }

  /** What is shown is what was reported last: a pair that is missing was last reported no later than any shown one. */
  lemma ShownAreTheLatest(m: map<string, Violation>, reports: seq<Report>, clock: int, lost: nat, missing: string,
                          shown: string)
    requires Faithful(m, reports, clock, lost) && Reported(reports, missing) && missing !in m && shown in m
    ensures Reported(reports, shown) && LastAt(reports, missing) <= LastAt(reports, shown) == m[shown].lastSeen
    ensures |m| == MAX_VIOLATIONS
  {
    assert AbsentOk(missing, m, reports);
    assert EntryOk(shown, m[shown], reports, clock);
  }

  lemma NothingYet(clock: int)
    ensures Faithful(map[], [], clock, 0) && Exact(map[], [], 0)
  {
  }

  class Recorder {
    var violations: map<string, Violation>
    /** The reports accepted since the recorder was last emptied, the last clock reading, and the counts lost to
        eviction. */
    ghost var reports: seq<Report>
    ghost var clock: int
    ghost var lost: nat

    ghost predicate Valid()
      reads this
    {
      && Faithful(violations, reports, clock, lost) && Exact(violations, reports, lost)
      && forall i :: 0 <= i < |reports| ==> reports[i].at <= clock
    }

    constructor (now: int)
      ensures Valid() && violations == map[] && reports == [] && clock == now && lost == 0
    {
      NothingYet(now);
      violations, reports, clock, lost := map[], [], now, 0;
    }

    method EvictOldest() returns (ghost evicted: string)
      requires violations != map[] && "" !in violations
      modifies this`violations
      ensures Oldest(old(violations), evicted) && violations == old(violations) - {evicted}
    {
      var oldestKey, oldest := "", 0;
      var rest := violations.Keys;
      while rest != {}
        invariant rest <= violations.Keys
        invariant oldestKey == "" ==> rest == violations.Keys
        invariant oldestKey != "" ==> oldestKey in violations && oldest == violations[oldestKey].lastSeen
        invariant oldestKey != "" ==> forall k :: k in violations && k !in rest ==> oldest <= violations[k].lastSeen
        decreases |rest|
      {
        var key :| key in rest;
        if oldestKey == "" || violations[key].lastSeen < oldest {
          oldestKey, oldest := key, violations[key].lastSeen;
        }
        rest := rest - {key};
      }
      violations := violations - {oldestKey};
      evicted := oldestKey;
    }

    /** `origin` is the blocked address's http origin, empty if it has none. */
    method Record(origin: string, rawDirective: string, page: string, now: int)
      requires Valid() && clock <= now
      modifies this
      ensures Valid()
      ensures origin == "" ==>
                violations == old(violations) && reports == old(reports) && lost == old(lost) && clock == old(clock)
      ensures origin != "" ==>
                var key := Key(Directive(rawDirective), origin);
                && clock == now && reports == old(reports) + [Report(key, now)]
                && Recorded(old(violations), old(lost), violations, lost, key,
                            Violation(origin, Directive(rawDirective), Shorten(page, 200), 1, now, now))
      ensures origin != "" ==>
                var key := Directive(rawDirective) + " " + origin;
                && key in violations && violations[key].lastSeen == now && violations[key].page <= page
                && |violations[key].page| == (if |page| > 200 then 200 else |page|)
                && if key in old(violations)
                   then violations[key] == old(violations)[key].(
                          count := old(violations)[key].count + 1, lastSeen := now, page := violations[key].page)
                   else && violations[key].count == 1 && violations[key].firstSeen == now
                        && violations[key].origin == origin && violations[key].directive == Directive(rawDirective)
    {
      if origin == "" {
        return;
      }
      Note(Key(Directive(rawDirective), origin),
           Violation(origin, Directive(rawDirective), Shorten(page, 200), 1, now, now), now);
    }

    /** The part of recording that holds the lock. */
    method Note(key: string, entry: Violation, now: int)
      requires Valid() && clock <= now
      requires key == Key(entry.directive, entry.origin) && entry.count == 1 && entry.lastSeen == now
      modifies this
      ensures Valid() && clock == now && reports == old(reports) + [Report(key, now)]
      ensures Recorded(old(violations), old(lost), violations, lost, key, entry)
    {
      NoEmptyKey(violations, reports, clock, lost);
      Store(key, entry);
      RecordingKeeps(old(violations), reports, clock, old(lost), violations, lost, Report(key, now), entry);
      RecordingStaysExact(old(violations), reports, clock, old(lost), violations, lost, Report(key, now), entry);
      reports := reports + [Report(key, now)];
      clock := now;
    }

    method Store(key: string, entry: Violation)
      requires "" !in violations
      modifies this`violations, this`lost
      ensures Recorded(old(violations), old(lost), violations, lost, key, entry)
    {
      if key in violations {
        violations := violations[key := Repeated(violations[key], entry.page, entry.lastSeen)];
        return;
      }
      if |violations| >= MAX_VIOLATIONS {
        ghost var gone := EvictOldest();
        lost := lost + old(violations)[gone].count;
      }
      violations := violations[key := entry];
    }

    method Forget()
      requires Valid()
      modifies this
      ensures Valid() && violations == map[] && reports == [] && lost == 0 && clock == old(clock)
    {
      NothingYet(clock);
      violations, reports, lost := map[], [], 0;
    }
  }
}
