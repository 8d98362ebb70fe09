/** The fixed-window limiter, against a counter that remembers every call. */
module RateLimiter {

  const MINUTE := 60_000_000_000

  /** The start of the minute a time (in nanoseconds since Go's zero time) falls in. */
  function Window(now: nat): nat {
    now / MINUTE * MINUTE
  }

  datatype Bucket = Bucket(window: nat, count: nat)

  /** One past call and its answer. */
  datatype Call = Call(key: string, limit: int, now: nat, allowed: bool)

  predicate AdmittedCall(c: Call, key: string, lo: int, hi: int) {
    c.allowed && c.key == key && lo <= c.now < hi
  }

  /** How many calls of a key were admitted at times in [lo, hi). */
  function Admitted(calls: seq<Call>, key: string, lo: int, hi: int): nat {
    if calls == [] then 0
    else Admitted(calls[..|calls| - 1], key, lo, hi) + (if AdmittedCall(calls[|calls| - 1], key, lo, hi) then 1 else 0)
  }

  /** Admissions of a key in the minute that starts at `window`. */
  function UsedIn(calls: seq<Call>, key: string, window: nat): nat {
    Admitted(calls, key, window, window + MINUTE)
  }

  function AtLeastOne(limit: int): int {
    if limit < 1 then 1 else limit
  }

  /** The answer of a counter over the whole history: room left in this minute? */
  function Answer(calls: seq<Call>, key: string, limit: int, now: nat): (bool, int) {
    var used := UsedIn(calls, key, Window(now));
    if used >= AtLeastOne(limit) then (false, 0) else (true, AtLeastOne(limit) - used - 1)
  }

  /** The start of a minute is the last whole minute up to a moment. */
  lemma WindowHolds(now: nat)
    ensures Window(now) <= now < Window(now) + MINUTE && Window(now) % (60 * 1_000_000_000) == 0
  {
  }

  lemma LaterWindow(a: nat, b: nat)
    requires a <= b
    ensures Window(a) <= Window(b) && (Window(a) < Window(b) ==> Window(a) + MINUTE <= Window(b))
  {
    assert a / MINUTE <= b / MINUTE;
  }

  /** A key's count among the buckets. */
  function CountOf(buckets: map<string, Bucket>, key: string): nat {
    if key in buckets then buckets[key].count else 0
  }

  /** Only buckets of the swept minute are held, each with that key's exact count for the minute. */
  ghost predicate Faithful(buckets: map<string, Bucket>, swept: nat, calls: seq<Call>) {
    && Window(swept) == swept
    && (forall i :: 0 <= i < |calls| ==> calls[i].now < swept + MINUTE)
    && (forall k :: k in buckets ==> buckets[k].window == swept && buckets[k].count > 0)
    && (forall k :: UsedIn(calls, k, swept) == CountOf(buckets, k))
  }

  /** The buckets after one more call in the swept minute. */
  function Counted(buckets: map<string, Bucket>, swept: nat, key: string, limit: int): map<string, Bucket> {
    var used := CountOf(buckets, key);
    if used >= AtLeastOne(limit) then buckets else buckets[key := Bucket(swept, used + 1)]
  }

  lemma NewMinute(buckets: map<string, Bucket>, swept: nat, calls: seq<Call>, window: nat)
    requires Faithful(buckets, swept, calls) && swept < window && Window(window) == window
    ensures Faithful(map[], window, calls)
    ensures (map k | k in buckets && buckets[k].window >= window :: buckets[k]) == map[]
  {
    LaterWindow(swept, window);
    NothingYet(calls, window);
  }

  lemma OneMoreCall(buckets: map<string, Bucket>, swept: nat, calls: seq<Call>, key: string, limit: int, now: nat)
    requires Faithful(buckets, swept, calls) && Window(now) == swept
    ensures var c := Call(key, limit, now, CountOf(buckets, key) < AtLeastOne(limit));
            Faithful(Counted(buckets, swept, key, limit), swept, calls + [c])
  {
    var c := Call(key, limit, now, CountOf(buckets, key) < AtLeastOne(limit));
    var buckets' := Counted(buckets, swept, key, limit);
    WindowHolds(now);
    CallCounts(calls, c, swept);
    forall k ensures UsedIn(calls + [c], k, swept) == CountOf(buckets', k) {
      assert UsedIn(calls, k, swept) == CountOf(buckets, k);
    }
  }

  class FixedWindowLimiter {
    var buckets: map<string, Bucket>
    var swept: nat
    ghost var calls: seq<Call>

    ghost predicate Valid()
      reads this
    {
      Faithful(buckets, swept, calls) && Honest(calls)
    }

    constructor ()
      ensures Valid() && calls == [] && buckets == map[]
    {
      buckets := map[];
      swept := 0;
      calls := [];
    }

    /** Drops every bucket of an earlier minute. */
    method Sweep(window: nat)
      modifies this`buckets
      ensures buckets == map k | k in old(buckets) && old(buckets)[k].window >= window :: old(buckets)[k]
    {
      var rest := buckets.Keys;
      while rest != {}
        invariant rest <= old(buckets).Keys
        invariant buckets == map k | k in old(buckets)
                  && (k in rest || old(buckets)[k].window >= window) :: old(buckets)[k]
        decreases |rest|
      {
        var candidate :| candidate in rest;
        if buckets[candidate].window < window {
          buckets := buckets - {candidate};
        }
        rest := rest - {candidate};
      }
    }

    /** With a clock that has not gone back past the swept minute, the answer is the full history's answer. */
    method Allow(key: string, limit: int, now: nat) returns (allowed: bool, remaining: int)
      requires Valid() && swept <= now
      modifies this
      ensures Valid() && swept == Window(now)
      ensures (allowed, remaining) == Answer(old(calls), key, limit, now)
      ensures var used := UsedIn(old(calls), key, Window(now));
              && (allowed <==> used == 0 || used < limit)
              && remaining == if allowed && limit > 0 then limit - used - 1 else 0
      ensures calls == old(calls) + [Call(key, limit, now, allowed)]
      ensures forall k :: k in buckets ==> buckets[k].window == Window(now)
    {
      var most := AtLeastOne(limit);
      var window := Window(now);
      CurrentMinute(swept, now);
      if window > swept {
        NewMinute(buckets, swept, calls, window);
        Sweep(window);
        swept := window;
      }
      OneMoreCall(buckets, swept, calls, key, limit, now);
      var bucket := if key in buckets then buckets[key] else Bucket(0, 0);
      if bucket.window != window {
        bucket := Bucket(window, 0);
      }
      allowed := Admit(key, bucket, most);
      remaining := if allowed then most - bucket.count - 1 else 0;
      HonestGrows(calls, Call(key, limit, now, allowed));
      calls := calls + [Call(key, limit, now, allowed)];
    }

    /** Counts the call if there is room. */
    method Admit(key: string, bucket: Bucket, most: int) returns (allowed: bool)
      modifies this`buckets
      ensures allowed == (bucket.count < most)
      ensures buckets == if allowed then old(buckets)[key := bucket.(count := bucket.count + 1)] else old(buckets)
    {
      if bucket.count >= most {
        return false;
      }
      buckets := buckets[key := bucket.(count := bucket.count + 1)];
      return true;
    }

    /** Of the limiter's own history: under a fixed limit a minute admits at most the limit for a key, and any sixty
        seconds at most twice the limit. */
    lemma AdmissionsAreBounded(key: string, limit: int, from: nat)
      requires Valid() && FixedLimit(calls, key, limit)
      ensures from % 60_000_000_000 == 0 ==>
                Admitted(calls, key, from, from + 60_000_000_000) <= if limit > 0 then limit else 1
      ensures Admitted(calls, key, from, from + 60_000_000_000) <= if limit > 0 then 2 * limit else 2
    {
      if from % MINUTE == 0 {
        MinuteIsBounded(calls, key, limit, from);
      }
      AnyMinuteIsTwiceBounded(calls, key, limit, from);
    }
  }

  /** The minute of a time that has not gone back is the swept one or a later one. */
  lemma CurrentMinute(swept: nat, now: nat)
    requires Window(swept) == swept && swept <= now
    ensures swept <= Window(now) <= now < Window(now) + MINUTE && Window(Window(now)) == Window(now)
  {
    WindowHolds(now);
    LaterWindow(swept, now);
  }

  lemma {:induction false} NothingYet(calls: seq<Call>, window: nat)
    requires forall i :: 0 <= i < |calls| ==> calls[i].now < window
    ensures forall k :: UsedIn(calls, k, window) == 0
  {
    if calls != [] {
      var before := calls[..|calls| - 1];
      NothingYet(before, window);
      forall k ensures UsedIn(calls, k, window) == 0 {
        assert UsedIn(before, k, window) == 0;
      }
    }
  }

  lemma CallCounts(calls: seq<Call>, c: Call, window: nat)
    ensures forall k :: UsedIn(calls + [c], k, window)
                        == UsedIn(calls, k, window) + (if AdmittedCall(c, k, window, window + MINUTE) then 1 else 0)
  {
    forall k
      ensures UsedIn(calls + [c], k, window)
              == UsedIn(calls, k, window) + (if AdmittedCall(c, k, window, window + MINUTE) then 1 else 0)
    {
      assert (calls + [c])[..|calls|] == calls;
    }
  }

  // ---- Over time ----

  /** A history every answer of which the counter gives. */
  ghost predicate Honest(calls: seq<Call>) {
    forall i :: 0 <= i < |calls| ==>
      calls[i].allowed == Answer(calls[..i], calls[i].key, calls[i].limit, calls[i].now).0
  }

  ghost predicate FixedLimit(calls: seq<Call>, key: string, limit: int) {
    forall i :: 0 <= i < |calls| && calls[i].key == key ==> calls[i].limit == limit
  }

  lemma HonestGrows(calls: seq<Call>, c: Call)
    requires Honest(calls) && c.allowed == Answer(calls, c.key, c.limit, c.now).0
    ensures Honest(calls + [c])
  {
    var more := calls + [c];
    forall i | 0 <= i < |more| ensures more[i].allowed == Answer(more[..i], more[i].key, more[i].limit, more[i].now).0 {
      assert more[..i] == if i < |calls| then calls[..i] else calls;
    }
  }

  lemma HonestPrefix(calls: seq<Call>, key: string, limit: int)
    requires calls != [] && Honest(calls) && FixedLimit(calls, key, limit)
    ensures Honest(calls[..|calls| - 1]) && FixedLimit(calls[..|calls| - 1], key, limit)
  {
    var before := calls[..|calls| - 1];
    forall i | 0 <= i < |before|
      ensures before[i].allowed == Answer(before[..i], before[i].key, before[i].limit, before[i].now).0
    {
      assert before[..i] == calls[..i];
    }
  }

  lemma {:induction false} MinuteIsBounded(calls: seq<Call>, key: string, limit: int, window: nat)
    requires Honest(calls) && FixedLimit(calls, key, limit) && Window(window) == window
    ensures UsedIn(calls, key, window) <= AtLeastOne(limit)
  {
    if calls != [] {
      HonestPrefix(calls, key, limit);
      MinuteIsBounded(calls[..|calls| - 1], key, limit, window);
      var c := calls[|calls| - 1];
      if AdmittedCall(c, key, window, window + MINUTE) {
        SameMinute(c.now, window);
        assert c.allowed == Answer(calls[..|calls| - 1], key, limit, c.now).0;
      }
    }
  }

  lemma SameMinute(now: nat, window: nat)
    requires Window(window) == window && window <= now < window + MINUTE
    ensures Window(now) == window
  {
    assert window / MINUTE * MINUTE == window;
  }

  lemma {:induction false} IntervalSplits(calls: seq<Call>, key: string, lo: int, mid: int, hi: int, top: int,
                                          bottom: int)
    requires bottom <= lo <= mid <= hi <= top
    ensures Admitted(calls, key, lo, hi) <= Admitted(calls, key, bottom, mid) + Admitted(calls, key, mid, top)
  {
    if calls != [] {
      IntervalSplits(calls[..|calls| - 1], key, lo, mid, hi, top, bottom);
    }
  }

  /** Under a fixed limit, any sixty seconds admit at most twice the limit for one key. */
  lemma AnyMinuteIsTwiceBounded(calls: seq<Call>, key: string, limit: int, from: nat)
    requires Honest(calls) && FixedLimit(calls, key, limit)
    ensures Admitted(calls, key, from, from + MINUTE) <= 2 * AtLeastOne(limit)
  {
    var first := Window(from);
    var second := first + MINUTE;
    WindowHolds(from);
    assert Window(first) == first && Window(second) == second by {
      assert second == (from / MINUTE + 1) * MINUTE;
    }
    IntervalSplits(calls, key, from, second, from + MINUTE, second + MINUTE, first);
    MinuteIsBounded(calls, key, limit, first);
    MinuteIsBounded(calls, key, limit, second);
  }
}
