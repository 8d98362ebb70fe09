/** What reaches the consumer of a provider's stream, measured on its events and on the decoded chunks apart. */
module SseDelivery {
  import opened Wrappers
  import opened SseProvider
  import opened SseProviderProof

  // ---- The chunks of a stream ----

  /** The chunks some payloads decode to, in order. */
  function Decoded(payloads: seq<string>, decode: string -> Option<Chunk>): seq<Chunk> {
    if payloads == [] then []
    else
      var last := payloads[|payloads| - 1];
      Decoded(payloads[..|payloads| - 1], decode)
      + (if last != "" && decode(last).Some? then [decode(last).value] else [])
  }

  /** The chunks of a stream that come before its end marker. */
  function Chunks(lines: seq<string>, decode: string -> Option<Chunk>): seq<Chunk> {
    Decoded(BeforeEnd(AllPayloads(lines)), decode)
  }

  /** The stream has an end marker, and no choice before it gives a reason to finish. */
  ghost predicate MarkerFinishes(lines: seq<string>, decode: string -> Option<Chunk>) {
    && END in AllPayloads(lines)
    && forall i, j :: 0 <= i < |Chunks(lines, decode)| && 0 <= j < |Chunks(lines, decode)[i].choices| ==>
         Chunks(lines, decode)[i].choices[j].finishReason == ""
  }

  // ---- Measures ----

  /** One list after the other. */
  function Flat<A, B>(s: seq<A>, f: A -> seq<B>): seq<B> {
    if s == [] then [] else Flat(s[..|s| - 1], f) + f(s[|s| - 1])
  }

  function TextOf(e: Event): seq<string> {
    if e.Token? then [e.text] else []
  }

  function ReasonOf(e: Event): seq<string> {
    if e.Finish? then [e.reason] else []
  }

  function CountsOf(e: Event): seq<(int, int, int)> {
    if e.Usage? then [(e.promptTokens, e.outputTokens, e.totalTokens)] else []
  }

  /** What chunks hold: something of each chunk's usage, then something of each of its choices. */
  function Held<B>(chunks: seq<Chunk>, ofUsage: Option<(int, int, int)> -> seq<B>, ofChoice: Choice -> seq<B>): seq<B> {
    if chunks == [] then []
    else
      var last := chunks[|chunks| - 1];
      Held(chunks[..|chunks| - 1], ofUsage, ofChoice) + (ofUsage(last.usage) + Flat(last.choices, ofChoice))
  }

  function NoUsage(usage: Option<(int, int, int)>): seq<string> {
    []
  }

  function NoChoice(c: Choice): seq<(int, int, int)> {
    []
  }

  function GivenUsage(usage: Option<(int, int, int)>): seq<(int, int, int)> {
    if usage.Some? then [usage.value] else []
  }

  function GivenContent(c: Choice): seq<string> {
    if |c.content| > 0 then [c.content] else []
  }

  function GivenReason(c: Choice): seq<string> {
    if |c.finishReason| > 0 then [c.finishReason] else []
  }

  lemma {:induction false} FlatJoins<A, B>(a: seq<A>, b: seq<A>, f: A -> seq<B>)
    ensures Flat(a + b, f) == Flat(a, f) + Flat(b, f)
  {
    if b == [] {
      assert a + b == a;
    } else {
      var n := |b| - 1;
      FlatJoins(a, b[..n], f);
      assert (a + b)[..|a + b| - 1] == a + b[..n];
    }
  }

  lemma FlatOne<A, B>(a: A, f: A -> seq<B>)
    ensures Flat([a], f) == f(a)
  {
    assert [a][..0] == [];
  }

  /** What a measure of events finds in what some choices tell. */
  lemma {:induction false} ChoicesMeasured<B>(choices: seq<Choice>, ofEvent: Event -> seq<B>,
                                              ofChoice: Choice -> seq<B>)
    requires forall c :: Flat(ChoiceEvents(c), ofEvent) == ofChoice(c)
    ensures Flat(ChoicesEvents(choices), ofEvent) == Flat(choices, ofChoice)
  {
    if choices != [] {
      var n := |choices| - 1;
      ChoicesMeasured(choices[..n], ofEvent, ofChoice);
      FlatJoins(ChoicesEvents(choices[..n]), ChoiceEvents(choices[n]), ofEvent);
    }
  }

  /** A measure of events that finds in the pieces of a chunk just what these say. */
  ghost predicate Measures<B(!new)>(ofEvent: Event -> seq<B>, ofUsage: Option<(int, int, int)> -> seq<B>,
                                    ofChoice: Choice -> seq<B>)
  {
    && (forall c :: Flat(ChoiceEvents(c), ofEvent) == ofChoice(c))
    && (forall c :: Flat(UsageEvents(c), ofEvent) == ofUsage(c.usage))
  }

  lemma ChunkMeasured<B(!new)>(c: Chunk, ofEvent: Event -> seq<B>, ofUsage: Option<(int, int, int)> -> seq<B>,
                               ofChoice: Choice -> seq<B>)
    requires Measures(ofEvent, ofUsage, ofChoice)
    ensures Flat(Offers(c), ofEvent) == ofUsage(c.usage) + Flat(c.choices, ofChoice)
  {
    hide Flat;
    FlatJoins(UsageEvents(c), ChoicesEvents(c.choices), ofEvent);
    ChoicesMeasured(c.choices, ofEvent, ofChoice);
  }

  lemma OneMoreHeld<B>(chunks: seq<Chunk>, c: Chunk, ofUsage: Option<(int, int, int)> -> seq<B>,
                       ofChoice: Choice -> seq<B>)
    ensures Held(chunks + [c], ofUsage, ofChoice)
            == Held(chunks, ofUsage, ofChoice) + (ofUsage(c.usage) + Flat(c.choices, ofChoice))
  {
    assert (chunks + [c])[..|chunks|] == chunks;
  }

  lemma {:induction false} ToldMeasured<B(!new)>(payloads: seq<string>, decode: string -> Option<Chunk>,
      ofEvent: Event -> seq<B>, ofUsage: Option<(int, int, int)> -> seq<B>, ofChoice: Choice -> seq<B>)
    requires Measures(ofEvent, ofUsage, ofChoice)
    ensures Flat(Told(payloads, decode), ofEvent) == Held(Decoded(payloads, decode), ofUsage, ofChoice)
  {
    if payloads != [] {
      hide Flat, Held, Measures;
      var front, last := payloads[..|payloads| - 1], payloads[|payloads| - 1];
      ToldMeasured(front, decode, ofEvent, ofUsage, ofChoice);
      if last != "" && decode(last).Some? {
        var c := decode(last).value;
        FlatJoins(Told(front, decode), Offers(c), ofEvent);
        ChunkMeasured(c, ofEvent, ofUsage, ofChoice);
        OneMoreHeld(Decoded(front, decode), c, ofUsage, ofChoice);
      } else {
        assert Told(payloads, decode) == Told(front, decode);
        assert Decoded(payloads, decode) == Decoded(front, decode);
      }
    }
  }

  lemma ChoiceTells(c: Choice)
    ensures Flat(ChoiceEvents(c), TextOf) == GivenContent(c) && Flat(ChoiceEvents(c), ReasonOf) == GivenReason(c)
    ensures Flat(ChoiceEvents(c), CountsOf) == NoChoice(c)
  {
    var text := if c.content != "" then [Token(c.content)] else [];
    var reason := if c.finishReason != "" then [Finish(c.finishReason)] else [];
    assert ChoiceEvents(c) == text + reason;
    FlatJoins(text, reason, TextOf);
    FlatJoins(text, reason, ReasonOf);
    FlatJoins(text, reason, CountsOf);
    assert forall e: Event :: [e][..0] == [];
  }

  lemma UsageTells(c: Chunk)
    ensures Flat(UsageEvents(c), TextOf) == NoUsage(c.usage) && Flat(UsageEvents(c), ReasonOf) == NoUsage(c.usage)
    ensures Flat(UsageEvents(c), CountsOf) == GivenUsage(c.usage)
  {
    if c.usage.Some? {
      FlatOne(Usage(c.usage.value.0, c.usage.value.1, c.usage.value.2), TextOf);
      FlatOne(Usage(c.usage.value.0, c.usage.value.1, c.usage.value.2), ReasonOf);
      FlatOne(Usage(c.usage.value.0, c.usage.value.1, c.usage.value.2), CountsOf);
    }
  }

  // ---- Order ----

  /** A place in a list of chunks: a chunk, then -1 for its usage or the number of a choice, then 0 for the choice's
      content or 1 for its reason to finish. */
  datatype Place = Place(chunk: int, choice: int, part: int)

  predicate Precedes(a: Place, b: Place) {
    a.chunk < b.chunk || (a.chunk == b.chunk && (a.choice < b.choice || (a.choice == b.choice && a.part < b.part)))
  }

  /** An event says what stands at a place. */
  ghost predicate Says(chunks: seq<Chunk>, at: Place, e: Event) {
    0 <= at.chunk < |chunks| &&
    var c := chunks[at.chunk];
    match e
    case Usage(prompt, output, total) =>
      at.choice == -1 && at.part == 0 && c.usage == Some((prompt, output, total))
    case Token(text) => 0 <= at.choice < |c.choices| && at.part == 0 && text == c.choices[at.choice].content != ""
    case Finish(reason) =>
      0 <= at.choice < |c.choices| && at.part == 1 && reason == c.choices[at.choice].finishReason != ""
  }

  /** The events say, each once and in order, all that stands before a place. */
  ghost predicate SaysBefore(chunks: seq<Chunk>, events: seq<Event>, places: seq<Place>, end: Place) {
    && |places| == |events|
    && (forall k :: 0 <= k < |events| ==> Says(chunks, places[k], events[k]) && Precedes(places[k], end))
    && (forall k, l :: 0 <= k < l < |places| ==> Precedes(places[k], places[l]))
    && forall at, e :: Says(chunks, at, e) && Precedes(at, end) ==> at in places
  }

  /** All that stands anywhere: usage before choices, a choice's content before its reason, chunk after chunk. */
  ghost predicate SaysAll(chunks: seq<Chunk>, events: seq<Event>, places: seq<Place>) {
    SaysBefore(chunks, events, places, Place(|chunks|, -1, 0))
  }

  /** From one place to the next: what stands there, if anything, is said. */
  lemma SayNext(chunks: seq<Chunk>, events: seq<Event>, places: seq<Place>, at: Place, next: Place, more: seq<Event>)
    returns (places': seq<Place>)
    requires SaysBefore(chunks, events, places, at) && Precedes(at, next)
    requires forall x, e :: Says(chunks, x, e) && Precedes(x, next) ==> Precedes(x, at) || x == at
    requires if more == [] then forall e :: !Says(chunks, at, e) else |more| == 1 && Says(chunks, at, more[0])
    ensures SaysBefore(chunks, events + more, places', next)
  {
    if more == [] {
      places' := places;
      assert events + more == events;
      assert forall x, e :: Says(chunks, x, e) && Precedes(x, next) ==> Precedes(x, at);
    } else {
      places' := places + [at];
    }
  }

  /** One choice: its content, then its reason. */
  lemma SayChoice(chunks: seq<Chunk>, events: seq<Event>, places: seq<Place>, i: nat, j: nat)
    returns (places': seq<Place>)
    requires i < |chunks| && j < |chunks[i].choices| && SaysBefore(chunks, events, places, Place(i, j, 0))
    ensures SaysBefore(chunks, events + ChoiceEvents(chunks[i].choices[j]), places', Place(i, j + 1, 0))
  {
    var c := chunks[i].choices[j];
    var text := if c.content != "" then [Token(c.content)] else [];
    var reason := if c.finishReason != "" then [Finish(c.finishReason)] else [];
    places' := SayNext(chunks, events, places, Place(i, j, 0), Place(i, j, 1), text);
    places' := SayNext(chunks, events + text, places', Place(i, j, 1), Place(i, j + 1, 0), reason);
    assert events + text + reason == events + ChoiceEvents(c);
  }

  lemma SayUsage(chunks: seq<Chunk>, events: seq<Event>, places: seq<Place>, i: nat)
    returns (places': seq<Place>)
    requires i < |chunks| && SaysBefore(chunks, events, places, Place(i, -1, 0))
    ensures SaysBefore(chunks, events + UsageEvents(chunks[i]), places', Place(i, 0, 0))
  {
    places' := SayNext(chunks, events, places, Place(i, -1, 0), Place(i, 0, 0), UsageEvents(chunks[i]));
  }

  lemma Regroup<T>(a: seq<T>, b: seq<T>, c: seq<T>)
    ensures (a + b) + c == a + (b + c)
  {
  }

  /** The first choices of a chunk. */
  lemma {:induction false} SayChoices(chunks: seq<Chunk>, events: seq<Event>, places: seq<Place>, i: nat, n: nat)
    returns (places': seq<Place>)
    requires i < |chunks| && n <= |chunks[i].choices| && SaysBefore(chunks, events, places, Place(i, 0, 0))
    ensures SaysBefore(chunks, events + ChoicesEvents(chunks[i].choices[..n]), places', Place(i, n, 0))
    decreases n
  {
    hide SaysBefore, ChoiceEvents;
    var choices := chunks[i].choices;
    if n == 0 {
      places' := places;
      assert events + ChoicesEvents(choices[..0]) == events;
    } else {
      hide ChoicesEvents;
      places' := SayChoices(chunks, events, places, i, n - 1);
      places' := SayChoice(chunks, events + ChoicesEvents(choices[..n - 1]), places', i, n - 1);
      ChoicesSoFar(choices, n - 1);
      Regroup(events, ChoicesEvents(choices[..n - 1]), ChoiceEvents(choices[n - 1]));
    }
  }

  lemma SayChunk(chunks: seq<Chunk>, events: seq<Event>, places: seq<Place>, i: nat)
    returns (places': seq<Place>)
    requires i < |chunks| && SaysBefore(chunks, events, places, Place(i, -1, 0))
    ensures SaysBefore(chunks, events + Offers(chunks[i]), places', Place(i + 1, -1, 0))
  {
    var c := chunks[i];
    assert c.choices[..|c.choices|] == c.choices;
    assert events + UsageEvents(c) + ChoicesEvents(c.choices) == events + Offers(c);
    places' := SayUsage(chunks, events, places, i);
    places' := SayChoices(chunks, events + UsageEvents(c), places', i, |c.choices|);
    var none: seq<Event> := [];
    assert events + Offers(c) + none == events + Offers(c);
    places' := SayNext(chunks, events + Offers(c), places', Place(i, |c.choices|, 0), Place(i + 1, -1, 0), none);
  }

  ghost predicate InOrder(chunks: seq<Chunk>, events: seq<Event>) {
    exists places :: SaysAll(chunks, events, places)
  }

  lemma {:induction false} SayChunks(chunks: seq<Chunk>, n: nat) returns (places: seq<Place>)
    requires n <= |chunks|
    ensures SaysBefore(chunks, Flat(chunks[..n], Offers), places, Place(n, -1, 0))
    decreases n
  {
    if n == 0 {
      places := [];
    } else {
      places := SayChunks(chunks, n - 1);
      assert chunks[..n][..n - 1] == chunks[..n - 1];
      places := SayChunk(chunks, Flat(chunks[..n - 1], Offers), places, n - 1);
    }
  }

  lemma {:induction false} ToldByChunks(payloads: seq<string>, decode: string -> Option<Chunk>)
    ensures Told(payloads, decode) == Flat(Decoded(payloads, decode), Offers)
  {
    if payloads != [] {
      var front, last := payloads[..|payloads| - 1], payloads[|payloads| - 1];
      ToldByChunks(front, decode);
      if last != "" && decode(last).Some? {
        assert Decoded(payloads, decode)[..|Decoded(payloads, decode)| - 1] == Decoded(front, decode);
      } else {
        assert Told(payloads, decode) == Told(front, decode);
        assert Decoded(payloads, decode) == Decoded(front, decode);
      }
    }
  }

  /** What stands at a place is said by one event only. */
  lemma OneSaying(chunks: seq<Chunk>, at: Place, a: Event, b: Event)
    requires Says(chunks, at, a) && Says(chunks, at, b)
    ensures a == b
  {
  }

  ghost predicate Rising(places: seq<Place>) {
    forall k, l :: 0 <= k < l < |places| ==> Precedes(places[k], places[l])
  }

  /** Rising lists of the same places are the same. */
  lemma {:induction false} SamePlaces(p: seq<Place>, q: seq<Place>, k: nat)
    requires Rising(p) && Rising(q) && (forall at :: at in p <==> at in q) && k <= |p|
    ensures k <= |q| && p[..k] == q[..k]
    decreases k
  {
    if k > 0 {
      SamePlaces(p, q, k - 1);
      assert p[k - 1] in q;
      var m :| 0 <= m < |q| && q[m] == p[k - 1];
      assert q[k - 1] in p;
      var l :| 0 <= l < |p| && p[l] == q[k - 1];
    }
  }

  lemma SamePlacesSaid(chunks: seq<Chunk>, a: seq<Event>, p: seq<Place>, b: seq<Event>, q: seq<Place>)
    requires SaysAll(chunks, a, p) && SaysAll(chunks, b, q)
    ensures forall at :: at in p ==> at in q
  {
    forall at | at in p ensures at in q {
      var k :| 0 <= k < |p| && p[k] == at;
      assert Says(chunks, p[k], a[k]);
    }
  }

  /** There is one way to say all that some chunks hold, in order. */
  lemma OneTelling(chunks: seq<Chunk>, a: seq<Event>, p: seq<Place>, b: seq<Event>, q: seq<Place>)
    requires SaysAll(chunks, a, p) && SaysAll(chunks, b, q)
    ensures a == b
  {
    SamePlacesSaid(chunks, a, p, b, q);
    SamePlacesSaid(chunks, b, q, a, p);
    SamePlaces(p, q, |p|);
    SamePlaces(q, p, |q|);
    assert p[..|p|] == p && q[..|q|] == q;
    forall k | 0 <= k < |a| ensures a[k] == b[k] {
      OneSaying(chunks, p[k], a[k], b[k]);
    }
  }

  // ---- The whole stream ----

  /** Every chunk's usage, content and reasons, in the order of the chunks, and a last "stop" if that is added. */
  ghost predicate Entire(chunks: seq<Chunk>, events: seq<Event>, stop: bool) {
    && Flat(events, TextOf) == Held(chunks, NoUsage, GivenContent)
    && Flat(events, ReasonOf) == Held(chunks, NoUsage, GivenReason) + (if stop then ["stop"] else [])
    && Flat(events, CountsOf) == Held(chunks, GivenUsage, NoChoice)
    && (stop ==> events != [] && events[|events| - 1] == Finish("stop"))
    && InOrder(chunks, if stop then events[..|events| - 1] else events)
  }

  /** What a stream that is done has delivered; "stop" is added exactly when there is an end marker and no reason came
      before it. */
  ghost predicate Delivered(lines: seq<string>, decode: string -> Option<Chunk>, events: seq<Event>) {
    Entire(Chunks(lines, decode), events, MarkerFinishes(lines, decode))
  }

  lemma FinishIsSaid(chunks: seq<Chunk>, events: seq<Event>, places: seq<Place>)
    requires SaysAll(chunks, events, places)
    ensures HasFinish(events)
            <==> exists i, j :: 0 <= i < |chunks| && 0 <= j < |chunks[i].choices|
                                && chunks[i].choices[j].finishReason != ""
  {
    if HasFinish(events) {
      var k :| 0 <= k < |events| && events[k].Finish?;
      assert Says(chunks, places[k], events[k]);
      assert chunks[places[k].chunk].choices[places[k].choice].finishReason != "";
    }
    if i, j :| 0 <= i < |chunks| && 0 <= j < |chunks[i].choices| && chunks[i].choices[j].finishReason != "" {
      var e := Finish(chunks[i].choices[j].finishReason);
      assert Says(chunks, Place(i, j, 1), e);
      var k :| 0 <= k < |places| && places[k] == Place(i, j, 1);
      OneSaying(chunks, places[k], events[k], e);
      assert e in events;
    }
  }

  lemma ToldIsDelivered(payloads: seq<string>, decode: string -> Option<Chunk>)
    ensures var told, chunks := Told(payloads, decode), Decoded(payloads, decode);
            && Flat(told, TextOf) == Held(chunks, NoUsage, GivenContent)
            && Flat(told, ReasonOf) == Held(chunks, NoUsage, GivenReason)
            && Flat(told, CountsOf) == Held(chunks, GivenUsage, NoChoice)
            && InOrder(chunks, told)
  {
    hide Told, Decoded, Flat, Held, SaysBefore;
    assert Measures(TextOf, NoUsage, GivenContent) && Measures(ReasonOf, NoUsage, GivenReason)
           && Measures(CountsOf, GivenUsage, NoChoice) by {
      forall c ensures Flat(ChoiceEvents(c), TextOf) == GivenContent(c)
                       && Flat(ChoiceEvents(c), ReasonOf) == GivenReason(c)
                       && Flat(ChoiceEvents(c), CountsOf) == NoChoice(c) {
        ChoiceTells(c);
      }
      forall c ensures Flat(UsageEvents(c), TextOf) == NoUsage(c.usage)
                       && Flat(UsageEvents(c), ReasonOf) == NoUsage(c.usage)
                       && Flat(UsageEvents(c), CountsOf) == GivenUsage(c.usage) {
        UsageTells(c);
      }
    }
    ToldMeasured(payloads, decode, TextOf, NoUsage, GivenContent);
    ToldMeasured(payloads, decode, ReasonOf, NoUsage, GivenReason);
    ToldMeasured(payloads, decode, CountsOf, GivenUsage, NoChoice);
    var chunks := Decoded(payloads, decode);
    var places := SayChunks(chunks, |chunks|);
    assert chunks[..|chunks|] == chunks;
    ToldByChunks(payloads, decode);
    assert SaysAll(chunks, Told(payloads, decode), places);
  }

  /** A nil result means that all of it was delivered, whatever the consumer, the cancellation and the connection. */
  lemma DoneDelivers(
      lines: seq<string>, cancelAt: nat, readFails: bool, decode: string -> Option<Chunk>, accepts: nat -> bool)
    requires Consumed(lines, cancelAt, readFails, decode, accepts).0 == Done
    ensures Delivered(lines, decode, Consumed(lines, cancelAt, readFails, decode, accepts).1)
  {
    DoneStreamTellsExactly(lines, cancelAt, readFails, decode, accepts);
    var payloads := BeforeEnd(AllPayloads(lines));
    FinishToldExactly(lines, decode);
    ToldIsDelivered(payloads, decode);
    hide Consumed, Told, Decoded, Flat, Held, InOrder, BeforeEnd, AllPayloads, MarkerFinishes, HasFinish, Entire;
    WithStop(Decoded(payloads, decode), Told(payloads, decode), MarkerFinishes(lines, decode));
  }

  lemma FinishToldExactly(lines: seq<string>, decode: string -> Option<Chunk>)
    ensures MarkerFinishes(lines, decode)
            <==> END in AllPayloads(lines) && !HasFinish(Told(BeforeEnd(AllPayloads(lines)), decode))
  {
    hide Told, Decoded, BeforeEnd, AllPayloads, HasFinish, SaysAll;
    var told := Told(BeforeEnd(AllPayloads(lines)), decode);
    ToldIsDelivered(BeforeEnd(AllPayloads(lines)), decode);
    var places :| SaysAll(Chunks(lines, decode), told, places);
    FinishIsSaid(Chunks(lines, decode), told, places);
  }

  lemma WithStop(chunks: seq<Chunk>, told: seq<Event>, stop: bool)
    requires Entire(chunks, told, false)
    ensures Entire(chunks, told + (if stop then [Finish("stop")] else []), stop)
  {
    hide Flat, Held, InOrder;
    var last: seq<Event> := if stop then [Finish("stop")] else [];
    StopMeasured(told, last);
    assert told + [] == told;
    assert (told + [Finish("stop")])[..|told|] == told;
  }

  lemma StopMeasured(told: seq<Event>, stop: seq<Event>)
    requires stop in {[], [Finish("stop")]}
    ensures Flat(told + stop, TextOf) == Flat(told, TextOf) && Flat(told + stop, CountsOf) == Flat(told, CountsOf)
    ensures Flat(told + stop, ReasonOf) == Flat(told, ReasonOf) + (if stop == [] then [] else ["stop"])
  {
    FlatJoins(told, stop, TextOf);
    FlatJoins(told, stop, CountsOf);
    FlatJoins(told, stop, ReasonOf);
  }

  // ---- A stream cut short ----

  lemma {:induction false} ToldGrows(part: seq<string>, whole: seq<string>, decode: string -> Option<Chunk>)
    requires part <= whole
    ensures Told(part, decode) <= Told(whole, decode)
    decreases |whole|
  {
    if |part| < |whole| {
      ToldGrows(part, whole[..|whole| - 1], decode);
    } else {
      assert part == whole;
    }
  }

  lemma {:induction false} BeforeEndGrows(part: seq<string>, whole: seq<string>)
    requires part <= whole && END !in part
    ensures part <= BeforeEnd(whole)
  {
    if part != [] {
      assert part[0] in part;
      BeforeEndGrows(part[1..], whole[1..]);
      assert part == [part[0]] + part[1..];
    }
  }

  /** Before an end marker, a reader whose every event is taken has told a beginning of it all. */
  lemma {:induction false} ToldSoFar(payloads: seq<string>, decode: string -> Option<Chunk>)
    requires END !in payloads
    ensures Interpret(payloads, decode, TakesAll).events <= Told(payloads, decode)
  {
    if payloads != [] {
      var front, last := payloads[..|payloads| - 1], payloads[|payloads| - 1];
      ToldSoFar(front, decode);
      ToldGrows(front, payloads, decode);
      PlainInterpretation(front, decode, TakesAll);
      if Interpret(front, decode, TakesAll).Going? && last != "" && decode(last).Some? {
        NothingRefused(Told(front, decode), Offers(decode(last).value), TakesAll);
      }
    }
  }

  lemma ExpectedSoFar(payloads: seq<string>, decode: string -> Option<Chunk>, accepts: nat -> bool)
    ensures Interpret(payloads, decode, accepts).events <= Expected(payloads, decode)
  {
    AnyConsumer(payloads, decode, accepts);
    BeforeEndIsPrefix(payloads);
    var before := BeforeEnd(payloads);
    ToldSoFar(before, decode);
    if END in payloads {
      EndIsRead(payloads, decode, TakesAll);
      PlainInterpretation(before, decode, TakesAll);
      if Interpret(before, decode, TakesAll).Going? {
        MarkerConcludes(Interpret(before, decode, TakesAll), decode, TakesAll);
      }
    }
  }

  lemma ExpectedGrows(part: seq<string>, whole: seq<string>, decode: string -> Option<Chunk>)
    requires part <= whole
    ensures Expected(part, decode) <= Expected(whole, decode)
  {
    if END in part {
      BeforeEndOfLonger(part, whole);
    } else {
      BeforeEndIsPrefix(part);
      BeforeEndGrows(part, whole);
      ToldGrows(part, BeforeEnd(whole), decode);
    }
  }

  /** Whatever stops a stream, and wherever: what was emitted is a beginning of what all of it tells. */
  lemma EmittedIsABeginning(
      lines: seq<string>, cancelAt: nat, readFails: bool, decode: string -> Option<Chunk>, accepts: nat -> bool)
    ensures Consumed(lines, cancelAt, readFails, decode, accepts).1 <= Expected(AllPayloads(lines), decode)
  {
    hide Groups, Interpret, Expected, Payload;
    var part, whole := Payloads(Groups(Seen(lines, cancelAt)).0), AllPayloads(lines);
    if cancelAt < |lines| {
      GroupsGrow(lines, cancelAt);
    }
    assert whole[..|part|] == part;
    ExpectedSoFar(part, decode, accepts);
    ExpectedGrows(part, whole, decode);
    ExpectedSoFar(whole, decode, accepts);
    UndisturbedStream(lines, |lines|, decode, accepts);
  }
}
