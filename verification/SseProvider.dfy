/** The AI provider's event stream: the line-by-line reader against its meaning event by event. */
module SseProvider {
  import opened Wrappers
  import opened Text

  datatype Event =
    | Usage(promptTokens: int, outputTokens: int, totalTokens: int)
    | Token(text: string)
    | Finish(reason: string)

  datatype Choice = Choice(content: string, finishReason: string)

  /** One decoded chunk; `usage`, if present, is a usage event. */
  datatype Chunk = Chunk(usage: Option<(int, int, int)>, choices: seq<Choice>)

  datatype Outcome = Done | DecodeFailed | EmitFailed | Cancelled | ReadFailed | NoFinish

  /** Where a stream stands: still being read, or over. `finished` is the reader's finishSent flag. */
  datatype Status = Going(events: seq<Event>, finished: bool) | Ended(outcome: Outcome, events: seq<Event>)

  const END := "[DONE]"

  // ---- Lines ----

  /** What a line means for the event being read. */
  datatype Field = Blank | Value(text: string) | Other

  /** strings.TrimPrefix(s, " "). */
  function DropSpace(s: string): string {
    if s != "" && s[0] == ' ' then s[1..] else s
  }

  function Read(line: string): Field {
    if Trim(line) == "" then Blank
    else
      var colon := Index(line, ":");
      if colon == -1 || Trim(line[..colon]) != "data" then Other else Value(DropSpace(line[colon + 1..]))
  }

  /** The data values of each event a blank line has ended, and those of the event still open. */
  function Groups(lines: seq<string>): (seq<seq<string>>, seq<string>) {
    if lines == [] then ([], [])
    else
      var before := Groups(lines[..|lines| - 1]);
      match Read(lines[|lines| - 1])
      case Blank => (before.0 + [before.1], [])
      case Value(text) => (before.0, before.1 + [text])
      case Other => before
  }

  /** The values as the reader gathers them: no separator while nothing but empty values came. */
  function Buffer(values: seq<string>): string {
    if values == [] then ""
    else
      var before := Buffer(values[..|values| - 1]);
      before + (if before != "" then "\n" else "") + values[|values| - 1]
  }

  function Payload(values: seq<string>): string {
    Trim(Join(values))
  }

  function Payloads(groups: seq<seq<string>>): seq<string> {
    seq(|groups|, i requires 0 <= i < |groups| => Payload(groups[i]))
  }

  /** One more value after a text that trims like the buffer so far. */
  lemma BufferedTrims(buffer: string, joined: string, last: string)
    requires TrimLeft(buffer) == TrimLeft(joined) && (buffer == "" ==> TrimLeft(joined) == "")
    ensures var more := if buffer == "" then last else buffer + "\n" + last;
            && TrimLeft(more) == TrimLeft(joined + "\n" + last)
            && (more == "" ==> TrimLeft(joined + "\n" + last) == "")
  {
    TrimLeftAppend(joined, "\n" + last);
    assert joined + "\n" + last == joined + ("\n" + last);
    if buffer == "" {
      assert ("\n" + last)[1..] == last;
    } else {
      TrimLeftAppend(buffer, "\n" + last);
      assert buffer + "\n" + last == buffer + ("\n" + last);
    }
  }

  /** Dropping separators at the front does not show once the text is trimmed. */
  lemma {:induction false} BufferTrimsLikeJoin(values: seq<string>)
    ensures TrimLeft(Buffer(values)) == TrimLeft(Join(values))
    ensures Buffer(values) == "" ==> TrimLeft(Join(values)) == ""
  {
    if values != [] {
      var front, last := values[..|values| - 1], values[|values| - 1];
      BufferTrimsLikeJoin(front);
      if front == [] {
        assert values == [last] && Buffer(front) == "";
        assert Buffer(values) == last;
      } else {
        assert values == front + [last];
        JoinAppend(front, last);
        BufferedTrims(Buffer(front), Join(front), last);
        assert Buffer(values) == if Buffer(front) == "" then last else Buffer(front) + "\n" + last;
      }
    }
  }

  lemma {:induction false} TrimLeftAppend(a: string, b: string)
    ensures TrimLeft(a + b) == if TrimLeft(a) == "" then TrimLeft(b) else TrimLeft(a) + b
  {
    if a == "" {
      assert a + b == b;
    } else if IsSpace(a[0]) {
      assert (a + b)[1..] == a[1..] + b;
      TrimLeftAppend(a[1..], b);
    }
  }

  lemma BufferIsPayload(values: seq<string>)
    ensures Trim(Buffer(values)) == Payload(values)
  {
    BufferTrimsLikeJoin(values);
  }

  // ---- Events ----

  predicate HasFinish(events: seq<Event>) {
    exists e :: e in events && e.Finish?
  }

  function ChoiceEvents(c: Choice): seq<Event> {
    (if c.content != "" then [Token(c.content)] else [])
    + (if c.finishReason != "" then [Finish(c.finishReason)] else [])
  }

  function ChoicesEvents(choices: seq<Choice>): seq<Event> {
    if choices == [] then [] else ChoicesEvents(choices[..|choices| - 1]) + ChoiceEvents(choices[|choices| - 1])
  }

  function UsageEvents(chunk: Chunk): seq<Event> {
    match chunk.usage
    case None => []
    case Some(u) => [Usage(u.0, u.1, u.2)]
  }

  function Offers(chunk: Chunk): seq<Event> {
    UsageEvents(chunk) + ChoicesEvents(chunk.choices)
  }

  /** Emitting one by one until one is refused; `accepts(n)` is the answer to the event after `n` accepted ones. */
  function OfferAll(events: seq<Event>, offers: seq<Event>, accepts: nat -> bool): (seq<Event>, bool) {
    if offers == [] then (events, true)
    else
      var before := OfferAll(events, offers[..|offers| - 1], accepts);
      if !before.1 || !accepts(|before.0|) then (before.0, false)
      else (before.0 + [offers[|offers| - 1]], true)
  }

  function Dispatched(st: Status, payload: string, decode: string -> Option<Chunk>, accepts: nat -> bool): Status
    requires st.Going?
  {
    if payload == "" then st
    else if payload == END then
      if st.finished then Ended(Done, st.events)
      else if accepts(|st.events|) then Ended(Done, st.events + [Finish("stop")])
      else Ended(EmitFailed, st.events)
    else match decode(payload)
      case None => Ended(DecodeFailed, st.events)
      case Some(chunk) =>
        var o := OfferAll(st.events, Offers(chunk), accepts);
        if o.1 then Going(o.0, st.finished || HasFinish(Offers(chunk))) else Ended(EmitFailed, o.0)
  }

  /** The events of a stream, payload by payload; once it is over, what follows is not read. */
  function Interpret(payloads: seq<string>, decode: string -> Option<Chunk>, accepts: nat -> bool): Status {
    if payloads == [] then Going([], false)
    else
      var before := Interpret(payloads[..|payloads| - 1], decode, accepts);
      if before.Ended? then before else Dispatched(before, payloads[|payloads| - 1], decode, accepts)
  }

  function Concluded(st: Status): (Outcome, seq<Event>) {
    if st.Ended? then (st.outcome, st.events)
    else (if st.finished then Done else NoFinish, st.events)
  }

  /** The lines looked at before the request is cancelled. */
  function Seen(lines: seq<string>, cancelAt: nat): seq<string> {
    if cancelAt < |lines| then lines[..cancelAt] else lines
  }

  /** The whole stream: the request is cancelled before line `cancelAt` is looked at, or never if there are not
      that many lines; `readFails` is whether the connection broke after the last line. */
  function Consumed(
      lines: seq<string>, cancelAt: nat, readFails: bool, decode: string -> Option<Chunk>, accepts: nat -> bool)
      : (Outcome, seq<Event>)
  {
    var g := Groups(Seen(lines, cancelAt));
    var st := Interpret(Payloads(g.0), decode, accepts);
    if st.Ended? then (st.outcome, st.events)
    else if cancelAt < |lines| then (Cancelled, st.events)
    else if readFails then (ReadFailed, st.events)
    else Concluded(Dispatched(st, Payload(g.1), decode, accepts))
  }

  lemma OfferOne(events: seq<Event>, offers: seq<Event>, e: Event, accepts: nat -> bool)
    ensures var before := OfferAll(events, offers, accepts);
            OfferAll(events, offers + [e], accepts)
            == if !before.1 || !accepts(|before.0|) then (before.0, false) else (before.0 + [e], true)
  {
    assert (offers + [e])[..|offers|] == offers;
  }

  /** Once an event is refused, offering more changes nothing. */
  lemma {:induction false} RefusalStands(events: seq<Event>, offers: seq<Event>, more: seq<Event>, accepts: nat -> bool)
    requires !OfferAll(events, offers, accepts).1
    ensures OfferAll(events, offers + more, accepts) == OfferAll(events, offers, accepts)
  {
    if more == [] {
      assert offers + more == offers;
    } else {
      var n := |more| - 1;
      RefusalStands(events, offers, more[..n], accepts);
      OfferOne(events, offers + more[..n], more[n], accepts);
      assert offers + more[..n] + [more[n]] == offers + more;
    }
  }

  lemma RefusedPart(events: seq<Event>, part: seq<Event>, whole: seq<Event>, accepts: nat -> bool)
    requires part <= whole && !OfferAll(events, part, accepts).1
    ensures OfferAll(events, whole, accepts) == OfferAll(events, part, accepts)
  {
    RefusalStands(events, part, whole[|part|..], accepts);
    assert part + whole[|part|..] == whole;
  }

  lemma {:induction false} ChoicesSoFar(choices: seq<Choice>, i: nat)
    requires i < |choices|
    ensures ChoicesEvents(choices[..i + 1]) == ChoicesEvents(choices[..i]) + ChoiceEvents(choices[i])
    ensures ChoicesEvents(choices[..i + 1]) <= ChoicesEvents(choices)
    decreases |choices| - i
  {
    assert choices[..i + 1][..i] == choices[..i];
    if i + 1 == |choices| {
      assert choices[..i + 1] == choices;
    } else {
      ChoicesSoFar(choices, i + 1);
    }
  }

  lemma FinishAppended(a: seq<Event>, b: seq<Event>)
    ensures HasFinish(a + b) <==> HasFinish(a) || HasFinish(b)
  {
    if HasFinish(a) {
      var e :| e in a && e.Finish?;
      assert e in a + b;
    }
    if HasFinish(b) {
      var e :| e in b && e.Finish?;
      assert e in a + b;
    }
  }

  /** One choice: its text, then its finish reason. */
  method EmitChoice(choice: Choice, events: seq<Event>, finished: bool, accepts: nat -> bool)
      returns (now: seq<Event>, ok: bool, finishSent: bool)
    ensures (now, ok) == OfferAll(events, ChoiceEvents(choice), accepts)
    ensures ok ==> finishSent == (finished || HasFinish(ChoiceEvents(choice)))
  {
    now, ok, finishSent := events, true, finished;
    OfferOne(events, [], Token(choice.content), accepts);
    OfferOne(events, if choice.content != "" then [Token(choice.content)] else [], Finish(choice.finishReason),
             accepts);
    if choice.content != "" {
      if !accepts(|now|) {
        RefusedPart(events, [] + [Token(choice.content)], ChoiceEvents(choice), accepts);
        return now, false, finishSent;
      }
      now := now + [Token(choice.content)];
    }
    if choice.finishReason != "" {
      finishSent := true;
      assert Finish(choice.finishReason) in ChoiceEvents(choice);
      if !accepts(|now|) {
        return now, false, finishSent;
      }
      now := now + [Finish(choice.finishReason)];
    }
  }

  lemma {:induction false} OfferMore(events: seq<Event>, part: seq<Event>, more: seq<Event>, accepts: nat -> bool)
    requires OfferAll(events, part, accepts).1
    ensures OfferAll(events, part + more, accepts) == OfferAll(OfferAll(events, part, accepts).0, more, accepts)
  {
    if more == [] {
      assert part + more == part;
    } else {
      var n := |more| - 1;
      OfferMore(events, part, more[..n], accepts);
      OfferOne(events, part + more[..n], more[n], accepts);
      assert part + more[..n] + [more[n]] == part + more;
    }
  }

  /** What a chunk offers up to a choice. */
  function OffersUpTo(chunk: Chunk, i: nat): seq<Event>
    requires i <= |chunk.choices|
  {
    UsageEvents(chunk) + ChoicesEvents(chunk.choices[..i])
  }

  lemma NextChoice(before: seq<Event>, chunk: Chunk, i: nat, accepts: nat -> bool)
    requires i < |chunk.choices| && OfferAll(before, OffersUpTo(chunk, i), accepts).1
    ensures OfferAll(before, OffersUpTo(chunk, i + 1), accepts)
            == OfferAll(OfferAll(before, OffersUpTo(chunk, i), accepts).0, ChoiceEvents(chunk.choices[i]), accepts)
    ensures HasFinish(OffersUpTo(chunk, i + 1))
            <==> HasFinish(OffersUpTo(chunk, i)) || HasFinish(ChoiceEvents(chunk.choices[i]))
    ensures OffersUpTo(chunk, i + 1) <= Offers(chunk)
  {
    var part, more := OffersUpTo(chunk, i), ChoiceEvents(chunk.choices[i]);
    ChoicesSoFar(chunk.choices, i);
    assert OffersUpTo(chunk, i + 1) == part + more;
    OfferMore(before, part, more, accepts);
    FinishAppended(part, more);
  }

  lemma OffersAtTheEnds(chunk: Chunk)
    ensures OffersUpTo(chunk, 0) == UsageEvents(chunk) && OffersUpTo(chunk, |chunk.choices|) == Offers(chunk)
  {
    assert chunk.choices[..|chunk.choices|] == chunk.choices;
  }

  /** A chunk: its usage, then its choices in order. */
  method EmitChunk(chunk: Chunk, before: seq<Event>, finished: bool, accepts: nat -> bool)
      returns (events: seq<Event>, ok: bool, finishSent: bool)
    ensures (events, ok) == OfferAll(before, Offers(chunk), accepts)
    ensures ok ==> finishSent == (finished || HasFinish(Offers(chunk)))
  {
    finishSent := finished;
    events, ok := EmitUsage(chunk, before, accepts);
    if !ok {
      RefusedPart(before, UsageEvents(chunk), Offers(chunk), accepts);
      return;
    }
    OffersAtTheEnds(chunk);
    for i := 0 to |chunk.choices|
      invariant (events, ok) == OfferAll(before, OffersUpTo(chunk, i), accepts) && ok
      invariant finishSent == (finished || HasFinish(OffersUpTo(chunk, i)))
    {
      NextChoice(before, chunk, i, accepts);
      events, ok, finishSent := EmitChoice(chunk.choices[i], events, finishSent, accepts);
      if !ok {
        RefusedPart(before, OffersUpTo(chunk, i + 1), Offers(chunk), accepts);
        return;
      }
    }
  }

  method EmitUsage(chunk: Chunk, before: seq<Event>, accepts: nat -> bool) returns (events: seq<Event>, ok: bool)
    ensures (events, ok) == OfferAll(before, UsageEvents(chunk), accepts)
    ensures !HasFinish(UsageEvents(chunk))
  {
    if chunk.usage.None? {
      return before, true;
    }
    var u := chunk.usage.value;
    OfferOne(before, [], Usage(u.0, u.1, u.2), accepts);
    assert [] + [Usage(u.0, u.1, u.2)] == UsageEvents(chunk);
    if !accepts(|before|) {
      return before, false;
    }
    return before + [Usage(u.0, u.1, u.2)], true;
  }

  method Dispatch(data: string, st: Status, decode: string -> Option<Chunk>, accepts: nat -> bool) returns (r: Status)
    requires st.Going?
    ensures r == Dispatched(st, Trim(data), decode, accepts)
  {
    var payload := Trim(data);
    if payload == "" {
      return st;
    }
    if payload == END {
      if st.finished {
        return Ended(Done, st.events);
      }
      if !accepts(|st.events|) {
        return Ended(EmitFailed, st.events);
      }
      return Ended(Done, st.events + [Finish("stop")]);
    }
    var decoded := decode(payload);
    if decoded.None? {
      return Ended(DecodeFailed, st.events);
    }
    var events, ok, finishSent := EmitChunk(decoded.value, st.events, st.finished, accepts);
    if !ok {
      return Ended(EmitFailed, events);
    }
    return Going(events, finishSent);
  }

  // ---- Line by line ----

  lemma OneMoreLine(lines: seq<string>, i: nat)
    requires i < |lines|
    ensures var before := Groups(lines[..i]);
            Groups(lines[..i + 1]) == match Read(lines[i])
                                      case Blank => (before.0 + [before.1], [])
                                      case Value(text) => (before.0, before.1 + [text])
                                      case Other => before
  {
    assert lines[..i + 1][..i] == lines[..i];
  }

  lemma OneMoreGroup(groups: seq<seq<string>>, group: seq<string>, decode: string -> Option<Chunk>,
                     accepts: nat -> bool)
    ensures var before := Interpret(Payloads(groups), decode, accepts);
            Interpret(Payloads(groups + [group]), decode, accepts)
            == if before.Ended? then before else Dispatched(before, Payload(group), decode, accepts)
  {
    assert Payloads(groups + [group])[..|groups|] == Payloads(groups);
  }

  lemma OneMoreValue(values: seq<string>, text: string)
    ensures Buffer(values + [text]) == Buffer(values) + (if Buffer(values) != "" then "\n" else "") + text
  {
    assert (values + [text])[..|values|] == values;
  }
}
