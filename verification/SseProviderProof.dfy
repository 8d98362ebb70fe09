/** What reading a provider's stream guarantees, and where it agrees with section 9.2.6 of the WHATWG HTML Living
    Standard. */
module SseProviderProof {
  import opened Wrappers
  import opened Text
  import opened SseProvider

  // ---- A finish event is always delivered ----

  /** The reader's flag says exactly whether a finish event was emitted. */
  ghost predicate FlagTrue(st: Status) {
    match st
    case Going(events, finished) => finished <==> HasFinish(events)
    case Ended(outcome, events) => outcome == Done ==> HasFinish(events)
  }

  lemma {:induction false} AcceptedAll(events: seq<Event>, offers: seq<Event>, accepts: nat -> bool)
    requires OfferAll(events, offers, accepts).1
    ensures OfferAll(events, offers, accepts).0 == events + offers
  {
    if offers == [] {
      assert events + offers == events;
    } else {
      var n := |offers| - 1;
      AcceptedAll(events, offers[..n], accepts);
      assert events + offers == (events + offers[..n]) + [offers[n]];
    }
  }

  lemma DispatchKeepsFlag(st: Status, payload: string, decode: string -> Option<Chunk>, accepts: nat -> bool)
    requires st.Going? && FlagTrue(st)
    ensures FlagTrue(Dispatched(st, payload, decode, accepts))
  {
    if payload == END {
      FinishAppended(st.events, [Finish("stop")]);
      assert Finish("stop") in [Finish("stop")];
    } else if payload != "" && decode(payload).Some? {
      var offers := Offers(decode(payload).value);
      if OfferAll(st.events, offers, accepts).1 {
        AcceptedAll(st.events, offers, accepts);
        FinishAppended(st.events, offers);
      }
    }
  }

  lemma {:induction false} InterpretKeepsFlag(payloads: seq<string>, decode: string -> Option<Chunk>,
                                              accepts: nat -> bool)
    ensures FlagTrue(Interpret(payloads, decode, accepts))
  {
    if payloads != [] {
      var front := payloads[..|payloads| - 1];
      InterpretKeepsFlag(front, decode, accepts);
      if Interpret(front, decode, accepts).Going? {
        DispatchKeepsFlag(Interpret(front, decode, accepts), payloads[|payloads| - 1], decode, accepts);
      }
    }
  }

  /** The stream is reported as done only after a finish event was emitted, whatever the provider sent. */
  lemma DoneMeansFinished(
      lines: seq<string>, cancelAt: nat, readFails: bool, decode: string -> Option<Chunk>, accepts: nat -> bool)
    requires Consumed(lines, cancelAt, readFails, decode, accepts).0 == Done
    ensures HasFinish(Consumed(lines, cancelAt, readFails, decode, accepts).1)
  {
    var g := Groups(Seen(lines, cancelAt));
    var st := Interpret(Payloads(g.0), decode, accepts);
    InterpretKeepsFlag(Payloads(g.0), decode, accepts);
    if st.Going? {
      DispatchKeepsFlag(st, Payload(g.1), decode, accepts);
    }
  }

  // ---- What is delivered ----

  /** The payloads before the end marker. */
  function BeforeEnd(payloads: seq<string>): seq<string> {
    if payloads == [] then []
    else if payloads[0] == END then []
    else [payloads[0]] + BeforeEnd(payloads[1..])
  }

  ghost predicate AllDecode(payloads: seq<string>, decode: string -> Option<Chunk>) {
    forall i :: 0 <= i < |payloads| ==> payloads[i] == "" || decode(payloads[i]).Some?
  }

  /** Everything the chunks of some payloads say, in order. */
  function Told(payloads: seq<string>, decode: string -> Option<Chunk>): seq<Event> {
    if payloads == [] then []
    else
      var last := payloads[|payloads| - 1];
      Told(payloads[..|payloads| - 1], decode)
      + (if last != "" && decode(last).Some? then Offers(decode(last).value) else [])
  }

  ghost predicate AcceptsEverything(accepts: nat -> bool) {
    forall n :: accepts(n)
  }

  lemma {:induction false} NothingRefused(events: seq<Event>, offers: seq<Event>, accepts: nat -> bool)
    requires AcceptsEverything(accepts)
    ensures OfferAll(events, offers, accepts) == (events + offers, true)
  {
    if offers != [] {
      NothingRefused(events, offers[..|offers| - 1], accepts);
    }
    assert OfferAll(events, offers, accepts).1;
    AcceptedAll(events, offers, accepts);
  }

  /** One more payload that is not the end marker. */
  lemma PlainNext(told: seq<Event>, last: string, decode: string -> Option<Chunk>, accepts: nat -> bool)
    requires AcceptsEverything(accepts) && last != END
    ensures var st := Dispatched(Going(told, HasFinish(told)), last, decode, accepts);
            var more := told + (if last != "" && decode(last).Some? then Offers(decode(last).value) else []);
            if last == "" || decode(last).Some? then st == Going(more, HasFinish(more))
            else st.Ended? && st.outcome == DecodeFailed
  {
    if last == "" {
      assert told + [] == told;
    } else if decode(last).Some? {
      NothingRefused(told, Offers(decode(last).value), accepts);
      FinishAppended(told, Offers(decode(last).value));
    }
  }

  /** Up to the end marker: everything told, until something cannot be decoded. */
  lemma {:induction false} PlainInterpretation(payloads: seq<string>, decode: string -> Option<Chunk>,
                                               accepts: nat -> bool)
    requires AcceptsEverything(accepts) && END !in payloads
    ensures var st := Interpret(payloads, decode, accepts);
            if AllDecode(payloads, decode)
            then st == Going(Told(payloads, decode), HasFinish(Told(payloads, decode)))
            else st.Ended? && st.outcome == DecodeFailed
  {
    hide Dispatched, Offers, AcceptsEverything;
    if payloads != [] {
      var front, last := payloads[..|payloads| - 1], payloads[|payloads| - 1];
      PlainInterpretation(front, decode, accepts);
      assert AllDecode(payloads, decode) <==> AllDecode(front, decode) && (last == "" || decode(last).Some?) by {
        assert payloads == front + [last];
      }
      PlainNext(Told(front, decode), last, decode, accepts);
    }
  }

  lemma InterpretedNext(front: seq<string>, last: string, decode: string -> Option<Chunk>, accepts: nat -> bool)
    ensures var st := Interpret(front, decode, accepts);
            Interpret(front + [last], decode, accepts) == if st.Ended? then st
                                                              else Dispatched(st, last, decode, accepts)
  {
    hide Dispatched;
    assert (front + [last])[..|front|] == front;
  }

  lemma {:induction false} EndedStays(payloads: seq<string>, more: seq<string>, decode: string -> Option<Chunk>,
                                      accepts: nat -> bool)
    requires Interpret(payloads, decode, accepts).Ended?
    ensures Interpret(payloads + more, decode, accepts) == Interpret(payloads, decode, accepts)
  {
    hide Interpret, Dispatched;
    if more == [] {
      assert payloads + more == payloads;
    } else {
      var n := |more| - 1;
      EndedStays(payloads, more[..n], decode, accepts);
      InterpretedNext(payloads + more[..n], more[n], decode, accepts);
      assert payloads + more == (payloads + more[..n]) + [more[n]];
    }
  }

  lemma {:induction false} BeforeEndIsPrefix(payloads: seq<string>)
    ensures BeforeEnd(payloads) <= payloads && END !in BeforeEnd(payloads)
    ensures END !in payloads <==> BeforeEnd(payloads) == payloads
    ensures END in payloads ==> |BeforeEnd(payloads)| < |payloads| && payloads[|BeforeEnd(payloads)|] == END
  {
    if payloads != [] && payloads[0] != END {
      BeforeEndIsPrefix(payloads[1..]);
      assert payloads == [payloads[0]] + payloads[1..];
    }
  }

  /** With a consumer that takes every event: the stream is done exactly when every payload before the end marker
      decodes and there is an end marker or a finish event; the events are then all that was told before the
      marker, and the marker adds a finish event exactly when none was told. */
  lemma StreamMeansItsEventsExactly(payloads: seq<string>, decode: string -> Option<Chunk>, accepts: nat -> bool)
    requires AcceptsEverything(accepts)
    ensures var told := Told(BeforeEnd(payloads), decode);
            var result := Concluded(Interpret(payloads, decode, accepts));
            && (result.0 == Done <==> AllDecode(BeforeEnd(payloads), decode) && (END in payloads || HasFinish(told)))
            && (result.0 == Done ==>
                  result.1 == told + (if END in payloads && !HasFinish(told) then [Finish("stop")] else []))
            && (result.0 == DecodeFailed <==> !AllDecode(BeforeEnd(payloads), decode))
  {
    var before := BeforeEnd(payloads);
    BeforeEndIsPrefix(payloads);
    PlainInterpretation(before, decode, accepts);
    if END in payloads {
      EndIsRead(payloads, decode, accepts);
      if AllDecode(before, decode) {
        MarkerConcludes(Interpret(before, decode, accepts), decode, accepts);
      }
    } else {
      assert Told(before, decode) + [] == Told(before, decode);
    }
  }

  /** The marker ends whatever is still going. */
  lemma MarkerEnds(st: Status, decode: string -> Option<Chunk>, accepts: nat -> bool)
    requires st.Going?
    ensures Dispatched(st, END, decode, accepts).Ended?
  {
    hide OfferAll;
  }

  lemma EndIsRead(payloads: seq<string>, decode: string -> Option<Chunk>, accepts: nat -> bool)
    requires END in payloads
    ensures var before := Interpret(BeforeEnd(payloads), decode, accepts);
            Interpret(payloads, decode, accepts) == if before.Ended? then before
                                                        else Dispatched(before, END, decode, accepts)
  {
    hide Interpret, Dispatched, BeforeEnd;
    var before := BeforeEnd(payloads);
    BeforeEndIsPrefix(payloads);
    var part, rest := before + [END], payloads[|before| + 1..];
    InterpretedNext(before, END, decode, accepts);
    if Interpret(before, decode, accepts).Going? {
      MarkerEnds(Interpret(before, decode, accepts), decode, accepts);
    }
    EndedStays(part, rest, decode, accepts);
    assert part + rest == payloads;
  }

  lemma MarkerConcludes(st: Status, decode: string -> Option<Chunk>, accepts: nat -> bool)
    requires st.Going? && AcceptsEverything(accepts)
    ensures Dispatched(st, END, decode, accepts)
            == Ended(Done, st.events + (if st.finished then [] else [Finish("stop")]))
  {
    assert st.events + [] == st.events;
  }

  /** All the payloads of a stream, that of the event left open at the end included. */
  function AllPayloads(lines: seq<string>): seq<string> {
    Payloads(Groups(lines).0) + [Payload(Groups(lines).1)]
  }

  /** A stream that is not cancelled or broken is its payloads, the unterminated last one included. */
  lemma UndisturbedStream(lines: seq<string>, cancelAt: nat, decode: string -> Option<Chunk>, accepts: nat -> bool)
    requires cancelAt >= |lines|
    ensures Consumed(lines, cancelAt, false, decode, accepts)
            == Concluded(Interpret(AllPayloads(lines), decode, accepts))
  {
    var g := Groups(lines);
    assert AllPayloads(lines)[..|g.0|] == Payloads(g.0);
  }

  // ---- Any consumer ----

  predicate TakesAll(n: nat) {
    true
  }

  /** The first `n` events are taken. */
  ghost predicate Taken(accepts: nat -> bool, n: nat) {
    forall i :: 0 <= i < n ==> accepts(i)
  }

  /** A consumer took some of the events and refused the next. */
  ghost predicate RefusedWithin(part: seq<Event>, whole: seq<Event>, accepts: nat -> bool) {
    part < whole && !accepts(|part|)
  }

  lemma {:induction false} OfferedToAny(events: seq<Event>, offers: seq<Event>, accepts: nat -> bool)
    requires Taken(accepts, |events|)
    ensures var o := OfferAll(events, offers, accepts);
            && events <= o.0 && (o.1 <==> Taken(accepts, |events + offers|))
            && if o.1 then o.0 == events + offers else RefusedWithin(o.0, events + offers, accepts)
  {
    if offers == [] {
      assert events + offers == events;
    } else {
      var n := |offers| - 1;
      OfferedToAny(events, offers[..n], accepts);
      assert events + offers == (events + offers[..n]) + [offers[n]];
    }
  }

  /** What a consumer that takes everything gets, any consumer gets up to its first refusal. */
  ghost predicate CutShort(st: Status, full: Status, accepts: nat -> bool) {
    if Taken(accepts, |full.events|) then st == full
    else st.Ended? && st.outcome == EmitFailed && RefusedWithin(st.events, full.events, accepts)
  }

  lemma DispatchedToAny(before: Status, payload: string, decode: string -> Option<Chunk>, accepts: nat -> bool)
    requires before.Going? && Taken(accepts, |before.events|)
    ensures before.events <= Dispatched(before, payload, decode, TakesAll).events
    ensures CutShort(Dispatched(before, payload, decode, accepts), Dispatched(before, payload, decode, TakesAll),
                     accepts)
  {
    if payload != "" && payload != END && decode(payload).Some? {
      var offers := Offers(decode(payload).value);
      OfferedToAny(before.events, offers, accepts);
      NothingRefused(before.events, offers, TakesAll);
    }
  }

  lemma {:induction false} AnyConsumer(payloads: seq<string>, decode: string -> Option<Chunk>, accepts: nat -> bool)
    ensures CutShort(Interpret(payloads, decode, accepts), Interpret(payloads, decode, TakesAll), accepts)
  {
    if payloads != [] {
      var front, last := payloads[..|payloads| - 1], payloads[|payloads| - 1];
      AnyConsumer(front, decode, accepts);
      var full := Interpret(front, decode, TakesAll);
      if full.Going? {
        DispatchGrows(full, last, decode);
        if Taken(accepts, |full.events|) {
          DispatchedToAny(full, last, decode, accepts);
        }
      }
    }
  }

  lemma DispatchGrows(before: Status, payload: string, decode: string -> Option<Chunk>)
    requires before.Going?
    ensures before.events <= Dispatched(before, payload, decode, TakesAll).events
  {
    DispatchedToAny(before, payload, decode, TakesAll);
  }

  /** Everything told before the end marker, and the finish the marker adds where none was told. */
  ghost function Expected(payloads: seq<string>, decode: string -> Option<Chunk>): seq<Event> {
    var told := Told(BeforeEnd(payloads), decode);
    told + if END in payloads && !HasFinish(told) then [Finish("stop")] else []
  }

  /** The payloads before the end marker decode, and something ends the stream. */
  ghost predicate Complete(payloads: seq<string>, decode: string -> Option<Chunk>) {
    && AllDecode(BeforeEnd(payloads), decode)
    && (END in payloads || HasFinish(Told(BeforeEnd(payloads), decode)))
  }

  lemma PayloadsDoneExactly(payloads: seq<string>, decode: string -> Option<Chunk>, accepts: nat -> bool)
    ensures var result := Concluded(Interpret(payloads, decode, accepts));
            && (result.0 == Done <==> Complete(payloads, decode) && Taken(accepts, |Expected(payloads, decode)|))
            && (result.0 == Done ==> result.1 == Expected(payloads, decode))
  {
    AnyConsumer(payloads, decode, accepts);
    StreamMeansItsEventsExactly(payloads, decode, TakesAll);
  }

  lemma {:induction false} BeforeEndOfLonger(part: seq<string>, whole: seq<string>)
    requires part <= whole && END in part
    ensures BeforeEnd(part) == BeforeEnd(whole)
  {
    if part[0] != END {
      assert part == [part[0]] + part[1..];
      assert part[1..] <= whole[1..];
      BeforeEndOfLonger(part[1..], whole[1..]);
    }
  }

  lemma {:induction false} GroupsGrow(lines: seq<string>, n: nat)
    requires n <= |lines|
    ensures Groups(lines[..n]).0 <= Groups(lines).0
    decreases |lines| - n
  {
    if n == |lines| {
      assert lines[..n] == lines;
    } else {
      OneMoreLine(lines, n);
      GroupsGrow(lines, n + 1);
    }
  }

  /** Before the end of the lines a stream is over and done only by its end marker. */
  lemma DoneEarlyByMarker(payloads: seq<string>, decode: string -> Option<Chunk>, accepts: nat -> bool)
    requires Interpret(payloads, decode, accepts).Ended? && Interpret(payloads, decode, accepts).outcome == Done
    ensures END in payloads
  {
    AnyConsumer(payloads, decode, accepts);
    if END !in payloads {
      PlainInterpretation(payloads, decode, TakesAll);
    }
  }

  /** Whatever the consumer, the cancellation and the connection: a nil result means that exactly what was told
      before the end marker was emitted, and a finish was added exactly when there is a marker and none was told. */
  lemma DoneStreamTellsExactly(
      lines: seq<string>, cancelAt: nat, readFails: bool, decode: string -> Option<Chunk>, accepts: nat -> bool)
    requires Consumed(lines, cancelAt, readFails, decode, accepts).0 == Done
    ensures Consumed(lines, cancelAt, readFails, decode, accepts).1 == Expected(AllPayloads(lines), decode)
    ensures Complete(AllPayloads(lines), decode)
  {
    var part, whole := Payloads(Groups(Seen(lines, cancelAt)).0), AllPayloads(lines);
    if Interpret(part, decode, accepts).Ended? {
      if cancelAt < |lines| {
        GroupsGrow(lines, cancelAt);
      }
      DoneEarlyByMarker(part, decode, accepts);
      PayloadsDoneExactly(part, decode, accepts);
      BeforeEndOfLonger(part, whole);
      assert whole[..|part|] == part;
      assert END in whole;
    } else {
      UndisturbedStream(lines, cancelAt, decode, accepts);
      PayloadsDoneExactly(whole, decode, accepts);
    }
  }

  /** Left to run to its last line, a stream is done exactly when it is complete and every event is taken. */
  lemma UndisturbedDoneExactly(lines: seq<string>, cancelAt: nat, decode: string -> Option<Chunk>, accepts: nat -> bool)
    requires cancelAt >= |lines|
    ensures Consumed(lines, cancelAt, false, decode, accepts).0 == Done
            <==> Complete(AllPayloads(lines), decode) && Taken(accepts, |Expected(AllPayloads(lines), decode)|)
  {
    UndisturbedStream(lines, cancelAt, decode, accepts);
    PayloadsDoneExactly(AllPayloads(lines), decode, accepts);
  }

  // ---- The standard ----

  /** A line by section 9.2.6: only "data" fields matter to this reader. */
  function StandardRead(line: string): Field {
    if line == "" then Blank
    else
      var colon := Index(line, ":");
      if colon == -1 then if line == "data" then Value("") else Other
      else if line[..colon] == "data" then Value(DropSpace(line[colon + 1..]))
      else Other
  }

  /** The lines both read alike: no white space on an empty line or around the field name, and no bare "data". */
  predicate PlainLine(line: string) {
    if Trim(line) == "" then line == ""
    else
      var colon := Index(line, ":");
      if colon == -1 then line != "data" else Trim(line[..colon]) == "data" ==> line[..colon] == "data"
  }

  lemma {:induction false} BlankHasNoColon(line: string)
    requires TrimLeft(line) == ""
    ensures ':' !in line && (line != "" ==> IsSpace(line[0]))
  {
    if line != "" {
      BlankHasNoColon(line[1..]);
    }
  }

  lemma {:induction false} TrimRightKeepsStart(s: string)
    requires s != "" && !IsSpace(s[0])
    ensures TrimRight(s) != ""
  {
    if IsSpace(s[|s| - 1]) {
      TrimRightKeepsStart(s[..|s| - 1]);
    }
  }

  lemma BlankMeansBlankLeft(s: string)
    ensures Trim(s) == "" <==> TrimLeft(s) == ""
  {
    TrimLeftStarts(s);
    if TrimLeft(s) != "" {
      TrimRightKeepsStart(TrimLeft(s));
    }
  }

  lemma NoColonFound(line: string)
    requires ':' !in line
    ensures Index(line, ":") == -1
  {
    forall k ensures !OccursAt(line, ":", k) {
      if 0 <= k && k + 1 <= |line| {
        assert line[k..k + 1][0] == line[k];
      }
    }
  }

  lemma DataTrims()
    ensures Trim("data") == "data"
  {
  }

  lemma ColonFound(name: string, rest: string)
    requires ':' !in name
    ensures Index(name + ":" + rest, ":") == |name|
  {
    var line := name + ":" + rest;
    assert line[|name|..|name| + 1] == ":";
    assert OccursAt(line, ":", |name|);
    forall k | 0 <= k < |name| ensures !OccursAt(line, ":", k) {
      assert line[k] == name[k] && name[k] in name;
      assert line[k..k + 1][0] == line[k];
    }
  }

  /** A data line gives its value, without the one space that may stand before it. */
  lemma ValueIsRead(value: string)
    ensures Read("data" + ":" + (" " + value)) == Value(value)
    ensures value == "" || value[0] != ' ' ==> Read("data" + ":" + value) == Value(value)
  {
    DataTrims();
    forall rest ensures Read("data" + ":" + rest) == Value(DropSpace(rest)) {
      var line := "data" + ":" + rest;
      ColonFound("data", rest);
      BlankMeansBlankLeft(line);
      assert line[0] == 'd';
      assert line[..4] == "data" && line[5..] == rest;
    }
    assert (" " + value)[1..] == value;
  }

  lemma LinesReadAlikeExactly(line: string)
    ensures Read(line) == StandardRead(line) <==> PlainLine(line)
  {
    DataTrims();
    BlankMeansBlankLeft(line);
    if Trim(line) == "" && line != "" {
      BlankHasNoColon(line);
      NoColonFound(line);
    }
  }

  /** The data buffer of section 9.2.6 and the messages it has dispatched. */
  function StandardMessages(lines: seq<string>): (seq<string>, string) {
    if lines == [] then ([], "")
    else
      var before := StandardMessages(lines[..|lines| - 1]);
      match StandardRead(lines[|lines| - 1])
      case Value(text) => (before.0, before.1 + text + "\n")
      case Other => before
      case Blank => (if before.1 == "" then before.0 else before.0 + [before.1[..|before.1| - 1]], "")
  }

  /** The payloads that say something. */
  function Visible(payloads: seq<string>): seq<string> {
    if payloads == [] then []
    else
      var before := Visible(payloads[..|payloads| - 1]);
      if payloads[|payloads| - 1] == "" then before else before + [payloads[|payloads| - 1]]
  }

  function Trimmed(messages: seq<string>): seq<string> {
    seq(|messages|, i requires 0 <= i < |messages| => Trim(messages[i]))
  }

  function Gathered(values: seq<string>): string {
    if values == [] then "" else Join(values) + "\n"
  }

  lemma OneMoreVisible(payloads: seq<string>, payload: string)
    ensures Visible(payloads + [payload]) == Visible(payloads) + (if payload == "" then [] else [payload])
  {
    assert (payloads + [payload])[..|payloads|] == payloads;
  }

  lemma GatherMore(values: seq<string>, text: string)
    ensures Gathered(values + [text]) == Gathered(values) + text + "\n"
  {
    if values == [] {
      assert values + [text] == [text];
    } else {
      JoinAppend(values, text);
    }
  }

  ghost predicate Agree(g: (seq<seq<string>>, seq<string>), m: (seq<string>, string)) {
    m.1 == Gathered(g.1) && Visible(Payloads(g.0)) == Visible(Trimmed(m.0))
  }

  lemma BlankAgrees(g: (seq<seq<string>>, seq<string>), m: (seq<string>, string))
    requires Agree(g, m)
    ensures Agree((g.0 + [g.1], []), (if m.1 == "" then m.0 else m.0 + [m.1[..|m.1| - 1]], ""))
  {
    assert Payloads(g.0 + [g.1]) == Payloads(g.0) + [Payload(g.1)];
    OneMoreVisible(Payloads(g.0), Payload(g.1));
    if g.1 == [] {
      assert Payload(g.1) == "";
    } else {
      assert m.1[..|m.1| - 1] == Join(g.1);
      assert Trimmed(m.0 + [Join(g.1)]) == Trimmed(m.0) + [Payload(g.1)];
      OneMoreVisible(Trimmed(m.0), Payload(g.1));
    }
  }

  lemma ValueAgrees(g: (seq<seq<string>>, seq<string>), m: (seq<string>, string), text: string)
    requires Agree(g, m)
    ensures Agree((g.0, g.1 + [text]), (m.0, m.1 + text + "\n"))
  {
    GatherMore(g.1, text);
  }

  /** On plain lines, both gather the same data and dispatch the same messages, but for blank ones and outer
      white space. */
  lemma {:induction false} AgreesWithTheStandard(lines: seq<string>)
    requires forall i :: 0 <= i < |lines| ==> PlainLine(lines[i])
    ensures Agree(Groups(lines), StandardMessages(lines))
  {
    if lines != [] {
      var n := |lines| - 1;
      AgreesWithTheStandard(lines[..n]);
      LinesReadAlikeExactly(lines[n]);
      var g, m, field := Groups(lines[..n]), StandardMessages(lines[..n]), Read(lines[n]);
      match field
      case Blank => BlankAgrees(g, m);
      case Value(text) => ValueAgrees(g, m, text);
      case Other =>
    }
  }

  lemma {:induction false} BlankPayloadsDoNothing(payloads: seq<string>, decode: string -> Option<Chunk>,
                                                  accepts: nat -> bool)
    ensures Interpret(payloads, decode, accepts) == Interpret(Visible(payloads), decode, accepts)
  {
    if payloads != [] {
      var n := |payloads| - 1;
      BlankPayloadsDoNothing(payloads[..n], decode, accepts);
      if payloads[n] != "" {
        assert Visible(payloads)[..|Visible(payloads)| - 1] == Visible(payloads[..n]);
      }
    }
  }

  /** A stream of plain lines whose last event is terminated means its standard messages, trimmed. */
  lemma PlainStreamMeansItsMessages(
      lines: seq<string>, cancelAt: nat, decode: string -> Option<Chunk>, accepts: nat -> bool)
    requires cancelAt >= |lines| && forall i :: 0 <= i < |lines| ==> PlainLine(lines[i])
    requires StandardMessages(lines).1 == ""
    ensures Consumed(lines, cancelAt, false, decode, accepts)
            == Concluded(Interpret(Trimmed(StandardMessages(lines).0), decode, accepts))
  {
    AgreesWithTheStandard(lines);
    var g := Groups(lines);
    assert g.1 == [];
    assert Payload(g.1) == "";
    BlankPayloadsDoNothing(Payloads(g.0), decode, accepts);
    BlankPayloadsDoNothing(Trimmed(StandardMessages(lines).0), decode, accepts);
  }
}
