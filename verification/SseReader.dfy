/** The loop over the lines of a provider's stream, against what the stream means and what it has to deliver. */
module SseReader {
  import opened Wrappers
  import opened Text
  import opened SseProvider
  import opened SseDelivery

  /** A stream that is over stays over however many lines follow. */
  lemma {:induction false} EndStands(lines: seq<string>, n: nat, decode: string -> Option<Chunk>, accepts: nat -> bool)
    requires n <= |lines| && Interpret(Payloads(Groups(lines[..n]).0), decode, accepts).Ended?
    ensures Interpret(Payloads(Groups(lines).0), decode, accepts)
            == Interpret(Payloads(Groups(lines[..n]).0), decode, accepts)
    decreases |lines| - n
  {
    if n == |lines| {
      assert lines[..n] == lines;
    } else {
      OneMoreLine(lines, n);
      OneMoreGroup(Groups(lines[..n]).0, Groups(lines[..n]).1, decode, accepts);
      EndStands(lines, n + 1, decode, accepts);
    }
  }

  /** What the loop's variables hold after some lines, with the stream still going. */
  ghost predicate ReadSoFar(
      lines: seq<string>, values: seq<string>, data: string, st: Status, decode: string -> Option<Chunk>,
      accepts: nat -> bool)
  {
    && Groups(lines).1 == values && data == Buffer(values)
    && st == Interpret(Payloads(Groups(lines).0), decode, accepts)
  }

  lemma AfterBlank(lines: seq<string>, i: nat, values: seq<string>, data: string, st: Status,
      decode: string -> Option<Chunk>, accepts: nat -> bool)
    requires i < |lines| && ReadSoFar(lines[..i], values, data, st, decode, accepts) && Read(lines[i]).Blank?
    requires st.Going?
    ensures ReadSoFar(lines[..i + 1], [], "", Dispatched(st, Trim(data), decode, accepts), decode, accepts)
  {
    OneMoreLine(lines, i);
    OneMoreGroup(Groups(lines[..i]).0, values, decode, accepts);
    BufferIsPayload(values);
  }

  lemma AfterValue(lines: seq<string>, i: nat, values: seq<string>, data: string, st: Status,
      decode: string -> Option<Chunk>, accepts: nat -> bool)
    requires i < |lines| && ReadSoFar(lines[..i], values, data, st, decode, accepts) && Read(lines[i]).Value?
    ensures ReadSoFar(lines[..i + 1], values + [Read(lines[i]).text],
                      data + (if data != "" then "\n" else "") + Read(lines[i]).text, st, decode, accepts)
  {
    OneMoreLine(lines, i);
    OneMoreValue(values, Read(lines[i]).text);
  }

  lemma AfterOther(lines: seq<string>, i: nat, values: seq<string>, data: string, st: Status,
      decode: string -> Option<Chunk>, accepts: nat -> bool)
    requires i < |lines| && ReadSoFar(lines[..i], values, data, st, decode, accepts) && Read(lines[i]).Other?
    ensures ReadSoFar(lines[..i + 1], values, data, st, decode, accepts)
  {
    OneMoreLine(lines, i);
  }

  /** A stream that ends within the lines read gives its outcome whatever comes after. */
  lemma EndedEarly(lines: seq<string>, i: nat, cancelAt: nat, readFails: bool, values: seq<string>, data: string,
                   st: Status, decode: string -> Option<Chunk>, accepts: nat -> bool)
    requires i < |lines| && i < cancelAt && ReadSoFar(lines[..i + 1], values, data, st, decode, accepts) && st.Ended?
    ensures Consumed(lines, cancelAt, readFails, decode, accepts) == (st.outcome, st.events)
  {
    var seen := Seen(lines, cancelAt);
    assert seen[..i + 1] == lines[..i + 1];
    EndStands(seen, i + 1, decode, accepts);
    assert Interpret(Payloads(Groups(seen).0), decode, accepts) == st;
  }

  lemma StoppedByCancel(lines: seq<string>, i: nat, cancelAt: nat, readFails: bool, values: seq<string>, data: string,
                        st: Status, decode: string -> Option<Chunk>, accepts: nat -> bool)
    requires i < |lines| && i == cancelAt && ReadSoFar(lines[..i], values, data, st, decode, accepts) && st.Going?
    ensures Consumed(lines, cancelAt, readFails, decode, accepts) == (Cancelled, st.events)
  {
  }

  lemma AllRead(lines: seq<string>, cancelAt: nat, readFails: bool, values: seq<string>, data: string, st: Status,
      decode: string -> Option<Chunk>, accepts: nat -> bool)
    requires |lines| <= cancelAt && ReadSoFar(lines[..|lines|], values, data, st, decode, accepts) && st.Going?
    ensures Consumed(lines, cancelAt, readFails, decode, accepts)
            == if readFails then (ReadFailed, st.events) else Concluded(Dispatched(st, Trim(data), decode, accepts))
  {
    assert lines[..|lines|] == lines;
    BufferIsPayload(values);
  }

  method ConsumeOpenAIStream(
      lines: seq<string>, cancelAt: nat, readFails: bool, decode: string -> Option<Chunk>, accepts: nat -> bool)
      returns (outcome: Outcome, events: seq<Event>)
    ensures (outcome, events) == Consumed(lines, cancelAt, readFails, decode, accepts)
    ensures outcome == Done ==> Delivered(lines, decode, events)
  {
    hide Delivered, Consumed, Dispatched;
    if Consumed(lines, cancelAt, readFails, decode, accepts).0 == Done {
      DoneDelivers(lines, cancelAt, readFails, decode, accepts);
    }
    var data := "";
    var st := Going([], false);
    ghost var values: seq<string> := [];
    for i := 0 to |lines|
      invariant i <= cancelAt && st.Going? && ReadSoFar(lines[..i], values, data, st, decode, accepts)
    {
      if i >= cancelAt {
        StoppedByCancel(lines, i, cancelAt, readFails, values, data, st, decode, accepts);
        return Cancelled, st.events;
      }
      var line := lines[i];
      if Trim(line) == "" {
        AfterBlank(lines, i, values, data, st, decode, accepts);
        st := Dispatch(data, st, decode, accepts);
        data, values := "", [];
        if st.Ended? {
          EndedEarly(lines, i, cancelAt, readFails, values, data, st, decode, accepts);
          return st.outcome, st.events;
        }
        continue;
      }
      var colon := Index(line, ":");
      if colon == -1 || Trim(line[..colon]) != "data" {
        AfterOther(lines, i, values, data, st, decode, accepts);
        continue;
      }
      AfterValue(lines, i, values, data, st, decode, accepts);
      values := values + [Read(line).text];
      if data != "" {
        data := data + "\n";
      }
      data := data + DropSpace(line[colon + 1..]);
    }
    AllRead(lines, cancelAt, readFails, values, data, st, decode, accepts);
    if readFails {
      return ReadFailed, st.events;
    }
    var last := Dispatch(data, st, decode, accepts);
    if last.Ended? {
      return last.outcome, last.events;
    }
    if !last.finished {
      return NoFinish, last.events;
    }
    return Done, last.events;
  }
}
