/** Server writer and browser reader together: what is written comes out again, whole or cut short. */
module SseRoundTrip {
  import opened Wrappers
  import opened Text
  import opened SseClient

  datatype Message = Message(name: string, json: string)

  function NameLine(m: Message): string {
    "event: " + m.name
  }

  function DataLine(m: Message): string {
    "data: " + m.json
  }

  function Wire(m: Message): string {
    NameLine(m) + "\n" + DataLine(m) + "\n\n"
  }

  /** The bytes a stream's messages put on the wire. */
  function Output(messages: seq<Message>): string {
    if messages == [] then "" else Wire(messages[0]) + Output(messages[1..])
  }

  ghost predicate OneLine(s: string) {
    forall i :: 0 <= i < |s| ==> s[i] != '\n' && s[i] != '\r'
  }

  /** What the server's event names and encoded JSON values are: single lines, without outer white space. */
  ghost predicate Printable(m: Message) {
    && OneLine(m.name) && OneLine(m.json) && JsTrim(m.name) == m.name
    && m.json != "" && !JsSpace(m.json[0]) && m.json != "[DONE]"
  }

  ghost predicate AllPrintable(messages: seq<Message>) {
    forall i :: 0 <= i < |messages| ==> Printable(messages[i])
  }

  function Sent<J>(m: Message, parse: string -> Option<J>): Event<J> {
    Event(m.name, if parse(m.json).Some? then Parsed(parse(m.json).value) else Raw(m.json))
  }

  function SentAll<J>(messages: seq<Message>, parse: string -> Option<J>): seq<Event<J>> {
    if messages == [] then [] else [Sent(messages[0], parse)] + SentAll(messages[1..], parse)
  }

  // ---- Lines ----

  lemma OneLineIsALine(s: string)
    requires OneLine(s)
    ensures Lines(s) == [s]
  {
    forall k ensures !OccursAt(s, "\n", k) {
      if 0 <= k && k + 1 <= |s| {
        assert s[k..k + 1][0] == s[k];
      }
    }
  }

  lemma FirstOfLines(first: string, after: string)
    requires OneLine(first)
    ensures Lines(first + "\n" + after) == [first] + Lines(after)
  {
    var s := first + "\n" + after;
    FirstBreak(first, after);
    assert s[..|first|] == first && s[|first| + 1..] == after;
  }

  lemma BreakCuts(s: string)
    requires Index(s, "\n") != -1
    ensures s == s[..Index(s, "\n")] + "\n" + s[Index(s, "\n") + 1..]
    ensures '\n' !in s[..Index(s, "\n")]
  {
    var i := Index(s, "\n");
    assert s[i..i + 1] == "\n";
    forall k | 0 <= k < i ensures s[k] != '\n' {
      assert !OccursAt(s, "\n", k);
      assert s[k..k + 1] == [s[k]];
    }
  }

  /** Splitting at line breaks is undone by joining. */
  lemma {:induction false} LinesJoinBack(s: string)
    ensures Join(Lines(s)) == s
    ensures forall i :: 0 <= i < |Lines(s)| ==> '\n' !in Lines(s)[i]
    decreases |s|
  {
    var i := Index(s, "\n");
    if i == -1 {
      BreakShows(s);
    } else {
      BreakCuts(s);
      LinesJoinBack(s[i + 1..]);
      HeadJoins(s[..i], Lines(s[i + 1..]));
    }
  }

  lemma HeadJoins(head: string, lines: seq<string>)
    requires |lines| > 0
    ensures Join([head] + lines) == head + "\n" + Join(lines)
  {
    assert ([head] + lines)[1..] == lines;
  }

  lemma BreakShows(s: string)
    requires Index(s, "\n") == -1
    ensures '\n' !in s
  {
    if '\n' in s {
      var k :| 0 <= k < |s| && s[k] == '\n';
      assert s[k..k + 1] == [s[k]];
      assert OccursAt(s, "\n", k);
    }
  }

  // ---- One message ----

  lemma NameIsRead(m: Message)
    requires Printable(m)
    ensures OneLine(NameLine(m)) && StartsWith(NameLine(m), "event:") && !StartsWith(NameLine(m), "data:")
    ensures JsTrim(NameLine(m)[6..]) == m.name
  {
    var line := NameLine(m);
    assert line[0] == 'e';
    assert line[..6] == "event:";
    assert line[6..] == " " + m.name;
    assert (" " + m.name)[1..] == m.name;
  }

  lemma DataIsRead(m: Message)
    requires Printable(m)
    ensures OneLine(DataLine(m)) && StartsWith(DataLine(m), "data:") && !StartsWith(DataLine(m), "event:")
    ensures TrimStart(DataLine(m)[5..]) == m.json
  {
    var line := DataLine(m);
    assert line[0] == 'd';
    assert line[..5] == "data:";
    assert line[5..] == " " + m.json;
    assert (" " + m.json)[1..] == m.json;
  }

  lemma SoleLineReads(line: string)
    ensures DataLines([line]) == if StartsWith(line, "data:") then [TrimStart(line[5..])] else []
    ensures StartsWith(line, "event:") ==> EventName([line]) == JsTrim(line[6..])
  {
    var none: seq<string> := [];
    assert [line][..0] == none;
    assert DataLines(none) == [];
  }

  lemma TwoLinesRead(name: string, data: string)
    requires StartsWith(name, "event:") && !StartsWith(name, "data:") && !StartsWith(data, "event:")
    ensures EventName([name, data]) == JsTrim(name[6..])
    ensures DataLines([name, data]) == if StartsWith(data, "data:") then [TrimStart(data[5..])] else []
  {
    assert [name, data][..1] == [name];
    SoleLineReads(name);
  }

  lemma EmptyLineReads(lines: seq<string>)
    ensures EventName(lines + [""]) == EventName(lines) && DataLines(lines + [""]) == DataLines(lines)
  {
    assert (lines + [""])[..|lines|] == lines;
  }

  lemma LinesOfMessage(m: Message)
    requires Printable(m)
    ensures Lines(NameLine(m) + "\n" + DataLine(m)) == [NameLine(m), DataLine(m)]
  {
    NameIsRead(m);
    DataIsRead(m);
    OneLineIsALine(DataLine(m));
    FirstOfLines(NameLine(m), DataLine(m));
  }

  lemma LinesOfEndedMessage(m: Message)
    requires Printable(m)
    ensures Lines(NameLine(m) + "\n" + DataLine(m) + "\n") == [NameLine(m), DataLine(m)] + [""]
  {
    NameIsRead(m);
    DataIsRead(m);
    OneLineIsALine("");
    FirstOfLines(DataLine(m), "");
    assert DataLine(m) + "\n" + "" == DataLine(m) + "\n";
    Reassociate([NameLine(m)], [DataLine(m)], [""]);
    FirstOfLines(NameLine(m), DataLine(m) + "\n");
    Reassociate(NameLine(m) + "\n", DataLine(m), "\n");
  }

  lemma MessageBlockReads<J>(m: Message, completeOnly: bool, parse: string -> Option<J>)
    requires Printable(m) && (completeOnly ==> parse(m.json).Some?)
    ensures BlockEvents(NameLine(m) + "\n" + DataLine(m), completeOnly, parse) == [Sent(m, parse)]
    ensures BlockEvents(NameLine(m) + "\n" + DataLine(m) + "\n", completeOnly, parse) == [Sent(m, parse)]
  {
    NameIsRead(m);
    DataIsRead(m);
    LinesOfMessage(m);
    LinesOfEndedMessage(m);
    TwoLinesRead(NameLine(m), DataLine(m));
    EmptyLineReads([NameLine(m), DataLine(m)]);
    assert Join([m.json]) == m.json;
  }

  lemma TwoLinesClose(first: string, second: string)
    requires OneLine(first) && OneLine(second) && second != ""
    ensures Closes(first + "\n" + second)
  {
    var s := first + "\n" + second + "\n";
    assert s[|first|] == '\n' && s[|first| + 1] == second[0];
    forall k ensures !OccursAt(s, "\n\n", k) {
      if 0 <= k && k + 2 <= |s| {
        assert s[k..k + 2][0] == s[k] && s[k..k + 2][1] == s[k + 1];
        assert k < |first| ==> s[k] == first[k];
        assert |first| < k < |s| - 1 ==> s[k] == second[k - |first| - 1];
      }
    }
  }

  lemma MessageCloses(m: Message)
    requires Printable(m)
    ensures Closes(NameLine(m) + "\n" + DataLine(m))
  {
    NameIsRead(m);
    DataIsRead(m);
    TwoLinesClose(NameLine(m), DataLine(m));
  }

  // ---- Whole streams ----

  lemma {:induction false} FirstBlockEmits<J>(block: string, blocks: seq<string>, parse: string -> Option<J>)
    ensures EmitAll([block] + blocks, parse) == BlockEvents(block, false, parse) + EmitAll(blocks, parse)
  {
    if blocks == [] {
      assert [block] + blocks == [] + [block];
      OneMoreBlock([], block, parse);
    } else {
      var front, last := blocks[..|blocks| - 1], blocks[|blocks| - 1];
      assert blocks == front + [last];
      FirstBlockEmits(block, front, parse);
      Reassociate([block], front, [last]);
      OneMoreBlock([block] + front, last, parse);
      OneMoreBlock(front, last, parse);
      Reassociate(BlockEvents(block, false, parse), EmitAll(front, parse), BlockEvents(last, false, parse));
    }
  }

  lemma MessageThenText<J>(m: Message, after: string, truncated: bool, parse: string -> Option<J>)
    requires Printable(m)
    ensures Deliver(Wire(m) + after, truncated, parse) == [Sent(m, parse)] + Deliver(after, truncated, parse)
  {
    hide NameLine, DataLine, Printable, Closes, BlockEvents, Sent, Blocks;
    var block := NameLine(m) + "\n" + DataLine(m);
    MessageCloses(m);
    FirstBlockComes(block, after);
    MessageBlockReads(m, false, parse);
    FirstBlockEmits(block, Blocks(after).0, parse);
  }

  lemma {:induction false} OutputHasNoCarriageReturn(messages: seq<Message>)
    requires AllPrintable(messages)
    ensures '\r' !in Output(messages)
  {
    if messages != [] {
      var m := messages[0];
      assert Printable(m);
      assert '\r' !in m.name && '\r' !in m.json;
      OutputHasNoCarriageReturn(messages[1..]);
    }
  }

  lemma {:induction false} OutputIsDelivered<J>(messages: seq<Message>, parse: string -> Option<J>)
    requires AllPrintable(messages)
    ensures Deliver(Output(messages), false, parse) == SentAll(messages, parse)
  {
    if messages == [] {
      NothingDelivered(parse);
    } else {
      assert Printable(messages[0]);
      MessageThenText(messages[0], Output(messages[1..]), false, parse);
      OutputIsDelivered(messages[1..], parse);
    }
  }

  lemma NothingDelivered<J>(parse: string -> Option<J>)
    ensures Deliver("", false, parse) == []
  {
    assert Blocks("") == ([], "");
    assert JsTrim("") == "";
  }

  /** Whatever the server writes, cut anywhere on its way, is delivered message by message. */
  lemma RoundTrip<J>(messages: seq<Message>, chunks: seq<string>, parse: string -> Option<J>)
    requires AllPrintable(messages) && Concat(chunks) == Output(messages)
    ensures Deliver(Normalized(chunks), false, parse) == SentAll(messages, parse)
  {
    PlainChunks(messages, chunks, |Output(messages)|);
    assert Output(messages)[..|Output(messages)|] == Output(messages);
    OutputIsDelivered(messages, parse);
  }

  lemma PlainChunks(messages: seq<Message>, chunks: seq<string>, n: nat)
    requires AllPrintable(messages) && n <= |Output(messages)| && Concat(chunks) == Output(messages)[..n]
    ensures Normalized(chunks) == Output(messages)[..n]
  {
    OutputHasNoCarriageReturn(messages);
    assert forall c :: c in Concat(chunks) ==> c in Output(messages);
    NoCarriageReturnNoSplit(chunks);
    ChunksReadLikeTheWholeExactly(chunks);
    NormalizeWithoutCarriageReturn(Concat(chunks));
  }

  // ---- Streams cut short ----

  /** No proper prefix of an encoded object reads as a value, with or without a broken last character. */
  ghost predicate Unbreakable<J>(json: string, parse: string -> Option<J>) {
    && parse(json).Some?
    && forall k, t :: 0 <= k < |json| ==> Unreadable(json[..k] + Flush(t), parse)
  }

  predicate Unreadable<J>(raw: string, parse: string -> Option<J>) {
    parse(raw).None? && raw != "[DONE]"
  }

  /** How many messages have arrived whole among the first `n` characters; the closing blank line may be missing. */
  function Arrived(messages: seq<Message>, n: nat): (k: nat)
    ensures k <= |messages|
  {
    if messages == [] then 0
    else
      var size := |Wire(messages[0])|;
      if n < size - 2 then 0 else 1 + Arrived(messages[1..], if n < size then 0 else n - size)
  }

  lemma NoneArrivedYet(messages: seq<Message>)
    ensures Arrived(messages, 0) == 0
  {
  }

  lemma {:induction false} NotBlank(s: string)
    requires s != "" && !JsSpace(s[0])
    ensures JsTrim(s) != ""
  {
    assert TrimStart(s) == s;
    if JsSpace(s[|s| - 1]) {
      NotBlank(s[..|s| - 1]);
      assert TrimStart(s[..|s| - 1]) == s[..|s| - 1];
    }
  }

  lemma StartsElse(s: string, p: string)
    requires p != "" && (s != "" ==> s[0] != p[0])
    ensures !StartsWith(s, p)
  {
    if |p| <= |s| {
      assert s[..|p|][0] == s[0];
    }
  }

  /** Cut in its name line, a message gives nothing. */
  lemma CutNameGivesNothing<J>(head: string, n: nat, truncated: bool, parse: string -> Option<J>)
    requires OneLine(head) && n <= |head| && head != "" && head[0] == 'e'
    ensures |TailEvents(head[..n] + Flush(truncated), parse)| == 0
  {
    var t := head[..n] + Flush(truncated);
    OneLineIsALine(t);
    SoleLineReads(t);
    StartsElse(t, "data:");
  }

  /** A data line that holds the payload `json` behind one space. */
  ghost predicate HoldsData(full: string, json: string) {
    |full| == 6 + |json| && OneLine(full) && StartsWith(full, "data:") && full[5] == ' ' && full[6..] == json
  }

  lemma DataLineHolds(m: Message)
    requires Printable(m)
    ensures HoldsData(DataLine(m), m.json)
  {
    DataIsRead(m);
  }

  lemma ShortCutIsNoData(full: string, json: string, j: nat, t: bool)
    requires HoldsData(full, json) && j < 5
    ensures !StartsWith(full[..j] + Flush(t), "data:")
  {
    var line := full[..j] + Flush(t);
    if |line| >= 5 {
      assert line[4] == '\U{FFFD}';
      assert line[..5][4] == line[4];
    }
  }

  lemma LongCutIsData(full: string, json: string, j: nat, t: bool)
    requires HoldsData(full, json) && 5 <= j <= |full|
    ensures var line := full[..j] + Flush(t);
            StartsWith(line, "data:") && line[5..] == full[5..j] + Flush(t)
  {
    var line := full[..j] + Flush(t);
    assert line[..5] == full[..5];
  }

  lemma CutPayload(full: string, json: string, j: nat, t: bool)
    requires HoldsData(full, json) && 5 <= j <= |full| && json != "" && !JsSpace(json[0])
    ensures TrimStart(full[5..j] + Flush(t)) == json[..if j < 6 then 0 else j - 6] + Flush(t)
  {
    if j >= 6 {
      var cut := json[..j - 6] + Flush(t);
      assert full[6..][..j - 6] == full[6..j];
      var payload := full[5..j] + Flush(t);
      assert payload[0] == ' ' && payload[1..] == cut;
      assert cut != "" ==> !JsSpace(cut[0]);
    }
  }

  lemma CutStaysALine(full: string, json: string, j: nat, t: bool)
    requires HoldsData(full, json) && j <= |full|
    ensures OneLine(full[..j] + Flush(t)) && !StartsWith(full[..j] + Flush(t), "event:")
  {
    var line := full[..j] + Flush(t);
    assert full[0] == full[..5][0] == 'd';
    assert j > 0 ==> line[0] == full[0];
    StartsElse(line, "event:");
  }

  /** Cut in its data line, a message gives itself if its JSON is whole and nothing otherwise. */
  lemma CutDataGives<J>(m: Message, j: nat, truncated: bool, parse: string -> Option<J>)
    requires Printable(m) && Unbreakable(m.json, parse) && j <= |DataLine(m)| && (truncated ==> j < |DataLine(m)|)
    ensures BlockEvents(NameLine(m) + "\n" + (DataLine(m)[..j] + Flush(truncated)), true, parse)
            == if j < |DataLine(m)| then [] else [Sent(m, parse)]
  {
    var line := DataLine(m)[..j] + Flush(truncated);
    DataLineHolds(m);
    CutStaysALine(DataLine(m), m.json, j, truncated);
    NameIsRead(m);
    OneLineIsALine(line);
    FirstOfLines(NameLine(m), line);
    assert [NameLine(m)] + [line] == [NameLine(m), line];
    TwoLinesRead(NameLine(m), line);
    if j < 5 {
      ShortCutIsNoData(DataLine(m), m.json, j, truncated);
    } else {
      LongCutIsData(DataLine(m), m.json, j, truncated);
      CutPayload(DataLine(m), m.json, j, truncated);
      CutPayloadDecodes(m, if j < 6 then 0 else j - 6, truncated, parse);
    }
  }

  lemma CutPayloadDecodes<J>(m: Message, k: nat, truncated: bool, parse: string -> Option<J>)
    requires Printable(m) && Unbreakable(m.json, parse) && k <= |m.json| && (truncated ==> k < |m.json|)
    ensures Decoded(m.name, Join([m.json[..k] + Flush(truncated)]), true, parse)
            == if k < |m.json| then [] else [Sent(m, parse)]
  {
    if k < |m.json| {
      assert Unreadable(m.json[..k] + Flush(truncated), parse);
    } else {
      assert m.json[..k] + Flush(truncated) == m.json;
    }
  }

  /** The same from the message's first character on. */
  lemma CutMessageGives<J>(m: Message, n: nat, truncated: bool, parse: string -> Option<J>)
    requires Printable(m) && Unbreakable(m.json, parse) && n < |Wire(m)|
    requires truncated ==> Wire(m)[n] > '\U{7F}'
    ensures TailEvents(Wire(m)[..n] + Flush(truncated), parse) == if n < |Wire(m)| - 2 then [] else [Sent(m, parse)]
  {
    var head, data := NameLine(m), DataLine(m);
    var text := Wire(m)[..n] + Flush(truncated);
    NameIsRead(m);
    assert head[0] == 'e';
    if n <= |head| {
      assert Wire(m)[..n] == head[..n];
      CutNameGivesNothing(head, n, truncated, parse);
    } else {
      var j := n - |head| - 1;
      assert text[0] == 'e';
      NotBlank(text);
      if j <= |data| {
        assert text == head + "\n" + (data[..j] + Flush(truncated));
        CutDataGives(m, j, truncated, parse);
      } else {
        assert Wire(m)[n] == '\n';
        assert text == head + "\n" + data + "\n";
        MessageBlockReads(m, true, parse);
      }
    }
  }

  lemma NotInPrefix(whole: string, n: nat, p: string)
    requires !Occurs(whole, p) && n <= |whole|
    ensures !Occurs(whole[..n], p)
  {
    forall k ensures !OccursAt(whole[..n], p, k) {
      if 0 <= k && k + |p| <= n {
        assert whole[..n][k..k + |p|] == whole[k..k + |p|];
        assert !OccursAt(whole, p, k);
      }
    }
  }

  lemma CutStreamInFirst<J>(m: Message, n: nat, truncated: bool, parse: string -> Option<J>)
    requires Printable(m) && Unbreakable(m.json, parse) && n < |Wire(m)|
    requires truncated ==> Wire(m)[n] > '\U{7F}'
    ensures Deliver(Wire(m)[..n], truncated, parse) == if n < |Wire(m)| - 2 then [] else [Sent(m, parse)]
  {
    var whole := NameLine(m) + "\n" + DataLine(m) + "\n";
    MessageCloses(m);
    assert Wire(m)[..n] == whole[..n];
    NotInPrefix(whole, n, "\n\n");
    assert Blocks(Wire(m)[..n]) == ([], Wire(m)[..n]);
    CutMessageGives(m, n, truncated, parse);
  }

  ghost predicate AllUnbreakable<J>(messages: seq<Message>, parse: string -> Option<J>) {
    forall i :: 0 <= i < |messages| ==> Unbreakable(messages[i].json, parse)
  }

  /** The decoder reports a broken character only where the cut fell inside one. */
  ghost predicate CutAt(output: string, n: nat, truncated: bool) {
    n <= |output| && (truncated ==> n < |output| && output[n] > '\U{7F}')
  }

  lemma CutAfterFirst<J>(messages: seq<Message>, n: nat, truncated: bool, parse: string -> Option<J>)
    requires messages != [] && Printable(messages[0]) && |Wire(messages[0])| <= n
    requires CutAt(Output(messages), n, truncated)
    ensures var later := n - |Wire(messages[0])|;
            && CutAt(Output(messages[1..]), later, truncated)
            && Deliver(Output(messages)[..n], truncated, parse)
               == [Sent(messages[0], parse)] + Deliver(Output(messages[1..])[..later], truncated, parse)
  {
    var first, after := Wire(messages[0]), Output(messages[1..]);
    assert Output(messages)[..n] == first + after[..n - |first|];
    MessageThenText(messages[0], after[..n - |first|], truncated, parse);
  }

  lemma CutInFirst<J>(messages: seq<Message>, n: nat, truncated: bool, parse: string -> Option<J>)
    requires messages != [] && Printable(messages[0]) && Unbreakable(messages[0].json, parse)
    requires n < |Wire(messages[0])| && CutAt(Output(messages), n, truncated)
    ensures Deliver(Output(messages)[..n], truncated, parse)
            == if n < |Wire(messages[0])| - 2 then [] else [Sent(messages[0], parse)]
  {
    assert Output(messages)[..n] == Wire(messages[0])[..n];
    CutStreamInFirst(messages[0], n, truncated, parse);
  }

  lemma SentPrefix<J>(messages: seq<Message>, k: nat, parse: string -> Option<J>)
    requires k < |messages|
    ensures SentAll(messages[..k + 1], parse) == [Sent(messages[0], parse)] + SentAll(messages[1..][..k], parse)
  {
    assert messages[..k + 1][1..] == messages[1..][..k];
  }

  lemma RestQualifies<J>(messages: seq<Message>, parse: string -> Option<J>)
    requires messages != [] && AllPrintable(messages) && AllUnbreakable(messages, parse)
    ensures Printable(messages[0]) && Unbreakable(messages[0].json, parse)
    ensures AllPrintable(messages[1..]) && AllUnbreakable(messages[1..], parse)
  {
  }

  lemma ArrivedUnfolds(messages: seq<Message>, n: nat)
    requires messages != []
    ensures var size := |Wire(messages[0])|;
            Arrived(messages, n)
            == if n < size - 2 then 0 else 1 + (if n < size then 0 else Arrived(messages[1..], n - size))
  {
    NoneArrivedYet(messages[1..]);
  }

  lemma {:induction false} CutOutputIsDelivered<J>(
      messages: seq<Message>, n: nat, truncated: bool, parse: string -> Option<J>)
    requires AllPrintable(messages) && AllUnbreakable(messages, parse) && CutAt(Output(messages), n, truncated)
    ensures Deliver(Output(messages)[..n], truncated, parse) == SentAll(messages[..Arrived(messages, n)], parse)
    decreases |messages|
  {
    if messages == [] {
      NothingDelivered(parse);
    } else {
      var size := |Wire(messages[0])|;
      RestQualifies(messages, parse);
      ArrivedUnfolds(messages, n);
      if n >= size {
        CutAfterFirst(messages, n, truncated, parse);
        CutOutputIsDelivered(messages[1..], n - size, truncated, parse);
        SentPrefix(messages, Arrived(messages[1..], n - size), parse);
      } else {
        CutInFirst(messages, n, truncated, parse);
        SentPrefix(messages, 0, parse);
      }
    }
  }

  /** A stream cut short anywhere, and chunked in any way before that, delivers exactly the messages whose JSON
      arrived whole: never a fragment, never a gap. */
  lemma CutStreamDeliversWholeMessages<J>(
      messages: seq<Message>, n: nat, chunks: seq<string>, truncated: bool, parse: string -> Option<J>)
    requires AllPrintable(messages) && AllUnbreakable(messages, parse) && CutAt(Output(messages), n, truncated)
    requires Concat(chunks) == Output(messages)[..n]
    ensures Deliver(Normalized(chunks), truncated, parse) == SentAll(messages[..Arrived(messages, n)], parse)
  {
    PlainChunks(messages, chunks, n);
    CutOutputIsDelivered(messages, n, truncated, parse);
  }

  // ---- A line end cut in two ----

  lemma NormalizedLineEnds(line: string)
    requires OneLine(line)
    ensures NormalizeNewlines(line + "\r\n\r\n") == line + "\n\n"
    ensures NormalizeNewlines(line + "\r\n\r") == line + "\n\r"
  {
    NormalizeWithoutCarriageReturn(line);
    NormalizeSplit(line, "\r\n\r\n");
    NormalizeSplit(line, "\r\n\r");
    assert "\r\n\r\n"[2..] == "\r\n" && "\r\n"[2..] == "" && "\r\n\r"[2..] == "\r" && "\r"[1..] == "";
    assert NormalizeNewlines("\r\n") == "\n" && NormalizeNewlines("\r") == "\r";
  }

  lemma SplitEndStaysOpen(line: string)
    requires OneLine(line)
    ensures Blocks(line + "\n\r\n") == ([], line + "\n\r\n")
    ensures Lines(line + "\n\r\n") == [line, "\r", ""]
  {
    var s := line + "\n\r\n";
    forall k ensures !OccursAt(s, "\n\n", k) {
      if 0 <= k && k + 2 <= |s| {
        assert s[k..k + 2][0] == s[k] && s[k..k + 2][1] == s[k + 1];
        assert k < |line| ==> s[k] == line[k];
      }
    }
    OneLineIsALine("");
    FirstBreak("\r", "");
    assert "\r" + "\n" + "" == "\r\n";
    assert "\r\n"[..1] == "\r" && "\r\n"[2..] == "";
    FirstOfLines(line, "\r\n");
    assert line + "\n" + "\r\n" == s;
  }

  /** One text, two cuts: where the border falls inside the CRLF pair that ends a block of plain text, the block
      is never closed and its event is lost. */
  lemma CutPairLosesAnEvent<J>(line: string, parse: string -> Option<J>)
    requires OneLine(line) && StartsWith(line, "data:")
    requires TrimStart(line[5..]) != "" && Unreadable(TrimStart(line[5..]), parse)
    ensures Concat([line + "\r\n\r\n"]) == Concat([line + "\r\n\r", "\n"])
    ensures Deliver(Normalized([line + "\r\n\r\n"]), false, parse) == [Event("message", Raw(TrimStart(line[5..])))]
    ensures Deliver(Normalized([line + "\r\n\r", "\n"]), false, parse) == []
  {
    WholeAndCutTexts(line);
    WholeBlockIsDelivered(line, parse);
    OpenBlockIsDropped(line, parse);
  }

  lemma WholeBlockIsDelivered<J>(line: string, parse: string -> Option<J>)
    requires OneLine(line) && StartsWith(line, "data:")
    requires TrimStart(line[5..]) != "" && Unreadable(TrimStart(line[5..]), parse)
    ensures Deliver(line + "\n\n" + "", false, parse) == [Event("message", Raw(TrimStart(line[5..])))]
  {
    PlainBlockReads(line, parse);
    PlainBlockIsDelivered(line, parse);
  }

  lemma OpenBlockIsDropped<J>(line: string, parse: string -> Option<J>)
    requires OneLine(line) && StartsWith(line, "data:")
    requires TrimStart(line[5..]) != "" && Unreadable(TrimStart(line[5..]), parse)
    ensures Deliver(line + "\n\r\n", false, parse) == []
  {
    PlainBlockReads(line, parse);
    SplitEndStaysOpen(line);
    var rest := line + "\n\r\n";
    assert rest + Flush(false) == rest;
  }

  lemma TwoChunks(first: string, second: string)
    ensures Concat([first, second]) == first + second
    ensures Normalized([first, second]) == NormalizeNewlines(first) + NormalizeNewlines(second)
  {
    assert [first, second][..1] == [first];
    SoleChunk(first);
  }

  lemma WholeAndCutTexts(line: string)
    requires OneLine(line)
    ensures Concat([line + "\r\n\r\n"]) == Concat([line + "\r\n\r", "\n"])
    ensures Normalized([line + "\r\n\r\n"]) == line + "\n\n" + ""
    ensures Normalized([line + "\r\n\r", "\n"]) == line + "\n\r\n"
  {
    NormalizedLineEnds(line);
    SoleChunk(line + "\r\n\r\n");
    TwoChunks(line + "\r\n\r", "\n");
    NormalizeWithoutCarriageReturn("\n");
  }

  lemma SoleChunk(chunk: string)
    ensures Concat([chunk]) == chunk && Normalized([chunk]) == NormalizeNewlines(chunk)
  {
    var none: seq<string> := [];
    assert [chunk][..0] == none;
    assert Concat(none) == "" && Normalized(none) == "";
  }

  lemma PlainBlockReads<J>(line: string, parse: string -> Option<J>)
    requires OneLine(line) && StartsWith(line, "data:")
    requires TrimStart(line[5..]) != "" && Unreadable(TrimStart(line[5..]), parse)
    ensures BlockEvents(line, false, parse) == [Event("message", Raw(TrimStart(line[5..])))]
    ensures BlockEvents(line + "\n\r\n", true, parse) == []
  {
    OneLineIsALine(line);
    SoleLineReads(line);
    assert line[0] == line[..5][0];
    StartsElse(line, "event:");
    var none: seq<string> := [];
    assert [line][..0] == none;
    assert EventName(none) == "message";
    SplitEndStaysOpen(line);
    EmptyLineReads([line, "\r"]);
    assert [line, "\r"] + [""] == [line, "\r", ""];
    assert [line, "\r"][..1] == [line];
    assert Join([TrimStart(line[5..])]) == TrimStart(line[5..]);
  }

  lemma PlainBlockIsDelivered<J>(line: string, parse: string -> Option<J>)
    requires OneLine(line) && line != ""
    ensures Deliver(line + "\n\n" + "", false, parse) == BlockEvents(line, false, parse)
  {
    var s := line + "\n";
    forall k ensures !OccursAt(s, "\n\n", k) {
      if 0 <= k && k + 2 <= |s| {
        assert s[k..k + 2][0] == s[k] == line[k];
      }
    }
    FirstBlockComes(line, "");
    NothingDelivered(parse);
    FirstBlockEmits(line, [], parse);
  }
}
