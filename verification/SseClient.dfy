/** The browser's event-stream reader, against the server's event writer. */
module SseClient {
  import opened Wrappers
  import opened Text

  /** What a handler receives: a decoded value, the bare text, or nothing (for the end marker). */
  datatype Data<+J> = Parsed(value: J) | Raw(text: string) | Nothing

  datatype Event<+J> = Event(name: string, data: Data<J>)

  /** JavaScript white space, as trim and trimStart remove it. */
  predicate JsSpace(c: char) {
    c in {'\t', '\n', '\U{0B}', '\U{0C}', '\r', ' ', '\U{A0}', '\U{1680}', '\U{2028}', '\U{2029}', '\U{202F}',
          '\U{205F}', '\U{3000}', '\U{FEFF}'}
    || '\U{2000}' <= c <= '\U{200A}'
  }

  function TrimStart(s: string): string {
    if s != "" && JsSpace(s[0]) then TrimStart(s[1..]) else s
  }

  function TrimEnd(s: string): string {
    if s != "" && JsSpace(s[|s| - 1]) then TrimEnd(s[..|s| - 1]) else s
  }

  function JsTrim(s: string): string {
    TrimEnd(TrimStart(s))
  }

  predicate StartsWith(s: string, p: string) {
    |p| <= |s| && s[..|p|] == p
  }

  /** block.split("\n"). */
  function Lines(s: string): (r: seq<string>)
    ensures |r| > 0
    decreases |s|
  {
    var i := Index(s, "\n");
    if i == -1 then [s] else [s[..i]] + Lines(s[i + 1..])
  }

  function EventName(lines: seq<string>): string {
    if lines == [] then "message"
    else
      var last := lines[|lines| - 1];
      if StartsWith(last, "event:") then JsTrim(last[6..]) else EventName(lines[..|lines| - 1])
  }

  function DataLines(lines: seq<string>): seq<string> {
    if lines == [] then []
    else
      var last := lines[|lines| - 1];
      DataLines(lines[..|lines| - 1]) + (if StartsWith(last, "data:") then [TrimStart(last[5..])] else [])
  }

  /** The event, if any, that a payload gives. */
  function Decoded<J>(name: string, raw: string, completeOnly: bool, parse: string -> Option<J>): seq<Event<J>> {
    if raw == "" then []
    else if raw == "[DONE]" then [Event("finish", Nothing)]
    else if parse(raw).Some? then [Event(name, Parsed(parse(raw).value))]
    else if completeOnly then []
    else [Event(name, Raw(raw))]
  }

  function BlockEvents<J>(block: string, completeOnly: bool, parse: string -> Option<J>): seq<Event<J>> {
    Decoded(EventName(Lines(block)), Join(DataLines(Lines(block))), completeOnly, parse)
  }

  method EmitSseBlock<J>(block: string, completeOnly: bool, parse: string -> Option<J>) returns (events: seq<Event<J>>)
    ensures events == BlockEvents(block, completeOnly, parse)
  {
    var eventName := "message";
    var dataLines: seq<string> := [];
    var lines := Lines(block);
    for i := 0 to |lines|
      invariant eventName == EventName(lines[..i]) && dataLines == DataLines(lines[..i])
    {
      assert lines[..i + 1][..i] == lines[..i];
      var line := lines[i];
      if StartsWith(line, "event:") {
        eventName := JsTrim(line[6..]);
      }
      if StartsWith(line, "data:") {
        dataLines := dataLines + [TrimStart(line[5..])];
      }
    }
    assert lines[..|lines|] == lines;
    var raw := Join(dataLines);
    events := [];
    if raw != "" && raw != "[DONE]" {
      var parsed := parse(raw);
      if parsed.Some? {
        return [Event(eventName, Parsed(parsed.value))];
      } else if completeOnly {
        return;
      }
      events := [Event(eventName, Raw(raw))];
    }
    if raw == "[DONE]" {
      events := events + [Event("finish", Nothing)];
    }
  }

  /** The event's name is what the last event line says, trimmed, and "message" without one. */
  lemma {:induction false} NameIsTheLastLine(lines: seq<string>, before: seq<string>, name: string)
    requires forall i :: 0 <= i < |lines| ==> !StartsWith(lines[i], "event:")
    ensures EventName(lines) == "message" && EventName(before + ["event:" + name] + lines) == JsTrim(name)
  {
    var all := before + ["event:" + name] + lines;
    if lines == [] {
      assert all[|all| - 1] == "event:" + name;
      assert ("event:" + name)[6..] == name;
    } else {
      NameIsTheLastLine(lines[..|lines| - 1], before, name);
      assert all[..|all| - 1] == before + ["event:" + name] + lines[..|lines| - 1];
    }
  }

  /** The data is what the data lines say, in order, without the white space in front. */
  lemma DataIsEveryLine(lines: seq<string>, text: string, other: string)
    requires !StartsWith(other, "data:")
    ensures DataLines([]) == [] && DataLines(lines + [other]) == DataLines(lines)
    ensures DataLines(lines + ["data:" + text]) == DataLines(lines) + [TrimStart(text)]
  {
    assert (lines + [other])[..|lines|] == lines && (lines + ["data:" + text])[..|lines|] == lines;
    assert ("data:" + text)[5..] == text;
  }

  lemma {:induction false} TrimStartExactly(s: string)
    ensures |TrimStart(s)| <= |s| && s[|s| - |TrimStart(s)|..] == TrimStart(s)
    ensures forall i :: 0 <= i < |s| - |TrimStart(s)| ==> JsSpace(s[i])
    ensures TrimStart(s) != "" ==> !JsSpace(TrimStart(s)[0])
  {
    if s != "" && JsSpace(s[0]) {
      TrimStartExactly(s[1..]);
    }
  }

  /** What a payload gives: nothing if it is empty; the end for the end marker; its value if it is JSON; otherwise its
      text, unless only whole messages count. */
  lemma PayloadGivesExactly<J>(name: string, raw: string, completeOnly: bool, parse: string -> Option<J>)
    ensures var events := Decoded(name, raw, completeOnly, parse);
            && (events == [] <==> raw == "" || (completeOnly && raw != "[DONE]" && parse(raw).None?))
            && (events == [Event("finish", Nothing)] <==> raw == "[DONE]")
            && (forall v :: events == [Event(name, Parsed(v))] <==> raw !in {"", "[DONE]"} && parse(raw) == Some(v))
            && (events == [Event(name, Raw(raw))] <==> raw !in {"", "[DONE]"} && parse(raw).None? && !completeOnly)
  {
  }

  // ---- Blocks ----

  /** The blocks a text holds and what is left after the last blank line. */
  function Blocks(text: string): (seq<string>, string)
    decreases |text|
  {
    var i := Index(text, "\n\n");
    if i == -1 then ([], text)
    else
      var after := Blocks(text[i + 2..]);
      ([text[..i]] + after.0, after.1)
  }

  function Terminated(blocks: seq<string>): string {
    if blocks == [] then "" else blocks[0] + "\n\n" + Terminated(blocks[1..])
  }

  /** A block ends at its first blank line, and none is left over. */
  ghost predicate IsSplit(text: string, blocks: seq<string>, rest: string) {
    && text == Terminated(blocks) + rest && !Occurs(rest, "\n\n")
    && forall i :: 0 <= i < |blocks| ==> Closes(blocks[i])
  }

  ghost predicate Closes(block: string) {
    !Occurs(block + "\n", "\n\n")
  }

  /** An occurrence that starts inside the block already shows in the block with one line break. */
  lemma EarlierOccurrenceShows(block: string, sep: string, rest: string, k: nat)
    requires |sep| == 2 && k < |block| && OccursAt(block + sep + rest, sep, k)
    ensures OccursAt(block + [sep[0]], sep, k)
  {
    var s, closed := block + sep + rest, block + [sep[0]];
    assert s[..|closed|] == closed;
    assert closed[k..k + 2] == s[k..k + 2];
  }

  lemma SeparatorIsFirst(block: string, sep: string, rest: string)
    requires |sep| == 2 && !Occurs(block + [sep[0]], sep)
    ensures Index(block + sep + rest, sep) == |block|
  {
    var s := block + sep + rest;
    assert s[|block|..|block| + 2] == sep;
    forall k: nat | k < |block| ensures !OccursAt(s, sep, k) {
      if OccursAt(s, sep, k) {
        EarlierOccurrenceShows(block, sep, rest, k);
      }
    }
    assert OccursAt(s, sep, |block|);
    assert OccursAt(s, sep, Index(s, sep));
  }

  lemma ClosingBlockIsFirst(block: string, rest: string)
    requires Closes(block)
    ensures Index(block + "\n\n" + rest, "\n\n") == |block|
  {
    var sep := "\n\n";
    assert [sep[0]] == "\n";
    SeparatorIsFirst(block, sep, rest);
  }

  lemma BeforeTheFirst(text: string, sep: string)
    requires |sep| == 2 && Index(text, sep) != -1
    ensures !Occurs(text[..Index(text, sep)] + [sep[0]], sep)
    ensures text == text[..Index(text, sep)] + sep + text[Index(text, sep) + 2..]
  {
    var i := Index(text, sep);
    var block := text[..i] + [sep[0]];
    assert text[i] == text[i..i + 2][0];
    assert text[..i + 1] == block;
    forall k ensures !OccursAt(block, sep, k) {
      if OccursAt(block, sep, k) {
        assert block[k..k + 2] == text[k..k + 2];
        assert OccursAt(text, sep, k);
      }
    }
  }

  lemma FirstBlockCloses(text: string)
    requires Index(text, "\n\n") != -1
    ensures Closes(text[..Index(text, "\n\n")])
    ensures text == text[..Index(text, "\n\n")] + "\n\n" + text[Index(text, "\n\n") + 2..]
  {
    var sep := "\n\n";
    assert [sep[0]] == "\n";
    BeforeTheFirst(text, sep);
  }

  /** `Blocks` is the one way to cut a text at its blank lines. */
  lemma {:induction false} BlocksExactly(text: string, blocks: seq<string>, rest: string)
    ensures Blocks(text) == (blocks, rest) <==> IsSplit(text, blocks, rest)
    decreases |text|
  {
    var i := Index(text, "\n\n");
    if i == -1 {
      if IsSplit(text, blocks, rest) && blocks != [] {
        assert text == blocks[0] + "\n\n" + (Terminated(blocks[1..]) + rest);
        ClosingBlockIsFirst(blocks[0], Terminated(blocks[1..]) + rest);
      }
      assert blocks == [] ==> Terminated(blocks) + rest == rest;
    } else {
      FirstBlockCloses(text);
      if blocks == [] {
        assert Terminated(blocks) + rest == rest;
        assert OccursAt(text, "\n\n", i);
      } else {
        BlocksExactly(text[i + 2..], blocks[1..], rest);
        SplitPeels(text, blocks, rest);
        assert Blocks(text) == (blocks, rest)
               <==> text[..i] == blocks[0] && Blocks(text[i + 2..]) == (blocks[1..], rest) by {
          assert blocks == [blocks[0]] + blocks[1..];
          assert ([text[..i]] + Blocks(text[i + 2..]).0)[1..] == Blocks(text[i + 2..]).0;
        }
      }
    }
  }

  lemma SplitPeels(text: string, blocks: seq<string>, rest: string)
    requires blocks != [] && Index(text, "\n\n") != -1
    ensures var i := Index(text, "\n\n");
            IsSplit(text, blocks, rest) <==> text[..i] == blocks[0] && IsSplit(text[i + 2..], blocks[1..], rest)
  {
    var i := Index(text, "\n\n");
    FirstBlockCloses(text);
    assert Terminated(blocks) + rest == blocks[0] + "\n\n" + (Terminated(blocks[1..]) + rest);
    if IsSplit(text, blocks, rest) {
      ClosingBlockIsFirst(blocks[0], Terminated(blocks[1..]) + rest);
      assert text[i + 2..] == Terminated(blocks[1..]) + rest;
    }
    if text[..i] == blocks[0] && IsSplit(text[i + 2..], blocks[1..], rest) {
      forall j | 0 <= j < |blocks| ensures Closes(blocks[j]) {
        assert j > 0 ==> blocks[j] == blocks[1..][j - 1];
      }
    }
  }

  ghost predicate Grows(a: string, b: string) {
    var rest := Blocks(Blocks(a).1 + b);
    Blocks(a + b) == (Blocks(a).0 + rest.0, rest.1)
  }

  lemma Reassociate<T>(a: seq<T>, b: seq<T>, c: seq<T>)
    ensures a + (b + c) == (a + b) + c
  {
  }

  lemma GrowsBehindABlock(block: string, after: string, b: string)
    requires Closes(block) && Grows(after, b)
    ensures Grows(block + "\n\n" + after, b)
  {
    FirstBlockComes(block, after);
    FirstBlockComes(block, after + b);
    Reassociate(block + "\n\n", after, b);
    Reassociate([block], Blocks(after).0, Blocks(Blocks(after).1 + b).0);
  }

  /** A growing buffer: cutting what is there first, then the rest with what comes, loses nothing. */
  lemma {:induction false} BlocksGrow(a: string, b: string)
    ensures Grows(a, b)
    decreases |a|
  {
    var i := Index(a, "\n\n");
    if i == -1 {
      assert [] + Blocks(a + b).0 == Blocks(a + b).0;
    } else {
      FirstBlockCloses(a);
      BlocksGrow(a[i + 2..], b);
      GrowsBehindABlock(a[..i], a[i + 2..], b);
    }
  }

  lemma FirstBlockComes(block: string, after: string)
    requires Closes(block)
    ensures Blocks(block + "\n\n" + after) == ([block] + Blocks(after).0, Blocks(after).1)
  {
    ClosingBlockIsFirst(block, after);
    var text := block + "\n\n" + after;
    assert text[..|block|] == block && text[|block| + 2..] == after;
  }

  // ---- The stream ----

  function EmitAll<J>(blocks: seq<string>, parse: string -> Option<J>): seq<Event<J>> {
    if blocks == [] then []
    else EmitAll(blocks[..|blocks| - 1], parse) + BlockEvents(blocks[|blocks| - 1], false, parse)
  }

  function Concat(chunks: seq<string>): string {
    if chunks == [] then "" else Concat(chunks[..|chunks| - 1]) + chunks[|chunks| - 1]
  }

  /** The text as the reader sees it: line ends are rewritten in each chunk on its own. */
  function Normalized(chunks: seq<string>): string {
    if chunks == [] then ""
    else Normalized(chunks[..|chunks| - 1]) + NormalizeNewlines(chunks[|chunks| - 1])
  }

  /** What the decoder gives at the end: a replacement character if the bytes stopped inside a character. */
  function Flush(truncated: bool): string {
    if truncated then "\U{FFFD}" else ""
  }

  function TailEvents<J>(rest: string, parse: string -> Option<J>): seq<Event<J>> {
    if JsTrim(rest) != "" then BlockEvents(rest, true, parse) else []
  }

  /** The events of a whole text: every terminated block, then the tail if it is complete. */
  function Deliver<J>(text: string, truncated: bool, parse: string -> Option<J>): seq<Event<J>> {
    EmitAll(Blocks(text).0, parse) + TailEvents(Blocks(text).1 + Flush(truncated), parse)
  }

  lemma OneMoreBlock<J>(blocks: seq<string>, block: string, parse: string -> Option<J>)
    ensures EmitAll(blocks + [block], parse) == EmitAll(blocks, parse) + BlockEvents(block, false, parse)
  {
    assert (blocks + [block])[..|blocks|] == blocks;
  }

  lemma OneMoreChunk(chunks: seq<string>, i: nat)
    requires i < |chunks|
    ensures Normalized(chunks[..i + 1]) == Normalized(chunks[..i]) + NormalizeNewlines(chunks[i])
  {
    assert chunks[..i + 1][..i] == chunks[..i];
  }

  lemma OneBlockLess(emitted: seq<string>, buffer: string)
    requires Index(buffer, "\n\n") >= 0
    ensures var i := Index(buffer, "\n\n");
            && emitted + Blocks(buffer).0 == (emitted + [buffer[..i]]) + Blocks(buffer[i + 2..]).0
            && Blocks(buffer).1 == Blocks(buffer[i + 2..]).1
  {
  }

  lemma NoBlockLeft(emitted: seq<string>, buffer: string)
    requires Index(buffer, "\n\n") < 0
    ensures (emitted + Blocks(buffer).0, Blocks(buffer).1) == (emitted, buffer)
  {
    assert Blocks(buffer) == ([], buffer);
    assert emitted + [] == emitted;
  }

  method StreamAiChat<J>(chunks: seq<string>, truncated: bool, parse: string -> Option<J>)
    returns (events: seq<Event<J>>)
    ensures events == Deliver(Normalized(chunks), truncated, parse)
  {
    events := [];
    var buffer := "";
    ghost var emitted: seq<string> := [];
    for i := 0 to |chunks|
      invariant Blocks(Normalized(chunks[..i])) == (emitted, buffer)
      invariant events == EmitAll(emitted, parse)
    {
      ghost var text := Normalized(chunks[..i + 1]);
      OneMoreChunk(chunks, i);
      BlocksGrow(Normalized(chunks[..i]), NormalizeNewlines(chunks[i]));
      buffer := buffer + NormalizeNewlines(chunks[i]);
      var boundary := Index(buffer, "\n\n");
      while boundary >= 0
        invariant boundary == Index(buffer, "\n\n")
        invariant emitted + Blocks(buffer).0 == Blocks(text).0 && Blocks(buffer).1 == Blocks(text).1
        invariant events == EmitAll(emitted, parse)
        decreases |buffer|
      {
        OneBlockLess(emitted, buffer);
        var block := buffer[..boundary];
        buffer := buffer[boundary + 2..];
        var more := EmitSseBlock(block, false, parse);
        OneMoreBlock(emitted, block, parse);
        emitted := emitted + [block];
        events := events + more;
        boundary := Index(buffer, "\n\n");
      }
      NoBlockLeft(emitted, buffer);
    }
    assert chunks[..|chunks|] == chunks;
    buffer := buffer + Flush(truncated);
    if JsTrim(buffer) != "" {
      var more := EmitSseBlock(buffer, true, parse);
      events := events + more;
    }
  }

  // ---- Chunking ----

  /** How many chunk borders fall inside a CRLF pair. */
  function SplitPairs(chunks: seq<string>): nat {
    if chunks == [] then 0
    else
      var n := |chunks| - 1;
      SplitPairs(chunks[..n]) + (if CutsPair(Concat(chunks[..n]), chunks[n]) then 1 else 0)
  }

  /** Each cut pair leaves one carriage return too many, so the chunks read like the whole text exactly when
      no border falls inside a pair. */
  lemma {:induction false} ChunksReadLikeTheWholeExactly(chunks: seq<string>)
    ensures |Normalized(chunks)| == |NormalizeNewlines(Concat(chunks))| + SplitPairs(chunks)
    ensures Normalized(chunks) == NormalizeNewlines(Concat(chunks)) <==> SplitPairs(chunks) == 0
  {
    if chunks != [] {
      var n := |chunks| - 1;
      ChunksReadLikeTheWholeExactly(chunks[..n]);
      NormalizeSplit(Concat(chunks[..n]), chunks[n]);
    }
  }

  lemma {:induction false} NoCarriageReturnNoSplit(chunks: seq<string>)
    requires '\r' !in Concat(chunks)
    ensures SplitPairs(chunks) == 0
  {
    if chunks != [] {
      var n := |chunks| - 1;
      var before := Concat(chunks[..n]);
      assert forall c :: c in before ==> c in Concat(chunks);
      NoCarriageReturnNoSplit(chunks[..n]);
      assert before != "" ==> before[|before| - 1] in before;
    }
  }

  /** However a text is cut, as long as no cut falls inside a CRLF pair, the same events are delivered. */
  lemma ChunkingDoesNotMatter<J>(chunks: seq<string>, others: seq<string>, truncated: bool, parse: string -> Option<J>)
    requires Concat(chunks) == Concat(others) && SplitPairs(chunks) == 0 && SplitPairs(others) == 0
    ensures Deliver(Normalized(chunks), truncated, parse) == Deliver(Normalized(others), truncated, parse)
  {
    ChunksReadLikeTheWholeExactly(chunks);
    ChunksReadLikeTheWholeExactly(others);
  }
}
