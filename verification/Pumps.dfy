/** The provider pumps as loops over response chunks, and what every stream they produce looks like. */
module Pumps {
  import opened Common
  import opened LineSplitter
  import opened Providers

  /** What a receiver that goes away after `capacity` items has seen of a stream. */
  function Seen(items: seq<Item>, capacity: nat): seq<Item> {
    if capacity < |items| then items[..capacity] else items
  }

  lemma SeenIsPrefix(items: seq<Item>, capacity: nat)
    ensures Seen(items, capacity) <= items
    ensures |Seen(items, capacity)| == if |items| < capacity then |items| else capacity
  {
  }

  /** `out` has been sent and did not end the stream; what `rest` says is still to come. */
  ghost predicate Pending(all: seq<Item>, out: seq<Item>, rest: seq<Item>, capacity: nat) {
    AllDeltas(out) && |out| <= capacity && all == out + UpToTerminal(rest)
  }

  lemma SendDelta(all: seq<Item>, out: seq<Item>, item: Item, rest: seq<Item>, capacity: nat)
    requires Pending(all, out, [item] + rest, capacity) && !Terminal(item) && |out| < capacity
    ensures Pending(all, out + [item], rest, capacity)
  {
    CutAfterDeltas([item], rest);
  }

  lemma SendTerminal(all: seq<Item>, out: seq<Item>, item: Item, rest: seq<Item>, capacity: nat)
    requires Pending(all, out, [item] + rest, capacity) && Terminal(item)
    ensures all == out + [item]
  {
    assert ([item] + rest)[0] == item;
  }

  /** Forward items until one ends the stream or the receiver is gone; `live` says that neither happened. */
  method ForwardItems(items: seq<Item>, sent: seq<Item>, capacity: nat, ghost all: seq<Item>, ghost rest: seq<Item>)
    returns (out: seq<Item>, live: bool)
    requires Pending(all, sent, items + rest, capacity)
    ensures live ==> Pending(all, out, rest, capacity)
    ensures !live ==> out == Seen(all, capacity)
  {
    out := sent;
    assert items[0..] == items;
    for j := 0 to |items|
      invariant Pending(all, out, items[j..] + rest, capacity)
    {
      var item := items[j];
      ghost var later := items[j + 1..] + rest;
      assert items[j..] + rest == [item] + later;
      if |out| == capacity {
        return out, false;
      }
      if Terminal(item) {
        SendTerminal(all, out, item, later, capacity);
        return out + [item], false;
      }
      SendDelta(all, out, item, later, capacity);
      out := out + [item];
    }
    assert items[|items|..] + rest == rest;
    live := true;
  }

  /** Forward a batch of lines. */
  method ForwardLines(p: Provider, batch: seq<Bytes>, sent: seq<Item>, capacity: nat,
                      ghost all: seq<Item>, ghost rest: seq<Item>)
    returns (out: seq<Item>, live: bool)
    requires Pending(all, sent, AllItems(p, batch) + rest, capacity)
    ensures live ==> Pending(all, out, rest, capacity)
    ensures !live ==> out == Seen(all, capacity)
  {
    out, live := sent, true;
    assert batch[0..] == batch;
    for j := 0 to |batch|
      invariant live && Pending(all, out, AllItems(p, batch[j..]) + rest, capacity)
    {
      var items := p.line(batch[j]);
      ghost var later := AllItems(p, batch[j + 1..]) + rest;
      assert batch[j..][1..] == batch[j + 1..];
      assert AllItems(p, batch[j..]) + rest == items + later;
      out, live := ForwardItems(items, out, capacity, all, later);
      if !live {
        return;
      }
    }
    assert AllItems(p, batch[|batch|..]) + rest == rest;
  }

  /** Send the item that closes the stream, if the receiver is still there. */
  method Close(sent: seq<Item>, last: Item, capacity: nat, ghost all: seq<Item>) returns (out: seq<Item>)
    requires Pending(all, sent, [last], capacity) && Terminal(last)
    ensures out == Seen(all, capacity)
  {
    assert [last] == [last] + [];
    SendTerminal(all, sent, last, [], capacity);
    out := if |sent| < capacity then sent + [last] else sent;
  }

  /** Read the body: `live` says it ended without a terminal item, leaving its residue in `lines`. */
  method ReadBody(p: Provider, chunks: seq<Chunk>, capacity: nat)
    returns (out: seq<Item>, live: bool, lines: LineBuffer)
    ensures fresh(lines)
    ensures live ==> Pending(Events(p, chunks), out, p.finish(lines.buffer), capacity)
    ensures !live ==> out == Seen(Events(p, chunks), capacity)
  {
    ghost var all := Events(p, chunks);
    lines := new LineBuffer();
    out, live := [], true;
    assert chunks[0..] == chunks;
    for i := 0 to |chunks|
      invariant fresh(lines) && live
      invariant Pending(all, out, Script(p, lines.buffer, chunks[i..]), capacity)
    {
      assert chunks[i..][1..] == chunks[i + 1..];
      if chunks[i].Failed? {
        out := Close(out, Err(Request(chunks[i].message)), capacity, all);
        live := false;
        return;
      }
      var batch := lines.Push(chunks[i].bytes);
      out, live := ForwardLines(p, batch, out, capacity, all, Script(p, lines.buffer, chunks[i + 1..]));
      if !live {
        return;
      }
    }
  }

  /** The OpenAI and Anthropic pumps, which differ only in `parse_line` and the closing message. */
  method SsePump(codec: Codec, sse: Sse, chunks: seq<Chunk>, capacity: nat) returns (out: seq<Item>)
    ensures out == Seen(Events(SseProvider(codec, sse), chunks), capacity)
  {
    var live, lines;
    out, live, lines := ReadBody(SseProvider(codec, sse), chunks, capacity);
    if live {
      out := Close(out, EndOfStream(sse), capacity, Events(SseProvider(codec, sse), chunks));
    }
  }

  lemma SeenSnoc(items: seq<Item>, item: Item, capacity: nat)
    ensures Seen(items + [item], capacity) ==
      if |Seen(items, capacity)| < capacity then Seen(items, capacity) + [item] else Seen(items, capacity)
  {
  }

  /** Sends every event whatever happens, ignoring a receiver that has gone away. */
  method SendAll(events: seq<StreamEvent>, sent: seq<Item>, capacity: nat) returns (out: seq<Item>, sawDone: bool)
    requires |sent| <= capacity
    ensures out == Seen(sent + Oks(events), capacity)
    ensures sawDone <==> Done in events
  {
    out, sawDone := sent, false;
    assert sent + Oks([]) == sent;
    for j := 0 to |events|
      invariant out == Seen(sent + Oks(events[..j]), capacity)
      invariant sawDone <==> Done in events[..j]
    {
      var done := events[j] == Done;
      SeenSnoc(sent + Oks(events[..j]), Ok(events[j]), capacity);
      assert events[..j + 1] == events[..j] + [events[j]];
      assert sent + Oks(events[..j + 1]) == sent + Oks(events[..j]) + [Ok(events[j])];
      if |out| < capacity {
        out := out + [Ok(events[j])];
      }
      if done {
        sawDone := true;
      }
    }
    assert events[..|events|] == events;
  }

  /** Since `Done` can only come last, sending all events is the same as stopping at `Done`. */
  lemma NoBreakNeeded(all: seq<Item>, sent: seq<Item>, events: seq<StreamEvent>, last: Item)
    requires AllDeltas(sent) && DoneIsLast(events) && all == sent + UpToTerminal(Oks(events) + [last]) && Terminal(last)
    ensures Done in events ==> all == sent + Oks(events)
    ensures Done !in events ==> all == sent + Oks(events) + [last]
  {
    if Done in events {
      var init := Oks(events)[..|events| - 1];
      CutAtTerminal(init, Ok(Done), [last]);
      assert Oks(events) == init + [Ok(Done)];
    } else {
      CutAfterDeltas(Oks(events), [last]);
    }
  }

  method FinishOllama(codec: Codec, lines: LineBuffer, sent: seq<Item>, capacity: nat, ghost all: seq<Item>)
    returns (out: seq<Item>)
    requires Pending(all, sent, OllamaFlush(codec, lines.buffer) + [OLLAMA_END], capacity)
    modifies lines
    ensures out == Seen(all, capacity)
  {
    ghost var items := OllamaFlush(codec, lines.buffer);
    var line := lines.Flush();
    if line == None {
      assert items + [OLLAMA_END] == [OLLAMA_END];
      out := Close(sent, OLLAMA_END, capacity, all);
      return;
    }
    var events, error := OllamaLine(codec, codec.lossy(line.value));
    if error.Some? {
      SendTerminal(all, sent, Err(error.value), [OLLAMA_END], capacity);
      out := if |sent| < capacity then sent + [Err(error.value)] else sent;
      return;
    }
    NoBreakNeeded(all, sent, events, OLLAMA_END);
    var sawDone;
    out, sawDone := SendAll(events, sent, capacity);
    if !sawDone {
      SeenSnoc(sent + Oks(events), OLLAMA_END, capacity);
      if |out| < capacity {
        out := out + [OLLAMA_END];
      }
    }
  }

  /** The Ollama pump: the record left at the end of the body is parsed too, by a loop that does not break. */
  method OllamaPump(codec: Codec, chunks: seq<Chunk>, capacity: nat) returns (out: seq<Item>)
    ensures out == Seen(Events(OllamaProvider(codec), chunks), capacity)
  {
    var live, lines;
    out, live, lines := ReadBody(OllamaProvider(codec), chunks, capacity);
    if live {
      assert OllamaProvider(codec).finish(lines.buffer) == OllamaFlush(codec, lines.buffer) + [OLLAMA_END];
      out := FinishOllama(codec, lines, out, capacity, Events(OllamaProvider(codec), chunks));
    }
  }

  // ---- Every stream ends exactly once ----

  /** Every script closes with a terminal item. */
  ghost predicate Closes(p: Provider) {
    forall b: Bytes :: |p.finish(b)| > 0 && Terminal(p.finish(b)[|p.finish(b)| - 1])
  }

  lemma ProvidersClose(codec: Codec, sse: Sse)
    ensures Closes(SseProvider(codec, sse)) && Closes(OllamaProvider(codec))
  {
  }

  lemma {:induction false} ScriptCloses(p: Provider, buffer: Bytes, chunks: seq<Chunk>)
    requires Closes(p)
    ensures var s := Script(p, buffer, chunks); |s| > 0 && Terminal(s[|s| - 1])
    decreases |chunks|
  {
    if chunks != [] && chunks[0].Data? {
      ScriptCloses(p, Cap(Residue(buffer + chunks[0].bytes)), chunks[1..]);
    }
  }

  /** For every chunk sequence, with or without a transport error: deltas, then exactly one terminal item. */
  lemma EveryStreamEndsOnce(p: Provider, chunks: seq<Chunk>)
    requires Closes(p)
    ensures OneTerminal(Events(p, chunks))
  {
    ScriptCloses(p, [], chunks);
    var s := Script(p, [], chunks);
    assert s == s[..|s| - 1] + [s[|s| - 1]];
    CutIsOneTerminal(s[..|s| - 1], s[|s| - 1]);
  }

  // ---- The chunking of the body is invisible ----

  function AsChunks(pieces: seq<Bytes>): seq<Chunk> {
    seq(|pieces|, i requires 0 <= i < |pieces| => Data(pieces[i]))
  }

  lemma {:induction false} AllItemsAppend(p: Provider, a: seq<Bytes>, b: seq<Bytes>)
    ensures AllItems(p, a + b) == AllItems(p, a) + AllItems(p, b)
    decreases |a|
  {
    if a == [] {
      assert a + b == b;
    } else {
      AllItemsAppend(p, a[1..], b);
      assert (a + b)[1..] == a[1..] + b;
    }
  }

  lemma PushAllStep(pieces: seq<Bytes>, i: nat)
    requires i < |pieces|
    ensures
      var (lines, buffer) := PushAll(pieces[..i]);
      PushAll(pieces[..i + 1]) == (lines + Lines(buffer + pieces[i]), Cap(Residue(buffer + pieces[i])))
  {
    assert pieces[..i + 1][..i] == pieces[..i];
  }

  /** What comes after the last piece of the body: nothing, or a transport error (and whatever follows it). */
  predicate EndsBody(rest: seq<Chunk>) {
    rest == [] || rest[0].Failed?
  }

  /** What the end of the body says, given the bytes left over. */
  function Ending(p: Provider, residue: Bytes, rest: seq<Chunk>): seq<Item> {
    if rest != [] && rest[0].Failed? then [Err(Request(rest[0].message))] else p.finish(residue)
  }

  /** Every chunk sequence is some pieces of body and then its end. */
  lemma {:induction false} ChunksAreABody(chunks: seq<Chunk>) returns (pieces: seq<Bytes>, rest: seq<Chunk>)
    ensures chunks == AsChunks(pieces) + rest && EndsBody(rest)
    decreases |chunks|
  {
    if EndsBody(chunks) {
      pieces, rest := [], chunks;
    } else {
      var more;
      more, rest := ChunksAreABody(chunks[1..]);
      pieces := [chunks[0].bytes] + more;
      assert AsChunks(pieces) == [chunks[0]] + AsChunks(more);
    }
  }

  lemma ScriptStep(p: Provider, buffer: Bytes, pieces: seq<Bytes>, i: nat, rest: seq<Chunk>)
    requires i < |pieces|
    ensures Script(p, buffer, AsChunks(pieces[i..]) + rest) ==
      AllItems(p, Lines(buffer + pieces[i])) +
      Script(p, Cap(Residue(buffer + pieces[i])), AsChunks(pieces[i + 1..]) + rest)
  {
    var chunks := AsChunks(pieces[i..]) + rest;
    assert chunks[0] == Data(pieces[i]) && chunks[1..] == AsChunks(pieces[i + 1..]) + rest;
  }

  /** The whole script, seen from piece `i` on. */
  ghost function FromPiece(p: Provider, pieces: seq<Bytes>, i: nat, rest: seq<Chunk>): seq<Item>
    requires i <= |pieces|
  {
    var (lines, buffer) := PushAll(pieces[..i]);
    AllItems(p, lines) + Script(p, buffer, AsChunks(pieces[i..]) + rest)
  }

  lemma Regroup(p: Provider, lines: seq<Bytes>, more: seq<Bytes>, now: seq<Item>, next: seq<Item>)
    requires now == AllItems(p, more) + next
    ensures AllItems(p, lines) + now == AllItems(p, lines + more) + next
  {
    AllItemsAppend(p, lines, more);
  }

  lemma FromNextPiece(p: Provider, pieces: seq<Bytes>, i: nat, rest: seq<Chunk>)
    requires i < |pieces|
    ensures FromPiece(p, pieces, i, rest) == FromPiece(p, pieces, i + 1, rest)
  {
    var (lines, buffer) := PushAll(pieces[..i]);
    PushAllStep(pieces, i);
    ScriptStep(p, buffer, pieces, i, rest);
    Regroup(p, lines, Lines(buffer + pieces[i]), Script(p, buffer, AsChunks(pieces[i..]) + rest),
            Script(p, Cap(Residue(buffer + pieces[i])), AsChunks(pieces[i + 1..]) + rest));
  }

  lemma {:induction false} ScriptOfPieces(p: Provider, pieces: seq<Bytes>, i: nat, rest: seq<Chunk>)
    requires i <= |pieces| && EndsBody(rest)
    ensures FromPiece(p, pieces, i, rest) == AllItems(p, PushAll(pieces).0) + Ending(p, PushAll(pieces).1, rest)
    decreases |pieces| - i
  {
    if i == |pieces| {
      assert pieces[..i] == pieces && AsChunks(pieces[i..]) + rest == rest;
    } else {
      ScriptOfPieces(p, pieces, i + 1, rest);
      FromNextPiece(p, pieces, i, rest);
    }
  }

  /** With every unterminated tail within the line cap, the events depend only on the bytes, not on the chunks. */
  lemma ChunkingIsInvisible(p: Provider, pieces: seq<Bytes>, rest: seq<Chunk>)
    requires TailsFit(pieces) && EndsBody(rest)
    ensures Events(p, AsChunks(pieces) + rest) ==
            UpToTerminal(AllItems(p, Lines(Flatten(pieces))) + Ending(p, Residue(Flatten(pieces)), rest))
  {
    ScriptOfPieces(p, pieces, 0, rest);
    BufferRefinesSplitIff(pieces);
    assert pieces[0..] == pieces && pieces[..0] == [];
    var s := Script(p, [], AsChunks(pieces) + rest);
    assert AllItems(p, PushAll([]).0) + s == s;
  }

  // ---- A missing final newline ----

  lemma NewlineEndsTheRecord(codec: Codec, buffer: Bytes)
    requires KeepsEmptiness(codec) && LF !in buffer
    ensures Script(OllamaProvider(codec), buffer, [Data([LF])]) == Script(OllamaProvider(codec), buffer, [])
  {
    var p := OllamaProvider(codec);
    SplitLine(buffer, []);
    assert buffer + [LF] + [] == buffer + [LF];
    assert Lines(buffer + [LF]) == [StripCr(buffer)];
    assert AllItems(p, [StripCr(buffer)]) == p.line(StripCr(buffer));
    assert p.line(StripCr(buffer)) == OllamaFlush(codec, buffer);
    assert Script(p, [], []) == [OLLAMA_END];
  }

  lemma {:induction false} FinalNewlineInScript(codec: Codec, buffer: Bytes, chunks: seq<Chunk>)
    requires KeepsEmptiness(codec) && LF !in buffer
    ensures Script(OllamaProvider(codec), buffer, chunks + [Data([LF])]) ==
            Script(OllamaProvider(codec), buffer, chunks)
    decreases |chunks|
  {
    if chunks == [] {
      NewlineEndsTheRecord(codec, buffer);
    } else {
      assert (chunks + [Data([LF])])[1..] == chunks[1..] + [Data([LF])];
      if chunks[0].Data? {
        PushedBufferIsUnbroken(buffer + chunks[0].bytes);
        FinalNewlineInScript(codec, Cap(Residue(buffer + chunks[0].bytes)), chunks[1..]);
      }
    }
  }

  /** Ollama: a last chunk holding only a newline changes no event, whatever is left in the buffer. */
  lemma FinalNewlineIsOptional(codec: Codec, chunks: seq<Chunk>)
    requires KeepsEmptiness(codec)
    ensures Events(OllamaProvider(codec), chunks + [Data([LF])]) == Events(OllamaProvider(codec), chunks)
  {
    FinalNewlineInScript(codec, [], chunks);
  }
}
