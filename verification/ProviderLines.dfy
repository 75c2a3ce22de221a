/** What each vendor's lines mean, over the parsed JSON, and which line decides how a response ends. */
module ProviderLines {
  import opened Common
  import opened LineSplitter
  import opened Providers
  import opened Pumps

  /** The object has this field, with this value. */
  predicate HasField(v: Json, key: string, value: Json) {
    v.Obj? && key in v.fields && v.fields[key] == value
  }

  /** A terminal item can only be last. */
  predicate Orderly(items: seq<Item>) {
    forall i :: 0 <= i < |items| - 1 ==> !Terminal(items[i])
  }

  /** One item at most, or a delta and `Done`. */
  predicate Tidy(items: seq<Item>) {
    |items| <= 2 && (|items| == 2 ==> !Terminal(items[0]) && items[1] == Ok(Done))
  }

  lemma TidyIsOrderly(items: seq<Item>)
    requires Tidy(items)
    ensures Orderly(items)
  {
  }

  // ---- Event-stream framing ----

  /** The line carries `data`: after the colon, one space is optional and the rest is verbatim. */
  predicate IsData(line: string, data: string) {
    line == "data: " + data || (line == "data:" + data && !(" " <= data))
  }

  lemma SseDataIff(line: string, data: string)
    ensures SseData(line) == Some(data) <==> IsData(line, data)
  {
    if line == "data: " + data {
      assert "data: " + data == "data:" + (" " + data);
      assert line[5..] == " " + data && (" " + data)[1..] == data;
    }
    if "data:" <= line {
      var rest := line[5..];
      assert line == "data:" + rest;
      assert " " <= rest ==> rest == " " + rest[1..] && line == "data: " + rest[1..];
    }
  }

  lemma NoDataNoItem(codec: Codec, line: string)
    requires forall data :: !IsData(line, data)
    ensures OpenAiLine(codec, line) == None && AnthropicLine(codec, line) == None
  {
    if SseData(line).Some? { SseDataIff(line, SseData(line).value); }
  }

  // ---- OpenAI ----

  predicate OpenAiFails(v: Json) {
    v.Obj? && "error" in v.fields
  }

  /** The first choice has a delta with this non-empty content. */
  ghost predicate OpenAiSays(v: Json, text: string) {
    text != "" && !OpenAiFails(v) &&
    exists choices, delta ::
      HasField(v, "choices", Arr(choices)) && |choices| > 0
      && HasField(choices[0], "delta", delta) && HasField(delta, "content", Str(text))
  }

  /** The error's type names it, or else its code, if they are strings. */
  ghost predicate OpenAiKind(error: Json, kind: string) {
    if exists t :: HasField(error, "type", Str(t)) then HasField(error, "type", Str(kind))
    else if exists c :: HasField(error, "code", Str(c)) then HasField(error, "code", Str(kind))
    else kind == "unknown"
  }

  lemma OpenAiDoneIff(codec: Codec, line: string)
    ensures OpenAiLine(codec, line) == Some(Ok(Done)) <==> IsData(line, "[DONE]")
  {
    SseDataIff(line, "[DONE]");
  }

  /** Exactly which payloads are deltas, which are errors (and which errors), and that all others say nothing. */
  lemma OpenAiMeans(codec: Codec, line: string, data: string)
    requires IsData(line, data) && data != "[DONE]"
    ensures
      var item, value := OpenAiLine(codec, line), codec.fromStr(data);
      && (forall text :: item == Some(Ok(Delta(text))) <==> value.Some? && OpenAiSays(value.value, text))
      && (item.Some? && item.value.Err? <==> value.Some? && OpenAiFails(value.value))
      && (forall error, kind :: value.Some? && HasField(value.value, "error", error) && OpenAiKind(error, kind) ==>
            item == Some(Err(Request("openai stream error: " + kind))))
  {
    SseDataIff(line, data);
    var item, value := OpenAiLine(codec, line), codec.fromStr(data);
    forall text | value.Some? && OpenAiSays(value.value, text) ensures item == Some(Ok(Delta(text))) {
      var choices, delta :|
        HasField(value.value, "choices", Arr(choices)) && |choices| > 0
        && HasField(choices[0], "delta", delta) && HasField(delta, "content", Str(text));
    }
    if item.Some? && item.value.Ok? {
      var choices := value.value.fields["choices"];
      assert HasField(value.value, "choices", Arr(choices.elements));
      var delta := choices.elements[0].fields["delta"];
      assert HasField(choices.elements[0], "delta", delta) && HasField(delta, "content", Str(item.value.event.text));
      assert OpenAiSays(value.value, item.value.event.text);
    }
  }

  // ---- Anthropic ----

  predicate HasType(v: Json, name: string) {
    HasField(v, "type", Str(name))
  }

  ghost predicate AnthropicSays(v: Json, text: string) {
    text != "" && HasType(v, "content_block_delta")
    && exists delta :: HasField(v, "delta", delta) && HasField(delta, "text", Str(text))
  }

  ghost predicate AnthropicKind(error: Json, kind: string) {
    if exists t :: HasField(error, "type", Str(t)) then HasField(error, "type", Str(kind)) else kind == "unknown"
  }

  lemma AnthropicMeans(codec: Codec, line: string, data: string)
    requires IsData(line, data)
    ensures
      var item, value := AnthropicLine(codec, line), codec.fromStr(data);
      && (item == Some(Ok(Done)) <==> value.Some? && HasType(value.value, "message_stop"))
      && (forall text :: item == Some(Ok(Delta(text))) <==> value.Some? && AnthropicSays(value.value, text))
      && (item.Some? && item.value.Err? <==> value.Some? && HasType(value.value, "error"))
      && (forall error, kind ::
            value.Some? && HasType(value.value, "error") && HasField(value.value, "error", error)
            && AnthropicKind(error, kind) ==>
            item == Some(Err(Request("anthropic stream error: " + kind))))
      && (value.Some? && HasType(value.value, "error") && "error" !in value.value.fields ==>
            item == Some(Err(Request("anthropic stream error: " + "unknown"))))
  {
    SseDataIff(line, data);
    var item, value := AnthropicLine(codec, line), codec.fromStr(data);
    if item.Some? && item.value.Ok? && item.value.event.Delta? {
      assert HasField(value.value, "delta", value.value.fields["delta"]);
    }
  }

  // ---- Ollama ----

  ghost predicate OllamaFails(v: Option<Json>) {
    v.Some? && exists message :: HasField(v.value, "error", Str(message))
  }

  ghost predicate OllamaSays(v: Option<Json>, text: string) {
    text != "" && v.Some? && !OllamaFails(v)
    && exists message :: HasField(v.value, "message", message) && HasField(message, "content", Str(text))
  }

  ghost predicate OllamaDone(v: Option<Json>) {
    v.Some? && !OllamaFails(v) && HasField(v.value, "done", Bool(true))
  }

  lemma OllamaMeans(codec: Codec, line: string)
    ensures
      var items, value := OllamaItems(codec, line), codec.fromStr(line);
      && Tidy(items)
      && (Ok(Done) in items <==> OllamaDone(value))
      && (forall text :: Ok(Delta(text)) in items <==> OllamaSays(value, text))
      && ((exists error :: Err(error) in items) <==> OllamaFails(value))
      && (forall message :: value.Some? && HasField(value.value, "error", Str(message)) ==>
            items == [Err(Request("ollama stream error: " + codec.summary(message)))])
  {
    var items, value := OllamaItems(codec, line), codec.fromStr(line);
    var failure := AsStr(Get(value, "error"));
    if failure.Some? {
      assert HasField(value.value, "error", Str(failure.value));
      assert Err(items[0].error) in items;
    } else {
      var message := Get(value, "message");
      if message.Some? { assert HasField(value.value, "message", message.value); }
    }
  }

  // ---- Which line ends the stream ----

  ghost predicate OrderlyLines(p: Provider) {
    forall b: Bytes :: Orderly(p.line(b))
  }

  /** Line `k` says the terminal item, and every line before it only deltas. */
  ghost predicate EndsAt(p: Provider, lines: seq<Bytes>, k: int, item: Item) {
    && 0 <= k < |lines| && Terminal(item) && item in p.line(lines[k])
    && forall j :: 0 <= j < k ==> AllDeltas(p.line(lines[j]))
  }

  ghost predicate NeverEnds(p: Provider, lines: seq<Bytes>) {
    forall j :: 0 <= j < |lines| ==> AllDeltas(p.line(lines[j]))
  }

  lemma OrderlySplits(items: seq<Item>)
    requires Orderly(items) && !AllDeltas(items)
    ensures |items| > 0 && Terminal(items[|items| - 1]) && AllDeltas(items[..|items| - 1])
    ensures forall item :: Terminal(item) && item in items ==> item == items[|items| - 1]
  {
  }

  lemma EndsAtNext(p: Provider, lines: seq<Bytes>, item: Item)
    requires |lines| > 0 && AllDeltas(p.line(lines[0]))
    ensures (exists k :: EndsAt(p, lines, k, item)) <==> (exists k :: EndsAt(p, lines[1..], k, item))
    ensures NeverEnds(p, lines) <==> NeverEnds(p, lines[1..])
  {
    var rest := lines[1..];
    assert forall j :: 0 <= j < |rest| ==> rest[j] == lines[j + 1];
    if k :| EndsAt(p, lines, k, item) {
      assert k > 0 && lines[k] == rest[k - 1];
      assert EndsAt(p, rest, k - 1, item);
    }
    if k :| EndsAt(p, rest, k, item) {
      forall j | 0 <= j < k + 1 ensures AllDeltas(p.line(lines[j])) {
        if j > 0 { assert lines[j] == rest[j - 1]; }
      }
      assert lines[k + 1] == rest[k];
      assert EndsAt(p, lines, k + 1, item);
    }
    if NeverEnds(p, rest) {
      forall j | 0 <= j < |lines| ensures AllDeltas(p.line(lines[j])) {
        if j > 0 { assert lines[j] == rest[j - 1]; }
      }
    }
  }

  lemma FirstLineEnds(p: Provider, lines: seq<Bytes>, rest: seq<Item>, item: Item)
    requires |lines| > 0 && Orderly(p.line(lines[0])) && !AllDeltas(p.line(lines[0])) && Terminal(item)
    ensures !NeverEnds(p, lines)
    ensures
      var cut := UpToTerminal(p.line(lines[0]) + rest);
      |cut| > 0 && (cut[|cut| - 1] == item <==> exists k :: EndsAt(p, lines, k, item))
  {
    var items := p.line(lines[0]);
    OrderlySplits(items);
    var init, last := items[..|items| - 1], items[|items| - 1];
    assert items + rest == init + [last] + rest;
    CutAtTerminal(init, last, rest);
    if last == item { assert EndsAt(p, lines, 0, item); }
  }

  /** The last item of the cut script is the first terminal item any line says, or else that of the ending. */
  lemma {:induction false} LastItemIff(p: Provider, lines: seq<Bytes>, ending: seq<Item>, item: Item)
    requires OrderlyLines(p) && OneTerminal(UpToTerminal(ending)) && Terminal(item)
    ensures
      var cut := UpToTerminal(AllItems(p, lines) + ending);
      |cut| > 0 && (cut[|cut| - 1] == item <==>
        || (exists k :: EndsAt(p, lines, k, item))
        || (NeverEnds(p, lines) && UpToTerminal(ending)[|UpToTerminal(ending)| - 1] == item))
    decreases |lines|
  {
    if lines == [] {
      assert AllItems(p, lines) + ending == ending;
    } else {
      var items, rest := p.line(lines[0]), AllItems(p, lines[1..]) + ending;
      assert AllItems(p, lines) + ending == items + rest;
      if AllDeltas(items) {
        LastItemIff(p, lines[1..], ending, item);
        CutAfterDeltas(items, rest);
        EndsAtNext(p, lines, item);
      } else {
        FirstLineEnds(p, lines, rest, item);
      }
    }
  }

  // ---- The three vendors ----

  datatype Vendor = Streaming(sse: Sse) | Ollama

  function ProviderOf(codec: Codec, vendor: Vendor): Provider {
    match vendor
    case Streaming(sse) => SseProvider(codec, sse)
    case Ollama => OllamaProvider(codec)
  }

  /** The line is the vendor's end of a complete response. */
  ghost predicate LineIsDone(codec: Codec, vendor: Vendor, line: Bytes) {
    var text := codec.lossy(line);
    match vendor
    case Streaming(OpenAi) => IsData(text, "[DONE]")
    case Streaming(Anthropic) =>
      exists data :: IsData(text, data) && codec.fromStr(data).Some?
                  && HasType(codec.fromStr(data).value, "message_stop")
    case Ollama => text != "" && OllamaDone(codec.fromStr(text))
  }

  /** The line reports an error of the vendor. */
  ghost predicate LineFails(codec: Codec, vendor: Vendor, line: Bytes) {
    var text := codec.lossy(line);
    match vendor
    case Streaming(OpenAi) =>
      exists data :: IsData(text, data) && data != "[DONE]" && codec.fromStr(data).Some?
                  && OpenAiFails(codec.fromStr(data).value)
    case Streaming(Anthropic) =>
      exists data :: IsData(text, data) && codec.fromStr(data).Some? && HasType(codec.fromStr(data).value, "error")
    case Ollama => text != "" && OllamaFails(codec.fromStr(text))
  }

  /** The line adds this text to the response. */
  ghost predicate LineSays(codec: Codec, vendor: Vendor, line: Bytes, said: string) {
    var text := codec.lossy(line);
    match vendor
    case Streaming(OpenAi) =>
      exists data :: IsData(text, data) && data != "[DONE]" && codec.fromStr(data).Some?
                  && OpenAiSays(codec.fromStr(data).value, said)
    case Streaming(Anthropic) =>
      exists data :: IsData(text, data) && codec.fromStr(data).Some?
                  && AnthropicSays(codec.fromStr(data).value, said)
    case Ollama => text != "" && OllamaSays(codec.fromStr(text), said)
  }

  /** What a line's items are, for each vendor. */
  ghost predicate LineIs(codec: Codec, vendor: Vendor, line: Bytes, items: seq<Item>) {
    && Tidy(items)
    && (Ok(Done) in items <==> LineIsDone(codec, vendor, line))
    && ((exists error :: Err(error) in items) <==> LineFails(codec, vendor, line))
    && (forall said :: Ok(Delta(said)) in items <==> LineSays(codec, vendor, line, said))
  }

  lemma OneItem(item: Option<Item>, x: Item)
    ensures x in ToSeq(item) <==> item == Some(x)
    ensures (exists error :: Err(error) in ToSeq(item)) <==> item.Some? && item.value.Err?
  {
    if item.Some? && item.value.Err? { assert Err(item.value.error) in ToSeq(item); }
  }

  lemma DataIsUnique(line: string, data: string, data': string)
    requires IsData(line, data) && IsData(line, data')
    ensures data == data'
  {
    SseDataIff(line, data);
    SseDataIff(line, data');
  }

  lemma OpenAiLineIs(codec: Codec, line: Bytes)
    ensures LineIs(codec, Streaming(OpenAi), line, ToSeq(SseLine(codec, OpenAi, line)))
  {
    var text, item := codec.lossy(line), OpenAiLine(codec, codec.lossy(line));
    OpenAiDoneIff(codec, text);
    OneItem(item, Ok(Done));
    forall said ensures Ok(Delta(said)) in ToSeq(item) <==> item == Some(Ok(Delta(said))) {
      OneItem(item, Ok(Delta(said)));
    }
    if data :| IsData(text, data) {
      forall other | IsData(text, other) ensures other == data { DataIsUnique(text, data, other); }
      if data != "[DONE]" { OpenAiMeans(codec, text, data); }
    } else {
      NoDataNoItem(codec, text);
    }
  }

  lemma AnthropicLineIs(codec: Codec, line: Bytes)
    ensures LineIs(codec, Streaming(Anthropic), line, ToSeq(SseLine(codec, Anthropic, line)))
  {
    var text, item := codec.lossy(line), AnthropicLine(codec, codec.lossy(line));
    OneItem(item, Ok(Done));
    forall said ensures Ok(Delta(said)) in ToSeq(item) <==> item == Some(Ok(Delta(said))) {
      OneItem(item, Ok(Delta(said)));
    }
    if data :| IsData(text, data) {
      forall other | IsData(text, other) ensures other == data { DataIsUnique(text, data, other); }
      AnthropicMeans(codec, text, data);
    } else {
      NoDataNoItem(codec, text);
    }
  }

  lemma OllamaLineIs(codec: Codec, line: Bytes)
    ensures LineIs(codec, Ollama, line, OllamaNonempty(codec, line))
  {
    OllamaMeans(codec, codec.lossy(line));
  }

  /** For each vendor, exactly which lines are the end, which are errors and which add which text. */
  lemma LinesMean(codec: Codec, vendor: Vendor, line: Bytes)
    ensures LineIs(codec, vendor, line, ProviderOf(codec, vendor).line(line))
  {
    match vendor
    case Streaming(OpenAi) => OpenAiLineIs(codec, line);
    case Streaming(Anthropic) => AnthropicLineIs(codec, line);
    case Ollama => OllamaLineIs(codec, line);
  }

  lemma AllDeltasIff(items: seq<Item>)
    ensures AllDeltas(items) <==> Ok(Done) !in items && !exists error :: Err(error) in items
  {
    if i :| 0 <= i < |items| && Terminal(items[i]) {
      assert items[i] == Ok(Done) || items[i] == Err(items[i].error);
    }
  }

  lemma DeltaLineIff(codec: Codec, vendor: Vendor, line: Bytes)
    ensures AllDeltas(ProviderOf(codec, vendor).line(line)) <==>
            !LineIsDone(codec, vendor, line) && !LineFails(codec, vendor, line)
  {
    LinesMean(codec, vendor, line);
    AllDeltasIff(ProviderOf(codec, vendor).line(line));
  }

  /** The vendor's own end comes, before any error of the vendor. */
  ghost predicate CompleteAt(codec: Codec, vendor: Vendor, lines: seq<Bytes>, k: int) {
    && 0 <= k < |lines| && LineIsDone(codec, vendor, lines[k])
    && forall j :: 0 <= j < k ==> !LineIsDone(codec, vendor, lines[j]) && !LineFails(codec, vendor, lines[j])
  }

  /** No line ends the response, but the record left without a newline is the end: only Ollama reads that one. */
  ghost predicate CompleteInTail(codec: Codec, vendor: Vendor, lines: seq<Bytes>, residue: Bytes, rest: seq<Chunk>) {
    && vendor.Ollama? && rest == [] && StripCr(residue) != []
    && OllamaDone(codec.fromStr(codec.lossy(StripCr(residue))))
    && forall j :: 0 <= j < |lines| ==> !LineIsDone(codec, vendor, lines[j]) && !LineFails(codec, vendor, lines[j])
  }

  /** The response is complete: the vendor's own end comes before any error of the vendor and before it breaks off. */
  ghost predicate Complete(codec: Codec, vendor: Vendor, lines: seq<Bytes>, residue: Bytes, rest: seq<Chunk>) {
    (exists k :: CompleteAt(codec, vendor, lines, k)) || CompleteInTail(codec, vendor, lines, residue, rest)
  }

  lemma VendorCloses(codec: Codec, vendor: Vendor)
    ensures Closes(ProviderOf(codec, vendor))
  {
    match vendor
    case Streaming(sse) => ProvidersClose(codec, sse);
    case Ollama => ProvidersClose(codec, OpenAi);
  }

  lemma TailLast(codec: Codec, residue: Bytes)
    ensures
      var cut := UpToTerminal(OllamaFlush(codec, residue) + [OLLAMA_END]);
      |cut| > 0 && (cut[|cut| - 1] == Ok(Done) <==>
        StripCr(residue) != [] && OllamaDone(codec.fromStr(codec.lossy(StripCr(residue)))))
  {
    var items := OllamaFlush(codec, residue);
    if StripCr(residue) != [] { OllamaMeans(codec, codec.lossy(StripCr(residue))); }
    TidyIsOrderly(items);
    if AllDeltas(items) {
      CutAfterDeltas(items, [OLLAMA_END]);
      assert UpToTerminal([OLLAMA_END]) == [OLLAMA_END];
    } else {
      OrderlySplits(items);
      var init, last := items[..|items| - 1], items[|items| - 1];
      assert items + [OLLAMA_END] == init + [last] + [OLLAMA_END];
      CutAtTerminal(init, last, [OLLAMA_END]);
    }
  }

  lemma EndingLast(codec: Codec, vendor: Vendor, residue: Bytes, rest: seq<Chunk>)
    requires EndsBody(rest)
    ensures
      var cut := UpToTerminal(Ending(ProviderOf(codec, vendor), residue, rest));
      && OneTerminal(cut)
      && (cut[|cut| - 1] == Ok(Done) <==>
            vendor.Ollama? && rest == [] && StripCr(residue) != []
            && OllamaDone(codec.fromStr(codec.lossy(StripCr(residue)))))
  {
    if rest == [] && vendor.Ollama? {
      var items := OllamaFlush(codec, residue);
      assert Ending(OllamaProvider(codec), residue, rest) == items + [OLLAMA_END];
      CutIsOneTerminal(items, OLLAMA_END);
      TailLast(codec, residue);
    } else {
      var last := if rest == [] then EndOfStream(vendor.sse) else Err(Request(rest[0].message));
      assert Ending(ProviderOf(codec, vendor), residue, rest) == [] + [last];
      CutAtTerminal([], last, []);
      assert [] + [last] + [] == [] + [last] == [last];
    }
  }

  /** The vendor's line that ends the script with `Done`, in the vendor's own terms. */
  lemma EndsAtIff(codec: Codec, vendor: Vendor, lines: seq<Bytes>, k: int)
    ensures EndsAt(ProviderOf(codec, vendor), lines, k, Ok(Done)) <==> CompleteAt(codec, vendor, lines, k)
  {
    forall j | 0 <= j < |lines|
      ensures AllDeltas(ProviderOf(codec, vendor).line(lines[j])) <==>
              !LineIsDone(codec, vendor, lines[j]) && !LineFails(codec, vendor, lines[j])
    {
      DeltaLineIff(codec, vendor, lines[j]);
    }
    if 0 <= k < |lines| { LinesMean(codec, vendor, lines[k]); }
  }

  lemma CompleteIff(codec: Codec, vendor: Vendor, lines: seq<Bytes>)
    ensures (exists k :: EndsAt(ProviderOf(codec, vendor), lines, k, Ok(Done))) <==>
            (exists k :: CompleteAt(codec, vendor, lines, k))
  {
    if k :| EndsAt(ProviderOf(codec, vendor), lines, k, Ok(Done)) { EndsAtIff(codec, vendor, lines, k); }
    if k :| CompleteAt(codec, vendor, lines, k) { EndsAtIff(codec, vendor, lines, k); }
  }

  lemma VendorIsOrderly(codec: Codec, vendor: Vendor)
    ensures OrderlyLines(ProviderOf(codec, vendor))
  {
    forall b: Bytes ensures Orderly(ProviderOf(codec, vendor).line(b)) {
      LinesMean(codec, vendor, b);
      TidyIsOrderly(ProviderOf(codec, vendor).line(b));
    }
  }

  lemma NeverEndsIff(codec: Codec, vendor: Vendor, lines: seq<Bytes>)
    ensures NeverEnds(ProviderOf(codec, vendor), lines) <==>
      forall j :: 0 <= j < |lines| ==> !LineIsDone(codec, vendor, lines[j]) && !LineFails(codec, vendor, lines[j])
  {
    forall j | 0 <= j < |lines|
      ensures AllDeltas(ProviderOf(codec, vendor).line(lines[j])) <==>
              !LineIsDone(codec, vendor, lines[j]) && !LineFails(codec, vendor, lines[j])
    {
      DeltaLineIff(codec, vendor, lines[j]);
    }
  }

  /**
   For each vendor, a body's stream ends in `Done` exactly when the response is complete; a truncated body or a
   transport error never does.
   */
  lemma DoneIff(codec: Codec, vendor: Vendor, lines: seq<Bytes>, residue: Bytes, rest: seq<Chunk>)
    requires EndsBody(rest)
    ensures
      var p := ProviderOf(codec, vendor);
      var cut := UpToTerminal(AllItems(p, lines) + Ending(p, residue, rest));
      |cut| > 0 && (cut[|cut| - 1] == Ok(Done) <==> Complete(codec, vendor, lines, residue, rest))
  {
    var p := ProviderOf(codec, vendor);
    VendorIsOrderly(codec, vendor);
    EndingLast(codec, vendor, residue, rest);
    LastItemIff(p, lines, Ending(p, residue, rest), Ok(Done));
    CompleteIff(codec, vendor, lines);
    NeverEndsIff(codec, vendor, lines);
  }
}
