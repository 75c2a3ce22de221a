/** The three provider streams: how a line becomes events, and how the pumps turn a byte stream into events. */
module Providers {
  import opened Common
  import opened LineSplitter

  datatype StreamEvent = Delta(text: string) | Done

  datatype ProviderError = Request(message: string) | Status(code: nat) | Parse

  datatype Item = Ok(event: StreamEvent) | Err(error: ProviderError)

  /** `Done` and every error end the stream. */
  predicate Terminal(item: Item) {
    !(item.Ok? && item.event.Delta?)
  }

  // ---- Libraries the parsers call, as arbitrary functions ----

  datatype Json =
    | Null
    | Bool(value: bool)
    | Number
    | Str(text: string)
    | Arr(elements: seq<Json>)
    | Obj(fields: map<string, Json>)

  /** UTF-8 decoding and encoding, the JSON parser, and the six-word summary of an error text. */
  datatype Codec = Codec(
    lossy: Bytes -> string,
    utf8: string -> Bytes,
    fromStr: string -> Option<Json>,
    summary: string -> string)

  /** The one fact used about lossy decoding: it empties no bytes and fills in none. */
  ghost predicate KeepsEmptiness(codec: Codec) {
    forall b: Bytes :: codec.lossy(b) == "" <==> b == []
  }

  function Get(v: Option<Json>, key: string): Option<Json> {
    if v.Some? && v.value.Obj? && key in v.value.fields then Some(v.value.fields[key]) else None
  }

  function GetAt(v: Option<Json>, i: nat): Option<Json> {
    if v.Some? && v.value.Arr? && i < |v.value.elements| then Some(v.value.elements[i]) else None
  }

  function AsStr(v: Option<Json>): Option<string> {
    if v.Some? && v.value.Str? then Some(v.value.text) else None
  }

  function OrElse(a: Option<string>, b: string): string {
    if a.Some? then a.value else b
  }

  // ---- One line ----

  /** The payload of a `data:` line, with one leading space dropped. */
  function SseData(line: string): Option<string> {
    if "data:" <= line then
      var rest := line[5..];
      Some(if " " <= rest then rest[1..] else rest)
    else None
  }

  datatype Sse = OpenAi | Anthropic

  function OpenAiLine(codec: Codec, line: string): Option<Item> {
    var data := SseData(line);
    if data == None then None
    else if data.value == "[DONE]" then Some(Ok(Done))
    else
      var value := codec.fromStr(data.value);
      if value == None then None
      else if Get(value, "error").Some? then
        var error := Get(value, "error");
        var kind := AsStr(Get(error, "type"));
        Some(Err(Request("openai stream error: " +
                         (if kind.Some? then kind.value else OrElse(AsStr(Get(error, "code")), "unknown")))))
      else
        var delta := AsStr(Get(Get(GetAt(Get(value, "choices"), 0), "delta"), "content"));
        if delta == None || delta.value == "" then None else Some(Ok(Delta(delta.value)))
  }

  function AnthropicLine(codec: Codec, line: string): Option<Item> {
    var data := SseData(line);
    if data == None then None
    else
      var value := codec.fromStr(data.value);
      var kind := AsStr(Get(value, "type"));
      if kind == None then None
      else if kind.value == "content_block_delta" then
        var text := AsStr(Get(Get(value, "delta"), "text"));
        if text == None || text.value == "" then None else Some(Ok(Delta(text.value)))
      else if kind.value == "message_stop" then Some(Ok(Done))
      else if kind.value == "error" then
        Some(Err(Request("anthropic stream error: " + OrElse(AsStr(Get(Get(value, "error"), "type")), "unknown"))))
      else None
  }

  function SseLine(codec: Codec, sse: Sse, line: Bytes): Option<Item> {
    match sse
    case OpenAi => OpenAiLine(codec, codec.lossy(line))
    case Anthropic => AnthropicLine(codec, codec.lossy(line))
  }

  function EndOfStream(sse: Sse): Item {
    Err(Request(match sse
                case OpenAi => "openai stream ended before [DONE]"
                case Anthropic => "anthropic stream ended before message_stop"))
  }

  const OLLAMA_END: Item := Err(Request("ollama stream ended before done"))

  function Oks(events: seq<StreamEvent>): seq<Item> {
    seq(|events|, i requires 0 <= i < |events| => Ok(events[i]))
  }

  ghost predicate DoneIsLast(events: seq<StreamEvent>) {
    forall i :: 0 <= i < |events| - 1 ==> events[i].Delta?
  }

  /** What one Ollama line contributes to the stream. */
  function OllamaItems(codec: Codec, line: string): seq<Item> {
    var value := codec.fromStr(line);
    var failure := AsStr(Get(value, "error"));
    if failure.Some? then [Err(Request("ollama stream error: " + codec.summary(failure.value)))]
    else
      var text := AsStr(Get(Get(value, "message"), "content"));
      (if text.Some? && text.value != "" then [Ok(Delta(text.value))] else [])
      + (if Get(value, "done") == Some(Bool(true)) then [Ok(Done)] else [])
  }

  /** Up to two events from one line: content, and `done`. */
  method OllamaLine(codec: Codec, line: string) returns (events: seq<StreamEvent>, error: Option<ProviderError>)
    ensures OllamaItems(codec, line) == if error.Some? then [Err(error.value)] else Oks(events)
    ensures error.Some? ==> events == []
    ensures DoneIsLast(events)
  {
    var value := codec.fromStr(line);
    if value == None {
      return [], None;
    }
    var failure := AsStr(Get(value, "error"));
    if failure.Some? {
      return [], Some(Request("ollama stream error: " + codec.summary(failure.value)));
    }
    events, error := [], None;
    var text := AsStr(Get(Get(value, "message"), "content"));
    if text.Some? {
      if text.value != "" {
        events := events + [Delta(text.value)];
      }
    }
    if Get(value, "done") == Some(Bool(true)) {
      events := events + [Done];
    }
  }

  // ---- Cutting a script of items at its first terminal ----

  function UpToTerminal(items: seq<Item>): seq<Item> {
    if items == [] then []
    else if Terminal(items[0]) then [items[0]]
    else [items[0]] + UpToTerminal(items[1..])
  }

  predicate AllDeltas(items: seq<Item>) {
    forall i :: 0 <= i < |items| ==> !Terminal(items[i])
  }

  /** Any number of deltas, then exactly one terminal item, and nothing after it. */
  predicate OneTerminal(items: seq<Item>) {
    |items| > 0 && Terminal(items[|items| - 1]) && AllDeltas(items[..|items| - 1])
  }

  lemma {:induction false} CutAfterDeltas(a: seq<Item>, b: seq<Item>)
    requires AllDeltas(a)
    ensures UpToTerminal(a + b) == a + UpToTerminal(b)
    decreases |a|
  {
    if a == [] {
      assert a + b == b;
    } else {
      CutAfterDeltas(a[1..], b);
      assert (a + b)[1..] == a[1..] + b;
    }
  }

  lemma CutAtTerminal(a: seq<Item>, t: Item, b: seq<Item>)
    requires AllDeltas(a) && Terminal(t)
    ensures UpToTerminal(a + [t] + b) == a + [t]
  {
    assert a + [t] + b == a + ([t] + b);
    CutAfterDeltas(a, [t] + b);
    assert ([t] + b)[0] == t;
  }

  /** A script that ends in a terminal item is cut to deltas followed by exactly one terminal. */
  lemma {:induction false} CutIsOneTerminal(items: seq<Item>, last: Item)
    requires Terminal(last)
    ensures OneTerminal(UpToTerminal(items + [last]))
    decreases |items|
  {
    if items == [] {
      assert items + [last] == [last];
    } else if !Terminal(items[0]) {
      CutIsOneTerminal(items[1..], last);
      assert (items + [last])[1..] == items[1..] + [last];
    }
  }

  // ---- The reference event streams ----

  /** A piece of the response body, or the transport error that ends it. */
  datatype Chunk = Data(bytes: Bytes) | Failed(message: string)

  /** A provider: what one line says, and what the end of the body says given the bytes left over. */
  datatype Provider = Provider(line: Bytes -> seq<Item>, finish: Bytes -> seq<Item>)

  function AllItems(p: Provider, lines: seq<Bytes>): seq<Item> {
    if lines == [] then [] else p.line(lines[0]) + AllItems(p, lines[1..])
  }

  /** Everything the stream says, in order: each line, then its end or the transport error. */
  function Script(p: Provider, buffer: Bytes, chunks: seq<Chunk>): seq<Item>
    decreases |chunks|
  {
    if chunks == [] then p.finish(buffer)
    else match chunks[0]
      case Failed(message) => [Err(Request(message))]
      case Data(bytes) =>
        AllItems(p, Lines(buffer + bytes)) + Script(p, Cap(Residue(buffer + bytes)), chunks[1..])
  }

  /** The stream a client sees: the script up to and including its first terminal item. */
  function Events(p: Provider, chunks: seq<Chunk>): seq<Item> {
    UpToTerminal(Script(p, [], chunks))
  }

  function ToSeq(item: Option<Item>): seq<Item> {
    if item == None then [] else [item.value]
  }

  function SseProvider(codec: Codec, sse: Sse): Provider {
    Provider(line => ToSeq(SseLine(codec, sse, line)), buffer => [EndOfStream(sse)])
  }

  function OllamaNonempty(codec: Codec, line: Bytes): seq<Item> {
    if codec.lossy(line) == "" then [] else OllamaItems(codec, codec.lossy(line))
  }

  /** The items of the record left without a final newline, if there is one. */
  function OllamaFlush(codec: Codec, buffer: Bytes): seq<Item> {
    if StripCr(buffer) == [] then [] else OllamaItems(codec, codec.lossy(StripCr(buffer)))
  }

  function OllamaProvider(codec: Codec): Provider {
    Provider(line => OllamaNonempty(codec, line), buffer => OllamaFlush(codec, buffer) + [OLLAMA_END])
  }
}
