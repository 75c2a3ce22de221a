/** What every run of the chat socket looks like, and the end-to-end meaning of a turn. */
module ChatTheorems {
  import opened Common
  import opened StreamSession
  import opened HostileChannel
  import opened LineSplitter
  import opened Providers
  import opened Pumps
  import opened ChatStream

  // ---- Chunk nonces ----

  /** The chunks among `frames` are sealed under `key` and numbered from `from` up to `to`, without a gap. */
  ghost predicate CountsFrom(frames: seq<ServerFrame>, key: Key, from: U64, to: U64) {
    if frames == [] then from == to
    else if frames[0].ChunkFrame? then
      && from < U64_MAX
      && frames[0].frame.nonce == CounterNonce(from)
      && frames[0].frame.ciphertext.Sealed? && frames[0].frame.ciphertext.key == key
      && frames[0].frame.ciphertext.nonce == CounterNonce(from) && frames[0].frame.ciphertext.aad == S2C
      && CountsFrom(frames[1..], key, from + 1, to)
    else CountsFrom(frames[1..], key, from, to)
  }

  lemma {:induction false} CountsAppend(a: seq<ServerFrame>, b: seq<ServerFrame>, key: Key,
                                        from: U64, mid: U64, to: U64)
    requires CountsFrom(a, key, from, mid) && CountsFrom(b, key, mid, to)
    ensures CountsFrom(a + b, key, from, to)
    decreases |a|
  {
    if a == [] {
      assert a + b == b;
    } else {
      assert (a + b)[1..] == a[1..] + b;
      CountsAppend(a[1..], b, key, if a[0].ChunkFrame? then from + 1 else from, mid, to);
    }
  }

  lemma {:induction false} StreamCounts(codec: Codec, e: Endpoint, items: seq<Item>)
    ensures
      var turn := StreamItems(codec, e, items);
      && turn.end == e.(sendCounter := turn.end.sendCounter)
      && CountsFrom(turn.frames, e.sendKey, e.sendCounter, turn.end.sendCounter)
    decreases |items|
  {
    if items != [] && !Terminal(items[0]) && e.sendCounter < U64_MAX {
      var e1 := Send(e, S2C, codec.utf8(items[0].event.text)).0;
      StreamCounts(codec, e1, items[1..]);
      var turn := StreamItems(codec, e, items);
      assert turn.frames[1..] == StreamItems(codec, e1, items[1..]).frames;
    }
  }

  lemma PromptTurnCounts(cfg: Config, e: Endpoint, f: ClientFrame, provider: ChatRequest -> ProviderReply)
    ensures
      var turn := PromptTurn(cfg, e, f, provider);
      && turn.end.sendKey == e.sendKey && turn.end.recvKey == e.recvKey
      && turn.end.recvCounter == e.recvCounter + (if PromptPlaintext(e, f).Some? then 1 else 0)
      && CountsFrom(turn.frames, e.sendKey, e.sendCounter, turn.end.sendCounter)
  {
    var plaintext := PromptPlaintext(e, f);
    if plaintext.Some? {
      var e1 := e.(recvCounter := e.recvCounter + 1);
      var request := RequestOf(cfg, plaintext.value);
      if request.Some? && provider(request.value).Streams? {
        StreamCounts(cfg.codec, e1, provider(request.value).items);
      }
    }
  }

  lemma AnswerCounts(cfg: Config, e: Endpoint, v: Visit)
    ensures
      var reply := Answer(cfg, e, v);
      && reply.end.sendKey == e.sendKey && reply.end.recvKey == e.recvKey
      && CountsFrom(reply.frames, e.sendKey, e.sendCounter, reply.end.sendCounter)
  {
    var reply := Answer(cfg, e, v);
    if v.inbound.Got? && v.inbound.frame.Prompt? && v.active && v.allowed {
      var turn := PromptTurn(cfg, e, v.inbound.frame, v.provider);
      PromptTurnCounts(cfg, e, v.inbound.frame, v.provider);
      var tail := if turn.ok then [] else [ErrorFrame(StreamError)];
      assert CountsFrom(tail, e.sendKey, turn.end.sendCounter, turn.end.sendCounter);
      CountsAppend(turn.frames, tail, e.sendKey, e.sendCounter, turn.end.sendCounter, turn.end.sendCounter);
    }
  }

  lemma {:induction false} ServeCounts(cfg: Config, e: Endpoint, visits: seq<Visit>)
    ensures
      var s := Serve(cfg, e, visits);
      s.end.sendKey == e.sendKey && CountsFrom(Concat(s.turns), e.sendKey, e.sendCounter, s.end.sendCounter)
    decreases |visits|
  {
    if visits != [] {
      var reply, s := Answer(cfg, e, visits[0]), Serve(cfg, e, visits);
      AnswerCounts(cfg, e, visits[0]);
      assert Concat(s.turns) == reply.frames + Concat(s.turns[1..]);
      if reply.next == Continue {
        ServeCounts(cfg, reply.end, visits[1..]);
        assert s.turns[1..] == Serve(cfg, reply.end, visits[1..]).turns;
        CountsAppend(reply.frames, Concat(s.turns[1..]), e.sendKey,
                     e.sendCounter, reply.end.sendCounter, s.end.sendCounter);
      } else {
        assert Concat(s.turns) == reply.frames;
      }
    }
  }

  /** On a fresh session, chunk nonces run 0, 1, 2, ... over the whole connection, across failed turns too. */
  lemma ChunkNoncesRunOn(cfg: Config, e: Endpoint, visits: seq<Visit>)
    requires e.sendCounter == 0
    ensures CountsFrom(ServeTrace(Serve(cfg, e, visits)), e.sendKey, 0, Serve(cfg, e, visits).end.sendCounter)
  {
    var s := Serve(cfg, e, visits);
    ServeCounts(cfg, e, visits);
    var tail := if s.closes then [Closing] else [];
    assert CountsFrom(tail, e.sendKey, s.end.sendCounter, s.end.sendCounter);
    CountsAppend(Concat(s.turns), tail, e.sendKey, 0, s.end.sendCounter, s.end.sendCounter);
  }

  // ---- The shape of a connection ----

  /** Any number of chunks, then exactly one of `done` or an error. */
  predicate TurnShape(frames: seq<ServerFrame>) {
    && |frames| > 0
    && (frames[|frames| - 1] == DoneFrame || frames[|frames| - 1].ErrorFrame?)
    && forall i :: 0 <= i < |frames| - 1 ==> frames[i].ChunkFrame?
  }

  /** The prompt passed the session check and then the limiter in this turn of the loop. */
  predicate Admitted(v: Visit) {
    v.inbound.Got? && v.inbound.frame.Prompt? && v.active && v.allowed
  }

  lemma {:induction false} StreamShape(codec: Codec, e: Endpoint, items: seq<Item>)
    ensures
      var turn := StreamItems(codec, e, items);
      TurnShape(turn.frames + (if turn.ok then [] else [ErrorFrame(StreamError)]))
    decreases |items|
  {
    if items != [] && !Terminal(items[0]) && e.sendCounter < U64_MAX {
      var (e1, frame) := Send(e, S2C, codec.utf8(items[0].event.text));
      StreamShape(codec, e1, items[1..]);
      var rest := StreamItems(codec, e1, items[1..]);
      var tail := if rest.ok then [] else [ErrorFrame(StreamError)];
      assert ([ChunkFrame(frame.value)] + rest.frames) + tail == [ChunkFrame(frame.value)] + (rest.frames + tail);
    }
  }

  /** Every prompt is answered by chunks and one closing frame; chunks and `done` answer admitted prompts only. */
  lemma AnswerShape(cfg: Config, e: Endpoint, v: Visit)
    ensures v.inbound.Got? && v.inbound.frame.Prompt? ==> TurnShape(Answer(cfg, e, v).frames)
    ensures !Admitted(v) ==> forall f :: f in Answer(cfg, e, v).frames ==> f.ErrorFrame?
  {
    if Admitted(v) {
      var plaintext := PromptPlaintext(e, v.inbound.frame);
      if plaintext.Some? {
        var request := RequestOf(cfg, plaintext.value);
        if request.Some? && v.provider(request.value).Streams? {
          StreamShape(cfg.codec, e.(recvCounter := e.recvCounter + 1), v.provider(request.value).items);
        }
      }
    }
  }

  /** The same, for every turn of every run of the loop. */
  lemma {:induction false} EveryTurnHasShape(cfg: Config, e: Endpoint, visits: seq<Visit>, k: nat)
    requires k < |Serve(cfg, e, visits).turns|
    ensures k < |visits|
    ensures visits[k].inbound.Got? && visits[k].inbound.frame.Prompt? ==> TurnShape(Serve(cfg, e, visits).turns[k])
    ensures !Admitted(visits[k]) ==> forall f :: f in Serve(cfg, e, visits).turns[k] ==> f.ErrorFrame?
    decreases |visits|
  {
    AnswerShape(cfg, e, visits[0]);
    if k > 0 {
      EveryTurnHasShape(cfg, Answer(cfg, e, visits[0]).end, visits[1..], k - 1);
    }
  }

  /** After a prompt whose session check fails nothing more is served: the loop leaves in that turn. */
  lemma {:induction false} RefusedPromptIsLast(cfg: Config, e: Endpoint, visits: seq<Visit>, k: nat)
    requires k < |visits| && visits[k].inbound.Got? && visits[k].inbound.frame.Prompt? && !visits[k].active
    ensures |Serve(cfg, e, visits).turns| <= k + 1
    decreases |visits|
  {
    if k > 0 && Answer(cfg, e, visits[0]).next == Continue {
      RefusedPromptIsLast(cfg, Answer(cfg, e, visits[0]).end, visits[1..], k - 1);
    }
  }

  // ---- The receive counter ----

  /** The prompt was admitted and its frame opened: the only way the receive counter moves. */
  predicate Opens(e: Endpoint, v: Visit) {
    Admitted(v) && PromptPlaintext(e, v.inbound.frame).Some?
  }

  /** A prompt that is rate limited, malformed, wrongly numbered or forged leaves the session as it was. */
  lemma CounterMovesIffOpened(cfg: Config, e: Endpoint, v: Visit)
    ensures Answer(cfg, e, v).end.recvKey == e.recvKey
    ensures Answer(cfg, e, v).end.recvCounter == e.recvCounter + (if Opens(e, v) then 1 else 0)
    ensures !Opens(e, v) ==> Answer(cfg, e, v).end == e
  {
    if Admitted(v) { PromptTurnCounts(cfg, e, v.inbound.frame, v.provider); }
  }

  lemma StaysIffRestStays(e: Endpoint, visits: seq<Visit>, n: nat)
    requires 0 < n <= |visits| && !Opens(e, visits[0])
    ensures (forall k :: 0 <= k < n ==> !Opens(e, visits[k])) <==>
            (forall k :: 0 <= k < n - 1 ==> !Opens(e, visits[1..][k]))
  {
    if forall k :: 0 <= k < n - 1 ==> !Opens(e, visits[1..][k]) {
      forall k | 0 <= k < n ensures !Opens(e, visits[k]) {
        if k > 0 { assert visits[k] == visits[1..][k - 1]; }
      }
    }
  }

  /** Over a whole run the session is untouched exactly as long as no prompt that is served opens. */
  lemma {:induction false} LoopWaitsForItsCounter(cfg: Config, e: Endpoint, visits: seq<Visit>)
    ensures
      var s := Serve(cfg, e, visits);
      && |s.turns| <= |visits| && e.recvCounter <= s.end.recvCounter
      && (s.end == e <==> forall k :: 0 <= k < |s.turns| ==> !Opens(e, visits[k]))
    decreases |visits|
  {
    if visits != [] {
      var reply, s := Answer(cfg, e, visits[0]), Serve(cfg, e, visits);
      CounterMovesIffOpened(cfg, e, visits[0]);
      if reply.next == Continue {
        LoopWaitsForItsCounter(cfg, reply.end, visits[1..]);
        assert forall k :: 0 <= k < |s.turns| - 1 ==> visits[1..][k] == visits[k + 1];
        if !Opens(e, visits[0]) {
          StaysIffRestStays(e, visits, |s.turns|);
        }
      }
    }
  }

  predicate CarriesNonce(v: Visit, nonce: Bytes) {
    Admitted(v) && v.inbound.frame.nonce == Some(nonce)
  }

  /** A client that moves on is not heard: without the awaited number nothing of the run is accepted. */
  lemma OtherNumbersNeverOpen(cfg: Config, e: Endpoint, visits: seq<Visit>)
    requires forall k :: 0 <= k < |visits| ==> !CarriesNonce(visits[k], CounterNonce(e.recvCounter))
    ensures Serve(cfg, e, visits).end == e
  {
    LoopWaitsForItsCounter(cfg, e, visits);
    assert forall v: Visit :: Opens(e, v) ==> CarriesNonce(v, CounterNonce(e.recvCounter));
  }

  /**
   After any prompts that do not open, whatever they carry, a prompt that would have opened at first still does
   when it is sent again, if the loop is still there to serve it.
   */
  lemma {:induction false} ResentPromptOpens(cfg: Config, e: Endpoint, visits: seq<Visit>, again: Visit)
    requires forall k :: 0 <= k < |visits| ==> !Opens(e, visits[k])
    requires Opens(e, again)
    ensures
      var s := Serve(cfg, e, visits + [again]);
      s.end.recvCounter == e.recvCounter + (if |s.turns| == |visits| + 1 then 1 else 0)
    decreases |visits|
  {
    var all := visits + [again];
    CounterMovesIffOpened(cfg, e, all[0]);
    if visits == [] {
      assert all[1..] == [];
    } else if Answer(cfg, e, all[0]).next == Continue {
      ResentPromptOpens(cfg, e, visits[1..], again);
      assert all[1..] == visits[1..] + [again];
    }
  }

  // ---- End to end ----

  /** The chunks of a turn, as the client receives them. */
  function ChunksOf(frames: seq<ServerFrame>): seq<Frame> {
    if frames == [] then []
    else (if frames[0].ChunkFrame? then [frames[0].frame] else []) + ChunksOf(frames[1..])
  }

  /** The delta texts of a stream of items, encoded. */
  function DeltaBytes(codec: Codec, items: seq<Item>): seq<Bytes> {
    if items == [] || Terminal(items[0]) then []
    else [codec.utf8(items[0].event.text)] + DeltaBytes(codec, items[1..])
  }

  /** What the client decrypts: all deltas, or as many as the send counter still has numbers for. */
  function Deliverable(e: Endpoint, deltas: seq<Bytes>): seq<Bytes> {
    if |deltas| <= U64_MAX - e.sendCounter then deltas else deltas[..U64_MAX - e.sendCounter]
  }

  /** The texts sealed in the chunks of a trace. */
  function TextsIn(frames: seq<ServerFrame>): seq<Bytes> {
    if frames == [] then []
    else
      (if frames[0].ChunkFrame? && frames[0].frame.ciphertext.Sealed? then [frames[0].frame.ciphertext.plaintext]
       else [])
      + TextsIn(frames[1..])
  }

  lemma {:induction false} TextsAppend(a: seq<ServerFrame>, b: seq<ServerFrame>)
    ensures TextsIn(a + b) == TextsIn(a) + TextsIn(b)
    decreases |a|
  {
    if a == [] {
      assert a + b == b;
    } else {
      TextsAppend(a[1..], b);
      assert (a + b)[0] == a[0] && (a + b)[1..] == a[1..] + b;
      var head := if a[0].ChunkFrame? && a[0].frame.ciphertext.Sealed? then [a[0].frame.ciphertext.plaintext] else [];
      assert head + (TextsIn(a[1..]) + TextsIn(b)) == (head + TextsIn(a[1..])) + TextsIn(b);
    }
  }

  /** A client in step with the first chunk accepts every chunk of a gapless trace, and ends in step. */
  lemma {:induction false} CountedChunksAreAccepted(frames: seq<ServerFrame>, client: Endpoint, to: U64)
    requires CountsFrom(frames, client.recvKey, client.recvCounter, to)
    ensures ReceiveAll(client, S2C, ChunksOf(frames)) == (client.(recvCounter := to), TextsIn(frames))
    decreases |frames|
  {
    if frames != [] {
      var later := ChunksOf(frames[1..]);
      if frames[0].ChunkFrame? {
        var f := frames[0].frame;
        assert ChunksOf(frames) == [f] + later && ([f] + later)[1..] == later;
        CountedChunksAreAccepted(frames[1..], Receive(client, S2C, f).0, to);
      } else {
        CountedChunksAreAccepted(frames[1..], client, to);
        assert ChunksOf(frames) == later && TextsIn(frames) == TextsIn(frames[1..]);
      }
    }
  }

  lemma DeliverableStep(e: Endpoint, text: Bytes, deltas: seq<Bytes>)
    requires e.sendCounter < U64_MAX
    ensures Deliverable(e, [text] + deltas) == [text] + Deliverable(e.(sendCounter := e.sendCounter + 1), deltas)
  {
  }

  /** A turn seals the delta texts of its items, in order, while the counter lasts. */
  lemma {:induction false} StreamTexts(codec: Codec, e: Endpoint, items: seq<Item>)
    ensures TextsIn(StreamItems(codec, e, items).frames) == Deliverable(e, DeltaBytes(codec, items))
    decreases |items|
  {
    if items != [] && !Terminal(items[0]) && e.sendCounter < U64_MAX {
      var (e1, frame) := Send(e, S2C, codec.utf8(items[0].event.text));
      StreamTexts(codec, e1, items[1..]);
      var rest := StreamItems(codec, e1, items[1..]).frames;
      assert StreamItems(codec, e, items).frames == [ChunkFrame(frame.value)] + rest;
      assert ([ChunkFrame(frame.value)] + rest)[1..] == rest;
      DeliverableStep(e, codec.utf8(items[0].event.text), DeltaBytes(codec, items[1..]));
    }
  }

  /** The stream runs out, or its first terminal item is `Done`. */
  ghost predicate EndsWell(codec: Codec, items: seq<Item>) {
    var n := |DeltaBytes(codec, items)|;
    n == |items| || (n < |items| && items[n] == Ok(Done))
  }

  /** A turn succeeds exactly when its stream ends well and the counter lasts; only then is `done` sent. */
  lemma {:induction false} StreamOutcome(codec: Codec, e: Endpoint, items: seq<Item>)
    ensures
      var turn := StreamItems(codec, e, items);
      && (turn.ok <==> EndsWell(codec, items) && |DeltaBytes(codec, items)| <= U64_MAX - e.sendCounter)
      && (turn.ok <==> DoneFrame in turn.frames)
    decreases |items|
  {
    if items != [] && !Terminal(items[0]) {
      var n := |DeltaBytes(codec, items[1..])|;
      assert |DeltaBytes(codec, items)| == n + 1;
      assert n < |items[1..]| ==> items[n + 1] == items[1..][n];
      if e.sendCounter < U64_MAX {
        StreamOutcome(codec, Send(e, S2C, codec.utf8(items[0].event.text)).0, items[1..]);
      }
    }
  }

  lemma {:induction false} DeltasBeforeTerminal(codec: Codec, items: seq<Item>)
    requires OneTerminal(items)
    ensures |DeltaBytes(codec, items)| == |items| - 1
    decreases |items|
  {
    assert |items| > 1 ==> items[..|items| - 1][0] == items[0];
    if |items| > 1 {
      assert items[1..][..|items[1..]| - 1] == items[..|items| - 1][1..];
      DeltasBeforeTerminal(codec, items[1..]);
    }
  }

  lemma TurnMeansItems(codec: Codec, e: Endpoint, client: Endpoint, items: seq<Item>)
    requires OneTerminal(items) && client.recvKey == e.sendKey && client.recvCounter == e.sendCounter
    ensures
      var turn := StreamItems(codec, e, items);
      var deltas := DeltaBytes(codec, items);
      && ReceiveAll(client, S2C, ChunksOf(turn.frames)).1 == Deliverable(e, deltas)
      && (turn.ok <==> items[|items| - 1] == Ok(Done) && |deltas| <= U64_MAX - e.sendCounter)
      && (turn.ok <==> DoneFrame in turn.frames)
  {
    var turn := StreamItems(codec, e, items);
    StreamCounts(codec, e, items);
    CountedChunksAreAccepted(turn.frames, client, turn.end.sendCounter);
    StreamTexts(codec, e, items);
    StreamOutcome(codec, e, items);
    DeltasBeforeTerminal(codec, items);
  }

  lemma {:induction false} ChunksAppend(a: seq<ServerFrame>, b: seq<ServerFrame>)
    ensures ChunksOf(a + b) == ChunksOf(a) + ChunksOf(b)
    decreases |a|
  {
    if a == [] {
      assert a + b == b;
    } else {
      ChunksAppend(a[1..], b);
      assert (a + b)[0] == a[0] && (a + b)[1..] == a[1..] + b;
      var head := if a[0].ChunkFrame? then [a[0].frame] else [];
      assert head + (ChunksOf(a[1..]) + ChunksOf(b)) == (head + ChunksOf(a[1..])) + ChunksOf(b);
    }
  }

  /** The answer to a prompt that opens and is accepted by a provider streaming `items`. */
  lemma AnswerStreams(cfg: Config, e: Endpoint, v: Visit, request: ChatRequest, items: seq<Item>)
    requires Opens(e, v) && RequestOf(cfg, PromptPlaintext(e, v.inbound.frame).value) == Some(request)
    requires v.provider(request) == Streams(items)
    ensures
      var turn := StreamItems(cfg.codec, e.(recvCounter := e.recvCounter + 1), items);
      Answer(cfg, e, v).frames == turn.frames + (if turn.ok then [] else [ErrorFrame(StreamError)])
  {
  }

  /** The error frame after a failed turn carries no text and is not `done`. */
  lemma ErrorTailIsSilent(frames: seq<ServerFrame>, tail: seq<ServerFrame>)
    requires tail == [] || tail == [ErrorFrame(StreamError)]
    ensures ChunksOf(frames + tail) == ChunksOf(frames)
    ensures DoneFrame in frames + tail <==> DoneFrame in frames
  {
    ChunksAppend(frames, tail);
    assert ChunksOf(tail) == [];
  }

  /** A turn means its items: what the client decrypts, and which frame closes the turn. */
  ghost predicate TurnMeans(codec: Codec, server: Endpoint, client: Endpoint,
                            frames: seq<ServerFrame>, items: seq<Item>)
  {
    var deltas := DeltaBytes(codec, items);
    && OneTerminal(items) && TurnShape(frames)
    && ReceiveAll(client, S2C, ChunksOf(frames)).1 == Deliverable(server, deltas)
    && (frames[|frames| - 1] == DoneFrame <==>
          items[|items| - 1] == Ok(Done) && |deltas| <= U64_MAX - server.sendCounter)
  }

  lemma DoneClosesTheTurn(frames: seq<ServerFrame>)
    requires TurnShape(frames)
    ensures DoneFrame in frames <==> frames[|frames| - 1] == DoneFrame
  {
  }

  lemma AnswerMeansItems(cfg: Config, server: Endpoint, client: Endpoint,
                         v: Visit, request: ChatRequest, items: seq<Item>)
    requires OneTerminal(items) && Crossed(server, client) && client.recvCounter == server.sendCounter
    requires Opens(server, v) && RequestOf(cfg, PromptPlaintext(server, v.inbound.frame).value) == Some(request)
    requires v.provider(request) == Streams(items)
    ensures TurnMeans(cfg.codec, server, client, Answer(cfg, server, v).frames, items)
  {
    AnswerShape(cfg, server, v);
    AnswerStreams(cfg, server, v, request, items);
    var turn := StreamItems(cfg.codec, server.(recvCounter := server.recvCounter + 1), items);
    ErrorTailIsSilent(turn.frames, if turn.ok then [] else [ErrorFrame(StreamError)]);
    TurnMeansItems(cfg.codec, server.(recvCounter := server.recvCounter + 1), client, items);
    DoneClosesTheTurn(Answer(cfg, server, v).frames);
  }

  /**
   For every provider, every body (cut short by a transport error or not) and every chunking of it whose
   unterminated tail fits the line cap, over in-order delivery: the plaintexts the client decrypts in a turn are
   the delta texts of the body's lines up to its first terminal item (as many as the counter has numbers for),
   and `done` closes the turn exactly when that item is `Done` and all of them went out; otherwise an error does.
   */
  lemma EndToEnd(cfg: Config, p: Provider, pieces: seq<Bytes>, rest: seq<Chunk>,
                 server: Endpoint, client: Endpoint, v: Visit, request: ChatRequest)
    requires Closes(p) && TailsFit(pieces) && EndsBody(rest)
    requires Crossed(server, client) && client.recvCounter == server.sendCounter
    requires Opens(server, v) && RequestOf(cfg, PromptPlaintext(server, v.inbound.frame).value) == Some(request)
    requires v.provider(request) == Streams(Events(p, AsChunks(pieces) + rest))
    ensures
      var body := Flatten(pieces);
      TurnMeans(cfg.codec, server, client, Answer(cfg, server, v).frames,
                UpToTerminal(AllItems(p, Lines(body)) + Ending(p, Residue(body), rest)))
  {
    ChunkingIsInvisible(p, pieces, rest);
    EveryStreamEndsOnce(p, AsChunks(pieces) + rest);
    AnswerMeansItems(cfg, server, client, v, request, Events(p, AsChunks(pieces) + rest));
  }

  // ---- A whole connection ----

  /** The provider's stream, if the prompt gets that far: it opens, is a valid request, and is not refused. */
  function ServedItems(cfg: Config, e: Endpoint, v: Visit): Option<seq<Item>> {
    if !Opens(e, v) then None
    else
      match RequestOf(cfg, PromptPlaintext(e, v.inbound.frame).value)
      case None => None
      case Some(request) =>
        match v.provider(request)
        case Refused => None
        case Streams(items) => Some(items)
  }

  /** The texts a turn delivers. */
  function TurnTexts(cfg: Config, e: Endpoint, v: Visit): seq<Bytes> {
    match ServedItems(cfg, e, v)
    case None => []
    case Some(items) => Deliverable(e, DeltaBytes(cfg.codec, items))
  }

  /** The texts of all turns of a connection, in order. */
  function ConnectionTexts(cfg: Config, e: Endpoint, visits: seq<Visit>): seq<Bytes>
    decreases |visits|
  {
    if visits == [] then []
    else
      var reply := Answer(cfg, e, visits[0]);
      TurnTexts(cfg, e, visits[0]) +
      if reply.next == Continue then ConnectionTexts(cfg, reply.end, visits[1..]) else []
  }

  lemma SilentHasNoTexts(frames: seq<ServerFrame>)
    requires |frames| <= 1 && forall f :: f in frames ==> f.ErrorFrame?
    ensures TextsIn(frames) == []
  {
    if frames != [] { assert frames[0] in frames && frames[1..] == []; }
  }

  lemma AnswerTexts(cfg: Config, e: Endpoint, v: Visit)
    ensures TextsIn(Answer(cfg, e, v).frames) == TurnTexts(cfg, e, v)
  {
    var frames := Answer(cfg, e, v).frames;
    if Opens(e, v) && RequestOf(cfg, PromptPlaintext(e, v.inbound.frame).value).Some?
       && v.provider(RequestOf(cfg, PromptPlaintext(e, v.inbound.frame).value).value).Streams? {
      var request := RequestOf(cfg, PromptPlaintext(e, v.inbound.frame).value).value;
      var items, e1 := v.provider(request).items, e.(recvCounter := e.recvCounter + 1);
      AnswerStreams(cfg, e, v, request, items);
      StreamTexts(cfg.codec, e1, items);
      var turn := StreamItems(cfg.codec, e1, items);
      var tail := if turn.ok then [] else [ErrorFrame(StreamError)];
      TextsAppend(turn.frames, tail);
      SilentHasNoTexts(tail);
    } else {
      SilentHasNoTexts(frames);
    }
  }

  lemma {:induction false} ServeTexts(cfg: Config, e: Endpoint, visits: seq<Visit>)
    ensures TextsIn(Concat(Serve(cfg, e, visits).turns)) == ConnectionTexts(cfg, e, visits)
    decreases |visits|
  {
    if visits != [] {
      var reply, turns := Answer(cfg, e, visits[0]), Serve(cfg, e, visits).turns;
      AnswerTexts(cfg, e, visits[0]);
      assert Concat(turns) == reply.frames + Concat(turns[1..]);
      TextsAppend(reply.frames, Concat(turns[1..]));
      if reply.next == Continue {
        ServeTexts(cfg, reply.end, visits[1..]);
        assert turns[1..] == Serve(cfg, reply.end, visits[1..]).turns;
      } else {
        assert turns[1..] == [];
      }
    }
  }

  /**
   Over a whole connection delivered in order, the client decrypts exactly the texts of all turns, failed ones
   included, and ends in step with the server.
   */
  lemma WholeConnectionStaysInStep(cfg: Config, server: Endpoint, client: Endpoint, visits: seq<Visit>)
    requires Crossed(server, client) && server.sendCounter == client.recvCounter
    ensures
      var s := Serve(cfg, server, visits);
      ReceiveAll(client, S2C, ChunksOf(Concat(s.turns))) ==
      (client.(recvCounter := s.end.sendCounter), ConnectionTexts(cfg, server, visits))
  {
    var s := Serve(cfg, server, visits);
    ServeCounts(cfg, server, visits);
    CountedChunksAreAccepted(Concat(s.turns), client, s.end.sendCounter);
    ServeTexts(cfg, server, visits);
  }

  // ---- The whole socket ----

  predicate NoHello(frames: seq<ServerFrame>) {
    forall i :: 0 <= i < |frames| ==> !frames[i].ServerHello?
  }

  /** Neither a chunk nor `done`. */
  predicate Silent(frames: seq<ServerFrame>) {
    forall i :: 0 <= i < |frames| ==> !frames[i].ChunkFrame? && frames[i] != DoneFrame
  }

  lemma AnswerHasNoHello(cfg: Config, e: Endpoint, v: Visit)
    ensures NoHello(Answer(cfg, e, v).frames)
  {
    AnswerShape(cfg, e, v);
    var frames := Answer(cfg, e, v).frames;
    if !Admitted(v) { assert forall i :: 0 <= i < |frames| ==> frames[i] in frames; }
  }

  lemma {:induction false} LoopHasNoHello(cfg: Config, e: Endpoint, visits: seq<Visit>)
    ensures NoHello(Concat(Serve(cfg, e, visits).turns))
    decreases |visits|
  {
    if visits != [] {
      var reply, turns := Answer(cfg, e, visits[0]), Serve(cfg, e, visits).turns;
      AnswerHasNoHello(cfg, e, visits[0]);
      assert Concat(turns) == reply.frames + Concat(turns[1..]);
      if reply.next == Continue {
        LoopHasNoHello(cfg, reply.end, visits[1..]);
        assert turns[1..] == Serve(cfg, reply.end, visits[1..]).turns;
      } else {
        assert Concat(turns) == reply.frames;
      }
    }
  }

  /**
   On every socket run `server_hello` is sent first and never again; without a completed handshake and a live
   token there is neither chunk nor `done`; with them, chunk nonces count 0, 1, 2, ... to the end of the run.
   */
  lemma SocketShape(cfg: Config, g: Group, secret: nat, first: Inbound, tokenAlive: bool, visits: seq<Visit>)
    ensures
      var trace := AfterHello(cfg, g, secret, first, tokenAlive, visits);
      && NoHello(trace)
      && if first.Got? && first.frame.ClientHello? && first.frame.publicKey.Some? && tokenAlive
            && ServerEnd(g, secret, first.frame.publicKey.value).Some?
         then
           var e := ServerEnd(g, secret, first.frame.publicKey.value).value;
           trace == ServeTrace(Serve(cfg, e, visits))
           && CountsFrom(trace, e.sendKey, 0, Serve(cfg, e, visits).end.sendCounter)
         else Silent(trace)
  {
    if first.Got? && first.frame.ClientHello? && first.frame.publicKey.Some? && tokenAlive
       && ServerEnd(g, secret, first.frame.publicKey.value).Some? {
      var e := ServerEnd(g, secret, first.frame.publicKey.value).value;
      ChunkNoncesRunOn(cfg, e, visits);
      LoopHasNoHello(cfg, e, visits);
    }
  }
}
