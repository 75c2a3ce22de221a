/** Exactly what each message to the socket is answered with, and when the socket ends. */
module ChatAnswers {
  import opened Common
  import opened X25519Keys
  import opened StreamSession
  import opened LineSplitter
  import opened Providers
  import opened Pumps
  import opened ProviderLines
  import opened ChatStream
  import opened ChatTheorems

  // ---- From a frame to a request ----

  /** A prompt opens exactly if it is the plaintext sealed by the client under the awaited number. */
  lemma PromptOpensIff(e: Endpoint, f: ClientFrame, plaintext: Bytes)
    ensures PromptPlaintext(e, f) == Some(plaintext) <==>
      var nonce := CounterNonce(e.recvCounter);
      e.recvCounter < U64_MAX && f == Prompt(Some(Sealed(e.recvKey, nonce, C2S, plaintext)), Some(nonce))
  {
    CounterNonceInjective(e.recvCounter, e.recvCounter);
  }

  predicate IsRole(role: string) {
    role in {"user", "assistant", "system"}
  }

  /** `least` is the smaller of the two. */
  predicate IsMinimum(least: nat, a: nat, b: nat) {
    least <= a && least <= b && (least == a || least == b)
  }

  /** The request is what the payload asks for, with the default model and limit filled in and the limit capped. */
  predicate Requests(cfg: Config, p: Payload, request: ChatRequest) {
    && request.messages == p.messages
    && request.model == (match p.model case Some(model) => model case None => cfg.defaultModel)
    && IsMinimum(request.maxTokens, match p.maxTokens case Some(n) => n case None => 1024, 8192)
  }

  /** A plaintext is a request exactly within the size, message count and role limits. */
  lemma RequestIff(cfg: Config, plaintext: Bytes, request: ChatRequest)
    ensures RequestOf(cfg, plaintext) == Some(request) <==>
      var p := cfg.readPayload(plaintext);
      && |plaintext| <= 524288 && p.Some? && 1 <= |p.value.messages| <= 100
      && (forall i :: 0 <= i < |p.value.messages| ==> IsRole(p.value.messages[i].role))
      && Requests(cfg, p.value, request)
  {
    var p := cfg.readPayload(plaintext);
    if p.Some? {
      assert forall i :: 0 <= i < |p.value.messages| ==>
        (IsRole(p.value.messages[i].role) <==> ValidRole(p.value.messages[i].role));
    }
  }

  // ---- Every answer ----

  /** A message that is not a prompt, and a prompt that is not admitted: the error, and whether the loop goes on. */
  lemma OtherAnswers(cfg: Config, e: Endpoint, v: Visit)
    requires !Admitted(v)
    ensures
      var reply := Answer(cfg, e, v);
      && reply.end == e
      && (v.inbound.Deadline? ==> reply.frames == [ErrorFrame(SessionExpired)] && reply.next == Leave)
      && (v.inbound.Ended? ==> reply.frames == [] && reply.next == Leave)
      && (v.inbound.Broken? ==> reply.frames == [] && reply.next == Abort)
      && (v.inbound.Got? ==>
            match v.inbound.frame
            case Close => reply.frames == [] && reply.next == Leave
            case ClientHello(_) => reply.frames == [ErrorFrame(ProtocolError)] && reply.next == Continue
            case Prompt(_, _) =>
              if v.active then reply.frames == [ErrorFrame(RateLimited)] && reply.next == Continue
              else reply.frames == [ErrorFrame(SessionRevoked)] && reply.next == Leave)
  {
  }

  /** An admitted prompt that opens nothing, is no request or is refused by the provider fails, and the loop goes on. */
  lemma UnservedPromptFails(cfg: Config, e: Endpoint, v: Visit)
    requires Admitted(v) && ServedItems(cfg, e, v) == None
    ensures
      var end := if Opens(e, v) then e.(recvCounter := e.recvCounter + 1) else e;
      Answer(cfg, e, v) == Reply(end, [ErrorFrame(StreamError)], Continue)
  {
  }

  /** A served prompt is answered by its stream's turn, with an error after it if the turn fails; the loop goes on. */
  lemma ServedPromptStreams(cfg: Config, e: Endpoint, v: Visit)
    requires ServedItems(cfg, e, v).Some?
    ensures
      var turn := StreamItems(cfg.codec, e.(recvCounter := e.recvCounter + 1), ServedItems(cfg, e, v).value);
      Answer(cfg, e, v) ==
      Reply(turn.end, turn.frames + (if turn.ok then [] else [ErrorFrame(StreamError)]), Continue)
  {
  }

  /**
   `done` answers exactly the prompts that are admitted, open, are valid requests, are not refused by the provider,
   and whose stream ends well with all its texts sent.
   */
  lemma DoneFrameIff(cfg: Config, e: Endpoint, v: Visit)
    ensures DoneFrame in Answer(cfg, e, v).frames <==>
      && ServedItems(cfg, e, v).Some?
      && EndsWell(cfg.codec, ServedItems(cfg, e, v).value)
      && |DeltaBytes(cfg.codec, ServedItems(cfg, e, v).value)| <= U64_MAX - e.sendCounter
  {
    if !Admitted(v) {
      AnswerShape(cfg, e, v);
    } else if ServedItems(cfg, e, v) == None {
      UnservedPromptFails(cfg, e, v);
    } else {
      ServedPromptStreams(cfg, e, v);
      StreamOutcome(cfg.codec, e.(recvCounter := e.recvCounter + 1), ServedItems(cfg, e, v).value);
    }
  }

  // ---- When the loop ends ----

  /** The messages after which the socket is closed. */
  predicate Leaves(v: Visit) {
    match v.inbound
    case Got(Prompt(_, _)) => !v.active
    case Got(ClientHello(_)) => false
    case _ => true
  }

  lemma NextIff(cfg: Config, e: Endpoint, v: Visit)
    ensures Answer(cfg, e, v).next == Continue <==> !Leaves(v)
    ensures Answer(cfg, e, v).next == Abort <==> v.inbound.Broken?
  {
    if Admitted(v) {
      if ServedItems(cfg, e, v) == None { UnservedPromptFails(cfg, e, v); } else { ServedPromptStreams(cfg, e, v); }
    } else {
      OtherAnswers(cfg, e, v);
    }
  }

  /** The loop serves every message up to the first that ends it, and closes properly unless that is a broken one. */
  lemma {:induction false} LoopEndsExactly(cfg: Config, e: Endpoint, visits: seq<Visit>)
    ensures
      var s := Serve(cfg, e, visits);
      && |s.turns| <= |visits|
      && (forall k :: 0 <= k < |s.turns| - 1 ==> !Leaves(visits[k]))
      && (|s.turns| < |visits| ==> |s.turns| > 0 && Leaves(visits[|s.turns| - 1]))
      && (s.closes <==> !(|s.turns| > 0 && visits[|s.turns| - 1].inbound.Broken?))
    decreases |visits|
  {
    if visits != [] {
      NextIff(cfg, e, visits[0]);
      var reply, s := Answer(cfg, e, visits[0]), Serve(cfg, e, visits);
      if reply.next == Continue {
        LoopEndsExactly(cfg, reply.end, visits[1..]);
        var n := |s.turns| - 1;
        assert n > 0 ==> visits[1..][n - 1] == visits[n];
        forall k | 0 <= k < n ensures !Leaves(visits[k]) {
          if k > 0 { assert visits[k] == visits[1..][k - 1]; }
        }
      }
    }
  }

  /** A prompt refused on the way, for any number of reasons, can be sent again: the loop is there, and it opens. */
  lemma ResentPromptIsServed(cfg: Config, e: Endpoint, visits: seq<Visit>, again: Visit)
    requires forall k :: 0 <= k < |visits| ==> !Opens(e, visits[k]) && !Leaves(visits[k])
    requires Opens(e, again)
    ensures Serve(cfg, e, visits + [again]).end.recvCounter == e.recvCounter + 1
  {
    ResentPromptOpens(cfg, e, visits, again);
    LoopEndsExactly(cfg, e, visits + [again]);
    var n := |Serve(cfg, e, visits + [again]).turns|;
    assert forall k :: 0 <= k < |visits| ==> (visits + [again])[k] == visits[k];
  }

  lemma {:induction false} NoCloseInTurns(cfg: Config, e: Endpoint, visits: seq<Visit>)
    ensures Closing !in Concat(Serve(cfg, e, visits).turns)
    decreases |visits|
  {
    if visits != [] {
      var reply, turns := Answer(cfg, e, visits[0]), Serve(cfg, e, visits).turns;
      AnswerShape(cfg, e, visits[0]);
      assert Concat(turns) == reply.frames + Concat(turns[1..]);
      if reply.next == Continue {
        NoCloseInTurns(cfg, reply.end, visits[1..]);
        assert turns[1..] == Serve(cfg, reply.end, visits[1..]).turns;
      } else {
        assert turns[1..] == [];
      }
    }
  }

  /** The close message is sent exactly when the loop does not end on a broken message, and nothing follows it. */
  lemma CloseIsLast(cfg: Config, e: Endpoint, visits: seq<Visit>)
    ensures
      var s := Serve(cfg, e, visits);
      var trace := ServeTrace(s);
      && |s.turns| <= |visits|
      && (Closing in trace <==> !(|s.turns| > 0 && visits[|s.turns| - 1].inbound.Broken?))
      && (forall i :: 0 <= i < |trace| && trace[i] == Closing ==> i == |trace| - 1)
  {
    NoCloseInTurns(cfg, e, visits);
    LoopEndsExactly(cfg, e, visits);
    var s := Serve(cfg, e, visits);
    assert s.closes ==> ServeTrace(s)[|Concat(s.turns)|] == Closing;
  }

  /** How the opening ends when it does not lead to the loop. */
  lemma OpeningAnswers(cfg: Config, g: Group, secret: nat, first: Inbound, tokenAlive: bool, visits: seq<Visit>)
    ensures
      var trace := AfterHello(cfg, g, secret, first, tokenAlive, visits);
      && (!first.Got? ==> trace == [])
      && (first.Got? && !first.frame.ClientHello? ==> trace == [ErrorFrame(ProtocolError)])
      && (first.Got? && first.frame.ClientHello? && first.frame.publicKey == None ==> trace == [])
      && (first.Got? && first.frame.ClientHello? && first.frame.publicKey.Some? ==>
            var key := first.frame.publicKey.value;
            if |key| != 32 || SmallOrderResidue(UCoordinate(key)) || AllZero(g.shared(secret, key))
            then trace == [ErrorFrame(HandshakeFailed)]
            else if !tokenAlive then trace == [Closing]
            else true)
  {
    if first.Got? && first.frame.ClientHello? && first.frame.publicKey.Some? {
      HandshakeCompletesIff(g, secret, first.frame.publicKey.value);
    }
  }

  // ---- End to end, for each vendor ----

  /**
   `EndToEnd` at OpenAI, Anthropic and Ollama: the client decrypts the texts of the vendor's lines, and `done` closes
   the turn exactly when the response is complete in the vendor's own terms and the counter lasted.
   */
  lemma EndToEndAtVendor(cfg: Config, vendor: Vendor, pieces: seq<Bytes>, rest: seq<Chunk>,
                         server: Endpoint, client: Endpoint, v: Visit, request: ChatRequest)
    requires TailsFit(pieces) && EndsBody(rest)
    requires Crossed(server, client) && client.recvCounter == server.sendCounter
    requires Opens(server, v) && RequestOf(cfg, PromptPlaintext(server, v.inbound.frame).value) == Some(request)
    requires v.provider(request) == Streams(Events(ProviderOf(cfg.codec, vendor), AsChunks(pieces) + rest))
    ensures
      var p, body, frames := ProviderOf(cfg.codec, vendor), Flatten(pieces), Answer(cfg, server, v).frames;
      var items := UpToTerminal(AllItems(p, Lines(body)) + Ending(p, Residue(body), rest));
      && TurnMeans(cfg.codec, server, client, frames, items)
      && (frames[|frames| - 1] == DoneFrame <==>
            && |DeltaBytes(cfg.codec, items)| <= U64_MAX - server.sendCounter
            && Complete(cfg.codec, vendor, Lines(body), Residue(body), rest))
  {
    var p, body := ProviderOf(cfg.codec, vendor), Flatten(pieces);
    VendorCloses(cfg.codec, vendor);
    EndToEnd(cfg, p, pieces, rest, server, client, v, request);
    DoneIff(cfg.codec, vendor, Lines(body), Residue(body), rest);
  }
}
