/** The `/chat/stream` socket: handshake, the prompt loop, and one encrypted turn. */
module ChatStream {
  import opened Common
  import opened StreamSession
  import opened Providers

  const MAX_PROMPT_MESSAGES: nat := 100
  const MAX_PROMPT_BYTES: nat := 512 * 1024
  const DEFAULT_MAX_TOKENS: nat := 1024
  const MAX_MAX_TOKENS: nat := 8192

  datatype ErrorCode =
    | ProtocolError | HandshakeFailed | SessionExpired | SessionRevoked | RateLimited | StreamError

  /** What the server puts on the socket; `Closing` is the WebSocket close message. */
  datatype ServerFrame =
    | ServerHello(publicKey: Bytes)
    | ChunkFrame(frame: Frame)
    | DoneFrame
    | ErrorFrame(code: ErrorCode)
    | Closing

  /** Base64 fields are given decoded; `None` is text that does not decode. */
  datatype ClientFrame =
    | ClientHello(publicKey: Option<Bytes>)
    | Prompt(ciphertext: Option<Ciphertext>, nonce: Option<Bytes>)
    | Close

  datatype Inbound =
    | Got(frame: ClientFrame)
    | Ended    // the peer closed
    | Broken   // a socket error or a text frame that does not parse
    | Deadline // the access token expired first

  datatype Message = Message(role: string, content: string)

  datatype Payload = Payload(messages: seq<Message>, model: Option<string>, maxTokens: Option<nat>)

  datatype ChatRequest = ChatRequest(model: string, messages: seq<Message>, maxTokens: nat)

  /** The provider refuses the request, or streams items. */
  datatype ProviderReply = Refused | Streams(items: seq<Item>)

  datatype Config = Config(codec: Codec, readPayload: Bytes -> Option<Payload>, defaultModel: string)

  /** One turn of the loop: what arrived, and how the session table, the limiter and the provider answered. */
  datatype Visit = Visit(inbound: Inbound, active: bool, allowed: bool, provider: ChatRequest -> ProviderReply)

  predicate ValidRole(role: string) {
    role == "user" || role == "assistant" || role == "system"
  }

  predicate ValidPayload(p: Payload) {
    0 < |p.messages| <= MAX_PROMPT_MESSAGES && forall i :: 0 <= i < |p.messages| ==> ValidRole(p.messages[i].role)
  }

  function ToRequest(cfg: Config, p: Payload): ChatRequest {
    var tokens := if p.maxTokens.Some? then p.maxTokens.value else DEFAULT_MAX_TOKENS;
    ChatRequest(if p.model.Some? then p.model.value else cfg.defaultModel,
                p.messages,
                if tokens < MAX_MAX_TOKENS then tokens else MAX_MAX_TOKENS)
  }

  // ---- One turn, as a function ----

  datatype Turn = Turn(end: Endpoint, frames: seq<ServerFrame>, ok: bool)

  /** Encrypt and send each delta until the stream says it is done, runs out, or fails. */
  function StreamItems(codec: Codec, e: Endpoint, items: seq<Item>): Turn
    decreases |items|
  {
    if items == [] then Turn(e, [DoneFrame], true)
    else match items[0]
      case Ok(Done) => Turn(e, [DoneFrame], true)
      case Err(_) => Turn(e, [], false)
      case Ok(Delta(text)) =>
        var (e1, frame) := Send(e, S2C, codec.utf8(text));
        if frame == None then Turn(e1, [], false)
        else
          var rest := StreamItems(codec, e1, items[1..]);
          Turn(rest.end, [ChunkFrame(frame.value)] + rest.frames, rest.ok)
  }

  /** The frame of a prompt that decodes, if its nonce has the right length. */
  function PromptFrame(f: ClientFrame): Option<Frame> {
    if f.Prompt? && f.ciphertext.Some? && f.nonce.Some? && |f.nonce.value| == NONCE_LEN
    then Some(Frame(f.ciphertext.value, f.nonce.value))
    else None
  }

  /** The plaintext `session.decrypt` releases for this client frame, if any. */
  function PromptPlaintext(e: Endpoint, f: ClientFrame): Option<Bytes> {
    match PromptFrame(f)
    case None => None
    case Some(frame) => Receive(e, C2S, frame).1
  }

  function RequestOf(cfg: Config, plaintext: Bytes): Option<ChatRequest> {
    if |plaintext| > MAX_PROMPT_BYTES then None
    else
      match cfg.readPayload(plaintext)
      case None => None
      case Some(p) => if ValidPayload(p) then Some(ToRequest(cfg, p)) else None
  }

  function PromptTurn(cfg: Config, e: Endpoint, f: ClientFrame, provider: ChatRequest -> ProviderReply): Turn {
    match PromptPlaintext(e, f)
    case None => Turn(e, [], false)
    case Some(plaintext) =>
      var e1 := e.(recvCounter := e.recvCounter + 1);
      match RequestOf(cfg, plaintext)
      case None => Turn(e1, [], false)
      case Some(request) =>
        match provider(request)
        case Refused => Turn(e1, [], false)
        case Streams(items) => StreamItems(cfg.codec, e1, items)
  }

  // ---- The loop, as a function ----

  datatype Next = Continue | Leave | Abort

  datatype Reply = Reply(end: Endpoint, frames: seq<ServerFrame>, next: Next)

  function Answer(cfg: Config, e: Endpoint, v: Visit): Reply {
    match v.inbound
    case Deadline => Reply(e, [ErrorFrame(SessionExpired)], Leave)
    case Ended => Reply(e, [], Leave)
    case Broken => Reply(e, [], Abort)
    case Got(Close) => Reply(e, [], Leave)
    case Got(ClientHello(_)) => Reply(e, [ErrorFrame(ProtocolError)], Continue)
    case Got(Prompt(_, _)) =>
      if !v.active then Reply(e, [ErrorFrame(SessionRevoked)], Leave)
      else if !v.allowed then Reply(e, [ErrorFrame(RateLimited)], Continue)
      else
        var turn := PromptTurn(cfg, e, v.inbound.frame, v.provider);
        Reply(turn.end, turn.frames + (if turn.ok then [] else [ErrorFrame(StreamError)]), Continue)
  }

  /** The frames sent in each turn of the loop, and whether the close message follows. */
  datatype Service = Service(turns: seq<seq<ServerFrame>>, end: Endpoint, closes: bool)

  function Serve(cfg: Config, e: Endpoint, visits: seq<Visit>): Service
    decreases |visits|
  {
    if visits == [] then Service([], e, true)
    else
      var reply := Answer(cfg, e, visits[0]);
      match reply.next
      case Leave => Service([reply.frames], reply.end, true)
      case Abort => Service([reply.frames], reply.end, false)
      case Continue =>
        var rest := Serve(cfg, reply.end, visits[1..]);
        Service([reply.frames] + rest.turns, rest.end, rest.closes)
  }

  function Concat(turns: seq<seq<ServerFrame>>): seq<ServerFrame> {
    if turns == [] then [] else turns[0] + Concat(turns[1..])
  }

  function ServeTrace(s: Service): seq<ServerFrame> {
    Concat(s.turns) + (if s.closes then [Closing] else [])
  }

  /** What follows `server_hello`, given the first message and whether the token is still alive. */
  function AfterHello(cfg: Config, g: Group, secret: nat, first: Inbound, tokenAlive: bool, visits: seq<Visit>)
    : seq<ServerFrame>
  {
    match first
    case Got(ClientHello(None)) => []
    case Got(ClientHello(Some(key))) =>
      (match ServerEnd(g, secret, key)
       case None => [ErrorFrame(HandshakeFailed)]
       case Some(e) => if tokenAlive then ServeTrace(Serve(cfg, e, visits)) else [Closing])
    case Got(_) => [ErrorFrame(ProtocolError)]
    case _ => []
  }

  // ---- The same, as the server runs it ----

  /** A turn that has already sent `sent` and goes on as `rest`. */
  function After(sent: seq<ServerFrame>, rest: Turn): Turn {
    Turn(rest.end, sent + rest.frames, rest.ok)
  }

  lemma StreamDelta(codec: Codec, e: Endpoint, items: seq<Item>, sent: seq<ServerFrame>)
    requires |items| > 0 && items[0].Ok? && items[0].event.Delta?
    ensures
      var (e1, frame) := Send(e, S2C, codec.utf8(items[0].event.text));
      After(sent, StreamItems(codec, e, items)) ==
      if frame == None then Turn(e1, sent, false)
      else After(sent + [ChunkFrame(frame.value)], StreamItems(codec, e1, items[1..]))
  {
  }

  lemma StreamEnds(codec: Codec, e: Endpoint, items: seq<Item>, sent: seq<ServerFrame>)
    requires items == [] || Terminal(items[0])
    ensures After(sent, StreamItems(codec, e, items)) ==
      if items != [] && items[0].Err? then Turn(e, sent, false) else Turn(e, sent + [DoneFrame], true)
  {
  }

  method ForwardEvents(codec: Codec, session: Session, items: seq<Item>) returns (sent: seq<ServerFrame>, ok: bool)
    modifies session
    ensures Turn(session.End(), sent, ok) == StreamItems(codec, old(session.End()), items)
  {
    sent := [];
    ghost var turn := StreamItems(codec, session.End(), items);
    assert items[0..] == items && After([], turn) == turn;
    var i := 0;
    while i < |items|
      invariant i <= |items|
      invariant turn == After(sent, StreamItems(codec, session.End(), items[i..]))
    {
      if items[i].Err? {
        StreamEnds(codec, session.End(), items[i..], sent);
        return sent, false;
      }
      if items[i].event == Done {
        break;
      }
      StreamDelta(codec, session.End(), items[i..], sent);
      assert items[i..][1..] == items[i + 1..];
      var frame := session.Encrypt(codec.utf8(items[i].event.text));
      if frame == None {
        return sent, false;
      }
      sent := sent + [ChunkFrame(frame.value)];
      i := i + 1;
    }
    StreamEnds(codec, session.End(), items[i..], sent);
    sent := sent + [DoneFrame];
    ok := true;
  }

  method HandlePrompt(cfg: Config, session: Session, f: ClientFrame, provider: ChatRequest -> ProviderReply)
    returns (sent: seq<ServerFrame>, ok: bool)
    requires f.Prompt?
    modifies session
    ensures Turn(session.End(), sent, ok) == PromptTurn(cfg, old(session.End()), f, provider)
  {
    sent, ok := [], false;
    if f.ciphertext == None || f.nonce == None || |f.nonce.value| != NONCE_LEN {
      return;
    }
    var plaintext := session.Decrypt(Frame(f.ciphertext.value, f.nonce.value));
    if plaintext == None || |plaintext.value| > MAX_PROMPT_BYTES {
      return;
    }
    var payload := cfg.readPayload(plaintext.value);
    if payload == None || !ValidPayload(payload.value) {
      return;
    }
    var reply := provider(ToRequest(cfg, payload.value));
    if reply.Refused? {
      return;
    }
    sent, ok := ForwardEvents(cfg.codec, session, reply.items);
  }

  /** `Concat` of turns extended at the end. */
  lemma {:induction false} ConcatAppend(a: seq<seq<ServerFrame>>, b: seq<seq<ServerFrame>>)
    ensures Concat(a + b) == Concat(a) + Concat(b)
    decreases |a|
  {
    if a == [] {
      assert a + b == b;
    } else {
      ConcatAppend(a[1..], b);
      assert (a + b)[1..] == a[1..] + b;
    }
  }

  lemma ServeTraceStep(cfg: Config, e: Endpoint, v: Visit, rest: seq<Visit>)
    ensures
      var reply := Answer(cfg, e, v);
      ServeTrace(Serve(cfg, e, [v] + rest)) ==
      reply.frames + (match reply.next
                      case Leave => [Closing]
                      case Abort => []
                      case Continue => ServeTrace(Serve(cfg, reply.end, rest)))
  {
    var reply := Answer(cfg, e, v);
    assert ([v] + rest)[0] == v && ([v] + rest)[1..] == rest;
    assert Concat([reply.frames]) == reply.frames + Concat([]) == reply.frames;
    if reply.next == Continue {
      var s := Serve(cfg, reply.end, rest);
      ConcatAppend([reply.frames], s.turns);
    }
  }

  /** One turn of the loop. */
  method HandleVisit(cfg: Config, session: Session, v: Visit) returns (sent: seq<ServerFrame>, next: Next)
    modifies session
    ensures Reply(session.End(), sent, next) == Answer(cfg, old(session.End()), v)
  {
    match v.inbound
    case Deadline =>
      return [ErrorFrame(SessionExpired)], Leave;
    case Ended =>
      return [], Leave;
    case Broken =>
      return [], Abort;
    case Got(f) =>
      match f
      case Close =>
        return [], Leave;
      case ClientHello(_) =>
        return [ErrorFrame(ProtocolError)], Continue;
      case Prompt(_, _) =>
        if !v.active {
          return [ErrorFrame(SessionRevoked)], Leave;
        }
        if !v.allowed {
          return [ErrorFrame(RateLimited)], Continue;
        }
        var ok;
        sent, ok := HandlePrompt(cfg, session, f, v.provider);
        if !ok {
          sent := sent + [ErrorFrame(StreamError)];
        }
        next := Continue;
  }

  /** One turn of the loop, seen from what the loop has sent and what it will send. */
  method ServeVisit(cfg: Config, session: Session, visits: seq<Visit>, i: nat, trace: seq<ServerFrame>)
    returns (sofar: seq<ServerFrame>, next: Next)
    requires i < |visits|
    modifies session
    ensures trace + ServeTrace(Serve(cfg, old(session.End()), visits[i..])) ==
      match next
      case Leave => sofar + [Closing]
      case Abort => sofar
      case Continue => sofar + ServeTrace(Serve(cfg, session.End(), visits[i + 1..]))
  {
    assert visits[i..] == [visits[i]] + visits[i + 1..];
    ServeTraceStep(cfg, session.End(), visits[i], visits[i + 1..]);
    var sent;
    sent, next := HandleVisit(cfg, session, visits[i]);
    sofar := trace + sent;
  }

  method PromptLoop(cfg: Config, session: Session, visits: seq<Visit>) returns (trace: seq<ServerFrame>)
    modifies session
    ensures trace == ServeTrace(Serve(cfg, old(session.End()), visits))
  {
    trace := [];
    assert visits[0..] == visits;
    for i := 0 to |visits|
      invariant ServeTrace(Serve(cfg, old(session.End()), visits)) ==
                trace + ServeTrace(Serve(cfg, session.End(), visits[i..]))
    {
      var next;
      trace, next := ServeVisit(cfg, session, visits, i, trace);
      if next == Leave {
        return trace + [Closing];
      }
      if next == Abort {
        return;
      }
    }
    trace := trace + [Closing];
  }

  method HandleSocket(cfg: Config, g: Group, secret: nat, first: Inbound, tokenAlive: bool, visits: seq<Visit>)
    returns (trace: seq<ServerFrame>)
    ensures trace == [ServerHello(g.publicOf(secret))] + AfterHello(cfg, g, secret, first, tokenAlive, visits)
  {
    trace := [ServerHello(g.publicOf(secret))];
    if !first.Got? {
      return;
    }
    if !first.frame.ClientHello? {
      return trace + [ErrorFrame(ProtocolError)];
    }
    if first.frame.publicKey == None {
      return;
    }
    var session := CompleteHandshake(g, secret, first.frame.publicKey.value);
    if session == null {
      return trace + [ErrorFrame(HandshakeFailed)];
    }
    if !tokenAlive {
      return trace + [Closing];
    }
    var rest := PromptLoop(cfg, session, visits);
    trace := trace + rest;
  }
}
