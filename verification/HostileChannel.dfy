/**
 Two session ends over a channel an attacker controls: frames may be dropped, duplicated, reordered, moved to
 the other direction or invented, as long as no new ciphertext is sealed under the session's keys.
 */
module HostileChannel {
  import opened Common
  import opened StreamSession

  /** `fromServer` and `fromClient` are the frames released, `atServer` and `atClient` the plaintexts accepted. */
  datatype Link = Link(
    server: Endpoint,
    client: Endpoint,
    fromServer: seq<Frame>,
    fromClient: seq<Frame>,
    atServer: seq<Bytes>,
    atClient: seq<Bytes>)

  datatype Action =
    | ServerSends(plaintext: Bytes)
    | ClientSends(plaintext: Bytes)
    | ToServer(frame: Frame)
    | ToClient(frame: Frame)

  predicate Released(frames: seq<Frame>, c: Ciphertext) {
    exists i :: 0 <= i < |frames| && frames[i].ciphertext == c
  }

  /** What the attacker can put on the wire: anything not sealed under the session keys, or a copy. */
  predicate CanInject(l: Link, c: Ciphertext) {
    || !c.Sealed?
    || c.key !in {l.server.sendKey, l.server.recvKey}
    || Released(l.fromServer, c)
    || Released(l.fromClient, c)
  }

  function Grow<T>(s: seq<T>, x: Option<T>): seq<T> {
    match x
    case None => s
    case Some(v) => s + [v]
  }

  function Apply(l: Link, a: Action): Link {
    match a
    case ServerSends(p) =>
      var (server, frame) := Send(l.server, S2C, p);
      l.(server := server, fromServer := Grow(l.fromServer, frame))
    case ClientSends(p) =>
      var (client, frame) := Send(l.client, C2S, p);
      l.(client := client, fromClient := Grow(l.fromClient, frame))
    case ToServer(f) =>
      if !CanInject(l, f.ciphertext) then l
      else
        var (server, plain) := Receive(l.server, C2S, f);
        l.(server := server, atServer := Grow(l.atServer, plain))
    case ToClient(f) =>
      if !CanInject(l, f.ciphertext) then l
      else
        var (client, plain) := Receive(l.client, S2C, f);
        l.(client := client, atClient := Grow(l.atClient, plain))
  }

  function Replay(l: Link, actions: seq<Action>): Link {
    if actions == [] then l else Apply(Replay(l, actions[..|actions| - 1]), actions[|actions| - 1])
  }

  /** A fresh connection between two ends that completed the handshake with each other. */
  function Connect(server: Endpoint, client: Endpoint): Link {
    Link(server, client, [], [], [], [])
  }

  ghost predicate Established(server: Endpoint, client: Endpoint) {
    && Crossed(server, client) && server.sendKey != server.recvKey
    && server.sendCounter == server.recvCounter == client.sendCounter == client.recvCounter == 0
  }

  /** Two ends that completed the handshake with each other's public keys start an established connection. */
  lemma HandshakeEstablishes(g: Group, s: nat, c: nat)
    requires Commutes(g)
    requires ServerEnd(g, s, g.publicOf(c)).Some? && ClientEnd(g, c, g.publicOf(s)).Some?
    ensures Established(ServerEnd(g, s, g.publicOf(c)).value, ClientEnd(g, c, g.publicOf(s)).value)
  {
    HandshakeMirror(g, s, c);
  }

  // ---- The invariant, one direction at a time ----

  /** The k-th frame released in a direction is sealed under its key and label with nonce k. */
  ghost predicate Numbered(frames: seq<Frame>, key: Key, aad: string) {
    |frames| <= U64_MAX &&
    forall k :: 0 <= k < |frames| ==>
      && frames[k].ciphertext.Sealed? && frames[k].nonce == CounterNonce(k)
      && frames[k].ciphertext == Sealed(key, CounterNonce(k), aad, frames[k].ciphertext.plaintext)
  }

  /** The plaintexts accepted are those of the first frames released, in order. */
  ghost predicate PrefixOf(got: seq<Bytes>, frames: seq<Frame>) {
    |got| <= |frames| &&
    forall k :: 0 <= k < |got| ==> frames[k].ciphertext.Sealed? && got[k] == frames[k].ciphertext.plaintext
  }

  ghost predicate Inv(l: Link) {
    && Crossed(l.server, l.client) && l.server.sendKey != l.server.recvKey
    && Numbered(l.fromServer, l.server.sendKey, S2C) && l.server.sendCounter == |l.fromServer|
    && Numbered(l.fromClient, l.client.sendKey, C2S) && l.client.sendCounter == |l.fromClient|
    && PrefixOf(l.atServer, l.fromClient) && l.server.recvCounter == |l.atServer|
    && PrefixOf(l.atClient, l.fromServer) && l.client.recvCounter == |l.atClient|
  }

  lemma SendKeepsNumbered(e: Endpoint, aad: string, p: Bytes, frames: seq<Frame>)
    requires Numbered(frames, e.sendKey, aad) && e.sendCounter == |frames|
    ensures
      var (e', f) := Send(e, aad, p);
      Numbered(Grow(frames, f), e.sendKey, aad) && e'.sendCounter == |Grow(frames, f)|
  {
  }

  /**
   A frame is accepted only if it is the next one the peer released: the ciphertext was released under this
   key, so it is one of the peer's, and its nonce says which.
   */
  lemma AcceptedIsNext(e: Endpoint, aad: string, f: Frame, frames: seq<Frame>, got: seq<Bytes>)
    requires Numbered(frames, e.recvKey, aad) && PrefixOf(got, frames) && e.recvCounter == |got|
    requires Receive(e, aad, f).1.Some?
    requires Released(frames, f.ciphertext)
    ensures |got| < |frames| && Receive(e, aad, f).1 == Some(frames[|got|].ciphertext.plaintext)
    ensures PrefixOf(got + [Receive(e, aad, f).1.value], frames)
  {
    var i :| 0 <= i < |frames| && frames[i].ciphertext == f.ciphertext;
    CounterNonceInjective(i, e.recvCounter);
  }

  lemma OtherDirectionIsRefused(e: Endpoint, aad: string, f: Frame, frames: seq<Frame>, key: Key, other: string)
    requires Numbered(frames, key, other) && (key != e.recvKey || other != aad) && Released(frames, f.ciphertext)
    ensures Receive(e, aad, f) == (e, None)
  {
  }

  lemma ReceiveKeepsPrefix(e: Endpoint, aad: string, f: Frame, frames: seq<Frame>, got: seq<Bytes>)
    requires Numbered(frames, e.recvKey, aad) && PrefixOf(got, frames) && e.recvCounter == |got|
    requires Receive(e, aad, f).1.Some? ==> Released(frames, f.ciphertext)
    ensures
      var (e', p) := Receive(e, aad, f);
      PrefixOf(Grow(got, p), frames) && e'.recvCounter == |Grow(got, p)|
  {
    if Receive(e, aad, f).1.Some? { AcceptedIsNext(e, aad, f, frames, got); }
  }

  lemma PrefixGrows(got: seq<Bytes>, frames: seq<Frame>, f: Option<Frame>)
    requires PrefixOf(got, frames)
    ensures PrefixOf(got, Grow(frames, f))
  {
  }

  lemma SendKeeps(l: Link, a: Action)
    requires Inv(l) && (a.ServerSends? || a.ClientSends?)
    ensures Inv(Apply(l, a))
  {
    if a.ServerSends? {
      SendKeepsNumbered(l.server, S2C, a.plaintext, l.fromServer);
      PrefixGrows(l.atClient, l.fromServer, Send(l.server, S2C, a.plaintext).1);
    } else {
      SendKeepsNumbered(l.client, C2S, a.plaintext, l.fromClient);
      PrefixGrows(l.atServer, l.fromClient, Send(l.client, C2S, a.plaintext).1);
    }
  }

  lemma DeliverKeeps(l: Link, a: Action)
    requires Inv(l) && (a.ToServer? || a.ToClient?) && CanInject(l, a.frame.ciphertext)
    ensures Inv(Apply(l, a))
  {
    if a.ToServer? {
      if Released(l.fromServer, a.frame.ciphertext) {
        OtherDirectionIsRefused(l.server, C2S, a.frame, l.fromServer, l.server.sendKey, S2C);
      }
      ReceiveKeepsPrefix(l.server, C2S, a.frame, l.fromClient, l.atServer);
    } else {
      if Released(l.fromClient, a.frame.ciphertext) {
        OtherDirectionIsRefused(l.client, S2C, a.frame, l.fromClient, l.client.sendKey, C2S);
      }
      ReceiveKeepsPrefix(l.client, S2C, a.frame, l.fromServer, l.atClient);
    }
  }

  lemma ApplyKeeps(l: Link, a: Action)
    requires Inv(l)
    ensures Inv(Apply(l, a))
  {
    if a.ServerSends? || a.ClientSends? {
      SendKeeps(l, a);
    } else if CanInject(l, a.frame.ciphertext) {
      DeliverKeeps(l, a);
    }
  }

  lemma {:induction false} ReplayKeeps(l: Link, actions: seq<Action>)
    requires Inv(l)
    ensures Inv(Replay(l, actions))
    decreases |actions|
  {
    if actions != [] {
      ReplayKeeps(l, actions[..|actions| - 1]);
      ApplyKeeps(Replay(l, actions[..|actions| - 1]), actions[|actions| - 1]);
    }
  }

  // ---- Theorems over every run ----

  ghost function Plaintexts(frames: seq<Frame>): seq<Bytes>
    requires forall k :: 0 <= k < |frames| ==> frames[k].ciphertext.Sealed?
  {
    seq(|frames|, k requires 0 <= k < |frames| => frames[k].ciphertext.plaintext)
  }

  /** Whatever the channel does, each side has accepted exactly a prefix of what the other released. */
  lemma AcceptedIsPrefixOfReleased(server: Endpoint, client: Endpoint, actions: seq<Action>)
    requires Established(server, client)
    ensures
      var l := Replay(Connect(server, client), actions);
      && (forall k :: 0 <= k < |l.fromClient| ==> l.fromClient[k].ciphertext.Sealed?)
      && (forall k :: 0 <= k < |l.fromServer| ==> l.fromServer[k].ciphertext.Sealed?)
      && l.atServer <= Plaintexts(l.fromClient)
      && l.atClient <= Plaintexts(l.fromServer)
  {
    ReplayKeeps(Connect(server, client), actions);
  }

  /** Released nonces are exactly 0, 1, ..., n-1 in each direction, and n never exceeds 2^64 - 1. */
  lemma ReleasedNoncesAreConsecutive(server: Endpoint, client: Endpoint, actions: seq<Action>)
    requires Established(server, client)
    ensures
      var l := Replay(Connect(server, client), actions);
      && |l.fromServer| == l.server.sendCounter && |l.fromClient| == l.client.sendCounter
      && (forall k :: 0 <= k < |l.fromServer| ==> l.fromServer[k].nonce == CounterNonce(k))
      && (forall k :: 0 <= k < |l.fromClient| ==> l.fromClient[k].nonce == CounterNonce(k))
  {
    ReplayKeeps(Connect(server, client), actions);
  }

  ghost predicate SameKeyAndNonce(f: Frame, g: Frame) {
    f.ciphertext.Sealed? && g.ciphertext.Sealed?
    && f.ciphertext.key == g.ciphertext.key && f.ciphertext.nonce == g.ciphertext.nonce
  }

  lemma NumberedHasNoRepeat(frames: seq<Frame>, key: Key, aad: string, i: nat, j: nat)
    requires Numbered(frames, key, aad) && i < |frames| && j < |frames| && SameKeyAndNonce(frames[i], frames[j])
    ensures i == j
  {
    CounterNonceInjective(i, j);
  }

  /** No (key, nonce) pair is ever released twice in a connection, in one direction or across the two. */
  lemma NoNonceReuse(server: Endpoint, client: Endpoint, actions: seq<Action>, i: nat, j: nat)
    requires Established(server, client)
    ensures
      var l := Replay(Connect(server, client), actions);
      && (i < |l.fromServer| && j < |l.fromServer| && SameKeyAndNonce(l.fromServer[i], l.fromServer[j]) ==> i == j)
      && (i < |l.fromClient| && j < |l.fromClient| && SameKeyAndNonce(l.fromClient[i], l.fromClient[j]) ==> i == j)
      && (i < |l.fromServer| && j < |l.fromClient| ==> !SameKeyAndNonce(l.fromServer[i], l.fromClient[j]))
  {
    ReplayKeeps(Connect(server, client), actions);
    var l := Replay(Connect(server, client), actions);
    if i < |l.fromServer| && j < |l.fromServer| && SameKeyAndNonce(l.fromServer[i], l.fromServer[j]) {
      NumberedHasNoRepeat(l.fromServer, l.server.sendKey, S2C, i, j);
    }
    if i < |l.fromClient| && j < |l.fromClient| && SameKeyAndNonce(l.fromClient[i], l.fromClient[j]) {
      NumberedHasNoRepeat(l.fromClient, l.client.sendKey, C2S, i, j);
    }
  }

  /** At the last counter value an end releases nothing more, in any continuation. */
  lemma {:induction false} ExhaustedSenderStaysSilent(l: Link, actions: seq<Action>)
    ensures
      var l' := Replay(l, actions);
      && (l.server.sendCounter == U64_MAX ==> l'.fromServer == l.fromServer && l'.server.sendCounter == U64_MAX)
      && (l.client.sendCounter == U64_MAX ==> l'.fromClient == l.fromClient && l'.client.sendCounter == U64_MAX)
    decreases |actions|
  {
    if actions != [] { ExhaustedSenderStaysSilent(l, actions[..|actions| - 1]); }
  }

  // ---- Delivery ----

  /** An end fed a list of frames: the plaintexts it accepts, and where it stands afterwards. */
  function ReceiveAll(e: Endpoint, aad: string, frames: seq<Frame>): (Endpoint, seq<Bytes>)
    decreases |frames|
  {
    if frames == [] then (e, [])
    else
      var (e1, p) := Receive(e, aad, frames[0]);
      var (e2, ps) := ReceiveAll(e1, aad, frames[1..]);
      (e2, if p == None then ps else [p.value] + ps)
  }

  /** The frame carries the awaited nonce and opens under the receive key: neither numbered wrongly nor forged. */
  predicate Acceptable(e: Endpoint, aad: string, f: Frame) {
    && e.recvCounter < U64_MAX && f.nonce == CounterNonce(e.recvCounter)
    && Open(e.recvKey, f.ciphertext, aad, f.nonce).Some?
  }

  /** Refused frames change nothing, so an end waits: however many arrive, forged or wrongly numbered, it stays put. */
  lemma {:induction false} EndWaitsForItsCounter(e: Endpoint, aad: string, frames: seq<Frame>, rest: seq<Frame>)
    requires forall k :: 0 <= k < |frames| ==> !Acceptable(e, aad, frames[k])
    ensures ReceiveAll(e, aad, frames + rest) == ReceiveAll(e, aad, rest)
    decreases |frames|
  {
    if frames == [] {
      assert frames + rest == rest;
    } else {
      EndWaitsForItsCounter(e, aad, frames[1..], rest);
      assert (frames + rest)[0] == frames[0] && (frames + rest)[1..] == frames[1..] + rest;
    }
  }

  lemma ReceiveOne(e: Endpoint, aad: string, f: Frame)
    requires Acceptable(e, aad, f)
    ensures ReceiveAll(e, aad, [f]) == (e.(recvCounter := e.recvCounter + 1), [f.ciphertext.plaintext])
  {
    var (e1, p) := Receive(e, aad, f);
    var rest := [f][1..];
    assert rest == [] && ReceiveAll(e1, aad, rest) == (e1, []);
    assert p == Some(f.ciphertext.plaintext) && [p.value] + [] == [p.value];
  }

  /** After any frames that are refused, the awaited one is still accepted. */
  lemma ResentFrameIsAccepted(e: Endpoint, aad: string, frames: seq<Frame>, awaited: Frame)
    requires forall k :: 0 <= k < |frames| ==> !Acceptable(e, aad, frames[k])
    requires Acceptable(e, aad, awaited)
    ensures ReceiveAll(e, aad, frames + [awaited]) ==
            (e.(recvCounter := e.recvCounter + 1), [awaited.ciphertext.plaintext])
  {
    EndWaitsForItsCounter(e, aad, frames, [awaited]);
    ReceiveOne(e, aad, awaited);
  }

  /** An accepted frame is, nonce and all, the peer's frame with the awaited number. */
  lemma OnlyTheNextFrameIsAccepted(e: Endpoint, aad: string, f: Frame, frames: seq<Frame>, got: seq<Bytes>)
    requires Numbered(frames, e.recvKey, aad) && PrefixOf(got, frames) && e.recvCounter == |got|
    requires Receive(e, aad, f).1.Some? && Released(frames, f.ciphertext)
    ensures |got| < |frames| && f == frames[|got|]
  {
    var i :| 0 <= i < |frames| && frames[i].ciphertext == f.ciphertext;
    CounterNonceInjective(i, e.recvCounter);
  }

  lemma TheNextFrameIsAccepted(e: Endpoint, aad: string, frames: seq<Frame>, n: nat)
    requires Numbered(frames, e.recvKey, aad) && e.recvCounter == n < |frames|
    ensures Receive(e, aad, frames[n]).1 == Some(frames[n].ciphertext.plaintext)
  {
  }

  lemma TheNextFrameReachesTheServer(l: Link)
    requires Inv(l) && |l.atServer| < |l.fromClient|
    ensures
      var next := l.fromClient[|l.atServer|];
      next.ciphertext.Sealed? && Apply(l, ToServer(next)).atServer == l.atServer + [next.ciphertext.plaintext]
  {
    TheNextFrameIsAccepted(l.server, C2S, l.fromClient, |l.atServer|);
  }

  lemma TheNextFrameReachesTheClient(l: Link)
    requires Inv(l) && |l.atClient| < |l.fromServer|
    ensures
      var next := l.fromServer[|l.atClient|];
      next.ciphertext.Sealed? && Apply(l, ToClient(next)).atClient == l.atClient + [next.ciphertext.plaintext]
  {
    TheNextFrameIsAccepted(l.client, S2C, l.fromServer, |l.atClient|);
  }

  /** Whatever is delivered to the server moves it only if it is the client's next frame. */
  lemma ServerStep(l: Link, f: Frame)
    requires Inv(l) && Apply(l, ToServer(f)) != l
    ensures |l.atServer| < |l.fromClient| && f == l.fromClient[|l.atServer|]
  {
    assert Receive(l.server, C2S, f).1.Some?;
    if Released(l.fromServer, f.ciphertext) {
      OtherDirectionIsRefused(l.server, C2S, f, l.fromServer, l.server.sendKey, S2C);
    }
    OnlyTheNextFrameIsAccepted(l.server, C2S, f, l.fromClient, l.atServer);
  }

  lemma ClientStep(l: Link, f: Frame)
    requires Inv(l) && Apply(l, ToClient(f)) != l
    ensures |l.atClient| < |l.fromServer| && f == l.fromServer[|l.atClient|]
  {
    assert Receive(l.client, S2C, f).1.Some?;
    if Released(l.fromClient, f.ciphertext) {
      OtherDirectionIsRefused(l.client, S2C, f, l.fromClient, l.client.sendKey, C2S);
    }
    OnlyTheNextFrameIsAccepted(l.client, S2C, f, l.fromServer, l.atClient);
  }

  /** The run delivers `f` to the server. */
  ghost predicate DeliversToServer(actions: seq<Action>, f: Frame) {
    exists k :: 0 <= k < |actions| && actions[k] == ToServer(f)
  }

  ghost predicate DeliversToClient(actions: seq<Action>, f: Frame) {
    exists k :: 0 <= k < |actions| && actions[k] == ToClient(f)
  }

  lemma DeliversPrefix(actions: seq<Action>, f: Frame)
    requires actions != []
    ensures DeliversToServer(actions[..|actions| - 1], f) ==> DeliversToServer(actions, f)
    ensures DeliversToClient(actions[..|actions| - 1], f) ==> DeliversToClient(actions, f)
    ensures actions[|actions| - 1] == ToServer(f) ==> DeliversToServer(actions, f)
    ensures actions[|actions| - 1] == ToClient(f) ==> DeliversToClient(actions, f)
  {
    var init := actions[..|actions| - 1];
    if DeliversToServer(init, f) {
      var k :| 0 <= k < |init| && init[k] == ToServer(f);
      assert actions[k] == ToServer(f);
    }
    if DeliversToClient(init, f) {
      var k :| 0 <= k < |init| && init[k] == ToClient(f);
      assert actions[k] == ToClient(f);
    }
  }

  /** Frames released stay released, in place. */
  lemma ReleasedGrows(l: Link, a: Action)
    ensures l.fromServer <= Apply(l, a).fromServer && l.fromClient <= Apply(l, a).fromClient
  {
  }

  /**
   Whatever else the attacker does, the server stands still until the client's next frame itself is delivered,
   and delivering it then is accepted.
   */
  lemma {:induction false} ServerWaitsForTheNextFrame(l: Link, actions: seq<Action>)
    requires Inv(l)
    requires var sent := Replay(l, actions).fromClient;
      |l.atServer| < |sent| ==> !DeliversToServer(actions, sent[|l.atServer|])
    ensures
      var l' := Replay(l, actions);
      && l'.atServer == l.atServer && l'.server.recvCounter == l.server.recvCounter
      && (|l.atServer| < |l'.fromClient| ==>
            var next := l'.fromClient[|l.atServer|];
            && next.ciphertext.Sealed?
            && Apply(l', ToServer(next)).atServer == l.atServer + [next.ciphertext.plaintext])
    decreases |actions|
  {
    ReplayKeeps(l, actions);
    var l' := Replay(l, actions);
    if actions != [] {
      var init, a := actions[..|actions| - 1], actions[|actions| - 1];
      var mid := Replay(l, init);
      ReleasedGrows(mid, a);
      if |l.atServer| < |l'.fromClient| { DeliversPrefix(actions, l'.fromClient[|l.atServer|]); }
      ServerWaitsForTheNextFrame(l, init);
      ReplayKeeps(l, init);
      if a.ToServer? && l' != mid { ServerStep(mid, a.frame); }
    }
    if |l'.atServer| < |l'.fromClient| { TheNextFrameReachesTheServer(l'); }
  }

  /** The same for the client. */
  lemma {:induction false} ClientWaitsForTheNextFrame(l: Link, actions: seq<Action>)
    requires Inv(l)
    requires var sent := Replay(l, actions).fromServer;
      |l.atClient| < |sent| ==> !DeliversToClient(actions, sent[|l.atClient|])
    ensures
      var l' := Replay(l, actions);
      && l'.atClient == l.atClient && l'.client.recvCounter == l.client.recvCounter
      && (|l.atClient| < |l'.fromServer| ==>
            var next := l'.fromServer[|l.atClient|];
            && next.ciphertext.Sealed?
            && Apply(l', ToClient(next)).atClient == l.atClient + [next.ciphertext.plaintext])
    decreases |actions|
  {
    ReplayKeeps(l, actions);
    var l' := Replay(l, actions);
    if actions != [] {
      var init, a := actions[..|actions| - 1], actions[|actions| - 1];
      var mid := Replay(l, init);
      ReleasedGrows(mid, a);
      if |l.atClient| < |l'.fromServer| { DeliversPrefix(actions, l'.fromServer[|l.atClient|]); }
      ClientWaitsForTheNextFrame(l, init);
      ReplayKeeps(l, init);
      if a.ToClient? && l' != mid { ClientStep(mid, a.frame); }
    }
    if |l'.atClient| < |l'.fromServer| { TheNextFrameReachesTheClient(l'); }
  }

  /** Frames sealed by the peer from the awaited counter on, delivered in order, are all accepted. */
  lemma {:induction false} InOrderIsAccepted(e: Endpoint, aad: string, frames: seq<Frame>, plain: seq<Bytes>)
    requires |frames| == |plain| && e.recvCounter + |frames| <= U64_MAX
    requires forall k :: 0 <= k < |frames| ==>
      frames[k] ==
      Frame(Sealed(e.recvKey, CounterNonce(e.recvCounter + k), aad, plain[k]), CounterNonce(e.recvCounter + k))
    ensures ReceiveAll(e, aad, frames) == (e.(recvCounter := e.recvCounter + |frames|), plain)
    decreases |frames|
  {
    if frames != [] {
      assert frames[0].nonce == CounterNonce(e.recvCounter);
      var e1 := Receive(e, aad, frames[0]).0;
      forall k | 0 <= k < |frames| - 1
        ensures frames[1..][k] == Frame(Sealed(e1.recvKey, CounterNonce(e1.recvCounter + k), aad, plain[1..][k]),
                                        CounterNonce(e1.recvCounter + k))
      {
        assert frames[1..][k] == frames[k + 1] && e1.recvCounter + k == e.recvCounter + (k + 1);
      }
      InOrderIsAccepted(e1, aad, frames[1..], plain[1..]);
      assert [plain[0]] + plain[1..] == plain;
    }
  }
}
