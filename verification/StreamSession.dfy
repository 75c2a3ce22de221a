/**
 Per-connection transport encryption: key agreement, direction-separated keys and counter nonces.
 Ciphertexts and derived keys are symbolic terms, so an attacker can move them but not make new ones.
 */
module StreamSession {
  import opened Common
  import opened X25519Keys

  type U64 = n: int | 0 <= n <= U64_MAX

  const NONCE_LEN: nat := 12
  const C2S: string := "c2s"
  const S2C: string := "s2c"
  const HKDF_INFO_CLIENT_TO_SERVER: string := "encryptr chat-stream v1 c2s"
  const HKDF_INFO_SERVER_TO_CLIENT: string := "encryptr chat-stream v1 s2c"

  /** An HKDF output, by what it was derived from. */
  datatype Key = Okm(salt: Bytes, secret: Bytes, info: string)

  /** An AEAD ciphertext: sealed by someone holding the key, or any other bytes. */
  datatype Ciphertext =
    | Sealed(key: Key, nonce: Bytes, aad: string, plaintext: Bytes)
    | Garbage(bytes: Bytes)

  datatype Frame = Frame(ciphertext: Ciphertext, nonce: Bytes)

  function Open(key: Key, ciphertext: Ciphertext, aad: string, nonce: Bytes): Option<Bytes> {
    if ciphertext.Sealed? && ciphertext.key == key && ciphertext.nonce == nonce && ciphertext.aad == aad
    then Some(ciphertext.plaintext)
    else None
  }

  // ---- Counter nonces ----

  function BigEndian(n: nat, width: nat): Bytes {
    if width == 0 then [] else BigEndian(n / 256, width - 1) + [n % 256]
  }

  /** Four zero bytes, then the counter in big-endian order. */
  function CounterNonce(counter: U64): (nonce: Bytes) {
    [0, 0, 0, 0] + BigEndian(counter, 8)
  }

  lemma {:induction false} BigEndianLength(n: nat, width: nat)
    ensures |BigEndian(n, width)| == width
  {
    if width > 0 { BigEndianLength(n / 256, width - 1); }
  }

  lemma {:induction false} BigEndianInjective(m: nat, n: nat, width: nat)
    requires m < Power256(width) && n < Power256(width) && BigEndian(m, width) == BigEndian(n, width)
    ensures m == n
  {
    if width > 0 {
      var a, b := BigEndian(m, width), BigEndian(n, width);
      BigEndianLength(m / 256, width - 1);
      BigEndianLength(n / 256, width - 1);
      assert a[width - 1] == m % 256 && b[width - 1] == n % 256;
      assert a[..width - 1] == BigEndian(m / 256, width - 1) && b[..width - 1] == BigEndian(n / 256, width - 1);
      BigEndianInjective(m / 256, n / 256, width - 1);
    }
  }

  /** No two counters share a nonce. */
  lemma CounterNonceInjective(m: U64, n: U64)
    ensures |CounterNonce(m)| == NONCE_LEN
    ensures CounterNonce(m) == CounterNonce(n) ==> m == n
  {
    BigEndianLength(m, 8);
    if CounterNonce(m) == CounterNonce(n) {
      assert CounterNonce(m)[4..] == BigEndian(m, 8) && CounterNonce(n)[4..] == BigEndian(n, 8);
      assert Power256(4) == 0x1_0000_0000 && Power256(8) == U64_MAX + 1;
      BigEndianInjective(m, n, 8);
    }
  }

  function BigEndianValue(b: Bytes): nat {
    if b == [] then 0 else 256 * BigEndianValue(b[..|b| - 1]) + b[|b| - 1]
  }

  lemma {:induction false} ValueOfBigEndian(zeros: Bytes, n: nat, width: nat)
    requires BigEndianValue(zeros) == 0 && n < Power256(width)
    ensures BigEndianValue(zeros + BigEndian(n, width)) == n
  {
    var b := zeros + BigEndian(n, width);
    if width == 0 {
      assert b == zeros;
    } else {
      ValueOfBigEndian(zeros, n / 256, width - 1);
      assert b == zeros + BigEndian(n / 256, width - 1) + [n % 256];
      assert b[..|b| - 1] == zeros + BigEndian(n / 256, width - 1);
    }
  }

  /** The nonce is the counter itself, as a 12-byte big-endian number. */
  lemma CounterNonceValue(n: U64)
    ensures BigEndianValue(CounterNonce(n)) == n
  {
    assert [0, 0, 0, 0][..3] == [0, 0, 0] && [0, 0, 0][..2] == [0, 0] && [0, 0][..1] == [0] && [0][..0] == [];
    assert BigEndianValue([0]) == 0 && BigEndianValue([0, 0]) == 0 && BigEndianValue([0, 0, 0]) == 0;
    assert Power256(4) == 0x1_0000_0000 && Power256(8) == U64_MAX + 1;
    ValueOfBigEndian([0, 0, 0, 0], n, 8);
  }

  /** A ciphertext opens exactly under the key, nonce and label it was sealed under. */
  lemma OpenIff(key: Key, ciphertext: Ciphertext, aad: string, nonce: Bytes, plaintext: Bytes)
    ensures Open(key, ciphertext, aad, nonce) == Some(plaintext) <==> ciphertext == Sealed(key, nonce, aad, plaintext)
  {
  }

  // ---- One end of a session ----

  datatype Endpoint = Endpoint(recvKey: Key, sendKey: Key, recvCounter: U64, sendCounter: U64)

  /** Seal the next frame. The counter is only advanced, and the frame only released, below the last value. */
  function Send(e: Endpoint, aad: string, plaintext: Bytes): (Endpoint, Option<Frame>) {
    if e.sendCounter == U64_MAX then (e, None)
    else
      var nonce := CounterNonce(e.sendCounter);
      (e.(sendCounter := e.sendCounter + 1), Some(Frame(Sealed(e.sendKey, nonce, aad, plaintext), nonce)))
  }

  /** Accept a frame only if it carries the next nonce and opens under the receive key. */
  function Receive(e: Endpoint, aad: string, f: Frame): (Endpoint, Option<Bytes>) {
    if f.nonce != CounterNonce(e.recvCounter) then (e, None)
    else
      var plain := Open(e.recvKey, f.ciphertext, aad, f.nonce);
      if plain == None || e.recvCounter == U64_MAX then (e, None)
      else (e.(recvCounter := e.recvCounter + 1), plain)
  }

  /** What one end seals, the end in step with it opens, and both move on; the label must match. */
  lemma SendThenReceive(sender: Endpoint, receiver: Endpoint, aad: string, expected: string, plaintext: Bytes)
    requires sender.sendKey == receiver.recvKey && sender.sendCounter == receiver.recvCounter < U64_MAX
    ensures
      var (sender', frame) := Send(sender, aad, plaintext);
      && frame.Some? && sender' == sender.(sendCounter := sender.sendCounter + 1)
      && Receive(receiver, expected, frame.value) ==
         if expected == aad then (receiver.(recvCounter := receiver.recvCounter + 1), Some(plaintext))
         else (receiver, None)
  {
  }

  // ---- Key agreement ----

  /** A Diffie-Hellman group: public keys and shared secrets as the library computes them. */
  datatype Group = Group(publicOf: nat -> Bytes, shared: (nat, Bytes) -> Bytes)

  ghost predicate Commutes(g: Group) {
    forall a: nat, b: nat :: g.shared(a, g.publicOf(b)) == g.shared(b, g.publicOf(a))
  }

  predicate Contributory(secret: Bytes) {
    exists i :: 0 <= i < |secret| && secret[i] != 0
  }

  /** The session's two keys: `salt` is the server's public key followed by the client's. */
  function C2sKey(salt: Bytes, secret: Bytes): Key {
    Okm(salt, secret, HKDF_INFO_CLIENT_TO_SERVER)
  }

  function S2cKey(salt: Bytes, secret: Bytes): Key {
    Okm(salt, secret, HKDF_INFO_SERVER_TO_CLIENT)
  }

  /** The server end, from its own secret and the bytes the client sent. */
  function ServerEnd(g: Group, secret: nat, clientPublic: Bytes): Option<Endpoint> {
    var dh := g.shared(secret, clientPublic);
    if !ValidKey(clientPublic) || !Contributory(dh) then None
    else
      var salt := g.publicOf(secret) + clientPublic;
      Some(Endpoint(C2sKey(salt, dh), S2cKey(salt, dh), 0, 0))
  }

  /** The client end, from its own secret and the bytes the server sent. */
  function ClientEnd(g: Group, secret: nat, serverPublic: Bytes): Option<Endpoint> {
    var dh := g.shared(secret, serverPublic);
    if !ValidKey(serverPublic) || !Contributory(dh) then None
    else
      var salt := serverPublic + g.publicOf(secret);
      Some(Endpoint(S2cKey(salt, dh), C2sKey(salt, dh), 0, 0))
  }

  predicate AllZero(b: Bytes) {
    forall i :: 0 <= i < |b| ==> b[i] == 0
  }

  /** A handshake completes exactly on 32 bytes that encode no small-order point and give a non-zero secret. */
  lemma HandshakeCompletesIff(g: Group, secret: nat, peer: Bytes)
    ensures ServerEnd(g, secret, peer).Some? <==>
      |peer| == 32 && !SmallOrderResidue(UCoordinate(peer)) && !AllZero(g.shared(secret, peer))
    ensures ClientEnd(g, secret, peer).Some? <==> ServerEnd(g, secret, peer).Some?
  {
  }

  /** Which key is which: the server's public key comes first in the salt, and the info names the direction. */
  lemma HandshakeKeys(g: Group, secret: nat, peer: Bytes)
    ensures
      var own, dh, server := g.publicOf(secret), g.shared(secret, peer), ServerEnd(g, secret, peer);
      server.Some? ==>
        && server.value.recvKey == Okm(own + peer, dh, "encryptr chat-stream v1 c2s")
        && server.value.sendKey == Okm(own + peer, dh, "encryptr chat-stream v1 s2c")
    ensures
      var own, dh, client := g.publicOf(secret), g.shared(secret, peer), ClientEnd(g, secret, peer);
      client.Some? ==>
        && client.value.sendKey == Okm(peer + own, dh, "encryptr chat-stream v1 c2s")
        && client.value.recvKey == Okm(peer + own, dh, "encryptr chat-stream v1 s2c")
  {
  }

  /** Two ends that can talk: what one sends under, the other receives under. */
  ghost predicate Crossed(server: Endpoint, client: Endpoint) {
    server.recvKey == client.sendKey && server.sendKey == client.recvKey
  }

  /** Handshake mirror: ends that exchanged their public keys hold crossed keys, by commutativity alone. */
  lemma HandshakeMirror(g: Group, s: nat, c: nat)
    requires Commutes(g)
    ensures
      var server, client := ServerEnd(g, s, g.publicOf(c)), ClientEnd(g, c, g.publicOf(s));
      && (ValidKey(g.publicOf(s)) && ValidKey(g.publicOf(c)) ==> (server.Some? <==> client.Some?))
      && (server.Some? && client.Some? ==>
            && Crossed(server.value, client.value) && server.value.sendKey != server.value.recvKey
            && server.value.recvCounter == server.value.sendCounter == 0
            && client.value.recvCounter == client.value.sendCounter == 0)
  {
    assert g.shared(s, g.publicOf(c)) == g.shared(c, g.publicOf(s));
    assert HKDF_INFO_CLIENT_TO_SERVER[24] != HKDF_INFO_SERVER_TO_CLIENT[24];
  }

  /** Keys bind the transcript: server ends with a key in common agreed on both public keys and on the secret. */
  lemma KeysBindTranscript(g: Group, s: nat, s': nat, c: Bytes, c': Bytes)
    requires |g.publicOf(s)| == |g.publicOf(s')| == PUBLIC_KEY_LEN
    requires ServerEnd(g, s, c).Some? && ServerEnd(g, s', c').Some?
    requires
      var e, e' := ServerEnd(g, s, c).value, ServerEnd(g, s', c').value;
      {e.recvKey, e.sendKey} * {e'.recvKey, e'.sendKey} != {}
    ensures g.publicOf(s) == g.publicOf(s') && c == c' && g.shared(s, c) == g.shared(s', c')
    ensures
      var e, e' := ServerEnd(g, s, c).value, ServerEnd(g, s', c').value;
      e.recvKey == e'.recvKey && e.sendKey == e'.sendKey && e.recvKey != e'.sendKey
  {
    assert HKDF_INFO_CLIENT_TO_SERVER[24] != HKDF_INFO_SERVER_TO_CLIENT[24];
    var salt, salt' := g.publicOf(s) + c, g.publicOf(s') + c';
    assert salt == salt';
    assert g.publicOf(s) == salt[..PUBLIC_KEY_LEN] && g.publicOf(s') == salt'[..PUBLIC_KEY_LEN];
    assert c == salt[PUBLIC_KEY_LEN..] && c' == salt'[PUBLIC_KEY_LEN..];
  }

  // ---- The session object ----

  class Session {
    const recvKey: Key
    const sendKey: Key
    var recvCounter: U64
    var sendCounter: U64

    ghost function End(): Endpoint
      reads this
    {
      Endpoint(recvKey, sendKey, recvCounter, sendCounter)
    }

    constructor (recvKey: Key, sendKey: Key)
      ensures End() == Endpoint(recvKey, sendKey, 0, 0)
    {
      this.recvKey, this.sendKey := recvKey, sendKey;
      recvCounter, sendCounter := 0, 0;
    }

    /** Seals before it advances: at the last counter value the sealed frame is dropped, not released. */
    method SealNext(aad: string, plaintext: Bytes) returns (frame: Option<Frame>)
      modifies this
      ensures (End(), frame) == Send(old(End()), aad, plaintext)
    {
      var nonce := CounterNonce(sendCounter);
      var ciphertext := Sealed(sendKey, nonce, aad, plaintext);
      if sendCounter == U64_MAX {
        return None;
      }
      sendCounter := sendCounter + 1;
      frame := Some(Frame(ciphertext, nonce));
    }

    method OpenNext(aad: string, frame: Frame) returns (plaintext: Option<Bytes>)
      modifies this
      ensures (End(), plaintext) == Receive(old(End()), aad, frame)
    {
      var expected := CounterNonce(recvCounter);
      if frame.nonce != expected {
        return None;
      }
      var plain := Open(recvKey, frame.ciphertext, aad, frame.nonce);
      if plain == None {
        return None;
      }
      if recvCounter == U64_MAX {
        return None;
      }
      recvCounter := recvCounter + 1;
      plaintext := plain;
    }

    /** Server to client. */
    method Encrypt(plaintext: Bytes) returns (frame: Option<Frame>)
      modifies this
      ensures (End(), frame) == Send(old(End()), S2C, plaintext)
      ensures frame.Some? <==> old(sendCounter) < U64_MAX
    {
      frame := SealNext(S2C, plaintext);
    }

    /** Client to server. */
    method Decrypt(frame: Frame) returns (plaintext: Option<Bytes>)
      modifies this
      ensures (End(), plaintext) == Receive(old(End()), C2S, frame)
      ensures plaintext == None ==> End() == old(End())
    {
      plaintext := OpenNext(C2S, frame);
    }

    method EncryptClient(plaintext: Bytes) returns (frame: Option<Frame>)
      modifies this
      ensures (End(), frame) == Send(old(End()), C2S, plaintext)
      ensures frame.Some? <==> old(sendCounter) < U64_MAX
    {
      frame := SealNext(C2S, plaintext);
    }

    method DecryptClient(frame: Frame) returns (plaintext: Option<Bytes>)
      modifies this
      ensures (End(), plaintext) == Receive(old(End()), S2C, frame)
      ensures plaintext == None ==> End() == old(End())
    {
      plaintext := OpenNext(S2C, frame);
    }
  }

  /** `Handshake::complete`: the salt and both keys are filled in step by step. */
  method CompleteHandshake(g: Group, secret: nat, clientPublic: Bytes) returns (session: Session?)
    ensures session == null <==> ServerEnd(g, secret, clientPublic) == None
    ensures session != null ==> fresh(session) && ServerEnd(g, secret, clientPublic) == Some(session.End())
  {
    var clientKey := Validate(clientPublic);
    if clientKey == None {
      return null;
    }
    var shared := g.shared(secret, clientKey.value);
    if !Contributory(shared) {
      return null;
    }
    var salt: Bytes := [];
    salt := salt + g.publicOf(secret);
    salt := salt + clientKey.value;
    var recvKey := Okm(salt, shared, HKDF_INFO_CLIENT_TO_SERVER);
    var sendKey := Okm(salt, shared, HKDF_INFO_SERVER_TO_CLIENT);
    session := new Session(recvKey, sendKey);
    assert [] + g.publicOf(secret) == g.publicOf(secret);
  }

  /** `StreamSession::client_side`: the same derivation with the directions swapped. */
  method ClientSide(g: Group, secret: nat, serverPublic: Bytes) returns (session: Session?)
    ensures session == null <==> ClientEnd(g, secret, serverPublic) == None
    ensures session != null ==> fresh(session) && ClientEnd(g, secret, serverPublic) == Some(session.End())
  {
    var serverKey := Validate(serverPublic);
    if serverKey == None {
      return null;
    }
    var shared := g.shared(secret, serverKey.value);
    if !Contributory(shared) {
      return null;
    }
    var salt: Bytes := [];
    salt := salt + serverKey.value;
    salt := salt + g.publicOf(secret);
    var sendKey := Okm(salt, shared, HKDF_INFO_CLIENT_TO_SERVER);
    var recvKey := Okm(salt, shared, HKDF_INFO_SERVER_TO_CLIENT);
    session := new Session(recvKey, sendKey);
    assert [] + serverKey.value == serverKey.value;
  }
}
