# Verified model of the encryptr server core

This project models the stateful core of the encryptr chat server in Dafny and proves what that core promises:

- refresh-token rotation as a concurrent protocol over the `sessions` and `refresh_tokens` tables;
- the encrypted stream session (key agreement, direction keys, counter nonces) over a hostile channel;
- the chat socket that sits on it: handshake, prompt loop, one encrypted turn;
- the incremental line splitter and the three provider pumps that feed a turn;
- the fixed-window rate limiter with its bounded, swept map;
- the X25519 blocklist against the arithmetic of section 5 of RFC 7748;
- the per-user store of conversations, messages and keys.

Check everything with `dafny verify dfyconfig.toml`.

## Layout

| file | contents |
|---|---|
| `Common.dfy` | options, bytes |
| `SessionTables.dfy`, `Rotation.dfy`, `RotationTheorems.dfy`, `SessionHistory.dfy`, `AuthService.dfy` | the tables and their statements; calls as interleaved processes and the inductive invariant; whole-run theorems; what every revocation, token and pair is traced back to; the repository and the flows as imperative code |
| `X25519Keys.dfy`, `StreamSession.dfy`, `HostileChannel.dfy` | key validation; one session end; two ends and an attacker |
| `LineSplitter.dfy`, `Providers.dfy`, `Pumps.dfy`, `ProviderLines.dfy` | the buffered splitter against a one-shot split; line parsers; the pump loops; what each vendor's lines mean over the JSON |
| `ChatStream.dfy`, `ChatTheorems.dfy`, `ChatAnswers.dfy` | the socket state machine; its whole-run and end-to-end theorems; exactly how each message is answered |
| `RateLimiter.dfy` | the limiter, the sliding bound, and the simple limiter, defined by counting, that it refines |
| `UserStore.dfy`, `StoreLaws.dfy`, `StoreRuns.dfy` | the store and its operations; what each writes and leaves alone; calls interleaved statement by statement, separation of users |
| `ServerTheorems.dfy` | the socket joined to the session tables and to the limiter |

Code that the server runs by changing state is a class or a method whose postcondition ties the new state to a
function of the old one; the theorems are about those functions and about all lists of steps built from them.

## Modelling choices

- A SQL statement (for `revoke_session`, its transaction) is one atomic step, in the session tables and in the store.
  A run is any list of actions: start a call, run one statement of a call, lose the reply of a statement that
  committed, or let a call die. Clock readings, random ids and token hashes come from outside with each statement. In
  the session tables they are unconstrained; in the store, random ids do not repeat within a run. A refresh token is
  identified with its hash. A valid access token is the session id it names.
- AEAD, HKDF and Diffie-Hellman are symbolic: a ciphertext is a term naming its key, nonce, label and plaintext,
  a derived key a term naming its salt, secret and info. Sealing never fails. The only law used of the group is
  commutativity.
- UTF-8 decoding, JSON parsing and the error summary are arbitrary functions; the branching of the three
  `parse_line` functions over the parsed value is modelled. One fact about lossy decoding is used, for Ollama's final
  newline only: it turns no bytes, and only no bytes, into the empty string.
- The OpenAI and Anthropic pumps have the same loop and share one model, with their own parser and closing message.
  A receiver that goes away is a number of items after which sends fail.
- Limiter calls run one after another under a clock that does not run backwards. A window's count never exceeds the
  budget (or 1), so the 32-bit counter cannot overflow.
- Listings are given as the rows they range over, plus the page size for messages; the order and the cut are the
  database's.

Where the source's comments and its code disagree, the code is followed:

- The comments on the blocklist in `src/crypto/keys.rs` give orders 1, 2 and 4 to its entries. By the doubling
  formula 0 takes one doubling to the point at infinity, 1 and p-1 take two, and the two long constants take three
  (`ListedResiduesHaveSmallOrder`).
- "A revoked session has only revoked tokens" is what `revoke_session` writes, but it is not an invariant:
  `RevokedSessionMayHoldAnUnrevokedToken` gives the run, and `TokensStayRevokedIff` the exact condition: it holds from
  a state on if and only if it holds there and no call is about to insert for the session or to win an un-rotated
  token of it. `RevocationIsFinalIff` says by the same guard when the session gains no further token at all.

## Model

| member | source | states |
|---|---|---|
| SessionTables.FindTokenIs | src/repositories/sessions.rs:78-90 | with unique hashes, the lookup by hash returns the one row that has it |
| SessionTables.CreateSessionIsScoped | src/repositories/sessions.rs:9-27 | succeeds exactly on an unused id, adds an active session of the user, and changes no other row |
| SessionTables.InsertTokenIsScoped | src/repositories/sessions.rs:55-76 | succeeds exactly within the key, foreign key and unique hash constraints, adds a live row as given, and changes no other |
| SessionTables.MarkRotatedIsScoped | src/repositories/sessions.rs:97-105 | sets one column of one row, once, and reports exactly that; everything else is unchanged |
| SessionTables.RevokeSessionIsScoped | src/repositories/sessions.rs:39-53 | marks the session and its tokens where not yet marked, with the time; every other session and every other session's tokens are unchanged |
| SessionTables.CreateSessionKeeps | src/repositories/sessions.rs:9-27 | inserting a session keeps foreign keys, unique hashes and "a revoked token's session is revoked" |
| SessionTables.InsertTokenKeeps | src/repositories/sessions.rs:55-76 | the same for inserting a refresh token |
| SessionTables.MarkRotatedKeeps | src/repositories/sessions.rs:97-105 | the same for consuming a token |
| SessionTables.RevokeSessionKeeps | src/repositories/sessions.rs:39-53 | the same for the two updates of the revocation transaction |
| Rotation.StepExtends | src/services/auth.rs:59-212 | no statement of any call loses a row, changes an identity column or clears a mark |
| Rotation.StepKeepsTables | src/services/auth.rs:59-212 | every statement of every call keeps the table invariants |
| Rotation.UnrotatedIsLast | src/repositories/sessions.rs:97-105 | an un-rotated token is the last of its session's chain |
| Rotation.StepKeepsChains | src/services/auth.rs:191-205 | every statement keeps "the tokens of each session are one chain, all but the last rotated" |
| Rotation.IssuerMeansAllRotated | src/services/auth.rs:143-159 | while a call is about to insert a token for a session, every token of the session is rotated |
| Rotation.NewIssuerIsAlone | src/services/auth.rs:143-159 | a call that wins `mark_rotated` (or creates a session) does so for a session nobody else is minting for |
| Rotation.ApplyKeeps | src/services/auth.rs:59-212 | every action (start, statement, lost reply, death) keeps the whole invariant |
| Rotation.ReplayKeeps | src/services/auth.rs:59-212 | so every interleaving of any number of calls does |
| RotationTheorems.AtMostOneLiveCredential | src/services/auth.rs:120-171 | in every reachable state, un-rotated tokens plus calls that consumed or created but have not inserted number at most one per session |
| RotationTheorems.TokensFormOneChain | src/services/auth.rs:120-171 | the tokens of a session are exactly one chain, each minted by consuming the one before |
| RotationTheorems.AtMostOnePairPerToken | src/repositories/sessions.rs:92-105 | however many refreshes present one token, at most one is answered with a pair |
| RotationTheorems.RefusalLeavesSessionRevoked | src/services/auth.rs:125-157 | a refresh refused for anything but an unknown or expired token leaves that token's session revoked |
| RotationTheorems.ReuseIsDetected | src/services/auth.rs:130-157 | a refresh begun once its token is rotated ends only in detected reuse with the session revoked, or in a database error |
| RotationTheorems.RevokedSessionIsNeverAccepted | src/repositories/sessions.rs:29-53 | once a session is revoked, no call that is not already past its activity check ever obtains a pair or an acceptance for it |
| RotationTheorems.NothingAcceptsARevokedSession | src/middleware/auth.rs:45-55 | every call begun after the revocation that presents the session's id or any refresh token of it, even one minted later, is refused or fails |
| RotationTheorems.RevokedRun | src/services/auth.rs:135-159 | over any run after a revocation the chain grows by at most one link, and only if somebody was in flight, who then no longer is |
| RotationTheorems.AtMostOneMintAfterRevocation | src/services/auth.rs:135-159 | at most one token is ever added to a revoked session, however many refreshes were in flight |
| RotationTheorems.RevocationIsFinalIff | src/services/auth.rs:143-159 | a revoked session never gains a token if and only if no call is about to insert for it or about to win an un-rotated token of it |
| RotationTheorems.TokensStayRevokedIff | src/repositories/sessions.rs:39-53 | all tokens of a revoked session are revoked in every continuation if and only if they are now and no call is in flight for it |
| RotationTheorems.RevokedSessionMayHoldAnUnrevokedToken | src/repositories/sessions.rs:97-105 | a reachable state in which a revoked session holds an unrevoked token |
| SessionHistory.OnlyRevocationRevokes | src/services/auth.rs:143-189 | any action but a call's revocation of the session leaves its row and its tokens' revocation marks alone |
| SessionHistory.UnrevokedRun | src/services/auth.rs:59-212 | over any run in which no call revokes it, an active session stays active and its tokens unrevoked |
| SessionHistory.RevocationHasACause | src/services/auth.rs:143-189 | in every reachable state, a revoked session was logged out of, or a consumed token of it was presented again |
| SessionHistory.UncausedSessionIsActive | src/services/auth.rs:143-189 | so a session with neither is active with all its tokens unrevoked, whatever happens to other sessions |
| SessionHistory.TokensBelongToTheirUser | src/services/auth.rs:94-102 | in every reachable state each token carries its session's user |
| SessionHistory.PairsAreReal | src/services/auth.rs:191-212 | every pair answered names a refresh token in the tables, for the session of the user who logged in or of the token presented |
| AuthService.SessionStore.CreateSession | src/repositories/sessions.rs:9-27 | succeeds exactly on a fresh id; new tables as specified |
| AuthService.SessionStore.IsActive | src/repositories/sessions.rs:30-37 | true exactly of an existing, unrevoked session |
| AuthService.SessionStore.RevokeSession | src/repositories/sessions.rs:39-53 | afterwards the session is not active and every token it has is revoked; earlier marks keep their time; every other session is unchanged |
| AuthService.SessionStore.InsertRefreshToken | src/repositories/sessions.rs:55-76 | inserts exactly when id and hash are unused and the session exists, else changes nothing |
| AuthService.SessionStore.FindRefreshToken | src/repositories/sessions.rs:78-90 | returns the row with the hash, or none when there is none |
| AuthService.SessionStore.MarkRotated | src/repositories/sessions.rs:97-105 | true exactly when this call rotated the token; the token is rotated afterwards either way |
| AuthService.IssueTokens | src/services/auth.rs:191-212 | is the protocol's insert step: a pair and exactly one new live token row for the session and user, or an error and no change |
| AuthService.Login | src/services/auth.rs:59-114 | is the protocol run alone; a pair comes with a new active session of that user, other sessions are unchanged, bad credentials change nothing |
| AuthService.Logout | src/services/auth.rs:173-189 | is the protocol run alone; leaves the session inactive, its tokens revoked and every other session unchanged |
| AuthService.Authenticate | src/middleware/auth.rs:45-55 | accepts exactly a valid token naming an active session |
| AuthService.Refresh | src/services/auth.rs:120-171 | is the protocol run alone; a pair only for a usable token, for its session, with the token rotated and the new one in the tables; reuse exactly on a rotated token, with the session revoked; other refusals change nothing |
| AuthService.AloneIsARun | src/services/auth.rs:59-212 | a flow run without interruption is one of the protocol's interleavings, so all theorems above apply to it |
| X25519Keys.ListedValues | src/crypto/keys.rs:44-83 | the seven byte strings are the little-endian forms of 0, 1, the two long constants, p-1, p and p+1 |
| X25519Keys.LittleEndianInjective | src/crypto/keys.rs:88-92 | byte strings of one length with the same value are equal, so comparing bytes is comparing values |
| X25519Keys.MaskedValue | src/crypto/keys.rs:84-87 | masking the top bit of the last byte is reduction of the value modulo 2^255 |
| X25519Keys.ListedIffValue | src/crypto/keys.rs:43-93 | a 32-byte string is listed if and only if its value is one of the seven |
| X25519Keys.ResiduesBelow255 | src/crypto/keys.rs:65-83 | a value below 2^255 is one of the seven if and only if it is one of the five residues mod p: every non-canonical form is covered |
| X25519Keys.IsSmallOrder | src/crypto/keys.rs:43-93 | true exactly when the u-coordinate decoded by section 5 of RFC 7748 is one of the five residues |
| X25519Keys.Validate | src/crypto/keys.rs:30-38 | returns the bytes exactly when there are 32 and they encode none of the five residues |
| X25519Keys.ListedResiduesHaveSmallOrder | src/crypto/keys.rs:40-83 | on the curve with A = 486662, 0 doubles to the point at infinity, 1 and p-1 double to the finite point 0, and the two constants to the finite point 1: exactly one, two and three doublings |
| StreamSession.CounterNonceInjective | src/crypto/stream_session.rs:185-189 | nonces have 12 bytes, and distinct 64-bit counters have distinct nonces |
| StreamSession.CounterNonceValue | src/crypto/stream_session.rs:185-189 | the nonce is the counter as a 12-byte big-endian number |
| StreamSession.OpenIff | src/crypto/stream_session.rs:111-111 | a ciphertext opens exactly under the key, nonce and label it was sealed under |
| StreamSession.SendThenReceive | src/crypto/stream_session.rs:90-117 | what one end seals the end in step opens, and both advance; a wrong label is refused and nothing moves |
| StreamSession.HandshakeCompletesIff | src/crypto/stream_session.rs:50-56 | either end completes exactly on 32 bytes that encode no small-order point and give a non-zero secret |
| StreamSession.HandshakeKeys | src/crypto/stream_session.rs:58-69 | the salt is server key then client key, and the info labels the direction of each key |
| StreamSession.HandshakeMirror | src/crypto/stream_session.rs:50-153 | ends that exchanged public keys hold crossed, direction-distinct keys and zero counters, from commutativity alone |
| StreamSession.KeysBindTranscript | src/crypto/stream_session.rs:58-69 | server ends sharing any key agreed on both public keys and the secret, and share both keys in the same roles |
| StreamSession.CompleteHandshake | src/crypto/stream_session.rs:50-77 | a session exactly for a valid, contributory client key, with the specified keys and counters |
| StreamSession.ClientSide | src/crypto/stream_session.rs:121-153 | the same for the client, directions swapped |
| StreamSession.Session.SealNext | src/crypto/stream_session.rs:90-98 | releases a frame under the next nonce and advances; at the last counter value releases nothing and stays |
| StreamSession.Session.OpenNext | src/crypto/stream_session.rs:102-117 | accepts and advances only on the awaited nonce and a matching ciphertext below the last value; otherwise stays |
| StreamSession.Session.Encrypt | src/crypto/stream_session.rs:90-98 | server to client; a frame exactly while the counter is not exhausted |
| StreamSession.Session.Decrypt | src/crypto/stream_session.rs:102-117 | client to server; a refused frame leaves the session as it was |
| StreamSession.Session.EncryptClient | src/crypto/stream_session.rs:156-164 | client to server; a frame exactly while the counter is not exhausted |
| StreamSession.Session.DecryptClient | src/crypto/stream_session.rs:167-182 | server to client; a refused frame leaves the session as it was |
| HostileChannel.HandshakeEstablishes | src/crypto/stream_session.rs:50-153 | two completed handshakes start a connection the theorems below apply to |
| HostileChannel.AcceptedIsNext | src/crypto/stream_session.rs:102-117 | a released ciphertext is accepted only if it is the very next one the peer released |
| HostileChannel.ReplayKeeps | src/crypto/stream_session.rs:90-182 | any mix of sends, drops, duplicates, reorderings, reflections and injections keeps the channel invariant |
| HostileChannel.AcceptedIsPrefixOfReleased | src/crypto/stream_session.rs:90-182 | in every reachable state, in both directions, accepted plaintexts are a prefix of what the peer released |
| HostileChannel.ReleasedNoncesAreConsecutive | src/crypto/stream_session.rs:90-98 | released nonces are exactly 0 to n-1 in each direction |
| HostileChannel.NoNonceReuse | src/crypto/stream_session.rs:90-189 | no (key, nonce) pair is released twice in a connection, within or across directions (section 8.2.1 of NIST SP 800-38D) |
| HostileChannel.ExhaustedSenderStaysSilent | src/crypto/stream_session.rs:93-96 | an end at the last counter value, server or client, releases nothing in any continuation |
| HostileChannel.EndWaitsForItsCounter | src/crypto/stream_session.rs:107-116 | frames that are wrongly numbered or forged, however many, change nothing: what follows is received as if they had not come |
| HostileChannel.ResentFrameIsAccepted | src/crypto/stream_session.rs:107-116 | after them the awaited frame is still accepted |
| HostileChannel.ServerWaitsForTheNextFrame | src/crypto/stream_session.rs:102-117 | from any reachable state, over any attacker run that does not deliver the client's next frame itself, the server accepts nothing; delivering that frame afterwards is accepted |
| HostileChannel.ClientWaitsForTheNextFrame | src/crypto/stream_session.rs:167-182 | the same for the client |
| HostileChannel.InOrderIsAccepted | src/crypto/stream_session.rs:167-182 | frames from the awaited counter on, delivered in order, are all accepted with their plaintexts |
| LineSplitter.SplitReassembles | src/providers/sse.rs:22-38 | lines, terminators and residue reassemble the input, and no line nor the residue contains a line feed |
| LineSplitter.SplitIsUnique | src/providers/sse.rs:22-38 | the split is the only such decomposition |
| LineSplitter.SplitAppend | src/providers/sse.rs:22-38 | splitting may be done in two goes, holding back the residue |
| LineSplitter.HeldBytesLengthenOneLine | src/providers/sse.rs:22-38 | held bytes only lengthen the first line completed next |
| LineSplitter.StripCrIs | src/providers/sse.rs:28-30 | at most one carriage return goes, from the end of a line, and nothing else |
| LineSplitter.LineBuffer.Push | src/providers/sse.rs:22-38 | returns the lines of buffer plus chunk, one CR stripped each; keeps the residue, newline-free, or nothing if it is over the cap |
| LineSplitter.LineBuffer.Flush | src/providers/sse.rs:43-55 | returns the stripped tail unless empty, and empties the buffer |
| LineSplitter.BufferRefinesSplitIff | src/providers/sse.rs:8-38 | for every chunking, pushed lines and buffer equal the one-shot split if and only if the unterminated tail is within the cap at every chunk boundary |
| Providers.OllamaLine | src/providers/ollama.rs:25-54 | yields the specified items, an error alone or events in which `Done` can only be last |
| Providers.CutIsOneTerminal | src/providers/openai.rs:87-116 | a script closed by a terminal item is cut to deltas and exactly one terminal |
| Pumps.ForwardItems | src/providers/ollama.rs:107-126 | forwards up to and including the first terminal item, or as far as the receiver lives |
| Pumps.ForwardLines | src/providers/openai.rs:87-116 | the same for a batch of lines |
| Pumps.ReadBody | src/providers/ollama.rs:92-127 | the read loop sends the reference event stream up to its first terminal item or the end of the body |
| Pumps.SsePump | src/providers/anthropic.rs:118-150 | the OpenAI and Anthropic pumps send exactly the reference events, or their first `capacity` if the receiver leaves |
| Pumps.OllamaPump | src/providers/ollama.rs:87-155 | the same for Ollama, trailing record included |
| Pumps.FinishOllama | src/providers/ollama.rs:128-154 | the flush loop, which does not break, still ends the stream with exactly the one due terminal |
| Pumps.NoBreakNeeded | src/providers/ollama.rs:133-139 | because `Done` can only be last, sending every event equals stopping at `Done` |
| Pumps.ProvidersClose | src/providers/openai.rs:107-116 | all three providers end every unfinished body with a terminal item |
| Pumps.EveryStreamEndsOnce | src/providers/ollama.rs:87-155 | for every chunk sequence, transport errors included: deltas, then exactly one terminal, nothing after |
| Pumps.ChunkingIsInvisible | src/providers/sse.rs:22-38 | with every tail within the cap, events depend on the body's bytes (and on a transport error), not on the chunks |
| Pumps.ChunksAreABody | src/providers/ollama.rs:92-101 | every chunk sequence is pieces of body followed by nothing or by a transport error, so nothing is left out above |
| Pumps.FinalNewlineIsOptional | src/providers/ollama.rs:92-154 | a last chunk of just a newline changes no Ollama event, whatever is left in the buffer |
| ProviderLines.SseDataIff | src/providers/sse.rs:59-62 | the payload is what follows `data:` and one optional space, and lines without that prefix have none |
| ProviderLines.OpenAiDoneIff | src/providers/openai.rs:29-33 | a line is `Done` exactly when its payload is `[DONE]` |
| ProviderLines.OpenAiMeans | src/providers/openai.rs:34-56 | exactly which other payloads are errors, under which name, and which add which text; all others say nothing |
| ProviderLines.AnthropicMeans | src/providers/anthropic.rs:52-80 | exactly which payloads are `Done`, which are errors, under which name, and which add which text |
| ProviderLines.OllamaMeans | src/providers/ollama.rs:25-54 | exactly which records carry `done`, which are errors, and which add which text; at most a text and then `Done` |
| ProviderLines.LinesMean | src/providers/openai.rs:29-56 | the same for the lines of a body of any of the three vendors |
| ProviderLines.DoneIff | src/providers/ollama.rs:87-155 | a body's stream ends in `Done` exactly when the vendor's own end comes before any error of the vendor and before the body breaks off; truncation and transport errors never do |
| ChatStream.HandlePrompt | src/api/chat_stream.rs:316-394 | the frames sent, the outcome and the session afterwards are those of the specified turn |
| ChatStream.ForwardEvents | src/api/chat_stream.rs:368-393 | the event loop sends one chunk per delta and `done`, stopping at an error or an exhausted counter |
| ChatStream.HandleVisit | src/api/chat_stream.rs:225-309 | one iteration: deadline, close, session check, limiter, then the prompt |
| ChatStream.PromptLoop | src/api/chat_stream.rs:223-314 | the whole loop sends the specified trace, with the close message unless it aborts |
| ChatStream.HandleSocket | src/api/chat_stream.rs:160-314 | `server_hello`, then the handshake's outcome, then the loop |
| ChatTheorems.SocketShape | src/api/chat_stream.rs:160-314 | `server_hello` comes first and only once; without a completed handshake and a live token no chunk or `done` is ever sent; with them chunk nonces count from 0 without a gap |
| ChatTheorems.AnswerShape | src/api/chat_stream.rs:241-309 | every prompt gets chunks and then exactly one of `done` or an error; chunks and `done` only for prompts past the session check and the limiter |
| ChatTheorems.EveryTurnHasShape | src/api/chat_stream.rs:223-314 | the same for every turn of every run |
| ChatTheorems.RefusedPromptIsLast | src/api/chat_stream.rs:243-258 | nothing is served after a prompt whose session check fails |
| ChatTheorems.ChunkNoncesRunOn | src/api/chat_stream.rs:370-390 | chunk nonces run on over all turns of a connection, failed ones included |
| ChatTheorems.CounterMovesIffOpened | src/api/chat_stream.rs:262-333 | the receive counter moves, by one, if and only if the prompt was admitted and its frame opened; otherwise the session is unchanged |
| ChatTheorems.LoopWaitsForItsCounter | src/api/chat_stream.rs:325-333 | over any run the session is unchanged if and only if no prompt that is served opens: rate-limited, malformed, wrongly numbered and forged prompts leave the session untouched |
| ChatTheorems.OtherNumbersNeverOpen | src/crypto/stream_session.rs:107-110 | as long as no admitted prompt carries the awaited number, nothing of the run is accepted |
| ChatTheorems.ResentPromptOpens | src/api/chat_stream.rs:262-281 | after any prompts that do not open, a prompt that would have opened at first still opens when sent again |
| ChatTheorems.StreamOutcome | src/api/chat_stream.rs:370-393 | a turn succeeds, and sends `done`, exactly when its stream runs out or its first terminal item is `Done`, and the counter lasts |
| ChatAnswers.PromptOpensIff | src/api/chat_stream.rs:325-333 | a prompt opens exactly if it is what the client sealed under the awaited number |
| ChatAnswers.RequestIff | src/api/chat_stream.rs:334-360 | a plaintext is a request exactly within the size, message count and role limits, with default model and limit filled in and the limit the smaller of the two |
| ChatAnswers.OtherAnswers | src/api/chat_stream.rs:225-309 | the error code and the loop's next move for every message that is not an admitted prompt; the session is unchanged |
| ChatAnswers.UnservedPromptFails | src/api/chat_stream.rs:280-296 | an admitted prompt that does not open, is no request or is refused by the provider gets exactly `stream_error`, and the loop goes on |
| ChatAnswers.DoneFrameIff | src/api/chat_stream.rs:368-393 | `done` answers exactly the prompts that are admitted, open, are requests, are not refused, and whose stream ends well with all texts sent |
| ChatAnswers.LoopEndsExactly | src/api/chat_stream.rs:223-314 | the loop serves every message up to the first that ends it: deadline, close, end, break, or a prompt of an inactive session |
| ChatAnswers.CloseIsLast | src/api/chat_stream.rs:312-312 | the close message is sent exactly when the loop did not end on a broken message, and nothing follows it |
| ChatAnswers.ResentPromptIsServed | src/api/chat_stream.rs:262-281 | after prompts that were rate limited, malformed, misnumbered or forged, the loop is still there and the prompt sent again opens |
| ChatAnswers.OpeningAnswers | src/api/chat_stream.rs:175-218 | how every opening that does not lead to the loop is answered |
| ChatTheorems.TurnMeansItems | src/api/chat_stream.rs:368-393 | the client decrypts exactly the delta texts (up to counter exhaustion); `done` exactly when the stream ended in `Done` and all were sent |
| ChatTheorems.EndToEnd | src/api/chat_stream.rs:368-393 | from body bytes to decrypted plaintexts: for every provider, body, chunking within the cap and transport error, the client gets the delta texts before the first terminal item, and `done` exactly when that item is `Done` |
| ChatAnswers.EndToEndAtVendor | src/api/chat_stream.rs:368-393 | the same at OpenAI, Anthropic and Ollama, with `done` exactly when the response is complete in the vendor's own terms |
| ChatTheorems.WholeConnectionStaysInStep | src/crypto/stream_session.rs:90-182 | over a whole connection delivered in order, the client decrypts exactly the delta texts of all turns, in order, failed turns included, and ends at the server's counter |
| ServerTheorems.RevokedSocketFallsSilent | src/api/chat_stream.rs:243-258 | once a session is revoked in the tables, from the first prompt whose session check begins after it an open socket sends no chunk and no `done`, and that prompt is its last |
| ServerTheorems.OnlyAdmittedTurnsSpeak | src/api/chat_stream.rs:245-281 | a turn with a chunk or `done` answers a prompt past the session check and the limiter |
| ServerTheorems.PromptsPerWindow | src/api/chat_stream.rs:259-279 | in any interval of one window's length a user has at most 2 * max(1, budget) prompts admitted, over all the user's sockets |
| RateLimiter.Limiter.CheckAt | src/middleware/rate_limit.rs:45-65 | is the specified check: sweep if full, refuse if still full, expiry restarts, otherwise the budget decides; never grows past the cap |
| RateLimiter.Limiter.SweepAt | src/middleware/rate_limit.rs:68-72 | keeps exactly the unexpired windows |
| RateLimiter.SweepIsExact | src/middleware/rate_limit.rs:68-72 | a sweep keeps exactly the windows still running, unchanged |
| RateLimiter.CheckAnswer | src/middleware/rate_limit.rs:45-65 | a tracked key is admitted exactly when its window is over or has budget left, a new one exactly when there is room and any budget |
| RateLimiter.CheckEffect | src/middleware/rate_limit.rs:54-64 | the key's window afterwards; other windows are kept, or dropped by a sweep once over |
| RateLimiter.MapStaysBounded | src/middleware/rate_limit.rs:23-65 | over every run the map holds at most 100000 keys |
| RateLimiter.WindowInvHolds | src/middleware/rate_limit.rs:45-72 | over every run, at most a budget (or one) of admissions go into windows started within one window's length |
| RateLimiter.SlidingBound | src/middleware/rate_limit.rs:45-72 | in any closed interval of one window's length a key is admitted at most 2 * max(1, budget) times |
| RateLimiter.SlidingBoundIsAttained | src/middleware/rate_limit.rs:56-64 | for every budget, zero included, and every positive window a run reaches the bound, so it is exact |
| RateLimiter.SweepingIsInvisibleIff | src/middleware/rate_limit.rs:45-72 | every run without capacity refusals is answered as by a limiter defined by counting alone, without map, sweep or cap, if and only if the budget is positive or the window is zero |
| RateLimiter.WindowAdmitsExactly | src/middleware/rate_limit.rs:54-64 | of the checks of a key in one of its windows, at whatever times within it, exactly the first ones up to the budget are admitted |
| RateLimiter.ZeroBudgetShowsSweep | src/middleware/rate_limit.rs:56-61 | the run that tells them apart: expiry admits without testing the budget |
| RateLimiter.FewKeysAreNeverRefused | src/middleware/rate_limit.rs:48-53 | a run over at most 100000 distinct keys has no capacity refusals |
| UserStore.StepKeepsOwned | src/services/messages.rs:18-67 | every operation keeps: a message's owner owns its conversation and its key |
| UserStore.OthersAreUntouched | src/repositories/conversations.rs:37-94 | no operation of one user, run whole, changes any row of another |
| UserStore.OwnRowsDecide | src/services/conversations.rs:39-72 | the reply and the user's rows afterwards depend only on the user's own rows and the fresh id |
| StoreLaws.ListConversationsIs | src/repositories/conversations.rs:26-35 | exactly the user's live conversations |
| StoreLaws.ListMessagesIs | src/services/messages.rs:69-87 | exactly the live conversation's messages of the user before the time, with the page size within 1 to 200, or 50 |
| StoreLaws.ListKeysIs | src/repositories/keys.rs:46-58 | exactly the user's unrevoked keys |
| StoreLaws.CreateConversationIs | src/services/conversations.rs:13-33 | listed afterwards with its fields and times; no other row changes |
| StoreLaws.UpdateConversationIs | src/repositories/conversations.rs:52-74 | given fields change, absent ones stay, the time is set; listed so afterwards; no other row changes |
| StoreLaws.DeleteConversationIs | src/repositories/conversations.rs:75-86 | gone for every operation of its owner afterwards; its messages and all other rows remain |
| StoreLaws.CreateMessageIs | src/services/messages.rs:18-67 | succeeds exactly on an own live conversation with valid fields and key; listed afterwards, the conversation's time set, no other row changed |
| StoreLaws.DeleteMessageIs | src/repositories/messages.rs:61-68 | removes exactly the user's own message, and nothing else |
| StoreLaws.DeletedMessageIsGone | src/services/messages.rs:89-94 | afterwards it is in no listing and cannot be deleted again |
| StoreLaws.UploadKeyIs | src/services/keys.rs:14-59 | a conflict exactly on a used label or id; otherwise listed afterwards, no other row changed |
| StoreLaws.LabelsAreUnique | src/services/keys.rs:39-48 | a label just taken cannot be taken again by the same user |
| UserStore.Tables.AssertOwned | src/services/conversations.rs:68-72 | true exactly of the caller's undeleted conversation |
| UserStore.Tables.CreateConversation | src/services/conversations.rs:13-33 | new tables and reply as the store function specifies |
| UserStore.Tables.UpdateConversation | src/repositories/conversations.rs:52-74 | the same: absent fields keep their value, only the owner's live row changes |
| UserStore.Tables.DeleteConversation | src/repositories/conversations.rs:76-86 | the same: a soft delete of the owner's live row |
| UserStore.Tables.CreateMessage | src/services/messages.rs:18-67 | the same: ownership, fields, key, insert, touch, in that order |
| UserStore.Tables.DeleteMessage | src/repositories/messages.rs:61-68 | the same: the row goes only if it is the caller's |
| UserStore.Tables.UploadKey | src/services/keys.rs:14-59 | the same: a unique violation, by the label among the caller's keys or by the id, is a conflict |
| StoreRuns.AloneIsStep | src/services/messages.rs:18-87 | the statements of any call run without interruption amount to the sequential operation |
| StoreRuns.OwnershipHolds | src/services/messages.rs:18-94 | in every interleaving, a message's owner owns its conversation and its key, and a call past its ownership checks still owns what it checked |
| StoreRuns.OthersStatement | src/repositories/conversations.rs:88-94 | no statement of one user's call changes a row of another, although `touch` is not scoped by owner |
| StoreRuns.OwnStatement | src/services/messages.rs:18-94 | what a statement answers and does to its user's rows depends on that user's rows, the call and the fresh id alone |
| StoreRuns.OthersDoNotInterfere | src/services/messages.rs:18-94 | removing everyone else from an interleaved run changes neither a user's rows nor any of the user's calls and answers |
| StoreRuns.NonInterference | src/services/messages.rs:18-94 | two interleaved runs in which a user does the same, whatever others do in between, are the same to that user |

## Left out

- That no other residue has small order: this needs the primality of 2^255 - 19. The model proves that the blocklist is exactly the five residues and that those five have small order.
- Sends that fail on the socket: they end the run early, so the real trace is a prefix of the modelled one.
- Truly parallel limiter calls: `contains_key`, `len` and `entry` on the concurrent map are not one atomic step, so the bounds hold for calls that do not overlap.
- "No prompt starts after the token deadline": when both `select!` branches are ready the runtime picks one at random; the model takes the branch as given.
- Repeated random ids in the store: a collision is a database error that another user's insert could cause, so the separation of users is stated for ids that do not repeat.
- List order, the page cut and ties in `before`: decided by the database; the rows ranged over and the page size are modelled.
- AES-GCM, HKDF, X25519, Argon2, Ed25519 and JWT internals: foreign libraries, used only through the symbolic laws above.
- Memory wiping, response timing, audit rows, metrics and logging: not visible in a functional model.
- `register`: one insert under a unique constraint, with no later step that depends on another call.
- Field validators and base64 decoding: single-field tests; their outcome enters the model as a value or a refusal.
- `client_key` and Anthropic's `split_system`: each maps one request to a value and keeps no state.
- Building the provider's HTTP request, with the temperature: the provider is an arbitrary function of the model, messages and token limit.
- HTTP routing, configuration, health and graceful shutdown: plumbing without state of its own.
