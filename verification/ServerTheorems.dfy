/** The chat socket together with the session tables and the limiter it consults on every prompt. */
module ServerTheorems {
  import opened Common
  import opened StreamSession
  import opened ChatStream
  import opened ChatTheorems
  import SessionTables
  import Rotation
  import RotationTheorems
  import RateLimiter

  predicate IsPrompt(v: Visit) {
    v.inbound.Got? && v.inbound.frame.Prompt?
  }

  // ---- Revocation reaches an open socket ----

  /**
   The session check of the prompt `v` is call `i`, begun after `w` and answered in `w'`; anything but an
   acceptance, a database error included, counts as inactive.
   */
  ghost predicate CheckedSince(w: Rotation.World, w': Rotation.World, s: SessionTables.Id, i: nat, v: Visit) {
    && i !in w.calls && i in w'.calls
    && w'.calls[i].call == Rotation.Authenticate(Some(s)) && w'.calls[i].pc.Done?
    && (v.active <==> w'.calls[i].pc.reply.Accepted?)
  }

  lemma CheckFails(w: Rotation.World, s: SessionTables.Id, actions: seq<Rotation.Action>, i: nat, v: Visit)
    requires RotationTheorems.Reachable(w) && SessionTables.IsRevoked(w.ledger.db, s)
    requires CheckedSince(w, Rotation.Replay(w, actions), s, i, v)
    ensures !v.active
  {
    RotationTheorems.NothingAcceptsARevokedSession(w, s, i, actions);
  }

  /**
   Once a session is revoked, its open socket falls silent: from the first visit `from` whose checks all begin
   after the revocation, no turn sends a chunk or `done`, and the first prompt is the last.
   */
  lemma RevokedSocketFallsSilent(w: Rotation.World, s: SessionTables.Id, actions: seq<Rotation.Action>,
                                 cfg: Config, e: Endpoint, visits: seq<Visit>, checks: seq<nat>, from: nat)
    requires RotationTheorems.Reachable(w) && SessionTables.IsRevoked(w.ledger.db, s) && |checks| == |visits|
    requires forall k :: from <= k < |visits| && IsPrompt(visits[k]) ==>
      CheckedSince(w, Rotation.Replay(w, actions), s, checks[k], visits[k])
    ensures
      var turns := Serve(cfg, e, visits).turns;
      && (forall k :: from <= k < |turns| ==> Silent(turns[k]))
      && (forall k :: from <= k < |visits| && IsPrompt(visits[k]) ==> |turns| <= k + 1)
  {
    var turns := Serve(cfg, e, visits).turns;
    forall k | from <= k < |visits| && IsPrompt(visits[k]) ensures !visits[k].active && |turns| <= k + 1 {
      CheckFails(w, s, actions, checks[k], visits[k]);
      RefusedPromptIsLast(cfg, e, visits, k);
    }
    forall k | from <= k < |turns| ensures Silent(turns[k]) {
      EveryTurnHasShape(cfg, e, visits, k);
      assert forall i :: 0 <= i < |turns[k]| ==> turns[k][i] in turns[k];
    }
  }

  // ---- The limiter bounds the prompts of a user over all sockets ----

  /** A socket of the user, with the place in the limiter's run of the check made for each visit. */
  datatype Socket = Socket(cfg: Config, end: Endpoint, visits: seq<Visit>, checks: seq<nat>)

  /** Visit `j` of the socket was served, and as a prompt of an active session it came to the limiter. */
  predicate CameToLimiter(socket: Socket, j: nat) {
    && j < |Serve(socket.cfg, socket.end, socket.visits).turns| && j < |socket.visits| == |socket.checks|
    && IsPrompt(socket.visits[j]) && socket.visits[j].active
  }

  /** Every prompt that came to the limiter was one check of the user's key, and got that check's answer. */
  ghost predicate Metered(lim: RateLimiter.Limits, ops: seq<RateLimiter.Op>, key: string, sockets: seq<Socket>) {
    && (forall k: nat, j: nat :: k < |sockets| && CameToLimiter(sockets[k], j) ==>
          var i := sockets[k].checks[j];
          && i < |ops| && ops[i].CheckOp? && ops[i].key == key
          && (sockets[k].visits[j].allowed <==> RateLimiter.LastAdmitted(lim, ops[..i + 1])))
    && (forall k: nat, j: nat, k': nat, j': nat ::
          k < |sockets| && CameToLimiter(sockets[k], j) && k' < |sockets| && CameToLimiter(sockets[k'], j') ==>
          sockets[k].checks[j] == sockets[k'].checks[j'] ==> k == k' && j == j')
  }

  /** Prompt `j` of socket `k` was admitted, by a check made with the clock in [a, b]. */
  ghost predicate AdmittedIn(ops: seq<RateLimiter.Op>, sockets: seq<Socket>, k: nat, j: nat, a: int, b: int) {
    && k < |sockets| && CameToLimiter(sockets[k], j) && sockets[k].visits[j].allowed
    && sockets[k].checks[j] < |ops| && a <= ops[sockets[k].checks[j]].now <= b
  }

  ghost function AdmittedPrompts(ops: seq<RateLimiter.Op>, sockets: seq<Socket>, a: int, b: int): set<(nat, nat)> {
    set k: nat, j: nat | k < |sockets| && j < |sockets[k].visits| && AdmittedIn(ops, sockets, k, j, a, b) :: (k, j)
  }

  /** A set that maps one to one into another is no larger. */
  lemma {:induction false} InjectionBound<T>(m: map<T, nat>, target: set<nat>)
    requires m.Values <= target && forall x, y :: x in m && y in m && m[x] == m[y] ==> x == y
    ensures |m.Keys| <= |target|
    decreases |m.Keys|
  {
    if x :| x in m {
      var rest := m - {x};
      assert rest.Keys == m.Keys - {x};
      assert m[x] in m.Values;
      forall y | y in rest ensures rest[y] in target - {m[x]} {
        assert m[y] in m.Values;
      }
      InjectionBound(rest, target - {m[x]});
    } else {
      assert m.Keys == {};
    }
  }

  /** Only admitted prompts can be answered with text. */
  lemma OnlyAdmittedTurnsSpeak(socket: Socket, j: nat)
    requires j < |Serve(socket.cfg, socket.end, socket.visits).turns|
    requires !Silent(Serve(socket.cfg, socket.end, socket.visits).turns[j])
    ensures j < |socket.visits| && Admitted(socket.visits[j])
  {
    var turn := Serve(socket.cfg, socket.end, socket.visits).turns[j];
    EveryTurnHasShape(socket.cfg, socket.end, socket.visits, j);
    assert forall i :: 0 <= i < |turn| ==> turn[i] in turn;
  }

  lemma AdmittedPromptPassed(lim: RateLimiter.Limits, ops: seq<RateLimiter.Op>, key: string, sockets: seq<Socket>,
                             k: nat, j: nat, a: int, b: int)
    requires Metered(lim, ops, key, sockets) && AdmittedIn(ops, sockets, k, j, a, b)
    ensures sockets[k].checks[j] in RateLimiter.PassedChecks(lim, ops, key, a, b)
  {
    assert RateLimiter.PassedAt(lim, ops, key, a, b, sockets[k].checks[j]);
  }

  lemma PromptsAreChecks(lim: RateLimiter.Limits, ops: seq<RateLimiter.Op>, key: string, sockets: seq<Socket>,
                         a: int, b: int)
    requires Metered(lim, ops, key, sockets)
    ensures |AdmittedPrompts(ops, sockets, a, b)| <= |RateLimiter.PassedChecks(lim, ops, key, a, b)|
  {
    var prompts, passed := AdmittedPrompts(ops, sockets, a, b), RateLimiter.PassedChecks(lim, ops, key, a, b);
    var m: map<(nat, nat), nat> := map p | p in prompts :: sockets[p.0].checks[p.1];
    forall i | i in m.Values ensures i in passed {
      var p :| p in m && m[p] == i;
      AdmittedPromptPassed(lim, ops, key, sockets, p.0, p.1, a, b);
    }
    assert m.Keys == prompts;
    InjectionBound(m, passed);
  }

  /**
   In any interval of one window's length, at most 2 * max(1, budget) prompts of a user are admitted, over all the
   user's sockets and whatever else the limiter is asked in between.
   */
  lemma PromptsPerWindow(lim: RateLimiter.Limits, ops: seq<RateLimiter.Op>, key: string, sockets: seq<Socket>, a: int)
    requires lim.window > 0 && RateLimiter.Forward(ops) && Metered(lim, ops, key, sockets)
    ensures |AdmittedPrompts(ops, sockets, a, a + lim.window)| <= 2 * RateLimiter.Max1(lim.maxRequests)
  {
    PromptsAreChecks(lim, ops, key, sockets, a, a + lim.window);
    RateLimiter.PassedCount(lim, ops, key, a, a + lim.window);
    RateLimiter.SlidingBound(lim, ops, key, a);
  }
}
