/** The fixed-window, per-key limiter: a bounded, swept map. Calls run one after another under a forward clock. */
module RateLimiter {
  import opened Common

  type Time = int

  const MAX_TRACKED_KEYS: nat := 100_000

  datatype Window = Window(start: Time, count: nat)

  datatype Limits = Limits(maxRequests: nat, window: nat)

  type Windows = map<string, Window>

  /** `Instant::duration_since`: zero when the argument is later. */
  function Since(now: Time, start: Time): nat {
    if now < start then 0 else now - start
  }

  predicate Expired(lim: Limits, w: Window, now: Time) {
    Since(now, w.start) >= lim.window
  }

  // ---- The limiter as functions ----

  function Sweep(lim: Limits, m: Windows, now: Time): Windows {
    map k | k in m && !Expired(lim, m[k], now) :: m[k]
  }

  function Lookup(m: Windows, key: string): Option<Window> {
    if key in m then Some(m[key]) else None
  }

  /** A hit on one key's window: expiry admits and restarts, otherwise the budget decides. */
  function Hit(lim: Limits, entry: Option<Window>, now: Time): (Window, bool) {
    var w := if entry.Some? then entry.value else Window(now, 0);
    if Expired(lim, w, now) then (Window(now, 1), true)
    else if w.count >= lim.maxRequests then (w, false)
    else (Window(w.start, w.count + 1), true)
  }

  /** The map is full, and this key is not in it. */
  predicate NeedsRoom(m: Windows, key: string) {
    key !in m && |m| >= MAX_TRACKED_KEYS
  }

  function MakeRoom(lim: Limits, m: Windows, key: string, sweepNow: Time): Windows {
    if NeedsRoom(m, key) then Sweep(lim, m, sweepNow) else m
  }

  /** A new key is refused outright when even a sweep frees nothing. */
  predicate Refused(lim: Limits, m: Windows, key: string, sweepNow: Time) {
    NeedsRoom(m, key) && |Sweep(lim, m, sweepNow)| >= MAX_TRACKED_KEYS
  }

  function Check(lim: Limits, m: Windows, key: string, now: Time, sweepNow: Time): (Windows, bool) {
    var m1 := MakeRoom(lim, m, key, sweepNow);
    if Refused(lim, m, key, sweepNow) then (m1, false)
    else
      var (w, admitted) := Hit(lim, Lookup(m1, key), now);
      (m1[key := w], admitted)
  }

  // ---- Size ----

  lemma {:induction false} KeysBound(a: set<string>, b: set<string>)
    requires a <= b
    ensures |a| <= |b|
    decreases a
  {
    if a != {} {
      var k :| k in a;
      KeysBound(a - {k}, b - {k});
    }
  }

  lemma SweepShrinks(lim: Limits, m: Windows, now: Time)
    ensures Sweep(lim, m, now).Keys <= m.Keys && |Sweep(lim, m, now)| <= |m|
  {
    KeysBound(Sweep(lim, m, now).Keys, m.Keys);
  }

  lemma PutSize(m: Windows, key: string, w: Window)
    ensures m[key := w].Keys == m.Keys + {key}
    ensures |m[key := w]| == if key in m then |m| else |m| + 1
  {
    if key in m {
      assert m[key := w].Keys == m.Keys;
    } else {
      assert m[key := w].Keys == m.Keys + {key};
    }
  }

  lemma SizeAfterCheck(lim: Limits, m: Windows, key: string, now: Time, sweepNow: Time)
    requires |m| <= MAX_TRACKED_KEYS
    ensures |Check(lim, m, key, now, sweepNow).0| <= MAX_TRACKED_KEYS
  {
    SweepShrinks(lim, m, sweepNow);
    var m1 := MakeRoom(lim, m, key, sweepNow);
    PutSize(m1, key, Hit(lim, Lookup(m1, key), now).0);
  }

  // ---- The limiter as the server runs it ----

  class Limiter {
    const limits: Limits
    var windows: Windows

    constructor (maxRequests: nat, window: nat)
      ensures limits == Limits(maxRequests, window) && windows == map[]
    {
      limits := Limits(maxRequests, window);
      windows := map[];
    }

    /** `now` was read by the caller; `sweepNow` is what the clock says if a sweep is needed. */
    method CheckAt(key: string, now: Time, sweepNow: Time) returns (admitted: bool)
      modifies this
      ensures (windows, admitted) == Check(limits, old(windows), key, now, sweepNow)
      ensures |old(windows)| <= MAX_TRACKED_KEYS ==> |windows| <= MAX_TRACKED_KEYS
    {
      if |windows| <= MAX_TRACKED_KEYS {
        SizeAfterCheck(limits, windows, key, now, sweepNow);
      }
      if key !in windows && |windows| >= MAX_TRACKED_KEYS {
        SweepAt(sweepNow);
        if |windows| >= MAX_TRACKED_KEYS {
          return false;
        }
      }
      ghost var m1 := windows;
      if key !in windows {
        windows := windows[key := Window(now, 0)];
      }
      var w := windows[key];
      if Since(now, w.start) >= limits.window {
        windows := windows[key := Window(now, 1)];
        assert windows == m1[key := Window(now, 1)];
        return true;
      }
      if w.count >= limits.maxRequests {
        assert windows == m1[key := w];
        return false;
      }
      windows := windows[key := Window(w.start, w.count + 1)];
      assert windows == m1[key := Window(w.start, w.count + 1)];
      admitted := true;
    }

    method SweepAt(now: Time)
      modifies this
      ensures windows == Sweep(limits, old(windows), now)
    {
      windows := map k | k in windows && Since(now, windows[k].start) < limits.window :: windows[k];
    }
  }

  // ---- Runs ----

  datatype Op = CheckOp(key: string, now: Time, sweepNow: Time) | SweepOp(now: Time)

  function Until(op: Op): Time {
    if op.CheckOp? then op.sweepNow else op.now
  }

  /** The clock never runs backwards, from one reading to the next. */
  ghost predicate Forward(ops: seq<Op>) {
    && (forall i :: 0 <= i < |ops| ==> ops[i].now <= Until(ops[i]))
    && (forall i, j :: 0 <= i && i + 1 == j < |ops| ==> Until(ops[i]) <= ops[j].now)
  }

  function Step(lim: Limits, m: Windows, op: Op): Windows {
    match op
    case CheckOp(key, now, sweepNow) => Check(lim, m, key, now, sweepNow).0
    case SweepOp(now) => Sweep(lim, m, now)
  }

  function Replay(lim: Limits, ops: seq<Op>): Windows {
    if ops == [] then map[] else Step(lim, Replay(lim, ops[..|ops| - 1]), ops[|ops| - 1])
  }

  /** The map never tracks more than its cap of keys, over any run. */
  lemma {:induction false} MapStaysBounded(lim: Limits, ops: seq<Op>)
    ensures |Replay(lim, ops)| <= MAX_TRACKED_KEYS
    decreases |ops|
  {
    if ops != [] {
      var m, op := Replay(lim, ops[..|ops| - 1]), ops[|ops| - 1];
      MapStaysBounded(lim, ops[..|ops| - 1]);
      if op.CheckOp? { SizeAfterCheck(lim, m, op.key, op.now, op.sweepNow); } else { SweepShrinks(lim, m, op.now); }
    }
  }

  /** The answer of the last operation, if it was a check. */
  predicate LastAdmitted(lim: Limits, ops: seq<Op>)
    requires ops != []
  {
    var op := ops[|ops| - 1];
    op.CheckOp? && Check(lim, Replay(lim, ops[..|ops| - 1]), op.key, op.now, op.sweepNow).1
  }

  // ---- The sliding bound ----

  function Max1(n: nat): nat {
    if n == 0 then 1 else n
  }

  /** How many checks of `key` were admitted with the clock in [a, b]. */
  function AdmittedBetween(lim: Limits, ops: seq<Op>, key: string, a: Time, b: Time): nat {
    if ops == [] then 0
    else
      var op := ops[|ops| - 1];
      AdmittedBetween(lim, ops[..|ops| - 1], key, a, b) +
      if LastAdmitted(lim, ops) && op.key == key && a <= op.now <= b then 1 else 0
  }

  /** How many checks of `key` were admitted into a window that started in (lo, hi]. */
  function AdmittedInWindows(lim: Limits, ops: seq<Op>, key: string, lo: Time, hi: Time): nat {
    if ops == [] then 0
    else
      var op := ops[|ops| - 1];
      AdmittedInWindows(lim, ops[..|ops| - 1], key, lo, hi) +
      if LastAdmitted(lim, ops) && op.key == key && key in Replay(lim, ops) && lo < Replay(lim, ops)[key].start <= hi
      then 1 else 0
  }

  /**
   What is known of one key at clock `t`, with `n` admissions so far into windows started in (lo, lo + window]:
   a window started there holds them all, and once it is gone the clock is past the interval.
   */
  ghost predicate WindowInv(lim: Limits, entry: Option<Window>, t: Option<Time>, n: nat, lo: Time) {
    var cap, hi := Max1(lim.maxRequests), lo + lim.window;
    && n <= cap
    && (entry.Some? ==>
          && t.Some? && entry.value.start <= t.value && entry.value.count <= cap
          && (entry.value.start <= lo ==> n == 0)
          && (lo < entry.value.start <= hi ==> n <= entry.value.count))
    && (entry == None ==> n == 0 || (t.Some? && t.value > hi))
  }

  /** Dropping an expired window keeps the invariant, and so does the passage of time. */
  lemma DropKeeps(lim: Limits, entry: Option<Window>, t: Option<Time>, n: nat, lo: Time, now: Time, later: Time)
    requires WindowInv(lim, entry, t, n, lo) && (t.Some? ==> t.value <= now) && now <= later
    ensures WindowInv(lim, entry, Some(later), n, lo)
    ensures entry.Some? && Expired(lim, entry.value, now) ==> WindowInv(lim, None, Some(later), n, lo)
  {
  }

  lemma HitKeeps(lim: Limits, entry: Option<Window>, t: Option<Time>, n: nat, lo: Time, now: Time)
    requires lim.window > 0 && WindowInv(lim, entry, t, n, lo) && (t.Some? ==> t.value <= now)
    ensures
      var (w, admitted) := Hit(lim, entry, now);
      && w.start <= now < w.start + lim.window
      && WindowInv(lim, Some(w), Some(now),
                   n + (if admitted && lo < w.start <= lo + lim.window then 1 else 0), lo)
  {
  }

  function LastTime(ops: seq<Op>): Option<Time> {
    if ops == [] then None else Some(Until(ops[|ops| - 1]))
  }

  lemma ForwardPrefix(ops: seq<Op>)
    requires ops != [] && Forward(ops)
    ensures Forward(ops[..|ops| - 1])
    ensures var t := LastTime(ops[..|ops| - 1]); t.Some? ==> t.value <= ops[|ops| - 1].now
  {
    var init := ops[..|ops| - 1];
    assert forall i :: 0 <= i < |init| ==> init[i] == ops[i];
  }

  /** A step that is not a check of `key` leaves its entry alone or drops it once expired. */
  lemma OtherStep(lim: Limits, m: Windows, op: Op, key: string)
    requires op.CheckOp? ==> op.key != key
    ensures
      var entry' := Lookup(Step(lim, m, op), key);
      || entry' == Lookup(m, key)
      || (entry' == None && Lookup(m, key).Some? && Expired(lim, Lookup(m, key).value, Until(op)))
  {
  }

  /** A check of `key` acts on its entry, or refuses it while it has none. */
  lemma OwnStep(lim: Limits, m: Windows, key: string, now: Time, sweepNow: Time)
    ensures
      var (m', admitted) := Check(lim, m, key, now, sweepNow);
      || (Lookup(m, key) == None && Lookup(m', key) == None && !admitted)
      || (Lookup(m', key) == Some(Hit(lim, Lookup(m, key), now).0) && admitted == Hit(lim, Lookup(m, key), now).1)
  {
  }

  lemma {:induction false} WindowInvHolds(lim: Limits, ops: seq<Op>, key: string, lo: Time)
    requires lim.window > 0 && Forward(ops)
    ensures WindowInv(lim, Lookup(Replay(lim, ops), key), LastTime(ops),
                      AdmittedInWindows(lim, ops, key, lo, lo + lim.window), lo)
    decreases |ops|
  {
    if ops != [] {
      var init, op := ops[..|ops| - 1], ops[|ops| - 1];
      ForwardPrefix(ops);
      WindowInvHolds(lim, init, key, lo);
      var m, n := Replay(lim, init), AdmittedInWindows(lim, init, key, lo, lo + lim.window);
      if op.CheckOp? && op.key == key {
        OwnStep(lim, m, key, op.now, op.sweepNow);
        HitKeeps(lim, Lookup(m, key), LastTime(init), n, lo, op.now);
        DropKeeps(lim, Lookup(m, key), LastTime(init), n, lo, op.now, op.sweepNow);
        if Lookup(Replay(lim, ops), key).Some? {
          DropKeeps(lim, Lookup(Replay(lim, ops), key), Some(op.now),
                    AdmittedInWindows(lim, ops, key, lo, lo + lim.window), lo, op.now, op.sweepNow);
        }
      } else {
        OtherStep(lim, m, op, key);
        DropKeeps(lim, Lookup(m, key), LastTime(init), n, lo, Until(op), Until(op));
      }
    }
  }

  /** An admission with the clock in [a, a + window] went into a window started in (a - window, a + window]. */
  lemma {:induction false} AdmissionsByWindow(lim: Limits, ops: seq<Op>, key: string, a: Time)
    requires lim.window > 0 && Forward(ops)
    ensures AdmittedBetween(lim, ops, key, a, a + lim.window) <=
            AdmittedInWindows(lim, ops, key, a - lim.window, a) + AdmittedInWindows(lim, ops, key, a, a + lim.window)
    decreases |ops|
  {
    if ops != [] {
      var init, op := ops[..|ops| - 1], ops[|ops| - 1];
      ForwardPrefix(ops);
      AdmissionsByWindow(lim, init, key, a);
      if LastAdmitted(lim, ops) && op.key == key {
        WindowInvHolds(lim, init, key, a);
        OwnStep(lim, Replay(lim, init), key, op.now, op.sweepNow);
        HitKeeps(lim, Lookup(Replay(lim, init), key), LastTime(init),
                 AdmittedInWindows(lim, init, key, a, a + lim.window), a, op.now);
      }
    }
  }

  /** In any closed interval of one window's length, a key is admitted at most 2 * max(1, budget) times. */
  lemma SlidingBound(lim: Limits, ops: seq<Op>, key: string, a: Time)
    requires lim.window > 0 && Forward(ops)
    ensures AdmittedBetween(lim, ops, key, a, a + lim.window) <= 2 * Max1(lim.maxRequests)
  {
    AdmissionsByWindow(lim, ops, key, a);
    WindowInvHolds(lim, ops, key, a - lim.window);
    WindowInvHolds(lim, ops, key, a);
  }

  // ---- The bound is attained ----

  function Burst(key: string, t: Time, n: nat): seq<Op> {
    seq(n, i => CheckOp(key, t, t))
  }

  lemma ReplaySnoc(lim: Limits, ops: seq<Op>, op: Op, key: string, a: Time, b: Time)
    ensures Replay(lim, ops + [op]) == Step(lim, Replay(lim, ops), op)
    ensures AdmittedBetween(lim, ops + [op], key, a, b) ==
      AdmittedBetween(lim, ops, key, a, b) +
      if op.CheckOp? && Check(lim, Replay(lim, ops), op.key, op.now, op.sweepNow).1 && op.key == key && a <= op.now <= b
      then 1 else 0
  {
    assert (ops + [op])[..|ops|] == ops;
  }

  lemma OneMorePasses(lim: Limits, m: Windows, key: string, t: Time, n: nat)
    requires lim.window > 0 && 1 <= n <= lim.maxRequests && m.Keys <= {key}
    requires if n == 1 then key in m ==> Expired(lim, m[key], t) else m == map[key := Window(t, n - 1)]
    ensures Check(lim, m, key, t, t) == (map[key := Window(t, n)], true)
  {
    KeysBound(m.Keys, {key});
    assert !NeedsRoom(m, key);
    assert m[key := Window(t, n)] == map[key := Window(t, n)];
  }

  lemma BurstSnoc(ops: seq<Op>, key: string, t: Time, n: nat)
    requires n > 0
    ensures ops + Burst(key, t, n) == (ops + Burst(key, t, n - 1)) + [CheckOp(key, t, t)]
  {
  }

  /** What a burst of `n` checks leaves of the map: one window holding them all. */
  function AfterBurst(m: Windows, key: string, t: Time, n: nat): Windows {
    if n == 0 then m else map[key := Window(t, n)]
  }

  /** One more check at the end of the run, still within the budget. */
  lemma CheckPasses(lim: Limits, before: seq<Op>, m: Windows, key: string,
                    t: Time, n: nat, a: Time, b: Time)
    requires lim.window > 0 && 1 <= n <= lim.maxRequests && a <= t <= b
    requires m.Keys <= {key} && (key in m ==> Expired(lim, m[key], t))
    requires Replay(lim, before) == AfterBurst(m, key, t, n - 1)
    ensures Replay(lim, before + [CheckOp(key, t, t)]) == AfterBurst(m, key, t, n)
    ensures AdmittedBetween(lim, before + [CheckOp(key, t, t)], key, a, b) ==
            AdmittedBetween(lim, before, key, a, b) + 1
  {
    ReplaySnoc(lim, before, CheckOp(key, t, t), key, a, b);
    OneMorePasses(lim, AfterBurst(m, key, t, n - 1), key, t, n);
  }

  /** Up to a budget of checks at one instant, on a key whose window is over (or was never opened), all pass. */
  lemma {:induction false} BurstPasses(lim: Limits, ops: seq<Op>, m: Windows, key: string,
                                       t: Time, n: nat, a: Time, b: Time)
    requires lim.window > 0 && n <= lim.maxRequests && a <= t <= b
    requires m == Replay(lim, ops) && m.Keys <= {key} && (key in m ==> Expired(lim, m[key], t))
    ensures AdmittedBetween(lim, ops + Burst(key, t, n), key, a, b) == AdmittedBetween(lim, ops, key, a, b) + n
    ensures Replay(lim, ops + Burst(key, t, n)) == AfterBurst(m, key, t, n)
  {
    if n == 0 {
      assert ops + Burst(key, t, n) == ops;
    } else {
      BurstPasses(lim, ops, m, key, t, n - 1, a, b);
      BurstSnoc(ops, key, t, n);
      CheckPasses(lim, ops + Burst(key, t, n - 1), m, key, t, n, a, b);
    }
  }

  lemma {:induction false} BurstsMoveForward(key: string, t: Time, u: Time, n: nat)
    requires t <= u
    ensures Forward(Burst(key, t, n) + Burst(key, u, n))
  {
  }

  /** A budget spent at an instant, and again one window later. */
  lemma TwoBursts(lim: Limits, key: string) returns (ops: seq<Op>)
    requires lim.window > 0 && lim.maxRequests > 0
    ensures Forward(ops) && AdmittedBetween(lim, ops, key, 0, lim.window) == 2 * lim.maxRequests
  {
    var n := lim.maxRequests;
    var first := Burst(key, 0, n);
    ops := first + Burst(key, lim.window, n);
    assert [] + first == first;
    BurstPasses(lim, [], map[], key, 0, n, 0, lim.window);
    BurstPasses(lim, first, map[key := Window(0, n)], key, lim.window, n, 0, lim.window);
    BurstsMoveForward(key, 0, lim.window, n);
  }

  lemma ExpiryAdmits(lim: Limits, ops: seq<Op>, m: Windows, key: string, now: Time)
    requires m == Replay(lim, ops) && m.Keys == {key} && Expired(lim, m[key], now)
    ensures Check(lim, Replay(lim, ops), key, now, now) == (map[key := Window(now, 1)], true)
  {
    assert m[key := Window(now, 1)] == map[key := Window(now, 1)];
  }

  /** With a zero budget the first check is refused, and expiry then admits one check per window. */
  lemma TwoExpiries(lim: Limits, key: string) returns (ops: seq<Op>)
    requires lim.window > 0 && lim.maxRequests == 0
    ensures Forward(ops) && AdmittedBetween(lim, ops, key, lim.window, 2 * lim.window) == 2
  {
    var w: Time := lim.window;
    var a, b, c := CheckOp(key, 0, 0), CheckOp(key, w, w), CheckOp(key, 2 * w, 2 * w);
    ReplaySnoc(lim, [], a, key, w, 2 * w);
    assert [] + [a] == [a] && Replay(lim, []) == map[];
    ExpiryAdmits(lim, [a], map[key := Window(0, 0)], key, w);
    ReplaySnoc(lim, [a], b, key, w, 2 * w);
    assert [a] + [b] == [a, b];
    ExpiryAdmits(lim, [a, b], map[key := Window(w, 1)], key, 2 * w);
    ReplaySnoc(lim, [a, b], c, key, w, 2 * w);
    ops := [a, b] + [c];
  }

  /** The bound is attained for every budget: the factor two is needed, and so is the one in place of zero. */
  lemma SlidingBoundIsAttained(lim: Limits, key: string) returns (ops: seq<Op>, a: Time)
    requires lim.window > 0
    ensures Forward(ops) && AdmittedBetween(lim, ops, key, a, a + lim.window) == 2 * Max1(lim.maxRequests)
  {
    if lim.maxRequests == 0 {
      ops := TwoExpiries(lim, key);
      a := lim.window;
    } else {
      ops := TwoBursts(lim, key);
      a := 0;
    }
  }

  /** Operation `i` of the run is a check of `key` that was admitted with the clock in [a, b]. */
  predicate PassedAt(lim: Limits, ops: seq<Op>, key: string, a: Time, b: Time, i: nat) {
    i < |ops| && LastAdmitted(lim, ops[..i + 1]) && ops[i].key == key && a <= ops[i].now <= b
  }

  /** The checks counted by `AdmittedBetween`, by their places in the run. */
  ghost function PassedChecks(lim: Limits, ops: seq<Op>, key: string, a: Time, b: Time): set<nat> {
    set i: nat | i < |ops| && PassedAt(lim, ops, key, a, b, i)
  }

  lemma PassedBefore(lim: Limits, ops: seq<Op>, key: string, a: Time, b: Time, i: nat)
    requires i < |ops| - 1
    ensures PassedAt(lim, ops, key, a, b, i) <==> PassedAt(lim, ops[..|ops| - 1], key, a, b, i)
  {
    assert ops[..|ops| - 1][..i + 1] == ops[..i + 1];
  }

  lemma PassedSnoc(lim: Limits, ops: seq<Op>, key: string, a: Time, b: Time)
    requires ops != []
    ensures PassedChecks(lim, ops, key, a, b) ==
      PassedChecks(lim, ops[..|ops| - 1], key, a, b) +
      if PassedAt(lim, ops, key, a, b, |ops| - 1) then {|ops| - 1} else {}
  {
    forall i: nat | i < |ops| - 1
      ensures PassedAt(lim, ops, key, a, b, i) <==> PassedAt(lim, ops[..|ops| - 1], key, a, b, i)
    {
      PassedBefore(lim, ops, key, a, b, i);
    }
  }

  lemma {:induction false} PassedCount(lim: Limits, ops: seq<Op>, key: string, a: Time, b: Time)
    ensures |PassedChecks(lim, ops, key, a, b)| == AdmittedBetween(lim, ops, key, a, b)
    decreases |ops|
  {
    if ops == [] {
      assert PassedChecks(lim, ops, key, a, b) == {};
    } else {
      PassedCount(lim, ops[..|ops| - 1], key, a, b);
      PassedSnoc(lim, ops, key, a, b);
      assert ops[..|ops|] == ops;
    }
  }

  // ---- What one check does ----

  /** A sweep keeps exactly the windows that are still running. */
  lemma SweepIsExact(lim: Limits, m: Windows, now: Time, key: string)
    ensures key in Sweep(lim, m, now) <==> key in m && Since(now, m[key].start) < lim.window
    ensures key in Sweep(lim, m, now) ==> Sweep(lim, m, now)[key] == m[key]
  {
  }

  /** There is room for the key: it is tracked, or the map is not full, or a sweep makes it so. */
  predicate HasRoom(lim: Limits, m: Windows, key: string, sweepNow: Time) {
    key in m || |m| < MAX_TRACKED_KEYS || |Sweep(lim, m, sweepNow)| < MAX_TRACKED_KEYS
  }

  /** A tracked key is admitted exactly when its window is over or has budget left; a new one when there is room. */
  lemma CheckAnswer(lim: Limits, m: Windows, key: string, now: Time, sweepNow: Time)
    ensures Check(lim, m, key, now, sweepNow).1 <==>
      if key in m then Since(now, m[key].start) >= lim.window || m[key].count < lim.maxRequests
      else HasRoom(lim, m, key, sweepNow) && (lim.maxRequests > 0 || lim.window == 0)
  {
  }

  /** The key's window afterwards, and that other keys' windows are kept, or dropped by a sweep once over. */
  lemma CheckEffect(lim: Limits, m: Windows, key: string, now: Time, sweepNow: Time)
    requires HasRoom(lim, m, key, sweepNow)
    ensures
      var (m', admitted) := Check(lim, m, key, now, sweepNow);
      && key in m'
      && (admitted && (key !in m || Since(now, m[key].start) >= lim.window) ==> m'[key] == Window(now, 1))
      && (admitted && key in m && Since(now, m[key].start) < lim.window ==>
            m'[key] == Window(m[key].start, m[key].count + 1))
      && (!admitted ==> m'[key] == if key in m then m[key] else Window(now, 0))
      && (forall k :: k != key && k in m' ==> k in m && m'[k] == m[k])
      && (forall k :: k != key && k in m && k !in m' ==> Since(sweepNow, m[k].start) >= lim.window)
      && (!NeedsRoom(m, key) ==> m'.Keys == m.Keys + {key})
  {
  }

  // ---- The simple limiter: every answer by counting, with no map, cap or sweep ----

  /** The times at which `key` was checked, in order. */
  function TimesOf(ops: seq<Op>, key: string): seq<Time> {
    if ops == [] then []
    else
      var op := ops[|ops| - 1];
      TimesOf(ops[..|ops| - 1], key) + if op.CheckOp? && op.key == key then [op.now] else []
  }

  /** The check that opened the window of the last check: the first ever, or one at least a window after its opener. */
  function Opener(lim: Limits, times: seq<Time>): (o: nat)
    requires times != []
    ensures o < |times|
    decreases |times|
  {
    var last := |times| - 1;
    if last == 0 then 0
    else
      var o := Opener(lim, times[..last]);
      if Since(times[last], times[o]) >= lim.window then last else o
  }

  /**
   The answer to the last check. A later check that opens a window passes; the first ever passes if there is any
   budget (or windows are empty); any other passes if fewer than the budget passed since its window opened.
   */
  predicate Passes(lim: Limits, times: seq<Time>)
    requires times != []
    decreases |times|, 1
  {
    var last, o := |times| - 1, Opener(lim, times);
    if o == last then last > 0 || lim.maxRequests > 0 || lim.window == 0
    else Passed(lim, times[..last], o) < lim.maxRequests
  }

  /** How many of the checks from the one numbered `from` on passed. */
  function Passed(lim: Limits, times: seq<Time>, from: nat): nat
    decreases |times|, 2
  {
    if |times| <= from then 0
    else Passed(lim, times[..|times| - 1], from) + if Passes(lim, times) then 1 else 0
  }

  /** The window the limiter holds for a key checked at these times, when nothing is swept. */
  function PlainWindow(lim: Limits, times: seq<Time>): Option<Window> {
    if times == [] then None
    else Some(Window(times[Opener(lim, times)], Passed(lim, times, Opener(lim, times))))
  }

  lemma OpenerPrefix(lim: Limits, times: seq<Time>)
    requires |times| > 1
    ensures
      var o := Opener(lim, times[..|times| - 1]);
      Opener(lim, times) == if Since(times[|times| - 1], times[o]) >= lim.window then |times| - 1 else o
  {
  }

  /** One more check acts on that window as the limiter does. */
  lemma PlainHit(lim: Limits, times: seq<Time>, now: Time)
    ensures PlainWindow(lim, times + [now]) == Some(Hit(lim, PlainWindow(lim, times), now).0)
    ensures Passes(lim, times + [now]) == Hit(lim, PlainWindow(lim, times), now).1
  {
    var all := times + [now];
    assert all[..|times|] == times && all[|times|] == now;
    var o := Opener(lim, all);
    assert Passed(lim, all, o) == Passed(lim, times, o) + if Passes(lim, all) then 1 else 0;
    if times != [] {
      OpenerPrefix(lim, all);
      assert all[Opener(lim, times)] == times[Opener(lim, times)];
    }
    assert o == |times| ==> Passed(lim, times, o) == 0;
  }

  // ---- Sweeping is invisible ----

  /** The answer of the last operation by the simple limiter. */
  predicate PlainLastAdmitted(lim: Limits, ops: seq<Op>)
    requires ops != []
  {
    var op := ops[|ops| - 1];
    op.CheckOp? && TimesOf(ops, op.key) != [] && Passes(lim, TimesOf(ops, op.key))
  }

  /** No check in the run is refused for want of room. */
  ghost predicate NeverRefused(lim: Limits, ops: seq<Op>) {
    ops != [] ==>
      var op := ops[|ops| - 1];
      && NeverRefused(lim, ops[..|ops| - 1])
      && (op.CheckOp? ==> !Refused(lim, Replay(lim, ops[..|ops| - 1]), op.key, op.sweepNow))
  }

  /** The limiter holds the simple limiter's window, or nothing once that window is over. */
  predicate TracksKey(lim: Limits, entry: Option<Window>, plain: Option<Window>, t: Option<Time>) {
    entry == plain || (entry == None && plain.Some? && t.Some? && Expired(lim, plain.value, t.value))
  }

  /** Expiry admits a key exactly as a fresh entry does, if the budget is not zero (or windows are empty). */
  predicate SweepSafe(lim: Limits) {
    lim.maxRequests >= 1 || lim.window == 0
  }

  lemma TracksHit(lim: Limits, entry: Option<Window>, plain: Option<Window>, t: Option<Time>, now: Time)
    requires SweepSafe(lim) && TracksKey(lim, entry, plain, t) && (t.Some? ==> t.value <= now)
    ensures Hit(lim, entry, now) == Hit(lim, plain, now)
  {
  }

  lemma TracksLater(lim: Limits, entry: Option<Window>, plain: Option<Window>, t: Option<Time>, later: Time)
    requires TracksKey(lim, entry, plain, t) && (t.Some? ==> t.value <= later)
    ensures TracksKey(lim, entry, plain, Some(later))
    ensures entry.Some? && Expired(lim, entry.value, later) ==> TracksKey(lim, None, plain, Some(later))
  {
  }

  lemma TracksOwnStep(lim: Limits, m: Windows, plain: Option<Window>, t: Option<Time>, op: Op)
    requires SweepSafe(lim) && op.CheckOp? && !Refused(lim, m, op.key, op.sweepNow)
    requires TracksKey(lim, Lookup(m, op.key), plain, t) && (t.Some? ==> t.value <= op.now)
    ensures Check(lim, m, op.key, op.now, op.sweepNow).1 == Hit(lim, plain, op.now).1
    ensures Lookup(Step(lim, m, op), op.key) == Some(Hit(lim, plain, op.now).0)
  {
    TracksHit(lim, Lookup(m, op.key), plain, t, op.now);
    OwnStep(lim, m, op.key, op.now, op.sweepNow);
  }

  lemma TimesSnoc(ops: seq<Op>, key: string)
    requires ops != []
    ensures
      var init, op := TimesOf(ops[..|ops| - 1], key), ops[|ops| - 1];
      TimesOf(ops, key) == if op.CheckOp? && op.key == key then init + [op.now] else init
  {
  }

  lemma {:induction false} TracksRun(lim: Limits, ops: seq<Op>, key: string)
    requires SweepSafe(lim) && Forward(ops) && NeverRefused(lim, ops)
    ensures TracksKey(lim, Lookup(Replay(lim, ops), key), PlainWindow(lim, TimesOf(ops, key)), LastTime(ops))
    ensures ops != [] && ops[|ops| - 1].CheckOp? && ops[|ops| - 1].key == key ==>
      LastAdmitted(lim, ops) == PlainLastAdmitted(lim, ops)
    decreases |ops|
  {
    if ops != [] {
      var init, op := ops[..|ops| - 1], ops[|ops| - 1];
      var times := TimesOf(init, key);
      ForwardPrefix(ops);
      TracksRun(lim, init, key);
      TimesSnoc(ops, key);
      if op.CheckOp? && op.key == key {
        TracksOwnStep(lim, Replay(lim, init), PlainWindow(lim, times), LastTime(init), op);
        PlainHit(lim, times, op.now);
      } else {
        OtherStep(lim, Replay(lim, init), op, key);
        TracksLater(lim, Lookup(Replay(lim, init), key), PlainWindow(lim, times), LastTime(init), Until(op));
      }
    }
  }

  /** Every answer in the run is the one the simple limiter gives. */
  ghost predicate SameAnswers(lim: Limits, ops: seq<Op>) {
    ops != [] ==> SameAnswers(lim, ops[..|ops| - 1]) && LastAdmitted(lim, ops) == PlainLastAdmitted(lim, ops)
  }

  lemma {:induction false} SafeRunsAgree(lim: Limits, ops: seq<Op>)
    requires SweepSafe(lim) && Forward(ops) && NeverRefused(lim, ops)
    ensures SameAnswers(lim, ops)
    decreases |ops|
  {
    if ops != [] {
      ForwardPrefix(ops);
      SafeRunsAgree(lim, ops[..|ops| - 1]);
      if ops[|ops| - 1].CheckOp? { TracksRun(lim, ops, ops[|ops| - 1].key); }
    }
  }

  lemma Unroll3(lim: Limits, a: Op, b: Op, c: Op)
    ensures Replay(lim, [a, b]) == Step(lim, Step(lim, map[], a), b)
    ensures [a, b, c][..2] == [a, b]
  {
    assert [a, b, c][..2] == [a, b] && [a, b][..1] == [a] && [a][..0] == [];
    assert Replay(lim, []) == map[];
    assert Replay(lim, [a]) == Step(lim, map[], a);
  }

  /** Two checks a window apart: the second opens a window, and passes. */
  lemma SecondPasses(lim: Limits, key: string, a: Op, b: Op, c: Op)
    requires a == CheckOp(key, 0, 0) && b.SweepOp? && c == CheckOp(key, lim.window, lim.window)
    ensures TimesOf([a, b, c], key) == [0, lim.window] && Passes(lim, [0, lim.window])
  {
    assert [a, b, c][..2] == [a, b] && [a, b][..1] == [a] && [a][..0] == [];
    assert TimesOf([], key) == [] && TimesOf([a], key) == [0] && TimesOf([a, b], key) == [0];
    assert TimesOf([a, b, c], key) == [0] + [lim.window];
    assert [0, lim.window][..1] == [0] && Opener(lim, [0]) == 0 && Opener(lim, [0, lim.window]) == 1;
  }

  /** With a zero budget a sweep can be seen: unswept, an expired window admits; swept, the key is new and refused. */
  lemma ZeroBudgetShowsSweep(lim: Limits) returns (ops: seq<Op>)
    requires !SweepSafe(lim)
    ensures Forward(ops) && NeverRefused(lim, ops) && !SameAnswers(lim, ops)
  {
    var a, b, c := CheckOp("k", 0, 0), SweepOp(lim.window), CheckOp("k", lim.window, lim.window);
    ops := [a, b, c];
    Unroll3(lim, a, b, c);
    SecondPasses(lim, "k", a, b, c);
    var m := Step(lim, map[], a);
    assert m == map["k" := Window(0, 0)];
    assert Sweep(lim, m, lim.window) == map[];
    assert Replay(lim, [a, b]) == map[];
    assert [a, b][..1] == [a] && [a][..0] == [];
    assert Replay(lim, []) == map[] && |Replay(lim, [])| == 0;
    assert NeverRefused(lim, [a]) && NeverRefused(lim, [a, b]);
    assert PlainLastAdmitted(lim, ops) && !LastAdmitted(lim, ops);
  }

  /**
   Sweeping at arbitrary times is invisible in every run without refusals exactly when the budget is not zero or
   windows are empty.
   */
  lemma SweepingIsInvisibleIff(lim: Limits)
    ensures SweepSafe(lim) <==>
            forall ops :: Forward(ops) && NeverRefused(lim, ops) ==> SameAnswers(lim, ops)
  {
    if SweepSafe(lim) {
      forall ops | Forward(ops) && NeverRefused(lim, ops) ensures SameAnswers(lim, ops) {
        SafeRunsAgree(lim, ops);
      }
    } else {
      var ops := ZeroBudgetShowsSweep(lim);
    }
  }

  // ---- A window admits exactly its budget ----

  /** The limiter's answers to the checks of `key`, in order. */
  function AnswersTo(lim: Limits, ops: seq<Op>, key: string): seq<bool> {
    if ops == [] then []
    else
      var op := ops[|ops| - 1];
      AnswersTo(lim, ops[..|ops| - 1], key) +
      if op.CheckOp? && op.key == key then [LastAdmitted(lim, ops)] else []
  }

  /** Each answer in a run without refusals is the simple limiter's for the checks up to it. */
  lemma {:induction false} AnswersAreCounted(lim: Limits, ops: seq<Op>, key: string, i: nat)
    requires SweepSafe(lim) && Forward(ops) && NeverRefused(lim, ops)
    ensures |AnswersTo(lim, ops, key)| == |TimesOf(ops, key)|
    ensures i < |TimesOf(ops, key)| ==> AnswersTo(lim, ops, key)[i] == Passes(lim, TimesOf(ops, key)[..i + 1])
    decreases |ops|
  {
    if ops != [] {
      var init := ops[..|ops| - 1];
      var times := TimesOf(init, key);
      ForwardPrefix(ops);
      AnswersAreCounted(lim, init, key, i);
      TimesSnoc(ops, key);
      TracksRun(lim, ops, key);
      if i < |times| {
        assert TimesOf(ops, key)[..i + 1] == times[..i + 1];
      } else if i < |TimesOf(ops, key)| {
        assert TimesOf(ops, key)[..i + 1] == TimesOf(ops, key);
      }
    }
  }

  /** Check `o` opens a window, and the `n` checks from it on fall into that window. */
  predicate OneWindow(lim: Limits, times: seq<Time>, o: nat, n: nat) {
    && o + n <= |times| && n > 0 && Opener(lim, times[..o + 1]) == o
    && forall i :: o < i < o + n ==> Since(times[i], times[o]) < lim.window
  }

  lemma {:induction false} OpenerStays(lim: Limits, times: seq<Time>, o: nat, n: nat)
    requires OneWindow(lim, times, o, n)
    ensures Opener(lim, times[..o + n]) == o
    decreases n
  {
    if n > 1 {
      OpenerStays(lim, times, o, n - 1);
      assert times[..o + n][..o + n - 1] == times[..o + (n - 1)];
    }
  }

  function Min(a: nat, b: nat): nat {
    if a < b then a else b
  }

  lemma {:induction false} WindowPasses(lim: Limits, times: seq<Time>, o: nat, n: nat)
    requires lim.maxRequests > 0 && OneWindow(lim, times, o, n)
    ensures Passed(lim, times[..o + n], o) == Min(n, lim.maxRequests)
    decreases n
  {
    OpenerStays(lim, times, o, n);
    assert times[..o + n][..o + n - 1] == times[..o + (n - 1)];
    if n > 1 {
      WindowPasses(lim, times, o, n - 1);
    } else {
      assert Passed(lim, times[..o], o) == 0;
    }
  }

  /**
   Of the checks of a key in one of its windows, at whatever times within it, the limiter admits exactly the first
   ones up to the budget and refuses the rest: in any run without refusals for want of room, whatever is swept or
   checked in between.
   */
  lemma WindowAdmitsExactly(lim: Limits, ops: seq<Op>, key: string, o: nat, n: nat)
    requires lim.maxRequests > 0 && Forward(ops) && NeverRefused(lim, ops)
    requires n > 0 && OneWindow(lim, TimesOf(ops, key), o, n)
    ensures |AnswersTo(lim, ops, key)| == |TimesOf(ops, key)|
    ensures AnswersTo(lim, ops, key)[o + n - 1] <==> n <= lim.maxRequests
  {
    var times := TimesOf(ops, key);
    AnswersAreCounted(lim, ops, key, o + n - 1);
    OpenerStays(lim, times, o, n);
    assert times[..o + n - 1 + 1] == times[..o + n];
    if n > 1 {
      WindowPasses(lim, times, o, n - 1);
      assert times[..o + n][..o + n - 1] == times[..o + (n - 1)];
    }
  }

  // ---- Few keys ----

  /** The keys checked in a run. */
  function KeysOf(ops: seq<Op>): set<string> {
    set i | 0 <= i < |ops| && ops[i].CheckOp? :: ops[i].key
  }

  lemma {:induction false} TrackedKeysWereChecked(lim: Limits, ops: seq<Op>)
    ensures Replay(lim, ops).Keys <= KeysOf(ops)
    decreases |ops|
  {
    if ops != [] {
      var init, op := ops[..|ops| - 1], ops[|ops| - 1];
      TrackedKeysWereChecked(lim, init);
      assert KeysOf(init) <= KeysOf(ops);
      if op.CheckOp? { assert op.key in KeysOf(ops); }
    }
  }

  /** With no more distinct keys than the cap, nothing is ever refused for want of room. */
  lemma {:induction false} FewKeysAreNeverRefused(lim: Limits, ops: seq<Op>)
    requires |KeysOf(ops)| <= MAX_TRACKED_KEYS
    ensures NeverRefused(lim, ops)
    decreases |ops|
  {
    if ops != [] {
      var init, op := ops[..|ops| - 1], ops[|ops| - 1];
      assert KeysOf(init) <= KeysOf(ops);
      KeysBound(KeysOf(init), KeysOf(ops));
      FewKeysAreNeverRefused(lim, init);
      if op.CheckOp? && op.key !in Replay(lim, init) {
        TrackedKeysWereChecked(lim, init);
        assert op.key in KeysOf(ops);
        KeysBound(Replay(lim, init).Keys + {op.key}, KeysOf(ops));
      }
    }
  }
}
