/** The per-slot circuit breaker. Times are milliseconds, backoff delays are seconds. */
module Circuit {
  import opened Bytes

  const THRESHOLD: nat := 3
  const WINDOW: int := 60_000
  const COOLDOWN: int := 300_000
  const BASE_DELAY: real := 1.0
  const MAX_DELAY: real := 30.0

  datatype Verdict = Respawn(delay: real) | CircuitOpen | HalfOpenProbe

  datatype Breaker = Breaker(crashTimes: seq<int>, openUntil: Option<int>)

  function Recent(times: seq<int>, now: int): seq<int> {
    if |times| == 0 then []
    else
      var init, last := times[..|times| - 1], times[|times| - 1];
      Recent(init, now) + if now - last < WINDOW then [last] else []
  }

  /** The history a probe leaves behind: one crash short of the threshold, all of them at `now`. */
  function Seeded(now: int): seq<int> {
    seq(THRESHOLD - 1, _ => now)
  }

  function Doubled(n: nat): real {
    if n == 0 then BASE_DELAY else 2.0 * Doubled(n - 1)
  }

  /** One second doubled per recent crash, capped, with up to 20% jitter either way. */
  function Backoff(recent: nat, jitter: real): real
    requires recent >= 1
  {
    var base := Doubled(if recent - 1 < 5 then recent - 1 else 5);
    var capped := if base < MAX_DELAY then base else MAX_DELAY;
    capped * (0.8 + jitter * 0.4)
  }

  function Crashed(b: Breaker, now: int, jitter: real): (Breaker, Verdict) {
    if b.openUntil.Some? then
      if now >= b.openUntil.value then (Breaker(Seeded(now), None), HalfOpenProbe) else (b, CircuitOpen)
    else
      var recent := Recent(b.crashTimes + [now], now);
      if |recent| >= THRESHOLD then (Breaker(recent, Some(now + COOLDOWN)), CircuitOpen)
      else
        assert |recent| >= 1;
        (Breaker(recent, None), Respawn(Backoff(|recent|, jitter)))
  }

  function SpawnFailed(b: Breaker, now: int): Breaker {
    b.(openUntil := Some(now + COOLDOWN))
  }

  function Refilled(b: Breaker, now: int): (Breaker, bool) {
    if b.openUntil.None? then (b, true)
    else if now >= b.openUntil.value then (Breaker(Seeded(now), None), true)
    else (b, false)
  }

  class SlotCircuit {
    var crashTimes: seq<int>
    var openUntil: Option<int>

    function Value(): Breaker
      reads this
    {
      Breaker(crashTimes, openUntil)
    }

    constructor ()
      ensures Value() == Breaker([], None)
    {
      crashTimes, openUntil := [], None;
    }

    method Seed(now: int)
      modifies this`crashTimes
      ensures crashTimes == Seeded(now)
    {
      crashTimes := [];
      for i := 0 to THRESHOLD - 1
        invariant crashTimes == seq(i, _ => now)
      {
        crashTimes := crashTimes + [now];
      }
    }

    method RecordCrash(now: int, jitter: real) returns (verdict: Verdict)
      modifies this
      ensures (Value(), verdict) == Crashed(old(Value()), now, jitter)
    {
      if openUntil.Some? {
        if now >= openUntil.value {
          Seed(now);
          openUntil := None;
          return HalfOpenProbe;
        }
        return CircuitOpen;
      }
      crashTimes := crashTimes + [now];
      var kept := [];
      for i := 0 to |crashTimes|
        invariant kept == Recent(crashTimes[..i], now)
      {
        assert crashTimes[..i + 1][..i] == crashTimes[..i];
        if now - crashTimes[i] < WINDOW {
          kept := kept + [crashTimes[i]];
        }
      }
      assert crashTimes[..|crashTimes|] == crashTimes;
      crashTimes := kept;
      var recent := |crashTimes|;
      if recent >= THRESHOLD {
        openUntil := Some(now + COOLDOWN);
        return CircuitOpen;
      }
      verdict := Respawn(Backoff(recent, jitter));
    }

    method MarkSpawnFailed(now: int)
      modifies this`openUntil
      ensures Value() == SpawnFailed(old(Value()), now)
    {
      openUntil := Some(now + COOLDOWN);
    }

    method CanRefill(now: int) returns (ok: bool)
      modifies this
      ensures (Value(), ok) == Refilled(old(Value()), now)
    {
      if openUntil.None? {
        return true;
      }
      if now >= openUntil.value {
        Seed(now);
        openUntil := None;
        return true;
      }
      ok := false;
    }
  }

  // ---- Runs with nondecreasing time ----

  datatype Action = Crash(at: int, jitter: real) | Fail(at: int) | Refill(at: int)

  /** The breaker, when `record_crash` granted a respawn or a probe, and whether the last action was granted. */
  datatype Trace = Trace(breaker: Breaker, grants: seq<int>, granted: bool)

  function Step(t: Trace, a: Action): Trace {
    match a
    case Crash(now, jitter) =>
      var (b, v) := Crashed(t.breaker, now, jitter);
      if v == CircuitOpen then Trace(b, t.grants, false) else Trace(b, t.grants + [now], true)
    case Fail(now) => Trace(SpawnFailed(t.breaker, now), t.grants, false)
    case Refill(now) =>
      var (b, ok) := Refilled(t.breaker, now);
      Trace(b, t.grants, ok)
  }

  function Resume(t: Trace, actions: seq<Action>): Trace {
    if |actions| == 0 then t else Step(Resume(t, actions[..|actions| - 1]), actions[|actions| - 1])
  }

  const FRESH: Trace := Trace(Breaker([], None), [], false)

  ghost predicate Nondecreasing(actions: seq<Action>) {
    forall i, j :: 0 <= i < j < |actions| ==> actions[i].at <= actions[j].at
  }

  /** How many of `times` are later than `x`. */
  function After(times: seq<int>, x: int): nat {
    if |times| == 0 then 0
    else After(times[..|times| - 1], x) + if times[|times| - 1] > x then 1 else 0
  }

  lemma AfterPush(times: seq<int>, t: int, x: int)
    ensures After(times + [t], x) == After(times, x) + if t > x then 1 else 0
  {
    assert (times + [t])[..|times|] == times;
  }

  lemma RecentPush(times: seq<int>, t: int, now: int)
    ensures Recent(times + [t], now) == Recent(times, now) + if now - t < WINDOW then [t] else []
  {
    assert (times + [t])[..|times|] == times;
  }

  lemma {:induction false} AfterRecent(times: seq<int>, now: int, x: int)
    requires x >= now - WINDOW
    ensures After(Recent(times, now), x) == After(times, x)
  {
    if |times| > 0 {
      var init, last := times[..|times| - 1], times[|times| - 1];
      AfterRecent(init, now, x);
      assert Recent(init, now) + [] == Recent(init, now);
      AfterPush(Recent(init, now), last, x);
    }
  }

  lemma {:induction false} AfterNone(times: seq<int>, x: int)
    requires AllBy(times, x)
    ensures After(times, x) == 0
  {
    if |times| > 0 {
      assert times[|times| - 1] in times;
      var init := times[..|times| - 1];
      forall t | t in init ensures t <= x {
        assert t in times;
      }
      AfterNone(init, x);
    }
  }

  lemma {:induction false} AfterAtMost(times: seq<int>, x: int)
    ensures After(times, x) <= |times|
  {
    if |times| > 0 {
      AfterAtMost(times[..|times| - 1], x);
    }
  }

  lemma {:induction false} RecentAreTimes(times: seq<int>, now: int)
    ensures forall t :: t in Recent(times, now) ==> t in times
  {
    if |times| > 0 {
      RecentAreTimes(times[..|times| - 1], now);
    }
  }

  /**
   A closed breaker trips exactly when two recorded crashes are less than a window old. Otherwise it
   grants a respawn after one second, or two after a second recent crash, give or take 20%: so every
   delay lies between 0.8 s and 2.4 s and the 30 s cap is never reached.
   */
  lemma TripsOnThirdRecentCrash(b: Breaker, now: int, jitter: real)
    requires b.openUntil.None? && 0.0 <= jitter < 1.0
    ensures var recent := After(b.crashTimes, now - WINDOW); var v := Crashed(b, now, jitter).1;
      && (v == CircuitOpen <==> recent >= THRESHOLD - 1)
      && (recent == 0 ==> v.Respawn? && 0.8 <= v.delay < 1.2)
      && (recent == 1 ==> v.Respawn? && 1.6 <= v.delay < 2.4)
  {
    var all := b.crashTimes + [now];
    AfterPush(b.crashTimes, now, now - WINDOW);
    RecentCount(all, now);
    assert Doubled(1) == 2.0;
  }

  lemma {:induction false} RecentCount(times: seq<int>, now: int)
    ensures |Recent(times, now)| == After(times, now - WINDOW)
  {
    if |times| > 0 {
      RecentCount(times[..|times| - 1], now);
    }
  }

  /** No three grants within one window. */
  ghost predicate Limited(grants: seq<int>) {
    forall i :: 0 <= i && i + 2 < |grants| ==> ApartAt(grants, i)
  }

  ghost predicate ApartAt(grants: seq<int>, i: nat)
    requires i + 2 < |grants|
  {
    grants[i + 2] - grants[i] >= WINDOW
  }

  ghost predicate AllBy(times: seq<int>, x: int) {
    forall t :: t in times ==> t <= x
  }

  /**
   While closed, the recorded crashes of the last window account for every grant in it; while open,
   every crash and every grant is a whole cooldown older than the reopening time.
   */
  ghost predicate Inv(t: Trace, now: int) {
    && Limited(t.grants) && Ordered(t.grants) && AllBy(t.grants, now) && AllBy(t.breaker.crashTimes, now)
    && (t.breaker.openUntil.None? ==>
          forall x :: x >= now - WINDOW ==> After(t.grants, x) <= After(t.breaker.crashTimes, x))
    && (t.breaker.openUntil.Some? ==>
          && t.breaker.openUntil.value <= now + COOLDOWN
          && AllBy(t.grants, t.breaker.openUntil.value - COOLDOWN)
          && AllBy(t.breaker.crashTimes, t.breaker.openUntil.value - COOLDOWN))
  }

  ghost predicate Ordered(times: seq<int>) {
    forall i, j :: 0 <= i < j < |times| ==> times[i] <= times[j]
  }

  /** A grant at `now` keeps the limit when at most one earlier grant is in the window. */
  lemma GrantKeepsLimit(grants: seq<int>, now: int)
    requires Limited(grants) && Ordered(grants) && After(grants, now - WINDOW) <= 1
    ensures Limited(grants + [now])
  {
    var g, n := grants + [now], |grants|;
    forall i | 0 <= i && i + 2 < |g| ensures ApartAt(g, i) {
      if i + 2 < n {
        assert ApartAt(grants, i);
      } else {
        var init := grants[..n - 1];
        assert init[n - 2] == grants[n - 2] <= grants[n - 1];
        assert After(grants, now - WINDOW) >= After(init, now - WINDOW);
      }
    }
  }

  lemma SeededAfter(now: int, x: int)
    ensures After(Seeded(now), x) == if now > x then 2 else 0
  {
    assert Seeded(now) == [] + [now] + [now];
    AfterPush([], now, x);
    AfterPush([] + [now], now, x);
  }

  /** Time passing alone keeps the invariant. */
  lemma InvLater(t: Trace, now: int, later: int)
    requires Inv(t, now) && now <= later
    ensures Inv(t, later)
  {
  }

  lemma OrderedPush(grants: seq<int>, now: int)
    requires Ordered(grants) && AllBy(grants, now)
    ensures Ordered(grants + [now]) && AllBy(grants + [now], now)
  {
    assert forall i :: 0 <= i < |grants| ==> grants[i] in grants;
  }

  lemma ProbeCrashInv(t: Trace, now: int, jitter: real)
    requires Inv(t, now) && t.breaker.openUntil.Some? && now >= t.breaker.openUntil.value
    ensures Inv(Step(t, Crash(now, jitter)), now)
  {
    hide Limited, Ordered, After;
    ProbeInv(t, now);
    OrderedPush(t.grants, now);
    AfterNone(t.grants, now - WINDOW);
    GrantKeepsLimit(t.grants, now);
    forall x | x >= now - WINDOW ensures After(t.grants + [now], x) <= After(Seeded(now), x) {
      AfterNone(t.grants, x);
      AfterPush(t.grants, now, x);
      SeededAfter(now, x);
    }
  }

  lemma ClosedCrashInv(t: Trace, now: int, jitter: real)
    requires Inv(t, now) && t.breaker.openUntil.None?
    ensures Inv(Step(t, Crash(now, jitter)), now)
  {
    hide Backoff, Limited, Ordered, Recent, After;
    var times := t.breaker.crashTimes;
    var recent := Recent(times + [now], now);
    RecentAreTimes(times + [now], now);
    OrderedPush(t.grants, now);
    forall x | x >= now - WINDOW
      ensures After(recent, x) == After(times, x) + if now > x then 1 else 0
    {
      AfterRecent(times + [now], now, x);
      AfterPush(times, now, x);
    }
    if |recent| < THRESHOLD {
      AfterAtMost(recent, now - WINDOW);
      GrantKeepsLimit(t.grants, now);
      forall x | x >= now - WINDOW ensures After(t.grants + [now], x) <= After(recent, x) {
        AfterPush(t.grants, now, x);
      }
    }
  }

  lemma CrashInv(t: Trace, now: int, jitter: real)
    requires Inv(t, now)
    ensures Inv(Step(t, Crash(now, jitter)), now)
  {
    hide Limited, Ordered, After, Recent, Backoff;
    if t.breaker.openUntil.None? {
      ClosedCrashInv(t, now, jitter);
    } else if now >= t.breaker.openUntil.value {
      ProbeCrashInv(t, now, jitter);
    }
  }

  /** At a probe nothing recorded is recent: everything is older than a whole cooldown. */
  lemma ProbeInv(t: Trace, now: int)
    requires Inv(t, now) && t.breaker.openUntil.Some? && now >= t.breaker.openUntil.value
    ensures AllBy(t.grants, now - COOLDOWN) && AllBy(t.breaker.crashTimes, now - COOLDOWN)
  {
  }

  lemma StepInv(t: Trace, a: Action)
    requires Inv(t, a.at)
    ensures Inv(Step(t, a), a.at)
  {
    match a
    case Crash(now, jitter) => CrashInv(t, now, jitter);
    case Fail(now) =>
    case Refill(now) =>
      if t.breaker.openUntil.Some? && now >= t.breaker.openUntil.value {
        ProbeInv(t, now);
        forall x | x >= now - WINDOW ensures After(t.grants, x) == 0 {
          AfterNone(t.grants, x);
        }
      }
  }

  lemma {:induction false} RunInv(actions: seq<Action>)
    requires Nondecreasing(actions) && |actions| > 0
    ensures Inv(Resume(FRESH, actions), actions[|actions| - 1].at)
  {
    var init, a := actions[..|actions| - 1], actions[|actions| - 1];
    if |init| > 0 {
      RunInv(init);
      InvLater(Resume(FRESH, init), init[|init| - 1].at, a.at);
    }
    StepInv(Resume(FRESH, init), a);
  }

  /** In every run any two respawns that have a third between them are a whole window apart. */
  lemma AtMostTwoRespawnsPerWindow(actions: seq<Action>, i: nat)
    requires Nondecreasing(actions) && i + 2 < |Resume(FRESH, actions).grants|
    ensures var g := Resume(FRESH, actions).grants; g[i + 2] - g[i] >= 60_000
  {
    if |actions| > 0 {
      RunInv(actions);
      assert ApartAt(Resume(FRESH, actions).grants, i);
    }
  }

  /** Clearing the history at a probe, by a crash or by a refill, forgets no crash of the last window. */
  lemma ProbeForgetsNoRecentCrash(actions: seq<Action>, now: int)
    requires Nondecreasing(actions) && (|actions| > 0 ==> actions[|actions| - 1].at <= now)
    requires var b := Resume(FRESH, actions).breaker; b.openUntil.Some? && now >= b.openUntil.value
    ensures forall t :: t in Resume(FRESH, actions).breaker.crashTimes ==> now - t >= COOLDOWN > WINDOW
  {
    if |actions| > 0 {
      RunInv(actions);
      InvLater(Resume(FRESH, actions), actions[|actions| - 1].at, now);
      ProbeInv(Resume(FRESH, actions), now);
    }
  }

  // ---- An open circuit ----

  /** Until it may reopen, an open circuit denies every crash and every refill, and only moves its deadline later. */
  lemma {:induction false} OpenDenies(t: Trace, actions: seq<Action>)
    requires t.breaker.openUntil.Some? && Nondecreasing(actions)
    requires forall i :: 0 <= i < |actions| ==> actions[i].at < t.breaker.openUntil.value
    requires forall i :: 0 <= i < |actions| ==> actions[i].at >= t.breaker.openUntil.value - COOLDOWN
    ensures var t' := Resume(t, actions);
      && t'.grants == t.grants && (|actions| > 0 ==> !t'.granted)
      && t'.breaker.openUntil.Some? && t'.breaker.openUntil.value >= t.breaker.openUntil.value
  {
    if |actions| > 0 {
      OpenDenies(t, actions[..|actions| - 1]);
    }
  }

  /** A crash that trips the breaker, or a failed spawn, at time `at`: nothing is granted for 300 seconds. */
  lemma NothingGrantedWhileCooling(t: Trace, a: Action, later: seq<Action>)
    requires a.Fail? || (a.Crash? && t.breaker.openUntil.None? && Step(t, a).breaker.openUntil.Some?)
    requires Nondecreasing(later)
    requires forall i :: 0 <= i < |later| ==> a.at <= later[i].at < a.at + COOLDOWN
    ensures Resume(Step(t, a), later).grants == t.grants
    ensures |later| > 0 ==> !Resume(Step(t, a), later).granted
  {
    OpenDenies(Step(t, a), later);
  }

  /** A probe is granted exactly when the circuit is open and its cooldown has passed. */
  predicate IsProbe(t: Trace, a: Action) {
    !a.Fail? && t.breaker.openUntil.Some? && a.at >= t.breaker.openUntil.value
  }

  /** Between a probe and the next crash only refills and failed spawns happen: no window entry is lost. */
  lemma {:induction false} SeededUntilCrash(t: Trace, probe: Action, quiet: seq<Action>)
    requires IsProbe(t, probe)
    requires forall i :: 0 <= i < |quiet| ==> !quiet[i].Crash? && probe.at <= quiet[i].at < probe.at + WINDOW
    ensures var b := Resume(Step(t, probe), quiet).breaker;
      && b.crashTimes == Seeded(probe.at)
      && (b.openUntil.Some? ==> b.openUntil.value >= probe.at + COOLDOWN)
  {
    if |quiet| > 0 {
      SeededUntilCrash(t, probe, quiet[..|quiet| - 1]);
    }
  }

  lemma ThreeRecent(p: int, now: int)
    requires p <= now < p + WINDOW
    ensures |Recent(Seeded(p) + [now], now)| == THRESHOLD
  {
    assert Seeded(p) + [now] == [] + [p] + [p] + [now];
    RecentPush([], p, now);
    RecentPush([] + [p], p, now);
    RecentPush([] + [p] + [p], now, now);
  }

  /** The first crash within a window after a probe finds the circuit open, or opens it again. */
  lemma CrashAfterProbeReopens(t: Trace, probe: Action, quiet: seq<Action>, now: int, jitter: real)
    requires IsProbe(t, probe) && probe.at <= now < probe.at + WINDOW
    requires forall i :: 0 <= i < |quiet| ==> !quiet[i].Crash? && probe.at <= quiet[i].at < probe.at + WINDOW
    ensures var (b, v) := Crashed(Resume(Step(t, probe), quiet).breaker, now, jitter);
      v == CircuitOpen && b.openUntil.Some?
  {
    SeededUntilCrash(t, probe, quiet);
    ThreeRecent(probe.at, now);
  }
}
