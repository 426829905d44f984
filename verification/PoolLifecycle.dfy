/** The lazy pool's lifecycle and the supervisor steps around it. Times are seconds. */
module PoolLifecycle {
  import opened Bytes
  import opened Seqs

  const INITIAL_RETRY_DELAY: nat := 5
  const MAX_RETRY_DELAY: nat := 300
  const U32_MAX: nat := 0xFFFF_FFFF
  const U64_MAX: nat := 0xFFFF_FFFF_FFFF_FFFF

  type Pool = nat
  type ErrorText = string

  datatype Outcome = Up(pool: Pool) | Down(error: ErrorText)

  datatype Lifecycle =
    | Listening
    | Waking(attempt: nat)
    | Ready(pool: Pool)
    | Failed(attempt: nat, retryAt: int, error: ErrorText)

  function Pow2(n: nat): (p: nat)
    ensures p >= 1
  {
    if n == 0 then 1 else 2 * Pow2(n - 1)
  }

  /** `retry_delay`, with its clamped shift and saturating product. */
  function RetryDelay(attempt: nat): nat {
    var exponent := Min(if attempt == 0 then 0 else attempt - 1, 63);
    var multiplier := Pow2(exponent);
    Min(Min(INITIAL_RETRY_DELAY * multiplier, U64_MAX), MAX_RETRY_DELAY)
  }

  lemma {:induction false} Pow2Grows(a: nat, b: nat)
    requires a <= b
    ensures Pow2(a) <= Pow2(b)
  {
    if a < b {
      Pow2Grows(a, b - 1);
    }
  }

  /** min(5 * 2^(attempt - 1), 300), over unbounded numbers. */
  function CappedDoubling(attempt: nat): nat
    requires attempt >= 1
  {
    Min(5 * Pow2(attempt - 1), 300)
  }

  /** Clamping and saturation never show: the delay is five seconds doubled per attempt, capped at 300. */
  lemma RetryDelayIsCappedDoubling(attempt: nat)
    requires attempt >= 1
    ensures RetryDelay(attempt) == CappedDoubling(attempt)
  {
    if attempt > 64 {
      assert Pow2(6) == 64 by {
        assert Pow2(3) == 8;
      }
      Pow2Grows(6, 63);
      Pow2Grows(6, attempt - 1);
    }
  }

  // ---- Transitions ----

  function NextAttempt(s: Lifecycle, hasWork: bool, now: int): Option<nat> {
    if !hasWork then None
    else if s.Listening? then Some(1)
    else if s.Failed? && now >= s.retryAt then Some(Min(s.attempt + 1, U32_MAX))
    else None
  }

  function Started(s: Lifecycle, hasWork: bool, now: int): Lifecycle {
    var next := NextAttempt(s, hasWork, now);
    if next.Some? then Waking(next.value) else s
  }

  /** Whether a completed attempt is accepted, and the state after it. */
  function Completed(s: Lifecycle, attempt: nat, outcome: Outcome, now: int): (Lifecycle, bool) {
    if s != Waking(attempt) then (s, false)
    else if outcome.Up? then (Ready(outcome.pool), true)
    else (Failed(attempt, now + RetryDelay(attempt), outcome.error), true)
  }

  class LifecycleMachine {
    var state: Lifecycle

    constructor Listen()
      ensures state == Listening
    {
      state := Listening;
    }

    method StartWakeIfDue(hasWork: bool, now: int) returns (attempt: Option<nat>)
      modifies this
      ensures attempt == NextAttempt(old(state), hasWork, now)
      ensures state == Started(old(state), hasWork, now)
    {
      if !hasWork {
        return None;
      }
      attempt := match state
        case Listening => Some(1)
        case Failed(a, retryAt, _) => if now >= retryAt then Some(Min(a + 1, U32_MAX)) else None
        case _ => None;
      if attempt.Some? {
        state := Waking(attempt.value);
      }
    }

    method TakeReady() returns (pool: Option<Pool>)
      modifies this
      ensures pool == if old(state).Ready? then Some(old(state).pool) else None
      ensures state == if old(state).Ready? then Listening else old(state)
    {
      var taken := state;
      state := Listening;
      if taken.Ready? {
        pool := Some(taken.pool);
      } else {
        state := taken;
        pool := None;
      }
    }

    method CompleteWake(attempt: nat, outcome: Outcome, now: int) returns (accepted: bool)
      modifies this
      ensures (state, accepted) == Completed(old(state), attempt, outcome, now)
    {
      if !state.Waking? || state.attempt != attempt {
        return false;
      }
      state := match outcome
        case Up(pool) => Ready(pool)
        case Down(error) => Failed(attempt, now + RetryDelay(attempt), error);
      accepted := true;
    }

    method CancelWake(attempt: nat, error: ErrorText, now: int) returns (accepted: bool)
      modifies this
      ensures (state, accepted) == Completed(old(state), attempt, Down(error), now)
    {
      accepted := CompleteWake(attempt, Down(error), now);
    }
  }

  // ---- The supervisor around it ----

  /** A wake that was started: its token and its time. */
  datatype Wake = Wake(attempt: nat, at: int)

  /**
   `tasks` are the wake tasks still running, `results` the channel they answer on, `crashed` the join
   errors nobody has handled; `wakes` and `failures` record every start and every failure's time.
   */
  datatype State = State(
    lifecycle: Lifecycle, poolReady: bool, tasks: multiset<nat>, results: seq<(nat, Outcome)>, crashed: nat,
    wakes: seq<Wake>, failures: seq<int>)

  datatype Action =
    | Tick(hasWork: bool, now: int)
    | TaskEnds(attempt: nat, outcome: Outcome)
    | TaskCrashes(attempt: nat)
    | ReceiveResult(now: int)
    | HandleCrash(now: int)

  const START: State := State(Listening, false, multiset{}, [], 0, [], [])

  /** Settles one attempt; a pool that came up is taken at once. */
  function Settle(s: State, attempt: nat, outcome: Outcome, now: int): State {
    var (l, accepted) := Completed(s.lifecycle, attempt, outcome, now);
    if !accepted then s
    else if l.Ready? then s.(lifecycle := Listening, poolReady := true)
    else s.(lifecycle := l, failures := s.failures + [now])
  }

  function Step(s: State, a: Action): State {
    match a
    case Tick(hasWork, now) =>
      if s.poolReady || NextAttempt(s.lifecycle, hasWork, now).None? then s
      else
        var attempt := NextAttempt(s.lifecycle, hasWork, now).value;
        s.(lifecycle := Waking(attempt), tasks := s.tasks + multiset{attempt}, wakes := s.wakes + [Wake(attempt, now)])
    case TaskEnds(attempt, outcome) =>
      if s.tasks[attempt] == 0 then s
      else s.(tasks := s.tasks - multiset{attempt}, results := s.results + [(attempt, outcome)])
    case TaskCrashes(attempt) =>
      if s.tasks[attempt] == 0 then s else s.(tasks := s.tasks - multiset{attempt}, crashed := s.crashed + 1)
    case ReceiveResult(now) =>
      if s.poolReady || |s.results| == 0 then s
      else Settle(s.(results := s.results[1..]), s.results[0].0, s.results[0].1, now)
    case HandleCrash(now) =>
      if s.crashed == 0 then s
      else
        var s' := s.(crashed := s.crashed - 1);
        if s.lifecycle.Waking? then Settle(s', s.lifecycle.attempt, Down("pool wake task failed"), now) else s'
  }

  /** The main loop on a wake's result: a pool that came up is taken at once. */
  method SettleWake(machine: LifecycleMachine, ghost s: State, attempt: nat, outcome: Outcome, now: int)
    returns (pool: Option<Pool>)
    requires machine.state == s.lifecycle
    modifies machine
    ensures machine.state == Settle(s, attempt, outcome, now).lifecycle
    ensures pool == if s.lifecycle == Waking(attempt) && outcome.Up? then Some(outcome.pool) else None
    ensures pool.Some? ==> Settle(s, attempt, outcome, now).poolReady
  {
    pool := None;
    var accepted := machine.CompleteWake(attempt, outcome, now);
    if accepted && outcome.Up? {
      pool := machine.TakeReady();
    }
  }

  /** The main loop on a wake task that panicked: the attempt waited for counts as failed. */
  method SettleCrash(machine: LifecycleMachine, ghost s: State, now: int)
    requires machine.state == s.lifecycle && s.crashed > 0
    modifies machine
    ensures machine.state == Step(s, HandleCrash(now)).lifecycle
  {
    match machine.state
    case Waking(attempt) =>
      var _ := machine.CancelWake(attempt, "pool wake task failed", now);
    case _ =>
  }

  function Run(actions: seq<Action>): State {
    if |actions| == 0 then START else Step(Run(actions[..|actions| - 1]), actions[|actions| - 1])
  }

  /** Token of the k-th wake of a run, from zero. */
  function Token(k: nat): nat {
    Min(k + 1, 0xFFFF_FFFF)
  }

  function Outstanding(s: State): nat {
    |s.tasks| + |s.results| + s.crashed
  }

  ghost predicate Inv(s: State) {
    var n := |s.wakes|;
    && Outstanding(s) == (if s.lifecycle.Waking? then 1 else 0)
    && (s.lifecycle.Waking? ==> n > 0 && s.lifecycle.attempt == Token(n - 1) && |s.failures| == n - 1)
    && (s.lifecycle.Waking? ==> forall a :: a in s.tasks ==> a == s.lifecycle.attempt)
    && (s.lifecycle.Waking? ==> forall i :: 0 <= i < |s.results| ==> s.results[i].0 == s.lifecycle.attempt)
    && !s.lifecycle.Ready?
    && (s.poolReady ==> s.lifecycle.Listening? && |s.failures| + 1 == n)
    && (s.lifecycle.Listening? && !s.poolReady ==> n == 0 && s.failures == [])
    && (s.lifecycle.Failed? ==>
          && n > 0 && s.lifecycle.attempt == Token(n - 1) && |s.failures| == n
          && s.lifecycle.retryAt == s.failures[n - 1] + RetryDelay(Token(n - 1)))
    && |s.failures| <= n
    && (forall k :: 0 <= k < n ==> s.wakes[k].attempt == Token(k))
    && (forall k :: 0 < k < n ==> k - 1 < |s.failures| && WaitedAt(s, k))
  }

  ghost predicate WaitedAt(s: State, k: nat)
    requires 0 < k < |s.wakes| && k - 1 < |s.failures|
  {
    s.wakes[k].at >= s.failures[k - 1] + RetryDelay(Token(k - 1))
  }

  lemma SettleInv(s: State, s': State, attempt: nat, outcome: Outcome, now: int)
    requires Inv(s) && s.lifecycle == Waking(attempt)
    requires s'.(tasks := s.tasks, results := s.results, crashed := s.crashed) == s && Outstanding(s') == 0
    ensures Inv(Settle(s', attempt, outcome, now))
  {
    hide RetryDelay;
    var t := Settle(s', attempt, outcome, now);
    forall k | 0 < k < |t.wakes| ensures k - 1 < |t.failures| && WaitedAt(t, k) {
      assert WaitedAt(s, k);
    }
  }

  lemma TickInv(s: State, hasWork: bool, now: int)
    requires Inv(s)
    ensures Inv(Step(s, Tick(hasWork, now)))
  {
    hide RetryDelay;
    var s' := Step(s, Tick(hasWork, now));
    assert s.failures == s'.failures;
    forall k | 0 < k < |s.wakes| ensures k < |s'.wakes| && k - 1 < |s'.failures| && WaitedAt(s', k) {
      RetryWaited(s, k);
    }
  }

  lemma TaskInv(s: State, a: Action)
    requires Inv(s) && (a.TaskEnds? || a.TaskCrashes?) && a.attempt in s.tasks
    ensures Inv(Step(s, a))
  {
    hide RetryDelay, Completed, NextAttempt;
    OnlyOne(s.tasks, a.attempt);
    var s' := Step(s, a);
    forall k | 0 < k < |s.wakes| ensures WaitedAt(s', k) {
      assert WaitedAt(s, k);
    }
  }

  lemma StepInv(s: State, a: Action)
    requires Inv(s)
    ensures Inv(Step(s, a))
  {
    hide RetryDelay, Completed, NextAttempt, Settle;
    match a
    case Tick(hasWork, now) => TickInv(s, hasWork, now);
    case ReceiveResult(now) =>
      if !s.poolReady && |s.results| > 0 {
        SettleInv(s, s.(results := s.results[1..]), s.results[0].0, s.results[0].1, now);
      }
    case HandleCrash(now) =>
      if s.crashed > 0 {
        SettleInv(s, s.(crashed := s.crashed - 1), s.lifecycle.attempt, Down("pool wake task failed"), now);
      }
    case _ => if a.attempt in s.tasks { TaskInv(s, a); }
  }

  lemma OnlyOne(m: multiset<nat>, x: nat)
    requires |m| == 1 && x in m
    ensures m == multiset{x}
  {
    var rest := m - multiset{x};
    assert |rest| == 0;
    assert m == rest + multiset{x};
  }

  lemma {:induction false} RunInv(actions: seq<Action>)
    ensures Inv(Run(actions))
  {
    if |actions| > 0 {
      RunInv(actions[..|actions| - 1]);
      StepInv(Run(actions[..|actions| - 1]), actions[|actions| - 1]);
    }
  }

  /** In every run at most one wake is outstanding, just while the machine waits, and its result is the awaited one. */
  lemma AtMostOneWake(actions: seq<Action>)
    ensures var s := Run(actions);
      && Outstanding(s) <= 1 && (Outstanding(s) == 1 <==> s.lifecycle.Waking?)
      && (|s.results| > 0 ==> s.lifecycle == Waking(s.results[0].0))
      && (s.poolReady ==> Outstanding(s) == 0)
  {
    RunInv(actions);
  }

  /**
   In every run a completion is accepted exactly when a wake is outstanding and the token is the latest
   wake's; a rejected one changes nothing, and an accepted one is never accepted again.
   */
  lemma OnlyTheLatestWakeCompletes(
    actions: seq<Action>, attempt: nat, outcome: Outcome, now: int, again: Outcome, later: int)
    ensures var s := Run(actions); var (l, accepted) := Completed(s.lifecycle, attempt, outcome, now);
      && (accepted <==> Outstanding(s) == 1 && |s.wakes| > 0 && attempt == s.wakes[|s.wakes| - 1].attempt)
      && (!accepted ==> l == s.lifecycle)
      && !Completed(l, attempt, again, later).1
  {
    RunInv(actions);
  }

  /** In every run each wake that was started is outstanding, has failed, or made the pool ready, just one of them. */
  lemma EveryWakeIsAccountedFor(actions: seq<Action>)
    ensures var s := Run(actions);
      |s.wakes| == |s.failures| + Outstanding(s) + if s.poolReady then 1 else 0
  {
    hide Run, RetryDelay;
    RunInv(actions);
  }

  /** No retry starts before the delay after the failure it retries has passed. */
  lemma RetriesAreNeverEarly(actions: seq<Action>, k: nat)
    requires 0 < k < |Run(actions).wakes|
    ensures var s := Run(actions);
      && Token(k - 1) >= 1 && k - 1 < |s.failures|
      && s.wakes[k].at >= s.failures[k - 1] + CappedDoubling(Token(k - 1))
  {
    hide Run, RetryDelay, Pow2, Min;
    RunInv(actions);
    var s := Run(actions);
    RetryWaited(s, k);
    TokenIsPositive(k - 1);
    RetryDelayIsCappedDoubling(Token(k - 1));
  }

  lemma RetryWaited(s: State, k: nat)
    requires Inv(s) && 0 < k < |s.wakes|
    ensures k - 1 < |s.failures| && WaitedAt(s, k)
  {
  }

  lemma TokenIsPositive(k: nat)
    ensures Token(k) >= 1
  {
  }

  /**
   In every run a wake starts exactly on a tick with work, before the pool is ready, with no wake outstanding:
   the first at once, each later one when the delay after the last failure has passed. Its token counts on.
   */
  lemma WakeStartsIff(actions: seq<Action>, a: Action)
    ensures var s := Run(actions); var s' := Step(s, a); var n := |s.wakes|;
      && (if && a.Tick? && a.hasWork && !s.poolReady
             && (n == 0
                 || (|s.failures| == n
                     && Token(n - 1) >= 1 && a.now >= s.failures[n - 1] + CappedDoubling(Token(n - 1))))
          then s'.wakes == s.wakes + [Wake(Token(n), a.now)] && s'.tasks == s.tasks + multiset{Token(n)}
          else s'.wakes == s.wakes)
  {
    hide Run, RetryDelay, CappedDoubling;
    RunInv(actions);
    var n := |Run(actions).wakes|;
    if n > 0 {
      TokenIsPositive(n - 1);
      RetryDelayIsCappedDoubling(Token(n - 1));
    }
  }

  /**
   In every run the result of a wake settles it: a pool that came up makes the pool ready, and anything else
   counts as a failure at that time; so does a wake task that panicked. Nothing else does either.
   */
  lemma WakeSettlesIff(actions: seq<Action>, a: Action)
    ensures var s := Run(actions); var s' := Step(s, a);
      var up := a.ReceiveResult? && |s.results| > 0 && s.results[0].1.Up?;
      var down := (a.ReceiveResult? && |s.results| > 0 && s.results[0].1.Down?) || (a.HandleCrash? && s.crashed > 0);
      && s'.poolReady == (s.poolReady || up)
      && s'.failures == s.failures + if down then [a.now] else []
  {
    hide Run, RetryDelay;
    RunInv(actions);
  }

  /** Two wakes of a run share a token exactly when both have reached the 32-bit ceiling. */
  lemma TokensRepeatOnlyAtCeiling(actions: seq<Action>, i: nat, j: nat)
    requires i < j < |Run(actions).wakes|
    ensures Run(actions).wakes[i].attempt == Run(actions).wakes[j].attempt <==> i + 1 >= U32_MAX
  {
    RunInv(actions);
  }
}
