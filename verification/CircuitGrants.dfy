/** When the circuit breaker grants a respawn, told from what happened to it alone. */
module CircuitGrants {
  import opened Bytes
  import opened Circuit

  /** The crash finds the circuit closed with two crashes counted in the last window, and makes three. */
  predicate IsThird(marks: seq<int>, deadline: Option<int>, a: Action) {
    a.Crash? && deadline.None? && After(marks, a.at - 60_000) >= 2
  }

  /** The deadline has passed, and the crash or the refill is let through as a probe. */
  predicate IsDue(deadline: Option<int>, a: Action) {
    !a.Fail? && deadline.Some? && a.at >= deadline.value
  }

  /**
   What has been counted: a crash of a closed circuit counts once, a probe makes everything before it
   forgotten and counts twice. Nothing is forgotten for being old.
   */
  function Marks(actions: seq<Action>): seq<int> {
    if |actions| == 0 then []
    else
      var init, a := actions[..|actions| - 1], actions[|actions| - 1];
      if IsDue(Deadline(init), a) then [a.at, a.at]
      else if a.Crash? && Deadline(init).None? then Marks(init) + [a.at]
      else Marks(init)
  }

  /** Until when the circuit is open: 300 seconds from the third crash or the failed spawn, or the next probe. */
  function Deadline(actions: seq<Action>): Option<int> {
    if |actions| == 0 then None
    else
      var init, a := actions[..|actions| - 1], actions[|actions| - 1];
      if a.Fail? || IsThird(Marks(init), Deadline(init), a) then Some(a.at + 300_000)
      else if IsDue(Deadline(init), a) then None
      else Deadline(init)
  }

  /** The breaker is open exactly until that deadline, and counts as many recent crashes. */
  ghost predicate Agrees(b: Breaker, marks: seq<int>, deadline: Option<int>, now: int) {
    && b.openUntil == deadline
    && forall x :: x >= now - 60_000 ==> After(b.crashTimes, x) == After(marks, x)
  }

  /** What the breaker may do with an action. */
  ghost predicate Judged(
    marks: seq<int>, deadline: Option<int>, a: Action, before: Trace, after: Trace, v: Option<Verdict>)
  {
    && (after.granted <==> IsDue(deadline, a) || (!a.Fail? && deadline.None? && !IsThird(marks, deadline, a)))
    && after.grants == before.grants + (if a.Crash? && after.granted then [a.at] else [])
    && (v.Some? <==> a.Crash?)
    && (a.Crash? ==>
          && (v == Some(HalfOpenProbe) <==> IsDue(deadline, a))
          && (v == Some(CircuitOpen) <==> !after.granted)
          && (v.value.Respawn? ==>
                v.value.delay == (if After(marks, a.at - 60_000) == 0 then 1.0 else 2.0) * (0.8 + 0.4 * a.jitter)))
  }

  /** The verdict on a crash. */
  function VerdictOn(b: Breaker, a: Action): Option<Verdict> {
    if a.Crash? then Some(Crashed(b, a.at, a.jitter).1) else None
  }

  lemma ProbeAgrees(now: int)
    ensures Agrees(Breaker(Seeded(now), None), [now, now], None, now)
  {
    forall x ensures After(Seeded(now), x) == After([now, now], x) {
      SeededAfter(now, x);
      assert [now, now] == [] + [now] + [now];
      AfterPush([], now, x);
      AfterPush([] + [now], now, x);
    }
  }

  lemma ClosedAgrees(t: Trace, marks: seq<int>, now: int, jitter: real)
    requires Agrees(t.breaker, marks, None, now)
    ensures var t' := Step(t, Crash(now, jitter)); var a := Crash(now, jitter);
      && Agrees(t'.breaker, marks + [now], if IsThird(marks, None, a) then Some(now + 300_000) else None, now)
      && Judged(marks, None, a, t, t', VerdictOn(t.breaker, a))
  {
    hide After, Recent, Backoff;
    var times := t.breaker.crashTimes;
    forall x | x >= now - 60_000 ensures After(Recent(times + [now], now), x) == After(marks + [now], x) {
      AfterRecent(times + [now], now, x);
      AfterPush(times, now, x);
      AfterPush(marks, now, x);
    }
    RecentCount(times + [now], now);
    AfterPush(times, now, now - 60_000);
    DelayIs(jitter);
  }

  lemma DelayIs(jitter: real)
    ensures Backoff(1, jitter) == 1.0 * (0.8 + 0.4 * jitter) && Backoff(2, jitter) == 2.0 * (0.8 + 0.4 * jitter)
  {
    assert Doubled(1) == 2.0;
  }

  lemma StepAgrees(t: Trace, marks: seq<int>, deadline: Option<int>, a: Action)
    requires Agrees(t.breaker, marks, deadline, a.at)
    ensures var t' := Step(t, a);
      && Judged(marks, deadline, a, t, t', VerdictOn(t.breaker, a))
      && Agrees(t'.breaker,
                if IsDue(deadline, a) then [a.at, a.at]
                else if a.Crash? && deadline.None? then marks + [a.at] else marks,
                if a.Fail? || IsThird(marks, deadline, a) then Some(a.at + 300_000)
                else if IsDue(deadline, a) then None else deadline,
                a.at)
  {
    if IsDue(deadline, a) {
      ProbeAgrees(a.at);
    } else if a.Crash? && deadline.None? {
      ClosedAgrees(t, marks, a.at, a.jitter);
    }
  }

  lemma {:induction false} RunAgrees(actions: seq<Action>, now: int)
    requires Nondecreasing(actions) && (|actions| > 0 ==> actions[|actions| - 1].at <= now)
    ensures Agrees(Resume(FRESH, actions).breaker, Marks(actions), Deadline(actions), now)
  {
    hide Step, After, Judged;
    if |actions| > 0 {
      var init, a := actions[..|actions| - 1], actions[|actions| - 1];
      RunAgrees(init, a.at);
      StepAgrees(Resume(FRESH, init), Marks(init), Deadline(init), a);
    }
  }

  /** A crash is let through: as a probe, or as one of the first two of a window. */
  predicate CrashPasses(actions: seq<Action>, now: int) {
    match Deadline(actions)
    case Some(d) => now >= d
    case None => After(Marks(actions), now - 60_000) < 2
  }

  /** A refill is let through: no deadline stands, or it has passed. */
  predicate RefillPasses(actions: seq<Action>, now: int) {
    match Deadline(actions)
    case Some(d) => now >= d
    case None => true
  }

  /** The verdict on a crash after `actions`, and what it leaves behind. */
  predicate VerdictFits(actions: seq<Action>, a: Action, after: Trace, v: Verdict)
    requires a.Crash?
  {
    match v
    case HalfOpenProbe => Deadline(actions).Some? && CrashPasses(actions, a.at) && after.breaker.openUntil.None?
    case CircuitOpen => !CrashPasses(actions, a.at) && after.breaker.openUntil.Some?
    case Respawn(delay) =>
      && Deadline(actions).None? && CrashPasses(actions, a.at) && after.breaker.openUntil.None?
      && delay == (if After(Marks(actions), a.at - 60_000) == 0 then 1.0 else 2.0) * (0.8 + 0.4 * a.jitter)
  }

  /**
   In every run: a refill is granted exactly when no deadline stands or it has passed; a crash exactly when
   the deadline has passed or, with none standing, fewer than two crashes count in the last window; a failed
   spawn never. A crash that passes the deadline is a probe without delay; any other that is granted waits
   one second, or two after an earlier crash in the window, times the jitter.
   */
  lemma GrantedIff(actions: seq<Action>, a: Action)
    requires Nondecreasing(actions + [a])
    ensures var t := Resume(FRESH, actions); var t' := Step(t, a);
      && (t'.granted <==>
            (a.Refill? && RefillPasses(actions, a.at)) || (a.Crash? && CrashPasses(actions, a.at)))
      && t'.grants == t.grants + (if a.Crash? && CrashPasses(actions, a.at) then [a.at] else [])
      && t'.breaker.openUntil == Deadline(actions + [a])
      && (a.Crash? ==> VerdictFits(actions, a, t', Crashed(t.breaker, a.at, a.jitter).1))
  {
    hide Step, Crashed, After, Resume, Judged, Marks, Deadline, IsThird, IsDue, VerdictFits;
    InitOf(actions, a);
    RunAgrees(actions, a.at);
    StepAgrees(Resume(FRESH, actions), Marks(actions), Deadline(actions), a);
    JudgedMeans(actions, a, Resume(FRESH, actions), Step(Resume(FRESH, actions), a));
    NextDeadline(actions, a);
  }

  lemma InitOf(actions: seq<Action>, a: Action)
    requires Nondecreasing(actions + [a])
    ensures Nondecreasing(actions) && (|actions| > 0 ==> actions[|actions| - 1].at <= a.at)
  {
    var all := actions + [a];
    assert forall i :: 0 <= i < |actions| ==> actions[i] == all[i];
    if |actions| > 0 {
      assert all[|actions| - 1].at <= all[|actions|].at;
    }
  }

  lemma NextDeadline(actions: seq<Action>, a: Action)
    ensures Deadline(actions + [a])
      == if a.Fail? || IsThird(Marks(actions), Deadline(actions), a) then Some(a.at + 300_000)
         else if IsDue(Deadline(actions), a) then None else Deadline(actions)
  {
    assert (actions + [a])[..|actions|] == actions;
  }

  lemma JudgedMeans(actions: seq<Action>, a: Action, before: Trace, after: Trace)
    requires Judged(Marks(actions), Deadline(actions), a, before, after, VerdictOn(before.breaker, a))
    requires after.breaker.openUntil
      == if a.Fail? || IsThird(Marks(actions), Deadline(actions), a) then Some(a.at + 300_000)
         else if IsDue(Deadline(actions), a) then None else Deadline(actions)
    ensures (after.granted <==>
               (a.Refill? && RefillPasses(actions, a.at)) || (a.Crash? && CrashPasses(actions, a.at)))
    ensures after.grants == before.grants + (if a.Crash? && CrashPasses(actions, a.at) then [a.at] else [])
    ensures a.Crash? ==> VerdictFits(actions, a, after, Crashed(before.breaker, a.at, a.jitter).1)
  {
    hide Crashed, After, Marks, Deadline;
  }
}
