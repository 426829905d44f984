/** The circuit breaker's rate limit, carried over to every slot of a running pool. */
module SlotRespawns {
  import opened Bytes
  import opened Circuit
  import opened CircuitGrants
  import Slots

  /** What a step of the supervisor tells slot `i`'s breaker. */
  function Told(s: Slots.State, a: Slots.Action, i: nat): seq<Action> {
    if !Slots.Sized(s) then []
    else
      match a
      case HandleResult(now, jitter) =>
        if |s.results| > 0 && s.results[0].index == i < s.slots && s.results[0].fatal then [Crash(now, jitter)] else []
      case HandlePanic(t, now, jitter) =>
        if t in s.panics && t in s.taskMap && s.taskMap[t] == i < s.slots then [Crash(now, jitter)] else []
      case RefillSlot(k, now) =>
        if k == i < s.slots && !Slots.SlotAlive(s, i) && !s.inFlight[i] then [Refill(now)] else []
      case CollectReport(now) =>
        if |s.channel| > 0 && s.channel[0].index == i < s.slots && !s.channel[0].ok then [Fail(now)] else []
      case _ => []
  }

  /** All that slot `i`'s breaker was told in a run. */
  function History(slots: nat, up: set<nat>, actions: seq<Slots.Action>, i: nat): seq<Action> {
    if |actions| == 0 then []
    else
      var init := actions[..|actions| - 1];
      History(slots, up, init, i) + Told(Slots.Run(slots, up, init), actions[|actions| - 1], i)
  }

  /** When a crash, of the agent or of its task, was handled. */
  function CrashTime(a: Slots.Action): Option<int> {
    match a
    case HandleResult(now, _) => Some(now)
    case HandlePanic(_, now, _) => Some(now)
    case _ => None
  }

  /** The times at which handling a crash started a respawn task for slot `i`. */
  function CrashRespawns(slots: nat, up: set<nat>, actions: seq<Slots.Action>, i: nat): seq<int> {
    if |actions| == 0 then []
    else
      var init, a := actions[..|actions| - 1], actions[|actions| - 1];
      var s := Slots.Run(slots, up, init);
      CrashRespawns(slots, up, init, i)
      + if CrashTime(a).Some? && Slots.Step(s, a).respawns[i] > s.respawns[i] then [CrashTime(a).value] else []
  }

  lemma CrashSlotFacts(s: Slots.State, j: nat, now: int, jitter: real, i: nat)
    requires Slots.Sized(s) && i < s.slots && j < s.slots
    ensures var s' := Slots.CrashSlot(s, j, now, jitter); var (b, v) := Crashed(s.breakers[j], now, jitter);
      && Slots.Sized(s') && s'.slots == s.slots
      && s'.breakers[i] == (if i == j then b else s.breakers[i])
      && s'.respawns[i] == s.respawns[i] + if i == j && v != CircuitOpen then 1 else 0
  {
    hide Crashed;
  }

  /** In one step a slot's breaker makes at most one move, and a crash starts a respawn exactly when it is granted. */
  lemma StepFollows(s: Slots.State, a: Slots.Action, i: nat, t: Trace)
    requires Slots.Sized(s) && i < s.slots && t.breaker == s.breakers[i]
    ensures var s' := Slots.Step(s, a); var told := Told(s, a, i);
      && Slots.Sized(s') && s'.slots == s.slots && |told| <= 1
      && s'.breakers[i] == (if told == [] then t.breaker else Step(t, told[0]).breaker)
      && (if told == [] then t.grants else Step(t, told[0]).grants)
         == t.grants
            + if CrashTime(a).Some? && s'.respawns[i] > s.respawns[i] then [CrashTime(a).value] else []
  {
    if a.HandleResult? {
      ResultFollows(s, a, i, t);
    } else if a.HandlePanic? {
      PanicFollows(s, a, i, t);
    } else {
      OtherFollows(s, a, i, t);
    }
  }

  lemma ResultFollows(s: Slots.State, a: Slots.Action, i: nat, t: Trace)
    requires Slots.Sized(s) && i < s.slots && t.breaker == s.breakers[i] && a.HandleResult?
    ensures var s' := Slots.Step(s, a); var told := Told(s, a, i);
      && Slots.Sized(s') && s'.slots == s.slots && |told| <= 1
      && s'.breakers[i] == (if told == [] then t.breaker else Step(t, told[0]).breaker)
      && (if told == [] then t.grants else Step(t, told[0]).grants)
         == t.grants + if s'.respawns[i] > s.respawns[i] then [a.now] else []
  {
    hide Crashed, Slots.CrashSlot, Slots.Without;
    if |s.results| > 0 && s.results[0].index < s.slots {
      var r := s.results[0];
      var s' := s.(results := s.results[1..], taskMap := Slots.Without(s.taskMap, r.index));
      CrashSlotFacts(s', r.index, a.now, a.jitter, i);
    }
  }

  lemma PanicFollows(s: Slots.State, a: Slots.Action, i: nat, t: Trace)
    requires Slots.Sized(s) && i < s.slots && t.breaker == s.breakers[i] && a.HandlePanic?
    ensures var s' := Slots.Step(s, a); var told := Told(s, a, i);
      && Slots.Sized(s') && s'.slots == s.slots && |told| <= 1
      && s'.breakers[i] == (if told == [] then t.breaker else Step(t, told[0]).breaker)
      && (if told == [] then t.grants else Step(t, told[0]).grants)
         == t.grants + if s'.respawns[i] > s.respawns[i] then [a.now] else []
  {
    hide Crashed, Slots.CrashSlot;
    if a.task in s.panics && a.task in s.taskMap && s.taskMap[a.task] < s.slots {
      var s' := s.(panics := s.panics - {a.task}, taskMap := s.taskMap - {a.task});
      CrashSlotFacts(s', s.taskMap[a.task], a.now, a.jitter, i);
    }
  }

  lemma OtherFollows(s: Slots.State, a: Slots.Action, i: nat, t: Trace)
    requires Slots.Sized(s) && i < s.slots && t.breaker == s.breakers[i] && !a.HandleResult? && !a.HandlePanic?
    ensures var s' := Slots.Step(s, a); var told := Told(s, a, i);
      && Slots.Sized(s') && s'.slots == s.slots && |told| <= 1
      && s'.breakers[i] == (if told == [] then t.breaker else Step(t, told[0]).breaker)
      && (if told == [] then t.grants else Step(t, told[0]).grants) == t.grants
  {
    hide Refilled, SpawnFailed, Slots.TrySent;
  }

  lemma {:induction false} RunFollows(slots: nat, up: set<nat>, actions: seq<Slots.Action>, i: nat)
    requires i < slots
    ensures var s := Slots.Run(slots, up, actions); var t := Resume(FRESH, History(slots, up, actions, i));
      && Slots.Sized(s) && s.slots == slots
      && s.breakers[i] == t.breaker
      && CrashRespawns(slots, up, actions, i) == t.grants
  {
    hide Slots.Step, Step, Told, CrashTime;
    if |actions| > 0 {
      var init, a := actions[..|actions| - 1], actions[|actions| - 1];
      RunFollows(slots, up, init, i);
      var s := Slots.Run(slots, up, init);
      var before := History(slots, up, init, i);
      StepFollows(s, a, i, Resume(FRESH, before));
      var told := Told(s, a, i);
      if |told| == 1 {
        assert (before + told)[..|before|] == before;
      } else {
        assert before + told == before;
      }
    }
  }

  // ---- Time ----

  function TimeOf(a: Slots.Action): Option<int> {
    match a
    case HandleResult(now, _) => Some(now)
    case HandlePanic(_, now, _) => Some(now)
    case RefillSlot(_, now) => Some(now)
    case CollectReport(now) => Some(now)
    case _ => None
  }

  /** The supervisor's clock never goes back. */
  ghost predicate Clocked(actions: seq<Slots.Action>) {
    forall i, j :: 0 <= i < j < |actions| && TimeOf(actions[i]).Some? && TimeOf(actions[j]).Some? ==>
      TimeOf(actions[i]).value <= TimeOf(actions[j]).value
  }

  lemma ToldInTime(s: Slots.State, a: Slots.Action, i: nat)
    ensures |Told(s, a, i)| <= 1
    ensures |Told(s, a, i)| == 1 ==> TimeOf(a) == Some(Told(s, a, i)[0].at)
  {
  }

  /** Whatever a breaker was told, some action of the run told it at that time. */
  lemma {:induction false} ToldByAction(slots: nat, up: set<nat>, actions: seq<Slots.Action>, i: nat, j: nat)
    returns (k: nat)
    requires j < |History(slots, up, actions, i)|
    ensures k < |actions| && TimeOf(actions[k]) == Some(History(slots, up, actions, i)[j].at)
  {
    hide Told, TimeOf, Slots.Run;
    var init, a := actions[..|actions| - 1], actions[|actions| - 1];
    if j < |History(slots, up, init, i)| {
      k := ToldByAction(slots, up, init, i, j);
    } else {
      ToldInTime(Slots.Run(slots, up, init), a, i);
      k := |actions| - 1;
    }
  }

  lemma {:induction false} HistoryIsClocked(slots: nat, up: set<nat>, actions: seq<Slots.Action>, i: nat)
    requires Clocked(actions)
    ensures Nondecreasing(History(slots, up, actions, i))
  {
    hide Told, TimeOf, Slots.Run;
    if |actions| > 0 {
      var init, a := actions[..|actions| - 1], actions[|actions| - 1];
      HistoryIsClocked(slots, up, init, i);
      ToldInTime(Slots.Run(slots, up, init), a, i);
      var before, all := History(slots, up, init, i), History(slots, up, actions, i);
      forall j | 0 <= j < |before| && |all| > |before| ensures before[j].at <= all[|before|].at {
        var k := ToldByAction(slots, up, init, i, j);
        assert init[k] == actions[k];
      }
    }
  }

  /**
   In every run of the pool, whatever its slots and tasks do: of the respawns a slot gets because its agent
   or its task crashed, any two with a third between them are a whole window apart.
   */
  lemma AtMostTwoRespawnsPerSlot(slots: nat, up: set<nat>, actions: seq<Slots.Action>, i: nat, k: nat)
    requires i < slots && Clocked(actions) && k + 2 < |CrashRespawns(slots, up, actions, i)|
    ensures var times := CrashRespawns(slots, up, actions, i); times[k + 2] - times[k] >= 60_000
  {
    RunFollows(slots, up, actions, i);
    HistoryIsClocked(slots, up, actions, i);
    AtMostTwoRespawnsPerWindow(History(slots, up, actions, i), k);
  }

  // ---- Where a slot goes next ----

  /** The breaker's rule, on what slot `i`'s breaker has been told, lets the step's crash or refill of `i` through. */
  predicate Passes(s: Slots.State, a: Slots.Action, i: nat, told: seq<Action>) {
    match a
    case HandleResult(now, _) => CrashPasses(told, now)
    case HandlePanic(_, now, _) => CrashPasses(told, now)
    case RefillSlot(_, now) => RefillPasses(told, now)
    case _ => false
  }

  /** The place slot `i` moves to from `p`. */
  function NextPlace(s: Slots.State, a: Slots.Action, i: nat, p: Slots.Place, passes: bool): Slots.Place {
    match a
    case Dispatch(k) => if k == i && p == Slots.Idle then Slots.CheckedOut(s.nextTask) else p
    case HandleResult(_, _) =>
      if |s.results| == 0 || s.results[0].index != i then p
      else if !s.results[0].fatal then Slots.Idle
      else if passes then Slots.Respawning else Slots.Empty
    case HandlePanic(t, _, _) =>
      if t !in s.panics || p != Slots.CheckedOut(t) then p
      else if passes then Slots.Respawning else Slots.Empty
    case RefillSlot(k, _) => if k == i && p == Slots.Empty && passes then Slots.Respawning else p
    case CollectReport(_) =>
      if |s.channel| == 0 || s.channel[0].index != i then p
      else if s.channel[0].ok then Slots.Idle else Slots.Empty
    case _ => p
  }

  /** Whether the breaker grants what it is told in this step. */
  predicate Grants(t: Trace, told: seq<Action>) {
    |told| == 1 && Step(t, told[0]).granted
  }

  /** The move, with the breaker's own word for what is let through. */
  ghost predicate Moves(s: Slots.State, a: Slots.Action, i: nat, t: Trace)
    requires Slots.Sized(s) && i < s.slots
  {
    var s' := Slots.Step(s, a);
    Slots.Sized(s') && i < s'.slots
    && forall p :: Slots.IsIn(s, i, p) ==> Slots.IsIn(s', i, NextPlace(s, a, i, p, Grants(t, Told(s, a, i))))
  }

  lemma StepMoves(s: Slots.State, a: Slots.Action, i: nat, t: Trace)
    requires Slots.Inv(s) && i < s.slots && t.breaker == s.breakers[i]
    ensures Moves(s, a, i, t)
  {
    hide Slots.Inv, Slots.Step, Moves, Slots.IsIn, Told;
    Slots.StepKeeps(s, a);
    match a
    case Dispatch(k) => DispatchMoves(s, k, i, t);
    case FinishTask(_, _) => TaskMoves(s, a, i, t);
    case PanicTask(_) => TaskMoves(s, a, i, t);
    case HandleResult(now, jitter) => ResultMoves(s, now, jitter, i, t);
    case HandlePanic(task, now, jitter) => PanicMoves(s, task, now, jitter, i, t);
    case RefillSlot(k, now) => RefillMoves(s, k, now, i, t);
    case RespawnEnds(k, ok) => EndsMoves(s, k, ok, i, t);
    case CollectReport(now) => CollectMoves(s, now, i, t);
  }

  lemma DispatchMoves(s: Slots.State, k: nat, i: nat, t: Trace)
    requires Slots.Inv(s) && i < s.slots
    ensures Moves(s, Slots.Dispatch(k), i, t)
  {
    hide Slots.RespawnsOk;
    var s' := Slots.Step(s, Slots.Dispatch(k));
    assert Slots.InChannel(s', i) <==> Slots.InChannel(s, i);
    assert s.nextTask !in s.taskMap;
    if k in s.idle {
      assert forall x :: x in s'.taskMap.Values ==> x == k || x in s.taskMap.Values;
    }
  }

  lemma TaskMoves(s: Slots.State, a: Slots.Action, i: nat, t: Trace)
    requires Slots.Inv(s) && i < s.slots && (a.FinishTask? || a.PanicTask?)
    ensures Moves(s, a, i, t)
  {
    hide Slots.TasksOk;
    assert Slots.InChannel(Slots.Step(s, a), i) <==> Slots.InChannel(s, i);
  }

  lemma CrashSlotMoves(s: Slots.State, j: nat, now: int, jitter: real, i: nat)
    requires Slots.Sized(s) && i < s.slots && j < s.slots
    ensures var s' := Slots.CrashSlot(s, j, now, jitter);
      var granted := Crashed(s.breakers[j], now, jitter).1 != CircuitOpen;
      && Slots.Sized(s') && s'.slots == s.slots && s'.idle == s.idle && s'.taskMap == s.taskMap
      && s'.channel == s.channel
      && s'.respawns[i] == s.respawns[i] + (if i == j && granted then 1 else 0)
      && s'.inFlight[i] == (s.inFlight[i] || (i == j && granted))
  {
    hide Crashed;
  }

  lemma HeadOf(s: Slots.State)
    requires Slots.Inv(s) && |s.results| > 0
    ensures var r := s.results[0]; r.task in s.taskMap && s.taskMap[r.task] == r.index < s.slots
    ensures forall t :: t in s.taskMap && s.taskMap[t] == s.results[0].index ==> t == s.results[0].task
  {
  }

  lemma ResultMoves(s: Slots.State, now: int, jitter: real, i: nat, t: Trace)
    requires Slots.Inv(s) && i < s.slots && t.breaker == s.breakers[i]
    ensures Moves(s, Slots.HandleResult(now, jitter), i, t)
  {
    hide Crashed, Slots.CrashSlot, Slots.RespawnsOk, Slots.TasksOk, Slots.Without;
    if |s.results| > 0 {
      var r := s.results[0];
      HeadOf(s);
      Slots.ForgetTask(s, r.task);
      var s' := s.(results := s.results[1..], taskMap := Slots.Without(s.taskMap, r.index));
      CrashSlotMoves(s', r.index, now, jitter, i);
      assert forall m: Slots.State :: m.channel == s.channel ==> (Slots.InChannel(m, i) <==> Slots.InChannel(s, i));
    }
  }

  lemma PanicMoves(s: Slots.State, task: nat, now: int, jitter: real, i: nat, t: Trace)
    requires Slots.Inv(s) && i < s.slots && t.breaker == s.breakers[i]
    ensures Moves(s, Slots.HandlePanic(task, now, jitter), i, t)
  {
    hide Crashed, Slots.CrashSlot, Slots.RespawnsOk;
    if task in s.panics && task in s.taskMap {
      Slots.ForgetTask(s, task);
      var s' := s.(panics := s.panics - {task}, taskMap := s.taskMap - {task});
      CrashSlotMoves(s', s.taskMap[task], now, jitter, i);
      assert forall m: Slots.State :: m.channel == s.channel ==> (Slots.InChannel(m, i) <==> Slots.InChannel(s, i));
    }
  }

  lemma RefillMoves(s: Slots.State, k: nat, now: int, i: nat, t: Trace)
    requires Slots.Inv(s) && i < s.slots && t.breaker == s.breakers[i]
    ensures Moves(s, Slots.RefillSlot(k, now), i, t)
  {
    hide Refilled, Slots.TasksOk;
    assert Slots.InChannel(Slots.Step(s, Slots.RefillSlot(k, now)), i) <==> Slots.InChannel(s, i);
  }

  lemma EndsMoves(s: Slots.State, k: nat, ok: bool, i: nat, t: Trace)
    requires Slots.Inv(s) && i < s.slots
    ensures Moves(s, Slots.RespawnEnds(k, ok), i, t)
  {
    hide Slots.TasksOk;
    if k in s.respawns {
      Slots.RoomForReport(s, k);
      var s' := Slots.Step(s, Slots.RespawnEnds(k, ok));
      assert s'.channel[|s.channel|] == Slots.Report(k, ok);
      assert forall j :: 0 <= j < |s.channel| ==> s'.channel[j] == s.channel[j];
    }
  }

  lemma CollectMoves(s: Slots.State, now: int, i: nat, t: Trace)
    requires Slots.Inv(s) && i < s.slots
    ensures Moves(s, Slots.CollectReport(now), i, t)
  {
    hide Slots.TasksOk, SpawnFailed;
    if |s.channel| > 0 {
      assert Slots.InChannel(s, s.channel[0].index);
      var s' := Slots.Step(s, Slots.CollectReport(now));
      assert forall j :: 0 <= j < |s'.channel| ==> s'.channel[j] == s.channel[j + 1];
      assert forall j :: 0 < j < |s.channel| ==> s.channel[j] == s'.channel[j - 1];
    }
  }

  /**
   In every run of the pool each action moves a slot exactly so: a dispatch checks its idle agent out; a
   result returns it, unless it was fatal; a fatal result and a panic respawn the slot when the breaker's
   rule passes the crash and leave it empty otherwise; a refill respawns an empty slot when the rule passes
   it; a collected report fills the slot or empties it. All else leaves it where it is.
   */
  lemma PlacesMove(slots: nat, up: set<nat>, actions: seq<Slots.Action>, a: Slots.Action, i: nat)
    requires (forall k :: k in up ==> k < slots) && i < slots && Clocked(actions + [a])
    ensures var s := Slots.Run(slots, up, actions); var s' := Slots.Step(s, a);
      && Slots.Sized(s) && Slots.Sized(s') && s.slots == slots && s'.slots == slots
      && forall p :: Slots.IsIn(s, i, p) ==>
           Slots.IsIn(s', i, NextPlace(s, a, i, p, Passes(s, a, i, History(slots, up, actions, i))))
  {
    hide Slots.Inv, Slots.Step, Slots.IsIn, NextPlace, Passes, History, Told, Resume, Slots.Run;
    var s, told := Slots.Run(slots, up, actions), History(slots, up, actions, i);
    var t := Resume(FRESH, told);
    Slots.RunKeeps(slots, up, actions);
    RunFollows(slots, up, actions, i);
    StepFollows(s, a, i, t);
    StepMoves(s, a, i, t);
    GrantsIffPasses(slots, up, actions, a, i);
    forall p | Slots.IsIn(s, i, p)
      ensures NextPlace(s, a, i, p, Grants(t, Told(s, a, i))) == NextPlace(s, a, i, p, Passes(s, a, i, told))
    {
      UntoldStays(s, a, i, p, Grants(t, Told(s, a, i)), Passes(s, a, i, told));
    }
  }

  /** A breaker that is told nothing decides nothing. */
  lemma UntoldStays(s: Slots.State, a: Slots.Action, i: nat, p: Slots.Place, x: bool, y: bool)
    requires Slots.Sized(s) && i < s.slots && Slots.IsIn(s, i, p)
    requires Told(s, a, i) != [] && !Told(s, a, i)[0].Fail? ==> x == y
    ensures NextPlace(s, a, i, p, x) == NextPlace(s, a, i, p, y)
  {
  }

  lemma GrantsIffPasses(slots: nat, up: set<nat>, actions: seq<Slots.Action>, a: Slots.Action, i: nat)
    requires Clocked(actions + [a])
    ensures var s, told := Slots.Run(slots, up, actions), History(slots, up, actions, i);
      var more := Told(s, a, i);
      more != [] && !more[0].Fail? ==> (Grants(Resume(FRESH, told), more) <==> Passes(s, a, i, told))
  {
    hide Slots.Run, Resume, Step, Deadline, Marks, RefillPasses, CrashPasses, Clocked;
    var s, told := Slots.Run(slots, up, actions), History(slots, up, actions, i);
    var more := Told(s, a, i);
    if more != [] {
      ToldInTime(s, a, i);
      assert (actions + [a])[..|actions|] == actions;
      assert more == [more[0]];
      HistoryIsClocked(slots, up, actions + [a], i);
      GrantedIff(told, more[0]);
    }
  }
}
