/**
 Slot supervision: agents are idle in the pool, checked out by a prompt task, being respawned, or
 gone. The supervisor's steps interleave in any order with tasks finishing, tasks panicking and
 respawn tasks ending.
 */
module Slots {
  import opened Bytes
  import opened Circuit

  /** What a respawn task reports: the slot, and whether it brought up an agent. */
  datatype Report = Report(index: nat, ok: bool)

  /** The bounded channel of respawn reports. */
  class ReportChannel {
    const capacity: nat
    var items: seq<Report>

    constructor (capacity: nat)
      ensures this.capacity == capacity && items == []
    {
      this.capacity := capacity;
      items := [];
    }

    method TrySend(r: Report) returns (ok: bool)
      modifies this
      ensures ok <==> |old(items)| < capacity
      ensures items == if ok then old(items) + [r] else old(items)
    {
      ok := |items| < capacity;
      if ok {
        items := items + [r];
      }
    }
  }

  function TrySent(items: seq<Report>, capacity: nat, r: Report): seq<Report> {
    if |items| < capacity then items + [r] else items
  }

  /** Sends exactly one report for its task, whichever way the task ends. */
  class RespawnGuard {
    const index: nat
    const tx: ReportChannel
    var sent: bool

    constructor (index: nat, tx: ReportChannel)
      ensures this.index == index && this.tx == tx && !sent
    {
      this.index, this.tx, sent := index, tx, false;
    }

    /** Runs when the guard goes out of scope. */
    method Drop()
      modifies tx
      ensures tx.items == if sent then old(tx.items) else TrySent(old(tx.items), tx.capacity, Report(index, false))
    {
      if !sent {
        var _ := tx.TrySend(Report(index, false));
      }
    }

    /** `send`, which consumes the guard, so `Drop` follows. */
    method Send(ok: bool)
      requires !sent
      modifies this, tx
      ensures tx.items == TrySent(old(tx.items), tx.capacity, Report(index, ok))
    {
      var accepted := tx.TrySend(Report(index, ok));
      if accepted {
        sent := true;
      }
      Drop();
    }

    /** A respawn task from start to end; `None` when it panicked or was cancelled. */
    method RunTask(outcome: Option<bool>)
      requires !sent
      modifies this, tx
      ensures tx.items
        == TrySent(old(tx.items), tx.capacity, Report(index, outcome == Some(true)))
    {
      if outcome.Some? {
        Send(outcome.value);
      } else {
        Drop();
      }
    }
  }

  // ---- The supervisor and everything that runs beside it ----

  /** A finished prompt: its task, the agent's slot, and whether the agent must be replaced. */
  datatype PromptResult = PromptResult(task: nat, index: nat, fatal: bool)

  /**
   `taskMap` is the pool's record of checked-out agents. `running` tasks hold an agent, `results`
   is the channel of finished ones, `panics` are join errors nobody has handled yet. `respawns`
   counts the live respawn tasks of each slot, `channel` holds their reports.
   */
  datatype State = State(
    slots: nat,
    idle: set<nat>,
    taskMap: map<nat, nat>,
    running: set<nat>,
    results: seq<PromptResult>,
    panics: set<nat>,
    breakers: seq<Breaker>,
    inFlight: seq<bool>,
    respawns: multiset<nat>,
    channel: seq<Report>,
    nextTask: nat)

  datatype Action =
    | Dispatch(index: nat)
    | FinishTask(task: nat, fatal: bool)
    | PanicTask(task: nat)
    | HandleResult(now: int, jitter: real)
    | HandlePanic(task: nat, now: int, jitter: real)
    | RefillSlot(index: nat, now: int)
    | RespawnEnds(index: nat, ok: bool)
    | CollectReport(now: int)

  predicate SlotAlive(s: State, i: nat) {
    i in s.idle || i in s.taskMap.Values
  }

  /** `record_crash`, then a respawn task unless the circuit is open. */
  function CrashSlot(s: State, i: nat, now: int, jitter: real): State
    requires i < |s.breakers| && i < |s.inFlight|
  {
    var (b, v) := Crashed(s.breakers[i], now, jitter);
    var s' := s.(breakers := s.breakers[i := b]);
    if v == CircuitOpen then s' else SpawnRespawn(s', i)
  }

  function SpawnRespawn(s: State, i: nat): State
    requires i < |s.inFlight|
  {
    s.(inFlight := s.inFlight[i := true], respawns := s.respawns + multiset{i})
  }

  /** `retain(|_, meta| meta.agent_index != i)`. */
  function Without(m: map<nat, nat>, i: nat): map<nat, nat> {
    map t | t in m && m[t] != i :: m[t]
  }

  predicate Sized(s: State) {
    |s.breakers| == s.slots && |s.inFlight| == s.slots
  }

  /** One step; an action that is not enabled changes nothing. */
  function Step(s: State, a: Action): State {
    if !Sized(s) then s else
    match a
    case Dispatch(i) =>
      if i !in s.idle then s
      else s.(idle := s.idle - {i}, taskMap := s.taskMap[s.nextTask := i],
              running := s.running + {s.nextTask}, nextTask := s.nextTask + 1)
    case FinishTask(t, fatal) =>
      if t !in s.running || t !in s.taskMap then s
      else s.(running := s.running - {t}, results := s.results + [PromptResult(t, s.taskMap[t], fatal)])
    case PanicTask(t) =>
      if t !in s.running then s else s.(running := s.running - {t}, panics := s.panics + {t})
    case HandleResult(now, jitter) =>
      if |s.results| == 0 then s
      else
        var r := s.results[0];
        var s' := s.(results := s.results[1..], taskMap := Without(s.taskMap, r.index));
        if r.index >= s.slots then s'
        else if !r.fatal then s'.(idle := s'.idle + {r.index})
        else CrashSlot(s', r.index, now, jitter)
    case HandlePanic(t, now, jitter) =>
      if t !in s.panics || t !in s.taskMap || s.taskMap[t] >= s.slots then s
      else CrashSlot(s.(panics := s.panics - {t}, taskMap := s.taskMap - {t}), s.taskMap[t], now, jitter)
    case RefillSlot(i, now) =>
      if i >= s.slots || SlotAlive(s, i) || s.inFlight[i] then s
      else
        var (b, ok) := Refilled(s.breakers[i], now);
        var s' := s.(breakers := s.breakers[i := b]);
        if ok then SpawnRespawn(s', i) else s'
    case RespawnEnds(i, ok) =>
      if s.respawns[i] == 0 then s
      else s.(respawns := s.respawns - multiset{i}, channel := TrySent(s.channel, s.slots, Report(i, ok)))
    case CollectReport(now) =>
      if |s.channel| == 0 || s.channel[0].index >= s.slots then s
      else
        var r := s.channel[0];
        var s' := s.(channel := s.channel[1..], inFlight := s.inFlight[r.index := false]);
        if r.ok then s'.(idle := s'.idle + {r.index})
        else s'.(breakers := s'.breakers[r.index := SpawnFailed(s'.breakers[r.index], now)])
  }

  /** A pool in which the slots of `up` came up at startup and the others did not. */
  function Start(slots: nat, up: set<nat>): State {
    State(slots, up, map[], {}, [], {}, seq(slots, _ => Breaker([], None)), seq(slots, _ => false), multiset{}, [], 0)
  }

  function Run(slots: nat, up: set<nat>, actions: seq<Action>): State {
    if |actions| == 0 then Start(slots, up)
    else Step(Run(slots, up, actions[..|actions| - 1]), actions[|actions| - 1])
  }

  // ---- The invariant ----

  ghost predicate InChannel(s: State, i: nat) {
    exists k :: 0 <= k < |s.channel| && s.channel[k].index == i
  }

  ghost predicate InResults(s: State, t: nat) {
    exists k :: 0 <= k < |s.results| && s.results[k].task == t
  }

  /** Each recorded task is in exactly one phase, and no two record the same agent. */
  ghost predicate TasksOk(s: State) {
    && (forall t :: t in s.taskMap ==> t < s.nextTask && s.taskMap[t] < s.slots)
    && (forall t, u :: t in s.taskMap && u in s.taskMap && s.taskMap[t] == s.taskMap[u] ==> t == u)
    && (forall t :: t in s.taskMap <==> t in s.running || t in s.panics || InResults(s, t))
    && s.running !! s.panics
    && (forall t :: t in s.running || t in s.panics ==> !InResults(s, t))
    && (forall j, k :: 0 <= j < k < |s.results| ==> s.results[j].task != s.results[k].task)
    && (forall k :: 0 <= k < |s.results| ==>
          s.results[k].task in s.taskMap && s.results[k].index == s.taskMap[s.results[k].task])
  }

  /** A slot is flagged exactly while its one respawn task runs or its one report waits. */
  ghost predicate RespawnsOk(s: State) {
    && Sized(s)
    && (forall i :: i in s.respawns ==> i < s.slots && s.respawns[i] == 1 && !InChannel(s, i))
    && (forall j, k :: 0 <= j < k < |s.channel| ==> s.channel[j].index != s.channel[k].index)
    && (forall k :: 0 <= k < |s.channel| ==> s.channel[k].index < s.slots)
    && (forall i :: 0 <= i < s.slots ==> (s.inFlight[i] <==> i in s.respawns || InChannel(s, i)))
  }

  ghost predicate Inv(s: State) {
    && Sized(s) && TasksOk(s)
    && RespawnsOk(s)
    && (forall i :: i in s.idle ==> i < s.slots && i !in s.taskMap.Values && !s.inFlight[i])
    && (forall t :: t in s.taskMap ==> !s.inFlight[s.taskMap[t]])
  }

  // ---- Every step keeps it ----

  lemma SameRespawns(s: State, s': State)
    requires RespawnsOk(s) && Sized(s')
    requires s'.slots == s.slots && s'.inFlight == s.inFlight && s'.respawns == s.respawns && s'.channel == s.channel
    ensures RespawnsOk(s')
  {
    assert forall k :: InChannel(s', k) <==> InChannel(s, k);
  }

  lemma SameTasks(s: State, s': State)
    requires TasksOk(s)
    requires s'.slots == s.slots && s'.taskMap == s.taskMap && s'.running == s.running && s'.panics == s.panics
    requires s'.results == s.results && s'.nextTask == s.nextTask
    ensures TasksOk(s')
  {
    assert forall t :: InResults(s', t) <==> InResults(s, t);
  }

  lemma CrashKeeps(s: State, i: nat, now: int, jitter: real)
    requires Inv(s) && i < s.slots && !SlotAlive(s, i) && !s.inFlight[i]
    ensures Inv(CrashSlot(s, i, now, jitter))
  {
    var (b, v) := Crashed(s.breakers[i], now, jitter);
    BreakerKeeps(s, i, b);
    SpawnKeeps(s.(breakers := s.breakers[i := b]), i);
  }

  lemma BreakerKeeps(s: State, i: nat, b: Breaker)
    requires Inv(s) && i < s.slots
    ensures Inv(s.(breakers := s.breakers[i := b]))
  {
    assert forall t :: InResults(s.(breakers := s.breakers[i := b]), t) <==> InResults(s, t);
    assert forall k :: InChannel(s.(breakers := s.breakers[i := b]), k) <==> InChannel(s, k);
  }

  lemma SpawnKeeps(s: State, i: nat)
    requires Inv(s) && i < s.slots && !SlotAlive(s, i) && !s.inFlight[i]
    ensures Inv(SpawnRespawn(s, i))
  {
    hide TasksOk;
    var s' := SpawnRespawn(s, i);
    SameTasks(s, s');
    assert forall k :: InChannel(s', k) <==> InChannel(s, k);
    assert forall k :: k in s'.respawns <==> k == i || k in s.respawns;
  }

  lemma DispatchKeeps(s: State, i: nat)
    requires Inv(s) && i in s.idle
    ensures Inv(Step(s, Dispatch(i)))
  {
    hide RespawnsOk, Crashed, Refilled, CrashSlot, Without;
    var s' := Step(s, Dispatch(i));
    assert forall t :: InResults(s', t) <==> InResults(s, t);
    SameRespawns(s, s');
    assert i !in s.taskMap.Values;
    forall k | k in s'.idle ensures k !in s'.taskMap.Values {
      assert k !in s.taskMap.Values;
    }
    forall t, u | t in s'.taskMap && u in s'.taskMap && s'.taskMap[t] == s'.taskMap[u] ensures t == u {
      assert t in s.taskMap ==> s.taskMap[t] in s.taskMap.Values;
      assert u in s.taskMap ==> s.taskMap[u] in s.taskMap.Values;
    }
  }

  lemma TasksAfterFinish(s: State, s': State, t: nat, fatal: bool)
    requires TasksOk(s) && t in s.running
    requires s' == s.(running := s.running - {t}, results := s.results + [PromptResult(t, s.taskMap[t], fatal)])
    ensures TasksOk(s')
  {
    var n := |s.results|;
    assert s'.results[n].task == t;
    forall u ensures InResults(s', u) <==> u == t || InResults(s, u) {
      if InResults(s, u) {
        var k :| 0 <= k < n && s.results[k].task == u;
        assert s'.results[k].task == u;
      }
    }
    forall k | 0 <= k < n ensures s'.results[k].task != t {
      assert InResults(s, s.results[k].task);
    }
  }

  lemma FinishKeeps(s: State, t: nat, fatal: bool)
    requires Inv(s) && t in s.running
    ensures Inv(Step(s, FinishTask(t, fatal)))
  {
    hide RespawnsOk, TasksOk, Crashed, Refilled, CrashSlot, Without;
    var s' := Step(s, FinishTask(t, fatal));
    RunningIsRecorded(s, t);
    TasksAfterFinish(s, s', t, fatal);
    SameRespawns(s, s');
  }

  lemma RunningIsRecorded(s: State, t: nat)
    requires TasksOk(s) && t in s.running
    ensures t in s.taskMap
  {
  }

  lemma PanicKeeps(s: State, t: nat)
    requires Inv(s) && t in s.running
    ensures Inv(Step(s, PanicTask(t)))
  {
    hide RespawnsOk, Crashed, Refilled, CrashSlot, Without;
    var s' := Step(s, PanicTask(t));
    assert forall u :: InResults(s', u) <==> InResults(s, u);
    SameRespawns(s, s');
  }

  /** Forgetting the one record of slot `i` removes exactly its task and leaves the slot dead and unflagged. */
  lemma ForgetTask(s: State, t: nat)
    requires Inv(s) && t in s.taskMap
    ensures var i := s.taskMap[t];
      && Without(s.taskMap, i) == s.taskMap - {t}
      && i !in (s.taskMap - {t}).Values && i !in s.idle && !s.inFlight[i]
  {
    var i := s.taskMap[t];
    assert i in s.taskMap.Values;
    assert Without(s.taskMap, i).Keys == (s.taskMap - {t}).Keys;
  }

  /** The state after the supervisor took the first result and dropped its record. */
  function Popped(s: State): State
    requires |s.results| > 0
  {
    s.(results := s.results[1..], taskMap := s.taskMap - {s.results[0].task})
  }

  lemma TasksAfterPop(s: State)
    requires TasksOk(s) && |s.results| > 0
    ensures TasksOk(Popped(s))
  {
    var s' := Popped(s);
    var t := s.results[0].task;
    assert InResults(s, t);
    forall u ensures InResults(s', u) <==> InResults(s, u) && u != t {
      if InResults(s', u) {
        var k :| 0 <= k < |s'.results| && s'.results[k].task == u;
        assert s.results[k + 1].task == u;
      }
      if InResults(s, u) && u != t {
        var k :| 0 <= k < |s.results| && s.results[k].task == u;
        assert s'.results[k - 1].task == u;
      }
    }
  }

  lemma PoppedKeeps(s: State)
    requires Inv(s) && |s.results| > 0
    ensures Inv(Popped(s))
  {
    hide RespawnsOk, TasksOk;
    var s' := Popped(s);
    TasksAfterPop(s);
    SameRespawns(s, s');
    forall i | i in s'.idle ensures i !in s'.taskMap.Values {
      assert i !in s.taskMap.Values;
    }
  }

  lemma IdleKeeps(s: State, i: nat)
    requires Inv(s) && i < s.slots && i !in s.taskMap.Values && !s.inFlight[i]
    ensures Inv(s.(idle := s.idle + {i}))
  {
    hide TasksOk, RespawnsOk;
    var s' := s.(idle := s.idle + {i});
    SameTasks(s, s');
    SameRespawns(s, s');
  }

  lemma HandleResultKeeps(s: State, now: int, jitter: real)
    requires Inv(s) && |s.results| > 0
    ensures Inv(Step(s, HandleResult(now, jitter)))
  {
    hide Crashed, Refilled;
    var r := s.results[0];
    ForgetTask(s, r.task);
    PoppedKeeps(s);
    if r.fatal {
      CrashKeeps(Popped(s), r.index, now, jitter);
    } else {
      IdleKeeps(Popped(s), r.index);
    }
  }

  lemma HandlePanicKeeps(s: State, t: nat, now: int, jitter: real)
    requires Inv(s) && t in s.panics
    ensures Inv(Step(s, HandlePanic(t, now, jitter)))
  {
    hide RespawnsOk, Crashed, Refilled;
    var s' := s.(panics := s.panics - {t}, taskMap := s.taskMap - {t});
    ForgetTask(s, t);
    assert forall u :: InResults(s', u) <==> InResults(s, u);
    SameRespawns(s, s');
    forall i | i in s'.idle ensures i !in s'.taskMap.Values {
      assert i !in s.taskMap.Values;
    }
    assert Inv(s');
    CrashKeeps(s', s.taskMap[t], now, jitter);
  }

  lemma RefillKeeps(s: State, i: nat, now: int)
    requires Inv(s) && i < s.slots && !SlotAlive(s, i) && !s.inFlight[i]
    ensures Inv(Step(s, RefillSlot(i, now)))
  {
    var (b, ok) := Refilled(s.breakers[i], now);
    BreakerKeeps(s, i, b);
    SpawnKeeps(s.(breakers := s.breakers[i := b]), i);
  }

  /** Distinct slots below `n`: at most `n` reports, and fewer while some other slot has none. */
  lemma {:induction false} DistinctReports(items: seq<Report>, n: nat, missing: nat)
    requires forall j, k :: 0 <= j < k < |items| ==> items[j].index != items[k].index
    requires forall k :: 0 <= k < |items| ==> items[k].index < n && items[k].index != missing
    ensures |items| <= n && (missing < n ==> |items| < n)
  {
    var seen := set k | 0 <= k < |items| :: items[k].index;
    CountIndexes(items, seen);
    var room := Below(n) - (if missing < n then {missing} else {});
    assert seen <= room;
    SubsetSize(seen, room);
  }

  lemma {:induction false} SubsetSize(a: set<nat>, b: set<nat>)
    requires a <= b
    ensures |a| <= |b|
  {
    if a != {} {
      var x :| x in a;
      SubsetSize(a - {x}, b - {x});
    }
  }

  /** The slots 0 to n-1. */
  function Below(n: nat): (r: set<nat>)
    ensures |r| == n
    ensures forall i :: i in r <==> 0 <= i < n
  {
    if n == 0 then {} else Below(n - 1) + {n - 1}
  }

  lemma {:induction false} CountIndexes(items: seq<Report>, seen: set<nat>)
    requires forall j, k :: 0 <= j < k < |items| ==> items[j].index != items[k].index
    requires seen == set k | 0 <= k < |items| :: items[k].index
    ensures |seen| == |items|
  {
    if |items| > 0 {
      var n := |items| - 1;
      var fewer := set k | 0 <= k < n :: items[..n][k].index;
      CountIndexes(items[..n], fewer);
      assert items[n].index !in fewer;
      assert seen == fewer + {items[n].index};
    }
  }

  /** A running respawn task always finds room in the channel. */
  lemma RoomForReport(s: State, i: nat)
    requires Inv(s) && i in s.respawns
    ensures |s.channel| < s.slots
  {
    assert forall k :: 0 <= k < |s.channel| ==> InChannel(s, s.channel[k].index);
    DistinctReports(s.channel, s.slots, i);
  }

  lemma RespawnEndsKeeps(s: State, i: nat, ok: bool)
    requires Inv(s) && i in s.respawns
    ensures var s' := Step(s, RespawnEnds(i, ok));
      Inv(s') && s'.channel == s.channel + [Report(i, ok)]
  {
    hide TasksOk, Crashed, Refilled, CrashSlot, Without;
    RoomForReport(s, i);
    var s' := Step(s, RespawnEnds(i, ok));
    var n := |s.channel|;
    assert s'.channel[n].index == i;
    forall k ensures InChannel(s', k) <==> k == i || InChannel(s, k) {
      if InChannel(s, k) {
        var j :| 0 <= j < n && s.channel[j].index == k;
        assert s'.channel[j].index == k;
      }
    }
    forall k | 0 <= k < n ensures s'.channel[k].index != i {
      assert InChannel(s, s.channel[k].index);
    }
    SameTasks(s, s');
    assert forall k :: k in s'.respawns <==> k in s.respawns && k != i;
  }

  /** The state after the supervisor took the first report and cleared its flag. */
  function TookReport(s: State): State
    requires Sized(s) && |s.channel| > 0 && s.channel[0].index < s.slots
  {
    s.(channel := s.channel[1..], inFlight := s.inFlight[s.channel[0].index := false])
  }

  lemma TookReportKeeps(s: State)
    requires Inv(s) && |s.channel| > 0
    ensures Inv(TookReport(s)) && !SlotAlive(s, s.channel[0].index)
  {
    hide TasksOk;
    var i := s.channel[0].index;
    var s' := TookReport(s);
    assert InChannel(s, i);
    forall k ensures InChannel(s', k) <==> InChannel(s, k) && k != i {
      if InChannel(s', k) {
        var j :| 0 <= j < |s'.channel| && s'.channel[j].index == k;
        assert s.channel[j + 1].index == k;
      }
      if InChannel(s, k) && k != i {
        var j :| 0 <= j < |s.channel| && s.channel[j].index == k;
        assert s'.channel[j - 1].index == k;
      }
    }
    SameTasks(s, s');
  }

  lemma CollectKeeps(s: State, now: int)
    requires Inv(s) && |s.channel| > 0
    ensures Inv(Step(s, CollectReport(now)))
  {
    hide TasksOk, Crashed, Refilled, CrashSlot, Without;
    var r := s.channel[0];
    var s' := TookReport(s);
    TookReportKeeps(s);
    if r.ok {
      IdleKeeps(s', r.index);
    } else {
      BreakerKeeps(s', r.index, SpawnFailed(s'.breakers[r.index], now));
    }
  }

  lemma StepKeeps(s: State, a: Action)
    requires Inv(s)
    ensures Inv(Step(s, a))
  {
    match a
    case Dispatch(i) => if i in s.idle { DispatchKeeps(s, i); }
    case FinishTask(t, fatal) => if t in s.running { FinishKeeps(s, t, fatal); }
    case PanicTask(t) => if t in s.running { PanicKeeps(s, t); }
    case HandleResult(now, jitter) => if |s.results| > 0 { HandleResultKeeps(s, now, jitter); }
    case HandlePanic(t, now, jitter) => if t in s.panics { HandlePanicKeeps(s, t, now, jitter); }
    case RefillSlot(i, now) => if i < s.slots && !SlotAlive(s, i) && !s.inFlight[i] { RefillKeeps(s, i, now); }
    case RespawnEnds(i, ok) => if s.respawns[i] > 0 { RespawnEndsKeeps(s, i, ok); }
    case CollectReport(now) => if |s.channel| > 0 { CollectKeeps(s, now); }
  }

  lemma {:induction false} RunKeeps(slots: nat, up: set<nat>, actions: seq<Action>)
    requires forall i :: i in up ==> i < slots
    ensures Inv(Run(slots, up, actions))
  {
    if |actions| > 0 {
      RunKeeps(slots, up, actions[..|actions| - 1]);
      StepKeeps(Run(slots, up, actions[..|actions| - 1]), actions[|actions| - 1]);
    }
  }

  // ---- What the invariant means ----

  datatype Place = Idle | CheckedOut(task: nat) | Respawning | Empty

  /** Whether slot `i` is in place `p`, each read off its own record. */
  ghost predicate IsIn(s: State, i: nat, p: Place)
    requires Sized(s) && i < s.slots
  {
    match p
    case Idle => i in s.idle
    case CheckedOut(t) => t in s.taskMap && s.taskMap[t] == i
    case Respawning => s.respawns[i] > 0 || InChannel(s, i)
    case Empty => !SlotAlive(s, i) && !s.inFlight[i]
  }

  /** In every run each slot is in exactly one place, and never has two respawn tasks. */
  lemma ExactlyOnePlace(slots: nat, up: set<nat>, actions: seq<Action>, i: nat)
    requires forall k :: k in up ==> k < slots
    requires i < slots
    ensures var s := Run(slots, up, actions);
      && s.slots == slots && Sized(s)
      && (exists p :: IsIn(s, i, p))
      && (forall p, q :: IsIn(s, i, p) && IsIn(s, i, q) ==> p == q)
      && s.respawns[i] <= 1
  {
    RunKeeps(slots, up, actions);
    SlotsFixed(slots, up, actions);
    var s := Run(slots, up, actions);
    if i in s.idle {
      assert IsIn(s, i, Idle);
    } else if i in s.taskMap.Values {
      var t :| t in s.taskMap && s.taskMap[t] == i;
      assert IsIn(s, i, CheckedOut(t));
    } else if s.inFlight[i] {
      assert IsIn(s, i, Respawning);
    } else {
      assert IsIn(s, i, Empty);
    }
    forall t | t in s.taskMap && s.taskMap[t] == i ensures i in s.taskMap.Values {}
  }

  lemma {:induction false} SlotsFixed(slots: nat, up: set<nat>, actions: seq<Action>)
    ensures Run(slots, up, actions).slots == slots
  {
    if |actions| > 0 {
      SlotsFixed(slots, up, actions[..|actions| - 1]);
    }
  }

  /**
   The channel of capacity N never overflows: in every run a respawn task that ends, however it
   ends, adds exactly its own report, and the reports waiting are for distinct slots.
   */
  lemma EveryRespawnReportsOnce(slots: nat, up: set<nat>, actions: seq<Action>, i: nat, ok: bool)
    requires forall k :: k in up ==> k < slots
    requires i in Run(slots, up, actions).respawns
    ensures var s := Run(slots, up, actions); var s' := Step(s, RespawnEnds(i, ok));
      && |s.channel| < slots
      && s'.channel == s.channel + [Report(i, ok)]
      && s'.respawns == s.respawns - multiset{i}
  {
    RunKeeps(slots, up, actions);
    SlotsFixed(slots, up, actions);
    RoomForReport(Run(slots, up, actions), i);
    RespawnEndsKeeps(Run(slots, up, actions), i, ok);
  }

  /** An agent is never returned to an occupied slot, and a handled result clears exactly one record. */
  lemma ReturnsAreClean(slots: nat, up: set<nat>, actions: seq<Action>)
    requires forall k :: k in up ==> k < slots
    ensures var s := Run(slots, up, actions);
      && (|s.results| > 0 ==>
            && s.results[0].index !in s.idle
            && s.results[0].task in s.taskMap
            && Without(s.taskMap, s.results[0].index) == s.taskMap - {s.results[0].task})
      && (|s.channel| > 0 ==> !SlotAlive(s, s.channel[0].index))
  {
    RunKeeps(slots, up, actions);
    var s := Run(slots, up, actions);
    if |s.results| > 0 {
      ForgetTask(s, s.results[0].task);
    }
    if |s.channel| > 0 {
      assert InChannel(s, s.channel[0].index);
    }
  }
}
