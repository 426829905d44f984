/**
 The telemetry pipeline from end to end: emitted events pass the replay buffer and the live channel,
 the coalescer and the size trimmer.
 */
module Telemetry {
  import opened Events
  import opened Trimmer
  import Observer
  import Coalescer

  /** What can happen, with undisturbed emits: the receiver may lag, and the flush timer may tick, at any time. */
  datatype Action = Emit(event: Event) | Subscribe | Snapshot | Receive | Lag(n: nat) | Tick

  /** The bus, every event emitted so far in order, and what the publisher has had the coalescer do. */
  datatype State = State(bus: Observer.State, log: seq<Event>, script: seq<Coalescer.Action>)

  const START: State := State(Observer.START, [], [])

  /** The events with these numbers. */
  function EventsOf(log: seq<Event>, ns: seq<nat>): seq<Event> {
    if |ns| == 0 then []
    else
      var n := ns[|ns| - 1];
      EventsOf(log, ns[..|ns| - 1]) + if 1 <= n <= |log| then [log[n - 1]] else []
  }

  function Ingests(events: seq<Event>): seq<Coalescer.Action> {
    if |events| == 0 then []
    else Ingests(events[..|events| - 1]) + [Coalescer.IngestEvent(events[|events| - 1])]
  }

  /** What a step of the bus delivered. */
  function Delivered(before: Observer.State, after: Observer.State): seq<nat> {
    if before.delivered <= after.delivered then after.delivered[|before.delivered|..] else []
  }

  function Step(s: State, a: Action): State {
    match a
    case Emit(event) =>
      State(Observer.SerialStep(s.bus, Observer.EmitOne), s.log + [event.(number := s.bus.next)], s.script)
    case Subscribe => s.(bus := Observer.Step(s.bus, Observer.Subscribe))
    case Snapshot => Forward(s, Observer.Step(s.bus, Observer.Snapshot))
    case Receive => Forward(s, Observer.Step(s.bus, Observer.Receive))
    case Lag(n) => State(Observer.Step(s.bus, Observer.Lag(n)), s.log, s.script + [Coalescer.FlushTick])
    case Tick => s.(script := s.script + [Coalescer.FlushTick])
  }

  /** Whatever the bus delivered goes to the coalescer, one event at a time. */
  function Forward(s: State, bus: Observer.State): State {
    State(bus, s.log, s.script + Ingests(EventsOf(s.log, Delivered(s.bus, bus))))
  }

  function Run(actions: seq<Action>): State {
    if |actions| == 0 then START else Step(Run(actions[..|actions| - 1]), actions[|actions| - 1])
  }

  /** What the publisher hands to the trimmer. */
  function Emitted(s: State): seq<Event> {
    Coalescer.Run(s.script).out
  }

  /** The frames it publishes. */
  function Frames(events: seq<Event>): seq<Event> {
    seq(|events|, i requires 0 <= i < |events| => Trim(events[i]).event)
  }

  // ---- The bus sees the same run ----

  function OnBus(a: Action): seq<Observer.SerialAction> {
    match a
    case Emit(_) => [Observer.EmitOne]
    case Subscribe => [Observer.Other(Observer.Subscribe)]
    case Snapshot => [Observer.Other(Observer.Snapshot)]
    case Receive => [Observer.Other(Observer.Receive)]
    case Lag(n) => [Observer.Other(Observer.Lag(n))]
    case Tick => []
  }

  function BusRun(actions: seq<Action>): seq<Observer.SerialAction> {
    if |actions| == 0 then [] else BusRun(actions[..|actions| - 1]) + OnBus(actions[|actions| - 1])
  }

  predicate NoLag(actions: seq<Action>) {
    forall i :: 0 <= i < |actions| ==> !actions[i].Lag?
  }

  lemma {:induction false} BusFollows(actions: seq<Action>)
    ensures Run(actions).bus == Observer.SerialRun(BusRun(actions))
  {
    hide Step, Observer.SerialStep, OnBus;
    if |actions| > 0 {
      var init, a := actions[..|actions| - 1], actions[|actions| - 1];
      BusFollows(init);
      BusStep(Run(init), a);
      if a.Tick? {
        assert BusRun(actions) == BusRun(init);
      } else {
        Observer.SerialRunPush(BusRun(init), OnBus(a)[0]);
      }
    }
  }

  lemma BusStep(s: State, a: Action)
    ensures a.Tick? ==> OnBus(a) == [] && Step(s, a).bus == s.bus
    ensures !a.Tick? ==> OnBus(a) == [OnBus(a)[0]] && Step(s, a).bus == Observer.SerialStep(s.bus, OnBus(a)[0])
  {
    hide Observer.Step;
  }

  lemma {:induction false} BusIsSerial(actions: seq<Action>)
    ensures Observer.IsSerial(BusRun(actions))
    ensures NoLag(actions) ==> Observer.NoSerialLag(BusRun(actions))
  {
    if |actions| > 0 {
      BusIsSerial(actions[..|actions| - 1]);
    }
  }

  // ---- What the coalescer is fed ----

  lemma {:induction false} EventsInConcat(a: seq<Coalescer.Action>, b: seq<Coalescer.Action>)
    ensures Coalescer.EventsIn(a + b) == Coalescer.EventsIn(a) + Coalescer.EventsIn(b)
  {
    if |b| == 0 {
      assert a + b == a;
    } else {
      EventsInConcat(a, b[..|b| - 1]);
      assert (a + b)[..|a + b| - 1] == a + b[..|b| - 1];
    }
  }

  lemma {:induction false} IngestsAll(events: seq<Event>)
    ensures Coalescer.EventsIn(Ingests(events)) == events
  {
    if |events| > 0 {
      var init := Ingests(events[..|events| - 1]);
      IngestsAll(events[..|events| - 1]);
      assert Ingests(events)[..|init|] == init;
    }
  }

  lemma {:induction false} EventsOfConcat(log: seq<Event>, a: seq<nat>, b: seq<nat>)
    ensures EventsOf(log, a + b) == EventsOf(log, a) + EventsOf(log, b)
  {
    if |b| == 0 {
      assert a + b == a;
    } else {
      EventsOfConcat(log, a, b[..|b| - 1]);
      assert (a + b)[..|a + b| - 1] == a + b[..|b| - 1];
    }
  }

  lemma {:induction false} EventsOfLonger(log: seq<Event>, e: Event, ns: seq<nat>)
    requires forall i :: 0 <= i < |ns| ==> ns[i] <= |log|
    ensures EventsOf(log + [e], ns) == EventsOf(log, ns)
  {
    if |ns| > 0 {
      EventsOfLonger(log, e, ns[..|ns| - 1]);
    }
  }

  lemma {:induction false} EventsOfRange(log: seq<Event>, lo: nat, hi: nat)
    requires 1 <= lo <= hi <= |log| + 1
    ensures EventsOf(log, Observer.Range(lo, hi)) == log[lo - 1..hi - 1]
    decreases hi
  {
    var ns := Observer.Range(lo, hi);
    if lo < hi {
      EventsOfRange(log, lo, hi - 1);
      assert ns[..|ns| - 1] == Observer.Range(lo, hi - 1);
      assert log[lo - 1..hi - 1] == log[lo - 1..hi - 2] + [log[hi - 2]];
    }
  }

  /** The log has an event for every number, and the coalescer got exactly what the bus delivered. */
  ghost predicate Inv(s: State) {
    && |s.log| + 1 == s.bus.next
    && Coalescer.EventsIn(s.script) == EventsOf(s.log, s.bus.delivered)
  }

  /** Without lag the bus delivers one range of numbers that have been given out. */
  ghost predicate DeliversRange(bus: Observer.State) {
    if bus.snapshot.None? then bus.delivered == []
    else
      var lo, hi := Observer.Oldest(Observer.SnapshotNext(bus)), Observer.DeliveredUpTo(bus);
      1 <= lo <= hi <= bus.next && bus.delivered == Observer.Range(lo, hi)
  }

  lemma BusDeliversRange(actions: seq<Action>)
    requires NoLag(actions)
    ensures DeliversRange(Run(actions).bus)
  {
    hide Observer.Max, Observer.SerialRun, Run;
    BusFollows(actions);
    BusIsSerial(actions);
    Observer.SerialRunInv(BusRun(actions), false);
  }

  lemma DeliveryGrows(bus: Observer.State, a: Observer.Action)
    requires a.Receive? || (a.Snapshot? && (bus.snapshot.None? ==> bus.delivered == []))
    ensures bus.delivered <= Observer.Step(bus, a).delivered && Observer.Step(bus, a).next == bus.next
  {
    hide Observer.Max;
  }

  lemma ForwardKeeps(s: State, bus: Observer.State)
    requires Inv(s) && s.bus.delivered <= bus.delivered && bus.next == s.bus.next
    ensures Inv(Forward(s, bus))
  {
    var more := Delivered(s.bus, bus);
    assert bus.delivered == s.bus.delivered + more;
    EventsOfConcat(s.log, s.bus.delivered, more);
    EventsInConcat(s.script, Ingests(EventsOf(s.log, more)));
    IngestsAll(EventsOf(s.log, more));
  }

  lemma EmitKeeps(s: State, event: Event)
    requires Inv(s) && DeliversRange(s.bus)
    ensures Inv(Step(s, Emit(event)))
  {
    EmitMoves(s.bus);
    EventsOfLonger(s.log, event.(number := s.bus.next), s.bus.delivered);
  }

  lemma EmitMoves(bus: Observer.State)
    ensures var bus' := Observer.SerialStep(bus, Observer.EmitOne);
      bus'.next == bus.next + 1 && bus'.delivered == bus.delivered
  {
  }

  lemma {:induction false} RunInv(actions: seq<Action>)
    requires NoLag(actions)
    ensures Inv(Run(actions))
  {
    if |actions| > 0 {
      var init, a := actions[..|actions| - 1], actions[|actions| - 1];
      RunInv(init);
      BusDeliversRange(init);
      StepKeeps(Run(init), a);
    }
  }

  lemma StepKeeps(s: State, a: Action)
    requires Inv(s) && DeliversRange(s.bus) && !a.Lag?
    ensures Inv(Step(s, a))
  {
    hide Inv, Observer.Step, EventsOf, Observer.SerialStep;
    match a
    case Emit(event) => EmitKeeps(s, event);
    case Subscribe => SubscribeKeeps(s);
    case Snapshot =>
      DeliveryGrows(s.bus, Observer.Snapshot);
      ForwardKeeps(s, Observer.Step(s.bus, Observer.Snapshot));
    case Receive =>
      DeliveryGrows(s.bus, Observer.Receive);
      ForwardKeeps(s, Observer.Step(s.bus, Observer.Receive));
    case Tick => TickKeeps(s);
  }

  lemma SubscribeKeeps(s: State)
    requires Inv(s)
    ensures Inv(Step(s, Subscribe))
  {
  }

  lemma TickKeeps(s: State)
    requires Inv(s)
    ensures Inv(Step(s, Tick))
  {
    EventsInConcat(s.script, [Coalescer.FlushTick]);
    assert [Coalescer.FlushTick][..0] == [];
  }

  // ---- From end to end ----

  /**
   With undisturbed emits and no lag, once the timer has flushed, what was handed to the trimmer reads,
   stream by stream, exactly like one stretch of the emitted events: from the oldest still buffered at the
   snapshot up to the last one received. And so do the published frames, when each fits untrimmed.
   */
  lemma TelemetryIsFaithful(actions: seq<Action>, key: Coalescer.ChunkKey)
    requires NoLag(actions) && Run(actions).bus.snapshot.Some?
    ensures var s, out := Run(actions), Emitted(Run(actions + [Tick]));
      var lo, hi := Observer.Oldest(Observer.SnapshotNext(s.bus)), Observer.DeliveredUpTo(s.bus);
      && 1 <= lo <= hi <= |s.log| + 1
      && Coalescer.View(out, key) == Coalescer.View(s.log[lo - 1..hi - 1], key)
      && ((forall i :: 0 <= i < |out| ==> Fits(out[i])) ==>
            Coalescer.View(Frames(out), key) == Coalescer.View(s.log[lo - 1..hi - 1], key))
  {
    hide Run, Inv, Trim, Fits, Coalescer.View, Coalescer.Run, Observer.Max;
    var s := Run(actions);
    RunInv(actions);
    BusDeliversRange(actions);
    RunTick(actions);
    var lo, hi := Observer.Oldest(Observer.SnapshotNext(s.bus)), Observer.DeliveredUpTo(s.bus);
    assert |s.log| + 1 == s.bus.next && Coalescer.EventsIn(s.script) == EventsOf(s.log, s.bus.delivered) by {
      InvMeans(s);
    }
    EventsOfRange(s.log, lo, hi);
    Coalescer.FlushedRunEmitsEverything(s.script, key);
    FittingFramesAreKept(Emitted(Run(actions + [Tick])));
  }

  lemma InvMeans(s: State)
    requires Inv(s)
    ensures |s.log| + 1 == s.bus.next && Coalescer.EventsIn(s.script) == EventsOf(s.log, s.bus.delivered)
  {
  }

  lemma RunTick(actions: seq<Action>)
    ensures Run(actions + [Tick]) == Run(actions).(script := Run(actions).script + [Coalescer.FlushTick])
  {
    assert (actions + [Tick])[..|actions|] == actions;
  }

  lemma FittingFramesAreKept(events: seq<Event>)
    ensures (forall i :: 0 <= i < |events| ==> Fits(events[i])) ==> Frames(events) == events
  {
    if forall i :: 0 <= i < |events| ==> Fits(events[i]) {
      forall i | 0 <= i < |events| ensures Frames(events)[i] == events[i] {
        TrimFitsIff(events[i]);
      }
    }
  }
}
