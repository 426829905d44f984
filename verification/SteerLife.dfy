/**
 The life of one channel's events while turns, steers and their outcomes interleave: an event waits in
 the queue, is withheld for a steer, travels in a batch, or is over and done with.
 */
module SteerLife {
  import opened Seqs
  import opened ReadLoop
  import opened SteerQueue

  const MAX_BATCH_EVENTS: nat := 50

  datatype Batch = Batch(events: seq<EventId>, cancelled: seq<EventId>)

  /** What becomes of a batch: kept by its turn, requeued for a retry, or set aside to be merged after a cancel. */
  datatype Fate = Finished | Retried | Merged

  /**
   `batches` are out with prompt tasks, `busy` marks the channel as in flight, `cancelled` waits to be
   merged into the next batch. `awaited` counts the steers whose outcome has not been handled.
   `arrived` is the whole history, in which an id may occur again; `finished`, `steered` and `lost` are
   what left for good, `lost` by a full queue, a retry of a merged batch, or leaving the channel.
   */
  datatype State = Life(
    table: Table,
    cancelled: seq<EventId>,
    batches: seq<Batch>,
    busy: bool,
    awaited: multiset<EventId>,
    arrived: multiset<EventId>,
    finished: multiset<EventId>,
    steered: multiset<EventId>,
    lost: multiset<EventId>)

  const START: State := Life(Table([], []), [], [], false, multiset{}, multiset{}, multiset{}, multiset{}, multiset{})

  /** A flush passes over the queue of a channel `throttled` after a failure, but not over what was cancelled. */
  datatype Action =
    | Arrive(e: EventId)
    | Flush(throttled: bool)
    | EndBatch(k: nat, fate: Fate)
    | Steer(e: EventId)
    | HandleAck(e: EventId, o: Outcome)
    | Expire
    | LeaveChannel

  /** What `Capped` drops. */
  function Overflow(s: seq<EventId>): seq<EventId> {
    if |s| > MAX_PENDING_PER_CHANNEL then s[MAX_PENDING_PER_CHANNEL..] else []
  }

  function Arrived(s: State, e: EventId): State {
    s.(table := Pushed(s.table, e), arrived := s.arrived + multiset{e},
       lost := s.lost + if |s.table.queue| >= MAX_PENDING_PER_CHANNEL then multiset{s.table.queue[0]} else multiset{})
  }

  function Flushed(s: State): State {
    var n := Min(MAX_BATCH_EVENTS, |s.table.queue|);
    s.(table := s.table.(queue := s.table.queue[n..]), cancelled := [],
       batches := s.batches + [Batch(s.table.queue[..n], s.cancelled)], busy := true)
  }

  function FlushedCancelled(s: State): State {
    s.(cancelled := [], batches := s.batches + [Batch(s.cancelled, [])], busy := true)
  }

  function Ended(s: State, k: nat, fate: Fate): State
    requires k < |s.batches|
  {
    var b := s.batches[k];
    var s' := s.(batches := s.batches[..k] + s.batches[k + 1..], busy := false);
    match fate
    case Finished => s'.(finished := s.finished + multiset(b.events) + multiset(b.cancelled))
    case Merged => s'.(cancelled := s.cancelled + b.cancelled + b.events)
    case Retried =>
      s'.(table := s.table.(queue := Capped(b.events + s.table.queue)),
          lost := s.lost + multiset(Overflow(b.events + s.table.queue)) + multiset(b.cancelled))
  }

  /** What settling takes out of the table: every copy of an event that was steered, or what a full queue drops. */
  function SettledAway(t: Table, e: EventId, o: Outcome): multiset<EventId> {
    if AckEffect(o).drop then multiset{}[e := multiset(t.queue)[e] + multiset(t.withheld)[e]]
    else if e in t.withheld then multiset(Overflow([e] + t.queue)) else multiset{}
  }

  function Acknowledged(s: State, e: EventId, o: Outcome): State {
    var t := s.table;
    var s' := s.(table := Settled(t, e, o), awaited := s.awaited - multiset{e});
    if AckEffect(o).drop then s'.(steered := s.steered + SettledAway(t, e, o))
    else s'.(lost := s.lost + SettledAway(t, e, o))
  }

  function Expired(s: State): State {
    s.(table := Recovered(s.table), busy := false,
       lost := s.lost
               + if s.table.withheld == [] then multiset{} else multiset(Overflow(s.table.withheld + s.table.queue)))
  }

  function Left(s: State): State {
    s.(table := Table([], []), cancelled := [],
       lost := s.lost + multiset(s.table.queue) + multiset(s.table.withheld) + multiset(s.cancelled))
  }

  /** One step; an action that is not enabled changes nothing. */
  function Step(s: State, a: Action): State {
    match a
    case Arrive(e) => Arrived(s, e)
    case Flush(throttled) =>
      if s.busy then s
      else if !throttled && s.table.queue != [] then Flushed(s)
      else if s.cancelled != [] then FlushedCancelled(s)
      else s
    case EndBatch(k, fate) => if k >= |s.batches| then s else Ended(s, k, fate)
    case Steer(e) => s.(table := Marked(s.table, e), awaited := s.awaited + multiset{e})
    case HandleAck(e, o) => if e !in s.awaited then s else Acknowledged(s, e, o)
    case Expire => if s.busy then Expired(s) else s
    case LeaveChannel => Left(s)
  }

  function Resume(s: State, actions: seq<Action>): State {
    if |actions| == 0 then s else Step(Resume(s, actions[..|actions| - 1]), actions[|actions| - 1])
  }

  function Run(actions: seq<Action>): State {
    Resume(START, actions)
  }

  // ---- Conservation ----

  function Held(batches: seq<Batch>): multiset<EventId> {
    if |batches| == 0 then multiset{}
    else multiset(batches[0].events) + multiset(batches[0].cancelled) + Held(batches[1..])
  }

  /** Everything there is, wherever it is. */
  function Everything(s: State): multiset<EventId> {
    multiset(s.table.queue) + multiset(s.table.withheld) + multiset(s.cancelled) + Held(s.batches)
    + s.finished + s.steered + s.lost
  }

  ghost predicate Inv(s: State) {
    && Everything(s) == s.arrived
    && |s.table.queue| <= MAX_PENDING_PER_CHANNEL
    && forall e :: multiset(s.table.withheld)[e] <= s.awaited[e]
  }

  lemma {:induction false} HeldPush(batches: seq<Batch>, b: Batch)
    ensures Held(batches + [b]) == Held(batches) + multiset(b.events) + multiset(b.cancelled)
  {
    if |batches| > 0 {
      HeldPush(batches[1..], b);
      assert (batches + [b])[1..] == batches[1..] + [b];
    }
  }

  lemma {:induction false} HeldWithout(batches: seq<Batch>, k: nat)
    requires k < |batches|
    ensures forall e: EventId ::
      Held(batches)[e]
      == Held(batches[..k] + batches[k + 1..])[e] + multiset(batches[k].events)[e] + multiset(batches[k].cancelled)[e]
  {
    var rest := batches[..k] + batches[k + 1..];
    if k == 0 {
      assert rest == batches[1..];
    } else {
      HeldWithout(batches[1..], k - 1);
      assert rest[1..] == batches[1..][..k - 1] + batches[1..][k..];
    }
  }

  /** Putting `a` in front of `b` under the cap keeps or loses each of their events. */
  lemma CapConserves(a: seq<EventId>, b: seq<EventId>)
    ensures forall e: EventId ::
      multiset(Capped(a + b))[e] + multiset(Overflow(a + b))[e] == multiset(a)[e] + multiset(b)[e]
  {
    assert a + b == Capped(a + b) + Overflow(a + b);
    forall e: EventId
      ensures multiset(Capped(a + b))[e] + multiset(Overflow(a + b))[e] == multiset(a)[e] + multiset(b)[e]
    {
      assert multiset(a + b)[e] == multiset(a)[e] + multiset(b)[e];
      assert multiset(Capped(a + b) + Overflow(a + b))[e] == multiset(Capped(a + b))[e] + multiset(Overflow(a + b))[e];
    }
  }

  lemma SplitAt(s: seq<EventId>, n: nat)
    requires n <= |s|
    ensures multiset(s) == multiset(s[..n]) + multiset(s[n..])
  {
    assert s == s[..n] + s[n..];
  }

  lemma RemoveFirstTakesOne(s: seq<EventId>, e: EventId)
    requires e in s
    ensures multiset(s) == multiset(RemoveFirst(s, e)) + multiset{e}
  {
    var i := IndexOf(s, e);
    assert s == s[..i] + [s[i]] + s[i + 1..];
  }

  lemma {:induction false} RemoveAllTakesAll(s: seq<EventId>, e: EventId)
    ensures forall x: EventId :: multiset(RemoveAll(s, e))[x] == if x == e then 0 else multiset(s)[x]
    ensures |RemoveAll(s, e)| <= |s|
  {
    if |s| > 0 {
      RemoveAllTakesAll(s[1..], e);
      assert s == [s[0]] + s[1..];
      assert multiset(s) == multiset{s[0]} + multiset(s[1..]);
    }
  }

  lemma PushTakesOldest(t: Table, e: EventId)
    ensures multiset(Pushed(t, e).queue)
            + (if |t.queue| >= MAX_PENDING_PER_CHANNEL then multiset{t.queue[0]} else multiset{})
         == multiset(t.queue) + multiset{e}
  {
    if |t.queue| >= MAX_PENDING_PER_CHANNEL {
      assert t.queue == [t.queue[0]] + t.queue[1..];
    }
  }

  lemma ArriveKeeps(s: State, e: EventId)
    requires Inv(s)
    ensures Inv(Arrived(s, e))
  {
    PushFits(s.table, e);
    hide Pushed;
    ArriveConserves(s, e);
    hide Everything;
  }

  lemma PushFits(t: Table, e: EventId)
    requires |t.queue| <= MAX_PENDING_PER_CHANNEL
    ensures Pushed(t, e).withheld == t.withheld && |Pushed(t, e).queue| <= MAX_PENDING_PER_CHANNEL
  {
  }

  lemma ArriveConserves(s: State, e: EventId)
    ensures Everything(Arrived(s, e)) == Everything(s) + multiset{e}
  {
    hide Everything, Arrived;
    forall x ensures Everything(Arrived(s, e))[x] == (Everything(s) + multiset{e})[x] {
      ArriveAddsOne(s, e, x);
    }
  }

  lemma ArriveAddsOne(s: State, e: EventId, x: EventId)
    ensures Everything(Arrived(s, e))[x] == Everything(s)[x] + multiset{e}[x]
  {
    hide Held;
    PushTakesOldest(s.table, e);
    assert Pushed(s.table, e).withheld == s.table.withheld;
    hide Pushed;
    var dropped := if |s.table.queue| >= MAX_PENDING_PER_CHANNEL then multiset{s.table.queue[0]} else multiset{};
    assert (multiset(Pushed(s.table, e).queue) + dropped)[x] == (multiset(s.table.queue) + multiset{e})[x];
  }

  lemma FlushKeeps(s: State)
    requires Inv(s)
    ensures Inv(Flushed(s))
  {
    var n := Min(MAX_BATCH_EVENTS, |s.table.queue|);
    SplitAt(s.table.queue, n);
    HeldPush(s.batches, Flushed(s).batches[|s.batches|]);
  }

  lemma FlushCancelledKeeps(s: State)
    requires Inv(s)
    ensures Inv(FlushedCancelled(s))
  {
    HeldPush(s.batches, Batch(s.cancelled, []));
    assert Everything(FlushedCancelled(s)) == Everything(s);
  }

  lemma EndConservesAt(s: State, k: nat, fate: Fate, x: EventId)
    requires k < |s.batches|
    ensures Everything(Ended(s, k, fate))[x] == Everything(s)[x]
  {
    hide Capped, Overflow, Held;
    HeldWithout(s.batches, k);
    CapConserves(s.batches[k].events, s.table.queue);
  }

  lemma EndConserves(s: State, k: nat, fate: Fate)
    requires k < |s.batches|
    ensures Everything(Ended(s, k, fate)) == Everything(s)
  {
    hide Ended, Everything;
    forall x ensures Everything(Ended(s, k, fate))[x] == Everything(s)[x] {
      EndConservesAt(s, k, fate, x);
    }
  }

  lemma EndKeeps(s: State, k: nat, fate: Fate)
    requires Inv(s) && k < |s.batches|
    ensures Inv(Ended(s, k, fate))
  {
    hide Everything;
    EndConserves(s, k, fate);
    CapFits(s.batches[k].events + s.table.queue);
  }

  lemma SteerKeeps(s: State, e: EventId)
    requires Inv(s)
    ensures Inv(s.(table := Marked(s.table, e), awaited := s.awaited + multiset{e}))
  {
    if e in s.table.queue {
      RemoveFirstTakesOne(s.table.queue, e);
    }
  }

  lemma CapFits(s: seq<EventId>)
    ensures |Capped(s)| <= MAX_PENDING_PER_CHANNEL
  {
  }

  lemma SettledConserves(t: Table, e: EventId, o: Outcome)
    ensures var t' := Settled(t, e, o);
      forall x: EventId :: multiset(t.queue)[x] + multiset(t.withheld)[x]
        == multiset(t'.queue)[x] + multiset(t'.withheld)[x] + SettledAway(t, e, o)[x]
  {
    hide Capped, Overflow, RemoveFirst, RemoveAll;
    if AckEffect(o).drop {
      RemoveAllTakesAll(t.queue, e);
      RemoveAllTakesAll(t.withheld, e);
    } else if e in t.withheld {
      RemoveFirstTakesOne(t.withheld, e);
      CapConserves([e], t.queue);
    }
  }

  lemma AckConserves(s: State, e: EventId, o: Outcome)
    ensures Everything(Acknowledged(s, e, o)) == Everything(s)
  {
    hide Settled, AckEffect, SettledAway, Held;
    SettledConserves(s.table, e, o);
    var s' := Acknowledged(s, e, o);
    forall x ensures Everything(s')[x] == Everything(s)[x] {
    }
  }

  lemma SettledFits(t: Table, e: EventId, o: Outcome)
    requires |t.queue| <= MAX_PENDING_PER_CHANNEL
    ensures |Settled(t, e, o).queue| <= MAX_PENDING_PER_CHANNEL
  {
    RemoveAllTakesAll(t.queue, e);
  }

  /** One outcome handled, one copy less withheld, if there was any. */
  lemma WithheldAfterAck(t: Table, e: EventId, o: Outcome)
    ensures forall x: EventId ::
      multiset(Settled(t, e, o).withheld)[x]
      <= if x == e && multiset(t.withheld)[e] > 0 then multiset(t.withheld)[e] - 1 else multiset(t.withheld)[x]
  {
    hide RemoveFirst, RemoveAll;
    if AckEffect(o).drop {
      RemoveAllTakesAll(t.withheld, e);
    } else if e in t.withheld {
      RemoveFirstTakesOne(t.withheld, e);
    }
  }

  lemma AckKeeps(s: State, e: EventId, o: Outcome)
    requires Inv(s) && e in s.awaited
    ensures Inv(Acknowledged(s, e, o))
  {
    hide Settled, AckEffect, SettledAway, Everything;
    AckConserves(s, e, o);
    SettledFits(s.table, e, o);
    WithheldAfterAck(s.table, e, o);
  }

  lemma ExpireKeeps(s: State)
    requires Inv(s)
    ensures Inv(Expired(s))
  {
    CapFits(s.table.withheld + s.table.queue);
    hide Capped, Overflow;
    CapConserves(s.table.withheld, s.table.queue);
    var s' := Expired(s);
    assert s.table.withheld != [] ==> multiset(s'.table.withheld) == multiset{};
    forall e ensures Everything(s')[e] == Everything(s)[e] {
    }
    assert Everything(s') == Everything(s);
  }

  lemma StepKeeps(s: State, a: Action)
    requires Inv(s)
    ensures Inv(Step(s, a))
  {
    hide Inv, Arrived, Flushed, FlushedCancelled, Ended, Acknowledged, Expired;
    match a
    case Arrive(e) => ArriveKeeps(s, e);
    case Flush(_) =>
      FlushKeeps(s);
      FlushCancelledKeeps(s);
    case EndBatch(k, fate) => if k < |s.batches| { EndKeeps(s, k, fate); }
    case Steer(e) => SteerKeeps(s, e);
    case HandleAck(e, o) => if e in s.awaited { AckKeeps(s, e, o); }
    case Expire => ExpireKeeps(s);
    case LeaveChannel => LeaveKeeps(s);
  }

  lemma LeaveKeeps(s: State)
    requires Inv(s)
    ensures Inv(Left(s))
  {
  }

  lemma {:induction false} RunKeeps(actions: seq<Action>)
    ensures Inv(Run(actions))
  {
    if |actions| > 0 {
      RunKeeps(actions[..|actions| - 1]);
      StepKeeps(Run(actions[..|actions| - 1]), actions[|actions| - 1]);
    }
  }

  // ---- What every run promises ----

  /**
   In every run the copies of an event in the queue, withheld, set aside, in batches, finished,
   delivered by a steer and lost are together as many as its arrivals. So an event that arrived once
   is in exactly one place, once, and nothing is anywhere that did not arrive.
   */
  lemma EveryEventIsInOnePlace(actions: seq<Action>, e: EventId)
    ensures var s := Run(actions);
      multiset(s.table.queue)[e] + multiset(s.table.withheld)[e] + multiset(s.cancelled)[e] + Held(s.batches)[e]
      + s.finished[e] + s.steered[e] + s.lost[e] == s.arrived[e]
  {
    RunKeeps(actions);
    var s := Run(actions);
    assert Everything(s)[e] == s.arrived[e];
  }

  /** Of an event no more copies are withheld than outcomes awaited; so while none is awaited, nothing is withheld. */
  lemma WithheldIsAwaited(actions: seq<Action>, e: EventId)
    ensures multiset(Run(actions).table.withheld)[e] <= Run(actions).awaited[e]
    ensures Run(actions).awaited == multiset{} ==> Run(actions).table.withheld == []
  {
    RunKeeps(actions);
    var s := Run(actions);
    assert s.table.withheld != [] ==> multiset(s.table.withheld)[s.table.withheld[0]] > 0;
  }

  lemma SteeredStays(s: State, a: Action, e: EventId)
    ensures Step(s, a).steered[e] >= s.steered[e]
  {
  }

  lemma {:induction false} SteeredRemains(s: State, later: seq<Action>, e: EventId)
    ensures Resume(s, later).steered[e] >= s.steered[e]
  {
    if |later| > 0 {
      SteeredRemains(s, later[..|later| - 1], e);
      SteeredStays(Resume(s, later[..|later| - 1]), later[|later| - 1], e);
    }
  }

  lemma {:induction false} RunThen(actions: seq<Action>, later: seq<Action>)
    ensures Run(actions + later) == Resume(Run(actions), later)
  {
    hide Step;
    if |later| == 0 {
      assert actions + later == actions;
    } else {
      var n := |later| - 1;
      RunThen(actions, later[..n]);
      assert (actions + later)[..|actions + later| - 1] == actions + later[..n];
    }
  }

  /** Copies of an event that a turn has been prompted with or may still be, or that were lost on the way. */
  function Unsteered(s: State, e: EventId): nat {
    multiset(s.table.queue)[e] + multiset(s.table.withheld)[e] + multiset(s.cancelled)[e] + Held(s.batches)[e]
    + s.finished[e] + s.lost[e]
  }

  /**
   When a steer succeeds, every copy of the event withheld or waiting in the queue is taken out for good:
   whatever happens later, that many arrivals reach no batch. So an event that arrived only once, and was
   not sent out before its steer succeeded, is never prompted.
   */
  lemma SteeredEventIsNeverPrompted(actions: seq<Action>, e: EventId, later: seq<Action>)
    requires e in Run(actions).awaited
    ensures var t := Run(actions).table; var s := Run(actions + [HandleAck(e, Acked(Success))] + later);
      && Unsteered(s, e) + multiset(t.queue)[e] + multiset(t.withheld)[e] <= s.arrived[e]
      && (s.arrived[e] == 1 && (e in t.queue || e in t.withheld) ==> Unsteered(s, e) == 0)
  {
    hide Inv, Everything, Step, Resume, Held;
    var steered := actions + [HandleAck(e, Acked(Success))];
    RunThen(actions, [HandleAck(e, Acked(Success))]);
    OneStep(Run(actions), HandleAck(e, Acked(Success)));
    SuccessSteers(Run(actions), e);
    RunThen(steered, later);
    SteeredRemains(Run(steered), later, e);
    EveryEventIsInOnePlace(steered + later, e);
  }

  lemma SuccessSteers(s: State, e: EventId)
    requires e in s.awaited
    ensures Step(s, HandleAck(e, Acked(Success))).steered[e]
      == s.steered[e] + multiset(s.table.queue)[e] + multiset(s.table.withheld)[e]
  {
  }

  lemma OneStep(s: State, a: Action)
    ensures Resume(s, [a]) == Step(s, a)
  {
    assert [a][..0] == [];
  }

  /**
   When it fails for an event still withheld, the event is at the queue's front, however full the queue;
   and if it arrived only once, it is not lost.
   */
  lemma FailedSteerKeepsEvent(actions: seq<Action>, e: EventId, o: Outcome)
    requires var s := Run(actions); e in s.awaited && e in s.table.withheld
    requires o != Acked(Success)
    ensures var s := Run(actions + [HandleAck(e, o)]);
      && |s.table.queue| > 0 && s.table.queue[0] == e
      && (s.arrived[e] == 1 ==> e !in s.lost)
  {
    hide Run, Inv, Everything;
    RunThen(actions, [HandleAck(e, o)]);
    OneStep(Run(actions), HandleAck(e, o));
    EveryEventIsInOnePlace(actions + [HandleAck(e, o)], e);
    ReleasedIsFirst(Run(actions).table, e, o);
  }

  lemma ReleasedIsFirst(t: Table, e: EventId, o: Outcome)
    requires e in t.withheld && o != Acked(Success)
    ensures var q := Settled(t, e, o).queue; |q| > 0 && q[0] == e && multiset(q)[e] >= 1
  {
    var q := Settled(t, e, o).queue;
    assert q[0] == ([e] + t.queue)[0] == e;
    assert e in q;
  }

  lemma RunPush(actions: seq<Action>, a: Action)
    ensures Run(actions + [a]) == Step(Run(actions), a)
  {
    assert (actions + [a])[..|actions|] == actions;
  }

  // ---- Batches ----

  /** The first 500 of `s`. */
  function FirstOf(s: seq<EventId>): seq<EventId> {
    s[..Min(500, |s|)]
  }

  /**
   A flush of an idle channel sends out the oldest 50 events, or all there are, with everything set aside by a
   cancel; when the queue is empty or throttled, what was set aside goes out alone. Nothing else is sent out.
   */
  lemma FlushSends(s: State, a: Action)
    ensures var s' := Step(s, a);
      var sends := a.Flush? && !s.busy && ((!a.throttled && s.table.queue != []) || s.cancelled != []);
      && (sends ==>
            && s'.busy && |s'.batches| == |s.batches| + 1 && s'.batches[..|s.batches|] == s.batches
            && s'.cancelled == []
            && var b := s'.batches[|s.batches|];
               if !a.throttled && s.table.queue != [] then
                 && b.events + s'.table.queue == s.table.queue && |b.events| == Min(50, |s.table.queue|)
                 && b.cancelled == s.cancelled
               else b == Batch(s.cancelled, []) && s'.table == s.table)
      && (!sends ==> |s'.batches| <= |s.batches|)
      && (a.Flush? && !sends ==> s' == s)
  {
    if a.Flush? {
      var q := s.table.queue;
      assert q[..Min(50, |q|)] + q[Min(50, |q|)..] == q;
    }
  }

  /** A batch that ends leaves the channel idle, and its events done with, at the queue's front, or set aside. */
  lemma BatchEnds(s: State, k: nat, fate: Fate)
    requires k < |s.batches|
    ensures var s', b := Step(s, EndBatch(k, fate)), s.batches[k];
      && !s'.busy && s'.batches == s.batches[..k] + s.batches[k + 1..]
      && s'.finished == s.finished + (if fate == Finished then multiset(b.events + b.cancelled) else multiset{})
      && s'.table.queue == (if fate == Retried then FirstOf(b.events + s.table.queue) else s.table.queue)
      && s'.cancelled == s.cancelled + (if fate == Merged then b.cancelled + b.events else [])
      && s'.table.withheld == s.table.withheld
  {
    assert s.cancelled + (s.batches[k].cancelled + s.batches[k].events)
        == s.cancelled + s.batches[k].cancelled + s.batches[k].events;
  }

  // ---- What is lost, and when ----

  /** `e` would stand past the cap with `front` put before `queue`. */
  predicate PastCap(front: seq<EventId>, queue: seq<EventId>, e: EventId) {
    exists i :: 500 <= i < |front| + |queue| && (front + queue)[i] == e
  }

  /** The action loses a copy of `e`. */
  ghost predicate Loses(s: State, a: Action, e: EventId) {
    var q := s.table.queue;
    match a
    case Arrive(_) => |q| == 500 && q[0] == e
    case EndBatch(k, fate) =>
      k < |s.batches| && fate == Retried
      && (e in s.batches[k].cancelled || PastCap(s.batches[k].events, q, e))
    case HandleAck(x, o) =>
      x in s.awaited && x in s.table.withheld && o != Acked(Success)
      && |q| == 500 && q[|q| - 1] == e
    case Expire => s.busy && PastCap(s.table.withheld, q, e)
    case LeaveChannel => e in q || e in s.table.withheld || e in s.cancelled
    case _ => false
  }

  lemma OverflowIsPastCap(front: seq<EventId>, queue: seq<EventId>, e: EventId)
    ensures multiset(Overflow(front + queue))[e] > 0 <==> PastCap(front, queue, e)
  {
    var all := front + queue;
    var over := Overflow(all);
    assert multiset(over)[e] > 0 <==> e in over;
    if e in over {
      var i :| 0 <= i < |over| && over[i] == e;
      assert all[MAX_PENDING_PER_CHANNEL + i] == e;
    }
    if PastCap(front, queue, e) {
      var i :| MAX_PENDING_PER_CHANNEL <= i < |all| && all[i] == e;
      assert over[i - MAX_PENDING_PER_CHANNEL] == e;
    }
  }

  lemma ReleaseDropsNewest(q: seq<EventId>, x: EventId, e: EventId)
    requires |q| <= MAX_PENDING_PER_CHANNEL
    ensures PastCap([x], q, e) <==> |q| == MAX_PENDING_PER_CHANNEL && q[|q| - 1] == e
  {
    if |q| == MAX_PENDING_PER_CHANNEL {
      assert ([x] + q)[MAX_PENDING_PER_CHANNEL] == q[|q| - 1];
    }
  }

  /**
   In every reachable state an action loses a copy of an event in just these cases: an arrival at a full
   queue loses the oldest; a retry loses what was merged into its batch and what comes to stand past the
   cap; a failed steer, when the queue is full, its newest; an expiry what comes to stand past the cap;
   leaving the channel what is waiting. Nothing is ever found again.
   */
  lemma LostIff(actions: seq<Action>, a: Action, e: EventId)
    ensures Step(Run(actions), a).lost[e] >= Run(actions).lost[e]
    ensures Step(Run(actions), a).lost[e] > Run(actions).lost[e] <==> Loses(Run(actions), a, e)
  {
    hide Run, Inv, Step, Loses;
    RunKeeps(actions);
    var s := Run(actions);
    assert |s.table.queue| <= MAX_PENDING_PER_CHANNEL by { QueueFits(s); }
    match a
    case EndBatch(k, fate) => EndLoses(s, k, fate, e);
    case HandleAck(x, o) => AckLoses(s, x, o, e);
    case Expire => ExpireLoses(s, e);
    case _ => OthersLose(s, a, e);
  }

  lemma QueueFits(s: State)
    requires Inv(s)
    ensures |s.table.queue| <= MAX_PENDING_PER_CHANNEL
  {
  }

  lemma EndLoses(s: State, k: nat, fate: Fate, e: EventId)
    ensures var s' := Step(s, EndBatch(k, fate));
      s'.lost[e] >= s.lost[e] && (s'.lost[e] > s.lost[e] <==> Loses(s, EndBatch(k, fate), e))
  {
    hide Capped, Overflow, PastCap;
    if k < |s.batches| {
      OverflowIsPastCap(s.batches[k].events, s.table.queue, e);
    }
  }

  lemma AckLoses(s: State, x: EventId, o: Outcome, e: EventId)
    requires |s.table.queue| <= MAX_PENDING_PER_CHANNEL
    ensures var s' := Step(s, HandleAck(x, o));
      s'.lost[e] >= s.lost[e] && (s'.lost[e] > s.lost[e] <==> Loses(s, HandleAck(x, o), e))
  {
    hide Settled, Capped, Overflow, PastCap;
    OverflowIsPastCap([x], s.table.queue, e);
    ReleaseDropsNewest(s.table.queue, x, e);
  }

  lemma ExpireLoses(s: State, e: EventId)
    requires |s.table.queue| <= MAX_PENDING_PER_CHANNEL
    ensures var s' := Step(s, Expire);
      s'.lost[e] >= s.lost[e] && (s'.lost[e] > s.lost[e] <==> Loses(s, Expire, e))
  {
    hide Recovered, Capped, Overflow, PastCap;
    OverflowIsPastCap(s.table.withheld, s.table.queue, e);
    QueueAloneFits(s.table, e);
  }

  lemma OthersLose(s: State, a: Action, e: EventId)
    requires |s.table.queue| <= MAX_PENDING_PER_CHANNEL
    requires !a.EndBatch? && !a.HandleAck? && !a.Expire?
    ensures Step(s, a).lost[e] >= s.lost[e] && (Step(s, a).lost[e] > s.lost[e] <==> Loses(s, a, e))
  {
    hide Pushed, Marked;
  }

  lemma QueueAloneFits(t: Table, e: EventId)
    requires |t.queue| <= MAX_PENDING_PER_CHANNEL
    ensures t.withheld == [] ==> !PastCap(t.withheld, t.queue, e)
  {
  }

  /**
   So a retry loses nothing exactly when no cancelled event was merged into its batch and the batch fits
   into the queue again.
   */
  lemma RetryLosesNothingIff(actions: seq<Action>, k: nat)
    requires k < |Run(actions).batches|
    ensures var s := Run(actions); var b := s.batches[k];
      Step(s, EndBatch(k, Retried)).lost == s.lost
      <==> b.cancelled == [] && |b.events| + |s.table.queue| <= 500
  {
    hide Run;
    var s := Run(actions);
    var b := s.batches[k];
    var over := Overflow(b.events + s.table.queue);
    assert multiset(over) == multiset{} <==> over == [] by { NoneOfNone(over); }
    assert multiset(b.cancelled) == multiset{} <==> b.cancelled == [] by { NoneOfNone(b.cancelled); }
    SumGrows(s.lost, multiset(over), multiset(b.cancelled));
  }

  lemma NoneOfNone(s: seq<EventId>)
    ensures multiset(s) == multiset{} <==> s == []
  {
    assert |multiset(s)| == |s|;
  }

  lemma SumGrows(m: multiset<EventId>, a: multiset<EventId>, b: multiset<EventId>)
    ensures m + a + b == m <==> a == multiset{} && b == multiset{}
  {
    assert |m + a + b| == |m| + |a| + |b|;
  }

  /**
   A retry keeps only a batch's own events. So when a turn was cancelled to be merged with a newer event,
   and the merged batch has to be retried, even just because no agent was idle, the older event is lost.
   */
  lemma RetryLosesMergedEvents()
    ensures var s := Run([Arrive(1), Flush(false), EndBatch(0, Merged), Arrive(2), Flush(false), EndBatch(0, Retried)]);
      s.lost == multiset{1} && s.table.queue == [2]
  {
    hide Resume, Step;
    var a := [Arrive(1), Flush(false), EndBatch(0, Merged), Arrive(2), Flush(false), EndBatch(0, Retried)];
    NoRun();
    RunPush([], a[0]);
    RunPush(a[..1], a[1]);
    RunPush(a[..2], a[2]);
    RunPush(a[..3], a[3]);
    RunPush(a[..4], a[4]);
    RunPush(a[..5], a[5]);
    assert [] + [a[0]] == a[..1] && a[..1] + [a[1]] == a[..2] && a[..2] + [a[2]] == a[..3];
    assert a[..3] + [a[3]] == a[..4] && a[..4] + [a[4]] == a[..5] && a[..5] + [a[5]] == a;
    FirstIsMerged();
    MergedBatchGoesOut();
    MergedBatchIsRetried();
  }

  /** Event 1 set aside by a cancel, and both events out in one batch. */
  const SET_ASIDE: State := START.(cancelled := [1], arrived := multiset{1})
  const MERGED_OUT: State := START.(batches := [Batch([2], [1])], busy := true, arrived := multiset{1, 2})

  lemma FlushOne(s: State, e: EventId)
    requires !s.busy && s.table.queue == [e] && s.batches == []
    ensures Step(s, Flush(false))
      == s.(table := s.table.(queue := []), cancelled := [], batches := [Batch([e], s.cancelled)], busy := true)
  {
    assert [e][..1] == [e] && [e][1..] == [];
  }

  lemma ArriveFirst(s: State, e: EventId)
    requires s.table == Table([], [])
    ensures Step(s, Arrive(e)) == s.(table := Table([e], []), arrived := s.arrived + multiset{e})
  {
  }

  lemma MergeOnly(s: State, b: Batch)
    requires s.batches == [b]
    ensures Step(s, EndBatch(0, Merged))
      == s.(batches := [], busy := false, cancelled := s.cancelled + b.cancelled + b.events)
  {
  }

  lemma FirstIsMerged()
    ensures Step(Step(Step(START, Arrive(1)), Flush(false)), EndBatch(0, Merged)) == SET_ASIDE
  {
    hide Step;
    ArriveFirst(START, 1);
    FlushOne(Step(START, Arrive(1)), 1);
    MergeOnly(Step(Step(START, Arrive(1)), Flush(false)), Batch([1], []));
  }

  lemma MergedBatchGoesOut()
    ensures Step(Step(SET_ASIDE, Arrive(2)), Flush(false)) == MERGED_OUT
  {
    hide Step;
    ArriveFirst(SET_ASIDE, 2);
    FlushOne(Step(SET_ASIDE, Arrive(2)), 2);
  }

  lemma MergedBatchIsRetried()
    ensures var s := Step(MERGED_OUT, EndBatch(0, Retried)); s.lost == multiset{1} && s.table.queue == [2]
  {
  }

  lemma NoRun()
    ensures Run([]) == START
  {
  }
}
