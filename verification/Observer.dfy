/**
 The in-process observer bus: numbered events, a capped replay buffer, and one publisher that
 subscribes, takes a snapshot, and then skips live events the snapshot already covered.
 */
module Observer {
  import opened Bytes
  import opened Seqs
  import opened Json
  import opened Events

  const BUFFER_CAP: nat := 1_000

  function PushCapped<T>(buffer: seq<T>, x: T): seq<T> {
    (if |buffer| >= BUFFER_CAP then buffer[1..] else buffer) + [x]
  }

  /** The fields `emit` copies from its context. */
  datatype Context = Context(
    channelId: Option<bytes>, sessionId: Option<bytes>, turnId: Option<bytes>, startedAt: Option<bytes>)

  class ObserverHandle {
    var nextSeq: nat
    var buffer: seq<Event>
    var sent: seq<Event>

    constructor InProcess()
      ensures nextSeq == 1 && buffer == [] && sent == [] && InOrder()
    {
      nextSeq, buffer, sent := 1, [], [];
    }

    /** Every emit so far was undisturbed: sent in order of its number, and the newest are buffered. */
    ghost predicate InOrder()
      reads this
    {
      && nextSeq == |sent| + 1
      && (forall i :: 0 <= i < |sent| ==> sent[i].number == i + 1)
      && buffer == sent[|sent| - Min(|sent|, BUFFER_CAP)..]
    }

    /** The replay buffer: after undisturbed emits, the newest events, at most 1000, numbered consecutively. */
    method Snapshot() returns (events: seq<Event>)
      ensures events == buffer
      ensures InOrder() ==>
        && |events| == Min(nextSeq - 1, BUFFER_CAP)
        && sent == sent[..|sent| - |events|] + events
        && forall i :: 0 <= i < |events| ==> events[i].number == nextSeq - |events| + i
    {
      events := buffer;
    }

    /** One emit with nobody else between its three steps. */
    method Emit(kind: bytes, agentIndex: Option<nat>, context: Context, timestamp: bytes, payload: Json)
      modifies this
      ensures nextSeq == old(nextSeq) + 1
      ensures var e := Event(old(nextSeq), timestamp, kind, agentIndex, context.channelId, context.sessionId,
                             context.turnId, context.startedAt, payload);
        buffer == PushCapped(old(buffer), e) && sent == old(sent) + [e]
      ensures old(InOrder()) ==> InOrder()
    {
      var event := Assign(kind, agentIndex, context, timestamp, payload);
      Record(event);
      Broadcast(event);
    }

    /** `fetch_add` on the counter: the number is taken before the buffer lock. */
    method Assign(kind: bytes, agentIndex: Option<nat>, context: Context, timestamp: bytes, payload: Json)
      returns (event: Event)
      modifies this`nextSeq
      ensures nextSeq == old(nextSeq) + 1
      ensures event == Event(old(nextSeq), timestamp, kind, agentIndex, context.channelId, context.sessionId,
                             context.turnId, context.startedAt, payload)
    {
      event := Event(nextSeq, timestamp, kind, agentIndex, context.channelId, context.sessionId,
                     context.turnId, context.startedAt, payload);
      nextSeq := nextSeq + 1;
    }

    method Record(event: Event)
      modifies this`buffer
      ensures buffer == PushCapped(old(buffer), event)
    {
      if |buffer| >= BUFFER_CAP {
        buffer := buffer[1..];
      }
      buffer := buffer + [event];
    }

    method Broadcast(event: Event)
      modifies this`sent
      ensures sent == old(sent) + [event]
    {
      sent := sent + [event];
    }
  }

  // ---- Any number of emitters and one publisher, one atomic step at a time ----

  /**
   Events are named by their numbers. `taken` hold a number and are not in the buffer yet,
   `pushed` are in the buffer and not sent yet, `sent` is the broadcast channel's whole history.
   `position` is how far the publisher's receiver has read it, from `subscribedAt` on.
   */
  datatype State = State(
    next: nat,
    taken: set<nat>,
    pushed: set<nat>,
    buffer: seq<nat>,
    sent: seq<nat>,
    subscribedAt: Option<nat>,
    snapshot: Option<seq<nat>>,
    position: nat,
    delivered: seq<nat>)

  const START: State := State(1, {}, {}, [], [], None, None, 0, [])

  /** `Lag(n)`: the receiver fell behind and its channel discarded `n` events it had not read. */
  datatype Action = Take | Push(n: nat) | Send(n: nat) | Subscribe | Snapshot | Receive | Lag(n: nat)

  /** `max().unwrap_or(0)`. */
  function Max(ns: seq<nat>): (m: nat)
    ensures forall i :: 0 <= i < |ns| ==> ns[i] <= m
    ensures |ns| > 0 ==> m in ns
    ensures |ns| == 0 ==> m == 0
  {
    if |ns| == 0 then 0
    else
      var m := Max(ns[..|ns| - 1]);
      assert forall i :: 0 <= i < |ns| - 1 ==> ns[i] == ns[..|ns| - 1][i];
      if ns[|ns| - 1] > m then ns[|ns| - 1] else m
  }

  /** A step that is not enabled changes nothing. */
  function Step(s: State, a: Action): State {
    match a
    case Take => s.(next := s.next + 1, taken := s.taken + {s.next})
    case Push(n) =>
      if n !in s.taken then s
      else s.(taken := s.taken - {n}, pushed := s.pushed + {n}, buffer := PushCapped(s.buffer, n))
    case Send(n) =>
      if n !in s.pushed then s else s.(pushed := s.pushed - {n}, sent := s.sent + [n])
    case Subscribe =>
      if s.subscribedAt.Some? then s else s.(subscribedAt := Some(|s.sent|), position := |s.sent|)
    case Snapshot =>
      if s.subscribedAt.None? || s.snapshot.Some? then s
      else s.(snapshot := Some(s.buffer), delivered := s.buffer)
    case Receive =>
      if s.snapshot.None? || s.position >= |s.sent| then s
      else
        var n := s.sent[s.position];
        s.(position := s.position + 1,
           delivered := s.delivered + if n <= Max(s.snapshot.value) then [] else [n])
    case Lag(n) =>
      if s.snapshot.None? || s.position + n > |s.sent| then s else s.(position := s.position + n)
  }

  function Run(actions: seq<Action>): State {
    if |actions| == 0 then START else Step(Run(actions[..|actions| - 1]), actions[|actions| - 1])
  }

  /** Every number lives in one place, and every buffered number was pushed. */
  ghost predicate BusInv(s: State) {
    && s.taken !! s.pushed && s.next >= 1
    && (forall n :: n in s.taken || n in s.pushed ==> 1 <= n < s.next && n !in s.sent)
    && (forall n :: n in s.sent ==> 1 <= n < s.next)
    && (forall n :: 1 <= n < s.next ==> n in s.taken || n in s.pushed || n in s.sent)
    && Distinct(s.sent) && Distinct(s.buffer)
    && (forall n :: n in s.buffer ==> n in s.pushed || n in s.sent)
    && |s.buffer| <= BUFFER_CAP
  }

  /** Delivered so far: the snapshot, then live events above it that the receiver has passed. */
  ghost predicate DeliveryInv(s: State) {
    && s.position <= |s.sent|
    && (s.snapshot.None? ==> s.delivered == [])
    && (s.snapshot.None? && s.subscribedAt.Some? ==> s.position == s.subscribedAt.value)
    && (s.snapshot.Some? ==>
          && s.subscribedAt.Some?
          && Distinct(s.snapshot.value)
          && |s.snapshot.value| <= |s.delivered|
          && s.delivered[..|s.snapshot.value|] == s.snapshot.value
          && Distinct(s.delivered)
          && forall i :: |s.snapshot.value| <= i < |s.delivered| ==>
               s.delivered[i] > Max(s.snapshot.value) && s.delivered[i] in s.sent[..s.position])
  }

  lemma BusInvStep(s: State, a: Action)
    requires BusInv(s)
    ensures BusInv(Step(s, a))
  {
    var s' := Step(s, a);
    match a {
      case Push(n) =>
        if n in s.taken {
          assert forall k :: k in s'.buffer ==> k == n || k in s.buffer;
        }
      case _ =>
    }
  }

  lemma DeliveryInvReceive(s: State)
    requires BusInv(s) && DeliveryInv(s) && s.snapshot.Some? && s.position < |s.sent|
    ensures DeliveryInv(Step(s, Receive))
  {
    hide BusInv, Max;
    var n := s.sent[s.position];
    assert s.sent[..s.position + 1] == s.sent[..s.position] + [n];
    SentOnce(s);
  }

  lemma SentOnce(s: State)
    requires BusInv(s) && s.position < |s.sent|
    ensures s.sent[s.position] !in s.sent[..s.position]
  {
  }

  lemma DeliveryInvStep(s: State, a: Action)
    requires BusInv(s) && DeliveryInv(s)
    ensures DeliveryInv(Step(s, a))
  {
    hide Max;
    var s' := Step(s, a);
    match a {
      case Receive =>
        if s.snapshot.Some? && s.position < |s.sent| {
          DeliveryInvReceive(s);
        }
      case Lag(k) =>
        if s.snapshot.Some? && s.position + k <= |s.sent| {
          assert s.sent[..s.position] == s.sent[..s.position + k][..s.position];
        }
      case Send(n) =>
        if n in s.pushed {
          assert s'.sent[..s.position] == s.sent[..s.position];
        }
      case _ =>
    }
  }

  lemma {:induction false} RunInv(actions: seq<Action>)
    ensures BusInv(Run(actions)) && DeliveryInv(Run(actions))
  {
    if |actions| > 0 {
      RunInv(actions[..|actions| - 1]);
      BusInvStep(Run(actions[..|actions| - 1]), actions[|actions| - 1]);
      DeliveryInvStep(Run(actions[..|actions| - 1]), actions[|actions| - 1]);
    }
  }

  /** Whatever the interleaving and the lag, nothing is delivered twice. */
  lemma NeverDeliveredTwice(actions: seq<Action>)
    ensures Distinct(Run(actions).delivered)
  {
    RunInv(actions);
  }

  // ---- What is lost when emits interleave ----

  function Resume(s: State, actions: seq<Action>): State {
    if |actions| == 0 then s else Step(Resume(s, actions[..|actions| - 1]), actions[|actions| - 1])
  }

  ghost predicate NoLag(actions: seq<Action>) {
    forall i :: 0 <= i < |actions| ==> !actions[i].Lag?
  }

  /** The numbers above `m`, in order. */
  function Above(ns: seq<nat>, m: nat): (r: seq<nat>)
    ensures forall n :: n in r <==> n in ns && n > m
  {
    if |ns| == 0 then []
    else
      var init, last := ns[..|ns| - 1], ns[|ns| - 1];
      assert ns == init + [last];
      Above(init, m) + if last > m then [last] else []
  }

  /**
   From the snapshot in `s0` on, without lag: delivered is the snapshot and then what the receiver
   passed above it, and nothing in flight has disappeared.
   */
  ghost predicate AfterSnapshot(s0: State, s: State) {
    && BusInv(s)
    && s0.subscribedAt.Some? && s.subscribedAt == s0.subscribedAt && s.snapshot == Some(s0.buffer)
    && s0.subscribedAt.value <= |s0.sent| <= |s.sent| && s0.sent == s.sent[..|s0.sent|]
    && s0.subscribedAt.value <= s.position <= |s.sent|
    && s.delivered == s0.buffer + Above(s.sent[s0.subscribedAt.value..s.position], Max(s0.buffer))
    && (forall n :: n in s0.taken || n in s0.pushed ==> n in s.taken || n in s.pushed || n in s.sent)
  }

  lemma {:induction false} ResumeInv(s0: State, actions: seq<Action>)
    requires BusInv(s0) && DeliveryInv(s0) && NoLag(actions)
    requires s0.subscribedAt.Some? && s0.snapshot.None?
    ensures AfterSnapshot(s0, Resume(Step(s0, Snapshot), actions))
  {
    hide Max;
    var s1 := Step(s0, Snapshot);
    if |actions| == 0 {
      assert s0.sent[s0.position..s0.position] == [];
      assert s0.sent[..|s0.sent|] == s0.sent;
    } else {
      var a := actions[|actions| - 1];
      ResumeInv(s0, actions[..|actions| - 1]);
      AfterSnapshotStep(s0, Resume(s1, actions[..|actions| - 1]), a);
    }
  }

  lemma AfterSnapshotSend(s0: State, s: State, n: nat)
    requires AfterSnapshot(s0, s) && n in s.pushed && BusInv(Step(s, Send(n)))
    ensures AfterSnapshot(s0, Step(s, Send(n)))
  {
    hide Max, BusInv, Above;
    var s' := Step(s, Send(n));
    var sub := s0.subscribedAt.value;
    assert s'.sent[..|s0.sent|] == s.sent[..|s0.sent|];
    assert s'.sent[sub..s.position] == s.sent[sub..s.position];
  }

  lemma AfterSnapshotReceive(s0: State, s: State)
    requires AfterSnapshot(s0, s) && s.position < |s.sent| && BusInv(Step(s, Receive))
    ensures AfterSnapshot(s0, Step(s, Receive))
  {
    hide Max, BusInv;
    var s' := Step(s, Receive);
    var seen := s'.sent[s0.subscribedAt.value..s'.position];
    assert seen[..|seen| - 1] == s.sent[s0.subscribedAt.value..s.position];
  }

  lemma AfterSnapshotStep(s0: State, s: State, a: Action)
    requires AfterSnapshot(s0, s) && !a.Lag?
    ensures AfterSnapshot(s0, Step(s, a))
  {
    hide Max, BusInv, Above, PushCapped;
    BusInvStep(s, a);
    match a {
      case Send(n) =>
        if n in s.pushed {
          AfterSnapshotSend(s0, s, n);
        }
      case Receive =>
        if s.position < |s.sent| {
          AfterSnapshotReceive(s0, s);
        }
      case _ =>
    }
  }

  /** Sent by the end of `s` after the subscription, so owed to the subscriber. */
  ghost predicate Owed(s0: State, s: State, n: nat)
    requires s0.subscribedAt.Some? && s0.subscribedAt.value <= |s.sent|
  {
    n in s.sent[s0.subscribedAt.value..]
  }

  /** Every event sent after the subscription has been delivered. */
  ghost predicate NothingLost(s0: State, s: State)
    requires s0.subscribedAt.Some? && s0.subscribedAt.value <= |s.sent|
  {
    forall n: nat :: Owed(s0, s, n) ==> n in s.delivered
  }

  /** An emitter holds a number below the snapshot's newest but had not pushed its event yet. */
  ghost predicate Overtaken(s0: State) {
    exists n :: n in s0.taken && n < Max(s0.buffer)
  }

  /** An event owed to the subscriber was pushed, fell out of the buffer, and is below its newest. */
  ghost predicate Evicted(s0: State)
    requires s0.subscribedAt.Some? && s0.subscribedAt.value <= |s0.sent|
  {
    exists n :: (n in s0.pushed || n in s0.sent[s0.subscribedAt.value..]) && n !in s0.buffer && n < Max(s0.buffer)
  }

  /** All that was in flight has been sent, and the receiver has passed all of it. */
  predicate Finished(s: State) {
    s.taken == {} && s.pushed == {} && s.position == |s.sent|
  }

  lemma OwedDelivery(s0: State, s: State, n: nat)
    requires BusInv(s0) && AfterSnapshot(s0, s) && s.position == |s.sent| && Owed(s0, s, n)
    ensures n in s.delivered <==> n in s0.buffer || n > Max(s0.buffer)
  {
    hide Max, BusInv;
    assert s.sent[s0.subscribedAt.value..s.position] == s.sent[s0.subscribedAt.value..];
  }

  /** What is owed in the end was taken, pushed or sent after the subscription at the snapshot, or came later. */
  lemma OwedFrom(s0: State, s: State, n: nat)
    requires BusInv(s0) && AfterSnapshot(s0, s) && Owed(s0, s, n)
    ensures n in s0.taken || n in s0.pushed || n in s0.sent[s0.subscribedAt.value..] || n >= s0.next
  {
    hide Max, Above;
    assert n in s.sent;
    if n in s0.sent {
      var sub := s0.subscribedAt.value;
      var i :| 0 <= i < |s0.sent| && s0.sent[i] == n;
      var j :| 0 <= j < |s.sent[sub..]| && s.sent[sub..][j] == n;
      assert s.sent[i] == n && s.sent[sub + j] == n;
      assert s0.sent[sub..][j] == n;
    }
  }

  /** And all of that is owed in a finished run. */
  lemma OwedInTheEnd(s0: State, s: State, n: nat)
    requires BusInv(s0) && AfterSnapshot(s0, s) && Finished(s)
    requires n in s0.taken || n in s0.pushed || n in s0.sent[s0.subscribedAt.value..]
    ensures Owed(s0, s, n)
  {
    hide Max, Above;
    var sub := s0.subscribedAt.value;
    assert s.sent == s0.sent + s.sent[|s0.sent|..];
    assert s.sent[sub..] == s0.sent[sub..] + s.sent[|s0.sent|..];
  }

  lemma BufferIsBelowNext(s0: State, n: nat)
    requires BusInv(s0) && n >= s0.next
    ensures n > Max(s0.buffer)
  {
    if s0.buffer != [] {
      assert Max(s0.buffer) in s0.buffer;
    }
  }

  lemma LossIff(s0: State, s: State)
    requires BusInv(s0) && AfterSnapshot(s0, s) && Finished(s)
    ensures NothingLost(s0, s) <==> !Overtaken(s0) && !Evicted(s0)
  {
    hide Max, AfterSnapshot, BusInv, Owed;
    assert AfterSnapshotFacts(s0, s) by { FactsHold(s0, s); }
    forall n: nat | Owed(s0, s, n)
      ensures n in s.delivered <==> n in s0.buffer || n > Max(s0.buffer)
      ensures n in s0.taken || n in s0.pushed || n in s0.sent[s0.subscribedAt.value..] || n > Max(s0.buffer)
    {
      OwedDelivery(s0, s, n);
      OwedFrom(s0, s, n);
      if n >= s0.next {
        BufferIsBelowNext(s0, n);
      }
    }
    forall n | n in s0.taken || n in s0.pushed || n in s0.sent[s0.subscribedAt.value..]
      ensures Owed(s0, s, n)
    {
      OwedInTheEnd(s0, s, n);
    }
  }

  /** Of what the invariants say, only this decides about losses. */
  ghost predicate AfterSnapshotFacts(s0: State, s: State) {
    && s0.subscribedAt.Some? && s0.subscribedAt.value <= |s0.sent| <= |s.sent|
    && (forall n :: n in s0.taken ==> n !in s0.buffer)
    && (s0.buffer != [] ==> Max(s0.buffer) in s0.buffer)
    && (s0.buffer == [] ==> Max(s0.buffer) == 0)
    && 0 !in s0.taken && 0 !in s0.pushed && 0 !in s0.sent
  }

  lemma FactsHold(s0: State, s: State)
    requires BusInv(s0) && AfterSnapshot(s0, s)
    ensures AfterSnapshotFacts(s0, s)
  {
  }

  /**
   Take the snapshot in any reachable state and run on without lag until every event has been sent
   and received. Then an event sent after the subscription is delivered exactly when it was in the
   snapshot or is numbered above it; so nothing is lost exactly when, at the snapshot, no emitter was
   overtaken and nothing the subscriber was owed had been evicted.
   */
  lemma NothingLostIff(before: seq<Action>, after: seq<Action>)
    requires Run(before).subscribedAt.Some? && Run(before).snapshot.None? && NoLag(after)
    requires Finished(Resume(Step(Run(before), Snapshot), after))
    ensures var s0, s := Run(before), Resume(Step(Run(before), Snapshot), after);
      && s0.subscribedAt.value <= |s0.sent| <= |s.sent|
      && (forall n: nat :: Owed(s0, s, n) ==> (n in s.delivered <==> n in s0.buffer || n > Max(s0.buffer)))
      && (NothingLost(s0, s) <==> !Overtaken(s0) && !Evicted(s0))
  {
    hide Max, Step, Run, Resume, Overtaken, NothingLost, Owed, Evicted, BusInv;
    var s0, s := Run(before), Resume(Step(Run(before), Snapshot), after);
    RunInv(before);
    ResumeInv(s0, after);
    FactsHold(s0, s);
    forall n: nat | Owed(s0, s, n) ensures n in s.delivered <==> n in s0.buffer || n > Max(s0.buffer) {
      OwedDelivery(s0, s, n);
    }
    LossIff(s0, s);
  }

  lemma RunPush(actions: seq<Action>, a: Action)
    ensures Run(actions + [a]) == Step(Run(actions), a)
  {
    assert (actions + [a])[..|actions|] == actions;
  }

  /** Two emitters are enough: one takes 1, the other takes 2 and pushes it first, and 1 is never delivered. */
  lemma OvertakenEventIsLost()
    ensures var s0 := Run([Subscribe, Take, Take, Push(2)]);
      var s := Resume(Step(s0, Snapshot), [Send(2), Push(1), Send(1), Receive, Receive]);
      && s0.subscribedAt == Some(0) && s0.snapshot.None? && Overtaken(s0)
      && Finished(s) && s.sent == [2, 1] && s.delivered == [2]
  {
    hide Max, Run, Resume, Step;
    EmptyRun();
    assert [] + [Subscribe] == [Subscribe];
    assert [Subscribe] + [Take] == [Subscribe, Take];
    assert [Subscribe, Take] + [Take] == [Subscribe, Take, Take];
    assert [Subscribe, Take, Take] + [Push(2)] == [Subscribe, Take, Take, Push(2)];
    RunPush([], Subscribe);
    RunPush([Subscribe], Take);
    RunPush([Subscribe, Take], Take);
    RunPush([Subscribe, Take, Take], Push(2));
    FourSteps();
    var s0 := State(3, {1}, {2}, [2], [], Some(0), None, 0, []);
    assert Run([Subscribe, Take, Take, Push(2)]) == s0;
    assert 2 in [2] && Max([2]) >= [2][0];
    var s1 := s0.(snapshot := Some([2]), delivered := [2]);
    assert Step(s0, Snapshot) == s1 by { SnapshotStep(s0); }
    ResumePush(s1, [], Send(2));
    ResumePush(s1, [Send(2)], Push(1));
    ResumePush(s1, [Send(2), Push(1)], Send(1));
    ResumePush(s1, [Send(2), Push(1), Send(1)], Receive);
    ResumePush(s1, [Send(2), Push(1), Send(1), Receive], Receive);
    assert [] + [Send(2)] == [Send(2)];
    assert [Send(2)] + [Push(1)] == [Send(2), Push(1)];
    assert [Send(2), Push(1)] + [Send(1)] == [Send(2), Push(1), Send(1)];
    assert [Send(2), Push(1), Send(1)] + [Receive] == [Send(2), Push(1), Send(1), Receive];
    assert [Send(2), Push(1), Send(1), Receive] + [Receive] == [Send(2), Push(1), Send(1), Receive, Receive];
    NoResume(s1);
    FiveSteps(s1);
  }

  lemma FourSteps()
    ensures Step(Step(Step(Step(START, Subscribe), Take), Take), Push(2))
      == State(3, {1}, {2}, [2], [], Some(0), None, 0, [])
  {
  }

  lemma SnapshotStep(s: State)
    requires s.subscribedAt.Some? && s.snapshot.None?
    ensures Step(s, Snapshot) == s.(snapshot := Some(s.buffer), delivered := s.buffer)
  {
  }

  lemma FiveSteps(s: State)
    requires s == State(3, {1}, {2}, [2], [], Some(0), Some([2]), 0, [2])
    ensures Step(Step(Step(Step(Step(s, Send(2)), Push(1)), Send(1)), Receive), Receive)
      == State(3, {}, {}, [2, 1], [2, 1], Some(0), Some([2]), 2, [2])
  {
    hide Max;
    assert 2 in [2] && Max([2]) >= [2][0];
    var s3 := Step(Step(Step(s, Send(2)), Push(1)), Send(1));
    assert s3 == State(3, {}, {}, [2, 1], [2, 1], Some(0), Some([2]), 0, [2]);
  }

  lemma ResumePush(s: State, actions: seq<Action>, a: Action)
    ensures Resume(s, actions + [a]) == Step(Resume(s, actions), a)
  {
    assert (actions + [a])[..|actions|] == actions;
  }

  lemma NoResume(s: State)
    ensures Resume(s, []) == s
  {
  }

  lemma EmptyRun()
    ensures Run([]) == START
  {
  }

  // ---- Serialized emits ----

  /** Runs in which the three steps of an emit are never separated. */
  datatype SerialAction = EmitOne | Other(action: Action)

  predicate IsSerial(actions: seq<SerialAction>) {
    forall i :: 0 <= i < |actions| ==>
      actions[i].EmitOne? || !(actions[i].action.Take? || actions[i].action.Push? || actions[i].action.Send?)
  }

  function SerialStep(s: State, a: SerialAction): State {
    match a
    case EmitOne => Step(Step(Step(s, Take), Push(s.next)), Send(s.next))
    case Other(action) => Step(s, action)
  }

  function SerialRun(actions: seq<SerialAction>): State {
    if |actions| == 0 then START
    else SerialStep(SerialRun(actions[..|actions| - 1]), actions[|actions| - 1])
  }

  predicate NoSerialLag(actions: seq<SerialAction>) {
    forall i :: 0 <= i < |actions| ==> !(actions[i].Other? && actions[i].action.Lag?)
  }

  /** lo, lo+1, ..., hi-1. */
  function Range(lo: nat, hi: nat): (r: seq<nat>)
    requires lo <= hi
    ensures |r| == hi - lo
  {
    seq(hi - lo, i requires 0 <= i < hi - lo => lo + i)
  }

  /** The oldest number in the buffer, when the next event will be `next`. */
  function Oldest(next: nat): nat
    requires next >= 1
  {
    if next > 1_000 then next - 1_000 else 1
  }

  /** The next number at the moment of the snapshot. */
  function SnapshotNext(s: State): nat
    requires s.snapshot.Some?
  {
    Max(s.snapshot.value) + 1
  }

  function DeliveredUpTo(s: State): (hi: nat)
    requires s.snapshot.Some?
    ensures hi >= SnapshotNext(s)
  {
    if s.position + 1 < SnapshotNext(s) then SnapshotNext(s) else s.position + 1
  }

  ghost predicate SerialInv(s: State, lag: bool) {
    && s.next >= 1 && s.taken == {} && s.pushed == {}
    && s.sent == Range(1, s.next)
    && s.buffer == Range(Oldest(s.next), s.next)
    && s.position < s.next
    && (s.subscribedAt.Some? ==> s.subscribedAt.value <= s.position)
    && (s.snapshot.None? ==> s.delivered == [])
    && (s.snapshot.Some? ==>
          && s.subscribedAt.Some?
          && s.subscribedAt.value < SnapshotNext(s) <= s.next
          && s.snapshot.value == Range(Oldest(SnapshotNext(s)), SnapshotNext(s))
          && (!lag ==> s.delivered == Range(Oldest(SnapshotNext(s)), DeliveredUpTo(s)))
          && Increasing(s.delivered)
          && forall i :: 0 <= i < |s.delivered| ==> s.delivered[i] < DeliveredUpTo(s))
  }

  lemma MaxOfRange(n: nat)
    requires n >= 1
    ensures Max(Range(Oldest(n), n)) == n - 1
  {
    var r := Range(Oldest(n), n);
    if n > 1 {
      assert r[|r| - 1] == n - 1;
    }
  }

  lemma EmitOneStep(s: State, lag: bool)
    requires SerialInv(s, lag)
    ensures SerialInv(SerialStep(s, EmitOne), lag)
  {
    hide Max;
    assert Range(1, s.next) + [s.next] == Range(1, s.next + 1);
    assert PushCapped(s.buffer, s.next) == Range(Oldest(s.next + 1), s.next + 1);
  }

  lemma SerialReceiveStep(s: State, lag: bool)
    requires SerialInv(s, lag) && s.snapshot.Some? && s.position < |s.sent|
    ensures SerialInv(Step(s, Receive), lag)
  {
    hide Max;
    var s' := Step(s, Receive);
    var n := s.sent[s.position];
    assert n == s.position + 1;
    if n >= SnapshotNext(s) && !lag {
      assert Range(Oldest(SnapshotNext(s)), n) + [n] == Range(Oldest(SnapshotNext(s)), n + 1);
    }
  }

  lemma SerialInvStep(s: State, a: SerialAction, lag: bool)
    requires SerialInv(s, lag) && IsSerial([a]) && (lag || NoSerialLag([a]))
    ensures SerialInv(SerialStep(s, a), lag)
  {
    hide Max;
    assert a == [a][0];
    if a.EmitOne? {
      EmitOneStep(s, lag);
    } else if a.action.Snapshot? {
      MaxOfRange(s.next);
    } else if a.action.Receive? && s.snapshot.Some? && s.position < |s.sent| {
      SerialReceiveStep(s, lag);
    }
  }

  lemma {:induction false} SerialRunInv(actions: seq<SerialAction>, lag: bool)
    requires IsSerial(actions) && (lag || NoSerialLag(actions))
    ensures SerialInv(SerialRun(actions), lag)
  {
    hide Max;
    if |actions| > 0 {
      var init, a := actions[..|actions| - 1], actions[|actions| - 1];
      SerialRunInv(init, lag);
      SerialInvStep(SerialRun(init), a, lag);
    }
  }

  /** With lag there may be gaps, but numbers only ever go up. */
  lemma SerialDeliveryIsIncreasing(actions: seq<SerialAction>)
    requires IsSerial(actions)
    ensures Increasing(SerialRun(actions).delivered)
  {
    SerialRunInv(actions, true);
  }

  /**
   Without lag the publisher delivers one contiguous range, each number once and in order: from the
   oldest event still buffered at the snapshot up to the last one received, or to the snapshot's end
   when the receiver has not passed it yet.
   */
  lemma SerialDeliveryIsContiguous(actions: seq<SerialAction>)
    requires IsSerial(actions) && NoSerialLag(actions) && SerialRun(actions).snapshot.Some?
    ensures var s := SerialRun(actions);
      && s.snapshot.value == Range(Oldest(SnapshotNext(s)), SnapshotNext(s))
      && s.delivered == Range(Oldest(SnapshotNext(s)), DeliveredUpTo(s))
  {
    SerialRunInv(actions, false);
  }

  /**
   With serialized emits and no lag, every event sent after the subscription has been delivered once
   the receiver is through exactly when at most 1000 were emitted between subscribing and the snapshot.
   */
  lemma SerialNothingLostIff(actions: seq<SerialAction>)
    requires IsSerial(actions) && NoSerialLag(actions)
    requires SerialRun(actions).snapshot.Some? && SerialRun(actions).position == |SerialRun(actions).sent|
    ensures var s := SerialRun(actions);
      && s.subscribedAt.Some? && s.subscribedAt.value <= |s.sent|
      && ((forall n :: n in s.sent[s.subscribedAt.value..] ==> n in s.delivered)
          <==> SnapshotNext(s) - 1 - s.subscribedAt.value <= 1_000)
  {
    hide Max, SerialRun;
    SerialRunInv(actions, false);
    var s := SerialRun(actions);
    var sub, lo := s.subscribedAt.value, Oldest(SnapshotNext(s));
    forall n: nat ensures n in s.sent[sub..] <==> sub < n < s.next {
      if sub < n < s.next {
        assert s.sent[sub..][n - 1 - sub] == n;
      }
    }
    forall n: nat ensures n in s.delivered <==> lo <= n < s.next {
      if lo <= n < s.next {
        assert s.delivered[n - lo] == n;
      }
    }
    if lo > sub + 1 {
      assert sub + 1 in s.sent[sub..] && sub + 1 !in s.delivered;
    }
  }

  function Repeat(a: SerialAction, count: nat): (r: seq<SerialAction>)
    ensures |r| == count
    ensures forall i :: 0 <= i < count ==> r[i] == a
  {
    seq(count, _ => a)
  }

  lemma SerialRunPush(actions: seq<SerialAction>, a: SerialAction)
    ensures SerialRun(actions + [a]) == SerialStep(SerialRun(actions), a)
  {
    assert (actions + [a])[..|actions|] == actions;
  }

  lemma {:induction false} EmitMany(actions: seq<SerialAction>, count: nat)
    ensures var s, s' := SerialRun(actions), SerialRun(actions + Repeat(EmitOne, count));
      && s'.next == s.next + count && s'.position == s.position
      && s'.subscribedAt == s.subscribedAt && s'.snapshot == s.snapshot
  {
    hide SerialRun;
    if count == 0 {
      assert actions + Repeat(EmitOne, 0) == actions;
    } else {
      EmitMany(actions, count - 1);
      assert actions + Repeat(EmitOne, count) == (actions + Repeat(EmitOne, count - 1)) + [EmitOne];
      SerialRunPush(actions + Repeat(EmitOne, count - 1), EmitOne);
    }
  }

  lemma {:induction false} ReceiveMany(actions: seq<SerialAction>, count: nat)
    requires SerialRun(actions).snapshot.Some? && SerialRun(actions).position + count <= |SerialRun(actions).sent|
    ensures var s, s' := SerialRun(actions), SerialRun(actions + Repeat(Other(Receive), count));
      && s'.position == s.position + count && s'.sent == s.sent
      && s'.subscribedAt == s.subscribedAt && s'.snapshot == s.snapshot
  {
    hide SerialRun, Max;
    if count == 0 {
      assert actions + Repeat(Other(Receive), 0) == actions;
    } else {
      ReceiveMany(actions, count - 1);
      var before := actions + Repeat(Other(Receive), count - 1);
      assert actions + Repeat(Other(Receive), count) == before + [Other(Receive)];
      SerialRunPush(before, Other(Receive));
    }
  }

  /** So with one emitter too an event can be lost: the first of 1001 emitted before the snapshot. */
  lemma EvictedEventIsLost() returns (actions: seq<SerialAction>)
    ensures IsSerial(actions) && NoSerialLag(actions) && SerialRun(actions).snapshot.Some?
    ensures var s := SerialRun(actions);
      && s.subscribedAt == Some(0) && s.position == |s.sent| == BUFFER_CAP + 1
      && 1 in s.sent && 1 !in s.delivered
  {
    hide SerialRun, Max;
    var subscribed := [Other(Subscribe)];
    var emitted := subscribed + Repeat(EmitOne, BUFFER_CAP + 1);
    var snapped := emitted + [Other(Snapshot)];
    actions := snapped + Repeat(Other(Receive), BUFFER_CAP + 1);
    assert SerialRun([]) == START by { EmptySerialRun(); }
    assert subscribed == [] + subscribed;
    SerialRunPush([], Other(Subscribe));
    EmitMany(subscribed, BUFFER_CAP + 1);
    SerialRunPush(emitted, Other(Snapshot));
    SerialRunInv(emitted, false);
    SerialRunInv(snapped, false);
    MaxOfRange(BUFFER_CAP + 2);
    ReceiveMany(snapped, BUFFER_CAP + 1);
    SerialRunInv(actions, false);
    assert SerialRun(actions).sent[0] == 1;
  }

  lemma EmptySerialRun()
    ensures SerialRun([]) == START
  {
  }
}
