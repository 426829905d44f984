/** Membership notifications: duplicate rejection, the per-channel watermark, and the channel sets. */
module Membership {
  import opened Bytes

  type EventId = nat
  type Channel = nat

  const GENERATION: nat := 1_000

  /** A notification; `inScope` and `subscribeOk` say how filter resolution and the relay answer it. */
  datatype Notification = Notification(
    id: EventId, channel: Channel, timestamp: nat, added: bool, inScope: bool, subscribeOk: bool)

  datatype State = State(
    current: set<EventId>, previous: set<EventId>, newest: map<Channel, nat>,
    subscribed: set<Channel>, removed: set<Channel>)

  function Remembered(s: State): set<EventId> {
    s.current + s.previous
  }

  predicate IsStale(s: State, n: Notification) {
    n.channel in s.newest && n.timestamp < s.newest[n.channel]
  }

  function Recorded(s: State, id: EventId): State {
    var current := s.current + {id};
    if |current| >= GENERATION then s.(current := {}, previous := current) else s.(current := current)
  }

  function Applied(s: State, n: Notification): State {
    var s' := s.(newest := s.newest[n.channel := n.timestamp]);
    if !n.added then s'.(subscribed := s'.subscribed - {n.channel}, removed := s'.removed + {n.channel})
    else
      s'.(removed := s'.removed - {n.channel},
          subscribed := if n.inScope && n.subscribeOk then s'.subscribed + {n.channel} else s'.subscribed)
  }

  function Handled(s: State, n: Notification): State {
    if n.id in Remembered(s) then s
    else if IsStale(s, n) then Recorded(s, n.id)
    else Applied(Recorded(s, n.id), n)
  }

  class MembershipTracker {
    var seenCurrent: set<EventId>
    var seenPrevious: set<EventId>
    var newestTs: map<Channel, nat>
    var subscribedChannels: set<Channel>
    var removedChannels: set<Channel>

    function Value(): State
      reads this
    {
      State(seenCurrent, seenPrevious, newestTs, subscribedChannels, removedChannels)
    }

    constructor (subscribed: set<Channel>)
      ensures Value() == State({}, {}, map[], subscribed, {})
    {
      seenCurrent, seenPrevious, newestTs := {}, {}, map[];
      subscribedChannels, removedChannels := subscribed, {};
    }

    method Handle(n: Notification)
      modifies this
      ensures Value() == Handled(old(Value()), n)
    {
      if n.id in seenCurrent || n.id in seenPrevious {
        return;
      }
      seenCurrent := seenCurrent + {n.id};
      if |seenCurrent| >= GENERATION {
        seenPrevious := seenCurrent;
        seenCurrent := {};
      }
      if n.channel in newestTs && n.timestamp < newestTs[n.channel] {
        return;
      }
      newestTs := newestTs[n.channel := n.timestamp];
      if n.added {
        removedChannels := removedChannels - {n.channel};
        if n.channel !in subscribedChannels && n.inScope && n.subscribeOk {
          subscribedChannels := subscribedChannels + {n.channel};
        }
      } else {
        subscribedChannels := subscribedChannels - {n.channel};
        removedChannels := removedChannels + {n.channel};
      }
    }
  }

  // ---- Runs ----

  /** The state, the ids recorded so far, and the notifications that were acted on. */
  datatype Trace = Trace(state: State, recorded: seq<EventId>, accepted: seq<Notification>)

  function Step(t: Trace, n: Notification): Trace {
    if n.id in Remembered(t.state) then t
    else
      Trace(Handled(t.state, n), t.recorded + [n.id],
            if IsStale(t.state, n) then t.accepted else t.accepted + [n])
  }

  function Run(subscribed: set<Channel>, ns: seq<Notification>): Trace {
    if |ns| == 0 then Trace(State({}, {}, map[], subscribed, {}), [], [])
    else Step(Run(subscribed, ns[..|ns| - 1]), ns[|ns| - 1])
  }

  function Ids(s: seq<EventId>): (r: set<EventId>)
    ensures forall id :: id in r <==> id in s
  {
    set id | id in s
  }

  /** Recorded ids less than a generation apart, or exactly one apart, are different. */
  ghost predicate NoRepeats(recorded: seq<EventId>) {
    forall i, j :: 0 <= i < j < |recorded| && j - i <= GENERATION ==> recorded[i] != recorded[j]
  }

  /** Where the current generation starts in the record. */
  function Rotation(count: nat): (n: nat)
    ensures n <= count < n + GENERATION
  {
    count - count % GENERATION
  }

  lemma RotationStep(count: nat)
    ensures Rotation(count + 1) == if count + 1 - Rotation(count) == GENERATION then count + 1 else Rotation(count)
    ensures Rotation(count) == 0 || Rotation(count) >= GENERATION
  {
  }

  /** The two sets hold the ids recorded from `r` on and the whole generation before `r`. */
  ghost predicate GenerationsAt(current: set<EventId>, previous: set<EventId>, recorded: seq<EventId>, r: nat) {
    && r <= |recorded|
    && current == Ids(recorded[r..]) && |current| == |recorded| - r
    && previous == (if r >= GENERATION then Ids(recorded[r - GENERATION..r]) else {})
    && |previous| <= GENERATION
  }

  ghost predicate Generations(current: set<EventId>, previous: set<EventId>, recorded: seq<EventId>) {
    GenerationsAt(current, previous, recorded, Rotation(|recorded|))
  }

  ghost predicate DedupInv(t: Trace) {
    Generations(t.state.current, t.state.previous, t.recorded)
  }

  ghost predicate OrderInv(t: Trace) {
    && (forall i, j :: 0 <= i < j < |t.accepted| && t.accepted[i].channel == t.accepted[j].channel ==>
          t.accepted[i].timestamp <= t.accepted[j].timestamp)
    && (forall i :: 0 <= i < |t.accepted| ==>
          t.accepted[i].channel in t.state.newest && t.accepted[i].timestamp <= t.state.newest[t.accepted[i].channel])
    && t.state.subscribed !! t.state.removed
  }

  /** The last generation of recorded ids is remembered, so none of them is handled twice. */
  lemma RecentIsRemembered(t: Trace, i: nat)
    requires DedupInv(t) && i < |t.recorded| && |t.recorded| - i <= GENERATION
    ensures t.recorded[i] in Remembered(t.state)
  {
    hide Rotation;
    var r := Rotation(|t.recorded|);
    RotationStep(|t.recorded|);
    if i >= r {
      assert t.recorded[i] == t.recorded[r..][i - r];
    } else {
      assert t.recorded[i] == t.recorded[r - GENERATION..r][i - (r - GENERATION)];
    }
  }

  lemma NoRepeatsKeeps(t: Trace, n: Notification)
    requires DedupInv(t) && NoRepeats(t.recorded) && n.id !in Remembered(t.state)
    ensures NoRepeats(t.recorded + [n.id])
  {
    forall i | 0 <= i < |t.recorded| && |t.recorded| - i <= GENERATION ensures t.recorded[i] != n.id {
      RecentIsRemembered(t, i);
    }
  }

  lemma GenerationGrows(current: set<EventId>, previous: set<EventId>, recorded: seq<EventId>, x: EventId, r: nat)
    requires GenerationsAt(current, previous, recorded, r) && x !in current
    ensures GenerationsAt(current + {x}, previous, recorded + [x], r)
  {
    var all := recorded + [x];
    assert all[r..] == recorded[r..] + [x];
    assert Ids(all[r..]) == current + {x};
    if r >= GENERATION {
      assert all[r - GENERATION..r] == recorded[r - GENERATION..r];
    }
  }

  lemma GenerationRotates(current: set<EventId>, previous: set<EventId>, recorded: seq<EventId>, r: nat)
    requires GenerationsAt(current, previous, recorded, r) && |recorded| == r + GENERATION
    ensures GenerationsAt({}, current, recorded, |recorded|)
  {
    assert recorded[r..] == recorded[r..|recorded|];
    assert Ids(recorded[|recorded|..]) == {};
  }

  lemma CurrentSize(t: Trace, r: nat)
    requires GenerationsAt(t.state.current, t.state.previous, t.recorded, r)
    ensures r <= |t.recorded| && |t.state.current| == |t.recorded| - r
  {
  }

  lemma HandlingRecords(s: State, n: Notification)
    requires n.id !in Remembered(s)
    ensures Handled(s, n).current == Recorded(s, n.id).current && Handled(s, n).previous == Recorded(s, n.id).previous
  {
  }

  lemma RecordKeeps(t: Trace, n: Notification)
    requires DedupInv(t) && n.id !in Remembered(t.state)
    ensures DedupInv(Step(t, n))
  {
    hide Rotation, GenerationsAt, Handled;
    HandlingRecords(t.state, n);
    var r := Rotation(|t.recorded|);
    assert |t.state.current| == |t.recorded| - r by { CurrentSize(t, r); }
    var all := t.recorded + [n.id];
    RotationStep(|t.recorded|);
    GenerationGrows(t.state.current, t.state.previous, t.recorded, n.id, r);
    if |t.state.current| + 1 == GENERATION {
      GenerationRotates(t.state.current + {n.id}, t.state.previous, all, r);
    }
  }

  lemma OrderKeeps(t: Trace, n: Notification)
    requires OrderInv(t)
    ensures OrderInv(Step(t, n))
  {
  }

  lemma {:induction false} RunInv(subscribed: set<Channel>, ns: seq<Notification>)
    ensures var t := Run(subscribed, ns); DedupInv(t) && NoRepeats(t.recorded) && OrderInv(t)
  {
    hide Generations, Handled;
    if |ns| > 0 {
      var t, n := Run(subscribed, ns[..|ns| - 1]), ns[|ns| - 1];
      RunInv(subscribed, ns[..|ns| - 1]);
      OrderKeeps(t, n);
      if n.id !in Remembered(t.state) {
        RecordKeeps(t, n);
        NoRepeatsKeeps(t, n);
      }
    } else {
      EmptyGenerations();
    }
  }

  lemma EmptyGenerations()
    ensures Generations({}, {}, [])
  {
  }

  /** In every run the last 1000 recorded ids are remembered. */
  lemma LastGenerationIsRemembered(subscribed: set<Channel>, ns: seq<Notification>, i: nat)
    requires i < |Run(subscribed, ns).recorded| && |Run(subscribed, ns).recorded| - i <= GENERATION
    ensures Run(subscribed, ns).recorded[i] in Remembered(Run(subscribed, ns).state)
  {
    RunInv(subscribed, ns);
    RecentIsRemembered(Run(subscribed, ns), i);
  }

  /** No id is recorded again while a thousand others or fewer separate the two. */
  lemma NoneProcessedTwice(subscribed: set<Channel>, ns: seq<Notification>)
    ensures NoRepeats(Run(subscribed, ns).recorded)
    ensures |Remembered(Run(subscribed, ns).state)| <= 1_999
  {
    RunInv(subscribed, ns);
    var s := Run(subscribed, ns).state;
    assert |s.current| < GENERATION;
    UnionSize(s.current, s.previous);
  }

  lemma {:induction false} UnionSize(a: set<EventId>, b: set<EventId>)
    ensures |a + b| <= |a| + |b|
  {
    if a == {} {
      assert a + b == b;
    } else {
      var x :| x in a;
      UnionSize(a - {x}, b);
      assert a + b == (a - {x} + b) + {x};
    }
  }

  /** What is acted on never goes back in time within a channel, and no channel is both subscribed and removed. */
  lemma AcceptedInOrder(subscribed: set<Channel>, ns: seq<Notification>)
    ensures var t := Run(subscribed, ns);
      && t.state.subscribed !! t.state.removed
      && forall i, j :: 0 <= i < j < |t.accepted| && t.accepted[i].channel == t.accepted[j].channel ==>
           t.accepted[i].timestamp <= t.accepted[j].timestamp
  {
    RunInv(subscribed, ns);
  }

  /**
   A channel is marked removed exactly when its last accepted notification removed it, and then it is
   not subscribed; after an addition in scope that the relay took, it is.
   */
  lemma {:induction false} RemovedIff(subscribed: set<Channel>, ns: seq<Notification>, ch: Channel)
    ensures RemovalKnown(Run(subscribed, ns), ch)
  {
    hide RemovalKnown;
    if |ns| > 0 {
      RemovedIff(subscribed, ns[..|ns| - 1], ch);
      RemovalStep(Run(subscribed, ns[..|ns| - 1]), ns[|ns| - 1], ch);
    } else {
      NoRemovals(subscribed, ch);
    }
  }

  ghost predicate RemovalKnown(t: Trace, ch: Channel) {
    var last := LastAccepted(t.accepted, ch);
    && (ch in t.state.removed <==> last.Some? && !last.value.added)
    && (last.Some? && last.value.added && last.value.inScope && last.value.subscribeOk ==> ch in t.state.subscribed)
    && (last.Some? && !last.value.added ==> ch !in t.state.subscribed)
  }

  lemma RemovalStep(t: Trace, n: Notification, ch: Channel)
    requires RemovalKnown(t, ch)
    ensures RemovalKnown(Step(t, n), ch)
  {
    assert (t.accepted + [n])[..|t.accepted|] == t.accepted;
  }

  lemma NoRemovals(subscribed: set<Channel>, ch: Channel)
    ensures RemovalKnown(Run(subscribed, []), ch)
  {
  }

  function LastAccepted(accepted: seq<Notification>, ch: Channel): Option<Notification> {
    if |accepted| == 0 then None
    else
      var last := accepted[|accepted| - 1];
      if last.channel == ch then Some(last) else LastAccepted(accepted[..|accepted| - 1], ch)
  }

  // ---- The whole run, told from the notifications ----

  /** The ids still remembered when so many have been recorded: this generation's and the last one's. */
  function MemoryStart(count: nat): (start: nat)
    ensures start <= count
  {
    if count < 1_000 then 0 else count - count % 1_000 - 1_000
  }

  predicate IsKnown(seen: seq<EventId>, id: EventId) {
    id in seen[MemoryStart(|seen|)..]
  }

  /** The ids recorded: each one that is not known when it comes. */
  function Seen(ns: seq<Notification>): seq<EventId> {
    if |ns| == 0 then []
    else
      var before, n := Seen(ns[..|ns| - 1]), ns[|ns| - 1];
      if IsKnown(before, n.id) then before else before + [n.id]
  }

  /** The notifications acted on: each unknown one than which none of its channel acted on before is newer. */
  ghost function ActedOn(ns: seq<Notification>): seq<Notification> {
    if |ns| == 0 then []
    else
      var init, n := ns[..|ns| - 1], ns[|ns| - 1];
      var before := ActedOn(init);
      if IsKnown(Seen(init), n.id) || exists m :: m in before && m.channel == n.channel && m.timestamp > n.timestamp
      then before else before + [n]
  }

  /** Subscribed at first and not removed since, or added in scope with the relay's consent and not removed since. */
  predicate IsSubscribed(initially: bool, acted: seq<Notification>, ch: Channel) {
    if |acted| == 0 then initially
    else
      var n := acted[|acted| - 1];
      if n.channel == ch && !n.added then false
      else if n.channel == ch && n.inScope && n.subscribeOk then true
      else IsSubscribed(initially, acted[..|acted| - 1], ch)
  }

  lemma MemoryFrom(count: nat)
    ensures MemoryStart(count) == if Rotation(count) >= GENERATION then Rotation(count) - GENERATION else 0
    ensures Rotation(count) < GENERATION ==> Rotation(count) == 0
  {
  }

  lemma KnownIffRemembered(t: Trace, id: EventId)
    requires DedupInv(t)
    ensures id in Remembered(t.state) <==> IsKnown(t.recorded, id)
  {
    hide Rotation, MemoryStart;
    var r, m := Rotation(|t.recorded|), MemoryStart(|t.recorded|);
    MemoryFrom(|t.recorded|);
    assert t.recorded[m..] == t.recorded[m..r] + t.recorded[r..];
  }

  /** The watermark of a channel is the time of the last notification acted on. */
  ghost predicate MarksLast(t: Trace) {
    forall ch ::
      && (ch in t.state.newest <==> LastAccepted(t.accepted, ch).Some?)
      && (ch in t.state.newest ==> t.state.newest[ch] == LastAccepted(t.accepted, ch).value.timestamp)
  }

  lemma LastAcceptedPush(accepted: seq<Notification>, n: Notification, ch: Channel)
    ensures LastAccepted(accepted + [n], ch) == if n.channel == ch then Some(n) else LastAccepted(accepted, ch)
  {
    assert (accepted + [n])[..|accepted|] == accepted;
  }

  lemma {:induction false} LastAcceptedIsIn(accepted: seq<Notification>, ch: Channel)
    ensures var last := LastAccepted(accepted, ch);
      && (last.Some? ==> last.value in accepted && last.value.channel == ch)
      && (last.None? ==> forall m :: m in accepted ==> m.channel != ch)
  {
    if |accepted| > 0 {
      LastAcceptedIsIn(accepted[..|accepted| - 1], ch);
    }
  }

  lemma StaleIff(t: Trace, n: Notification)
    requires OrderInv(t) && MarksLast(t)
    ensures IsStale(t.state, n)
      <==> exists m :: m in t.accepted && m.channel == n.channel && m.timestamp > n.timestamp
  {
    LastAcceptedIsIn(t.accepted, n.channel);
  }

  lemma MarksStep(t: Trace, n: Notification)
    requires MarksLast(t)
    ensures MarksLast(Step(t, n))
  {
    forall ch
      ensures LastAccepted(t.accepted + [n], ch) == if n.channel == ch then Some(n) else LastAccepted(t.accepted, ch)
    {
      LastAcceptedPush(t.accepted, n, ch);
    }
  }

  /**
   In every run the ids recorded, the notifications acted on and the channels subscribed are what the
   notifications alone say: nothing known or older is acted on, everything else is, and a channel is subscribed
   exactly by its start, its removals and the additions in scope that the relay took.
   */
  lemma {:induction false} RunIsAsTold(subscribed: set<Channel>, ns: seq<Notification>, ch: Channel)
    ensures var t := Run(subscribed, ns);
      && t.recorded == Seen(ns) && t.accepted == ActedOn(ns)
      && MarksLast(t)
      && (ch in t.state.subscribed <==> IsSubscribed(ch in subscribed, ActedOn(ns), ch))
  {
    hide IsStale, Remembered, IsKnown, MarksLast, Recorded, Applied;
    if |ns| > 0 {
      var init, n := ns[..|ns| - 1], ns[|ns| - 1];
      var t := Run(subscribed, init);
      RunIsAsTold(subscribed, init, ch);
      RunInv(subscribed, init);
      KnownIffRemembered(t, n.id);
      StaleIff(t, n);
      MarksStep(t, n);
      SubscribedStep(t, n, ch);
      assert (t.accepted + [n])[..|t.accepted|] == t.accepted;
    } else {
      NothingMarked(subscribed);
    }
  }

  lemma NothingMarked(subscribed: set<Channel>)
    ensures MarksLast(Run(subscribed, []))
  {
  }

  lemma SubscribedStep(t: Trace, n: Notification, ch: Channel)
    ensures ch in Step(t, n).state.subscribed
      <==> if n.id in Remembered(t.state) || IsStale(t.state, n) || n.channel != ch then ch in t.state.subscribed
           else n.added && ((n.inScope && n.subscribeOk) || ch in t.state.subscribed)
  {
  }
}
