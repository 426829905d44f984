/**
 What becomes of the event a steer carried: it is withheld from the channel's queue while the steer
 is in flight, and each outcome either removes it for good or puts it back at the queue's front.
 */
module SteerQueue {
  import opened Bytes
  import opened Seqs
  import opened ReadLoop
  import opened ReadLoopLaws

  const MAX_PENDING_PER_CHANNEL: nat := 500
  const METHOD_NOT_FOUND: int := -32601

  type EventId = nat
  type Channel = nat

  // ---- One channel's queue and side table ----

  datatype Table = Table(queue: seq<EventId>, withheld: seq<EventId>)

  function RemoveFirst(s: seq<EventId>, e: EventId): seq<EventId> {
    var i := IndexOf(s, e);
    if i < |s| then s[..i] + s[i + 1..] else s
  }

  function RemoveAll(s: seq<EventId>, e: EventId): (r: seq<EventId>)
    ensures forall x :: x in r <==> x in s && x != e
  {
    if |s| == 0 then []
    else
      var rest := RemoveAll(s[1..], e);
      assert s == [s[0]] + s[1..];
      if s[0] == e then rest else [s[0]] + rest
  }

  predicate IsFirstOf(s: seq<EventId>, e: EventId, i: nat) {
    i < |s| && s[i] == e && e !in s[..i]
  }

  lemma IndexIsFirst(s: seq<EventId>, e: EventId)
    requires e in s
    ensures IsFirstOf(s, e, IndexOf(s, e))
    decreases s
  {
    if s[0] != e {
      IndexIsFirst(s[1..], e);
      var i := IndexOf(s[1..], e);
      assert s[..i + 1] == [s[0]] + s[1..][..i];
    }
  }

  /** Removing all copies of an event is done one by one, in order: it keeps each other event and drops each copy. */
  lemma {:induction false} RemoveAllConcat(a: seq<EventId>, b: seq<EventId>, e: EventId)
    ensures RemoveAll(a + b, e) == RemoveAll(a, e) + RemoveAll(b, e)
    ensures RemoveAll([], e) == [] && forall x: EventId :: RemoveAll([x], e) == if x == e then [] else [x]
  {
    if |a| == 0 {
      assert a + b == b;
    } else {
      RemoveAllConcat(a[1..], b, e);
      assert (a + b)[0] == a[0] && (a + b)[1..] == a[1..] + b;
      ConsConcat(a[0], RemoveAll(a[1..], e), RemoveAll(b, e));
    }
  }

  lemma ConsConcat(x: EventId, a: seq<EventId>, b: seq<EventId>)
    ensures [x] + (a + b) == ([x] + a) + b
  {
  }

  function Capped(s: seq<EventId>): seq<EventId> {
    if |s| > MAX_PENDING_PER_CHANNEL then s[..MAX_PENDING_PER_CHANNEL] else s
  }

  /** `mark_native_steer_pending`. */
  function Marked(t: Table, e: EventId): Table {
    if e in t.queue then Table(RemoveFirst(t.queue, e), t.withheld + [e]) else t
  }

  /** `release_native_steer`. */
  function Released(t: Table, e: EventId): Table {
    if e in t.withheld then Table(Capped([e] + t.queue), RemoveFirst(t.withheld, e)) else t
  }

  /** `remove_event`. */
  function Removed(t: Table, e: EventId): Table {
    Table(RemoveAll(t.queue, e), RemoveAll(t.withheld, e))
  }

  /** `push`: at the cap the oldest event makes room. */
  function Pushed(t: Table, e: EventId): Table {
    t.(queue := (if |t.queue| >= MAX_PENDING_PER_CHANNEL then t.queue[1..] else t.queue) + [e])
  }

  /** `recover_withheld_for_expired_channel`. */
  function Recovered(t: Table): Table {
    if t.withheld == [] then t else Table(Capped(t.withheld + t.queue), [])
  }

  /** The two maps of the event queue; a channel with no events has no entry. */
  class EventQueue {
    var queues: map<Channel, seq<EventId>>
    var withheld: map<Channel, seq<EventId>>

    constructor ()
      ensures queues == map[] && withheld == map[]
    {
      queues, withheld := map[], map[];
    }

    function At(channel: Channel): Table
      reads this
    {
      Table(if channel in queues then queues[channel] else [], if channel in withheld then withheld[channel] else [])
    }

    /** Stores one channel's lists, dropping the entries that became empty. */
    method Store(channel: Channel, t: Table)
      modifies this
      ensures At(channel) == t
      ensures forall c :: c != channel ==> At(c) == old(At(c))
    {
      queues := if t.queue == [] then queues - {channel} else queues[channel := t.queue];
      withheld := if t.withheld == [] then withheld - {channel} else withheld[channel := t.withheld];
    }

    method MarkNativeSteerPending(channel: Channel, e: EventId) returns (found: bool)
      modifies this
      ensures found <==> e in old(At(channel)).queue
      ensures At(channel) == Marked(old(At(channel)), e)
      ensures var t := old(At(channel));
        found ==> exists i: nat ::
          IsFirstOf(t.queue, e, i)
          && At(channel).queue == t.queue[..i] + t.queue[i + 1..] && At(channel).withheld == t.withheld + [e]
      ensures forall c :: c != channel ==> At(c) == old(At(c))
    {
      var t := At(channel);
      var pos := IndexOf(t.queue, e);
      found := pos < |t.queue|;
      if found {
        IndexIsFirst(t.queue, e);
        Store(channel, Table(t.queue[..pos] + t.queue[pos + 1..], t.withheld + [e]));
      }
    }

    method ReleaseNativeSteer(channel: Channel, e: EventId)
      modifies this
      ensures At(channel) == Released(old(At(channel)), e)
      ensures var t := old(At(channel));
        e in t.withheld ==>
          && At(channel).queue == ([e] + t.queue)[..Min(500, |t.queue| + 1)]
          && exists i: nat ::
               IsFirstOf(t.withheld, e, i) && At(channel).withheld == t.withheld[..i] + t.withheld[i + 1..]
      ensures forall c :: c != channel ==> At(c) == old(At(c))
    {
      var t := At(channel);
      var pos := IndexOf(t.withheld, e);
      if pos == |t.withheld| {
        return;
      }
      IndexIsFirst(t.withheld, e);
      var queue := Cap([e] + t.queue);
      Store(channel, Table(queue, t.withheld[..pos] + t.withheld[pos + 1..]));
    }

    method Push(channel: Channel, e: EventId)
      modifies this
      ensures At(channel) == Pushed(old(At(channel)), e)
      ensures var q := old(At(channel)).queue;
        && At(channel).withheld == old(At(channel)).withheld
        && (|q| < 500 ==> At(channel).queue == q + [e])
        && (|q| >= 500 ==> At(channel).queue == q[1..] + [e])
      ensures forall c :: c != channel ==> At(c) == old(At(c))
    {
      var t := At(channel);
      var queue := t.queue;
      if |queue| >= MAX_PENDING_PER_CHANNEL {
        queue := queue[1..];
      }
      Store(channel, t.(queue := queue + [e]));
    }

    /** Pushes the withheld events to the front, last one first, so that their order is kept. */
    method RecoverWithheld(channel: Channel)
      modifies this
      ensures At(channel) == Recovered(old(At(channel)))
      ensures var all := old(At(channel)).withheld + old(At(channel)).queue;
        At(channel).withheld == []
        && (old(At(channel)).withheld != [] ==> At(channel).queue == all[..Min(500, |all|)])
      ensures forall c :: c != channel ==> At(c) == old(At(c))
    {
      var t := At(channel);
      if t.withheld == [] {
        return;
      }
      var queue := t.queue;
      for i := |t.withheld| downto 0
        invariant queue == t.withheld[i..] + t.queue
      {
        queue := [t.withheld[i]] + queue;
      }
      queue := Cap(queue);
      Store(channel, Table(queue, []));
    }

    /** Drops the newest events of an overfull queue, one at a time. */
    static method Cap(all: seq<EventId>) returns (queue: seq<EventId>)
      ensures queue == Capped(all)
    {
      queue := all;
      while |queue| > MAX_PENDING_PER_CHANNEL
        invariant queue <= all && Capped(queue) == Capped(all)
        decreases |queue|
      {
        queue := queue[..|queue| - 1];
      }
    }

    method RemoveEvent(channel: Channel, e: EventId)
      modifies this
      ensures At(channel) == Removed(old(At(channel)), e)
      ensures forall c :: c != channel ==> At(c) == old(At(c))
    {
      var t := At(channel);
      Store(channel, Table(RemoveAll(t.queue, e), RemoveAll(t.withheld, e)));
    }
  }

  // ---- The steer-ack table ----

  datatype Effect = Effect(release: bool, drop: bool, fallback: bool)

  function AckEffect(o: Outcome): Effect {
    match o
    case Acked(Success) => Effect(false, true, false)
    case Acked(AgentError(code)) =>
      if code == METHOD_NOT_FOUND then Effect(true, false, true) else Effect(true, false, false)
    case Acked(Transport) => Effect(true, false, true)
    case Acked(ExpectedRunIdMissing) => Effect(true, false, true)
    case Acked(PromptCompletedNeutral) => Effect(true, false, false)
    case Dropped => Effect(true, false, false)
  }

  /** The main loop's handling of one outcome. */
  function Settled(t: Table, e: EventId, o: Outcome): Table {
    var t1 := if AckEffect(o).drop then Removed(t, e) else t;
    if AckEffect(o).release then Released(t1, e) else t1
  }

  /** Handles a steer acknowledgement for one event; returns whether the turn is to be cancelled and merged. */
  method HandleSteerAck(q: EventQueue, channel: Channel, e: EventId, o: Outcome) returns (fallback: bool)
    modifies q
    ensures q.At(channel) == Settled(old(q.At(channel)), e, o)
    ensures forall c :: c != channel ==> q.At(c) == old(q.At(c))
    ensures fallback
      <==> o == Acked(Transport) || o == Acked(ExpectedRunIdMissing) || o == Acked(AgentError(-32601))
  {
    var effect := AckEffect(o);
    if effect.drop {
      q.RemoveEvent(channel, e);
    }
    if effect.release {
      q.ReleaseNativeSteer(channel, e);
    }
    fallback := effect.fallback;
  }

  lemma RemoveFirstOfDistinct(s: seq<EventId>, e: EventId)
    requires Distinct(s)
    ensures Distinct(RemoveFirst(s, e))
    ensures forall x :: x in RemoveFirst(s, e) <==> x in s && x != e
  {
    hide IndexOf;
    var i := IndexOf(s, e);
    if i < |s| {
      RemoveAtIsDistinct(s, i);
      forall x ensures x in RemoveFirst(s, e) <==> x in s && x != e {
        RemoveAtMembers(s, i, x);
      }
    }
  }

  lemma RemoveAtIsDistinct(s: seq<EventId>, i: nat)
    requires Distinct(s) && i < |s|
    ensures Distinct(s[..i] + s[i + 1..])
  {
    var r := s[..i] + s[i + 1..];
    assert forall k :: 0 <= k < |r| ==> r[k] == s[if k < i then k else k + 1];
  }

  lemma RemoveAtMembers(s: seq<EventId>, i: nat, x: EventId)
    requires Distinct(s) && i < |s|
    ensures x in s[..i] + s[i + 1..] <==> x in s && x != s[i]
  {
    assert s == s[..i] + [s[i]] + s[i + 1..];
  }

  lemma {:induction false} RemoveAllOfDistinct(s: seq<EventId>, e: EventId)
    requires Distinct(s)
    ensures Distinct(RemoveAll(s, e)) && |RemoveAll(s, e)| <= |s|
  {
    if |s| > 0 {
      assert forall i, j :: 0 <= i < j < |s[1..]| ==> s[1..][i] == s[i + 1] && s[1..][j] == s[j + 1];
      RemoveAllOfDistinct(s[1..], e);
      forall x | x in RemoveAll(s[1..], e) ensures x != s[0] {
        assert x in s[1..];
        var k :| 0 <= k < |s[1..]| && s[1..][k] == x;
        assert s[k + 1] == x;
      }
      assert forall k :: 0 <= k < |RemoveAll(s[1..], e)| ==> RemoveAll(s[1..], e)[k] in RemoveAll(s[1..], e);
    }
  }

  /**
   An outcome drops the withheld event or puts it back at the front, never both and never neither;
   and the turn is only ever cancelled for an event that was put back.
   */
  lemma OutcomeDropsOrReleases(t: Table, e: EventId, o: Outcome)
    requires Distinct(t.withheld) && e in t.withheld && e !in t.queue
    ensures var t' := Settled(t, e, o);
      && e !in t'.withheld
      && (e in t'.queue <==> o != Acked(Success))
      && (e in t'.queue ==> t'.queue == Capped([e] + t.queue))
      && (AckEffect(o).fallback
          <==> o == Acked(Transport) || o == Acked(ExpectedRunIdMissing) || o == Acked(AgentError(-32601)))
      && (AckEffect(o).fallback ==> e in t'.queue)
  {
    RemoveFirstOfDistinct(t.withheld, e);
    if o != Acked(Success) {
      assert ([e] + t.queue)[0] == e && Capped([e] + t.queue)[0] == e;
    }
  }

  // ---- From the read loop's outcomes to the queue ----

  /** The main loop handling the outcomes of a turn in order; request `r` carried event `events[r]`. */
  function SettledAll(t: Table, events: seq<EventId>, replies: seq<Reply>): Table
    requires forall k :: 0 <= k < |replies| ==> replies[k].request < |events|
  {
    if |replies| == 0 then t
    else
      var last := replies[|replies| - 1];
      Settled(SettledAll(t, events, replies[..|replies| - 1]), events[last.request], last.outcome)
  }

  /** Request `r` was answered with success among `replies`. */
  ghost predicate Succeeded(replies: seq<Reply>, r: nat) {
    exists k :: 0 <= k < |replies| && replies[k].request == r && IsSuccess(replies[k])
  }

  /** Settling one event leaves every other where it was, except that a full queue drops its newest event. */
  lemma OthersStay(t: Table, e: EventId, o: Outcome, x: EventId)
    requires Distinct(t.withheld) && x != e
    ensures var t' := Settled(t, e, o);
      && Distinct(t'.withheld) && |t'.queue| <= |t.queue| + 1
      && (x in t'.withheld <==> x in t.withheld) && (x in t'.queue ==> x in t.queue)
      && (|t.queue| < MAX_PENDING_PER_CHANNEL ==> (x in t'.queue <==> x in t.queue))
  {
    RemoveFirstOfDistinct(t.withheld, e);
    RemoveAllOfDistinct(t.withheld, e);
    RemoveAllShrinks(t.queue, e);
    if x in Capped([e] + t.queue) {
      assert x in [e] + t.queue;
    }
  }

  lemma {:induction false} RemoveAllShrinks(s: seq<EventId>, e: EventId)
    ensures |RemoveAll(s, e)| <= |s|
  {
    if |s| > 0 {
      RemoveAllShrinks(s[1..], e);
    }
  }

  /** Following one withheld event through the handling of a list of outcomes that has at most one for it. */
  lemma {:induction false} EventIsSettled(t: Table, events: seq<EventId>, replies: seq<Reply>, r: nat)
    requires forall k :: 0 <= k < |replies| ==> replies[k].request < |events|
    requires r < |events| && Distinct(events) && Distinct(t.withheld)
    requires events[r] in t.withheld && events[r] !in t.queue
    requires Outcomes(replies, r) <= 1
    ensures var t' := SettledAll(t, events, replies);
      && Distinct(t'.withheld) && |t'.queue| <= |t.queue| + |replies|
      && (events[r] in t'.withheld <==> Outcomes(replies, r) == 0)
      && (events[r] in t'.queue ==> Outcomes(replies, r) == 1 && !Succeeded(replies, r))
      && (|t.queue| + |replies| <= MAX_PENDING_PER_CHANNEL ==>
            (events[r] in t'.queue <==> Outcomes(replies, r) == 1 && !Succeeded(replies, r)))
  {
    hide Settled, Succeeded, AckEffect;
    if |replies| > 0 {
      var n := |replies| - 1;
      var init, last := replies[..n], replies[n];
      assert replies == init + [last];
      SucceededPush(init, last, r);
      OutcomesPush(init, last, r);
      EventIsSettled(t, events, init, r);
      var before := SettledAll(t, events, init);
      if last.request == r {
        OutcomeDropsOrReleases(before, events[r], last.outcome);
        SettledIsDistinct(before, events[r], last.outcome);
        if Succeeded(init, r) {
          SucceededCounts(init, r);
        }
      } else {
        OthersStay(before, events[last.request], last.outcome, events[r]);
      }
    }
  }

  lemma SucceededCounts(replies: seq<Reply>, r: nat)
    requires Succeeded(replies, r)
    ensures Outcomes(replies, r) >= 1
  {
    var k :| 0 <= k < |replies| && replies[k].request == r && IsSuccess(replies[k]);
    OutcomeCounts(replies, k);
  }

  lemma SucceededPush(replies: seq<Reply>, x: Reply, r: nat)
    ensures Succeeded(replies + [x], r) <==> Succeeded(replies, r) || (x.request == r && IsSuccess(x))
  {
    var all := replies + [x];
    if Succeeded(replies, r) {
      var k :| 0 <= k < |replies| && replies[k].request == r && IsSuccess(replies[k]);
      assert all[k] == replies[k];
    }
    assert all[|replies|] == x;
  }

  lemma SettledIsDistinct(t: Table, e: EventId, o: Outcome)
    requires Distinct(t.withheld)
    ensures Distinct(Settled(t, e, o).withheld) && |Settled(t, e, o).queue| <= |t.queue| + 1
  {
    RemoveFirstOfDistinct(t.withheld, e);
    RemoveAllOfDistinct(t.withheld, e);
    RemoveAllShrinks(t.queue, e);
  }

  /**
   From one end to the other: a turn offers requests for distinct withheld events, its loop returns,
   and the main loop handles the outcomes. Then no event is still withheld, and each that is back in
   the queue had a steer that did not succeed; with room in the queue, each such event is back.
   */
  lemma TurnSettlesEveryEvent(
    call: Call, run: Option<nat>, issued: int, now: int, actions: seq<Action>, t: Table, events: seq<EventId>, r: nat)
    requires Run(call, PromptStart(call, run, issued, now), actions).ended.Some?
    requires |events| == Run(call, PromptStart(call, run, issued, now), actions).offered && r < |events|
    requires Distinct(events) && Distinct(t.withheld)
    requires events[r] in t.withheld && events[r] !in t.queue
    ensures var replies := Run(call, PromptStart(call, run, issued, now), actions).replies;
      && (forall k :: 0 <= k < |replies| ==> replies[k].request < |events|)
      && events[r] !in SettledAll(t, events, replies).withheld
      && (events[r] in SettledAll(t, events, replies).queue ==> !Succeeded(replies, r))
      && (|t.queue| + |replies| <= MAX_PENDING_PER_CHANNEL ==>
            (events[r] in SettledAll(t, events, replies).queue <==> !Succeeded(replies, r)))
  {
    hide Run;
    var s := Run(call, PromptStart(call, run, issued, now), actions);
    forall k | 0 <= k < |s.replies| ensures s.replies[k].request < |events| {
      OutcomeCounts(s.replies, k);
      EveryRequestHasOneOutcome(call, run, issued, now, actions, s.replies[k].request);
    }
    EveryRequestHasOneOutcome(call, run, issued, now, actions, r);
    EventIsSettled(t, events, s.replies, r);
  }
}
