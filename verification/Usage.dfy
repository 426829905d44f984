/** Per-turn usage records from session-cumulative counters. Costs are real numbers. */
module Usage {
  import opened Bytes

  type SessionId = string

  datatype Payload = Payload(input: nat, output: nat, cost: Option<real>, model: Option<string>)

  datatype SessionState = SessionState(publishedSeq: nat, input: nat, output: nat, cost: Option<real>)

  /** The per-turn part of a record: absent fields when the delta is unreliable. */
  datatype Delta = Delta(reliable: bool, input: Option<nat>, output: Option<nat>, cost: Option<real>)

  const UNRELIABLE: Delta := Delta(false, None, None, None)

  datatype TurnUsage = TurnUsage(
    sessionId: SessionId, turnSeq: nat, delta: Delta, cumulative: Payload)

  datatype Tracker = Tracker(
    sessions: map<SessionId, SessionState>, inFlight: Option<SessionId>, pending: Option<TurnUsage>)

  function Baseline(t: Tracker, sid: SessionId): Option<SessionState> {
    if sid in t.sessions then Some(t.sessions[sid]) else None
  }

  /** The delta of `p` against a committed baseline. */
  function DeltaFrom(prev: SessionState, p: Payload): Delta {
    if p.input < prev.input || p.output < prev.output then UNRELIABLE
    else if p.cost.Some? && prev.cost.Some? then
      if p.cost.value >= prev.cost.value
      then Delta(true, Some(p.input - prev.input), Some(p.output - prev.output), Some(p.cost.value - prev.cost.value))
      else UNRELIABLE
    else Delta(true, Some(p.input - prev.input), Some(p.output - prev.output), None)
  }

  function RecordFor(baseline: Option<SessionState>, sid: SessionId, p: Payload): TurnUsage {
    match baseline
    case None => TurnUsage(sid, 1, UNRELIABLE, p)
    case Some(prev) => TurnUsage(sid, prev.publishedSeq + 1, DeltaFrom(prev, p), p)
  }

  function Begun(t: Tracker, sid: SessionId): Tracker {
    t.(inFlight := Some(sid), pending := None)
  }

  function Recorded(t: Tracker, sid: SessionId, p: Payload): Tracker {
    match t.inFlight
    case Some(current) => if current == sid then t.(pending := Some(RecordFor(Baseline(t, sid), sid, p))) else t
    case None =>
      var seqNo := if sid in t.sessions then t.sessions[sid].publishedSeq else 0;
      t.(sessions := t.sessions[sid := SessionState(seqNo, p.input, p.output, p.cost)])
  }

  function Taken(t: Tracker): (Tracker, Option<TurnUsage>) {
    match t.pending
    case None => (t.(inFlight := None), None)
    case Some(r) =>
      var state := SessionState(r.turnSeq, r.cumulative.input, r.cumulative.output, r.cumulative.cost);
      (Tracker(t.sessions[r.sessionId := state], None, None), Some(r))
  }

  class UsageTracker {
    var sessions: map<SessionId, SessionState>
    var inFlightSession: Option<SessionId>
    var pending: Option<TurnUsage>

    function Value(): Tracker
      reads this
    {
      Tracker(sessions, inFlightSession, pending)
    }

    constructor ()
      ensures Value() == Tracker(map[], None, None)
    {
      sessions, inFlightSession, pending := map[], None, None;
    }

    method BeginTurn(sid: SessionId)
      modifies this
      ensures Value() == Begun(old(Value()), sid)
    {
      inFlightSession := Some(sid);
      pending := None;
    }

    method Record(sid: SessionId, p: Payload)
      modifies this
      ensures Value() == Recorded(old(Value()), sid, p)
    {
      var isInFlight := inFlightSession == Some(sid);
      var delta, turnSeq := UNRELIABLE, 1;
      if sid in sessions {
        var prev := sessions[sid];
        turnSeq := prev.publishedSeq + 1;
        if p.input >= prev.input && p.output >= prev.output {
          var costDelta: Option<real>, costReliable := None, true;
          if p.cost.Some? && prev.cost.Some? {
            if p.cost.value >= prev.cost.value {
              costDelta := Some(p.cost.value - prev.cost.value);
            } else {
              costReliable := false;
            }
          }
          if costReliable {
            delta := Delta(true, Some(p.input - prev.input), Some(p.output - prev.output), costDelta);
          }
        }
      }
      if isInFlight {
        pending := Some(TurnUsage(sid, turnSeq, delta, p));
      } else if inFlightSession.None? {
        var publishedSeq := if sid in sessions then sessions[sid].publishedSeq else 0;
        sessions := sessions[sid := SessionState(publishedSeq, p.input, p.output, p.cost)];
      }
    }

    method Take() returns (record: Option<TurnUsage>)
      modifies this
      ensures (Value(), record) == Taken(old(Value()))
    {
      inFlightSession := None;
      record := pending;
      pending := None;
      if record.Some? {
        var r := record.value;
        sessions := sessions[r.sessionId :=
          SessionState(r.turnSeq, r.cumulative.input, r.cumulative.output, r.cumulative.cost)];
      }
    }
  }

  // ---- Runs ----

  datatype Action = BeginTurn(sid: SessionId) | Notify(sid: SessionId, payload: Payload) | TakeRecord

  /** The tracker and everything published so far. */
  datatype Trace = Trace(tracker: Tracker, published: seq<TurnUsage>)

  const FRESH: Trace := Trace(Tracker(map[], None, None), [])

  function Step(t: Trace, a: Action): Trace {
    match a
    case BeginTurn(sid) => t.(tracker := Begun(t.tracker, sid))
    case Notify(sid, p) => t.(tracker := Recorded(t.tracker, sid, p))
    case TakeRecord =>
      var (tracker, r) := Taken(t.tracker);
      Trace(tracker, t.published + if r.Some? then [r.value] else [])
  }

  function Resume(t: Trace, actions: seq<Action>): Trace
    decreases |actions|
  {
    if |actions| == 0 then t else Resume(Step(t, actions[0]), actions[1..])
  }

  function Run(actions: seq<Action>): Trace {
    Resume(FRESH, actions)
  }

  /** The records published for one session, in order. */
  function OfSession(published: seq<TurnUsage>, sid: SessionId): seq<TurnUsage> {
    if |published| == 0 then []
    else
      var last := published[|published| - 1];
      OfSession(published[..|published| - 1], sid) + if last.sessionId == sid then [last] else []
  }

  lemma OfSessionPush(published: seq<TurnUsage>, r: TurnUsage, sid: SessionId)
    ensures OfSession(published + [r], sid) == OfSession(published, sid) + if r.sessionId == sid then [r] else []
  {
    assert (published + [r])[..|published|] == published;
  }

  // ---- Sequence numbers ----

  /** The records of a session are numbered 1, 2, 3, ... */
  ghost predicate Numbered(records: seq<TurnUsage>) {
    forall i :: 0 <= i < |records| ==> records[i].turnSeq == i + 1
  }

  ghost predicate Inv(t: Trace) {
    && (forall sid :: Numbered(OfSession(t.published, sid)))
    && (forall sid :: |OfSession(t.published, sid)|
          == if sid in t.tracker.sessions then t.tracker.sessions[sid].publishedSeq else 0)
    && (t.tracker.pending.Some? ==>
          && t.tracker.inFlight == Some(t.tracker.pending.value.sessionId)
          && t.tracker.pending.value
             == RecordFor(Baseline(t.tracker, t.tracker.pending.value.sessionId),
                          t.tracker.pending.value.sessionId, t.tracker.pending.value.cumulative))
  }

  lemma TakeInv(t: Trace)
    requires Inv(t) && t.tracker.pending.Some?
    ensures Inv(Step(t, TakeRecord))
  {
    hide OfSession, DeltaFrom;
    var t' := Step(t, TakeRecord);
    var r := t.tracker.pending.value;
    forall sid
      ensures Numbered(OfSession(t'.published, sid))
      ensures |OfSession(t'.published, sid)|
        == if sid in t'.tracker.sessions then t'.tracker.sessions[sid].publishedSeq else 0
    {
      OfSessionPush(t.published, r, sid);
    }
  }

  lemma StepInv(t: Trace, a: Action)
    requires Inv(t)
    ensures Inv(Step(t, a))
  {
    hide OfSession, DeltaFrom;
    if a.TakeRecord? && t.tracker.pending.Some? {
      TakeInv(t);
    } else {
      assert Step(t, a).published == t.published;
    }
  }

  lemma {:induction false} ResumeInv(t: Trace, actions: seq<Action>)
    requires Inv(t)
    ensures Inv(Resume(t, actions))
    decreases |actions|
  {
    if |actions| > 0 {
      StepInv(t, actions[0]);
      ResumeInv(Step(t, actions[0]), actions[1..]);
    }
  }

  /** In every run the published records of each session carry the numbers 1, 2, 3, ... without gaps. */
  lemma TurnSeqHasNoGaps(actions: seq<Action>, sid: SessionId)
    ensures Numbered(OfSession(Run(actions).published, sid))
  {
    ResumeInv(FRESH, actions);
  }

  // ---- What is published, told from the notifications alone ----

  /** The session of the turn that has begun and has not been taken. */
  function InFlight(actions: seq<Action>): Option<SessionId> {
    if |actions| == 0 then None
    else
      match actions[|actions| - 1]
      case BeginTurn(sid) => Some(sid)
      case Notify(_, _) => InFlight(actions[..|actions| - 1])
      case TakeRecord => None
  }

  /** The last notification of this turn for the session in flight. */
  function LastNotice(actions: seq<Action>): Option<Payload> {
    if |actions| == 0 then None
    else
      var init := actions[..|actions| - 1];
      match actions[|actions| - 1]
      case Notify(sid, p) => if InFlight(init) == Some(sid) then Some(p) else LastNotice(init)
      case _ => None
  }

  /** One reading of a session that counts: published at the end of a turn, or notified outside any turn. */
  datatype Reading = Reading(counts: Payload, record: Option<TurnUsage>)

  /** What a step published. */
  function Published(before: seq<TurnUsage>, after: seq<TurnUsage>): Option<TurnUsage> {
    if |after| > |before| then Some(after[|after| - 1]) else None
  }

  /** The reading an action commits for `sid` after `init`: its counts are a notification's. */
  function ReadingOf(init: seq<Action>, a: Action, sid: SessionId): seq<Reading> {
    match a
    case BeginTurn(_) => []
    case Notify(s, p) => if s == sid && InFlight(init).None? then [Reading(p, None)] else []
    case TakeRecord =>
      if InFlight(init) == Some(sid) && LastNotice(init).Some?
      then [Reading(LastNotice(init).value, Published(Run(init).published, Run(init + [a]).published))]
      else []
  }

  function Ledger(actions: seq<Action>, sid: SessionId): seq<Reading> {
    if |actions| == 0 then []
    else
      var init := actions[..|actions| - 1];
      Ledger(init, sid) + ReadingOf(init, actions[|actions| - 1], sid)
  }

  /** A delta is reliable exactly when no counter went down, and then its fields are the differences. */
  ghost predicate StepsFrom(before: Payload, after: Payload, d: Delta) {
    var bothCosts := before.cost.Some? && after.cost.Some?;
    && (d.reliable <==>
          && after.input >= before.input && after.output >= before.output
          && (bothCosts ==> after.cost.value >= before.cost.value))
    && (d.reliable ==>
          && d.input == Some(after.input - before.input)
          && d.output == Some(after.output - before.output)
          && d.cost == if bothCosts then Some(after.cost.value - before.cost.value) else None)
    && (!d.reliable ==> d.input.None? && d.output.None? && d.cost.None?)
  }

  /** Measured from the last of `readings`; with none there is nothing to measure from. */
  ghost predicate Measures(readings: seq<Reading>, after: Payload, d: Delta) {
    if readings == [] then !d.reliable && d.input.None? && d.output.None? && d.cost.None?
    else StepsFrom(readings[|readings| - 1].counts, after, d)
  }

  /** Each published reading is of this session, carries its counts, and measures from the reading before. */
  ghost predicate Telescopes(readings: seq<Reading>, sid: SessionId) {
    forall i :: 0 <= i < |readings| && readings[i].record.Some? ==> MeasuresAt(readings, i, sid)
  }

  ghost predicate MeasuresAt(readings: seq<Reading>, i: nat, sid: SessionId)
    requires i < |readings| && readings[i].record.Some?
  {
    var r := readings[i].record.value;
    r.sessionId == sid && r.cumulative == readings[i].counts && Measures(readings[..i], readings[i].counts, r.delta)
  }

  /** The counts of a session's committed baseline. */
  ghost predicate IsBaseline(t: Tracker, sid: SessionId, counts: Payload) {
    sid in t.sessions && t.sessions[sid].input == counts.input && t.sessions[sid].output == counts.output
    && t.sessions[sid].cost == counts.cost
  }

  /** The tracker's state, read off the notifications. */
  ghost predicate Follows(t: Tracker, actions: seq<Action>, ledger: seq<Reading>, sid: SessionId) {
    && t.inFlight == InFlight(actions)
    && (t.pending.Some? <==> InFlight(actions).Some? && LastNotice(actions).Some?)
    && (t.pending.Some? ==>
          && t.pending.value.sessionId == InFlight(actions).value
          && t.pending.value.cumulative == LastNotice(actions).value)
    && (sid in t.sessions <==> ledger != [])
    && (ledger != [] ==> IsBaseline(t, sid, ledger[|ledger| - 1].counts))
    && (t.pending.Some? && t.pending.value.sessionId == sid ==>
          Measures(ledger, t.pending.value.cumulative, t.pending.value.delta))
  }

  lemma {:induction false} ResumePush(t: Trace, actions: seq<Action>, a: Action)
    ensures Resume(t, actions + [a]) == Step(Resume(t, actions), a)
    decreases |actions|
  {
    if |actions| > 0 {
      ResumePush(Step(t, actions[0]), actions[1..], a);
      assert (actions + [a])[1..] == actions[1..] + [a];
    } else {
      assert Resume(Step(t, a), []) == Step(t, a);
    }
  }

  lemma FollowsStep(init: seq<Action>, a: Action, sid: SessionId, ledger: seq<Reading>)
    requires Follows(Run(init).tracker, init, ledger, sid)
    ensures Follows(Step(Run(init), a).tracker, init + [a], ledger + ReadingOf(init, a, sid), sid)
  {
    hide Run;
    assert (init + [a])[..|init|] == init;
  }

  lemma {:induction false} RunFollows(actions: seq<Action>, sid: SessionId)
    ensures Follows(Run(actions).tracker, actions, Ledger(actions, sid), sid)
  {
    if |actions| > 0 {
      var init, a := actions[..|actions| - 1], actions[|actions| - 1];
      assert actions == init + [a];
      RunFollows(init, sid);
      FollowsStep(init, a, sid, Ledger(init, sid));
      ResumePush(FRESH, init, a);
    }
  }

  /**
   In every run taking a turn's record publishes exactly when the session in flight was notified in that
   turn, and then one record, for that session, whose cumulative counts, cost and model are those of its
   last notification. Nothing else publishes.
   */
  lemma PublishedIsLastNotice(actions: seq<Action>, a: Action)
    ensures var before, after := Run(actions).published, Run(actions + [a]).published;
      if a.TakeRecord? && InFlight(actions).Some? && LastNotice(actions).Some? then
        && |after| == |before| + 1 && after[..|before|] == before
        && after[|before|].sessionId == InFlight(actions).value
        && after[|before|].cumulative == LastNotice(actions).value
      else after == before
  {
    RunFollows(actions, "");
    ResumePush(FRESH, actions, a);
  }

  /**
   In every run, over the ledger of a session's readings as they were notified: each record published is
   reliable exactly when no counter fell since the reading before, and then its deltas are the
   differences; the first has nothing to measure from.
   */
  lemma {:induction false} DeltasTelescope(actions: seq<Action>, sid: SessionId)
    ensures Telescopes(Ledger(actions, sid), sid)
  {
    hide Run, Measures, Step;
    if |actions| > 0 {
      var init, a := actions[..|actions| - 1], actions[|actions| - 1];
      assert actions == init + [a];
      var before, all := Ledger(init, sid), Ledger(actions, sid);
      DeltasTelescope(init, sid);
      forall i | 0 <= i < |all| && all[i].record.Some? ensures MeasuresAt(all, i, sid) {
        if i < |before| {
          assert all[..i] == before[..i] && MeasuresAt(before, i, sid);
        } else {
          RunFollows(init, sid);
          TakenIsPending(init);
          assert all[..i] == before;
        }
      }
    }
  }

  lemma TakenIsPending(init: seq<Action>)
    ensures Run(init + [TakeRecord]).published
      == Run(init).published
         + if Run(init).tracker.pending.Some? then [Run(init).tracker.pending.value] else []
  {
    ResumePush(FRESH, init, TakeRecord);
  }

  /** What the deltas published after the first reading add up to; a missing delta adds nothing. */
  datatype Total = Total(input: nat, output: nat, cost: real)

  function Added(t: Total, d: Delta): Total {
    Total(
      t.input + if d.input.Some? then d.input.value else 0,
      t.output + if d.output.Some? then d.output.value else 0,
      t.cost + if d.cost.Some? then d.cost.value else 0.0)
  }

  function SumDeltas(readings: seq<Reading>): Total {
    if |readings| <= 1 then Total(0, 0, 0.0)
    else
      var before, r := SumDeltas(readings[..|readings| - 1]), readings[|readings| - 1].record;
      if r.Some? then Added(before, r.value.delta) else before
  }

  /** Every reading after the first was published with a reliable delta. */
  ghost predicate AllReliable(readings: seq<Reading>) {
    forall i :: 0 < i < |readings| ==> readings[i].record.Some? && readings[i].record.value.delta.reliable
  }

  /** Every reading has a cost. */
  ghost predicate AllCosted(readings: seq<Reading>) {
    forall i :: 0 <= i < |readings| ==> readings[i].counts.cost.Some?
  }

  /** Deltas of a stretch of reliable turns add up to its last counts minus its first. */
  lemma {:induction false} ReliableDeltasAddUp(readings: seq<Reading>, sid: SessionId)
    requires |readings| > 0 && AllReliable(readings)
    requires forall i :: 0 < i < |readings| ==> MeasuresAt(readings, i, sid)
    ensures var first, last, sum := readings[0].counts, readings[|readings| - 1].counts, SumDeltas(readings);
      && sum.input == last.input - first.input
      && sum.output == last.output - first.output
      && (AllCosted(readings) ==> sum.cost == last.cost.value - first.cost.value)
  {
    var n := |readings| - 1;
    if n > 0 {
      var init := readings[..n];
      forall i | 0 < i < n ensures MeasuresAt(init, i, sid) {
        assert init[..i] == readings[..i] && MeasuresAt(readings, i, sid);
      }
      ReliableDeltasAddUp(init, sid);
      assert MeasuresAt(readings, n, sid);
      if AllCosted(readings) {
        assert AllCosted(init);
      }
    }
  }

  /** So in every run, over any stretch of a session's committed readings whose deltas are reliable. */
  lemma PublishedDeltasAddUp(actions: seq<Action>, sid: SessionId, lo: nat, hi: nat)
    requires lo < hi <= |Ledger(actions, sid)|
    requires AllReliable(Ledger(actions, sid)[lo..hi])
    ensures var stretch := Ledger(actions, sid)[lo..hi];
      var first, last, sum := stretch[0].counts, stretch[|stretch| - 1].counts, SumDeltas(stretch);
      && sum.input == last.input - first.input
      && sum.output == last.output - first.output
      && (AllCosted(stretch) ==> sum.cost == last.cost.value - first.cost.value)
  {
    hide Ledger, SumDeltas, AllCosted, StepsFrom;
    DeltasTelescope(actions, sid);
    var all := Ledger(actions, sid);
    var stretch := all[lo..hi];
    forall i | 0 < i < |stretch| ensures MeasuresAt(stretch, i, sid) {
      assert stretch[i] == all[lo + i] && MeasuresAt(all, lo + i, sid);
      assert stretch[..i][i - 1] == all[..lo + i][lo + i - 1];
    }
    ReliableDeltasAddUp(stretch, sid);
  }

  // ---- Notifications that do not matter ----

  /** Whether a later notification of the same turn and session replaces one for `sid`. */
  predicate Superseded(rest: seq<Action>, sid: SessionId) {
    |rest| > 0 && rest[0].Notify? && (rest[0].sid == sid || Superseded(rest[1..], sid))
  }

  /** The actions without notifications that are for another session than the one in flight, or superseded. */
  function Condensed(actions: seq<Action>, inFlight: Option<SessionId>): seq<Action> {
    if |actions| == 0 then []
    else
      var a, rest := actions[0], actions[1..];
      match a
      case BeginTurn(sid) => [a] + Condensed(rest, Some(sid))
      case TakeRecord => [a] + Condensed(rest, None)
      case Notify(sid, p) =>
        if inFlight.Some? && (sid != inFlight.value || Superseded(rest, sid)) then Condensed(rest, inFlight)
        else [a] + Condensed(rest, inFlight)
  }

  /** Equal but for a pending record that is about to be replaced. */
  ghost predicate Alike(t: Trace, u: Trace, rest: seq<Action>) {
    && t.published == u.published
    && t.tracker.sessions == u.tracker.sessions && t.tracker.inFlight == u.tracker.inFlight
    && (t.tracker.pending == u.tracker.pending
        || (t.tracker.inFlight.Some? && Superseded(rest, t.tracker.inFlight.value)))
  }

  lemma {:induction false} CondensedRunsAlike(t: Trace, u: Trace, actions: seq<Action>)
    requires Alike(t, u, actions)
    ensures Resume(t, actions).published == Resume(u, Condensed(actions, t.tracker.inFlight)).published
    decreases |actions|
  {
    if |actions| > 0 {
      var a, rest := actions[0], actions[1..];
      var inFlight := t.tracker.inFlight;
      var condensed := Condensed(actions, inFlight);
      if a.Notify? && inFlight.Some? && (a.sid != inFlight.value || Superseded(rest, a.sid)) {
        assert Alike(Step(t, a), u, rest);
        CondensedRunsAlike(Step(t, a), u, rest);
      } else {
        assert condensed[0] == a && condensed[1..] == Condensed(rest, Step(t, a).tracker.inFlight);
        assert Alike(Step(t, a), Step(u, a), rest);
        CondensedRunsAlike(Step(t, a), Step(u, a), rest);
      }
    }
  }

  /**
   Deleting every in-turn notification but the last of its turn, and every one for a session other
   than the one in flight, changes no published record.
   */
  lemma OnlyTheLastNotificationCounts(actions: seq<Action>)
    ensures Run(Condensed(actions, None)).published == Run(actions).published
  {
    CondensedRunsAlike(FRESH, FRESH, actions);
  }
}
