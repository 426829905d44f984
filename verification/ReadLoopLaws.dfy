/** What every run of the prompt read loop keeps. */
module ReadLoopLaws {
  import opened Bytes
  import opened Seqs
  import opened ReadLoop

  // ---- Every steer request has exactly one outcome ----

  /** How many outcomes request `r` has among `replies`. */
  function Outcomes(replies: seq<Reply>, r: nat): nat {
    if |replies| == 0 then 0
    else Outcomes(replies[..|replies| - 1], r) + if replies[|replies| - 1].request == r then 1 else 0
  }

  function InFlight(s: State, r: nat): nat {
    if s.pending.Some? && s.pending.value.request == r then 1 else 0
  }

  function InChannel(s: State, r: nat): nat {
    if r in s.waiting then 1 else 0
  }

  /** How often request `r` occurs: answered, in flight, or waiting in the channel. */
  function Places(s: State, r: nat): nat {
    Outcomes(s.replies, r) + InFlight(s, r) + InChannel(s, r)
  }

  lemma OutcomesPush(replies: seq<Reply>, x: Reply, r: nat)
    ensures Outcomes(replies + [x], r) == Outcomes(replies, r) + if x.request == r then 1 else 0
  {
    assert (replies + [x])[..|replies|] == replies;
  }

  ghost predicate Inv(call: Call, s: State) {
    && |s.waiting| <= 1
    && (s.ended.Some? ==> s.pending == None && s.waiting == [])
    && call.expectedId < s.nextId
    && Increasing(s.steerIds)
    && (forall id :: id in s.steerIds ==> call.expectedId < id < s.nextId)
    && (s.pending.Some? ==> |s.steerIds| > 0 && s.pending.value.id == s.steerIds[|s.steerIds| - 1])
    && s.idleDeadline == s.lastActivity + call.idleTimeout
  }

  lemma EndPlaces(s: State, ended: Ended, last: Outcome, r: nat)
    requires |s.waiting| <= 1
    ensures Places(End(s, ended, last), r) == Places(s, r)
  {
    var answered := if s.pending.Some? then [Reply(s.pending.value.request, last)] else [];
    if s.pending.Some? {
      OutcomesPush(s.replies, answered[0], r);
    } else {
      assert s.replies + answered == s.replies;
    }
    var dropped := DroppedReplies(s.waiting);
    if |s.waiting| == 1 {
      assert dropped == [Reply(s.waiting[0], Dropped)];
      OutcomesPush(s.replies + answered, dropped[0], r);
    } else {
      assert s.replies + answered + dropped == s.replies + answered;
    }
  }

  /** Ending sets the end, answers what is left with `last` or by dropping, and touches no deadline. */
  lemma EndFacts()
    ensures forall t, ended, last :: EndedAs(t, End(t, ended, last), ended, last)
  {
    forall t, ended, last ensures EndedAs(t, End(t, ended, last), ended, last) {
    }
  }

  ghost predicate EndedAs(t: State, t': State, ended: Ended, last: Outcome) {
    && t'.ended == Some(ended) && t'.hardDeadline == t.hardDeadline && t'.storedDeadline == t.storedDeadline
    && t.replies <= t'.replies
    && forall i :: |t.replies| <= i < |t'.replies| ==> t'.replies[i].outcome == last || t'.replies[i].outcome == Dropped
  }

  lemma SteerPlaces(s: State, work: Work, r: nat)
    requires |s.waiting| <= 1
    ensures Places(SteerStep(s, work), r) == Places(s, r)
  {
    hide End;
    if s.pending.None? && |s.waiting| == 1 {
      OutcomesPush(s.replies, Reply(s.waiting[0], Acked(ExpectedRunIdMissing)), r);
      OutcomesPush(s.replies, Reply(s.waiting[0], Acked(Transport)), r);
      OutcomesPush(s.replies, Reply(s.waiting[0], Dropped), r);
      var gone := s.(waiting := s.waiting[1..], nextId := s.nextId + 1, steerIds := s.steerIds + [s.nextId],
                     replies := s.replies + [Reply(s.waiting[0], Dropped)]);
      EndPlaces(gone, Abandoned, Dropped, r);
    }
  }

  lemma MessagePlaces(call: Call, s: State, m: Message, at: int, renewAt: int, again: int, r: nat)
    requires |s.waiting| <= 1
    ensures Places(MessageStep(call, s, m, at, renewAt, again), r) == Places(s, r)
  {
    hide End;
    var s' := Touched(call, s, at);
    if AnswersSteer(s', m) {
      OutcomesPush(s.replies, Reply(s.pending.value.request, Acked(Success)), r);
      if m.errorCode.Some? {
        OutcomesPush(s.replies, Reply(s.pending.value.request, Acked(AgentError(m.errorCode.value))), r);
      }
    } else {
      EndPlaces(s', Failed(PromptFailed), Acked(PromptCompletedNeutral), r);
      EndPlaces(s', Response, Acked(PromptCompletedNeutral), r);
      EndPlaces(s', Failed(HandlerFailed), Dropped, r);
      EndPlaces(s', Abandoned, Dropped, r);
    }
  }

  lemma SteerKeeps(call: Call, s: State, work: Work)
    requires Inv(call, s) && s.ended.None?
    ensures Inv(call, SteerStep(s, work))
  {
    hide DroppedReplies, Increasing;
    NewestIsGreatest(s.steerIds, s.nextId);
    var ids := s.steerIds + [s.nextId];
    assert ids[|ids| - 1] == s.nextId;
    assert forall id :: id in ids <==> id in s.steerIds || id == s.nextId;
  }

  lemma NewestIsGreatest(ids: seq<nat>, id: nat)
    requires Increasing(ids) && forall x :: x in ids ==> x < id
    ensures Increasing(ids + [id])
  {
    assert forall i :: 0 <= i < |ids| ==> ids[i] in ids;
  }

  lemma MessageKeeps(call: Call, s: State, m: Message, at: int, renewAt: int, again: int)
    requires Inv(call, s) && s.ended.None?
    ensures Inv(call, MessageStep(call, s, m, at, renewAt, again))
  {
    hide DroppedReplies;
  }

  lemma StepKeeps(call: Call, s: State, a: Action)
    requires Inv(call, s)
    ensures Inv(call, Step(call, s, a))
  {
    hide DroppedReplies, SteerStep, MessageStep;
    if a.Iterate? && s.ended.None? {
      match a.selected {
        case GotLine(Json(m), at, renewAt, again) => MessageKeeps(call, s, m, at, renewAt, again);
        case SteerArm(work) => SteerKeeps(call, s, work);
        case _ =>
      }
    }
  }

  /** An offer that was accepted puts the new request in one place; no other step moves the count of any. */
  lemma StepPlaces(call: Call, s: State, a: Action, r: nat)
    requires Inv(call, s)
    ensures var s' := Step(call, s, a);
      && s.offered <= s'.offered <= s.offered + 1
      && Places(s', r) == Places(s, r) + if s.offered <= r < s'.offered then 1 else 0
  {
    hide Inv, End, SteerStep, MessageStep, Places;
    assert |s.waiting| <= 1 by { WaitingFits(call, s); }
    if s.ended.None? {
      match a
      case Offer => if s.waiting == [] { OfferPlaces(s, r); }
      case Iterate(top, selected) =>
        match selected {
          case GotLine(Json(m), at, renewAt, again) =>
            MessagePlaces(call, s, m, at, renewAt, again, r);
            MessageOffered(call, s, m, at, renewAt, again);
          case SteerArm(work) =>
            SteerPlaces(s, work, r);
            SteerOffered(s, work);
          case _ =>
        }
        ReturnPlaces(s, r);
      case Abandon => ReturnPlaces(s, r);
    }
  }

  lemma WaitingFits(call: Call, s: State)
    requires Inv(call, s)
    ensures |s.waiting| <= 1
  {
  }

  lemma OfferPlaces(s: State, r: nat)
    requires |s.waiting| == 0
    ensures Places(s.(waiting := [s.offered], offered := s.offered + 1), r)
         == Places(s, r) + if r == s.offered then 1 else 0
  {
  }

  lemma MessageOffered(call: Call, s: State, m: Message, at: int, renewAt: int, again: int)
    ensures MessageStep(call, s, m, at, renewAt, again).offered == s.offered
  {
  }

  lemma SteerOffered(s: State, work: Work)
    ensures SteerStep(s, work).offered == s.offered
  {
  }

  lemma ReturnPlaces(s: State, r: nat)
    requires |s.waiting| <= 1
    ensures forall ended :: Places(Drain(s, ended), r) == Places(s, r) && Drain(s, ended).offered == s.offered
    ensures Places(Severed(s, Abandoned), r) == Places(s, r) && Severed(s, Abandoned).offered == s.offered
  {
    forall ended ensures Places(Drain(s, ended), r) == Places(s, r) {
      EndPlaces(s, ended, Acked(PromptCompletedNeutral), r);
    }
    EndPlaces(s, Abandoned, Dropped, r);
  }

  lemma {:induction false} RunPlaces(call: Call, s: State, actions: seq<Action>, r: nat)
    requires Inv(call, s) && Places(s, r) == if r < s.offered then 1 else 0
    ensures var s' := Run(call, s, actions); Places(s', r) == if r < s'.offered then 1 else 0
  {
    hide Inv, Places, Step;
    if |actions| > 0 {
      var init, a := actions[..|actions| - 1], actions[|actions| - 1];
      RunPlaces(call, s, init, r);
      RunKeeps(call, s, init);
      StepPlaces(call, Run(call, s, init), a, r);
    }
  }

  /** The state a prompt's loop starts in: its request, issued with an id and a deadline, has been written. */
  function PromptStart(call: Call, run: Option<nat>, issued: int, now: int): State {
    var hard := issued + call.maxDuration;
    Start(call, call.expectedId + 1, true, run, now, hard, Some(hard))
  }

  lemma {:induction false} RunKeeps(call: Call, s: State, actions: seq<Action>)
    requires Inv(call, s)
    ensures Inv(call, Run(call, s, actions))
  {
    if |actions| > 0 {
      RunKeeps(call, s, actions[..|actions| - 1]);
      StepKeeps(call, Run(call, s, actions[..|actions| - 1]), actions[|actions| - 1]);
    }
  }

  lemma StartInv(call: Call, run: Option<nat>, issued: int, now: int)
    ensures Inv(call, PromptStart(call, run, issued, now))
  {
  }

  /** At any moment an accepted request is answered, in flight or waiting, in exactly one of the three, once. */
  lemma EveryRequestIsInOnePlace(call: Call, run: Option<nat>, issued: int, now: int, actions: seq<Action>, r: nat)
    ensures var s := Run(call, PromptStart(call, run, issued, now), actions);
      Outcomes(s.replies, r) + InFlight(s, r) + InChannel(s, r) == if r < s.offered then 1 else 0
  {
    StartInv(call, run, issued, now);
    RunPlaces(call, PromptStart(call, run, issued, now), actions, r);
  }

  /** Once the loop has returned, every request it accepted has exactly one outcome, and nothing else has any. */
  lemma EveryRequestHasOneOutcome(call: Call, run: Option<nat>, issued: int, now: int, actions: seq<Action>, r: nat)
    requires Run(call, PromptStart(call, run, issued, now), actions).ended.Some?
    ensures var s := Run(call, PromptStart(call, run, issued, now), actions);
      Outcomes(s.replies, r) == if r < s.offered then 1 else 0
  {
    StartInv(call, run, issued, now);
    RunKeeps(call, PromptStart(call, run, issued, now), actions);
    EveryRequestIsInOnePlace(call, run, issued, now, actions, r);
  }

  // ---- What becomes of the steer in flight ----

  predicate BeforeDeadlines(s: State, at: int) {
    at < s.idleDeadline && at < s.hardDeadline
  }

  /** An iteration that begins in time takes a line of valid JSON. */
  predicate IsAccepted(s: State, a: Action) {
    a.Iterate? && BeforeDeadlines(s, a.top) && a.selected.GotLine? && a.selected.line.Json?
  }

  /** A response, and not a request or a notification, that carries this id. */
  predicate AnswersId(m: Message, id: nat) {
    m.rpc == NoMethod && m.id == Some(Num(id))
  }

  /** An iteration that begins in time takes a waiting steer request, none being in flight. */
  predicate TakesSteer(s: State, a: Action) {
    a.Iterate? && BeforeDeadlines(s, a.top) && a.selected.SteerArm? && s.pending.None? && s.waiting != []
  }

  /** Handling the line came as far as `work` with a request of the agent's. */
  predicate HandledUpTo(s: State, a: Action, work: Work) {
    IsAccepted(s, a)
    && var m := a.selected.line.message;
       m.rpc == RequestPermission(work) || (m.rpc == UnknownMethod(work) && m.id.Some?)
  }

  /** The caller drops the loop's future, between iterations or while the loop writes to the agent. */
  predicate Abandons(s: State, a: Action) {
    || a == Abandon
    || HandledUpTo(s, a, Interrupted)
    || (TakesSteer(s, a) && a.selected.work == Interrupted && s.activeRun.Some?)
  }

  /** The loop is cut off: abandoned, or a request of the agent's cannot be answered. */
  predicate Cuts(s: State, a: Action) {
    Abandons(s, a) || HandledUpTo(s, a, Erred)
  }

  predicate ReachesDeadline(s: State, a: Action) {
    a.Iterate?
    && (!BeforeDeadlines(s, a.top) || (a.selected.DeadlineArm? && !BeforeDeadlines(s, a.selected.at)))
  }

  /** What ends the loop in order: a deadline, the end or a failure of the stream, or the prompt's response. */
  predicate Closes(call: Call, s: State, a: Action) {
    || ReachesDeadline(s, a)
    || (a.Iterate? && (a.selected.EndOfStream? || a.selected.LineTooLong? || a.selected.ReadError?))
    || (IsAccepted(s, a) && AnswersId(a.selected.line.message, call.expectedId))
  }

  /** The agent's answer to the steer in flight. */
  predicate Answers(s: State, a: Action) {
    IsAccepted(s, a) && s.pending.Some? && AnswersId(a.selected.line.message, s.pending.value.id)
  }

  /** The outcomes request `r` gains in a step. */
  ghost predicate Gains(s: State, s': State, r: nat, o: Outcome) {
    Reply(r, o) in s'.replies && Reply(r, o) !in s.replies
  }

  /** What only the agent can answer. */
  predicate IsVerdict(ack: SteerAck) {
    ack == Success || ack.AgentError?
  }

  /**
   In every reachable state the next event alone decides the fate of the steer in flight: its sender
   is dropped exactly when the event cuts the loop off, it is told that the prompt completed exactly
   when the event closes the loop in order, it gets the agent's verdict exactly when that arrives,
   and otherwise it stays in flight.
   */
  lemma PendingFateIff(call: Call, run: Option<nat>, issued: int, now: int, actions: seq<Action>, a: Action)
    requires var s := Run(call, PromptStart(call, run, issued, now), actions); s.ended.None? && s.pending.Some?
    ensures var s := Run(call, PromptStart(call, run, issued, now), actions); var s' := Step(call, s, a);
      var r := s.pending.value.request;
      && (Gains(s, s', r, Dropped) <==> Cuts(s, a))
      && (Gains(s, s', r, Acked(PromptCompletedNeutral)) <==> Closes(call, s, a))
      && ((exists ack :: IsVerdict(ack) && Gains(s, s', r, Acked(ack))) <==> Answers(s, a))
      && (s'.pending == s.pending <==> !Cuts(s, a) && !Closes(call, s, a) && !Answers(s, a))
      && (s'.ended.Some? <==> Cuts(s, a) || Closes(call, s, a))
  {
    hide Run;
    var start := PromptStart(call, run, issued, now);
    var s := Run(call, start, actions);
    var r := s.pending.value.request;
    StartInv(call, run, issued, now);
    RunKeeps(call, start, actions);
    EveryRequestIsInOnePlace(call, run, issued, now, actions, r);
    PendingIsUnanswered(s, r);
    assert s.pending.value.id in s.steerIds;
    PendingFate(call, s, a);
  }

  /** A request in flight has no outcome yet. */
  lemma PendingIsUnanswered(s: State, r: nat)
    requires Outcomes(s.replies, r) == 0
    ensures forall o :: Reply(r, o) !in s.replies
  {
    forall o ensures Reply(r, o) !in s.replies {
      if Reply(r, o) in s.replies {
        var k :| 0 <= k < |s.replies| && s.replies[k] == Reply(r, o);
        OutcomeCounts(s.replies, k);
      }
    }
  }

  lemma {:induction false} OutcomeCounts(replies: seq<Reply>, k: nat)
    requires k < |replies|
    ensures Outcomes(replies, replies[k].request) >= 1
  {
    if k < |replies| - 1 {
      assert replies[..|replies| - 1][k] == replies[k];
      OutcomeCounts(replies[..|replies| - 1], k);
    }
  }

  lemma PendingFate(call: Call, s: State, a: Action)
    requires s.ended.None? && s.pending.Some? && s.pending.value.id != call.expectedId
    requires forall o :: Reply(s.pending.value.request, o) !in s.replies
    requires s.pending.value.request !in s.waiting
    ensures var s' := Step(call, s, a); var r := s.pending.value.request;
      && (Gains(s, s', r, Dropped) <==> Cuts(s, a))
      && (Gains(s, s', r, Acked(PromptCompletedNeutral)) <==> Closes(call, s, a))
      && ((exists ack :: IsVerdict(ack) && Gains(s, s', r, Acked(ack))) <==> Answers(s, a))
      && (s'.pending == s.pending <==> !Cuts(s, a) && !Closes(call, s, a) && !Answers(s, a))
      && (s'.ended.Some? <==> Cuts(s, a) || Closes(call, s, a))
  {
    hide End, DroppedReplies, Gains;
    var s' := Step(call, s, a);
    var t := if a.Iterate? && a.selected.GotLine? then Touched(call, s, a.selected.at) else s;
    EndGains(s, s);
    EndGains(s, t);
    NothingGained(s, s');
    if Cuts(s, a) {
      assert exists ended :: s' == End(s, ended, Dropped) || s' == End(t, ended, Dropped);
    } else if Closes(call, s, a) {
      assert exists ended ::
          s' == End(s, ended, Acked(PromptCompletedNeutral)) || s' == End(t, ended, Acked(PromptCompletedNeutral));
    } else if Answers(s, a) {
      var code := a.selected.line.message.errorCode;
      var ack := if code.Some? then AgentError(code.value) else Success;
      OneGained(s, s', Acked(ack));
      assert IsVerdict(ack) && Gains(s, s', s.pending.value.request, Acked(ack));
    } else {
      assert s'.replies == s.replies;
    }
  }

  lemma EndGains(s: State, t: State)
    requires s.pending.Some? && s.pending.value.request !in s.waiting
    requires t.pending == s.pending && t.replies == s.replies && t.waiting == s.waiting
    requires forall o :: Reply(s.pending.value.request, o) !in s.replies
    ensures forall ended, last, o :: Gains(s, End(t, ended, last), s.pending.value.request, o) <==> o == last
    ensures forall ended, last :: End(t, ended, last).pending.None? && End(t, ended, last).ended == Some(ended)
  {
    var r := s.pending.value.request;
    forall ended, last, o ensures Gains(s, End(t, ended, last), r, o) <==> o == last {
      var t' := End(t, ended, last);
      assert t'.replies == s.replies + [Reply(r, last)] + DroppedReplies(s.waiting);
      assert t'.replies[|s.replies|] == Reply(r, last);
    }
  }

  lemma NothingGained(s: State, s': State)
    requires s.pending.Some? && forall o :: Reply(s.pending.value.request, o) !in s.replies
    ensures s'.replies == s.replies ==> forall o :: !Gains(s, s', s.pending.value.request, o)
  {
  }

  lemma OneGained(s: State, s': State, o: Outcome)
    requires s.pending.Some? && forall x :: Reply(s.pending.value.request, x) !in s.replies
    requires s'.replies == s.replies + [Reply(s.pending.value.request, o)]
    ensures forall x :: Gains(s, s', s.pending.value.request, x) <==> x == o
  {
  }

  /**
   Both ways to lose the sender happen: a permission request that cannot be answered, and a control
   signal that makes the caller drop the loop, each with a steer written and not yet answered.
   */
  lemma PendingCanBeDropped(call: Call, goose: nat, now: int, m: Message, at: int)
    requires call.idleTimeout > 0 && call.maxDuration > 0
    requires m.rpc == RequestPermission(Erred)
    ensures var s := PromptStart(call, Some(goose), now, now);
      var steered := [Offer, Iterate(now, SteerArm(Done))];
      var refused := Run(call, s, steered + [Iterate(now, GotLine(Json(m), at, at, at))]);
      var abandoned := Run(call, s, steered + [Abandon]);
      && refused.ended == Some(Failed(HandlerFailed)) && refused.replies == [Reply(0, Dropped)]
      && abandoned.ended == Some(Abandoned) && abandoned.replies == [Reply(0, Dropped)]
  {
    var s := PromptStart(call, Some(goose), now, now);
    var offered, steered := [Offer], [Offer, Iterate(now, SteerArm(Done))];
    assert offered == [] + [Offer] && steered == offered + [Iterate(now, SteerArm(Done))];
    RunThen(call, s, [], Offer);
    RunThen(call, s, offered, Iterate(now, SteerArm(Done)));
    RunThen(call, s, steered, Iterate(now, GotLine(Json(m), at, at, at)));
    RunThen(call, s, steered, Abandon);
  }

  // ---- Ids ----

  /**
   Steer ids and the prompt's id are all different, in every run: so one response can never be both
   a steer's and the prompt's, and each written steer has an id of its own.
   */
  lemma IdsAreFresh(call: Call, run: Option<nat>, issued: int, now: int, actions: seq<Action>, m: Message)
    ensures var s := Run(call, PromptStart(call, run, issued, now), actions);
      && Increasing(s.steerIds) && call.expectedId !in s.steerIds
      && (s.pending.Some? ==> s.pending.value.id in s.steerIds)
      && !(s.pending.Some? && AnswersId(m, s.pending.value.id) && AnswersId(m, call.expectedId))
  {
    StartInv(call, run, issued, now);
    RunKeeps(call, PromptStart(call, run, issued, now), actions);
  }

  /**
   A request is acknowledged as delivered, or as refused by the agent, only by a response carrying the
   id its own steer was written under: success exactly when that response has no error, else its code.
   */
  lemma AgentAcksComeFromOwnResponse(
    call: Call, run: Option<nat>, issued: int, now: int, actions: seq<Action>, a: Action, r: nat, ack: SteerAck)
    requires IsVerdict(ack)
    requires var s := Run(call, PromptStart(call, run, issued, now), actions);
      Step(call, s, a).replies == s.replies + [Reply(r, Acked(ack))]
    ensures a.Iterate? && a.selected.GotLine? && a.selected.line.Json?
    ensures var s := Run(call, PromptStart(call, run, issued, now), actions); var m := a.selected.line.message;
      && IsResponse(m) && s.pending.Some? && s.pending.value.request == r
      && |s.steerIds| > 0 && m.id == Some(Num(s.steerIds[|s.steerIds| - 1]))
      && ack == (if m.errorCode.Some? then AgentError(m.errorCode.value) else Success)
  {
    hide Run;
    StartInv(call, run, issued, now);
    RunKeeps(call, PromptStart(call, run, issued, now), actions);
    AckComesFromResponse(call, Run(call, PromptStart(call, run, issued, now), actions), a, r, ack);
  }

  lemma AckComesFromResponse(call: Call, s: State, a: Action, r: nat, ack: SteerAck)
    requires Inv(call, s) && IsVerdict(ack)
    requires Step(call, s, a).replies == s.replies + [Reply(r, Acked(ack))]
    ensures a.Iterate? && a.selected.GotLine? && a.selected.line.Json?
    ensures var m := a.selected.line.message;
      && IsResponse(m) && s.pending.Some? && s.pending.value.request == r
      && m.id == Some(Num(s.steerIds[|s.steerIds| - 1]))
      && ack == (if m.errorCode.Some? then AgentError(m.errorCode.value) else Success)
  {
    hide End;
    EndFacts();
    var s' := Step(call, s, a);
    assert s'.replies[|s.replies|] == Reply(r, Acked(ack));
  }

  /** In every run a late second answer to an old steer only counts as activity. */
  lemma StaleSteerAnswerIsIgnored(
    call: Call, run: Option<nat>, issued: int, now: int, actions: seq<Action>,
    m: Message, at: int, renewAt: int, again: int)
    requires var s := Run(call, PromptStart(call, run, issued, now), actions);
      && s.ended.None? && IsResponse(m) && m.id.value.Num? && m.id.value.n in s.steerIds
      && (s.pending.None? || s.pending.value.id != m.id.value.n)
    ensures var s := Run(call, PromptStart(call, run, issued, now), actions);
      MessageStep(call, s, m, at, renewAt, again) == Touched(call, s, at)
  {
    hide Run;
    StartInv(call, run, issued, now);
    RunKeeps(call, PromptStart(call, run, issued, now), actions);
  }

  // ---- Deadlines ----

  /** The action was taken by a loop still running and before its earlier deadline. */
  predicate Accepted(s: State, a: Action) {
    s.ended.None? && a.Iterate? && BeforeDeadlines(s, a.top)
  }

  /** When an accepted action carried a line of valid JSON: the time the line counted as activity. */
  function ActivityOf(a: Action): Option<int> {
    if a.Iterate? && a.selected.GotLine? && a.selected.line.Json? then
      Some(if a.selected.line.message.rpc == SessionUpdate(ToolCall) then a.selected.again else a.selected.at)
    else None
  }

  /** The latest accepted activity of a run, or its start. */
  function LatestActivity(call: Call, s: State, actions: seq<Action>): int {
    if |actions| == 0 then s.lastActivity
    else
      var init, a := actions[..|actions| - 1], actions[|actions| - 1];
      if Accepted(Run(call, s, init), a) && ActivityOf(a).Some? then ActivityOf(a).value
      else LatestActivity(call, s, init)
  }

  lemma StepActivity(call: Call, s: State, a: Action)
    ensures Step(call, s, a).lastActivity
      == if Accepted(s, a) && ActivityOf(a).Some? then ActivityOf(a).value else s.lastActivity
  {
    hide DroppedReplies;
  }

  /** In every run the idle deadline is the latest line of valid JSON plus the idle timeout. */
  lemma {:induction false} IdleDeadlineFollowsActivity(call: Call, s: State, actions: seq<Action>)
    requires Inv(call, s)
    ensures Run(call, s, actions).idleDeadline == LatestActivity(call, s, actions) + call.idleTimeout
  {
    RunKeeps(call, s, actions);
    LatestActivityIsKept(call, s, actions);
  }

  lemma {:induction false} LatestActivityIsKept(call: Call, s: State, actions: seq<Action>)
    ensures Run(call, s, actions).lastActivity == LatestActivity(call, s, actions)
  {
    if |actions| > 0 {
      LatestActivityIsKept(call, s, actions[..|actions| - 1]);
      StepActivity(call, Run(call, s, actions[..|actions| - 1]), actions[|actions| - 1]);
    }
  }

  /**
   An iteration that begins an idle timeout or more after the latest activity, or at the hard
   deadline, takes nothing: the loop is over, by whichever deadline was the earlier.
   */
  lemma SilenceEndsTheLoop(call: Call, s: State, actions: seq<Action>, a: Action)
    requires Inv(call, s) && a.Iterate? && Run(call, s, actions).ended.None?
    ensures var before := Run(call, s, actions); var after := Run(call, s, actions + [a]);
      var idle := LatestActivity(call, s, actions) + call.idleTimeout;
      && (a.top >= idle || a.top >= before.hardDeadline ==>
            && after.ended == Some(Failed(if idle < before.hardDeadline then IdleTimeout else HardTimeout))
            && LatestActivity(call, s, actions + [a]) == LatestActivity(call, s, actions)
            && after.nextId == before.nextId && after.hardDeadline == before.hardDeadline)
      && (after.ended == Some(Failed(IdleTimeout)) ==>
            idle < before.hardDeadline && (a.top >= idle || (a.selected.DeadlineArm? && a.selected.at >= idle)))
  {
    hide Run, Step, LatestActivity, Inv, DroppedReplies;
    IdleDeadlineFollowsActivity(call, s, actions);
    LatestActivityIsKept(call, s, actions);
    LatestActivityIsKept(call, s, actions + [a]);
    RunThen(call, s, actions, a);
    StepAtDeadline(call, Run(call, s, actions), a);
  }

  lemma RunThen(call: Call, s: State, actions: seq<Action>, a: Action)
    ensures Run(call, s, actions + [a]) == Step(call, Run(call, s, actions), a)
  {
    assert (actions + [a])[..|actions|] == actions;
  }

  lemma StepAtDeadline(call: Call, s: State, a: Action)
    requires a.Iterate? && s.ended.None?
    ensures var s' := Step(call, s, a);
      && (a.top >= NextDeadline(s) ==> s' == TimedOut(s))
      && (s'.ended == Some(Failed(IdleTimeout)) ==>
            s.idleDeadline < s.hardDeadline
            && (a.top >= s.idleDeadline || (a.selected.DeadlineArm? && a.selected.at >= s.idleDeadline)))
  {
    hide DroppedReplies;
  }

  predicate IsSuccess(r: Reply) {
    r.outcome == Acked(Success)
  }

  /** What one step may do to the hard deadline. */
  ghost predicate HardDeadlineStep(call: Call, s: State, a: Action, s': State) {
    && s'.hardDeadline >= s.hardDeadline
    && s.replies <= s'.replies
    && (s'.hardDeadline != s.hardDeadline ==>
          && a.Iterate? && a.selected.GotLine? && s.pending.Some?
          && s'.hardDeadline == a.selected.renewAt + call.maxDuration
          && s'.replies == s.replies + [Reply(s.pending.value.request, Acked(Success))])
    && (s.storedDeadline == Some(s.hardDeadline) ==> s'.storedDeadline == Some(s'.hardDeadline))
  }

  lemma SelectHardDeadline(call: Call, s: State, a: Action)
    requires a.Iterate?
    ensures HardDeadlineStep(call, s, a, SelectStep(call, s, a.selected))
  {
    hide End;
    EndFacts();
  }

  /** The hard deadline never moves back, and moves at all only with a successful steer, to its renewal time. */
  lemma StepHardDeadline(call: Call, s: State, a: Action)
    ensures HardDeadlineStep(call, s, a, Step(call, s, a))
    ensures s.ended.Some? ==> Step(call, s, a) == s
    ensures a.Iterate? && Step(call, s, a).ended.None? ==> a.top < s.hardDeadline
  {
    hide DroppedReplies, SelectStep;
    if a.Iterate? {
      SelectHardDeadline(call, s, a);
    }
  }

  lemma {:induction false} RunHardDeadline(call: Call, s: State, actions: seq<Action>)
    ensures var s' := Run(call, s, actions);
      && s'.hardDeadline >= s.hardDeadline && s.replies <= s'.replies
      && (s.storedDeadline == Some(s.hardDeadline) ==> s'.storedDeadline == Some(s'.hardDeadline))
      && ((forall r :: r in s'.replies ==> !IsSuccess(r)) ==> s'.hardDeadline == s.hardDeadline)
  {
    hide Step;
    if |actions| > 0 {
      var init, a := actions[..|actions| - 1], actions[|actions| - 1];
      var before := Run(call, s, init);
      RunHardDeadline(call, s, init);
      StepHardDeadline(call, before, a);
      var s' := Run(call, s, actions);
      if forall r :: r in s'.replies ==> !IsSuccess(r) {
        forall r | r in before.replies ensures !IsSuccess(r) {
          assert r in s'.replies;
        }
        if s'.hardDeadline != before.hardDeadline {
          assert s'.replies[|before.replies|] in s'.replies;
        }
      }
    }
  }

  /** While the loop runs, every iteration so far began before the present hard deadline. */
  lemma {:induction false} IterationsBeginBeforeHardDeadline(call: Call, s: State, actions: seq<Action>, k: nat)
    requires k < |actions| && actions[k].Iterate? && Run(call, s, actions).ended.None?
    ensures actions[k].top < Run(call, s, actions).hardDeadline
  {
    hide Step;
    var init, a := actions[..|actions| - 1], actions[|actions| - 1];
    StepHardDeadline(call, Run(call, s, init), a);
    if k < |init| {
      assert init[k] == actions[k];
      IterationsBeginBeforeHardDeadline(call, s, init, k);
    }
  }

  /** However dense the agent's output, without a successful steer the loop is over at its original deadline. */
  lemma GaplessStreamCannotPostpone(call: Call, run: Option<nat>, issued: int, now: int, actions: seq<Action>, k: nat)
    requires k < |actions| && actions[k].Iterate? && actions[k].top >= issued + call.maxDuration
    requires forall r :: r in Run(call, PromptStart(call, run, issued, now), actions).replies ==> !IsSuccess(r)
    ensures Run(call, PromptStart(call, run, issued, now), actions).ended.Some?
  {
    var s := PromptStart(call, run, issued, now);
    RunHardDeadline(call, s, actions);
    if Run(call, s, actions).ended.None? {
      IterationsBeginBeforeHardDeadline(call, s, actions, k);
    }
  }

  // ---- After the prompt ----

  const CLEANUP_GRACE: int := 30_000

  /** What the client remembers of a prompt; `steerable` while the steer channel has not been taken out. */
  datatype Client = Client(lastPromptId: Option<nat>, storedDeadline: Option<int>, steerable: bool)

  /** A prompt issued at one time: writing its request came as far as `sent`, and its loop then ran over `actions`. */
  datatype Prompt = Prompt(call: Call, run: Option<nat>, issued: int, start: int, sent: Work, actions: seq<Action>)

  function LoopOf(p: Prompt): State {
    Run(p.call, PromptStart(p.call, p.run, p.issued, p.start), p.actions)
  }

  /** The prompt call has returned or its future has been dropped. */
  predicate IsOver(p: Prompt) {
    p.sent == Done ==> LoopOf(p).ended.Some?
  }

  /** `session_prompt_blocks_with_idle_timeout`, seen from after it. */
  function AfterPrompt(p: Prompt): Client {
    match p.sent
    case Erred => Client(None, None, true)
    case Interrupted => Client(Some(p.call.expectedId), Some(p.issued + p.call.maxDuration), true)
    case Done =>
      var s := LoopOf(p);
      match s.ended
      case Some(Abandoned) => Client(Some(p.call.expectedId), s.storedDeadline, false)
      case Some(Failed(IdleTimeout)) => Client(Some(p.call.expectedId), s.storedDeadline, false)
      case Some(Failed(HardTimeout)) => Client(Some(p.call.expectedId), s.storedDeadline, false)
      case _ => Client(None, None, false)
  }

  /** After a timeout the drain inherits the prompt's deadline; on a control signal it gets a short grace. */
  datatype Manner = OnTimeout | OnControl(grace: int)

  function CleanupDeadline(c: Client, manner: Manner, now: int): int {
    match manner
    case OnControl(grace) => now + grace
    case OnTimeout =>
      if c.storedDeadline.Some? && c.storedDeadline.value > now + CLEANUP_GRACE then c.storedDeadline.value
      else now + CLEANUP_GRACE
  }

  /** Refused without an unfinished prompt; else the cancellation is written, and on success the drain loop runs. */
  datatype Cancelled = Refused | NotWritten | Draining(call: Call, state: State)

  /** `cancel_with_cleanup` and `cancel_with_cleanup_grace`, called at `now`, with the drain starting at `later`. */
  function Cancel(
    c: Client, manner: Manner, nextId: nat, run: Option<nat>, now: int, work: Work, later: int): Cancelled
  {
    if c.lastPromptId.None? then Refused
    else if work != Done then NotWritten
    else
      var deadline := CleanupDeadline(c, manner, now);
      var call := Call(c.lastPromptId.value, CLEANUP_GRACE, if deadline > later then deadline - later else 0);
      Draining(call, Start(call, nextId, c.steerable, run, later, deadline, None))
  }

  /**
   A prompt can be cancelled exactly when writing its request was interrupted, or the event that ended
   its loop was a deadline or the caller abandoning it; not after a response, an exit or an error.
   */
  lemma CancellableIff(p: Prompt, manner: Manner, nextId: nat, run: Option<nat>, now: int, later: int)
    requires p.sent == Done ==>
      |p.actions| > 0 && LoopOf(p).ended.Some? && LoopOf(p.(actions := p.actions[..|p.actions| - 1])).ended.None?
    ensures Cancel(AfterPrompt(p), manner, nextId, run, now, Done, later) != Refused
      <==> p.sent == Interrupted
           || (p.sent == Done
               && var before, last := LoopOf(p.(actions := p.actions[..|p.actions| - 1])), p.actions[|p.actions| - 1];
                  ReachesDeadline(before, last) || Abandons(before, last))
  {
    hide Run;
    if p.sent == Done {
      var n := |p.actions| - 1;
      var before := LoopOf(p.(actions := p.actions[..n]));
      assert p.actions == p.actions[..n] + [p.actions[n]];
      RunThen(p.call, PromptStart(p.call, p.run, p.issued, p.start), p.actions[..n], p.actions[n]);
      WhyEnded(p.call, before, p.actions[n]);
    }
  }

  lemma WhyEnded(call: Call, s: State, a: Action)
    requires s.ended.None?
    ensures var ended := Step(call, s, a).ended;
      && (ended == Some(Abandoned) <==> Abandons(s, a))
      && (ended == Some(Failed(IdleTimeout)) || ended == Some(Failed(HardTimeout)) <==> ReachesDeadline(s, a))
  {
    hide End;
    EndFacts();
  }

  /**
   The drain after a timeout ends at the deadline the prompt had last, whatever steering made of it,
   or after 30 seconds when that is later; the drain after an abandoned loop ends when its grace is
   over. No output moves either deadline, and no steer is taken.
   */
  lemma CleanupIsBounded(
    p: Prompt, manner: Manner, nextId: nat, run: Option<nat>, now: int, later: int, drain: seq<Action>, k: nat)
    requires IsOver(p)
    requires var cancel := Cancel(AfterPrompt(p), manner, nextId, run, now, Done, later);
      cancel.Draining? && !cancel.state.hasReceiver
    ensures var cancel := Cancel(AfterPrompt(p), manner, nextId, run, now, Done, later);
      var drained := Run(cancel.call, cancel.state, drain);
      var inherited := LoopOf(p).hardDeadline;
      && p.sent == Done
      && cancel.call.expectedId == p.call.expectedId && cancel.call.idleTimeout == 30_000
      && cancel.state.idleDeadline == later + 30_000 && cancel.state.nextId == nextId
      && drained.hardDeadline == (match manner
                                  case OnControl(grace) => now + grace
                                  case OnTimeout =>
                                    if inherited > now + 30_000 then inherited else now + 30_000)
      && drained.replies == []
      && (k < |drain| && drain[k].Iterate? && drain[k].top >= drained.hardDeadline ==> drained.ended.Some?)
  {
    hide Run;
    var cancel := Cancel(AfterPrompt(p), manner, nextId, run, now, Done, later);
    RunHardDeadline(p.call, PromptStart(p.call, p.run, p.issued, p.start), p.actions);
    NoReceiverNoReplies(cancel.call, cancel.state, drain);
    RunHardDeadline(cancel.call, cancel.state, drain);
    if k < |drain| && drain[k].Iterate? && Run(cancel.call, cancel.state, drain).ended.None? {
      IterationsBeginBeforeHardDeadline(cancel.call, cancel.state, drain, k);
    }
  }

  /**
   Not so when the control signal comes while the prompt's own request is being written: the steer
   channel is still installed, the drain takes it, and a steer answered during the drain moves its
   deadline past the grace. That is the only way: in every drain a deadline that moved means a
   successful steer, and a prompt whose request was interrupted.
   */
  lemma DrainIsProlongedOnlyBySteer(
    p: Prompt, manner: Manner, nextId: nat, run: Option<nat>, now: int, later: int, drain: seq<Action>)
    requires IsOver(p) && Cancel(AfterPrompt(p), manner, nextId, run, now, Done, later).Draining?
    ensures var cancel := Cancel(AfterPrompt(p), manner, nextId, run, now, Done, later);
      var drained := Run(cancel.call, cancel.state, drain);
      && drained.hardDeadline >= cancel.state.hardDeadline
      && (drained.hardDeadline > cancel.state.hardDeadline ==>
            p.sent == Interrupted && exists r :: r in drained.replies && IsSuccess(r))
  {
    hide Run;
    var cancel := Cancel(AfterPrompt(p), manner, nextId, run, now, Done, later);
    RunHardDeadline(cancel.call, cancel.state, drain);
    if !cancel.state.hasReceiver {
      NoReceiverNoReplies(cancel.call, cancel.state, drain);
    }
  }

  lemma DrainCanBeProlonged(call: Call, goose: nat, issued: int, now: int, grace: int, at: int, m: Message)
    requires now < at < now + grace && at < now + CLEANUP_GRACE
    requires m == Message(Some(Num(call.expectedId + 1)), NoMethod, None)
    ensures var p := Prompt(call, Some(goose), issued, issued, Interrupted, []);
      var cancel := Cancel(AfterPrompt(p), OnControl(grace), call.expectedId + 1, Some(goose), now, Done, now);
      && cancel.Draining? && cancel.state.hardDeadline == now + grace
      && var drain := [Offer, Iterate(now, SteerArm(Done)), Iterate(now, GotLine(Json(m), at, at, at))];
         var drained := Run(cancel.call, cancel.state, drain);
         drained.ended.None? && drained.hardDeadline == at + grace > now + grace
  {
    var p := Prompt(call, Some(goose), issued, issued, Interrupted, []);
    var cancel := Cancel(AfterPrompt(p), OnControl(grace), call.expectedId + 1, Some(goose), now, Done, now);
    SteerRenews(cancel.call, cancel.state, now, at, at, m);
  }

  /** The times within one action are in order, and none is before `from`. */
  predicate InTime(a: Action, from: int) {
    a.Iterate? ==>
      && from <= a.top
      && (a.selected.DeadlineArm? ==> a.top <= a.selected.at)
      && (a.selected.GotLine? ==>
            a.top <= a.selected.at && a.selected.at <= a.selected.renewAt && a.selected.at <= a.selected.again)
  }

  /** The latest time an action mentions. */
  function EndOf(a: Action, from: int): int {
    if !a.Iterate? then from
    else match a.selected
      case GotLine(_, _, renewAt, again) => if renewAt < again then again else renewAt
      case DeadlineArm(at) => at
      case _ => a.top
  }

  /** A script whose clock starts at `from` and never goes back. */
  ghost predicate Clocked(script: seq<Action>, from: int) {
    && (forall i :: 0 <= i < |script| ==> InTime(script[i], from))
    && (forall i, j :: 0 <= i < j < |script| && script[j].Iterate? ==> EndOf(script[i], from) <= script[j].top)
  }

  /** Some drain on a proper clock ends up with a later deadline than it began with. */
  ghost predicate CanBeProlonged(call: Call, s: State, from: int) {
    exists drain: seq<Action> :: Clocked(drain, from) && Run(call, s, drain).hardDeadline > s.hardDeadline
  }

  /**
   A drain can be prolonged exactly when the prompt's request was interrupted while it was being written,
   and the drain begins before its deadline.
   */
  lemma DrainCanBeProlongedIff(
    p: Prompt, manner: Manner, nextId: nat, run: Option<nat>, now: int, later: int)
    requires IsOver(p) && Cancel(AfterPrompt(p), manner, nextId, run, now, Done, later).Draining?
    ensures var cancel := Cancel(AfterPrompt(p), manner, nextId, run, now, Done, later);
      CanBeProlonged(cancel.call, cancel.state, later)
      <==> p.sent == Interrupted && later < cancel.state.hardDeadline
  {
    hide Run;
    var cancel := Cancel(AfterPrompt(p), manner, nextId, run, now, Done, later);
    if p.sent == Interrupted && later < cancel.state.hardDeadline {
      SteerInDrain(cancel.call, cancel.state, later);
    }
    if CanBeProlonged(cancel.call, cancel.state, later) {
      var drain: seq<Action> :|
        Clocked(drain, later) && Run(cancel.call, cancel.state, drain).hardDeadline > cancel.state.hardDeadline;
      DrainIsProlongedOnlyBySteer(p, manner, nextId, run, now, later, drain);
      if later >= cancel.state.hardDeadline {
        LateDrainKeepsDeadline(cancel.call, cancel.state, later, drain);
      }
    }
  }

  lemma {:induction false} LateDrainKeepsDeadline(call: Call, s: State, from: int, drain: seq<Action>)
    requires Clocked(drain, from) && from >= s.hardDeadline
    ensures Run(call, s, drain).hardDeadline == s.hardDeadline
  {
    if |drain| > 0 {
      var init, a := drain[..|drain| - 1], drain[|drain| - 1];
      LateDrainKeepsDeadline(call, s, from, init);
      assert InTime(a, from);
      LateStepKeepsDeadline(call, Run(call, s, init), a);
    }
  }

  lemma LateStepKeepsDeadline(call: Call, s: State, a: Action)
    requires a.Iterate? ==> a.top >= s.hardDeadline
    ensures Step(call, s, a).hardDeadline == s.hardDeadline
  {
    hide End, SelectStep;
    EndFacts();
  }

  /** The drain that does it: the agent names its run, a steer is written, and the answer comes a moment later. */
  lemma SteerInDrain(call: Call, s: State, from: int)
    requires s.ended.None? && s.hasReceiver && s.waiting == [] && s.pending.None? && call.idleTimeout > 0
    requires from < NextDeadline(s) && s.hardDeadline == from + call.maxDuration
    ensures CanBeProlonged(call, s, from)
  {
    hide Run;
    var naming := Message(None, SessionUpdate(ActiveRun(Some(0))), None);
    var named := Iterate(from, GotLine(Json(naming), from, from, from));
    var m := Message(Some(Num(s.nextId)), NoMethod, None);
    var s1 := s.(activeRun := Some(0), lastActivity := from, idleDeadline := from + call.idleTimeout);
    NoSteps(call, s);
    RunThen(call, s, [], named);
    assert [] + [named] == [named] && Run(call, s, [named]) == s1;
    var steer, answer := Iterate(from, SteerArm(Done)), Iterate(from, GotLine(Json(m), from, from + 1, from));
    var rest := [Offer, steer, answer];
    SteerRenews(call, s1, from, from, from + 1, m);
    RunAppend(call, s, [named], rest);
    assert Clocked([named] + rest, from);
    assert Run(call, s, [named] + rest).hardDeadline == from + 1 + call.maxDuration;
  }

  lemma {:induction false} RunAppend(call: Call, s: State, actions: seq<Action>, later: seq<Action>)
    ensures Run(call, s, actions + later) == Run(call, Run(call, s, actions), later)
  {
    hide Step;
    if |later| == 0 {
      assert actions + later == actions;
    } else {
      var n := |later| - 1;
      RunAppend(call, s, actions, later[..n]);
      assert (actions + later)[..|actions + later| - 1] == actions + later[..n];
    }
  }

  lemma SteerRenews(call: Call, s: State, now: int, at: int, renewAt: int, m: Message)
    requires s.ended.None? && s.hasReceiver && s.waiting == [] && s.pending.None? && s.activeRun.Some?
    requires now < NextDeadline(s) && s.hardDeadline < renewAt + call.maxDuration
    requires m == Message(Some(Num(s.nextId)), NoMethod, None)
    ensures var drain := [Offer, Iterate(now, SteerArm(Done)), Iterate(now, GotLine(Json(m), at, renewAt, at))];
      var s' := Run(call, s, drain);
      s'.ended.None? && s'.hardDeadline == renewAt + call.maxDuration
  {
    hide Run;
    var steer, answer := Iterate(now, SteerArm(Done)), Iterate(now, GotLine(Json(m), at, renewAt, at));
    assert [Offer] == [] + [Offer] && [Offer, steer] == [Offer] + [steer];
    assert [Offer, steer, answer] == [Offer, steer] + [answer];
    NoSteps(call, s);
    RunThen(call, s, [], Offer);
    RunThen(call, s, [Offer], steer);
    RunThen(call, s, [Offer, steer], answer);
    var s1 := s.(waiting := [s.offered], offered := s.offered + 1);
    assert Run(call, s, [Offer]) == s1;
    var s2 := s1.(waiting := [], nextId := s.nextId + 1, steerIds := s.steerIds + [s.nextId],
                  pending := Some(Pending(s.nextId, s.offered)));
    assert Run(call, s, [Offer, steer]) == s2;
  }

  lemma NoSteps(call: Call, s: State)
    ensures Run(call, s, []) == s
  {
  }

  lemma {:induction false} NoReceiverNoReplies(call: Call, s: State, actions: seq<Action>)
    requires !s.hasReceiver && s.waiting == [] && s.pending == None && s.replies == []
    ensures var s' := Run(call, s, actions);
      !s'.hasReceiver && s'.waiting == [] && s'.pending == None && s'.replies == []
  {
    if |actions| > 0 {
      NoReceiverNoReplies(call, s, actions[..|actions| - 1]);
    }
  }
}
