/** What one event does to the prompt read loop, part by part, told on the event alone. */
module ReadLoopSteps {
  import opened Bytes
  import opened ReadLoop
  import opened ReadLoopLaws

  /** The loop after a run of a prompt. */
  function After(call: Call, run: Option<nat>, issued: int, now: int, actions: seq<Action>): State {
    Run(call, PromptStart(call, run, issued, now), actions)
  }

  lemma AfterInv(call: Call, run: Option<nat>, issued: int, now: int, actions: seq<Action>)
    ensures Inv(call, After(call, run, issued, now, actions))
  {
    StartInv(call, run, issued, now);
    RunKeeps(call, PromptStart(call, run, issued, now), actions);
  }

  // ---- How it ends ----

  /** In time, the reader yields this instead of a line. */
  predicate ReaderYields(s: State, a: Action, selected: Selected) {
    a.Iterate? && BeforeDeadlines(s, a.top) && a.selected == selected
  }

  /** In time, a response to the prompt arrives, with an error or without. */
  predicate PromptAnswered(call: Call, s: State, a: Action, isError: bool) {
    IsAccepted(s, a) && AnswersId(a.selected.line.message, call.expectedId)
    && a.selected.line.message.errorCode.Some? == isError
  }

  ghost predicate EndsAsItShould(call: Call, s: State, a: Action, ended: Option<Ended>) {
    && (ended == Some(Response) <==> PromptAnswered(call, s, a, false))
    && (ended == Some(Failed(PromptFailed)) <==> PromptAnswered(call, s, a, true))
    && (ended == Some(Failed(AgentExited)) <==> ReaderYields(s, a, EndOfStream))
    && (ended == Some(Failed(ProtocolError)) <==> ReaderYields(s, a, LineTooLong))
    && (ended == Some(Failed(IoError)) <==> ReaderYields(s, a, ReadError))
    && (ended == Some(Failed(HandlerFailed)) <==> HandledUpTo(s, a, Erred))
    && (ended == Some(Failed(IdleTimeout)) <==> ReachesDeadline(s, a) && s.idleDeadline < s.hardDeadline)
    && (ended == Some(Failed(HardTimeout)) <==> ReachesDeadline(s, a) && s.idleDeadline >= s.hardDeadline)
    && (ended == Some(Abandoned) <==> Abandons(s, a))
  }

  /**
   In every reachable state the next event alone decides whether and how the loop ends: with the prompt's
   result exactly on its response without an error, as failed exactly on its response with one, and in each
   other way exactly on the event that way is named for.
   */
  lemma EndIff(call: Call, run: Option<nat>, issued: int, now: int, actions: seq<Action>, a: Action)
    requires After(call, run, issued, now, actions).ended.None?
    ensures var s := After(call, run, issued, now, actions); EndsAsItShould(call, s, a, Step(call, s, a).ended)
  {
    hide After;
    AfterInv(call, run, issued, now, actions);
    StepEnds(call, After(call, run, issued, now, actions), a);
  }

  lemma StepEnds(call: Call, s: State, a: Action)
    requires Inv(call, s) && s.ended.None?
    ensures EndsAsItShould(call, s, a, Step(call, s, a).ended)
  {
    assert s.pending.Some? ==> s.pending.value.id in s.steerIds;
    if IsAccepted(s, a) {
      LineEnds(call, s, a);
    } else {
      OtherEnds(call, s, a);
    }
  }

  lemma LineEnds(call: Call, s: State, a: Action)
    requires IsAccepted(s, a) && s.ended.None? && (s.pending.Some? ==> s.pending.value.id != call.expectedId)
    ensures EndsAsItShould(call, s, a, Step(call, s, a).ended)
  {
    hide End;
    EndFacts();
    var m := a.selected.line.message;
    if AnswersId(m, call.expectedId) {
      assert Step(call, s, a).ended == Some(if m.errorCode.Some? then Failed(PromptFailed) else Response);
    } else if m.rpc == NoMethod {
      assert Step(call, s, a).ended == None;
    }
  }

  lemma OtherEnds(call: Call, s: State, a: Action)
    requires !IsAccepted(s, a) && s.ended.None?
    ensures EndsAsItShould(call, s, a, Step(call, s, a).ended)
  {
    hide End, MessageStep;
    EndFacts();
  }

  // ---- Waiting requests ----

  ghost predicate WaitsAsItShould(call: Call, s: State, a: Action, s': State, r: nat) {
    var taken := TakesSteer(s, a);
    var stops := Cuts(s, a) || Closes(call, s, a);
    && (Gains(s, s', r, Acked(ExpectedRunIdMissing)) <==> taken && s.activeRun.None?)
    && (Gains(s, s', r, Acked(Transport)) <==> taken && s.activeRun.Some? && a.selected.work == Erred)
    && (Gains(s, s', r, Dropped) <==> stops)
    && (s'.pending == Some(Pending(s.nextId, r)) <==> taken && s.activeRun.Some? && a.selected.work == Done)
    && (r in s'.waiting <==> !taken && !stops)
    && (s'.nextId == if taken && s.activeRun.Some? then s.nextId + 1 else s.nextId)
  }

  /**
   In every reachable state the next event alone decides what becomes of a waiting request: taken while no
   run is known, it is refused for that; taken otherwise, it uses up an id, and is in flight once written or
   refused when writing failed; it is dropped exactly when the loop stops; and it keeps waiting otherwise.
   */
  lemma WaitingFateIff(
    call: Call, run: Option<nat>, issued: int, now: int, actions: seq<Action>, a: Action, r: nat)
    requires var s := After(call, run, issued, now, actions); s.ended.None? && r in s.waiting
    ensures var s := After(call, run, issued, now, actions); WaitsAsItShould(call, s, a, Step(call, s, a), r)
  {
    hide After, Run;
    var s := After(call, run, issued, now, actions);
    AfterInv(call, run, issued, now, actions);
    EveryRequestIsInOnePlace(call, run, issued, now, actions, r);
    assert Outcomes(s.replies, r) == 0 && InFlight(s, r) == 0 by {
      WaitingIsUnanswered(call, run, issued, now, actions, r);
    }
    PendingIsUnanswered(s, r);
    StepWaits(call, s, a, r);
  }

  lemma WaitingIsUnanswered(call: Call, run: Option<nat>, issued: int, now: int, actions: seq<Action>, r: nat)
    requires r in After(call, run, issued, now, actions).waiting
    ensures var s := After(call, run, issued, now, actions); Outcomes(s.replies, r) == 0 && InFlight(s, r) == 0
  {
    EveryRequestIsInOnePlace(call, run, issued, now, actions, r);
  }

  lemma StepWaits(call: Call, s: State, a: Action, r: nat)
    requires Inv(call, s) && s.ended.None? && r in s.waiting && InFlight(s, r) == 0
    requires forall o :: Reply(r, o) !in s.replies
    ensures WaitsAsItShould(call, s, a, Step(call, s, a), r)
  {
    assert s.waiting == [r];
    assert s.pending.Some? ==> s.pending.value.id in s.steerIds && s.pending.value.request != r;
    hide Inv;
    if TakesSteer(s, a) {
      TakenFate(call, s, a, r);
    } else if IsAccepted(s, a) {
      LineFate(call, s, a, r);
    } else {
      OtherFate(call, s, a, r);
    }
  }

  /** Ending drops what waits, and answers nothing else of `r`. */
  lemma EndDropsWaiting(s: State, t: State, ended: Ended, last: Outcome, r: nat)
    requires t.waiting == [r] && t.replies == s.replies && forall o :: Reply(r, o) !in s.replies
    requires t.pending.Some? ==> t.pending.value.request != r
    ensures var t' := End(t, ended, last);
      && (forall o :: Gains(s, t', r, o) <==> o == Dropped)
      && t'.pending == None && t'.waiting == [] && t'.nextId == t.nextId
  {
    var t' := End(t, ended, last);
    assert DroppedReplies([r]) == [Reply(r, Dropped)];
    assert t'.replies[|t'.replies| - 1] == Reply(r, Dropped);
  }

  lemma TakenFate(call: Call, s: State, a: Action, r: nat)
    requires s.ended.None? && s.waiting == [r] && TakesSteer(s, a)
    requires forall o :: Reply(r, o) !in s.replies
    ensures WaitsAsItShould(call, s, a, Step(call, s, a), r)
  {
    var s' := Step(call, s, a);
    assert DroppedReplies([]) == [];
    assert |s'.replies| > |s.replies| ==> s'.replies[|s.replies|].request == r;
  }

  lemma LineFate(call: Call, s: State, a: Action, r: nat)
    requires s.ended.None? && s.waiting == [r] && IsAccepted(s, a)
    requires s.pending.Some? ==> s.pending.value.request != r && s.pending.value.id != call.expectedId
    requires forall o :: Reply(r, o) !in s.replies
    ensures WaitsAsItShould(call, s, a, Step(call, s, a), r)
  {
    hide End, Gains;
    var m := a.selected.line.message;
    var t := Touched(call, s, a.selected.at);
    EndDropsWaiting(s, t, if m.errorCode.Some? then Failed(PromptFailed) else Response,
                    Acked(PromptCompletedNeutral), r);
    EndDropsWaiting(s, t, Failed(HandlerFailed), Dropped, r);
    EndDropsWaiting(s, t, Abandoned, Dropped, r);
    OthersGain(s, Step(call, s, a), r);
  }

  lemma OthersGain(s: State, s': State, r: nat)
    requires forall o :: Reply(r, o) !in s.replies
    ensures (s'.replies == s.replies
             || (|s'.replies| == |s.replies| + 1 && s.replies <= s'.replies && s'.replies[|s.replies|].request != r))
      ==> forall o :: !Gains(s, s', r, o)
  {
  }

  lemma OtherFate(call: Call, s: State, a: Action, r: nat)
    requires s.ended.None? && s.waiting == [r] && !IsAccepted(s, a) && !TakesSteer(s, a)
    requires s.pending.Some? ==> s.pending.value.request != r
    requires forall o :: Reply(r, o) !in s.replies
    ensures WaitsAsItShould(call, s, a, Step(call, s, a), r)
  {
    hide End, Gains, MessageStep;
    EndDropsWaiting(s, s, Abandoned, Dropped, r);
    EndDropsWaiting(s, s, Failed(if s.idleDeadline < s.hardDeadline then IdleTimeout else HardTimeout),
                    Acked(PromptCompletedNeutral), r);
    EndDropsWaiting(s, s, Failed(AgentExited), Acked(PromptCompletedNeutral), r);
    EndDropsWaiting(s, s, Failed(ProtocolError), Acked(PromptCompletedNeutral), r);
    EndDropsWaiting(s, s, Failed(IoError), Acked(PromptCompletedNeutral), r);
    OthersGain(s, Step(call, s, a), r);
  }

  // ---- Verdicts, deadlines and the rest ----

  /** The steer in flight succeeds. */
  predicate Succeeds(s: State, a: Action) {
    Answers(s, a) && a.selected.line.message.errorCode.None?
  }

  ghost predicate MovesAsItShould(call: Call, s: State, a: Action, s': State) {
    && (Answers(s, a) ==>
          var code := a.selected.line.message.errorCode;
          s'.replies == s.replies
            + [Reply(s.pending.value.request, Acked(if code.Some? then AgentError(code.value) else Success))])
    && (var renewed := if Succeeds(s, a) then a.selected.renewAt + call.maxDuration else s.hardDeadline;
        if renewed > s.hardDeadline
        then s'.hardDeadline == renewed && s'.storedDeadline == Some(renewed)
        else s'.hardDeadline == s.hardDeadline && s'.storedDeadline == s.storedDeadline)
    && (s'.activeRun
        == if IsAccepted(s, a) && a.selected.line.message.rpc.SessionUpdate?
              && a.selected.line.message.rpc.update.ActiveRun?
           then a.selected.line.message.rpc.update.run else s.activeRun)
    && (var taken := a == Offer && s.hasReceiver && s.waiting == [];
        && s'.offered == s.offered + (if taken then 1 else 0)
        && (taken ==> s'.waiting == [s.offered])
        && (s.waiting == [] && !taken ==> s'.waiting == []))
  }

  /**
   In every reachable state: an answer to the steer in flight gives its request the agent's verdict; a
   success, and nothing else, moves the hard deadline, to the full duration from its renewal when that is
   later, and the stored deadline with it; an update of the active run, and nothing else, changes it; and an
   offer is accepted exactly when there is a receiver and nothing waits.
   */
  lemma MoveIff(call: Call, run: Option<nat>, issued: int, now: int, actions: seq<Action>, a: Action)
    requires After(call, run, issued, now, actions).ended.None?
    ensures var s := After(call, run, issued, now, actions); MovesAsItShould(call, s, a, Step(call, s, a))
  {
    hide After;
    AfterInv(call, run, issued, now, actions);
    var s := After(call, run, issued, now, actions);
    if IsAccepted(s, a) {
      LineMoves(call, s, a);
    } else {
      OtherMoves(call, s, a);
    }
  }

  lemma LineMoves(call: Call, s: State, a: Action)
    requires s.ended.None? && IsAccepted(s, a)
    ensures MovesAsItShould(call, s, a, Step(call, s, a))
  {
    hide DroppedReplies;
  }

  lemma OtherMoves(call: Call, s: State, a: Action)
    requires s.ended.None? && !IsAccepted(s, a)
    ensures MovesAsItShould(call, s, a, Step(call, s, a))
  {
    hide DroppedReplies, MessageStep;
  }
}
