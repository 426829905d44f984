/**
 The prompt read loop: it reads the agent's lines until the prompt's response arrives, lets steer
 requests through one at a time, and stops at an idle or a hard deadline. Times are milliseconds.
 */
module ReadLoop {
  import opened Bytes

  // ---- What comes in ----

  /** How one steer request came out: an acknowledgement, or its sender dropped without one. */
  datatype SteerAck = Success | AgentError(code: int) | Transport | ExpectedRunIdMissing | PromptCompletedNeutral

  datatype Outcome = Acked(ack: SteerAck) | Dropped

  datatype Reply = Reply(request: nat, outcome: Outcome)

  datatype MsgId = Num(n: nat) | OtherId

  /** What a `session/update` does to the client. */
  datatype Update = ToolCall | ActiveRun(run: Option<nat>) | OtherUpdate

  /** How far an answer to the agent, or a request to it, got before the write ended or its caller gave up on it. */
  datatype Work = Done | Erred | Interrupted

  /** The method of a message, with how far handling it got. */
  datatype Method =
    | NoMethod
    | MethodNotText
    | SessionUpdate(update: Update)
    | GooseUsage
    | RequestPermission(work: Work)
    | UnknownMethod(work: Work)

  datatype Message = Message(id: Option<MsgId>, rpc: Method, errorCode: Option<int>)

  datatype Line = Blank | NotJson | Json(message: Message)

  /** What the select picked: a reader result, the steer arm, or the deadline. */
  datatype Selected =
    | EndOfStream
    | LineTooLong
    | ReadError
    | GotLine(line: Line, at: int, renewAt: int, again: int)
    | SteerArm(work: Work)
    | DeadlineArm(at: int)

  /**
   Between iterations the main loop may offer a steer request, and the caller may abandon the loop by
   dropping its future, as a control signal does; an iteration starts at `top`.
   */
  datatype Action = Offer | Iterate(top: int, selected: Selected) | Abandon

  // ---- The loop's state ----

  datatype LoopError = IdleTimeout | HardTimeout | AgentExited | ProtocolError | IoError | HandlerFailed | PromptFailed

  datatype Ended = Response | Failed(error: LoopError) | Abandoned

  datatype Pending = Pending(id: nat, request: nat)

  /** The arguments of the call. */
  datatype Call = Call(expectedId: nat, idleTimeout: int, maxDuration: int)

  /**
   `waiting` is the steer channel of capacity one, `offered` the number of requests it accepted so
   far, which also names them; `steerIds` are the ids given to steer writes.
   */
  datatype State = State(
    nextId: nat,
    steerIds: seq<nat>,
    pending: Option<Pending>,
    hasReceiver: bool,
    waiting: seq<nat>,
    offered: nat,
    replies: seq<Reply>,
    activeRun: Option<nat>,
    lastActivity: int,
    idleDeadline: int,
    hardDeadline: int,
    storedDeadline: Option<int>,
    ended: Option<Ended>)

  function Start(call: Call, nextId: nat, hasReceiver: bool, run: Option<nat>, now: int, hard: int,
                 stored: Option<int>): State {
    State(nextId, [], None, hasReceiver, [], 0, [], run, now, now + call.idleTimeout, hard, stored, None)
  }

  function DroppedReplies(waiting: seq<nat>): seq<Reply> {
    seq(|waiting|, i requires 0 <= i < |waiting| => Reply(waiting[i], Dropped))
  }

  /** Returning answers the pending steer with `last` and drops whatever still waits in the channel. */
  function End(s: State, ended: Ended, last: Outcome): State {
    var answered := if s.pending.Some? then [Reply(s.pending.value.request, last)] else [];
    s.(pending := None, waiting := [], ended := Some(ended),
       replies := s.replies + answered + DroppedReplies(s.waiting))
  }

  function Drain(s: State, ended: Ended): State {
    End(s, ended, Acked(PromptCompletedNeutral))
  }

  function NextDeadline(s: State): int {
    if s.idleDeadline < s.hardDeadline then s.idleDeadline else s.hardDeadline
  }

  function TimedOut(s: State): State {
    Drain(s, Failed(if s.idleDeadline < s.hardDeadline then IdleTimeout else HardTimeout))
  }

  /** The loop stops where it stands, with the senders it holds. */
  function Severed(s: State, ended: Ended): State {
    End(s, ended, Dropped)
  }

  function SteerStep(s: State, work: Work): State {
    if s.pending.Some? || |s.waiting| == 0 then s
    else
      var request := s.waiting[0];
      var s' := s.(waiting := s.waiting[1..]);
      if s.activeRun.None? then s'.(replies := s.replies + [Reply(request, Acked(ExpectedRunIdMissing))])
      else
        var s'' := s'.(nextId := s.nextId + 1, steerIds := s.steerIds + [s.nextId]);
        match work
        case Done => s''.(pending := Some(Pending(s.nextId, request)))
        case Erred => s''.(replies := s.replies + [Reply(request, Acked(Transport))])
        case Interrupted => Severed(s''.(replies := s.replies + [Reply(request, Dropped)]), Abandoned)
  }

  predicate IsResponse(m: Message) {
    m.id.Some? && m.rpc == NoMethod
  }

  predicate AnswersSteer(s: State, m: Message) {
    IsResponse(m) && s.pending.Some? && m.id == Some(Num(s.pending.value.id))
  }

  predicate AnswersPrompt(call: Call, m: Message) {
    IsResponse(m) && m.id == Some(Num(call.expectedId))
  }

  function SteerAnswered(call: Call, s: State, m: Message, renewAt: int): State
    requires s.pending.Some?
  {
    var request := s.pending.value.request;
    if m.errorCode.Some? then
      s.(pending := None, replies := s.replies + [Reply(request, Acked(AgentError(m.errorCode.value)))])
    else
      var s' := s.(pending := None, replies := s.replies + [Reply(request, Acked(Success))]);
      var renewed := renewAt + call.maxDuration;
      if renewed > s.hardDeadline then s'.(hardDeadline := renewed, storedDeadline := Some(renewed)) else s'
  }

  function Touched(call: Call, s: State, at: int): State {
    s.(idleDeadline := at + call.idleTimeout, lastActivity := at)
  }

  function Dispatched(call: Call, s: State, m: Message, again: int): State {
    match m.rpc
    case SessionUpdate(ToolCall) => Touched(call, s, again)
    case SessionUpdate(ActiveRun(run)) => s.(activeRun := run)
    case RequestPermission(work) => Worked(s, work)
    case UnknownMethod(work) => if m.id.None? then s else Worked(s, work)
    case _ => s
  }

  /** After handling a request of the agent's: only a finished answer lets the loop go on. */
  function Worked(s: State, work: Work): State {
    match work
    case Done => s
    case Erred => Severed(s, Failed(HandlerFailed))
    case Interrupted => Severed(s, Abandoned)
  }

  function MessageStep(call: Call, s: State, m: Message, at: int, renewAt: int, again: int): State {
    var s' := Touched(call, s, at);
    if AnswersSteer(s', m) then SteerAnswered(call, s', m, renewAt)
    else if AnswersPrompt(call, m) then Drain(s', if m.errorCode.Some? then Failed(PromptFailed) else Response)
    else Dispatched(call, s', m, again)
  }

  function SelectStep(call: Call, s: State, selected: Selected): State {
    match selected
    case EndOfStream => Drain(s, Failed(AgentExited))
    case LineTooLong => Drain(s, Failed(ProtocolError))
    case ReadError => Drain(s, Failed(IoError))
    case GotLine(line, at, renewAt, again) =>
      if line.Json? then MessageStep(call, s, line.message, at, renewAt, again) else s
    case SteerArm(work) => SteerStep(s, work)
    case DeadlineArm(at) => if at >= NextDeadline(s) then TimedOut(s) else s
  }

  function Step(call: Call, s: State, a: Action): State {
    if s.ended.Some? then s
    else
      match a
      case Offer =>
        if !s.hasReceiver || |s.waiting| > 0 then s
        else s.(waiting := [s.offered], offered := s.offered + 1)
      case Iterate(top, selected) =>
        if top >= NextDeadline(s) then TimedOut(s) else SelectStep(call, s, selected)
      case Abandon => Severed(s, Abandoned)
  }

  function Run(call: Call, s: State, actions: seq<Action>): State {
    if |actions| == 0 then s else Step(call, Run(call, s, actions[..|actions| - 1]), actions[|actions| - 1])
  }

  // ---- The loop itself, over its own variables ----

  class PromptReader {
    const call: Call
    var nextId: nat
    ghost var steerIds: seq<nat>
    var pendingSteer: Option<Pending>
    const hasReceiver: bool
    var waiting: seq<nat>
    var offered: nat
    ghost var replies: seq<Reply>
    var activeRun: Option<nat>
    var lastActivity: int
    var idleDeadline: int
    var hardDeadline: int
    var storedDeadline: Option<int>
    var ended: Option<Ended>

    ghost function Value(): State
      reads this
    {
      State(nextId, steerIds, pendingSteer, hasReceiver, waiting, offered, replies, activeRun, lastActivity,
            idleDeadline, hardDeadline, storedDeadline, ended)
    }

    constructor (call: Call, nextId: nat, hasReceiver: bool, run: Option<nat>, now: int, hard: int, stored: Option<int>)
      ensures this.call == call
      ensures Value() == Start(call, nextId, hasReceiver, run, now, hard, stored)
    {
      this.call, this.nextId, this.hasReceiver, this.activeRun := call, nextId, hasReceiver, run;
      steerIds, pendingSteer, waiting, offered, replies := [], None, [], 0, [];
      lastActivity, idleDeadline := now, now + call.idleTimeout;
      hardDeadline, storedDeadline, ended := hard, stored, None;
    }

    method Acknowledge(request: nat, outcome: Outcome)
      modifies this`replies
      ensures replies == old(replies) + [Reply(request, outcome)]
    {
      replies := replies + [Reply(request, outcome)];
    }

    /** Leaves the loop; the locals go out of scope, and with them the senders they hold. */
    method Return(result: Ended, last: Outcome)
      modifies this`pendingSteer, this`waiting, this`replies, this`ended
      ensures Value() == End(old(Value()), result, last)
    {
      if pendingSteer.Some? {
        Acknowledge(pendingSteer.value.request, last);
        pendingSteer := None;
      }
      ghost var before := replies;
      var dropped := waiting;
      for i := 0 to |dropped|
        invariant replies == before + DroppedReplies(dropped)[..i]
        invariant pendingSteer == None && waiting == dropped && ended == old(ended)
      {
        Acknowledge(dropped[i], Dropped);
      }
      waiting := [];
      ended := Some(result);
    }

    method TimeOut()
      modifies this
      ensures Value() == TimedOut(old(Value()))
    {
      if idleDeadline < hardDeadline {
        Return(Failed(IdleTimeout), Acked(PromptCompletedNeutral));
      } else {
        Return(Failed(HardTimeout), Acked(PromptCompletedNeutral));
      }
    }

    method TakeSteer(work: Work)
      modifies this
      ensures Value() == SteerStep(old(Value()), work)
    {
      if pendingSteer.Some? || |waiting| == 0 {
        return;
      }
      var request := waiting[0];
      waiting := waiting[1..];
      if activeRun.None? {
        Acknowledge(request, Acked(ExpectedRunIdMissing));
        return;
      }
      var id := nextId;
      nextId := nextId + 1;
      steerIds := steerIds + [id];
      match work {
        case Done => pendingSteer := Some(Pending(id, request));
        case Erred => Acknowledge(request, Acked(Transport));
        case Interrupted =>
          Acknowledge(request, Dropped);
          Return(Abandoned, Dropped);
      }
    }

    method AnswerSteer(m: Message, renewAt: int)
      requires pendingSteer.Some?
      modifies this
      ensures Value() == SteerAnswered(call, old(Value()), m, renewAt)
    {
      var request := pendingSteer.value.request;
      pendingSteer := None;
      if m.errorCode.Some? {
        Acknowledge(request, Acked(AgentError(m.errorCode.value)));
        return;
      }
      var newDeadline := renewAt + call.maxDuration;
      if newDeadline > hardDeadline {
        hardDeadline := newDeadline;
        storedDeadline := Some(newDeadline);
      }
      Acknowledge(request, Acked(Success));
    }

    method Touch(at: int)
      modifies this`idleDeadline, this`lastActivity
      ensures Value() == Touched(call, old(Value()), at)
    {
      idleDeadline := at + call.idleTimeout;
      lastActivity := at;
    }

    method Dispatch(m: Message, again: int)
      modifies this
      ensures Value() == Dispatched(call, old(Value()), m, again)
    {
      match m.rpc {
        case SessionUpdate(ToolCall) => Touch(again);
        case SessionUpdate(ActiveRun(run)) => activeRun := run;
        case RequestPermission(work) => FinishRequest(work);
        case UnknownMethod(work) =>
          if m.id.Some? {
            FinishRequest(work);
          }
        case _ =>
      }
    }

    /** The `?` after a handler, and the caller dropping the future while it writes. */
    method FinishRequest(work: Work)
      modifies this
      ensures Value() == Worked(old(Value()), work)
    {
      match work {
        case Done =>
        case Erred => Return(Failed(HandlerFailed), Dropped);
        case Interrupted => Return(Abandoned, Dropped);
      }
    }

    method Receive(m: Message, at: int, renewAt: int, again: int)
      modifies this
      ensures Value() == MessageStep(call, old(Value()), m, at, renewAt, again)
    {
      Touch(at);
      if m.id.Some? && m.rpc == NoMethod {
        if pendingSteer.Some? && m.id.value == Num(pendingSteer.value.id) {
          AnswerSteer(m, renewAt);
          return;
        }
        if m.id.value == Num(call.expectedId) {
          var result := if m.errorCode.Some? then Failed(PromptFailed) else Response;
          Return(result, Acked(PromptCompletedNeutral));
          return;
        }
      }
      Dispatch(m, again);
    }

    method Select(selected: Selected)
      modifies this
      ensures Value() == SelectStep(call, old(Value()), selected)
    {
      match selected {
        case EndOfStream => Return(Failed(AgentExited), Acked(PromptCompletedNeutral));
        case LineTooLong => Return(Failed(ProtocolError), Acked(PromptCompletedNeutral));
        case ReadError => Return(Failed(IoError), Acked(PromptCompletedNeutral));
        case GotLine(line, at, renewAt, again) =>
          if line.Json? {
            Receive(line.message, at, renewAt, again);
          }
        case SteerArm(work) => TakeSteer(work);
        case DeadlineArm(at) =>
          var next := if idleDeadline < hardDeadline then idleDeadline else hardDeadline;
          if at >= next {
            TimeOut();
          }
      }
    }

    /** `read_until_response_with_idle_timeout`, against a script of what its surroundings do. */
    method ReadUntilResponse(script: seq<Action>)
      modifies this
      ensures Value() == Run(call, old(Value()), script)
    {
      for i := 0 to |script|
        invariant Value() == Run(call, old(Value()), script[..i])
      {
        assert script[..i + 1][..i] == script[..i];
        if ended.None? {
          match script[i] {
            case Offer =>
              if hasReceiver && |waiting| == 0 {
                waiting := [offered];
                offered := offered + 1;
              }
            case Iterate(top, selected) =>
              var next := if idleDeadline < hardDeadline then idleDeadline else hardDeadline;
              if top >= next {
                TimeOut();
              } else {
                Select(selected);
              }
            case Abandon => Return(Abandoned, Dropped);
          }
        }
      }
      assert script[..|script|] == script;
    }
  }
}
