/**
 The chunk coalescer: text chunks of the same stream are joined while they wait, and every other
 event flushes what is waiting before it passes.
 */
module Coalescer {
  import opened Bytes
  import opened Json
  import opened Events

  const CHUNK_MAX_TEXT_BYTES: nat := 60_000

  datatype ChunkKey = ChunkKey(
    updateType: bytes,
    messageId: Option<bytes>,
    channelId: Option<bytes>,
    sessionId: Option<bytes>,
    turnId: Option<bytes>,
    agentIndex: Option<nat>)

  datatype Chunk = Chunk(key: ChunkKey, text: bytes)

  datatype Pending = Pending(key: ChunkKey, event: Event, text: bytes)

  function GetOpt(v: Option<Json>, key: bytes): Option<Json> {
    if v.None? then None else Get(v.value, key)
  }

  function UpdateOf(payload: Json): Option<Json> {
    GetOpt(Get(payload, Ascii("params")), Ascii("update"))
  }

  predicate IsChunkType(t: bytes) {
    t == Ascii("agent_message_chunk") || t == Ascii("user_message_chunk") || t == Ascii("agent_thought_chunk")
  }

  /** `observer_chunk_key_and_text`: nothing unless the event is a text chunk. */
  function ChunkOf(e: Event): Option<Chunk> {
    var update := UpdateOf(e.payload);
    var updateType := AsStr(GetOpt(update, Ascii("sessionUpdate")));
    var text := AsStr(GetOpt(GetOpt(update, Ascii("content")), Ascii("text")));
    if updateType.None? || !IsChunkType(updateType.value) || text.None? then None
    else
      Some(Chunk(
        ChunkKey(updateType.value, AsStr(GetOpt(update, Ascii("messageId"))),
                 e.channelId, e.sessionId, e.turnId, e.agentIndex),
        text.value))
  }

  /** `set_observer_chunk_text`: a payload without an object at `params.update.content` is left alone. */
  function SetChunkText(payload: Json, text: bytes): Json {
    var params := Get(payload, Ascii("params"));
    var update := UpdateOf(payload);
    var content := GetOpt(update, Ascii("content"));
    if content.None? || !content.value.Obj? then payload
    else
      var content' := Insert(content.value, Ascii("text"), Str(text));
      var update' := Insert(update.value, Ascii("content"), content');
      Insert(payload, Ascii("params"), Insert(params.value, Ascii("update"), update'))
  }

  lemma DistinctNames()
    ensures Ascii("content") != Ascii("messageId")
    ensures Ascii("content") != Ascii("sessionUpdate")
  {
    assert Ascii("content")[0] == 99 && Ascii("messageId")[0] == 109 && Ascii("sessionUpdate")[0] == 115;
  }

  /** Writing the text back leaves a chunk of the same stream that carries the new text. */
  lemma SetTextThenRead(e: Event, text: bytes)
    requires ChunkOf(e).Some?
    ensures ChunkOf(e.(payload := SetChunkText(e.payload, text))) == Some(Chunk(ChunkOf(e).value.key, text))
  {
    hide FieldIndex, IsChunkType, Insert;
    DistinctNames();
    var params := Get(e.payload, Ascii("params")).value;
    var update := UpdateOf(e.payload).value;
    var content := Get(update, Ascii("content")).value;
    var content' := Insert(content, Ascii("text"), Str(text));
    var update' := Insert(update, Ascii("content"), content');
    GetInsert(content, Ascii("text"), Str(text), []);
    GetInsert(update, Ascii("content"), content', Ascii("sessionUpdate"));
    GetInsert(update, Ascii("content"), content', Ascii("messageId"));
    GetInsert(params, Ascii("update"), update', []);
    GetInsert(e.payload, Ascii("params"), Insert(params, Ascii("update"), update'), []);
  }

  // ---- Specification ----

  /** Index of the entry for `key`, or the length when there is none. */
  function EntryFor(pending: seq<Pending>, key: ChunkKey): (i: nat)
    ensures i <= |pending|
    ensures i < |pending| ==> pending[i].key == key
    ensures forall j :: 0 <= j < i ==> pending[j].key != key
  {
    if |pending| == 0 || pending[0].key == key then 0 else 1 + EntryFor(pending[1..], key)
  }

  function Emit(p: Pending): Event {
    p.event.(payload := SetChunkText(p.event.payload, p.text))
  }

  function Flushed(pending: seq<Pending>): (out: seq<Event>)
    ensures |out| == |pending|
  {
    seq(|pending|, i requires 0 <= i < |pending| => Emit(pending[i]))
  }

  function Append(p: Pending, e: Event, text: bytes): Pending {
    Pending(p.key, p.event.(number := e.number, timestamp := e.timestamp), p.text + text)
  }

  datatype Outcome = Outcome(pending: seq<Pending>, out: seq<Event>)

  function Ingested(pending: seq<Pending>, e: Event): Outcome {
    match ChunkOf(e)
    case None => Outcome([], Flushed(pending) + [e])
    case Some(Chunk(key, text)) =>
      var i := EntryFor(pending, key);
      if i == |pending| then Outcome(pending + [Pending(key, e, text)], [])
      else if |pending[i].text| + |text| >= CHUNK_MAX_TEXT_BYTES then
        Outcome([Pending(key, e, text)], Flushed(pending))
      else Outcome(pending[i := Append(pending[i], e, text)], [])
  }

  class ObserverChunkCoalescer {
    var pending: seq<Pending>

    constructor ()
      ensures pending == []
    {
      pending := [];
    }

    method Flush() returns (events: seq<Event>)
      modifies this
      ensures events == Flushed(old(pending)) && pending == []
    {
      events := [];
      var i := 0;
      while i < |pending|
        invariant i <= |pending| && pending == old(pending)
        invariant events == Flushed(pending)[..i]
      {
        events := events + [Emit(pending[i])];
        i := i + 1;
      }
      pending := [];
    }

    method Ingest(event: Event) returns (events: seq<Event>)
      modifies this
      ensures Outcome(pending, events) == Ingested(old(pending), event)
    {
      var chunk := ChunkOf(event);
      if chunk.None? {
        events := Flush();
        events := events + [event];
        return;
      }
      var key, text := chunk.value.key, chunk.value.text;
      var i := 0;
      while i < |pending| && pending[i].key != key
        invariant i <= |pending| && pending == old(pending)
        invariant forall j :: 0 <= j < i ==> pending[j].key != key
      {
        i := i + 1;
      }
      assert i == EntryFor(pending, key);
      if i < |pending| {
        if |pending[i].text| + |text| >= CHUNK_MAX_TEXT_BYTES {
          events := Flush();
          pending := [Pending(key, event, text)];
          return;
        }
        pending := pending[i := Append(pending[i], event, text)];
        return [];
      }
      pending := pending + [Pending(key, event, text)];
      events := [];
    }
  }

  // ---- Runs ----

  datatype Action = IngestEvent(event: Event) | FlushTick

  function Step(s: Outcome, a: Action): Outcome {
    match a
    case IngestEvent(e) =>
      var o := Ingested(s.pending, e);
      Outcome(o.pending, s.out + o.out)
    case FlushTick => Outcome([], s.out + Flushed(s.pending))
  }

  /** Everything emitted, and what is still waiting, after a run from an empty coalescer. */
  function Run(actions: seq<Action>): Outcome {
    if |actions| == 0 then Outcome([], [])
    else Step(Run(actions[..|actions| - 1]), actions[|actions| - 1])
  }

  function EventsIn(actions: seq<Action>): seq<Event> {
    if |actions| == 0 then []
    else
      var last := actions[|actions| - 1];
      EventsIn(actions[..|actions| - 1]) + (if last.IngestEvent? then [last.event] else [])
  }

  /** What an observer of one stream sees: the stream's text byte by byte, and every other event as a barrier. */
  datatype Token = Text(b: byte) | Barrier(event: Event)

  function TextTokens(text: bytes): (t: seq<Token>)
    ensures |t| == |text|
  {
    seq(|text|, i requires 0 <= i < |text| => Text(text[i]))
  }

  function EventView(e: Event, key: ChunkKey): seq<Token> {
    match ChunkOf(e)
    case None => [Barrier(e)]
    case Some(c) => if c.key == key then TextTokens(c.text) else []
  }

  function View(events: seq<Event>, key: ChunkKey): seq<Token> {
    if |events| == 0 then [] else View(events[..|events| - 1], key) + EventView(events[|events| - 1], key)
  }

  lemma {:induction false} ViewConcat(a: seq<Event>, b: seq<Event>, key: ChunkKey)
    ensures View(a + b, key) == View(a, key) + View(b, key)
  {
    hide ChunkOf, EventView;
    if |b| == 0 {
      assert a + b == a;
    } else {
      ViewConcat(a, b[..|b| - 1], key);
      assert (a + b)[..|a + b| - 1] == a + b[..|b| - 1];
    }
  }

  /** Every waiting entry is a chunk event of its own stream, and no stream has two. */
  predicate Inv(pending: seq<Pending>) {
    && (forall i :: 0 <= i < |pending| ==>
          ChunkOf(pending[i].event).Some? && ChunkOf(pending[i].event).value.key == pending[i].key)
    && (forall i, j :: 0 <= i < j < |pending| ==> pending[i].key != pending[j].key)
  }

  /** Emitting an entry shows its text to its own stream and nothing to the others. */
  lemma EmitView(p: Pending, key: ChunkKey)
    requires ChunkOf(p.event).Some? && ChunkOf(p.event).value.key == p.key
    ensures EventView(Emit(p), key) == if p.key == key then TextTokens(p.text) else []
  {
    SetTextThenRead(p.event, p.text);
  }

  lemma LastIsNew(pending: seq<Pending>)
    requires Inv(pending) && |pending| > 0
    ensures var n := |pending| - 1; Inv(pending[..n]) && EntryFor(pending[..n], pending[n].key) == n
  {
    hide ChunkOf;
  }

  /** A new entry waits for its own stream only. */
  lemma WaitingPush(pending: seq<Pending>, p: Pending, key: ChunkKey)
    requires EntryFor(pending, p.key) == |pending|
    ensures Waiting(pending + [p], key) == if key == p.key then TextTokens(p.text) else Waiting(pending, key)
    ensures key == p.key ==> Waiting(pending, key) == []
  {
    IndexAfterPush(pending, p, key);
  }

  /** Flushing shows a stream exactly the text waiting for it. */
  lemma {:induction false} FlushView(pending: seq<Pending>, key: ChunkKey)
    requires Inv(pending)
    ensures View(Flushed(pending), key) == Waiting(pending, key)
  {
    hide ChunkOf, SetChunkText, Flushed, TextTokens, Waiting, EntryFor, EventView, Inv;
    if |pending| > 0 {
      var n := |pending| - 1;
      LastIsNew(pending);
      FlushView(pending[..n], key);
      FlushLast(pending, key);
      assert pending == pending[..n] + [pending[n]];
      WaitingPush(pending[..n], pending[n], key);
    } else {
      NothingWaits(key);
      NothingFlushed();
    }
  }

  lemma NothingFlushed()
    ensures Flushed([]) == []
  {
  }

  lemma FlushLast(pending: seq<Pending>, key: ChunkKey)
    requires Inv(pending) && |pending| > 0
    ensures var n := |pending| - 1;
      View(Flushed(pending), key)
      == View(Flushed(pending[..n]), key) + if pending[n].key == key then TextTokens(pending[n].text) else []
  {
    hide ChunkOf, SetChunkText, Emit, EventView, EntryFor;
    var n := |pending| - 1;
    assert Flushed(pending)[..n] == Flushed(pending[..n]);
    EmitView(pending[n], key);
  }

  lemma RestampKeepsChunk(e: Event, number: nat, timestamp: bytes)
    ensures ChunkOf(e.(number := number, timestamp := timestamp)) == ChunkOf(e)
  {
  }

  lemma IngestInv(pending: seq<Pending>, e: Event)
    requires Inv(pending)
    ensures Inv(Ingested(pending, e).pending)
  {
    hide ChunkOf, SetChunkText;
    forall i | 0 <= i < |pending|
      ensures ChunkOf(pending[i].event.(number := e.number, timestamp := e.timestamp)) == ChunkOf(pending[i].event)
    {
      RestampKeepsChunk(pending[i].event, e.number, e.timestamp);
    }
  }

  /** What a stream has waiting. */
  function Waiting(pending: seq<Pending>, key: ChunkKey): seq<Token> {
    var i := EntryFor(pending, key);
    if i < |pending| then TextTokens(pending[i].text) else []
  }

  /** Joining a chunk to what waits, or starting an entry for it, adds its text to its own stream only. */
  lemma JoinView(pending: seq<Pending>, e: Event, chunk: Chunk, key: ChunkKey)
    requires Inv(pending)
    ensures var i := EntryFor(pending, chunk.key);
      var pending' := if i == |pending| then pending + [Pending(chunk.key, e, chunk.text)]
                      else pending[i := Append(pending[i], e, chunk.text)];
      Waiting(pending', key) == Waiting(pending, key) + if chunk.key == key then TextTokens(chunk.text) else []
  {
    hide ChunkOf, SetChunkText;
    var i := EntryFor(pending, chunk.key);
    if i == |pending| {
      IndexAfterPush(pending, Pending(chunk.key, e, chunk.text), key);
    } else {
      var p := Append(pending[i], e, chunk.text);
      IndexAfterUpdate(pending, i, p, key);
      assert TextTokens(p.text) == TextTokens(pending[i].text) + TextTokens(chunk.text);
    }
  }

  lemma BarrierView(pending: seq<Pending>, e: Event, key: ChunkKey)
    requires Inv(pending) && ChunkOf(e).None?
    ensures View(Flushed(pending) + [e], key) + View(Flushed([]), key)
         == View(Flushed(pending), key) + EventView(e, key)
  {
    hide ChunkOf, SetChunkText, Flushed;
    ViewConcat(Flushed(pending), [e], key);
    FlushView([], key);
    assert View([e], key) == [] + EventView(e, key);
  }

  lemma ChunkView(pending: seq<Pending>, e: Event, chunk: Chunk, key: ChunkKey)
    requires Inv(pending) && ChunkOf(e) == Some(chunk)
    ensures var o := Ingested(pending, e);
      View(o.out, key) + Waiting(o.pending, key) == View(Flushed(pending), key) + EventView(e, key)
  {
    hide ChunkOf, SetChunkText, TextTokens, Flushed, EntryFor, Waiting, View, Inv;
    var o := Ingested(pending, e);
    FlushView(pending, key);
    var i := EntryFor(pending, chunk.key);
    if i < |pending| && |pending[i].text| + |chunk.text| >= CHUNK_MAX_TEXT_BYTES {
      NothingWaits(key);
      JoinView([], e, chunk, key);
      assert [] + [Pending(chunk.key, e, chunk.text)] == o.pending;
      assert Waiting(o.pending, key) == EventView(e, key);
    } else {
      JoinView(pending, e, chunk, key);
      NothingSeen(key);
      assert View(o.out, key) + Waiting(o.pending, key) == Waiting(o.pending, key);
    }
  }

  lemma NothingSeen(key: ChunkKey)
    ensures View([], key) == []
  {
  }

  lemma NothingWaits(key: ChunkKey)
    ensures Waiting([], key) == [] && Inv([])
  {
  }

  lemma IngestView(pending: seq<Pending>, e: Event, key: ChunkKey)
    requires Inv(pending)
    ensures var o := Ingested(pending, e);
      View(o.out, key) + View(Flushed(o.pending), key) == View(Flushed(pending), key) + EventView(e, key)
  {
    hide ChunkOf, Flushed, View, EventView, Waiting, Inv;
    IngestInv(pending, e);
    match ChunkOf(e) {
      case None => BarrierView(pending, e, key);
      case Some(chunk) =>
        ChunkView(pending, e, chunk, key);
        FlushView(Ingested(pending, e).pending, key);
    }
  }

  lemma IndexAfterPush(pending: seq<Pending>, p: Pending, key: ChunkKey)
    requires EntryFor(pending, p.key) == |pending|
    ensures EntryFor(pending + [p], key)
      == if key == p.key then |pending|
         else if EntryFor(pending, key) < |pending| then EntryFor(pending, key)
         else |pending| + 1
  {
    var q := pending + [p];
    assert q[|pending|] == p;
    if EntryFor(pending, key) < |pending| {
      assert q[EntryFor(pending, key)].key == key;
    }
  }

  lemma IndexAfterUpdate(pending: seq<Pending>, i: nat, p: Pending, key: ChunkKey)
    requires i < |pending| && p.key == pending[i].key
    ensures EntryFor(pending[i := p], key) == EntryFor(pending, key)
  {
    var q := pending[i := p];
    if EntryFor(pending, key) < |pending| {
      assert q[EntryFor(pending, key)].key == key;
    }
    if EntryFor(q, key) < |q| {
      assert pending[EntryFor(q, key)].key == key;
    }
  }

  /**
   For every stream and every interleaving of arrivals and flushes: what was emitted followed by
   what is waiting reads exactly like what came in, text byte for byte and every other event once,
   in its place between the texts.
   */
  lemma {:induction false} RunPreservesEveryStream(actions: seq<Action>, key: ChunkKey)
    ensures Inv(Run(actions).pending)
    ensures View(Run(actions).out, key) + View(Flushed(Run(actions).pending), key) == View(EventsIn(actions), key)
  {
    hide ChunkOf, SetChunkText, EventView, Ingested, Flushed;
    if |actions| > 0 {
      var init, a := actions[..|actions| - 1], actions[|actions| - 1];
      RunPreservesEveryStream(init, key);
      match a {
        case IngestEvent(e) => IngestStep(Run(init), EventsIn(init), e, key);
        case FlushTick => FlushStep(Run(init), EventsIn(init), key);
      }
    } else {
      FlushView([], key);
    }
  }

  /** One arrival carries the equation of `RunPreservesEveryStream` forward. */
  lemma IngestStep(s: Outcome, events: seq<Event>, e: Event, key: ChunkKey)
    requires Inv(s.pending)
    requires View(s.out, key) + View(Flushed(s.pending), key) == View(events, key)
    ensures var o := Ingested(s.pending, e);
      Inv(o.pending) && View(s.out + o.out, key) + View(Flushed(o.pending), key) == View(events + [e], key)
  {
    hide ChunkOf, SetChunkText, EventView, Ingested, Flushed, Inv;
    var o := Ingested(s.pending, e);
    IngestInv(s.pending, e);
    IngestView(s.pending, e, key);
    ViewConcat(s.out, o.out, key);
    ViewConcat(events, [e], key);
    assert View([e], key) == [] + EventView(e, key);
    calc {
      View(s.out + o.out, key) + View(Flushed(o.pending), key);
      View(s.out, key) + (View(o.out, key) + View(Flushed(o.pending), key));
      View(s.out, key) + (View(Flushed(s.pending), key) + EventView(e, key));
      View(events, key) + EventView(e, key);
    }
  }

  /** And so does a flush. */
  lemma FlushStep(s: Outcome, events: seq<Event>, key: ChunkKey)
    requires Inv(s.pending)
    requires View(s.out, key) + View(Flushed(s.pending), key) == View(events, key)
    ensures Inv([]) && View(s.out + Flushed(s.pending), key) + View(Flushed([]), key) == View(events + [], key)
  {
    hide ChunkOf, SetChunkText, EventView, Flushed;
    ViewConcat(s.out, Flushed(s.pending), key);
    FlushView([], key);
    assert events + [] == events;
  }

  /** After a flush nothing waits, so each stream has been emitted exactly as it arrived. */
  lemma FlushedRunEmitsEverything(actions: seq<Action>, key: ChunkKey)
    ensures View(Run(actions + [FlushTick]).out, key) == View(EventsIn(actions), key)
  {
    hide ChunkOf, SetChunkText, EventView, Ingested;
    var all := actions + [FlushTick];
    assert all[..|all| - 1] == actions;
    RunPreservesEveryStream(all, key);
    assert EventsIn(all) == EventsIn(actions) + [] == EventsIn(actions);
    assert Run(all).pending == [];
    FlushView([], key);
  }

  // ---- Stamps ----

  /** The last chunk of a stream among `events`. */
  function LastChunk(events: seq<Event>, key: ChunkKey): Option<Event> {
    if |events| == 0 then None
    else
      var last := events[|events| - 1];
      if ChunkOf(last).Some? && ChunkOf(last).value.key == key then Some(last)
      else LastChunk(events[..|events| - 1], key)
  }

  /** The entry carries the number and the timestamp of the last chunk its stream received. */
  ghost predicate Stamped(events: seq<Event>, p: Pending) {
    LastChunk(events, p.key).Some?
    && p.event.number == LastChunk(events, p.key).value.number
    && p.event.timestamp == LastChunk(events, p.key).value.timestamp
  }

  lemma LastChunkPush(events: seq<Event>, e: Event, key: ChunkKey)
    ensures LastChunk(events + [e], key)
      == if ChunkOf(e).Some? && ChunkOf(e).value.key == key then Some(e) else LastChunk(events, key)
  {
    hide ChunkOf;
    assert (events + [e])[..|events|] == events;
  }

  lemma IngestStamps(pending: seq<Pending>, events: seq<Event>, e: Event, k: nat)
    requires Inv(pending) && k < |Ingested(pending, e).pending|
    requires forall i :: 0 <= i < |pending| ==> Stamped(events, pending[i])
    ensures Stamped(events + [e], Ingested(pending, e).pending[k])
  {
    hide ChunkOf, Flushed, SetChunkText, LastChunk;
    var p := Ingested(pending, e).pending[k];
    LastChunkPush(events, e, p.key);
    if ChunkOf(e).Some? && p.key != ChunkOf(e).value.key {
      assert Stamped(events, pending[k]);
    }
  }

  /** In every run what waits for a stream, and so what a flush emits for it, is stamped like its latest chunk. */
  lemma {:induction false} PendingCarriesLatestStamp(actions: seq<Action>, k: nat)
    requires k < |Run(actions).pending|
    ensures Stamped(EventsIn(actions), Run(actions).pending[k])
    ensures Emit(Run(actions).pending[k]).number == Run(actions).pending[k].event.number
  {
    hide ChunkOf, Flushed, SetChunkText, Ingested, LastChunk, Stamped;
    var init, a := actions[..|actions| - 1], actions[|actions| - 1];
    if a.IngestEvent? {
      forall i | 0 <= i < |Run(init).pending| ensures Stamped(EventsIn(init), Run(init).pending[i]) {
        PendingCarriesLatestStamp(init, i);
      }
      RunInv(init);
      IngestStamps(Run(init).pending, EventsIn(init), a.event, k);
    }
  }

  lemma RunInv(actions: seq<Action>)
    ensures Inv(Run(actions).pending)
  {
    RunPreservesEveryStream(actions, ChunkKey([], None, None, None, None, None));
  }

  // ---- Sizes ----

  /** `text` is the whole text of one of `events`. */
  predicate IsOneChunk(events: seq<Event>, text: bytes) {
    exists i :: 0 <= i < |events| && ChunkOf(events[i]).Some? && ChunkOf(events[i]).value.text == text
  }

  predicate SizeOk(events: seq<Event>, text: bytes) {
    |text| < 60_000 || IsOneChunk(events, text)
  }

  /** Joined text stays under the limit; only a single chunk that arrived that large can exceed it. */
  lemma {:induction false} PendingTextIsBounded(actions: seq<Action>, i: nat)
    requires i < |Run(actions).pending|
    ensures SizeOk(EventsIn(actions), Run(actions).pending[i].text)
  {
    hide ChunkOf, Flushed;
    var init, a := actions[..|actions| - 1], actions[|actions| - 1];
    var s := Run(init);
    var before, after := EventsIn(init), EventsIn(actions);
    var text := Run(actions).pending[i].text;
    match a {
      case FlushTick =>
      case IngestEvent(e) =>
        assert after[|before|] == e && after[..|before|] == before;
        if i < |s.pending| && s.pending[i].text == text {
          PendingTextIsBounded(init, i);
          if |text| >= CHUNK_MAX_TEXT_BYTES {
            var k :| 0 <= k < |before| && ChunkOf(before[k]).Some? && ChunkOf(before[k]).value.text == text;
            assert after[k] == before[k];
          }
        } else if |text| >= CHUNK_MAX_TEXT_BYTES {
          assert ChunkOf(after[|before|]).value.text == text;
        }
    }
  }
}
