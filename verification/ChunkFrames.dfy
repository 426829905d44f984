/** What an emitted chunk event is made of: which event it comes from, and what in it has changed. */
module ChunkFrames {
  import opened Bytes
  import opened Json
  import opened Events
  import opened Coalescer

  // ---- Reading along a path of keys, and changing one place ----

  /** Slot `i` is the first with this key. */
  predicate IsFirst(slots: seq<Slot>, key: bytes, i: nat) {
    i < |slots| && slots[i].key == Some(key) && forall j :: 0 <= j < i ==> slots[j].key != Some(key)
  }

  ghost predicate Reads(v: Json, path: seq<bytes>, x: Json)
    decreases |path|
  {
    if path == [] then v == x
    else v.Obj? && exists i: nat :: IsFirst(v.slots, path[0], i) && Reads(v.slots[i].value, path[1..], x)
  }

  /** `w` is `v` with `x` in place of what stands at the end of the path: nothing else differs, nor moves. */
  ghost predicate EqualExceptAt(v: Json, w: Json, path: seq<bytes>, x: Json)
    decreases |path|
  {
    if path == [] then w == x
    else
      && v.Obj? && w.Obj? && |w.slots| == |v.slots|
      && exists i: nat ::
           && IsFirst(v.slots, path[0], i)
           && w.slots[i].key == v.slots[i].key
           && EqualExceptAt(v.slots[i].value, w.slots[i].value, path[1..], x)
           && forall j :: 0 <= j < |v.slots| && j != i ==> w.slots[j] == v.slots[j]
  }

  lemma FirstIsUnique(slots: seq<Slot>, key: bytes, i: nat)
    ensures IsFirst(slots, key, i) <==> i < |slots| && i == FieldIndex(slots, key)
  {
  }

  lemma ReadsOne(v: Json, path: seq<bytes>, x: Json)
    requires path != []
    ensures Reads(v, path, x) <==> Get(v, path[0]).Some? && Reads(Get(v, path[0]).value, path[1..], x)
  {
    if v.Obj? {
      FirstIsUnique(v.slots, path[0], FieldIndex(v.slots, path[0]));
      forall i: nat | IsFirst(v.slots, path[0], i) ensures i == FieldIndex(v.slots, path[0]) {
        FirstIsUnique(v.slots, path[0], i);
      }
    }
  }

  lemma ReadsTwo(v: Json, a: bytes, b: bytes, c: seq<bytes>, x: Json)
    ensures Reads(v, [a, b] + c, x)
      <==> GetOpt(Get(v, a), b).Some? && Reads(GetOpt(Get(v, a), b).value, c, x)
  {
    hide Reads;
    ReadsOne(v, [a, b] + c, x);
    assert ([a, b] + c)[1..] == [b] + c && ([b] + c)[1..] == c;
    if Get(v, a).Some? {
      ReadsOne(Get(v, a).value, [b] + c, x);
    }
  }

  lemma ReadsHere(v: Json, x: Json)
    ensures Reads(v, [], x) <==> v == x
  {
  }

  lemma ReadsKey(v: Json, a: bytes, x: Json)
    ensures Reads(v, [a], x) <==> Get(v, a) == Some(x)
  {
    ReadsOne(v, [a], x);
    if Get(v, a).Some? {
      ReadsHere(Get(v, a).value, x);
    }
  }

  // ---- Which events are chunks ----

  const PARAMS: bytes := Ascii("params")
  const UPDATE: bytes := Ascii("update")
  const CONTENT: bytes := Ascii("content")
  const TEXT: bytes := Ascii("text")
  const TEXT_PATH: seq<bytes> := [PARAMS, UPDATE, CONTENT, TEXT]
  const TYPE_PATH: seq<bytes> := [PARAMS, UPDATE, Ascii("sessionUpdate")]
  const MESSAGE_PATH: seq<bytes> := [PARAMS, UPDATE, Ascii("messageId")]

  /**
   An event is a chunk exactly when its payload has one of three update types and a text at their paths; its
   stream is named by that type, the message id when there is one as text, and the event's own ids.
   */
  lemma ChunkIff(e: Event, c: Chunk)
    ensures ChunkOf(e) == Some(c)
      <==> && Reads(e.payload, TYPE_PATH, Str(c.key.updateType))
           && (c.key.updateType == Ascii("agent_message_chunk") || c.key.updateType == Ascii("user_message_chunk")
               || c.key.updateType == Ascii("agent_thought_chunk"))
           && Reads(e.payload, TEXT_PATH, Str(c.text))
           && (forall m :: c.key.messageId == Some(m) <==> Reads(e.payload, MESSAGE_PATH, Str(m)))
           && c.key.channelId == e.channelId && c.key.sessionId == e.sessionId
           && c.key.turnId == e.turnId && c.key.agentIndex == e.agentIndex
  {
    hide Reads, Get, IsChunkType;
    var update := UpdateOf(e.payload);
    assert IsChunkType(c.key.updateType) <==>
      c.key.updateType == Ascii("agent_message_chunk") || c.key.updateType == Ascii("user_message_chunk")
      || c.key.updateType == Ascii("agent_thought_chunk") by { TypeIsListed(c.key.updateType); }
    UpdateReads(e.payload, Ascii("sessionUpdate"), Str(c.key.updateType));
    assert TEXT_PATH == [PARAMS, UPDATE] + [CONTENT, TEXT];
    ReadsTwo(e.payload, PARAMS, UPDATE, [CONTENT, TEXT], Str(c.text));
    if update.Some? {
      assert [CONTENT, TEXT] == [CONTENT, TEXT] + [];
      ReadsTwo(update.value, CONTENT, TEXT, [], Str(c.text));
      var text := GetOpt(Get(update.value, CONTENT), TEXT);
      if text.Some? {
        ReadsHere(text.value, Str(c.text));
      }
    }
    forall m ensures Reads(e.payload, MESSAGE_PATH, Str(m)) <==> GetOpt(update, Ascii("messageId")) == Some(Str(m)) {
      UpdateReads(e.payload, Ascii("messageId"), Str(m));
    }
  }

  lemma TypeIsListed(t: bytes)
    ensures IsChunkType(t) <==>
      t == Ascii("agent_message_chunk") || t == Ascii("user_message_chunk") || t == Ascii("agent_thought_chunk")
  {
  }

  lemma UpdateReads(payload: Json, key: bytes, x: Json)
    ensures Reads(payload, [PARAMS, UPDATE, key], x) <==> GetOpt(UpdateOf(payload), key) == Some(x)
  {
    hide Reads, Get;
    assert [PARAMS, UPDATE, key] == [PARAMS, UPDATE] + [key];
    ReadsTwo(payload, PARAMS, UPDATE, [key], x);
    if UpdateOf(payload).Some? {
      ReadsKey(UpdateOf(payload).value, key, x);
    }
  }

  // ---- Writing the text back ----

  lemma InsertChangesOne(v: Json, w: Json, key: bytes, path: seq<bytes>, x: Json)
    requires Get(v, key).Some? && EqualExceptAt(Get(v, key).value, w, path, x)
    ensures v.Obj? && EqualExceptAt(v, Insert(v, key, w), [key] + path, x)
  {
    var i := FieldIndex(v.slots, key);
    FirstIsUnique(v.slots, key, i);
    assert ([key] + path)[1..] == path;
  }

  /** Writing the joined text back changes the payload at the text's own path and nowhere else. */
  lemma OnlyTextChanges(e: Event, text: bytes)
    requires ChunkOf(e).Some?
    ensures EqualExceptAt(e.payload, SetChunkText(e.payload, text), TEXT_PATH, Str(text))
  {
    hide Get, Insert, EqualExceptAt, IsChunkType;
    var params := Get(e.payload, PARAMS).value;
    var update := UpdateOf(e.payload).value;
    var content := Get(update, CONTENT).value;
    GetIsOfObject(content, TEXT);
    GetIsOfObject(update, CONTENT);
    GetIsOfObject(params, UPDATE);
    GetIsOfObject(e.payload, PARAMS);
    var content' := Insert(content, TEXT, Str(text));
    var update' := Insert(update, CONTENT, content');
    var params' := Insert(params, UPDATE, update');
    EndOfPath(Get(content, TEXT).value, text);
    InsertChangesOne(content, Str(text), TEXT, [], Str(text));
    InsertChangesOne(update, content', CONTENT, [TEXT] + [], Str(text));
    InsertChangesOne(params, update', UPDATE, [CONTENT] + ([TEXT] + []), Str(text));
    InsertChangesOne(e.payload, params', PARAMS, [UPDATE] + ([CONTENT] + ([TEXT] + [])), Str(text));
    assert TEXT_PATH == [PARAMS] + ([UPDATE] + ([CONTENT] + ([TEXT] + [])));
  }

  lemma GetIsOfObject(v: Json, key: bytes)
    ensures Get(v, key).Some? ==> v.Obj?
  {
  }

  lemma EndOfPath(v: Json, text: bytes)
    ensures EqualExceptAt(v, Str(text), [], Str(text))
  {
  }

  // ---- Where each emitted event comes from ----

  function IsChunk(e: Event, key: ChunkKey): bool {
    ChunkOf(e).Some? && ChunkOf(e).value.key == key
  }

  /** The texts of a stream's chunks, one after another. */
  function Joined(events: seq<Event>, key: ChunkKey): bytes {
    if |events| == 0 then []
    else
      var last := events[|events| - 1];
      Joined(events[..|events| - 1], key) + if IsChunk(last, key) then ChunkOf(last).value.text else []
  }

  /** What is waiting stands for the chunks of its stream from event `i` on. */
  ghost predicate StandsFor(events: seq<Event>, p: Pending, i: nat) {
    && i < |events| && IsChunk(events[i], p.key)
    && p.text == Joined(events[i..], p.key)
    && LastChunk(events[i..], p.key).Some?
    && var last := LastChunk(events[i..], p.key).value;
       p.event == events[i].(number := last.number, timestamp := last.timestamp)
  }

  /**
   `out` is the chunks of one stream among `slice` in one: the first of them, with the number and timestamp
   of the last, and all their text where the first has its own.
   */
  ghost predicate Merges(slice: seq<Event>, out: Event) {
    && |slice| > 0 && ChunkOf(slice[0]).Some?
    && var key := ChunkOf(slice[0]).value.key;
       && LastChunk(slice, key).Some?
       && var last := LastChunk(slice, key).value;
          && out == slice[0].(number := last.number, timestamp := last.timestamp, payload := out.payload)
          && EqualExceptAt(slice[0].payload, out.payload, TEXT_PATH, Str(Joined(slice, key)))
  }

  ghost predicate MergesAt(events: seq<Event>, out: Event, i: nat, n: nat) {
    i <= n <= |events| && Merges(events[i..n], out)
  }

  /** An emitted event is an ingested one that is no chunk, or chunks in one. */
  ghost predicate ComesFrom(events: seq<Event>, out: Event) {
    (out in events && ChunkOf(out).None?) || exists i: nat, n: nat :: MergesAt(events, out, i, n)
  }

  lemma EmittedMerges(events: seq<Event>, p: Pending, i: nat)
    requires StandsFor(events, p, i)
    ensures ComesFrom(events, Emit(p))
  {
    hide ChunkOf, SetChunkText, EqualExceptAt, LastChunk, Joined;
    RestampKeepsChunk(events[i], p.event.number, p.event.timestamp);
    OnlyTextChanges(p.event, p.text);
    assert events[i..|events|] == events[i..] && events[i..][0] == events[i];
    assert MergesAt(events, Emit(p), i, |events|);
  }

  lemma ComesFromLonger(events: seq<Event>, e: Event, out: Event)
    requires ComesFrom(events, out)
    ensures ComesFrom(events + [e], out)
  {
    hide Merges, ChunkOf;
    if exists i: nat, n: nat :: MergesAt(events, out, i, n) {
      var i: nat, n: nat :| MergesAt(events, out, i, n);
      assert (events + [e])[i..n] == events[i..n];
      assert MergesAt(events + [e], out, i, n);
    }
  }

  lemma StandsLonger(events: seq<Event>, e: Event, p: Pending, i: nat)
    requires StandsFor(events, p, i) && !IsChunk(e, p.key)
    ensures StandsFor(events + [e], p, i)
  {
    hide ChunkOf;
    assert (events + [e])[i..] == events[i..] + [e];
    assert (events[i..] + [e])[..|events[i..]|] == events[i..];
  }

  lemma StandsJoined(events: seq<Event>, e: Event, p: Pending, i: nat)
    requires StandsFor(events, p, i) && IsChunk(e, p.key)
    ensures StandsFor(events + [e], Append(p, e, ChunkOf(e).value.text), i)
  {
    hide ChunkOf;
    assert (events + [e])[i..] == events[i..] + [e];
    assert (events[i..] + [e])[..|events[i..]|] == events[i..];
  }

  lemma StandsAlone(events: seq<Event>, e: Event)
    requires ChunkOf(e).Some?
    ensures var c := ChunkOf(e).value; StandsFor(events + [e], Pending(c.key, e, c.text), |events|)
  {
    hide ChunkOf;
    var c := ChunkOf(e).value;
    assert (events + [e])[|events|..] == [e] && [e][..0] == [] && (events + [e])[|events|] == e;
    assert Joined([e], c.key) == c.text && LastChunk([e], c.key) == Some(e);
  }

  ghost predicate Stands(events: seq<Event>, p: Pending) {
    exists i: nat :: StandsFor(events, p, i)
  }

  /** Every waiting entry stands for some stretch of chunks. */
  ghost predicate AllStand(events: seq<Event>, pending: seq<Pending>) {
    forall k :: 0 <= k < |pending| ==> Stands(events, pending[k])
  }

  lemma FlushedComesFrom(events: seq<Event>, pending: seq<Pending>)
    requires AllStand(events, pending)
    ensures forall k :: 0 <= k < |pending| ==> ComesFrom(events, Flushed(pending)[k])
  {
    hide ChunkOf, SetChunkText, StandsFor, ComesFrom;
    forall k | 0 <= k < |pending| ensures ComesFrom(events, Flushed(pending)[k]) {
      var i: nat :| StandsFor(events, pending[k], i);
      EmittedMerges(events, pending[k], i);
    }
  }

  lemma IngestStands(events: seq<Event>, pending: seq<Pending>, e: Event)
    requires AllStand(events, pending) && Coalescer.Inv(pending)
    ensures AllStand(events + [e], Ingested(pending, e).pending)
  {
    hide ChunkOf, SetChunkText, Stands, Flushed, Append;
    if ChunkOf(e).Some? {
      var c := ChunkOf(e).value;
      NewStands(events, e);
      forall k | 0 <= k < |pending|
        ensures pending[k].key == c.key ==> Stands(events + [e], Append(pending[k], e, c.text))
        ensures pending[k].key != c.key ==> Stands(events + [e], pending[k])
      {
        OldStands(events, pending[k], e);
      }
    }
  }

  lemma NewStands(events: seq<Event>, e: Event)
    requires ChunkOf(e).Some?
    ensures var c := ChunkOf(e).value; Stands(events + [e], Pending(c.key, e, c.text))
  {
    hide ChunkOf, StandsFor;
    StandsAlone(events, e);
  }

  lemma OldStands(events: seq<Event>, p: Pending, e: Event)
    requires Stands(events, p) && ChunkOf(e).Some?
    ensures p.key == ChunkOf(e).value.key ==> Stands(events + [e], Append(p, e, ChunkOf(e).value.text))
    ensures p.key != ChunkOf(e).value.key ==> Stands(events + [e], p)
  {
    hide ChunkOf, StandsFor;
    var i: nat :| StandsFor(events, p, i);
    if p.key == ChunkOf(e).value.key {
      StandsJoined(events, e, p, i);
    } else {
      StandsLonger(events, e, p, i);
    }
  }

  /**
   In every run whatever the coalescer has emitted is an ingested event that is no chunk, unchanged, or is one
   stream's chunks in one: kind, ids, start time and payload of the first, number and timestamp of the last,
   and their joined text in place of the first one's text, the one thing in the payload that differs.
   */
  lemma {:induction false} EmittedIsMadeOf(actions: seq<Action>, k: nat)
    requires k < |Run(actions).out|
    ensures ComesFrom(EventsIn(actions), Run(actions).out[k])
  {
    hide ComesFrom, Ingested, Flushed, StandsFor, Merges;
    var init, a := actions[..|actions| - 1], actions[|actions| - 1];
    var s, events := Run(init), EventsIn(init);
    WaitingStands(init);
    FlushedComesFrom(events, s.pending);
    assert a.FlushTick? ==> EventsIn(actions) == events;
    if k < |s.out| {
      EmittedIsMadeOf(init, k);
      if a.IngestEvent? {
        ComesFromLonger(events, a.event, s.out[k]);
      }
    } else if a.IngestEvent? {
      assert Run(actions).out[k] == Ingested(s.pending, a.event).out[k - |s.out|];
      IngestedComesFrom(events, s.pending, a.event, k - |s.out|);
    }
  }

  lemma IngestedComesFrom(events: seq<Event>, pending: seq<Pending>, e: Event, k: nat)
    requires AllStand(events, pending) && k < |Ingested(pending, e).out|
    ensures ComesFrom(events + [e], Ingested(pending, e).out[k])
  {
    hide ChunkOf, SetChunkText, StandsFor, Merges;
    FlushedComesFrom(events, pending);
    if k < |pending| {
      ComesFromLonger(events, e, Flushed(pending)[k]);
    }
  }

  lemma {:induction false} WaitingStands(actions: seq<Action>)
    ensures AllStand(EventsIn(actions), Run(actions).pending)
  {
    hide Ingested, Flushed, StandsFor;
    if |actions| > 0 {
      var init, a := actions[..|actions| - 1], actions[|actions| - 1];
      WaitingStands(init);
      RunInv(init);
      if a.IngestEvent? {
        IngestStands(EventsIn(init), Run(init).pending, a.event);
      }
    }
  }

  // ---- When anything is emitted ----

  /** `p` waits for the stream of `c`. */
  predicate WaitsFor(pending: seq<Pending>, c: Chunk, i: nat) {
    i < |pending| && pending[i].key == c.key
  }

  /**
   In every run a chunk is held back, and nothing emitted, unless joining it to what waits for its stream would
   reach 60000 bytes; then everything waiting is emitted, and so it is, in order and before it, by an event
   that is no chunk. A chunk is joined to its own stream's entry and otherwise gets one of its own.
   */
  lemma IngestEmitsIff(actions: seq<Action>, e: Event)
    ensures var s, s' := Run(actions), Run(actions + [IngestEvent(e)]);
      var n := |s.pending|;
      match ChunkOf(e)
      case None => s'.out == s.out + Flushed(s.pending) + [e] && s'.pending == []
      case Some(c) =>
        if exists i: nat :: WaitsFor(s.pending, c, i) && |s.pending[i].text| + |c.text| >= 60_000 then
          s'.out == s.out + Flushed(s.pending) && s'.pending == [Pending(c.key, e, c.text)]
        else
          && s'.out == s.out
          && (if exists i: nat :: WaitsFor(s.pending, c, i) then
                exists i: nat :: WaitsFor(s.pending, c, i)
                  && s'.pending == s.pending[i := Append(s.pending[i], e, c.text)]
              else s'.pending == s.pending + [Pending(c.key, e, c.text)])
  {
    hide ChunkOf, Flushed, Append;
    assert (actions + [IngestEvent(e)])[..|actions|] == actions;
    RunInv(actions);
    var s := Run(actions);
    if ChunkOf(e).Some? {
      var c := ChunkOf(e).value;
      var j := EntryFor(s.pending, c.key);
      assert forall i: nat :: WaitsFor(s.pending, c, i) ==> i == j;
      if j < |s.pending| {
        assert WaitsFor(s.pending, c, j);
      }
    }
  }
}
