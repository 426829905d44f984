/** What a published frame says to whoever reads it by name. */
module TelemetryFrames {
  import opened Bytes
  import opened Decimal
  import opened Json
  import opened Events
  import opened Trimmer

  // ---- The fields of a frame ----

  const NAMES: seq<string> :=
    ["seq", "timestamp", "kind", "agentIndex", "channelId", "sessionId", "turnId", "startedAt", "payload", "elided",
     "originalBytes"]

  /** Length and second byte tell the names apart. */
  lemma NamesDiffer(i: nat, j: nat)
    requires i < |NAMES| && j < |NAMES| && i != j
    ensures Ascii(NAMES[i]) != Ascii(NAMES[j])
  {
    hide NAMES;
    SecondLetters(i, j);
    if |NAMES[i]| == |NAMES[j]| {
      assert Ascii(NAMES[i])[1] == NAMES[i][1] as byte && Ascii(NAMES[j])[1] == NAMES[j][1] as byte;
    }
  }

  lemma SecondLetters(i: nat, j: nat)
    requires i < |NAMES| && j < |NAMES| && i != j
    ensures |NAMES[i]| > 1 && |NAMES[j]| > 1
    ensures |NAMES[i]| == |NAMES[j]| ==> NAMES[i][1] != NAMES[j][1]
    ensures NAMES[i][1] as int < 128 && NAMES[j][1] as int < 128
  {
  }

  lemma FieldIsFound(v: Json, i: nat)
    requires v.Obj? && i < |v.slots| && v.slots[i].key.Some?
    requires forall j :: 0 <= j < i ==> v.slots[j].key != v.slots[i].key
    ensures Get(v, v.slots[i].key.value) == Some(v.slots[i].value)
  {
  }

  /** All names but the one of a skipped field differ, so each slot is found under its own. */
  lemma SlotIsFound(v: Json, names: seq<nat>, i: nat)
    requires v.Obj? && |v.slots| == |names| && i < |names|
    requires forall j :: 0 <= j < |names| ==> names[j] < |NAMES| && v.slots[j].key == Some(Ascii(NAMES[names[j]]))
    requires forall j, k :: 0 <= j < k < |names| ==> names[j] != names[k]
    ensures Get(v, Ascii(NAMES[names[i]])) == Some(v.slots[i].value)
  {
    hide NAMES, Get;
    forall j | 0 <= j < i ensures v.slots[j].key != v.slots[i].key {
      NamesDiffer(names[j], names[i]);
    }
    FieldIsFound(v, i);
  }

  lemma NameIsNotFound(v: Json, names: seq<nat>, n: nat)
    requires v.Obj? && |v.slots| == |names| && n < |NAMES|
    requires forall j :: 0 <= j < |names| ==>
      names[j] < |NAMES| && names[j] != n && v.slots[j].key == Some(Ascii(NAMES[names[j]]))
    ensures Get(v, Ascii(NAMES[n])) == None
  {
    hide NAMES;
    forall j | 0 <= j < |names| ensures v.slots[j].key != Some(Ascii(NAMES[n])) {
      NamesDiffer(names[j], n);
    }
  }

  function TextOrNull(t: Option<bytes>): Json {
    if t.Some? then Str(t.value) else Null
  }

  ghost predicate ReadsAs(j: Json, name: string, v: Json) {
    Get(j, Ascii(name)) == Some(v)
  }

  /** Which names a frame has, in order. */
  function NamesOf(e: Event): seq<nat> {
    [0, 1, 2, 3, 4, 5, 6] + (if e.startedAt.Some? then [7] else []) + [8]
  }

  lemma NamesFit(e: Event)
    ensures var names, slots := NamesOf(e), EventJson(e).slots;
      && |slots| == |names|
      && (forall j :: 0 <= j < |names| ==> names[j] < |NAMES| && slots[j].key == Some(Ascii(NAMES[names[j]])))
      && (forall j, k :: 0 <= j < k < |names| ==> names[j] != names[k])
  {
    hide Digits, Ascii;
  }

  /** Every field of the event stands under its own name, and a start time only when there is one. */
  lemma FrameReadsBack(e: Event)
    ensures var j := EventJson(e);
      && ReadsAs(j, "seq", Number(Digits(e.number)))
      && ReadsAs(j, "timestamp", Str(e.timestamp))
      && ReadsAs(j, "kind", Str(e.kind))
      && ReadsAs(j, "agentIndex", if e.agentIndex.Some? then Number(Digits(e.agentIndex.value)) else Null)
      && ReadsAs(j, "channelId", TextOrNull(e.channelId))
      && ReadsAs(j, "sessionId", TextOrNull(e.sessionId))
      && ReadsAs(j, "turnId", TextOrNull(e.turnId))
      && (if e.startedAt.Some? then ReadsAs(j, "startedAt", Str(e.startedAt.value))
          else Get(j, Ascii("startedAt")) == None)
      && ReadsAs(j, "payload", e.payload)
  {
    hide Get, Digits, Ascii, NAMES, Envelope;
    NamesFit(e);
    NamesAre();
    ValuesFit(e);
    var j, names := EventJson(e), NamesOf(e);
    SlotIsFound(j, names, 0);
    SlotIsFound(j, names, 1);
    SlotIsFound(j, names, 2);
    SlotIsFound(j, names, 3);
    SlotIsFound(j, names, 4);
    SlotIsFound(j, names, 5);
    SlotIsFound(j, names, 6);
    SlotIsFound(j, names, |names| - 1);
    if e.startedAt.Some? {
      SlotIsFound(j, names, 7);
    } else {
      NameIsNotFound(j, names, 7);
    }
  }

  /** The values stand in the same order. */
  lemma ValuesFit(e: Event)
    ensures var s := EventJson(e).slots; var n := |s|;
      && n == |NamesOf(e)| && n >= 8
      && s[0].value == Number(Digits(e.number)) && s[1].value == Str(e.timestamp) && s[2].value == Str(e.kind)
      && s[3].value == (if e.agentIndex.Some? then Number(Digits(e.agentIndex.value)) else Null)
      && s[4].value == TextOrNull(e.channelId) && s[5].value == TextOrNull(e.sessionId)
      && s[6].value == TextOrNull(e.turnId)
      && (e.startedAt.Some? ==> s[7].value == Str(e.startedAt.value))
      && s[n - 1].value == e.payload
  {
    hide Digits, Ascii;
  }

  lemma NamesAre()
    ensures |NAMES| == 11 && NAMES[0] == "seq" && NAMES[1] == "timestamp" && NAMES[2] == "kind"
    ensures NAMES[3] == "agentIndex" && NAMES[4] == "channelId" && NAMES[5] == "sessionId" && NAMES[6] == "turnId"
    ensures NAMES[7] == "startedAt" && NAMES[8] == "payload"
  {
  }

  // ---- The stub and the marker ----

  /** The stub says what kind of payload was left out and how long it was, and nothing else. */
  lemma StubSays(e: Event)
    requires Trim(e).stubbed
    ensures var p := Trim(e).event.payload;
      && p.Obj? && |p.slots| == 2
      && ReadsAs(p, "elided", Str(e.kind + Ascii(" payload too large")))
      && Get(p, Ascii("originalBytes")).Some?
      && Get(p, Ascii("originalBytes")).value.Number? && AllDigits(Get(p, Ascii("originalBytes")).value.numeral)
      && ValueOf(Get(p, Ascii("originalBytes")).value.numeral) == |Serialize(e.payload)|
  {
    hide Get, Ascii, Trim, Serialize;
    TrimFitsIff(e);
    var p := Trim(e).event.payload;
    var names: seq<nat> := [9, 10];
    assert NAMES[9] == "elided" && NAMES[10] == "originalBytes";
    SlotIsFound(p, names, 0);
    SlotIsFound(p, names, 1);
    ValueOfDigits(|Serialize(e.payload)|);
  }

  /** A marker says, between two ellipses, how many bytes were removed, in decimal digits. */
  lemma MarkerSays(removed: nat)
    ensures exists d: bytes ::
      && AllDigits(d) && ValueOf(d) == removed
      && Marker(removed) == [0xE2, 0x80, 0xA6] + (Ascii("[elided ") + d + Ascii(" bytes]")) + [0xE2, 0x80, 0xA6]
  {
    hide Ascii;
    ValueOfDigits(removed);
    assert AllDigits(Digits(removed));
  }

  /** A leaf is elided exactly when that makes it shorter. */
  lemma ShrinksIffShorter(s: bytes)
    ensures LeafShrinks(s) <==> |Elide(s)| < |s|
  {
  }

  /** The budget, and the most that is retained of each end of a leaf. */
  lemma Limits(e: Event, s: bytes)
    ensures Fits(e) <==> |Serialize(EventJson(e))| <= 65_535
    ensures HeadEnd(s) <= 3_000 && |s| - TailStart(s) <= 3_000
  {
  }
}
