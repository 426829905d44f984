/**
 Trimming an oversized telemetry frame to the plaintext budget: the middle of the longest string
 leaf that still shrinks is replaced by a marker, again and again, until the serialized frame fits
 or no leaf shrinks, in which case a stub replaces the payload.
 */
module Trimmer {
  import opened Bytes
  import opened Seqs
  import opened Decimal
  import opened Utf8
  import opened Json
  import opened Events

  const MAX_PLAINTEXT_LEN: nat := 65_535
  const RETAIN_BYTES: nat := 3_000

  // ---- Eliding one leaf ----

  const ELLIPSIS: bytes := [0xE2, 0x80, 0xA6]

  function Marker(removed: nat): (m: bytes)
    ensures |m| == 21 + |Digits(removed)|
    ensures StartsWith(m, ELLIPSIS) && EndsWith(m, ELLIPSIS)
  {
    ELLIPSIS + MarkerCore(removed) + ELLIPSIS
  }

  function MarkerCore(removed: nat): (m: bytes)
    ensures |m| == 15 + |Digits(removed)|
  {
    Ascii("[elided ") + Digits(removed) + Ascii(" bytes]")
  }

  function HeadEnd(s: bytes): (h: nat)
    ensures h <= |s| && IsBoundary(s, h)
  {
    FloorBoundary(s, Min(RETAIN_BYTES, |s|))
  }

  function TailStart(s: bytes): (t: nat)
    ensures HeadEnd(s) <= t <= |s| && IsBoundary(s, t)
  {
    var t := CeilBoundary(s, if |s| > RETAIN_BYTES then |s| - RETAIN_BYTES else 0);
    if t < HeadEnd(s) then HeadEnd(s) else t
  }

  function Removed(s: bytes): nat {
    TailStart(s) - HeadEnd(s)
  }

  predicate LeafShrinks(s: bytes) {
    TailStart(s) > HeadEnd(s)
    && HeadEnd(s) + |Marker(Removed(s))| + (|s| - TailStart(s)) < |s|
  }

  function Elide(s: bytes): bytes {
    s[..HeadEnd(s)] + Marker(Removed(s)) + s[TailStart(s)..]
  }

  /** The two byte offsets, computed with the scanning loops. */
  method ElisionBoundaries(s: bytes) returns (headEnd: nat, tailStart: nat)
    ensures headEnd == HeadEnd(s) && tailStart == TailStart(s)
  {
    headEnd := FloorCharBoundary(s, Min(RETAIN_BYTES, |s|));
    tailStart := CeilCharBoundary(s, if |s| > RETAIN_BYTES then |s| - RETAIN_BYTES else 0);
    if tailStart < headEnd {
      tailStart := headEnd;
    }
  }

  // ---- Serialized length: the marker is plain, so raw shrinking is serialized shrinking ----

  /** Bytes that need no escape and are ASCII. */
  predicate IsPlainAscii(s: bytes) {
    Escape(s) == s && forall i :: 0 <= i < |s| ==> s[i] < 0x80
  }

  lemma PlainAscii(s: string)
    requires forall i :: 0 <= i < |s| ==> ' ' <= s[i] < 128 as char && s[i] != '\"' && s[i] != '\\'
    ensures IsPlainAscii(Ascii(s))
  {
    forall i | 0 <= i < |s| ensures IsPlain(Ascii(s)[i]) && Ascii(s)[i] < 0x80 {
      assert s[i] as int % 128 == s[i] as int;
    }
    EscapePlain(Ascii(s));
  }

  lemma PlainDigits(n: nat)
    ensures IsPlainAscii(Digits(n))
  {
    forall i | 0 <= i < |Digits(n)| ensures IsPlain(Digits(n)[i]) {
      assert IsDigit(Digits(n)[i]);
    }
    EscapePlain(Digits(n));
  }

  lemma PlainConcat(a: bytes, b: bytes)
    requires IsPlainAscii(a) && IsPlainAscii(b)
    ensures IsPlainAscii(a + b)
  {
    EscapeConcat(a, b);
  }

  lemma CoreIsPlain(removed: nat)
    ensures IsPlainAscii(MarkerCore(removed))
  {
    PlainAscii("[elided ");
    PlainAscii(" bytes]");
    PlainDigits(removed);
    PlainConcat(Ascii("[elided "), Digits(removed));
    PlainConcat(Ascii("[elided ") + Digits(removed), Ascii(" bytes]"));
  }

  lemma EllipsisIsPlain()
    ensures Escape(ELLIPSIS) == ELLIPSIS && Valid(ELLIPSIS)
  {
    assert CharWidth(ELLIPSIS) == 3;
    EscapePlain(ELLIPSIS);
  }

  lemma MarkerIsPlain(removed: nat)
    ensures Escape(Marker(removed)) == Marker(removed)
    ensures Valid(Marker(removed))
  {
    var core := MarkerCore(removed);
    CoreIsPlain(removed);
    EllipsisIsPlain();
    AsciiIsValid(core);
    ValidConcat(ELLIPSIS, core);
    ValidConcat(ELLIPSIS + core, ELLIPSIS);
    EscapeConcat(ELLIPSIS, core);
    EscapeConcat(ELLIPSIS + core, ELLIPSIS);
  }

  lemma ElideShortensSerialized(s: bytes)
    requires LeafShrinks(s)
    ensures |Serialize(Str(Elide(s)))| < |Serialize(Str(s))|
  {
    hide Escape, Marker, HeadEnd, TailStart;
    var h, t := HeadEnd(s), TailStart(s);
    var head, mid, tail := s[..h], s[h..t], s[t..];
    var m := Marker(Removed(s));
    assert s == head + mid + tail && Elide(s) == head + m + tail;
    EscapeConcat(head, mid);
    EscapeConcat(head + mid, tail);
    EscapeConcat(head, m);
    EscapeConcat(head + m, tail);
    MarkerIsPlain(Removed(s));
  }

  // ---- Leaves of a tree, named by paths ----

  type Path = seq<nat>

  predicate HasPath(v: Json, p: Path)
    decreases p
  {
    |p| == 0 || ((v.Arr? || v.Obj?) && p[0] < |v.slots| && HasPath(v.slots[p[0]].value, p[1..]))
  }

  function At(v: Json, p: Path): Json
    requires HasPath(v, p)
    decreases p
  {
    if |p| == 0 then v else At(v.slots[p[0]].value, p[1..])
  }

  /** The tree after writing `x` through a mutable reference to the value at `p`. */
  function Put(v: Json, p: Path, x: Json): (r: Json)
    requires HasPath(v, p)
    ensures |p| > 0 ==> v.Arr? == r.Arr? && v.Obj? == r.Obj?
    decreases p
  {
    if |p| == 0 then x
    else
      var i := p[0];
      v.(slots := v.slots[i := v.slots[i].(value := Put(v.slots[i].value, p[1..], x))])
  }

  /** A string leaf that eliding would shorten. */
  predicate IsShrinkableLeaf(v: Json) {
    v.Str? && LeafShrinks(v.text)
  }

  function MaxOpt(a: Option<nat>, b: Option<nat>): Option<nat> {
    if a.None? then b else if b.None? then a else if a.value < b.value then b else a
  }

  function MaxShrinkableLen(v: Json): Option<nat>
    decreases v
  {
    match v
    case Str(s) => if LeafShrinks(s) then Some(|s|) else None
    case Arr(slots) => MaxOverSlots(slots)
    case Obj(slots) => MaxOverSlots(slots)
    case _ => None
  }

  function MaxOverSlots(slots: seq<Slot>): Option<nat>
    decreases slots
  {
    if |slots| == 0 then None
    else MaxOpt(MaxInSlot(slots[0]), MaxOverSlots(slots[1..]))
  }

  function MaxInSlot(slot: Slot): Option<nat>
    decreases slot
  {
    MaxShrinkableLen(slot.value)
  }

  function FindLeafWithLen(v: Json, target: nat): Option<Path>
    decreases v, 0
  {
    match v
    case Str(s) => if |s| == target && LeafShrinks(s) then Some([]) else None
    case Arr(slots) => FindInSlots(slots, 0, target)
    case Obj(slots) => FindInSlots(slots, 0, target)
    case _ => None
  }

  function FindInSlots(slots: seq<Slot>, i: nat, target: nat): Option<Path>
    requires i <= |slots|
    decreases slots, |slots| - i
  {
    if i == |slots| then None
    else
      var here := FindInSlot(slots[i], target);
      if here.Some? then Some([i] + here.value) else FindInSlots(slots, i + 1, target)
  }

  function FindInSlot(slot: Slot, target: nat): Option<Path>
    decreases slot, 0
  {
    FindLeafWithLen(slot.value, target)
  }

  function LargestShrinkableLeaf(v: Json): Option<Path> {
    var best := MaxShrinkableLen(v);
    if best.None? then None else FindLeafWithLen(v, best.value)
  }

  // ---- The two-pass search ----

  lemma {:induction false} SlotBelowMax(slots: seq<Slot>, i: nat)
    requires i < |slots| && MaxShrinkableLen(slots[i].value).Some?
    ensures MaxOverSlots(slots).Some?
    ensures MaxShrinkableLen(slots[i].value).value <= MaxOverSlots(slots).value
  {
    if i > 0 {
      assert slots[1..][i - 1] == slots[i];
      SlotBelowMax(slots[1..], i - 1);
    }
  }

  lemma {:induction false} LeafBelowMax(v: Json, p: Path)
    requires ShrinksAt(v, p)
    ensures MaxShrinkableLen(v).Some? && |At(v, p).text| <= MaxShrinkableLen(v).value
    decreases p
  {
    if |p| > 0 {
      LeafBelowMax(v.slots[p[0]].value, p[1..]);
      SlotBelowMax(v.slots, p[0]);
    }
  }

  /** `p` names a string leaf that eliding would shorten. */
  predicate ShrinksAt(v: Json, p: Path) {
    HasPath(v, p) && IsShrinkableLeaf(At(v, p))
  }

  /** `p` names such a leaf of exactly `n` bytes. */
  predicate IsShrinkableAt(v: Json, p: Path, n: nat) {
    ShrinksAt(v, p) && |At(v, p).text| == n
  }

  lemma {:induction false} MaxIsAttained(v: Json) returns (p: Path)
    requires MaxShrinkableLen(v).Some?
    ensures IsShrinkableAt(v, p, MaxShrinkableLen(v).value)
    decreases v, 0
  {
    if v.Str? {
      p := [];
    } else {
      var i: nat;
      i, p := SlotMaxIsAttained(v.slots);
      p := [i] + p;
      assert p[1..] == p[1..];
    }
  }

  lemma {:induction false} SlotMaxIsAttained(slots: seq<Slot>) returns (i: nat, p: Path)
    requires MaxOverSlots(slots).Some?
    ensures i < |slots| && IsShrinkableAt(slots[i].value, p, MaxOverSlots(slots).value)
    decreases slots, 1
  {
    if MaxInSlot(slots[0]) == MaxOverSlots(slots) {
      i := 0;
      p := OneSlotMaxIsAttained(slots[0]);
    } else {
      i, p := SlotMaxIsAttained(slots[1..]);
      i := i + 1;
    }
  }

  lemma {:induction false} OneSlotMaxIsAttained(slot: Slot) returns (p: Path)
    requires MaxInSlot(slot).Some?
    ensures IsShrinkableAt(slot.value, p, MaxInSlot(slot).value)
    decreases slot, 0
  {
    p := MaxIsAttained(slot.value);
  }

  lemma {:induction false} FindIsSound(v: Json, n: nat)
    requires FindLeafWithLen(v, n).Some?
    ensures IsShrinkableAt(v, FindLeafWithLen(v, n).value, n)
    decreases v, 0
  {
    if !v.Str? {
      FindInSlotsIsSound(v.slots, 0, n);
    }
  }

  lemma {:induction false} FindInSlotsIsSound(slots: seq<Slot>, i: nat, n: nat)
    requires i <= |slots| && FindInSlots(slots, i, n).Some?
    ensures var p := FindInSlots(slots, i, n).value;
      |p| > 0 && i <= p[0] < |slots| && IsShrinkableAt(slots[p[0]].value, p[1..], n)
    decreases slots, |slots| - i
  {
    if FindInSlot(slots[i], n).Some? {
      FindInSlotIsSound(slots[i], n);
    } else {
      FindInSlotsIsSound(slots, i + 1, n);
    }
  }

  lemma {:induction false} FindInSlotIsSound(slot: Slot, n: nat)
    requires FindInSlot(slot, n).Some?
    ensures IsShrinkableAt(slot.value, FindInSlot(slot, n).value, n)
    decreases slot, 0
  {
    FindIsSound(slot.value, n);
  }

  lemma {:induction false} FindIsComplete(v: Json, p: Path, n: nat)
    requires IsShrinkableAt(v, p, n)
    ensures FindLeafWithLen(v, n).Some?
    decreases p
  {
    if |p| > 0 {
      FindIsComplete(v.slots[p[0]].value, p[1..], n);
      FindInSlotsIsComplete(v.slots, 0, p[0], n);
    }
  }

  lemma {:induction false} FindInSlotsIsComplete(slots: seq<Slot>, i: nat, k: nat, n: nat)
    requires i <= k < |slots| && FindInSlot(slots[k], n).Some?
    ensures FindInSlots(slots, i, n).Some?
    decreases k - i
  {
    if i < k {
      FindInSlotsIsComplete(slots, i + 1, k, n);
    }
  }

  /**
   The search returns a leaf whenever one shrinks; the leaf it returns shrinks, and no leaf that
   shrinks is longer.
   */
  lemma SearchFindsALongestShrinkableLeaf(v: Json)
    ensures LargestShrinkableLeaf(v).Some? <==> exists p :: ShrinksAt(v, p)
    ensures LargestShrinkableLeaf(v).Some? ==>
      var p := LargestShrinkableLeaf(v).value;
      ShrinksAt(v, p) && forall q :: ShrinksAt(v, q) ==> |At(v, q).text| <= |At(v, p).text|
  {
    forall q | ShrinksAt(v, q)
      ensures MaxShrinkableLen(v).Some? && |At(v, q).text| <= MaxShrinkableLen(v).value
    {
      LeafBelowMax(v, q);
    }
    if MaxShrinkableLen(v).Some? {
      var p := MaxIsAttained(v);
      FindIsComplete(v, p, MaxShrinkableLen(v).value);
      FindIsSound(v, MaxShrinkableLen(v).value);
      assert ShrinksAt(v, LargestShrinkableLeaf(v).value);
    }
  }

  // ---- Serialized length after writing one leaf ----

  lemma {:induction false} SlotUpdateLength(slots: seq<Slot>, i: nat, slot: Slot)
    requires i < |slots|
    ensures |SerializeSlots(slots[i := slot])| + |SerializeSlot(slots[i])|
         == |SerializeSlots(slots)| + |SerializeSlot(slot)|
  {
    var updated := slots[i := slot];
    if i == 0 {
      assert updated[1..] == slots[1..];
    } else {
      SlotUpdateLength(slots[1..], i - 1, slot);
      assert updated[1..] == slots[1..][i - 1 := slot];
    }
  }

  lemma {:induction false} PutLength(v: Json, p: Path, x: Json)
    requires HasPath(v, p)
    ensures |Serialize(Put(v, p, x))| + |Serialize(At(v, p))| == |Serialize(v)| + |Serialize(x)|
    decreases p
  {
    if |p| > 0 {
      var i := p[0];
      var child := v.slots[i];
      PutLength(child.value, p[1..], x);
      SlotUpdateLength(v.slots, i, child.(value := Put(child.value, p[1..], x)));
    }
  }

  lemma EnvelopeIsKept(e: Event, payload: Json)
    ensures Envelope(e.(payload := payload)) == Envelope(e)
  {
  }

  lemma PayloadLength(e: Event, payload: Json)
    ensures SerializedLen(e.(payload := payload)) + |Serialize(e.payload)|
         == SerializedLen(e) + |Serialize(payload)|
  {
    hide SerializeSlots, Envelope;
    EnvelopeIsKept(e, payload);
    var slots, last := EventJson(e).slots, |Envelope(e)|;
    SlotUpdateLength(slots, last, Field("payload", payload));
    assert EventJson(e.(payload := payload)).slots == slots[last := Field("payload", payload)];
  }

  // ---- The trimming loop ----

  function ElideAt(v: Json, p: Path): Json
    requires HasPath(v, p) && At(v, p).Str?
  {
    Put(v, p, Str(Elide(At(v, p).text)))
  }

  /** One pass of the loop: the payload after eliding the leaf the search returns. */
  function ElideLargest(v: Json): (r: Json)
    requires LargestShrinkableLeaf(v).Some?
    ensures |Serialize(r)| < |Serialize(v)|
  {
    SearchFindsALongestShrinkableLeaf(v);
    var p := LargestShrinkableLeaf(v).value;
    ElideShortensSerialized(At(v, p).text);
    PutLength(v, p, Str(Elide(At(v, p).text)));
    ElideAt(v, p)
  }

  predicate Fits(e: Event) {
    SerializedLen(e) <= MAX_PLAINTEXT_LEN
  }

  function Stub(kind: bytes, originalBytes: nat): Json {
    Obj([ Field("elided", Str(kind + Ascii(" payload too large"))),
          Field("originalBytes", Number(Digits(originalBytes))) ])
  }

  /** The trimmed event, whether the stub replaced its payload, and how many leaves were elided. */
  datatype Trimmed = Trimmed(event: Event, stubbed: bool, elisions: nat)

  function TrimLoop(e: Event, originalBytes: nat): Trimmed
    decreases |Serialize(e.payload)|
  {
    if LargestShrinkableLeaf(e.payload).None? then
      Trimmed(e.(payload := Stub(e.kind, originalBytes)), true, 0)
    else
      var next := e.(payload := ElideLargest(e.payload));
      if Fits(next) then Trimmed(next, false, 1)
      else
        var rest := TrimLoop(next, originalBytes);
        rest.(elisions := rest.elisions + 1)
  }

  function Trim(e: Event): Trimmed {
    if Fits(e) then Trimmed(e, false, 0) else TrimLoop(e, |Serialize(e.payload)|)
  }

  method FitObserverEventToBudget(input: Event) returns (event: Event)
    ensures event == Trim(input).event
  {
    event := input;
    if Fits(event) {
      return;
    }
    var originalBytes := |Serialize(event.payload)|;
    var leaf := LargestShrinkableLeaf(event.payload);
    while leaf.Some?
      invariant leaf == LargestShrinkableLeaf(event.payload)
      invariant TrimLoop(event, originalBytes).event == Trim(input).event
      decreases |Serialize(event.payload)|
    {
      event := event.(payload := ElideLargest(event.payload));
      if Fits(event) {
        return;
      }
      leaf := LargestShrinkableLeaf(event.payload);
    }
    event := event.(payload := Stub(event.kind, originalBytes));
  }

  /** The frame the loop falls back to. */
  function StubFrame(e: Event): Event {
    e.(payload := Stub(e.kind, |Serialize(e.payload)|))
  }

  lemma {:induction false} TrimLoopOutcome(e: Event, originalBytes: nat)
    requires !Fits(e)
    ensures var t := TrimLoop(e, originalBytes);
      && t.event.(payload := e.payload) == e
      && (t.stubbed ==> t.event == e.(payload := Stub(e.kind, originalBytes)))
      && (!t.stubbed ==> Fits(t.event))
    decreases |Serialize(e.payload)|
  {
    if LargestShrinkableLeaf(e.payload).Some? {
      var next := e.(payload := ElideLargest(e.payload));
      if !Fits(next) {
        TrimLoopOutcome(next, originalBytes);
      }
    }
  }

  // ---- When the result fits ----

  /** A string elided until it no longer shrinks. */
  function Floor(s: bytes): bytes
    decreases |s|
  {
    if LeafShrinks(s) then Floor(Elide(s)) else s
  }

  /** The tree with every string leaf at its floor, whatever the order. */
  function Floored(v: Json): Json
    decreases v, 0
  {
    match v
    case Str(s) => Str(Floor(s))
    case Arr(slots) => Arr(FlooredSlots(slots))
    case Obj(slots) => Obj(FlooredSlots(slots))
    case _ => v
  }

  function FlooredSlots(slots: seq<Slot>): (r: seq<Slot>)
    ensures |r| == |slots|
    decreases slots, 1
  {
    if |slots| == 0 then [] else [FlooredSlot(slots[0])] + FlooredSlots(slots[1..])
  }

  function FlooredSlot(slot: Slot): Slot
    decreases slot, 0
  {
    Slot(slot.key, Floored(slot.value))
  }

  lemma {:induction false} FlooredSlotsUpdate(slots: seq<Slot>, i: nat, slot: Slot)
    requires i < |slots| && FlooredSlot(slot) == FlooredSlot(slots[i])
    ensures FlooredSlots(slots[i := slot]) == FlooredSlots(slots)
  {
    var updated := slots[i := slot];
    if i == 0 {
      assert updated[1..] == slots[1..];
    } else {
      FlooredSlotsUpdate(slots[1..], i - 1, slot);
      assert updated[1..] == slots[1..][i - 1 := slot];
    }
  }

  lemma {:induction false} FlooredAfterPut(v: Json, p: Path, x: Json)
    requires HasPath(v, p) && Floored(x) == Floored(At(v, p))
    ensures Floored(Put(v, p, x)) == Floored(v)
    decreases p
  {
    if |p| > 0 {
      var i := p[0];
      var child := v.slots[i];
      FlooredAfterPut(child.value, p[1..], x);
      FlooredSlotsUpdate(v.slots, i, child.(value := Put(child.value, p[1..], x)));
    }
  }

  lemma {:induction false} NothingShrinks(v: Json)
    requires MaxShrinkableLen(v).None?
    ensures Floored(v) == v
    decreases v, 0
  {
    if v.Arr? || v.Obj? {
      NoSlotShrinks(v.slots);
    }
  }

  lemma {:induction false} NoSlotShrinks(slots: seq<Slot>)
    requires MaxOverSlots(slots).None?
    ensures FlooredSlots(slots) == slots
    decreases slots, 1
  {
    if |slots| > 0 {
      ThisSlotDoesNotShrink(slots[0]);
      NoSlotShrinks(slots[1..]);
    }
  }

  lemma {:induction false} ThisSlotDoesNotShrink(slot: Slot)
    requires MaxInSlot(slot).None?
    ensures FlooredSlot(slot) == slot
    decreases slot, 0
  {
    NothingShrinks(slot.value);
  }

  /** One pass does not change where the passes lead, and when none is left they have arrived. */
  lemma PassKeepsFloored(v: Json)
    ensures LargestShrinkableLeaf(v).Some? ==> Floored(ElideLargest(v)) == Floored(v)
    ensures LargestShrinkableLeaf(v).None? ==> Floored(v) == v
  {
    SearchFindsALongestShrinkableLeaf(v);
    if LargestShrinkableLeaf(v).Some? {
      var p := LargestShrinkableLeaf(v).value;
      FlooredAfterPut(v, p, Str(Elide(At(v, p).text)));
    } else {
      if MaxShrinkableLen(v).Some? {
        var p := MaxIsAttained(v);
      }
      NothingShrinks(v);
    }
  }

  lemma {:induction false} FlooredIsNotLonger(v: Json)
    ensures |Serialize(Floored(v))| <= |Serialize(v)|
    decreases |Serialize(v)|
  {
    PassKeepsFloored(v);
    if LargestShrinkableLeaf(v).Some? {
      FlooredIsNotLonger(ElideLargest(v));
    }
  }

  /** The frame with its whole payload at the floor. */
  function FlooredFrame(e: Event): Event {
    e.(payload := Floored(e.payload))
  }

  lemma FittingFrameFitsFloored(e: Event)
    requires Fits(e)
    ensures Fits(FlooredFrame(e))
  {
    FlooredIsNotLonger(e.payload);
    PayloadLength(e, Floored(e.payload));
  }

  lemma {:induction false} TrimLoopStubsIff(e: Event, originalBytes: nat)
    requires !Fits(e)
    ensures TrimLoop(e, originalBytes).stubbed <==> !Fits(FlooredFrame(e))
    decreases |Serialize(e.payload)|
  {
    PassKeepsFloored(e.payload);
    if LargestShrinkableLeaf(e.payload).Some? {
      var next := e.(payload := ElideLargest(e.payload));
      assert FlooredFrame(next) == FlooredFrame(e);
      if Fits(next) {
        FittingFrameFitsFloored(next);
      } else {
        TrimLoopStubsIff(next, originalBytes);
      }
    }
  }

  /**
   The envelope is never touched and a frame in budget is not touched at all. The stub is used exactly
   when the frame is over budget even with every string leaf at its floor; and the result is in budget
   exactly when that floored frame is, or the stub's.
   */
  lemma TrimFitsIff(e: Event)
    ensures Trim(e).event.(payload := e.payload) == e
    ensures Fits(e) ==> Trim(e).event == e
    ensures Trim(e).stubbed <==> !Fits(FlooredFrame(e))
    ensures Trim(e).stubbed ==> Trim(e).event == StubFrame(e)
    ensures Fits(Trim(e).event) <==> Fits(FlooredFrame(e)) || Fits(StubFrame(e))
  {
    if Fits(e) {
      FittingFrameFitsFloored(e);
    } else {
      TrimLoopOutcome(e, |Serialize(e.payload)|);
      TrimLoopStubsIff(e, |Serialize(e.payload)|);
    }
  }
}
