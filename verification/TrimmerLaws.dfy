/** What trimming preserves, and how often one leaf can be elided. */
module TrimmerLaws {
  import opened Bytes
  import opened Decimal
  import opened Utf8
  import opened Json
  import opened Events
  import opened Trimmer

  // ---- One leaf: what survives ----

  function Head(s: bytes): bytes {
    s[..HeadEnd(s)]
  }

  function Tail(s: bytes): bytes {
    s[TailStart(s)..]
  }

  /** `cur` is `orig` with its middle cut out: retained head, ellipsis, anything, ellipsis, retained tail. */
  predicate IsCut(orig: bytes, cur: bytes) {
    && LeafShrinks(orig)
    && |cur| >= |Head(orig)| + |Tail(orig)| + 6
    && StartsWith(cur, Head(orig) + ELLIPSIS)
    && EndsWith(cur, ELLIPSIS + Tail(orig))
  }

  predicate Retains(orig: bytes, cur: bytes) {
    cur == orig || IsCut(orig, cur)
  }

  lemma EndsAreNearlyFull(s: bytes)
    requires Valid(s) && LeafShrinks(s)
    ensures RETAIN_BYTES - 3 <= |Head(s)| <= RETAIN_BYTES
    ensures RETAIN_BYTES - 3 <= |Tail(s)| <= RETAIN_BYTES
  {
    if |s| > RETAIN_BYTES {
      BoundaryScansAreShort(s, RETAIN_BYTES);
      BoundaryScansAreShort(s, |s| - RETAIN_BYTES);
    }
  }

  lemma ElideIsValid(s: bytes)
    requires Valid(s)
    ensures Valid(Elide(s))
  {
    ValidSplit(s, HeadEnd(s));
    ValidSplit(s, TailStart(s));
    MarkerIsPlain(Removed(s));
    ValidConcat(Head(s), Marker(Removed(s)));
    ValidConcat(Head(s) + Marker(Removed(s)), Tail(s));
  }

  lemma FirstElisionCuts(s: bytes)
    requires LeafShrinks(s)
    ensures IsCut(s, Elide(s))
  {
    var h, m, t := Head(s), Marker(Removed(s)), Tail(s);
    var e := Elide(s);
    assert e == h + m + t;
    assert e[..|h| + 3] == h + m[..3];
    assert e[|e| - |t| - 3..] == m[|m| - 3..] + t;
  }

  /**
   The ends kept are the longest of at most 3000 bytes that stop on a character boundary, and the
   marker between them reports exactly the bytes missing from the original.
   */
  lemma ElisionIsExact(s: bytes)
    requires LeafShrinks(s)
    ensures Elide(s) == Head(s) + Marker(|s| - |Head(s)| - |Tail(s)|) + Tail(s)
    ensures |Head(s)| <= RETAIN_BYTES && |Tail(s)| <= RETAIN_BYTES
    ensures s == Head(s) + s[|Head(s)|..TailStart(s)] + Tail(s)
    ensures forall k :: |Head(s)| < k <= RETAIN_BYTES && k <= |s| ==> !IsBoundary(s, k)
    ensures forall k :: |s| - RETAIN_BYTES <= k < |s| - |Tail(s)| ==> k < 0 || !IsBoundary(s, k)
  {
  }

  /** Bytes of the ellipsis that a second elision keeps beside a retained end of this length. */
  function KeptEllipsis(retained: nat): nat {
    if retained + 3 == RETAIN_BYTES then 3 else 0
  }

  /** An ellipsis in well-formed text is one character, with boundaries around it and none inside. */
  lemma EllipsisBoundaries(s: bytes, i: nat)
    requires Valid(s) && i + 3 <= |s| && s[i..i + 3] == ELLIPSIS
    ensures IsBoundary(s, i) && IsBoundary(s, i + 3)
    ensures !IsBoundary(s, i + 1) && !IsBoundary(s, i + 2)
  {
    assert s[i] == s[i..i + 3][0] && s[i + 1] == s[i..i + 3][1] && s[i + 2] == s[i..i + 3][2];
    ValidSplit(s, i);
    var rest := s[i..];
    assert CharWidth(rest) == 3;
    assert Valid(rest[3..]);
  }

  /** The boundaries of an already cut leaf fall beside, or just inside, its ellipses. */
  lemma CutHeadEnd(orig: bytes, cur: bytes)
    requires Valid(orig) && Valid(cur) && IsCut(orig, cur)
    ensures HeadEnd(cur) == |Head(orig)| + KeptEllipsis(|Head(orig)|)
  {
    hide Valid, LeafShrinks;
    EndsAreNearlyFull(orig);
    CutHeadEllipsis(orig, cur);
    EllipsisBoundaries(cur, |Head(orig)|);
  }

  /** The leading ellipsis, in place. */
  lemma CutHeadEllipsis(orig: bytes, cur: bytes)
    requires IsCut(orig, cur)
    ensures var h := |Head(orig)|; cur[h..h + 3] == ELLIPSIS
  {
    var h, pre := |Head(orig)|, Head(orig) + ELLIPSIS;
    assert cur[h..h + 3] == cur[..|pre|][h..] == pre[h..] == ELLIPSIS;
  }

  /** The trailing ellipsis, in place. */
  lemma CutTailEllipsis(orig: bytes, cur: bytes)
    requires IsCut(orig, cur)
    ensures var i := |cur| - |Tail(orig)| - 3; cur[i..i + 3] == ELLIPSIS
  {
    var post := ELLIPSIS + Tail(orig);
    var i := |cur| - |post|;
    assert cur[i..] == post;
    assert cur[i..i + 3] == cur[i..][..3] == post[..3] == ELLIPSIS;
  }

  lemma CutTailStart(orig: bytes, cur: bytes)
    requires Valid(orig) && Valid(cur) && IsCut(orig, cur)
    ensures TailStart(cur) == |cur| - |Tail(orig)| - KeptEllipsis(|Tail(orig)|)
  {
    hide Valid, LeafShrinks;
    EndsAreNearlyFull(orig);
    CutHeadEnd(orig, cur);
    CutTailEllipsis(orig, cur);
    EllipsisBoundaries(cur, |cur| - |Tail(orig)| - 3);
  }

  lemma PrefixOfConcat(a: bytes, m: bytes, c: bytes, p: bytes)
    requires StartsWith(m, ELLIPSIS) && (a == p || a == p + ELLIPSIS)
    ensures StartsWith(a + m + c, p + ELLIPSIS)
  {
    var n := |p| + 3;
    if a == p {
      assert (a + m + c)[..n] == a + m[..3];
    } else {
      assert (a + m + c)[..n] == a;
    }
  }

  lemma SuffixOfConcat(a: bytes, m: bytes, c: bytes, p: bytes)
    requires EndsWith(m, ELLIPSIS) && (c == p || c == ELLIPSIS + p)
    ensures EndsWith(a + m + c, ELLIPSIS + p)
  {
    var s, n := a + m + c, |p| + 3;
    if c == p {
      assert s[|s| - n..] == m[|m| - 3..] + c;
    } else {
      assert s[|s| - n..] == c;
    }
  }

  lemma CutEnds(orig: bytes, cur: bytes)
    requires Valid(orig) && Valid(cur) && IsCut(orig, cur)
    ensures Head(cur) == Head(orig) || Head(cur) == Head(orig) + ELLIPSIS
    ensures Tail(cur) == Tail(orig) || Tail(cur) == ELLIPSIS + Tail(orig)
  {
    hide Valid, LeafShrinks, HeadEnd, TailStart;
    CutHeadEnd(orig, cur);
    CutTailStart(orig, cur);
    EndsOfAffixes(cur, Head(orig), Tail(orig));
  }

  lemma EndsOfAffixes(s: bytes, head: bytes, tail: bytes)
    requires StartsWith(s, head + ELLIPSIS) && EndsWith(s, ELLIPSIS + tail)
    ensures s[..|head|] == head && s[..|head| + 3] == head + ELLIPSIS
    ensures s[|s| - |tail|..] == tail && s[|s| - |tail| - 3..] == ELLIPSIS + tail
  {
    var pre, post := head + ELLIPSIS, ELLIPSIS + tail;
    assert s[..|head|] == s[..|pre|][..|head|];
    assert s[|s| - |tail|..] == s[|s| - |post|..][3..];
  }

  /** Eliding a cut leaf again keeps the head and the tail the first cut retained. */
  lemma SecondElisionCuts(orig: bytes, cur: bytes)
    requires Valid(orig) && Valid(cur) && IsCut(orig, cur)
    ensures IsCut(orig, Elide(cur))
  {
    CutEnds(orig, cur);
    var m := Marker(Removed(cur));
    assert Elide(cur) == Head(cur) + m + Tail(cur);
    PrefixOfConcat(Head(cur), m, Tail(cur), Head(orig));
    SuffixOfConcat(Head(cur), m, Tail(cur), Tail(orig));
  }

  lemma ElisionRetains(orig: bytes, cur: bytes)
    requires Valid(orig) && Valid(cur) && Retains(orig, cur) && LeafShrinks(cur)
    ensures Retains(orig, Elide(cur)) && Valid(Elide(cur))
  {
    ElideIsValid(cur);
    if cur == orig {
      FirstElisionCuts(cur);
    } else {
      SecondElisionCuts(orig, cur);
    }
  }

  // ---- One leaf: how often ----

  const USIZE_LIMIT: nat := 0x1_0000_0000_0000_0000

  lemma ShrinksIff(s: bytes)
    ensures LeafShrinks(s) <==> Removed(s) > 21 + |Digits(Removed(s))|
  {
  }

  lemma TwoDigits(n: nat)
    requires 10 <= n < 100
    ensures |Digits(n)| == 2
  {
    assert Digits(n) == Digits(n / 10) + [(48 + n % 10) as byte];
  }

  lemma UsizeDigits(n: nat)
    requires n < USIZE_LIMIT
    ensures |Digits(n)| <= 20
  {
    TenToTheTwenty();
    DigitCount(n, 20);
  }

  lemma TenToTheFive()
    ensures Pow10(5) == 100_000
  {
  }

  lemma TenToTheTwenty()
    ensures Pow10(20) == 100_000_000_000_000_000_000
  {
    hide Pow10;
    TenToTheFive();
    Pow10Add(5, 5);
    Pow10Add(10, 10);
  }

  lemma {:induction false} Pow10Add(a: nat, b: nat)
    ensures Pow10(a + b) == Pow10(a) * Pow10(b)
  {
    if a > 0 {
      Pow10Add(a - 1, b);
    }
  }

  /** How much a leaf that was elided once would lose the second time. */
  lemma RemovedAgain(s: bytes)
    requires Valid(s) && LeafShrinks(s)
    ensures Removed(Elide(s)) == |Marker(Removed(s))| - KeptEllipsis(|Head(s)|) - KeptEllipsis(|Tail(s)|)
  {
    ElideIsValid(s);
    FirstElisionCuts(s);
    CutHeadEnd(s, Elide(s));
    CutTailStart(s, Elide(s));
  }

  /**
   A leaf that was just elided shrinks again exactly when its marker's count had more than two
   digits, plus three for each end that stopped three bytes short of the full retained length.
   So the retained floor does not stop the loop from coming back to the same leaf.
   */
  lemma ElidedLeafShrinksAgainIff(s: bytes)
    requires Valid(s) && LeafShrinks(s) && |s| < USIZE_LIMIT
    ensures LeafShrinks(Elide(s)) <==>
      |Digits(Removed(s))| > 2 + KeptEllipsis(|Head(s)|) + KeptEllipsis(|Tail(s)|)
  {
    RemovedAgain(s);
    UsizeDigits(Removed(s));
    TwoDigits(Removed(Elide(s)));
    ShrinksIff(Elide(s));
  }

  /** But a third elision of one leaf never shrinks it. */
  lemma NoThirdElision(s: bytes)
    requires Valid(s) && |s| < USIZE_LIMIT && LeafShrinks(s) && LeafShrinks(Elide(s))
    ensures !LeafShrinks(Elide(Elide(s)))
  {
    var once := Elide(s);
    RemovedAgain(s);
    UsizeDigits(Removed(s));
    TwoDigits(Removed(once));
    ElideIsValid(s);
    ElideIsValid(once);
    FirstElisionCuts(s);
    SecondElisionCuts(s, once);
    CutHeadEnd(s, once);
    CutTailStart(s, once);
    CutHeadEnd(s, Elide(once));
    CutTailStart(s, Elide(once));
    ShrinksIff(Elide(once));
  }

  predicate AllX(s: bytes) {
    forall i :: 0 <= i < |s| ==> s[i] == 120
  }

  /** The documented case: a plain leaf of 100000 bytes loses 94000 of them, and then shrinks again. */
  lemma PlainLeafShrinksTwice(s: bytes)
    requires |s| == 100_000 && AllX(s)
    ensures Valid(s) && HeadEnd(s) == RETAIN_BYTES && TailStart(s) == 97_000 && |Marker(94_000)| == 26
    ensures LeafShrinks(s) && LeafShrinks(Elide(s)) && !LeafShrinks(Elide(Elide(s)))
  {
    AsciiIsValid(s);
    assert IsBoundary(s, RETAIN_BYTES) && IsBoundary(s, |s| - RETAIN_BYTES);
    DigitCount(94_000, 5);
    DigitCount(94_000, 4);
    assert Pow10(5) == 100_000 && Pow10(4) == 10_000 by {
      Pow10Add(1, 4);
      Pow10Add(2, 2);
    }
    ShrinksIff(s);
    ElidedLeafShrinksAgainIff(s);
    NoThirdElision(s);
  }

  // ---- The whole tree ----

  /** Same shape, keys and non-string nodes; every string leaf retains what its original promised. */
  predicate Trims(orig: Json, cur: Json)
    decreases orig
  {
    match orig
    case Str(s) => cur.Str? && Retains(s, cur.text)
    case Arr(slots) =>
      cur.Arr? && |cur.slots| == |slots| && forall i :: 0 <= i < |slots| ==> SlotTrims(slots[i], cur.slots[i])
    case Obj(slots) =>
      cur.Obj? && |cur.slots| == |slots| && forall i :: 0 <= i < |slots| ==> SlotTrims(slots[i], cur.slots[i])
    case _ => cur == orig
  }

  predicate SlotTrims(orig: Slot, cur: Slot)
    decreases orig
  {
    cur.key == orig.key && Trims(orig.value, cur.value)
  }

  lemma TrimsItself(v: Json)
    ensures Trims(v, v)
    decreases v
  {
    if v.Arr? || v.Obj? {
      forall i | 0 <= i < |v.slots| ensures SlotTrims(v.slots[i], v.slots[i]) {
        SlotTrimsItself(v.slots[i]);
      }
    }
  }

  lemma SlotTrimsItself(slot: Slot)
    ensures SlotTrims(slot, slot)
    decreases slot
  {
    TrimsItself(slot.value);
  }

  lemma {:induction false} ElideAtTrims(orig: Json, cur: Json, p: Path)
    requires WellFormed(orig) && WellFormed(cur) && Trims(orig, cur) && ShrinksAt(cur, p)
    ensures Trims(orig, ElideAt(cur, p)) && WellFormed(ElideAt(cur, p))
    decreases p
  {
    hide LeafShrinks, Elide, Valid, Retains;
    if |p| == 0 {
      ElisionRetains(orig.text, cur.text);
    } else {
      var i := p[0];
      assert SlotTrims(orig.slots[i], cur.slots[i]) && SlotWellFormed(orig.slots[i]) && SlotWellFormed(cur.slots[i]);
      ElideAtTrims(orig.slots[i].value, cur.slots[i].value, p[1..]);
    }
  }

  lemma {:induction false} TrimLoopTrims(orig: Json, e: Event, originalBytes: nat)
    requires WellFormed(orig) && WellFormed(e.payload) && Trims(orig, e.payload)
    ensures var t := TrimLoop(e, originalBytes);
      !t.stubbed ==> Trims(orig, t.event.payload) && WellFormed(t.event.payload)
    decreases |Serialize(e.payload)|
  {
    SearchFindsALongestShrinkableLeaf(e.payload);
    if LargestShrinkableLeaf(e.payload).Some? {
      ElideAtTrims(orig, e.payload, LargestShrinkableLeaf(e.payload).value);
      TrimLoopTrims(orig, e.(payload := ElideLargest(e.payload)), originalBytes);
    }
  }

  /** Unless the stub replaces it, the payload keeps its shape and each leaf both of its ends. */
  lemma TrimPreservesPayload(e: Event)
    requires WellFormed(e.payload)
    ensures !Trim(e).stubbed ==> Trims(e.payload, Trim(e).event.payload) && WellFormed(Trim(e).event.payload)
  {
    TrimsItself(e.payload);
    if !Fits(e) {
      TrimLoopTrims(e.payload, e, |Serialize(e.payload)|);
    }
  }

  // ---- Trimming stops as early as it can ----

  /** The payload after `n` passes; passes beyond the last shrinkable leaf change nothing. */
  function AfterPasses(v: Json, n: nat): Json
    decreases n
  {
    if n == 0 || LargestShrinkableLeaf(v).None? then v else AfterPasses(ElideLargest(v), n - 1)
  }

  /** After `n` passes the frame is still too large. */
  ghost predicate TooLargeAfter(e: Event, n: nat) {
    !Fits(e.(payload := AfterPasses(e.payload, n)))
  }

  lemma {:induction false} TrimLoopIsLeast(e: Event, originalBytes: nat)
    requires !Fits(e)
    ensures var t := TrimLoop(e, originalBytes); var last := AfterPasses(e.payload, t.elisions);
      && (forall n :: 0 <= n < t.elisions ==> TooLargeAfter(e, n))
      && (!t.stubbed ==> t.elisions >= 1 && t.event == e.(payload := last) && Fits(t.event))
      && (t.stubbed ==> TooLargeAfter(e, t.elisions) && forall p :: !ShrinksAt(last, p))
    decreases |Serialize(e.payload)|
  {
    hide ElideAt, Fits, SerializedLen, Stub;
    SearchFindsALongestShrinkableLeaf(e.payload);
    var t := TrimLoop(e, originalBytes);
    if LargestShrinkableLeaf(e.payload).Some? {
      var next := e.(payload := ElideLargest(e.payload));
      if !Fits(next) {
        TrimLoopIsLeast(next, originalBytes);
        forall n | 0 <= n < t.elisions ensures TooLargeAfter(e, n) {
          if n > 0 {
            assert TooLargeAfter(next, n - 1);
            assert e.(payload := AfterPasses(e.payload, n)) == next.(payload := AfterPasses(next.payload, n - 1));
          }
        }
        if t.stubbed {
          assert e.(payload := AfterPasses(e.payload, t.elisions))
            == next.(payload := AfterPasses(next.payload, t.elisions - 1));
        }
      } else {
        assert AfterPasses(e.payload, 1) == AfterPasses(next.payload, 0);
      }
    }
  }

  /**
   An oversized frame is trimmed by the least number of passes that makes it fit, and is replaced by
   the stub only when no string leaf is left that shrinks and no number of passes was enough.
   */
  lemma TrimUsesFewestPasses(e: Event)
    requires !Fits(e)
    ensures var t := Trim(e); var last := AfterPasses(e.payload, t.elisions);
      && (forall n :: 0 <= n < t.elisions ==> TooLargeAfter(e, n))
      && (!t.stubbed ==> t.event == e.(payload := last) && Fits(t.event))
      && (t.stubbed ==> TooLargeAfter(e, t.elisions) && forall p :: !ShrinksAt(last, p))
  {
    TrimLoopIsLeast(e, |Serialize(e.payload)|);
  }

  // ---- The stub does not always fit ----

  /**
   No trimming can help a frame when one field of its envelope is over the budget by itself: the stub
   keeps the envelope.
   */
  lemma OversizedFieldNeverFits(e: Event, i: nat)
    requires i < |Envelope(e)| && |SerializeSlot(Envelope(e)[i])| > MAX_PLAINTEXT_LEN
    ensures Trim(e).stubbed && !Fits(Trim(e).event)
  {
    TrimFitsIff(e);
    FieldIsSerialized(FlooredFrame(e), i);
    FieldIsSerialized(StubFrame(e), i);
  }

  lemma FieldIsSerialized(e: Event, i: nat)
    requires i < |Envelope(e)|
    ensures SerializedLen(e) > |SerializeSlot(Envelope(e)[i])|
  {
    var slots := EventJson(e).slots;
    assert slots[i] == Envelope(e)[i];
    SlotFits(slots, i);
  }

  /** Such a field is the session id, which the agent chooses and nothing bounds. */
  lemma LongSessionIdNeverFits(e: Event)
    requires e.sessionId.Some? && |e.sessionId.value| > MAX_PLAINTEXT_LEN
    ensures Trim(e).stubbed && !Fits(Trim(e).event)
  {
    assert Envelope(e)[5] == Field("sessionId", Str(e.sessionId.value));
    OversizedFieldNeverFits(e, 5);
  }

  // ---- The number of passes ----

  /** Sum of `weight` over the string leaves. */
  function SumLeaves(v: Json, weight: bytes -> nat): nat
    decreases v
  {
    match v
    case Str(s) => weight(s)
    case Arr(slots) => SumSlots(slots, weight)
    case Obj(slots) => SumSlots(slots, weight)
    case _ => 0
  }

  function SumSlots(slots: seq<Slot>, weight: bytes -> nat): nat
    decreases slots
  {
    if |slots| == 0 then 0 else SumSlot(slots[0], weight) + SumSlots(slots[1..], weight)
  }

  function SumSlot(slot: Slot, weight: bytes -> nat): nat
    decreases slot
  {
    SumLeaves(slot.value, weight)
  }

  lemma {:induction false} SumSlotsUpdate(slots: seq<Slot>, i: nat, slot: Slot, weight: bytes -> nat)
    requires i < |slots|
    ensures SumSlots(slots[i := slot], weight) + SumSlot(slots[i], weight)
         == SumSlots(slots, weight) + SumSlot(slot, weight)
  {
    var updated := slots[i := slot];
    if i == 0 {
      assert updated[1..] == slots[1..];
    } else {
      SumSlotsUpdate(slots[1..], i - 1, slot, weight);
      assert updated[1..] == slots[1..][i - 1 := slot];
    }
  }

  lemma {:induction false} SumAfterPut(v: Json, p: Path, x: Json, weight: bytes -> nat)
    requires HasPath(v, p)
    ensures SumLeaves(Put(v, p, x), weight) + SumLeaves(At(v, p), weight)
         == SumLeaves(v, weight) + SumLeaves(x, weight)
    decreases p
  {
    if |p| > 0 {
      var child := v.slots[p[0]];
      SumAfterPut(child.value, p[1..], x, weight);
      SumSlotsUpdate(v.slots, p[0], child.(value := Put(child.value, p[1..], x)), weight);
    }
  }

  /** Elisions this leaf can still undergo, when at most two. */
  function ElisionsLeft(s: bytes): nat {
    if !LeafShrinks(s) then 0 else if !LeafShrinks(Elide(s)) then 1 else 2
  }

  function One(s: bytes): nat {
    1
  }

  function LeafCount(v: Json): nat {
    SumLeaves(v, One)
  }

  lemma {:induction false} AtMostTwoEach(v: Json)
    ensures SumLeaves(v, ElisionsLeft) <= 2 * LeafCount(v)
    decreases v
  {
    if v.Arr? || v.Obj? {
      AtMostTwoEachInSlots(v.slots);
    }
  }

  lemma {:induction false} AtMostTwoEachInSlots(slots: seq<Slot>)
    ensures SumSlots(slots, ElisionsLeft) <= 2 * SumSlots(slots, One)
    decreases slots
  {
    if |slots| > 0 {
      AtMostTwoEachInSlot(slots[0]);
      AtMostTwoEachInSlots(slots[1..]);
    }
  }

  lemma {:induction false} AtMostTwoEachInSlot(slot: Slot)
    ensures SumSlot(slot, ElisionsLeft) <= 2 * SumSlot(slot, One)
    decreases slot
  {
    AtMostTwoEach(slot.value);
  }

  lemma {:induction false} SlotFits(slots: seq<Slot>, i: nat)
    requires i < |slots|
    ensures |SerializeSlot(slots[i])| <= |SerializeSlots(slots)|
  {
    if i > 0 {
      SlotFits(slots[1..], i - 1);
    }
  }

  lemma {:induction false} LeafFits(v: Json, p: Path)
    requires HasPath(v, p)
    ensures |Serialize(At(v, p))| <= |Serialize(v)|
    decreases p
  {
    if |p| > 0 {
      LeafFits(v.slots[p[0]].value, p[1..]);
      SlotFits(v.slots, p[0]);
    }
  }

  /** Each pass of the loop uses up one of the elisions its leaf had left. */
  lemma PassUsesOneElision(v: Json)
    requires WellFormed(v) && |Serialize(v)| < USIZE_LIMIT && LargestShrinkableLeaf(v).Some?
    ensures SumLeaves(ElideLargest(v), ElisionsLeft) + 1 == SumLeaves(v, ElisionsLeft)
    ensures WellFormed(ElideLargest(v))
  {
    SearchFindsALongestShrinkableLeaf(v);
    var p := LargestShrinkableLeaf(v).value;
    TrimsItself(v);
    ElideAtTrims(v, v, p);
    LeafFits(v, p);
    LeafIsValid(v, p);
    var s := At(v, p).text;
    SumAfterPut(v, p, Str(Elide(s)), ElisionsLeft);
    if LeafShrinks(Elide(s)) {
      NoThirdElision(s);
    }
  }

  lemma {:induction false} LeafIsValid(v: Json, p: Path)
    requires WellFormed(v) && HasPath(v, p)
    ensures WellFormed(At(v, p))
    decreases p
  {
    if |p| > 0 {
      assert SlotWellFormed(v.slots[p[0]]);
      LeafIsValid(v.slots[p[0]].value, p[1..]);
    }
  }

  lemma {:induction false} PassesWithinElisionsLeft(e: Event, originalBytes: nat)
    requires WellFormed(e.payload) && |Serialize(e.payload)| < USIZE_LIMIT
    ensures TrimLoop(e, originalBytes).elisions <= SumLeaves(e.payload, ElisionsLeft)
    decreases |Serialize(e.payload)|
  {
    hide Serialize, ElideAt, SumLeaves, LargestShrinkableLeaf, Fits, WellFormed;
    if LargestShrinkableLeaf(e.payload).Some? {
      PassUsesOneElision(e.payload);
      PassesWithinElisionsLeft(e.(payload := ElideLargest(e.payload)), originalBytes);
    }
  }

  /** The loop runs at most twice per string leaf. */
  lemma TrimPassesAtMostTwicePerLeaf(e: Event)
    requires WellFormed(e.payload) && |Serialize(e.payload)| < USIZE_LIMIT
    ensures Trim(e).elisions <= 2 * LeafCount(e.payload)
  {
    PassesWithinElisionsLeft(e, |Serialize(e.payload)|);
    AtMostTwoEach(e.payload);
  }

  // ---- Once per leaf, as documented, is not enough ----

  lemma OneLeaf(s: bytes)
    ensures LargestShrinkableLeaf(Str(s)) == if LeafShrinks(s) then Some([]) else None
    ensures LeafShrinks(s) ==> ElideLargest(Str(s)) == Str(Elide(s))
    ensures LeafCount(Str(s)) == 1
  {
  }

  /** A frame with this one leaf that is still too large after one pass takes two. */
  lemma PlainLeafElidedTwice(e: Event, s: bytes)
    requires |s| == 100_000 && AllX(s) && e.payload == Str(s)
    requires !Fits(e.(payload := Str(Elide(s))))
    ensures LeafCount(e.payload) == 1 && Trim(e).elisions == 2
    ensures Trim(e).stubbed <==> !Fits(e.(payload := Str(Elide(Elide(s)))))
  {
    hide LeafShrinks, Elide, Serialize, Envelope, LargestShrinkableLeaf, ElideLargest, LeafCount;
    PlainLeafShrinksTwice(s);
    var once := e.(payload := Str(Elide(s)));
    var twice := e.(payload := Str(Elide(Elide(s))));
    ElideShortensSerialized(s);
    PayloadLength(e, once.payload);
    OneLeaf(s);
    OneLeaf(Elide(s));
    OneLeaf(Elide(Elide(s)));
    assert e.(payload := ElideLargest(e.payload)) == once;
    assert once.(payload := ElideLargest(once.payload)) == twice;
    var n := |Serialize(e.payload)|;
    assert !Fits(twice) ==> TrimLoop(twice, n).elisions == 0 && TrimLoop(twice, n).stubbed;
    assert TrimLoop(once, n).elisions == 1 && (TrimLoop(once, n).stubbed <==> !Fits(twice));
    assert !Fits(e);
  }

  lemma {:induction false} EscapeAtMost(s: bytes)
    ensures |Escape(s)| <= 6 * |s|
  {
    if s != [] {
      EscapeAtMost(s[1..]);
    }
  }

  lemma {:induction false} SlotsAtMost(slots: seq<Slot>, most: nat)
    requires forall i :: 0 <= i < |slots| ==> |SerializeSlot(slots[i])| <= most
    ensures |SerializeSlots(slots)| <= |slots| * (most + 1)
  {
    if |slots| > 0 {
      SlotsAtMost(slots[1..], most);
    }
  }

  lemma FieldAtMost(name: string, value: Json)
    ensures |SerializeSlot(Field(name, value))| <= 6 * |name| + 3 + |Serialize(value)|
  {
    EscapeAtMost(Ascii(name));
  }

  /** An event with nothing but a session id and a payload. */
  function PlainEvent(sessionId: bytes, payload: Json): Event {
    Event(1, [], [], None, None, Some(sessionId), None, None, payload)
  }

  lemma SmallValues()
    ensures |Serialize(Null)| == 4 && |Serialize(Str([]))| == 2 && |Serialize(Number(Digits(1)))| == 1
  {
    DigitCount(1, 1);
  }

  lemma PlainEventAtMost(payload: Json)
    requires |Serialize(payload)| <= 6_100
    ensures SerializedLen(PlainEvent([], payload)) <= 60_000
  {
    hide Serialize, SerializeSlot, SerializeSlots, Field, Digits;
    var slots := [
      Field("seq", Number(Digits(1))), Field("timestamp", Str([])), Field("kind", Str([])),
      Field("agentIndex", Null), Field("channelId", Null), Field("sessionId", Str([])), Field("turnId", Null),
      Field("payload", payload)];
    assert EventJson(PlainEvent([], payload)) == Obj(slots);
    SmallValues();
    FieldAtMost("seq", Number(Digits(1)));
    FieldAtMost("timestamp", Str([]));
    FieldAtMost("kind", Str([]));
    FieldAtMost("agentIndex", Null);
    FieldAtMost("channelId", Null);
    FieldAtMost("sessionId", Str([]));
    FieldAtMost("turnId", Null);
    FieldAtMost("payload", payload);
    SlotsAtMost(slots, 6_200);
    ObjectLength(slots);
  }

  lemma ObjectLength(slots: seq<Slot>)
    ensures |Serialize(Obj(slots))| == |SerializeSlots(slots)| + 2
  {
  }

  lemma FieldLength(name: string, s: bytes)
    requires AllX(s)
    ensures |SerializeSlot(Field(name, Str(s)))| == |SerializeSlot(Field(name, Str([])))| + |s|
  {
    EscapePlain(s);
  }

  lemma SessionLength(session: bytes, payload: Json)
    requires AllX(session)
    ensures SerializedLen(PlainEvent(session, payload)) == SerializedLen(PlainEvent([], payload)) + |session|
  {
    hide Serialize, SerializeSlot, SerializeSlots, Field, Digits;
    var slots := EventJson(PlainEvent([], payload)).slots;
    var field := Field("sessionId", Str(session));
    assert slots[5] == Field("sessionId", Str([]));
    assert EventJson(PlainEvent(session, payload)).slots == slots[5 := field];
    SlotUpdateLength(slots, 5, field);
    FieldLength("sessionId", session);
    ObjectLength(slots);
    ObjectLength(slots[5 := field]);
  }

  lemma PartsLength(head: bytes, removed: nat, tail: bytes)
    requires AllX(head) && AllX(tail)
    ensures |Serialize(Str(head + Marker(removed) + tail))| == |head| + |Marker(removed)| + |tail| + 2
  {
    hide Marker, Escape;
    MarkerIsPlain(removed);
    EscapePlain(head);
    EscapePlain(tail);
    EscapeConcat(head, Marker(removed));
    EscapeConcat(head + Marker(removed), tail);
  }

  lemma ElidedLength(s: bytes)
    requires |s| == 100_000 && AllX(s)
    ensures |Serialize(Str(Elide(s)))| == 6_028
  {
    hide Marker, HeadEnd, TailStart, Serialize, Valid, LeafShrinks;
    PlainLeafShrinksTwice(s);
    PartsLength(s[..RETAIN_BYTES], 94_000, s[97_000..]);
  }

  /** A frame with one string leaf in its payload that fits only after two passes. */
  lemma OncePerLeafIsNotEnough() returns (e: Event)
    ensures WellFormed(e.payload) && LeafCount(e.payload) == 1
    ensures Trim(e).elisions == 2 && !Trim(e).stubbed && Fits(Trim(e).event)
  {
    hide Elide, Serialize, Envelope, Trim, LeafCount, LeafShrinks;
    var s := seq(100_000, _ => 120);
    PlainLeafShrinksTwice(s);
    ElidedLength(s);
    ElideShortensSerialized(s);
    ElideShortensSerialized(Elide(s));
    var once, twice := Str(Elide(s)), Str(Elide(Elide(s)));
    PlainEventAtMost(twice);
    var session := seq(MAX_PLAINTEXT_LEN - SerializedLen(PlainEvent([], twice)), _ => 120);
    e := PlainEvent(session, Str(s));
    SessionLength(session, twice);
    PayloadLength(PlainEvent(session, twice), once);
    PlainLeafElidedTwice(e, s);
    TrimFitsIff(e);
  }
}
