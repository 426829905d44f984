/**
 JSON trees as the telemetry frames hold them, and their compact serialization.

 A container is a list of slots in serialization order. A slot of an array has no key; a slot
 of an object has one. Text is UTF-8 bytes, because every length the trimmer measures is a
 byte length.
 */
module Json {
  import opened Bytes
  import opened Utf8

  datatype Json =
    | Null
    | Bool(b: bool)
    | Number(numeral: bytes)
    | Str(text: bytes)
    | Arr(slots: seq<Slot>)
    | Obj(slots: seq<Slot>)

  datatype Slot = Slot(key: Option<bytes>, value: Json)

  // ---- Serialization ----

  function HexDigit(n: nat): byte
    requires n < 16
  {
    if n < 10 then (48 + n) as byte else (87 + n) as byte
  }

  /** What one byte of a string becomes between the quotes. */
  function EscapeByte(c: byte): (e: bytes)
    ensures |e| >= 1
    ensures forall i :: 0 <= i < |e| ==> e[i] >= 0x20
    ensures c >= 0x80 ==> e == [c]
    ensures c < 0x80 ==> forall i :: 0 <= i < |e| ==> e[i] < 0x80
  {
    if c == 34 then [92, 34]
    else if c == 92 then [92, 92]
    else if c == 8 then [92, 98]
    else if c == 9 then [92, 116]
    else if c == 10 then [92, 110]
    else if c == 12 then [92, 102]
    else if c == 13 then [92, 114]
    else if c < 0x20 then [92, 117, 48, 48, HexDigit(c as int / 16), HexDigit(c as int % 16)]
    else [c]
  }

  function Escape(s: bytes): (e: bytes)
    ensures |e| >= |s|
    ensures forall i :: 0 <= i < |e| ==> e[i] >= 0x20
  {
    if s == [] then [] else EscapeByte(s[0]) + Escape(s[1..])
  }

  function Quote(s: bytes): bytes {
    [QUOTE] + Escape(s) + [QUOTE]
  }

  function Serialize(v: Json): (out: bytes)
    decreases v, 0
  {
    match v
    case Null => Ascii("null")
    case Bool(b) => if b then Ascii("true") else Ascii("false")
    case Number(n) => n
    case Str(s) => Quote(s)
    case Arr(slots) => [91] + SerializeSlots(slots) + [93]
    case Obj(slots) => [123] + SerializeSlots(slots) + [125]
  }

  function SerializeSlots(slots: seq<Slot>): (out: bytes)
    decreases slots, 1
  {
    if |slots| == 0 then []
    else if |slots| == 1 then SerializeSlot(slots[0])
    else SerializeSlot(slots[0]) + [COMMA] + SerializeSlots(slots[1..])
  }

  function SerializeSlot(slot: Slot): (out: bytes)
    decreases slot, 0
  {
    if slot.key.None? then Serialize(slot.value)
    else Quote(slot.key.value) + [COLON] + Serialize(slot.value)
  }

  lemma {:induction false} EscapeConcat(a: bytes, b: bytes)
    ensures Escape(a + b) == Escape(a) + Escape(b)
  {
    hide EscapeByte;
    if a == [] {
      assert a + b == b;
    } else {
      EscapeConcat(a[1..], b);
      assert (a + b)[1..] == a[1..] + b;
      ConcatAssoc(EscapeByte(a[0]), Escape(a[1..]), Escape(b));
    }
  }

  /** A byte no escape applies to. */
  predicate IsPlain(c: byte) {
    EscapeByte(c) == [c]
  }

  lemma {:induction false} EscapePlain(s: bytes)
    requires forall i :: 0 <= i < |s| ==> IsPlain(s[i])
    ensures Escape(s) == s
  {
    if s != [] {
      assert IsPlain(s[0]);
      EscapePlain(s[1..]);
    }
  }

  // ---- Serialized text is one line of well-formed UTF-8 ----

  predicate IsPrintableAscii(s: bytes) {
    forall i :: 0 <= i < |s| ==> 0x20 <= s[i] < 0x80
  }

  /** Strings and keys are well-formed UTF-8, numerals are printable ASCII. */
  predicate WellFormed(v: Json)
    decreases v
  {
    match v
    case Null => true
    case Bool(_) => true
    case Number(n) => IsPrintableAscii(n)
    case Str(s) => Valid(s)
    case Arr(slots) => forall i :: 0 <= i < |slots| ==> SlotWellFormed(slots[i])
    case Obj(slots) => forall i :: 0 <= i < |slots| ==> SlotWellFormed(slots[i])
  }

  predicate SlotWellFormed(slot: Slot)
    decreases slot
  {
    (slot.key.Some? ==> Valid(slot.key.value)) && WellFormed(slot.value)
  }

  /** No control byte, hence no line feed and no carriage return, and well-formed UTF-8. */
  predicate IsOneLine(s: bytes) {
    Valid(s) && forall i :: 0 <= i < |s| ==> s[i] >= 0x20
  }

  lemma OneLineConcat(a: bytes, b: bytes)
    requires IsOneLine(a) && IsOneLine(b)
    ensures IsOneLine(a + b)
  {
    ValidConcat(a, b);
  }

  lemma AsciiIsPrintable(s: string)
    requires forall i :: 0 <= i < |s| ==> ' ' <= s[i] < 128 as char
    ensures IsPrintableAscii(Ascii(s))
  {
    forall i | 0 <= i < |s| ensures 0x20 <= Ascii(s)[i] < 0x80 {
      assert s[i] as int % 128 == s[i] as int;
    }
  }

  lemma PrintableIsOneLine(s: bytes)
    requires IsPrintableAscii(s)
    ensures IsOneLine(s)
  {
    AsciiIsValid(s);
  }

  lemma {:induction false} EscapeOneLine(s: bytes)
    requires Valid(s)
    ensures IsOneLine(Escape(s))
  {
    if s != [] {
      var w := CharWidth(s);
      var front, rest := s[..w], s[w..];
      EscapeOneLine(rest);
      assert s == front + rest;
      EscapeConcat(front, rest);
      if w == 1 {
        assert front[1..] == [] && Escape(front) == EscapeByte(s[0]) + [];
        AsciiIsValid(EscapeByte(s[0]));
        assert Valid(EscapeByte(s[0]) + []) by { assert EscapeByte(s[0]) + [] == EscapeByte(s[0]); }
      } else {
        EscapePlain(front);
        ValidSplit(s, w);
      }
      OneLineConcat(Escape(front), Escape(rest));
    }
  }

  lemma QuoteOneLine(s: bytes)
    requires Valid(s)
    ensures IsOneLine(Quote(s))
  {
    EscapeOneLine(s);
    PrintableIsOneLine([QUOTE]);
    OneLineConcat([QUOTE], Escape(s));
    OneLineConcat([QUOTE] + Escape(s), [QUOTE]);
  }

  lemma BracketsOneLine(open: byte, inner: bytes, close: byte)
    requires IsOneLine(inner) && 0x20 <= open < 0x80 && 0x20 <= close < 0x80
    ensures IsOneLine([open] + inner + [close])
  {
    PrintableIsOneLine([open]);
    PrintableIsOneLine([close]);
    OneLineConcat([open], inner);
    OneLineConcat([open] + inner, [close]);
  }

  /** Every serialized tree is a single line, so newline framing cannot be broken from inside. */
  lemma {:induction false} SerializedIsOneLine(v: Json)
    requires WellFormed(v)
    ensures IsOneLine(Serialize(v))
    decreases v, 0
  {
    match v
    case Null =>
      AsciiIsPrintable("null");
      PrintableIsOneLine(Ascii("null"));
    case Bool(b) =>
      AsciiIsPrintable(if b then "true" else "false");
      PrintableIsOneLine(Serialize(v));
    case Number(n) => PrintableIsOneLine(n);
    case Str(s) => QuoteOneLine(s);
    case Arr(slots) =>
      SlotsAreOneLine(slots);
      BracketsOneLine(91, SerializeSlots(slots), 93);
    case Obj(slots) =>
      SlotsAreOneLine(slots);
      BracketsOneLine(123, SerializeSlots(slots), 125);
  }

  lemma {:induction false} SlotsAreOneLine(slots: seq<Slot>)
    requires forall i :: 0 <= i < |slots| ==> SlotWellFormed(slots[i])
    ensures IsOneLine(SerializeSlots(slots))
    decreases slots, 1
  {
    if |slots| > 0 {
      SlotIsOneLine(slots[0]);
      if |slots| > 1 {
        SlotsAreOneLine(slots[1..]);
        PrintableIsOneLine([COMMA]);
        OneLineConcat(SerializeSlot(slots[0]), [COMMA]);
        OneLineConcat(SerializeSlot(slots[0]) + [COMMA], SerializeSlots(slots[1..]));
      }
    }
  }

  lemma {:induction false} SlotIsOneLine(slot: Slot)
    requires SlotWellFormed(slot)
    ensures IsOneLine(SerializeSlot(slot))
    decreases slot, 0
  {
    SerializedIsOneLine(slot.value);
    if slot.key.Some? {
      QuoteOneLine(slot.key.value);
      PrintableIsOneLine([COLON]);
      OneLineConcat(Quote(slot.key.value), [COLON]);
      OneLineConcat(Quote(slot.key.value) + [COLON], Serialize(slot.value));
    }
  }

  // ---- Object fields ----

  /** Position of the field called `key`, or the number of slots when there is none. */
  function FieldIndex(slots: seq<Slot>, key: bytes): (i: nat)
    ensures i <= |slots|
    ensures i < |slots| ==> slots[i].key == Some(key)
    ensures forall j :: 0 <= j < i ==> slots[j].key != Some(key)
  {
    if |slots| == 0 || slots[0].key == Some(key) then 0 else 1 + FieldIndex(slots[1..], key)
  }

  /** `value.get(key)`: absent unless the value is an object with that key. */
  function Get(v: Json, key: bytes): Option<Json> {
    if v.Obj? && FieldIndex(v.slots, key) < |v.slots|
    then Some(v.slots[FieldIndex(v.slots, key)].value)
    else None
  }

  function AsStr(v: Option<Json>): Option<bytes> {
    if v.Some? && v.value.Str? then Some(v.value.text) else None
  }

  /** `map.insert(key, value)`: replaces the field in place, or adds one. */
  function Insert(v: Json, key: bytes, value: Json): Json
    requires v.Obj?
  {
    var i := FieldIndex(v.slots, key);
    if i < |v.slots| then Obj(v.slots[i := Slot(Some(key), value)])
    else Obj(v.slots + [Slot(Some(key), value)])
  }

  lemma GetInsert(v: Json, key: bytes, value: Json, other: bytes)
    requires v.Obj?
    ensures Get(Insert(v, key, value), key) == Some(value)
    ensures other != key ==> Get(Insert(v, key, value), other) == Get(v, other)
  {
    var slots := Insert(v, key, value).slots;
    var i, j := FieldIndex(v.slots, key), FieldIndex(slots, key);
    assert slots[i].key == Some(key);
    assert i == j;
    if other != key {
      var a, b := FieldIndex(v.slots, other), FieldIndex(slots, other);
      if a < |v.slots| {
        assert slots[a].key == Some(other);
      }
      if b < |v.slots| {
        assert v.slots[b].key == Some(other);
      }
    }
  }
}
