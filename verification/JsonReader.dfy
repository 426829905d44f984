/** A reader of JSON text after section 2 to section 7 of RFC 8259, and what it makes of serialized trees. */
module JsonReader {
  import opened Bytes
  import opened Json

  // ---- The reader ----

  /** A value read from the front of a text, and the text after it. */
  datatype Found<+T> = Nothing | Found(value: T, rest: bytes)

  function HexDigitValue(c: byte): Option<nat> {
    if 48 <= c <= 57 then Some(c as int - 48)
    else if 97 <= c <= 102 then Some(c as int - 87)
    else if 65 <= c <= 70 then Some(c as int - 55)
    else None
  }

  /** The byte that a backslash and this letter stand for. */
  function Named(c: byte): Option<byte> {
    if c == 34 || c == 92 || c == 47 then Some(c)
    else if c == 98 then Some(8)
    else if c == 102 then Some(12)
    else if c == 110 then Some(10)
    else if c == 114 then Some(13)
    else if c == 116 then Some(9)
    else None
  }

  function Before(c: byte, more: Found<bytes>): Found<bytes> {
    if more.Nothing? then Nothing else Found([c] + more.value, more.rest)
  }

  /** The rest of a string after its opening quote; of numbered characters only those of ASCII. */
  function ReadText(s: bytes): (r: Found<bytes>)
    ensures r.Found? ==> |r.rest| < |s|
    decreases |s|
  {
    if |s| == 0 || s[0] < 0x20 then Nothing
    else if s[0] == 34 then Found([], s[1..])
    else if s[0] != 92 then Before(s[0], ReadText(s[1..]))
    else if |s| < 2 then Nothing
    else if s[1] != 117 then
      if Named(s[1]).None? then Nothing else Before(Named(s[1]).value, ReadText(s[2..]))
    else if |s| < 6 || s[2] != 48 || s[3] != 48 then Nothing
    else
      var high, low := HexDigitValue(s[4]), HexDigitValue(s[5]);
      if high.None? || low.None? || high.value >= 8 then Nothing
      else Before((16 * high.value + low.value) as byte, ReadText(s[6..]))
  }

  predicate IsNumberByte(c: byte) {
    48 <= c <= 57 || c == 43 || c == 45 || c == 46 || c == 69 || c == 101
  }

  function NumberLength(s: bytes): (n: nat)
    ensures n <= |s|
  {
    if |s| == 0 || !IsNumberByte(s[0]) then 0 else 1 + NumberLength(s[1..])
  }

  const NULL: bytes := [110, 117, 108, 108]
  const TRUE: bytes := [116, 114, 117, 101]
  const FALSE: bytes := [102, 97, 108, 115, 101]

  function ReadValue(s: bytes): (r: Found<Json>)
    ensures r.Found? ==> |r.rest| < |s|
    decreases |s|, 0
  {
    if |s| == 0 then Nothing
    else if StartsWith(s, NULL) then Found(Null, s[4..])
    else if StartsWith(s, TRUE) then Found(Bool(true), s[4..])
    else if StartsWith(s, FALSE) then Found(Bool(false), s[5..])
    else if s[0] == 34 then
      var text := ReadText(s[1..]);
      if text.Nothing? then Nothing else Found(Str(text.value), text.rest)
    else if s[0] == 91 then
      if |s| > 1 && s[1] == 93 then Found(Arr([]), s[2..])
      else
        var slots := ReadSlots(s[1..], false);
        if slots.Nothing? then Nothing else Found(Arr(slots.value), slots.rest)
    else if s[0] == 123 then
      if |s| > 1 && s[1] == 125 then Found(Obj([]), s[2..])
      else
        var slots := ReadSlots(s[1..], true);
        if slots.Nothing? then Nothing else Found(Obj(slots.value), slots.rest)
    else if s[0] == 45 || 48 <= s[0] <= 57 then Found(Number(s[..NumberLength(s)]), s[NumberLength(s)..])
    else Nothing
  }

  /** One element or member, and after a comma the ones that follow, up to the closing bracket. */
  function ReadSlots(s: bytes, named: bool): (r: Found<seq<Slot>>)
    ensures r.Found? ==> |r.rest| < |s|
    decreases |s|, 2
  {
    var first := ReadSlot(s, named);
    if first.Nothing? || |first.rest| == 0 then Nothing
    else if first.rest[0] == (if named then 125 else 93) then Found([first.value], first.rest[1..])
    else if first.rest[0] != 44 then Nothing
    else
      var more := ReadSlots(first.rest[1..], named);
      if more.Nothing? then Nothing else Found([first.value] + more.value, more.rest)
  }

  function ReadSlot(s: bytes, named: bool): (r: Found<Slot>)
    ensures r.Found? ==> |r.rest| < |s|
    decreases |s|, 1
  {
    if !named then
      var v := ReadValue(s);
      if v.Nothing? then Nothing else Found(Slot(None, v.value), v.rest)
    else if |s| == 0 || s[0] != 34 then Nothing
    else
      var key := ReadText(s[1..]);
      if key.Nothing? || |key.rest| == 0 || key.rest[0] != 58 then Nothing
      else
        var v := ReadValue(key.rest[1..]);
        if v.Nothing? then Nothing else Found(Slot(Some(key.value), v.value), v.rest)
  }

  // ---- Reading what was serialized ----

  /** Numerals look like numbers, and members have names while elements have none. */
  predicate IsProper(v: Json)
    decreases v
  {
    match v
    case Number(n) => n != [] && (n[0] == 45 || 48 <= n[0] <= 57) && forall i :: 0 <= i < |n| ==> IsNumberByte(n[i])
    case Arr(slots) => forall i :: 0 <= i < |slots| ==> IsProperSlot(slots[i], false)
    case Obj(slots) => forall i :: 0 <= i < |slots| ==> IsProperSlot(slots[i], true)
    case _ => true
  }

  predicate IsProperSlot(slot: Slot, named: bool)
    decreases slot
  {
    slot.key.Some? == named && IsProper(slot.value)
  }

  lemma ByteIsRead(c: byte, s: bytes)
    ensures ReadText(EscapeByte(c) + s) == Before(c, ReadText(s))
  {
    hide ReadText;
    var e := EscapeByte(c);
    assert (e + s)[|e|..] == s;
    if |e| == 1 {
      PlainIsRead(e + s);
    } else if |e| == 2 {
      NamedIsRead(e + s);
    } else {
      HexIsRead(c as int / 16);
      HexIsRead(c as int % 16);
      NumberedIsRead(e + s, c);
    }
  }

  lemma PlainIsRead(t: bytes)
    requires |t| > 0 && t[0] >= 0x20 && t[0] != 34 && t[0] != 92
    ensures ReadText(t) == Before(t[0], ReadText(t[1..]))
  {
  }

  lemma NamedIsRead(t: bytes)
    requires |t| > 1 && t[0] == 92 && t[1] != 117 && Named(t[1]).Some?
    ensures ReadText(t) == Before(Named(t[1]).value, ReadText(t[2..]))
  {
  }

  lemma NumberedIsRead(t: bytes, c: byte)
    requires |t| >= 6 && t[0] == 92 && t[1] == 117 && t[2] == 48 && t[3] == 48 && c < 0x20
    requires HexDigitValue(t[4]) == Some(c as int / 16) && HexDigitValue(t[5]) == Some(c as int % 16)
    ensures ReadText(t) == Before(c, ReadText(t[6..]))
  {
    assert 16 * (c as int / 16) + c as int % 16 == c as int;
  }

  lemma HexIsRead(n: nat)
    requires n < 16
    ensures HexDigitValue(HexDigit(n)) == Some(n)
  {
  }

  lemma {:induction false} TextIsRead(text: bytes, rest: bytes)
    ensures ReadText(Escape(text) + [34] + rest) == Found(text, rest)
  {
    hide EscapeByte;
    if text == [] {
      assert Escape(text) + [34] + rest == [34] + rest;
    } else {
      var more := Escape(text[1..]) + [34] + rest;
      assert Escape(text) + [34] + rest == EscapeByte(text[0]) + more;
      ByteIsRead(text[0], more);
      TextIsRead(text[1..], rest);
      assert [text[0]] + text[1..] == text;
    }
  }

  lemma {:induction false} NumberEnds(n: bytes, rest: bytes)
    requires (forall i :: 0 <= i < |n| ==> IsNumberByte(n[i])) && (rest == [] || !IsNumberByte(rest[0]))
    ensures NumberLength(n + rest) == |n|
  {
    if n == [] {
      assert n + rest == rest;
    } else {
      assert (n + rest)[1..] == n[1..] + rest;
      NumberEnds(n[1..], rest);
    }
  }

  /** What starts with a word starts with its first byte. */
  lemma FirstByte(s: bytes)
    requires |s| > 0
    ensures StartsWith(s, NULL) ==> s[0] == 110
    ensures StartsWith(s, TRUE) ==> s[0] == 116
    ensures StartsWith(s, FALSE) ==> s[0] == 102
  {
    assert StartsWith(s, NULL) ==> s[..4][0] == NULL[0];
    assert StartsWith(s, TRUE) ==> s[..4][0] == TRUE[0];
    assert StartsWith(s, FALSE) ==> s[..5][0] == FALSE[0];
  }

  lemma WordIsRead(word: bytes, rest: bytes)
    requires word == NULL || word == TRUE || word == FALSE
    ensures ReadValue(word + rest) == Found(if word == NULL then Null else Bool(word == TRUE), rest)
  {
    hide ReadSlots, ReadText;
    var s := word + rest;
    FirstByte(s);
    assert s[..|word|] == word && s[|word|..] == rest;
    assert s[0] == word[0] && NULL[0] == 110 && TRUE[0] == 116 && FALSE[0] == 102;
  }

  lemma WordsAreWritten()
    ensures Ascii("null") == NULL && Ascii("true") == TRUE && Ascii("false") == FALSE
  {
  }

  lemma NumberIsRead(n: bytes, rest: bytes)
    requires IsProper(Number(n)) && (rest == [] || !IsNumberByte(rest[0]))
    ensures ReadValue(n + rest) == Found(Number(n), rest)
  {
    hide ReadSlots, ReadText, StartsWith;
    var s := n + rest;
    FirstByte(s);
    NumberEnds(n, rest);
    assert s[..|n|] == n && s[|n|..] == rest;
  }

  lemma QuotedIsRead(text: bytes, rest: bytes)
    ensures ReadValue(Quote(text) + rest) == Found(Str(text), rest)
  {
    hide ReadSlots, ReadText, StartsWith, Escape;
    var s := Quote(text) + rest;
    FirstByte(s);
    assert s[1..] == Escape(text) + [34] + rest;
    TextIsRead(text, rest);
  }

  lemma ScalarIsRead(v: Json, rest: bytes)
    requires IsProper(v) && !v.Arr? && !v.Obj? && (rest == [] || !IsNumberByte(rest[0]))
    ensures ReadValue(Serialize(v) + rest) == Found(v, rest)
  {
    hide ReadValue, Quote;
    WordsAreWritten();
    match v
    case Null => WordIsRead(NULL, rest);
    case Bool(b) =>
      assert TRUE[0] != FALSE[0] && NULL[0] != TRUE[0] && NULL[0] != FALSE[0];
      WordIsRead(if b then TRUE else FALSE, rest);
    case Number(n) => NumberIsRead(n, rest);
    case Str(text) => QuotedIsRead(text, rest);
  }

  lemma SlotIsReadBy(slot: Slot, named: bool, rest: bytes)
    requires slot.key.Some? == named && ReadValue(Serialize(slot.value) + rest) == Found(slot.value, rest)
    ensures ReadSlot(SerializeSlot(slot) + rest, named) == Found(slot, rest)
  {
    hide ReadValue, Escape, ReadText, Serialize;
    if named {
      var key, s := slot.key.value, SerializeSlot(slot) + rest;
      var after := [COLON] + Serialize(slot.value) + rest;
      assert s[1..] == Escape(key) + [34] + after;
      TextIsRead(key, after);
      assert after[1..] == Serialize(slot.value) + rest;
    }
  }

  /** The serialized text of a proper tree, whatever follows it, is read back as that tree. */
  lemma {:induction false} ValueIsRead(v: Json, rest: bytes)
    requires IsProper(v) && (rest == [] || !IsNumberByte(rest[0]))
    ensures ReadValue(Serialize(v) + rest) == Found(v, rest)
    decreases v, 0
  {
    if v.Arr? || v.Obj? {
      var slots := v.slots;
      if |slots| > 0 {
        SlotsAreRead(slots, v.Obj?, rest);
      }
      BracketsAreRead(v, rest);
    } else {
      ScalarIsRead(v, rest);
    }
  }

  /** What a list of slots is written as begins with none of the closing brackets. */
  predicate OpensSlots(text: bytes) {
    text != [] && text[0] != 93 && text[0] != 125
  }

  lemma BracketsAreRead(v: Json, rest: bytes)
    requires v.Arr? || v.Obj?
    requires v.slots != [] ==>
      && ReadSlots(SerializeSlots(v.slots) + [if v.Obj? then 125 else 93] + rest, v.Obj?) == Found(v.slots, rest)
      && OpensSlots(SerializeSlots(v.slots))
    ensures ReadValue(Serialize(v) + rest) == Found(v, rest)
  {
    hide ReadSlots, ReadText, StartsWith, SerializeSlots;
    var inner, close: byte := SerializeSlots(v.slots), if v.Obj? then 125 else 93;
    var s := Serialize(v) + rest;
    FirstByte(s);
    if v.slots == [] {
      assert inner == [] by { NoSlots(); }
      assert s[1] == close && s[2..] == rest;
    } else {
      assert s[1..] == inner + [close] + rest && s[1] == inner[0];
    }
  }

  lemma NoSlots()
    ensures SerializeSlots([]) == []
  {
  }

  lemma {:induction false} SlotsAreRead(slots: seq<Slot>, named: bool, rest: bytes)
    requires slots != [] && forall i :: 0 <= i < |slots| ==> IsProperSlot(slots[i], named)
    ensures ReadSlots(SerializeSlots(slots) + [if named then 125 else 93] + rest, named) == Found(slots, rest)
    ensures OpensSlots(SerializeSlots(slots))
    decreases slots, 1
  {
    hide ReadSlot, SerializeSlot, IsProperSlot;
    var close: byte := if named then 125 else 93;
    if |slots| == 1 {
      SlotIsRead(slots[0], named, [close] + rest);
      assert SerializeSlots(slots) + [close] + rest == SerializeSlot(slots[0]) + ([close] + rest);
      assert ([close] + rest)[1..] == rest && slots == [slots[0]];
    } else {
      var more := SerializeSlots(slots[1..]) + [close] + rest;
      SlotIsRead(slots[0], named, [COMMA] + more);
      SlotsAreRead(slots[1..], named, rest);
      assert SerializeSlots(slots) + [close] + rest == SerializeSlot(slots[0]) + ([COMMA] + more);
      assert ([COMMA] + more)[1..] == more && slots == [slots[0]] + slots[1..];
    }
  }

  lemma {:induction false} SlotIsRead(slot: Slot, named: bool, rest: bytes)
    requires IsProperSlot(slot, named) && rest != [] && !IsNumberByte(rest[0])
    ensures ReadSlot(SerializeSlot(slot) + rest, named) == Found(slot, rest)
    ensures OpensSlots(SerializeSlot(slot))
    decreases slot, 0
  {
    hide ReadValue, ReadSlot;
    ValueIsRead(slot.value, rest);
    SlotIsReadBy(slot, named, rest);
    ValueOpens(slot.value);
  }

  lemma ValueOpens(v: Json)
    requires IsProper(v)
    ensures OpensSlots(Serialize(v))
  {
    WordsAreWritten();
  }

  /** So two proper trees with the same text are the same tree. */
  lemma SerializeIsInjective(v: Json, w: Json)
    requires IsProper(v) && IsProper(w) && Serialize(v) == Serialize(w)
    ensures v == w
  {
    hide ReadValue, Serialize;
    ValueIsRead(v, []);
    ValueIsRead(w, []);
    assert Serialize(v) + [] == Serialize(v);
  }

  predicate IsLowerHex(c: byte) {
    48 <= c <= 57 || 97 <= c <= 102
  }

  /** Nothing is escaped without need, and by the short form where there is one, otherwise in lower case. */
  lemma EscapesAreShortest(c: byte)
    ensures EscapeByte(c) == [c] <==> c >= 0x20 && c != 34 && c != 92
    ensures |EscapeByte(c)| == 2 <==> c == 34 || c == 92 || c == 8 || c == 9 || c == 10 || c == 12 || c == 13
    ensures |EscapeByte(c)| == 6 ==> IsLowerHex(EscapeByte(c)[4]) && IsLowerHex(EscapeByte(c)[5])
    ensures |EscapeByte(c)| == 1 || |EscapeByte(c)| == 2 || |EscapeByte(c)| == 6
  {
  }
}
