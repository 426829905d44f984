/** Redis wire values: encoding a command and reading a reply. */
module Resp {
  import opened Bytes
  import opened Decimal
  import opened Utf8

  const CRLF: bytes := [CR, LF]

  /** What `read_resp` returns, or the exception it raises. */
  datatype Value = Str(text: bytes) | Int(n: int) | Nil | Arr(items: seq<Value>)

  datatype Error = EndOfStream | Malformed | ServerError(message: bytes)

  datatype Result<+T> = Ok(value: T) | Err(error: Error)

  /** A value and the stream after it. */
  datatype Reading<+T> = Reading(result: Result<T>, rest: bytes)

  // ---- Encoding ----

  function BulkHeader(part: bytes): bytes {
    [36] + Digits(|part|) + CRLF
  }

  function Bulk(part: bytes): bytes {
    BulkHeader(part) + part + CRLF
  }

  function Bulks(parts: seq<bytes>): bytes {
    if |parts| == 0 then [] else Bulk(parts[0]) + Bulks(parts[1..])
  }

  function Encode(parts: seq<bytes>): bytes {
    [42] + Digits(|parts|) + CRLF + Bulks(parts)
  }

  function Join(frame: seq<bytes>): bytes {
    if |frame| == 0 then [] else Join(frame[..|frame| - 1]) + frame[|frame| - 1]
  }

  lemma JoinPush(frame: seq<bytes>, b: bytes)
    ensures Join(frame + [b]) == Join(frame) + b
  {
    assert (frame + [b])[..|frame|] == frame;
  }

  /** `encode_command`: collects the pieces of the frame in a list and joins them. */
  method EncodeCommand(parts: seq<bytes>) returns (out: bytes)
    ensures out == Encode(parts)
  {
    hide BulkHeader, Join, Digits;
    var frame := [[42] + Digits(|parts|) + CRLF];
    JoinOne(frame[0]);
    for i := 0 to |parts|
      invariant Join(frame) + Bulks(parts[i..]) == Encode(parts)
    {
      FrameStep(frame, parts[i]);
      assert parts[i..][1..] == parts[i + 1..];
      ConcatAssoc(Join(frame), Bulk(parts[i]), Bulks(parts[i + 1..]));
      frame := frame + [BulkHeader(parts[i])] + [parts[i]] + [CRLF];
    }
    out := Join(frame);
    assert out + Bulks([]) == out;
  }

  lemma JoinOne(b: bytes)
    ensures Join([b]) == b
  {
    assert [b][..0] == [];
  }

  lemma FrameStep(frame: seq<bytes>, part: bytes)
    ensures Join(frame + [BulkHeader(part)] + [part] + [CRLF]) == Join(frame) + Bulk(part)
  {
    hide BulkHeader;
    JoinPush(frame, BulkHeader(part));
    JoinPush(frame + [BulkHeader(part)], part);
    JoinPush(frame + [BulkHeader(part)] + [part], CRLF);
  }

  // ---- Reading ----

  /** Length of the first line including its LF, or of the whole stream when there is none. */
  function LineLength(s: bytes): (n: nat)
    ensures n <= |s|
  {
    if |s| == 0 then 0 else if s[0] == LF then 1 else 1 + LineLength(s[1..])
  }

  /** `_read_line`. */
  function ReadLine(s: bytes): Reading<bytes> {
    var line := s[..LineLength(s)];
    var rest := s[LineLength(s)..];
    if |line| == 0 then Reading(Err(EndOfStream), rest)
    else if !EndsWith(line, CRLF) then Reading(Err(Malformed), rest)
    else Reading(Ok(line[..|line| - 2]), rest)
  }

  predicate IsSpace(b: byte) {
    b == 32 || 9 <= b <= 13
  }

  function TrimStart(s: bytes): bytes {
    if |s| > 0 && IsSpace(s[0]) then TrimStart(s[1..]) else s
  }

  function TrimEnd(s: bytes): bytes {
    if |s| > 0 && IsSpace(s[|s| - 1]) then TrimEnd(s[..|s| - 1]) else s
  }

  /** Digits with single underscores allowed between them: the digits alone, when well formed. */
  function Ungrouped(s: bytes): Option<bytes> {
    if |s| == 0 then None
    else if !IsDigit(s[|s| - 1]) then None
    else if |s| == 1 then Some(s)
    else
      var before := if s[|s| - 2] == 95 then s[..|s| - 2] else s[..|s| - 1];
      match Ungrouped(before)
      case None => None
      case Some(d) => Some(d + [s[|s| - 1]])
  }

  /** `int(...)` of a byte string in base ten: surrounding space, a sign and grouping underscores are allowed. */
  function ParseInt(s: bytes): Option<int> {
    var t := TrimEnd(TrimStart(s));
    var signed := |t| > 0 && (t[0] == 43 || t[0] == 45);
    match Ungrouped(if signed then t[1..] else t)
    case None => None
    case Some(d) =>
      if !AllDigits(d) then None
      else
        var n: int := ValueOf(d);
        Some(if signed && t[0] == 45 then -n else n)
  }

  function ReadInt(s: bytes): Reading<int> {
    var line := ReadLine(s);
    match line.result
    case Err(e) => Reading(Err(e), line.rest)
    case Ok(text) =>
      Reading(if ParseInt(text).Some? then Ok(ParseInt(text).value) else Err(Malformed), line.rest)
  }

  function Decoded(text: bytes): Result<Value> {
    if Valid(text) then Ok(Str(text)) else Err(Malformed)
  }

  /** The body of a bulk string of `n` bytes; a short read still consumes what there is. */
  function ReadBulk(s: bytes, n: int): Reading<Value> {
    if n < 0 then Reading(Err(Malformed), s)
    else if |s| < n + 2 then Reading(Err(Malformed), [])
    else Reading(if s[n..n + 2] == CRLF then Decoded(s[..n]) else Err(Malformed), s[n + 2..])
  }

  /** `read_resp`. */
  function ReadResp(s: bytes): (r: Reading<Value>)
    ensures |s| > 0 ==> |r.rest| < |s|
    ensures |s| == 0 ==> r == Reading(Err(EndOfStream), [])
    decreases |s|, 0
  {
    if |s| == 0 then Reading(Err(EndOfStream), [])
    else
      var prefix, body := s[0], s[1..];
      if prefix == 43 || prefix == 45 then
        var line := ReadLine(body);
        Reading(match line.result
             case Err(e) => Err(e)
             case Ok(text) =>
               if !Valid(text) then Err(Malformed) else if prefix == 43 then Ok(Str(text)) else Err(ServerError(text)),
             line.rest)
      else if prefix == 58 then
        var n := ReadInt(body);
        Reading(match n.result case Err(e) => Err(e) case Ok(k) => Ok(Int(k)), n.rest)
      else if prefix == 36 then
        var n := ReadInt(body);
        match n.result
        case Err(e) => Reading(Err(e), n.rest)
        case Ok(k) => if k == -1 then Reading(Ok(Nil), n.rest) else ReadBulk(n.rest, k)
      else if prefix == 42 then
        var n := ReadInt(body);
        match n.result
        case Err(e) => Reading(Err(e), n.rest)
        case Ok(k) =>
          if k == -1 then Reading(Ok(Nil), n.rest)
          else
            var items := ReadMany(n.rest, if k < 0 then 0 else k);
            Reading(match items.result case Err(e) => Err(e) case Ok(vs) => Ok(Arr(vs)), items.rest)
      else Reading(Err(Malformed), body)
  }

  /** The list comprehension over `range(n)`, which stops at the first exception. */
  function ReadMany(s: bytes, n: nat): (r: Reading<seq<Value>>)
    ensures |r.rest| <= |s|
    decreases |s|, 1
  {
    if n == 0 then Reading(Ok([]), s)
    else
      var first := ReadResp(s);
      match first.result
      case Err(e) => Reading(Err(e), first.rest)
      case Ok(v) =>
        var others := ReadMany(first.rest, n - 1);
        Reading(match others.result case Err(e) => Err(e) case Ok(vs) => Ok([v] + vs), others.rest)
  }

  // ---- Over a stream, the way the client reads it ----

  class Stream {
    var rest: bytes

    constructor (data: bytes)
      ensures rest == data
    {
      rest := data;
    }

    method Read(n: nat) returns (data: bytes)
      modifies this
      ensures data == (if |old(rest)| < n then old(rest) else old(rest)[..n])
      ensures rest == (if |old(rest)| < n then [] else old(rest)[n..])
    {
      var k := if |rest| < n then |rest| else n;
      data := rest[..k];
      rest := rest[k..];
    }

    method Line() returns (result: Result<bytes>)
      modifies this
      ensures Reading(result, rest) == ReadLine(old(rest))
    {
      var line := Read(LineLength(rest));
      if |line| == 0 {
        return Err(EndOfStream);
      }
      if !EndsWith(line, CRLF) {
        return Err(Malformed);
      }
      result := Ok(line[..|line| - 2]);
    }

    method Int() returns (result: Result<int>)
      modifies this
      ensures Reading(result, rest) == ReadInt(old(rest))
    {
      var line := Line();
      match line {
        case Err(e) => result := Err(e);
        case Ok(text) => result := if ParseInt(text).Some? then Ok(ParseInt(text).value) else Err(Malformed);
      }
    }

    method BulkBody(length: int) returns (result: Result<Value>)
      modifies this
      ensures Reading(result, rest) == ReadBulk(old(rest), length)
    {
      if length < 0 {
        return Err(Malformed);
      }
      ghost var s := rest;
      var data := Read(length);
      var terminator := Read(2);
      if |data| != length || terminator != CRLF {
        assert |s| >= length + 2 ==> terminator == s[length..length + 2];
        return Err(Malformed);
      }
      assert s[length..][2..] == s[length + 2..];
      result := Decoded(data);
    }

    /** `read_resp`, advancing the stream. */
    method Resp() returns (result: Result<Value>)
      modifies this
      ensures Reading(result, rest) == ReadResp(old(rest))
      decreases |rest|, 0
    {
      var prefix := Read(1);
      if |prefix| == 0 {
        return Err(EndOfStream);
      }
      match prefix[0] {
        case 43 =>
          var line := Line();
          result := match line case Err(e) => Err(e) case Ok(text) => Decoded(text);
        case 45 =>
          var line := Line();
          result := match line
            case Err(e) => Err(e)
            case Ok(text) => Err(if Valid(text) then ServerError(text) else Malformed);
        case 58 =>
          var n := Int();
          result := match n case Err(e) => Err(e) case Ok(k) => Ok(Value.Int(k));
        case 36 =>
          var n := Int();
          if n.Err? {
            return Err(n.error);
          }
          if n.value == -1 {
            return Ok(Nil);
          }
          result := BulkBody(n.value);
        case 42 =>
          var n := Int();
          if n.Err? {
            return Err(n.error);
          }
          if n.value == -1 {
            return Ok(Nil);
          }
          var items := Many(if n.value < 0 then 0 else n.value);
          result := match items case Err(e) => Err(e) case Ok(vs) => Ok(Arr(vs));
        case _ =>
          result := Err(Malformed);
      }
    }

    method Many(count: nat) returns (result: Result<seq<Value>>)
      modifies this
      ensures Reading(result, rest) == ReadMany(old(rest), count)
      decreases |rest|, 1
    {
      hide ReadResp, Prepended;
      ghost var start := rest;
      var items: seq<Value> := [];
      var left: nat := count;
      PrependNothing(ReadMany(rest, count));
      while left > 0
        invariant left <= count && |rest| <= |start|
        invariant ReadMany(start, count) == Prepended(items, ReadMany(rest, left))
        decreases left
      {
        PrependFirst(items, rest, left);
        var item := Resp();
        if item.Err? {
          return Err(item.error);
        }
        items := items + [item.value];
        left := left - 1;
      }
      PrependNoMore(items, rest);
      result := Ok(items);
    }
  }

  lemma PrependNothing(more: Reading<seq<Value>>)
    ensures Prepended([], more) == more
  {
    if more.result.Ok? {
      assert [] + more.result.value == more.result.value;
    }
  }

  lemma PrependNoMore(items: seq<Value>, s: bytes)
    ensures Prepended(items, ReadMany(s, 0)) == Reading(Ok(items), s)
  {
    assert items + [] == items;
  }

  /** Reading one more value moves it from what is still to be read to what has been. */
  lemma PrependFirst(items: seq<Value>, s: bytes, left: nat)
    requires left > 0
    ensures var first := ReadResp(s);
      Prepended(items, ReadMany(s, left))
      == match first.result
         case Err(e) => Reading(Err(e), first.rest)
         case Ok(v) => Prepended(items + [v], ReadMany(first.rest, left - 1))
  {
    hide ReadResp;
    var first := ReadResp(s);
    if first.result.Ok? {
      var others := ReadMany(first.rest, left - 1);
      if others.result.Ok? {
        assert items + ([first.result.value] + others.result.value)
            == items + [first.result.value] + others.result.value;
      }
    }
  }

  /** The outcome of reading more values after `items`. */
  function Prepended(items: seq<Value>, more: Reading<seq<Value>>): Reading<seq<Value>> {
    Reading(match more.result case Err(e) => Err(e) case Ok(vs) => Ok(items + vs), more.rest)
  }

  // ---- Decoding inverts encoding ----

  lemma {:induction false} LineLengthBeforeCrlf(text: bytes, rest: bytes)
    requires AllDigits(text)
    ensures LineLength(text + CRLF + rest) == |text| + 2
  {
    var s := text + CRLF + rest;
    if |text| == 0 {
      assert s[1] == LF && s[1..][0] == LF;
    } else {
      LineLengthBeforeCrlf(text[1..], rest);
      assert s[0] == text[0] && s[1..] == text[1..] + CRLF + rest;
    }
  }

  lemma ReadDigitsLine(text: bytes, rest: bytes)
    requires AllDigits(text)
    ensures ReadLine(text + CRLF + rest) == Reading(Ok(text), rest)
  {
    LineLengthBeforeCrlf(text, rest);
    var s := text + CRLF + rest;
    assert s[..|text| + 2] == text + CRLF;
    assert s[|text| + 2..] == rest;
  }

  lemma {:induction false} UngroupedDigits(d: bytes)
    requires |d| > 0 && AllDigits(d)
    ensures Ungrouped(d) == Some(d)
  {
    if |d| > 1 {
      UngroupedDigits(d[..|d| - 1]);
      assert IsDigit(d[|d| - 2]) && IsDigit(d[|d| - 1]);
      assert d[..|d| - 1] + [d[|d| - 1]] == d;
    }
  }

  lemma ParseDigits(n: nat)
    ensures ParseInt(Digits(n)) == Some(n)
  {
    var d := Digits(n);
    assert IsDigit(d[0]) && IsDigit(d[|d| - 1]);
    UngroupedDigits(d);
    ValueOfDigits(n);
  }

  /** The count after a `*` or a `$`, as the encoder writes it. */
  lemma ReadCount(n: nat, rest: bytes)
    ensures ReadInt(Digits(n) + CRLF + rest) == Reading(Ok(n), rest)
  {
    ReadDigitsLine(Digits(n), rest);
    ParseDigits(n);
  }

  lemma ReadBulkBody(part: bytes, rest: bytes)
    requires Valid(part)
    ensures ReadBulk(part + CRLF + rest, |part|) == Reading(Ok(Str(part)), rest)
  {
    hide Valid;
    var s, n := part + CRLF + rest, |part|;
    assert s[n..n + 2] == CRLF && s[..n] == part && s[n + 2..] == rest;
  }

  /** One part comes back whole, CR LF inside it and all, and nothing after it is touched. */
  lemma ReadBulkPart(part: bytes, rest: bytes)
    requires Valid(part)
    ensures ReadResp(Bulk(part) + rest) == Reading(Ok(Str(part)), rest)
  {
    hide Valid, Digits, ReadInt, ReadBulk;
    var s := Bulk(part) + rest;
    assert s[0] == 36;
    assert s[1..] == Digits(|part|) + CRLF + (part + CRLF + rest);
    ReadCount(|part|, part + CRLF + rest);
    ReadBulkBody(part, rest);
  }

  function Strings(parts: seq<bytes>): seq<Value> {
    seq(|parts|, i requires 0 <= i < |parts| => Str(parts[i]))
  }

  lemma {:induction false} ReadBulkParts(parts: seq<bytes>, rest: bytes)
    requires forall i :: 0 <= i < |parts| ==> Valid(parts[i])
    ensures ReadMany(Bulks(parts) + rest, |parts|) == Reading(Ok(Strings(parts)), rest)
  {
    hide Valid, ReadResp, Bulk;
    if |parts| == 0 {
      assert Bulks(parts) + rest == rest;
      assert Strings(parts) == [];
    } else {
      var more := Bulks(parts[1..]) + rest;
      assert Bulks(parts) + rest == Bulk(parts[0]) + more;
      ReadBulkPart(parts[0], more);
      ReadBulkParts(parts[1..], rest);
      assert Strings(parts) == [Str(parts[0])] + Strings(parts[1..]);
    }
  }

  /** Reading an encoded command gives its parts and consumes exactly its frame. */
  lemma DecodeInvertsEncode(parts: seq<bytes>, rest: bytes)
    requires forall i :: 0 <= i < |parts| ==> Valid(parts[i])
    ensures ReadResp(Encode(parts) + rest) == Reading(Ok(Arr(Strings(parts))), rest)
  {
    hide Valid, Digits, ReadInt, ReadMany;
    var s := Encode(parts) + rest;
    assert s[0] == 42;
    assert s[1..] == Digits(|parts|) + CRLF + (Bulks(parts) + rest);
    ReadCount(|parts|, Bulks(parts) + rest);
    ReadBulkParts(parts, rest);
  }

  function EncodeAll(commands: seq<seq<bytes>>): bytes {
    if |commands| == 0 then [] else Encode(commands[0]) + EncodeAll(commands[1..])
  }

  function Commands(commands: seq<seq<bytes>>): seq<Value> {
    seq(|commands|, i requires 0 <= i < |commands| => Arr(Strings(commands[i])))
  }

  /** Commands sent one after another decode to the same commands in the same order. */
  lemma {:induction false} PipelinedCommandsDecode(commands: seq<seq<bytes>>, rest: bytes)
    requires forall i, j :: 0 <= i < |commands| && 0 <= j < |commands[i]| ==> Valid(commands[i][j])
    ensures ReadMany(EncodeAll(commands) + rest, |commands|) == Reading(Ok(Commands(commands)), rest)
  {
    hide Valid, ReadResp, Encode;
    if |commands| == 0 {
      assert EncodeAll(commands) + rest == rest;
      assert Commands(commands) == [];
    } else {
      var more := EncodeAll(commands[1..]) + rest;
      assert EncodeAll(commands) + rest == Encode(commands[0]) + more;
      DecodeInvertsEncode(commands[0], more);
      PipelinedCommandsDecode(commands[1..], rest);
      assert Commands(commands) == [Arr(Strings(commands[0]))] + Commands(commands[1..]);
    }
  }

  /** No two commands share an encoding, nor is one a prefix of another's. */
  lemma EncodingIsPrefixFree(a: seq<bytes>, b: seq<bytes>, x: bytes, y: bytes)
    requires forall i :: 0 <= i < |a| ==> Valid(a[i])
    requires forall i :: 0 <= i < |b| ==> Valid(b[i])
    requires Encode(a) + x == Encode(b) + y
    ensures a == b && x == y
  {
    hide Valid, ReadResp, Encode;
    DecodeInvertsEncode(a, x);
    DecodeInvertsEncode(b, y);
    assert |Strings(a)| == |Strings(b)|;
    forall i | 0 <= i < |a| ensures a[i] == b[i] {
      assert Strings(a)[i] == Strings(b)[i];
    }
  }
}
