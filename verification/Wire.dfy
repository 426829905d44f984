/** The bounded line reader over a chunked byte stream, and the newline-framed writer. */
module Wire {
  import opened Bytes
  import opened Json

  datatype ReadResult = Line(text: bytes) | EndOfInput | TooLong | InvalidUtf8

  /** A buffered reader: the chunks its source will still deliver, none of them empty. */
  class Reader {
    var chunks: seq<bytes>

    ghost predicate Valid()
      reads this
    {
      forall i :: 0 <= i < |chunks| ==> chunks[i] != []
    }

    constructor (chunks: seq<bytes>)
      requires forall i :: 0 <= i < |chunks| ==> chunks[i] != []
      ensures Valid() && this.chunks == chunks
    {
      this.chunks := chunks;
    }

    /** `fill_buf`: the bytes at hand, none at the end of the input. */
    method FillBuf() returns (chunk: bytes)
      requires Valid()
      ensures chunk == if |chunks| > 0 then chunks[0] else []
    {
      chunk := if |chunks| > 0 then chunks[0] else [];
    }

    method Consume(n: nat)
      requires Valid() && |chunks| > 0 && 0 < n <= |chunks[0]|
      modifies this
      ensures Valid()
      ensures chunks == if n == |old(chunks)[0]| then old(chunks)[1..] else [old(chunks)[0][n..]] + old(chunks)[1..]
    {
      if n == |chunks[0]| {
        chunks := chunks[1..];
      } else {
        chunks := [chunks[0][n..]] + chunks[1..];
      }
    }
  }

  function Flatten(chunks: seq<bytes>): bytes {
    if |chunks| == 0 then [] else chunks[0] + Flatten(chunks[1..])
  }

  /** Position of the first line feed, or the length when there is none. */
  function LfIndex(s: bytes): (i: nat)
    ensures i <= |s|
    ensures i < |s| ==> s[i] == LF
    ensures forall j :: 0 <= j < i ==> s[j] != LF
  {
    if |s| == 0 || s[0] == LF then 0 else 1 + LfIndex(s[1..])
  }

  /** The line without its terminator, LF or CR LF. */
  function Stripped(line: bytes): bytes
    requires |line| > 0
  {
    var body := line[..|line| - 1];
    if EndsWith(body, [CR]) then body[..|body| - 1] else body
  }

  /** What reading one line of at most `max` bytes from `input` gives, without regard to chunks. */
  function ReadSpec(input: bytes, max: nat): ReadResult {
    var i := LfIndex(input);
    if i == |input| then
      if |input| > max then TooLong else EndOfInput
    else if i + 1 > max then TooLong
    else LineOf(input[..i + 1])
  }

  function LineOf(line: bytes): ReadResult
    requires |line| > 0
  {
    if Utf8.Valid(Stripped(line)) then Line(Stripped(line)) else InvalidUtf8
  }

  /** The first LF stands at `i`. */
  predicate IsFirstLf(s: bytes, i: nat) {
    i < |s| && s[i] == 10 && 10 !in s[..i]
  }

  /** `text` is the line without the CR it may end in. */
  predicate IsBodyOf(line: bytes, text: bytes) {
    line == text + [13] || (line == text && (text == [] || text[|text| - 1] != 13))
  }

  lemma NoLfIn(s: bytes)
    ensures LfIndex(s) == |s| <==> 10 !in s
    ensures forall i: nat :: IsFirstLf(s, i) <==> i < |s| && i == LfIndex(s)
  {
    hide LfIndex;
    assert forall i: nat, j: nat :: j < i <= |s| ==> s[..i][j] == s[j];
  }

  lemma BodyIs(line: bytes, text: bytes)
    requires |line| > 0
    ensures Stripped(line) == text <==> IsBodyOf(line[..|line| - 1], text)
  {
    var body := line[..|line| - 1];
    if EndsWith(body, [CR]) {
      assert body == body[..|body| - 1] + [13];
    }
    if body == text + [13] {
      assert body[|body| - 1..] == [CR] && body[..|body| - 1] == text;
    }
  }

  /**
   What reading a line gives: a text exactly when the first LF is within the limit and the bytes before it,
   without a CR at their end, are that text in UTF-8; the encoding error when they are not UTF-8; the length
   error when the first LF, or with no LF the input, goes past the limit; and the end of input otherwise.
   */
  lemma ReadIff(input: bytes, max: nat, text: bytes)
    ensures ReadSpec(input, max) == Line(text)
      <==> exists i: nat :: IsFirstLf(input, i) && i < max && IsBodyOf(input[..i], text) && Utf8.Valid(text)
    ensures ReadSpec(input, max) == InvalidUtf8
      <==> exists i: nat, body: bytes ::
             IsFirstLf(input, i) && i < max && IsBodyOf(input[..i], body) && !Utf8.Valid(body)
    ensures ReadSpec(input, max) == TooLong
      <==> (exists i: nat :: IsFirstLf(input, i) && i >= max) || (10 !in input && |input| > max)
    ensures ReadSpec(input, max) == EndOfInput <==> 10 !in input && |input| <= max
  {
    hide LfIndex, Utf8.Valid, Stripped, IsBodyOf;
    NoLfIn(input);
    var i := LfIndex(input);
    if i < |input| {
      var line := input[..i + 1];
      assert line[..|line| - 1] == input[..i];
      BodyIs(line, text);
      BadBody(line);
      assert IsFirstLf(input, i);
    }
  }

  lemma BadBody(line: bytes)
    requires |line| > 0
    ensures LineOf(line) == InvalidUtf8
      <==> exists body: bytes :: IsBodyOf(line[..|line| - 1], body) && !Utf8.Valid(body)
  {
    hide Utf8.Valid, Stripped, IsBodyOf;
    var text, content := Stripped(line), line[..|line| - 1];
    BodyIs(line, text);
    assert LineOf(line) == InvalidUtf8 <==> !Utf8.Valid(text);
    forall body: bytes | IsBodyOf(content, body) ensures body == text {
      BodyIs(line, body);
    }
  }

  lemma {:induction false} LfIndexConcat(a: bytes, b: bytes)
    ensures LfIndex(a + b) == if LfIndex(a) < |a| then LfIndex(a) else |a| + LfIndex(b)
  {
    if a == [] {
      assert a + b == b;
    } else if a[0] != LF {
      LfIndexConcat(a[1..], b);
      assert (a + b)[1..] == a[1..] + b;
    }
  }

  /** How much of the next chunk the reader takes: through its LF, or all of it. */
  function Take(chunk: bytes): (n: nat)
    requires |chunk| > 0
    ensures 0 < n <= |chunk|
  {
    if LfIndex(chunk) < |chunk| then LfIndex(chunk) + 1 else |chunk|
  }

  lemma TakeIs(chunk: bytes)
    requires |chunk| > 0
    ensures Take(chunk) == if LfIndex(chunk) < |chunk| then LfIndex(chunk) + 1 else |chunk|
  {
  }

  /** Taking past `max` bytes is the error, whether or not the line ends in this chunk. */
  lemma TakeTooLong(buf: bytes, chunk: bytes, rest: bytes, max: nat)
    requires LfIndex(buf) == |buf| && |chunk| > 0 && |buf| + Take(chunk) > max
    ensures ReadSpec(buf + chunk + rest, max) == TooLong
  {
    LfIndexConcat(buf, chunk);
    LfIndexConcat(buf + chunk, rest);
  }

  /** When the line ends in this chunk, the buffer is the line and the rest of the input follows it. */
  lemma TakeLine(buf: bytes, chunk: bytes, rest: bytes, max: nat)
    requires LfIndex(buf) == |buf| && LfIndex(chunk) < |chunk| && |buf| + Take(chunk) <= max
    ensures var line := buf + chunk[..Take(chunk)]; var input := buf + chunk + rest;
      && line[|line| - 1] == LF
      && LfIndex(input) < |input| && input[LfIndex(input) + 1..] == chunk[Take(chunk)..] + rest
      && ReadSpec(input, max) == LineOf(line)
  {
    hide LineOf;
    LfIndexConcat(buf, chunk);
    LfIndexConcat(buf + chunk, rest);
    LineSplit(buf, chunk, rest, Take(chunk));
  }

  lemma LineSplit(buf: bytes, chunk: bytes, rest: bytes, take: nat)
    requires take <= |chunk|
    ensures (buf + chunk[..take]) + (chunk[take..] + rest) == buf + chunk + rest
    ensures take == |chunk| ==> chunk[..take] == chunk && chunk[take..] + rest == rest
    ensures (buf + chunk + rest)[..|buf| + take] == buf + chunk[..take]
    ensures (buf + chunk + rest)[|buf| + take..] == chunk[take..] + rest
  {
  }

  /** Otherwise the whole chunk joins the buffer, which still has no LF. */
  lemma TakeAll(buf: bytes, chunk: bytes)
    requires LfIndex(buf) == |buf| && |chunk| > 0 && LfIndex(chunk) == |chunk|
    ensures LfIndex(buf + chunk) == |buf + chunk| && (buf + chunk)[|buf + chunk| - 1] != LF
  {
    LfIndexConcat(buf, chunk);
  }

  /** In either case the buffer and what is left make up the input, and the buffer is the line, or has no LF. */
  lemma TakePart(buf: bytes, chunk: bytes, rest: bytes, max: nat)
    requires LfIndex(buf) == |buf| && |chunk| > 0 && |buf| + Take(chunk) <= max
    ensures var b, r, input := buf + chunk[..Take(chunk)], chunk[Take(chunk)..] + rest, buf + chunk + rest;
      && b + r == input
      && (b[|b| - 1] == LF ==> ReadSpec(input, max) == LineOf(b) && r == input[LfIndex(input) + 1..])
      && (b[|b| - 1] != LF ==> LfIndex(b) == |b|)
  {
    LineSplit(buf, chunk, rest, Take(chunk));
    if LfIndex(chunk) < |chunk| {
      TakeLine(buf, chunk, rest, max);
    } else {
      TakeAll(buf, chunk);
    }
  }

  /** Pops the LF, then a CR, and checks the encoding. */
  method StripAndDecode(line: bytes) returns (result: ReadResult)
    requires |line| > 0 && line[|line| - 1] == LF
    ensures result == LineOf(line) && !result.EndOfInput? && !result.TooLong?
  {
    var buf := line[..|line| - 1];
    if EndsWith(buf, [CR]) {
      buf := buf[..|buf| - 1];
    }
    result := if Utf8.Valid(buf) then Line(buf) else InvalidUtf8;
  }

  /**
   `read_bounded_line`. The result depends only on the bytes still to come, not on how they are
   chunked; a line consumes exactly itself; and what is taken, which is all the buffer holds, never outgrows
   `max`.
   */
  method ReadBoundedLine(stdin: Reader, max: nat) returns (result: ReadResult, ghost taken: bytes)
    requires stdin.Valid()
    modifies stdin
    ensures stdin.Valid()
    ensures result == ReadSpec(Flatten(old(stdin.chunks)), max)
    ensures result.Line? || result.InvalidUtf8? ==>
      var input := Flatten(old(stdin.chunks)); Flatten(stdin.chunks) == input[LfIndex(input) + 1..]
    ensures result.EndOfInput? ==> stdin.chunks == []
    ensures |taken| <= max && Flatten(old(stdin.chunks)) == taken + Flatten(stdin.chunks)
    ensures result.TooLong? ==> LfIndex(taken) == |taken|
  {
    hide ReadSpec, LineOf, LfIndex, Flatten;
    ghost var input := Flatten(stdin.chunks);
    var buf: bytes := [];
    taken := [];
    assert LfIndex([]) == 0;
    while true
      invariant stdin.Valid()
      invariant input == buf + Flatten(stdin.chunks)
      invariant LfIndex(buf) == |buf| <= max && taken == buf
      decreases |Flatten(stdin.chunks)|
    {
      var chunk := stdin.FillBuf();
      if |chunk| == 0 {
        FlattenFirst(stdin.chunks);
        assert input == buf;
        EndOfInputSpec(buf, max);
        return EndOfInput, taken;
      }
      var fits: bool;
      buf, fits := TakeChunk(stdin, chunk, buf, max, input);
      taken := buf;
      if !fits {
        return TooLong, taken;
      }
      if buf[|buf| - 1] == LF {
        result := StripAndDecode(buf);
        return;
      }
    }
  }

  /** One round: the bytes of the chunk through its LF, or all of it, move to the buffer if they fit. */
  method TakeChunk(stdin: Reader, chunk: bytes, buf: bytes, max: nat, ghost input: bytes)
    returns (buf': bytes, fits: bool)
    requires stdin.Valid() && |stdin.chunks| > 0 && chunk == stdin.chunks[0]
    requires input == buf + Flatten(stdin.chunks) && LfIndex(buf) == |buf| <= max
    modifies stdin
    ensures stdin.Valid() && input == buf' + Flatten(stdin.chunks) && |buf'| <= max
    ensures !fits ==> buf' == buf && ReadSpec(input, max) == TooLong
    ensures fits ==> |buf'| > 0 && |Flatten(stdin.chunks)| < |Flatten(old(stdin.chunks))|
    ensures fits && buf'[|buf'| - 1] == LF ==>
      ReadSpec(input, max) == LineOf(buf') && Flatten(stdin.chunks) == input[LfIndex(input) + 1..]
    ensures fits && buf'[|buf'| - 1] != LF ==> LfIndex(buf') == |buf'|
  {
    hide ReadSpec, LineOf, LfIndex, Flatten, Take;
    FlattenFirst(stdin.chunks);
    ghost var rest := Flatten(stdin.chunks[1..]);
    ConcatAssoc(buf, chunk, rest);
    var lf := LfIndex(chunk);
    var take := if lf < |chunk| then lf + 1 else |chunk|;
    assert take == Take(chunk) by { TakeIs(chunk); }
    if |buf| + take > max {
      TakeTooLong(buf, chunk, rest, max);
      return buf, false;
    }
    FlattenAfterConsume(stdin.chunks, take);
    TakePart(buf, chunk, rest, max);
    stdin.Consume(take);
    buf' := buf + chunk[..take];
    fits := true;
  }

  lemma FlattenFirst(chunks: seq<bytes>)
    ensures Flatten(chunks) == if |chunks| == 0 then [] else chunks[0] + Flatten(chunks[1..])
  {
  }

  /** What `Consume` leaves to be read. */
  lemma FlattenAfterConsume(chunks: seq<bytes>, n: nat)
    requires |chunks| > 0 && n <= |chunks[0]|
    ensures Flatten([chunks[0][n..]] + chunks[1..]) == chunks[0][n..] + Flatten(chunks[1..])
    ensures n == |chunks[0]| ==> Flatten(chunks[1..]) == chunks[0][n..] + Flatten(chunks[1..])
  {
    assert ([chunks[0][n..]] + chunks[1..])[1..] == chunks[1..];
  }

  lemma EndOfInputSpec(input: bytes, max: nat)
    requires LfIndex(input) == |input| <= max || input == []
    ensures ReadSpec(input, max) == EndOfInput
  {
  }

  // ---- Framing ----

  function Frames(texts: seq<bytes>): bytes {
    if |texts| == 0 then [] else texts[0] + [LF] + Frames(texts[1..])
  }

  /** `writer_task`: each message serialized, one line each. */
  method WriterTask(messages: seq<Json>) returns (stdout: bytes)
    ensures stdout == Frames(Texts(messages))
  {
    stdout := [];
    for i := 0 to |messages|
      invariant stdout + Frames(Texts(messages[i..])) == Frames(Texts(messages))
    {
      var line := Serialize(messages[i]) + [LF];
      assert Texts(messages[i..])[1..] == Texts(messages[i + 1..]);
      stdout := stdout + line;
    }
  }

  function Texts(messages: seq<Json>): seq<bytes> {
    seq(|messages|, i requires 0 <= i < |messages| => Serialize(messages[i]))
  }

  /** What the framing can carry. */
  predicate Frameable(text: bytes, max: nat) {
    LfIndex(text) == |text| && !EndsWith(text, [CR]) && |text| + 1 <= max && Utf8.Valid(text)
  }

  /** A framed text is read back exactly when it has no LF, no trailing CR, is UTF-8, and fits. */
  lemma ReadFrameIff(text: bytes, rest: bytes, max: nat)
    ensures ReadSpec(text + [LF] + rest, max) == Line(text) <==> Frameable(text, max)
    ensures LfIndex(text) == |text| ==> LfIndex(text + [LF] + rest) == |text|
  {
    hide Utf8.Valid;
    var input := text + [LF] + rest;
    LfIndexConcat(text, [LF]);
    LfIndexConcat(text + [LF], rest);
    var i := LfIndex(input);
    var line := input[..i + 1];
    assert line[..i] == input[..i];
    if i == |text| {
      assert input[..i] == text;
      if EndsWith(text, [CR]) {
        assert |Stripped(line)| == |text| - 1;
      }
    }
  }

  /** The texts read until the reader stops. */
  function ReadTexts(input: bytes, max: nat): seq<bytes>
    decreases |input|
  {
    var r := ReadSpec(input, max);
    if !r.Line? then [] else [r.text] + ReadTexts(input[LfIndex(input) + 1..], max)
  }

  /** Why it stopped. */
  function StopReason(input: bytes, max: nat): ReadResult
    decreases |input|
  {
    var r := ReadSpec(input, max);
    if !r.Line? then r else StopReason(input[LfIndex(input) + 1..], max)
  }

  lemma LineEndsInInput(input: bytes, max: nat)
    ensures ReadSpec(input, max).Line? ==> LfIndex(input) < |input|
  {
  }

  lemma ReadOneMore(input: bytes, max: nat)
    ensures var r := ReadSpec(input, max);
      if r.Line? then
        && LfIndex(input) < |input|
        && ReadTexts(input, max) == [r.text] + ReadTexts(input[LfIndex(input) + 1..], max)
        && StopReason(input, max) == StopReason(input[LfIndex(input) + 1..], max)
      else ReadTexts(input, max) == [] && StopReason(input, max) == r
  {
    hide ReadSpec, LfIndex, ReadTexts, StopReason;
    LineEndsInInput(input, max);
    OneMoreText(input, max);
    OneMoreReason(input, max);
  }

  lemma OneMoreText(input: bytes, max: nat)
    requires ReadSpec(input, max).Line? ==> LfIndex(input) < |input|
    ensures var r := ReadSpec(input, max);
      ReadTexts(input, max) == if !r.Line? then [] else [r.text] + ReadTexts(input[LfIndex(input) + 1..], max)
  {
    hide ReadSpec, LfIndex;
  }

  lemma OneMoreReason(input: bytes, max: nat)
    requires ReadSpec(input, max).Line? ==> LfIndex(input) < |input|
    ensures var r := ReadSpec(input, max);
      StopReason(input, max) == if !r.Line? then r else StopReason(input[LfIndex(input) + 1..], max)
  {
    hide ReadSpec, LfIndex;
  }

  method ReadLines(stdin: Reader, max: nat) returns (texts: seq<bytes>, last: ReadResult)
    requires stdin.Valid()
    modifies stdin
    ensures texts == ReadTexts(Flatten(old(stdin.chunks)), max)
    ensures last == StopReason(Flatten(old(stdin.chunks)), max)
  {
    hide ReadSpec, LfIndex, Flatten, ReadTexts, StopReason;
    texts := [];
    ghost var input := Flatten(stdin.chunks);
    while true
      invariant stdin.Valid()
      invariant ReadTexts(input, max) == texts + ReadTexts(Flatten(stdin.chunks), max)
      invariant StopReason(input, max) == StopReason(Flatten(stdin.chunks), max)
      decreases |Flatten(stdin.chunks)|
    {
      ghost var before := Flatten(stdin.chunks);
      LineEndsInInput(before, max);
      ReadOneMore(before, max);
      ghost var taken: bytes;
      last, taken := ReadBoundedLine(stdin, max);
      if !last.Line? {
        return;
      }
      texts := texts + [last.text];
    }
  }

  /** Reading back what was framed gives the texts in order and then the end of the input. */
  lemma {:induction false} FramesRoundTrip(texts: seq<bytes>, max: nat)
    requires forall i :: 0 <= i < |texts| ==> Frameable(texts[i], max)
    ensures ReadTexts(Frames(texts), max) == texts && StopReason(Frames(texts), max) == EndOfInput
  {
    hide ReadSpec, Frameable, LfIndex;
    if |texts| == 0 {
      EndOfInputSpec([], max);
    } else {
      assert Frameable(texts[0], max);
      ReadFrameIff(texts[0], Frames(texts[1..]), max);
      FrameableHasNoLf(texts[0], max);
      FramesRoundTrip(texts[1..], max);
      assert Frames(texts)[|texts[0]| + 1..] == Frames(texts[1..]);
    }
  }

  lemma FrameableHasNoLf(text: bytes, max: nat)
    requires Frameable(text, max)
    ensures LfIndex(text) == |text|
  {
  }

  /** Whatever the writer sends within the limit, a reader gets back message by message, however it is chunked. */
  method WriteThenRead(messages: seq<Json>, chunks: seq<bytes>, max: nat) returns (texts: seq<bytes>)
    requires forall i :: 0 <= i < |messages| ==> WellFormed(messages[i]) && |Serialize(messages[i])| < max
    requires forall i :: 0 <= i < |chunks| ==> chunks[i] != []
    requires Flatten(chunks) == Frames(Texts(messages))
    ensures texts == Texts(messages)
  {
    var stdin := new Reader(chunks);
    var last: ReadResult;
    texts, last := ReadLines(stdin, max);
    forall i | 0 <= i < |messages| ensures Frameable(Texts(messages)[i], max) {
      JsonIsFrameable(messages[i], max);
    }
    FramesRoundTrip(Texts(messages), max);
  }

  /** Serialized JSON never contains a line feed or ends in a carriage return, so only its size matters. */
  lemma JsonIsFrameable(v: Json, max: nat)
    requires WellFormed(v)
    ensures Frameable(Serialize(v), max) <==> |Serialize(v)| < max
  {
    SerializedIsOneLine(v);
    var text := Serialize(v);
    assert |text| > 0 ==> text[|text| - 1..][0] == text[|text| - 1];
  }
}
