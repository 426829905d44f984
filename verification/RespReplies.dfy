/**
 Reading every kind of reply a Redis server sends, as the sections "Simple strings" to "Arrays" of the
 Redis serialization protocol describe them.
 */
module RespReplies {
  import opened Bytes
  import opened Decimal
  import opened Utf8
  import opened Resp

  datatype Reply =
    | Simple(text: bytes)
    | Failure(text: bytes)
    | Number(n: int)
    | BulkText(text: bytes)
    | NilBulk
    | NilArray
    | List(items: seq<Reply>)

  function Numeral(n: int): bytes {
    if n < 0 then [45] + Digits(-n) else Digits(n)
  }

  /** How the server writes it. */
  function Written(r: Reply): (w: bytes)
    ensures |w| > 0
    decreases r, 0
  {
    match r
    case Simple(text) => [43] + text + CRLF
    case Failure(text) => [45] + text + CRLF
    case Number(n) => [58] + Numeral(n) + CRLF
    case BulkText(text) => [36] + Numeral(|text|) + CRLF + text + CRLF
    case NilBulk => [36, 45, 49] + CRLF
    case NilArray => [42, 45, 49] + CRLF
    case List(items) => [42] + Numeral(|items|) + CRLF + WrittenAll(items)
  }

  function WrittenAll(items: seq<Reply>): bytes
    decreases items, 1
  {
    if |items| == 0 then [] else Written(items[0]) + WrittenAll(items[1..])
  }

  /** A line of text ends at its first LF. */
  predicate IsLine(text: bytes) {
    Valid(text) && LF !in text
  }

  predicate IsReply(r: Reply)
    decreases r
  {
    match r
    case Simple(text) => IsLine(text)
    case Failure(text) => IsLine(text)
    case BulkText(text) => Valid(text)
    case List(items) => forall i :: 0 <= i < |items| ==> IsReply(items[i])
    case _ => true
  }

  /** What it says: a value, or in a list the first error in it. */
  function Meaning(r: Reply): Result<Value>
    decreases r, 0
  {
    match r
    case Simple(text) => Ok(Str(text))
    case Failure(text) => Err(ServerError(text))
    case Number(n) => Ok(Int(n))
    case BulkText(text) => Ok(Str(text))
    case NilBulk => Ok(Nil)
    case NilArray => Ok(Nil)
    case List(items) => match Meanings(items) case Ok(vs) => Ok(Arr(vs)) case Err(e) => Err(e)
  }

  function Meanings(items: seq<Reply>): Result<seq<Value>>
    decreases items, 1
  {
    if |items| == 0 then Ok([])
    else
      match Meaning(items[0])
      case Err(e) => Err(e)
      case Ok(v) => match Meanings(items[1..]) case Ok(vs) => Ok([v] + vs) case Err(e) => Err(e)
  }

  // ---- Lines and numbers ----

  lemma {:induction false} LineLengthOf(text: bytes, rest: bytes)
    requires LF !in text
    ensures LineLength(text + CRLF + rest) == |text| + 2
  {
    var s := text + CRLF + rest;
    if |text| == 0 {
      assert s[1] == LF && s[1..][0] == LF;
    } else {
      assert text[0] in text && forall b :: b in text[1..] ==> b in text;
      LineLengthOf(text[1..], rest);
      assert s[0] == text[0] && s[1..] == text[1..] + CRLF + rest;
    }
  }

  lemma ReadTextLine(text: bytes, rest: bytes)
    requires LF !in text
    ensures ReadLine(text + CRLF + rest) == Reading(Ok(text), rest)
  {
    LineLengthOf(text, rest);
    var s := text + CRLF + rest;
    assert s[..|text| + 2] == text + CRLF;
    assert s[|text| + 2..] == rest;
  }

  predicate IsBlank(s: bytes) {
    forall i :: 0 <= i < |s| ==> s[i] == 32 || 9 <= s[i] <= 13
  }

  lemma {:induction false} TrimStartBlank(blank: bytes, s: bytes)
    requires IsBlank(blank) && (s == [] || !IsSpace(s[0]))
    ensures TrimStart(blank + s) == s
  {
    if |blank| > 0 {
      assert IsSpace((blank + s)[0]) && (blank + s)[1..] == blank[1..] + s;
      TrimStartBlank(blank[1..], s);
    } else {
      assert blank + s == s;
    }
  }

  lemma {:induction false} TrimEndBlank(s: bytes, blank: bytes)
    requires IsBlank(blank) && (s == [] || !IsSpace(s[|s| - 1]))
    ensures TrimEnd(s + blank) == s
  {
    if |blank| > 0 {
      var all := s + blank;
      assert IsSpace(all[|all| - 1]) && all[..|all| - 1] == s + blank[..|blank| - 1];
      TrimEndBlank(s, blank[..|blank| - 1]);
    } else {
      assert s + blank == s;
    }
  }

  /** A number is read with a sign of either kind or none, and with any blanks around it. */
  lemma NumbersAreRead(n: nat, before: bytes, after: bytes)
    requires IsBlank(before) && IsBlank(after)
    ensures ParseInt(before + Digits(n) + after) == Some(n)
    ensures ParseInt(before + ([43] + Digits(n)) + after) == Some(n)
    ensures var minus := ParseInt(before + ([45] + Digits(n)) + after); minus.Some? && minus.value + n == 0
  {
    hide Ungrouped, ValueOf, TrimStart, TrimEnd;
    var d := Digits(n);
    assert IsDigit(d[0]) && IsDigit(d[|d| - 1]);
    UngroupedDigits(d);
    ValueOfDigits(n);
    Trimmed(before, d, after);
    Trimmed(before, [43] + d, after);
    Trimmed(before, [45] + d, after);
    assert ([43] + d)[1..] == d && ([45] + d)[1..] == d;
  }

  lemma Trimmed(before: bytes, s: bytes, after: bytes)
    requires IsBlank(before) && IsBlank(after) && s != [] && !IsSpace(s[0]) && !IsSpace(s[|s| - 1])
    ensures TrimEnd(TrimStart(before + s + after)) == s
  {
    assert before + s + after == before + (s + after);
    TrimStartBlank(before, s + after);
    TrimEndBlank(s, after);
  }

  lemma ReadNumeral(n: int, rest: bytes)
    ensures ReadInt(Numeral(n) + CRLF + rest) == Reading(Ok(n), rest)
  {
    hide ParseInt;
    var text := Numeral(n);
    var m: nat := if n < 0 then -n else n;
    assert AllDigits(Digits(m)) && forall i :: 0 <= i < |Digits(m)| ==> IsDigit(Digits(m)[i]);
    assert LF !in text;
    NumbersAreRead(m, [], []);
    assert [] + text + [] == text;
    ReadTextLine(text, rest);
  }

  // ---- Replies ----

  lemma TextForm(prefix: byte, text: bytes, rest: bytes)
    requires (prefix == 43 || prefix == 45) && IsLine(text)
    ensures ReadResp([prefix] + (text + CRLF + rest))
      == Reading(if prefix == 43 then Ok(Str(text)) else Err(ServerError(text)), rest)
  {
    hide Valid, ReadMany, ReadLine, ReadInt, ReadBulk;
    var line := text + CRLF + rest;
    assert ([prefix] + line)[1..] == line;
    ReadTextLine(text, rest);
  }

  lemma NumberForm(n: int, rest: bytes)
    ensures ReadResp([58] + (Numeral(n) + CRLF + rest)) == Reading(Ok(Int(n)), rest)
  {
    hide Valid, ReadMany, ReadLine, ReadInt, ReadBulk, Numeral;
    var line := Numeral(n) + CRLF + rest;
    assert ([58] + line)[1..] == line;
    ReadNumeral(n, rest);
  }

  lemma ReadLineReply(r: Reply, rest: bytes)
    requires IsReply(r) && (r.Simple? || r.Failure? || r.Number?)
    ensures ReadResp(Written(r) + rest) == Reading(Meaning(r), rest)
  {
    hide IsLine, ReadResp, Numeral;
    var prefix: byte := if r.Simple? then 43 else if r.Failure? then 45 else 58;
    var text := if r.Number? then Numeral(r.n) else r.text;
    assert Written(r) + rest == [prefix] + (text + CRLF + rest);
    if r.Number? {
      NumberForm(r.n, rest);
    } else {
      TextForm(prefix, text, rest);
    }
  }

  lemma ReadBulkReply(r: Reply, rest: bytes)
    requires IsReply(r) && (r.BulkText? || r.NilBulk? || r.NilArray?)
    ensures ReadResp(Written(r) + rest) == Reading(Meaning(r), rest)
  {
    hide Valid, ReadInt, Numeral, ReadBulk;
    var s := Written(r) + rest;
    if r.BulkText? {
      ReadNumeral(|r.text|, r.text + CRLF + rest);
      assert s[1..] == Numeral(|r.text|) + CRLF + (r.text + CRLF + rest);
      ReadBulkBody(r.text, rest);
    } else {
      ReadNumeral(-1, rest);
      assert Numeral(-1) == [45, 49] by { MinusOne(); }
      assert s[1..] == Numeral(-1) + CRLF + rest;
    }
  }

  lemma MinusOne()
    ensures Numeral(-1) == [45, 49]
  {
  }

  /** The outcome of reading, and, unless that is an error, the stream left exactly after the reply. */
  predicate IsRead<T(==)>(got: Reading<T>, meaning: Result<T>, rest: bytes) {
    got.result == meaning && (meaning.Ok? ==> got.rest == rest)
  }

  /**
   Every reply is read as what it says: texts, bulk texts with any bytes in them, numbers of either sign, both
   kinds of nothing, and lists of any depth; an error raises with the server's own words, also from inside a
   list. What follows the reply is left alone.
   */
  lemma {:induction false} ReplyIsRead(r: Reply, rest: bytes)
    requires IsReply(r)
    ensures IsRead(ReadResp(Written(r) + rest), Meaning(r), rest)
    decreases r, 0
  {
    if r.Simple? || r.Failure? || r.Number? {
      ReadLineReply(r, rest);
    } else if r.List? {
      RepliesAreRead(r.items, rest);
      ListIsRead(r.items, rest);
    } else {
      ReadBulkReply(r, rest);
    }
  }

  lemma ListIsRead(items: seq<Reply>, rest: bytes)
    requires IsRead(ReadMany(WrittenAll(items) + rest, |items|), Meanings(items), rest)
    ensures IsRead(ReadResp(Written(List(items)) + rest), Meaning(List(items)), rest)
  {
    hide ReadInt, Numeral, ReadMany, WrittenAll;
    var s := Written(List(items)) + rest;
    ReadNumeral(|items|, WrittenAll(items) + rest);
    assert s[1..] == Numeral(|items|) + CRLF + (WrittenAll(items) + rest);
  }

  lemma {:induction false} RepliesAreRead(items: seq<Reply>, rest: bytes)
    requires forall i :: 0 <= i < |items| ==> IsReply(items[i])
    ensures IsRead(ReadMany(WrittenAll(items) + rest, |items|), Meanings(items), rest)
    decreases items, 1
  {
    hide IsReply, ReadResp, Written;
    if |items| == 0 {
      assert WrittenAll(items) + rest == rest;
    } else {
      var more := WrittenAll(items[1..]) + rest;
      assert WrittenAll(items) + rest == Written(items[0]) + more;
      ReplyIsRead(items[0], more);
      RepliesAreRead(items[1..], rest);
    }
  }

  /** Another first byte is malformed. */
  lemma OtherPrefixIsMalformed(s: bytes)
    requires |s| > 0 && s[0] != 43 && s[0] != 45 && s[0] != 58 && s[0] != 36 && s[0] != 42
    ensures ReadResp(s).result == Err(Malformed)
  {
  }

  /** So is a bulk text not followed by CR LF where its length says. */
  lemma UnendedBulkIsMalformed(text: bytes, end: bytes)
    requires |end| >= 2 && end[..2] != CRLF
    ensures ReadResp([36] + (Numeral(|text|) + CRLF + (text + end))).result == Err(Malformed)
  {
    hide ReadInt, Numeral, ReadBulk, ReadResp;
    BulkForm(|text|, text + end);
    UnendedBody(text, end);
  }

  lemma BulkForm(n: nat, body: bytes)
    ensures ReadResp([36] + (Numeral(n) + CRLF + body)) == ReadBulk(body, n)
  {
    hide ReadInt, Numeral, ReadBulk, ReadMany, ReadLine;
    var line := Numeral(n) + CRLF + body;
    assert ([36] + line)[1..] == line;
    ReadNumeral(n, body);
  }

  lemma UnendedBody(text: bytes, end: bytes)
    requires |end| >= 2 && end[..2] != CRLF
    ensures ReadBulk(text + end, |text|).result == Err(Malformed)
  {
    assert (text + end)[|text|..|text| + 2] == end[..2];
  }

  // ---- Commands ----

  function Texts(parts: seq<bytes>): seq<Reply> {
    if |parts| == 0 then [] else [BulkText(parts[0])] + Texts(parts[1..])
  }

  /** A command is sent as the protocol writes a list of bulk texts. */
  lemma {:induction false} CommandIsList(parts: seq<bytes>)
    ensures Encode(parts) == Written(List(Texts(parts)))
  {
    TextsWritten(parts);
  }

  lemma {:induction false} TextsWritten(parts: seq<bytes>)
    ensures |Texts(parts)| == |parts| && WrittenAll(Texts(parts)) == Bulks(parts)
  {
    if |parts| > 0 {
      TextsWritten(parts[1..]);
      assert Texts(parts)[1..] == Texts(parts[1..]);
    }
  }
}
