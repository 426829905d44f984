/** 128-bit ids and their texts, as the `uuid` library writes and reads them. */
module Uuids {
  import opened Bytes

  newtype nibble = x: int | 0 <= x < 16

  type Uuid = u: seq<nibble> | |u| == 32 witness seq(32, _ => 0)

  function HexChar(n: nibble): char {
    if n < 10 then '0' + n as char else 'a' + (n - 10) as char
  }

  /** A hexadecimal digit in either case. */
  function HexValue(c: char): Option<nibble> {
    if '0' <= c <= '9' then Some((c as int - '0' as int) as nibble)
    else if 'a' <= c <= 'f' then Some((c as int - 'a' as int + 10) as nibble)
    else if 'A' <= c <= 'F' then Some((c as int - 'A' as int + 10) as nibble)
    else None
  }

  /** The digits alone: one of the spellings that are read but not written. */
  function SimpleText(u: seq<nibble>): (t: string)
    ensures |t| == |u|
  {
    if u == [] then "" else [HexChar(u[0])] + SimpleText(u[1..])
  }

  function ParseDigits(t: string): (r: Option<seq<nibble>>)
    ensures r.Some? ==> |r.value| == |t|
  {
    if t == "" then Some([])
    else
      var first, rest := HexValue(t[0]), ParseDigits(t[1..]);
      if first.Some? && rest.Some? then Some([first.value] + rest.value) else None
  }

  /** `to_string`: lower case, in groups of 8, 4, 4, 4 and 12. */
  function ToText(id: Uuid): (t: string)
    ensures |t| == 36
  {
    var d := SimpleText(id);
    d[..8] + "-" + d[8..12] + "-" + d[12..16] + "-" + d[16..20] + "-" + d[20..]
  }

  function ParseHyphenated(t: string): Option<Uuid>
    requires |t| == 36
  {
    if t[8] == t[13] == t[18] == t[23] == '-'
    then ParseDigits(t[..8] + t[9..13] + t[14..18] + t[19..23] + t[24..])
    else None
  }

  /** `parse`: plain digits, or groups, which may also stand in braces or after `urn:uuid:`. */
  function Parse(t: string): Option<Uuid> {
    if |t| == 32 then ParseDigits(t)
    else if |t| == 36 then ParseHyphenated(t)
    else if |t| == 38 && t[0] == '{' && t[37] == '}' then ParseHyphenated(t[1..37])
    else if |t| == 45 && t[..9] == "urn:uuid:" then ParseHyphenated(t[9..])
    else None
  }

  lemma DigitRoundTrip(n: nibble)
    ensures HexValue(HexChar(n)) == Some(n)
  {
    if n >= 10 {
      assert HexChar(n) as int == 'a' as int + n as int - 10;
    }
  }

  lemma {:induction false} DigitsRoundTrip(u: seq<nibble>)
    ensures ParseDigits(SimpleText(u)) == Some(u)
  {
    if u != [] {
      DigitsRoundTrip(u[1..]);
      assert SimpleText(u)[1..] == SimpleText(u[1..]);
      DigitRoundTrip(u[0]);
      assert [u[0]] + u[1..] == u;
    }
  }

  /** Reading what was written gives the id back, and so do the plain digits, which are never written. */
  lemma TextRoundTrip(id: Uuid)
    ensures Parse(ToText(id)) == Some(id)
    ensures Parse(SimpleText(id)) == Some(id) && SimpleText(id) != ToText(id)
  {
    hide ParseDigits, SimpleText;
    var d, t := SimpleText(id), ToText(id);
    DigitsRoundTrip(id);
    assert t[..8] == d[..8] && t[9..13] == d[8..12] && t[14..18] == d[12..16];
    assert t[19..23] == d[16..20] && t[24..] == d[20..];
    assert d == d[..8] + d[8..12] + d[12..16] + d[16..20] + d[20..];
  }

  // ---- Exactly what is read ----

  /** The hexadecimal letters in lower case. */
  function Lower(t: string): (r: string)
    ensures |r| == |t|
    ensures forall i :: 0 <= i < |t| ==>
      r[i] == if 'A' <= t[i] <= 'F' then 'a' + (t[i] - 'A') else t[i]
  {
    seq(|t|, i requires 0 <= i < |t| => if 'A' <= t[i] <= 'F' then 'a' + (t[i] - 'A') else t[i])
  }

  lemma DigitIff(c: char, n: nibble)
    ensures HexValue(c) == Some(n) <==> (if 'A' <= c <= 'F' then 'a' + (c - 'A') else c) == HexChar(n)
  {
    if n >= 10 {
      assert HexChar(n) as int == 'a' as int + n as int - 10;
    } else {
      assert HexChar(n) as int == '0' as int + n as int;
    }
  }

  lemma {:induction false} DigitsIff(t: string, u: seq<nibble>)
    ensures ParseDigits(t) == Some(u) <==> Lower(t) == SimpleText(u)
  {
    if t != "" && u != [] {
      DigitIff(t[0], u[0]);
      DigitsIff(t[1..], u[1..]);
      assert Lower(t) == [Lower(t)[0]] + Lower(t[1..]);
      assert SimpleText(u) == [HexChar(u[0])] + SimpleText(u[1..]);
      assert [u[0]] + u[1..] == u;
      if Lower(t) == SimpleText(u) {
        assert Lower(t)[0] == HexChar(u[0]) && Lower(t)[1..] == SimpleText(u)[1..] == SimpleText(u[1..]);
        assert Lower(t)[1..] == Lower(t[1..]);
      }
    }
  }

  lemma HyphenatedIff(t: string, id: Uuid)
    requires |t| == 36
    ensures ParseHyphenated(t) == Some(id) <==> Lower(t) == ToText(id)
  {
    hide ParseDigits, SimpleText;
    var digits := t[..8] + t[9..13] + t[14..18] + t[19..23] + t[24..];
    DigitsIff(digits, id);
    var l, d := Lower(t), SimpleText(id);
    assert Lower(digits) == l[..8] + l[9..13] + l[14..18] + l[19..23] + l[24..];
    assert ToText(id)[..8] == d[..8] && ToText(id)[9..13] == d[8..12] && ToText(id)[14..18] == d[12..16];
    assert ToText(id)[19..23] == d[16..20] && ToText(id)[24..] == d[20..];
    assert d == d[..8] + d[8..12] + d[12..16] + d[16..20] + d[20..];
    assert l == l[..8] + [l[8]] + l[9..13] + [l[13]] + l[14..18] + [l[18]] + l[19..23] + [l[23]] + l[24..];
    if ParseHyphenated(t) == Some(id) {
      assert Lower(digits)[..8] == l[..8] && Lower(digits)[8..12] == l[9..13] && Lower(digits)[12..16] == l[14..18];
      assert Lower(digits)[16..20] == l[19..23] && Lower(digits)[20..] == l[24..];
    }
  }

  /**
   A text reads as an id exactly when it is, in either case of its letters, the id's digits or its text,
   the latter also in braces or after `urn:uuid:`.
   */
  lemma ParseIff(t: string, id: Uuid)
    ensures Parse(t) == Some(id)
      <==> || Lower(t) == SimpleText(id)
           || Lower(t) == ToText(id)
           || (|t| == 38 && t[0] == '{' && t[37] == '}' && Lower(t[1..37]) == ToText(id))
           || (|t| == 45 && t[..9] == "urn:uuid:" && Lower(t[9..]) == ToText(id))
  {
    hide ParseDigits, SimpleText, ParseHyphenated, ToText;
    DigitsIff(t, id);
    if |t| == 36 {
      HyphenatedIff(t, id);
    } else if |t| == 38 {
      HyphenatedIff(t[1..37], id);
    } else if |t| == 45 {
      HyphenatedIff(t[9..], id);
    }
  }
}
