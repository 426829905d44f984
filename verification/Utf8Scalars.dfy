/** Well-formed UTF-8 is what encoding scalar values gives, as section 3 of RFC 3629 describes it. */
module Utf8Scalars {
  import opened Bytes
  import opened Utf8

  /** A code point that is no surrogate. */
  predicate IsScalar(c: nat) {
    c < 0xD800 || 0xE000 <= c < 0x110000
  }

  function Tail(n: nat): byte {
    (0x80 + n % 64) as byte
  }

  function EncodeScalar(c: nat): (s: bytes)
    requires IsScalar(c)
    ensures 1 <= |s| <= 4
  {
    if c < 0x80 then [c as byte]
    else if c < 0x800 then [(0xC0 + c / 64) as byte, Tail(c)]
    else if c < 0x10000 then [(0xE0 + c / 4096) as byte, Tail(c / 64), Tail(c)]
    else [(0xF0 + c / 262144) as byte, Tail(c / 4096), Tail(c / 64), Tail(c)]
  }

  ghost predicate AllScalars(cs: seq<nat>) {
    forall i :: 0 <= i < |cs| ==> IsScalar(cs[i])
  }

  function EncodeAll(cs: seq<nat>): bytes
    requires AllScalars(cs)
  {
    if |cs| == 0 then [] else EncodeScalar(cs[0]) + EncodeAll(cs[1..])
  }

  lemma ScalarIsOneChar(c: nat, rest: bytes)
    requires IsScalar(c)
    ensures CharWidth(EncodeScalar(c) + rest) == |EncodeScalar(c)|
  {
    var s := EncodeScalar(c) + rest;
    assert forall i :: 0 <= i < |EncodeScalar(c)| ==> s[i] == EncodeScalar(c)[i];
  }

  lemma Sixes(high: nat, low: nat)
    requires low < 64
    ensures (high * 64 + low) / 64 == high && (high * 64 + low) % 64 == low
  {
  }

  /** The first character of a text is some scalar value's encoding. */
  lemma CharIsScalar(s: bytes) returns (c: nat)
    requires s != [] && CharWidth(s) > 0
    ensures IsScalar(c) && EncodeScalar(c) == s[..CharWidth(s)]
  {
    var w := CharWidth(s);
    if w == 1 {
      c := s[0] as int;
    } else if w == 2 {
      c := TwoBytes(s);
    } else if w == 3 {
      c := ThreeBytes(s);
    } else {
      c := FourBytes(s);
    }
  }

  lemma TwoBytes(s: bytes) returns (c: nat)
    requires CharWidth(s) == 2
    ensures IsScalar(c) && EncodeScalar(c) == s[..2]
  {
    var a, b := s[0] as int - 0xC0, s[1] as int - 0x80;
    c := a * 64 + b;
    Sixes(a, b);
  }

  lemma ThreeBytes(s: bytes) returns (c: nat)
    requires CharWidth(s) == 3
    ensures IsScalar(c) && EncodeScalar(c) == s[..3]
  {
    var a, b, d := s[0] as int - 0xE0, s[1] as int - 0x80, s[2] as int - 0x80;
    var ab := a * 64 + b;
    c := ab * 64 + d;
    Sixes(a, b);
    Sixes(ab, d);
    assert c / 4096 == a;
  }

  lemma FourBytes(s: bytes) returns (c: nat)
    requires CharWidth(s) == 4
    ensures IsScalar(c) && EncodeScalar(c) == s[..4]
  {
    var a, b, d, e := s[0] as int - 0xF0, s[1] as int - 0x80, s[2] as int - 0x80, s[3] as int - 0x80;
    var ab := a * 64 + b;
    var abd := ab * 64 + d;
    c := abd * 64 + e;
    Sixes(a, b);
    Sixes(ab, d);
    Sixes(abd, e);
    assert c / 4096 == ab && c / 262144 == a;
  }

  lemma {:induction false} EncodedIsValid(cs: seq<nat>)
    requires AllScalars(cs)
    ensures Valid(EncodeAll(cs))
  {
    hide EncodeScalar, CharWidth;
    if |cs| > 0 {
      var first, rest := EncodeScalar(cs[0]), EncodeAll(cs[1..]);
      ScalarIsOneChar(cs[0], rest);
      EncodedIsValid(cs[1..]);
      assert (first + rest)[|first|..] == rest;
    }
  }

  lemma {:induction false} ValidIsEncoded(s: bytes) returns (cs: seq<nat>)
    requires Valid(s)
    ensures AllScalars(cs) && EncodeAll(cs) == s
    decreases |s|
  {
    hide EncodeScalar, CharWidth;
    cs := [];
    if s != [] {
      var c := CharIsScalar(s);
      var w := CharWidth(s);
      var rest := ValidIsEncoded(s[w..]);
      cs := [c] + rest;
      assert cs[1..] == rest && s == s[..w] + s[w..];
    }
  }

  /** A text is well-formed exactly when it encodes some sequence of scalar values. */
  lemma ValidIff(s: bytes)
    ensures Valid(s) <==> exists cs :: AllScalars(cs) && EncodeAll(cs) == s
  {
    if Valid(s) {
      var cs := ValidIsEncoded(s);
    }
    if exists cs :: AllScalars(cs) && EncodeAll(cs) == s {
      var cs :| AllScalars(cs) && EncodeAll(cs) == s;
      EncodedIsValid(cs);
    }
  }
}
