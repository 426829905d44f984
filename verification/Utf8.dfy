/** Well-formed UTF-8, and the character boundaries of a byte string. */
module Utf8 {
  import opened Bytes

  predicate IsContinuation(b: byte) {
    0x80 <= b <= 0xBF
  }

  /** Width of the character at the front of `s`, or 0 when no well-formed one starts there. */
  function CharWidth(s: bytes): (w: nat)
    ensures w <= 4 && w <= |s|
    ensures w > 0 ==> !IsContinuation(s[0])
    ensures forall i :: 1 <= i < w ==> IsContinuation(s[i])
    ensures w > 1 ==> s[0] >= 0x80
  {
    if |s| == 0 then 0
    else if s[0] < 0x80 then 1
    else if |s| >= 2 && 0xC2 <= s[0] <= 0xDF && IsContinuation(s[1]) then 2
    else if |s| >= 3 && 0xE0 <= s[0] <= 0xEF && IsContinuation(s[1]) && IsContinuation(s[2]) then
      if (s[0] == 0xE0 && s[1] < 0xA0) || (s[0] == 0xED && s[1] > 0x9F) then 0 else 3
    else if |s| >= 4 && 0xF0 <= s[0] <= 0xF4
            && IsContinuation(s[1]) && IsContinuation(s[2]) && IsContinuation(s[3]) then
      if (s[0] == 0xF0 && s[1] < 0x90) || (s[0] == 0xF4 && s[1] > 0x8F) then 0 else 4
    else 0
  }

  predicate Valid(s: bytes) {
    s == [] || (CharWidth(s) > 0 && Valid(s[CharWidth(s)..]))
  }

  /** A position where a string may be cut: either end, or the first byte of a character. */
  predicate IsBoundary(s: bytes, i: nat)
    requires i <= |s|
  {
    i == 0 || i == |s| || !IsContinuation(s[i])
  }

  lemma CharWidthPrefix(a: bytes, b: bytes)
    requires CharWidth(a) > 0
    ensures CharWidth(a + b) == CharWidth(a)
  {
    assert forall i :: 0 <= i < |a| ==> (a + b)[i] == a[i];
  }

  lemma {:induction false} ValidConcat(a: bytes, b: bytes)
    requires Valid(a) && Valid(b)
    ensures Valid(a + b)
  {
    hide CharWidth;
    if a == [] {
      assert a + b == b;
    } else {
      var w := CharWidth(a);
      CharWidthPrefix(a, b);
      ValidConcat(a[w..], b);
      assert (a + b)[w..] == a[w..] + b;
    }
  }

  lemma {:induction false} AsciiIsValid(s: bytes)
    requires forall i :: 0 <= i < |s| ==> s[i] < 0x80
    ensures Valid(s)
  {
    if s != [] {
      AsciiIsValid(s[1..]);
    }
  }

  /** Cutting at a boundary leaves two well-formed strings. */
  lemma {:induction false} ValidSplit(s: bytes, i: nat)
    requires Valid(s) && i <= |s| && IsBoundary(s, i)
    ensures Valid(s[..i]) && Valid(s[i..])
  {
    hide CharWidth;
    if i == 0 || i == |s| {
      assert s[..|s|] == s && s[0..] == s;
    } else {
      var w := CharWidth(s);
      assert w <= i;
      var rest := s[w..];
      ValidSplit(rest, i - w);
      assert rest[i - w..] == s[i..];
      CharWidthOfPrefix(s, i);
      assert s[..i][w..] == rest[..i - w];
    }
  }

  /** And only there: a cut within a character leaves a rest that is not well-formed. */
  lemma BoundaryIff(s: bytes, i: nat)
    requires Valid(s) && i <= |s|
    ensures IsBoundary(s, i) <==> Valid(s[..i]) && Valid(s[i..])
  {
    if IsBoundary(s, i) {
      ValidSplit(s, i);
    } else {
      assert s[i..][0] == s[i];
    }
  }

  lemma CharWidthOfPrefix(s: bytes, i: nat)
    requires CharWidth(s) <= i <= |s|
    ensures CharWidth(s) > 0 ==> CharWidth(s[..i]) == CharWidth(s)
  {
  }

  /** Some boundary lies at most three bytes before any position of a well-formed string. */
  lemma {:induction false} BoundaryNear(s: bytes, i: nat) returns (j: nat)
    requires Valid(s) && i <= |s|
    ensures i <= j + 3 && j <= i && IsBoundary(s, j)
  {
    var w := CharWidth(s);
    if s == [] || i < w {
      j := 0;
    } else {
      j := BoundaryNear(s[w..], i - w);
      j := j + w;
    }
  }

  /** Greatest boundary at or below `i`. */
  function FloorBoundary(s: bytes, i: nat): (j: nat)
    requires i <= |s|
    ensures j <= i && IsBoundary(s, j)
    ensures forall k :: j < k <= i ==> !IsBoundary(s, k)
  {
    if IsBoundary(s, i) then i else FloorBoundary(s, i - 1)
  }

  /** Least boundary at or above `i`. */
  function CeilBoundary(s: bytes, i: nat): (j: nat)
    requires i <= |s|
    ensures i <= j <= |s| && IsBoundary(s, j)
    ensures forall k :: i <= k < j ==> !IsBoundary(s, k)
    decreases |s| - i
  {
    if IsBoundary(s, i) then i else CeilBoundary(s, i + 1)
  }

  /** In well-formed text neither scan moves by more than three bytes. */
  lemma BoundaryScansAreShort(s: bytes, i: nat)
    requires Valid(s) && i <= |s|
    ensures i <= FloorBoundary(s, i) + 3
    ensures CeilBoundary(s, i) <= i + 3
  {
    var j := BoundaryNear(s, i);
    if i + 3 <= |s| {
      var k := BoundaryNear(s, i + 3);
    }
  }

  /** The downward scan of `floor_char_boundary`. */
  method FloorCharBoundary(s: bytes, start: nat) returns (i: nat)
    requires start <= |s|
    ensures i == FloorBoundary(s, start)
  {
    i := start;
    while i > 0 && !IsBoundary(s, i)
      invariant i <= start
      invariant FloorBoundary(s, i) == FloorBoundary(s, start)
    {
      i := i - 1;
    }
  }

  /** The upward scan of `ceil_char_boundary`. */
  method CeilCharBoundary(s: bytes, start: nat) returns (i: nat)
    requires start <= |s|
    ensures i == CeilBoundary(s, start)
  {
    i := start;
    while i < |s| && !IsBoundary(s, i)
      invariant start <= i <= |s|
      invariant CeilBoundary(s, i) == CeilBoundary(s, start)
    {
      i := i + 1;
    }
  }
}
