/**
 * `std::str::from_utf8`: a byte string is accepted exactly when it is a
 * concatenation of well-formed UTF-8 code unit sequences in the sense of
 * Table 3-7 of the Unicode Standard (no overlong forms, no surrogates,
 * nothing above U+10FFFF).
 */
module Utf8 {
  import opened Wrappers
  import opened Str

  /** A continuation byte, 10xxxxxx. */
  predicate Tail(b: byte) { 0x80 <= b <= 0xBF }

  /**
   * Length of the well-formed sequence at the front of `b`, or 0 when the
   * front is not one (including when `b` is empty or ends too early).
   */
  function SequenceLength(b: seq<byte>): (n: nat)
    ensures n <= |b| && n <= 4
    ensures |b| > 0 && b[0] < 0x80 ==> n == 1
  {
    if |b| == 0 then 0
    else if b[0] <= 0x7F then 1
    else if 0xC2 <= b[0] <= 0xDF then
      if |b| >= 2 && Tail(b[1]) then 2 else 0
    else if b[0] == 0xE0 then
      if |b| >= 3 && 0xA0 <= b[1] <= 0xBF && Tail(b[2]) then 3 else 0
    else if 0xE1 <= b[0] <= 0xEC || 0xEE <= b[0] <= 0xEF then
      if |b| >= 3 && Tail(b[1]) && Tail(b[2]) then 3 else 0
    else if b[0] == 0xED then
      if |b| >= 3 && 0x80 <= b[1] <= 0x9F && Tail(b[2]) then 3 else 0
    else if b[0] == 0xF0 then
      if |b| >= 4 && 0x90 <= b[1] <= 0xBF && Tail(b[2]) && Tail(b[3]) then 4 else 0
    else if 0xF1 <= b[0] <= 0xF3 then
      if |b| >= 4 && Tail(b[1]) && Tail(b[2]) && Tail(b[3]) then 4 else 0
    else if b[0] == 0xF4 then
      if |b| >= 4 && 0x80 <= b[1] <= 0x8F && Tail(b[2]) && Tail(b[3]) then 4 else 0
    else 0
  }

  /**
   * Well-formed text: a sequence of well-formed code unit sequences. It never
   * begins with a continuation byte, and never holds a byte that no
   * well-formed sequence uses (C0, C1, F5 to FF).
   */
  predicate Valid(b: seq<byte>)
    decreases |b|
  {
    |b| == 0 || (SequenceLength(b) > 0 && Valid(b[SequenceLength(b)..]))
  }

  /** A well-formed sequence is a lead byte (ASCII, or C2 to F4) and then continuation bytes only. */
  lemma SequenceLengthBytes(b: seq<byte>)
    requires SequenceLength(b) > 0
    ensures b[0] < 0x80 || 0xC2 <= b[0] <= 0xF4
    ensures forall i :: 1 <= i < SequenceLength(b) ==> Tail(b[i])
  {
  }

  /** Well-formed text never starts with a continuation byte and never holds C0, C1 or F5 to FF. */
  lemma {:induction false} ValidBytes(b: seq<byte>)
    requires Valid(b)
    ensures |b| > 0 ==> !Tail(b[0])
    ensures forall i :: 0 <= i < |b| ==> b[i] != 0xC0 && b[i] != 0xC1 && b[i] < 0xF5
    decreases |b|
  {
    if |b| > 0 {
      var n := SequenceLength(b);
      SequenceLengthBytes(b);
      ValidBytes(b[n..]);
      forall i | n <= i < |b| ensures b[i] != 0xC0 && b[i] != 0xC1 && b[i] < 0xF5 {
        assert b[i] == b[n..][i - n];
      }
    }
  }

  /** `std::str::from_utf8`: the same bytes, now known to be text, or an error. */
  function FromUtf8(b: seq<byte>): (r: Option<seq<byte>>)
    ensures r.Some? <==> Valid(b)
    ensures r.Some? ==> r.value == b
  {
    if Valid(b) then Some(b) else None
  }

  predicate Ascii(b: seq<byte>) {
    forall i :: 0 <= i < |b| ==> b[i] < 0x80
  }

  /** Bytes below 0x80 are always text. */
  lemma {:induction false} AsciiIsValid(b: seq<byte>)
    requires Ascii(b)
    ensures Valid(b)
    decreases |b|
  {
    if |b| > 0 {
      assert Ascii(b[1..]);
      AsciiIsValid(b[1..]);
    }
  }

  /** The length of a complete leading sequence does not depend on what follows it. */
  lemma SequenceLengthExtend(a: seq<byte>, c: seq<byte>)
    requires SequenceLength(a) > 0
    ensures SequenceLength(a + c) == SequenceLength(a)
  {
    assert forall i :: 0 <= i < |a| ==> (a + c)[i] == a[i];
  }

  /** Removing a leading piece of text from text leaves text. */
  lemma {:induction false} DropValidPrefix(a: seq<byte>, c: seq<byte>)
    requires Valid(a) && Valid(a + c)
    ensures Valid(c)
    decreases |a|
  {
    if |a| == 0 {
      assert a + c == c;
    } else {
      var n := SequenceLength(a);
      SequenceLengthExtend(a, c);
      assert (a + c)[n..] == a[n..] + c;
      DropValidPrefix(a[n..], c);
    }
  }
}
