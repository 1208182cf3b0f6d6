/**
 * The two methods of Rust's `str` that the bearer-token guard uses, over the
 * UTF-8 bytes of the text. With a pattern that is itself a whole string,
 * `starts_with` and `trim_start_matches` compare bytes, so working on the
 * encoded form loses nothing.
 */
module Str {

  newtype byte = x: int | 0 <= x < 256

  /** `s.starts_with(p)`: the bytes of `p` are the first bytes of `s`. */
  predicate StartsWith(s: seq<byte>, p: seq<byte>) {
    |p| <= |s| && s[..|p|] == p
  }

  /** `s` starts with `p` exactly when `s` is `p` followed by something. */
  lemma StartsWithAppend(s: seq<byte>, p: seq<byte>)
    ensures StartsWith(s, p) <==> |p| <= |s| && s == p + s[|p|..]
    ensures forall t :: StartsWith(p + t, p)
  {
    if |p| <= |s| {
      assert s == s[..|p|] + s[|p|..];
    }
    forall t ensures StartsWith(p + t, p) {
      assert (p + t)[..|p|] == p;
    }
  }

  /** `p` written `k` times in a row. */
  function Repeat(p: seq<byte>, k: nat): seq<byte> {
    if k == 0 then [] else p + Repeat(p, k - 1)
  }

  /**
   * `s.trim_start_matches(p)`: removes the pattern from the front for as long
   * as the front still matches it, not just once. An empty pattern removes
   * nothing.
   */
  function TrimStartMatches(s: seq<byte>, p: seq<byte>): (r: seq<byte>)
    ensures |r| <= |s| && r == s[|s| - |r|..]
    ensures |p| > 0 ==> !StartsWith(r, p)
    ensures |p| == 0 ==> r == s
    decreases |s|
  {
    if |p| > 0 && StartsWith(s, p) then TrimStartMatches(s[|p|..], p) else s
  }

  /** Leading repetitions of the pattern are all removed, however many there are. */
  lemma {:induction false} TrimStartMatchesRepeat(p: seq<byte>, k: nat, t: seq<byte>)
    requires |p| > 0
    ensures TrimStartMatches(Repeat(p, k) + t, p) == TrimStartMatches(t, p)
  {
    if k > 0 {
      var r := Repeat(p, k - 1);
      calc {
        TrimStartMatches(Repeat(p, k) + t, p);
        { AppendAssociative(p, r, t); }
        TrimStartMatches(p + (r + t), p);
        { TrimStep(p, r + t); }
        TrimStartMatches(r + t, p);
        { TrimStartMatchesRepeat(p, k - 1, t); }
        TrimStartMatches(t, p);
      }
    } else {
      assert Repeat(p, k) + t == t;
    }
  }

  /** One step of the trimming: a leading copy of the pattern is removed and trimming goes on. */
  lemma TrimStep(p: seq<byte>, rest: seq<byte>)
    requires |p| > 0
    ensures TrimStartMatches(p + rest, p) == TrimStartMatches(rest, p)
  {
    var s := p + rest;
    assert s[..|p|] == p;
    assert s[|p|..] == rest;
  }

  /** What is removed is always a whole number of copies of the pattern. */
  lemma {:induction false} TrimStartMatchesDecompose(s: seq<byte>, p: seq<byte>) returns (k: nat)
    ensures s == Repeat(p, k) + TrimStartMatches(s, p)
    decreases |s|
  {
    if |p| > 0 && StartsWith(s, p) {
      var rest := s[|p|..];
      var k' := TrimStartMatchesDecompose(rest, p);
      k := k' + 1;
      var r := TrimStartMatches(rest, p);
      assert TrimStartMatches(s, p) == r;
      calc {
        Repeat(p, k) + r;
        (p + Repeat(p, k')) + r;
        { AppendAssociative(p, Repeat(p, k'), r); }
        p + (Repeat(p, k') + r);
        p + rest;
        { assert s == s[..|p|] + s[|p|..]; }
        s;
      }
    } else {
      k := 0;
      assert Repeat(p, 0) + s == s;
    }
  }

  /** One or more copies of the pattern, then anything, starts with the pattern. */
  lemma StartsWithRepeat(p: seq<byte>, k: nat, t: seq<byte>)
    requires k >= 1
    ensures StartsWith(Repeat(p, k) + t, p)
  {
    var r := Repeat(p, k - 1);
    AppendAssociative(p, r, t);
    assert (p + (r + t))[..|p|] == p;
  }

  lemma AppendAssociative(a: seq<byte>, b: seq<byte>, c: seq<byte>)
    ensures (a + b) + c == a + (b + c)
  {
  }

  /**
   * Reference characterisation: for a non-empty pattern, the result is the one
   * `r` with `s == p^k + r` that does not itself start with `p`.
   */
  lemma TrimStartMatchesUnique(s: seq<byte>, p: seq<byte>, k: nat, r: seq<byte>)
    requires |p| > 0 && s == Repeat(p, k) + r && !StartsWith(r, p)
    ensures TrimStartMatches(s, p) == r
  {
    TrimStartMatchesRepeat(p, k, r);
  }
}
