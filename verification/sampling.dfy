/** `secrets.choice` with the secure random source taken out: each call's
    answer is supplied as an index into the charset. Nothing here says
    anything about how the indices are distributed. */
module Sampling {
  import opened Text

  /** `picks` answers the `range(n)` successive choices from a charset of
      `size` symbols: there is one index for each, below `size`. */
  predicate Covers(picks: seq<nat>, size: nat, n: int) {
    && |picks| >= Clamp(n)
    && forall i :: 0 <= i < Clamp(n) ==> picks[i] < size
  }

  /** `"".join(secrets.choice(charset) for _ in range(n))`, the i-th choice
      being `charset[picks[i]]`. */
  function Sample(charset: string, n: int, picks: seq<nat>): (r: string)
    requires Covers(picks, |charset|, n)
    ensures |r| == Clamp(n)
    ensures forall i :: 0 <= i < |r| ==> r[i] == charset[picks[i]]
    decreases Clamp(n)
  {
    if n <= 0 then [] else Sample(charset, n - 1, picks) + [charset[picks[n - 1]]]
  }

  /** The position of the first occurrence of `c` in `s`. */
  function IndexOf(s: string, c: char): (k: nat)
    requires c in s
    ensures k < |s| && s[k] == c
  {
    if s[0] == c then 0 else 1 + IndexOf(s[1..], c)
  }

  /** Conversely, every string over the charset is a possible draw: the
      source can produce any of them, so the charset is exactly the set of
      characters that can occur. */
  lemma SampleReachesAll(charset: string, s: string)
    requires forall i :: 0 <= i < |s| ==> s[i] in charset
    ensures exists picks :: Covers(picks, |charset|, |s|) && Sample(charset, |s|, picks) == s
  {
    var picks := seq(|s|, i requires 0 <= i < |s| => IndexOf(charset, s[i]));
    assert Covers(picks, |charset|, |s|);
    assert Sample(charset, |s|, picks) == s;
  }

  /** Only the first `range(n)` answers are consumed: answers beyond them do
      not change the draw. */
  lemma SampleIgnoresSurplus(charset: string, n: int, picks: seq<nat>, more: seq<nat>)
    requires Covers(picks, |charset|, n)
    ensures Covers(picks + more, |charset|, n)
    ensures Sample(charset, n, picks + more) == Sample(charset, n, picks)
  {
    var a := Sample(charset, n, picks + more);
    var b := Sample(charset, n, picks);
    assert forall i :: 0 <= i < |a| ==> a[i] == b[i];
  }
}
