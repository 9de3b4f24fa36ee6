/**
 * Draft editing done by the panel itself: choosing a tag drops the '@' the
 * user typed to open the tag lookup.
 */
module Draft {

  /** The tag-trigger sentinel. */
  const Sentinel: char := '@'

  /** The draft after one tag is added: one trailing sentinel is removed, nothing else. */
  function StripTagSentinel(s: string): (r: string)
    ensures |s| > 0 && s[|s| - 1] == Sentinel ==> s == r + [Sentinel]
    ensures !(|s| > 0 && s[|s| - 1] == Sentinel) ==> r == s
  {
    if |s| > 0 && s[|s| - 1] == Sentinel then s[..|s| - 1] else s
  }

  /** The draft after `n` tags are added one after the other. */
  function StripTagSentinels(s: string, n: nat): (r: string)
    ensures |r| <= |s| && r == s[..|r|]
    ensures |s| - |r| <= n
    ensures forall i :: |r| <= i < |s| ==> s[i] == Sentinel
    ensures |s| - |r| < n ==> |r| == 0 || r[|r| - 1] != Sentinel
  {
    if n == 0 then s else StripTagSentinel(StripTagSentinels(s, n - 1))
  }

  /** A draft that does not end in the sentinel survives any number of tag insertions. */
  lemma StripTagSentinelsKeeps(s: string, n: nat)
    requires |s| == 0 || s[|s| - 1] != Sentinel
    ensures StripTagSentinels(s, n) == s
  {
  }
}
