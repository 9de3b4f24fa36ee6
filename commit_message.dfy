/**
 * The sentence the panel writes into an empty draft when commits are attached:
 * "Explain the commit `a`" for one commit, "Explain the commits `a`, `b`, ..."
 * otherwise, with the short ids in the order of the commits.
 */
module CommitMessage {
  import opened Tags

  /** The parts in order with `sep` between neighbours, as a left-to-right string builder makes them. */
  function JoinToString(parts: seq<string>, sep: string): (r: string)
  {
    if |parts| == 0 then ""
    else if |parts| == 1 then parts[0]
    else parts[0] + sep + JoinToString(parts[1..], sep)
  }

  /** The index at which part `k` starts in `JoinToString(parts, sep)`. */
  function PartOffset(parts: seq<string>, sep: string, k: nat): (r: nat)
    requires k <= |parts|
  {
    if k == 0 then 0 else |parts[0]| + |sep| + PartOffset(parts[1..], sep, k - 1)
  }

  /** Slicing past a prefix slices the rest. */
  lemma SliceAfterPrefix(a: string, b: string, i: nat, j: nat)
    requires i <= j <= |b|
    ensures (a + b)[|a| + i..|a| + j] == b[i..j]
  {
    assert forall t :: 0 <= t < j - i ==> (a + b)[|a| + i..|a| + j][t] == b[i..j][t];
  }

  /** Slicing within a prefix slices the prefix. */
  lemma SliceWithinPrefix(a: string, b: string, i: nat, j: nat)
    requires i <= j <= |a|
    ensures (a + b)[i..j] == a[i..j]
  {
    assert forall t :: 0 <= t < j - i ==> (a + b)[i..j][t] == a[i..j][t];
  }

  /** Unfolding the join once, when at least two parts remain. */
  lemma JoinUnfold(parts: seq<string>, sep: string)
    requires |parts| >= 2
    ensures JoinToString(parts, sep) == (parts[0] + sep) + JoinToString(parts[1..], sep)
  {
  }

  /** One step of the offsets: part `k + 1` starts one separator after part `k` ends. */
  lemma {:induction false} PartOffsetStep(parts: seq<string>, sep: string, k: nat)
    requires k + 1 < |parts|
    ensures PartOffset(parts, sep, k + 1) == PartOffset(parts, sep, k) + |parts[k]| + |sep|
  {
    if k > 0 {
      PartOffsetStep(parts[1..], sep, k - 1);
    }
  }

  /** Part `k` sits at its offset in the joined string, and the last part ends it. */
  lemma {:induction false} JoinPartAt(parts: seq<string>, sep: string, k: nat)
    requires k < |parts|
    ensures PartOffset(parts, sep, k) + |parts[k]| <= |JoinToString(parts, sep)|
    ensures JoinToString(parts, sep)[PartOffset(parts, sep, k)..PartOffset(parts, sep, k) + |parts[k]|] == parts[k]
    ensures k + 1 == |parts| ==> PartOffset(parts, sep, k) + |parts[k]| == |JoinToString(parts, sep)|
  {
    var q := parts[k];
    if |parts| == 1 {
      assert JoinToString(parts, sep) == q;
    } else {
      var head := parts[0] + sep;
      var rest := parts[1..];
      var tail := JoinToString(rest, sep);
      JoinUnfold(parts, sep);
      if k == 0 {
        SliceWithinPrefix(head, tail, 0, |q|);
        assert head[0..|q|] == q;
      } else {
        JoinPartAt(rest, sep, k - 1);
        var o1 := PartOffset(rest, sep, k - 1);
        assert rest[k - 1] == q;
        assert PartOffset(parts, sep, k) == |head| + o1;
        SliceAfterPrefix(head, tail, o1, o1 + |q|);
      }
    }
  }

  /** The separator stands between part `k` and part `k + 1` of the joined string. */
  lemma {:induction false} JoinSeparatorAt(parts: seq<string>, sep: string, k: nat)
    requires k + 1 < |parts|
    ensures PartOffset(parts, sep, k + 1) <= |JoinToString(parts, sep)|
    ensures PartOffset(parts, sep, k) + |parts[k]| + |sep| == PartOffset(parts, sep, k + 1)
    ensures JoinToString(parts, sep)[PartOffset(parts, sep, k) + |parts[k]|..PartOffset(parts, sep, k + 1)] == sep
  {
    PartOffsetStep(parts, sep, k);
    JoinPartAt(parts, sep, k + 1);
    var q := parts[k];
    var head := parts[0] + sep;
    var rest := parts[1..];
    var tail := JoinToString(rest, sep);
    JoinUnfold(parts, sep);
    if k == 0 {
      SliceWithinPrefix(head, tail, |q|, |head|);
      assert head[|q|..|head|] == sep;
    } else {
      JoinSeparatorAt(rest, sep, k - 1);
      var o1 := PartOffset(rest, sep, k - 1);
      assert rest[k - 1] == q;
      assert PartOffset(parts, sep, k) == |head| + o1;
      assert PartOffset(parts, sep, k + 1) == |head| + PartOffset(rest, sep, k);
      SliceAfterPrefix(head, tail, o1 + |q|, PartOffset(rest, sep, k));
    }
  }

  /**
   * The joined string is tiled by the parts and the separators: part `k` sits
   * at its offset, a separator follows it unless it is the last part, and the
   * last part ends the string.
   */
  lemma JoinLayout(parts: seq<string>, sep: string, k: nat)
    requires k < |parts|
    ensures PartOffset(parts, sep, k) + |parts[k]| <= |JoinToString(parts, sep)|
    ensures JoinToString(parts, sep)[PartOffset(parts, sep, k)..PartOffset(parts, sep, k) + |parts[k]|] == parts[k]
    ensures k + 1 < |parts| ==>
      PartOffset(parts, sep, k + 1) == PartOffset(parts, sep, k) + |parts[k]| + |sep| &&
      PartOffset(parts, sep, k + 1) <= |JoinToString(parts, sep)| &&
      JoinToString(parts, sep)[PartOffset(parts, sep, k) + |parts[k]|..PartOffset(parts, sep, k + 1)] == sep
    ensures k + 1 == |parts| ==> PartOffset(parts, sep, k) + |parts[k]| == |JoinToString(parts, sep)|
  {
    JoinPartAt(parts, sep, k);
    if k + 1 < |parts| {
      JoinSeparatorAt(parts, sep, k);
    }
  }

  /** A short id in backticks. */
  function Quoted(id: string): (r: string)
  {
    "`" + id + "`"
  }

  /** A quoted id is two characters longer than the id and ends with a backtick. */
  lemma QuotedShape(id: string)
    ensures |Quoted(id)| == |id| + 2 && Quoted(id)[|id| + 1] == '`'
  {
  }

  /** The quoted short ids of the commits, in order. */
  function QuotedShortIds(commits: seq<Commit>): (r: seq<string>)
    ensures |r| == |commits|
    ensures forall i :: 0 <= i < |commits| ==> r[i] == Quoted(commits[i].shortId)
  {
    if commits == [] then [] else [Quoted(commits[0].shortId)] + QuotedShortIds(commits[1..])
  }

  const SingularPrefix: string := "Explain the commit "
  const PluralPrefix: string := "Explain the commits "

  function CommitSentence(commits: seq<Commit>): (r: string)
  {
    if |commits| == 1 then SingularPrefix + Quoted(commits[0].shortId)
    else PluralPrefix + JoinToString(QuotedShortIds(commits), ", ")
  }

  /** The prefix the sentence opens with: singular for one commit, plural otherwise. */
  function SentencePrefix(n: nat): (r: string)
  {
    if n == 1 then SingularPrefix else PluralPrefix
  }

  /** Where the quoted short id of commit `k` starts in the sentence. */
  function MentionOffset(commits: seq<Commit>, k: nat): (r: nat)
    requires k < |commits|
  {
    |SentencePrefix(|commits|)| + PartOffset(QuotedShortIds(commits), ", ", k)
  }

  /** The sentence is its prefix followed by the joined quoted ids, whatever the number of commits. */
  lemma CommitSentenceSplit(commits: seq<Commit>)
    ensures CommitSentence(commits) == SentencePrefix(|commits|) + JoinToString(QuotedShortIds(commits), ", ")
  {
    if |commits| == 1 {
      assert JoinToString(QuotedShortIds(commits), ", ") == Quoted(commits[0].shortId);
    }
  }

  /** Commit `k`'s quoted short id sits at its offset in the sentence. */
  lemma CommitSentenceMentions(commits: seq<Commit>, k: nat)
    requires k < |commits|
    ensures MentionOffset(commits, k) + |Quoted(commits[k].shortId)| <= |CommitSentence(commits)|
    ensures CommitSentence(commits)[MentionOffset(commits, k)..MentionOffset(commits, k) + |Quoted(commits[k].shortId)|]
              == Quoted(commits[k].shortId)
  {
    var p := SentencePrefix(|commits|);
    var parts := QuotedShortIds(commits);
    var whole := JoinToString(parts, ", ");
    CommitSentenceSplit(commits);
    assert parts[k] == Quoted(commits[k].shortId);
    assert MentionOffset(commits, k) == |p| + PartOffset(parts, ", ", k);
    JoinPartAt(parts, ", ", k);
    SliceAfterPrefix(p, whole, PartOffset(parts, ", ", k), PartOffset(parts, ", ", k) + |parts[k]|);
  }

  /** Between the mentions of two neighbouring commits stands exactly ", ". */
  lemma CommitSentenceSeparates(commits: seq<Commit>, k: nat)
    requires k + 1 < |commits|
    ensures MentionOffset(commits, k + 1) == MentionOffset(commits, k) + |Quoted(commits[k].shortId)| + 2
    ensures MentionOffset(commits, k + 1) <= |CommitSentence(commits)|
    ensures CommitSentence(commits)[MentionOffset(commits, k) + |Quoted(commits[k].shortId)|..MentionOffset(commits, k + 1)] == ", "
  {
    var p := SentencePrefix(|commits|);
    var parts := QuotedShortIds(commits);
    var whole := JoinToString(parts, ", ");
    CommitSentenceSplit(commits);
    assert parts[k] == Quoted(commits[k].shortId);
    assert MentionOffset(commits, k) == |p| + PartOffset(parts, ", ", k);
    assert MentionOffset(commits, k + 1) == |p| + PartOffset(parts, ", ", k + 1);
    JoinSeparatorAt(parts, ", ", k);
    SliceAfterPrefix(p, whole, PartOffset(parts, ", ", k) + |parts[k]|, PartOffset(parts, ", ", k + 1));
  }

  /** The mention of the last commit ends the sentence. */
  lemma CommitSentenceEndsWithLast(commits: seq<Commit>)
    requires |commits| > 0
    ensures MentionOffset(commits, |commits| - 1) + |Quoted(commits[|commits| - 1].shortId)| == |CommitSentence(commits)|
  {
    var k := |commits| - 1;
    var parts := QuotedShortIds(commits);
    CommitSentenceSplit(commits);
    assert parts[k] == Quoted(commits[k].shortId);
    assert MentionOffset(commits, k) == |SentencePrefix(|commits|)| + PartOffset(parts, ", ", k);
    JoinPartAt(parts, ", ", k);
  }

  /** With no commits the sentence is the plural prefix alone. */
  lemma CommitSentenceOfNone()
    ensures CommitSentence([]) == "Explain the commits "
  {
  }

  /** With at least one commit the sentence ends with a backtick, never with the tag sentinel. */
  lemma CommitSentenceEndsWithBacktick(commits: seq<Commit>)
    requires |commits| > 0
    ensures |CommitSentence(commits)| > 0 && CommitSentence(commits)[|CommitSentence(commits)| - 1] == '`'
  {
    var k := |commits| - 1;
    var p := SentencePrefix(|commits|);
    var parts := QuotedShortIds(commits);
    var whole := JoinToString(parts, ", ");
    var q := parts[k];
    CommitSentenceSplit(commits);
    JoinPartAt(parts, ", ", k);
    var o := PartOffset(parts, ", ", k);
    assert q == Quoted(commits[k].shortId);
    QuotedShape(commits[k].shortId);
    assert whole[o..o + |q|][|q| - 1] == whole[|whole| - 1];
    assert (p + whole)[|p + whole| - 1] == whole[|whole| - 1];
  }
}
