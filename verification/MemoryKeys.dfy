/** The texts the dedupe digests are taken over: two writes share a digest only if they are
    the same decision, or the same note on the same subject. */
module MemoryKeys {
  import opened MemoryTable

  const BAR := '|'

  /** `"|".join(parts)` for the two kinds of key; `digest` is SHA-256 in hex. */
  function KeyText(digest: string -> string, k: DedupeKey): string {
    match k
    case NoKey => ""
    case DecisionKey(subject, verdict, advisory) =>
      "decision|" + subject + [BAR] + verdict + (if advisory then "|verdict-tool|workflow" else "|verdict-tool|analyst")
    case ReasonKey(subject, body) => "reason|" + subject + [BAR] + digest("note|" + body)
  }

  ghost predicate HexDigest(digest: string -> string) {
    && (forall t :: BAR !in digest(t))
    && (forall t, u :: digest(t) == digest(u) ==> t == u)
  }

  /** What the writers put in a key: the verdict is a known one, so it holds no bar. */
  ghost predicate FromWriter(k: DedupeKey) { k.DecisionKey? ==> BAR !in k.verdict }

  /** What is hashed, spelled out: for a machine's decision, an analyst's, and a note. */
  lemma TextsAre(digest: string -> string, subject: string, verdict: string, body: string)
    ensures KeyText(digest, DecisionKey(subject, verdict, true)) == "decision|" + subject + "|" + verdict + "|verdict-tool|workflow"
    ensures KeyText(digest, DecisionKey(subject, verdict, false)) == "decision|" + subject + "|" + verdict + "|verdict-tool|analyst"
    ensures KeyText(digest, ReasonKey(subject, body)) == "reason|" + subject + "|" + digest("note|" + body)
    ensures KeyText(digest, NoKey) == ""
  {
    assert [BAR] == "|";
  }

  lemma KnownVerdictHasNoBar(verdict: string)
    requires verdict in VERDICTS
    ensures BAR !in verdict
  {
    assert exists i :: 0 <= i < |VERDICTS| && VERDICTS[i] == verdict;
  }

  lemma NoBarAfter(whole: string, a: string, v: string, i: int)
    requires whole == a + [BAR] + v && BAR !in v && |a| < i < |whole|
    ensures whole[i] != BAR
  {
    assert whole[i] == v[i - |a| - 1];
  }

  /** The last bar splits a text in one way only. */
  lemma LastBarSplits(whole: string, a: string, v: string, b: string, w: string)
    requires whole == a + [BAR] + v && whole == b + [BAR] + w && BAR !in v && BAR !in w
    ensures a == b && v == w
  {
    assert whole[|a|] == BAR && whole[|b|] == BAR;
    if |a| < |b| { NoBarAfter(whole, a, v, |b|); }
    if |b| < |a| { NoBarAfter(whole, b, w, |a|); }
    assert a == whole[..|a|] && b == whole[..|b|];
    assert v == whole[|a| + 1..] && w == whole[|b| + 1..];
  }

  lemma DropPrefix(p: string, a: string, b: string)
    requires p + a == p + b
    ensures a == b
  {
    assert a == (p + a)[|p|..] && b == (p + b)[|p|..];
  }

  lemma DropSuffix(a: string, b: string, s: string)
    requires a + s == b + s
    ensures a == b
  {
    assert |a| == |b|;
    assert a == (a + s)[..|a|] && b == (b + s)[..|b|];
  }

  lemma SameClass(a: string, x: bool, b: string, y: bool)
    requires a + (if x then "|verdict-tool|workflow" else "|verdict-tool|analyst") ==
             b + (if y then "|verdict-tool|workflow" else "|verdict-tool|analyst")
    ensures x == y && a == b
  {
    var s := if x then "|verdict-tool|workflow" else "|verdict-tool|analyst";
    var t := if y then "|verdict-tool|workflow" else "|verdict-tool|analyst";
    assert (a + s)[|a + s| - 1] == s[|s| - 1] && (b + t)[|b + t| - 1] == t[|t| - 1];
    DropSuffix(a, b, s);
  }

  lemma KindShows(digest: string -> string, k: DedupeKey)
    ensures var t := KeyText(digest, k);
            && (t == "" <==> k.NoKey?)
            && (t != "" ==> t[0] == if k.DecisionKey? then 'd' else 'r')
  {
  }

  /** Different keys are hashed over different texts, whatever the subject contains. */
  lemma KeysHaveOwnTexts(digest: string -> string, j: DedupeKey, k: DedupeKey)
    requires HexDigest(digest) && FromWriter(j) && FromWriter(k)
    ensures KeyText(digest, j) == KeyText(digest, k) <==> j == k
  {
    if KeyText(digest, j) == KeyText(digest, k) {
      match (j, k)
      case (DecisionKey(s, v, x), DecisionKey(t, w, y)) =>
        SameClass("decision|" + s + [BAR] + v, x, "decision|" + t + [BAR] + w, y);
        LastBarSplits("decision|" + s + [BAR] + v, "decision|" + s, v, "decision|" + t, w);
        DropPrefix("decision|", s, t);
      case (ReasonKey(s, v), ReasonKey(t, w)) =>
        LastBarSplits(KeyText(digest, j), "reason|" + s, digest("note|" + v), "reason|" + t, digest("note|" + w));
        DropPrefix("reason|", s, t);
        DropPrefix("note|", v, w);
      case _ =>
        KindShows(digest, j);
        KindShows(digest, k);
    }
  }

  /** The verdict check is what rules a collision out: with a bar in the verdict two
      subjects can share a text. */
  lemma BarInVerdictCollides(digest: string -> string, a: string, b: string, c: string, advisory: bool)
    ensures KeyText(digest, DecisionKey(a, b + [BAR] + c, advisory)) == KeyText(digest, DecisionKey(a + [BAR] + b, c, advisory))
  {
    var tail := if advisory then "|verdict-tool|workflow" else "|verdict-tool|analyst";
    assert "decision|" + a + [BAR] + (b + [BAR] + c) + tail == "decision|" + (a + [BAR] + b) + [BAR] + c + tail;
  }
}
