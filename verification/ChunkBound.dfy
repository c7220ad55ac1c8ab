/** Texts on which `split` goes past its documented bound, and exactly when there are any. */
module ChunkBound {
  import opened Basics
  import opened Text
  import opened Normalize
  import opened Sentences
  import opened Chunker

  /** Nothing in it ends a sentence or is white space. */
  ghost predicate Plain(s: string) { forall i :: 0 <= i < |s| ==> s[i] == 'x' }

  lemma PlainHead(a: string, rest: string)
    requires Plain(a) && a != ""
    ensures CutLength(a + rest) == 0
  {
    assert (a + rest)[0] == 'x';
  }

  /** In one plain line nothing is cut. */
  lemma {:induction false} PlainUncut(b: string)
    requires Plain(b)
    ensures FirstCut(b) == 0
  {
    if b != "" {
      PlainHead(b, "");
      assert b + "" == b;
      PlainUncut(b[1..]);
    }
  }

  /** Of two plain lines the newline between them is the first boundary. */
  lemma {:induction false} PlainCut(a: string, b: string)
    requires Plain(a) && Plain(b) && b != ""
    ensures FirstCut(a + [NEWLINE] + b) == |a| + 1
  {
    var s := a + [NEWLINE] + b;
    if a == "" {
      assert s[0] == NEWLINE && s[1..] == b && s[1] == 'x';
      assert NewlineRun(b) == 0;
    } else {
      assert s == a + ([NEWLINE] + b);
      PlainHead(a, [NEWLINE] + b);
      assert s[1..] == a[1..] + [NEWLINE] + b;
      PlainCut(a[1..], b);
    }
  }

  lemma PlainTrimmed(a: string)
    requires Plain(a) && a != ""
    ensures Strip(a) == a && NEWLINE !in a && Settled(a)
  {
    StripNothing(a);
  }

  lemma StripLine(a: string)
    requires Plain(a) && a != ""
    ensures Strip(a + [NEWLINE]) == a
  {
    var s := a + [NEWLINE];
    assert s[0] == 'x' && StripLeft(s) == s;
    assert s[..|s| - 1] == a && StripRight(a) == a;
  }

  lemma CleanTwo(p: string, q: string)
    requires Strip(p) != "" && Strip(q) != ""
    ensures Clean([p, q]) == [Strip(p), Strip(q)]
  {
    assert [p, q][..1] == [p] && [p][..0] == [];
    assert Clean([p]) == [Strip(p)];
  }

  lemma PlainParagraphs(a: string, b: string)
    requires Plain(a) && Plain(b) && a != "" && b != ""
    ensures Clean(SplitLines(a + [NEWLINE] + b)) == [a, b]
  {
    PlainTrimmed(a);
    PlainTrimmed(b);
    SplitOneLine(a);
    SplitAppend(a, b);
    assert SplitLines(a + [NEWLINE] + b) == [a, b];
    CleanTwo(a, b);
  }

  lemma PlainSentences(a: string, b: string)
    requires Plain(a) && Plain(b) && a != "" && b != ""
    ensures SentencesOf(a + [NEWLINE] + b) == [a, b]
  {
    var s := a + [NEWLINE] + b;
    PlainCut(a, b);
    PlainUncut(b);
    assert s[..|a| + 1] == a + [NEWLINE] && s[|a| + 1..] == b;
    assert Segments(FirstCut, b) == [b];
    assert Segments(FirstCut, s) == [a + [NEWLINE], b];
    StripLine(a);
    PlainTrimmed(b);
    CleanTwo(a + [NEWLINE], b);
  }

  lemma TwoLinesStrip(a: string, b: string)
    requires Plain(a) && Plain(b) && a != "" && b != ""
    ensures Strip(a + [NEWLINE] + b) == a + [NEWLINE] + b
  {
    var text := a + [NEWLINE] + b;
    assert text[0] == a[0] && text[|text| - 1] == b[|b| - 1];
    StripNothing(text);
  }

  lemma TwoLinesUnits(a: string, b: string, strategy: Strategy)
    requires Plain(a) && Plain(b) && a != "" && b != "" && strategy != ByLength
    ensures Units(a + [NEWLINE] + b, strategy) == [a, b]
  {
    if strategy == ByParagraphs { PlainParagraphs(a, b); } else { PlainSentences(a, b); }
  }

  lemma ChunkedIs(text: string, size: int, overlap: int, strategy: Strategy, units: seq<string>)
    requires text != "" && Strip(text) == text && strategy != ByLength && Units(text, strategy) == units
    ensures Chunked(text, size, overlap, strategy) == Packed(units, Max(1, size), Clamped(size, overlap))
  {
  }

  lemma TwoLinesChunked(a: string, b: string, size: int, overlap: int, strategy: Strategy)
    requires Plain(a) && Plain(b) && a != "" && b != "" && strategy != ByLength
    ensures Chunked(a + [NEWLINE] + b, size, overlap, strategy) == Packed([a, b], Max(1, size), Clamped(size, overlap))
  {
    TwoLinesStrip(a, b);
    TwoLinesUnits(a, b, strategy);
    ChunkedIs(a + [NEWLINE] + b, size, overlap, strategy, [a, b]);
  }

  /** Two lines that overflow, for every size and every overlap that is not clamped away. */
  lemma OverflowingText(size: int, overlap: int, strategy: Strategy) returns (text: string, chunk: string)
    requires strategy != ByLength && Clamped(size, overlap) >= 2
    ensures chunk in Chunked(text, size, overlap, strategy)
    ensures |chunk| == Max(1, size) + Clamped(size, overlap) - 1
  {
    var units;
    units, chunk := OverflowingUnits(Max(1, size), Clamped(size, overlap));
    var a, b := units[0], units[1];
    assert units == [a, b];
    TwoLinesChunked(a, b, size, overlap, strategy);
    text := a + [NEWLINE] + b;
  }

  /** The documented "at most `size`" holds of every text exactly when windows are cut by
      length or the overlap in use is at most 1. */
  lemma SplitBoundExactly(size: int, overlap: int, strategy: Strategy)
    ensures (forall text :: Within(Chunked(text, size, overlap, strategy), Max(1, size))) <==>
            strategy == ByLength || Clamped(size, overlap) <= 1
  {
    if strategy == ByLength || Clamped(size, overlap) <= 1 {
      forall text ensures Within(Chunked(text, size, overlap, strategy), Max(1, size)) {
        ChunkedFacts(text, size, overlap, strategy);
      }
    } else {
      var text, chunk := OverflowingText(size, overlap, strategy);
      assert |chunk| > Max(1, size);
    }
  }
}
