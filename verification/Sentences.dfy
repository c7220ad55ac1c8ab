/** Sentence splitting: terminators stay with their sentence, bare dots cut nothing. */
module Sentences {
  import opened Text

  predicate IsCjk(c: char) { c == '\U{3002}' || c == '\U{FF01}' || c == '\U{FF1F}' }
  predicate IsAsciiEnd(c: char) { c in ".!?;" }

  function NewlineRun(s: string): (n: nat)
    ensures n <= |s|
    ensures forall i :: 0 <= i < n ==> s[i] == '\n'
  {
    if s != "" && s[0] == '\n' then 1 + NewlineRun(s[1..]) else 0
  }

  /** Length of the boundary that matches at the head of `s`, or 0: a CJK terminator, an
      ASCII terminator before white space or the end, or a run of newlines. */
  function CutLength(s: string): (n: nat)
    ensures n <= |s|
  {
    if s == "" then 0
    else if IsCjk(s[0]) then 1
    else if IsAsciiEnd(s[0]) && (|s| == 1 || IsSpace(s[1])) then 1
    else NewlineRun(s)
  }

  /** Where the first boundary in `s` ends, or 0 when there is none. */
  function FirstCut(s: string): (k: nat)
    ensures k <= |s|
  {
    if s == "" then 0
    else if CutLength(s) > 0 then CutLength(s)
    else if FirstCut(s[1..]) > 0 then 1 + FirstCut(s[1..])
    else 0
  }

  ghost predicate Finder(find: string -> nat) { forall s :: find(s) <= |s| }

  /** The raw segments, for any way of finding the next boundary. */
  ghost function Segments(find: string -> nat, s: string): seq<string>
    requires Finder(find)
    decreases |s|
  {
    if find(s) == 0 then [s] else [s[..find(s)]] + Segments(find, s[find(s)..])
  }

  /** The sentences: segments stripped, empty ones dropped. */
  ghost function SentencesOf(text: string): seq<string> { Clean(Segments(FirstCut, text)) }

  /** `_split_sentences`. */
  method SplitSentences(text: string) returns (out: seq<string>)
    ensures out == SentencesOf(text)
  {
    out := SplitBy(FirstCut, Strip, text);
    CleanIsCleanBy(Segments(FirstCut, text));
  }

  /** The loop over the matches; `rest` is the text from the end of the last one. */
  method SplitBy(find: string -> nat, strip: string -> string, text: string) returns (out: seq<string>)
    requires Finder(find)
    ensures out == CleanBy(strip, Segments(find, text))
  {
    out := [];
    var rest := text;
    ghost var done: seq<string> := [];
    while find(rest) > 0
      invariant out == CleanBy(strip, done)
      invariant done + Segments(find, rest) == Segments(find, text)
      decreases |rest|
    {
      var n := find(rest);
      out := Collect(strip, out, rest[..n], done);
      Associate(done, [rest[..n]], Segments(find, rest[n..]));
      done := done + [rest[..n]];
      rest := rest[n..];
    }
    out := Collect(strip, out, rest, done);
  }

  /** Append one piece, stripped, unless nothing is left of it. */
  method Collect(strip: string -> string, out: seq<string>, raw: string, ghost done: seq<string>) returns (r: seq<string>)
    requires out == CleanBy(strip, done)
    ensures r == CleanBy(strip, done + [raw])
  {
    assert (done + [raw])[..|done|] == done;
    var piece := strip(raw);
    r := if piece == "" then out else out + [piece];
  }

  // ----- Where the cuts are -----

  /** A sentence ends behind position `e`: after a CJK terminator, after an ASCII one with white
      space or nothing behind it, or after the last of some newlines. */
  ghost predicate EndsAt(s: string, e: int)
    requires 0 < e <= |s|
  {
    || s[e - 1] in {'\U{3002}', '\U{FF01}', '\U{FF1F}'}
    || (s[e - 1] in {'.', '!', '?', ';'} && (e == |s| || IsSpace(s[e])))
    || (s[e - 1] == '\n' && (e == |s| || s[e] != '\n'))
  }

  lemma {:induction false} NewlinesEnd(s: string, e: int)
    requires 0 < e <= |s|
    ensures e < NewlineRun(s) ==> !EndsAt(s, e)
    ensures e == NewlineRun(s) ==> EndsAt(s, e)
    ensures NewlineRun(s) < |s| ==> s[NewlineRun(s)] != '\n'
  {
    if s[0] == '\n' && |s| > 1 {
      NewlinesEnd(s[1..], if e > 1 then e - 1 else 1);
    }
  }

  lemma CutEnds(s: string, e: int)
    requires 0 < e <= |s|
    ensures e < CutLength(s) ==> !EndsAt(s, e)
    ensures CutLength(s) > 0 && e == CutLength(s) ==> EndsAt(s, e)
    ensures CutLength(s) == 0 && e == 1 ==> !EndsAt(s, 1)
  {
    NewlinesEnd(s, e);
  }

  lemma EndsLater(s: string, t: string, from: nat, e: int)
    requires from <= |s| && t == s[from..] && 0 < e <= |t|
    ensures EndsAt(s, from + e) <==> EndsAt(t, e)
  {
    assert t[e - 1] == s[from + e - 1] && (e < |t| ==> t[e] == s[from + e]);
  }

  /** The first cut is behind the first position where a sentence ends. */
  lemma {:induction false} FirstCutIsFirst(s: string, e: int)
    requires 0 < e <= |s|
    ensures FirstCut(s) == 0 || e < FirstCut(s) ==> !EndsAt(s, e)
    ensures e == FirstCut(s) ==> EndsAt(s, e)
  {
    CutEnds(s, e);
    if CutLength(s) == 0 && e > 1 {
      FirstCutIsFirst(s[1..], e - 1);
      EndsLater(s, s[1..], 1, e - 1);
    }
  }

  /** How much of the text the first `k` segments take. */
  ghost function UpTo(segments: seq<string>, k: nat): nat
    requires k <= |segments|
  {
    if k == 0 then 0 else |segments[0]| + UpTo(segments[1..], k - 1)
  }

  ghost predicate CutBehind(segments: seq<string>, e: int) {
    exists k: nat :: 0 < k < |segments| && UpTo(segments, k) == e
  }

  lemma CutBehindCons(first: string, rest: seq<string>, e: int)
    requires first != "" && rest != []
    ensures CutBehind([first] + rest, e) <==> e == |first| || CutBehind(rest, e - |first|)
  {
    var all := [first] + rest;
    assert all[1..] == rest;
    if e == |first| { assert UpTo(all, 1) == e by { assert UpTo(rest, 0) == 0; } }
    if k: nat :| 0 < k < |rest| && UpTo(rest, k) == e - |first| { assert UpTo(all, k + 1) == e; }
    if k: nat :| 0 < k < |all| && UpTo(all, k) == e {
      if k > 1 { assert UpTo(rest, k - 1) == e - |first|; }
    }
  }

  /** `find` meets the first end, and ends do not depend on what is before them. */
  ghost predicate Meets(find: string -> nat, ends: (string, int) -> bool, s: string, e: int) {
    0 < e <= |s| ==>
      && (find(s) == 0 || e < find(s) ==> !ends(s, e)) && (e == find(s) ==> ends(s, e))
      && (0 < find(s) < e && find(s) <= |s| ==> ends(s, e) == ends(s[find(s)..], e - find(s)))
  }

  lemma {:induction false} CutsWhere(find: string -> nat, ends: (string, int) -> bool, text: string, e: int)
    requires Finder(find) && 0 < e <= |text| && forall s, i :: Meets(find, ends, s, i)
    ensures CutBehind(Segments(find, text), e) <==> ends(text, e)
    decreases |text|
  {
    var f := find(text);
    assert Meets(find, ends, text, e);
    if f > 0 {
      var rest := Segments(find, text[f..]);
      CutBehindCons(text[..f], rest, e);
      if e > f {
        CutsWhere(find, ends, text[f..], e - f);
      } else if CutBehind(rest, e - f) {
        NoCutBefore(find, text[f..], e - f);
      }
    }
  }

  ghost function Ends(): (string, int) -> bool { (s: string, e: int) => 0 < e <= |s| && EndsAt(s, e) }

  lemma FirstCutMeets(s: string, e: int)
    ensures Meets(FirstCut, Ends(), s, e)
  {
    if 0 < e <= |s| {
      FirstCutIsFirst(s, e);
      if 0 < FirstCut(s) < e { EndsLater(s, s[FirstCut(s)..], FirstCut(s), e - FirstCut(s)); }
    }
  }

  /** The text is cut behind every position where a sentence ends and nowhere else. */
  lemma CutsExactly(text: string, e: int)
    requires 0 < e <= |text|
    ensures CutBehind(Segments(FirstCut, text), e) <==> EndsAt(text, e)
  {
    forall s, i ensures Meets(FirstCut, Ends(), s, i) { FirstCutMeets(s, i); }
    CutsWhere(FirstCut, Ends(), text, e);
  }

  lemma {:induction false} UpToPositive(segments: seq<string>, k: nat)
    requires 0 < k <= |segments| && segments[0] != ""
    ensures UpTo(segments, k) > 0
  {
  }

  lemma NoCutBefore(find: string -> nat, text: string, e: int)
    requires Finder(find) && CutBehind(Segments(find, text), e)
    ensures e > 0
  {
    var segments := Segments(find, text);
    var k: nat :| 0 < k < |segments| && UpTo(segments, k) == e;
    UpToPositive(segments, k);
  }

  /** Segment `k` is what stands in the text from where the segments before it end. */
  ghost predicate Stands(text: string, segments: seq<string>, k: nat)
    requires k < |segments|
  {
    var from := UpTo(segments, k);
    && from + |segments[k]| <= |text| && segments[k] == text[from..from + |segments[k]|]
    && (k == |segments| - 1 ==> from + |segments[k]| == |text|)
  }

  lemma StandsLater(text: string, f: nat, rest: seq<string>, k: nat)
    requires f <= |text| && k < |rest| && Stands(text[f..], rest, k)
    ensures Stands(text, [text[..f]] + rest, k + 1)
  {
    var all := [text[..f]] + rest;
    assert all[1..] == rest;
    assert UpTo(all, k + 1) == f + UpTo(rest, k);
  }

  lemma {:induction false} SegmentsStand(find: string -> nat, text: string, k: nat)
    requires Finder(find) && k < |Segments(find, text)|
    ensures Stands(text, Segments(find, text), k)
    decreases |text|
  {
    var f := find(text);
    if f > 0 && k > 0 {
      SegmentsStand(find, text[f..], k - 1);
      StandsLater(text, f, Segments(find, text[f..]), k - 1);
    }
  }

  /** Nothing is left out between two cuts. */
  lemma SegmentsAreTheText(text: string, k: nat)
    requires k < |Segments(FirstCut, text)|
    ensures Stands(text, Segments(FirstCut, text), k)
  {
    SegmentsStand(FirstCut, text, k);
  }

  // ----- What is kept -----

  /** `all` of a list whose tail amounts to `b` is `one` of its head and `b` together. */
  ghost predicate JoinsUp(one: string -> string, all: seq<string> -> string, a: string, b: string, rest: seq<string>) {
    all([a]) == one(a) && (all(rest) == one(b) ==> all([a] + rest) == one(a + b))
  }

  lemma InkTogether(a: string, b: string, whole: string, rest: seq<string>)
    requires whole == a + b && AllInk(rest) == Ink(b)
    ensures AllInk([a] + rest) == Ink(whole)
  {
    AllInkConcat([a], rest);
    AllInkOne(a);
    InkConcat(a, b);
  }

  lemma InkJoinsUp(a: string, b: string, rest: seq<string>)
    ensures JoinsUp(Ink, AllInk, a, b, rest)
  {
    AllInkOne(a);
    if AllInk(rest) == Ink(b) { InkTogether(a, b, a + b, rest); }
  }

  /** Whatever adds up over pieces adds up to the text they were cut from. */
  lemma {:induction false} SegmentsAddUp(find: string -> nat, one: string -> string, all: seq<string> -> string, s: string)
    requires Finder(find)
    requires forall a, b, rest :: JoinsUp(one, all, a, b, rest)
    ensures all(Segments(find, s)) == one(s)
    decreases |s|
  {
    if find(s) == 0 {
      assert JoinsUp(one, all, s, "", []);
    } else {
      var a, b := s[..find(s)], s[find(s)..];
      SegmentsAddUp(find, one, all, b);
      assert JoinsUp(one, all, a, b, Segments(find, b));
      assert s == a + b;
    }
  }

  /** No character other than white space is lost, added or moved, whatever the text. */
  lemma SentencesKeepInk(text: string)
    ensures AllInk(SentencesOf(text)) == Ink(text)
  {
    forall a, b, rest ensures JoinsUp(Ink, AllInk, a, b, rest) { InkJoinsUp(a, b, rest); }
    SegmentsAddUp(FirstCut, Ink, AllInk, text);
    CleanInk(Segments(FirstCut, text));
  }

  /** A boundary falls next to white space, at the end, or right after a CJK terminator. */
  lemma CutPlaces(s: string)
    ensures var n := CutLength(s);
            n > 0 ==> IsCjk(s[n - 1]) || IsSpace(s[n - 1]) || n == |s| || IsSpace(s[n])
  {
  }

  /** CJK terminators with something other than white space right behind them. */
  function InnerCjk(s: string): nat {
    if s == "" then 0
    else (if IsCjk(s[0]) && |s| > 1 && !IsSpace(s[1]) then 1 else 0) + InnerCjk(s[1..])
  }

  lemma {:induction false} NewlinesHoldNoCjk(s: string)
    ensures InnerCjk(s[NewlineRun(s)..]) == InnerCjk(s)
  {
    if s != "" && s[0] == '\n' {
      NewlinesHoldNoCjk(s[1..]);
      assert s[NewlineRun(s)..] == s[1..][NewlineRun(s[1..])..];
    } else {
      assert s[0..] == s;
    }
  }

  /** Words across a boundary with white space on one side of it. */
  lemma WordsApart(a: string, b: string)
    requires a == "" || b == "" || IsSpace(a[|a| - 1]) || IsSpace(b[0])
    ensures Words(a + b) == Words(a) + Words(b)
  {
    if a == "" {
      assert a + b == b;
    } else if b == "" {
      assert a + b == a;
    } else if IsSpace(a[|a| - 1]) {
      var n := |a| - 1;
      WordsGap(a[..n], a[n], b);
      WordsGap(a[..n], a[n], "");
      assert a == a[..n] + [a[n]] + "" && a + b == a[..n] + [a[n]] + b;
    } else {
      WordsGap(a, b[0], b[1..]);
      WordsGap("", b[0], b[1..]);
      assert a + b == a + [b[0]] + b[1..] && b == "" + [b[0]] + b[1..];
    }
  }

  /** `a` ends at a boundary that `rest` starts with; `b` is what comes after it. */
  lemma CutWords(a: string, rest: string, b: string, whole: string)
    requires rest != "" && CutLength(rest) > 0 && b == rest[CutLength(rest)..] && whole == a + b
    requires a != "" && a[|a| - 1] == rest[CutLength(rest) - 1]
    ensures |Words(a)| + |Words(b)| + InnerCjk(b) == |Words(whole)| + InnerCjk(rest)
    ensures InnerCjk(b) <= InnerCjk(rest)
    ensures InnerCjk(rest) == 0 ==> Words(a) + Words(b) == Words(whole)
  {
    if IsCjk(rest[0]) && b != "" && !IsSpace(b[0]) {
      WordsMeetFrom("", a, b);
      assert "" + a == a;
    } else {
      if IsCjk(rest[0]) || IsAsciiEnd(rest[0]) {
        assert rest[1..] == b;
      } else {
        NewlinesHoldNoCjk(rest);
      }
      CutPlaces(rest);
      WordsApart(a, b);
    }
  }

  /** Where the first boundary starts; nothing before it is a CJK terminator. */
  lemma {:induction false} FirstCutAt(s: string) returns (j: nat)
    requires FirstCut(s) > 0
    ensures j < FirstCut(s) && CutLength(s[j..]) == FirstCut(s) - j
    ensures InnerCjk(s[j..]) == InnerCjk(s)
  {
    if CutLength(s) > 0 {
      j := 0;
      assert s[0..] == s;
    } else {
      var k := FirstCutAt(s[1..]);
      j := k + 1;
      assert s[1..][k..] == s[j..];
    }
  }

  lemma FirstCutWords(s: string)
    requires FirstCut(s) > 0
    ensures var a, b := s[..FirstCut(s)], s[FirstCut(s)..];
            && |Words(a)| + |Words(b)| + InnerCjk(b) == |Words(s)| + InnerCjk(s)
            && InnerCjk(b) <= InnerCjk(s)
            && (InnerCjk(s) == 0 ==> Words(a) + Words(b) == Words(s))
  {
    var j := FirstCutAt(s);
    var k := FirstCut(s);
    var a, rest, b := s[..k], s[j..], s[k..];
    assert rest[k - j..] == b && a[k - 1] == rest[k - j - 1] && s == a + b;
    CutWords(a, rest, b, s);
  }

  lemma {:induction false} NoCutNoCjk(s: string)
    requires FirstCut(s) == 0
    ensures InnerCjk(s) == 0
  {
    if s != "" { NoCutNoCjk(s[1..]); }
  }

  /** What one boundary does to the words and to the inner terminators. */
  ghost predicate Counts(find: string -> nat, words: string -> seq<string>, inner: string -> nat, s: string) {
    find(s) <= |s| ==>
      if find(s) == 0 then inner(s) == 0
      else
        var a, b := s[..find(s)], s[find(s)..];
        && |words(a)| + |words(b)| + inner(b) == |words(s)| + inner(s)
        && inner(b) <= inner(s)
        && (inner(s) == 0 ==> words(a) + words(b) == words(s))
  }

  ghost predicate Lists(words: string -> seq<string>, all: seq<string> -> seq<string>, a: string, rest: seq<string>) {
    all([a]) == words(a) && all([a] + rest) == words(a) + all(rest)
  }

  lemma FirstCutCounts(s: string)
    ensures Counts(FirstCut, Words, InnerCjk, s)
  {
    if FirstCut(s) == 0 {
      NoCutNoCjk(s);
    } else {
      FirstCutWords(s);
    }
  }

  lemma AllWordsLists(a: string, rest: seq<string>)
    ensures Lists(Words, AllWords, a, rest)
  {
    AllWordsOne(a);
    AllWordsConcat([a], rest);
  }

  lemma {:induction false} SegmentsCountWords(find: string -> nat, words: string -> seq<string>, all: seq<string> -> seq<string>,
                                              inner: string -> nat, s: string)
    requires Finder(find)
    requires forall t :: Counts(find, words, inner, t)
    requires forall a, rest :: Lists(words, all, a, rest)
    ensures |all(Segments(find, s))| == |words(s)| + inner(s)
    ensures inner(s) == 0 ==> all(Segments(find, s)) == words(s)
    decreases |s|
  {
    assert Counts(find, words, inner, s);
    if find(s) == 0 {
      assert Lists(words, all, s, []);
    } else {
      var b := s[find(s)..];
      SegmentsCountWords(find, words, all, inner, b);
      assert Lists(words, all, s[..find(s)], Segments(find, b));
    }
  }

  /** Splitting keeps the sequence of words exactly when no CJK terminator stands inside one;
      each that does adds one word. */
  lemma SentencesKeepWordsExactly(text: string)
    ensures |AllWords(SentencesOf(text))| == |Words(text)| + InnerCjk(text)
    ensures AllWords(SentencesOf(text)) == Words(text) <==> InnerCjk(text) == 0
  {
    forall s ensures Counts(FirstCut, Words, InnerCjk, s) { FirstCutCounts(s); }
    forall a, rest ensures Lists(Words, AllWords, a, rest) { AllWordsLists(a, rest); }
    SegmentsCountWords(FirstCut, Words, AllWords, InnerCjk, text);
    CleanWords(Segments(FirstCut, text));
  }
}
