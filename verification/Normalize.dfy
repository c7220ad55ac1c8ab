/** Text normalisation before chunking. */
module Normalize {
  import opened Text

  const NEWLINE: char := '\n'
  const RETURN: char := '\r'
  const SPACE: char := ' '

  function ReplaceCrLf(s: string): string {
    if s == "" then ""
    else if |s| > 1 && s[0] == RETURN && s[1] == NEWLINE then [NEWLINE] + ReplaceCrLf(s[2..])
    else [s[0]] + ReplaceCrLf(s[1..])
  }

  function ReplaceCr(s: string): (r: string)
    ensures RETURN !in r
  {
    if s == "" then "" else [if s[0] == RETURN then NEWLINE else s[0]] + ReplaceCr(s[1..])
  }

  /** Runs of two or more newlines become one. */
  function Collapse(s: string): (r: string)
    ensures forall c :: c in r ==> c in s
  {
    if s == "" then ""
    else if |s| > 1 && s[0] == NEWLINE && s[1] == NEWLINE then Collapse(s[1..])
    else [s[0]] + Collapse(s[1..])
  }

  /** `s.split("\n")`. */
  function SplitLines(s: string): (r: seq<string>)
    ensures r != []
    ensures forall line :: line in r ==> NEWLINE !in line && forall c :: c in line ==> c in s
  {
    if s == "" then [""]
    else
      var rest := SplitLines(s[1..]);
      assert rest[0] in rest;
      if s[0] == NEWLINE then [""] + rest else [[s[0]] + rest[0]] + rest[1..]
  }

  predicate EndsSentence(line: string) { line != "" && line[|line| - 1] in ".!?" }

  /** Lines joined until one ends a sentence; `buf` holds the lines not yet joined. */
  function Merge(buf: seq<string>, lines: seq<string>): seq<string>
    decreases |lines|
  {
    if lines == [] then (if buf == [] then [] else [Join(SPACE, buf)])
    else if EndsSentence(lines[0]) then [Join(SPACE, buf + [lines[0]])] + Merge([], lines[1..])
    else Merge(buf + [lines[0]], lines[1..])
  }

  function Lines(text: string): seq<string> {
    Clean(SplitLines(Collapse(ReplaceCr(ReplaceCrLf(text)))))
  }

  function Normalized(text: string): string { Join(NEWLINE, Merge([], Lines(text))) }

  lemma MergeStep(buf: seq<string>, lines: seq<string>, idx: nat)
    requires idx < |lines|
    ensures Merge(buf, lines[idx..]) ==
            if idx == |lines| - 1 || EndsSentence(lines[idx]) then [Join(SPACE, buf + [lines[idx]])] + Merge([], lines[idx + 1..])
            else Merge(buf + [lines[idx]], lines[idx + 1..])
  {
    assert lines[idx..][1..] == lines[idx + 1..] && lines[idx..][0] == lines[idx];
  }

  /** The loop over lines. */
  method MergeLines(lines: seq<string>) returns (merged: seq<string>)
    ensures merged == Merge([], lines)
  {
    merged := [];
    var buf: seq<string> := [];
    assert lines[0..] == lines;
    for idx := 0 to |lines|
      invariant merged + Merge(buf, lines[idx..]) == Merge([], lines)
      invariant idx == |lines| ==> buf == []
    {
      MergeStep(buf, lines, idx);
      buf := buf + [lines[idx]];
      if idx == |lines| - 1 || EndsSentence(lines[idx]) {
        Associate(merged, [Join(SPACE, buf)], Merge([], lines[idx + 1..]));
        merged := merged + [Join(SPACE, buf)];
        buf := [];
      }
    }
  }

  /** `normalize`. */
  method NormalizeText(text: string) returns (r: string)
    ensures r == Normalized(text)
  {
    var merged := MergeLines(Lines(text));
    r := Join(NEWLINE, merged);
  }

  // ----- Words are kept -----

  lemma {:induction false} CrLfWords(cur: string, s: string)
    ensures WordsFrom(cur, ReplaceCrLf(s)) == WordsFrom(cur, s)
    decreases |s|
  {
    if s == "" {
    } else if |s| > 1 && s[0] == RETURN && s[1] == NEWLINE {
      CrLfWords("", s[2..]);
      assert s[1..][1..] == s[2..];
      assert Flush(cur) + (Flush("") + WordsFrom("", s[2..])) == Flush(cur) + WordsFrom("", s[2..]);
    } else if IsSpace(s[0]) {
      CrLfWords("", s[1..]);
    } else {
      CrLfWords(cur + [s[0]], s[1..]);
    }
  }

  lemma {:induction false} CrWords(cur: string, s: string)
    ensures WordsFrom(cur, ReplaceCr(s)) == WordsFrom(cur, s)
    decreases |s|
  {
    if s != "" {
      if IsSpace(s[0]) { CrWords("", s[1..]); } else { CrWords(cur + [s[0]], s[1..]); }
    }
  }

  lemma {:induction false} CollapseWords(cur: string, s: string)
    ensures WordsFrom(cur, Collapse(s)) == WordsFrom(cur, s)
    decreases |s|
  {
    if s == "" {
    } else if |s| > 1 && s[0] == NEWLINE && s[1] == NEWLINE {
      CollapseWords(cur, s[1..]);
      assert Flush(cur) + (Flush("") + WordsFrom("", s[1..][1..])) == Flush(cur) + WordsFrom("", s[1..][1..]);
    } else if IsSpace(s[0]) {
      CollapseWords("", s[1..]);
    } else {
      CollapseWords(cur + [s[0]], s[1..]);
    }
  }

  /** Words of lines, the first of which continues `cur`. */
  lemma {:induction false} SplitWords(cur: string, s: string)
    ensures var r := SplitLines(s); WordsFrom(cur, s) == WordsFrom(cur, r[0]) + AllWords(r[1..])
    decreases |s|
  {
    var r := SplitLines(s);
    if s == "" {
    } else if s[0] == NEWLINE {
      SplitWords("", s[1..]);
      var rest := SplitLines(s[1..]);
      assert r[1..] == rest && rest == [rest[0]] + rest[1..];
      AllWordsConcat([rest[0]], rest[1..]);
      assert AllWords([rest[0]]) == Words(rest[0]) by { assert [rest[0]][..0] == []; }
    } else {
      var rest := SplitLines(s[1..]);
      assert r[0] == [s[0]] + rest[0] && r[0][1..] == rest[0] && r[1..] == rest[1..];
      if IsSpace(s[0]) {
        SplitWords("", s[1..]);
        Associate(Flush(cur), Words(rest[0]), AllWords(rest[1..]));
      } else {
        SplitWords(cur + [s[0]], s[1..]);
      }
    }
  }

  lemma SplitLinesWords(s: string)
    ensures AllWords(SplitLines(s)) == Words(s)
  {
    var r := SplitLines(s);
    SplitWords("", s);
    AllWordsConcat([r[0]], r[1..]);
    AllWordsOne(r[0]);
    assert r == [r[0]] + r[1..];
  }

  lemma {:induction false} MergeWords(buf: seq<string>, lines: seq<string>)
    ensures AllWords(Merge(buf, lines)) == AllWords(buf) + AllWords(lines)
    decreases |lines|
  {
    if lines == [] {
      if buf != [] { JoinWords(SPACE, buf); assert [Join(SPACE, buf)][..0] == []; }
    } else {
      var line, rest := lines[0], lines[1..];
      assert lines == [line] + rest;
      AllWordsConcat([line], rest);
      AllWordsConcat(buf, [line]);
      Associate(AllWords(buf), AllWords([line]), AllWords(rest));
      if EndsSentence(line) {
        MergeWords([], rest);
        JoinWords(SPACE, buf + [line]);
        AllWordsConcat([Join(SPACE, buf + [line])], Merge([], rest));
        assert [Join(SPACE, buf + [line])][..0] == [];
      } else {
        MergeWords(buf + [line], rest);
      }
    }
  }

  /** Normalising keeps the sequence of words. */
  lemma NormalizeKeepsWords(text: string)
    ensures Words(Normalized(text)) == Words(text)
  {
    var a := ReplaceCrLf(text);
    var b := ReplaceCr(a);
    var c := Collapse(b);
    CrLfWords("", text);
    CrWords("", a);
    CollapseWords("", b);
    SplitLinesWords(c);
    CleanWords(SplitLines(c));
    MergeWords([], Lines(text));
    JoinWords(NEWLINE, Merge([], Lines(text)));
  }

  // ----- Normalising twice is normalising once -----

  /** A line normalisation has nothing left to do to. */
  ghost predicate Settled(line: string) {
    && Trimmed(line)
    && NEWLINE !in line && RETURN !in line
  }

  ghost predicate AllSettled(lines: seq<string>) { forall i :: 0 <= i < |lines| ==> Settled(lines[i]) }

  /** Every line but the last ends a sentence. */
  ghost predicate Ended(lines: seq<string>) { forall i :: 0 <= i < |lines| - 1 ==> EndsSentence(lines[i]) }

  lemma StripKeepsChars(s: string)
    ensures forall c :: c in Strip(s) ==> c in s
  {
    var l := StripLeft(s);
    assert forall c :: c in l ==> c in s;
    assert forall c :: c in StripRight(l) ==> c in l;
  }

  lemma {:induction false} CleanFrom(lines: seq<string>, line: string) returns (raw: string)
    requires line in Clean(lines)
    ensures raw in lines && line == Strip(raw)
  {
    var n := |lines| - 1;
    if line in Clean(lines[..n]) { raw := CleanFrom(lines[..n], line); } else { raw := lines[n]; }
  }

  lemma LinesSettled(text: string)
    ensures AllSettled(Lines(text))
  {
    var c := Collapse(ReplaceCr(ReplaceCrLf(text)));
    var raw := SplitLines(c);
    var lines := Clean(raw);
    forall i | 0 <= i < |lines| ensures Settled(lines[i]) {
      assert lines[i] in lines;
      var r := CleanFrom(raw, lines[i]);
      StripKeepsChars(r);
    }
  }

  lemma {:induction false} JoinSettled(parts: seq<string>)
    requires AllSettled(parts) && parts != []
    ensures Settled(Join(SPACE, parts))
    ensures EndsSentence(parts[|parts| - 1]) ==> EndsSentence(Join(SPACE, parts))
  {
    if |parts| > 1 {
      JoinSettled(parts[..|parts| - 1]);
    }
  }

  lemma {:induction false} MergeSettled(buf: seq<string>, lines: seq<string>)
    requires AllSettled(buf) && AllSettled(lines)
    ensures AllSettled(Merge(buf, lines)) && Ended(Merge(buf, lines))
    decreases |lines|
  {
    if lines == [] {
      if buf != [] { JoinSettled(buf); }
    } else if EndsSentence(lines[0]) {
      JoinSettled(buf + [lines[0]]);
      MergeSettled([], lines[1..]);
    } else {
      MergeSettled(buf + [lines[0]], lines[1..]);
    }
  }

  lemma {:induction false} MergeOfEnded(lines: seq<string>)
    requires Ended(lines)
    ensures Merge([], lines) == lines
  {
    if lines != [] {
      assert [] + [lines[0]] == [lines[0]];
      if EndsSentence(lines[0]) {
        MergeOfEnded(lines[1..]);
      } else {
        assert lines == [lines[0]];
        assert Merge([lines[0]], lines[1..]) == [Join(SPACE, [lines[0]])];
      }
    }
  }

  lemma {:induction false} NoReturnNoChange(s: string)
    requires RETURN !in s
    ensures ReplaceCrLf(s) == s && ReplaceCr(s) == s
  {
    if s != "" {
      assert s[0] in s && s == [s[0]] + s[1..];
      NoReturnNoChange(s[1..]);
    }
  }

  ghost predicate NoDouble(s: string) {
    forall i :: 0 <= i < |s| - 1 ==> !(s[i] == NEWLINE && s[i + 1] == NEWLINE)
  }

  lemma {:induction false} NoDoubleNoChange(s: string)
    requires NoDouble(s)
    ensures Collapse(s) == s
  {
    if s != "" {
      forall i | 0 <= i < |s[1..]| - 1 ensures !(s[1..][i] == NEWLINE && s[1..][i + 1] == NEWLINE) {
        assert s[1..][i] == s[i + 1] && s[1..][i + 1] == s[i + 1 + 1];
      }
      NoDoubleNoChange(s[1..]);
      assert !(|s| > 1 && s[0] == NEWLINE && s[0 + 1] == NEWLINE);
    }
  }

  lemma {:induction false} JoinLines(lines: seq<string>)
    requires AllSettled(lines)
    ensures NoDouble(Join(NEWLINE, lines)) && RETURN !in Join(NEWLINE, lines)
    ensures lines != [] ==> Join(NEWLINE, lines) != "" && Join(NEWLINE, lines)[|Join(NEWLINE, lines)| - 1] != NEWLINE
  {
    if |lines| == 1 {
      assert lines[0][|lines[0]| - 1] in lines[0];
      forall i | 0 <= i < |lines[0]| ensures lines[0][i] != NEWLINE { assert lines[0][i] in lines[0]; }
    } else if |lines| > 1 {
      var n := |lines| - 1;
      JoinLines(lines[..n]);
      forall i | 0 <= i < |lines[n]| ensures lines[n][i] != NEWLINE { assert lines[n][i] in lines[n]; }
    }
  }

  lemma {:induction false} SplitOneLine(line: string)
    requires NEWLINE !in line
    ensures SplitLines(line) == [line]
  {
    if line != "" {
      assert line[0] in line && line == [line[0]] + line[1..];
      SplitOneLine(line[1..]);
    }
  }

  lemma {:induction false} SplitAppend(s: string, line: string)
    requires NEWLINE !in line
    ensures SplitLines(s + [NEWLINE] + line) == SplitLines(s) + [line]
  {
    if s == "" {
      assert s + [NEWLINE] + line == [NEWLINE] + line;
      SplitOneLine(line);
    } else {
      assert (s + [NEWLINE] + line)[1..] == s[1..] + [NEWLINE] + line;
      SplitAppend(s[1..], line);
    }
  }

  lemma {:induction false} SplitJoined(lines: seq<string>)
    requires AllSettled(lines) && lines != []
    ensures SplitLines(Join(NEWLINE, lines)) == lines
  {
    if |lines| == 1 {
      SplitOneLine(lines[0]);
    } else {
      var n := |lines| - 1;
      SplitJoined(lines[..n]);
      SplitAppend(Join(NEWLINE, lines[..n]), lines[n]);
    }
  }

  lemma {:induction false} CleanSettled(lines: seq<string>)
    requires AllSettled(lines)
    ensures Clean(lines) == lines
  {
    if lines != [] {
      var n := |lines| - 1;
      CleanSettled(lines[..n]);
      assert Settled(lines[n]);
      StripNothing(lines[n]);
      assert lines == lines[..n] + [lines[n]];
    }
  }

  lemma LinesOfJoined(lines: seq<string>)
    requires AllSettled(lines)
    ensures Lines(Join(NEWLINE, lines)) == lines
  {
    var s := Join(NEWLINE, lines);
    JoinLines(lines);
    NoReturnNoChange(s);
    NoDoubleNoChange(s);
    if lines != [] {
      SplitJoined(lines);
      CleanSettled(lines);
    } else {
      assert SplitLines("") == [""] && [""][..0] == [];
    }
  }

  /** Normalising is idempotent. */
  lemma NormalizeIsIdempotent(text: string)
    ensures Normalized(Normalized(text)) == Normalized(text)
  {
    var merged := Merge([], Lines(text));
    LinesSettled(text);
    MergeSettled([], Lines(text));
    LinesOfJoined(merged);
    MergeOfEnded(merged);
  }
}
