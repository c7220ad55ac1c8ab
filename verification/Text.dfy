/** White space, stripping and words, as Python's `str` methods see them. */
module Text {

  /** The characters `str.isspace`, `strip`, `split` and a regular expression's `\s` share. */
  predicate IsSpace(c: char) {
    var n := c as int;
    || 9 <= n <= 13 || 28 <= n <= 32 || n == 0x85 || n == 0xA0 || n == 0x1680
    || 0x2000 <= n <= 0x200A || n == 0x2028 || n == 0x2029 || n == 0x202F || n == 0x205F || n == 0x3000
  }

  function StripLeft(s: string): (r: string)
    ensures r != "" ==> !IsSpace(r[0])
    ensures |r| <= |s| && r == s[|s| - |r|..]
    ensures forall i :: 0 <= i < |s| - |r| ==> IsSpace(s[i])
  {
    if s != "" && IsSpace(s[0]) then StripLeft(s[1..]) else s
  }

  function StripRight(s: string): (r: string)
    ensures r != "" ==> !IsSpace(r[|r| - 1])
    ensures r <= s
    ensures forall i :: |r| <= i < |s| ==> IsSpace(s[i])
  {
    if s != "" && IsSpace(s[|s| - 1]) then StripRight(s[..|s| - 1]) else s
  }

  function Strip(s: string): (r: string)
    ensures r != "" ==> !IsSpace(r[0]) && !IsSpace(r[|r| - 1])
    ensures |r| <= |s|
  {
    StripRight(StripLeft(s))
  }

  lemma StripNothing(s: string)
    requires s != "" ==> !IsSpace(s[0]) && !IsSpace(s[|s| - 1])
    ensures Strip(s) == s
  {
  }

  predicate Contains(s: string, sub: string) {
    exists i :: 0 <= i <= |s| && sub <= s[i..]
  }

  // ----- Words, as `str.split()` gives them -----

  function Flush(cur: string): seq<string> { if cur == "" then [] else [cur] }

  /** The words of `s` when `cur` has been read of the current word. */
  function WordsFrom(cur: string, s: string): seq<string>
    decreases |s|
  {
    if s == "" then Flush(cur)
    else if IsSpace(s[0]) then Flush(cur) + WordsFrom("", s[1..])
    else WordsFrom(cur + [s[0]], s[1..])
  }

  function Words(s: string): seq<string> { WordsFrom("", s) }

  lemma {:induction false} WordsGapFrom(cur: string, a: string, c: char, b: string)
    requires IsSpace(c)
    ensures WordsFrom(cur, a + [c] + b) == WordsFrom(cur, a) + Words(b)
    decreases |a|
  {
    if a == "" {
      assert a + [c] + b == [c] + b;
    } else {
      assert (a + [c] + b)[1..] == a[1..] + [c] + b;
      if IsSpace(a[0]) {
        WordsGapFrom("", a[1..], c, b);
        assert Flush(cur) + (WordsFrom("", a[1..]) + Words(b)) == Flush(cur) + WordsFrom("", a[1..]) + Words(b);
      } else {
        WordsGapFrom(cur + [a[0]], a[1..], c, b);
      }
    }
  }

  /** A space separates words. */
  lemma WordsGap(a: string, c: char, b: string)
    requires IsSpace(c)
    ensures Words(a + [c] + b) == Words(a) + Words(b)
  {
    WordsGapFrom("", a, c, b);
  }

  lemma {:induction false} WordsStripLeft(s: string)
    ensures Words(StripLeft(s)) == Words(s)
  {
    if s != "" && IsSpace(s[0]) { WordsStripLeft(s[1..]); }
  }

  lemma {:induction false} WordsStripRight(s: string)
    ensures Words(StripRight(s)) == Words(s)
  {
    if s != "" && IsSpace(s[|s| - 1]) {
      var n := |s| - 1;
      WordsStripRight(s[..n]);
      WordsGap(s[..n], s[n], "");
      assert s[..n] + [s[n]] + "" == s;
    }
  }

  lemma WordsStrip(s: string)
    ensures Words(Strip(s)) == Words(s)
  {
    WordsStripLeft(s);
    WordsStripRight(StripLeft(s));
  }

  /** Where two texts meet: a space on either side keeps the words, else two become one. */
  lemma {:induction false} WordsMeetFrom(cur: string, a: string, b: string)
    requires cur + a != "" && b != ""
    requires !IsSpace((cur + a)[|cur + a| - 1]) && !IsSpace(b[0])
    ensures |WordsFrom(cur, a + b)| == |WordsFrom(cur, a)| + |Words(b)| - 1
    decreases |a|
  {
    if a == "" {
      assert a + b == b && cur != "";
      WordsCurrent(cur, b);
    } else {
      assert (a + b)[1..] == a[1..] + b;
      if IsSpace(a[0]) {
        assert (cur + a)[|cur + a| - 1] == a[|a| - 1];
        assert ("" + a[1..])[|a[1..]| - 1] == (cur + a)[|cur + a| - 1];
        WordsMeetFrom("", a[1..], b);
      } else {
        assert (cur + [a[0]]) + a[1..] == cur + a;
        WordsMeetFrom(cur + [a[0]], a[1..], b);
      }
    }
  }

  /** A text that starts inside a word has the same number of words whatever was read of it. */
  lemma {:induction false} WordsCurrent(cur: string, b: string)
    requires cur != "" && b != "" && !IsSpace(b[0])
    ensures |WordsFrom(cur, b)| == |Words(b)|
  {
    SameCount(cur + [b[0]], [b[0]], b[1..]);
    assert "" + [b[0]] == [b[0]];
  }

  lemma {:induction false} SameCount(c: string, d: string, s: string)
    requires c != "" && d != ""
    ensures |WordsFrom(c, s)| == |WordsFrom(d, s)|
    decreases |s|
  {
    if s != "" && !IsSpace(s[0]) { SameCount(c + [s[0]], d + [s[0]], s[1..]); }
  }

  // ----- Lists of texts -----

  lemma Associate<T>(a: seq<T>, b: seq<T>, c: seq<T>)
    ensures a + (b + c) == a + b + c
  {
  }

  function AllWords(parts: seq<string>): seq<string> {
    if parts == [] then [] else AllWords(parts[..|parts| - 1]) + Words(parts[|parts| - 1])
  }

  lemma {:induction false} AllWordsConcat(a: seq<string>, b: seq<string>)
    ensures AllWords(a + b) == AllWords(a) + AllWords(b)
  {
    if b == [] {
      assert a + b == a;
    } else {
      var n := |b| - 1;
      assert (a + b)[..|a| + n] == a + b[..n] && (a + b)[|a| + n] == b[n];
      AllWordsConcat(a, b[..n]);
      Associate(AllWords(a), AllWords(b[..n]), Words(b[n]));
    }
  }

  lemma AllWordsOne(s: string)
    ensures AllWords([s]) == Words(s)
  {
    assert [s][..0] == [];
  }

  /** `sep.join(parts)`. */
  function Join(sep: char, parts: seq<string>): string {
    if parts == [] then ""
    else if |parts| == 1 then parts[0]
    else Join(sep, parts[..|parts| - 1]) + [sep] + parts[|parts| - 1]
  }

  lemma {:induction false} JoinWords(sep: char, parts: seq<string>)
    requires IsSpace(sep)
    ensures Words(Join(sep, parts)) == AllWords(parts)
  {
    if |parts| == 1 {
      assert AllWords(parts[..0]) == [];
    } else if |parts| > 1 {
      var n := |parts| - 1;
      JoinWords(sep, parts[..n]);
      WordsGap(Join(sep, parts[..n]), sep, parts[n]);
    }
  }

  // ----- Ink: everything that is not white space, in order -----

  function Ink(s: string): string {
    if s == "" then "" else Ink(s[..|s| - 1]) + if IsSpace(s[|s| - 1]) then "" else [s[|s| - 1]]
  }

  lemma {:induction false} InkConcat(a: string, b: string)
    ensures Ink(a + b) == Ink(a) + Ink(b)
  {
    if b == "" {
      assert a + b == a;
    } else {
      var n := |b| - 1;
      assert (a + b)[..|a| + n] == a + b[..n] && (a + b)[|a| + n] == b[n];
      InkConcat(a, b[..n]);
      Associate(Ink(a), Ink(b[..n]), if IsSpace(b[n]) then "" else [b[n]]);
    }
  }

  lemma {:induction false} BlankHasNoInk(s: string)
    requires forall i :: 0 <= i < |s| ==> IsSpace(s[i])
    ensures Ink(s) == ""
  {
    if s != "" { BlankHasNoInk(s[..|s| - 1]); }
  }

  lemma InkCons(c: char, s: string)
    ensures Ink([c] + s) == (if IsSpace(c) then "" else [c]) + Ink(s)
  {
    InkConcat([c], s);
    assert [c][..0] == "";
  }

  lemma InkOfTail(s: string)
    requires s != "" && IsSpace(s[0])
    ensures Ink(s[1..]) == Ink(s)
  {
    var tail := s[1..];
    InkCons(s[0], tail);
    assert [s[0]] + tail == s;
    assert "" + Ink(tail) == Ink(tail);
  }

  lemma {:induction false} InkStripLeft(s: string)
    ensures Ink(StripLeft(s)) == Ink(s)
  {
    if s != "" && IsSpace(s[0]) {
      InkOfTail(s);
      InkStripLeft(s[1..]);
      assert StripLeft(s) == StripLeft(s[1..]);
    }
  }

  lemma {:induction false} InkStripRight(s: string)
    ensures Ink(StripRight(s)) == Ink(s)
  {
    if s != "" && IsSpace(s[|s| - 1]) { InkStripRight(s[..|s| - 1]); }
  }

  lemma InkStrip(s: string)
    ensures Ink(Strip(s)) == Ink(s)
  {
    InkStripLeft(s);
    InkStripRight(StripLeft(s));
  }

  function AllInk(parts: seq<string>): string {
    if parts == [] then "" else AllInk(parts[..|parts| - 1]) + Ink(parts[|parts| - 1])
  }

  lemma AllInkSnoc(a: seq<string>, s: string)
    ensures AllInk(a + [s]) == AllInk(a) + Ink(s)
  {
    assert (a + [s])[..|a|] == a;
  }

  lemma {:induction false} AllInkConcat(a: seq<string>, b: seq<string>)
    ensures AllInk(a + b) == AllInk(a) + AllInk(b)
  {
    if b == [] {
      assert a + b == a;
    } else {
      var n := |b| - 1;
      assert a + b == (a + b[..n]) + [b[n]];
      AllInkConcat(a, b[..n]);
      AllInkSnoc(a + b[..n], b[n]);
      Associate(AllInk(a), AllInk(b[..n]), Ink(b[n]));
    }
  }

  lemma AllInkOne(s: string)
    ensures AllInk([s]) == Ink(s)
  {
    assert [s][..0] == [];
  }

  lemma {:induction false} JoinInk(sep: char, parts: seq<string>)
    requires IsSpace(sep)
    ensures Ink(Join(sep, parts)) == AllInk(parts)
  {
    if |parts| == 1 {
      AllInkOne(parts[0]);
      assert parts == [parts[0]];
    } else if |parts| > 1 {
      var n := |parts| - 1;
      JoinInk(sep, parts[..n]);
      InkConcat(Join(sep, parts[..n]) + [sep], parts[n]);
      InkConcat(Join(sep, parts[..n]), [sep]);
      BlankHasNoInk([sep]);
    }
  }

  // ----- Stripped pieces, empty ones dropped -----

  predicate Trimmed(line: string) { line != "" && !IsSpace(line[0]) && !IsSpace(line[|line| - 1]) }

  /** The stripped lines that are not empty, in order. */
  function Clean(lines: seq<string>): (r: seq<string>)
    ensures forall i :: 0 <= i < |r| ==> Trimmed(r[i])
  {
    if lines == [] then []
    else
      var n := |lines| - 1;
      var rest := Clean(lines[..n]);
      var line := Strip(lines[n]);
      if line == "" then rest
      else
        assert Trimmed(line);
        rest + [line]
  }

  /** The same for any way of stripping. */
  function CleanBy(strip: string -> string, lines: seq<string>): seq<string> {
    if lines == [] then []
    else
      var n := |lines| - 1;
      CleanBy(strip, lines[..n]) + if strip(lines[n]) == "" then [] else [strip(lines[n])]
  }

  lemma {:induction false} CleanIsCleanBy(lines: seq<string>)
    ensures CleanBy(Strip, lines) == Clean(lines)
  {
    if lines != [] { CleanIsCleanBy(lines[..|lines| - 1]); }
  }

  lemma {:induction false} CleanWords(lines: seq<string>)
    ensures AllWords(Clean(lines)) == AllWords(lines)
  {
    if lines != [] {
      var n := |lines| - 1;
      CleanWords(lines[..n]);
      WordsStrip(lines[n]);
      var rest := Clean(lines[..n]);
      if Strip(lines[n]) != "" { assert (rest + [Strip(lines[n])])[..|rest|] == rest; }
    }
  }

  lemma {:induction false} CleanInk(lines: seq<string>)
    ensures AllInk(Clean(lines)) == AllInk(lines)
  {
    if lines != [] {
      var n := |lines| - 1;
      CleanInk(lines[..n]);
      InkStrip(lines[n]);
      if Strip(lines[n]) != "" { AllInkSnoc(Clean(lines[..n]), Strip(lines[n])); }
    }
  }
}
