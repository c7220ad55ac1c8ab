/** What normalisation makes of a text, said without its passes. */
module NormalForm {
  import opened Text
  import opened Normalize

  /** The text cut at every line end of any kind; between the two characters of CRLF there is
      an empty piece. */
  ghost function Pieces(s: string): (r: seq<string>)
    ensures r != []
  {
    if s == "" then [""]
    else
      var rest := Pieces(s[1..]);
      if s[0] == '\n' || s[0] == '\r' then [""] + rest else [[s[0]] + rest[0]] + rest[1..]
  }

  /** What is left of one line. */
  ghost function Cleaned(line: string): seq<string> { if Strip(line) == "" then [] else [Strip(line)] }

  lemma CleanSnoc(lines: seq<string>, line: string)
    ensures Clean(lines + [line]) == Clean(lines) + Cleaned(line)
  {
    assert (lines + [line])[..|lines|] == lines;
  }

  /** One more line at the end is one more at the end of what is left. */
  ghost predicate Snocs(all: seq<string> -> seq<string>, one: string -> seq<string>, lines: seq<string>, line: string) {
    all(lines + [line]) == all(lines) + one(line)
  }

  lemma {:induction false} ConsOfSnoc(all: seq<string> -> seq<string>, one: string -> seq<string>, line: string, rest: seq<string>)
    requires all([]) == [] && forall lines, l :: Snocs(all, one, lines, l)
    ensures all([line] + rest) == one(line) + all(rest)
  {
    if rest == [] {
      assert Snocs(all, one, [], line);
      assert [line] + rest == [] + [line];
    } else {
      var n := |rest| - 1;
      ConsOfSnoc(all, one, line, rest[..n]);
      assert Snocs(all, one, [line] + rest[..n], rest[n]) && Snocs(all, one, rest[..n], rest[n]);
      Associate(one(line), all(rest[..n]), one(rest[n]));
      assert [line] + rest == [line] + rest[..n] + [rest[n]] && rest == rest[..n] + [rest[n]];
    }
  }

  lemma CleanCons(line: string, rest: seq<string>)
    ensures Clean([line] + rest) == Cleaned(line) + Clean(rest)
  {
    forall lines, l ensures Snocs(Clean, Cleaned, lines, l) { CleanSnoc(lines, l); }
    ConsOfSnoc(Clean, Cleaned, line, rest);
  }

  lemma CleanHead(lines: seq<string>)
    requires lines != []
    ensures Clean(lines) == Cleaned(lines[0]) + Clean(lines[1..])
  {
    CleanCons(lines[0], lines[1..]);
    assert lines == [lines[0]] + lines[1..];
  }

  /** The same first line, and the same lines after it once blank ones are dropped. */
  ghost predicate SameLines(a: seq<string>, b: seq<string>) {
    a != [] && b != [] && a[0] == b[0] && Clean(a[1..]) == Clean(b[1..])
  }

  lemma SameLinesClean(a: seq<string>, b: seq<string>)
    requires SameLines(a, b)
    ensures Clean(a) == Clean(b)
  {
    CleanHead(a);
    CleanHead(b);
  }

  /** One more blank line in front. */
  lemma BlankFirst(a: seq<string>, b: seq<string>)
    requires SameLines(a, b)
    ensures SameLines([""] + a, [""] + b)
  {
    SameLinesClean(a, b);
    assert ([""] + a)[1..] == a && ([""] + b)[1..] == b;
  }

  lemma CharFirst(c: char, a: seq<string>, b: seq<string>)
    requires SameLines(a, b)
    ensures SameLines([[c] + a[0]] + a[1..], [[c] + b[0]] + b[1..])
  {
    assert ([[c] + a[0]] + a[1..])[1..] == a[1..] && ([[c] + b[0]] + b[1..])[1..] == b[1..];
  }

  /** A blank line more or less behind a blank first line makes no difference. */
  lemma BlankTwice(a: seq<string>, b: seq<string>)
    requires SameLines(a, b) && a[0] == ""
    ensures SameLines(a, [""] + b)
  {
    CleanHead(b);
    assert ([""] + b)[1..] == b && Cleaned("") == [];
  }

  lemma {:induction false} CollapseLines(s: string)
    ensures SameLines(SplitLines(Collapse(s)), SplitLines(s))
  {
    if s != "" {
      CollapseLines(s[1..]);
      var a, b := SplitLines(Collapse(s[1..])), SplitLines(s[1..]);
      if |s| > 1 && s[0] == NEWLINE && s[1] == NEWLINE {
        BlankTwice(a, b);
      } else {
        assert Collapse(s)[1..] == Collapse(s[1..]) && Collapse(s)[0] == s[0];
        if s[0] == NEWLINE { BlankFirst(a, b); } else { CharFirst(s[0], a, b); }
      }
    }
  }

  lemma {:induction false} ReplaceCrPieces(s: string)
    ensures SplitLines(ReplaceCr(s)) == Pieces(s)
  {
    if s != "" {
      ReplaceCrPieces(s[1..]);
      assert ReplaceCr(s)[1..] == ReplaceCr(s[1..]);
    }
  }

  lemma {:induction false} ReplaceCrLfPieces(s: string)
    ensures SameLines(Pieces(ReplaceCrLf(s)), Pieces(s))
    decreases |s|
  {
    if s == "" {
    } else if |s| > 1 && s[0] == RETURN && s[1] == NEWLINE {
      ReplaceCrLfPieces(s[2..]);
      var a, b := Pieces(ReplaceCrLf(s[2..])), Pieces(s[2..]);
      assert ReplaceCrLf(s)[1..] == ReplaceCrLf(s[2..]) && s[1..][1..] == s[2..];
      assert Pieces(ReplaceCrLf(s)) == [""] + a && Pieces(s[1..]) == [""] + b && Pieces(s) == [""] + ([""] + b);
      BlankFirst(a, b);
      BlankTwice([""] + a, [""] + b);
    } else {
      ReplaceCrLfPieces(s[1..]);
      var a, b := Pieces(ReplaceCrLf(s[1..])), Pieces(s[1..]);
      assert ReplaceCrLf(s)[1..] == ReplaceCrLf(s[1..]) && ReplaceCrLf(s)[0] == s[0];
      if s[0] == NEWLINE || s[0] == RETURN { BlankFirst(a, b); } else { CharFirst(s[0], a, b); }
    }
  }

  /** The lines are the pieces between line ends of any kind, stripped, without the blank ones. */
  lemma LinesArePieces(text: string)
    ensures Lines(text) == Clean(Pieces(text))
  {
    var a := ReplaceCrLf(text);
    CollapseLines(ReplaceCr(a));
    SameLinesClean(SplitLines(Collapse(ReplaceCr(a))), SplitLines(ReplaceCr(a)));
    ReplaceCrPieces(a);
    ReplaceCrLfPieces(text);
    SameLinesClean(Pieces(a), Pieces(text));
  }

  /** Each merged line is a group of lines up to and with the first that ends in a full stop,
      an exclamation mark or a question mark, or up to the last line. */
  ghost predicate GroupedBy(join: seq<string> -> string, merged: seq<string>, lines: seq<string>)
    decreases |merged|
  {
    if merged == [] then lines == []
    else exists k :: GroupEnds(lines, k) && merged[0] == join(lines[..k]) && GroupedBy(join, merged[1..], lines[k..])
  }

  ghost predicate Grouped(merged: seq<string>, lines: seq<string>) { GroupedBy(Spaced(), merged, lines) }

  ghost function Spaced(): seq<string> -> string { (parts: seq<string>) => Join(' ', parts) }

  ghost predicate Final(line: string) { line != "" && line[|line| - 1] in {'.', '!', '?'} }

  ghost predicate GroupEnds(lines: seq<string>, k: int) {
    && 0 < k <= |lines| && (forall m :: 0 <= m < k - 1 ==> !Final(lines[m])) && (k == |lines| || Final(lines[k - 1]))
  }

  lemma FirstGroup(join: seq<string> -> string, lines: seq<string>, k: int, rest: seq<string>)
    requires GroupEnds(lines, k) && GroupedBy(join, rest, lines[k..])
    ensures GroupedBy(join, [join(lines[..k])] + rest, lines)
  {
    var merged := [join(lines[..k])] + rest;
    assert merged[1..] == rest;
  }

  lemma FirstGroupOf(join: seq<string> -> string, merged: seq<string>, lines: seq<string>) returns (k: int)
    requires merged != [] && GroupedBy(join, merged, lines)
    ensures GroupEnds(lines, k) && merged[0] == join(lines[..k]) && GroupedBy(join, merged[1..], lines[k..])
  {
    k :| GroupEnds(lines, k) && merged[0] == join(lines[..k]) && GroupedBy(join, merged[1..], lines[k..]);
  }

  /** One line more for a merger that holds `buf`. */
  ghost predicate Merges(join: seq<string> -> string, merge: (seq<string>, seq<string>) -> seq<string>, buf: seq<string>, lines: seq<string>) {
    merge(buf, lines) ==
    if lines == [] then (if buf == [] then [] else [join(buf)])
    else if Final(lines[0]) then [join(buf + [lines[0]])] + merge([], lines[1..])
    else merge(buf + [lines[0]], lines[1..])
  }

  lemma {:induction false} MergerGroups(join: seq<string> -> string, merge: (seq<string>, seq<string>) -> seq<string>,
                                        buf: seq<string>, lines: seq<string>)
    requires (forall b, ls :: Merges(join, merge, b, ls)) && forall m :: 0 <= m < |buf| ==> !Final(buf[m])
    ensures GroupedBy(join, merge(buf, lines), buf + lines)
    decreases |lines|
  {
    var all := buf + lines;
    assert Merges(join, merge, buf, lines);
    if lines == [] {
      assert all == buf;
      if buf != [] {
        assert all[..|all|] == all && all[|all|..] == [];
        FirstGroup(join, all, |all|, []);
      }
    } else if Final(lines[0]) {
      MergerGroups(join, merge, [], lines[1..]);
      var k := |buf| + 1;
      assert all[..k] == buf + [lines[0]] && all[k..] == [] + lines[1..];
      FirstGroup(join, all, k, merge([], lines[1..]));
    } else {
      assert buf + [lines[0]] + lines[1..] == all;
      MergerGroups(join, merge, buf + [lines[0]], lines[1..]);
    }
  }

  lemma SameGroup(lines: seq<string>, j: int, k: int)
    requires GroupEnds(lines, j) && GroupEnds(lines, k)
    ensures j == k
  {
  }

  lemma SameList(a: seq<string>, b: seq<string>)
    requires a != [] && b != [] && a[0] == b[0] && a[1..] == b[1..]
    ensures a == b
  {
    assert a == [a[0]] + a[1..] && b == [b[0]] + b[1..];
  }

  lemma {:induction false} OneGrouping(join: seq<string> -> string, a: seq<string>, b: seq<string>, lines: seq<string>)
    requires GroupedBy(join, a, lines) && GroupedBy(join, b, lines)
    ensures a == b
    decreases |a|
  {
    if a != [] && b != [] {
      var j := FirstGroupOf(join, a, lines);
      var k := FirstGroupOf(join, b, lines);
      SameGroup(lines, j, k);
      OneGrouping(join, a[1..], b[1..], lines[j..]);
      SameList(a, b);
    }
  }

  /** There is only one way to group lines. */
  lemma GroupsAreUnique(a: seq<string>, b: seq<string>, lines: seq<string>)
    requires Grouped(a, lines) && Grouped(b, lines)
    ensures a == b
  {
    OneGrouping(Spaced(), a, b, lines);
  }

  lemma FinalEnds(line: string)
    ensures Final(line) <==> EndsSentence(line)
  {
  }

  lemma MergeMerges(buf: seq<string>, lines: seq<string>)
    ensures Merges(Spaced(), Merge, buf, lines)
  {
    if lines != [] { FinalEnds(lines[0]); }
  }

  lemma MergeIsGrouped(lines: seq<string>)
    ensures Grouped(Merge([], lines), lines)
  {
    forall b, ls ensures Merges(Spaced(), Merge, b, ls) { MergeMerges(b, ls); }
    MergerGroups(Spaced(), Merge, [], lines);
    assert [] + lines == lines;
  }

  /** The normal form, in full: lines of any kind, stripped, blank ones dropped, joined up to
      the end of a sentence, one group to a line. */
  lemma NormalFormExactly(text: string, merged: seq<string>)
    requires Grouped(merged, Clean(Pieces(text)))
    ensures Normalized(text) == Join('\n', merged)
  {
    LinesArePieces(text);
    MergeIsGrouped(Lines(text));
    GroupsAreUnique(merged, Merge([], Lines(text)), Lines(text));
  }
}
