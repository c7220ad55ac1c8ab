/** Packing units into chunks, and windowing the ones that are too long. */
module Chunker {
  import opened Basics
  import opened Text
  import opened Normalize
  import opened Sentences
  import opened Packing

  // ----- Fixed windows -----

  function StepOf(size: int, overlap: int): (step: nat)
    ensures step >= 1
  {
    Max(1, size - overlap)
  }

  /** Where the windows over `n` characters start, from `start` on. */
  ghost function Starts(n: nat, size: nat, step: nat, start: nat): seq<nat>
    requires step >= 1
    decreases n - start
  {
    if start >= n then []
    else if start + size >= n then [start]
    else [start] + Starts(n, size, step, start + step)
  }

  /** `text[start:start + size]`. */
  function Slice(text: string, size: nat, start: nat): (r: string)
    ensures |r| <= size
    ensures start <= |text| <= start + size ==> r == text[start..]
    ensures start + size <= |text| ==> r == text[start..start + size]
  {
    if start + size <= |text| then text[start..start + size]
    else if start <= |text| then text[start..]
    else ""
  }

  function Window(text: string, size: nat): nat -> string { (start: nat) => Slice(text, size, start) }

  /** The windows themselves, for any way of reading one. */
  function Windows(view: nat -> string, n: nat, size: nat, step: nat, start: nat): seq<string>
    requires step >= 1
    decreases n - start
  {
    if start >= n then []
    else if start + size >= n then [view(start)]
    else [view(start)] + Windows(view, n, size, step, start + step)
  }

  function LengthSplit(text: string, size: nat, overlap: nat): seq<string> {
    if |text| <= size then (if Strip(text) == "" then [] else [text])
    else Clean(Windows(Window(text, size), |text|, size, StepOf(size, overlap), 0))
  }

  /** `_split_length`. */
  method SplitLength(text: string, size: nat, overlap: nat) returns (out: seq<string>)
    ensures out == LengthSplit(text, size, overlap)
  {
    if |text| <= size {
      if Strip(text) == "" { return []; } else { return [text]; }
    }
    out := Slide(Strip, Window(text, size), |text|, size, StepOf(size, overlap));
    CleanIsCleanBy(Windows(Window(text, size), |text|, size, StepOf(size, overlap), 0));
  }

  /** The loop over window starts. */
  method Slide(strip: string -> string, view: nat -> string, n: nat, size: nat, step: nat) returns (out: seq<string>)
    requires step >= 1
    ensures out == CleanBy(strip, Windows(view, n, size, step, 0))
  {
    out := [];
    ghost var done: seq<string> := [];
    var start := 0;
    while start < n
      invariant out == CleanBy(strip, done)
      invariant done + Windows(view, n, size, step, start) == Windows(view, n, size, step, 0)
      decreases n - start
    {
      out := Collect(strip, out, view(start), done);
      if start + size >= n { return; }
      Associate(done, [view(start)], Windows(view, n, size, step, start + step));
      done := done + [view(start)];
      start := start + step;
    }
    assert done + [] == done;
  }

  ghost predicate InWindow(starts: seq<nat>, i: int, size: nat, k: int) {
    0 <= i < |starts| && starts[i] <= k < starts[i] + size
  }

  /** Windows from `start` that move on by `step`, leave no index out and stop with the
      first that reaches the end. */
  ghost predicate Covering(s: seq<nat>, n: nat, size: nat, step: nat, start: nat) {
    && s != [] && s[0] == start && s[|s| - 1] < n <= s[|s| - 1] + size
    && (forall i, j :: 0 <= i && i + 1 == j < |s| ==> s[j] == s[i] + step && s[i] + size < n)
  }

  lemma OneMoreStart(rest: seq<nat>, n: nat, size: nat, step: nat, start: nat)
    requires Covering(rest, n, size, step, start + step) && start + size < n
    ensures Covering([start] + rest, n, size, step, start)
  {
    var s := [start] + rest;
    assert s[|s| - 1] == rest[|rest| - 1];
    forall i, j | 0 <= i && i + 1 == j < |s| ensures s[j] == s[i] + step && s[i] + size < n {
      if i > 0 { assert s[i] == rest[i - 1] && s[j] == rest[i]; }
    }
  }

  lemma {:induction false} StartsCover(n: nat, size: nat, step: nat, start: nat)
    requires 1 <= step <= size && start < n
    ensures Covering(Starts(n, size, step, start), n, size, step, start)
    decreases n - start
  {
    if start + size < n {
      StartsCover(n, size, step, start + step);
      OneMoreStart(Starts(n, size, step, start + step), n, size, step, start);
    }
  }

  lemma {:induction false} EveryIndexInAWindow(n: nat, size: nat, step: nat, start: nat, k: int)
    requires 1 <= step <= size && start <= k < n
    ensures exists i :: InWindow(Starts(n, size, step, start), i, size, k)
    decreases n - start
  {
    var s := Starts(n, size, step, start);
    if k < start + size {
      assert InWindow(s, 0, size, k);
    } else {
      EveryIndexInAWindow(n, size, step, start + step, k);
      var i :| InWindow(Starts(n, size, step, start + step), i, size, k);
      assert InWindow(s, i + 1, size, k);
    }
  }

  lemma {:induction false} WindowsAtStarts(view: nat -> string, n: nat, size: nat, step: nat, start: nat)
    requires step >= 1
    ensures var w, s := Windows(view, n, size, step, start), Starts(n, size, step, start);
            |w| == |s| && forall i :: 0 <= i < |w| ==> w[i] == view(s[i])
    decreases n - start
  {
    if start + size < n { WindowsAtStarts(view, n, size, step, start + step); }
  }

  /** The pieces of a long text, in full: windows of `size` characters, each `size - overlap`
      further on and at least one, up to the first that reaches the end, stripped and without
      the blank ones. */
  lemma LengthSplitExactly(text: string, size: nat, overlap: nat) returns (starts: seq<nat>, windows: seq<string>)
    requires 1 <= size < |text|
    ensures Covering(starts, |text|, size, if overlap < size then size - overlap else 1, 0) && |windows| == |starts|
    ensures forall i :: 0 <= i < |starts| ==>
              starts[i] < |text| && windows[i] == text[starts[i]..if starts[i] + size < |text| then starts[i] + size else |text|]
    ensures LengthSplit(text, size, overlap) == Clean(windows)
  {
    var step := StepOf(size, overlap);
    starts := Starts(|text|, size, step, 0);
    windows := Windows(Window(text, size), |text|, size, step, 0);
    StartsCover(|text|, size, step, 0);
    WindowsAtStarts(Window(text, size), |text|, size, step, 0);
    forall i | 0 <= i < |starts| ensures starts[i] < |text| { StartsInside(starts, |text|, size, step, i); }
  }

  /** A short text is one piece as it stands, unless there is nothing in it. */
  lemma ShortTextIsWhole(text: string, size: nat, overlap: nat)
    requires |text| <= size
    ensures LengthSplit(text, size, overlap) == if Ink(text) == "" then [] else [text]
  {
    InkStrip(text);
    var s := Strip(text);
    if s != "" { InkConcat(s[..|s| - 1], [s[|s| - 1]]); }
  }

  lemma StartsInside(s: seq<nat>, n: nat, size: nat, step: nat, i: nat)
    requires Covering(s, n, size, step, 0) && i < |s|
    ensures s[i] < n
  {
    if i + 1 < |s| {
      var j := i + 1;
      assert s[j] == s[i] + step && s[i] + size < n;
    }
  }

  ghost predicate Within(chunks: seq<string>, bound: nat) { forall c :: c in chunks ==> |c| <= bound }

  lemma CleanWithin(parts: seq<string>, bound: nat)
    requires Within(parts, bound)
    ensures Within(Clean(parts), bound)
  {
    forall c | c in Clean(parts) ensures |c| <= bound {
      var raw := CleanFrom(parts, c);
    }
  }

  lemma {:induction false} WindowsWithin(view: nat -> string, n: nat, size: nat, step: nat, start: nat)
    requires step >= 1 && forall k: nat :: |view(k)| <= size
    ensures Within(Windows(view, n, size, step, start), size)
    decreases n - start
  {
    if start + size < n { WindowsWithin(view, n, size, step, start + step); }
  }

  /** No piece is longer than the window. */
  lemma LengthSplitWithin(text: string, size: nat, overlap: nat)
    ensures Within(LengthSplit(text, size, overlap), size)
  {
    if |text| > size {
      var view, step := Window(text, size), StepOf(size, overlap);
      forall k: nat ensures |view(k)| <= size { assert view(k) == Slice(text, size, k); }
      WindowsWithin(view, |text|, size, step, 0);
      CleanWithin(Windows(view, |text|, size, step, 0), size);
    }
  }

  /** `from(start)` is what the windows from `start` on amount to. */
  ghost predicate Follows(view: nat -> string, all: seq<string> -> string, from: nat -> string,
                          n: nat, size: nat, start: nat, rest: seq<string>) {
    && (start < n <= start + size ==> all([view(start)]) == from(start))
    && (start + size < n && all(rest) == from(start + size) ==> all([view(start)] + rest) == from(start))
  }

  lemma {:induction false} WindowsAddUp(view: nat -> string, all: seq<string> -> string, from: nat -> string, n: nat, size: nat, start: nat)
    requires 1 <= size && start < n
    requires forall k: nat, rest :: Follows(view, all, from, n, size, k, rest)
    ensures all(Windows(view, n, size, size, start)) == from(start)
    decreases n - start
  {
    var rest := Windows(view, n, size, size, start + size);
    if start + size < n { WindowsAddUp(view, all, from, n, size, start + size); }
    assert Follows(view, all, from, n, size, start, rest);
  }

  ghost function InkFrom(text: string): nat -> string { (start: nat) => if start <= |text| then Ink(text[start..]) else "" }

  lemma InkOfSlice(text: string, size: nat, start: nat, rest: seq<string>)
    requires start + size < |text| && AllInk(rest) == Ink(text[start + size..])
    ensures AllInk([Slice(text, size, start)] + rest) == Ink(text[start..])
  {
    assert text[start..] == Slice(text, size, start) + text[start + size..];
    InkTogether(Slice(text, size, start), text[start + size..], text[start..], rest);
  }

  lemma InkFollows(text: string, size: nat, start: nat, rest: seq<string>)
    ensures Follows(Window(text, size), AllInk, InkFrom(text), |text|, size, start, rest)
  {
    var w := Slice(text, size, start);
    assert Window(text, size)(start) == w;
    AllInkOne(w);
    if start + size < |text| {
      if AllInk(rest) == Ink(text[start + size..]) { InkOfSlice(text, size, start, rest); }
    } else if start < |text| {
      assert w == text[start..];
    }
  }

  /** Without overlap the pieces hold the text's characters once each, in order. */
  lemma LengthSplitInk(text: string, size: nat)
    requires size >= 1
    ensures AllInk(LengthSplit(text, size, 0)) == Ink(text)
  {
    if |text| <= size {
      InkStrip(text);
      AllInkOne(text);
    } else {
      forall k: nat, rest ensures Follows(Window(text, size), AllInk, InkFrom(text), |text|, size, k, rest) {
        InkFollows(text, size, k, rest);
      }
      WindowsAddUp(Window(text, size), AllInk, InkFrom(text), |text|, size, 0);
      CleanInk(Windows(Window(text, size), |text|, size, size, 0));
      assert text[0..] == text;
    }
  }

  // ----- Packing -----

  function Lens(units: seq<string>): (r: seq<nat>)
    ensures |r| == |units| && forall i :: 0 <= i < |r| ==> r[i] == |units[i]|
  {
    seq(|units|, i requires 0 <= i < |units| => |units[i]|)
  }

  function WindowsOf(size: nat, overlap: nat): string -> seq<string> {
    (unit: string) => LengthSplit(unit, size, overlap)
  }

  function JoinUnits(): seq<string> -> string { (parts: seq<string>) => Join(SPACE, parts) }

  /** What one piece of the plan turns into. */
  ghost function Chunks(units: seq<string>, join: seq<string> -> string, window: string -> seq<string>): Piece -> seq<string> {
    (p: Piece) =>
      match p
      case Joined(lo, hi) => if lo <= hi <= |units| then [join(units[lo..hi])] else []
      case Long(k) => if k < |units| then window(units[k]) else []
  }

  ghost function Rendered(chunks: Piece -> seq<string>, plan: seq<Piece>): seq<string> {
    if plan == [] then [] else chunks(plan[0]) + Rendered(chunks, plan[1..])
  }

  lemma {:induction false} RenderedSnoc(chunks: Piece -> seq<string>, plan: seq<Piece>, p: Piece)
    ensures Rendered(chunks, plan + [p]) == Rendered(chunks, plan) + chunks(p)
  {
    if plan == [] {
      assert Rendered(chunks, ([p])[1..]) == [];
    } else {
      assert (plan + [p])[1..] == plan[1..] + [p];
      RenderedSnoc(chunks, plan[1..], p);
      Associate(chunks(plan[0]), Rendered(chunks, plan[1..]), chunks(p));
    }
  }

  /** The chunks of the greedy plan for the units' lengths. */
  ghost function PackedWith(units: seq<string>, size: nat, overlap: nat, join: seq<string> -> string,
                            window: string -> seq<string>): seq<string>
  {
    Rendered(Chunks(units, join, window), Plan(Lens(units), size, overlap, 0, 0))
  }

  ghost function Packed(units: seq<string>, size: nat, overlap: nat): seq<string> {
    PackedWith(units, size, overlap, JoinUnits(), WindowsOf(size, overlap))
  }

  /** The chunks of a plan: the units of a joined piece with one space between them, and a
      long unit's windows. */
  ghost function Emitted(units: seq<string>, plan: seq<Piece>, size: nat, overlap: nat): seq<string> {
    if plan == [] then []
    else
      var chunk := match plan[0]
        case Joined(lo, hi) => if lo <= hi <= |units| then [Join(' ', units[lo..hi])] else []
        case Long(k) => if k < |units| then LengthSplit(units[k], size, overlap) else [];
      chunk + Emitted(units, plan[1..], size, overlap)
  }

  lemma {:induction false} RenderedIsEmitted(units: seq<string>, plan: seq<Piece>, size: nat, overlap: nat)
    ensures Rendered(Chunks(units, JoinUnits(), WindowsOf(size, overlap)), plan) == Emitted(units, plan, size, overlap)
  {
    if plan != [] { RenderedIsEmitted(units, plan[1..], size, overlap); }
  }

  /** What `_pack` answers, for the one greedy plan there is. */
  lemma PackedExactly(units: seq<string>, size: nat, overlap: nat, plan: seq<Piece>)
    requires Greedy(Lens(units), size, overlap, plan, 0, 0)
    ensures Packed(units, size, overlap) == Emitted(units, plan, size, overlap)
  {
    PlanExactly(Lens(units), size, overlap, plan);
    RenderedIsEmitted(units, plan, size, overlap);
  }

  /** The inner loop: the carried units, most recent first. */
  method Carry(buf: seq<string>, overlap: nat, ghost units: seq<string>, ghost lo: nat, ghost hi: nat)
    returns (carry: seq<string>, carryLen: nat, ghost start: nat)
    requires lo <= hi <= |units| && buf == units[lo..hi]
    ensures start == CarryStart(Lens(units), lo, hi, 0, overlap)
    ensures carry == units[start..hi] && carryLen == Room(Lens(units), start, hi)
    ensures |carry| <= |buf| && carry == buf[|buf| - |carry|..] && carryLen <= overlap
  {
    carry, carryLen := [], 0;
    var j := |buf|;
    start := hi;
    while j > 0
      invariant 0 <= j <= |buf| && start == lo + j && start <= hi
      invariant carry == units[start..hi] && carryLen == Room(Lens(units), start, hi) <= overlap
      invariant CarryStart(Lens(units), lo, start, carryLen, overlap) == CarryStart(Lens(units), lo, hi, 0, overlap)
    {
      var prev := buf[j - 1];
      if carryLen + |prev| + 1 > overlap { return; }
      RoomAdds(Lens(units), start - 1, start, hi);
      assert buf[j - 1] == units[start - 1];
      carry := [prev] + carry;
      carryLen := carryLen + |prev| + 1;
      j := j - 1;
      start := start - 1;
    }
  }

  /** `_pack`. */
  method Pack(units: seq<string>, size: nat, overlap: nat) returns (out: seq<string>)
    ensures out == Packed(units, size, overlap)
  {
    out := PackWith(units, size, overlap, JoinUnits(), WindowsOf(size, overlap));
  }

  /** The greedy loop. */
  method PackWith(units: seq<string>, size: nat, overlap: nat, join: seq<string> -> string, window: string -> seq<string>)
    returns (out: seq<string>)
    ensures out == PackedWith(units, size, overlap, join, window)
  {
    out := [];
    var buf: seq<string> := [];
    var bufLen: nat := 0;
    ghost var lo: nat, emitted := 0, [];
    ghost var chunks, plan := Chunks(units, join, window), Plan(Lens(units), size, overlap, 0, 0);
    for i := 0 to |units|
      invariant lo <= i && buf == units[lo..i] && bufLen == Room(Lens(units), lo, i)
      invariant out == Rendered(chunks, emitted) && emitted + Plan(Lens(units), size, overlap, lo, i) == plan
    {
      out, buf, bufLen, lo, emitted := TakeUnit(units, size, overlap, join, window, i, out, buf, bufLen, lo, emitted);
    }
    if buf != [] {
      RenderedSnoc(chunks, emitted, Joined(lo, |units|));
      out := out + [join(buf)];
    } else {
      assert emitted + [] == emitted;
    }
  }

  /** One pass of the greedy loop. */
  method TakeUnit(units: seq<string>, size: nat, overlap: nat, join: seq<string> -> string, window: string -> seq<string>,
                  i: nat, before: seq<string>, held: seq<string>, heldLen: nat, ghost lo: nat, ghost done: seq<Piece>)
    returns (out: seq<string>, buf: seq<string>, bufLen: nat, ghost start: nat, ghost emitted: seq<Piece>)
    requires lo <= i < |units| && held == units[lo..i] && heldLen == Room(Lens(units), lo, i)
    requires before == Rendered(Chunks(units, join, window), done)
    ensures start <= i + 1 && buf == units[start..i + 1] && bufLen == Room(Lens(units), start, i + 1)
    ensures out == Rendered(Chunks(units, join, window), emitted)
    ensures emitted + Plan(Lens(units), size, overlap, start, i + 1) == done + Plan(Lens(units), size, overlap, lo, i)
  {
    var unit := units[i];
    out, buf, bufLen, start, emitted := before, held, heldLen, lo, done;
    PlanStep(Lens(units), size, overlap, lo, i, done);
    ghost var chunks := Chunks(units, join, window);
    if |unit| >= size {
      if buf != [] {
        out := out + [join(buf)];
        buf, bufLen := [], 0;
        RenderedSnoc(chunks, emitted, Joined(lo, i));
        emitted := emitted + [Joined(lo, i)];
      }
      out := out + window(unit);
      RenderedSnoc(chunks, emitted, Long(i));
      start, emitted := i + 1, emitted + [Long(i)];
    } else {
      if buf != [] && bufLen + |unit| + 1 > size {
        out := out + [join(buf)];
        RenderedSnoc(chunks, emitted, Joined(lo, i));
        emitted := emitted + [Joined(lo, i)];
        buf, bufLen, start := Carry(buf, overlap, units, lo, i);
      }
      SliceSnoc(units, start, i);
      buf := buf + [unit];
      bufLen := bufLen + |unit| + 1;
    }
  }

  lemma SliceSnoc(units: seq<string>, lo: nat, i: nat)
    requires lo <= i < |units|
    ensures units[lo..i + 1] == units[lo..i] + [units[i]]
  {
  }

  // ----- How long a chunk can be -----

  lemma {:induction false} JoinLength(parts: seq<string>, units: seq<string>, lo: nat, hi: nat)
    requires lo < hi <= |units| && parts == units[lo..hi]
    ensures |Join(SPACE, parts)| + 1 == Room(Lens(units), lo, hi)
    decreases hi
  {
    var n := |parts| - 1;
    if n > 0 {
      assert parts[..n] == units[lo..hi - 1];
      JoinLength(parts[..n], units, lo, hi - 1);
    } else {
      assert Room(Lens(units), lo, lo) == 0;
    }
  }

  lemma {:induction false} RenderedWithin(chunks: Piece -> seq<string>, plan: seq<Piece>, bound: nat)
    requires forall k :: 0 <= k < |plan| ==> Within(chunks(plan[k]), bound)
    ensures Within(Rendered(chunks, plan), bound)
  {
    if plan != [] {
      forall k | 0 <= k < |plan[1..]| ensures Within(chunks(plan[1..][k]), bound) { assert plan[1..][k] == plan[k + 1]; }
      RenderedWithin(chunks, plan[1..], bound);
    }
  }

  ghost predicate NonEmptyUnits(units: seq<string>) { forall i :: 0 <= i < |units| ==> units[i] != "" }

  /** The bound the loop really gives: `size` when the overlap is at most 1, and
      `size + overlap - 1` otherwise. */
  lemma ChunksWithin(units: seq<string>, size: nat, overlap: nat)
    requires size >= 1 && NonEmptyUnits(units)
    ensures Within(Packed(units, size, overlap), if overlap <= 1 then size else size + overlap - 1)
  {
    var bound := if overlap <= 1 then size else size + overlap - 1;
    var lens := Lens(units);
    var plan := Plan(lens, size, overlap, 0, 0);
    var chunks := Chunks(units, JoinUnits(), WindowsOf(size, overlap));
    PlanFits(lens, size, overlap, 0, 0);
    forall k | 0 <= k < |plan| ensures Within(chunks(plan[k]), bound) {
      match plan[k]
      case Joined(lo, hi) =>
        JoinLength(units[lo..hi], units, lo, hi);
        assert chunks(plan[k]) == [Join(SPACE, units[lo..hi])];
      case Long(m) =>
        if m < |units| {
          LengthSplitWithin(units[m], size, overlap);
          assert chunks(plan[k]) == LengthSplit(units[m], size, overlap);
        }
    }
    RenderedWithin(chunks, plan, bound);
  }

  function Filler(n: nat): (s: string)
    ensures |s| == n && forall i :: 0 <= i < n ==> s[i] == 'x'
  {
    seq(n, _ => 'x')
  }

  lemma OverflowingUnits(size: nat, overlap: nat) returns (units: seq<string>, chunk: string)
    requires 2 <= overlap && 2 * overlap <= size
    ensures units == [Filler(overlap - 1), Filler(size - 1)]
    ensures NonEmptyUnits(units) && chunk in Packed(units, size, overlap) && |chunk| == size + overlap - 1
  {
    units := [Filler(overlap - 1), Filler(size - 1)];
    var lens: seq<nat> := [overlap - 1, size - 1];
    assert Lens(units) == lens;
    OverflowPlan(size, overlap);
    var chunks := Chunks(units, JoinUnits(), WindowsOf(size, overlap));
    chunk := Join(SPACE, units[0..2]);
    JoinLength(units[0..2], units, 0, 2);
    RenderedSnoc(chunks, [Joined(0, 1)], Joined(0, 2));
    assert chunks(Joined(0, 2)) == [chunk];
    assert Packed(units, size, overlap) == Rendered(chunks, [Joined(0, 1)] + [Joined(0, 2)]);
  }

  /** "At most `size`" holds for every list of units exactly when the overlap is at most 1. */
  lemma DocumentedBoundExactly(size: nat, overlap: nat)
    requires size >= 1 && 2 * overlap <= size
    ensures (forall units :: NonEmptyUnits(units) ==> Within(Packed(units, size, overlap), size)) <==> overlap <= 1
  {
    if overlap <= 1 {
      forall units | NonEmptyUnits(units) ensures Within(Packed(units, size, overlap), size) {
        ChunksWithin(units, size, overlap);
      }
    } else {
      var units, chunk := OverflowingUnits(size, overlap);
      assert |chunk| > size;
    }
  }

  // ----- Nothing is lost -----

  lemma {:induction false} PartitionInk(units: seq<string>, chunks: Piece -> seq<string>, plan: seq<Piece>, from: nat)
    requires Partitions(plan, from, |units|) && from <= |units|
    requires forall p: Piece :: First(p) < End(p) <= |units| ==> AllInk(chunks(p)) == AllInk(units[First(p)..End(p)])
    ensures AllInk(Rendered(chunks, plan)) == AllInk(units[from..])
    decreases |plan|
  {
    if plan == [] {
      assert units[from..] == [];
    } else {
      var p := plan[0];
      PartitionInk(units, chunks, plan[1..], End(p));
      AllInkConcat(chunks(p), Rendered(chunks, plan[1..]));
      AllInkSplit(units, from, End(p));
    }
  }

  lemma AllInkJoin(a: seq<string>, b: seq<string>, whole: seq<string>)
    requires whole == a + b
    ensures AllInk(whole) == AllInk(a) + AllInk(b)
  {
    AllInkConcat(a, b);
  }

  lemma AllInkSplit(units: seq<string>, from: nat, mid: nat)
    requires from <= mid <= |units|
    ensures AllInk(units[from..]) == AllInk(units[from..mid]) + AllInk(units[mid..])
  {
    AllInkJoin(units[from..mid], units[mid..], units[from..]);
  }

  /** Joining and windowing keep the characters of what they are given. */
  ghost predicate KeepInk(join: seq<string> -> string, window: string -> seq<string>) {
    && (forall parts {:trigger join(parts)} :: AllInk([join(parts)]) == AllInk(parts))
    && (forall unit {:trigger window(unit)} :: AllInk(window(unit)) == AllInk([unit]))
  }

  lemma UnitsKeepInk(size: nat)
    requires size >= 1
    ensures KeepInk(JoinUnits(), WindowsOf(size, 0))
  {
    forall parts ensures AllInk([JoinUnits()(parts)]) == AllInk(parts) {
      JoinInk(SPACE, parts);
      AllInkOne(Join(SPACE, parts));
    }
    forall unit ensures AllInk(WindowsOf(size, 0)(unit)) == AllInk([unit]) {
      LengthSplitInk(unit, size);
      AllInkOne(unit);
    }
  }

  /** Whatever joining and windowing keep, each chunk keeps. */
  lemma ChunkKeeps(all: seq<string> -> string, units: seq<string>, join: seq<string> -> string, window: string -> seq<string>, p: Piece)
    requires (forall parts {:trigger join(parts)} :: all([join(parts)]) == all(parts))
    requires (forall unit {:trigger window(unit)} :: all(window(unit)) == all([unit]))
    requires First(p) < End(p) <= |units|
    ensures all(Chunks(units, join, window)(p)) == all(units[First(p)..End(p)])
  {
    match p
    case Joined(lo, hi) => assert Chunks(units, join, window)(p) == [join(units[lo..hi])];
    case Long(k) =>
      assert Chunks(units, join, window)(p) == window(units[k]);
      assert units[k..k + 1] == [units[k]];
  }

  lemma ChunkInk(units: seq<string>, join: seq<string> -> string, window: string -> seq<string>, p: Piece)
    requires KeepInk(join, window) && First(p) < End(p) <= |units|
    ensures AllInk(Chunks(units, join, window)(p)) == AllInk(units[First(p)..End(p)])
  {
    ChunkKeeps(AllInk, units, join, window, p);
  }

  lemma PackWithKeepsInk(units: seq<string>, size: nat, join: seq<string> -> string, window: string -> seq<string>)
    requires KeepInk(join, window)
    ensures AllInk(PackedWith(units, size, 0, join, window)) == AllInk(units)
  {
    var chunks := Chunks(units, join, window);
    var plan := Plan(Lens(units), size, 0, 0, 0);
    PlanPartitions(Lens(units), size, 0, 0);
    forall p: Piece | First(p) < End(p) <= |units|
      ensures AllInk(chunks(p)) == AllInk(units[First(p)..End(p)])
    {
      ChunkInk(units, join, window, p);
    }
    PartitionInk(units, chunks, plan, 0);
    assert units[0..] == units;
  }

  /** Without overlap the chunks hold every character of the units once, in order. */
  lemma PackKeepsInk(units: seq<string>, size: nat)
    requires size >= 1
    ensures AllInk(Packed(units, size, 0)) == AllInk(units)
  {
    UnitsKeepInk(size);
    PackWithKeepsInk(units, size, JoinUnits(), WindowsOf(size, 0));
  }

  // ----- The entry point -----

  datatype Strategy = BySentences | ByParagraphs | ByLength

  /** Reading one more character in front of the first line. */
  ghost predicate LineStep(one: string -> string, all: seq<string> -> string, c: char, first: string, more: seq<string>, t: string) {
    && all([""]) == one("")
    && (all([first] + more) == one(t) ==>
          && all([[c] + first] + more) == one([c] + t)
          && (c == NEWLINE ==> all([""] + ([first] + more)) == one([c] + t)))
  }

  lemma {:induction false} SplitLinesAddUp(one: string -> string, all: seq<string> -> string, s: string)
    requires forall c, first, more, t :: LineStep(one, all, c, first, more, t)
    ensures all(SplitLines(s)) == one(s)
  {
    if s == "" {
      assert LineStep(one, all, 'x', "", [], "");
    } else {
      var rest := SplitLines(s[1..]);
      SplitLinesAddUp(one, all, s[1..]);
      assert rest == [rest[0]] + rest[1..] && s == [s[0]] + s[1..];
      assert LineStep(one, all, s[0], rest[0], rest[1..], s[1..]);
    }
  }

  lemma AllInkCons(a: string, rest: seq<string>)
    ensures AllInk([a] + rest) == Ink(a) + AllInk(rest)
  {
    AllInkOne(a);
    AllInkConcat([a], rest);
  }

  lemma InkLineStep(c: char, first: string, more: seq<string>, t: string)
    ensures LineStep(Ink, AllInk, c, first, more, t)
  {
    var x := if IsSpace(c) then "" else [c];
    AllInkOne("");
    if AllInk([first] + more) == Ink(t) {
      AllInkCons(first, more);
      AllInkCons([c] + first, more);
      AllInkCons("", [first] + more);
      InkCons(c, first);
      InkCons(c, t);
      Associate(x, Ink(first), AllInk(more));
    }
  }

  lemma SplitLinesInk(s: string)
    ensures AllInk(SplitLines(s)) == Ink(s)
  {
    forall c, first, more, t ensures LineStep(Ink, AllInk, c, first, more, t) { InkLineStep(c, first, more, t); }
    SplitLinesAddUp(Ink, AllInk, s);
  }

  ghost function Units(body: string, strategy: Strategy): seq<string> {
    if strategy == ByParagraphs then Clean(SplitLines(body)) else SentencesOf(body)
  }

  /** The lines of a text are the pieces without line breaks that make it up again. */
  lemma {:induction false} SplitLinesExactly(s: string, lines: seq<string>)
    requires lines != [] && (forall i :: 0 <= i < |lines| ==> NEWLINE !in lines[i]) && Join('\n', lines) == s
    ensures SplitLines(s) == lines
    decreases |lines|
  {
    if |lines| == 1 {
      SplitOneLine(s);
    } else {
      var n := |lines| - 1;
      SplitLinesExactly(Join('\n', lines[..n]), lines[..n]);
      SplitAppend(Join('\n', lines[..n]), lines[n]);
    }
  }

  /** Paragraphs are lines; every other strategy with units takes sentences. */
  lemma UnitsAre(body: string, lines: seq<string>)
    requires lines != [] && (forall i :: 0 <= i < |lines| ==> NEWLINE !in lines[i]) && Join('\n', lines) == body
    ensures Units(body, ByParagraphs) == Clean(lines)
    ensures Units(body, BySentences) == Clean(Segments(FirstCut, body))
  {
    SplitLinesExactly(body, lines);
  }

  lemma UnitsKept(body: string, strategy: Strategy)
    ensures AllInk(Units(body, strategy)) == Ink(body)
    ensures NonEmptyUnits(Units(body, strategy))
  {
    if strategy == ByParagraphs {
      SplitLinesInk(body);
      CleanInk(SplitLines(body));
      CleanIsNonEmpty(SplitLines(body));
    } else {
      SentencesKeepInk(body);
      CleanIsNonEmpty(Segments(FirstCut, body));
    }
  }

  lemma CleanIsNonEmpty(lines: seq<string>)
    ensures NonEmptyUnits(Clean(lines))
  {
    forall i | 0 <= i < |Clean(lines)| ensures Clean(lines)[i] != "" { assert Trimmed(Clean(lines)[i]); }
  }

  /** The overlap `split` really uses. */
  function Clamped(size: int, overlap: int): (o: nat)
    ensures 2 * o <= Max(1, size)
    ensures 0 <= 2 * overlap <= size ==> o == overlap
    ensures 2 * overlap > size >= 1 ==> 2 * o + 1 >= size
    ensures overlap <= 0 ==> o == 0
  {
    Max(0, Min(overlap, Max(1, size) / 2))
  }

  lemma PackedFacts(units: seq<string>, size: nat, overlap: nat)
    requires size >= 1 && NonEmptyUnits(units)
    ensures Within(Packed(units, size, overlap), if overlap <= 1 then size else size + overlap - 1)
    ensures overlap == 0 ==> AllInk(Packed(units, size, overlap)) == AllInk(units)
  {
    ChunksWithin(units, size, overlap);
    if overlap == 0 { PackKeepsInk(units, size); }
  }

  lemma LengthFacts(text: string, size: nat, overlap: nat)
    requires size >= 1
    ensures Within(LengthSplit(text, size, overlap), size)
    ensures overlap == 0 ==> AllInk(LengthSplit(text, size, overlap)) == Ink(text)
  {
    LengthSplitWithin(text, size, overlap);
    if overlap == 0 { LengthSplitInk(text, size); }
  }

  /** What `split` answers. */
  ghost function Chunked(text: string, size: int, overlap: int, strategy: Strategy): seq<string> {
    if Strip(text) == "" then []
    else if strategy == ByLength then LengthSplit(Strip(text), Max(1, size), Clamped(size, overlap))
    else Packed(Units(Strip(text), strategy), Max(1, size), Clamped(size, overlap))
  }

  /** How long a chunk of `split` can be. */
  function Longest(size: int, overlap: int, strategy: Strategy): nat {
    if strategy == ByLength || Clamped(size, overlap) <= 1 then Max(1, size) else Max(1, size) + Clamped(size, overlap) - 1
  }

  lemma BodyFacts(body: string, s: nat, o: nat, strategy: Strategy)
    requires s >= 1 && strategy != ByLength
    ensures Within(Packed(Units(body, strategy), s, o), if o <= 1 then s else s + o - 1)
    ensures o == 0 ==> AllInk(Packed(Units(body, strategy), s, o)) == Ink(body)
  {
    UnitsKept(body, strategy);
    PackedFacts(Units(body, strategy), s, o);
  }

  lemma ChunkedFacts(text: string, size: int, overlap: int, strategy: Strategy)
    ensures Within(Chunked(text, size, overlap, strategy), Longest(size, overlap, strategy))
    ensures strategy == ByLength || Clamped(size, overlap) <= 1 ==> Within(Chunked(text, size, overlap, strategy), Max(1, size))
    ensures Clamped(size, overlap) >= 2 ==>
              Within(Chunked(text, size, overlap, strategy), Max(1, size) + Clamped(size, overlap) - 1)
    ensures Clamped(size, overlap) == 0 ==> AllInk(Chunked(text, size, overlap, strategy)) == Ink(text)
  {
    var body, s: nat, o := Strip(text), Max(1, size), Clamped(size, overlap);
    InkStrip(text);
    if body == "" {
      assert Ink(body) == "" && AllInk([]) == "";
    } else if strategy == ByLength {
      LengthFacts(body, s, o);
    } else {
      BodyFacts(body, s, o, strategy);
    }
  }

  /** `split`: for every text, size, overlap and strategy, the chunks are as long as the
      bound says, and without overlap they hold the text's characters once each, in order. */
  method Split(text: string, size: int, overlap: int, strategy: Strategy) returns (out: seq<string>)
    ensures Within(out, Longest(size, overlap, strategy))
    ensures Clamped(size, overlap) == 0 ==> AllInk(out) == Ink(text)
    ensures out == Chunked(text, size, overlap, strategy)
  {
    var body := Strip(text);
    ChunkedFacts(text, size, overlap, strategy);
    if body == "" { return []; }
    var s: nat := Max(1, size);
    var o := Clamped(size, overlap);
    if strategy == ByLength {
      out := SplitLength(body, s, o);
    } else {
      var units: seq<string>;
      if strategy == ByParagraphs { units := Clean(SplitLines(body)); } else { units := SplitSentences(body); }
      out := Pack(units, s, o);
    }
  }
}
