/** The byte scanner that bounds JSON nesting before the body is parsed. */
module JsonDepth {
  import opened Basics

  type byte = b: int | 0 <= b < 256

  const OPEN_BRACKET: byte := 0x5B
  const OPEN_BRACE: byte := 0x7B
  const CLOSE_BRACKET: byte := 0x5D
  const CLOSE_BRACE: byte := 0x7D
  const QUOTE: byte := 0x22
  const BACKSLASH: byte := 0x5C
  const COMMA: byte := 0x2C
  const COLON: byte := 0x3A

  const MAX_BODY_BYTES := 1_000_000
  const MAX_JSON_DEPTH := 100

  predicate Opens(b: byte) { b == OPEN_BRACKET || b == OPEN_BRACE }
  predicate Closes(b: byte) { b == CLOSE_BRACKET || b == CLOSE_BRACE }

  // ----- The scanner -----

  datatype Scan = Scan(depth: int, maxDepth: int, inString: bool, escaped: bool)

  const Start := Scan(0, 0, false, false)

  function Step(s: Scan, b: byte): Scan {
    if s.inString then
      if s.escaped then s.(escaped := false)
      else if b == BACKSLASH then s.(escaped := true)
      else if b == QUOTE then s.(inString := false)
      else s
    else if b == QUOTE then s.(inString := true)
    else if Opens(b) then s.(depth := s.depth + 1, maxDepth := Max(s.maxDepth, s.depth + 1))
    else if Closes(b) then s.(depth := s.depth - 1)
    else s
  }

  function ScanAll(s: Scan, data: seq<byte>): Scan {
    if data == [] then s else Step(ScanAll(s, data[..|data| - 1]), data[|data| - 1])
  }

  method MaxJsonDepth(data: seq<byte>) returns (maxDepth: int)
    ensures maxDepth == ScanAll(Start, data).maxDepth
  {
    var depth := 0;
    maxDepth := 0;
    var inString, escaped := false, false;
    for i := 0 to |data|
      invariant Scan(depth, maxDepth, inString, escaped) == ScanAll(Start, data[..i])
    {
      var b := data[i];
      assert data[..i + 1][..i] == data[..i];
      if inString {
        if escaped {
          escaped := false;
        } else if b == BACKSLASH {
          escaped := true;
        } else if b == QUOTE {
          inString := false;
        }
      } else if b == QUOTE {
        inString := true;
      } else if Opens(b) {
        depth := depth + 1;
        maxDepth := Max(maxDepth, depth);
      } else if Closes(b) {
        depth := depth - 1;
      }
    }
    assert data[..|data|] == data;
  }

  lemma {:induction false} ScanAppend(s: Scan, a: seq<byte>, b: seq<byte>)
    ensures ScanAll(s, a + b) == ScanAll(ScanAll(s, a), b)
  {
    if b == [] {
      assert a + b == a;
    } else {
      var n := |b| - 1;
      assert (a + b)[..|a| + n] == a + b[..n];
      ScanAppend(s, a, b[..n]);
    }
  }

  // ----- JSON texts (RFC 8259, sections 2, 4, 5 and 7) -----

  predicate IsWs(b: byte) { b == 0x20 || b == 0x09 || b == 0x0A || b == 0x0D }

  ghost predicate Blank(ws: seq<byte>) { forall i :: 0 <= i < |ws| ==> IsWs(ws[i]) }

  predicate IsHex(b: byte) { 0x30 <= b <= 0x39 || 0x41 <= b <= 0x46 || 0x61 <= b <= 0x66 }

  /** One character of a string as written: itself, a two-byte escape, or four hex digits. */
  datatype StrItem = Plain(b: byte) | Short(c: byte) | Unicode(h0: byte, h1: byte, h2: byte, h3: byte) {
    predicate Valid() {
      match this
      case Plain(b) => b >= 0x20 && b != QUOTE && b != BACKSLASH
      case Short(c) => c in [QUOTE, BACKSLASH, 0x2F, 0x62, 0x66, 0x6E, 0x72, 0x74]
      case Unicode(h0, h1, h2, h3) => IsHex(h0) && IsHex(h1) && IsHex(h2) && IsHex(h3)
    }

    function Bytes(): seq<byte> {
      match this
      case Plain(b) => [b]
      case Short(c) => [BACKSLASH, c]
      case Unicode(h0, h1, h2, h3) => [BACKSLASH, 0x75, h0, h1, h2, h3]
    }
  }

  /** A literal name or a number: whatever it spells, none of its bytes is special. */
  predicate IsScalarByte(b: byte) {
    || 0x30 <= b <= 0x39 || 0x61 <= b <= 0x7A || b == 0x45 || b == 0x2B || b == 0x2D || b == 0x2E
  }

  datatype Value =
    | Scalar(text: seq<byte>)
    | Str(items: seq<StrItem>)
    | Container(isObject: bool, body: Body)
  datatype Body = Empty(gap: seq<byte>) | Full(entries: Entries)
  datatype Entries = Last(entry: Entry) | More(entry: Entry, rest: Entries)
  /** An element, or with a label a member; white space may stand wherever the grammar has it. */
  datatype Entry = Entry(pre: seq<byte>, tag: Label, value: Value, post: seq<byte>)
  datatype Label = Unlabelled | Labelled(name: seq<StrItem>, mid: seq<byte>, after: seq<byte>)

  ghost predicate ValidItems(items: seq<StrItem>) { forall i :: 0 <= i < |items| ==> items[i].Valid() }

  ghost predicate ValidLabel(tag: Label, isObject: bool) {
    match tag
    case Unlabelled => !isObject
    case Labelled(name, mid, after) => isObject && ValidItems(name) && Blank(mid) && Blank(after)
  }

  ghost predicate Valid(v: Value) {
    match v
    case Scalar(text) => forall i :: 0 <= i < |text| ==> IsScalarByte(text[i])
    case Str(items) => ValidItems(items)
    case Container(isObject, Empty(gap)) => Blank(gap)
    case Container(isObject, Full(entries)) => ValidEntries(entries, isObject)
  }

  ghost predicate ValidEntries(es: Entries, isObject: bool) {
    match es
    case Last(e) => ValidEntry(e, isObject)
    case More(e, rest) => ValidEntry(e, isObject) && ValidEntries(rest, isObject)
  }

  ghost predicate ValidEntry(e: Entry, isObject: bool) {
    Blank(e.pre) && ValidLabel(e.tag, isObject) && Valid(e.value) && Blank(e.post)
  }

  function ItemBytes(items: seq<StrItem>): seq<byte> {
    if items == [] then [] else ItemBytes(items[..|items| - 1]) + items[|items| - 1].Bytes()
  }

  function StringBytes(items: seq<StrItem>): seq<byte> { [QUOTE] + ItemBytes(items) + [QUOTE] }

  function LabelBytes(tag: Label): seq<byte> {
    match tag
    case Unlabelled => []
    case Labelled(name, mid, after) => StringBytes(name) + mid + [COLON] + after
  }

  function OpenByte(isObject: bool): byte { if isObject then OPEN_BRACE else OPEN_BRACKET }
  function CloseByte(isObject: bool): byte { if isObject then CLOSE_BRACE else CLOSE_BRACKET }

  function Render(v: Value): seq<byte> {
    match v
    case Scalar(text) => text
    case Str(items) => StringBytes(items)
    case Container(isObject, body) => [OpenByte(isObject)] + RenderBody(body) + [CloseByte(isObject)]
  }

  function RenderBody(body: Body): seq<byte> {
    match body
    case Empty(gap) => gap
    case Full(entries) => RenderEntries(entries)
  }

  function RenderEntries(es: Entries): seq<byte> {
    match es
    case Last(e) => RenderEntry(e)
    case More(e, rest) => RenderEntry(e) + [COMMA] + RenderEntries(rest)
  }

  function RenderEntry(e: Entry): seq<byte> { e.pre + LabelBytes(e.tag) + Render(e.value) + e.post }

  // ----- Container nesting depth -----

  function Nesting(v: Value): nat {
    match v
    case Container(_, Empty(_)) => 1
    case Container(_, Full(entries)) => 1 + EntriesNesting(entries)
    case _ => 0
  }

  function EntriesNesting(es: Entries): nat {
    match es
    case Last(e) => Nesting(e.value)
    case More(e, rest) => Max(Nesting(e.value), EntriesNesting(rest))
  }

  /** How many containers of `v` are open after the first `k` bytes of it. */
  function OpenAt(v: Value, k: nat): nat {
    match v
    case Container(_, body) =>
      if k == 0 || k >= |Render(v)| then 0
      else 1 + (match body
                case Empty(_) => 0
                case Full(entries) => EntriesOpenAt(entries, k - 1))
    case _ => 0
  }

  function EntriesOpenAt(es: Entries, k: nat): nat {
    match es
    case Last(e) => EntryOpenAt(e, k)
    case More(e, rest) =>
      var n := |RenderEntry(e)| + 1;
      if k < n then EntryOpenAt(e, k) else EntriesOpenAt(rest, k - n)
  }

  function EntryOpenAt(e: Entry, k: nat): nat {
    var n := |e.pre + LabelBytes(e.tag)|;
    if k < n then 0 else OpenAt(e.value, k - n)
  }

  /** How many containers of the text are open after its first `k` bytes. */
  function OpenIn(t: Text, k: nat): nat { if k < |t.lead| then 0 else OpenAt(t.value, k - |t.lead|) }

  // ----- The scanner over the pieces -----

  /** Bytes the scanner outside strings takes no notice of. */
  predicate Dull(b: byte) { b != QUOTE && !Opens(b) && !Closes(b) }

  lemma {:induction false} DullBytes(s: Scan, data: seq<byte>)
    requires !s.inString && forall i :: 0 <= i < |data| ==> Dull(data[i])
    ensures ScanAll(s, data) == s
  {
    if data != [] { DullBytes(s, data[..|data| - 1]); }
  }

  ghost predicate InText(s: Scan) { s.inString && !s.escaped }

  /** Inside a string only the end of a prefix can be in mid-escape; the depth never moves. */
  lemma {:induction false} ItemsKeep(s: Scan, items: seq<StrItem>)
    requires InText(s) && ValidItems(items)
    ensures ScanAll(s, ItemBytes(items)) == s
  {
    if items != [] {
      var n := |items| - 1;
      ItemsKeep(s, items[..n]);
      OneItem(s, items[n]);
      ScanAppend(s, ItemBytes(items[..n]), items[n].Bytes());
    }
  }

  lemma One(s: Scan, b: byte)
    ensures ScanAll(s, [b]) == Step(s, b)
  {
    assert [b][..0] == [];
  }

  lemma Bytes2(s: Scan, a: byte, b: byte)
    ensures ScanAll(s, [a, b]) == Step(Step(s, a), b)
  {
    assert [a, b] == [a] + [b];
    ScanAppend(s, [a], [b]);
    One(s, a);
    One(Step(s, a), b);
  }

  lemma OneItem(s: Scan, item: StrItem)
    requires InText(s) && item.Valid()
    ensures ScanAll(s, item.Bytes()) == s
  {
    match item
    case Plain(b) =>
      assert [b][..0] == [];
    case Short(c) =>
      Bytes2(s, BACKSLASH, c);
    case Unicode(h0, h1, h2, h3) =>
      assert item.Bytes() == [BACKSLASH, 0x75] + [h0, h1] + [h2, h3];
      ScanAppend(s, [BACKSLASH, 0x75] + [h0, h1], [h2, h3]);
      ScanAppend(s, [BACKSLASH, 0x75], [h0, h1]);
      Bytes2(s, BACKSLASH, 0x75);
      Bytes2(s, h0, h1);
      Bytes2(s, h2, h3);
  }

  /** A string leaves the scanner as it was: brackets, quotes and backslashes inside do not count. */
  lemma StringKeeps(s: Scan, items: seq<StrItem>)
    requires !s.inString && !s.escaped && ValidItems(items)
    ensures ScanAll(s, StringBytes(items)) == s
  {
    var inside := s.(inString := true);
    One(s, QUOTE);
    ItemsKeep(inside, items);
    One(inside, QUOTE);
    ScanAppend(s, [QUOTE], ItemBytes(items));
    ScanAppend(s, [QUOTE] + ItemBytes(items), [QUOTE]);
  }

  ghost predicate Outside(s: Scan) { !s.inString && !s.escaped && s.depth <= s.maxDepth }

  /** What a whole value does to a scanner outside strings. */
  ghost function Saw(s: Scan, nesting: nat): Scan { s.(maxDepth := Max(s.maxDepth, s.depth + nesting)) }

  lemma LabelKeeps(s: Scan, tag: Label, isObject: bool)
    requires Outside(s) && ValidLabel(tag, isObject)
    ensures ScanAll(s, LabelBytes(tag)) == s
  {
    match tag
    case Unlabelled =>
    case Labelled(name, mid, after) =>
      StringKeeps(s, name);
      DullBytes(s, mid);
      DullBytes(s, [COLON]);
      DullBytes(s, after);
      ScanAppend(s, StringBytes(name), mid);
      ScanAppend(s, StringBytes(name) + mid, [COLON]);
      ScanAppend(s, StringBytes(name) + mid + [COLON], after);
  }

  lemma {:induction false} ValueScanned(s: Scan, v: Value)
    requires Outside(s) && Valid(v)
    ensures ScanAll(s, Render(v)) == Saw(s, Nesting(v))
    decreases v
  {
    match v
    case Scalar(text) =>
      DullBytes(s, text);
    case Str(items) =>
      StringKeeps(s, items);
    case Container(isObject, body) =>
      var begun := Step(s, OpenByte(isObject));
      One(s, OpenByte(isObject));
      var closing := Saw(s, Nesting(v)).(depth := s.depth + 1);
      assert ScanAll(begun, RenderBody(body)) == closing by {
        match body
        case Empty(gap) => DullBytes(begun, gap);
        case Full(entries) => EntriesScanned(begun, entries, isObject);
      }
      One(closing, CloseByte(isObject));
      ScanAppend(s, [OpenByte(isObject)], RenderBody(body));
      ScanAppend(s, [OpenByte(isObject)] + RenderBody(body), [CloseByte(isObject)]);
  }

  lemma {:induction false} EntriesScanned(s: Scan, es: Entries, isObject: bool)
    requires Outside(s) && ValidEntries(es, isObject)
    ensures ScanAll(s, RenderEntries(es)) == Saw(s, EntriesNesting(es))
    decreases es
  {
    match es
    case Last(e) =>
      EntryScanned(s, e, isObject);
    case More(e, rest) =>
      EntryScanned(s, e, isObject);
      var mid := Saw(s, Nesting(e.value));
      DullBytes(mid, [COMMA]);
      EntriesScanned(mid, rest, isObject);
      ScanAppend(s, RenderEntry(e), [COMMA]);
      ScanAppend(s, RenderEntry(e) + [COMMA], RenderEntries(rest));
  }

  lemma {:induction false} EntryScanned(s: Scan, e: Entry, isObject: bool)
    requires Outside(s) && ValidEntry(e, isObject)
    ensures ScanAll(s, RenderEntry(e)) == Saw(s, Nesting(e.value))
    decreases e
  {
    DullBytes(s, e.pre);
    LabelKeeps(s, e.tag, isObject);
    ValueScanned(s, e.value);
    DullBytes(Saw(s, Nesting(e.value)), e.post);
    ScanAppend(s, e.pre, LabelBytes(e.tag));
    ScanAppend(s, e.pre + LabelBytes(e.tag), Render(e.value));
    ScanAppend(s, e.pre + LabelBytes(e.tag) + Render(e.value), e.post);
  }

  // ----- A whole text -----

  datatype Text = Text(lead: seq<byte>, value: Value, trail: seq<byte>)

  ghost predicate ValidText(t: Text) { Blank(t.lead) && Valid(t.value) && Blank(t.trail) }

  function TextBytes(t: Text): seq<byte> { t.lead + Render(t.value) + t.trail }

  /** For every JSON text the scanner's answer is the container nesting depth. */
  lemma DepthIsNesting(t: Text)
    requires ValidText(t)
    ensures ScanAll(Start, TextBytes(t)).maxDepth == Nesting(t.value)
  {
    DullBytes(Start, t.lead);
    ValueScanned(Start, t.value);
    DullBytes(Saw(Start, Nesting(t.value)), t.trail);
    ScanAppend(Start, t.lead, Render(t.value));
    ScanAppend(Start, t.lead + Render(t.value), t.trail);
  }

  // ----- Every prefix -----

  lemma PrefixOfConcat(a: seq<byte>, b: seq<byte>, k: nat)
    requires k <= |a + b|
    ensures (a + b)[..k] == if k <= |a| then a[..k] else a + b[..k - |a|]
  {
  }

  ghost predicate AtDepth(s: Scan, data: seq<byte>, k: nat, open: int)
    requires k <= |data|
  {
    ScanAll(s, data[..k]).depth == s.depth + open
  }

  lemma DullPrefix(s: Scan, data: seq<byte>, k: nat)
    requires !s.inString && k <= |data| && forall i :: 0 <= i < |data| ==> Dull(data[i])
    ensures AtDepth(s, data, k, 0)
  {
    DullBytes(s, data[..k]);
  }

  /** Gluing two pieces: a prefix ends in the first or in the second. */
  lemma Glue(s: Scan, a: seq<byte>, b: seq<byte>, k: nat, open: int)
    requires k <= |a + b|
    requires k <= |a| ==> AtDepth(s, a, k, open)
    requires k > |a| ==> ScanAll(s, a).depth == s.depth && AtDepth(ScanAll(s, a), b, k - |a|, open)
    ensures AtDepth(s, a + b, k, open)
  {
    PrefixOfConcat(a, b, k);
    if k > |a| { ScanAppend(s, a, b[..k - |a|]); }
  }

  lemma {:induction false} StringPrefix(s: Scan, items: seq<StrItem>, k: nat)
    requires !s.inString && !s.escaped && ValidItems(items) && k <= |StringBytes(items)|
    ensures AtDepth(s, StringBytes(items), k, 0)
  {
    var inside := s.(inString := true);
    One(s, QUOTE);
    var text := ItemBytes(items);
    if k == 0 {
    } else if k <= 1 + |text| {
      PrefixOfConcat([QUOTE], text + [QUOTE], k);
      assert StringBytes(items) == [QUOTE] + (text + [QUOTE]);
      assert (text + [QUOTE])[..k - 1] == text[..k - 1];
      ScanAppend(s, [QUOTE], text[..k - 1]);
      ItemsPrefix(inside, items, k - 1);
    } else {
      assert StringBytes(items)[..k] == StringBytes(items);
      StringKeeps(s, items);
    }
  }

  lemma {:induction false} ItemsPrefix(s: Scan, items: seq<StrItem>, k: nat)
    requires InText(s) && ValidItems(items) && k <= |ItemBytes(items)|
    ensures AtDepth(s, ItemBytes(items), k, 0)
  {
    if items != [] {
      var n := |items| - 1;
      var head := ItemBytes(items[..n]);
      if k <= |head| { ItemsPrefix(s, items[..n], k); }
      ItemsKeep(s, items[..n]);
      if k > |head| { ItemPrefix(s, items[n], k - |head|); }
      Glue(s, head, items[n].Bytes(), k, 0);
    }
  }

  lemma ItemPrefix(s: Scan, item: StrItem, k: nat)
    requires InText(s) && item.Valid() && k <= |item.Bytes()|
    ensures AtDepth(s, item.Bytes(), k, 0)
  {
    if k == |item.Bytes()| {
      assert item.Bytes()[..k] == item.Bytes();
      OneItem(s, item);
    } else if k > 0 {
      EscapeTail(s.(escaped := true), item.Bytes()[..k][1..]);
      assert item.Bytes()[..k] == [BACKSLASH] + item.Bytes()[..k][1..];
      One(s, BACKSLASH);
      ScanAppend(s, [BACKSLASH], item.Bytes()[..k][1..]);
    }
  }

  lemma {:induction false} EscapeTail(s: Scan, data: seq<byte>)
    requires s.inString && s.escaped
    requires forall i :: 1 <= i < |data| ==> data[i] != QUOTE && data[i] != BACKSLASH
    ensures var r := ScanAll(s, data); r.depth == s.depth && r.inString && (data != [] ==> !r.escaped)
  {
    if data != [] { EscapeTail(s, data[..|data| - 1]); }
  }

  lemma GlueLeft(s: Scan, a: seq<byte>, b: seq<byte>, k: nat, open: int)
    requires k <= |a| && AtDepth(s, a, k, open)
    ensures AtDepth(s, a + b, k, open)
  {
    PrefixOfConcat(a, b, k);
  }

  lemma GlueRight(s: Scan, mid: Scan, a: seq<byte>, b: seq<byte>, k: nat, open: int)
    requires |a| < k <= |a + b| && mid == ScanAll(s, a) && mid.depth == s.depth && AtDepth(mid, b, k - |a|, open)
    ensures AtDepth(s, a + b, k, open)
  {
    PrefixOfConcat(a, b, k);
    ScanAppend(s, a, b[..k - |a|]);
  }

  lemma NamePrefix(s: Scan, name: seq<StrItem>, tail: seq<byte>, k: nat)
    requires Outside(s) && ValidItems(name) && k <= |StringBytes(name) + tail|
    requires forall i :: 0 <= i < |tail| ==> Dull(tail[i])
    ensures AtDepth(s, StringBytes(name) + tail, k, 0)
  {
    var a := StringBytes(name);
    if k <= |a| {
      StringPrefix(s, name, k);
      GlueLeft(s, a, tail, k, 0);
    } else {
      StringKeeps(s, name);
      DullPrefix(s, tail, k - |a|);
      GlueRight(s, s, a, tail, k, 0);
    }
  }

  lemma LabelPrefix(s: Scan, tag: Label, isObject: bool, k: nat)
    requires Outside(s) && ValidLabel(tag, isObject) && k <= |LabelBytes(tag)|
    ensures AtDepth(s, LabelBytes(tag), k, 0)
  {
    match tag
    case Unlabelled =>
    case Labelled(name, mid, after) =>
      NameThenTail(name, mid, after);
      LabelTailDull(mid, after);
      NamePrefix(s, name, mid + [COLON] + after, k);
  }

  lemma NameThenTail(name: seq<StrItem>, mid: seq<byte>, after: seq<byte>)
    ensures LabelBytes(Labelled(name, mid, after)) == StringBytes(name) + (mid + [COLON] + after)
  {
  }

  lemma LabelTailDull(mid: seq<byte>, after: seq<byte>)
    requires Blank(mid) && Blank(after)
    ensures var b := mid + [COLON] + after; forall i :: 0 <= i < |b| ==> Dull(b[i])
  {
  }

  lemma OpenedPrefix(s: Scan, opening: byte, inner: seq<byte>, closing: byte, k: nat, open: int)
    requires Outside(s) && Opens(opening) && 0 < k <= |inner| + 1
    requires AtDepth(Step(s, opening), inner, k - 1, open)
    ensures AtDepth(s, [opening] + inner + [closing], k, open + 1)
  {
    assert ([opening] + inner + [closing])[..k] == [opening] + inner[..k - 1];
    One(s, opening);
    ScanAppend(s, [opening], inner[..k - 1]);
  }

  lemma {:induction false} ValuePrefix(s: Scan, v: Value, k: nat)
    requires Outside(s) && Valid(v) && k <= |Render(v)|
    ensures AtDepth(s, Render(v), k, OpenAt(v, k))
    decreases v
  {
    match v
    case Scalar(text) => DullPrefix(s, text, k);
    case Str(items) => StringPrefix(s, items, k);
    case Container(isObject, body) =>
      if k == |Render(v)| {
        ValueScanned(s, v);
        assert Render(v)[..k] == Render(v);
      } else if k > 0 {
        var begun := Step(s, OpenByte(isObject));
        match body {
          case Empty(gap) => DullPrefix(begun, gap, k - 1);
          case Full(entries) => EntriesPrefix(begun, entries, isObject, k - 1);
        }
        OpenedPrefix(s, OpenByte(isObject), RenderBody(body), CloseByte(isObject), k, OpenAt(v, k) - 1);
      }
  }

  lemma {:induction false} EntriesPrefix(s: Scan, es: Entries, isObject: bool, k: nat)
    requires Outside(s) && ValidEntries(es, isObject) && k <= |RenderEntries(es)|
    ensures AtDepth(s, RenderEntries(es), k, EntriesOpenAt(es, k))
    decreases es
  {
    match es
    case Last(e) => EntryPrefix(s, e, isObject, k);
    case More(e, rest) =>
      var a := RenderEntry(e) + [COMMA];
      EntryScanned(s, e, isObject);
      var mid := Saw(s, Nesting(e.value));
      DullBytes(mid, [COMMA]);
      ScanAppend(s, RenderEntry(e), [COMMA]);
      if k < |a| {
        EntryPrefix(s, e, isObject, k);
        assert a[..k] == RenderEntry(e)[..k];
        GlueLeft(s, a, RenderEntries(rest), k, EntriesOpenAt(es, k));
      } else {
        EntriesPrefix(mid, rest, isObject, k - |a|);
        if k == |a| {
          assert a[..k] == a && RenderEntries(rest)[..0] == [];
          GlueLeft(s, a, RenderEntries(rest), k, EntriesOpenAt(es, k));
        } else {
          GlueRight(s, mid, a, RenderEntries(rest), k, EntriesOpenAt(es, k));
        }
      }
  }

  lemma HeadPrefix(s: Scan, pre: seq<byte>, tag: Label, isObject: bool, k: nat)
    requires Outside(s) && Blank(pre) && ValidLabel(tag, isObject) && k <= |pre + LabelBytes(tag)|
    ensures AtDepth(s, pre + LabelBytes(tag), k, 0)
    ensures ScanAll(s, pre + LabelBytes(tag)) == s
  {
    DullBytes(s, pre);
    LabelKeeps(s, tag, isObject);
    ScanAppend(s, pre, LabelBytes(tag));
    if k <= |pre| { DullPrefix(s, pre, k); } else { LabelPrefix(s, tag, isObject, k - |pre|); }
    Glue(s, pre, LabelBytes(tag), k, 0);
  }

  lemma TailPrefix(s: Scan, a: seq<byte>, v: Value, post: seq<byte>, k: nat)
    requires Outside(s) && Valid(v) && Blank(post) && |a| + |Render(v)| < k <= |a + Render(v) + post|
    requires ScanAll(s, a) == s
    ensures AtDepth(s, a + Render(v) + post, k, 0)
  {
    ValueScanned(s, v);
    ScanAppend(s, a, Render(v));
    DullPrefix(Saw(s, Nesting(v)), post, k - |a + Render(v)|);
    GlueRight(s, Saw(s, Nesting(v)), a + Render(v), post, k, 0);
  }

  lemma {:induction false} EntryPrefix(s: Scan, e: Entry, isObject: bool, k: nat)
    requires Outside(s) && ValidEntry(e, isObject) && k <= |RenderEntry(e)|
    ensures AtDepth(s, RenderEntry(e), k, EntryOpenAt(e, k))
    decreases e
  {
    var head, val := e.pre + LabelBytes(e.tag), Render(e.value);
    HeadPrefix(s, e.pre, e.tag, isObject, if k < |head| then k else 0);
    if k < |head| {
      GlueLeft(s, head, val, k, 0);
      GlueLeft(s, head + val, e.post, k, 0);
    } else if k <= |head + val| {
      var open := OpenAt(e.value, k - |head|);
      ValuePrefix(s, e.value, k - |head|);
      if k == |head| {
        assert head[..k] == head && val[..0] == [];
        GlueLeft(s, head, val, k, open);
      } else {
        GlueRight(s, s, head, val, k, open);
      }
      GlueLeft(s, head + val, e.post, k, open);
    } else {
      TailPrefix(s, head, e.value, e.post, k);
    }
  }

  /** On every prefix of a JSON text the running depth is the number of containers open there. */
  lemma RunningDepthIsOpenContainers(t: Text, k: nat)
    requires ValidText(t) && k <= |TextBytes(t)|
    ensures ScanAll(Start, TextBytes(t)[..k]).depth == OpenIn(t, k)
  {
    var e := Entry(t.lead, Unlabelled, t.value, t.trail);
    assert e.pre + LabelBytes(e.tag) == t.lead;
    assert RenderEntry(e) == TextBytes(t);
    EntryPrefix(Start, e, false, k);
  }

  // ----- Texts that break off or go wrong -----

  lemma {:induction false} DepthWithinMax(data: seq<byte>)
    ensures ScanAll(Start, data).depth <= ScanAll(Start, data).maxDepth
  {
    if data != [] { DepthWithinMax(data[..|data| - 1]); }
  }

  /** The result is no less than the running depth on any prefix. */
  lemma {:induction false} DepthSeen(data: seq<byte>, k: nat)
    requires k <= |data|
    ensures ScanAll(Start, data[..k]).depth <= ScanAll(Start, data).maxDepth
  {
    if k == |data| {
      assert data[..k] == data;
      DepthWithinMax(data);
    } else {
      var head := data[..|data| - 1];
      assert head[..k] == data[..k];
      DepthSeen(head, k);
    }
  }

  /** And it is the running depth on some prefix. */
  lemma {:induction false} DepthReached(data: seq<byte>) returns (k: nat)
    ensures k <= |data| && ScanAll(Start, data[..k]).depth == ScanAll(Start, data).maxDepth
  {
    k := |data|;
    if data == [] {
      assert data[..0] == [];
    } else {
      var head := data[..|data| - 1];
      if ScanAll(Start, data).maxDepth == ScanAll(Start, head).maxDepth {
        k := DepthReached(head);
        assert head[..k] == data[..k];
      } else {
        assert data[..k] == data;
      }
    }
  }

  /** Whatever follows, well formed or not, a body that starts like a JSON text is given at
      least the number of containers a parser has open there. */
  lemma OpenContainersSeen(body: seq<byte>, t: Text, k: nat)
    requires ValidText(t) && k <= |TextBytes(t)| && TextBytes(t)[..k] <= body
    ensures OpenIn(t, k) <= ScanAll(Start, body).maxDepth
  {
    RunningDepthIsOpenContainers(t, k);
    assert body[..k] == TextBytes(t)[..k];
    DepthSeen(body, k);
  }

  /** A text that breaks off is given exactly the most containers open anywhere in it. */
  lemma BrokenOffExactly(t: Text, k: nat, bound: int)
    requires ValidText(t) && k <= |TextBytes(t)|
    ensures ScanAll(Start, TextBytes(t)[..k]).maxDepth <= bound <==> forall i: nat :: i <= k ==> OpenIn(t, i) <= bound
  {
    var body := TextBytes(t)[..k];
    forall i: nat | i <= k ensures OpenIn(t, i) <= ScanAll(Start, body).maxDepth {
      assert TextBytes(t)[..i] == body[..i];
      OpenContainersSeen(body, t, i);
    }
    var i := DepthReached(body);
    assert body[..i] == TextBytes(t)[..i];
    RunningDepthIsOpenContainers(t, i);
  }

  // ----- The guard -----

  datatype Loaded<T> = Malformed | Dict(payload: T) | NotADict

  /** `parse_json_body_safe`, with the standard parser as `loads`. */
  method ParseJsonBodySafe<T>(body: seq<byte>, loads: seq<byte> -> Loaded<T>) returns (r: Option<T>)
    ensures |body| > 1_000_000 || ScanAll(Start, body).maxDepth > 100 ==> r == None
    ensures |body| <= 1_000_000 && ScanAll(Start, body).maxDepth <= 100 ==>
              r == match loads(body) case Dict(p) => Some(p) case _ => None
  {
    if |body| > MAX_BODY_BYTES { return None; }
    var depth := MaxJsonDepth(body);
    if depth > MAX_JSON_DEPTH { return None; }
    match loads(body)
    case Dict(p) => r := Some(p);
    case _ => r := None;
  }

  /** A JSON object is let through to the parser exactly when it is short and shallow enough. */
  method GuardIsExact<T>(t: Text, loads: seq<byte> -> Loaded<T>) returns (r: Option<T>)
    requires ValidText(t) && loads(TextBytes(t)).Dict?
    ensures r == (if |TextBytes(t)| <= MAX_BODY_BYTES && Nesting(t.value) <= MAX_JSON_DEPTH
                  then Some(loads(TextBytes(t)).payload) else None)
  {
    DepthIsNesting(t);
    r := ParseJsonBodySafe(TextBytes(t), loads);
  }

  /** A body that starts like a JSON text with too many containers open never reaches the
      parser, whatever comes after. */
  method GuardStopsDeepStarts<T>(body: seq<byte>, t: Text, k: nat, loads: seq<byte> -> Loaded<T>) returns (r: Option<T>)
    requires ValidText(t) && k <= |TextBytes(t)| && TextBytes(t)[..k] <= body && OpenIn(t, k) > MAX_JSON_DEPTH
    ensures r == None
  {
    OpenContainersSeen(body, t, k);
    r := ParseJsonBodySafe(body, loads);
  }
}
