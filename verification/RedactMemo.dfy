/** The string memo in front of the redaction layers: what a hit can return, how long a
    result stays, and when a remembered result is still right. */
module RedactMemo {
  import opened Basics
  import opened RecencyOrder

  const MEMO_MAX := 2000
  const MEMO_MAX_CHARS := 50000

  /** Everything in the memo key besides the text. */
  datatype Options = Options(policy: string, revealOwned: bool, emails: bool, pii: bool, domains: bool, locations: bool,
                             identities: bool, revealIdentities: bool, forensicPayload: bool)
  datatype Key = Key(data: string, opts: Options)

  /** What the layers read that is not in the key. */
  datatype World = World(owned: set<string>, registry: set<string>)

  /** A layer either rewrites the text or raises. */
  type Layer = (string, Options, World) -> Option<string>
  datatype Layers = Layers(strip: string -> string, email: Layer, ip: Layer, domain: Layer, location: Layer)

  // ----- The uncached chain -----

  /** The layers one call runs, in order. */
  function Active(l: Layers, o: Options): seq<Layer> {
    (if o.emails then [l.email] else []) + (if o.pii then [l.ip] else []) + (if o.domains then [l.domain] else []) +
    (if o.locations && !o.forensicPayload then [l.location] else [])
  }

  /** A layer that raises is skipped. */
  function Through(layers: seq<Layer>, data: string, o: Options, w: World): string {
    if layers == [] then data
    else
      var n := |layers| - 1;
      var before := Through(layers[..n], data, o, w);
      match layers[n](before, o, w)
      case Some(after) => after
      case None => before
  }

  function Chain(l: Layers): (Key, World) -> string {
    (k: Key, w: World) => Through(Active(l, k.opts), l.strip(k.data), k.opts, w)
  }

  /** One layer of the chain: skipped when it is off and when it raises. */
  ghost function Passed(on: bool, layer: Layer, data: string, o: Options, w: World): string {
    if on && layer(data, o, w).Some? then layer(data, o, w).value else data
  }

  lemma OneMoreLayer(layers: seq<Layer>, on: bool, layer: Layer, data: string, o: Options, w: World)
    ensures Through(layers + if on then [layer] else [], data, o, w) == Passed(on, layer, Through(layers, data, o, w), o, w)
  {
    if on { assert (layers + [layer])[..|layers|] == layers; } else { assert layers + [] == layers; }
  }

  /** Credentials go first, always; then e-mail addresses, IP addresses, domains and
      locations, each behind its own switch, the last one not in forensic payloads. */
  lemma LayersRunInOrder(l: Layers, k: Key, w: World)
    ensures var o := k.opts;
            var stripped := l.strip(k.data);
            var mailed := Passed(o.emails, l.email, stripped, o, w);
            var addressed := Passed(o.pii, l.ip, mailed, o, w);
            var named := Passed(o.domains, l.domain, addressed, o, w);
            Chain(l)(k, w) == Passed(o.locations && !o.forensicPayload, l.location, named, o, w)
  {
    var o := k.opts;
    OneMoreLayer([], o.emails, l.email, l.strip(k.data), o, w);
    var a := [] + if o.emails then [l.email] else [];
    OneMoreLayer(a, o.pii, l.ip, l.strip(k.data), o, w);
    var b := a + if o.pii then [l.ip] else [];
    OneMoreLayer(b, o.domains, l.domain, l.strip(k.data), o, w);
    var c := b + if o.domains then [l.domain] else [];
    OneMoreLayer(c, o.locations && !o.forensicPayload, l.location, l.strip(k.data), o, w);
    assert Active(l, o) == c + if o.locations && !o.forensicPayload then [l.location] else [];
  }

  // ----- The memo as a state machine over an arbitrary chain -----

  predicate Memoizable(k: Key) { 0 < |k.data| <= MEMO_MAX_CHARS }

  datatype Memo = Memo(order: seq<Key>, value: map<Key, string>, world: World)

  /** `SetRegistry` stands for any change to the attacker registry, which the memo never hears of. */
  datatype Event = Ask(key: Key) | SetOwned(owned: set<string>) | SetRegistry(registry: set<string>)

  function Answer(chain: (Key, World) -> string, m: Memo, k: Key): string {
    if Memoizable(k) && k in m.value then m.value[k] else chain(k, m.world)
  }

  function Next(chain: (Key, World) -> string, m: Memo, e: Event): Memo {
    match e
    case SetOwned(owned) => Memo([], map[], m.world.(owned := owned))
    case SetRegistry(registry) => m.(world := m.world.(registry := registry))
    case Ask(k) =>
      if !Memoizable(k) then m
      else if k in m.value then m.(order := Touch(m.order, k))
      else
        var grown := m.value[k := chain(k, m.world)];
        if |m.order| + 1 > MEMO_MAX then
          var order := m.order + [k];
          Memo(order[1..], grown - {order[0]}, m.world)
        else Memo(m.order + [k], grown, m.world)
  }

  ghost predicate Coherent(m: Memo) {
    && NoRepeats(m.order) && |m.order| <= MEMO_MAX
    && (forall k :: k in m.value ==> k in m.order) && (forall k :: k in m.order ==> k in m.value)
  }

  lemma NextCoherent(chain: (Key, World) -> string, m: Memo, e: Event)
    requires Coherent(m)
    ensures Coherent(Next(chain, m, e))
    ensures e.Ask? && Memoizable(e.key) ==> Next(chain, m, e).order == Admit(m.order, e.key, MEMO_MAX)
  {
    if e.Ask? && Memoizable(e.key) {
      if e.key in m.value {
        WithoutNoRepeats(m.order, e.key);
      } else {
        DropOldest(m.order, e.key);
      }
    }
  }

  ghost predicate Run(chain: (Key, World) -> string, states: seq<Memo>, events: seq<Event>) {
    && |states| == |events| + 1
    && states[0].order == [] && states[0].value == map[]
    && forall i :: 0 <= i < |events| ==> states[i + 1] == Next(chain, states[i], events[i])
  }

  lemma {:induction false} RunCoherent(chain: (Key, World) -> string, states: seq<Memo>, events: seq<Event>, j: nat)
    requires Run(chain, states, events) && j < |states|
    ensures Coherent(states[j])
  {
    if j > 0 {
      RunCoherent(chain, states, events, j - 1);
      NextCoherent(chain, states[j - 1], events[j - 1]);
    }
  }

  // ----- Which keys are held -----

  /** The memoizable requests since the owned domains last changed. */
  ghost function Asked(events: seq<Event>): seq<Key> {
    if events == [] then []
    else
      var n := |events| - 1;
      match events[n]
      case SetOwned(_) => []
      case SetRegistry(_) => Asked(events[..n])
      case Ask(k) => if Memoizable(k) then Asked(events[..n]) + [k] else Asked(events[..n])
  }

  lemma {:induction false} OrderIsNewest(chain: (Key, World) -> string, states: seq<Memo>, events: seq<Event>, j: nat)
    requires Run(chain, states, events) && j < |states|
    ensures states[j].order == Newest(Recency(Asked(events[..j])), MEMO_MAX)
  {
    if j > 0 {
      OrderIsNewest(chain, states, events, j - 1);
      RunCoherent(chain, states, events, j - 1);
      NextCoherent(chain, states[j - 1], events[j - 1]);
      assert events[..j][..j - 1] == events[..j - 1];
      var e := events[j - 1];
      if e.Ask? && Memoizable(e.key) { AdmitKeepsNewest(Asked(events[..j - 1]), e.key, MEMO_MAX); }
    }
  }

  /** A request is answered from the memo exactly when the same request was made since the
      owned domains last changed, with fewer than 2000 different ones after it. */
  lemma HitsExactly(chain: (Key, World) -> string, states: seq<Memo>, events: seq<Event>, j: nat, k: Key)
    requires Run(chain, states, events) && j < |states|
    ensures |states[j].value| <= 2000
    ensures k in states[j].value <==> k in Asked(events[..j]) && |Since(Asked(events[..j]), k)| < 2000
  {
    RunCoherent(chain, states, events, j);
    OrderIsNewest(chain, states, events, j);
    HeldExactly(Asked(events[..j]), k, MEMO_MAX);
    NoRepeatsSize(states[j].order);
    assert (set x | x in states[j].order) == states[j].value.Keys;
  }

  // ----- Whether a remembered answer is still right -----

  /** Step `i` computed this request, and the owned domains have not changed since. */
  ghost predicate ComputedAt(states: seq<Memo>, events: seq<Event>, i: nat, j: nat, k: Key)
    requires |states| == |events| + 1 && i <= j < |states|
  {
    && i < |events| && events[i] == Ask(k) && states[i].world.owned == states[j].world.owned
    && (forall x :: i <= x < j ==> !events[x].SetOwned?)
  }

  lemma {:induction false} ValueWasComputed(chain: (Key, World) -> string, states: seq<Memo>, events: seq<Event>, j: nat, k: Key)
    returns (i: nat)
    requires Run(chain, states, events) && j < |states| && k in states[j].value
    ensures i < j && ComputedAt(states, events, i, j, k) && states[j].value[k] == chain(k, states[i].world)
  {
    if events[j - 1] == Ask(k) && k !in states[j - 1].value {
      i := j - 1;
    } else {
      i := ValueWasComputed(chain, states, events, j - 1, k);
    }
  }

  /** Every answer is what the uncached layers say of this request, under the owned domains
      of now and the registry of some earlier or present request for it. */
  lemma AnswerWasTrue(chain: (Key, World) -> string, states: seq<Memo>, events: seq<Event>, j: nat) returns (i: nat)
    requires Run(chain, states, events) && j < |events| && events[j].Ask?
    ensures i <= j && ComputedAt(states, events, i, j, events[j].key)
    ensures Answer(chain, states[j], events[j].key) == chain(events[j].key, states[i].world)
  {
    var k := events[j].key;
    if Memoizable(k) && k in states[j].value { i := ValueWasComputed(chain, states, events, j, k); } else { i := j; }
  }

  lemma {:induction false} RegistryStays(chain: (Key, World) -> string, states: seq<Memo>, events: seq<Event>, i: nat, j: nat)
    requires Run(chain, states, events) && i <= j < |states|
    requires forall x :: i <= x < j ==> !events[x].SetRegistry?
    ensures states[i].world.registry == states[j].world.registry
  {
    if i < j { RegistryStays(chain, states, events, i, j - 1); }
  }

  /** With the registry unchanged since the last clear, a hit and a fresh computation agree. */
  lemma FreshWhileRegistryStays(chain: (Key, World) -> string, states: seq<Memo>, events: seq<Event>, cleared: nat, j: nat)
    requires Run(chain, states, events) && cleared <= j < |events| && events[j].Ask?
    requires cleared == 0 || events[cleared - 1].SetOwned?
    requires forall x :: cleared <= x < j ==> !events[x].SetRegistry?
    ensures Answer(chain, states[j], events[j].key) == chain(events[j].key, states[j].world)
  {
    var i := AnswerWasTrue(chain, states, events, j);
    RegistryStays(chain, states, events, if cleared <= i then i else cleared, j);
  }

  ghost predicate AlwaysFresh(chain: (Key, World) -> string) {
    forall states: seq<Memo>, events: seq<Event>, j: nat :: Run(chain, states, events) && j < |events| && events[j].Ask? ==>
      Answer(chain, states[j], events[j].key) == chain(events[j].key, states[j].world)
  }

  ghost predicate IgnoresRegistry(chain: (Key, World) -> string) {
    forall k: Key, owned: set<string>, r1: set<string>, r2: set<string> ::
      Memoizable(k) ==> chain(k, World(owned, r1)) == chain(k, World(owned, r2))
  }

  lemma StaleRun(chain: (Key, World) -> string, k: Key, owned: set<string>, r1: set<string>, r2: set<string>)
    requires Memoizable(k) && chain(k, World(owned, r1)) != chain(k, World(owned, r2))
    ensures !AlwaysFresh(chain)
  {
    var m0 := Memo([], map[], World(owned, r1));
    var events := [Ask(k), SetRegistry(r2), Ask(k)];
    var m1 := Next(chain, m0, events[0]);
    var m2 := Next(chain, m1, events[1]);
    var states := [m0, m1, m2, Next(chain, m2, events[2])];
    assert Run(chain, states, events);
    assert Answer(chain, states[2], events[2].key) == chain(k, World(owned, r1));
  }

  /** No run ever gives a stale answer exactly when the layers do not read the registry. */
  lemma FreshExactly(chain: (Key, World) -> string)
    ensures AlwaysFresh(chain) <==> IgnoresRegistry(chain)
  {
    if IgnoresRegistry(chain) {
      forall states: seq<Memo>, events: seq<Event>, j: nat | Run(chain, states, events) && j < |events| && events[j].Ask?
        ensures Answer(chain, states[j], events[j].key) == chain(events[j].key, states[j].world)
      {
        var i := AnswerWasTrue(chain, states, events, j);
        var k, a, b := events[j].key, states[i].world, states[j].world;
        if Memoizable(k) { assert chain(k, World(a.owned, a.registry)) == chain(k, World(b.owned, b.registry)); }
      }
    } else {
      var k: Key, owned: set<string>, r1: set<string>, r2: set<string> :|
        Memoizable(k) && chain(k, World(owned, r1)) != chain(k, World(owned, r2));
      StaleRun(chain, k, owned, r1, r2);
    }
  }

  // ----- When one call is fresh -----

  /** The memo holds this request after these events, as `HitsExactly` says. */
  ghost predicate Held(events: seq<Event>, k: Key) {
    k in Asked(events) && |Since(Asked(events), k)| < MEMO_MAX
  }

  /** The event whose computation a request after `j` events is answered from; `j` itself
      when it has to be computed. */
  ghost function Source(events: seq<Event>, j: nat, k: Key): (i: nat)
    requires j <= |events|
    ensures i <= j
  {
    if j == 0 || !Held(events[..j], k) then j
    else if events[j - 1] == Ask(k) && !Held(events[..j - 1], k) then j - 1
    else Source(events, j - 1, k)
  }

  /** The attacker registry after `i` events. */
  ghost function RegistryAt(start: World, events: seq<Event>, i: nat): set<string>
    requires i <= |events|
  {
    if i == 0 then start.registry
    else if events[i - 1].SetRegistry? then events[i - 1].registry
    else RegistryAt(start, events, i - 1)
  }

  lemma {:induction false} RegistryIs(chain: (Key, World) -> string, states: seq<Memo>, events: seq<Event>, i: nat)
    requires Run(chain, states, events) && i < |states|
    ensures states[i].world.registry == RegistryAt(states[0].world, events, i)
  {
    if i > 0 { RegistryIs(chain, states, events, i - 1); }
  }

  lemma HeldIsStored(chain: (Key, World) -> string, states: seq<Memo>, events: seq<Event>, j: nat, k: Key)
    requires Run(chain, states, events) && j < |states|
    ensures Held(events[..j], k) <==> k in states[j].value
  {
    HitsExactly(chain, states, events, j, k);
  }

  /** A remembered answer was computed at its source, under the owned domains of now. */
  lemma {:induction false} ValueFromSource(chain: (Key, World) -> string, states: seq<Memo>, events: seq<Event>, j: nat, k: Key)
    requires Run(chain, states, events) && j < |states| && k in states[j].value
    ensures Source(events, j, k) < j && states[Source(events, j, k)].world.owned == states[j].world.owned
    ensures states[j].value[k] == chain(k, states[Source(events, j, k)].world)
  {
    HeldIsStored(chain, states, events, j, k);
    HeldIsStored(chain, states, events, j - 1, k);
    if k in states[j - 1].value { ValueFromSource(chain, states, events, j - 1, k); }
  }

  /** What a request after `j` events is answered: the chain under the owned domains of now
      and the registry at its source. */
  lemma AnswerFromSource(chain: (Key, World) -> string, states: seq<Memo>, events: seq<Event>, j: nat, k: Key)
    requires Run(chain, states, events) && j < |states|
    ensures Answer(chain, states[j], k) ==
            chain(k, World(states[j].world.owned,
                           RegistryAt(states[0].world, events, if Memoizable(k) then Source(events, j, k) else j)))
  {
    HeldIsStored(chain, states, events, j, k);
    RegistryIs(chain, states, events, j);
    if Memoizable(k) && k in states[j].value {
      ValueFromSource(chain, states, events, j, k);
      RegistryIs(chain, states, events, Source(events, j, k));
    }
  }

  /** The memo's history from a given world. */
  ghost function History(chain: (Key, World) -> string, start: World, events: seq<Event>): (states: seq<Memo>)
    ensures |states| == |events| + 1 && states[0] == Memo([], map[], start)
    ensures forall i :: 0 <= i < |events| ==> states[i + 1] == Next(chain, states[i], events[i])
  {
    if events == [] then [Memo([], map[], start)]
    else
      var n := |events| - 1;
      var before := History(chain, start, events[..n]);
      before + [Next(chain, before[n], events[n])]
  }

  /** The request after `j` events is answered as the layers would answer it now, whatever
      the layers do. */
  ghost predicate FreshCall(start: World, events: seq<Event>, j: nat, k: Key)
    requires j <= |events|
  {
    forall l: Layers :: var m := History(Chain(l), start, events)[j]; Answer(Chain(l), m, k) == Chain(l)(k, m.world)
  }

  /** Some layer behind layer 1 is switched on. */
  predicate Layered(o: Options) { o.emails || o.pii || o.domains || (o.locations && !o.forensicPayload) }

  lemma UnlayeredIgnoresWorld(l: Layers, k: Key, a: World, b: World)
    requires !Layered(k.opts)
    ensures Chain(l)(k, a) == Chain(l)(k, b)
  {
    assert Active(l, k.opts) == [];
  }

  /** Layers that tell one registry from all others. */
  function Telling(registry: set<string>): Layers {
    var layer: Layer := (data: string, o: Options, w: World) => Some(if w.registry == registry then "a" else "b");
    Layers(data => data, layer, layer, layer, layer)
  }

  lemma TellingTells(registry: set<string>, k: Key, w: World)
    requires Layered(k.opts)
    ensures Chain(Telling(registry))(k, w) == if w.registry == registry then "a" else "b"
  {
    LayersRunInOrder(Telling(registry), k, w);
  }

  /** One call is certain to be fresh exactly when it bypasses the memo, no layer that reads
      the registry is on, or the registry is now what it was where the answer was computed,
      all read off the events alone. */
  lemma FreshCallExactly(start: World, events: seq<Event>, j: nat, k: Key)
    requires j <= |events|
    ensures FreshCall(start, events, j, k) <==>
            k.data == "" || |k.data| > 50000 || !Layered(k.opts) || RegistryAt(start, events, Source(events, j, k)) == RegistryAt(start, events, j)
  {
    var now := RegistryAt(start, events, j);
    if !Memoizable(k) || !Layered(k.opts) || RegistryAt(start, events, Source(events, j, k)) == now {
      forall l: Layers
        ensures var m := History(Chain(l), start, events)[j]; Answer(Chain(l), m, k) == Chain(l)(k, m.world)
      {
        SameRegistryIsFresh(l, start, events, j, k);
      }
    } else {
      StaleUnderTelling(start, events, j, k);
    }
  }

  lemma SameRegistryIsFresh(l: Layers, start: World, events: seq<Event>, j: nat, k: Key)
    requires j <= |events|
    requires !Memoizable(k) || !Layered(k.opts) || RegistryAt(start, events, Source(events, j, k)) == RegistryAt(start, events, j)
    ensures var m := History(Chain(l), start, events)[j]; Answer(Chain(l), m, k) == Chain(l)(k, m.world)
  {
    var states := History(Chain(l), start, events);
    var w := states[j].world;
    AnswerFromSource(Chain(l), states, events, j, k);
    RegistryIs(Chain(l), states, events, j);
    if !Layered(k.opts) { UnlayeredIgnoresWorld(l, k, World(w.owned, RegistryAt(start, events, Source(events, j, k))), w); }
  }

  lemma StaleUnderTelling(start: World, events: seq<Event>, j: nat, k: Key)
    requires j <= |events| && Memoizable(k) && Layered(k.opts)
    requires RegistryAt(start, events, Source(events, j, k)) != RegistryAt(start, events, j)
    ensures var l := Telling(RegistryAt(start, events, j));
            var m := History(Chain(l), start, events)[j]; Answer(Chain(l), m, k) == "b" && Chain(l)(k, m.world) == "a"
  {
    var now := RegistryAt(start, events, j);
    var l := Telling(now);
    var states := History(Chain(l), start, events);
    AnswerFromSource(Chain(l), states, events, j, k);
    RegistryIs(Chain(l), states, events, j);
    TellingTells(now, k, states[j].world);
    TellingTells(now, k, World(states[j].world.owned, RegistryAt(start, events, Source(events, j, k))));
  }

  // ----- The module's own state -----

  class Redactor {
    const layers: Layers
    var order: seq<Key>
    var value: map<Key, string>
    var owned: set<string>
    var registry: set<string>

    ghost function View(): Memo reads this { Memo(order, value, World(owned, registry)) }

    constructor (l: Layers, o: set<string>, r: set<string>)
      ensures layers == l && View() == Memo([], map[], World(o, r)) && Coherent(View())
    {
      layers, order, value, owned, registry := l, [], map[], o, r;
    }

    /** The layers one after another; a raising layer leaves the text alone. */
    method ApplyLayers(k: Key) returns (data: string)
      ensures data == Chain(layers)(k, World(owned, registry))
    {
      data := layers.strip(k.data);
      var active := Active(layers, k.opts);
      for i := 0 to |active|
        invariant data == Through(active[..i], layers.strip(k.data), k.opts, World(owned, registry))
      {
        assert active[..i + 1][..i] == active[..i];
        var applied := active[i](data, k.opts, World(owned, registry));
        if applied.Some? { data := applied.value; }
      }
      assert active[..|active|] == active;
    }

    method RedactString(k: Key) returns (data: string)
      requires Coherent(View())
      modifies this
      ensures View() == Next(Chain(layers), old(View()), Ask(k)) && Coherent(View())
      ensures data == Answer(Chain(layers), old(View()), k)
    {
      NextCoherent(Chain(layers), View(), Ask(k));
      if k.data == "" || |k.data| > MEMO_MAX_CHARS {
        data := ApplyLayers(k);
        return;
      }
      if k in value {
        order := Touch(order, k);
        return value[k];
      }
      data := ApplyLayers(k);
      value, order := value[k := data], order + [k];
      if |order| > MEMO_MAX {
        value, order := value - {order[0]}, order[1..];
      }
    }

    /** Changing the owned domains drops every remembered answer. */
    method SetOwnedDomains(domains: set<string>)
      modifies this
      ensures View() == Next(Chain(layers), old(View()), SetOwned(domains)) && Coherent(View())
    {
      owned, order, value := domains, [], map[];
    }

    /** The attacker registry lives elsewhere; the layers read it and the memo stays. */
    method RegistryChanges(entries: set<string>)
      requires Coherent(View())
      modifies this`registry
      ensures View() == Next(Chain(layers), old(View()), SetRegistry(entries)) && Coherent(View())
    {
      registry := entries;
    }
  }
}
