/** The recursive redaction walk and its gates: when what layer 1 takes out has no effect on
    the result, and when a mask that comes first lets it show. */
module RedactWalk {
  import opened Basics
  import opened RedactMemo

  datatype Json = Scalar(n: int) | Str(s: string) | Arr(items: seq<Json>) | Obj(fields: seq<Field>)
  datatype Field = Field(key: string, value: Json)

  /** The deployment's switches, tables and digests. */
  datatype Config = Config(
    allowBypass: bool, allowIdentityReveal: bool, forensicToken: string,
    layers: Layers, world: World,
    credential: string -> bool, identity: string -> bool, allowlisted: string -> bool,
    userDigest: string -> string, pathDigest: string -> string,
    maskDomain: string -> string, shouldMaskDomain: (string, Options, World) -> bool, hostname: string -> bool)

  datatype Request = Request(opts: Options, token: string)
  datatype Result = Ok(data: Json) | Denied

  const MARKER := Str("<CREDENTIAL_REDACTED>")
  const IDENTITY_KEYS := ["account", "srcuser", "dstuser", "user", "username"]
  const HOSTNAME_KEYS := ["host", "hostname", "server", "node", "host_name"]
  const FORENSIC_PATHS := ["full_log", "data.url", "data.user_agent"]

  function Child(path: string, key: string): string { if path == "" then key else path + "." + key }

  predicate EndsWith(s: string, tail: string) { |tail| <= |s| && s[|s| - |tail|..] == tail }

  predicate ForensicPath(path: string) {
    exists p :: p in FORENSIC_PATHS && (path == p || EndsWith(path, "." + p))
  }

  /** `path.rsplit(".", 1)[-1]`. */
  function LastPart(path: string): string {
    if path == "" || path[|path| - 1] == '.' then "" else LastPart(path[..|path| - 1]) + [path[|path| - 1]]
  }

  /** Layer 1 alone, under the raw policy. */
  function StripCredentials(c: Config, d: Json, path: string): Json {
    match d
    case Scalar(_) => d
    case Str(s) => Str(c.layers.strip(s))
    case Arr(items) => Arr(seq(|items|, i requires 0 <= i < |items| => StripCredentials(c, items[i], path)))
    case Obj(fields) =>
      Obj(seq(|fields|, i requires 0 <= i < |fields| =>
        var child := Child(path, fields[i].key);
        Field(fields[i].key, if c.credential(child) then MARKER else StripCredentials(c, fields[i].value, child))))
  }

  function Leaf(c: Config, o: Options, s: string, forensic: bool): Json {
    Str(Chain(c.layers)(Key(s, o.(forensicPayload := forensic)), c.world))
  }

  /** `_mask_username`: the first and last characters stay. */
  function MaskUser(c: Config, v: string): string {
    if |v| <= 1 then "***" else [v[0]] + "***" + [v[|v| - 1]] + " [h:" + c.userDigest(v) + "]"
  }

  /** `v.rstrip("/")`. */
  function TrimSlash(v: string): string {
    if v != "" && v[|v| - 1] == '/' then TrimSlash(v[..|v| - 1]) else v
  }

  /** `v.split("/")[-1]`. */
  function LastSegment(v: string): string {
    if v == "" || v[|v| - 1] == '/' then "" else LastSegment(v[..|v| - 1]) + [v[|v| - 1]]
  }

  /** A location keeps its last path segment. */
  function ShortenLocation(c: Config, v: string): string {
    ".../" + (if '/' in TrimSlash(v) then LastSegment(TrimSlash(v)) else v) + " [h:" + c.pathDigest(v) + "]"
  }

  /** The value a `domain` or `location` key is replaced by before the layers see it. */
  function Rewritten(c: Config, o: Options, key: string, v: string): string {
    if key == "domain" && o.domains && c.shouldMaskDomain(v, o, c.world) then c.maskDomain(v)
    else if key == "location" && o.locations then ShortenLocation(c, v)
    else v
  }

  function MaskName(c: Config, fields: seq<Field>): seq<Field> {
    seq(|fields|, i requires 0 <= i < |fields| =>
      if fields[i].key == "name" && fields[i].value.Str? then Field("name", Str(MaskUser(c, fields[i].value.s))) else fields[i])
  }

  /** The identity masks that `protect_victim` adds on the way up. */
  function VictimMask(c: Config, o: Options, path: string, key: string, masked: Json): Json {
    if o.policy != "protect_victim" || o.revealIdentities then masked
    else if key in IDENTITY_KEYS && masked.Str? && masked.s != "" && o.pii then Str(MaskUser(c, masked.s))
    else if key == "agent" && masked.Obj? && o.pii then Obj(MaskName(c, masked.fields))
    else if key == "key" && masked.Str? && c.hostname(masked.s) && !c.allowlisted(Child(path, key)) then Str(MaskUser(c, masked.s))
    else if key in HOSTNAME_KEYS && masked.Str? && c.hostname(masked.s) && o.pii then Str(MaskUser(c, masked.s))
    else if key == "name" && masked.Str? && masked.s != "" && o.pii && LastPart(path) in ["agents", "top_agents"] then
      Str(MaskUser(c, masked.s))
    else masked
  }

  predicate IdentitiesFirst(o: Options) { o.pii && o.identities && !o.revealIdentities }

  /** Some mask that comes before layer 1 is switched on. */
  predicate MasksFirst(o: Options) { o.domains || o.locations || IdentitiesFirst(o) }

  predicate IdentityMasked(c: Config, o: Options, child: string) {
    IdentitiesFirst(o) && c.identity(child)
  }

  /** What becomes of a string under a key that is no credential. */
  function StringField(c: Config, o: Options, path: string, key: string, s: string, skip: bool): Json {
    var child := Child(path, key);
    if IdentityMasked(c, o, child) && s != "" then Str(MaskUser(c, s))
    else VictimMask(c, o, path, key, Leaf(c, o, Rewritten(c, o, key, s), skip || ForensicPath(path) || ForensicPath(child)))
  }

  /** The walk under `full` and `protect_victim`. */
  function Walk(c: Config, o: Options, d: Json, path: string, skip: bool): Json {
    var forensic := skip || ForensicPath(path);
    match d
    case Scalar(_) => d
    case Str(s) => Leaf(c, o, s, forensic)
    case Arr(items) => Arr(seq(|items|, i requires 0 <= i < |items| => Walk(c, o, items[i], path, forensic)))
    case Obj(fields) =>
      Obj(seq(|fields|, i requires 0 <= i < |fields| =>
        var key, v := fields[i].key, fields[i].value;
        Field(key,
          if c.credential(Child(path, key)) then MARKER
          else if v.Str? then StringField(c, o, path, key, v.s, skip)
          else VictimMask(c, o, path, key, Walk(c, o, v, Child(path, key), forensic)))))
  }

  /** The gates refuse the request. */
  predicate Refused(c: Config, r: Request) {
    if r.opts.policy == "raw" then !c.allowBypass || (c.forensicToken != "" && r.token != c.forensicToken)
    else r.opts.revealIdentities && (!c.allowIdentityReveal || c.forensicToken == "" || r.token != c.forensicToken)
  }

  /** `_redact_alert_data`: the gates, then the walk the policy asks for. The raw walk
      starts from the empty path whatever path the call names. */
  function Redact(c: Config, r: Request, d: Json, path: string, skip: bool): Result {
    if Refused(c, r) then Denied
    else if r.opts.policy == "raw" then Ok(StripCredentials(c, d, ""))
    else Ok(Walk(c, r.opts, d, path, skip))
  }

  // ----- Who is answered, and what becomes of each field -----

  /** Raw output needs the bypass switch and the operator's token if there is one; revealed
      identities need their switch and the operator's token, which there must be. */
  lemma AnsweredExactly(c: Config, r: Request, d: Json, path: string, skip: bool)
    ensures Redact(c, r, d, path, skip).Ok? <==>
            if r.opts.policy == "raw" then c.allowBypass && (c.forensicToken == "" || c.forensicToken == r.token)
            else r.opts.revealIdentities ==> c.allowIdentityReveal && c.forensicToken == r.token != ""
  {
  }

  lemma LastPartGrows(v: string, ch: char)
    ensures LastPart(v + [ch]) == if ch == '.' then "" else LastPart(v) + [ch]
  {
    assert (v + [ch])[..|v|] == v;
  }

  lemma {:induction false} LastPartAppend(v: string, part: string)
    requires '.' !in part
    ensures LastPart(v + part) == LastPart(v) + part
  {
    if part == "" {
      assert v + part == v;
    } else {
      var n := |part| - 1;
      LastPartAppend(v, part[..n]);
      LastPartGrows(v + part[..n], part[n]);
      assert v + part == v + part[..n] + [part[n]];
      assert LastPart(v) + part == LastPart(v) + part[..n] + [part[n]];
    }
  }

  lemma LastPartOf(pre: string, part: string)
    requires '.' !in part
    ensures LastPart(pre + "." + part) == part && LastPart(part) == part
  {
    LastPartGrows(pre, '.');
    assert pre + "." == pre + ['.'];
    LastPartAppend(pre + ".", part);
    LastPartAppend("", part);
    assert "" + part == part;
  }

  lemma {:induction false} LastPartEnds(path: string)
    ensures path == LastPart(path) || EndsWith(path, "." + LastPart(path))
  {
    if path != "" {
      var k := |path| - 1;
      assert path == path[..k] + [path[k]];
      if path[k] == '.' {
        assert path[|path| - 1..] == "." + "";
      } else {
        LastPartEnds(path[..k]);
        if path[..k] != LastPart(path[..k]) {
          var tail := "." + LastPart(path[..k]);
          assert path[|path| - |tail| - 1..] == path[..k][k - |tail|..] + [path[k]];
          assert "." + LastPart(path) == tail + [path[k]];
        }
      }
    }
  }

  lemma SplitTail(path: string, part: string, tail: string) returns (pre: string)
    requires tail == "." + part && EndsWith(path, tail)
    ensures path == pre + "." + part
  {
    pre := path[..|path| - |tail|];
    assert path == pre + path[|path| - |tail|..];
    assert pre + ("." + part) == pre + "." + part;
  }

  /** The part of a path behind its last dot. */
  lemma LastPartIs(path: string, part: string, tail: string)
    requires '.' !in part && tail == "." + part
    ensures LastPart(path) == part <==> path == part || EndsWith(path, tail)
  {
    LastPartEnds(path);
    LastPartOf("", part);
    if EndsWith(path, tail) {
      var pre := SplitTail(path, part, tail);
      LastPartOf(pre, part);
    }
  }

  /** A field that `protect_victim` hides behind its first and last character. */
  ghost predicate VictimField(c: Config, o: Options, path: string, key: string, seen: string) {
    && o.policy == "protect_victim" && !o.revealIdentities
    && ( || (key == "key" && c.hostname(seen) && !c.allowlisted(Child(path, key)))
         || (o.pii && key in {"account", "srcuser", "dstuser", "user", "username"} && seen != "")
         || (o.pii && key in {"host", "hostname", "server", "node", "host_name"} && c.hostname(seen))
         || (o.pii && key == "name" && seen != "" && ( || path == "agents" || EndsWith(path, ".agents")
                                                       || path == "top_agents" || EndsWith(path, ".top_agents"))))
  }

  lemma KeyLists(key: string)
    ensures key in IDENTITY_KEYS <==> key in {"account", "srcuser", "dstuser", "user", "username"}
    ensures key in HOSTNAME_KEYS <==> key in {"host", "hostname", "server", "node", "host_name"}
  {
  }

  lemma AgentLists(path: string, a: string, b: string, da: string, db: string)
    requires a == "agents" && b == "top_agents" && da == ".agents" && db == ".top_agents"
    ensures LastPart(path) in [a, b] <==> path == a || EndsWith(path, da) || path == b || EndsWith(path, db)
  {
    LastPartIs(path, a, da);
    LastPartIs(path, b, db);
    assert [a, b][0] == a && [a, b][1] == b;
  }

  lemma VictimTextExactly(c: Config, o: Options, path: string, key: string, seen: string)
    ensures VictimMask(c, o, path, key, Str(seen)) == Str(if VictimField(c, o, path, key, seen) then MaskUser(c, seen) else seen)
  {
    KeyLists(key);
    AgentLists(path, "agents", "top_agents", ".agents", ".top_agents");
  }

  /** A field's text as the layers leave it; a forensic payload keeps its locations. */
  ghost function Seen(c: Config, o: Options, path: string, key: string, s: string, skip: bool): string {
    var payload := skip || ForensicPath(path) || ForensicPath(Child(path, key));
    Chain(c.layers)(Key(Rewritten(c, o, key, s), o.(forensicPayload := payload)), c.world)
  }

  /** A string field that is no credential is masked as an identity, or rewritten and sent
      through the layers, and then masked if it tells on the victim. */
  lemma StringFieldExactly(c: Config, o: Options, path: string, key: string, s: string, skip: bool)
    ensures StringField(c, o, path, key, s, skip) ==
            Str(if o.pii && o.identities && !o.revealIdentities && c.identity(Child(path, key)) && s != "" then MaskUser(c, s)
                else if VictimField(c, o, path, key, Seen(c, o, path, key, s, skip)) then MaskUser(c, Seen(c, o, path, key, s, skip))
                else Seen(c, o, path, key, s, skip))
  {
    VictimTextExactly(c, o, path, key, Seen(c, o, path, key, s, skip));
  }

  /** A name of one character is hidden whole. */
  lemma OneCharacterIsHidden(c: Config, s: string)
    ensures MaskUser(c, s) == "***" <==> |s| <= 1
  {
    if |s| > 1 { assert |MaskUser(c, s)| > 3; }
  }

  /** What stands in a list is treated as if it stood in the list's place. */
  lemma ListsAreTransparent(c: Config, o: Options, items: seq<Json>, path: string, skip: bool, i: nat)
    requires i < |items|
    ensures Walk(c, o, Arr(items), path, skip).items[i] == Walk(c, o, items[i], path, skip)
    ensures StripCredentials(c, Arr(items), path).items[i] == StripCredentials(c, items[i], path)
  {
    PayloadOnce(c, o, items[i], path, skip);
  }

  lemma PayloadOnce(c: Config, o: Options, d: Json, path: string, skip: bool)
    ensures Walk(c, o, d, path, skip || ForensicPath(path)) == Walk(c, o, d, path, skip)
  {
    match d
    case Obj(fields) =>
      var a, b := Walk(c, o, d, path, skip || ForensicPath(path)).fields, Walk(c, o, d, path, skip).fields;
      forall i | 0 <= i < |fields| ensures a[i] == b[i] {
        if fields[i].value.Str? {
          StringFieldExactly(c, o, path, fields[i].key, fields[i].value.s, skip || ForensicPath(path));
          StringFieldExactly(c, o, path, fields[i].key, fields[i].value.s, skip);
        }
      }
      assert a == b;
    case _ =>
  }

  /** A field that is no text, no credential and no agent is walked at its own path, as payload
      when it stands inside one. */
  lemma NestedFieldExactly(c: Config, o: Options, fields: seq<Field>, path: string, skip: bool, i: nat)
    requires i < |fields| && !c.credential(Child(path, fields[i].key)) && !fields[i].value.Str? && fields[i].key != "agent"
    ensures Walk(c, o, Obj(fields), path, skip).fields[i] ==
            Field(fields[i].key, Walk(c, o, fields[i].value, Child(path, fields[i].key), skip || ForensicPath(path)))
    ensures StripCredentials(c, Obj(fields), path).fields[i] ==
            Field(fields[i].key, StripCredentials(c, fields[i].value, Child(path, fields[i].key)))
  {
  }

  /** Text that is no field goes through the layers, or through layer 1 alone when raw. */
  lemma PlainTextExactly(c: Config, o: Options, s: string, path: string, skip: bool)
    ensures Walk(c, o, Str(s), path, skip) ==
            Str(Chain(c.layers)(Key(s, o.(forensicPayload := skip || ForensicPath(path))), c.world))
    ensures StripCredentials(c, Str(s), path) == Str(c.layers.strip(s))
  {
  }

  /** Long attacker payloads keep their locations. */
  lemma ForensicPathExactly(path: string)
    ensures ForensicPath(path) <==>
            || path == "full_log" || EndsWith(path, ".full_log") || path == "data.url" || EndsWith(path, ".data.url")
            || path == "data.user_agent" || EndsWith(path, ".data.user_agent")
  {
    assert "." + "full_log" == ".full_log" && "." + "data.url" == ".data.url" && "." + "data.user_agent" == ".data.user_agent";
    assert FORENSIC_PATHS[0] == "full_log" && FORENSIC_PATHS[1] == "data.url" && FORENSIC_PATHS[2] == "data.user_agent";
  }

  /** An agent's name is hidden the same way, and nothing else of the agent. */
  lemma AgentNameExactly(c: Config, o: Options, path: string, agent: seq<Field>, i: nat)
    requires i < |agent|
    ensures var masked := VictimMask(c, o, path, "agent", Obj(agent));
            && masked.Obj? && |masked.fields| == |agent|
            && masked.fields[i] ==
               if o.policy == "protect_victim" && !o.revealIdentities && o.pii && agent[i].key == "name" && agent[i].value.Str?
               then Field("name", Str(MaskUser(c, agent[i].value.s))) else agent[i]
  {
  }

  /** What stands at a credential path is the marker, under every policy. */
  lemma CredentialsAreMarked(c: Config, o: Options, fields: seq<Field>, path: string, skip: bool, i: nat)
    requires i < |fields| && c.credential(Child(path, fields[i].key))
    ensures var d := Obj(fields);
            && StripCredentials(c, d, path).fields[i] == Field(fields[i].key, Str("<CREDENTIAL_REDACTED>"))
            && Walk(c, o, d, path, skip).fields[i] == Field(fields[i].key, Str("<CREDENTIAL_REDACTED>"))
  {
  }

  /** The shape of the document: numbers stay, text stays text, lists keep their length and
      objects their keys, and at a credential path there is text. */
  ghost predicate SameShape(c: Config, a: Json, b: Json, path: string)
    decreases a
  {
    match a
    case Scalar(_) => b == a
    case Str(_) => b.Str?
    case Arr(items) => b.Arr? && |b.items| == |items| && forall i :: 0 <= i < |items| ==> SameShape(c, items[i], b.items[i], path)
    case Obj(fields) => b.Obj? && |b.fields| == |fields| && forall i :: 0 <= i < |fields| ==> SameField(c, fields[i], b.fields[i], path)
  }

  ghost predicate SameField(c: Config, a: Field, b: Field, path: string)
    decreases a
  {
    a.key == b.key && if c.credential(Child(path, a.key)) then b.value.Str? else SameShape(c, a.value, b.value, Child(path, a.key))
  }

  lemma {:induction false} StripKeepsShape(c: Config, d: Json, path: string)
    ensures SameShape(c, d, StripCredentials(c, d, path), path)
    decreases d
  {
    match d
    case Arr(items) =>
      forall i | 0 <= i < |items| ensures SameShape(c, items[i], StripCredentials(c, items[i], path), path) {
        StripKeepsShape(c, items[i], path);
      }
    case Obj(fields) =>
      forall i | 0 <= i < |fields| ensures SameField(c, fields[i], StripCredentials(c, d, path).fields[i], path) {
        StripKeepsShape(c, fields[i].value, Child(path, fields[i].key));
      }
    case _ =>
  }

  /** One text is as good as another. */
  lemma TextForText(c: Config, a: Json, b: Json, x: string, path: string)
    requires SameShape(c, a, b, path) && b.Str?
    ensures SameShape(c, a, Str(x), path)
  {
    match a
    case Str(_) =>
    case _ => assert false;
  }

  lemma NamedKeepsShape(c: Config, a: Field, m: Field, x: string, path: string)
    requires SameField(c, a, m, path) && m.value.Str?
    ensures SameField(c, a, m.(value := Str(x)), path)
  {
    if !c.credential(Child(path, a.key)) { TextForText(c, a.value, m.value, x, Child(path, a.key)); }
  }

  lemma VictimMaskKeepsShape(c: Config, o: Options, path: string, key: string, a: Json, masked: Json)
    requires SameShape(c, a, masked, Child(path, key))
    ensures SameShape(c, a, VictimMask(c, o, path, key, masked), Child(path, key))
  {
    var child, after := Child(path, key), VictimMask(c, o, path, key, masked);
    if masked.Str? {
      TextForText(c, a, masked, after.s, child);
    } else if after != masked {
      assert a.Obj?;
      forall i | 0 <= i < |a.fields| ensures SameField(c, a.fields[i], after.fields[i], child) {
        var m := masked.fields[i];
        assert SameField(c, a.fields[i], m, child);
        if m.key == "name" && m.value.Str? { NamedKeepsShape(c, a.fields[i], m, MaskUser(c, m.value.s), child); }
      }
    }
  }

  lemma {:induction false} WalkKeepsShape(c: Config, o: Options, d: Json, path: string, skip: bool)
    ensures SameShape(c, d, Walk(c, o, d, path, skip), path)
    decreases d
  {
    var forensic := skip || ForensicPath(path);
    match d
    case Arr(items) =>
      forall i | 0 <= i < |items| ensures SameShape(c, items[i], Walk(c, o, items[i], path, forensic), path) {
        WalkKeepsShape(c, o, items[i], path, forensic);
      }
    case Obj(fields) =>
      forall i | 0 <= i < |fields| ensures SameField(c, fields[i], Walk(c, o, d, path, skip).fields[i], path) {
        var key, v := fields[i].key, fields[i].value;
        if v.Str? {
          StringFieldExactly(c, o, path, key, v.s, skip);
        } else {
          WalkKeepsShape(c, o, v, Child(path, key), forensic);
          VictimMaskKeepsShape(c, o, path, key, v, Walk(c, o, v, Child(path, key), forensic));
        }
      }
    case _ =>
  }

  /** Every answer has the shape of the document it was asked about. */
  lemma AnswersKeepShape(c: Config, r: Request, d: Json, path: string, skip: bool)
    requires !Refused(c, r)
    ensures Redact(c, r, d, path, skip).Ok? && SameShape(c, d, Redact(c, r, d, path, skip).data, StartOf(r, path))
  {
    if r.opts.policy == "raw" { StripKeepsShape(c, d, ""); } else { WalkKeepsShape(c, r.opts, d, path, skip); }
  }

  // ----- What layer 1 removes -----

  /** Equal but for what stands at credential paths and what layer 1 strips from strings. */
  ghost predicate AlikeButSecrets(c: Config, a: Json, b: Json, path: string)
    decreases a
  {
    match a
    case Scalar(_) => a == b
    case Str(s) => b.Str? && c.layers.strip(s) == c.layers.strip(b.s)
    case Arr(items) =>
      b.Arr? && |b.items| == |items| && forall i :: 0 <= i < |items| ==> AlikeButSecrets(c, items[i], b.items[i], path)
    case Obj(fields) =>
      && b.Obj? && |b.fields| == |fields|
      && forall i :: 0 <= i < |fields| ==>
           && b.fields[i].key == fields[i].key
           && var child := Child(path, fields[i].key);
              c.credential(child) || AlikeButSecrets(c, fields[i].value, b.fields[i].value, child)
  }

  /** Under the raw policy layer 1 hides everything it removes. */
  lemma {:induction false} StripHides(c: Config, a: Json, b: Json, path: string)
    requires AlikeButSecrets(c, a, b, path)
    ensures StripCredentials(c, a, path) == StripCredentials(c, b, path)
    decreases a
  {
    match a
    case Scalar(_) =>
    case Str(_) =>
    case Arr(items) =>
      forall i | 0 <= i < |items| ensures StripCredentials(c, items[i], path) == StripCredentials(c, b.items[i], path) {
        StripHides(c, items[i], b.items[i], path);
      }
    case Obj(fields) =>
      forall i | 0 <= i < |fields| && !c.credential(Child(path, fields[i].key))
        ensures StripCredentials(c, fields[i].value, Child(path, fields[i].key)) ==
                StripCredentials(c, b.fields[i].value, Child(path, fields[i].key))
      {
        StripHides(c, fields[i].value, b.fields[i].value, Child(path, fields[i].key));
      }
  }

  /** Fields whose strings are masked before, or instead of, layer 1. */
  predicate MaskedFirst(c: Config, o: Options, path: string, key: string) {
    && !c.credential(Child(path, key))
    && (IdentityMasked(c, o, Child(path, key)) || (key == "domain" && o.domains) || (key == "location" && o.locations))
  }

  /** The masks that come first give one answer for strings layer 1 cannot tell apart. */
  ghost predicate MasksRespectStrip(c: Config, o: Options) {
    forall path, key, s, t, skip :: MaskedFirst(c, o, path, key) && c.layers.strip(s) == c.layers.strip(t) ==>
      StringField(c, o, path, key, s, skip) == StringField(c, o, path, key, t, skip)
  }

  lemma FieldHides(c: Config, o: Options, path: string, key: string, s: string, t: string, skip: bool)
    requires MasksRespectStrip(c, o) && !c.credential(Child(path, key)) && c.layers.strip(s) == c.layers.strip(t)
    ensures StringField(c, o, path, key, s, skip) == StringField(c, o, path, key, t, skip)
  {
    if !MaskedFirst(c, o, path, key) {
      assert Rewritten(c, o, key, s) == s && Rewritten(c, o, key, t) == t;
    }
  }

  lemma {:induction false} WalkHides(c: Config, o: Options, a: Json, b: Json, path: string, skip: bool)
    requires MasksRespectStrip(c, o) && AlikeButSecrets(c, a, b, path)
    ensures Walk(c, o, a, path, skip) == Walk(c, o, b, path, skip)
    decreases a
  {
    var forensic := skip || ForensicPath(path);
    match a
    case Scalar(_) =>
    case Str(s) =>
    case Arr(items) =>
      forall i | 0 <= i < |items| ensures Walk(c, o, items[i], path, forensic) == Walk(c, o, b.items[i], path, forensic) {
        WalkHides(c, o, items[i], b.items[i], path, forensic);
      }
    case Obj(fields) =>
      assert Walk(c, o, a, path, skip).fields == Walk(c, o, b, path, skip).fields by {
        forall i | 0 <= i < |fields|
          ensures Walk(c, o, a, path, skip).fields[i] == Walk(c, o, b, path, skip).fields[i]
        {
          var key, v, w := fields[i].key, fields[i].value, b.fields[i].value;
          if !c.credential(Child(path, key)) {
            if v.Str? { FieldHides(c, o, path, key, v.s, w.s, skip); } else { WalkHides(c, o, v, w, Child(path, key), forensic); }
          }
        }
      }
  }

  /** The path the walk of a request starts from. */
  function StartOf(r: Request, path: string): string { if r.opts.policy == "raw" then "" else path }

  /** Documents that differ only in what layer 1 removes get one answer from every call. */
  ghost predicate HidesSecrets(c: Config, r: Request) {
    forall a, b, path, skip :: AlikeButSecrets(c, a, b, StartOf(r, path)) ==> Redact(c, r, a, path, skip) == Redact(c, r, b, path, skip)
  }

  function OneField(key: string, s: string): Json { Obj([Field(key, Str(s))]) }

  lemma OneFieldWalked(c: Config, o: Options, path: string, key: string, s: string, t: string, skip: bool)
    requires !c.credential(Child(path, key)) && c.layers.strip(s) == c.layers.strip(t)
    ensures AlikeButSecrets(c, OneField(key, s), OneField(key, t), path)
    ensures Walk(c, o, OneField(key, s), path, skip) ==
            Obj([Field(key, StringField(c, o, path, key, s, skip))])
  {
    assert AlikeButSecrets(c, Str(s), Str(t), Child(path, key));
  }

  /** A request hides what layer 1 removes exactly when it is raw, or refused, or every mask
      that comes before layer 1 respects it. */
  lemma SecretsHiddenExactly(c: Config, r: Request)
    ensures HidesSecrets(c, r) <==> r.opts.policy == "raw" || Refused(c, r) || MasksRespectStrip(c, r.opts)
  {
    var o := r.opts;
    if o.policy == "raw" || Refused(c, r) || MasksRespectStrip(c, o) {
      forall a, b, path, skip | AlikeButSecrets(c, a, b, StartOf(r, path))
        ensures Redact(c, r, a, path, skip) == Redact(c, r, b, path, skip)
      {
        if o.policy == "raw" { StripHides(c, a, b, ""); } else if !Refused(c, r) { WalkHides(c, o, a, b, path, skip); }
      }
    } else if HidesSecrets(c, r) {
      forall path, key, s, t, skip | MaskedFirst(c, o, path, key) && c.layers.strip(s) == c.layers.strip(t)
        ensures StringField(c, o, path, key, s, skip) == StringField(c, o, path, key, t, skip)
      {
        FieldsAgree(c, r, path, key, s, t, skip);
      }
    }
  }

  lemma FieldsAgree(c: Config, r: Request, path: string, key: string, s: string, t: string, skip: bool)
    requires HidesSecrets(c, r) && r.opts.policy != "raw" && !Refused(c, r)
    requires !c.credential(Child(path, key)) && c.layers.strip(s) == c.layers.strip(t)
    ensures StringField(c, r.opts, path, key, s, skip) == StringField(c, r.opts, path, key, t, skip)
  {
    OneFieldWalked(c, r.opts, path, key, s, t, skip);
    OneFieldWalked(c, r.opts, path, key, t, s, skip);
    assert Redact(c, r, OneField(key, s), path, skip) == Redact(c, r, OneField(key, t), path, skip);
  }

  /** With no mask ahead of layer 1 switched on, nothing it removes shows. */
  lemma NothingMaskedFirstHides(c: Config, r: Request)
    requires !MasksFirst(r.opts)
    ensures HidesSecrets(c, r)
  {
    SecretsHiddenExactly(c, r);
  }

  // ----- Where it shows -----

  lemma {:induction false} LastSegmentOf(pre: string, seg: string)
    requires '/' !in seg
    ensures LastSegment(pre + "/" + seg) == seg
  {
    if seg == "" {
      LastSegmentGrows(pre, '/');
      assert pre + "/" + seg == pre + ['/'];
    } else {
      var n := |seg| - 1;
      LastSegmentOf(pre, seg[..n]);
      LastSegmentGrows(pre + "/" + seg[..n], seg[n]);
      assert seg == seg[..n] + [seg[n]];
      assert pre + "/" + seg == pre + "/" + seg[..n] + [seg[n]];
    }
  }

  lemma LastSegmentGrows(v: string, ch: char)
    ensures LastSegment(v + [ch]) == if ch == '/' then "" else LastSegment(v) + [ch]
  {
    assert (v + [ch])[..|v|] == v;
  }

  /** A shortened location still ends in its last segment, whatever that is. */
  lemma LocationKeepsTail(c: Config, pre: string, seg: string)
    requires seg != "" && '/' !in seg
    ensures ShortenLocation(c, pre + "/" + seg) == ".../" + seg + " [h:" + c.pathDigest(pre + "/" + seg) + "]"
  {
    var v := pre + "/" + seg;
    assert v[|v| - 1] == seg[|seg| - 1] && v[|pre|] == '/';
    LastSegmentOf(pre, seg);
  }

  /** The layers behind layer 1 leave a text as it is. */
  ghost predicate Untouched(c: Config, o: Options, s: string) { Leaf(c, o, s, false) == Str(s) }

  /** `full` or `protect_victim` lets a location through with its last segment in the clear. */
  ghost predicate LocationsShow(c: Config, r: Request) {
    && r.opts.policy != "raw" && !Refused(c, r) && r.opts.locations
    && !c.credential("location") && !c.identity("location")
  }

  function Shown(c: Config, pre: string, x: string): string { ".../" + x + " [h:" + c.pathDigest(pre + "/" + x) + "]" }

  lemma LocationsAreNoVictims(c: Config, o: Options, path: string, masked: Json)
    ensures VictimMask(c, o, path, "location", masked) == masked
  {
    assert "location"[0] == 'l';
  }

  lemma LocationField(c: Config, o: Options, s: string)
    requires o.locations && !c.identity("location")
    ensures StringField(c, o, "", "location", s, false) == Leaf(c, o, ShortenLocation(c, s), false)
  {
    LocationsAreNoVictims(c, o, "", Leaf(c, o, ShortenLocation(c, s), false));
    assert !ForensicPath("") && !ForensicPath("location");
  }

  lemma LocationAnswer(c: Config, r: Request, pre: string, x: string)
    requires LocationsShow(c, r) && x != "" && '/' !in x && Untouched(c, r.opts, Shown(c, pre, x))
    ensures Redact(c, r, OneField("location", pre + "/" + x), "", false) == Ok(OneField("location", Shown(c, pre, x)))
  {
    var s := pre + "/" + x;
    LocationKeepsTail(c, pre, x);
    OneFieldWalked(c, r.opts, "", "location", s, s, false);
    LocationField(c, r.opts, s);
  }

  /** Two locations that layer 1 alone would make equal, and whose answers differ: each
      still holds the end of what layer 1 would have removed. */
  lemma LocationShowsSecret(c: Config, r: Request, pre: string, x: string, y: string)
    requires LocationsShow(c, r) && c.layers.strip(pre + "/" + x) == c.layers.strip(pre + "/" + y)
    requires x != "" && y != "" && '/' !in x && '/' !in y && x[|x| - 1] != y[|y| - 1]
    requires |c.pathDigest(pre + "/" + x)| == |c.pathDigest(pre + "/" + y)|
    requires Untouched(c, r.opts, Shown(c, pre, x)) && Untouched(c, r.opts, Shown(c, pre, y))
    ensures var a, b := OneField("location", pre + "/" + x), OneField("location", pre + "/" + y);
            && AlikeButSecrets(c, a, b, "") && Redact(c, r, a, "", false) != Redact(c, r, b, "", false)
            && Redact(c, r, a, "", false) == Ok(OneField("location", Shown(c, pre, x)))
    ensures !HidesSecrets(c, r)
  {
    LocationAnswer(c, r, pre, x);
    LocationAnswer(c, r, pre, y);
    TailsDiffer(x, y, c.pathDigest(pre + "/" + x), c.pathDigest(pre + "/" + y));
    OneFieldWalked(c, r.opts, "", "location", pre + "/" + x, pre + "/" + y, false);
    DifferentAnswers(c, r, OneField("location", pre + "/" + x), OneField("location", pre + "/" + y), "");
  }

  lemma DifferentAnswers(c: Config, r: Request, a: Json, b: Json, path: string)
    requires r.opts.policy != "raw" && AlikeButSecrets(c, a, b, path)
    requires Redact(c, r, a, path, false) != Redact(c, r, b, path, false)
    ensures !HidesSecrets(c, r)
  {
    assert AlikeButSecrets(c, a, b, StartOf(r, path));
  }

  lemma TailsDiffer(x: string, y: string, g: string, h: string)
    requires x != "" && y != "" && x[|x| - 1] != y[|y| - 1] && |g| == |h|
    ensures ".../" + x + " [h:" + g + "]" != ".../" + y + " [h:" + h + "]"
  {
    var s, t := ".../" + x + " [h:" + g + "]", ".../" + y + " [h:" + h + "]";
    assert s[3 + |x|] == x[|x| - 1] && t[3 + |y|] == y[|y| - 1];
  }

  /** The same at an identity path, where layer 1 never sees the value: its first and last
      characters show. */
  lemma IdentityShowsSecret(c: Config, r: Request, path: string, key: string, s: string, t: string)
    requires r.opts.policy != "raw" && !Refused(c, r) && IdentityMasked(c, r.opts, Child(path, key))
    requires !c.credential(Child(path, key)) && |s| > 1 && |t| > 1 && s[|s| - 1] != t[|t| - 1]
    requires c.layers.strip(s) == c.layers.strip(t)
    ensures AlikeButSecrets(c, OneField(key, s), OneField(key, t), path)
    ensures Redact(c, r, OneField(key, s), path, false) ==
            Ok(OneField(key, [s[0]] + "***" + [s[|s| - 1]] + " [h:" + c.userDigest(s) + "]"))
    ensures Redact(c, r, OneField(key, s), path, false) != Redact(c, r, OneField(key, t), path, false)
    ensures !HidesSecrets(c, r)
  {
    OneFieldWalked(c, r.opts, path, key, s, t, false);
    OneFieldWalked(c, r.opts, path, key, t, s, false);
    assert MaskUser(c, s)[4] == s[|s| - 1] && MaskUser(c, t)[4] == t[|t| - 1];
    DifferentAnswers(c, r, OneField(key, s), OneField(key, t), path);
  }

  /** The same of a domain, masked before layer 1 sees it: what the mask keeps shows. */
  lemma DomainShows(c: Config, r: Request, s: string, t: string)
    requires r.opts.policy != "raw" && !Refused(c, r) && DomainPair(c, r.opts, s, t)
    requires r.opts.domains
    ensures AlikeButSecrets(c, OneField("domain", s), OneField("domain", t), "")
    ensures Redact(c, r, OneField("domain", s), "", false) == Ok(OneField("domain", c.maskDomain(s)))
    ensures Redact(c, r, OneField("domain", s), "", false) != Redact(c, r, OneField("domain", t), "", false)
    ensures !HidesSecrets(c, r)
  {
    OneFieldWalked(c, r.opts, "", "domain", s, t, false);
    OneFieldWalked(c, r.opts, "", "domain", t, s, false);
    DomainField(c, r.opts, s);
    DomainField(c, r.opts, t);
    DifferentAnswers(c, r, OneField("domain", s), OneField("domain", t), "");
  }

  lemma DomainField(c: Config, o: Options, s: string)
    requires o.domains && !c.identity("domain") && c.shouldMaskDomain(s, o, c.world) && Untouched(c, o, c.maskDomain(s))
    ensures StringField(c, o, "", "domain", s, false) == Str(c.maskDomain(s))
  {
    assert "domain"[0] == 'd' && !ForensicPath("") && !ForensicPath("domain");
    assert "domain"[1] == 'o';
  }

  // ----- Which switches decide -----

  /** Two domains layer 1 cannot tell apart and the mask can. */
  ghost predicate DomainPair(c: Config, o: Options, s: string, t: string) {
    && !c.credential("domain") && !c.identity("domain")
    && c.layers.strip(s) == c.layers.strip(t) && c.maskDomain(s) != c.maskDomain(t)
    && c.shouldMaskDomain(s, o, c.world) && c.shouldMaskDomain(t, o, c.world)
    && Untouched(c, o, c.maskDomain(s)) && Untouched(c, o, c.maskDomain(t))
  }

  /** Two locations layer 1 cannot tell apart, with different ends. */
  ghost predicate LocationPair(c: Config, o: Options, pre: string, x: string, y: string) {
    && !c.credential("location") && !c.identity("location")
    && c.layers.strip(pre + "/" + x) == c.layers.strip(pre + "/" + y)
    && x != "" && y != "" && '/' !in x && '/' !in y && x[|x| - 1] != y[|y| - 1]
    && |c.pathDigest(pre + "/" + x)| == |c.pathDigest(pre + "/" + y)|
    && Untouched(c, o, Shown(c, pre, x)) && Untouched(c, o, Shown(c, pre, y))
  }

  /** Two values of an identity field layer 1 cannot tell apart, with different ends. */
  ghost predicate IdentityPair(c: Config, path: string, key: string, s: string, t: string) {
    && c.identity(Child(path, key)) && !c.credential(Child(path, key))
    && |s| > 1 && |t| > 1 && s[|s| - 1] != t[|t| - 1] && c.layers.strip(s) == c.layers.strip(t)
  }

  /** Layer 1 has something to remove from each kind of field that a switched-on mask rewrites:
      it makes some two values alike that the mask tells apart. */
  ghost predicate StripMerges(c: Config, o: Options) {
    && (o.domains ==> exists s, t :: DomainPair(c, o, s, t))
    && (o.locations ==> exists pre, x, y :: LocationPair(c, o, pre, x, y))
    && (IdentitiesFirst(o) ==> exists path, key, s, t :: IdentityPair(c, path, key, s, t))
  }

  lemma SwitchedOnShows(c: Config, r: Request)
    requires StripMerges(c, r.opts) && MasksFirst(r.opts) && r.opts.policy != "raw" && !Refused(c, r)
    ensures !HidesSecrets(c, r)
  {
    if r.opts.domains {
      var s, t :| DomainPair(c, r.opts, s, t);
      DomainShows(c, r, s, t);
    } else if r.opts.locations {
      var pre, x, y :| LocationPair(c, r.opts, pre, x, y);
      LocationShowsSecret(c, r, pre, x, y);
    } else {
      var path, key, s, t :| IdentityPair(c, path, key, s, t);
      IdentityShowsSecret(c, r, path, key, s, t);
    }
  }

  /** Where layer 1 has anything to remove from such fields, a request hides what it removes
      exactly when it is raw, or refused, or switches every mask that comes first off. */
  lemma SwitchesDecide(c: Config, r: Request)
    requires StripMerges(c, r.opts)
    ensures HidesSecrets(c, r) <==> r.opts.policy == "raw" || Refused(c, r) || !MasksFirst(r.opts)
  {
    if r.opts.policy == "raw" || Refused(c, r) {
      SecretsHiddenExactly(c, r);
    } else if MasksFirst(r.opts) {
      SwitchedOnShows(c, r);
    } else {
      NothingMaskedFirstHides(c, r);
    }
  }

  function StripPassword(s: string): string { if |s| >= 3 && s[0] == 'p' && s[1] == 'w' && s[2] == '=' then "" else s }

  function LastKept(s: string): string { if s == "" then s else "*." + s[|s| - 1..] }

  const QUIET: Layer := (data: string, o: Options, w: World) => None
  const RULES := Layers(StripPassword, QUIET, QUIET, QUIET, QUIET)

  /** One rule in layer 1, which takes out a password; the later layers leave all as it is. */
  const PASSWORD_RULE := Config(
    false, false, "", RULES, World({}, {}),
    p => false, p => p == "srcuser", p => false, v => "", v => "",
    LastKept, (v: string, o: Options, w: World) => true, v => false)

  lemma QuietLayers(o: Options, s: string)
    requires StripPassword(s) == s
    ensures Untouched(PASSWORD_RULE, o, s)
  {
    var k := Key(s, o.(forensicPayload := false));
    NoneThrough(Active(RULES, k.opts), QUIET, s, k.opts, PASSWORD_RULE.world);
    assert Chain(RULES)(k, PASSWORD_RULE.world) == s;
  }

  lemma PasswordDomains(o: Options, s: string, t: string)
    requires s == "pw=a" && t == "pw=b"
    ensures DomainPair(PASSWORD_RULE, o, s, t)
  {
    assert LastKept(s) == "*.a" && LastKept(t) == "*.b";
    QuietLayers(o, "*.a");
    QuietLayers(o, "*.b");
  }

  lemma PasswordLocations(o: Options)
    ensures LocationPair(PASSWORD_RULE, o, "pw=", "a", "b")
  {
    ShownStays(o, "a");
    ShownStays(o, "b");
  }

  lemma ShownStays(o: Options, x: string)
    ensures Untouched(PASSWORD_RULE, o, Shown(PASSWORD_RULE, "pw=", x))
  {
    assert Shown(PASSWORD_RULE, "pw=", x)[0] == '.';
    QuietLayers(o, Shown(PASSWORD_RULE, "pw=", x));
  }

  lemma PasswordIdentities(s: string, t: string)
    requires s == "pw=a" && t == "pw=b"
    ensures IdentityPair(PASSWORD_RULE, "", "srcuser", s, t)
  {
    assert StripPassword(s) == StripPassword(t) == "";
  }

  /** Such deployments exist: one rule in layer 1 is enough. */
  lemma PasswordRuleMerges(o: Options)
    ensures StripMerges(PASSWORD_RULE, o)
  {
    PasswordDomains(o, "pw=a", "pw=b");
    PasswordLocations(o);
    PasswordIdentities("pw=a", "pw=b");
  }

  lemma {:induction false} NoneThrough(layers: seq<Layer>, quiet: Layer, s: string, o: Options, w: World)
    requires (forall i :: 0 <= i < |layers| ==> layers[i] == quiet) && quiet(s, o, w) == None
    ensures Through(layers, s, o, w) == s
  {
    if layers != [] { NoneThrough(layers[..|layers| - 1], quiet, s, o, w); }
  }

  // A basic-auth header whose base64 text holds a slash.
  const HEADER := "Authorization: Basic dXNl"
  const TAIL := "cjpwYXNz"
  const OTHER_TAIL := "cjpwYXN0"

  /** Half of a header that layer 1 removes whole stays in the answer. */
  lemma HeaderTailShows(c: Config, r: Request)
    requires LocationsShow(c, r) && c.layers.strip(HEADER + "/" + TAIL) == c.layers.strip(HEADER + "/" + OTHER_TAIL)
    requires |c.pathDigest(HEADER + "/" + TAIL)| == |c.pathDigest(HEADER + "/" + OTHER_TAIL)| == 6
    requires Untouched(c, r.opts, Shown(c, HEADER, TAIL)) && Untouched(c, r.opts, Shown(c, HEADER, OTHER_TAIL))
    ensures Redact(c, r, OneField("location", HEADER + "/" + TAIL), "", false) == Ok(OneField("location", Shown(c, HEADER, TAIL)))
    ensures !HidesSecrets(c, r)
  {
    LocationShowsSecret(c, r, HEADER, TAIL, OTHER_TAIL);
  }
}
