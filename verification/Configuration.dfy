/**
 * The two loaders of one parameter map: build_config of the converter, which is
 * lenient, and load_parameters of the node, which rejects what it cannot use.
 */
module Configuration {
  import opened Common
  import opened ParamMaps
  import opened SignalRouting
  import opened SchemaTables
  import opened SignalPipeline

  type Params = map<Text, Yaml>

  datatype TransformConfig = TransformConfig(expression: Text, unit: Text)

  /** What the libraries make of their inputs at start-up: DBC files that load, and transforms that compile. */
  datatype Host = Host(loadsDbc: Text -> bool, compiles: map<Text, TransformConfig> -> bool)

  /** Settings of the node beyond the shared pipeline configuration. */
  datatype NodeSettings = NodeSettings(
    publishAll: bool, allSignalsTopic: Text, perDomain: bool, signalTimeoutMs: uint64, promoted: map<Text, Text>)

  /** What both pipelines are configured with. */
  datatype PipelineConfig = PipelineConfig(
    canTopic: Text, domains: seq<DomainConfig>, aliases: map<Text, Text>, transforms: map<Text, TransformConfig>,
    signalToDomain: map<Text, Text>, schemaTopics: map<Text, Text>, nameToId: map<Text, uint16>)

  datatype LoadError =
    | DeclaredTwice(key: Text)
    | BadType(key: Text)
    | NotPositive(key: Text)
    | DbcNotLoaded
    | TransformsNotCompiled
    | IdOutOfRange(domain: Text)
    | BadTables(error: TableError)

  const MAX_CAN_ID: int := 0x1FFF_FFFF

  // ---------- lenient access: anything unsuitable is replaced or skipped ----------

  function GetString(p: Params, key: Text, default: Text): Text {
    if key in p && p[key].Scalar? then p[key].text else default
  }

  function Texts(items: seq<Yaml>): seq<Text> {
    if items == [] then []
    else (if items[0].Scalar? then [items[0].text] else []) + Texts(items[1..])
  }

  function Numbers(items: seq<Yaml>): seq<int64> {
    if items == [] then []
    else (if items[0].Scalar? && items[0].number.Some? then [items[0].number.value] else []) + Numbers(items[1..])
  }

  function GetStrings(p: Params, key: Text): seq<Text> {
    if key in p && p[key].Sequence? then Texts(p[key].items) else []
  }

  function GetInts(p: Params, key: Text): seq<int64> {
    if key in p && p[key].Sequence? then Numbers(p[key].items) else []
  }

  // ---------- strict access: a value of the wrong type is an error ----------

  predicate TextOk(y: Yaml) {
    y.Scalar? && y.kind.Textual?
  }

  predicate NumberOk(y: Yaml) {
    y.Scalar? && y.kind.Integral? && y.number.Some?
  }

  predicate StringOk(p: Params, key: Text) {
    key in p ==> TextOk(p[key])
  }

  predicate IntOk(p: Params, key: Text) {
    key in p ==> NumberOk(p[key])
  }

  predicate BoolOk(p: Params, key: Text) {
    key in p ==> p[key].Scalar? && p[key].kind.Boolean?
  }

  predicate DoubleOk(p: Params, key: Text) {
    key in p ==> p[key].Scalar? && p[key].kind.Floating?
  }

  predicate StringsOk(p: Params, key: Text) {
    key in p ==> p[key].Sequence? && forall e | e in p[key].items :: TextOk(e)
  }

  predicate IntsOk(p: Params, key: Text) {
    key in p ==> p[key].Sequence? && forall e | e in p[key].items :: NumberOk(e)
  }

  /** Values that only the node reads, with their defaults. */
  function GetInt(p: Params, key: Text, default: int64): int64 {
    if key in p && NumberOk(p[key]) then p[key].number.value else default
  }

  function GetBool(p: Params, key: Text, default: bool): bool {
    if key in p && p[key].Scalar? && p[key].kind.Boolean? then p[key].kind.flag else default
  }

  const ONE: uint64 := 0x3FF0_0000_0000_0000

  function GetDouble(p: Params, key: Text, default: uint64): uint64 {
    if key in p && p[key].Scalar? && p[key].kind.Floating? then p[key].kind.bits else default
  }

  /** The comparison `<= 0.0` on the bits of a double: a zero, or negative and not a NaN. */
  predicate AtMostZero(bits: uint64) {
    var magnitude := bits % 0x8000_0000_0000_0000;
    magnitude <= 0x7FF0_0000_0000_0000 && (magnitude == 0 || bits >= 0x8000_0000_0000_0000)
  }

  // ---------- keys ----------

  function DomainTopicKey(name: Text): Text { Ascii("domains.") + name + Ascii(".topic") }
  function DomainIdsKey(name: Text): Text { Ascii("domains.") + name + Ascii(".can_ids") }
  function AliasKey(name: Text): Text { Ascii("aliases.") + name }
  function ExpressionKey(name: Text): Text { Ascii("transforms.") + name + Ascii(".expression") }
  function UnitKey(name: Text): Text { Ascii("transforms.") + name + Ascii(".unit") }
  function SchemaTopicKey(name: Text): Text { Ascii("schema.") + name + Ascii(".topic") }
  function SchemaSignalsKey(name: Text): Text { Ascii("schema.") + name + Ascii(".signals") }
  function PromotedKey(name: Text): Text { Ascii("promoted_signals.") + name + Ascii(".topic_suffix") }
  function PromotedTopic(suffix: Text): Text { Ascii("/vehicle/signals/") + suffix }
  function DefaultTopic(name: Text): Text { Ascii("/vehicle/") + name }

  const CAN_TOPIC: Text := Ascii("can_topic")
  const DEFAULT_CAN_TOPIC: Text := Ascii("/vehicle/from_can_bus")
  const DBC_FILE: Text := Ascii("dbc_file")
  const SIGNAL_TIMEOUT_MS: Text := Ascii("signal_timeout_ms")
  const PUBLISH_ALL_SIGNALS: Text := Ascii("publish_all_signals")
  const ALL_SIGNALS_TOPIC: Text := Ascii("all_signals_topic")
  const DEFAULT_ALL_SIGNALS_TOPIC: Text := Ascii("/vehicle/decoded_can")
  const DIAGNOSTICS_TOPIC: Text := Ascii("diagnostics_topic")
  const DIAGNOSTICS_RATE_HZ: Text := Ascii("diagnostics_rate_hz")
  const SCHEMA_PUBLISH_PER_DOMAIN: Text := Ascii("schema_publish_per_domain")
  const SCHEMA_REPUBLISH_INTERVAL_S: Text := Ascii("schema_republish_interval_s")
  const SCHEMA_VERSION: Text := Ascii("schema_version")
  const PROMOTED_SIGNAL_NAMES: Text := Ascii("promoted_signal_names")
  const DOMAIN_NAMES: Text := Ascii("domain_names")
  const ALIAS_NAMES: Text := Ascii("alias_names")
  const TRANSFORM_NAMES: Text := Ascii("transform_names")
  const SCHEMA_DOMAIN_NAMES: Text := Ascii("schema_domain_names")
  const SIGNAL_ID_NAMES: Text := Ascii("signal_id_names")
  const SIGNAL_ID_UNIT_NAMES: Text := Ascii("signal_id_unit_names")
  const UNIT_ID_NAMES: Text := Ascii("unit_id_names")

  // ---------- meaning of a parameter map; later entries of a list win ----------

  function IdSet(ids: seq<int64>): set<uint32> {
    if ids == [] then {} else IdSet(Init(ids)) + {Last(ids) % TWO_32}
  }

  function DomainOf(p: Params, name: Text): DomainConfig {
    DomainConfig(name, GetString(p, DomainTopicKey(name), DefaultTopic(name)), IdSet(GetInts(p, DomainIdsKey(name))))
  }

  function DomainsOf(p: Params, names: seq<Text>): seq<DomainConfig> {
    if names == [] then [] else DomainsOf(p, Init(names)) + [DomainOf(p, Last(names))]
  }

  function AliasesOf(p: Params, names: seq<Text>): map<Text, Text> {
    if names == [] then map[]
    else AliasesOf(p, Init(names))[Last(names) := GetString(p, AliasKey(Last(names)), Last(names))]
  }

  function TransformOf(p: Params, name: Text): TransformConfig {
    TransformConfig(GetString(p, ExpressionKey(name), []), GetString(p, UnitKey(name), []))
  }

  function TransformsOf(p: Params, names: seq<Text>): map<Text, TransformConfig> {
    if names == [] then map[] else TransformsOf(p, Init(names))[Last(names) := TransformOf(p, Last(names))]
  }

  function PromotedOf(p: Params, names: seq<Text>): map<Text, Text> {
    if names == [] then map[]
    else PromotedOf(p, Init(names))[Last(names) := PromotedTopic(GetString(p, PromotedKey(Last(names)), Last(names)))]
  }

  function SchemaTopicsOf(p: Params, names: seq<Text>): map<Text, Text> {
    if names == [] then map[]
    else SchemaTopicsOf(p, Init(names))[Last(names) := GetString(p, SchemaTopicKey(Last(names)), DefaultTopic(Last(names)))]
  }

  function RouteAll(routes: map<Text, Text>, signals: seq<Text>, domain: Text): map<Text, Text> {
    if signals == [] then routes else RouteAll(routes, Init(signals), domain)[Last(signals) := domain]
  }

  /** Each signal goes to the last schema domain that lists it. */
  function RoutesOf(p: Params, names: seq<Text>): map<Text, Text> {
    if names == [] then map[]
    else RouteAll(RoutesOf(p, Init(names)), GetStrings(p, SchemaSignalsKey(Last(names))), Last(names))
  }

  function SettingsOf(p: Params): NodeSettings {
    NodeSettings(
      GetBool(p, PUBLISH_ALL_SIGNALS, true),
      GetString(p, ALL_SIGNALS_TOPIC, DEFAULT_ALL_SIGNALS_TOPIC),
      GetBool(p, SCHEMA_PUBLISH_PER_DOMAIN, true),
      GetInt(p, SIGNAL_TIMEOUT_MS, 500) % TWO_64,
      PromotedOf(p, GetStrings(p, PROMOTED_SIGNAL_NAMES)))
  }

  function ConfigOf(p: Params): PipelineConfig
    requires |GetStrings(p, SIGNAL_ID_NAMES)| <= MAX_ENTRIES
  {
    PipelineConfig(
      GetString(p, CAN_TOPIC, DEFAULT_CAN_TOPIC),
      DomainsOf(p, GetStrings(p, DOMAIN_NAMES)),
      AliasesOf(p, GetStrings(p, ALIAS_NAMES)),
      TransformsOf(p, GetStrings(p, TRANSFORM_NAMES)),
      RoutesOf(p, GetStrings(p, SCHEMA_DOMAIN_NAMES)),
      SchemaTopicsOf(p, GetStrings(p, SCHEMA_DOMAIN_NAMES)),
      NameIds(GetStrings(p, SIGNAL_ID_NAMES)))
  }

  // ---------- the converter's loader ----------

  /** The inner loop over the ids of a domain, each cast to 32 bits. */
  method BuildIdSet(ids: seq<int64>) returns (canIds: set<uint32>)
    ensures canIds == IdSet(ids)
  {
    canIds := {};
    for j := 0 to |ids|
      invariant canIds == IdSet(ids[..j])
    {
      OneMore(ids, j);
      canIds := canIds + {ids[j] % TWO_32};
    }
    assert ids[..|ids|] == ids;
  }

  method BuildDomains(p: Params, names: seq<Text>) returns (domains: seq<DomainConfig>)
    ensures domains == DomainsOf(p, names)
  {
    domains := [];
    for i := 0 to |names|
      invariant domains == DomainsOf(p, names[..i])
    {
      OneMore(names, i);
      var topic := GetString(p, DomainTopicKey(names[i]), DefaultTopic(names[i]));
      var canIds := BuildIdSet(GetInts(p, DomainIdsKey(names[i])));
      domains := domains + [DomainConfig(names[i], topic, canIds)];
    }
    assert names[..|names|] == names;
  }

  method BuildAliases(p: Params, names: seq<Text>) returns (aliases: map<Text, Text>)
    ensures aliases == AliasesOf(p, names)
  {
    aliases := map[];
    for i := 0 to |names|
      invariant aliases == AliasesOf(p, names[..i])
    {
      OneMore(names, i);
      aliases := aliases[names[i] := GetString(p, AliasKey(names[i]), names[i])];
    }
    assert names[..|names|] == names;
  }

  method BuildTransforms(p: Params, names: seq<Text>) returns (transforms: map<Text, TransformConfig>)
    ensures transforms == TransformsOf(p, names)
  {
    transforms := map[];
    for i := 0 to |names|
      invariant transforms == TransformsOf(p, names[..i])
    {
      OneMore(names, i);
      var expression := GetString(p, ExpressionKey(names[i]), []);
      var unit := GetString(p, UnitKey(names[i]), []);
      transforms := transforms[names[i] := TransformConfig(expression, unit)];
    }
    assert names[..|names|] == names;
  }

  /** The inner loop of either loader: each listed signal goes to the domain. */
  method AssignAllTo(routes: map<Text, Text>, signals: seq<Text>, domain: Text) returns (all: map<Text, Text>)
    ensures all == RouteAll(routes, signals, domain)
  {
    all := routes;
    for j := 0 to |signals|
      invariant all == RouteAll(routes, signals[..j], domain)
    {
      OneMore(signals, j);
      all := all[signals[j] := domain];
    }
    assert signals[..|signals|] == signals;
  }

  method BuildSchema(p: Params, names: seq<Text>) returns (schemaTopics: map<Text, Text>, signalToDomain: map<Text, Text>)
    ensures schemaTopics == SchemaTopicsOf(p, names)
    ensures signalToDomain == RoutesOf(p, names)
  {
    schemaTopics := map[];
    signalToDomain := map[];
    for i := 0 to |names|
      invariant schemaTopics == SchemaTopicsOf(p, names[..i])
      invariant signalToDomain == RoutesOf(p, names[..i])
    {
      OneMore(names, i);
      schemaTopics := schemaTopics[names[i] := GetString(p, SchemaTopicKey(names[i]), DefaultTopic(names[i]))];
      var signals := GetStrings(p, SchemaSignalsKey(names[i]));
      signalToDomain := AssignAllTo(signalToDomain, signals, names[i]);
    }
    assert names[..|names|] == names;
  }

  method BuildIds(names: seq<Text>) returns (r: Result<map<Text, uint16>, TableError>)
    ensures r == if |names| > MAX_ENTRIES then Err(TooManySignals) else Ok(NameIds(names))
  {
    var nameToId: map<Text, uint16> := map[];
    for i := 0 to |names|
      invariant i <= MAX_ENTRIES && nameToId == NameIds(names[..i])
    {
      if i >= MAX_ENTRIES {
        return Err(TooManySignals);
      }
      OneMore(names, i);
      nameToId := nameToId[names[i] := (i + 1) % TWO_16];
    }
    assert names[..|names|] == names;
    return Ok(nameToId);
  }

  /** Fails only for more signal names than there are nonzero 16-bit ids. */
  method BuildConfig(p: Params) returns (r: Result<PipelineConfig, TableError>)
    ensures r == if |GetStrings(p, SIGNAL_ID_NAMES)| > MAX_ENTRIES then Err(TooManySignals) else Ok(ConfigOf(p))
  {
    var canTopic := GetString(p, CAN_TOPIC, DEFAULT_CAN_TOPIC);
    var domains := BuildDomains(p, GetStrings(p, DOMAIN_NAMES));
    var aliases := BuildAliases(p, GetStrings(p, ALIAS_NAMES));
    var transforms := BuildTransforms(p, GetStrings(p, TRANSFORM_NAMES));
    var schemaTopics, signalToDomain := BuildSchema(p, GetStrings(p, SCHEMA_DOMAIN_NAMES));
    var ids := BuildIds(GetStrings(p, SIGNAL_ID_NAMES));
    return if ids.Err? then Err(ids.error)
           else Ok(PipelineConfig(canTopic, domains, aliases, transforms, signalToDomain, schemaTopics, ids.value));
  }

  // ---------- the node's parameters, each declared once ----------

  /** The parameters of a node: overrides from its files, and the keys declared so far. */
  class ParameterServer {
    const overrides: Params
    var declared: set<Text>

    constructor (overrides: Params)
      ensures this.overrides == overrides && declared == {}
    {
      this.overrides := overrides;
      declared := {};
    }

    /** Declares and reads a string: an error if it is declared already or of another type. */
    method DeclareString(key: Text, default: Text) returns (r: Result<Text, LoadError>)
      modifies this
      ensures r.Ok? <==> key !in old(declared) && StringOk(overrides, key)
      ensures r.Ok? ==> r.value == GetString(overrides, key, default) && declared == old(declared) + {key}
    {
      if key in declared {
        return Err(DeclaredTwice(key));
      }
      declared := declared + {key};
      if key !in overrides {
        return Ok(default);
      }
      return if TextOk(overrides[key]) then Ok(overrides[key].text) else Err(BadType(key));
    }

    method DeclareStrings(key: Text) returns (r: Result<seq<Text>, LoadError>)
      modifies this
      ensures r.Ok? <==> key !in old(declared) && StringsOk(overrides, key)
      ensures r.Ok? ==> r.value == GetStrings(overrides, key) && declared == old(declared) + {key}
    {
      if key in declared {
        return Err(DeclaredTwice(key));
      }
      declared := declared + {key};
      return if StringsOk(overrides, key) then Ok(GetStrings(overrides, key)) else Err(BadType(key));
    }

    method DeclareInts(key: Text) returns (r: Result<seq<int64>, LoadError>)
      modifies this
      ensures r.Ok? <==> key !in old(declared) && IntsOk(overrides, key)
      ensures r.Ok? ==> r.value == GetInts(overrides, key) && declared == old(declared) + {key}
    {
      if key in declared {
        return Err(DeclaredTwice(key));
      }
      declared := declared + {key};
      return if IntsOk(overrides, key) then Ok(GetInts(overrides, key)) else Err(BadType(key));
    }
  }

  // ---------- which keys are declared ----------

  /** Keys built from different names differ. */
  ghost predicate Injective(key: Text -> Text) {
    forall n, m :: key(n) == key(m) ==> n == m
  }

  /** The keys of one kind that are declared are those of the names. */
  ghost predicate DeclaredFor(declared: set<Text>, key: Text -> Text, names: seq<Text>) {
    forall n :: key(n) in declared <==> n in names
  }

  lemma DeclareStep(declared: set<Text>, key: Text -> Text, names: seq<Text>, i: nat)
    requires i < |names| && Injective(key) && DeclaredFor(declared, key, names[..i]) && NoDuplicates(names[..i])
    ensures key(names[i]) in declared ==> !NoDuplicates(names)
    ensures key(names[i]) !in declared ==> NoDuplicates(names[..i + 1])
    ensures DeclaredFor(declared + {key(names[i])}, key, names[..i + 1])
  {
    assert names[..i + 1] == names[..i] + [names[i]];
    if names[i] in names[..i] {
      var j :| 0 <= j < i && names[j] == names[i];
    }
  }

  /** No key of the section that begins with c is declared. */
  ghost predicate Free(declared: set<Text>, c: byte) {
    forall k | k in declared :: !StartsWith(k, c)
  }

  /** The keys of one section do not stand in the way of others. */
  lemma SectionsLeaveFree(
      before: set<Text>, declared: set<Text>, key: Text -> Text, c: byte, names: seq<Text>, others: set<byte>)
    requires Section(before, declared, key, c, names) && c !in others
    requires forall d | d in others :: Free(before, d)
    ensures forall d | d in others :: Free(declared, d)
  {
  }

  /** A section of parameters with one kind of keys, all beginning with c, declared for the names. */
  ghost predicate Section(before: set<Text>, declared: set<Text>, key: Text -> Text, c: byte, names: seq<Text>) {
    && NoDuplicates(names) && DeclaredFor(declared, key, names)
    && (forall k | k in declared :: k in before || StartsWith(k, c))
  }

  lemma SectionStep(before: set<Text>, declared: set<Text>, key: Text -> Text, c: byte, names: seq<Text>, i: nat)
    requires i < |names| && Section(before, declared, key, c, names[..i])
    requires Injective(key) && StartsWith(key(names[i]), c)
    ensures key(names[i]) in declared ==> !NoDuplicates(names)
    ensures key(names[i]) !in declared ==> Section(before, declared + {key(names[i])}, key, c, names[..i + 1])
  {
    DeclareStep(declared, key, names, i);
  }

  /** A section with two kinds of keys. */
  ghost predicate Section2(
      before: set<Text>, declared: set<Text>, k: Text -> Text, l: Text -> Text, c: byte, names: seq<Text>)
  {
    Section(before, declared, k, c, names) && DeclaredFor(declared, l, names)
  }

  /** Keys of two kinds, all beginning with c, are different for different names and kinds. */
  ghost predicate Separate(k: Text -> Text, l: Text -> Text, c: byte) {
    && Injective(k) && Injective(l) && (forall n, m :: k(n) != l(m))
    && (forall n :: StartsWith(k(n), c)) && (forall n :: StartsWith(l(n), c))
  }

  lemma Section2Step(
      before: set<Text>, declared: set<Text>, k: Text -> Text, l: Text -> Text, c: byte, names: seq<Text>, i: nat)
    requires i < |names| && Separate(k, l, c) && Section2(before, declared, k, l, c, names[..i])
    ensures k(names[i]) in declared || l(names[i]) in declared ==> !NoDuplicates(names)
    ensures k(names[i]) !in declared && l(names[i]) !in declared ==>
              Section2(before, declared + {k(names[i])} + {l(names[i])}, k, l, c, names[..i + 1])
  {
    DeclareStep(declared, k, names, i);
    DeclareStep(declared, l, names, i);
  }

  /** Before a section none of its keys is declared. */
  lemma SectionStarts(declared: set<Text>, k: Text -> Text, l: Text -> Text, c: byte)
    requires Separate(k, l, c) && Free(declared, c)
    ensures Section2(declared, declared, k, l, c, [])
  {
  }

  /** Prefix and suffix in place, the middle of a key is free. */
  lemma MiddleIsFree(prefix: Text, n: Text, m: Text, suffix: Text)
    requires prefix + n + suffix == prefix + m + suffix
    ensures n == m
  {
    assert |n| == |m|;
    assert n == (prefix + n + suffix)[|prefix|..|prefix| + |n|];
    assert m == (prefix + m + suffix)[|prefix|..|prefix| + |m|];
  }

  predicate StartsWith(key: Text, c: byte) {
    key != [] && key[0] == c
  }

  const LETTER_A: byte := 97
  const LETTER_D: byte := 100
  const LETTER_P: byte := 112
  const LETTER_S: byte := 115
  const LETTER_T: byte := 116

  lemma KeysAreInjective(key: Text -> Text, prefix: Text, suffix: Text)
    requires forall n :: key(n) == prefix + n + suffix
    ensures Injective(key)
  {
    forall n, m | key(n) == key(m) ensures n == m {
      MiddleIsFree(prefix, n, m, suffix);
    }
  }

  /** Two kinds of keys with one prefix are told apart by the last bytes of their suffixes. */
  lemma KeysAreSeparate(k: Text -> Text, l: Text -> Text, prefix: Text, s: Text, t: Text, c: byte)
    requires forall n :: k(n) == prefix + n + s
    requires forall n :: l(n) == prefix + n + t
    requires StartsWith(prefix, c) && s != [] && t != [] && Last(s) != Last(t)
    ensures Separate(k, l, c)
  {
    KeysAreInjective(k, prefix, s);
    KeysAreInjective(l, prefix, t);
    forall n, m ensures k(n) != l(m) {
      assert Last(prefix + n + s) == Last(s) && Last(prefix + m + t) == Last(t);
    }
  }

  lemma DomainKeys()
    ensures Separate(DomainTopicKey, DomainIdsKey, LETTER_D)
  {
    KeysAreSeparate(DomainTopicKey, DomainIdsKey, Ascii("domains."), Ascii(".topic"), Ascii(".can_ids"), LETTER_D);
  }

  lemma AliasKeys()
    ensures Injective(AliasKey)
    ensures forall n :: StartsWith(AliasKey(n), LETTER_A)
  {
    forall n ensures AliasKey(n) == Ascii("aliases.") + n + [] {}
    KeysAreInjective(AliasKey, Ascii("aliases."), []);
  }

  lemma TransformKeys()
    ensures Separate(ExpressionKey, UnitKey, LETTER_T)
  {
    KeysAreSeparate(ExpressionKey, UnitKey, Ascii("transforms."), Ascii(".expression"), Ascii(".unit"), LETTER_T);
  }

  lemma PromotedKeys()
    ensures Injective(PromotedKey)
    ensures forall n :: StartsWith(PromotedKey(n), LETTER_P)
  {
    KeysAreInjective(PromotedKey, Ascii("promoted_signals."), Ascii(".topic_suffix"));
  }

  lemma SchemaKeys()
    ensures Separate(SchemaTopicKey, SchemaSignalsKey, LETTER_S)
  {
    KeysAreSeparate(SchemaTopicKey, SchemaSignalsKey, Ascii("schema."), Ascii(".topic"), Ascii(".signals"), LETTER_S);
  }

  // ---------- the node's loader ----------

  predicate InRange(ids: seq<int64>) {
    forall i | 0 <= i < |ids| :: 0 <= ids[i] <= MAX_CAN_ID
  }

  predicate DomainOk(p: Params, name: Text) {
    StringOk(p, DomainTopicKey(name)) && IntsOk(p, DomainIdsKey(name)) && InRange(GetInts(p, DomainIdsKey(name)))
  }

  method LoadIds(domain: Text, ids: seq<int64>) returns (r: Result<set<uint32>, LoadError>)
    ensures r == if InRange(ids) then Ok(IdSet(ids)) else Err(IdOutOfRange(domain))
  {
    var canIds: set<uint32> := {};
    for j := 0 to |ids|
      invariant InRange(ids[..j]) && canIds == IdSet(ids[..j])
    {
      OneMore(ids, j);
      if ids[j] < 0 || ids[j] > MAX_CAN_ID {
        return Err(IdOutOfRange(domain));
      }
      canIds := canIds + {ids[j]};
    }
    assert ids[..|ids|] == ids;
    return Ok(canIds);
  }

  /** One domain: two declarations, then the ids in range. */
  method LoadDomain(server: ParameterServer, name: Text) returns (r: Result<DomainConfig, LoadError>)
    requires DomainTopicKey(name) != DomainIdsKey(name)
    modifies server
    ensures r.Ok? <==> DomainTopicKey(name) !in old(server.declared) && DomainIdsKey(name) !in old(server.declared) &&
                       DomainOk(server.overrides, name)
    ensures r.Ok? ==> r.value == DomainOf(server.overrides, name)
    ensures r.Ok? ==> server.declared == old(server.declared) + {DomainTopicKey(name)} + {DomainIdsKey(name)}
  {
    var topic := server.DeclareString(DomainTopicKey(name), DefaultTopic(name));
    if topic.Err? {
      return Err(topic.error);
    }
    var ids := server.DeclareInts(DomainIdsKey(name));
    if ids.Err? {
      return Err(ids.error);
    }
    var canIds := LoadIds(name, ids.value);
    if canIds.Err? {
      return Err(canIds.error);
    }
    return Ok(DomainConfig(name, topic.value, canIds.value));
  }

  predicate DomainsOk(p: Params, names: seq<Text>) {
    forall n | n in names :: DomainOk(p, n)
  }

  method LoadDomains(server: ParameterServer, names: seq<Text>) returns (r: Result<seq<DomainConfig>, LoadError>)
    requires Free(server.declared, LETTER_D)
    modifies server
    ensures r.Ok? <==> NoDuplicates(names) && DomainsOk(server.overrides, names)
    ensures r.Ok? ==> r.value == DomainsOf(server.overrides, names)
    ensures r.Ok? ==> Section2(old(server.declared), server.declared, DomainTopicKey, DomainIdsKey, LETTER_D, names)
  {
    var domains: seq<DomainConfig> := [];
    DomainKeys();
    SectionStarts(server.declared, DomainTopicKey, DomainIdsKey, LETTER_D);
    for i := 0 to |names|
      invariant domains == DomainsOf(server.overrides, names[..i]) && DomainsOk(server.overrides, names[..i])
      invariant Section2(old(server.declared), server.declared, DomainTopicKey, DomainIdsKey, LETTER_D, names[..i])
    {
      OneMore(names, i);
      Section2Step(old(server.declared), server.declared, DomainTopicKey, DomainIdsKey, LETTER_D, names, i);
      var domain := LoadDomain(server, names[i]);
      if domain.Err? {
        return Err(domain.error);
      }
      domains := domains + [domain.value];
    }
    assert names[..|names|] == names;
    return Ok(domains);
  }

  predicate AliasesOk(p: Params, names: seq<Text>) {
    forall n | n in names :: StringOk(p, AliasKey(n))
  }

  method LoadAliases(server: ParameterServer, names: seq<Text>) returns (r: Result<map<Text, Text>, LoadError>)
    requires Free(server.declared, LETTER_A)
    modifies server
    ensures r.Ok? <==> NoDuplicates(names) && AliasesOk(server.overrides, names)
    ensures r.Ok? ==> r.value == AliasesOf(server.overrides, names)
    ensures r.Ok? ==> Section(old(server.declared), server.declared, AliasKey, LETTER_A, names)
  {
    var aliases: map<Text, Text> := map[];
    AliasKeys();
    for i := 0 to |names|
      invariant aliases == AliasesOf(server.overrides, names[..i]) && AliasesOk(server.overrides, names[..i])
      invariant Section(old(server.declared), server.declared, AliasKey, LETTER_A, names[..i])
    {
      OneMore(names, i);
      SectionStep(old(server.declared), server.declared, AliasKey, LETTER_A, names, i);
      var alias := server.DeclareString(AliasKey(names[i]), names[i]);
      if alias.Err? {
        return Err(alias.error);
      }
      aliases := aliases[names[i] := alias.value];
    }
    assert names[..|names|] == names;
    return Ok(aliases);
  }

  predicate TransformOk(p: Params, name: Text) {
    StringOk(p, ExpressionKey(name)) && StringOk(p, UnitKey(name))
  }

  method LoadTransform(server: ParameterServer, name: Text) returns (r: Result<TransformConfig, LoadError>)
    requires ExpressionKey(name) != UnitKey(name)
    modifies server
    ensures r.Ok? <==> ExpressionKey(name) !in old(server.declared) && UnitKey(name) !in old(server.declared) &&
                       TransformOk(server.overrides, name)
    ensures r.Ok? ==> r.value == TransformOf(server.overrides, name)
    ensures r.Ok? ==> server.declared == old(server.declared) + {ExpressionKey(name)} + {UnitKey(name)}
  {
    var expression := server.DeclareString(ExpressionKey(name), []);
    if expression.Err? {
      return Err(expression.error);
    }
    var unit := server.DeclareString(UnitKey(name), []);
    if unit.Err? {
      return Err(unit.error);
    }
    return Ok(TransformConfig(expression.value, unit.value));
  }

  predicate TransformsOk(p: Params, names: seq<Text>) {
    forall n | n in names :: TransformOk(p, n)
  }

  method LoadTransforms(server: ParameterServer, names: seq<Text>)
    returns (r: Result<map<Text, TransformConfig>, LoadError>)
    requires Free(server.declared, LETTER_T)
    modifies server
    ensures r.Ok? <==> NoDuplicates(names) && TransformsOk(server.overrides, names)
    ensures r.Ok? ==> r.value == TransformsOf(server.overrides, names)
    ensures r.Ok? ==> Section2(old(server.declared), server.declared, ExpressionKey, UnitKey, LETTER_T, names)
  {
    var transforms: map<Text, TransformConfig> := map[];
    TransformKeys();
    SectionStarts(server.declared, ExpressionKey, UnitKey, LETTER_T);
    for i := 0 to |names|
      invariant transforms == TransformsOf(server.overrides, names[..i]) && TransformsOk(server.overrides, names[..i])
      invariant Section2(old(server.declared), server.declared, ExpressionKey, UnitKey, LETTER_T, names[..i])
    {
      OneMore(names, i);
      Section2Step(old(server.declared), server.declared, ExpressionKey, UnitKey, LETTER_T, names, i);
      var transform := LoadTransform(server, names[i]);
      if transform.Err? {
        return Err(transform.error);
      }
      transforms := transforms[names[i] := transform.value];
    }
    assert names[..|names|] == names;
    return Ok(transforms);
  }

  predicate PromotedOk(p: Params, names: seq<Text>) {
    forall n | n in names :: StringOk(p, PromotedKey(n))
  }

  method LoadPromoted(server: ParameterServer, names: seq<Text>) returns (r: Result<map<Text, Text>, LoadError>)
    requires Free(server.declared, LETTER_P)
    modifies server
    ensures r.Ok? <==> NoDuplicates(names) && PromotedOk(server.overrides, names)
    ensures r.Ok? ==> r.value == PromotedOf(server.overrides, names)
    ensures r.Ok? ==> Section(old(server.declared), server.declared, PromotedKey, LETTER_P, names)
  {
    var promoted: map<Text, Text> := map[];
    PromotedKeys();
    for i := 0 to |names|
      invariant promoted == PromotedOf(server.overrides, names[..i]) && PromotedOk(server.overrides, names[..i])
      invariant Section(old(server.declared), server.declared, PromotedKey, LETTER_P, names[..i])
    {
      OneMore(names, i);
      SectionStep(old(server.declared), server.declared, PromotedKey, LETTER_P, names, i);
      var suffix := server.DeclareString(PromotedKey(names[i]), names[i]);
      if suffix.Err? {
        return Err(suffix.error);
      }
      promoted := promoted[names[i] := PromotedTopic(suffix.value)];
    }
    assert names[..|names|] == names;
    return Ok(promoted);
  }

  predicate SchemaDomainOk(p: Params, name: Text) {
    StringOk(p, SchemaTopicKey(name)) && StringsOk(p, SchemaSignalsKey(name))
  }

  method LoadSchemaDomain(server: ParameterServer, name: Text) returns (r: Result<(Text, seq<Text>), LoadError>)
    requires SchemaTopicKey(name) != SchemaSignalsKey(name)
    modifies server
    ensures r.Ok? <==> SchemaTopicKey(name) !in old(server.declared) && SchemaSignalsKey(name) !in old(server.declared) &&
                       SchemaDomainOk(server.overrides, name)
    ensures r.Ok? ==> r.value.0 == GetString(server.overrides, SchemaTopicKey(name), DefaultTopic(name))
    ensures r.Ok? ==> r.value.1 == GetStrings(server.overrides, SchemaSignalsKey(name))
    ensures r.Ok? ==> server.declared == old(server.declared) + {SchemaTopicKey(name)} + {SchemaSignalsKey(name)}
  {
    var topic := server.DeclareString(SchemaTopicKey(name), DefaultTopic(name));
    if topic.Err? {
      return Err(topic.error);
    }
    var signals := server.DeclareStrings(SchemaSignalsKey(name));
    if signals.Err? {
      return Err(signals.error);
    }
    return Ok((topic.value, signals.value));
  }

  predicate SchemaOk(p: Params, names: seq<Text>) {
    forall n | n in names :: SchemaDomainOk(p, n)
  }

  method LoadSchema(server: ParameterServer, names: seq<Text>)
    returns (r: Result<(map<Text, Text>, map<Text, Text>), LoadError>)
    requires Free(server.declared, LETTER_S)
    modifies server
    ensures r.Ok? <==> NoDuplicates(names) && SchemaOk(server.overrides, names)
    ensures r.Ok? ==> r.value == (SchemaTopicsOf(server.overrides, names), RoutesOf(server.overrides, names))
  {
    var topics: map<Text, Text> := map[];
    var routes: map<Text, Text> := map[];
    SchemaKeys();
    SectionStarts(server.declared, SchemaTopicKey, SchemaSignalsKey, LETTER_S);
    for i := 0 to |names|
      invariant topics == SchemaTopicsOf(server.overrides, names[..i])
      invariant routes == RoutesOf(server.overrides, names[..i]) && SchemaOk(server.overrides, names[..i])
      invariant Section2(old(server.declared), server.declared, SchemaTopicKey, SchemaSignalsKey, LETTER_S, names[..i])
    {
      OneMore(names, i);
      Section2Step(old(server.declared), server.declared, SchemaTopicKey, SchemaSignalsKey, LETTER_S, names, i);
      var domain := LoadSchemaDomain(server, names[i]);
      if domain.Err? {
        return Err(domain.error);
      }
      topics := topics[names[i] := domain.value.0];
      routes := AssignAllTo(routes, domain.value.1, names[i]);
    }
    assert names[..|names|] == names;
    return Ok((topics, routes));
  }

  // ---------- parameters of fixed names, which hold no dot and are declared once each ----------

  datatype ParameterType = AString | AnInt | ABool | ADouble | Strings

  const FIXED: seq<(Text, ParameterType)> := [
    (CAN_TOPIC, AString), (DBC_FILE, AString), (SIGNAL_TIMEOUT_MS, AnInt), (PUBLISH_ALL_SIGNALS, ABool),
    (ALL_SIGNALS_TOPIC, AString), (DIAGNOSTICS_TOPIC, AString), (DIAGNOSTICS_RATE_HZ, ADouble),
    (SCHEMA_DOMAIN_NAMES, Strings), (SCHEMA_PUBLISH_PER_DOMAIN, ABool), (SCHEMA_REPUBLISH_INTERVAL_S, ADouble),
    (SCHEMA_VERSION, AString), (SIGNAL_ID_NAMES, Strings), (SIGNAL_ID_UNIT_NAMES, Strings), (UNIT_ID_NAMES, Strings),
    (DOMAIN_NAMES, Strings), (ALIAS_NAMES, Strings), (TRANSFORM_NAMES, Strings), (PROMOTED_SIGNAL_NAMES, Strings)]

  predicate HasType(p: Params, key: Text, t: ParameterType) {
    match t
    case AString => StringOk(p, key)
    case AnInt => IntOk(p, key)
    case ABool => BoolOk(p, key)
    case ADouble => DoubleOk(p, key)
    case Strings => StringsOk(p, key)
  }

  predicate AllTyped(p: Params, fixed: seq<(Text, ParameterType)>) {
    forall f | f in fixed :: HasType(p, f.0, f.1)
  }

  /** The first parameter with a value of another type. */
  method FirstMistyped(p: Params, fixed: seq<(Text, ParameterType)>) returns (r: Option<Text>)
    ensures r.None? <==> AllTyped(p, fixed)
    ensures r.Some? ==> exists f | f in fixed :: f.0 == r.value && !HasType(p, f.0, f.1)
  {
    for i := 0 to |fixed|
      invariant AllTyped(p, fixed[..i])
    {
      assert fixed[..i + 1] == fixed[..i] + [fixed[i]];
      if !HasType(p, fixed[i].0, fixed[i].1) {
        assert fixed[i] in fixed;
        return Some(fixed[i].0);
      }
    }
    assert fixed[..|fixed|] == fixed;
    return None;
  }

  /** Rates and timeout are positive, and there is a DBC file that loads. */
  predicate SettingsOk(host: Host, p: Params) {
    && !AtMostZero(GetDouble(p, DIAGNOSTICS_RATE_HZ, ONE))
    && GetInt(p, SIGNAL_TIMEOUT_MS, 500) > 0
    && !AtMostZero(GetDouble(p, SCHEMA_REPUBLISH_INTERVAL_S, ONE))
    && GetString(p, DBC_FILE, []) != [] && host.loadsDbc(GetString(p, DBC_FILE, []))
  }

  method CheckSettings(host: Host, p: Params) returns (r: Option<LoadError>)
    ensures r.None? <==> AllTyped(p, FIXED) && SettingsOk(host, p)
  {
    var mistyped := FirstMistyped(p, FIXED);
    if mistyped.Some? {
      return Some(BadType(mistyped.value));
    }
    if AtMostZero(GetDouble(p, DIAGNOSTICS_RATE_HZ, ONE)) {
      return Some(NotPositive(DIAGNOSTICS_RATE_HZ));
    }
    if GetInt(p, SIGNAL_TIMEOUT_MS, 500) <= 0 {
      return Some(NotPositive(SIGNAL_TIMEOUT_MS));
    }
    if AtMostZero(GetDouble(p, SCHEMA_REPUBLISH_INTERVAL_S, ONE)) {
      return Some(NotPositive(SCHEMA_REPUBLISH_INTERVAL_S));
    }
    var dbc := GetString(p, DBC_FILE, []);
    if dbc == [] || !host.loadsDbc(dbc) {
      return Some(DbcNotLoaded);
    }
    return None;
  }

  // ---------- all of load_parameters ----------

  predicate TablesOk(signalNames: seq<Text>, signalUnits: seq<Text>, unitNames: seq<Text>) {
    && (signalNames != [] ==> |signalUnits| == |signalNames|)
    && |unitNames| <= MAX_ENTRIES && |signalNames| <= MAX_ENTRIES
  }

  ghost predicate RoutingOk(host: Host, p: Params) {
    var domains, aliases := GetStrings(p, DOMAIN_NAMES), GetStrings(p, ALIAS_NAMES);
    var transforms := GetStrings(p, TRANSFORM_NAMES);
    && NoDuplicates(domains) && DomainsOk(p, domains)
    && NoDuplicates(aliases) && AliasesOk(p, aliases)
    && NoDuplicates(transforms) && TransformsOk(p, transforms) && host.compiles(TransformsOf(p, transforms))
  }

  /**
   * The parameter maps the node accepts: proper types and settings, ids in range, no
   * name listed twice in a section, transforms that compile, and fitting ID lists.
   */
  ghost predicate NodeAccepts(host: Host, p: Params) {
    var promoted, schema := GetStrings(p, PROMOTED_SIGNAL_NAMES), GetStrings(p, SCHEMA_DOMAIN_NAMES);
    && AllTyped(p, FIXED) && SettingsOk(host, p) && RoutingOk(host, p)
    && NoDuplicates(promoted) && PromotedOk(p, promoted)
    && NoDuplicates(schema) && SchemaOk(p, schema)
    && TablesOk(GetStrings(p, SIGNAL_ID_NAMES), GetStrings(p, SIGNAL_ID_UNIT_NAMES), GetStrings(p, UNIT_ID_NAMES))
  }

  /** The tables behind a parameter map the node accepts. */
  function TablesOfParams(signalNames: seq<Text>, signalUnits: seq<Text>, unitNames: seq<Text>): IdTables
    requires TablesOk(signalNames, signalUnits, unitNames)
  {
    IdTables(NameIds(signalNames), UnitIds(if signalNames == [] then [] else signalUnits, unitNames), unitNames)
  }

  /** What the node is made from. */
  datatype Loaded = Loaded(config: PipelineConfig, tables: IdTables, settings: NodeSettings)

  /** The sections that lead up to the transforms. */
  method LoadRouting(host: Host, server: ParameterServer)
    returns (r: Result<(seq<DomainConfig>, map<Text, Text>, map<Text, TransformConfig>), LoadError>)
    requires server.declared == {}
    modifies server
    ensures r.Ok? <==> RoutingOk(host, server.overrides)
    ensures r.Ok? ==>
              var p := server.overrides;
              r.value == (DomainsOf(p, GetStrings(p, DOMAIN_NAMES)), AliasesOf(p, GetStrings(p, ALIAS_NAMES)),
                          TransformsOf(p, GetStrings(p, TRANSFORM_NAMES)))
    ensures r.Ok? ==> Free(server.declared, LETTER_P) && Free(server.declared, LETTER_S)
  {
    var p := server.overrides;
    var domains := LoadDomains(server, GetStrings(p, DOMAIN_NAMES));
    if domains.Err? {
      return Err(domains.error);
    }
    ghost var d1 := server.declared;
    SectionsLeaveFree({}, d1, DomainTopicKey, LETTER_D, GetStrings(p, DOMAIN_NAMES),
                      {LETTER_A, LETTER_T, LETTER_P, LETTER_S});
    var aliases := LoadAliases(server, GetStrings(p, ALIAS_NAMES));
    if aliases.Err? {
      return Err(aliases.error);
    }
    ghost var d2 := server.declared;
    SectionsLeaveFree(d1, d2, AliasKey, LETTER_A, GetStrings(p, ALIAS_NAMES), {LETTER_T, LETTER_P, LETTER_S});
    var transforms := LoadTransforms(server, GetStrings(p, TRANSFORM_NAMES));
    if transforms.Err? {
      return Err(transforms.error);
    }
    SectionsLeaveFree(d2, server.declared, ExpressionKey, LETTER_T, GetStrings(p, TRANSFORM_NAMES), {LETTER_P, LETTER_S});
    if !host.compiles(transforms.value) {
      return Err(TransformsNotCompiled);
    }
    return Ok((domains.value, aliases.value, transforms.value));
  }

  /** The sections of lists: domains, aliases, transforms, promoted signals and the schema. */
  method LoadSections(host: Host, p: Params) returns (r: Result<Loaded, LoadError>)
    requires AllTyped(p, FIXED) && SettingsOk(host, p)
    ensures r.Ok? <==> NodeAccepts(host, p)
    ensures r.Ok? ==> r.value.config == ConfigOf(p) && r.value.settings == SettingsOf(p)
    ensures r.Ok? ==>
              r.value.tables == TablesOfParams(GetStrings(p, SIGNAL_ID_NAMES), GetStrings(p, SIGNAL_ID_UNIT_NAMES),
                                               GetStrings(p, UNIT_ID_NAMES))
  {
    var server := new ParameterServer(p);
    var routing := LoadRouting(host, server);
    if routing.Err? {
      return Err(routing.error);
    }
    ghost var before := server.declared;
    var promoted := LoadPromoted(server, GetStrings(p, PROMOTED_SIGNAL_NAMES));
    if promoted.Err? {
      return Err(promoted.error);
    }
    SectionsLeaveFree(before, server.declared, PromotedKey, LETTER_P, GetStrings(p, PROMOTED_SIGNAL_NAMES), {LETTER_S});
    var schema := LoadSchema(server, GetStrings(p, SCHEMA_DOMAIN_NAMES));
    if schema.Err? {
      return Err(schema.error);
    }
    var tables := LoadIdTables(
      GetStrings(p, SIGNAL_ID_NAMES), GetStrings(p, SIGNAL_ID_UNIT_NAMES), GetStrings(p, UNIT_ID_NAMES));
    if tables.Err? {
      return Err(BadTables(tables.error));
    }
    var config := PipelineConfig(
      GetString(p, CAN_TOPIC, DEFAULT_CAN_TOPIC), routing.value.0, routing.value.1, routing.value.2,
      schema.value.1, schema.value.0, tables.value.nameToId);
    var settings := NodeSettings(
      GetBool(p, PUBLISH_ALL_SIGNALS, true), GetString(p, ALL_SIGNALS_TOPIC, DEFAULT_ALL_SIGNALS_TOPIC),
      GetBool(p, SCHEMA_PUBLISH_PER_DOMAIN, true), GetInt(p, SIGNAL_TIMEOUT_MS, 500) % TWO_64, promoted.value);
    return Ok(Loaded(config, tables.value, settings));
  }

  /**
   * The node starts exactly with the maps it accepts, and is then configured
   * with what the converter reads from the same map.
   */
  method LoadParameters(host: Host, p: Params) returns (r: Result<Loaded, LoadError>)
    ensures r.Ok? <==> NodeAccepts(host, p)
    ensures r.Ok? ==> r.value.config == ConfigOf(p) && r.value.settings == SettingsOf(p)
    ensures r.Ok? ==>
              r.value.tables == TablesOfParams(GetStrings(p, SIGNAL_ID_NAMES), GetStrings(p, SIGNAL_ID_UNIT_NAMES),
                                               GetStrings(p, UNIT_ID_NAMES))
  {
    var rejected := CheckSettings(host, p);
    if rejected.Some? {
      return Err(rejected.value);
    }
    r := LoadSections(host, p);
  }

  // ---------- what the loaders establish ----------

  /** Where the strict types hold, lenient access skips nothing. */
  lemma {:induction false} NothingSkipped(items: seq<Yaml>)
    ensures (forall e | e in items :: e.Scalar?) ==>
              |Texts(items)| == |items| && forall i | 0 <= i < |items| :: Texts(items)[i] == items[i].text
    ensures (forall e | e in items :: e.Scalar? && e.number.Some?) ==>
              |Numbers(items)| == |items| && forall i | 0 <= i < |items| :: Numbers(items)[i] == items[i].number.value
  {
    if items != [] {
      NothingSkipped(items[1..]);
      assert items[0] in items && forall e | e in items[1..] :: e in items;
    }
  }

  /** The domains are those of the list, in its order. */
  lemma {:induction false} DomainsInOrder(p: Params, names: seq<Text>, i: nat)
    requires i < |names|
    ensures |DomainsOf(p, names)| == |names| && DomainsOf(p, names)[i] == DomainOf(p, names[i])
  {
    var before := DomainsOf(p, Init(names));
    assert DomainsOf(p, names) == before + [DomainOf(p, Last(names))];
    if |names| > 1 {
      DomainsInOrder(p, Init(names), if i < |names| - 1 then i else 0);
    }
  }

  /** Each map has an entry exactly for the listed names, with the value of the name's own parameters. */
  lemma {:induction false} EntriesOfListedNames(p: Params, names: seq<Text>, n: Text)
    ensures Lookup(AliasesOf(p, names), n) == if n in names then Some(GetString(p, AliasKey(n), n)) else None
    ensures Lookup(TransformsOf(p, names), n) == if n in names then Some(TransformOf(p, n)) else None
    ensures Lookup(SchemaTopicsOf(p, names), n) ==
            if n in names then Some(GetString(p, SchemaTopicKey(n), DefaultTopic(n))) else None
  {
    if names != [] {
      EntriesOfListedNames(p, Init(names), n);
      assert names == Init(names) + [Last(names)];
    }
  }

  lemma {:induction false} RouteAllDomains(routes: map<Text, Text>, signals: seq<Text>, domain: Text)
    ensures var all := RouteAll(routes, signals, domain);
      forall s | s in all :: all[s] == domain || (s in routes && all[s] == routes[s])
  {
    if signals != [] {
      RouteAllDomains(routes, Init(signals), domain);
    }
  }

  /** Every routed signal goes to a schema domain, which has a topic. */
  lemma {:induction false} RoutesAreClosed(p: Params, names: seq<Text>)
    ensures SchemaClosed(RoutesOf(p, names), SchemaTopicsOf(p, names))
  {
    if names != [] {
      RoutesAreClosed(p, Init(names));
      RouteAllDomains(RoutesOf(p, Init(names)), GetStrings(p, SchemaSignalsKey(Last(names))), Last(names));
    }
  }

  /** The k-th schema domain is the last one that lists the signal. */
  ghost predicate LastSchemaLister(p: Params, names: seq<Text>, signal: Text, k: nat) {
    && k < |names| && signal in GetStrings(p, SchemaSignalsKey(names[k]))
    && forall j | k < j < |names| :: signal !in GetStrings(p, SchemaSignalsKey(names[j]))
  }

  lemma {:induction false} RouteAllContains(routes: map<Text, Text>, signals: seq<Text>, domain: Text, s: Text)
    ensures Lookup(RouteAll(routes, signals, domain), s) == if s in signals then Some(domain) else Lookup(routes, s)
  {
    if signals != [] {
      RouteAllContains(routes, Init(signals), domain, s);
      assert signals == Init(signals) + [Last(signals)];
    }
  }

  lemma {:induction false} RouteIsLastLister(p: Params, names: seq<Text>, signal: Text, k: nat)
    requires LastSchemaLister(p, names, signal, k)
    ensures Lookup(RoutesOf(p, names), signal) == Some(names[k])
  {
    RouteAllContains(RoutesOf(p, Init(names)), GetStrings(p, SchemaSignalsKey(Last(names))), Last(names), signal);
    if k < |names| - 1 {
      assert forall j | 0 <= j < |names| - 1 :: Init(names)[j] == names[j];
      RouteIsLastLister(p, Init(names), signal, k);
    }
  }

  /** A listed signal goes to the last schema domain listing it, whatever its CAN id. */
  lemma {:induction false} SchemaRoutesByName(p: Params, router: RoutingTables, rawName: Text, id: uint32, k: nat)
    requires LastSchemaLister(p, GetStrings(p, SCHEMA_DOMAIN_NAMES), ResolveName(rawName, id, router), k)
    ensures ResolveSignal(rawName, id, router, RoutesOf(p, GetStrings(p, SCHEMA_DOMAIN_NAMES))).domain ==
            GetStrings(p, SCHEMA_DOMAIN_NAMES)[k]
  {
    RouteIsLastLister(p, GetStrings(p, SCHEMA_DOMAIN_NAMES), ResolveName(rawName, id, router), k);
  }

  lemma {:induction false} ListerOfMore(p: Params, names: seq<Text>, signal: Text, k: nat)
    requires names != [] && LastSchemaLister(p, Init(names), signal, k)
    requires signal !in GetStrings(p, SchemaSignalsKey(Last(names)))
    ensures LastSchemaLister(p, names, signal, k)
  {
    forall j | k < j < |names| ensures signal !in GetStrings(p, SchemaSignalsKey(names[j])) {
      assert j < |names| - 1 ==> Init(names)[j] == names[j];
    }
  }

  lemma {:induction false} ListedHasLastSchemaLister(p: Params, names: seq<Text>, signal: Text) returns (k: nat)
    requires signal in RoutesOf(p, names)
    ensures LastSchemaLister(p, names, signal, k)
  {
    RouteAllContains(RoutesOf(p, Init(names)), GetStrings(p, SchemaSignalsKey(Last(names))), Last(names), signal);
    if signal in GetStrings(p, SchemaSignalsKey(Last(names))) {
      k := |names| - 1;
    } else {
      assert Lookup(RoutesOf(p, Init(names)), signal) == Lookup(RoutesOf(p, names), signal);
      k := ListedHasLastSchemaLister(p, Init(names), signal);
      ListerOfMore(p, names, signal, k);
    }
  }

  /**
   * With a schema a signal is assigned exactly if some domain of it lists the resolved
   * name, and the last one to do so is not called unassigned.
   */
  lemma {:induction false} SchemaAssignsIff(p: Params, names: seq<Text>, router: RoutingTables, rawName: Text, id: uint32)
    requires RoutesOf(p, names) != map[]
    ensures ResolveSignal(rawName, id, router, RoutesOf(p, names)).IsAssigned() <==>
            exists k | 0 <= k < |names| ::
              LastSchemaLister(p, names, ResolveName(rawName, id, router), k) && names[k] != UNASSIGNED
  {
    var name := ResolveName(rawName, id, router);
    if name in RoutesOf(p, names) {
      var k := ListedHasLastSchemaLister(p, names, name);
      RouteIsLastLister(p, names, name, k);
      forall j | 0 <= j < |names| && LastSchemaLister(p, names, name, j) ensures j == k {}
    } else {
      forall k | 0 <= k < |names| ensures !LastSchemaLister(p, names, name, k) {
        if LastSchemaLister(p, names, name, k) {
          RouteIsLastLister(p, names, name, k);
        }
      }
    }
  }
}
