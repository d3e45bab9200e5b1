/** What each part of a configuration is, read off the parameters by their names. */
module ConfigurationReference {
  import opened Common
  import opened ParamMaps
  import opened SignalRouting
  import opened SchemaTables
  import opened Configuration

  // ---------- reference: single values and lists ----------

  function TextAt(p: Params, key: string, default: Text): Text {
    TextUnder(p, Ascii(key), default)
  }

  function TextUnder(p: Params, key: Text, default: Text): Text {
    if key in p && p[key].Scalar? then p[key].text else default
  }

  /** prefix.name.suffix */
  function Key(prefix: string, name: Text, suffix: string): Text {
    Ascii(prefix) + name + Ascii(suffix)
  }

  /** The items of a list parameter; anything else counts as an empty list. */
  function ItemsUnder(p: Params, key: Text): seq<Yaml> {
    if key in p && p[key].Sequence? then p[key].items else []
  }

  /** The texts are those of the scalar items, in order. */
  ghost predicate TextsOf(items: seq<Yaml>, texts: seq<Text>, positions: seq<nat>) {
    && Ascending(positions) && |positions| == |texts|
    && (forall k :: k in positions <==> 0 <= k < |items| && items[k].Scalar?)
    && (forall j | 0 <= j < |positions| ::
          positions[j] < |items| && items[positions[j]].Scalar? && items[positions[j]].text == texts[j])
  }

  /** The numbers are those of the items that are numbers, in order. */
  ghost predicate NumbersOf(items: seq<Yaml>, numbers: seq<int64>, positions: seq<nat>) {
    && Ascending(positions) && |positions| == |numbers|
    && (forall k :: k in positions <==> 0 <= k < |items| && items[k].Scalar? && items[k].number.Some?)
    && (forall j | 0 <= j < |positions| ::
          positions[j] < |items| && items[positions[j]].Scalar? && items[positions[j]].number == Some(numbers[j]))
  }

  lemma {:induction false} ListsAppend(items: seq<Yaml>, y: Yaml)
    ensures Texts(items + [y]) == Texts(items) + if y.Scalar? then [y.text] else []
    ensures Numbers(items + [y]) == Numbers(items) + if y.Scalar? && y.number.Some? then [y.number.value] else []
  {
    if items == [] {
      assert items + [y] == [y] && [y][1..] == [];
    } else {
      assert (items + [y])[1..] == items[1..] + [y];
      ListsAppend(items[1..], y);
    }
  }

  lemma {:induction false} TextsArePicked(items: seq<Yaml>, chosen: Yaml -> bool, made: (nat, Yaml, Text) -> bool)
    returns (positions: seq<nat>)
    requires forall y :: chosen(y) <==> y.Scalar?
    requires forall k, y: Yaml, t :: made(k, y, t) <==> y.Scalar? && y.text == t
    ensures Picked(items, Texts(items), positions, chosen, made)
  {
    positions := [];
    if items != [] {
      var before, y := Init(items), Last(items);
      positions := TextsArePicked(before, chosen, made);
      assert items == before + [y];
      ListsAppend(before, y);
      if y.Scalar? {
        PickedOne(before, y, Texts(before), y.text, positions, chosen, made);
        positions := positions + [|before|];
      } else {
        PickedNone(before, y, Texts(before), positions, chosen, made);
      }
    }
  }

  lemma {:induction false} NumbersArePicked(items: seq<Yaml>, chosen: Yaml -> bool, made: (nat, Yaml, int64) -> bool)
    returns (positions: seq<nat>)
    requires forall y :: chosen(y) <==> y.Scalar? && y.number.Some?
    requires forall k, y: Yaml, n: int64 :: made(k, y, n) <==> y.Scalar? && y.number == Some(n)
    ensures Picked(items, Numbers(items), positions, chosen, made)
  {
    positions := [];
    if items != [] {
      var before, y := Init(items), Last(items);
      positions := NumbersArePicked(before, chosen, made);
      assert items == before + [y];
      ListsAppend(before, y);
      if y.Scalar? && y.number.Some? {
        PickedOne(before, y, Numbers(before), y.number.value, positions, chosen, made);
        positions := positions + [|before|];
      } else {
        PickedNone(before, y, Numbers(before), positions, chosen, made);
      }
    }
  }

  /** The lenient list access of the converter: unsuitable items are skipped, the others keep their order. */
  lemma {:induction false} ListsAre(p: Params, key: Text) returns (texts: seq<nat>, numbers: seq<nat>)
    ensures TextsOf(ItemsUnder(p, key), GetStrings(p, key), texts)
    ensures NumbersOf(ItemsUnder(p, key), GetInts(p, key), numbers)
  {
    var items := ItemsUnder(p, key);
    assert GetStrings(p, key) == Texts(items) && GetInts(p, key) == Numbers(items);
    texts := TextsAre(items);
    numbers := NumbersAre(items);
  }

  lemma {:induction false} TextsAre(items: seq<Yaml>) returns (positions: seq<nat>)
    ensures TextsOf(items, Texts(items), positions)
  {
    positions := TextsArePicked(items, (y: Yaml) => y.Scalar?, (_, y: Yaml, t: Text) => y.Scalar? && y.text == t);
  }

  lemma {:induction false} NumbersAre(items: seq<Yaml>) returns (positions: seq<nat>)
    ensures NumbersOf(items, Numbers(items), positions)
  {
    positions := NumbersArePicked(
      items, (y: Yaml) => y.Scalar? && y.number.Some?,
      (_, y: Yaml, n: int64) => y.Scalar? && y.number == Some(n));
  }

  // ---------- the configuration of both programs ----------

  lemma CanTopicIs(p: Params)
    requires |GetStrings(p, Ascii("signal_id_names"))| <= 65535
    ensures ConfigOf(p).canTopic == TextAt(p, "can_topic", Ascii("/vehicle/from_can_bus"))
  {
  }

  /** The i-th domain: its name, its topic, and its ids, cast to 32 bits. */
  lemma {:induction false} DomainIs(p: Params, i: nat, id: uint32)
    requires |GetStrings(p, Ascii("signal_id_names"))| <= 65535
    requires i < |GetStrings(p, Ascii("domain_names"))|
    ensures var names, cfg := GetStrings(p, Ascii("domain_names")), ConfigOf(p);
      && |cfg.domains| == |names| && cfg.domains[i].name == names[i]
      && cfg.domains[i].topic == TextUnder(p, Key("domains.", names[i], ".topic"), Ascii("/vehicle/") + names[i])
      && (id in cfg.domains[i].canIds <==>
          exists n: int64 :: n in GetInts(p, Key("domains.", names[i], ".can_ids")) && n % 0x1_0000_0000 == id)
  {
    var names := GetStrings(p, Ascii("domain_names"));
    DomainsInOrder(p, names, i);
    IdSetIs(GetInts(p, Key("domains.", names[i], ".can_ids")), id);
  }

  lemma {:induction false} IdSetIs(ids: seq<int64>, id: uint32)
    ensures id in IdSet(ids) <==> exists n: int64 :: n in ids && n % 0x1_0000_0000 == id
  {
    if ids != [] {
      IdSetIs(Init(ids), id);
      assert ids == Init(ids) + [Last(ids)];
      if Last(ids) % 0x1_0000_0000 == id {
        assert Last(ids) in ids;
      }
      if n: int64 :| n in Init(ids) && n % 0x1_0000_0000 == id {
        assert n in ids;
      }
    }
  }

  /** Aliases, transforms and schema topics have entries exactly for the listed names, from their own parameters. */
  lemma {:induction false} EntriesAre(p: Params, n: Text)
    requires |GetStrings(p, Ascii("signal_id_names"))| <= 65535
    ensures Lookup(ConfigOf(p).aliases, n) ==
            if n in GetStrings(p, Ascii("alias_names")) then Some(TextUnder(p, Ascii("aliases.") + n, n)) else None
    ensures Lookup(ConfigOf(p).transforms, n) ==
            if n in GetStrings(p, Ascii("transform_names"))
            then Some(TransformConfig(expression := TextUnder(p, Key("transforms.", n, ".expression"), []),
                                      unit := TextUnder(p, Key("transforms.", n, ".unit"), [])))
            else None
    ensures Lookup(ConfigOf(p).schemaTopics, n) ==
            if n in GetStrings(p, Ascii("schema_domain_names"))
            then Some(TextUnder(p, Key("schema.", n, ".topic"), Ascii("/vehicle/") + n)) else None
  {
    EntriesOfListedNames(p, GetStrings(p, Ascii("alias_names")), n);
    EntriesOfListedNames(p, GetStrings(p, Ascii("transform_names")), n);
    EntriesOfListedNames(p, GetStrings(p, Ascii("schema_domain_names")), n);
  }

  /** A signal is routed to the last schema domain that lists it. */
  lemma {:induction false} RouteIs(p: Params, signal: Text, d: Text)
    requires |GetStrings(p, Ascii("signal_id_names"))| <= 65535
    ensures var names := GetStrings(p, Ascii("schema_domain_names"));
      Lookup(ConfigOf(p).signalToDomain, signal) == Some(d) <==>
      exists k | 0 <= k < |names| ::
        && names[k] == d && signal in GetStrings(p, Key("schema.", names[k], ".signals"))
        && forall j | k < j < |names| :: signal !in GetStrings(p, Key("schema.", names[j], ".signals"))
  {
    var names := GetStrings(p, Ascii("schema_domain_names"));
    forall k | 0 <= k < |names|
      ensures LastSchemaLister(p, names, signal, k) <==>
              signal in GetStrings(p, Key("schema.", names[k], ".signals")) &&
              forall j | k < j < |names| :: signal !in GetStrings(p, Key("schema.", names[j], ".signals"))
    {
    }
    if signal in RoutesOf(p, names) {
      var last := ListedHasLastSchemaLister(p, names, signal);
      RouteIsLastLister(p, names, signal, last);
      forall k | 0 <= k < |names| && LastSchemaLister(p, names, signal, k) ensures k == last {}
    } else {
      forall k | 0 <= k < |names| ensures !LastSchemaLister(p, names, signal, k) {
        if LastSchemaLister(p, names, signal, k) {
          RouteIsLastLister(p, names, signal, k);
        }
      }
    }
  }

  /** The id of a listed name is its last position, counted from 1. */
  lemma {:induction false} IdIs(p: Params, n: Text)
    requires |GetStrings(p, Ascii("signal_id_names"))| <= 65535
    ensures var names, ids := GetStrings(p, Ascii("signal_id_names")), ConfigOf(p).nameToId;
      && (n in ids <==> n in names)
      && (n in ids ==> 1 <= ids[n] <= |names| && names[ids[n] - 1] == n && forall j | ids[n] <= j < |names| :: names[j] != n)
  {
    IdOfName(GetStrings(p, Ascii("signal_id_names")), n);
  }

  // ---------- the settings of the node ----------

  lemma {:induction false} SettingsAre(p: Params, n: Text)
    ensures var s := SettingsOf(p);
      && s.publishAll == FlagAt(p, "publish_all_signals", true)
      && s.allSignalsTopic == TextAt(p, "all_signals_topic", Ascii("/vehicle/decoded_can"))
      && s.perDomain == FlagAt(p, "schema_publish_per_domain", true)
      && s.signalTimeoutMs == NumberAt(p, "signal_timeout_ms", 500) % 0x1_0000_0000_0000_0000
      && Lookup(s.promoted, n) ==
         if n in GetStrings(p, Ascii("promoted_signal_names"))
         then Some(Ascii("/vehicle/signals/") + TextUnder(p, Key("promoted_signals.", n, ".topic_suffix"), n))
         else None
  {
    PromotedAre(p, GetStrings(p, Ascii("promoted_signal_names")), n);
  }

  function FlagAt(p: Params, key: string, default: bool): bool {
    if Ascii(key) in p && p[Ascii(key)].Scalar? && p[Ascii(key)].kind.Boolean? then p[Ascii(key)].kind.flag else default
  }

  function NumberAt(p: Params, key: string, default: int64): int64 {
    if Ascii(key) in p && NumberOk(p[Ascii(key)]) then p[Ascii(key)].number.value else default
  }

  lemma {:induction false} PromotedAre(p: Params, names: seq<Text>, n: Text)
    ensures Lookup(PromotedOf(p, names), n) ==
            if n in names
            then Some(Ascii("/vehicle/signals/") + TextUnder(p, Key("promoted_signals.", n, ".topic_suffix"), n))
            else None
  {
    if names != [] {
      PromotedAre(p, Init(names), n);
      assert names == Init(names) + [Last(names)];
    }
  }

  // ---------- what the node accepts ----------

  predicate TextHere(p: Params, key: Text) {
    key in p ==> p[key].Scalar? && p[key].kind.Textual?
  }

  predicate NumberHere(p: Params, key: Text) {
    key in p ==> p[key].Scalar? && p[key].kind.Integral? && p[key].number.Some?
  }

  predicate FlagHere(p: Params, key: Text) {
    key in p ==> p[key].Scalar? && p[key].kind.Boolean?
  }

  predicate DoubleHere(p: Params, key: Text) {
    key in p ==> p[key].Scalar? && p[key].kind.Floating?
  }

  predicate TextsHere(p: Params, key: Text) {
    key in p ==> p[key].Sequence? && forall y | y in p[key].items :: y.Scalar? && y.kind.Textual?
  }

  predicate NumbersHere(p: Params, key: Text) {
    key in p ==> p[key].Sequence? && forall y | y in p[key].items :: y.Scalar? && y.kind.Integral? && y.number.Some?
  }

  /** The reference's types are the loader's. */
  lemma TypesAgree(p: Params, key: Text)
    ensures HasType(p, key, AString) <==> TextHere(p, key)
    ensures HasType(p, key, AnInt) <==> NumberHere(p, key)
    ensures HasType(p, key, ABool) <==> FlagHere(p, key)
    ensures HasType(p, key, ADouble) <==> DoubleHere(p, key)
    ensures HasType(p, key, Strings) <==> TextsHere(p, key)
    ensures IntsOk(p, key) <==> NumbersHere(p, key)
  {
  }

  type Typed = (Text, ParameterType)

  lemma AllTypedConcat(p: Params, a: seq<Typed>, b: seq<Typed>)
    ensures AllTyped(p, a + b) <==> AllTyped(p, a) && AllTyped(p, b)
  {
    assert forall f | f in a || f in b :: f in a + b;
  }

  lemma SixTyped(p: Params, a: Typed, b: Typed, c: Typed, d: Typed, e: Typed, f: Typed)
    ensures AllTyped(p, [a, b, c, d, e, f]) <==>
      && HasType(p, a.0, a.1) && HasType(p, b.0, b.1) && HasType(p, c.0, c.1)
      && HasType(p, d.0, d.1) && HasType(p, e.0, e.1) && HasType(p, f.0, f.1)
  {
    var six := [a, b, c, d, e, f];
    assert six[0] == a && six[1] == b && six[2] == c && six[3] == d && six[4] == e && six[5] == f;
  }

  /** The types demanded of the parameters of fixed names. */
  lemma {:induction false} FixedTypesAre(p: Params)
    ensures AllTyped(p, FIXED) <==>
      && HasType(p, Ascii("can_topic"), AString) && HasType(p, Ascii("dbc_file"), AString)
      && HasType(p, Ascii("signal_timeout_ms"), AnInt) && HasType(p, Ascii("publish_all_signals"), ABool)
      && HasType(p, Ascii("all_signals_topic"), AString) && HasType(p, Ascii("diagnostics_topic"), AString)
      && HasType(p, Ascii("diagnostics_rate_hz"), ADouble) && HasType(p, Ascii("schema_domain_names"), Strings)
      && HasType(p, Ascii("schema_publish_per_domain"), ABool)
      && HasType(p, Ascii("schema_republish_interval_s"), ADouble)
      && HasType(p, Ascii("schema_version"), AString) && HasType(p, Ascii("signal_id_names"), Strings)
      && HasType(p, Ascii("signal_id_unit_names"), Strings) && HasType(p, Ascii("unit_id_names"), Strings)
      && HasType(p, Ascii("domain_names"), Strings) && HasType(p, Ascii("alias_names"), Strings)
      && HasType(p, Ascii("transform_names"), Strings) && HasType(p, Ascii("promoted_signal_names"), Strings)
  {
    var a, b, c := FIXED[..6], FIXED[6..12], FIXED[12..];
    assert FIXED == a + b + c;
    AllTypedConcat(p, a + b, c);
    AllTypedConcat(p, a, b);
    SixTyped(p, FIXED[0], FIXED[1], FIXED[2], FIXED[3], FIXED[4], FIXED[5]);
    SixTyped(p, FIXED[6], FIXED[7], FIXED[8], FIXED[9], FIXED[10], FIXED[11]);
    SixTyped(p, FIXED[12], FIXED[13], FIXED[14], FIXED[15], FIXED[16], FIXED[17]);
  }

  /** The types and ranges demanded of the sections, one name of the list at a time. */
  lemma SectionsAreOkIff(p: Params, n: Text)
    ensures DomainOk(p, n) <==>
      && TextHere(p, Key("domains.", n, ".topic")) && NumbersHere(p, Key("domains.", n, ".can_ids"))
      && forall id | id in GetInts(p, Key("domains.", n, ".can_ids")) :: 0 <= id <= 0x1FFF_FFFF
    ensures StringOk(p, AliasKey(n)) <==> TextHere(p, Ascii("aliases.") + n)
    ensures TransformOk(p, n) <==>
      TextHere(p, Key("transforms.", n, ".expression")) && TextHere(p, Key("transforms.", n, ".unit"))
    ensures StringOk(p, PromotedKey(n)) <==> TextHere(p, Key("promoted_signals.", n, ".topic_suffix"))
    ensures SchemaDomainOk(p, n) <==>
      TextHere(p, Key("schema.", n, ".topic")) && TextsHere(p, Key("schema.", n, ".signals"))
  {
    RangeIs(GetInts(p, Key("domains.", n, ".can_ids")));
  }

  /** What else the node demands of its settings. */
  lemma SettingsAreOkIff(host: Host, p: Params)
    ensures SettingsOk(host, p) <==>
      && !AtMostZero(GetDouble(p, Ascii("diagnostics_rate_hz"), ONE))
      && NumberAt(p, "signal_timeout_ms", 500) > 0
      && !AtMostZero(GetDouble(p, Ascii("schema_republish_interval_s"), ONE))
      && TextAt(p, "dbc_file", []) != [] && host.loadsDbc(TextAt(p, "dbc_file", []))
  {
  }

  /** CAN ids are accepted from 0 to 0x1FFFFFFF. */
  lemma RangeIs(ids: seq<int64>)
    ensures InRange(ids) <==> forall n | n in ids :: 0 <= n <= 0x1FFF_FFFF
  {
    assert forall i | 0 <= i < |ids| :: ids[i] in ids;
  }

  // ---------- doubles ----------

  function Power2(k: nat): nat {
    if k == 0 then 1 else 2 * Power2(k - 1)
  }

  lemma {:induction false} Power2IsPositive(k: nat)
    ensures Power2(k) > 0
  {
    if k > 0 {
      Power2IsPositive(k - 1);
    }
  }

  /** The value of the bits of a finite double, times 2^1074: sign, exponent and fraction after IEEE 754. */
  function ScaledValue(bits: uint64): int {
    var magnitude := bits % 0x8000_0000_0000_0000;
    var exponent, fraction := magnitude / 0x10_0000_0000_0000, magnitude % 0x10_0000_0000_0000;
    var significand := if exponent == 0 then fraction else 0x10_0000_0000_0000 + fraction;
    var value := significand * Power2(if exponent == 0 then 0 else exponent - 1);
    if bits >= 0x8000_0000_0000_0000 then -value else value
  }

  /** The test of the rates is `<= 0`: by value for finite doubles, by sign for infinities, and false for NaNs. */
  lemma {:induction false} AtMostZeroIs(bits: uint64)
    ensures var magnitude := bits % 0x8000_0000_0000_0000;
      if magnitude < 0x7FF0_0000_0000_0000 then AtMostZero(bits) <==> ScaledValue(bits) <= 0
      else AtMostZero(bits) <==> bits == 0xFFF0_0000_0000_0000
  {
    var magnitude := bits % 0x8000_0000_0000_0000;
    var exponent, fraction := magnitude / 0x10_0000_0000_0000, magnitude % 0x10_0000_0000_0000;
    var significand := if exponent == 0 then fraction else 0x10_0000_0000_0000 + fraction;
    var power := Power2(if exponent == 0 then 0 else exponent - 1);
    Power2IsPositive(if exponent == 0 then 0 else exponent - 1);
    ProductIsPositive(significand, power);
    assert significand == 0 <==> magnitude == 0;
    assert ScaledValue(bits) == if bits >= 0x8000_0000_0000_0000 then -(significand * power) else significand * power;
    assert bits == if bits >= 0x8000_0000_0000_0000 then 0x8000_0000_0000_0000 + magnitude else magnitude;
  }

  lemma ProductIsPositive(a: nat, b: nat)
    requires b > 0
    ensures a * b >= 0 && (a * b == 0 <==> a == 0)
  {
  }

  /** The default of the rates is the double 1. */
  lemma {:induction false} OneIs()
    ensures ScaledValue(ONE) == Power2(1074)
  {
    assert ONE % 0x8000_0000_0000_0000 == ONE && ONE == 1023 * 0x10_0000_0000_0000;
    PowersAdd(52, 1022);
    Power52();
  }

  lemma {:induction false} PowersAdd(a: nat, b: nat)
    ensures Power2(a + b) == Power2(a) * Power2(b)
  {
    if a > 0 {
      PowersAdd(a - 1, b);
    }
  }

  lemma Power52()
    ensures Power2(52) == 0x10_0000_0000_0000
  {
    assert Power2(4) == 16;
    PowersAdd(4, 4);
    PowersAdd(8, 8);
    PowersAdd(16, 4);
    PowersAdd(16, 16);
    PowersAdd(32, 20);
  }
}
