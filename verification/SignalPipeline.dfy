/** Alias resolution and domain routing of one raw signal, shared by node and converter. */
module SignalPipeline {
  import opened Common
  import opened SignalRouting

  // ---------- compound keys ----------

  const CAN_PREFIX: Text := Ascii("CAN")
  const UNDERSCORE: byte := 95
  const DIGIT_ZERO: byte := 48

  /** The decimal digits of n, without leading zeros. */
  function Decimal(n: nat): Text {
    if n < 10 then [DIGIT_ZERO + n] else Decimal(n / 10) + [DIGIT_ZERO + n % 10]
  }

  function CompoundKey(id: uint32, rawName: Text): Text {
    CAN_PREFIX + Decimal(id) + [UNDERSCORE] + rawName
  }

  /** Reads a decimal number; the left inverse of Decimal. */
  function ParseDecimal(s: Text): int {
    if s == [] then 0 else 10 * ParseDecimal(s[..|s| - 1]) + (s[|s| - 1] - DIGIT_ZERO)
  }

  lemma {:induction false} DecimalRoundTrip(n: nat)
    ensures ParseDecimal(Decimal(n)) == n
    ensures UNDERSCORE !in Decimal(n)
  {
    if n < 10 {
      assert Decimal(n)[..0] == [];
    } else {
      DecimalRoundTrip(n / 10);
      assert Decimal(n)[..|Decimal(n)| - 1] == Decimal(n / 10);
    }
  }

  function Power10(k: nat): nat {
    if k == 0 then 1 else 10 * Power10(k - 1)
  }

  lemma DivideBy(n: nat, p: nat)
    requires p > 0
    ensures n / 10 / p == n / (10 * p)
  {
    var m, c := n / 10, n % 10;
    var q, r := m / p, m % p;
    Regroup(n, m, c, p, q, r);
    QuotientIs(n, 10 * p, q, 10 * r + c);
  }

  lemma Regroup(n: nat, m: nat, c: nat, p: nat, q: nat, r: nat)
    requires n == 10 * m + c && m == p * q + r
    ensures n == 10 * p * q + (10 * r + c)
  {
  }

  lemma {:induction false} DivideTwice(n: nat, k: nat)
    ensures Power10(k) > 0 && n / 10 / Power10(k) == n / Power10(k + 1)
  {
    PowerIsPositive(k);
    DivideBy(n, Power10(k));
  }

  lemma QuotientIs(n: nat, d: nat, q: nat, r: nat)
    requires d > 0 && n == d * q + r && r < d
    ensures n / d == q
  {
    var e := n / d - q;
    assert e * d == r - n % d;
    assert e >= 1 ==> (e - 1) * d >= 0;
    assert e <= -1 ==> (e + 1) * d <= 0;
  }

  lemma {:induction false} PowerIsPositive(k: nat)
    ensures Power10(k) > 0
  {
    if k > 0 {
      PowerIsPositive(k - 1);
    }
  }

  /** No leading zeros: the length is the number of digits. */
  lemma {:induction false} DecimalLength(n: nat)
    ensures |Decimal(n)| >= 1 && n < Power10(|Decimal(n)|)
    ensures if n == 0 then |Decimal(n)| == 1 else Power10(|Decimal(n)| - 1) <= n
  {
    assert Power10(1) == 10 * Power10(0);
    if n >= 10 {
      DecimalLength(n / 10);
      var k := |Decimal(n / 10)|;
      assert |Decimal(n)| == k + 1 && Power10(k + 1) == 10 * Power10(k) && Power10(k) == 10 * Power10(k - 1);
    }
  }

  /** The j-th digit from the right, in ASCII. */
  lemma {:induction false} DecimalDigit(n: nat, j: nat)
    requires j < |Decimal(n)|
    ensures Power10(j) > 0 && Decimal(n)[|Decimal(n)| - 1 - j] == 48 + n / Power10(j) % 10
  {
    PowerIsPositive(j);
    if j > 0 {
      DecimalDigit(n / 10, j - 1);
      DivideTwice(n, j - 1);
    }
  }

  /** The key is the text CAN, the id in decimal, an underscore and the name; for example CAN257_a. */
  lemma CompoundKeyIs(id: uint32, rawName: Text)
    ensures CompoundKey(id, rawName) == [67, 65, 78] + Decimal(id) + [95] + rawName
    ensures CompoundKey(257, [97]) == Ascii("CAN257_a")
  {
    assert CAN_PREFIX == [67, 65, 78];
    assert Decimal(2) == [50] && Decimal(25) == [50, 53] && Decimal(257) == [50, 53, 55];
    assert Ascii("CAN257_a") == [67, 65, 78, 50, 53, 55, 95, 97];
  }

  lemma FirstOccurrence(a: Text, x: Text, c: byte)
    requires c !in a
    ensures var s := a + [c] + x; s[|a|] == c && forall i | 0 <= i < |a| :: s[i] != c
  {
  }

  /** A text splits in one way at the first occurrence of c. */
  lemma SplitAtFirst(a: Text, x: Text, b: Text, y: Text, c: byte)
    requires c !in a && c !in b
    requires a + [c] + x == b + [c] + y
    ensures a == b && x == y
  {
    var s := a + [c] + x;
    FirstOccurrence(a, x, c);
    FirstOccurrence(b, y, c);
    assert a == s[..|a|] && b == s[..|b|];
    assert x == s[|a| + 1..] && y == s[|b| + 1..];
  }

  /** A compound key determines the CAN id and the raw name. */
  lemma CompoundKeyIsInjective(id: uint32, name: Text, id': uint32, name': Text)
    requires CompoundKey(id, name) == CompoundKey(id', name')
    ensures id == id' && name == name'
  {
    var rest := Decimal(id) + [UNDERSCORE] + name;
    var rest' := Decimal(id') + [UNDERSCORE] + name';
    assert CompoundKey(id, name) == CAN_PREFIX + rest && CompoundKey(id', name') == CAN_PREFIX + rest';
    assert (CAN_PREFIX + rest)[|CAN_PREFIX|..] == rest && (CAN_PREFIX + rest')[|CAN_PREFIX|..] == rest';
    DecimalRoundTrip(id);
    DecimalRoundTrip(id');
    SplitAtFirst(Decimal(id), name, Decimal(id'), name', UNDERSCORE);
  }

  // ---------- resolution ----------

  datatype SignalResolution = SignalResolution(name: Text, domain: Text) {
    predicate IsAssigned() {
      domain != UNASSIGNED
    }
  }

  /** The compound key takes precedence over the bare name; an alias of a key to itself counts as none. */
  function ResolveName(rawName: Text, id: uint32, router: RoutingTables): Text {
    var key := CompoundKey(id, rawName);
    var alias := router.ApplyAlias(key);
    if alias != key then alias else router.ApplyAlias(rawName)
  }

  /** Routing is by name if any name is routed at all, and by CAN id otherwise. */
  function ResolveSignal(rawName: Text, id: uint32, router: RoutingTables, signalToDomain: map<Text, Text>): SignalResolution
  {
    var name := ResolveName(rawName, id, router);
    var domain :=
      if signalToDomain != map[] then
        if name in signalToDomain then signalToDomain[name] else UNASSIGNED
      else router.DomainForId(id);
    SignalResolution(name, domain)
  }

  /** A listed compound key is renamed as listed, unless it is listed under itself and the bare name says otherwise. */
  lemma ListedKeyResolvesIff(rawName: Text, id: uint32, router: RoutingTables, s2d: map<Text, Text>)
    requires CompoundKey(id, rawName) in router.aliases
    ensures var key := CompoundKey(id, rawName);
      ResolveSignal(rawName, id, router, s2d).name == router.aliases[key] <==>
      router.aliases[key] != key || router.ApplyAlias(rawName) == key
  {
  }

  /** CAN1_a is listed under itself, but the alias of the bare name a is taken. */
  lemma SelfAliasDoesNotShadow(idToDomain: map<uint32, Text>, topics: map<Text, Text>, s2d: map<Text, Text>)
    ensures var key := CompoundKey(1, Ascii("a"));
      var router := RoutingTables(idToDomain, topics, map[key := key, Ascii("a") := Ascii("b")]);
      ResolveSignal(Ascii("a"), 1, router, s2d).name == Ascii("b") != router.aliases[key]
  {
    var key := CompoundKey(1, Ascii("a"));
    assert |key| > 1;
  }

  /**
   * The name of a signal, from the aliases alone: that of its compound key if listed
   * with another value, else that of its raw name if listed, else the raw name.
   */
  lemma ResolvedNameIs(rawName: Text, id: uint32, router: RoutingTables, s2d: map<Text, Text>)
    ensures var key, name := [67, 65, 78] + Decimal(id) + [95] + rawName, ResolveSignal(rawName, id, router, s2d).name;
      name ==
      if key in router.aliases && router.aliases[key] != key then router.aliases[key]
      else if rawName in router.aliases then router.aliases[rawName]
      else rawName
  {
    CompoundKeyIs(id, rawName);
  }

  // ---------- non-interference of aliases ----------

  function WithAlias(router: RoutingTables, key: Text, alias: Text): RoutingTables {
    router.(aliases := router.aliases[key := alias])
  }

  /** The signal has a compound alias, one that is not the identity. */
  predicate HasCompoundAlias(rawName: Text, id: uint32, router: RoutingTables) {
    var key := CompoundKey(id, rawName);
    key in router.aliases && router.aliases[key] != key
  }

  /**
   * The exact effect of an alias for the compound key of (id, name): it renames
   * that signal, besides it only signals whose raw name is literally the key and
   * that have no compound alias of their own, and nothing else.
   */
  lemma CompoundAliasEffect(
      id: uint32, name: Text, alias: Text, router: RoutingTables, s2d: map<Text, Text>, rawName: Text, canId: uint32)
    requires CompoundKey(id, name) !in router.aliases && alias != CompoundKey(id, name)
    ensures ResolveSignal(rawName, canId, WithAlias(router, CompoundKey(id, name), alias), s2d).name ==
      if (canId, rawName) == (id, name) then alias
      else if rawName == CompoundKey(id, name) && !HasCompoundAlias(rawName, canId, router) then alias
      else ResolveSignal(rawName, canId, router, s2d).name
  {
    if CompoundKey(canId, rawName) == CompoundKey(id, name) {
      CompoundKeyIsInjective(canId, rawName, id, name);
    }
  }

  /** An identity alias for a name without alias changes no resolution at all. */
  lemma IdentityAliasHasNoEffect(key: Text, router: RoutingTables, s2d: map<Text, Text>, rawName: Text, canId: uint32)
    requires key !in router.aliases
    ensures ResolveSignal(rawName, canId, WithAlias(router, key, key), s2d) == ResolveSignal(rawName, canId, router, s2d)
  {
  }

  /** Any alias edit at `key` concerns only signals of that raw name or with that compound key. */
  lemma AliasIsLocal(key: Text, alias: Text, router: RoutingTables, s2d: map<Text, Text>, rawName: Text, canId: uint32)
    requires rawName != key && CompoundKey(canId, rawName) != key
    ensures ResolveSignal(rawName, canId, WithAlias(router, key, alias), s2d) == ResolveSignal(rawName, canId, router, s2d)
  {
  }

  /** Two signals of one raw name on different CAN ids are renamed independently. */
  lemma IndependentCompoundAliases(
      name: Text, id: uint32, id': uint32, alias: Text, alias': Text, router: RoutingTables, s2d: map<Text, Text>)
    requires id != id'
    requires alias != CompoundKey(id, name) && alias' != CompoundKey(id', name)
    ensures var r := WithAlias(WithAlias(router, CompoundKey(id, name), alias), CompoundKey(id', name), alias');
      ResolveSignal(name, id, r, s2d).name == alias && ResolveSignal(name, id', r, s2d).name == alias'
  {
    if CompoundKey(id, name) == CompoundKey(id', name) {
      CompoundKeyIsInjective(id, name, id', name);
    }
  }

  // ---------- routing closure ----------

  /** Every signal name is routed to a schema domain. */
  ghost predicate SchemaClosed(signalToDomain: map<Text, Text>, schemaTopics: map<Text, Text>) {
    forall s | s in signalToDomain :: signalToDomain[s] in schemaTopics
  }

  /** Whatever a signal resolves to is unassigned or a domain with a topic entry. */
  lemma RoutingIsClosed(
      rawName: Text, id: uint32, domains: seq<DomainConfig>, aliases: map<Text, Text>,
      signalToDomain: map<Text, Text>, schemaTopics: map<Text, Text>)
    requires SchemaClosed(signalToDomain, schemaTopics)
    ensures var router := TablesOf(domains, aliases);
      var r := ResolveSignal(rawName, id, router, signalToDomain);
      r.IsAssigned() ==> r.domain in if signalToDomain == map[] then router.domainToTopic else schemaTopics
  {
    OwnersAreListed(domains);
    OwnerIsNamed(domains, id);
  }

  lemma {:induction false} OwnerIsNamed(domains: seq<DomainConfig>, id: uint32)
    ensures Owner(domains, id).Some? ==> Owner(domains, id).value in Names(domains)
  {
    if domains != [] {
      OwnerIsNamed(Init(domains), id);
      assert Last(domains) in domains;
    }
  }

  /** Without a schema a signal goes to the last domain listing its CAN id, whatever its name. */
  lemma RoutedToLastLister(
      rawName: Text, id: uint32, domains: seq<DomainConfig>, aliases: map<Text, Text>, k: nat)
    requires LastLister(domains, id, k)
    ensures ResolveSignal(rawName, id, TablesOf(domains, aliases), map[]).domain == domains[k].name
  {
    OwnerIsLastLister(domains, id, k);
    OwnersAreListed(domains);
  }

  /** Without a schema an id that no domain lists is unassigned. */
  lemma UnlistedIsUnassigned(rawName: Text, id: uint32, domains: seq<DomainConfig>, aliases: map<Text, Text>)
    requires forall k | 0 <= k < |domains| :: id !in domains[k].canIds
    ensures !ResolveSignal(rawName, id, TablesOf(domains, aliases), map[]).IsAssigned()
  {
    UnlistedHasNoOwner(domains, id);
    OwnersAreListed(domains);
  }

  /** A schema domain called unassigned: its signal is routed to a topic, and yet discarded. */
  lemma SchemaDomainNamedUnassigned(router: RoutingTables, rawName: Text, id: uint32, topic: Text)
    ensures var name := ResolveName(rawName, id, router);
      && SchemaClosed(map[name := UNASSIGNED], map[UNASSIGNED := topic])
      && !ResolveSignal(rawName, id, router, map[name := UNASSIGNED]).IsAssigned()
  {
    assert ResolveName(rawName, id, router) in map[ResolveName(rawName, id, router) := UNASSIGNED];
  }
}
