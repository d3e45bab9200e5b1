/** Routing of CAN ids to domains, domain topics, and signal aliases. */
module SignalRouting {
  import opened Common

  datatype DomainConfig = DomainConfig(name: Text, topic: Text, canIds: set<uint32>)

  /** A CAN id that moves from one domain to another. */
  datatype Warning = DuplicateId(id: uint32, previous: Text, domain: Text)

  const UNASSIGNED: Text := Ascii("unassigned")

  /** The router's tables and the lookups on them. */
  datatype RoutingTables = RoutingTables(
    idToDomain: map<uint32, Text>, domainToTopic: map<Text, Text>, aliases: map<Text, Text>)
  {
    function DomainForId(id: uint32): Text {
      if id in idToDomain then idToDomain[id] else UNASSIGNED
    }

    function TopicForDomain(domain: Text): Text {
      if domain in domainToTopic then domainToTopic[domain] else []
    }

    function ApplyAlias(name: Text): Text {
      if name in aliases then aliases[name] else name
    }
  }

  // ---------- meaning of a configuration ----------

  /** The last domain that lists the id, if any. */
  function Owner(domains: seq<DomainConfig>, id: uint32): Option<Text> {
    if domains == [] then None
    else if id in Last(domains).canIds then Some(Last(domains).name)
    else Owner(Init(domains), id)
  }

  /** The topic of the last domain of that name, if any. */
  function TopicOf(domains: seq<DomainConfig>, name: Text): Option<Text> {
    if domains == [] then None
    else if Last(domains).name == name then Some(Last(domains).topic)
    else TopicOf(Init(domains), name)
  }

  function AllIds(domains: seq<DomainConfig>): set<uint32> {
    if domains == [] then {} else AllIds(Init(domains)) + Last(domains).canIds
  }

  function Names(domains: seq<DomainConfig>): set<Text> {
    set d | d in domains :: d.name
  }

  /** The ids of d that domains before it list already. */
  function Reassigned(before: seq<DomainConfig>, d: DomainConfig, ids: set<uint32>): set<Warning> {
    set id | id in ids && Owner(before, id).Some? :: DuplicateId(id, Owner(before, id).value, d.name)
  }

  /** One warning for every listing of an id that an earlier domain lists. */
  function Warnings(domains: seq<DomainConfig>): multiset<Warning> {
    if domains == [] then multiset{}
    else Warnings(Init(domains)) + multiset(Reassigned(Init(domains), Last(domains), Last(domains).canIds))
  }

  function TotalSize(domains: seq<DomainConfig>): nat {
    if domains == [] then 0 else TotalSize(Init(domains)) + |Last(domains).canIds|
  }

  function TablesOf(domains: seq<DomainConfig>, aliases: map<Text, Text>): RoutingTables {
    OwnersAreListed(domains);
    TopicsAreNamed(domains);
    RoutingTables(
      map id | id in AllIds(domains) :: Owner(domains, id).value,
      map name | name in Names(domains) :: TopicOf(domains, name).value,
      aliases)
  }

  lemma OwnersAreListed(domains: seq<DomainConfig>)
    ensures forall id :: id in AllIds(domains) <==> Owner(domains, id).Some?
  {
  }

  lemma TopicsAreNamed(domains: seq<DomainConfig>)
    ensures forall name :: name in Names(domains) <==> TopicOf(domains, name).Some?
  {
    if domains != [] {
      TopicsAreNamed(Init(domains));
      assert Names(domains) == Names(Init(domains)) + {Last(domains).name} by {
        assert domains == Init(domains) + [Last(domains)];
      }
    }
  }

  lemma TablesFollowLookups(domains: seq<DomainConfig>, t: RoutingTables)
    requires forall id :: Lookup(t.idToDomain, id) == Owner(domains, id)
    requires forall name :: Lookup(t.domainToTopic, name) == TopicOf(domains, name)
    ensures t == TablesOf(domains, t.aliases)
  {
    OwnersAreListed(domains);
    TopicsAreNamed(domains);
    var u := TablesOf(domains, t.aliases);
    forall id ensures Lookup(t.idToDomain, id) == Lookup(u.idToDomain, id) {}
    forall name ensures Lookup(t.domainToTopic, name) == Lookup(u.domainToTopic, name) {}
    SameLookups(t.idToDomain, u.idToDomain);
    SameLookups(t.domainToTopic, u.domainToTopic);
  }

  /** The ids of the set belong to the domain, the others to their owners before. */
  ghost predicate AssignedTo(m: map<uint32, Text>, before: seq<DomainConfig>, domain: Text, ids: set<uint32>) {
    forall id :: Lookup(m, id) == if id in ids then Some(domain) else Owner(before, id)
  }

  lemma AssignStep(m: map<uint32, Text>, before: seq<DomainConfig>, domain: Text, ids: set<uint32>, id: uint32)
    requires AssignedTo(m, before, domain, ids) && id !in ids
    ensures Lookup(m, id) == Owner(before, id)
    ensures AssignedTo(m[id := domain], before, domain, ids + {id})
  {
    var more := m[id := domain];
    forall i ensures Lookup(more, i) == if i in ids + {id} then Some(domain) else Owner(before, i) {
      assert i != id ==> Lookup(more, i) == Lookup(m, i);
    }
  }

  /** The warnings after one id more. */
  function Warned(warnings: seq<Warning>, m: map<uint32, Text>, id: uint32, domain: Text): seq<Warning> {
    if id in m then warnings + [DuplicateId(id, m[id], domain)] else warnings
  }

  /** Of the ids of d, those in the set have been added, with their warnings. */
  ghost predicate Added(
      m: map<uint32, Text>, warnings: seq<Warning>, before: seq<DomainConfig>, d: DomainConfig, ids: set<uint32>)
  {
    AssignedTo(m, before, d.name, ids) && multiset(warnings) == multiset(Reassigned(before, d, ids))
  }

  lemma AddStep(
      m: map<uint32, Text>, warnings: seq<Warning>, before: seq<DomainConfig>, d: DomainConfig,
      ids: set<uint32>, id: uint32)
    requires Added(m, warnings, before, d, ids) && id !in ids
    ensures Added(m[id := d.name], Warned(warnings, m, id, d.name), before, d, ids + {id})
  {
    AssignStep(m, before, d.name, ids, id);
    OneMoreId(before, d, ids, id);
  }

  // ---------- the router ----------

  class SignalRouter {
    var idToDomain: map<uint32, Text>
    var domainToTopic: map<Text, Text>
    var aliases: map<Text, Text>

    constructor () {
      idToDomain, domainToTopic, aliases := map[], map[], map[];
    }

    function Tables(): RoutingTables
      reads this
    {
      RoutingTables(idToDomain, domainToTopic, aliases)
    }

    /**
     * Replaces the configuration. The traversal of an id set is unordered; the
     * tables do not depend on it, nor on the previous configuration, and neither
     * do the warnings but for their order.
     */
    method Configure(domains: seq<DomainConfig>, newAliases: map<Text, Text>) returns (warnings: seq<Warning>)
      modifies this
      ensures Tables() == TablesOf(domains, newAliases)
      ensures idToDomain.Keys == AllIds(domains)
      ensures multiset(warnings) == Warnings(domains)
    {
      idToDomain := map[];
      domainToTopic := map[];
      aliases := newAliases;
      warnings := [];
      for k := 0 to |domains|
        invariant aliases == newAliases
        invariant forall id :: Lookup(idToDomain, id) == Owner(domains[..k], id)
        invariant forall name :: Lookup(domainToTopic, name) == TopicOf(domains[..k], name)
        invariant multiset(warnings) == Warnings(domains[..k])
      {
        var domain := domains[k];
        domainToTopic := domainToTopic[domain.name := domain.topic];
        assert Init(domains[..k + 1]) == domains[..k] && Last(domains[..k + 1]) == domain;
        assert AssignedTo(idToDomain, domains[..k], domain.name, {});
        var more := AddIds(domain, domains[..k]);
        warnings := warnings + more;
      }
      assert domains[..|domains|] == domains;
      TablesFollowLookups(domains, Tables());
    }

    /** The loop over the ids of one domain; the last domain wins. */
    method AddIds(domain: DomainConfig, ghost before: seq<DomainConfig>) returns (warnings: seq<Warning>)
      requires AssignedTo(idToDomain, before, domain.name, {})
      modifies this`idToDomain
      ensures Added(idToDomain, warnings, before, domain, domain.canIds)
    {
      warnings := [];
      var todo := domain.canIds;
      ghost var done: set<uint32> := {};
      while todo != {}
        invariant done + todo == domain.canIds && done !! todo
        invariant Added(idToDomain, warnings, before, domain, done)
        decreases todo
      {
        var id :| id in todo;
        AddStep(idToDomain, warnings, before, domain, done, id);
        todo, done := todo - {id}, done + {id};
        if id in idToDomain {
          warnings := warnings + [DuplicateId(id, idToDomain[id], domain.name)];
        }
        idToDomain := idToDomain[id := domain.name];
      }
      assert done == domain.canIds;
    }

    method AllKnownIds() returns (ids: set<uint32>)
      ensures ids == idToDomain.Keys
      ensures forall domains, newAliases :: Tables() == TablesOf(domains, newAliases) ==> ids == AllIds(domains)
    {
      ids := {};
      var todo := idToDomain.Keys;
      while todo != {}
        invariant todo <= idToDomain.Keys && ids == idToDomain.Keys - todo
        decreases todo
      {
        var id :| id in todo;
        todo := todo - {id};
        ids := ids + {id};
      }
      forall domains, newAliases | Tables() == TablesOf(domains, newAliases) ensures ids == AllIds(domains) {
        assert idToDomain == TablesOf(domains, newAliases).idToDomain;
      }
    }
  }

  lemma OneMoreId(before: seq<DomainConfig>, d: DomainConfig, ids: set<uint32>, id: uint32)
    requires id !in ids
    ensures Owner(before, id) == None ==> Reassigned(before, d, ids + {id}) == Reassigned(before, d, ids)
    ensures Owner(before, id).Some? ==>
              multiset(Reassigned(before, d, ids + {id})) ==
              multiset(Reassigned(before, d, ids)) + multiset{DuplicateId(id, Owner(before, id).value, d.name)}
  {
    var more := match Owner(before, id) case None => {} case Some(o) => {DuplicateId(id, o, d.name)};
    assert Reassigned(before, d, ids + {id}) == Reassigned(before, d, ids) + more;
    assert Reassigned(before, d, ids) !! more;
  }

  // ---------- what a configuration means, position by position ----------

  /** The k-th domain is the last one that lists the id. */
  ghost predicate LastLister(domains: seq<DomainConfig>, id: uint32, k: nat) {
    k < |domains| && id in domains[k].canIds && forall j | k < j < |domains| :: id !in domains[j].canIds
  }

  lemma {:induction false} OwnerIsLastLister(domains: seq<DomainConfig>, id: uint32, k: nat)
    requires LastLister(domains, id, k)
    ensures Owner(domains, id) == Some(domains[k].name)
  {
    if k < |domains| - 1 {
      OwnerIsLastLister(Init(domains), id, k);
    }
  }

  lemma {:induction false} UnlistedHasNoOwner(domains: seq<DomainConfig>, id: uint32)
    ensures Owner(domains, id) == None <==> forall k | 0 <= k < |domains| :: id !in domains[k].canIds
  {
    if domains != [] {
      UnlistedHasNoOwner(Init(domains), id);
      assert forall k | 0 <= k < |domains| - 1 :: Init(domains)[k] == domains[k];
    }
  }

  /** The known ids are the union of the id sets. */
  lemma {:induction false} AllIdsAreListed(domains: seq<DomainConfig>, id: uint32)
    ensures id in AllIds(domains) <==> exists k | 0 <= k < |domains| :: id in domains[k].canIds
  {
    OwnersAreListed(domains);
    UnlistedHasNoOwner(domains, id);
  }

  /** The last domain listing the id is itself called unassigned. */
  ghost predicate OwnerIsUnassigned(domains: seq<DomainConfig>, id: uint32) {
    exists k | 0 <= k < |domains| :: LastLister(domains, id, k) && domains[k].name == UNASSIGNED
  }

  lemma {:induction false} ListedHasLastLister(domains: seq<DomainConfig>, id: uint32) returns (k: nat)
    requires id in AllIds(domains)
    ensures LastLister(domains, id, k)
  {
    if id in Last(domains).canIds {
      k := |domains| - 1;
    } else {
      k := ListedHasLastLister(Init(domains), id);
    }
  }

  /** The unassigned domain is reported for unlisted ids, and for those of a domain that goes by its name. */
  lemma {:induction false} UnassignedIff(domains: seq<DomainConfig>, aliases: map<Text, Text>, id: uint32)
    ensures TablesOf(domains, aliases).DomainForId(id) == UNASSIGNED <==>
            id !in AllIds(domains) || OwnerIsUnassigned(domains, id)
  {
    if id in AllIds(domains) {
      var k := ListedHasLastLister(domains, id);
      OwnerIsLastLister(domains, id, k);
      assert TablesOf(domains, aliases).DomainForId(id) == domains[k].name;
      forall j | 0 <= j < |domains| && LastLister(domains, id, j) ensures j == k {}
    }
  }

  /** Such a domain: it lists an id and has a topic, and yet the id counts as unassigned. */
  lemma DomainNamedUnassigned(id: uint32, topic: Text, aliases: map<Text, Text>)
    ensures var tables := TablesOf([DomainConfig(UNASSIGNED, topic, {id})], aliases);
      id in tables.idToDomain && tables.DomainForId(id) == UNASSIGNED && tables.TopicForDomain(UNASSIGNED) == topic
  {
    var domains := [DomainConfig(UNASSIGNED, topic, {id})];
    assert Init(domains) == [] && domains[0] in domains;
    OwnersAreListed(domains);
  }

  lemma ReassignedCountStep(before: seq<DomainConfig>, d: DomainConfig, ids: set<uint32>, id: uint32)
    requires id !in ids && |Reassigned(before, d, ids)| == |ids * AllIds(before)|
    ensures |Reassigned(before, d, ids + {id})| == |(ids + {id}) * AllIds(before)|
  {
    OwnersAreListed(before);
    OneMoreId(before, d, ids, id);
    var known, reassigned, more := AllIds(before), Reassigned(before, d, ids), Reassigned(before, d, ids + {id});
    if id in known {
      assert (ids + {id}) * known == ids * known + {id};
      assert |more| == |multiset(more)| && |reassigned| == |multiset(reassigned)|;
    } else {
      assert (ids + {id}) * known == ids * known;
    }
  }

  lemma {:induction false} ReassignedCount(before: seq<DomainConfig>, d: DomainConfig, ids: set<uint32>)
    ensures |Reassigned(before, d, ids)| == |ids * AllIds(before)|
    decreases ids
  {
    if ids == {} {
      assert Reassigned(before, d, ids) == {} && ids * AllIds(before) == {};
    } else {
      var id :| id in ids;
      ReassignedCount(before, d, ids - {id});
      ReassignedCountStep(before, d, ids - {id}, id);
      assert ids == ids - {id} + {id};
    }
  }

  /** Every listing of an id beyond its first is warned about once. */
  lemma {:induction false} WarningCount(domains: seq<DomainConfig>)
    ensures |Warnings(domains)| == TotalSize(domains) - |AllIds(domains)|
  {
    if domains != [] {
      var before, d := Init(domains), Last(domains);
      WarningCount(before);
      ReassignedCount(before, d, d.canIds);
      var known := AllIds(before);
      assert |known + d.canIds| + |d.canIds * known| == |known| + |d.canIds| by {
        assert known * d.canIds == d.canIds * known;
      }
    }
  }

  /** No warnings exactly when the id sets are pairwise disjoint. */
  lemma {:induction false} NoWarningsIffDisjoint(domains: seq<DomainConfig>)
    ensures Warnings(domains) == multiset{} <==>
      forall j, k | 0 <= j < k < |domains| :: domains[j].canIds !! domains[k].canIds
  {
    if domains != [] {
      var before, d := Init(domains), Last(domains);
      NoWarningsIffDisjoint(before);
      forall k | 0 <= k < |before| ensures before[k] == domains[k] {}
      if id :| id in d.canIds && Owner(before, id).Some? {
        UnlistedHasNoOwner(before, id);
        assert DuplicateId(id, Owner(before, id).value, d.name) in Reassigned(before, d, d.canIds);
        assert DuplicateId(id, Owner(before, id).value, d.name) in Warnings(domains);
      } else {
        assert Reassigned(before, d, d.canIds) == {};
        forall k | 0 <= k < |before| ensures domains[k].canIds !! d.canIds {
          forall id | id in d.canIds ensures id !in before[k].canIds {
            UnlistedHasNoOwner(before, id);
          }
        }
      }
    }
  }

  /** The id belongs to the last domain listing it, in the router's table. */
  lemma {:induction false} TableOwnerIsLastLister(
      domains: seq<DomainConfig>, aliases: map<Text, Text>, id: uint32, k: nat)
    requires LastLister(domains, id, k)
    ensures Lookup(TablesOf(domains, aliases).idToDomain, id) == Some(domains[k].name)
  {
    OwnerIsLastLister(domains, id, k);
    OwnersAreListed(domains);
  }

  // ---------- topics, position by position ----------

  /** The k-th domain is the last one of its name. */
  ghost predicate LastNamed(domains: seq<DomainConfig>, name: Text, k: nat) {
    k < |domains| && domains[k].name == name && forall j | k < j < |domains| :: domains[j].name != name
  }

  lemma {:induction false} TopicIsThatOfLast(domains: seq<DomainConfig>, name: Text, k: nat)
    requires LastNamed(domains, name, k)
    ensures TopicOf(domains, name) == Some(domains[k].topic)
  {
    if k < |domains| - 1 {
      TopicIsThatOfLast(Init(domains), name, k);
    }
  }

  lemma {:induction false} NamedHasLast(domains: seq<DomainConfig>, name: Text) returns (k: nat)
    requires TopicOf(domains, name).Some?
    ensures LastNamed(domains, name, k)
  {
    if Last(domains).name == name {
      k := |domains| - 1;
    } else {
      k := NamedHasLast(Init(domains), name);
    }
  }

  /** A domain has the topic of the last entry of its name, and none exactly if there is no such entry. */
  lemma {:induction false} TableTopicIff(domains: seq<DomainConfig>, aliases: map<Text, Text>, name: Text, topic: Text)
    ensures Lookup(TablesOf(domains, aliases).domainToTopic, name) == Some(topic) <==>
            exists k | 0 <= k < |domains| :: LastNamed(domains, name, k) && domains[k].topic == topic
  {
    TopicsAreNamed(domains);
    if TopicOf(domains, name).Some? {
      var last := NamedHasLast(domains, name);
      TopicIsThatOfLast(domains, name, last);
      forall k | 0 <= k < |domains| && LastNamed(domains, name, k) ensures k == last {}
    } else {
      forall k | 0 <= k < |domains| ensures !LastNamed(domains, name, k) {
        if LastNamed(domains, name, k) {
          TopicIsThatOfLast(domains, name, k);
        }
      }
    }
  }

  // ---------- what the warnings say ----------

  /** The k-th domain lists an id that the j-th listed last before it. */
  ghost predicate Relists(domains: seq<DomainConfig>, id: uint32, j: nat, k: nat) {
    k < |domains| && id in domains[k].canIds && LastLister(domains[..k], id, j)
  }

  /** There is a warning exactly where an id moves from the last domain that lists it to the next. */
  lemma {:induction false} WarnedIff(domains: seq<DomainConfig>, w: Warning)
    ensures w in Warnings(domains) <==>
            exists j: nat, k: nat ::
              Relists(domains, w.id, j, k) && w.previous == domains[j].name && w.domain == domains[k].name
  {
    if domains != [] {
      var before, n := Init(domains), |domains| - 1;
      WarnedIff(before, w);
      assert domains[..n] == before;
      assert w in Warnings(domains) <==> w in Warnings(before) || w in Reassigned(before, Last(domains), Last(domains).canIds);
      forall j: nat, k: nat | k < n ensures Relists(domains, w.id, j, k) <==> Relists(before, w.id, j, k) {
        assert domains[..k] == before[..k];
      }
      LastReassigned(domains, w);
    }
  }

  lemma {:induction false} LastReassigned(domains: seq<DomainConfig>, w: Warning)
    requires domains != []
    ensures var n := |domains| - 1;
      w in Reassigned(Init(domains), Last(domains), Last(domains).canIds) <==>
      exists j: nat :: Relists(domains, w.id, j, n) && w.previous == domains[j].name && w.domain == domains[n].name
  {
    var before, n := Init(domains), |domains| - 1;
    assert domains[..n] == before;
    OwnersAreListed(before);
    if w.id in AllIds(before) {
      var last := ListedHasLastLister(before, w.id);
      OwnerIsLastLister(before, w.id, last);
      forall j: nat | LastLister(before, w.id, j) ensures j == last {}
    } else {
      forall j: nat ensures !LastLister(before, w.id, j) {
        if LastLister(before, w.id, j) {
          OwnerIsLastLister(before, w.id, j);
        }
      }
    }
  }
}
