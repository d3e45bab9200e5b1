/** The topic of every domain, as the node and as the converter build it. */
module TopicTables {
  import opened Common
  import opened SignalRouting
  import opened Configuration

  /** The routed domains that have a topic. */
  function RoutedTopics(cfg: PipelineConfig): map<Text, Text> {
    var routed := TablesOf(cfg.domains, cfg.aliases).domainToTopic;
    map d | d in routed && routed[d] != [] :: routed[d]
  }

  /** Node: routed domains with a topic, overridden by the schema's if those are published. */
  function NodeTopics(cfg: PipelineConfig, perDomain: bool): map<Text, Text> {
    RoutedTopics(cfg) + if perDomain then cfg.schemaTopics else map[]
  }

  /** Converter: routed domains, overridden by the schema's. */
  function ConverterTopics(cfg: PipelineConfig): map<Text, Text> {
    TablesOf(cfg.domains, cfg.aliases).domainToTopic + cfg.schemaTopics
  }

  /**
   * The settings under which both tables are the same: no routed domain outside
   * the schema has an empty topic, and schema topics are published per domain or
   * are the topics of routed domains anyway.
   */
  predicate TopicsAgree(cfg: PipelineConfig, perDomain: bool) {
    var routed := TablesOf(cfg.domains, cfg.aliases).domainToTopic;
    && (forall d | d in routed && d !in cfg.schemaTopics :: routed[d] != [])
    && (perDomain || forall d | d in cfg.schemaTopics ::
                       d in routed && routed[d] != [] && routed[d] == cfg.schemaTopics[d])
  }

  /** The same of one domain. */
  predicate TopicsAgreeOn(cfg: PipelineConfig, perDomain: bool, d: Text) {
    var routed := TablesOf(cfg.domains, cfg.aliases).domainToTopic;
    if d in cfg.schemaTopics then
      perDomain || (d in routed && routed[d] != [] && routed[d] == cfg.schemaTopics[d])
    else
      d in routed ==> routed[d] != []
  }

  lemma TopicsOfDomainEqualIff(cfg: PipelineConfig, perDomain: bool, d: Text)
    ensures Lookup(NodeTopics(cfg, perDomain), d) == Lookup(ConverterTopics(cfg), d) <==> TopicsAgreeOn(cfg, perDomain, d)
  {
  }

  lemma TopicTablesEqualIff(cfg: PipelineConfig, perDomain: bool)
    ensures NodeTopics(cfg, perDomain) == ConverterTopics(cfg) <==> TopicsAgree(cfg, perDomain)
  {
    var node, converter := NodeTopics(cfg, perDomain), ConverterTopics(cfg);
    forall d ensures Lookup(node, d) == Lookup(converter, d) <==> TopicsAgreeOn(cfg, perDomain, d) {
      TopicsOfDomainEqualIff(cfg, perDomain, d);
    }
    if TopicsAgree(cfg, perDomain) {
      forall d ensures Lookup(node, d) == Lookup(converter, d) {
        assert TopicsAgreeOn(cfg, perDomain, d);
      }
      SameLookups(node, converter);
    } else {
      var routed := TablesOf(cfg.domains, cfg.aliases).domainToTopic;
      if d :| d in routed && d !in cfg.schemaTopics && routed[d] == [] {
        assert !TopicsAgreeOn(cfg, perDomain, d);
      } else {
        var d :| d in cfg.schemaTopics && !(d in routed && routed[d] != [] && routed[d] == cfg.schemaTopics[d]);
        assert !TopicsAgreeOn(cfg, perDomain, d);
      }
    }
  }

  /** A domain with an empty topic, or a schema domain that is not published: the converter alone writes it. */
  lemma {:induction false} ConverterAloneWrites(cfg: PipelineConfig, d: Text)
    requires cfg.domains == [DomainConfig(d, [], {})] && cfg.schemaTopics == map[]
    ensures d in ConverterTopics(cfg) && d !in NodeTopics(cfg, true)
    ensures var schema := cfg.(domains := [], schemaTopics := map[d := DefaultTopic(d)]);
      d in ConverterTopics(schema) && d !in NodeTopics(schema, false)
  {
    assert Init(cfg.domains) == [] && cfg.domains[0] in cfg.domains;
    TopicsAreNamed(cfg.domains);
    assert TablesOf(cfg.domains, cfg.aliases).domainToTopic[d] == [];
  }

  /** The schema's topics on top of the routed ones, added in the map's own order. */
  method AddSchemaTopics(routed: map<Text, Text>, schemaTopics: map<Text, Text>) returns (topics: map<Text, Text>)
    ensures topics == routed + schemaTopics
  {
    topics := routed;
    var todo := schemaTopics.Keys;
    while todo != {}
      invariant todo <= schemaTopics.Keys
      invariant forall d :: Lookup(topics, d) ==
                            if d in schemaTopics.Keys - todo then Some(schemaTopics[d]) else Lookup(routed, d)
      decreases todo
    {
      var name :| name in todo;
      todo := todo - {name};
      topics := topics[name := schemaTopics[name]];
    }
    SameLookups(topics, routed + schemaTopics);
  }

  // ---------- which topic a domain has ----------

  /** The topic of the last routed domain of that name. */
  ghost predicate Routes(cfg: PipelineConfig, d: Text, topic: Text) {
    exists k | 0 <= k < |cfg.domains| :: LastNamed(cfg.domains, d, k) && cfg.domains[k].topic == topic
  }

  /** Node: the schema's topic, if published per domain, else the nonempty topic of the last domain of the name. */
  lemma {:induction false} NodeTopicIff(cfg: PipelineConfig, perDomain: bool, d: Text, topic: Text)
    ensures Lookup(NodeTopics(cfg, perDomain), d) == Some(topic) <==>
            if perDomain && d in cfg.schemaTopics then topic == cfg.schemaTopics[d]
            else topic != [] && Routes(cfg, d, topic)
  {
    TableTopicIff(cfg.domains, cfg.aliases, d, topic);
  }

  /** Converter: the schema's topic, else that of the last domain of the name. */
  lemma {:induction false} ConverterTopicIff(cfg: PipelineConfig, d: Text, topic: Text)
    ensures Lookup(ConverterTopics(cfg), d) == Some(topic) <==>
            if d in cfg.schemaTopics then topic == cfg.schemaTopics[d] else Routes(cfg, d, topic)
  {
    TableTopicIff(cfg.domains, cfg.aliases, d, topic);
  }
}
