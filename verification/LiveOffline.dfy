/** Results across components: the live node and the offline converter compute the same. */
module LiveOffline {
  import opened Common
  import opened Cdr
  import opened Stamps
  import opened CdrReader
  import opened SignalRouting
  import opened SignalPipeline
  import opened SchemaTables
  import opened Configuration
  import opened FramePipeline
  import opened SignalReference
  import opened TopicTables
  import opened VehicleCanNodes
  import Converter = BagConverter

  // ---------- listings of one set are permutations of each other ----------

  lemma {:induction false} OccursOnce<T(!new)>(s: seq<T>, x: T)
    requires NoDuplicates(s)
    ensures multiset(s)[x] == if x in s then 1 else 0
  {
    if s != [] {
      OccursOnce(Init(s), x);
      assert s == Init(s) + [Last(s)];
    }
  }

  lemma ListingsOfEqualSets<T(!new)>(a: seq<T>, A: set<T>, b: seq<T>, B: set<T>)
    requires Lists(a, A) && Lists(b, B)
    ensures multiset(a) == multiset(b) <==> A == B
  {
    forall x ensures multiset(a)[x] == (if x in A then 1 else 0) && multiset(b)[x] == (if x in B then 1 else 0) {
      OccursOnce(a, x);
      OccursOnce(b, x);
    }
    if multiset(a) == multiset(b) {
      forall x ensures x in A <==> x in B {
        assert multiset(a)[x] == multiset(b)[x];
      }
    }
  }

  // ---------- reading the converter's output back ----------

  /** What an independent CDR reader makes of a converted message. */
  function ReadBack(m: Converter.BagMessage): Option<Publication> {
    match ReadGroup(m.data, false)
    case None => None
    case Some((g, n)) => if n == |m.data| then Some(Publication(m.topic, g)) else None
  }

  /** The groups read back from a chunk are the listed ones. */
  ghost predicate ReadsBackAs(chunk: seq<Converter.BagMessage>, pubs: seq<Publication>) {
    |chunk| == |pubs| && forall i | 0 <= i < |pubs| :: ReadBack(chunk[i]) == Some(pubs[i])
  }

  /** The groups of a frame fit the 32-bit lengths of their serialization. */
  ghost predicate GroupsFit(p: Pipeline, f: Frame) {
    forall d | d in DomainsIn(FrameTags(p, f)) :: Fits(GroupMessage(f.stamp, d, OfDomain(FrameTags(p, f), d)))
  }

  lemma {:induction false} ChunkReadsBack(
      p: Pipeline, topics: map<Text, Text>, f: Frame, pubs: seq<Publication>, chunk: seq<Converter.BagMessage>)
    requires Converter.ChunkOf(p, topics, f, pubs, chunk) && GroupsFit(p, f)
    ensures ReadsBackAs(chunk, pubs)
  {
    forall i | 0 <= i < |pubs| ensures ReadBack(chunk[i]) == Some(pubs[i]) {
      assert pubs[i] in FrameGroups(p, topics, f);
      assert chunk[i] == Converter.MessageOf(pubs[i]);
      RoundTrip(pubs[i].group, [], false);
      assert Encode(pubs[i].group) + [] == Encode(pubs[i].group);
    }
  }

  // ---------- live and offline ----------

  /** The groups the node makes of a frame: none if it throws, and with the stamp its time converts back to. */
  function LiveGroups(p: Pipeline, topics: map<Text, Text>, f: Frame): set<Publication> {
    match NodeStamp(f.stamp)
    case None => {}
    case Some(s) => FrameGroups(p, topics, f.(stamp := s))
  }

  ghost predicate AgreeOn(tags: seq<Tag>, t: map<Text, Text>, u: map<Text, Text>) {
    forall d | d in DomainsIn(tags) :: Lookup(t, d) == Lookup(u, d)
  }

  ghost predicate HasTopic(tags: seq<Tag>, topics: map<Text, Text>) {
    exists d :: d in DomainsIn(tags) && d in topics
  }

  /**
   * When a frame comes out the same: its stamp is proper and the topic tables agree
   * on its domains, or neither side has anything to send.
   */
  ghost predicate ComesOutTheSame(p: Pipeline, t: map<Text, Text>, u: map<Text, Text>, f: Frame) {
    var tags := FrameTags(p, f);
    || (Proper(f.stamp) && AgreeOn(tags, t, u))
    || (!HasTopic(tags, u) && (f.stamp.sec < 0 || !HasTopic(tags, t)))
  }

  lemma {:induction false} GroupsAreEmptyIff(p: Pipeline, topics: map<Text, Text>, f: Frame)
    ensures FrameGroups(p, topics, f) == {} <==> !HasTopic(FrameTags(p, f), topics)
  {
    var tags := FrameTags(p, f);
    if d :| d in DomainsIn(tags) && d in topics {
      assert Publication(topics[d], GroupMessage(f.stamp, d, OfDomain(tags, d))) in FrameGroups(p, topics, f);
    }
  }

  lemma {:induction false} RestampKeepsTags(p: Pipeline, f: Frame, s: Stamp)
    ensures FrameTags(p, f.(stamp := s)) == FrameTags(p, f)
  {
  }

  /** Groups of different stamps are equal only if there are none. */
  lemma {:induction false} RestampedGroupsEqualIff(
      p: Pipeline, t: map<Text, Text>, u: map<Text, Text>, f: Frame, s: Stamp)
    requires s != f.stamp
    ensures FrameGroups(p, t, f.(stamp := s)) == FrameGroups(p, u, f) <==>
            !HasTopic(FrameTags(p, f), t) && !HasTopic(FrameTags(p, f), u)
  {
    var g := f.(stamp := s);
    RestampKeepsTags(p, f, s);
    GroupsAreEmptyIff(p, t, g);
    GroupsAreEmptyIff(p, u, f);
    if x :| x in FrameGroups(p, t, g) {
      assert x.group.stamp == s;
      assert x !in FrameGroups(p, u, f);
    }
  }

  /** For every frame: the node's groups and the converter's, from any two topic tables. */
  lemma {:induction false} LiveGroupsEqualIff(p: Pipeline, t: map<Text, Text>, u: map<Text, Text>, f: Frame)
    ensures LiveGroups(p, t, f) == FrameGroups(p, u, f) <==> ComesOutTheSame(p, t, u, f)
  {
    NodeStampKeepsIff(f.stamp);
    GroupsAreEmptyIff(p, u, f);
    match NodeStamp(f.stamp)
    case None =>
    case Some(s) =>
      if s == f.stamp {
        assert f.(stamp := s) == f;
        FrameGroupsEqualIff(p, t, u, f);
      } else {
        RestampedGroupsEqualIff(p, t, u, f, s);
      }
  }

  // ---------- two frames that come out differently ----------

  lemma OneDomainTopics(id: uint32, domain: Text, topic: Text, perDomain: bool)
    requires topic != []
    ensures NodeTopics(OneDomain(id, domain, topic), perDomain) == map[domain := topic]
    ensures ConverterTopics(OneDomain(id, domain, topic)) == map[domain := topic]
  {
    OneDomainTopic(id, domain, topic);
  }

  /** With one domain, signals of which the first alone has a value make up one tag. */
  lemma {:induction false} FirstSignalTags(
      p: Pipeline, raws: seq<RawSignal>, id: uint32, lib: Library, domain: Text, topic: Text,
      value: Text -> Option<Double>)
    requires p == PipelineOf(lib, OneDomain(id, domain, topic)) && domain != UNASSIGNED
    requires exists all :: lib == Constantly(lib.host, all, value)
    requires raws != [] && value(raws[0].name) == Some(0)
    requires forall i | 0 < i < |raws| :: value(raws[i].name) == None
    ensures Tags(p, raws, id) == [(domain, Signal(0, 0))]
  {
    OneDomainResolves(lib, Last(raws), id, domain, topic);
    if |raws| == 1 {
      assert Init(raws) == [];
    } else {
      FirstSignalTags(p, Init(raws), id, lib, domain, topic, value);
    }
  }

  lemma OneTagGroups(p: Pipeline, domain: Text, topic: Text, f: Frame)
    requires FrameTags(p, f) == [(domain, Signal(0, 0))]
    ensures FrameGroups(p, map[domain := topic], f) ==
            {Publication(topic, GroupMessage(f.stamp, domain, [Signal(0, 0)]))}
  {
    var tags: seq<Tag> := [(domain, Signal(0, 0))];
    assert Init(tags) == [] && DomainsIn(tags) == {domain} && OfDomain(tags, domain) == [Signal(0, 0)];
  }

  /** A frame of (0, 10^9) whose one signal has a topic on both sides is published as (1, 0), and converted as it is. */
  lemma {:induction false} ImproperStampComesOutDifferently(
      host: Host, f: Frame, raw: RawSignal, domain: Text, topic: Text, perDomain: bool)
    requires f.stamp == Stamp(0, NS_PER_SEC) && domain != UNASSIGNED && topic != []
    ensures var cfg, lib := OneDomain(f.id, domain, topic), Constantly(host, [raw], _ => Some(0));
      var p, group := PipelineOf(lib, cfg), GroupMessage(f.stamp, domain, [Signal(0, 0)]);
      && FrameGroups(p, ConverterTopics(cfg), f) == {Publication(topic, group)}
      && LiveGroups(p, NodeTopics(cfg, perDomain), f) == {Publication(topic, group.(stamp := Stamp(1, 0)))}
  {
    var lib := Constantly(host, [raw], _ => Some(0));
    var p := PipelineOf(lib, OneDomain(f.id, domain, topic));
    OneDomainTopics(f.id, domain, topic, perDomain);
    FirstSignalTags(p, [raw], f.id, lib, domain, topic, _ => Some(0));
    RestampKeepsTags(p, f, Stamp(1, 0));
    OneTagGroups(p, domain, topic, f);
    OneTagGroups(p, domain, topic, f.(stamp := Stamp(1, 0)));
    ImproperStampsChange();
  }

  /** A signal with a domain whose transform raises: the node publishes the frame's other signal, the conversion ends. */
  lemma {:induction false} ConverterStopsWhereNodeSkips(
      host: Host, f: Frame, a: RawSignal, b: RawSignal, domain: Text, topic: Text, perDomain: bool,
      m: Converter.BagMessage, deserialize: Text -> Option<Frame>)
    requires Proper(f.stamp) && a.name != b.name && domain != UNASSIGNED && topic != []
    requires m.topic == DEFAULT_CAN_TOPIC && deserialize(m.data) == Some(f)
    ensures var cfg := OneDomain(f.id, domain, topic);
      var value: Text -> Option<Double> := name => if name == a.name then Some(0) else None;
      var p := PipelineOf(Constantly(host, [a, b], value), cfg);
      && Converter.Fails(p, Converter.SourceOf(cfg, deserialize), m)
      && LiveGroups(p, NodeTopics(cfg, perDomain), f) ==
         {Publication(topic, GroupMessage(f.stamp, domain, [Signal(0, 0)]))}
  {
    var value: Text -> Option<Double> := name => if name == a.name then Some(0) else None;
    var lib := Constantly(host, [a, b], value);
    var p := PipelineOf(lib, OneDomain(f.id, domain, topic));
    OneDomainTopics(f.id, domain, topic, perDomain);
    OneDomainResolves(lib, b, f.id, domain, topic);
    assert Converter.TransformFails(p, [a, b][1], f.id);
    FirstSignalTags(p, [a, b], f.id, lib, domain, topic, value);
    OneTagGroups(p, domain, topic, f);
    NodeStampKeepsIff(f.stamp);
    assert f.(stamp := f.stamp) == f;
  }

  /** The node saw the first frames of the list, none of which made it throw. */
  ghost predicate SawFirst(frames: seq<Frame>, received: seq<Frame>) {
    && |received| <= |frames|
    && forall i | 0 <= i < |received| :: NodeStamp(frames[i].stamp).Some? && received[i] == Received(frames[i])
  }

  /**
   * For every run of frames, whatever the node published with topics t and the
   * converter wrote with topics u: in each frame both reached, the groups are the
   * same, up to their order, exactly if the frame comes out the same.
   */
  lemma {:induction false} FramesAgreeIff(
      p: Pipeline, t: map<Text, Text>, u: map<Text, Text>, frames: seq<Frame>,
      received: seq<Frame>, live: seq<seq<Publication>>,
      converted: seq<Frame>, pubs: seq<seq<Publication>>, chunks: seq<seq<Converter.BagMessage>>, i: nat)
    requires SawFirst(frames, received) && ChunksFit(p, t, received, live)
    requires converted <= frames && Converter.Chunked(p, u, converted, pubs, chunks)
    requires i < |live| && i < |chunks|
    ensures multiset(live[i]) == multiset(pubs[i]) <==> ComesOutTheSame(p, t, u, frames[i])
  {
    LiveGroupsEqualIff(p, t, u, frames[i]);
    assert converted[i] == frames[i];
    assert Converter.ChunkOf(p, u, converted[i], pubs[i], chunks[i]);
    ListingsOfEqualSets(live[i], LiveGroups(p, t, frames[i]), pubs[i], FrameGroups(p, u, frames[i]));
  }

  lemma {:induction false} FramesOfPrefix(src: Converter.Source, msgs: seq<Converter.BagMessage>, n: nat)
    requires n <= |msgs|
    ensures Converter.Frames(src, msgs[..n]) <= Converter.Frames(src, msgs)
    decreases |msgs|
  {
    if n == |msgs| {
      assert msgs[..n] == msgs;
    } else {
      FramesOfPrefix(src, Init(msgs), n);
      assert Init(msgs)[..n] == msgs[..n];
    }
  }

  /**
   * Live and offline: for every message stream, as far as the converter got with it,
   * and every node that saw the same frames, as far as it got with them, the groups
   * read back from the written bytes are the published ones, up to their order
   * within a frame, exactly for the frames that come out the same.
   */
  lemma {:induction false} LiveAndOfflineAgreeIff(
      lib: Library, cfg: PipelineConfig, perDomain: bool, src: Converter.Source, msgs: seq<Converter.BagMessage>,
      received: seq<Frame>, live: seq<seq<Publication>>,
      done: nat, pubs: seq<seq<Publication>>, chunks: seq<seq<Converter.BagMessage>>,
      output: seq<Converter.BagMessage>, summary: Converter.Summary, i: nat)
    requires SawFirst(Converter.Frames(src, msgs), received)
    requires ChunksFit(PipelineOf(lib, cfg), NodeTopics(cfg, perDomain), received, live)
    requires done <= |msgs|
    requires Converter.Converted(PipelineOf(lib, cfg), ConverterTopics(cfg), src, msgs[..done], pubs, chunks,
                                 output, summary)
    requires i < |live| && i < |chunks|
    ensures |chunks| == |Converter.Frames(src, msgs[..done])| <= |Converter.Frames(src, msgs)|
    ensures var f := Converter.Frames(src, msgs)[i];
      && (GroupsFit(PipelineOf(lib, cfg), f) ==> ReadsBackAs(chunks[i], pubs[i]))
      && (multiset(live[i]) == multiset(pubs[i]) <==>
          ComesOutTheSame(PipelineOf(lib, cfg), NodeTopics(cfg, perDomain), ConverterTopics(cfg), f))
  {
    var p, frames, converted := PipelineOf(lib, cfg), Converter.Frames(src, msgs), Converter.Frames(src, msgs[..done]);
    FramesOfPrefix(src, msgs, done);
    assert converted[i] == frames[i];
    if GroupsFit(p, frames[i]) {
      ChunkReadsBack(p, ConverterTopics(cfg), frames[i], pubs[i], chunks[i]);
    }
    FramesAgreeIff(p, NodeTopics(cfg, perDomain), ConverterTopics(cfg), frames, received, live, converted, pubs, chunks, i);
  }

  /** With agreeing settings every frame with a proper stamp comes out the same. */
  lemma {:induction false} AgreeingSettings(lib: Library, cfg: PipelineConfig, perDomain: bool, f: Frame)
    requires TopicsAgree(cfg, perDomain) && Proper(f.stamp)
    ensures ComesOutTheSame(PipelineOf(lib, cfg), NodeTopics(cfg, perDomain), ConverterTopics(cfg), f)
  {
    TopicTablesEqualIff(cfg, perDomain);
  }

  /**
   * A frame the converter gets through: the node's transform errors are all on
   * signals without a domain, so both forward every signal that has one.
   */
  lemma {:induction false} AssignedSignalsAreForwarded(p: Pipeline, raws: seq<RawSignal>, id: uint32)
    requires forall raw | raw in raws :: !Converter.TransformFails(p, raw, id)
    ensures |Tags(p, raws, id)| == AssignedCount(p, raws, id)
  {
    if raws != [] {
      assert Last(raws) in raws;
      AssignedSignalsAreForwarded(p, Init(raws), id);
    }
  }

  function AssignedCount(p: Pipeline, raws: seq<RawSignal>, id: uint32): nat {
    if raws == [] then 0
    else if p.Assigned(Last(raws), id) then AssignedCount(p, Init(raws), id) + 1
    else AssignedCount(p, Init(raws), id)
  }

  // ---------- no group is dropped for want of a topic ----------

  lemma {:induction false} TagDomainsHaveTopics(
      lib: Library, cfg: PipelineConfig, raws: seq<RawSignal>, id: uint32, d: Text)
    requires SchemaClosed(cfg.signalToDomain, cfg.schemaTopics)
    requires d in DomainsIn(Tags(PipelineOf(lib, cfg), raws, id))
    ensures d in ConverterTopics(cfg)
  {
    var p := PipelineOf(lib, cfg);
    var before := Tags(p, Init(raws), id);
    if p.Kept(Last(raws), id) {
      assert Init(Tags(p, raws, id)) == before;
      RoutingIsClosed(Last(raws).name, id, cfg.domains, cfg.aliases, cfg.signalToDomain, cfg.schemaTopics);
    }
    if d in DomainsIn(before) {
      TagDomainsHaveTopics(lib, cfg, Init(raws), id, d);
    }
  }

  /** A group goes to the topic of its schema domain, or else of the last routed domain of its name. */
  ghost predicate HasItsTopic(cfg: PipelineConfig, pub: Publication) {
    var d := pub.group.domain;
    if d in cfg.schemaTopics then pub.topic == cfg.schemaTopics[d] else Routes(cfg, d, pub.topic)
  }

  /**
   * For every parameter map and frame, the converter has a topic for each group:
   * its groups are one per domain, and together they carry every forwarded signal.
   */
  lemma {:induction false} NoGroupIsDropped(lib: Library, params: Params, f: Frame, pubs: seq<Publication>)
    requires |GetStrings(params, SIGNAL_ID_NAMES)| <= MAX_ENTRIES
    requires Lists(pubs, FrameGroups(PipelineOf(lib, ConfigOf(params)), ConverterTopics(ConfigOf(params)), f))
    ensures var tags := FrameTags(PipelineOf(lib, ConfigOf(params)), f);
      && (forall d :: d in DomainsIn(tags) <==> exists g :: g in pubs && g.group.domain == d)
      && (forall g | g in pubs :: g.group.signals == OfDomain(tags, g.group.domain))
      && (forall g | g in pubs :: HasItsTopic(ConfigOf(params), g))
      && (forall i, j | 0 <= i < j < |pubs| :: pubs[i].group.domain != pubs[j].group.domain)
  {
    var cfg := ConfigOf(params);
    var p := PipelineOf(lib, cfg);
    var tags := FrameTags(p, f);
    RoutesAreClosed(params, GetStrings(params, SCHEMA_DOMAIN_NAMES));
    forall g | g in pubs ensures HasItsTopic(cfg, g) {
      assert g in FrameGroups(p, ConverterTopics(cfg), f);
      ConverterTopicIff(cfg, g.group.domain, g.topic);
    }
    forall i, j | 0 <= i < j < |pubs| ensures pubs[i].group.domain != pubs[j].group.domain {
      assert pubs[i] in FrameGroups(p, ConverterTopics(cfg), f) && pubs[j] in FrameGroups(p, ConverterTopics(cfg), f);
    }
    forall d | d in DomainsIn(tags) ensures exists g :: g in pubs && g.group.domain == d {
      TagDomainsHaveTopics(lib, cfg, p.Decode(f).value, f.id, d);
      var g := Publication(ConverterTopics(cfg)[d], GroupMessage(f.stamp, d, OfDomain(tags, d)));
      assert g in FrameGroups(p, ConverterTopics(cfg), f);
    }
  }

  /** The signals of some groups, one group after the other. */
  function SignalsOf(pubs: seq<Publication>): seq<Signal> {
    if pubs == [] then [] else pubs[0].group.signals + SignalsOf(pubs[1..])
  }

  lemma {:induction false} SignalsOfGroups(tags: seq<Tag>, pubs: seq<Publication>) returns (ds: seq<Text>)
    requires forall i | 0 <= i < |pubs| :: pubs[i].group.signals == OfDomain(tags, pubs[i].group.domain)
    ensures |ds| == |pubs| && forall i | 0 <= i < |ds| :: ds[i] == pubs[i].group.domain
    ensures SignalsOf(pubs) == Concatenated(tags, ds)
  {
    ds := [];
    if pubs != [] {
      var rest := SignalsOfGroups(tags, pubs[1..]);
      ds := [pubs[0].group.domain] + rest;
    }
  }

  /**
   * However the groups of a frame are ordered, if each of its domains has a topic
   * they carry together exactly the signals of the frame's firehose.
   */
  lemma {:induction false} GroupsCarryTheFirehose(p: Pipeline, topics: map<Text, Text>, f: Frame, pubs: seq<Publication>)
    requires Lists(pubs, FrameGroups(p, topics, f))
    requires forall d | d in DomainsIn(FrameTags(p, f)) :: d in topics
    ensures multiset(SignalsOf(pubs)) == multiset(Signals(FrameTags(p, f)))
  {
    var tags := FrameTags(p, f);
    assert forall i | 0 <= i < |pubs| :: pubs[i] in FrameGroups(p, topics, f);
    var ds := SignalsOfGroups(tags, pubs);
    forall i, j | 0 <= i < j < |ds| ensures ds[i] != ds[j] {
      assert pubs[i] in FrameGroups(p, topics, f) && pubs[j] in FrameGroups(p, topics, f);
    }
    forall d | d in DomainsIn(tags) ensures d in ds {
      var g := Publication(topics[d], GroupMessage(f.stamp, d, OfDomain(tags, d)));
      assert g in FrameGroups(p, topics, f);
      var i :| 0 <= i < |pubs| && pubs[i] == g;
      assert ds[i] == d;
    }
    GroupsPartition(tags, ds);
  }

  // ---------- emitted ids lead back to names ----------

  /**
   * An emitted id is 0 exactly for names without one; any other id is found by
   * position in the published table if no earlier listed name occurs again later.
   */
  lemma {:induction false} EmittedIdResolves(
      p: Pipeline, names: seq<Text>, t: IdTables, rows: seq<SignalEntry>, raw: RawSignal, id: uint32)
    requires Publishes(rows, t, names) && p.nameToId == t.nameToId
    requires p.Kept(raw, id)
    ensures var name, nameId := p.Resolve(raw, id).name, TagOf(p, raw, id).1.nameId;
      && (nameId == 0 <==> name !in names)
      && nameId <= |names|
      && (nameId != 0 ==> (Resolves(rows, nameId, name) <==> forall i | 0 <= i < nameId - 1 :: IsLast(names, i)))
  {
    IdLeadsBack(names, t, rows, p.Resolve(raw, id).name);
  }

  lemma {:induction false} IdLeadsBack(names: seq<Text>, t: IdTables, rows: seq<SignalEntry>, name: Text)
    requires Publishes(rows, t, names)
    ensures name in t.nameToId <==> name in names
    ensures name in t.nameToId ==>
              var nameId := t.nameToId[name];
              && 0 < nameId <= |names|
              && (Resolves(rows, nameId, name) <==> forall i | 0 <= i < nameId - 1 :: IsLast(names, i))
  {
    IdOfName(names, name);
    if name in names {
      LookupSucceedsIff(names, t, rows, t.nameToId[name] - 1);
    }
  }

  // ---------- what stops the converter ----------

  /**
   * The converter stops at a message of its CAN topic that cannot be deserialized, or
   * that decodes to a signal with a domain whose transform raises, and at no other.
   */
  lemma {:induction false} ConverterStopsIff(
      lib: Library, cfg: PipelineConfig, src: Converter.Source, m: Converter.BagMessage)
    ensures Converter.Fails(PipelineOf(lib, cfg), src, m) <==>
      && m.topic == src.canTopic
      && match src.deserialize(m.data)
         case None => true
         case Some(f) =>
           exists raw, d :: raw in RawsOf(lib, f) && InDomain(cfg, f.id, NameOf(cfg, f.id, raw.name), d) &&
                            ValueOf(lib, cfg, f.id, raw) == None
  {
    match src.deserialize(m.data)
    case None =>
    case Some(f) =>
      var p := PipelineOf(lib, cfg);
      DecoderInput(lib, cfg, f);
      forall raw ensures Converter.TransformFails(p, raw, f.id) <==>
        (exists d :: InDomain(cfg, f.id, NameOf(cfg, f.id, raw.name), d)) && ValueOf(lib, cfg, f.id, raw) == None
      {
        StagesAgree(lib, cfg, raw, f.id);
        DomainsAgree(lib, cfg, raw, f.id, p.Resolve(raw, f.id).domain);
        forall d ensures InDomain(cfg, f.id, NameOf(cfg, f.id, raw.name), d) ==> p.Assigned(raw, f.id) {
          DomainsAgree(lib, cfg, raw, f.id, d);
        }
      }
  }

  /** The same of what a run of the node publishes, and of the signals its configuration makes it emit. */
  lemma {:induction false} EmittedIdResolvesInRun(
      lib: Library, params: Params, run: Run, id: uint32, raw: RawSignal, d: Text, s: Signal)
    requires NodeAccepts(lib.host, params) && SchemaFits(params, run)
    requires Emits(lib, ConfigOf(params), id, raw, d, s)
    ensures var names, name := GetStrings(params, Ascii("signal_id_names")), NameOf(ConfigOf(params), id, raw.name);
      && (s.nameId == 0 <==> name !in names)
      && s.nameId <= |names|
      && (s.nameId != 0 ==>
            (Resolves(run.signalTable, s.nameId, name) <==> forall i | 0 <= i < s.nameId - 1 :: IsLast(names, i)))
  {
    var names, name := GetStrings(params, SIGNAL_ID_NAMES), NameOf(ConfigOf(params), id, raw.name);
    var t := TablesOfParams(names, GetStrings(params, SIGNAL_ID_UNIT_NAMES), GetStrings(params, UNIT_ID_NAMES));
    assert ConfigOf(params).nameToId == t.nameToId;
    IdLeadsBack(names, t, run.signalTable, name);
  }
}
