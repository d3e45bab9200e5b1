/**
 * What one CAN frame means: the reference both the node and the converter are
 * proved against. Decoding, transform evaluation and float narrowing are
 * libraries; they appear as functions.
 */
module FramePipeline {
  import opened Common
  import opened Cdr
  import opened SignalRouting
  import opened SignalPipeline
  import opened Configuration

  /** The bit pattern of a double; never inspected here. */
  type Double = uint64

  datatype RawSignal = RawSignal(name: Text, value: Double)

  datatype CanFrame = CanFrame(stamp: Stamp, id: uint32, dlc: byte, data: Text)

  /** A frame carries eight data bytes, of which the first dlc count. */
  type Frame = f: CanFrame | |f.data| == 8 witness CanFrame(Stamp(0, 0), 0, 0, [0, 0, 0, 0, 0, 0, 0, 0])

  /**
   * `host` says what is accepted at start-up; `decode` finds no message for an unknown id; `transform` may raise an
   * exception; `narrow` converts a double to the bits of a float.
   */
  datatype Library = Library(
    host: Host,
    decode: (uint32, Text) -> Option<seq<RawSignal>>,
    transform: (map<Text, TransformConfig>, Text, Double) -> Option<Double>,
    narrow: Double -> uint32)

  function Payload(f: Frame): Text {
    var n := if f.dlc <= 8 then f.dlc else 8;
    f.data[..n] + Zeros(8 - n)
  }

  /** The configured stages of the pipeline. */
  datatype Pipeline = Pipeline(
    decode: (uint32, Text) -> Option<seq<RawSignal>>,
    resolve: (Text, uint32) -> SignalResolution,
    transform: (Text, Double) -> Option<Double>,
    nameToId: map<Text, uint16>,
    narrow: Double -> uint32)
  {
    function Decode(f: Frame): Option<seq<RawSignal>> {
      decode(f.id, Payload(f))
    }

    function Resolve(raw: RawSignal, id: uint32): SignalResolution {
      resolve(raw.name, id)
    }

    function SignalOf(name: Text, value: Double): Signal {
      Signal(if name in nameToId then nameToId[name] else 0, narrow(value))
    }

    predicate Assigned(raw: RawSignal, id: uint32) {
      Resolve(raw, id).IsAssigned()
    }

    /** The value of a raw signal after its transform. */
    function Value(raw: RawSignal, id: uint32): Option<Double> {
      transform(Resolve(raw, id).name, raw.value)
    }

    /** A signal is forwarded if it has a domain and its transform succeeds. */
    predicate Kept(raw: RawSignal, id: uint32) {
      Assigned(raw, id) && Value(raw, id).Some?
    }
  }

  function PipelineWith(lib: Library, router: RoutingTables, cfg: PipelineConfig): Pipeline {
    Pipeline(
      lib.decode,
      (name: Text, id: uint32) => ResolveSignal(name, id, router, cfg.signalToDomain),
      (name: Text, value: Double) => lib.transform(cfg.transforms, name, value),
      cfg.nameToId,
      lib.narrow)
  }

  /** The pipeline of a configuration. */
  function PipelineOf(lib: Library, cfg: PipelineConfig): Pipeline {
    PipelineWith(lib, TablesOf(cfg.domains, cfg.aliases), cfg)
  }

  // ---------- the forwarded signals of a frame, tagged with their domains ----------

  type Tag = (Text, Signal)

  function TagOf(p: Pipeline, raw: RawSignal, id: uint32): Tag
    requires p.Kept(raw, id)
  {
    var r := p.Resolve(raw, id);
    (r.domain, p.SignalOf(r.name, p.Value(raw, id).value))
  }

  function Tags(p: Pipeline, raws: seq<RawSignal>, id: uint32): seq<Tag> {
    if raws == [] then []
    else
      var raw := Last(raws);
      var before := Tags(p, Init(raws), id);
      if p.Kept(raw, id) then before + [TagOf(p, raw, id)] else before
  }

  function FrameTags(p: Pipeline, f: Frame): seq<Tag> {
    match p.Decode(f)
    case None => []
    case Some(raws) => Tags(p, raws, f.id)
  }

  function Signals(tags: seq<Tag>): (ss: seq<Signal>)
    ensures |ss| == |tags|
  {
    if tags == [] then [] else Signals(Init(tags)) + [Last(tags).1]
  }

  /** The signals of one domain, in order. */
  function OfDomain(tags: seq<Tag>, d: Text): seq<Signal> {
    if tags == [] then []
    else if Last(tags).0 == d then OfDomain(Init(tags), d) + [Last(tags).1]
    else OfDomain(Init(tags), d)
  }

  function DomainsIn(tags: seq<Tag>): set<Text> {
    if tags == [] then {} else DomainsIn(Init(tags)) + {Last(tags).0}
  }

  lemma SignalsStep(tags: seq<Tag>, t: Tag)
    ensures Signals(tags + [t]) == Signals(tags) + [t.1]
  {
    assert Init(tags + [t]) == tags;
  }

  function GroupsOf(tags: seq<Tag>): map<Text, seq<Signal>> {
    map d | d in DomainsIn(tags) :: OfDomain(tags, d)
  }

  lemma GroupsStep(tags: seq<Tag>, d: Text, s: Signal)
    ensures var m := GroupsOf(tags);
      GroupsOf(tags + [(d, s)]) == m[d := (if d in m then m[d] else []) + [s]]
  {
    var more := tags + [(d, s)];
    assert Init(more) == tags && Last(more) == (d, s);
    assert DomainsIn(more) == DomainsIn(tags) + {d};
    forall e ensures OfDomain(more, e) == if e == d then OfDomain(tags, e) + [s] else OfDomain(tags, e) {}
    AbsentDomain(tags, d);
    assert OfDomain(tags, d) == if d in GroupsOf(tags) then GroupsOf(tags)[d] else [];
  }

  lemma {:induction false} AbsentDomain(tags: seq<Tag>, d: Text)
    ensures d !in DomainsIn(tags) <==> OfDomain(tags, d) == []
  {
    if tags != [] {
      AbsentDomain(Init(tags), d);
    }
  }

  lemma {:induction false} TagsAreAssigned(p: Pipeline, raws: seq<RawSignal>, id: uint32)
    ensures UNASSIGNED !in DomainsIn(Tags(p, raws, id))
  {
    if raws != [] {
      TagsAreAssigned(p, Init(raws), id);
      var before := Tags(p, Init(raws), id);
      if p.Kept(Last(raws), id) {
        var tags := Tags(p, raws, id);
        assert |tags| == |before| + 1;
        assert Init(tags) == before && Last(tags).0 == p.Resolve(Last(raws), id).domain;
        assert DomainsIn(tags) == DomainsIn(before) + {Last(tags).0};
      }
    }
  }

  // ---------- counting ----------

  /** Signals whose transform raises an exception. */
  function Errors(p: Pipeline, raws: seq<RawSignal>, id: uint32): nat {
    if raws == [] then 0
    else Errors(p, Init(raws), id) + if p.Value(Last(raws), id).None? then 1 else 0
  }

  /** Signals that are transformed but belong to no domain. */
  function Unassigned(p: Pipeline, raws: seq<RawSignal>, id: uint32): nat {
    if raws == [] then 0
    else Unassigned(p, Init(raws), id) + if p.Value(Last(raws), id).Some? && !p.Assigned(Last(raws), id) then 1 else 0
  }

  /** Every decoded signal is forwarded, unassigned or an error. */
  lemma {:induction false} SignalsAreConserved(p: Pipeline, raws: seq<RawSignal>, id: uint32)
    ensures |raws| == |Tags(p, raws, id)| + Unassigned(p, raws, id) + Errors(p, raws, id)
  {
    if raws != [] {
      SignalsAreConserved(p, Init(raws), id);
    }
  }

  predicate AllKept(p: Pipeline, raws: seq<RawSignal>, id: uint32) {
    forall raw | raw in raws :: p.Kept(raw, id)
  }

  /** The firehose has an entry for every decoded signal exactly if all of them have a domain and a value. */
  lemma {:induction false} FirehoseIsCompleteIff(p: Pipeline, raws: seq<RawSignal>, id: uint32)
    ensures |Signals(Tags(p, raws, id))| <= |raws|
    ensures |Signals(Tags(p, raws, id))| == |raws| <==> AllKept(p, raws, id)
  {
    if raws != [] {
      FirehoseIsCompleteIff(p, Init(raws), id);
      assert Last(raws) in raws && forall raw | raw in Init(raws) :: raw in raws;
      assert raws == Init(raws) + [Last(raws)];
    }
  }

  // ---------- small configurations, for examples ----------

  /** Libraries that decode every frame to the given signals, with values by name. */
  function Constantly(host: Host, raws: seq<RawSignal>, value: Text -> Option<Double>): Library {
    Library(host, (_, _) => Some(raws), (_, name, _) => value(name), _ => 0)
  }

  /** One domain for one CAN id, without schema, aliases and transforms. */
  function OneDomain(id: uint32, domain: Text, topic: Text): PipelineConfig {
    PipelineConfig(DEFAULT_CAN_TOPIC, [DomainConfig(domain, topic, {id})], map[], map[], map[], map[], map[])
  }

  /** No domain at all. */
  function NoDomains(): PipelineConfig {
    PipelineConfig(DEFAULT_CAN_TOPIC, [], map[], map[], map[], map[], map[])
  }

  lemma OneDomainResolves(lib: Library, raw: RawSignal, id: uint32, domain: Text, topic: Text)
    ensures PipelineOf(lib, OneDomain(id, domain, topic)).Resolve(raw, id) == SignalResolution(raw.name, domain)
  {
    var domains := [DomainConfig(domain, topic, {id})];
    assert LastLister(domains, id, 0);
    RoutedToLastLister(raw.name, id, domains, map[], 0);
  }

  lemma NoDomainsResolves(lib: Library, raw: RawSignal, id: uint32)
    ensures PipelineOf(lib, NoDomains()).Resolve(raw, id) == SignalResolution(raw.name, UNASSIGNED)
  {
    UnlistedIsUnassigned(raw.name, id, [], map[]);
  }

  lemma OneDomainTopic(id: uint32, domain: Text, topic: Text)
    ensures TablesOf(OneDomain(id, domain, topic).domains, map[]).domainToTopic == map[domain := topic]
  {
    var domains := OneDomain(id, domain, topic).domains;
    assert Init(domains) == [] && domains[0] in domains;
    TopicsAreNamed(domains);
    assert Names(domains) == {domain};
  }

  /** One decoded signal without a domain: the firehose is empty. */
  lemma FirehoseMissesUnassigned(host: Host, f: Frame, raw: RawSignal)
    ensures var p := PipelineOf(Constantly(host, [raw], _ => Some(0)), NoDomains());
      p.Decode(f) == Some([raw]) && Signals(Tags(p, [raw], f.id)) == []
  {
    var lib := Constantly(host, [raw], _ => Some(0));
    NoDomainsResolves(lib, raw, f.id);
    assert Init([raw]) == [] && !PipelineOf(lib, NoDomains()).Kept(raw, f.id);
  }

  function CountDecoded(p: Pipeline, frames: seq<Frame>): nat {
    if frames == [] then 0 else CountDecoded(p, Init(frames)) + if p.Decode(Last(frames)).Some? then 1 else 0
  }

  function CountUnknown(p: Pipeline, frames: seq<Frame>): nat {
    if frames == [] then 0 else CountUnknown(p, Init(frames)) + if p.Decode(Last(frames)).None? then 1 else 0
  }

  lemma {:induction false} EveryFrameIsDecodedOrUnknown(p: Pipeline, frames: seq<Frame>)
    ensures CountDecoded(p, frames) + CountUnknown(p, frames) == |frames|
  {
    if frames != [] {
      EveryFrameIsDecodedOrUnknown(p, Init(frames));
    }
  }

  // ---------- the per-domain lists partition the forwarded signals ----------

  /** s lists the elements of S, each once, in some order. */
  ghost predicate Lists<T(!new)>(s: seq<T>, S: set<T>) {
    (forall x :: x in s <==> x in S) && NoDuplicates(s)
  }

  /** The lists of the given domains one after the other. */
  function Concatenated(tags: seq<Tag>, ds: seq<Text>): seq<Signal> {
    if ds == [] then [] else OfDomain(tags, ds[0]) + Concatenated(tags, ds[1..])
  }

  lemma {:induction false} ConcatenatedStep(tags: seq<Tag>, t: Tag, ds: seq<Text>)
    requires NoDuplicates(ds)
    ensures multiset(Concatenated(tags + [t], ds)) ==
            multiset(Concatenated(tags, ds)) + if t.0 in ds then multiset{t.1} else multiset{}
  {
    if ds != [] {
      assert Init(tags + [t]) == tags;
      ConcatenatedStep(tags, t, ds[1..]);
    }
  }

  lemma {:induction false} GroupsPartition(tags: seq<Tag>, ds: seq<Text>)
    requires NoDuplicates(ds)
    requires forall d | d in DomainsIn(tags) :: d in ds
    ensures multiset(Concatenated(tags, ds)) == multiset(Signals(tags))
  {
    if tags == [] {
      NothingConcatenated(ds);
    } else {
      GroupsPartition(Init(tags), ds);
      assert tags == Init(tags) + [Last(tags)];
      ConcatenatedStep(Init(tags), Last(tags), ds);
    }
  }

  lemma {:induction false} NothingConcatenated(ds: seq<Text>)
    ensures Concatenated([], ds) == []
  {
    if ds != [] {
      NothingConcatenated(ds[1..]);
    }
  }

  /** Every per-domain list is the firehose restricted to the positions of its domain. */
  lemma {:induction false} GroupIsFilteredFirehose(tags: seq<Tag>, d: Text)
    returns (positions: seq<nat>)
    ensures forall i, j | 0 <= i < j < |positions| :: positions[i] < positions[j]
    ensures forall k :: k in positions <==> 0 <= k < |tags| && tags[k].0 == d
    ensures |positions| == |OfDomain(tags, d)|
    ensures forall i | 0 <= i < |positions| ::
              positions[i] < |tags| && OfDomain(tags, d)[i] == Signals(tags)[positions[i]]
  {
    positions := [];
    if tags != [] {
      positions := GroupIsFilteredFirehose(Init(tags), d);
      if Last(tags).0 == d {
        positions := positions + [|tags| - 1];
      }
    }
  }

  // ---------- publications ----------

  datatype Publication = Publication(topic: Text, group: SignalGroup)

  function GroupMessage(stamp: Stamp, d: Text, signals: seq<Signal>): SignalGroup {
    SignalGroup(stamp, [], d, signals)
  }

  /** The groups of the given domains, for those that have a topic. */
  function Publications(topics: map<Text, Text>, stamp: Stamp, tags: seq<Tag>, ds: set<Text>): set<Publication> {
    set d | d in ds && d in topics :: Publication(topics[d], GroupMessage(stamp, d, OfDomain(tags, d)))
  }

  /** All groups of a frame that have a topic to go to. */
  function FrameGroups(p: Pipeline, topics: map<Text, Text>, f: Frame): set<Publication> {
    Publications(topics, f.stamp, FrameTags(p, f), DomainsIn(FrameTags(p, f)))
  }

  /** One domain more. */
  lemma ListsStep(topics: map<Text, Text>, stamp: Stamp, tags: seq<Tag>, ds: set<Text>, d: Text, s: seq<Publication>)
    requires d !in ds && Lists(s, Publications(topics, stamp, tags, ds))
    ensures d !in topics ==> Lists(s, Publications(topics, stamp, tags, ds + {d}))
    ensures d in topics ==>
              Lists(s + [Publication(topics[d], GroupMessage(stamp, d, OfDomain(tags, d)))],
                    Publications(topics, stamp, tags, ds + {d}))
  {
    if d !in topics {
      assert Publications(topics, stamp, tags, ds + {d}) == Publications(topics, stamp, tags, ds);
    } else {
      var x := Publication(topics[d], GroupMessage(stamp, d, OfDomain(tags, d)));
      assert Publications(topics, stamp, tags, ds + {d}) == Publications(topics, stamp, tags, ds) + {x};
      assert x !in Publications(topics, stamp, tags, ds);
    }
  }

  /**
   * Two topic tables give a frame the same groups exactly if they agree on the
   * domains of its signals.
   */
  lemma FrameGroupsEqualIff(p: Pipeline, t: map<Text, Text>, u: map<Text, Text>, f: Frame)
    ensures FrameGroups(p, t, f) == FrameGroups(p, u, f) <==>
            forall d | d in DomainsIn(FrameTags(p, f)) :: Lookup(t, d) == Lookup(u, d)
  {
    var tags := FrameTags(p, f);
    if FrameGroups(p, t, f) == FrameGroups(p, u, f) {
      forall d | d in DomainsIn(tags) ensures Lookup(t, d) == Lookup(u, d) {
        var g := GroupMessage(f.stamp, d, OfDomain(tags, d));
        if d in t {
          assert Publication(t[d], g) in FrameGroups(p, u, f);
        }
        if d in u {
          assert Publication(u[d], g) in FrameGroups(p, t, f);
        }
      }
    } else {
      if forall d | d in DomainsIn(tags) :: Lookup(t, d) == Lookup(u, d) {
        forall x ensures x in FrameGroups(p, t, f) <==> x in FrameGroups(p, u, f) {
          assert Lookup(t, x.group.domain) == Lookup(u, x.group.domain) || x.group.domain !in DomainsIn(tags);
        }
      }
    }
  }
}
