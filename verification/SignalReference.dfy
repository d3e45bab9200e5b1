/**
 * What becomes of a raw signal, said from the libraries and the configuration alone,
 * and that the frames of the pipeline carry exactly this.
 */
module SignalReference {
  import opened Common
  import opened Cdr
  import opened SignalRouting
  import opened SignalPipeline
  import opened Configuration
  import opened FramePipeline
  import opened TopicTables
  import opened TimeoutMonitoring
  import opened VehicleCanNodes

  // ---------- reference ----------

  /** The first dlc bytes of a frame, at most eight, filled up with zeros. */
  function DataOf(f: Frame): Text {
    seq(8, i requires 0 <= i < 8 => if i < f.dlc then f.data[i] else 0)
  }

  /** What the decoder makes of a frame's own id and bytes. */
  function DecodedAs(lib: Library, f: Frame): Option<seq<RawSignal>> {
    lib.decode(f.id, DataOf(f))
  }

  /** The name of a raw signal on a CAN id: the alias of the compound key, of the raw name, or the raw name. */
  ghost function NameOf(cfg: PipelineConfig, id: uint32, rawName: Text): Text {
    var key := [67, 65, 78] + Decimal(id) + [95] + rawName;
    if key in cfg.aliases && cfg.aliases[key] != key then cfg.aliases[key]
    else if rawName in cfg.aliases then cfg.aliases[rawName]
    else rawName
  }

  /** The domain of a name: by the schema if it routes any, else that of the last domain listing the id. */
  ghost predicate InDomain(cfg: PipelineConfig, id: uint32, name: Text, d: Text) {
    && d != Ascii("unassigned")
    && if cfg.signalToDomain != map[] then name in cfg.signalToDomain && cfg.signalToDomain[name] == d
       else exists k | 0 <= k < |cfg.domains| :: LastLister(cfg.domains, id, k) && cfg.domains[k].name == d
  }

  /** The value of a raw signal: what the transform of its name makes of it. */
  ghost function ValueOf(lib: Library, cfg: PipelineConfig, id: uint32, raw: RawSignal): Option<Double> {
    lib.transform(cfg.transforms, NameOf(cfg, id, raw.name), raw.value)
  }

  /** The raw signal is emitted in the domain as the signal: the id of its name, or 0, and its value narrowed. */
  ghost predicate Emits(lib: Library, cfg: PipelineConfig, id: uint32, raw: RawSignal, d: Text, s: Signal) {
    var name, v := NameOf(cfg, id, raw.name), ValueOf(lib, cfg, id, raw);
    && InDomain(cfg, id, name, d) && v.Some?
    && s.nameId == (if name in cfg.nameToId then cfg.nameToId[name] else 0)
    && s.value == lib.narrow(v.value)
  }

  ghost predicate EmittedIn(lib: Library, cfg: PipelineConfig, id: uint32, raw: RawSignal, d: Text) {
    InDomain(cfg, id, NameOf(cfg, id, raw.name), d) && ValueOf(lib, cfg, id, raw).Some?
  }

  ghost predicate Emitted(lib: Library, cfg: PipelineConfig, id: uint32, raw: RawSignal) {
    exists d :: EmittedIn(lib, cfg, id, raw, d)
  }

  ghost predicate EmittedAs(lib: Library, cfg: PipelineConfig, id: uint32, raw: RawSignal, s: Signal) {
    exists d :: Emits(lib, cfg, id, raw, d, s)
  }

  // ---------- the pipeline's stages are the reference's ----------

  lemma DecoderInput(lib: Library, cfg: PipelineConfig, f: Frame)
    ensures PipelineOf(lib, cfg).Decode(f) == lib.decode(f.id, DataOf(f))
  {
    assert Payload(f) == DataOf(f);
  }

  lemma StagesAgree(lib: Library, cfg: PipelineConfig, raw: RawSignal, id: uint32)
    ensures var p := PipelineOf(lib, cfg);
      && p.Resolve(raw, id).name == NameOf(cfg, id, raw.name)
      && p.Value(raw, id) == ValueOf(lib, cfg, id, raw)
  {
    ResolvedNameIs(raw.name, id, TablesOf(cfg.domains, cfg.aliases), cfg.signalToDomain);
  }

  lemma {:induction false} DomainsAgree(lib: Library, cfg: PipelineConfig, raw: RawSignal, id: uint32, d: Text)
    ensures InDomain(cfg, id, NameOf(cfg, id, raw.name), d) <==>
            PipelineOf(lib, cfg).Assigned(raw, id) && PipelineOf(lib, cfg).Resolve(raw, id).domain == d
  {
    StagesAgree(lib, cfg, raw, id);
    if cfg.signalToDomain == map[] {
      OwnersAreListed(cfg.domains);
      if id in AllIds(cfg.domains) {
        var last := ListedHasLastLister(cfg.domains, id);
        OwnerIsLastLister(cfg.domains, id, last);
        forall k | 0 <= k < |cfg.domains| && LastLister(cfg.domains, id, k) ensures k == last {}
      } else {
        forall k | 0 <= k < |cfg.domains| ensures !LastLister(cfg.domains, id, k) {
          if LastLister(cfg.domains, id, k) {
            OwnerIsLastLister(cfg.domains, id, k);
          }
        }
      }
    }
  }

  /** A signal is kept exactly if it is emitted, and its tag is what is emitted. */
  lemma {:induction false} KeptIsEmitted(lib: Library, cfg: PipelineConfig, raw: RawSignal, id: uint32)
    ensures PipelineOf(lib, cfg).Kept(raw, id) <==> Emitted(lib, cfg, id, raw)
    ensures PipelineOf(lib, cfg).Kept(raw, id) ==>
              var tag := TagOf(PipelineOf(lib, cfg), raw, id);
              Emits(lib, cfg, id, raw, tag.0, tag.1) && forall d :: EmittedIn(lib, cfg, id, raw, d) <==> d == tag.0
  {
    var p := PipelineOf(lib, cfg);
    StagesAgree(lib, cfg, raw, id);
    DomainsAgree(lib, cfg, raw, id, p.Resolve(raw, id).domain);
    forall d ensures EmittedIn(lib, cfg, id, raw, d) <==> p.Kept(raw, id) && p.Resolve(raw, id).domain == d {
      DomainsAgree(lib, cfg, raw, id, d);
    }
    if p.Kept(raw, id) {
      assert EmittedIn(lib, cfg, id, raw, p.Resolve(raw, id).domain);
    }
  }

  // ---------- frames ----------

  /** The tags of a frame stem, in order, from exactly its emitted signals. */
  lemma {:induction false} TagsArePicked(
      lib: Library, cfg: PipelineConfig, raws: seq<RawSignal>, id: uint32,
      chosen: RawSignal -> bool, made: (nat, RawSignal, Tag) -> bool)
    returns (positions: seq<nat>)
    requires forall raw :: chosen(raw) <==> Emitted(lib, cfg, id, raw)
    requires forall k, raw, tag :: made(k, raw, tag) <==> Emits(lib, cfg, id, raw, tag.0, tag.1)
    ensures Picked(raws, Tags(PipelineOf(lib, cfg), raws, id), positions, chosen, made)
  {
    positions := [];
    if raws != [] {
      var p, before, raw := PipelineOf(lib, cfg), Init(raws), Last(raws);
      positions := TagsArePicked(lib, cfg, before, id, chosen, made);
      assert raws == before + [raw];
      KeptIsEmitted(lib, cfg, raw, id);
      if p.Kept(raw, id) {
        PickedOne(before, raw, Tags(p, before, id), TagOf(p, raw, id), positions, chosen, made);
        positions := positions + [|before|];
      } else {
        PickedNone(before, raw, Tags(p, before, id), positions, chosen, made);
      }
    }
  }

  lemma {:induction false} TagsAreEmitted(lib: Library, cfg: PipelineConfig, raws: seq<RawSignal>, id: uint32)
    returns (positions: seq<nat>)
    ensures Ascending(positions)
    ensures forall k :: k in positions <==> 0 <= k < |raws| && Emitted(lib, cfg, id, raws[k])
    ensures |positions| == |Tags(PipelineOf(lib, cfg), raws, id)|
    ensures forall j | 0 <= j < |positions| ::
              var (d, s) := Tags(PipelineOf(lib, cfg), raws, id)[j];
              positions[j] < |raws| && Emits(lib, cfg, id, raws[positions[j]], d, s)
  {
    positions := TagsArePicked(
      lib, cfg, raws, id, raw => Emitted(lib, cfg, id, raw),
      (_, raw, tag: Tag) => Emits(lib, cfg, id, raw, tag.0, tag.1));
  }

  /**
   * The firehose of a frame: its emitted signals, in order, each with the id of its
   * name and its transformed value.
   */
  lemma {:induction false} FirehoseIsEmitted(lib: Library, cfg: PipelineConfig, f: Frame, raws: seq<RawSignal>)
    returns (positions: seq<nat>)
    requires DecodedAs(lib, f) == Some(raws)
    ensures Ascending(positions)
    ensures forall k :: k in positions <==> 0 <= k < |raws| && Emitted(lib, cfg, f.id, raws[k])
    ensures |positions| == |Signals(FrameTags(PipelineOf(lib, cfg), f))|
    ensures forall j | 0 <= j < |positions| ::
              positions[j] < |raws| &&
              EmittedAs(lib, cfg, f.id, raws[positions[j]], Signals(FrameTags(PipelineOf(lib, cfg), f))[j])
  {
    var tags := FrameTags(PipelineOf(lib, cfg), f);
    DecoderInput(lib, cfg, f);
    positions := TagsAreEmitted(lib, cfg, raws, f.id);
    forall j | 0 <= j < |positions| ensures EmittedAs(lib, cfg, f.id, raws[positions[j]], Signals(tags)[j]) {
      SignalOfTag(tags, j);
      assert Emits(lib, cfg, f.id, raws[positions[j]], tags[j].0, tags[j].1);
    }
  }

  lemma {:induction false} SignalOfTag(tags: seq<Tag>, j: nat)
    requires j < |tags|
    ensures Signals(tags)[j] == tags[j].1
  {
    if j < |tags| - 1 {
      SignalOfTag(Init(tags), j);
    }
  }

  lemma {:induction false} DomainOfTag(tags: seq<Tag>, d: Text)
    ensures d in DomainsIn(tags) <==> exists j | 0 <= j < |tags| :: tags[j].0 == d
  {
    if tags != [] {
      DomainOfTag(Init(tags), d);
      assert forall j | 0 <= j < |tags| - 1 :: Init(tags)[j] == tags[j];
    }
  }

  /** The list of one domain: the signals emitted in it, in order. */
  lemma {:induction false} DomainListIsPicked(
      lib: Library, cfg: PipelineConfig, raws: seq<RawSignal>, id: uint32, d: Text,
      chosen: RawSignal -> bool, made: (nat, RawSignal, Signal) -> bool)
    returns (positions: seq<nat>)
    requires forall raw :: chosen(raw) <==> EmittedIn(lib, cfg, id, raw, d)
    requires forall k, raw, s :: made(k, raw, s) <==> Emits(lib, cfg, id, raw, d, s)
    ensures Picked(raws, OfDomain(Tags(PipelineOf(lib, cfg), raws, id), d), positions, chosen, made)
  {
    positions := [];
    if raws != [] {
      var p, before, raw := PipelineOf(lib, cfg), Init(raws), Last(raws);
      var list := OfDomain(Tags(p, before, id), d);
      positions := DomainListIsPicked(lib, cfg, before, id, d, chosen, made);
      assert raws == before + [raw];
      KeptIsEmitted(lib, cfg, raw, id);
      OneTagMore(p, raws, id, d);
      if p.Kept(raw, id) && TagOf(p, raw, id).0 == d {
        PickedOne(before, raw, list, TagOf(p, raw, id).1, positions, chosen, made);
        positions := positions + [|before|];
      } else {
        PickedNone(before, raw, list, positions, chosen, made);
      }
    }
  }

  lemma OneTagMore(p: Pipeline, raws: seq<RawSignal>, id: uint32, d: Text)
    requires raws != []
    ensures var before := OfDomain(Tags(p, Init(raws), id), d);
      OfDomain(Tags(p, raws, id), d) ==
      if p.Kept(Last(raws), id) && TagOf(p, Last(raws), id).0 == d then before + [TagOf(p, Last(raws), id).1] else before
  {
    if p.Kept(Last(raws), id) {
      assert Init(Tags(p, raws, id)) == Tags(p, Init(raws), id) && Last(Tags(p, raws, id)) == TagOf(p, Last(raws), id);
    }
  }

  /** A group message: the frame's stamp, no frame id, its domain's topic, and the signals emitted in the domain. */
  ghost predicate IsGroup(
      lib: Library, cfg: PipelineConfig, topics: map<Text, Text>, f: Frame, raws: seq<RawSignal>,
      pub: Publication, positions: seq<nat>)
  {
    var d, signals := pub.group.domain, pub.group.signals;
    && pub.group.stamp == f.stamp && pub.group.frameId == [] && Lookup(topics, d) == Some(pub.topic)
    && positions != [] && Ascending(positions) && |positions| == |signals|
    && (forall k :: k in positions <==> 0 <= k < |raws| && EmittedIn(lib, cfg, f.id, raws[k], d))
    && (forall j | 0 <= j < |positions| ::
          positions[j] < |raws| && Emits(lib, cfg, f.id, raws[positions[j]], d, signals[j]))
  }

  /** Every group of a frame is such a message. */
  lemma {:induction false} GroupIsEmitted(
      lib: Library, cfg: PipelineConfig, topics: map<Text, Text>, f: Frame, raws: seq<RawSignal>,
      pub: Publication)
    returns (positions: seq<nat>)
    requires DecodedAs(lib, f) == Some(raws)
    requires pub in FrameGroups(PipelineOf(lib, cfg), topics, f)
    ensures IsGroup(lib, cfg, topics, f, raws, pub, positions)
  {
    DecoderInput(lib, cfg, f);
    var tags := Tags(PipelineOf(lib, cfg), raws, f.id);
    var d := pub.group.domain;
    positions := DomainListIsPicked(
      lib, cfg, raws, f.id, d, raw => EmittedIn(lib, cfg, f.id, raw, d), (_, raw, s) => Emits(lib, cfg, f.id, raw, d, s));
    AbsentDomain(tags, pub.group.domain);
  }

  /** And there is one for every domain with a topic in which a signal is emitted. */
  lemma {:induction false} EmittedHasGroup(
      lib: Library, cfg: PipelineConfig, topics: map<Text, Text>, f: Frame, raws: seq<RawSignal>,
      k: nat, d: Text)
    returns (pub: Publication)
    requires DecodedAs(lib, f) == Some(raws)
    requires k < |raws| && EmittedIn(lib, cfg, f.id, raws[k], d) && d in topics
    ensures pub in FrameGroups(PipelineOf(lib, cfg), topics, f) && pub.group.domain == d
  {
    DecoderInput(lib, cfg, f);
    var tags := Tags(PipelineOf(lib, cfg), raws, f.id);
    var positions := DomainListIsPicked(
      lib, cfg, raws, f.id, d, raw => EmittedIn(lib, cfg, f.id, raw, d), (_, raw, s) => Emits(lib, cfg, f.id, raw, d, s));
    AbsentDomain(tags, d);
    pub := Publication(topics[d], GroupMessage(f.stamp, d, OfDomain(tags, d)));
  }

  /** An unknown frame has no groups. */
  lemma {:induction false} UnknownHasNoGroups(
      lib: Library, cfg: PipelineConfig, topics: map<Text, Text>, f: Frame)
    requires DecodedAs(lib, f) == None
    ensures FrameGroups(PipelineOf(lib, cfg), topics, f) == {}
  {
    DecoderInput(lib, cfg, f);
  }

  // ---------- what else the node makes of a frame ----------

  /** The firehose message: on its own topic, for the domain all, with all forwarded signals. */
  lemma FirehoseIs(s: NodeSettings, stamp: Stamp, tags: seq<Tag>)
    ensures Firehose(s, stamp, tags) ==
      if s.publishAll && tags != []
      then [Publication(s.allSignalsTopic, SignalGroup(stamp, [], Ascii("all"), Signals(tags)))]
      else []
  {
  }

  /** A raw signal is promoted on the topic with the value. */
  ghost predicate Promotes(
      lib: Library, cfg: PipelineConfig, promoted: map<Text, Text>, id: uint32, raw: RawSignal, topic: Text, v: Double)
  {
    Lookup(promoted, NameOf(cfg, id, raw.name)) == Some(topic) && ValueOf(lib, cfg, id, raw) == Some(v)
  }

  ghost predicate Promoted(lib: Library, cfg: PipelineConfig, promoted: map<Text, Text>, id: uint32, raw: RawSignal) {
    NameOf(cfg, id, raw.name) in promoted && ValueOf(lib, cfg, id, raw).Some?
  }

  /** Promotions stem, in order, from exactly the signals of promoted names that have a value. */
  lemma {:induction false} PromotionsArePicked(
      lib: Library, cfg: PipelineConfig, promoted: map<Text, Text>, raws: seq<RawSignal>, id: uint32,
      chosen: RawSignal -> bool, made: (nat, RawSignal, (Text, Double)) -> bool)
    returns (positions: seq<nat>)
    requires forall raw :: chosen(raw) <==> Promoted(lib, cfg, promoted, id, raw)
    requires forall k, raw, sent: (Text, Double) ::
               made(k, raw, sent) <==> Promotes(lib, cfg, promoted, id, raw, sent.0, sent.1)
    ensures Picked(raws, Promotions(PipelineOf(lib, cfg), promoted, raws, id), positions, chosen, made)
  {
    positions := [];
    if raws != [] {
      var p, before, raw := PipelineOf(lib, cfg), Init(raws), Last(raws);
      positions := PromotionsArePicked(lib, cfg, promoted, before, id, chosen, made);
      assert raws == before + [raw];
      StagesAgree(lib, cfg, raw, id);
      if Promoted(lib, cfg, promoted, id, raw) {
        PickedOne(before, raw, Promotions(p, promoted, before, id),
                  (promoted[NameOf(cfg, id, raw.name)], ValueOf(lib, cfg, id, raw).value), positions, chosen, made);
        positions := positions + [|before|];
      } else {
        PickedNone(before, raw, Promotions(p, promoted, before, id), positions, chosen, made);
      }
    }
  }

  lemma {:induction false} PromotionsAre(
      lib: Library, cfg: PipelineConfig, promoted: map<Text, Text>, raws: seq<RawSignal>, id: uint32)
    returns (positions: seq<nat>)
    ensures Ascending(positions)
    ensures forall k :: k in positions <==> 0 <= k < |raws| && Promoted(lib, cfg, promoted, id, raws[k])
    ensures |positions| == |Promotions(PipelineOf(lib, cfg), promoted, raws, id)|
    ensures forall j | 0 <= j < |positions| ::
              var sent := Promotions(PipelineOf(lib, cfg), promoted, raws, id)[j];
              positions[j] < |raws| && Promotes(lib, cfg, promoted, id, raws[positions[j]], sent.0, sent.1)
  {
    positions := PromotionsArePicked(
      lib, cfg, promoted, raws, id, raw => Promoted(lib, cfg, promoted, id, raw),
      (_, raw, sent: (Text, Double)) => Promotes(lib, cfg, promoted, id, raw, sent.0, sent.1));
  }

  /** The monitor is told of exactly the emitted signals, in order, each by its name and its own clock reading. */
  lemma {:induction false} ReceiptsArePicked(
      lib: Library, cfg: PipelineConfig, raws: seq<RawSignal>, id: uint32, clock: nat -> uint64,
      chosen: RawSignal -> bool, made: (nat, RawSignal, Event) -> bool)
    returns (positions: seq<nat>)
    requires forall raw :: chosen(raw) <==> Emitted(lib, cfg, id, raw)
    requires forall k, raw, e :: made(k, raw, e) <==> e == Receive(NameOf(cfg, id, raw.name), clock(k))
    ensures Picked(raws, ReceiptEvents(PipelineOf(lib, cfg), raws, id, clock), positions, chosen, made)
  {
    positions := [];
    if raws != [] {
      var p, before, raw := PipelineOf(lib, cfg), Init(raws), Last(raws);
      positions := ReceiptsArePicked(lib, cfg, before, id, clock, chosen, made);
      assert raws == before + [raw];
      StagesAgree(lib, cfg, raw, id);
      KeptIsEmitted(lib, cfg, raw, id);
      if p.Kept(raw, id) {
        PickedOne(before, raw, ReceiptEvents(p, before, id, clock), Receive(NameOf(cfg, id, raw.name), clock(|before|)),
                  positions, chosen, made);
        positions := positions + [|before|];
      } else {
        PickedNone(before, raw, ReceiptEvents(p, before, id, clock), positions, chosen, made);
      }
    }
  }

  lemma {:induction false} ReceiptsAre(
      lib: Library, cfg: PipelineConfig, raws: seq<RawSignal>, id: uint32, clock: nat -> uint64)
    returns (positions: seq<nat>)
    ensures Ascending(positions)
    ensures forall k :: k in positions <==> 0 <= k < |raws| && Emitted(lib, cfg, id, raws[k])
    ensures |positions| == |ReceiptEvents(PipelineOf(lib, cfg), raws, id, clock)|
    ensures forall j | 0 <= j < |positions| ::
              positions[j] < |raws| &&
              ReceiptEvents(PipelineOf(lib, cfg), raws, id, clock)[j] ==
              Receive(NameOf(cfg, id, raws[positions[j]].name), clock(positions[j]))
  {
    positions := ReceiptsArePicked(
      lib, cfg, raws, id, clock, raw => Emitted(lib, cfg, id, raw),
      (k: nat, raw: RawSignal, e: Event) => e == Receive(NameOf(cfg, id, raw.name), clock(k)));
  }

  // ---------- totals ----------

  function RawsOf(lib: Library, f: Frame): seq<RawSignal> {
    match DecodedAs(lib, f) case None => [] case Some(raws) => raws
  }

  /** Where the frames of known ids stand. */
  ghost function KnownAt(lib: Library, frames: seq<Frame>): set<int> {
    set i | 0 <= i < |frames| && DecodedAs(lib, frames[i]).Some?
  }

  /** Where the signals of a frame stand whose transform raises. */
  ghost function RaisedAt(lib: Library, cfg: PipelineConfig, raws: seq<RawSignal>, id: uint32): set<int> {
    set k | 0 <= k < |raws| && ValueOf(lib, cfg, id, raws[k]) == None
  }

  /** The number of raising signals of each frame. */
  ghost function RaisedCounts(lib: Library, cfg: PipelineConfig, frames: seq<Frame>): seq<nat> {
    seq(|frames|, i requires 0 <= i < |frames| => |RaisedAt(lib, cfg, RawsOf(lib, frames[i]), frames[i].id)|)
  }

  function Sum(counts: seq<nat>): nat {
    if counts == [] then 0 else Sum(Init(counts)) + Last(counts)
  }

  lemma {:induction false} DecodedAre(lib: Library, cfg: PipelineConfig, frames: seq<Frame>)
    ensures CountDecoded(PipelineOf(lib, cfg), frames) == |KnownAt(lib, frames)|
    ensures CountUnknown(PipelineOf(lib, cfg), frames) == |frames| - |KnownAt(lib, frames)|
  {
    if frames == [] {
      assert KnownAt(lib, frames) == {};
    } else {
      var before, n := Init(frames), |frames| - 1;
      DecodedAre(lib, cfg, before);
      DecoderInput(lib, cfg, Last(frames));
      var last := if DecodedAs(lib, Last(frames)).Some? then {n} else {};
      assert KnownAt(lib, frames) == KnownAt(lib, before) + last;
    }
  }

  lemma {:induction false} RaisedStep(lib: Library, cfg: PipelineConfig, before: seq<RawSignal>, raw: RawSignal, id: uint32)
    ensures |RaisedAt(lib, cfg, before + [raw], id)| ==
            |RaisedAt(lib, cfg, before, id)| + if ValueOf(lib, cfg, id, raw) == None then 1 else 0
  {
    var raws, n := before + [raw], |before|;
    var last: set<int> := if ValueOf(lib, cfg, id, raw) == None then {n} else {};
    forall k ensures k in RaisedAt(lib, cfg, raws, id) <==> k in RaisedAt(lib, cfg, before, id) + last {
      assert 0 <= k < n ==> raws[k] == before[k];
      assert raws[n] == raw;
    }
    assert RaisedAt(lib, cfg, raws, id) == RaisedAt(lib, cfg, before, id) + last;
  }

  lemma {:induction false} ErrorsAre(lib: Library, cfg: PipelineConfig, raws: seq<RawSignal>, id: uint32)
    ensures Errors(PipelineOf(lib, cfg), raws, id) == |RaisedAt(lib, cfg, raws, id)|
  {
    if raws == [] {
      assert RaisedAt(lib, cfg, raws, id) == {};
    } else {
      assert raws == Init(raws) + [Last(raws)];
      ErrorsAre(lib, cfg, Init(raws), id);
      StagesAgree(lib, cfg, Last(raws), id);
      RaisedStep(lib, cfg, Init(raws), Last(raws), id);
    }
  }

  lemma {:induction false} AllErrorsAre(lib: Library, cfg: PipelineConfig, frames: seq<Frame>)
    ensures CountErrors(PipelineOf(lib, cfg), frames) == Sum(RaisedCounts(lib, cfg, frames))
  {
    if frames != [] {
      var before, f := Init(frames), Last(frames);
      AllErrorsAre(lib, cfg, before);
      DecoderInput(lib, cfg, f);
      ErrorsAre(lib, cfg, RawsOf(lib, f), f.id);
      assert Init(RaisedCounts(lib, cfg, frames)) == RaisedCounts(lib, cfg, before);
    }
  }

  /** The node's counters, up to their 64 bits: frames, frames of known and unknown ids, and raising signals. */
  lemma CountersAre(
      lib: Library, cfg: PipelineConfig, frames: seq<Frame>,
      received: uint64, decoded: uint64, unknown: uint64, errors: uint64)
    requires CountersFit(PipelineOf(lib, cfg), frames, received, decoded, unknown, errors)
    ensures received == |frames| % 0x1_0000_0000_0000_0000
    ensures decoded == |KnownAt(lib, frames)| % 0x1_0000_0000_0000_0000
    ensures unknown == (|frames| - |KnownAt(lib, frames)|) % 0x1_0000_0000_0000_0000
    ensures errors == Sum(RaisedCounts(lib, cfg, frames)) % 0x1_0000_0000_0000_0000
  {
    DecodedAre(lib, cfg, frames);
    AllErrorsAre(lib, cfg, frames);
  }

  /** The monitored names: those of the emitted signals of all frames. */
  lemma {:induction false} NamesAre(lib: Library, cfg: PipelineConfig, frames: seq<Frame>, n: Text)
    ensures n in SeenNames(PipelineOf(lib, cfg), frames) <==>
            exists f, raw ::
              f in frames && raw in RawsOf(lib, f) && Emitted(lib, cfg, f.id, raw) && NameOf(cfg, f.id, raw.name) == n
  {
    if frames != [] {
      var f := Last(frames);
      NamesAre(lib, cfg, Init(frames), n);
      DecoderInput(lib, cfg, f);
      assert frames == Init(frames) + [f];
      forall raw ensures PipelineOf(lib, cfg).Kept(raw, f.id) <==> Emitted(lib, cfg, f.id, raw)
        ensures PipelineOf(lib, cfg).Resolve(raw, f.id).name == NameOf(cfg, f.id, raw.name)
      {
        KeptIsEmitted(lib, cfg, raw, f.id);
        StagesAgree(lib, cfg, raw, f.id);
      }
    }
  }

  /** What a diagnostic of a run says, given the frames and calls before it. */
  lemma DiagnosticIs(
      lib: Library, cfg: PipelineConfig, canTopic: Text, c: Callback, frames: seq<Frame>, h: seq<Event>, d: Diagnostic)
    requires Answers(PipelineOf(lib, cfg), canTopic, c, frames, h, d)
    ensures c.TimerFires? && d.stamp == c.stamp && d.canTopic == canTopic
    ensures d.framesReceived == |frames| % 0x1_0000_0000_0000_0000
    ensures d.framesDecoded == |KnownAt(lib, frames)| % 0x1_0000_0000_0000_0000
    ensures d.framesUnknown == (|frames| - |KnownAt(lib, frames)|) % 0x1_0000_0000_0000_0000
    ensures d.decodeErrors == Sum(RaisedCounts(lib, cfg, frames)) % 0x1_0000_0000_0000_0000
    ensures NoDuplicates(d.timedOutSignals)
    ensures forall n :: n in d.timedOutSignals <==> StatusAfter(h, n) == StatusTimeout
  {
    CountersAre(lib, cfg, frames, d.framesReceived, d.framesDecoded, d.framesUnknown, d.decodeErrors);
  }

  // ---------- what a run publishes, frame by frame ----------

  function MessagePieces(p: Pipeline, s: NodeSettings, frames: seq<Frame>, chunks: seq<seq<Publication>>): seq<seq<Publication>>
    requires |chunks| == |frames|
  {
    seq(|frames|, i requires 0 <= i < |frames| => chunks[i] + Firehose(s, frames[i].stamp, FrameTags(p, frames[i])))
  }

  /** The messages of a run: for each frame its groups, and then its firehose message. */
  lemma {:induction false} MessagesAre(p: Pipeline, s: NodeSettings, frames: seq<Frame>, chunks: seq<seq<Publication>>)
    requires |chunks| == |frames|
    ensures Messages(p, s, frames, chunks) == Flatten(MessagePieces(p, s, frames, chunks))
  {
    if frames != [] {
      var before := Messages(p, s, Init(frames), Init(chunks));
      MessagesAre(p, s, Init(frames), Init(chunks));
      assert Init(MessagePieces(p, s, frames, chunks)) == MessagePieces(p, s, Init(frames), Init(chunks));
      Associative(before, Last(chunks), Firehose(s, Last(frames).stamp, FrameTags(p, Last(frames))));
    }
  }

  function PromotionPieces(
      lib: Library, cfg: PipelineConfig, promoted: map<Text, Text>, frames: seq<Frame>): seq<seq<(Text, Double)>>
  {
    seq(|frames|, i requires 0 <= i < |frames| =>
          Promotions(PipelineOf(lib, cfg), promoted, RawsOf(lib, frames[i]), frames[i].id))
  }

  /** The promotions of a run: those of each frame, in order. */
  lemma {:induction false} AllPromotionsAre(lib: Library, cfg: PipelineConfig, promoted: map<Text, Text>, frames: seq<Frame>)
    ensures AllPromotions(PipelineOf(lib, cfg), promoted, frames) == Flatten(PromotionPieces(lib, cfg, promoted, frames))
  {
    if frames != [] {
      AllPromotionsAre(lib, cfg, promoted, Init(frames));
      DecoderInput(lib, cfg, Last(frames));
      assert Init(PromotionPieces(lib, cfg, promoted, frames)) == PromotionPieces(lib, cfg, promoted, Init(frames));
    }
  }
}
