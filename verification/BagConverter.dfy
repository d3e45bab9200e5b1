/**
 * The offline converter: a stream of bag messages in, a stream of bag messages
 * out, with CAN frames replaced by their serialized signal groups.
 */
module BagConverter {
  import opened Common
  import opened Cdr
  import opened Stamps
  import opened SignalRouting
  import opened ParamMaps
  import opened SchemaTables
  import opened Configuration
  import opened FramePipeline
  import opened TopicTables

  datatype BagMessage = BagMessage(topic: Text, time: int64, data: Text)

  datatype Summary = Summary(
    framesIn: uint64, framesDecoded: uint64, framesUnknown: uint64, groupsOut: uint64, passthrough: uint64)

  /** The counts as uint64 counters show them. */
  function SummaryOf(framesIn: nat, decoded: nat, unknown: nat, groupsOut: nat, passthrough: nat): Summary {
    Summary(framesIn % TWO_64, decoded % TWO_64, unknown % TWO_64, groupsOut % TWO_64, passthrough % TWO_64)
  }

  /** The converter's inputs: how frames are deserialized, and from which topic. */
  datatype Source = Source(canTopic: Text, deserialize: Text -> Option<Frame>)

  function SourceOf(cfg: PipelineConfig, deserialize: Text -> Option<Frame>): Source {
    Source(cfg.canTopic, deserialize)
  }

  function MessageOf(pub: Publication): BagMessage {
    BagMessage(pub.topic, TimeOf(pub.group.stamp), Encode(pub.group))
  }

  // ---------- which messages stop the conversion ----------

  predicate IsCan(src: Source, m: BagMessage) {
    m.topic == src.canTopic
  }

  /** The transform of a signal with a domain raises an exception. */
  predicate TransformFails(p: Pipeline, raw: RawSignal, id: uint32) {
    p.Assigned(raw, id) && p.Value(raw, id).None?
  }

  predicate FrameFails(p: Pipeline, f: Frame) {
    match p.Decode(f)
    case None => false
    case Some(raws) => exists raw | raw in raws :: TransformFails(p, raw, f.id)
  }

  predicate Fails(p: Pipeline, src: Source, m: BagMessage) {
    IsCan(src, m) &&
    match src.deserialize(m.data)
    case None => true
    case Some(f) => FrameFails(p, f)
  }

  // ---------- meaning of a message stream ----------

  /** The frames of the CAN messages, in order. */
  function Frames(src: Source, msgs: seq<BagMessage>): seq<Frame> {
    if msgs == [] then []
    else if IsCan(src, Last(msgs)) && src.deserialize(Last(msgs).data).Some? then
      Frames(src, Init(msgs)) + [src.deserialize(Last(msgs).data).value]
    else Frames(src, Init(msgs))
  }

  /** The messages with each CAN message replaced by the next chunk. */
  function Spliced(src: Source, msgs: seq<BagMessage>, chunks: seq<seq<BagMessage>>): seq<BagMessage> {
    if msgs == [] then []
    else if !IsCan(src, Last(msgs)) then Spliced(src, Init(msgs), chunks) + [Last(msgs)]
    else if chunks == [] then Spliced(src, Init(msgs), chunks)
    else Spliced(src, Init(msgs), Init(chunks)) + Last(chunks)
  }

  function CountOther(src: Source, msgs: seq<BagMessage>): nat {
    if msgs == [] then 0 else CountOther(src, Init(msgs)) + if IsCan(src, Last(msgs)) then 0 else 1
  }

  function CountCan(src: Source, msgs: seq<BagMessage>): nat {
    if msgs == [] then 0 else CountCan(src, Init(msgs)) + if IsCan(src, Last(msgs)) then 1 else 0
  }

  function TotalLength<T>(chunks: seq<seq<T>>): nat {
    if chunks == [] then 0 else TotalLength(Init(chunks)) + |Last(chunks)|
  }

  /** The messages are those of the publications. */
  ghost predicate Carries(chunk: seq<BagMessage>, pubs: seq<Publication>) {
    |chunk| == |pubs| && forall i | 0 <= i < |pubs| :: chunk[i] == MessageOf(pubs[i])
  }

  /** A chunk carries the groups of a frame, serialized, in some order. */
  ghost predicate ChunkOf(p: Pipeline, topics: map<Text, Text>, f: Frame, pubs: seq<Publication>, chunk: seq<BagMessage>) {
    Lists(pubs, FrameGroups(p, topics, f)) && Carries(chunk, pubs)
  }

  // ---------- topics ----------

  method BuildTopics(cfg: PipelineConfig) returns (topics: map<Text, Text>)
    ensures topics == ConverterTopics(cfg)
  {
    topics := map[];
    for i := 0 to |cfg.domains|
      invariant forall d :: Lookup(topics, d) == TopicOf(cfg.domains[..i], d)
    {
      OneMore(cfg.domains, i);
      topics := topics[cfg.domains[i].name := cfg.domains[i].topic];
    }
    assert cfg.domains[..|cfg.domains|] == cfg.domains;
    TopicsAreNamed(cfg.domains);
    SameLookups(topics, TablesOf(cfg.domains, cfg.aliases).domainToTopic);
    topics := AddSchemaTopics(topics, cfg.schemaTopics);
  }

  // ---------- one frame ----------

  /** The groups a frame's tags make up, before anything is sent. */
  function GroupMessages(stamp: Stamp, tags: seq<Tag>): map<Text, SignalGroup> {
    map d | d in DomainsIn(tags) :: GroupMessage(stamp, d, OfDomain(tags, d))
  }

  lemma {:induction false} GroupMessagesStep(stamp: Stamp, tags: seq<Tag>, d: Text, s: Signal)
    ensures var m := GroupMessages(stamp, tags);
      GroupMessages(stamp, tags + [(d, s)]) ==
      m[d := GroupMessage(stamp, d, (if d in m then m[d].signals else []) + [s])]
  {
    GroupsStep(tags, d, s);
    var more := tags + [(d, s)];
    assert Init(more) == tags && Last(more) == (d, s);
    assert forall e :: e in GroupsOf(more) ==> GroupsOf(more)[e] == OfDomain(more, e);
    assert forall e :: e in GroupsOf(tags) ==> GroupsOf(tags)[e] == OfDomain(tags, e);
  }

  /**
   * The loop over the decoded signals. Signals without a domain are skipped before
   * their transform; an exception of a transform ends the conversion.
   */
  method BuildGroups(p: Pipeline, f: Frame, raws: seq<RawSignal>) returns (r: Option<map<Text, SignalGroup>>)
    ensures r.Some? <==> forall raw | raw in raws :: !TransformFails(p, raw, f.id)
    ensures r.Some? ==> r.value == GroupMessages(f.stamp, Tags(p, raws, f.id))
  {
    var groups: map<Text, SignalGroup> := map[];
    ghost var tags: seq<Tag> := [];
    for i := 0 to |raws|
      invariant tags == Tags(p, raws[..i], f.id)
      invariant groups == GroupMessages(f.stamp, tags)
      invariant forall j | 0 <= j < i :: !TransformFails(p, raws[j], f.id)
    {
      OneMore(raws, i);
      var raw := raws[i];
      var res := p.resolve(raw.name, f.id);
      if !res.IsAssigned() {
        continue;
      }
      var tr := p.transform(res.name, raw.value);
      if tr.None? {
        assert raw in raws && TransformFails(p, raw, f.id);
        return None;
      }
      var group := if res.domain in groups then groups[res.domain] else SignalGroup(Stamp(0, 0), [], [], []);
      if group.domain == [] {
        group := group.(stamp := f.stamp);
        group := group.(domain := res.domain);
      }
      var sig := Signal(if res.name in p.nameToId then p.nameToId[res.name] else 0, p.narrow(tr.value));
      GroupMessagesStep(f.stamp, tags, res.domain, sig);
      tags := tags + [(res.domain, sig)];
      groups := groups[res.domain := group.(signals := group.signals + [sig])];
    }
    assert raws[..|raws|] == raws;
    return Some(groups);
  }

  /** The bag message of a group, stamped with the time of its frame. */
  method SerializeGroup(topic: Text, group: SignalGroup, stamp: Stamp) returns (m: BagMessage)
    requires group.stamp == stamp
    ensures m == MessageOf(Publication(topic, group))
  {
    var buffer := new Buffer();
    SerializeSignalGroup(group, buffer);
    var time := stamp.sec * NS_PER_SEC + stamp.nanosec;
    return BagMessage(topic, time, buffer.data);
  }

  /** The groups of the given domains have been written, and counted. */
  ghost predicate Written(
      topics: map<Text, Text>, stamp: Stamp, tags: seq<Tag>, ds: set<Text>,
      pubs: seq<Publication>, chunk: seq<BagMessage>, groupsBefore: uint64, groupsOut: uint64)
  {
    && Lists(pubs, Publications(topics, stamp, tags, ds)) && Carries(chunk, pubs)
    && groupsOut == Add64(groupsBefore, |chunk|)
  }

  lemma {:induction false} WriteStep(
      topics: map<Text, Text>, stamp: Stamp, tags: seq<Tag>, ds: set<Text>, d: Text,
      pubs: seq<Publication>, chunk: seq<BagMessage>, groupsBefore: uint64, groupsOut: uint64)
    requires d !in ds && Written(topics, stamp, tags, ds, pubs, chunk, groupsBefore, groupsOut)
    ensures d !in topics ==> Written(topics, stamp, tags, ds + {d}, pubs, chunk, groupsBefore, groupsOut)
    ensures d in topics ==>
              var pub := Publication(topics[d], GroupMessage(stamp, d, OfDomain(tags, d)));
              Written(topics, stamp, tags, ds + {d}, pubs + [pub], chunk + [MessageOf(pub)], groupsBefore, Inc64(groupsOut))
  {
    ListsStep(topics, stamp, tags, ds, d, pubs);
    Add64Step(groupsBefore, |chunk|);
  }

  /** Serializes the groups with a topic, in the map's own order. */
  method WriteGroups(
      topics: map<Text, Text>, f: Frame, groups: map<Text, SignalGroup>, ghost tags: seq<Tag>, groupsBefore: uint64)
    returns (chunk: seq<BagMessage>, groupsOut: uint64, ghost pubs: seq<Publication>)
    requires groups == GroupMessages(f.stamp, tags)
    ensures Written(topics, f.stamp, tags, DomainsIn(tags), pubs, chunk, groupsBefore, groupsOut)
  {
    chunk, pubs, groupsOut := [], [], groupsBefore;
    var todo := groups.Keys;
    ghost var done: set<Text> := {};
    while todo != {}
      invariant done + todo == DomainsIn(tags) && done !! todo
      invariant Written(topics, f.stamp, tags, done, pubs, chunk, groupsBefore, groupsOut)
      decreases todo
    {
      var domain :| domain in todo;
      WriteStep(topics, f.stamp, tags, done, domain, pubs, chunk, groupsBefore, groupsOut);
      todo, done := todo - {domain}, done + {domain};
      if domain !in topics {
        continue;
      }
      var message := SerializeGroup(topics[domain], groups[domain], f.stamp);
      chunk, groupsOut := chunk + [message], Inc64(groupsOut);
      pubs := pubs + [Publication(topics[domain], groups[domain])];
    }
    assert done == DomainsIn(tags);
  }

  // ---------- the stream ----------

  /** One chunk per frame. */
  ghost predicate Chunked(
      p: Pipeline, topics: map<Text, Text>, frames: seq<Frame>, pubs: seq<seq<Publication>>, chunks: seq<seq<BagMessage>>)
  {
    |pubs| == |chunks| == |frames| && forall i | 0 <= i < |chunks| :: ChunkOf(p, topics, frames[i], pubs[i], chunks[i])
  }

  function Counts(p: Pipeline, src: Source, msgs: seq<BagMessage>, chunks: seq<seq<BagMessage>>): Summary {
    SummaryOf(CountCan(src, msgs), CountDecoded(p, Frames(src, msgs)), CountUnknown(p, Frames(src, msgs)),
              TotalLength(chunks), CountOther(src, msgs))
  }

  /** What has been converted after the messages so far, `pubs` and `chunks` listing the groups of each frame. */
  ghost predicate Converted(
      p: Pipeline, topics: map<Text, Text>, src: Source, msgs: seq<BagMessage>,
      pubs: seq<seq<Publication>>, chunks: seq<seq<BagMessage>>, output: seq<BagMessage>, summary: Summary)
  {
    && (forall m | m in msgs :: !Fails(p, src, m))
    && Chunked(p, topics, Frames(src, msgs), pubs, chunks)
    && output == Spliced(src, msgs, chunks)
    && summary == Counts(p, src, msgs, chunks)
  }

  lemma OtherStep(
      p: Pipeline, topics: map<Text, Text>, src: Source, msgs: seq<BagMessage>,
      pubs: seq<seq<Publication>>, chunks: seq<seq<BagMessage>>, output: seq<BagMessage>, summary: Summary, m: BagMessage)
    requires Converted(p, topics, src, msgs, pubs, chunks, output, summary) && !IsCan(src, m)
    ensures Converted(p, topics, src, msgs + [m], pubs, chunks, output + [m],
                      summary.(passthrough := Inc64(summary.passthrough)))
  {
    assert Init(msgs + [m]) == msgs && Last(msgs + [m]) == m;
    assert Frames(src, msgs + [m]) == Frames(src, msgs);
    Inc64Counts(CountOther(src, msgs));
  }

  lemma ChunkedStep(
      p: Pipeline, topics: map<Text, Text>, frames: seq<Frame>, pubs: seq<seq<Publication>>, chunks: seq<seq<BagMessage>>,
      f: Frame, sent: seq<Publication>, chunk: seq<BagMessage>)
    requires Chunked(p, topics, frames, pubs, chunks) && ChunkOf(p, topics, f, sent, chunk)
    ensures Chunked(p, topics, frames + [f], pubs + [sent], chunks + [chunk])
  {
  }

  /** The summary after one frame more. */
  function WithFrame(s: Summary, known: bool, groups: nat): Summary {
    Summary(Inc64(s.framesIn),
            if known then Inc64(s.framesDecoded) else s.framesDecoded,
            if known then s.framesUnknown else Inc64(s.framesUnknown),
            Add64(s.groupsOut, groups), s.passthrough)
  }

  lemma SummaryStep(framesIn: nat, decoded: nat, unknown: nat, groupsOut: nat, passthrough: nat, known: bool, groups: nat)
    ensures WithFrame(SummaryOf(framesIn, decoded, unknown, groupsOut, passthrough), known, groups) ==
            SummaryOf(framesIn + 1, if known then decoded + 1 else decoded, if known then unknown else unknown + 1,
                      groupsOut + groups, passthrough)
  {
    Inc64Counts(framesIn);
    Inc64Counts(decoded);
    Inc64Counts(unknown);
    Add64Counts(groupsOut, groups);
  }

  /** One more frame, in every function over the messages. */
  lemma FramesStep(p: Pipeline, src: Source, msgs: seq<BagMessage>, m: BagMessage, f: Frame)
    requires IsCan(src, m) && src.deserialize(m.data) == Some(f)
    ensures var more, frames, known := msgs + [m], Frames(src, msgs), p.Decode(f).Some?;
      && Frames(src, more) == frames + [f]
      && CountCan(src, more) == CountCan(src, msgs) + 1 && CountOther(src, more) == CountOther(src, msgs)
      && CountDecoded(p, frames + [f]) == (if known then CountDecoded(p, frames) + 1 else CountDecoded(p, frames))
      && CountUnknown(p, frames + [f]) == (if known then CountUnknown(p, frames) else CountUnknown(p, frames) + 1)
  {
    var more, frames := msgs + [m], Frames(src, msgs);
    assert Init(more) == msgs && Last(more) == m;
    assert Init(frames + [f]) == frames && Last(frames + [f]) == f;
  }

  lemma {:induction false} CountsStep(
      p: Pipeline, src: Source, msgs: seq<BagMessage>, chunks: seq<seq<BagMessage>>,
      m: BagMessage, f: Frame, chunk: seq<BagMessage>)
    requires IsCan(src, m) && src.deserialize(m.data) == Some(f)
    ensures Counts(p, src, msgs + [m], chunks + [chunk]) ==
            WithFrame(Counts(p, src, msgs, chunks), p.Decode(f).Some?, |chunk|)
  {
    var frames := Frames(src, msgs);
    FramesStep(p, src, msgs, m, f);
    assert Init(chunks + [chunk]) == chunks && Last(chunks + [chunk]) == chunk;
    SummaryStep(CountCan(src, msgs), CountDecoded(p, frames), CountUnknown(p, frames), TotalLength(chunks),
                CountOther(src, msgs), p.Decode(f).Some?, |chunk|);
  }

  lemma {:induction false} FrameStep(
      p: Pipeline, topics: map<Text, Text>, src: Source, msgs: seq<BagMessage>,
      pubs: seq<seq<Publication>>, chunks: seq<seq<BagMessage>>, output: seq<BagMessage>, summary: Summary,
      m: BagMessage, f: Frame, sent: seq<Publication>, chunk: seq<BagMessage>)
    requires Converted(p, topics, src, msgs, pubs, chunks, output, summary)
    requires IsCan(src, m) && !Fails(p, src, m) && src.deserialize(m.data) == Some(f)
    requires ChunkOf(p, topics, f, sent, chunk)
    ensures Converted(p, topics, src, msgs + [m], pubs + [sent], chunks + [chunk], output + chunk,
                      WithFrame(summary, p.Decode(f).Some?, |chunk|))
  {
    FramesStep(p, src, msgs, m, f);
    CountsStep(p, src, msgs, chunks, m, f, chunk);
    ChunkedStep(p, topics, Frames(src, msgs), pubs, chunks, f, sent, chunk);
    assert Init(msgs + [m]) == msgs && Last(msgs + [m]) == m;
    assert Init(chunks + [chunk]) == chunks && Last(chunks + [chunk]) == chunk;
  }

  /** A CAN message: its chunk, or None if it cannot be deserialized or a transform fails. */
  method ConvertFrame(p: Pipeline, topics: map<Text, Text>, src: Source, m: BagMessage, summary: Summary)
    returns (r: Option<seq<BagMessage>>, after: Summary, ghost pubs: seq<Publication>)
    requires IsCan(src, m)
    ensures r.Some? <==> !Fails(p, src, m)
    ensures r.Some? ==>
              var f := src.deserialize(m.data).value;
              ChunkOf(p, topics, f, pubs, r.value) && after == WithFrame(summary, p.Decode(f).Some?, |r.value|)
  {
    after, pubs := summary, [];
    after := after.(framesIn := Inc64(after.framesIn));
    var frame := src.deserialize(m.data);
    if frame.None? {
      return None, after, pubs;
    }
    var f := frame.value;
    var decoded := p.Decode(f);
    if decoded.None? {
      after := after.(framesUnknown := Inc64(after.framesUnknown));
      return Some([]), after, pubs;
    }
    after := after.(framesDecoded := Inc64(after.framesDecoded));
    var groups := BuildGroups(p, f, decoded.value);
    if groups.None? {
      return None, after, pubs;
    }
    var chunk, groupsOut;
    chunk, groupsOut, pubs := WriteGroups(topics, f, groups.value, Tags(p, decoded.value, f.id), after.groupsOut);
    after := after.(groupsOut := groupsOut);
    return Some(chunk), after, pubs;
  }

  /**
   * Converts up to the end, or up to the first message that fails: `done` says how
   * many messages were converted.
   */
  method ConvertOne(p: Pipeline, cfg: PipelineConfig, deserialize: Text -> Option<Frame>, msgs: seq<BagMessage>)
    returns (ok: bool, output: seq<BagMessage>, summary: Summary, done: nat,
             ghost pubs: seq<seq<Publication>>, ghost chunks: seq<seq<BagMessage>>, ghost counted: Summary)
    ensures done <= |msgs| && (ok <==> done == |msgs|)
    ensures !ok ==> Fails(p, SourceOf(cfg, deserialize), msgs[done])
    ensures Converted(p, ConverterTopics(cfg), SourceOf(cfg, deserialize), msgs[..done], pubs, chunks, output, counted)
    ensures ok ==> summary == counted
  {
    var src := SourceOf(cfg, deserialize);
    var topics := BuildTopics(cfg);
    ok, output, summary, done, pubs, chunks := true, [], Summary(0, 0, 0, 0, 0), 0, [], [];
    counted := summary;
    while done < |msgs|
      invariant done <= |msgs|
      invariant Converted(p, topics, src, msgs[..done], pubs, chunks, output, counted) && summary == counted
    {
      var msg := msgs[done];
      assert msgs[..done + 1] == msgs[..done] + [msg];
      if msg.topic != src.canTopic {
        OtherStep(p, topics, src, msgs[..done], pubs, chunks, output, summary, msg);
        output := output + [msg];
        summary := summary.(passthrough := Inc64(summary.passthrough));
        counted, done := summary, done + 1;
        continue;
      }
      var chunk, after;
      ghost var sent;
      chunk, after, sent := ConvertFrame(p, topics, src, msg, summary);
      if chunk.None? {
        ok := false;
        return;
      }
      var f := src.deserialize(msg.data).value;
      FrameStep(p, topics, src, msgs[..done], pubs, chunks, output, summary, msg, f, sent, chunk.value);
      summary := after;
      output := output + chunk.value;
      pubs, chunks := pubs + [sent], chunks + [chunk.value];
      counted, done := summary, done + 1;
    }
    assert msgs[..done] == msgs;
  }

  /** What a conversion returns: whether it got through, what it wrote, and how far it got. */
  datatype Conversion = Conversion(ok: bool, output: seq<BagMessage>, summary: Summary, done: nat)

  /** Why a conversion does not begin. */
  datatype StartError = TableRejected(error: TableError) | DbcRejected | TransformsRejected

  /** The configuration can be built, the DBC file loads, and the transforms compile. */
  predicate ConverterStarts(host: Host, dbc: Text, params: Params) {
    && |GetStrings(params, SIGNAL_ID_NAMES)| <= MAX_ENTRIES
    && host.loadsDbc(dbc) && host.compiles(TransformsOf(params, GetStrings(params, TRANSFORM_NAMES)))
  }

  /** A conversion of the bag with the configuration, as far as it got. */
  ghost predicate ConversionFits(
      p: Pipeline, cfg: PipelineConfig, src: Source, msgs: seq<BagMessage>, c: Conversion,
      pubs: seq<seq<Publication>>, chunks: seq<seq<BagMessage>>, counted: Summary)
  {
    && c.done <= |msgs| && (c.ok <==> c.done == |msgs|)
    && (!c.ok ==> Fails(p, src, msgs[c.done]))
    && Converted(p, ConverterTopics(cfg), src, msgs[..c.done], pubs, chunks, c.output, counted)
    && (c.ok ==> c.summary == counted)
  }

  /**
   * The program: the configuration is built from the parameters, the converter's own
   * router is configured with it, and the bag is converted.
   */
  method ConvertBag(lib: Library, dbc: Text, params: Params, deserialize: Text -> Option<Frame>, msgs: seq<BagMessage>)
    returns (r: Result<Conversion, StartError>,
             ghost pubs: seq<seq<Publication>>, ghost chunks: seq<seq<BagMessage>>, ghost counted: Summary)
    ensures r.Ok? <==> ConverterStarts(lib.host, dbc, params)
    ensures r.Ok? ==>
              var cfg := ConfigOf(params);
              ConversionFits(PipelineOf(lib, cfg), cfg, SourceOf(cfg, deserialize), msgs, r.value, pubs, chunks, counted)
  {
    pubs, chunks, counted := [], [], Summary(0, 0, 0, 0, 0);
    var built := BuildConfig(params);
    if built.Err? {
      r := Err(TableRejected(built.error));
      return;
    }
    if !lib.host.loadsDbc(dbc) {
      r := Err(DbcRejected);
      return;
    }
    var router := new SignalRouter();
    var warnings := router.Configure(built.value.domains, built.value.aliases);
    if !lib.host.compiles(built.value.transforms) {
      r := Err(TransformsRejected);
      return;
    }
    var pipeline := PipelineWith(lib, router.Tables(), built.value);
    var ok, output, summary, done;
    ok, output, summary, done, pubs, chunks, counted := ConvertOne(pipeline, built.value, deserialize, msgs);
    r := Ok(Conversion(ok, output, summary, done));
  }

  /** The program from its configuration files on. */
  method ConvertWithFiles(
      lib: Library, dbc: Text, files: seq<Yaml>, deserialize: Text -> Option<Frame>, msgs: seq<BagMessage>)
    returns (r: Result<Conversion, StartError>,
             ghost pubs: seq<seq<Publication>>, ghost chunks: seq<seq<BagMessage>>, ghost counted: Summary)
    ensures r.Ok? <==> ConverterStarts(lib.host, dbc, ParamsOf(files))
    ensures r.Ok? ==>
              var cfg := ConfigOf(ParamsOf(files));
              ConversionFits(PipelineOf(lib, cfg), cfg, SourceOf(cfg, deserialize), msgs, r.value, pubs, chunks, counted)
  {
    var params := LoadFiles(files);
    r, pubs, chunks, counted := ConvertBag(lib, dbc, params, deserialize, msgs);
  }

  /**
   * The layout of the files does not matter: with the same leaves per file, the
   * converter starts or not alike, and what fits as a conversion is the same.
   */
  lemma LayoutDoesNotMatter(
      lib: Library, dbc: Text, files: seq<Yaml>, others: seq<Yaml>, deserialize: Text -> Option<Frame>,
      msgs: seq<BagMessage>, c: Conversion, pubs: seq<seq<Publication>>, chunks: seq<seq<BagMessage>>, counted: Summary)
    requires |files| == |others|
    requires forall i | 0 <= i < |files| :: Leaves(files[i], []) == Leaves(others[i], [])
    ensures ConverterStarts(lib.host, dbc, ParamsOf(files)) <==> ConverterStarts(lib.host, dbc, ParamsOf(others))
    ensures ConverterStarts(lib.host, dbc, ParamsOf(files)) ==>
              var cfg, cfg' := ConfigOf(ParamsOf(files)), ConfigOf(ParamsOf(others));
              && cfg == cfg'
              && (ConversionFits(PipelineOf(lib, cfg), cfg, SourceOf(cfg, deserialize), msgs, c, pubs, chunks, counted) <==>
                  ConversionFits(PipelineOf(lib, cfg'), cfg', SourceOf(cfg', deserialize), msgs, c, pubs, chunks, counted))
  {
    SameLeavesSameParams(files, others);
  }

  // ---------- conservation ----------

  lemma {:induction false} MessagesAreConserved(p: Pipeline, src: Source, msgs: seq<BagMessage>)
    requires forall m | m in msgs :: !Fails(p, src, m)
    ensures |msgs| == CountOther(src, msgs) + CountCan(src, msgs)
    ensures CountCan(src, msgs) == |Frames(src, msgs)|
    ensures CountCan(src, msgs) == CountDecoded(p, Frames(src, msgs)) + CountUnknown(p, Frames(src, msgs))
  {
    EveryFrameIsDecodedOrUnknown(p, Frames(src, msgs));
    if msgs != [] {
      assert Last(msgs) in msgs && forall m | m in Init(msgs) :: m in msgs;
      MessagesAreConserved(p, src, Init(msgs));
    }
  }

  function Others(src: Source, msgs: seq<BagMessage>): seq<BagMessage> {
    if msgs == [] then []
    else if IsCan(src, Last(msgs)) then Others(src, Init(msgs)) else Others(src, Init(msgs)) + [Last(msgs)]
  }

  /** Where the messages of other topics stand in the output: all of them, unchanged and in order. */
  lemma {:induction false} OthersArePreserved(p: Pipeline, src: Source, msgs: seq<BagMessage>, chunks: seq<seq<BagMessage>>)
    returns (positions: seq<nat>)
    requires forall m | m in msgs :: !Fails(p, src, m)
    requires |chunks| == |Frames(src, msgs)|
    ensures |Spliced(src, msgs, chunks)| == CountOther(src, msgs) + TotalLength(chunks)
    ensures |positions| == |Others(src, msgs)| == CountOther(src, msgs)
    ensures forall i, j | 0 <= i < j < |positions| :: positions[i] < positions[j]
    ensures forall i | 0 <= i < |positions| ::
              positions[i] < |Spliced(src, msgs, chunks)| &&
              Spliced(src, msgs, chunks)[positions[i]] == Others(src, msgs)[i]
    decreases |msgs|
  {
    positions := [];
    if msgs != [] {
      assert Last(msgs) in msgs && forall m | m in Init(msgs) :: m in msgs;
      if IsCan(src, Last(msgs)) {
        positions := OthersArePreserved(p, src, Init(msgs), Init(chunks));
      } else {
        positions := OthersArePreserved(p, src, Init(msgs), chunks);
        positions := positions + [|Spliced(src, Init(msgs), chunks)|];
      }
    }
  }

  // ---------- the messages of a frame ----------

  /** Every message of a frame has the time of the frame's stamp, in nanoseconds. */
  lemma {:induction false} MessagesHaveFrameTime(
      p: Pipeline, topics: map<Text, Text>, f: Frame, pubs: seq<Publication>, chunk: seq<BagMessage>)
    requires ChunkOf(p, topics, f, pubs, chunk)
    ensures forall m | m in chunk :: m.time == f.stamp.sec * 1_000_000_000 + f.stamp.nanosec
  {
    forall i | 0 <= i < |chunk| ensures chunk[i].time == f.stamp.sec * 1_000_000_000 + f.stamp.nanosec {
      assert pubs[i] in FrameGroups(p, topics, f);
      TimeIs(f.stamp);
    }
  }

  /** Messages of two frames with proper nanoseconds are ordered as the frames' stamps are. */
  lemma {:induction false} MessagesKeepFrameOrder(
      p: Pipeline, topics: map<Text, Text>, f: Frame, pubs: seq<Publication>, chunk: seq<BagMessage>,
      f': Frame, pubs': seq<Publication>, chunk': seq<BagMessage>, m: BagMessage, m': BagMessage)
    requires ChunkOf(p, topics, f, pubs, chunk) && ChunkOf(p, topics, f', pubs', chunk')
    requires f.stamp.nanosec < 1_000_000_000 && f'.stamp.nanosec < 1_000_000_000
    requires m in chunk && m' in chunk'
    ensures m.time < m'.time <==>
            f.stamp.sec < f'.stamp.sec || (f.stamp.sec == f'.stamp.sec && f.stamp.nanosec < f'.stamp.nanosec)
    ensures m.time == m'.time <==> f.stamp == f'.stamp
  {
    MessagesHaveFrameTime(p, topics, f, pubs, chunk);
    MessagesHaveFrameTime(p, topics, f', pubs', chunk');
  }

  // ---------- the stream, position by position ----------

  /** The frames converted stem, in order, from exactly the messages of the CAN topic, each deserialized. */
  lemma {:induction false} FramesArePicked(
      src: Source, msgs: seq<BagMessage>, chosen: BagMessage -> bool, made: (nat, BagMessage, Frame) -> bool)
    returns (positions: seq<nat>)
    requires forall m :: chosen(m) <==> m.topic == src.canTopic && src.deserialize(m.data).Some?
    requires forall k, m, f :: made(k, m, f) <==> src.deserialize(m.data) == Some(f)
    ensures Picked(msgs, Frames(src, msgs), positions, chosen, made)
  {
    positions := [];
    if msgs != [] {
      var before, m := Init(msgs), Last(msgs);
      positions := FramesArePicked(src, before, chosen, made);
      assert msgs == before + [m];
      if m.topic == src.canTopic && src.deserialize(m.data).Some? {
        PickedOne(before, m, Frames(src, before), src.deserialize(m.data).value, positions, chosen, made);
        positions := positions + [|before|];
      } else {
        PickedNone(before, m, Frames(src, before), positions, chosen, made);
      }
    }
  }

  lemma {:induction false} FramesAre(src: Source, msgs: seq<BagMessage>) returns (positions: seq<nat>)
    ensures Ascending(positions) && |positions| == |Frames(src, msgs)|
    ensures forall k :: k in positions <==>
              0 <= k < |msgs| && msgs[k].topic == src.canTopic && src.deserialize(msgs[k].data).Some?
    ensures forall j | 0 <= j < |positions| ::
              positions[j] < |msgs| && src.deserialize(msgs[positions[j]].data) == Some(Frames(src, msgs)[j])
  {
    positions := FramesArePicked(
      src, msgs, (m: BagMessage) => m.topic == src.canTopic && src.deserialize(m.data).Some?,
      (_, m: BagMessage, f: Frame) => src.deserialize(m.data) == Some(f));
  }

  /** Where the CAN messages stand. */
  function CanAt(src: Source, msgs: seq<BagMessage>): set<int> {
    set i | 0 <= i < |msgs| && msgs[i].topic == src.canTopic
  }

  lemma {:induction false} CanCountIs(src: Source, msgs: seq<BagMessage>)
    ensures CountCan(src, msgs) == |CanAt(src, msgs)| && CountOther(src, msgs) == |msgs| - |CanAt(src, msgs)|
  {
    if msgs == [] {
      assert CanAt(src, msgs) == {};
    } else {
      CanCountIs(src, Init(msgs));
      var last := if IsCan(src, Last(msgs)) then {|msgs| - 1} else {};
      assert CanAt(src, msgs) == CanAt(src, Init(msgs)) + last;
    }
  }

  /** What the summary reports of the messages converted, up to its 64 bits. */
  lemma {:induction false} SummaryIs(
      p: Pipeline, topics: map<Text, Text>, src: Source, msgs: seq<BagMessage>,
      pubs: seq<seq<Publication>>, chunks: seq<seq<BagMessage>>, output: seq<BagMessage>, summary: Summary)
    requires Converted(p, topics, src, msgs, pubs, chunks, output, summary)
    ensures summary.framesIn == |CanAt(src, msgs)| % 0x1_0000_0000_0000_0000
    ensures summary.framesDecoded == CountDecoded(p, Frames(src, msgs)) % 0x1_0000_0000_0000_0000
    ensures summary.framesUnknown == CountUnknown(p, Frames(src, msgs)) % 0x1_0000_0000_0000_0000
    ensures |output| >= |msgs| - |CanAt(src, msgs)| >= 0
    ensures summary.groupsOut == (|output| - (|msgs| - |CanAt(src, msgs)|)) % 0x1_0000_0000_0000_0000
    ensures summary.passthrough == (|msgs| - |CanAt(src, msgs)|) % 0x1_0000_0000_0000_0000
  {
    CanCountIs(src, msgs);
    var positions := OthersArePreserved(p, src, msgs, chunks);
  }

  lemma {:induction false} CountCanBefore(src: Source, msgs: seq<BagMessage>, i: nat)
    requires i < |msgs|
    ensures CountCan(src, msgs[..i]) + (if msgs[i].topic == src.canTopic then 1 else 0) <= CountCan(src, msgs)
  {
    if i == |msgs| - 1 {
      assert msgs[..i] == Init(msgs);
    } else {
      CountCanBefore(src, Init(msgs), i);
      assert Init(msgs)[..i] == msgs[..i];
    }
  }

  /** What stands in the output for the i-th message: itself, or the chunk of its frame. */
  function PieceOf(src: Source, msgs: seq<BagMessage>, chunks: seq<seq<BagMessage>>, i: nat): seq<BagMessage>
    requires i < |msgs| && |chunks| == CountCan(src, msgs)
  {
    CountCanBefore(src, msgs, i);
    if msgs[i].topic != src.canTopic then [msgs[i]] else chunks[CountCan(src, msgs[..i])]
  }

  function Pieces(src: Source, msgs: seq<BagMessage>, chunks: seq<seq<BagMessage>>): seq<seq<BagMessage>>
    requires |chunks| == CountCan(src, msgs)
  {
    seq(|msgs|, i requires 0 <= i < |msgs| => PieceOf(src, msgs, chunks, i))
  }

  lemma {:induction false} PieceOfMore(src: Source, msgs: seq<BagMessage>, chunks: seq<seq<BagMessage>>, i: nat)
    requires msgs != [] && i < |msgs| - 1 && |chunks| == CountCan(src, msgs)
    ensures PieceOf(src, msgs, chunks, i) ==
            PieceOf(src, Init(msgs), if IsCan(src, Last(msgs)) then Init(chunks) else chunks, i)
  {
    assert Init(msgs)[..i] == msgs[..i] && Init(msgs)[i] == msgs[i];
    CountCanBefore(src, Init(msgs), i);
  }

  /** The output is the pieces of the messages, one after the other. */
  lemma {:induction false} OutputIsPieces(src: Source, msgs: seq<BagMessage>, chunks: seq<seq<BagMessage>>)
    requires |chunks| == CountCan(src, msgs)
    ensures Spliced(src, msgs, chunks) == Flatten(Pieces(src, msgs, chunks))
    decreases |msgs|
  {
    if msgs != [] {
      var before, n := Init(msgs), |msgs| - 1;
      var chunks' := if IsCan(src, Last(msgs)) then Init(chunks) else chunks;
      OutputIsPieces(src, before, chunks');
      forall i | 0 <= i < n ensures Pieces(src, msgs, chunks)[i] == Pieces(src, before, chunks')[i] {
        PieceOfMore(src, msgs, chunks, i);
      }
      assert Init(Pieces(src, msgs, chunks)) == Pieces(src, before, chunks');
      assert msgs[..n] == before;
    }
  }
}
