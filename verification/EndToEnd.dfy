/** Both programs on one parameter map, one message stream and the frames in it. */
module EndToEnd {
  import opened Common
  import opened Stamps
  import opened TimeoutMonitoring
  import opened SchemaTables
  import opened Configuration
  import opened FramePipeline
  import opened TopicTables
  import opened VehicleCanNodes
  import opened LiveOffline
  import Converter = BagConverter

  function SourceOfParams(params: Params, deserialize: Text -> Option<Frame>): Converter.Source {
    Converter.Source(GetString(params, CAN_TOPIC, DEFAULT_CAN_TOPIC), deserialize)
  }

  // ---------- how far a node gets ----------

  lemma {:induction false} ArrivalsOfPrefix(cs: seq<Callback>, n: nat)
    requires n <= |cs|
    ensures Arrivals(cs[..n]) <= Arrivals(cs)
    ensures n < |cs| && cs[n].FrameArrives? ==>
              |Arrivals(cs[..n])| < |Arrivals(cs)| && Arrivals(cs)[|Arrivals(cs[..n])|] == cs[n].frame
    decreases |cs|
  {
    if n == |cs| {
      assert cs[..n] == cs;
    } else {
      ArrivalsOfPrefix(Init(cs), n);
      assert Init(cs)[..n] == cs[..n];
    }
  }

  lemma {:induction false} ReceivedOneByOne(frames: seq<Frame>, i: nat)
    requires i < |frames|
    ensures |ReceivedAll(frames)| == |frames| && ReceivedAll(frames)[i] == Received(frames[i])
  {
    if |frames| > 1 {
      ReceivedOneByOne(Init(frames), if i < |frames| - 1 then i else 0);
    }
  }

  lemma {:induction false} ArrivalsDoNotThrow(cs: seq<Callback>, f: Frame)
    requires (forall c | c in cs :: !Throws(c)) && f in Arrivals(cs)
    ensures f.stamp.sec >= 0
  {
    assert Last(cs) in cs;
    if !Last(cs).FrameArrives? || f != Last(cs).frame {
      assert forall c | c in Init(cs) :: c in cs;
      ArrivalsDoNotThrow(Init(cs), f);
    }
  }

  /** A run of the node takes in the frames up to the first with negative seconds, whatever the timers do. */
  lemma {:induction false} NodeStopsAtFirstNegative(callbacks: seq<Callback>, done: nat, received: seq<Frame>)
    requires done <= |callbacks| && received == SeenBy(callbacks[..done])
    requires forall c | c in callbacks[..done] :: !Throws(c)
    requires done < |callbacks| ==> Throws(callbacks[done])
    ensures SawFirst(Arrivals(callbacks), received)
    ensures |received| < |Arrivals(callbacks)| ==> Arrivals(callbacks)[|received|].stamp.sec < 0
  {
    var all, frames := Arrivals(callbacks), Arrivals(callbacks[..done]);
    ArrivalsOfPrefix(callbacks, done);
    if frames == [] {
      assert received == [];
    } else {
      ReceivedOneByOne(frames, 0);
    }
    forall i | 0 <= i < |received| ensures NodeStamp(all[i].stamp).Some? && received[i] == Received(all[i]) {
      ReceivedOneByOne(frames, i);
      ArrivalsDoNotThrow(callbacks[..done], frames[i]);
    }
    if done == |callbacks| {
      assert callbacks[..done] == callbacks;
    }
  }

  // ---------- the comparison ----------

  /**
   * What was published and what was written correspond. The node took in the frames up
   * to the first with negative seconds. The converter's chunks are the messages of the
   * groups of its frames, bag times included, and their bytes read back as these. In
   * each frame both programs reached, the groups are the published ones, up to their
   * order, exactly if the frame comes out the same.
   */
  ghost predicate Correspond(
      p: Pipeline, t: map<Text, Text>, u: map<Text, Text>, frames: seq<Frame>,
      received: seq<Frame>, live: seq<seq<Publication>>,
      pubs: seq<seq<Publication>>, chunks: seq<seq<Converter.BagMessage>>)
  {
    && SawFirst(frames, received) && |live| == |received|
    && (|received| < |frames| ==> frames[|received|].stamp.sec < 0)
    && |pubs| == |chunks| <= |frames|
    && (forall i | 0 <= i < |chunks| :: Converter.ChunkOf(p, u, frames[i], pubs[i], chunks[i]))
    && (forall i, m | 0 <= i < |chunks| && m in chunks[i] ::
          m.time == frames[i].stamp.sec * 1_000_000_000 + frames[i].stamp.nanosec)
    && (forall i | 0 <= i < |chunks| :: GroupsFit(p, frames[i]) ==> ReadsBackAs(chunks[i], pubs[i]))
    && (forall i | 0 <= i < |live| && i < |chunks| ::
          multiset(live[i]) == multiset(pubs[i]) <==> ComesOutTheSame(p, t, u, frames[i]))
  }

  /** With agreeing settings and proper stamps, a whole conversion holds what a whole run published. */
  lemma {:induction false} LiveAndOfflineAgree(
      lib: Library, cfg: PipelineConfig, perDomain: bool, frames: seq<Frame>,
      received: seq<Frame>, live: seq<seq<Publication>>,
      pubs: seq<seq<Publication>>, chunks: seq<seq<Converter.BagMessage>>)
    requires Correspond(PipelineOf(lib, cfg), NodeTopics(cfg, perDomain), ConverterTopics(cfg), frames,
                        received, live, pubs, chunks)
    requires TopicsAgree(cfg, perDomain) && |chunks| == |frames|
    requires forall i | 0 <= i < |frames| :: Proper(frames[i].stamp) && GroupsFit(PipelineOf(lib, cfg), frames[i])
    ensures received == frames && |live| == |frames|
    ensures forall i | 0 <= i < |frames| :: ReadsBackAs(chunks[i], pubs[i]) && multiset(live[i]) == multiset(pubs[i])
  {
    forall i | 0 <= i < |received| ensures received[i] == frames[i] {
      NodeStampKeepsIff(frames[i].stamp);
      assert received[i] == Received(frames[i]);
    }
    forall i | 0 <= i < |frames| ensures ReadsBackAs(chunks[i], pubs[i]) && multiset(live[i]) == multiset(pubs[i]) {
      AgreeingSettings(lib, cfg, perDomain, frames[i]);
    }
  }

  lemma {:induction false} RunsCorrespond(
      lib: Library, cfg: PipelineConfig, perDomain: bool, src: Converter.Source, msgs: seq<Converter.BagMessage>,
      received: seq<Frame>, live: seq<seq<Publication>>,
      done: nat, pubs: seq<seq<Publication>>, chunks: seq<seq<Converter.BagMessage>>,
      output: seq<Converter.BagMessage>, summary: Converter.Summary)
    requires SawFirst(Converter.Frames(src, msgs), received)
    requires |received| < |Converter.Frames(src, msgs)| ==> Converter.Frames(src, msgs)[|received|].stamp.sec < 0
    requires ChunksFit(PipelineOf(lib, cfg), NodeTopics(cfg, perDomain), received, live)
    requires done <= |msgs|
    requires Converter.Converted(PipelineOf(lib, cfg), ConverterTopics(cfg), src, msgs[..done], pubs, chunks,
                                 output, summary)
    ensures Correspond(PipelineOf(lib, cfg), NodeTopics(cfg, perDomain), ConverterTopics(cfg),
                       Converter.Frames(src, msgs), received, live, pubs, chunks)
  {
    var p, frames := PipelineOf(lib, cfg), Converter.Frames(src, msgs);
    FramesOfPrefix(src, msgs, done);
    forall i | 0 <= i < |chunks|
      ensures Converter.ChunkOf(p, ConverterTopics(cfg), frames[i], pubs[i], chunks[i])
      ensures forall m | m in chunks[i] :: m.time == frames[i].stamp.sec * 1_000_000_000 + frames[i].stamp.nanosec
      ensures GroupsFit(p, frames[i]) ==> ReadsBackAs(chunks[i], pubs[i])
    {
      assert Converter.Frames(src, msgs[..done])[i] == frames[i];
      Converter.MessagesHaveFrameTime(p, ConverterTopics(cfg), frames[i], pubs[i], chunks[i]);
      if GroupsFit(p, frames[i]) {
        ChunkReadsBack(p, ConverterTopics(cfg), frames[i], pubs[i], chunks[i]);
      }
    }
    forall i | 0 <= i < |live| && i < |chunks|
      ensures multiset(live[i]) == multiset(pubs[i]) <==>
              ComesOutTheSame(p, NodeTopics(cfg, perDomain), ConverterTopics(cfg), frames[i])
    {
      LiveAndOfflineAgreeIff(lib, cfg, perDomain, src, msgs, received, live, done, pubs, chunks, output, summary, i);
    }
  }

  /** How far a run from the start got with its frames. */
  lemma {:induction false} FramesOfRun(
      p: Pipeline, cfg: PipelineConfig, s: NodeSettings, callbacks: seq<Callback>, run: Run,
      received: seq<Frame>, live: seq<seq<Publication>>, history: seq<Event>)
    requires RunFits(p, cfg, s, callbacks, run, received, live, history)
    ensures SawFirst(Arrivals(callbacks), received)
    ensures |received| < |Arrivals(callbacks)| ==> Arrivals(callbacks)[|received|].stamp.sec < 0
    ensures ChunksFit(p, NodeTopics(cfg, s.perDomain), received, live)
  {
    var seen := SeenBy(callbacks[..run.done]);
    assert [] + seen == seen;
    NodeStopsAtFirstNegative(callbacks, run.done, received);
  }

  /** A run and a conversion of the same frames with one configuration. */
  lemma {:induction false} ProgramsCorrespond(
      lib: Library, cfg: PipelineConfig, s: NodeSettings, src: Converter.Source,
      msgs: seq<Converter.BagMessage>, callbacks: seq<Callback>, run: Run, received: seq<Frame>,
      live: seq<seq<Publication>>, history: seq<Event>, c: Converter.Conversion, pubs: seq<seq<Publication>>,
      chunks: seq<seq<Converter.BagMessage>>, counted: Converter.Summary)
    requires Arrivals(callbacks) == Converter.Frames(src, msgs)
    requires RunFits(PipelineOf(lib, cfg), cfg, s, callbacks, run, received, live, history)
    requires Converter.ConversionFits(PipelineOf(lib, cfg), cfg, src, msgs, c, pubs, chunks, counted)
    ensures Correspond(PipelineOf(lib, cfg), NodeTopics(cfg, s.perDomain), ConverterTopics(cfg),
                       Converter.Frames(src, msgs), received, live, pubs, chunks)
    ensures c.ok ==> |chunks| == |Converter.Frames(src, msgs)|
  {
    FramesOfRun(PipelineOf(lib, cfg), cfg, s, callbacks, run, received, live, history);
    assert c.ok ==> msgs[..c.done] == msgs;
    RunsCorrespond(lib, cfg, s.perDomain, src, msgs, received, live, c.done, pubs, chunks, c.output, counted);
  }

  /**
   * One parameter map, both programs. Every map the node accepts is good for the
   * converter too, given a DBC file that loads. If the frames that arrive at the node
   * are those in the bag, in any interleaving with its timer, what the two leave
   * behind corresponds.
   */
  method RunBoth(
      lib: Library, dbc: Text, params: Params, deserialize: Text -> Option<Frame>,
      msgs: seq<Converter.BagMessage>, callbacks: seq<Callback>)
    returns (node: Result<Run, LoadError>, converter: Result<Converter.Conversion, Converter.StartError>,
             ghost received: seq<Frame>, ghost live: seq<seq<Publication>>, ghost history: seq<Event>,
             ghost pubs: seq<seq<Publication>>, ghost chunks: seq<seq<Converter.BagMessage>>,
             ghost counted: Converter.Summary)
    requires Arrivals(callbacks) == Converter.Frames(SourceOfParams(params, deserialize), msgs)
    ensures node.Ok? <==> NodeAccepts(lib.host, params)
    ensures converter.Ok? <==> Converter.ConverterStarts(lib.host, dbc, params)
    ensures node.Ok? && lib.host.loadsDbc(dbc) ==> converter.Ok?
    ensures node.Ok? ==>
              RunFits(PipelineOf(lib, ConfigOf(params)), ConfigOf(params), SettingsOf(params), callbacks, node.value,
                      received, live, history)
    ensures converter.Ok? ==>
              Converter.ConversionFits(
                PipelineOf(lib, ConfigOf(params)), ConfigOf(params), SourceOfParams(params, deserialize), msgs,
                converter.value, pubs, chunks, counted)
    ensures node.Ok? && converter.Ok? ==>
              var cfg, frames := ConfigOf(params), Converter.Frames(SourceOfParams(params, deserialize), msgs);
              && Correspond(PipelineOf(lib, cfg), NodeTopics(cfg, SettingsOf(params).perDomain), ConverterTopics(cfg),
                            frames, received, live, pubs, chunks)
              && (converter.value.ok ==> |chunks| == |frames|)
  {
    node, received, live, history := RunNode(lib, params, callbacks);
    converter, pubs, chunks, counted := Converter.ConvertBag(lib, dbc, params, deserialize, msgs);
    if node.Ok? && converter.Ok? {
      ProgramsCorrespond(lib, ConfigOf(params), SettingsOf(params), SourceOfParams(params, deserialize), msgs, callbacks,
                         node.value, received, live, history, converter.value, pubs, chunks, counted);
    }
  }
}
