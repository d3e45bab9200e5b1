/**
 * The live node: per-frame processing with buffers reused across frames,
 * diagnostics, and the publishers as logs of what was sent.
 */
module VehicleCanNodes {
  import opened Common
  import opened Cdr
  import opened Stamps
  import opened SignalRouting
  import opened SchemaTables
  import opened SignalPipeline
  import opened Configuration
  import opened FramePipeline
  import opened TopicTables
  import opened TimeoutMonitoring

  datatype Diagnostic = Diagnostic(
    stamp: Stamp, canTopic: Text,
    framesReceived: uint64, framesDecoded: uint64, framesUnknown: uint64, decodeErrors: uint64,
    timedOutSignals: seq<Text>)

  const ALL: Text := Ascii("all")

  /**
   * What the executor runs: a frame arrives, with the steady clock read for each of its
   * signals, or the diagnostics timer fires, with one reading of either clock.
   */
  datatype Callback =
    | FrameArrives(frame: Frame, clock: nat -> uint64)
    | TimerFires(now: uint64, stamp: Stamp)

  // ---------- stamps ----------

  /** A frame as process_frame is given it, with the stamp its time converts back to. */
  function Timed(f: Frame, time: TimePoint): Frame {
    f.(stamp := ToMessage(time))
  }

  /** A frame as the node treats it, if its stamp does not make it throw. */
  function Received(f: Frame): Frame {
    match NodeStamp(f.stamp) case None => f case Some(s) => f.(stamp := s)
  }

  predicate Throws(c: Callback) {
    c.FrameArrives? && FromMessage(c.frame.stamp) == None
  }

  function Arrivals(cs: seq<Callback>): seq<Frame> {
    if cs == [] then []
    else if Last(cs).FrameArrives? then Arrivals(Init(cs)) + [Last(cs).frame]
    else Arrivals(Init(cs))
  }

  function ReceivedAll(frames: seq<Frame>): seq<Frame> {
    if frames == [] then [] else ReceivedAll(Init(frames)) + [Received(Last(frames))]
  }

  /** Only the stamp differs, so the frame decodes to the same tags. */
  lemma TimedKeepsContent(p: Pipeline, f: Frame, time: TimePoint)
    ensures var g := Timed(f, time);
      g.id == f.id && p.Decode(g) == p.Decode(f) && Raws(p, g) == Raws(p, f) && FrameTags(p, g) == FrameTags(p, f)
  {
  }

  // ---------- what a frame adds to each log ----------

  function Raws(p: Pipeline, f: Frame): seq<RawSignal> {
    match p.Decode(f) case None => [] case Some(raws) => raws
  }

  /** Promoted signals are published whether or not they have a domain. */
  function Promotions(p: Pipeline, promoted: map<Text, Text>, raws: seq<RawSignal>, id: uint32): seq<(Text, Double)> {
    if raws == [] then []
    else
      var name, v := p.Resolve(Last(raws), id).name, p.Value(Last(raws), id);
      var before := Promotions(p, promoted, Init(raws), id);
      if v.Some? && name in promoted then before + [(promoted[name], v.value)] else before
  }

  /** The receipts the timeout monitor is told of; `clock(i)` is read for the i-th signal. */
  function ReceiptEvents(p: Pipeline, raws: seq<RawSignal>, id: uint32, clock: nat -> uint64): seq<Event> {
    if raws == [] then []
    else
      var before := ReceiptEvents(p, Init(raws), id, clock);
      if p.Kept(Last(raws), id) then before + [Receive(p.Resolve(Last(raws), id).name, clock(|raws| - 1))] else before
  }

  /** The firehose message of a frame, if there is one. */
  function Firehose(s: NodeSettings, stamp: Stamp, tags: seq<Tag>): seq<Publication> {
    if s.publishAll && tags != [] then [Publication(s.allSignalsTopic, GroupMessage(stamp, ALL, Signals(tags)))]
    else []
  }

  // ---------- totals over the frames seen ----------

  function CountErrors(p: Pipeline, frames: seq<Frame>): nat {
    if frames == [] then 0
    else CountErrors(p, Init(frames)) + Errors(p, Raws(p, Last(frames)), Last(frames).id)
  }

  function KeptNames(p: Pipeline, raws: seq<RawSignal>, id: uint32): set<Text> {
    set raw | raw in raws && p.Kept(raw, id) :: p.Resolve(raw, id).name
  }

  /** The resolved names of all signals forwarded so far. */
  function SeenNames(p: Pipeline, frames: seq<Frame>): set<Text> {
    if frames == [] then {}
    else SeenNames(p, Init(frames)) + KeptNames(p, Raws(p, Last(frames)), Last(frames).id)
  }

  /** One chunk per frame: its groups, in some order. */
  ghost predicate ChunksFit(p: Pipeline, topics: map<Text, Text>, frames: seq<Frame>, chunks: seq<seq<Publication>>) {
    && |chunks| == |frames|
    && forall i | 0 <= i < |frames| :: Lists(chunks[i], FrameGroups(p, topics, frames[i]))
  }

  /** The messages of all frames: per frame its chunk, then the firehose. */
  function Messages(p: Pipeline, s: NodeSettings, frames: seq<Frame>, chunks: seq<seq<Publication>>): seq<Publication>
    requires |chunks| == |frames|
  {
    if frames == [] then []
    else
      Messages(p, s, Init(frames), Init(chunks)) + Last(chunks) +
      Firehose(s, Last(frames).stamp, FrameTags(p, Last(frames)))
  }

  /** The promoted values of all frames. */
  function AllPromotions(p: Pipeline, promoted: map<Text, Text>, frames: seq<Frame>): seq<(Text, Double)> {
    if frames == [] then []
    else
      AllPromotions(p, promoted, Init(frames)) +
      Promotions(p, promoted, Raws(p, Last(frames)), Last(frames).id)
  }

  lemma PromotionsStep(p: Pipeline, promoted: map<Text, Text>, frames: seq<Frame>, f: Frame)
    ensures AllPromotions(p, promoted, frames + [f]) ==
            AllPromotions(p, promoted, frames) + Promotions(p, promoted, Raws(p, f), f.id)
  {
    assert Init(frames + [f]) == frames && Last(frames + [f]) == f;
  }

  // ---------- history of the monitor ----------

  lemma {:induction false} KnownAfterReceipts(
      h: seq<Event>, p: Pipeline, raws: seq<RawSignal>, id: uint32, clock: nat -> uint64, n: Text)
    requires Known(h, n) <==> EverReceived(h, n)
    ensures var h' := h + ReceiptEvents(p, raws, id, clock);
      && (Known(h', n) <==> Known(h, n) || n in KeptNames(p, raws, id))
      && (Known(h', n) <==> EverReceived(h', n))
  {
    if raws == [] {
      assert h + [] == h;
    } else {
      var raw, receipts := Last(raws), ReceiptEvents(p, Init(raws), id, clock);
      KnownAfterReceipts(h, p, Init(raws), id, clock, n);
      assert raws == Init(raws) + [raw];
      assert n in KeptNames(p, raws, id) <==>
        n in KeptNames(p, Init(raws), id) || (p.Kept(raw, id) && p.Resolve(raw, id).name == n);
      if p.Kept(raw, id) {
        var e := Receive(p.Resolve(raw, id).name, clock(|raws| - 1));
        KnownStep(h + receipts, e, n);
        ReceivedStep(h + receipts, e, n);
        assert h + (receipts + [e]) == h + receipts + [e];
      }
    }
  }

  lemma ReceivedStep(h: seq<Event>, e: Event, n: Text)
    ensures EverReceived(h + [e], n) <==> EverReceived(h, n) || IsReceipt(e, n)
  {
    assert (h + [e])[|h|] == e;
    if EverReceived(h, n) {
      var i :| 0 <= i < |h| && IsReceipt(h[i], n);
      assert (h + [e])[i] == h[i];
    }
  }

  // ---------- one frame more ----------

  /** The counters agree with the frames seen, up to their 64 bits. */
  ghost predicate CountersFit(
      p: Pipeline, frames: seq<Frame>, received: uint64, decoded: uint64, unknown: uint64, errors: uint64)
  {
    && received == |frames| % TWO_64
    && decoded == CountDecoded(p, frames) % TWO_64
    && unknown == CountUnknown(p, frames) % TWO_64
    && errors == CountErrors(p, frames) % TWO_64
  }

  lemma {:induction false} CountersStep(
      p: Pipeline, frames: seq<Frame>, received: uint64, decoded: uint64, unknown: uint64, errors: uint64, f: Frame)
    requires CountersFit(p, frames, received, decoded, unknown, errors)
    ensures CountersFit(p, frames + [f], Inc64(received),
                        if p.Decode(f).Some? then Inc64(decoded) else decoded,
                        if p.Decode(f).None? then Inc64(unknown) else unknown,
                        Add64(errors, Errors(p, Raws(p, f), f.id)))
  {
    assert Init(frames + [f]) == frames && Last(frames + [f]) == f;
    Inc64Counts(|frames|);
    Inc64Counts(CountDecoded(p, frames));
    Inc64Counts(CountUnknown(p, frames));
    Add64Counts(CountErrors(p, frames), Errors(p, Raws(p, f), f.id));
  }

  /** The names a history knows are those of the forwarded signals, and all of them were received. */
  ghost predicate NamesFit(p: Pipeline, frames: seq<Frame>, h: seq<Event>) {
    forall n :: (Known(h, n) <==> n in SeenNames(p, frames)) && (Known(h, n) <==> EverReceived(h, n))
  }

  lemma NamesStep(p: Pipeline, frames: seq<Frame>, f: Frame, h: seq<Event>, clock: nat -> uint64)
    requires NamesFit(p, frames, h)
    ensures NamesFit(p, frames + [f], h + ReceiptEvents(p, Raws(p, f), f.id, clock))
  {
    assert Init(frames + [f]) == frames && Last(frames + [f]) == f;
    var h' := h + ReceiptEvents(p, Raws(p, f), f.id, clock);
    forall n ensures (Known(h', n) <==> n in SeenNames(p, frames + [f])) && (Known(h', n) <==> EverReceived(h', n)) {
      KnownAfterReceipts(h, p, Raws(p, f), f.id, clock, n);
    }
  }

  lemma NamesAfterCheck(p: Pipeline, frames: seq<Frame>, h: seq<Event>, now: uint64, timeout: uint64)
    requires NamesFit(p, frames, h)
    ensures NamesFit(p, frames, h + [Check(now, timeout)])
  {
    var h' := h + [Check(now, timeout)];
    forall n ensures (Known(h', n) <==> n in SeenNames(p, frames)) && (Known(h', n) <==> EverReceived(h', n)) {
      KnownStep(h, Check(now, timeout), n);
      ReceivedStep(h, Check(now, timeout), n);
    }
  }

  /** What was published is what the frames call for. */
  ghost predicate PublishedFits(
      p: Pipeline, s: NodeSettings, topics: map<Text, Text>, frames: seq<Frame>, chunks: seq<seq<Publication>>,
      published: seq<Publication>)
  {
    ChunksFit(p, topics, frames, chunks) && published == Messages(p, s, frames, chunks)
  }

  lemma PublishedStep(
      p: Pipeline, s: NodeSettings, topics: map<Text, Text>, frames: seq<Frame>, chunks: seq<seq<Publication>>,
      published: seq<Publication>, f: Frame, chunk: seq<Publication>)
    requires PublishedFits(p, s, topics, frames, chunks, published)
    requires Lists(chunk, FrameGroups(p, topics, f))
    ensures PublishedFits(p, s, topics, frames + [f], chunks + [chunk],
                          published + chunk + Firehose(s, f.stamp, FrameTags(p, f)))
  {
    assert Init(frames + [f]) == frames && Last(frames + [f]) == f;
    assert Init(chunks + [chunk]) == chunks && Last(chunks + [chunk]) == chunk;
  }

  /** An unknown frame publishes nothing and tells the monitor nothing. */
  lemma UnknownFrame(p: Pipeline, s: NodeSettings, topics: map<Text, Text>, f: Frame, clock: nat -> uint64)
    requires p.Decode(f) == None
    ensures Lists([], FrameGroups(p, topics, f)) && Firehose(s, f.stamp, FrameTags(p, f)) == []
    ensures ReceiptEvents(p, Raws(p, f), f.id, clock) == [] && Promotions(p, s.promoted, Raws(p, f), f.id) == []
  {
  }

  // ---------- the diagnostics sent so far ----------

  /** A diagnostic reports the counters of the frames. */
  ghost predicate Totals(p: Pipeline, frames: seq<Frame>, d: Diagnostic) {
    CountersFit(p, frames, d.framesReceived, d.framesDecoded, d.framesUnknown, d.decodeErrors)
  }

  /** The i-th diagnostic was sent after marks[i] frames, with their counters. */
  ghost predicate DiagnosticsFit(p: Pipeline, frames: seq<Frame>, diagnostics: seq<Diagnostic>, marks: seq<nat>) {
    && |marks| == |diagnostics|
    && (forall i, j | 0 <= i <= j < |marks| :: marks[i] <= marks[j] <= |frames|)
    && (forall i | 0 <= i < |marks| :: Totals(p, frames[..marks[i]], diagnostics[i]))
  }

  lemma DiagnosticsAfterFrame(
      p: Pipeline, frames: seq<Frame>, diagnostics: seq<Diagnostic>, marks: seq<nat>, f: Frame)
    requires DiagnosticsFit(p, frames, diagnostics, marks)
    ensures DiagnosticsFit(p, frames + [f], diagnostics, marks)
  {
    forall i | 0 <= i < |marks| ensures Totals(p, (frames + [f])[..marks[i]], diagnostics[i]) {
      assert marks[i] <= marks[i] <= |frames|;
      assert (frames + [f])[..marks[i]] == frames[..marks[i]];
    }
  }

  lemma DiagnosticsAfterReport(
      p: Pipeline, frames: seq<Frame>, diagnostics: seq<Diagnostic>, marks: seq<nat>, d: Diagnostic)
    requires DiagnosticsFit(p, frames, diagnostics, marks) && Totals(p, frames, d)
    ensures DiagnosticsFit(p, frames, diagnostics + [d], marks + [|frames|])
  {
    var more := marks + [|frames|];
    assert frames[..|frames|] == frames;
    forall i, j | 0 <= i <= j < |more| ensures more[i] <= more[j] <= |frames| {
      assert i < |marks| ==> marks[i] <= marks[i] <= |frames|;
    }
  }

  // ---------- what a run of callbacks adds up to ----------

  /** The calls of the monitor that a callback makes. */
  function Calls(p: Pipeline, timeout: uint64, c: Callback): seq<Event> {
    match c
    case FrameArrives(f, clock) => ReceiptEvents(p, Raws(p, f), f.id, clock)
    case TimerFires(now, _) => [Check(now, timeout)]
  }

  function EventsOf(p: Pipeline, timeout: uint64, cs: seq<Callback>): seq<Event> {
    if cs == [] then [] else EventsOf(p, timeout, Init(cs)) + Calls(p, timeout, Last(cs))
  }

  /** The frames seen once the callbacks have run. */
  function SeenBy(cs: seq<Callback>): seq<Frame> {
    ReceivedAll(Arrivals(cs))
  }

  /** The frame a callback takes in, if it brings one. */
  function Taken(c: Callback): seq<Frame> {
    if c.FrameArrives? then [Received(c.frame)] else []
  }

  /** The diagnostic of a timer callback, given the frames and calls up to and including it. */
  ghost predicate Answers(
      p: Pipeline, canTopic: Text, c: Callback, frames: seq<Frame>, h: seq<Event>, d: Diagnostic)
  {
    && c.TimerFires? && d.stamp == c.stamp && d.canTopic == canTopic
    && Totals(p, frames, d) && ListsTimedOut(h, d.timedOutSignals)
  }

  /** One diagnostic for each timer callback, in order, each about what came before it. */
  ghost predicate Answered(
      p: Pipeline, canTopic: Text, timeout: uint64, frames: seq<Frame>, h: seq<Event>,
      cs: seq<Callback>, diagnostics: seq<Diagnostic>)
  {
    if cs == [] then diagnostics == []
    else if Last(cs).TimerFires? then
      && diagnostics != []
      && Answers(p, canTopic, Last(cs), frames + SeenBy(cs), h + EventsOf(p, timeout, cs), Last(diagnostics))
      && Answered(p, canTopic, timeout, frames, h, Init(cs), Init(diagnostics))
    else Answered(p, canTopic, timeout, frames, h, Init(cs), diagnostics)
  }

  /** The diagnostics a callback sends: one if it is a timer's. */
  ghost predicate Replies(
      p: Pipeline, canTopic: Text, c: Callback, frames: seq<Frame>, h: seq<Event>, more: seq<Diagnostic>)
  {
    if c.TimerFires? then |more| == 1 && Answers(p, canTopic, c, frames, h, more[0]) else more == []
  }

  lemma {:induction false} AnsweredStep(
      p: Pipeline, canTopic: Text, timeout: uint64, frames: seq<Frame>, h: seq<Event>,
      cs: seq<Callback>, diagnostics: seq<Diagnostic>, c: Callback, more: seq<Diagnostic>)
    requires Answered(p, canTopic, timeout, frames, h, cs, diagnostics)
    requires Replies(p, canTopic, c, frames + SeenBy(cs + [c]), h + EventsOf(p, timeout, cs + [c]), more)
    ensures Answered(p, canTopic, timeout, frames, h, cs + [c], diagnostics + more)
  {
    assert Init(cs + [c]) == cs && Last(cs + [c]) == c;
    if c.TimerFires? {
      assert Init(diagnostics + more) == diagnostics && Last(diagnostics + more) == more[0];
    } else {
      assert diagnostics + more == diagnostics;
    }
  }

  /** What a node has behind it: the frames seen, the calls of its monitor, and its diagnostics. */
  datatype Past = Past(seen: seq<Frame>, history: seq<Event>, diagnostics: seq<Diagnostic>)

  /** A callback does not throw, and adds its frame, calls and diagnostics to the past. */
  ghost predicate Served(p: Pipeline, canTopic: Text, timeout: uint64, c: Callback, before: Past, after: Past) {
    && !Throws(c)
    && after.seen == before.seen + Taken(c)
    && after.history == before.history + Calls(p, timeout, c)
    && exists more ::
         after.diagnostics == before.diagnostics + more && Replies(p, canTopic, c, after.seen, after.history, more)
  }

  lemma FrameServed(
      p: Pipeline, canTopic: Text, timeout: uint64, f: Frame, clock: nat -> uint64, before: Past, after: Past)
    requires FromMessage(f.stamp).Some?
    requires after.seen == before.seen + [Received(f)] && after.diagnostics == before.diagnostics
    requires after.history == before.history + ReceiptEvents(p, Raws(p, f), f.id, clock)
    ensures Served(p, canTopic, timeout, FrameArrives(f, clock), before, after)
  {
    assert after.diagnostics == before.diagnostics + [];
    assert Replies(p, canTopic, FrameArrives(f, clock), after.seen, after.history, []);
  }

  lemma TimerServed(
      p: Pipeline, canTopic: Text, timeout: uint64, now: uint64, stamp: Stamp, before: Past, after: Past, d: Diagnostic)
    requires after.seen == before.seen && after.diagnostics == before.diagnostics + [d]
    requires after.history == before.history + [Check(now, timeout)]
    requires Answers(p, canTopic, TimerFires(now, stamp), after.seen, after.history, d)
    ensures Served(p, canTopic, timeout, TimerFires(now, stamp), before, after)
  {
    assert before.seen + [] == before.seen;
    assert Replies(p, canTopic, TimerFires(now, stamp), after.seen, after.history, [d]);
  }

  /** The callbacks, one after the other, lead from the one past to the other. */
  ghost predicate Leads(p: Pipeline, canTopic: Text, timeout: uint64, cs: seq<Callback>, start: Past, now: Past) {
    if cs == [] then now == start
    else
      exists before ::
        Leads(p, canTopic, timeout, Init(cs), start, before) && Served(p, canTopic, timeout, Last(cs), before, now)
  }

  lemma {:induction false} LeadsOn(
      p: Pipeline, canTopic: Text, timeout: uint64, cs: seq<Callback>, n: nat, start: Past, before: Past, now: Past)
    requires n < |cs| && Leads(p, canTopic, timeout, cs[..n], start, before)
    requires Served(p, canTopic, timeout, cs[n], before, now)
    ensures Leads(p, canTopic, timeout, cs[..n + 1], start, now)
  {
    OneMore(cs, n);
  }

  /**
   * What callbacks amount to: none throws, the past grows by all their frames and
   * calls, and by one diagnostic for each time the timer fired.
   */
  ghost predicate Ran(
      p: Pipeline, canTopic: Text, timeout: uint64, cs: seq<Callback>, start: Past, now: Past, sent: seq<Diagnostic>)
  {
    && (forall c | c in cs :: !Throws(c))
    && now == Past(start.seen + SeenBy(cs), start.history + EventsOf(p, timeout, cs), start.diagnostics + sent)
    && Answered(p, canTopic, timeout, start.seen, start.history, cs, sent)
  }

  lemma SeenStep(cs: seq<Callback>, c: Callback)
    ensures SeenBy(cs + [c]) == SeenBy(cs) + Taken(c)
  {
    assert Init(cs + [c]) == cs && Last(cs + [c]) == c;
    if c.FrameArrives? {
      assert Init(Arrivals(cs) + [c.frame]) == Arrivals(cs);
    }
  }

  lemma EventsStep(p: Pipeline, timeout: uint64, cs: seq<Callback>, c: Callback)
    ensures EventsOf(p, timeout, cs + [c]) == EventsOf(p, timeout, cs) + Calls(p, timeout, c)
  {
    assert Init(cs + [c]) == cs && Last(cs + [c]) == c;
  }

  /** One callback more, on values. */
  lemma {:induction false} ServedStep(
      p: Pipeline, canTopic: Text, timeout: uint64, cs: seq<Callback>, c: Callback, start: Past, now: Past, after: Past,
      sent: seq<Diagnostic>)
    returns (more: seq<Diagnostic>)
    requires now == Past(start.seen + SeenBy(cs), start.history + EventsOf(p, timeout, cs), start.diagnostics + sent)
    requires Answered(p, canTopic, timeout, start.seen, start.history, cs, sent)
    requires Served(p, canTopic, timeout, c, now, after)
    ensures after == Past(start.seen + SeenBy(cs + [c]), start.history + EventsOf(p, timeout, cs + [c]),
                          start.diagnostics + (sent + more))
    ensures Answered(p, canTopic, timeout, start.seen, start.history, cs + [c], sent + more)
  {
    SeenStep(cs, c);
    EventsStep(p, timeout, cs, c);
    Associative(start.seen, SeenBy(cs), Taken(c));
    Associative(start.history, EventsOf(p, timeout, cs), Calls(p, timeout, c));
    more :| after.diagnostics == now.diagnostics + more && Replies(p, canTopic, c, after.seen, after.history, more);
    Associative(start.diagnostics, sent, more);
    AnsweredStep(p, canTopic, timeout, start.seen, start.history, cs, sent, c, more);
  }

  lemma {:induction false} RanStep(
      p: Pipeline, canTopic: Text, timeout: uint64, cs: seq<Callback>, start: Past, before: Past, now: Past,
      sent: seq<Diagnostic>)
    returns (all: seq<Diagnostic>)
    requires cs != [] && Ran(p, canTopic, timeout, Init(cs), start, before, sent)
    requires Served(p, canTopic, timeout, Last(cs), before, now)
    ensures Ran(p, canTopic, timeout, cs, start, now, all)
  {
    assert cs == Init(cs) + [Last(cs)];
    var more := ServedStep(p, canTopic, timeout, Init(cs), Last(cs), start, before, now, sent);
    all := sent + more;
  }

  lemma LeadsBack(p: Pipeline, canTopic: Text, timeout: uint64, cs: seq<Callback>, start: Past, now: Past)
    returns (before: Past)
    requires cs != [] && Leads(p, canTopic, timeout, cs, start, now)
    ensures Leads(p, canTopic, timeout, Init(cs), start, before) && Served(p, canTopic, timeout, Last(cs), before, now)
  {
    before :| Leads(p, canTopic, timeout, Init(cs), start, before) && Served(p, canTopic, timeout, Last(cs), before, now);
  }

  lemma NothingRan(p: Pipeline, canTopic: Text, timeout: uint64, start: Past)
    ensures Ran(p, canTopic, timeout, [], start, start, [])
  {
    assert start == Past(start.seen + [], start.history + [], start.diagnostics + []);
  }

  lemma {:induction false} LeadsMeansRan(
      p: Pipeline, canTopic: Text, timeout: uint64, cs: seq<Callback>, start: Past, now: Past)
    returns (sent: seq<Diagnostic>)
    requires Leads(p, canTopic, timeout, cs, start, now)
    ensures Ran(p, canTopic, timeout, cs, start, now, sent)
    decreases |cs|
  {
    if cs == [] {
      NothingRan(p, canTopic, timeout, start);
      sent := [];
    } else {
      var before := LeadsBack(p, canTopic, timeout, cs, start, now);
      var first := LeadsMeansRan(p, canTopic, timeout, Init(cs), start, before);
      sent := RanStep(p, canTopic, timeout, cs, start, before, now, first);
    }
  }

  // ---------- set-up ----------

  /** Publishers of the routed domains with a topic, then those of the schema, if published per domain. */
  method SetupPublishers(cfg: PipelineConfig, router: RoutingTables, perDomain: bool) returns (topics: map<Text, Text>)
    requires router == TablesOf(cfg.domains, cfg.aliases)
    ensures topics == NodeTopics(cfg, perDomain)
  {
    topics := AddRoutedTopics(cfg, router);
    if perDomain {
      topics := AddSchemaTopics(topics, cfg.schemaTopics);
    }
  }

  method AddRoutedTopics(cfg: PipelineConfig, router: RoutingTables) returns (topics: map<Text, Text>)
    requires router == TablesOf(cfg.domains, cfg.aliases)
    ensures topics == RoutedTopics(cfg)
  {
    topics := map[];
    for i := 0 to |cfg.domains|
      invariant forall d :: Lookup(topics, d) ==
                            if d in Names(cfg.domains[..i]) && router.TopicForDomain(d) != []
                            then Some(router.TopicForDomain(d)) else None
    {
      var name := cfg.domains[i].name;
      assert Names(cfg.domains[..i + 1]) == Names(cfg.domains[..i]) + {name} by {
        assert cfg.domains[..i + 1] == cfg.domains[..i] + [cfg.domains[i]];
      }
      var topic := router.TopicForDomain(name);
      if topic != [] {
        topics := topics[name := topic];
      }
    }
    assert cfg.domains[..|cfg.domains|] == cfg.domains;
    SameLookups(topics, RoutedTopics(cfg));
  }

  class VehicleCanNode {
    const pipeline: Pipeline
    const settings: NodeSettings
    const topics: map<Text, Text>
    const canTopic: Text
    const monitor: TimeoutMonitor

    // counters
    var framesReceived: uint64
    var framesDecoded: uint64
    var framesUnknown: uint64
    var decodeErrors: uint64

    // per-frame buffers, reused
    var frameSignals: map<Text, seq<Signal>>
    var allSigs: seq<Signal>

    // what the publishers sent
    var published: seq<Publication>
    var promotions: seq<(Text, Double)>
    var diagnostics: seq<Diagnostic>

    ghost var seen: seq<Frame>
    ghost var chunks: seq<seq<Publication>>
    ghost var marks: seq<nat>

    ghost predicate Valid()
      reads this, monitor
    {
      && CountersFit(pipeline, seen, framesReceived, framesDecoded, framesUnknown, decodeErrors)
      && PublishedFits(pipeline, settings, topics, seen, chunks, published)
      && promotions == AllPromotions(pipeline, settings.promoted, seen)
      && monitor.Valid() && NamesFit(pipeline, seen, monitor.history)
      && DiagnosticsFit(pipeline, seen, diagnostics, marks)
    }

    constructor (lib: Library, cfg: PipelineConfig, settings: NodeSettings)
      ensures Valid() && fresh(monitor) && seen == [] && diagnostics == [] && monitor.history == []
      ensures pipeline == PipelineOf(lib, cfg) && this.settings == settings && canTopic == cfg.canTopic
      ensures topics == NodeTopics(cfg, settings.perDomain)
    {
      var router := new SignalRouter();
      var warnings := router.Configure(cfg.domains, cfg.aliases);
      var tables := router.Tables();
      var domainTopics := SetupPublishers(cfg, tables, settings.perDomain);
      pipeline := PipelineWith(lib, tables, cfg);
      this.settings := settings;
      canTopic := cfg.canTopic;
      topics := domainTopics;
      monitor := new TimeoutMonitor();
      framesReceived, framesDecoded, framesUnknown, decodeErrors := 0, 0, 0, 0;
      frameSignals, allSigs := map[], [];
      published, promotions, diagnostics := [], [], [];
      seen, chunks, marks := [], [], [];
    }

    /** The subscription callback; it throws, and leaves the node as it is, for a stamp without a time. */
    method OnCanFrame(f: Frame, clock: nat -> uint64) returns (ok: bool, ghost sent: seq<Publication>)
      requires Valid()
      modifies this, monitor
      ensures Valid() && (ok <==> NodeStamp(f.stamp).Some?)
      ensures !ok ==> unchanged(this) && unchanged(monitor)
      ensures ok ==> seen == old(seen) + [Received(f)] && chunks == old(chunks) + [sent]
      ensures ok ==> promotions == old(promotions) + Promotions(pipeline, settings.promoted, Raws(pipeline, f), f.id)
      ensures ok ==> monitor.history == old(monitor.history) + ReceiptEvents(pipeline, Raws(pipeline, f), f.id, clock)
      ensures diagnostics == old(diagnostics)
    {
      var time := FromMessage(f.stamp);
      if time.None? {
        return false, [];
      }
      sent := ProcessFrame(f, time.value, clock);
      ok := true;
    }

    method ProcessFrame(f: Frame, time: TimePoint, clock: nat -> uint64) returns (ghost sent: seq<Publication>)
      requires Valid()
      modifies this, monitor
      ensures Valid() && seen == old(seen) + [Timed(f, time)]
      ensures chunks == old(chunks) + [sent]
      ensures promotions == old(promotions) + Promotions(pipeline, settings.promoted, Raws(pipeline, f), f.id)
      ensures monitor.history == old(monitor.history) + ReceiptEvents(pipeline, Raws(pipeline, f), f.id, clock)
      ensures diagnostics == old(diagnostics)
    {
      ghost var g := Timed(f, time);
      TimedKeepsContent(pipeline, f, time);
      CountersStep(pipeline, seen, framesReceived, framesDecoded, framesUnknown, decodeErrors, g);
      NamesStep(pipeline, seen, g, monitor.history, clock);
      PromotionsStep(pipeline, settings.promoted, seen, g);
      DiagnosticsAfterFrame(pipeline, seen, diagnostics, marks, g);
      ghost var before := published;
      sent := HandleFrame(f, time, clock);
      Record(g, sent, before);
    }

    /** The steps of process_frame, from any state of the reused buffers. */
    method HandleFrame(f: Frame, time: TimePoint, clock: nat -> uint64) returns (ghost sent: seq<Publication>)
      requires monitor.Valid()
      modifies this, monitor
      ensures framesReceived == Inc64(old(framesReceived))
      ensures framesDecoded == if pipeline.Decode(f).Some? then Inc64(old(framesDecoded)) else old(framesDecoded)
      ensures framesUnknown == if pipeline.Decode(f).None? then Inc64(old(framesUnknown)) else old(framesUnknown)
      ensures decodeErrors == Add64(old(decodeErrors), Errors(pipeline, Raws(pipeline, f), f.id))
      ensures Lists(sent, FrameGroups(pipeline, topics, Timed(f, time)))
      ensures published == old(published) + sent + Firehose(settings, ToMessage(time), FrameTags(pipeline, f))
      ensures promotions == old(promotions) + Promotions(pipeline, settings.promoted, Raws(pipeline, f), f.id)
      ensures monitor.Valid()
      ensures monitor.history == old(monitor.history) + ReceiptEvents(pipeline, Raws(pipeline, f), f.id, clock)
      ensures seen == old(seen) && chunks == old(chunks) && diagnostics == old(diagnostics) && marks == old(marks)
    {
      TimedKeepsContent(pipeline, f, time);
      framesReceived := Inc64(framesReceived);
      var decoded := pipeline.Decode(f);
      if decoded.None? {
        framesUnknown := Inc64(framesUnknown);
        UnknownFrame(pipeline, settings, topics, Timed(f, time), clock);
        return [];
      }
      framesDecoded := Inc64(framesDecoded);
      sent := ProcessDecoded(f, time, decoded.value, clock);
    }

    /** The frame has been dealt with, so it joins the ghost history. */
    ghost method Record(f: Frame, sent: seq<Publication>, before: seq<Publication>)
      requires DiagnosticsFit(pipeline, seen + [f], diagnostics, marks)
      requires CountersFit(pipeline, seen + [f], framesReceived, framesDecoded, framesUnknown, decodeErrors)
      requires monitor.Valid() && NamesFit(pipeline, seen + [f], monitor.history)
      requires promotions == AllPromotions(pipeline, settings.promoted, seen + [f])
      requires PublishedFits(pipeline, settings, topics, seen, chunks, before)
      requires Lists(sent, FrameGroups(pipeline, topics, f))
      requires published == before + sent + Firehose(settings, f.stamp, FrameTags(pipeline, f))
      modifies this`seen, this`chunks
      ensures Valid() && seen == old(seen) + [f] && chunks == old(chunks) + [sent]
    {
      PublishedStep(pipeline, settings, topics, seen, chunks, before, f, sent);
      seen, chunks := seen + [f], chunks + [sent];
    }

    /** The part of process_frame for a frame whose id is known. */
    method ProcessDecoded(f: Frame, time: TimePoint, raws: seq<RawSignal>, clock: nat -> uint64)
      returns (ghost sent: seq<Publication>)
      requires monitor.Valid()
      modifies this`frameSignals, this`allSigs, this`decodeErrors, this`promotions, this`published, monitor
      ensures var tags := Tags(pipeline, raws, f.id);
        && Lists(sent, Publications(topics, ToMessage(time), tags, DomainsIn(tags)))
        && published == old(published) + sent + Firehose(settings, ToMessage(time), tags)
      ensures decodeErrors == Add64(old(decodeErrors), Errors(pipeline, raws, f.id))
      ensures promotions == old(promotions) + Promotions(pipeline, settings.promoted, raws, f.id)
      ensures monitor.Valid() && monitor.history == old(monitor.history) + ReceiptEvents(pipeline, raws, f.id, clock)
    {
      frameSignals := map[];
      allSigs := [];
      BuildGroups(raws, f.id, clock);
      sent := PublishGroups(time, Tags(pipeline, raws, f.id));
      if settings.publishAll && allSigs != [] {
        published := published + [Publication(settings.allSignalsTopic, GroupMessage(ToMessage(time), ALL, allSigs))];
        allSigs := [];
      }
    }

    /** One message per domain with a publisher, in the order of the map, which is unspecified. */
    method PublishGroups(time: TimePoint, ghost tags: seq<Tag>) returns (ghost sent: seq<Publication>)
      requires frameSignals == GroupsOf(tags)
      modifies this`frameSignals, this`published
      ensures Lists(sent, Publications(topics, ToMessage(time), tags, DomainsIn(tags)))
      ensures published == old(published) + sent
    {
      sent := [];
      var todo := frameSignals.Keys;
      ghost var done: set<Text> := {};
      while todo != {}
        invariant done + todo == DomainsIn(tags) && done !! todo
        invariant forall d | d in todo :: d in frameSignals && frameSignals[d] == OfDomain(tags, d)
        invariant Lists(sent, Publications(topics, ToMessage(time), tags, done))
        invariant published == old(published) + sent
        decreases todo
      {
        var domain :| domain in todo;
        ListsStep(topics, ToMessage(time), tags, done, domain, sent);
        todo, done := todo - {domain}, done + {domain};
        var group := GroupMessage(ToMessage(time), domain, frameSignals[domain]);
        frameSignals := frameSignals[domain := []];
        if domain in topics {
          published := published + [Publication(topics[domain], group)];
          sent := sent + [Publication(topics[domain], group)];
        }
      }
      assert done == DomainsIn(tags);
    }

    /** The loop over the decoded signals; the buffers are cleared before it. */
    method BuildGroups(raws: seq<RawSignal>, id: uint32, clock: nat -> uint64)
      requires monitor.Valid()
      requires frameSignals == map[] && allSigs == []
      modifies this`frameSignals, this`allSigs, this`decodeErrors, this`promotions, monitor
      ensures frameSignals == GroupsOf(Tags(pipeline, raws, id))
      ensures allSigs == if settings.publishAll then Signals(Tags(pipeline, raws, id)) else []
      ensures decodeErrors == Add64(old(decodeErrors), Errors(pipeline, raws, id))
      ensures promotions == old(promotions) + Promotions(pipeline, settings.promoted, raws, id)
      ensures monitor.Valid() && monitor.history == old(monitor.history) + ReceiptEvents(pipeline, raws, id, clock)
    {
      ghost var tags: seq<Tag> := [];
      for i := 0 to |raws|
        invariant tags == Tags(pipeline, raws[..i], id)
        invariant frameSignals == GroupsOf(tags)
        invariant allSigs == if settings.publishAll then Signals(tags) else []
        invariant decodeErrors == Add64(old(decodeErrors), Errors(pipeline, raws[..i], id))
        invariant promotions == old(promotions) + Promotions(pipeline, settings.promoted, raws[..i], id)
        invariant monitor.Valid() && monitor.history == old(monitor.history) + ReceiptEvents(pipeline, raws[..i], id, clock)
      {
        OneMore(raws, i);
        var raw := raws[i];
        var res := pipeline.resolve(raw.name, id);
        var tr := pipeline.transform(res.name, raw.value);
        if tr.None? {
          Add64Step(old(decodeErrors), Errors(pipeline, raws[..i], id));
          decodeErrors := Inc64(decodeErrors);
          continue;
        }
        var sig := Signal(if res.name in pipeline.nameToId then pipeline.nameToId[res.name] else 0,
                          pipeline.narrow(tr.value));
        if res.domain != UNASSIGNED {
          Forward(res, sig, clock(i), tags);
          tags := tags + [(res.domain, sig)];
        }
        if res.name in settings.promoted {
          promotions := promotions + [(settings.promoted[res.name], tr.value)];
        }
      }
      assert raws[..|raws|] == raws;
    }

    /** A signal with a domain: the monitor is told, and the buffers take it up. */
    method Forward(res: SignalResolution, sig: Signal, now: uint64, ghost tags: seq<Tag>)
      requires monitor.Valid() && frameSignals == GroupsOf(tags)
      requires allSigs == if settings.publishAll then Signals(tags) else []
      modifies this`frameSignals, this`allSigs, monitor
      ensures frameSignals == GroupsOf(tags + [(res.domain, sig)])
      ensures allSigs == if settings.publishAll then Signals(tags + [(res.domain, sig)]) else []
      ensures monitor.Valid() && monitor.history == old(monitor.history) + [Receive(res.name, now)]
    {
      monitor.SignalReceived(res.name, now);
      GroupsStep(tags, res.domain, sig);
      SignalsStep(tags, (res.domain, sig));
      var list := if res.domain in frameSignals then frameSignals[res.domain] else [];
      frameSignals := frameSignals[res.domain := list + [sig]];
      if settings.publishAll {
        allSigs := allSigs + [sig];
      }
    }

    /** Reports counters and timeouts; `now` is the steady clock as read for the check, `stamp` the node's own. */
    method OnDiagnosticsTimer(now: uint64, stamp: Stamp)
      requires Valid()
      modifies this`diagnostics, this`marks, monitor
      ensures Valid() && monitor.history == old(monitor.history) + [Check(now, settings.signalTimeoutMs)]
      ensures |diagnostics| == |old(diagnostics)| + 1 && diagnostics[..|old(diagnostics)|] == old(diagnostics)
      ensures Answers(pipeline, canTopic, TimerFires(now, stamp), seen, monitor.history, Last(diagnostics))
      ensures var d := Last(diagnostics);
        && d.framesReceived == framesReceived && d.framesDecoded == framesDecoded
        && d.framesUnknown == framesUnknown && d.decodeErrors == decodeErrors
    {
      NamesAfterCheck(pipeline, seen, monitor.history, now, settings.signalTimeoutMs);
      var newly := monitor.CheckTimeouts(now, settings.signalTimeoutMs);
      var timedOut := monitor.TimedOutSignals();
      var diag := Diagnostic(stamp, canTopic, framesReceived, framesDecoded, framesUnknown, decodeErrors, timedOut);
      DiagnosticsAfterReport(pipeline, seen, diagnostics, marks, diag);
      diagnostics := diagnostics + [diag];
      marks := marks + [|seen|];
    }

    /** What is behind the node. */
    ghost function Behind(): Past
      reads this, monitor
    {
      Past(seen, monitor.history, diagnostics)
    }

    /** One callback; the timer's never throws. */
    method Dispatch(c: Callback) returns (ok: bool)
      requires Valid()
      modifies this, monitor
      ensures Valid() && (ok <==> !Throws(c))
      ensures !ok ==> Behind() == old(Behind())
      ensures ok ==> Served(pipeline, canTopic, settings.signalTimeoutMs, c, old(Behind()), Behind())
    {
      match c
      case FrameArrives(frame, clock) =>
        ghost var chunk;
        ok, chunk := OnCanFrame(frame, clock);
        if ok {
          FrameServed(pipeline, canTopic, settings.signalTimeoutMs, frame, clock, old(Behind()), Behind());
        }
      case TimerFires(now, stamp) =>
        OnDiagnosticsTimer(now, stamp);
        ok := true;
        TimerServed(pipeline, canTopic, settings.signalTimeoutMs, now, stamp, old(Behind()), Behind(), Last(diagnostics));
    }

    /** The executor: callbacks in order, up to the first that throws, which ends the program. */
    method Spin(callbacks: seq<Callback>) returns (done: nat)
      requires Valid()
      modifies this, monitor
      ensures done <= |callbacks| && (done < |callbacks| ==> Throws(callbacks[done]))
      ensures Valid()
      ensures Leads(pipeline, canTopic, settings.signalTimeoutMs, callbacks[..done], old(Behind()), Behind())
    {
      done := 0;
      while done < |callbacks|
        invariant done <= |callbacks| && Valid()
        invariant Leads(pipeline, canTopic, settings.signalTimeoutMs, callbacks[..done], old(Behind()), Behind())
        decreases |callbacks| - done
      {
        ghost var before := Behind();
        var ok := Dispatch(callbacks[done]);
        if !ok {
          return;
        }
        LeadsOn(pipeline, canTopic, settings.signalTimeoutMs, callbacks, done, old(Behind()), before, Behind());
        done := done + 1;
      }
    }
  }

  /** What a run of the node leaves behind: its schema, its messages, and how many callbacks it lived through. */
  datatype Run = Run(
    signalTable: seq<SignalEntry>, unitTable: seq<Text>,
    published: seq<Publication>, promotions: seq<(Text, Double)>, diagnostics: seq<Diagnostic>, done: nat)

  /** The schema published for a parameter map. */
  ghost predicate SchemaFits(params: Params, run: Run)
    requires |GetStrings(params, SIGNAL_ID_NAMES)| <= MAX_ENTRIES
    requires TablesOk(GetStrings(params, SIGNAL_ID_NAMES), GetStrings(params, SIGNAL_ID_UNIT_NAMES),
                      GetStrings(params, UNIT_ID_NAMES))
  {
    var names, units := GetStrings(params, SIGNAL_ID_NAMES), GetStrings(params, UNIT_ID_NAMES);
    && Publishes(run.signalTable, TablesOfParams(names, GetStrings(params, SIGNAL_ID_UNIT_NAMES), units), names)
    && run.unitTable == units
  }

  /** What a run from the start leaves behind, if it takes in the received frames and makes the calls of the history. */
  ghost predicate RunFits(
      p: Pipeline, cfg: PipelineConfig, s: NodeSettings, callbacks: seq<Callback>, run: Run,
      received: seq<Frame>, live: seq<seq<Publication>>, history: seq<Event>)
  {
    && run.done <= |callbacks| && (run.done < |callbacks| ==> Throws(callbacks[run.done]))
    && Ran(p, cfg.canTopic, s.signalTimeoutMs, callbacks[..run.done], Past([], [], []),
           Past(received, history, run.diagnostics), run.diagnostics)
    && PublishedFits(p, s, NodeTopics(cfg, s.perDomain), received, live, run.published)
    && run.promotions == AllPromotions(p, s.promoted, received)
  }

  /** The program: the node loads its parameters, sets itself up, publishes its schema, and spins. */
  method RunNode(lib: Library, params: Params, callbacks: seq<Callback>)
    returns (r: Result<Run, LoadError>,
             ghost received: seq<Frame>, ghost live: seq<seq<Publication>>, ghost history: seq<Event>)
    ensures r.Ok? <==> NodeAccepts(lib.host, params)
    ensures r.Ok? ==>
              && SchemaFits(params, r.value)
              && RunFits(PipelineOf(lib, ConfigOf(params)), ConfigOf(params), SettingsOf(params), callbacks, r.value,
                         received, live, history)
  {
    received, live, history := [], [], [];
    var loaded := LoadParameters(lib.host, params);
    if loaded.Err? {
      r := Err(loaded.error);
      return;
    }
    var node := new VehicleCanNode(lib, loaded.value.config, loaded.value.settings);
    IdsAreInjective(GetStrings(params, SIGNAL_ID_NAMES));
    var signalTable, unitTable := PublishSchema(loaded.value.tables);
    var done := node.Spin(callbacks);
    received, live, history := node.seen, node.chunks, node.monitor.history;
    ghost var sent := LeadsMeansRan(
      node.pipeline, node.canTopic, node.settings.signalTimeoutMs, callbacks[..done], Past([], [], []), node.Behind());
    assert [] + sent == sent == node.diagnostics;
    r := Ok(Run(signalTable, unitTable, node.published, node.promotions, node.diagnostics, done));
  }

  // ---------- what holds of every run ----------

  lemma WrappedSum(a: nat, b: nat)
    ensures (a % TWO_64 + b % TWO_64) % TWO_64 == (a + b) % TWO_64
  {
    Add64Counts(a, b % TWO_64);
    RemainderIs(a + b, (a + b % TWO_64) / TWO_64 + b / TWO_64, (a + b % TWO_64) % TWO_64);
  }

  lemma SmallIsUnwrapped(n: nat)
    ensures n < TWO_64 ==> n % TWO_64 == n
  {
  }

  /** In every reachable state the counters add up, wrap-around included. */
  lemma {:induction false} CountersAddUp(
      p: Pipeline, frames: seq<Frame>, received: uint64, decoded: uint64, unknown: uint64, errors: uint64)
    requires CountersFit(p, frames, received, decoded, unknown, errors)
    ensures received == (decoded + unknown) % TWO_64
    ensures |frames| < TWO_64 ==> received == decoded + unknown == |frames|
  {
    EveryFrameIsDecodedOrUnknown(p, frames);
    WrappedSum(CountDecoded(p, frames), CountUnknown(p, frames));
    SmallIsUnwrapped(|frames|);
    SmallIsUnwrapped(CountDecoded(p, frames));
    SmallIsUnwrapped(CountUnknown(p, frames));
  }

  /** Monitored names are the forwarded ones, and no monitored signal is in its initial state. */
  lemma MonitoredNamesAreForwarded(node: VehicleCanNode, n: Text)
    requires node.Valid()
    ensures n in node.monitor.states <==> n in SeenNames(node.pipeline, node.seen)
    ensures n in node.monitor.states ==> node.monitor.states[n].status != StatusInitial
  {
    assert Explains(node.monitor.history, n, Lookup(node.monitor.states, n));
    assert Known(node.monitor.history, n) <==> EverReceived(node.monitor.history, n);
  }

  lemma {:induction false} TotalsGrow(p: Pipeline, frames: seq<Frame>, k: nat)
    requires k <= |frames|
    ensures CountDecoded(p, frames[..k]) <= CountDecoded(p, frames)
    ensures CountUnknown(p, frames[..k]) <= CountUnknown(p, frames)
    ensures CountErrors(p, frames[..k]) <= CountErrors(p, frames)
    decreases |frames|
  {
    if k < |frames| {
      TotalsGrow(p, Init(frames), k);
      assert Init(frames)[..k] == frames[..k];
    } else {
      assert frames[..k] == frames;
    }
  }

  /** Below 2^64 a counter shows its total. */
  lemma CountersShowTotals(
      p: Pipeline, frames: seq<Frame>, received: uint64, decoded: uint64, unknown: uint64, errors: uint64)
    requires CountersFit(p, frames, received, decoded, unknown, errors)
    ensures |frames| < TWO_64 ==>
              received == |frames| && decoded == CountDecoded(p, frames) && unknown == CountUnknown(p, frames)
    ensures CountErrors(p, frames) < TWO_64 ==> errors == CountErrors(p, frames)
  {
    EveryFrameIsDecodedOrUnknown(p, frames);
    SmallIsUnwrapped(|frames|);
    SmallIsUnwrapped(CountDecoded(p, frames));
    SmallIsUnwrapped(CountUnknown(p, frames));
    SmallIsUnwrapped(CountErrors(p, frames));
  }

  /**
   * In every reachable state the counters of earlier diagnostics are at most those of
   * later ones, as long as the totals of the later one fit 64 bits.
   */
  lemma {:induction false} DiagnosticsNeverDecrease(node: VehicleCanNode, i: nat, j: nat)
    requires node.Valid() && i <= j < |node.diagnostics|
    ensures var earlier, later := node.diagnostics[i], node.diagnostics[j];
      && (node.marks[j] < TWO_64 ==>
            && earlier.framesReceived <= later.framesReceived
            && earlier.framesDecoded <= later.framesDecoded
            && earlier.framesUnknown <= later.framesUnknown
            && later.framesReceived == later.framesDecoded + later.framesUnknown)
      && (CountErrors(node.pipeline, node.seen[..node.marks[j]]) < TWO_64 ==> earlier.decodeErrors <= later.decodeErrors)
  {
    var p, earlier, later := node.pipeline, node.diagnostics[i], node.diagnostics[j];
    var frames := node.seen[..node.marks[j]];
    var k := node.marks[i];
    assert Totals(p, frames, later) && Totals(p, node.seen[..k], earlier);
    assert frames[..k] == node.seen[..k];
    TotalsGrow(p, frames, k);
    EveryFrameIsDecodedOrUnknown(p, frames);
    CountersShowTotals(p, frames, later.framesReceived, later.framesDecoded, later.framesUnknown, later.decodeErrors);
    CountersShowTotals(p, frames[..k], earlier.framesReceived, earlier.framesDecoded,
                       earlier.framesUnknown, earlier.decodeErrors);
  }

  // ---------- what decode_errors counts ----------

  /** The frames the counter is documented to count: those with a signal that raises. */
  function CountErrorFrames(p: Pipeline, frames: seq<Frame>): nat {
    if frames == [] then 0
    else CountErrorFrames(p, Init(frames)) + if Errors(p, Raws(p, Last(frames)), Last(frames).id) > 0 then 1 else 0
  }

  /** Two signals of the frame raise. */
  ghost predicate RaisesTwice(p: Pipeline, raws: seq<RawSignal>, id: uint32) {
    exists i, j | 0 <= i < j < |raws| :: p.Value(raws[i], id).None? && p.Value(raws[j], id).None?
  }

  lemma {:induction false} ErrorsAreRaised(p: Pipeline, raws: seq<RawSignal>, id: uint32)
    ensures Errors(p, raws, id) > 0 <==> exists i | 0 <= i < |raws| :: p.Value(raws[i], id).None?
    ensures Errors(p, raws, id) > 1 <==> RaisesTwice(p, raws, id)
  {
    if raws != [] {
      var before := Init(raws);
      ErrorsAreRaised(p, before, id);
      assert forall i | 0 <= i < |before| :: before[i] == raws[i];
      assert Last(raws) == raws[|before|];
    }
  }

  ghost predicate NoneRaisesTwice(p: Pipeline, frames: seq<Frame>) {
    forall i | 0 <= i < |frames| :: !RaisesTwice(p, Raws(p, frames[i]), frames[i].id)
  }

  lemma {:induction false} NoneRaisesTwiceStep(p: Pipeline, frames: seq<Frame>)
    requires frames != []
    ensures NoneRaisesTwice(p, frames) <==>
            NoneRaisesTwice(p, Init(frames)) && !RaisesTwice(p, Raws(p, Last(frames)), Last(frames).id)
  {
    var before := Init(frames);
    if NoneRaisesTwice(p, frames) {
      forall i | 0 <= i < |before| ensures !RaisesTwice(p, Raws(p, before[i]), before[i].id) {
        assert before[i] == frames[i];
      }
      assert Last(frames) == frames[|before|];
    } else {
      var i :| 0 <= i < |frames| && RaisesTwice(p, Raws(p, frames[i]), frames[i].id);
      assert i < |before| ==> before[i] == frames[i];
    }
  }

  /** decode_errors is the number of frames with errors exactly if no frame has two raising signals. */
  lemma {:induction false} ErrorsCountFramesIff(p: Pipeline, frames: seq<Frame>)
    ensures CountErrors(p, frames) >= CountErrorFrames(p, frames)
    ensures CountErrors(p, frames) == CountErrorFrames(p, frames) <==> NoneRaisesTwice(p, frames)
  {
    if frames != [] {
      ErrorsCountFramesIff(p, Init(frames));
      NoneRaisesTwiceStep(p, frames);
      ErrorsAreRaised(p, Raws(p, Last(frames)), Last(frames).id);
    }
  }

  /** The same of the node's own counter, before it wraps. */
  lemma {:induction false} CounterCountsFramesIff(node: VehicleCanNode)
    requires node.Valid() && CountErrors(node.pipeline, node.seen) < TWO_64
    ensures node.decodeErrors == CountErrorFrames(node.pipeline, node.seen) <==>
            NoneRaisesTwice(node.pipeline, node.seen)
  {
    var p, frames := node.pipeline, node.seen;
    CountersShowTotals(p, frames, node.framesReceived, node.framesDecoded, node.framesUnknown, node.decodeErrors);
    ErrorsCountFramesIff(p, frames);
  }

  /** One frame, two raising signals, two errors. */
  lemma {:induction false} TwoErrorsInOneFrame(host: Host, f: Frame, raw: RawSignal)
    ensures var p := PipelineOf(Constantly(host, [raw, raw], _ => None), NoDomains());
      CountErrors(p, [f]) == 2 && CountErrorFrames(p, [f]) == 1
  {
    var raws := [raw, raw];
    var p := PipelineOf(Constantly(host, raws, _ => None), NoDomains());
    assert Init([f]) == [] && Raws(p, f) == raws;
    assert Init(raws) == [raw] && Init([raw]) == [];
    assert Errors(p, [raw], f.id) == 1;
  }
}
