/** What the diagnostics of a run of the node say about timeouts. */
module NodeTimeouts {
  import opened Common
  import opened Configuration
  import opened FramePipeline
  import opened VehicleCanNodes
  import opened TimeoutMonitoring
  import opened TimeoutTheorems

  // ---------- callbacks, calls and diagnostics of a run ----------

  function TimersIn(cs: seq<Callback>): nat {
    if cs == [] then 0 else TimersIn(Init(cs)) + if Last(cs).TimerFires? then 1 else 0
  }

  /** The diagnostic of the k-th callback, a timer's, has as many before it as timers fired before. */
  lemma {:induction false} DiagnosticOfTimer(
      p: Pipeline, canTopic: Text, timeout: uint64, frames: seq<Frame>, h: seq<Event>,
      cs: seq<Callback>, ds: seq<Diagnostic>, k: nat)
    requires Answered(p, canTopic, timeout, frames, h, cs, ds)
    requires k < |cs| && cs[k].TimerFires?
    ensures TimersIn(cs[..k]) < |ds| == TimersIn(cs)
    ensures Answers(p, canTopic, cs[k], frames + SeenBy(cs[..k + 1]), h + EventsOf(p, timeout, cs[..k + 1]),
                    ds[TimersIn(cs[..k])])
    decreases |cs|
  {
    var ds' := if Last(cs).TimerFires? then Init(ds) else ds;
    DiagnosticsAreCounted(p, canTopic, timeout, frames, h, cs, ds);
    if k == |cs| - 1 {
      assert cs[..k + 1] == cs && cs[..k] == Init(cs);
    } else {
      DiagnosticOfTimer(p, canTopic, timeout, frames, h, Init(cs), ds', k);
      assert Init(cs)[..k] == cs[..k] && Init(cs)[..k + 1] == cs[..k + 1];
    }
  }

  lemma {:induction false} DiagnosticsAreCounted(
      p: Pipeline, canTopic: Text, timeout: uint64, frames: seq<Frame>, h: seq<Event>,
      cs: seq<Callback>, ds: seq<Diagnostic>)
    requires Answered(p, canTopic, timeout, frames, h, cs, ds)
    ensures |ds| == TimersIn(cs)
    decreases |cs|
  {
    if cs != [] {
      var ds' := if Last(cs).TimerFires? then Init(ds) else ds;
      DiagnosticsAreCounted(p, canTopic, timeout, frames, h, Init(cs), ds');
    }
  }

  /** The calls of the first k callbacks come first; a timer's is its check. */
  lemma {:induction false} EventsOfPrefix(p: Pipeline, timeout: uint64, cs: seq<Callback>, k: nat)
    requires k <= |cs|
    ensures EventsOf(p, timeout, cs[..k]) <= EventsOf(p, timeout, cs)
    ensures k < |cs| && cs[k].TimerFires? ==>
              EventsOf(p, timeout, cs[..k + 1]) == EventsOf(p, timeout, cs[..k]) + [Check(cs[k].now, timeout)]
    decreases |cs|
  {
    if k < |cs| {
      OneMore(cs, k);
      EventsOfPrefix(p, timeout, Init(cs), k);
      assert Init(cs)[..k] == cs[..k];
    } else {
      assert cs[..k] == cs;
    }
  }

  lemma {:induction false} ReceiptsAreNoChecks(p: Pipeline, raws: seq<RawSignal>, id: uint32, clock: nat -> uint64, j: nat)
    requires j < |ReceiptEvents(p, raws, id, clock)|
    ensures ReceiptEvents(p, raws, id, clock)[j].Receive?
  {
    if j < |ReceiptEvents(p, Init(raws), id, clock)| {
      ReceiptsAreNoChecks(p, Init(raws), id, clock, j);
    }
  }

  /** Every check is that of a timer callback, with the node's timeout. */
  lemma {:induction false} CheckIsOfTimer(p: Pipeline, timeout: uint64, cs: seq<Callback>, j: nat) returns (k: nat)
    requires j < |EventsOf(p, timeout, cs)| && EventsOf(p, timeout, cs)[j].Check?
    ensures k < |cs| && cs[k].TimerFires? && |EventsOf(p, timeout, cs[..k])| == j
    ensures EventsOf(p, timeout, cs)[j] == Check(cs[k].now, timeout)
  {
    var before := EventsOf(p, timeout, Init(cs));
    if j < |before| {
      k := CheckIsOfTimer(p, timeout, Init(cs), j);
      assert Init(cs)[..k] == cs[..k];
    } else {
      k := |cs| - 1;
      assert cs[..k] == Init(cs);
      if Last(cs).FrameArrives? {
        var f := Last(cs).frame;
        ReceiptsAreNoChecks(p, Raws(p, f), f.id, Last(cs).clock, j - |before|);
      }
    }
  }

  lemma {:induction false} ChecksUseTimeout(p: Pipeline, timeout: uint64, cs: seq<Callback>)
    ensures ConstantTimeout(EventsOf(p, timeout, cs), timeout)
  {
    var h := EventsOf(p, timeout, cs);
    forall j | 0 <= j < |h| && h[j].Check? ensures h[j].timeout == timeout {
      var k := CheckIsOfTimer(p, timeout, cs, j);
    }
  }

  lemma NextOfPrefix<T>(before: seq<T>, x: T, h: seq<T>)
    requires before + [x] <= h
    ensures |before| < |h| && h[|before|] == x && h[..|before| + 1] == before + [x]
  {
    assert (before + [x])[|before|] == x;
  }

  // ---------- what a run lists ----------

  /** The calls and the diagnostics of a run are those of the callbacks it lived through. */
  lemma {:induction false} HistoryOfRun(
      p: Pipeline, cfg: PipelineConfig, s: NodeSettings, callbacks: seq<Callback>, run: Run,
      received: seq<Frame>, live: seq<seq<Publication>>, h: seq<Event>)
    requires RunFits(p, cfg, s, callbacks, run, received, live, h)
    ensures h == EventsOf(p, s.signalTimeoutMs, callbacks[..run.done])
    ensures Answered(p, cfg.canTopic, s.signalTimeoutMs, [], [], callbacks[..run.done], run.diagnostics)
  {
    var events := EventsOf(p, s.signalTimeoutMs, callbacks[..run.done]);
    assert [] + events == events;
  }

  lemma {:induction false} TimedOutOfTimer(
      p: Pipeline, canTopic: Text, T: uint64, cs: seq<Callback>, ds: seq<Diagnostic>, k: nat)
    requires Answered(p, canTopic, T, [], [], cs, ds) && k < |cs| && cs[k].TimerFires?
    ensures TimersIn(cs[..k]) < |ds|
    ensures ListsTimedOut(EventsOf(p, T, cs[..k + 1]), ds[TimersIn(cs[..k])].timedOutSignals)
  {
    DiagnosticOfTimer(p, canTopic, T, [], [], cs, ds, k);
    var h := EventsOf(p, T, cs[..k + 1]);
    assert [] + h == h;
  }

  /** The names that the diagnostic of the k-th callback lists. */
  function ListAt(cs: seq<Callback>, ds: seq<Diagnostic>, k: nat): seq<Text>
    requires k <= |cs|
  {
    var n := TimersIn(cs[..k]);
    if n < |ds| then ds[n].timedOutSignals else []
  }

  /** The diagnostic of a timer callback lists exactly the names timed out after its check. */
  lemma {:induction false} ListedIffTimedOut(
      p: Pipeline, canTopic: Text, T: uint64, cs: seq<Callback>, ds: seq<Diagnostic>, h: seq<Event>,
      name: Text, k: nat, e: nat)
    requires h == EventsOf(p, T, cs) && Answered(p, canTopic, T, [], [], cs, ds)
    requires k < |cs| && cs[k].TimerFires? && e == |EventsOf(p, T, cs[..k])|
    ensures e < |h| && h[e] == Check(cs[k].now, T)
    ensures name in ListAt(cs, ds, k) <==> StatusAfter(h[..e + 1], name) == StatusTimeout
  {
    EventsOfPrefix(p, T, cs, k);
    EventsOfPrefix(p, T, cs, k + 1);
    NextOfPrefix(EventsOf(p, T, cs[..k]), Check(cs[k].now, T), h);
    TimedOutOfTimer(p, canTopic, T, cs, ds, k);
  }

  /**
   * With a monotone clock, each diagnostic sent after the last receipt of a signal, the
   * i-th call, lists it exactly if more than the timeout has passed since.
   */
  lemma {:induction false} StaleSignalsAreListed(
      p: Pipeline, canTopic: Text, T: uint64, cs: seq<Callback>, ds: seq<Diagnostic>, h: seq<Event>,
      name: Text, i: nat, k: nat)
    requires h == EventsOf(p, T, cs) && Answered(p, canTopic, T, [], [], cs, ds) && k < |cs| && cs[k].TimerFires?
    requires MonotoneClock(h) && LastReceipt(h, name, i)
    requires i < |EventsOf(p, T, cs[..k])|
    ensures name in ListAt(cs, ds, k) <==> cs[k].now > h[i].at + T
  {
    var e := |EventsOf(p, T, cs[..k])|;
    ListedIffTimedOut(p, canTopic, T, cs, ds, h, name, k, e);
    ChecksUseTimeout(p, T, cs);
    TimedOutAtCheckIff(h, name, i, e, T);
  }

  /**
   * If besides checks are at most P apart, one of them in [t, t + T] and a later one
   * beyond: some diagnostic lists the signal no later than t + T + P.
   */
  lemma {:induction false} StaleSignalsAreListedInTime(
      p: Pipeline, canTopic: Text, T: uint64, cs: seq<Callback>, ds: seq<Diagnostic>, h: seq<Event>,
      name: Text, i: nat, c: nat, e: nat, P: nat)
    returns (k: nat)
    requires h == EventsOf(p, T, cs) && Answered(p, canTopic, T, [], [], cs, ds)
    requires MonotoneClock(h) && RegularChecks(h, P)
    requires LastReceipt(h, name, i)
    requires c < |cs| && cs[c].TimerFires?
    requires h[i].at <= cs[c].now <= h[i].at + T
    requires e < |cs| && cs[e].TimerFires? && cs[e].now > h[i].at + T
    ensures k < |cs| && cs[k].TimerFires? && name in ListAt(cs, ds, k)
    ensures h[i].at + T < cs[k].now <= h[i].at + T + P
  {
    var m, n := |EventsOf(p, T, cs[..c])|, |EventsOf(p, T, cs[..e])|;
    ListedIffTimedOut(p, canTopic, T, cs, ds, h, name, c, m);
    ListedIffTimedOut(p, canTopic, T, cs, ds, h, name, e, n);
    ChecksUseTimeout(p, T, cs);
    var j := ReportInTime(h, name, i, m, n, T, P);
    k := CheckIsOfTimer(p, T, cs, j);
    StaleSignalsAreListed(p, canTopic, T, cs, ds, h, name, i, k);
  }
}
