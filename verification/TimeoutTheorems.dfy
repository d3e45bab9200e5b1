/** What the timeout monitor guarantees over whole histories of calls. */
module TimeoutTheorems {
  import opened Common
  import opened TimeoutMonitoring

  // ---------- status of prefixes ----------

  lemma StatusOfPrefix(h: seq<Event>, name: Text, i: nat, k: nat)
    requires LastReceipt(h, name, i) && i < k <= |h|
    ensures LastReceipt(h[..k], name, i)
    ensures StatusAfter(h[..k], name) == if exists j | i < j < k :: Expires(h[j], h[i].at) then StatusTimeout else StatusOk
  {
    assert h[..k][i] == h[i];
    assert LastReceipt(h[..k], name, i);
    if exists j | i < j < k :: Expires(h[j], h[i].at) {
      var j :| i < j < k && Expires(h[j], h[i].at);
      assert h[..k][j] == h[j];
    }
  }

  /** The possible moves of a status: receipts reset it, checks can only expire it. */
  lemma StatusMove(h: seq<Event>, k: nat, name: Text)
    requires k < |h|
    ensures var s, s' := StatusAfter(h[..k], name), StatusAfter(h[..k + 1], name);
      if IsReceipt(h[k], name) then s' == StatusOk
      else s' == s || (s == StatusOk && s' == StatusTimeout && h[k].Check?)
  {
    assert h[..k + 1] == h[..k] + [h[k]];
    var i := 0;
    if EverReceived(h[..k], name) {
      i := ReceivedHasLast(h[..k], name);
    }
    StatusStep(h[..k], h[k], name, i);
  }

  // ---------- alternation of reports and receipts ----------

  /** The k-th call is a check that reports the name as newly timed out. */
  ghost predicate Reported(h: seq<Event>, k: nat, name: Text) {
    && k < |h| && h[k].Check?
    && StatusAfter(h[..k], name) == StatusOk && StatusAfter(h[..k + 1], name) == StatusTimeout
  }

  /** The k-th call is a receipt that ends a timeout of the name. */
  ghost predicate Recovered(h: seq<Event>, k: nat, name: Text) {
    k < |h| && IsReceipt(h[k], name) && StatusAfter(h[..k], name) == StatusTimeout
  }

  ghost function Reports(h: seq<Event>, name: Text, k: nat): nat
    requires k <= |h|
  {
    if k == 0 then 0 else Reports(h, name, k - 1) + if Reported(h, k - 1, name) then 1 else 0
  }

  ghost function Recoveries(h: seq<Event>, name: Text, k: nat): nat
    requires k <= |h|
  {
    if k == 0 then 0 else Recoveries(h, name, k - 1) + if Recovered(h, k - 1, name) then 1 else 0
  }

  ghost function Receipts(h: seq<Event>, name: Text, k: nat): nat
    requires k <= |h|
  {
    if k == 0 then 0 else Receipts(h, name, k - 1) + if IsReceipt(h[k - 1], name) then 1 else 0
  }

  /**
   * After any number of calls, the reports of a name exceed its recoveries by
   * one while it is timed out and equal them otherwise; and a signal is never
   * reported more often than it was received.
   */
  lemma {:induction false} ReportsBalance(h: seq<Event>, name: Text, k: nat)
    requires k <= |h|
    ensures Reports(h, name, k) == Recoveries(h, name, k) + if StatusAfter(h[..k], name) == StatusTimeout then 1 else 0
    ensures Reports(h, name, k) + (if StatusAfter(h[..k], name) == StatusOk then 1 else 0) <= Receipts(h, name, k)
  {
    if k == 0 {
      assert h[..0] == [];
    } else {
      ReportsBalance(h, name, k - 1);
      StatusMove(h, k - 1, name);
    }
  }

  /** Without a receipt a timeout lasts. */
  lemma TimeoutLasts(h: seq<Event>, name: Text, j: nat, k: nat)
    requires j <= k <= |h| && StatusAfter(h[..j], name) == StatusTimeout
    requires forall r | j <= r < k :: !IsReceipt(h[r], name)
    ensures StatusAfter(h[..k], name) == StatusTimeout
    decreases k
  {
    if j < k {
      TimeoutLasts(h, name, j, k - 1);
      StatusMove(h, k - 1, name);
    }
  }

  /** Two reports of the same name have a receipt of it between them. */
  lemma ReportsAreSeparated(h: seq<Event>, name: Text, j: nat, k: nat)
    requires j < k && Reported(h, j, name) && Reported(h, k, name)
    ensures exists r | j < r < k :: IsReceipt(h[r], name)
  {
    if forall r | j < r < k :: !IsReceipt(h[r], name) {
      TimeoutLasts(h, name, j + 1, k);
    }
  }

  // ---------- detection latency ----------

  /** The clock reading passed to a call, if it takes one. */
  function Time(e: Event): Option<uint64> {
    match e
    case Register(_) => None
    case Receive(_, at) => Some(at)
    case Check(now, _) => Some(now)
  }

  ghost predicate MonotoneClock(h: seq<Event>) {
    forall j, k | 0 <= j < k < |h| && Time(h[j]).Some? && Time(h[k]).Some? ::
      Time(h[j]).value <= Time(h[k]).value
  }

  /** Two checks without a check between them. */
  ghost predicate ConsecutiveChecks(h: seq<Event>, j: nat, k: nat) {
    j < k < |h| && h[j].Check? && h[k].Check? && forall m | j < m < k :: !h[m].Check?
  }

  /** All checks use timeout T. */
  ghost predicate ConstantTimeout(h: seq<Event>, T: uint64) {
    forall k | 0 <= k < |h| && h[k].Check? :: h[k].timeout == T
  }

  /** Consecutive checks are at most P apart. */
  ghost predicate RegularChecks(h: seq<Event>, P: nat) {
    forall j: nat, k: nat | ConsecutiveChecks(h, j, k) :: h[k].now - h[j].now <= P
  }

  lemma FirstCheckLaterThan(h: seq<Event>, bound: nat, e: nat) returns (k: nat)
    requires e < |h| && h[e].Check? && h[e].now > bound
    ensures k <= e && h[k].Check? && h[k].now > bound
    ensures forall j | 0 <= j < k && h[j].Check? :: h[j].now <= bound
  {
    k := 0;
    while !(h[k].Check? && h[k].now > bound)
      invariant k <= e
      invariant forall j | 0 <= j < k && h[j].Check? :: h[j].now <= bound
      decreases e - k
    {
      k := k + 1;
    }
  }

  lemma LastCheckBefore(h: seq<Event>, c: nat, k: nat) returns (p: nat)
    requires c < k <= |h| && h[c].Check?
    ensures c <= p < k && h[p].Check? && forall m | p < m < k :: !h[m].Check?
  {
    p := k - 1;
    while !h[p].Check?
      invariant c <= p < k && forall m | p < m < k :: !h[m].Check?
      decreases p
    {
      p := p - 1;
    }
  }

  /** A check while the signal is fresh leaves it so, and with it all checks before. */
  lemma FreshAtCheck(h: seq<Event>, name: Text, i: nat, m: nat, T: uint64)
    requires MonotoneClock(h) && ConstantTimeout(h, T)
    requires LastReceipt(h, name, i) && i < m < |h|
    requires h[m].Check? && h[m].now <= h[i].at + T
    ensures StatusAfter(h[..m + 1], name) == StatusOk
  {
    StatusOfPrefix(h, name, i, m + 1);
    forall j | i < j <= m ensures !Expires(h[j], h[i].at) {
      assert h[j].Check? ==> Time(h[j]).value == h[j].now && Time(h[m]).value == h[m].now;
    }
  }

  /** The first check later than t + T reports the signal. */
  lemma ReportedAtFirstLateCheck(h: seq<Event>, name: Text, i: nat, k: nat, T: uint64)
    requires ConstantTimeout(h, T)
    requires LastReceipt(h, name, i) && i < k < |h|
    requires h[k].Check? && h[k].now > h[i].at + T
    requires forall j | 0 <= j < k && h[j].Check? :: h[j].now <= h[i].at + T
    ensures Reported(h, k, name)
  {
    StatusOfPrefix(h, name, i, k);
    StatusOfPrefix(h, name, i, k + 1);
    assert Expires(h[k], h[i].at);
  }

  /** Once received for the last time, a signal is reported at most once. */
  lemma OneReportAfterLastReceipt(h: seq<Event>, name: Text, i: nat, j: nat, k: nat)
    requires LastReceipt(h, name, i) && i < j && i < k
    requires Reported(h, j, name) && Reported(h, k, name)
    ensures j == k
  {
    if j != k {
      ReportsAreSeparated(h, name, if j < k then j else k, if j < k then k else j);
    }
  }

  /**
   * A signal last received at time t, on a monotone clock with timeout T and
   * checks at most P apart, one of them in [t, t + T] and one (the e-th call)
   * later than t + T: it is reported, every report since the receipt comes later
   * than t + T and no later than t + T + P, and no check up to t + T leaves it
   * timed out.
   */
  lemma DetectionLatency(h: seq<Event>, name: Text, i: nat, c: nat, e: nat, T: uint64, P: nat)
    requires MonotoneClock(h) && ConstantTimeout(h, T) && RegularChecks(h, P)
    requires LastReceipt(h, name, i)
    requires c < |h| && h[c].Check? && h[i].at <= h[c].now <= h[i].at + T
    requires e < |h| && h[e].Check? && h[e].now > h[i].at + T
    ensures exists k | i < k <= e :: Reported(h, k, name)
    ensures forall k | i < k < |h| && Reported(h, k, name) :: h[i].at + T < h[k].now <= h[i].at + T + P
    ensures forall k | i < k < |h| && h[k].Check? && h[k].now <= h[i].at + T ::
      StatusAfter(h[..k + 1], name) == StatusOk
  {
    var t := h[i].at;
    var k := FirstCheckLaterThan(h, t + T, e);
    assert i < k by { assert Time(h[i]).value == t && Time(h[k]).value == h[k].now; }
    assert c < k by { assert Time(h[c]).value == h[c].now && Time(h[k]).value == h[k].now; }
    var p := LastCheckBefore(h, c, k);
    assert ConsecutiveChecks(h, p, k);
    ReportedAtFirstLateCheck(h, name, i, k, T);
    forall j | i < j < |h| && Reported(h, j, name) ensures j == k {
      OneReportAfterLastReceipt(h, name, i, j, k);
    }
    forall m | i < m < |h| && h[m].Check? && h[m].now <= t + T
      ensures StatusAfter(h[..m + 1], name) == StatusOk
    {
      FreshAtCheck(h, name, i, m, T);
    }
  }

  /** The report that detection latency speaks of. */
  lemma {:induction false} ReportInTime(h: seq<Event>, name: Text, i: nat, c: nat, e: nat, T: uint64, P: nat)
    returns (k: nat)
    requires MonotoneClock(h) && ConstantTimeout(h, T) && RegularChecks(h, P)
    requires LastReceipt(h, name, i)
    requires c < |h| && h[c].Check? && h[i].at <= h[c].now <= h[i].at + T
    requires e < |h| && h[e].Check? && h[e].now > h[i].at + T
    ensures i < k <= e && Reported(h, k, name) && h[i].at + T < h[k].now <= h[i].at + T + P
  {
    DetectionLatency(h, name, i, c, e, T, P);
    k :| i < k <= e && Reported(h, k, name);
  }

  /** On a monotone clock a check leaves a signal timed out exactly if more than the timeout has passed. */
  lemma {:induction false} TimedOutAtCheckIff(h: seq<Event>, name: Text, i: nat, e: nat, T: uint64)
    requires MonotoneClock(h) && ConstantTimeout(h, T)
    requires LastReceipt(h, name, i) && i < e < |h| && h[e].Check?
    ensures StatusAfter(h[..e + 1], name) == StatusTimeout <==> h[e].now > h[i].at + T
  {
    if h[e].now <= h[i].at + T {
      FreshAtCheck(h, name, i, e, T);
    } else {
      StatusOfPrefix(h, name, i, e + 1);
      assert Expires(h[e], h[i].at);
    }
  }
}
