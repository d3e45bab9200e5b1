/**
 * The per-signal timeout monitor: a map of signal states updated in place. Its
 * meaning is given by the history of calls alone; the class is proved to keep
 * its map in step with that history.
 */
module TimeoutMonitoring {
  import opened Common

  datatype Status = StatusOk | StatusTimeout | StatusInitial

  datatype SignalState = SignalState(lastSeenMs: uint64, status: Status)

  /** One call of a method that changes the monitor. */
  datatype Event =
    | Register(name: Text)
    | Receive(name: Text, at: uint64)
    | Check(now: uint64, timeout: uint64)

  // ---------- meaning of a history ----------

  predicate IsReceipt(e: Event, name: Text) {
    e.Receive? && e.name == name
  }

  predicate Mentions(e: Event, name: Text) {
    !e.Check? && e.name == name
  }

  /** The i-th event is the last receipt of the name. */
  ghost predicate LastReceipt(h: seq<Event>, name: Text, i: nat) {
    && i < |h| && IsReceipt(h[i], name)
    && forall j | i < j < |h| :: !IsReceipt(h[j], name)
  }

  ghost predicate EverReceived(h: seq<Event>, name: Text) {
    exists i | 0 <= i < |h| :: IsReceipt(h[i], name)
  }

  /** A check at which a signal last seen at time `at` counts as stale. */
  predicate Expires(e: Event, at: uint64) {
    e.Check? && e.now > at && e.now - at > e.timeout
  }

  /** Some check after the i-th event, a receipt, found its signal stale. */
  ghost predicate ExpiredSince(h: seq<Event>, i: nat)
    requires i < |h| && h[i].Receive?
  {
    exists j | i < j < |h| :: Expires(h[j], h[i].at)
  }

  /** Some check after the last receipt found the signal stale. */
  ghost predicate Expired(h: seq<Event>, name: Text) {
    exists i: nat :: LastReceipt(h, name, i) && ExpiredSince(h, i)
  }

  ghost function StatusAfter(h: seq<Event>, name: Text): Status {
    if !EverReceived(h, name) then StatusInitial
    else if Expired(h, name) then StatusTimeout
    else StatusOk
  }

  ghost predicate Known(h: seq<Event>, name: Text) {
    exists i | 0 <= i < |h| :: Mentions(h[i], name)
  }

  // ---------- one event more ----------

  lemma ReceivedHasLast(h: seq<Event>, name: Text) returns (i: nat)
    requires EverReceived(h, name)
    ensures LastReceipt(h, name, i)
  {
    if IsReceipt(h[|h| - 1], name) {
      i := |h| - 1;
    } else {
      i := ReceivedHasLast(h[..|h| - 1], name);
    }
  }

  /** An event other than a receipt of the name leaves its last receipt in place. */
  lemma LastReceiptKept(h: seq<Event>, e: Event, name: Text, i: nat)
    requires !IsReceipt(e, name)
    ensures LastReceipt(h, name, i) <==> LastReceipt(h + [e], name, i)
  {
    if LastReceipt(h, name, i) {
      forall j | i < j < |h + [e]| ensures !IsReceipt((h + [e])[j], name) {
        assert j < |h| ==> (h + [e])[j] == h[j];
      }
    }
    if LastReceipt(h + [e], name, i) {
      forall j | i < j < |h| ensures !IsReceipt(h[j], name) {
        assert (h + [e])[j] == h[j];
      }
    }
  }

  /** How one event changes the status, given the last receipt so far, if any. */
  lemma StatusStep(h: seq<Event>, e: Event, name: Text, i: nat)
    requires EverReceived(h, name) ==> LastReceipt(h, name, i)
    ensures StatusAfter(h + [e], name) ==
      if IsReceipt(e, name) then StatusOk
      else if StatusAfter(h, name) == StatusOk && Expires(e, h[i].at) then StatusTimeout
      else StatusAfter(h, name)
  {
    var h' := h + [e];
    assert h'[|h|] == e;
    if IsReceipt(e, name) {
      assert LastReceipt(h', name, |h|);
    } else if EverReceived(h, name) {
      LastReceiptKept(h, e, name, i);
      assert h'[i] == h[i] && IsReceipt(h'[i], name);
      assert ExpiredSince(h', i) <==> ExpiredSince(h, i) || Expires(e, h[i].at) by {
        assert forall j | i < j < |h| :: h'[j] == h[j];
      }
    } else {
      forall k | 0 <= k < |h'| ensures !IsReceipt(h'[k], name) {
        assert k < |h| ==> h'[k] == h[k];
      }
    }
  }

  lemma KnownStep(h: seq<Event>, e: Event, name: Text)
    ensures Known(h + [e], name) <==> Known(h, name) || Mentions(e, name)
  {
    var h' := h + [e];
    assert h'[|h|] == e;
    if Known(h, name) {
      var i :| 0 <= i < |h| && Mentions(h[i], name);
      assert h'[i] == h[i];
    }
  }

  // ---------- map entries ----------

  /** The entry of a name is what the history says. */
  ghost predicate Explains(h: seq<Event>, name: Text, entry: Option<SignalState>) {
    && (entry.Some? <==> Known(h, name))
    && (entry.Some? ==> entry.value.status == StatusAfter(h, name))
    && (EverReceived(h, name) ==>
          entry.Some? && exists i: nat :: LastReceipt(h, name, i) && h[i].at == entry.value.lastSeenMs)
  }

  /** What a check does to one state. */
  function Checked(s: SignalState, now: uint64, timeout: uint64): SignalState {
    if s.status == StatusOk && Expires(Check(now, timeout), s.lastSeenMs) then s.(status := StatusTimeout) else s
  }

  function StepEntry(entry: Option<SignalState>, e: Event, name: Text): Option<SignalState> {
    match e
    case Register(n) => if n == name && entry == None then Some(SignalState(0, StatusInitial)) else entry
    case Receive(n, at) => if n == name then Some(SignalState(at, StatusOk)) else entry
    case Check(now, timeout) => if entry.Some? then Some(Checked(entry.value, now, timeout)) else None
  }

  lemma ExplainsStep(h: seq<Event>, e: Event, name: Text, entry: Option<SignalState>)
    requires Explains(h, name, entry)
    ensures Explains(h + [e], name, StepEntry(entry, e, name))
  {
    KnownStep(h, e, name);
    var i: nat := 0;
    if EverReceived(h, name) {
      i :| LastReceipt(h, name, i) && h[i].at == entry.value.lastSeenMs;
    }
    StatusStep(h, e, name, i);
    assert (h + [e])[|h|] == e;
    if IsReceipt(e, name) {
      assert LastReceipt(h + [e], name, |h|);
    } else {
      LastReceiptKept(h, e, name, i);
      if EverReceived(h + [e], name) {
        var j :| 0 <= j < |h + [e]| && IsReceipt((h + [e])[j], name);
        assert h[j] == (h + [e])[j];
        assert (h + [e])[i] == h[i];
      }
    }
  }

  /** A list of exactly the names timed out, without repeats. */
  ghost predicate ListsTimedOut(h: seq<Event>, names: seq<Text>) {
    NoDuplicates(names) && forall n :: n in names <==> StatusAfter(h, n) == StatusTimeout
  }

  // ---------- the class ----------

  /** uint64 subtraction, which wraps. */
  function Sub64(x: uint64, y: uint64): uint64 {
    (x - y) % TWO_64
  }

  class TimeoutMonitor {
    var states: map<Text, SignalState>
    ghost var history: seq<Event>

    ghost predicate Valid()
      reads this
    {
      forall name :: Explains(history, name, Lookup(states, name))
    }

    constructor ()
      ensures Valid() && history == []
    {
      states := map[];
      history := [];
    }

    /** The map has followed one event, so the history may record it. */
    ghost method Record(e: Event, before: map<Text, SignalState>)
      requires forall n :: Explains(history, n, Lookup(before, n))
      requires forall n :: Lookup(states, n) == StepEntry(Lookup(before, n), e, n)
      modifies this`history
      ensures Valid() && history == old(history) + [e]
    {
      forall n ensures Explains(history + [e], n, Lookup(states, n)) {
        ExplainsStep(history, e, n, Lookup(before, n));
      }
      history := history + [e];
    }

    /** Inserts a fresh entry unless the name has one. */
    method RegisterSignal(name: Text)
      requires Valid()
      modifies this
      ensures Valid() && history == old(history) + [Register(name)]
    {
      ghost var before := states;
      if name !in states {
        states := states[name := SignalState(0, StatusInitial)];
      }
      Record(Register(name), before);
    }

    method SignalReceived(name: Text, now: uint64)
      requires Valid()
      modifies this
      ensures Valid() && history == old(history) + [Receive(name, now)]
    {
      ghost var before := states;
      if name !in states {
        states := states[name := SignalState(0, StatusInitial)];
      }
      states := states[name := states[name].(lastSeenMs := now)];
      states := states[name := states[name].(status := StatusOk)];
      Record(Receive(name, now), before);
    }

    method GetStatus(name: Text) returns (status: Status)
      requires Valid()
      ensures status == StatusAfter(history, name)
    {
      assert Explains(history, name, Lookup(states, name));
      assert EverReceived(history, name) ==> Known(history, name);
      if name !in states {
        return StatusInitial;
      }
      return states[name].status;
    }

    /**
     * Marks the signals that have become stale and returns their names, in the
     * order the map is traversed, which is unspecified.
     */
    method CheckTimeouts(now: uint64, timeout: uint64) returns (newly: seq<Text>)
      requires Valid()
      modifies this
      ensures Valid() && history == old(history) + [Check(now, timeout)]
      ensures forall n :: n in newly <==>
        StatusAfter(old(history), n) == StatusOk && StatusAfter(history, n) == StatusTimeout
      ensures NoDuplicates(newly)
    {
      ghost var before := states;
      newly := [];
      var todo := states.Keys;
      while todo != {}
        invariant todo <= states.Keys == before.Keys && history == old(history)
        invariant forall n | n in before ::
          states[n] == if n in todo then before[n] else Checked(before[n], now, timeout)
        invariant forall n :: n in newly <==>
          n in before.Keys - todo && before[n].status == StatusOk && states[n].status == StatusTimeout
        invariant NoDuplicates(newly)
        decreases todo
      {
        var name :| name in todo;
        todo := todo - {name};
        var state := states[name];
        if state.status == StatusInitial {
          continue;
        }
        if state.status == StatusOk && now > state.lastSeenMs && Sub64(now, state.lastSeenMs) > timeout {
          states := states[name := state.(status := StatusTimeout)];
          newly := newly + [name];
        }
      }
      Record(Check(now, timeout), before);
      forall n
        ensures n in newly <==>
          StatusAfter(old(history), n) == StatusOk && StatusAfter(history, n) == StatusTimeout
      {
        assert Explains(old(history), n, Lookup(before, n));
        assert Explains(history, n, Lookup(states, n));
      }
    }

    method TimedOutSignals() returns (result: seq<Text>)
      requires Valid()
      ensures forall n :: n in result <==> StatusAfter(history, n) == StatusTimeout
      ensures NoDuplicates(result)
    {
      result := [];
      var todo := states.Keys;
      while todo != {}
        invariant todo <= states.Keys
        invariant forall n :: n in result <==> n in states.Keys - todo && states[n].status == StatusTimeout
        invariant NoDuplicates(result)
        decreases todo
      {
        var name :| name in todo;
        todo := todo - {name};
        if states[name].status == StatusTimeout {
          result := result + [name];
        }
      }
      forall n ensures n in result <==> StatusAfter(history, n) == StatusTimeout {
        assert Explains(history, n, Lookup(states, n));
      }
    }
  }
}
