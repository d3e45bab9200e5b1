/** Message stamps, their nanoseconds, and what becomes of a stamp in an rclcpp::Time. */
module Stamps {
  import opened Common
  import opened Cdr

  const NS_PER_SEC: int := 1_000_000_000

  /** The nanoseconds of a stamp, in the 64-bit arithmetic of bag times and of rclcpp::Time. */
  function TimeOf(s: Stamp): int64 {
    s.sec * NS_PER_SEC + s.nanosec
  }

  lemma TimeIs(s: Stamp)
    ensures TimeOf(s) == s.sec * 1_000_000_000 + s.nanosec
  {
  }

  predicate Proper(s: Stamp) {
    s.sec >= 0 && s.nanosec < NS_PER_SEC
  }

  predicate Before(s: Stamp, t: Stamp) {
    s.sec < t.sec || (s.sec == t.sec && s.nanosec < t.nanosec)
  }

  // ---------- bag times ----------

  /** Stamps with proper nanoseconds keep their order as bag times, and only equal ones coincide. */
  lemma TimesKeepOrder(s: Stamp, t: Stamp)
    requires s.nanosec < 1_000_000_000 && t.nanosec < 1_000_000_000
    ensures TimeOf(s) < TimeOf(t) <==> Before(s, t)
    ensures TimeOf(s) == TimeOf(t) <==> s == t
  {
  }

  /** With excess nanoseconds different stamps can share a bag time. */
  lemma ImproperStampsCollide()
    ensures TimeOf(Stamp(0, NS_PER_SEC)) == TimeOf(Stamp(1, 0)) && Stamp(0, NS_PER_SEC) != Stamp(1, 0)
  {
  }

  ghost predicate TimesTellApart(n: nat) {
    forall s: Stamp, t: Stamp | s.nanosec < n && t.nanosec < n && TimeOf(s) == TimeOf(t) :: s == t
  }

  ghost predicate TimesAreOrdered(n: nat) {
    forall s: Stamp, t: Stamp | s.nanosec < n && t.nanosec < n :: TimeOf(s) < TimeOf(t) <==> Before(s, t)
  }

  /** One second is the largest bound on nanoseconds below which bag times order stamps or tell them apart. */
  lemma TimesTellApartIff(n: nat)
    ensures TimesTellApart(n) <==> n <= 1_000_000_000
    ensures TimesAreOrdered(n) <==> n <= 1_000_000_000
  {
    if n <= NS_PER_SEC {
      forall s: Stamp, t: Stamp | s.nanosec < n && t.nanosec < n
        ensures (TimeOf(s) < TimeOf(t) <==> Before(s, t)) && (TimeOf(s) == TimeOf(t) <==> s == t)
      {
        TimesKeepOrder(s, t);
      }
    } else {
      var s, t := Stamp(0, NS_PER_SEC), Stamp(1, 0);
      assert TimeOf(s) == TimeOf(t) && Before(s, t) && s.nanosec < n && t.nanosec < n;
    }
  }

  // ---------- the trip through rclcpp::Time ----------

  /** The nanoseconds of an rclcpp::Time that was made from a message. */
  type TimePoint = t: int64 | 0 <= t

  /** rclcpp::Time from a message: it throws for negative seconds. */
  function FromMessage(s: Stamp): Option<TimePoint> {
    if s.sec < 0 then None else Some(TimeOf(s))
  }

  /** The message of an rclcpp::Time; the seconds are cast to 32 bits. */
  function ToMessage(t: TimePoint): Stamp {
    Stamp(FromUnsigned(t / NS_PER_SEC % TWO_32), t % NS_PER_SEC)
  }

  /** The stamp the node gives to what it makes of a frame, or None if it throws. */
  function NodeStamp(s: Stamp): Option<Stamp> {
    match FromMessage(s)
    case None => None
    case Some(t) => Some(ToMessage(t))
  }

  /** The node passes a stamp on unchanged exactly if the stamp is proper. */
  lemma NodeStampKeepsIff(s: Stamp)
    ensures NodeStamp(s) == Some(s) <==> Proper(s)
    ensures Proper(s) <==> s.sec >= 0 && s.nanosec < 1_000_000_000
    ensures NodeStamp(s) == None <==> s.sec < 0
  {
    if Proper(s) {
      assert TimeOf(s) / NS_PER_SEC == s.sec && TimeOf(s) % NS_PER_SEC == s.nanosec;
    }
  }

  /** Excess nanoseconds are carried into the seconds; the moment stays the same while these fit. */
  lemma NodeStampCarries(s: Stamp)
    requires s.sec >= 0
    ensures var carried := NodeStamp(s).value;
      && carried.nanosec == s.nanosec % 1_000_000_000
      && (s.sec + s.nanosec / 1_000_000_000 < 0x8000_0000 ==>
            carried.sec == s.sec + s.nanosec / 1_000_000_000)
      && (s.sec + s.nanosec / 1_000_000_000 < 0x8000_0000 <==> TimeOf(carried) == TimeOf(s))
  {
    assert TimeOf(s) / NS_PER_SEC == s.sec + s.nanosec / NS_PER_SEC;
    assert TimeOf(s) % NS_PER_SEC == s.nanosec % NS_PER_SEC;
  }

  /** The two ways in which a stamp does not get through. */
  lemma ImproperStampsChange()
    ensures NodeStamp(Stamp(0, NS_PER_SEC)) == Some(Stamp(1, 0))
    ensures NodeStamp(Stamp(-1, 0)) == None
  {
  }
}
