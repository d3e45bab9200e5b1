/**
 * An independent CDR reader for SignalGroup, after section 9.3 of part 2 of
 * CORBA 3.3, and the proof that the writer of module Cdr is its exact inverse.
 * The reader works on the body behind the encapsulation header and aligns
 * relative to the start of that body, as the standard has it.
 */
module CdrReader {
  import opened Common
  import opened Cdr

  // ---------- what the 32-bit length fields can carry ----------

  predicate TextFits(s: Text) {
    |s| + 1 < TWO_32
  }

  predicate Fits(g: SignalGroup) {
    TextFits(g.frameId) && TextFits(g.domain) && |g.signals| < TWO_32
  }

  // ---------- the reader ----------

  lemma NextRemainder2(p: nat)
    ensures (p + 1) % 2 == if p % 2 == 1 then 0 else p % 2 + 1
  {
  }

  lemma NextRemainder4(p: nat)
    ensures (p + 1) % 4 == if p % 4 == 3 then 0 else p % 4 + 1
  {
  }

  lemma NextRemainder(p: nat, a: nat)
    requires a == 2 || a == 4
    ensures (p + 1) % a == if p % a == a - 1 then 0 else p % a + 1
  {
    if a == 2 {
      NextRemainder2(p);
    } else {
      NextRemainder4(p);
    }
  }

  /** The least offset from p on that is divisible by a, found by going there. */
  function Aligned(p: nat, a: nat): (q: nat)
    requires a == 2 || a == 4
    ensures p <= q && q % a == 0
    decreases if p % a == 0 then 0 else a - p % a
  {
    NextRemainder(p, a);
    if p % a == 0 then p else Aligned(p + 1, a)
  }

  // Every reader takes a body b and an offset p into it and returns the value
  // with the offset behind it, or None if b is too short or malformed. With
  // `strict` set, nonzero padding counts as malformed.

  function Skip(b: Text, p: nat, a: nat, strict: bool): Option<nat>
    requires a == 2 || a == 4
  {
    var q := Aligned(p, a);
    if q <= |b| && (strict ==> forall i | p <= i < q :: b[i] == 0) then Some(q) else None
  }

  function LittleEndian(bytes: Text): (v: nat)
    ensures |bytes| <= 0 ==> v < 1
    ensures |bytes| <= 1 ==> v < 0x100
    ensures |bytes| <= 2 ==> v < TWO_16
    ensures |bytes| <= 3 ==> v < 0x100_0000
    ensures |bytes| <= 4 ==> v < TWO_32
  {
    if bytes == [] then 0 else bytes[0] + 0x100 * LittleEndian(bytes[1..])
  }

  function ReadU16(b: Text, p: nat, strict: bool): Option<(uint16, nat)> {
    match Skip(b, p, 2, strict)
    case None => None
    case Some(q) => if q + 2 > |b| then None else Some((LittleEndian(b[q..q + 2]), q + 2))
  }

  function ReadU32(b: Text, p: nat, strict: bool): Option<(uint32, nat)> {
    match Skip(b, p, 4, strict)
    case None => None
    case Some(q) => if q + 4 > |b| then None else Some((LittleEndian(b[q..q + 4]), q + 4))
  }

  /** A string is its length with the terminator, its bytes, and a zero byte. */
  function ReadText(b: Text, p: nat, strict: bool): (r: Option<(Text, nat)>)
    ensures r.Some? ==> TextFits(r.value.0)
  {
    match ReadU32(b, p, strict)
    case None => None
    case Some((n, q)) =>
      if n == 0 || q + n > |b| || b[q + n - 1] != 0 then None
      else Some((b[q..q + n - 1], q + n))
  }

  function ReadStamp(b: Text, p: nat, strict: bool): Option<(Stamp, nat)> {
    match ReadU32(b, p, strict)
    case None => None
    case Some((sec, q)) =>
      match ReadU32(b, q, strict)
      case None => None
      case Some((nanosec, r)) => Some((Stamp(FromUnsigned(sec), nanosec), r))
  }

  function ReadSignal(b: Text, p: nat, strict: bool): Option<(Signal, nat)> {
    match ReadU16(b, p, strict)
    case None => None
    case Some((id, q)) =>
      match ReadU32(b, q, strict)
      case None => None
      case Some((bits, r)) => Some((Signal(id, bits), r))
  }

  function ReadSignals(b: Text, p: nat, count: nat, strict: bool): (r: Option<(seq<Signal>, nat)>)
    ensures r.Some? ==> |r.value.0| == count
    decreases count
  {
    if count == 0 then Some(([], p))
    else
      match ReadSignal(b, p, strict)
      case None => None
      case Some((s, q)) =>
        match ReadSignals(b, q, count - 1, strict)
        case None => None
        case Some((ss, r)) => Some(([s] + ss, r))
  }

  function ReadSequence(b: Text, p: nat, strict: bool): (r: Option<(seq<Signal>, nat)>)
    ensures r.Some? ==> |r.value.0| < TWO_32
  {
    match ReadU32(b, p, strict)
    case None => None
    case Some((count, q)) => ReadSignals(b, q, count, strict)
  }

  /** The last two members of a group: its domain and its signals. */
  function ReadContent(b: Text, p: nat, strict: bool): Option<((Text, seq<Signal>), nat)> {
    match ReadText(b, p, strict)
    case None => None
    case Some((domain, q)) =>
      match ReadSequence(b, q, strict)
      case None => None
      case Some((signals, n)) => Some(((domain, signals), n))
  }

  function ReadBody(b: Text, strict: bool): Option<(SignalGroup, nat)> {
    match ReadStamp(b, 0, strict)
    case None => None
    case Some((stamp, p)) =>
      match ReadText(b, p, strict)
      case None => None
      case Some((frameId, q)) =>
        match ReadContent(b, q, strict)
        case None => None
        case Some(((domain, signals), n)) => Some((SignalGroup(stamp, frameId, domain, signals), n))
  }

  /**
   * The encapsulation header: an identifier, big-endian whatever follows, that must be
   * 1 for CDR_LE, and two option bytes, which only a strict reader looks at.
   */
  predicate ReadHeader(w: Text, strict: bool) {
    && |w| >= 4 && 0x100 * (w[0] as int) + w[1] == 1
    && (strict ==> w[2] == 0 && w[3] == 0)
  }

  /** Reads an encapsulated group from the front of w; the offset counts the header. */
  function ReadGroup(w: Text, strict: bool): (r: Option<(SignalGroup, nat)>)
    ensures r.Some? ==> Fits(r.value.0)
  {
    if ReadHeader(w, strict) then
      match ReadBody(w[4..], strict)
      case None => None
      case Some((g, n)) => Some((g, 4 + n))
    else None
  }

  // ---------- the header does not disturb alignment ----------

  lemma PadBehindHeader(d: Text, a: nat)
    requires a == 2 || a == 4
    ensures PadTo(HEADER + d, a) == HEADER + PadTo(d, a)
  {
    assert RoundUp(|HEADER| + |d|, a) == |HEADER| + RoundUp(|d|, a);
  }

  lemma U16BehindHeader(d: Text, v: uint16)
    ensures PutU16(HEADER + d, v) == HEADER + PutU16(d, v)
  {
    PadBehindHeader(d, 2);
  }

  lemma U32BehindHeader(d: Text, v: uint32)
    ensures PutU32(HEADER + d, v) == HEADER + PutU32(d, v)
  {
    PadBehindHeader(d, 4);
  }

  lemma TextBehindHeader(d: Text, s: Text)
    ensures PutText(HEADER + d, s) == HEADER + PutText(d, s)
  {
    U32BehindHeader(d, (|s| + 1) % TWO_32);
  }

  lemma {:induction false} SignalsBehindHeader(d: Text, ss: seq<Signal>)
    ensures PutSignals(HEADER + d, ss) == HEADER + PutSignals(d, ss)
    decreases ss
  {
    if ss != [] {
      U16BehindHeader(d, ss[0].nameId);
      U32BehindHeader(PutU16(d, ss[0].nameId), ss[0].value);
      SignalsBehindHeader(PutSignal(d, ss[0]), ss[1..]);
    }
  }

  /**
   * Aligning to the buffer size, header included, is aligning relative to the
   * body: the header is four bytes long and no alignment exceeds four.
   */
  lemma {:induction false} BodyBehindHeader(g: SignalGroup)
    ensures Encode(g) == HEADER + PutBody([], g)
  {
    assert HEADER + [] == HEADER;
    var sec := PutU32([], ToUnsigned(g.stamp.sec));
    U32BehindHeader([], ToUnsigned(g.stamp.sec));
    U32BehindHeader(sec, g.stamp.nanosec);
    var stamped := PutStamp([], g.stamp);
    TextBehindHeader(stamped, g.frameId);
    var framed := PutText(stamped, g.frameId);
    TextBehindHeader(framed, g.domain);
    var domained := PutText(framed, g.domain);
    U32BehindHeader(domained, |g.signals| % TWO_32);
    SignalsBehindHeader(PutU32(domained, |g.signals| % TWO_32), g.signals);
  }

  // ---------- reader and writer agree value by value ----------

  /**
   * If the body b starts with e, the body so far extended by v, then reading r
   * found v and stopped where e ends; a strict reader finds v only then.
   */
  ghost predicate Agrees<T(!new)>(r: Option<(T, nat)>, v: T, e: Text, b: Text, strict: bool) {
    && (e <= b ==> r == Some((v, |e|)))
    && (strict && r.Some? && r.value.0 == v ==> e <= b)
  }

  /** What stands behind a prefix decides whether a longer text is a prefix. */
  lemma LongerPrefix(e: Text, x: Text, b: Text)
    requires e <= b
    ensures e + x <= b <==> |e| + |x| <= |b| && b[|e|..|e| + |x|] == x
  {
    if |e| + |x| <= |b| {
      assert b[..|e| + |x|] == e + b[|e|..|e| + |x|];
    }
  }

  lemma PrefixOfPrefix(d: Text, e: Text, b: Text)
    requires d <= e && e <= b
    ensures d <= b
  {
  }

  // Writes only append.

  lemma U32Extends(d: Text, v: uint32)
    ensures d <= PutU32(d, v)
  {
  }

  lemma TextExtends(d: Text, s: Text)
    ensures d <= PutU32(d, (|s| + 1) % TWO_32) <= PutText(d, s)
    ensures d <= PutText(d, s)
  {
    var e := PutU32(d, (|s| + 1) % TWO_32);
    U32Extends(d, (|s| + 1) % TWO_32);
    assert PutText(d, s) == e + (s + [0]);
  }

  lemma SignalExtends(d: Text, s: Signal)
    ensures d <= PutSignal(d, s)
  {
    U32Extends(PutU16(d, s.nameId), s.value);
  }

  lemma SignalsExtend(d: Text, ss: seq<Signal>)
    ensures d <= PutSignals(d, ss)
    decreases ss
  {
    if ss != [] {
      var e := PutSignal(d, ss[0]);
      SignalExtends(d, ss[0]);
      SignalsExtend(e, ss[1..]);
      PrefixOfPrefix(d, e, PutSignals(e, ss[1..]));
    }
  }

  lemma SequenceExtends(d: Text, ss: seq<Signal>)
    ensures d <= PutU32(d, |ss| % TWO_32) <= PutSequence(d, ss)
    ensures d <= PutSequence(d, ss)
  {
    var e := PutU32(d, |ss| % TWO_32);
    U32Extends(d, |ss| % TWO_32);
    SignalsExtend(e, ss);
    PrefixOfPrefix(d, e, PutSequence(d, ss));
  }

  lemma RoundUpStep(p: nat, a: nat)
    requires a == 2 || a == 4
    ensures RoundUp(p, a) == if p % a == 0 then p else RoundUp(p + 1, a)
  {
    RoundUpBy(p, a);
    RoundUpBy(p + 1, a);
    NextRemainder(p, a);
  }

  /** No offset before it is divisible. */
  lemma {:induction false} AlignedIsLeast(p: nat, a: nat, i: nat)
    requires (a == 2 || a == 4) && p <= i < Aligned(p, a)
    ensures i % a != 0
    decreases i - p
  {
    if p < i {
      AlignedIsLeast(p + 1, a, i);
    }
  }

  /** The reader's alignment is the writer's. */
  lemma {:induction false} AlignedIsRoundUp(p: nat, a: nat)
    requires a == 2 || a == 4
    ensures Aligned(p, a) == RoundUp(p, a)
    decreases Aligned(p, a) - p
  {
    RoundUpStep(p, a);
    if p % a != 0 {
      AlignedIsRoundUp(p + 1, a);
    }
  }

  lemma SkipAgrees(b: Text, d: Text, a: nat, strict: bool)
    requires d <= b && (a == 2 || a == 4)
    ensures var r := Skip(b, |d|, a, strict);
      && (PadTo(d, a) <= b ==> r == Some(|PadTo(d, a)|))
      && (strict && r.Some? ==> PadTo(d, a) <= b)
      && (r.Some? ==> r.value == |PadTo(d, a)|)
  {
    AlignedIsRoundUp(|d|, a);
    var q := RoundUp(|d|, a);
    LongerPrefix(d, Zeros(q - |d|), b);
    if PadTo(d, a) <= b {
      assert forall i | |d| <= i < q :: b[i] == b[|d|..q][i - |d|];
    }
  }

  lemma LowByte(v: nat, low: byte, high: nat)
    ensures v == low + 0x100 * high <==> v % 0x100 == low && v / 0x100 == high
  {
  }

  lemma LittleEndian16(v: uint16, x: Text)
    requires |x| == 2
    ensures LittleEndian(x) == v <==> x == [v % 0x100, v / 0x100]
  {
    LowByte(v, x[0], LittleEndian(x[1..]));
    assert LittleEndian(x[1..]) == x[1] + 0x100 * LittleEndian(x[1..][1..]);
  }

  lemma LittleEndian32(v: uint32, x: Text)
    requires |x| == 4
    ensures LittleEndian(x) == v <==>
      x == [v % 0x100, v / 0x100 % 0x100, v / 0x1_0000 % 0x100, v / 0x100_0000]
  {
    var high := LittleEndian(x[2..]);
    assert v / 0x100 / 0x100 == v / 0x1_0000 && v / 0x1_0000 / 0x100 == v / 0x100_0000;
    assert x == [x[0], x[1]] + x[2..];
    assert x[1..][1..] == x[2..];
    assert LittleEndian(x) == x[0] + 0x100 * LittleEndian(x[1..]);
    assert LittleEndian(x[1..]) == x[1] + 0x100 * high;
    LowByte(v, x[0], x[1] + 0x100 * high);
    LowByte(v / 0x100, x[1], high);
    LittleEndian16(v / 0x1_0000, x[2..]);
  }

  lemma U16Agrees(b: Text, d: Text, v: uint16, strict: bool)
    requires d <= b
    ensures d <= PutU16(d, v)
    ensures Agrees(ReadU16(b, |d|, strict), v, PutU16(d, v), b, strict)
  {
    SkipAgrees(b, d, 2, strict);
    var e := PadTo(d, 2);
    if e <= b {
      LongerPrefix(e, [v % 0x100, v / 0x100], b);
      if |e| + 2 <= |b| {
        LittleEndian16(v, b[|e|..|e| + 2]);
      }
    }
  }

  lemma U32Agrees(b: Text, d: Text, v: uint32, strict: bool)
    requires d <= b
    ensures d <= PutU32(d, v)
    ensures Agrees(ReadU32(b, |d|, strict), v, PutU32(d, v), b, strict)
  {
    SkipAgrees(b, d, 4, strict);
    var e := PadTo(d, 4);
    if e <= b {
      LongerPrefix(e, [v % 0x100, v / 0x100 % 0x100, v / 0x1_0000 % 0x100, v / 0x100_0000], b);
      if |e| + 4 <= |b| {
        LittleEndian32(v, b[|e|..|e| + 4]);
      }
    }
  }

  lemma Terminated(b: Text, p: nat, s: Text)
    requires p + |s| + 1 <= |b|
    ensures b[p..p + |s| + 1] == s + [0] <==> b[p..p + |s|] == s && b[p + |s|] == 0
  {
    var x := b[p..p + |s| + 1];
    assert x[..|s|] == b[p..p + |s|] && x[|s|] == b[p + |s|];
    assert x == x[..|s|] + [x[|s|]];
    assert (s + [0])[..|s|] == s;
  }

  lemma TextBehindLength(b: Text, p: nat, n: uint32, e: Text, s: Text, strict: bool)
    requires n == |s| + 1
    requires Agrees(ReadU32(b, p, strict), n, e, b, strict)
    ensures Agrees(ReadText(b, p, strict), s, e + s + [0], b, strict)
  {
    assert e + s + [0] == e + (s + [0]);
    if e <= b {
      LongerPrefix(e, s + [0], b);
      if |e| + |s| + 1 <= |b| {
        Terminated(b, |e|, s);
      }
    } else {
      assert e + s + [0] <= b ==> e <= b;
    }
  }

  lemma {:induction false} TextAgrees(b: Text, d: Text, s: Text, strict: bool)
    requires d <= b && TextFits(s)
    ensures Agrees(ReadText(b, |d|, strict), s, PutText(d, s), b, strict)
  {
    var n := (|s| + 1) % TWO_32;
    U32Agrees(b, d, n, strict);
    TextBehindLength(b, |d|, n, PutU32(d, n), s, strict);
  }

  lemma StampAgrees(b: Text, d: Text, t: Stamp, strict: bool)
    requires d <= b
    ensures d <= PutStamp(d, t)
    ensures Agrees(ReadStamp(b, |d|, strict), t, PutStamp(d, t), b, strict)
  {
    U32Agrees(b, d, ToUnsigned(t.sec), strict);
    var e := PutU32(d, ToUnsigned(t.sec));
    if e <= b {
      U32Agrees(b, e, t.nanosec, strict);
    }
  }

  lemma SignalAgrees(b: Text, d: Text, s: Signal, strict: bool)
    requires d <= b
    ensures d <= PutSignal(d, s)
    ensures Agrees(ReadSignal(b, |d|, strict), s, PutSignal(d, s), b, strict)
  {
    U16Agrees(b, d, s.nameId, strict);
    var e := PutU16(d, s.nameId);
    if e <= b {
      U32Agrees(b, e, s.value, strict);
    }
  }

  lemma {:induction false} SignalsAgree(b: Text, d: Text, ss: seq<Signal>, strict: bool)
    requires d <= b
    ensures Agrees(ReadSignals(b, |d|, |ss|, strict), ss, PutSignals(d, ss), b, strict)
    decreases ss
  {
    if ss != [] {
      SignalAgrees(b, d, ss[0], strict);
      var e := PutSignal(d, ss[0]);
      SignalsExtend(e, ss[1..]);
      assert ss == [ss[0]] + ss[1..];
      if e <= b {
        SignalsAgree(b, e, ss[1..], strict);
      }
    }
  }

  lemma SignalsBehindCount(b: Text, p: nat, n: uint32, e: Text, ss: seq<Signal>, strict: bool)
    requires n == |ss|
    requires Agrees(ReadU32(b, p, strict), n, e, b, strict)
    ensures Agrees(ReadSequence(b, p, strict), ss, PutSignals(e, ss), b, strict)
  {
    SignalsExtend(e, ss);
    if e <= b {
      SignalsAgree(b, e, ss, strict);
    } else if PutSignals(e, ss) <= b {
      PrefixOfPrefix(e, PutSignals(e, ss), b);
    }
  }

  lemma {:induction false} SequenceAgrees(b: Text, d: Text, ss: seq<Signal>, strict: bool)
    requires d <= b && |ss| < TWO_32
    ensures Agrees(ReadSequence(b, |d|, strict), ss, PutSequence(d, ss), b, strict)
  {
    var n := |ss| % TWO_32;
    U32Agrees(b, d, n, strict);
    SignalsBehindCount(b, |d|, n, PutU32(d, n), ss, strict);
  }

  /** The serialized body starts with each of its parts. */
  lemma BodyExtends(g: SignalGroup)
    ensures var framed := PutText(PutStamp([], g.stamp), g.frameId);
      PutStamp([], g.stamp) <= framed <= PutText(framed, g.domain) <= PutBody([], g)
  {
    var stamped := PutStamp([], g.stamp);
    var framed := PutText(stamped, g.frameId);
    var domained := PutText(framed, g.domain);
    TextExtends(stamped, g.frameId);
    TextExtends(framed, g.domain);
    SequenceExtends(domained, g.signals);
  }

  lemma {:induction false} ContentAgrees(b: Text, d: Text, domain: Text, ss: seq<Signal>, strict: bool)
    requires d <= b && TextFits(domain) && |ss| < TWO_32
    ensures Agrees(ReadContent(b, |d|, strict), (domain, ss), PutSequence(PutText(d, domain), ss), b, strict)
  {
    TextAgrees(b, d, domain, strict);
    var e := PutText(d, domain);
    SequenceExtends(e, ss);
    if e <= b {
      SequenceAgrees(b, e, ss, strict);
      var r := ReadSequence(b, |e|, strict);
      assert ReadContent(b, |d|, strict) ==
        match r case None => None case Some((signals, n)) => Some(((domain, signals), n));
    } else if PutSequence(e, ss) <= b {
      PrefixOfPrefix(e, PutSequence(e, ss), b);
    }
  }

  /** The three reads of a body, with the text written before each of them named. */
  lemma ThreeReads(b: Text, g: SignalGroup, stamped: Text, framed: Text, body: Text, strict: bool)
    requires stamped <= framed <= body
    requires Agrees(ReadStamp(b, 0, strict), g.stamp, stamped, b, strict)
    requires stamped <= b ==> Agrees(ReadText(b, |stamped|, strict), g.frameId, framed, b, strict)
    requires framed <= b ==> Agrees(ReadContent(b, |framed|, strict), (g.domain, g.signals), body, b, strict)
    ensures Agrees(ReadBody(b, strict), g, body, b, strict)
  {
    if body <= b {
      PrefixOfPrefix(framed, body, b);
      PrefixOfPrefix(stamped, framed, b);
    }
  }

  lemma {:induction false} BodyAgrees(b: Text, g: SignalGroup, strict: bool)
    requires Fits(g)
    ensures Agrees(ReadBody(b, strict), g, PutBody([], g), b, strict)
  {
    var stamped := PutStamp([], g.stamp);
    var framed := PutText(stamped, g.frameId);
    var body := PutBody([], g);
    BodyExtends(g);
    PrefixOfPrefix(framed, PutText(framed, g.domain), body);
    StampAgrees(b, [], g.stamp, strict);
    if stamped <= b {
      TextAgrees(b, stamped, g.frameId, strict);
    }
    if framed <= b {
      ContentAgrees(b, framed, g.domain, g.signals, strict);
    }
    ThreeReads(b, g, stamped, framed, body, strict);
  }

  // ---------- main results ----------

  /** The writer's header is accepted, and by a strict reader no other. */
  lemma HeaderAgrees(w: Text, strict: bool)
    ensures HEADER <= w ==> ReadHeader(w, strict)
    ensures strict && ReadHeader(w, strict) ==> HEADER <= w
  {
    if HEADER <= w {
      assert w[..4] == HEADER && w[0] == HEADER[0] && w[1] == HEADER[1] && w[2] == HEADER[2] && w[3] == HEADER[3];
    }
  }

  lemma BehindHeader(w: Text, body: Text)
    requires HEADER <= w
    ensures body <= w[4..] <==> HEADER + body <= w
  {
    LongerPrefix(HEADER, body, w);
  }

  /** A message that starts with a serialized group, seen through its body. */
  lemma {:induction false} GroupAgrees(w: Text, g: SignalGroup, strict: bool)
    requires Fits(g)
    ensures Agrees(ReadGroup(w, strict), g, Encode(g), w, strict)
  {
    BodyBehindHeader(g);
    HeaderAgrees(w, strict);
    var body := PutBody([], g);
    if ReadHeader(w, strict) {
      BodyAgrees(w[4..], g, strict);
      if HEADER <= w {
        BehindHeader(w, body);
      }
    }
    if Encode(g) <= w {
      PrefixOfPrefix(HEADER, Encode(g), w);
    }
  }

  /**
   * The strict reader finds g at the front of a message exactly when the message
   * starts with the serialization of g and the lengths of g fit 32 bits.
   */
  lemma {:induction false} StrictReaderInvertsWriter(w: Text, g: SignalGroup)
    ensures ReadGroup(w, true) == Some((g, |Encode(g)|)) <==> Fits(g) && Encode(g) <= w
    ensures ReadGroup(w, true).Some? && ReadGroup(w, true).value.0 == g ==>
      ReadGroup(w, true).value.1 == |Encode(g)|
  {
    if Fits(g) {
      GroupAgrees(w, g, true);
    }
  }

  /** Round trip, with its exact condition; whatever follows the message is left unread. */
  lemma {:induction false} RoundTrip(g: SignalGroup, tail: Text, strict: bool)
    ensures ReadGroup(Encode(g) + tail, strict) == Some((g, |Encode(g)|)) <==> Fits(g)
  {
    if Fits(g) {
      GroupAgrees(Encode(g) + tail, g, strict);
    }
  }

  /** Encodings are injective and prefix-free: a stream of messages splits in one way. */
  lemma {:induction false} EncodingsSplitUniquely(g: SignalGroup, t: Text, h: SignalGroup, u: Text)
    requires Fits(g) && Fits(h)
    requires Encode(g) + t == Encode(h) + u
    ensures g == h && t == u
  {
    RoundTrip(g, t, true);
    RoundTrip(h, u, true);
    assert (Encode(g) + t)[|Encode(g)|..] == t;
    assert (Encode(h) + u)[|Encode(h)|..] == u;
  }

  lemma {:induction false} ZeroLengthIsMalformed(b: Text, t: Stamp, strict: bool)
    requires PutU32(PutStamp([], t), 0) <= b
    ensures ReadBody(b, strict) == None
  {
    var stamped := PutStamp([], t);
    PrefixOfPrefix(stamped, PutU32(stamped, 0), b);
    StampAgrees(b, [], t, strict);
    U32Agrees(b, stamped, 0, strict);
    assert ReadText(b, |stamped|, strict) == None;
  }

  /** A frame id whose length field wraps to zero makes the message unreadable. */
  lemma {:induction false} WrappedLengthIsUnreadable(g: SignalGroup, tail: Text, strict: bool)
    requires |g.frameId| + 1 == TWO_32
    ensures ReadGroup(Encode(g) + tail, strict) == None
  {
    var body := PutBody([], g);
    BodyBehindHeader(g);
    BodyExtends(g);
    assert Encode(g) + tail == HEADER + (body + tail);
    var stamped := PutStamp([], g.stamp);
    TextExtends(stamped, g.frameId);
    PrefixOfPrefix(PutU32(stamped, 0), PutText(stamped, g.frameId), body);
    PrefixOfPrefix(PutU32(stamped, 0), body, body + tail);
    ZeroLengthIsMalformed(body + tail, g.stamp, strict);
  }

  // ---------- layout ----------

  /** An aligned 32-bit field, its bytes written out. */
  ghost predicate U32In(w: Text, p: nat, v: uint32) {
    && p % 4 == 0 && p + 4 <= |w|
    && (w[p] as int) + 0x100 * (w[p + 1] as int) + 0x1_0000 * (w[p + 2] as int) + 0x100_0000 * (w[p + 3] as int) == v
  }

  /** The bytes of s, at least one zero byte, and only zero bytes up to q. */
  ghost predicate TextIn(w: Text, p: nat, s: Text, q: nat) {
    && p + |s| < q <= |w| && w[p..p + |s|] == s
    && forall i | p + |s| <= i < q :: w[i] == 0
  }

  /** Eight bytes: the id, two zero bytes of padding, the value. */
  ghost predicate SignalIn(w: Text, p: nat, s: Signal) {
    && U32In(w, p, s.nameId)
    && U32In(w, p + 4, s.value)
  }

  ghost predicate SignalsIn(w: Text, p: nat, ss: seq<Signal>) {
    forall i | 0 <= i < |ss| :: SignalIn(w, p + 8 * i, ss[i])
  }

  /** A number is the sum of its bytes. */
  lemma BytesOf32(v: uint32)
    ensures v % 0x100 + 0x100 * (v / 0x100 % 0x100) + 0x1_0000 * (v / 0x1_0000 % 0x100) + 0x100_0000 * (v / 0x100_0000) == v
  {
    var x, y := v / 0x100, v / 0x1_0000;
    assert x / 0x100 == y && y / 0x100 == v / 0x100_0000;
    assert v == 0x100 * x + v % 0x100 && x == 0x100 * y + x % 0x100 && y == 0x100 * (y / 0x100) + y % 0x100;
  }

  lemma U32Layout(d: Text, v: uint32)
    ensures var p := RoundUp(|d|, 4);
      && |PutU32(d, v)| == p + 4 && U32In(PutU32(d, v), p, v)
      && d <= PutU32(d, v)
      && forall i | |d| <= i < p :: PutU32(d, v)[i] == 0
  {
    BytesOf32(v);
  }

  lemma {:induction false} AlignedRoundUp(n: nat)
    requires n % 4 == 0
    ensures RoundUp(n, 2) == n && RoundUp(n + 2, 4) == n + 4
  {
    var k := n / 4;
    assert n == 4 * k;
    assert (n + 1) / 2 == 2 * k && (n + 5) / 4 == k + 1;
  }

  lemma SignalLayout(d: Text, s: Signal)
    requires |d| % 4 == 0
    ensures |PutSignal(d, s)| == |d| + 8 && d <= PutSignal(d, s)
    ensures SignalIn(PutSignal(d, s), |d|, s)
  {
    AlignedRoundUp(|d|);
    var e := PutU16(d, s.nameId);
    assert e == d + [s.nameId % 0x100, s.nameId / 0x100];
    U32Layout(e, s.value);
    var w, n := PutSignal(d, s), |d|;
    assert w[n] == s.nameId % 0x100 && w[n + 1] == s.nameId / 0x100 && w[n + 2] == 0 && w[n + 3] == 0;
  }

  lemma SignalPersists(e: Text, w: Text, p: nat, s: Signal)
    requires e <= w && SignalIn(e, p, s)
    ensures SignalIn(w, p, s)
  {
    U32Persists(e, w, p, s.nameId);
    U32Persists(e, w, p + 4, s.value);
  }

  lemma {:induction false} SignalsInFront(w: Text, p: nat, ss: seq<Signal>)
    requires ss != [] && SignalIn(w, p, ss[0]) && SignalsIn(w, p + 8, ss[1..])
    ensures SignalsIn(w, p, ss)
  {
    forall i | 0 <= i < |ss| ensures SignalIn(w, p + 8 * i, ss[i]) {
      if i > 0 {
        assert ss[1..][i - 1] == ss[i] && p + 8 + 8 * (i - 1) == p + 8 * i;
      }
    }
  }

  lemma {:induction false} SignalsLayout(d: Text, ss: seq<Signal>)
    requires |d| % 4 == 0
    ensures |PutSignals(d, ss)| == |d| + 8 * |ss| && d <= PutSignals(d, ss)
    ensures SignalsIn(PutSignals(d, ss), |d|, ss)
    decreases ss
  {
    if ss != [] {
      var e, w := PutSignal(d, ss[0]), PutSignals(d, ss);
      SignalLayout(d, ss[0]);
      SignalsLayout(e, ss[1..]);
      SignalPersists(e, w, |d|, ss[0]);
      SignalsInFront(w, |d|, ss);
    }
  }

  /** A string followed by a 32-bit field. */
  lemma {:induction false} TextLayout(d: Text, s: Text, v: uint32, e: Text, p: nat, q: nat)
    requires e == PutU32(PutText(d, s), v)
    requires p == RoundUp(|d|, 4) && q == RoundUp(p + 5 + |s|, 4)
    ensures |e| == q + 4 && U32In(e, q, v) && PutText(d, s) <= e
    ensures U32In(e, p, (|s| + 1) % TWO_32) && TextIn(e, p + 4, s, q)
  {
    var n := (|s| + 1) % TWO_32;
    var counted := PutU32(d, n);
    var t := PutText(d, s);
    U32Layout(d, n);
    U32Layout(t, v);
    TextExtends(d, s);
    PrefixOfPrefix(counted, t, e);
    U32Persists(counted, e, p, n);
    assert t[p + 4..p + 4 + |s|] == s;
    assert TextIn(t, p + 4, s, |t|);
    TextPersists(t, e, p + 4, s, |t|);
  }

  lemma U32Persists(e: Text, w: Text, p: nat, v: uint32)
    requires e <= w && U32In(e, p, v)
    ensures U32In(w, p, v)
  {
    assert w[p] == e[p] && w[p + 1] == e[p + 1] && w[p + 2] == e[p + 2] && w[p + 3] == e[p + 3];
  }

  lemma TextPersists(e: Text, w: Text, p: nat, s: Text, q: nat)
    requires e <= w && TextIn(e, p, s, q)
    ensures TextIn(w, p, s, q)
  {
    assert w[p..p + |s|] == e[p..p + |s|];
  }

  /** The identifier of CDR_LE and two zero bytes. */
  ghost predicate HeaderIn(w: Text) {
    |w| >= 4 && w[0] == 0 && w[1] == 1 && w[2] == 0 && w[3] == 0
  }

  /** The fields up to the length of the domain, which starts at offset a. */
  ghost predicate HeadIn(w: Text, g: SignalGroup, a: nat) {
    && HeaderIn(w)
    && U32In(w, 4, if g.stamp.sec >= 0 then g.stamp.sec else g.stamp.sec + 0x1_0000_0000) && U32In(w, 8, g.stamp.nanosec)
    && U32In(w, 12, (|g.frameId| + 1) % TWO_32) && TextIn(w, 16, g.frameId, a)
    && U32In(w, a, (|g.domain| + 1) % TWO_32)
  }

  lemma HeadPersists(e: Text, w: Text, g: SignalGroup, a: nat)
    requires e <= w && HeadIn(e, g, a)
    ensures HeadIn(w, g, a)
  {
    U32Persists(e, w, 4, ToUnsigned(g.stamp.sec));
    U32Persists(e, w, 8, g.stamp.nanosec);
    U32Persists(e, w, 12, (|g.frameId| + 1) % TWO_32);
    TextPersists(e, w, 16, g.frameId, a);
    U32Persists(e, w, a, (|g.domain| + 1) % TWO_32);
  }

  lemma StampLayout(t: Stamp)
    ensures var w := PutStamp(HEADER, t);
      |w| == 12 && HEADER <= w && U32In(w, 4, ToUnsigned(t.sec)) && U32In(w, 8, t.nanosec)
  {
    var sec := PutU32(HEADER, ToUnsigned(t.sec));
    U32Layout(HEADER, ToUnsigned(t.sec));
    U32Layout(sec, t.nanosec);
    U32Persists(sec, PutStamp(HEADER, t), 4, ToUnsigned(t.sec));
  }

  lemma {:induction false} HeadLayout(g: SignalGroup, framed: Text, a: nat)
    requires framed == PutText(PutStamp(HEADER, g.stamp), g.frameId)
    requires a == RoundUp(17 + |g.frameId|, 4)
    ensures RoundUp(|framed|, 4) == a
    ensures HeadIn(PutU32(framed, (|g.domain| + 1) % TWO_32), g, a)
  {
    var stamped := PutStamp(HEADER, g.stamp);
    var n := (|g.domain| + 1) % TWO_32;
    var w := PutU32(framed, n);
    StampLayout(g.stamp);
    TextLayout(stamped, g.frameId, n, w, 12, a);
    TextExtends(stamped, g.frameId);
    PrefixOfPrefix(stamped, framed, w);
    PrefixOfPrefix(HEADER, stamped, w);
    U32Persists(stamped, w, 4, ToUnsigned(g.stamp.sec));
    U32Persists(stamped, w, 8, g.stamp.nanosec);
  }

  /** All fields up to the signal count, which starts at offset b. */
  ghost predicate FieldsIn(w: Text, g: SignalGroup, a: nat, b: nat) {
    HeadIn(w, g, a) && TextIn(w, a + 4, g.domain, b) && U32In(w, b, |g.signals| % TWO_32)
  }

  lemma FieldsPersist(e: Text, w: Text, g: SignalGroup, a: nat, b: nat)
    requires e <= w && FieldsIn(e, g, a, b)
    ensures FieldsIn(w, g, a, b)
  {
    HeadPersists(e, w, g, a);
    TextPersists(e, w, a + 4, g.domain, b);
    U32Persists(e, w, b, |g.signals| % TWO_32);
  }

  lemma {:induction false} FieldsLayout(g: SignalGroup, framed: Text, w: Text, a: nat, b: nat)
    requires framed == PutText(PutStamp(HEADER, g.stamp), g.frameId)
    requires w == PutU32(PutText(framed, g.domain), |g.signals| % TWO_32)
    requires a == RoundUp(17 + |g.frameId|, 4) && b == RoundUp(a + 5 + |g.domain|, 4)
    ensures |w| == b + 4 && FieldsIn(w, g, a, b)
  {
    var n := (|g.domain| + 1) % TWO_32;
    HeadLayout(g, framed, a);
    TextLayout(framed, g.domain, |g.signals| % TWO_32, w, a, b);
    TextExtends(framed, g.domain);
    PrefixOfPrefix(PutU32(framed, n), PutText(framed, g.domain), w);
    HeadPersists(PutU32(framed, n), w, g, a);
  }

  /**
   * Where every field of a serialized group lies: each number at its natural
   * alignment, all padding zero, and the length in closed form.
   */
  lemma {:induction false} Layout(g: SignalGroup, w: Text, a: nat, b: nat)
    requires w == Encode(g)
    requires a == (17 + |g.frameId| + 3) / 4 * 4 && b == (a + 5 + |g.domain| + 3) / 4 * 4
    ensures |w| == b + 4 + 8 * |g.signals|
    ensures FieldsIn(w, g, a, b)
    ensures SignalsIn(w, b + 4, g.signals)
  {
    var framed := PutText(PutStamp(HEADER, g.stamp), g.frameId);
    var counted := PutU32(PutText(framed, g.domain), |g.signals| % TWO_32);
    FieldsLayout(g, framed, counted, a, b);
    SignalsBehindFields(g, counted, w, a, b);
  }

  lemma {:induction false} SignalsBehindFields(g: SignalGroup, counted: Text, w: Text, a: nat, b: nat)
    requires w == PutSignals(counted, g.signals)
    requires |counted| == b + 4 && FieldsIn(counted, g, a, b)
    ensures |w| == b + 4 + 8 * |g.signals|
    ensures FieldsIn(w, g, a, b)
    ensures SignalsIn(w, b + 4, g.signals)
  {
    SignalsLayout(counted, g.signals);
    FieldsPersist(counted, w, g, a, b);
  }
}
