/**
 * The CDR writer of the bag converter: a growable byte buffer whose writers
 * align to the current size, and the serializer of a SignalGroup built on it.
 */
module Cdr {
  import opened Common

  datatype Stamp = Stamp(sec: int32, nanosec: uint32)

  /** One sample; `value` is the IEEE-754 bit pattern of the float32. */
  datatype Signal = Signal(nameId: uint16, value: uint32)

  datatype SignalGroup = SignalGroup(stamp: Stamp, frameId: Text, domain: Text, signals: seq<Signal>)

  /** Encapsulation identifier CDR_LE followed by two option bytes. */
  const HEADER: Text := [0, 1, 0, 0]

  // ---------- the buffer contents after a write, as functions of the contents before ----------

  /** The least multiple of a that is not below n. */
  function RoundUp(n: nat, a: nat): nat
    requires a == 2 || a == 4
  {
    (n + a - 1) / a * a
  }

  function Zeros(n: nat): Text {
    seq(n, _ => 0)
  }

  function PadTo(d: Text, a: nat): Text
    requires a == 2 || a == 4
  {
    d + Zeros(RoundUp(|d|, a) - |d|)
  }

  function PutU16(d: Text, v: uint16): Text {
    PadTo(d, 2) + [v % 0x100, v / 0x100]
  }

  function PutU32(d: Text, v: uint32): Text {
    PadTo(d, 4) + [v % 0x100, v / 0x100 % 0x100, v / 0x1_0000 % 0x100, v / 0x100_0000]
  }

  /** Two's complement: the conversion of an int32 to uint32. */
  function ToUnsigned(v: int32): uint32 {
    if v >= 0 then v else v + TWO_32
  }

  function PutText(d: Text, s: Text): Text {
    PutU32(d, (|s| + 1) % TWO_32) + s + [0]
  }

  function PutSignal(d: Text, s: Signal): Text {
    PutU32(PutU16(d, s.nameId), s.value)
  }

  function PutSignals(d: Text, ss: seq<Signal>): Text
    decreases ss
  {
    if ss == [] then d else PutSignals(PutSignal(d, ss[0]), ss[1..])
  }

  function PutStamp(d: Text, t: Stamp): Text {
    PutU32(PutU32(d, ToUnsigned(t.sec)), t.nanosec)
  }

  function PutSequence(d: Text, ss: seq<Signal>): Text {
    PutSignals(PutU32(d, |ss| % TWO_32), ss)
  }

  function PutBody(d: Text, g: SignalGroup): Text {
    PutSequence(PutText(PutText(PutStamp(d, g.stamp), g.frameId), g.domain), g.signals)
  }

  /** The bytes of a group serialized into a buffer of its own. */
  function Encode(g: SignalGroup): Text {
    PutBody(HEADER, g)
  }

  // ---------- the buffer ----------

  class Buffer {
    var data: Text

    constructor ()
      ensures data == []
    {
      data := [];
    }

    /** Pads with zero bytes, the fewest that make the size a multiple of a. */
    method Align(a: nat)
      requires a > 0
      modifies this
      ensures |old(data)| <= |data| < |old(data)| + a && |data| % a == 0
      ensures data == old(data) + Zeros(|data| - |old(data)|)
      ensures a == 2 || a == 4 ==> data == PadTo(old(data), a)
    {
      var r := |data| % a;
      AlignedSize(|data|, a);
      if a == 2 || a == 4 {
        RoundUpBy(|data|, a);
      }
      if r != 0 {
        data := data + Zeros(a - r);
      }
      assert data == old(data) + Zeros(if r == 0 then 0 else a - r);
    }

    method WriteUint16(v: uint16)
      modifies this
      ensures data == PutU16(old(data), v)
    {
      Align(2);
      data := data + [v % 0x100];
      data := data + [v / 0x100 % 0x100];
    }

    method WriteInt32(v: int32)
      modifies this
      ensures data == PutU32(old(data), ToUnsigned(v))
    {
      WriteUint32(v % TWO_32);
    }

    method WriteUint32(v: uint32)
      modifies this
      ensures data == PutU32(old(data), v)
    {
      Align(4);
      data := data + [v % 0x100];
      data := data + [v / 0x100 % 0x100];
      data := data + [v / 0x1_0000 % 0x100];
      data := data + [v / 0x100_0000 % 0x100];
    }

    method WriteFloat32(bits: uint32)
      modifies this
      ensures data == PutU32(old(data), bits)
    {
      WriteUint32(bits);
    }

    method WriteString(s: Text)
      modifies this
      ensures data == PutText(old(data), s)
    {
      WriteUint32((|s| + 1) % TWO_32);
      data := data + s;
      data := data + [0];
    }
  }

  lemma ProductSign(d: int, a: nat)
    requires a > 0
    ensures d >= 1 ==> d * a >= a
    ensures d <= -1 ==> d * a + a <= 0
  {
    assert d >= 1 ==> (d - 1) * a >= 0;
    assert d <= -1 ==> (d + 1) * a <= 0;
  }

  lemma MultipleHasNoRemainder(q: int, a: nat)
    requires a > 0
    ensures q * a % a == 0
  {
    var x := q * a;
    var d := q - x / a;
    assert d * a == x % a;
    ProductSign(d, a);
  }

  /** Padding a remainder up to the alignment reaches the next multiple. */
  lemma AlignedSize(n: nat, a: nat)
    requires a > 0
    ensures (n + (a - n % a)) % a == 0
  {
    var q := n / a + 1;
    assert n + (a - n % a) == q * a;
    MultipleHasNoRemainder(q, a);
  }

  lemma RoundUpBy(n: nat, a: nat)
    requires a == 2 || a == 4
    ensures RoundUp(n, a) - n == if n % a == 0 then 0 else a - n % a
  {
    if a == 2 {
      RoundUpBy2(n);
    } else {
      RoundUpBy4(n);
    }
  }

  lemma RoundUpBy2(n: nat)
    ensures (n + 1) / 2 * 2 - n == if n % 2 == 0 then 0 else 2 - n % 2
  {
  }

  lemma RoundUpBy4(n: nat)
    ensures (n + 3) / 4 * 4 - n == if n % 4 == 0 then 0 else 4 - n % 4
  {
  }

  /** The loop over the signals of a group. */
  method SerializeSignals(ss: seq<Signal>, buf: Buffer)
    modifies buf
    ensures buf.data == PutSignals(old(buf.data), ss)
  {
    assert ss[0..] == ss;
    for i := 0 to |ss|
      invariant PutSignals(buf.data, ss[i..]) == PutSignals(old(buf.data), ss)
    {
      assert ss[i..][0] == ss[i] && ss[i..][1..] == ss[i + 1..];
      buf.WriteUint16(ss[i].nameId);
      buf.WriteFloat32(ss[i].value);
    }
  }

  /** Appends a whole encapsulated message to the buffer. */
  method SerializeSignalGroup(g: SignalGroup, buf: Buffer)
    modifies buf
    ensures buf.data == PutBody(old(buf.data) + HEADER, g)
    ensures old(buf.data) == [] ==> buf.data == Encode(g)
  {
    buf.data := buf.data + HEADER;
    assert old(buf.data) == [] ==> buf.data == HEADER;
    buf.WriteInt32(g.stamp.sec);
    buf.WriteUint32(g.stamp.nanosec);
    buf.WriteString(g.frameId);
    buf.WriteString(g.domain);
    buf.WriteUint32(|g.signals| % TWO_32);
    SerializeSignals(g.signals, buf);
  }
}
