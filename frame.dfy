/**
 * The outer frame of an inbound datagram, shared by both socket handlers
 * (UDP/UDPSocketHandler.cs and UDPSocketHandler.cs), whose envelope code is
 * the same:
 *   [STX][lenLo][lenHi][payload ...][ckLo][ckHi][ETX]
 * where len is the little-endian length of the whole datagram and ck the
 * XOR of the payload bytes.
 */
module Frame {
  import opened Bytes
  import opened Constants

  /** How ParseReceivedBuffer treats a datagram before looking at records. */
  datatype FrameClass =
    | Dropped                         // ignored without any state change
    | SliceFault                      // `buffer[3..^3]` throws (4- and 5-byte frames)
    | KeepAlive                       // the payload B0 0B
    | DataPayload(payload: seq<byte>) // a payload to parse for records

  const KEEP_ALIVE: seq<byte> := [0xB0, 0x0B]

  /**
   * What ParseData makes of a data payload: a batch handed on to the
   * worker, a batch thrown away at a bad escape or a null value, or an
   * index exception from reading past the payload end.
   */
  datatype ParseOutcome<R> = Published(records: seq<R>) | Discarded | Overrun

  /** The outcome of a payload that starts with the given records. */
  function Prepend<R>(records: seq<R>, rest: ParseOutcome<R>): ParseOutcome<R>
  {
    if rest.Published? then Published(records + rest.records) else rest
  }

  /**
   * The XOR of all bytes of s, folded from the left as the checksum loop
   * does. XOR-ing bytes never leaves eight bits, so the accumulator is a bv8.
   */
  function XorAll(s: seq<byte>): bv8
  {
    if |s| == 0 then 0 else XorAll(s[..|s| - 1]) ^ (s[|s| - 1] as bv8)
  }

  /** The checksum of a concatenation combines the two checksums. */
  lemma {:induction false} XorAllConcat(a: seq<byte>, b: seq<byte>)
    ensures XorAll(a + b) == XorAll(a) ^ XorAll(b)
  {
    if |b| == 0 {
      assert a + b == a;
    } else {
      var b' := b[..|b| - 1];
      assert (a + b)[..|a + b| - 1] == a + b';
      XorAllConcat(a, b');
    }
  }

  lemma ToBv8RoundTrip(x: int)
    requires 0 <= x < 256
    ensures (x as bv8) as int == x
  {
    assert x % 256 == x;
  }

  /** Distinct bytes give distinct bit patterns. */
  lemma ToBv8Injective(x: byte, y: byte)
    requires x != y
    ensures x as bv8 != y as bv8
  {
    ToBv8RoundTrip(x as int);
    ToBv8RoundTrip(y as int);
    assert x as bv8 == (x as int) as bv8;
    assert y as bv8 == (y as int) as bv8;
  }

  /**
   * Changing one payload byte always changes the XOR checksum, so a frame
   * with exactly one corrupted payload byte never passes the check.
   */
  lemma SingleByteChangeDetected(s: seq<byte>, i: nat, x: byte)
    requires i < |s| && x != s[i]
    ensures XorAll(s[i := x]) != XorAll(s)
  {
    var t := s[i := x];
    assert t[..i] == s[..i] && t[i + 1..] == s[i + 1..];
    ToBv8Injective(x, s[i]);
    DifferAt(s, t, i);
  }

  lemma DifferAt(s: seq<byte>, t: seq<byte>, i: nat)
    requires i < |s| == |t| && t[..i] == s[..i] && t[i + 1..] == s[i + 1..] && t[i] as bv8 != s[i] as bv8
    ensures XorAll(t) != XorAll(s)
  {
    XorAllSplit(s, i);
    XorAllSplit(t, i);
    BvXorChanges(XorAll(s[..i]), XorAll(s[i + 1..]), t[i] as bv8, s[i] as bv8);
  }

  /** The checksum around byte i. */
  lemma XorAllSplit(s: seq<byte>, i: nat)
    requires i < |s|
    ensures XorAll(s) == (XorAll(s[..i]) ^ s[i] as bv8) ^ XorAll(s[i + 1..])
  {
    XorAllThrough(s, i);
    XorAllUpTo(s, i);
  }

  lemma XorAllThrough(s: seq<byte>, i: nat)
    requires i < |s|
    ensures XorAll(s) == XorAll(s[..i + 1]) ^ XorAll(s[i + 1..])
  {
    assert s[..i + 1] + s[i + 1..] == s;
    XorAllConcat(s[..i + 1], s[i + 1..]);
  }

  lemma XorAllUpTo(s: seq<byte>, i: nat)
    requires i < |s|
    ensures XorAll(s[..i + 1]) == XorAll(s[..i]) ^ s[i] as bv8
  {
    var a := s[..i + 1];
    assert a[..|a| - 1] == s[..i];
  }

  lemma BvXorChanges(a: bv8, b: bv8, u: bv8, v: bv8)
    requires u != v
    ensures (a ^ u) ^ b != (a ^ v) ^ b
  {
  }

  /**
   * ParseReceivedBuffer's envelope checks, in their order: length above 2
   * and the two end markers; the declared length; the payload slice (which
   * throws below 6 bytes); the checksum; then keep-alive or data.
   */
  function Classify(buffer: seq<byte>): (r: FrameClass)
    ensures r != Dropped ==>
      |buffer| > 2 && buffer[0] == STX && buffer[|buffer| - 1] == ETX && ReadLE(buffer[1..3]) == |buffer|
    ensures r == SliceFault <==>
      (|buffer| > 2 && buffer[0] == STX && buffer[|buffer| - 1] == ETX && ReadLE(buffer[1..3]) == |buffer| && |buffer| < 6)
    ensures (r.KeepAlive? || r.DataPayload?) ==>
      |buffer| >= 6 && XorAll(buffer[3..|buffer| - 3]) as nat == ReadLE(buffer[|buffer| - 3..|buffer| - 1])
    ensures r.KeepAlive? ==> buffer[3..|buffer| - 3] == KEEP_ALIVE
    ensures r.DataPayload? ==> r.payload == buffer[3..|buffer| - 3] && r.payload != KEEP_ALIVE
  {
    if |buffer| <= 2 || buffer[0] != STX || buffer[|buffer| - 1] != ETX then Dropped
    else if ReadLE(buffer[1..3]) != |buffer| then Dropped
    else if |buffer| < 6 then SliceFault
    else
      var values := buffer[3..|buffer| - 3];
      if XorAll(values) as nat != ReadLE(buffer[|buffer| - 3..|buffer| - 1]) then Dropped
      else if values == KEEP_ALIVE then KeepAlive
      else DataPayload(values)
  }

  /** Reading two bytes: low plus 256 times high. */
  lemma ReadTwo(s: seq<byte>)
    requires |s| == 2
    ensures ReadLE(s) == s[0] as nat + 256 * s[1] as nat
  {
    var t := s[1..];
    assert t[0] == s[1] && t[1..] == [];
    assert ReadLE(t) == t[0] as nat + 256 * ReadLE(t[1..]);
  }

  /** The XOR checksum is below 256, so a nonzero high checksum byte always rejects. */
  lemma HighChecksumByteRejects(buffer: seq<byte>)
    requires |buffer| >= 6 && buffer[|buffer| - 2] != 0
    ensures Classify(buffer) == Dropped
  {
    ReadTwo(buffer[|buffer| - 3..|buffer| - 1]);
  }

  /** The frame the device sends around a payload. */
  function EncodeFrame(payload: seq<byte>): (f: seq<byte>)
    requires |payload| + 6 < 65536
    ensures |f| == |payload| + 6
  {
    assert Pow256(2) == 65536;
    [STX] + WriteLE(|payload| + 6, 2) + payload + [XorAll(payload) as byte, 0, ETX]
  }

  /** An encoded frame is accepted and gives back its payload. */
  lemma FrameRoundTrip(payload: seq<byte>)
    requires |payload| + 6 < 65536
    ensures Classify(EncodeFrame(payload)) == if payload == KEEP_ALIVE then KeepAlive else DataPayload(payload)
  {
    var f := EncodeFrame(payload);
    var n := |f|;
    assert Pow256(2) == 65536;
    ReadWriteLE(n, 2);
    assert f[1..3] == WriteLE(n, 2);
    assert f[3..n - 3] == payload;
    assert f[n - 3..n - 1] == [XorAll(payload) as byte, 0];
    ReadTwo(f[n - 3..n - 1]);
  }

  /** Every accepted frame is the encoding of its payload: nothing else gets through. */
  lemma AcceptedIsEncoded(buffer: seq<byte>)
    requires Classify(buffer).KeepAlive? || Classify(buffer).DataPayload?
    ensures |buffer| < 65536
    ensures buffer == EncodeFrame(buffer[3..|buffer| - 3])
  {
    var n := |buffer|;
    ReadTwo(buffer[1..3]);
    assert Pow256(2) == 65536;
    WriteReadLE(buffer[1..3]);
    ChecksumBytes(buffer[n - 3..n - 1], XorAll(buffer[3..n - 3]));
    Reassemble(buffer, XorAll(buffer[3..n - 3]) as byte);
  }

  /** A frame is its header, its payload and its trailer put back together. */
  lemma Reassemble(buffer: seq<byte>, ck: byte)
    requires |buffer| >= 6
    requires buffer[0] == STX && buffer[|buffer| - 1] == ETX
    requires buffer[|buffer| - 3] == ck && buffer[|buffer| - 2] == 0
    ensures buffer == [STX] + buffer[1..3] + buffer[3..|buffer| - 3] + [ck, 0, ETX]
  {
    var n := |buffer|;
    var r := [STX] + buffer[1..3] + buffer[3..n - 3] + [ck, 0, ETX];
    assert |r| == n;
    forall k | 0 <= k < n
      ensures r[k] == buffer[k]
    {
      if k == 0 {
      } else if k < 3 {
      } else if k < n - 3 {
      } else {
      }
    }
  }

  /** A two-byte checksum field equal to a bv8 value holds it in its low byte. */
  lemma ChecksumBytes(trailer: seq<byte>, c: bv8)
    requires |trailer| == 2 && c as nat == ReadLE(trailer)
    ensures trailer[1] == 0 && trailer[0] == c as byte
  {
    ReadTwo(trailer);
  }

  /** A frame cut short of its declared length is dropped. */
  lemma TruncatedDropped(payload: seq<byte>, k: nat)
    requires |payload| + 6 < 65536
    requires k < |payload| + 6
    ensures Classify(EncodeFrame(payload)[..k]) == Dropped
  {
    var f := EncodeFrame(payload);
    assert Pow256(2) == 65536;
    ReadWriteLE(|f|, 2);
    if k > 2 {
      assert f[..k][1..3] == f[1..3] == WriteLE(|f|, 2);
    }
  }

  /** A frame with one payload byte corrupted is dropped. */
  lemma CorruptedDropped(payload: seq<byte>, i: nat, x: byte)
    requires |payload| + 6 < 65536
    requires i < |payload| && x != payload[i]
    ensures Classify(EncodeFrame(payload)[3 + i := x]) == Dropped
  {
    var f := EncodeFrame(payload);
    var g := f[3 + i := x];
    var n := |f|;
    assert Pow256(2) == 65536;
    ReadWriteLE(n, 2);
    assert g[1..3] == f[1..3] == WriteLE(n, 2);
    assert g[3..n - 3] == payload[i := x];
    assert g[n - 3..n - 1] == [XorAll(payload) as byte, 0];
    ReadTwo(g[n - 3..n - 1]);
    SingleByteChangeDetected(payload, i, x);
  }

  /** An outbound command is the bare three bytes [STX, cmd, ETX]. */
  function CommandFrame(cmd: byte): (f: seq<byte>)
    ensures |f| == 3 && f[0] == STX && f[1] == cmd && f[2] == ETX
  {
    [STX, cmd, ETX]
  }

  /**
   * The checksum loop of ParseReceivedBuffer: a `foreach` XOR accumulator.
   * The accumulator is a C# int; starting at 0 and XOR-ing bytes it never
   * leaves the low eight bits, so it is kept as a bv8.
   */
  method Checksum(values: seq<byte>) returns (checksumCalc: bv8)
    ensures checksumCalc == XorAll(values)
  {
    checksumCalc := 0;
    for i := 0 to |values|
      invariant checksumCalc == XorAll(values[..i])
    {
      assert values[..i + 1][..i] == values[..i];
      checksumCalc := checksumCalc ^ (values[i] as bv8);
    }
    assert values[..|values|] == values;
  }

  /**
   * The envelope checks at the head of ParseReceivedBuffer, in the order the
   * handler makes them, with the checksum computed by the loop above.
   */
  method ClassifyFrame(buffer: seq<byte>) returns (c: FrameClass)
    ensures c == Classify(buffer)
  {
    if |buffer| <= 2 || buffer[0] != STX || buffer[|buffer| - 1] != ETX {
      return Dropped;
    }
    var totalPacketLen := ReadLE(buffer[1..3]);
    if totalPacketLen != |buffer| {
      return Dropped;
    }
    var checksumRecv := ReadLE(buffer[|buffer| - 3..|buffer| - 1]);
    if |buffer| < 6 {
      return SliceFault;
    }
    var valuesBuffer := buffer[3..|buffer| - 3];
    var checksumCalc := Checksum(valuesBuffer);
    if checksumRecv != checksumCalc as nat {
      return Dropped;
    }
    if |valuesBuffer| == 2 && valuesBuffer[0] == 0xB0 && valuesBuffer[1] == 0x0B {
      return KeepAlive;
    }
    return DataPayload(valuesBuffer);
  }
}
