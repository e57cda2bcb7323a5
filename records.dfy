/**
 * The records of a data payload: UDPReceivedData (UDP/UDPReceivedData.cs)
 * and the grammar ParseData reads (UDP/UDPSocketHandler.cs). A payload is a
 * run of records, each
 *   [nameLen][name ...][DNE][flags][typeId][valueLen][value ...][DVE]
 * and the batch is handed on only when every record is well formed and the
 * last one ends exactly at the payload end.
 */
module Records {
  import opened Bytes
  import opened Constants
  import opened Frame
  import TC = TypeConverter
  import Utils

  datatype Flags = Flags(forceInsert: bool)

  datatype ReceivedData = ReceivedData(name: string, flags: Flags, dataIdentifier: byte, data: TC.FieldValue)

  /** Reading the record at the start of a payload suffix. */
  datatype RecordRead = Read(rec: ReceivedData, next: nat) | Broken | Overran

  /**
   * One pass of ParseData's loop body, at the start of s. Any read past the
   * end of s (a byte index or a slice end) is an overrun, and it is checked
   * in the order the body reads: name length, name, name escape, flags,
   * identifier, value length, value, value escape, conversion. A wrong escape
   * or a null conversion breaks the loop.
   */
  function RecordAt(s: seq<byte>): (r: RecordRead)
    ensures |s| == 0 ==> r == Overran
    ensures r.Read? ==> 6 <= r.next <= |s| && 4 + s[0] as nat < |s|
    ensures r.Read? ==> s[1 + s[0] as nat] == DNE && s[r.next - 1] == DVE
    ensures r.Read? ==> |r.rec.name| == s[0] as nat && r.rec.dataIdentifier == s[3 + s[0] as nat]
  {
    if |s| == 0 then Overran
    else
      var nameEnd := 1 + s[0] as nat;
      if nameEnd >= |s| then Overran
      else if s[nameEnd] != DNE then Broken
      else FieldsAt(s, nameEnd)
  }

  /** The part of RecordAt after the name escape at nameEnd. */
  function FieldsAt(s: seq<byte>, nameEnd: nat): (r: RecordRead)
    requires 0 < nameEnd < |s|
    ensures r.Read? ==> nameEnd + 5 <= r.next <= |s| && nameEnd + 3 < |s| && s[r.next - 1] == DVE
    ensures r.Read? ==> |r.rec.name| == nameEnd - 1 && r.rec.dataIdentifier == s[nameEnd + 2]
  {
    if nameEnd + 3 >= |s| then Overran
    else
      var valueStart := nameEnd + 4;
      var valueEnd := valueStart + s[nameEnd + 3] as nat;
      if valueEnd >= |s| then Overran
      else
        match TC.Convert(s[nameEnd + 2], s[valueStart..valueEnd])
        case IndexOverrun => Overran
        case Null => Broken
        case Value(v) =>
          if s[valueEnd] != DVE then Broken
          else
            TC.Latin1Chars(s[1..nameEnd]);
            Read(ReceivedData(TC.Latin1(s[1..nameEnd]), Flags(Utils.GetBit(s[nameEnd + 1], 0)), s[nameEnd + 2], v),
                 valueEnd + 1)
  }

  /**
   * ParseData as a function of the payload: records follow each other until
   * one ends exactly at the payload end. An empty payload overruns at once.
   */
  function Decode(s: seq<byte>): (r: ParseOutcome<ReceivedData>)
    decreases |s|
    ensures |s| == 0 ==> r == Overrun
    ensures r.Published? ==> 1 <= |r.records| && 6 * |r.records| <= |s|
  {
    match RecordAt(s)
    case Overran => Overrun
    case Broken => Discarded
    case Read(rec, next) =>
      if next >= |s| then Published([rec]) else Prepend([rec], Decode(s[next..]))
  }

  /** The flag ForceInsert is bit 0 of the flags byte, that is, the flags byte is odd. */
  lemma ForceInsertIsLowBit(s: seq<byte>)
    requires RecordAt(s).Read?
    ensures RecordAt(s).rec.flags.forceInsert <==> s[2 + s[0] as nat] as int % 2 == 1
  {
    Utils.GetBitZeroIsOdd(s[2 + s[0] as nat]);
  }

  /** The Read case of RecordAt, with the byte positions written out. */
  lemma RecordAtRead(s: seq<byte>, v: TC.FieldValue)
    requires |s| > 0 && 4 + s[0] as nat < |s|
    requires 5 + s[0] as nat + s[4 + s[0] as nat] as nat < |s|
    requires s[1 + s[0] as nat] == DNE
    requires s[5 + s[0] as nat + s[4 + s[0] as nat] as nat] == DVE
    requires TC.Convert(s[3 + s[0] as nat], s[5 + s[0] as nat..5 + s[0] as nat + s[4 + s[0] as nat] as nat]) == TC.Value(v)
    ensures RecordAt(s) == Read(ReceivedData(TC.Latin1(s[1..1 + s[0] as nat]), Flags(Utils.GetBit(s[2 + s[0] as nat], 0)), s[3 + s[0] as nat], v),
                                6 + s[0] as nat + s[4 + s[0] as nat] as nat)
  {
  }

  /**
   * ParseData: the cursor loop of the source, returning instead of throwing.
   * Each pass reads one record (ReadRecord) and stops at an overrun, at a
   * broken record, or when the record ends at or beyond the payload end.
   */
  method ParseData(buffer: seq<byte>) returns (r: ParseOutcome<ReceivedData>)
    ensures r == Decode(buffer)
  {
    var dataList: seq<ReceivedData> := [];
    var offset: nat := 0;
    while true
      invariant offset <= |buffer|
      invariant Decode(buffer) == Prepend(dataList, Decode(buffer[offset..]))
      decreases |buffer| - offset
    {
      var rest := buffer[offset..];
      ghost var before := dataList;
      var read := ReadRecord(rest);
      if read.Overran? {
        return Overrun;
      }
      if read.Broken? {
        return Discarded;
      }
      dataList := dataList + [read.rec];
      offset := offset + read.next;
      if offset >= |buffer| {
        return Published(dataList);
      }
      assert rest[read.next..] == buffer[offset..];
      DecodeAfterRead(rest);
      PrependPrepend(before, [read.rec], Decode(buffer[offset..]));
    }
  }

  /**
   * One pass of the loop body, reading from the cursor position start; the
   * cursor that results is start + next.
   */
  method ReadRecord(buffer: seq<byte>) returns (res: RecordRead)
    ensures res == RecordAt(buffer)
  {
    var offset := 0;
    if offset >= |buffer| {
      return Overran;
    }
    var nameLen := buffer[offset] as nat;
    offset := offset + 1;
    if offset + nameLen > |buffer| {
      return Overran;
    }
    var nameBuffer := buffer[offset..offset + nameLen];
    offset := offset + nameLen;
    if offset >= |buffer| {
      return Overran;
    }
    var nameEscape := buffer[offset];
    var paramName := TC.ConvertString(nameBuffer);
    if nameEscape != DNE {
      return Broken;
    }
    res := ReadFields(buffer, offset, paramName);
  }

  /**
   * The rest of the loop body, once the name and its escape (at nameEnd)
   * have been read: flags, identifier, value length, value, value escape,
   * conversion.
   */
  method ReadFields(buffer: seq<byte>, nameEnd: nat, paramName: string) returns (res: RecordRead)
    requires 0 < nameEnd < |buffer| && paramName == TC.Latin1(buffer[1..nameEnd])
    ensures res == FieldsAt(buffer, nameEnd)
  {
    var offset := nameEnd + 1;
    if offset + 2 >= |buffer| {
      return Overran;
    }
    var flagsByte := buffer[offset];
    offset := offset + 1;
    var flags := Flags(Utils.GetBit(flagsByte, 0));
    var dataIdentifier := buffer[offset];
    offset := offset + 1;
    var dataLen := buffer[offset] as nat;
    offset := offset + 1;
    if offset + dataLen >= |buffer| {
      return Overran;
    }
    var dataBuffer := buffer[offset..offset + dataLen];
    offset := offset + dataLen;
    var dataEscape := buffer[offset];
    offset := offset + 1;
    var data := TC.Convert(dataIdentifier, dataBuffer);
    if data.IndexOverrun? {
      return Overran;
    }
    if data.Null? || dataEscape != DVE {
      return Broken;
    }
    return Read(ReceivedData(paramName, flags, dataIdentifier, data.value), offset);
  }

  // ---------------------------------------------------------------------
  // The encoding a device sends, and its round trip through Decode.

  /** A record as it travels: raw name, flags byte, identifier, raw value. */
  datatype WireRecord = WireRecord(name: seq<byte>, flags: byte, identifier: byte, value: seq<byte>)

  /** Name and value each fit their one-byte length field. */
  predicate WellFormed(w: WireRecord)
  {
    |w.name| < 256 && |w.value| < 256
  }

  /** Well formed, and its value converts to a value (neither null nor an exception). */
  predicate Decodable(w: WireRecord)
  {
    WellFormed(w) && TC.Convert(w.identifier, w.value).Value?
  }

  predicate AllDecodable(ws: seq<WireRecord>)
  {
    forall i :: 0 <= i < |ws| ==> Decodable(ws[i])
  }

  function Encode(w: WireRecord): (s: seq<byte>)
    requires WellFormed(w)
    ensures |s| == |w.name| + |w.value| + 6
  {
    [|w.name| as byte] + w.name + [DNE, w.flags, w.identifier, |w.value| as byte] + w.value + [DVE]
  }

  function EncodeAll(ws: seq<WireRecord>): seq<byte>
    requires forall i :: 0 <= i < |ws| ==> WellFormed(ws[i])
  {
    if |ws| == 0 then [] else Encode(ws[0]) + EncodeAll(ws[1..])
  }

  /** The record the receiver builds from a wire record. */
  function Interpret(w: WireRecord): ReceivedData
    requires Decodable(w)
  {
    ReceivedData(TC.Latin1(w.name), Flags(Utils.GetBit(w.flags, 0)), w.identifier, TC.Convert(w.identifier, w.value).value)
  }

  function InterpretAll(ws: seq<WireRecord>): seq<ReceivedData>
    requires AllDecodable(ws)
  {
    if |ws| == 0 then [] else [Interpret(ws[0])] + InterpretAll(ws[1..])
  }

  /** Where the fields of an encoded record sit, whatever follows it. */
  lemma EncodedLayout(w: WireRecord, tail: seq<byte>)
    requires WellFormed(w)
    ensures var s, n, v := Encode(w) + tail, |w.name|, |w.value|;
      s[0] as nat == n && s[1..1 + n] == w.name &&
      s[1 + n] == DNE && s[2 + n] == w.flags && s[3 + n] == w.identifier && s[4 + n] as nat == v &&
      s[5 + n..5 + n + v] == w.value && s[5 + n + v] == DVE
  {
    var s := Encode(w) + tail;
    var n := |w.name|;
    var v := |w.value|;
    assert s[1..1 + n] == w.name;
    assert s[5 + n..5 + n + v] == w.value;
  }

  /** A decodable record is read back whole, whatever follows it. */
  lemma ReadEncoded(w: WireRecord, tail: seq<byte>)
    requires Decodable(w)
    ensures RecordAt(Encode(w) + tail) == Read(Interpret(w), |Encode(w)|)
  {
    EncodedLayout(w, tail);
    RecordAtRead(Encode(w) + tail, TC.Convert(w.identifier, w.value).value);
  }

  /** A record that does not reach the payload end is prepended to what follows it. */
  lemma DecodeAfterRead(s: seq<byte>)
    requires RecordAt(s).Read? && RecordAt(s).next < |s|
    ensures Decode(s) == Prepend([RecordAt(s).rec], Decode(s[RecordAt(s).next..]))
  {
  }

  lemma PrependPrepend<R>(a: seq<R>, b: seq<R>, o: ParseOutcome<R>)
    ensures Prepend(a, Prepend(b, o)) == Prepend(a + b, o)
  {
    if o.Published? {
      assert a + (b + o.records) == (a + b) + o.records;
    }
  }

  lemma AllDecodableTail(ws: seq<WireRecord>)
    requires AllDecodable(ws) && |ws| > 0
    ensures AllDecodable(ws[1..])
    ensures InterpretAll(ws) == [Interpret(ws[0])] + InterpretAll(ws[1..])
  {
    forall i | 0 <= i < |ws[1..]|
      ensures Decodable(ws[1..][i])
    {
      assert ws[1..][i] == ws[i + 1];
    }
  }

  /** Encoded records in front of any payload are prepended to its outcome. */
  lemma {:induction false} DecodeEncodedPrefix(ws: seq<WireRecord>, tail: seq<byte>)
    requires AllDecodable(ws) && |tail| > 0
    ensures Decode(EncodeAll(ws) + tail) == Prepend(InterpretAll(ws), Decode(tail))
  {
    if |ws| == 0 {
      assert EncodeAll(ws) + tail == tail;
      assert Prepend(InterpretAll(ws), Decode(tail)) == Decode(tail);
    } else {
      var w := ws[0];
      AllDecodableTail(ws);
      var rest := EncodeAll(ws[1..]) + tail;
      var s := Encode(w) + rest;
      assert EncodeAll(ws) + tail == s;
      ReadEncoded(w, rest);
      assert s[|Encode(w)|..] == rest;
      DecodeAfterRead(s);
      DecodeEncodedPrefix(ws[1..], tail);
      PrependPrepend([Interpret(w)], InterpretAll(ws[1..]), Decode(tail));
    }
  }

  /** Round trip: a nonempty run of decodable records is published in wire order. */
  lemma {:induction false} DecodeEncodeAll(ws: seq<WireRecord>)
    requires AllDecodable(ws) && |ws| > 0
    ensures Decode(EncodeAll(ws)) == Published(InterpretAll(ws))
  {
    var w := ws[0];
    AllDecodableTail(ws);
    if |ws| == 1 {
      assert EncodeAll(ws) == Encode(w) + [];
      ReadEncoded(w, []);
      assert InterpretAll(ws[1..]) == [];
    } else {
      var rest := EncodeAll(ws[1..]);
      DecodeEncodeAll(ws[1..]);
      assert EncodeAll(ws) == Encode(w) + rest;
      ReadEncoded(w, rest);
      assert (Encode(w) + rest)[|Encode(w)|..] == rest;
      DecodeAfterRead(Encode(w) + rest);
    }
  }

  /** Conversely, a record that is read has its fields at the positions RecordAtRead names. */
  lemma ReadPositions(s: seq<byte>)
    requires RecordAt(s).Read?
    ensures var n := s[0] as nat; var valueEnd := 5 + n + s[4 + n] as nat;
      valueEnd < |s| && RecordAt(s).next == valueEnd + 1 && s[valueEnd] == DVE &&
      TC.Convert(s[3 + n], s[5 + n..valueEnd]).Value? &&
      RecordAt(s).rec == ReceivedData(TC.Latin1(s[1..1 + n]), Flags(Utils.GetBit(s[2 + n], 0)), s[3 + n],
                                      TC.Convert(s[3 + n], s[5 + n..valueEnd]).value)
  {
  }

  /** The wire record a successful read consumed. */
  lemma RecordIsEncoded(s: seq<byte>) returns (w: WireRecord)
    requires RecordAt(s).Read?
    ensures Decodable(w) && Interpret(w) == RecordAt(s).rec
    ensures s[..RecordAt(s).next] == Encode(w)
  {
    ReadPositions(s);
    var nameEnd := 1 + s[0] as nat;
    var valueEnd := nameEnd + 4 + s[nameEnd + 3] as nat;
    w := WireRecord(s[1..nameEnd], s[nameEnd + 1], s[nameEnd + 2], s[nameEnd + 4..valueEnd]);
    SliceEncoding(s, nameEnd, valueEnd);
  }

  /** Bytes with a record's layout are the encoding of the record their slices make. */
  lemma SliceEncoding(s: seq<byte>, nameEnd: nat, valueEnd: nat)
    requires |s| > 0 && nameEnd == 1 + s[0] as nat && nameEnd + 3 < |s|
    requires valueEnd == nameEnd + 4 + s[nameEnd + 3] as nat && valueEnd < |s|
    requires s[nameEnd] == DNE && s[valueEnd] == DVE
    ensures var w := WireRecord(s[1..nameEnd], s[nameEnd + 1], s[nameEnd + 2], s[nameEnd + 4..valueEnd]);
      WellFormed(w) && s[..valueEnd + 1] == Encode(w)
  {
    var w := WireRecord(s[1..nameEnd], s[nameEnd + 1], s[nameEnd + 2], s[nameEnd + 4..valueEnd]);
    var t := s[..valueEnd + 1];
    assert t == [t[0]] + t[1..nameEnd] + t[nameEnd..nameEnd + 4] + t[nameEnd + 4..valueEnd] + [t[valueEnd]];
    assert t[nameEnd..nameEnd + 4] == [DNE, w.flags, w.identifier, |w.value| as byte];
  }

  /** Conversely, every published batch is the encoding of decodable records, in order. */
  lemma {:induction false} PublishedIsEncoded(s: seq<byte>) returns (ws: seq<WireRecord>)
    requires Decode(s).Published?
    decreases |s|
    ensures AllDecodable(ws) && |ws| > 0
    ensures EncodeAll(ws) == s && InterpretAll(ws) == Decode(s).records
  {
    var next := RecordAt(s).next;
    var w := RecordIsEncoded(s);
    if next >= |s| {
      ws := [w];
      ConsEncoded(w, []);
      assert s[..next] == s;
    } else {
      DecodeAfterRead(s);
      var more := PublishedIsEncoded(s[next..]);
      ws := [w] + more;
      ConsEncoded(w, more);
      assert s == s[..next] + s[next..];
    }
  }

  /** Encoding and interpreting a record in front of others. */
  lemma ConsEncoded(w: WireRecord, more: seq<WireRecord>)
    requires Decodable(w) && AllDecodable(more)
    ensures AllDecodable([w] + more)
    ensures EncodeAll([w] + more) == Encode(w) + EncodeAll(more)
    ensures InterpretAll([w] + more) == [Interpret(w)] + InterpretAll(more)
  {
    assert ([w] + more)[1..] == more;
  }

  /** A broken record anywhere after well-formed ones discards the whole batch. */
  lemma BrokenDiscardsBatch(ws: seq<WireRecord>, tail: seq<byte>)
    requires AllDecodable(ws) && RecordAt(tail).Broken?
    ensures Decode(EncodeAll(ws) + tail) == Discarded
  {
    DecodeEncodedPrefix(ws, tail);
  }

  /** A record whose name is not followed by DNE is broken. */
  lemma WrongNameEscapeBreaks(w: WireRecord, x: byte, tail: seq<byte>)
    requires WellFormed(w) && x != DNE
    ensures RecordAt(Encode(w)[1 + |w.name| := x] + tail) == Broken
  {
    var s := Encode(w)[1 + |w.name| := x] + tail;
    assert s[0] as nat == |w.name| && s[1 + |w.name|] == x;
  }

  /** A decodable record whose value is not followed by DVE is broken. */
  lemma WrongValueEscapeBreaks(w: WireRecord, x: byte, tail: seq<byte>)
    requires Decodable(w) && x != DVE
    ensures RecordAt(Encode(w)[|Encode(w)| - 1 := x] + tail) == Broken
  {
    var s := Encode(w)[|Encode(w)| - 1 := x] + tail;
    var n, v := |w.name|, |w.value|;
    assert s[0] as nat == n && s[1 + n] == DNE && s[3 + n] == w.identifier && s[4 + n] as nat == v;
    assert s[5 + n..5 + n + v] == w.value;
    assert s[5 + n + v] == x;
  }

  /** A well-formed record whose value converts to null is broken. */
  lemma NullValueBreaks(w: WireRecord, tail: seq<byte>)
    requires WellFormed(w) && TC.Convert(w.identifier, w.value).Null?
    ensures RecordAt(Encode(w) + tail) == Broken
  {
    var s := Encode(w) + tail;
    var n, v := |w.name|, |w.value|;
    assert s[0] as nat == n && s[1 + n] == DNE && s[3 + n] == w.identifier && s[4 + n] as nat == v;
    assert s[5 + n..5 + n + v] == w.value;
  }

  /** A value that converts to null anywhere after decodable records discards the batch. */
  lemma NullValueDiscardsBatch(ws: seq<WireRecord>, w: WireRecord, tail: seq<byte>)
    requires AllDecodable(ws) && WellFormed(w) && TC.Convert(w.identifier, w.value).Null?
    ensures Decode(EncodeAll(ws) + Encode(w) + tail) == Discarded
  {
    NullValueBreaks(w, tail);
    BrokenDiscardsBatch(ws, Encode(w) + tail);
    assert EncodeAll(ws) + Encode(w) + tail == EncodeAll(ws) + (Encode(w) + tail);
  }

  /** A record cut short overruns. */
  lemma TruncatedRecordOverruns(w: WireRecord, k: nat)
    requires WellFormed(w) && k < |Encode(w)|
    ensures RecordAt(Encode(w)[..k]) == Overran
  {
    var s := Encode(w)[..k];
    var n := |w.name|;
    if k > 1 + n {
      assert s[0] as nat == n && s[1 + n] == DNE;
      if k > 4 + n {
        assert s[4 + n] as nat == |w.value|;
      }
    }
  }

  /** A payload whose last record is cut short overruns: the index exception, not a drop. */
  lemma TruncatedPayloadOverruns(ws: seq<WireRecord>, w: WireRecord, k: nat)
    requires AllDecodable(ws) && WellFormed(w) && 0 < k < |Encode(w)|
    ensures Decode(EncodeAll(ws) + Encode(w)[..k]) == Overrun
  {
    TruncatedRecordOverruns(w, k);
    DecodeEncodedPrefix(ws, Encode(w)[..k]);
  }
}
