/**
 * The type codec (UDP/UDPTypeConverter.cs): it turns the value bytes of a
 * record into a typed value, chosen by a one-byte type identifier.
 */
module TypeConverter {
  import opened Bytes

  // Identifiers chosen to stay clear of ASCII and of the framing bytes.
  const TYPE_IDENTIFIER_BOOL: byte := 0xA0
  const TYPE_IDENTIFIER_UINT: byte := 0xA1
  const TYPE_IDENTIFIER_INT: byte := 0xA2
  const TYPE_IDENTIFIER_REAL: byte := 0xA3
  const TYPE_IDENTIFIER_STRING: byte := 0xA4

  /**
   * A decoded value. A real keeps its 4 or 8 raw bytes: the floating-point
   * value they denote is not modelled.
   */
  datatype FieldValue =
    | BoolValue(b: bool)
    | UIntValue(u: nat)
    | IntValue(i: int)
    | RealValue(bits: seq<byte>)
    | StringValue(s: string)

  /**
   * What a conversion yields: a value, C#'s null, or the index exception
   * that reading byte 0 of an empty span raises.
   */
  datatype Conversion = Value(value: FieldValue) | Null | IndexOverrun

  /** True for the widths the integer readers accept. */
  predicate IntegerWidth(n: nat)
  {
    n == 1 || n == 2 || n == 4 || n == 8
  }

  /** True for the widths the real reader accepts. */
  predicate RealWidth(n: nat)
  {
    n == 4 || n == 8
  }

  /** A Bool is byte 0 compared with 1; an empty span throws. */
  function ConvertBool(data: seq<byte>): (r: Conversion)
    ensures r.IndexOverrun? <==> |data| == 0
  {
    if |data| == 0 then IndexOverrun else Value(BoolValue(data[0] == 1))
  }

  /** Only byte 0 matters: the bytes after it are ignored. */
  lemma ConvertBoolReadsFirstByte(x: byte, rest: seq<byte>)
    ensures ConvertBool([x] + rest) == Value(BoolValue(x == 1))
    ensures ConvertBool([x] + rest) == ConvertBool([x])
  {
  }

  /** An unsigned integer of width 1, 2, 4 or 8, little-endian. */
  function ConvertUInt(data: seq<byte>): (r: Conversion)
    ensures r.Value? <==> IntegerWidth(|data|)
    ensures r.Value? ==> r.value == UIntValue(ReadLE(data)) && r.value.u < Pow256(|data|)
    ensures !r.IndexOverrun?
  {
    ReadLEBound(data);
    match |data|
    case 1 => Value(UIntValue(data[0] as nat))
    case 2 => Value(UIntValue(ReadLE(data)))
    case 4 => Value(UIntValue(ReadLE(data)))
    case 8 => Value(UIntValue(ReadLE(data)))
    case _ => Null
  }

  /** `(sbyte)b`: the byte read as two's complement. */
  function SByte(b: byte): int
  {
    if b >= 0x80 then b as int - 256 else b as int
  }

  /** A signed integer of width 1, 2, 4 or 8, little-endian two's complement. */
  function ConvertInt(data: seq<byte>): (r: Conversion)
    ensures r.Value? <==> IntegerWidth(|data|)
    ensures r.Value? ==> r.value == IntValue(ReadSignedLE(data))
    ensures r.Value? ==> -(Pow256(|data|) / 2) <= r.value.i < Pow256(|data|) / 2
    ensures r.Value? ==> (r.value.i < 0 <==> data[|data| - 1] >= 0x80)
    ensures !r.IndexOverrun?
  {
    match |data|
    case 1 => SignedRange(data); Value(IntValue(SByte(data[0])))
    case 2 => SignedRange(data); Value(IntValue(ReadSignedLE(data)))
    case 4 => SignedRange(data); Value(IntValue(ReadSignedLE(data)))
    case 8 => SignedRange(data); Value(IntValue(ReadSignedLE(data)))
    case _ => Null
  }

  /** A real is accepted by its width alone (single or double precision). */
  function ConvertReal(data: seq<byte>): (r: Conversion)
    ensures r.Value? <==> RealWidth(|data|)
    ensures r.Value? ==> r.value == RealValue(data)
    ensures !r.IndexOverrun?
  {
    match |data|
    case 4 => Value(RealValue(data))
    case 8 => Value(RealValue(data))
    case _ => Null
  }

  /** One character per byte, whose code is the byte value (Latin-1). */
  function Latin1(data: seq<byte>): (s: string)
  {
    if |data| == 0 then "" else Latin1(data[..|data| - 1]) + [(data[|data| - 1] as int) as char]
  }

  /** Latin1 keeps the length, and character i has the code of byte i. */
  lemma {:induction false} Latin1Chars(data: seq<byte>)
    ensures |Latin1(data)| == |data|
    ensures forall i :: 0 <= i < |data| ==> Latin1(data)[i] as int == data[i] as int
  {
    if |data| > 0 {
      Latin1Chars(data[..|data| - 1]);
    }
  }

  /** The bytes of a string whose characters are all below 256. */
  function Latin1Bytes(s: string): (data: seq<byte>)
    requires forall i :: 0 <= i < |s| ==> s[i] as int < 256
    ensures |data| == |s|
  {
    if |s| == 0 then [] else Latin1Bytes(s[..|s| - 1]) + [s[|s| - 1] as int as byte]
  }

  /** Latin1 and Latin1Bytes are inverse to each other. */
  lemma {:induction false} Latin1RoundTrip(data: seq<byte>)
    ensures forall i :: 0 <= i < |Latin1(data)| ==> Latin1(data)[i] as int < 256
    ensures Latin1Bytes(Latin1(data)) == data
  {
    Latin1Chars(data);
    if |data| > 0 {
      Latin1RoundTrip(data[..|data| - 1]);
      assert Latin1(data)[..|data| - 1] == Latin1(data[..|data| - 1]);
    }
  }

  /** ConvertString: the string is built one character per byte in a loop. */
  method ConvertString(data: seq<byte>) returns (str: string)
    ensures |str| == |data|
    ensures forall i :: 0 <= i < |data| ==> str[i] as int == data[i] as int
    ensures str == Latin1(data)
  {
    str := "";
    for x := 0 to |data|
      invariant str == Latin1(data[..x])
    {
      assert data[..x + 1][..x] == data[..x];
      str := str + [(data[x] as int) as char];
    }
    assert data[..|data|] == data;
    Latin1Chars(data);
  }

  /** Convert: dispatch on the identifier; an unknown identifier gives null. */
  function Convert(identifier: byte, data: seq<byte>): (r: Conversion)
    ensures !(TYPE_IDENTIFIER_BOOL <= identifier <= TYPE_IDENTIFIER_STRING) ==> r == Null
    ensures r.IndexOverrun? <==> identifier == TYPE_IDENTIFIER_BOOL && |data| == 0
    ensures identifier == TYPE_IDENTIFIER_STRING ==> r == Value(StringValue(Latin1(data)))
  {
    match identifier
    case 0xA0 => ConvertBool(data)
    case 0xA1 => ConvertUInt(data)
    case 0xA2 => ConvertInt(data)
    case 0xA3 => ConvertReal(data)
    case 0xA4 => Value(StringValue(Latin1(data)))
    case _ => Null
  }

  /** A successful conversion yields the kind of value its identifier names. */
  lemma ConvertKind(identifier: byte, data: seq<byte>)
    requires Convert(identifier, data).Value?
    ensures TYPE_IDENTIFIER_BOOL <= identifier <= TYPE_IDENTIFIER_STRING
    ensures identifier == TYPE_IDENTIFIER_BOOL <==> Convert(identifier, data).value.BoolValue?
    ensures identifier == TYPE_IDENTIFIER_UINT <==> Convert(identifier, data).value.UIntValue?
    ensures identifier == TYPE_IDENTIFIER_INT <==> Convert(identifier, data).value.IntValue?
    ensures identifier == TYPE_IDENTIFIER_REAL <==> Convert(identifier, data).value.RealValue?
    ensures identifier == TYPE_IDENTIFIER_STRING <==> Convert(identifier, data).value.StringValue?
  {
  }

  /**
   * The result of ConvertFromString. The Bool, UInt, Int and Real cases are
   * handed to the culture-sensitive library parsers, which are not modelled.
   */
  datatype FromString = Parsed(value: FieldValue) | NullValue | LibraryParse(identifier: byte)

  /** ConvertFromString: a string is itself; an unknown identifier gives null. */
  function ConvertFromString(identifier: byte, text: string): (r: FromString)
    ensures identifier == TYPE_IDENTIFIER_STRING ==> r == Parsed(StringValue(text))
    ensures !(TYPE_IDENTIFIER_BOOL <= identifier <= TYPE_IDENTIFIER_STRING) <==> r == NullValue
  {
    match identifier
    case 0xA0 => LibraryParse(identifier)
    case 0xA1 => LibraryParse(identifier)
    case 0xA2 => LibraryParse(identifier)
    case 0xA3 => LibraryParse(identifier)
    case 0xA4 => Parsed(StringValue(text))
    case _ => NullValue
  }

  /** A decoded string value is restored unchanged from its text. */
  lemma StringValueRoundTrip(data: seq<byte>)
    ensures Convert(TYPE_IDENTIFIER_STRING, data).Value?
    ensures ConvertFromString(TYPE_IDENTIFIER_STRING, Convert(TYPE_IDENTIFIER_STRING, data).value.s)
            == Parsed(Convert(TYPE_IDENTIFIER_STRING, data).value)
  {
  }
}
