/**
 * The earlier type codec (UDPType.cs): one singleton per type, each
 * overriding Convert, looked up by identifier.
 */
module TypeHierarchy {
  import opened Bytes
  import opened Wrappers
  import TC = TypeConverter

  /** The five singletons TYPE_BOOL ... TYPE_STRING. */
  datatype UdpType = TypeBool | TypeUInt | TypeInt | TypeReal | TypeString
  {
    /** The identifier constant of the type. */
    function Identifier(): byte
    {
      match this
      case TypeBool => 0xA0
      case TypeUInt => 0xA1
      case TypeInt => 0xA2
      case TypeReal => 0xA3
      case TypeString => 0xA4
    }

    /** The override of Convert that this singleton runs. */
    method Convert(data: seq<byte>) returns (r: TC.Conversion)
      ensures r == TC.Convert(Identifier(), data)
    {
      match this
      case TypeBool => r := BoolConvert(data);
      case TypeUInt => r := UIntConvert(data);
      case TypeInt => r := IntConvert(data);
      case TypeReal => r := RealConvert(data);
      case TypeString =>
        var s := StringConvert(data);
        TC.Latin1Chars(data);
        SameCodesSameString(s, TC.Latin1(data));
        r := TC.Value(TC.StringValue(s));
    }
  }

  /**
   * The identifiers are pairwise distinct, lie outside ASCII and differ from
   * the framing bytes 0x02-0x05.
   */
  lemma IdentifiersDistinct(t: UdpType, u: UdpType)
    ensures t != u ==> t.Identifier() != u.Identifier()
    ensures t.Identifier() >= 0x80
    ensures !(0x02 <= t.Identifier() <= 0x05)
  {
  }

  /** GetByIdentifier: 0xA0..0xA4 give the singletons, anything else null. */
  function GetByIdentifier(identifier: byte): (r: Option<UdpType>)
    ensures r.Some? <==> 0xA0 <= identifier <= 0xA4
    ensures r.Some? ==> r.value.Identifier() == identifier
  {
    match identifier
    case 0xA0 => Some(TypeBool)
    case 0xA1 => Some(TypeUInt)
    case 0xA2 => Some(TypeInt)
    case 0xA3 => Some(TypeReal)
    case 0xA4 => Some(TypeString)
    case _ => None
  }

  /** Looking up a type's own identifier finds that type. */
  lemma GetByOwnIdentifier(t: UdpType)
    ensures GetByIdentifier(t.Identifier()) == Some(t)
  {
  }

  /** UDPTypeBool.Convert: byte 0 compared with 1; an empty span throws. */
  function BoolConvert(data: seq<byte>): (r: TC.Conversion)
    ensures r.IndexOverrun? <==> |data| == 0
    ensures |data| > 0 ==> r == TC.Value(TC.BoolValue(data[0] == 1))
  {
    if |data| == 0 then TC.IndexOverrun else TC.Value(TC.BoolValue(data[0] == 1))
  }

  /** UDPTypeUInt.Convert: widths 1, 2, 4 and 8, little-endian unsigned. */
  function UIntConvert(data: seq<byte>): (r: TC.Conversion)
    ensures r.Value? <==> TC.IntegerWidth(|data|)
    ensures r.Value? ==> r.value == TC.UIntValue(ReadLE(data))
    ensures !r.IndexOverrun?
  {
    match |data|
    case 1 => TC.Value(TC.UIntValue(data[0] as nat))
    case 2 => TC.Value(TC.UIntValue(ReadLE(data)))
    case 4 => TC.Value(TC.UIntValue(ReadLE(data)))
    case 8 => TC.Value(TC.UIntValue(ReadLE(data)))
    case _ => TC.Null
  }

  /** UDPTypeInt.Convert: widths 1, 2, 4 and 8, little-endian two's complement. */
  function IntConvert(data: seq<byte>): (r: TC.Conversion)
    ensures r.Value? <==> TC.IntegerWidth(|data|)
    ensures r.Value? ==> r.value == TC.IntValue(ReadSignedLE(data))
    ensures !r.IndexOverrun?
  {
    match |data|
    case 1 =>
      assert data[1..] == [] && Pow256(1) == 256;
      assert ReadLE(data) == data[0] as nat + 256 * ReadLE(data[1..]);
      TC.Value(TC.IntValue(TC.SByte(data[0])))
    case 2 => TC.Value(TC.IntValue(ReadSignedLE(data)))
    case 4 => TC.Value(TC.IntValue(ReadSignedLE(data)))
    case 8 => TC.Value(TC.IntValue(ReadSignedLE(data)))
    case _ => TC.Null
  }

  /** UDPTypeReal.Convert: accepted for widths 4 and 8 only. */
  function RealConvert(data: seq<byte>): (r: TC.Conversion)
    ensures r.Value? <==> TC.RealWidth(|data|)
    ensures !r.IndexOverrun?
  {
    match |data|
    case 4 => TC.Value(TC.RealValue(data))
    case 8 => TC.Value(TC.RealValue(data))
    case _ => TC.Null
  }

  /** UDPTypeString.Convert: one character per byte, built in a loop. */
  method StringConvert(data: seq<byte>) returns (str: string)
    ensures |str| == |data|
    ensures forall i :: 0 <= i < |data| ==> str[i] as int == data[i] as int
  {
    str := "";
    for x := 0 to |data|
      invariant |str| == x
      invariant forall i :: 0 <= i < x ==> str[i] as int == data[i] as int
    {
      str := str + [(data[x] as int) as char];
    }
  }

  /** Strings with the same character codes are equal. */
  lemma SameCodesSameString(s: string, t: string)
    requires |s| == |t|
    requires forall i :: 0 <= i < |s| ==> s[i] as int == t[i] as int
    ensures s == t
  {
    assert forall i :: 0 <= i < |s| ==> s[i] == t[i];
  }

  /**
   * An identifier with no singleton is one TypeConverter.Convert turns into
   * null; for the others, Convert on the singleton agrees with it.
   */
  lemma UnknownIdentifierIsNull(identifier: byte, data: seq<byte>)
    requires GetByIdentifier(identifier).None?
    ensures TC.Convert(identifier, data) == TC.Null
  {
  }
}
