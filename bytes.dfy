/**
 * Bytes and the little-endian integer readings that `BinaryPrimitives`
 * performs on them (`ReadUInt16LittleEndian`, `ReadInt32LittleEndian`, ...,
 * `WriteUInt32LittleEndian`).
 */
module Bytes {

  /** An unsigned 8-bit value, C#'s `byte`. */
  newtype byte = x: int | 0 <= x < 256

  /** 256 to the power n: one more than the largest n-byte unsigned value. */
  function Pow256(n: nat): (r: nat)
    ensures r >= 1
  {
    if n == 0 then 1 else 256 * Pow256(n - 1)
  }

  /** The little-endian unsigned reading of s: the sum of s[i] * 256^i. */
  function ReadLE(s: seq<byte>): nat
  {
    if |s| == 0 then 0 else s[0] as nat + 256 * ReadLE(s[1..])
  }

  /** An n-byte little-endian value is below 256^n. */
  lemma {:induction false} ReadLEBound(s: seq<byte>)
    ensures ReadLE(s) < Pow256(|s|)
  {
    if |s| > 0 {
      ReadLEBound(s[1..]);
    }
  }

  /** The last byte of a little-endian value is its most significant one. */
  lemma {:induction false} ReadLESplitLast(s: seq<byte>)
    requires |s| > 0
    ensures ReadLE(s) == ReadLE(s[..|s| - 1]) + s[|s| - 1] as nat * Pow256(|s| - 1)
  {
    var n := |s|;
    if n > 1 {
      var t := s[1..];
      ReadLESplitLast(t);
      assert t[..n - 2] == s[..n - 1][1..];
      assert ReadLE(s[..n - 1]) == s[0] as nat + 256 * ReadLE(t[..n - 2]);
      ShiftDigit(ReadLE(t[..n - 2]), s[n - 1] as nat, Pow256(n - 2));
    } else {
      assert s[..0] == [];
    }
  }

  /** Shifting a sum up one byte shifts each of its parts. */
  lemma ShiftDigit(a: nat, top: nat, p: nat)
    ensures 256 * (a + top * p) == 256 * a + top * (256 * p)
  {
  }

  /** The n little-endian bytes of v (`BinaryPrimitives.Write...LittleEndian`). */
  function WriteLE(v: nat, n: nat): (r: seq<byte>)
    requires v < Pow256(n)
    ensures |r| == n
  {
    if n == 0 then []
    else
      DivBelow(v, Pow256(n - 1));
      [(v % 256) as byte] + WriteLE(v / 256, n - 1)
  }

  /** Dropping the low byte of a value below 256 * p leaves one below p. */
  lemma DivBelow(v: nat, p: nat)
    requires v < 256 * p
    ensures v / 256 < p
  {
  }

  /** A low digit and a quotient make a value with that remainder and quotient by 256. */
  lemma DigitSplit(d: nat, q: nat)
    requires d < 256
    ensures (d + 256 * q) % 256 == d && (d + 256 * q) / 256 == q
  {
  }

  /** Every value is its remainder by 256 plus 256 times its quotient. */
  lemma DigitJoin(v: nat)
    ensures v == v % 256 + 256 * (v / 256)
  {
  }

  /** Reading back what was written gives the value. */
  lemma {:induction false} ReadWriteLE(v: nat, n: nat)
    requires v < Pow256(n)
    ensures ReadLE(WriteLE(v, n)) == v
  {
    if n > 0 {
      DivBelow(v, Pow256(n - 1));
      ReadWriteLE(v / 256, n - 1);
      var w := WriteLE(v, n);
      assert w[1..] == WriteLE(v / 256, n - 1);
      DigitJoin(v);
    }
  }

  /** Writing back what was read gives the bytes. */
  lemma {:induction false} WriteReadLE(s: seq<byte>)
    ensures ReadLE(s) < Pow256(|s|)
    ensures WriteLE(ReadLE(s), |s|) == s
  {
    ReadLEBound(s);
    if |s| > 0 {
      var rest := ReadLE(s[1..]);
      WriteReadLE(s[1..]);
      DigitSplit(s[0] as nat, rest);
      assert WriteLE(ReadLE(s), |s|) == [s[0]] + WriteLE(rest, |s| - 1);
      assert [s[0]] + s[1..] == s;
    }
  }

  /**
   * The little-endian two's-complement reading of s (`(sbyte)`,
   * `ReadInt16LittleEndian`, `ReadInt32LittleEndian`, `ReadInt64LittleEndian`):
   * the unsigned reading, less 256^|s| when the most significant byte has its
   * top bit set.
   */
  function ReadSignedLE(s: seq<byte>): int
    requires |s| > 0
  {
    if s[|s| - 1] >= 0x80 then ReadLE(s) - Pow256(|s|) else ReadLE(s)
  }

  /** A two's-complement value of n bytes lies in [-256^n/2, 256^n/2). */
  lemma SignedRange(s: seq<byte>)
    requires |s| > 0
    ensures -(Pow256(|s|) / 2) <= ReadSignedLE(s) < Pow256(|s|) / 2
    ensures ReadSignedLE(s) < 0 <==> s[|s| - 1] >= 0x80
  {
    var n := |s|;
    ReadLESplitLast(s);
    ReadLEBound(s[..n - 1]);
    TopByteBounds(ReadLE(s[..n - 1]), s[n - 1] as nat, Pow256(n - 1));
  }

  /** Where low + top * p lies, for low below p and a top byte below or above 0x80. */
  lemma TopByteBounds(low: nat, top: nat, p: nat)
    requires low < p && top < 256
    ensures top >= 0x80 ==> 128 * p <= low + top * p < 256 * p
    ensures top < 0x80 ==> low + top * p < 128 * p
    ensures (256 * p) / 2 == 128 * p
  {
    if top >= 0x80 {
      MulMono(128, top, p);
      MulMono(top, 255, p);
    } else {
      MulMono(top, 127, p);
    }
  }

  lemma MulMono(a: nat, b: nat, p: nat)
    requires a <= b
    ensures a * p <= b * p
  {
  }

  lemma ModAddMultiple(v: int, m: int)
    requires 0 <= v < m
    ensures (v - m) % m == v && v % m == v
  {
  }

  /** The signed reading agrees with the unsigned one modulo 256^n. */
  lemma SignedModulo(s: seq<byte>)
    requires |s| > 0
    ensures ReadSignedLE(s) % Pow256(|s|) == ReadLE(s)
  {
    ReadLEBound(s);
    ModAddMultiple(ReadLE(s), Pow256(|s|));
  }
}
