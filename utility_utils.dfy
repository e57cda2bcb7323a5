/** Bit test and file-size suffix selection (Utility/Utils.cs). */
module Utils {
  import opened Bytes
  import opened Wrappers

  function Pow2(k: nat): (r: nat)
    ensures r >= 1
  {
    if k == 0 then 1 else 2 * Pow2(k - 1)
  }

  /** Bit k of x, by arithmetic: the reference GetBit is checked against. */
  function BitOf(x: nat, k: nat): bool
  {
    (x / Pow2(k)) % 2 == 1
  }

  /**
   * GetBit: `(b & 1 << bitNumber) != 0` on C#'s 32-bit int, whose shift
   * count is taken modulo 32.
   */
  function GetBit(b: byte, bitNumber: int): bool
  {
    ((b as bv32) & ((1 as bv32) << (bitNumber % 32))) != 0
  }

  lemma Pow2AtLeast256(k: nat)
    requires k >= 8
    ensures Pow2(k) >= 256
  {
    if k > 8 {
      Pow2AtLeast256(k - 1);
    }
  }

  lemma HighMaskMisses(b: byte, k: nat)
    requires 8 <= k < 32
    ensures (b as bv32) & ((1 as bv32) << k) == 0
  {
  }

  /** The eight bits of a byte, each read by GetBit and computed by arithmetic. */
  lemma ByteBits(b: byte)
    ensures GetBit(b, 0) <==> (b as nat) % 2 == 1
    ensures GetBit(b, 1) <==> (b as nat / 2) % 2 == 1
    ensures GetBit(b, 2) <==> (b as nat / 4) % 2 == 1
    ensures GetBit(b, 3) <==> (b as nat / 8) % 2 == 1
    ensures GetBit(b, 4) <==> (b as nat / 16) % 2 == 1
    ensures GetBit(b, 5) <==> (b as nat / 32) % 2 == 1
    ensures GetBit(b, 6) <==> (b as nat / 64) % 2 == 1
    ensures GetBit(b, 7) <==> (b as nat / 128) % 2 == 1
  {
  }

  lemma LowMaskIsBit(b: byte, k: nat)
    requires k < 8
    ensures GetBit(b, k) <==> BitOf(b as nat, k)
  {
    ByteBits(b);
    if k == 0 {
    } else if k == 1 { assert Pow2(1) == 2;
    } else if k == 2 { assert Pow2(2) == 4;
    } else if k == 3 { assert Pow2(3) == 8;
    } else if k == 4 { assert Pow2(4) == 16;
    } else if k == 5 { assert Pow2(5) == 32;
    } else if k == 6 { assert Pow2(6) == 64;
    } else { assert Pow2(7) == 128; }
  }

  /** A value below the divisor has quotient 0. */
  lemma SmallQuotient(x: nat, d: nat)
    requires x < d
    ensures x / d == 0
  {
  }

  /** Shift counts from 8 to 31 (mod 32) test a bit no byte has. */
  lemma HighBitClear(b: byte, n: int)
    requires n % 32 >= 8
    ensures !GetBit(b, n) && !BitOf(b as nat, n % 32)
  {
    var k := n % 32;
    Pow2AtLeast256(k);
    HighMaskMisses(b, k);
    SmallQuotient(b as nat, Pow2(k));
  }

  /** Shift counts from 0 to 7 (mod 32) test the bit of that number. */
  lemma LowBitTested(b: byte, n: int)
    requires n % 32 < 8
    ensures GetBit(b, n) <==> BitOf(b as nat, n % 32)
  {
    var k := n % 32;
    LowMaskIsBit(b, k);
    assert k % 32 == k;
  }

  /** GetBit(b, n) is bit (n mod 32) of b. */
  lemma GetBitIsBit(b: byte, n: int)
    ensures GetBit(b, n) <==> BitOf(b as nat, n % 32)
  {
    if n % 32 >= 8 {
      HighBitClear(b, n);
    } else {
      LowBitTested(b, n);
    }
  }

  /** For 0 <= n < 8, GetBit(b, n) is bit n of b. */
  lemma GetBitOfByte(b: byte, n: int)
    requires 0 <= n < 8
    ensures GetBit(b, n) <==> BitOf(b as nat, n)
  {
    GetBitIsBit(b, n);
  }

  /** Bit 0 (the ForceInsert flag) is set exactly for odd bytes. */
  lemma GetBitZeroIsOdd(b: byte)
    ensures GetBit(b, 0) <==> b % 2 == 1
  {
  }

  /** Bits 8 to 31 of a byte are never set, and no bit of 0 is. */
  lemma GetBitHighAndZero(b: byte, n: int)
    ensures 8 <= n <= 31 ==> !GetBit(b, n)
    ensures !GetBit(0, n)
  {
    if 8 <= n <= 31 {
      HighMaskMisses(b, n);
    }
  }

  function Pow1024(k: nat): (r: nat)
    ensures r >= 1
  {
    if k == 0 then 1 else 1024 * Pow1024(k - 1)
  }

  /** The suffixes that FormatBytes indexes. */
  const Suffix: seq<string> := ["B", "KB", "MB", "GB", "TB"]

  lemma MulLe(a: nat, b: nat, p: nat)
    requires a <= b
    ensures a * p <= b * p
  {
  }

  lemma DivUnique(x: int, d: int, q: int, r: int)
    requires d > 0 && x == q * d + r && 0 <= r < d
    ensures x / d == q
  {
    var q0 := x / d;
    var r0 := x % d;
    assert x == q0 * d + r0;
    assert (q0 - q) * d == r - r0;
    if q0 > q {
      MulLe(1, q0 - q, d);
    } else if q0 < q {
      MulLe(1, q - q0, d);
    }
  }

  /** Dividing by p and then by 1024 is dividing by 1024 * p. */
  lemma DivDiv(x: nat, p: nat)
    requires p >= 1
    ensures x / p / 1024 == x / (p * 1024)
  {
    var q := x / p;
    var r := x % p;
    var q2 := q / 1024;
    var r2 := q % 1024;
    assert x == q * p + r;
    assert q == q2 * 1024 + r2;
    assert q * p == q2 * (p * 1024) + r2 * p;
    MulLe(r2, 1023, p);
    assert r2 * p + r < p * 1024;
    DivUnique(x, p * 1024, q2, r2 * p + r);
  }

  /** A quotient below 1024 bounds the dividend, one at least 1024 is bounded by it. */
  lemma QuotientBounds(x: nat, p: nat)
    requires p >= 1
    ensures x / p < 1024 ==> x < p * 1024
    ensures x / p >= 1024 ==> p * 1024 <= x
  {
    var q := x / p;
    assert x == q * p + x % p;
    if q < 1024 {
      MulLe(q, 1023, p);
    } else {
      MulLe(1024, q, p);
    }
  }

  lemma Pow1024Mono(a: nat, b: nat)
    requires a <= b
    ensures Pow1024(a) <= Pow1024(b)
  {
    if a < b {
      Pow1024Mono(a, b - 1);
    }
  }

  /**
   * The suffix selection of FormatBytes: the loop divides the length by 1024
   * while it is at least 1024, at most five times, and then indexes Suffix.
   * After five divisions the index is 5, past the end of Suffix: that
   * IndexOutOfRange is the None result. The number formatting is not modelled.
   */
  method FormatBytesSuffix(length: nat) returns (i: nat, suffix: Option<string>)
    ensures i <= 5
    ensures i == 5 <==> length >= Pow1024(5)
    ensures i < 5 ==> length < Pow1024(i + 1)
    ensures i > 0 ==> Pow1024(i) <= length
    ensures suffix.Some? <==> i < 5
    ensures suffix.Some? ==> suffix.value == Suffix[i]
    ensures length < 1024 ==> suffix == Some("B")
  {
    var bytes := length;
    i := 0;
    while i < |Suffix| && bytes >= 1024
      invariant i <= 5
      invariant bytes == length / Pow1024(i)
      invariant i > 0 ==> Pow1024(i) <= length
    {
      DivDiv(length, Pow1024(i));
      QuotientBounds(length, Pow1024(i));
      i, bytes := i + 1, bytes / 1024;
    }
    if i < 5 {
      QuotientBounds(length, Pow1024(i));
      Pow1024Mono(i + 1, 5);
    }
    if i == 5 {
      suffix := None;
    } else {
      suffix := Some(Suffix[i]);
    }
  }
}
