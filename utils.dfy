/** The byte-order fix-up of received buffers (Utils.cs). */
module LegacyUtils {
  import opened Bytes

  /** s back to front. */
  function Reversed(s: seq<byte>): (r: seq<byte>)
  {
    if |s| == 0 then [] else [s[|s| - 1]] + Reversed(s[..|s| - 1])
  }

  /** Reversal keeps the length and puts byte k at index |s| - 1 - k. */
  lemma {:induction false} ReversedAt(s: seq<byte>)
    ensures |Reversed(s)| == |s|
    ensures forall k :: 0 <= k < |s| ==> Reversed(s)[k] == s[|s| - 1 - k]
  {
    if |s| > 0 {
      ReversedAt(s[..|s| - 1]);
    }
  }

  /** Reversing twice restores the bytes. */
  lemma ReversedTwice(s: seq<byte>)
    ensures Reversed(Reversed(s)) == s
  {
    ReversedAt(s);
    ReversedAt(Reversed(s));
  }

  /** Reversal is a permutation: the multiset of bytes is kept. */
  lemma {:induction false} ReversedMultiset(s: seq<byte>)
    ensures multiset(Reversed(s)) == multiset(s)
  {
    if |s| > 0 {
      ReversedMultiset(s[..|s| - 1]);
      assert s == s[..|s| - 1] + [s[|s| - 1]];
    }
  }

  /**
   * FixRecvBuffer: on a big-endian host the buffer is reversed in place
   * (`Array.Reverse`); on a little-endian host it is left alone. Either way
   * the same array is returned.
   */
  method FixRecvBuffer(buffer: array<byte>, isLittleEndian: bool) returns (r: array<byte>)
    modifies buffer
    ensures r == buffer
    ensures isLittleEndian ==> buffer[..] == old(buffer[..])
    ensures !isLittleEndian ==> buffer[..] == Reversed(old(buffer[..]))
  {
    if !isLittleEndian {
      Reverse(buffer);
    }
    r := buffer;
  }

  /** Array.Reverse: swap the ends inwards. */
  method Reverse(a: array<byte>)
    modifies a
    ensures a[..] == Reversed(old(a[..]))
  {
    var n := a.Length;
    var lo, hi := 0, n - 1;
    while lo < hi
      invariant 0 <= lo <= n && hi == n - 1 - lo
      invariant forall k :: 0 <= k < lo ==> a[k] == old(a[n - 1 - k]) && a[n - 1 - k] == old(a[k])
      invariant forall k :: lo <= k < n - lo ==> a[k] == old(a[k])
    {
      a[lo], a[hi] := a[hi], a[lo];
      lo, hi := lo + 1, hi - 1;
    }
    ReversedAt(old(a[..]));
    assert a[..] == Reversed(old(a[..]));
  }
}
