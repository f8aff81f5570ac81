/** The MSB-first bit writer. Its abstract value is the bit string put so far. */
module BitWriter {
  import opened BitStrings

  /** Shifting a k-bit accumulator left by n and filling the vacated bits appends
      the new field to whatever low bits still fit in the word. */
  lemma {:induction false} ShiftIn(acc: nat, n0: nat, n: nat, v: nat, k: nat)
    requires n0 + n <= k
    ensures var acc' := Low(Shl(acc, n), k) + Low(v, n);
            ToBits(n0 + n, acc') == ToBits(n0, acc) + ToBits(n, v) && acc' < Pow2(k)
  {
    if n == 0 {
      ToBitsLow(n0, k, acc);
      LowBound(acc, k);
    } else {
      ShiftIn(acc, n0, n - 1, v / 2, k - 1);
      assert Shl(acc, n) / 2 == Shl(acc, n - 1);
      var acc' := Low(Shl(acc, n), k) + Low(v, n);
      assert acc' / 2 == Low(Shl(acc, n - 1), k - 1) + Low(v / 2, n - 1) && acc' % 2 == v % 2;
      assert ToBits(n0 + n, acc') == ToBits(n0 + n - 1, acc' / 2) + [acc' % 2 == 1];
    }
  }

  lemma {:induction false} ZeroField(n: nat)
    ensures ToBits(n, 0) == Zeros(n)
  {
    if n > 0 {
      ZeroField(n - 1);
    }
  }

  /** Moving the top byte of the pending bits to the buffer loses nothing. */
  lemma DrainByte(buf: seq<nat>, acc: nat, n: nat, k: nat)
    requires k == 8
    ensures BytesBits(buf + [Low(Shr(acc, n), k)]) + ToBits(n, acc) == BytesBits(buf) + ToBits(k + n, acc)
  {
    ToBitsSplit(k, n, acc);
    ToBitsLow(k, k, Shr(acc, n));
    BytesBitsPush(buf, Low(Shr(acc, n), k));
  }

  class Writer {
    var buf: seq<nat>       // bytes already complete
    var bits: nat           // bits written so far
    var acc: nat            // the 64-bit accumulator; only its low n bits are pending
    var n: nat              // pending bits, 0..7 between calls
    const wordBits: nat     // width of the accumulator
    const byteBits: nat     // width of a byte

    ghost predicate Valid()
      reads this
    {
      && wordBits >= 64 && byteBits == 8
      && n < 8
      && bits == 8 * |buf| + n
      && IsBytes(buf)
    }

    /** Everything written so far. */
    ghost function Written(): (s: Bits)
      reads this
    {
      BytesBits(buf) + ToBits(n, acc)
    }

    constructor ()
      ensures Valid() && Written() == []
    {
      buf, bits, acc, n := [], 0, 0, 0;
      wordBits, byteBits := 64, 8;
    }

    method Reset()
      requires Valid()
      modifies this
      ensures Valid() && Written() == [] && bits == 0
    {
      buf, bits, acc, n := [], 0, 0, 0;
    }

    /** Appends the low width bits of v. */
    method Put(width: nat, v: nat)
      requires Valid() && width <= 32
      modifies this
      ensures Valid()
      ensures Written() == old(Written()) + ToBits(width, v)
      ensures bits == old(bits) + width
    {
      if width == 0 {
        return;
      }
      ShiftField(width, v);
      Drain();
    }

    method ShiftField(width: nat, v: nat)
      requires Valid() && width <= 32
      modifies this`acc, this`n, this`bits
      ensures n == old(n) + width && bits == old(bits) + width
      ensures Written() == old(Written()) + ToBits(width, v)
    {
      ShiftIn(acc, n, width, v, wordBits);
      acc := Low(Shl(acc, width), wordBits) + Low(v, width);
      n := n + width;
      bits := bits + width;
    }

    method Drain()
      requires wordBits >= 64 && byteBits == 8 && n <= 39
      requires bits == 8 * |buf| + n
      requires IsBytes(buf)
      modifies this`buf, this`n
      ensures Valid() && Written() == old(Written())
    {
      while n >= 8
        invariant bits == 8 * |buf| + n
        invariant IsBytes(buf)
        invariant Written() == old(Written())
      {
        n := n - 8;
        DrainByte(buf, acc, n, byteBits);
        ByteBound(Shr(acc, n));
        buf := buf + [Low(Shr(acc, n), byteBits)];
      }
    }

    method Count() returns (c: nat)
      requires Valid()
      ensures c == |Written()|
    {
      c := bits;
    }

    /** Pads with zeros to the next byte boundary and hands out the bytes. */
    method Flush() returns (out: seq<nat>)
      requires Valid()
      modifies this
      ensures Valid() && n == 0 && out == buf
      ensures 0 <= 8 * |out| - |old(Written())| < 8
      ensures Written() == BytesBits(out) == old(Written()) + Zeros(8 * |out| - |old(Written())|)
    {
      if n > 0 {
        var pad := 8 - n;
        ShiftField(pad, 0);
        ZeroField(pad);
        DrainByte(buf, acc, 0, byteBits);
        ByteBound(acc);
        buf := buf + [Low(acc, byteBits)];
        n := 0;
        acc := 0;
      }
      out := buf;
      assert ToBits(n, acc) == [];
    }
  }
}
