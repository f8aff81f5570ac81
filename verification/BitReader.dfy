/** The MSB-first bit reader: zero padding past the end, clamped position and a
    sticky overread flag. Its abstract value is a cursor into a bit string. */
module BitReader {
  import opened BitStrings

  /** A read position in a bit string. Every parser of the decoder is a function
      of a cursor, so parsers compose by passing it on. */
  datatype Cursor = Cursor(s: Bits, pos: nat, over: bool) {
    ghost predicate Valid() { pos <= |s| }

    /** The next n bits as a number, zeros past the end. */
    function Peek(n: nat): nat {
      Val(Window(s, pos, n))
    }

    function Skip(n: nat): (c: Cursor)
      ensures c.Valid()
    {
      if pos + n > |s| then Cursor(s, |s|, true) else Cursor(s, pos + n, over)
    }

    function Left(): int {
      |s| - pos
    }

    /** The string b comes next and is entirely present. */
    ghost predicate Ahead(b: Bits) {
      pos + |b| <= |s| && s[pos..pos + |b|] == b
    }

    /** The cursor n bits further on, for strings known to be present. */
    function Adv(n: nat): Cursor {
      Cursor(s, pos + n, over)
    }
  }

  lemma AheadSplit(c: Cursor, a: Bits, b: Bits)
    requires c.Ahead(a + b)
    ensures c.Ahead(a) && c.Adv(|a|).Ahead(b)
    ensures c.Adv(|a|).Adv(|b|) == c.Adv(|a + b|)
  {
    assert c.s[c.pos..c.pos + |a|] == (a + b)[..|a|];
    assert c.s[c.pos + |a|..c.pos + |a| + |b|] == (a + b)[|a|..];
  }

  lemma AheadWindow(c: Cursor, b: Bits)
    requires c.Ahead(b)
    ensures Window(c.s, c.pos, |b|) == b
  {
    var w, s := Window(c.s, c.pos, |b|), c.s[c.pos..c.pos + |b|];
    assert forall i :: 0 <= i < |b| ==> w[i] == s[i];
  }

  /** Reading a field that was written: the value comes back and the cursor ends
      just behind the field. */
  lemma ReadField(c: Cursor, n: nat, v: nat)
    requires c.Ahead(ToBits(n, v)) && v < Pow2(n)
    ensures c.Peek(n) == v && c.Skip(n) == c.Adv(n)
  {
    AheadWindow(c, ToBits(n, v));
    FieldRoundTrip(n, v);
  }

  /** One byte of a buffer, zero past its end. */
  function ByteAt(buf: seq<nat>, j: nat): nat {
    if j < |buf| then buf[j] else 0
  }

  lemma {:induction false} BytesBitsAt(buf: seq<nat>, j: nat)
    requires IsBytes(buf)
    ensures Window(BytesBits(buf), 8 * j, 8) == ToBits(8, ByteAt(buf, j))
  {
    if j >= |buf| {
      ZeroByte();
      assert Window(BytesBits(buf), 8 * j, 8) == ToBits(8, 0);
    } else {
      assert buf == buf[..j] + [buf[j]] + buf[j + 1..];
      BytesBitsConcat(buf[..j] + [buf[j]], buf[j + 1..]);
      assert (buf[..j] + [buf[j]])[..j] == buf[..j];
      assert BytesBits(buf)[8 * j..8 * j + 8] == ToBits(8, buf[j]);
      assert Window(BytesBits(buf), 8 * j, 8) == BytesBits(buf)[8 * j..8 * j + 8];
    }
  }

  lemma ZeroByte()
    ensures forall i :: 0 <= i < 8 ==> !ToBits(8, 0)[i]
  {
    ZeroBits(8);
  }

  lemma {:induction false} ZeroBits(n: nat)
    ensures forall i :: 0 <= i < n ==> !ToBits(n, 0)[i]
  {
    if n > 0 {
      ZeroBits(n - 1);
    }
  }

  /** Appending one more byte to a big-endian word. */
  lemma GrowWord(s: Bits, pos: nat, n: nat, w: nat, b: nat)
    requires w == Val(Window(s, pos, n))
    requires b < 256 && Window(s, pos + n, 8) == ToBits(8, b)
    ensures Shl(w, 8) + b == Val(Window(s, pos, n + 8))
  {
    WindowSplit(s, pos, n, 8);
    ValConcat(Window(s, pos, n), Window(s, pos + n, 8));
    ByteBound(b);
    FieldRoundTrip(8, b);
  }

  ghost function WordAt(s: Bits, pos: nat, n: nat): nat {
    Val(Window(s, pos, n))
  }

  lemma LoadStep(buf: seq<nat>, i: nat, k: nat)
    requires IsBytes(buf)
    ensures WordAt(BytesBits(buf), 8 * i, 8 * (k + 1))
            == Shl(WordAt(BytesBits(buf), 8 * i, 8 * k), 8) + ByteAt(buf, i + k)
  {
    BytesBitsAt(buf, i + k);
    GrowWord(BytesBits(buf), 8 * i, 8 * k, WordAt(BytesBits(buf), 8 * i, 8 * k), ByteAt(buf, i + k));
  }

  /** Shifting a word left by k and keeping its top n bits selects bits
      [k, k+n) of the word. */
  lemma SelectBits(x: Bits, k: nat, n: nat, w: nat)
    requires k + n <= |x| && w == Val(x)
    ensures Shr(Low(Shl(w, k), |x|), |x| - n) == Val(x[k..k + n])
  {
    var m := |x|;
    LowShl(w, k, m);
    ValHigh(x, k);
    ShrShl(Val(x[k..]), k, m - n);
    ValHigh(x[k..], n);
    assert x[k..][..n] == x[k..k + n];
  }

  /** n bits from pos on, out of an m-bit word loaded from a byte boundary. */
  lemma Extracted(s: Bits, pos: nat, n: nat, m: nat, w: nat)
    requires pos % 8 + n <= m && w == Val(Window(s, 8 * (pos / 8), m))
    ensures Shr(Low(Shl(w, pos % 8), m), m - n) == Val(Window(s, pos, n))
  {
    var x, k := Window(s, 8 * (pos / 8), m), pos % 8;
    SelectBits(x, k, n, w);
    assert x[k..k + n] == Window(s, pos, n);
  }

  class Reader {
    var buf: seq<nat>
    var pos: nat       // next bit to read
    var size: nat      // total bits
    var overread: bool

    ghost predicate Valid()
      reads this
    {
      && size == 8 * |buf|
      && pos <= size
      && IsBytes(buf)
    }

    ghost function Cur(): (c: Cursor)
      reads this
    {
      Cursor(BytesBits(buf), pos, overread)
    }

    constructor (b: seq<nat>)
      requires IsBytes(b)
      ensures Valid() && Cur() == Cursor(BytesBits(b), 0, false)
    {
      buf, pos, size, overread := b, 0, 8 * |b|, false;
    }

    /** Loads 64 bits from byte pos/8 on, zero-padded, and extracts n of them. */
    method Peek(n: nat) returns (v: nat)
      requires Valid() && n <= 32
      ensures v == Cur().Peek(n)
    {
      if n == 0 {
        return 0;
      }
      var w := LoadWord(pos / 8);
      v := Shr(Low(Shl(w, pos % 8), 64), 64 - n);
      Extracted(BytesBits(buf), pos, n, 64, w);
    }

    /** Eight bytes from byte i on, big-endian, zeros past the end. */
    method LoadWord(i: nat) returns (w: nat)
      requires Valid()
      ensures w == Val(Window(BytesBits(buf), 8 * i, 64))
    {
      w := 0;
      for k := 0 to 8
        invariant w == WordAt(BytesBits(buf), 8 * i, 8 * k)
      {
        LoadStep(buf, i, k);
        w := Shl(w, 8) + ByteAt(buf, i + k);
      }
    }

    method Skip(n: nat)
      requires Valid()
      modifies this`pos, this`overread
      ensures Valid() && Cur() == old(Cur()).Skip(n)
    {
      pos := pos + n;
      if pos > size {
        pos := size;
        overread := true;
      }
    }

    method Read(n: nat) returns (v: nat)
      requires Valid() && n <= 32
      modifies this`pos, this`overread
      ensures Valid() && v == old(Cur()).Peek(n) && Cur() == old(Cur()).Skip(n)
    {
      v := Peek(n);
      Skip(n);
    }

    method Align()
      requires Valid()
      modifies this`pos, this`overread
      ensures Valid() && Cur() == old(Cur()).Skip((8 - old(pos) % 8) % 8)
      ensures pos % 8 == 0 && overread == old(overread)
    {
      Skip((8 - pos % 8) % 8);
    }
  }
}
