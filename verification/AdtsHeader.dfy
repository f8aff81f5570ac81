/** The 7-byte ADTS header (section 6.2 of ISO/IEC 13818-7): the encoder's byte
    expressions, the decoder's field-by-field parser, and their round trip. */
module AdtsHeader {
  import opened BitStrings
  import opened BitReader

  const HEADER_SIZE := 7
  const MAX_PAYLOAD := 8184

  datatype Err = Sync | InvalidData

  datatype Result<+T> = Ok(value: T) | Fail(err: Err)

  datatype Header = Header(objectType: nat, chanConfig: nat, crcAbsent: nat, frames: nat,
                           samplingIndex: nat, sampleRate: nat, samples: nat, frameLength: nat)

  function SampleRates(): (r: seq<nat>)
    ensures |r| == 16
  {
    [96000, 88200, 64000, 48000, 44100, 32000, 24000, 22050, 16000, 12000, 11025, 8000, 7350, 0, 0, 0]
  }

  // ----- writing

  /** The header of an access unit, byte by byte. */
  function HeaderBytes(srIndex: nat, chan: nat, payloadLen: nat): (b: seq<nat>)
    ensures |b| == HEADER_SIZE
  {
    var len := payloadLen + HEADER_SIZE;
    [0xff, 0xf1, (64 + srIndex * 4 + chan / 4) % 256, (chan * 64) % 256 + (len / 2048) % 4,
     (len / 8) % 256, (len * 32) % 256 + 31, 0xfc]
  }

  /** The first index at or after from that stands for the rate, 13 when none does. */
  function RateIndex(rate: int, from: nat): (i: nat)
    requires from <= 13
    ensures i <= 13 && (i < 13 ==> SampleRates()[i] == rate)
    ensures forall j: nat :: from <= j < i ==> SampleRates()[j] != rate
    decreases 13 - from
  {
    if from == 13 || SampleRates()[from] == rate then from else RateIndex(rate, from + 1)
  }

  lemma RatesFall(i: nat)
    requires i < 12
    ensures SampleRates()[i] > SampleRates()[i + 1]
  {
  }

  lemma {:induction false} RatesDistinct(i: nat, j: nat)
    requires i < j < 13
    ensures SampleRates()[i] > SampleRates()[j]
    decreases j
  {
    hide SampleRates;
    RatesFall(j - 1);
    if i < j - 1 {
      RatesDistinct(i, j - 1);
    }
  }

  /** A rate has at most one index. */
  lemma RateIndexUnique(i: nat)
    requires i < 13
    ensures RateIndex(SampleRates()[i], 0) == i
  {
    hide SampleRates, RateIndex;
    var k := RateIndex(SampleRates()[i], 0);
    if k < i {
      RatesDistinct(k, i);
    }
  }

  method SampleRateIndex(rate: int) returns (idx: nat, ok: bool)
    ensures ok <==> RateIndex(rate, 0) < 13
    ensures ok ==> idx == RateIndex(rate, 0)
  {
    var i := 0;
    while i < 13
      invariant i <= 13 && RateIndex(rate, i) == RateIndex(rate, 0)
    {
      if SampleRates()[i] == rate {
        return i, true;
      }
      i := i + 1;
    }
    return 0, false;
  }

  /** Refuses a rate without an index, a channel count or a length that does not
      fit; otherwise appends the header. */
  method AppendHeader(dst: seq<nat>, sampleRate: int, channels: int, payloadLen: int) returns (out: seq<nat>, ok: bool)
    ensures ok <==> RateIndex(sampleRate, 0) < 13 && 1 <= channels <= 7 && 0 <= payloadLen <= MAX_PAYLOAD
    ensures out == if ok then dst + HeaderBytes(RateIndex(sampleRate, 0), channels, payloadLen) else dst
  {
    var srIndex;
    srIndex, ok := SampleRateIndex(sampleRate);
    if !ok {
      return dst, false;
    }
    if channels < 1 || channels > 7 || payloadLen < 0 || payloadLen > MAX_PAYLOAD {
      return dst, false;
    }
    var frameLen := payloadLen + HEADER_SIZE;
    out := dst + [0xff, 0xf1, (64 + srIndex * 4 + channels / 4) % 256, (channels * 64) % 256 + (frameLen / 2048) % 4,
                  (frameLen / 8) % 256, (frameLen * 32) % 256 + 31, 0xfc];
  }

  /** The fields of the header as the standard lays them out. */
  function Fields(srIndex: nat, chan: nat, frameLen: nat): Bits {
    ToBits(12, 0xfff) + (ToBits(1, 0) + (ToBits(2, 0) + (ToBits(1, 1) + (ToBits(2, 1) + (ToBits(4, srIndex)
    + (ToBits(1, 0) + (ToBits(3, chan) + (ToBits(1, 0) + (ToBits(1, 0) + (ToBits(1, 0) + (ToBits(1, 0)
    + (ToBits(13, frameLen) + (ToBits(11, 0x7ff) + ToBits(2, 0))))))))))))))
  }

  /** A field of m bits followed by one of n bits is one field of m+n bits. */
  lemma {:induction false} Join(m: nat, n: nat, a: nat, b: nat)
    requires b < Pow2(n)
    ensures ToBits(m + n, Shl(a, n) + b) == ToBits(m, a) + ToBits(n, b)
  {
    if n > 0 {
      Join(m, n - 1, a, b / 2);
      assert (Shl(a, n) + b) / 2 == Shl(a, n - 1) + b / 2;
      assert (Shl(a, n) + b) % 2 == b % 2;
    }
  }

  lemma SmallPowers()
    ensures Pow2(1) == 2 && Pow2(2) == 4 && Pow2(3) == 8 && Pow2(4) == 16 && Pow2(5) == 32 && Pow2(6) == 64
  {
    assert Pow2(3) == 8;
  }

  lemma SmallShifts(a: nat)
    ensures Shl(a, 1) == 2 * a && Shl(a, 2) == 4 * a && Shl(a, 3) == 8 * a && Shl(a, 4) == 16 * a
    ensures Shl(a, 5) == 32 * a && Shl(a, 6) == 64 * a
    ensures Shr(a, 2) == a / 4 && Shr(a, 3) == a / 8
    ensures Low(a, 2) == a % 4 && Low(a, 3) == a % 8
  {
    SmallPowers();
    ShlTimes(a, 1);
    ShlTimes(a, 2);
    ShlTimes(a, 3);
    ShlTimes(a, 4);
    ShlTimes(a, 5);
    ShlTimes(a, 6);
    ShrDivides(a, 2);
    ShrDivides(a, 3);
  }

  lemma ByteOne()
    ensures ToBits(8, 0xff) + ToBits(8, 0xf1) == ToBits(12, 0xfff) + (ToBits(1, 0) + (ToBits(2, 0) + ToBits(1, 1)))
  {
    hide ToBits, Shl, Shr, Low;
    SmallPowers();
    SmallShifts(15);
    SmallShifts(0xff);
    SmallShifts(0);
    Join(4, 4, 15, 1);
    Join(8, 4, 0xff, 0xf);
    Join(1, 3, 0, 1);
    Join(2, 1, 0, 1);
    Regroup3(ToBits(8, 0xff), ToBits(4, 15), ToBits(4, 1));
  }

  lemma Regroup3(a: Bits, b: Bits, c: Bits)
    ensures a + (b + c) == (a + b) + c
  {
  }

  lemma ByteTwo(srIndex: nat, chan: nat)
    requires srIndex < 16 && chan < 8
    ensures ToBits(8, (64 + srIndex * 4 + chan / 4) % 256)
            == ToBits(2, 1) + (ToBits(4, srIndex) + (ToBits(1, 0) + ToBits(1, chan / 4)))
  {
    hide ToBits, Shl, Shr, Low;
    SmallPowers();
    SmallShifts(srIndex);
    SmallShifts(1);
    SmallShifts(0);
    Join(1, 1, 0, chan / 4);
    Join(4, 2, srIndex, chan / 4);
    Join(2, 6, 1, srIndex * 4 + chan / 4);
  }

  lemma FourZeros(top: nat)
    requires top < 4
    ensures ToBits(6, top) == ToBits(1, 0) + (ToBits(1, 0) + (ToBits(1, 0) + (ToBits(1, 0) + ToBits(2, top))))
  {
    hide ToBits, Shl, Shr, Low;
    SmallPowers();
    SmallShifts(0);
    Join(1, 2, 0, top);
    Join(1, 3, 0, top);
    Join(1, 4, 0, top);
    Join(1, 5, 0, top);
  }

  lemma ByteThree(chan: nat, len: nat)
    requires chan < 8 && len < 8192
    ensures ToBits(8, (chan * 64) % 256 + (len / 2048) % 4)
            == ToBits(2, chan) + (ToBits(1, 0)
                                  + (ToBits(1, 0) + (ToBits(1, 0) + (ToBits(1, 0) + ToBits(2, len / 2048)))))
  {
    hide ToBits, Shl, Shr, Low;
    SmallPowers();
    var low := chan % 4;
    var top := len / 2048;
    FourZeros(top);
    SmallShifts(low);
    Join(2, 6, low, top);
    assert (chan * 64) % 256 == low * 64;
    SmallShifts(chan);
    ToBitsLow(2, 2, chan);
  }

  lemma HighLength(len: nat)
    requires len < 8192
    ensures ToBits(2, len / 2048) + ToBits(8, (len / 8) % 256) == ToBits(10, len / 8)
  {
    hide ToBits, Shl, Shr, Low;
    ToBitsSplit(2, 8, len / 8);
    ByteBound(0);
    ShrDivides(len / 8, 8);
    ToBitsLow(8, 8, len / 8);
  }

  lemma ByteFive(len: nat)
    ensures ToBits(8, (len * 32) % 256 + 31) == ToBits(3, len) + ToBits(5, 31)
  {
    hide ToBits, Shl, Shr, Low;
    SmallPowers();
    var low := len % 8;
    assert (len * 32) % 256 == low * 32;
    SmallShifts(low);
    Join(3, 5, low, 31);
    SmallShifts(len);
    ToBitsLow(3, 3, len);
  }

  lemma BytesFourFive(len: nat)
    requires len < 8192
    ensures ToBits(2, len / 2048) + (ToBits(8, (len / 8) % 256) + ToBits(8, (len * 32) % 256 + 31))
            == ToBits(13, len) + ToBits(5, 31)
  {
    hide ToBits, Shl, Shr, Low;
    HighLength(len);
    ByteFive(len);
    ToBitsSplit(10, 3, len);
    SmallShifts(len);
    Regroup3(ToBits(2, len / 2048), ToBits(8, (len / 8) % 256), ToBits(8, (len * 32) % 256 + 31));
    Regroup3(ToBits(10, len / 8), ToBits(3, len), ToBits(5, 31));
  }

  lemma ByteSix()
    ensures ToBits(5, 31) + ToBits(8, 0xfc) == ToBits(11, 0x7ff) + ToBits(2, 0)
  {
    hide ToBits, Shl, Shr, Low;
    SmallPowers();
    SmallShifts(63);
    SmallShifts(31);
    Join(6, 2, 63, 0);
    Join(5, 6, 31, 63);
    Regroup3(ToBits(5, 31), ToBits(6, 63), ToBits(2, 0));
  }

  /** Six pieces of the seven bytes, regrouped into the fifteen fields. */
  lemma RegroupAll(b0: Bits, b1: Bits, b2: Bits, b3: Bits, b4: Bits, b5: Bits, b6: Bits,
                   sync: Bits, z: Bits, layer: Bits, one: Bits, profile: Bits, sr: Bits, c1: Bits, c2: Bits,
                   top: Bits, len: Bits, five: Bits, full: Bits, blocks: Bits)
    requires b0 + b1 == sync + (z + (layer + one))
    requires b2 == profile + (sr + (z + c1))
    requires b3 == c2 + (z + (z + (z + (z + top))))
    requires top + (b4 + b5) == len + five
    requires five + b6 == full + blocks
    ensures b0 + b1 + b2 + b3 + b4 + b5 + b6
            == sync + (z + (layer + (one + (profile + (sr + (z + ((c1 + c2) + (z + (z + (z + (z
               + (len + (full + blocks)))))))))))))
  {
    calc {
      b0 + b1 + b2 + b3 + b4 + b5 + b6;
      (b0 + b1) + (b2 + (b3 + ((b4 + b5) + b6)));
      (b0 + b1) + (b2 + (c2 + (z + (z + (z + (z + ((top + (b4 + b5)) + b6)))))));
      (b0 + b1) + (b2 + (c2 + (z + (z + (z + (z + (len + (five + b6))))))));
    }
  }

  lemma HeaderIsFields(srIndex: nat, chan: nat, payloadLen: nat)
    requires srIndex < 16 && chan < 8 && payloadLen <= MAX_PAYLOAD
    ensures BytesBits(HeaderBytes(srIndex, chan, payloadLen)) == Fields(srIndex, chan, payloadLen + HEADER_SIZE)
  {
    hide ToBits, Shl, Shr, Low, BytesBits;
    var len := payloadLen + HEADER_SIZE;
    var h := HeaderBytes(srIndex, chan, payloadLen);
    SevenBytes(h);
    ByteOne();
    ByteTwo(srIndex, chan);
    ByteThree(chan, len);
    BytesFourFive(len);
    ByteSix();
    SmallShifts(chan);
    ToBitsSplit(1, 2, chan);
    RegroupAll(ToBits(8, h[0]), ToBits(8, h[1]), ToBits(8, h[2]), ToBits(8, h[3]), ToBits(8, h[4]), ToBits(8, h[5]),
               ToBits(8, h[6]), ToBits(12, 0xfff), ToBits(1, 0), ToBits(2, 0), ToBits(1, 1), ToBits(2, 1),
               ToBits(4, srIndex), ToBits(1, chan / 4), ToBits(2, chan), ToBits(2, len / 2048), ToBits(13, len),
               ToBits(5, 31), ToBits(11, 0x7ff), ToBits(2, 0));
  }

  lemma SevenBytes(h: seq<nat>)
    requires |h| == 7
    ensures BytesBits(h) == ToBits(8, h[0]) + ToBits(8, h[1]) + ToBits(8, h[2]) + ToBits(8, h[3])
                            + ToBits(8, h[4]) + ToBits(8, h[5]) + ToBits(8, h[6])
  {
    hide ToBits, BytesBits;
    BytesBitsEmpty();
    assert h[..0] == [] && h[..7] == h;
    BytesBitsNext(h, 0);
    BytesBitsNext(h, 1);
    BytesBitsNext(h, 2);
    BytesBitsNext(h, 3);
    BytesBitsNext(h, 4);
    BytesBitsNext(h, 5);
    BytesBitsNext(h, 6);
  }

  lemma BytesBitsEmpty()
    ensures BytesBits([]) == []
  {
  }

  lemma BytesBitsNext(h: seq<nat>, i: nat)
    requires i < |h|
    ensures BytesBits(h[..i + 1]) == BytesBits(h[..i]) + ToBits(8, h[i])
  {
    assert h[..i + 1] == h[..i] + [h[i]];
    BytesBitsPush(h[..i], h[i]);
  }

  // ----- parsing

  /** The parser: field by field, with its checks in order; an overread is
      noticed only at the end. */
  function ParseHeader(c0: Cursor): Result<Header> {
    if c0.Peek(12) != 0xfff then Fail(Sync)
    else
      var c1 := c0.Skip(12).Skip(1).Skip(2);
      var (crc, c2) := (c1.Peek(1), c1.Skip(1));
      var (aot, c3) := (c2.Peek(2), c2.Skip(2));
      var (sr, c4) := (c3.Peek(4), c3.Skip(4));
      if sr >= 16 || SampleRates()[sr] == 0 then Fail(InvalidData)
      else
        var c5 := c4.Skip(1);
        var (ch, c6) := (c5.Peek(3), c5.Skip(3));
        var c7 := c6.Skip(1).Skip(1).Skip(1).Skip(1);
        var (size, c8) := (c7.Peek(13), c7.Skip(13));
        if size < HEADER_SIZE then Fail(InvalidData)
        else
          var c9 := c8.Skip(11);
          var (rdb, c10) := (c9.Peek(2), c9.Skip(2));
          if c10.over then Fail(InvalidData)
          else Ok(Header(aot + 1, ch, crc, rdb + 1, sr, SampleRates()[sr], (rdb + 1) * 1024, size))
  }

  /** The cursor behind a header. */
  function HeaderEnd(c: Cursor): Cursor {
    var fixed := c.Skip(12).Skip(1).Skip(2).Skip(1).Skip(2).Skip(4).Skip(1).Skip(3);
    fixed.Skip(1).Skip(1).Skip(1).Skip(1).Skip(13).Skip(11).Skip(2)
  }

  lemma HeaderEndStays(c: Cursor)
    ensures HeaderEnd(c).Valid() && HeaderEnd(c).s == c.s
  {
  }

  lemma PeekBound(c: Cursor, n: nat)
    ensures c.Peek(n) < Pow2(n)
  {
    ValBound(Window(c.s, c.pos, n));
  }

  method ParseAdts(r: Reader) returns (h: Result<Header>)
    requires r.Valid()
    modifies r`pos, r`overread
    ensures r.Valid() && h == ParseHeader(old(r.Cur())) && (h.Ok? ==> r.Cur() == HeaderEnd(old(r.Cur())))
  {
    hide Cursor.Peek, Cursor.Skip, BytesBits, ToBits;
    var sync := r.Read(12);
    if sync != 0xfff {
      return Fail(Sync);
    }
    r.Skip(1);
    r.Skip(2);
    var crcAbs := r.Read(1);
    var aot := r.Read(2);
    ghost var c := r.Cur();
    var sr := r.Read(4);
    PeekBound(c, 4);
    SmallPowers();
    if SampleRates()[sr] == 0 {
      return Fail(InvalidData);
    }
    r.Skip(1);
    var ch := r.Read(3);
    r.Skip(1);
    r.Skip(1);
    r.Skip(1);
    r.Skip(1);
    var size := r.Read(13);
    if size < HEADER_SIZE {
      return Fail(InvalidData);
    }
    r.Skip(11);
    var rdb := r.Read(2);
    if r.overread {
      return Fail(InvalidData);
    }
    h := Ok(Header(aot + 1, ch, crcAbs, rdb + 1, sr, SampleRates()[sr], (rdb + 1) * 1024, size));
  }

  lemma TakeField(c: Cursor, n: nat, v: nat, rest: Bits)
    requires c.Ahead(ToBits(n, v) + rest) && v < Pow2(n)
    ensures c.Peek(n) == v && c.Skip(n) == c.Adv(n) && c.Adv(n).Ahead(rest) && c.Adv(n).over == c.over
  {
    AheadSplit(c, ToBits(n, v), rest);
    ReadField(c, n, v);
  }

  lemma FieldSizes()
    ensures Pow2(12) == 4096 && Pow2(13) == 8192 && Pow2(11) == 2048
  {
    assert Pow2(6) == 64;
    assert Pow2(10) == 1024;
  }

  /** Whatever follows it, a written header parses back to what was written. */
  lemma HeaderRoundTrip(c: Cursor, srIndex: nat, chan: nat, payloadLen: nat)
    requires srIndex < 13 && 1 <= chan <= 7 && payloadLen <= MAX_PAYLOAD && !c.over
    requires c.Ahead(BytesBits(HeaderBytes(srIndex, chan, payloadLen)))
    ensures ParseHeader(c) == Ok(Header(2, chan, 1, 1, srIndex, SampleRates()[srIndex], 1024, payloadLen + HEADER_SIZE))
  {
    hide ToBits, BytesBits, Cursor.Ahead, Cursor.Peek, Cursor.Skip, Cursor.Adv, HeaderBytes, Pow2;
    var len := payloadLen + HEADER_SIZE;
    HeaderIsFields(srIndex, chan, payloadLen);
    SmallPowers();
    FieldSizes();
    var blocks := ToBits(2, 0);
    var t13 := ToBits(11, 0x7ff) + blocks;
    var t12 := ToBits(13, len) + t13;
    var t11 := ToBits(1, 0) + t12;
    var t10 := ToBits(1, 0) + t11;
    var t9 := ToBits(1, 0) + t10;
    var t8 := ToBits(1, 0) + t9;
    var t7 := ToBits(3, chan) + t8;
    var t6 := ToBits(1, 0) + t7;
    var t5 := ToBits(4, srIndex) + t6;
    var t4 := ToBits(2, 1) + t5;
    var t3 := ToBits(1, 1) + t4;
    var t2 := ToBits(2, 0) + t3;
    var t1 := ToBits(1, 0) + t2;
    TakeField(c, 12, 0xfff, t1);
    var c1 := c.Adv(12);
    TakeField(c1, 1, 0, t2);
    var c2 := c1.Adv(1);
    TakeField(c2, 2, 0, t3);
    var c3 := c2.Adv(2);
    TakeField(c3, 1, 1, t4);
    var c4 := c3.Adv(1);
    TakeField(c4, 2, 1, t5);
    var c5 := c4.Adv(2);
    TakeField(c5, 4, srIndex, t6);
    var c6 := c5.Adv(4);
    TakeField(c6, 1, 0, t7);
    var c7 := c6.Adv(1);
    TakeField(c7, 3, chan, t8);
    var c8 := c7.Adv(3);
    TakeField(c8, 1, 0, t9);
    var c9 := c8.Adv(1);
    TakeField(c9, 1, 0, t10);
    var c10 := c9.Adv(1);
    TakeField(c10, 1, 0, t11);
    var c11 := c10.Adv(1);
    TakeField(c11, 1, 0, t12);
    var c12 := c11.Adv(1);
    TakeField(c12, 13, len, t13);
    var c13 := c12.Adv(13);
    TakeField(c13, 11, 0x7ff, blocks);
    var c14 := c13.Adv(11);
    ReadField(c14, 2, 0);
    AdvOver(c14, 2);
  }

  lemma AdvOver(c: Cursor, n: nat)
    ensures c.Adv(n).over == c.over
  {
  }

  /** Whatever AppendHeader accepts, the parser gives back its three arguments. */
  lemma AppendedParses(c: Cursor, sampleRate: int, channels: int, payloadLen: int)
    requires RateIndex(sampleRate, 0) < 13 && 1 <= channels <= 7 && 0 <= payloadLen <= MAX_PAYLOAD && !c.over
    requires c.Ahead(BytesBits(HeaderBytes(RateIndex(sampleRate, 0), channels, payloadLen)))
    ensures var h := ParseHeader(c);
            h.Ok? && h.value.sampleRate == sampleRate && h.value.chanConfig == channels
            && h.value.frameLength == payloadLen + HEADER_SIZE
  {
    hide ParseHeader, HeaderBytes, BytesBits, Cursor.Ahead, SampleRates;
    HeaderRoundTrip(c, RateIndex(sampleRate, 0), channels, payloadLen);
  }
}
