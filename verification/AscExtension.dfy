/** The backward-compatible extension of an AudioSpecificConfig (section 1.6.6 of
    ISO/IEC 14496-3): the decoder finds the first one there is, reads it back as
    written, and refuses a stream it announces SBR or PS for. */
module AscExtension {
  import opened BitStrings
  import opened BitReader
  import opened AacParse
  import opened AudioConfig
  import opened DecSession
  import AdtsHeader
  import RoundTripSide

  // ----- the scan

  /** A sync word n bits on, in front of enough bits. */
  predicate SyncAt(c: Cursor, n: nat) {
    c.Left() - n > 15 && c.Skip(n).Peek(11) == 0x2b7
  }

  lemma SkipTwice(c: Cursor, m: nat, n: nat)
    requires c.Valid() && m + n <= c.Left()
    ensures c.Skip(m).Skip(n) == c.Skip(m + n) && c.Skip(m).Left() == c.Left() - m
  {
  }

  /** The scan reads the first extension and no other. */
  lemma {:induction false} ScanIsFirst(c: Cursor, rate: nat, n: nat)
    requires c.Valid() && SyncAt(c, n) && forall m: nat :: m < n ==> !SyncAt(c, m)
    ensures ScanExtension(c, rate) == ReadExtension(c.Skip(n), rate)
    decreases n
  {
    hide Cursor.Peek, ReadExtension;
    assert c.Skip(0) == c;
    if n > 0 {
      assert !SyncAt(c, 0);
      SkipTwice(c, 1, n - 1);
      forall m: nat | m < n - 1 ensures !SyncAt(c.Skip(1), m) {
        SkipTwice(c, 1, m);
        assert !SyncAt(c, m + 1);
      }
      ScanIsFirst(c.Skip(1), rate, n - 1);
    }
  }

  /** Without one, nothing is known of SBR and PS. */
  lemma {:induction false} ScanFindsNone(c: Cursor, rate: nat)
    requires c.Valid() && forall m: nat :: !SyncAt(c, m)
    ensures ScanExtension(c, rate) == Extension(-1, -1)
    decreases c.Left()
  {
    hide Cursor.Peek, ReadExtension;
    assert c.Skip(0) == c;
    if c.Left() > 15 {
      assert !SyncAt(c, 0);
      forall m: nat ensures !SyncAt(c.Skip(1), m) {
        if c.Left() - 1 - m > 15 {
          SkipTwice(c, 1, m);
        }
        assert !SyncAt(c, m + 1);
      }
      ScanFindsNone(c.Skip(1), rate);
    }
  }

  // ----- an extension as it is written

  /** The SBR flag with the rate it runs at, and the PS flag if there is one. */
  datatype Sync = Sync(sbr: bool, rateIndex: nat, ps: Option<bool>)

  function PrintPs(ps: Option<bool>): Bits {
    if ps.None? then [] else ToBits(11, 0x548) + [ps.value]
  }

  function PrintSync(x: Sync): Bits {
    ToBits(11, 0x2b7) + (ToBits(5, AOT_SBR) + ([x.sbr] + ((if x.sbr then ToBits(4, x.rateIndex) else [])
                                                          + PrintPs(x.ps))))
  }

  function Flag(b: bool): int { if b then 1 else 0 }

  /** What it says: SBR at the core's own rate says nothing. */
  function SyncMeans(x: Sync, rate: nat): Extension
    requires x.rateIndex < 13
  {
    Extension(if x.sbr && AdtsHeader.SampleRates()[x.rateIndex] == rate then -1 else Flag(x.sbr),
              if x.ps.None? then -1 else Flag(x.ps.value))
  }

  lemma Sizes()
    ensures Pow2(4) == 16 && Pow2(5) == 32 && Pow2(11) == 2048
  {
    AdtsHeader.SmallPowers();
    AdtsHeader.FieldSizes();
  }

  /** The extension comes back; fewer than eight bits of padding may follow. */
  lemma SyncRoundTrip(c: Cursor, x: Sync, pad: Bits, rate: nat)
    requires x.rateIndex < 13 && |pad| < 8 && c.Ahead(PrintSync(x) + pad) && c.Left() == |PrintSync(x) + pad|
    ensures ReadExtension(c, rate) == SyncMeans(x, rate)
    ensures c.Peek(11) == 0x2b7
  {
    hide Cursor.Ahead, Cursor.Peek, ToBits, AdtsHeader.SampleRates, PrintPs;
    var ps := PrintPs(x.ps) + pad;
    var r := if x.sbr then ToBits(4, x.rateIndex) else [];
    FiveParts(ToBits(11, 0x2b7), ToBits(5, AOT_SBR), [x.sbr], r, PrintPs(x.ps), pad);
    SyncHead(c, x.sbr, r + ps);
    AheadSplit(c.Adv(17), r, ps);
    if x.sbr {
      Sizes();
      ReadField(c.Adv(17), 4, x.rateIndex);
    }
    PsRoundTrip(c.Adv(17 + |r|), x.ps, pad);
  }

  lemma SyncHead(c: Cursor, sbr: bool, rest: Bits)
    requires c.Ahead(ToBits(11, 0x2b7) + (ToBits(5, AOT_SBR) + ([sbr] + rest)))
    ensures c.Peek(11) == 0x2b7 && c.Skip(11) == c.Adv(11) && ObjectType(c.Adv(11)) == (AOT_SBR, c.Adv(16))
    ensures c.Adv(16).Peek(1) == Flag(sbr) && c.Adv(16).Skip(1) == c.Adv(17) && c.Adv(17).Ahead(rest)
  {
    hide Cursor.Ahead, Cursor.Peek, ToBits;
    Sizes();
    AdtsHeader.TakeField(c, 11, 0x2b7, ToBits(5, AOT_SBR) + ([sbr] + rest));
    AdtsHeader.TakeField(c.Adv(11), 5, AOT_SBR, [sbr] + rest);
    AheadSplit(c.Adv(16), [sbr], rest);
    RoundTripSide.ReadBit(c.Adv(16), sbr);
  }

  lemma FiveParts(a: Bits, b: Bits, d: Bits, e: Bits, f: Bits, pad: Bits)
    ensures (a + (b + (d + (e + f)))) + pad == a + (b + (d + (e + (f + pad))))
  {
  }

  lemma PsRoundTrip(c: Cursor, ps: Option<bool>, pad: Bits)
    requires |pad| < 8 && c.Ahead(PrintPs(ps) + pad) && c.Left() == |PrintPs(ps) + pad|
    ensures (if c.Left() > 11 && c.Peek(11) == 0x548 then c.Skip(11).Peek(1) else -1)
            == if ps.None? then -1 else Flag(ps.value)
  {
    hide Cursor.Ahead, Cursor.Peek, ToBits;
    Sizes();
    if ps.Some? {
      assert PrintPs(ps) + pad == ToBits(11, 0x548) + ([ps.value] + pad);
      AdtsHeader.TakeField(c, 11, 0x548, [ps.value] + pad);
      AheadSplit(c.Adv(11), [ps.value], pad);
      RoundTripSide.ReadBit(c.Adv(11), ps.value);
    }
  }

  // ----- spelt out fields

  /** An object type behind the escape, and a rate behind the last index. */
  lemma EscapesReadBack(c: Cursor, v: nat)
    ensures v < 64 && c.Ahead(ToBits(5, AOT_ESCAPE) + ToBits(6, v)) ==> ObjectType(c) == (32 + v, c.Adv(11))
    ensures v < 0x100_0000 && c.Ahead(ToBits(4, 15) + ToBits(24, v)) ==> SampleRate(c) == Rate(v, 15, c.Adv(28))
  {
    hide Cursor.Ahead, Cursor.Peek, ToBits, ObjectType, SampleRate;
    if v < 64 && c.Ahead(ToBits(5, AOT_ESCAPE) + ToBits(6, v)) {
      TypeEscape(c, v);
    }
    if v < 0x100_0000 && c.Ahead(ToBits(4, 15) + ToBits(24, v)) {
      RateEscape(c, v);
    }
  }

  lemma TypeEscape(c: Cursor, v: nat)
    requires v < 64 && c.Ahead(ToBits(5, AOT_ESCAPE) + ToBits(6, v))
    ensures ObjectType(c) == (32 + v, c.Adv(11))
  {
    hide Cursor.Ahead, Cursor.Peek, ToBits;
    Sizes();
    AdtsHeader.SmallPowers();
    AdtsHeader.TakeField(c, 5, AOT_ESCAPE, ToBits(6, v));
    ReadField(c.Adv(5), 6, v);
  }

  lemma RateEscape(c: Cursor, v: nat)
    requires v < 0x100_0000 && c.Ahead(ToBits(4, 15) + ToBits(24, v))
    ensures SampleRate(c) == Rate(v, 15, c.Adv(28))
  {
    hide Cursor.Ahead, Cursor.Peek, ToBits, AdtsHeader.SampleRates;
    Sizes();
    WideField();
    AdtsHeader.TakeField(c, 4, 15, ToBits(24, v));
    ReadField(c.Adv(4), 24, v);
  }

  lemma WideField()
    ensures Pow2(24) == 0x100_0000
  {
    assert Pow2(12) == 4096 by { AdtsHeader.FieldSizes(); }
    assert Pow2(15) == 8 * Pow2(12);
    assert Pow2(18) == 8 * Pow2(15);
    assert Pow2(21) == 8 * Pow2(18);
    assert Pow2(24) == 8 * Pow2(21);
  }

  // ----- a whole description

  /** Object type AAC-LC, rate, channels and three zero flags, the extension, and
      padding to the byte. */
  function PrintAsc(srIndex: nat, chan: nat, x: Sync, pad: Bits): Bits {
    ToBits(5, AOT_AAC_LC) + (ToBits(4, srIndex) + (ToBits(4, chan) + (ToBits(3, 0) + (PrintSync(x) + pad))))
  }

  /** The decoder's answer: PS refused first, which SBR alone implies on a mono
      stream; then SBR; otherwise the core configuration. */
  function Answer(srIndex: nat, chan: nat, x: Extension): Asc
    requires srIndex < 13
  {
    var ps := if chan == 2 then 0 else if x.sbr == 1 && x.ps == -1 then 1 else x.ps;
    if ps == 1 then Rejected(UnsupportedPS)
    else if x.sbr == 1 then Rejected(UnsupportedSBR)
    else Accepted(Config(AOT_AAC_LC, srIndex, AdtsHeader.SampleRates()[srIndex], chan, x.sbr, ps, false))
  }

  lemma WithExtension(srIndex: nat, chan: nat, x: Sync, pad: Bits)
    requires srIndex < 13 && 1 <= chan <= 2 && x.rateIndex < 13 && |pad| < 8
    ensures ParseAsc(Cursor(PrintAsc(srIndex, chan, x, pad), 0, false))
            == Answer(srIndex, chan, SyncMeans(x, AdtsHeader.SampleRates()[srIndex]))
  {
    hide Cursor.Ahead, Cursor.Peek, ToBits, AdtsHeader.SampleRates, PrintSync, ScanExtension, SyncMeans;
    Sizes();
    var c := Cursor(PrintAsc(srIndex, chan, x, pad), 0, false);
    var rate := AdtsHeader.SampleRates()[srIndex];
    var t3 := ToBits(3, 0) + (PrintSync(x) + pad);
    var t2 := ToBits(4, chan) + t3;
    var t1 := ToBits(4, srIndex) + t2;
    AheadAll(c, ToBits(5, AOT_AAC_LC) + t1);
    AdtsHeader.TakeField(c, 5, AOT_AAC_LC, t1);
    AdtsHeader.TakeField(c.Adv(5), 4, srIndex, t2);
    AdtsHeader.TakeField(c.Adv(9), 4, chan, t3);
    FlagsAndSync(c.Adv(13), x, pad, rate);
  }

  lemma AheadAll(c: Cursor, b: Bits)
    requires c.pos == 0 && c.s == b
    ensures c.Ahead(b) && c.Left() == |b|
  {
  }

  /** The flags are zero, and the extension behind them is the first one. */
  lemma FlagsAndSync(c: Cursor, x: Sync, pad: Bits, rate: nat)
    requires x.rateIndex < 13 && |pad| < 8 && !c.over
    requires c.Ahead(ToBits(3, 0) + (PrintSync(x) + pad)) && c.Left() == 3 + |PrintSync(x) + pad|
    ensures c.Peek(1) == 0 && c.Skip(1) == c.Adv(1) && c.Adv(1).Peek(1) == 0 && c.Adv(1).Skip(1) == c.Adv(2)
    ensures c.Adv(2).Peek(1) == 0 && c.Adv(2).Skip(1) == c.Adv(3)
    ensures ScanExtension(c.Skip(1), rate) == SyncMeans(x, rate)
  {
    hide Cursor.Ahead, Cursor.Peek, ToBits, ScanExtension, SyncMeans, PrintSync, ReadExtension;
    var rest := PrintSync(x) + pad;
    ThreeFlags(c, rest);
    SyncRoundTrip(c.Adv(3), x, pad, rate);
    SyncStarts(x, pad);
    NoSyncBefore(c.Adv(1), rest[11..]);
    SyncLong(x);
    assert c.Adv(1).Skip(2) == c.Adv(3);
    assert SyncAt(c.Adv(1), 2);
    ScanIsFirst(c.Adv(1), rate, 2);
  }

  lemma ThreeFlags(c: Cursor, rest: Bits)
    requires c.Ahead(ToBits(3, 0) + rest)
    ensures c.Peek(1) == 0 && c.Skip(1) == c.Adv(1) && c.Adv(1).Peek(1) == 0 && c.Adv(1).Skip(1) == c.Adv(2)
    ensures c.Adv(2).Peek(1) == 0 && c.Adv(2).Skip(1) == c.Adv(3)
    ensures c.Adv(1).Ahead([false] + ([false] + rest)) && c.Adv(3).Ahead(rest)
  {
    hide Cursor.Ahead, Cursor.Peek, ToBits;
    var z := [false];
    ThreeZeroBits();
    FourParts(z, z, z, rest);
    AheadSplit(c, z, z + (z + rest));
    AheadSplit(c.Adv(1), z, z + rest);
    AheadSplit(c.Adv(2), z, rest);
    RoundTripSide.ReadBit(c, false);
    RoundTripSide.ReadBit(c.Adv(1), false);
    RoundTripSide.ReadBit(c.Adv(2), false);
  }

  lemma ThreeZeroBits()
    ensures ToBits(3, 0) == [false] + ([false] + [false])
  {
  }

  lemma FourParts(a: Bits, b: Bits, d: Bits, rest: Bits)
    ensures (a + (b + d)) + rest == a + (b + (d + rest))
  {
  }

  lemma SyncStarts(x: Sync, pad: Bits)
    ensures |PrintSync(x)| >= 17 && PrintSync(x) + pad == ToBits(11, 0x2b7) + (PrintSync(x) + pad)[11..]
  {
    hide ToBits;
  }

  lemma SyncLong(x: Sync)
    ensures |PrintSync(x)| >= 17
  {
    hide ToBits;
  }

  lemma LastBit(n: nat, v: nat)
    ensures ToBits(n + 1, v) == ToBits(n, v / 2) + [v % 2 == 1]
  {
  }

  lemma Ones()
    ensures ToBits(1, 1) == [true] && ToBits(2, 3) == [true, true]
  {
  }

  lemma SyncWord()
    ensures ToBits(11, 0x2b7) == ToBits(9, 0xad) + ToBits(2, 3)
    ensures ToBits(11, 0x2b7) == ToBits(10, 0x15b) + ToBits(1, 1)
  {
    hide ToBits;
    Ones();
    LastBit(10, 0x2b7);
    LastBit(9, 0x15b);
  }

  lemma {:induction false} LeadingZero(n: nat, v: nat)
    requires v < Pow2(n)
    ensures ToBits(n + 1, v) == [false] + ToBits(n, v)
  {
    if n > 0 {
      LeadingZero(n - 1, v / 2);
    }
  }

  lemma Ten()
    ensures Pow2(9) == 512 && Pow2(10) == 1024
  {
    AdtsHeader.SmallPowers();
    assert Pow2(7) == 128;
    assert Pow2(9) == 2 * Pow2(8) && Pow2(8) == 256;
  }

  /** Two zero bits in front of the sync word do not make an earlier one. */
  lemma NoSyncBefore(c: Cursor, rest: Bits)
    requires c.Ahead([false] + ([false] + (ToBits(11, 0x2b7) + rest)))
    ensures !SyncAt(c, 0) && !SyncAt(c, 1)
  {
    hide Cursor.Ahead, Cursor.Peek, ToBits;
    Sizes();
    Ten();
    SyncWord();
    var z := [false];
    LeadingZero(9, 0xad);
    LeadingZero(10, 0xad);
    LeadingZero(10, 0x15b);
    var word := ToBits(11, 0x2b7);
    Regrouped(z, z, ToBits(9, 0xad), ToBits(2, 3), rest);
    AdtsHeader.TakeField(c, 11, 0xad, ToBits(2, 3) + rest);
    AheadSplit(c, z, z + (word + rest));
    Regrouped([], z, ToBits(10, 0x15b), ToBits(1, 1), rest);
    assert [] + (z + ToBits(10, 0x15b)) == z + ToBits(10, 0x15b) && [] + (z + (word + rest)) == z + (word + rest);
    AdtsHeader.TakeField(c.Adv(1), 11, 0x15b, ToBits(1, 1) + rest);
    assert c.Skip(0) == c;
    assert c.Left() > 1 ==> c.Skip(1) == c.Adv(1);
  }

  lemma Regrouped(a: Bits, b: Bits, d: Bits, e: Bits, rest: Bits)
    ensures a + (b + ((d + e) + rest)) == (a + (b + d)) + (e + rest)
  {
  }

  /** Which descriptions are refused for their head alone, and as what. */
  lemma HeadRefused(c: Cursor, t: nat, srIndex: nat, chan: nat)
    requires t < 31 && srIndex < 15 && chan < 16 && !c.over
    requires c.Ahead(ToBits(5, t) + (ToBits(4, srIndex) + ToBits(4, chan)))
    ensures chan > 2 ==> ParseAsc(c) == Rejected(Unsupported)
    ensures chan <= 2 && t == AOT_SBR ==> ParseAsc(c) == Rejected(UnsupportedSBR)
    ensures chan <= 2 && t == AOT_PS ==> ParseAsc(c) == Rejected(UnsupportedPS)
    ensures chan <= 2 && t != AOT_SBR && t != AOT_PS && t != AOT_AAC_LC ==> ParseAsc(c) == Rejected(Unsupported)
    ensures chan <= 2 && t == AOT_AAC_LC && srIndex > 12 ==> ParseAsc(c) == Rejected(InvalidData)
  {
    hide Cursor.Ahead, Cursor.Peek, ToBits, AdtsHeader.SampleRates, ParseSpecific;
    Sizes();
    AdtsHeader.TakeField(c, 5, t, ToBits(4, srIndex) + ToBits(4, chan));
    AdtsHeader.TakeField(c.Adv(5), 4, srIndex, ToBits(4, chan));
    ReadField(c.Adv(9), 4, chan);
  }
}
