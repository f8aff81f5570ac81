/** The AudioSpecificConfig of a raw stream (section 1.6 of ISO/IEC 14496-3): the
    encoder's two bytes, the decoder's parser with its scan for an SBR or PS
    extension, and their round trip. */
module AudioConfig {
  import opened BitStrings
  import opened BitReader
  import opened AacParse
  import opened DecSession
  import AdtsHeader

  const AOT_AAC_LC: nat := 2
  const AOT_SBR: nat := 5
  const AOT_PS: nat := 29
  const AOT_ESCAPE: nat := 31

  datatype Asc = Rejected(err: Err) | Accepted(cfg: Config)

  // ----- parsing

  function ObjectType(c: Cursor): (nat, Cursor) {
    if c.Peek(5) == AOT_ESCAPE then (32 + c.Skip(5).Peek(6), c.Skip(5).Skip(6)) else (c.Peek(5), c.Skip(5))
  }

  datatype Rate = Rate(rate: nat, index: nat, c: Cursor)

  /** A rate by its index, or spelt out behind index 15. */
  function SampleRate(c: Cursor): (r: Rate)
    ensures r.index < 16 && (r.index != 15 ==> r.rate == AdtsHeader.SampleRates()[r.index])
  {
    AdtsHeader.PeekBound(c, 4);
    AdtsHeader.SmallPowers();
    var index := c.Peek(4);
    if index == 15 then Rate(c.Skip(4).Peek(24), 15, c.Skip(4).Skip(24))
    else Rate(AdtsHeader.SampleRates()[index], index, c.Skip(4))
  }

  datatype Extension = Extension(sbr: int, ps: int)

  /** What a sync extension says, -1 for what it leaves open. */
  function ReadExtension(c: Cursor, rate: nat): Extension {
    var (t, c1) := ObjectType(c.Skip(11));
    var flag, r := c1.Peek(1), SampleRate(c1.Skip(1));
    var sbr: int := if t != AOT_SBR then -1 else if flag == 1 && r.rate == rate then -1 else flag;
    var c2 := if t != AOT_SBR then c1 else if flag == 1 then r.c else c1.Skip(1);
    Extension(sbr, if c2.Left() > 11 && c2.Peek(11) == 0x548 then c2.Skip(11).Peek(1) else -1)
  }

  /** The first sync extension from c on, while more than 15 bits are left. */
  function ScanExtension(c: Cursor, rate: nat): Extension
    decreases c.Left()
  {
    if c.Left() <= 15 then Extension(-1, -1)
    else if c.Peek(11) == 0x2b7 then ReadExtension(c, rate)
    else ScanExtension(c.Skip(1), rate)
  }

  /** The part behind the channel configuration. */
  function ParseSpecific(c: Cursor, index: nat, rate: nat, chan: nat): Asc {
    var x := ScanExtension(c.Skip(1), rate);
    var c1 := c.Skip(1);
    var c2 := if c1.Peek(1) != 0 then c1.Skip(1).Skip(14) else c1.Skip(1);
    var c3 := if c2.Peek(1) != 0 then c2.Skip(1).Skip(1) else c2.Skip(1);
    var ps := if chan > 1 then 0 else if x.sbr == 1 && x.ps == -1 then 1 else x.ps;
    if chan == 0 then Rejected(Unsupported)
    else if c3.over then Rejected(InvalidData)
    else if ps == 1 then Rejected(UnsupportedPS)
    else if x.sbr == 1 then Rejected(UnsupportedSBR)
    else if c.Peek(1) != 0 then Rejected(Unsupported)
    else Accepted(Config(AOT_AAC_LC, index, rate, chan, x.sbr, ps, false))
  }

  function ParseAsc(c: Cursor): Asc {
    var (t, c1) := ObjectType(c);
    var r := SampleRate(c1);
    var chan, c2 := r.c.Peek(4), r.c.Skip(4);
    if c2.over then Rejected(InvalidData)
    else if chan > 2 then Rejected(Unsupported)
    else if t == AOT_SBR then Rejected(UnsupportedSBR)
    else if t == AOT_PS then Rejected(UnsupportedPS)
    else if t != AOT_AAC_LC then Rejected(Unsupported)
    else if r.index > 12 then Rejected(InvalidData)
    else ParseSpecific(c2, r.index, r.rate, chan)
  }

  function AscOf(asc: seq<nat>): Asc {
    ParseAsc(Cursor(BytesBits(asc), 0, false))
  }

  /** Whatever is accepted is a configuration the decoder takes. */
  lemma AcceptedIsConfig(c: Cursor)
    requires ParseAsc(c).Accepted?
    ensures var cfg := ParseAsc(c).cfg;
            && CheckConfig(cfg).None? && cfg.sbr != 1 && cfg.ps != 1
            && cfg.sampleRate == AdtsHeader.SampleRates()[cfg.samplingIndex]
  {
    hide ScanExtension, Cursor.Peek, Cursor.Skip, ObjectType, AdtsHeader.SampleRates;
  }

  method ReadObjectType(r: Reader) returns (t: nat)
    requires r.Valid()
    modifies r`pos, r`overread
    ensures r.Valid() && (t, r.Cur()) == ObjectType(old(r.Cur()))
  {
    hide Cursor.Peek, Cursor.Skip, BytesBits;
    t := r.Read(5);
    if t == AOT_ESCAPE {
      var more := r.Read(6);
      t := 32 + more;
    }
  }

  method ReadSampleRate(r: Reader) returns (rate: nat, index: nat)
    requires r.Valid()
    modifies r`pos, r`overread
    ensures r.Valid() && Rate(rate, index, r.Cur()) == SampleRate(old(r.Cur()))
  {
    hide Cursor.Peek, Cursor.Skip, BytesBits;
    AdtsHeader.PeekBound(r.Cur(), 4);
    AdtsHeader.SmallPowers();
    index := r.Read(4);
    if index == 15 {
      rate := r.Read(24);
    } else {
      rate := AdtsHeader.SampleRates()[index];
    }
  }

  /** The scan on a reader of its own. */
  method ScanReader(r: Reader, rate: nat) returns (sbr: int, ps: int)
    requires r.Valid()
    modifies r`pos, r`overread
    ensures r.Valid() && Extension(sbr, ps) == ScanExtension(old(r.Cur()), rate)
  {
    hide Cursor.Peek, BytesBits, ObjectType, SampleRate;
    sbr, ps := -1, -1;
    while r.size - r.pos > 15
      invariant r.Valid() && sbr == -1 && ps == -1
      invariant ScanExtension(r.Cur(), rate) == ScanExtension(old(r.Cur()), rate)
      decreases r.size - r.pos
    {
      var head := r.Peek(11);
      if head == 0x2b7 {
        r.Skip(11);
        var t := ReadObjectType(r);
        if t == AOT_SBR {
          sbr := r.Read(1);
          if sbr == 1 {
            var extRate, _ := ReadSampleRate(r);
            if extRate == rate {
              sbr := -1;
            }
          }
        }
        if r.size - r.pos > 11 {
          var tail := r.Read(11);
          if tail == 0x548 {
            ps := r.Read(1);
          }
        }
        return;
      }
      r.Skip(1);
    }
  }

  /** Parses the configuration in two passes: the header and the scan on one
      reader, the rest on a second one from behind the header. */
  method ParseAscBytes(asc: seq<nat>) returns (a: Asc)
    requires IsBytes(asc)
    ensures a == ParseAsc(Cursor(BytesBits(asc), 0, false))
  {
    hide Cursor.Peek, BytesBits, ObjectType, SampleRate, ScanExtension;
    var r := new Reader(asc);
    var t := ReadObjectType(r);
    var rate, index := ReadSampleRate(r);
    var chan := r.Read(4);
    if r.overread {
      return Rejected(InvalidData);
    }
    if chan > 2 {
      return Rejected(Unsupported);
    }
    if t == AOT_SBR || t == AOT_PS {
      return Rejected(if t == AOT_PS then UnsupportedPS else UnsupportedSBR);
    }
    if t != AOT_AAC_LC {
      return Rejected(Unsupported);
    }
    if index > 12 {
      return Rejected(InvalidData);
    }
    a := ParseRest(asc, r, index, rate, chan);
  }

  method ParseRest(asc: seq<nat>, r: Reader, index: nat, rate: nat, chan: nat) returns (a: Asc)
    requires IsBytes(asc) && r.Valid() && r.Cur().s == BytesBits(asc) && !r.overread
    modifies r`pos, r`overread
    ensures a == ParseSpecific(old(r.Cur()), index, rate, chan)
  {
    hide Cursor.Peek, BytesBits, ObjectType, SampleRate, ScanExtension;
    var specific := r.pos;
    r.Skip(1);
    var sbr, ps := ScanReader(r, rate);
    var r2 := new Reader(asc);
    r2.Skip(specific);
    var short := r2.Read(1);
    var core := r2.Read(1);
    if core != 0 {
      r2.Skip(14);
    }
    var ext := r2.Read(1);
    if chan == 0 {
      return Rejected(Unsupported);
    }
    if chan > 1 {
      ps := 0;
    } else if sbr == 1 && ps == -1 {
      ps := 1;
    }
    if ext != 0 {
      r2.Skip(1);
    }
    if r2.overread {
      return Rejected(InvalidData);
    }
    if sbr == 1 || ps == 1 {
      return Rejected(if ps == 1 then UnsupportedPS else UnsupportedSBR);
    }
    if short != 0 {
      return Rejected(Unsupported);
    }
    a := Accepted(Config(AOT_AAC_LC, index, rate, chan, sbr, ps, false));
  }

  // ----- writing

  /** The configuration of an encoder: object type, rate index, channels, and three
      zero bits. */
  function AscBytes(srIndex: nat, chan: nat): (b: seq<nat>)
    ensures |b| == 2
  {
    var v := 2 * 2048 + srIndex * 128 + chan * 8;
    [v / 256 % 256, v % 256]
  }

  lemma AscIsFields(srIndex: nat, chan: nat)
    requires srIndex < 16 && chan < 16
    ensures IsBytes(AscBytes(srIndex, chan))
    ensures BytesBits(AscBytes(srIndex, chan)) == ToBits(5, 2) + (ToBits(4, srIndex) + (ToBits(4, chan) + ToBits(3, 0)))
  {
    hide ToBits, BytesBits;
    var v := 2 * 2048 + srIndex * 128 + chan * 8;
    assert v < 65536 && v / 256 % 256 == v / 256;
    TwoBytes(v);
    SixteenBits(srIndex, chan);
  }

  lemma SixteenBits(srIndex: nat, chan: nat)
    requires srIndex < 16 && chan < 16
    ensures ToBits(16, 2 * 2048 + (srIndex * 128 + chan * 8))
            == ToBits(5, 2) + (ToBits(4, srIndex) + (ToBits(4, chan) + ToBits(3, 0)))
  {
    hide ToBits, Shl, Pow2;
    Powers();
    ShlTimes(chan, 3);
    ShlTimes(srIndex, 7);
    ShlTimes(2, 11);
    AdtsHeader.Join(4, 3, chan, 0);
    AdtsHeader.Join(4, 7, srIndex, chan * 8);
    AdtsHeader.Join(5, 11, 2, srIndex * 128 + chan * 8);
  }

  lemma Powers()
    ensures Pow2(3) == 8 && Pow2(7) == 128 && Pow2(8) == 256 && Pow2(11) == 2048
  {
    AdtsHeader.SmallPowers();
    assert Pow2(8) == 256;
  }

  lemma TwoBytes(v: nat)
    requires v < 65536
    ensures BytesBits([v / 256, v % 256]) == ToBits(16, v)
  {
    hide ToBits, Shl, BytesBits;
    var b := [v / 256, v % 256];
    AdtsHeader.BytesBitsEmpty();
    assert b[..0] == [] && b[..2] == b;
    AdtsHeader.BytesBitsNext(b, 0);
    AdtsHeader.BytesBitsNext(b, 1);
    assert Pow2(4) == 16 && Pow2(8) == 256;
    ShlTimes(v / 256, 8);
    AdtsHeader.Join(8, 8, v / 256, v % 256);
    assert [] + ToBits(8, b[0]) == ToBits(8, b[0]);
  }

  /** The decoder accepts the encoder's configuration and reads its rate and its
      channels. */
  lemma AscRoundTrip(srIndex: nat, chan: nat)
    requires srIndex < 13 && 1 <= chan <= 2
    ensures ParseAsc(Cursor(BytesBits(AscBytes(srIndex, chan)), 0, false))
            == Accepted(Config(AOT_AAC_LC, srIndex, AdtsHeader.SampleRates()[srIndex], chan, -1,
                               if chan == 2 then 0 else -1, false))
  {
    hide ToBits, BytesBits, Cursor.Peek, AdtsHeader.SampleRates, AscBytes;
    AscIsFields(srIndex, chan);
    AdtsHeader.SmallPowers();
    var c := Cursor(BytesBits(AscBytes(srIndex, chan)), 0, false);
    var t2 := ToBits(4, chan) + ToBits(3, 0);
    var t1 := ToBits(4, srIndex) + t2;
    assert c.Ahead(ToBits(5, 2) + t1);
    AdtsHeader.TakeField(c, 5, 2, t1);
    AdtsHeader.TakeField(c.Adv(5), 4, srIndex, t2);
    AdtsHeader.TakeField(c.Adv(9), 4, chan, ToBits(3, 0));
    ThreeZeros(c.Adv(13));
  }

  lemma ThreeZeros(c: Cursor)
    requires c.Ahead(ToBits(3, 0)) && c.pos + 3 == |c.s|
    ensures c.Peek(1) == 0 && c.Skip(1).Peek(1) == 0 && c.Skip(1).Skip(1).Peek(1) == 0
  {
    assert ToBits(3, 0) == ToBits(1, 0) + (ToBits(1, 0) + ToBits(1, 0));
    hide ToBits, Cursor.Peek;
    AdtsHeader.SmallPowers();
    AdtsHeader.TakeField(c, 1, 0, ToBits(1, 0) + ToBits(1, 0));
    AdtsHeader.TakeField(c.Adv(1), 1, 0, ToBits(1, 0));
    ReadField(c.Adv(2), 1, 0);
  }
}
