/** Parsing what the encoder writes consumes exactly those bits and recovers every
    coding decision and every quantized coefficient: for a channel, and for the
    whole raw_data_block of a mono or stereo frame. */
module RoundTrip {
  import opened BitStrings
  import opened BitReader
  import opened AacSyntax
  import opened AacParse
  import opened AacPrint
  import opened AacFrame
  import opened RoundTripSide
  import opened RoundTripSpectrum

  /** The symbols a written channel stands for. */
  ghost function Expected(t: Tables, ch: Channel): Symbols
    requires WellFormed(t, ch)
  {
    var is8 := if ch.ics.Short() then 1 else 0;
    var js := Jobs(GeoOf(t, ch.ics), 0, 0, 0);
    assert forall k :: 0 <= k < |js| ==> GoodJob(js[k], |ch.bt|);
    Symbols(ch.ics, ch.bt, Sfos(ch.bt, ch.sf, 0), if ch.tnsPresent then Some(ExpectTns(t, ch.tns, is8)) else None,
            Keep(ch.bt, js, ch.q, seq(1024, _ => 0)))
  }

  lemma ToolsRoundTrip(t: Tables, ch: Channel, c: Cursor)
    requires WellFormed(t, ch) && !c.over
    requires c.Ahead([false] + [ch.tnsPresent]
                     + (if ch.tnsPresent then PrintTns(ch.tns, if ch.ics.Short() then 1 else 0) else []) + [false])
    ensures ParseTools(t, c, ch.ics)
            == Good(Tools([], Expected(t, ch).tns),
                    c.Adv(3 + |if ch.tnsPresent then PrintTns(ch.tns, if ch.ics.Short() then 1 else 0) else []|))
  {
    hide Tables.Valid, Geo.Valid, Cursor.Ahead, Cursor.Peek, PrintTns, ParseTns, ExpectTns, Keep, Sfos, Jobs, LegalSfs,
         SectionsFit, AllCarried;
    var is8 := if ch.ics.Short() then 1 else 0;
    var w := if ch.tnsPresent then PrintTns(ch.tns, is8) else [];
    AheadSplit(c, [false] + [ch.tnsPresent] + w, [false]);
    AheadSplit(c, [false] + [ch.tnsPresent], w);
    AheadSplit(c, [false], [ch.tnsPresent]);
    ReadBit(c, false);
    ReadBit(c.Adv(1), ch.tnsPresent);
    if ch.tnsPresent {
      TnsRoundTrip(t, c.Adv(2), ch.tns, is8, []);
      assert [] + ExpectTns(t, ch.tns, is8) == ExpectTns(t, ch.tns, is8);
    }
    ReadBit(c.Adv(2 + |w|), false);
  }

  ghost function PrintTools(ch: Channel): Bits
  {
    [false] + [ch.tnsPresent] + (if ch.tnsPresent then PrintTns(ch.tns, if ch.ics.Short() then 1 else 0) else [])
        + [false]
  }

  ghost function PrintSide(t: Tables, ch: Channel): Bits
    requires WellFormed(t, ch)
  {
    PrintBandTypes(ch.sections, RunBits(ch.ics.Short())) + PrintSfs(t, ch.bt, ch.sf, 0, StartChains(ch.gain))
        + PrintTools(ch)
  }

  lemma SideRoundTrip(t: Tables, ch: Channel, c: Cursor)
    requires WellFormed(t, ch) && c.Valid() && !c.over && c.Ahead(PrintSide(t, ch))
    ensures ParseSide(t, c, ch.gain, ch.ics)
            == Good(Side(ch.bt, Expected(t, ch).sfo, Tools([], Expected(t, ch).tns)), c.Adv(|PrintSide(t, ch)|))
  {
    hide Tables.Valid, Geo.Valid, Cursor.Ahead, Cursor.Peek, PrintBandTypes, PrintSfs, PrintTools, ParseBandTypes,
         ParseSfs, ParseTools, Keep, Jobs, ExpectTns, LegalTns, AllCarried, Expand, GoodSection, Sfos, ExpandAll;
    var runBits := RunBits(ch.ics.Short());
    var a, b, d := PrintBandTypes(ch.sections, runBits), PrintSfs(t, ch.bt, ch.sf, 0, StartChains(ch.gain)),
        PrintTools(ch);
    AheadSplit(c, a + b, d);
    AheadSplit(c, a, b);
    BandTypesRoundTrip(c, runBits, ch.sections, ch.ics.maxSfb, []);
    assert [] + ch.bt == ch.bt;
    SfsRoundTrip(t, c.Adv(|a|), ch.bt, ch.sf, 0, StartChains(ch.gain), []);
    assert [] + Sfos(ch.bt, ch.sf, 0) == Sfos(ch.bt, ch.sf, 0);
    ToolsIs(ch);
    ToolsRoundTrip(t, ch, c.Adv(|a + b|));
  }

  lemma ToolsIs(ch: Channel)
    ensures PrintTools(ch) == [false] + [ch.tnsPresent]
            + (if ch.tnsPresent then PrintTns(ch.tns, if ch.ics.Short() then 1 else 0) else []) + [false]
    ensures |PrintTools(ch)| == 3 + |if ch.tnsPresent then PrintTns(ch.tns, if ch.ics.Short() then 1 else 0) else []|
  {
  }

  lemma CoefsRoundTrip(t: Tables, ch: Channel, c: Cursor)
    requires WellFormed(t, ch) && c.Ahead(PrintSpectrum(t, ch.bt, Jobs(GeoOf(t, ch.ics), 0, 0, 0), ch.q))
    ensures ParseSpectrum(t, c, ch.bt, Jobs(GeoOf(t, ch.ics), 0, 0, 0), seq(1024, _ => 0))
            == Good(Expected(t, ch).q, c.Adv(|PrintSpectrum(t, ch.bt, Jobs(GeoOf(t, ch.ics), 0, 0, 0), ch.q)|))
  {
    hide Tables.Valid, Geo.Valid, Cursor.Ahead, PrintSpectrum, ParseSpectrum, Keep, Jobs, ExpectTns, LegalTns, LegalSfs,
         SectionsFit, Sfos;
    SpectrumRoundTrip(t, ch.bt, Jobs(GeoOf(t, ch.ics), 0, 0, 0), ch.q, c, seq(1024, _ => 0));
  }

  lemma PrintChannelParts(t: Tables, ch: Channel, common: bool)
    requires WellFormed(t, ch)
    ensures PrintChannel(t, ch, common) ==
              ToBits(8, ch.gain) + (if common then [] else PrintIcs(ch.ics)) + PrintSide(t, ch)
              + PrintSpectrum(t, ch.bt, Jobs(GeoOf(t, ch.ics), 0, 0, 0), ch.q)
  {
    hide WellFormed, PrintIcs, PrintBandTypes, PrintSfs, PrintSpectrum, PrintTns, ToBits, Jobs, RunBits;
  }

  lemma NoPulses(q: seq<int>, edges: seq<nat>, bt: seq<nat>, sf: seq<int>)
    requires |bt| == |sf| && |edges| >= 2 && edges[|edges| - 1] <= |q|
    ensures ApplyPulses(q, [], 0, 0, edges, bt, sf) == q
  {
  }

  /** A channel comes back, and exactly its bits are consumed. */
  lemma ChannelRoundTrip(t: Tables, ch: Channel, common: Option<Ics>, c: Cursor)
    requires WellFormed(t, ch) && c.Valid() && !c.over && (common.Some? ==> common.value == ch.ics)
    requires c.Ahead(PrintChannel(t, ch, common.Some?))
    ensures GeoOf(t, ch.ics).Valid()
    ensures ParseChannel(t, c, common) == Good(Expected(t, ch), c.Adv(|PrintChannel(t, ch, common.Some?)|))
  {
    hide Tables.Valid, Geo.Valid, Cursor.Ahead, Cursor.Peek, PrintIcs, PrintSide, PrintSpectrum, PrintChannel,
         ParseSide, ParseIcs, ParseSpectrum, Keep, Jobs, ExpectTns, LegalTns, LegalSfs, SectionsFit, AllCarried, Sfos,
         ToBits, Geo.BandsFrom, ApplyPulses, SfsOf;
    PrintChannelParts(t, ch, common.Some?);
    var a, i := ToBits(8, ch.gain), if common.Some? then [] else PrintIcs(ch.ics);
    var s, q := PrintSide(t, ch), PrintSpectrum(t, ch.bt, Jobs(GeoOf(t, ch.ics), 0, 0, 0), ch.q);
    AheadSplit(c, a + i + s, q);
    AheadSplit(c, a + i, s);
    AheadSplit(c, a, i);
    assert Pow2(8) == 256;
    ReadField(c, 8, ch.gain);
    if common.None? {
      IcsRoundTrip(t, ch.ics, c.Adv(8));
    }
    SideRoundTrip(t, ch, c.Adv(|a + i|));
    CoefsRoundTrip(t, ch, c.Adv(|a + i + s|));
    EdgesEnd(t);
    SfosLength(ch.bt, ch.sf, 0);
    NoPulses(Expected(t, ch).q, t.longEdges, ch.bt, SfsOf(ch.bt, Expected(t, ch).sfo));
  }

  lemma {:induction false} SfosLength(bt: seq<nat>, sf: seq<int>, i: nat)
    requires |bt| == |sf| && i <= |bt|
    ensures |Sfos(bt, sf, i)| == |bt| - i
    decreases |bt| - i
  {
    if i < |bt| {
      SfosLength(bt, sf, i + 1);
    }
  }

  lemma EdgesEnd(t: Tables)
    requires t.Valid()
    ensures |t.longEdges| >= 2 && t.longEdges[|t.longEdges| - 1] == 1024
  {
  }

  // ----- coefficients after the round trip

  /** x lies in a band that carries coefficients. */
  ghost predicate Coded(bt: seq<nat>, js: seq<Job>, x: nat) {
    exists k :: 0 <= k < |js| && js[k].idx < |bt| && Tonal(bt[js[k].idx]) && js[k].base <= x < js[k].base + js[k].len
  }

  lemma {:induction false} KeepAt(bt: seq<nat>, js: seq<Job>, q: seq<int>, acc: seq<int>, x: nat)
    requires |q| == |acc| == 1024 && x < 1024
    requires forall k :: 0 <= k < |js| ==> js[k].idx < |bt| && js[k].base + js[k].len <= 1024
    ensures Keep(bt, js, q, acc)[x] == if Coded(bt, js, x) then q[x] else acc[x]
    decreases |js|
  {
    if |js| > 0 {
      var j := js[0];
      var acc' := if Tonal(bt[j.idx]) then Put(acc, j.base, Slice(q, j)) else acc;
      KeepAt(bt, js[1..], q, acc', x);
      CodedTail(bt, js, x);
    }
  }

  lemma CodedTail(bt: seq<nat>, js: seq<Job>, x: nat)
    requires |js| > 0 && js[0].idx < |bt|
    ensures Coded(bt, js, x)
            <==> (Tonal(bt[js[0].idx]) && js[0].base <= x < js[0].base + js[0].len) || Coded(bt, js[1..], x)
  {
    if Coded(bt, js[1..], x) {
      var k :| 0 <= k < |js[1..]| && js[1..][k].idx < |bt| && Tonal(bt[js[1..][k].idx])
          && js[1..][k].base <= x < js[1..][k].base + js[1..][k].len;
      assert js[k + 1] == js[1..][k];
    }
    if Coded(bt, js, x) {
      var k :| 0 <= k < |js| && js[k].idx < |bt| && Tonal(bt[js[k].idx]) && js[k].base <= x < js[k].base + js[k].len;
      if k > 0 {
        assert js[1..][k - 1] == js[k];
      }
    }
  }

  /** Every coefficient of a coded band comes back with its sign; all others are
      decoded as zero. */
  lemma CoefficientsComeBack(t: Tables, ch: Channel, x: nat)
    requires WellFormed(t, ch) && x < 1024
    ensures Expected(t, ch).q[x] == if Coded(ch.bt, Jobs(GeoOf(t, ch.ics), 0, 0, 0), x) then ch.q[x] else 0
  {
    hide Tables.Valid, Geo.Valid, Jobs, Keep, ExpectTns, LegalTns, LegalSfs, SectionsFit, Sfos;
    var js := Jobs(GeoOf(t, ch.ics), 0, 0, 0);
    assert forall k :: 0 <= k < |js| ==> GoodJob(js[k], |ch.bt|);
    KeepAt(ch.bt, js, ch.q, seq(1024, _ => 0), x);
  }

  // ----- the raw_data_block

  function MaskBits(mask: seq<bool>): (r: seq<nat>)
    ensures |r| == |mask|
  {
    seq(|mask|, i requires 0 <= i < |mask| => if mask[i] then 1 else 0)
  }

  lemma {:induction false} MaskRoundTrip(c: Cursor, mask: seq<bool>, k: nat, acc: seq<nat>)
    requires k <= |mask| && c.Ahead(mask[k..])
    ensures ParseMask(c, |mask| - k, acc) == (acc + MaskBits(mask)[k..], c.Adv(|mask| - k))
    decreases |mask| - k
  {
    if k < |mask| {
      assert mask[k..] == [mask[k]] + mask[k + 1..];
      AheadSplit(c, [mask[k]], mask[k + 1..]);
      ReadBit(c, mask[k]);
      MaskRoundTrip(c.Adv(1), mask, k + 1, acc + [MaskBits(mask)[k]]);
      assert acc + [MaskBits(mask)[k]] + MaskBits(mask)[k + 1..] == acc + MaskBits(mask)[k..];
    } else {
      assert acc + MaskBits(mask)[k..] == acc;
    }
  }

  /** The M/S information a frame stands for: the mask as written in mode 1, all
      bands in mode 2. */
  function ExpectMs(ms: nat, mask: seq<bool>): Ms {
    Ms(ms, if ms == 1 then MaskBits(mask) else if ms == 2 then Fill(1, |mask|) else [])
  }

  lemma MsRoundTrip(c: Cursor, ms: nat, mask: seq<bool>)
    requires ms < 3 && c.Ahead(PrintMs(ms, mask))
    ensures ParseMs(c, |mask|) == Good(ExpectMs(ms, mask), c.Adv(|PrintMs(ms, mask)|))
  {
    hide Cursor.Ahead, Cursor.Peek, ParseMask, MaskBits, ToBits;
    assert Pow2(2) == 4;
    AheadSplit(c, ToBits(2, ms), if ms == 1 then mask else []);
    ReadField(c, 2, ms);
    if ms == 1 {
      assert mask[0..] == mask;
      MaskRoundTrip(c.Adv(2), mask, 0, []);
      assert [] + MaskBits(mask)[0..] == MaskBits(mask);
    }
  }

  ghost function ExpectedElement(t: Tables, f: Frame): Element
    requires WellFormedFrame(t, f)
  {
    match f
    case FrameMono(ch) => Mono(Expected(t, ch))
    case FramePair(common, ms, mask, ch0, ch1) =>
      var m := if common then ExpectMs(ms, mask) else Ms(0, []);
      Pair(common, m.mode, m.mask, Expected(t, ch0), Expected(t, ch1))
  }

  lemma TwoRoundTrip(t: Tables, c: Cursor, ch0: Channel, ch1: Channel, common: Option<Ics>, ms: Ms)
    requires WellFormed(t, ch0) && WellFormed(t, ch1) && c.Valid() && !c.over
    requires common.Some? ==> common.value == ch0.ics == ch1.ics
    requires c.Ahead(PrintChannel(t, ch0, common.Some?) + PrintChannel(t, ch1, common.Some?))
    ensures common.Some? ==> GeoOf(t, common.value).Valid()
    ensures ParseTwo(t, c, common, ms)
            == Good(Pair(common.Some?, ms.mode, ms.mask, Expected(t, ch0), Expected(t, ch1)),
                    c.Adv(|PrintChannel(t, ch0, common.Some?) + PrintChannel(t, ch1, common.Some?)|))
  {
    hide WellFormed, Tables.Valid, Geo.Valid, Cursor.Ahead, PrintChannel, ParseChannel, Expected;
    ValidTables(t, ch0);
    WellFormedPrints(t, ch0);
    WellFormedPrints(t, ch1);
    var a, b := PrintChannel(t, ch0, common.Some?), PrintChannel(t, ch1, common.Some?);
    AheadSplit(c, a, b);
    AheadFits(c, a);
    ChannelRoundTrip(t, ch0, common, c);
    ChannelRoundTrip(t, ch1, common, c.Adv(|a|));
  }

  lemma ValidTables(t: Tables, ch: Channel)
    requires WellFormed(t, ch)
    ensures t.Valid()
  {
  }

  lemma AheadFits(c: Cursor, a: Bits)
    requires c.Ahead(a)
    ensures c.Adv(|a|).Valid()
  {
  }

  lemma PairRoundTrip(t: Tables, c: Cursor, f: Frame)
    requires f.FramePair? && WellFormedFrame(t, f) && t.Valid() && c.Valid() && !c.over && c.Ahead(PrintElement(t, f))
    ensures ParsePair(t, c) == Good(ExpectedElement(t, f), c.Adv(|PrintElement(t, f)|))
  {
    hide WellFormed, Tables.Valid, Geo.Valid, Cursor.Ahead, Cursor.Peek, PrintChannel, PrintIcs, PrintMs, ParseTwo,
         ParseIcs, ParseMs, Expected, ExpectMs, Geo.BandsFrom;
    WellFormedPrints(t, f.ch0);
    WellFormedPrints(t, f.ch1);
    var a, b := PrintChannel(t, f.ch0, f.common), PrintChannel(t, f.ch1, f.common);
    var i, m := if f.common then PrintIcs(f.ch0.ics) else [], if f.common then PrintMs(f.ms, f.mask) else [];
    assert PrintElement(t, f) == [f.common] + ((i + m) + (a + b));
    AheadSplit(c, [f.common], (i + m) + (a + b));
    AheadSplit(c.Adv(1), i + m, a + b);
    ReadBit(c, f.common);
    AheadFits(c, [f.common]);
    AheadFits(c.Adv(1), i + m);
    if f.common {
      AheadSplit(c.Adv(1), i, m);
      AheadFits(c.Adv(1), i);
      WellFormedHasIcs(t, f.ch0);
      IcsRoundTrip(t, f.ch0.ics, c.Adv(1));
      MsRoundTrip(c.Adv(1 + |i|), f.ms, f.mask);
      TwoRoundTrip(t, c.Adv(1 + |i + m|), f.ch0, f.ch1, Some(f.ch0.ics), ExpectMs(f.ms, f.mask));
    } else {
      TwoRoundTrip(t, c.Adv(1 + |i + m|), f.ch0, f.ch1, None, Ms(0, []));
    }
  }

  lemma WellFormedHasIcs(t: Tables, ch: Channel)
    requires WellFormed(t, ch)
    ensures WellFormedIcs(t, ch.ics)
  {
  }

  lemma ElementRoundTrip(t: Tables, c: Cursor, f: Frame)
    requires WellFormedFrame(t, f) && t.Valid() && c.Valid() && !c.over && c.Ahead(PrintElement(t, f))
    ensures ParseElement(t, if f.FrameMono? then 1 else 2, c, Tag(f), 0, None)
            == Good(Some(ExpectedElement(t, f)), c.Adv(|PrintElement(t, f)|))
  {
    hide WellFormed, Tables.Valid, Cursor.Ahead, PrintChannel, ParseChannel, ParsePair, Expected;
    if f.FrameMono? {
      ChannelRoundTrip(t, f.ch, None, c);
    } else {
      PairRoundTrip(t, c, f);
    }
  }

  /** The whole frame comes back: whatever follows the written bits, the element
      loop stops exactly behind them with the frame's element. */
  lemma FrameRoundTrip(t: Tables, c: Cursor, f: Frame)
    requires WellFormedFrame(t, f) && t.Valid() && c.Valid() && !c.over && c.Ahead(PrintFrame(t, f))
    ensures ParseBlock(t, if f.FrameMono? then 1 else 2, c, None)
            == Good(Some(ExpectedElement(t, f)), c.Adv(|PrintFrame(t, f)|))
  {
    hide WellFormed, WellFormedFrame, Tables.Valid, Cursor.Ahead, Cursor.Peek, PrintElement, ParseElement,
         ExpectedElement, ToBits;
    assert Pow2(3) == 8 && Pow2(4) == 16;
    var a, b, e, d := ToBits(3, Tag(f)), ToBits(4, 0), PrintElement(t, f), ToBits(3, TYPE_END);
    AheadSplit(c, a + b + e, d);
    AheadSplit(c, a + b, e);
    AheadSplit(c, a, b);
    AheadFits(c, a + b);
    ReadField(c, 3, Tag(f));
    ReadField(c.Adv(3), 4, 0);
    ElementRoundTrip(t, c.Adv(7), f);
    AheadFits(c.Adv(7 + |e|), d);
    ReadField(c.Adv(7 + |e|), 3, TYPE_END);
    EndOfBlock(t, if f.FrameMono? then 1 else 2, c.Adv(7 + |e|), Some(ExpectedElement(t, f)));
  }

  lemma EndOfBlock(t: Tables, channels: nat, c: Cursor, found: Option<Element>)
    requires t.Valid() && c.Valid() && c.Peek(3) == TYPE_END && c.Skip(3) == c.Adv(3) && !c.over
    ensures ParseBlock(t, channels, c, found) == Good(found, c.Adv(3))
  {
  }
}
