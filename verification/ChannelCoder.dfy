/** Writing one channel as the encoder does: the special scalefactors and the
    sections are derived on the way, and the bits are exactly those of a
    well-formed channel, so that the decoder reads it back. */
module ChannelCoder {
  import opened BitStrings
  import opened BitWriter
  import opened AacSyntax
  import opened AacParse
  import opened AacPrint
  import opened BandWalk
  import opened SectionCoder
  import opened ScalefactorChain
  import opened SpecialBands
  import opened LegalChannel
  import opened BandInfoCoder
  import SideCoder
  import TnsCoder
  import opened SpectrumCoder

  /** A channel as the coding decisions leave it, before it is written. */
  datatype Decided = Decided(seq0: nat, kb: nat, maxSfb: nat, numSwb: nat, n: nat, gl: seq<nat>, sizes: seq<nat>,
                             b: Bands,
                             tnsPresent: bool, tns: seq<seq<TnsFilter>>, q: seq<int>)
  {
    ghost predicate Laid() {
      && |gl| == 8 && (n == 1 || n == 8) && Tiles(gl, 0, n) && b.Sized() && |q| == 1024
      && maxSfb <= numSwb <= (if n == 1 then 51 else 15)
      && seq0 < 4 && kb <= 1 && (seq0 == EIGHT_SHORT <==> n == 8)
    }

    function Ics(): Ics
      requires n <= |gl| && Tiles(gl, 0, n)
    {
      AacParse.Ics(seq0, kb, maxSfb, Groups(gl, 0, n))
    }

    function All(): (s: seq<nat>)
      requires n <= |gl| && Tiles(gl, 0, n)
    {
      Slots(gl, 0, n, numSwb)
    }

    /** The slots of the transmitted bands. */
    function Sent(): (s: seq<nat>)
      requires n <= |gl| && Tiles(gl, 0, n)
    {
      Slots(gl, 0, n, maxSfb)
    }

    ghost function Sectioning(costs: nat -> seq<seq<nat>>): Arrays {
      Arrays(n != 1, b.z, b.bt, sizes, maxSfb, gl, n, costs)
    }
  }

  /** What the writer takes from outside: code tables, the bit costs the section
      search is given, and the stereo and noise levels the searches have found. */
  datatype Given = Given(t: Tables, costs: nat -> seq<seq<nat>>, isLevel: seq<int>, pnsLevel: seq<int>)

  ghost function Derived(g: Given, d: Decided): (q: Bands)
    requires d.Laid() && |g.isLevel| == |g.pnsLevel| == 128 && InArray(d.All())
    ensures q.Sized()
  {
    Special(d.b, d.All(), g.isLevel, g.pnsLevel)
  }

  /** The layout and the inputs of the searches are proper. */
  ghost predicate Proper(g: Given, d: Decided) {
    && g.t.Valid() && d.Laid() && |g.isLevel| == |g.pnsLevel| == 128
    && SizesMatch(d.sizes, g.t.Edges(d.seq0 == EIGHT_SHORT), d.maxSfb)
    && d.Sectioning(g.costs).Laid() && d.Sectioning(g.costs).GroupsValid(0)
    && InArray(d.All()) && InArray(d.Sent())
    && (d.tnsPresent ==> LegalTns(d.tns, if d.seq0 == EIGHT_SHORT then 1 else 0))
  }

  /** The codebook each coded band starts from carries its coefficients. */
  ghost predicate CarriedAtStart(b: Bands, slots: seq<nat>, js: seq<Job>, q: seq<int>)
    requires b.Sized() && InArray(slots) && |q| == 1024 && GoodJobs(js, |slots|)
  {
    forall k: nat :: k < |js| ==> JobCarried(b, slots, js[k], q)
  }

  ghost predicate JobCarried(b: Bands, slots: seq<nat>, j: Job, q: seq<int>)
    requires b.Sized() && InArray(slots) && |q| == 1024 && GoodJob(j, |slots|)
  {
    var s := slots[j.idx];
    !b.z[s] && Tonal(b.bt[s]) ==> CarriesAll(b.bt[s], Slice(q, j))
  }

  /** What is needed of a channel before it can be written. */
  ghost predicate Prepared(g: Given, d: Decided) {
    && Proper(g, d)
    && NormalReady(d.b, d.All()) && TailsZero(d.b.z, d.gl, 0, d.n, d.maxSfb, d.numSwb)
    && GeoOf(g.t, d.Ics()).Valid()
    && GoodJobs(Jobs(GeoOf(g.t, d.Ics()), 0, 0, 0), |d.Sent()|)
    && CarriedAtStart(d.b, d.Sent(), Jobs(GeoOf(g.t, d.Ics()), 0, 0, 0), d.q)
  }

  /** The same, and the first noise band's nine bits hold its delta. */
  ghost predicate Ready(g: Given, d: Decided) {
    Prepared(g, d) && NoiseFits(d.b, d.Sent(), g.pnsLevel, d.b.sf[0])
  }

  /** The last two layout conditions follow from the others. */
  lemma ReadyLayout(g: Given, d: Decided)
    requires Proper(g, d)
    ensures GeoOf(g.t, d.Ics()).Valid() && |d.Sent()| == GeoOf(g.t, d.Ics()).Bands()
    ensures GoodJobs(Jobs(GeoOf(g.t, d.Ics()), 0, 0, 0), |d.Sent()|)
  {
    hide Jobs, Slots, GoodJobs, Tiles, Groups, Arrays.GroupsValid, Geo.BandsFrom, LegalTns;
    GroupsSum(d.gl, 0, d.n);
    var geo := GeoOf(g.t, d.Ics());
    assert geo.groups[0..] == Groups(d.gl, 0, d.n);
    SlotsCount(d.gl, 0, d.n, geo, 0);
    JobsGood(geo);
  }

  /** The channel that is written. */
  ghost function Final(g: Given, d: Decided): Channel
    requires Proper(g, d)
  {
    var sections := d.Sectioning(g.costs).SectionsFrom(0);
    Channel(d.Ics(), d.b.sf[0], sections, ExpandAll(sections), Pick(Derived(g, d).sf, d.Sent()), d.tnsPresent, d.tns,
            d.q)
  }

  lemma CarriesUp(lo: nat, hi: nat, x: seq<int>)
    requires 1 <= lo <= hi <= ESC_BT && CarriesAll(lo, x)
    ensures CarriesAll(hi, x)
  {
  }

  /** The sectioning only raises codebooks, so all coefficients stay carried. */
  lemma CarriedAfter(b: Bands, r: Bands, slots: seq<nat>, js: seq<Job>, q: seq<int>)
    requires b.Sized() && r.Sized() && InArray(slots) && |q| == 1024 && GoodJobs(js, |slots|)
             && CarriedAtStart(b, slots, js, q)
    requires forall i: nat :: i < |slots| ==> CodedWell(b, slots[i]) && Sectioned(b, r, slots[i])
    ensures AllCarried(Pick(r.bt, slots), js, q)
  {
    hide CarriesAll, CodedWell, Sectioned;
    var bt := Pick(r.bt, slots);
    forall k: nat | k < |js| && Tonal(bt[js[k].idx]) ensures CarriesAll(bt[js[k].idx], Slice(q, js[k])) {
      var s := slots[js[k].idx];
      assert JobCarried(b, slots, js[k], q);
      TonalAfter(b, r, s);
      CarriesUp(b.bt[s], r.bt[s], Slice(q, js[k]));
    }
  }

  lemma TonalAfter(b: Bands, r: Bands, s: nat)
    requires b.Sized() && r.Sized() && s < 128 && CodedWell(b, s) && Sectioned(b, r, s) && Tonal(r.bt[s])
    ensures !b.z[s] && 1 <= b.bt[s] <= r.bt[s] <= ESC_BT
  {
  }

  lemma CarriedSame(b: Bands, q: Bands, slots: seq<nat>, js: seq<Job>, x: seq<int>)
    requires b.Sized() && q.Sized() && InArray(slots) && |x| == 1024 && GoodJobs(js, |slots|)
             && CarriedAtStart(b, slots, js, x)
    requires q.z == b.z && q.bt == b.bt
    ensures CarriedAtStart(q, slots, js, x)
  {
    hide CarriesAll;
    forall k: nat | k < |js| ensures JobCarried(q, slots, js[k], x) {
      assert JobCarried(b, slots, js[k], x);
    }
  }

  /** The arrays after sectioning, and everything the writers of the later parts
      need to know about them. */
  lemma FinalIsPrintable(g: Given, d: Decided, r: Bands)
    requires Prepared(g, d) && r.Sized() && r.sf == Derived(g, d).sf && Rewritten(d.Sectioning(g.costs), 0, r.bt, r.z)
    ensures Printable(g.t, Final(g, d))
    ensures WellFormed(g.t, Final(g, d)) <==> NoiseFits(d.b, d.Sent(), g.pnsLevel, d.b.sf[0])
    ensures Pick(r.bt, d.Sent()) == Final(g, d).bt && Pick(r.sf, d.Sent()) == Final(g, d).sf && r.sf[0] == d.b.sf[0]
    ensures forall i: nat :: i < |d.Sent()| ==> FlagAgrees(r, d.Sent()[i])
    ensures AllCodable(Final(g, d).bt, Final(g, d).sf, 0, StartChains(d.b.sf[0]))
  {
    hide Jobs, Slots, Tiles, Groups, Arrays.GroupsValid, Arrays.Laid, Geo.BandsFrom, LegalTns, Special, NormalReady,
         TailsZero, NoiseFits, GoodJobs, CarriedAtStart, Rewritten, Arrays.SectionsFrom, ExpandAll, Sectioned,
         CodedWell, FlagAgrees, LegalSfs, AllCodable, Tables.Valid, Geo.Valid, AllCarried, SizesMatch, SectionsFit,
         Pick;
    var a, slots, geo, q := d.Sectioning(g.costs), d.Sent(), GeoOf(g.t, d.Ics()), Derived(g, d);
    ReadyLayout(g, d);
    RewrittenPick(a, 0, r.bt, r.z);
    SlotsOrdered(d.gl, 0, d.n, d.numSwb);
    SpecialIs(d.b, d.All(), g.isLevel, g.pnsLevel);
    ReadyGain(d.b, d.All());
    RewrittenKinds(a, 0, q, r);
    SpecialThenSections(d.b, q, r, g.isLevel, g.pnsLevel, d.gl, d.n, d.maxSfb, d.numSwb);
    CarriedSame(d.b, q, slots, Jobs(geo, 0, 0, 0), d.q);
    CarriedAfter(q, r, slots, Jobs(geo, 0, 0, 0), d.q);
    SectionsFitFrom(a, 0);
  }

  // ----- the encoder

  ghost function DecidedOf(sce: SingleChannelElement): Decided
    reads sce
  {
    Decided(sce.windowSequence, sce.useKb, sce.maxSfb, sce.numSwb, sce.numWindows, sce.groupLen, sce.swbSizes,
            BandsOf(sce),
            sce.tnsPresent, sce.tns, sce.quantized)
  }

  // ----- the parts of a channel's bits, in writing order

  ghost function HeadBits(ch: Channel, common: bool): Bits
    requires ch.gain >= 0
  {
    ToBits(8, ch.gain) + (if common then [] else PrintIcs(ch.ics))
  }

  ghost function SectionBits(ch: Channel): Bits {
    PrintBandTypes(ch.sections, if ch.ics.Short() then 3 else 5)
  }

  ghost function SideBits(t: Tables, ch: Channel): Bits
    requires t.Valid() && |ch.bt| == |ch.sf|
  {
    PrintSfs(t, ch.bt, ch.sf, 0, StartChains(ch.gain)) + ToolBits(ch)
  }

  function ToolBits(ch: Channel): Bits {
    [false] + [ch.tnsPresent] + (if ch.tnsPresent then PrintTns(ch.tns, if ch.ics.Short() then 1 else 0) else [])
        + [false]
  }

  ghost function SpectrumBits(t: Tables, ch: Channel): Bits
    requires Printable(t, ch)
  {
    PrintSpectrum(t, ch.bt, Jobs(GeoOf(t, ch.ics), 0, 0, 0), ch.q)
  }

  lemma Parts(t: Tables, ch: Channel, common: bool)
    requires Printable(t, ch)
    ensures PrintChannel(t, ch, common) == HeadBits(ch, common) + SectionBits(ch)
            + (SideBits(t, ch) + SpectrumBits(t, ch))
  {
    hide SectionsFit, LegalSfs, LegalTns, AllCarried, Tables.Valid, Geo.Valid, ToBits, PrintIcs, PrintBandTypes,
         PrintSfs, PrintTns, PrintSpectrum, Jobs, Geo.BandsFrom, ExpandAll;
  }

  lemma FinalIcs(g: Given, d: Decided)
    requires Proper(g, d)
    ensures Final(g, d).ics == d.Ics() && Final(g, d).q == d.q && Final(g, d).gain == d.b.sf[0]
    ensures Final(g, d).tnsPresent == d.tnsPresent && Final(g, d).tns == d.tns
    ensures Final(g, d).sections == d.Sectioning(g.costs).SectionsFrom(0)
    ensures Final(g, d).ics.Short() <==> d.n != 1
    ensures |Final(g, d).sf| == |d.Sent()|
  {
    hide Slots, Tiles, Derived, Arrays.SectionsFrom, ExpandAll, Groups, Arrays.GroupsValid, LegalTns, SizesMatch,
         Tables.Valid;
  }

  /** Derives the special scalefactors, then sections and writes all groups. */
  method EncodeBandInfo(cd: Coder, pb: Writer, sce: SingleChannelElement, ghost g: Given,
                        costs: nat -> seq<seq<nat>>, isLevel: seq<int>, pnsLevel: seq<int>)
    requires pb.Valid() && |cd.path| == 121 && Proper(g, DecidedOf(sce))
    requires costs == g.costs && isLevel == g.isLevel && pnsLevel == g.pnsLevel
    modifies cd`path, pb, sce`bandType, sce`zeroes, sce`sfIdx
    ensures pb.Valid() && |cd.path| == 121 && WellLaid(sce)
    ensures var d := old(DecidedOf(sce));
            && pb.Written() == old(pb.Written()) + SectionBits(Final(g, d))
            && Rewritten(d.Sectioning(costs), 0, sce.bandType, sce.zeroes) && sce.sfIdx == Derived(g, d).sf
  {
    hide Tiles, Arrays.GroupsValid, Special, Rewritten, Arrays.SectionsFrom, LegalTns, SizesMatch, Tables.Valid, Slots,
         PrintBandTypes, Writer.Written;
    ghost var d := DecidedOf(sce);
    assert WellLaid(sce);
    SlotsOrdered(d.gl, 0, d.n, d.numSwb);
    SpecialIs(d.b, d.All(), g.isLevel, g.pnsLevel);
    SetSpecialBandScalefactors(sce, isLevel, pnsLevel);
    assert ArraysOf(sce, costs) == d.Sectioning(costs);
    FinalIcs(g, d);
    SectionGroups(cd, pb, sce, costs);
  }

  /** The arrays hold the channel ch: what the writers behind the
      section data rely on. */
  ghost predicate Shows(sce: SingleChannelElement, t: Tables, ch: Channel)
    reads sce
  {
    && Printable(t, ch) && WellLaid(sce) && InArray(SentOf(sce)) && ch.ics == SideCoder.IcsOf(sce)
    && (sce.windowSequence == EIGHT_SHORT <==> sce.numWindows == 8)
    && SizesMatch(sce.swbSizes, t.Edges(ch.ics.Short()), sce.maxSfb)
    && Pick(sce.bandType, SentOf(sce)) == ch.bt && Pick(sce.sfIdx, SentOf(sce)) == ch.sf && sce.sfIdx[0] == ch.gain
    && (forall i: nat :: i < |SentOf(sce)| ==> FlagAgrees(BandsOf(sce), SentOf(sce)[i]))
    && AllCodable(ch.bt, ch.sf, 0, StartChains(ch.gain))
    && sce.tnsPresent == ch.tnsPresent && sce.tns == ch.tns && sce.quantized == ch.q
  }

  ghost function SentOf(sce: SingleChannelElement): seq<nat>
    requires WellLaid(sce)
    reads sce
  {
    Slots(sce.groupLen, 0, sce.numWindows, sce.maxSfb)
  }

  lemma ShowsFacts(sce: SingleChannelElement, t: Tables, ch: Channel)
    requires Shows(sce, t, ch)
    ensures |ch.bt| == |ch.sf| && t.Valid() && (ch.tnsPresent ==> LegalTns(ch.tns, if ch.ics.Short() then 1 else 0))
    ensures AllCarried(ch.bt, Jobs(GeoOf(t, ch.ics), 0, 0, 0), ch.q) && GeoOf(t, ch.ics).Valid()
    ensures GeoFor(sce, t.Edges(ch.ics.Short())) == GeoOf(t, ch.ics)
    ensures forall i: nat :: i < |SentOf(sce)| ==> (sce.zeroes[SentOf(sce)[i]] <==> sce.bandType[SentOf(sce)[i]] == 0)
  {
    hide Tiles, Slots, Jobs, AllCodable, Pick, Tables.Valid, Geo.Valid, LegalTns, SectionsFit, LegalSfs, AllCarried,
         Groups, Geo.BandsFrom, ExpandAll;
    forall i: nat | i < |SentOf(sce)| ensures sce.zeroes[SentOf(sce)[i]] <==> sce.bandType[SentOf(sce)[i]] == 0 {
      assert FlagAgrees(BandsOf(sce), SentOf(sce)[i]);
    }
  }

  /** No pulses, TNS data if present, no gain control. */
  method PutTools(pb: Writer, sce: SingleChannelElement, ghost ch: Channel)
    requires pb.Valid() && sce.windowSequence == ch.ics.seq0 && sce.tnsPresent == ch.tnsPresent && sce.tns == ch.tns
    requires ch.tnsPresent ==> LegalTns(ch.tns, if ch.ics.Short() then 1 else 0)
    modifies pb
    ensures pb.Valid() && pb.Written() == old(pb.Written()) + ToolBits(ch)
  {
    hide PrintTns, Writer.Written, ToBits;
    OneBit();
    pb.Put(1, 0);
    if sce.tnsPresent {
      pb.Put(1, 1);
    } else {
      pb.Put(1, 0);
    }
    TnsCoder.EncodeTnsInfo(pb, sce);
    pb.Put(1, 0);
  }

  /** Scalefactors, then the three presence bits with the TNS data. */
  method PutSide(pb: Writer, sce: SingleChannelElement, t: Tables, ghost ch: Channel) returns (failed: bool)
    requires pb.Valid() && Shows(sce, t, ch)
    modifies pb
    ensures !failed && pb.Valid() && |ch.bt| == |ch.sf| && pb.Written() == old(pb.Written()) + SideBits(t, ch)
  {
    hide Tiles, Slots, Printable, PrintSfs, ToolBits, LegalTns, Writer.Written, SizesMatch, Jobs, FlagAgrees,
         AllCodable, Pick, Tables.Valid, Geo.Valid, AllCarried, GeoOf, Groups;
    ShowsFacts(sce, t, ch);
    failed := SideCoder.EncodeScaleFactors(pb, t, sce);
    PutTools(pb, sce, ch);
  }

  /** The spectrum of the written channel. */
  method PutSpectrum(pb: Writer, sce: SingleChannelElement, t: Tables, ghost ch: Channel)
    requires pb.Valid() && Shows(sce, t, ch)
    modifies pb
    ensures pb.Valid() && pb.Written() == old(pb.Written()) + SpectrumBits(t, ch)
  {
    hide Tiles, Slots, PrintSpectrum, Writer.Written, Jobs, FlagAgrees, AllCodable, Pick, Tables.Valid, Geo.Valid,
         AllCarried, GeoOf, Groups, LegalTns, LegalSfs, SectionsFit, WellFormedIcs, ExpandAll, SizesMatch;
    ShowsFacts(sce, t, ch);
    EncodeSpectralCoeffs(pb, t, sce, t.Edges(ch.ics.Short()));
  }

  /** The global gain, and ics_info unless the pair shares it. */
  method PutHead(pb: Writer, sce: SingleChannelElement, common: bool, ghost ch: Channel)
    requires pb.Valid() && WellLaid(sce) && (sce.windowSequence == EIGHT_SHORT <==> sce.numWindows == 8)
    requires ch.ics == SideCoder.IcsOf(sce) && 0 <= ch.gain <= 255 && sce.sfIdx[0] == ch.gain
    modifies pb
    ensures pb.Valid() && pb.Written() == old(pb.Written()) + HeadBits(ch, common)
  {
    hide Tiles, PrintIcs, Writer.Written, ToBits, Groups;
    pb.Put(8, sce.sfIdx[0]);
    if !common {
      SideCoder.PutIcsInfo(pb, sce);
    }
  }

  /** Everything behind the section data. */
  method PutBody(pb: Writer, sce: SingleChannelElement, t: Tables, ghost ch: Channel) returns (failed: bool)
    requires pb.Valid() && Shows(sce, t, ch)
    modifies pb
    ensures !failed && pb.Valid() && Printable(t, ch) && pb.Written()
            == old(pb.Written()) + (SideBits(t, ch) + SpectrumBits(t, ch))
  {
    hide Shows, Printable, SideBits, SpectrumBits, Writer.Written;
    ShownPrints(sce, t, ch);
    failed := PutSide(pb, sce, t, ch);
    PutSpectrum(pb, sce, t, ch);
  }

  lemma PreparedIs(g: Given, d: Decided)
    requires Prepared(g, d)
    ensures Proper(g, d) && d.Laid() && InArray(d.Sent()) && 0 <= d.b.sf[0] <= 255
    ensures Final(g, d).ics == d.Ics() && Final(g, d).gain == d.b.sf[0]
  {
  }

  /** After the sectioning the arrays hold the channel. */
  lemma NowShown(g: Given, d: Decided, sce: SingleChannelElement)
    requires Prepared(g, d) && WellLaid(sce) && DecidedOf(sce) == d.(b := BandsOf(sce))
    requires Rewritten(d.Sectioning(g.costs), 0, sce.bandType, sce.zeroes) && sce.sfIdx == Derived(g, d).sf
    ensures Shows(sce, g.t, Final(g, d))
    ensures WellFormed(g.t, Final(g, d)) <==> NoiseFits(d.b, d.Sent(), g.pnsLevel, d.b.sf[0])
  {
    hide NormalReady, TailsZero, NoiseFits, CarriedAtStart, Rewritten, Printable, Final, Slots, Tiles, Pick,
         FlagAgrees, AllCodable, Derived, Geo.Valid, GoodJobs, Jobs, Groups, Arrays.GroupsValid, Arrays.Laid, LegalTns,
         SizesMatch, Tables.Valid;
    FinalIcs(g, d);
    FinalIsPrintable(g, d, BandsOf(sce));
  }

  /** Writes one channel: exactly the bits of a channel with the decisions that were
      made, without a failure. They can be read back exactly when the level of the
      first noise band fits. */
  method EncodeIndividualChannel(cd: Coder, pb: Writer, sce: SingleChannelElement, common: bool, ghost g: Given,
                                 t: Tables, costs: nat -> seq<seq<nat>>, isLevel: seq<int>, pnsLevel: seq<int>)
    returns (failed: bool)
    requires pb.Valid() && |cd.path| == 121 && Prepared(g, DecidedOf(sce)) && g == Given(t, costs, isLevel, pnsLevel)
    modifies cd`path, pb, sce`bandType, sce`zeroes, sce`sfIdx
    ensures pb.Valid() && |cd.path| == 121
    ensures !failed && Printable(t, Final(g, old(DecidedOf(sce))))
    ensures var d := old(DecidedOf(sce));
            WellFormed(t, Final(g, d)) <==> NoiseFits(d.b, d.Sent(), pnsLevel, d.b.sf[0])
    ensures pb.Written() == old(pb.Written()) + PrintChannel(t, Final(g, old(DecidedOf(sce))), common)
  {
    hide Tiles, Slots, Printable, Shows, PrintChannel, HeadBits, SectionBits, SideBits, SpectrumBits, Writer.Written,
         Derived, Final, Prepared, Proper, Rewritten, Groups, NoiseFits, WellFormed;
    ghost var d := DecidedOf(sce);
    PreparedIs(g, d);
    PutHead(pb, sce, common, Final(g, d));
    EncodeBandInfo(cd, pb, sce, g, costs, isLevel, pnsLevel);
    NowShown(g, d, sce);
    failed := PutBody(pb, sce, t, Final(g, d));
    Parts(t, Final(g, d), common);
  }

  lemma ShownPrints(sce: SingleChannelElement, t: Tables, ch: Channel)
    requires Shows(sce, t, ch)
    ensures Printable(t, ch)
  {
  }
}
