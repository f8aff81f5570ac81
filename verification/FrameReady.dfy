/** From the last scalefactor pass through the frame adjustment to the writer: what
    the passes leave of a channel or a pair can be written, and the decoder's M/S
    mask is the encoder's. */
module FrameReady {
  import opened BitReader
  import opened AacSyntax
  import opened AacParse
  import opened AacPrint
  import opened AacFrame
  import opened BandWalk
  import opened ScalefactorChain
  import opened SpecialBands
  import opened FinalPass
  import opened LegalChannel
  import opened FrameAdjust
  import opened ChannelCoder
  import opened FrameCoder
  import opened RoundTrip

  /** A channel as a search leaves it before the final pass: the scalefactors of
      the bands to be coded in range, the flags of a group's windows agreeing where
      the first is set, and a gain no special band replaces. */
  ghost predicate Searched(d: Decided, l: Lookups) {
    && d.Laid() && l.Valid() && l.gl == d.gl && l.n == d.n && InArray(d.All())
    && 0 <= d.b.sf[0] <= 255 && !SpecialType(d.b.bt[0])
    && forall i: nat :: i < |d.All()| ==> Solved(d.b, d.All()[i]) && SubsZero(d.b, d.All()[i], l)
  }

  /** The channel behind the final pass and the frame adjustment. */
  ghost function Adjusted(d: Decided, l: Lookups): (a: Decided)
    requires Searched(d, l)
    ensures a.maxSfb <= a.numSwb
  {
    var p := FinalPass.Final(d.b, d.All(), l);
    MaxSfbCovers(p.z, d.gl, 0, d.n, d.numSwb, 0);
    var m := MaxSfb(p.z, d.gl, 0, d.n, d.numSwb, 0);
    SlotsFit(d.gl, d.n, m);
    d.(maxSfb := m, b := p.(z := Reconciled(p.z, Slots(d.gl, 0, d.n, m), Layout(d.gl, d.n))))
  }

  lemma SearchedPass(d: Decided, l: Lookups)
    requires Searched(d, l)
    ensures PassPre(d.b, -1, d.All(), l)
  {
    hide Slots, Solved, SubsZero, Lookups.Valid;
    SlotsApart(l, d.numSwb);
    SlotsOrdered(d.gl, 0, d.n, d.numSwb);
  }

  /** Reconciling finds the flags as it wants them. */
  lemma AdjustedFlags(d: Decided, l: Lookups)
    requires Searched(d, l)
    ensures Adjusted(d, l).b == FinalPass.Final(d.b, d.All(), l)
  {
    hide Slots, Solved, SubsZero, Lookups.Valid, FinalPass.Final, PassPre, MaxSfb, Reconciled, ChainOk;
    var p, all := FinalPass.Final(d.b, d.All(), l), d.All();
    var m := Adjusted(d, l).maxSfb;
    var slots := Slots(d.gl, 0, d.n, m);
    SearchedPass(d, l);
    FinalIs(d.b, all, l);
    SlotsFit(d.gl, d.n, m);
    SlotsWithin(d.gl, 0, d.n, m, d.numSwb);
    SlotsApart(l, m);
    forall i: nat | i < |slots|
        ensures SubsZero(p, slots[i], Layout(d.gl, d.n)) && Layout(d.gl, d.n).Len(slots[i]) >= 1 {
      assert slots[i] in all;
      var j: nat :| j < |all| && all[j] == slots[i];
      assert TidySlot(p, all[j], l) && l.Len(slots[i]) >= 1;
      SubsLayout(p, slots[i], l);
    }
    ReconcileIdle(p, slots, Layout(d.gl, d.n));
  }

  lemma SubsLayout(b: Bands, s: nat, l: Lookups)
    requires b.Sized() && s < 128
    ensures Layout(l.gl, l.n).Len(s) == l.Len(s)
    ensures TidySlot(b, s, l) ==> SubsZero(b, s, Layout(l.gl, l.n))
  {
  }

  /** No band behind max_sfb is coded, and the normal chain is ready. lo is max_sfb
      or, in a pair with a common window, the larger one of the two. */
  lemma AdjustedChain(d: Decided, l: Lookups, lo: nat)
    requires Searched(d, l) && Adjusted(d, l).maxSfb <= lo <= d.numSwb
    ensures var a := Adjusted(d, l).(maxSfb := lo);
            && a.Laid() && a.All() == d.All() && NormalReady(a.b, a.All())
            && TailsZero(a.b.z, a.gl, 0, a.n, a.maxSfb, a.numSwb)
  {
    hide Slots, Solved, SubsZero, Lookups.Valid, FinalPass.Final, PassPre, MaxSfb, NormalReady, Tiles, TailsZero;
    SearchedPass(d, l);
    AdjustedFlags(d, l);
    FinalReady(d.b, l, d.gl, d.n, d.numSwb);
    var z := FinalPass.Final(d.b, d.All(), l).z;
    MaxSfbCovers(z, d.gl, 0, d.n, d.numSwb, 0);
    TailsUp(z, d.gl, 0, d.n, Adjusted(d, l).maxSfb, lo, d.numSwb);
  }

  /** What the writer still asks of the adjusted channel: proper tables and costs,
      codebooks that carry their coefficients, and a first noise level that fits. */
  ghost predicate Writable(g: Given, a: Decided) {
    && Proper(g, a) && NoiseFits(a.b, a.Sent(), g.pnsLevel, a.b.sf[0])
    && GeoOf(g.t, a.Ics()).Valid() && GoodJobs(Jobs(GeoOf(g.t, a.Ics()), 0, 0, 0), |a.Sent()|)
    && CarriedAtStart(a.b, a.Sent(), Jobs(GeoOf(g.t, a.Ics()), 0, 0, 0), a.q)
  }

  /** The passes make a channel ready. */
  lemma ChannelReady(g: Given, d: Decided, l: Lookups, lo: nat)
    requires Searched(d, l) && Adjusted(d, l).maxSfb <= lo <= d.numSwb && Writable(g, Adjusted(d, l).(maxSfb := lo))
    ensures Ready(g, Adjusted(d, l).(maxSfb := lo))
  {
    hide Adjusted, Searched, Slots, NormalReady, TailsZero, Proper, CarriedAtStart, NoiseFits;
    AdjustedChain(d, l, lo);
  }

  /** A pair with a common window behind the adjustment: one max_sfb, and the M/S
      mode that the mask's bits call for. */
  ghost function AdjustedPair(g0: Given, d0: Decided, l0: Lookups, g1: Given, d1: Decided, l1: Lookups,
                              mask: seq<bool>): Block
    requires Searched(d0, l0) && Searched(d1, l1) && |mask| == 128
  {
    var a0, a1 := Adjusted(d0, l0), Adjusted(d1, l1);
    var lo := Max(a0.maxSfb, a1.maxSfb);
    TwoChannels(g0, a0.(maxSfb := lo), g1, a1.(maxSfb := lo), true, MsMode(CountMask(mask, 0, d0.n, lo), lo, d0.n),
                mask)
  }

  ghost predicate SameLayout(d0: Decided, d1: Decided) {
    d0.seq0 == d1.seq0 && d0.kb == d1.kb && d0.n == d1.n && d0.gl == d1.gl && d0.numSwb == d1.numSwb
  }

  /** The passes make a pair ready. */
  lemma PairReady(t: Tables, g0: Given, d0: Decided, l0: Lookups, g1: Given, d1: Decided, l1: Lookups, mask: seq<bool>)
    requires Searched(d0, l0) && Searched(d1, l1) && |mask| == 128 && SameLayout(d0, d1) && g0.t == g1.t == t
    requires var k := AdjustedPair(g0, d0, l0, g1, d1, l1, mask);
             Writable(g0, k.d0) && Writable(g1, k.d1)
    ensures BlockReady(t, AdjustedPair(g0, d0, l0, g1, d1, l1, mask))
  {
    hide Searched, Writable, Ready, ChannelCoder.Final, Reconciled, MaxSfb, CountMask, Slots;
    var lo := AdjustedPair(g0, d0, l0, g1, d1, l1, mask).d0.maxSfb;
    AdjustedKeeps(d0, l0);
    AdjustedKeeps(d1, l1);
    ChannelReady(g0, d0, l0, lo);
    ChannelReady(g1, d1, l1, lo);
    ReadyLaid(g0, AdjustedPair(g0, d0, l0, g1, d1, l1, mask).d0);
    ReadyLaid(g1, AdjustedPair(g0, d0, l0, g1, d1, l1, mask).d1);
  }

  lemma AdjustedKeeps(d: Decided, l: Lookups)
    requires Searched(d, l)
    ensures SameLayout(Adjusted(d, l), d) && Adjusted(d, l).maxSfb <= d.numSwb
  {
  }

  lemma ReadyLaid(g: Given, d: Decided)
    requires Ready(g, d)
    ensures d.Laid()
  {
  }

  // ----- the mask

  /** The bands a decoded pair codes as mid and side. */
  predicate Selected(e: Element, i: nat) {
    e.Pair? && e.common && e.ms != 0 && i < |e.mask| && e.mask[i] != 0
  }

  /** What is read back selects exactly the transmitted bands of the encoder's
      mask. */
  ghost predicate MaskBack(e: Element, mask: seq<bool>, slots: seq<nat>)
    requires |mask| == 128 && InArray(slots)
  {
    forall i: nat :: i < |slots| ==> (Selected(e, i) <==> mask[slots[i]])
  }

  lemma ExpectedMask(t: Tables, f: Frame, mask: seq<bool>, gl: seq<nat>, n: nat, bands: nat)
    requires |mask| == 128 && |gl| == 8 && (n == 1 || n == 8) && Tiles(gl, 0, n) && bands <= (if n == 1 then 51 else 15)
    requires WellFormedFrame(t, f) && f.FramePair? && f.common && InArray(Slots(gl, 0, n, bands))
    requires f.mask == Pick(mask, Slots(gl, 0, n, bands)) && f.ms == MsMode(CountMask(mask, 0, n, bands), bands, n)
    ensures MaskBack(ExpectedElement(t, f), mask, Slots(gl, 0, n, bands))
  {
    hide Slots, Tiles, WellFormed, Expected, CountMask;
    MsModeFaithful(mask, gl, n, bands);
  }

  /** The frame of a pair that went through the passes reads back as a whole, its
      mask being the one the pair was coded with. */
  lemma PairMaskRoundTrip(t: Tables, c: Cursor, g0: Given, d0: Decided, l0: Lookups, g1: Given, d1: Decided,
                          l1: Lookups, mask: seq<bool>)
    requires Searched(d0, l0) && Searched(d1, l1) && |mask| == 128
    requires var k := AdjustedPair(g0, d0, l0, g1, d1, l1, mask);
             && BlockReady(t, k) && WellFormedFrame(t, FrameOf(t, k))
             && c.Valid() && !c.over && t.Valid() && c.Ahead(PrintFrame(t, FrameOf(t, k)))
    ensures var k := AdjustedPair(g0, d0, l0, g1, d1, l1, mask);
            var r := ParseBlock(t, 2, c, None);
            && r.Good? && r.val.Some? && k.d0.Laid() && InArray(k.d0.Sent()) && MaskBack(r.val.value, mask, k.d0.Sent())
  {
    hide Searched, Ready, WellFormedFrame, PrintFrame, ParseBlock, ExpectedElement, MaskBack, Adjusted, CountMask,
         ChannelCoder.Final, Proper, Tables.Valid, Slots;
    var k := AdjustedPair(g0, d0, l0, g1, d1, l1, mask);
    ReadyProper(k.g0, k.d0);
    AdjustedKeepsN(d0, l0);
    FrameRoundTrip(t, c, FrameOf(t, k));
    ExpectedMask(t, FrameOf(t, k), mask, k.d0.gl, k.d0.n, k.d0.maxSfb);
  }

  lemma AdjustedKeepsN(d: Decided, l: Lookups)
    requires Searched(d, l)
    ensures Adjusted(d, l).n == d.n
  {
  }
}
