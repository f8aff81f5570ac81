/** The decoder's stereo tools over the dequantized spectra of a pair. */
module DecStereo {
  import opened AacSyntax
  import opened AacParse
  import opened AacFrame
  import opened JobWalk
  import opened DecChannel
  import opened DecSections
  import opened DecSpectrum
  import opened DecElements
  import opened DecRender

  // ----- mid/side

  lemma MidSideStep(bt0: seq<nat>, bt1: seq<nat>, mask: seq<nat>, j: Job, rest: seq<Job>, x0: seq<int>, x1: seq<int>)
    requires |bt0| == |bt1| == |mask| && |x0| == |x1| == 1024 && GoodJobs([j] + rest, |bt0|)
    ensures GoodJob(j, |bt0|) && GoodJobs(rest, |bt0|)
    ensures var y := if IsMidSide(bt0, bt1, mask, j.idx) then Butterfly(j, x0, x1) else (x0, x1);
            MidSide(bt0, bt1, mask, [j] + rest, x0, x1) == MidSide(bt0, bt1, mask, rest, y.0, y.1)
  {
    hide GoodJobs, Butterfly, IsMidSide;
    GoodHead(j, rest, |bt0|);
  }

  lemma {:induction false} MidSideSkip(bt0: seq<nat>, bt1: seq<nat>, mask: seq<nat>, idx: nat, base: nat, len: nat,
                                       n: nat, rest: seq<Job>,
                                       x0: seq<int>, x1: seq<int>)
    requires |bt0| == |bt1| == |mask| && |x0| == |x1| == 1024 && idx < |bt0| && !IsMidSide(bt0, bt1, mask, idx)
    requires GoodJobs(BandJobs(idx, base, len, n) + rest, |bt0|)
    ensures GoodJobs(rest, |bt0|)
    ensures MidSide(bt0, bt1, mask, BandJobs(idx, base, len, n) + rest, x0, x1) == MidSide(bt0, bt1, mask, rest, x0, x1)
    decreases n
  {
    hide MidSide, GoodJobs, BandJobs, IsMidSide, Put;
    FirstJob(idx, base, len, n, rest);
    if n > 0 {
      MidSideStep(bt0, bt1, mask, Job(idx, base, len), BandJobs(idx, base + 128, len, n - 1) + rest, x0, x1);
      MidSideSkip(bt0, bt1, mask, idx, base + 128, len, n - 1, rest, x0, x1);
    }
  }

  /** Sum and difference of one stretch, in place in both channels. */
  method Butterflies(s0: Sce, s1: Sce, base: nat, len: nat)
    requires s0 != s1 && s0.Sized() && s1.Sized() && base + len <= 1024
    modifies s0`coeffs, s1`coeffs
    ensures s0.Sized() && s1.Sized()
    ensures var (a, b) := (old(s0.coeffs[base..base + len]), old(s1.coeffs[base..base + len]));
            s0.coeffs == Put(old(s0.coeffs), base, Sums(a, b))
                && s1.coeffs == Put(old(s1.coeffs), base, Differences(a, b))
  {
    ghost var x0, x1 := s0.coeffs, s1.coeffs;
    ghost var a, b := x0[base..base + len], x1[base..base + len];
    for i := 0 to len
      invariant s0.Sized() && s1.Sized()
      invariant forall n :: 0 <= n < 1024 ==>
                s0.coeffs[n] == if base <= n < base + i then Wrap32(x0[n] + x1[n]) else x0[n]
      invariant forall n :: 0 <= n < 1024 ==>
                s1.coeffs[n] == if base <= n < base + i then Wrap32(x0[n] - x1[n]) else x1[n]
    {
      var t := Wrap32(s0.coeffs[base + i] - s1.coeffs[base + i]);
      s0.coeffs := s0.coeffs[base + i := Wrap32(s0.coeffs[base + i] + s1.coeffs[base + i])];
      s1.coeffs := s1.coeffs[base + i := t];
    }
    Written(x0, x1, s0.coeffs, base, len, true);
    Written(x0, x1, s1.coeffs, base, len, false);
  }

  lemma Written(x0: seq<int>, x1: seq<int>, y: seq<int>, base: nat, len: nat, sum: bool)
    requires |x0| == |x1| == |y| == 1024 && base + len <= 1024
    requires forall n :: 0 <= n < 1024 ==>
             y[n] == if base <= n < base + len then Wrap32(if sum then x0[n] + x1[n] else x0[n] - x1[n])
                                                   else (if sum then x0 else x1)[n]
    ensures var (a, b) := (x0[base..base + len], x1[base..base + len]);
            y == if sum then Put(x0, base, Sums(a, b)) else Put(x1, base, Differences(a, b))
  {
    hide Wrap32;
  }

  /** One selected band in all windows of its group. */
  method MidSideWindows(s0: Sce, s1: Sce, idx: nat, base: nat, len: nat, n: nat, ghost bt0: seq<nat>,
                        ghost bt1: seq<nat>, ghost mask: seq<nat>,
                        ghost rest: seq<Job>)
    requires s0 != s1 && s0.Sized() && s1.Sized() && |bt0| == |bt1| == |mask| && idx < |bt0|
             && IsMidSide(bt0, bt1, mask, idx)
    requires GoodJobs(BandJobs(idx, base, len, n) + rest, |bt0|)
    modifies s0`coeffs, s1`coeffs
    ensures s0.Sized() && s1.Sized() && GoodJobs(rest, |bt0|)
    ensures MidSide(bt0, bt1, mask, rest, s0.coeffs, s1.coeffs)
            == old(MidSide(bt0, bt1, mask, BandJobs(idx, base, len, n) + rest, s0.coeffs, s1.coeffs))
  {
    hide MidSide, GoodJobs, BandJobs, Put, Sums, Differences, IsMidSide;
    ghost var want := MidSide(bt0, bt1, mask, BandJobs(idx, base, len, n) + rest, s0.coeffs, s1.coeffs);
    for g := 0 to n
      invariant s0.Sized() && s1.Sized() && GoodJobs(BandJobs(idx, base + 128 * g, len, n - g) + rest, |bt0|)
      invariant MidSide(bt0, bt1, mask, BandJobs(idx, base + 128 * g, len, n - g) + rest, s0.coeffs, s1.coeffs) == want
    {
      FirstJob(idx, base + 128 * g, len, n - g, rest);
      MidSideStep(bt0, bt1, mask, Job(idx, base + 128 * g, len),
                  BandJobs(idx, base + 128 * (g + 1), len, n - g - 1) + rest, s0.coeffs, s1.coeffs);
      Butterflies(s0, s1, base + 128 * g, len);
    }
    FirstJob(idx, base + 128 * n, len, 0, rest);
  }

  method MidSideGroup(cpe: Cpe, g: nat, base: nat, idx0: nat, ghost geo: Geo, ghost bt0: seq<nat>, ghost bt1: seq<nat>,
                      ghost mask: seq<nat>)
    requires cpe.Valid() && |bt0| == |bt1| == |mask| <= 128 && bt0 == cpe.ch0.bandType[..|bt0|]
             && bt1 == cpe.ch1.bandType[..|bt0|]
    requires mask == cpe.msMask[..|bt0|] && idx0 + geo.maxSfb <= |bt0|
    requires geo.Valid() && geo.maxSfb == cpe.maxSfbSte && geo.edges == cpe.ch0.ics.swbOffset
    requires g < |geo.groups| && g < 8 && cpe.ch0.ics.groupLen[g] == geo.groups[g]
             && GoodJobs(GroupRest(geo, g, base, 0, idx0), |bt0|)
    modifies cpe.ch0`coeffs, cpe.ch1`coeffs
    ensures cpe.Valid() && GoodJobs(GroupRest(geo, g, base, geo.maxSfb, idx0 + geo.maxSfb), |bt0|)
    ensures MidSide(bt0, bt1, mask, GroupRest(geo, g, base, geo.maxSfb, idx0 + geo.maxSfb), cpe.ch0.coeffs,
                    cpe.ch1.coeffs)
            == old(MidSide(bt0, bt1, mask, GroupRest(geo, g, base, 0, idx0), cpe.ch0.coeffs, cpe.ch1.coeffs))
  {
    hide MidSide, GoodJobs, GroupRest, BandJobs, Geo.Valid;
    var gLen, offsets := cpe.ch0.ics.groupLen[g], cpe.ch0.ics.swbOffset;
    ghost var want := MidSide(bt0, bt1, mask, GroupRest(geo, g, base, 0, idx0), cpe.ch0.coeffs, cpe.ch1.coeffs);
    var sfb: nat := 0;
    while sfb < cpe.maxSfbSte
      invariant cpe.Valid() && sfb <= geo.maxSfb && GoodJobs(GroupRest(geo, g, base, sfb, idx0 + sfb), |bt0|)
      invariant MidSide(bt0, bt1, mask, GroupRest(geo, g, base, sfb, idx0 + sfb), cpe.ch0.coeffs, cpe.ch1.coeffs)
                == want
    {
      var idx := idx0 + sfb;
      GroupRestStep(geo, g, base, sfb, idx);
      WidthOf(geo, sfb);
      ghost var rest := GroupRest(geo, g, base, sfb + 1, idx + 1);
      var off, n := offsets[sfb], offsets[sfb + 1] - offsets[sfb];
      assert mask[idx] == cpe.msMask[idx] && bt0[idx] == cpe.ch0.bandType[idx] && bt1[idx] == cpe.ch1.bandType[idx];
      if cpe.msMask[idx] != 0 && cpe.ch0.bandType[idx] < NOISE_BT && cpe.ch1.bandType[idx] < NOISE_BT {
        MidSideWindows(cpe.ch0, cpe.ch1, idx, base + off, n, gLen, bt0, bt1, mask, rest);
      } else {
        MidSideSkip(bt0, bt1, mask, idx, base + off, n, gLen, rest, cpe.ch0.coeffs, cpe.ch1.coeffs);
      }
      sfb := sfb + 1;
    }
  }

  lemma MidSideEnd(bt0: seq<nat>, bt1: seq<nat>, mask: seq<nat>, x0: seq<int>, x1: seq<int>)
    requires |bt0| == |bt1| == |mask| && |x0| == |x1| == 1024 && GoodJobs([], |bt0|)
    ensures MidSide(bt0, bt1, mask, [], x0, x1) == (x0, x1)
  {
  }

  /** Sum/difference decoding of a pair with M/S data. */
  method ApplyMidSideStereo(cpe: Cpe, ghost t: Tables, ghost e: Element)
    requires e.Pair? && t.Valid() && cpe.Valid() && PairShown(cpe, t, e) && e.common && e.ms != 0
    modifies cpe.ch0`coeffs, cpe.ch1`coeffs
    ensures cpe.Valid() && GoodSymbols(t, e.s0) && |e.s0.bt| == |e.s1.bt| == |e.mask|
    ensures (cpe.ch0.coeffs, cpe.ch1.coeffs)
            == MidSide(e.s0.bt, e.s1.bt, e.mask, ChannelJobs(t, e.s0), old(cpe.ch0.coeffs), old(cpe.ch1.coeffs))
  {
    hide Tables.Valid, MidSide, GoodJobs, GroupRest, Jobs, Geo.Valid, At, Geo.BandsFrom, NoReserved, SfsOf, Agree;
    ghost var geo, bt0, bt1, mask := GeoOf(t, e.s0.ics), e.s0.bt, e.s1.bt, e.mask;
    JobsGood(geo);
    ghost var want := MidSide(bt0, bt1, mask, Jobs(geo, 0, 0, 0), cpe.ch0.coeffs, cpe.ch1.coeffs);
    var groups, maxSfb := cpe.ch0.ics.numWindowGroups, cpe.maxSfbSte;
    var base: nat := 0;
    AtStep(0, maxSfb);
    var g: nat := 0;
    while g < groups
      invariant cpe.Valid() && g <= groups && GoodJobs(Jobs(geo, g, base, At(g, maxSfb)), |bt0|)
      invariant MidSide(bt0, bt1, mask, Jobs(geo, g, base, At(g, maxSfb)), cpe.ch0.coeffs, cpe.ch1.coeffs) == want
    {
      var idx := At(g, maxSfb);
      GroupLength(cpe.ch0.ics, t, e.s0.ics, g);
      BandsFit(geo, g);
      StillBands(geo, g);
      AtStep(g, maxSfb);
      GroupRestStart(geo, g, base, idx);
      MidSideGroup(cpe, g, base, idx, geo, bt0, bt1, mask);
      GroupRestStep(geo, g, base, maxSfb, idx + maxSfb);
      base := base + 128 * cpe.ch0.ics.groupLen[g];
      g := g + 1;
    }
    GroupRestStart(geo, g, base, At(g, maxSfb));
    MidSideEnd(bt0, bt1, mask, cpe.ch0.coeffs, cpe.ch1.coeffs);
  }

  // ----- intensity

  predicate IsIntensity(cb: nat) {
    cb == INTENSITY_BT || cb == INTENSITY_BT2
  }

  lemma IntensityStep(k: Kernels, bt: seq<nat>, sf: seq<int>, on: bool, mask: seq<nat>, j: Job, rest: seq<Job>,
                      x0: seq<int>, x1: seq<int>)
    requires k.Valid() && |bt| == |sf| && (on ==> |mask| == |bt|) && |x0| == |x1| == 1024 && GoodJobs([j] + rest, |bt|)
    ensures GoodJob(j, |bt|) && GoodJobs(rest, |bt|)
    ensures !IsIntensity(bt[j.idx]) ==>
            Intensity(k, bt, sf, on, mask, [j] + rest, x0, x1) == Intensity(k, bt, sf, on, mask, rest, x0, x1)
    ensures IsIntensity(bt[j.idx]) ==>
              var y := k.subbandScale(x0[j.base..j.base + j.len],
                                      IntensityScale(bt[j.idx], sf[j.idx], on, if on then mask[j.idx] else 0), 23);
              && |y| == j.len
              && Intensity(k, bt, sf, on, mask, [j] + rest, x0, x1)
                  == Intensity(k, bt, sf, on, mask, rest, x0, Put(x1, j.base, y))
  {
    hide GoodJobs, Put, IntensityScale;
    GoodHead(j, rest, |bt|);
  }

  lemma {:induction false} IntensitySkip(k: Kernels, bt: seq<nat>, sf: seq<int>, on: bool, mask: seq<nat>, idx: nat,
                                         base: nat, len: nat, n: nat,
                                         rest: seq<Job>, x0: seq<int>, x1: seq<int>)
    requires k.Valid() && |bt| == |sf| && (on ==> |mask| == |bt|) && |x0| == |x1| == 1024 && idx < |bt|
             && !IsIntensity(bt[idx])
    requires GoodJobs(BandJobs(idx, base, len, n) + rest, |bt|)
    ensures GoodJobs(rest, |bt|)
    ensures Intensity(k, bt, sf, on, mask, BandJobs(idx, base, len, n) + rest, x0, x1)
            == Intensity(k, bt, sf, on, mask, rest, x0, x1)
    decreases n
  {
    hide Kernels.Valid, Intensity, GoodJobs, BandJobs, IsIntensity;
    FirstJob(idx, base, len, n, rest);
    if n > 0 {
      IntensityStep(k, bt, sf, on, mask, Job(idx, base, len), BandJobs(idx, base + 128, len, n - 1) + rest, x0, x1);
      IntensitySkip(k, bt, sf, on, mask, idx, base + 128, len, n - 1, rest, x0, x1);
    }
  }

  /** One intensity band in all windows of its group. */
  method IntensityWindows(k: Kernels, s0: Sce, s1: Sce, idx: nat, base: nat, len: nat, n: nat, scale: int,
                          ghost bt: seq<nat>, ghost sf: seq<int>,
                          ghost on: bool, ghost mask: seq<nat>, ghost rest: seq<Job>)
    requires k.Valid() && s0 != s1 && s0.Sized() && s1.Sized() && |bt| == |sf| && (on ==> |mask| == |bt|)
    requires idx < |bt| && IsIntensity(bt[idx])
             && scale == IntensityScale(bt[idx], sf[idx], on, if on then mask[idx] else 0)
    requires GoodJobs(BandJobs(idx, base, len, n) + rest, |bt|)
    modifies s1`coeffs
    ensures s1.Sized() && GoodJobs(rest, |bt|)
    ensures Intensity(k, bt, sf, on, mask, rest, s0.coeffs, s1.coeffs)
            == Intensity(k, bt, sf, on, mask, BandJobs(idx, base, len, n) + rest, s0.coeffs, old(s1.coeffs))
  {
    hide Kernels.Valid, Intensity, GoodJobs, BandJobs, Put, IntensityScale, IsIntensity;
    ghost var want := Intensity(k, bt, sf, on, mask, BandJobs(idx, base, len, n) + rest, s0.coeffs, s1.coeffs);
    for g := 0 to n
      invariant s1.Sized() && GoodJobs(BandJobs(idx, base + 128 * g, len, n - g) + rest, |bt|)
      invariant Intensity(k, bt, sf, on, mask, BandJobs(idx, base + 128 * g, len, n - g) + rest, s0.coeffs, s1.coeffs)
                == want
    {
      var p := base + 128 * g;
      FirstJob(idx, p, len, n - g, rest);
      IntensityStep(k, bt, sf, on, mask, Job(idx, p, len), BandJobs(idx, base + 128 * (g + 1), len, n - g - 1) + rest,
                    s0.coeffs, s1.coeffs);
      s1.coeffs := Put(s1.coeffs, p, k.subbandScale(s0.coeffs[p..p + len], scale, 23));
    }
    FirstJob(idx, base + 128 * n, len, 0, rest);
  }

  method IntensityGroup(k: Kernels, cpe: Cpe, ms: nat, g: nat, base: nat, idx0: nat, ghost geo: Geo, ghost bt: seq<nat>,
                        ghost sf: seq<int>,
                        ghost mask: seq<nat>)
    requires k.Valid() && cpe.Valid() && |bt| == |sf| <= 128 && bt == cpe.ch1.bandType[..|bt|]
             && sf == cpe.ch1.sf[..|bt|]
    requires ms != 0 ==> |mask| == |bt| && mask == cpe.msMask[..|bt|]
    requires geo.Valid() && geo.maxSfb == cpe.ch1.ics.maxSfb && geo.edges == cpe.ch1.ics.swbOffset
             && idx0 + geo.maxSfb <= |bt|
    requires g < |geo.groups| && g < 8 && cpe.ch1.ics.groupLen[g] == geo.groups[g]
             && GoodJobs(GroupRest(geo, g, base, 0, idx0), |bt|)
    modifies cpe.ch1`coeffs
    ensures cpe.Valid() && GoodJobs(GroupRest(geo, g, base, geo.maxSfb, idx0 + geo.maxSfb), |bt|)
    ensures Intensity(k, bt, sf, ms != 0, mask, GroupRest(geo, g, base, geo.maxSfb, idx0 + geo.maxSfb), cpe.ch0.coeffs,
                      cpe.ch1.coeffs)
            == old(Intensity(k, bt, sf, ms != 0, mask, GroupRest(geo, g, base, 0, idx0), cpe.ch0.coeffs,
                             cpe.ch1.coeffs))
  {
    hide Kernels.Valid, Intensity, GoodJobs, GroupRest, BandJobs, Geo.Valid;
    var gLen, offsets := cpe.ch1.ics.groupLen[g], cpe.ch1.ics.swbOffset;
    ghost var want := Intensity(k, bt, sf, ms != 0, mask, GroupRest(geo, g, base, 0, idx0), cpe.ch0.coeffs,
                                cpe.ch1.coeffs);
    var sfb: nat := 0;
    while sfb < cpe.ch1.ics.maxSfb
      invariant cpe.Valid() && sfb <= geo.maxSfb && GoodJobs(GroupRest(geo, g, base, sfb, idx0 + sfb), |bt|)
      invariant Intensity(k, bt, sf, ms != 0, mask, GroupRest(geo, g, base, sfb, idx0 + sfb), cpe.ch0.coeffs,
                          cpe.ch1.coeffs) == want
    {
      var idx := idx0 + sfb;
      GroupRestStep(geo, g, base, sfb, idx);
      WidthOf(geo, sfb);
      ghost var rest := GroupRest(geo, g, base, sfb + 1, idx + 1);
      var off, n := offsets[sfb], offsets[sfb + 1] - offsets[sfb];
      var cb: int := cpe.ch1.bandType[idx];
      assert cb == bt[idx] && sf[idx] == cpe.ch1.sf[idx] && (ms != 0 ==> mask[idx] == cpe.msMask[idx]);
      if cb == INTENSITY_BT || cb == INTENSITY_BT - 1 {
        var c := -1 + 2 * (cb - 14);
        if ms != 0 {
          var bit: int := cpe.msMask[idx];
          c := c * (1 - 2 * bit);
        }
        var scale := c * cpe.ch1.sf[idx];
        IntensityWindows(k, cpe.ch0, cpe.ch1, idx, base + off, n, gLen, scale, bt, sf, ms != 0, mask, rest);
      } else {
        IntensitySkip(k, bt, sf, ms != 0, mask, idx, base + off, n, gLen, rest, cpe.ch0.coeffs, cpe.ch1.coeffs);
      }
      sfb := sfb + 1;
    }
  }

  lemma IntensityEnd(k: Kernels, bt: seq<nat>, sf: seq<int>, on: bool, mask: seq<nat>, x0: seq<int>, x1: seq<int>)
    requires k.Valid() && |bt| == |sf| && (on ==> |mask| == |bt|) && |x0| == |x1| == 1024 && GoodJobs([], |bt|)
    ensures Intensity(k, bt, sf, on, mask, [], x0, x1) == x1
  {
  }

  /** The intensity bands of the second channel, for every pair. */
  method ApplyIntensityStereo(k: Kernels, cpe: Cpe, ms: nat, ghost t: Tables, ghost e: Element)
    requires k.Valid() && e.Pair? && t.Valid() && cpe.Valid() && PairShown(cpe, t, e) && ms == e.ms
    modifies cpe.ch1`coeffs
    ensures cpe.Valid() && GoodSymbols(t, e.s1) && (ms != 0 ==> |e.mask| == |e.s1.bt|)
    ensures cpe.ch1.coeffs == Intensity(k, e.s1.bt, SfsOf(e.s1.bt, e.s1.sfo), ms != 0, e.mask, ChannelJobs(t, e.s1),
                                        cpe.ch0.coeffs, old(cpe.ch1.coeffs))
  {
    hide Kernels.Valid, Tables.Valid, Intensity, GoodJobs, GroupRest, Jobs, Geo.Valid, At, Geo.BandsFrom, NoReserved,
         SfsOf, Agree;
    ghost var geo, bt, sf, mask := GeoOf(t, e.s1.ics), e.s1.bt, SfsOf(e.s1.bt, e.s1.sfo), e.mask;
    JobsGood(geo);
    ghost var want := Intensity(k, bt, sf, ms != 0, mask, Jobs(geo, 0, 0, 0), cpe.ch0.coeffs, cpe.ch1.coeffs);
    var groups, maxSfb := cpe.ch1.ics.numWindowGroups, cpe.ch1.ics.maxSfb;
    var base: nat := 0;
    AtStep(0, maxSfb);
    var g: nat := 0;
    while g < groups
      invariant cpe.Valid() && g <= groups && GoodJobs(Jobs(geo, g, base, At(g, maxSfb)), |bt|)
      invariant Intensity(k, bt, sf, ms != 0, mask, Jobs(geo, g, base, At(g, maxSfb)), cpe.ch0.coeffs, cpe.ch1.coeffs)
                == want
    {
      var idx := At(g, maxSfb);
      GroupLength(cpe.ch1.ics, t, e.s1.ics, g);
      BandsFit(geo, g);
      StillBands(geo, g);
      AtStep(g, maxSfb);
      GroupRestStart(geo, g, base, idx);
      IntensityGroup(k, cpe, ms, g, base, idx, geo, bt, sf, mask);
      GroupRestStep(geo, g, base, maxSfb, idx + maxSfb);
      base := base + 128 * cpe.ch1.ics.groupLen[g];
      g := g + 1;
    }
    GroupRestStart(geo, g, base, At(g, maxSfb));
    IntensityEnd(k, bt, sf, ms != 0, mask, cpe.ch0.coeffs, cpe.ch1.coeffs);
  }
}
