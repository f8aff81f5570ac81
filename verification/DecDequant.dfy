/** The decoder's dequantization and stereo tools, band by band in place. */
module DecDequant {
  import opened AacSyntax
  import opened AacParse
  import opened JobWalk
  import opened DecChannel
  import opened DecSections
  import opened DecSpectrum
  import opened DecStream
  import opened DecRender

  lemma PutSame(x: seq<int>, base: nat, len: nat)
    requires base + len <= |x|
    ensures Put(x, base, x[base..base + len]) == x
  {
  }

  lemma DequantStep(k: Kernels, bt: seq<nat>, sf: seq<int>, j: Job, rest: seq<Job>, q: seq<int>, x: seq<int>, rand: int)
    requires k.Valid() && |sf| == |bt| && |q| == |x| == 1024 && GoodJobs([j] + rest, |bt|)
    ensures GoodJob(j, |bt|) && GoodJobs(rest, |bt|)
    ensures var (y, rand') := DequantBand(k, bt[j.idx], sf[j.idx], q[j.base..j.base + j.len], x[j.base..j.base + j.len],
                                          rand);
            Dequant(k, bt, sf, [j] + rest, q, x, rand) == Dequant(k, bt, sf, rest, q, Put(x, j.base, y), rand')
  {
    hide Kernels.Valid, DequantBand, GoodJobs;
    GoodHead(j, rest, |bt|);
  }

  lemma DequantEnd(k: Kernels, bt: seq<nat>, sf: seq<int>, q: seq<int>, x: seq<int>, rand: int)
    requires k.Valid() && |sf| == |bt| && |q| == |x| == 1024 && GoodJobs([], |bt|)
    ensures Dequant(k, bt, sf, [], q, x, rand) == (x, rand)
  {
  }

  /** A zero or intensity band is passed over in all its windows. */
  lemma {:induction false} DequantSkip(k: Kernels, bt: seq<nat>, sf: seq<int>, idx: nat, base: nat, len: nat, n: nat,
                                       rest: seq<Job>,
                                       q: seq<int>, x: seq<int>, rand: int)
    requires k.Valid() && |sf| == |bt| && |q| == |x| == 1024 && idx < |bt| && bt[idx] != NOISE_BT && !Tonal(bt[idx])
    requires GoodJobs(BandJobs(idx, base, len, n) + rest, |bt|)
    ensures GoodJobs(rest, |bt|)
    ensures Dequant(k, bt, sf, BandJobs(idx, base, len, n) + rest, q, x, rand) == Dequant(k, bt, sf, rest, q, x, rand)
    decreases n
  {
    hide Kernels.Valid, Dequant, GoodJobs, BandJobs, Put;
    FirstJob(idx, base, len, n, rest);
    if n > 0 {
      DequantStep(k, bt, sf, Job(idx, base, len), BandJobs(idx, base + 128, len, n - 1) + rest, q, x, rand);
      PutSame(x, base, len);
      DequantSkip(k, bt, sf, idx, base + 128, len, n - 1, rest, q, x, rand);
    }
  }

  /** The coefficients below lim are all that the jobs look at. */
  ghost predicate JobsWithin(js: seq<Job>, lim: nat) {
    forall n :: 0 <= n < |js| ==> js[n].base + js[n].len <= lim
  }

  /** Dequantization consumes no coefficient past the transmitted bands. */
  lemma {:induction false} DequantAgree(k: Kernels, bt: seq<nat>, sf: seq<int>, js: seq<Job>, q: seq<int>, q': seq<int>,
                                        x: seq<int>, rand: int, lim: nat)
    requires k.Valid() && |sf| == |bt| && |q| == |q'| == |x| == 1024 && GoodJobs(js, |bt|) && JobsWithin(js, lim)
             && Agree(q, q', lim)
    ensures Dequant(k, bt, sf, js, q, x, rand) == Dequant(k, bt, sf, js, q', x, rand)
    decreases |js|
  {
    hide Kernels.Valid, Dequant, DequantBand, Put;
    if |js| == 0 {
      DequantEnd(k, bt, sf, q, x, rand);
      DequantEnd(k, bt, sf, q', x, rand);
      assert js == [];
    } else {
      var j, rest := js[0], js[1..];
      assert js == [j] + rest;
      assert q[j.base..j.base + j.len] == q'[j.base..j.base + j.len];
      DequantStep(k, bt, sf, j, rest, q, x, rand);
      DequantStep(k, bt, sf, j, rest, q', x, rand);
      var (y, rand') := DequantBand(k, bt[j.idx], sf[j.idx], q[j.base..j.base + j.len], x[j.base..j.base + j.len],
                                    rand);
      DequantAgree(k, bt, sf, rest, q, q', Put(x, j.base, y), rand', lim);
    }
  }

  lemma {:induction false} BandWithin(geo: Geo, i: nat, idx: nat)
    requires geo.Valid() && !geo.short && i <= geo.maxSfb && |geo.groups| > 0 && geo.groups[0] == 1
    ensures JobsWithin(GroupJobs(geo, 0, 0, i, idx), geo.edges[geo.maxSfb])
    decreases geo.maxSfb - i
  {
    hide GoodEdges;
    if i < geo.maxSfb {
      EdgesUp(geo.edges, 1024, 51, i + 1, geo.maxSfb);
      EdgesUp(geo.edges, 1024, 51, i, i + 1);
      BandWithin(geo, i + 1, idx + 1);
      BandJobsStep(idx, geo.edges[i], geo.Width(i), 1);
      BandJobsStep(idx, geo.edges[i] + 128, geo.Width(i), 0);
    }
  }

  /** A long window's jobs stay below the end of the last transmitted band. */
  lemma SeenCovers(t: Tables, i: Ics)
    requires t.Valid() && GeoOf(t, i).Valid()
    ensures JobsWithin(Jobs(GeoOf(t, i), 0, 0, 0), Seen(t, i))
  {
    var geo := GeoOf(t, i);
    if i.Short() {
      JobsGood(geo);
      forall n | 0 <= n < |Jobs(geo, 0, 0, 0)| ensures Jobs(geo, 0, 0, 0)[n].base + Jobs(geo, 0, 0, 0)[n].len <= 1024 {
        assert GoodJob(Jobs(geo, 0, 0, 0)[n], geo.Bands());
      }
    } else {
      LongGroup(geo);
      BandWithin(geo, 0, 0);
      assert Jobs(geo, 0, 0, 0) == GroupJobs(geo, 0, 0, 0, 0) + [];
    }
  }

  // ----- dequantization

  /** Fills a band with noise and scales it. */
  method NoiseBand(k: Kernels, sce: Sce, base: nat, len: nat, sf: int, rand: int) returns (rand': int)
    requires k.Valid() && sce.Sized() && base + len <= 1024
    modifies sce`coeffs
    ensures sce.Sized()
    ensures (sce.coeffs, rand') == (Put(old(sce.coeffs), base, k.noiseScale(Randoms(rand, len).0, sf)),
                                    Randoms(rand, len).1)
  {
    hide Kernels.Valid, LcgRandom;
    KernelLengths(k);
    rand' := rand;
    for n := 0 to len
      invariant sce.Sized() && rand' == Randoms(rand, n).1
      invariant sce.coeffs == Put(old(sce.coeffs), base, Randoms(rand, n).0)
    {
      rand' := LcgRandom(rand');
      ghost var was := sce.coeffs;
      sce.coeffs := sce.coeffs[base + n := rand' / 8];
      PutPush(old(sce.coeffs), base, Randoms(rand, n).0, rand' / 8);
    }
    PutOver(old(sce.coeffs), base, Randoms(rand, len).0, k.noiseScale(Randoms(rand, len).0, sf));
    PutSlice(old(sce.coeffs), base, Randoms(rand, len).0);
    sce.coeffs := Put(sce.coeffs, base, k.noiseScale(sce.coeffs[base..base + len], sf));
  }

  lemma KernelLengths(k: Kernels)
    requires k.Valid()
    ensures forall x, s :: |k.noiseScale(x, s)| == |x|
    ensures forall x, s, o :: |k.subbandScale(x, s, o)| == |x|
    ensures forall x :: |k.pow43(x)| == |x|
  {
  }

  lemma PutPush(q: seq<int>, base: nat, x: seq<int>, v: int)
    requires base + |x| < |q|
    ensures Put(q, base, x)[base + |x| := v] == Put(q, base, x + [v])
  {
  }

  lemma PutOver(q: seq<int>, base: nat, x: seq<int>, y: seq<int>)
    requires base + |x| <= |q| && |x| == |y|
    ensures Put(Put(q, base, x), base, y) == Put(q, base, y)
  {
  }

  lemma PutSlice(q: seq<int>, base: nat, x: seq<int>)
    requires base + |x| <= |q|
    ensures Put(q, base, x)[base..base + |x|] == x
  {
  }

  /** One band of one window. */
  method DequantOne(k: Kernels, sce: Sce, cb: nat, sf: int, base: nat, len: nat, rand: int) returns (rand': int)
    requires k.Valid() && sce.Sized() && base + len <= 1024 && (cb == NOISE_BT || Tonal(cb))
    modifies sce`coeffs
    ensures sce.Sized()
    ensures var (y, r) := DequantBand(k, cb, sf, sce.qcoefs[base..base + len], old(sce.coeffs[base..base + len]), rand);
            sce.coeffs == Put(old(sce.coeffs), base, y) && rand' == r
  {
    hide Kernels.Valid, Randoms;
    KernelLengths(k);
    if cb == NOISE_BT {
      rand' := NoiseBand(k, sce, base, len, sf, rand);
    } else {
      rand' := rand;
      var x := k.pow43(sce.qcoefs[base..base + len]);
      sce.coeffs := Put(sce.coeffs, base, k.subbandScale(x, sf, 34));
    }
  }

  /** One band in all windows of its group. */
  method DequantWindows(k: Kernels, sce: Sce, idx: nat, base: nat, len: nat, n: nat, rand: int, ghost bt: seq<nat>,
                        ghost sf: seq<int>,
                        ghost rest: seq<Job>) returns (rand': int)
    requires k.Valid() && sce.Sized() && |sf| == |bt| <= 128 && bt == sce.bandType[..|bt|] && sf == sce.sf[..|bt|]
    requires idx < |bt| && (bt[idx] == NOISE_BT || Tonal(bt[idx])) && GoodJobs(BandJobs(idx, base, len, n) + rest, |bt|)
    modifies sce`coeffs
    ensures sce.Sized() && GoodJobs(rest, |bt|)
    ensures Dequant(k, bt, sf, rest, sce.qcoefs, sce.coeffs, rand')
            == Dequant(k, bt, sf, BandJobs(idx, base, len, n) + rest, sce.qcoefs, old(sce.coeffs), rand)
  {
    hide Kernels.Valid, Dequant, DequantBand, GoodJobs, BandJobs, Put;
    rand' := rand;
    ghost var want := Dequant(k, bt, sf, BandJobs(idx, base, len, n) + rest, sce.qcoefs, sce.coeffs, rand);
    for g := 0 to n
      invariant sce.Sized() && GoodJobs(BandJobs(idx, base + 128 * g, len, n - g) + rest, |bt|)
      invariant Dequant(k, bt, sf, BandJobs(idx, base + 128 * g, len, n - g) + rest, sce.qcoefs, sce.coeffs, rand')
                == want
    {
      FirstJob(idx, base + 128 * g, len, n - g, rest);
      DequantStep(k, bt, sf, Job(idx, base + 128 * g, len), BandJobs(idx, base + 128 * (g + 1), len, n - g - 1) + rest,
                  sce.qcoefs, sce.coeffs, rand');
      assert bt[idx] == sce.bandType[idx] && sf[idx] == sce.sf[idx];
      rand' := DequantOne(k, sce, sce.bandType[idx], sce.sf[idx], base + 128 * g, len, rand');
    }
    FirstJob(idx, base + 128 * n, len, 0, rest);
  }

  /** The bands of one group. */
  method DequantGroup(k: Kernels, sce: Sce, g: nat, base: nat, idx0: nat, rand: int, ghost geo: Geo, ghost bt: seq<nat>,
                      ghost sf: seq<int>)
    returns (rand': int)
    requires k.Valid() && sce.Sized() && |sf| == |bt| <= 128 && bt == sce.bandType[..|bt|] && sf == sce.sf[..|bt|]
             && NoReserved(bt)
    requires geo.Valid() && geo.maxSfb == sce.ics.maxSfb && geo.edges == sce.ics.swbOffset && idx0 + geo.maxSfb <= |bt|
    requires g < |geo.groups| && g < 8 && sce.ics.groupLen[g] == geo.groups[g]
    requires GoodJobs(GroupRest(geo, g, base, 0, idx0), |bt|)
    modifies sce`coeffs
    ensures sce.Sized() && GoodJobs(GroupRest(geo, g, base, geo.maxSfb, idx0 + geo.maxSfb), |bt|)
    ensures Dequant(k, bt, sf, GroupRest(geo, g, base, geo.maxSfb, idx0 + geo.maxSfb), sce.qcoefs, sce.coeffs, rand')
            == Dequant(k, bt, sf, GroupRest(geo, g, base, 0, idx0), sce.qcoefs, old(sce.coeffs), rand)
  {
    hide Kernels.Valid, Dequant, GoodJobs, GroupRest, BandJobs, Geo.Valid;
    rand' := rand;
    var gLen, offsets := sce.ics.groupLen[g], sce.ics.swbOffset;
    ghost var want := Dequant(k, bt, sf, GroupRest(geo, g, base, 0, idx0), sce.qcoefs, sce.coeffs, rand);
    var i: nat, idx: nat := 0, idx0;
    while i < sce.ics.maxSfb
      invariant sce.Sized() && i <= geo.maxSfb && idx == idx0 + i && GoodJobs(GroupRest(geo, g, base, i, idx), |bt|)
      invariant Dequant(k, bt, sf, GroupRest(geo, g, base, i, idx), sce.qcoefs, sce.coeffs, rand') == want
    {
      GroupRestStep(geo, g, base, i, idx);
      WidthOf(geo, i);
      ghost var rest := GroupRest(geo, g, base, i + 1, idx + 1);
      var cb, offLen := sce.bandType[idx], offsets[i + 1] - offsets[i];
      assert cb == bt[idx];
      if cb == NOISE_BT || (cb != 0 && cb < NOISE_BT) {
        rand' := DequantWindows(k, sce, idx, base + offsets[i], offLen, gLen, rand', bt, sf, rest);
      } else {
        DequantSkip(k, bt, sf, idx, base + offsets[i], offLen, gLen, rest, sce.qcoefs, sce.coeffs, rand');
      }
      i, idx := i + 1, idx + 1;
    }
  }

  method ClearCoeffs(sce: Sce)
    requires sce.Sized()
    modifies sce`coeffs
    ensures sce.Sized() && sce.coeffs == seq(1024, _ => 0)
  {
    for i := 0 to 1024
      invariant sce.Sized() && forall n :: 0 <= n < i ==> sce.coeffs[n] == 0
    {
      sce.coeffs := sce.coeffs[i := 0];
    }
  }

  /** The channel's spectrum, from its own symbols and the noise generator alone. */
  method DequantChannel(k: Kernels, sce: Sce, rand: int, ghost t: Tables, ghost s: Symbols) returns (rand': int)
    requires k.Valid() && t.Valid() && sce.Sized() && Shows(sce, t, s)
    modifies sce`coeffs
    ensures sce.Sized() && GoodSymbols(t, s)
    ensures (sce.coeffs, rand') == Spectrum(k, t, s, rand)
  {
    hide Kernels.Valid, Tables.Valid, Dequant, GoodJobs, GroupRest, Jobs, Geo.Valid, At, Geo.BandsFrom, NoReserved,
         SfsOf, Agree, JobsWithin;
    ghost var geo, bt, sf := GeoOf(t, s.ics), s.bt, SfsOf(s.bt, s.sfo);
    JobsGood(geo);
    ClearCoeffs(sce);
    rand' := rand;
    ghost var want := Dequant(k, bt, sf, Jobs(geo, 0, 0, 0), sce.qcoefs, sce.coeffs, rand);
    var groups, maxSfb := sce.ics.numWindowGroups, sce.ics.maxSfb;
    var coefBase: nat, idx: nat := 0, 0;
    AtStep(0, maxSfb);
    var g: nat := 0;
    while g < groups
      invariant sce.Sized() && g <= groups && idx == At(g, maxSfb) && GoodJobs(Jobs(geo, g, coefBase, idx), |bt|)
      invariant Dequant(k, bt, sf, Jobs(geo, g, coefBase, idx), sce.qcoefs, sce.coeffs, rand') == want
    {
      GroupLength(sce.ics, t, s.ics, g);
      BandsFit(geo, g);
      StillBands(geo, g);
      AtStep(g, maxSfb);
      GroupRestStart(geo, g, coefBase, idx);
      rand' := DequantGroup(k, sce, g, coefBase, idx, rand', geo, bt, sf);
      GroupRestStep(geo, g, coefBase, maxSfb, idx + maxSfb);
      coefBase := coefBase + 128 * sce.ics.groupLen[g];
      idx := idx + maxSfb;
      g := g + 1;
    }
    GroupRestStart(geo, g, coefBase, idx);
    DequantEnd(k, bt, sf, sce.qcoefs, sce.coeffs, rand');
    SeenCovers(t, s.ics);
    DequantAgree(k, bt, sf, Jobs(geo, 0, 0, 0), sce.qcoefs, s.q, seq(1024, _ => 0), rand, Seen(t, s.ics));
  }
}
