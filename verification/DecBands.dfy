/** What dequantization and the stereo tools do to one coefficient: which band of
    which window it lies in decides it, and no coefficient is met twice. */
module DecBands {
  import opened AacSyntax
  import opened AacParse
  import opened AacFrame
  import opened DecRender
  import opened AacPrint
  import opened RoundTrip
  import opened RoundTripSide
  import Arith

  // ----- the band of a coefficient

  predicate Holds(j: Job, x: nat) {
    j.base <= x < j.base + j.len
  }

  /** How many of the jobs meet the coefficient. */
  function Meets(js: seq<Job>, x: nat): nat {
    if |js| == 0 then 0 else (if Holds(js[0], x) then 1 else 0) + Meets(js[1..], x)
  }

  /** The first that does. */
  function JobOf(js: seq<Job>, x: nat): Option<Job> {
    if |js| == 0 then None else if Holds(js[0], x) then Some(js[0]) else JobOf(js[1..], x)
  }

  lemma {:induction false} JobOfAppend(a: seq<Job>, b: seq<Job>, x: nat)
    ensures Meets(a + b, x) == Meets(a, x) + Meets(b, x)
    ensures JobOf(a + b, x) == if JobOf(a, x).Some? then JobOf(a, x) else JobOf(b, x)
    ensures Meets(a, x) == 0 <==> JobOf(a, x) == None
  {
    if |a| == 0 {
      assert a + b == b;
    } else {
      assert (a + b)[1..] == a[1..] + b;
      JobOfAppend(a[1..], b, x);
    }
  }

  lemma {:induction false} BandAbove(idx: nat, base: nat, len: nat, n: nat, x: nat)
    requires x < base
    ensures Meets(BandJobs(idx, base, len, n), x) == 0 && JobOf(BandJobs(idx, base, len, n), x) == None
    decreases n
  {
    if n > 0 {
      BandAbove(idx, base + 128, len, n - 1, x);
    }
  }

  /** One band of a group of n windows meets what lies in it in any of them: the
      coefficient at off in window k, from base on. */
  lemma {:induction false} BandMeets(idx: nat, base: nat, e: nat, len: nat, n: nat, k: nat, off: nat)
    requires e + len <= 128 && off < 128
    ensures var (js, x) := (BandJobs(idx, base + e, len, n), base + 128 * k + off);
            if k < n && e <= off < e + len then Meets(js, x) == 1 && JobOf(js,
                    x) == Some(Job(idx, base + 128 * k + e, len))
            else Meets(js, x) == 0 && JobOf(js, x) == None
    decreases n
  {
    if n > 0 {
      assert BandJobs(idx, base + e, len, n)[1..] == BandJobs(idx, base + e + 128, len, n - 1);
      if k == 0 {
        BandAbove(idx, base + e + 128, len, n - 1, base + off);
      } else {
        BandMeets(idx, base + 128, e, len, n - 1, k - 1, off);
      }
    }
  }

  /** The band an offset falls into, from band i on. */
  function BandAt(edges: seq<nat>, i: nat, m: nat, off: nat): (b: nat)
    requires i < m < |edges| && edges[i] <= off < edges[m]
    ensures i <= b < m && edges[b] <= off < edges[b + 1]
    decreases m - i
  {
    if off < edges[i + 1] then i else BandAt(edges, i + 1, m, off)
  }

  lemma WidthFits(geo: Geo, i: nat)
    requires geo.Valid() && geo.short && i < geo.maxSfb
    ensures geo.maxSfb < |geo.edges| && geo.edges[i] < geo.edges[i + 1] <= geo.edges[geo.maxSfb] <= 128
    ensures geo.Width(i) == geo.edges[i + 1] - geo.edges[i]
  {
    EdgesUp(geo.edges, 128, 15, i, i + 1);
    EdgesUp(geo.edges, 128, 15, i + 1, geo.maxSfb);
    EdgesUp(geo.edges, 128, 15, geo.maxSfb, |geo.edges| - 1);
  }

  /** The bands of a group of short windows. */
  lemma {:induction false} GroupMeets(geo: Geo, g: nat, base: nat, i: nat, idx: nat, k: nat, off: nat)
    requires geo.Valid() && geo.short && g < |geo.groups| && i <= geo.maxSfb && off < 128
    ensures var (js, x) := (GroupJobs(geo, g, base, i, idx), base + 128 * k + off);
            if k < geo.groups[g] && geo.edges[i] <= off < geo.edges[geo.maxSfb]
            then
              var b := BandAt(geo.edges, i, geo.maxSfb, off);
              Meets(js, x) == 1 && JobOf(js, x) == Some(Job(idx + b - i, base + 128 * k + geo.edges[b], geo.Width(b)))
            else Meets(js, x) == 0 && JobOf(js, x) == None
    decreases geo.maxSfb - i
  {
    hide Geo.Valid, Meets, JobOf, BandJobs;
    if i < geo.maxSfb {
      var (x, len, n) := (base + 128 * k + off, geo.Width(i), geo.groups[g]);
      WidthFits(geo, i);
      GroupMeets(geo, g, base, i + 1, idx + 1, k, off);
      BandMeets(idx, base, geo.edges[i], len, n, k, off);
      JobOfAppend(BandJobs(idx, base + geo.edges[i], len, n), GroupJobs(geo, g, base, i + 1, idx + 1), x);
    } else {
      NoJob(base + 128 * k + off);
    }
  }

  lemma NoJob(x: nat)
    ensures Meets([], x) == 0 && JobOf([], x) == None
  {
  }

  /** The group of window w, from group g on, which starts at window start. */
  function GroupOf(groups: seq<nat>, g: nat, start: nat, w: nat): (r: nat)
    requires g <= |groups| && start <= w < start + Sum(groups[g..])
    ensures g <= r < |groups|
    decreases |groups| - g
  {
    assert groups[g..][1..] == groups[g + 1..];
    if w < start + groups[g] then g else GroupOf(groups, g + 1, start + groups[g], w)
  }

  /** It holds w between what its predecessors hold and what it adds. */
  lemma {:induction false} GroupOfIs(groups: seq<nat>, g: nat, start: nat, w: nat)
    requires g <= |groups| && start == Sum(groups[..g]) && start <= w < start + Sum(groups[g..])
    ensures var r := GroupOf(groups, g, start, w);
            Sum(groups[..r]) <= w < Sum(groups[..r]) + groups[r]
    decreases |groups| - g
  {
    assert groups[g..][1..] == groups[g + 1..];
    if w >= start + groups[g] {
      assert groups[..g + 1] == groups[..g] + [groups[g]];
      SumSnoc(groups[..g], groups[g]);
      GroupOfIs(groups, g + 1, start + groups[g], w);
    }
  }

  function EdgeOf(geo: Geo): nat
    requires geo.Valid()
  {
    geo.edges[geo.maxSfb]
  }

  /** The transmitted band an offset into its window lies in. */
  function BandIn(geo: Geo, off: nat): (b: nat)
    requires geo.Valid() && off < EdgeOf(geo)
    ensures b < geo.maxSfb < |geo.edges| && geo.edges[b] <= off < geo.edges[b] + geo.Width(b)
  {
    BandAt(geo.edges, 0, geo.maxSfb, off)
  }

  /** The job of coefficient off of window w, in group g and with the group's
      first index. */
  function Spot(geo: Geo, w: nat, idx: nat, off: nat): (r: Option<Job>)
    requires geo.Valid()
  {
    if EdgeOf(geo) <= off then None
    else
      var b := BandIn(geo, off);
      Some(Job(idx + b, 128 * w + geo.edges[b], geo.Width(b)))
  }

  lemma GroupSpot(geo: Geo, g: nat, start: nat, idx: nat, w: nat, off: nat)
    requires geo.Valid() && geo.short && g < |geo.groups| && off < 128 && start <= w
    ensures var (js, x) := (GroupJobs(geo, g, 128 * start, 0, idx), 128 * w + off);
            && JobOf(js, x) == (if w < start + geo.groups[g] then Spot(geo, w, idx, off) else None)
            && Meets(js, x) == if JobOf(js, x).Some? then 1 else 0
  {
    assert geo.edges[0] == 0;
    assert 128 * start + 128 * (w - start) + off == 128 * w + off;
    hide Meets, JobOf, GroupJobs, BandAt;
    GroupMeets(geo, g, 128 * start, 0, idx, w - start, off);
  }

  /** Short windows: coefficient off of window w, from group g on. */
  lemma {:induction false} ShortMeets(geo: Geo, g: nat, start: nat, idx: nat, w: nat, off: nat)
    requires geo.Valid() && geo.short && g <= |geo.groups| && off < 128
    requires start <= w < start + Sum(geo.groups[g..])
    ensures var (js, x) := (Jobs(geo, g, 128 * start, idx), 128 * w + off);
            && JobOf(js, x) == Spot(geo, w, idx + (GroupOf(geo.groups, g, start, w) - g) * geo.maxSfb, off)
            && Meets(js, x) == if JobOf(js, x).Some? then 1 else 0
    decreases |geo.groups| - g
  {
    hide GroupJobs, Meets, JobOf, Geo.Valid, Spot;
    var x := 128 * w + off;
    var n := geo.groups[g];
    assert geo.groups[g..][1..] == geo.groups[g + 1..];
    GroupSpot(geo, g, start, idx, w, off);
    JobOfAppend(GroupJobs(geo, g, 128 * start, 0, idx), Jobs(geo, g + 1, 128 * (start + n), idx + geo.maxSfb), x);
    if w < start + n {
      LaterAbove(geo, g + 1, start + n, idx + geo.maxSfb, x);
    } else {
      ShortMeets(geo, g + 1, start + n, idx + geo.maxSfb, w, off);
      Arith.MulSucc(GroupOf(geo.groups, g + 1, start + n, w) - (g + 1), geo.maxSfb);
    }
  }

  /** Later groups lie behind. */
  lemma {:induction false} LaterAbove(geo: Geo, g: nat, start: nat, idx: nat, x: nat)
    requires geo.Valid() && geo.short && g <= |geo.groups| && x < 128 * start
    ensures Meets(Jobs(geo, g, 128 * start, idx), x) == 0 && JobOf(Jobs(geo, g, 128 * start, idx), x) == None
    decreases |geo.groups| - g
  {
    hide GroupJobs, Meets, JobOf;
    if g < |geo.groups| {
      var n := geo.groups[g];
      GroupAbove(geo, g, 128 * start, 0, idx, x);
      LaterAbove(geo, g + 1, start + n, idx + geo.maxSfb, x);
      JobOfAppend(GroupJobs(geo, g, 128 * start, 0, idx), Jobs(geo, g + 1, 128 * (start + n), idx + geo.maxSfb), x);
    } else {
      NoJob(x);
    }
  }

  lemma {:induction false} GroupAbove(geo: Geo, g: nat, base: nat, i: nat, idx: nat, x: nat)
    requires geo.Valid() && geo.short && g < |geo.groups| && i <= geo.maxSfb && x < base
    ensures Meets(GroupJobs(geo, g, base, i, idx), x) == 0 && JobOf(GroupJobs(geo, g, base, i, idx), x) == None
    decreases geo.maxSfb - i
  {
    hide Meets, JobOf, BandJobs;
    if i < geo.maxSfb {
      var (len, n) := (geo.Width(i), geo.groups[g]);
      BandAbove(idx, base + geo.edges[i], len, n, x);
      GroupAbove(geo, g, base, i + 1, idx + 1, x);
      JobOfAppend(BandJobs(idx, base + geo.edges[i], len, n), GroupJobs(geo, g, base, i + 1, idx + 1), x);
    } else {
      NoJob(x);
    }
  }

  /** The bands of a long window. */
  lemma {:induction false} LongMeets(geo: Geo, i: nat, idx: nat, x: nat)
    requires geo.Valid() && !geo.short && geo.groups == [1] && i <= geo.maxSfb
    ensures geo.maxSfb < |geo.edges|
    ensures var js := GroupJobs(geo, 0, 0, i, idx);
            if geo.edges[i] <= x < geo.edges[geo.maxSfb]
            then
              var b := BandAt(geo.edges, i, geo.maxSfb, x);
              Meets(js, x) == 1 && JobOf(js, x) == Some(Job(idx + b - i, geo.edges[b], geo.Width(b)))
            else Meets(js, x) == 0 && JobOf(js, x) == None
    decreases geo.maxSfb - i
  {
    if i < geo.maxSfb {
      EdgesUp(geo.edges, 1024, 51, i, i + 1);
      EdgesUp(geo.edges, 1024, 51, i + 1, geo.maxSfb);
      hide GoodEdges;
      LongMeets(geo, i + 1, idx + 1, x);
      OneBand(idx, geo.edges[i], geo.Width(i), x);
      hide Meets, JobOf, BandJobs;
      JobOfAppend(BandJobs(idx, geo.edges[i], geo.Width(i), 1), GroupJobs(geo, 0, 0, i + 1, idx + 1), x);
    }
  }

  lemma OneBand(idx: nat, base: nat, len: nat, x: nat)
    ensures var js := BandJobs(idx, base, len, 1);
            if base <= x < base + len then Meets(js, x) == 1 && JobOf(js, x) == Some(Job(idx, base, len))
            else Meets(js, x) == 0 && JobOf(js, x) == None
  {
    assert BandJobs(idx, base, len, 1) == [Job(idx, base, len)];
    assert [Job(idx, base, len)][1..] == [];
  }

  /** The band and window a coefficient lies in, with its (group, band) index;
      none behind the last transmitted band of its window. */
  function BandOf(geo: Geo, x: nat): (r: Option<Job>)
    requires geo.Valid() && x < 1024
  {
    if geo.short then
      assert geo.groups[0..] == geo.groups;
      Spot(geo, x / 128, GroupOf(geo.groups, 0, 0, x / 128) * geo.maxSfb, x % 128)
    else Spot(geo, 0, 0, x)
  }

  /** The walk over the bands meets every coefficient below the last transmitted
      band of its window exactly once, and no other. */
  lemma WalkMeets(geo: Geo, x: nat)
    requires geo.Valid() && x < 1024
    ensures JobOf(Jobs(geo, 0, 0, 0), x) == BandOf(geo, x)
    ensures Meets(Jobs(geo, 0, 0, 0), x) == if BandOf(geo, x).Some? then 1 else 0
  {
    assert geo.groups[0..] == geo.groups && (geo.short ==> Sum(geo.groups) == 8);
    hide Meets, JobOf, Geo.Valid, Spot;
    if geo.short {
      ShortMeets(geo, 0, 0, 0, x / 128, x % 128);
    } else {
      LongSpot(geo, x);
    }
  }

  lemma LongSpot(geo: Geo, x: nat)
    requires geo.Valid() && !geo.short && x < 1024
    ensures var js := Jobs(geo, 0, 0, 0);
            JobOf(js, x) == Spot(geo, 0, 0, x) && Meets(js, x) == if JobOf(js, x).Some? then 1 else 0
  {
    assert geo.edges[0] == 0;
    LongGroup(geo);
    hide Meets, JobOf, GroupJobs, BandAt;
    LongMeets(geo, 0, 0, x);
    assert Jobs(geo, 1, 128, geo.maxSfb) == [];
    assert Jobs(geo, 0, 0, 0) == GroupJobs(geo, 0, 0, 0, 0) + [] == GroupJobs(geo, 0, 0, 0, 0);
  }

  // ----- mid/side

  /** A coefficient met at most once: sum and difference in a selected band,
      nothing elsewhere. */
  lemma {:induction false} MidSideAt(bt0: seq<nat>, bt1: seq<nat>, mask: seq<nat>, js: seq<Job>, x0: seq<int>,
                                     x1: seq<int>, x: nat)
    requires |bt0| == |bt1| == |mask| && |x0| == |x1| == 1024 && GoodJobs(js, |bt0|) && x < 1024 && Meets(js, x) <= 1
    ensures var (r, j) := (MidSide(bt0, bt1, mask, js, x0, x1), JobOf(js, x));
            && (j.Some? ==> j.value.idx < |mask|)
            && if j.Some? && mask[j.value.idx] != 0 && bt0[j.value.idx] < NOISE_BT && bt1[j.value.idx] < NOISE_BT
               then r.0[x] == Wrap32(x0[x] + x1[x]) && r.1[x] == Wrap32(x0[x] - x1[x])
               else r.0[x] == x0[x] && r.1[x] == x1[x]
    decreases |js|
  {
    hide Wrap32;
    if |js| > 0 {
      var j := js[0];
      assert GoodJob(j, |bt0|);
      var y := if IsMidSide(bt0, bt1, mask, j.idx) then Butterfly(j, x0, x1) else (x0, x1);
      MidSideAt(bt0, bt1, mask, js[1..], y.0, y.1, x);
      if Holds(j, x) {
        JobOfAppend(js[1..], [], x);
        assert js[1..] + [] == js[1..];
      }
    }
  }

  // ----- intensity

  /** INTENSITY_BT takes the first channel as it is and INTENSITY_BT2 negated; a
      set mask bit of a pair with M/S turns that round. */
  lemma IntensitySign(bt: nat, sf: int, on: bool, bit: nat)
    requires (bt == INTENSITY_BT || bt == INTENSITY_BT2) && bit <= 1
    ensures IntensityScale(bt, sf, on, bit) == if (bt == INTENSITY_BT2) != (on && bit == 1) then -sf else sf
  {
  }

  /** An intensity band of the second channel is the first channel's, scaled. */
  lemma {:induction false} IntensityAt(k: Kernels, bt: seq<nat>, sf: seq<int>, on: bool, mask: seq<nat>, js: seq<Job>,
                                       x0: seq<int>, x1: seq<int>, x: nat)
    requires k.Valid() && |bt| == |sf| && (on ==> |mask| == |bt|) && |x0| == |x1| == 1024 && GoodJobs(js, |bt|)
    requires x < 1024 && Meets(js, x) <= 1
    ensures var j := JobOf(js, x);
            && (j.Some? ==> GoodJob(j.value, |bt|) && Holds(j.value, x))
            && Intensity(k, bt, sf, on, mask, js, x0, x1)[x]
               == if j.None? || !(bt[j.value.idx] == INTENSITY_BT || bt[j.value.idx] == INTENSITY_BT2) then x1[x]
                  else ScaledBand(k, x0, j.value, IntensityScale(bt[j.value.idx], sf[j.value.idx], on,
                                                                 if on then mask[j.value.idx] else 0))[x - j.value.base]
    decreases |js|
  {
    hide IntensityScale, Kernels.Valid;
    if |js| > 0 {
      var j := js[0];
      assert GoodJob(j, |bt|);
      var s := IntensityScale(bt[j.idx], sf[j.idx], on, if on then mask[j.idx] else 0);
      var y := if bt[j.idx] == INTENSITY_BT || bt[j.idx] == INTENSITY_BT2 then Put(x1, j.base, ScaledBand(k, x0, j, s))
               else x1;
      IntensityAt(k, bt, sf, on, mask, js[1..], x0, y, x);
      if Holds(j, x) {
        JobOfAppend(js[1..], [], x);
        assert js[1..] + [] == js[1..];
      }
    }
  }

  function ScaledBand(k: Kernels, x0: seq<int>, j: Job, scale: int): (r: seq<int>)
    requires k.Valid() && |x0| == 1024 && j.base + j.len <= 1024
    ensures |r| == j.len
  {
    k.subbandScale(x0[j.base..j.base + j.len], scale, 23)
  }

  // ----- dequantization

  /** The noise coefficients filled before the one at x. */
  function NoiseBefore(bt: seq<nat>, js: seq<Job>, x: nat): nat
    requires GoodJobs(js, |bt|)
  {
    if |js| == 0 then 0
    else
      assert GoodJob(js[0], |bt|);
      if Holds(js[0], x) then 0
      else (if bt[js[0].idx] == NOISE_BT then js[0].len else 0) + NoiseBefore(bt, js[1..], x)
  }

  /** The generator after n steps. */
  function Drawn(rand: int, n: nat): int
    decreases n
  {
    if n == 0 then rand else Drawn(LcgRandom(rand), n - 1)
  }

  lemma {:induction false} DrawnMore(rand: int, n: nat)
    ensures Drawn(rand, n + 1) == LcgRandom(Drawn(rand, n))
    decreases n
  {
    hide LcgRandom;
    if n > 0 {
      DrawnMore(LcgRandom(rand), n - 1);
    }
  }

  lemma {:induction false} DrawnTwice(rand: int, m: nat, n: nat)
    ensures Drawn(Drawn(rand, m), n) == Drawn(rand, m + n)
    decreases m
  {
    hide LcgRandom;
    if m > 0 {
      DrawnTwice(LcgRandom(rand), m - 1, n);
    }
  }

  /** Raw noise is the generator's next outputs in order, three bits shorter. */
  lemma {:induction false} RandomsAre(rand: int, n: nat)
    ensures Randoms(rand, n).1 == Drawn(rand, n)
    ensures forall i: nat :: i < n ==> Randoms(rand, n).0[i] == Drawn(rand, i + 1) / 8
    decreases n
  {
    hide LcgRandom;
    if n > 0 {
      RandomsAre(rand, n - 1);
      DrawnMore(rand, n - 1);
    }
  }

  /** The generator's next output is a word, that of the multiply and add. */
  lemma NextRandom(prev: int)
    ensures -0x8000_0000 <= LcgRandom(prev) < 0x8000_0000
    ensures exists d: int :: LcgRandom(prev) == prev * 1664525 + 1013904223 + MOD32 * d
  {
    var v := (prev % MOD32) * 1664525 + 1013904223;
    var q := -(v / MOD32) - (if v % MOD32 >= 0x8000_0000 then 1 else 0);
    var d := q - (prev / MOD32) * 1664525;
    assert prev == (prev / MOD32) * MOD32 + prev % MOD32;
    assert LcgRandom(prev) == prev * 1664525 + 1013904223 + MOD32 * d;
  }

  function NoiseOf(k: Kernels, rand: int, len: nat, sf: int): (r: seq<int>)
    requires k.Valid()
    ensures |r| == len
  {
    k.noiseScale(seq(len, i requires 0 <= i < len => Drawn(rand, i + 1) / 8), sf)
  }

  function ValueOf(k: Kernels, q: seq<int>, j: Job, sf: int): (r: seq<int>)
    requires k.Valid() && |q| == 1024 && j.base + j.len <= 1024
    ensures |r| == j.len
  {
    k.subbandScale(k.pow43(q[j.base..j.base + j.len]), sf, 34)
  }

  lemma NoiseIs(k: Kernels, rand: int, len: nat, sf: int)
    requires k.Valid()
    ensures k.noiseScale(Randoms(rand, len).0, sf) == NoiseOf(k, rand, len, sf)
  {
    hide LcgRandom;
    RandomsAre(rand, len);
    assert Randoms(rand, len).0 == seq(len, i requires 0 <= i < len => Drawn(rand, i + 1) / 8);
  }

  lemma BandValue(k: Kernels, cb: nat, sf: int, q: seq<int>, x0: seq<int>, j: Job, rand: int, x: nat)
    requires k.Valid() && |q| == |x0| == 1024 && j.base + j.len <= 1024 && Holds(j, x)
    ensures DequantBand(k, cb, sf, q[j.base..j.base + j.len], x0[j.base..j.base + j.len], rand).0[x - j.base]
            == if cb == NOISE_BT then NoiseOf(k, rand, j.len, sf)[x - j.base]
               else if Tonal(cb) then ValueOf(k, q, j, sf)[x - j.base] else x0[x]
  {
    hide NoiseOf, LcgRandom, Randoms;
    NoiseIs(k, rand, j.len, sf);
  }

  /** One coefficient: scaled in a coded band, noise in a noise band, zero
      everywhere else; the generator moves on once for every noise coefficient
      and in the order of the walk. */
  lemma {:induction false} DequantAt(k: Kernels, bt: seq<nat>, sf: seq<int>, js: seq<Job>, q: seq<int>, x0: seq<int>,
                                     rand: int, x: nat)
    requires k.Valid() && |sf| == |bt| && |q| == |x0| == 1024 && GoodJobs(js, |bt|) && x < 1024 && Meets(js, x) <= 1
    ensures var (j, n) := (JobOf(js, x), NoiseBefore(bt, js, x));
            && (j.Some? ==> GoodJob(j.value, |bt|) && Holds(j.value, x))
            && Dequant(k, bt, sf, js, q, x0, rand).0[x]
               == if j.None? then x0[x]
                  else if bt[j.value.idx] == NOISE_BT
                  then NoiseOf(k, Drawn(rand, n), j.value.len, sf[j.value.idx])[x - j.value.base]
                  else if Tonal(bt[j.value.idx]) then ValueOf(k, q, j.value, sf[j.value.idx])[x - j.value.base]
                  else x0[x]
    decreases |js|
  {
    hide Kernels.Valid, LcgRandom, Randoms, NoiseOf, ValueOf;
    if |js| > 0 {
      var j := js[0];
      assert GoodJob(j, |bt|);
      var (y, rand') := DequantBand(k, bt[j.idx], sf[j.idx], q[j.base..j.base + j.len], x0[j.base..j.base + j.len],
                                    rand);
      DequantAt(k, bt, sf, js[1..], q, Put(x0, j.base, y), rand', x);
      RandomsAre(rand, j.len);
      if Holds(j, x) {
        JobOfAppend(js[1..], [], x);
        assert js[1..] + [] == js[1..];
        BandValue(k, bt[j.idx], sf[j.idx], q, x0, j, rand, x);
        assert Put(x0, j.base, y)[x] == y[x - j.base];
      } else {
        DrawnTwice(rand, j.len, NoiseBefore(bt, js[1..], x));
      }
    }
  }

  // ----- whole channels and pairs

  /** The spectrum of a channel, coefficient by coefficient. */
  lemma SpectrumAt(k: Kernels, t: Tables, s: Symbols, rand: int, x: nat)
    requires k.Valid() && GoodSymbols(t, s) && x < 1024
    ensures var (j, n) := (BandOf(GeoOf(t, s.ics), x), NoiseBefore(s.bt, ChannelJobs(t, s), x));
            && (j.Some? ==> GoodJob(j.value, |s.bt|) && Holds(j.value, x))
            && Spectrum(k, t, s, rand).0[x]
               == if j.None? then 0
                  else
                    var (cb, sf) := (s.bt[j.value.idx], SfOf(s.bt[j.value.idx], s.sfo[j.value.idx]));
                    if cb == NOISE_BT then NoiseOf(k, Drawn(rand, n), j.value.len, sf)[x - j.value.base]
                    else if Tonal(cb) then ValueOf(k, s.q, j.value, sf)[x - j.value.base]
                    else 0
  {
    hide Kernels.Valid, Geo.Valid, BandOf, Jobs, NoiseOf, ValueOf, Geo.BandsFrom, NoiseBefore, Dequant, GoodJobs, SfOf;
    WalkMeets(GeoOf(t, s.ics), x);
    DequantAt(k, s.bt, SfsOf(s.bt, s.sfo), ChannelJobs(t, s), s.q, seq(1024, _ => 0), rand, x);
  }

  /** The spectra of a pair from those of its channels: sum and difference where
      the mask selects a band coded in both, the first channel scaled and signed
      in the intensity bands of the second. */
  lemma PairSpectraAt(k: Kernels, t: Tables, e: Element, rand: int, x: nat)
    requires k.Valid() && GoodElement(t, e) && e.Pair? && x < 1024
    ensures var (s0, s1) := (e.s0, e.s1);
            var (a, b) := (Spectrum(k, t, s0, rand).0, Spectrum(k, t, s1, Spectrum(k, t, s0, rand).1).0);
            var (first, second) := (PairSpectra(k, t, e, rand).0, PairSpectra(k, t, e, rand).1);
            var (j0, j1) := (BandOf(GeoOf(t, s0.ics), x), BandOf(GeoOf(t, s1.ics), x));
            && (j1.Some? ==> GoodJob(j1.value, |s1.bt|) && Holds(j1.value, x))
            && (e.ms != 0 ==> |e.mask| == |s0.bt| == |s1.bt|)
            && (if Selected(e, j0)
                then first[x] == Wrap32(a[x] + b[x]) && (!InIntensity(e, j1) ==> second[x] == Wrap32(a[x] - b[x]))
                else first[x] == a[x] && (!InIntensity(e, j1) ==> second[x] == b[x]))
            && (InIntensity(e, j1) ==>
                  second[x] == ScaledBand(k, first, j1.value, IntensityGain(e, j1.value.idx))[x - j1.value.base])
  {
    hide Kernels.Valid, Geo.Valid, BandOf, Jobs, Geo.BandsFrom, GoodJobs, MidSide, Intensity, Spectrum, SfOf, Wrap32,
         IntensityScale, Meets, JobOf, ScaledBand;
    var (s0, s1) := (e.s0, e.s1);
    var (a, b) := (Spectrum(k, t, s0, rand).0, Spectrum(k, t, s1, Spectrum(k, t, s0, rand).1).0);
    WalkMeets(GeoOf(t, s0.ics), x);
    WalkMeets(GeoOf(t, s1.ics), x);
    var y := if e.common && e.ms != 0 then MidSide(s0.bt, s1.bt, e.mask, ChannelJobs(t, s0), a, b) else (a, b);
    if e.common && e.ms != 0 {
      MidSideAt(s0.bt, s1.bt, e.mask, ChannelJobs(t, s0), a, b, x);
    }
    IntensityAt(k, s1.bt, SfsOf(s1.bt, s1.sfo), e.ms != 0, e.mask, ChannelJobs(t, s1), y.0, y.1, x);
  }

  /** The band lies in one the mask selects, coded in both channels. */
  predicate Selected(e: Element, j: Option<Job>)
    requires e.Pair?
  {
    && e.ms != 0 && j.Some? && j.value.idx < |e.mask| && j.value.idx < |e.s0.bt| && j.value.idx < |e.s1.bt|
    && e.mask[j.value.idx] != 0 && e.s0.bt[j.value.idx] < NOISE_BT && e.s1.bt[j.value.idx] < NOISE_BT
  }

  predicate InIntensity(e: Element, j: Option<Job>)
    requires e.Pair?
  {
    && j.Some? && j.value.idx < |e.s1.bt|
    && (e.s1.bt[j.value.idx] == INTENSITY_BT || e.s1.bt[j.value.idx] == INTENSITY_BT2)
  }

  /** The scale of an intensity band of the second channel. */
  function IntensityGain(e: Element, idx: nat): int
    requires e.Pair? && idx < |e.s1.bt| == |e.s1.sfo| && (e.ms != 0 ==> |e.mask| == |e.s1.bt|)
  {
    IntensityScale(e.s1.bt[idx], SfOf(e.s1.bt[idx], e.s1.sfo[idx]), e.ms != 0, if e.ms != 0 then e.mask[idx] else 0)
  }

  // ----- scales

  lemma {:induction false} SfosAt(bt: seq<nat>, sf: seq<int>, i: nat, k: nat)
    requires |bt| == |sf| && i <= k < |bt|
    ensures |Sfos(bt, sf, i)| == |bt| - i && Sfos(bt, sf, i)[k - i] == Sfo(bt[k], sf[k])
    decreases |bt| - i
  {
    if i < k {
      SfosAt(bt, sf, i + 1, k);
    } else {
      SfosLength(bt, sf, i + 1);
    }
  }

  /** A written scalefactor scales its band by its own value: negated in a coded
      band, from 100 down in an intensity band, from -100 down in a noise band. */
  lemma ScalesComeBack(t: Tables, ch: Channel, i: nat)
    requires WellFormed(t, ch) && i < |ch.bt|
    ensures |Expected(t, ch).sfo| == |ch.bt| == |ch.sf|
    ensures SfOf(ch.bt[i], Expected(t, ch).sfo[i])
            == if ch.bt[i] == ZERO_BT then 0
               else if ch.bt[i] == NOISE_BT then -100 - ch.sf[i]
               else if ch.bt[i] == INTENSITY_BT || ch.bt[i] == INTENSITY_BT2 then 100 - ch.sf[i]
               else -ch.sf[i]
  {
    hide Tables.Valid, Geo.Valid, Jobs, ExpectTns, LegalTns, LegalSfs, SectionsFit, AllCarried;
    SfosAt(ch.bt, ch.sf, 0, i);
  }
}
