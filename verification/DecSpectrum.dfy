/** The decoder's spectral_data: codewords to quantized coefficients in place, then
    pulses. */
module DecSpectrum {
  import opened BitStrings
  import opened BitReader
  import opened Vlc
  import opened AacSyntax
  import opened AacParse
  import opened JobWalk
  import opened DecChannel
  import opened DecSections
  import opened DecCoefs

  lemma PutPut(q: seq<int>, base: nat, x: seq<int>, y: seq<int>)
    requires base + |x| + |y| <= |q|
    ensures Put(Put(q, base, x), base + |x|, y) == Put(q, base, x + y)
  {
  }

  lemma PutNone(q: seq<int>, base: nat)
    requires base <= |q|
    ensures Put(q, base, []) == q
  {
  }

  /** Stores the values of one codeword. */
  method Store(sce: Sce, at: nat, x: seq<int>)
    requires sce.Sized() && at + |x| <= 1024
    modifies sce`qcoefs
    ensures sce.Sized() && sce.qcoefs == Put(old(sce.qcoefs), at, x)
  {
    for j := 0 to |x|
      invariant sce.Sized() && sce.qcoefs == Put(old(sce.qcoefs), at, x[..j])
    {
      sce.qcoefs := sce.qcoefs[at + j := x[j]];
    }
    assert x[..|x|] == x;
  }

  lemma BandStep(t: Tables, cb: nat, c: Cursor, left: nat, x: seq<int>)
    requires t.Valid() && Tonal(cb)
    ensures left == 0 ==> ParseBand(t, cb, c, left, x) == Good(x, c)
    ensures left > 0 ==>
              var p := ParseChunk(t, cb, c);
              && (p.Bad? ==> ParseBand(t, cb, c, left, x) == Bad(p.err))
              && (p.Good? ==>
                  |p.val| == Dim(cb) && ParseBand(t, cb, c, left, x) == ParseBand(t, cb, p.c, left - 1, x + p.val))
  {
    hide Tables.Valid, ParseChunk;
  }

  lemma ChunksFit(cb: nat, len: nat)
    requires Tonal(cb) && len % 4 == 0
    ensures Values(cb, Chunks(cb, len)) == len
    ensures Values(cb, 0) == 0
  {
  }

  lemma ChunkFits(cb: nat, len: nat, n: nat)
    requires Tonal(cb) && len % 4 == 0 && n <= Chunks(cb, len)
    ensures Values(cb, n) <= len && (Values(cb, n) < len <==> n < Chunks(cb, len))
    ensures n < Chunks(cb, len) ==> Values(cb, n) + Dim(cb) == Values(cb, n + 1) <= len
  {
  }

  /** The coefficients of one band of one window. */
  method DecodeBand(r: Reader, sce: Sce, codes: seq<Table>, ghost t: Tables, cb: nat, base: nat, len: nat)
      returns (err: Option<Err>)
    requires r.Valid() && sce.Sized() && CodesReady(t, codes) && Tonal(cb) && base + len <= 1024 && len % 4 == 0
    modifies r`pos, r`overread, sce`qcoefs
    ensures r.Valid() && sce.Sized()
    ensures var p := ParseBand(t, cb, old(r.Cur()), Chunks(cb, len), []);
            && err == Failure(p)
            && (p.Good? ==> |p.val| == len && r.Cur() == p.c && sce.qcoefs == Put(old(sce.qcoefs), base, p.val))
  {
    hide Reader.Valid, Reader.Cur, CodesReady, Tables.Valid, ParseBand, ParseChunk, Put, Chunks, Values, Dim;
    CodesValid(t, codes);
    ChunksFit(cb, len);
    ghost var x: seq<int> := [];
    ghost var n: nat, total := 0, Chunks(cb, len);
    ghost var c0, q0 := r.Cur(), sce.qcoefs;
    PutNone(q0, base);
    var cf: nat := 0;
    while cf < len
      invariant r.Valid() && sce.Sized() && CodesReady(t, codes)
      invariant n <= total && cf == |x| == Values(cb, n) <= len
      invariant sce.qcoefs == Put(q0, base, x)
      invariant ParseBand(t, cb, r.Cur(), total - n, x) == ParseBand(t, cb, c0, total, [])
      decreases total - n
    {
      ChunkFits(cb, len, n);
      BandStep(t, cb, r.Cur(), total - n, x);
      var y;
      y, err := DecodeChunk(r, codes, t, cb);
      if err.Some? {
        return;
      }
      PutPut(q0, base, x, y);
      Store(sce, base + cf, y);
      x, n := x + y, n + 1;
      cf := cf + |y|;
    }
    ChunkFits(cb, len, n);
    BandStep(t, cb, r.Cur(), 0, x);
    err := None;
  }

  lemma CodesValid(t: Tables, codes: seq<Table>)
    requires CodesReady(t, codes)
    ensures t.Valid()
  {
  }

  lemma SpectrumStep(t: Tables, c: Cursor, bt: seq<nat>, j: Job, rest: seq<Job>, q: seq<int>)
    requires t.Valid() && |q| == 1024 && GoodJobs([j] + rest, |bt|)
    ensures GoodJob(j, |bt|) && GoodJobs(rest, |bt|)
    ensures !Tonal(bt[j.idx]) ==> ParseSpectrum(t, c, bt, [j] + rest, q) == ParseSpectrum(t, c, bt, rest, q)
    ensures Tonal(bt[j.idx]) ==>
              var p := ParseBand(t, bt[j.idx], c, Chunks(bt[j.idx], j.len), []);
              && (p.Bad? ==> ParseSpectrum(t, c, bt, [j] + rest, q) == Bad(p.err))
              && (p.Good? ==> |p.val| == j.len
                              && ParseSpectrum(t, c, bt, [j] + rest, q)
                                  == ParseSpectrum(t, p.c, bt, rest, Put(q, j.base, p.val)))
  {
    hide Tables.Valid, ParseBand, GoodJobs, Values, Chunks;
    GoodHead(j, rest, |bt|);
    if Tonal(bt[j.idx]) {
      ChunksFit(bt[j.idx], j.len);
    }
  }

  /** A band without coefficients is passed over in all its windows. */
  lemma {:induction false} SkipBand(t: Tables, c: Cursor, bt: seq<nat>, idx: nat, base: nat, len: nat, n: nat,
                                    rest: seq<Job>, q: seq<int>)
    requires t.Valid() && |q| == 1024 && idx < |bt| && !Tonal(bt[idx])
             && GoodJobs(BandJobs(idx, base, len, n) + rest, |bt|)
    ensures GoodJobs(rest, |bt|)
    ensures ParseSpectrum(t, c, bt, BandJobs(idx, base, len, n) + rest, q) == ParseSpectrum(t, c, bt, rest, q)
    decreases n
  {
    hide Tables.Valid, ParseSpectrum, GoodJobs, BandJobs;
    FirstJob(idx, base, len, n, rest);
    if n > 0 {
      SpectrumStep(t, c, bt, Job(idx, base, len), BandJobs(idx, base + 128, len, n - 1) + rest, q);
      SkipBand(t, c, bt, idx, base + 128, len, n - 1, rest, q);
    }
  }

  /** One coded band in all windows of its group. */
  method DecodeWindows(r: Reader, sce: Sce, codes: seq<Table>, ghost t: Tables, ghost bt: seq<nat>, idx: nat, base: nat,
                       len: nat, n: nat,
                       ghost rest: seq<Job>) returns (err: Option<Err>)
    requires r.Valid() && sce.Sized() && CodesReady(t, codes) && t.Valid() && idx < |bt| <= 128
             && bt == sce.bandType[..|bt|] && Tonal(bt[idx])
    requires GoodJobs(BandJobs(idx, base, len, n) + rest, |bt|)
    modifies r`pos, r`overread, sce`qcoefs
    ensures r.Valid() && sce.Sized() && (err.None? ==> GoodJobs(rest, |bt|))
    ensures var p := ParseSpectrum(t, old(r.Cur()), bt, BandJobs(idx, base, len, n) + rest, old(sce.qcoefs));
            if err.Some? then p == Bad(err.value)
            else p == ParseSpectrum(t, r.Cur(), bt, rest, sce.qcoefs)
  {
    hide Reader.Valid, Reader.Cur, CodesReady, Tables.Valid, ParseSpectrum, ParseBand, GoodJobs, BandJobs, Put, Chunks,
         Values;
    ghost var want := ParseSpectrum(t, r.Cur(), bt, BandJobs(idx, base, len, n) + rest, sce.qcoefs);
    var k: nat := 0;
    while k < n
      invariant r.Valid() && sce.Sized() && k <= n && CodesReady(t, codes)
                && GoodJobs(BandJobs(idx, base + 128 * k, len, n - k) + rest, |bt|)
      invariant ParseSpectrum(t, r.Cur(), bt, BandJobs(idx, base + 128 * k, len, n - k) + rest, sce.qcoefs) == want
    {
      FirstJob(idx, base + 128 * k, len, n - k, rest);
      SpectrumStep(t, r.Cur(), bt, Job(idx, base + 128 * k, len),
                   BandJobs(idx, base + 128 * (k + 1), len, n - k - 1) + rest, sce.qcoefs);
      err := DecodeBand(r, sce, codes, t, sce.bandType[idx], base + 128 * k, len);
      if err.Some? {
        return;
      }
      k := k + 1;
    }
    FirstJob(idx, base + 128 * k, len, 0, rest);
    err := None;
  }

  ghost predicate NoReserved(bt: seq<nat>) {
    forall k :: 0 <= k < |bt| ==> bt[k] != RESERVED_BT
  }

  lemma {:induction false} SectionsNoReserved(c: Cursor, runBits: nat, maxSfb: nat, k: nat, bt: seq<nat>)
    requires runBits > 0 && c.Valid() && NoReserved(bt)
    ensures var p := ParseSections(c, runBits, maxSfb, k, bt);
            p.Good? ==> NoReserved(p.val)
    decreases |c.s| - c.pos
  {
    hide ParseRun, ParseSections, Pow2, Cursor.Peek;
    SectionsStep(c, runBits, maxSfb, k, bt);
    if k < maxSfb && c.Peek(4) != RESERVED_BT {
      var p := ParseRun(c.Skip(4), runBits, k, maxSfb);
      if p.Good? {
        SectionsNoReserved(p.c, runBits, maxSfb, p.val, bt + AacParse.Fill(c.Peek(4), p.val - k));
      }
    }
  }

  /** The reserved band type never gets past the section parser. */
  lemma {:induction false} BandTypesNoReserved(c: Cursor, runBits: nat, maxSfb: nat, groups: nat, bt: seq<nat>)
    requires runBits > 0 && c.Valid() && NoReserved(bt)
    ensures var p := ParseBandTypes(c, runBits, maxSfb, groups, bt);
            p.Good? ==> NoReserved(p.val)
    decreases groups
  {
    hide ParseSections, NoReserved;
    BandTypesStep(c, runBits, maxSfb, groups, bt);
    if groups > 0 {
      var p := ParseSections(c, runBits, maxSfb, 0, bt);
      SectionsNoReserved(c, runBits, maxSfb, 0, bt);
      if p.Good? {
        BandTypesNoReserved(p.c, runBits, maxSfb, groups - 1, p.val);
      }
    }
  }

  /** The bands of one group. */
  method DecodeGroup(r: Reader, sce: Sce, codes: seq<Table>, ghost t: Tables, ghost geo: Geo, ghost bt: seq<nat>,
                     g: nat, base: nat, idx0: nat)
    returns (err: Option<Err>)
    requires r.Valid() && sce.Sized() && CodesReady(t, codes) && t.Valid() && |bt| <= 128 && bt == sce.bandType[..|bt|]
    requires geo.Valid() && geo.maxSfb == sce.ics.maxSfb && geo.edges == sce.ics.swbOffset && idx0 + geo.maxSfb <= |bt|
    requires g < |geo.groups| && g < 8 && sce.ics.groupLen[g] == geo.groups[g]
    requires GoodJobs(GroupRest(geo, g, base, 0, idx0), |bt|) && NoReserved(bt)
    modifies r`pos, r`overread, sce`qcoefs
    ensures r.Valid() && sce.Sized() && (err.None? ==>
                                         GoodJobs(GroupRest(geo, g, base, geo.maxSfb, idx0 + geo.maxSfb), |bt|))
    ensures var p := ParseSpectrum(t, old(r.Cur()), bt, GroupRest(geo, g, base, 0, idx0), old(sce.qcoefs));
            if err.Some? then p == Bad(err.value)
            else p == ParseSpectrum(t, r.Cur(), bt, GroupRest(geo, g, base, geo.maxSfb, idx0 + geo.maxSfb), sce.qcoefs)
  {
    hide Reader.Valid, Reader.Cur, CodesReady, Tables.Valid, ParseSpectrum, GoodJobs, GroupRest, BandJobs, Geo.Valid;
    var gLen, offsets := sce.ics.groupLen[g], sce.ics.swbOffset;
    ghost var want := ParseSpectrum(t, r.Cur(), bt, GroupRest(geo, g, base, 0, idx0), sce.qcoefs);
    var i: nat, idx: nat := 0, idx0;
    while i < sce.ics.maxSfb
      invariant r.Valid() && sce.Sized() && i <= geo.maxSfb && idx == idx0 + i && CodesReady(t, codes)
      invariant GoodJobs(GroupRest(geo, g, base, i, idx), |bt|)
      invariant ParseSpectrum(t, r.Cur(), bt, GroupRest(geo, g, base, i, idx), sce.qcoefs) == want
    {
      GroupRestStep(geo, g, base, i, idx);
      WidthOf(geo, i);
      var cb, offLen := sce.bandType[idx], offsets[i + 1] - offsets[i];
      assert cb == bt[idx];
      if cb == 0 || cb >= NOISE_BT {
        SkipBand(t, r.Cur(), bt, idx, base + offsets[i], offLen, gLen, GroupRest(geo, g, base, i + 1, idx + 1),
                 sce.qcoefs);
      } else {
        err := DecodeWindows(r, sce, codes, t, bt, idx, base + offsets[i], offLen, gLen,
                             GroupRest(geo, g, base, i + 1, idx + 1));
        if err.Some? {
          return;
        }
      }
      i, idx := i + 1, idx + 1;
    }
    err := None;
  }

  lemma WidthOf(geo: Geo, i: nat)
    requires geo.Valid() && i < geo.maxSfb
    ensures i + 1 < |geo.edges| && geo.edges[i] < geo.edges[i + 1] && geo.Width(i) == geo.edges[i + 1] - geo.edges[i]
  {
  }

  method ClearCoefs(sce: Sce)
    requires sce.Sized()
    modifies sce`qcoefs
    ensures sce.Sized() && sce.qcoefs == seq(1024, _ => 0)
  {
    for i := 0 to 1024
      invariant sce.Sized() && forall k :: 0 <= k < i ==> sce.qcoefs[k] == 0
    {
      sce.qcoefs := sce.qcoefs[i := 0];
    }
  }

  /** spectral_data of all groups. */
  method DecodeAllGroups(r: Reader, sce: Sce, codes: seq<Table>, ghost t: Tables, ghost i: Ics, ghost bt: seq<nat>)
      returns (err: Option<Err>)
    requires r.Valid() && sce.Sized() && CodesReady(t, codes) && t.Valid() && IcsShown(sce.ics, t, i)
             && GeoOf(t, i).Valid()
    requires |bt| == GeoOf(t, i).Bands() <= 120 && bt == sce.bandType[..|bt|] && NoReserved(bt)
    modifies r`pos, r`overread, sce`qcoefs
    ensures r.Valid() && sce.Sized() && GoodJobs(Jobs(GeoOf(t, i), 0, 0, 0), |bt|)
    ensures var p := ParseSpectrum(t, old(r.Cur()), bt, Jobs(GeoOf(t, i), 0, 0, 0), seq(1024, _ => 0));
            err == Failure(p) && (p.Good? ==> r.Cur() == p.c && sce.qcoefs == p.val)
  {
    hide Reader.Valid, Reader.Cur, CodesReady, Tables.Valid, ParseSpectrum, GoodJobs, GroupRest, Jobs, Geo.Valid, At,
         Geo.BandsFrom, NoReserved;
    ghost var geo := GeoOf(t, i);
    JobsGood(geo);
    ClearCoefs(sce);
    ghost var want := ParseSpectrum(t, r.Cur(), bt, Jobs(geo, 0, 0, 0), sce.qcoefs);
    var groups, maxSfb := sce.ics.numWindowGroups, sce.ics.maxSfb;
    var coefBase: nat, idx: nat := 0, 0;
    AtStep(0, maxSfb);
    var g: nat := 0;
    while g < groups
      invariant r.Valid() && sce.Sized() && g <= groups && CodesReady(t, codes) && idx == At(g, maxSfb)
      invariant GoodJobs(Jobs(geo, g, coefBase, idx), |bt|)
      invariant ParseSpectrum(t, r.Cur(), bt, Jobs(geo, g, coefBase, idx), sce.qcoefs) == want
    {
      GroupLength(sce.ics, t, i, g);
      BandsFit(geo, g);
      StillBands(geo, g);
      AtStep(g, maxSfb);
      GroupRestStart(geo, g, coefBase, idx);
      err := DecodeGroup(r, sce, codes, t, geo, bt, g, coefBase, idx);
      if err.Some? {
        return;
      }
      GroupRestStep(geo, g, coefBase, maxSfb, idx + maxSfb);
      coefBase := coefBase + 128 * sce.ics.groupLen[g];
      idx := idx + maxSfb;
      g := g + 1;
    }
    GroupRestStart(geo, g, coefBase, idx);
    NoJobs(t, r.Cur(), bt, sce.qcoefs);
    err := None;
  }

  lemma GroupLength(i: IcsInfo, t: Tables, p: Ics, g: nat)
    requires IcsShown(i, t, p) && g < i.numWindowGroups
    ensures g < 8 && i.groupLen[g] == p.groups[g] && GeoOf(t, p).maxSfb == i.maxSfb && GeoOf(t, p).edges == i.swbOffset
  {
    assert i.groupLen[..i.numWindowGroups][g] == i.groupLen[g];
  }

  lemma StillBands(geo: Geo, g: nat)
    requires g < |geo.groups|
    ensures geo.BandsFrom(g) >= geo.maxSfb
  {
  }

  lemma NoJobs(t: Tables, c: Cursor, bt: seq<nat>, q: seq<int>)
    requires t.Valid() && |q| == 1024 && GoodJobs([], |bt|)
    ensures ParseSpectrum(t, c, bt, [], q) == Good(q, c)
  {
    hide Tables.Valid;
  }

  // ----- pulses

  lemma PulsesStep(q: seq<int>, ps: seq<Pulse>, i: nat, idx: nat, edges: seq<nat>, bt: seq<nat>, sf: seq<int>)
    requires |bt| == |sf| && |edges| >= 1 && idx < |edges| - 1 && PulsesFit(ps, edges[|edges| - 1])
             && edges[|edges| - 1] <= |q|
    ensures i >= |ps| ==> ApplyPulses(q, ps, i, idx, edges, bt, sf) == q
    ensures i < |ps| ==>
              var b := PulseBand(edges, idx, ps[i].pos);
              var hit := b < |bt| && bt[b] != NOISE_BT && sf[b] != 0;
              ApplyPulses(q, ps, i, idx, edges, bt, sf)
              == ApplyPulses(if hit then q[ps[i].pos := Pulsed(q[ps[i].pos], ps[i].amp)]
                             else q, ps, i + 1, b, edges, bt, sf)
  {
  }

  /** Adds the pulses. Bands past the transmitted ones are looked up as well, in
      whatever earlier units left there. */
  method AddPulses(sce: Sce)
    requires sce.Sized() && 2 <= |sce.ics.swbOffset| <= 128
    requires sce.ics.swbOffset[|sce.ics.swbOffset| - 1] <= 1024
             && PulsesFit(sce.pulses, sce.ics.swbOffset[|sce.ics.swbOffset| - 1])
    modifies sce`qcoefs
    ensures sce.Sized()
    ensures sce.qcoefs == ApplyPulses(old(sce.qcoefs), sce.pulses, 0, 0, sce.ics.swbOffset, sce.bandType, sce.sf)
  {
    hide ApplyPulses, PulseBand;
    var offsets, ps := sce.ics.swbOffset, sce.pulses;
    ghost var want := ApplyPulses(sce.qcoefs, ps, 0, 0, offsets, sce.bandType, sce.sf);
    var idx: nat := 0;
    var i: nat := 0;
    while i < |ps|
      invariant sce.Sized() && i <= |ps| && idx < |offsets| - 1
      invariant ApplyPulses(sce.qcoefs, ps, i, idx, offsets, sce.bandType, sce.sf) == want
    {
      PulsesStep(sce.qcoefs, ps, i, idx, offsets, sce.bandType, sce.sf);
      var pos := ps[i].pos;
      var co := sce.qcoefs[pos];
      ghost var band, q := PulseBand(offsets, idx, pos), sce.qcoefs;
      BandStepUp(offsets, idx, pos);
      while offsets[idx + 1] <= pos
        invariant sce.Sized() && sce.qcoefs == q && idx < |offsets| - 1 && PulseBand(offsets, idx, pos) == band
        decreases |offsets| - idx
      {
        BandStepUp(offsets, idx, pos);
        idx := idx + 1;
      }
      BandStepUp(offsets, idx, pos);
      if sce.bandType[idx] != NOISE_BT && sce.sf[idx] != 0 {
        var ico: int := 0 - ps[i].amp as int;
        if co != 0 {
          if co > 0 {
            ico := co - ico;
          } else {
            ico := co + ico;
          }
        }
        sce.qcoefs := sce.qcoefs[pos := ico];
      }
      i := i + 1;
    }
    PulsesStep(sce.qcoefs, ps, i, idx, offsets, sce.bandType, sce.sf);
  }

  lemma BandStepUp(edges: seq<nat>, idx: nat, pos: nat)
    requires idx < |edges| - 1 && pos < edges[|edges| - 1]
    ensures edges[idx + 1] <= pos ==>
            idx + 1 < |edges| - 1 && PulseBand(edges, idx, pos) == PulseBand(edges, idx + 1, pos)
    ensures pos < edges[idx + 1] ==> PulseBand(edges, idx, pos) == idx
  {
  }

  /** Two spectra agree below lim. */
  ghost predicate Agree(q: seq<int>, q': seq<int>, lim: nat) {
    |q| == |q'| && lim <= |q| && forall x :: 0 <= x < lim ==> q[x] == q'[x]
  }

  ghost predicate Rising(ps: seq<Pulse>) {
    forall k :: 0 < k < |ps| ==> ps[k - 1].pos <= ps[k].pos
  }

  lemma RisingPush(ps: seq<Pulse>, p: Pulse)
    requires Rising(ps) && (|ps| > 0 ==> ps[|ps| - 1].pos <= p.pos)
    ensures Rising(ps + [p])
  {
    var all := ps + [p];
    forall k | 0 < k < |all| ensures all[k - 1].pos <= all[k].pos {
      if k < |ps| {
        assert ps[k - 1].pos <= ps[k].pos;
      }
    }
  }

  lemma {:induction false} TailRising(c: Cursor, left: nat, limit: nat, pulses: seq<Pulse>)
    requires |pulses| > 0 && Rising(pulses)
    ensures var p := ParsePulseTail(c, left, limit, pulses);
            p.Good? ==> Rising(p.val)
    decreases left
  {
    hide Rising;
    if left > 0 {
      var p := Pulse(c.Peek(5) + pulses[|pulses| - 1].pos, c.Skip(5).Peek(4));
      if p.pos < limit {
        RisingPush(pulses, p);
        TailRising(c.Skip(5).Skip(4), left - 1, limit, pulses + [p]);
      }
    }
  }

  /** Pulse positions never go back. */
  lemma PulsesRising(c: Cursor, edges: seq<nat>)
    requires |edges| > 0
    ensures var p := ParsePulses(c, edges);
            p.Good? ==> Rising(p.val)
  {
    hide ParsePulseTail, Cursor.Peek;
    var c2 := c.Skip(2).Skip(6);
    var swb := c.Skip(2).Peek(6);
    if swb < |edges| - 1 {
      var pos := edges[swb] + c2.Peek(5);
      TailRising(c2.Skip(5).Skip(4), c.Peek(2), edges[|edges| - 1], [Pulse(pos, c2.Skip(5).Peek(4))]);
    }
  }

  lemma {:induction false} BandHolds(edges: seq<nat>, idx: nat, pos: nat)
    requires idx < |edges| - 1 && edges[idx] <= pos < edges[|edges| - 1]
    ensures edges[PulseBand(edges, idx, pos)] <= pos
    decreases |edges| - idx
  {
    if edges[idx + 1] <= pos {
      BandHolds(edges, idx + 1, pos);
    }
  }

  /** Stale entries do not matter: with only the transmitted bands known, the
      coefficients below the last transmitted band come out the same. */
  lemma {:induction false} StalePulses(q: seq<int>, q': seq<int>, ps: seq<Pulse>, i: nat, idx: nat, edges: seq<nat>,
                                       bt: seq<nat>, sf: seq<int>, n: nat, total: nat, maxBands: nat)
    requires |bt| == |sf| && n <= |bt| && n < |edges| && GoodEdges(edges, total, maxBands) && total <= |q|
    requires PulsesFit(ps, total) && Rising(ps) && idx < |edges| - 1 && Agree(q, q', edges[n])
    requires i < |ps| ==> edges[idx] <= ps[i].pos
    ensures Agree(ApplyPulses(q, ps, i, idx, edges, bt, sf), ApplyPulses(q', ps, i, idx, edges, bt[..n], sf[..n]),
                  edges[n])
    decreases |ps| - i
  {
    hide ApplyPulses, PulseBand, GoodEdges;
    EdgesLast(edges, total, maxBands);
    PulsesStep(q, ps, i, idx, edges, bt, sf);
    PulsesStep(q', ps, i, idx, edges, bt[..n], sf[..n]);
    if i < |ps| {
      var pos := ps[i].pos;
      var b := PulseBand(edges, idx, pos);
      BandHolds(edges, idx, pos);
      var next := if b < |bt| && bt[b] != NOISE_BT && sf[b] != 0 then q[pos := Pulsed(q[pos], ps[i].amp)] else q;
      var next' := if b < n && bt[b] != NOISE_BT && sf[b] != 0 then q'[pos := Pulsed(q'[pos], ps[i].amp)] else q';
      if b < n {
        EdgesUp(edges, total, maxBands, b + 1, n);
      } else {
        EdgesUp(edges, total, maxBands, n, b);
      }
      assert Agree(next, next', edges[n]);
      if i + 1 < |ps| {
        assert ps[i + 1 - 1].pos <= ps[i + 1].pos;
      }
      StalePulses(next, next', ps, i + 1, b, edges, bt, sf, n, total, maxBands);
    }
  }

  lemma EdgesLast(edges: seq<nat>, total: nat, maxBands: nat)
    requires GoodEdges(edges, total, maxBands)
    ensures |edges| >= 2 && edges[|edges| - 1] == total
  {
  }
}
