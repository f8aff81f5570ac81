/** The encoder's spectral writer: codewords, signs and escapes of every coded
    band, window by window. */
module SpectrumCoder {
  import opened BitStrings
  import opened BitWriter
  import opened AacSyntax
  import opened JobWalk
  import opened AacPrint
  import opened BandWalk
  import opened SectionCoder
  import opened ScalefactorChain
  import opened SpecialBands

  // ----- one codeword

  lemma IndexPush(cb: nat, d: seq<int>, x: int)
    ensures Index(cb, d + [x]) == Index(cb, d) * Range(cb) + x
  {
    assert (d + [x])[..|d|] == d;
  }

  /** The codeword index of a chunk of coefficients. */
  method CodeIndex(cb: nat, x: seq<int>) returns (curidx: int)
    ensures curidx == Index(cb, Digits(cb, x))
  {
    hide Digit, Range;
    curidx := 0;
    var j := 0;
    while j < |x|
      invariant 0 <= j <= |x| && curidx == Index(cb, Digits(cb, x)[..j])
    {
      IndexPush(cb, Digits(cb, x)[..j], Digit(cb, x[j]));
      assert Digits(cb, x)[..j + 1] == Digits(cb, x)[..j] + [Digit(cb, x[j])];
      curidx := curidx * Range(cb);
      curidx := curidx + Digit(cb, x[j]);
      j := j + 1;
    }
    assert Digits(cb, x)[..|x|] == Digits(cb, x);
  }

  lemma SignsStep(x: seq<int>, j: nat)
    requires j <= |x|
    ensures PrintSigns(x[j..]) == if j == |x| then []
            else (if x[j] != 0 then [x[j] < 0] else []) + PrintSigns(x[j + 1..])
  {
    if j < |x| {
      assert x[j..][1..] == x[j + 1..] && x[j..][0] == x[j];
    }
  }

  method PutSigns(pb: Writer, x: seq<int>)
    requires pb.Valid()
    modifies pb
    ensures pb.Valid() && pb.Written() == old(pb.Written()) + PrintSigns(x)
  {
    hide PrintSigns, ToBits, Writer.Written;
    OneBit();
    var j := 0;
    assert x[0..] == x;
    while j < |x|
      invariant 0 <= j <= |x| && pb.Valid()
      invariant pb.Written() + PrintSigns(x[j..]) == old(pb.Written()) + PrintSigns(x)
    {
      SignsStep(x, j);
      if x[j] != 0 {
        var sign := 0;
        if x[j] < 0 {
          sign := 1;
        }
        pb.Put(1, sign);
      }
      j := j + 1;
    }
    SignsStep(x, j);
  }

  lemma OneBit()
    ensures ToBits(1, 0) == [false] && ToBits(1, 1) == [true]
  {
    assert ToBits(0, 0) == [];
  }

  lemma EscapesStep(x: seq<int>, j: nat)
    requires j <= |x|
    ensures PrintEscapes(x[j..])
            == if j == |x| then [] else (if Abs(x[j]) >= 16 then PrintEscape(Abs(x[j]))
                                         else []) + PrintEscapes(x[j + 1..])
  {
    if j < |x| {
      assert x[j..][1..] == x[j + 1..] && x[j..][0] == x[j];
    }
  }

  /** floor(log2 v) by counting halvings. */
  method Log2i(v: nat) returns (n: nat)
    ensures n == Log2(v)
  {
    n := 0;
    var r := v;
    while r >= 2
      invariant n + Log2(r) == Log2(v)
    {
      r := r / 2;
      n := n + 1;
    }
  }

  lemma {:induction false} Log2Bound(v: nat, n: nat)
    requires v < Pow2(n + 1)
    ensures Log2(v) <= n
  {
    assert Pow2(1) == 2;
    if v >= 2 && n > 0 {
      Log2Bound(v / 2, n - 1);
    }
  }

  method PutEscape(pb: Writer, coef: nat)
    requires pb.Valid() && 16 <= coef <= 8191
    modifies pb
    ensures pb.Valid() && pb.Written() == old(pb.Written()) + PrintEscape(coef)
  {
    hide PrintEscape, ToBits, Writer.Written, Pow2, Log2;
    var length := Log2i(coef);
    EscapeIs(coef);
    pb.Put(length - 4 + 1, Pow2(length - 4 + 1) - 2);
    pb.Put(length, coef);
  }

  method PutEscapes(pb: Writer, x: seq<int>)
    requires pb.Valid() && forall j :: 0 <= j < |x| ==> Abs(x[j]) <= 8191
    modifies pb
    ensures pb.Valid() && pb.Written() == old(pb.Written()) + PrintEscapes(x)
  {
    hide PrintEscapes, PrintEscape, Writer.Written;
    var j := 0;
    assert x[0..] == x;
    while j < |x|
      invariant 0 <= j <= |x| && pb.Valid()
      invariant pb.Written() + PrintEscapes(x[j..]) == old(pb.Written()) + PrintEscapes(x)
    {
      EscapesStep(x, j);
      if Abs(x[j]) >= 16 {
        PutEscape(pb, Abs(x[j]));
      }
      j := j + 1;
    }
    EscapesStep(x, j);
  }

  lemma EscapeIs(x: nat)
    requires 16 <= x <= 8191
    ensures 4 <= Log2(x) <= 12 && Pow2(Log2(x) - 4 + 1) >= 2
    ensures PrintEscape(x) == ToBits(Log2(x) - 4 + 1, Pow2(Log2(x) - 4 + 1) - 2) + ToBits(Log2(x), x)
  {
    Log2At16(x);
    assert Pow2(7) == 128 && Pow2(13) == 8192 by {
      assert Pow2(3) == 8;
      assert Pow2(7) == 128;
      assert Pow2(10) == 1024;
    }
    Log2Bound(x, 12);
    PowAtLeast2(Log2(x) - 4 + 1);
  }

  lemma WordIs(t: Tables, cb: nat, x: seq<int>)
    requires t.Valid() && Tonal(cb) && CarriesAll(cb, x) && |x| == Dim(cb)
    ensures GoodDigits(cb, Digits(cb, x)) && |t.spectral| == 11
    ensures var b := t.spectral[cb - 1];
            var i := Index(cb, Digits(cb, x));
            0 <= i < |b.lens| == |b.codes| && b.lens[i] <= 32 && b.Word(i) == ToBits(b.lens[i], b.codes[i])
  {
    CarriedDigits(cb, x);
    assert SpectralOk(cb - 1 + 1, t.spectral[cb - 1]);
  }

  /** One codeword with its signs and escapes. */
  method PutChunk(pb: Writer, t: Tables, cb: nat, x: seq<int>)
    requires pb.Valid() && t.Valid() && Tonal(cb) && CarriesAll(cb, x) && |x| == Dim(cb)
    modifies pb
    ensures GoodDigits(cb, Digits(cb, x))
    ensures pb.Valid() && pb.Written() == old(pb.Written()) + PrintChunk(t, cb, x)
  {
    hide ToBits, Writer.Written, Tables.Valid, Index, Digits, PrintSigns, PrintEscapes, Carries;
    WordIs(t, cb, x);
    var curidx := CodeIndex(cb, x);
    pb.Put(t.spectral[cb - 1].lens[curidx], t.spectral[cb - 1].codes[curidx]);
    if !Signed(cb) {
      PutSigns(pb, x);
    }
    if cb == ESC_BT {
      EscapesSmall(cb, x);
      PutEscapes(pb, x);
    }
    ChunkParts(t, cb, x, old(pb.Written()));
  }

  lemma EscapesSmall(cb: nat, x: seq<int>)
    requires cb == ESC_BT && CarriesAll(cb, x)
    ensures forall j :: 0 <= j < |x| ==> Abs(x[j]) <= 8191
  {
  }

  lemma ChunkParts(t: Tables, cb: nat, x: seq<int>, o: Bits)
    requires t.Valid() && Tonal(cb) && GoodDigits(cb, Digits(cb, x)) && CarriesAll(cb, x) && |x| == Dim(cb)
    ensures var i := Index(cb, Digits(cb, x));
            0 <= i < |t.spectral[cb - 1].lens| &&
            o + PrintChunk(t, cb, x)
            == (o + t.spectral[cb - 1].Word(i)) + (if Signed(cb) then [] else PrintSigns(x))
               + (if cb == ESC_BT then PrintEscapes(x) else [])
  {
    hide Index, Digits, PrintSigns, PrintEscapes, ToBits, Carries;
    WordIs(t, cb, x);
  }

  // ----- one band of one window

  lemma BandChunks(cb: nat, n: nat)
    requires Tonal(cb) && n % 4 == 0
    ensures n == Values(cb, Chunks(cb, n))
  {
  }

  /** A position between codewords. */
  predicate Aligned(cb: nat, i: int) {
    if cb < 5 then i % 4 == 0 else i % 2 == 0
  }

  lemma AlignedStart(cb: nat)
    ensures Aligned(cb, 0)
  {
  }

  lemma AlignedStep(cb: nat, n: nat, i: nat)
    requires Tonal(cb) && n % 4 == 0 && i <= n && Aligned(cb, i)
    ensures n - i == Values(cb, Chunks(cb, n - i)) && Aligned(cb, i + Dim(cb)) && Aligned(cb, n)
    ensures i < n ==> i + Dim(cb) <= n
  {
    if cb < 5 {
      Fours(n / 4, i / 4);
    } else {
      Twos(n / 2, i / 2);
      assert n % 2 == 0;
    }
  }

  lemma Fours(m: nat, k: nat)
    ensures (4 * m - 4 * k) / 4 == m - k && (4 * k + 4) % 4 == 0
    ensures 4 * k < 4 * m ==> 4 * k + 4 <= 4 * m
  {
  }

  lemma Twos(m: nat, k: nat)
    ensures (2 * m - 2 * k) / 2 == m - k && (2 * k + 2) % 2 == 0
    ensures 2 * k < 2 * m ==> 2 * k + 2 <= 2 * m
  {
  }

  lemma BandStep(t: Tables, cb: nat, x: seq<int>, i: nat)
    requires t.Valid() && Tonal(cb) && CarriesAll(cb, x) && |x| % 4 == 0 && i <= |x| && Aligned(cb, i)
    ensures BandReady(cb, x, i)
    ensures i == |x| ==> PrintBand(t, cb, x[i..]) == []
    ensures i < |x| ==>
              && i + Dim(cb) <= |x| && CarriesAll(cb, x[i..i + Dim(cb)])
                  && GoodDigits(cb, Digits(cb, x[i..i + Dim(cb)]))
              && BandReady(cb, x, i + Dim(cb)) && Aligned(cb, i + Dim(cb))
              && PrintBand(t, cb, x[i..]) == PrintChunk(t, cb, x[i..i + Dim(cb)]) + PrintBand(t, cb, x[i + Dim(cb)..])
  {
    hide PrintChunk, Carries, Digits, Values, Chunks, Dim, Aligned, GoodDigits;
    TailReady(cb, x, i);
    AlignedStep(cb, |x|, i);
    if i < |x| {
      var y := x[i..];
      TailReady(cb, x, i + Dim(cb));
      assert y[..Dim(cb)] == x[i..i + Dim(cb)] && y[Dim(cb)..] == x[i + Dim(cb)..];
      CarriedDigits2(cb, x[i..i + Dim(cb)], x, i);
    }
  }

  lemma CarriedDigits2(cb: nat, y: seq<int>, x: seq<int>, i: nat)
    requires Tonal(cb) && CarriesAll(cb, x) && i + Dim(cb) <= |x| && y == x[i..i + Dim(cb)]
    ensures CarriesAll(cb, y) && GoodDigits(cb, Digits(cb, y))
  {
    CarriedDigits(cb, y);
  }

  /** What is left of a band can be printed. */
  ghost predicate BandReady(cb: nat, x: seq<int>, i: nat) {
    i <= |x| && CarriesAll(cb, x[i..]) && |x[i..]| == Values(cb, Chunks(cb, |x[i..]|))
  }

  lemma TailReady(cb: nat, x: seq<int>, i: nat)
    requires Tonal(cb) && CarriesAll(cb, x) && |x| % 4 == 0 && i <= |x| && Aligned(cb, i)
    ensures BandReady(cb, x, i)
  {
    hide Carries, Values, Chunks, Dim, Aligned;
    AlignedStep(cb, |x|, i);
    assert forall k :: 0 <= k < |x[i..]| ==> x[i..][k] == x[i + k];
  }

  /** The codewords of one band. */
  method PutBand(pb: Writer, t: Tables, cb: nat, x: seq<int>)
    requires pb.Valid() && t.Valid() && Tonal(cb) && CarriesAll(cb, x) && |x| % 4 == 0
    modifies pb
    ensures |x| == Values(cb, Chunks(cb, |x|))
    ensures pb.Valid() && pb.Written() == old(pb.Written()) + PrintBand(t, cb, x)
  {
    hide ToBits, Writer.Written, Tables.Valid, PrintBand, PrintChunk, Carries, Digits, GoodDigits, BandReady, Aligned,
         Values, Chunks;
    BandChunks(cb, |x|);
    var i := 0;
    AlignedStart(cb);
    assert x[0..] == x;
    BandStep(t, cb, x, 0);
    ReadyPrint(cb, x, 0);
    while i + Dim(cb) <= |x|
      invariant 0 <= i <= |x| && Aligned(cb, i) && pb.Valid() && BandReady(cb, x, i)
      invariant CarriesAll(cb, x[i..]) && |x[i..]| == Values(cb, Chunks(cb, |x[i..]|))
      invariant pb.Written() + PrintBand(t, cb, x[i..]) == old(pb.Written()) + PrintBand(t, cb, x)
    {
      BandStep(t, cb, x, i);
      PutChunk(pb, t, cb, x[i..i + Dim(cb)]);
      ReadyPrint(cb, x, i + Dim(cb));
      i := i + Dim(cb);
    }
    AlignedStep(cb, |x|, i);
    BandStep(t, cb, x, i);
  }

  lemma ReadyPrint(cb: nat, x: seq<int>, i: nat)
    requires BandReady(cb, x, i)
    ensures i <= |x| && CarriesAll(cb, x[i..]) && |x[i..]| == Values(cb, Chunks(cb, |x[i..]|))
  {
  }

  // ----- all bands of all windows

  lemma CarriedTail(bt: seq<nat>, js: seq<Job>, q: seq<int>)
    requires AllCarried(bt, js, q) && |js| > 0
    ensures |q| == 1024 && js[0].idx < |bt| && js[0].base + js[0].len <= 1024 && js[0].len % 4 == 0
    ensures Tonal(bt[js[0].idx]) ==> CarriesAll(bt[js[0].idx], Slice(q, js[0]))
    ensures AllCarried(bt, js[1..], q)
  {
    hide CarriesAll;
    assert GoodJob(js[0], |bt|);
    forall k | 0 <= k < |js[1..]| ensures GoodJob(js[1..][k], |bt|) {
      assert GoodJob(js[k + 1], |bt|);
    }
  }

  lemma SpectrumStep(t: Tables, bt: seq<nat>, j: Job, rest: seq<Job>, q: seq<int>)
    requires t.Valid() && AllCarried(bt, [j] + rest, q)
    ensures |q| == 1024 && j.idx < |bt| && j.base + j.len <= 1024 && j.len % 4 == 0 && AllCarried(bt, rest, q)
    ensures Tonal(bt[j.idx]) ==>
            CarriesAll(bt[j.idx], Slice(q, j)) && |Slice(q, j)| == Values(bt[j.idx], Chunks(bt[j.idx], |Slice(q, j)|))
    ensures PrintSpectrum(t, bt, [j] + rest, q)
            == (if Tonal(bt[j.idx]) then PrintBand(t, bt[j.idx], Slice(q, j)) else []) + PrintSpectrum(t, bt, rest, q)
  {
    hide PrintBand, CarriesAll, AllCarried, Tables.Valid, Values, Chunks, PrintSpectrum;
    var js := [j] + rest;
    assert js[0] == j && js[1..] == rest;
    CarriedTail(bt, js, q);
    if Tonal(bt[j.idx]) {
      BandChunks(bt[j.idx], j.len);
    }
    SpectrumUnfold(t, bt, js, q);
  }

  lemma SpectrumUnfold(t: Tables, bt: seq<nat>, js: seq<Job>, q: seq<int>)
    requires t.Valid() && AllCarried(bt, js, q) && |js| > 0
    ensures |q| == 1024 && js[0].idx < |bt| && js[0].base + js[0].len <= 1024 && AllCarried(bt, js[1..], q)
    ensures Tonal(bt[js[0].idx]) ==> CarriesAll(bt[js[0].idx], Slice(q, js[0]))
    ensures Tonal(bt[js[0].idx]) ==>
            |Slice(q, js[0])| == Values(bt[js[0].idx], Chunks(bt[js[0].idx], |Slice(q, js[0])|))
    ensures PrintSpectrum(t, bt, js, q)
            == (if Tonal(bt[js[0].idx]) then PrintBand(t, bt[js[0].idx], Slice(q, js[0])) else [])
                + PrintSpectrum(t, bt, js[1..], q)
  {
    CarriedTail(bt, js, q);
    hide PrintBand, CarriesAll, AllCarried, Tables.Valid, Values, Chunks;
    if Tonal(bt[js[0].idx]) {
      BandChunks(bt[js[0].idx], js[0].len);
    }
  }

  lemma SpectrumEnd(t: Tables, bt: seq<nat>, q: seq<int>)
    requires t.Valid() && AllCarried(bt, [], q)
    ensures PrintSpectrum(t, bt, [], q) == []
  {
  }

  /** One band of one window; bands without coefficients write nothing. */
  method QuantizeAndEncodeBand(pb: Writer, t: Tables, x: seq<int>, cb: nat)
    requires pb.Valid() && t.Valid() && |x| % 4 == 0 && (Tonal(cb) ==> CarriesAll(cb, x))
    modifies pb
    ensures Tonal(cb) ==> |x| == Values(cb, Chunks(cb, |x|))
    ensures pb.Valid() && pb.Written() == old(pb.Written()) + if Tonal(cb) then PrintBand(t, cb, x) else []
  {
    if 1 <= cb <= ESC_BT {
      PutBand(pb, t, cb, x);
    }
  }

  /** The bands of one slot in all windows of its group. */
  method PutSlot(pb: Writer, t: Tables, sce: SingleChannelElement, start: nat, size: nat, w: nat, s: nat,
                 ghost bt: seq<nat>, ghost idx: nat, ghost rest: seq<Job>)
    requires pb.Valid() && t.Valid() && sce.Sized() && s < 128 && w < 8 && idx < |bt| && bt[idx] == sce.bandType[s]
    requires AllCarried(bt, BandJobs(idx, start + w * 128, size, sce.groupLen[w]) + rest, sce.quantized)
    modifies pb
    ensures AllCarried(bt, rest, sce.quantized)
    ensures pb.Valid()
    ensures pb.Written() + PrintSpectrum(t, bt, rest, sce.quantized)
            == old(pb.Written()) + PrintSpectrum(t, bt, BandJobs(idx, start + w * 128, size, sce.groupLen[w]) + rest,
                                                 sce.quantized)
  {
    hide PrintSpectrum, AllCarried, Tables.Valid, PrintBand, CarriesAll, BandJobs, Writer.Written;
    var w2 := w;
    ghost var all := PrintSpectrum(t, bt, BandJobs(idx, start + w * 128, size, sce.groupLen[w]) + rest, sce.quantized);
    while w2 < w + sce.groupLen[w]
      invariant w <= w2 <= w + sce.groupLen[w] && pb.Valid()
      invariant AllCarried(bt, BandJobs(idx, start + w2 * 128, size, w + sce.groupLen[w] - w2) + rest, sce.quantized)
      invariant pb.Written() + PrintSpectrum(t, bt,
                                             BandJobs(idx, start + w2 * 128, size, w + sce.groupLen[w] - w2) + rest,
                sce.quantized)
                == old(pb.Written()) + all
    {
      WindowStep(t, bt, idx, start + w2 * 128, size, w + sce.groupLen[w] - w2, rest, sce.quantized);
      QuantizeAndEncodeBand(pb, t, sce.quantized[start + w2 * 128..start + w2 * 128 + size], sce.bandType[s]);
      w2 := w2 + 1;
    }
    BandJobsStep(idx, start + w2 * 128, size, 0);
    assert [] + rest == rest;
  }

  /** The first of the windows left, and the others. */
  lemma WindowStep(t: Tables, bt: seq<nat>, idx: nat, base: nat, size: nat, n: nat, rest: seq<Job>, q: seq<int>)
    requires t.Valid() && n > 0 && AllCarried(bt, BandJobs(idx, base, size, n) + rest, q)
    ensures |q| == 1024 && idx < |bt| && base + size <= 1024 && size % 4 == 0
    ensures var more := BandJobs(idx, base + 128, size, n - 1) + rest;
            var x := q[base..base + size];
            && AllCarried(bt, more, q)
            && (Tonal(bt[idx]) ==> CarriesAll(bt[idx], x) && |x| == Values(bt[idx], Chunks(bt[idx], |x|)))
            && PrintSpectrum(t, bt, BandJobs(idx, base, size, n) + rest, q)
               == (if Tonal(bt[idx]) then PrintBand(t, bt[idx], x) else []) + PrintSpectrum(t, bt, more, q)
  {
    hide PrintSpectrum, AllCarried, Tables.Valid, PrintBand, CarriesAll, BandJobs;
    var j := Job(idx, base, size);
    var more := BandJobs(idx, base + 128, size, n - 1) + rest;
    BandJobsStep(idx, base, size, n);
    assert BandJobs(idx, base, size, n) + rest == [j] + more;
    SpectrumStep(t, bt, j, more, q);
  }

  /** A zero band's jobs print nothing. */
  lemma {:induction false} SkippedSlot(t: Tables, bt: seq<nat>, idx: nat, base: nat, len: nat, n: nat, rest: seq<Job>,
                                       q: seq<int>)
    requires t.Valid() && idx < |bt| && !Tonal(bt[idx]) && AllCarried(bt, BandJobs(idx, base, len, n) + rest, q)
    ensures AllCarried(bt, rest, q)
    ensures PrintSpectrum(t, bt, BandJobs(idx, base, len, n) + rest, q) == PrintSpectrum(t, bt, rest, q)
    decreases n
  {
    hide PrintSpectrum, AllCarried, Tables.Valid, PrintBand, CarriesAll, BandJobs;
    BandJobsStep(idx, base, len, n);
    if n == 0 {
      assert [] + rest == rest;
    } else {
      var j := Job(idx, base, len);
      var more := BandJobs(idx, base + 128, len, n - 1) + rest;
      assert BandJobs(idx, base, len, n) + rest == [j] + more;
      SpectrumStep(t, bt, j, more, q);
      SkippedSlot(t, bt, idx, base + 128, len, n - 1, rest, q);
    }
  }

  // ----- the walk

  /** The channel's band geometry, with the band edges of its window length. */
  ghost function GeoFor(sce: SingleChannelElement, edges: seq<nat>): Geo
    requires WellLaid(sce)
    reads sce
  {
    Geo(sce.numWindows == 8, sce.maxSfb, Groups(sce.groupLen, 0, sce.numWindows), edges)
  }

  /** The widths the encoder walks are those of the edges. */
  ghost predicate SizesMatch(sizes: seq<nat>, edges: seq<nat>, bands: nat) {
    bands <= |sizes| && bands < |edges| && edges[0] == 0 && forall i: nat :: i < bands ==>
        edges[i + 1] == edges[i] + sizes[i]
  }

  /** Where the walk stands: slots and jobs still to come at band i of the group
      at window w, which is group g. */
  ghost predicate At(geo: Geo, gl: seq<nat>, w: nat, n: nat, g: nat)
    requires n <= |gl| && Tiles(gl, w, n)
  {
    geo.Valid() && g <= |geo.groups| && geo.groups[g..] == Groups(gl, w, n)
  }

  lemma AtStep(geo: Geo, gl: seq<nat>, w: nat, n: nat, g: nat)
    requires n <= |gl| && w < n && Tiles(gl, w, n) && At(geo, gl, w, n, g)
    ensures g < |geo.groups| && geo.groups[g] == gl[w] && Tiles(gl, w + gl[w], n) && At(geo, gl, w + gl[w], n, g + 1)
  {
    assert geo.groups[g..][0] == gl[w];
    assert geo.groups[g..][1..] == geo.groups[g + 1..];
  }

  lemma AtEnd(geo: Geo, gl: seq<nat>, n: nat, g: nat)
    requires n <= |gl| && Tiles(gl, n, n) && At(geo, gl, n, n, g)
    ensures g == |geo.groups|
  {
  }

  /** The band type of the slot is that of the job's index. */
  lemma IndexSlot(bandType: seq<nat>, slots: seq<nat>, idx: nat, s: nat, rest: seq<nat>)
    requires |bandType| == 128 && InArray(slots) && idx < |slots| && slots[idx..] == [s] + rest
    ensures s < 128 && Pick(bandType, slots)[idx] == bandType[s] && slots[idx + 1..] == rest
  {
    assert slots[idx..][0] == slots[idx];
    assert slots[idx..][1..] == slots[idx + 1..];
  }

  /** The bands of one group. */
  method PutGroup(pb: Writer, t: Tables, sce: SingleChannelElement, w: nat, ghost edges: seq<nat>, ghost geo: Geo,
                  ghost g: nat, ghost idx0: nat, ghost slots: seq<nat>, ghost bt: seq<nat>)
    requires pb.Valid() && t.Valid() && WellLaid(sce) && geo.Valid() && w < sce.numWindows
             && Tiles(sce.groupLen, w, sce.numWindows)
    requires g < |geo.groups| && geo.groups[g] == sce.groupLen[w] && geo.maxSfb == sce.maxSfb && geo.edges == edges
    requires SizesMatch(sce.swbSizes, edges, sce.maxSfb) && InArray(slots) && bt == PickBt(sce.bandType, slots)
    requires forall i: nat :: i < |slots| ==> (sce.zeroes[slots[i]] <==> sce.bandType[slots[i]] == 0)
    requires idx0 <= |slots| && slots[idx0..] == Remaining(sce.groupLen, w, sce.numWindows, 0, sce.maxSfb)
    requires AllCarried(bt, GroupRest(geo, g, 128 * w, 0, idx0), sce.quantized)
    modifies pb
    ensures pb.Valid() && idx0 + sce.maxSfb <= |slots|
    ensures slots[idx0 + sce.maxSfb..] == Remaining(sce.groupLen, w, sce.numWindows, sce.maxSfb, sce.maxSfb)
    ensures AllCarried(bt, GroupRest(geo, g, 128 * w, sce.maxSfb, idx0 + sce.maxSfb), sce.quantized)
    ensures pb.Written() + PrintSpectrum(t, bt, GroupRest(geo, g, 128 * w, sce.maxSfb, idx0 + sce.maxSfb),
                                         sce.quantized)
            == old(pb.Written()) + PrintSpectrum(t, bt, GroupRest(geo, g, 128 * w, 0, idx0), sce.quantized)
  {
    hide PrintSpectrum, AllCarried, Tables.Valid, Geo.Valid, Tiles, Slots, RowSlots, Remaining, InArray, Jobs,
         GroupRest, GroupJobs, BandJobs, Writer.Written, Pick, Groups;
    var gl := sce.groupLen;
    SizedFacts(sce);
    EdgesStart(sce.swbSizes, edges, sce.maxSfb);
    ghost var before := pb.Written() + PrintSpectrum(t, bt, GroupRest(geo, g, 128 * w, 0, idx0), sce.quantized);
    var start: nat := 0;
    var i: nat := 0;
    ghost var idx := idx0;
    while i < sce.maxSfb
      invariant pb.Valid() && i <= sce.maxSfb && start == edges[i] && idx == idx0 + i
      invariant idx <= |slots| && slots[idx..] == Remaining(gl, w, sce.numWindows, i, sce.maxSfb)
      invariant AllCarried(bt, GroupRest(geo, g, 128 * w, i, idx), sce.quantized)
      invariant pb.Written() + PrintSpectrum(t, bt, GroupRest(geo, g, 128 * w, i, idx), sce.quantized) == before
    {
      var s := w * 16 + i;
      ghost var rest := GroupRest(geo, g, 128 * w, i + 1, idx + 1);
      RemainingStep(gl, w, sce.numWindows, i, sce.maxSfb);
      assert |slots[idx..]| > 0;
      IndexBt(sce.bandType, slots, idx, s, Remaining(gl, w, sce.numWindows, i + 1, sce.maxSfb));
      GroupRestStep(geo, g, 128 * w, i, idx);
      WidthIs(geo, sce.swbSizes, edges, i);
      if sce.zeroes[s] {
        SkippedSlot(t, bt, idx, 128 * w + edges[i], geo.Width(i), geo.groups[g], rest, sce.quantized);
      } else {
        PutSlot(pb, t, sce, start, sce.swbSizes[i], w, s, bt, idx, rest);
      }
      start := start + sce.swbSizes[i];
      i := i + 1;
      idx := idx + 1;
    }
  }

  lemma EdgesStart(sizes: seq<nat>, edges: seq<nat>, bands: nat)
    requires SizesMatch(sizes, edges, bands)
    ensures |edges| > bands && edges[0] == 0
  {
  }

  /** The spectrum of a channel. */
  method EncodeSpectralCoeffs(pb: Writer, t: Tables, sce: SingleChannelElement, ghost edges: seq<nat>)
    requires pb.Valid() && t.Valid() && WellLaid(sce) && GeoFor(sce, edges).Valid()
    requires SizesMatch(sce.swbSizes, edges, sce.maxSfb) && InArray(Slots(sce.groupLen, 0, sce.numWindows, sce.maxSfb))
    requires var slots := Slots(sce.groupLen, 0, sce.numWindows, sce.maxSfb);
             && (forall i: nat :: i < |slots| ==> (sce.zeroes[slots[i]] <==> sce.bandType[slots[i]] == 0))
             && AllCarried(Pick(sce.bandType, slots), Jobs(GeoFor(sce, edges), 0, 0, 0), sce.quantized)
    modifies pb
    ensures pb.Valid()
    ensures var slots := Slots(sce.groupLen, 0, sce.numWindows, sce.maxSfb);
            pb.Written() == old(pb.Written())
              + PrintSpectrum(t, Pick(sce.bandType, slots), Jobs(GeoFor(sce, edges), 0, 0, 0), sce.quantized)
  {
    hide PrintSpectrum, AllCarried, Tables.Valid, Geo.Valid, Tiles, Slots, RowSlots, Remaining, InArray, Jobs,
         GroupRest, GroupJobs, BandJobs, At, Writer.Written, Pick, Groups, SizesMatch, Geo.BandsFrom, Geo.Width;
    ghost var geo := GeoFor(sce, edges);
    ghost var slots := Slots(sce.groupLen, 0, sce.numWindows, sce.maxSfb);
    ghost var bt := PickBt(sce.bandType, slots);
    ghost var all := PrintSpectrum(t, bt, Jobs(geo, 0, 0, 0), sce.quantized);
    var gl := sce.groupLen;
    var w: nat := 0;
    ghost var g: nat, idx: nat := 0, 0;
    TilesFacts(gl, 0, sce.numWindows);
    AtStart(geo, gl, sce.numWindows);
    SizedFacts(sce);
    assert slots[0..] == slots;
    while w < sce.numWindows
      invariant pb.Valid() && w <= sce.numWindows && Tiles(gl, w, sce.numWindows) && At(geo, gl, w, sce.numWindows, g)
      invariant g <= |geo.groups| && geo.Valid() && idx <= |slots|
                && slots[idx..] == Slots(gl, w, sce.numWindows, sce.maxSfb)
      invariant AllCarried(bt, Jobs(geo, g, 128 * w, idx), sce.quantized)
      invariant pb.Written() + PrintSpectrum(t, bt, Jobs(geo, g, 128 * w, idx), sce.quantized)
                == old(pb.Written()) + all
      decreases sce.numWindows - w
    {
      RemainingStart(gl, w, sce.numWindows, sce.maxSfb);
      AtStep(geo, gl, w, sce.numWindows, g);
      TilesFacts(gl, w, sce.numWindows);
      GroupRestStart(geo, g, 128 * w, idx);
      PutGroup(pb, t, sce, w, edges, geo, g, idx, slots, bt);
      idx := idx + sce.maxSfb;
      RemainingStep(gl, w, sce.numWindows, sce.maxSfb, sce.maxSfb);
      GroupRestStep(geo, g, 128 * w, geo.maxSfb, idx);
      TilesFacts(gl, w, sce.numWindows);
      w := w + gl[w];
      g := g + 1;
      TilesFacts(gl, w, sce.numWindows);
    }
    AtEnd(geo, gl, sce.numWindows, g);
    GroupRestStart(geo, g, 128 * w, idx);
    SpectrumEnd(t, bt, sce.quantized);
  }

  ghost function PickBt(bandType: seq<nat>, slots: seq<nat>): (bt: seq<nat>)
    requires |bandType| == 128 && InArray(slots)
    ensures bt == Pick(bandType, slots) && |bt| == |slots|
  {
    Pick(bandType, slots)
  }

  lemma IndexBt(bandType: seq<nat>, slots: seq<nat>, idx: nat, s: nat, rest: seq<nat>)
    requires |bandType| == 128 && InArray(slots) && idx < |slots| && slots[idx..] == [s] + rest
    ensures s < 128 && PickBt(bandType, slots)[idx] == bandType[s] && slots[idx + 1..] == rest && slots[idx] == s
  {
    IndexSlot(bandType, slots, idx, s, rest);
    assert slots[idx..][0] == slots[idx];
  }

  lemma AtStart(geo: Geo, gl: seq<nat>, n: nat)
    requires geo.Valid() && n <= |gl| && Tiles(gl, 0, n) && geo.groups == Groups(gl, 0, n)
    ensures At(geo, gl, 0, n, 0)
  {
    assert geo.groups[0..] == geo.groups;
  }

  lemma SizedFacts(sce: SingleChannelElement)
    requires sce.Sized()
    ensures |sce.zeroes| == |sce.bandType| == 128 && |sce.quantized| == 1024 && |sce.groupLen| == 8
  {
  }

  lemma WidthIs(geo: Geo, sizes: seq<nat>, edges: seq<nat>, i: nat)
    requires geo.Valid() && geo.edges == edges && SizesMatch(sizes, edges, geo.maxSfb) && i < geo.maxSfb
    ensures geo.Width(i) == sizes[i] && edges[i + 1] == edges[i] + sizes[i] && i < |edges|
  {
  }
}
