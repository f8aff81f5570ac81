/** What printer and parser of an individual_channel_stream have in common: the
    constants, the tables they are parameterised by, and the walk over bands. */
module AacSyntax {
  import opened Vlc

  const ZERO_BT: nat := 0
  const ESC_BT: nat := 11
  const RESERVED_BT: nat := 12
  const NOISE_BT: nat := 13
  const INTENSITY_BT2: nat := 14
  const INTENSITY_BT: nat := 15

  const ONLY_LONG: nat := 0
  const LONG_START: nat := 1
  const EIGHT_SHORT: nat := 2
  const LONG_STOP: nat := 3

  const SCALE_DIFF_ZERO: int := 60
  const SCALE_MAX_DIFF: int := 60
  const NOISE_PRE: int := 256
  const NOISE_PRE_BITS: nat := 9
  const NOISE_OFFSET: int := 90

  function Clip(v: int, lo: int, hi: int): int {
    if v < lo then lo else if v > hi then hi else v
  }

  function Abs(x: int): nat {
    if x < 0 then -x else x
  }

  // ----- spectral codebooks

  /** Codebooks 1..11 carry coefficients; the others carry none. */
  predicate Tonal(cb: nat) {
    1 <= cb <= ESC_BT
  }

  function Dim(cb: nat): nat {
    if cb < 5 then 4 else 2
  }

  /** The number of codewords of a band of len coefficients. */
  function Chunks(cb: nat, len: nat): nat {
    if cb < 5 then len / 4 else len / 2
  }

  /** The number of coefficients in n codewords. */
  function Values(cb: nat, n: nat): nat {
    if cb < 5 then 4 * n else 2 * n
  }

  predicate Signed(cb: nat) {
    cb == 1 || cb == 2 || cb == 5 || cb == 6
  }

  function MaxVal(cb: nat): nat {
    if cb == 0 then 0 else if cb <= 2 then 1 else if cb <= 4 then 2 else if cb <= 6 then 4
    else if cb <= 8 then 7 else if cb <= 10 then 12 else 16
  }

  function Range(cb: nat): nat {
    if Signed(cb) then 2 * MaxVal(cb) + 1 else MaxVal(cb) + 1
  }

  /** A quantized coefficient codebook cb can carry, escapes included. */
  predicate Carries(cb: nat, x: int) {
    if cb == ESC_BT then Abs(x) <= 8191 else Abs(x) <= MaxVal(cb)
  }

  /** The codebook digit of a coefficient; escapes all share digit 16. */
  function Digit(cb: nat, x: int): int {
    if Signed(cb) then x + MaxVal(cb) else if Abs(x) > MaxVal(cb) then MaxVal(cb) else Abs(x)
  }

  ghost predicate GoodDigits(cb: nat, d: seq<int>) {
    |d| == Dim(cb) && forall i :: 0 <= i < |d| ==> 0 <= d[i] < Range(cb)
  }

  /** The codeword index of a digit vector, base Range(cb). */
  function Index(cb: nat, d: seq<int>): int {
    if |d| == 0 then 0 else Index(cb, d[..|d| - 1]) * Range(cb) + d[|d| - 1]
  }

  function NonZero(x: int): nat {
    if x != 0 then 1 else 0
  }

  /** How the decoder's symbol descriptors pack a digit vector: the digits, the
      number of sign bits, and where the signs or escapes belong. */
  ghost predicate Packed(cb: nat, d: seq<int>, sym: nat)
    requires |d| == Dim(cb)
  {
    if cb <= 2 then
      sym % 256 == d[0] + 4 * d[1] + 16 * d[2] + 64 * d[3]
    else if cb <= 4 then
      sym == d[0] + 4 * d[1] + 16 * d[2] + 64 * d[3]
             + 256 * (NonZero(d[0]) + NonZero(d[1]) + NonZero(d[2]) + NonZero(d[3]))
             + 4096 * (NonZero(d[0]) + 2 * NonZero(d[1]) + 4 * NonZero(d[2]) + 8 * NonZero(d[3]))
    else if cb <= 6 then
      sym % 256 == d[0] + 16 * d[1]
    else if cb <= 10 then
      sym == d[0] + 16 * d[1] + 256 * (NonZero(d[0]) + NonZero(d[1]))
             + 4096 * (if d[0] != 0 && d[1] == 0 then 1 else 0)
    else
      sym == (if d[0] == 16 then 256 else d[0]) + (if d[1] == 16 then 512 else 16 * d[1])
             + 4096 * (NonZero(d[0]) + NonZero(d[1]))
  }

  ghost predicate SpectralOk(cb: nat, b: Book) {
    && b.Valid() && b.PrefixFree()
    && (forall j :: 0 <= j < |b.syms| ==> b.syms[j] < 65536)
    && forall d :: GoodDigits(cb, d) ==> 0 <= Index(cb, d) < |b.lens| && Packed(cb, d, b.syms[Index(cb, d)])
  }

  // ----- tables

  /** Scalefactor band edges: from 0 to the window length in steps that are
      positive multiples of four. */
  ghost predicate GoodEdges(o: seq<nat>, total: nat, maxBands: nat) {
    && 2 <= |o| <= maxBands + 1
    && o[0] == 0 && o[|o| - 1] == total
    && forall i :: 0 <= i < |o| - 1 ==> o[i] < o[i + 1] && (o[i + 1] - o[i]) % 4 == 0
  }

  lemma {:induction false} EdgesUp(o: seq<nat>, total: nat, maxBands: nat, i: nat, j: nat)
    requires GoodEdges(o, total, maxBands) && i <= j < |o|
    ensures o[i] <= o[j]
    ensures (o[j] - o[i]) % 4 == 0
    ensures i < j ==> o[i] < o[j]
  {
    if i < j {
      EdgesUp(o, total, maxBands, i, j - 1);
      assert o[j - 1] < o[j - 1 + 1];
    }
  }

  /** Everything the syntax depends on besides the bits: band edges of the two
      window lengths, TNS limits and coefficient maps, and the code tables. */
  datatype Tables = Tables(longEdges: seq<nat>, shortEdges: seq<nat>, tnsMaxLong: nat, tnsMaxShort: nat,
                           tns3: seq<int>, tns4: seq<int>, sf: Book, spectral: seq<Book>) {
    ghost predicate Valid() {
      && GoodEdges(longEdges, 1024, 51)
      && GoodEdges(shortEdges, 128, 15)
      && |tns3| == 8 && |tns4| == 16
      && sf.Valid() && sf.PrefixFree() && |sf.lens| == 121 && (forall j :: 0 <= j < 121 ==> sf.syms[j] == j)
      && |spectral| == 11
      && (forall i :: 0 <= i < 11 ==> SpectralOk(i + 1, spectral[i]))
    }

    function Edges(short: bool): seq<nat> {
      if short then shortEdges else longEdges
    }

    /** The inverse quantizer of TNS coefficients. The compressed form keeps the
        first and last quarter of the full row. */
    function TnsRow(compress: nat, res: nat): (row: seq<int>)
      requires |tns3| == 8 && |tns4| == 16
    {
      var full := if res == 1 then tns4 else tns3;
      if compress == 0 then full else full[..|full| / 4] + full[3 * (|full| / 4)..]
    }
  }

  // ----- the walk over bands

  function Sum(g: seq<nat>): nat {
    if |g| == 0 then 0 else g[0] + Sum(g[1..])
  }

  /** The band geometry of one channel: window length, transmitted bands, and the
      lengths of the window groups. */
  datatype Geo = Geo(short: bool, maxSfb: nat, groups: seq<nat>, edges: seq<nat>) {
    ghost predicate Valid() {
      && GoodEdges(edges, if short then 128 else 1024, if short then 15 else 51)
      && maxSfb < |edges|
      && (forall i :: 0 <= i < |groups| ==> groups[i] >= 1)
      && Sum(groups) == (if short then 8 else 1)
    }

    /** The number of (group, band) pairs. */
    function Bands(): nat {
      BandsFrom(0)
    }

    function BandsFrom(g: nat): nat
      decreases |groups| - g
    {
      if g >= |groups| then 0 else maxSfb + BandsFrom(g + 1)
    }

    function Width(i: nat): nat
      requires Valid() && i < maxSfb
    {
      edges[i + 1] - edges[i]
    }
  }

  /** One band of one window: its (group, band) index, and its coefficients. */
  datatype Job = Job(idx: nat, base: nat, len: nat)

  function BandJobs(idx: nat, base: nat, len: nat, n: nat): seq<Job>
    decreases n
  {
    if n == 0 then [] else [Job(idx, base, len)] + BandJobs(idx, base + 128, len, n - 1)
  }

  function GroupJobs(geo: Geo, g: nat, coefBase: nat, i: nat, idx: nat): seq<Job>
    requires geo.Valid() && g < |geo.groups| && i <= geo.maxSfb
    decreases geo.maxSfb - i
  {
    if i == geo.maxSfb then []
    else
      BandJobs(idx, coefBase + geo.edges[i], geo.Width(i), geo.groups[g]) + GroupJobs(geo, g, coefBase, i + 1, idx + 1)
  }

  /** All bands of all windows from group g on, in bitstream order. */
  function Jobs(geo: Geo, g: nat, coefBase: nat, idx: nat): seq<Job>
    requires geo.Valid() && g <= |geo.groups|
    decreases |geo.groups| - g
  {
    if g == |geo.groups| then []
    else GroupJobs(geo, g, coefBase, 0, idx) + Jobs(geo, g + 1, coefBase + 128 * geo.groups[g], idx + geo.maxSfb)
  }

  ghost predicate GoodJob(j: Job, bands: nat) {
    j.idx < bands && j.base + j.len <= 1024 && j.len > 0 && j.len % 4 == 0
  }

  ghost predicate GoodJobs(js: seq<Job>, bands: nat) {
    forall k :: 0 <= k < |js| ==> GoodJob(js[k], bands)
  }

  lemma {:induction false} BandJobsGood(idx: nat, base: nat, len: nat, n: nat, bands: nat, room: nat)
    requires idx < bands && len > 0 && len % 4 == 0
    requires n > 0 ==> base + 128 * (n - 1) + len <= room <= 1024
    ensures GoodJobs(BandJobs(idx, base, len, n), bands)
    decreases n
  {
    if n > 0 {
      BandJobsGood(idx, base + 128, len, n - 1, bands, room);
    }
  }

  lemma {:induction false} GroupJobsGood(geo: Geo, g: nat, coefBase: nat, i: nat, idx: nat, bands: nat)
    requires geo.Valid() && g < |geo.groups| && i <= geo.maxSfb
    requires idx + (geo.maxSfb - i) <= bands
    requires coefBase + 128 * geo.groups[g] <= 1024
    requires geo.short || (coefBase == 0 && geo.groups[g] == 1)
    ensures GoodJobs(GroupJobs(geo, g, coefBase, i, idx), bands)
    decreases geo.maxSfb - i
  {
    if i < geo.maxSfb {
      GroupJobsGood(geo, g, coefBase, i + 1, idx + 1, bands);
      var total, n := if geo.short then 128 else 1024, if geo.short then 15 else 51;
      EdgesUp(geo.edges, total, n, i, i + 1);
      EdgesUp(geo.edges, total, n, i + 1, |geo.edges| - 1);
      BandJobsGood(idx, coefBase + geo.edges[i], geo.Width(i), geo.groups[g], bands, 1024);
    }
  }

  /** A long window is its own group. */
  lemma LongGroup(geo: Geo)
    requires geo.Valid() && !geo.short
    ensures geo.groups == [1]
  {
    SumAtLeast(geo.groups, geo.groups, 0);
    if |geo.groups| == 1 {
      assert geo.groups[1..] == [];
    }
  }

  lemma {:induction false} SumAtLeast(t: seq<nat>, g: seq<nat>, k: nat)
    requires k <= |g| && t == g[k..] && forall i :: 0 <= i < |g| ==> g[i] >= 1
    ensures Sum(t) >= |t|
    decreases |t|
  {
    if |t| > 0 {
      SumAtLeast(t[1..], g, k + 1);
    }
  }

  lemma {:induction false} ShortJobsGood(geo: Geo, g: nat, coefBase: nat, idx: nat, bands: nat)
    requires geo.Valid() && geo.short && g <= |geo.groups|
    requires coefBase + 128 * Sum(geo.groups[g..]) == 1024
    requires idx + geo.BandsFrom(g) <= bands
    ensures GoodJobs(Jobs(geo, g, coefBase, idx), bands)
    decreases |geo.groups| - g
  {
    hide GroupJobs, GoodEdges, GoodJob;
    if g < |geo.groups| {
      assert geo.groups[g..][1..] == geo.groups[g + 1..];
      GroupJobsGood(geo, g, coefBase, 0, idx, bands);
      ShortJobsGood(geo, g + 1, coefBase + 128 * geo.groups[g], idx + geo.maxSfb, bands);
    }
  }

  /** Every band the walk visits has an index among the bands and lies in the
      1024 coefficients. */
  lemma JobsGood(geo: Geo)
    requires geo.Valid()
    ensures GoodJobs(Jobs(geo, 0, 0, 0), geo.Bands())
  {
    if geo.short {
      assert geo.groups[0..] == geo.groups;
      ShortJobsGood(geo, 0, 0, 0, geo.Bands());
    } else {
      LongGroup(geo);
      GroupJobsGood(geo, 0, 0, 0, 0, geo.Bands());
      assert Jobs(geo, 0, 0, 0) == GroupJobs(geo, 0, 0, 0, 0) + [];
    }
  }
}
