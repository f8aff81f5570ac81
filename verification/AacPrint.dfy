/** The bits the encoder writes for one individual_channel_stream, as functions of
    the coding decisions and the quantized coefficients. */
module AacPrint {
  import opened BitStrings
  import opened AacSyntax
  import opened AacParse

  datatype Section = Section(cb: nat, run: nat)

  /** A TNS filter as the encoder holds it: 4-bit coefficient indices. */
  datatype TnsFilter = TnsFilter(length: nat, order: nat, direction: nat, idx: seq<nat>)

  /** One channel ready to be written, bands listed in bitstream order. */
  datatype Channel = Channel(ics: Ics, gain: int, sections: seq<seq<Section>>, bt: seq<nat>, sf: seq<int>,
                             tnsPresent: bool, tns: seq<seq<TnsFilter>>, q: seq<int>)

  function Ones(n: nat): (b: Bits)
    ensures |b| == n
  {
    seq(n, _ => true)
  }

  // ----- ics_info

  /** The grouping bits of the windows after the current one, which has n more
      windows in its group. */
  function PrintGroups(n: nat, rest: seq<nat>): Bits
    decreases |rest|, n
  {
    if n > 0 then [true] + PrintGroups(n - 1, rest)
    else if |rest| == 0 then []
    else if rest[0] == 0 then PrintGroups(0, rest[1..])
    else [false] + PrintGroups(rest[0] - 1, rest[1..])
  }

  function PrintIcs(ics: Ics): Bits {
    [false] + ToBits(2, ics.seq0) + ToBits(1, ics.kb) +
    (if ics.Short() then
       ToBits(4, ics.maxSfb) + (if |ics.groups| == 0 || ics.groups[0] == 0 then []
                                else PrintGroups(ics.groups[0] - 1, ics.groups[1..]))
     else ToBits(6, ics.maxSfb) + [false])
  }

  // ----- section_data

  function PrintRun(run: nat, runBits: nat): Bits
    requires runBits > 1
    decreases run
  {
    var esc := Pow2(runBits) - 1;
    assert Pow2(runBits) == 2 * Pow2(runBits - 1) && Pow2(runBits - 1) == 2 * Pow2(runBits - 2);
    if run >= esc then ToBits(runBits, esc) + PrintRun(run - esc, runBits) else ToBits(runBits, run)
  }

  function PrintSections(s: seq<Section>, runBits: nat): Bits
    requires runBits > 1
  {
    if |s| == 0 then [] else ToBits(4, s[0].cb) + PrintRun(s[0].run, runBits) + PrintSections(s[1..], runBits)
  }

  function PrintBandTypes(groups: seq<seq<Section>>, runBits: nat): Bits
    requires runBits > 1
  {
    if |groups| == 0 then [] else PrintSections(groups[0], runBits) + PrintBandTypes(groups[1..], runBits)
  }

  /** The band types a list of sections assigns. */
  function Expand(s: seq<Section>): seq<nat> {
    if |s| == 0 then [] else Fill(s[0].cb, s[0].run) + Expand(s[1..])
  }

  function ExpandAll(groups: seq<seq<Section>>): seq<nat> {
    if |groups| == 0 then [] else Expand(groups[0]) + ExpandAll(groups[1..])
  }

  // ----- scale_factor_data

  /** A scalefactor's delta against its chain, and the chains after it. */
  function Delta(cb: nat, sf: int, ch: Chains): int {
    if cb == NOISE_BT then sf - ch.noise
    else if cb == INTENSITY_BT || cb == INTENSITY_BT2 then sf - ch.intensity
    else sf - ch.normal
  }

  function NextChains(cb: nat, sf: int, ch: Chains): Chains {
    if cb == ZERO_BT then ch
    else if cb == NOISE_BT then ch.(noise := sf, noiseFlag := false)
    else if cb == INTENSITY_BT || cb == INTENSITY_BT2 then ch.(intensity := sf)
    else ch.(normal := sf)
  }

  /** The first noise band of a channel is sent with nine plain bits. */
  predicate Preamble(cb: nat, ch: Chains) {
    cb == NOISE_BT && ch.noiseFlag
  }

  /** The deltas that have a code: those the writer does not fail on. */
  predicate Codable(cb: nat, sf: int, ch: Chains) {
    cb != ZERO_BT && !Preamble(cb, ch) ==> 0 <= Delta(cb, sf, ch) + SCALE_DIFF_ZERO <= 120
  }

  /** v as the Go conversion to uint32 yields it. */
  function Uint32(v: int): nat {
    v % 0x1_0000_0000
  }

  function PrintSf(t: Tables, cb: nat, sf: int, ch: Chains): Bits
    requires t.Valid()
  {
    if cb == ZERO_BT then []
    else if Preamble(cb, ch) then ToBits(NOISE_PRE_BITS, Uint32(Delta(cb, sf, ch) + NOISE_PRE))
    else if Codable(cb, sf, ch) then t.sf.Word(Delta(cb, sf, ch) + SCALE_DIFF_ZERO)
    else []
  }

  function PrintSfs(t: Tables, bt: seq<nat>, sf: seq<int>, i: nat, ch: Chains): Bits
    requires t.Valid() && |sf| == |bt|
    decreases |bt| - i
  {
    if i >= |bt| then []
    else PrintSf(t, bt[i], sf[i], ch) + PrintSfs(t, bt, sf, i + 1, NextChains(bt[i], sf[i], ch))
  }

  // ----- tns_data

  /** No index needs the full range. */
  predicate Compressible(idx: seq<nat>) {
    forall i :: 0 <= i < |idx| ==> !(4 <= idx[i] <= 11)
  }

  /** The transmitted indices: the upper quarter moves down next to the lower. */
  function Compress(idx: seq<nat>): (r: seq<nat>)
    ensures |r| == |idx|
  {
    seq(|idx|, i requires 0 <= i < |idx| => if idx[i] > 11 then idx[i] - 8 else idx[i])
  }

  function PrintCoefs(idx: seq<nat>, bits: nat): Bits {
    if |idx| == 0 then [] else ToBits(bits, idx[0]) + PrintCoefs(idx[1..], bits)
  }

  function PrintFilter(f: TnsFilter, is8: nat): Bits
    requires is8 <= 1
  {
    ToBits(6 - 2 * is8, f.length) + ToBits(5 - 2 * is8, f.order) +
    (if f.order == 0 then []
     else if Compressible(f.idx) then
       ToBits(1, f.direction) + [true] + PrintCoefs(Compress(f.idx), 3)
     else
       ToBits(1, f.direction) + [false] + PrintCoefs(f.idx, 4))
  }

  function PrintFilters(fs: seq<TnsFilter>, is8: nat): Bits
    requires is8 <= 1
  {
    if |fs| == 0 then [] else PrintFilter(fs[0], is8) + PrintFilters(fs[1..], is8)
  }

  function PrintTns(ws: seq<seq<TnsFilter>>, is8: nat): Bits
    requires is8 <= 1
  {
    if |ws| == 0 then []
    else
      ToBits(2 - is8, |ws[0]|) + (if |ws[0]| == 0 then [] else [true] + PrintFilters(ws[0], is8))
          + PrintTns(ws[1..], is8)
  }

  // ----- spectral_data

  function Log2(x: nat): nat {
    if x < 2 then 0 else 1 + Log2(x / 2)
  }

  /** The escape of a magnitude of at least 16: a unary length, then the value
      without its leading one. */
  function PrintEscape(x: nat): Bits
    requires x >= 16
  {
    Log2At16(x);
    var len := Log2(x);
    PowAtLeast2(len - 4 + 1);
    ToBits(len - 4 + 1, Pow2(len - 4 + 1) - 2) + ToBits(len, x)
  }

  lemma Log2At16(x: nat)
    requires x >= 16
    ensures Log2(x) >= 4
  {
    assert Log2(x / 2 / 2 / 2) >= 1;
    assert Log2(x / 2 / 2) >= 2;
    assert Log2(x / 2) >= 3;
  }

  lemma PowAtLeast2(n: nat)
    requires n >= 1
    ensures Pow2(n) >= 2
  {
    assert Pow2(n) == 2 * Pow2(n - 1);
  }

  function Digits(cb: nat, x: seq<int>): (d: seq<int>)
    ensures |d| == |x|
  {
    seq(|x|, i requires 0 <= i < |x| => Digit(cb, x[i]))
  }

  /** One sign bit for every nonzero value. */
  function PrintSigns(x: seq<int>): Bits {
    if |x| == 0 then []
    else (if x[0] != 0 then [x[0] < 0] else []) + PrintSigns(x[1..])
  }

  function PrintEscapes(x: seq<int>): Bits {
    if |x| == 0 then []
    else (if Abs(x[0]) >= 16 then PrintEscape(Abs(x[0])) else []) + PrintEscapes(x[1..])
  }

  /** One codeword, then signs, then escapes. */
  ghost function PrintChunk(t: Tables, cb: nat, x: seq<int>): Bits
    requires t.Valid() && Tonal(cb) && GoodDigits(cb, Digits(cb, x))
  {
    assert SpectralOk(cb - 1 + 1, t.spectral[cb - 1]);
    t.spectral[cb - 1].Word(Index(cb, Digits(cb, x)))
    + (if Signed(cb) then [] else PrintSigns(x))
    + (if cb == ESC_BT then PrintEscapes(x) else [])
  }

  ghost predicate CarriesAll(cb: nat, x: seq<int>) {
    forall i :: 0 <= i < |x| ==> Carries(cb, x[i])
  }

  lemma CarriedDigits(cb: nat, x: seq<int>)
    requires Tonal(cb) && CarriesAll(cb, x) && |x| == Dim(cb)
    ensures GoodDigits(cb, Digits(cb, x))
  {
  }

  ghost function PrintBand(t: Tables, cb: nat, x: seq<int>): Bits
    requires t.Valid() && Tonal(cb) && CarriesAll(cb, x) && |x| == Values(cb, Chunks(cb, |x|))
    decreases |x|
  {
    if |x| == 0 then []
    else
      CarriedDigits(cb, x[..Dim(cb)]);
      PrintChunk(t, cb, x[..Dim(cb)]) + PrintBand(t, cb, x[Dim(cb)..])
  }

  /** The coefficients of one band of one window. */
  function Slice(q: seq<int>, j: Job): seq<int>
    requires j.base + j.len <= |q|
  {
    q[j.base..j.base + j.len]
  }

  /** Every band's codebook can carry its coefficients. */
  ghost predicate AllCarried(bt: seq<nat>, js: seq<Job>, q: seq<int>) {
    && |q| == 1024 && GoodJobs(js, |bt|)
    && forall k :: 0 <= k < |js| && Tonal(bt[js[k].idx]) ==> CarriesAll(bt[js[k].idx], Slice(q, js[k]))
  }

  ghost function PrintSpectrum(t: Tables, bt: seq<nat>, js: seq<Job>, q: seq<int>): Bits
    requires t.Valid() && AllCarried(bt, js, q)
    decreases |js|
  {
    if |js| == 0 then []
    else
      assert GoodJob(js[0], |bt|);
      (if Tonal(bt[js[0].idx]) then PrintBand(t, bt[js[0].idx], Slice(q, js[0])) else [])
      + PrintSpectrum(t, bt, js[1..], q)
  }

  // ----- individual_channel_stream

  function RunBits(short: bool): nat {
    if short then 3 else 5
  }

  ghost predicate WellFormedIcs(t: Tables, ics: Ics) {
    && t.Valid() && ics.seq0 < 4 && ics.kb <= 1 && GeoOf(t, ics).Valid()
  }

  /** All side information but the first noise scalefactor is representable and
      consistent, so that the channel has bits. */
  ghost predicate Printable(t: Tables, ch: Channel) {
    && WellFormedIcs(t, ch.ics)
    && 0 <= ch.gain <= 255
    && |ch.bt| == |ch.sf| == GeoOf(t, ch.ics).Bands()
    && SectionsFit(ch.sections, |ch.ics.groups|, ch.ics.maxSfb) && ExpandAll(ch.sections) == ch.bt
    && (ch.tnsPresent ==> LegalTns(ch.tns, if ch.ics.Short() then 1 else 0))
    && AllCarried(ch.bt, Jobs(GeoOf(t, ch.ics), 0, 0, 0), ch.q)
  }

  /** The bits can be read back. */
  ghost predicate WellFormed(t: Tables, ch: Channel) {
    Printable(t, ch) && LegalSfs(ch.bt, ch.sf, 0, StartChains(ch.gain))
  }

  lemma WellFormedPrints(t: Tables, ch: Channel)
    requires WellFormed(t, ch)
    ensures Printable(t, ch)
  {
  }

  ghost predicate GoodSection(s: Section) {
    s.cb < 16 && s.cb != RESERVED_BT && s.run > 0
  }

  /** The sections of each group exactly cover the transmitted bands. */
  ghost predicate SectionsFit(groups: seq<seq<Section>>, n: nat, maxSfb: nat) {
    && |groups| == n
    && forall g :: 0 <= g < n ==> |Expand(groups[g])| == maxSfb && forall i :: 0 <= i < |groups[g]| ==>
        GoodSection(groups[g][i])
  }

  /** A scalefactor the decoder reads back: its delta has a code and its value is
      in its chain's range. */
  predicate LegalSf(cb: nat, sf: int, ch: Chains) {
    if cb == ZERO_BT then true
    else if cb == NOISE_BT then
      -100 <= sf <= 155 && (if ch.noiseFlag then -256 <= sf - ch.noise <= 255 else -60 <= sf - ch.noise <= 60)
    else if cb == INTENSITY_BT || cb == INTENSITY_BT2 then
      -155 <= sf <= 100 && -60 <= sf - ch.intensity <= 60
    else
      0 <= sf <= 255 && -60 <= sf - ch.normal <= 60
  }

  predicate LegalSfs(bt: seq<nat>, sf: seq<int>, i: nat, ch: Chains)
    requires |bt| == |sf|
    decreases |bt| - i
  {
    i < |bt| ==> LegalSf(bt[i], sf[i], ch) && LegalSfs(bt, sf, i + 1, NextChains(bt[i], sf[i], ch))
  }

  predicate LegalFilter(f: TnsFilter, is8: nat)
    requires is8 <= 1
  {
    && f.length < (if is8 == 1 then 16 else 64)
    && f.order <= (if is8 == 1 then 7 else 12)
    && f.direction <= 1
    && |f.idx| == f.order
    && (forall i :: 0 <= i < |f.idx| ==> f.idx[i] < 16)
  }

  predicate LegalTns(ws: seq<seq<TnsFilter>>, is8: nat)
    requires is8 <= 1
  {
    && |ws| == (if is8 == 1 then 8 else 1)
    && forall w :: 0 <= w < |ws| ==>
         |ws[w]| < (if is8 == 1 then 2 else 4) && forall f :: 0 <= f < |ws[w]| ==> LegalFilter(ws[w][f], is8)
  }

  ghost function PrintChannel(t: Tables, ch: Channel, common: bool): Bits
    requires Printable(t, ch)
  {
    ToBits(8, ch.gain)
    + (if common then [] else PrintIcs(ch.ics))
    + PrintBandTypes(ch.sections, RunBits(ch.ics.Short()))
    + PrintSfs(t, ch.bt, ch.sf, 0, StartChains(ch.gain))
    + [false]
    + [ch.tnsPresent]
    + (if ch.tnsPresent then PrintTns(ch.tns, if ch.ics.Short() then 1 else 0) else [])
    + [false]
    + PrintSpectrum(t, ch.bt, Jobs(GeoOf(t, ch.ics), 0, 0, 0), ch.q)
  }
}
