/** The decoder's parsers as functions of a cursor. Each loop of the decoder is a
    tail-recursive function of its loop state, so that the methods of the decoder
    can be proved equal to these functions one iteration at a time. */
module AacParse {
  import opened BitStrings
  import opened BitReader
  import opened Vlc
  import opened AacSyntax

  datatype Err = Sync | InvalidData | Unsupported | UnsupportedSBR | UnsupportedPS

  datatype Parsed<+T> = Bad(err: Err) | Good(val: T, c: Cursor)

  // ----- ics_info

  datatype Ics = Ics(seq0: nat, kb: nat, maxSfb: nat, groups: seq<nat>) {
    predicate Short() { seq0 == EIGHT_SHORT }
  }

  function GeoOf(t: Tables, ics: Ics): Geo {
    Geo(ics.Short(), ics.maxSfb, ics.groups, t.Edges(ics.Short()))
  }

  /** The seven grouping bits: 1 extends the last group, 0 opens a new one. */
  function ParseGroups(c: Cursor, left: nat, groups: seq<nat>): (seq<nat>, Cursor)
    requires |groups| > 0
    decreases left
  {
    if left == 0 then (groups, c)
    else
      var last := |groups| - 1;
      var next := if c.Peek(1) != 0 then groups[last := groups[last] + 1] else groups + [1];
      ParseGroups(c.Skip(1), left - 1, next)
  }

  function CheckIcs(t: Tables, ics: Ics, c: Cursor): Parsed<Ics>
    requires |t.Edges(ics.Short())| > 0
  {
    if ics.maxSfb > |t.Edges(ics.Short())| - 1 then Bad(InvalidData) else Good(ics, c)
  }

  function ParseIcs(t: Tables, c0: Cursor): Parsed<Ics>
    requires t.Valid()
  {
    var c1 := c0.Skip(1);
    var (sq, c2) := (c1.Peek(2), c1.Skip(2));
    var (kb, c3) := (c2.Peek(1), c2.Skip(1));
    if sq == EIGHT_SHORT then
      var (maxSfb, c4) := (c3.Peek(4), c3.Skip(4));
      var (groups, c5) := ParseGroups(c4, 7, [1]);
      CheckIcs(t, Ics(sq, kb, maxSfb, groups), c5)
    else
      var (maxSfb, c4) := (c3.Peek(6), c3.Skip(6));
      if c4.Peek(1) != 0 then Bad(InvalidData)
      else CheckIcs(t, Ics(sq, kb, maxSfb, [1]), c4.Skip(1))
  }

  // ----- section_data

  /** The run length of one section: increments until one is not all ones. */
  function ParseRun(c: Cursor, runBits: nat, end: nat, maxSfb: nat): Parsed<nat>
    requires runBits > 0
    decreases maxSfb + 1 - end
  {
    var inc := c.Peek(runBits);
    var c' := c.Skip(runBits);
    if c'.over then Bad(InvalidData)
    else if end + inc > maxSfb then Bad(InvalidData)
    else if inc != Pow2(runBits) - 1 then Good(end + inc, c')
    else
      assert inc >= 1;
      ParseRun(c', runBits, end + inc, maxSfb)
  }

  lemma {:induction false} ParseRunAdvances(c: Cursor, runBits: nat, end: nat, maxSfb: nat)
    requires runBits > 0 && c.Valid()
    ensures var r := ParseRun(c, runBits, end, maxSfb);
            r.Good? ==> end <= r.val <= maxSfb && r.c.Valid() && r.c.s == c.s && c.pos < r.c.pos && !r.c.over
    decreases maxSfb + 1 - end
  {
    var inc, c' := c.Peek(runBits), c.Skip(runBits);
    if !c'.over && end + inc <= maxSfb && inc == Pow2(runBits) - 1 {
      ParseRunAdvances(c', runBits, end + inc, maxSfb);
    }
  }

  /** n copies of cb. */
  function Fill(cb: nat, n: nat): (s: seq<nat>)
    ensures |s| == n
  {
    seq(n, _ => cb)
  }

  /** The sections of one group, appended to the band types read so far. */
  function ParseSections(c: Cursor, runBits: nat, maxSfb: nat, k: nat, bt: seq<nat>): Parsed<seq<nat>>
    requires runBits > 0 && c.Valid()
    decreases |c.s| - c.pos
  {
    if k >= maxSfb then Good(bt, c)
    else
      var cb := c.Peek(4);
      if cb == RESERVED_BT then Bad(InvalidData)
      else
        var r := ParseRun(c.Skip(4), runBits, k, maxSfb);
        if r.Bad? then Bad(r.err)
        else
          ParseRunAdvances(c.Skip(4), runBits, k, maxSfb);
          ParseSections(r.c, runBits, maxSfb, r.val, bt + Fill(cb, r.val - k))
  }

  lemma {:induction false} ParseSectionsValid(c: Cursor, runBits: nat, maxSfb: nat, k: nat, bt: seq<nat>)
    requires runBits > 0 && c.Valid() && k <= maxSfb
    ensures var r := ParseSections(c, runBits, maxSfb, k, bt);
            r.Good? ==> r.c.Valid() && r.c.s == c.s && |r.val| == |bt| + maxSfb - k && bt <= r.val
    decreases |c.s| - c.pos
  {
    if k < maxSfb && c.Peek(4) != RESERVED_BT {
      var r := ParseRun(c.Skip(4), runBits, k, maxSfb);
      if r.Good? {
        ParseRunAdvances(c.Skip(4), runBits, k, maxSfb);
        ParseSectionsValid(r.c, runBits, maxSfb, r.val, bt + Fill(c.Peek(4), r.val - k));
      }
    }
  }

  function ParseBandTypes(c: Cursor, runBits: nat, maxSfb: nat, groups: nat, bt: seq<nat>): Parsed<seq<nat>>
    requires runBits > 0 && c.Valid()
    decreases groups
  {
    if groups == 0 then Good(bt, c)
    else
      var r := ParseSections(c, runBits, maxSfb, 0, bt);
      if r.Bad? then Bad(r.err)
      else
        ParseSectionsValid(c, runBits, maxSfb, 0, bt);
        ParseBandTypes(r.c, runBits, maxSfb, groups - 1, r.val)
  }

  lemma {:induction false} ParseBandTypesLen(c: Cursor, runBits: nat, geo: Geo, g: nat, bt: seq<nat>)
    requires runBits > 0 && c.Valid() && g <= |geo.groups|
    ensures var r := ParseBandTypes(c, runBits, geo.maxSfb, |geo.groups| - g, bt);
            r.Good? ==> |r.val| == |bt| + geo.BandsFrom(g) && r.c.Valid()
    decreases |geo.groups| - g
  {
    if g < |geo.groups| {
      var r := ParseSections(c, runBits, geo.maxSfb, 0, bt);
      if r.Good? {
        ParseSectionsValid(c, runBits, geo.maxSfb, 0, bt);
        ParseBandTypesLen(r.c, runBits, geo, g + 1, r.val);
      }
    }
  }

  // ----- scale_factor_data

  /** The three scalefactor chains: normal, noise, intensity. */
  datatype Chains = Chains(normal: int, noise: int, intensity: int, noiseFlag: bool)

  function StartChains(gain: int): Chains {
    Chains(gain, gain - NOISE_OFFSET, 0, true)
  }

  datatype Step = Step(sfo: int, ch: Chains)

  /** One band's scalefactor. */
  ghost function ParseSf(t: Tables, c: Cursor, cb: nat, ch: Chains): Parsed<Step>
    requires t.Valid()
  {
    if cb == ZERO_BT then Good(Step(0, ch), c)
    else if cb == NOISE_BT && ch.noiseFlag then
      var off := ch.noise + c.Peek(NOISE_PRE_BITS) - NOISE_PRE;
      Good(Step(Clip(off, -100, 155), ch.(noise := off, noiseFlag := false)), c.Skip(NOISE_PRE_BITS))
    else
      var f := Lookup(t.sf, c);
      if f.Missing? then Bad(InvalidData)
      else if cb == NOISE_BT then
        var off := ch.noise + f.sym - SCALE_DIFF_ZERO;
        Good(Step(Clip(off, -100, 155), ch.(noise := off)), f.c)
      else if cb == INTENSITY_BT || cb == INTENSITY_BT2 then
        var off := ch.intensity + f.sym - SCALE_DIFF_ZERO;
        Good(Step(Clip(off, -155, 100) - 100, ch.(intensity := off)), f.c)
      else
        var off := ch.normal + f.sym - SCALE_DIFF_ZERO;
        if off < 0 || off > 255 then Bad(InvalidData)
        else Good(Step(off - 100, ch.(normal := off)), f.c)
  }

  ghost function ParseSfs(t: Tables, c: Cursor, bt: seq<nat>, i: nat, ch: Chains, sfo: seq<int>): Parsed<seq<int>>
    requires t.Valid()
    decreases |bt| - i
  {
    if i >= |bt| then Good(sfo, c)
    else
      var r := ParseSf(t, c, bt[i], ch);
      if r.Bad? then Bad(r.err) else ParseSfs(t, r.c, bt, i + 1, r.val.ch, sfo + [r.val.sfo])
  }

  lemma {:induction false} ParseSfsLen(t: Tables, c: Cursor, bt: seq<nat>, i: nat, ch: Chains, sfo: seq<int>)
    requires t.Valid() && i <= |bt|
    ensures var r := ParseSfs(t, c, bt, i, ch, sfo);
            r.Good? ==> |r.val| == |sfo| + |bt| - i
    decreases |bt| - i
  {
    hide Tables.Valid;
    if i < |bt| {
      var r := ParseSf(t, c, bt[i], ch);
      if r.Good? {
        ParseSfsLen(t, r.c, bt, i + 1, r.val.ch, sfo + [r.val.sfo]);
      }
    }
  }

  /** The fixed-point scalefactor of a band. */
  function SfOf(cb: nat, sfo: int): int {
    if cb == ZERO_BT then 0
    else if cb == INTENSITY_BT || cb == INTENSITY_BT2 then 100 - (sfo + 100)
    else if cb == NOISE_BT then -(100 + sfo)
    else -sfo - 100
  }

  function SfsOf(bt: seq<nat>, sfo: seq<int>): (sf: seq<int>)
    requires |bt| == |sfo|
    ensures |sf| == |bt|
  {
    seq(|bt|, i requires 0 <= i < |bt| => SfOf(bt[i], sfo[i]))
  }

  // ----- pulse_data

  datatype Pulse = Pulse(pos: nat, amp: nat)

  function ParsePulseTail(c: Cursor, left: nat, limit: nat, pulses: seq<Pulse>): Parsed<seq<Pulse>>
    requires |pulses| > 0
    decreases left
  {
    if left == 0 then Good(pulses, c)
    else
      var pos := c.Peek(5) + pulses[|pulses| - 1].pos;
      if pos >= limit then Bad(InvalidData)
      else ParsePulseTail(c.Skip(5).Skip(4), left - 1, limit, pulses + [Pulse(pos, c.Skip(5).Peek(4))])
  }

  function ParsePulses(c: Cursor, edges: seq<nat>): Parsed<seq<Pulse>>
    requires |edges| > 0
  {
    var n := c.Peek(2) + 1;
    var c1 := c.Skip(2);
    var (swb, c2) := (c1.Peek(6), c1.Skip(6));
    if swb >= |edges| - 1 then Bad(InvalidData)
    else
      var pos := edges[swb] + c2.Peek(5);
      var c3 := c2.Skip(5);
      if pos >= edges[|edges| - 1] then Bad(InvalidData)
      else ParsePulseTail(c3.Skip(4), n - 1, edges[|edges| - 1], [Pulse(pos, c3.Peek(4))])
  }

  lemma {:induction false} ParsePulseTailFits(c: Cursor, left: nat, limit: nat, pulses: seq<Pulse>)
    requires |pulses| > 0 && PulsesFit(pulses, limit)
    ensures var r := ParsePulseTail(c, left, limit, pulses);
            r.Good? ==> PulsesFit(r.val, limit)
    decreases left
  {
    if left > 0 {
      var p := Pulse(c.Peek(5) + pulses[|pulses| - 1].pos, c.Skip(5).Peek(4));
      if p.pos < limit {
        ParsePulseTailFits(c.Skip(5).Skip(4), left - 1, limit, pulses + [p]);
      }
    }
  }

  ghost predicate PulsesFit(ps: seq<Pulse>, limit: nat) {
    forall k :: 0 <= k < |ps| ==> ps[k].pos < limit
  }

  lemma ParsePulsesFit(c: Cursor, edges: seq<nat>)
    requires |edges| > 0
    ensures var r := ParsePulses(c, edges);
            r.Good? ==> PulsesFit(r.val, edges[|edges| - 1])
  {
    var c2 := c.Skip(2).Skip(6);
    var swb := c.Skip(2).Peek(6);
    if swb < |edges| - 1 {
      var pos := edges[swb] + c2.Peek(5);
      if pos < edges[|edges| - 1] {
        ParsePulseTailFits(c2.Skip(5).Skip(4), c.Peek(2), edges[|edges| - 1], [Pulse(pos, c2.Skip(5).Peek(4))]);
      }
    }
  }

  // ----- tns_data

  datatype Filter = Filter(length: nat, order: nat, direction: nat, coefs: seq<int>)

  function ParseTnsCoefs(c: Cursor, row: seq<int>, bits: nat, left: nat, coefs: seq<int>): (seq<int>, Cursor)
    requires |row| == Pow2(bits)
    decreases left
  {
    if left == 0 then (coefs, c)
    else
      ValBound(Window(c.s, c.pos, bits));
      ParseTnsCoefs(c.Skip(bits), row, bits, left - 1, coefs + [row[c.Peek(bits)]])
  }

  lemma TnsRowSize(t: Tables, compress: nat, res: nat)
    requires t.Valid() && compress <= 1 && res <= 1
    ensures |t.TnsRow(compress, res)| == Pow2(res + 3 - compress)
  {
    assert Pow2(2) == 4 && Pow2(3) == 8 && Pow2(4) == 16;
  }

  lemma BitBound(c: Cursor)
    ensures c.Peek(1) <= 1
  {
    ValBound(Window(c.s, c.pos, 1));
    assert Pow2(1) == 2;
  }

  ghost function ParseFilter(t: Tables, c0: Cursor, is8: nat, res: nat): Parsed<Filter>
    requires t.Valid() && is8 <= 1 && res <= 1
  {
    var (length, c1) := (c0.Peek(6 - 2 * is8), c0.Skip(6 - 2 * is8));
    var (order, c2) := (c1.Peek(5 - 2 * is8), c1.Skip(5 - 2 * is8));
    if order > (if is8 == 1 then 7 else 12) then Bad(InvalidData)
    else if order == 0 then Good(Filter(length, 0, 0, []), c2)
    else
      var (dir, c3) := (c2.Peek(1), c2.Skip(1));
      var (compress, c4) := (c3.Peek(1), c3.Skip(1));
      BitBound(c3);
      TnsRowSize(t, compress, res);
      var (coefs, c5) := ParseTnsCoefs(c4, t.TnsRow(compress, res), res + 3 - compress, order, []);
      Good(Filter(length, order, dir, coefs), c5)
  }

  ghost function ParseFilters(t: Tables, c: Cursor, is8: nat, res: nat, left: nat, fs: seq<Filter>): Parsed<seq<Filter>>
    requires t.Valid() && is8 <= 1 && res <= 1
    decreases left
  {
    if left == 0 then Good(fs, c)
    else
      var r := ParseFilter(t, c, is8, res);
      if r.Bad? then Bad(r.err) else ParseFilters(t, r.c, is8, res, left - 1, fs + [r.val])
  }

  /** The filters of the remaining windows. */
  ghost function ParseTns(t: Tables, c: Cursor, is8: nat, left: nat, ws: seq<seq<Filter>>): Parsed<seq<seq<Filter>>>
    requires t.Valid() && is8 <= 1
    decreases left
  {
    if left == 0 then Good(ws, c)
    else
      var (n, c1) := (c.Peek(2 - is8), c.Skip(2 - is8));
      if n == 0 then ParseTns(t, c1, is8, left - 1, ws + [[]])
      else
        BitBound(c1);
        var r := ParseFilters(t, c1.Skip(1), is8, c1.Peek(1), n, []);
        if r.Bad? then Bad(r.err) else ParseTns(t, r.c, is8, left - 1, ws + [r.val])
  }

  // ----- gain_control_data, which is only skipped

  function SkipAdjusts(c: Cursor, n: nat, width: nat): Cursor
    decreases n
  {
    if n == 0 then c else SkipAdjusts(c.Skip(width), n - 1, width)
  }

  function GainMode(sq: nat): (nat, bool, nat) {
    if sq == ONLY_LONG then (1, false, 5)
    else if sq == LONG_START then (2, true, 2)
    else if sq == EIGHT_SHORT then (8, false, 2)
    else (2, true, 5)
  }

  function SkipWindows(c: Cursor, sq: nat, wd: nat): Cursor
    decreases GainMode(sq).0 - wd
  {
    var (windows, longFirst, aloc) := GainMode(sq);
    if wd >= windows then c
    else
      var width := if wd == 0 && longFirst then 4 + 4 else 4 + aloc;
      SkipWindows(SkipAdjusts(c.Skip(3), c.Peek(3), width), sq, wd + 1)
  }

  function SkipGainBands(c: Cursor, sq: nat, bands: nat): Cursor
    decreases bands
  {
    if bands == 0 then c else SkipGainBands(SkipWindows(c, sq, 0), sq, bands - 1)
  }

  function SkipGain(c: Cursor, sq: nat): Cursor {
    SkipGainBands(c.Skip(2), sq, c.Peek(2))
  }

  // ----- spectral_data

  function SQuad(sym: nat): seq<int> {
    [sym % 4 - 1, sym / 4 % 4 - 1, sym / 16 % 4 - 1, sym / 64 % 4 - 1]
  }

  function SPair(sym: nat): seq<int> {
    [sym % 16 - 4, sym / 16 % 16 - 4]
  }

  const TOP: nat := 0x8000_0000

  /** x negated when the sign register's top bit is set. */
  function Signed32(x: int, sign: nat): int {
    if sign >= TOP then -x else x
  }

  /** The sign register shifted left by one bit, in 32 bits. */
  function ShiftSign(sign: nat): nat {
    (sign * 2) % (2 * TOP)
  }

  /** The value that the sign register moves past only if the value is nonzero. */
  function NextSign(sign: nat, nonzero: bool): nat {
    if nonzero then ShiftSign(sign) else sign
  }

  function ParseUQuad(sym: nat, c: Cursor): (seq<int>, Cursor) {
    var nnz := sym / 256 % 16;
    var s0 := Shl(c.Peek(nnz), 32 - nnz);
    var nz := sym / 4096;
    var s1 := NextSign(s0, nz % 2 == 1);
    var s2 := NextSign(s1, nz / 2 % 2 == 1);
    var s3 := NextSign(s2, nz / 4 % 2 == 1);
    ([Signed32(sym % 4, s0), Signed32(sym / 4 % 4, s1), Signed32(sym / 16 % 4, s2), Signed32(sym / 64 % 4, s3)],
     c.Skip(nnz))
  }

  function ParseUPair(sym: nat, c: Cursor): (seq<int>, Cursor) {
    var nnz := sym / 256 % 16;
    var sign := if nnz > 0 then Shl(c.Peek(nnz), sym / 4096) else 0;
    ([(sym % 16) * (1 - (sign - sign % 2)), (sym / 16 % 16) * (1 - (sign % 2) * 2)], c.Skip(nnz))
  }

  /** The number of leading ones. */
  function LeadingOnes(w: Bits): (n: nat)
    ensures n <= |w|
  {
    if |w| == 0 || !w[0] then 0 else 1 + LeadingOnes(w[1..])
  }

  /** An escape value: n leading ones, a zero, then n+4 explicit bits. */
  function ParseEscape(c: Cursor): Parsed<nat> {
    var b := LeadingOnes(Window(c.s, c.pos, 32));
    if b > 8 then Bad(InvalidData)
    else
      var c1 := c.Skip(b + 1);
      Good(Pow2(b + 4) + c1.Peek(b + 4), c1.Skip(b + 4))
  }

  datatype Half = Half(x: int, sign: nat)

  /** One value of an escape pair: nibble is its plain digit. */
  function ParseHalf(esc: bool, nibble: nat, sign: nat, c: Cursor): Parsed<Half> {
    if esc then
      var r := ParseEscape(c);
      if r.Bad? then Bad(r.err) else Good(Half(Signed32(r.val, sign), ShiftSign(sign)), r.c)
    else Good(Half(Signed32(nibble, sign), NextSign(sign, nibble != 0)), c)
  }

  function ParseEscPair(sym: nat, c: Cursor): (r: Parsed<seq<int>>)
    requires sym < 65536
    ensures r.Good? ==> |r.val| == 2
  {
    if sym == 0 then Good([0, 0], c)
    else
      var nnz := sym / 4096;
      var sign := Shl(c.Peek(nnz), 32 - nnz);
      var r0 := ParseHalf(sym / 256 % 2 == 1, sym % 16, sign, c.Skip(nnz));
      if r0.Bad? then Bad(r0.err)
      else
        var r1 := ParseHalf(sym / 512 % 2 == 1, sym / 16 % 16, r0.val.sign, r0.c);
        if r1.Bad? then Bad(r1.err) else Good([r0.val.x, r1.val.x], r1.c)
  }

  /** One codeword with its signs and escapes. */
  ghost function ParseChunk(t: Tables, cb: nat, c: Cursor): (r: Parsed<seq<int>>)
    requires t.Valid() && Tonal(cb)
    ensures r.Good? ==> |r.val| == Dim(cb)
  {
    assert SpectralOk(cb - 1 + 1, t.spectral[cb - 1]);
    var f := Lookup(t.spectral[cb - 1], c);
    if f.Missing? then Bad(InvalidData)
    else if cb <= 2 then Good(SQuad(f.sym), f.c)
    else if cb <= 4 then
      var (x, c') := ParseUQuad(f.sym, f.c);
      Good(x, c')
    else if cb <= 6 then Good(SPair(f.sym), f.c)
    else if cb <= 10 then
      var (x, c') := ParseUPair(f.sym, f.c);
      Good(x, c')
    else ParseEscPair(f.sym, f.c)
  }

  /** The remaining codewords of a band, appended to the values read so far. */
  ghost function ParseBand(t: Tables, cb: nat, c: Cursor, left: nat, x: seq<int>): (r: Parsed<seq<int>>)
    requires t.Valid() && Tonal(cb)
    ensures r.Good? ==> |r.val| == |x| + Values(cb, left)
    decreases left
  {
    if left == 0 then Good(x, c)
    else
      var r := ParseChunk(t, cb, c);
      if r.Bad? then Bad(r.err) else ParseBand(t, cb, r.c, left - 1, x + r.val)
  }

  /** q with the coefficients from base on replaced by x. */
  function Put(q: seq<int>, base: nat, x: seq<int>): (q': seq<int>)
    requires base + |x| <= |q|
    ensures |q'| == |q|
  {
    q[..base] + x + q[base + |x|..]
  }

  /** The coefficients of all bands that have any. */
  ghost function ParseSpectrum(t: Tables, c: Cursor, bt: seq<nat>, js: seq<Job>, q: seq<int>): (r: Parsed<seq<int>>)
    requires t.Valid() && |q| == 1024 && GoodJobs(js, |bt|)
    ensures r.Good? ==> |r.val| == 1024
    decreases |js|
  {
    if |js| == 0 then Good(q, c)
    else
      assert GoodJob(js[0], |bt|);
      if !Tonal(bt[js[0].idx]) then ParseSpectrum(t, c, bt, js[1..], q)
      else
        var r := ParseBand(t, bt[js[0].idx], c, Chunks(bt[js[0].idx], js[0].len), []);
        if r.Bad? then Bad(r.err) else ParseSpectrum(t, r.c, bt, js[1..], Put(q, js[0].base, r.val))
  }

  // ----- individual_channel_stream

  datatype Option<+T> = None | Some(value: T)

  lemma {:induction false} SumSnoc(g: seq<nat>, x: nat)
    ensures Sum(g + [x]) == Sum(g) + x
  {
    if |g| > 0 {
      assert (g + [x])[1..] == g[1..] + [x];
      SumSnoc(g[1..], x);
    } else {
      assert g + [x] == [x] && [x][1..] == [];
    }
  }

  lemma {:induction false} ParseGroupsSum(c: Cursor, left: nat, groups: seq<nat>)
    requires |groups| > 0 && forall i :: 0 <= i < |groups| ==> groups[i] >= 1
    ensures var g := ParseGroups(c, left, groups).0;
            Sum(g) == Sum(groups) + left && |g| > 0 && forall i :: 0 <= i < |g| ==> g[i] >= 1
    decreases left
  {
    if left > 0 {
      var last := |groups| - 1;
      if c.Peek(1) != 0 {
        var next := groups[last := groups[last] + 1];
        assert groups == groups[..last] + [groups[last]] && next == groups[..last] + [groups[last] + 1];
        SumSnoc(groups[..last], groups[last]);
        SumSnoc(groups[..last], groups[last] + 1);
        ParseGroupsSum(c.Skip(1), left - 1, next);
      } else {
        SumSnoc(groups, 1);
        ParseGroupsSum(c.Skip(1), left - 1, groups + [1]);
      }
    }
  }

  lemma CheckedGeo(t: Tables, ics: Ics, c: Cursor)
    requires t.Valid() && |ics.groups| > 0
    requires Sum(ics.groups) == (if ics.Short() then 8 else 1) && forall i :: 0 <= i < |ics.groups| ==>
             ics.groups[i] >= 1
    ensures CheckIcs(t, ics, c).Good? ==> GeoOf(t, ics).Valid()
  {
  }

  lemma OneGroup()
    ensures Sum([1]) == 1
  {
    assert [1][1..] == [];
  }

  /** A parsed ics_info describes a valid band geometry. */
  lemma ParseIcsGeo(t: Tables, c: Cursor)
    requires t.Valid()
    ensures var r := ParseIcs(t, c);
            r.Good? ==> GeoOf(t, r.val).Valid()
  {
    hide Tables.Valid, Geo.Valid;
    OneGroup();
    var c1 := c.Skip(1);
    var c3 := c1.Skip(2).Skip(1);
    if c1.Peek(2) == EIGHT_SHORT {
      ParseGroupsSum(c3.Skip(4), 7, [1]);
      var (groups, c5) := ParseGroups(c3.Skip(4), 7, [1]);
      CheckedGeo(t, Ics(c1.Peek(2), c1.Skip(2).Peek(1), c3.Peek(4), groups), c5);
    } else {
      CheckedGeo(t, Ics(c1.Peek(2), c1.Skip(2).Peek(1), c3.Peek(6), [1]), c3.Skip(6).Skip(1));
    }
  }

  /** The band a position belongs to, searching from band idx on. */
  function PulseBand(edges: seq<nat>, idx: nat, pos: nat): (i: nat)
    requires idx < |edges| - 1 && pos < edges[|edges| - 1]
    ensures idx <= i < |edges| - 1 && pos < edges[i + 1]
    decreases |edges| - idx
  {
    if edges[idx + 1] <= pos then PulseBand(edges, idx + 1, pos) else idx
  }

  /** A coefficient with a pulse added away from zero; zero becomes -amp. */
  function Pulsed(co: int, amp: nat): int {
    if co == 0 then 0 - amp as int else if co > 0 then co + amp else co - amp
  }

  /** Pulses as the transmitted bands see them: those in bands that are not
      transmitted change nothing. */
  function ApplyPulses(q: seq<int>, ps: seq<Pulse>, i: nat, idx: nat, edges: seq<nat>, bt: seq<nat>,
                       sf: seq<int>): (r: seq<int>)
    requires |bt| == |sf| && |edges| >= 1 && idx < |edges| - 1
    requires PulsesFit(ps, edges[|edges| - 1]) && edges[|edges| - 1] <= |q|
    ensures |r| == |q|
    decreases |ps| - i
  {
    if i >= |ps| then q
    else
      var b := PulseBand(edges, idx, ps[i].pos);
      var q' := if b < |bt| && bt[b] != NOISE_BT && sf[b] != 0
                then q[ps[i].pos := Pulsed(q[ps[i].pos], ps[i].amp)] else q;
      ApplyPulses(q', ps, i + 1, b, edges, bt, sf)
  }

  datatype Tools = Tools(pulses: seq<Pulse>, tns: Option<seq<seq<Filter>>>)

  /** What a channel's bits say. */
  datatype Symbols = Symbols(ics: Ics, bt: seq<nat>, sfo: seq<int>, tns: Option<seq<seq<Filter>>>, q: seq<int>)

  ghost function ParseTools(t: Tables, c: Cursor, ics: Ics): Parsed<Tools>
    requires t.Valid()
  {
    var p := if c.Peek(1) == 0 then Good([], c.Skip(1))
             else if ics.Short() then Bad(InvalidData)
             else ParsePulses(c.Skip(1), t.longEdges);
    if p.Bad? then Bad(p.err)
    else
      var c1 := p.c.Skip(1);
      var w := if p.c.Peek(1) == 0 then Good(None, c1)
               else
                 var r := ParseTns(t, c1, if ics.Short() then 1 else 0, if ics.Short() then 8 else 1, []);
                 if r.Bad? then Bad(r.err) else Good(Some(r.val), r.c);
      if w.Bad? then Bad(w.err)
      else
        var c2 := w.c.Skip(1);
        var c3 := if w.c.Peek(1) == 0 then c2 else SkipGain(c2, ics.seq0);
        if c3.over then Bad(InvalidData) else Good(Tools(p.val, w.val), c3)
  }

  /** The side information between ics_info and the spectrum. */
  datatype Side = Side(bt: seq<nat>, sfo: seq<int>, tools: Tools)

  ghost function ParseSide(t: Tables, c: Cursor, gain: int, ics: Ics): Parsed<Side>
    requires t.Valid() && GeoOf(t, ics).Valid() && c.Valid()
  {
    var b := ParseBandTypes(c, if ics.Short() then 3 else 5, ics.maxSfb, |ics.groups|, []);
    if b.Bad? then Bad(b.err)
    else
      var s := ParseSfs(t, b.c, b.val, 0, StartChains(gain), []);
      if s.Bad? then Bad(s.err)
      else
        var w := ParseTools(t, s.c, ics);
        if w.Bad? then Bad(w.err) else Good(Side(b.val, s.val, w.val), w.c)
  }

  lemma ParseToolsFit(t: Tables, c: Cursor, ics: Ics)
    requires t.Valid()
    ensures var r := ParseTools(t, c, ics);
            r.Good? ==> PulsesFit(r.val.pulses, 1024) && (ics.Short() ==> r.val.pulses == [])
  {
    ParsePulsesFit(c.Skip(1), t.longEdges);
  }

  lemma ParseSideFits(t: Tables, c: Cursor, gain: int, ics: Ics)
    requires t.Valid() && GeoOf(t, ics).Valid() && c.Valid()
    ensures var r := ParseSide(t, c, gain, ics);
            r.Good? ==> |r.val.bt| == |r.val.sfo| == GeoOf(t, ics).Bands()
                        && PulsesFit(r.val.tools.pulses, 1024) && (ics.Short() ==> r.val.tools.pulses == [])
  {
    hide Tables.Valid, Geo.Valid, ParseTools, ParseSfs, ParseBandTypes, Geo.BandsFrom, PulsesFit;
    var runBits := if ics.Short() then 3 else 5;
    var b := ParseBandTypes(c, runBits, ics.maxSfb, |ics.groups|, []);
    ParseBandTypesLen(c, runBits, GeoOf(t, ics), 0, []);
    if b.Good? {
      var s := ParseSfs(t, b.c, b.val, 0, StartChains(gain), []);
      ParseSfsLen(t, b.c, b.val, 0, StartChains(gain), []);
      if s.Good? {
        ParseToolsFit(t, s.c, ics);
      }
    }
  }

  /** The spectrum behind the side information, pulses applied. */
  ghost function ParseCoefs(t: Tables, c: Cursor, ics: Ics, side: Side): (r: Parsed<seq<int>>)
    requires t.Valid() && GeoOf(t, ics).Valid()
    requires |side.bt| == |side.sfo| == GeoOf(t, ics).Bands()
    requires PulsesFit(side.tools.pulses, 1024) && (ics.Short() ==> side.tools.pulses == [])
    ensures r.Good? ==> |r.val| == 1024
  {
    JobsGood(GeoOf(t, ics));
    var r := ParseSpectrum(t, c, side.bt, Jobs(GeoOf(t, ics), 0, 0, 0), seq(1024, _ => 0));
    if r.Bad? || ics.Short() then r
    else Good(ApplyPulses(r.val, side.tools.pulses, 0, 0, t.longEdges, side.bt, SfsOf(side.bt, side.sfo)), r.c)
  }

  /** One channel. With a common window the ics_info comes from the pair. */
  ghost function ParseChannel(t: Tables, c: Cursor, common: Option<Ics>): Parsed<Symbols>
    requires t.Valid() && c.Valid() && (common.Some? ==> GeoOf(t, common.value).Valid())
  {
    var gain := c.Peek(8);
    var i := if common.Some? then Good(common.value, c.Skip(8)) else ParseIcs(t, c.Skip(8));
    if i.Bad? then Bad(i.err)
    else
      ParseIcsGeo(t, c.Skip(8));
      ParseIcsValid(t, c.Skip(8));
      var s := ParseSide(t, i.c, gain, i.val);
      if s.Bad? then Bad(s.err)
      else
        ParseSideFits(t, i.c, gain, i.val);
        var q := ParseCoefs(t, s.c, i.val, s.val);
        if q.Bad? then Bad(q.err)
        else Good(Symbols(i.val, s.val.bt, s.val.sfo, s.val.tools.tns, q.val), q.c)
  }

  lemma {:induction false} ParseGroupsValid(c: Cursor, left: nat, groups: seq<nat>)
    requires |groups| > 0 && c.Valid()
    ensures ParseGroups(c, left, groups).1.Valid()
    decreases left
  {
    if left > 0 {
      var last := |groups| - 1;
      ParseGroupsValid(c.Skip(1), left - 1, if c.Peek(1) != 0 then groups[last := groups[last] + 1] else groups + [1]);
    }
  }

  lemma ParseIcsValid(t: Tables, c: Cursor)
    requires t.Valid()
    ensures var r := ParseIcs(t, c);
            r.Good? ==> r.c.Valid()
  {
    ParseGroupsValid(c.Skip(1).Skip(2).Skip(1).Skip(4), 7, [1]);
  }
}
