/** Parsers only move forward: none steps back, changes the input or clears the
    overread flag. */
module AacForward {
  import opened BitStrings
  import opened BitReader
  import opened Vlc
  import opened AacSyntax
  import opened AacParse

  ghost predicate Forward(c: Cursor, c': Cursor) {
    c'.s == c.s && c.pos <= c'.pos <= |c.s| && (c.over ==> c'.over)
  }

  lemma {:induction false} ParseGroupsForward(c: Cursor, left: nat, groups: seq<nat>)
    requires c.Valid() && |groups| > 0
    ensures Forward(c, ParseGroups(c, left, groups).1)
    decreases left
  {
    if left > 0 {
      var last := |groups| - 1;
      ParseGroupsForward(c.Skip(1), left - 1, if c.Peek(1) != 0 then groups[last := groups[last] + 1]
                         else groups + [1]);
    }
  }

  lemma ParseIcsForward(t: Tables, c: Cursor)
    requires t.Valid() && c.Valid()
    ensures var r := ParseIcs(t, c);
            r.Good? ==> Forward(c, r.c)
  {
    hide ParseGroups, GoodEdges, SpectralOk;
    ParseGroupsForward(c.Skip(1).Skip(2).Skip(1).Skip(4), 7, [1]);
  }

  lemma {:induction false} ParseRunForward(c: Cursor, runBits: nat, end: nat, maxSfb: nat)
    requires runBits > 0 && c.Valid()
    ensures var r := ParseRun(c, runBits, end, maxSfb);
            r.Good? ==> Forward(c, r.c)
    decreases maxSfb + 1 - end
  {
    var inc, c' := c.Peek(runBits), c.Skip(runBits);
    if !c'.over && end + inc <= maxSfb && inc == Pow2(runBits) - 1 {
      ParseRunForward(c', runBits, end + inc, maxSfb);
    }
  }

  lemma {:induction false} ParseSectionsForward(c: Cursor, runBits: nat, maxSfb: nat, k: nat, bt: seq<nat>)
    requires runBits > 0 && c.Valid()
    ensures var r := ParseSections(c, runBits, maxSfb, k, bt);
            r.Good? ==> Forward(c, r.c)
    decreases |c.s| - c.pos
  {
    if k < maxSfb && c.Peek(4) != RESERVED_BT {
      var r := ParseRun(c.Skip(4), runBits, k, maxSfb);
      if r.Good? {
        ParseRunForward(c.Skip(4), runBits, k, maxSfb);
        ParseRunAdvances(c.Skip(4), runBits, k, maxSfb);
        ParseSectionsForward(r.c, runBits, maxSfb, r.val, bt + Fill(c.Peek(4), r.val - k));
      }
    }
  }

  lemma {:induction false} ParseBandTypesForward(c: Cursor, runBits: nat, maxSfb: nat, groups: nat, bt: seq<nat>)
    requires runBits > 0 && c.Valid()
    ensures var r := ParseBandTypes(c, runBits, maxSfb, groups, bt);
            r.Good? ==> Forward(c, r.c)
    decreases groups
  {
    hide ParseSections;
    if groups > 0 {
      var r := ParseSections(c, runBits, maxSfb, 0, bt);
      if r.Good? {
        ParseSectionsForward(c, runBits, maxSfb, 0, bt);
        ParseBandTypesForward(r.c, runBits, maxSfb, groups - 1, r.val);
      }
    }
  }

  lemma LookupForward(b: Book, c: Cursor)
    requires b.Valid() && c.Valid()
    ensures var f := Lookup(b, c);
            f.Found? ==> Forward(c, f.c)
  {
  }

  lemma ParseSfForward(t: Tables, c: Cursor, cb: nat, ch: Chains)
    requires t.Valid() && c.Valid()
    ensures var r := ParseSf(t, c, cb, ch);
            r.Good? ==> Forward(c, r.c)
  {
    hide Lookup, GoodEdges, SpectralOk, Book.PrefixFree;
    LookupForward(t.sf, c);
  }

  lemma {:induction false} ParseSfsForward(t: Tables, c: Cursor, bt: seq<nat>, i: nat, ch: Chains, sfo: seq<int>)
    requires t.Valid() && c.Valid()
    ensures var r := ParseSfs(t, c, bt, i, ch, sfo);
            r.Good? ==> Forward(c, r.c)
    decreases |bt| - i
  {
    hide Tables.Valid, ParseSf;
    if i < |bt| {
      var r := ParseSf(t, c, bt[i], ch);
      if r.Good? {
        ParseSfForward(t, c, bt[i], ch);
        ParseSfsForward(t, r.c, bt, i + 1, r.val.ch, sfo + [r.val.sfo]);
      }
    }
  }

  lemma {:induction false} ParsePulseTailForward(c: Cursor, left: nat, limit: nat, pulses: seq<Pulse>)
    requires |pulses| > 0 && c.Valid()
    ensures var r := ParsePulseTail(c, left, limit, pulses);
            r.Good? ==> Forward(c, r.c)
    decreases left
  {
    if left > 0 {
      var p := Pulse(c.Peek(5) + pulses[|pulses| - 1].pos, c.Skip(5).Peek(4));
      if p.pos < limit {
        ParsePulseTailForward(c.Skip(5).Skip(4), left - 1, limit, pulses + [p]);
      }
    }
  }

  lemma ParsePulsesForward(c: Cursor, edges: seq<nat>)
    requires |edges| > 0 && c.Valid()
    ensures var r := ParsePulses(c, edges);
            r.Good? ==> Forward(c, r.c)
  {
    hide ParsePulseTail;
    var c2 := c.Skip(2).Skip(6);
    var swb := c.Skip(2).Peek(6);
    if swb < |edges| - 1 {
      var pos := edges[swb] + c2.Peek(5);
      ParsePulseTailForward(c2.Skip(5).Skip(4), c.Peek(2), edges[|edges| - 1], [Pulse(pos, c2.Skip(5).Peek(4))]);
    }
  }

  lemma {:induction false} ParseTnsCoefsForward(c: Cursor, row: seq<int>, bits: nat, left: nat, coefs: seq<int>)
    requires |row| == Pow2(bits) && c.Valid()
    ensures Forward(c, ParseTnsCoefs(c, row, bits, left, coefs).1)
    decreases left
  {
    if left > 0 {
      ValBound(Window(c.s, c.pos, bits));
      ParseTnsCoefsForward(c.Skip(bits), row, bits, left - 1, coefs + [row[c.Peek(bits)]]);
    }
  }

  lemma ParseFilterForward(t: Tables, c: Cursor, is8: nat, res: nat)
    requires t.Valid() && is8 <= 1 && res <= 1 && c.Valid()
    ensures var r := ParseFilter(t, c, is8, res);
            r.Good? ==> Forward(c, r.c)
  {
    hide ParseTnsCoefs, GoodEdges, SpectralOk, Book.PrefixFree, Book.Valid, Pow2, Cursor.Peek;
    var c1 := c.Skip(6 - 2 * is8);
    var c2 := c1.Skip(5 - 2 * is8);
    var c3 := c2.Skip(1);
    BitBound(c3);
    TnsRowSize(t, c3.Peek(1), res);
    ParseTnsCoefsForward(c3.Skip(1), t.TnsRow(c3.Peek(1), res), res + 3 - c3.Peek(1), c1.Peek(5 - 2 * is8), []);
  }

  lemma {:induction false} ParseFiltersForward(t: Tables, c: Cursor, is8: nat, res: nat, left: nat, fs: seq<Filter>)
    requires t.Valid() && is8 <= 1 && res <= 1 && c.Valid()
    ensures var r := ParseFilters(t, c, is8, res, left, fs);
            r.Good? ==> Forward(c, r.c)
    decreases left
  {
    hide Tables.Valid, ParseFilter;
    if left > 0 {
      var r := ParseFilter(t, c, is8, res);
      if r.Good? {
        ParseFilterForward(t, c, is8, res);
        ParseFiltersForward(t, r.c, is8, res, left - 1, fs + [r.val]);
      }
    }
  }

  lemma {:induction false} ParseTnsForward(t: Tables, c: Cursor, is8: nat, left: nat, ws: seq<seq<Filter>>)
    requires t.Valid() && is8 <= 1 && c.Valid()
    ensures var r := ParseTns(t, c, is8, left, ws);
            r.Good? ==> Forward(c, r.c)
    decreases left
  {
    hide Tables.Valid, ParseFilters, Cursor.Peek;
    if left > 0 {
      var n, c1 := c.Peek(2 - is8), c.Skip(2 - is8);
      if n == 0 {
        ParseTnsForward(t, c1, is8, left - 1, ws + [[]]);
      } else {
        BitBound(c1);
        var r := ParseFilters(t, c1.Skip(1), is8, c1.Peek(1), n, []);
        if r.Good? {
          ParseFiltersForward(t, c1.Skip(1), is8, c1.Peek(1), n, []);
          ParseTnsForward(t, r.c, is8, left - 1, ws + [r.val]);
        }
      }
    }
  }

  lemma {:induction false} SkipAdjustsForward(c: Cursor, n: nat, width: nat)
    requires c.Valid()
    ensures Forward(c, SkipAdjusts(c, n, width))
    decreases n
  {
    if n > 0 {
      SkipAdjustsForward(c.Skip(width), n - 1, width);
    }
  }

  lemma {:induction false} SkipWindowsForward(c: Cursor, sq: nat, wd: nat)
    requires c.Valid()
    ensures Forward(c, SkipWindows(c, sq, wd))
    decreases GainMode(sq).0 - wd
  {
    var (windows, longFirst, aloc) := GainMode(sq);
    if wd < windows {
      var width := if wd == 0 && longFirst then 4 + 4 else 4 + aloc;
      SkipAdjustsForward(c.Skip(3), c.Peek(3), width);
      SkipWindowsForward(SkipAdjusts(c.Skip(3), c.Peek(3), width), sq, wd + 1);
    }
  }

  lemma {:induction false} SkipGainForward(c: Cursor, sq: nat, bands: nat)
    requires c.Valid()
    ensures Forward(c, SkipGainBands(c, sq, bands))
    decreases bands
  {
    hide SkipWindows;
    if bands > 0 {
      SkipWindowsForward(c, sq, 0);
      SkipGainForward(SkipWindows(c, sq, 0), sq, bands - 1);
    }
  }

  ghost function PulsePart(t: Tables, c: Cursor, ics: Ics): Parsed<seq<Pulse>>
    requires t.Valid()
  {
    if c.Peek(1) == 0 then Good([], c.Skip(1))
    else if ics.Short() then Bad(InvalidData)
    else ParsePulses(c.Skip(1), t.longEdges)
  }

  lemma ParseToolsForward(t: Tables, c: Cursor, ics: Ics)
    requires t.Valid() && c.Valid()
    ensures var r := ParseTools(t, c, ics);
            r.Good? ==> Forward(c, r.c)
  {
    hide SpectralOk, Book.PrefixFree, Book.Valid, ParsePulses, ParseTns, SkipGainBands, Cursor.Peek;
    ParsePulsesForward(c.Skip(1), t.longEdges);
    var p := PulsePart(t, c, ics);
    if p.Good? {
      var c1 := p.c.Skip(1);
      var is8, n := if ics.Short() then 1 else 0, if ics.Short() then 8 else 1;
      ParseTnsForward(t, c1, is8, n, []);
      var r := ParseTns(t, c1, is8, n, []);
      var c2 := if p.c.Peek(1) == 0 then c1 else if r.Good? then r.c else c1;
      SkipGainForward(c2.Skip(1).Skip(2), ics.seq0, c2.Skip(1).Peek(2));
    }
  }

  lemma ParseSideForward(t: Tables, c: Cursor, gain: int, ics: Ics)
    requires t.Valid() && GeoOf(t, ics).Valid() && c.Valid()
    ensures var r := ParseSide(t, c, gain, ics);
            r.Good? ==> Forward(c, r.c)
  {
    hide Tables.Valid, Geo.Valid, ParseBandTypes, ParseSfs, ParseTools;
    var runBits := if ics.Short() then 3 else 5;
    var b := ParseBandTypes(c, runBits, ics.maxSfb, |ics.groups|, []);
    ParseBandTypesForward(c, runBits, ics.maxSfb, |ics.groups|, []);
    if b.Good? {
      var s := ParseSfs(t, b.c, b.val, 0, StartChains(gain), []);
      ParseSfsForward(t, b.c, b.val, 0, StartChains(gain), []);
      if s.Good? {
        ParseToolsForward(t, s.c, ics);
      }
    }
  }

  lemma ParseEscapeForward(c: Cursor)
    requires c.Valid()
    ensures var r := ParseEscape(c);
            r.Good? ==> Forward(c, r.c)
  {
  }

  lemma ParseEscPairForward(sym: nat, c: Cursor)
    requires sym < 65536 && c.Valid()
    ensures var r := ParseEscPair(sym, c);
            r.Good? ==> Forward(c, r.c)
  {
    hide ParseEscape, Shl, Cursor.Peek, Signed32, NextSign, ShiftSign;
    if sym != 0 {
      var nnz := sym / 4096;
      var sign := Shl(c.Peek(nnz), 32 - nnz);
      ParseEscapeForward(c.Skip(nnz));
      var r0 := ParseHalf(sym / 256 % 2 == 1, sym % 16, sign, c.Skip(nnz));
      if r0.Good? {
        ParseEscapeForward(r0.c);
      }
    }
  }

  lemma ParseChunkForward(t: Tables, cb: nat, c: Cursor)
    requires t.Valid() && Tonal(cb) && c.Valid()
    ensures var r := ParseChunk(t, cb, c);
            r.Good? ==> Forward(c, r.c)
  {
    assert SpectralOk(cb - 1 + 1, t.spectral[cb - 1]);
    hide Tables.Valid, ParseEscPair, SQuad, SPair, Signed32, NextSign, Lookup, Cursor.Peek, Book.PrefixFree;
    LookupForward(t.spectral[cb - 1], c);
    var f := Lookup(t.spectral[cb - 1], c);
    if f.Found? && cb > 10 {
      SymbolBound(t.spectral[cb - 1], c);
      ParseEscPairForward(f.sym, f.c);
    }
  }

  lemma SymbolBound(b: Book, c: Cursor)
    requires b.Valid() && forall j :: 0 <= j < |b.syms| ==> b.syms[j] < 65536
    ensures var f := Lookup(b, c);
            f.Found? ==> f.sym < 65536
  {
  }

  lemma {:induction false} ParseBandForward(t: Tables, cb: nat, c: Cursor, left: nat, x: seq<int>)
    requires t.Valid() && Tonal(cb) && c.Valid()
    ensures var r := ParseBand(t, cb, c, left, x);
            r.Good? ==> Forward(c, r.c)
    decreases left
  {
    hide Tables.Valid, ParseChunk;
    if left > 0 {
      var r := ParseChunk(t, cb, c);
      if r.Good? {
        ParseChunkForward(t, cb, c);
        ParseBandForward(t, cb, r.c, left - 1, x + r.val);
      }
    }
  }

  lemma {:induction false} ParseSpectrumForward(t: Tables, c: Cursor, bt: seq<nat>, js: seq<Job>, q: seq<int>)
    requires t.Valid() && |q| == 1024 && GoodJobs(js, |bt|) && c.Valid()
    ensures var r := ParseSpectrum(t, c, bt, js, q);
            r.Good? ==> Forward(c, r.c)
    decreases |js|
  {
    hide Tables.Valid, ParseBand;
    if |js| > 0 {
      assert GoodJob(js[0], |bt|);
      var cb := bt[js[0].idx];
      if !Tonal(cb) {
        ParseSpectrumForward(t, c, bt, js[1..], q);
      } else {
        var r := ParseBand(t, cb, c, Chunks(cb, js[0].len), []);
        if r.Good? {
          ParseBandForward(t, cb, c, Chunks(cb, js[0].len), []);
          ParseSpectrumForward(t, r.c, bt, js[1..], Put(q, js[0].base, r.val));
        }
      }
    }
  }

  lemma ParseChannelForward(t: Tables, c: Cursor, common: Option<Ics>)
    requires t.Valid() && c.Valid() && (common.Some? ==> GeoOf(t, common.value).Valid())
    ensures var r := ParseChannel(t, c, common);
            r.Good? ==> Forward(c, r.c)
  {
    hide Tables.Valid, Geo.Valid, ParseSide, ParseIcs, ParseSpectrum, Geo.BandsFrom, Jobs, PulsesFit, ApplyPulses,
         SfsOf;
    var gain := c.Peek(8);
    ParseIcsForward(t, c.Skip(8));
    ParseIcsGeo(t, c.Skip(8));
    var i := if common.Some? then Good(common.value, c.Skip(8)) else ParseIcs(t, c.Skip(8));
    if i.Good? {
      ParseSideForward(t, i.c, gain, i.val);
      ParseSideFits(t, i.c, gain, i.val);
      var s := ParseSide(t, i.c, gain, i.val);
      if s.Good? {
        JobsGood(GeoOf(t, i.val));
        ParseSpectrumForward(t, s.c, s.val.bt, Jobs(GeoOf(t, i.val), 0, 0, 0), seq(1024, _ => 0));
      }
    }
  }
}
