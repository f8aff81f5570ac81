/** The parser reads back the side information the printer writes: ics_info,
    section data, the three scalefactor chains and the TNS filters. */
module RoundTripSide {
  import opened BitStrings
  import opened BitReader
  import opened Vlc
  import opened AacSyntax
  import opened AacParse
  import opened AacPrint

  lemma ReadBit(c: Cursor, b: bool)
    requires c.Ahead([b])
    ensures c.Peek(1) == (if b then 1 else 0) && c.Skip(1) == c.Adv(1)
  {
    var v := if b then 1 else 0;
    assert Pow2(1) == 2 && ToBits(1, v) == [b];
    ReadField(c, 1, v);
  }

  // ----- ics_info

  lemma {:induction false} Groups(c: Cursor, done: seq<nat>, k: nat, n: nat, rest: seq<nat>)
    requires k >= 1 && (forall i :: 0 <= i < |rest| ==> rest[i] >= 1)
    requires c.Ahead(PrintGroups(n, rest))
    ensures |PrintGroups(n, rest)| == n + Sum(rest)
    ensures ParseGroups(c, n + Sum(rest), done + [k]) == (done + [k + n] + rest, c.Adv(n + Sum(rest)))
    decreases |rest|, n
  {
    hide Cursor.Ahead, Cursor.Peek, ToBits;
    if n > 0 {
      AheadSplit(c, [true], PrintGroups(n - 1, rest));
      ReadBit(c, true);
      Groups(c.Adv(1), done, k + 1, n - 1, rest);
      assert (done + [k])[|done| := k + 1] == done + [k + 1];
    } else if |rest| > 0 {
      AheadSplit(c, [false], PrintGroups(rest[0] - 1, rest[1..]));
      ReadBit(c, false);
      Groups(c.Adv(1), done + [k], 1, rest[0] - 1, rest[1..]);
      assert done + [k] + [rest[0]] + rest[1..] == done + [k + n] + rest;
    } else {
      assert done + [k + n] + rest == done + [k];
    }
  }

  lemma SmallPow2()
    ensures Pow2(1) == 2 && Pow2(2) == 4 && Pow2(3) == 8 && Pow2(4) == 16 && Pow2(5) == 32 && Pow2(6) == 64
  {
    assert Pow2(3) == 8;
    assert Pow2(5) == 2 * Pow2(4);
  }

  lemma HasGroup(g: seq<nat>)
    ensures Sum(g) > 0 ==> |g| > 0
    ensures |g| > 0 ==> Sum(g) == g[0] + Sum(g[1..])
  {
  }

  lemma ShortIcs(t: Tables, ics: Ics, c: Cursor)
    requires WellFormedIcs(t, ics) && ics.Short() && c.Ahead(PrintIcs(ics))
    ensures ParseIcs(t, c) == Good(ics, c.Adv(|PrintIcs(ics)|))
  {
    hide Tables.Valid, Cursor.Ahead, Cursor.Peek, ToBits, Sum, PrintGroups, ParseGroups;
    SmallPow2();
    HasGroup(ics.groups);
    var groups := PrintGroups(ics.groups[0] - 1, ics.groups[1..]);
    var a, b, d := [false], ToBits(2, ics.seq0), ToBits(1, ics.kb);
    var e := ToBits(4, ics.maxSfb);
    assert PrintIcs(ics) == a + b + d + (e + groups);
    AheadSplit(c, a + b + d, e + groups);
    AheadSplit(c, a + b, d);
    AheadSplit(c, a, b);
    ReadBit(c, false);
    ReadField(c.Adv(1), 2, ics.seq0);
    ReadField(c.Adv(3), 1, ics.kb);
    AheadSplit(c.Adv(4), e, groups);
    ReadField(c.Adv(4), 4, ics.maxSfb);
    Groups(c.Adv(8), [], 1, ics.groups[0] - 1, ics.groups[1..]);
    assert [] + [1] == [1] && [] + [1 + (ics.groups[0] - 1)] + ics.groups[1..] == ics.groups;
  }

  lemma LongIcs(t: Tables, ics: Ics, c: Cursor)
    requires WellFormedIcs(t, ics) && !ics.Short() && c.Ahead(PrintIcs(ics))
    ensures ParseIcs(t, c) == Good(ics, c.Adv(|PrintIcs(ics)|))
  {
    hide Tables.Valid, Cursor.Ahead, Cursor.Peek, ToBits, Sum;
    SmallPow2();
    LongGroup(GeoOf(t, ics));
    var a, b, d := [false], ToBits(2, ics.seq0), ToBits(1, ics.kb);
    var e := ToBits(6, ics.maxSfb);
    assert PrintIcs(ics) == a + b + d + (e + [false]);
    AheadSplit(c, a + b + d, e + [false]);
    AheadSplit(c, a + b, d);
    AheadSplit(c, a, b);
    ReadBit(c, false);
    ReadField(c.Adv(1), 2, ics.seq0);
    ReadField(c.Adv(3), 1, ics.kb);
    AheadSplit(c.Adv(4), e, [false]);
    ReadField(c.Adv(4), 6, ics.maxSfb);
    ReadBit(c.Adv(10), false);
  }

  /** ics_info comes back: sequence, shape, bands and grouping. */
  lemma IcsRoundTrip(t: Tables, ics: Ics, c: Cursor)
    requires WellFormedIcs(t, ics) && c.Ahead(PrintIcs(ics))
    ensures ParseIcs(t, c) == Good(ics, c.Adv(|PrintIcs(ics)|))
  {
    if ics.Short() {
      ShortIcs(t, ics, c);
    } else {
      LongIcs(t, ics, c);
    }
  }

  // ----- section_data

  lemma {:induction false} Run(c: Cursor, runBits: nat, end: nat, run: nat, maxSfb: nat)
    requires runBits > 1 && end + run <= maxSfb && !c.over && c.Ahead(PrintRun(run, runBits))
    ensures ParseRun(c, runBits, end, maxSfb) == Good(end + run, c.Adv(|PrintRun(run, runBits)|))
    decreases run
  {
    hide Cursor.Ahead, Cursor.Peek, ToBits;
    var esc := Pow2(runBits) - 1;
    assert Pow2(runBits) == 2 * Pow2(runBits - 1) && Pow2(runBits - 1) == 2 * Pow2(runBits - 2);
    if run >= esc {
      AheadSplit(c, ToBits(runBits, esc), PrintRun(run - esc, runBits));
      ReadField(c, runBits, esc);
      Run(c.Adv(runBits), runBits, end + esc, run - esc, maxSfb);
    } else {
      ReadField(c, runBits, run);
    }
  }

  lemma {:induction false} Sections(c: Cursor, runBits: nat, s: seq<Section>, k: nat, maxSfb: nat, bt: seq<nat>)
    requires runBits > 1 && c.Valid() && !c.over && c.Ahead(PrintSections(s, runBits))
    requires (forall i :: 0 <= i < |s| ==> GoodSection(s[i])) && k + |Expand(s)| == maxSfb
    ensures ParseSections(c, runBits, maxSfb, k, bt) == Good(bt + Expand(s), c.Adv(|PrintSections(s, runBits)|))
    decreases |s|
  {
    hide Cursor.Ahead, Cursor.Peek, ToBits, PrintRun, ParseRun;
    if |s| == 0 {
      assert bt + Expand(s) == bt;
    } else {
      var a, b, d := ToBits(4, s[0].cb), PrintRun(s[0].run, runBits), PrintSections(s[1..], runBits);
      AheadSplit(c, a + b, d);
      AheadSplit(c, a, b);
      SmallPow2();
      assert GoodSection(s[0]);
      ReadField(c, 4, s[0].cb);
      Run(c.Adv(4), runBits, k, s[0].run, maxSfb);
      Sections(c.Adv(|a + b|), runBits, s[1..], k + s[0].run, maxSfb, bt + Fill(s[0].cb, s[0].run));
      assert bt + Fill(s[0].cb, s[0].run) + Expand(s[1..]) == bt + Expand(s);
    }
  }

  lemma {:induction false} Pow2Pos(runBits: nat)
    requires runBits > 1
    ensures Pow2(runBits) >= 4
  {
    assert Pow2(runBits) == 2 * Pow2(runBits - 1) && Pow2(runBits - 1) == 2 * Pow2(runBits - 2);
  }

  /** Section data comes back as the band types its sections assign. */
  lemma {:induction false} BandTypesRoundTrip(c: Cursor, runBits: nat, groups: seq<seq<Section>>, maxSfb: nat,
                                              bt: seq<nat>)
    requires runBits > 1 && c.Valid() && !c.over && c.Ahead(PrintBandTypes(groups, runBits))
    requires SectionsFit(groups, |groups|, maxSfb)
    ensures ParseBandTypes(c, runBits, maxSfb, |groups|, bt)
            == Good(bt + ExpandAll(groups), c.Adv(|PrintBandTypes(groups, runBits)|))
    decreases |groups|
  {
    hide Cursor.Ahead, Cursor.Peek, ToBits, PrintSections, ParseSections, Expand;
    if |groups| == 0 {
      assert bt + ExpandAll(groups) == bt;
    } else {
      var a, b := PrintSections(groups[0], runBits), PrintBandTypes(groups[1..], runBits);
      AheadSplit(c, a, b);
      Sections(c, runBits, groups[0], 0, maxSfb, bt);
      BandTypesRoundTrip(c.Adv(|a|), runBits, groups[1..], maxSfb, bt + Expand(groups[0]));
      assert bt + Expand(groups[0]) + ExpandAll(groups[1..]) == bt + ExpandAll(groups);
    }
  }

  // ----- scale_factor_data

  /** The offset the decoder stores for a scalefactor. */
  function Sfo(cb: nat, sf: int): int {
    if cb == ZERO_BT then 0 else if cb == NOISE_BT then sf else sf - 100
  }

  function Sfos(bt: seq<nat>, sf: seq<int>, i: nat): seq<int>
    requires |bt| == |sf|
    decreases |bt| - i
  {
    if i >= |bt| then [] else [Sfo(bt[i], sf[i])] + Sfos(bt, sf, i + 1)
  }

  lemma NoisePreamble(c: Cursor, d: int)
    requires -256 <= d <= 255 && c.Ahead(ToBits(NOISE_PRE_BITS, Uint32(d + NOISE_PRE)))
    ensures c.Peek(NOISE_PRE_BITS) - NOISE_PRE == d && c.Skip(NOISE_PRE_BITS) == c.Adv(NOISE_PRE_BITS)
  {
    SmallPow2();
    assert Pow2(7) == 128 && Pow2(8) == 256 && Pow2(9) == 512;
    ReadField(c, NOISE_PRE_BITS, Uint32(d + NOISE_PRE));
  }

  /** A delta below -256 wraps around in its nine bits. */
  lemma NoiseUnderrun(c: Cursor, d: int)
    requires -512 <= d < -256 && c.Ahead(ToBits(NOISE_PRE_BITS, Uint32(d + NOISE_PRE)))
    ensures c.Peek(NOISE_PRE_BITS) - NOISE_PRE == d + 512
  {
    SmallPow2();
    assert Pow2(7) == 128 && Pow2(8) == 256 && Pow2(9) == 512;
    var v := Uint32(d + NOISE_PRE);
    assert v == 0x1_0000_0000 + d + NOISE_PRE;
    ShrDivides(v, 9);
    ToBitsLow(9, 9, v);
    ReadField(c, 9, v % 512);
  }

  /** The first noise band's scalefactor reads back exactly when it is no more
      than 346 below the gain. */
  lemma PreambleReadsBack(t: Tables, c: Cursor, sf: int, gain: int)
    requires t.Valid() && -100 <= sf <= 155 && 0 <= gain <= 255 && c.Ahead(PrintSf(t, NOISE_BT, sf, StartChains(gain)))
    ensures var ch := StartChains(gain);
            var r := ParseSf(t, c, NOISE_BT, ch);
            && (r == Good(Step(sf, NextChains(NOISE_BT, sf, ch)), c.Adv(NOISE_PRE_BITS)) <==> sf >= gain - 346)
            && (sf < gain - 346 ==> r.Good? && r.val == Step(155, Chains(gain, sf + 512, 0, false)))
  {
    hide Cursor.Ahead, Cursor.Peek, ToBits, Lookup, Book.PrefixFree, SpectralOk, GoodEdges;
    if sf >= gain - 346 {
      NoisePreamble(c, sf - (gain - NOISE_OFFSET));
    } else {
      NoiseUnderrun(c, sf - (gain - NOISE_OFFSET));
    }
  }

  lemma OneSf(t: Tables, c: Cursor, cb: nat, sf: int, ch: Chains)
    requires t.Valid() && LegalSf(cb, sf, ch) && c.Ahead(PrintSf(t, cb, sf, ch))
    ensures ParseSf(t, c, cb, ch) == Good(Step(Sfo(cb, sf), NextChains(cb, sf, ch)), c.Adv(|PrintSf(t, cb, sf, ch)|))
  {
    hide Cursor.Ahead, Cursor.Peek, ToBits, Lookup, Book.PrefixFree, SpectralOk, GoodEdges;
    if cb == ZERO_BT {
    } else if Preamble(cb, ch) {
      NoisePreamble(c, Delta(cb, sf, ch));
    } else {
      LookupWord(t.sf, c, Delta(cb, sf, ch) + SCALE_DIFF_ZERO);
    }
  }

  /** All three scalefactor chains come back. */
  lemma {:induction false} SfsRoundTrip(t: Tables, c: Cursor, bt: seq<nat>, sf: seq<int>, i: nat, ch: Chains,
                                        sfo: seq<int>)
    requires t.Valid() && |bt| == |sf| && LegalSfs(bt, sf, i, ch) && c.Ahead(PrintSfs(t, bt, sf, i, ch))
    ensures ParseSfs(t, c, bt, i, ch, sfo) == Good(sfo + Sfos(bt, sf, i), c.Adv(|PrintSfs(t, bt, sf, i, ch)|))
    decreases |bt| - i
  {
    hide Cursor.Ahead, Cursor.Peek, ToBits, Tables.Valid, LegalSf, PrintSf, ParseSf, Sfo;
    if i >= |bt| {
      assert sfo + [] == sfo;
    } else {
      var a := PrintSf(t, bt[i], sf[i], ch);
      var ch' := NextChains(bt[i], sf[i], ch);
      AheadSplit(c, a, PrintSfs(t, bt, sf, i + 1, ch'));
      OneSf(t, c, bt[i], sf[i], ch);
      SfsRoundTrip(t, c.Adv(|a|), bt, sf, i + 1, ch', sfo + [Sfo(bt[i], sf[i])]);
      assert sfo + [Sfo(bt[i], sf[i])] + Sfos(bt, sf, i + 1) == sfo + Sfos(bt, sf, i);
    }
  }

  // ----- tns_data

  /** The coefficients the encoder's indices stand for. */
  function Values4(row: seq<int>, idx: seq<nat>): seq<int>
    requires forall i :: 0 <= i < |idx| ==> idx[i] < |row|
  {
    if |idx| == 0 then [] else [row[idx[0]]] + Values4(row, idx[1..])
  }

  lemma {:induction false} Coefs(c: Cursor, row: seq<int>, bits: nat, idx: seq<nat>, acc: seq<int>)
    requires |row| == Pow2(bits) && (forall i :: 0 <= i < |idx| ==> idx[i] < |row|)
    requires c.Ahead(PrintCoefs(idx, bits))
    ensures ParseTnsCoefs(c, row, bits, |idx|, acc) == (acc + Values4(row, idx), c.Adv(|PrintCoefs(idx, bits)|))
    decreases |idx|
  {
    hide Cursor.Ahead, Cursor.Peek, ToBits;
    if |idx| == 0 {
      assert acc + [] == acc;
    } else {
      AheadSplit(c, ToBits(bits, idx[0]), PrintCoefs(idx[1..], bits));
      ReadField(c, bits, idx[0]);
      Coefs(c.Adv(bits), row, bits, idx[1..], acc + [row[idx[0]]]);
      assert acc + [row[idx[0]]] + Values4(row, idx[1..]) == acc + Values4(row, idx);
    }
  }

  /** Compressed indices select the same values from the compressed row. */
  lemma {:induction false} CompressedValues(full: seq<int>, idx: seq<nat>)
    requires |full| == 16 && Compressible(idx) && forall i :: 0 <= i < |idx| ==> idx[i] < 16
    ensures forall i :: 0 <= i < |idx| ==> Compress(idx)[i] < 8
    ensures Values4(full[..4] + full[12..], Compress(idx)) == Values4(full, idx)
    decreases |idx|
  {
    if |idx| > 0 {
      CompressedValues(full, idx[1..]);
      assert Compress(idx)[1..] == Compress(idx[1..]);
    }
  }

  function ExpectFilter(t: Tables, f: TnsFilter, is8: nat): Filter
    requires t.Valid() && is8 <= 1 && LegalFilter(f, is8)
  {
    if f.order == 0 then Filter(f.length, 0, 0, []) else Filter(f.length, f.order, f.direction, Values4(t.tns4, f.idx))
  }

  lemma FilterHead(c: Cursor, f: TnsFilter, is8: nat, rest: Bits)
    requires is8 <= 1 && LegalFilter(f, is8)
    requires c.Ahead(ToBits(6 - 2 * is8, f.length) + ToBits(5 - 2 * is8, f.order) + rest)
    ensures c.Peek(6 - 2 * is8) == f.length && c.Skip(6 - 2 * is8) == c.Adv(6 - 2 * is8)
    ensures c.Adv(6 - 2 * is8).Peek(5 - 2 * is8) == f.order
    ensures c.Adv(6 - 2 * is8).Skip(5 - 2 * is8) == c.Adv(11 - 4 * is8) && c.Adv(11 - 4 * is8).Ahead(rest)
  {
    SmallPow2();
    var a, b := ToBits(6 - 2 * is8, f.length), ToBits(5 - 2 * is8, f.order);
    AheadSplit(c, a + b, rest);
    AheadSplit(c, a, b);
    ReadField(c, 6 - 2 * is8, f.length);
    ReadField(c.Adv(|a|), 5 - 2 * is8, f.order);
  }

  lemma FilterTail(c: Cursor, dir: nat, compress: bool, rest: Bits)
    requires dir <= 1 && c.Ahead(ToBits(1, dir) + [compress] + rest)
    ensures c.Peek(1) == dir && c.Skip(1) == c.Adv(1)
    ensures c.Adv(1).Peek(1) == (if compress then 1 else 0) && c.Adv(1).Skip(1) == c.Adv(2) && c.Adv(2).Ahead(rest)
  {
    SmallPow2();
    AheadSplit(c, ToBits(1, dir) + [compress], rest);
    AheadSplit(c, ToBits(1, dir), [compress]);
    ReadField(c, 1, dir);
    ReadBit(c.Adv(1), compress);
  }

  lemma OneFilter(t: Tables, c: Cursor, f: TnsFilter, is8: nat)
    requires t.Valid() && is8 <= 1 && LegalFilter(f, is8) && c.Ahead(PrintFilter(f, is8))
    ensures ParseFilter(t, c, is8, 1) == Good(ExpectFilter(t, f, is8), c.Adv(|PrintFilter(f, is8)|))
  {
    hide Cursor.Ahead, Cursor.Peek, ToBits, Values4, ParseTnsCoefs, PrintCoefs, Compressible, Compress, SpectralOk,
         GoodEdges, Book.PrefixFree, Book.Valid;
    var head := ToBits(6 - 2 * is8, f.length) + ToBits(5 - 2 * is8, f.order);
    var c2 := c.Adv(11 - 4 * is8);
    if f.order == 0 {
      assert PrintFilter(f, is8) == head + [];
      FilterHead(c, f, is8, []);
    } else if Compressible(f.idx) {
      var tail := PrintCoefs(Compress(f.idx), 3);
      FilterHead(c, f, is8, ToBits(1, f.direction) + [true] + tail);
      FilterTail(c2, f.direction, true, tail);
      TnsRowSize(t, 1, 1);
      CompressedValues(t.tns4, f.idx);
      Coefs(c2.Adv(2), t.TnsRow(1, 1), 3, Compress(f.idx), []);
      assert [] + Values4(t.tns4, f.idx) == Values4(t.tns4, f.idx);
    } else {
      var tail := PrintCoefs(f.idx, 4);
      FilterHead(c, f, is8, ToBits(1, f.direction) + [false] + tail);
      FilterTail(c2, f.direction, false, tail);
      TnsRowSize(t, 0, 1);
      Coefs(c2.Adv(2), t.TnsRow(0, 1), 4, f.idx, []);
      assert [] + Values4(t.tns4, f.idx) == Values4(t.tns4, f.idx);
    }
  }

  ghost function ExpectFilters(t: Tables, fs: seq<TnsFilter>, is8: nat): seq<Filter>
    requires t.Valid() && is8 <= 1 && forall f :: 0 <= f < |fs| ==> LegalFilter(fs[f], is8)
  {
    if |fs| == 0 then [] else [ExpectFilter(t, fs[0], is8)] + ExpectFilters(t, fs[1..], is8)
  }

  ghost function ExpectTns(t: Tables, ws: seq<seq<TnsFilter>>, is8: nat): seq<seq<Filter>>
    requires t.Valid() && is8 <= 1
    requires forall w :: 0 <= w < |ws| ==> forall f :: 0 <= f < |ws[w]| ==> LegalFilter(ws[w][f], is8)
  {
    if |ws| == 0 then [] else [ExpectFilters(t, ws[0], is8)] + ExpectTns(t, ws[1..], is8)
  }

  lemma {:induction false} Filters(t: Tables, c: Cursor, fs: seq<TnsFilter>, is8: nat, acc: seq<Filter>)
    requires t.Valid() && is8 <= 1 && (forall f :: 0 <= f < |fs| ==> LegalFilter(fs[f], is8))
    requires c.Ahead(PrintFilters(fs, is8))
    ensures ParseFilters(t, c, is8, 1, |fs|, acc)
            == Good(acc + ExpectFilters(t, fs, is8), c.Adv(|PrintFilters(fs, is8)|))
    decreases |fs|
  {
    hide Tables.Valid, PrintFilter, ParseFilter, ExpectFilter, Cursor.Ahead, Cursor.Peek, ToBits;
    if |fs| == 0 {
      assert acc + [] == acc;
    } else {
      AheadSplit(c, PrintFilter(fs[0], is8), PrintFilters(fs[1..], is8));
      OneFilter(t, c, fs[0], is8);
      var x := ExpectFilter(t, fs[0], is8);
      Filters(t, c.Adv(|PrintFilter(fs[0], is8)|), fs[1..], is8, acc + [x]);
      assert acc + [x] + ExpectFilters(t, fs[1..], is8) == acc + ExpectFilters(t, fs, is8);
    }
  }

  lemma WindowHead(t: Tables, c: Cursor, fs: seq<TnsFilter>, is8: nat)
    requires t.Valid() && is8 <= 1 && |fs| > 0 && |fs| < (if is8 == 1 then 2 else 4)
    requires (forall f :: 0 <= f < |fs| ==> LegalFilter(fs[f], is8))
    requires c.Ahead(ToBits(2 - is8, |fs|) + ([true] + PrintFilters(fs, is8)))
    ensures c.Peek(2 - is8) == |fs| && c.Skip(2 - is8).Peek(1) == 1
    ensures ParseFilters(t, c.Skip(2 - is8).Skip(1), is8, 1, |fs|, [])
            == Good(ExpectFilters(t, fs, is8), c.Adv(3 - is8 + |PrintFilters(fs, is8)|))
  {
    hide Tables.Valid, LegalFilter, Cursor.Ahead, Cursor.Peek, ToBits, PrintFilters, ParseFilters, ExpectFilters;
    SmallPow2();
    AheadSplit(c, ToBits(2 - is8, |fs|), [true] + PrintFilters(fs, is8));
    ReadField(c, 2 - is8, |fs|);
    AheadSplit(c.Adv(2 - is8), [true], PrintFilters(fs, is8));
    ReadBit(c.Adv(2 - is8), true);
    Filters(t, c.Adv(3 - is8), fs, is8, []);
    assert [] + ExpectFilters(t, fs, is8) == ExpectFilters(t, fs, is8);
  }

  /** TNS filters come back, also through compressed indices. */
  lemma {:induction false} TnsRoundTrip(t: Tables, c: Cursor, ws: seq<seq<TnsFilter>>, is8: nat, acc: seq<seq<Filter>>)
    requires t.Valid() && is8 <= 1 && c.Ahead(PrintTns(ws, is8))
    requires forall w :: 0 <= w < |ws| ==>
               |ws[w]| < (if is8 == 1 then 2 else 4) && forall f :: 0 <= f < |ws[w]| ==> LegalFilter(ws[w][f], is8)
    ensures ParseTns(t, c, is8, |ws|, acc) == Good(acc + ExpectTns(t, ws, is8), c.Adv(|PrintTns(ws, is8)|))
    decreases |ws|
  {
    hide Tables.Valid, LegalFilter, PrintFilters, ExpectFilters, ParseFilters, Cursor.Ahead, Cursor.Peek, ToBits;
    if |ws| == 0 {
      assert acc + [] == acc;
    } else {
      var fs := ws[0];
      var a := ToBits(2 - is8, |fs|) + (if |fs| == 0 then [] else [true] + PrintFilters(fs, is8));
      assert PrintTns(ws, is8) == a + PrintTns(ws[1..], is8);
      AheadSplit(c, a, PrintTns(ws[1..], is8));
      var x := ExpectFilters(t, fs, is8);
      if |fs| == 0 {
        NoFilters(t, c, fs, is8);
      } else {
        WindowHead(t, c, fs, is8);
      }
      TnsRoundTrip(t, c.Adv(|a|), ws[1..], is8, acc + [x]);
      assert acc + [x] + ExpectTns(t, ws[1..], is8) == acc + ExpectTns(t, ws, is8);
    }
  }

  lemma NoFilters(t: Tables, c: Cursor, fs: seq<TnsFilter>, is8: nat)
    requires t.Valid() && is8 <= 1 && fs == [] && c.Ahead(ToBits(2 - is8, |fs|) + [])
    ensures c.Peek(2 - is8) == 0 && c.Skip(2 - is8) == c.Adv(2 - is8) && ExpectFilters(t, fs, is8) == []
  {
    SmallPow2();
    AheadSplit(c, ToBits(2 - is8, |fs|), []);
    ReadField(c, 2 - is8, 0);
  }
}
