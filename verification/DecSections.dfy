/** The decoder's parsers of section data and scalefactors, filling the channel's
    arrays in place. */
module DecSections {
  import opened BitStrings
  import opened BitReader
  import opened Vlc
  import opened AacSyntax
  import opened AacParse
  import opened DecChannel

  /** The first band of group g. */
  function At(g: nat, maxSfb: nat): nat {
    g * maxSfb
  }

  lemma AtStep(g: nat, maxSfb: nat)
    ensures At(0, maxSfb) == 0 && At(g + 1, maxSfb) == At(g, maxSfb) + maxSfb
  {
  }

  /** All bands of a valid geometry fit the arrays. */
  lemma BandsFit(geo: Geo, g: nat)
    requires geo.Valid() && g <= |geo.groups|
    ensures |geo.groups| <= 8 && At(g, geo.maxSfb) + geo.BandsFrom(g) == geo.Bands() <= 120
    ensures g < |geo.groups| ==> At(g, geo.maxSfb) + geo.maxSfb <= 120
  {
    hide At, GoodEdges;
    GroupsFew(geo);
    BandsAt(geo, 0);
    BandsAt(geo, g);
    var k := |geo.groups|;
    if geo.short {
      AtMost(k, geo.maxSfb);
    } else {
      LongGroup(geo);
      AtStep(0, geo.maxSfb);
    }
    if g < k {
      AtUp(g + 1, k, geo.maxSfb);
      AtStep(g, geo.maxSfb);
    }
  }

  lemma GroupsFew(geo: Geo)
    requires geo.Valid()
    ensures |geo.groups| <= 8
    ensures geo.maxSfb <= (if geo.short then 15 else 51)
  {
    SumAtLeast(geo.groups, geo.groups, 0);
  }

  lemma AtMost(k: nat, m: nat)
    requires k <= 8 && m <= 15
    ensures At(k, m) <= 120
  {
    AtUp(k, 8, m);
  }

  lemma {:induction false} AtUp(g: nat, k: nat, m: nat)
    requires g <= k
    ensures At(g, m) <= At(k, m)
    decreases k
  {
    if g < k {
      AtUp(g, k - 1, m);
      AtStep(k - 1, m);
    }
  }

  lemma {:induction false} BandsAt(geo: Geo, g: nat)
    requires g <= |geo.groups|
    ensures At(g, geo.maxSfb) + geo.BandsFrom(g) == At(|geo.groups|, geo.maxSfb)
    decreases |geo.groups| - g
  {
    hide At;
    if g < |geo.groups| {
      BandsAt(geo, g + 1);
      AtStep(g, geo.maxSfb);
    } else {
      assert geo.BandsFrom(g) == 0;
    }
    AtStep(0, geo.maxSfb);
  }

  lemma RunStep(c: Cursor, runBits: nat, end: nat, maxSfb: nat)
    requires runBits > 0
    ensures var (inc, c') := (c.Peek(runBits), c.Skip(runBits));
            ParseRun(c, runBits, end, maxSfb) ==
            if c'.over || end + inc > maxSfb then Bad(InvalidData)
            else if inc != Pow2(runBits) - 1 then Good(end + inc, c') else ParseRun(c', runBits, end + inc, maxSfb)
  {
  }

  /** The end of one section, from its escape-coded length. */
  method DecodeRun(r: Reader, runBits: nat, k: nat, maxSfb: nat) returns (end: nat, err: Option<Err>)
    requires r.Valid() && 0 < runBits <= 32 && k <= maxSfb
    modifies r`pos, r`overread
    ensures r.Valid()
    ensures var p := ParseRun(old(r.Cur()), runBits, k, maxSfb);
            err == Failure(p) && (p.Good? ==> end == p.val && r.Cur() == p.c)
  {
    hide ParseRun, Reader.Valid, Pow2, Cursor.Peek;
    end, err := k, None;
    while true
      invariant r.Valid() && end <= maxSfb
      invariant ParseRun(r.Cur(), runBits, end, maxSfb) == ParseRun(old(r.Cur()), runBits, k, maxSfb)
      decreases maxSfb - end
    {
      RunStep(r.Cur(), runBits, end, maxSfb);
      var inc := r.Read(runBits);
      end := end + inc;
      if r.overread {
        return end, Some(InvalidData);
      }
      if end > maxSfb {
        return end, Some(InvalidData);
      }
      if inc != Pow2(runBits) - 1 {
        return end, None;
      }
      MaskPositive(runBits);
    }
  }

  lemma MaskPositive(n: nat)
    requires n > 0
    ensures Pow2(n) - 1 >= 1
  {
    assert Pow2(n) == 2 * Pow2(n - 1);
  }

  /** Gives the bands from at on their type. */
  method FillTypes(sce: Sce, at: nat, n: nat, cb: nat)
    requires sce.Sized() && at + n <= 128
    modifies sce`bandType
    ensures sce.Sized() && sce.bandType[..at + n] == old(sce.bandType[..at]) + Fill(cb, n)
  {
    for k := 0 to n
      invariant sce.Sized() && sce.bandType[..at + k] == old(sce.bandType[..at]) + Fill(cb, k)
    {
      sce.bandType := sce.bandType[at + k := cb];
      assert sce.bandType[..at + k + 1] == sce.bandType[..at + k] + [cb];
    }
  }

  lemma SectionsStep(c: Cursor, runBits: nat, maxSfb: nat, k: nat, bt: seq<nat>)
    requires runBits > 0 && c.Valid()
    ensures k >= maxSfb ==> ParseSections(c, runBits, maxSfb, k, bt) == Good(bt, c)
    ensures k < maxSfb ==>
              var (cb, p) := (c.Peek(4), ParseRun(c.Skip(4), runBits, k, maxSfb));
              && (cb == RESERVED_BT ==> ParseSections(c, runBits, maxSfb, k, bt) == Bad(InvalidData))
              && (cb != RESERVED_BT && p.Bad? ==> ParseSections(c, runBits, maxSfb, k, bt) == Bad(p.err))
              && (cb != RESERVED_BT && p.Good? ==>
                    && p.c.Valid() && k <= p.val <= maxSfb && |p.c.s| - p.c.pos < |c.s| - c.pos
                    && ParseSections(c, runBits, maxSfb, k, bt)
                        == ParseSections(p.c, runBits, maxSfb, p.val, bt + Fill(cb, p.val - k)))
  {
    hide ParseRun, Pow2;
    if k < maxSfb {
      ParseRunAdvances(c.Skip(4), runBits, k, maxSfb);
    }
  }

  /** The sections of one group whose bands start at base. */
  method DecodeSections(r: Reader, sce: Sce, runBits: nat, base: nat) returns (err: Option<Err>)
    requires r.Valid() && sce.Sized() && 0 < runBits <= 32 && base + sce.ics.maxSfb <= 128
    modifies r`pos, r`overread, sce`bandType
    ensures r.Valid() && sce.Sized()
    ensures var p := ParseSections(old(r.Cur()), runBits, sce.ics.maxSfb, 0, old(sce.bandType[..base]));
            && err == Failure(p)
            && (p.Good? ==> r.Cur() == p.c && sce.bandType[..base + sce.ics.maxSfb] == p.val)
  {
    hide ParseSections, ParseRun, Reader.Valid, Cursor.Peek, AacParse.Fill;
    var maxSfb := sce.ics.maxSfb;
    var k: nat := 0;
    ValidCursor(r);
    ghost var want := ParseSections(r.Cur(), runBits, maxSfb, 0, sce.bandType[..base]);
    while k < maxSfb
      invariant r.Valid() && sce.Sized() && k <= maxSfb && r.Cur().Valid()
      invariant ParseSections(r.Cur(), runBits, maxSfb, k, sce.bandType[..base + k]) == want
      decreases maxSfb - k, |r.Cur().s| - r.Cur().pos
    {
      SectionsStep(r.Cur(), runBits, maxSfb, k, sce.bandType[..base + k]);
      var cb := r.Read(4);
      if cb == RESERVED_BT {
        return Some(InvalidData);
      }
      var end;
      end, err := DecodeRun(r, runBits, k, maxSfb);
      if err.Some? {
        return;
      }
      FillTypes(sce, base + k, end - k, cb);
      k := end;
    }
    SectionsStep(r.Cur(), runBits, maxSfb, k, sce.bandType[..base + k]);
    err := None;
  }

  lemma ValidCursor(r: Reader)
    requires r.Valid()
    ensures r.Cur().Valid()
  {
  }

  lemma BandTypesStep(c: Cursor, runBits: nat, maxSfb: nat, groups: nat, bt: seq<nat>)
    requires runBits > 0 && c.Valid()
    ensures groups == 0 ==> ParseBandTypes(c, runBits, maxSfb, groups, bt) == Good(bt, c)
    ensures groups > 0 ==>
              var p := ParseSections(c, runBits, maxSfb, 0, bt);
              && (p.Bad? ==> ParseBandTypes(c, runBits, maxSfb, groups, bt) == Bad(p.err))
              && (p.Good? ==> p.c.Valid() && ParseBandTypes(c, runBits, maxSfb, groups, bt)
                                             == ParseBandTypes(p.c, runBits, maxSfb, groups - 1, p.val))
  {
    hide ParseSections;
    ParseSectionsValid(c, runBits, maxSfb, 0, bt);
  }

  /** section_data of all groups. */
  method DecodeBandTypes(r: Reader, sce: Sce, ghost t: Tables, ghost i: Ics) returns (err: Option<Err>)
    requires r.Valid() && sce.Sized() && IcsShown(sce.ics, t, i) && GeoOf(t, i).Valid()
    modifies r`pos, r`overread, sce`bandType
    ensures r.Valid() && sce.Sized() && old(r.Cur()).Valid()
    ensures var p := ParseBandTypes(old(r.Cur()), if i.Short() then 3 else 5, i.maxSfb, |i.groups|, []);
            && err == Failure(p)
            && (p.Good? ==> |p.val| <= 120 && r.Cur() == p.c && sce.bandType[..|p.val|] == p.val)
  {
    hide ParseSections, ParseBandTypes, Reader.Valid, Cursor.Peek, At, Geo.Valid, Tables.Edges, Geo.BandsFrom;
    var runBits := 5;
    if sce.ics.seq0 == EIGHT_SHORT {
      runBits := 3;
    }
    var maxSfb, groups := sce.ics.maxSfb, sce.ics.numWindowGroups;
    ValidCursor(r);
    AtStep(0, maxSfb);
    ghost var want := ParseBandTypes(r.Cur(), runBits, maxSfb, groups, []);
    assert sce.bandType[..0] == [];
    var g: nat := 0;
    while g < groups
      invariant r.Valid() && sce.Sized() && g <= groups && At(g, maxSfb) <= 128 && r.Cur().Valid()
      invariant ParseBandTypes(r.Cur(), runBits, maxSfb, groups - g, sce.bandType[..At(g, maxSfb)]) == want
    {
      BandTypesStep(r.Cur(), runBits, maxSfb, groups - g, sce.bandType[..At(g, maxSfb)]);
      BandsFit(GeoOf(t, i), g);
      AtStep(g, maxSfb);
      err := DecodeSections(r, sce, runBits, At(g, maxSfb));
      if err.Some? {
        return;
      }
      g := g + 1;
    }
    BandTypesStep(r.Cur(), runBits, maxSfb, 0, sce.bandType[..At(g, maxSfb)]);
    BandsFit(GeoOf(t, i), groups);
    err := None;
  }

  // ----- scale_factor_data

  /** One codeword of the scalefactor book, as the difference it stands for. */
  method DecodeDelta(r: Reader, codes: Table, ghost t: Tables) returns (diff: int, err: Option<Err>)
    requires r.Valid() && codes.Valid() && t.Valid() && codes.book == t.sf
    modifies r`pos, r`overread
    ensures r.Valid()
    ensures var f := Lookup(t.sf, old(r.Cur()));
            && err == (if f.Missing? then Some(InvalidData) else None)
            && (f.Found? ==> diff == f.sym - SCALE_DIFF_ZERO && r.Cur() == f.c)
  {
    hide Reader.Valid, Table.Valid, Tables.Valid, Lookup;
    var sym, ok := codes.Decode(r);
    if !ok {
      return 0, Some(InvalidData);
    }
    return sym - SCALE_DIFF_ZERO, None;
  }

  /** The scalefactor of one band. The three chains are kept in ch. */
  method DecodeSf(r: Reader, sce: Sce, codes: Table, ghost t: Tables, idx: nat, ch: Chains)
      returns (ch': Chains, err: Option<Err>)
    requires r.Valid() && sce.Sized() && codes.Valid() && t.Valid() && codes.book == t.sf && idx < 128
    modifies r`pos, r`overread, sce`sfo
    ensures r.Valid() && sce.Sized()
    ensures var p := ParseSf(t, old(r.Cur()), sce.bandType[idx], ch);
            && err == Failure(p)
            && (p.Good? ==> r.Cur() == p.c && ch' == p.val.ch && sce.sfo == old(sce.sfo)[idx := p.val.sfo])
  {
    hide Reader.Valid, Table.Valid, Tables.Valid, Lookup, Cursor.Peek;
    ch' := ch;
    var diff;
    match sce.bandType[idx] {
      case 0 =>
        sce.sfo := sce.sfo[idx := 0];
        err := None;
      case 15 | 14 =>
        diff, err := DecodeDelta(r, codes, t);
        if err.Some? {
          return;
        }
        ch' := ch'.(intensity := ch'.intensity + diff);
        sce.sfo := sce.sfo[idx := Clip(ch'.intensity, -155, 100) - 100];
      case 13 =>
        if ch'.noiseFlag {
          ch' := ch'.(noiseFlag := false);
          var v := r.Read(NOISE_PRE_BITS);
          ch' := ch'.(noise := ch'.noise + v - NOISE_PRE);
          err := None;
        } else {
          diff, err := DecodeDelta(r, codes, t);
          if err.Some? {
            return;
          }
          ch' := ch'.(noise := ch'.noise + diff);
        }
        sce.sfo := sce.sfo[idx := Clip(ch'.noise, -100, 155)];
      case _ =>
        diff, err := DecodeDelta(r, codes, t);
        if err.Some? {
          return;
        }
        ch' := ch'.(normal := ch'.normal + diff);
        if ch'.normal < 0 || ch'.normal > 255 {
          err := Some(InvalidData);
          return;
        }
        sce.sfo := sce.sfo[idx := ch'.normal - 100];
    }
  }

  lemma SfsStep(t: Tables, c: Cursor, bt: seq<nat>, i: nat, ch: Chains, sfo: seq<int>)
    requires t.Valid()
    ensures i >= |bt| ==> ParseSfs(t, c, bt, i, ch, sfo) == Good(sfo, c)
    ensures i < |bt| ==>
              var p := ParseSf(t, c, bt[i], ch);
              && (p.Bad? ==> ParseSfs(t, c, bt, i, ch, sfo) == Bad(p.err))
              && (p.Good? ==>
                  ParseSfs(t, c, bt, i, ch, sfo) == ParseSfs(t, p.c, bt, i + 1, p.val.ch, sfo + [p.val.sfo]))
  {
    hide Tables.Valid, ParseSf;
  }

  /** scale_factor_data of all groups, band by band. */
  method DecodeScalefactors(r: Reader, sce: Sce, codes: Table, ghost t: Tables, ghost i: Ics, gain: int)
      returns (err: Option<Err>)
    requires r.Valid() && sce.Sized() && codes.Valid() && t.Valid() && codes.book == t.sf
    requires IcsShown(sce.ics, t, i) && GeoOf(t, i).Valid()
    modifies r`pos, r`overread, sce`sfo
    ensures r.Valid() && sce.Sized() && GeoOf(t, i).Bands() <= 120
    ensures var bt := sce.bandType[..GeoOf(t, i).Bands()];
            var p := ParseSfs(t, old(r.Cur()), bt, 0, StartChains(gain), []);
            && err == Failure(p)
            && (p.Good? ==> r.Cur() == p.c && sce.sfo[..|bt|] == p.val)
  {
    hide Reader.Valid, Table.Valid, Tables.Valid, ParseSfs, ParseSf, At, Geo.Valid, Tables.Edges, Geo.BandsFrom, GeoOf;
    var ch := StartChains(gain);
    var maxSfb, groups := sce.ics.maxSfb, sce.ics.numWindowGroups;
    ghost var geo := GeoOf(t, i);
    GeoIs(t, i);
    BandsFit(geo, 0);
    BandsFit(geo, groups);
    NoBandsLeft(geo);
    AtStep(0, maxSfb);
    ghost var bt := sce.bandType[..geo.Bands()];
    ghost var want := ParseSfs(t, r.Cur(), bt, 0, ch, []);
    assert sce.sfo[..0] == [];
    var g: nat := 0;
    while g < groups
      invariant r.Valid() && sce.Sized() && g <= groups && At(g, maxSfb) <= |bt|
      invariant ParseSfs(t, r.Cur(), bt, At(g, maxSfb), ch, sce.sfo[..At(g, maxSfb)]) == want
    {
      BandsFit(geo, g);
      AtStep(g, maxSfb);
      AtUp(g + 1, groups, maxSfb);
      var sfb := 0;
      while sfb < maxSfb
        invariant r.Valid() && sce.Sized() && sfb <= maxSfb
        invariant ParseSfs(t, r.Cur(), bt, At(g, maxSfb) + sfb, ch, sce.sfo[..At(g, maxSfb) + sfb]) == want
      {
        var idx := At(g, maxSfb) + sfb;
        ghost var was := sce.sfo;
        SfsStep(t, r.Cur(), bt, idx, ch, sce.sfo[..idx]);
        ch, err := DecodeSf(r, sce, codes, t, idx, ch);
        if err.Some? {
          return;
        }
        assert sce.sfo[..idx + 1] == was[..idx] + [sce.sfo[idx]];
        sfb := sfb + 1;
      }
      g := g + 1;
    }
    SfsStep(t, r.Cur(), bt, |bt|, ch, sce.sfo[..|bt|]);
    err := None;
  }

  lemma GeoIs(t: Tables, i: Ics)
    ensures GeoOf(t, i).maxSfb == i.maxSfb && GeoOf(t, i).groups == i.groups
  {
  }

  lemma NoBandsLeft(geo: Geo)
    ensures geo.BandsFrom(|geo.groups|) == 0
  {
  }

  /** The fixed-point scalefactors of all bands. */
  method DequantScalefactors(sce: Sce, ghost t: Tables, ghost i: Ics)
    requires sce.Sized() && IcsShown(sce.ics, t, i) && GeoOf(t, i).Valid()
    modifies sce`sf
    ensures sce.Sized() && GeoOf(t, i).Bands() <= 120
    ensures sce.sf[..GeoOf(t, i).Bands()] == SfsOf(sce.bandType[..GeoOf(t, i).Bands()], sce.sfo[..GeoOf(t, i).Bands()])
  {
    hide At, Geo.Valid, Tables.Edges, Geo.BandsFrom, GeoOf;
    var maxSfb, groups := sce.ics.maxSfb, sce.ics.numWindowGroups;
    ghost var geo := GeoOf(t, i);
    GeoIs(t, i);
    BandsFit(geo, groups);
    NoBandsLeft(geo);
    AtStep(0, maxSfb);
    var idx: nat := 0;
    var g: nat := 0;
    while g < groups
      invariant sce.Sized() && g <= groups && idx == At(g, maxSfb) <= geo.Bands()
      invariant forall k :: 0 <= k < idx ==> sce.sf[k] == SfOf(sce.bandType[k], sce.sfo[k])
    {
      BandsFit(geo, g);
      AtStep(g, maxSfb);
      AtUp(g + 1, groups, maxSfb);
      var sfb: nat := 0;
      while sfb < maxSfb
        invariant sce.Sized() && sfb <= maxSfb && idx == At(g, maxSfb) + sfb
        invariant forall k :: 0 <= k < idx ==> sce.sf[k] == SfOf(sce.bandType[k], sce.sfo[k])
      {
        SetSf(sce, At(g, maxSfb) + sfb, idx);
        sfb, idx := sfb + 1, idx + 1;
      }
      g := g + 1;
    }
  }

  /** One arm of the scalefactor derivation. */
  method SetSf(sce: Sce, band: nat, idx: nat)
    requires sce.Sized() && band == idx < 128
    modifies sce`sf
    ensures sce.sf == old(sce.sf)[idx := SfOf(sce.bandType[idx], sce.sfo[idx])]
  {
    match sce.bandType[band] {
      case 0 =>
        sce.sf := sce.sf[idx := 0];
      case 15 | 14 =>
        sce.sf := sce.sf[idx := 100 - (sce.sfo[idx] + 100)];
      case 13 =>
        sce.sf := sce.sf[idx := -(100 + sce.sfo[idx])];
      case _ =>
        sce.sf := sce.sf[idx := -sce.sfo[idx] - 100];
    }
  }
}
