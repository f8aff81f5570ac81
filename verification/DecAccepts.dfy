/** What an accepted channel satisfies whatever bits it came from, and what is
    refused for what a header field says. */
module DecAccepts {
  import BitStrings
  import opened BitReader
  import opened AacSyntax
  import opened AacParse
  import opened AacForward
  import opened AacFrame

  // ----- scalefactors

  /** The range of a band's scalefactor offset. */
  predicate InScale(cb: nat, sfo: int) {
    if cb == ZERO_BT then sfo == 0
    else if cb == INTENSITY_BT || cb == INTENSITY_BT2 then -255 <= sfo <= 0
    else -100 <= sfo <= 155
  }

  ghost predicate InScales(bt: seq<nat>, sfo: seq<int>) {
    |sfo| <= |bt| && forall i :: 0 <= i < |sfo| ==> InScale(bt[i], sfo[i])
  }

  lemma SfInScale(t: Tables, c: Cursor, cb: nat, ch: Chains)
    requires t.Valid()
    ensures var r := ParseSf(t, c, cb, ch);
            r.Good? ==> InScale(cb, r.val.sfo)
  {
    hide Tables.Valid, Cursor.Peek;
  }

  lemma {:induction false} SfsInScale(t: Tables, c: Cursor, bt: seq<nat>, i: nat, ch: Chains, sfo: seq<int>)
    requires t.Valid() && i <= |bt| && |sfo| == i && InScales(bt, sfo)
    ensures var r := ParseSfs(t, c, bt, i, ch, sfo);
            r.Good? ==> InScales(bt, r.val)
    decreases |bt| - i
  {
    hide Tables.Valid, ParseSf, InScale;
    if i < |bt| {
      var r := ParseSf(t, c, bt[i], ch);
      SfInScale(t, c, bt[i], ch);
      if r.Good? {
        SfsInScale(t, r.c, bt, i + 1, r.val.ch, sfo + [r.val.sfo]);
      }
    }
  }

  // ----- filters

  /** A filter of a channel, in a short window or a long one. */
  predicate InOrder(f: Filter, is8: nat) {
    |f.coefs| == f.order <= (if is8 == 1 then 7 else 12) && f.direction <= 1
  }

  ghost predicate AllInOrder(fs: seq<Filter>, is8: nat) {
    forall i :: 0 <= i < |fs| ==> InOrder(fs[i], is8)
  }

  ghost predicate WindowsInOrder(ws: seq<seq<Filter>>, is8: nat) {
    forall w :: 0 <= w < |ws| ==> |ws[w]| <= (if is8 == 1 then 1 else 3) && AllInOrder(ws[w], is8)
  }

  lemma {:induction false} CoefsLength(c: Cursor, row: seq<int>, bits: nat, left: nat, coefs: seq<int>)
    requires |row| == BitStrings.Pow2(bits)
    ensures |ParseTnsCoefs(c, row, bits, left, coefs).0| == |coefs| + left
    decreases left
  {
    if left > 0 {
      BitStrings.ValBound(BitStrings.Window(c.s, c.pos, bits));
      CoefsLength(c.Skip(bits), row, bits, left - 1, coefs + [row[c.Peek(bits)]]);
    }
  }

  lemma SomeTables(t: Tables)
    requires t.Valid()
    ensures |t.longEdges| > 0 && |t.tns3| == 8 && |t.tns4| == 16
  {
  }

  lemma FilterInOrder(t: Tables, c0: Cursor, is8: nat, res: nat)
    requires t.Valid() && is8 <= 1 && res <= 1
    ensures var r := ParseFilter(t, c0, is8, res);
            r.Good? ==> InOrder(r.val, is8)
  {
    hide Tables.Valid, Cursor.Peek, ParseTnsCoefs, Cursor.Skip, Tables.TnsRow;
    SomeTables(t);
    var (n, m) := (6 - 2 * is8, 5 - 2 * is8);
    var c2 := c0.Skip(n).Skip(m);
    var order := c0.Skip(n).Peek(m);
    var compress := c2.Skip(1).Peek(1);
    BitBound(c2);
    BitBound(c2.Skip(1));
    TnsRowSize(t, compress, res);
    CoefsLength(c2.Skip(1).Skip(1), t.TnsRow(compress, res), res + 3 - compress, order, []);
  }

  lemma {:induction false} FiltersInOrder(t: Tables, c: Cursor, is8: nat, res: nat, left: nat, fs: seq<Filter>)
    requires t.Valid() && is8 <= 1 && res <= 1 && AllInOrder(fs, is8)
    ensures var r := ParseFilters(t, c, is8, res, left, fs);
            r.Good? ==> AllInOrder(r.val, is8) && |r.val| == |fs| + left
    decreases left
  {
    hide Tables.Valid, ParseFilter, InOrder;
    if left > 0 {
      var r := ParseFilter(t, c, is8, res);
      FilterInOrder(t, c, is8, res);
      if r.Good? {
        FiltersInOrder(t, r.c, is8, res, left - 1, fs + [r.val]);
      }
    }
  }

  lemma CountBound(c: Cursor, is8: nat)
    requires is8 <= 1
    ensures c.Peek(2 - is8) <= if is8 == 1 then 1 else 3
  {
    BitStrings.ValBound(BitStrings.Window(c.s, c.pos, 2 - is8));
    assert BitStrings.Pow2(1) == 2 && BitStrings.Pow2(2) == 4;
  }

  lemma {:induction false} TnsInOrder(t: Tables, c: Cursor, is8: nat, left: nat, ws: seq<seq<Filter>>)
    requires t.Valid() && is8 <= 1 && WindowsInOrder(ws, is8)
    ensures var r := ParseTns(t, c, is8, left, ws);
            r.Good? ==> WindowsInOrder(r.val, is8) && |r.val| == |ws| + left
    decreases left
  {
    hide Tables.Valid, ParseFilters, Cursor.Peek, AllInOrder;
    if left > 0 {
      var (n, c1) := (c.Peek(2 - is8), c.Skip(2 - is8));
      CountBound(c, is8);
      NoFilters(is8);
      if n == 0 {
        TnsInOrder(t, c1, is8, left - 1, ws + [[]]);
      } else {
        BitBound(c1);
        var r := ParseFilters(t, c1.Skip(1), is8, c1.Peek(1), n, []);
        FiltersInOrder(t, c1.Skip(1), is8, c1.Peek(1), n, []);
        if r.Good? {
          TnsInOrder(t, r.c, is8, left - 1, ws + [r.val]);
        }
      }
    }
  }

  lemma NoFilters(is8: nat)
    ensures AllInOrder([], is8)
  {
  }

  lemma ToolsInOrder(t: Tables, c: Cursor, ics: Ics)
    requires t.Valid()
    ensures var r := ParseTools(t, c, ics);
            r.Good? && r.val.tns.Some? ==>
              WindowsInOrder(r.val.tns.value, if ics.Short() then 1 else 0)
              && |r.val.tns.value| == if ics.Short() then 8 else 1
  {
    SomeTables(t);
    hide Tables.Valid, Cursor.Peek, ParseTns, ParsePulses, SkipGain, AllInOrder;
    var p := if c.Peek(1) == 0 then Good([], c.Skip(1))
             else if ics.Short() then Bad(InvalidData)
             else ParsePulses(c.Skip(1), t.longEdges);
    if p.Good? {
      TnsInOrder(t, p.c.Skip(1), if ics.Short() then 1 else 0, if ics.Short() then 8 else 1, []);
    }
  }

  /** Whatever the bits, an accepted channel has every scalefactor in the range of
      its kind, and in each window at most one short or three long filters, of
      orders up to 7 or 12 with as many coefficients. */
  lemma AcceptedInRange(t: Tables, c: Cursor, common: Option<Ics>)
    requires t.Valid() && c.Valid() && (common.Some? ==> GeoOf(t, common.value).Valid())
    ensures var p := ParseChannel(t, c, common);
            p.Good? ==>
              && |p.val.sfo| == |p.val.bt| && InScales(p.val.bt, p.val.sfo)
              && (p.val.tns.Some? ==>
                    && |p.val.tns.value| == (if p.val.ics.Short() then 8 else 1)
                    && WindowsInOrder(p.val.tns.value, if p.val.ics.Short() then 1 else 0))
  {
    hide Tables.Valid, Geo.Valid, ParseIcs, ParseBandTypes, ParseSfs, ParseTools, ParseCoefs, Geo.BandsFrom,
         WindowsInOrder, Cursor.Peek, PulsesFit;
    ParseIcsGeo(t, c.Skip(8));
    ParseIcsValid(t, c.Skip(8));
    var i := if common.Some? then Good(common.value, c.Skip(8)) else ParseIcs(t, c.Skip(8));
    if i.Good? {
      ParseSideFits(t, i.c, c.Peek(8), i.val);
      SideInRange(t, i.c, c.Peek(8), i.val);
    }
  }

  lemma SideInRange(t: Tables, c: Cursor, gain: int, ics: Ics)
    requires t.Valid() && GeoOf(t, ics).Valid() && c.Valid()
    ensures var r := ParseSide(t, c, gain, ics);
            r.Good? ==>
              && InScales(r.val.bt, r.val.sfo)
              && (r.val.tools.tns.Some? ==>
                    && |r.val.tools.tns.value| == (if ics.Short() then 8 else 1)
                    && WindowsInOrder(r.val.tools.tns.value, if ics.Short() then 1 else 0))
  {
    hide Tables.Valid, Geo.Valid, ParseBandTypes, ParseSfs, ParseTools, WindowsInOrder;
    var b := ParseBandTypes(c, if ics.Short() then 3 else 5, ics.maxSfb, |ics.groups|, []);
    if b.Good? {
      SfsInScale(t, b.c, b.val, 0, StartChains(gain), []);
      var s := ParseSfs(t, b.c, b.val, 0, StartChains(gain), []);
      if s.Good? {
        ToolsInOrder(t, s.c, ics);
      }
    }
  }

  // ----- refused fields

  lemma SkipTo(c: Cursor, m: nat, n: nat)
    requires c.Valid()
    ensures c.Skip(m).Skip(n) == c.Skip(m + n)
  {
  }

  /** Prediction is refused, and so are more bands than the window has; nothing
      else about ics_info is. */
  lemma IcsRefused(t: Tables, c: Cursor)
    requires t.Valid() && c.Valid()
    ensures ParseIcs(t, c).Bad?
            <==> if c.Skip(1).Peek(2) == EIGHT_SHORT then c.Skip(4).Peek(4) > |t.shortEdges| - 1
                 else c.Skip(10).Peek(1) != 0 || c.Skip(4).Peek(6) > |t.longEdges| - 1
  {
    hide Cursor.Peek, Cursor.Skip, ParseGroups, SpectralOk, GoodEdges;
    SkipTo(c, 1, 2);
    SkipTo(c, 3, 1);
    SkipTo(c, 4, 6);
  }

  /** Of the M/S modes only the reserved one is refused. */
  lemma MsRefused(c: Cursor, bands: nat)
    ensures ParseMs(c, bands).Bad? <==> c.Peek(2) == 3
  {
    hide Cursor.Peek, ParseMask;
  }
}
