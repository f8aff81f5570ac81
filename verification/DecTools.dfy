/** The decoder's parsers of pulse data, TNS data and gain control. */
module DecTools {
  import opened BitStrings
  import opened BitReader
  import opened AacSyntax
  import opened AacParse
  import opened DecChannel

  // ----- pulse_data

  lemma PulseStep(c: Cursor, left: nat, limit: nat, pulses: seq<Pulse>)
    requires |pulses| > 0
    ensures left == 0 ==> ParsePulseTail(c, left, limit, pulses) == Good(pulses, c)
    ensures left > 0 ==>
              var pos := c.Peek(5) + pulses[|pulses| - 1].pos;
              ParsePulseTail(c, left, limit, pulses) ==
              if pos >= limit then Bad(InvalidData)
              else ParsePulseTail(c.Skip(5).Skip(4), left - 1, limit, pulses + [Pulse(pos, c.Skip(5).Peek(4))])
  {
  }

  method DecodePulses(r: Reader, sce: Sce) returns (err: Option<Err>)
    requires r.Valid() && |sce.ics.swbOffset| >= 2 && sce.ics.numSwb == |sce.ics.swbOffset| - 1
    modifies r`pos, r`overread, sce`pulses
    ensures r.Valid()
    ensures var p := ParsePulses(old(r.Cur()), sce.ics.swbOffset);
            err == Failure(p) && (p.Good? ==> r.Cur() == p.c && sce.pulses == p.val)
    ensures if err.Some? then err.value == InvalidData else |sce.pulses| > 0
  {
    hide Reader.Valid, Reader.Cur, Cursor.Peek, ParsePulseTail;
    var offsets := sce.ics.swbOffset;
    var limit := offsets[sce.ics.numSwb];
    ghost var want := ParsePulses(r.Cur(), offsets);
    var n := r.Read(2);
    n := n + 1;
    var swb := r.Read(6);
    if swb >= sce.ics.numSwb {
      return Some(InvalidData);
    }
    var v := r.Read(5);
    var pos := offsets[swb] + v;
    if pos >= limit {
      return Some(InvalidData);
    }
    var amp := r.Read(4);
    sce.pulses := [Pulse(pos, amp)];
    var i: nat := 1;
    while i < n
      invariant r.Valid() && 1 <= i <= n && |sce.pulses| == i
      invariant ParsePulseTail(r.Cur(), n - i, limit, sce.pulses) == want
    {
      PulseStep(r.Cur(), n - i, limit, sce.pulses);
      v := r.Read(5);
      pos := v + sce.pulses[i - 1].pos;
      if pos >= limit {
        return Some(InvalidData);
      }
      amp := r.Read(4);
      sce.pulses := sce.pulses + [Pulse(pos, amp)];
      i := i + 1;
    }
    PulseStep(r.Cur(), 0, limit, sce.pulses);
    err := None;
  }

  // ----- tns_data

  lemma TnsCoefsStep(c: Cursor, row: seq<int>, bits: nat, left: nat, coefs: seq<int>)
    requires |row| == Pow2(bits)
    ensures c.Peek(bits) < |row|
    ensures left == 0 ==> ParseTnsCoefs(c, row, bits, left, coefs) == (coefs, c)
    ensures left > 0 ==>
              ParseTnsCoefs(c, row, bits, left, coefs)
                  == ParseTnsCoefs(c.Skip(bits), row, bits, left - 1, coefs + [row[c.Peek(bits)]])
  {
    ValBound(Window(c.s, c.pos, bits));
  }

  method DecodeCoefs(r: Reader, row: seq<int>, bits: nat, order: nat) returns (coefs: seq<int>)
    requires r.Valid() && |row| == Pow2(bits) && bits <= 32
    modifies r`pos, r`overread
    ensures r.Valid() && (coefs, r.Cur()) == ParseTnsCoefs(old(r.Cur()), row, bits, order, [])
  {
    hide Reader.Valid, Reader.Cur, Cursor.Peek, ParseTnsCoefs, Pow2;
    coefs := [];
    for i := 0 to order
      invariant r.Valid()
      invariant ParseTnsCoefs(r.Cur(), row, bits, order - i, coefs) == ParseTnsCoefs(old(r.Cur()), row, bits, order, [])
    {
      TnsCoefsStep(r.Cur(), row, bits, order - i, coefs);
      var v := r.Read(bits);
      coefs := coefs + [row[v]];
    }
    TnsCoefsStep(r.Cur(), row, bits, 0, coefs);
  }

  /** One filter: length, order, and for a real one direction and coefficients. */
  method DecodeFilter(r: Reader, t: Tables, is8: nat, coefRes: nat) returns (f: Filter, err: Option<Err>)
    requires r.Valid() && t.Valid() && is8 <= 1 && coefRes <= 1
    modifies r`pos, r`overread
    ensures r.Valid()
    ensures var p := ParseFilter(t, old(r.Cur()), is8, coefRes);
            err == Failure(p) && (p.Good? ==> f == p.val && r.Cur() == p.c)
  {
    hide Reader.Valid, Reader.Cur, Cursor.Peek, ParseTnsCoefs, Pow2, Tables.Valid, Tables.TnsRow;
    f, err := Filter(0, 0, 0, []), None;
    var v := r.Read(6 - 2 * is8);
    f := f.(length := v);
    v := r.Read(5 - 2 * is8);
    if v > (if is8 == 1 then 7 else 12) {
      err := Some(InvalidData);
      return;
    }
    f := f.(order := v);
    if f.order == 0 {
      return;
    }
    v := r.Read(1);
    f := f.(direction := v);
    BitBound(r.Cur());
    var compress := r.Read(1);
    TnsRowSize(t, compress, coefRes);
    RowsHave(t);
    var coefs := DecodeCoefs(r, t.TnsRow(compress, coefRes), coefRes + 3 - compress, f.order);
    f := f.(coefs := coefs);
  }

  lemma RowsHave(t: Tables)
    requires t.Valid()
    ensures |t.tns3| == 8 && |t.tns4| == 16 && |t.longEdges| >= 2
  {
  }

  lemma FiltersStep(t: Tables, c: Cursor, is8: nat, res: nat, left: nat, fs: seq<Filter>)
    requires t.Valid() && is8 <= 1 && res <= 1
    ensures left == 0 ==> ParseFilters(t, c, is8, res, left, fs) == Good(fs, c)
    ensures left > 0 ==>
              var p := ParseFilter(t, c, is8, res);
              && (p.Bad? ==> ParseFilters(t, c, is8, res, left, fs) == Bad(p.err))
              && (p.Good? ==>
                  ParseFilters(t, c, is8, res, left, fs) == ParseFilters(t, p.c, is8, res, left - 1, fs + [p.val]))
  {
    hide Tables.Valid, ParseFilter;
  }

  method DecodeFilters(r: Reader, t: Tables, is8: nat, coefRes: nat, n: nat) returns (fs: seq<Filter>, err: Option<Err>)
    requires r.Valid() && t.Valid() && is8 <= 1 && coefRes <= 1
    modifies r`pos, r`overread
    ensures r.Valid()
    ensures var p := ParseFilters(t, old(r.Cur()), is8, coefRes, n, []);
            err == Failure(p) && (p.Good? ==> fs == p.val && r.Cur() == p.c)
  {
    hide Reader.Valid, Reader.Cur, ParseFilter, ParseFilters, Tables.Valid;
    fs := [];
    var filt: nat := 0;
    while filt < n
      invariant r.Valid() && filt <= n
      invariant ParseFilters(t, r.Cur(), is8, coefRes, n - filt, fs)
                == ParseFilters(t, old(r.Cur()), is8, coefRes, n, [])
    {
      FiltersStep(t, r.Cur(), is8, coefRes, n - filt, fs);
      var f;
      f, err := DecodeFilter(r, t, is8, coefRes);
      if err.Some? {
        return;
      }
      fs := fs + [f];
      filt := filt + 1;
    }
    FiltersStep(t, r.Cur(), is8, coefRes, 0, fs);
    err := None;
  }

  lemma TnsStep(t: Tables, c: Cursor, is8: nat, left: nat, ws: seq<seq<Filter>>)
    requires t.Valid() && is8 <= 1
    ensures c.Skip(2 - is8).Peek(1) <= 1
    ensures left == 0 ==> ParseTns(t, c, is8, left, ws) == Good(ws, c)
    ensures left > 0 && c.Peek(2 - is8) == 0 ==>
            ParseTns(t, c, is8, left, ws) == ParseTns(t, c.Skip(2 - is8), is8, left - 1, ws + [[]])
    ensures left > 0 && c.Peek(2 - is8) != 0 ==>
              var c1 := c.Skip(2 - is8);
              var p := ParseFilters(t, c1.Skip(1), is8, c1.Peek(1), c.Peek(2 - is8), []);
              && (p.Bad? ==> ParseTns(t, c, is8, left, ws) == Bad(p.err))
              && (p.Good? ==> ParseTns(t, c, is8, left, ws) == ParseTns(t, p.c, is8, left - 1, ws + [p.val]))
  {
    hide Tables.Valid, ParseFilters;
    BitBound(c.Skip(2 - is8));
  }

  /** tns_data of all windows. */
  method DecodeTns(r: Reader, sce: Sce, t: Tables) returns (err: Option<Err>)
    requires r.Valid() && t.Valid()
    modifies r`pos, r`overread, sce`tns
    ensures r.Valid()
    ensures var is8 := if sce.ics.seq0 == EIGHT_SHORT then 1 else 0;
            var p := ParseTns(t, old(r.Cur()), is8, sce.ics.numWindows, []);
            err == Failure(p) && (p.Good? ==> sce.tns == Some(p.val) && r.Cur() == p.c)
  {
    hide Reader.Valid, Reader.Cur, Cursor.Peek, ParseFilters, ParseTns, Tables.Valid;
    var is8 := 0;
    if sce.ics.seq0 == EIGHT_SHORT {
      is8 := 1;
    }
    var n := sce.ics.numWindows;
    var ws: seq<seq<Filter>> := [];
    var w: nat := 0;
    while w < n
      invariant r.Valid() && w <= n
      invariant ParseTns(t, r.Cur(), is8, n - w, ws) == ParseTns(t, old(r.Cur()), is8, n, [])
    {
      TnsStep(t, r.Cur(), is8, n - w, ws);
      var filters := r.Read(2 - is8);
      if filters == 0 {
        ws := ws + [[]];
      } else {
        var coefRes := r.Read(1);
        var fs;
        fs, err := DecodeFilters(r, t, is8, coefRes, filters);
        if err.Some? {
          return;
        }
        ws := ws + [fs];
      }
      w := w + 1;
    }
    TnsStep(t, r.Cur(), is8, 0, ws);
    sce.tns := Some(ws);
    err := None;
  }

  // ----- gain_control_data

  lemma AdjustsStep(c: Cursor, n: nat, width: nat)
    ensures n == 0 ==> SkipAdjusts(c, n, width) == c
    ensures n > 0 ==> SkipAdjusts(c, n, width) == SkipAdjusts(c.Skip(width), n - 1, width)
  {
  }

  lemma WindowsStep(c: Cursor, sq: nat, wd: nat)
    ensures var (windows, longFirst, aloc) := GainMode(sq);
            && (wd >= windows ==> SkipWindows(c, sq, wd) == c)
            && (wd < windows ==>
                  SkipWindows(c, sq, wd) ==
                  SkipWindows(SkipAdjusts(c.Skip(3), c.Peek(3), if wd == 0 && longFirst then 8 else 4 + aloc), sq,
                              wd + 1))
  {
  }

  lemma GainBandsStep(c: Cursor, sq: nat, bands: nat)
    ensures bands == 0 ==> SkipGainBands(c, sq, bands) == c
    ensures bands > 0 ==> SkipGainBands(c, sq, bands) == SkipGainBands(SkipWindows(c, sq, 0), sq, bands - 1)
  {
  }

  /** Parses SSR gain control only to get past it. */
  method DecodeGainControl(r: Reader, sce: Sce)
    requires r.Valid()
    modifies r`pos, r`overread
    ensures r.Valid() && r.Cur() == SkipGain(old(r.Cur()), sce.ics.seq0)
  {
    hide Reader.Valid, Reader.Cur, Cursor.Peek, Cursor.Skip, SkipWindows, SkipAdjusts, SkipGainBands;
    var sq := sce.ics.seq0;
    var (windows, longFirst, aloc) := GainMode(sq);
    ghost var want := SkipGain(r.Cur(), sq);
    var maxBand := r.Read(2);
    for b := 0 to maxBand
      invariant r.Valid() && SkipGainBands(r.Cur(), sq, maxBand - b) == want
    {
      GainBandsStep(r.Cur(), sq, maxBand - b);
      ghost var next := SkipWindows(r.Cur(), sq, 0);
      for wd := 0 to windows
        invariant r.Valid() && SkipWindows(r.Cur(), sq, wd) == next
      {
        WindowsStep(r.Cur(), sq, wd);
        var n := 4 + aloc;
        if wd == 0 && longFirst {
          n := 4 + 4;
        }
        var adjustNum := r.Read(3);
        ghost var after := SkipAdjusts(r.Cur(), adjustNum, n);
        for k := 0 to adjustNum
          invariant r.Valid() && SkipAdjusts(r.Cur(), adjustNum - k, n) == after
        {
          AdjustsStep(r.Cur(), adjustNum - k, n);
          r.Skip(n);
        }
        AdjustsStep(r.Cur(), 0, n);
      }
      WindowsStep(r.Cur(), sq, windows);
    }
    GainBandsStep(r.Cur(), sq, 0);
  }
}
