/** The sectioning search and section writer as the encoder runs them: filling the
    path matrix row by row, backtracking, then writing the sections and storing
    the chosen band types. */
module SectionCoder {
  import opened BitStrings
  import opened BitWriter
  import BitReader
  import opened AacParse
  import opened AacPrint
  import opened RoundTripSide
  import opened SectionTrellis

  /** The channel state the encoder updates in place. Band arrays have 128 slots,
      slot w*16+b for band b of the group that starts at window w. */
  class SingleChannelElement {
    var windowSequence: nat
    var useKb: nat
    var maxSfb: nat
    var numSwb: nat
    var numWindows: nat
    var groupLen: seq<nat>
    var swbSizes: seq<nat>
    var bandType: seq<nat>
    var zeroes: seq<bool>
    var sfIdx: seq<int>
    var tnsPresent: bool
    var tns: seq<seq<TnsFilter>>
    var quantized: seq<int>   // the coefficients after quantization

    ghost predicate Sized()
      reads this
    {
      |groupLen| == 8 && |bandType| == |zeroes| == |sfIdx| == 128 && |quantized| == 1024
    }

    constructor ()
      ensures Sized()
    {
      windowSequence, useKb, maxSfb, numSwb, numWindows := 0, 0, 0, 0, 1;
      groupLen, swbSizes := seq(8, i => if i == 0 then 1 else 0), [];
      bandType, zeroes, sfIdx := seq(128, _ => 0), seq(128, _ => true), seq(128, _ => 0);
      tnsPresent, tns, quantized := false, [], seq(1024, _ => 0);
    }
  }

  /** s with the elements from at on replaced by x. */
  function Splice<T>(s: seq<T>, at: nat, x: seq<T>): (r: seq<T>)
    requires at + |x| <= |s|
    ensures |r| == |s|
  {
    s[..at] + x + s[at + |x|..]
  }

  function IsZero(bt: seq<nat>): (z: seq<bool>)
    ensures |z| == |bt|
  {
    seq(|bt|, i requires 0 <= i < |bt| => bt[i] == 0)
  }

  /** The search input of the group that starts at window win. */
  function GroupOf(short: bool, zeroes: seq<bool>, bandType: seq<nat>, sizes: seq<nat>, maxSfb: nat, win: nat, len: nat,
                   bits: seq<seq<nat>>): Group
    requires |zeroes| == |bandType| == 128 && win * 16 + maxSfb <= 128 && maxSfb <= |sizes|
  {
    Group(short, zeroes[win * 16..win * 16 + maxSfb], bandType[win * 16..win * 16 + maxSfb],
          seq(maxSfb, i requires 0 <= i < maxSfb => sizes[i] * len), bits)
  }

  class Coder {
    var path: seq<seq<Cell>>   // the trellis matrix, reused between calls

    constructor ()
      ensures |path| == 121
    {
      path := seq(121, _ => FirstRow(false));
    }

    /** The matrix row of a zero band. */
    method ZeroRow(ghost g: Group, ghost b: nat, short: bool, prev: seq<Cell>, best: Best)
        returns (row: seq<Cell>, next: Best)
      requires g.Valid() && b < g.Len() && g.zero[b] && short == g.short && |prev| == CB_TOT_ALL
      ensures row == NextRow(g, b, prev, best) && next == RowBest(g, b, row, CB_TOT_ALL)
    {
      var cell := StepCell(short, prev[0], 0, best, 0);
      row := [cell];
      next := Best(Some(cell.cost), 0);
      for cb := 1 to CB_TOT_ALL
        invariant |row| == cb && row == NextRow(g, b, prev, best)[..cb]
        invariant next == RowBest(g, b, row, cb)
      {
        assert NextRow(g, b, prev, best)[..cb + 1] == NextRow(g, b, prev, best)[..cb] + [CellAt(g, b, prev, best, cb)];
        row := row + [DEAD];
        RowBestPrefix(g, b, row[..cb], row, cb);
      }
    }

    /** The matrix row of a coded band. */
    method CodedRow(ghost g: Group, ghost b: nat, short: bool, bt: nat, bits: seq<nat>, prev: seq<Cell>, best: Best)
      returns (row: seq<Cell>, next: Best)
      requires g.Valid() && b < g.Len() && !g.zero[b] && short == g.short && |prev| == CB_TOT_ALL
      requires bt == g.bt[b] && bits == g.bits[b]
      ensures row == NextRow(g, b, prev, best) && next == RowBest(g, b, row, CB_TOT_ALL)
    {
      var startCb := CbIn(bt);
      row, next := [], Best(None, 0);
      for cb := 0 to CB_TOT_ALL
        invariant |row| == cb && row == NextRow(g, b, prev, best)[..cb]
        invariant next == RowBest(g, b, row, cb)
      {
        assert NextRow(g, b, prev, best)[..cb + 1] == NextRow(g, b, prev, best)[..cb] + [CellAt(g, b, prev, best, cb)];
        if cb < startCb || (cb >= 12 && bt != CbOut(cb)) {
          row := row + [DEAD];
          RowBestPrefix(g, b, row[..cb], row, cb);
        } else {
          var cell := StepCell(short, prev[cb], cb, best, bits[cb]);
          row := row + [cell];
          RowBestPrefix(g, b, row[..cb], row, cb);
          if next.cost.None? || cell.cost < next.cost.value {
            next := Best(Some(cell.cost), cb);
          }
        }
      }
    }

    /** Fills the matrix up to level |zero|. */
    method Fill(ghost g: Group, short: bool, zero: seq<bool>, bt: seq<nat>, bits: seq<seq<nat>>)
      requires |path| == 121 && g.Valid()
      requires short == g.short && zero == g.zero && bt == g.bt && bits == g.bits
      modifies this`path
      ensures |path| == 121 && path[..g.Len() + 1] == Rows(g, g.Len())
    {
      var best := Best(None, 0);
      path := path[0 := FirstRow(short)];
      for b := 0 to |zero|
        invariant |path| == 121 && path[..b + 1] == Rows(g, b)
        invariant best == BestAt(g, b, Rows(g, b)[b])
      {
        var row;
        assert path[b] == Rows(g, b)[b];
        if zero[b] {
          row, best := ZeroRow(g, b, short, path[b], best);
        } else {
          row, best := CodedRow(g, b, short, bt[b], bits[b], path[b], best);
        }
        path := path[b + 1 := row];
        assert path[..b + 2] == path[..b + 1] + [row];
      }
    }

    /** The first cheapest cell of the last level. */
    method CheapestFinal(n: nat) returns (idx: nat)
      requires n < |path| && |path[n]| == CB_TOT_ALL
      ensures idx == Winner(path[n], CB_TOT_ALL)
    {
      idx := 0;
      for cb := 1 to CB_TOT_ALL
        invariant idx == Winner(path[n], cb)
      {
        if path[n][cb].cost < path[n][idx].cost {
          idx := cb;
        }
      }
    }

    /** Follows the back links from the cheapest final cell. The stack holds the
        last section first. */
    method Backtrack(ghost g: Group, n: nat) returns (stack: seq<Section>)
      requires g.Valid() && n == g.Len() <= 120 && |path| == 121 && path[..n + 1] == Rows(g, n)
      ensures Reverse(stack) == Chosen(g)
    {
      hide Track, Reaches, Rows, Live, Reverse, Group.Valid;
      ghost var rows := path[..n + 1];
      assert path[n] == rows[n];
      var idx: int := CheapestFinal(n);
      WinnerLive(g);
      LiveReaches(g, rows, n, idx);
      stack := [];
      EmptyReverse();
      var pos := n;
      while pos > 0
        invariant 0 <= pos <= n
        invariant pos > 0 ==> 0 <= idx < CB_TOT_ALL && Reaches(rows, pos, idx)
        invariant Chosen(g) == (if pos > 0 then Track(rows, pos, idx) else []) + Reverse(stack)
      {
        var cb := idx;
        BackStep(rows, pos, cb);
        assert path[pos] == rows[pos];
        var run := path[pos][cb].run;
        assert path[pos - run + 1] == rows[pos - run + 1];
        ReversePush(stack, Section(cb, run));
        stack := stack + [Section(cb, run)];
        idx := path[pos - run + 1][cb].prev;
        pos := pos - run;
      }
    }

    /** Writes one run in escape-coded chunks. */
    method PutRun(pb: Writer, run: nat, runBits: nat)
      requires pb.Valid() && 1 < runBits <= 32
      modifies pb
      ensures pb.Valid() && pb.Written() == old(pb.Written()) + PrintRun(run, runBits)
    {
      hide PrintRun, ToBits;
      var esc := Pow2(runBits) - 1;
      Pow2Pos(runBits);
      var count: nat := run;
      while count >= esc
        invariant pb.Valid()
        invariant pb.Written() + PrintRun(count, runBits) == old(pb.Written()) + PrintRun(run, runBits)
      {
        RunChunk(count, runBits);
        pb.Put(runBits, esc);
        count := count - esc;
      }
      RunChunk(count, runBits);
      pb.Put(runBits, count);
    }

    /** Sections one window group: the section data is written, and the group's
        band types and zero flags become those of the chosen sections. */
    method CodebookTrellisRate(pb: Writer, sce: SingleChannelElement, win: nat, bits: seq<seq<nat>>)
      requires pb.Valid() && |path| == 121 && sce.Sized() && win < 8
      requires win * 16 + sce.maxSfb <= 128 && sce.maxSfb <= |sce.swbSizes|
      requires GroupOf(sce.numWindows != 1, sce.zeroes, sce.bandType, sce.swbSizes, sce.maxSfb, win, sce.groupLen[win],
                       bits).Valid()
      modifies this`path, pb, sce`bandType, sce`zeroes
      ensures pb.Valid() && |path| == 121 && sce.Sized()
      ensures var g := old(GroupOf(sce.numWindows != 1, sce.zeroes, sce.bandType, sce.swbSizes, sce.maxSfb, win,
                                   sce.groupLen[win], bits));
              Placed(g, old(pb.Written()), pb.Written(), old(sce.bandType), sce.bandType, old(sce.zeroes), sce.zeroes,
                     win * 16)
    {
      ghost var g := GroupOf(sce.numWindows != 1, sce.zeroes, sce.bandType, sce.swbSizes, sce.maxSfb, win,
                             sce.groupLen[win], bits);
      var short := sce.numWindows != 1;
      var at := win * 16;
      Fill(g, short, sce.zeroes[at..at + sce.maxSfb], sce.bandType[at..at + sce.maxSfb], bits);
      var stack := Backtrack(g, sce.maxSfb);
      WriteSections(g, pb, sce, at, RunBits(short), stack);
    }

    method WriteSections(ghost g: Group, pb: Writer, sce: SingleChannelElement, at: nat, runBits: nat,
                         stack: seq<Section>)
      requires pb.Valid() && g.Valid() && sce.Sized() && at + g.Len() <= 128 && runBits == RunBits(g.short)
      requires Reverse(stack) == Chosen(g)
      modifies pb, sce`bandType, sce`zeroes
      ensures pb.Valid() && sce.Sized()
      ensures Placed(g, old(pb.Written()), pb.Written(), old(sce.bandType), sce.bandType, old(sce.zeroes), sce.zeroes,
                     at)
    {
      hide Group.Valid, WrittenSo, Total, Chosen, Reverse, Writer.Written;
      var start := at;
      var i := |stack|;
      ghost var s := Chosen(g);
      ChosenTotal(g);
      ReverseLength(stack);
      WrittenNone(runBits, pb.Written(), sce.bandType, sce.zeroes, at);
      while i > 0
        invariant 0 <= i <= |stack| && pb.Valid() && sce.Sized()
        invariant start == at + Total(s[..|s| - i])
        invariant WrittenSo(s[..|s| - i], runBits, old(pb.Written()), pb.Written(), old(sce.bandType), sce.bandType,
                            old(sce.zeroes), sce.zeroes, at)
      {
        i := i - 1;
        ghost var k := |s| - i - 1;
        ReverseAt(stack, k);
        TotalPrefix(s, k);
        TotalPrefix(s, k + 1);
        assert s[..k + 1] == s[..k] + [stack[i]];
        TotalSnoc(s[..k], stack[i]);
        WriteOne(pb, sce, s[..k], old(pb.Written()), old(sce.bandType), old(sce.zeroes), at, start, runBits, stack[i]);
        start := start + stack[i].run;
      }
      assert s[..|s|] == s;
    }

    /** Writes one section and stores its band types. */
    method WriteOne(pb: Writer, sce: SingleChannelElement, ghost s: seq<Section>, ghost w0: Bits, ghost b0: seq<nat>,
                    ghost z0: seq<bool>,
                    ghost at: nat, start: nat, runBits: nat, x: Section)
      requires pb.Valid() && sce.Sized() && 1 < runBits <= 32 && |b0| == |z0| == 128
      requires start == at + |Expand(Out(s))| && start + x.run <= 128
      requires WrittenSo(s, runBits, w0, pb.Written(), b0, sce.bandType, z0, sce.zeroes, at)
      modifies pb, sce`bandType, sce`zeroes
      ensures pb.Valid() && sce.Sized()
      ensures WrittenSo(s + [x], runBits, w0, pb.Written(), b0, sce.bandType, z0, sce.zeroes, at)
    {
      hide WrittenSo, Writer.Written, PrintRun, ToBits;
      var cb := CbOut(x.cb);
      pb.Put(4, cb);
      Assign(sce, start, x.run, cb);
      PutRun(pb, x.run, runBits);
      WrittenStep(s, x, runBits, w0, old(pb.Written()), pb.Written(), b0, old(sce.bandType), sce.bandType, z0,
                  old(sce.zeroes), sce.zeroes, at);
    }

    /** Gives run bands the band type of their section. */
    method Assign(sce: SingleChannelElement, start: nat, run: nat, cb: nat)
      requires sce.Sized() && start + run <= 128
      modifies sce`bandType, sce`zeroes
      ensures sce.Sized()
      ensures sce.bandType == Splice(old(sce.bandType), start, AacParse.Fill(cb, run))
      ensures sce.zeroes == Splice(old(sce.zeroes), start, seq(run, _ => cb == 0))
    {
      hide Splice;
      SpliceNone(sce.bandType, start);
      SpliceNone(sce.zeroes, start);
      assert AacParse.Fill(cb, 0) == [] && seq(0, _ => cb == 0) == [];
      for k := 0 to run
        invariant sce.Sized()
        invariant sce.bandType == Splice(old(sce.bandType), start, AacParse.Fill(cb, k))
        invariant sce.zeroes == Splice(old(sce.zeroes), start, seq(k, _ => cb == 0))
      {
        SplicePush(old(sce.zeroes), start, seq(k, _ => cb == 0), cb == 0);
        SplicePush(old(sce.bandType), start, AacParse.Fill(cb, k), cb);
        assert seq(k, _ => cb == 0) + [cb == 0] == seq(k + 1, _ => cb == 0);
        assert AacParse.Fill(cb, k) + [cb] == AacParse.Fill(cb, k + 1);
        sce.zeroes := sce.zeroes[start + k := cb == 0];
        sce.bandType := sce.bandType[start + k := cb];
      }
    }
  }

  /** The state after sectioning group g at slot at: section data appended, the
      group's slots overwritten, nothing else changed. */
  ghost predicate Placed(g: Group, before: Bits, after: Bits, bt: seq<nat>, bt': seq<nat>, z: seq<bool>, z': seq<bool>,
                         at: nat)
    requires g.Valid() && |bt| == |z| == 128 && at + g.Len() <= 128
  {
    WrittenSo(Chosen(g), RunBits(g.short), before, after, bt, bt', z, z', at)
  }

  /** The same for a prefix of the sections. */
  ghost predicate WrittenSo(s: seq<Section>, runBits: nat, before: Bits, after: Bits, bt: seq<nat>, bt': seq<nat>,
                            z: seq<bool>, z': seq<bool>, at: nat)
    requires runBits > 1 && |bt| == |z| == 128
  {
    && at + |Expand(Out(s))| <= 128
    && after == before + PrintSections(Out(s), runBits)
    && bt' == Splice(bt, at, Expand(Out(s)))
    && z' == Splice(z, at, IsZero(Expand(Out(s))))
  }

  lemma WrittenStep(s: seq<Section>, x: Section, runBits: nat, w0: Bits, w1: Bits, w2: Bits,
                    b0: seq<nat>, b1: seq<nat>, b2: seq<nat>, z0: seq<bool>, z1: seq<bool>, z2: seq<bool>, at: nat)
    requires runBits > 1 && |b0| == |z0| == 128 && at + |Expand(Out(s))| + x.run <= 128
    requires WrittenSo(s, runBits, w0, w1, b0, b1, z0, z1, at)
    requires w2 == w1 + ToBits(4, CbOut(x.cb)) + PrintRun(x.run, runBits)
    requires b2 == Splice(b1, at + |Expand(Out(s))|, AacParse.Fill(CbOut(x.cb), x.run))
    requires z2 == Splice(z1, at + |Expand(Out(s))|, seq(x.run, _ => CbOut(x.cb) == 0))
    ensures WrittenSo(s + [x], runBits, w0, w2, b0, b2, z0, z2, at)
  {
    hide PrintRun, ToBits, PrintSections, Expand;
    var y := Section(CbOut(x.cb), x.run);
    assert Out(s + [x]) == Out(s) + [y];
    PrintSectionsSnoc(Out(s), y, runBits);
    ExpandSnoc(Out(s), y);
    var e, e' := Expand(Out(s)), Expand(Out(s + [x]));
    SpliceTwice(b0, at, e, AacParse.Fill(y.cb, y.run));
    SpliceTwice(z0, at, IsZero(e), seq(x.run, _ => y.cb == 0));
    assert IsZero(e') == IsZero(e) + seq(x.run, _ => y.cb == 0);
  }

  lemma SpliceTwice<T>(s: seq<T>, at: nat, x: seq<T>, y: seq<T>)
    requires at + |x| + |y| <= |s|
    ensures Splice(Splice(s, at, x), at + |x|, y) == Splice(s, at, x + y)
  {
  }

  lemma SpliceNone<T>(s: seq<T>, at: nat)
    requires at <= |s|
    ensures Splice(s, at, []) == s
  {
  }

  lemma SplicePush<T>(s: seq<T>, at: nat, x: seq<T>, v: T)
    requires at + |x| < |s|
    ensures Splice(s, at, x)[at + |x| := v] == Splice(s, at, x + [v])
  {
  }

  function Reverse(s: seq<Section>): seq<Section> {
    if |s| == 0 then [] else [s[|s| - 1]] + Reverse(s[..|s| - 1])
  }

  lemma ReversePush(s: seq<Section>, x: Section)
    ensures Reverse(s + [x]) == [x] + Reverse(s)
  {
    assert (s + [x])[..|s|] == s;
  }

  lemma {:induction false} ReverseLength(s: seq<Section>)
    ensures |Reverse(s)| == |s|
  {
    if |s| > 0 {
      ReverseLength(s[..|s| - 1]);
    }
  }

  lemma {:induction false} ReverseAt(s: seq<Section>, k: nat)
    requires k < |s|
    ensures |Reverse(s)| == |s| && Reverse(s)[k] == s[|s| - 1 - k]
  {
    ReverseLength(s);
    if k > 0 {
      ReverseAt(s[..|s| - 1], k - 1);
    }
  }

  lemma EmptyReverse()
    ensures Reverse([]) == []
  {
  }

  lemma WrittenNone(runBits: nat, w: Bits, b: seq<nat>, z: seq<bool>, at: nat)
    requires runBits > 1 && |b| == |z| == 128 && at <= 128
    ensures WrittenSo([], runBits, w, w, b, b, z, z, at) && Total([]) == 0
  {
    assert Out([]) == [] && IsZero([]) == [];
    assert Expand([]) == [];
  }

  lemma TotalSnoc(s: seq<Section>, x: Section)
    ensures Total(s + [x]) == Total(s) + x.run
  {
    assert (s + [x])[..|s|] == s;
  }

  lemma RunChunk(run: nat, runBits: nat)
    requires runBits > 1
    ensures var esc := Pow2(runBits) - 1;
            PrintRun(run, runBits) == if run >= esc then ToBits(runBits, esc) + PrintRun(run - esc, runBits)
                else ToBits(runBits, run)
  {
  }

  lemma LiveReaches(g: Group, rows: seq<seq<Cell>>, n: nat, cb: nat)
    requires g.Valid() && n == g.Len() && rows == Rows(g, n) && cb == Winner(rows[n], CB_TOT_ALL)
             && Live(g, rows, n, cb)
    ensures Reaches(rows, n, cb) && Chosen(g) == Track(rows, n, cb) && (n == 0 ==> Chosen(g) == [])
  {
  }

  lemma BackStep(rows: seq<seq<Cell>>, pos: nat, cb: nat)
    requires IsRows(rows) && 0 < pos < |rows| && cb < CB_TOT_ALL && Reaches(rows, pos, cb)
    ensures var run := rows[pos][cb].run;
            1 <= run <= pos &&
            var p := rows[pos - run + 1][cb].prev;
            (pos > run ==> 0 <= p < CB_TOT_ALL && Reaches(rows, pos - run, p)) &&
            Track(rows, pos, cb) == (if pos > run then Track(rows, pos - run, p) else []) + [Section(cb, run)]
  {
  }

  lemma RowBestPrefix(g: Group, b: nat, row: seq<Cell>, more: seq<Cell>, n: nat)
    requires b < g.Len() == |g.bt| && n <= |row| <= |more| && more[..n] == row[..n]
    ensures RowBest(g, b, row, n) == RowBest(g, b, more, n)
  {
    if n > 0 {
      assert row[n - 1] == row[..n][n - 1] && more[n - 1] == more[..n][n - 1];
      assert more[..n - 1] == more[..n][..n - 1] && row[..n - 1] == row[..n][..n - 1];
      RowBestPrefix(g, b, row, more, n - 1);
    }
  }

  lemma ChosenTotal(g: Group)
    requires g.Valid()
    ensures Total(Chosen(g)) == g.Len() && AllowedAll(g, Chosen(g))
    ensures |Expand(Out(Chosen(g)))| == g.Len()
  {
    WinnerLive(g);
    ExpandAllowed(g, Chosen(g));
  }

  /** A prefix of the sections covers no more bands than all of them. */
  lemma {:induction false} TotalPrefix(s: seq<Section>, k: nat)
    requires k <= |s|
    ensures Total(s[..k]) <= Total(s) && |Expand(Out(s[..k]))| == Total(s[..k])
    decreases |s|
  {
    if k == |s| {
      assert s[..k] == s;
      ExpandTotal(s);
    } else {
      assert s[..|s| - 1][..k] == s[..k];
      TotalPrefix(s[..|s| - 1], k);
    }
  }

  lemma {:induction false} ExpandTotal(s: seq<Section>)
    ensures |Expand(Out(s))| == Total(s)
    decreases |s|
  {
    if |s| > 0 {
      var t, x := s[..|s| - 1], s[|s| - 1];
      assert Out(s) == Out(t) + [Section(CbOut(x.cb), x.run)];
      ExpandSnoc(Out(t), Section(CbOut(x.cb), x.run));
      ExpandTotal(t);
    }
  }

  /** Sectioning is exact: the written sections exactly cover the group with
      allowed codebooks, the decoder recovers them, and the winning cost is the
      section bits plus the spectral bits, short of 3 bits for each short-window
      run of exactly 14 bands. */
  lemma SectioningCorrect(g: Group, c: BitReader.Cursor)
    requires g.Valid() && c.Valid() && !c.over
    requires c.Ahead(PrintSections(Out(Chosen(g)), RunBits(g.short)))
    ensures var s := Chosen(g);
            var bt := Expand(Out(s));
            && |bt| == g.Len()
            && (forall b: nat :: b < g.Len() ==> g.Allowed(b, CbIn(bt[b])) && bt[b] == CbOut(CbIn(bt[b])))
            && (forall i :: 0 <= i < |s| ==> GoodSection(Out(s)[i]))
            && ParseSections(c, RunBits(g.short), g.Len(), 0, [])
                == Good(bt, c.Adv(|PrintSections(Out(s), RunBits(g.short))|))
            && (g.Len() > 0 ==>
                  var w := Winner(Rows(g, g.Len())[g.Len()], CB_TOT_ALL);
                  Rows(g, g.Len())[g.Len()][w].cost + 3 * Underpriced(g.short, s)
                  == |PrintSections(Out(s), RunBits(g.short))| + SpectralBits(g, s))
  {
    var s := Chosen(g);
    WinnerLive(g);
    ExpandAllowed(g, s);
    PriceIsBits(g, s);
    RoundTripSide.Sections(c, RunBits(g.short), Out(s), 0, g.Len(), []);
    assert [] + Expand(Out(s)) == Expand(Out(s));
  }
}
