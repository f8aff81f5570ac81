/** How good the sectioning the search finds is. It is least in a group of fewer
    bands than one run value holds, can miss the least from there on, and is never
    worse than the least by more than one run value a section. */
module SectionOptimality {
  import opened AacSyntax
  import opened AacParse
  import opened AacPrint
  import opened SectionTrellis

  /** The run value that escapes to another chunk. */
  function Esc(short: bool): nat {
    if short then 7 else 31
  }

  /** The bits of section data and spectrum. */
  function Bits(g: Group, s: seq<Section>): nat {
    |PrintSections(Out(s), RunBits(g.short))| + SpectralBits(g, s)
  }

  ghost predicate Covering(g: Group, s: seq<Section>)
    requires g.Valid()
  {
    AllowedAll(g, s) && Total(s) == g.Len()
  }

  /** No legal sectioning takes fewer bits than the chosen one. */
  ghost predicate Least(g: Group)
    requires g.Valid()
  {
    forall s :: Covering(g, s) ==> Bits(g, Chosen(g)) <= Bits(g, s)
  }

  lemma BitsSnoc(g: Group, t: seq<Section>, x: Section)
    requires g.Valid()
    ensures Bits(g, t + [x]) == Bits(g, t) + 4 + |PrintRun(x.run, RunBits(g.short))|
            + BandBits(g, Total(t), x.cb, x.run)
    ensures Bits(g, []) == 0
  {
    hide BandBits, PrintRun;
    assert (t + [x])[..|t|] == t;
    assert Out(t + [x]) == Out(t) + [Section(CbOut(x.cb), x.run)];
    PrintSectionsSnoc(Out(t), Section(CbOut(x.cb), x.run), RunBits(g.short));
  }

  lemma RowIs(g: Group, b: nat)
    requires g.Valid() && b < g.Len()
    ensures Rows(g, b + 1)[b + 1] == NextRow(g, b, Rows(g, b)[b], BestAt(g, b, Rows(g, b)[b]))
  {
  }

  // ----- the bound

  /** When a chunk boundary can have been crossed n times by the k-th band of a
      section, the search's own run being run: crossings, and new sections in their
      place, are a chunk apart. */
  predicate Far(short: bool, n: nat, run: nat, k: nat) {
    n > 0 ==>
      var apart := if short then 6 * (n - 1) else 30 * (n - 1);
      && k >= 2 + apart
      && (run < Esc(short) ==> run + 1 + apart <= k)
      && (short && 7 <= run <= 14 ==> run <= k + 7 - apart)
  }

  function Crosses(short: bool, run: nat): nat {
    if RunValueBits(short, run) != RunValueBits(short, run + 1) then 1 else 0
  }

  lemma FarStep(short: bool, n: nat, run: nat, k: nat)
    requires Far(short, n, run, k) && k >= 1 && run < (if short then 15 else 51)
    ensures Far(short, n + Crosses(short, run), run + 1, k + 1) && Far(short, n + Crosses(short, run), 1, k + 1)
  {
  }

  /** So many crossings are no more than the chunks of the run itself. */
  lemma FarRun(short: bool, n: nat, run: nat, k: nat)
    requires Far(short, n, run, k) && 1 <= k <= (if short then 15 else 51)
    ensures RunBits(short) * n <= |PrintRun(k, RunBits(short))| && RunBits(short) <= |PrintRun(k, RunBits(short))|
  {
    RunLength(short, k);
    if short {
      assert n <= 3;
    } else {
      assert n <= 2;
    }
  }

  /** The allowance for a number of sections. */
  function Slack(g: Group, sections: nat): nat {
    if g.Len() < Esc(g.short) then 0 else RunBits(g.short) * sections
  }

  lemma CellCheap(g: Group, b: nat, cb: nat, best: Best, n: nat, k: nat, limit: int)
    requires g.Valid() && b < g.Len() && cb < CB_TOT_ALL && g.Allowed(b, cb)
    requires best == BestAt(g, b, Rows(g, b)[b])
    requires Far(g.short, n, Rows(g, b)[b][cb].run, k) && k >= 1 && Rows(g, b)[b][cb].run <= b
    requires Rows(g, b)[b][cb].cost <= limit + RunBits(g.short) * n
    ensures var cell := Rows(g, b + 1)[b + 1][cb];
            var n' := n + Crosses(g.short, Rows(g, b)[b][cb].run);
            && Far(g.short, n', cell.run, k + 1) && cell.run <= b + 1
            && cell.cost <= limit + g.bits[b][cb] + RunBits(g.short) * n'
            && (g.Len() < Esc(g.short) ==> n' == n)
  {
    hide Rows, Far, BestAt;
    RowIs(g, b);
    FarStep(g.short, n, Rows(g, b)[b][cb].run, k);
  }

  lemma OpenCheap(g: Group, b: nat, cb: nat)
    requires g.Valid() && b < g.Len() && cb < CB_TOT_ALL && g.Allowed(b, cb) && Rows(g, b)[b][cb].run <= b
    requires b > 0 ==> BestAt(g, b, Rows(g, b)[b]).cost.Some?
    ensures var cell := Rows(g, b + 1)[b + 1][cb];
            && cell.run <= b + 1
            && cell.cost <= (if b > 0 then BestAt(g, b, Rows(g, b)[b]).cost.value else 0) + g.bits[b][cb]
                + Header(g.short)
  {
    RowIs(g, b);
    NoJump(g.short);
  }

  /** The search's cell after k bands of a section in codebook cb behind t costs at
      most what these take with one run value each, and n crossings. */
  lemma {:induction false} Near(g: Group, t: seq<Section>, cb: nat, k: nat) returns (n: nat)
    requires g.Valid() && AllowedAll(g, t) && k >= 1 && Total(t) + k <= g.Len() && AllowedRun(g, Total(t), cb, k)
    ensures var cell := Rows(g, Total(t) + k)[Total(t) + k][cb];
            && Far(g.short, n, cell.run, k) && cell.run <= Total(t) + k
            && cell.cost <= Bits(g, t) + Slack(g, |t|) + Header(g.short) + BandBits(g, Total(t), cb, k)
                + RunBits(g.short) * n
    ensures g.Len() < Esc(g.short) ==> n == 0
    decreases |t|, k
  {
    hide Rows, Far, Bits, BestAt, PrintRun, BandBits, Group.Valid, Group.Allowed, AllowedAll, AllowedRun, RunValueBits;
    var b := Total(t) + k - 1;
    RunFits(g, Total(t), cb, k);
    OneBand(g, Total(t), cb, k - 1);
    if k > 1 {
      n := Near(g, t, cb, k - 1);
      var best := BestAt(g, b, Rows(g, b)[b]);
      CellCheap(g, b, cb, best, n, k - 1, Bits(g, t) + Slack(g, |t|) + Header(g.short)
                + BandBits(g, Total(t), cb, k - 1));
      n := n + Crosses(g.short, Rows(g, b)[b][cb].run);
    } else {
      n := 0;
      NoneCrossed(g.short);
      RunsFit(g, b, cb);
      if |t| > 0 {
        NearEnd(g, t);
      } else {
        StartOfAll(g);
      }
      OpenCheap(g, b, cb);
      FarNone(g.short, Rows(g, b + 1)[b + 1][cb].run);
    }
  }

  lemma RunFits(g: Group, a: nat, cb: nat, k: nat)
    requires g.Valid() && AllowedRun(g, a, cb, k) && k >= 1
    ensures a + k <= g.Len() == |g.bt| && cb < CB_TOT_ALL && g.Allowed(a + k - 1, cb)
  {
  }

  lemma FarNone(short: bool, run: nat)
    ensures Far(short, 0, run, 1)
  {
  }

  lemma NoneCrossed(short: bool)
    ensures Crosses(short, 0) == 0
  {
  }

  lemma StartOfAll(g: Group)
    requires g.Valid()
    ensures Total([]) == 0 && Bits(g, []) == 0
  {
  }

  lemma RunsFit(g: Group, b: nat, cb: nat)
    requires g.Valid() && b <= g.Len() && cb < CB_TOT_ALL
    ensures Rows(g, b)[b][cb].run <= b
    ensures b > 0 ==> BestAt(g, b, Rows(g, b)[b]).cost.Some?
  {
    hide Live;
    SearchOk(g, b);
  }

  /** The best cell behind a whole sectioning. */
  lemma {:induction false} NearEnd(g: Group, s: seq<Section>)
    requires g.Valid() && AllowedAll(g, s) && 0 < |s| && Total(s) <= g.Len()
    ensures Total(s) > 0 && AllowedRun(g, Total(s[..|s| - 1]), s[|s| - 1].cb, s[|s| - 1].run)
    ensures Rows(g, Total(s))[Total(s)][s[|s| - 1].cb].cost <= Bits(g, s) + Slack(g, |s|)
    ensures BestAt(g, Total(s), Rows(g, Total(s))[Total(s)]).cost.Some?
    ensures BestAt(g, Total(s), Rows(g, Total(s))[Total(s)]).cost.value <= Bits(g, s) + Slack(g, |s|)
    decreases |s|, 0
  {
    hide Rows, Far, Bits, PrintRun, BandBits, Group.Valid, RunValueBits, Group.Allowed, AllowedAll, AllowedRun, Total,
         BestAt, Slack;
    var t, x := s[..|s| - 1], s[|s| - 1];
    assert s == t + [x];
    BitsSnoc(g, t, x);
    Snoc(g, t, x);
    var n := Near(g, t, x.cb, x.run);
    var b := Total(s);
    LenFits(g);
    RunFits(g, Total(t), x.cb, x.run);
    FarRun(g.short, n, Rows(g, b)[b][x.cb].run, x.run);
    SlackStep(g, |t|, n);
    BestBelow(g, b, x.cb);
  }

  lemma SlackStep(g: Group, sections: nat, n: nat)
    requires g.Len() < Esc(g.short) ==> n == 0
    ensures Slack(g, sections) + RunBits(g.short) * n + RunBits(g.short)
            <= Slack(g, sections + 1) + if n > 0 then RunBits(g.short) * n else RunBits(g.short)
  {
  }

  lemma BestBelow(g: Group, b: nat, cb: nat)
    requires g.Valid() && 0 < b <= g.Len() && cb < CB_TOT_ALL && g.Allowed(b - 1, cb)
    ensures BestAt(g, b, Rows(g, b)[b]).cost.Some? && BestAt(g, b, Rows(g, b)[b]).cost.value <= Rows(g, b)[b][cb].cost
  {
    hide Rows;
    RowBestIs(g, b - 1, Rows(g, b)[b], CB_TOT_ALL);
  }

  lemma LenFits(g: Group)
    requires g.Valid()
    ensures g.Len() <= (if g.short then 15 else 51)
  {
  }

  lemma ChosenCost(g: Group)
    requires g.Valid() && g.Len() > 0
    ensures var row := Rows(g, g.Len())[g.Len()];
            && Price(g, Chosen(g)) == row[Winner(row, CB_TOT_ALL)].cost
            && Covering(g, Chosen(g))
  {
    WinnerLive(g);
  }

  lemma {:induction false} FewUnderpriced(short: bool, s: seq<Section>)
    ensures !short || Total(s) < 14 ==> Underpriced(short, s) == 0
    ensures Underpriced(short, s) * 14 <= Total(s)
    decreases |s|
  {
    if |s| > 0 {
      FewUnderpriced(short, s[..|s| - 1]);
    }
  }

  lemma {:induction false} NoBands(g: Group, s: seq<Section>)
    requires g.Valid() && AllowedAll(g, s) && Total(s) == 0
    ensures s == []
  {
  }

  /** The search's own cost is at most the bits of any legal sectioning and, from
      the length of one run value on, one run value for each of its sections. */
  lemma NearLeast(g: Group, s: seq<Section>)
    requires g.Valid() && Covering(g, s)
    ensures Price(g, Chosen(g)) <= Bits(g, s) + Slack(g, |s|)
    ensures Bits(g, Chosen(g)) <= Bits(g, s) + Slack(g, |s|) + if g.short && g.Len() >= 14 then 3 else 0
  {
    hide Rows, Bits, BandBits, Group.Valid, PrintRun, Winner;
    LenFits(g);
    if g.Len() == 0 {
      NoBands(g, s);
      WinnerLive(g);
      NoBands(g, Chosen(g));
      StartOfAll(g);
    } else {
      ChosenCost(g);
      NearEnd(g, s);
      WinnerLeast(Rows(g, g.Len())[g.Len()], CB_TOT_ALL, s[|s| - 1].cb);
    }
    BitsArePrice(g, Chosen(g));
    FewUnderpriced(g.short, Chosen(g));
  }

  lemma BitsArePrice(g: Group, s: seq<Section>)
    requires g.Valid() && AllowedAll(g, s) && Total(s) <= g.Len()
    ensures Bits(g, s) == Price(g, s) + 3 * Underpriced(g.short, s)
  {
    PriceIsBits(g, s);
  }

  /** In a group of fewer bands than a run value holds the choice is the least. */
  lemma LeastBelowChunk(g: Group)
    requires g.Valid() && g.Len() < Esc(g.short)
    ensures Least(g)
  {
    hide Bits;
    forall s | Covering(g, s) ensures Bits(g, Chosen(g)) <= Bits(g, s) {
      NearLeast(g, s);
    }
  }

  // ----- the least is missed from that length on

  /** What a band of four coefficients usually takes here. */
  const PLAIN: nat := 8

  /** zeros bands without coefficients, then as many as a run value escapes at. Two
      codebooks may code these: 10, which is dear for the first, and 11, which is
      dear for the last two. */
  function Trap(short: bool, zeros: nat): (g: Group)
    ensures g.Len() == zeros + Esc(short) && g.short == short
  {
    var n := zeros + Esc(short);
    Group(short, seq(n, b => b < zeros), seq(n, _ => 10), seq(n, _ => 4),
          seq(n, b => seq(CB_TOT_ALL, cb => TrapBits(short, zeros, b, cb))))
  }

  function TrapBits(short: bool, zeros: nat, b: int, cb: int): nat {
    if b < zeros then 0
    else if cb == 10 && b == zeros then PLAIN + Header(short) - 1
    else if cb == 11 && b >= zeros + Esc(short) - 2 then PLAIN + Header(short)
    else PLAIN
  }

  predicate TrapFits(short: bool, zeros: nat) {
    zeros + Esc(short) <= (if short then 15 else 51)
  }

  lemma {:induction false} SumFours(n: nat)
    ensures Sum(seq(n, _ => 4)) == 4 * n
  {
    if n > 0 {
      assert seq(n, _ => 4)[1..] == seq(n - 1, _ => 4);
      SumFours(n - 1);
    }
  }

  lemma TrapValid(short: bool, zeros: nat)
    requires TrapFits(short, zeros)
    ensures Trap(short, zeros).Valid()
    ensures forall b: nat, cb: nat :: b < zeros + Esc(short) && cb < CB_TOT_ALL ==>
              (Trap(short, zeros).Allowed(b, cb) <==> if b < zeros then cb == 0 else cb == 10 || cb == 11)
    ensures forall b: nat, cb: nat :: b < zeros + Esc(short) && cb < CB_TOT_ALL ==>
              Trap(short, zeros).bits[b][cb] == TrapBits(short, zeros, b, cb)
  {
    var g := Trap(short, zeros);
    SumFours(g.Len());
    assert g.width == seq(g.Len(), _ => 4);
  }

  /** What the bands without coefficients cost. */
  function ZeroCost(short: bool, zeros: nat): nat {
    if zeros == 0 then 0 else 4 + RunValueBits(short, zeros)
  }

  /** The search after b of them: only codebook 0 is alive. */
  ghost predicate InZeros(g: Group, b: nat)
    requires g.Valid() && b <= g.Len()
  {
    && Rows(g, b)[b][0] == Cell(0, ZeroCost(g.short, b), b)
    && BestAt(g, b, Rows(g, b)[b]) == Best(Some(ZeroCost(g.short, b)), 0)
    && forall cb: nat :: 1 <= cb < CB_TOT_ALL ==> Rows(g, b)[b][cb] == DEAD
  }

  lemma BestIs(g: Group, b: nat, row: seq<Cell>, cb: nat)
    requires g.Valid() && b < g.Len() && |row| == CB_TOT_ALL && cb < CB_TOT_ALL && g.Allowed(b, cb)
    requires forall c: nat :: c < CB_TOT_ALL && g.Allowed(b, c) && c != cb ==> row[cb].cost < row[c].cost
    ensures RowBest(g, b, row, CB_TOT_ALL) == Best(Some(row[cb].cost), cb)
  {
    RowBestIs(g, b, row, CB_TOT_ALL);
  }

  lemma {:induction false} ZerosSearch(short: bool, zeros: nat, b: nat)
    requires TrapFits(short, zeros) && 1 <= b <= zeros
    ensures Trap(short, zeros).Valid() && InZeros(Trap(short, zeros), b)
    decreases b
  {
    hide Rows, Group.Valid, Group.Allowed, RowBest, Trap, TrapBits;
    var g := Trap(short, zeros);
    TrapValid(short, zeros);
    RowIs(g, b - 1);
    if b == 1 {
      FirstIs(g);
    } else {
      ZerosSearch(short, zeros, b - 1);
    }
    ZeroBits(short, zeros, b - 1);
    OneChunk(short);
    JumpIs(short, b - 1);
    BestIs(g, b - 1, Rows(g, b)[b], 0);
  }

  lemma ZeroBits(short: bool, zeros: nat, b: nat)
    requires b < zeros
    ensures TrapBits(short, zeros, b, 0) == 0
  {
  }

  lemma FirstIs(g: Group)
    requires g.Valid()
    ensures Rows(g, 0)[0] == FirstRow(g.short) && BestAt(g, 0, Rows(g, 0)[0]) == Best(None, 0)
  {
  }

  /** The search i bands further on: codebook 10 is held on to, since opening it
      later would have cost as much, until its run escapes. */
  ghost predicate InTrap(short: bool, zeros: nat, i: nat)
    requires Trap(short, zeros).Valid() && i <= Esc(short)
  {
    var g, b, k := Trap(short, zeros), zeros + i, ZeroCost(short, zeros) + Header(short) + PLAIN * i;
    var row := Rows(g, b)[b];
    var late := i > Esc(short) - 2;
    && row[10].cost == k + Header(short) - 1 + (if i == Esc(short) then RunBits(short) else 0) && row[10].run == i
    && (if i == Esc(short) then row[11].cost >= k + 2 * Header(short)
        else row[11].cost == k + (if late then Header(short) else 0) && row[11].run == i)
    && (forall cb: nat :: cb < CB_TOT_ALL && cb != 10 && cb != 11 ==> row[cb].cost == BIG)
    && BestAt(g, b, row) == if late then Best(Some(row[10].cost), 10) else Best(Some(k), 11)
  }

  lemma TrapOpens(short: bool, zeros: nat)
    requires TrapFits(short, zeros)
    ensures Trap(short, zeros).Valid() && InTrap(short, zeros, 1)
  {
    hide Rows, Group.Valid, Group.Allowed, RowBest, Trap, TrapBits;
    var g := Trap(short, zeros);
    TrapValid(short, zeros);
    RowIs(g, zeros);
    if zeros == 0 {
      FirstIs(g);
    } else {
      ZerosSearch(short, zeros, zeros);
    }
    TrapFirst(short, zeros);
    NoJump(short);
    BestIs(g, zeros, Rows(g, zeros + 1)[zeros + 1], 11);
  }

  lemma TrapFirst(short: bool, zeros: nat)
    ensures TrapBits(short, zeros, zeros, 10) == PLAIN + Header(short) - 1 && TrapBits(short, zeros, zeros, 11) == PLAIN
  {
  }

  lemma TrapStep(short: bool, zeros: nat, i: nat)
    requires TrapFits(short, zeros) && 1 <= i < Esc(short) && Trap(short, zeros).Valid() && InTrap(short, zeros, i)
    ensures InTrap(short, zeros, i + 1)
  {
    hide Rows, Group.Valid, Group.Allowed, RowBest, Trap;
    var g := Trap(short, zeros);
    TrapValid(short, zeros);
    RowIs(g, zeros + i);
    var row := Rows(g, zeros + i + 1)[zeros + i + 1];
    BestIs(g, zeros + i, row, if i + 1 > Esc(short) - 2 then 10 else 11);
  }

  lemma {:induction false} TrapSearch(short: bool, zeros: nat, i: nat)
    requires TrapFits(short, zeros) && 1 <= i <= Esc(short)
    ensures Trap(short, zeros).Valid() && InTrap(short, zeros, i)
    decreases i
  {
    hide InTrap, Group.Valid;
    TrapOpens(short, zeros);
    if i > 1 {
      TrapSearch(short, zeros, i - 1);
      TrapStep(short, zeros, i - 1);
    }
  }

  /** A cheaper sectioning: codebook 11 while it is plain, then 10. */
  function Escape(short: bool, zeros: nat): seq<Section> {
    (if zeros > 0 then [Section(0, zeros)] else []) + [Section(11, Esc(short) - 2)] + [Section(10, 2)]
  }

  /** Bands that all cost the same in a codebook. */
  lemma {:induction false} EvenRun(g: Group, b: nat, cb: nat, n: nat, each: nat)
    requires g.Valid() && b + n <= g.Len() && cb < CB_TOT_ALL
    requires forall i: nat :: b <= i < b + n ==> g.bits[i][cb] == each && g.Allowed(i, cb)
    ensures BandBits(g, b, cb, n) == each * n && AllowedRun(g, b, cb, n)
  {
    if n > 0 {
      EvenRun(g, b, cb, n - 1, each);
      assert each * n == each * (n - 1) + each;
    }
  }

  lemma TrapRuns(short: bool, zeros: nat)
    requires TrapFits(short, zeros)
    ensures Trap(short, zeros).Valid()
    ensures var g := Trap(short, zeros);
            && BandBits(g, 0, 0, zeros) == 0 && AllowedRun(g, 0, 0, zeros)
            && BandBits(g, zeros, 11, Esc(short) - 2) == PLAIN * (Esc(short) - 2)
            && AllowedRun(g, zeros, 11, Esc(short) - 2)
            && BandBits(g, zeros + Esc(short) - 2, 10, 2) == PLAIN * 2
            && AllowedRun(g, zeros + Esc(short) - 2, 10, 2)
  {
    hide Trap, Group.Valid, BandBits, AllowedRun, Group.Allowed;
    var g := Trap(short, zeros);
    TrapValid(short, zeros);
    EvenRun(g, 0, 0, zeros, 0);
    EvenRun(g, zeros, 11, Esc(short) - 2, PLAIN);
    EvenRun(g, zeros + Esc(short) - 2, 10, 2, PLAIN);
  }

  /** Adding a section. */
  lemma AddSection(g: Group, t: seq<Section>, cb: nat, n: nat)
    requires g.Valid() && AllowedAll(g, t) && n > 0 && AllowedRun(g, Total(t), cb, n)
    ensures AllowedAll(g, t + [Section(cb, n)]) && Total(t + [Section(cb, n)]) == Total(t) + n
    ensures Bits(g, t + [Section(cb, n)])
            == Bits(g, t) + 4 + |PrintRun(n, RunBits(g.short))| + BandBits(g, Total(t), cb, n)
  {
    hide Group.Valid, BandBits, AllowedRun, Bits, PrintRun, AllowedAll, Total;
    Snoc(g, t, Section(cb, n));
    BitsSnoc(g, t, Section(cb, n));
  }

  lemma ZeroSection(short: bool, zeros: nat)
    requires TrapFits(short, zeros)
    ensures Trap(short, zeros).Valid()
    ensures var g := Trap(short, zeros);
            var z: seq<Section> := if zeros > 0 then [Section(0, zeros)] else [];
            AllowedAll(g, z) && Total(z) == zeros && Bits(g, z) == ZeroCost(short, zeros)
  {
    hide Trap, Group.Valid, BandBits, AllowedRun, Bits, PrintRun, AllowedAll, Total;
    var g := Trap(short, zeros);
    TrapRuns(short, zeros);
    StartOfAll(g);
    Empty(g);
    if zeros > 0 {
      assert [Section(0, zeros)] == [] + [Section(0, zeros)];
      AddSection(g, [], 0, zeros);
      RunLength(short, zeros);
    }
  }

  lemma EscapeBits(short: bool, zeros: nat)
    requires TrapFits(short, zeros)
    ensures Trap(short, zeros).Valid()
    ensures var g := Trap(short, zeros);
            && Covering(g, Escape(short, zeros))
            && Bits(g, Escape(short, zeros)) == ZeroCost(short, zeros) + 2 * Header(short) + PLAIN * Esc(short)
  {
    hide Trap, Group.Valid, BandBits, AllowedRun, Group.Allowed, Bits, PrintRun, AllowedAll, Total, ZeroCost;
    var g := Trap(short, zeros);
    var z: seq<Section> := if zeros > 0 then [Section(0, zeros)] else [];
    TrapRuns(short, zeros);
    ZeroSection(short, zeros);
    RunLength(short, Esc(short) - 2);
    RunLength(short, 2);
    AddSection(g, z, 11, Esc(short) - 2);
    AddSection(g, z + [Section(11, Esc(short) - 2)], 10, 2);
  }

  /** The search ends dearer. */
  lemma TrapMisses(short: bool, zeros: nat)
    requires TrapFits(short, zeros)
    ensures Trap(short, zeros).Valid() && !Least(Trap(short, zeros))
  {
    hide Trap, Group.Valid, Rows, Bits, Winner, BandBits;
    var g := Trap(short, zeros);
    EscapeBits(short, zeros);
    TrapSearch(short, zeros, Esc(short));
    ChosenCost(g);
    BitsArePrice(g, Chosen(g));
  }

  /** For groups of n bands the search finds the least sectioning whatever the bits
      exactly when n is below the escape value: 7 in short windows, 31 in long. */
  lemma LeastExactly(short: bool, n: nat)
    requires n <= (if short then 15 else 51)
    ensures (forall g: Group :: g.Valid() && g.short == short && g.Len() == n ==> Least(g)) <==> n < Esc(short)
  {
    hide Least, Group.Valid;
    if n < Esc(short) {
      forall g: Group | g.Valid() && g.short == short && g.Len() == n ensures Least(g) {
        LeastBelowChunk(g);
      }
    } else {
      TrapMisses(short, n - Esc(short));
    }
  }
}
