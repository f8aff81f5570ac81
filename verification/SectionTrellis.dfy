/** The run-length codebook sectioning of one window group: the dynamic program
    over bands and codebooks, its backtrack, and what the result costs. */
module SectionTrellis {
  import opened BitStrings
  import opened AacSyntax
  import opened AacParse
  import opened AacPrint

  const CB_TOT_ALL: nat := 15
  const BIG: nat := 61450

  /** Codebook index 0..14 to band type. */
  function CbOut(cb: nat): nat {
    if cb < 12 then cb else cb + 1
  }

  /** Band type to codebook index. */
  function CbIn(bt: nat): nat {
    if bt < 12 then bt else if bt == 12 then 0 else bt - 1
  }

  /** The tabulated cost of a run, as the search sees it. */
  function RunValueBits(short: bool, run: nat): nat {
    if short then (if run < 7 then 3 else if run < 15 then 6 else 9)
    else (if run < 31 then 5 else if run < 63 then 10 else 15)
  }

  /** One group: for each band whether it is zero, its least codebook, its width in
      coefficients over the group, and the exact bits each codebook would take. */
  datatype Group = Group(short: bool, zero: seq<bool>, bt: seq<nat>, width: seq<nat>, bits: seq<seq<nat>>) {
    function Len(): nat { |zero| }

    ghost predicate Valid() {
      && |bt| == |width| == |bits| == |zero| <= (if short then 15 else 51)
      && (forall b :: 0 <= b < |zero| ==> |bits[b]| == CB_TOT_ALL && bt[b] < 16)
      // no codeword takes more than 28 bits a coefficient, and a group has 1024
      && (forall b, cb :: 0 <= b < |zero| && 0 <= cb < CB_TOT_ALL ==> bits[b][cb] <= 28 * width[b])
      && (forall b :: 0 <= b < |zero| && zero[b] ==> bits[b][0] == 0)
      // a codeword takes at least one bit and stands for at most four coefficients
      && (forall b, cb :: 0 <= b < |zero| && !zero[b] && 1 <= cb < 12 && CbIn(bt[b]) <= cb ==>
            width[b] <= 4 * bits[b][cb])
      && Sum(width) <= 1024
    }

    /** The codebooks the search may give band b. */
    predicate Allowed(b: nat, cb: nat)
      requires b < |zero| && |bt| == |zero|
    {
      if zero[b] then cb == 0
      else CbIn(bt[b]) <= cb < CB_TOT_ALL && (cb >= 12 ==> bt[b] == CbOut(cb))
    }
  }

  function Header(short: bool): nat {
    RunBits(short) + 4
  }

  datatype Cell = Cell(prev: int, cost: nat, run: nat)

  const DEAD := Cell(-1, BIG, 0)

  /** The cheapest finished cell so far, none before the first band. */
  datatype Best = Best(cost: Option<nat>, cb: nat)

  /** Extending the current section, or opening a new one behind the best cell. */
  function StepCell(short: bool, prev: Cell, cb: nat, best: Best, bits: nat): Cell {
    var jump := if RunValueBits(short, prev.run) != RunValueBits(short, prev.run + 1) then RunBits(short) else 0;
    var stay := prev.cost + bits + jump;
    if best.cost.Some? && best.cost.value + bits + Header(short) < stay
    then Cell(best.cb, best.cost.value + bits + Header(short), 1)
    else Cell(cb, stay, prev.run + 1)
  }

  function CellAt(g: Group, b: nat, prev: seq<Cell>, best: Best, cb: nat): Cell
    requires g.Valid() && b < g.Len() && |prev| == CB_TOT_ALL && cb < CB_TOT_ALL
  {
    if g.Allowed(b, cb) then StepCell(g.short, prev[cb], cb, best, g.bits[b][cb]) else DEAD
  }

  function NextRow(g: Group, b: nat, prev: seq<Cell>, best: Best): (row: seq<Cell>)
    requires g.Valid() && b < g.Len() && |prev| == CB_TOT_ALL
    ensures |row| == CB_TOT_ALL
  {
    seq(CB_TOT_ALL, cb requires 0 <= cb < CB_TOT_ALL => CellAt(g, b, prev, best, cb))
  }

  /** The first cheapest allowed cell among the first n of a row. */
  function RowBest(g: Group, b: nat, row: seq<Cell>, n: nat): Best
    requires b < g.Len() == |g.bt| && n <= |row|
  {
    if n == 0 then Best(None, 0)
    else
      var r := RowBest(g, b, row, n - 1);
      if g.Allowed(b, n - 1) && (r.cost.None? || row[n - 1].cost < r.cost.value) then Best(Some(row[n - 1].cost), n - 1)
          else r
  }

  function FirstRow(short: bool): (row: seq<Cell>)
    ensures |row| == CB_TOT_ALL
  {
    seq(CB_TOT_ALL, _ => Cell(-1, Header(short), 0))
  }

  /** All rows up to level b. */
  function Rows(g: Group, b: nat): (rows: seq<seq<Cell>>)
    requires g.Valid() && b <= g.Len()
    ensures |rows| == b + 1 && forall i :: 0 <= i <= b ==> |rows[i]| == CB_TOT_ALL
  {
    if b == 0 then [FirstRow(g.short)]
    else
      var r := Rows(g, b - 1);
      r + [NextRow(g, b - 1, r[b - 1], BestAt(g, b - 1, r[b - 1]))]
  }

  /** The best cell of a row at level b. */
  function BestAt(g: Group, b: nat, row: seq<Cell>): Best
    requires g.Valid() && b <= g.Len() && |row| == CB_TOT_ALL
  {
    if b == 0 then Best(None, 0) else RowBest(g, b - 1, row, CB_TOT_ALL)
  }

  ghost predicate IsRows(rows: seq<seq<Cell>>) {
    |rows| > 0 && forall i :: 0 <= i < |rows| ==> |rows[i]| == CB_TOT_ALL
  }

  // ----- what a live cell stands for

  /** The backtrack from (level, cb) reaches level 0 through runs of at least one. */
  predicate Reaches(rows: seq<seq<Cell>>, level: nat, cb: nat)
    requires IsRows(rows) && level < |rows| && cb < CB_TOT_ALL
    decreases level
  {
    level > 0 ==>
      var r := rows[level][cb].run;
      1 <= r <= level &&
      (level > r ==>
         var p := rows[level - r + 1][cb].prev;
         0 <= p < CB_TOT_ALL && Reaches(rows, level - r, p))
  }

  /** The sections the backtrack collects, first band first, by codebook index. */
  function Track(rows: seq<seq<Cell>>, level: nat, cb: nat): seq<Section>
    requires IsRows(rows) && level < |rows| && cb < CB_TOT_ALL && Reaches(rows, level, cb)
    decreases level
  {
    if level == 0 then []
    else
      var r := rows[level][cb].run;
      (if level == r then [] else Track(rows, level - r, rows[level - r + 1][cb].prev)) + [Section(cb, r)]
  }

  /** The search's price of a list of sections covering bands 0.. */
  function Price(g: Group, s: seq<Section>): int
  {
    if |s| == 0 then 0
    else
      var last := s[|s| - 1];
      Price(g, s[..|s| - 1]) + 4 + RunValueBits(g.short, last.run) + BandBits(g, Total(s[..|s| - 1]), last.cb, last.run)
  }

  function Total(s: seq<Section>): nat {
    if |s| == 0 then 0 else Total(s[..|s| - 1]) + s[|s| - 1].run
  }

  /** The spectral bits of n bands from b on in codebook cb. */
  function BandBits(g: Group, b: nat, cb: nat, n: nat): nat {
    if n == 0 then 0
    else
      BandBits(g, b, cb, n - 1) + (if b + n - 1 < |g.bits| && cb < |g.bits[b + n - 1]| then g.bits[b + n - 1][cb]
                                   else 0)
  }

  ghost predicate AllowedRun(g: Group, b: nat, cb: nat, n: nat)
    requires g.Valid()
  {
    b + n <= g.Len() && cb < CB_TOT_ALL && forall i: nat :: b <= i < b + n ==> g.Allowed(i, cb)
  }

  /** Every section gives its bands a codebook they may have. */
  ghost predicate AllowedAll(g: Group, s: seq<Section>)
    requires g.Valid()
    decreases |s|
  {
    |s| > 0 ==>
      var last := s[|s| - 1];
      AllowedAll(g, s[..|s| - 1]) && last.run > 0 && AllowedRun(g, Total(s[..|s| - 1]), last.cb, last.run)
  }

  /** A live cell's backtrack covers its bands, legally, at exactly its cost. */
  ghost predicate Live(g: Group, rows: seq<seq<Cell>>, level: nat, cb: nat)
    requires g.Valid() && IsRows(rows) && level < |rows| && level <= g.Len() && cb < CB_TOT_ALL
  {
    && Reaches(rows, level, cb)
    && Total(Track(rows, level, cb)) == level
    && AllowedAll(g, Track(rows, level, cb))
    && (level > 0 ==> rows[level][cb].cost == Price(g, Track(rows, level, cb)))
  }

  /** Rows beyond a level do not affect it. */
  lemma {:induction false} TrackPrefix(rows: seq<seq<Cell>>, more: seq<seq<Cell>>, level: nat, cb: nat)
    requires IsRows(rows) && IsRows(more) && level < |rows| <= |more| && cb < CB_TOT_ALL
    requires forall i :: 0 <= i <= level ==> rows[i] == more[i]
    ensures Reaches(rows, level, cb) <==> Reaches(more, level, cb)
    ensures Reaches(rows, level, cb) ==> Track(rows, level, cb) == Track(more, level, cb)
    decreases level
  {
    if level > 0 {
      var r := rows[level][cb].run;
      if 1 <= r < level {
        var p := rows[level - r + 1][cb].prev;
        if 0 <= p < CB_TOT_ALL {
          TrackPrefix(rows, more, level - r, p);
        }
      }
    }
  }

  // ----- the search only builds live cells

  /** more is rows, of levels 0..level, with one level added. */
  ghost predicate Extends(rows: seq<seq<Cell>>, more: seq<seq<Cell>>, level: nat) {
    |rows| == level + 1 && |more| == level + 2 && more[..level + 1] == rows && IsRows(more)
  }

  lemma Snoc(g: Group, t: seq<Section>, x: Section)
    requires g.Valid()
    ensures Total(t + [x]) == Total(t) + x.run
    ensures Price(g, t + [x]) == Price(g, t) + 4 + RunValueBits(g.short, x.run) + BandBits(g, Total(t), x.cb, x.run)
    ensures AllowedAll(g, t + [x]) <==> AllowedAll(g, t) && x.run > 0 && AllowedRun(g, Total(t), x.cb, x.run)
  {
    hide RunValueBits, BandBits, AllowedRun;
    assert (t + [x])[..|t|] == t;
  }

  lemma OneBand(g: Group, b: nat, cb: nat, n: nat)
    requires g.Valid() && b + n < g.Len() && cb < CB_TOT_ALL
    ensures BandBits(g, b, cb, n + 1) == BandBits(g, b, cb, n) + g.bits[b + n][cb]
    ensures AllowedRun(g, b, cb, n + 1) <==> AllowedRun(g, b, cb, n) && g.Allowed(b + n, cb)
    ensures AllowedRun(g, b, cb, 0) && BandBits(g, b, cb, 0) == 0
  {
  }

  lemma OpenLive(g: Group, rows: seq<seq<Cell>>, more: seq<seq<Cell>>, level: nat, cb: nat, from: nat)
    requires g.Valid() && IsRows(rows) && level < g.Len() && Extends(rows, more, level)
    requires cb < CB_TOT_ALL && from < CB_TOT_ALL && level > 0 && g.Allowed(level, cb)
    requires Live(g, rows, level, from)
    requires more[level + 1][cb] == Cell(from, rows[level][from].cost + g.bits[level][cb] + Header(g.short), 1)
    ensures Live(g, more, level + 1, cb)
  {
    hide RunValueBits, BandBits, AllowedRun, AllowedAll, Price, Total, Group.Allowed, Group.Valid;
    TrackPrefix(rows, more, level, from);
    var t := Track(rows, level, from);
    assert Track(more, level + 1, cb) == t + [Section(cb, 1)];
    Snoc(g, t, Section(cb, 1));
    OneBand(g, level, cb, 0);
    OneChunk(g.short);
  }

  lemma OneChunk(short: bool)
    ensures 4 + RunValueBits(short, 1) == Header(short)
  {
  }

  lemma FirstLive(g: Group, rows: seq<seq<Cell>>, cb: nat)
    requires g.Valid() && IsRows(rows) && 0 < g.Len() && |rows| == 2
    requires cb < CB_TOT_ALL && g.Allowed(0, cb)
    requires rows[1][cb] == Cell(cb, Header(g.short) + g.bits[0][cb], 1)
    ensures Live(g, rows, 1, cb)
  {
    hide RunValueBits, BandBits, AllowedRun, AllowedAll, Total, Group.Allowed, Group.Valid;
    assert Track(rows, 1, cb) == [] + [Section(cb, 1)];
    Snoc(g, [], Section(cb, 1));
    OneBand(g, 0, cb, 0);
    OneChunk(g.short);
    Empty(g);
  }

  lemma Empty(g: Group)
    requires g.Valid()
    ensures Total([]) == 0 && Price(g, []) == 0 && AllowedAll(g, [])
  {
  }

  lemma StayLive(g: Group, rows: seq<seq<Cell>>, more: seq<seq<Cell>>, level: nat, cb: nat)
    requires g.Valid() && IsRows(rows) && level < g.Len() && Extends(rows, more, level)
    requires cb < CB_TOT_ALL && level > 0 && g.Allowed(level, cb)
    requires Live(g, rows, level, cb)
    requires var c := rows[level][cb];
             var jump := if RunValueBits(g.short, c.run) != RunValueBits(g.short, c.run + 1) then RunBits(g.short)
                 else 0;
             more[level + 1][cb] == Cell(cb, c.cost + g.bits[level][cb] + jump, c.run + 1)
    ensures Live(g, more, level + 1, cb)
  {
    hide RunValueBits, BandBits, AllowedRun, AllowedAll, Price, Total, Group.Allowed, Group.Valid, Reaches, Track;
    var r := rows[level][cb].run;
    var t := StayTrack(rows, more, level, cb);
    Snoc(g, t, Section(cb, r));
    Snoc(g, t, Section(cb, r + 1));
    OneBand(g, level - r, cb, r);
    JumpIs(g.short, r);
  }

  /** Staying in a section lengthens the last run of the backtrack by one. */
  lemma StayTrack(rows: seq<seq<Cell>>, more: seq<seq<Cell>>, level: nat, cb: nat) returns (t: seq<Section>)
    requires IsRows(rows) && Extends(rows, more, level) && cb < CB_TOT_ALL && level > 0
    requires Reaches(rows, level, cb) && more[level + 1][cb].run == rows[level][cb].run + 1
    ensures Reaches(more, level + 1, cb) && 1 <= rows[level][cb].run <= level
    ensures Track(rows, level, cb) == t + [Section(cb, rows[level][cb].run)]
    ensures Track(more, level + 1, cb) == t + [Section(cb, rows[level][cb].run + 1)]
  {
    var r := rows[level][cb].run;
    assert more[level - r + 1] == rows[level - r + 1];
    if level > r {
      var p := rows[level - r + 1][cb].prev;
      TrackPrefix(rows, more, level - r, p);
      t := Track(rows, level - r, p);
    } else {
      t := [];
    }
  }

  /** The tabulated run costs rise by one chunk at a time within the band limits. */
  lemma JumpIs(short: bool, run: nat)
    ensures var jump := if RunValueBits(short, run) != RunValueBits(short, run + 1) then RunBits(short) else 0;
            RunValueBits(short, run + 1) == RunValueBits(short, run) + jump
  {
  }

  ghost predicate RowOk(g: Group, rows: seq<seq<Cell>>, level: nat)
    requires g.Valid() && IsRows(rows) && level < |rows| && level <= g.Len()
  {
    forall cb: nat :: cb < CB_TOT_ALL ==>
        rows[level][cb].run <= level && (rows[level][cb].cost < BIG ==> Live(g, rows, level, cb))
  }

  lemma CellOk(g: Group, rows: seq<seq<Cell>>, more: seq<seq<Cell>>, level: nat, best: Best, cb: nat)
    requires g.Valid() && IsRows(rows) && level < g.Len() && Extends(rows, more, level)
    requires cb < CB_TOT_ALL && RowOk(g, rows, level)
    requires level == 0 ==> rows == [FirstRow(g.short)] && best.cost.None?
    requires level > 0 ==> best.cb < CB_TOT_ALL && best.cost == Some(rows[level][best.cb].cost) && best.cost.value < BIG
    requires more[level + 1][cb] == CellAt(g, level, rows[level], best, cb)
    ensures more[level + 1][cb].run <= level + 1
    ensures more[level + 1][cb].cost < BIG ==> Live(g, more, level + 1, cb)
  {
    hide Live, Reaches, Track, AllowedAll, RunValueBits;
    if g.Allowed(level, cb) && more[level + 1][cb].cost < BIG {
      var jump := if RunValueBits(g.short, rows[level][cb].run) != RunValueBits(g.short, rows[level][cb].run + 1)
          then RunBits(g.short) else 0;
      var stay := rows[level][cb].cost + g.bits[level][cb] + jump;
      if level == 0 {
        NoJump(g.short);
        FirstLive(g, more, cb);
      } else if best.cost.value + g.bits[level][cb] + Header(g.short) < stay {
        OpenLive(g, rows, more, level, cb, best.cb);
      } else {
        StayLive(g, rows, more, level, cb);
      }
    }
  }

  lemma NoJump(short: bool)
    ensures RunValueBits(short, 0) == RunValueBits(short, 1)
  {
  }

  // ----- the best cell stays cheap

  lemma {:induction false} RowBestIs(g: Group, b: nat, row: seq<Cell>, n: nat)
    requires b < g.Len() == |g.bt| && n <= |row|
    ensures var r := RowBest(g, b, row, n);
            && (r.cost.Some? ==> r.cb < n && g.Allowed(b, r.cb) && r.cost.value == row[r.cb].cost)
            && (forall cb: nat :: cb < n && g.Allowed(b, cb) ==> r.cost.Some? && r.cost.value <= row[cb].cost)
  {
    if n > 0 {
      RowBestIs(g, b, row, n - 1);
    }
  }

  /** Some codebook is always allowed. */
  function SomeAllowed(g: Group, b: nat): (cb: nat)
    requires g.Valid() && b < g.Len()
    ensures cb < CB_TOT_ALL && g.Allowed(b, cb)
  {
    if g.zero[b] then 0 else CbIn(g.bt[b])
  }

  /** What the first n bands can cost at most: a section each. */
  function Worst(g: Group, n: nat): nat
    requires n <= |g.width|
  {
    if n == 0 then 0 else Worst(g, n - 1) + 28 * g.width[n - 1] + Header(g.short)
  }

  lemma BestCheap(g: Group, b: nat, prev: seq<Cell>, best: Best)
    requires g.Valid() && b < g.Len() && |prev| == CB_TOT_ALL
    requires b == 0 ==> prev == FirstRow(g.short) && best.cost.None?
    requires b > 0 ==> best.cost.Some? && best.cost.value <= Worst(g, b)
    ensures var r := RowBest(g, b, NextRow(g, b, prev, best), CB_TOT_ALL);
            r.cost.Some? && r.cb < CB_TOT_ALL && r.cost.value <= Worst(g, b + 1)
            && r.cost.value == NextRow(g, b, prev, best)[r.cb].cost
  {
    hide RunValueBits;
    var row := NextRow(g, b, prev, best);
    RowBestIs(g, b, row, CB_TOT_ALL);
    NoJump(g.short);
    var cb := SomeAllowed(g, b);
    assert row[cb] == StepCell(g.short, prev[cb], cb, best, g.bits[b][cb]);
  }

  lemma {:induction false} WorstBound(g: Group, n: nat)
    requires n <= |g.width|
    ensures Worst(g, n) == 28 * Sum(g.width[..n]) + n * Header(g.short)
  {
    if n > 0 {
      WorstBound(g, n - 1);
      assert g.width[..n] == g.width[..n - 1] + [g.width[n - 1]];
      SumSnoc(g.width[..n - 1], g.width[n - 1]);
    }
  }

  lemma {:induction false} WorstMonotone(g: Group, m: nat, n: nat)
    requires m <= n <= |g.width|
    ensures Worst(g, m) <= Worst(g, n)
  {
    if m < n {
      WorstMonotone(g, m, n - 1);
    }
  }

  /** Real costs never reach the sentinel. */
  lemma NeverBig(g: Group, n: nat)
    requires g.Valid() && n <= g.Len()
    ensures Worst(g, n) < BIG
  {
    WorstMonotone(g, n, g.Len());
    WorstBound(g, g.Len());
    assert g.width[..g.Len()] == g.width;
  }

  /** At every level, every cell below the sentinel is live, and the best cell is
      below the sentinel. */
  lemma {:induction false} SearchOk(g: Group, b: nat)
    requires g.Valid() && b <= g.Len()
    ensures RowOk(g, Rows(g, b), b)
    ensures b > 0 ==> var best := BestAt(g, b, Rows(g, b)[b]);
                      best.cb < CB_TOT_ALL && best.cost == Some(Rows(g, b)[b][best.cb].cost)
                          && best.cost.value <= Worst(g, b) < BIG
  {
    if b == 0 {
      assert Rows(g, 0) == [FirstRow(g.short)];
      forall cb: nat | cb < CB_TOT_ALL
        ensures Live(g, Rows(g, 0), 0, cb)
      {
      }
    } else {
      SearchOk(g, b - 1);
      SearchStep(g, b - 1);
    }
  }

  lemma SearchStep(g: Group, b: nat)
    requires g.Valid() && b < g.Len() && RowOk(g, Rows(g, b), b)
    requires b > 0 ==> var best := BestAt(g, b, Rows(g, b)[b]);
                       best.cb < CB_TOT_ALL && best.cost == Some(Rows(g, b)[b][best.cb].cost)
                           && best.cost.value <= Worst(g, b) < BIG
    ensures RowOk(g, Rows(g, b + 1), b + 1)
    ensures var best := BestAt(g, b + 1, Rows(g, b + 1)[b + 1]);
            best.cb < CB_TOT_ALL && best.cost == Some(Rows(g, b + 1)[b + 1][best.cb].cost)
                && best.cost.value <= Worst(g, b + 1) < BIG
  {
    hide Live, CellAt, RowBest, Worst;
    var rows: seq<seq<Cell>>, more: seq<seq<Cell>> := Rows(g, b), Rows(g, b + 1);
    var best := BestAt(g, b, rows[b]);
    assert more == rows + [NextRow(g, b, rows[b], best)];
    assert more[b + 1] == NextRow(g, b, rows[b], best);
    NeverBig(g, b + 1);
    BestCheap(g, b, rows[b], best);
    var row: seq<Cell> := more[b + 1];
    forall cb: nat | cb < CB_TOT_ALL
      ensures row[cb].run <= b + 1 && (row[cb].cost < BIG ==> Live(g, more, b + 1, cb))
    {
      CellOk(g, rows, more, b, best, cb);
    }
  }

  /** The first cheapest of the first n cells of a row. */
  function Winner(row: seq<Cell>, n: nat): (cb: nat)
    requires 1 <= n <= |row|
    ensures cb < n
  {
    if n == 1 then 0 else
      var w := Winner(row, n - 1);
      if row[n - 1].cost < row[w].cost then n - 1 else w
  }

  lemma {:induction false} WinnerLeast(row: seq<Cell>, n: nat, cb: nat)
    requires 1 <= n <= |row| && cb < n
    ensures row[Winner(row, n)].cost <= row[cb].cost
  {
    if n > 1 && cb < n - 1 {
      WinnerLeast(row, n - 1, cb);
    }
  }

  /** The winner's backtrack terminates, its runs partition the bands, its
      codebooks are allowed, and its cost is its price. */
  lemma WinnerLive(g: Group)
    requires g.Valid()
    ensures Live(g, Rows(g, g.Len()), g.Len(), Winner(Rows(g, g.Len())[g.Len()], CB_TOT_ALL))
  {
    hide Live;
    var n := g.Len();
    SearchOk(g, n);
    if n > 0 {
      WinnerLeast(Rows(g, n)[n], CB_TOT_ALL, BestAt(g, n, Rows(g, n)[n]).cb);
    } else {
      assert Rows(g, 0)[0][Winner(Rows(g, 0)[0], CB_TOT_ALL)] == Cell(-1, Header(g.short), 0);
    }
  }

  /** The sections the search chooses, by codebook index. */
  function Chosen(g: Group): seq<Section>
    requires g.Valid()
  {
    WinnerLive(g);
    Track(Rows(g, g.Len()), g.Len(), Winner(Rows(g, g.Len())[g.Len()], CB_TOT_ALL))
  }

  // ----- price against bits

  /** The same sections by band type. */
  function Out(s: seq<Section>): (r: seq<Section>)
    ensures |r| == |s|
  {
    seq(|s|, i requires 0 <= i < |s| => Section(CbOut(s[i].cb), s[i].run))
  }

  /** Runs the table underestimates: exactly 14 bands in a short window. */
  function Underpriced(short: bool, s: seq<Section>): nat {
    if |s| == 0 then 0 else Underpriced(short, s[..|s| - 1]) + (if short && s[|s| - 1].run == 14 then 1 else 0)
  }

  function SpectralBits(g: Group, s: seq<Section>): nat {
    if |s| == 0 then 0
    else SpectralBits(g, s[..|s| - 1]) + BandBits(g, Total(s[..|s| - 1]), s[|s| - 1].cb, s[|s| - 1].run)
  }

  lemma RunLength(short: bool, run: nat)
    requires run <= (if short then 15 else 51)
    ensures |PrintRun(run, RunBits(short))| == RunValueBits(short, run) + (if short && run == 14 then 3 else 0)
  {
    assert Pow2(3) == 8 && Pow2(5) == 32;
    if short {
      assert |PrintRun(run, 3)| == if run < 7 then 3 else 3 + |PrintRun(run - 7, 3)|;
      if run >= 7 {
        assert |PrintRun(run - 7, 3)| == if run < 14 then 3 else 3 + |PrintRun(run - 14, 3)|;
      }
    } else if run >= 31 {
      assert |PrintRun(run, 5)| == 5 + |PrintRun(run - 31, 5)|;
    }
  }

  lemma {:induction false} PrintSectionsSnoc(s: seq<Section>, x: Section, runBits: nat)
    requires runBits > 1
    ensures PrintSections(s + [x], runBits) == PrintSections(s, runBits) + (ToBits(4, x.cb) + PrintRun(x.run, runBits))
  {
    if |s| == 0 {
      assert s + [x] == [x] && [x][1..] == [];
    } else {
      assert (s + [x])[1..] == s[1..] + [x];
      PrintSectionsSnoc(s[1..], x, runBits);
    }
  }

  /** The search's price is the bits of the section data plus the spectral bits,
      except that it is 3 bits low for each short-window run of exactly 14. */
  lemma {:induction false} PriceIsBits(g: Group, s: seq<Section>)
    requires g.Valid() && AllowedAll(g, s) && Total(s) <= g.Len()
    ensures Price(g, s) == |PrintSections(Out(s), RunBits(g.short))| + SpectralBits(g, s) - 3 * Underpriced(g.short, s)
    decreases |s|
  {
    if |s| > 0 {
      var t, x := s[..|s| - 1], s[|s| - 1];
      PriceIsBits(g, t);
      assert Out(s) == Out(t) + [Section(CbOut(x.cb), x.run)];
      PrintSectionsSnoc(Out(t), Section(CbOut(x.cb), x.run), RunBits(g.short));
      RunLength(g.short, x.run);
    }
  }

  // ----- the band types the sections assign

  lemma {:induction false} ExpandSnoc(s: seq<Section>, x: Section)
    ensures Expand(s + [x]) == Expand(s) + Fill(x.cb, x.run)
  {
    if |s| == 0 {
      assert s + [x] == [x] && [x][1..] == [];
      assert Expand([x]) == Fill(x.cb, x.run) + [];
    } else {
      assert (s + [x])[1..] == s[1..] + [x];
      ExpandSnoc(s[1..], x);
      assert Fill(s[0].cb, s[0].run) + (Expand(s[1..]) + Fill(x.cb, x.run)) == Expand(s) + Fill(x.cb, x.run);
    }
  }

  /** The sections tile the bands with legal band types: zero bands stay zero, a
      special band keeps its type, and a coded band's codebook is no smaller than
      its least one. */
  lemma {:induction false} ExpandAllowed(g: Group, s: seq<Section>)
    requires g.Valid() && AllowedAll(g, s) && Total(s) <= g.Len()
    ensures |Expand(Out(s))| == Total(s)
    ensures forall b: nat :: b < Total(s) ==>
            g.Allowed(b, CbIn(Expand(Out(s))[b])) && Expand(Out(s))[b] == CbOut(CbIn(Expand(Out(s))[b]))
    ensures forall i :: 0 <= i < |s| ==> GoodSection(Out(s)[i])
    decreases |s|
  {
    if |s| > 0 {
      var t, x := s[..|s| - 1], s[|s| - 1];
      ExpandAllowed(g, t);
      assert Out(s) == Out(t) + [Section(CbOut(x.cb), x.run)];
      ExpandSnoc(Out(t), Section(CbOut(x.cb), x.run));
      forall b: nat | b < Total(s)
        ensures g.Allowed(b, CbIn(Expand(Out(s))[b])) && Expand(Out(s))[b] == CbOut(CbIn(Expand(Out(s))[b]))
      {
        if b < Total(t) {
          assert Expand(Out(s))[b] == Expand(Out(t))[b];
        } else {
          assert Expand(Out(s))[b] == CbOut(x.cb);
        }
      }
    }
  }
}
