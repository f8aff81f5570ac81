/** One step of the scalefactor Viterbi search, in its three forms: the filter
    |d| <= mdiff, the closed-form window of admissible predecessors, and a
    sliding minimum over an infinity-padded signal. Costs are exact; Inf stands
    for the float sentinel and for the padding. */
module TrellisStep {
  const NCAND := 96

  datatype Cost = Fin(v: real) | Inf

  predicate Less(a: Cost, b: Cost) {
    match (a, b)
    case (Fin(x), Fin(y)) => x < y
    case (Fin(_), Inf) => true
    case (Inf, _) => false
  }

  function Plus(a: Cost, x: real): Cost {
    if a.Fin? then Fin(a.v + x) else Inf
  }

  // ----- division rounded down and up, from a division that truncates

  function Abs(x: int): nat {
    if x < 0 then 0 - x else x
  }

  /** The machine quotient, truncated toward zero. */
  function Quot(a: int, b: int): int
    requires b != 0
  {
    if (a < 0) == (b < 0) then Abs(a) / Abs(b) else 0 - Abs(a) / Abs(b)
  }

  /** The machine remainder, with the sign of the dividend. */
  function Rem(a: int, b: int): int
    requires b != 0
  {
    if a < 0 then 0 - Abs(a) % Abs(b) else Abs(a) % Abs(b)
  }

  function FloorDiv(a: int, b: int): int
    requires b != 0
  {
    var q := Quot(a, b);
    if Rem(a, b) != 0 && (a < 0) != (b < 0) then q - 1 else q
  }

  function CeilDiv(a: int, b: int): int
    requires b != 0
  {
    var q := Quot(a, b);
    if Rem(a, b) != 0 && (a < 0) == (b < 0) then q + 1 else q
  }

  lemma MulOrder(k: int, q: int, b: nat)
    requires b > 0
    ensures k <= q ==> k * b <= q * b
    ensures k > q ==> k * b >= q * b + b
  {
    assert q * b - k * b == (q - k) * b;
    if k <= q {
      Product(q - k, b);
    } else {
      Product(k - q - 1, b);
      assert (k - q) * b == (k - q - 1) * b + b;
    }
  }

  lemma Product(a: nat, b: nat)
    ensures a * b >= 0
  {
  }

  lemma QuotRem(a: int, b: int)
    requires b != 0
    ensures a == Quot(a, b) * b + Rem(a, b)
    ensures Abs(Rem(a, b)) < Abs(b)
  {
    var m, n := Abs(a), Abs(b);
    assert m == (m / n) * n + m % n;
    Signs(m / n, b);
  }

  lemma Signs(q: int, b: int)
    ensures (0 - q) * b == 0 - q * b == q * (0 - b)
  {
  }

  /** FloorDiv and CeilDiv bound the multiples of b, for b of either sign. */
  lemma DivBounds(a: int, b: int, k: int)
    requires b != 0
    ensures b > 0 ==> (k * b <= a <==> k <= FloorDiv(a, b))
    ensures b > 0 ==> (a <= k * b <==> CeilDiv(a, b) <= k)
    ensures b < 0 ==> (a <= k * b <==> k <= FloorDiv(a, b))
    ensures b < 0 ==> (k * b <= a <==> CeilDiv(a, b) <= k)
  {
    QuotRem(a, b);
    var f, c := FloorDiv(a, b), CeilDiv(a, b);
    var n := Abs(b);
    Shift(Quot(a, b), b);
    MulOrder(k, f, n);
    MulOrder(c, k, n);
    if b < 0 {
      Signs(k, b);
      Signs(f, b);
      Signs(c, b);
    }
  }

  lemma Shift(q: int, b: int)
    ensures (q - 1) * b == q * b - b && (q + 1) * b == q * b + b
  {
  }

  // ----- what a step computes

  /** The cost of coming from candidate op, Inf when there is no such candidate
      or the scalefactors would differ by more than mdiff. */
  ghost function From(dpp: seq<Cost>, lamsf: seq<real>, base: int, step: int, mdiff: int, o: int, op: int): Cost
    requires |lamsf| >= 2 * mdiff + 1
  {
    var d := base + (o - op) * step;
    if 0 <= op < |dpp| && -mdiff <= d <= mdiff then Plus(dpp[op], lamsf[d + mdiff]) else Inf
  }

  ghost function Row(dpp: seq<Cost>, lamsf: seq<real>, base: int, step: int, mdiff: int, o: int): int -> Cost
    requires |lamsf| >= 2 * mdiff + 1
  {
    x requires |lamsf| >= 2 * mdiff + 1 => From(dpp, lamsf, base, step, mdiff, o, x)
  }

  /** b is the first of the cheapest in [lo, hi), at the finite cost c. */
  ghost predicate Wins(r: int -> Cost, lo: int, hi: int, b: int, c: real) {
    && lo <= b < hi && r(b) == Fin(c)
    && (forall x :: lo <= x < hi ==> !Less(r(x), Fin(c)))
    && (forall x :: lo <= x < b ==> Less(Fin(c), r(x)))
  }

  ghost predicate Dead(r: int -> Cost, lo: int, hi: int) {
    forall x :: lo <= x < hi ==> r(x) == Inf
  }

  ghost predicate RowIs(r: int -> Cost, lo: int, hi: int, node: real, cost: Cost, back: int) {
    if cost.Inf? then Dead(r, lo, hi) && back == 0
    else Wins(r, lo, hi, back, cost.v - node)
  }

  /** The step: dp and bp are the costs and back-pointers of its nCur
      candidates, over all predecessors, ties to the lowest. */
  ghost predicate StepIs(dp: seq<Cost>, bp: seq<nat>, dpp: seq<Cost>, node: seq<real>, lamsf: seq<real>,
                         base: int, step: int, mdiff: int)
    requires |lamsf| >= 2 * mdiff + 1
  {
    && |dp| == |bp| == |node|
    && forall o: nat :: o < |dp| ==> RowIs(Row(dpp, lamsf, base, step, mdiff, o), 0, |dpp|, node[o], dp[o], bp[o])
  }

  lemma RowUnique(r: int -> Cost, lo: int, hi: int, node: real, c1: Cost, b1: int, c2: Cost, b2: int)
    requires RowIs(r, lo, hi, node, c1, b1) && RowIs(r, lo, hi, node, c2, b2)
    ensures c1 == c2 && b1 == b2
  {
    assert c1.Fin? ==> r(b1) == Fin(c1.v - node);
    assert c2.Fin? ==> r(b2) == Fin(c2.v - node);
  }

  /** Any two forms of the step that meet the specification agree. */
  lemma StepUnique(dp1: seq<Cost>, bp1: seq<nat>, dp2: seq<Cost>, bp2: seq<nat>, dpp: seq<Cost>,
                   node: seq<real>, lamsf: seq<real>, base: int, step: int, mdiff: int)
    requires |lamsf| >= 2 * mdiff + 1
    requires StepIs(dp1, bp1, dpp, node, lamsf, base, step, mdiff)
    requires StepIs(dp2, bp2, dpp, node, lamsf, base, step, mdiff)
    ensures dp1 == dp2 && bp1 == bp2
  {
    hide RowIs, From;
    forall o: nat | o < |node| ensures dp1[o] == dp2[o] && bp1[o] == bp2[o] {
      RowUnique(Row(dpp, lamsf, base, step, mdiff, o), 0, |dpp|, node[o], dp1[o], bp1[o], dp2[o], bp2[o]);
    }
  }

  /** r is Inf on [lo, hi) outside [lo', hi'). */
  ghost predicate DeadBetween(r: int -> Cost, lo: int, hi: int, lo': int, hi': int) {
    forall x :: lo <= x < hi && !(lo' <= x < hi') ==> r(x) == Inf
  }

  /** A row may be searched over any range that leaves out only Inf. */
  lemma RowOver(r: int -> Cost, lo: int, hi: int, lo': int, hi': int, node: real, cost: Cost, back: int)
    requires RowIs(r, lo', hi', node, cost, back)
    requires DeadBetween(r, lo, hi, lo', hi') && DeadBetween(r, lo', hi', lo, hi)
    ensures RowIs(r, lo, hi, node, cost, back)
  {
  }

  // ----- the running minimum

  /** What a scan of [lo, hi) in ascending order holds at the end. */
  ghost predicate Scanned(r: int -> Cost, lo: int, hi: int, best: int, bestc: Cost) {
    if bestc.Inf? then best == -1 && Dead(r, lo, hi)
    else Wins(r, lo, hi, best, bestc.v)
  }

  lemma ScanStep(r: int -> Cost, lo: int, x: int, best: int, bestc: Cost)
    requires lo <= x && Scanned(r, lo, x, best, bestc)
    ensures if Less(r(x), bestc) then Scanned(r, lo, x + 1, x, r(x)) else Scanned(r, lo, x + 1, best, bestc)
  {
  }

  // ----- form 1: the filter

  method RowFilter(dpp: array<Cost>, lamsf: array<real>, nPrev: nat, base: int, step: int, mdiff: int, o: nat)
    returns (best: int, bestc: Cost)
    requires dpp.Length >= nPrev && lamsf.Length >= 2 * mdiff + 1
    ensures Scanned(Row(dpp[..nPrev], lamsf[..], base, step, mdiff, o), 0, nPrev, best, bestc)
  {
    hide Scanned, From;
    ghost var prev, lam := dpp[..nPrev], lamsf[..];
    ghost var r := Row(prev, lam, base, step, mdiff, o);
    best, bestc := -1, Inf;
    var op := 0;
    ScanStart(r, 0);
    while op < nPrev
      invariant 0 <= op <= nPrev && Scanned(r, 0, op, best, bestc)
    {
      var d := base + (o - op) * step;
      ScanStep(r, 0, op, best, bestc);
      FromIs(prev, lam, base, step, mdiff, o, op, d);
      if !(d < -mdiff || d > mdiff) {
        var c := Plus(dpp[op], lamsf[d + mdiff]);
        if Less(c, bestc) {
          bestc := c;
          best := op;
        }
      }
      op := op + 1;
    }
  }

  method StepFilter(dp: array<Cost>, bp: array<nat>, dpp: array<Cost>, node: array<real>, lamsf: array<real>,
                    nCur: nat, nPrev: nat, base: int, step: int, mdiff: int)
    requires dp.Length >= nCur && bp.Length >= nCur && node.Length >= nCur && dpp.Length >= nPrev
    requires lamsf.Length >= 2 * mdiff + 1 && dp != dpp && lamsf != node
    modifies dp, bp
    ensures StepIs(dp[..nCur], bp[..nCur], dpp[..nPrev], node[..nCur], lamsf[..], base, step, mdiff)
  {
    hide Scanned, RowIs, From;
    ghost var prev, lam := dpp[..nPrev], lamsf[..];
    var o := 0;
    while o < nCur
      invariant 0 <= o <= nCur
      invariant StepIs(dp[..o], bp[..o], prev, node[..o], lam, base, step, mdiff)
    {
      var best, bestc := RowFilter(dpp, lamsf, nPrev, base, step, mdiff, o);
      ghost var r := Row(prev, lam, base, step, mdiff, o);
      ScanEnd(r, 0, nPrev, best, bestc, node[o]);
      if best < 0 {
        bp[o], dp[o] := 0, Inf;
      } else {
        bp[o], dp[o] := best, Plus(bestc, node[o]);
      }
      o := o + 1;
    }
  }

  lemma FromIs(dpp: seq<Cost>, lamsf: seq<real>, base: int, step: int, mdiff: int, o: int, op: int, d: int)
    requires |lamsf| >= 2 * mdiff + 1 && d == base + (o - op) * step
    ensures From(dpp, lamsf, base, step, mdiff, o, op)
            == if 0 <= op < |dpp| && -mdiff <= d <= mdiff then Plus(dpp[op], lamsf[d + mdiff]) else Inf
    ensures !Less(Inf, From(dpp, lamsf, base, step, mdiff, o, op))
  {
  }

  lemma ScanStart(r: int -> Cost, lo: int)
    ensures Scanned(r, lo, lo, -1, Inf)
  {
  }

  lemma ScanEnd(r: int -> Cost, lo: int, hi: int, best: int, bestc: Cost, node: real)
    requires 0 <= lo && Scanned(r, lo, hi, best, bestc)
    ensures bestc.Inf? <==> best < 0
    ensures best < 0 ==> RowIs(r, lo, hi, node, Inf, 0)
    ensures best >= 0 ==> RowIs(r, lo, hi, node, Plus(bestc, node), best)
  {
    if bestc.Fin? {
      assert bestc.v + node - node == bestc.v;
    }
  }

  // ----- form 2: the closed-form window

  function Max(a: int, b: int): int {
    if a >= b then a else b
  }

  function Min(a: int, b: int): int {
    if a <= b then a else b
  }

  /** The admissible offsets o-op, as a range. */
  function Offsets(nCur: nat, nPrev: nat, base: int, step: int, mdiff: int): (int, int) {
    var lo, hi := -mdiff - base, mdiff - base;
    if step > 0 then (CeilDiv(lo, step), FloorDiv(hi, step))
    else if step < 0 then (CeilDiv(hi, step), FloorDiv(lo, step))
    else if lo <= 0 <= hi then (0 - nPrev, nCur)
    else (0, -1)
  }

  /** The window is exactly the filter. */
  lemma OffsetsExact(nCur: nat, nPrev: nat, base: int, step: int, mdiff: int, o: nat, op: nat)
    requires o < nCur && op < nPrev
    ensures var (loOff, hiOff) := Offsets(nCur, nPrev, base, step, mdiff);
            -mdiff <= base + (o - op) * step <= mdiff <==> loOff <= o - op <= hiOff
  {
    var lo, hi := -mdiff - base, mdiff - base;
    if step != 0 {
      DivBounds(lo, step, o - op);
      DivBounds(hi, step, o - op);
    } else {
      assert (o - op) * step == 0;
    }
  }

  lemma OutsideWindow(dpp: seq<Cost>, lamsf: seq<real>, nCur: nat, base: int, step: int, mdiff: int, o: nat)
    requires |lamsf| >= 2 * mdiff + 1 && o < nCur
    ensures var (loOff, hiOff) := Offsets(nCur, |dpp|, base, step, mdiff);
            var (opLo, opHi) := (Max(0, o - hiOff), Min(|dpp| - 1, o - loOff));
            forall x :: 0 <= x < |dpp| && !(opLo <= x < opHi + 1) ==> Row(dpp, lamsf, base, step, mdiff, o)(x) == Inf
  {
    var (loOff, hiOff) := Offsets(nCur, |dpp|, base, step, mdiff);
    var (opLo, opHi) := (Max(0, o - hiOff), Min(|dpp| - 1, o - loOff));
    forall x | 0 <= x < |dpp| && !(opLo <= x < opHi + 1)
      ensures Row(dpp, lamsf, base, step, mdiff, o)(x) == Inf
    {
      OffsetsExact(nCur, |dpp|, base, step, mdiff, o, x);
    }
  }

  method RowWindow(dpp: array<Cost>, lamsf: array<real>, nPrev: nat, base: int, step: int, mdiff: int,
                   loOff: int, hiOff: int, ghost nCur: nat, o: nat)
    returns (best: int, bestc: Cost)
    requires dpp.Length >= nPrev && lamsf.Length >= 2 * mdiff + 1 && o < nCur
    requires (loOff, hiOff) == Offsets(nCur, nPrev, base, step, mdiff)
    ensures var (opLo, opHi) := (Max(0, o - hiOff), Min(nPrev - 1, o - loOff));
            Scanned(Row(dpp[..nPrev], lamsf[..], base, step, mdiff, o), opLo, Max(opLo, opHi + 1), best, bestc)
  {
    hide Scanned, From, Offsets;
    ghost var prev, lam := dpp[..nPrev], lamsf[..];
    ghost var r := Row(prev, lam, base, step, mdiff, o);
    best, bestc := -1, Inf;
    var opLo, opHi := Max(0, o - hiOff), Min(nPrev - 1, o - loOff);
    ScanStart(r, opLo);
    if opLo <= opHi {
      var idx := base + mdiff + (o - opLo) * step;
      var besti := -1;
      var i := 0;
      while i < opHi + 1 - opLo
        invariant 0 <= i <= opHi + 1 - opLo
        invariant idx == base + mdiff + (o - opLo - i) * step
        invariant Scanned(r, opLo, opLo + i, if besti < 0 then -1 else opLo + besti, bestc)
        invariant besti >= -1
      {
        var op := opLo + i;
        ScanStep(r, opLo, op, if besti < 0 then -1 else opLo + besti, bestc);
        FromIs(prev, lam, base, step, mdiff, o, op, idx - mdiff);
        OffsetsExact(nCur, nPrev, base, step, mdiff, o, op);
        NextOffset(o - op, step);
        var c := Plus(dpp[op], lamsf[idx]);
        if Less(c, bestc) {
          bestc := c;
          besti := i;
        }
        idx := idx - step;
        i := i + 1;
      }
      if besti >= 0 {
        best := opLo + besti;
      }
    }
  }

  lemma NextOffset(k: int, step: int)
    ensures (k - 1) * step == k * step - step
  {
  }

  method StepScalar(dp: array<Cost>, bp: array<nat>, dpp: array<Cost>, node: array<real>, lamsf: array<real>,
                    nCur: nat, nPrev: nat, base: int, step: int, mdiff: int)
    requires dp.Length >= nCur && bp.Length >= nCur && node.Length >= nCur && dpp.Length >= nPrev
    requires lamsf.Length >= 2 * mdiff + 1 && dp != dpp && lamsf != node
    modifies dp, bp
    ensures StepIs(dp[..nCur], bp[..nCur], dpp[..nPrev], node[..nCur], lamsf[..], base, step, mdiff)
  {
    hide Scanned, RowIs, From, Row, Offsets;
    ghost var prev, lam := dpp[..nPrev], lamsf[..];
    var lo, hi := -mdiff - base, mdiff - base;
    var loOff, hiOff := 0, -1;
    if step > 0 {
      loOff, hiOff := CeilDiv(lo, step), FloorDiv(hi, step);
    } else if step < 0 {
      loOff, hiOff := CeilDiv(hi, step), FloorDiv(lo, step);
    } else if lo <= 0 && 0 <= hi {
      loOff, hiOff := 0 - nPrev, nCur;
    }
    OffsetsAre(nCur, nPrev, base, step, mdiff);
    var o := 0;
    while o < nCur
      invariant 0 <= o <= nCur
      invariant StepIs(dp[..o], bp[..o], prev, node[..o], lam, base, step, mdiff)
    {
      var best, bestc := RowWindow(dpp, lamsf, nPrev, base, step, mdiff, loOff, hiOff, nCur, o);
      ghost var r := Row(prev, lam, base, step, mdiff, o);
      WindowRow(prev, lam, nCur, base, step, mdiff, o, best, bestc, node[o]);
      if best < 0 {
        bp[o], dp[o] := 0, Inf;
      } else {
        bp[o], dp[o] := best, Plus(bestc, node[o]);
      }
      o := o + 1;
    }
  }

  lemma OffsetsAre(nCur: nat, nPrev: nat, base: int, step: int, mdiff: int)
    ensures var (lo, hi) := (-mdiff - base, mdiff - base);
            Offsets(nCur, nPrev, base, step, mdiff)
            == if step > 0 then (CeilDiv(lo, step), FloorDiv(hi, step))
               else if step < 0 then (CeilDiv(hi, step), FloorDiv(lo, step))
               else if lo <= 0 <= hi then (0 - nPrev, nCur)
               else (0, -1)
  {
  }

  lemma WindowRow(dpp: seq<Cost>, lamsf: seq<real>, nCur: nat, base: int, step: int, mdiff: int, o: nat,
                  best: int, bestc: Cost, node: real)
    requires |lamsf| >= 2 * mdiff + 1 && o < nCur
    requires var (loOff, hiOff) := Offsets(nCur, |dpp|, base, step, mdiff);
             var (opLo, opHi) := (Max(0, o - hiOff), Min(|dpp| - 1, o - loOff));
             Scanned(Row(dpp, lamsf, base, step, mdiff, o), opLo, Max(opLo, opHi + 1), best, bestc)
    ensures bestc.Inf? <==> best < 0
    ensures RowIs(Row(dpp, lamsf, base, step, mdiff, o), 0, |dpp|, node,
                  if best < 0 then Inf else Plus(bestc, node), if best < 0 then 0 else best)
  {
    hide Scanned, RowIs, From, Offsets, Row;
    var r := Row(dpp, lamsf, base, step, mdiff, o);
    var (loOff, hiOff) := Offsets(nCur, |dpp|, base, step, mdiff);
    var (opLo, opHi) := (Max(0, o - hiOff), Min(|dpp| - 1, o - loOff));
    ScanEnd(r, opLo, Max(opLo, opHi + 1), best, bestc, node);
    OutsideWindow(dpp, lamsf, nCur, base, step, mdiff, o);
    RowOver(r, 0, |dpp|, opLo, Max(opLo, opHi + 1), node,
            if best < 0 then Inf else Plus(bestc, node), if best < 0 then 0 else best);
  }

  // ----- form 3: the sliding minimum over a padded signal

  datatype Geometry = Geometry(dLo: int, dHi: int, kernLen: int, padFront: int, padBack: int, basep: int)

  function Geom(nCur: int, nPrev: int, base: int, step: int, mdiff: int): Geometry
    requires step > 0
  {
    var loOff := CeilDiv(-mdiff - base, step);
    var hiOff := FloorDiv(mdiff - base, step);
    var dHi := Min(hiOff, nCur - 1);
    var dLo := Max(loOff, -(nPrev - 1));
    var padFront := Max(0, dHi);
    Geometry(dLo, dHi, dHi - dLo + 1, padFront, Max(0, nCur - nPrev - dLo), padFront - dHi)
  }

  /** Every read of the sliding minimum, and every tap of the kernel, is in
      range, and the scratch sizes 2*96-1 and 3*96-2 suffice. */
  lemma GeometryFits(nCur: nat, nPrev: nat, base: int, step: int, mdiff: int)
    requires 0 < nCur <= NCAND && 0 < nPrev <= NCAND && step > 0
    ensures var g := Geom(nCur, nPrev, base, step, mdiff);
            && 0 <= g.padFront && 0 <= g.padBack && 0 <= g.basep
            && (g.kernLen > 0 ==>
                 && g.padFront <= NCAND - 1 && g.padBack <= NCAND - 1
                 && g.kernLen <= 2 * NCAND - 1
                 && g.padFront + nPrev + g.padBack <= 3 * NCAND - 2
                 && g.basep + (nCur - 1) + (g.kernLen - 1) < g.padFront + nPrev + g.padBack)
  {
    hide CeilDiv, FloorDiv;
  }

  /** The kernel's taps are admissible differences. */
  lemma TapsAdmissible(nCur: nat, nPrev: nat, base: int, step: int, mdiff: int, i: nat)
    requires nCur > 0 && nPrev > 0 && step > 0 && i < Geom(nCur, nPrev, base, step, mdiff).kernLen
    ensures var g := Geom(nCur, nPrev, base, step, mdiff);
            0 <= base + mdiff + (g.dHi - i) * step <= 2 * mdiff
  {
    var g := Geom(nCur, nPrev, base, step, mdiff);
    DivBounds(-mdiff - base, step, g.dHi - i);
    DivBounds(mdiff - base, step, g.dHi - i);
  }

  /** The value the sliding minimum sees for tap i of row o. */
  ghost function Tap(kern: seq<real>, pad: seq<Cost>, basep: int, o: int, i: int): Cost {
    if 0 <= i < |kern| && 0 <= basep + o + i < |pad| then Plus(pad[basep + o + i], kern[i]) else Inf
  }

  ghost function Taps(kern: seq<real>, pad: seq<Cost>, basep: int, o: int): int -> Cost {
    i => Tap(kern, pad, basep, o, i)
  }

  /** Per row, the minimum of kern[i] + pad[basep+o+i] and its first index (0
      when all are Inf): the contract of the vectorised primitive. */
  ghost predicate SlidingMin(vals: seq<Cost>, idxs: seq<nat>, kern: seq<real>, pad: seq<Cost>, basep: int) {
    && |vals| == |idxs|
    && forall o: nat :: o < |vals| ==> RowIs(Taps(kern, pad, basep, o), 0, |kern|, 0.0, vals[o], idxs[o])
  }

  method RowMin(kern: array<real>, kernLen: nat, pad: array<Cost>, padLen: nat, basep: nat, o: nat)
    returns (best: int, bestc: Cost)
    requires kernLen <= kern.Length && padLen <= pad.Length && 0 < kernLen && basep + o + (kernLen - 1) < padLen
    ensures Scanned(Taps(kern[..kernLen], pad[..padLen], basep, o), 0, kernLen, best, bestc)
  {
    hide Scanned;
    ghost var r := Taps(kern[..kernLen], pad[..padLen], basep, o);
    best, bestc := -1, Inf;
    var i := 0;
    ScanStart(r, 0);
    while i < kernLen
      invariant 0 <= i <= kernLen && Scanned(r, 0, i, best, bestc)
    {
      ScanStep(r, 0, i, best, bestc);
      var c := Plus(pad[basep + o + i], kern[i]);
      assert r(i) == c;
      if Less(c, bestc) {
        best, bestc := i, c;
      }
      i := i + 1;
    }
  }

  method MinIdxOfSumRows(vals: array<Cost>, idxs: array<nat>, nCur: nat, kern: array<real>, kernLen: nat,
                         pad: array<Cost>, padLen: nat, basep: nat)
    requires nCur <= vals.Length && nCur <= idxs.Length && kernLen <= kern.Length && padLen <= pad.Length
    requires vals != pad && 0 < nCur && 0 < kernLen && basep + (nCur - 1) + (kernLen - 1) < padLen
    modifies vals, idxs
    ensures SlidingMin(vals[..nCur], idxs[..nCur], kern[..kernLen], pad[..padLen], basep)
  {
    hide RowIs, Scanned, Taps;
    ghost var k, p := kern[..kernLen], pad[..padLen];
    var o := 0;
    while o < nCur
      invariant 0 <= o <= nCur
      invariant SlidingMin(vals[..o], idxs[..o], k, p, basep)
    {
      var best, bestc := RowMin(kern, kernLen, pad, padLen, basep, o);
      ScanEnd(Taps(k, p, basep, o), 0, kernLen, best, bestc, 0.0);
      PlusZero(bestc);
      vals[o], idxs[o] := bestc, if best < 0 then 0 else best;
      assert RowIs(Taps(k, p, basep, o), 0, |k|, 0.0, vals[o], idxs[o]);
      o := o + 1;
    }
  }

  lemma PlusZero(c: Cost)
    ensures Plus(c, 0.0) == c
  {
  }

  /** The scratch of the padded form, sized for the worst case. */
  class Scratch {
    const vals: array<Cost>
    const idxs: array<nat>
    const kern: array<real>
    const padk: array<Cost>

    constructor ()
      ensures Valid() && fresh(vals) && fresh(idxs) && fresh(kern) && fresh(padk)
    {
      vals := new Cost[NCAND];
      idxs := new nat[NCAND];
      kern := new real[2 * NCAND - 1];
      padk := new Cost[3 * NCAND - 2];
    }

    ghost predicate Valid() {
      && vals.Length == idxs.Length == NCAND && kern.Length == 2 * NCAND - 1 && padk.Length == 3 * NCAND - 2
      && vals != padk
    }
  }

  ghost predicate KernelIs(kern: seq<real>, lamsf: seq<real>, base: int, step: int, mdiff: int, dHi: int) {
    forall i: nat :: i < |kern| ==>
      var t := TapIndex(base, step, mdiff, dHi, i);
      0 <= t < |lamsf| && kern[i] == lamsf[t]
  }

  function TapIndex(base: int, step: int, mdiff: int, dHi: int, i: int): int {
    base + mdiff + (dHi - i) * step
  }

  ghost predicate PaddedIs(pad: seq<Cost>, dpp: seq<Cost>, padFront: nat) {
    && padFront + |dpp| <= |pad|
    && forall j: nat :: j < |pad| ==>
         pad[j] == if padFront <= j < padFront + |dpp| then dpp[j - padFront] else Inf
  }

  lemma KernelSnoc(kern: seq<real>, lamsf: seq<real>, base: int, step: int, mdiff: int, dHi: int)
    requires KernelIs(kern, lamsf, base, step, mdiff, dHi)
    ensures var t := TapIndex(base, step, mdiff, dHi, |kern|);
            0 <= t < |lamsf| ==> KernelIs(kern + [lamsf[t]], lamsf, base, step, mdiff, dHi)
  {
    hide TapIndex;
  }

  method FillKernel(kern: array<real>, kernLen: nat, lamsf: array<real>, nCur: nat, nPrev: nat,
                    base: int, step: int, mdiff: int)
    requires kern != lamsf && kernLen <= kern.Length && lamsf.Length >= 2 * mdiff + 1
    requires nCur > 0 && nPrev > 0 && step > 0 && kernLen == Geom(nCur, nPrev, base, step, mdiff).kernLen
    modifies kern
    ensures KernelIs(kern[..kernLen], lamsf[..], base, step, mdiff, Geom(nCur, nPrev, base, step, mdiff).dHi)
  {
    hide Geom;
    ghost var lam := lamsf[..];
    var dHi := Geom(nCur, nPrev, base, step, mdiff).dHi;
    var idx := base + mdiff + dHi * step;
    var i := 0;
    while i < kernLen
      invariant 0 <= i <= kernLen && idx == base + mdiff + (dHi - i) * step
      invariant KernelIs(kern[..i], lam, base, step, mdiff, dHi)
      invariant lamsf[..] == lam
    {
      TapsAdmissible(nCur, nPrev, base, step, mdiff, i);
      NextOffset(dHi - i, step);
      KernelSnoc(kern[..i], lam, base, step, mdiff, dHi);
      kern[i] := lamsf[idx];
      assert kern[..i + 1] == kern[..i] + [lam[idx]];
      idx := idx - step;
      i := i + 1;
    }
  }

  method FillPadded(padk: array<Cost>, padLen: nat, padFront: nat, dpp: array<Cost>, nPrev: nat)
    requires padk != dpp && padLen <= padk.Length && nPrev <= dpp.Length && padFront + nPrev <= padLen
    modifies padk
    ensures PaddedIs(padk[..padLen], dpp[..nPrev], padFront)
  {
    ghost var prev := dpp[..nPrev];
    var j := 0;
    while j < padLen
      invariant 0 <= j <= padLen
      invariant forall i: nat :: i < j ==> padk[i] == Inf
      invariant dpp[..nPrev] == prev
    {
      padk[j] := Inf;
      j := j + 1;
    }
    j := 0;
    while j < nPrev
      invariant 0 <= j <= nPrev
      invariant forall i: nat :: i < padLen ==>
                  padk[i] == if padFront <= i < padFront + j then prev[i - padFront] else Inf
      invariant dpp[..nPrev] == prev
    {
      padk[padFront + j] := dpp[j];
      j := j + 1;
    }
  }

  /** Tap i of row o is predecessor op = o - dHi + i. */
  lemma TapIsFrom(kern: seq<real>, pad: seq<Cost>, dpp: seq<Cost>, lamsf: seq<real>, nCur: nat,
                  base: int, step: int, mdiff: int, o: nat, i: int)
    requires 0 < nCur <= NCAND && 0 < |dpp| <= NCAND && step > 0 && o < nCur && |lamsf| >= 2 * mdiff + 1
    requires var g := Geom(nCur, |dpp|, base, step, mdiff);
             && |kern| == g.kernLen && |pad| == g.padFront + |dpp| + g.padBack
             && KernelIs(kern, lamsf, base, step, mdiff, g.dHi) && PaddedIs(pad, dpp, g.padFront)
    ensures var g := Geom(nCur, |dpp|, base, step, mdiff);
            Tap(kern, pad, g.basep, o, i) == From(dpp, lamsf, base, step, mdiff, o, o - g.dHi + i)
  {
    var g := Geom(nCur, |dpp|, base, step, mdiff);
    GeometryFits(nCur, |dpp|, base, step, mdiff);
    var op := o - g.dHi + i;
    assert o - op == g.dHi - i;
    if 0 <= i < |kern| {
      TapsAdmissible(nCur, |dpp|, base, step, mdiff, i);
      assert base + mdiff + (g.dHi - i) * step == base + (o - op) * step + mdiff;
    } else if 0 <= op < |dpp| {
      OutsideTaps(nCur, |dpp|, base, step, mdiff, o, op);
    }
  }

  lemma OutsideTaps(nCur: nat, nPrev: nat, base: int, step: int, mdiff: int, o: nat, op: nat)
    requires o < nCur && op < nPrev && step > 0
    ensures var g := Geom(nCur, nPrev, base, step, mdiff);
            -mdiff <= base + (o - op) * step <= mdiff ==> g.dLo <= o - op <= g.dHi
  {
    hide CeilDiv, FloorDiv;
    OffsetsExact(nCur, nPrev, base, step, mdiff, o, op);
  }

  ghost predicate ShiftedBy(s: int -> Cost, r: int -> Cost, shift: int) {
    forall x :: s(x) == r(x + shift)
  }

  /** A row of the sliding minimum is the row of the step, shifted. */
  lemma RowShift(r: int -> Cost, s: int -> Cost, shift: int, n: nat, node: real, cost: Cost, i: nat)
    requires RowIs(s, 0, n, 0.0, cost, i)
    requires ShiftedBy(s, r, shift)
    ensures RowIs(r, shift, shift + n, node, Plus(cost, node), if cost.Inf? then 0 else shift + i)
  {
    if cost.Fin? {
      var c := cost.v;
      assert s(i) == r(i + shift);
      forall x | shift <= x < shift + n ensures !Less(r(x), Fin(c)) && (x < shift + i ==> Less(Fin(c), r(x))) {
        assert s(x - shift) == r(x);
      }
      assert Plus(cost, node).v - node == c;
    } else {
      forall x | shift <= x < shift + n ensures r(x) == Inf {
        assert s(x - shift) == r(x);
      }
    }
  }

  lemma TapsAreRow(kern: seq<real>, pad: seq<Cost>, dpp: seq<Cost>, lamsf: seq<real>, nCur: nat,
                   base: int, step: int, mdiff: int, o: nat)
    requires 0 < nCur <= NCAND && 0 < |dpp| <= NCAND && step > 0 && o < nCur && |lamsf| >= 2 * mdiff + 1
    requires var g := Geom(nCur, |dpp|, base, step, mdiff);
             && |kern| == g.kernLen && |pad| == g.padFront + |dpp| + g.padBack
             && KernelIs(kern, lamsf, base, step, mdiff, g.dHi) && PaddedIs(pad, dpp, g.padFront)
    ensures var g := Geom(nCur, |dpp|, base, step, mdiff);
            ShiftedBy(Taps(kern, pad, g.basep, o), Row(dpp, lamsf, base, step, mdiff, o), o - g.dHi)
  {
    var g := Geom(nCur, |dpp|, base, step, mdiff);
    hide Geom, KernelIs, PaddedIs, From, Tap;
    forall x ensures Taps(kern, pad, g.basep, o)(x) == Row(dpp, lamsf, base, step, mdiff, o)(x + (o - g.dHi)) {
      TapIsFrom(kern, pad, dpp, lamsf, nCur, base, step, mdiff, o, x);
    }
  }

  /** The padded form computes the step. */
  lemma PaddedRow(kern: seq<real>, pad: seq<Cost>, dpp: seq<Cost>, lamsf: seq<real>, nCur: nat,
                  base: int, step: int, mdiff: int, o: nat, node: real, cost: Cost, i: nat)
    requires 0 < nCur <= NCAND && 0 < |dpp| <= NCAND && step > 0 && o < nCur && |lamsf| >= 2 * mdiff + 1
    requires var g := Geom(nCur, |dpp|, base, step, mdiff);
             && |kern| == g.kernLen && |pad| == g.padFront + |dpp| + g.padBack
             && KernelIs(kern, lamsf, base, step, mdiff, g.dHi) && PaddedIs(pad, dpp, g.padFront)
             && RowIs(Taps(kern, pad, g.basep, o), 0, |kern|, 0.0, cost, i)
    ensures var g := Geom(nCur, |dpp|, base, step, mdiff);
            && (cost.Fin? ==> 0 <= o - g.dHi + i < |dpp|)
            && RowIs(Row(dpp, lamsf, base, step, mdiff, o), 0, |dpp|, node,
                     if cost.Fin? then Plus(cost, node) else Inf, if cost.Fin? then o - g.dHi + i else 0)
  {
    var g := Geom(nCur, |dpp|, base, step, mdiff);
    var r, s := Row(dpp, lamsf, base, step, mdiff, o), Taps(kern, pad, g.basep, o);
    var shift := o - g.dHi;
    hide Geom, KernelIs, PaddedIs, RowIs, From, Tap, Row, Taps, ShiftedBy, DeadBetween;
    TapsAreRow(kern, pad, dpp, lamsf, nCur, base, step, mdiff, o);
    RowShift(r, s, shift, |kern|, node, cost, i);
    PaddedCovers(dpp, lamsf, nCur, base, step, mdiff, o, shift, |kern|);
    RowOver(r, 0, |dpp|, shift, shift + |kern|, node, Plus(cost, node), if cost.Inf? then 0 else shift + i);
    WinnerInRange(r, |dpp|, node, Plus(cost, node), if cost.Inf? then 0 else shift + i);
  }

  lemma WinnerInRange(r: int -> Cost, n: nat, node: real, cost: Cost, back: int)
    requires RowIs(r, 0, n, node, cost, back)
    ensures cost.Fin? ==> 0 <= back < n
  {
  }

  lemma PaddedCovers(dpp: seq<Cost>, lamsf: seq<real>, nCur: nat, base: int, step: int, mdiff: int, o: nat,
                     shift: int, n: int)
    requires step > 0 && o < nCur && |lamsf| >= 2 * mdiff + 1
    requires var g := Geom(nCur, |dpp|, base, step, mdiff); shift == o - g.dHi && n == g.kernLen
    ensures DeadBetween(Row(dpp, lamsf, base, step, mdiff, o), 0, |dpp|, shift, shift + n)
    ensures DeadBetween(Row(dpp, lamsf, base, step, mdiff, o), shift, shift + n, 0, |dpp|)
  {
    forall x | 0 <= x < |dpp| && !(shift <= x < shift + n)
      ensures Row(dpp, lamsf, base, step, mdiff, o)(x) == Inf
    {
      OutsideTaps(nCur, |dpp|, base, step, mdiff, o, x);
    }
  }

  /** No tap at all: no predecessor of any row is admissible. */
  lemma NoTaps(dpp: seq<Cost>, lamsf: seq<real>, nCur: nat, base: int, step: int, mdiff: int, o: nat, node: real)
    requires step > 0 && o < nCur && |lamsf| >= 2 * mdiff + 1
    requires |dpp| == 0 || Geom(nCur, |dpp|, base, step, mdiff).kernLen <= 0
    ensures RowIs(Row(dpp, lamsf, base, step, mdiff, o), 0, |dpp|, node, Inf, 0)
  {
    forall x | 0 <= x < |dpp| ensures Row(dpp, lamsf, base, step, mdiff, o)(x) == Inf {
      OutsideTaps(nCur, |dpp|, base, step, mdiff, o, x);
    }
  }

  method StepPadded(dp: array<Cost>, bp: array<nat>, dpp: array<Cost>, node: array<real>, lamsf: array<real>,
                    nCur: nat, nPrev: nat, base: int, step: int, mdiff: int, ts: Scratch)
    requires dp.Length >= nCur && bp.Length >= nCur && node.Length >= nCur && dpp.Length >= nPrev
    requires nCur <= NCAND && nPrev <= NCAND && lamsf.Length >= 2 * mdiff + 1
    requires dp != dpp && lamsf != node && ts.Valid()
    requires dp !in {ts.vals, ts.padk} && dpp !in {ts.vals, ts.padk} && bp != ts.idxs && ts.kern !in {node, lamsf}
    modifies dp, bp, ts.vals, ts.idxs, ts.kern, ts.padk
    ensures StepIs(dp[..nCur], bp[..nCur], dpp[..nPrev], node[..nCur], lamsf[..], base, step, mdiff)
  {
    hide RowIs, From, Row, Geom, KernelIs, PaddedIs;
    if step <= 0 {
      StepScalar(dp, bp, dpp, node, lamsf, nCur, nPrev, base, step, mdiff);
      return;
    }
    if nCur <= 0 {
      return;
    }
    ghost var prev, lam := dpp[..nPrev], lamsf[..];
    var g := Geom(nCur, nPrev, base, step, mdiff);
    if nPrev <= 0 || g.kernLen <= 0 {
      var o := 0;
      while o < nCur
        invariant 0 <= o <= nCur
        invariant StepIs(dp[..o], bp[..o], prev, node[..o], lam, base, step, mdiff)
      {
        NoTaps(prev, lam, nCur, base, step, mdiff, o, node[o]);
        bp[o], dp[o] := 0, Inf;
        o := o + 1;
      }
      return;
    }
    GeometryFits(nCur, nPrev, base, step, mdiff);
    var padLen := g.padFront + nPrev + g.padBack;
    FillKernel(ts.kern, g.kernLen, lamsf, nCur, nPrev, base, step, mdiff);
    FillPadded(ts.padk, padLen, g.padFront, dpp, nPrev);
    MinIdxOfSumRows(ts.vals, ts.idxs, nCur, ts.kern, g.kernLen, ts.padk, padLen, g.basep);
    ghost var k, p := ts.kern[..g.kernLen], ts.padk[..padLen];
    Reconcile(dp, bp, node, nCur, ts, g.dHi, k, p, g.basep, prev, lam, base, step, mdiff);
  }

  /** Turns per-row minima into costs and back-pointers. */
  method Reconcile(dp: array<Cost>, bp: array<nat>, node: array<real>, nCur: nat, ts: Scratch, dHi: int,
                   ghost kern: seq<real>, ghost pad: seq<Cost>, ghost basep: int,
                   ghost dpp: seq<Cost>, ghost lamsf: seq<real>, ghost base: int, ghost step: int, ghost mdiff: int)
    requires dp.Length >= nCur && bp.Length >= nCur && node.Length >= nCur && ts.Valid()
    requires dp != ts.vals && bp != ts.idxs
    requires 0 < nCur <= NCAND && 0 < |dpp| <= NCAND && step > 0 && |lamsf| >= 2 * mdiff + 1
    requires var g := Geom(nCur, |dpp|, base, step, mdiff);
             && |kern| == g.kernLen && |pad| == g.padFront + |dpp| + g.padBack && dHi == g.dHi && basep == g.basep
             && KernelIs(kern, lamsf, base, step, mdiff, g.dHi) && PaddedIs(pad, dpp, g.padFront)
    requires SlidingMin(ts.vals[..nCur], ts.idxs[..nCur], kern, pad, basep)
    modifies dp, bp
    ensures StepIs(dp[..nCur], bp[..nCur], dpp, node[..nCur], lamsf, base, step, mdiff)
  {
    hide RowIs, From, Row, Geom, KernelIs, PaddedIs;
    ghost var v, ix := ts.vals[..nCur], ts.idxs[..nCur];
    var o := 0;
    while o < nCur
      invariant 0 <= o <= nCur
      invariant StepIs(dp[..o], bp[..o], dpp, node[..o], lamsf, base, step, mdiff)
      invariant ts.vals[..nCur] == v && ts.idxs[..nCur] == ix
    {
      assert v[o] == ts.vals[o] && ix[o] == ts.idxs[o];
      PaddedRow(kern, pad, dpp, lamsf, nCur, base, step, mdiff, o, node[o], v[o], ix[o]);
      if Less(ts.vals[o], Inf) {
        bp[o] := o - dHi + ts.idxs[o];
        dp[o] := Plus(ts.vals[o], node[o]);
      } else {
        bp[o] := 0;
        dp[o] := Inf;
      }
      o := o + 1;
    }
  }
}
