/** The lambda-bisected shortest path over scalefactor candidates. */
module ViterbiSearch {
  import opened BitStrings
  import opened Reals
  import opened TrellisStep

  const MAXDIFF := 60

  /** The bands in coding order: per band the candidates' distortions and bits,
      the scalefactor of candidate 0 and the number of candidates. */
  datatype Problem = Problem(nd: seq<seq<real>>, nb: seq<seq<int>>, blo: seq<int>, bnc: seq<nat>,
                             step: int, act: seq<nat>, sfBits: seq<nat>)
  {
    ghost predicate Valid() {
      && |nd| == |nb| == |blo| == |bnc| && |sfBits| == 2 * MAXDIFF + 1
      && (forall k: nat :: k < |act| ==> act[k] < |nd|)
      && (forall j: nat, k: nat :: j < |act| && k < |act| && act[j] == act[k] ==> j == k)
      && (forall b: nat :: b < |nd| ==> 1 <= bnc[b] <= NCAND && |nd[b]| == |nb[b]| == NCAND)
    }

    function Size(k: nat): nat
      requires k < |act| && act[k] < |bnc|
    {
      bnc[act[k]]
    }

    /** The scalefactor difference of taking op at k-1 and o at k. */
    function Step(k: nat, op: nat, o: nat): int
      requires 0 < k < |act| && act[k] < |blo| && act[k - 1] < |blo|
    {
      blo[act[k]] - blo[act[k - 1]] + (o - op) * step
    }
  }

  ghost function Nodes(p: Problem, lam: real, k: nat): (s: seq<real>)
    requires p.Valid() && k < |p.act|
    ensures |s| == p.Size(k)
  {
    var b := p.act[k];
    seq(p.bnc[b], o requires 0 <= o < p.bnc[b] && p.Valid() && k < |p.act| && b == p.act[k] =>
      p.nd[b][o] + lam * (p.nb[b][o] as real))
  }

  ghost function Weights(p: Problem, lam: real): (s: seq<real>)
    requires p.Valid()
    ensures |s| == 2 * MAXDIFF + 1
  {
    seq(2 * MAXDIFF + 1, i requires 0 <= i < 2 * MAXDIFF + 1 && p.Valid() => lam * (p.sfBits[i] as real))
  }

  // ----- paths: one candidate per band of a prefix of the order

  ghost predicate IsPath(p: Problem, path: seq<nat>)
    requires p.Valid()
  {
    0 < |path| <= |p.act| && forall k: nat :: k < |path| ==> path[k] < p.Size(k)
  }

  /** Neighbouring scalefactors differ by at most 60. */
  ghost predicate Legal(p: Problem, path: seq<nat>)
    requires p.Valid()
  {
    IsPath(p, path)
    && forall k: nat :: 0 < k < |path| ==> -MAXDIFF <= p.Step(k, path[k - 1], path[k]) <= MAXDIFF
  }

  ghost function Distortion(p: Problem, path: seq<nat>): real
    requires p.Valid() && IsPath(p, path)
    decreases |path|
  {
    var k := |path| - 1;
    (if k == 0 then 0.0 else Distortion(p, path[..k])) + p.nd[p.act[k]][path[k]]
  }

  /** The bits a path accounts for: spectral bits and scalefactor bits. */
  ghost function Bits(p: Problem, path: seq<nat>): int
    requires p.Valid() && IsPath(p, path)
    decreases |path|
  {
    var k := |path| - 1;
    (if k == 0 then 0 else Bits(p, path[..k]) + StepBits(p, p.Step(k, path[k - 1], path[k])))
    + p.nb[p.act[k]][path[k]]
  }

  function Clip(a: int, lo: int, hi: int): int {
    if a < lo then lo else if a > hi then hi else a
  }

  function StepBits(p: Problem, d: int): nat
    requires |p.sfBits| == 2 * MAXDIFF + 1
  {
    p.sfBits[Clip(d + MAXDIFF, 0, 2 * MAXDIFF)]
  }

  ghost function Price(p: Problem, lam: real, path: seq<nat>): real
    requires p.Valid() && IsPath(p, path)
  {
    Weighted(lam, Distortion(p, path), Bits(p, path))
  }

  ghost function Weighted(lam: real, d: real, b: int): real {
    d + lam * (b as real)
  }

  /** q is no later than r when both are read from the last band back. */
  ghost predicate ReadsFirst(q: seq<nat>, r: seq<nat>)
    requires |q| == |r|
    decreases |q|
  {
    |q| == 0 ||
    var k := |q| - 1;
    q[k] < r[k] || (q[k] == r[k] && ReadsFirst(q[..k], r[..k]))
  }

  ghost predicate Full(p: Problem, path: seq<nat>)
    requires p.Valid()
  {
    Legal(p, path) && |path| == |p.act|
  }

  /** path is legal, no legal path is cheaper, and among the equally cheap it
      is the first. */
  ghost predicate Optimal(p: Problem, lam: real, path: seq<nat>)
    requires p.Valid()
  {
    && Full(p, path)
    && forall q {:trigger Full(p, q)} :: Full(p, q) ==>
         && Price(p, lam, path) <= Price(p, lam, q)
         && (Price(p, lam, path) == Price(p, lam, q) ==> ReadsFirst(path, q))
  }

  ghost predicate Cheapest(p: Problem, lam: real, path: seq<nat>)
    requires p.Valid()
  {
    Full(p, path) && forall q {:trigger Full(p, q)} :: Full(p, q) ==> Price(p, lam, path) <= Price(p, lam, q)
  }

  // ----- a larger lambda never costs more bits

  lemma MoreLambdaFewerBits(p: Problem, lam: real, lam': real, q: seq<nat>, q': seq<nat>)
    requires p.Valid() && lam < lam' && Cheapest(p, lam, q) && Cheapest(p, lam', q')
    ensures Bits(p, q') <= Bits(p, q)
  {
    hide Bits, Distortion, Legal, IsPath, Price, Weighted;
    FullIsPath(p, q);
    FullIsPath(p, q');
    CheapestBeats(p, lam, q, q');
    CheapestBeats(p, lam', q', q);
    Crossing(lam, lam', Distortion(p, q), Bits(p, q), Distortion(p, q'), Bits(p, q'));
  }

  lemma CheapestBeats(p: Problem, lam: real, q: seq<nat>, r: seq<nat>)
    requires p.Valid() && Cheapest(p, lam, q) && Full(p, r)
    ensures Weighted(lam, Distortion(p, q), Bits(p, q)) <= Weighted(lam, Distortion(p, r), Bits(p, r))
  {
    hide Bits, Distortion, Legal, IsPath, Weighted;
    FullIsPath(p, q);
    FullIsPath(p, r);
    assert Price(p, lam, q) <= Price(p, lam, r);
  }

  lemma FullIsPath(p: Problem, q: seq<nat>)
    requires p.Valid() && Full(p, q)
    ensures IsPath(p, q)
  {
  }

  lemma Crossing(lam: real, lam': real, d: real, b: int, d': real, b': int)
    requires lam < lam' && Weighted(lam, d, b) <= Weighted(lam, d', b')
             && Weighted(lam', d', b') <= Weighted(lam', d, b)
    ensures b' <= b
  {
    var x, y := b as real, b' as real;
    assert (lam' - lam) * (y - x) == (lam' * y - lam' * x) - (lam * y - lam * x);
    if y > x {
      Positive(lam' - lam, y - x);
    }
  }

  /** No lambda below this one can meet the budget, or none above can miss it. */
  ghost predicate BelowMisses(p: Problem, lam: real, dest: int)
    requires p.Valid()
  {
    forall l: real, q {:trigger Cheapest(p, l, q)} :: l < lam && Cheapest(p, l, q) ==> Bits(p, q) > dest
  }

  ghost predicate AboveMeets(p: Problem, lam: real, dest: int)
    requires p.Valid()
  {
    forall l: real, q {:trigger Cheapest(p, l, q)} :: l > lam && Cheapest(p, l, q) ==> Bits(p, q) <= dest
  }

  lemma BisectionSound(p: Problem, lam: real, path: seq<nat>, dest: int)
    requires p.Valid() && Cheapest(p, lam, path)
    ensures Bits(p, path) > dest ==> BelowMisses(p, lam, dest)
    ensures Bits(p, path) <= dest ==> AboveMeets(p, lam, dest)
  {
    forall l: real, q {:trigger Cheapest(p, l, q)} | l < lam && Cheapest(p, l, q) && Bits(p, path) > dest
      ensures Bits(p, q) > dest
    {
      MoreLambdaFewerBits(p, l, lam, q, path);
    }
    forall l: real, q {:trigger Cheapest(p, l, q)} | l > lam && Cheapest(p, l, q) && Bits(p, path) <= dest
      ensures Bits(p, q) <= dest
    {
      MoreLambdaFewerBits(p, lam, l, path, q);
    }
  }

  // ----- the dynamic program

  /** Tables of costs and back-pointers for the first |costs| bands. */
  ghost predicate Tables(p: Problem, lam: real, costs: seq<seq<Cost>>, backs: seq<seq<nat>>)
    requires p.Valid()
  {
    && 0 < |costs| == |backs| <= |p.act|
    && |costs[0]| == p.Size(0) && (forall o: nat :: o < p.Size(0) ==> costs[0][o] == Fin(Nodes(p, lam, 0)[o]))
    && forall k: nat :: 0 < k < |costs| ==> LayerIs(p, lam, costs[k], backs[k], costs[k - 1], k)
  }

  ghost predicate LayerIs(p: Problem, lam: real, dp: seq<Cost>, bp: seq<nat>, dpp: seq<Cost>, k: nat)
    requires p.Valid() && 0 < k < |p.act|
  {
    && |dp| == p.Size(k) && |dpp| == p.Size(k - 1)
    && StepIs(dp, bp, dpp, Nodes(p, lam, k), Weights(p, lam),
              p.blo[p.act[k]] - p.blo[p.act[k - 1]], p.step, MAXDIFF)
  }

  lemma TableShape(p: Problem, lam: real, costs: seq<seq<Cost>>, backs: seq<seq<nat>>, k: nat)
    requires p.Valid() && Tables(p, lam, costs, backs) && k < |costs|
    ensures k < |backs| == |costs| <= |p.act|
    ensures |costs[k]| == p.Size(k) && p.Size(k) >= 1
    ensures k > 0 ==> |backs[k]| == p.Size(k) && LayerIs(p, lam, costs[k], backs[k], costs[k - 1], k)
  {
    hide Nodes, RowIs;
    if k > 0 {
      assert LayerIs(p, lam, costs[k], backs[k], costs[k - 1], k);
    }
  }

  /** What one entry of a layer says, without the machinery of the step. */
  ghost predicate Entry(p: Problem, lam: real, dpp: seq<Cost>, k: nat, o: nat, cost: Cost, back: nat)
    requires p.Valid() && 0 < k < |p.act| && |dpp| == p.Size(k - 1) && o < p.Size(k)
  {
    && back < p.Size(k - 1)
    && (cost.Fin? ==> Via(p, lam, dpp, k, back, o) == cost)
    && (forall op: nat :: op < p.Size(k - 1) ==>
         && !Less(Via(p, lam, dpp, k, op, o), cost)
         && (cost.Fin? && Via(p, lam, dpp, k, op, o) == cost ==> back <= op))
  }

  /** The cost of reaching o at k through op. */
  ghost function Via(p: Problem, lam: real, dpp: seq<Cost>, k: nat, op: nat, o: nat): Cost
    requires p.Valid() && 0 < k < |p.act| && op < |dpp| && o < p.Size(k)
  {
    var d := p.Step(k, op, o);
    if -MAXDIFF <= d <= MAXDIFF
    then Plus(Plus(dpp[op], lam * (p.sfBits[d + MAXDIFF] as real)), Nodes(p, lam, k)[o])
    else Inf
  }

  lemma LayerEntry(p: Problem, lam: real, dp: seq<Cost>, bp: seq<nat>, dpp: seq<Cost>, k: nat, o: nat)
    requires p.Valid() && 0 < k < |p.act| && LayerIs(p, lam, dp, bp, dpp, k) && o < p.Size(k)
    ensures Entry(p, lam, dpp, k, o, dp[o], bp[o])
  {
    var base := p.blo[p.act[k]] - p.blo[p.act[k - 1]];
    var w := Weights(p, lam);
    var r := Row(dpp, w, base, p.step, MAXDIFF, o);
    var node := Nodes(p, lam, k)[o];
    assert RowIs(r, 0, |dpp|, node, dp[o], bp[o]);
    forall op: nat | op < |dpp| ensures Via(p, lam, dpp, k, op, o) == Plus(r(op), node) {
      ViaIsFrom(p, lam, dpp, k, op, o);
    }
    assert bp[o] < |dpp|;
    hide Via, Row, Nodes;
    if dp[o].Fin? {
      var c := dp[o].v - node;
      forall op: nat | op < |dpp|
        ensures !Less(Via(p, lam, dpp, k, op, o), dp[o]) && (Via(p, lam, dpp, k, op, o) == dp[o] ==> bp[o] <= op)
      {
        assert !Less(r(op), Fin(c)) && (op < bp[o] ==> Less(Fin(c), r(op)));
      }
    }
  }

  lemma ViaIsFrom(p: Problem, lam: real, dpp: seq<Cost>, k: nat, op: nat, o: nat)
    requires p.Valid() && 0 < k < |p.act| && op < |dpp| && o < p.Size(k)
    ensures Via(p, lam, dpp, k, op, o)
            == Plus(From(dpp, Weights(p, lam), p.blo[p.act[k]] - p.blo[p.act[k - 1]], p.step, MAXDIFF, o, op),
                    Nodes(p, lam, k)[o])
  {
    hide Nodes;
  }

  // ----- the cost of a path, as the program accumulates it

  ghost function PathCost(p: Problem, lam: real, path: seq<nat>): Cost
    requires p.Valid() && IsPath(p, path)
    decreases |path|
  {
    if Legal(p, path) then Fin(Price(p, lam, path)) else Inf
  }

  lemma PriceStep(p: Problem, lam: real, path: seq<nat>)
    requires p.Valid() && IsPath(p, path) && |path| > 1
    ensures var k := |path| - 1;
            && IsPath(p, path[..k])
            && (Legal(p, path) <==> Legal(p, path[..k]) && -MAXDIFF <= p.Step(k, path[k - 1], path[k]) <= MAXDIFF)
            && (Legal(p, path) ==>
                 Price(p, lam, path)
                 == Price(p, lam, path[..k]) + lam * (p.sfBits[p.Step(k, path[k - 1], path[k]) + MAXDIFF] as real)
                    + Nodes(p, lam, k)[path[k]])
  {
    var k := |path| - 1;
    var q := path[..k];
    LegalStep(p, path);
    if Legal(p, path) {
      StepInRange(p, path);
      hide Legal, IsPath;
      var d := p.Step(k, path[k - 1], path[k]);
      DistortionStep(p, path);
      BitsStep(p, path);
      hide Distortion, Bits, Weighted, Nodes, StepBits;
      NodeIs(p, lam, k, path[k]);
      StepBitsIs(p, d);
      AddUp(lam, Distortion(p, q), Bits(p, q), p.nd[p.act[k]][path[k]], StepBits(p, d), p.nb[p.act[k]][path[k]]);
    }
  }

  lemma NodeIs(p: Problem, lam: real, k: nat, o: nat)
    requires p.Valid() && k < |p.act| && o < p.Size(k)
    ensures Nodes(p, lam, k)[o] == p.nd[p.act[k]][o] + lam * (p.nb[p.act[k]][o] as real)
  {
  }

  lemma StepBitsIs(p: Problem, d: int)
    requires p.Valid() && -MAXDIFF <= d <= MAXDIFF
    ensures StepBits(p, d) == p.sfBits[d + MAXDIFF]
  {
  }

  lemma AddUp(lam: real, d: real, b: int, nd: real, s: int, nb: int)
    ensures Weighted(lam, d + nd, b + s + nb) == Weighted(lam, d, b) + lam * (s as real) + (nd + lam * (nb as real))
  {
    Spread(lam, b, s, nb);
  }

  lemma StepInRange(p: Problem, path: seq<nat>)
    requires p.Valid() && Legal(p, path) && |path| > 1
    ensures var k := |path| - 1; -MAXDIFF <= p.Step(k, path[k - 1], path[k]) <= MAXDIFF
  {
  }

  lemma DistortionStep(p: Problem, path: seq<nat>)
    requires p.Valid() && IsPath(p, path) && |path| > 1 && IsPath(p, path[..|path| - 1])
    ensures var k := |path| - 1;
            Distortion(p, path) == Distortion(p, path[..k]) + p.nd[p.act[k]][path[k]]
  {
  }

  lemma BitsStep(p: Problem, path: seq<nat>)
    requires p.Valid() && IsPath(p, path) && |path| > 1 && IsPath(p, path[..|path| - 1])
    ensures var k := |path| - 1;
            Bits(p, path) == Bits(p, path[..k]) + StepBits(p, p.Step(k, path[k - 1], path[k])) + p.nb[p.act[k]][path[k]]
  {
  }

  lemma LegalStep(p: Problem, path: seq<nat>)
    requires p.Valid() && IsPath(p, path) && |path| > 1
    ensures var k := |path| - 1;
            && IsPath(p, path[..k])
            && (Legal(p, path) <==> Legal(p, path[..k]) && -MAXDIFF <= p.Step(k, path[k - 1], path[k]) <= MAXDIFF)
  {
    var k := |path| - 1;
    var q := path[..k];
    if Legal(p, q) && -MAXDIFF <= p.Step(k, path[k - 1], path[k]) <= MAXDIFF {
      forall j: nat | 0 < j < |path| ensures -MAXDIFF <= p.Step(j, path[j - 1], path[j]) <= MAXDIFF {
        if j < k {
          assert -MAXDIFF <= p.Step(j, q[j - 1], q[j]) <= MAXDIFF;
        }
      }
    }
    if Legal(p, path) {
      forall j: nat | 0 < j < |q| ensures -MAXDIFF <= p.Step(j, q[j - 1], q[j]) <= MAXDIFF {
        assert -MAXDIFF <= p.Step(j, path[j - 1], path[j]) <= MAXDIFF;
      }
    }
  }

  lemma Spread(lam: real, a: int, b: int, c: int)
    ensures lam * ((a + b + c) as real) == lam * (a as real) + lam * (b as real) + lam * (c as real)
  {
    assert (a + b + c) as real == a as real + b as real + c as real;
  }

  /** The cost of a path is the cost of its prefix continued by one step. */
  lemma PathCostStep(p: Problem, lam: real, path: seq<nat>, dpp: seq<Cost>)
    requires p.Valid() && IsPath(p, path) && |path| > 1 && |dpp| == p.Size(|path| - 2)
    requires var k := |path| - 1; IsPath(p, path[..k])
    ensures var k := |path| - 1;
            var c := PathCost(p, lam, path[..k]);
            && (dpp[path[k - 1]] == c ==> Via(p, lam, dpp, k, path[k - 1], path[k]) == PathCost(p, lam, path))
            && (!Less(c, dpp[path[k - 1]]) ==>
                 && !Less(PathCost(p, lam, path), Via(p, lam, dpp, k, path[k - 1], path[k]))
                 && ((PathCost(p, lam, path).Fin?
                      && Via(p, lam, dpp, k, path[k - 1], path[k]) == PathCost(p, lam, path))
                      ==> dpp[path[k - 1]] == c))
  {
    hide Nodes, Price, Legal;
    PriceStep(p, lam, path);
  }

  lemma PathCostOne(p: Problem, lam: real, path: seq<nat>)
    requires p.Valid() && IsPath(p, path) && |path| == 1
    ensures PathCost(p, lam, path) == Fin(Nodes(p, lam, 0)[path[0]])
  {
  }

  /** Following the back-pointers from candidate o of band k. */
  ghost function Back(p: Problem, backs: seq<seq<nat>>, k: nat, o: nat): seq<nat>
    decreases k
  {
    if k == 0 then [o]
    else if k < |backs| && o < |backs[k]| then Back(p, backs, k - 1, backs[k][o]) + [o]
    else seq(k + 1, i => o)
  }

  /** Entries are lower bounds, are reached by their own back-pointers, and the
      back-pointers prefer the first. */
  lemma {:induction false} EntryBounds(p: Problem, lam: real, costs: seq<seq<Cost>>, backs: seq<seq<nat>>,
                                       path: seq<nat>)
    requires p.Valid() && Tables(p, lam, costs, backs) && IsPath(p, path) && |path| <= |costs|
    ensures var k := |path| - 1;
            && |costs[k]| == p.Size(k)
            && !Less(PathCost(p, lam, path), costs[k][path[k]])
            && (costs[k][path[k]].Fin? && PathCost(p, lam, path) == costs[k][path[k]] ==>
                 var b := Back(p, backs, k, path[k]);
                 |b| == |path| && ReadsFirst(b, path))
    decreases |path|
  {
    hide Nodes, PathCost, Entry, LayerIs, Via, Tables;
    var k := |path| - 1;
    TableShape(p, lam, costs, backs, k);
    if k == 0 {
      FirstLayer(p, lam, costs, backs, path);
    } else {
      var q := path[..k];
      TableShape(p, lam, costs, backs, k - 1);
      PrefixIsPath(p, path);
      EntryBounds(p, lam, costs, backs, q);
      LayerEntry(p, lam, costs[k], backs[k], costs[k - 1], k, path[k]);
      PathCostStep(p, lam, path, costs[k - 1]);
      EntryAt(p, lam, costs[k - 1], k, path[k], costs[k][path[k]], backs[k][path[k]], path[k - 1]);
      if costs[k][path[k]].Fin? && PathCost(p, lam, path) == costs[k][path[k]] {
        var back := backs[k][path[k]];
        var b := Back(p, backs, k - 1, back);
        BackLast(p, backs, k - 1, back);
        FiniteVia(p, lam, costs[k - 1], k, path[k - 1], path[k]);
        assert ReadsFirst(b, q);
        assert Back(p, backs, k, path[k]) == b + [path[k]];
        assert path == q + [path[k]];
        ReadsFirstSnoc(b, q, path[k]);
      }
    }
  }

  lemma ReadsFirstSnoc(a: seq<nat>, b: seq<nat>, x: nat)
    requires |a| == |b| && ReadsFirst(a, b)
    ensures ReadsFirst(a + [x], b + [x])
  {
    assert (a + [x])[..|a|] == a && (b + [x])[..|b|] == b;
  }

  lemma FirstLayer(p: Problem, lam: real, costs: seq<seq<Cost>>, backs: seq<seq<nat>>, path: seq<nat>)
    requires p.Valid() && Tables(p, lam, costs, backs) && IsPath(p, path) && |path| == 1
    ensures |costs[0]| == p.Size(0) && PathCost(p, lam, path) == costs[0][path[0]]
    ensures ReadsFirst(Back(p, backs, 0, path[0]), path)
  {
    PathCostOne(p, lam, path);
  }

  lemma PrefixIsPath(p: Problem, path: seq<nat>)
    requires p.Valid() && IsPath(p, path) && |path| > 1
    ensures IsPath(p, path[..|path| - 1])
  {
  }

  lemma EntryAt(p: Problem, lam: real, dpp: seq<Cost>, k: nat, o: nat, cost: Cost, back: nat, op: nat)
    requires p.Valid() && 0 < k < |p.act| && |dpp| == p.Size(k - 1) && o < p.Size(k) && op < p.Size(k - 1)
    requires Entry(p, lam, dpp, k, o, cost, back)
    ensures back < p.Size(k - 1) && (cost.Fin? ==> Via(p, lam, dpp, k, back, o) == cost)
    ensures !Less(Via(p, lam, dpp, k, op, o), cost)
    ensures cost.Fin? && Via(p, lam, dpp, k, op, o) == cost ==> back <= op
  {
    hide Via;
  }

  lemma {:induction false} BackLength(p: Problem, backs: seq<seq<nat>>, k: nat, o: nat)
    ensures |Back(p, backs, k, o)| == k + 1
    decreases k
  {
    if k > 0 && k < |backs| && o < |backs[k]| {
      BackLength(p, backs, k - 1, backs[k][o]);
    }
  }

  lemma BackLast(p: Problem, backs: seq<seq<nat>>, k: nat, o: nat)
    ensures |Back(p, backs, k, o)| == k + 1 && Back(p, backs, k, o)[k] == o
  {
    BackLength(p, backs, k, o);
  }

  /** The back-pointers of a finite entry trace a path of that cost. */
  lemma {:induction false} EntryReached(p: Problem, lam: real, costs: seq<seq<Cost>>, backs: seq<seq<nat>>, k: nat,
                                        o: nat)
    requires p.Valid() && Tables(p, lam, costs, backs) && k < |costs| && o < p.Size(k)
    ensures |costs[k]| == p.Size(k)
    ensures var b := Back(p, backs, k, o);
            && IsPath(p, b) && |b| == k + 1 && b[k] == o
            && (costs[k][o].Fin? ==> PathCost(p, lam, b) == costs[k][o])
    decreases k
  {
    hide Nodes, PathCost, Entry, LayerIs, Via, Tables;
    TableShape(p, lam, costs, backs, k);
    if k == 0 {
      assert IsPath(p, [o]);
      FirstLayer(p, lam, costs, backs, [o]);
    } else {
      TableShape(p, lam, costs, backs, k - 1);
      LayerEntry(p, lam, costs[k], backs[k], costs[k - 1], k, o);
      var back := backs[k][o];
      EntryAt(p, lam, costs[k - 1], k, o, costs[k][o], back, 0);
      EntryReached(p, lam, costs, backs, k - 1, back);
      var b := Back(p, backs, k - 1, back);
      PathSnoc(p, b, o);
      PathCostStep(p, lam, b + [o], costs[k - 1]);
      FiniteVia(p, lam, costs[k - 1], k, back, o);
    }
  }

  lemma PathSnoc(p: Problem, b: seq<nat>, o: nat)
    requires p.Valid() && IsPath(p, b) && |b| < |p.act| && o < p.Size(|b|)
    ensures IsPath(p, b + [o]) && (b + [o])[..|b|] == b
  {
  }

  lemma FiniteVia(p: Problem, lam: real, dpp: seq<Cost>, k: nat, op: nat, o: nat)
    requires p.Valid() && 0 < k < |p.act| && op < |dpp| && o < p.Size(k)
    ensures Via(p, lam, dpp, k, op, o).Fin? ==> dpp[op].Fin?
  {
  }

  /** The whole search: the path traced from the first of the cheapest entries
      of the last band is optimal whenever there is a legal path at all. */
  lemma TracedIsOptimal(p: Problem, lam: real, costs: seq<seq<Cost>>, backs: seq<seq<nat>>, beo: nat)
    requires p.Valid() && Tables(p, lam, costs, backs) && |costs| == |p.act| && |p.act| > 0
    requires var k := |p.act| - 1;
             && beo < p.Size(k) == |costs[k]|
             && forall o: nat :: o < |costs[k]| ==>
                  !Less(costs[k][o], costs[k][beo])
                      && (o < beo && costs[k][o].Fin? ==> Less(costs[k][beo], costs[k][o]))
    ensures var path := Back(p, backs, |p.act| - 1, beo);
            && IsPath(p, path) && |path| == |p.act|
            && ((exists q :: Full(p, q)) ==> Optimal(p, lam, path))
  {
    hide Tables, Price;
    TableShape(p, lam, costs, backs, |costs| - 1);
    var k := |p.act| - 1;
    var path := Back(p, backs, k, beo);
    EntryReached(p, lam, costs, backs, k, beo);
    if exists q :: Full(p, q) {
      forall q {:trigger Full(p, q)} | Full(p, q)
        ensures Full(p, path) && Price(p, lam, path) <= Price(p, lam, q)
        ensures Price(p, lam, path) == Price(p, lam, q) ==> ReadsFirst(path, q)
      {
        EntryBounds(p, lam, costs, backs, q);
        TracedBeats(p, lam, backs, path, q, costs[k], beo);
      }
    }
  }

  lemma TracedBeats(p: Problem, lam: real, backs: seq<seq<nat>>, path: seq<nat>, q: seq<nat>, last: seq<Cost>, beo: nat)
    requires p.Valid() && Full(p, q) && IsPath(p, path) && |path| == |p.act|
    requires var k := |p.act| - 1;
             && beo < p.Size(k) == |last|
             && path == Back(p, backs, k, beo) && path[k] == beo
             && (last[beo].Fin? ==> PathCost(p, lam, path) == last[beo])
             && !Less(PathCost(p, lam, q), last[q[k]])
             && (last[q[k]].Fin? && PathCost(p, lam, q) == last[q[k]] ==>
                  var b := Back(p, backs, k, q[k]); |b| == |q| && ReadsFirst(b, q))
             && !Less(last[q[k]], last[beo])
             && (q[k] < beo && last[q[k]].Fin? ==> Less(last[beo], last[q[k]]))
    ensures Full(p, path) && Price(p, lam, path) <= Price(p, lam, q)
    ensures Price(p, lam, path) == Price(p, lam, q) ==> ReadsFirst(path, q)
  {
    hide Price, Back;
  }

  // ----- the search itself

  method NodeCost(dst: array<real>, p: Problem, k: nat, lam: real)
    requires p.Valid() && k < |p.act| && dst.Length == NCAND
    modifies dst
    ensures dst[..p.Size(k)] == Nodes(p, lam, k)
  {
    var b := p.act[k];
    var o := 0;
    while o < p.bnc[b]
      invariant 0 <= o <= p.bnc[b]
      invariant forall i: nat :: i < o ==> dst[i] == Nodes(p, lam, k)[i]
    {
      var t := lam * (p.nb[b][o] as real);
      dst[o] := p.nd[b][o] + t;
      o := o + 1;
    }
  }

  method ScaleWeights(lamsf: array<real>, p: Problem, lam: real)
    requires p.Valid() && lamsf.Length == 2 * MAXDIFF + 1
    modifies lamsf
    ensures lamsf[..] == Weights(p, lam)
  {
    var i := 0;
    while i <= 2 * MAXDIFF
      invariant 0 <= i <= 2 * MAXDIFF + 1
      invariant forall j: nat :: j < i ==> lamsf[j] == Weights(p, lam)[j]
    {
      lamsf[i] := lam * (p.sfBits[i] as real);
      i := i + 1;
    }
  }

  /** The search's working storage. */
  class Work {
    const cur: array<Cost>
    const prev: array<Cost>
    const node: array<real>
    const lamsf: array<real>
    const row: array<nat>
    const ts: Scratch

    constructor ()
      ensures Valid() && fresh(Arrays())
    {
      cur := new Cost[NCAND];
      prev := new Cost[NCAND];
      node := new real[NCAND];
      lamsf := new real[2 * MAXDIFF + 1];
      row := new nat[NCAND];
      ts := new Scratch();
    }

    ghost function Arrays(): set<object> {
      {cur, prev, node, lamsf, row, ts.vals, ts.idxs, ts.kern, ts.padk}
    }

    ghost predicate Valid() {
      && cur.Length == prev.Length == node.Length == row.Length == NCAND && lamsf.Length == 2 * MAXDIFF + 1
      && cur != prev && node != lamsf && ts.Valid()
      && cur !in {ts.vals, ts.padk} && prev !in {ts.vals, ts.padk} && row != ts.idxs && ts.kern !in {node, lamsf}
    }

    /** The forward pass: the tables of the dynamic program. dp is whichever of
        the two cost rows holds the last band. */
    method Forward(p: Problem, lam: real) returns (dp: array<Cost>, bp: seq<seq<nat>>, ghost costs: seq<seq<Cost>>)
      requires Valid() && p.Valid() && |p.act| > 0
      modifies Arrays()
      ensures dp in {cur, prev} && |costs| == |p.act| && Tables(p, lam, costs, bp)
      ensures dp[..p.Size(|p.act| - 1)] == costs[|p.act| - 1]
    {
      hide Nodes, Weights, StepIs;
      ScaleWeights(lamsf, p, lam);
      NodeCost(node, p, 0, lam);
      dp := cur;
      var dpp := prev;
      var o := 0;
      while o < p.Size(0)
        invariant 0 <= o <= p.Size(0)
        invariant forall i: nat :: i < o ==> dp[i] == Fin(Nodes(p, lam, 0)[i])
        invariant node[..p.Size(0)] == Nodes(p, lam, 0) && lamsf[..] == Weights(p, lam)
      {
        assert node[o] == node[..p.Size(0)][o];
        dp[o] := Fin(node[o]);
        o := o + 1;
      }
      bp := [[]];
      costs := [dp[..p.Size(0)]];
      var k := 1;
      while k < |p.act|
        invariant 1 <= k <= |p.act| && |costs| == k && Tables(p, lam, costs, bp)
        invariant dp in {cur, prev} && dpp in {cur, prev} && dp != dpp
        invariant dp[..p.Size(k - 1)] == costs[k - 1] && lamsf[..] == Weights(p, lam)
      {
        var b, pb := p.act[k], p.act[k - 1];
        NodeCost(node, p, k, lam);
        dp, dpp := dpp, dp;
        StepPadded(dp, row, dpp, node, lamsf, p.bnc[b], p.bnc[pb], p.blo[b] - p.blo[pb], p.step, MAXDIFF, ts);
        TablesSnoc(p, lam, costs, bp, dp[..p.bnc[b]], row[..p.bnc[b]]);
        bp := bp + [row[..p.bnc[b]]];
        costs := costs + [dp[..p.bnc[b]]];
        k := k + 1;
      }
    }
  }

  lemma TablesSnoc(p: Problem, lam: real, costs: seq<seq<Cost>>, backs: seq<seq<nat>>, dp: seq<Cost>, bp: seq<nat>)
    requires p.Valid() && Tables(p, lam, costs, backs) && |costs| < |p.act|
    requires LayerIs(p, lam, dp, bp, costs[|costs| - 1], |costs|)
    ensures Tables(p, lam, costs + [dp], backs + [bp])
  {
    hide LayerIs, Nodes;
    var costs', backs' := costs + [dp], backs + [bp];
    forall k: nat | 0 < k < |costs'| ensures LayerIs(p, lam, costs'[k], backs'[k], costs'[k - 1], k) {
      assert k < |costs| ==> LayerIs(p, lam, costs[k], backs[k], costs[k - 1], k);
    }
  }

  /** The first of the cheapest entries. */
  method FirstCheapest(dp: array<Cost>, n: nat) returns (beo: nat)
    requires 1 <= n <= dp.Length
    ensures beo < n
    ensures forall o: nat :: o < n ==> !Less(dp[o], dp[beo]) && (o < beo && dp[o].Fin? ==> Less(dp[beo], dp[o]))
  {
    beo := 0;
    var bec := Inf;
    var o := 0;
    while o < n
      invariant 0 <= o <= n && beo < n
      invariant bec.Inf? ==> beo == 0 && forall i: nat :: i < o ==> dp[i] == Inf
      invariant bec.Fin? ==> beo < o && dp[beo] == bec
      invariant bec.Fin? ==> forall i: nat :: i < o ==>
                !Less(dp[i], bec) && (i < beo && dp[i].Fin? ==> Less(bec, dp[i]))
    {
      if Less(dp[o], bec) {
        bec := dp[o];
        beo := o;
      }
      o := o + 1;
    }
  }

  /** The candidates picked for the bands, in coding order. */
  ghost function Picked(chosen: seq<nat>, act: seq<nat>): (path: seq<nat>)
    requires forall k: nat :: k < |act| ==> act[k] < |chosen|
    ensures |path| == |act|
  {
    seq(|act|, k requires 0 <= k < |act| && act[k] < |chosen| => chosen[act[k]])
  }

  lemma BackStep(p: Problem, lam: real, costs: seq<seq<Cost>>, bp: seq<seq<nat>>, path: seq<nat>, k: nat, o: nat)
    requires p.Valid() && |costs| == |p.act| && Tables(p, lam, costs, bp)
    requires 0 < k < |p.act| && o < p.Size(k) && k < |path| && Back(p, bp, k, o) == path[..k + 1]
    ensures k < |bp| && o < |bp[k]| && bp[k][o] < p.Size(k - 1)
    ensures path[k - 1] == bp[k][o] && Back(p, bp, k - 1, bp[k][o]) == path[..k]
  {
    hide Tables, LayerIs, Via;
    TableShape(p, lam, costs, bp, k);
    TableShape(p, lam, costs, bp, k - 1);
    LayerEntry(p, lam, costs[k], bp[k], costs[k - 1], k, o);
    var b := Back(p, bp, k - 1, bp[k][o]);
    BackLast(p, bp, k - 1, bp[k][o]);
    assert Back(p, bp, k, o) == b + [o];
    assert (b + [o])[..k] == b;
    assert path[..k] == path[..k + 1][..k];
    assert path[k - 1] == path[..k][k - 1];
  }

  method Backtrack(chosen: array<nat>, p: Problem, bp: seq<seq<nat>>, beo: nat, ghost lam: real,
                   ghost costs: seq<seq<Cost>>)
    requires p.Valid() && |p.act| > 0 && chosen.Length == |p.nd|
    requires |costs| == |p.act| && Tables(p, lam, costs, bp) && beo < p.Size(|p.act| - 1)
    modifies chosen
    ensures Picked(chosen[..], p.act) == Back(p, bp, |p.act| - 1, beo)
  {
    hide Tables, Back;
    ghost var path := Back(p, bp, |p.act| - 1, beo);
    BackLast(p, bp, |p.act| - 1, beo);
    var k := |p.act| - 1;
    chosen[p.act[k]] := beo;
    while k > 0
      invariant 0 <= k < |p.act| && chosen[p.act[k]] < p.Size(k)
      invariant Back(p, bp, k, chosen[p.act[k]]) == path[..k + 1]
      invariant forall j: nat :: k <= j < |p.act| ==> chosen[p.act[j]] == path[j]
    {
      var o := chosen[p.act[k]];
      BackStep(p, lam, costs, bp, path, k, o);
      chosen[p.act[k - 1]] := bp[k][o];
      k := k - 1;
    }
  }

  method CountBits(chosen: array<nat>, p: Problem) returns (total: int)
    requires p.Valid() && |p.act| > 0 && chosen.Length == |p.nd|
    requires IsPath(p, Picked(chosen[..], p.act))
    ensures total == Bits(p, Picked(chosen[..], p.act))
  {
    hide Bits, StepBits;
    ghost var path := Picked(chosen[..], p.act);
    total := 0;
    var k := 0;
    while k < |p.act|
      invariant 0 <= k <= |p.act| && total == SpectralBits(p, path, k)
    {
      assert path[k] == chosen[p.act[k]];
      total := total + p.nb[p.act[k]][chosen[p.act[k]]];
      k := k + 1;
    }
    k := 1;
    BitsOne(p, path);
    while k < |p.act|
      invariant 1 <= k <= |p.act|
      invariant IsPath(p, path[..k]) && total
                == Bits(p, path[..k]) + SpectralBits(p, path, |p.act|) - SpectralBits(p, path, k)
    {
      var d := (p.blo[p.act[k]] + chosen[p.act[k]] * p.step) - (p.blo[p.act[k - 1]] + chosen[p.act[k - 1]] * p.step);
      assert path[k] == chosen[p.act[k]] && path[k - 1] == chosen[p.act[k - 1]];
      SameDifference(p, k, path[k - 1], path[k]);
      NextBits(p, path, k);
      total := total + StepBits(p, d);
      k := k + 1;
    }
    assert path[..|p.act|] == path;
  }

  ghost function SpectralBits(p: Problem, path: seq<nat>, k: nat): int
    requires p.Valid() && IsPath(p, path) && k <= |path|
  {
    if k == 0 then 0 else SpectralBits(p, path, k - 1) + p.nb[p.act[k - 1]][path[k - 1]]
  }

  lemma BitsOne(p: Problem, path: seq<nat>)
    requires p.Valid() && IsPath(p, path)
    ensures IsPath(p, path[..1]) && Bits(p, path[..1]) == SpectralBits(p, path, 1)
  {
    assert SpectralBits(p, path, 0) == 0;
  }

  lemma NextBits(p: Problem, path: seq<nat>, k: nat)
    requires p.Valid() && IsPath(p, path) && 0 < k < |path|
    ensures IsPath(p, path[..k]) && IsPath(p, path[..k + 1])
    ensures Bits(p, path[..k + 1])
            == Bits(p, path[..k]) + StepBits(p, p.Step(k, path[k - 1], path[k]))
               + SpectralBits(p, path, k + 1) - SpectralBits(p, path, k)
  {
    var q := path[..k + 1];
    assert q[..k] == path[..k];
    BitsStep(p, q);
  }

  lemma SameDifference(p: Problem, k: nat, op: nat, o: nat)
    requires p.Valid() && 0 < k < |p.act|
    ensures (p.blo[p.act[k]] + o * p.step) - (p.blo[p.act[k - 1]] + op * p.step) == p.Step(k, op, o)
  {
  }

  /** One evaluation of the search at a fixed lambda. */
  method Evaluate(w: Work, chosen: array<nat>, p: Problem, lam: real) returns (total: int)
    requires w.Valid() && p.Valid() && |p.act| > 0 && chosen.Length == |p.nd| && chosen !in w.Arrays()
    modifies w.Arrays(), chosen
    ensures var path := Picked(chosen[..], p.act);
            && IsPath(p, path) && total == Bits(p, path)
            && ((exists q :: Full(p, q)) ==> Optimal(p, lam, path))
  {
    hide Tables, Optimal, Full, Picked, Bits, IsPath;
    var dp, bp;
    ghost var costs;
    dp, bp, costs := w.Forward(p, lam);
    TableShape(p, lam, costs, bp, |p.act| - 1);
    var n := p.Size(|p.act| - 1);
    var beo := FirstCheapest(dp, n);
    ghost var last := dp[..n];
    assert forall o: nat :: o < n ==> last[o] == dp[o];
    TracedIsOptimal(p, lam, costs, bp, beo);
    Backtrack(chosen, p, bp, beo, lam, costs);
    total := CountBits(chosen, p);
  }

  // ----- the bisection

  /** The geometric middle of the bracket, with the platform's square root. */
  function Middle(lo: real, hi: real, sqrt: real -> real): real {
    sqrt(lo * hi)
  }

  ghost function Power(x: real, n: nat): real {
    if n == 0 then 1.0 else x * Power(x, n - 1)
  }

  /** The bracket after evaluations that came out at these bits: one over the
      budget raises the lower end to its lambda, any other lowers the upper. */
  ghost function Bracket(lo: real, hi: real, totals: seq<int>, destbits: int, sqrt: real -> real): (real, real) {
    if |totals| == 0 then (lo, hi)
    else
      var (l, h) := Bracket(lo, hi, totals[..|totals| - 1], destbits, sqrt);
      if totals[|totals| - 1] > destbits then (Middle(l, h, sqrt), h) else (l, Middle(l, h, sqrt))
  }

  /** total is what an evaluation at lam counts. */
  ghost predicate CountedAt(p: Problem, lam: real, total: int)
    requires p.Valid()
  {
    exists path :: IsPath(p, path) && total == Bits(p, path) && ((exists q :: Full(p, q)) ==> Optimal(p, lam, path))
  }

  ghost predicate Counted(p: Problem, lo: real, hi: real, totals: seq<int>, destbits: int, sqrt: real -> real)
    requires p.Valid()
  {
    forall i: nat :: i < |totals| ==>
      var b := Bracket(lo, hi, totals[..i], destbits, sqrt);
      CountedAt(p, Middle(b.0, b.1, sqrt), totals[i])
  }

  lemma CountedSnoc(p: Problem, lo: real, hi: real, totals: seq<int>, total: int, destbits: int, sqrt: real -> real)
    requires p.Valid() && Counted(p, lo, hi, totals, destbits, sqrt)
    requires var b := Bracket(lo, hi, totals, destbits, sqrt);
             CountedAt(p, Middle(b.0, b.1, sqrt), total)
    ensures Counted(p, lo, hi, totals + [total], destbits, sqrt)
  {
    hide CountedAt, Bracket, Middle;
    var more := totals + [total];
    forall i: nat | i < |more|
      ensures var b := Bracket(lo, hi, more[..i], destbits, sqrt);
              CountedAt(p, Middle(b.0, b.1, sqrt), more[i])
    {
      if i < |totals| {
        assert more[..i] == totals[..i];
      } else {
        assert more[..i] == totals;
      }
    }
  }

  lemma {:induction false} PowerOfSquare(x: real, n: nat)
    ensures Power(x * x, n) == Power(x, 2 * n)
  {
    if n > 0 {
      PowerOfSquare(x, n - 1);
      assert Power(x, 2 * n) == x * (x * Power(x, 2 * n - 2));
      Associates(x, x, Power(x, 2 * n - 2));
    }
  }

  lemma Associates(x: real, y: real, z: real)
    ensures x * (y * z) == (x * y) * z
  {
  }

  lemma ProductInside(lo: real, hi: real, m: real)
    requires 0.0 < lo <= hi && m >= 0.0 && m * m == lo * hi
    ensures lo <= m <= hi
  {
    NonNegative(lo, hi - lo);
    NonNegative(hi, hi - lo);
    assert lo * (hi - lo) == lo * hi - lo * lo && hi * (hi - lo) == hi * hi - lo * hi;
    SquareOrder(m, lo);
    SquareOrder(hi, m);
  }

  /** Either half of the bracket has the square root of its ratio. */
  lemma HalfRatio(lo: real, hi: real, m: real)
    requires 0.0 < lo <= hi && m > 0.0 && m * m == lo * hi
    ensures (hi / m) * (hi / m) == hi / lo && (m / lo) * (m / lo) == hi / lo
  {
    assert (m / lo) * lo == m;
  }

  /** With an exact root every evaluation takes the square root of the bracket's
      ratio, so after n of them it is the 2^n-th root. */
  lemma {:induction false} BracketNarrows(lo: real, hi: real, totals: seq<int>, destbits: int, sqrt: real -> real)
    requires IsRoot(sqrt) && 0.0 < lo <= hi
    ensures var b := Bracket(lo, hi, totals, destbits, sqrt);
            && 0.0 < lo <= b.0 <= Middle(b.0, b.1, sqrt) <= b.1 <= hi
            && Power(b.1 / b.0, Pow2(|totals|)) == hi / lo
  {
    hide IsRoot, Power, Middle, Pow2;
    if |totals| == 0 {
      PowerOne(hi / lo);
      MiddleInside(lo, hi, sqrt);
    } else {
      var before := totals[..|totals| - 1];
      var (l, h) := Bracket(lo, hi, before, destbits, sqrt);
      BracketNarrows(lo, hi, before, destbits, sqrt);
      MiddleInside(l, h, sqrt);
      var m := Middle(l, h, sqrt);
      HalfPower(l, h, m, |before|);
      MiddleInside(m, h, sqrt);
      MiddleInside(l, m, sqrt);
    }
  }

  lemma HalfPower(lo: real, hi: real, m: real, n: nat)
    requires 0.0 < lo <= m <= hi && m * m == lo * hi
    ensures Power(hi / m, Pow2(n + 1)) == Power(hi / lo, Pow2(n)) == Power(m / lo, Pow2(n + 1))
  {
    hide Power, Pow2;
    HalfRatio(lo, hi, m);
    PowerOfRoot(hi / m, hi / lo, n);
    PowerOfRoot(m / lo, hi / lo, n);
  }

  lemma PowerOfRoot(x: real, square: real, n: nat)
    requires x * x == square
    ensures Power(x, Pow2(n + 1)) == Power(square, Pow2(n))
  {
    hide Power;
    PowerOfSquare(x, Pow2(n));
  }

  lemma PowerOne(x: real)
    ensures Power(x, Pow2(0)) == x
  {
  }

  lemma MiddleInside(lo: real, hi: real, sqrt: real -> real)
    requires IsRoot(sqrt) && 0.0 < lo <= hi
    ensures var m := Middle(lo, hi, sqrt);
            lo <= m <= hi && m * m == lo * hi
  {
    NonNegative(lo, hi);
    ProductInside(lo, hi, Middle(lo, hi, sqrt));
  }

  /** The bisection. totals are the bits each evaluation counted; lo and hi are
      the bracket the last lambda is the middle of. On return the path is optimal
      for the returned lambda whenever a legal path exists, and an end that moved
      was moved soundly. */
  method Solve(w: Work, chosen: array<nat>, p: Problem, destbits: int, loL: real, hiL: real, iters: nat,
               sqrt: real -> real)
    returns (lam: real, ghost lo: real, ghost hi: real, ghost totals: seq<int>)
    requires w.Valid() && p.Valid() && chosen.Length == |p.nd| && chosen !in w.Arrays()
    modifies w.Arrays(), chosen
    ensures |p.act| == 0 || iters == 0 ==> lam == 1.0 && chosen[..] == old(chosen[..]) && lo == loL && hi == hiL
    ensures |p.act| > 0 && iters > 0 ==>
              && |totals| == iters && Counted(p, loL, hiL, totals, destbits, sqrt)
              && (lo, hi) == Bracket(loL, hiL, totals[..iters - 1], destbits, sqrt)
              && lam == Middle(lo, hi, sqrt)
              && IsPath(p, Picked(chosen[..], p.act)) && totals[iters - 1] == Bits(p, Picked(chosen[..], p.act))
    ensures |p.act| > 0 && iters > 0 && IsRoot(sqrt) && 0.0 < loL <= hiL ==>
              loL <= lo <= lam <= hi <= hiL && Power(hi / lo, Pow2(iters - 1)) == hiL / loL
    ensures |p.act| > 0 && iters > 0 && (exists q :: Full(p, q)) ==>
              && Optimal(p, lam, Picked(chosen[..], p.act))
              && (lo == loL || BelowMisses(p, lo, destbits))
              && (hi == hiL || AboveMeets(p, hi, destbits))
  {
    hide Optimal, Full, Picked, Bits, IsPath, BelowMisses, AboveMeets, Middle, Counted, CountedAt, IsRoot, Power,
         Pow2;
    lam := 1.0;
    lo, hi := loL, hiL;
    totals := [];
    if |p.act| <= 0 {
      return;
    }
    var loW, hiW := loL, hiL;
    var it := 0;
    CountedNone(p, loL, hiL, destbits, sqrt);
    while it < iters
      invariant 0 <= it <= iters && loW == lo && hiW == hi && |totals| == it
      invariant it == 0 ==> lam == 1.0 && chosen[..] == old(chosen[..]) && lo == loL && hi == hiL
      invariant it == iters ==> iters == 0
      invariant (lo, hi) == Bracket(loL, hiL, totals, destbits, sqrt)
      invariant Counted(p, loL, hiL, totals, destbits, sqrt)
      invariant (exists q :: Full(p, q)) ==>
                  && (lo == loL || BelowMisses(p, lo, destbits))
                  && (hi == hiL || AboveMeets(p, hi, destbits))
    {
      lam := Middle(loW, hiW, sqrt);
      var total := Evaluate(w, chosen, p, lam);
      CountedHere(p, lam, Picked(chosen[..], p.act));
      CountedSnoc(p, loL, hiL, totals, total, destbits, sqrt);
      ghost var before := totals;
      totals := totals + [total];
      assert totals[..it] == before;
      if it == iters - 1 {
        if IsRoot(sqrt) && 0.0 < loL <= hiL {
          BracketNarrows(loL, hiL, before, destbits, sqrt);
        }
        return;
      }
      if exists q :: Full(p, q) {
        OptimalIsCheapest(p, lam, Picked(chosen[..], p.act));
        BisectionSound(p, lam, Picked(chosen[..], p.act), destbits);
      }
      if total > destbits {
        loW := lam;
      } else {
        hiW := lam;
      }
      lo, hi := loW, hiW;
      it := it + 1;
    }
  }

  lemma CountedNone(p: Problem, lo: real, hi: real, destbits: int, sqrt: real -> real)
    requires p.Valid()
    ensures Counted(p, lo, hi, [], destbits, sqrt)
  {
  }

  lemma CountedHere(p: Problem, lam: real, path: seq<nat>)
    requires p.Valid() && IsPath(p, path) && ((exists q :: Full(p, q)) ==> Optimal(p, lam, path))
    ensures CountedAt(p, lam, Bits(p, path))
  {
    hide IsPath, Full, Optimal, Bits;
  }

  lemma OptimalIsCheapest(p: Problem, lam: real, path: seq<nat>)
    requires p.Valid() && Optimal(p, lam, path)
    ensures IsPath(p, path) && Cheapest(p, lam, path)
  {
    hide Price, ReadsFirst;
  }
}
