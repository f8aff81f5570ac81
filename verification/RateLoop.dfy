/** The per-frame rate control loop against an arbitrary quantizer: whatever
    size each pass comes out at, the loop ends, and what it accepts is bounded.
    Arithmetic is exact; root is the platform's square root. */
module RateLoop {
  import opened Reals
  import Arith

  const MAX_FRAME_BITS := 6144
  const EPSILON: real := 0.00000011920928955078125  // FLT_EPSILON = 2^-23
  const LAMBDA_MAX: real := 65536.0

  datatype Config = Config(bitrate: nat, sampleRate: nat, strict: bool, nmr: bool)

  /** What one pass of analysis, search and writing comes out with. */
  datatype Pass = Pass(targetBits: nat, frameBits: nat)

  datatype Outcome = Accepted | Failed

  function Min(a: int, b: int): int {
    if a <= b then a else b
  }

  function Max(a: int, b: int): int {
    if a >= b then a else b
  }

  function MinR(a: real, b: real): real {
    if a <= b then a else b
  }

  function MaxR(a: real, b: real): real {
    if a >= b then a else b
  }

  /** The hard ceiling of a frame, leaving room for the end marker. */
  function Ceiling(chans: nat): int {
    MAX_FRAME_BITS * chans - 3
  }

  function RateBits(cfg: Config, chans: nat): int
    requires cfg.sampleRate > 0
  {
    Min(cfg.bitrate * 1024 / cfg.sampleRate, Ceiling(chans))
  }

  /** A frame below the ceiling, or within 1/0.9^4 of the nominal rate. */
  ghost predicate SizeOk(cfg: Config, chans: nat, frameBits: int)
    requires cfg.sampleRate > 0
  {
    frameBits < Ceiling(chans) || frameBits as real * 0.6561 < RateBits(cfg, chans) as real
  }

  /** Where lambda stands above its floor, in tenths of the floor. */
  ghost function Height(lam: real): nat {
    if lam <= EPSILON then 0 else 1 + (lam * 10.0 / EPSILON).Floor
  }

  lemma HeightDrops(lam: real, next: real)
    requires lam > EPSILON && (next <= 0.9 * lam || next <= EPSILON)
    ensures Height(next) < Height(lam)
  {
    if next > EPSILON {
      assert lam * 10.0 / EPSILON - next * 10.0 / EPSILON >= 1.0;
    }
  }

  lemma RatioBelow(rate: int, frame: int)
    requires 0 <= rate <= frame && frame > 0
    ensures 0.0 <= rate as real / frame as real <= 1.0
  {
  }

  lemma QuotientTimes(a: real, b: real)
    requires b > 0.0
    ensures a / b * b == a
  {
  }

  /** The square root of a ratio above 0.9 puts the frame within 1/0.81. */
  lemma RootBound(rate: int, frame: int, root: real -> real)
    requires IsRoot(root) && 0 <= rate && frame > 0
    ensures var q := rate as real / frame as real;
            && q >= 0.0
            && (root(q) > 0.9 ==> frame as real * 0.81 < rate as real)
            && (root(root(q)) > 0.9 ==> frame as real * 0.6561 < rate as real)
            && (rate <= frame ==> root(q) <= 1.0 && root(root(q)) <= 1.0)
  {
    var q := rate as real / frame as real;
    QuotientTimes(rate as real, frame as real);
    NonNegativeQuotient(rate as real, frame as real);
    var s := root(q);
    var t := root(s);
    assert s * s == q && t * t == s;
    SquareOrder(0.9, s);
    SquareOrder(0.9, t);
    SquareOrder(0.81, s);
    SquareOrder(1.0, s);
    SquareOrder(1.0, t);
    assert 0.9 * 0.9 == 0.81 && 0.81 * 0.81 == 0.6561;
    if s > 0.9 {
      Below(rate as real, frame as real, 0.81);
    }
    if t > 0.9 {
      Below(rate as real, frame as real, 0.6561);
    }
    if rate <= frame {
      RatioBelow(rate, frame);
    }
  }

  lemma Below(a: real, b: real, c: real)
    requires b > 0.0 && a / b > c
    ensures b * c < a
  {
    QuotientTimes(a, b);
    ScaleLess(c, a / b, b);
  }

  lemma NonNegativeQuotient(a: real, b: real)
    requires a >= 0.0 && b > 0.0
    ensures a / b >= 0.0
  {
  }

  lemma ScaleLess(a: real, b: real, f: real)
    requires a < b && f > 0.0
    ensures a * f < b * f
  {
    assert (b - a) * f > 0.0;
  }

  lemma ScaleNinth(lam: real, ratio: real)
    requires lam > 0.0 && 0.0 <= ratio <= 0.9
    ensures 0.0 <= Scaled(lam, ratio) <= 0.9 * lam
  {
    assert lam * (0.9 - ratio) >= 0.0;
    assert lam * ratio >= 0.0;
  }

  function Scaled(lam: real, ratio: real): real {
    lam * ratio
  }

  function Corrected(lam: real, ratio: real): real {
    MinR(MaxR(Scaled(lam, ratio), EPSILON), LAMBDA_MAX)
  }

  lemma CorrectedRange(lam: real, ratio: real)
    ensures EPSILON <= Corrected(lam, ratio) <= LAMBDA_MAX
  {
    hide Scaled;
  }

  lemma PinnedAtFloor(lam: real, ratio: real)
    requires lam > 0.0 && 0.0 <= ratio <= 0.9 && lam == Corrected(lam, ratio)
    ensures lam <= EPSILON
  {
    hide Scaled;
    ScaleNinth(lam, ratio);
  }

  lemma FloorDrop(lam: real, ratio: real)
    requires EPSILON <= lam <= LAMBDA_MAX && 0.0 <= ratio <= 0.9 && Corrected(lam, ratio) != lam
    ensures Height(Corrected(lam, ratio)) < Height(lam)
  {
    hide Scaled, Height;
    ScaleNinth(lam, ratio);
    HeightDrops(lam, Corrected(lam, ratio));
  }

  /** The correction factor of one pass. */
  function Ratio(cfg: Config, chans: nat, p: Pass, root: real -> real): real
    requires cfg.sampleRate > 0 && p.frameBits > 0
  {
    var q := RateBits(cfg, chans) as real / p.frameBits as real;
    if Bounds(cfg, chans, p).0 <= p.frameBits <= Bounds(cfg, chans, p).1
    then MinR(MaxR(root(root(q)), 0.9), 1.1)
    else root(q)
  }

  /** Fewest and most bits of a pass that needs no more correction. */
  function Bounds(cfg: Config, chans: nat, p: Pass): (int, int)
    requires cfg.sampleRate > 0
  {
    var rateBits := RateBits(cfg, chans);
    var tooManyBits := Min(Max(p.targetBits, rateBits), Ceiling(chans));
    var tooFewBits := Min(Max(rateBits - rateBits / 4, p.targetBits), tooManyBits);
    (tooFewBits - tooFewBits / 8, tooManyBits + tooManyBits / 2)
  }

  /** A frame the correction leaves alone is small enough, and a frame at the
      ceiling is never corrected upwards. */
  lemma RatioAccepts(cfg: Config, chans: nat, p: Pass, root: real -> real)
    requires cfg.sampleRate > 0 && p.frameBits > 0 && IsRoot(root) && chans >= 1
    ensures var r := Ratio(cfg, chans, p, root);
            && r >= 0.0
            && (r > 0.9 ==> p.frameBits as real * 0.6561 < RateBits(cfg, chans) as real)
            && (p.frameBits >= Ceiling(chans) && !(0.9 < r < 1.1) ==> r <= 0.9)
  {
    hide Bounds;
    RateBitsRange(cfg, chans);
    RootBound(RateBits(cfg, chans), p.frameBits, root);
  }

  lemma RateBitsRange(cfg: Config, chans: nat)
    requires cfg.sampleRate > 0 && chans >= 1
    ensures 0 <= RateBits(cfg, chans) <= Ceiling(chans)
  {
  }

  /** An average-rate pass below the ceiling that is taken as it stands: a later
      pass within bounds, or the sixth and later. */
  predicate Idle(cfg: Config, chans: nat, p: Pass, n: nat)
    requires cfg.sampleRate > 0
  {
    && n > 0 && p.frameBits < Ceiling(chans)
    && (n >= 5 || Bounds(cfg, chans, p).0 <= p.frameBits <= Bounds(cfg, chans, p).1)
  }

  /** Pass n needs no other: the budget is kept, or the noise search stayed below
      the ceiling, or the pass is taken as it stands, or its correction is small. */
  predicate Settled(cfg: Config, chans: nat, p: Pass, n: nat, root: real -> real)
    requires cfg.sampleRate > 0 && p.frameBits > 0
  {
    if cfg.strict then p.frameBits <= RateBits(cfg, chans)
    else
      || (cfg.nmr && p.frameBits < Ceiling(chans))
      || Idle(cfg, chans, p, n)
      || 0.9 < Ratio(cfg, chans, p, root) < 1.1
  }

  /** The lambda of pass n + 1 after that of pass n. */
  function NextLambda(cfg: Config, chans: nat, p: Pass, root: real -> real, lam: real): real
    requires cfg.sampleRate > 0 && p.frameBits > 0
  {
    if cfg.strict then Scaled(lam, MinR(0.9, RateBits(cfg, chans) as real / p.frameBits as real))
    else Corrected(lam, Ratio(cfg, chans, p, root))
  }

  /** The lambda pass n runs with: every pass before it corrected lam0. */
  ghost function LambdaOf(cfg: Config, chans: nat, lam0: real, passes: nat -> Pass, root: real -> real, n: nat): real
    requires cfg.sampleRate > 0 && forall i: nat :: passes(i).frameBits > 0
  {
    if n == 0 then lam0
    else NextLambda(cfg, chans, passes(n - 1), root, LambdaOf(cfg, chans, lam0, passes, root, n - 1))
  }

  /** What an accepted frame leaves for the next one: the strict loop starts over
      from 120, and a pass that was not taken as it stands still corrects. */
  ghost function LambdaLeft(cfg: Config, chans: nat, lam0: real, passes: nat -> Pass, root: real -> real,
                            n: nat): real
    requires cfg.sampleRate > 0 && forall i: nat :: passes(i).frameBits > 0
  {
    if cfg.strict then 120.0
    else if (cfg.nmr && passes(n).frameBits < Ceiling(chans)) || Idle(cfg, chans, passes(n), n)
    then LambdaOf(cfg, chans, lam0, passes, root, n)
    else LambdaOf(cfg, chans, lam0, passes, root, n + 1)
  }

  /** Neither more than half above the larger of target and rate, nor more than
      an eighth below the smaller of that and the larger of target and three
      quarters of the rate; all of it under the ceiling. */
  predicate Near(cfg: Config, chans: nat, p: Pass)
    requires cfg.sampleRate > 0
  {
    var rate := RateBits(cfg, chans);
    var most := Min(Max(p.targetBits, rate), Ceiling(chans));
    2 * p.frameBits <= 3 * most && 8 * p.frameBits >= 7 * Min(most, Max(p.targetBits, rate - rate / 4))
  }

  lemma BoundsAreNear(cfg: Config, chans: nat, p: Pass)
    requires cfg.sampleRate > 0
    ensures Bounds(cfg, chans, p).0 <= p.frameBits <= Bounds(cfg, chans, p).1 <==> Near(cfg, chans, p)
  {
    hide RateBits;
  }

  /** The correction is the square root of the rate's excess over the frame, or in
      the steady state its fourth root kept within a tenth of 1. */
  lemma RatioIs(cfg: Config, chans: nat, p: Pass, root: real -> real)
    requires cfg.sampleRate > 0 && p.frameBits > 0 && IsRoot(root) && chans >= 1
    ensures var (r, rate, frame) := (Ratio(cfg, chans, p, root), RateBits(cfg, chans) as real, p.frameBits as real);
            if Near(cfg, chans, p)
            then
              && 0.9 <= r <= 1.1
              && (0.9 < r < 1.1 ==> r * r * (r * r) * frame == rate)
              && (r == 0.9 ==> rate <= 0.6561 * frame) && (r == 1.1 ==> rate >= 1.4641 * frame)
            else r >= 0.0 && r * r * frame == rate
  {
    hide Bounds, RateBits, Near, MinR, MaxR;
    RateBitsRange(cfg, chans);
    BoundsAreNear(cfg, chans, p);
    var (rate, frame) := (RateBits(cfg, chans) as real, p.frameBits as real);
    var q := rate / frame;
    var roots := Roots(q, rate, frame, root);
    var (s, t) := roots;
    if Near(cfg, chans, p) {
      SteadyIs(t, q, rate, frame);
    } else {
      FarIs(s, q, rate, frame);
    }
  }

  lemma Roots(q: real, rate: real, frame: real, root: real -> real) returns (r: (real, real))
    requires IsRoot(root) && rate >= 0.0 && frame > 0.0 && q == rate / frame
    ensures r == (root(q), root(root(q))) && r.0 * r.0 == q && r.1 * r.1 == r.0 && r.0 >= 0.0 && r.1 >= 0.0
    ensures (r.1 * r.1) * (r.1 * r.1) == q
  {
    NonNegativeQuotient(rate, frame);
    r := (root(q), root(root(q)));
  }

  lemma FarIs(s: real, q: real, rate: real, frame: real)
    requires s * s == q && frame > 0.0 && q == rate / frame
    ensures s * s * frame == rate
  {
    QuotientTimes(rate, frame);
  }

  lemma SteadyIs(t: real, q: real, rate: real, frame: real)
    requires t >= 0.0 && (t * t) * (t * t) == q && frame > 0.0 && q == rate / frame
    ensures var r := MinR(MaxR(t, 0.9), 1.1);
            && 0.9 <= r <= 1.1
            && (0.9 < r < 1.1 ==> r * r * (r * r) * frame == rate)
            && (r == 0.9 ==> rate <= 0.6561 * frame) && (r == 1.1 ==> rate >= 1.4641 * frame)
  {
    QuotientTimes(rate, frame);
    FourthRoot(t, q, rate, frame);
  }

  lemma FourthRoot(t: real, q: real, rate: real, frame: real)
    requires t >= 0.0 && (t * t) * (t * t) == q && q * frame == rate && frame > 0.0
    ensures t <= 0.9 ==> rate <= 0.6561 * frame
    ensures t >= 1.1 ==> rate >= 1.4641 * frame
  {
    NonNegative(t, t);
    assert 0.9 * 0.9 == 0.81 && 0.81 * 0.81 == 0.6561 && 1.1 * 1.1 == 1.21 && 1.21 * 1.21 == 1.4641;
    SquareOrder(0.9, t);
    SquareOrder(0.81, t * t);
    SquareOrder(t, 1.1);
    SquareOrder(t * t, 1.21);
    if t <= 0.9 {
      NonNegative(0.6561 - q, frame);
    }
    if t >= 1.1 {
      NonNegative(q - 1.4641, frame);
    }
  }

  /** How near the rate an average-rate frame comes out: a first pass within
      1.1^4 of it, a second to fifth within that or near its target, any other
      below the ceiling or within it. */
  ghost predicate OnRate(cfg: Config, chans: nat, p: Pass, n: nat)
    requires cfg.sampleRate > 0
  {
    || (p.frameBits as real * 0.6561 < RateBits(cfg, chans) as real < p.frameBits as real * 1.4641)
    || (0 < n < 5 && Near(cfg, chans, p) && p.frameBits < Ceiling(chans))
    || (n >= 5 && p.frameBits < Ceiling(chans))
  }

  /** A root below 1.1 puts the rate within 1.21 of the frame. */
  lemma RootAbove(rate: int, frame: int, root: real -> real)
    requires IsRoot(root) && 0 <= rate && frame > 0
    ensures var q := rate as real / frame as real;
            && (root(q) < 1.1 ==> (rate as real) < frame as real * 1.21)
            && (root(root(q)) < 1.1 ==> (rate as real) < frame as real * 1.4641)
  {
    var q := rate as real / frame as real;
    QuotientTimes(rate as real, frame as real);
    NonNegativeQuotient(rate as real, frame as real);
    var s := root(q);
    var t := root(s);
    assert s * s == q && t * t == s;
    SquareOrder(s, 1.1);
    SquareOrder(t, 1.1);
    SquareOrder(s, 1.21);
    assert 1.1 * 1.1 == 1.21 && 1.21 * 1.21 == 1.4641;
    if s < 1.1 {
      ScaleLess(q, 1.21, frame as real);
    }
    if t < 1.1 {
      ScaleLess(q, 1.4641, frame as real);
    }
  }

  /** What settles an average-rate pass says how near the rate it is. */
  lemma SettledIsOnRate(cfg: Config, chans: nat, p: Pass, n: nat, root: real -> real)
    requires cfg.sampleRate > 0 && p.frameBits > 0 && IsRoot(root) && chans >= 1
    requires Settled(cfg, chans, p, n, root)
    ensures !cfg.strict && !cfg.nmr ==> OnRate(cfg, chans, p, n)
  {
    hide Bounds;
    RateBitsRange(cfg, chans);
    RatioAccepts(cfg, chans, p, root);
    BoundsAreNear(cfg, chans, p);
    RootAbove(RateBits(cfg, chans), p.frameBits, root);
  }

  /** The bits a frame of 1024 samples has at the nominal rate, rounded down and
      under the ceiling. */
  lemma RateBitsAre(cfg: Config, chans: nat)
    requires cfg.sampleRate > 0
    ensures var r := RateBits(cfg, chans);
            && r <= MAX_FRAME_BITS * chans - 3 && r * cfg.sampleRate <= cfg.bitrate * 1024
            && (r < MAX_FRAME_BITS * chans - 3 ==> cfg.bitrate * 1024 < (r + 1) * cfg.sampleRate)
  {
    var (a, d) := (cfg.bitrate * 1024, cfg.sampleRate);
    var q := a / d;
    Quotient(a, d);
    if RateBits(cfg, chans) < q && RateBits(cfg, chans) >= 0 {
      Arith.MulStep(RateBits(cfg, chans), q, d);
    }
  }

  lemma Quotient(a: nat, d: nat)
    requires d > 0
    ensures a / d * d <= a < (a / d + 1) * d
  {
    Arith.MulSucc(a / d, d);
  }

  /** The frame loop. passes gives the size each pass comes out at; the loop
      ends whatever they are, at the first pass that settles. A failure happens
      only with lambda at its floor and the frame still over the budget. */
  method EncodeFrameRateLoop(cfg: Config, chans: nat, lam0: real, passes: nat -> Pass, root: real -> real)
    returns (out: Outcome, lam: real, pass: nat)
    requires 1 <= chans <= 2 && cfg.sampleRate > 0 && IsRoot(root)
    requires lam0 > 0.0 && forall i: nat :: passes(i).frameBits > 0
    ensures forall i: nat :: i < pass ==> !Settled(cfg, chans, passes(i), i, root)
    ensures out.Accepted? <==> Settled(cfg, chans, passes(pass), pass, root)
    ensures out.Accepted? ==> lam == LambdaLeft(cfg, chans, lam0, passes, root, pass)
    ensures out.Accepted? ==> SizeOk(cfg, chans, passes(pass).frameBits)
    ensures out.Accepted? && !cfg.strict && !cfg.nmr ==> OnRate(cfg, chans, passes(pass), pass)
    ensures out.Accepted? && !cfg.strict && !cfg.nmr ==> EPSILON <= lam <= LAMBDA_MAX
    ensures out.Accepted? && cfg.strict ==> lam == 120.0 && passes(pass).frameBits <= RateBits(cfg, chans)
    ensures out.Failed? ==> lam <= EPSILON && lam == LambdaOf(cfg, chans, lam0, passes, root, pass)
    ensures out.Failed? ==> passes(pass).frameBits > RateBits(cfg, chans) || passes(pass).frameBits >= Ceiling(chans)
  {
    hide Height, IsRoot, Ratio, Bounds, RateBits, Scaled, Corrected, OnRate;
    RateBitsRange(cfg, chans);
    lam := lam0;
    pass := 0;
    var its := 0;
    while true
      invariant 0 <= its <= pass && (!cfg.strict ==> its == pass)
      invariant !cfg.strict ==> lam > 0.0 && (its > 0 ==> EPSILON <= lam <= LAMBDA_MAX)
      invariant cfg.strict ==> its == 0 && lam >= 0.0
      invariant lam == LambdaOf(cfg, chans, lam0, passes, root, pass)
      invariant forall i: nat :: i < pass ==> !Settled(cfg, chans, passes(i), i, root)
      decreases Max(0, 5 - its), Height(lam)
    {
      var p := passes(pass);
      var frameBits := p.frameBits;
      var ceiling := Ceiling(chans);
      if cfg.nmr && !cfg.strict && frameBits < ceiling {
        return Accepted, lam, pass;
      }
      var rateBits := RateBits(cfg, chans);
      if cfg.strict {
        if rateBits < frameBits {
          if lam <= EPSILON {
            return Failed, lam, pass;
          }
          var ratio := rateBits as real / frameBits as real;
          RatioBelow(rateBits, frameBits);
          ScaleNinth(lam, MinR(0.9, ratio));
          HeightDrops(lam, Scaled(lam, MinR(0.9, ratio)));
          lam := Scaled(lam, MinR(0.9, ratio));
          pass := pass + 1;
          continue;
        }
        lam := 120.0;
        return Accepted, lam, pass;
      }
      var (tooFewBits, tooManyBits) := Bounds(cfg, chans, p);
      if its == 0 || (its < 5 && (frameBits < tooFewBits || frameBits > tooManyBits)) || frameBits >= ceiling {
        var ratio := Ratio(cfg, chans, p, root);
        RatioAccepts(cfg, chans, p, root);
        var prevLam := lam;
        lam := Corrected(lam, ratio);
        CorrectedRange(prevLam, ratio);
        if ratio > 0.9 && ratio < 1.1 {
          SettledIsOnRate(cfg, chans, p, pass, root);
          return Accepted, lam, pass;
        }
        if lam == prevLam && frameBits >= ceiling {
          PinnedAtFloor(prevLam, ratio);
          return Failed, lam, pass;
        }
        if its >= 5 {
          FloorDrop(prevLam, ratio);
        }
        its := its + 1;
        pass := pass + 1;
      } else {
        SettledIsOnRate(cfg, chans, p, pass, root);
        return Accepted, lam, pass;
      }
    }
  }

  /** Bytes of the access unit: the frame, the 3-bit end marker, rounded up. */
  function UnitBytes(frameBits: nat): nat {
    (frameBits + 3 + 7) / 8
  }

  lemma FrameBound(rate: int, frame: int)
    requires rate <= 12285 && frame as real * 0.6561 < rate as real
    ensures frame < 18725
  {
  }

  /** Every accepted frame fits the 13-bit length of an ADTS header. */
  lemma AcceptedFitsAdts(cfg: Config, chans: nat, frameBits: nat)
    requires 1 <= chans <= 2 && cfg.sampleRate > 0 && SizeOk(cfg, chans, frameBits)
    ensures frameBits < 18725
    ensures 7 + UnitBytes(frameBits) < 0x2000
  {
    RateBitsRange(cfg, chans);
    if frameBits >= Ceiling(chans) {
      FrameBound(RateBits(cfg, chans), frameBits);
    }
  }
}
