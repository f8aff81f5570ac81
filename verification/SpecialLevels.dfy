/** Which scalefactor a noise or intensity band ends with: of all that its chain
    can carry behind the band before it, the one nearest to its level. */
module SpecialLevels {
  import opened AacSyntax
  import opened AacParse
  import opened ScalefactorChain

  /** The level of a special band, limited to the range of its kind. */
  function LevelOf(b: Bands, s: nat, isLevel: seq<int>, pnsLevel: seq<int>): int
    requires b.Sized() && s < 128 && |isLevel| == |pnsLevel| == 128
  {
    if b.Is(s, Intensity) then Clip(isLevel[s], -155, 100)
    else if b.Is(s, Noise) then Clip(pnsLevel[s], -100, 155)
    else b.sf[s]
  }

  /** The scalefactor of the last band of the kind among the slots. */
  function Last(b: Bands, slots: seq<nat>, k: Kind, first: int): int
    requires b.Sized() && InArray(slots)
    decreases |slots|
  {
    if |slots| == 0 then first
    else Last(b, slots[1..], k, if b.Is(slots[0], k) then b.sf[slots[0]] else first)
  }

  lemma {:induction false} LevelsAt(b: Bands, slots: seq<nat>, isLevel: seq<int>, pnsLevel: seq<int>, i: nat)
    requires b.Sized() && InArray(slots) && Increasing(slots) && |isLevel| == |pnsLevel| == 128 && i < |slots|
    ensures Levels(b, slots, isLevel, pnsLevel).sf[slots[i]] == LevelOf(b, slots[i], isLevel, pnsLevel)
    decreases |slots|
  {
    TailBefore(slots);
    var s := slots[0];
    var v := LevelOf(b, s, isLevel, pnsLevel);
    var b' := b.(sf := b.sf[s := v]);
    LevelsIs(b', slots[1..], isLevel, pnsLevel);
    assert b.sf[s := b.sf[s]] == b.sf;
    if i == 0 {
      OnlySpecialStep(b, b', Levels(b', slots[1..], isLevel, pnsLevel), slots, v);
    } else {
      assert slots[1..][i - 1] == slots[i] && slots[i] != s;
      LevelsAt(b', slots[1..], isLevel, pnsLevel, i - 1);
    }
  }

  /** A band of the second pass is clipped to within 60 of the last of its kind. */
  lemma {:induction false} SmoothAt(b: Bands, slots: seq<nat>, prevN: int, prevI: int, i: nat)
    requires b.Sized() && InArray(slots) && Increasing(slots) && SmoothPre(b, slots, prevN, prevI) && i < |slots|
    ensures var (r, s) := (Smooth(b, slots, prevN, prevI), slots[i]);
            InArray(slots[..i]) && r.sf[s] == if b.Is(s, Intensity)
                then Within60(b.sf[s], Last(r, slots[..i], Intensity, prevI))
                       else if b.Is(s, Noise) then Within60(b.sf[s], Last(r, slots[..i], Noise, prevN))
                       else b.sf[s]
    decreases |slots|
  {
    hide OnlySpecial, SmoothPre;
    TailBefore(slots);
    var s := slots[0];
    var isI, isN := b.Is(s, Intensity), b.Is(s, Noise);
    var v := if isI then Within60(b.sf[s], prevI) else if isN then Within60(b.sf[s], prevN) else b.sf[s];
    var b' := b.(sf := b.sf[s := v]);
    assert b.sf[s := b.sf[s]] == b.sf;
    SmoothPreStep(b, b', slots, prevN, prevI, v);
    var (n, p) := (if isN then v else prevN, if isI then v else prevI);
    var r := Smooth(b', slots[1..], n, p);
    assert r == Smooth(b, slots, prevN, prevI);
    SmoothIs(b', slots[1..], n, p);
    OnlySpecialStep(b, b', r, slots, v);
    if i > 0 {
      SameKinds(b, r, slots);
      assert slots[1..][i - 1] == slots[i] && slots[i] != s;
      assert slots[..i][0] == s && slots[..i][1..] == slots[1..][..i - 1];
      SmoothAt(b', slots[1..], n, p, i - 1);
    }
  }

  function Within60(v: int, prev: int): int {
    Clip(v, prev - SCALE_MAX_DIFF, prev + SCALE_MAX_DIFF)
  }

  /** v can follow prev in a chain, and nothing that can is nearer to want. */
  ghost predicate Nearest(v: int, want: int, prev: int) {
    && -60 <= v - prev <= 60
    && forall u: int :: -60 <= u - prev <= 60 ==> Gap(v, want) <= Gap(u, want)
  }

  function Gap(u: int, v: int): nat {
    Abs(u - v)
  }

  lemma ClipIsNearest(want: int, prev: int)
    ensures Nearest(Within60(want, prev), want, prev)
  {
  }

  /** The first noise band keeps its level. An intensity chain starts at 0. */
  lemma SpecialIsNearest(b: Bands, slots: seq<nat>, isLevel: seq<int>, pnsLevel: seq<int>, i: nat)
    requires b.Sized() && InArray(slots) && Increasing(slots) && |isLevel| == |pnsLevel| == 128 && i < |slots|
    ensures var (r, s, before) := (Special(b, slots, isLevel, pnsLevel), slots[i], slots[..i]);
            var want := LevelOf(b, s, isLevel, pnsLevel);
            && InArray(before)
            && (b.Is(s, Intensity) ==> Nearest(r.sf[s], want, Last(r, before, Intensity, 0)))
            && (b.Is(s, Noise) ==> Nearest(r.sf[s], want, Last(r, before, Noise, want)))
  {
    hide Smooth, Levels, SmoothPre, OnlySpecial, Nearest, Last, FirstNoise;
    var l := Levels(b, slots, isLevel, pnsLevel);
    var f := FirstNoise(l, slots);
    LevelsIs(b, slots, isLevel, pnsLevel);
    SameKinds(b, l, slots);
    LevelsAt(b, slots, isLevel, pnsLevel, i);
    FirstNoiseIs(l, slots);
    Started(l, slots);
    SmoothAt(l, slots, f, 0, i);
    SmoothIs(l, slots, f, 0);
    var r := Smooth(l, slots, f, 0);
    SameKinds(l, r, slots);
    var s := slots[i];
    ClipIsNearest(l.sf[s], Last(r, slots[..i], Intensity, 0));
    ClipIsNearest(l.sf[s], Last(r, slots[..i], Noise, f));
    if b.Is(s, Noise) {
      LastStarts(l, r, slots, i, l.sf[s]);
    }
  }

  lemma Started(l: Bands, slots: seq<nat>)
    requires l.Sized() && InArray(slots)
    requires InRange(l, slots, Intensity, -155, 100) && InRange(l, slots, Noise, -100, 155)
    requires var f := FirstNoise(l, slots);
             -100 <= f <= 155 || forall i :: 0 <= i < |slots| ==> !l.Is(slots[i], Noise)
    ensures SmoothPre(l, slots, FirstNoise(l, slots), 0)
  {
  }

  /** Behind a noise band the start does not matter; a first noise band starts
      with its own level. */
  lemma {:induction false} LastStarts(l: Bands, r: Bands, slots: seq<nat>, i: nat, want: int)
    requires l.Sized() && r.Sized() && InArray(slots) && i < |slots| && l.Is(slots[i], Noise) && want == l.sf[slots[i]]
    requires forall s: nat :: s < 128 ==> (r.Is(s, Noise) <==> l.Is(s, Noise))
    ensures InArray(slots[..i])
    ensures Last(r, slots[..i], Noise, FirstNoise(l, slots)) == Last(r, slots[..i], Noise, want)
    decreases i
  {
    if i > 0 && !l.Is(slots[0], Noise) {
      assert slots[..i][0] == slots[0] && slots[..i][1..] == slots[1..][..i - 1] && slots[1..][i - 1] == slots[i];
      LastStarts(l, r, slots[1..], i - 1, want);
    }
  }
}
