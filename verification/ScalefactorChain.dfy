/** How the encoder keeps every scalefactor delta codable: the final pass of the
    NMR search over the normal bands, the derivation of the noise and intensity
    scalefactors, and the proof that the writer's range failure is unreachable. */
module ScalefactorChain {
  import opened AacSyntax
  import opened AacParse

  datatype Kind = Normal | Noise | Intensity | NoKind

  function KindOf(bt: nat): Kind {
    if bt < RESERVED_BT then Normal else if bt == NOISE_BT then Noise
    else if bt == INTENSITY_BT || bt == INTENSITY_BT2 then Intensity else NoKind
  }

  /** Band arrays as values: zero flags, band types, scalefactors. */
  datatype Bands = Bands(z: seq<bool>, bt: seq<nat>, sf: seq<int>) {
    predicate Sized() { |z| == |bt| == |sf| == 128 }

    predicate Is(s: nat, k: Kind)
      requires Sized() && s < 128
    {
      !z[s] && KindOf(bt[s]) == k
    }
  }

  predicate InArray(slots: seq<nat>) {
    forall i :: 0 <= i < |slots| ==> slots[i] < 128
  }

  predicate Increasing(slots: seq<nat>) {
    forall i, j :: 0 <= i < j < |slots| ==> slots[i] < slots[j]
  }

  /** Along the slots, every band of the kind is within 60 of the one before it. */
  predicate ChainOk(b: Bands, slots: seq<nat>, k: Kind, prev: Option<int>)
    requires b.Sized() && InArray(slots)
    decreases |slots|
  {
    |slots| > 0 ==>
      var s := slots[0];
      if b.Is(s, k)
      then (prev.Some? ==> -60 <= b.sf[s] - prev.value <= 60) && ChainOk(b, slots[1..], k, Some(b.sf[s]))
      else ChainOk(b, slots[1..], k, prev)
  }

  /** All bands of the kind are within bounds. */
  predicate InRange(b: Bands, slots: seq<nat>, k: Kind, lo: int, hi: int)
    requires b.Sized() && InArray(slots)
  {
    forall i :: 0 <= i < |slots| && b.Is(slots[i], k) ==> lo <= b.sf[slots[i]] <= hi
  }

  /** Chains only look at the slots they walk. */
  lemma {:induction false} ChainFrame(b: Bands, b': Bands, slots: seq<nat>, k: Kind, prev: Option<int>)
    requires b.Sized() && b'.Sized() && InArray(slots)
    requires forall i :: 0 <= i < |slots| ==>
             (b.Is(slots[i], k) <==> b'.Is(slots[i], k)) && (b.Is(slots[i], k) ==> b.sf[slots[i]] == b'.sf[slots[i]])
    ensures ChainOk(b, slots, k, prev) <==> ChainOk(b', slots, k, prev)
    decreases |slots|
  {
    if |slots| > 0 {
      var s := slots[0];
      assert b.Is(slots[0], k) <==> b'.Is(slots[0], k);
      assert forall i :: 0 <= i < |slots[1..]| ==> slots[1..][i] == slots[i + 1];
      ChainFrame(b, b', slots[1..], k, if b.Is(s, k) then Some(b.sf[s]) else prev);
    }
  }

  // ----- noise and intensity scalefactors

  /** First pass: the levels of the special bands, clipped to their ranges. The
      levels are the rounded logarithms of the band energies. */
  function Levels(b: Bands, slots: seq<nat>, isLevel: seq<int>, pnsLevel: seq<int>): (r: Bands)
    requires b.Sized() && InArray(slots) && |isLevel| == |pnsLevel| == 128
    ensures r.Sized()
    decreases |slots|
  {
    if |slots| == 0 then b
    else
      var s := slots[0];
      var sf := if b.Is(s, Intensity) then Clip(isLevel[s], -155, 100)
                else if b.Is(s, Noise) then Clip(pnsLevel[s], -100, 155) else b.sf[s];
      Levels(b.(sf := b.sf[s := sf]), slots[1..], isLevel, pnsLevel)
  }

  /** Second pass: each special band clipped to within 60 of the one before it of
      its kind. */
  function Smooth(b: Bands, slots: seq<nat>, prevN: int, prevI: int): (r: Bands)
    requires b.Sized() && InArray(slots)
    ensures r.Sized()
    decreases |slots|
  {
    if |slots| == 0 then b
    else
      var s := slots[0];
      if b.Is(s, Intensity) then
        var v := Clip(b.sf[s], prevI - SCALE_MAX_DIFF, prevI + SCALE_MAX_DIFF);
        Smooth(b.(sf := b.sf[s := v]), slots[1..], prevN, v)
      else if b.Is(s, Noise) then
        var v := Clip(b.sf[s], prevN - SCALE_MAX_DIFF, prevN + SCALE_MAX_DIFF);
        Smooth(b.(sf := b.sf[s := v]), slots[1..], v, prevI)
      else Smooth(b, slots[1..], prevN, prevI)
  }

  /** The scalefactor of the first noise band, -255 when there is none. */
  function FirstNoise(b: Bands, slots: seq<nat>): int
    requires b.Sized() && InArray(slots)
    decreases |slots|
  {
    if |slots| == 0 then -255 else if b.Is(slots[0], Noise) then b.sf[slots[0]] else FirstNoise(b, slots[1..])
  }

  function Special(b: Bands, slots: seq<nat>, isLevel: seq<int>, pnsLevel: seq<int>): (r: Bands)
    requires b.Sized() && InArray(slots) && |isLevel| == |pnsLevel| == 128
    ensures r.Sized()
  {
    var l := Levels(b, slots, isLevel, pnsLevel);
    Smooth(l, slots, FirstNoise(l, slots), 0)
  }

  predicate IsSpecial(b: Bands, s: nat)
    requires b.Sized() && s < 128
  {
    b.Is(s, Noise) || b.Is(s, Intensity)
  }

  /** s comes before all the slots. */
  predicate Before(s: nat, slots: seq<nat>) {
    |slots| > 0 ==> s < slots[0]
  }

  lemma TailBefore(slots: seq<nat>)
    requires |slots| > 0 && Increasing(slots) && InArray(slots)
    ensures Before(slots[0], slots[1..]) && Increasing(slots[1..]) && InArray(slots[1..])
    ensures forall s: nat :: Before(s, slots) ==> Before(s, slots[1..])
  {
  }

  /** r has the flags and types of b, and its scalefactors except at special
      bands among the slots. */
  ghost predicate OnlySpecial(b: Bands, r: Bands, slots: seq<nat>)
    requires b.Sized()
  {
    && r.Sized() && r.z == b.z && r.bt == b.bt
    && forall s: nat :: s < 128 && (!IsSpecial(b, s) || Before(s, slots)) ==> r.sf[s] == b.sf[s]
  }

  lemma OnlySpecialStep(b: Bands, b': Bands, r: Bands, slots: seq<nat>, v: int)
    requires b.Sized() && |slots| > 0 && InArray(slots) && Increasing(slots)
    requires b' == b.(sf := b.sf[slots[0] := v]) && (IsSpecial(b, slots[0]) || b' == b)
    requires OnlySpecial(b', r, slots[1..])
    ensures OnlySpecial(b, r, slots) && r.sf[slots[0]] == v
  {
    TailBefore(slots);
    forall s: nat | s < 128 && (!IsSpecial(b, s) || Before(s, slots))
      ensures r.sf[s] == b.sf[s]
    {
      assert Before(s, slots) ==> Before(s, slots[1..]);
      assert IsSpecial(b', s) <==> IsSpecial(b, s);
    }
  }

  lemma InRangeStep(b: Bands, slots: seq<nat>, k: Kind, lo: int, hi: int)
    requires b.Sized() && InArray(slots) && |slots| > 0
    ensures InRange(b, slots, k, lo, hi)
            <==> (b.Is(slots[0], k) ==> lo <= b.sf[slots[0]] <= hi) && InRange(b, slots[1..], k, lo, hi)
  {
    if InRange(b, slots, k, lo, hi) {
      assert forall i :: 0 <= i < |slots[1..]| ==> slots[1..][i] == slots[i + 1];
    } else {
      var i :| 0 <= i < |slots| && b.Is(slots[i], k) && !(lo <= b.sf[slots[i]] <= hi);
      if i > 0 {
        assert slots[1..][i - 1] == slots[i];
      }
    }
  }

  /** Changing a slot before the walk does not affect its ranges. */
  lemma InRangeFrame(b: Bands, b': Bands, slots: seq<nat>, k: Kind, lo: int, hi: int)
    requires b.Sized() && b'.Sized() && InArray(slots) && b'.z == b.z && b'.bt == b.bt
    requires forall i :: 0 <= i < |slots| ==> b'.sf[slots[i]] == b.sf[slots[i]]
    requires InRange(b, slots, k, lo, hi)
    ensures InRange(b', slots, k, lo, hi)
  {
  }

  lemma {:induction false} LevelsIs(b: Bands, slots: seq<nat>, isLevel: seq<int>, pnsLevel: seq<int>)
    requires b.Sized() && InArray(slots) && Increasing(slots) && |isLevel| == |pnsLevel| == 128
    ensures var r := Levels(b, slots, isLevel, pnsLevel);
            && OnlySpecial(b, r, slots)
            && InRange(r, slots, Intensity, -155, 100) && InRange(r, slots, Noise, -100, 155)
    decreases |slots|
  {
    hide InRange;
    if |slots| > 0 {
      hide OnlySpecial;
      TailBefore(slots);
      var s := slots[0];
      var sf := if b.Is(s, Intensity) then Clip(isLevel[s], -155, 100)
                else if b.Is(s, Noise) then Clip(pnsLevel[s], -100, 155) else b.sf[s];
      var b' := b.(sf := b.sf[s := sf]);
      assert b.sf[s := b.sf[s]] == b.sf;
      LevelsIs(b', slots[1..], isLevel, pnsLevel);
      var r := Levels(b', slots[1..], isLevel, pnsLevel);
      OnlySpecialStep(b, b', r, slots, sf);
      SameKinds(b, r, slots);
      InRangeStep(r, slots, Intensity, -155, 100);
      InRangeStep(r, slots, Noise, -100, 155);
    } else {
      EmptyRange(b, Intensity, -155, 100);
      EmptyRange(b, Noise, -100, 155);
    }
  }

  lemma SameKinds(b: Bands, r: Bands, slots: seq<nat>)
    requires b.Sized() && OnlySpecial(b, r, slots)
    ensures r.Sized() && forall s: nat, k :: s < 128 ==> (r.Is(s, k) <==> b.Is(s, k))
  {
  }

  lemma EmptyRange(b: Bands, k: Kind, lo: int, hi: int)
    requires b.Sized()
    ensures InRange(b, [], k, lo, hi)
  {
  }

  ghost predicate SmoothPre(b: Bands, slots: seq<nat>, prevN: int, prevI: int)
    requires b.Sized() && InArray(slots)
  {
    && InRange(b, slots, Intensity, -155, 100) && InRange(b, slots, Noise, -100, 155)
    && -155 <= prevI <= 100
    && (-100 <= prevN <= 155 || forall i :: 0 <= i < |slots| ==> !b.Is(slots[i], Noise))
  }

  lemma SmoothPreStep(b: Bands, b': Bands, slots: seq<nat>, prevN: int, prevI: int, v: int)
    requires b.Sized() && InArray(slots) && Increasing(slots) && |slots| > 0 && SmoothPre(b, slots, prevN, prevI)
    requires b' == b.(sf := b.sf[slots[0] := v])
    requires v == if b.Is(slots[0], Intensity) then Clip(b.sf[slots[0]], prevI - SCALE_MAX_DIFF, prevI + SCALE_MAX_DIFF)
                  else if b.Is(slots[0], Noise)
                      then Clip(b.sf[slots[0]], prevN - SCALE_MAX_DIFF, prevN + SCALE_MAX_DIFF) else b.sf[slots[0]]
    ensures InArray(slots[1..])
    ensures SmoothPre(b', slots[1..], if b.Is(slots[0], Noise) then v else prevN, if b.Is(slots[0], Intensity) then v
                      else prevI)
    ensures b.Is(slots[0], Intensity) ==> -155 <= v <= 100
    ensures b.Is(slots[0], Noise) ==> -100 <= v <= 155
  {
    TailBefore(slots);
    assert forall i :: 0 <= i < |slots[1..]| ==> slots[1..][i] == slots[i + 1] && slots[i + 1] != slots[0];
    InRangeStep(b, slots, Intensity, -155, 100);
    InRangeStep(b, slots, Noise, -100, 155);
    InRangeFrame(b, b', slots[1..], Intensity, -155, 100);
    InRangeFrame(b, b', slots[1..], Noise, -100, 155);
  }

  lemma {:induction false} SmoothIs(b: Bands, slots: seq<nat>, prevN: int, prevI: int)
    requires b.Sized() && InArray(slots) && Increasing(slots) && SmoothPre(b, slots, prevN, prevI)
    ensures var r := Smooth(b, slots, prevN, prevI);
            && OnlySpecial(b, r, slots)
            && InRange(r, slots, Intensity, -155, 100) && InRange(r, slots, Noise, -100, 155)
            && ChainOk(r, slots, Intensity, Some(prevI)) && ChainOk(r, slots, Noise, Some(prevN))
    decreases |slots|
  {
    hide InRange;
    if |slots| > 0 {
      hide OnlySpecial, SmoothPre;
      TailBefore(slots);
      var s := slots[0];
      var isI, isN := b.Is(s, Intensity), b.Is(s, Noise);
      var v := if isI then Clip(b.sf[s], prevI - SCALE_MAX_DIFF, prevI + SCALE_MAX_DIFF)
               else if isN then Clip(b.sf[s], prevN - SCALE_MAX_DIFF, prevN + SCALE_MAX_DIFF) else b.sf[s];
      var b' := b.(sf := b.sf[s := v]);
      assert b.sf[s := b.sf[s]] == b.sf;
      SmoothPreStep(b, b', slots, prevN, prevI, v);
      SmoothIs(b', slots[1..], if isN then v else prevN, if isI then v else prevI);
      var r := Smooth(b', slots[1..], if isN then v else prevN, if isI then v else prevI);
      assert r == Smooth(b, slots, prevN, prevI);
      OnlySpecialStep(b, b', r, slots, v);
      SameKinds(b, r, slots);
      InRangeStep(r, slots, Intensity, -155, 100);
      InRangeStep(r, slots, Noise, -100, 155);
    } else {
      EmptyRange(b, Intensity, -155, 100);
      EmptyRange(b, Noise, -100, 155);
    }
  }

  lemma {:induction false} FirstNoiseIs(b: Bands, slots: seq<nat>)
    requires b.Sized() && InArray(slots) && InRange(b, slots, Noise, -100, 155)
    ensures var f := FirstNoise(b, slots);
            -100 <= f <= 155 || forall i :: 0 <= i < |slots| ==> !b.Is(slots[i], Noise)
    decreases |slots|
  {
    if |slots| > 0 && !b.Is(slots[0], Noise) {
      assert forall i :: 0 <= i < |slots[1..]| ==> slots[1..][i] == slots[i + 1];
      FirstNoiseIs(b, slots[1..]);
      assert forall i :: 0 < i < |slots| ==> slots[i] == slots[1..][i - 1];
    }
  }

  /** A chain that holds from a given value also holds from nowhere. */
  lemma ChainFromNone(b: Bands, slots: seq<nat>, k: Kind, prev: Option<int>)
    requires b.Sized() && InArray(slots) && ChainOk(b, slots, k, prev)
    ensures ChainOk(b, slots, k, None)
    decreases |slots|
  {
    if |slots| > 0 && !b.Is(slots[0], k) {
      ChainFromNone(b, slots[1..], k, prev);
    }
  }

  /** After SetSpecialBandScalefactors both special chains are codable and in
      range, and no other scalefactor has changed. */
  lemma SpecialIs(b: Bands, slots: seq<nat>, isLevel: seq<int>, pnsLevel: seq<int>)
    requires b.Sized() && InArray(slots) && Increasing(slots) && |isLevel| == |pnsLevel| == 128
    ensures var r := Special(b, slots, isLevel, pnsLevel);
            && r.z == b.z && r.bt == b.bt && (forall s: nat :: s < 128 && !IsSpecial(b, s) ==> r.sf[s] == b.sf[s])
            && InRange(r, slots, Intensity, -155, 100) && InRange(r, slots, Noise, -100, 155)
            && ChainOk(r, slots, Intensity, Some(0)) && ChainOk(r, slots, Noise, None)
  {
    hide ChainOk, Levels, Smooth, FirstNoise;
    LevelsIs(b, slots, isLevel, pnsLevel);
    var l := Levels(b, slots, isLevel, pnsLevel);
    SameKinds(b, l, slots);
    FirstNoiseIs(l, slots);
    SmoothIs(l, slots, FirstNoise(l, slots), 0);
    var r := Smooth(l, slots, FirstNoise(l, slots), 0);
    ChainFromNone(r, slots, Noise, Some(FirstNoise(l, slots)));
  }
}
