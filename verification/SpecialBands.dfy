/** The encoder's passes over its band arrays that keep every scalefactor delta
    codable: the derivation of the noise and intensity scalefactors. */
module SpecialBands {
  import opened AacSyntax
  import opened BandWalk
  import opened SectionCoder
  import opened ScalefactorChain

  /** The window layout and the arrays of a channel. */
  ghost predicate WellLaid(sce: SingleChannelElement)
    reads sce
  {
    && sce.Sized() && (sce.numWindows == 1 || sce.numWindows == 8)
    && Tiles(sce.groupLen, 0, sce.numWindows)
    && sce.maxSfb <= sce.numSwb <= (if sce.numWindows == 1 then 51 else 15)
  }

  ghost function BandsOf(sce: SingleChannelElement): Bands
    reads sce
  {
    Bands(sce.zeroes, sce.bandType, sce.sfIdx)
  }

  ghost function AllSlots(sce: SingleChannelElement): (s: seq<nat>)
    requires WellLaid(sce)
    reads sce
  {
    Slots(sce.groupLen, 0, sce.numWindows, sce.numSwb)
  }

  /** The slots still to come at band g of the group at window w. */
  ghost function Remaining(gl: seq<nat>, w: nat, n: nat, g: nat, bands: nat): seq<nat>
    requires n <= |gl| && w < n && Tiles(gl, w, n)
  {
    RowSlots(w, g, bands) + Slots(gl, w + gl[w], n, bands)
  }

  lemma RemainingStart(gl: seq<nat>, w: nat, n: nat, bands: nat)
    requires n <= |gl| && Tiles(gl, w, n)
    ensures w < n ==> Slots(gl, w, n, bands) == Remaining(gl, w, n, 0, bands)
    ensures w >= n ==> Slots(gl, w, n, bands) == []
  {
  }

  lemma RemainingStep(gl: seq<nat>, w: nat, n: nat, g: nat, bands: nat)
    requires n <= |gl| && w < n && Tiles(gl, w, n) && g <= bands
    ensures g < bands ==> Remaining(gl, w, n, g, bands) == [w * 16 + g] + Remaining(gl, w, n, g + 1, bands)
    ensures g == bands ==> Remaining(gl, w, n, g, bands) == Slots(gl, w + gl[w], n, bands)
  {
  }

  lemma SlotsFit(gl: seq<nat>, n: nat, bands: nat)
    requires |gl| == 8 && (n == 1 || n == 8) && Tiles(gl, 0, n) && bands <= (if n == 1 then 51 else 15)
    ensures InArray(Slots(gl, 0, n, bands)) && Increasing(Slots(gl, 0, n, bands))
  {
    SlotsInArray(gl, n, bands);
    SlotsOrdered(gl, 0, n, bands);
  }

  lemma InArrayTail(s: nat, rest: seq<nat>)
    requires InArray([s] + rest)
    ensures s < 128 && InArray(rest) && ([s] + rest)[0] == s && ([s] + rest)[1..] == rest
  {
    var all := [s] + rest;
    assert all[0] == s && all[1..] == rest;
    forall i | 0 <= i < |rest| ensures rest[i] < 128 {
      assert all[i + 1] == rest[i];
    }
  }

  lemma LevelsStep(b: Bands, s: nat, rest: seq<nat>, isLevel: seq<int>, pnsLevel: seq<int>)
    requires b.Sized() && InArray([s] + rest) && |isLevel| == |pnsLevel| == 128
    ensures s < 128 && InArray(rest)
    ensures var sf := if b.Is(s, Intensity) then Clip(isLevel[s], -155, 100)
                      else if b.Is(s, Noise) then Clip(pnsLevel[s], -100, 155) else b.sf[s];
            Levels(b, [s] + rest, isLevel, pnsLevel) == Levels(b.(sf := b.sf[s := sf]), rest, isLevel, pnsLevel)
  {
    InArrayTail(s, rest);
  }

  lemma SmoothStep(b: Bands, s: nat, rest: seq<nat>, prevN: int, prevI: int)
    requires b.Sized() && InArray([s] + rest)
    ensures s < 128 && InArray(rest)
    ensures Smooth(b, [s] + rest, prevN, prevI)
            == if b.Is(s, Intensity) then
                 var v := Clip(b.sf[s], prevI - SCALE_MAX_DIFF, prevI + SCALE_MAX_DIFF);
                 Smooth(b.(sf := b.sf[s := v]), rest, prevN, v)
               else if b.Is(s, Noise) then
                 var v := Clip(b.sf[s], prevN - SCALE_MAX_DIFF, prevN + SCALE_MAX_DIFF);
                 Smooth(b.(sf := b.sf[s := v]), rest, v, prevI)
               else Smooth(b, rest, prevN, prevI)
  {
    InArrayTail(s, rest);
  }

  /** The scalefactor of the first noise band as the levels pass sees it. */
  ghost function FirstLevel(b: Bands, slots: seq<nat>, pnsLevel: seq<int>, seen: int): int
    requires b.Sized() && InArray(slots) && |pnsLevel| == 128
    decreases |slots|
  {
    if |slots| == 0 || seen != -255 then seen
    else
      FirstLevel(b, slots[1..], pnsLevel, if b.Is(slots[0], Noise) then Clip(pnsLevel[slots[0]], -100, 155) else -255)
  }

  lemma FirstLevelStep(b: Bands, s: nat, rest: seq<nat>, pnsLevel: seq<int>, seen: int)
    requires b.Sized() && InArray([s] + rest) && |pnsLevel| == 128
    ensures s < 128 && InArray(rest)
    ensures FirstLevel(b, [s] + rest, pnsLevel, seen)
            == FirstLevel(b, rest, pnsLevel, if seen == -255 && b.Is(s, Noise) then Clip(pnsLevel[s], -100, 155)
                          else seen)
  {
    InArrayTail(s, rest);
  }

  /** The flags and types decide where the first noise band is, so the value can
      be read before or after the pass. */
  lemma {:induction false} FirstLevelIsFirstNoise(b: Bands, slots: seq<nat>, isLevel: seq<int>, pnsLevel: seq<int>)
    requires b.Sized() && InArray(slots) && Increasing(slots) && |isLevel| == |pnsLevel| == 128
    ensures FirstLevel(b, slots, pnsLevel, -255) == FirstNoise(Levels(b, slots, isLevel, pnsLevel), slots)
    decreases |slots|
  {
    if |slots| > 0 {
      hide OnlySpecial, Smooth;
      TailBefore(slots);
      var s := slots[0];
      var sf := if b.Is(s, Intensity) then Clip(isLevel[s], -155, 100)
                else if b.Is(s, Noise) then Clip(pnsLevel[s], -100, 155) else b.sf[s];
      var b' := b.(sf := b.sf[s := sf]);
      LevelsIs(b', slots[1..], isLevel, pnsLevel);
      var r := Levels(b', slots[1..], isLevel, pnsLevel);
      SameKinds(b', r, slots[1..]);
      KeptBefore(b', r, slots[1..], s);
      FirstLevelIsFirstNoise(b', slots[1..], isLevel, pnsLevel);
      FirstLevelFlags(b, b', slots[1..], pnsLevel);
    }
  }

  lemma KeptBefore(b: Bands, r: Bands, slots: seq<nat>, s: nat)
    requires b.Sized() && OnlySpecial(b, r, slots) && s < 128 && Before(s, slots)
    ensures r.sf[s] == b.sf[s]
  {
  }

  lemma {:induction false} FirstLevelFlags(b: Bands, b': Bands, slots: seq<nat>, pnsLevel: seq<int>)
    requires b.Sized() && b'.Sized() && InArray(slots) && |pnsLevel| == 128 && b'.z == b.z && b'.bt == b.bt
    ensures FirstLevel(b, slots, pnsLevel, -255) == FirstLevel(b', slots, pnsLevel, -255)
    decreases |slots|
  {
    if |slots| > 0 && !b.Is(slots[0], Noise) {
      FirstLevelFlags(b, b', slots[1..], pnsLevel);
    }
  }

  /** The special scalefactors of a channel. isLevel and pnsLevel are the rounded
      logarithms of the bands' energies. */
  method SetSpecialBandScalefactors(sce: SingleChannelElement, isLevel: seq<int>, pnsLevel: seq<int>)
    requires WellLaid(sce) && |isLevel| == |pnsLevel| == 128
    modifies sce`sfIdx
    ensures WellLaid(sce) && InArray(AllSlots(sce))
    ensures BandsOf(sce) == old(Special(BandsOf(sce), AllSlots(sce), isLevel, pnsLevel))
  {
    hide Tiles, Slots, RowSlots, Levels, Smooth, FirstNoise, FirstLevel, Bands.Is, InArray, Increasing, Remaining;
    ghost var b := BandsOf(sce);
    ghost var slots := AllSlots(sce);
    SlotsFit(sce.groupLen, sce.numWindows, sce.numSwb);
    FirstLevelIsFirstNoise(b, slots, isLevel, pnsLevel);
    var first, bands := LevelsPass(sce, isLevel, pnsLevel);
    if bands == 0 {
      NoSpecial(b, slots, isLevel, pnsLevel);
      return;
    }
    SmoothPass(sce, first, 0);
  }

  ghost function SpecialCount(b: Bands, slots: seq<nat>): nat
    requires b.Sized() && InArray(slots)
    decreases |slots|
  {
    if |slots| == 0 then 0 else (if IsSpecial(b, slots[0]) then 1 else 0) + SpecialCount(b, slots[1..])
  }

  lemma SpecialCountStep(b: Bands, s: nat, rest: seq<nat>)
    requires b.Sized() && InArray([s] + rest)
    ensures s < 128 && InArray(rest)
    ensures SpecialCount(b, [s] + rest) == (if IsSpecial(b, s) then 1 else 0) + SpecialCount(b, rest)
  {
    InArrayTail(s, rest);
  }

  lemma {:induction false} CountFlags(b: Bands, b': Bands, slots: seq<nat>)
    requires b.Sized() && b'.Sized() && InArray(slots) && b'.z == b.z && b'.bt == b.bt
    ensures SpecialCount(b, slots) == SpecialCount(b', slots)
    decreases |slots|
  {
    if |slots| > 0 {
      CountFlags(b, b', slots[1..]);
    }
  }

  /** Without special bands nothing happens at all. */
  lemma {:induction false} NothingSpecial(b: Bands, slots: seq<nat>, isLevel: seq<int>, pnsLevel: seq<int>, prevN: int,
                                          prevI: int)
    requires b.Sized() && InArray(slots) && |isLevel| == |pnsLevel| == 128 && SpecialCount(b, slots) == 0
    ensures Levels(b, slots, isLevel, pnsLevel) == b && Smooth(b, slots, prevN, prevI) == b
    decreases |slots|
  {
    if |slots| > 0 {
      assert b.sf[slots[0] := b.sf[slots[0]]] == b.sf;
      NothingSpecial(b, slots[1..], isLevel, pnsLevel, prevN, prevI);
    }
  }

  lemma NoSpecial(b: Bands, slots: seq<nat>, isLevel: seq<int>, pnsLevel: seq<int>)
    requires b.Sized() && InArray(slots) && |isLevel| == |pnsLevel| == 128 && SpecialCount(b, slots) == 0
    ensures Special(b, slots, isLevel, pnsLevel) == b == Levels(b, slots, isLevel, pnsLevel)
  {
    NothingSpecial(b, slots, isLevel, pnsLevel, FirstNoise(b, slots), 0);
  }

  method LevelsPass(sce: SingleChannelElement, isLevel: seq<int>, pnsLevel: seq<int>) returns (prevN: int, bands: nat)
    requires WellLaid(sce) && |isLevel| == |pnsLevel| == 128 && InArray(AllSlots(sce))
    modifies sce`sfIdx
    ensures WellLaid(sce) && BandsOf(sce) == old(Levels(BandsOf(sce), AllSlots(sce), isLevel, pnsLevel))
    ensures prevN == old(FirstLevel(BandsOf(sce), AllSlots(sce), pnsLevel, -255))
    ensures bands == old(SpecialCount(BandsOf(sce), AllSlots(sce)))
  {
    hide Tiles, Slots, RowSlots, Levels, FirstLevel, SpecialCount, InArray, Remaining;
    ghost var b := BandsOf(sce);
    ghost var slots := AllSlots(sce);
    ghost var first, count := FirstLevel(b, slots, pnsLevel, -255), SpecialCount(b, slots);
    prevN, bands := -255, 0;
    var gl := sce.groupLen;
    var w := 0;
    TilesFacts(gl, 0, sce.numWindows);
    while w < sce.numWindows
      invariant WellLaid(sce) && w <= sce.numWindows && Tiles(gl, w, sce.numWindows)
      invariant InArray(Slots(gl, w, sce.numWindows, sce.numSwb))
      invariant Levels(BandsOf(sce), Slots(gl, w, sce.numWindows, sce.numSwb), isLevel, pnsLevel)
                == Levels(b, slots, isLevel, pnsLevel)
      invariant FirstLevel(BandsOf(sce), Slots(gl, w, sce.numWindows, sce.numSwb), pnsLevel, prevN) == first
      invariant bands + SpecialCount(BandsOf(sce), Slots(gl, w, sce.numWindows, sce.numSwb)) == count
      decreases sce.numWindows - w
    {
      RemainingStart(gl, w, sce.numWindows, sce.numSwb);
      var g := 0;
      while g < sce.numSwb
        invariant WellLaid(sce) && g <= sce.numSwb
        invariant InArray(Remaining(gl, w, sce.numWindows, g, sce.numSwb))
        invariant Levels(BandsOf(sce), Remaining(gl, w, sce.numWindows, g, sce.numSwb), isLevel, pnsLevel)
                  == Levels(b, slots, isLevel, pnsLevel)
        invariant FirstLevel(BandsOf(sce), Remaining(gl, w, sce.numWindows, g, sce.numSwb), pnsLevel, prevN) == first
        invariant bands + SpecialCount(BandsOf(sce), Remaining(gl, w, sce.numWindows, g, sce.numSwb)) == count
      {
        var s := w * 16 + g;
        ghost var rest := Remaining(gl, w, sce.numWindows, g + 1, sce.numSwb);
        ghost var b1 := BandsOf(sce);
        RemainingStep(gl, w, sce.numWindows, g, sce.numSwb);
        LevelsStep(b1, s, rest, isLevel, pnsLevel);
        FirstLevelStep(b1, s, rest, pnsLevel, prevN);
        SpecialCountStep(b1, s, rest);
        assert b1.sf[s := b1.sf[s]] == b1.sf;
        if !sce.zeroes[s] {
          if sce.bandType[s] == INTENSITY_BT || sce.bandType[s] == INTENSITY_BT2 {
            sce.sfIdx := sce.sfIdx[s := Clip(isLevel[s], -155, 100)];
            bands := bands + 1;
          } else if sce.bandType[s] == NOISE_BT {
            sce.sfIdx := sce.sfIdx[s := Clip(pnsLevel[s], -100, 155)];
            if prevN == -255 {
              prevN := sce.sfIdx[s];
            }
            bands := bands + 1;
          }
        }
        FirstLevelAny(b1, BandsOf(sce), rest, pnsLevel, prevN);
        CountFlags(b1, BandsOf(sce), rest);
        g := g + 1;
      }
      RemainingStep(gl, w, sce.numWindows, g, sce.numSwb);
      TilesFacts(gl, w, sce.numWindows);
      w := w + gl[w];
      TilesFacts(gl, w, sce.numWindows);
    }
    RemainingStart(gl, w, sce.numWindows, sce.numSwb);
    LevelsEnd(BandsOf(sce), isLevel, pnsLevel, prevN);
  }

  lemma FirstLevelAny(b: Bands, b': Bands, slots: seq<nat>, pnsLevel: seq<int>, seen: int)
    requires b.Sized() && b'.Sized() && InArray(slots) && |pnsLevel| == 128 && b'.z == b.z && b'.bt == b.bt
    ensures FirstLevel(b, slots, pnsLevel, seen) == FirstLevel(b', slots, pnsLevel, seen)
  {
    FirstLevelFlags(b, b', slots, pnsLevel);
  }

  lemma LevelsEnd(b: Bands, isLevel: seq<int>, pnsLevel: seq<int>, seen: int)
    requires b.Sized() && |isLevel| == |pnsLevel| == 128
    ensures InArray([]) && Levels(b, [], isLevel, pnsLevel) == b && FirstLevel(b, [], pnsLevel, seen) == seen
    ensures SpecialCount(b, []) == 0
  {
  }

  lemma TilesFacts(gl: seq<nat>, w: nat, n: nat)
    requires n <= |gl| && Tiles(gl, w, n)
    ensures w <= n
    ensures w < n ==> 1 <= gl[w] <= n - w && Tiles(gl, w + gl[w], n)
  {
  }

  method SmoothPass(sce: SingleChannelElement, firstN: int, firstI: int)
    requires WellLaid(sce) && InArray(AllSlots(sce))
    modifies sce`sfIdx
    ensures WellLaid(sce) && BandsOf(sce) == old(Smooth(BandsOf(sce), AllSlots(sce), firstN, firstI))
  {
    hide Tiles, Slots, RowSlots, Smooth, InArray, Remaining;
    ghost var b := BandsOf(sce);
    ghost var slots := AllSlots(sce);
    var prevN, prevI := firstN, firstI;
    var gl := sce.groupLen;
    var w := 0;
    TilesFacts(gl, 0, sce.numWindows);
    while w < sce.numWindows
      invariant WellLaid(sce) && w <= sce.numWindows && Tiles(gl, w, sce.numWindows)
      invariant InArray(Slots(gl, w, sce.numWindows, sce.numSwb))
      invariant Smooth(BandsOf(sce), Slots(gl, w, sce.numWindows, sce.numSwb), prevN, prevI)
                == Smooth(b, slots, firstN, firstI)
      decreases sce.numWindows - w
    {
      RemainingStart(gl, w, sce.numWindows, sce.numSwb);
      var g := 0;
      while g < sce.numSwb
        invariant WellLaid(sce) && g <= sce.numSwb
        invariant InArray(Remaining(gl, w, sce.numWindows, g, sce.numSwb))
        invariant Smooth(BandsOf(sce), Remaining(gl, w, sce.numWindows, g, sce.numSwb), prevN, prevI)
                  == Smooth(b, slots, firstN, firstI)
      {
        var s := w * 16 + g;
        ghost var rest := Remaining(gl, w, sce.numWindows, g + 1, sce.numSwb);
        RemainingStep(gl, w, sce.numWindows, g, sce.numSwb);
        SmoothStep(BandsOf(sce), s, rest, prevN, prevI);
        if !sce.zeroes[s] {
          if sce.bandType[s] == INTENSITY_BT || sce.bandType[s] == INTENSITY_BT2 {
            sce.sfIdx := sce.sfIdx[s := Clip(sce.sfIdx[s], prevI - SCALE_MAX_DIFF, prevI + SCALE_MAX_DIFF)];
            prevI := sce.sfIdx[s];
          } else if sce.bandType[s] == NOISE_BT {
            sce.sfIdx := sce.sfIdx[s := Clip(sce.sfIdx[s], prevN - SCALE_MAX_DIFF, prevN + SCALE_MAX_DIFF)];
            prevN := sce.sfIdx[s];
          }
        }
        g := g + 1;
      }
      RemainingStep(gl, w, sce.numWindows, g, sce.numSwb);
      TilesFacts(gl, w, sce.numWindows);
      w := w + gl[w];
      TilesFacts(gl, w, sce.numWindows);
    }
    RemainingStart(gl, w, sce.numWindows, sce.numSwb);
    SmoothEnd(BandsOf(sce), prevN, prevI);
  }

  lemma SmoothEnd(b: Bands, prevN: int, prevI: int)
    requires b.Sized()
    ensures InArray([]) && Smooth(b, [], prevN, prevI) == b
  {
  }
}
