/** From the scalefactor passes to the bitstream: after the frame adjustment and
    the sectioning, every delta the writer codes has a code. */
module LegalChannel {
  import opened AacSyntax
  import opened AacParse
  import opened AacPrint
  import opened BandWalk
  import opened SectionTrellis
  import opened ScalefactorChain
  import opened SpecialBands
  import opened FinalPass
  import opened BitReader
  import opened RoundTripSide

  // ----- walks that leave out bands that are not coded

  /** The slots of the bands of a kind. */
  function Keep(b: Bands, slots: seq<nat>, k: Kind): (r: seq<nat>)
    requires b.Sized() && InArray(slots)
    ensures InArray(r)
  {
    if |slots| == 0 then []
    else (if b.Is(slots[0], k) then [slots[0]] else []) + Keep(b, slots[1..], k)
  }

  lemma {:induction false} KeepChain(b: Bands, slots: seq<nat>, k: Kind, prev: Option<int>)
    requires b.Sized() && InArray(slots)
    ensures ChainOk(b, slots, k, prev) <==> ChainOk(b, Keep(b, slots, k), k, prev)
    decreases |slots|
  {
    hide Keep, ChainOk;
    KeepStep(b, slots, k);
    if |slots| > 0 {
      var s, rest := slots[0], slots[1..];
      KeepChain(b, rest, k, if b.Is(s, k) then Some(b.sf[s]) else prev);
      assert slots == [s] + rest;
      ChainHead(b, s, rest, k, prev);
      if b.Is(s, k) {
        ChainHead(b, s, Keep(b, rest, k), k, prev);
      } else {
        assert [] + Keep(b, rest, k) == Keep(b, rest, k);
      }
    }
  }

  lemma ChainHead(b: Bands, s: nat, rest: seq<nat>, k: Kind, prev: Option<int>)
    requires b.Sized() && InArray(rest) && s < 128
    ensures InArray([s] + rest)
    ensures ChainOk(b, [s] + rest, k, prev)
            <==> if b.Is(s, k)
                 then (prev.Some? ==> -60 <= b.sf[s] - prev.value <= 60) && ChainOk(b, rest, k, Some(b.sf[s]))
                 else ChainOk(b, rest, k, prev)
  {
    assert ([s] + rest)[1..] == rest;
  }

  lemma {:induction false} KeepAppend(b: Bands, x: seq<nat>, y: seq<nat>, k: Kind)
    requires b.Sized() && InArray(x) && InArray(y)
    ensures InArray(x + y) && Keep(b, x + y, k) == Keep(b, x, k) + Keep(b, y, k)
    decreases |x|
  {
    hide Keep;
    KeepStep(b, x, k);
    KeepStep(b, x + y, k);
    if |x| == 0 {
      assert x + y == y;
    } else {
      assert (x + y)[1..] == x[1..] + y;
      KeepAppend(b, x[1..], y, k);
    }
  }

  lemma KeepStep(b: Bands, slots: seq<nat>, k: Kind)
    requires b.Sized() && InArray(slots)
    ensures Keep(b, slots, k)
            == if |slots| == 0 then [] else (if b.Is(slots[0], k) then [slots[0]] else []) + Keep(b, slots[1..], k)
  {
  }

  /** From band lo of the row on, everything is zero. */
  ghost predicate RowZero(z: seq<bool>, w: nat, lo: nat, hi: nat) {
    forall s: nat :: w * 16 + lo <= s < w * 16 + hi && s < |z| ==> z[s]
  }

  ghost predicate TailsZero(z: seq<bool>, gl: seq<nat>, w: nat, n: nat, lo: nat, hi: nat)
    requires n <= |gl| && Tiles(gl, w, n)
    decreases n - w
  {
    w < n ==> RowZero(z, w, lo, hi) && TailsZero(z, gl, w + gl[w], n, lo, hi)
  }

  lemma {:induction false} RowKeep(b: Bands, w: nat, g: nat, lo: nat, hi: nat, k: Kind)
    requires b.Sized() && g <= lo <= hi && RowZero(b.z, w, lo, hi) && InArray(RowSlots(w, g, hi)) && w * 16 + hi <= 128
    ensures InArray(RowSlots(w, g, lo)) && Keep(b, RowSlots(w, g, hi), k) == Keep(b, RowSlots(w, g, lo), k)
    decreases hi - g
  {
    if g < lo {
      InArrayTail(w * 16 + g, RowSlots(w, g + 1, hi));
      RowKeep(b, w, g + 1, lo, hi, k);
      assert RowSlots(w, g, hi)[1..] == RowSlots(w, g + 1, hi);
      assert RowSlots(w, g, lo)[1..] == RowSlots(w, g + 1, lo);
    } else {
      RowAllZero(b, w, g, hi, k);
    }
  }

  lemma {:induction false} RowAllZero(b: Bands, w: nat, g: nat, hi: nat, k: Kind)
    requires b.Sized() && g <= hi && RowZero(b.z, w, g, hi) && w * 16 + hi <= 128
    ensures InArray(RowSlots(w, g, hi)) && Keep(b, RowSlots(w, g, hi), k) == []
    decreases hi - g
  {
    if g < hi {
      hide Keep;
      RowAllZero(b, w, g + 1, hi, k);
      KeepStep(b, RowSlots(w, g, hi), k);
      assert RowSlots(w, g, hi)[1..] == RowSlots(w, g + 1, hi);
    }
  }

  lemma {:induction false} SlotsKeep(b: Bands, gl: seq<nat>, w: nat, n: nat, lo: nat, hi: nat, k: Kind)
    requires b.Sized() && n <= |gl| && Tiles(gl, w, n) && lo <= hi <= (if n == 1 then 51 else 15) && n <= 8
    requires TailsZero(b.z, gl, w, n, lo, hi)
    ensures InArray(Slots(gl, w, n, hi)) && InArray(Slots(gl, w, n, lo))
    ensures Keep(b, Slots(gl, w, n, hi), k) == Keep(b, Slots(gl, w, n, lo), k)
    decreases n - w
  {
    if w < n {
      hide Keep;
      SlotsKeep(b, gl, w + gl[w], n, lo, hi, k);
      RowFits(w, hi);
      RowFits(w, lo);
      RowKeep(b, w, 0, lo, hi, k);
      KeepAppend(b, RowSlots(w, 0, hi), Slots(gl, w + gl[w], n, hi), k);
      KeepAppend(b, RowSlots(w, 0, lo), Slots(gl, w + gl[w], n, lo), k);
    }
  }

  lemma RowFits(w: nat, bands: nat)
    requires w * 16 + bands <= 128
    ensures InArray(RowSlots(w, 0, bands))
  {
    RowSlotsAt(w, 0, bands);
  }

  /** A chain over all bands is the chain over the transmitted ones. */
  lemma ChainRestricted(b: Bands, gl: seq<nat>, n: nat, lo: nat, hi: nat, k: Kind, prev: Option<int>)
    requires b.Sized() && n <= |gl| && n <= 8 && Tiles(gl, 0, n) && lo <= hi <= (if n == 1 then 51 else 15)
    requires TailsZero(b.z, gl, 0, n, lo, hi)
    ensures InArray(Slots(gl, 0, n, hi)) && InArray(Slots(gl, 0, n, lo))
    ensures ChainOk(b, Slots(gl, 0, n, hi), k, prev) <==> ChainOk(b, Slots(gl, 0, n, lo), k, prev)
  {
    hide Keep, ChainOk, Slots;
    SlotsKeep(b, gl, 0, n, lo, hi, k);
    KeepChain(b, Slots(gl, 0, n, hi), k, prev);
    KeepChain(b, Slots(gl, 0, n, lo), k, prev);
  }

  /** The transmitted slots are among all slots. */
  lemma {:induction false} SlotsWithin(gl: seq<nat>, w: nat, n: nat, lo: nat, hi: nat)
    requires n <= |gl| && Tiles(gl, w, n) && lo <= hi
    ensures forall i: nat :: i < |Slots(gl, w, n, lo)| ==> Slots(gl, w, n, lo)[i] in Slots(gl, w, n, hi)
    decreases n - w
  {
    if w < n {
      SlotsWithin(gl, w + gl[w], n, lo, hi);
      RowSlotsAt(w, 0, lo);
      RowSlotsAt(w, 0, hi);
      forall i: nat | i < |Slots(gl, w, n, lo)| ensures Slots(gl, w, n, lo)[i] in Slots(gl, w, n, hi) {
        if i < lo {
          assert RowSlots(w, 0, hi)[i] == w * 16 + i;
        } else {
          assert Slots(gl, w, n, lo)[i] == Slots(gl, w + gl[w], n, lo)[i - lo];
        }
      }
    }
  }

  // ----- what the sectioning does to a band

  /** The band keeps its kind, and a coded band its codebook or a larger one. */
  ghost predicate Sectioned(b: Bands, r: Bands, s: nat)
    requires b.Sized() && r.Sized() && s < 128
  {
    && r.sf[s] == b.sf[s]
    && (r.z[s] <==> r.bt[s] == 0)
    && (b.z[s] ==> r.bt[s] == 0)
    && (!b.z[s] && SpecialType(b.bt[s]) ==> r.bt[s] == b.bt[s])
    && (!b.z[s] && b.bt[s] <= ESC_BT ==> b.bt[s] <= r.bt[s] <= ESC_BT)
  }

  lemma AllowedKeepsKind(g: Group, b: nat, bt': nat)
    requires g.Valid() && b < g.Len() && g.Allowed(b, CbIn(bt')) && bt' == CbOut(CbIn(bt'))
    ensures g.zero[b] ==> bt' == 0
    ensures !g.zero[b] && SpecialType(g.bt[b]) ==> bt' == g.bt[b]
    ensures !g.zero[b] && g.bt[b] <= ESC_BT ==> g.bt[b] <= bt' <= ESC_BT
  {
  }

  /** Sectioning does not disturb the chains. */
  lemma SectionedKinds(b: Bands, r: Bands, s: nat, k: Kind)
    requires b.Sized() && r.Sized() && s < 128 && Sectioned(b, r, s)
    requires !b.z[s] ==> SpecialType(b.bt[s]) || 1 <= b.bt[s] <= ESC_BT
    requires k != NoKind
    ensures b.Is(s, k) <==> r.Is(s, k)
  {
  }

  lemma SectionedChain(b: Bands, r: Bands, slots: seq<nat>, k: Kind, prev: Option<int>)
    requires b.Sized() && r.Sized() && InArray(slots) && k != NoKind
    requires forall i: nat :: i < |slots| ==> Sectioned(b, r, slots[i]) && CodedWell(b, slots[i])
    ensures ChainOk(b, slots, k, prev) <==> ChainOk(r, slots, k, prev)
  {
    forall i | 0 <= i < |slots|
      ensures (b.Is(slots[i], k) <==> r.Is(slots[i], k)) && (b.Is(slots[i], k) ==> b.sf[slots[i]] == r.sf[slots[i]])
    {
      SectionedKinds(b, r, slots[i], k);
    }
    ChainFrame(b, r, slots, k, prev);
  }

  /** A coded band is special or has a codebook. */
  predicate CodedWell(b: Bands, s: nat)
    requires b.Sized() && s < 128
  {
    !b.z[s] ==> SpecialType(b.bt[s]) || 1 <= b.bt[s] <= ESC_BT
  }

  // ----- legality of the written scalefactors

  /** Flags agree with types, and all chains are codable and in range. */
  ghost predicate Chained(b: Bands, slots: seq<nat>, gain: int)
    requires b.Sized() && InArray(slots)
  {
    && (forall i: nat :: i < |slots| ==> FlagAgrees(b, slots[i]))
    && ChainOk(b, slots, Normal, Some(gain)) && InRange(b, slots, Normal, 0, 255)
    && ChainOk(b, slots, Noise, None) && InRange(b, slots, Noise, -100, 155)
    && ChainOk(b, slots, Intensity, Some(0)) && InRange(b, slots, Intensity, -155, 100)
  }

  predicate FlagAgrees(b: Bands, s: nat)
    requires b.Sized() && s < 128
  {
    (b.z[s] <==> b.bt[s] == 0) && (SpecialType(b.bt[s]) || b.bt[s] <= ESC_BT)
  }

  /** The state of the three chains at some point of the walk. */
  ghost predicate ChainsFrom(b: Bands, slots: seq<nat>, ch: Chains)
    requires b.Sized() && InArray(slots)
  {
    && (forall i: nat :: i < |slots| ==> FlagAgrees(b, slots[i]))
    && ChainOk(b, slots, Normal, Some(ch.normal)) && InRange(b, slots, Normal, 0, 255)
    && ChainOk(b, slots, Noise, if ch.noiseFlag then None else Some(ch.noise)) && InRange(b, slots, Noise, -100, 155)
    && ChainOk(b, slots, Intensity, Some(ch.intensity)) && InRange(b, slots, Intensity, -155, 100)
  }

  /** Every band of such a walk is legal, but for the first noise band, whose
      delta may be too low for its nine plain bits. */
  lemma ChainsFromStep(b: Bands, slots: seq<nat>, ch: Chains)
    requires b.Sized() && InArray(slots) && |slots| > 0 && ChainsFrom(b, slots, ch)
    ensures InArray(slots[1..]) && ChainsFrom(b, slots[1..], NextChains(b.bt[slots[0]], b.sf[slots[0]], ch))
    ensures Codable(b.bt[slots[0]], b.sf[slots[0]], ch)
    ensures b.bt[slots[0]] == NOISE_BT <==> b.Is(slots[0], Noise)
    ensures b.Is(slots[0], Noise) ==> -100 <= b.sf[slots[0]] <= 155
    ensures !Preamble(b.bt[slots[0]], ch) ==> LegalSf(b.bt[slots[0]], b.sf[slots[0]], ch)
  {
    var rest := slots[1..];
    assert FlagAgrees(b, slots[0]);
    InRangeStep(b, slots, Normal, 0, 255);
    InRangeStep(b, slots, Noise, -100, 155);
    InRangeStep(b, slots, Intensity, -155, 100);
    forall i: nat | i < |rest| ensures FlagAgrees(b, rest[i]) {
      assert rest[i] == slots[i + 1];
    }
  }

  /** The writer's range failure is unreachable: whatever is not sent with nine
      plain bits has a delta in 0..120. */
  lemma {:induction false} CodableFromChains(b: Bands, slots: seq<nat>, i: nat, ch: Chains)
    requires b.Sized() && InArray(slots) && i <= |slots| && InArray(slots[i..]) && ChainsFrom(b, slots[i..], ch)
    ensures AllCodable(Pick(b.bt, slots), Pick(b.sf, slots), i, ch)
    decreases |slots| - i
  {
    hide ChainsFrom, LegalSf, Codable, NextChains;
    if i < |slots| {
      ChainsFromStep(b, slots[i..], ch);
      assert slots[i..][1..] == slots[i + 1..] && slots[i..][0] == slots[i];
      CodableFromChains(b, slots, i + 1, NextChains(b.bt[slots[i]], b.sf[slots[i]], ch));
    }
  }

  /** The delta of the first noise band still to come does not underrun its nine
      bits. */
  predicate PreambleFits(b: Bands, slots: seq<nat>, ch: Chains)
    requires b.Sized() && InArray(slots)
  {
    ch.noiseFlag && FirstOf(b, slots, Noise).Some? ==> FirstOf(b, slots, Noise).value - ch.noise >= -NOISE_PRE
  }

  lemma PreambleStep(b: Bands, slots: seq<nat>, ch: Chains)
    requires b.Sized() && InArray(slots) && |slots| > 0 && ChainsFrom(b, slots, ch) && InArray(slots[1..])
    requires ch.noiseFlag ==> -90 <= ch.noise
    ensures var bt, sf := b.bt[slots[0]], b.sf[slots[0]];
            && (PreambleFits(b, slots, ch)
                <==> LegalSf(bt, sf, ch) && PreambleFits(b, slots[1..], NextChains(bt, sf, ch)))
            && (NextChains(bt, sf, ch).noiseFlag ==> NextChains(bt, sf, ch).noise == ch.noise && ch.noiseFlag)
  {
    hide ChainsFrom;
    ChainsFromStep(b, slots, ch);
  }

  /** All scalefactors are legal exactly when that delta fits. */
  lemma {:induction false} LegalFromChains(b: Bands, slots: seq<nat>, i: nat, ch: Chains)
    requires b.Sized() && InArray(slots) && i <= |slots| && InArray(slots[i..]) && ChainsFrom(b, slots[i..], ch)
    requires ch.noiseFlag ==> -90 <= ch.noise
    ensures LegalSfs(Pick(b.bt, slots), Pick(b.sf, slots), i, ch) <==> PreambleFits(b, slots[i..], ch)
    decreases |slots| - i
  {
    hide ChainsFrom, LegalSf, NextChains;
    if i < |slots| {
      ChainsFromStep(b, slots[i..], ch);
      assert slots[i..][1..] == slots[i + 1..] && slots[i..][0] == slots[i];
      PreambleStep(b, slots[i..], ch);
      LegalFromChains(b, slots, i + 1, NextChains(b.bt[slots[i]], b.sf[slots[i]], ch));
    }
  }

  lemma ChainedIsCodable(b: Bands, slots: seq<nat>, gain: int)
    requires b.Sized() && InArray(slots) && Chained(b, slots, gain) && 0 <= gain <= 255
    ensures AllCodable(Pick(b.bt, slots), Pick(b.sf, slots), 0, StartChains(gain))
    ensures LegalSfs(Pick(b.bt, slots), Pick(b.sf, slots), 0, StartChains(gain))
            <==> PreambleFits(b, slots, StartChains(gain))
  {
    hide ChainOk, FirstOf, LegalSfs, AllCodable;
    assert slots[0..] == slots;
    CodableFromChains(b, slots, 0, StartChains(gain));
    LegalFromChains(b, slots, 0, StartChains(gain));
  }

  // ----- the first noise band's nine plain bits

  /** What a caller can check beforehand: the clipped level of the first noise
      band is not too far below the gain. */
  predicate NoiseFits(b: Bands, slots: seq<nat>, pnsLevel: seq<int>, gain: int)
    requires b.Sized() && InArray(slots) && |pnsLevel| == 128
  {
    var noise := Keep(b, slots, Noise);
    |noise| > 0 ==> Clip(pnsLevel[noise[0]], -100, 155) >= gain - NOISE_OFFSET - NOISE_PRE
  }

  lemma {:induction false} FirstIsKept(b: Bands, slots: seq<nat>, k: Kind)
    requires b.Sized() && InArray(slots)
    ensures var kept := Keep(b, slots, k);
            FirstOf(b, slots, k) == if |kept| == 0 then None else Some(b.sf[kept[0]])
    decreases |slots|
  {
    if |slots| > 0 {
      FirstIsKept(b, slots[1..], k);
    }
  }

  lemma {:induction false} KeepSame(b: Bands, r: Bands, slots: seq<nat>, k: Kind)
    requires b.Sized() && r.Sized() && InArray(slots) && r.z == b.z && r.bt == b.bt
    ensures Keep(b, slots, k) == Keep(r, slots, k)
    decreases |slots|
  {
    if |slots| > 0 {
      KeepSame(b, r, slots[1..], k);
    }
  }

  lemma {:induction false} LevelsFrame(b: Bands, slots: seq<nat>, isLevel: seq<int>, pnsLevel: seq<int>, t: nat)
    requires b.Sized() && InArray(slots) && Increasing(slots) && Before(t, slots) && t < 128
             && |isLevel| == |pnsLevel| == 128
    ensures Levels(b, slots, isLevel, pnsLevel).sf[t] == b.sf[t]
  {
    LevelsIs(b, slots, isLevel, pnsLevel);
  }

  lemma {:induction false} SmoothFrame(b: Bands, slots: seq<nat>, prevN: int, prevI: int, t: nat)
    requires b.Sized() && InArray(slots) && Increasing(slots) && Before(t, slots) && t < 128
    ensures Smooth(b, slots, prevN, prevI).sf[t] == b.sf[t]
    decreases |slots|
  {
    if |slots| > 0 {
      TailBefore(slots);
      var s, rest := slots[0], slots[1..];
      if b.Is(s, Intensity) {
        var v := Clip(b.sf[s], prevI - SCALE_MAX_DIFF, prevI + SCALE_MAX_DIFF);
        SmoothFrame(b.(sf := b.sf[s := v]), rest, prevN, v, t);
      } else if b.Is(s, Noise) {
        var v := Clip(b.sf[s], prevN - SCALE_MAX_DIFF, prevN + SCALE_MAX_DIFF);
        SmoothFrame(b.(sf := b.sf[s := v]), rest, v, prevI, t);
      } else {
        SmoothFrame(b, rest, prevN, prevI, t);
      }
    }
  }

  /** After the first pass the first noise band holds its clipped level. */
  lemma {:induction false} FirstLevelKept(b: Bands, slots: seq<nat>, isLevel: seq<int>, pnsLevel: seq<int>)
    requires b.Sized() && InArray(slots) && Increasing(slots) && |isLevel| == |pnsLevel| == 128
             && |Keep(b, slots, Noise)| > 0
    ensures var s := Keep(b, slots, Noise)[0];
            Levels(b, slots, isLevel, pnsLevel).sf[s] == Clip(pnsLevel[s], -100, 155)
    decreases |slots|
  {
    TailBefore(slots);
    var s, rest := slots[0], slots[1..];
    var sf := if b.Is(s, Intensity) then Clip(isLevel[s], -155, 100)
              else if b.Is(s, Noise) then Clip(pnsLevel[s], -100, 155) else b.sf[s];
    var b' := b.(sf := b.sf[s := sf]);
    if b.Is(s, Noise) {
      LevelsFrame(b', rest, isLevel, pnsLevel, s);
    } else {
      KeepSame(b, b', rest, Noise);
      FirstLevelKept(b', rest, isLevel, pnsLevel);
    }
  }

  lemma {:induction false} FirstNoiseIsKept(b: Bands, slots: seq<nat>)
    requires b.Sized() && InArray(slots)
    ensures |Keep(b, slots, Noise)| > 0 ==> FirstNoise(b, slots) == b.sf[Keep(b, slots, Noise)[0]]
    decreases |slots|
  {
    if |slots| > 0 && !b.Is(slots[0], Noise) {
      FirstNoiseIsKept(b, slots[1..]);
    }
  }

  /** The second pass starts its noise chain there, so it stays. */
  lemma {:induction false} FirstSmoothed(b: Bands, slots: seq<nat>, prevI: int)
    requires b.Sized() && InArray(slots) && Increasing(slots) && |Keep(b, slots, Noise)| > 0
    ensures var s := Keep(b, slots, Noise)[0];
            Smooth(b, slots, b.sf[s], prevI).sf[s] == b.sf[s]
    decreases |slots|
  {
    TailBefore(slots);
    var s, rest := slots[0], slots[1..];
    if b.Is(s, Noise) {
      assert b.sf[s := b.sf[s]] == b.sf;
      SmoothFrame(b, rest, b.sf[s], prevI, s);
    } else {
      KeptBehind(b, rest, Noise);
      if b.Is(s, Intensity) {
        var v := Clip(b.sf[s], prevI - SCALE_MAX_DIFF, prevI + SCALE_MAX_DIFF);
        KeepSame(b, b.(sf := b.sf[s := v]), rest, Noise);
        assert Keep(b, rest, Noise)[0] != s;
        FirstSmoothed(b.(sf := b.sf[s := v]), rest, v);
      } else {
        FirstSmoothed(b, rest, prevI);
      }
    }
  }

  lemma {:induction false} KeptBehind(b: Bands, slots: seq<nat>, k: Kind)
    requires b.Sized() && InArray(slots)
    ensures forall i: nat :: i < |Keep(b, slots, k)| ==> Keep(b, slots, k)[i] in slots
    decreases |slots|
  {
    if |slots| > 0 {
      KeptBehind(b, slots[1..], k);
      var tail := Keep(b, slots[1..], k);
      forall i: nat | i < |Keep(b, slots, k)| ensures Keep(b, slots, k)[i] in slots {
        if b.Is(slots[0], k) && i == 0 {
        } else {
          var x := Keep(b, slots, k)[i];
          assert x in slots[1..];
        }
      }
    }
  }

  /** The special passes leave the first noise band at its clipped level. */
  lemma SpecialFirst(b: Bands, slots: seq<nat>, isLevel: seq<int>, pnsLevel: seq<int>)
    requires b.Sized() && InArray(slots) && Increasing(slots) && |isLevel| == |pnsLevel| == 128
             && |Keep(b, slots, Noise)| > 0
    ensures var s := Keep(b, slots, Noise)[0];
            Special(b, slots, isLevel, pnsLevel).sf[s] == Clip(pnsLevel[s], -100, 155)
  {
    hide Levels, Smooth, Keep;
    var l := Levels(b, slots, isLevel, pnsLevel);
    LevelsIs(b, slots, isLevel, pnsLevel);
    KeepSame(b, l, slots, Noise);
    FirstLevelKept(b, slots, isLevel, pnsLevel);
    FirstNoiseIsKept(l, slots);
    FirstSmoothed(l, slots, 0);
  }

  /** So the caller's condition is the one on the chain. all is what the passes
      walk, slots what is transmitted. */
  lemma FitsBefore(b: Bands, q: Bands, all: seq<nat>, slots: seq<nat>, isLevel: seq<int>, pnsLevel: seq<int>, gain: int)
    requires b.Sized() && InArray(all) && InArray(slots) && Increasing(all) && |isLevel| == |pnsLevel| == 128
    requires q == Special(b, all, isLevel, pnsLevel) && Keep(b, all, Noise) == Keep(b, slots, Noise)
    requires q.z == b.z && q.bt == b.bt
    ensures PreambleFits(q, slots, StartChains(gain)) <==> NoiseFits(b, slots, pnsLevel, gain)
  {
    hide Special, Keep, FirstOf;
    KeepSame(b, q, slots, Noise);
    FirstIsKept(q, slots, Noise);
    if |Keep(b, slots, Noise)| > 0 {
      SpecialFirst(b, all, isLevel, pnsLevel);
    }
  }

  predicate AllCodable(bt: seq<nat>, sf: seq<int>, i: nat, ch: Chains)
    requires |bt| == |sf|
    decreases |bt| - i
  {
    i < |bt| ==> Codable(bt[i], sf[i], ch) && AllCodable(bt, sf, i + 1, NextChains(bt[i], sf[i], ch))
  }

  // ----- the whole chain of passes

  /** What a scalefactor search hands over: a codable normal chain from a gain in
      0..255, which no special band replaces, and a type for every coded band. */
  ghost predicate NormalReady(b: Bands, all: seq<nat>)
    requires b.Sized() && InArray(all)
  {
    && ChainOk(b, all, Normal, Some(b.sf[0])) && InRange(b, all, Normal, 0, 255)
    && 0 <= b.sf[0] <= 255 && !IsSpecial(b, 0)
    && forall i: nat :: i < |all| ==> CodedWell(b, all[i])
  }

  /** Deriving the special scalefactors (q) and sectioning (r) what a search hands
      over makes every coded delta codable. All scalefactors are legal, the nine
      plain bits of the first noise band included, exactly when its level fits. hi
      is the number of bands the passes walk, lo the number transmitted. */
  lemma SpecialThenSections(b: Bands, q: Bands, r: Bands, isLevel: seq<int>, pnsLevel: seq<int>,
                            gl: seq<nat>, n: nat, lo: nat, hi: nat)
    requires b.Sized() && |isLevel| == |pnsLevel| == 128
    requires |gl| == 8 && (n == 1 || n == 8) && Tiles(gl, 0, n) && lo <= hi <= (if n == 1 then 51 else 15)
    requires InArray(Slots(gl, 0, n, hi)) && InArray(Slots(gl, 0, n, lo))
    requires NormalReady(b, Slots(gl, 0, n, hi)) && q == Special(b, Slots(gl, 0, n, hi), isLevel, pnsLevel)
    requires TailsZero(b.z, gl, 0, n, lo, hi)
    requires r.Sized() && forall i: nat :: i < |Slots(gl, 0, n, lo)| ==> Sectioned(q, r, Slots(gl, 0, n, lo)[i])
    ensures q.sf[0] == b.sf[0] && q.z == b.z && q.bt == b.bt && 0 <= q.sf[0] <= 255
    ensures var slots := Slots(gl, 0, n, lo);
            && (forall i: nat :: i < |slots| ==> CodedWell(q, slots[i]) && FlagAgrees(r, slots[i]))
            && AllCodable(Pick(r.bt, slots), Pick(r.sf, slots), 0, StartChains(q.sf[0]))
            && (LegalSfs(Pick(r.bt, slots), Pick(r.sf, slots), 0, StartChains(q.sf[0]))
                <==> NoiseFits(b, slots, pnsLevel, q.sf[0]))
  {
    hide Special, ChainOk, LegalSfs, AllCodable, FirstOf, TailsZero, Slots, InRange, Sectioned, NoiseFits, PreambleFits,
         Keep, NormalReady, CodedWell;
    var all, slots := Slots(gl, 0, n, hi), Slots(gl, 0, n, lo);
    SlotsOrdered(gl, 0, n, hi);
    SpecialIs(b, all, isLevel, pnsLevel);
    SlotsWithin(gl, 0, n, lo, hi);
    ReadyThroughSpecial(b, q, all, slots);
    ChainRestricted(q, gl, n, lo, hi, Normal, Some(q.sf[0]));
    ChainRestricted(q, gl, n, lo, hi, Noise, None);
    ChainRestricted(q, gl, n, lo, hi, Intensity, Some(0));
    SectionedChain(q, r, slots, Normal, Some(q.sf[0]));
    SectionedChain(q, r, slots, Noise, None);
    SectionedChain(q, r, slots, Intensity, Some(0));
    SectionedRange(q, r, slots, Normal, 0, 255);
    SectionedRange(q, r, slots, Noise, -100, 155);
    SectionedRange(q, r, slots, Intensity, -155, 100);
    SectionedFlags(q, r, slots);
    ChainedIsCodable(r, slots, q.sf[0]);
    SectionedFirst(q, r, slots, StartChains(q.sf[0]));
    SlotsKeep(b, gl, 0, n, lo, hi, Noise);
    FitsBefore(b, q, all, slots, isLevel, pnsLevel, q.sf[0]);
  }

  lemma SectionedFirst(b: Bands, r: Bands, slots: seq<nat>, ch: Chains)
    requires b.Sized() && r.Sized() && InArray(slots)
    requires forall i: nat :: i < |slots| ==> Sectioned(b, r, slots[i]) && CodedWell(b, slots[i])
    ensures FirstOf(b, slots, Noise) == FirstOf(r, slots, Noise)
    ensures PreambleFits(b, slots, ch) <==> PreambleFits(r, slots, ch)
    decreases |slots|
  {
    if |slots| > 0 {
      forall i: nat | i < |slots[1..]| ensures Sectioned(b, r, slots[1..][i]) && CodedWell(b, slots[1..][i]) {
        assert slots[1..][i] == slots[i + 1];
      }
      SectionedFirst(b, r, slots[1..], ch);
      SectionedKinds(b, r, slots[0], Noise);
    }
  }

  /** The special pass leaves the normal chain, the gain and the kinds alone. */
  lemma ReadyThroughSpecial(b: Bands, q: Bands, all: seq<nat>, slots: seq<nat>)
    requires b.Sized() && q.Sized() && InArray(all) && InArray(slots) && NormalReady(b, all)
    requires q.z == b.z && q.bt == b.bt && forall s: nat :: s < 128 && !IsSpecial(b, s) ==> q.sf[s] == b.sf[s]
    requires forall i: nat :: i < |slots| ==> slots[i] in all
    requires InRange(q, all, Intensity, -155, 100) && InRange(q, all, Noise, -100, 155)
    ensures q.sf[0] == b.sf[0] && 0 <= q.sf[0] <= 255
    ensures ChainOk(q, all, Normal, Some(q.sf[0]))
    ensures InRange(q, slots, Normal, 0, 255) && InRange(q, slots, Noise, -100, 155)
            && InRange(q, slots, Intensity, -155, 100)
    ensures forall i: nat :: i < |slots| ==> CodedWell(q, slots[i])
  {
    forall i: nat | i < |slots| ensures CodedWell(q, slots[i]) {
      var j: nat :| j < |all| && all[j] == slots[i];
      assert CodedWell(b, all[j]);
    }
    ChainFrame(b, q, all, Normal, Some(b.sf[0]));
  }

  /** The result for the noise-to-mask coder: after the final pass, the special
      scalefactors (q) and the sectioning (r), the writer's invariant failure is
      unreachable and the gain is in range. The channel can be read back exactly
      when the level of the first noise band fits. */
  lemma EverythingLegal(b: Bands, l: Lookups, q: Bands, r: Bands, isLevel: seq<int>, pnsLevel: seq<int>,
                        gl: seq<nat>, n: nat, lo: nat, hi: nat)
    requires b.Sized() && l.Valid() && |isLevel| == |pnsLevel| == 128
    requires |gl| == 8 && (n == 1 || n == 8) && Tiles(gl, 0, n) && lo <= hi <= (if n == 1 then 51 else 15)
    requires InArray(Slots(gl, 0, n, hi)) && InArray(Slots(gl, 0, n, lo))
    requires PassPre(b, -1, Slots(gl, 0, n, hi), l) && 0 <= b.sf[0] <= 255 && !SpecialType(b.bt[0])
    requires q == Special(Final(b, Slots(gl, 0, n, hi), l), Slots(gl, 0, n, hi), isLevel, pnsLevel)
    requires TailsZero(q.z, gl, 0, n, lo, hi)
    requires r.Sized() && forall i: nat :: i < |Slots(gl, 0, n, lo)| ==> Sectioned(q, r, Slots(gl, 0, n, lo)[i])
    ensures 0 <= q.sf[0] <= 255
    ensures var slots := Slots(gl, 0, n, lo);
            && AllCodable(Pick(r.bt, slots), Pick(r.sf, slots), 0, StartChains(q.sf[0]))
            && (LegalSfs(Pick(r.bt, slots), Pick(r.sf, slots), 0, StartChains(q.sf[0]))
                <==> NoiseFits(Final(b, Slots(gl, 0, n, hi), l), slots, pnsLevel, q.sf[0]))
  {
    hide Final, Special, ChainOk, PassPre, Finished, LegalSfs, AllCodable, FirstOf, TailsZero, Slots, InRange,
         Lookups.Valid, Sectioned, NoiseFits, NormalReady, Keep;
    var all := Slots(gl, 0, n, hi);
    var p := Final(b, all, l);
    FinalReady(b, l, gl, n, hi);
    SlotsOrdered(gl, 0, n, hi);
    SpecialIs(p, all, isLevel, pnsLevel);
    SpecialThenSections(p, q, r, isLevel, pnsLevel, gl, n, lo, hi);
    ReadyGain(p, all);
  }

  /** A long window with one coded band at gain 255 and a noise band after it. */
  function LoudThenNoise(): (b: Bands)
    ensures b.Sized()
  {
    Bands(seq(128, i => i > 1), seq(128, i => if i == 0 then ESC_BT else if i == 1 then NOISE_BT else 0),
          seq(128, i => if i == 0 then 255 else 0))
  }

  /** The condition can fail: this channel is ready for the passes, its one coded
      delta has a code, and yet its noise scalefactor does not come back. */
  lemma NoiseUnderruns(t: Tables, c: Cursor)
    requires t.Valid() && c.Ahead(PrintSf(t, NOISE_BT, -100, StartChains(255)))
    ensures NormalReady(LoudThenNoise(), [0, 1]) && !NoiseFits(LoudThenNoise(), [0, 1], seq(128, _ => -100), 255)
    ensures AllCodable([ESC_BT, NOISE_BT], [255, -100], 0, StartChains(255))
    ensures ParseSf(t, c, NOISE_BT, StartChains(255)).Good? && ParseSf(t, c, NOISE_BT, StartChains(255)).val.sfo == 155
  {
    hide Cursor.Ahead, PrintSf, ParseSf, Tables.Valid;
    var b := LoudThenNoise();
    assert [0, 1][1..] == [1] && [1][1..] == [];
    assert b.Is(0, Normal) && b.Is(1, Noise);
    assert Keep(b, [1], Noise) == [1] && Keep(b, [0, 1], Noise) == [] + [1];
    var ch := NextChains(ESC_BT, 255, StartChains(255));
    assert AllCodable([ESC_BT, NOISE_BT], [255, -100], 2, NextChains(NOISE_BT, -100, ch));
    assert AllCodable([ESC_BT, NOISE_BT], [255, -100], 1, ch);
    PreambleReadsBack(t, c, -100, 255);
  }

  lemma ReadyGain(b: Bands, all: seq<nat>)
    requires b.Sized() && InArray(all) && NormalReady(b, all)
    ensures 0 <= b.sf[0] <= 255 && !IsSpecial(b, 0)
  {
  }

  /** The final pass delivers what the later passes need. */
  lemma FinalReady(b: Bands, l: Lookups, gl: seq<nat>, n: nat, hi: nat)
    requires b.Sized() && l.Valid() && |gl| == 8 && (n == 1 || n == 8) && Tiles(gl, 0, n)
    requires InArray(Slots(gl, 0, n, hi)) && PassPre(b, -1, Slots(gl, 0, n, hi), l) && 0 <= b.sf[0] <= 255
    requires !SpecialType(b.bt[0])
    ensures NormalReady(Final(b, Slots(gl, 0, n, hi), l), Slots(gl, 0, n, hi))
  {
    hide Final, ChainOk, PassPre, Slots, Lookups.Valid, InRange;
    var all := Slots(gl, 0, n, hi);
    var p := Final(b, all, l);
    FinalIs(b, all, l);
    GainSlot(b, l, gl, n, hi);
    forall i: nat | i < |all| ensures CodedWell(p, all[i]) {
      assert TidySlot(p, all[i], l) && SpecialKept(b, p, all[i]);
    }
  }

  lemma SectionedRange(b: Bands, r: Bands, slots: seq<nat>, k: Kind, lo: int, hi: int)
    requires b.Sized() && r.Sized() && InArray(slots) && k != NoKind
    requires forall i: nat :: i < |slots| ==> Sectioned(b, r, slots[i]) && CodedWell(b, slots[i])
    requires InRange(b, slots, k, lo, hi)
    ensures InRange(r, slots, k, lo, hi)
  {
    forall i | 0 <= i < |slots| && r.Is(slots[i], k) ensures lo <= r.sf[slots[i]] <= hi {
      SectionedKinds(b, r, slots[i], k);
    }
  }

  lemma SectionedFlags(b: Bands, r: Bands, slots: seq<nat>)
    requires b.Sized() && r.Sized() && InArray(slots)
    requires forall i: nat :: i < |slots| ==> Sectioned(b, r, slots[i]) && CodedWell(b, slots[i])
    ensures forall i: nat :: i < |slots| ==> FlagAgrees(r, slots[i])
  {
  }

  /** Slot 0 stays without a special type. */
  lemma GainSlot(b: Bands, l: Lookups, gl: seq<nat>, n: nat, hi: nat)
    requires b.Sized() && l.Valid() && |gl| == 8 && (n == 1 || n == 8) && Tiles(gl, 0, n)
    requires InArray(Slots(gl, 0, n, hi)) && PassPre(b, -1, Slots(gl, 0, n, hi), l) && 0 <= b.sf[0] <= 255
    requires !SpecialType(b.bt[0])
    ensures !IsSpecial(Final(b, Slots(gl, 0, n, hi), l), 0)
  {
    hide Final, Slots, PassPre, RowSlots, Tiles, Lookups.Valid;
    var all := Slots(gl, 0, n, hi);
    if hi > 0 {
      SlotsHead(gl, n, hi);
      FinalIs(b, all, l);
      assert SpecialKept(b, Final(b, all, l), all[0]);
    } else {
      NoSlots(gl, 0, n);
      FinalNone(b, l);
    }
  }

  lemma FinalNone(b: Bands, l: Lookups)
    requires b.Sized() && l.Valid()
    ensures InArray([]) && Final(b, [], l) == b
  {
    assert Pass(b, -1, [], l) == (b, -1);
  }

  lemma SlotsHead(gl: seq<nat>, n: nat, hi: nat)
    requires n <= |gl| && n > 0 && Tiles(gl, 0, n) && hi > 0
    ensures |Slots(gl, 0, n, hi)| > 0 && Slots(gl, 0, n, hi)[0] == 0
  {
    RowSlotsAt(0, 0, hi);
  }

  lemma {:induction false} NoSlots(gl: seq<nat>, w: nat, n: nat)
    requires n <= |gl| && Tiles(gl, w, n)
    ensures Slots(gl, w, n, 0) == []
    decreases n - w
  {
    if w < n {
      NoSlots(gl, w + gl[w], n);
    }
  }
}
