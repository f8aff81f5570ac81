/** The final scalefactor pass as the encoder runs it, and the frame adjustment
    that follows. */
module FinalPassCoder {
  import opened AacSyntax
  import opened BandWalk
  import opened SectionCoder
  import opened ScalefactorChain
  import opened SpecialBands
  import opened FinalPass

  // ----- the successor map

  /** Links every coded band to the next one. */
  function Links(next: seq<nat>, prev: nat, b: Bands, slots: seq<nat>): (r: seq<nat>)
    requires |next| == 128 && prev < 128 && b.Sized() && InArray(slots)
    ensures |r| == 128
    decreases |slots|
  {
    if |slots| == 0 then next[prev := prev]
    else if b.Is(slots[0], Normal) then Links(next[prev := slots[0]], slots[0], b, slots[1..])
    else Links(next, prev, b, slots[1..])
  }

  function Identity(): (r: seq<nat>)
    ensures |r| == 128
  {
    seq(128, i requires 0 <= i < 128 => i)
  }

  ghost predicate AllBelow(s: seq<nat>, n: nat) {
    forall i: nat :: i < |s| ==> s[i] < n
  }

  lemma {:induction false} LinksFit(next: seq<nat>, prev: nat, b: Bands, slots: seq<nat>)
    requires |next| == 128 && prev < 128 && b.Sized() && InArray(slots) && AllBelow(next, 128)
    ensures AllBelow(Links(next, prev, b, slots), 128)
    decreases |slots|
  {
    if |slots| > 0 {
      LinksFit(if b.Is(slots[0], Normal) then next[prev := slots[0]] else next,
               if b.Is(slots[0], Normal) then slots[0] else prev, b, slots[1..]);
    }
  }

  /** A coded band's link leads to the next coded band, the last one's to itself. */
  lemma {:induction false} LinkIsNext(next: seq<nat>, prev: nat, b: Bands, slots: seq<nat>)
    requires |next| == 128 && prev < 128 && b.Sized() && InArray(slots) && Increasing(slots) && Before(prev, slots)
    ensures var r := Links(next, prev, b, slots);
            && r[prev] == NextCoded(b, prev, slots)
            && (forall i: nat :: i < |slots| && b.Is(slots[i], Normal) ==>
                r[slots[i]] == NextCoded(b, slots[i], slots[i + 1..]))
            && (forall t: nat :: t < prev ==> r[t] == next[t])
    decreases |slots|
  {
    if |slots| > 0 {
      TailBefore(slots);
      var s, rest := slots[0], slots[1..];
      var r := Links(next, prev, b, slots);
      LinkIsNext(if b.Is(s, Normal) then next[prev := s] else next, if b.Is(s, Normal) then s else prev, b, rest);
      forall i: nat | i < |slots| && b.Is(slots[i], Normal)
          ensures r[slots[i]] == NextCoded(b, slots[i], slots[i + 1..]) {
        assert slots[1..] == rest;
        if i > 0 {
          assert rest[i - 1] == slots[i] && rest[i - 1 + 1..] == slots[i + 1..];
        }
      }
    }
  }

  /** The first coded band among the slots, s when there is none. */
  function NextCoded(b: Bands, s: nat, slots: seq<nat>): nat
    requires b.Sized() && InArray(slots)
    decreases |slots|
  {
    if |slots| == 0 then s else if b.Is(slots[0], Normal) then slots[0] else NextCoded(b, s, slots[1..])
  }

  lemma LinksStep(next: seq<nat>, prev: nat, b: Bands, s: nat, rest: seq<nat>)
    requires |next| == 128 && prev < 128 && b.Sized() && InArray([s] + rest)
    ensures s < 128 && InArray(rest)
    ensures Links(next, prev, b, [s] + rest)
            == if b.Is(s, Normal) then Links(next[prev := s], s, b, rest) else Links(next, prev, b, rest)
  {
    InArrayTail(s, rest);
  }

  method InitNextbandMap(sce: SingleChannelElement) returns (nextband: seq<nat>)
    requires WellLaid(sce) && InArray(AllSlots(sce))
    ensures |nextband| == 128 && nextband == Links(Identity(), 0, BandsOf(sce), AllSlots(sce))
  {
    hide Tiles, Slots, RowSlots, Links, InArray, Remaining;
    ghost var b, slots := BandsOf(sce), AllSlots(sce);
    nextband := seq(128, i requires 0 <= i < 128 => i);
    var prevband: nat := 0;
    var gl := sce.groupLen;
    var w: nat := 0;
    TilesFacts(gl, 0, sce.numWindows);
    while w < sce.numWindows
      invariant w <= sce.numWindows && Tiles(gl, w, sce.numWindows) && |nextband| == 128 && prevband < 128
      invariant InArray(Slots(gl, w, sce.numWindows, sce.numSwb))
      invariant Links(nextband, prevband, b, Slots(gl, w, sce.numWindows, sce.numSwb)) == Links(Identity(), 0, b, slots)
      decreases sce.numWindows - w
    {
      RemainingStart(gl, w, sce.numWindows, sce.numSwb);
      var g: nat := 0;
      while g < sce.numSwb
        invariant g <= sce.numSwb && |nextband| == 128 && prevband < 128
        invariant InArray(Remaining(gl, w, sce.numWindows, g, sce.numSwb))
        invariant Links(nextband, prevband, b, Remaining(gl, w, sce.numWindows, g, sce.numSwb))
                  == Links(Identity(), 0, b, slots)
      {
        var s := w * 16 + g;
        RemainingStep(gl, w, sce.numWindows, g, sce.numSwb);
        LinksStep(nextband, prevband, b, s, Remaining(gl, w, sce.numWindows, g + 1, sce.numSwb));
        if !sce.zeroes[s] && sce.bandType[s] < RESERVED_BT {
          nextband := nextband[prevband := s];
          prevband := s;
        }
        g := g + 1;
      }
      RemainingStep(gl, w, sce.numWindows, g, sce.numSwb);
      TilesFacts(gl, w, sce.numWindows);
      w := w + gl[w];
      TilesFacts(gl, w, sce.numWindows);
    }
    RemainingStart(gl, w, sce.numWindows, sce.numSwb);
    LinksEnd(nextband, prevband, b);
    nextband := nextband[prevband := prevband];
  }

  lemma LinksEnd(next: seq<nat>, prev: nat, b: Bands)
    requires |next| == 128 && prev < 128 && b.Sized()
    ensures InArray([]) && Links(next, prev, b, []) == next[prev := prev]
  {
  }

  // ----- the pass

  ghost function LookupsOf(sce: SingleChannelElement, next: seq<nat>, minBook: (nat, int) -> nat): Lookups
    reads sce
  {
    Lookups(sce.groupLen, sce.numWindows, next, minBook)
  }

  lemma PassSnoc(b: Bands, prev: int, s: nat, rest: seq<nat>, l: Lookups)
    requires b.Sized() && l.Valid() && InArray([s] + rest)
    ensures s < 128 && InArray(rest)
    ensures var (b1, p1) := PassBand(b, prev, s, l); Pass(b, prev, [s] + rest, l) == Pass(b1, p1, rest, l)
  {
    InArrayTail(s, rest);
  }

  lemma PassEnd(b: Bands, prev: int, l: Lookups)
    requires b.Sized() && l.Valid()
    ensures InArray([]) && Pass(b, prev, [], l) == (b, prev) && FillForward(b, prev, []) == b
  {
  }

  lemma FillStep(b: Bands, last: int, s: nat, rest: seq<nat>)
    requires b.Sized() && InArray([s] + rest)
    ensures s < 128 && InArray(rest)
    ensures FillForward(b, last, [s] + rest)
            == if b.Is(s, Normal) then FillForward(b, b.sf[s], rest)
               else if b.bt[s] < RESERVED_BT && s > 0 then FillForward(b.(sf := b.sf[s := last]), last, rest)
               else FillForward(b, last, rest)
  {
    InArrayTail(s, rest);
  }

  /** One band in place: PassBand. */
  method PassOne(sce: SingleChannelElement, w: nat, g: nat, prev: int, nextband: seq<nat>, minBook: (nat, int) -> nat)
    returns (prev': int)
    requires WellLaid(sce) && w < sce.numWindows && g < sce.numSwb && |nextband| == 128
    requires LookupsOf(sce, nextband, minBook).Valid()
             && LookupsOf(sce, nextband, minBook).Len(w * 16 + g) == sce.groupLen[w]
    requires w + sce.groupLen[w] <= 8 && w * 16 + g < 128 && (sce.numWindows == 8 ==> g < 16)
    modifies sce`sfIdx, sce`bandType, sce`zeroes
    ensures WellLaid(sce)
    ensures (BandsOf(sce), prev') == old(PassBand(BandsOf(sce), prev, w * 16 + g, LookupsOf(sce, nextband, minBook)))
  {
    var s := w * 16 + g;
    prev' := prev;
    if sce.bandType[s] == NOISE_BT || sce.bandType[s] == INTENSITY_BT || sce.bandType[s] == INTENSITY_BT2 {
      return;
    }
    if sce.zeroes[s] {
      sce.bandType := sce.bandType[s := 0];
      return;
    }
    assert sce.sfIdx[s := sce.sfIdx[s]] == sce.sfIdx;
    if prev != -1 {
      sce.sfIdx := sce.sfIdx[s := Clip(sce.sfIdx[s], prev - SCALE_MAX_DIFF, prev + SCALE_MAX_DIFF)];
    }
    var cb := minBook(s, sce.sfIdx[s]);
    if cb <= 0 {
      if !CanRemove(Bands(sce.zeroes, sce.bandType, sce.sfIdx), nextband[s], prev) {
        cb := 1;
      } else {
        MarkZero(sce, w, g);
        sce.bandType := sce.bandType[s := 0];
        return;
      }
    }
    sce.bandType := sce.bandType[s := cb];
    if prev == -1 {
      sce.sfIdx := sce.sfIdx[0 := sce.sfIdx[s]];
    }
    prev' := sce.sfIdx[s];
  }

  method MarkZero(sce: SingleChannelElement, w: nat, g: nat)
    requires WellLaid(sce) && w < 8 && w + sce.groupLen[w] <= 8 && w * 16 + g < 128
    modifies sce`zeroes
    ensures WellLaid(sce) && sce.zeroes == old(ZeroAll(sce.zeroes, w * 16 + g, sce.groupLen[w]))
  {
    var w2 := 0;
    while w2 < sce.groupLen[w]
      invariant 0 <= w2 <= sce.groupLen[w] && WellLaid(sce)
      invariant sce.zeroes == ZeroAll(old(sce.zeroes), w * 16 + g, w2)
    {
      if (w + w2) * 16 + g < 128 {
        sce.zeroes := sce.zeroes[(w + w2) * 16 + g := true];
      }
      w2 := w2 + 1;
    }
  }

  /** The pass and the forward fill over a channel. minBook is the least codebook
      of a slot's band at a scalefactor. */
  method FinalScalefactors(sce: SingleChannelElement, minBook: (nat, int) -> nat)
    requires WellLaid(sce) && InArray(AllSlots(sce)) && forall s: nat, sf: int :: minBook(s, sf) <= ESC_BT
    modifies sce`sfIdx, sce`bandType, sce`zeroes
    ensures WellLaid(sce)
    ensures old(Setup(sce, minBook).Valid())
    ensures BandsOf(sce) == old(Final(BandsOf(sce), AllSlots(sce), Setup(sce, minBook)))
  {
    hide Tiles, Slots, RowSlots, Links, Pass, PassBand, FillForward, Lookups.Valid, Lookups.Len, Remaining, InArray;
    var nextband := InitNextbandMap(sce);
    ghost var b, slots, l := BandsOf(sce), AllSlots(sce), LookupsOf(sce, nextband, minBook);
    SetupValid(sce, minBook);
    var prev := ClampPass(sce, nextband, minBook);
    if prev != -1 {
      FillPass(sce, sce.sfIdx[0]);
    }
  }

  ghost function Setup(sce: SingleChannelElement, minBook: (nat, int) -> nat): Lookups
    requires WellLaid(sce) && InArray(AllSlots(sce))
    reads sce
  {
    LookupsOf(sce, Links(Identity(), 0, BandsOf(sce), AllSlots(sce)), minBook)
  }

  lemma SetupValid(sce: SingleChannelElement, minBook: (nat, int) -> nat)
    requires WellLaid(sce) && InArray(AllSlots(sce)) && forall s: nat, sf: int :: minBook(s, sf) <= ESC_BT
    ensures Setup(sce, minBook).Valid()
  {
    LinksFit(Identity(), 0, BandsOf(sce), AllSlots(sce));
  }

  lemma LenIs(gl: seq<nat>, n: nat, w: nat, g: nat, bands: nat, l: Lookups)
    requires |gl| == 8 && (n == 1 || n == 8) && Tiles(gl, w, n) && w < n && g < bands <= (if n == 1 then 51 else 15)
    requires l.gl == gl && l.n == n
    requires n == 1 ==> w == 0
    ensures l.Len(w * 16 + g) == gl[w] && 1 <= gl[w] && w + gl[w] <= 8 && w * 16 + g < 128
  {
  }

  method ClampPass(sce: SingleChannelElement, nextband: seq<nat>, minBook: (nat, int) -> nat) returns (prev: int)
    requires WellLaid(sce) && InArray(AllSlots(sce)) && |nextband| == 128 && LookupsOf(sce, nextband, minBook).Valid()
    modifies sce`sfIdx, sce`bandType, sce`zeroes
    ensures WellLaid(sce)
    ensures (BandsOf(sce), prev) == old(Pass(BandsOf(sce), -1, AllSlots(sce), LookupsOf(sce, nextband, minBook)))
  {
    hide Tiles, Slots, RowSlots, Pass, PassBand, Lookups.Valid, Lookups.Len, Remaining, InArray;
    ghost var b, slots, l := BandsOf(sce), AllSlots(sce), LookupsOf(sce, nextband, minBook);
    ghost var end := Pass(b, -1, slots, l);
    prev := -1;
    var gl := sce.groupLen;
    var w: nat := 0;
    TilesFacts(gl, 0, sce.numWindows);
    while w < sce.numWindows
      invariant WellLaid(sce) && w <= sce.numWindows && Tiles(gl, w, sce.numWindows) && sce.groupLen == gl
      invariant InArray(Slots(gl, w, sce.numWindows, sce.numSwb))
      invariant Pass(BandsOf(sce), prev, Slots(gl, w, sce.numWindows, sce.numSwb), l) == end
      decreases sce.numWindows - w
    {
      RemainingStart(gl, w, sce.numWindows, sce.numSwb);
      var g: nat := 0;
      while g < sce.numSwb
        invariant WellLaid(sce) && g <= sce.numSwb && sce.groupLen == gl
        invariant InArray(Remaining(gl, w, sce.numWindows, g, sce.numSwb))
        invariant Pass(BandsOf(sce), prev, Remaining(gl, w, sce.numWindows, g, sce.numSwb), l) == end
      {
        RemainingStep(gl, w, sce.numWindows, g, sce.numSwb);
        PassSnoc(BandsOf(sce), prev, w * 16 + g, Remaining(gl, w, sce.numWindows, g + 1, sce.numSwb), l);
        LenIs(gl, sce.numWindows, w, g, sce.numSwb, l);
        prev := PassOne(sce, w, g, prev, nextband, minBook);
        g := g + 1;
      }
      RemainingStep(gl, w, sce.numWindows, g, sce.numSwb);
      TilesFacts(gl, w, sce.numWindows);
      w := w + gl[w];
      TilesFacts(gl, w, sce.numWindows);
    }
    RemainingStart(gl, w, sce.numWindows, sce.numSwb);
    PassEnd(BandsOf(sce), prev, l);
  }

  method FillPass(sce: SingleChannelElement, first: int)
    requires WellLaid(sce) && InArray(AllSlots(sce))
    modifies sce`sfIdx
    ensures WellLaid(sce) && BandsOf(sce) == old(FillForward(BandsOf(sce), first, AllSlots(sce)))
  {
    hide Tiles, Slots, RowSlots, FillForward, Remaining, InArray;
    ghost var end := FillForward(BandsOf(sce), first, AllSlots(sce));
    var last := first;
    var gl := sce.groupLen;
    var w: nat := 0;
    TilesFacts(gl, 0, sce.numWindows);
    while w < sce.numWindows
      invariant WellLaid(sce) && w <= sce.numWindows && Tiles(gl, w, sce.numWindows)
      invariant InArray(Slots(gl, w, sce.numWindows, sce.numSwb))
      invariant FillForward(BandsOf(sce), last, Slots(gl, w, sce.numWindows, sce.numSwb)) == end
      decreases sce.numWindows - w
    {
      RemainingStart(gl, w, sce.numWindows, sce.numSwb);
      var g: nat := 0;
      while g < sce.numSwb
        invariant WellLaid(sce) && g <= sce.numSwb
        invariant InArray(Remaining(gl, w, sce.numWindows, g, sce.numSwb))
        invariant FillForward(BandsOf(sce), last, Remaining(gl, w, sce.numWindows, g, sce.numSwb)) == end
      {
        var s := w * 16 + g;
        RemainingStep(gl, w, sce.numWindows, g, sce.numSwb);
        FillStep(BandsOf(sce), last, s, Remaining(gl, w, sce.numWindows, g + 1, sce.numSwb));
        if !sce.zeroes[s] && sce.bandType[s] != NOISE_BT && sce.bandType[s] < RESERVED_BT {
          last := sce.sfIdx[s];
        } else if sce.bandType[s] < RESERVED_BT && s > 0 {
          sce.sfIdx := sce.sfIdx[s := last];
        }
        g := g + 1;
      }
      RemainingStep(gl, w, sce.numWindows, g, sce.numSwb);
      TilesFacts(gl, w, sce.numWindows);
      w := w + gl[w];
      TilesFacts(gl, w, sce.numWindows);
    }
    RemainingStart(gl, w, sce.numWindows, sce.numSwb);
    PassEndFill(BandsOf(sce), last);
  }

  lemma PassEndFill(b: Bands, last: int)
    requires b.Sized()
    ensures InArray([]) && FillForward(b, last, []) == b
  {
  }
}
