/** The encoder's writers of side information: window info, M/S mask,
    scalefactors and TNS filters, each bit for bit the printed form. */
module SideCoder {
  import opened BitStrings
  import opened BitWriter
  import opened AacSyntax
  import opened AacParse
  import opened AacPrint
  import opened BandWalk
  import opened SectionCoder
  import opened ScalefactorChain
  import opened SpecialBands
  import opened LegalChannel
  import AacFrame

  // ----- ics_info

  /** The window info of a channel, its groups in order. */
  ghost function IcsOf(sce: SingleChannelElement): Ics
    requires WellLaid(sce)
    reads sce
  {
    Ics(sce.windowSequence, sce.useKb, sce.maxSfb, Groups(sce.groupLen, 0, sce.numWindows))
  }

  /** The grouping bits of windows w..7. */
  function Continues(gl: seq<nat>, w: nat): Bits
    requires |gl| == 8
    decreases 8 - w
  {
    if w >= 8 then [] else [gl[w] == 0] + Continues(gl, w + 1)
  }

  /** From inside a group with n windows to come, up to the next group. */
  lemma {:induction false} ContinuesIs(gl: seq<nat>, w: nat, n: nat)
    requires |gl| == 8 && w + n <= 8 && Tiles(gl, w + n, 8) && forall i :: w <= i < w + n ==> gl[i] == 0
    ensures Continues(gl, w) == PrintGroups(n, Groups(gl, w + n, 8))
    decreases 8 - w
  {
    if n > 0 {
      ContinuesIs(gl, w + 1, n - 1);
    } else if w < 8 {
      ContinuesIs(gl, w + 1, gl[w] - 1);
      var rest := Groups(gl, w, 8);
      assert rest[0] == gl[w] && rest[1..] == Groups(gl, w + gl[w], 8);
    }
  }

  lemma GroupBits(gl: seq<nat>)
    requires |gl| == 8 && Tiles(gl, 0, 8)
    ensures var g := Groups(gl, 0, 8);
            |g| > 0 && g[0] >= 1 && Continues(gl, 1) == PrintGroups(g[0] - 1, g[1..])
  {
    ContinuesIs(gl, 1, gl[0] - 1);
    assert Groups(gl, 0, 8)[1..] == Groups(gl, gl[0], 8);
  }

  method PutIcsInfo(pb: Writer, sce: SingleChannelElement)
    requires pb.Valid() && WellLaid(sce) && (sce.windowSequence == EIGHT_SHORT <==> sce.numWindows == 8)
    modifies pb
    ensures pb.Valid() && pb.Written() == old(pb.Written()) + PrintIcs(IcsOf(sce))
  {
    hide Tiles, ToBits, Continues, PrintGroups, Groups, Writer.Written;
    pb.Put(1, 0);
    pb.Put(2, sce.windowSequence);
    pb.Put(1, sce.useKb);
    BitFields();
    if sce.windowSequence != EIGHT_SHORT {
      pb.Put(6, sce.maxSfb);
      pb.Put(1, 0);
    } else {
      pb.Put(4, sce.maxSfb);
      GroupBits(sce.groupLen);
      ghost var before := pb.Written();
      var w := 1;
      while w < 8
        invariant 1 <= w <= 8 && pb.Valid()
        invariant pb.Written() + Continues(sce.groupLen, w) == before + Continues(sce.groupLen, 1)
      {
        ContinuesStep(sce.groupLen, w);
        var cont := if sce.groupLen[w] == 0 then 1 else 0;
        pb.Put(1, cont);
        w := w + 1;
      }
      ContinuesEnd(sce.groupLen);
    }
    Regroup5(old(pb.Written()), [false], ToBits(2, sce.windowSequence), ToBits(1, sce.useKb),
             if sce.windowSequence != EIGHT_SHORT then ToBits(6, sce.maxSfb) else ToBits(4, sce.maxSfb),
             if sce.windowSequence != EIGHT_SHORT then [false] else Continues(sce.groupLen, 1));
  }

  lemma Regroup5(o: Bits, a: Bits, b: Bits, c: Bits, d: Bits, e: Bits)
    ensures o + a + b + c + d + e == o + (a + b + c + (d + e))
  {
  }

  lemma ContinuesStep(gl: seq<nat>, w: nat)
    requires |gl| == 8 && w < 8
    ensures Continues(gl, w) == [gl[w] == 0] + Continues(gl, w + 1)
  {
  }

  lemma ContinuesEnd(gl: seq<nat>)
    requires |gl| == 8
    ensures Continues(gl, 8) == []
  {
  }

  lemma BitFields()
    ensures ToBits(1, 0) == [false] && ToBits(1, 1) == [true]
  {
    assert ToBits(0, 0) == [];
  }

  // ----- the M/S mask

  ghost function MaskRest(mask: seq<bool>, slots: seq<nat>): Bits
    requires |mask| == 128 && InArray(slots)
  {
    Pick(mask, slots)
  }

  lemma MaskIs(mask: seq<bool>, slots: seq<nat>)
    requires |mask| == 128 && InArray(slots)
    ensures MaskRest(mask, slots) == Pick(mask, slots)
  {
  }

  lemma MaskHead(mask: seq<bool>, s: nat, rest: seq<nat>)
    requires |mask| == 128 && InArray([s] + rest)
    ensures InArray(rest) && s < 128 && MaskRest(mask, [s] + rest) == [mask[s]] + MaskRest(mask, rest)
  {
    PickHead(mask, s, rest);
  }

  lemma MaskNone(mask: seq<bool>)
    requires |mask| == 128
    ensures InArray([]) && MaskRest(mask, []) == []
  {
  }

  method EncodeMsInfo(pb: Writer, sce: SingleChannelElement, mode: nat, mask: seq<bool>)
    requires pb.Valid() && WellLaid(sce) && |mask| == 128 && InArray(Slots(sce.groupLen, 0, sce.numWindows, sce.maxSfb))
    modifies pb
    ensures pb.Valid()
    ensures pb.Written() == old(pb.Written())
            + AacFrame.PrintMs(mode, Pick(mask, Slots(sce.groupLen, 0, sce.numWindows, sce.maxSfb)))
  {
    hide Tiles, ToBits, Slots, RowSlots, Writer.Written, Remaining, InArray, MaskRest;
    pb.Put(2, mode);
    BitFields();
    if mode == 1 {
      ghost var before := pb.Written();
      ghost var slots := Slots(sce.groupLen, 0, sce.numWindows, sce.maxSfb);
      var gl := sce.groupLen;
      var w: nat := 0;
      TilesFacts(gl, 0, sce.numWindows);
      while w < sce.numWindows
        invariant pb.Valid() && w <= sce.numWindows && Tiles(gl, w, sce.numWindows)
        invariant InArray(Slots(gl, w, sce.numWindows, sce.maxSfb))
        invariant pb.Written() + MaskRest(mask, Slots(gl, w, sce.numWindows, sce.maxSfb))
                  == before + MaskRest(mask, slots)
        decreases sce.numWindows - w
      {
        RemainingStart(gl, w, sce.numWindows, sce.maxSfb);
        var i: nat := 0;
        while i < sce.maxSfb
          invariant pb.Valid() && i <= sce.maxSfb
          invariant InArray(Remaining(gl, w, sce.numWindows, i, sce.maxSfb))
          invariant pb.Written() + MaskRest(mask, Remaining(gl, w, sce.numWindows, i, sce.maxSfb))
                    == before + MaskRest(mask, slots)
        {
          ghost var rest := Remaining(gl, w, sce.numWindows, i + 1, sce.maxSfb);
          RemainingStep(gl, w, sce.numWindows, i, sce.maxSfb);
          InArrayTail(w * 16 + i, rest);
          MaskHead(mask, w * 16 + i, rest);
          var bit := if mask[w * 16 + i] then 1 else 0;
          pb.Put(1, bit);
          i := i + 1;
        }
        RemainingStep(gl, w, sce.numWindows, i, sce.maxSfb);
        TilesFacts(gl, w, sce.numWindows);
        w := w + gl[w];
        TilesFacts(gl, w, sce.numWindows);
      }
      RemainingStart(gl, w, sce.numWindows, sce.maxSfb);
      MaskNone(mask);
      MaskIs(mask, slots);
      assert old(pb.Written()) + ToBits(2, mode) + MaskRest(mask, slots)
             == old(pb.Written()) + (ToBits(2, mode) + MaskRest(mask, slots));
    }
  }

  lemma PickHead<T>(a: seq<T>, s: nat, rest: seq<nat>)
    requires |a| == 128 && InArray([s] + rest)
    ensures InArray(rest) && s < 128 && Pick(a, [s] + rest) == [a[s]] + Pick(a, rest)
  {
    InArrayTail(s, rest);
    var all := [s] + rest;
    assert all[0] == s;
    assert forall i :: 0 <= i < |rest| ==> all[i + 1] == rest[i];
  }

  lemma PickNone<T>(a: seq<T>)
    requires |a| == 128
    ensures InArray([]) && Pick(a, []) == []
  {
  }

  // ----- scalefactors

  /** What the writer knows in front of a slot: the bits still to come and
      whether the remaining deltas are codable. */
  ghost function SfRest(t: Tables, b: Bands, slots: seq<nat>, ch: Chains): Bits
    requires t.Valid() && b.Sized() && InArray(slots)
  {
    PrintSfs(t, Pick(b.bt, slots), Pick(b.sf, slots), 0, ch)
  }

  ghost predicate SfFine(b: Bands, slots: seq<nat>, ch: Chains)
    requires b.Sized() && InArray(slots)
  {
    AllCodable(Pick(b.bt, slots), Pick(b.sf, slots), 0, ch)
  }

  lemma {:induction false} PrintSfsShift(t: Tables, bt: seq<nat>, sf: seq<int>, i: nat, bt': seq<nat>, sf': seq<int>,
                                         ch: Chains)
    requires t.Valid() && |bt| == |sf| && |bt'| == |sf'| && i <= |bt'| && |bt| == |bt'| + 1
    requires bt[1..] == bt' && sf[1..] == sf'
    ensures PrintSfs(t, bt, sf, i + 1, ch) == PrintSfs(t, bt', sf', i, ch)
    ensures AllCodable(bt, sf, i + 1, ch) <==> AllCodable(bt', sf', i, ch)
    decreases |bt'| - i
  {
    hide Tables.Valid;
    if i < |bt'| {
      assert bt[i + 1] == bt'[i] && sf[i + 1] == sf'[i];
      PrintSfsShift(t, bt, sf, i + 1, bt', sf', NextChains(bt'[i], sf'[i], ch));
    }
  }

  lemma SfRestStep(t: Tables, b: Bands, s: nat, rest: seq<nat>, ch: Chains)
    requires t.Valid() && b.Sized() && InArray([s] + rest)
    ensures s < 128 && InArray(rest)
    ensures SfRest(t, b, [s] + rest, ch) == PrintSf(t, b.bt[s], b.sf[s], ch)
            + SfRest(t, b, rest, NextChains(b.bt[s], b.sf[s], ch))
    ensures SfFine(b, [s] + rest, ch)
            <==> Codable(b.bt[s], b.sf[s], ch) && SfFine(b, rest, NextChains(b.bt[s], b.sf[s], ch))
  {
    hide Tables.Valid, PrintSf, NextChains, Codable, Pick;
    InArrayTail(s, rest);
    PickHead(b.bt, s, rest);
    PickHead(b.sf, s, rest);
    var bt, sf := Pick(b.bt, [s] + rest), Pick(b.sf, [s] + rest);
    PrintSfsShift(t, bt, sf, 0, Pick(b.bt, rest), Pick(b.sf, rest), NextChains(b.bt[s], b.sf[s], ch));
  }

  lemma SfRestEnd(t: Tables, b: Bands, ch: Chains)
    requires t.Valid() && b.Sized()
    ensures InArray([]) && SfRest(t, b, [], ch) == [] && SfFine(b, [], ch)
  {
    hide Tables.Valid;
    PickNone(b.bt);
  }

  /** One band's scalefactor: its bits, or a failure for a delta without code. */
  method PutScalefactor(pb: Writer, t: Tables, zero: bool, cb: nat, sf: int, ch: Chains)
      returns (ch': Chains, failed: bool)
    requires pb.Valid() && t.Valid() && (zero <==> cb == ZERO_BT)
    modifies pb
    ensures pb.Valid() && pb.Written() == old(pb.Written()) + PrintSf(t, cb, sf, ch)
    ensures ch' == NextChains(cb, sf, ch) && failed == !Codable(cb, sf, ch)
  {
    hide ToBits, Writer.Written, Tables.Valid;
    ch', failed := ch, false;
    if zero {
      return;
    }
    var diff;
    if cb == NOISE_BT {
      diff := sf - ch.noise;
      ch' := ch'.(noise := sf);
      if ch.noiseFlag {
        ch' := ch'.(noiseFlag := false);
        pb.Put(NOISE_PRE_BITS, Uint32(diff + NOISE_PRE));
        return;
      }
    } else if cb == INTENSITY_BT || cb == INTENSITY_BT2 {
      diff := sf - ch.intensity;
      ch' := ch'.(intensity := sf);
    } else {
      diff := sf - ch.normal;
      ch' := ch'.(normal := sf);
    }
    diff := diff + SCALE_DIFF_ZERO;
    if diff < 0 || diff > 120 {
      failed := true;
      return;
    }
    SfCode(t, diff);
    pb.Put(t.sf.lens[diff], t.sf.codes[diff]);
  }

  lemma SfCode(t: Tables, d: int)
    requires t.Valid() && 0 <= d <= 120
    ensures d < |t.sf.lens| == |t.sf.codes| && t.sf.lens[d] <= 32
    ensures t.sf.Word(d) == ToBits(t.sf.lens[d], t.sf.codes[d])
  {
  }

  /** All scalefactors of a channel. failed says whether some delta had no code;
      its band is left out and the writing goes on. */
  method EncodeScaleFactors(pb: Writer, t: Tables, sce: SingleChannelElement) returns (failed: bool)
    requires pb.Valid() && t.Valid() && WellLaid(sce) && InArray(Slots(sce.groupLen, 0, sce.numWindows, sce.maxSfb))
    requires forall i: nat :: i < |Slots(sce.groupLen, 0, sce.numWindows, sce.maxSfb)| ==>
               FlagAgrees(BandsOf(sce), Slots(sce.groupLen, 0, sce.numWindows, sce.maxSfb)[i])
    modifies pb
    ensures pb.Valid()
    ensures var slots := Slots(sce.groupLen, 0, sce.numWindows, sce.maxSfb);
            && pb.Written() == old(pb.Written())
                               + PrintSfs(t, Pick(sce.bandType, slots), Pick(sce.sfIdx, slots), 0,
                                          StartChains(sce.sfIdx[0]))
            && failed == !AllCodable(Pick(sce.bandType, slots), Pick(sce.sfIdx, slots), 0, StartChains(sce.sfIdx[0]))
  {
    hide Tiles, Slots, RowSlots, Writer.Written, Remaining, InArray, SfRest, SfFine, FlagAgrees, Tables.Valid, PrintSf,
         NextChains, Codable;
    ghost var b := BandsOf(sce);
    ghost var slots := Slots(sce.groupLen, 0, sce.numWindows, sce.maxSfb);
    ghost var before := pb.Written();
    var ch := StartChains(sce.sfIdx[0]);
    ghost var ch0 := ch;
    failed := false;
    var gl := sce.groupLen;
    var w: nat := 0;
    TilesFacts(gl, 0, sce.numWindows);
    AgreeAll(b, slots);
    while w < sce.numWindows
      invariant pb.Valid() && w <= sce.numWindows && Tiles(gl, w, sce.numWindows)
      invariant InArray(Slots(gl, w, sce.numWindows, sce.maxSfb))
                && Agreeing(b, Slots(gl, w, sce.numWindows, sce.maxSfb))
      invariant pb.Written() + SfRest(t, b, Slots(gl, w, sce.numWindows, sce.maxSfb), ch)
                == before + SfRest(t, b, slots, ch0)
      invariant SfFine(b, slots, ch0) <==> !failed && SfFine(b, Slots(gl, w, sce.numWindows, sce.maxSfb), ch)
      decreases sce.numWindows - w
    {
      RemainingStart(gl, w, sce.numWindows, sce.maxSfb);
      var g: nat := 0;
      while g < sce.maxSfb
        invariant pb.Valid() && g <= sce.maxSfb
        invariant InArray(Remaining(gl, w, sce.numWindows, g, sce.maxSfb))
                  && Agreeing(b, Remaining(gl, w, sce.numWindows, g, sce.maxSfb))
        invariant pb.Written() + SfRest(t, b, Remaining(gl, w, sce.numWindows, g, sce.maxSfb), ch)
                  == before + SfRest(t, b, slots, ch0)
        invariant SfFine(b, slots, ch0) <==> !failed && SfFine(b, Remaining(gl, w, sce.numWindows, g, sce.maxSfb), ch)
      {
        var s := w * 16 + g;
        ghost var rest := Remaining(gl, w, sce.numWindows, g + 1, sce.maxSfb);
        RemainingStep(gl, w, sce.numWindows, g, sce.maxSfb);
        SfRestStep(t, b, s, rest, ch);
        AgreeTail(b, s, rest);
        var bad;
        ch, bad := PutScalefactor(pb, t, sce.zeroes[s], sce.bandType[s], sce.sfIdx[s], ch);
        failed := failed || bad;
        g := g + 1;
      }
      RemainingStep(gl, w, sce.numWindows, g, sce.maxSfb);
      TilesFacts(gl, w, sce.numWindows);
      w := w + gl[w];
      TilesFacts(gl, w, sce.numWindows);
    }
    RemainingStart(gl, w, sce.numWindows, sce.maxSfb);
    SfRestEnd(t, b, ch);
    SfRestIs(t, b, slots, ch0);
  }

  lemma SfRestIs(t: Tables, b: Bands, slots: seq<nat>, ch: Chains)
    requires t.Valid() && b.Sized() && InArray(slots)
    ensures SfRest(t, b, slots, ch) == PrintSfs(t, Pick(b.bt, slots), Pick(b.sf, slots), 0, ch)
    ensures SfFine(b, slots, ch) <==> AllCodable(Pick(b.bt, slots), Pick(b.sf, slots), 0, ch)
  {
  }

  ghost predicate Agreeing(b: Bands, slots: seq<nat>)
    requires b.Sized() && InArray(slots)
  {
    forall i: nat :: i < |slots| ==> (b.z[slots[i]] <==> b.bt[slots[i]] == ZERO_BT)
  }

  lemma AgreeAll(b: Bands, slots: seq<nat>)
    requires b.Sized() && InArray(slots) && forall i: nat :: i < |slots| ==> FlagAgrees(b, slots[i])
    ensures Agreeing(b, slots)
  {
  }

  lemma AgreeTail(b: Bands, s: nat, rest: seq<nat>)
    requires b.Sized() && InArray([s] + rest) && Agreeing(b, [s] + rest)
    ensures s < 128 && InArray(rest) && (b.z[s] <==> b.bt[s] == ZERO_BT) && Agreeing(b, rest)
  {
    InArrayTail(s, rest);
    var all := [s] + rest;
    assert all[0] == s;
    assert forall i: nat :: i < |rest| ==> all[i + 1] == rest[i];
  }
}
