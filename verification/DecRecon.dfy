/** The decoder's reconstruction: the spectra of the unit's element, then its
    samples. It reads the symbols of the unit and, of earlier units, only the noise
    generator, the previous window and the overlap memory. */
module DecRecon {
  import opened AacSyntax
  import opened AacParse
  import opened AacFrame
  import opened DecChannel
  import opened DecStream
  import opened DecElements
  import opened DecBlock
  import opened DecRender
  import opened DecDequant
  import opened DecStereo
  import opened DecImdct

  ghost function ChanOf(sce: Sce): Chan
    reads sce`ics, sce`saved
  {
    Chan(sce.ics.seq0, sce.ics.kb0, sce.saved)
  }

  /** What later units can see of the decoder. */
  ghost function StateOf(che: Cpe, channels: nat, rand: int): State
    reads che.ch0`ics, che.ch0`saved, che.ch1`ics, che.ch1`saved
  {
    State(rand, if channels == 1 then [ChanOf(che.ch0)] else [ChanOf(che.ch0), ChanOf(che.ch1)])
  }

  /** The same, before the unit was parsed. */
  ghost function StateBefore(b: Before, channels: nat, rand: int): State {
    var c0, c1 := Chan(b.i0.seq0, b.i0.kb0, b.saved0), Chan(b.i1.seq0, b.i1.kb0, b.saved1);
    State(rand, if channels == 1 then [c0] else [c0, c1])
  }

  // ----- spectra

  /** The spectra a parsed element starts the second stage with. */
  ghost predicate SpectraReady(k: Kernels, che: Cpe, t: Tables, e: Element, rand: int, rand': int)
    requires k.Valid() && GoodElement(t, e)
    reads che.ch0`coeffs, che.ch1`coeffs
  {
    match e
    case Mono(s) => (che.ch0.coeffs, rand') == Spectrum(k, t, s, rand)
    case Pair(_, _, _, _, _) => (che.ch0.coeffs, che.ch1.coeffs, rand') == PairSpectra(k, t, e, rand)
  }

  lemma ElementIsGood(che: Cpe, t: Tables, e: Element, b: Before)
    requires ElementShown(che, t, e, b)
    ensures GoodElement(t, e)
  {
  }

  /** Dequantizes one element and applies its stereo tools. */
  method DequantElement(k: Kernels, che: Cpe, isCpe: bool, rand: int, ghost t: Tables, ghost e: Element,
                        ghost b: Before) returns (rand': int)
    requires k.Valid() && t.Valid() && che.Valid() && ElementShown(che, t, e, b) && (isCpe <==> e.Pair?)
    modifies che.ch0`coeffs, che.ch1`coeffs
    ensures che.Valid() && GoodElement(t, e) && SpectraReady(k, che, t, e, rand, rand')
  {
    hide Kernels.Valid, Tables.Valid, Shows, Spectrum, MidSide, Intensity, GoodSymbols, ChannelJobs, SfsOf, MsShown,
         PairHist;
    ElementIsGood(che, t, e, b);
    if !isCpe {
      rand' := DequantChannel(k, che.ch0, rand, t, e.s);
      return;
    }
    rand' := DequantChannel(k, che.ch0, rand, t, e.s0);
    rand' := DequantChannel(k, che.ch1, rand', t, e.s1);
    FlagsAre(che, t, e);
    if che.commonWindow && che.msPresent != 0 {
      ApplyMidSideStereo(che, t, e);
    }
    ApplyIntensityStereo(k, che, che.msPresent, t, e);
  }

  lemma FlagsAre(che: Cpe, t: Tables, e: Element)
    requires e.Pair? && PairShown(che, t, e)
    ensures che.commonWindow == e.common && che.msPresent == e.ms
  {
  }

  /** The same on a listed element of the unit. */
  method DequantListed(k: Kernels, r: ElemRef, rand: int, ghost t: Tables, ghost channels: nat, ghost e: Element,
                       ghost b: Before) returns (rand': int)
    requires k.Valid() && t.Valid() && Holds(r.che, t, channels, Some(e), b) && (r.kind == TYPE_CPE <==> e.Pair?)
    modifies r.che.ch0`coeffs, r.che.ch1`coeffs
    ensures r.che.Valid() && Holds(r.che, t, channels, Some(e), b) && GoodElement(t, e)
            && SpectraReady(k, r.che, t, e, rand, rand')
  {
    hide Kernels.Valid, Tables.Valid, SpectraReady, ElementShown, GoodElement;
    rand' := DequantElement(k, r.che, r.kind == TYPE_CPE, rand, t, e, b);
  }

  // ----- samples

  /** The window groups as the bitstream gives them. */
  function IcsOfInfo(i: IcsInfo): Ics {
    Ics(i.seq0, i.kb0, i.maxSfb, if i.numWindowGroups <= |i.groupLen| then i.groupLen[..i.numWindowGroups] else [])
  }

  method ApplyTns(k: Kernels, sce: Sce, t: Tables)
    requires k.Valid() && sce.Sized()
    modifies sce`coeffs
    ensures sce.Sized()
    ensures forall s :: Shows(sce, t, s) ==> sce.coeffs == Tns(k, t, s, old(sce.coeffs))
  {
    TnsLength(k);
    if sce.tns.Some? {
      var i := IcsOfInfo(sce.ics);
      sce.coeffs := k.tns(sce.coeffs, sce.tns.value, i, if i.Short() then t.tnsMaxShort
                          else t.tnsMaxLong, t.Edges(i.Short()));
    }
  }

  lemma TnsLength(k: Kernels)
    requires k.Valid()
    ensures forall x, f, i, m, e :: |k.tns(x, f, i, m, e)| == |x|
  {
  }

  /** The channel's samples are out, and its state has moved on. */
  ghost predicate Finished(k: Kernels, sce: Sce, t: Tables, s: Symbols, h: WindowHist, x: seq<int>, saved: seq<int>)
    requires k.Valid() && |x| == 1024 && |saved| == 1536
    reads sce`ics, sce`saved, sce`output
  {
    (sce.output, ChanOf(sce)) == Finish(k, t, s, h, x, saved)
  }

  lemma NowFinished(k: Kernels, sce: Sce, t: Tables, s: Symbols, x: seq<int>, y: seq<int>, saved: seq<int>)
    requires k.Valid() && |x| == 1024 && |saved| == 1536 && y == Tns(k, t, s, x)
    requires var h := HistOf(sce.ics);
             var b := Transformed(k, h, y);
             sce.output == Clipped(Output(k, h, b, saved)) && sce.saved == Saved(k, h, b, saved)
    ensures Finished(k, sce, t, s, HistOf(sce.ics), x, saved)
  {
    hide Tns, Output, Saved, Transformed, Clipped;
  }

  /** From the spectra to samples: TNS on both channels, then transform, overlap and
      clipping. */
  method RenderElement(k: Kernels, dsp: DspState, che: Cpe, isCpe: bool, t: Tables, ghost e: Element, ghost b: Before)
    requires k.Valid() && dsp.Valid() && che.Valid() && ElementShown(che, t, e, b) && (isCpe <==> e.Pair?)
    modifies dsp, che`present, che.ch0`coeffs, che.ch0`output, che.ch0`saved, che.ch1`coeffs, che.ch1`output,
        che.ch1`saved
    ensures dsp.Valid() && che.Valid() && !che.present
    ensures match e
            case Mono(s) => Finished(k, che.ch0, t, s, HistOf(che.ch0.ics), old(che.ch0.coeffs), old(che.ch0.saved))
            case Pair(_, _, _, s0, s1) =>
              && Finished(k, che.ch0, t, s0, HistOf(che.ch0.ics), old(che.ch0.coeffs), old(che.ch0.saved))
              && Finished(k, che.ch1, t, s1, HistOf(che.ch1.ics), old(che.ch1.coeffs), old(che.ch1.saved))
  {
    hide Kernels.Valid, Shows, Tns, Output, Saved, Transformed, Clipped, Finished, MsShown, PairHist, HistOf, SfsOf;
    ghost var x0, x1, d0, d1 := che.ch0.coeffs, che.ch1.coeffs, che.ch0.saved, che.ch1.saved;
    ghost var s0 := if e.Mono? then e.s else e.s0;
    ApplyTns(k, che.ch0, t);
    ApplyTns(k, che.ch1, t);
    ghost var y0, y1 := che.ch0.coeffs, che.ch1.coeffs;
    dsp.ImdctAndWindowing(k, che.ch0);
    if isCpe {
      dsp.ImdctAndWindowing(k, che.ch1);
    }
    ClipOutput(che.ch0);
    NowFinished(k, che.ch0, t, s0, x0, y0, d0);
    if isCpe {
      ClipOutput(che.ch1);
      NowFinished(k, che.ch1, t, e.s1, x1, y1, d1);
    }
    che.present := false;
  }

  // ----- the unit

  /** The element's samples and state are those the unit renders to. */
  ghost predicate Rendered(k: Kernels, che: Cpe, t: Tables, e: Element, o: State, rand': int)
    requires k.Valid() && GoodElement(t, e) && o.Valid(if e.Mono? then 1 else 2)
    reads che.ch0`ics, che.ch0`saved, che.ch0`output, che.ch1`ics, che.ch1`saved, che.ch1`output
  {
    && |che.ch0.output| == |che.ch1.output| == 1024
    && (if e.Mono? then MonoBytes(che.ch0.output) else StereoBytes(che.ch0.output, che.ch1.output),
        StateOf(che, if e.Mono? then 1 else 2, rand')) == Render(k, t, e, o)
  }

  lemma NowRendered(k: Kernels, che: Cpe, t: Tables, e: Element, b: Before, o: State, rand: int, rand': int,
                    x0: seq<int>, x1: seq<int>)
    requires k.Valid() && che.Valid() && GoodElement(t, e) && ElementShown(che, t, e, b)
    requires o == StateBefore(b, if e.Mono? then 1 else 2, rand) && |b.saved0| == |b.saved1| == 1536
             && |x0| == |x1| == 1024
    requires match e
             case Mono(s) => (x0, rand') == Spectrum(k, t, s, rand)
                 && Finished(k, che.ch0, t, s, HistOf(che.ch0.ics), x0, b.saved0)
             case Pair(_, _, _, s0, s1) =>
               && (x0, x1, rand') == PairSpectra(k, t, e, rand)
               && Finished(k, che.ch0, t, s0, HistOf(che.ch0.ics), x0, b.saved0)
               && Finished(k, che.ch1, t, s1, HistOf(che.ch1.ics), x1, b.saved1)
    ensures o.Valid(if e.Mono? then 1 else 2) && Rendered(k, che, t, e, o, rand')
  {
    hide Kernels.Valid, Shows, Finish, Spectrum, PairSpectra, MsShown, SfsOf, MonoBytes, StereoBytes, GoodSymbols;
  }

  /** The state between the stages. */
  ghost predicate Unrendered(k: Kernels, che: Cpe, t: Tables, channels: nat, found: Option<Element>, b: Before,
                             rand: int, rand': int)
    requires k.Valid() && (found.Some? ==> GoodElement(t, found.value))
    reads che, che.ch0, che.ch1
  {
    && Holds(che, t, channels, found, b)
    && if found.Some? then SpectraReady(k, che, t, found.value, rand, rand') else rand' == rand
  }

  /** The state after the last stage: with no element, the one before. */
  ghost predicate UnitDone(k: Kernels, che: Cpe, t: Tables, channels: nat, found: Option<Element>, b: Before, o: State,
                           rand: int, rand': int)
    requires k.Valid() && o.Valid(channels) && (found.Some? ==>
                                                GoodElement(t, found.value) && (found.value.Mono? <==> channels == 1))
    requires 1 <= channels <= 2
    reads che, che.ch0, che.ch1
  {
    && !che.present
    && if found.Some? then Rendered(k, che, t, found.value, o, rand')
        else rand' == rand && Holds(che, t, channels, found, b)
  }

  /** Stage three walks the whole grid of channel elements, types downwards, and
      renders those marked present. */
  method RenderGrid(k: Kernels, dsp: DspState, sceSlot: Cpe?, cpeSlot: Cpe?, channels: nat, t: Tables, ghost che: Cpe,
                    ghost found: Option<Element>, ghost b: Before, ghost o: State, ghost rand: int, ghost rand': int)
    requires k.Valid() && dsp.Valid() && 1 <= channels <= 2
    requires sceSlot == (if channels == 1 then che else null) && cpeSlot == (if channels == 2 then che else null)
             && che.Valid()
    requires found.Some? ==> GoodElement(t, found.value) && (found.value.Mono? <==> channels == 1)
    requires Unrendered(k, che, t, channels, found, b, rand, rand') && o == StateBefore(b, channels, rand)
             && o.Valid(channels)
    modifies dsp, che`present, che.ch0`coeffs, che.ch0`output, che.ch0`saved, che.ch1`coeffs, che.ch1`output,
        che.ch1`saved
    ensures dsp.Valid() && che.Valid() && UnitDone(k, che, t, channels, found, b, o, rand, rand')
  {
    hide Kernels.Valid, Rendered, Finished, SpectraReady, StateBefore, ElementShown, HistOf, State.Valid;
    var kind := 4;
    while kind > 0
      invariant 0 <= kind <= 4 && dsp.Valid() && che.Valid()
      invariant if kind >= channels then Unrendered(k, che, t, channels, found, b, rand, rand')
                else UnitDone(k, che, t, channels, found, b, o, rand, rand')
    {
      kind := kind - 1;
      for id := 0 to 16
        invariant dsp.Valid() && che.Valid()
        invariant if kind > channels - 1 || (kind == channels - 1 && id == 0)
                  then Unrendered(k, che, t, channels, found, b, rand, rand')
                  else UnitDone(k, che, t, channels, found, b, o, rand, rand')
      {
        var slot := SlotAt(sceSlot, cpeSlot, kind, id);
        if slot != null && slot.present {
          RenderSlot(k, dsp, slot, kind == TYPE_CPE, channels, t, found, b, o, rand, rand');
        }
      }
    }
  }

  method RenderSlot(k: Kernels, dsp: DspState, che: Cpe, isCpe: bool, ghost channels: nat, t: Tables,
                    ghost found: Option<Element>, ghost b: Before,
                    ghost o: State, ghost rand: int, ghost rand': int)
    requires k.Valid() && dsp.Valid() && 1 <= channels <= 2 && che.Valid() && che.present
    requires found.Some? ==> GoodElement(t, found.value) && (found.value.Mono? <==> channels == 1)
    requires Unrendered(k, che, t, channels, found, b, rand, rand') && (isCpe <==> channels == 2)
    requires o == StateBefore(b, channels, rand) && o.Valid(channels)
    modifies dsp, che`present, che.ch0`coeffs, che.ch0`output, che.ch0`saved, che.ch1`coeffs, che.ch1`output,
        che.ch1`saved
    ensures dsp.Valid() && che.Valid() && UnitDone(k, che, t, channels, found, b, o, rand, rand')
  {
    hide Kernels.Valid, Rendered, Finished, SpectraReady, StateBefore, ElementShown, HistOf;
    ghost var e, x0, x1 := found.value, che.ch0.coeffs, che.ch1.coeffs;
    SpectraAre(k, che, t, e, rand, rand');
    RenderElement(k, dsp, che, isCpe, t, e, b);
    NowRendered(k, che, t, e, b, o, rand, rand', x0, x1);
  }

  lemma SpectraAre(k: Kernels, che: Cpe, t: Tables, e: Element, rand: int, rand': int)
    requires k.Valid() && GoodElement(t, e) && SpectraReady(k, che, t, e, rand, rand')
    ensures match e
            case Mono(s) => (che.ch0.coeffs, rand') == Spectrum(k, t, s, rand)
            case Pair(_, _, _, _, _) => (che.ch0.coeffs, che.ch1.coeffs, rand') == PairSpectra(k, t, e, rand)
  {
  }
}
