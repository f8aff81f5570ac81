/** The public frame decoder: one unit at a time, and a unit that fails is as if it
    had never been fed. */
module DecFrameDecoder {
  import opened BitStrings
  import opened BitReader
  import opened AacParse
  import opened AacFrame
  import opened AacSyntax
  import opened DecRender
  import opened DecSession
  import opened DecDecoder
  import opened DecElements
  import opened DecPcm
  import AdtsHeader
  import opened AudioConfig

  /** A rendered unit has exactly a frame's worth of PCM. */
  lemma RenderLength(k: Kernels, t: Tables, e: Element, o: State)
    requires k.Valid() && GoodElement(t, e) && o.Valid(if e.Mono? then 1 else 2)
    ensures |Render(k, t, e, o).0| == if e.Mono? then 2048 else 4096
  {
    hide Spectrum, PairSpectra, Output, Saved, Transformed, Tns, GoodSymbols, Kernels.Valid, MonoBytes, StereoBytes,
         ClipSample;
    match e {
      case Mono(s) =>
        var (x, rand) := Spectrum(k, t, s, o.rand);
        var h := WindowHist(s.ics.seq0, o.chans[0].seq0, s.ics.kb, o.chans[0].kb0);
        MonoLength(Finish(k, t, s, h, x, o.chans[0].saved).0);
      case Pair(_, _, _, s0, s1) =>
        var (x0, x1, rand) := PairSpectra(k, t, e, o.rand);
        var (h0, h1) := PairWindows(e, o.chans[0], o.chans[1]);
        StereoLength(Finish(k, t, s0, h0, x0, o.chans[0].saved).0, Finish(k, t, s1, h1, x1, o.chans[1].saved).0);
    }
  }

  /** How the state after a unit follows from the effect one level below: whatever
      fails, or brings no audio, leaves the state before it. */
  lemma StepFromEffect(s: Setup, o: Obs, unit: seq<nat>)
    requires s.Valid() && ValidObs(o)
    ensures var (l, (o', out)) := (Latched(s, o, unit), DecodeUnit(s, o, unit));
            && (l.err.Some? ==> out == Failed(l.err.value) && l.added == [])
            && (l.err.None? ==> l.o.Running? && l.samples == 1024 && 1 <= l.o.cfg.chanConfig <= 2)
            && (l.err.None? && l.added == [] ==> out == Failed(InvalidData))
            && (l.err.None? && l.added != [] ==>
                out == Pcm(l.added) && o' == l.o && |l.added| == 1024 * l.o.cfg.chanConfig * 2)
            && (out.Failed? ==> o' == o && (o.Running? || !s.adts ==> l.o == o))
  {
    hide Render, GoodElement, Parse, Kernels.Valid, AdtsHeader.ParseHeader, AdtsHeader.HeaderEnd, BytesBits, NewState,
         State.Valid;
    var b := Begin(o, s.adts, BytesBits(unit));
    BeginIsValid(o, s.adts, BytesBits(unit));
    if b.Started? {
      var p := Parse(s, b.cfg, b.c);
      if p.Good? && p.val.Some? {
        RenderLength(s.k, s.tabs[b.cfg.samplingIndex], p.val.value, b.st);
      }
    }
  }

  class FrameDecoder {
    const dec: Decoder
    const asc: seq<nat>    // the retained description of a raw stream
    const raw: bool

    ghost predicate Valid()
      reads dec, dec.dsp, dec.single`msMask, dec.single.ch0, dec.single.ch1, dec.pair`msMask, dec.pair.ch0,
          dec.pair.ch1, dec.sfCodes, dec.codes
    {
      dec.Valid() && raw == !dec.s.adts && (raw ==> dec.configured && IsBytes(asc) && AscOf(asc).Accepted?)
    }

    /** For a stream of ADTS units: the configuration comes with the first one. */
    constructor Adts(d: Decoder)
      requires d.Valid() && d.s.adts && d.Observe() == Fresh
      ensures Valid() && dec == d && !raw && ValidObs(dec.Observe())
    {
      dec, asc, raw := d, [], false;
    }

    /** For bare units, with the configuration that was signalled out of band and
        that the decoder was just rearmed with. */
    constructor Raw(d: Decoder, asc: seq<nat>)
      requires d.Valid() && !d.s.adts && IsBytes(asc) && AscOf(asc).Accepted?
      requires d.Observe() == Running(AscOf(asc).cfg, NewState(AscOf(asc).cfg.chanConfig))
      ensures Valid() && dec == d && raw && this.asc == asc && ValidObs(dec.Observe())
    {
      AcceptedIsConfig(Cursor(BytesBits(asc), 0, false));
      dec, this.asc, raw := d, asc, true;
    }

    /** Decodes one access unit and appends its PCM to dst. On an error dst comes
        back unchanged, and the decoder is as if it had never seen the unit. */
    method DecodeFrame(dst: seq<nat>, au: seq<nat>) returns (out: seq<nat>, samples: nat, err: Option<Err>)
      requires Valid() && IsBytes(au) && dec.s.Valid() && ValidObs(dec.Observe())
      modifies dec, dec.dsp, dec.single, dec.single.ch0, dec.single.ch1, dec.pair, dec.pair.ch0, dec.pair.ch1
      ensures Valid() && ValidObs(dec.Observe())
      ensures dst <= out && (dec.Observe(), if err.Some? then Failed(err.value) else Pcm(out[|dst|..]))
              == DecodeUnit(dec.s, old(dec.Observe()), au)
      ensures if err.Some? then out == dst && samples == 0 else samples == 1024
    {
      hide DecodeUnit, Latched, Decoder.Laid, Decoder.Tabled, ValidObs, BytesBits;
      ghost var o := dec.Observe();
      StepFromEffect(dec.s, o, au);
      var configured := dec.Channels() != 0;
      out, samples, err := dec.AppendS16(dst, au);
      if err.Some? {
        if !raw && !configured {
          dec.ResetAdts();
        }
        dec.ObserveValid();
        return dst, 0, err;
      }
      if |out| - |dst| != samples * dec.Channels() * 2 {
        if !raw && !configured {
          dec.ResetAdts();
        }
        dec.ObserveValid();
        return dst, 0, Some(InvalidData);
      }
      dec.ObserveValid();
    }

    /** Rearms the decoder for a fresh session. */
    method Reset()
      requires Valid()
      modifies dec, dec.single, dec.single.ch0, dec.single.ch1, dec.pair, dec.pair.ch0, dec.pair.ch1
      ensures Valid()
      ensures dec.Observe() == if raw then Running(AscOf(asc).cfg, NewState(AscOf(asc).cfg.chanConfig)) else Fresh
    {
      if raw {
        var err := dec.ResetRaw(asc);
      } else {
        dec.ResetAdts();
      }
    }
  }
}
