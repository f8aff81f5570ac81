/** The decoder as an object: configuration, unit parsing with its rollback, and
    reconstruction, in the fields that survive from unit to unit. */
module DecDecoder {
  import opened BitStrings
  import opened BitReader
  import opened Vlc
  import opened AacSyntax
  import opened AacParse
  import opened AacFrame
  import opened DecChannel
  import opened DecCoefs
  import opened DecElements
  import opened DecBlock
  import opened DecRender
  import opened DecImdct
  import opened DecRecon
  import opened DecSession
  import AdtsHeader
  import opened AudioConfig

  class Decoder {
    const s: Setup            // kernels and tables
    const sfCodes: Table
    const codes: seq<Table>
    const dsp: DspState
    const single: Cpe         // the memory of single channel element 0
    const pair: Cpe           // the memory of channel pair element 0
    var adts: bool
    var configured: bool
    var cfg: Config
    var hasSingle: bool       // whether the layout has that element
    var hasPair: bool
    var elems: seq<ElemRef>
    var randomState: int

    ghost predicate Tabled()
      reads sfCodes, codes
    {
      && s.Valid() && sfCodes.Valid()
      && forall i :: 0 <= i < 13 ==> sfCodes.book == s.tabs[i].sf && CodesReady(s.tabs[i], codes)
    }

    /** The elements share no memory. */
    ghost predicate Laid()
      reads single`msMask, single.ch0, single.ch1, pair`msMask, pair.ch0, pair.ch1
    {
      && single.Valid() && pair.Valid() && single != pair
      && single.ch0 != pair.ch0 && single.ch0 != pair.ch1 && single.ch1 != pair.ch0 && single.ch1 != pair.ch1
    }

    ghost predicate Valid()
      reads this, dsp, single`msMask, single.ch0, single.ch1, pair`msMask, pair.ch0, pair.ch1, sfCodes, codes
    {
      && Tabled() && adts == s.adts && dsp.Valid() && Laid()
      && (configured ==>
          CheckConfig(cfg).None? && hasSingle == (cfg.chanConfig == 1) && hasPair == (cfg.chanConfig == 2))
    }

    /** The element of the configured layout. */
    ghost function Active(): Cpe
      reads this`cfg
    {
      if cfg.chanConfig == 1 then single else pair
    }

    /** What later units can see. */
    ghost function Observe(): Obs
      reads this`configured, this`cfg, this`randomState, single.ch0`ics, single.ch0`saved, single.ch1`ics,
          single.ch1`saved,
            pair.ch0`ics, pair.ch0`saved, pair.ch1`ics, pair.ch1`saved
    {
      if !configured then Fresh else Running(cfg, StateOf(Active(), cfg.chanConfig, randomState))
    }

    constructor (setup: Setup, sfTable: Table, tables: seq<Table>, isAdts: bool)
      requires setup.Valid() && setup.adts == isAdts && sfTable.Valid()
      requires forall i :: 0 <= i < 13 ==> sfTable.book == setup.tabs[i].sf && CodesReady(setup.tabs[i], tables)
      ensures Valid() && Observe() == Fresh && s == setup
    {
      s, sfCodes, codes := setup, sfTable, tables;
      adts, configured, cfg := isAdts, false, NoConfig();
      hasSingle, hasPair, elems, randomState := false, false, [], 0;
      dsp := new DspState();
      single := new Cpe();
      pair := new Cpe();
    }

    /** The element of a layout starts from zero, the other one is dropped. */
    method Lay(channels: nat)
      requires Laid() && 1 <= channels <= 2
      modifies this`hasSingle, this`hasPair, single, single.ch0, single.ch1, pair, pair.ch0, pair.ch1
      ensures Laid() && hasSingle == (channels == 1) && hasPair == (channels == 2)
      ensures (if channels == 1 then single else pair).IsZero()
    {
      if channels == 1 {
        single.Clear();
        hasSingle, hasPair := true, false;
      } else {
        pair.Clear();
        hasPair, hasSingle := true, false;
      }
    }

    /** Applies a configuration, or refuses it and changes nothing. */
    method Configure(c: Config) returns (err: Option<Err>)
      requires Valid() && !configured
      modifies this`configured, this`cfg, this`hasSingle, this`hasPair, this`randomState
      modifies single, single.ch0, single.ch1, pair, pair.ch0, pair.ch1
      ensures Valid() && err == CheckConfig(c)
      ensures Observe() == if err.Some? then Fresh else Running(c, NewState(c.chanConfig))
    {
      hide Tabled, Laid;
      if c.objectType != 2 {
        return Some(Unsupported);
      }
      if c.samplingIndex > 12 {
        return Some(InvalidData);
      }
      if c.frameLenShort {
        return Some(Unsupported);
      }
      if c.chanConfig != 1 && c.chanConfig != 2 {
        return Some(Unsupported);
      }
      Lay(c.chanConfig);
      cfg := c;
      configured := true;
      randomState := SEED;
      err := None;
    }

    /** Rearms the decoder for a fresh ADTS stream. */
    method ResetAdts()
      requires Valid() && s.adts
      modifies this`adts, this`configured, this`cfg, this`elems
      ensures Valid() && Observe() == Fresh
    {
      hide Tabled, Laid;
      adts, configured, cfg, elems := true, false, NoConfig(), [];
    }

    /** Rearms the decoder for the raw stream that asc describes, or refuses asc and
        changes nothing. */
    method ResetRaw(asc: seq<nat>) returns (err: Option<Err>)
      requires Valid() && !s.adts && IsBytes(asc)
      modifies this, single, single.ch0, single.ch1, pair, pair.ch0, pair.ch1
      ensures Valid()
      ensures match AscOf(asc)
              case Rejected(e) => err == Some(e) && Observe() == old(Observe()) && configured == old(configured)
              case Accepted(c) => err.None? && configured && Observe() == Running(c, NewState(c.chanConfig))
    {
      hide Tabled, Laid, ParseAsc, BytesBits;
      var a := ParseAscBytes(asc);
      if a.Rejected? {
        return Some(a.err);
      }
      AcceptedIsConfig(Cursor(BytesBits(asc), 0, false));
      adts, configured, cfg, elems := false, false, NoConfig(), [];
      err := Configure(a.cfg);
    }

    /** Puts back the window history captured at the start of the unit. */
    method RestoreWindowHistory()
      requires Valid() && configured
      modifies single.ch0`ics, single.ch1`ics, pair.ch0`ics, pair.ch1`ics
      ensures Valid()
      ensures HistOf(Active().ch0.ics) == Active().saved0 && HistOf(Active().ch1.ics) == Active().saved1
    {
      hide Tabled;
      if hasSingle {
        Restore(single);
      }
      if hasPair {
        Restore(pair);
      }
    }

    /** The ADTS header: the configuration it carries is latched by the first unit
        and may not change afterwards. */
    method ReadHeader(r: Reader) returns (err: Option<Err>)
      requires Valid() && s.adts && r.Valid() && r.Cur() == Cursor(r.Cur().s, 0, false)
      modifies r`pos, r`overread
      modifies this`configured, this`cfg, this`hasSingle, this`hasPair, this`randomState
      modifies single, single.ch0, single.ch1, pair, pair.ch0, pair.ch1
      ensures Valid() && r.Valid()
      ensures var b := Begin(old(Observe()), true, old(r.Cur().s));
              if b.Refused? then err == Some(b.err) && Observe() == old(Observe())
              else err.None? && Observe() == Running(b.cfg, b.st) && r.Cur() == b.c
    {
      hide Tabled, Laid, AdtsHeader.ParseHeader, AdtsHeader.HeaderEnd, Reader.Valid, Reader.Cur, BytesBits, CheckConfig,
           NewState;
      var h := AdtsHeader.ParseAdts(r);
      if h.Fail? {
        return Some(HeaderError(h.err));
      }
      if h.value.frames != 1 {
        return Some(Unsupported);
      }
      var c := HeaderConfig(h.value);
      if !configured {
        err := Configure(c);
        if err.Some? {
          return;
        }
      } else if c != cfg {
        return Some(Unsupported);
      }
      if h.value.crcAbsent == 0 {
        r.Skip(16);
      }
      err := None;
    }

    ghost function T(): Tables
      requires s.Valid() && CheckConfig(cfg).None?
      reads this`cfg
    {
      s.tabs[cfg.samplingIndex]
    }

    /** A unit has been parsed: its element, if it has one, is in place, and st is
        the state before it. */
    ghost predicate Parsed1(found: Option<Element>, b: Before, st: State)
      requires s.Valid() && CheckConfig(cfg).None?
      reads this`cfg, this`randomState, this`elems, single, single.ch0, single.ch1, pair, pair.ch0, pair.ch1
    {
      && Holds(Active(), T(), cfg.chanConfig, found, b)
      && st == StateBefore(b, cfg.chanConfig, randomState)
      && elems == if found.None? then [] else [ElemRef(cfg.chanConfig - 1, 0, Active())]
    }

    /** Parses the raw_data_block. If that fails the window history is put back, and
        nothing later units can see has changed. */
    method ParseUnit(r: Reader) returns (err: Option<Err>, ghost b: Before)
      requires Valid() && configured && r.Valid()
      modifies r`pos, r`overread, this`elems, single, single.ch0, single.ch1, pair, pair.ch0, pair.ch1
      ensures Valid() && r.Valid() && old(r.Cur()).Valid()
      ensures var p := Parse(s, cfg, old(r.Cur()));
              && err == Failure(p)
              && (p.Bad? ==> Observe() == old(Observe()))
              && (p.Good? ==> Parsed1(p.val, b, old(Observe()).st))
    {
      hide Tabled, ParseBlock, Reader.Valid, Reader.Cur, Cursor.Valid, Suits, Holds;
      TablesFit();
      ActiveIs();
      ghost var che := Active();
      b := BeforeOf(che);
      var t := s.tabs[cfg.samplingIndex];
      var sceSlot: Cpe? := if hasSingle then single else null;
      var cpeSlot: Cpe? := if hasPair then pair else null;
      err, elems := DecodeFrameGa(r, sceSlot, cpeSlot, cfg.chanConfig, t, sfCodes, codes, che);
      if err.Some? {
        RestoreWindowHistory();
      }
    }

    /** The PCM of the listed elements. */
    method AppendElems(dst: seq<nat>, ghost found: Option<Element>, ghost b: Before, ghost st: State)
        returns (out: seq<nat>)
      requires s.Valid() && CheckConfig(cfg).None? && st.Valid(cfg.chanConfig) && Suits(T(), cfg.chanConfig, found)
               && Done(found, b, st)
      ensures out == dst + if found.None? then [] else Render(s.k, T(), found.value, st).0
    {
      hide GoodElement, Kernels.Valid, State.Valid, Render, MonoBytes, StereoBytes, StateOf;
      out := dst;
      for i := 0 to |elems|
        invariant out == if i == 0 then dst else dst + Render(s.k, T(), found.value, st).0
      {
        var e := elems[i];
        if e.kind == TYPE_CPE {
          out := AppendStereo(out, e.che.ch0.output, e.che.ch1.output);
        } else {
          out := AppendMono(out, e.che.ch0.output);
        }
      }
    }

    /** Afterwards the state is the one the unit renders to. */
    lemma DoneObserved(found: Option<Element>, b: Before, st: State)
      requires Valid() && configured && st.Valid(cfg.chanConfig) && Suits(T(), cfg.chanConfig, found)
               && Done(found, b, st)
      requires found.None? ==> st == StateBefore(b, cfg.chanConfig, st.rand)
      ensures Observe() == Running(cfg, if found.None? then st else Render(s.k, T(), found.value, st).1)
    {
      hide GoodElement, Kernels.Valid, State.Valid, Render, MonoBytes, StereoBytes, Tabled, Laid;
    }

    /** Decodes one unit and appends its PCM. */
    method AppendS16(dst: seq<nat>, pkt: seq<nat>) returns (out: seq<nat>, samples: nat, err: Option<Err>)
      requires Valid() && IsBytes(pkt) && s.Valid() && ValidObs(Observe())
      modifies this`configured, this`cfg, this`hasSingle, this`hasPair, this`randomState, this`elems
      modifies dsp, single, single.ch0, single.ch1, pair, pair.ch0, pair.ch1
      ensures Valid() && dst <= out
      ensures Effect(Observe(), out[|dst|..], samples, err) == Latched(s, old(Observe()), pkt)
    {
      hide Tabled, Laid, BytesBits, Parse, Begin, Parsed1, Done, Suits, State.Valid, Render, StateOf, Kernels.Valid,
           CheckConfig;
      ghost var o, g := Observe(), Begin(Observe(), adts, BytesBits(pkt));
      BeginIsValid(o, adts, BytesBits(pkt));
      ghost var b;
      err, b := DecodeFrame(pkt);
      if err.Some? {
        return dst, 0, err;
      }
      ghost var found := Parse(s, g.cfg, g.c).val;
      ParsedBefore(found, b, g.st);
      Reconstruct(found, b, g.st);
      out := AppendElems(dst, found, b, g.st);
      DoneObserved(found, b, g.st);
      samples := 1024;
    }

    lemma ObserveValid()
      requires Valid()
      ensures s.Valid() && ValidObs(Observe())
    {
      hide CodesReady, Table.Valid, Setup.Valid;
    }

    lemma ParsedBefore(found: Option<Element>, b: Before, st: State)
      requires s.Valid() && CheckConfig(cfg).None? && Parsed1(found, b, st)
      ensures st == StateBefore(b, cfg.chanConfig, st.rand)
    {
    }

    lemma TablesFit()
      requires Tabled() && CheckConfig(cfg).None?
      ensures s.Valid() && |s.tabs| == 13 && T().Valid() && sfCodes.Valid() && sfCodes.book == T().sf
              && CodesReady(T(), codes)
    {
    }

    lemma ActiveIs()
      requires Laid()
      ensures Active().Valid()
    {
    }

    /** Parses one access unit. */
    method DecodeFrame(pkt: seq<nat>) returns (err: Option<Err>, ghost b: Before)
      requires Valid() && IsBytes(pkt)
      modifies this`configured, this`cfg, this`hasSingle, this`hasPair, this`randomState, this`elems
      modifies single, single.ch0, single.ch1, pair, pair.ch0, pair.ch1
      ensures Valid()
      ensures var (o, g) := (old(Observe()), Begin(old(Observe()), adts, BytesBits(pkt)));
              if g.Refused? then err == Some(g.err) && Observe() == o
              else
                && configured && cfg == g.cfg && g.c.Valid()
                && var p := Parse(s, cfg, g.c);
                && err == Failure(p)
                && (p.Bad? ==> Observe() == Running(g.cfg, g.st))
                && (p.Good? ==> Parsed1(p.val, b, g.st))
    {
      hide Tabled, Laid, ParseBlock, Reader.Valid, Reader.Cur, BytesBits, Parse, AdtsHeader.ParseHeader,
           AdtsHeader.HeaderEnd, CheckConfig, NewState, Parsed1, StateOf;
      b := BeforeOf(single);
      var r := new Reader(pkt);
      if adts {
        err := ReadHeader(r);
        if err.Some? {
          return;
        }
      } else if !configured {
        return Some(InvalidData), b;
      }
      err, b := ParseUnit(r);
    }

    /** The unit's samples are out, and the state has moved on; a unit without
        audio has changed nothing. */
    ghost predicate Done(found: Option<Element>, b: Before, st: State)
      requires s.Valid() && CheckConfig(cfg).None? && st.Valid(cfg.chanConfig)
      requires found.Some? ==> GoodElement(T(), found.value) && (found.value.Mono? <==> cfg.chanConfig == 1)
      reads this`cfg, this`randomState, this`elems, single, single.ch0, single.ch1, pair, pair.ch0, pair.ch1
    {
      && UnitDone(s.k, Active(), T(), cfg.chanConfig, found, b, st, st.rand, randomState)
      && elems == if found.None? then [] else [ElemRef(cfg.chanConfig - 1, 0, Active())]
    }

    /** The spectra of the listed elements, in bitstream order. */
    method DequantElems(t: Tables, ghost found: Option<Element>, ghost b: Before)
      requires Laid() && s.k.Valid() && t.Valid() && 1 <= cfg.chanConfig <= 2
               && Holds(Active(), t, cfg.chanConfig, found, b)
      requires elems == (if found.None? then [] else [ElemRef(cfg.chanConfig - 1, 0, Active())])
      modifies this`randomState, single.ch0`coeffs, single.ch1`coeffs, pair.ch0`coeffs, pair.ch1`coeffs
      ensures Laid() && (found.Some? ==> GoodElement(t, found.value))
      ensures Unrendered(s.k, Active(), t, cfg.chanConfig, found, b, old(randomState), randomState)
    {
      hide Holds, SpectraReady, GoodElement, Kernels.Valid, ElementShown, Tables.Valid;
      ghost var che, rand := Active(), randomState;
      KindIs(che, t, cfg.chanConfig, found, b);
      for i := 0 to |elems|
        invariant Laid() && che == Active() && Holds(che, t, cfg.chanConfig, found, b)
        invariant if i == 0 then randomState == rand
                  else
                    found.Some? && GoodElement(t, found.value)
                        && SpectraReady(s.k, che, t, found.value, rand, randomState)
      {
        randomState := DequantListed(s.k, elems[i], randomState, t, cfg.chanConfig, found.value, b);
      }
    }

    lemma KindIs(che: Cpe, t: Tables, channels: nat, found: Option<Element>, b: Before)
      requires Holds(che, t, channels, found, b)
      ensures found.Some? ==> (found.value.Mono? <==> channels == 1)
    {
    }

    /** Turns the parsed unit into samples: spectra of the listed elements first,
        then the walk over the grid. */
    method Reconstruct(ghost found: Option<Element>, ghost b: Before, ghost st: State)
      requires Valid() && configured && Parsed1(found, b, st) && Suits(T(), cfg.chanConfig, found)
               && st.Valid(cfg.chanConfig)
      modifies this`randomState, dsp, single, single.ch0, single.ch1, pair, pair.ch0, pair.ch1
      ensures Valid() && Done(found, b, st)
    {
      hide Tabled, Holds, UnitDone, Unrendered, GoodElement, State.Valid, Kernels.Valid, StateBefore;
      TablesFit();
      BeforeRand(b, cfg.chanConfig, randomState);
      var t := s.tabs[cfg.samplingIndex];
      ghost var rand := randomState;
      DequantElems(t, found, b);
      var sceSlot: Cpe? := if hasSingle then single else null;
      var cpeSlot: Cpe? := if hasPair then pair else null;
      RenderGrid(s.k, dsp, sceSlot, cpeSlot, cfg.chanConfig, t, Active(), found, b, st, rand, randomState);
    }

    lemma BeforeRand(b: Before, channels: nat, rand: int)
      ensures StateBefore(b, channels, rand).rand == rand
    {
    }

    function Channels(): nat
      reads this
    {
      if configured then cfg.chanConfig else 0
    }
  }

  method Restore(che: Cpe)
    requires che.Valid()
    modifies che.ch0`ics, che.ch1`ics
    ensures che.Valid() && HistOf(che.ch0.ics) == che.saved0 && HistOf(che.ch1.ics) == che.saved1
  {
    var h0, h1 := che.saved0, che.saved1;
    che.ch0.ics := che.ch0.ics.(seq0 := h0.seq0, seq1 := h0.seq1, kb0 := h0.kb0, kb1 := h0.kb1);
    che.ch1.ics := che.ch1.ics.(seq0 := h1.seq0, seq1 := h1.seq1, kb0 := h1.kb0, kb1 := h1.kb1);
  }

  function NoConfig(): Config {
    Config(0, 0, 0, 0, 0, 0, false)
  }
}
