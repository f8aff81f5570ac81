/** A decoding session unit by unit: what a unit does to the part of the decoder
    later units can see. A unit that fails does nothing to it. */
module DecSession {
  import opened BitStrings
  import opened BitReader
  import opened AacSyntax
  import opened AacParse
  import opened AacForward
  import opened AacFrame
  import opened DecRender
  import AdtsHeader

  datatype Config = Config(objectType: nat, samplingIndex: nat, sampleRate: nat, chanConfig: nat, sbr: int, ps: int,
                           frameLenShort: bool)

  /** Fresh before the configuration is known; afterwards the configuration, the
      noise generator, and each channel's window and overlap memory. */
  datatype Obs = Fresh | Running(cfg: Config, st: State)

  datatype Setup = Setup(k: Kernels, tabs: seq<Tables>, adts: bool) {
    ghost predicate Valid() {
      k.Valid() && |tabs| == 13 && forall i :: 0 <= i < 13 ==> tabs[i].Valid()
    }
  }

  const SEED: int := 0x1f2e3d4c

  /** What the decoder finds wrong with a configuration, in the order it checks. */
  function CheckConfig(c: Config): Option<Err> {
    if c.objectType != 2 then Some(Unsupported)
    else if c.samplingIndex > 12 then Some(InvalidData)
    else if c.frameLenShort then Some(Unsupported)
    else if c.chanConfig != 1 && c.chanConfig != 2 then Some(Unsupported)
    else None
  }

  /** AAC-LC at a table rate, frames of 1024, mono or stereo: all else is refused. */
  lemma ConfigAccepted(c: Config)
    ensures CheckConfig(c).None?
            <==> c.objectType == 2 && c.samplingIndex < 13 && !c.frameLenShort && 1 <= c.chanConfig <= 2
  {
  }

  function ZeroChan(): Chan {
    Chan(0, 0, seq(1536, _ => 0))
  }

  function NewState(channels: nat): State {
    State(SEED, if channels == 1 then [ZeroChan()] else [ZeroChan(), ZeroChan()])
  }

  /** What an ADTS header says about the stream. */
  function HeaderConfig(h: AdtsHeader.Header): Config {
    Config(h.objectType, h.samplingIndex, h.sampleRate, h.chanConfig, -1, -1, false)
  }

  datatype Start = Refused(err: Err) | Started(cfg: Config, st: State, c: Cursor)

  function HeaderError(e: AdtsHeader.Err): Err {
    if e.Sync? then Sync else InvalidData
  }

  /** Configuration and position at the start of the raw_data_block. */
  function Begin(o: Obs, adts: bool, s: Bits): Start {
    var c := Cursor(s, 0, false);
    if adts then
      var h := AdtsHeader.ParseHeader(c);
      if h.Fail? then Refused(HeaderError(h.err))
      else if h.value.frames != 1 then Refused(Unsupported)
      else
        var cfg := HeaderConfig(h.value);
        var c' := if h.value.crcAbsent == 0 then AdtsHeader.HeaderEnd(c).Skip(16) else AdtsHeader.HeaderEnd(c);
        if o.Fresh? then
          (if CheckConfig(cfg).Some? then Refused(CheckConfig(cfg).value)
           else Started(cfg, NewState(cfg.chanConfig), c'))
        else if cfg != o.cfg then Refused(Unsupported)
        else Started(cfg, o.st, c')
    else if o.Fresh? then Refused(InvalidData)
    else Started(o.cfg, o.st, c)
  }

  ghost predicate ValidObs(o: Obs) {
    o.Running? ==> CheckConfig(o.cfg).None? && o.st.Valid(o.cfg.chanConfig)
  }

  lemma BeginIsValid(o: Obs, adts: bool, s: Bits)
    requires ValidObs(o)
    ensures var b := Begin(o, adts, s);
            b.Started? ==> CheckConfig(b.cfg).None? && b.st.Valid(b.cfg.chanConfig) && b.c.Valid() && b.c.s == s
  {
    hide Cursor.Peek, AdtsHeader.ParseHeader, AdtsHeader.HeaderEnd, BytesBits;
    AdtsHeader.HeaderEndStays(Cursor(s, 0, false));
  }

  /** The block of a unit with a header starts behind its seven bytes, or behind
      the two of the checksum when bit 15 says there is one. */
  lemma BlockStart(o: Obs, s: Bits)
    requires Begin(o, true, s).Started?
    ensures |s| >= 56
    ensures Begin(o, true, s).c
            == if s[15] then Cursor(s, 56, false)
               else if |s| >= 72 then Cursor(s, 72, false) else Cursor(s, |s|, true)
  {
    hide Cursor.Peek, AdtsHeader.ParseHeader, AdtsHeader.HeaderEnd, CheckConfig, NewState;
    HeaderWhole(Cursor(s, 0, false));
    OneBit(Cursor(s, 15, false));
  }

  lemma HeaderWhole(c: Cursor)
    requires c.pos == 0 && !c.over && AdtsHeader.ParseHeader(c).Ok?
    ensures |c.s| >= 56 && AdtsHeader.HeaderEnd(c) == c.Adv(56)
    ensures AdtsHeader.ParseHeader(c).value.crcAbsent == Cursor(c.s, 15, false).Peek(1)
  {
    hide Cursor.Peek, AdtsHeader.SampleRates;
  }

  lemma OneBit(c: Cursor)
    requires c.pos < |c.s|
    ensures c.Peek(1) == if c.s[c.pos] then 1 else 0
  {
    var w := Window(c.s, c.pos, 1);
    assert w[..0] == [] && w[0] == c.s[c.pos] && Val(w[..0]) == 0;
    assert Val(w) == 2 * Val(w[..|w| - 1]) + (if w[|w| - 1] then 1 else 0);
  }

  // ----- parsed elements render

  lemma ChannelIsGood(t: Tables, c: Cursor, common: Option<Ics>)
    requires t.Valid() && c.Valid() && (common.Some? ==> GeoOf(t, common.value).Valid())
    ensures var p := ParseChannel(t, c, common);
            p.Good? ==> GoodSymbols(t, p.val) && p.c.Valid() && (common.Some? ==> p.val.ics == common.value)
  {
    hide Tables.Valid, Geo.Valid, ParseIcs, ParseSide, ParseCoefs, Geo.BandsFrom;
    ParseChannelForward(t, c, common);
    ParseIcsGeo(t, c.Skip(8));
    ParseIcsValid(t, c.Skip(8));
    var i := if common.Some? then Good(common.value, c.Skip(8)) else ParseIcs(t, c.Skip(8));
    if i.Good? {
      ParseSideFits(t, i.c, c.Peek(8), i.val);
    }
  }

  lemma TwoAreGood(t: Tables, c: Cursor, common: Option<Ics>, ms: Ms)
    requires t.Valid() && c.Valid() && (common.Some? ==> GeoOf(t, common.value).Valid())
    requires ms.mode != 0 ==> common.Some? && |ms.mask| == GeoOf(t, common.value).Bands()
    ensures var p := ParseTwo(t, c, common, ms);
            p.Good? ==> p.val.Pair? && GoodElement(t, p.val)
  {
    hide Tables.Valid, Geo.Valid, ParseChannel, Geo.BandsFrom;
    ChannelIsGood(t, c, common);
    var p := ParseChannel(t, c, common);
    if p.Good? {
      ChannelIsGood(t, p.c, common);
    }
  }

  lemma PairIsGood(t: Tables, c: Cursor)
    requires t.Valid() && c.Valid()
    ensures var p := ParsePair(t, c);
            p.Good? ==> p.val.Pair? && GoodElement(t, p.val)
  {
    hide Tables.Valid, Geo.Valid, ParseTwo, ParseIcs, ParseMask, Geo.BandsFrom, Cursor.Peek;
    var c1 := c.Skip(1);
    if c.Peek(1) == 0 {
      TwoAreGood(t, c1, None, Ms(0, []));
    } else {
      var i := ParseIcs(t, c1);
      if i.Good? {
        ParseIcsGeo(t, c1);
        ParseIcsForward(t, c1);
        var n := GeoOf(t, i.val).Bands();
        var m := ParseMs(i.c, n);
        ParseMaskForward(i.c.Skip(2), n, []);
        ModeBound(i.c);
        if m.Good? {
          ParseMsForward(i.c, n);
          TwoAreGood(t, m.c, Some(i.val), m.val);
        }
      }
    }
  }

  lemma ModeBound(c: Cursor)
    ensures c.Peek(2) < 4
  {
    ValBound(Window(c.s, c.pos, 2));
    assert Pow2(2) == 4;
  }

  ghost predicate Suits(t: Tables, channels: nat, found: Option<Element>) {
    found.Some? ==> GoodElement(t, found.value) && (found.value.Mono? <==> channels == 1)
  }

  lemma ElementSuits(t: Tables, channels: nat, c: Cursor, kind: nat, id: nat, found: Option<Element>)
    requires t.Valid() && c.Valid() && 1 <= channels <= 2 && Suits(t, channels, found)
    ensures var p := ParseElement(t, channels, c, kind, id, found);
            p.Good? ==> Suits(t, channels, p.val)
  {
    hide Tables.Valid, ParseChannel, ParsePair, SkipDse, SkipFil, GoodElement, GoodSymbols;
    ChannelIsGood(t, c, None);
    PairIsGood(t, c);
    MonoIsGood(t, c);
  }

  lemma MonoIsGood(t: Tables, c: Cursor)
    requires t.Valid() && c.Valid()
    ensures ParseChannel(t, c, None).Good? ==> GoodElement(t, Mono(ParseChannel(t, c, None).val))
  {
    hide Tables.Valid, ParseChannel, GoodSymbols;
    ChannelIsGood(t, c, None);
  }

  /** Whatever the element loop accepts can be rendered. */
  lemma {:induction false} BlockSuits(t: Tables, channels: nat, c: Cursor, found: Option<Element>)
    requires t.Valid() && c.Valid() && 1 <= channels <= 2 && Suits(t, channels, found)
    ensures var p := ParseBlock(t, channels, c, found);
            p.Good? ==> Suits(t, channels, p.val)
    decreases |c.s| - c.pos
  {
    hide Tables.Valid, ParseElement, Cursor.Peek, Suits;
    var c2 := c.Skip(3).Skip(4);
    if c.Peek(3) != TYPE_END && !c2.over {
      var p := ParseElement(t, channels, c2, c.Peek(3), c.Skip(3).Peek(4), found);
      if p.Good? {
        ParseElementForward(t, channels, c2, c.Peek(3), c.Skip(3).Peek(4), found);
        ElementSuits(t, channels, c2, c.Peek(3), c.Skip(3).Peek(4), found);
        if p.c.Left() >= 3 {
          BlockSuits(t, channels, p.c, p.val);
        }
      }
    }
  }

  // ----- one unit

  datatype Outcome = Failed(err: Err) | Pcm(bytes: seq<nat>)

  /** What the unit's bits say, once it is started. */
  ghost function Parse(s: Setup, cfg: Config, c: Cursor): (p: Parsed<Option<Element>>)
    requires s.Valid() && CheckConfig(cfg).None? && c.Valid()
    ensures p.Good? ==> Suits(s.tabs[cfg.samplingIndex], cfg.chanConfig, p.val)
  {
    BlockSuits(s.tabs[cfg.samplingIndex], cfg.chanConfig, c, None);
    ParseBlock(s.tabs[cfg.samplingIndex], cfg.chanConfig, c, None)
  }

  /** One unit: PCM and a new state, or an error and the state as it was. A unit
      without an audio element is an error, too. */
  ghost function DecodeUnit(s: Setup, o: Obs, unit: seq<nat>): (r: (Obs, Outcome))
    requires s.Valid() && ValidObs(o)
    ensures ValidObs(r.0)
  {
    hide Tables.Valid, Kernels.Valid, ParseBlock, Begin, Render, GoodElement, Parse;
    var b := Begin(o, s.adts, BytesBits(unit));
    BeginIsValid(o, s.adts, BytesBits(unit));
    if b.Refused? then (o, Failed(b.err))
    else
      var p := Parse(s, b.cfg, b.c);
      if p.Bad? then (o, Failed(p.err))
      else if p.val.None? then (o, Failed(InvalidData))
      else
        var r := Render(s.k, s.tabs[b.cfg.samplingIndex], p.val.value, b.st);
        RenderValid(s.k, s.tabs[b.cfg.samplingIndex], p.val.value, b.st);
        (Running(b.cfg, r.1), Pcm(r.0))
  }

  /** The same below the frame decoder, where a first header stays latched even
      when the rest of the unit fails, and a unit without audio yields no bytes. */
  datatype Effect = Effect(o: Obs, added: seq<nat>, samples: nat, err: Option<Err>)

  ghost function Latched(s: Setup, o: Obs, unit: seq<nat>): (r: Effect)
    requires s.Valid() && ValidObs(o)
    ensures ValidObs(r.o)
  {
    hide Tables.Valid, Kernels.Valid, ParseBlock, Begin, Render, GoodElement, Parse;
    var b := Begin(o, s.adts, BytesBits(unit));
    BeginIsValid(o, s.adts, BytesBits(unit));
    if b.Refused? then Effect(o, [], 0, Some(b.err))
    else
      var p := Parse(s, b.cfg, b.c);
      if p.Bad? then Effect(Running(b.cfg, b.st), [], 0, Some(p.err))
      else if p.val.None? then Effect(Running(b.cfg, b.st), [], 1024, None)
      else
        var r := Render(s.k, s.tabs[b.cfg.samplingIndex], p.val.value, b.st);
        RenderValid(s.k, s.tabs[b.cfg.samplingIndex], p.val.value, b.st);
        Effect(Running(b.cfg, r.1), r.0, 1024, None)
  }

  lemma RenderValid(k: Kernels, t: Tables, e: Element, o: State)
    requires k.Valid() && GoodElement(t, e) && o.Valid(if e.Mono? then 1 else 2)
    ensures Render(k, t, e, o).1.Valid(if e.Mono? then 1 else 2)
  {
    hide Spectrum, PairSpectra, Output, Transformed, Tns, MonoBytes, StereoBytes, GoodSymbols, Kernels.Valid, Saved;
  }

  // ----- whole sessions

  /** The outcomes of a sequence of units, and what is left behind. */
  ghost function Run(s: Setup, o: Obs, units: seq<seq<nat>>): (r: (seq<Outcome>, Obs))
    requires s.Valid() && ValidObs(o)
    ensures |r.0| == |units| && ValidObs(r.1)
    decreases |units|
  {
    hide DecodeUnit, ValidObs, Setup.Valid;
    if |units| == 0 then ([], o)
    else
      var (o', out) := DecodeUnit(s, o, units[0]);
      var (rest, end) := Run(s, o', units[1..]);
      ([out] + rest, end)
  }

  /** The outcomes that are PCM, in order. */
  function Heard(outs: seq<Outcome>): seq<Outcome> {
    if |outs| == 0 then [] else (if outs[0].Pcm? then [outs[0]] else []) + Heard(outs[1..])
  }

  /** The units whose outcome is PCM, in order. */
  function Survivors(units: seq<seq<nat>>, outs: seq<Outcome>): seq<seq<nat>>
    requires |outs| == |units|
  {
    if |outs| == 0 then [] else (if outs[0].Pcm? then [units[0]] else []) + Survivors(units[1..], outs[1..])
  }

  /** Error transparency: over any sequence of units, the PCM of those that succeed
      is the PCM of a decoder fed only with those, all of which succeed there, and
      both decoders end in the same state. */
  lemma {:induction false} FailuresLeaveNoTrace(s: Setup, o: Obs, units: seq<seq<nat>>)
    requires s.Valid() && ValidObs(o)
    ensures var all := Run(s, o, units);
            var only := Run(s, o, Survivors(units, all.0));
            only.0 == Heard(all.0) && only.1 == all.1
    decreases |units|
  {
    hide DecodeUnit, ValidObs, Setup.Valid;
    if |units| > 0 {
      var (o', out) := DecodeUnit(s, o, units[0]);
      var all, rest := Run(s, o, units), Run(s, o', units[1..]);
      FailedUnit(s, o, units[0]);
      FailuresLeaveNoTrace(s, o', units[1..]);
      assert all.0 == [out] + rest.0;
      assert all.0[1..] == rest.0;
      var kept := Survivors(units[1..], rest.0);
      if out.Pcm? {
        assert Survivors(units, all.0) == [units[0]] + kept;
        assert ([units[0]] + kept)[1..] == kept;
      } else {
        assert Survivors(units, all.0) == kept && Heard(all.0) == Heard(rest.0);
      }
    }
  }

  /** A unit that fails changes nothing. */
  lemma FailedUnit(s: Setup, o: Obs, unit: seq<nat>)
    requires s.Valid() && ValidObs(o)
    ensures DecodeUnit(s, o, unit).1.Failed? ==> DecodeUnit(s, o, unit).0 == o
  {
    hide Tables.Valid, Kernels.Valid, ParseBlock, Begin, Render, GoodElement, Parse, Setup.Valid;
  }

  /** An ADTS session takes its configuration from the first unit that decodes: a
      unit with another one is refused from then on, whatever failed before. */
  lemma ConfigurationIsFirstSuccess(s: Setup, unit: seq<nat>, later: seq<nat>)
    requires s.Valid() && s.adts && DecodeUnit(s, Fresh, unit).1.Pcm?
    ensures var o := DecodeUnit(s, Fresh, unit).0;
            && o.Running? && o.cfg == HeaderConfig(AdtsHeader.ParseHeader(Cursor(BytesBits(unit), 0, false)).value)
            && (var h := AdtsHeader.ParseHeader(Cursor(BytesBits(later), 0, false));
                h.Ok? && h.value.frames == 1 && HeaderConfig(h.value) != o.cfg ==>
                    DecodeUnit(s, o, later) == (o, Failed(Unsupported)))
  {
    hide Tables.Valid, Kernels.Valid, ParseBlock, Render, GoodElement, Parse, Setup.Valid, AdtsHeader.ParseHeader,
         BytesBits, AdtsHeader.HeaderEnd;
  }
}
