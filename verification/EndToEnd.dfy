/** Encoder and decoder joined: what a decoding session does with the units the
    encoder emits. */
module EndToEnd {
  import opened BitStrings
  import opened BitReader
  import opened AacSyntax
  import opened AacParse
  import opened AacFrame
  import opened RoundTrip
  import opened DecRender
  import opened DecSession
  import opened AdtsAny
  import opened AdtsHeader

  function ChannelsOf(f: Frame): nat {
    if f.FrameMono? then 1 else 2
  }

  /** The configuration the encoder's ADTS headers announce. */
  function EncoderConfig(srIndex: nat, channels: nat): Config
    requires srIndex < 13
  {
    Config(2, srIndex, SampleRates()[srIndex], channels, -1, -1, false)
  }

  /** The frame decodes to exactly the element that was written, rendered from the
      state before it. */
  ghost predicate DecodesAs(s: Setup, cfg: Config, st: State, t: Tables, f: Frame, r: (Obs, Outcome))
    requires s.Valid() && WellFormedFrame(t, f)
  {
    && GoodElement(t, ExpectedElement(t, f)) && (ExpectedElement(t, f).Mono? <==> f.FrameMono?)
        && st.Valid(ChannelsOf(f))
    && var (pcm, st') := Render(s.k, t, ExpectedElement(t, f), st);
       r == (Running(cfg, st'), Pcm(pcm))
  }

  lemma HeaderSkips(c: Cursor)
    requires c.pos + 56 <= |c.s|
    ensures HeaderEnd(c) == c.Adv(56)
  {
  }

  lemma ParsedFrame(s: Setup, cfg: Config, t: Tables, f: Frame, c: Cursor)
    requires s.Valid() && CheckConfig(cfg).None? && t == s.tabs[cfg.samplingIndex] && WellFormedFrame(t, f)
             && cfg.chanConfig == ChannelsOf(f)
    requires c.Valid() && !c.over && c.Ahead(PrintFrame(t, f))
    ensures Parse(s, cfg, c).Good? && Parse(s, cfg, c).val == Some(ExpectedElement(t, f))
    ensures GoodElement(t, ExpectedElement(t, f)) && (ExpectedElement(t, f).Mono? <==> f.FrameMono?)
  {
    hide PrintFrame, WellFormedFrame, ParseBlock, ExpectedElement, Tables.Valid, GoodElement, Cursor.Ahead,
         Kernels.Valid;
    FrameRoundTrip(t, c, f);
  }

  /** A raw unit: the payload alone, for a decoder configured out of band. */
  lemma RawUnitDecodes(s: Setup, cfg: Config, st: State, f: Frame, unit: seq<nat>, pad: Bits)
    requires s.Valid() && !s.adts && ValidObs(Running(cfg, st)) && cfg.chanConfig == ChannelsOf(f)
    requires WellFormedFrame(s.tabs[cfg.samplingIndex], f)
    requires BytesBits(unit) == PrintFrame(s.tabs[cfg.samplingIndex], f) + pad
    ensures DecodesAs(s, cfg, st, s.tabs[cfg.samplingIndex], f, DecodeUnit(s, Running(cfg, st), unit))
  {
    hide PrintFrame, WellFormedFrame, ExpectedElement, Tables.Valid, GoodElement, Parse, BytesBits, Kernels.Valid,
         Render, State.Valid;
    var t, c := s.tabs[cfg.samplingIndex], Cursor(BytesBits(unit), 0, false);
    assert c.Ahead(PrintFrame(t, f));
    ParsedFrame(s, cfg, t, f, c);
  }

  /** An ADTS unit, header and payload: it decodes on a fresh decoder, which takes
      its configuration, and on one that runs with it. */
  lemma AdtsUnitDecodes(s: Setup, o: Obs, srIndex: nat, f: Frame, payload: seq<nat>, pad: Bits)
    requires s.Valid() && s.adts && srIndex < 13 && ValidObs(o) && |payload| <= MAX_PAYLOAD
    requires o.Running? ==> o.cfg == EncoderConfig(srIndex, ChannelsOf(f))
    requires WellFormedFrame(s.tabs[srIndex], f) && BytesBits(payload) == PrintFrame(s.tabs[srIndex], f) + pad
    ensures DecodesAs(s, EncoderConfig(srIndex, ChannelsOf(f)), if o.Fresh? then NewState(ChannelsOf(f))
                      else o.st, s.tabs[srIndex], f,
                      DecodeUnit(s, o, HeaderBytes(srIndex, ChannelsOf(f), |payload|) + payload))
  {
    hide PrintFrame, WellFormedFrame, ExpectedElement, Tables.Valid, GoodElement, Parse, BytesBits, Kernels.Valid,
         Render, State.Valid, HeaderBytes, HeaderEnd, ParseHeader, SampleRates, NewState;
    var n, t := ChannelsOf(f), s.tabs[srIndex];
    var head := HeaderBytes(srIndex, n, |payload|);
    var c := Cursor(BytesBits(head + payload), 0, false);
    BytesBitsConcat(head, payload);
    AheadConcat(BytesBits(head), PrintFrame(t, f), pad);
    HeaderRoundTrip(c, srIndex, n, |payload|);
    HeaderSkips(c);
    NewStateValid(n);
    ParsedFrame(s, EncoderConfig(srIndex, n), t, f, c.Adv(56));
  }

  lemma NewStateValid(n: nat)
    requires n == 1 || n == 2
    ensures NewState(n).Valid(n)
  {
  }

  lemma AheadConcat(a: Bits, b: Bits, d: Bits)
    ensures Cursor(a + (b + d), 0, false).Ahead(a) && Cursor(a + (b + d), |a|, false).Ahead(b)
  {
    var s := a + (b + d);
    assert s[0..|a|] == a;
    assert s[|a|..|a| + |b|] == b;
  }

  // ----- what a header decides

  /** The configuration a header announces. */
  function Announced(h: Raw): Config
    requires Legal(h)
  {
    Config(h.profile + 1, h.rateIndex, SampleRates()[h.rateIndex], h.chan, -1, -1, false)
  }

  /** A unit behind any well-formed header: more than one block is refused, so is
      a fresh start that is not AAC-LC in one or two channels, and a change of the
      configuration; otherwise the block starts behind the header and its
      checksum, if it has one. */
  lemma HeaderDecides(o: Obs, s: Bits, h: Raw)
    requires Legal(h) && Cursor(s, 0, false).Ahead(FixedPart(h, VariablePart(h)))
    ensures var b := Begin(o, true, s);
            if h.blocks > 0 then b == Refused(Unsupported)
            else if o.Fresh? then
              if h.profile == 1 && 1 <= h.chan <= 2
              then b == Started(Announced(h), NewState(h.chan),
                                Cursor(s, 56, false).Skip(if h.crcAbsent == 0 then 16 else 0))
              else b == Refused(Unsupported)
            else if Announced(h) == o.cfg
            then b == Started(o.cfg, o.st, Cursor(s, 56, false).Skip(if h.crcAbsent == 0 then 16 else 0))
            else b == Refused(Unsupported)
  {
    hide Cursor.Ahead, ParseHeader, HeaderEnd, FixedPart, VariablePart, SampleRates, NewState;
    var c := Cursor(s, 0, false);
    AnyHeaderReads(c, h);
    HeaderFits(s, h);
  }

  lemma HeaderFits(s: Bits, h: Raw)
    requires Cursor(s, 0, false).Ahead(FixedPart(h, VariablePart(h)))
    ensures |s| >= 56
  {
    hide ToBits;
  }
}
