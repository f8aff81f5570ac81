/** The raw_data_block: the element loop around the channels, as the decoder
    parses it and as the encoder writes it. */
module AacFrame {
  import opened BitStrings
  import opened BitReader
  import opened AacSyntax
  import opened AacParse
  import opened AacPrint
  import opened AacForward

  const TYPE_SCE: nat := 0
  const TYPE_CPE: nat := 1
  const TYPE_CCE: nat := 2
  const TYPE_LFE: nat := 3
  const TYPE_DSE: nat := 4
  const TYPE_PCE: nat := 5
  const TYPE_FIL: nat := 6
  const TYPE_END: nat := 7

  /** One decoded channel element. The mask covers the bands of the pair when
      ms is not 0. */
  datatype Element = Mono(s: Symbols) | Pair(common: bool, ms: nat, mask: seq<nat>, s0: Symbols, s1: Symbols)

  function ParseMask(c: Cursor, left: nat, mask: seq<nat>): (seq<nat>, Cursor)
    decreases left
  {
    if left == 0 then (mask, c) else ParseMask(c.Skip(1), left - 1, mask + [c.Peek(1)])
  }

  lemma {:induction false} ParseMaskForward(c: Cursor, left: nat, mask: seq<nat>)
    requires c.Valid()
    ensures var r := ParseMask(c, left, mask);
            Forward(c, r.1) && |r.0| == |mask| + left
    decreases left
  {
    if left > 0 {
      ParseMaskForward(c.Skip(1), left - 1, mask + [c.Peek(1)]);
    }
  }

  /** ms_mask_present and the mask itself. */
  datatype Ms = Ms(mode: nat, mask: seq<nat>)

  function ParseMs(c: Cursor, bands: nat): Parsed<Ms> {
    var mode := c.Peek(2);
    if mode == 3 then Bad(InvalidData)
    else if mode == 1 then
      var (mask, c') := ParseMask(c.Skip(2), bands, []);
      Good(Ms(mode, mask), c')
    else Good(Ms(mode, if mode == 2 then Fill(1, bands) else []), c.Skip(2))
  }

  ghost function ParseTwo(t: Tables, c: Cursor, common: Option<Ics>, ms: Ms): Parsed<Element>
    requires t.Valid() && c.Valid() && (common.Some? ==> GeoOf(t, common.value).Valid())
  {
    var r0 := ParseChannel(t, c, common);
    if r0.Bad? then Bad(r0.err)
    else
      ParseChannelForward(t, c, common);
      var r1 := ParseChannel(t, r0.c, common);
      if r1.Bad? then Bad(r1.err)
      else Good(Pair(common.Some?, ms.mode, ms.mask, r0.val, r1.val), r1.c)
  }

  /** channel_pair_element */
  ghost function ParsePair(t: Tables, c0: Cursor): Parsed<Element>
    requires t.Valid() && c0.Valid()
  {
    var c := c0.Skip(1);
    if c0.Peek(1) == 0 then ParseTwo(t, c, None, Ms(0, []))
    else
      var i := ParseIcs(t, c);
      if i.Bad? then Bad(i.err)
      else
        ParseIcsGeo(t, c);
        ParseIcsForward(t, c);
        var m := ParseMs(i.c, GeoOf(t, i.val).Bands());
        if m.Bad? then Bad(m.err)
        else
          ParseMsForward(i.c, GeoOf(t, i.val).Bands());
          ParseTwo(t, m.c, Some(i.val), m.val)
  }

  lemma ParseMsForward(c: Cursor, bands: nat)
    requires c.Valid()
    ensures var r := ParseMs(c, bands);
            r.Good? ==> Forward(c, r.c)
  {
    ParseMaskForward(c.Skip(2), bands, []);
  }

  lemma ParseTwoForward(t: Tables, c: Cursor, common: Option<Ics>, ms: Ms)
    requires t.Valid() && c.Valid() && (common.Some? ==> GeoOf(t, common.value).Valid())
    ensures var r := ParseTwo(t, c, common, ms);
            r.Good? ==> Forward(c, r.c)
  {
    hide Tables.Valid, Geo.Valid, ParseChannel;
    var r0 := ParseChannel(t, c, common);
    if r0.Good? {
      ParseChannelForward(t, c, common);
      ParseChannelForward(t, r0.c, common);
    }
  }

  lemma ParsePairForward(t: Tables, c0: Cursor)
    requires t.Valid() && c0.Valid()
    ensures var r := ParsePair(t, c0);
            r.Good? ==> Forward(c0, r.c)
  {
    hide Tables.Valid, Geo.Valid, ParseTwo, ParseIcs, ParseMs, Geo.BandsFrom;
    var c := c0.Skip(1);
    if c0.Peek(1) == 0 {
      ParseTwoForward(t, c, None, Ms(0, []));
    } else {
      var i := ParseIcs(t, c);
      if i.Good? {
        ParseIcsGeo(t, c);
        ParseIcsForward(t, c);
        var m := ParseMs(i.c, GeoOf(t, i.val).Bands());
        if m.Good? {
          ParseMsForward(i.c, GeoOf(t, i.val).Bands());
          ParseTwoForward(t, m.c, Some(i.val), m.val);
        }
      }
    }
  }

  // ----- elements that are skipped

  function Align(c: Cursor): Cursor {
    c.Skip((8 - c.pos % 8) % 8)
  }

  function SkipDse(c: Cursor): Parsed<()> {
    var c1 := c.Skip(1);
    var c2 := c1.Skip(8);
    var (count, c3) := if c1.Peek(8) == 255 then (255 + c2.Peek(8), c2.Skip(8)) else (c1.Peek(8), c2);
    var c4 := if c.Peek(1) != 0 then Align(c3) else c3;
    if c4.Left() < 8 * count then Bad(InvalidData) else Good((), c4.Skip(8 * count))
  }

  const EXT_SBR_DATA: nat := 13
  const EXT_SBR_DATA_CRC: nat := 14

  function SkipFil(c: Cursor, id: nat): Parsed<()> {
    var (cnt, c1) := if id == 15 then (id + c.Peek(8) - 1, c.Skip(8)) else (id, c);
    if c1.Left() < 8 * cnt then Bad(InvalidData)
    else if cnt > 0 && (c1.Peek(4) == EXT_SBR_DATA || c1.Peek(4) == EXT_SBR_DATA_CRC) then Bad(UnsupportedSBR)
    else Good((), c1.Skip(8 * cnt))
  }

  /** One element. Only the element the configuration allocates, under tag 0 and
      at most once, carries audio. */
  ghost function ParseElement(t: Tables, channels: nat, c: Cursor, kind: nat, id: nat,
                              found: Option<Element>): Parsed<Option<Element>>
    requires t.Valid() && c.Valid()
  {
    if kind == TYPE_CCE || kind == TYPE_PCE then Bad(Unsupported)
    else if kind == TYPE_DSE then
      var r := SkipDse(c);
      if r.Bad? then Bad(r.err) else Good(found, r.c)
    else if kind == TYPE_FIL then
      var r := SkipFil(c, id);
      if r.Bad? then Bad(r.err) else Good(found, r.c)
    else if found.Some? || id != 0 || kind == TYPE_LFE then Bad(InvalidData)
    else if kind == TYPE_SCE && channels == 1 then
      var r := ParseChannel(t, c, None);
      if r.Bad? then Bad(r.err) else Good(Some(Mono(r.val)), r.c)
    else if kind == TYPE_CPE && channels == 2 then
      var r := ParsePair(t, c);
      if r.Bad? then Bad(r.err) else Good(Some(r.val), r.c)
    else Bad(InvalidData)
  }

  lemma SkipDseForward(c: Cursor)
    requires c.Valid()
    ensures var r := SkipDse(c);
            r.Good? ==> Forward(c, r.c)
  {
    hide Cursor.Peek;
  }

  lemma SkipFilForward(c: Cursor, id: nat)
    requires c.Valid()
    ensures var r := SkipFil(c, id);
            r.Good? ==> Forward(c, r.c)
  {
    hide Cursor.Peek;
  }

  lemma ParseElementForward(t: Tables, channels: nat, c: Cursor, kind: nat, id: nat, found: Option<Element>)
    requires t.Valid() && c.Valid()
    ensures var r := ParseElement(t, channels, c, kind, id, found);
            r.Good? ==> Forward(c, r.c)
  {
    hide Tables.Valid, ParseChannel, ParsePair, SkipDse, SkipFil, Forward;
    SkipDseForward(c);
    SkipFilForward(c, id);
    ParseChannelForward(t, c, None);
    ParsePairForward(t, c);
  }

  /** The element loop up to the end marker: the audio element, if there is one. */
  ghost function ParseBlock(t: Tables, channels: nat, c: Cursor, found: Option<Element>): Parsed<Option<Element>>
    requires t.Valid() && c.Valid()
    decreases |c.s| - c.pos
  {
    hide Tables.Valid, ParseElement;
    var kind := c.Peek(3);
    var c1 := c.Skip(3);
    if kind == TYPE_END then (if c1.over then Bad(InvalidData) else Good(found, c1))
    else
      var c2 := c1.Skip(4);
      if c2.over then Bad(InvalidData)
      else
        var r := ParseElement(t, channels, c2, kind, c1.Peek(4), found);
        if r.Bad? then Bad(r.err)
        else
          ParseElementForward(t, channels, c2, kind, c1.Peek(4), found);
          if r.c.Left() < 3 then Bad(InvalidData)
          else ParseBlock(t, channels, r.c, r.val)
  }

  // ----- the encoder's side

  datatype Frame = FrameMono(ch: Channel) | FramePair(common: bool, ms: nat, mask: seq<bool>, ch0: Channel,
                                                      ch1: Channel)

  ghost predicate WellFormedFrame(t: Tables, f: Frame) {
    match f
    case FrameMono(ch) => WellFormed(t, ch)
    case FramePair(common, ms, mask, ch0, ch1) =>
      && WellFormed(t, ch0) && WellFormed(t, ch1) && ms < 3
      && (common ==> ch0.ics == ch1.ics && |mask| == GeoOf(t, ch0.ics).Bands())
  }

  function PrintMs(ms: nat, mask: seq<bool>): Bits {
    ToBits(2, ms) + (if ms == 1 then mask else [])
  }

  ghost function PrintElement(t: Tables, f: Frame): Bits
    requires WellFormedFrame(t, f)
  {
    match f
    case FrameMono(ch) => PrintChannel(t, ch, false)
    case FramePair(common, ms, mask, ch0, ch1) =>
      [common]
      + (if common then PrintIcs(ch0.ics) + PrintMs(ms, mask) else [])
      + PrintChannel(t, ch0, common) + PrintChannel(t, ch1, common)
  }

  function Tag(f: Frame): nat {
    if f.FrameMono? then TYPE_SCE else TYPE_CPE
  }

  /** The whole raw_data_block. */
  ghost function PrintFrame(t: Tables, f: Frame): Bits
    requires WellFormedFrame(t, f)
  {
    ToBits(3, Tag(f)) + ToBits(4, 0) + PrintElement(t, f) + ToBits(3, TYPE_END)
  }
}
