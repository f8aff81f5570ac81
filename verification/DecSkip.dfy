/** What the decoder skips: data stream and fill elements around the audio
    element, and gain control data. None of it changes what a unit says. */
module DecSkip {
  import opened BitStrings
  import opened BitReader
  import opened AacSyntax
  import opened AacParse
  import opened AacFrame
  import opened DecBlock
  import opened RoundTrip
  import AdtsHeader
  import RoundTripSide

  // ----- elements without audio

  /** A data stream element under a tag, its payload aligned or not, or a fill
      element; payloads are whole bytes. */
  datatype Filler = Data(tag: nat, align: bool, payload: Bits) | Fill(payload: Bits)

  ghost predicate LegalFiller(f: Filler) {
    && |f.payload| % 8 == 0
    && match f {
         case Data(tag, _, p) => tag < 16 && |p| / 8 <= 510
         case Fill(p) =>
           && |p| / 8 <= 269
           && (|p| > 0 ==> Val(p[..4]) != EXT_SBR_DATA && Val(p[..4]) != EXT_SBR_DATA_CRC)
       }
  }

  /** The size in bytes, in one field or two. */
  function PrintCount(count: nat): Bits {
    if count < 255 then ToBits(8, count) else ToBits(8, 255) + ToBits(8, count - 255)
  }

  function Pad(pos: nat): nat {
    (8 - pos % 8) % 8
  }

  /** A data stream element's bits behind its tag, from a position on. */
  function PrintData(align: bool, payload: Bits, pos: nat): Bits {
    var head := [align] + PrintCount(|payload| / 8);
    head + ((if align then Zeros(Pad(pos + |head|)) else []) + payload)
  }

  /** The size of a fill element is its tag, from 15 bytes on with a second
      field. */
  function FillTag(payload: Bits): nat {
    if |payload| / 8 < 15 then |payload| / 8 else 15
  }

  function PrintFill(payload: Bits): Bits {
    (if |payload| / 8 < 15 then [] else ToBits(8, |payload| / 8 - 14)) + payload
  }

  function PrintFiller(f: Filler, pos: nat): Bits {
    match f
    case Data(tag, align, p) => (ToBits(3, TYPE_DSE) + ToBits(4, tag)) + PrintData(align, p, pos + 7)
    case Fill(p) => (ToBits(3, TYPE_FIL) + ToBits(4, FillTag(p))) + PrintFill(p)
  }

  lemma Sizes()
    ensures Pow2(3) == 8 && Pow2(4) == 16 && Pow2(8) == 256
  {
    AdtsHeader.SmallPowers();
  }

  lemma CountRoundTrip(c: Cursor, count: nat, rest: Bits)
    requires count <= 510 && c.Ahead(PrintCount(count) + rest)
    ensures c.Adv(|PrintCount(count)|).Ahead(rest)
    ensures c.Peek(8) == (if count < 255 then count else 255) && c.Skip(8) == c.Adv(8)
    ensures count >= 255 ==> c.Adv(8).Peek(8) == count - 255 && c.Adv(8).Skip(8) == c.Adv(16)
    ensures |PrintCount(count)| == if count < 255 then 8 else 16
  {
    hide Cursor.Ahead, Cursor.Peek, ToBits;
    Sizes();
    AheadSplit(c, PrintCount(count), rest);
    if count < 255 {
      ReadField(c, 8, count);
    } else {
      AheadSplit(c, ToBits(8, 255), ToBits(8, count - 255));
      ReadField(c, 8, 255);
      ReadField(c.Adv(8), 8, count - 255);
    }
  }

  lemma SkipAhead(c: Cursor, b: Bits)
    requires c.Ahead(b)
    ensures c.Skip(|b|) == c.Adv(|b|) && c.Left() >= |b|
  {
  }

  lemma AlignIs(c: Cursor)
    ensures Align(c) == c.Skip(Pad(c.pos))
  {
  }

  /** Written data is skipped exactly. */
  lemma DataSkipped(c: Cursor, align: bool, payload: Bits)
    requires |payload| % 8 == 0 && |payload| / 8 <= 510 && c.Ahead(PrintData(align, payload, c.pos))
    ensures SkipDse(c) == Good((), c.Adv(|PrintData(align, payload, c.pos)|))
  {
    hide Cursor.Ahead, Cursor.Peek, ToBits, Pad, Align, PrintCount, PrintData, Cursor.Left;
    var count := |payload| / 8;
    var pad := if align then Zeros(Pad(c.pos + 1 + |PrintCount(count)|)) else [];
    DataParts(align, payload, c.pos);
    AheadSplit(c, [align], PrintCount(count) + (pad + payload));
    RoundTripSide.ReadBit(c, align);
    CountRoundTrip(c.Adv(1), count, pad + payload);
    PayloadSkipped(c.Adv(1 + |PrintCount(count)|), align, pad, payload);
  }

  lemma DataParts(align: bool, payload: Bits, pos: nat)
    ensures var count := PrintCount(|payload| / 8);
            PrintData(align, payload, pos)
            == [align] + (count + ((if align then Zeros(Pad(pos + 1 + |count|)) else []) + payload))
  {
    hide ToBits, Pad, PrintCount;
  }

  lemma PayloadSkipped(c: Cursor, align: bool, pad: Bits, payload: Bits)
    requires |payload| % 8 == 0 && c.Ahead(pad + payload) && |pad| == if align then Pad(c.pos) else 0
    ensures var c4 := if align then Align(c) else c;
            && c4 == c.Adv(|pad|) && c4.Left() >= 8 * (|payload| / 8)
            && c4.Skip(8 * (|payload| / 8)) == c.Adv(|pad + payload|)
  {
    hide Cursor.Ahead, Pad, Align;
    AheadSplit(c, pad, payload);
    SkipAhead(c, pad);
    AlignIs(c);
    SkipAhead(c.Adv(|pad|), payload);
  }

  /** Written fill is skipped exactly. */
  lemma FillSkipped(c: Cursor, payload: Bits)
    requires LegalFiller(Fill(payload)) && c.Ahead(PrintFill(payload))
    ensures SkipFil(c, FillTag(payload)) == Good((), c.Adv(|PrintFill(payload)|))
  {
    hide Cursor.Ahead, ToBits;
    Sizes();
    var count := |payload| / 8;
    var size := if count < 15 then [] else ToBits(8, count - 14);
    AheadSplit(c, size, payload);
    if count >= 15 {
      ReadField(c, 8, count - 14);
    }
    var c1 := c.Adv(|size|);
    SkipAhead(c1, payload);
    if count > 0 {
      assert payload == payload[..4] + payload[4..];
      AheadSplit(c1, payload[..4], payload[4..]);
      AheadWindow(c1, payload[..4]);
    }
  }

  lemma FillerHead(c: Cursor, kind: nat, tag: nat, rest: Bits)
    requires kind < 8 && tag < 16 && c.Ahead((ToBits(3, kind) + ToBits(4, tag)) + rest)
    ensures c.Peek(3) == kind && c.Skip(3) == c.Adv(3) && c.Adv(3).Peek(4) == tag && c.Adv(3).Skip(4) == c.Adv(7)
    ensures c.Adv(7).Ahead(rest)
  {
    hide Cursor.Ahead, Cursor.Peek, ToBits;
    Sizes();
    AheadSplit(c, ToBits(3, kind) + ToBits(4, tag), rest);
    AheadSplit(c, ToBits(3, kind), ToBits(4, tag));
    ReadField(c, 3, kind);
    ReadField(c.Adv(3), 4, tag);
  }

  lemma AheadMore(c: Cursor, b: Bits)
    requires c.Ahead(b)
    ensures c.Valid() && c.Left() >= |b|
  {
  }

  /** A filler leaves the element loop where it was, behind the filler. */
  lemma FillerIgnored(t: Tables, channels: nat, c: Cursor, f: Filler, rest: Bits, found: Option<Element>)
    requires t.Valid() && 1 <= channels <= 2 && LegalFiller(f) && !c.over
    requires c.Ahead(PrintFiller(f, c.pos) + rest) && |rest| >= 3
    ensures var c' := c.Adv(|PrintFiller(f, c.pos)|);
            && c'.Ahead(rest) && c.Valid() && c'.Valid()
            && ParseBlock(t, channels, c, found) == ParseBlock(t, channels, c', found)
  {
    hide Cursor.Ahead, Cursor.Peek, ToBits, Tables.Valid, ParseBlock, ParseElement, SkipDse, SkipFil, PrintData,
         PrintFill, FillTag;
    AheadMore(c, PrintFiller(f, c.pos) + rest);
    AheadSplit(c, PrintFiller(f, c.pos), rest);
    AheadMore(c.Adv(|PrintFiller(f, c.pos)|), rest);
    var kind, tag := if f.Data? then TYPE_DSE else TYPE_FIL, if f.Data? then f.tag else FillTag(f.payload);
    var body := if f.Data? then PrintData(f.align, f.payload, c.pos + 7) else PrintFill(f.payload);
    FillTagFits(f.payload);
    FillerHead(c, kind, tag, body);
    AheadMore(c.Adv(7), body);
    ElementCases(t, channels, c.Adv(7), kind, tag, found);
    if f.Data? {
      DataSkipped(c.Adv(7), f.align, f.payload);
    } else {
      FillSkipped(c.Adv(7), f.payload);
    }
    BlockStep(t, channels, c, found);
  }

  lemma FillTagFits(payload: Bits)
    ensures FillTag(payload) < 16
  {
  }

  /** Any number of them, one after the other. */
  function PrintFillers(fs: seq<Filler>, pos: nat): Bits
    decreases |fs|
  {
    if |fs| == 0 then []
    else PrintFiller(fs[0], pos) + PrintFillers(fs[1..], pos + |PrintFiller(fs[0], pos)|)
  }

  lemma {:induction false} FillersIgnored(t: Tables, channels: nat, c: Cursor, fs: seq<Filler>, rest: Bits,
                                          found: Option<Element>)
    requires t.Valid() && 1 <= channels <= 2 && (forall i :: 0 <= i < |fs| ==> LegalFiller(fs[i])) && !c.over
    requires c.Ahead(PrintFillers(fs, c.pos) + rest) && |rest| >= 3
    ensures var c' := c.Adv(|PrintFillers(fs, c.pos)|);
            && c'.Ahead(rest) && c.Valid() && c'.Valid()
            && ParseBlock(t, channels, c, found) == ParseBlock(t, channels, c', found)
    decreases |fs|
  {
    hide Cursor.Ahead, Tables.Valid, ParseBlock, PrintFiller, LegalFiller;
    AheadMore(c, PrintFillers(fs, c.pos) + rest);
    if |fs| == 0 {
      assert [] + rest == rest;
    } else {
      var a := PrintFiller(fs[0], c.pos);
      var b := PrintFillers(fs[1..], c.pos + |a|);
      assert (a + b) + rest == a + (b + rest);
      FillerIgnored(t, channels, c, fs[0], b + rest, found);
      FillersIgnored(t, channels, c.Adv(|a|), fs[1..], rest, found);
    }
  }

  /** A frame among such elements says what it says alone, and the loop stops
      behind them. */
  lemma FrameAmongFillers(t: Tables, c: Cursor, before: seq<Filler>, f: Frame, after: seq<Filler>)
    requires WellFormedFrame(t, f) && t.Valid() && !c.over
    requires forall i :: 0 <= i < |before| ==> LegalFiller(before[i])
    requires forall i :: 0 <= i < |after| ==> LegalFiller(after[i])
    requires c.Ahead(PrintAmong(t, c.pos, before, f, after))
    ensures c.Valid()
    ensures ParseBlock(t, if f.FrameMono? then 1 else 2, c, None)
            == Good(Some(ExpectedElement(t, f)), c.Adv(|PrintAmong(t, c.pos, before, f, after)|))
  {
    hide Cursor.Ahead, Cursor.Peek, ToBits, Tables.Valid, ParseBlock, ParseElement, PrintFillers, PrintElement,
         WellFormedFrame, ExpectedElement, LegalFiller;
    var channels := if f.FrameMono? then 1 else 2;
    var a, e, end := PrintFillers(before, c.pos), ElementBits(t, f), ToBits(3, TYPE_END);
    var b := PrintFillers(after, c.pos + |a| + |e|);
    FillersIgnored(t, channels, c, before, e + (b + end), None);
    var c1 := c.Adv(|a|);
    AheadSplit(c1, e, b + end);
    FillerHead(c1, Tag(f), 0, PrintElement(t, f));
    AheadMore(c1.Adv(7), PrintElement(t, f));
    ElementRoundTrip(t, c1.Adv(7), f);
    var c2 := c1.Adv(|e|);
    AheadMore(c2, b + end);
    BlockStep(t, channels, c1, None);
    FillersIgnored(t, channels, c2, after, end, Some(ExpectedElement(t, f)));
    Sizes();
    ReadField(c2.Adv(|b|), 3, TYPE_END);
    BlockStep(t, channels, c2.Adv(|b|), Some(ExpectedElement(t, f)));
  }

  ghost function ElementBits(t: Tables, f: Frame): Bits
    requires WellFormedFrame(t, f)
  {
    (ToBits(3, Tag(f)) + ToBits(4, 0)) + PrintElement(t, f)
  }

  ghost function PrintAmong(t: Tables, pos: nat, before: seq<Filler>, f: Frame, after: seq<Filler>): Bits
    requires WellFormedFrame(t, f)
  {
    var a, e := PrintFillers(before, pos), ElementBits(t, f);
    a + (e + (PrintFillers(after, pos + |a| + |e|) + ToBits(3, TYPE_END)))
  }

  // ----- gain control

  /** The bits of one adjustment in each window a sequence has. */
  function GainWidths(sq: nat): seq<nat> {
    if sq == ONLY_LONG then [4 + 5]
    else if sq == LONG_START then [4 + 4, 4 + 2]
    else if sq == EIGHT_SHORT then seq(8, _ => 4 + 2)
    else [4 + 4, 4 + 5]
  }

  /** The adjustments of one window, each a string of the window's width. */
  ghost predicate LegalAdjusts(adjusts: seq<Bits>, width: nat) {
    |adjusts| <= 7 && forall i :: 0 <= i < |adjusts| ==> |adjusts[i]| == width
  }

  ghost predicate LegalBand(windows: seq<seq<Bits>>, widths: seq<nat>) {
    |windows| == |widths| && forall i :: 0 <= i < |windows| ==> LegalAdjusts(windows[i], widths[i])
  }

  function Joined(adjusts: seq<Bits>): Bits {
    if |adjusts| == 0 then [] else adjusts[0] + Joined(adjusts[1..])
  }

  function PrintWindows(windows: seq<seq<Bits>>): Bits {
    if |windows| == 0 then [] else ToBits(3, |windows[0]|) + (Joined(windows[0]) + PrintWindows(windows[1..]))
  }

  function PrintBands(bands: seq<seq<seq<Bits>>>): Bits {
    if |bands| == 0 then [] else PrintWindows(bands[0]) + PrintBands(bands[1..])
  }

  lemma {:induction false} AdjustsSkipped(c: Cursor, adjusts: seq<Bits>, width: nat)
    requires c.Ahead(Joined(adjusts)) && LegalAdjusts(adjusts, width)
    ensures SkipAdjusts(c, |adjusts|, width) == c.Adv(|Joined(adjusts)|)
    decreases |adjusts|
  {
    hide Cursor.Ahead;
    if |adjusts| > 0 {
      AheadSplit(c, adjusts[0], Joined(adjusts[1..]));
      SkipAhead(c, adjusts[0]);
      AdjustsSkipped(c.Adv(width), adjusts[1..], width);
    }
  }

  lemma WidthIs(sq: nat, wd: nat)
    requires wd < |GainWidths(sq)|
    ensures GainMode(sq).0 == |GainWidths(sq)|
    ensures GainWidths(sq)[wd] == if wd == 0 && GainMode(sq).1 then 4 + 4 else 4 + GainMode(sq).2
  {
  }

  /** One window's adjustments. */
  lemma WindowSkipped(c: Cursor, adjusts: seq<Bits>, width: nat, rest: Bits)
    requires LegalAdjusts(adjusts, width) && c.Ahead(ToBits(3, |adjusts|) + (Joined(adjusts) + rest))
    ensures SkipAdjusts(c.Skip(3), c.Peek(3), width) == c.Adv(3 + |Joined(adjusts)|)
    ensures c.Adv(3 + |Joined(adjusts)|).Ahead(rest)
  {
    hide Cursor.Ahead, Cursor.Peek, ToBits, SkipAdjusts, Joined;
    Sizes();
    AdtsHeader.TakeField(c, 3, |adjusts|, Joined(adjusts) + rest);
    AheadSplit(c.Adv(3), Joined(adjusts), rest);
    AdjustsSkipped(c.Adv(3), adjusts, width);
  }

  lemma {:induction false} WindowsSkipped(c: Cursor, sq: nat, windows: seq<seq<Bits>>, wd: nat)
    requires LegalBand(windows, GainWidths(sq)) && wd <= |windows| && c.Ahead(PrintWindows(windows[wd..]))
    ensures SkipWindows(c, sq, wd) == c.Adv(|PrintWindows(windows[wd..])|)
    decreases |windows| - wd
  {
    hide Cursor.Ahead, Cursor.Peek, ToBits, GainMode, GainWidths, LegalAdjusts, SkipAdjusts, Joined;
    SomeWindows(sq);
    WidthIs(sq, 0);
    if wd < |windows| {
      var adjusts, rest := windows[wd], windows[wd + 1..];
      assert windows[wd..][0] == adjusts && windows[wd..][1..] == rest;
      WidthIs(sq, wd);
      WindowSkipped(c, adjusts, GainWidths(sq)[wd], PrintWindows(rest));
      WindowsSkipped(c.Adv(3 + |Joined(adjusts)|), sq, windows, wd + 1);
    }
  }

  lemma SomeWindows(sq: nat)
    ensures |GainWidths(sq)| > 0
  {
  }

  lemma {:induction false} BandsSkipped(c: Cursor, sq: nat, bands: seq<seq<seq<Bits>>>)
    requires (forall i :: 0 <= i < |bands| ==> LegalBand(bands[i], GainWidths(sq))) && c.Ahead(PrintBands(bands))
    ensures SkipGainBands(c, sq, |bands|) == c.Adv(|PrintBands(bands)|)
    decreases |bands|
  {
    hide Cursor.Ahead, SkipWindows, PrintWindows, LegalBand, GainWidths;
    if |bands| > 0 {
      AheadSplit(c, PrintWindows(bands[0]), PrintBands(bands[1..]));
      assert bands[0][0..] == bands[0];
      WindowsSkipped(c, sq, bands[0], 0);
      BandsSkipped(c.Adv(|PrintWindows(bands[0])|), sq, bands[1..]);
    }
  }

  /** Written gain control data is skipped exactly, whatever it says. */
  lemma GainSkipped(c: Cursor, sq: nat, bands: seq<seq<seq<Bits>>>)
    requires |bands| <= 3 && forall i :: 0 <= i < |bands| ==> LegalBand(bands[i], GainWidths(sq))
    requires c.Ahead(ToBits(2, |bands|) + PrintBands(bands))
    ensures SkipGain(c, sq) == c.Adv(|ToBits(2, |bands|) + PrintBands(bands)|)
  {
    hide Cursor.Ahead, Cursor.Peek, ToBits, SkipGainBands, LegalBand, GainWidths;
    AdtsHeader.SmallPowers();
    AdtsHeader.TakeField(c, 2, |bands|, PrintBands(bands));
    BandsSkipped(c.Adv(2), sq, bands);
  }
}
