/** Writing a whole raw_data_block. What the encoder flushes is the frame's bits
    padded to a byte, and the decoder's element loop reads the frame back. */
module FrameCoder {
  import opened BitStrings
  import opened BitReader
  import opened BitWriter
  import opened AacSyntax
  import opened AacParse
  import opened AacPrint
  import opened AacFrame
  import opened BandWalk
  import opened SectionCoder
  import opened ScalefactorChain
  import opened ChannelCoder
  import opened RoundTrip
  import opened LegalChannel
  import SideCoder
  import SpectrumCoder

  /** The channels of an element, before they are written. */
  datatype Block = OneChannel(g: Given, d: Decided)
                 | TwoChannels(g0: Given, d0: Decided, g1: Given, d1: Decided, common: bool, ms: nat, mask: seq<bool>)

  ghost predicate BlockReady(t: Tables, k: Block) {
    match k
    case OneChannel(g, d) => g.t == t && Ready(g, d)
    case TwoChannels(g0, d0, g1, d1, common, ms, mask) =>
      && g0.t == g1.t == t && Ready(g0, d0) && Ready(g1, d1) && ms < 3 && |mask| == 128
      && (common ==> d0.Ics() == d1.Ics())
  }

  lemma ReadyProper(g: Given, d: Decided)
    requires Ready(g, d)
    ensures Proper(g, d) && d.Laid() && InArray(d.Sent()) && |d.Sent()| == GeoOf(g.t, d.Ics()).Bands()
    ensures Prepared(g, d) && NoiseFits(d.b, d.Sent(), g.pnsLevel, d.b.sf[0])
    ensures Final(g, d).ics == d.Ics()
  {
    hide Final, NormalReady;
    ReadyLayout(g, d);
    PreparedIs(g, d);
  }

  /** The frame that is written. */
  ghost function FrameOf(t: Tables, k: Block): Frame
    requires BlockReady(t, k)
  {
    hide Final, Ready, Proper, Slots, Tiles;
    match k
    case OneChannel(g, d) => ReadyProper(g, d); FrameMono(Final(g, d))
    case TwoChannels(g0, d0, g1, d1, common, ms, mask) =>
      ReadyProper(g0, d0);
      ReadyProper(g1, d1);
      FramePair(common, ms, Pick(mask, d0.Sent()), Final(g0, d0), Final(g1, d1))
  }

  lemma PairIsWellFormed(t: Tables, k: Block)
    requires BlockReady(t, k) && k.TwoChannels? && WellFormed(t, Final(k.g0, k.d0)) && WellFormed(t, Final(k.g1, k.d1))
    ensures WellFormedFrame(t, FrameOf(t, k))
  {
    hide Final, Ready, Prepared, Proper, Slots, Tiles, WellFormed, NoiseFits;
    ReadyProper(k.g0, k.d0);
    ReadyProper(k.g1, k.d1);
  }

  /** The shared ics_info and M/S data of a pair with a common window. */
  method PutCommon(pb: Writer, sce: SingleChannelElement, common: bool, ms: nat, mask: seq<bool>)
    requires pb.Valid() && DecidedOf(sce).Laid() && |mask| == 128 && InArray(DecidedOf(sce).Sent())
    modifies pb
    ensures pb.Valid()
    ensures var d := DecidedOf(sce);
            pb.Written() == old(pb.Written()) + [common]
                + (if common then PrintIcs(d.Ics()) + PrintMs(ms, Pick(mask, d.Sent())) else [])
  {
    hide Tiles, Slots, PrintIcs, PrintMs, Writer.Written, ToBits;
    SpectrumCoder.OneBit();
    if common {
      pb.Put(1, 1);
      SideCoder.PutIcsInfo(pb, sce);
      SideCoder.EncodeMsInfo(pb, sce, ms, mask);
    } else {
      pb.Put(1, 0);
    }
  }

  /** The channels of a pair. */
  method PutPair(cd: Coder, pb: Writer, sce0: SingleChannelElement, sce1: SingleChannelElement, common: bool, ms: nat,
                 mask: seq<bool>, t: Tables, g0: Given, g1: Given)
    returns (failed: bool)
    requires pb.Valid() && |cd.path| == 121 && sce0 != sce1
    requires BlockReady(t, TwoChannels(g0, DecidedOf(sce0), g1, DecidedOf(sce1), common, ms, mask))
    modifies cd`path, pb, sce0`bandType, sce0`zeroes, sce0`sfIdx, sce1`bandType, sce1`zeroes, sce1`sfIdx
    ensures pb.Valid() && |cd.path| == 121
    ensures var f := FrameOf(t, TwoChannels(g0, old(DecidedOf(sce0)), g1, old(DecidedOf(sce1)), common, ms, mask));
            !failed && WellFormedFrame(t, f) && pb.Written() == old(pb.Written()) + PrintElement(t, f)
  {
    hide Tiles, Slots, PrintIcs, PrintMs, PrintChannel, Writer.Written, ToBits, Final, Ready, Prepared, Proper,
         WellFormed, Printable, NoiseFits, DecidedOf;
    ghost var k := TwoChannels(g0, DecidedOf(sce0), g1, DecidedOf(sce1), common, ms, mask);
    ReadyProper(g0, k.d0);
    ReadyProper(g1, k.d1);
    PutCommon(pb, sce0, common, ms, mask);
    var failed0 := EncodeIndividualChannel(cd, pb, sce0, common, g0, t, g0.costs, g0.isLevel, g0.pnsLevel);
    var failed1 := EncodeIndividualChannel(cd, pb, sce1, common, g1, t, g1.costs, g1.isLevel, g1.pnsLevel);
    failed := failed0 || failed1;
    PairIsWellFormed(t, k);
  }

  ghost function BlockOf(sce0: SingleChannelElement, sce1: SingleChannelElement, chans: nat, common: bool, ms: nat,
                         mask: seq<bool>,
                         g0: Given, g1: Given): Block
    reads sce0, sce1
  {
    if chans == 1 then OneChannel(g0, DecidedOf(sce0))
        else TwoChannels(g0, DecidedOf(sce0), g1, DecidedOf(sce1), common, ms, mask)
  }

  /** The element of the block behind its tag. */
  method PutElement(cd: Coder, pb: Writer, sce0: SingleChannelElement, sce1: SingleChannelElement, chans: nat,
                    common: bool, ms: nat, mask: seq<bool>, t: Tables, g0: Given, g1: Given)
    returns (failed: bool)
    requires pb.Valid() && |cd.path| == 121 && sce0 != sce1 && 1 <= chans <= 2
    requires BlockReady(t, BlockOf(sce0, sce1, chans, common, ms, mask, g0, g1))
    modifies cd`path, pb, sce0`bandType, sce0`zeroes, sce0`sfIdx, sce1`bandType, sce1`zeroes, sce1`sfIdx
    ensures pb.Valid() && |cd.path| == 121
    ensures var f := FrameOf(t, old(BlockOf(sce0, sce1, chans, common, ms, mask, g0, g1)));
            && !failed && (f.FrameMono? <==> chans == 1) && WellFormedFrame(t, f)
            && pb.Written() == old(pb.Written()) + PrintElement(t, f)
  {
    hide PrintChannel, Writer.Written, Final, Ready, Prepared, WellFormed, Printable, NoiseFits, DecidedOf;
    if chans == 2 {
      failed := PutPair(cd, pb, sce0, sce1, common, ms, mask, t, g0, g1);
    } else {
      ReadyProper(g0, DecidedOf(sce0));
      failed := EncodeIndividualChannel(cd, pb, sce0, false, g0, t, g0.costs, g0.isLevel, g0.pnsLevel);
    }
  }

  /** Writes the raw_data_block of one frame. Decoding the bytes gives back the
      frame's element: window data, band types, scalefactors, TNS filters, M/S
      mask and every coefficient. */
  method WriteBlock(cd: Coder, pb: Writer, sce0: SingleChannelElement, sce1: SingleChannelElement, chans: nat,
                    common: bool, ms: nat,
                    mask: seq<bool>, t: Tables, g0: Given, g1: Given) returns (out: seq<nat>, failed: bool)
    requires pb.Valid() && |cd.path| == 121 && sce0 != sce1 && 1 <= chans <= 2 && t.Valid()
    requires BlockReady(t, BlockOf(sce0, sce1, chans, common, ms, mask, g0, g1))
    modifies cd`path, pb, sce0`bandType, sce0`zeroes, sce0`sfIdx, sce1`bandType, sce1`zeroes, sce1`sfIdx
    ensures pb.Valid() && |cd.path| == 121
    ensures var f := FrameOf(t, old(BlockOf(sce0, sce1, chans, common, ms, mask, g0, g1)));
            && !failed && WellFormedFrame(t, f) && 0 <= 8 * |out| - |PrintFrame(t, f)| < 8
            && BytesBits(out) == PrintFrame(t, f) + Zeros(8 * |out| - |PrintFrame(t, f)|)
            && ParseBlock(t, chans, Cursor(BytesBits(out), 0, false), None)
               == Good(Some(ExpectedElement(t, f)), Cursor(BytesBits(out), |PrintFrame(t, f)|, false))
  {
    hide Writer.Written, WellFormedFrame, FrameOf, BlockReady, BlockOf, PrintElement, ToBits, ParseBlock,
         ExpectedElement, Zeros, Tables.Valid, PrintFrame;
    ghost var f := FrameOf(t, BlockOf(sce0, sce1, chans, common, ms, mask, g0, g1));
    pb.Reset();
    pb.Put(3, if chans == 2 then TYPE_CPE else TYPE_SCE);
    pb.Put(4, 0);
    failed := PutElement(cd, pb, sce0, sce1, chans, common, ms, mask, t, g0, g1);
    pb.Put(3, TYPE_END);
    FrameParts(t, f);
    assert pb.Written() == PrintFrame(t, f);
    out := pb.Flush();
    ReadBack(t, f, BytesBits(out), Zeros(8 * |out| - |PrintFrame(t, f)|));
  }

  lemma FrameParts(t: Tables, f: Frame)
    requires WellFormedFrame(t, f)
    ensures PrintFrame(t, f)
            == [] + ToBits(3, if f.FrameMono? then TYPE_SCE else TYPE_CPE) + ToBits(4, 0) + PrintElement(t, f)
                + ToBits(3, TYPE_END)
  {
    hide PrintElement, ToBits, WellFormedFrame;
  }

  lemma ReadBack(t: Tables, f: Frame, s: Bits, pad: Bits)
    requires WellFormedFrame(t, f) && t.Valid() && s == PrintFrame(t, f) + pad
    ensures ParseBlock(t, if f.FrameMono? then 1 else 2, Cursor(s, 0, false), None)
            == Good(Some(ExpectedElement(t, f)), Cursor(s, |PrintFrame(t, f)|, false))
  {
    hide PrintFrame, WellFormedFrame, ParseBlock, ExpectedElement, Tables.Valid;
    FrameRoundTrip(t, Cursor(s, 0, false), f);
  }
}
