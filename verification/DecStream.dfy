/** The decoder's parser of an individual_channel_stream: the channel's arrays end
    up holding what the pure parser reads, whatever was in them before. */
module DecStream {
  import opened BitReader
  import opened Vlc
  import opened AacSyntax
  import opened AacParse
  import opened DecChannel
  import opened DecSections
  import opened DecTools
  import opened DecCoefs
  import opened DecSpectrum

  /** The number of leading coefficients later stages may look at. */
  function Seen(t: Tables, i: Ics): nat {
    if i.Short() || i.maxSfb >= |t.longEdges| then 1024 else t.longEdges[i.maxSfb]
  }

  /** The channel holds the symbols s. Entries past the transmitted bands, and
      coefficients past the last of them, are unspecified. */
  ghost predicate Shows(sce: Sce, t: Tables, s: Symbols)
    reads sce`ics, sce`bandType, sce`sf, sce`tns, sce`qcoefs
  {
    && |sce.bandType| == |sce.sf| == 128 && |sce.qcoefs| == 1024 && IcsShown(sce.ics, t, s.ics)
        && GeoOf(t, s.ics).Valid()
    && |s.bt| == |s.sfo| == GeoOf(t, s.ics).Bands() <= 120 && |s.q| == 1024
    && sce.bandType[..|s.bt|] == s.bt && sce.sf[..|s.bt|] == SfsOf(s.bt, s.sfo)
    && sce.tns == s.tns && NoReserved(s.bt)
    && Agree(sce.qcoefs, s.q, Seen(t, s.ics))
  }

  /** The pulses that were read, as the decoder keeps them. */
  ghost predicate PulsesHeld(sce: Sce, ps: seq<Pulse>)
    reads sce
  {
    if sce.pulsePresent then sce.pulses == ps && |ps| > 0 else ps == []
  }

  /** Pulses, TNS and gain control. */
  method DecodeTools(r: Reader, sce: Sce, t: Tables, ghost i: Ics) returns (err: Option<Err>)
    requires r.Valid() && t.Valid() && IcsShown(sce.ics, t, i)
    modifies r`pos, r`overread, sce`pulses, sce`pulsePresent, sce`tns
    ensures r.Valid()
    ensures var p := ParseTools(t, old(r.Cur()), i);
            && err == Failure(p)
            && (p.Good? ==> r.Cur() == p.c && PulsesHeld(sce, p.val.pulses) && sce.tns == p.val.tns)
  {
    hide Reader.Valid, Tables.Valid, ParsePulses, ParseTns, SkipGain, Cursor.Peek;
    RowsHave(t);
    sce.pulsePresent := false;
    var v := r.Read(1);
    if v != 0 {
      if sce.ics.seq0 == EIGHT_SHORT {
        return Some(InvalidData);
      }
      sce.pulsePresent := true;
      err := DecodePulses(r, sce);
      if err.Some? {
        return Some(InvalidData);
      }
    }
    sce.tns := None;
    v := r.Read(1);
    if v != 0 {
      err := DecodeTns(r, sce, t);
      if err.Some? {
        return;
      }
    }
    v := r.Read(1);
    if v != 0 {
      DecodeGainControl(r, sce);
    }
    if r.overread {
      return Some(InvalidData);
    }
    err := None;
  }

  /** The spectrum with its pulses. */
  method DecodeSpectrum(r: Reader, sce: Sce, codes: seq<Table>, ghost t: Tables, ghost i: Ics, ghost side: Side)
      returns (err: Option<Err>)
    requires r.Valid() && sce.Sized() && CodesReady(t, codes) && t.Valid() && IcsShown(sce.ics, t, i)
             && GeoOf(t, i).Valid()
    requires |side.bt| == |side.sfo| == GeoOf(t, i).Bands() <= 120 && NoReserved(side.bt)
    requires sce.bandType[..|side.bt|] == side.bt && sce.sf[..|side.bt|] == SfsOf(side.bt, side.sfo)
    requires PulsesHeld(sce, side.tools.pulses) && PulsesFit(side.tools.pulses, 1024) && Rising(side.tools.pulses)
    requires i.Short() ==> side.tools.pulses == []
    modifies r`pos, r`overread, sce`qcoefs
    ensures r.Valid() && sce.Sized()
    ensures var p := ParseCoefs(t, old(r.Cur()), i, side);
            && err == Failure(p)
            && (p.Good? ==> r.Cur() == p.c && Agree(sce.qcoefs, p.val, Seen(t, i)))
  {
    hide Reader.Valid, Reader.Cur, CodesReady, Tables.Valid, ParseSpectrum, Jobs, GoodJobs, Geo.Valid, Geo.BandsFrom,
         NoReserved, ApplyPulses, SfsOf, Rising, Agree;
    err := DecodeAllGroups(r, sce, codes, t, i, side.bt);
    if err.Some? {
      return;
    }
    ghost var q := sce.qcoefs;
    ghost var ps := side.tools.pulses;
    if sce.pulsePresent {
      LongFacts(t, i);
      AddPulses(sce);
      PulsesAgree(t, i, q, side, sce.bandType, sce.sf);
    } else {
      NothingAdded(t, i, q, side);
    }
    err := None;
  }

  /** A long window: one group, edges up to 1024. */
  lemma LongFacts(t: Tables, i: Ics)
    requires t.Valid() && GeoOf(t, i).Valid() && !i.Short()
    ensures 2 <= |t.longEdges| <= 52 && t.longEdges[|t.longEdges| - 1] == 1024 && i.maxSfb < |t.longEdges|
    ensures GoodEdges(t.longEdges, 1024, 51) && t.longEdges[0] == 0
    ensures GeoOf(t, i).Bands() == i.maxSfb && t.longEdges[i.maxSfb] <= 1024
  {
    LongGroup(GeoOf(t, i));
    OneGroupBands(GeoOf(t, i));
    EdgesUp(t.longEdges, 1024, 51, i.maxSfb, |t.longEdges| - 1);
  }

  lemma OneGroupBands(geo: Geo)
    requires |geo.groups| == 1
    ensures geo.Bands() == geo.maxSfb
  {
    assert geo.BandsFrom(1) == 0;
  }

  lemma PulsesAgree(t: Tables, i: Ics, q: seq<int>, side: Side, bt: seq<nat>, sf: seq<int>)
    requires t.Valid() && GeoOf(t, i).Valid() && !i.Short() && |q| == 1024 && |bt| == |sf| == 128
    requires |side.bt| == |side.sfo| == GeoOf(t, i).Bands() <= 120
    requires bt[..|side.bt|] == side.bt && sf[..|side.bt|] == SfsOf(side.bt, side.sfo)
    requires PulsesFit(side.tools.pulses, 1024) && Rising(side.tools.pulses)
    ensures |t.longEdges| >= 2 && t.longEdges[|t.longEdges| - 1] == 1024
    ensures var ps := side.tools.pulses;
            Agree(ApplyPulses(q, ps, 0, 0, t.longEdges, bt, sf),
                  ApplyPulses(q, ps, 0, 0, t.longEdges, side.bt, SfsOf(side.bt, side.sfo)), Seen(t, i))
  {
    hide ApplyPulses, Tables.Valid, Geo.Valid, SfsOf, GoodEdges;
    LongFacts(t, i);
    StalePulses(q, q, side.tools.pulses, 0, 0, t.longEdges, bt, sf, i.maxSfb, 1024, 51);
  }

  lemma NothingAdded(t: Tables, i: Ics, q: seq<int>, side: Side)
    requires t.Valid() && GeoOf(t, i).Valid() && |q| == 1024 && side.tools.pulses == [] && |side.bt| == |side.sfo|
    ensures Agree(q, q, Seen(t, i))
    ensures |t.longEdges| >= 2 && t.longEdges[|t.longEdges| - 1] == 1024
    ensures ApplyPulses(q, [], 0, 0, t.longEdges, side.bt, SfsOf(side.bt, side.sfo)) == q
  {
    if !i.Short() {
      LongFacts(t, i);
    }
  }

  lemma ToolsRising(t: Tables, c: Cursor, ics: Ics)
    requires t.Valid()
    ensures var p := ParseTools(t, c, ics);
            p.Good? ==> Rising(p.val.pulses)
  {
    hide Tables.Valid, ParsePulses, ParseTns, SkipGain, Cursor.Peek;
    RowsHave(t);
    PulsesRising(c.Skip(1), t.longEdges);
  }

  /** Band types, scalefactors and tools, in place. */
  method DecodeSide(r: Reader, sce: Sce, sfCodes: Table, t: Tables, ghost i: Ics, gain: int)
      returns (err: Option<Err>, ghost side: Side)
    requires r.Valid() && sce.Sized() && sfCodes.Valid() && t.Valid() && sfCodes.book == t.sf
    requires IcsShown(sce.ics, t, i) && GeoOf(t, i).Valid()
    modifies r`pos, r`overread, sce`bandType, sce`sfo, sce`sf, sce`pulses, sce`pulsePresent, sce`tns
    ensures r.Valid() && sce.Sized() && old(r.Cur()).Valid()
    ensures var p := ParseSide(t, old(r.Cur()), gain, i);
            && err == Failure(p)
            && (p.Good? ==>
                  && r.Cur() == p.c && side == p.val && |side.bt| == |side.sfo| == GeoOf(t, i).Bands() <= 120
                      && NoReserved(side.bt)
                  && sce.bandType[..|side.bt|] == side.bt && sce.sf[..|side.bt|] == SfsOf(side.bt, side.sfo)
                  && sce.tns == side.tools.tns && PulsesHeld(sce, side.tools.pulses)
                  && PulsesFit(side.tools.pulses, 1024) && Rising(side.tools.pulses)
                      && (i.Short() ==> side.tools.pulses == []))
  {
    hide Reader.Valid, Reader.Cur, Table.Valid, Tables.Valid, Geo.Valid, Geo.BandsFrom, NoReserved, SfsOf, Rising,
         PulsesFit, PulsesHeld, ParseBandTypes, ParseSfs, ParseTools, IcsShown, Geo.Bands, Cursor.Valid;
    side := Side([], [], Tools([], None));
    ghost var geo, c0 := GeoOf(t, i), r.Cur();
    ValidCursor(r);
    BandTypesSize(c0, t, i);
    BandTypesNoReserved(c0, if i.Short() then 3 else 5, i.maxSfb, |i.groups|, []);
    err := DecodeBandTypes(r, sce, t, i);
    if err.Some? {
      return;
    }
    ghost var bt := sce.bandType[..geo.Bands()];
    err := DecodeScalefactors(r, sce, sfCodes, t, i, gain);
    if err.Some? {
      return;
    }
    ghost var sfo := sce.sfo[..geo.Bands()];
    DequantScalefactors(sce, t, i);
    ghost var c := r.Cur();
    ToolsRising(t, c, i);
    ParseToolsFit(t, c, i);
    err := DecodeTools(r, sce, t, i);
    if err.Some? {
      return;
    }
    side := Side(bt, sfo, ParseTools(t, c, i).val);
  }

  lemma BandTypesSize(c: Cursor, t: Tables, i: Ics)
    requires c.Valid() && GeoOf(t, i).Valid()
    ensures GeoOf(t, i).Bands() <= 120 && NoReserved([])
    ensures var p := ParseBandTypes(c, if i.Short() then 3 else 5, i.maxSfb, |i.groups|, []);
            p.Good? ==> |p.val| == GeoOf(t, i).Bands()
  {
    ParseBandTypesLen(c, if i.Short() then 3 else 5, GeoOf(t, i), 0, []);
    BandsFit(GeoOf(t, i), 0);
  }

  /** One individual_channel_stream. With a common window the ics_info is already
      in place. */
  method DecodeIcs(r: Reader, sce: Sce, sfCodes: Table, codes: seq<Table>, t: Tables, common: bool,
                   ghost shared: Option<Ics>)
    returns (err: Option<Err>)
    requires r.Valid() && sce.Sized() && sfCodes.Valid() && sfCodes.book == t.sf && CodesReady(t, codes) && t.Valid()
    requires common == shared.Some? && (common ==> IcsShown(sce.ics, t, shared.value) && GeoOf(t, shared.value).Valid())
    modifies r`pos, r`overread, sce`ics, sce`bandType, sce`sfo, sce`sf, sce`pulses, sce`pulsePresent, sce`tns,
        sce`qcoefs
    ensures r.Valid() && sce.Sized() && old(r.Cur()).Valid()
    ensures var p := ParseChannel(t, old(r.Cur()), shared);
            && err == Failure(p)
            && (p.Good? ==> r.Cur() == p.c && Shows(sce, t, p.val))
    ensures common ==> sce.ics == old(sce.ics)
    ensures !common ==> sce.ics.seq1 == old(sce.ics.seq0) && sce.ics.kb1 == old(sce.ics.kb0)
  {
    hide Reader.Valid, Reader.Cur, Table.Valid, Tables.Valid, Geo.Valid, Geo.BandsFrom, NoReserved, SfsOf, Rising,
         PulsesFit, PulsesHeld, ParseSide, ParseCoefs, ParseIcs, IcsShown, Geo.Bands, Cursor.Valid, CodesReady, Agree;
    ValidCursor(r);
    var gain := r.Read(8);
    ghost var i: Ics;
    if common {
      i := shared.value;
    } else {
      ParseIcsGeo(t, r.Cur());
      i := IcsRead(t, r.Cur());
      err := DecodeIcsInfo(r, sce, t);
      if err.Some? {
        return;
      }
    }
    ghost var side;
    err, side := DecodeSide(r, sce, sfCodes, t, i, gain);
    if err.Some? {
      return;
    }
    err := DecodeSpectrum(r, sce, codes, t, i, side);
  }

  ghost function IcsRead(t: Tables, c: Cursor): (i: Ics)
    requires t.Valid()
    ensures ParseIcs(t, c).Good? ==> i == ParseIcs(t, c).val
  {
    if ParseIcs(t, c).Good? then ParseIcs(t, c).val else Ics(0, 0, 0, [])
  }
}
