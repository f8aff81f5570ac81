/** The decoder's channel elements: one or two channels with the data a pair
    shares, the window history a unit can be rolled back to, and the elements
    that carry no audio. */
module DecElements {
  import opened BitStrings
  import opened BitReader
  import opened Vlc
  import opened AacSyntax
  import opened AacParse
  import opened AacForward
  import opened AacFrame
  import opened DecChannel
  import opened DecSections
  import opened DecCoefs
  import opened DecStream

  /** A channel's window sequence and shape pairs. */
  datatype WindowHist = WindowHist(seq0: nat, seq1: nat, kb0: nat, kb1: nat)

  function HistOf(i: IcsInfo): WindowHist {
    WindowHist(i.seq0, i.seq1, i.kb0, i.kb1)
  }

  class Cpe {
    const ch0: Sce
    const ch1: Sce
    var msMask: seq<nat>
    var present: bool
    var commonWindow: bool
    var msPresent: nat
    var maxSfbSte: nat
    var saved0: WindowHist
    var saved1: WindowHist

    ghost predicate Valid()
      reads this`msMask, ch0, ch1
    {
      ch0 != ch1 && ch0.Sized() && ch1.Sized() && |msMask| == 128
    }

    /** What later units can see of the zero value. */
    ghost predicate IsZero()
      reads ch0, ch1
    {
      ch0.IsZero() && ch1.IsZero()
    }

    constructor ()
      ensures Valid() && IsZero() && !present && fresh(ch0) && fresh(ch1)
    {
      ch0 := new Sce();
      ch1 := new Sce();
      msMask, present, commonWindow, msPresent, maxSfbSte := seq(128, _ => 0), false, false, 0, 0;
      saved0, saved1 := WindowHist(0, 0, 0, 0), WindowHist(0, 0, 0, 0);
    }

    method Clear()
      requires Valid()
      modifies this, ch0, ch1
      ensures Valid() && IsZero() && !present
    {
      ch0.Clear();
      ch1.Clear();
      msMask, present, commonWindow, msPresent, maxSfbSte := seq(128, _ => 0), false, false, 0, 0;
      saved0, saved1 := WindowHist(0, 0, 0, 0), WindowHist(0, 0, 0, 0);
    }
  }

  lemma MaskStep(c: Cursor, left: nat, mask: seq<nat>)
    ensures left == 0 ==> ParseMask(c, left, mask) == (mask, c)
    ensures left > 0 ==> ParseMask(c, left, mask) == ParseMask(c.Skip(1), left - 1, mask + [c.Peek(1)])
  {
  }

  /** The M/S mask: read bit by bit, or all ones. */
  method DecodeMidSideStereo(r: Reader, cpe: Cpe, msPresent: nat, ghost t: Tables, ghost i: Ics)
    requires r.Valid() && cpe.Valid() && IcsShown(cpe.ch0.ics, t, i) && GeoOf(t, i).Valid()
    modifies r`pos, r`overread, cpe`msMask, cpe`maxSfbSte
    ensures r.Valid() && cpe.Valid() && cpe.maxSfbSte == i.maxSfb && GeoOf(t, i).Bands() <= 120
    ensures var n := GeoOf(t, i).Bands();
            (cpe.msMask[..n], r.Cur()) ==
            if msPresent == 1 then ParseMask(old(r.Cur()), n, []) else (AacParse.Fill(1, n), old(r.Cur()))
  {
    hide Reader.Valid, Reader.Cur, ParseMask, At, Geo.Valid, Geo.BandsFrom, GeoOf, Cursor.Peek, AacParse.Fill;
    ghost var geo := GeoOf(t, i);
    GeoIs(t, i);
    BandsFit(geo, |geo.groups|);
    NoBandsLeft(geo);
    var maxIdx := At(cpe.ch0.ics.numWindowGroups, cpe.ch0.ics.maxSfb);
    assert maxIdx == geo.Bands();
    cpe.maxSfbSte := cpe.ch0.ics.maxSfb;
    assert cpe.msMask[..0] == [];
    if msPresent == 1 {
      for idx := 0 to maxIdx
        invariant r.Valid() && cpe.Valid() && cpe.maxSfbSte == i.maxSfb
        invariant ParseMask(r.Cur(), maxIdx - idx, cpe.msMask[..idx]) == ParseMask(old(r.Cur()), maxIdx, [])
      {
        MaskStep(r.Cur(), maxIdx - idx, cpe.msMask[..idx]);
        ghost var was := cpe.msMask[..idx];
        var bit := r.Read(1);
        cpe.msMask := cpe.msMask[idx := bit];
        assert cpe.msMask[..idx + 1] == was + [bit];
      }
      MaskStep(r.Cur(), 0, cpe.msMask[..maxIdx]);
    } else {
      for idx := 0 to maxIdx
        invariant r.Valid() && cpe.Valid() && r.Cur() == old(r.Cur()) && cpe.maxSfbSte == i.maxSfb
        invariant forall k :: 0 <= k < idx ==> cpe.msMask[k] == 1
      {
        cpe.msMask := cpe.msMask[idx := 1];
      }
      AllOnes(cpe.msMask[..maxIdx]);
    }
  }

  lemma AllOnes(m: seq<nat>)
    requires forall k :: 0 <= k < |m| ==> m[k] == 1
    ensures m == AacParse.Fill(1, |m|)
  {
  }

  /** The element holds what was parsed. Without M/S the mask is whatever it
      was. */
  ghost predicate PairShown(cpe: Cpe, t: Tables, e: Element)
    requires e.Pair?
    reads cpe`msMask, cpe`msPresent, cpe`commonWindow, cpe`maxSfbSte
    reads cpe.ch0`ics, cpe.ch0`bandType, cpe.ch0`sf, cpe.ch0`tns, cpe.ch0`qcoefs
    reads cpe.ch1`ics, cpe.ch1`bandType, cpe.ch1`sf, cpe.ch1`tns, cpe.ch1`qcoefs
  {
    && Shows(cpe.ch0, t, e.s0) && Shows(cpe.ch1, t, e.s1)
    && cpe.commonWindow == e.common && MsShown(cpe, e.ms, e.mask)
    && (e.common ==> e.s0.ics == e.s1.ics)
    && (e.ms != 0 ==> e.common && |e.mask| == GeoOf(t, e.s0.ics).Bands() && cpe.maxSfbSte == e.s0.ics.maxSfb)
  }

  ghost predicate MsShown(cpe: Cpe, ms: nat, mask: seq<nat>)
    reads cpe`msMask, cpe`msPresent
  {
    cpe.msPresent == ms && |cpe.msMask| == 128 && |mask| <= 128 && (ms != 0 ==> cpe.msMask[..|mask|] == mask)
  }

  /** The window pairs after a pair element, given those before. With a common
      window the second channel takes over the first one's window history, but
      keeps its own previous shape. */
  function PairHist(common: bool, i0: IcsInfo, i1: IcsInfo, s0: Ics, s1: Ics): (WindowHist, WindowHist) {
    if common then (WindowHist(s0.seq0, i0.seq0, s0.kb, i0.kb0), WindowHist(s0.seq0, i0.seq0, s0.kb, i1.kb0))
    else (WindowHist(s0.seq0, i0.seq0, s0.kb, i0.kb0), WindowHist(s1.seq0, i1.seq0, s1.kb, i1.kb0))
  }

  /** The shared ics_info and the M/S data. */
  method DecodeCommon(r: Reader, cpe: Cpe, t: Tables) returns (err: Option<Err>, ghost i: Ics, ghost m: Ms)
    requires r.Valid() && cpe.Valid() && t.Valid() && cpe.msPresent == 0
    modifies r`pos, r`overread, cpe`msMask, cpe`maxSfbSte, cpe`msPresent, cpe.ch0`ics, cpe.ch1`ics
    ensures r.Valid() && cpe.Valid() && old(r.Cur()).Valid()
    ensures var p := ParseIcs(t, old(r.Cur()));
            if p.Bad? then err == Some(p.err)
            else
              && GeoOf(t, p.val).Valid()
              && var q := ParseMs(p.c, GeoOf(t, p.val).Bands());
              && err == Failure(q)
              && (q.Good? ==>
                    && r.Cur() == q.c && i == p.val && m == q.val && IcsShown(cpe.ch0.ics, t, i)
                        && IcsShown(cpe.ch1.ics, t, i)
                    && MsShown(cpe, m.mode, m.mask)
                        && (m.mode != 0 ==> cpe.maxSfbSte == i.maxSfb && |m.mask| == GeoOf(t, i).Bands()))
    ensures err.None? ==>
              (HistOf(cpe.ch0.ics), HistOf(cpe.ch1.ics)) == PairHist(true, old(cpe.ch0.ics), old(cpe.ch1.ics), i, i)
  {
    hide Reader.Valid, Reader.Cur, ParseMask, Geo.Valid, Geo.BandsFrom, Cursor.Peek, Cursor.Valid, AacParse.Fill,
         ParseIcs, Tables.Valid, Geo.Bands;
    i, m := Ics(0, 0, 0, []), Ms(0, []);
    ValidCursor(r);
    ParseIcsGeo(t, r.Cur());
    ghost var p := ParseIcs(t, r.Cur());
    err := DecodeIcsInfo(r, cpe.ch0, t);
    if err.Some? {
      return;
    }
    i := p.val;
    var kb := cpe.ch1.ics.kb0;
    cpe.ch1.ics := cpe.ch0.ics;
    cpe.ch1.ics := cpe.ch1.ics.(kb1 := kb);
    var ms := r.Read(2);
    if ms == 3 {
      return Some(InvalidData), i, m;
    }
    cpe.msPresent := ms;
    m := Ms(ms, []);
    if ms > 0 {
      ghost var n := GeoOf(t, i).Bands();
      ghost var c := r.Cur();
      MaskLength(c, n);
      DecodeMidSideStereo(r, cpe, ms, t, i);
      m := Ms(ms, cpe.msMask[..n]);
    }
    MsBound(p.c);
    err := None;
  }

  lemma MsBound(c: Cursor)
    ensures c.Peek(2) < 4
  {
    ValBound(Window(c.s, c.pos, 2));
    assert Pow2(2) == 4;
  }

  lemma {:induction false} MaskLengthFrom(c: Cursor, left: nat, mask: seq<nat>)
    ensures |ParseMask(c, left, mask).0| == |mask| + left
    decreases left
  {
    if left > 0 {
      MaskLengthFrom(c.Skip(1), left - 1, mask + [c.Peek(1)]);
    }
  }

  lemma MaskLength(c: Cursor, n: nat)
    ensures |ParseMask(c, n, []).0| == n
  {
    MaskLengthFrom(c, n, []);
  }

  /** The two channels of a pair. */
  method DecodeTwo(r: Reader, cpe: Cpe, sfCodes: Table, codes: seq<Table>, t: Tables, common: bool,
                   ghost shared: Option<Ics>, ghost ms: Ms)
    returns (err: Option<Err>)
    requires r.Valid() && cpe.Valid() && sfCodes.Valid() && sfCodes.book == t.sf && CodesReady(t, codes) && t.Valid()
    requires common == shared.Some?
    requires common ==>
             IcsShown(cpe.ch0.ics, t, shared.value) && IcsShown(cpe.ch1.ics, t, shared.value)
             && GeoOf(t, shared.value).Valid()
    modifies r`pos, r`overread, cpe.ch0, cpe.ch1
    ensures r.Valid() && cpe.Valid() && old(r.Cur()).Valid()
    ensures cpe.ch0.saved == old(cpe.ch0.saved) && cpe.ch1.saved == old(cpe.ch1.saved)
    ensures var p := ParseTwo(t, old(r.Cur()), shared, ms);
            && err == Failure(p)
            && (p.Good? ==> r.Cur() == p.c && Shows(cpe.ch0, t, p.val.s0) && Shows(cpe.ch1, t, p.val.s1))
    ensures if common then cpe.ch0.ics == old(cpe.ch0.ics) && cpe.ch1.ics == old(cpe.ch1.ics)
            else err.None? ==>
                   && cpe.ch0.ics.seq1 == old(cpe.ch0.ics.seq0) && cpe.ch0.ics.kb1 == old(cpe.ch0.ics.kb0)
                   && cpe.ch1.ics.seq1 == old(cpe.ch1.ics.seq0) && cpe.ch1.ics.kb1 == old(cpe.ch1.ics.kb0)
  {
    hide Reader.Valid, Reader.Cur, Table.Valid, Tables.Valid, Geo.Valid, Geo.BandsFrom, IcsShown, Geo.Bands,
         Cursor.Valid, CodesReady, ParseChannel, Shows;
    ValidCursor(r);
    err := DecodeIcs(r, cpe.ch0, sfCodes, codes, t, common, shared);
    if err.Some? {
      return;
    }
    err := DecodeIcs(r, cpe.ch1, sfCodes, codes, t, common, shared);
  }

  lemma ParseTwoIs(t: Tables, c: Cursor, shared: Option<Ics>, ms: Ms)
    requires t.Valid() && c.Valid() && (shared.Some? ==> GeoOf(t, shared.value).Valid())
    ensures var p := ParseTwo(t, c, shared, ms);
            p.Good? ==>
              && p.val == Pair(shared.Some?, ms.mode, ms.mask, p.val.s0, p.val.s1)
              && (shared.Some? ==> p.val.s0.ics == p.val.s1.ics == shared.value)
  {
    hide Tables.Valid, Geo.Valid, ParseSide, ParseCoefs, ParseIcs;
    var p0 := ParseChannel(t, c, shared);
    if p0.Good? {
      ParseChannelForward(t, c, shared);
    }
  }

  /** channel_pair_element: reads both channels, or fails somewhere on the way. */
  method DecodeCpe(r: Reader, cpe: Cpe, sfCodes: Table, codes: seq<Table>, t: Tables) returns (err: Option<Err>)
    requires r.Valid() && cpe.Valid() && sfCodes.Valid() && sfCodes.book == t.sf && CodesReady(t, codes) && t.Valid()
    modifies r`pos, r`overread, cpe`msMask, cpe`maxSfbSte, cpe`msPresent, cpe`commonWindow, cpe.ch0, cpe.ch1
    ensures r.Valid() && cpe.Valid() && old(r.Cur()).Valid()
    ensures cpe.ch0.saved == old(cpe.ch0.saved) && cpe.ch1.saved == old(cpe.ch1.saved)
    ensures var p := ParsePair(t, old(r.Cur()));
            && err == Failure(p)
            && (p.Good? ==>
                  && r.Cur() == p.c && p.val.Pair? && PairShown(cpe, t, p.val)
                  && (HistOf(cpe.ch0.ics), HistOf(cpe.ch1.ics))
                     == PairHist(p.val.common, old(cpe.ch0.ics), old(cpe.ch1.ics), p.val.s0.ics, p.val.s1.ics))
  {
    hide Reader.Valid, Reader.Cur, Table.Valid, Tables.Valid, Geo.Valid, Geo.BandsFrom, IcsShown, Geo.Bands,
         Cursor.Valid, CodesReady, ParseIcs, ParseMs, ParseTwo, Shows, Cursor.Peek;
    ValidCursor(r);
    var bit := r.Read(1);
    var common := bit != 0;
    cpe.commonWindow := common;
    cpe.msPresent := 0;
    ghost var shared: Option<Ics>, ms := None, Ms(0, []);
    if common {
      ghost var i;
      err, i, ms := DecodeCommon(r, cpe, t);
      if err.Some? {
        return;
      }
      shared := Some(i);
    }
    ValidCursor(r);
    ParseTwoIs(t, r.Cur(), shared, ms);
    ghost var e := ParseTwo(t, r.Cur(), shared, ms);
    err := DecodeTwo(r, cpe, sfCodes, codes, t, common, shared, ms);
    if err.None? {
      ShownIcs(cpe.ch0, t, e.val.s0);
      ShownIcs(cpe.ch1, t, e.val.s1);
    }
  }

  lemma ShownIcs(sce: Sce, t: Tables, s: Symbols)
    requires Shows(sce, t, s)
    ensures sce.ics.seq0 == s.ics.seq0 && sce.ics.kb0 == s.ics.kb
  {
  }
}
