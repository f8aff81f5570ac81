/** The decoder's raw_data_block loop: which elements are read, skipped or refused,
    and what the allocated element holds at the end. */
module DecBlock {
  import opened BitStrings
  import opened BitReader
  import opened Vlc
  import opened AacSyntax
  import opened AacParse
  import opened AacFrame
  import opened DecChannel
  import opened DecSections
  import opened DecCoefs
  import opened DecStream
  import opened DecElements

  lemma LeftIs(r: Reader)
    requires r.Valid()
    ensures r.size - r.pos == r.Cur().Left() && r.pos == r.Cur().pos
  {
  }

  method SkipDataStreamElement(r: Reader) returns (err: Option<Err>)
    requires r.Valid()
    modifies r`pos, r`overread
    ensures r.Valid()
    ensures var p := SkipDse(old(r.Cur()));
            err == Failure(p) && (p.Good? ==> r.Cur() == p.c)
  {
    hide Cursor.Peek, Cursor.Skip, Cursor.Left, Reader.Cur, Reader.Valid;
    var byteAlign := r.Read(1);
    var count := r.Read(8);
    if count == 255 {
      var more := r.Read(8);
      count := count + more;
    }
    LeftIs(r);
    if byteAlign != 0 {
      r.Align();
    }
    LeftIs(r);
    if r.size - r.pos < 8 * count {
      return Some(InvalidData);
    }
    r.Skip(8 * count);
    err := None;
  }

  method SkipFillElement(r: Reader, id: nat) returns (err: Option<Err>)
    requires r.Valid()
    modifies r`pos, r`overread
    ensures r.Valid()
    ensures var p := SkipFil(old(r.Cur()), id);
            err == Failure(p) && (p.Good? ==> r.Cur() == p.c)
  {
    hide Cursor.Peek, Cursor.Skip, Cursor.Left, Reader.Cur, Reader.Valid;
    var cnt: int := id;
    if cnt == 15 {
      var more := r.Read(8);
      cnt := cnt + more - 1;
    }
    LeftIs(r);
    if r.size - r.pos < 8 * cnt {
      return Some(InvalidData);
    }
    if cnt > 0 {
      var kind := r.Peek(4);
      if kind == EXT_SBR_DATA || kind == EXT_SBR_DATA_CRC {
        return Some(UnsupportedSBR);
      }
    }
    r.Skip(8 * cnt);
    err := None;
  }

  /** One decoded element of a unit. */
  datatype ElemRef = ElemRef(kind: nat, id: nat, che: Cpe)

  /** The channel state before the unit. */
  datatype Before = Before(i0: IcsInfo, i1: IcsInfo, saved0: seq<int>, saved1: seq<int>)

  ghost function BeforeOf(che: Cpe): Before
    reads che.ch0, che.ch1
  {
    Before(che.ch0.ics, che.ch1.ics, che.ch0.saved, che.ch1.saved)
  }

  /** The overlap memory is as before, and so is the window history until the
      element has been read; then the element is present and its history has
      moved on by one unit. */
  ghost predicate Holds(che: Cpe, t: Tables, channels: nat, found: Option<Element>, b: Before)
    reads che, che.ch0, che.ch1
  {
    && che.Valid() && che.ch0.saved == b.saved0 && che.ch1.saved == b.saved1
    && match found
       case None => che.ch0.ics == b.i0 && che.ch1.ics == b.i1 && !che.present
       case Some(e) => che.present && (e.Mono? <==> channels == 1) && ElementShown(che, t, e, b)
  }

  ghost predicate ElementShown(che: Cpe, t: Tables, e: Element, b: Before)
    reads che`msMask, che`msPresent, che`commonWindow, che`maxSfbSte
    reads che.ch0`ics, che.ch0`bandType, che.ch0`sf, che.ch0`tns, che.ch0`qcoefs
    reads che.ch1`ics, che.ch1`bandType, che.ch1`sf, che.ch1`tns, che.ch1`qcoefs
  {
    match e
    case Mono(s) => Shows(che.ch0, t, s) && HistOf(che.ch0.ics) == WindowHist(s.ics.seq0, b.i0.seq0, s.ics.kb, b.i0.kb0)
    case Pair(common, _, _, s0, s1) =>
      PairShown(che, t, e) && (HistOf(che.ch0.ics), HistOf(che.ch1.ics)) == PairHist(common, b.i0, b.i1, s0.ics, s1.ics)
  }

  /** One audio element, into the allocated che. */
  method DecodeAudio(r: Reader, che: Cpe, kind: nat, t: Tables, sfCodes: Table, codes: seq<Table>, ghost b: Before)
    returns (err: Option<Err>, ghost e: Element)
    requires r.Valid() && t.Valid() && sfCodes.Valid() && sfCodes.book == t.sf && CodesReady(t, codes)
    requires (kind == TYPE_SCE || kind == TYPE_CPE) && Holds(che, t, if kind == TYPE_SCE then 1 else 2, None, b)
    modifies r`pos, r`overread, che, che.ch0, che.ch1
    ensures r.Valid() && che.Valid() && che.ch0.saved == b.saved0 && che.ch1.saved == b.saved1 && old(r.Cur()).Valid()
    ensures che.saved0 == old(che.saved0) && che.saved1 == old(che.saved1)
    ensures var p := ParseElement(t, if kind == TYPE_SCE then 1 else 2, old(r.Cur()), kind, 0, None);
            && err == Failure(p)
            && (p.Good? ==>
                p.val == Some(e) && r.Cur() == p.c && Holds(che, t, if kind == TYPE_SCE then 1 else 2, Some(e), b))
  {
    hide Reader.Valid, Reader.Cur, Table.Valid, Tables.Valid, CodesReady, ParseChannel, ParsePair, Shows, PairShown,
         Cursor.Valid;
    ghost var c := r.Cur();
    ValidCursor(r);
    e := Mono(Symbols(Ics(0, 0, 0, []), [], [], None, []));
    if kind == TYPE_SCE {
      err := DecodeIcs(r, che.ch0, sfCodes, codes, t, false, None);
      if err.None? {
        e := Mono(ParseChannel(t, c, None).val);
        ShownIcs(che.ch0, t, e.s);
      }
    } else {
      err := DecodeCpe(r, che, sfCodes, codes, t);
      if err.None? {
        e := ParsePair(t, c).val;
      }
    }
    if err.None? {
      che.present := true;
    }
  }

  lemma BlockStep(t: Tables, channels: nat, c: Cursor, found: Option<Element>)
    requires t.Valid() && c.Valid()
    ensures c.Peek(3) < 8 && c.Skip(3).Peek(4) < 16
    ensures c.Peek(3) == TYPE_END ==>
            ParseBlock(t, channels, c, found) == if c.Skip(3).over then Bad(InvalidData) else Good(found, c.Skip(3))
    ensures c.Peek(3) != TYPE_END ==>
              var c2 := c.Skip(3).Skip(4);
              if c2.over then ParseBlock(t, channels, c, found) == Bad(InvalidData)
              else
                var p := ParseElement(t, channels, c2, c.Peek(3), c.Skip(3).Peek(4), found);
                if p.Bad? then ParseBlock(t, channels, c, found) == Bad(p.err)
                else
                  && p.c.Valid() && |p.c.s| - p.c.pos <= |c.s| - c.pos - 7
                  && ParseBlock(t, channels, c, found) == if p.c.Left() < 3 then Bad(InvalidData)
                      else ParseBlock(t, channels, p.c, p.val)
  {
    hide Tables.Valid, ParseElement, Pow2;
    ValBound(Window(c.s, c.pos, 3));
    ValBound(Window(c.s, c.Skip(3).pos, 4));
    SmallFields();
    var c2 := c.Skip(3).Skip(4);
    ParseElementForward(t, channels, c2, c.Peek(3), c.Skip(3).Peek(4), found);
  }

  lemma SmallFields()
    ensures Pow2(3) == 8 && Pow2(4) == 16
  {
  }

  /** The channel element under a type and tag. Only one is ever allocated: the
      single channel element 0 or the pair element 0. */
  function SlotAt(sceSlot: Cpe?, cpeSlot: Cpe?, kind: nat, id: nat): Cpe? {
    if id != 0 then null else if kind == TYPE_SCE then sceSlot else if kind == TYPE_CPE then cpeSlot else null
  }

  /** The element types the parser refuses or skips, and those that must find an
      allocated element they have not met before. */
  lemma ElementCases(t: Tables, channels: nat, c: Cursor, kind: nat, id: nat, found: Option<Element>)
    requires t.Valid() && c.Valid() && kind < TYPE_END && 1 <= channels <= 2
    ensures (kind == TYPE_CCE || kind == TYPE_PCE) ==> ParseElement(t, channels, c, kind, id, found) == Bad(Unsupported)
    ensures kind == TYPE_DSE ==>
              ParseElement(t, channels, c, kind, id, found)
                  == (var p := SkipDse(c); if p.Bad? then Bad(p.err) else Good(found, p.c))
    ensures kind == TYPE_FIL ==>
              ParseElement(t, channels, c, kind, id, found)
                  == (var p := SkipFil(c, id); if p.Bad? then Bad(p.err) else Good(found, p.c))
    ensures (kind == TYPE_SCE || kind == TYPE_CPE || kind == TYPE_LFE)
            && (id != 0 || kind != channels - 1 || found.Some?) ==>
              ParseElement(t, channels, c, kind, id, found) == Bad(InvalidData)
  {
    hide Tables.Valid, ParseChannel, ParsePair, SkipDse, SkipFil;
  }

  /** One element of the loop. */
  method DecodeElement(r: Reader, kind: nat, id: nat, sceSlot: Cpe?, cpeSlot: Cpe?, seen: seq<nat>, elems: seq<ElemRef>,
                       channels: nat, t: Tables, sfCodes: Table, codes: seq<Table>, ghost che: Cpe,
                       ghost found: Option<Element>, ghost b: Before)
    returns (err: Option<Err>, seen': seq<nat>, elems': seq<ElemRef>, ghost found': Option<Element>)
    requires r.Valid() && t.Valid() && sfCodes.Valid() && sfCodes.book == t.sf && CodesReady(t, codes)
    requires 1 <= channels <= 2 && sceSlot == (if channels == 1 then che else null)
             && cpeSlot == (if channels == 2 then che else null)
    requires kind < TYPE_END && id < 16 && Holds(che, t, channels, found, b)
    requires |seen| == 64 && (seen[16 * (channels - 1)] > 0 <==> found.Some?)
    requires elems == if found.None? then [] else [ElemRef(channels - 1, 0, che)]
    modifies r`pos, r`overread, che, che.ch0, che.ch1
    ensures r.Valid() && che.Valid() && che.ch0.saved == b.saved0 && che.ch1.saved == b.saved1 && old(r.Cur()).Valid()
    ensures che.saved0 == old(che.saved0) && che.saved1 == old(che.saved1)
    ensures var p := ParseElement(t, channels, old(r.Cur()), kind, id, found);
            && err == Failure(p)
            && (p.Good? ==>
                  && p.val == found' && r.Cur() == p.c && Holds(che, t, channels, found', b)
                  && |seen'| == 64 && (seen'[16 * (channels - 1)] > 0 <==> found'.Some?)
                  && elems' == if found'.None? then [] else [ElemRef(channels - 1, 0, che)])
  {
    hide Reader.Valid, Reader.Cur, Table.Valid, Tables.Valid, CodesReady, ParseElement, Cursor.Valid, SkipDse, SkipFil,
         Holds;
    ValidCursor(r);
    HoldsSaved(che, t, channels, found, b);
    ElementCases(t, channels, r.Cur(), kind, id, found);
    seen', elems', found' := seen, elems, found;
    var slot: Cpe? := null;
    if kind < TYPE_DSE && kind != TYPE_CCE {
      if seen[16 * kind + id] > 0 {
        return Some(InvalidData), seen', elems', found';
      }
      seen' := seen[16 * kind + id := seen[16 * kind + id] + 1];
      slot := SlotAt(sceSlot, cpeSlot, kind, id);
      if slot == null {
        return Some(InvalidData), seen', elems', found';
      }
    }
    if kind == TYPE_SCE || kind == TYPE_LFE || kind == TYPE_CPE {
      ghost var e;
      err, e := DecodeAudio(r, slot, kind, t, sfCodes, codes, b);
      if err.None? {
        elems' := elems + [ElemRef(kind, id, slot)];
        found' := Some(e);
      }
    } else if kind == TYPE_DSE {
      err := SkipDataStreamElement(r);
    } else if kind == TYPE_FIL {
      err := SkipFillElement(r, id);
    } else {
      err := Some(Unsupported);
    }
  }

  lemma HoldsSaved(che: Cpe, t: Tables, channels: nat, found: Option<Element>, b: Before)
    requires Holds(che, t, channels, found, b)
    ensures che.Valid() && che.ch0.saved == b.saved0 && che.ch1.saved == b.saved1
  {
  }

  lemma HoldsAtStart(che: Cpe, t: Tables, channels: nat)
    requires che.Valid() && !che.present
    ensures Holds(che, t, channels, None, BeforeOf(che))
  {
  }

  /** The element loop of one unit. Before it starts, stale presence is cleared and
      the window history is remembered. */
  method DecodeFrameGa(r: Reader, sceSlot: Cpe?, cpeSlot: Cpe?, channels: nat, t: Tables, sfCodes: Table,
                       codes: seq<Table>, ghost che: Cpe)
    returns (err: Option<Err>, elems: seq<ElemRef>)
    requires r.Valid() && t.Valid() && sfCodes.Valid() && sfCodes.book == t.sf && CodesReady(t, codes) && che.Valid()
    requires 1 <= channels <= 2 && sceSlot == (if channels == 1 then che else null)
             && cpeSlot == (if channels == 2 then che else null)
    modifies r`pos, r`overread, che, che.ch0, che.ch1
    ensures r.Valid() && che.Valid() && old(r.Cur()).Valid()
    ensures che.ch0.saved == old(che.ch0.saved) && che.ch1.saved == old(che.ch1.saved)
    ensures che.saved0 == old(HistOf(che.ch0.ics)) && che.saved1 == old(HistOf(che.ch1.ics))
    ensures var p := ParseBlock(t, channels, old(r.Cur()), None);
            && err == Failure(p)
            && (p.Good? ==> Holds(che, t, channels, p.val, old(BeforeOf(che)))
                            && elems == if p.val.None? then [] else [ElemRef(channels - 1, 0, che)])
  {
    hide Reader.Valid, Reader.Cur, Table.Valid, Tables.Valid, CodesReady, ParseElement, ParseBlock, Cursor.Valid, Holds,
         Cursor.Peek;
    elems := [];
    CaptureHistory(sceSlot, cpeSlot, che);
    ghost var b := BeforeOf(che);
    HoldsAtStart(che, t, channels);
    ValidCursor(r);
    var seen := seq(64, _ => 0);
    ghost var found: Option<Element> := None;
    ghost var want := ParseBlock(t, channels, r.Cur(), None);
    while true
      invariant r.Valid() && r.Cur().Valid() && Holds(che, t, channels, found, b) && CodesReady(t, codes)
                && sfCodes.Valid()
      invariant |seen| == 64 && (seen[16 * (channels - 1)] > 0 <==> found.Some?)
      invariant elems == if found.None? then [] else [ElemRef(channels - 1, 0, che)]
      invariant che.saved0 == old(HistOf(che.ch0.ics)) && che.saved1 == old(HistOf(che.ch1.ics))
      invariant ParseBlock(t, channels, r.Cur(), found) == want
      decreases |r.Cur().s| - r.Cur().pos
    {
      HoldsSaved(che, t, channels, found, b);
      BlockStep(t, channels, r.Cur(), found);
      var kind := r.Read(3);
      if kind == TYPE_END {
        break;
      }
      var id := r.Read(4);
      OverIs(r);
      if r.overread {
        return Some(InvalidData), elems;
      }
      err, seen, elems, found := DecodeElement(r, kind, id, sceSlot, cpeSlot, seen, elems, channels, t, sfCodes, codes,
                                               che, found, b);
      if err.Some? {
        return;
      }
      LeftIs(r);
      if r.size - r.pos < 3 {
        HoldsSaved(che, t, channels, found, b);
        return Some(InvalidData), elems;
      }
    }
    HoldsSaved(che, t, channels, found, b);
    OverIs(r);
    err := if r.overread then Some(InvalidData) else None;
  }

  lemma OverIs(r: Reader)
    ensures r.overread == r.Cur().over
  {
  }

  /** Clears the presence of every allocated element and saves its window
      history. */
  method CaptureHistory(sceSlot: Cpe?, cpeSlot: Cpe?, ghost che: Cpe)
    requires (sceSlot == che && cpeSlot == null) || (sceSlot == null && cpeSlot == che)
    modifies che`present, che`saved0, che`saved1
    ensures !che.present && che.saved0 == HistOf(che.ch0.ics) && che.saved1 == HistOf(che.ch1.ics)
  {
    if sceSlot != null {
      CaptureSlot(sceSlot);
    }
    if cpeSlot != null {
      CaptureSlot(cpeSlot);
    }
  }

  method CaptureSlot(che: Cpe)
    modifies che`present, che`saved0, che`saved1
    ensures !che.present && che.saved0 == HistOf(che.ch0.ics) && che.saved1 == HistOf(che.ch1.ics)
  {
    che.present := false;
    che.saved0, che.saved1 := HistOf(che.ch0.ics), HistOf(che.ch1.ics);
  }
}
