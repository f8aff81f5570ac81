/** Sectioning all window groups of a channel: the section data written, and what
    the band arrays hold afterwards. */
module BandInfoCoder {
  import opened BitStrings
  import opened BitWriter
  import opened AacPrint
  import opened BandWalk
  import opened SectionTrellis
  import opened SectionCoder
  import opened ScalefactorChain
  import opened SpecialBands
  import opened LegalChannel

  /** The inputs of the sectioning search, group by group: costs gives the exact
      bits of each band in each codebook for the group at a window. */
  datatype Arrays = Arrays(short: bool, z: seq<bool>, bt: seq<nat>, sizes: seq<nat>, maxSfb: nat, gl: seq<nat>, n: nat,
                           costs: nat -> seq<seq<nat>>)
  {
    ghost predicate Laid() {
      && |z| == |bt| == 128 && |gl| == 8 && (n == 1 || n == 8) && Tiles(gl, 0, n)
      && maxSfb <= (if n == 1 then 51 else 15) && maxSfb <= |sizes| && (short <==> n != 1)
    }

    ghost function GroupAt(w: nat): Group
      requires Laid() && w < n
    {
      GroupOf(short, z, bt, sizes, maxSfb, w, gl[w], costs(w))
    }

    /** Every group is a proper input of the search. */
    ghost predicate GroupsValid(w: nat)
      requires Laid() && Tiles(gl, w, n)
      decreases n - w
    {
      w < n ==> GroupAt(w).Valid() && GroupsValid(w + gl[w])
    }

    /** The sections the search chooses, from the group at w on. */
    ghost function SectionsFrom(w: nat): seq<seq<Section>>
      requires Laid() && Tiles(gl, w, n) && GroupsValid(w)
      decreases n - w
    {
      if w >= n then [] else [Out(Chosen(GroupAt(w)))] + SectionsFrom(w + gl[w])
    }
  }

  /** What the sectioning leaves in the slots of the group at w: the chosen band
      types, and the zero flags they imply. */
  ghost predicate RowDone(a: Arrays, w: nat, bt: seq<nat>, z: seq<bool>)
    requires a.Laid() && w < a.n && Tiles(a.gl, w, a.n) && a.GroupsValid(w) && |bt| == |z| == 128
  {
    var e := Expand(Out(Chosen(a.GroupAt(w))));
    && |e| == a.maxSfb && w * 16 + a.maxSfb <= 128
    && bt[w * 16..w * 16 + a.maxSfb] == e && z[w * 16..w * 16 + a.maxSfb] == IsZero(e)
  }

  /** Everything the sectioning leaves behind for the slots from window w on. */
  ghost predicate Rewritten(a: Arrays, w: nat, bt: seq<nat>, z: seq<bool>)
    requires a.Laid() && Tiles(a.gl, w, a.n) && a.GroupsValid(w) && |bt| == |z| == 128
    decreases a.n - w
  {
    w < a.n ==> RowDone(a, w, bt, z) && Rewritten(a, w + a.gl[w], bt, z)
  }

  /** The sections fit the transmitted bands. */
  lemma {:induction false} SectionsFitFrom(a: Arrays, w: nat)
    requires a.Laid() && Tiles(a.gl, w, a.n) && a.GroupsValid(w)
    ensures SectionsFit(a.SectionsFrom(w), |Groups(a.gl, w, a.n)|, a.maxSfb)
    decreases a.n - w
  {
    hide Group.Valid, Chosen, Tiles, Expand, GoodSection;
    TilesFacts(a.gl, w, a.n);
    FromStep(a, w);
    if w < a.n {
      SectionsFitFrom(a, w + a.gl[w]);
      var s := Out(Chosen(a.GroupAt(w)));
      ChosenFits(a.GroupAt(w));
      var all, rest := a.SectionsFrom(w), a.SectionsFrom(w + a.gl[w]);
      forall g | 0 <= g < |all| ensures |Expand(all[g])| == a.maxSfb && forall i :: 0 <= i < |all[g]| ==>
          GoodSection(all[g][i]) {
        if g > 0 {
          assert all[g] == rest[g - 1];
        }
      }
    }
  }

  lemma FromStep(a: Arrays, w: nat)
    requires a.Laid() && Tiles(a.gl, w, a.n) && a.GroupsValid(w)
    ensures w >= a.n ==> a.SectionsFrom(w) == [] && Groups(a.gl, w, a.n) == []
    ensures w < a.n ==>
              && a.GroupAt(w).Valid() && a.GroupAt(w).Len() == a.maxSfb
              && Tiles(a.gl, w + a.gl[w], a.n) && a.GroupsValid(w + a.gl[w])
              && a.SectionsFrom(w) == [Out(Chosen(a.GroupAt(w)))] + a.SectionsFrom(w + a.gl[w])
              && Groups(a.gl, w, a.n) == [a.gl[w]] + Groups(a.gl, w + a.gl[w], a.n)
  {
    hide Group.Valid, Chosen;
  }

  lemma ChosenFits(g: Group)
    requires g.Valid()
    ensures |Expand(Out(Chosen(g)))| == g.Len()
    ensures forall i :: 0 <= i < |Out(Chosen(g))| ==> GoodSection(Out(Chosen(g))[i])
    ensures forall b: nat :: b < g.Len() ==>
              var e := Expand(Out(Chosen(g)));
              g.Allowed(b, CbIn(e[b])) && e[b] == CbOut(CbIn(e[b]))
  {
    hide Group.Valid, Chosen, Expand;
    ChosenTotal(g);
    ExpandAllowed(g, Chosen(g));
  }

  /** After the sectioning the slots hold, in order, what the sections expand to. */
  lemma {:induction false} RewrittenPick(a: Arrays, w: nat, bt: seq<nat>, z: seq<bool>)
    requires a.Laid() && Tiles(a.gl, w, a.n) && a.GroupsValid(w) && |bt| == |z| == 128 && Rewritten(a, w, bt, z)
    ensures InArray(Slots(a.gl, w, a.n, a.maxSfb))
    ensures Pick(bt, Slots(a.gl, w, a.n, a.maxSfb)) == ExpandAll(a.SectionsFrom(w))
    decreases a.n - w
  {
    hide Group.Valid, Chosen, Expand, ExpandAll, RowSlots, RowDone, Groups, Pick;
    if w < a.n {
      RewrittenPick(a, w + a.gl[w], bt, z);
      RowPick(a, w, bt, z);
      PickAppend(bt, RowSlots(w, 0, a.maxSfb), Slots(a.gl, w + a.gl[w], a.n, a.maxSfb));
      ExpandAllHead(Out(Chosen(a.GroupAt(w))), a.SectionsFrom(w + a.gl[w]));
    } else {
      NothingToPick(bt);
    }
  }

  lemma NothingToPick(bt: seq<nat>)
    ensures InArray([]) && Pick(bt, []) == ExpandAll([])
  {
  }

  lemma RowPick(a: Arrays, w: nat, bt: seq<nat>, z: seq<bool>)
    requires a.Laid() && w < a.n && Tiles(a.gl, w, a.n) && a.GroupsValid(w) && |bt| == |z| == 128
             && RowDone(a, w, bt, z)
    ensures InArray(RowSlots(w, 0, a.maxSfb))
    ensures Pick(bt, RowSlots(w, 0, a.maxSfb)) == Expand(Out(Chosen(a.GroupAt(w))))
  {
    hide Group.Valid, Chosen, Expand, RowSlots, Arrays.GroupsValid, Tiles;
    RowSlotsAt(w, 0, a.maxSfb);
    PickRow(bt, w * 16, RowSlots(w, 0, a.maxSfb));
  }

  lemma PickRow<T>(a: seq<T>, at: nat, row: seq<nat>)
    requires |a| == 128 && at + |row| <= 128 && forall i :: 0 <= i < |row| ==> row[i] == at + i
    ensures InArray(row) && Pick(a, row) == a[at..at + |row|]
  {
  }

  lemma ExpandAllHead(s: seq<Section>, more: seq<seq<Section>>)
    ensures ExpandAll([s] + more) == Expand(s) + ExpandAll(more)
  {
    assert ([s] + more)[1..] == more;
  }

  lemma PickAppend<T>(a: seq<T>, x: seq<nat>, y: seq<nat>)
    requires |a| == 128 && InArray(x) && InArray(y)
    ensures InArray(x + y) && Pick(a, x + y) == Pick(a, x) + Pick(a, y)
  {
    forall i | 0 <= i < |x + y| ensures (x + y)[i] < 128 {
    }
  }

  /** Each band keeps its kind. */
  lemma {:induction false} RewrittenKinds(a: Arrays, w: nat, b: Bands, r: Bands)
    requires a.Laid() && Tiles(a.gl, w, a.n) && a.GroupsValid(w) && b.Sized() && r.Sized()
    requires a.z == b.z && a.bt == b.bt && r.sf == b.sf && Rewritten(a, w, r.bt, r.z)
    ensures InArray(Slots(a.gl, w, a.n, a.maxSfb))
    ensures forall i: nat :: i < |Slots(a.gl, w, a.n, a.maxSfb)| ==> Sectioned(b, r, Slots(a.gl, w, a.n, a.maxSfb)[i])
    decreases a.n - w
  {
    hide Group.Valid, Chosen, Expand, RowSlots, Sectioned, Group.Allowed;
    if w < a.n {
      RewrittenKinds(a, w + a.gl[w], b, r);
      RowSlotsAt(w, 0, a.maxSfb);
      var row, rest := RowSlots(w, 0, a.maxSfb), Slots(a.gl, w + a.gl[w], a.n, a.maxSfb);
      var g := a.GroupAt(w);
      ChosenFits(g);
      var slots := Slots(a.gl, w, a.n, a.maxSfb);
      forall i: nat | i < |slots| ensures slots[i] < 128 && Sectioned(b, r, slots[i]) {
        if i < a.maxSfb {
          assert slots[i] == w * 16 + i;
          OneSectioned(a, w, i, b, r);
        } else {
          assert slots[i] == rest[i - a.maxSfb];
        }
      }
    }
  }

  lemma OneSectioned(a: Arrays, w: nat, i: nat, b: Bands, r: Bands)
    requires a.Laid() && Tiles(a.gl, w, a.n) && a.GroupsValid(w) && b.Sized() && r.Sized() && w < a.n && i < a.maxSfb
    requires a.z == b.z && a.bt == b.bt && r.sf == b.sf && Rewritten(a, w, r.bt, r.z)
    ensures w * 16 + i < 128 && Sectioned(b, r, w * 16 + i)
  {
    hide Chosen, Expand, Group.Valid;
    var g := a.GroupAt(w);
    var e := Expand(Out(Chosen(g)));
    ChosenFits(g);
    assert g.zero[i] == b.z[w * 16 + i] && g.bt[i] == b.bt[w * 16 + i];
    assert r.bt[w * 16 + i] == r.bt[w * 16..w * 16 + a.maxSfb][i] == e[i];
    assert r.z[w * 16 + i] == r.z[w * 16..w * 16 + a.maxSfb][i] == IsZero(e)[i];
    assert g.Allowed(i, CbIn(e[i])) && e[i] == CbOut(CbIn(e[i]));
    AllowedKeepsKind(g, i, e[i]);
  }

  // ----- the loop

  ghost function ArraysOf(sce: SingleChannelElement, costs: nat -> seq<seq<nat>>): Arrays
    reads sce
  {
    Arrays(sce.numWindows != 1, sce.zeroes, sce.bandType, sce.swbSizes, sce.maxSfb, sce.groupLen, sce.numWindows, costs)
  }

  /** The slots of the windows before w are done, those from w on untouched. */
  ghost predicate Halfway(a: Arrays, w: nat, bt: seq<nat>, z: seq<bool>)
    requires a.Laid()
  {
    && |bt| == |z| == 128
    && (w < a.n ==> bt[w * 16..] == a.bt[w * 16..] && z[w * 16..] == a.z[w * 16..])
  }

  /** The untouched part gives the group at w its original input. */
  lemma SameGroup(a: Arrays, w: nat, bt: seq<nat>, z: seq<bool>)
    requires a.Laid() && w < a.n && Tiles(a.gl, w, a.n) && Halfway(a, w, bt, z)
    ensures w * 16 + a.maxSfb <= 128
    ensures GroupOf(a.short, z, bt, a.sizes, a.maxSfb, w, a.gl[w], a.costs(w)) == a.GroupAt(w)
  {
    var m := w * 16;
    assert z[m..m + a.maxSfb] == z[m..][..a.maxSfb] == a.z[m..][..a.maxSfb] == a.z[m..m + a.maxSfb];
    assert bt[m..m + a.maxSfb] == bt[m..][..a.maxSfb] == a.bt[m..][..a.maxSfb] == a.bt[m..m + a.maxSfb];
  }

  /** What is already rewritten, from window v up to window w. */
  ghost predicate DoneTo(a: Arrays, v: nat, w: nat, bt: seq<nat>, z: seq<bool>)
    requires a.Laid() && Tiles(a.gl, v, a.n) && a.GroupsValid(v) && |bt| == |z| == 128
    decreases a.n - v
  {
    v < w && v < a.n ==> RowDone(a, v, bt, z) && DoneTo(a, v + a.gl[v], w, bt, z)
  }

  lemma {:induction false} DoneIsRewritten(a: Arrays, v: nat, bt: seq<nat>, z: seq<bool>)
    requires a.Laid() && Tiles(a.gl, v, a.n) && a.GroupsValid(v) && |bt| == |z| == 128 && DoneTo(a, v, a.n, bt, z)
    ensures Rewritten(a, v, bt, z)
    decreases a.n - v
  {
    if v < a.n {
      DoneIsRewritten(a, v + a.gl[v], bt, z);
    }
  }

  lemma {:induction false} DoneStep(a: Arrays, v: nat, w: nat, bt: seq<nat>, z: seq<bool>, bt': seq<nat>, z': seq<bool>)
    requires a.Laid() && Tiles(a.gl, v, a.n) && a.GroupsValid(v) && |bt| == |z| == |bt'| == |z'| == 128
    requires w < a.n && Tiles(a.gl, w, a.n) && a.GroupsValid(w) && v <= w && DoneTo(a, v, w, bt, z) && Reached(a, v, w)
    requires RowDone(a, w, bt', z') && bt'[..w * 16] == bt[..w * 16] && z'[..w * 16] == z[..w * 16]
    ensures DoneTo(a, v, w + a.gl[w], bt', z')
    decreases a.n - v
  {
    hide Group.Valid, Chosen, Expand, RowDone, IsZero, Groups;
    if v == w {
      DoneNone(a, w + a.gl[w], bt', z');
    } else {
      BandsBetween(a, v, w);
      RowKept(a, v, w, bt, z, bt', z');
      DoneStep(a, v + a.gl[v], w, bt, z, bt', z');
    }
  }

  lemma RowKept(a: Arrays, v: nat, w: nat, bt: seq<nat>, z: seq<bool>, bt': seq<nat>, z': seq<bool>)
    requires a.Laid() && v < a.n && Tiles(a.gl, v, a.n) && a.GroupsValid(v) && |bt| == |z| == |bt'| == |z'| == 128
    requires v * 16 + a.maxSfb <= w * 16 <= 128 && RowDone(a, v, bt, z)
    requires bt'[..w * 16] == bt[..w * 16] && z'[..w * 16] == z[..w * 16]
    ensures RowDone(a, v, bt', z')
  {
    hide Group.Valid, Chosen, Expand, Tiles, Arrays.GroupsValid;
    var m := v * 16;
    assert bt'[m..m + a.maxSfb] == bt'[..w * 16][m..m + a.maxSfb] == bt[m..m + a.maxSfb];
    assert z'[m..m + a.maxSfb] == z'[..w * 16][m..m + a.maxSfb] == z[m..m + a.maxSfb];
  }

  lemma DoneNone(a: Arrays, w: nat, bt: seq<nat>, z: seq<bool>)
    requires a.Laid() && Tiles(a.gl, w, a.n) && a.GroupsValid(w) && |bt| == |z| == 128
    ensures DoneTo(a, w, w, bt, z)
  {
  }

  /** The walk from v comes to w. */
  ghost predicate Reached(a: Arrays, v: nat, w: nat)
    requires a.Laid() && Tiles(a.gl, v, a.n)
    decreases a.n - v
  {
    v == w || (v < w && v < a.n && Reached(a, v + a.gl[v], w))
  }

  lemma BandsBetween(a: Arrays, v: nat, w: nat)
    requires a.Laid() && Tiles(a.gl, v, a.n) && v < w < a.n && Reached(a, v, w)
    ensures v * 16 + a.maxSfb <= w * 16
  {
  }

  lemma {:induction false} ReachedStep(a: Arrays, v: nat, w: nat)
    requires a.Laid() && Tiles(a.gl, v, a.n) && w < a.n && Tiles(a.gl, w, a.n) && Reached(a, v, w)
    ensures Reached(a, v, w + a.gl[w]) && v <= w
    decreases a.n - v
  {
    if v < w {
      ReachedStep(a, v + a.gl[v], w);
    }
  }

  lemma PrintBandTypesStep(s: seq<Section>, more: seq<seq<Section>>, runBits: nat)
    requires runBits > 1
    ensures PrintBandTypes([s] + more, runBits) == PrintSections(s, runBits) + PrintBandTypes(more, runBits)
  {
    assert ([s] + more)[1..] == more;
  }

  ghost function RunBits2(short: bool): (r: nat)
    ensures r > 1 && r == RunBits(short)
  {
    RunBits(short)
  }

  lemma ReachedSelf(a: Arrays)
    requires a.Laid()
    ensures Reached(a, 0, 0)
  {
  }

  lemma NoBandTypes(rb: nat)
    requires rb > 1
    ensures PrintBandTypes([], rb) == []
  {
  }

  /** What sectioning the group at w leaves in the band arrays. */
  lemma PlacedFacts(a: Arrays, w: nat, before: Bits, after: Bits, bt: seq<nat>, bt': seq<nat>, z: seq<bool>,
                    z': seq<bool>)
    requires a.Laid() && w < a.n && Tiles(a.gl, w, a.n) && Halfway(a, w, bt, z) && w * 16 + a.maxSfb <= 128
    requires a.GroupsValid(w) && a.GroupAt(w).Valid() && a.GroupAt(w).Len() == a.maxSfb
    requires Placed(a.GroupAt(w), before, after, bt, bt', z, z', w * 16)
    ensures |bt'| == |z'| == 128 && RowDone(a, w, bt', z')
    ensures bt'[..w * 16] == bt[..w * 16] && z'[..w * 16] == z[..w * 16]
    ensures Halfway(a, w + a.gl[w], bt', z')
    ensures after == before + PrintSections(Out(Chosen(a.GroupAt(w))), RunBits(a.short))
  {
    hide Group.Valid, Chosen, Expand, Splice, PrintSections, Out, RunBits, Arrays.GroupsValid;
    TilesFacts(a.gl, w, a.n);
    var e := Expand(Out(Chosen(a.GroupAt(w))));
    ChosenFits(a.GroupAt(w));
    var from := if w + a.gl[w] < a.n then (w + a.gl[w]) * 16 else 128;
    SpliceSuffix(bt, w * 16, e, from);
    SpliceSuffix(z, w * 16, IsZero(e), from);
    SameSuffix(bt, a.bt, w * 16, from);
    SameSuffix(z, a.z, w * 16, from);
  }

  lemma SpliceSuffix<T>(s: seq<T>, at: nat, x: seq<T>, from: nat)
    requires at + |x| <= |s| && (from < |s| ==> at + |x| <= from)
    ensures from < |s| ==> Splice(s, at, x)[from..] == s[from..]
    ensures Splice(s, at, x)[..at] == s[..at] && Splice(s, at, x)[at..at + |x|] == x
  {
  }

  lemma SameSuffix<T>(s: seq<T>, t: seq<T>, at: nat, from: nat)
    requires at <= from && at <= |s| == |t| && s[at..] == t[at..]
    ensures from <= |s| ==> s[from..] == t[from..]
  {
    if from <= |s| {
      assert s[from..] == s[at..][from - at..];
      assert t[from..] == t[at..][from - at..];
    }
  }

  /** Runs the sectioning search over all window groups and writes the section
      data. */
  method SectionGroups(cd: Coder, pb: Writer, sce: SingleChannelElement, costs: nat -> seq<seq<nat>>)
    requires pb.Valid() && |cd.path| == 121 && WellLaid(sce) && ArraysOf(sce, costs).Laid()
             && ArraysOf(sce, costs).GroupsValid(0)
    modifies cd`path, pb, sce`bandType, sce`zeroes
    ensures pb.Valid() && |cd.path| == 121 && WellLaid(sce)
    ensures var a := old(ArraysOf(sce, costs));
            && pb.Written() == old(pb.Written()) + PrintBandTypes(a.SectionsFrom(0), RunBits(a.short))
            && Rewritten(a, 0, sce.bandType, sce.zeroes)
  {
    hide Tiles, Group.Valid, Chosen, Expand, PrintBandTypes, PrintSections, Writer.Written, Splice, IsZero, DoneTo,
         Reached, Arrays.SectionsFrom, Groups, Out, RunBits, Arrays.GroupsValid;
    ghost var a := ArraysOf(sce, costs);
    ghost var rb := RunBits2(a.short);
    var gl := sce.groupLen;
    var w: nat := 0;
    TilesFacts(gl, 0, sce.numWindows);
    DoneNone(a, 0, sce.bandType, sce.zeroes);
    ReachedSelf(a);
    while w < sce.numWindows
      invariant pb.Valid() && |cd.path| == 121 && WellLaid(sce) && w <= sce.numWindows && Tiles(gl, w, sce.numWindows)
      invariant a.GroupsValid(w) && Reached(a, 0, w) && Halfway(a, w, sce.bandType, sce.zeroes)
      invariant DoneTo(a, 0, w, sce.bandType, sce.zeroes)
      invariant pb.Written() + PrintBandTypes(a.SectionsFrom(w), rb)
                == old(pb.Written()) + PrintBandTypes(a.SectionsFrom(0), rb)
      decreases sce.numWindows - w
    {
      TilesFacts(gl, w, sce.numWindows);
      FromStep(a, w);
      SameGroup(a, w, sce.bandType, sce.zeroes);
      ghost var bt0, z0, w0 := sce.bandType, sce.zeroes, pb.Written();
      ghost var g := a.GroupAt(w);
      cd.CodebookTrellisRate(pb, sce, w, costs(w));
      PlacedFacts(a, w, w0, pb.Written(), bt0, sce.bandType, z0, sce.zeroes);
      DoneStep(a, 0, w, bt0, z0, sce.bandType, sce.zeroes);
      ReachedStep(a, 0, w);
      PrintBandTypesStep(Out(Chosen(g)), a.SectionsFrom(w + gl[w]), rb);
      w := w + gl[w];
      TilesFacts(gl, w, sce.numWindows);
    }
    FromStep(a, w);
    NoBandTypes(rb);
    DoneIsRewritten(a, 0, sce.bandType, sce.zeroes);
  }
}
