/** The encoder's writer of TNS data. */
module TnsCoder {
  import opened BitStrings
  import opened BitWriter
  import opened AacSyntax
  import opened AacPrint
  import opened SectionCoder
  import SideCoder

  /** Shifts the indices into the short form, in place, when none needs the full
      range. */
  method CompressCoeffs(coef: array<nat>, n: nat) returns (compress: nat)
    requires n <= coef.Length
    modifies coef
    ensures compress == (if Compressible(old(coef[..n])) then 1 else 0)
    ensures coef[..n] == if compress == 1 then Compress(old(coef[..n])) else old(coef[..n])
    ensures coef[n..] == old(coef[n..])
  {
    var i := 0;
    while i < n
      invariant 0 <= i <= n && forall j :: 0 <= j < i ==> !(4 <= coef[j] <= 11)
    {
      if coef[i] >= 4 && coef[i] <= 11 {
        assert !(forall j :: 0 <= j < |coef[..n]| ==> !(4 <= coef[..n][j] <= 11)) by {
          assert coef[..n][i] == coef[i];
        }
        return 0;
      }
      i := i + 1;
    }
    ghost var idx := coef[..n];
    i := 0;
    while i < n
      invariant 0 <= i <= n
      invariant forall j :: 0 <= j < i ==> coef[j] == Compress(idx)[j]
      invariant forall j :: i <= j < n ==> coef[j] == idx[j]
      invariant coef[n..] == old(coef[n..])
    {
      if coef[i] > 11 {
        coef[i] := coef[i] - 8;
      }
      i := i + 1;
    }
    compress := 1;
  }

  lemma PrintCoefsStep(idx: seq<nat>, bits: nat, k: nat)
    requires k <= |idx|
    ensures PrintCoefs(idx[k..], bits) == if k == |idx| then []
            else ToBits(bits, idx[k]) + PrintCoefs(idx[k + 1..], bits)
  {
    if k < |idx| {
      assert idx[k..][1..] == idx[k + 1..] && idx[k..][0] == idx[k];
    }
  }

  method PutCoefs(pb: Writer, coef: array<nat>, n: nat, bits: nat)
    requires pb.Valid() && n <= coef.Length && bits <= 32
    modifies pb
    ensures pb.Valid() && pb.Written() == old(pb.Written()) + PrintCoefs(coef[..n], bits)
  {
    hide PrintCoefs, ToBits, Writer.Written;
    ghost var idx := coef[..n];
    var k := 0;
    assert idx[0..] == idx;
    while k < n
      invariant 0 <= k <= n && pb.Valid() && coef[..n] == idx
      invariant pb.Written() + PrintCoefs(idx[k..], bits) == old(pb.Written()) + PrintCoefs(idx, bits)
    {
      PrintCoefsStep(idx, bits, k);
      assert coef[k] == idx[k];
      pb.Put(bits, coef[k]);
      k := k + 1;
    }
    PrintCoefsStep(idx, bits, n);
  }

  /** One filter; its indices are compressed in place. */
  method PutFilter(pb: Writer, f: TnsFilter, is8: nat)
    requires pb.Valid() && is8 <= 1 && |f.idx| == f.order
    modifies pb
    ensures pb.Valid() && pb.Written() == old(pb.Written()) + PrintFilter(f, is8)
  {
    hide ToBits, Writer.Written, PrintCoefs, Compressible;
    SideCoder.BitFields();
    pb.Put(6 - 2 * is8, f.length);
    pb.Put(5 - 2 * is8, f.order);
    if f.order == 0 {
      return;
    }
    pb.Put(1, f.direction);
    var coef := new nat[f.order](i requires 0 <= i < f.order && |f.idx| == f.order => f.idx[i]);
    assert coef[..f.order] == f.idx;
    var coefCompress := CompressCoeffs(coef, f.order);
    pb.Put(1, coefCompress);
    PutCoefs(pb, coef, f.order, 1 + 3 - coefCompress);
    FilterParts(old(pb.Written()), f, is8);
  }

  lemma FilterParts(o: Bits, f: TnsFilter, is8: nat)
    requires is8 <= 1 && f.order != 0
    ensures var c := Compressible(f.idx);
            o + ToBits(6 - 2 * is8, f.length) + ToBits(5 - 2 * is8, f.order) + ToBits(1, f.direction) + [c]
              + PrintCoefs(if c then Compress(f.idx) else f.idx, if c then 3 else 4)
            == o + PrintFilter(f, is8)
  {
    hide ToBits, PrintCoefs, Compressible;
  }

  lemma PrintFiltersStep(fs: seq<TnsFilter>, is8: nat, k: nat)
    requires is8 <= 1 && k <= |fs|
    ensures PrintFilters(fs[k..], is8) == if k == |fs| then []
            else PrintFilter(fs[k], is8) + PrintFilters(fs[k + 1..], is8)
  {
    hide PrintFilter;
    if k < |fs| {
      assert fs[k..][1..] == fs[k + 1..] && fs[k..][0] == fs[k];
    }
  }

  /** Every filter has as many indices as its order. */
  ghost predicate Indexed(fs: seq<TnsFilter>) {
    forall k: nat :: k < |fs| ==> |fs[k].idx| == fs[k].order
  }

  method PutFilters(pb: Writer, fs: seq<TnsFilter>, is8: nat)
    requires pb.Valid() && is8 <= 1 && Indexed(fs)
    modifies pb
    ensures pb.Valid() && pb.Written() == old(pb.Written()) + PrintFilters(fs, is8)
  {
    hide PrintFilters, PrintFilter, Writer.Written;
    var filt := 0;
    assert fs[0..] == fs;
    while filt < |fs|
      invariant 0 <= filt <= |fs| && pb.Valid()
      invariant pb.Written() + PrintFilters(fs[filt..], is8) == old(pb.Written()) + PrintFilters(fs, is8)
    {
      PrintFiltersStep(fs, is8, filt);
      PutFilter(pb, fs[filt], is8);
      filt := filt + 1;
    }
    PrintFiltersStep(fs, is8, filt);
  }

  lemma PrintTnsStep(ws: seq<seq<TnsFilter>>, is8: nat, k: nat)
    requires is8 <= 1 && k <= |ws|
    ensures PrintTns(ws[k..], is8)
            == if k == |ws| then []
               else
                 ToBits(2 - is8, |ws[k]|) + (if |ws[k]| == 0 then [] else [true] + PrintFilters(ws[k], is8))
                     + PrintTns(ws[k + 1..], is8)
  {
    hide PrintFilters, ToBits;
    if k < |ws| {
      assert ws[k..][1..] == ws[k + 1..] && ws[k..][0] == ws[k];
    }
  }

  /** The filters of one window, always with four-bit resolution. */
  method PutWindow(pb: Writer, fs: seq<TnsFilter>, is8: nat)
    requires pb.Valid() && is8 <= 1 && Indexed(fs)
    modifies pb
    ensures pb.Valid()
    ensures pb.Written() == old(pb.Written()) + ToBits(2 - is8, |fs|)
            + (if |fs| == 0 then [] else [true] + PrintFilters(fs, is8))
  {
    hide PrintFilters, ToBits, Writer.Written;
    SideCoder.BitFields();
    pb.Put(2 - is8, |fs|);
    if |fs| != 0 {
      pb.Put(1, 1);
      PutFilters(pb, fs, is8);
    }
  }

  method EncodeTnsInfo(pb: Writer, sce: SingleChannelElement)
    requires pb.Valid()
    requires sce.tnsPresent ==> forall w: nat :: w < |sce.tns| ==> Indexed(sce.tns[w])
    modifies pb
    ensures pb.Valid()
    ensures pb.Written() == old(pb.Written())
              + (if sce.tnsPresent then PrintTns(sce.tns, if sce.windowSequence == EIGHT_SHORT then 1 else 0) else [])
  {
    hide PrintTns, PrintFilters, ToBits, Writer.Written, Indexed;
    var is8 := 0;
    if sce.windowSequence == EIGHT_SHORT {
      is8 := 1;
    }
    if !sce.tnsPresent {
      return;
    }
    var ws := sce.tns;
    assert ws[0..] == ws;
    for i := 0 to |ws|
      invariant pb.Valid() && pb.Written() + PrintTns(ws[i..], is8) == old(pb.Written()) + PrintTns(ws, is8)
    {
      PrintTnsStep(ws, is8, i);
      PutWindow(pb, ws[i], is8);
    }
    PrintTnsStep(ws, is8, |ws|);
  }
}
