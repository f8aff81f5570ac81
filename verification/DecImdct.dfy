/** The inverse transform with its overlap, into buffers that keep stale samples,
    and the PCM the frame ends up as. */
module DecImdct {
  import opened AacSyntax
  import opened AacParse
  import opened DecChannel
  import opened DecElements
  import opened DecRender

  /** Writing behind a known prefix extends it and leaves the rest alone. */
  lemma PutPrefix(q: seq<int>, p: seq<int>, x: seq<int>, m: nat)
    requires |p| + |x| <= m <= |q| && q[..|p|] == p
    ensures Put(q, |p|, x)[..|p| + |x|] == p + x
    ensures Put(q, |p|, x)[m..] == q[m..]
  {
  }

  /** Scratch of the transform: whatever the last frame left in it. */
  class DspState {
    var bufMdct: seq<int>
    var temp: seq<int>

    ghost predicate Valid()
      reads this
    {
      |bufMdct| == 1024 && |temp| == 128
    }

    constructor ()
      ensures Valid()
    {
      bufMdct, temp := seq(1024, _ => 0), seq(128, _ => 0);
    }

    /** One long inverse transform or eight short ones. */
    method Transform(k: Kernels, sce: Sce)
      requires Valid() && k.Valid() && sce.Sized()
      modifies this`bufMdct
      ensures Valid() && bufMdct == Transformed(k, HistOf(sce.ics), sce.coeffs)
    {
      MdctLength(k);
      if sce.ics.seq0 == EIGHT_SHORT {
        assert Blocks(k, sce.coeffs, 0) == [];
        for n := 0 to 8
          invariant Valid() && bufMdct[..128 * n] == Blocks(k, sce.coeffs, n)
        {
          PutPrefix(bufMdct, Blocks(k, sce.coeffs, n), k.mdct(sce.coeffs[128 * n..128 * n + 128]), 128 * n + 128);
          bufMdct := Put(bufMdct, 128 * n, k.mdct(sce.coeffs[128 * n..128 * n + 128]));
        }
        assert bufMdct[..1024] == bufMdct;
      } else {
        bufMdct := k.mdct(sce.coeffs);
      }
    }

    /** The overlaps of eight short blocks behind the head. The tail of the middle
        one stays in temp. */
    method ShortOverlaps(k: Kernels, sce: Sce, ghost p0: seq<int>)
      requires Valid() && k.Valid() && sce.Sized() && |p0| == 576 && sce.output[..576] == p0
      modifies this`temp, sce`output
      ensures Valid() && sce.Sized()
      ensures var (b, w) := (bufMdct, ShortWin(HistOf(sce.ics)));
              && temp == ShortOverlap(k, b, 3, w)
              && sce.output == p0 + ShortOverlap(k, b, 0, w) + ShortOverlap(k, b, 1, w) + ShortOverlap(k, b, 2, w)
                  + ShortOverlap(k, b, 3, w)[..64]
    {
      hide Put, Kernels.Valid;
      FmulLength(k);
      var swindow := Win(64, sce.ics.kb0 != 0);
      ghost var p := p0;
      p := Append(sce, 576, k.fmul(bufMdct[64..128], bufMdct[128..192], swindow), p);
      p := Append(sce, 704, k.fmul(bufMdct[192..256], bufMdct[256..320], swindow), p);
      p := Append(sce, 832, k.fmul(bufMdct[320..384], bufMdct[384..448], swindow), p);
      temp := k.fmul(bufMdct[448..512], bufMdct[512..576], swindow);
      p := Append(sce, 960, temp[..64], p);
      assert sce.output[..1024] == sce.output;
    }

    /** The samples of the frame. */
    method WindowOverlap(k: Kernels, sce: Sce)
      requires Valid() && k.Valid() && sce.Sized()
      modifies this`temp, sce`output
      ensures Valid() && sce.Sized()
      ensures sce.output == Output(k, HistOf(sce.ics), bufMdct, sce.saved)
      ensures sce.ics.seq0 == EIGHT_SHORT ==> temp == ShortOverlap(k, bufMdct, 3, ShortWin(HistOf(sce.ics)))
    {
      hide Put, Kernels.Valid, ShortOverlap;
      FmulLength(k);
      var i := sce.ics;
      var lwindowPrev, swindowPrev := Win(512, i.kb1 != 0), Win(64, i.kb1 != 0);
      if (i.seq1 == ONLY_LONG || i.seq1 == LONG_STOP) && (i.seq0 == ONLY_LONG || i.seq0 == LONG_START) {
        sce.output := k.fmul(sce.saved[..512], bufMdct[..512], lwindowPrev);
      } else {
        ghost var p: seq<int> := [];
        assert sce.output[..0] == p;
        p := Append(sce, 0, sce.saved[..448], p);
        p := Append(sce, 448, k.fmul(sce.saved[448..512], bufMdct[..64], swindowPrev), p);
        if i.seq0 == EIGHT_SHORT {
          ShortOverlaps(k, sce, p);
        } else {
          p := Append(sce, 576, bufMdct[64..512], p);
          assert sce.output[..1024] == sce.output;
        }
      }
    }

    /** What the next frame will overlap with. */
    method BufferUpdate(k: Kernels, sce: Sce)
      requires Valid() && k.Valid() && sce.Sized()
      requires sce.ics.seq0 == EIGHT_SHORT ==> temp == ShortOverlap(k, bufMdct, 3, ShortWin(HistOf(sce.ics)))
      modifies sce`saved
      ensures sce.Sized() && sce.saved == Saved(k, HistOf(sce.ics), bufMdct, old(sce.saved))
    {
      hide Put, Kernels.Valid;
      FmulLength(k);
      var swindow := Win(64, sce.ics.kb0 != 0);
      ghost var p: seq<int>, tail := [], sce.saved[512..];
      assert sce.saved[..0] == p;
      match sce.ics.seq0 {
        case 2 =>
          p := Keep(sce, 0, temp[64..128], p);
          p := Keep(sce, 64, k.fmul(bufMdct[576..640], bufMdct[640..704], swindow), p);
          p := Keep(sce, 192, k.fmul(bufMdct[704..768], bufMdct[768..832], swindow), p);
          p := Keep(sce, 320, k.fmul(bufMdct[832..896], bufMdct[896..960], swindow), p);
          p := Keep(sce, 448, bufMdct[960..1024], p);
        case 1 =>
          p := Keep(sce, 0, bufMdct[512..960], p);
          p := Keep(sce, 448, bufMdct[960..1024], p);
        case _ =>
          p := Keep(sce, 0, bufMdct[512..1024], p);
      }
      assert sce.saved == sce.saved[..512] + sce.saved[512..];
    }

    /** Inverse transform, windowed overlap and buffer update. */
    method ImdctAndWindowing(k: Kernels, sce: Sce)
      requires Valid() && k.Valid() && sce.Sized()
      modifies this, sce`output, sce`saved
      ensures Valid() && sce.Sized()
      ensures var h := HistOf(sce.ics);
              var b := Transformed(k, h, sce.coeffs);
              sce.output == Output(k, h, b, old(sce.saved)) && sce.saved == Saved(k, h, b, old(sce.saved))
    {
      hide Kernels.Valid, Output, Saved, Transformed, ShortOverlap;
      Transform(k, sce);
      WindowOverlap(k, sce);
      BufferUpdate(k, sce);
    }
  }

  lemma MdctLength(k: Kernels)
    requires k.Valid()
    ensures forall x :: |k.mdct(x)| == |x|
  {
  }

  lemma FmulLength(k: Kernels)
    requires k.Valid()
    ensures forall a, b, w :: |k.fmul(a, b, w)| == 2 * |a|
  {
  }

  /** Writes x into the output behind the part that is done. */
  method Append(sce: Sce, at: nat, x: seq<int>, ghost p: seq<int>) returns (ghost p': seq<int>)
    requires sce.Sized() && at == |p| && at + |x| <= 1024 && sce.output[..|p|] == p
    modifies sce`output
    ensures sce.Sized() && p' == p + x && sce.output[..|p'|] == p'
  {
    PutPrefix(sce.output, p, x, 1024);
    p' := p + x;
    sce.output := Put(sce.output, at, x);
  }

  /** Writes x into the overlap memory behind the part that is done. */
  method Keep(sce: Sce, at: nat, x: seq<int>, ghost p: seq<int>) returns (ghost p': seq<int>)
    requires sce.Sized() && at == |p| && at + |x| <= 512 && sce.saved[..|p|] == p
    modifies sce`saved
    ensures sce.Sized() && p' == p + x && sce.saved[..|p'|] == p' && sce.saved[512..] == old(sce.saved[512..])
  {
    PutPrefix(sce.saved, p, x, 512);
    p' := p + x;
    sce.saved := Put(sce.saved, at, x);
  }

  // ----- output

  /** Scales the samples into the output range, in place. */
  method ClipOutput(sce: Sce)
    requires sce.Sized()
    modifies sce`output
    ensures sce.Sized() && sce.output == Clipped(old(sce.output))
  {
    hide ClipSample;
    ghost var x := sce.output;
    for j := 0 to 1024
      invariant sce.Sized() && forall n :: 0 <= n < 1024 ==> sce.output[n] == if n < j then ClipSample(x[n]) else x[n]
    {
      sce.output := sce.output[j := ClipSample(sce.output[j])];
    }
  }

  method AppendMono(dst: seq<nat>, x: seq<int>) returns (out: seq<nat>)
    ensures out == dst + MonoBytes(x)
  {
    hide SampleBytes;
    out := dst;
    for i := 0 to |x|
      invariant out == dst + MonoBytes(x[..i])
    {
      assert x[..i + 1][..i] == x[..i];
      out := out + SampleBytes(x[i]);
    }
    assert x[..|x|] == x;
  }

  method AppendStereo(dst: seq<nat>, l: seq<int>, r: seq<int>) returns (out: seq<nat>)
    requires |l| == |r|
    ensures out == dst + StereoBytes(l, r)
  {
    hide SampleBytes;
    out := dst;
    for i := 0 to |l|
      invariant out == dst + StereoBytes(l[..i], r[..i])
    {
      assert l[..i + 1][..i] == l[..i] && r[..i + 1][..i] == r[..i];
      out := out + SampleBytes(l[i]);
      out := out + SampleBytes(r[i]);
    }
    assert l[..|l|] == l && r[..|r|] == r;
  }
}
