/** The split-radix input permutation and the gather map built from it. */
module SplitRadix {
  import opened BitStrings
  import Arith

  /** v & (2^m - 1) on two's complement integers. */
  function Mask(v: int, m: nat): (r: nat)
    ensures r < Pow2(m)
    decreases m
  {
    if m == 0 then 0 else 2 * Mask(v / 2, m - 1) + v % 2
  }

  predicate BitSet(i: nat, t: nat) {
    Shr(i, t) % 2 == 1
  }

  /** Where the split-radix recursion of size 2^m reads input i, before the
      reduction modulo 2^m. */
  function Place(i: nat, m: nat, inv: bool): int
    decreases m
  {
    if m <= 1 then i % 2
    else if !BitSet(i, m - 1) then 2 * Place(i, m - 1, inv)
    else
      var notSet := !BitSet(i, m - 2);
      4 * Place(i, m - 2, inv) + 1 - 2 * (if notSet != inv then 1 else 0)
  }

  /** The input that Place sends to k modulo 2^m. */
  function Source(k: nat, m: nat, inv: bool): (i: nat)
    ensures i < Pow2(m)
    decreases m
  {
    if m == 0 then 0
    else if m == 1 then k % 2
    else if k % 2 == 0 then Source(k / 2, m - 1, inv)
    else
      var upper := if k % 4 == 1 then !inv else inv;
      Pow2(m - 1) + (if upper then Pow2(m - 2) else 0) + Source(Mask((k + 1) / 4, m - 2), m - 2, inv)
  }

  // ----- masks

  lemma {:induction false} MaskAdd(v: int, d: int, m: nat)
    ensures Mask(Mask(v, m) + d, m) == Mask(v + d, m)
    decreases m
  {
    if m > 0 {
      var c := (v % 2 + d % 2) / 2;
      MaskAdd(v / 2, d / 2 + c, m - 1);
      assert (Mask(v, m) + d) / 2 == Mask(v / 2, m - 1) + (d / 2 + c);
      assert (v + d) / 2 == v / 2 + (d / 2 + c);
    }
  }

  lemma MaskStep(v: int, m: nat)
    ensures Mask(v, m) == if m == 0 then 0 else 2 * Mask(v / 2, m - 1) + v % 2
  {
  }

  lemma HalfDifference(d: int, x: int, e: int)
    requires 0 <= e < 2
    ensures (d - (2 * x + e)) / 2 == d / 2 - (if d % 2 < e then 1 else 0) - x
    ensures (d - (2 * x + e)) % 2 == (d % 2 + e) % 2
  {
  }

  lemma {:induction false} MaskSub(d: int, v: int, m: nat)
    ensures Mask(d - Mask(v, m), m) == Mask(d - v, m)
    decreases m
  {
    hide Mask;
    MaskStep(d - Mask(v, m), m);
    MaskStep(d - v, m);
    MaskStep(v, m);
    if m > 0 {
      var c := if d % 2 < v % 2 then 1 else 0;
      MaskSub(d / 2 - c, v / 2, m - 1);
      HalfDifference(d, v / 2, v % 2);
      HalfDifference(d, Mask(v / 2, m - 1), v % 2);
    }
  }

  lemma {:induction false} MaskSmall(v: nat, m: nat)
    requires v < Pow2(m)
    ensures Mask(v, m) == v
  {
    if m > 0 {
      MaskSmall(v / 2, m - 1);
    }
  }

  lemma MaskTwice(x: int, m: nat)
    requires m >= 1
    ensures Mask(2 * x, m) == 2 * Mask(x, m - 1)
  {
  }

  lemma MaskFour(x: int, m: nat)
    requires m >= 2
    ensures Mask(4 * x + 1, m) == 4 * Mask(x, m - 2) + 1
    ensures Mask(4 * x - 1, m) == 4 * Mask(x - 1, m - 2) + 3
  {
    assert (4 * x + 1) / 2 == 2 * x && 2 * x / 2 == x;
    assert (4 * x - 1) / 2 == 2 * x - 1 && (2 * x - 1) / 2 == x - 1;
  }

  // ----- bits of an index below and above a block

  lemma {:induction false} ShrAbove(i: nat, m: nat, t: nat)
    requires t <= m
    ensures Shr(i + Pow2(m), t) == Shr(i, t) + Pow2(m - t)
  {
    if t > 0 {
      assert (i + Pow2(m)) / 2 == i / 2 + Pow2(m - 1);
      ShrAbove(i / 2, m - 1, t - 1);
    }
  }

  lemma BitSetAbove(i: nat, m: nat, t: nat)
    requires t <= m
    ensures BitSet(i + Pow2(m), t) == if t < m then BitSet(i, t) else !BitSet(i, t)
  {
    ShrAbove(i, m, t);
    if t < m {
      assert Pow2(m - t) == 2 * Pow2(m - t - 1);
    }
  }

  lemma BitSetSmall(i: nat, m: nat)
    requires i < Pow2(m)
    ensures !BitSet(i, m)
  {
    LowOfSmall(i, m);
  }

  /** Place looks only at the low m bits (at bit 0 when m is 0). */
  lemma {:induction false} PlaceAbove(i: nat, top: nat, m: nat, inv: bool)
    requires m <= top && 0 < top
    ensures Place(i + Pow2(top), m, inv) == Place(i, m, inv)
    decreases m
  {
    if m > 1 {
      BitSetAbove(i, top, m - 1);
      BitSetAbove(i, top, m - 2);
      PlaceAbove(i, top, m - 1, inv);
      PlaceAbove(i, top, m - 2, inv);
    } else {
      assert Pow2(top) == 2 * Pow2(top - 1);
    }
  }

  lemma PlaceMaskAbove(i: nat, m: nat, inv: bool)
    ensures Mask(Place(i + Pow2(m), m, inv), m) == Mask(Place(i, m, inv), m)
  {
    if m > 0 {
      PlaceAbove(i, m, m, inv);
    }
  }

  // ----- the permutation

  function Slot(i: nat, m: nat, inv: bool): (k: nat)
    ensures k < Pow2(m)
  {
    Mask(Place(i, m, inv), m)
  }

  lemma SlotLower(i: nat, m: nat, inv: bool)
    requires m >= 2 && i < Pow2(m - 1)
    ensures Slot(i, m, inv) == 2 * Slot(i, m - 1, inv)
  {
    BitSetSmall(i, m - 1);
    MaskTwice(Place(i, m - 1, inv), m);
  }

  lemma PlaceUpper(i: nat, m: nat, inv: bool)
    requires m >= 2 && BitSet(i, m - 1)
    ensures Place(i, m, inv) == 4 * Place(i, m - 2, inv) + (if BitSet(i, m - 2) != inv then 1 else -1)
  {
  }

  lemma UpperBits(low: nat, upper: bool, m: nat)
    requires m >= 2 && low < Pow2(m - 2)
    ensures var part := (if upper then Pow2(m - 2) else 0) + low;
            && BitSet(part + Pow2(m - 1), m - 1)
            && (BitSet(part + Pow2(m - 1), m - 2) <==> upper)
  {
    hide BitSet;
    var part := (if upper then Pow2(m - 2) else 0) + low;
    BitSetSmall(part, m - 1);
    BitSetAbove(part, m - 1, m - 1);
    BitSetSmall(low, m - 2);
    if upper {
      BitSetAbove(low, m - 2, m - 2);
    }
    BitSetAbove(part, m - 1, m - 2);
  }

  lemma UpperPlace(low: nat, upper: bool, m: nat, inv: bool)
    requires m >= 2 && low < Pow2(m - 2)
    ensures var part := (if upper then Pow2(m - 2) else 0) + low;
            Mask(Place(part + Pow2(m - 1), m - 2, inv), m - 2) == Slot(low, m - 2, inv)
  {
    hide Mask, Place, Pow2;
    var part := (if upper then Pow2(m - 2) else 0) + low;
    PlaceAbove(part, m - 1, m - 2, inv);
    PlaceMaskAbove(low, m - 2, inv);
  }

  lemma SlotUpper(low: nat, upper: bool, m: nat, inv: bool)
    requires m >= 2 && low < Pow2(m - 2)
    ensures var part := (if upper then Pow2(m - 2) else 0) + low;
            Slot(part + Pow2(m - 1), m, inv)
            == if upper != inv then 4 * Slot(low, m - 2, inv) + 1
               else 4 * Mask(Slot(low, m - 2, inv) - 1, m - 2) + 3
  {
    hide Mask, BitSet, Pow2, Place;
    var i := (if upper then Pow2(m - 2) else 0) + low + Pow2(m - 1);
    UpperBits(low, upper, m);
    UpperPlace(low, upper, m, inv);
    PlaceUpper(i, m, inv);
    var p := Place(i, m - 2, inv);
    MaskFour(p, m);
    MaskAdd(p, -1, m - 2);
  }

  lemma SourceOne(s: nat, m: nat, inv: bool)
    requires m >= 2 && s < Pow2(m - 2)
    ensures Source(4 * s + 1, m, inv)
            == (if !inv then Pow2(m - 2) else 0) + Source(s, m - 2, inv) + Pow2(m - 1)
  {
    hide Source, Mask;
    QuarterOf(s);
    SourceOdd(4 * s + 1, m, inv);
    MaskSmall(s, m - 2);
  }

  /** One unfolding of an odd index. */
  lemma SourceOdd(k: nat, m: nat, inv: bool)
    requires m >= 2 && k % 2 == 1
    ensures Source(k, m, inv)
            == Pow2(m - 1) + (if (if k % 4 == 1 then !inv else inv) then Pow2(m - 2) else 0)
               + Source(Mask((k + 1) / 4, m - 2), m - 2, inv)
  {
    hide Mask, Pow2;
  }

  lemma SourceThree(s: nat, m: nat, inv: bool)
    requires m >= 2
    ensures Source(4 * s + 3, m, inv)
            == (if inv then Pow2(m - 2) else 0) + Source(Mask(s + 1, m - 2), m - 2, inv) + Pow2(m - 1)
  {
    hide Source, Mask, Pow2;
    QuarterOf(s);
    SourceOdd(4 * s + 3, m, inv);
  }

  /** The quarter an odd index belongs to. */
  lemma QuarterOf(s: nat)
    ensures (4 * s + 3) % 2 == 1 && (4 * s + 3) % 4 == 3 && (4 * s + 3 + 1) / 4 == s + 1
    ensures (4 * s + 1) % 2 == 1 && (4 * s + 1) % 4 == 1 && (4 * s + 1 + 1) / 4 == s
  {
    Digits(4 * s + 3, 2, 2 * s + 1, 1);
    Digits(4 * s + 3, 4, s, 3);
    Digits(4 * s + 4, 4, s + 1, 0);
    Digits(4 * s + 1, 2, 2 * s, 1);
    Digits(4 * s + 1, 4, s, 1);
    Digits(4 * s + 2, 4, s, 2);
  }

  lemma Digits(v: nat, d: nat, q: nat, r: nat)
    requires (d == 2 || d == 4) && r < d && v == q * d + r
    ensures v / d == q && v % d == r
  {
    Arith.DivModUnique(v, d, q, r);
  }

  lemma SourceEven(k: nat, m: nat, inv: bool)
    requires m >= 2
    ensures Source(2 * k, m, inv) == Source(k, m - 1, inv)
  {
    assert 2 * k % 2 == 0 && 2 * k / 2 == k;
  }

  lemma MaskUpDown(s: nat, m: nat)
    requires s < Pow2(m)
    ensures Mask(Mask(s - 1, m) + 1, m) == s
    ensures Mask(Mask(s + 1, m) - 1, m) == s
  {
    MaskAdd(s - 1, 1, m);
    MaskAdd(s + 1, -1, m);
    MaskSmall(s, m);
  }

  lemma SlotTiny(i: nat, m: nat, inv: bool)
    requires m <= 1 && i < Pow2(m)
    ensures Slot(i, m, inv) == i && Source(i, m, inv) == i
  {
    assert Pow2(0) == 1 && Pow2(1) == 2;
  }

  lemma Quarters(m: nat)
    requires m >= 2
    ensures Pow2(m) == 2 * Pow2(m - 1) && Pow2(m - 1) == 2 * Pow2(m - 2)
  {
  }

  lemma SourceOfUpper(low: nat, upper: bool, m: nat, inv: bool)
    requires m >= 2 && low < Pow2(m - 2)
    requires Source(Slot(low, m - 2, inv), m - 2, inv) == low
    ensures var i := (if upper then Pow2(m - 2) else 0) + low + Pow2(m - 1);
            Source(Slot(i, m, inv), m, inv) == i
  {
    hide Mask, Slot, Source, Pow2;
    SlotUpper(low, upper, m, inv);
    var s: int := Slot(low, m - 2, inv);
    if upper != inv {
      SourceOne(s, m, inv);
    } else {
      MaskUpDown(s, m - 2);
      SourceThree(Mask(s - 1, m - 2), m, inv);
    }
  }

  lemma SlotOfUpperOne(t: nat, m: nat, inv: bool)
    requires m >= 2 && t < Pow2(m - 2)
    requires Slot(Source(t, m - 2, inv), m - 2, inv) == t
    ensures Slot(Source(4 * t + 1, m, inv), m, inv) == 4 * t + 1
  {
    hide Mask, Slot, Source, Pow2;
    SourceOne(t, m, inv);
    SlotUpper(Source(t, m - 2, inv), !inv, m, inv);
  }

  lemma SlotOfUpperThree(t: nat, m: nat, inv: bool)
    requires m >= 2 && t < Pow2(m - 2)
    requires var s := Mask(t + 1, m - 2); Slot(Source(s, m - 2, inv), m - 2, inv) == s
    ensures Slot(Source(4 * t + 3, m, inv), m, inv) == 4 * t + 3
  {
    hide Mask, Slot, Source, Pow2;
    MaskUpDown(t, m - 2);
    SourceThree(t, m, inv);
    SlotUpper(Source(Mask(t + 1, m - 2), m - 2, inv), inv, m, inv);
  }

  /** Slot is one-to-one: Source recovers the input. */
  lemma {:induction false} SourceOfSlot(i: nat, m: nat, inv: bool)
    requires i < Pow2(m)
    ensures Source(Slot(i, m, inv), m, inv) == i
    decreases m
  {
    hide Mask, Slot, Source, Pow2;
    if m <= 1 {
      SlotTiny(i, m, inv);
    } else {
      Quarters(m);
      if i < Pow2(m - 1) {
        SlotLower(i, m, inv);
        SourceEven(Slot(i, m - 1, inv), m, inv);
        SourceOfSlot(i, m - 1, inv);
      } else {
        var part := i - Pow2(m - 1);
        var upper := part >= Pow2(m - 2);
        var low := if upper then part - Pow2(m - 2) else part;
        SourceOfSlot(low, m - 2, inv);
        SourceOfUpper(low, upper, m, inv);
      }
    }
  }

  lemma OddIs(k: nat)
    requires k % 2 == 1
    ensures k == 4 * (k / 4) + 1 || k == 4 * (k / 4) + 3
  {
  }

  /** Slot is onto: it sends Source(k) to k. */
  lemma {:induction false} SlotOfSource(k: nat, m: nat, inv: bool)
    requires k < Pow2(m)
    ensures Slot(Source(k, m, inv), m, inv) == k
    decreases m
  {
    hide Mask, Slot, Source, Pow2;
    if m <= 1 {
      SlotTiny(k, m, inv);
    } else {
      Quarters(m);
      if k % 2 == 0 {
        var t := k / 2;
        SourceEven(t, m, inv);
        SlotOfSource(t, m - 1, inv);
        SlotLower(Source(t, m - 1, inv), m, inv);
      } else {
        OddIs(k);
        var t := k / 4;
        if k == 4 * t + 1 {
          SlotOfSource(t, m - 2, inv);
          SlotOfUpperOne(t, m, inv);
        } else {
          SlotOfSource(Mask(t + 1, m - 2), m - 2, inv);
          SlotOfUpperThree(t, m, inv);
        }
      }
    }
  }

  // ----- the gather map

  function Gather(i: nat, m: nat, inv: bool): (k: nat)
    ensures k < Pow2(m)
  {
    Mask(0 - Place(i, m, inv), m)
  }

  function GatherSource(k: nat, m: nat, inv: bool): (i: nat)
    ensures i < Pow2(m)
  {
    Source(Mask(0 - k as int, m), m, inv)
  }

  lemma GatherIsNegatedSlot(i: nat, m: nat, inv: bool)
    ensures Gather(i, m, inv) == Mask(0 - Slot(i, m, inv), m)
  {
    MaskSub(0, Place(i, m, inv), m);
  }

  lemma MaskNegatedTwice(k: nat, m: nat)
    requires k < Pow2(m)
    ensures Mask(0 - Mask(0 - k as int, m), m) == k
  {
    MaskSub(0, 0 - k as int, m);
    MaskSmall(k, m);
  }

  lemma GatherSourceIs(k: nat, m: nat, inv: bool)
    ensures GatherSource(k, m, inv) == Source(Mask(0 - k as int, m), m, inv)
  {
  }

  /** Gather permutes 0..2^m-1, with GatherSource as its inverse. */
  lemma GatherBijection(x: nat, m: nat, inv: bool)
    requires x < Pow2(m)
    ensures GatherSource(Gather(x, m, inv), m, inv) == x
    ensures Gather(GatherSource(x, m, inv), m, inv) == x
  {
    hide Mask, Source, Slot, Gather, Place;
    GatherSourceIs(x, m, inv);
    GatherSourceIs(Gather(x, m, inv), m, inv);
    GatherIsNegatedSlot(x, m, inv);
    MaskNegatedTwice(Slot(x, m, inv), m);
    SourceOfSlot(x, m, inv);
    var y := Mask(0 - x as int, m);
    SlotOfSource(y, m, inv);
    GatherIsNegatedSlot(Source(y, m, inv), m, inv);
    MaskNegatedTwice(x, m);
  }

  ghost predicate IsPermutation(s: seq<nat>) {
    && (forall i: nat :: i < |s| ==> s[i] < |s|)
    && (forall i: nat, j: nat :: i < |s| && j < |s| && s[i] == s[j] ==> i == j)
    && (forall v: nat :: v < |s| ==> v in s)
  }

  /** The map a size 2^m transform gathers its input through. */
  method RevtabGather(m: nat, inv: bool) returns (map0: array<nat>)
    ensures map0.Length == Pow2(m) && IsPermutation(map0[..])
    ensures forall i: nat :: i < map0.Length ==> map0[i] == Mask(0 - Place(i, m, inv), m)
  {
    hide Place, Mask;
    var n := Pow2(m);
    map0 := new nat[n];
    var i := 0;
    while i < n
      invariant 0 <= i <= n
      invariant forall j: nat :: j < i ==> map0[j] == Gather(j, m, inv)
    {
      map0[i] := Mask(0 - Place(i, m, inv), m);
      i := i + 1;
    }
    ghost var s := map0[..];
    assert |s| == n && forall j: nat :: j < n ==> s[j] == Gather(j, m, inv);
    GatherPermutes(s, m, inv);
  }

  lemma GatherPermutes(s: seq<nat>, m: nat, inv: bool)
    requires |s| == Pow2(m) && forall j: nat :: j < |s| ==> s[j] == Gather(j, m, inv)
    ensures IsPermutation(s)
  {
    hide Gather, GatherSource;
    forall i: nat, j: nat | i < |s| && j < |s| && s[i] == s[j] ensures i == j {
      GatherBijection(i, m, inv);
      GatherBijection(j, m, inv);
    }
    forall v: nat | v < |s| ensures v in s {
      GatherBijection(v, m, inv);
      assert s[GatherSource(v, m, inv)] == v;
    }
  }
}
