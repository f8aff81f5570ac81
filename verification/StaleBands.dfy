/** The final pass on bands whose scalefactors a search has not set. A band that is
    not zero but has no coefficients keeps the index of an earlier frame, which may be
    a noise or intensity scalefactor and so negative. */
module StaleBands {
  import opened AacSyntax
  import opened AacParse
  import opened AacPrint
  import opened ScalefactorChain
  import opened FinalPass
  import opened BandWalk
  import opened LegalChannel

  /** A band that gets a codebook holds something between lo and hi. */
  ghost predicate Within(b: Bands, s: nat, lo: int, hi: int)
    requires b.Sized() && s < 128
  {
    !b.z[s] && !SpecialType(b.bt[s]) ==> lo <= b.sf[s] <= hi
  }

  ghost predicate Loose(b: Bands, prev: int, slots: seq<nat>, l: Lookups, lo: int, hi: int)
    requires b.Sized() && InArray(slots) && l.Valid()
  {
    && Increasing(slots) && Apart(l, slots)
    && (prev == -1 || lo <= prev <= hi)
    && (forall i: nat :: i < |slots| ==> Within(b, slots[i], lo, hi))
    && (|slots| > 0 && slots[0] == 0 ==> prev == -1 && !SpecialType(b.bt[0]))
  }

  /** No coded band is left at -1, the value by which the pass knows that there was
      none yet. */
  ghost predicate NoneLost(r: Bands, slots: seq<nat>)
    requires r.Sized() && InArray(slots)
  {
    forall i: nat :: i < |slots| && r.Is(slots[i], Normal) ==> r.sf[slots[i]] != -1
  }

  lemma BandAny(b: Bands, prev: int, s: nat, l: Lookups, lo: int, hi: int)
    requires b.Sized() && s < 128 && l.Valid() && (prev == -1 || lo <= prev <= hi) && l.Len(s) >= 1
    requires Within(b, s, lo, hi) && (s == 0 ==> !SpecialType(b.bt[0]))
    ensures var (b1, p1) := PassBand(b, prev, s, l);
            && (!b1.Is(s, Normal) ==> p1 == prev)
            && (b1.Is(s, Normal) ==>
                 && b1.sf[s] == p1 && lo <= p1 <= hi && (prev != -1 ==> -60 <= p1 - prev <= 60)
                 && (prev == -1 ==> b1.sf[0] == p1))
            && (s > 0 && !(prev == -1 && b1.Is(s, Normal)) ==> b1.sf[0] == b.sf[0])
            && (s == 0 && !b1.Is(0, Normal) && prev == -1 ==> b1.sf[0] == b.sf[0])
  {
    ZeroAllAt(b.z, s, l.Len(s), s);
    assert s == s + 16 * 0;
  }

  lemma LooseFacts(b: Bands, prev: int, slots: seq<nat>, l: Lookups, lo: int, hi: int)
    requires b.Sized() && InArray(slots) && l.Valid() && |slots| > 0 && Loose(b, prev, slots, l, lo, hi)
    ensures Increasing(slots) && Apart(l, slots) && (prev == -1 || lo <= prev <= hi)
    ensures Within(b, slots[0], lo, hi) && l.Len(slots[0]) >= 1
    ensures slots[0] == 0 ==> prev == -1 && !SpecialType(b.bt[0])
  {
  }

  lemma LooseStep(b: Bands, prev: int, slots: seq<nat>, l: Lookups, lo: int, hi: int)
    requires b.Sized() && InArray(slots) && l.Valid() && |slots| > 0 && Loose(b, prev, slots, l, lo, hi)
    ensures var (b1, p1) := PassBand(b, prev, slots[0], l);
            InArray(slots[1..]) && Loose(b1, p1, slots[1..], l, lo, hi)
  {
    hide PassBand;
    var s, r := slots[0], slots[1..];
    TailBefore(slots);
    ApartTail(l, slots);
    BandAny(b, prev, s, l, lo, hi);
    forall i: nat | i < |r| ensures Within(PassBand(b, prev, s, l).0, r[i], lo, hi) {
      assert r[i] == slots[i + 1] && s < r[i];
      assert Clear(l, s, slots[i + 1]) && Within(b, slots[i + 1], lo, hi);
      PassBandFrame(b, prev, s, l, r[i]);
    }
  }

  /** The band just handled is not touched again, but for the gain. */
  lemma HeadStays(b: Bands, prev: int, slots: seq<nat>, l: Lookups)
    requires b.Sized() && InArray(slots) && l.Valid() && |slots| > 0 && Increasing(slots) && Apart(l, slots)
    ensures var (b1, p1) := PassBand(b, prev, slots[0], l);
            var r := Pass(b1, p1, slots[1..], l).0;
            var s := slots[0];
            r.z[s] == b1.z[s] && r.bt[s] == b1.bt[s] && (s != 0 ==> r.sf[s] == b1.sf[s])
  {
    hide PassBand, Pass, Lookups.Valid;
    var s, rest := slots[0], slots[1..];
    var (b1, p1) := PassBand(b, prev, s, l);
    forall i: nat | i < |rest| ensures rest[i] != s && Clear(l, rest[i], s) {
      assert rest[i] == slots[i + 1];
      assert Clear(l, slots[i + 1], slots[0]);
    }
    PassFrame(b1, p1, rest, l, s);
  }

  lemma NoneLostTail(r: Bands, slots: seq<nat>)
    requires r.Sized() && InArray(slots) && |slots| > 0 && NoneLost(r, slots)
    ensures InArray(slots[1..]) && NoneLost(r, slots[1..])
    ensures r.Is(slots[0], Normal) ==> r.sf[slots[0]] != -1
  {
    assert forall i: nat :: i < |slots[1..]| ==> slots[1..][i] == slots[i + 1];
  }

  /** The gain stays once a band is chained, and is never out of bounds. */
  lemma {:induction false} GainAny(b: Bands, prev: int, slots: seq<nat>, l: Lookups, lo: int, hi: int)
    requires b.Sized() && InArray(slots) && l.Valid() && Loose(b, prev, slots, l, lo, hi) && Before(0, slots)
    ensures var (r, p) := Pass(b, prev, slots, l);
            && (r.sf[0] == b.sf[0] || lo <= r.sf[0] <= hi)
            && (prev != -1 && NoneLost(r, slots) ==> r.sf[0] == b.sf[0] && p != -1)
    decreases |slots|
  {
    hide PassBand, Loose, Pass, Lookups.Valid, NoneLost, Within;
    PassStep(b, prev, slots, l);
    if |slots| > 0 {
      var s, rest := slots[0], slots[1..];
      var (b1, p1) := PassBand(b, prev, s, l);
      LooseFacts(b, prev, slots, l, lo, hi);
      LooseStep(b, prev, slots, l, lo, hi);
      BandAny(b, prev, s, l, lo, hi);
      TailBefore(slots);
      HeadStays(b, prev, slots, l);
      GainAny(b1, p1, rest, l, lo, hi);
      var r := Pass(b, prev, slots, l).0;
      if NoneLost(r, slots) {
        NoneLostTail(r, slots);
      }
    }
  }

  /** What the pass delivers, whatever the bands hold: no value leaves the bounds of
      the values that came in, and unless a coded band ends at -1 the chain is codable
      and starts at the gain. */
  ghost predicate Delivered(b: Bands, r: Bands, p: int, prev: int, slots: seq<nat>, lo: int, hi: int)
    requires b.Sized() && r.Sized() && InArray(slots)
  {
    && InRange(r, slots, Normal, lo, hi)
    && (NoneLost(r, slots) ==>
         && ChainOk(r, slots, Normal, if prev == -1 then None else Some(prev))
         && (prev == -1 && p == -1 ==> FirstOf(r, slots, Normal) == None && r.sf[0] == b.sf[0])
         && (prev == -1 && p != -1 ==> FirstOf(r, slots, Normal) == Some(r.sf[0])))
  }

  lemma {:induction false} PassAny(b: Bands, prev: int, slots: seq<nat>, l: Lookups, lo: int, hi: int)
    requires b.Sized() && InArray(slots) && l.Valid() && Loose(b, prev, slots, l, lo, hi)
    ensures Delivered(b, Pass(b, prev, slots, l).0, Pass(b, prev, slots, l).1, prev, slots, lo, hi)
    decreases |slots|
  {
    hide PassBand, Loose, Pass, Lookups.Valid, NoneLost, Within, Delivered;
    PassStep(b, prev, slots, l);
    if |slots| > 0 {
      var s, rest := slots[0], slots[1..];
      var (b1, p1) := PassBand(b, prev, s, l);
      LooseFacts(b, prev, slots, l, lo, hi);
      LooseStep(b, prev, slots, l, lo, hi);
      BandAny(b, prev, s, l, lo, hi);
      TailBefore(slots);
      HeadStays(b, prev, slots, l);
      GainAny(b1, p1, rest, l, lo, hi);
      PassAny(b1, p1, rest, l, lo, hi);
      var (r, p) := Pass(b, prev, slots, l);
      DeliveredPush(b, b1, r, p, prev, p1, slots, lo, hi);
    } else {
      DeliveredNone(b, prev, lo, hi);
    }
  }

  lemma DeliveredNone(b: Bands, prev: int, lo: int, hi: int)
    requires b.Sized()
    ensures InArray([]) && Delivered(b, b, prev, prev, [], lo, hi)
  {
  }

  lemma DeliveredPush(b: Bands, b1: Bands, r: Bands, p: int, prev: int, p1: int, slots: seq<nat>, lo: int, hi: int)
    requires b.Sized() && b1.Sized() && r.Sized() && InArray(slots) && |slots| > 0 && InArray(slots[1..])
    requires Increasing(slots) && Delivered(b1, r, p, p1, slots[1..], lo, hi)
    requires var s := slots[0];
             && r.z[s] == b1.z[s] && r.bt[s] == b1.bt[s] && (s != 0 ==> r.sf[s] == b1.sf[s])
             && (r.sf[0] == b1.sf[0] || lo <= r.sf[0] <= hi)
             && (p1 != -1 && NoneLost(r, slots[1..]) ==> r.sf[0] == b1.sf[0] && p != -1)
             && (!b1.Is(s, Normal) ==> p1 == prev)
             && (b1.Is(s, Normal) ==>
                  && b1.sf[s] == p1 && lo <= p1 <= hi && (prev != -1 ==> -60 <= p1 - prev <= 60)
                  && (prev == -1 ==> b1.sf[0] == p1))
             && (s > 0 && !(prev == -1 && b1.Is(s, Normal)) ==> b1.sf[0] == b.sf[0])
             && (s == 0 && !b1.Is(0, Normal) && prev == -1 ==> b1.sf[0] == b.sf[0])
    requires slots[0] == 0 ==> prev == -1
    ensures Delivered(b, r, p, prev, slots, lo, hi)
  {
    InRangeStep(r, slots, Normal, lo, hi);
    if NoneLost(r, slots) {
      NoneLostTail(r, slots);
      if slots[0] == 0 && b1.Is(0, Normal) && p1 == -1 {
        ChainFromFirst(r, slots[1..], Normal, r.sf[0]);
      }
    }
  }

  /** The whole pass on any bands with values in lo..hi. */
  lemma FinalAny(b: Bands, slots: seq<nat>, l: Lookups, lo: int, hi: int)
    requires b.Sized() && InArray(slots) && l.Valid() && Loose(b, -1, slots, l, lo, hi)
    ensures var r := Final(b, slots, l);
            && InRange(r, slots, Normal, lo, hi)
            && (NoneLost(r, slots) ==> ChainOk(r, slots, Normal, Some(r.sf[0])))
  {
    hide Pass, ChainOk, FirstOf, FillForward, Lookups.Valid, Loose;
    var (p, prev) := Pass(b, -1, slots, l);
    PassAny(b, -1, slots, l, lo, hi);
    var r := Final(b, slots, l);
    forall t: nat | t < 128
      ensures r.z == p.z && r.bt == p.bt && (p.Is(t, Normal) || t == 0 ==> r.sf[t] == p.sf[t])
    {
      FillIs(p, p.sf[0], slots, t);
    }
    assert NoneLost(r, slots) <==> NoneLost(p, slots);
    if NoneLost(p, slots) {
      ChainFromFirst(p, slots, Normal, p.sf[0]);
      ChainFrame(p, r, slots, Normal, Some(p.sf[0]));
    }
  }

  // ----- what can go wrong

  /** Three bands of a long window: the first zero, the second without coefficients
      and left at stale by an earlier frame, the third set to 100 by the search. */
  function Stale(stale: int): (b: Bands)
    ensures b.Sized()
  {
    Bands(seq(128, i => i == 0 || i > 2), seq(128, _ => 0),
          seq(128, i => if i == 1 then stale else if i == 2 then 100 else 0))
  }

  function OneBook(): Lookups {
    Lookups([1, 0, 0, 0, 0, 0, 0, 0], 1, seq(128, i requires 0 <= i < 128 => i), (s, sf) => if s == 2 then 1 else 0)
  }

  lemma StaleIsLoose(stale: int)
    requires -155 <= stale < 0
    ensures OneBook().Valid() && Loose(Stale(stale), -1, [0, 1, 2], OneBook(), -155, 255)
  {
  }

  /** The three steps of the pass, the gain being kept in the first slot. */
  lemma StaleSteps(stale: int)
    requires -155 <= stale < 0
    ensures OneBook().Valid()
    ensures var b := Stale(stale);
            var last := if stale == -1 then 100 else Clip(100, stale - 60, stale + 60);
            var b1 := Bands(b.z, b.bt[1 := 1], b.sf[0 := stale]);
            var b2 := Bands(b.z, b.bt[1 := 1][2 := 1],
                            b.sf[0 := if stale == -1 then 100 else stale][2 := last]);
            && PassBand(b, -1, 0, OneBook()) == (b, -1)
            && PassBand(b, -1, 1, OneBook()) == (b1, stale)
            && PassBand(b1, stale, 2, OneBook()) == (b2, last)
  {
    var b := Stale(stale);
    assert b.bt[0 := 0] == b.bt && b.sf[1 := stale] == b.sf;
    var last := if stale == -1 then 100 else Clip(100, stale - 60, stale + 60);
    assert b.sf[0 := stale][2 := last][0 := last] == b.sf[0 := last][2 := last];
  }

  lemma PassThree(b: Bands, prev: int, s0: nat, s1: nat, s2: nat, l: Lookups)
    requires b.Sized() && l.Valid() && s0 < 128 && s1 < 128 && s2 < 128
    ensures InArray([s0, s1, s2])
    ensures var (b0, p0) := PassBand(b, prev, s0, l);
            var (b1, p1) := PassBand(b0, p0, s1, l);
            Pass(b, prev, [s0, s1, s2], l) == PassBand(b1, p1, s2, l)
  {
    hide PassBand;
    assert [s0, s1, s2][1..] == [s1, s2] && [s1, s2][1..] == [s2] && [s2][1..] == [];
    var (b0, p0) := PassBand(b, prev, s0, l);
    var (b1, p1) := PassBand(b0, p0, s1, l);
    var (b2, p2) := PassBand(b1, p1, s2, l);
    PassEmpty(b2, p2, l);
    assert Pass(b1, p1, [s2], l) == (b2, p2);
    assert Pass(b0, p0, [s1, s2], l) == (b2, p2);
  }

  lemma PassEmpty(b: Bands, prev: int, l: Lookups)
    requires b.Sized() && l.Valid()
    ensures Pass(b, prev, [], l) == (b, prev)
  {
  }

  lemma StalePass(stale: int)
    requires -155 <= stale < 0
    ensures OneBook().Valid()
    ensures var r := Final(Stale(stale), [0, 1, 2], OneBook());
            && r.bt[..3] == [0, 1, 1] && r.sf[1] == stale
            && r.sf[0] == if stale == -1 then 100 else stale
  {
    hide Pass, PassBand, FillForward;
    StaleSteps(stale);
    var b, l := Stale(stale), OneBook();
    PassThree(b, -1, 0, 1, 2, l);
    var (p, prev) := Pass(b, -1, [0, 1, 2], l);
    FillIs(p, p.sf[0], [0, 1, 2], 0);
    FillIs(p, p.sf[0], [0, 1, 2], 1);
  }

  /** A band left at -1 breaks the chain: the delta from the gain has no code, and the
      writer fails. Left at another negative value it makes the gain negative. */
  lemma StaleBreaks()
    ensures var r := Final(Stale(-1), [0, 1, 2], OneBook());
            !AllCodable(Pick(r.bt, [0, 1, 2]), Pick(r.sf, [0, 1, 2]), 0, StartChains(r.sf[0]))
    ensures Final(Stale(-50), [0, 1, 2], OneBook()).sf[0] == -50
    ensures Loose(Stale(-1), -1, [0, 1, 2], OneBook(), -155, 255)
    ensures Loose(Stale(-50), -1, [0, 1, 2], OneBook(), -155, 255)
  {
    hide Loose;
    StaleIsLoose(-1);
    StaleIsLoose(-50);
    StalePass(-1);
    StalePass(-50);
    hide Final;
    var r := Final(Stale(-1), [0, 1, 2], OneBook());
    var bt, sf := Pick(r.bt, [0, 1, 2]), Pick(r.sf, [0, 1, 2]);
    assert r.bt[..3][0] == 0 && r.bt[..3][1] == 1;
    assert bt[0] == 0 && bt[1] == 1 && sf[1] == -1;
    assert !AllCodable(bt, sf, 1, StartChains(100));
  }
}
