/** The last pass of the NMR search: it clips the scalefactors of the normal bands
    into one codable chain, picks their least codebooks, drops bands that need no
    coding where the chain allows it, and sets the global gain. */
module FinalPass {
  import opened AacSyntax
  import opened AacParse
  import opened ScalefactorChain

  /** What the pass looks up: the window groups, the successor of each coded
      band, and the least codebook of a band at a scalefactor. */
  datatype Lookups = Lookups(gl: seq<nat>, n: nat, next: seq<nat>, minBook: (nat, int) -> nat)
  {
    /** The number of windows the band of a slot stands for. */
    function Len(s: nat): nat {
      if n == 1 || s / 16 >= |gl| then 1 else gl[s / 16]
    }

    ghost predicate Valid() {
      && |gl| == 8 && |next| == 128 && (forall s: nat :: s < 128 ==> next[s] < 128)
      && (forall s: nat, sf: int :: minBook(s, sf) <= ESC_BT)
    }
  }

  /** The slots do not meet each other's further windows. */
  ghost predicate Apart(l: Lookups, slots: seq<nat>) {
    && (forall i: nat :: i < |slots| ==> l.Len(slots[i]) >= 1)
    && forall i: nat, j: nat :: i < |slots| && j < |slots| ==> Clear(l, slots[i], slots[j])
  }

  ghost predicate Clear(l: Lookups, s: nat, t: nat) {
    forall k: nat :: 1 <= k < l.Len(s) ==> t != s + 16 * k
  }

  /** The zero flag of the band in all its windows. */
  function ZeroAll(z: seq<bool>, s: nat, len: nat): (r: seq<bool>)
    ensures |r| == |z|
    decreases len
  {
    if len == 0 then z
    else
      var r := ZeroAll(z, s, len - 1);
      if s + 16 * (len - 1) < |r| then r[s + 16 * (len - 1) := true] else r
  }

  lemma {:induction false} ZeroAllAt(z: seq<bool>, s: nat, len: nat, t: nat)
    requires t < |z|
    ensures z[t] ==> ZeroAll(z, s, len)[t]
    ensures (forall k: nat :: k < len ==> t != s + 16 * k) ==> ZeroAll(z, s, len)[t] == z[t]
    ensures (exists k: nat :: k < len && t == s + 16 * k) ==> ZeroAll(z, s, len)[t]
    decreases len
  {
    if len > 0 {
      ZeroAllAt(z, s, len - 1, t);
      if t == s + 16 * (len - 1) {
        assert ZeroAll(z, s, len)[t];
      } else {
        assert ZeroAll(z, s, len)[t] == ZeroAll(z, s, len - 1)[t];
      }
    }
  }

  predicate CanRemove(b: Bands, next: nat, prev: int)
    requires b.Sized() && next < 128
  {
    prev >= 0 && prev - SCALE_MAX_DIFF <= b.sf[next] <= prev + SCALE_MAX_DIFF
  }

  /** One band; prev is the last coded scalefactor, -1 before the first. */
  function PassBand(b: Bands, prev: int, s: nat, l: Lookups): (r: (Bands, int))
    requires b.Sized() && s < 128 && l.Valid()
    ensures r.0.Sized()
  {
    if b.bt[s] == NOISE_BT || b.bt[s] == INTENSITY_BT || b.bt[s] == INTENSITY_BT2 then (b, prev)
    else if b.z[s] then (b.(bt := b.bt[s := 0]), prev)
    else
      var v := if prev != -1 then Clip(b.sf[s], prev - SCALE_MAX_DIFF, prev + SCALE_MAX_DIFF) else b.sf[s];
      var b1 := b.(sf := b.sf[s := v]);
      var cb := l.minBook(s, v);
      if cb <= 0 && CanRemove(b1, l.next[s], prev) then
        (b1.(z := ZeroAll(b1.z, s, l.Len(s)), bt := b1.bt[s := 0]), prev)
      else
        var b2 := b1.(bt := b1.bt[s := if cb <= 0 then 1 else cb]);
        (if prev == -1 then b2.(sf := b2.sf[0 := v]) else b2, v)
  }

  function Pass(b: Bands, prev: int, slots: seq<nat>, l: Lookups): (r: (Bands, int))
    requires b.Sized() && InArray(slots) && l.Valid()
    ensures r.0.Sized()
    decreases |slots|
  {
    if |slots| == 0 then (b, prev)
    else
      var (b1, p1) := PassBand(b, prev, slots[0], l);
      Pass(b1, p1, slots[1..], l)
  }

  /** Forward fill: every other band gets the last coded scalefactor. */
  function FillForward(b: Bands, last: int, slots: seq<nat>): (r: Bands)
    requires b.Sized() && InArray(slots)
    ensures r.Sized()
    decreases |slots|
  {
    if |slots| == 0 then b
    else
      var s := slots[0];
      if b.Is(s, Normal) then FillForward(b, b.sf[s], slots[1..])
      else if b.bt[s] < RESERVED_BT && s > 0 then FillForward(b.(sf := b.sf[s := last]), last, slots[1..])
      else FillForward(b, last, slots[1..])
  }

  function Final(b: Bands, slots: seq<nat>, l: Lookups): (r: Bands)
    requires b.Sized() && InArray(slots) && l.Valid()
    ensures r.Sized()
  {
    var (b1, prev) := Pass(b, -1, slots, l);
    if prev != -1 then FillForward(b1, b1.sf[0], slots) else b1
  }

  // ----- what the pass establishes

  /** Normal coded bands have a codebook; bands flagged zero are flagged in all
      their windows. */
  ghost predicate Tidy(b: Bands, slots: seq<nat>, l: Lookups)
    requires b.Sized() && InArray(slots)
  {
    forall i: nat :: i < |slots| ==> TidySlot(b, slots[i], l)
  }

  ghost predicate TidySlot(b: Bands, s: nat, l: Lookups)
    requires b.Sized() && s < 128
  {
    && (b.Is(s, Normal) ==> 1 <= b.bt[s] <= ESC_BT)
    && SubsZero(b, s, l)
  }

  ghost predicate SubsZero(b: Bands, s: nat, l: Lookups)
    requires b.Sized() && s < 128
  {
    b.z[s] ==> forall k: nat :: k < l.Len(s) && s + 16 * k < 128 ==> b.z[s + 16 * k]
  }

  /** The scalefactor of the first band of the kind. */
  function FirstOf(b: Bands, slots: seq<nat>, k: Kind): Option<int>
    requires b.Sized() && InArray(slots)
    decreases |slots|
  {
    if |slots| == 0 then None else if b.Is(slots[0], k) then Some(b.sf[slots[0]]) else FirstOf(b, slots[1..], k)
  }

  /** A band to be coded from its coefficients has a scalefactor in range. */
  ghost predicate Solved(b: Bands, s: nat)
    requires b.Sized() && s < 128
  {
    !b.z[s] && !SpecialType(b.bt[s]) ==> 0 <= b.sf[s] <= 255
  }

  predicate SpecialType(bt: nat) {
    bt == NOISE_BT || bt == INTENSITY_BT || bt == INTENSITY_BT2
  }

  ghost predicate PassPre(b: Bands, prev: int, slots: seq<nat>, l: Lookups)
    requires b.Sized() && InArray(slots) && l.Valid()
  {
    && Increasing(slots) && Apart(l, slots)
    && -1 <= prev <= 255
    && (forall i: nat :: i < |slots| ==> Solved(b, slots[i]))
    && (forall i: nat :: i < |slots| ==> SubsZero(b, slots[i], l))
    && (|slots| > 0 && slots[0] == 0 ==> !SpecialType(b.bt[0]))
  }

  /** What one band of the pass does and does not touch. */
  lemma PassBandIs(b: Bands, prev: int, s: nat, l: Lookups)
    requires b.Sized() && s < 128 && l.Valid() && -1 <= prev <= 255
    requires Solved(b, s) && SubsZero(b, s, l) && (s == 0 ==> !SpecialType(b.bt[0])) && l.Len(s) >= 1
    ensures var (b1, p1) := PassBand(b, prev, s, l);
            && TidySlot(b1, s, l) && -1 <= p1 <= 255
            && (SpecialType(b.bt[s]) ==> b1 == b)
            && (!SpecialType(b.bt[s]) ==> b1.bt[s] <= ESC_BT)
            && (!b1.Is(s, Normal) ==> p1 == prev)
            && (b1.Is(s, Normal) ==>
                 && b1.sf[s] == p1 && 0 <= p1 <= 255 && (prev != -1 ==> -60 <= p1 - prev <= 60)
                 && (prev == -1 ==> b1.sf[0] == p1))
            && (s > 0 && !(prev == -1 && b1.Is(s, Normal)) ==> b1.sf[0] == b.sf[0])
            && (s == 0 && !b1.Is(0, Normal) && prev == -1 ==> b1.sf[0] == b.sf[0])
  {
    if !SpecialType(b.bt[s]) && !b.z[s] {
      forall k: nat | k < l.Len(s) && s + 16 * k < 128 ensures ZeroAll(b.z, s, l.Len(s))[s + 16 * k] {
        ZeroAllAt(b.z, s, l.Len(s), s + 16 * k);
      }
      ZeroAllAt(b.z, s, l.Len(s), s);
      assert s == s + 16 * 0;
      var v := if prev != -1 then Clip(b.sf[s], prev - SCALE_MAX_DIFF, prev + SCALE_MAX_DIFF) else b.sf[s];
      assert l.minBook(s, v) <= ESC_BT;
    }
  }

  /** Nothing but the band's own slot, its further windows' flags and the gain
      changes. */
  lemma PassBandFrame(b: Bands, prev: int, s: nat, l: Lookups, t: nat)
    requires b.Sized() && s < 128 && t < 128 && l.Valid() && t != s && Clear(l, s, t)
    ensures var b1 := PassBand(b, prev, s, l).0;
            && b1.z[t] == b.z[t] && b1.bt[t] == b.bt[t] && (t != 0 ==> b1.sf[t] == b.sf[t])
  {
    ZeroAllAt(b.z, s, l.Len(s), t);
    assert forall k: nat :: k < l.Len(s) ==> t != s + 16 * k;
  }

  /** Flags are only ever set. */
  lemma PassBandFlags(b: Bands, prev: int, s: nat, l: Lookups, t: nat)
    requires b.Sized() && s < 128 && t < 128 && l.Valid() && b.z[t]
    ensures PassBand(b, prev, s, l).0.z[t]
  {
    ZeroAllAt(b.z, s, l.Len(s), t);
  }

  lemma SubsKept(b: Bands, prev: int, s: nat, l: Lookups, t: nat)
    requires b.Sized() && s < 128 && t < 128 && l.Valid() && t != s && Clear(l, s, t) && SubsZero(b, t, l)
    ensures SubsZero(PassBand(b, prev, s, l).0, t, l)
  {
    var b1 := PassBand(b, prev, s, l).0;
    PassBandFrame(b, prev, s, l, t);
    if b1.z[t] {
      forall k: nat | k < l.Len(t) && t + 16 * k < 128 ensures b1.z[t + 16 * k] {
        PassBandFlags(b, prev, s, l, t + 16 * k);
      }
    }
  }

  lemma ApartTail(l: Lookups, slots: seq<nat>)
    requires |slots| > 0 && Apart(l, slots)
    ensures Apart(l, slots[1..])
  {
    var r := slots[1..];
    assert forall i: nat :: i < |r| ==> r[i] == slots[i + 1];
    forall i: nat, j: nat | i < |r| && j < |r| ensures Clear(l, r[i], r[j]) {
      assert Clear(l, slots[i + 1], slots[j + 1]);
    }
    forall i: nat | i < |r| ensures l.Len(r[i]) >= 1 {
      assert l.Len(slots[i + 1]) >= 1;
    }
  }

  /** The rest of the walk finds its bands as they were. */
  lemma PassPreStep(b: Bands, prev: int, slots: seq<nat>, l: Lookups)
    requires b.Sized() && InArray(slots) && l.Valid() && |slots| > 0 && PassPre(b, prev, slots, l)
    ensures var (b1, p1) := PassBand(b, prev, slots[0], l);
            InArray(slots[1..]) && PassPre(b1, p1, slots[1..], l)
  {
    hide PassBand;
    var s, r := slots[0], slots[1..];
    var (b1, p1) := PassBand(b, prev, s, l);
    TailBefore(slots);
    ApartTail(l, slots);
    PassBandIs(b, prev, s, l);
    forall i: nat | i < |r| ensures Solved(b1, r[i]) && SubsZero(b1, r[i], l) {
      assert r[i] == slots[i + 1] && s < r[i];
      assert Clear(l, s, slots[i + 1]);
      PassBandFrame(b, prev, s, l, r[i]);
      SubsKept(b, prev, s, l, r[i]);
      assert Solved(b, slots[i + 1]) && SubsZero(b, slots[i + 1], l);
    }
  }

  /** Slots the walk does not meet keep what they hold; special types stay. */
  lemma {:induction false} PassFrame(b: Bands, prev: int, slots: seq<nat>, l: Lookups, t: nat)
    requires b.Sized() && InArray(slots) && l.Valid() && t < 128
    requires forall i: nat :: i < |slots| ==> slots[i] != t && Clear(l, slots[i], t)
    ensures var r := Pass(b, prev, slots, l).0;
            r.z[t] == b.z[t] && r.bt[t] == b.bt[t] && (t != 0 ==> r.sf[t] == b.sf[t])
    decreases |slots|
  {
    hide PassBand, Lookups.Valid;
    if |slots| > 0 {
      var (b1, p1) := PassBand(b, prev, slots[0], l);
      PassBandFrame(b, prev, slots[0], l, t);
      assert forall i: nat :: i < |slots[1..]| ==> slots[1..][i] == slots[i + 1];
      PassFrame(b1, p1, slots[1..], l, t);
    }
  }

  /** Once a scalefactor is chained the gain stays. */
  lemma {:induction false} GainKept(b: Bands, prev: int, slots: seq<nat>, l: Lookups)
    requires b.Sized() && InArray(slots) && l.Valid() && PassPre(b, prev, slots, l)
    requires prev != -1 && Before(0, slots)
    ensures Pass(b, prev, slots, l).0.sf[0] == b.sf[0] && Pass(b, prev, slots, l).1 != -1
    decreases |slots|
  {
    hide PassBand, PassPre;
    if |slots| > 0 {
      var (b1, p1) := PassBand(b, prev, slots[0], l);
      PassPreFacts(b, prev, slots, l);
      PassPreStep(b, prev, slots, l);
      PassBandIs(b, prev, slots[0], l);
      TailBefore(slots);
      GainKept(b1, p1, slots[1..], l);
    }
  }

  lemma PassPreFacts(b: Bands, prev: int, slots: seq<nat>, l: Lookups)
    requires b.Sized() && InArray(slots) && l.Valid() && |slots| > 0 && PassPre(b, prev, slots, l)
    ensures Increasing(slots) && Apart(l, slots) && -1 <= prev <= 255
    ensures Solved(b, slots[0]) && SubsZero(b, slots[0], l) && (slots[0] == 0 ==> !SpecialType(b.bt[0]))
            && l.Len(slots[0]) >= 1
  {
  }

  /** What the pass leaves: one chain of normal scalefactors in 0..255, every
      coded band with a codebook, the gain at the head of the chain. */
  ghost predicate Passed(r: Bands, slots: seq<nat>, prev: int, l: Lookups)
    requires r.Sized() && InArray(slots)
  {
    && ChainOk(r, slots, Normal, if prev == -1 then None else Some(prev))
    && InRange(r, slots, Normal, 0, 255)
    && Tidy(r, slots, l)
  }

  lemma {:induction false} PassIs(b: Bands, prev: int, slots: seq<nat>, l: Lookups)
    requires b.Sized() && InArray(slots) && l.Valid() && PassPre(b, prev, slots, l)
    ensures Passed(Pass(b, prev, slots, l).0, slots, prev, l)
    decreases |slots|
  {
    hide PassBand, PassPre, Pass, TidySlot, SubsZero, Solved, Lookups.Valid;
    PassStep(b, prev, slots, l);
    if |slots| > 0 {
      var s, rest := slots[0], slots[1..];
      var (b1, p1) := PassBand(b, prev, s, l);
      PassPreFacts(b, prev, slots, l);
      PassPreStep(b, prev, slots, l);
      PassBandIs(b, prev, s, l);
      PassIs(b1, p1, rest, l);
      var r := Pass(b1, p1, rest, l).0;
      HeadKept(b, prev, slots, l);
      PassedPush(r, slots, prev, p1, l);
    }
  }

  lemma PassStep(b: Bands, prev: int, slots: seq<nat>, l: Lookups)
    requires b.Sized() && InArray(slots) && l.Valid()
    ensures |slots| == 0 ==> Pass(b, prev, slots, l) == (b, prev)
    ensures |slots| > 0 ==>
              var (b1, p1) := PassBand(b, prev, slots[0], l);
              InArray(slots[1..]) && Pass(b, prev, slots, l) == Pass(b1, p1, slots[1..], l)
  {
  }

  /** The band just handled is not touched again. */
  lemma HeadKept(b: Bands, prev: int, slots: seq<nat>, l: Lookups)
    requires b.Sized() && InArray(slots) && l.Valid() && |slots| > 0 && PassPre(b, prev, slots, l)
    ensures var (b1, p1) := PassBand(b, prev, slots[0], l);
            var r := Pass(b1, p1, slots[1..], l).0;
            var s := slots[0];
            && r.z[s] == b1.z[s] && r.bt[s] == b1.bt[s] && (s != 0 || b1.Is(0, Normal) ==> r.sf[s] == b1.sf[s])
            && TidySlot(r, s, l)
  {
    hide PassBand, Pass, Lookups.Valid;
    var s, rest := slots[0], slots[1..];
    var (b1, p1) := PassBand(b, prev, s, l);
    PassPreFacts(b, prev, slots, l);
    PassPreStep(b, prev, slots, l);
    PassBandIs(b, prev, s, l);
    TailBefore(slots);
    forall i: nat | i < |rest| ensures rest[i] != s && Clear(l, rest[i], s) {
      assert rest[i] == slots[i + 1];
      assert Clear(l, slots[i + 1], slots[0]);
    }
    PassFrame(b1, p1, rest, l, s);
    if s == 0 && b1.Is(0, Normal) {
      GainKept(b1, p1, rest, l);
    }
    SubsStay(b1, p1, rest, l, s);
  }

  lemma {:induction false} SubsStay(b: Bands, prev: int, slots: seq<nat>, l: Lookups, t: nat)
    requires b.Sized() && InArray(slots) && l.Valid() && t < 128 && SubsZero(b, t, l)
    requires forall i: nat :: i < |slots| ==> slots[i] != t && Clear(l, slots[i], t)
    ensures SubsZero(Pass(b, prev, slots, l).0, t, l)
    decreases |slots|
  {
    hide PassBand, SubsZero, Lookups.Valid;
    if |slots| > 0 {
      var (b1, p1) := PassBand(b, prev, slots[0], l);
      SubsKept(b, prev, slots[0], l, t);
      assert forall i: nat :: i < |slots[1..]| ==> slots[1..][i] == slots[i + 1];
      SubsStay(b1, p1, slots[1..], l, t);
    }
  }

  lemma PassedPush(r: Bands, slots: seq<nat>, prev: int, p1: int, l: Lookups)
    requires r.Sized() && InArray(slots) && |slots| > 0 && InArray(slots[1..])
    requires Passed(r, slots[1..], p1, l) && TidySlot(r, slots[0], l)
    requires !r.Is(slots[0], Normal) ==> p1 == prev
    requires r.Is(slots[0], Normal) ==>
             r.sf[slots[0]] == p1 && 0 <= p1 <= 255 && (prev != -1 ==> -60 <= p1 - prev <= 60)
    ensures Passed(r, slots, prev, l)
  {
    hide TidySlot;
    InRangeStep(r, slots, Normal, 0, 255);
    forall i: nat | i < |slots| ensures TidySlot(r, slots[i], l) {
      if i > 0 {
        assert slots[1..][i - 1] == slots[i];
        assert TidySlot(r, slots[1..][i - 1], l);
      }
    }
  }

  // ----- the global gain

  /** The gain ends as the first coded scalefactor. */
  lemma {:induction false} GainIs(b: Bands, slots: seq<nat>, l: Lookups)
    requires b.Sized() && InArray(slots) && l.Valid() && PassPre(b, -1, slots, l)
    ensures var (r, p) := Pass(b, -1, slots, l);
            && (p == -1 ==> FirstOf(r, slots, Normal) == None && r.sf[0] == b.sf[0])
            && (p != -1 ==> FirstOf(r, slots, Normal) == Some(r.sf[0]))
    decreases |slots|
  {
    hide PassBand, PassPre, Pass, TidySlot, SubsZero, Solved, Lookups.Valid;
    PassStep(b, -1, slots, l);
    if |slots| > 0 {
      var s, rest := slots[0], slots[1..];
      var (b1, p1) := PassBand(b, -1, s, l);
      PassPreFacts(b, -1, slots, l);
      PassPreStep(b, -1, slots, l);
      PassBandIs(b, -1, s, l);
      HeadKept(b, -1, slots, l);
      TailBefore(slots);
      if b1.Is(s, Normal) {
        GainKept(b1, p1, rest, l);
      } else {
        GainIs(b1, rest, l);
      }
    }
  }

  lemma {:induction false} ChainFromFirst(b: Bands, slots: seq<nat>, k: Kind, v: int)
    requires b.Sized() && InArray(slots) && ChainOk(b, slots, k, None)
    requires FirstOf(b, slots, k) == None || FirstOf(b, slots, k) == Some(v)
    ensures ChainOk(b, slots, k, Some(v))
    decreases |slots|
  {
    if |slots| > 0 && !b.Is(slots[0], k) {
      ChainFromFirst(b, slots[1..], k, v);
    }
  }

  // ----- forward fill

  lemma {:induction false} FillIs(b: Bands, last: int, slots: seq<nat>, t: nat)
    requires b.Sized() && InArray(slots) && t < 128
    ensures var r := FillForward(b, last, slots);
            r.z == b.z && r.bt == b.bt && (b.Is(t, Normal) || SpecialType(b.bt[t]) || t == 0 ==> r.sf[t] == b.sf[t])
    decreases |slots|
  {
    if |slots| > 0 {
      var s := slots[0];
      if b.Is(s, Normal) {
        FillIs(b, b.sf[s], slots[1..], t);
      } else if b.bt[s] < RESERVED_BT && s > 0 {
        FillIs(b.(sf := b.sf[s := last]), last, slots[1..], t);
      } else {
        FillIs(b, last, slots[1..], t);
      }
    }
  }

  /** r differs from b at most in scalefactors that no chain looks at. */
  ghost predicate SameCoded(b: Bands, r: Bands) {
    b.Sized() && r.Sized() && r.z == b.z && r.bt == b.bt && r.sf[0] == b.sf[0]
    && forall t: nat :: t < 128 && (b.Is(t, Normal) || SpecialType(b.bt[t])) ==> r.sf[t] == b.sf[t]
  }

  lemma SameCodedPassed(b: Bands, r: Bands, slots: seq<nat>, prev: int, l: Lookups)
    requires b.Sized() && InArray(slots) && SameCoded(b, r) && Passed(b, slots, prev, l)
    ensures Passed(r, slots, prev, l) && FirstOf(r, slots, Normal) == FirstOf(b, slots, Normal)
  {
    hide ChainOk, FirstOf;
    ChainFrame(b, r, slots, Normal, if prev == -1 then None else Some(prev));
    FirstFrame(b, r, slots);
    forall i: nat | i < |slots| ensures TidySlot(r, slots[i], l) {
      assert TidySlot(b, slots[i], l);
    }
  }

  lemma {:induction false} FirstFrame(b: Bands, r: Bands, slots: seq<nat>)
    requires b.Sized() && InArray(slots) && SameCoded(b, r)
    ensures FirstOf(r, slots, Normal) == FirstOf(b, slots, Normal)
    decreases |slots|
  {
    if |slots| > 0 {
      FirstFrame(b, r, slots[1..]);
    }
  }

  /** The whole pass: the normal chain starts at the gain and is codable, all in
      0..255; special bands are as they were. */
  ghost predicate Finished(b: Bands, r: Bands, slots: seq<nat>, l: Lookups)
    requires b.Sized() && r.Sized() && InArray(slots)
  {
    && ChainOk(r, slots, Normal, Some(r.sf[0]))
    && InRange(r, slots, Normal, 0, 255)
    && Tidy(r, slots, l)
    && 0 <= r.sf[0] <= 255
    && (forall i: nat :: i < |slots| ==> SpecialKept(b, r, slots[i]))
  }

  ghost predicate SpecialKept(b: Bands, r: Bands, s: nat)
    requires b.Sized() && r.Sized() && s < 128
  {
    if SpecialType(b.bt[s]) then r.bt[s] == b.bt[s] && r.z[s] == b.z[s] && r.sf[s] == b.sf[s] else r.bt[s] <= ESC_BT
  }

  lemma FinalIs(b: Bands, slots: seq<nat>, l: Lookups)
    requires b.Sized() && InArray(slots) && l.Valid() && PassPre(b, -1, slots, l) && 0 <= b.sf[0] <= 255
    ensures Finished(b, Final(b, slots, l), slots, l)
  {
    hide PassPre, Pass, ChainOk, FirstOf, TidySlot, FillForward;
    var (p, prev) := Pass(b, -1, slots, l);
    PassIs(b, -1, slots, l);
    GainIs(b, slots, l);
    var r := Final(b, slots, l);
    forall t: nat | t < 128
        ensures r.z == p.z && r.bt == p.bt && (p.Is(t, Normal) || SpecialType(p.bt[t]) || t == 0 ==>
                                               r.sf[t] == p.sf[t]) {
      FillIs(p, p.sf[0], slots, t);
    }
    SameCodedPassed(p, r, slots, -1, l);
    ChainFromFirst(r, slots, Normal, r.sf[0]);
    FirstInRange(r, slots);
    forall i: nat | i < |slots| ensures SpecialKept(b, r, slots[i]) {
      PassSpecial(b, -1, slots, l, i);
    }
  }

  lemma {:induction false} FirstInRange(b: Bands, slots: seq<nat>)
    requires b.Sized() && InArray(slots) && InRange(b, slots, Normal, 0, 255)
    ensures FirstOf(b, slots, Normal).Some? ==> 0 <= FirstOf(b, slots, Normal).value <= 255
    decreases |slots|
  {
    if |slots| > 0 && !b.Is(slots[0], Normal) {
      InRangeStep(b, slots, Normal, 0, 255);
      FirstInRange(b, slots[1..]);
    }
  }

  lemma {:induction false} PassSpecial(b: Bands, prev: int, slots: seq<nat>, l: Lookups, i: nat)
    requires b.Sized() && InArray(slots) && l.Valid() && PassPre(b, prev, slots, l) && i < |slots|
    ensures SpecialKept(b, Pass(b, prev, slots, l).0, slots[i])
    decreases |slots|
  {
    hide PassBand, PassPre, Pass, TidySlot, SubsZero, Solved, Lookups.Valid;
    PassStep(b, prev, slots, l);
    var s, rest := slots[0], slots[1..];
    var (b1, p1) := PassBand(b, prev, s, l);
    PassPreFacts(b, prev, slots, l);
    PassPreStep(b, prev, slots, l);
    PassBandIs(b, prev, s, l);
    if i == 0 {
      HeadKept(b, prev, slots, l);
    } else {
      assert rest[i - 1] == slots[i];
      PassSpecial(b1, p1, rest, l, i - 1);
      assert Clear(l, slots[0], slots[i]);
      PassBandFrame(b, prev, s, l, slots[i]);
    }
  }
}
