/** The frame adjustment before writing: max_sfb from the zero flags, flags
    reconciled over window groups, and the M/S mode of a pair. */
module FrameAdjust {
  import opened BandWalk
  import opened SectionCoder
  import opened ScalefactorChain
  import opened SpecialBands
  import opened FinalPass
  import opened LegalChannel

  // ----- the slots of a layout do not meet each other's windows

  /** Inside a group there is no other group's first window. */
  lemma {:induction false} InsideGroup(gl: seq<nat>, w: nat, n: nat, a: nat, b: nat)
    requires n <= |gl| && Tiles(gl, w, n) && w <= a < n && gl[a] >= 1 && a < b < a + gl[a] && b < n
    ensures gl[b] == 0
    decreases n - w
  {
    if a >= w + gl[w] {
      InsideGroup(gl, w + gl[w], n, a, b);
    }
  }

  lemma {:induction false} SlotsStart(gl: seq<nat>, w: nat, n: nat, bands: nat)
    requires n <= |gl| && Tiles(gl, w, n) && bands <= 16
    ensures forall i: nat :: i < |Slots(gl, w, n, bands)| ==> GroupStart(gl, n, w, Slots(gl, w, n, bands)[i])
    decreases n - w
  {
    if w < n {
      SlotsStart(gl, w + gl[w], n, bands);
      RowSlotsAt(w, 0, bands);
      var s := Slots(gl, w, n, bands);
      forall i: nat | i < |s| ensures GroupStart(gl, n, w, s[i]) {
        if i < bands {
          assert s[i] == w * 16 + i;
        } else {
          assert s[i] == Slots(gl, w + gl[w], n, bands)[i - bands];
          assert GroupStart(gl, n, w + gl[w], Slots(gl, w + gl[w], n, bands)[i - bands]);
        }
      }
    }
  }

  /** The slot's window starts a group. */
  ghost predicate GroupStart(gl: seq<nat>, n: nat, w: nat, s: nat)
    requires n <= |gl|
  {
    w <= s / 16 < n && gl[s / 16] >= 1
  }

  lemma SlotsApart(l: Lookups, bands: nat)
    requires |l.gl| == 8 && (l.n == 1 || l.n == 8) && Tiles(l.gl, 0, l.n) && bands <= (if l.n == 1 then 51 else 15)
    ensures Apart(l, Slots(l.gl, 0, l.n, bands))
  {
    var slots := Slots(l.gl, 0, l.n, bands);
    if l.n == 8 {
      SlotsStart(l.gl, 0, l.n, bands);
      forall i: nat, j: nat | i < |slots| && j < |slots| ensures Clear(l, slots[i], slots[j]) {
        assert GroupStart(l.gl, l.n, 0, slots[i]) && GroupStart(l.gl, l.n, 0, slots[j]);
        forall k: nat | 1 <= k < l.Len(slots[i]) ensures slots[j] != slots[i] + 16 * k {
          if slots[j] == slots[i] + 16 * k {
            assert slots[j] / 16 == slots[i] / 16 + k;
            InsideGroup(l.gl, 0, l.n, slots[i] / 16, slots[j] / 16);
          }
        }
      }
      forall i: nat | i < |slots| ensures l.Len(slots[i]) >= 1 {
        assert GroupStart(l.gl, l.n, 0, slots[i]);
      }
    }
  }

  // ----- max_sfb

  /** One more than the last band that is not zero, at most hi. */
  function LastCoded(z: seq<bool>, w: nat, hi: nat): (m: nat)
    requires w * 16 + hi <= |z|
    ensures m <= hi
  {
    if hi == 0 || !z[w * 16 + hi - 1] then hi else LastCoded(z, w, hi - 1)
  }

  function Max(a: nat, b: nat): nat {
    if a >= b then a else b
  }

  function MaxSfb(z: seq<bool>, gl: seq<nat>, w: nat, n: nat, hi: nat, most: nat): nat
    requires n <= |gl| && Tiles(gl, w, n) && |z| == 128 && n <= 8 && hi <= (if n == 1 then 51 else 15)
    decreases n - w
  {
    if w >= n then most else MaxSfb(z, gl, w + gl[w], n, hi, Max(most, LastCoded(z, w, hi)))
  }

  lemma {:induction false} LastCodedIs(z: seq<bool>, w: nat, hi: nat)
    requires w * 16 + hi <= |z|
    ensures RowZero(z, w, LastCoded(z, w, hi), hi)
    ensures LastCoded(z, w, hi) > 0 ==> !z[w * 16 + LastCoded(z, w, hi) - 1]
  {
    if hi > 0 && z[w * 16 + hi - 1] {
      LastCodedIs(z, w, hi - 1);
    }
  }

  /** No band above max_sfb is coded. */
  lemma {:induction false} MaxSfbCovers(z: seq<bool>, gl: seq<nat>, w: nat, n: nat, hi: nat, most: nat)
    requires n <= |gl| && Tiles(gl, w, n) && |z| == 128 && n <= 8 && hi <= (if n == 1 then 51 else 15)
    ensures var m := MaxSfb(z, gl, w, n, hi, most);
            m >= most && (most <= hi ==> m <= hi) && TailsZero(z, gl, w, n, m, hi)
    decreases n - w
  {
    if w < n {
      LastCodedIs(z, w, hi);
      MaxSfbCovers(z, gl, w + gl[w], n, hi, Max(most, LastCoded(z, w, hi)));
    }
  }

  /** Nor is it larger than it has to be: a group has its last band coded. */
  lemma {:induction false} MaxSfbLeast(z: seq<bool>, gl: seq<nat>, w: nat, n: nat, hi: nat, most: nat)
    requires n <= |gl| && Tiles(gl, w, n) && |z| == 128 && n <= 8 && hi <= (if n == 1 then 51 else 15)
    ensures var m := MaxSfb(z, gl, w, n, hi, most);
            m == most || (m > 0 && SomeCoded(z, gl, n, m - 1))
    decreases n - w
  {
    if w < n {
      LastCodedIs(z, w, hi);
      var c := LastCoded(z, w, hi);
      MaxSfbLeast(z, gl, w + gl[w], n, hi, Max(most, c));
      if c > 0 {
        assert CodedIn(z, gl, n, w, c - 1);
      }
    }
  }

  ghost predicate SomeCoded(z: seq<bool>, gl: seq<nat>, n: nat, band: nat)
    requires n <= |gl|
  {
    exists v: nat :: CodedIn(z, gl, n, v, band)
  }

  /** The band is coded in the group that starts with window v. */
  predicate CodedIn(z: seq<bool>, gl: seq<nat>, n: nat, v: nat, band: nat)
    requires n <= |gl|
  {
    v < n && gl[v] >= 1 && v * 16 + band < |z| && !z[v * 16 + band]
  }

  /** The tails stay zero under a larger bound. */
  lemma {:induction false} TailsUp(z: seq<bool>, gl: seq<nat>, w: nat, n: nat, lo: nat, lo': nat, hi: nat)
    requires n <= |gl| && Tiles(gl, w, n) && lo <= lo' && TailsZero(z, gl, w, n, lo, hi)
    ensures TailsZero(z, gl, w, n, lo', hi)
    decreases n - w
  {
    if w < n {
      TailsUp(z, gl, w + gl[w], n, lo, lo', hi);
    }
  }

  // ----- flags over window groups

  /** The window groups alone. */
  function Layout(gl: seq<nat>, n: nat): Lookups {
    Lookups(gl, n, [], (s, sf) => 0)
  }

  function AllSubs(z: seq<bool>, s: nat, len: nat): bool
    decreases len
  {
    if len == 0 then true else AllSubs(z, s, len - 1) && (s + 16 * (len - 1) < |z| ==> z[s + 16 * (len - 1)])
  }

  function Reconciled(z: seq<bool>, slots: seq<nat>, l: Lookups): (r: seq<bool>)
    requires |z| == 128 && InArray(slots)
    ensures |r| == 128
    decreases |slots|
  {
    if |slots| == 0 then z
    else Reconciled(z[slots[0] := AllSubs(z, slots[0], l.Len(slots[0]))], slots[1..], l)
  }

  lemma {:induction false} AllSubsIs(z: seq<bool>, s: nat, len: nat)
    requires s < |z|
    ensures AllSubs(z, s, len) <==> forall k: nat :: k < len && s + 16 * k < |z| ==> z[s + 16 * k]
    decreases len
  {
    if len > 0 {
      AllSubsIs(z, s, len - 1);
    }
  }

  /** On flags that already agree, reconciling changes nothing. */
  lemma {:induction false} ReconcileIdle(b: Bands, slots: seq<nat>, l: Lookups)
    requires b.Sized() && InArray(slots) && forall i: nat :: i < |slots| ==>
             SubsZero(b, slots[i], l) && l.Len(slots[i]) >= 1
    ensures Reconciled(b.z, slots, l) == b.z
    decreases |slots|
  {
    if |slots| > 0 {
      var s := slots[0];
      assert SubsZero(b, slots[0], l);
      AllSubsIs(b.z, s, l.Len(s));
      assert s + 16 * 0 == s;
      assert b.z[s := AllSubs(b.z, s, l.Len(s))] == b.z;
      forall i: nat | i < |slots[1..]| ensures SubsZero(b, slots[1..][i], l) && l.Len(slots[1..][i]) >= 1 {
        assert slots[1..][i] == slots[i + 1];
      }
      ReconcileIdle(b, slots[1..], l);
    }
  }

  /** The flag of a band ends as whether it is zero in all windows of its group
      (AllSubsIs); no other flag changes. */
  lemma {:induction false} ReconciledAt(z: seq<bool>, slots: seq<nat>, l: Lookups, t: nat)
    requires |z| == 128 && InArray(slots) && Increasing(slots) && Apart(l, slots) && t < 128
    ensures Reconciled(z, slots, l)[t]
            == if t in slots then AllSubs(z, t, l.Len(t)) else z[t]
    decreases |slots|
  {
    hide AllSubs, Lookups.Len, Clear;
    if |slots| > 0 {
      var s, rest := slots[0], slots[1..];
      var z' := z[s := AllSubs(z, s, l.Len(s))];
      TailBefore(slots);
      ApartTail(l, slots);
      ReconciledAt(z', rest, l, t);
      assert t in slots <==> t == s || t in rest;
      if t in rest {
        var j :| 0 <= j < |rest| && rest[j] == t;
        assert slots[j + 1] == t && Clear(l, slots[j + 1], slots[0]);
        SubsApart(z, z', l, t, s);
      }
    }
  }

  lemma SubsApart(z: seq<bool>, z': seq<bool>, l: Lookups, t: nat, s: nat)
    requires |z| == |z'| == 128 && s < t < 128 && Clear(l, t, s) && z' == z[s := z'[s]]
    ensures AllSubs(z', t, l.Len(t)) == AllSubs(z, t, l.Len(t))
  {
    AllSubsIs(z, t, l.Len(t));
    AllSubsIs(z', t, l.Len(t));
    hide AllSubs, Lookups.Len;
    assert forall k: nat :: k < l.Len(t) && t + 16 * k < 128 ==> z'[t + 16 * k] == z[t + 16 * k];
  }

  lemma ReconcileStep(z: seq<bool>, s: nat, rest: seq<nat>, l: Lookups)
    requires |z| == 128 && InArray([s] + rest)
    ensures s < 128 && InArray(rest)
    ensures Reconciled(z, [s] + rest, l) == Reconciled(z[s := AllSubs(z, s, l.Len(s))], rest, l)
  {
    InArrayTail(s, rest);
  }

  method AdjustChannel(sce: SingleChannelElement)
    requires WellLaid(sce)
    modifies sce`maxSfb, sce`zeroes
    ensures WellLaid(sce)
    ensures sce.maxSfb == old(MaxSfb(sce.zeroes, sce.groupLen, 0, sce.numWindows, sce.numSwb, 0))
    ensures InArray(Slots(sce.groupLen, 0, sce.numWindows, sce.maxSfb))
    ensures sce.zeroes == Reconciled(old(sce.zeroes), Slots(sce.groupLen, 0, sce.numWindows, sce.maxSfb),
                                     Layout(sce.groupLen, sce.numWindows))
  {
    hide Tiles, Slots, RowSlots, Reconciled, InArray, Remaining, MaxSfb, AllSubs, Lookups.Len;
    var maxsfb := CountBands(sce);
    MaxSfbCovers(sce.zeroes, sce.groupLen, 0, sce.numWindows, sce.numSwb, 0);
    sce.maxSfb := maxsfb;
    ghost var z0 := sce.zeroes;
    ghost var l := Layout(sce.groupLen, sce.numWindows);
    var gl := sce.groupLen;
    SlotsFit(gl, sce.numWindows, sce.maxSfb);
    ghost var end := Reconciled(z0, Slots(gl, 0, sce.numWindows, sce.maxSfb), l);
    var w: nat := 0;
    TilesFacts(gl, 0, sce.numWindows);
    while w < sce.numWindows
      invariant WellLaid(sce) && w <= sce.numWindows && Tiles(gl, w, sce.numWindows) && sce.maxSfb == maxsfb
      invariant InArray(Slots(gl, w, sce.numWindows, sce.maxSfb))
      invariant Reconciled(sce.zeroes, Slots(gl, w, sce.numWindows, sce.maxSfb), l) == end
      decreases sce.numWindows - w
    {
      RemainingStart(gl, w, sce.numWindows, sce.maxSfb);
      var g: nat := 0;
      while g < sce.maxSfb
        invariant WellLaid(sce) && g <= sce.maxSfb && sce.maxSfb == maxsfb
        invariant InArray(Remaining(gl, w, sce.numWindows, g, sce.maxSfb))
        invariant Reconciled(sce.zeroes, Remaining(gl, w, sce.numWindows, g, sce.maxSfb), l) == end
      {
        var s := w * 16 + g;
        RemainingStep(gl, w, sce.numWindows, g, sce.maxSfb);
        ReconcileStep(sce.zeroes, s, Remaining(gl, w, sce.numWindows, g + 1, sce.maxSfb), l);
        LayoutLen(gl, sce.numWindows, w, g, sce.maxSfb, l);
        var allZero := CheckSubs(sce, w, g);
        sce.zeroes := sce.zeroes[s := allZero];
        g := g + 1;
      }
      RemainingStep(gl, w, sce.numWindows, g, sce.maxSfb);
      TilesFacts(gl, w, sce.numWindows);
      w := w + gl[w];
      TilesFacts(gl, w, sce.numWindows);
    }
    RemainingStart(gl, w, sce.numWindows, sce.maxSfb);
    ReconcileEnd(sce.zeroes, l);
  }

  lemma ReconcileEnd(z: seq<bool>, l: Lookups)
    requires |z| == 128
    ensures InArray([]) && Reconciled(z, [], l) == z
  {
  }

  lemma LayoutLen(gl: seq<nat>, n: nat, w: nat, g: nat, bands: nat, l: Lookups)
    requires |gl| == 8 && (n == 1 || n == 8) && Tiles(gl, w, n) && w < n && g < bands <= (if n == 1 then 51 else 15)
    requires l.gl == gl && l.n == n && (n == 1 ==> w == 0)
    ensures l.Len(w * 16 + g) == gl[w] && 1 <= gl[w] && w + gl[w] <= 8 && w * 16 + g < 128
  {
  }

  method CountBands(sce: SingleChannelElement) returns (maxsfb: nat)
    requires WellLaid(sce)
    ensures maxsfb == MaxSfb(sce.zeroes, sce.groupLen, 0, sce.numWindows, sce.numSwb, 0)
  {
    hide Tiles;
    maxsfb := 0;
    var gl := sce.groupLen;
    var w: nat := 0;
    TilesFacts(gl, 0, sce.numWindows);
    while w < sce.numWindows
      invariant w <= sce.numWindows && Tiles(gl, w, sce.numWindows)
      invariant MaxSfb(sce.zeroes, gl, w, sce.numWindows, sce.numSwb, maxsfb)
                == MaxSfb(sce.zeroes, gl, 0, sce.numWindows, sce.numSwb, 0)
      decreases sce.numWindows - w
    {
      TilesFacts(gl, w, sce.numWindows);
      var cmaxsfb: nat := sce.numSwb;
      while cmaxsfb > 0 && sce.zeroes[w * 16 + cmaxsfb - 1]
        invariant cmaxsfb <= sce.numSwb && LastCoded(sce.zeroes, w, cmaxsfb) == LastCoded(sce.zeroes, w, sce.numSwb)
      {
        cmaxsfb := cmaxsfb - 1;
      }
      maxsfb := Max(maxsfb, cmaxsfb);
      w := w + gl[w];
      TilesFacts(gl, w, sce.numWindows);
    }
  }

  method CheckSubs(sce: SingleChannelElement, w: nat, g: nat) returns (allZero: bool)
    requires WellLaid(sce) && w < 8 && w + sce.groupLen[w] <= 8 && w * 16 + g < 128
    ensures allZero == AllSubs(sce.zeroes, w * 16 + g, sce.groupLen[w])
  {
    allZero := true;
    var k := 0;
    AllSubsIs(sce.zeroes, w * 16 + g, sce.groupLen[w]);
    while k < sce.groupLen[w]
      invariant 0 <= k <= sce.groupLen[w]
      invariant forall j: nat :: j < k && w * 16 + g + 16 * j < 128 ==> sce.zeroes[w * 16 + g + 16 * j]
    {
      if (w + k) * 16 + g < 128 && !sce.zeroes[(w + k) * 16 + g] {
        assert (w + k) * 16 + g == w * 16 + g + 16 * k;
        return false;
      }
      k := k + 1;
    }
  }

  // ----- the M/S mode of a pair

  /** Set mask bits among the first bands of windows w.. */
  function CountMask(mask: seq<bool>, w: nat, n: nat, bands: nat): nat
    requires |mask| == 128
    decreases n - w
  {
    if w >= n then 0 else CountRow(mask, w * 16, bands) + CountMask(mask, w + 1, n, bands)
  }

  function CountRow(mask: seq<bool>, at: nat, bands: nat): nat
    requires |mask| == 128
  {
    if bands == 0 then 0
    else CountRow(mask, at, bands - 1) + (if at + bands - 1 < 128 && mask[at + bands - 1] then 1 else 0)
  }

  function MsMode(count: nat, bands: nat, windows: nat): nat {
    if count == 0 || bands == 0 then 0 else if count < bands * windows then 1 else 2
  }

  lemma {:induction false} CountRowIs(mask: seq<bool>, at: nat, bands: nat)
    requires |mask| == 128 && at + bands <= 128
    ensures CountRow(mask, at, bands) <= bands
    ensures CountRow(mask, at, bands) == 0 <==> forall i: nat :: at <= i < at + bands ==> !mask[i]
    ensures CountRow(mask, at, bands) == bands <==> forall i: nat :: at <= i < at + bands ==> mask[i]
  {
    if bands > 0 {
      CountRowIs(mask, at, bands - 1);
    }
  }

  lemma {:induction false} CountMaskIs(mask: seq<bool>, w: nat, n: nat, bands: nat)
    requires |mask| == 128 && w <= n <= 8 && bands <= (if n == 1 then 51 else 16)
    ensures CountMask(mask, w, n, bands) <= bands * (n - w)
    ensures CountMask(mask, w, n, bands) == 0 <==> forall i: nat :: i < 128 && InWindow(w, n, bands, i) ==> !mask[i]
    ensures CountMask(mask, w, n, bands) == bands * (n - w)
            <==> forall i: nat :: i < 128 && InWindow(w, n, bands, i) ==> mask[i]
    decreases n - w
  {
    if w < n {
      CountRowIs(mask, w * 16, bands);
      CountMaskIs(mask, w + 1, n, bands);
      assert bands * (n - w) == bands + bands * (n - (w + 1));
      forall i: nat
        ensures InWindow(w, n, bands, i) <==> w * 16 <= i < w * 16 + bands || InWindow(w + 1, n, bands, i)
      {
        if InWindow(w, n, bands, i) && !(w * 16 <= i < w * 16 + bands) {
          var v: nat :| w <= v < n && v * 16 <= i < v * 16 + bands;
        }
      }
    }
  }

  /** The mode is 0 exactly for a mask without a bit among the transmitted bands
      of any window, and 2 exactly for one with all of them. */
  lemma MsModeIs(mask: seq<bool>, n: nat, bands: nat)
    requires |mask| == 128 && (n == 1 || n == 8) && bands <= (if n == 1 then 51 else 15)
    ensures var mode := MsMode(CountMask(mask, 0, n, bands), bands, n);
            && (mode == 0 <==> forall i: nat :: i < 128 && InWindow(0, n, bands, i) ==> !mask[i])
            && (mode == 2 <==> bands > 0 && forall i: nat :: i < 128 && InWindow(0, n, bands, i) ==> mask[i])
            && mode <= 2
  {
    CountMaskIs(mask, 0, n, bands);
    if bands > 0 {
      assert InWindow(0, n, bands, 0);
    }
  }

  /** Whatever the mode, the decoder ends with the encoder's mask: written out in
      mode 1, all bands in mode 2, none in mode 0. */
  lemma MsModeFaithful(mask: seq<bool>, gl: seq<nat>, n: nat, bands: nat)
    requires |mask| == 128 && |gl| == 8 && (n == 1 || n == 8) && Tiles(gl, 0, n) && bands <= (if n == 1 then 51 else 15)
    ensures InArray(Slots(gl, 0, n, bands))
    ensures var mode := MsMode(CountMask(mask, 0, n, bands), bands, n);
            var slots := Slots(gl, 0, n, bands);
            && (mode == 0 ==> forall i: nat :: i < |slots| ==> !mask[slots[i]])
            && (mode == 2 ==> forall i: nat :: i < |slots| ==> mask[slots[i]])
  {
    SlotsFit(gl, n, bands);
    CountMaskIs(mask, 0, n, bands);
    SlotsBands(gl, 0, n, bands);
    if bands == 0 {
      NoSlots(gl, 0, n);
    }
  }

  lemma {:induction false} SlotsBands(gl: seq<nat>, w: nat, n: nat, bands: nat)
    requires n <= |gl| && Tiles(gl, w, n)
    ensures forall i: nat :: i < |Slots(gl, w, n, bands)| ==> InWindow(w, n, bands, Slots(gl, w, n, bands)[i])
    decreases n - w
  {
    if w < n {
      SlotsBands(gl, w + gl[w], n, bands);
      RowSlotsAt(w, 0, bands);
      var s := Slots(gl, w, n, bands);
      forall i: nat | i < |s| ensures InWindow(w, n, bands, s[i]) {
        if i < bands {
          assert s[i] == w * 16 + i;
        } else {
          var t := Slots(gl, w + gl[w], n, bands)[i - bands];
          assert s[i] == t && InWindow(w + gl[w], n, bands, t);
          var v: nat :| w + gl[w] <= v < n && v * 16 <= t < v * 16 + bands;
        }
      }
    }
  }

  ghost predicate InWindow(w: nat, n: nat, bands: nat, s: nat) {
    exists v: nat :: w <= v < n && v * 16 <= s < v * 16 + bands
  }

  method CountMaskBits(mask: seq<bool>, n: nat, bands: nat) returns (msc: nat)
    requires |mask| == 128 && (n == 1 || n == 8) && bands <= (if n == 1 then 51 else 15)
    ensures msc == CountMask(mask, 0, n, bands)
  {
    msc := 0;
    var w := 0;
    while w < n
      invariant 0 <= w <= n && msc + CountMask(mask, w, n, bands) == CountMask(mask, 0, n, bands)
    {
      var i := 0;
      ghost var before := msc;
      while i < bands
        invariant 0 <= i <= bands && msc == before + CountRow(mask, w * 16, i)
      {
        if mask[w * 16 + i] {
          msc := msc + 1;
        }
        i := i + 1;
      }
      w := w + 1;
    }
  }

  /** A pair with a common window gets one max_sfb, and its M/S mode. */
  method AdjustPair(sce0: SingleChannelElement, sce1: SingleChannelElement, mask: seq<bool>) returns (mode: nat)
    requires sce0 != sce1 && WellLaid(sce0) && WellLaid(sce1) && |mask| == 128
    requires sce0.numWindows == sce1.numWindows && sce0.numSwb == sce1.numSwb
    modifies sce0`maxSfb, sce1`maxSfb
    ensures WellLaid(sce0) && WellLaid(sce1)
    ensures sce0.maxSfb == sce1.maxSfb == Max(old(sce0.maxSfb), old(sce1.maxSfb))
    ensures mode == MsMode(CountMask(mask, 0, sce0.numWindows, sce0.maxSfb), sce0.maxSfb, sce0.numWindows)
  {
    sce0.maxSfb := Max(sce0.maxSfb, sce1.maxSfb);
    sce1.maxSfb := sce0.maxSfb;
    var n, bands := sce0.numWindows, sce0.maxSfb;
    var msc := CountMaskBits(mask, n, bands);
    if msc == 0 || bands == 0 {
      mode := 0;
    } else if msc < bands * n {
      mode := 1;
    } else {
      mode := 2;
    }
  }
}
