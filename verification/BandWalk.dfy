/** The encoder's walk over its band arrays: group by group, slot w*16+b for band b
    of the group that starts at window w. */
module BandWalk {
  import opened AacSyntax

  /** From window w on, group lengths tile the n windows; the windows inside a
      group have length 0. */
  predicate Tiles(gl: seq<nat>, w: nat, n: nat)
    requires n <= |gl|
    decreases n - w
  {
    if w >= n then w == n
    else 1 <= gl[w] <= n - w && (forall i :: w < i < w + gl[w] ==> gl[i] == 0) && Tiles(gl, w + gl[w], n)
  }

  /** The lengths of the groups from window w on. */
  function Groups(gl: seq<nat>, w: nat, n: nat): seq<nat>
    requires n <= |gl| && Tiles(gl, w, n)
    decreases n - w
  {
    if w >= n then [] else [gl[w]] + Groups(gl, w + gl[w], n)
  }

  /** The slots of bands b.. of the group at window w. */
  function RowSlots(w: nat, b: nat, bands: nat): seq<nat>
    decreases bands - b
  {
    if b >= bands then [] else [w * 16 + b] + RowSlots(w, b + 1, bands)
  }

  /** The slots of all groups from window w on. */
  function Slots(gl: seq<nat>, w: nat, n: nat, bands: nat): seq<nat>
    requires n <= |gl| && Tiles(gl, w, n)
    decreases n - w
  {
    if w >= n then [] else RowSlots(w, 0, bands) + Slots(gl, w + gl[w], n, bands)
  }

  /** The values of an array at the given slots. */
  function Pick<T>(a: seq<T>, slots: seq<nat>): (r: seq<T>)
    requires forall i :: 0 <= i < |slots| ==> slots[i] < |a|
    ensures |r| == |slots|
  {
    seq(|slots|, i requires 0 <= i < |slots| => a[slots[i]])
  }

  lemma {:induction false} RowSlotsAt(w: nat, b: nat, bands: nat)
    requires b <= bands
    ensures |RowSlots(w, b, bands)| == bands - b
    ensures forall i :: 0 <= i < bands - b ==> RowSlots(w, b, bands)[i] == w * 16 + b + i
    decreases bands - b
  {
    if b < bands {
      RowSlotsAt(w, b + 1, bands);
    }
  }

  /** Slots lie within their windows, in increasing order. */
  lemma {:induction false} SlotsOrdered(gl: seq<nat>, w: nat, n: nat, bands: nat)
    requires n <= |gl| && Tiles(gl, w, n) && bands <= (if n == 1 then 51 else 16)
    ensures forall i :: 0 <= i < |Slots(gl, w, n, bands)| ==>
            w * 16 <= Slots(gl, w, n, bands)[i] < (if n == 1 then 51 else n * 16)
    ensures forall i, j :: 0 <= i < j < |Slots(gl, w, n, bands)| ==>
            Slots(gl, w, n, bands)[i] < Slots(gl, w, n, bands)[j]
    decreases n - w
  {
    if w < n {
      RowSlotsAt(w, 0, bands);
      SlotsOrdered(gl, w + gl[w], n, bands);
    }
  }

  lemma SlotsInArray(gl: seq<nat>, n: nat, bands: nat)
    requires |gl| == 8 && (n == 1 || n == 8) && Tiles(gl, 0, n) && bands <= (if n == 1 then 51 else 15)
    ensures forall i :: 0 <= i < |Slots(gl, 0, n, bands)| ==> Slots(gl, 0, n, bands)[i] < 128
  {
    SlotsOrdered(gl, 0, n, bands);
  }

  lemma {:induction false} GroupsSum(gl: seq<nat>, w: nat, n: nat)
    requires n <= |gl| && Tiles(gl, w, n)
    ensures Sum(Groups(gl, w, n)) == n - w
    ensures forall i :: 0 <= i < |Groups(gl, w, n)| ==> Groups(gl, w, n)[i] >= 1
    decreases n - w
  {
    if w < n {
      GroupsSum(gl, w + gl[w], n);
      assert Groups(gl, w, n)[1..] == Groups(gl, w + gl[w], n);
    }
  }

  /** The number of slots is the number of (group, band) pairs. */
  lemma {:induction false} SlotsCount(gl: seq<nat>, w: nat, n: nat, geo: Geo, g: nat)
    requires n <= |gl| && Tiles(gl, w, n) && g <= |geo.groups| && geo.groups[g..] == Groups(gl, w, n)
    ensures |Slots(gl, w, n, geo.maxSfb)| == geo.BandsFrom(g)
    decreases n - w
  {
    if w < n {
      RowSlotsAt(w, 0, geo.maxSfb);
      assert |geo.groups[g..]| > 0;
      assert geo.groups[g + 1..] == geo.groups[g..][1..] == Groups(gl, w + gl[w], n);
      SlotsCount(gl, w + gl[w], n, geo, g + 1);
    }
  }
}
