/** Which bands the final scalefactor pass keeps, and with which scalefactor and
    codebook. */
module FinalValues {
  import opened AacSyntax
  import opened AacParse
  import opened FinalPass
  import opened FinalPassCoder
  import opened ScalefactorChain
  import opened SpecialLevels

  /** The lookup links each coded band to the next one. */
  ghost predicate Linked(b: Bands, slots: seq<nat>, l: Lookups)
    requires b.Sized() && InArray(slots) && |l.next| == 128
  {
    forall i: nat :: i < |slots| && b.Is(slots[i], Normal) ==>
      l.next[slots[i]] == NextCoded(b, slots[i], slots[i + 1..])
  }

  /** The map the encoder builds does. */
  lemma LinksAreLinked(b: Bands, slots: seq<nat>, l: Lookups)
    requires b.Sized() && InArray(slots) && Increasing(slots) && l.next == Links(Identity(), 0, b, slots)
    ensures Linked(b, slots, l)
  {
    hide Links, NextCoded;
    if |slots| > 0 && slots[0] == 0 {
      var rest := slots[1..];
      TailBefore(slots);
      LinksStep(Identity(), 0, b, 0, rest);
      assert [0] + rest == slots && Identity()[0 := 0] == Identity();
      LinkIsNext(Identity(), 0, b, rest);
      forall i: nat | i < |slots| && b.Is(slots[i], Normal)
        ensures l.next[slots[i]] == NextCoded(b, slots[i], slots[i + 1..])
      {
        if i > 0 {
          assert rest[i - 1] == slots[i] && rest[i..] == slots[i + 1..];
          assert rest[i - 1 + 1..] == rest[i..];
        }
      }
    } else if |slots| > 0 {
      LinkIsNext(Identity(), 0, b, slots);
    }
  }

  /** The scalefactor a band gets behind the last coded one, p: its own, or the
      nearest to it that the chain can carry. */
  function Value(b: Bands, s: nat, p: int): int
    requires b.Sized() && s < 128
  {
    if p == -1 then b.sf[s] else Within60(b.sf[s], p)
  }

  /** A band without need of a codebook goes when the next coded band can follow
      the last one in its place. */
  predicate Goes(b: Bands, s: nat, n: nat, p: int, l: Lookups)
    requires b.Sized() && s < 128 && n < 128
  {
    && l.minBook(s, Value(b, s, p)) == 0 && p != -1
    && -60 <= (if n == s then Value(b, s, p) else b.sf[n]) - p <= 60
  }

  ghost predicate Decided(b: Bands, r: Bands, s: nat, n: nat, p: int, l: Lookups)
    requires b.Sized() && r.Sized() && s < 128 && n < 128
  {
    if Goes(b, s, n, p, l) then r.z[s]
    else
      && !r.z[s] && r.sf[s] == Value(b, s, p)
      && r.bt[s] == if l.minBook(s, r.sf[s]) == 0 then 1 else l.minBook(s, r.sf[s])
  }

  lemma {:induction false} NextIn(b: Bands, s: nat, slots: seq<nat>)
    requires b.Sized() && InArray(slots)
    ensures NextCoded(b, s, slots) == s || NextCoded(b, s, slots) in slots
    decreases |slots|
  {
    if |slots| > 0 && !b.Is(slots[0], Normal) {
      NextIn(b, s, slots[1..]);
    }
  }

  lemma {:induction false} NextSame(b: Bands, b': Bands, s: nat, slots: seq<nat>)
    requires b.Sized() && b'.Sized() && InArray(slots)
    requires forall i: nat :: i < |slots| ==> b'.z[slots[i]] == b.z[slots[i]] && b'.bt[slots[i]] == b.bt[slots[i]]
    ensures NextCoded(b', s, slots) == NextCoded(b, s, slots)
    decreases |slots|
  {
    if |slots| > 0 {
      assert b'.Is(slots[0], Normal) <==> b.Is(slots[0], Normal);
      assert forall i: nat :: i < |slots[1..]| ==> slots[1..][i] == slots[i + 1];
      NextSame(b, b', s, slots[1..]);
    }
  }

  /** The first band of the walk. */
  lemma HeadDecided(b: Bands, prev: int, slots: seq<nat>, l: Lookups)
    requires b.Sized() && InArray(slots) && l.Valid() && PassPre(b, prev, slots, l) && |slots| > 0
    requires b.Is(slots[0], Normal) && l.next[slots[0]] == NextCoded(b, slots[0], slots[1..])
    ensures l.next[slots[0]] < 128
    ensures Decided(b, Pass(b, prev, slots, l).0, slots[0], l.next[slots[0]], prev, l)
  {
    hide Pass, PassPre, TidySlot, SubsZero, Solved, ZeroAll;
    var s := slots[0];
    PassStep(b, prev, slots, l);
    HeadKept(b, prev, slots, l);
    PassPreFacts(b, prev, slots, l);
    PassBandIs(b, prev, s, l);
    BandDecided(b, prev, s, l);
  }

  lemma BandDecided(b: Bands, prev: int, s: nat, l: Lookups)
    requires b.Sized() && s < 128 && l.Valid() && b.Is(s, Normal) && -1 <= prev && l.Len(s) >= 1
    ensures Decided(b, PassBand(b, prev, s, l).0, s, l.next[s], prev, l)
    ensures PassBand(b, prev, s, l).0.z[s] || PassBand(b, prev, s, l).0.Is(s, Normal)
  {
    ZeroAllAt(b.z, s, l.Len(s), s);
    assert s == s + 16 * 0;
    assert l.minBook(s, Value(b, s, prev)) <= ESC_BT;
    hide ZeroAll;
  }

  /** Later bands are met as they were. */
  lemma LaterKept(b: Bands, prev: int, slots: seq<nat>, l: Lookups, j: nat)
    requires b.Sized() && InArray(slots) && l.Valid() && PassPre(b, prev, slots, l) && 0 < j < |slots|
    ensures var (b1, t) := (PassBand(b, prev, slots[0], l).0, slots[j]);
            b1.z[t] == b.z[t] && b1.bt[t] == b.bt[t] && b1.sf[t] == b.sf[t]
  {
    hide PassBand;
    assert slots[0] < slots[j];
    assert Clear(l, slots[0], slots[j]);
    PassBandFrame(b, prev, slots[0], l, slots[j]);
  }

  lemma LinkedStep(b: Bands, prev: int, slots: seq<nat>, l: Lookups)
    requires b.Sized() && InArray(slots) && l.Valid() && PassPre(b, prev, slots, l) && |slots| > 0
             && Linked(b, slots, l)
    ensures InArray(slots[1..]) && Linked(PassBand(b, prev, slots[0], l).0, slots[1..], l)
  {
    hide PassBand, PassPre;
    var b1, rest := PassBand(b, prev, slots[0], l).0, slots[1..];
    forall i: nat | i < |rest| && b1.Is(rest[i], Normal)
      ensures l.next[rest[i]] == NextCoded(b1, rest[i], rest[i + 1..])
    {
      assert rest[i] == slots[i + 1] && rest[i + 1..] == slots[i + 2..];
      LaterKept(b, prev, slots, l, i + 1);
      var later := rest[i + 1..];
      forall k: nat | k < |later|
        ensures b1.z[later[k]] == b.z[later[k]] && b1.bt[later[k]] == b.bt[later[k]]
      {
        assert later[k] == slots[i + 2 + k];
        LaterKept(b, prev, slots, l, i + 2 + k);
      }
      NextSame(b, b1, rest[i], rest[i + 1..]);
    }
  }

  /** Every band of the walk, behind the last one it kept. */
  lemma {:induction false} PassDecides(b: Bands, prev: int, slots: seq<nat>, l: Lookups, i: nat)
    requires b.Sized() && InArray(slots) && l.Valid() && PassPre(b, prev, slots, l) && Linked(b, slots, l)
    requires i < |slots| && b.Is(slots[i], Normal)
    ensures var r := Pass(b, prev, slots, l).0;
            && InArray(slots[..i]) && l.next[slots[i]] < 128
            && Decided(b, r, slots[i], l.next[slots[i]], Last(r, slots[..i], Normal, prev), l)
    decreases |slots|
  {
    hide PassBand, PassPre, Pass, Decided, TidySlot, SubsZero, Solved;
    if i == 0 {
      HeadDecided(b, prev, slots, l);
    } else {
      var s, rest := slots[0], slots[1..];
      var (b1, p1) := PassBand(b, prev, s, l);
      PassStep(b, prev, slots, l);
      PassPreFacts(b, prev, slots, l);
      PassPreStep(b, prev, slots, l);
      PassBandIs(b, prev, s, l);
      HeadKept(b, prev, slots, l);
      LinkedStep(b, prev, slots, l);
      LaterKept(b, prev, slots, l, i);
      assert rest[i - 1] == slots[i];
      PassDecides(b1, p1, rest, l, i - 1);
      var r := Pass(b, prev, slots, l).0;
      assert slots[..i][0] == s && slots[..i][1..] == rest[..i - 1];
      assert Last(r, slots[..i], Normal, prev) == Last(r, rest[..i - 1], Normal, p1);
      SameDecision(b, b1, r, prev, slots, l, i, Last(r, rest[..i - 1], Normal, p1));
    }
  }

  lemma SameDecision(b: Bands, b1: Bands, r: Bands, prev: int, slots: seq<nat>, l: Lookups, i: nat, p: int)
    requires b.Sized() && r.Sized() && InArray(slots) && l.Valid() && PassPre(b, prev, slots, l) && 0 < i < |slots|
    requires b1 == PassBand(b, prev, slots[0], l).0 && Linked(b, slots, l) && b.Is(slots[i], Normal)
    requires Decided(b1, r, slots[i], l.next[slots[i]], p, l)
    ensures Decided(b, r, slots[i], l.next[slots[i]], p, l)
  {
    hide PassBand, PassPre;
    var s, n := slots[i], l.next[slots[i]];
    LaterKept(b, prev, slots, l, i);
    NextIn(b, s, slots[i + 1..]);
    if n != s {
      var j :| 0 <= j < |slots[i + 1..]| && slots[i + 1..][j] == n;
      assert slots[i + 1 + j] == n;
      LaterKept(b, prev, slots, l, i + 1 + j);
    }
  }

  /** The result of the whole pass, band by band: a band to be coded goes exactly
      when it needs no codebook and the chain allows it; otherwise it keeps the
      scalefactor nearest to its own and its least codebook, at least 1. */
  lemma FinalDecides(b: Bands, slots: seq<nat>, l: Lookups, i: nat)
    requires b.Sized() && InArray(slots) && l.Valid() && PassPre(b, -1, slots, l) && Linked(b, slots, l)
    requires i < |slots| && b.Is(slots[i], Normal)
    ensures var (r, s) := (Final(b, slots, l), slots[i]);
            && InArray(slots[..i]) && l.next[s] < 128
            && Decided(b, r, s, l.next[s], Last(r, slots[..i], Normal, -1), l)
  {
    hide PassPre, Pass, FillForward, TidySlot, SubsZero, Solved, Goes, Value;
    var p := Pass(b, -1, slots, l).0;
    var r := Final(b, slots, l);
    PassDecides(b, -1, slots, l, i);
    forall t: nat | t < 128
      ensures r.z == p.z && r.bt == p.bt && (p.Is(t, Normal) ==> r.sf[t] == p.sf[t])
    {
      FillIs(p, p.sf[0], slots, t);
    }
    LastSame(p, r, slots[..i], -1);
    StaysNormal(b, p, slots, l, i);
  }

  lemma StaysNormal(b: Bands, p: Bands, slots: seq<nat>, l: Lookups, i: nat)
    requires b.Sized() && p.Sized() && InArray(slots) && l.Valid() && i < |slots| && l.next[slots[i]] < 128
    requires exists q :: Decided(b, p, slots[i], l.next[slots[i]], q, l)
    ensures p.z[slots[i]] || p.Is(slots[i], Normal)
  {
    assert forall s: nat, sf: int :: s < 128 ==> l.minBook(s, sf) <= ESC_BT;
  }

  lemma {:induction false} LastSame(b: Bands, r: Bands, slots: seq<nat>, first: int)
    requires b.Sized() && r.Sized() && InArray(slots) && r.z == b.z && r.bt == b.bt
    requires forall t: nat :: t < 128 && b.Is(t, Normal) ==> r.sf[t] == b.sf[t]
    ensures Last(r, slots, Normal, first) == Last(b, slots, Normal, first)
    decreases |slots|
  {
    if |slots| > 0 {
      LastSame(b, r, slots[1..], if b.Is(slots[0], Normal) then b.sf[slots[0]] else first);
    }
  }

  // ----- the forward fill

  /** A band that is not coded, and not of a special kind, takes the scalefactor of
      the last coded one; the slot of the gain is left alone. */
  lemma {:induction false} FilledAt(b: Bands, last: int, slots: seq<nat>, i: nat)
    requires b.Sized() && InArray(slots) && Increasing(slots) && i < |slots|
    ensures var (r, s) := (FillForward(b, last, slots), slots[i]);
            && InArray(slots[..i]) && r.Sized()
            && r.sf[s] == if b.bt[s] < RESERVED_BT && !b.Is(s, Normal) && s > 0 then Last(b, slots[..i], Normal, last)
                          else b.sf[s]
    decreases |slots|
  {
    TailBefore(slots);
    var s, rest := slots[0], slots[1..];
    var last' := if b.Is(s, Normal) then b.sf[s] else last;
    var b' := if b.bt[s] < RESERVED_BT && !b.Is(s, Normal) && s > 0 then b.(sf := b.sf[s := last]) else b;
    assert FillForward(b, last, slots) == FillForward(b', last', rest);
    if i == 0 {
      FillBehind(b', last', rest, s);
    } else {
      assert rest[i - 1] == slots[i] && slots[i] != s && slots[..i][0] == s && slots[..i][1..] == rest[..i - 1];
      FilledAt(b', last', rest, i - 1);
      LastSame(b, b', rest[..i - 1], last');
    }
  }

  lemma {:induction false} FillBehind(b: Bands, last: int, slots: seq<nat>, s: nat)
    requires b.Sized() && InArray(slots) && Increasing(slots) && Before(s, slots) && s < 128
    ensures FillForward(b, last, slots).sf[s] == b.sf[s]
    decreases |slots|
  {
    if |slots| > 0 {
      TailBefore(slots);
      var t := slots[0];
      if b.Is(t, Normal) {
        FillBehind(b, b.sf[t], slots[1..], s);
      } else if b.bt[t] < RESERVED_BT && t > 0 {
        FillBehind(b.(sf := b.sf[t := last]), last, slots[1..], s);
      } else {
        FillBehind(b, last, slots[1..], s);
      }
    }
  }
}
