/** Pulse data, which the encoder never writes: what a decoder reads out of it,
    and what it does to a coefficient. */
module DecPulses {
  import opened BitStrings
  import opened BitReader
  import opened AacSyntax
  import opened AacParse
  import opened DecBands
  import opened DecSpectrum
  import AdtsHeader

  // ----- the bits of pulses

  /** Each pulse as its distance from the one before and its height. */
  function PrintTail(start: nat, ps: seq<Pulse>): Bits
    requires Steps(start, ps)
    decreases |ps|
  {
    if |ps| == 0 then []
    else ToBits(5, ps[0].pos - start) + (ToBits(4, ps[0].amp) + PrintTail(ps[0].pos, ps[1..]))
  }

  predicate Steps(start: nat, ps: seq<Pulse>)
    decreases |ps|
  {
    |ps| > 0 ==> start <= ps[0].pos < start + 32 && ps[0].amp < 16 && Steps(ps[0].pos, ps[1..])
  }

  /** One to four pulses from the start of a band on, inside the window. */
  ghost predicate LegalPulses(edges: seq<nat>, swb: nat, ps: seq<Pulse>) {
    && 1 <= |ps| <= 4 && swb < |edges| - 1 && swb < 64 && Steps(edges[swb], ps) && PulsesFit(ps, edges[|edges| - 1])
  }

  ghost function PrintPulses(edges: seq<nat>, swb: nat, ps: seq<Pulse>): Bits
    requires LegalPulses(edges, swb, ps)
  {
    ToBits(2, |ps| - 1) + (ToBits(6, swb) + PrintTail(edges[swb], ps))
  }

  lemma Sizes()
    ensures Pow2(2) == 4 && Pow2(4) == 16 && Pow2(5) == 32 && Pow2(6) == 64
  {
    AdtsHeader.SmallPowers();
  }

  lemma {:induction false} TailRoundTrip(c: Cursor, ps: seq<Pulse>, limit: nat, done: seq<Pulse>)
    requires |done| > 0 && Steps(done[|done| - 1].pos, ps) && PulsesFit(ps, limit)
    requires c.Ahead(PrintTail(done[|done| - 1].pos, ps))
    ensures ParsePulseTail(c, |ps|, limit, done) == Good(done + ps, c.Adv(|PrintTail(done[|done| - 1].pos, ps)|))
    decreases |ps|
  {
    hide Cursor.Ahead, Cursor.Peek, ToBits;
    Sizes();
    var start := done[|done| - 1].pos;
    if |ps| == 0 {
      assert done + ps == done;
    } else {
      var p, rest := ps[0], ps[1..];
      var tail := PrintTail(p.pos, rest);
      AdtsHeader.TakeField(c, 5, p.pos - start, ToBits(4, p.amp) + tail);
      AdtsHeader.TakeField(c.Adv(5), 4, p.amp, tail);
      assert (done + [p])[|done + [p]| - 1] == p && done + [p] + rest == done + ps;
      assert ps[0].pos < limit;
      assert PulsesFit(rest, limit) by {
        assert forall k :: 0 <= k < |rest| ==> rest[k] == ps[k + 1];
      }
      TailRoundTrip(c.Adv(9), rest, limit, done + [p]);
    }
  }

  /** Written pulses are read back exactly. */
  lemma PulsesRoundTrip(c: Cursor, edges: seq<nat>, swb: nat, ps: seq<Pulse>)
    requires LegalPulses(edges, swb, ps) && c.Ahead(PrintPulses(edges, swb, ps))
    ensures ParsePulses(c, edges) == Good(ps, c.Adv(|PrintPulses(edges, swb, ps)|))
  {
    hide Cursor.Ahead, Cursor.Peek, ToBits, ParsePulseTail, PrintTail;
    var p, rest := ps[0], ps[1..];
    var tail := PrintTail(p.pos, rest);
    FirstPulse(edges[swb], ps);
    PulsesHead(c, |ps| - 1, swb, p.pos - edges[swb], p.amp, tail);
    assert ps[0].pos < edges[|edges| - 1];
    assert PulsesFit(rest, edges[|edges| - 1]) by {
      assert forall k :: 0 <= k < |rest| ==> rest[k] == ps[k + 1];
    }
    TailRoundTrip(c.Adv(17), rest, edges[|edges| - 1], [p]);
    assert [p] + rest == ps;
  }

  lemma FirstPulse(start: nat, ps: seq<Pulse>)
    requires |ps| > 0 && Steps(start, ps)
    ensures PrintTail(start, ps)
            == ToBits(5, ps[0].pos - start) + (ToBits(4, ps[0].amp) + PrintTail(ps[0].pos, ps[1..]))
    ensures |PrintTail(start, ps)| == 9 + |PrintTail(ps[0].pos, ps[1..])|
  {
  }

  lemma PulsesHead(c: Cursor, n: nat, swb: nat, step: nat, amp: nat, tail: Bits)
    requires n < 4 && swb < 64 && step < 32 && amp < 16
    requires c.Ahead(ToBits(2, n) + (ToBits(6, swb) + (ToBits(5, step) + (ToBits(4, amp) + tail))))
    ensures c.Peek(2) == n && c.Skip(2) == c.Adv(2) && c.Adv(2).Peek(6) == swb && c.Adv(2).Skip(6) == c.Adv(8)
    ensures c.Adv(8).Peek(5) == step && c.Adv(8).Skip(5) == c.Adv(13)
    ensures c.Adv(13).Peek(4) == amp && c.Adv(13).Skip(4) == c.Adv(17) && c.Adv(17).Ahead(tail)
  {
    hide Cursor.Ahead, Cursor.Peek, ToBits;
    Sizes();
    AdtsHeader.TakeField(c, 2, n, ToBits(6, swb) + (ToBits(5, step) + (ToBits(4, amp) + tail)));
    AdtsHeader.TakeField(c.Adv(2), 6, swb, ToBits(5, step) + (ToBits(4, amp) + tail));
    AdtsHeader.TakeField(c.Adv(8), 5, step, ToBits(4, amp) + tail);
    AdtsHeader.TakeField(c.Adv(13), 4, amp, tail);
  }

  // ----- what they do

  /** A pulse moves a coefficient away from zero, zero itself downwards. */
  lemma PulsedIs(v: int, amp: nat)
    ensures Abs(Pulsed(v, amp)) == Abs(v) + amp
    ensures if v > 0 then Pulsed(v, amp) > 0 else Pulsed(v, amp) <= 0
  {
  }

  /** The coefficient at x after the pulses at x, one after the other. */
  function Raised(v: int, ps: seq<Pulse>, x: nat): int
    decreases |ps|
  {
    if |ps| == 0 then v else Raised(if ps[0].pos == x then Pulsed(v, ps[0].amp) else v, ps[1..], x)
  }

  lemma SameBand(edges: seq<nat>, total: nat, maxBands: nat, a: nat, b: nat, x: nat)
    requires GoodEdges(edges, total, maxBands) && a < |edges| - 1 && b < |edges| - 1
    requires edges[a] <= x < edges[a + 1] && edges[b] <= x < edges[b + 1]
    ensures a == b
  {
    if a < b {
      EdgesUp(edges, total, maxBands, a + 1, b);
    } else if b < a {
      EdgesUp(edges, total, maxBands, b + 1, a);
    }
  }

  /** The transmitted band of x takes pulses: it is neither noise nor scaled by
      zero. */
  predicate Takes(edges: seq<nat>, bt: seq<nat>, sf: seq<int>, x: nat)
    requires |bt| == |sf| && |edges| >= 2
  {
    && edges[0] <= x < edges[|edges| - 1]
    && var b := BandAt(edges, 0, |edges| - 1, x);
    b < |bt| && bt[b] != NOISE_BT && sf[b] != 0
  }

  /** A coefficient of a transmitted band is raised by its own pulses, in order;
      nothing else changes. */
  lemma {:induction false} PulsesAt(q: seq<int>, ps: seq<Pulse>, i: nat, idx: nat, edges: seq<nat>, bt: seq<nat>,
                                    sf: seq<int>, total: nat, maxBands: nat, x: nat)
    requires |bt| == |sf| && GoodEdges(edges, total, maxBands) && total <= |q| && x < |q|
    requires PulsesFit(ps, total) && Rising(ps) && idx < |edges| - 1 && i <= |ps|
    requires i < |ps| ==> edges[idx] <= ps[i].pos
    ensures edges[|edges| - 1] == total
    ensures ApplyPulses(q, ps, i, idx, edges, bt, sf)[x]
            == if Takes(edges, bt, sf, x) then Raised(q[x], ps[i..], x) else q[x]
    decreases |ps| - i
  {
    hide ApplyPulses, PulseBand, GoodEdges, Pulsed;
    EdgesLast(edges, total, maxBands);
    PulsesStep(q, ps, i, idx, edges, bt, sf);
    if i < |ps| {
      var pos := ps[i].pos;
      var b := PulseBand(edges, idx, pos);
      BandHolds(edges, idx, pos);
      EdgesStart(edges, total, maxBands);
      if pos == x {
        SameBand(edges, total, maxBands, b, BandAt(edges, 0, |edges| - 1, x), x);
      }
      var hit := b < |bt| && bt[b] != NOISE_BT && sf[b] != 0;
      var q' := if hit then q[pos := Pulsed(q[pos], ps[i].amp)] else q;
      assert ps[i..][1..] == ps[i + 1..];
      if i + 1 < |ps| {
        assert ps[i].pos <= ps[i + 1].pos;
      }
      PulsesAt(q', ps, i + 1, b, edges, bt, sf, total, maxBands, x);
    }
  }

  lemma EdgesStart(edges: seq<nat>, total: nat, maxBands: nat)
    requires GoodEdges(edges, total, maxBands)
    ensures edges[0] == 0
  {
  }
}
