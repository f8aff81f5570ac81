/** Window switching: the sequences, shapes and groupings the encoder's state
    machine emits, the analysis windows it applies to them, and the synthesis
    windows the decoder picks from what it is told. */
module WindowSwitch {
  import opened AacSyntax
  import opened BitStrings
  import opened BandWalk

  // ----- the state machine

  /** What the attack detection decides for a frame, and the grouping mask its
      first attack selects for the next one. */
  datatype Decision = Decision(useLong: bool, mask: nat)

  datatype Psy = Psy(nextSeq: nat, nextMask: nat)

  datatype Window = Window(seqn: nat, shape: nat, numWindows: nat, grouping: seq<nat>)

  /** The sequence emitted and the one held back, lame_apply_block_type. */
  function ApplyBlockType(next: nat, useLong: bool): (nat, nat) {
    if useLong then (next, if next == EIGHT_SHORT then LONG_STOP else ONLY_LONG)
    else (if next == ONLY_LONG then LONG_START else if next == LONG_STOP then EIGHT_SHORT else next, EIGHT_SHORT)
  }

  predicate Starts(mask: nat, i: nat) {
    Shr(mask, i) % 2 == 0
  }

  /** The first group start in [j, limit), or limit. */
  function RunEnd(mask: nat, j: nat, limit: nat): (e: nat)
    requires j <= limit
    ensures j <= e <= limit && (e < limit ==> Starts(mask, e))
    ensures forall i: nat :: j <= i < e ==> !Starts(mask, i)
    decreases limit - j
  {
    if j == limit then limit else if Starts(mask, j) then j else RunEnd(mask, j + 1, limit)
  }

  function GroupLength(mask: nat, j: nat, limit: nat): nat
    requires j < limit
  {
    if j == 0 || Starts(mask, j) then RunEnd(mask, j + 1, limit) - j else 0
  }

  function Grouping(mask: nat): seq<nat> {
    seq(8, j requires 0 <= j < 8 => GroupLength(mask, j, 8))
  }

  function Shape(seqn: nat): nat {
    if seqn == LONG_START || seqn == EIGHT_SHORT then 0 else 1
  }

  /** One frame: the window and the state after it. */
  function Step(p: Psy, d: Decision): (Window, Psy) {
    var (s, next) := ApplyBlockType(p.nextSeq, d.useLong);
    (Window(s, Shape(s), if s == EIGHT_SHORT then 8 else 1,
            if s == EIGHT_SHORT then Grouping(p.nextMask) else [1, 0, 0, 0, 0, 0, 0, 0]),
     Psy(next, d.mask))
  }

  /** The sequences that may follow each other in a legal stream. */
  predicate Follows(prev: nat, next: nat) {
    if prev == ONLY_LONG || prev == LONG_STOP then next == ONLY_LONG || next == LONG_START
    else next == EIGHT_SHORT || next == LONG_STOP
  }

  lemma {:induction false} TilesFrom(mask: nat, w: nat)
    requires w <= 8 && (w == 0 || w == 8 || Starts(mask, w))
    ensures Tiles(Grouping(mask), w, 8)
    decreases 8 - w
  {
    hide Shr;
    if w < 8 {
      var gl := Grouping(mask);
      assert gl[w] == RunEnd(mask, w + 1, 8) - w;
      TilesFrom(mask, w + gl[w]);
      forall i | w < i < w + gl[w] ensures gl[i] == 0 {
        assert !Starts(mask, i);
      }
    }
  }

  lemma RunEndExtend(mask: nat, j: nat, limit: nat)
    requires j <= limit
    ensures RunEnd(mask, j, limit + 1)
            == if RunEnd(mask, j, limit) < limit then RunEnd(mask, j, limit)
               else if Starts(mask, limit) then limit else limit + 1
    decreases limit - j
  {
  }

  // ----- the state machine in place

  class Channel {
    var nextWindowSeq: nat
    var nextGrouping: nat

    ghost function State(): Psy
      reads this
    {
      Psy(nextWindowSeq, nextGrouping)
    }

    constructor ()
      ensures State() == Psy(ONLY_LONG, 0)
    {
      nextWindowSeq, nextGrouping := ONLY_LONG, 0;
    }

    method LameApplyBlockType(useLong: bool) returns (windowType: nat)
      modifies this`nextWindowSeq
      ensures (windowType, nextWindowSeq) == ApplyBlockType(old(nextWindowSeq), useLong)
    {
      var blocktype := ONLY_LONG;
      if useLong {
        if nextWindowSeq == EIGHT_SHORT {
          blocktype := LONG_STOP;
        }
      } else {
        blocktype := EIGHT_SHORT;
        if nextWindowSeq == ONLY_LONG {
          nextWindowSeq := LONG_START;
        }
        if nextWindowSeq == LONG_STOP {
          nextWindowSeq := EIGHT_SHORT;
        }
      }
      windowType := nextWindowSeq;
      nextWindowSeq := blocktype;
    }

    /** detected is the outcome of the attack detection; it is used when there
        is enough lookahead. On the flush path the previous kind of sequence
        continues with the table's first mask. */
    method WindowFor(lookahead: bool, detected: Decision, prevType: nat, firstMask: nat) returns (wi: Window)
      modifies this
      ensures var d := if lookahead then detected else Decision(prevType != EIGHT_SHORT, firstMask);
              (wi, State()) == Step(old(State()), d)
    {
      var useLong, mask := prevType != EIGHT_SHORT, firstMask;
      if lookahead {
        useLong, mask := detected.useLong, detected.mask;
      }
      var windowType := LameApplyBlockType(useLong);
      var shape, numWindows := 0, 1;
      var grouping := [0, 0, 0, 0, 0, 0, 0, 0];
      if windowType != EIGHT_SHORT {
        numWindows := 1;
        grouping := [1, 0, 0, 0, 0, 0, 0, 0];
        if windowType == LONG_START {
          shape := 0;
        } else {
          shape := 1;
        }
      } else {
        numWindows := 8;
        shape := 0;
        grouping := Groups8(nextGrouping);
      }
      nextGrouping := mask;
      wi := Window(windowType, shape, numWindows, grouping);
    }

    static method Groups8(mask: nat) returns (grouping: seq<nat>)
      ensures grouping == Grouping(mask)
    {
      hide Shr;
      grouping := [0, 0, 0, 0, 0, 0, 0, 0];
      var lastgrp := 0;
      var i := 0;
      while i < 8
        invariant 0 <= i <= 8 && |grouping| == 8 && 0 <= lastgrp && (i == 0 ==> lastgrp == 0) && (i > 0 ==> lastgrp < i)
        invariant i > 0 ==> (lastgrp == 0 || Starts(mask, lastgrp)) && RunEnd(mask, lastgrp + 1, i) == i
        invariant forall j: nat :: j < 8 ==> grouping[j] == if j < i then GroupLength(mask, j, i) else 0
      {
        forall j: nat | j < i ensures GroupLength(mask, j, i + 1)
                                == GroupLength(mask, j, i) + if j == lastgrp && !Starts(mask, i) then 1 else 0
        {
          RunEndExtend(mask, j + 1, i);
          if j != lastgrp && (j == 0 || Starts(mask, j)) {
            EarlierRun(mask, j, lastgrp, i);
          }
        }
        if Starts(mask, i) {
          lastgrp := i;
        }
        if i == 0 {
          lastgrp := 0;
        }
        grouping := grouping[lastgrp := grouping[lastgrp] + 1];
        if i > 0 && lastgrp < i {
          RunEndExtend(mask, lastgrp + 1, i);
        }
        i := i + 1;
      }
    }

    /** Only the last started group is still open. */
    static lemma EarlierRun(mask: nat, j: nat, lastgrp: nat, i: nat)
      requires j < i && lastgrp < i && j != lastgrp && (lastgrp == 0 || Starts(mask, lastgrp))
      requires RunEnd(mask, lastgrp + 1, i) == i && (j == 0 || Starts(mask, j))
      ensures RunEnd(mask, j + 1, i) < i
    {
      hide Shr;
      if j < lastgrp {
        assert Starts(mask, lastgrp);
      }
    }
  }

  // ----- windows, sample by sample

  /** A window sample: 0, 1, or sample i of the rising slope of a length and
      shape. */
  datatype Sample = Zero | One | Slope(len: nat, shape: nat, i: nat)

  function Rise(len: nat, shape: nat): (s: seq<Sample>)
    ensures |s| == len
  {
    seq(len, i requires 0 <= i < len => Slope(len, shape, i))
  }

  function Fall(len: nat, shape: nat): (s: seq<Sample>)
    ensures |s| == len
  {
    seq(len, i requires 0 <= i < len => Slope(len, shape, len - 1 - i))
  }

  function Flat(n: nat, v: Sample): (s: seq<Sample>)
    ensures |s| == n
  {
    seq(n, _ => v)
  }

  function Reversed(s: seq<Sample>): seq<Sample> {
    seq(|s|, i requires 0 <= i < |s| => s[|s| - 1 - i])
  }

  /** The analysis window of window w of an EIGHT_SHORT frame. */
  function ShortWindow(w: nat, kb0: nat, kb1: nat): seq<Sample> {
    Rise(128, if w == 0 then kb0 else kb1) + Fall(128, kb0)
  }

  /** The 2048 samples the encoder multiplies a frame with; for EIGHT_SHORT the
      eight windows one after the other. */
  function Analysis(seqn: nat, kb0: nat, kb1: nat): seq<Sample> {
    if seqn == ONLY_LONG then Rise(1024, kb0) + Fall(1024, kb1)
    else if seqn == LONG_START then Rise(1024, kb1) + Flat(448, One) + Fall(128, kb0) + Flat(448, Zero)
    else if seqn == LONG_STOP then Flat(448, Zero) + Rise(128, kb1) + Flat(448, One) + Fall(1024, kb0)
    else Shorts(8, kb0, kb1)
  }

  function Shorts(n: nat, kb0: nat, kb1: nat): (s: seq<Sample>)
    ensures |s| == 256 * n
  {
    if n == 0 then [] else Shorts(n - 1, kb0, kb1) + ShortWindow(n - 1, kb0, kb1)
  }

  /** What the encoder applies where the frame overlaps its predecessor: the
      left half, with the first short window in the middle of it. */
  function LeftHalf(seqn: nat, kb0: nat, kb1: nat): seq<Sample> {
    var a := Analysis(seqn, kb0, kb1);
    if |a| != 2048 then []
    else if seqn == EIGHT_SHORT then Flat(448, Zero) + a[..128] + Flat(448, One) else a[..1024]
  }

  function RightHalf(seqn: nat, kb0: nat, kb1: nat): seq<Sample> {
    var a := Analysis(seqn, kb0, kb1);
    if |a| != 2048 then []
    else if seqn == EIGHT_SHORT then Flat(448, One) + a[1920..] + Flat(448, Zero) else a[1024..]
  }

  /** What the decoder applies to the new frame where it overlaps the old one;
      the old one gets the reverse. */
  function Synthesis(prevSeq: nat, seqn: nat, kb1: nat): seq<Sample> {
    if (prevSeq == ONLY_LONG || prevSeq == LONG_STOP) && (seqn == ONLY_LONG || seqn == LONG_START)
    then Rise(1024, kb1)
    else Flat(448, Zero) + Rise(128, kb1) + Flat(448, One)
  }

  lemma {:induction false} ShortsAt(n: nat, w: nat, kb0: nat, kb1: nat)
    requires w < n
    ensures Shorts(n, kb0, kb1)[256 * w..256 * w + 256] == ShortWindow(w, kb0, kb1)
  {
    var s := Shorts(n - 1, kb0, kb1);
    if w < n - 1 {
      ShortsAt(n - 1, w, kb0, kb1);
      assert (s + ShortWindow(n - 1, kb0, kb1))[256 * w..256 * w + 256] == s[256 * w..256 * w + 256];
    }
  }

  lemma AnalysisSize(seqn: nat, kb0: nat, kb1: nat)
    ensures |Analysis(seqn, kb0, kb1)| == 2048
  {
  }

  method ApplyShorts(kb0: nat, kb1: nat, out: array<Sample>)
    requires out.Length == 2048
    modifies out
    ensures out[..] == Shorts(8, kb0, kb1)
  {
    hide Shorts, Rise, Fall;
    var w := 0;
    ShortsStep(0, kb0, kb1);
    assert out[..0] == [];
    while w < 8
      invariant 0 <= w <= 8 && out[..256 * w] == Shorts(w, kb0, kb1)
    {
      var first := kb0;
      if w != 0 {
        first := kb1;
      }
      ghost var before := out[..256 * w];
      Apply(out, 2 * w * 128, Rise(128, first));
      Apply(out, 2 * w * 128 + 128, Fall(128, kb0));
      ShortsStep(w + 1, kb0, kb1);
      assert out[..256 * w] == before;
      assert out[..256 * (w + 1)] == out[..256 * w] + (out[256 * w..256 * w + 128] + out[256 * w + 128..256 * w + 256]);
      w := w + 1;
    }
    assert out[..] == out[..2048];
  }

  lemma FourParts<T>(s: seq<T>, i: nat, j: nat, k: nat)
    requires i <= j <= k <= |s|
    ensures s == s[..i] + s[i..j] + s[j..k] + s[k..]
  {
  }

  /** The encoder's windowing, as it multiplies the 2048 samples of a frame. */
  method ApplyWindow(seqn: nat, kb0: nat, kb1: nat, out: array<Sample>)
    requires out.Length == 2048 && seqn <= LONG_STOP
    modifies out
    ensures out[..] == Analysis(seqn, kb0, kb1)
  {
    hide Analysis, Shorts, ShortWindow, Rise, Fall, Flat;
    if seqn == ONLY_LONG {
      Apply(out, 0, Rise(1024, kb0));
      Apply(out, 1024, Fall(1024, kb1));
      assert out[..] == out[0..1024] + out[1024..2048];
    } else if seqn == LONG_START {
      Apply(out, 0, Rise(1024, kb1));
      Apply(out, 1024, Flat(448, One));
      Apply(out, 1472, Fall(128, kb0));
      Apply(out, 1600, Flat(448, Zero));
      FourParts(out[..], 1024, 1472, 1600);
    } else if seqn == LONG_STOP {
      Apply(out, 0, Flat(448, Zero));
      Apply(out, 448, Rise(128, kb1));
      Apply(out, 576, Flat(448, One));
      Apply(out, 1024, Fall(1024, kb0));
      FourParts(out[..], 448, 576, 1024);
    } else {
      ApplyShorts(kb0, kb1, out);
    }
    AnalysisIs(seqn, kb0, kb1);
  }

  lemma ShortsStep(n: nat, kb0: nat, kb1: nat)
    ensures Shorts(n, kb0, kb1)
            == if n == 0 then [] else Shorts(n - 1, kb0, kb1)
                                      + (Rise(128, if n == 1 then kb0 else kb1) + Fall(128, kb0))
  {
  }

  lemma AnalysisIs(seqn: nat, kb0: nat, kb1: nat)
    ensures Analysis(seqn, kb0, kb1)
            == if seqn == ONLY_LONG then Rise(1024, kb0) + Fall(1024, kb1)
               else if seqn == LONG_START then Rise(1024, kb1) + Flat(448, One) + Fall(128, kb0) + Flat(448, Zero)
               else if seqn == LONG_STOP then Flat(448, Zero) + Rise(128, kb1) + Flat(448, One) + Fall(1024, kb0)
               else Shorts(8, kb0, kb1)
  {
  }

  /** Applies a window to a stretch of the frame. */
  method Apply(out: array<Sample>, lo: nat, window: seq<Sample>)
    requires lo + |window| <= out.Length
    modifies out
    ensures out[lo..lo + |window|] == window
    ensures out[..lo] == old(out[..lo]) && out[lo + |window|..] == old(out[lo + |window|..])
  {
    var i := 0;
    while i < |window|
      invariant 0 <= i <= |window| && out[lo..lo + i] == window[..i]
      invariant out[..lo] == old(out[..lo]) && out[lo + |window|..] == old(out[lo + |window|..])
    {
      out[lo + i] := window[i];
      i := i + 1;
    }
  }

  // ----- agreement at one overlap

  /** The old frame's right half, the new frame's left half and the decoder's
      window are one window. */
  ghost predicate Agree(prevSeq: nat, seqn: nat, kbPrev: nat, kbPrevPrev: nat, kb: nat, decPrevSeq: nat) {
    && LeftHalf(seqn, kb, kbPrev) == Synthesis(decPrevSeq, seqn, kbPrev)
    && Reversed(RightHalf(prevSeq, kbPrev, kbPrevPrev)) == LeftHalf(seqn, kb, kbPrev)
  }

  lemma LeftIs(seqn: nat, kb0: nat, kb1: nat)
    requires seqn <= LONG_STOP
    ensures LeftHalf(seqn, kb0, kb1)
            == if seqn == ONLY_LONG then Rise(1024, kb0) else if seqn == LONG_START then Rise(1024, kb1)
               else if seqn == LONG_STOP then Flat(448, Zero) + Rise(128, kb1) + Flat(448, One)
               else Flat(448, Zero) + Rise(128, kb0) + Flat(448, One)
  {
    AnalysisSize(seqn, kb0, kb1);
    if seqn == EIGHT_SHORT {
      ShortsAt(8, 0, kb0, kb1);
      assert Shorts(8, kb0, kb1)[..128] == Shorts(8, kb0, kb1)[0..256][..128];
    }
  }

  lemma RightIs(seqn: nat, kb0: nat, kb1: nat)
    requires seqn <= LONG_STOP
    ensures RightHalf(seqn, kb0, kb1)
            == if seqn == ONLY_LONG then Fall(1024, kb1) else if seqn == LONG_STOP then Fall(1024, kb0)
               else Flat(448, One) + Fall(128, kb0) + Flat(448, Zero)
  {
    AnalysisSize(seqn, kb0, kb1);
    if seqn == EIGHT_SHORT {
      ShortsAt(8, 7, kb0, kb1);
      assert Shorts(8, kb0, kb1)[1920..] == Shorts(8, kb0, kb1)[1792..2048][128..];
    }
  }

  lemma ReversedHalves(kb: nat)
    ensures Reversed(Fall(1024, kb)) == Rise(1024, kb)
    ensures Reversed(Flat(448, One) + Fall(128, kb) + Flat(448, Zero))
            == Flat(448, Zero) + Rise(128, kb) + Flat(448, One)
  {
  }

  /** With the shapes the encoder gives to the sequences, a legal transition
      agrees; a long window's right half has the shape of the frame before it. */
  lemma OverlapAgrees(prevSeq: nat, seqn: nat, kbPrevPrev: nat, decPrevSeq: nat)
    requires prevSeq <= LONG_STOP && seqn <= LONG_STOP && Follows(prevSeq, seqn)
    requires Follows(decPrevSeq, seqn)
    requires prevSeq == ONLY_LONG ==> kbPrevPrev == 1
    ensures Agree(prevSeq, seqn, Shape(prevSeq), kbPrevPrev, Shape(seqn), decPrevSeq)
  {
    LeftIs(seqn, Shape(seqn), Shape(prevSeq));
    RightIs(prevSeq, Shape(prevSeq), kbPrevPrev);
    ReversedHalves(Shape(prevSeq));
    hide LeftHalf, RightHalf, Rise, Fall, Flat, Reversed;
  }

  lemma RiseShapes(n: nat)
    requires n > 0
    ensures Rise(n, 0) != Rise(n, 1)
  {
    assert Rise(n, 0)[0] != Rise(n, 1)[0];
  }

  /** The one disagreement: the overlap after a long window whose predecessor
      had the other shape. */
  lemma FirstLongDisagrees(seqn: nat, decPrevSeq: nat)
    requires seqn <= LONG_STOP && Follows(ONLY_LONG, seqn)
    ensures !Agree(ONLY_LONG, seqn, 1, 0, Shape(seqn), decPrevSeq)
  {
    LeftIs(seqn, Shape(seqn), 1);
    RightIs(ONLY_LONG, 1, 0);
    ReversedHalves(0);
    RiseShapes(1024);
    hide LeftHalf, RightHalf, Rise, Fall, Flat, Reversed;
  }

  /** Inside an EIGHT_SHORT frame neighbouring windows agree with each other and
      with the decoder's short window of the current shape, when the frame
      before had a short right half. */
  lemma ShortsAgree(w: nat, prevSeq: nat)
    requires w < 7 && prevSeq <= LONG_STOP && Follows(prevSeq, EIGHT_SHORT)
    ensures var a := Analysis(EIGHT_SHORT, 0, Shape(prevSeq));
            && |a| == 2048
            && Reversed(a[256 * w + 128..256 * w + 256]) == a[256 * w + 256..256 * w + 384] == Rise(128, 0)
  {
    var a := Shorts(8, 0, 0);
    ShortsAt(8, w, 0, 0);
    ShortsAt(8, w + 1, 0, 0);
    assert a[256 * w + 128..256 * w + 256] == a[256 * w..256 * w + 256][128..];
    assert a[256 * w + 256..256 * w + 384] == a[256 * (w + 1)..256 * (w + 1) + 256][..128];
  }

  // ----- runs

  /** The state before frame t, and the window of frame t. */
  function StateAt(ds: seq<Decision>, t: nat): Psy
    requires t <= |ds|
  {
    if t == 0 then Psy(ONLY_LONG, 0) else Step(StateAt(ds, t - 1), ds[t - 1]).1
  }

  function WindowAt(ds: seq<Decision>, t: nat): Window
    requires t < |ds|
  {
    Step(StateAt(ds, t), ds[t]).0
  }

  function SeqAt(ds: seq<Decision>, t: int): nat
    requires t < |ds|
  {
    if t < 0 then ONLY_LONG else WindowAt(ds, t).seqn
  }

  /** The shape in force at frame t; before the first frame it is 0. */
  function ShapeAt(ds: seq<Decision>, t: int): nat
    requires t < |ds|
  {
    if t < 0 then 0 else WindowAt(ds, t).shape
  }

  /** What the machine holds back always fits what it emitted last. */
  ghost predicate Pending(last: nat, p: Psy) {
    if last == ONLY_LONG || last == LONG_STOP then p.nextSeq == ONLY_LONG
    else p.nextSeq == EIGHT_SHORT || (p.nextSeq == LONG_STOP && last == EIGHT_SHORT)
  }

  lemma {:induction false} PendingHolds(ds: seq<Decision>, t: nat)
    requires t <= |ds|
    ensures Pending(SeqAt(ds, t - 1), StateAt(ds, t)) && SeqAt(ds, t - 1) <= LONG_STOP
  {
    hide Grouping;
    if t > 0 {
      PendingHolds(ds, t - 1);
    }
  }

  /** For every sequence of decisions the emitted windows are legal, their
      shapes are those of their sequences and their groups tile them. */
  lemma RunIsLegal(ds: seq<Decision>, t: nat)
    requires t < |ds|
    ensures var w := WindowAt(ds, t);
            && w.seqn <= LONG_STOP && Follows(SeqAt(ds, t - 1), w.seqn)
            && w.shape == Shape(w.seqn)
            && w.numWindows == (if w.seqn == EIGHT_SHORT then 8 else 1)
            && |w.grouping| == 8 && Tiles(w.grouping, 0, w.numWindows)
  {
    PendingHolds(ds, t);
    TilesFrom(StateAt(ds, t).nextMask, 0);
    hide Grouping, Tiles;
    TilesOne();
  }

  lemma TilesOne()
    ensures Tiles([1, 0, 0, 0, 0, 0, 0, 0], 0, 1)
  {
  }

  /** For every sequence of decisions, at every overlap, the encoder's two
      halves and the decoder's window agree, except exactly at the overlap
      after a first frame that is ONLY_LONG. decPrevSeq is the previous sequence
      the decoder remembers: its own, or that of the channel it shares a window
      with; all that follow legally do. */
  lemma RunAgrees(ds: seq<Decision>, t: nat, decPrevSeq: nat)
    requires 0 < t < |ds| && Follows(decPrevSeq, SeqAt(ds, t))
    ensures Agree(SeqAt(ds, t - 1), SeqAt(ds, t), ShapeAt(ds, t - 1), ShapeAt(ds, t - 2), ShapeAt(ds, t), decPrevSeq)
            <==> !(t == 1 && SeqAt(ds, 0) == ONLY_LONG)
  {
    RunIsLegal(ds, t);
    RunIsLegal(ds, t - 1);
    if t > 1 {
      RunIsLegal(ds, t - 2);
    }
    hide WindowAt, StateAt, Agree, Step;
    if t == 1 && SeqAt(ds, 0) == ONLY_LONG {
      FirstLongDisagrees(SeqAt(ds, t), decPrevSeq);
    } else {
      OverlapAgrees(SeqAt(ds, t - 1), SeqAt(ds, t), ShapeAt(ds, t - 2), decPrevSeq);
    }
  }

  /** Two channels that share a window had predecessors of one kind, so it does
      not matter whose sequence the decoder remembers. */
  lemma SharedWindow(da: seq<Decision>, db: seq<Decision>, t: nat)
    requires 0 < t < |da| && t < |db| && SeqAt(da, t) == SeqAt(db, t)
    ensures Follows(SeqAt(da, t - 1), SeqAt(db, t)) && Follows(SeqAt(db, t - 1), SeqAt(da, t))
    ensures ShapeAt(da, t) == ShapeAt(db, t)
  {
    RunIsLegal(da, t);
    RunIsLegal(db, t);
  }

  // ----- what the decisions make of a run

  /** Frame t was decided against a long window; no frame before the first was. */
  predicate Attack(ds: seq<Decision>, t: int)
    requires t < |ds|
  {
    t >= 0 && !ds[t].useLong
  }

  /** One frame is held back, so an attack makes the next frame EIGHT_SHORT and
      its own a LONG_START; a lone quiet frame between two attacks stays short. */
  lemma SequenceOfAttacks(ds: seq<Decision>, t: nat)
    requires t < |ds|
    ensures SeqAt(ds, t)
            == if Attack(ds, t - 1) || (Attack(ds, t) && Attack(ds, t - 2)) then EIGHT_SHORT
               else if Attack(ds, t) then LONG_START
               else if Attack(ds, t - 2) then LONG_STOP
               else ONLY_LONG
  {
    hide Grouping;
    HeldBack(ds, t);
  }

  lemma {:induction false} HeldBack(ds: seq<Decision>, t: nat)
    requires t <= |ds|
    ensures StateAt(ds, t).nextSeq
            == if Attack(ds, t - 1) then EIGHT_SHORT else if Attack(ds, t - 2) then LONG_STOP else ONLY_LONG
    ensures t > 0 ==> StateAt(ds, t).nextMask == ds[t - 1].mask
  {
    hide Grouping;
    if t > 0 {
      HeldBack(ds, t - 1);
    }
  }

  /** A frame turns or stays short exactly for an attack in the frame before, or
      for one of its own behind a short frame; the first frame never is. */
  lemma ShortFrames(ds: seq<Decision>, t: nat)
    requires t < |ds|
    ensures t == 0 ==> (SeqAt(ds, 0) == LONG_START <==> !ds[0].useLong) && SeqAt(ds, 0) != EIGHT_SHORT
    ensures t > 0 ==> (SeqAt(ds, t) == EIGHT_SHORT
                       <==> !ds[t - 1].useLong || (!ds[t].useLong && SeqAt(ds, t - 1) == EIGHT_SHORT))
  {
    hide SeqAt;
    SequenceOfAttacks(ds, t);
    if t > 0 {
      SequenceOfAttacks(ds, t - 1);
    }
  }

  /** The groups of a short frame start at window 0 and at the zero bits of the
      mask that came with the decision one frame earlier. */
  lemma GroupStarts(ds: seq<Decision>, t: nat, w: nat)
    requires t < |ds| && SeqAt(ds, t) == EIGHT_SHORT && w < 8
    ensures t > 0 && |WindowAt(ds, t).grouping| == 8
    ensures WindowAt(ds, t).grouping[w] > 0 <==> w == 0 || Shr(ds[t - 1].mask, w) % 2 == 0
  {
    ShortFrames(ds, t);
    HeldBack(ds, t);
    hide Shr, StateAt;
  }
}
