/** Which bytes of the PCM stream an access unit is made of: input by input, what
    the codec takes in and when it produces. */
module FrameUnits {
  import opened FrameStream
  import Arith

  // ----- the units of a byte stream, from the codec alone

  /** Input i of the codec for the bytes p: the i-th frame of them, at the end
      the partial one, and silence from then on. */
  function InputAt(p: seq<nat>, frame: nat, i: nat): Option<seq<nat>> {
    if (i + 1) * frame <= |p| then Arith.MulSucc(i, frame); Some(p[i * frame..(i + 1) * frame])
    else if i * frame < |p| then Some(p[i * frame..])
    else None
  }

  /** The codec's state when input n is taken in, and with it taken in. The first
      input only primes; behind each later one a unit is produced. */
  ghost function Before<S>(k: Kernel<S>, s: S, p: seq<nat>, frame: nat, n: nat): S
    decreases n, 0
  {
    if n == 0 then s
    else if n == 1 then Loaded(k, s, p, frame, 0)
    else k.produce(Loaded(k, s, p, frame, n - 1), InputAt(p, frame, n - 1).None?).0
  }

  ghost function Loaded<S>(k: Kernel<S>, s: S, p: seq<nat>, frame: nat, n: nat): S
    decreases n, 1
  {
    var chunk := InputAt(p, frame, n);
    k.shift(Before(k, s, p, frame, n), if chunk.Some? then chunk.value else [])
  }

  /** Unit i comes behind input i + 1; it is flushed out when that is silence. */
  ghost function UnitMade<S>(k: Kernel<S>, s: S, p: seq<nat>, frame: nat, i: nat): Option<seq<nat>> {
    k.produce(Loaded(k, s, p, frame, i + 1), InputAt(p, frame, i + 1).None?).1
  }

  // ----- the encoder makes those units

  ghost predicate UnitsOf<S>(u: Setup<S>, s: S, p: seq<nat>, units: seq<seq<nat>>) {
    forall i: nat :: i < |units| ==> UnitMade(u.k, s, p, u.FrameBytes(), i) == Some(units[i])
  }

  /** The stream after n inputs; a failed one keeps the units it has. */
  ghost predicate Ran<S>(u: Setup<S>, s: S, p: seq<nat>, st: Stream<S>, n: nat) {
    && UnitsOf(u, s, p, st.units)
    && (!st.failed ==>
          && st.codec.state == Before(u.k, s, p, u.FrameBytes(), n)
          && (st.codec.frameNum == 0 <==> n == 0) && |st.units| == if n == 0 then 0 else n - 1)
  }

  function Start<S>(s: S): Stream<S> {
    Stream(Fresh(s), [], [], false)
  }

  lemma RanStep<S(!new)>(u: Setup<S>, s: S, p: seq<nat>, st: Stream<S>, n: nat)
    requires u.stride > 0 && Produces(u.k) && Ran(u, s, p, st, n) && !st.failed
    requires var chunk := InputAt(p, u.FrameBytes(), n);
             if chunk.Some? then !st.codec.short else st.codec.remaining > 0
    ensures Ran(u, s, p, Submit(u, st, InputAt(p, u.FrameBytes(), n)), n + 1)
  {
    hide Setup.FrameBytes, InputAt, Before, UnitsOf, Produces;
    var f := u.FrameBytes();
    var chunk := InputAt(p, f, n);
    BeforeNext(u.k, s, p, f, n);
    assert Loaded(u.k, s, p, f, n) == u.k.shift(st.codec.state, if chunk.Some? then chunk.value else []);
    if n > 0 {
      var au := u.k.produce(Loaded(u.k, s, p, f, n), chunk.None?).1;
      assert UnitMade(u.k, s, p, f, n - 1) == au;
      NotEmpty(u.k, Loaded(u.k, s, p, f, n), chunk.None?);
      if au.Some? {
        UnitsSnoc(u, s, p, st.units, au.value);
      }
    }
  }

  lemma BeforeNext<S>(k: Kernel<S>, s: S, p: seq<nat>, frame: nat, n: nat)
    ensures Before(k, s, p, frame, n + 1)
            == if n == 0 then Loaded(k, s, p, frame, 0)
               else k.produce(Loaded(k, s, p, frame, n), InputAt(p, frame, n).None?).0
  {
    hide InputAt, Loaded;
  }

  lemma NotEmpty<S(!new)>(k: Kernel<S>, s: S, flush: bool)
    requires Produces(k)
    ensures k.produce(s, flush).1.Some? ==> |k.produce(s, flush).1.value| > 0
  {
  }

  lemma UnitsSnoc<S>(u: Setup<S>, s: S, p: seq<nat>, units: seq<seq<nat>>, unit: seq<nat>)
    requires UnitsOf(u, s, p, units) && UnitMade(u.k, s, p, u.FrameBytes(), |units|) == Some(unit)
    ensures UnitsOf(u, s, p, units + [unit])
  {
    hide UnitMade, Setup.FrameBytes;
  }

  /** Whole frames, the partial frame, and silence. */
  lemma WholeInput(p: seq<nat>, frame: nat, n: nat)
    requires (n + 1) * frame <= |p|
    ensures n * frame <= (n + 1) * frame && InputAt(p, frame, n) == Some(p[n * frame..(n + 1) * frame])
  {
    Arith.MulSucc(n, frame);
  }

  lemma LastInput(p: seq<nat>, frame: nat, n: nat)
    requires n * frame <= |p| < (n + 1) * frame
    ensures InputAt(p, frame, n) == if n * frame < |p| then Some(p[n * frame..]) else None
  {
  }

  lemma Silence(p: seq<nat>, frame: nat, n: nat)
    requires frame > 0 && n * frame >= |p|
    ensures InputAt(p, frame, n) == None && (n + 1) * frame >= |p|
  {
    Arith.MulSucc(n, frame);
  }

  /** Whole frames, one by one. */
  lemma {:induction false} FramesRan<S(!new)>(u: Setup<S>, s: S, p: seq<nat>, n: nat)
    requires u.stride > 0 && Produces(u.k) && n * u.FrameBytes() <= |p|
    ensures var st := Feed(u, Start(s), p[..n * u.FrameBytes()]);
            Ran(u, s, p, st, n) && (!st.failed ==> st.carry == [] && Books(st, n))
  {
    hide Feed, Submit, Produces, Setup.FrameBytes, Ran, Books, InputAt;
    var f := u.FrameBytes();
    FrameIsPositive(u);
    if n == 0 {
      assert p[..n * f] == [] && Start(s).(carry := Start(s).carry + []) == Start(s);
      FeedShort(u, Start(s), []);
      NoneRan(u, s, p);
    } else {
      Arith.MulSucc(n - 1, f);
      FramesRan(u, s, p, n - 1);
      WholeInput(p, f, n - 1);
      FrameRan(u, s, p, n - 1, (n - 1) * f, n * f);
    }
  }

  /** One frame more, between at and end. */
  lemma FrameRan<S(!new)>(u: Setup<S>, s: S, p: seq<nat>, n: nat, at: nat, end: nat)
    requires u.stride > 0 && Produces(u.k) && at + u.FrameBytes() == end <= |p|
    requires InputAt(p, u.FrameBytes(), n) == Some(p[at..end])
    requires var st := Feed(u, Start(s), p[..at]);
             Ran(u, s, p, st, n) && (!st.failed ==> st.carry == [] && Books(st, n))
    ensures var st := Feed(u, Start(s), p[..end]);
            Ran(u, s, p, st, n + 1) && (!st.failed ==> st.carry == [] && Books(st, n + 1))
  {
    hide Feed, Submit, Produces, Setup.FrameBytes, Ran, Books, InputAt;
    var st := Feed(u, Start(s), p[..at]);
    if st.failed {
      assert p[..at] + p[at..end] == p[..end];
      FeedTwice(u, Start(s), p[..at], p[at..end]);
      FeedFailed(u, st, p[at..end]);
      FailedRan(u, s, p, st, n, n + 1);
    } else {
      NextFrame(u, Start(s), p, at);
      assert p[at..][..u.FrameBytes()] == p[at..end];
      BooksLong(st, n);
      RanStep(u, s, p, st, n);
      if !Submit(u, st, Some(p[at..end])).failed {
        SubmitWhole(u, st, p[at..end], n);
      }
    }
  }

  lemma FrameIsPositive<S>(u: Setup<S>)
    requires u.stride > 0
    ensures u.FrameBytes() > 0
  {
  }

  lemma NoneRan<S>(u: Setup<S>, s: S, p: seq<nat>)
    ensures Ran(u, s, p, Start(s), 0) && Books(Start(s), 0)
  {
  }

  lemma FailedRan<S>(u: Setup<S>, s: S, p: seq<nat>, st: Stream<S>, n: nat, m: nat)
    requires st.failed && Ran(u, s, p, st, n)
    ensures Ran(u, s, p, st, m)
  {
  }

  lemma BooksLong<S>(st: Stream<S>, n: nat)
    requires Books(st, n)
    ensures !st.codec.short && st.codec.remaining > 0
  {
  }

  /** All of the input: its whole frames, and the rest carried. */
  lemma FeedRan<S(!new)>(u: Setup<S>, s: S, p: seq<nat>, n: nat)
    requires u.stride > 0 && Produces(u.k) && n * u.FrameBytes() <= |p| < (n + 1) * u.FrameBytes()
    ensures var st := Feed(u, Start(s), p);
            && Ran(u, s, p, st, n)
            && (!st.failed ==> st.carry == p[n * u.FrameBytes()..] && Books(st, n))
  {
    hide Feed, Produces, Setup.FrameBytes, Ran, Books;
    var at := n * u.FrameBytes();
    Arith.MulSucc(n, u.FrameBytes());
    FramesRan(u, s, p, n);
    var st := Feed(u, Start(s), p[..at]);
    if st.failed {
      WholeFails(u, Start(s), p, at);
    } else {
      LeftOver(u, Start(s), p, at);
      BooksCarry(st, n, p[at..]);
      RanCarry(u, s, p, st, n, p[at..]);
    }
  }

  lemma RanCarry<S>(u: Setup<S>, s: S, p: seq<nat>, st: Stream<S>, n: nat, carry: seq<nat>)
    requires Ran(u, s, p, st, n)
    ensures Ran(u, s, p, st.(carry := carry), n)
  {
  }

  /** The drain takes in silence. */
  lemma {:induction false} DrainRan<S(!new)>(u: Setup<S>, s: S, p: seq<nat>, st: Stream<S>, n: nat)
    requires u.stride > 0 && Produces(u.k) && Ran(u, s, p, st, n) && n * u.FrameBytes() >= |p|
    ensures UnitsOf(u, s, p, Drain(u, st).units)
    decreases st.codec.remaining, if st.codec.frameNum == 0 then 1 else 0, if st.failed then 0 else 1
  {
    hide Drain, Submit, Produces, Setup.FrameBytes, UnitsOf, InputAt;
    DrainStep(u, st);
    if !st.failed && st.codec.remaining > 0 {
      FrameIsPositive(u);
      Silence(p, u.FrameBytes(), n);
      RanStep(u, s, p, st, n);
      DrainProgress(u, st);
      var next := Submit(u, st, None);
      if next.failed {
        DrainFailed(u, next);
        RanUnits(u, s, p, next, n + 1);
      } else {
        DrainRan(u, s, p, next, n + 1);
      }
    }
  }

  /** Every unit of a stream, while it is fed and after it is finished, is the
      one the codec makes of the input bytes: unit i with frames 0 to i + 1 taken
      in, in order and nothing else, and the units before it produced. */
  lemma UnitsAreOfInput<S(!new)>(u: Setup<S>, s: S, p: seq<nat>)
    requires u.stride > 0 && Produces(u.k)
    ensures var (st, whole) := (Feed(u, Start(s), p), |p| / u.FrameBytes());
            && UnitsOf(u, s, p, st.units) && (!st.failed ==> |st.units| == if whole == 0 then 0 else whole - 1)
            && UnitsOf(u, s, p, Finish(u, st).units)
  {
    hide Feed, Finish, Produces, Setup.FrameBytes, UnitsOf, Ran;
    FrameIsPositive(u);
    var n := |p| / u.FrameBytes();
    Quotient(|p|, u.FrameBytes());
    FeedRan(u, s, p, n);
    RanUnits(u, s, p, Feed(u, Start(s), p), n);
    FinishRan(u, s, p, Feed(u, Start(s), p), n);
  }

  lemma Quotient(v: nat, d: nat)
    requires d > 0
    ensures (v / d) * d <= v < (v / d + 1) * d
  {
    Arith.MulSucc(v / d, d);
  }

  lemma RanUnits<S>(u: Setup<S>, s: S, p: seq<nat>, st: Stream<S>, n: nat)
    requires Ran(u, s, p, st, n)
    ensures UnitsOf(u, s, p, st.units) && (!st.failed ==> |st.units| == if n == 0 then 0 else n - 1)
  {
  }

  lemma FinishRan<S(!new)>(u: Setup<S>, s: S, p: seq<nat>, st: Stream<S>, n: nat)
    requires u.stride > 0 && Produces(u.k) && n * u.FrameBytes() <= |p| < (n + 1) * u.FrameBytes()
    requires Ran(u, s, p, st, n) && (!st.failed ==> st.carry == p[n * u.FrameBytes()..] && Books(st, n))
    ensures UnitsOf(u, s, p, Finish(u, st).units)
  {
    hide Submit, Drain, Produces, Setup.FrameBytes, UnitsOf, Ran, Books, InputAt;
    var f := u.FrameBytes();
    RanUnits(u, s, p, st, n);
    LastInput(p, f, n);
    if !st.failed {
      if |st.carry| == 0 {
        DrainRan(u, s, p, st, n);
      } else if |st.carry| % u.stride == 0 {
        var st0 := st.(carry := []);
        BooksLong(st, n);
        RanCarry(u, s, p, st, n, []);
        RanStep(u, s, p, st0, n);
        DrainRan(u, s, p, Submit(u, st0, Some(st.carry)), n + 1);
      }
    }
  }
}
