/** The chunked encoder front end: a byte stream of PCM cut into 1024-sample
    frames, one frame of priming, and a drain at the end. The codec itself is any
    deterministic machine; units go to a sink that may refuse one. */
module FrameStream {
  import Arith

  const FRAME_SIZE := 1024

  datatype Option<+T> = None | Some(value: T)

  /** The codec: shift takes in a frame (or silence, on the flush path), produce
      makes an access unit out of the state or fails. */
  datatype Kernel<!S> = Kernel(shift: (S, seq<nat>) -> S, produce: (S, bool) -> (S, Option<seq<nat>>))

  /** An access unit always has at least its end marker. */
  ghost predicate Produces<S(!new)>(k: Kernel<S>) {
    forall s: S, flush: bool :: k.produce(s, flush).1.Some? ==> |k.produce(s, flush).1.value| > 0
  }

  datatype Codec<S> = Codec(frameNum: nat, remaining: int, short: bool, state: S)

  function Fresh<S>(s: S): Codec<S> {
    Codec(0, FRAME_SIZE, false, s)
  }

  /** One call of EncodeFrame: the next state and the unit, None on error. An
      empty unit reports nothing. */
  function EncodeFrame<S>(k: Kernel<S>, stride: nat, c: Codec<S>, chunk: Option<seq<nat>>): (Codec<S>, Option<seq<nat>>)
    requires stride > 0
  {
    if chunk.Some? && c.short then (c, None)
    else if chunk.None? && c.remaining <= 0 then (c, Some([]))
    else
      var n := if chunk.Some? then |chunk.value| / stride else 0;
      var c1 := Codec(c.frameNum, c.remaining + n, c.short || (chunk.Some? && n < FRAME_SIZE),
                      k.shift(c.state, if chunk.Some? then chunk.value else []));
      if c1.frameNum == 0 then (c1.(frameNum := 1), Some([]))
      else
        var (s, au) := k.produce(c1.state, chunk.None?);
        if au.None? then (c1.(state := s), None)
        else (Codec(c1.frameNum + 1, c1.remaining - FRAME_SIZE, c1.short, s), au)
  }

  /** What an observer sees of a stream: the units it was handed and whether the
      stream has failed; and the rest that decides the future. */
  datatype Stream<S> = Stream(codec: Codec<S>, carry: seq<nat>, units: seq<seq<nat>>, failed: bool)

  datatype Setup<!S> = Setup(k: Kernel<S>, stride: nat, accepts: (nat, seq<nat>) -> bool)
  {
    function FrameBytes(): nat { stride * FRAME_SIZE }
  }

  /** Encode one frame and hand its unit on. */
  function Submit<S>(u: Setup<S>, st: Stream<S>, chunk: Option<seq<nat>>): Stream<S>
    requires u.stride > 0
  {
    if st.failed then st
    else
      var (c, au) := EncodeFrame(u.k, u.stride, st.codec, chunk);
      if au.None? then st.(codec := c, failed := true)
      else if |au.value| == 0 then st.(codec := c)
      else st.(codec := c, units := st.units + [au.value], failed := !u.accepts(|st.units|, au.value))
  }

  /** Take in bytes. */
  function Feed<S>(u: Setup<S>, st: Stream<S>, p: seq<nat>): Stream<S>
    requires u.stride > 0
    decreases |st.carry| + |p|
  {
    var all := st.carry + p;
    if st.failed then st
    else if |all| < u.FrameBytes() then st.(carry := all)
    else Feed(u, Submit(u, st.(carry := []), Some(all[..u.FrameBytes()])), all[u.FrameBytes()..])
  }

  /** Submit never touches the carry. */
  lemma SubmitCarry<S>(u: Setup<S>, st: Stream<S>, chunk: Option<seq<nat>>)
    requires u.stride > 0
    ensures Submit(u, st, chunk).carry == st.carry
  {
  }

  function Drain<S>(u: Setup<S>, st: Stream<S>): Stream<S>
    requires u.stride > 0
    decreases st.codec.remaining, if st.codec.frameNum == 0 then 1 else 0, if st.failed then 0 else 1
  {
    if st.failed || st.codec.remaining <= 0 then st else Drain(u, Submit(u, st, None))
  }

  /** The end of the stream: the partial frame, then the encoder's delay. */
  function Finish<S>(u: Setup<S>, st: Stream<S>): Stream<S>
    requires u.stride > 0
  {
    if st.failed then st
    else if |st.carry| == 0 then Drain(u, st)
    else if |st.carry| % u.stride != 0 then st.(failed := true)
    else Drain(u, Submit(u, st.(carry := []), Some(st.carry)))
  }

  // ----- chunking does not matter

  lemma FeedStep<S>(u: Setup<S>, st: Stream<S>, p: seq<nat>)
    requires u.stride > 0
    ensures var all := st.carry + p;
            Feed(u, st, p) == if st.failed then st
                              else if |all| < u.FrameBytes() then st.(carry := all)
                              else
                                Feed(u, Submit(u, st.(carry := []), Some(all[..u.FrameBytes()])), all[u.FrameBytes()..])
  {
  }

  lemma {:induction false} FeedTwice<S>(u: Setup<S>, st: Stream<S>, a: seq<nat>, b: seq<nat>)
    requires u.stride > 0
    ensures Feed(u, Feed(u, st, a), b) == Feed(u, st, a + b)
    decreases |st.carry| + |a|
  {
    hide Feed, Submit;
    FeedStep(u, st, a);
    FeedStep(u, st, a + b);
    FeedStep(u, Feed(u, st, a), b);
    var f := u.FrameBytes();
    var all := st.carry + a;
    assert st.carry + (a + b) == all + b;
    if !st.failed && |all| >= f {
      var next := Submit(u, st.(carry := []), Some(all[..f]));
      SubmitCarry(u, st.(carry := []), Some(all[..f]));
      assert (all + b)[..f] == all[..f];
      assert (all + b)[f..] == all[f..] + b;
      FeedTwice(u, next, all[f..], b);
    }
  }

  function FeedAll<S>(u: Setup<S>, st: Stream<S>, chunks: seq<seq<nat>>): Stream<S>
    requires u.stride > 0
    decreases |chunks|
  {
    if |chunks| == 0 then st else FeedAll(u, Feed(u, st, chunks[0]), chunks[1..])
  }

  function Concat(chunks: seq<seq<nat>>): seq<nat> {
    if |chunks| == 0 then [] else chunks[0] + Concat(chunks[1..])
  }

  /** However the input is cut into calls, the units handed on, the failure and
      the carry are those of one call with all of it. */
  lemma {:induction false} ChunkingIrrelevant<S>(u: Setup<S>, st: Stream<S>, chunks: seq<seq<nat>>)
    requires u.stride > 0 && |st.carry| < u.FrameBytes()
    ensures FeedAll(u, st, chunks) == Feed(u, st, Concat(chunks))
    decreases |chunks|
  {
    hide Feed;
    if |chunks| == 0 {
      FeedStep(u, st, []);
      assert st.carry + [] == st.carry;
    } else {
      CarrySmall(u, st, chunks[0]);
      ChunkingIrrelevant(u, Feed(u, st, chunks[0]), chunks[1..]);
      FeedTwice(u, st, chunks[0], Concat(chunks[1..]));
    }
  }

  lemma {:induction false} CarrySmall<S>(u: Setup<S>, st: Stream<S>, p: seq<nat>)
    requires u.stride > 0 && |st.carry| < u.FrameBytes()
    ensures |Feed(u, st, p).carry| < u.FrameBytes()
    decreases |st.carry| + |p|
  {
    hide Feed, Submit;
    FeedStep(u, st, p);
    var all := st.carry + p;
    var f := u.FrameBytes();
    if !st.failed && |all| >= f {
      SubmitCarry(u, st.(carry := []), Some(all[..f]));
      CarrySmall(u, Submit(u, st.(carry := []), Some(all[..f])), all[f..]);
    }
  }

  // ----- how many units come out

  /** The books after f whole frames: the first one primes, the others each gave
      a unit. */
  ghost predicate Books<S>(st: Stream<S>, f: nat) {
    && !st.failed && !st.codec.short
    && (f == 0 ==> st.codec.frameNum == 0 && st.codec.remaining == FRAME_SIZE && |st.units| == 0)
    && (f > 0 ==> st.codec.frameNum > 0 && st.codec.remaining == 2 * FRAME_SIZE && |st.units| == f - 1)
  }

  function WholeFrames(n: nat, frame: nat): nat
    requires frame > 0
  {
    if n < frame then 0 else 1 + WholeFrames(n - frame, frame)
  }

  function Rest(n: nat, frame: nat): (r: nat)
    requires frame > 0
    ensures r < frame
  {
    if n < frame then n else Rest(n - frame, frame)
  }

  lemma SubmitWhole<S(!new)>(u: Setup<S>, st: Stream<S>, chunk: seq<nat>, f: nat)
    requires u.stride > 0 && Produces(u.k) && Books(st, f)
    requires |chunk| == u.FrameBytes() && !Submit(u, st, Some(chunk)).failed
    ensures Books(Submit(u, st, Some(chunk)), f + 1)
  {
    WholeSamples(u.stride, FRAME_SIZE);
    assert |chunk| / u.stride == FRAME_SIZE;
  }

  lemma WholeSamples(stride: nat, n: nat)
    requires stride > 0
    ensures (stride * n) / stride == n && (stride * n) % stride == 0
  {
    assert stride * n == n * stride + 0;
    Arith.DivModUnique(stride * n, stride, n, 0);
  }

  lemma {:induction false} FeedBooks<S(!new)>(u: Setup<S>, st: Stream<S>, p: seq<nat>, f: nat)
    requires u.stride > 0 && Produces(u.k) && Books(st, f) && !Feed(u, st, p).failed
    ensures Books(Feed(u, st, p), f + WholeFrames(|st.carry| + |p|, u.FrameBytes()))
    ensures |Feed(u, st, p).carry| == Rest(|st.carry| + |p|, u.FrameBytes())
    decreases |st.carry| + |p|
  {
    hide Feed, Submit, Produces, Books;
    FeedStep(u, st, p);
    var all := st.carry + p;
    var n := u.FrameBytes();
    NotFailed(st, f);
    if |all| < n {
      BooksCarry(st, f, all);
    } else {
      var st0 := st.(carry := []);
      BooksCarry(st, f, []);
      var next := Submit(u, st0, Some(all[..n]));
      SubmitCarry(u, st0, Some(all[..n]));
      if next.failed {
        FeedFailed(u, next, all[n..]);
      }
      SubmitWhole(u, st0, all[..n], f);
      FeedBooks(u, next, all[n..], f + 1);
    }
  }

  lemma NotFailed<S>(st: Stream<S>, f: nat)
    requires Books(st, f)
    ensures !st.failed
  {
  }

  lemma BooksCarry<S>(st: Stream<S>, f: nat, carry: seq<nat>)
    requires Books(st, f)
    ensures Books(st.(carry := carry), f)
  {
  }

  lemma FeedFailed<S>(u: Setup<S>, st: Stream<S>, p: seq<nat>)
    requires u.stride > 0 && st.failed
    ensures Feed(u, st, p) == st
  {
  }

  lemma DrainStep<S>(u: Setup<S>, st: Stream<S>)
    requires u.stride > 0
    ensures Drain(u, st) == if st.failed || st.codec.remaining <= 0 then st else Drain(u, Submit(u, st, None))
  {
  }

  lemma DrainFailed<S>(u: Setup<S>, st: Stream<S>)
    requires u.stride > 0 && st.failed
    ensures Drain(u, st) == st
  {
  }

  /** Each round of a primed drain gives one unit for up to 1024 samples. */
  lemma {:induction false} DrainPrimed<S(!new)>(u: Setup<S>, st: Stream<S>)
    requires u.stride > 0 && Produces(u.k) && st.codec.frameNum > 0 && !Drain(u, st).failed
    requires 0 < st.codec.remaining <= 2 * FRAME_SIZE
    ensures |Drain(u, st).units| == |st.units| + if st.codec.remaining <= FRAME_SIZE then 1 else 2
  {
    hide Drain, Produces;
    DrainStep(u, st);
    var next := Submit(u, st, None);
    if st.failed {
      DrainFailed(u, st);
    } else if next.failed {
      DrainFailed(u, next);
    } else {
      DrainUnit(u, st);
      DrainStep(u, next);
      if st.codec.remaining > FRAME_SIZE {
        var last := Submit(u, next, None);
        if last.failed {
          DrainFailed(u, last);
        } else {
          DrainUnit(u, next);
          DrainStep(u, last);
        }
      }
    }
  }

  lemma DrainUnit<S(!new)>(u: Setup<S>, st: Stream<S>)
    requires u.stride > 0 && Produces(u.k) && st.codec.frameNum > 0 && st.codec.remaining > 0
    requires !st.failed && !Submit(u, st, None).failed
    ensures var next := Submit(u, st, None);
            && next.codec.frameNum > 0 && next.codec.remaining == st.codec.remaining - FRAME_SIZE
            && |next.units| == |st.units| + 1
  {
  }

  lemma {:induction false} SplitSamples(stride: nat, samples: nat)
    requires stride > 0
    ensures stride * FRAME_SIZE > 0
    ensures WholeFrames(stride * samples, stride * FRAME_SIZE) == samples / FRAME_SIZE
    ensures Rest(stride * samples, stride * FRAME_SIZE) == stride * (samples % FRAME_SIZE)
  {
    if samples < FRAME_SIZE {
      TimesLess(stride, samples, FRAME_SIZE);
    } else {
      SplitSamples(stride, samples - FRAME_SIZE);
      assert stride * samples == stride * (samples - FRAME_SIZE) + stride * FRAME_SIZE;
      assert stride * (samples - FRAME_SIZE) >= 0;
    }
  }

  lemma TimesLess(stride: nat, a: nat, b: nat)
    requires stride > 0 && a < b
    ensures stride * a < stride * b
  {
    Arith.MulStep(a, b, stride);
  }

  /** A whole stream of so many samples per channel, ended without a failure,
      gave one unit for every 1024 of them, rounded up, and one more for the
      priming. */
  lemma UnitCount<S(!new)>(u: Setup<S>, s: S, p: seq<nat>, samples: nat)
    requires u.stride > 0 && Produces(u.k) && |p| == u.stride * samples
    requires var st := Feed(u, Stream(Fresh(s), [], [], false), p);
             !st.failed && !Finish(u, st).failed
    ensures |Finish(u, Feed(u, Stream(Fresh(s), [], [], false), p)).units|
            == (samples + FRAME_SIZE - 1) / FRAME_SIZE + 1
  {
    hide Feed, Produces, Drain;
    var start := Stream(Fresh(s), [], [], false);
    var st := Feed(u, start, p);
    FeedBooks(u, start, p, 0);
    SplitSamples(u.stride, samples);
    var f, n := samples / FRAME_SIZE, samples % FRAME_SIZE;
    if n == 0 {
      assert |st.carry| == 0;
      if f == 0 {
        DrainStep(u, st);
        var primed := Submit(u, st, None);
        assert primed.codec.frameNum == 1 && primed.codec.remaining == FRAME_SIZE && !primed.failed;
        DrainPrimed(u, primed);
      } else {
        DrainPrimed(u, st);
      }
    } else {
      WholeSamples(u.stride, n);
      TimesLess(u.stride, 0, n);
      var st0 := st.(carry := []);
      var last := Submit(u, st0, Some(st.carry));
      if last.failed {
        DrainFailed(u, last);
      }
      PartialFrame(u, st0, st.carry, f, n);
      DrainPrimed(u, last);
    }
  }

  lemma PartialFrame<S(!new)>(u: Setup<S>, st: Stream<S>, chunk: seq<nat>, f: nat, n: nat)
    requires u.stride > 0 && Produces(u.k) && Books(st, f) && 0 < n < FRAME_SIZE
    requires |chunk| / u.stride == n && !Submit(u, st, Some(chunk)).failed
    ensures var last := Submit(u, st, Some(chunk));
            last.codec.frameNum > 0 && last.codec.remaining == FRAME_SIZE + n && |last.units| == f
  {
  }

  // ----- the encoder in place

  /** The callback that receives the units. */
  class Sink {
    var units: seq<seq<nat>>
    const accepts: (nat, seq<nat>) -> bool

    constructor (accepts: (nat, seq<nat>) -> bool)
      ensures this.accepts == accepts && units == []
    {
      this.accepts := accepts;
      units := [];
    }

    method Emit(au: seq<nat>) returns (ok: bool)
      modifies this`units
      ensures units == old(units) + [au] && ok == accepts(|old(units)|, au)
    {
      ok := accepts(|units|, au);
      units := units + [au];
    }
  }

  /** The streaming front end. failed latches the first error of the encoder or
      the sink. */
  class FrameEncoder<S> {
    const k: Kernel<S>
    const stride: nat
    var codec: Codec<S>
    var carry: seq<nat>
    var flushed: bool
    var failed: bool

    constructor (k: Kernel<S>, stride: nat, s: S)
      requires stride > 0
      ensures this.k == k && this.stride == stride && !flushed
      ensures forall sink: Sink :: Value(sink) == Stream(Fresh(s), [], sink.units, false)
    {
      this.k, this.stride := k, stride;
      codec, carry, flushed, failed := Fresh(s), [], false, false;
    }

    ghost function SetupFor(sink: Sink): Setup<S> {
      Setup(k, stride, sink.accepts)
    }

    /** The stream so far, as the sink has seen it. After a failure the carry is
        of no consequence. */
    ghost function Value(sink: Sink): Stream<S>
      reads this, sink
    {
      Stream(codec, if failed then [] else carry, sink.units, failed)
    }

    ghost predicate Valid()
      reads this
    {
      stride > 0 && (!failed ==> |carry| < stride * FRAME_SIZE)
    }

    /** Encodes one frame and hands its unit on. */
    method EncodeOne(chunk: Option<seq<nat>>, sink: Sink) returns (ok: bool)
      requires stride > 0 && !failed
      modifies this`codec, sink`units
      ensures ghost var st := Submit(SetupFor(sink), Stream(old(codec), [], old(sink.units), false), chunk);
              codec == st.codec && sink.units == st.units && ok == !st.failed
    {
      var (c, au) := EncodeFrame(k, stride, codec, chunk);
      codec := c;
      if au.None? {
        return false;
      }
      if |au.value| == 0 {
        return true;
      }
      ok := sink.Emit(au.value);
    }

    /** The whole frames of the chunk from n on, and the rest to the carry. */
    method EncodeWhole(chunk: seq<nat>, n: nat, sink: Sink, ghost st: Stream<S>) returns (n': nat, ok: bool)
      requires Valid() && !failed && !flushed && carry == [] && n <= |chunk|
      requires Value(sink) == Feed(SetupFor(sink), st, chunk[..n])
      modifies this, sink`units
      ensures Valid() && flushed == old(flushed) && ok == !failed && (ok ==> n' == |chunk|)
      ensures SameStream(Value(sink), Feed(SetupFor(sink), st, chunk))
      ensures !ok ==> StopsAfter(SetupFor(sink), st, chunk, n')
    {
      hide Feed, Submit, StopsAfter;
      ghost var u := SetupFor(sink);
      var frameBytes := stride * FRAME_SIZE;
      n' := n;
      while |chunk| - n' >= frameBytes
        invariant stride > 0 && !failed && !flushed && carry == [] && n' <= |chunk|
        invariant Value(sink) == Feed(u, st, chunk[..n'])
        decreases |chunk| - n'
      {
        NextFrame(u, st, chunk, n');
        ok := EncodeOne(Some(chunk[n'..][..frameBytes]), sink);
        if !ok {
          failed := true;
          return n', false;
        }
        Arith.MulStep(0, FRAME_SIZE, stride);
        n' := n' + frameBytes;
      }
      LeftOver(u, st, chunk, n');
      carry := chunk[n'..];
      return |chunk|, true;
    }

    /** Takes in a chunk of any size. n is the number of bytes consumed for good:
        all of them, or on a failure those before the frame that failed. */
    method Encode(chunk: seq<nat>, sink: Sink) returns (n: nat, ok: bool)
      requires Valid()
      modifies this, sink`units
      ensures Valid() && flushed == old(flushed)
      ensures old(failed) || old(flushed) ==>
                n == 0 && !ok && Value(sink) == old(Value(sink)) && carry == old(carry)
      ensures !old(failed) && !old(flushed) ==>
                && SameStream(Value(sink), Feed(SetupFor(sink), old(Value(sink)), chunk))
                && ok == !failed && (ok ==> n == |chunk|)
                && (!ok ==> StopsAfter(SetupFor(sink), old(Value(sink)), chunk, n))
    {
      if failed || flushed {
        return 0, false;
      }
      hide Feed, Submit, StopsAfter;
      ghost var u := SetupFor(sink);
      ghost var st := Value(sink);
      n := 0;
      if |carry| > 0 {
        var need := stride * FRAME_SIZE - |carry|;
        if |chunk| < need {
          FeedShort(u, st, chunk);
          carry := carry + chunk;
          return |chunk|, true;
        }
        TopUp(u, st, chunk, need);
        carry := carry + chunk[..need];
        ok := EncodeOne(Some(carry), sink);
        if !ok {
          failed := true;
          return 0, false;
        }
        carry := [];
        n := need;
      } else {
        FeedShort(u, st, chunk[..0]);
      }
      n, ok := EncodeWhole(chunk, n, sink, st);
    }

    /** Ends the stream: the partial frame, then the drain. Idempotent. */
    method Flush(sink: Sink) returns (ok: bool)
      requires Valid()
      modifies this, sink`units
      ensures Valid() && flushed && ok == !failed
      ensures old(flushed) ==> Value(sink) == old(Value(sink))
      ensures !old(flushed) ==> SameStream(Value(sink), Finish(SetupFor(sink), old(Value(sink))))
    {
      if flushed || failed {
        flushed := true;
        return !failed;
      }
      hide Submit, Drain;
      ghost var u := SetupFor(sink);
      ghost var st := Value(sink);
      FinishIs(u, st);
      hide Finish;
      flushed := true;
      if |carry| > 0 {
        if |carry| % stride != 0 {
          failed := true;
          return false;
        }
        SubmitCarry(u, st.(carry := []), Some(carry));
        ok := EncodeOne(Some(carry), sink);
        if !ok {
          failed := true;
          DrainFailed(u, Value(sink));
          return false;
        }
        carry := [];
      }
      assert Drain(u, Value(sink)) == Finish(u, st);
      while codec.remaining > 0
        invariant stride > 0 && !failed && flushed && carry == []
        invariant Drain(u, Value(sink)) == Finish(u, st)
        decreases codec.remaining, if codec.frameNum == 0 then 1 else 0
      {
        DrainStep(u, Value(sink));
        SubmitCarry(u, Value(sink), None);
        DrainProgress(u, Value(sink));
        ok := EncodeOne(None, sink);
        if !ok {
          failed := true;
          DrainFailed(u, Value(sink));
          return false;
        }
      }
      DrainStep(u, Value(sink));
      return true;
    }
  }

  /** The first n bytes go in without a failure and end at a frame boundary, or
      none go in; the frame they are followed by fails. */
  ghost predicate StopsAfter<S>(u: Setup<S>, st: Stream<S>, p: seq<nat>, n: nat)
    requires u.stride > 0
  {
    && n <= |p|
    && var s := Feed(u, st, p[..n]);
    && !s.failed && |s.carry| < u.FrameBytes() && (n > 0 ==> s.carry == [])
    && n + u.FrameBytes() - |s.carry| <= |p|
    && Feed(u, st, p[..n + u.FrameBytes() - |s.carry|]).failed
  }

  /** A failure determines that count. */
  lemma StopUnique<S>(u: Setup<S>, st: Stream<S>, p: seq<nat>, m: nat, n: nat)
    requires u.stride > 0 && StopsAfter(u, st, p, m) && StopsAfter(u, st, p, n)
    ensures m == n
  {
    if m < n {
      StopOrder(u, st, p, m, n);
    } else if n < m {
      StopOrder(u, st, p, n, m);
    }
  }

  lemma StopOrder<S>(u: Setup<S>, st: Stream<S>, p: seq<nat>, m: nat, n: nat)
    requires u.stride > 0 && StopsAfter(u, st, p, m) && StopsAfter(u, st, p, n)
    ensures m >= n
  {
    hide Feed, Setup.FrameBytes;
    var s := Feed(u, st, p[..m]);
    var end := m + u.FrameBytes() - |s.carry|;
    if m < n < end {
      assert p[..m] + p[m..n] == p[..n];
      FeedTwice(u, st, p[..m], p[m..n]);
      FeedShort(u, s, p[m..n]);
    } else if end <= n {
      FailureStays(u, st, p, end, n);
    }
  }

  lemma FeedShort<S>(u: Setup<S>, st: Stream<S>, p: seq<nat>)
    requires u.stride > 0 && !st.failed && |st.carry| + |p| < u.FrameBytes()
    ensures Feed(u, st, p) == st.(carry := st.carry + p)
  {
  }

  lemma FailureStays<S>(u: Setup<S>, st: Stream<S>, p: seq<nat>, m: nat, n: nat)
    requires u.stride > 0 && m <= n <= |p| && Feed(u, st, p[..m]).failed
    ensures Feed(u, st, p[..n]).failed
  {
    hide Feed;
    assert p[..m] + p[m..n] == p[..n];
    FeedTwice(u, st, p[..m], p[m..n]);
    FeedFailed(u, Feed(u, st, p[..m]), p[m..n]);
  }

  /** Feeding exactly what is missing of a frame. */
  lemma FeedFrame<S>(u: Setup<S>, st: Stream<S>, p: seq<nat>)
    requires u.stride > 0 && !st.failed && |st.carry| + |p| == u.FrameBytes()
    ensures Feed(u, st, p) == Submit(u, st.(carry := []), Some(st.carry + p))
  {
    hide Feed, Submit;
    Arith.MulStep(0, FRAME_SIZE, u.stride);
    var all := st.carry + p;
    FeedStep(u, st, p);
    assert all[..u.FrameBytes()] == all && all[u.FrameBytes()..] == [];
    var next := Submit(u, st.(carry := []), Some(all));
    SubmitCarry(u, st.(carry := []), Some(all));
    FeedStep(u, next, []);
    assert next.(carry := [] + []) == next;
  }

  /** The carried frame: when it fails nothing counts as consumed. */
  lemma TopUp<S>(u: Setup<S>, st: Stream<S>, chunk: seq<nat>, need: nat)
    requires u.stride > 0 && !st.failed && need <= |chunk| && |st.carry| + need == u.FrameBytes() && need > 0
    ensures var next := Submit(u, st.(carry := []), Some(st.carry + chunk[..need]));
            && Feed(u, st, chunk[..need]) == next && next.carry == []
            && (next.failed ==> StopsAfter(u, st, chunk, 0) && Feed(u, st, chunk) == next)
  {
    hide Feed, Submit;
    FeedFrame(u, st, chunk[..need]);
    SubmitCarry(u, st.(carry := []), Some(st.carry + chunk[..need]));
    FeedShort(u, st, chunk[..0]);
    assert st.carry + chunk[..0] == st.carry;
    WholeFails(u, st, chunk, need);
  }

  /** One whole frame further into the chunk. */
  lemma NextFrame<S>(u: Setup<S>, st: Stream<S>, chunk: seq<nat>, at: nat)
    requires u.stride > 0 && at + u.FrameBytes() <= |chunk|
    requires !Feed(u, st, chunk[..at]).failed && Feed(u, st, chunk[..at]).carry == []
    ensures var next := Submit(u, Feed(u, st, chunk[..at]), Some(chunk[at..][..u.FrameBytes()]));
            && Feed(u, st, chunk[..at + u.FrameBytes()]) == next && next.carry == []
            && (next.failed ==> StopsAfter(u, st, chunk, at) && Feed(u, st, chunk) == next)
  {
    hide Feed, Submit;
    var s, f := Feed(u, st, chunk[..at]), chunk[at..][..u.FrameBytes()];
    Arith.MulStep(0, FRAME_SIZE, u.stride);
    assert chunk[..at] + f == chunk[..at + u.FrameBytes()];
    FeedTwice(u, st, chunk[..at], f);
    assert [] + f == f && s.(carry := []) == s;
    FeedFrame(u, s, f);
    SubmitCarry(u, s, Some(f));
    WholeFails(u, st, chunk, at + u.FrameBytes());
  }

  /** What follows a failing frame is not looked at. */
  lemma WholeFails<S>(u: Setup<S>, st: Stream<S>, chunk: seq<nat>, m: nat)
    requires u.stride > 0 && m <= |chunk|
    ensures Feed(u, st, chunk[..m]).failed ==> Feed(u, st, chunk) == Feed(u, st, chunk[..m])
  {
    hide Feed;
    assert chunk[..m] + chunk[m..] == chunk;
    FeedTwice(u, st, chunk[..m], chunk[m..]);
    if Feed(u, st, chunk[..m]).failed {
      FeedFailed(u, Feed(u, st, chunk[..m]), chunk[m..]);
    }
  }

  /** The bytes behind the last whole frame are carried. */
  lemma LeftOver<S>(u: Setup<S>, st: Stream<S>, chunk: seq<nat>, at: nat)
    requires u.stride > 0 && at <= |chunk| < at + u.FrameBytes()
    requires !Feed(u, st, chunk[..at]).failed && Feed(u, st, chunk[..at]).carry == []
    ensures Feed(u, st, chunk) == Feed(u, st, chunk[..at]).(carry := chunk[at..])
  {
    hide Feed;
    assert chunk[..at] + chunk[at..] == chunk && [] + chunk[at..] == chunk[at..];
    FeedTwice(u, st, chunk[..at], chunk[at..]);
    FeedShort(u, Feed(u, st, chunk[..at]), chunk[at..]);
  }

  /** Equal but for the carry of a failed stream. */
  ghost predicate SameStream<S>(a: Stream<S>, b: Stream<S>) {
    a.codec == b.codec && a.units == b.units && a.failed == b.failed && (!a.failed ==> a.carry == b.carry)
  }

  lemma FinishIs<S>(u: Setup<S>, st: Stream<S>)
    requires u.stride > 0
    ensures Finish(u, st)
            == if st.failed then st
               else if |st.carry| == 0 then Drain(u, st)
               else if |st.carry| % u.stride != 0 then st.(failed := true)
               else Drain(u, Submit(u, st.(carry := []), Some(st.carry)))
  {
  }

  lemma DrainProgress<S>(u: Setup<S>, st: Stream<S>)
    requires u.stride > 0 && !st.failed && st.codec.remaining > 0
    ensures var next := Submit(u, st, None);
            next.failed || next.codec.remaining < st.codec.remaining
            || (next.codec.remaining == st.codec.remaining && st.codec.frameNum == 0 && next.codec.frameNum != 0)
  {
  }
}
