/** The generation-stamped cache of band costs, over runs of invalidations and
    lookups. A direct evaluation is any function of the band's coefficients, the
    scalefactor, the codebook, lambda and the limit. */
module CostCache {
  const SCALES := 256
  const SLOTS := 128
  const GENERATIONS := 0x1_0000

  /** What a band's evaluation depends on besides scalefactor and codebook. */
  datatype Input = Input(coefs: seq<real>, scaled: seq<real>, lambda: real, limit: real)

  /** A direct evaluation either completes or stops at the limit; then its cost
      is the limit and it writes neither bits nor energy. */
  datatype Outcome = Complete(rd: real, bits: int, energy: real) | Stopped(rd: real)

  type Evaluator = (Input, nat, nat) -> Outcome

  datatype Entry = Entry(rd: real, energy: real, bits: int, cb: int, rtz: int, generation: nat)

  const ZERO_ENTRY := Entry(0.0, 0.0, 0, 0, 0, 0)

  datatype Cache = Cache(generation: nat, entries: seq<Entry>)
  {
    ghost predicate Shaped() {
      generation < GENERATIONS && |entries| == SCALES * SLOTS
    }
  }

  datatype Query = Query(scaleIdx: nat, slot: nat, cb: nat, rtz: int, input: Input)
  {
    ghost predicate InRange() {
      scaleIdx < SCALES && slot < SLOTS
    }

    function At(): nat {
      scaleIdx * SLOTS + slot
    }
  }

  datatype Answer = Answer(cost: real, bits: int, energy: real)

  datatype Op = Invalidate | Look(q: Query)

  // ----- the cache as a state machine

  function ZeroValue(): Cache {
    Cache(0, seq(SCALES * SLOTS, _ => ZERO_ENTRY))
  }

  function Invalidated(c: Cache): Cache {
    var g := (c.generation + 1) % GENERATIONS;
    if g == 0 then Cache(1, seq(SCALES * SLOTS, _ => ZERO_ENTRY)) else c.(generation := g)
  }

  predicate Hits(c: Cache, q: Query)
    requires q.At() < |c.entries|
  {
    var e := c.entries[q.At()];
    e.generation == c.generation && e.cb == q.cb && e.rtz == q.rtz
  }

  /** The entry as the evaluation leaves it: a stopped one keeps the slot's old
      energy. */
  function Filled(e: Entry, q: Query, generation: nat, d: Outcome): Entry {
    match d
    case Complete(rd, bits, energy) => Entry(rd, energy, bits, q.cb, q.rtz, generation)
    case Stopped(rd) => Entry(rd, e.energy, 0, q.cb, q.rtz, generation)
  }

  function Looked(c: Cache, q: Query, eval: Evaluator): Cache
    requires q.At() < |c.entries|
  {
    if Hits(c, q) then c
    else c.(entries := c.entries[q.At() := Filled(c.entries[q.At()], q, c.generation, eval(q.input, q.scaleIdx, q.cb))])
  }

  function AnswerOf(c: Cache, q: Query, eval: Evaluator): Answer
    requires q.At() < |c.entries|
  {
    var e := Looked(c, q, eval).entries[q.At()];
    Answer(e.rd, e.bits, e.energy)
  }

  /** The answer a direct evaluation gives, on all it gives. */
  ghost predicate Agrees(a: Answer, d: Outcome) {
    match d
    case Complete(rd, bits, energy) => a == Answer(rd, bits, energy)
    case Stopped(rd) => a.cost == rd && a.bits == 0
  }

  ghost predicate OpOk(op: Op) {
    op.Look? ==> op.q.InRange()
  }

  function After(c: Cache, op: Op, eval: Evaluator): Cache
    requires op.Look? ==> op.q.At() < |c.entries|
  {
    match op
    case Invalidate => Invalidated(c)
    case Look(q) => Looked(c, q, eval)
  }

  // ----- the invariant

  /** Stamps never run ahead, and what the current generation stamped is what a
      direct evaluation of the slot's input says. */
  ghost predicate Sound(c: Cache, inputs: map<nat, Input>, eval: Evaluator) {
    && c.Shaped() && c.generation > 0
    && forall i: nat :: i < |c.entries| ==>
         EntrySound(c.entries[i], c.generation, i / SLOTS, i % SLOTS, inputs, eval)
  }

  ghost predicate EntrySound(e: Entry, generation: nat, s: nat, t: nat, inputs: map<nat, Input>, eval: Evaluator) {
    && e.generation <= generation
    && (e.generation == generation ==>
         t in inputs && e.cb >= 0 && Agrees(Answer(e.rd, e.bits, e.energy), eval(inputs[t], s, e.cb)))
  }

  lemma InvalidateSound(c: Cache, eval: Evaluator)
    requires c.Shaped()
    requires forall i: nat :: i < |c.entries| ==> c.entries[i].generation <= c.generation
    ensures Sound(Invalidated(c), map[], eval)
  {
  }

  lemma SoundStamps(c: Cache, inputs: map<nat, Input>, eval: Evaluator)
    requires Sound(c, inputs, eval)
    ensures c.Shaped() && forall i: nat :: i < |c.entries| ==> c.entries[i].generation <= c.generation
  {
  }

  lemma LookSound(c: Cache, q: Query, inputs: map<nat, Input>, eval: Evaluator)
    requires Sound(c, inputs, eval) && q.InRange()
    requires q.slot in inputs ==> inputs[q.slot] == q.input
    ensures Sound(Looked(c, q, eval), inputs[q.slot := q.input], eval)
    ensures Agrees(AnswerOf(c, q, eval), eval(q.input, q.scaleIdx, q.cb))
  {
    var d := eval(q.input, q.scaleIdx, q.cb);
    var c' := Looked(c, q, eval);
    var inputs' := inputs[q.slot := q.input];
    assert q.At() / SLOTS == q.scaleIdx && q.At() % SLOTS == q.slot;
    forall i: nat | i < |c'.entries|
      ensures EntrySound(c'.entries[i], c'.generation, i / SLOTS, i % SLOTS, inputs', eval)
    {
      assert EntrySound(c.entries[i], c.generation, i / SLOTS, i % SLOTS, inputs, eval);
    }
  }

  // ----- runs

  ghost function StateAfter(c: Cache, ops: seq<Op>, eval: Evaluator): (c': Cache)
    requires |c.entries| == SCALES * SLOTS && forall i: nat :: i < |ops| ==> OpOk(ops[i])
    ensures |c'.entries| == SCALES * SLOTS
  {
    if |ops| == 0 then c
    else
      var op := ops[|ops| - 1];
      assert OpOk(op);
      After(StateAfter(c, ops[..|ops| - 1], eval), op, eval)
  }

  /** Between invalidations every slot is asked about with one input. */
  ghost function InputsAfter(ops: seq<Op>): map<nat, Input> {
    if |ops| == 0 then map[]
    else
      var before := InputsAfter(ops[..|ops| - 1]);
      match ops[|ops| - 1]
      case Invalidate => map[]
      case Look(q) => before[q.slot := q.input]
  }

  ghost predicate Steady(ops: seq<Op>) {
    forall i: nat :: i < |ops| && ops[i].Look? ==>
      var inputs := InputsAfter(ops[..i]);
      ops[i].q.slot in inputs ==> inputs[ops[i].q.slot] == ops[i].q.input
  }

  lemma {:induction false} RunSound(ops: seq<Op>, eval: Evaluator)
    requires |ops| > 0 && ops[0].Invalidate? && Steady(ops) && forall i: nat :: i < |ops| ==> OpOk(ops[i])
    ensures Sound(StateAfter(ZeroValue(), ops, eval), InputsAfter(ops), eval)
  {
    hide Sound, Invalidated, Looked, ZeroValue;
    ZeroStamps();
    var n := |ops| - 1;
    var c := StateAfter(ZeroValue(), ops[..n], eval);
    if n == 0 {
      assert c == ZeroValue();
      InvalidateSound(c, eval);
      SoundStamps(Invalidated(c), map[], eval);
    } else {
      SteadyPrefix(ops, n);
      RunSound(ops[..n], eval);
      SoundStamps(c, InputsAfter(ops[..n]), eval);
      match ops[n]
      case Invalidate =>
        InvalidateSound(c, eval);
        SoundStamps(Invalidated(c), map[], eval);
      case Look(q) =>
        LookSound(c, q, InputsAfter(ops[..n]), eval);
        SoundStamps(Looked(c, q, eval), InputsAfter(ops), eval);
    }
  }

  lemma ZeroStamps()
    ensures ZeroValue().Shaped()
    ensures forall i: nat :: i < |ZeroValue().entries| ==> ZeroValue().entries[i] == ZERO_ENTRY
    ensures ZeroValue().generation == 0
  {
  }

  lemma SteadyPrefix(ops: seq<Op>, n: nat)
    requires Steady(ops) && n <= |ops|
    ensures Steady(ops[..n])
  {
    forall i: nat | i < n && ops[..n][i].Look?
      ensures var inputs := InputsAfter(ops[..n][..i]);
              ops[..n][i].q.slot in inputs ==> inputs[ops[..n][i].q.slot] == ops[..n][i].q.input
    {
      assert ops[..n][..i] == ops[..i];
    }
  }

  /** In every run that starts with an invalidation and asks about each slot
      with one input per generation, every lookup answers as a direct
      evaluation would, through any number of stamp wraparounds. */
  lemma EveryLookupAgrees(ops: seq<Op>, eval: Evaluator, i: nat)
    requires |ops| > 0 && ops[0].Invalidate? && Steady(ops) && forall j: nat :: j < |ops| ==> OpOk(ops[j])
    requires i < |ops| && ops[i].Look?
    ensures var c := StateAfter(ZeroValue(), ops[..i], eval);
            var q := ops[i].q;
            && q.At() < |c.entries|
            && Agrees(AnswerOf(c, q, eval), eval(q.input, q.scaleIdx, q.cb))
  {
    hide Sound, Looked, ZeroValue, Agrees, AnswerOf;
    ZeroStamps();
    SteadyPrefix(ops, i);
    var pre := ops[..i];
    assert pre[0] == ops[0];
    RunSound(pre, eval);
    var c := StateAfter(ZeroValue(), pre, eval);
    SoundStamps(c, InputsAfter(pre), eval);
    LookSound(c, ops[i].q, InputsAfter(pre), eval);
  }

  // ----- what a repeated lookup costs

  /** The lookup asks at another place, or the same question. */
  predicate LeavesAlone(op: Op, q: Query) {
    op.Look? && (op.q.At() != q.At() || (op.q.cb == q.cb && op.q.rtz == q.rtz))
  }

  lemma {:induction false} AnswerKept(c: Cache, q: Query, ops: seq<Op>, eval: Evaluator)
    requires c.Shaped() && q.InRange() && Hits(c, q)
    requires forall i: nat :: i < |ops| ==> OpOk(ops[i]) && LeavesAlone(ops[i], q)
    ensures var c' := StateAfter(c, ops, eval);
            c'.generation == c.generation && c'.entries[q.At()] == c.entries[q.At()] && Hits(c', q)
    decreases |ops|
  {
    if |ops| > 0 {
      var n := |ops| - 1;
      assert OpOk(ops[n]) && LeavesAlone(ops[n], q);
      AnswerKept(c, q, ops[..n], eval);
    }
  }

  /** Until the next invalidation, and as long as no other question is asked at
      its place, a question once asked is answered from the matrix: the answer
      is the first one whatever an evaluation would say, and nothing changes. */
  lemma RepeatedLookup(c: Cache, q: Query, ops: seq<Op>, eval: Evaluator, other: Evaluator)
    requires c.Shaped() && q.InRange()
    requires forall i: nat :: i < |ops| ==> OpOk(ops[i]) && LeavesAlone(ops[i], q)
    ensures var later := StateAfter(Looked(c, q, eval), ops, eval);
            Looked(later, q, other) == later && AnswerOf(later, q, other) == AnswerOf(c, q, eval)
  {
    hide Filled;
    FilledHits(c, q, eval);
    AnswerKept(Looked(c, q, eval), q, ops, eval);
  }

  lemma FilledHits(c: Cache, q: Query, eval: Evaluator)
    requires c.Shaped() && q.InRange()
    ensures Looked(c, q, eval).Shaped() && Hits(Looked(c, q, eval), q)
  {
  }

  // ----- the energy of a stopped evaluation

  /** The generation stamp after a run. */
  ghost function StampAfter(ops: seq<Op>): nat {
    if |ops| == 0 then 0
    else
      var g := StampAfter(ops[..|ops| - 1]);
      if ops[|ops| - 1].Look? then g else if g + 1 == GENERATIONS then 1 else g + 1
  }

  /** The energy of the last completed evaluation asked for at a place since the
      matrix was last cleared, zero when there is none. */
  ghost function LastEnergy(ops: seq<Op>, at: nat, eval: Evaluator): real {
    if |ops| == 0 then 0.0
    else
      var before := ops[..|ops| - 1];
      match ops[|ops| - 1]
      case Invalidate => if StampAfter(before) + 1 == GENERATIONS then 0.0 else LastEnergy(before, at, eval)
      case Look(q) =>
        var d := eval(q.input, q.scaleIdx, q.cb);
        if q.At() == at && d.Complete? then d.energy else LastEnergy(before, at, eval)
  }

  lemma InvalidatedEnergy(c: Cache, at: nat)
    requires c.Shaped() && at < |c.entries|
    ensures var g := if c.generation + 1 == GENERATIONS then 1 else c.generation + 1;
            && Invalidated(c).generation == g && |Invalidated(c).entries| == |c.entries|
            && Invalidated(c).entries[at].energy == if c.generation + 1 == GENERATIONS then 0.0
                else c.entries[at].energy
  {
  }

  lemma LookedEnergy(c: Cache, q: Query, inputs: map<nat, Input>, eval: Evaluator, at: nat)
    requires Sound(c, inputs, eval) && q.InRange() && at < |c.entries|
    requires q.slot in inputs ==> inputs[q.slot] == q.input
    ensures var d := eval(q.input, q.scaleIdx, q.cb);
            && Looked(c, q, eval).generation == c.generation
            && Looked(c, q, eval).entries[at].energy == if q.At() == at && d.Complete? then d.energy
                else c.entries[at].energy
  {
    assert q.At() / SLOTS == q.scaleIdx && q.At() % SLOTS == q.slot;
    assert EntrySound(c.entries[q.At()], c.generation, q.At() / SLOTS, q.At() % SLOTS, inputs, eval);
  }

  /** Every place holds the last completed energy asked for there. */
  lemma {:induction false} EnergyIs(ops: seq<Op>, eval: Evaluator, at: nat)
    requires |ops| > 0 && ops[0].Invalidate? && Steady(ops) && forall i: nat :: i < |ops| ==> OpOk(ops[i])
    requires at < SCALES * SLOTS
    ensures var c := StateAfter(ZeroValue(), ops, eval);
            c.generation == StampAfter(ops) && c.entries[at].energy == LastEnergy(ops, at, eval)
  {
    hide Sound, Invalidated, Looked, ZeroValue, Cache.Shaped;
    ZeroStamps();
    var n := |ops| - 1;
    var c := StateAfter(ZeroValue(), ops[..n], eval);
    if n == 0 {
      assert c == ZeroValue();
      InvalidatedEnergy(c, at);
    } else {
      SteadyPrefix(ops, n);
      RunSound(ops[..n], eval);
      SoundStamps(c, InputsAfter(ops[..n]), eval);
      EnergyIs(ops[..n], eval, at);
      match ops[n]
      case Invalidate => InvalidatedEnergy(c, at);
      case Look(q) => LookedEnergy(c, q, InputsAfter(ops[..n]), eval, at);
    }
  }

  /** The whole answer of a lookup in a run: that of the direct evaluation, and
      when that stops, which says nothing of the energy, the last completed energy
      at that place. */
  lemma EveryAnswer(ops: seq<Op>, eval: Evaluator, i: nat)
    requires |ops| > 0 && ops[0].Invalidate? && Steady(ops) && forall j: nat :: j < |ops| ==> OpOk(ops[j])
    requires i < |ops| && ops[i].Look?
    ensures var c := StateAfter(ZeroValue(), ops[..i], eval);
            var q := ops[i].q;
            && q.At() < |c.entries|
            && AnswerOf(c, q, eval) == match eval(q.input, q.scaleIdx, q.cb)
                 case Complete(rd, bits, energy) => Answer(rd, bits, energy)
                 case Stopped(rd) => Answer(rd, 0, LastEnergy(ops[..i], q.At(), eval))
  {
    hide Sound, Looked, ZeroValue;
    var q, pre := ops[i].q, ops[..i + 1];
    assert OpOk(ops[i]) && q.InRange();
    assert pre[..i] == ops[..i] && pre[0] == ops[0];
    SteadyPrefix(ops, i + 1);
    EnergyIs(pre, eval, q.At());
    EveryLookupAgrees(ops, eval, i);
  }

  /** So the energy a miss returns depends on the evaluation alone, whatever the
      matrix held, exactly when the evaluation completes. */
  lemma EnergyDetermined(q: Query, eval: Evaluator)
    requires q.InRange()
    ensures (exists x: real :: EnergyAlways(q, eval, x)) <==> eval(q.input, q.scaleIdx, q.cb).Complete?
  {
    var d := eval(q.input, q.scaleIdx, q.cb);
    if d.Complete? {
      assert EnergyAlways(q, eval, d.energy);
    } else {
      forall x: real ensures !EnergyAlways(q, eval, x) {
        var c := Cache(1, seq(SCALES * SLOTS, _ => Entry(0.0, x + 1.0, 0, 0, 0, 0)));
        assert !Hits(c, q) && AnswerOf(c, q, eval).energy == x + 1.0;
      }
    }
  }

  ghost predicate EnergyAlways(q: Query, eval: Evaluator, x: real)
    requires q.InRange()
  {
    forall c: Cache :: c.Shaped() && !Hits(c, q) ==> AnswerOf(c, q, eval).energy == x
  }

  // ----- before the first invalidation

  /** On the zero value a lookup is right whatever the evaluation says exactly
      when the codebook or the rounding flag is nonzero: only then does the
      zero stamp of the untouched entry not pass for a hit. */
  lemma ZeroValueLookup(q: Query)
    requires q.InRange()
    ensures (forall eval: Evaluator {:trigger AnswerOf(ZeroValue(), q, eval)} ::
               Agrees(AnswerOf(ZeroValue(), q, eval), eval(q.input, q.scaleIdx, q.cb)))
            <==> q.cb != 0 || q.rtz != 0
  {
    var one: Evaluator := (i, s, cb) => Complete(1.0, 1, 1.0);
    ZeroStamps();
    var c := ZeroValue();
    if q.cb == 0 && q.rtz == 0 {
      assert AnswerOf(ZeroValue(), q, one).cost == 0.0;
      assert !Agrees(AnswerOf(ZeroValue(), q, one), one(q.input, q.scaleIdx, q.cb));
    }
  }

  // ----- the cache in place

  class Store {
    var cacheGeneration: nat
    const cache: array<Entry>

    ghost predicate Valid()
      reads this
    {
      cache.Length == SCALES * SLOTS && cacheGeneration < GENERATIONS
    }

    ghost function Contents(): (c: Cache)
      reads this, cache
    {
      Cache(cacheGeneration, cache[..])
    }

    constructor ()
      ensures Valid() && fresh(cache) && Contents() == ZeroValue()
    {
      cacheGeneration := 0;
      cache := new Entry[SCALES * SLOTS](_ => ZERO_ENTRY);
    }

    method CacheInit()
      requires Valid()
      modifies this, cache
      ensures Valid() && Contents() == Invalidated(old(Contents()))
    {
      cacheGeneration := (cacheGeneration + 1) % GENERATIONS;
      if cacheGeneration == 0 {
        var i := 0;
        while i < cache.Length
          invariant 0 <= i <= cache.Length && Valid() && cacheGeneration == 0
          invariant forall j: nat :: j < i ==> cache[j] == ZERO_ENTRY
        {
          cache[i] := ZERO_ENTRY;
          i := i + 1;
        }
        cacheGeneration := 1;
      }
    }

    method QuantizeBandCostCached(q: Query, eval: Evaluator) returns (a: Answer)
      requires Valid() && q.InRange()
      modifies cache
      ensures Valid()
      ensures Contents() == Looked(old(Contents()), q, eval) && a == AnswerOf(old(Contents()), q, eval)
    {
      var entry := cache[q.At()];
      if entry.generation != cacheGeneration || entry.cb != q.cb || entry.rtz != q.rtz {
        var b := 0;
        var direct := eval(q.input, q.scaleIdx, q.cb);
        entry := entry.(rd := direct.rd);
        if direct.Complete? {
          b := direct.bits;
          entry := entry.(energy := direct.energy);
        }
        entry := entry.(bits := b, cb := q.cb, rtz := q.rtz, generation := cacheGeneration);
        cache[q.At()] := entry;
      }
      a := Answer(entry.rd, entry.bits, entry.energy);
    }
  }
}
