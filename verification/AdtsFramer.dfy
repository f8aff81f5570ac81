/** Access units in an ADTS stream: the writer that frames them and the framer
    that finds them again, resynchronising past garbage. */
module AdtsFramer {
  import opened BitStrings
  import opened BitReader
  import opened AdtsHeader

  // ----- writing

  function FramedUnit(srIndex: nat, chan: nat, au: seq<nat>): seq<nat> {
    HeaderBytes(srIndex, chan, |au|) + au
  }

  function Framed(srIndex: nat, chan: nat, units: seq<seq<nat>>): seq<nat> {
    if |units| == 0 then []
    else Framed(srIndex, chan, units[..|units| - 1]) + FramedUnit(srIndex, chan, units[|units| - 1])
  }

  /** The encoder's sink: one write of header and payload per unit. */
  class Writer {
    const sampleRate: int
    const channels: int
    var out: seq<nat>

    constructor (sampleRate: int, channels: int)
      ensures this.sampleRate == sampleRate && this.channels == channels && out == []
    {
      this.sampleRate, this.channels, out := sampleRate, channels, [];
    }

    method WriteAu(au: seq<nat>) returns (ok: bool)
      modifies this`out
      ensures ok <==> RateIndex(sampleRate, 0) < 13 && 1 <= channels <= 7 && |au| <= MAX_PAYLOAD
      ensures out == if ok then old(out) + FramedUnit(RateIndex(sampleRate, 0), channels, au) else old(out)
    {
      var frame;
      frame, ok := AppendHeader([], sampleRate, channels, |au|);
      if ok {
        assert frame == HeaderBytes(RateIndex(sampleRate, 0), channels, |au|);
        out := out + (frame + au);
      }
    }
  }

  // ----- reading

  datatype Found = Frame(h: Header) | End | Corrupt

  datatype Next = Unit(bytes: seq<nat>) | CleanEnd | Broken

  function HeaderAt(data: seq<nat>, pos: nat): Result<Header>
    requires pos + HEADER_SIZE <= |data|
  {
    ParseHeader(Cursor(BytesBits(data[pos..pos + HEADER_SIZE]), 0, false))
  }

  predicate SyncStart(b: seq<nat>, i: nat)
    requires i < |b|
  {
    b[i] == 0xff && (i + 1 >= |b| || b[i + 1] / 16 == 0xf)
  }

  /** The bytes could begin a syncword. */
  ghost predicate MaySync(b: seq<nat>) {
    exists i: nat :: i < |b| && SyncStart(b, i)
  }

  /** A candidate's length leads to another header, or past the end of input. */
  predicate Chains(data: seq<nat>, pos: nat, h: Header) {
    pos + h.frameLength + HEADER_SIZE <= |data| ==> HeaderAt(data, pos + h.frameLength).Ok?
  }

  /** The scan for the next header, and where it stops. A header at the first
      position is trusted; one found after skipping bytes has to chain. */
  ghost function Scan(data: seq<nat>, pos: nat, scanned: bool): (Found, nat)
    decreases |data| - pos
  {
    if pos + HEADER_SIZE > |data| then
      (if pos < |data| && MaySync(data[pos..]) then Corrupt else End, pos)
    else
      var h := HeaderAt(data, pos);
      if h.Ok? && (!scanned || Chains(data, pos, h.value)) then (Frame(h.value), pos)
      else Scan(data, pos + 1, true)
  }

  ghost function NextFrame(data: seq<nat>, pos: nat): (Next, nat) {
    var (f, p) := Scan(data, pos, false);
    match f
    case End => (CleanEnd, p)
    case Corrupt => (Broken, p)
    case Frame(h) =>
      if p + h.frameLength <= |data| then (Unit(data[p..p + h.frameLength]), p + h.frameLength)
      else (Broken, |data|)
  }

  /** A buffered input, read to its end. */
  class Framer {
    const data: seq<nat>
    var pos: nat

    ghost predicate Valid()
      reads this
    {
      pos <= |data| && IsBytes(data)
    }

    constructor (data: seq<nat>)
      requires IsBytes(data)
      ensures Valid() && this.data == data && pos == 0
    {
      this.data, pos := data, 0;
    }

    /** Up to n bytes ahead, without consuming them. */
    method Peek(n: nat) returns (b: seq<nat>)
      requires Valid()
      ensures b == if pos + n <= |data| then data[pos..pos + n] else data[pos..]
    {
      b := if pos + n <= |data| then data[pos..pos + n] else data[pos..];
    }

    static method ParseHeaderBytes(b: seq<nat>) returns (h: Result<Header>)
      requires IsBytes(b)
      ensures h == ParseHeader(Cursor(BytesBits(b), 0, false))
    {
      var r := new Reader(b);
      h := ParseAdts(r);
    }

    static method BytesContainSyncStart(b: seq<nat>) returns (r: bool)
      ensures r <==> MaySync(b)
    {
      var i := 0;
      while i < |b|
        invariant 0 <= i <= |b|
        invariant forall j: nat :: j < i ==> !SyncStart(b, j)
      {
        if b[i] == 0xff && (i + 1 >= |b| || b[i + 1] / 16 == 0xf) {
          assert SyncStart(b, i);
          return true;
        }
        i := i + 1;
      }
      return false;
    }

    method ConfirmChain(h: Header) returns (ok: bool)
      requires Valid()
      ensures ok == Chains(data, pos, h)
    {
      hide ParseHeader;
      var peekN := h.frameLength + HEADER_SIZE;
      var ahead := Peek(peekN);
      if |ahead| >= peekN {
        var rest := ahead[h.frameLength..];
        assert rest == data[pos + h.frameLength..pos + h.frameLength + HEADER_SIZE];
        var chain := ParseHeaderBytes(rest);
        return chain.Ok?;
      }
      return true;
    }

    method SyncAdts() returns (f: Found)
      requires Valid()
      modifies this`pos
      ensures Valid() && (f, pos) == Scan(data, old(pos), false)
    {
      hide ParseHeader, Chains, MaySync;
      var scanned := false;
      while true
        invariant Valid() && Scan(data, pos, scanned) == Scan(data, old(pos), false)
        decreases |data| - pos
      {
        var hdr := Peek(HEADER_SIZE);
        if |hdr| < HEADER_SIZE {
          if |hdr| == 0 {
            return End;
          }
          assert hdr == data[pos..];
          var may := BytesContainSyncStart(hdr);
          if may {
            return Corrupt;
          }
          return End;
        }
        var h := ParseHeaderBytes(hdr);
        if h.Ok? {
          if !scanned {
            return Frame(h.value);
          }
          var ok := ConfirmChain(h.value);
          if ok {
            return Frame(h.value);
          }
        }
        pos := pos + 1;
        scanned := true;
      }
    }

    method NextFrameAdts() returns (n: Next)
      requires Valid()
      modifies this`pos
      ensures Valid() && (n, pos) == NextFrame(data, old(pos))
    {
      hide Scan;
      var f := SyncAdts();
      match f
      case End => return CleanEnd;
      case Corrupt => return Broken;
      case Frame(h) =>
        var flen := h.frameLength;
        if pos + flen > |data| {
          pos := |data|;
          return Broken;
        }
        n := Unit(data[pos..pos + flen]);
        pos := pos + flen;
    }
  }

  // ----- what the scan finds

  /** Position q is passed over by a scan from pos. */
  ghost predicate Rejected(data: seq<nat>, q: nat, pos: nat, scanned: bool) {
    q + HEADER_SIZE <= |data|
    && (HeaderAt(data, q).Fail? || ((scanned || q > pos) && !Chains(data, q, HeaderAt(data, q).value)))
  }

  /** The scan stops at the first position that is not rejected: a header that
      is trusted or chains, or the end of the input. */
  lemma {:induction false} ScanFindsFirst(data: seq<nat>, pos: nat, scanned: bool)
    ensures var (f, p) := Scan(data, pos, scanned);
            && pos <= p
            && (forall q: nat :: pos <= q < p ==> Rejected(data, q, pos, scanned))
            && !Rejected(data, p, pos, scanned)
            && (f.Frame? <==> p + HEADER_SIZE <= |data|)
            && (f.Frame? ==> HeaderAt(data, p) == Ok(f.h) && (scanned || p > pos ==> Chains(data, p, f.h)))
            && (f.Corrupt? ==> p < |data| && MaySync(data[p..]))
            && (f.End? ==> p >= |data| || !MaySync(data[p..]))
    decreases |data| - pos
  {
    hide ParseHeader, HeaderAt, Chains, MaySync;
    if pos + HEADER_SIZE <= |data| {
      var h := HeaderAt(data, pos);
      if !(h.Ok? && (!scanned || Chains(data, pos, h.value))) {
        ScanFindsFirst(data, pos + 1, true);
        var (f, p) := Scan(data, pos, scanned);
        forall q: nat | pos <= q < p ensures Rejected(data, q, pos, scanned) {
          assert q > pos ==> Rejected(data, q, pos + 1, true);
        }
      }
    }
  }

  // ----- reading back what was written

  ghost predicate Framable(units: seq<seq<nat>>) {
    forall i: nat :: i < |units| ==> |units[i]| <= MAX_PAYLOAD
  }

  lemma {:induction false} FramedAppend(srIndex: nat, chan: nat, a: seq<seq<nat>>, b: seq<seq<nat>>)
    ensures Framed(srIndex, chan, a + b) == Framed(srIndex, chan, a) + Framed(srIndex, chan, b)
    decreases |b|
  {
    hide FramedUnit;
    if |b| == 0 {
      assert a + b == a;
    } else {
      var last := |b| - 1;
      FramedAppend(srIndex, chan, a, b[..last]);
      assert (a + b)[..|a + b| - 1] == a + b[..last];
      assert (a + b)[|a + b| - 1] == b[last];
    }
  }

  lemma FramedOne(srIndex: nat, chan: nat, au: seq<nat>)
    ensures Framed(srIndex, chan, [au]) == FramedUnit(srIndex, chan, au)
  {
    assert [au][..0] == [];
    assert Framed(srIndex, chan, []) == [];
  }

  /** Where the header of unit i stands. */
  lemma HeaderInPlace(srIndex: nat, chan: nat, units: seq<seq<nat>>, i: nat)
    requires i < |units|
    ensures var data := Framed(srIndex, chan, units);
            var pos := |Framed(srIndex, chan, units[..i])|;
            && pos + HEADER_SIZE + |units[i]| == |Framed(srIndex, chan, units[..i + 1])| <= |data|
            && data[pos..pos + HEADER_SIZE + |units[i]|] == FramedUnit(srIndex, chan, units[i])
            && data[pos..pos + HEADER_SIZE] == HeaderBytes(srIndex, chan, |units[i]|)
  {
    hide HeaderBytes;
    var a, b := units[..i], units[i + 1..];
    assert units == (a + [units[i]]) + b;
    assert units[..i + 1] == a + [units[i]];
    FramedAppend(srIndex, chan, a + [units[i]], b);
    FramedAppend(srIndex, chan, a, [units[i]]);
    FramedOne(srIndex, chan, units[i]);
    hide Framed;
    var pre, u, post := Framed(srIndex, chan, a), FramedUnit(srIndex, chan, units[i]), Framed(srIndex, chan, b);
    assert Framed(srIndex, chan, units) == (pre + u) + post;
    assert u[..HEADER_SIZE] == HeaderBytes(srIndex, chan, |units[i]|);
  }

  /** Reading a stream of framed units from the start of unit i gives that unit
      with its header, and leaves the framer at the start of the next; behind
      the last unit comes a clean end. */
  lemma FramerReturnsUnits(srIndex: nat, chan: nat, units: seq<seq<nat>>, i: nat)
    requires srIndex < 13 && 1 <= chan <= 7 && Framable(units) && i <= |units|
    ensures NextFrame(Framed(srIndex, chan, units), |Framed(srIndex, chan, units[..i])|)
            == if i < |units| then (Unit(FramedUnit(srIndex, chan, units[i])), |Framed(srIndex, chan, units[..i + 1])|)
               else (CleanEnd, |Framed(srIndex, chan, units)|)
  {
    hide ParseHeader, Framed, HeaderBytes, FramedUnit;
    var data := Framed(srIndex, chan, units);
    var pos := |Framed(srIndex, chan, units[..i])|;
    if i == |units| {
      assert units[..i] == units;
    } else {
      HeaderInPlace(srIndex, chan, units, i);
      var h := HeaderBytes(srIndex, chan, |units[i]|);
      var c := Cursor(BytesBits(h), 0, false);
      AheadAll(c);
      HeaderRoundTrip(c, srIndex, chan, |units[i]|);
    }
  }

  lemma AheadAll(c: Cursor)
    requires c.pos == 0
    ensures c.Ahead(c.s)
  {
    assert c.s[0..|c.s|] == c.s;
  }


  /** The decoding loop's view of a stream: frames until the input ends or
      breaks. On what the encoder wrote these are its units, headers included,
      and the end is clean. */
  method ReadFrames(f: Framer, ghost srIndex: nat, ghost chan: nat, ghost units: seq<seq<nat>>)
    returns (frames: seq<seq<nat>>, clean: bool)
    requires f.Valid() && f.pos == 0
    requires srIndex < 13 && 1 <= chan <= 7 && Framable(units) && f.data == Framed(srIndex, chan, units)
    modifies f`pos
    ensures clean && |frames| == |units|
    ensures forall i: nat :: i < |units| ==> frames[i] == FramedUnit(srIndex, chan, units[i])
    ensures f.pos == |f.data|
  {
    hide Framed, FramedUnit, NextFrame;
    frames := [];
    assert Framed(srIndex, chan, units[..0]) == [] by {
      FramedNone(srIndex, chan, units);
    }
    while true
      invariant f.Valid() && |frames| <= |units| && f.pos == |Framed(srIndex, chan, units[..|frames|])|
      invariant forall i: nat :: i < |frames| ==> frames[i] == FramedUnit(srIndex, chan, units[i])
      decreases |units| - |frames|
    {
      FramerReturnsUnits(srIndex, chan, units, |frames|);
      var n := f.NextFrameAdts();
      match n
      case CleanEnd => return frames, true;
      case Broken => return frames, false;
      case Unit(bytes) => frames := frames + [bytes];
    }
  }

  lemma FramedNone(srIndex: nat, chan: nat, units: seq<seq<nat>>)
    ensures Framed(srIndex, chan, units[..0]) == []
  {
  }
}
