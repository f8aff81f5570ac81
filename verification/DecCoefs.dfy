/** The decoder's five codeword decoders: symbol descriptor, sign bits and escapes
    to coefficients. */
module DecCoefs {
  import opened BitStrings
  import opened BitReader
  import opened Vlc
  import opened AacSyntax
  import opened AacParse
  import opened AacForward
  import opened DecChannel
  import opened DecSections

  /** The code tables stand for the books of t. */
  ghost predicate CodesReady(t: Tables, codes: seq<Table>)
    reads codes
  {
    t.Valid() && |codes| == 11 && forall i :: 0 <= i < 11 ==> codes[i].Valid() && codes[i].book == t.spectral[i]
  }

  /** One codeword of codebook cb. */
  method DecodeSymbol(r: Reader, codes: seq<Table>, ghost t: Tables, cb: nat) returns (sym: nat, err: Option<Err>)
    requires r.Valid() && CodesReady(t, codes) && Tonal(cb)
    modifies r`pos, r`overread
    ensures r.Valid() && t.spectral[cb - 1].Valid()
    ensures var f := Lookup(t.spectral[cb - 1], old(r.Cur()));
            && err == (if f.Missing? then Some(InvalidData) else None)
            && (f.Found? ==> sym == f.sym < 65536 && r.Cur() == f.c)
  {
    hide Reader.Valid, Reader.Cur, Table.Valid, Lookup;
    assert SpectralOk(cb - 1 + 1, t.spectral[cb - 1]);
    SymbolBound(t.spectral[cb - 1], r.Cur());
    var ok;
    sym, ok := codes[cb - 1].Decode(r);
    err := if ok then None else Some(InvalidData);
  }

  // ----- unsigned quads

  /** The sign register before value j, and the nonzero flags from value j on. */
  function Register(s0: nat, nz: nat, j: nat): (nat, nat) {
    if j == 0 then (s0, nz)
    else var (s, f) := Register(s0, nz, j - 1); (NextSign(s, f % 2 == 1), f / 2)
  }

  function Digit4(sym: nat, j: nat): nat {
    if j == 0 then sym % 4 else if j == 1 then sym / 4 % 4 else if j == 2 then sym / 16 % 4 else sym / 64 % 4
  }

  method DecodeUQuad(r: Reader, sym: nat) returns (x: seq<int>)
    requires r.Valid()
    modifies r`pos, r`overread
    ensures r.Valid() && (x, r.Cur()) == ParseUQuad(sym, old(r.Cur()))
  {
    hide Reader.Valid, Reader.Cur, Cursor.Peek, Shl, ShiftSign, Signed32, Digit4, Register;
    var nnz := sym / 256 % 16;
    SignField(r.Cur());
    ValidCursor(r);
    var sign: nat := 0;
    ghost var c := r.Cur();
    if nnz > 0 {
      var v := r.Read(nnz);
      sign := Shl(v, 32 - nnz);
    }
    ghost var s0 := sign;
    var nz := sym / 4096;
    x := [];
    RegisterStart(s0, nz);
    ghost var nz0, after := nz, r.Cur();
    for j := 0 to 4
      invariant r.Valid() && r.Cur() == after
      invariant (sign, nz) == Register(s0, nz0, if j == 4 then 3 else j)
      invariant |x| == j && forall i :: 0 <= i < j ==> x[i] == Signed32(Digit4(sym, i), Register(s0, nz0, i).0)
    {
      x := x + [Signed32(Digit4(sym, j), sign)];
      if j < 3 {
        RegisterStep(s0, nz0, j);
        sign := NextSign(sign, nz % 2 == 1);
        nz := nz / 2;
      }
    }
    UQuadIs(sym, c, s0);
    assert x == ParseUQuad(sym, c).0;
  }

  lemma SignField(c: Cursor)
    ensures Shl(c.Peek(0), 32) == 0 && (c.Valid() ==> c.Skip(0) == c)
  {
    assert Val([]) == 0;
    ShlZero(32);
  }

  lemma {:induction false} ShlZero(n: nat)
    ensures Shl(0, n) == 0
  {
    if n > 0 {
      ShlZero(n - 1);
    }
  }

  lemma RegisterStart(s0: nat, nz: nat)
    ensures Register(s0, nz, 0) == (s0, nz)
  {
  }

  lemma RegisterStep(s0: nat, nz: nat, j: nat)
    ensures Register(s0, nz, j + 1) == (NextSign(Register(s0, nz, j).0, Register(s0, nz, j).1 % 2 == 1),
                                        Register(s0, nz, j).1 / 2)
  {
  }

  lemma UQuadIs(sym: nat, c: Cursor, s0: nat)
    requires s0 == Shl(c.Peek(sym / 256 % 16), 32 - sym / 256 % 16)
    ensures var x := ParseUQuad(sym, c).0;
            |x| == 4 && forall i :: 0 <= i < 4 ==> x[i] == Signed32(Digit4(sym, i), Register(s0, sym / 4096, i).0)
  {
    hide Shl, ShiftSign, Signed32, Cursor.Peek, NextSign, Register;
    var nz := sym / 4096;
    RegisterStart(s0, nz);
    RegisterStep(s0, nz, 0);
    RegisterStep(s0, nz, 1);
    RegisterStep(s0, nz, 2);
  }

  // ----- pairs

  method DecodeUPair(r: Reader, sym: nat) returns (x: seq<int>)
    requires r.Valid() && sym < 65536
    modifies r`pos, r`overread
    ensures r.Valid() && (x, r.Cur()) == ParseUPair(sym, old(r.Cur()))
  {
    hide Reader.Valid, Reader.Cur, Cursor.Peek, Shl;
    SignField(r.Cur());
    ValidCursor(r);
    var nnz := sym / 256 % 16;
    var sign: nat := 0;
    ghost var c := r.Cur();
    if nnz > 0 {
      var v := r.Read(nnz);
      sign := Shl(v, sym / 4096);
    }
    var x0: int := (sym % 16) * (1 - (sign - sign % 2));
    var x1: int := (sym / 16 % 16) * (1 - (sign % 2) * 2);
    x := [x0, x1];
  }

  // ----- escapes

  /** The number of leading ones of a value of the given width. */
  function LeadOnes(v: nat, width: nat): nat {
    if width == 0 || v < Pow2(width - 1) then 0 else 1 + LeadOnes(v - Pow2(width - 1), width - 1)
  }

  lemma {:induction false} LeadOnesIs(w: Bits)
    ensures LeadOnes(Val(w), |w|) == LeadingOnes(w)
    decreases |w|
  {
    if |w| > 0 {
      HeadBit(w);
      LeadOnesIs(w[1..]);
    }
  }

  lemma HeadBit(w: Bits)
    requires |w| > 0
    ensures Val(w) == (if w[0] then Pow2(|w| - 1) else 0) + Val(w[1..]) && Val(w[1..]) < Pow2(|w| - 1)
  {
    assert w == w[..1] + w[1..];
    ValConcat(w[..1], w[1..]);
    ValBound(w[1..]);
    OneValue(w[..1]);
    ShlOne(|w| - 1);
    ShlZero(|w| - 1);
  }

  lemma OneValue(b: Bits)
    requires |b| == 1
    ensures Val(b) == if b[0] then 1 else 0
  {
    assert b[..0] == [];
    assert Val(b[..0]) == 0;
  }

  lemma {:induction false} ShlOne(n: nat)
    ensures Shl(1, n) == Pow2(n)
  {
    if n > 0 {
      ShlOne(n - 1);
    }
  }

  /** An escape value. */
  method DecodeEscapeValue(r: Reader) returns (v: nat, err: Option<Err>)
    requires r.Valid()
    modifies r`pos, r`overread
    ensures r.Valid()
    ensures var p := ParseEscape(old(r.Cur()));
            err == Failure(p) && (p.Good? ==> v == p.val && r.Cur() == p.c)
  {
    hide Reader.Valid, Reader.Cur, Pow2, Cursor.Skip, LeadOnes, LeadingOnes, Val;
    LeadOnesIs(Window(r.Cur().s, r.Cur().pos, 32));
    var top := r.Peek(32);
    var b := LeadOnes(top, 32);
    v := 0;
    if b > 8 {
      return v, Some(InvalidData);
    }
    r.Skip(b + 1);
    b := b + 4;
    var rest := r.Read(b);
    return Pow2(b) + rest, None;
  }

  /** Half of an escape pair: an escape or a plain digit, and the sign register
      behind it. */
  method DecodeHalf(r: Reader, esc: bool, nibble: nat, sign: nat) returns (x: int, sign': nat, err: Option<Err>)
    requires r.Valid()
    modifies r`pos, r`overread
    ensures r.Valid()
    ensures var p := ParseHalf(esc, nibble, sign, old(r.Cur()));
            err == Failure(p) && (p.Good? ==> Half(x, sign') == p.val && r.Cur() == p.c)
  {
    hide Reader.Valid, Reader.Cur, ParseEscape, ShiftSign;
    x, sign', err := 0, sign, None;
    if esc {
      var n;
      n, err := DecodeEscapeValue(r);
      if err.Some? {
        return;
      }
      x := Signed32(n, sign);
      sign' := ShiftSign(sign);
    } else {
      x := Signed32(nibble, sign);
      if nibble != 0 {
        sign' := ShiftSign(sign);
      }
    }
  }

  method DecodeEscPair(r: Reader, sym: nat) returns (x: seq<int>, err: Option<Err>)
    requires r.Valid() && sym < 65536
    modifies r`pos, r`overread
    ensures r.Valid()
    ensures var p := ParseEscPair(sym, old(r.Cur()));
            err == Failure(p) && (p.Good? ==> x == p.val && r.Cur() == p.c)
  {
    hide Reader.Valid, Reader.Cur, ParseHalf, Shl, Cursor.Peek;
    x := [0, 0];
    if sym == 0 {
      return x, None;
    }
    var nnz := sym / 4096;
    var bits := r.Read(nnz);
    var sign := Shl(bits, 32 - nnz);
    var x0, x1;
    x0, sign, err := DecodeHalf(r, sym / 256 % 2 == 1, sym % 16, sign);
    if err.Some? {
      return;
    }
    x1, sign, err := DecodeHalf(r, sym / 512 % 2 == 1, sym / 16 % 16, sign);
    if err.Some? {
      return;
    }
    x := [x0, x1];
  }

  /** One codeword with its signs and escapes. */
  method DecodeChunk(r: Reader, codes: seq<Table>, ghost t: Tables, cb: nat) returns (x: seq<int>, err: Option<Err>)
    requires r.Valid() && CodesReady(t, codes) && Tonal(cb)
    modifies r`pos, r`overread
    ensures r.Valid()
    ensures var p := ParseChunk(t, cb, old(r.Cur()));
            err == Failure(p) && (p.Good? ==> x == p.val && r.Cur() == p.c)
  {
    hide Reader.Valid, Reader.Cur, Table.Valid, Lookup, ParseUQuad, ParseUPair, ParseEscPair, Tables.Valid, Book.Valid;
    x := [];
    var sym;
    sym, err := DecodeSymbol(r, codes, t, cb);
    if err.Some? {
      return;
    }
    match (cb - 1) / 2 {
      case 0 => x := SQuad(sym);
      case 1 => x := DecodeUQuad(r, sym);
      case 2 => x := SPair(sym);
      case 3 | 4 => x := DecodeUPair(r, sym);
      case _ => x, err := DecodeEscPair(r, sym);
    }
  }
}
