/** The two-level lookup table for variable-length codes, and its decoder. The
    table is proved equivalent to searching the code for a word that begins the
    zero-padded remaining input. */
module Vlc {
  import opened BitStrings
  import opened BitReader

  const ROOT_BITS: nat := 8

  /** A code: codeword j is the lens[j]-bit field codes[j] and stands for syms[j]. */
  datatype Book = Book(lens: seq<nat>, codes: seq<nat>, syms: seq<nat>) {
    ghost predicate Valid() {
      && |lens| == |codes| == |syms|
      && (forall j :: 0 <= j < |lens| ==> 1 <= lens[j] <= 32 && codes[j] < Pow2(lens[j]))
    }

    function Word(j: nat): Bits
      requires j < |lens| == |codes|
    {
      ToBits(lens[j], codes[j])
    }

    /** Codeword j is a prefix of codeword k. */
    ghost predicate IsPrefix(j: nat, k: nat)
      requires Valid() && j < |lens| && k < |lens|
    {
      lens[j] <= lens[k] && Shr(codes[k], lens[k] - lens[j]) == codes[j]
    }

    ghost predicate PrefixFree()
      requires Valid()
    {
      forall j, k :: 0 <= j < |lens| && 0 <= k < |lens| && j != k ==> !IsPrefix(j, k)
    }

    /** Codeword j begins the zero-padded input at c. */
    ghost predicate Begins(j: nat, c: Cursor)
      requires Valid()
    {
      j < |lens| && c.Peek(lens[j]) == codes[j]
    }

    /** Codeword j begins the width-bit number x. */
    ghost predicate Covers(j: nat, width: nat, x: nat)
      requires Valid() && j < |lens|
    {
      lens[j] <= width && Shr(x, width - lens[j]) == codes[j]
    }

    /** The root index of codeword j when it is longer than the root. */
    function Root(j: nat): nat
      requires j < |lens| == |codes| && lens[j] > ROOT_BITS
    {
      Shr(codes[j], lens[j] - ROOT_BITS)
    }

    function Suffix(j: nat): nat
      requires j < |lens| == |codes| && lens[j] > ROOT_BITS
    {
      Low(codes[j], lens[j] - ROOT_BITS)
    }

    /** Short codeword j owns root index v. */
    ghost predicate InRoot(j: nat, v: nat)
      requires Valid() && j < |lens|
    {
      Covers(j, ROOT_BITS, v)
    }

    /** Long codeword j owns index s of the w-bit subtable under root p. */
    ghost predicate InSub(j: nat, p: nat, w: nat, s: nat)
      requires Valid() && j < |lens|
    {
      ROOT_BITS < lens[j] <= ROOT_BITS + w && Root(j) == p && Shr(s, w - (lens[j] - ROOT_BITS)) == Suffix(j)
    }

    /** The last of the first j codewords owning root index v, or -1. */
    ghost function RootOwner(j: nat, v: nat): (o: int)
      requires Valid() && j <= |lens|
      ensures -1 <= o < j
    {
      if j == 0 then -1 else if InRoot(j - 1, v) then j - 1 else RootOwner(j - 1, v)
    }

    ghost function SubOwner(j: nat, p: nat, w: nat, s: nat): (o: int)
      requires Valid() && j <= |lens|
      ensures -1 <= o < j
    {
      if j == 0 then -1 else if InSub(j - 1, p, w, s) then j - 1 else SubOwner(j - 1, p, w, s)
    }

    lemma {:induction false} RootOwnerIs(j: nat, v: nat)
      requires Valid() && j <= |lens|
      ensures var o := RootOwner(j, v);
              if o >= 0 then InRoot(o, v) else forall k: nat :: k < j ==> !InRoot(k, v)
    {
      if j > 0 {
        RootOwnerIs(j - 1, v);
      }
    }

    lemma {:induction false} SubOwnerIs(j: nat, p: nat, w: nat, s: nat)
      requires Valid() && j <= |lens|
      ensures var o := SubOwner(j, p, w, s);
              if o >= 0 then InSub(o, p, w, s) else forall k: nat :: k < j ==> !InSub(k, p, w, s)
    {
      if j > 0 {
        SubOwnerIs(j - 1, p, w, s);
      }
    }
  }

  /** What searching the code finds at c: the symbol and the cursor behind it. */
  datatype Found = Missing | Found(sym: nat, c: Cursor)

  ghost function Lookup(b: Book, c: Cursor): (f: Found)
    requires b.Valid()
    ensures f.Found? <==> exists j: nat :: b.Begins(j, c)
    ensures f.Found? ==> exists j: nat :: j < |b.lens| && b.Begins(j, c) && f == Found(b.syms[j], c.Skip(b.lens[j]))
  {
    if exists j: nat :: b.Begins(j, c) then
      var j: nat :| b.Begins(j, c);
      Found(b.syms[j], c.Skip(b.lens[j]))
    else Missing
  }

  /** Two codewords covering the same number are the same codeword. */
  lemma CoverUnique(b: Book, width: nat, x: nat, j: nat, k: nat)
    requires b.Valid() && b.PrefixFree() && j < |b.lens| && k < |b.lens|
    requires b.Covers(j, width, x) && b.Covers(k, width, x)
    ensures j == k
  {
    if j != k {
      if b.lens[j] <= b.lens[k] {
        CoverPrefix(b, width, x, j, k);
      } else {
        CoverPrefix(b, width, x, k, j);
      }
    }
  }

  lemma CoverPrefix(b: Book, width: nat, x: nat, j: nat, k: nat)
    requires b.Valid() && j < |b.lens| && k < |b.lens| && b.lens[j] <= b.lens[k]
    requires b.Covers(j, width, x) && b.Covers(k, width, x)
    ensures b.IsPrefix(j, k)
  {
    ShrAdd(x, width - b.lens[k], b.lens[k] - b.lens[j]);
  }

  /** Beginning the input and covering the peeked bits are the same thing. */
  lemma BeginsCovers(b: Book, c: Cursor, j: nat, width: nat)
    requires b.Valid() && j < |b.lens| && b.lens[j] <= width
    ensures b.Begins(j, c) <==> b.Covers(j, width, c.Peek(width))
  {
    ValHigh(Window(c.s, c.pos, width), b.lens[j]);
    assert Window(c.s, c.pos, width)[..b.lens[j]] == Window(c.s, c.pos, b.lens[j]);
  }

  /** Among prefix-free words the search has at most one result. */
  lemma LookupIs(b: Book, c: Cursor, j: nat)
    requires b.Valid() && b.PrefixFree() && b.Begins(j, c)
    ensures Lookup(b, c) == Found(b.syms[j], c.Skip(b.lens[j]))
  {
    var k: nat :| k < |b.lens| && b.Begins(k, c) && Lookup(b, c) == Found(b.syms[k], c.Skip(b.lens[k]));
    BeginsCovers(b, c, j, 32);
    BeginsCovers(b, c, k, 32);
    CoverUnique(b, 32, c.Peek(32), j, k);
  }

  /** A written codeword is found again, and exactly its bits are consumed. */
  lemma LookupWord(b: Book, c: Cursor, j: nat)
    requires b.Valid() && b.PrefixFree() && j < |b.lens| && c.Ahead(b.Word(j))
    ensures Lookup(b, c) == Found(b.syms[j], c.Adv(b.lens[j]))
  {
    ReadField(c, b.lens[j], b.codes[j]);
    LookupIs(b, c, j);
  }

  datatype Entry = Entry(n: int, sym: nat)

  const EMPTY := Entry(0, 0)

  /** The table's contents: the entries and, for each escaping root index, where
      its subtable lies and how wide it is. */
  datatype Layout = Layout(entries: seq<Entry>, bases: map<nat, nat>, widths: map<nat, nat>) {
    function Size(p: nat): nat
      requires p in widths
    {
      Pow2(widths[p])
    }

    ghost predicate Subtable(p: nat)
      requires p in bases && p in widths
    {
      && p < 256 <= bases[p] && bases[p] + Size(p) <= |entries|
      && entries[p] == Entry(0 - widths[p] as int, bases[p])
    }

    ghost predicate Apart(p: nat, q: nat)
      requires p in bases && q in bases && p in widths && q in widths
    {
      bases[p] + Size(p) <= bases[q] || bases[q] + Size(q) <= bases[p]
    }

    /** Subtables are in bounds, disjoint, and announced by their root entries. */
    ghost predicate Shaped() {
      && |entries| >= 256
      && bases.Keys <= widths.Keys
      && (forall p :: p in bases ==> Subtable(p))
      && (forall p, q :: p in bases && q in bases && p != q ==> Apart(p, q))
    }
  }

  /** Codeword k is long and escapes through root p. */
  ghost predicate RootOf(b: Book, k: nat, p: nat) {
    k < |b.lens| == |b.codes| && b.lens[k] > ROOT_BITS && b.Root(k) == p
  }

  /** The first j codewords are accounted for in the widths. */
  ghost predicate WidthsOk(b: Book, widths: map<nat, nat>, j: nat) {
    && (forall p :: p in widths ==> 1 <= widths[p] <= 24)
    && (forall k: nat, p: nat :: k < j && RootOf(b, k, p) ==> p in widths && b.lens[k] - ROOT_BITS <= widths[p])
  }

  /** Subtables exist for exactly the roots that some codeword needs, and for
      every root the first j codewords need. */
  ghost predicate OpenOk(b: Book, bases: map<nat, nat>, j: nat) {
    && (forall k: nat, p: nat :: k < j && RootOf(b, k, p) ==> p in bases)
    && (forall p :: p in bases ==> exists k: nat :: RootOf(b, k, p))
  }

  ghost function RootEntry(b: Book, j: nat, v: nat): Entry
    requires b.Valid() && j <= |b.lens|
  {
    var o := b.RootOwner(j, v);
    if o >= 0 then Entry(b.lens[o], b.syms[o]) else EMPTY
  }

  ghost function SubEntry(b: Book, t: Layout, j: nat, p: nat, s: nat): Entry
    requires b.Valid() && j <= |b.lens| && p in t.widths
  {
    var o := b.SubOwner(j, p, t.widths[p], s);
    if o >= 0 then Entry(b.lens[o] - ROOT_BITS, b.syms[o]) else EMPTY
  }

  ghost predicate RootsOk(b: Book, t: Layout, j: nat)
    requires b.Valid() && j <= |b.lens| && |t.entries| >= 256
  {
    forall v: nat :: v < 256 && v !in t.bases ==> t.entries[v] == RootEntry(b, j, v)
  }

  ghost predicate SubsOk(b: Book, t: Layout, j: nat)
    requires b.Valid() && j <= |b.lens| && t.Shaped()
  {
    forall p, s: nat :: p in t.bases && s < t.Size(p) ==> SubCell(t, p, s) == SubEntry(b, t, j, p, s)
  }

  ghost function SubCell(t: Layout, p: nat, s: nat): Entry
    requires t.Shaped() && p in t.bases && s < t.Size(p)
  {
    assert t.Subtable(p);
    t.entries[t.bases[p] + s]
  }

  /** The layout describes the first j codewords of the book. */
  ghost predicate Describes(b: Book, t: Layout, j: nat) {
    && b.Valid() && j <= |b.lens|
    && t.Shaped()
    && WidthsOk(b, t.widths, |b.lens|)
    && OpenOk(b, t.bases, j)
    && RootsOk(b, t, j)
    && SubsOk(b, t, j)
  }

  /** e with the count entries from base on replaced. */
  ghost predicate Filled(e: seq<Entry>, e': seq<Entry>, base: nat, count: nat, x: Entry) {
    && |e'| == |e|
    && forall i :: 0 <= i < |e| ==> e'[i] == if base <= i < base + count then x else e[i]
  }

  // ----- a short codeword

  lemma ShortRange(b: Book, t: Layout, j: nat, v: nat)
    requires Describes(b, t, j) && b.PrefixFree() && j < |b.lens| && b.lens[j] <= ROOT_BITS
    ensures var base := Shl(b.codes[j], ROOT_BITS - b.lens[j]);
            base <= v < base + Pow2(ROOT_BITS - b.lens[j]) <==> b.Covers(j, ROOT_BITS, v)
    ensures b.Covers(j, ROOT_BITS, v) ==> v !in t.bases
  {
    ShrRange(v, ROOT_BITS - b.lens[j], b.codes[j]);
    if v in t.bases {
      ShortNotOpen(b, t, j, j, v);
    }
  }

  /** Overwriting root entries that are not escapes leaves the subtables alone. */
  lemma ShapeKept(t: Layout, e: seq<Entry>)
    requires t.Shaped() && |e| == |t.entries|
    requires forall p :: p in t.bases ==> e[p] == t.entries[p]
    ensures t.(entries := e).Shaped()
  {
    var t' := t.(entries := e);
    forall p | p in t.bases
      ensures t'.Subtable(p)
    {
      assert t.Subtable(p);
    }
    forall p, q | p in t.bases && q in t.bases && p != q
      ensures t'.Apart(p, q)
    {
      assert t.Apart(p, q);
    }
  }

  lemma AddedShort(b: Book, t: Layout, e: seq<Entry>, j: nat, base: nat, count: nat)
    requires Describes(b, t, j) && b.PrefixFree() && j < |b.lens| && b.lens[j] <= ROOT_BITS
    requires count == Pow2(ROOT_BITS - b.lens[j]) && base == Shl(b.codes[j], ROOT_BITS - b.lens[j])
             && base + count <= 256
    requires Filled(t.entries, e, base, count, Entry(b.lens[j], b.syms[j]))
    ensures Describes(b, t.(entries := e), j + 1)
  {
    var t' := t.(entries := e);
    forall p | p in t.bases
      ensures e[p] == t.entries[p]
    {
      assert t.Subtable(p);
      ShortRange(b, t, j, p);
    }
    ShapeKept(t, e);
    forall v: nat | v < 256 && v !in t.bases
      ensures e[v] == RootEntry(b, j + 1, v)
    {
      ShortRange(b, t, j, v);
      assert t.entries[v] == RootEntry(b, j, v);
    }
    forall p, s: nat | p in t.bases && s < t.Size(p)
      ensures SubCell(t', p, s) == SubEntry(b, t', j + 1, p, s)
    {
      ShortSub(b, t, t', j, p, s);
    }
  }

  lemma ShortSub(b: Book, t: Layout, t': Layout, j: nat, p: nat, s: nat)
    requires b.Valid() && t.Shaped() && t'.Shaped() && t' == t.(entries := t'.entries)
    requires |t'.entries| == |t.entries| && forall i :: 256 <= i < |t.entries| ==> t'.entries[i] == t.entries[i]
    requires j < |b.lens| && b.lens[j] <= ROOT_BITS && p in t.bases && s < t.Size(p)
    requires SubsOk(b, t, j)
    ensures SubCell(t', p, s) == SubEntry(b, t', j + 1, p, s)
  {
    assert t.Subtable(p);
    assert SubCell(t, p, s) == SubEntry(b, t, j, p, s);
    assert SubEntry(b, t', j + 1, p, s) == SubEntry(b, t, j, p, s);
  }

  // ----- a long codeword

  /** No earlier codeword escapes through a root that is not open yet. */
  lemma NoOwner(b: Book, t: Layout, j: nat, p: nat, s: nat)
    requires Describes(b, t, j) && p !in t.bases && p in t.widths && s < t.Size(p)
    ensures SubEntry(b, t, j, p, s) == EMPTY
  {
    var o := b.SubOwner(j, p, t.widths[p], s);
    b.SubOwnerIs(j, p, t.widths[p], s);
    if o >= 0 {
      assert RootOf(b, o, p);
    }
  }

  /** The layout with an empty subtable for p appended. */
  function Open(t: Layout, p: nat): Layout
    requires p in t.widths && p < |t.entries|
  {
    var entries := t.entries + seq(t.Size(p), _ => EMPTY);
    Layout(entries[p := Entry(0 - t.widths[p] as int, |t.entries|)], t.bases[p := |t.entries|], t.widths)
  }

  lemma OpenShaped(t: Layout, p: nat)
    requires t.Shaped() && p !in t.bases && p < 256 && p in t.widths
    ensures Open(t, p).Shaped()
  {
    var t' := Open(t, p);
    forall q | q in t'.bases
      ensures t'.Subtable(q)
    {
      assert q != p ==> t.Subtable(q);
    }
    forall q, r | q in t'.bases && r in t'.bases && q != r
      ensures t'.Apart(q, r)
    {
      assert q != p && r != p ==> t.Apart(q, r);
      assert q != p ==> t.Subtable(q);
      assert r != p ==> t.Subtable(r);
    }
  }

  lemma OpenCell(b: Book, t: Layout, j: nat, p: nat, q: nat, s: nat)
    requires Describes(b, t, j) && p !in t.bases && p < 256 && p in t.widths
    requires Open(t, p).Shaped() && q in Open(t, p).bases && s < t.Size(q)
    ensures SubCell(Open(t, p), q, s) == SubEntry(b, t, j, q, s)
  {
    if q == p {
      NoOwner(b, t, j, p, s);
    } else {
      assert t.Subtable(q);
      assert SubCell(t, q, s) == SubEntry(b, t, j, q, s);
      assert SubCell(Open(t, p), q, s) == SubCell(t, q, s);
    }
  }

  lemma Opened(b: Book, t: Layout, j: nat, p: nat)
    requires Describes(b, t, j) && RootOf(b, j, p) && p !in t.bases && p < 256 && p in t.widths
    ensures Describes(b, Open(t, p), j)
  {
    var t' := Open(t, p);
    OpenShaped(t, p);
    forall q, s: nat | q in t'.bases && s < t'.Size(q)
      ensures SubCell(t', q, s) == SubEntry(b, t', j, q, s)
    {
      OpenCell(b, t, j, p, q, s);
    }
    forall v: nat | v < 256 && v !in t'.bases
      ensures t'.entries[v] == RootEntry(b, j, v)
    {
      assert t.entries[v] == RootEntry(b, j, v);
    }
  }

  lemma LongRange(b: Book, t: Layout, j: nat, p: nat)
    requires Describes(b, t, j) && RootOf(b, j, p) && p in t.bases
    ensures b.lens[j] - ROOT_BITS <= t.widths[p]
    ensures var k := t.widths[p] - (b.lens[j] - ROOT_BITS);
            Shl(b.Suffix(j), k) + Pow2(k) <= t.Size(p)
    ensures t.bases[p] + t.Size(p) <= |t.entries|
  {
    assert t.Subtable(p);
    LowBound(b.codes[j], b.lens[j] - ROOT_BITS);
    ShlBound(b.Suffix(j), b.lens[j] - ROOT_BITS, t.widths[p] - (b.lens[j] - ROOT_BITS));
  }

  lemma LongCell(b: Book, t: Layout, j: nat, p: nat, q: nat, s: nat, lo: nat, count: nat)
    requires b.Valid() && RootOf(b, j, p) && p in t.widths && q in t.widths && s < t.Size(q)
    requires b.lens[j] - ROOT_BITS <= t.widths[p]
    requires count == Pow2(t.widths[p] - (b.lens[j] - ROOT_BITS))
    requires lo == Shl(b.Suffix(j), t.widths[p] - (b.lens[j] - ROOT_BITS))
    ensures SubEntry(b, t, j + 1, q, s) ==
              if q == p && lo <= s < lo + count then Entry(b.lens[j] - ROOT_BITS, b.syms[j])
                  else SubEntry(b, t, j, q, s)
  {
    if b.lens[j] <= ROOT_BITS + t.widths[q] {
      ShrRange(s, t.widths[q] - (b.lens[j] - ROOT_BITS), b.Suffix(j));
    }
  }

  lemma AddedLong(b: Book, t: Layout, e: seq<Entry>, j: nat, p: nat, lo: nat, count: nat)
    requires Describes(b, t, j) && RootOf(b, j, p) && p in t.bases
    requires b.lens[j] - ROOT_BITS <= t.widths[p]
    requires count == Pow2(t.widths[p] - (b.lens[j] - ROOT_BITS))
    requires lo == Shl(b.Suffix(j), t.widths[p] - (b.lens[j] - ROOT_BITS))
    requires lo + count <= t.Size(p)
    requires Filled(t.entries, e, t.bases[p] + lo, count, Entry(b.lens[j] - ROOT_BITS, b.syms[j]))
    ensures Describes(b, t.(entries := e), j + 1)
  {
    var t' := t.(entries := e);
    assert t.Subtable(p);
    forall q | q in t.bases
      ensures e[q] == t.entries[q]
    {
      assert t.Subtable(q);
    }
    ShapeKept(t, e);
    forall q, s: nat | q in t.bases && s < t.Size(q)
      ensures SubCell(t', q, s) == SubEntry(b, t', j + 1, q, s)
    {
      LongCell(b, t, j, p, q, s, lo, count);
      LongKept(b, t, t', j, p, q, s, lo, count);
    }
    forall v: nat | v < 256 && v !in t.bases
      ensures e[v] == RootEntry(b, j + 1, v)
    {
      assert t.entries[v] == RootEntry(b, j, v);
    }
  }

  lemma LongKept(b: Book, t: Layout, t': Layout, j: nat, p: nat, q: nat, s: nat, lo: nat, count: nat)
    requires b.Valid() && j < |b.lens| && b.lens[j] > ROOT_BITS
    requires t.Shaped() && t'.Shaped() && t' == t.(entries := t'.entries) && SubsOk(b, t, j)
    requires p in t.bases && q in t.bases && s < t.Size(q) && lo + count <= t.Size(p)
    requires Filled(t.entries, t'.entries, t.bases[p] + lo, count, Entry(b.lens[j] - ROOT_BITS, b.syms[j]))
    ensures SubCell(t', q, s) ==
              if q == p && lo <= s < lo + count then Entry(b.lens[j] - ROOT_BITS, b.syms[j])
                  else SubEntry(b, t, j, q, s)
  {
    assert t.Subtable(p) && t.Subtable(q);
    assert q != p ==> t.Apart(q, p);
    assert SubCell(t, q, s) == SubEntry(b, t, j, q, s);
  }

  // ----- reading the table

  /** A short codeword begins the input iff it owns the peeked root index. */
  lemma ShortBegins(b: Book, c: Cursor, j: nat)
    requires b.Valid() && j < |b.lens| && b.lens[j] <= ROOT_BITS
    ensures b.Begins(j, c) <==> b.InRoot(j, c.Peek(ROOT_BITS))
  {
    BeginsCovers(b, c, j, ROOT_BITS);
  }

  /** A long codeword begins the input iff it owns the index peeked behind the
      root, also when the input ends inside it. */
  lemma LongBegins(b: Book, c: Cursor, j: nat, w: nat)
    requires b.Valid() && j < |b.lens| && ROOT_BITS < b.lens[j] <= ROOT_BITS + w && c.Valid()
    ensures b.Begins(j, c) <==> b.InSub(j, c.Peek(ROOT_BITS), w, c.Skip(ROOT_BITS).Peek(w))
  {
    var n := b.lens[j] - ROOT_BITS;
    var x := Window(c.s, c.pos, b.lens[j]);
    ValHigh(x, ROOT_BITS);
    assert x[..ROOT_BITS] == Window(c.s, c.pos, ROOT_BITS);
    var y := Window(c.s, c.Skip(ROOT_BITS).pos, w);
    assert x[ROOT_BITS..] == y[..n];
    ValHigh(y, n);
    SplitHighLow(Val(x), b.codes[j], n);
  }

  lemma RootHit(b: Book, t: Layout, c: Cursor, v: nat)
    requires Describes(b, t, |b.lens|) && b.PrefixFree()
    requires v == c.Peek(ROOT_BITS) && v < 256 && v !in t.bases && t.entries[v].n > 0
    ensures Lookup(b, c) == Found(t.entries[v].sym, c.Skip(t.entries[v].n))
  {
    assert t.entries[v] == RootEntry(b, |b.lens|, v);
    var o := b.RootOwner(|b.lens|, v);
    b.RootOwnerIs(|b.lens|, v);
    ShortBegins(b, c, o);
    LookupIs(b, c, o);
  }

  lemma RootMiss(b: Book, t: Layout, c: Cursor, v: nat)
    requires Describes(b, t, |b.lens|) && b.PrefixFree() && c.Valid()
    requires v == c.Peek(ROOT_BITS) && v < 256 && v !in t.bases && t.entries[v].n == 0
    ensures Lookup(b, c).Missing?
  {
    assert t.entries[v] == RootEntry(b, |b.lens|, v);
    b.RootOwnerIs(|b.lens|, v);
    forall j: nat ensures !b.Begins(j, c) {
      if b.Begins(j, c) {
        if b.lens[j] <= ROOT_BITS {
          ShortBegins(b, c, j);
        } else {
          BeginsRoot(b, c, j);
        }
      }
    }
  }

  lemma BeginsRoot(b: Book, c: Cursor, j: nat)
    requires b.Valid() && b.Begins(j, c) && b.lens[j] > ROOT_BITS && c.Valid()
    ensures RootOf(b, j, c.Peek(ROOT_BITS))
  {
    LongBegins(b, c, j, b.lens[j] - ROOT_BITS);
  }

  lemma SubHit(b: Book, t: Layout, c: Cursor, v: nat, s: nat)
    requires Describes(b, t, |b.lens|) && b.PrefixFree() && v in t.bases && c.Valid() && v == c.Peek(ROOT_BITS)
    requires s == c.Skip(ROOT_BITS).Peek(t.widths[v]) && s < t.Size(v) && SubCell(t, v, s).n > 0
    ensures var e := SubCell(t, v, s);
            Lookup(b, c) == Found(e.sym, c.Skip(ROOT_BITS).Skip(e.n))
  {
    assert SubCell(t, v, s) == SubEntry(b, t, |b.lens|, v, s);
    var o := b.SubOwner(|b.lens|, v, t.widths[v], s);
    b.SubOwnerIs(|b.lens|, v, t.widths[v], s);
    LongBegins(b, c, o, t.widths[v]);
    LookupIs(b, c, o);
  }

  lemma SubMiss(b: Book, t: Layout, c: Cursor, v: nat, s: nat)
    requires Describes(b, t, |b.lens|) && b.PrefixFree() && v in t.bases && c.Valid() && v == c.Peek(ROOT_BITS)
    requires s == c.Skip(ROOT_BITS).Peek(t.widths[v]) && s < t.Size(v) && SubCell(t, v, s).n <= 0
    ensures Lookup(b, c).Missing?
  {
    assert SubCell(t, v, s) == SubEntry(b, t, |b.lens|, v, s);
    b.SubOwnerIs(|b.lens|, v, t.widths[v], s);
    forall j: nat ensures !b.Begins(j, c) {
      if b.Begins(j, c) {
        if b.lens[j] > ROOT_BITS {
          BeginsRoot(b, c, j);
          LongBegins(b, c, j, t.widths[v]);
        } else {
          ShortBegins(b, c, j);
          ShortNotOpen(b, t, |b.lens|, j, v);
        }
      }
    }
  }

  lemma ShortNotOpen(b: Book, t: Layout, n: nat, j: nat, v: nat)
    requires b.Valid() && b.PrefixFree() && OpenOk(b, t.bases, n)
    requires j < |b.lens| && b.lens[j] <= ROOT_BITS && v in t.bases
    ensures !b.InRoot(j, v)
  {
    var k: nat :| RootOf(b, k, v);
    RootPrefix(b, j, k);
  }

  lemma PeekBound(c: Cursor, n: nat)
    ensures c.Peek(n) < Pow2(n)
  {
    ValBound(Window(c.s, c.pos, n));
  }

  class Table {
    var t: Layout
    const book: Book

    ghost predicate Valid()
      reads this
    {
      book.Valid() && book.PrefixFree() && Describes(book, t, |book.lens|)
    }

    /** Builds the table for a prefix-free book. */
    constructor New(b: Book)
      requires b.Valid() && b.PrefixFree()
      ensures Valid() && book == b
    {
      book := b;
      var widths := MeasureSubtables(b);
      t := Layout(seq(256, _ => EMPTY), map[], widths);
      new;
      for j := 0 to |b.lens|
        invariant Describes(b, t, j)
      {
        if b.lens[j] <= ROOT_BITS {
          AddShort(j);
        } else {
          AddLong(j);
        }
      }
    }

    /** First pass: each subtable is as wide as the longest suffix under its root. */
    static method MeasureSubtables(b: Book) returns (widths: map<nat, nat>)
      requires b.Valid()
      ensures WidthsOk(b, widths, |b.lens|)
    {
      widths := map[];
      for j := 0 to |b.lens|
        invariant WidthsOk(b, widths, j)
      {
        if b.lens[j] > ROOT_BITS {
          var p, w := b.Root(j), b.lens[j] - ROOT_BITS;
          if p !in widths || w > widths[p] {
            widths := widths[p := w];
          }
        }
      }
    }

    /** Overwrites count entries from base on. */
    method Fill(base: nat, count: nat, e: Entry)
      requires base + count <= |t.entries|
      modifies this`t
      ensures t == old(t).(entries := t.entries)
      ensures Filled(old(t.entries), t.entries, base, count, e)
    {
      for k := 0 to count
        invariant t == old(t).(entries := t.entries)
        invariant Filled(old(t.entries), t.entries, base, k, e)
      {
        t := t.(entries := t.entries[base + k := e]);
      }
    }

    /** A short codeword fills its aligned range of the root. */
    method AddShort(j: nat)
      requires Describes(book, t, j) && book.PrefixFree() && j < |book.lens| && book.lens[j] <= ROOT_BITS
      modifies this`t
      ensures Describes(book, t, j + 1)
    {
      var count := Pow2(ROOT_BITS - book.lens[j]);
      var base := Shl(book.codes[j], ROOT_BITS - book.lens[j]);
      ShlBound(book.codes[j], book.lens[j], ROOT_BITS - book.lens[j]);
      ByteBound(0);
      ghost var was := t;
      Fill(base, count, Entry(book.lens[j], book.syms[j]));
      AddedShort(book, was, t.entries, j, base, count);
    }

    /** A long codeword opens its root's subtable if it is the first there, then
        fills its range of it. */
    method AddLong(j: nat)
      requires Describes(book, t, j) && j < |book.lens| && book.lens[j] > ROOT_BITS
      modifies this`t
      ensures Describes(book, t, j + 1)
    {
      var p := book.Root(j);
      RootBound(book, j);
      if p !in t.bases {
        Opened(book, t, j, p);
        t := Open(t, p);
      }
      FillSubtable(j, p);
    }

    method FillSubtable(j: nat, p: nat)
      requires Describes(book, t, j) && RootOf(book, j, p) && p in t.bases
      modifies this`t
      ensures Describes(book, t, j + 1)
    {
      LongRange(book, t, j, p);
      var k := t.widths[p] - (book.lens[j] - ROOT_BITS);
      var lo, count := Shl(book.Suffix(j), k), Pow2(k);
      ghost var was := t;
      Fill(t.bases[p] + lo, count, Entry(book.lens[j] - ROOT_BITS, book.syms[j]));
      AddedLong(book, was, t.entries, j, p, lo, count);
    }

    /** Decodes one codeword: the symbol and its bits consumed exactly when some
        codeword begins the zero-padded input, failure exactly when none does. */
    method Decode(r: Reader) returns (sym: nat, ok: bool)
      requires Valid() && r.Valid()
      modifies r`pos, r`overread
      ensures r.Valid()
      ensures ok <==> Lookup(book, old(r.Cur())).Found?
      ensures ok ==> Found(sym, r.Cur()) == Lookup(book, old(r.Cur()))
    {
      hide Lookup, RootEntry, SubEntry, BytesBits, Book.PrefixFree, Describes, Cursor.Peek, Layout.Shaped, SubCell;
      ghost var c := r.Cur();
      var v := r.Peek(ROOT_BITS);
      PeekRoot(c);
      RootFacts(book, t, v);
      var e := t.entries[v];
      if e.n > 0 {
        RootHit(book, t, c, v);
        r.Skip(e.n);
        return e.sym, true;
      }
      if e.n == 0 {
        RootMiss(book, t, c, v);
        return 0, false;
      }
      r.Skip(ROOT_BITS);
      var s := r.Peek(-e.n);
      PeekBound(c.Skip(ROOT_BITS), t.widths[v]);
      SubFacts(book, t, v, s);
      e := t.entries[e.sym + s];
      if e.n <= 0 {
        SubMiss(book, t, c, v, s);
        return 0, false;
      }
      SubHit(book, t, c, v, s);
      r.Skip(e.n);
      return e.sym, true;
    }
  }

  /** A root entry without a subtable is its owner's; the others escape. */
  lemma RootFacts(b: Book, t: Layout, v: nat)
    requires Describes(b, t, |b.lens|) && v < 256
    ensures |t.entries| >= 256
    ensures v !in t.bases ==> t.entries[v].n >= 0
    ensures v in t.bases ==> v in t.widths && 1 <= t.widths[v] <= 24 && t.Subtable(v) && t.entries[v].n < 0
  {
    assert v in t.bases ==> t.Subtable(v);
    assert v !in t.bases ==> t.entries[v] == RootEntry(b, |b.lens|, v);
  }

  lemma SubFacts(b: Book, t: Layout, v: nat, s: nat)
    requires Describes(b, t, |b.lens|) && v in t.bases && v in t.widths && s < t.Size(v)
    ensures t.Shaped() && t.Subtable(v) && SubCell(t, v, s) == t.entries[t.bases[v] + s]
  {
    assert t.Subtable(v);
  }

  lemma PeekRoot(c: Cursor)
    ensures c.Peek(ROOT_BITS) < 256
  {
    ValBound(Window(c.s, c.pos, ROOT_BITS));
    ByteBound(0);
  }

  /** A short codeword covering the root of a long one would be its prefix. */
  lemma RootPrefix(b: Book, j: nat, k: nat)
    requires b.Valid() && b.PrefixFree() && j < |b.lens| && k < |b.lens|
    requires b.lens[j] <= ROOT_BITS < b.lens[k]
    ensures !b.Covers(j, ROOT_BITS, b.Root(k))
  {
    if b.Covers(j, ROOT_BITS, b.Root(k)) {
      ShrAdd(b.codes[k], b.lens[k] - ROOT_BITS, ROOT_BITS - b.lens[j]);
      assert b.IsPrefix(j, k);
    }
  }

  lemma RootBound(b: Book, j: nat)
    requires b.Valid() && j < |b.lens| && b.lens[j] > ROOT_BITS
    ensures b.Root(j) < 256
  {
    ShrBound(b.codes[j], ROOT_BITS, b.lens[j] - ROOT_BITS);
    ByteBound(0);
  }
}
