/** ADTS headers as other encoders write them: every field is read from its own
    place, whatever the others hold. */
module AdtsAny {
  import opened BitStrings
  import opened BitReader
  import opened AdtsHeader

  /** The fields of a header, those that are only skipped included. */
  datatype Raw = Raw(id: nat, layer: nat, crcAbsent: nat, profile: nat, rateIndex: nat, isPrivate: nat, chan: nat,
                     flags: nat, length: nat, fullness: nat, blocks: nat)

  predicate Legal(h: Raw) {
    && h.id < 2 && h.layer < 4 && h.crcAbsent < 2 && h.profile < 4 && h.rateIndex < 13 && h.isPrivate < 2
    && h.chan < 8 && h.flags < 16 && HEADER_SIZE <= h.length < 8192 && h.fullness < 2048 && h.blocks < 4
  }

  function FixedPart(h: Raw, rest: Bits): Bits {
    ToBits(12, 0xfff) + (ToBits(1, h.id) + (ToBits(2, h.layer) + (ToBits(1, h.crcAbsent) + (ToBits(2, h.profile)
    + (ToBits(4, h.rateIndex) + (ToBits(1, h.isPrivate) + (ToBits(3, h.chan) + rest)))))))
  }

  function VariablePart(h: Raw): Bits {
    ToBits(4, h.flags) + (ToBits(13, h.length) + (ToBits(11, h.fullness) + ToBits(2, h.blocks)))
  }

  lemma FixedReads(c: Cursor, h: Raw, rest: Bits)
    requires Legal(h) && c.Ahead(FixedPart(h, rest))
    ensures c.Peek(12) == 0xfff && c.Skip(12).Skip(1).Skip(2) == c.Adv(15) && c.Adv(15).Peek(1) == h.crcAbsent
    ensures c.Adv(15).Skip(1) == c.Adv(16) && c.Adv(16).Peek(2) == h.profile && c.Adv(16).Skip(2) == c.Adv(18)
    ensures c.Adv(18).Peek(4) == h.rateIndex && c.Adv(18).Skip(4).Skip(1) == c.Adv(23)
    ensures c.Adv(23).Peek(3) == h.chan && c.Adv(23).Skip(3) == c.Adv(26) && c.Adv(26).Ahead(rest)
  {
    hide Cursor.Ahead, Cursor.Peek, ToBits;
    SmallPowers();
    FieldSizes();
    var r7 := ToBits(3, h.chan) + rest;
    var r6 := ToBits(1, h.isPrivate) + r7;
    var r5 := ToBits(4, h.rateIndex) + r6;
    var r4 := ToBits(2, h.profile) + r5;
    var r3 := ToBits(1, h.crcAbsent) + r4;
    var r2 := ToBits(2, h.layer) + r3;
    TakeField(c, 12, 0xfff, ToBits(1, h.id) + r2);
    TakeField(c.Adv(12), 1, h.id, r2);
    TakeField(c.Adv(13), 2, h.layer, r3);
    TakeField(c.Adv(15), 1, h.crcAbsent, r4);
    TakeField(c.Adv(16), 2, h.profile, r5);
    TakeField(c.Adv(18), 4, h.rateIndex, r6);
    TakeField(c.Adv(22), 1, h.isPrivate, r7);
    TakeField(c.Adv(23), 3, h.chan, rest);
  }

  lemma VariableReads(c: Cursor, h: Raw)
    requires Legal(h) && c.Ahead(VariablePart(h))
    ensures c.Skip(1).Skip(1).Skip(1).Skip(1) == c.Adv(4) && c.Adv(4).Peek(13) == h.length
    ensures c.Adv(4).Skip(13).Skip(11) == c.Adv(28) && c.Adv(28).Peek(2) == h.blocks && c.Adv(28).Skip(2) == c.Adv(30)
  {
    hide Cursor.Peek, ToBits;
    SmallPowers();
    FieldSizes();
    var r2 := ToBits(11, h.fullness) + ToBits(2, h.blocks);
    TakeField(c, 4, h.flags, ToBits(13, h.length) + r2);
    TakeField(c.Adv(4), 13, h.length, r2);
    TakeField(c.Adv(17), 11, h.fullness, ToBits(2, h.blocks));
    ReadField(c.Adv(28), 2, h.blocks);
  }

  /** Any header with a table rate and a length that holds itself parses to its
      fields. */
  lemma AnyHeaderReads(c: Cursor, h: Raw)
    requires Legal(h) && !c.over && c.Ahead(FixedPart(h, VariablePart(h)))
    ensures ParseHeader(c)
            == Ok(Header(h.profile + 1, h.chan, h.crcAbsent, h.blocks + 1, h.rateIndex, SampleRates()[h.rateIndex],
                         (h.blocks + 1) * 1024, h.length))
    ensures HeaderEnd(c) == c.Adv(56)
  {
    hide Cursor.Ahead, Cursor.Peek, Cursor.Skip, FixedPart, VariablePart, SampleRates;
    FixedReads(c, h, VariablePart(h));
    VariableReads(c.Adv(26), h);
    RatePositive(h.rateIndex);
  }

  lemma RatePositive(i: nat)
    requires i < 13
    ensures SampleRates()[i] != 0
  {
  }
}
