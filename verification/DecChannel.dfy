/** The decoder's channel state, and the parser of ics_info that fills it in
    place. */
module DecChannel {
  import opened BitReader
  import opened AacSyntax
  import opened AacParse

  /** individual_channel_stream configuration. Index 0 of the window sequence and
      shape is the current unit, index 1 the previous one. */
  datatype IcsInfo = IcsInfo(seq0: nat, seq1: nat, kb0: nat, kb1: nat, maxSfb: nat, numWindows: nat,
                             numWindowGroups: nat,
                             groupLen: seq<nat>, numSwb: nat, swbOffset: seq<nat>)

  /** One channel down to quantized coefficients, and its overlap memory. The
      arrays keep whatever earlier units left beyond what is read into them. */
  class Sce {
    var ics: IcsInfo
    var tns: Option<seq<seq<Filter>>>
    var bandType: seq<nat>
    var sfo: seq<int>
    var sf: seq<int>
    var qcoefs: seq<int>
    var pulses: seq<Pulse>
    var pulsePresent: bool
    var coeffs: seq<int>
    var saved: seq<int>
    var output: seq<int>

    ghost predicate Sized()
      reads this
    {
      && |bandType| == |sfo| == |sf| == 128 && |ics.groupLen| == 8
      && |qcoefs| == |coeffs| == |output| == 1024 && |saved| == 1536
    }

    /** The zero value. */
    constructor ()
      ensures Sized() && IsZero()
    {
      ics := ZeroIcs();
      tns, pulses, pulsePresent := None, [], false;
      bandType, sfo, sf := seq(128, _ => 0), seq(128, _ => 0), seq(128, _ => 0);
      qcoefs, coeffs, output := seq(1024, _ => 0), seq(1024, _ => 0), seq(1024, _ => 0);
      saved := seq(1536, _ => 0);
    }

    /** Puts the zero value back. */
    method Clear()
      modifies this
      ensures Sized() && IsZero()
    {
      ics := ZeroIcs();
      tns, pulses, pulsePresent := None, [], false;
      bandType, sfo, sf := seq(128, _ => 0), seq(128, _ => 0), seq(128, _ => 0);
      qcoefs, coeffs, output := seq(1024, _ => 0), seq(1024, _ => 0), seq(1024, _ => 0);
      saved := seq(1536, _ => 0);
    }

    /** What later units can see of the zero value. */
    ghost predicate IsZero()
      reads this
    {
      ics == ZeroIcs() && saved == seq(1536, _ => 0) && tns.None?
    }
  }

  function ZeroIcs(): IcsInfo {
    IcsInfo(0, 0, 0, 0, 0, 0, 0, seq(8, _ => 0), 0, [])
  }

  /** The failure of a parse, if it is one. */
  function Failure<T>(p: Parsed<T>): Option<Err> {
    if p.Bad? then Some(p.err) else None
  }

  /** i is what parsing p leaves, its window history aside. */
  ghost predicate IcsShown(i: IcsInfo, t: Tables, p: Ics) {
    && i.seq0 == p.seq0 && i.kb0 == p.kb && i.maxSfb == p.maxSfb
    && |i.groupLen| == 8 && i.numWindowGroups == |p.groups| <= 8 && i.groupLen[..i.numWindowGroups] == p.groups
    && i.swbOffset == t.Edges(p.Short()) && i.numSwb == |i.swbOffset| - 1
        && i.numWindows == (if p.Short() then 8 else 1)
  }

  lemma GroupsStep(c: Cursor, left: nat, groups: seq<nat>)
    requires |groups| > 0
    ensures left == 0 ==> ParseGroups(c, left, groups) == (groups, c)
    ensures left > 0 ==>
              ParseGroups(c, left, groups) ==
              (if c.Peek(1) != 0 then ParseGroups(c.Skip(1), left - 1, groups[|groups| - 1 := groups[|groups| - 1] + 1])
               else ParseGroups(c.Skip(1), left - 1, groups + [1]))
  {
  }

  /** The seven grouping bits. */
  method DecodeGroups(r: Reader, gl: seq<nat>) returns (groupLen: seq<nat>, groups: nat)
    requires r.Valid() && |gl| == 8 && gl[0] == 1
    modifies r`pos, r`overread
    ensures r.Valid()
    ensures |groupLen| == 8 && groups <= 8 && (groupLen[..groups], r.Cur()) == ParseGroups(old(r.Cur()), 7, [1])
  {
    hide ParseGroups, Reader.Cur, Reader.Valid;
    groupLen, groups := gl, 1;
    assert groupLen[..1] == [1];
    for i := 0 to 7
      invariant r.Valid() && |groupLen| == 8 && 1 <= groups <= i + 1
      invariant ParseGroups(r.Cur(), 7 - i, groupLen[..groups]) == ParseGroups(old(r.Cur()), 7, [1])
    {
      ghost var c, was := r.Cur(), groupLen[..groups];
      GroupsStep(c, 7 - i, was);
      var bit := r.Read(1);
      if bit != 0 {
        groupLen := groupLen[groups - 1 := groupLen[groups - 1] + 1];
        assert groupLen[..groups] == was[groups - 1 := was[groups - 1] + 1];
      } else {
        groups := groups + 1;
        groupLen := groupLen[groups - 1 := 1];
        assert groupLen[..groups] == was + [1];
      }
    }
    GroupsStep(r.Cur(), 0, groupLen[..groups]);
  }

  /** The part of ics_info that describes eight short windows. */
  method DecodeShort(r: Reader, sce: Sce, t: Tables)
    requires r.Valid() && sce.Sized() && |t.shortEdges| >= 2 && sce.ics.groupLen[0] == 1
    modifies r`pos, r`overread, sce`ics
    ensures r.Valid() && sce.Sized()
    ensures var (c, i) := (old(r.Cur()), old(sce.ics));
            var (groups, c') := ParseGroups(c.Skip(4), 7, [1]);
            && r.Cur() == c' && |groups| <= 8
            && sce.ics == i.(maxSfb := c.Peek(4), groupLen := sce.ics.groupLen, numWindowGroups := |groups|,
                             numWindows := 8,
                             swbOffset := t.shortEdges, numSwb := |t.shortEdges| - 1)
            && sce.ics.groupLen[..|groups|] == groups
  {
    hide ParseGroups, Reader.Cur, Reader.Valid, Cursor.Peek;
    var v := r.Read(4);
    sce.ics := sce.ics.(maxSfb := v);
    var gl, groups := DecodeGroups(r, sce.ics.groupLen);
    sce.ics := sce.ics.(groupLen := gl, numWindowGroups := groups);
    sce.ics := sce.ics.(numWindows := 8, swbOffset := t.shortEdges, numSwb := |t.shortEdges| - 1);
  }

  /** The part of ics_info that describes one long window; prediction is refused. */
  method DecodeLong(r: Reader, sce: Sce, t: Tables) returns (predicted: bool)
    requires r.Valid() && sce.Sized() && |t.longEdges| >= 2
    modifies r`pos, r`overread, sce`ics
    ensures r.Valid() && sce.Sized()
    ensures var (c, i) := (old(r.Cur()), old(sce.ics));
            && predicted == (c.Skip(6).Peek(1) != 0) && r.Cur() == c.Skip(6).Skip(1)
            && sce.ics == i.(maxSfb := if predicted then 0 else c.Peek(6), numWindows := 1,
                             swbOffset := t.longEdges, numSwb := |t.longEdges| - 1)
  {
    hide Reader.Cur, Reader.Valid, Cursor.Peek;
    var v := r.Read(6);
    sce.ics := sce.ics.(maxSfb := v);
    sce.ics := sce.ics.(numWindows := 1, swbOffset := t.longEdges, numSwb := |t.longEdges| - 1);
    v := r.Read(1);
    predicted := v != 0;
    if predicted {
      sce.ics := sce.ics.(maxSfb := 0);
    }
  }

  /** ics_info: shifts the window history and reads the new configuration, or
      fails and leaves no transmitted bands. */
  method DecodeIcsInfo(r: Reader, sce: Sce, t: Tables) returns (err: Option<Err>)
    requires r.Valid() && sce.Sized() && t.Valid()
    modifies r`pos, r`overread, sce`ics
    ensures r.Valid() && sce.Sized()
    ensures sce.ics.seq1 == old(sce.ics.seq0) && sce.ics.kb1 == old(sce.ics.kb0)
    ensures var p := ParseIcs(t, old(r.Cur()));
            && err == Failure(p)
            && (p.Good? ==> r.Cur() == p.c && IcsShown(sce.ics, t, p.val))
            && (p.Bad? ==> sce.ics.maxSfb == 0)
  {
    hide ParseGroups, Reader.Cur, Reader.Valid, Tables.Valid, Cursor.Peek;
    EdgesExist(t);
    var reserved := r.Read(1);
    var seq0 := r.Read(2);
    var kb0 := r.Read(1);
    sce.ics := sce.ics.(seq1 := sce.ics.seq0, seq0 := seq0, kb1 := sce.ics.kb0, kb0 := kb0,
                        numWindowGroups := 1, groupLen := sce.ics.groupLen[0 := 1]);
    assert sce.ics.groupLen[..1] == [1];
    if sce.ics.seq0 == EIGHT_SHORT {
      DecodeShort(r, sce, t);
    } else {
      var predicted := DecodeLong(r, sce, t);
      if predicted {
        return Some(InvalidData);
      }
    }
    if sce.ics.maxSfb > sce.ics.numSwb {
      sce.ics := sce.ics.(maxSfb := 0);
      return Some(InvalidData);
    }
    err := None;
  }

  lemma EdgesExist(t: Tables)
    requires t.Valid()
    ensures |t.shortEdges| >= 2 && |t.longEdges| >= 2
  {
  }
}
