/**
 Parsing a binary packet.  The group parsers take the fields they know, in order, from a
 cursor that must not run into the CRC; together they are meant to use up the payload that
 the length table announces.
 */
module VnComposite {
  import opened VnPacket
  import opened VnBinary

  /** Whether an extraction went through or threw because a field would run into the CRC. */
  datatype Extraction = Extracted | Overrun {
    predicate IsFailure() {
      Overrun?
    }

    function PropagateFailure(): Extraction
      requires Overrun?
    {
      Overrun
    }
  }

  /** A field handed on by a group parser: which group, which flag, and its bytes. */
  datatype Field = Field(group: nat, flag: nat, bytes: seq<bv8>)

  /** Bytes the parser of a group takes for each flag; 0 for flags it does not know. */
  function ParsedLengths(g: nat): (lengths: seq<nat>)
    requires g < 7
    ensures |lengths| == 16
  {
    match g
    case 0 => [8, 8, 8, 12, 16, 12, 24, 12, 12, 24, 20, 28, 2, 4, 8, 0]
    case 1 => [8, 8, 8, 2, 8, 8, 8, 4, 4, 1, 0, 0, 0, 0, 0, 0]
    case 2 => [2, 12, 12, 12, 4, 4, 16, 12, 12, 12, 12, 2, 0, 0, 0, 0]
    case 3 => [8, 8, 2, 1, 1, 24, 24, 12, 12, 12, 4, 4, 2, 28, 0, 0]
    case 4 => [2, 12, 16, 36, 12, 12, 12, 12, 12, 0, 0, 0, 0, 0, 0, 0]
    case 5 => [2, 24, 24, 12, 12, 12, 12, 12, 12, 4, 4, 0, 0, 0, 0, 0]
    case 6 => [8, 8, 2, 1, 1, 24, 24, 12, 12, 12, 4, 4, 2, 28, 0, 0]
  }

  /** Bytes the parser of group `g` takes for its first `n` flags. */
  function Taken(g: nat, field: bv16, n: nat): nat
    requires g < 7 && n <= 16
  {
    FieldBytes(ParsedLengths(g), field, n)
  }

  /** A run of extractions goes through if there is nothing to take or it ends before the CRC. */
  predicate Fits(p: seq<bv8>, at: nat, bytes: nat) {
    bytes == 0 || at + bytes + 2 <= |p|
  }

  /** The fields of the first `n` flags of group `g`, laid out from `at`. */
  function FieldsOf(p: seq<bv8>, g: nat, field: bv16, at: nat, n: nat): seq<Field>
    requires g < 7 && n <= 16 && Fits(p, at, Taken(g, field, n))
  {
    if n == 0 then []
    else
      FieldsOf(p, g, field, at, n - 1)
      + if Has(field, n - 1) && ParsedLengths(g)[n - 1] > 0
        then [Field(g, n - 1, p[at + Taken(g, field, n - 1)..at + Taken(g, field, n)])]
        else []
  }

  lemma {:induction false} TakenGrows(g: nat, field: bv16, n: nat, m: nat)
    requires g < 7 && n <= m <= 16
    ensures Taken(g, field, n) <= Taken(g, field, m)
  {
    hide ParsedLengths, Has;
    if n < m {
      TakenGrows(g, field, n, m - 1);
    }
  }

  /** Flags past the last one a parser knows take no bytes and give no field. */
  lemma {:induction false} UnknownFlags(p: seq<bv8>, g: nat, field: bv16, at: nat, n: nat, m: nat)
    requires g < 7 && n <= m <= 16
    requires forall k :: n <= k < m ==> ParsedLengths(g)[k] == 0
    ensures Taken(g, field, m) == Taken(g, field, n)
    ensures Fits(p, at, Taken(g, field, n)) ==> FieldsOf(p, g, field, at, m) == FieldsOf(p, g, field, at, n)
  {
    hide ParsedLengths, Has;
    if n < m {
      UnknownFlags(p, g, field, at, n, m - 1);
    }
  }

  // ----- all groups

  /** Where the payload begins: every bit of the group byte counts as a group field. */
  function Start(p: seq<bv8>): nat
    requires |p| >= 2
  {
    2 + 2 * Rank(p[1], 8)
  }

  /** The header of `p` holds the fields of the groups below `n`. */
  predicate HasHeader(p: seq<bv8>, n: nat)
    requires n <= 8
  {
    |p| >= 2 && |p| >= 2 + 2 * Rank(p[1], n)
  }

  /** Bytes taken by the parsers of the groups below `n`. */
  function TakenBelow(p: seq<bv8>, n: nat): nat
    requires n <= 7 && HasHeader(p, n)
  {
    if n == 0 then 0
    else TakenBelow(p, n - 1)
         + if HasGroup(p[1], n - 1) then Taken(n - 1, GroupField(p, Rank(p[1], n - 1)), 16) else 0
  }

  /** The fields of the groups below `n`, in the order they are handed on. */
  function FieldsBelow(p: seq<bv8>, n: nat): seq<Field>
    requires n <= 7 && HasHeader(p, n) && Fits(p, Start(p), TakenBelow(p, n))
  {
    if n == 0 then []
    else
      FieldsBelow(p, n - 1)
      + if HasGroup(p[1], n - 1)
        then FieldsOf(p, n - 1, GroupField(p, Rank(p[1], n - 1)), Start(p) + TakenBelow(p, n - 1), 16)
        else []
  }

  lemma {:induction false} TakenBelowGrows(p: seq<bv8>, n: nat, m: nat)
    requires n <= m <= 7 && HasHeader(p, m)
    ensures HasHeader(p, n) && TakenBelow(p, n) <= TakenBelow(p, m)
  {
    hide Taken, HasGroup;
    RankGrows(p[1]);
    if n < m {
      TakenBelowGrows(p, n, m - 1);
    }
  }

  function Sum(pieces: seq<nat>): nat {
    if pieces == [] then 0 else Sum(pieces[..|pieces| - 1]) + pieces[|pieces| - 1]
  }

  lemma {:induction false} SumGrows(pieces: seq<nat>, n: nat)
    requires 0 < n <= |pieces| && pieces[n - 1] > 0
    ensures Sum(pieces[..n]) == Sum(pieces[..n - 1]) + pieces[n - 1] <= Sum(pieces)
    decreases |pieces|
  {
    assert pieces[..n][..n - 1] == pieces[..n - 1];
    if n < |pieces| {
      assert pieces[..|pieces| - 1][..n] == pieces[..n];
      assert pieces[..|pieces| - 1][..n - 1] == pieces[..n - 1];
      SumGrows(pieces[..|pieces| - 1], n);
    } else {
      assert pieces[..n] == pieces;
    }
  }

  lemma PieceSums()
    ensures forall a :: Sum([a]) == a
    ensures forall a, b :: Sum([a, b]) == a + b
    ensures forall a, b, c :: Sum([a, b, c]) == a + b + c
    ensures Sum([1, 1, 1, 1, 1, 1, 2]) == 8
    ensures Sum([4, 4, 4, 4, 4, 4, 4]) == 28
  {
    assert Sum([]) == 0;
    forall a: nat
      ensures Sum([a]) == a
    {
      assert [a][..0] == [];
    }
    forall a: nat, b: nat
      ensures Sum([a, b]) == a + b
    {
      assert [a, b][..1] == [a];
    }
    forall a: nat, b: nat, c: nat
      ensures Sum([a, b, c]) == a + b + c
    {
      assert [a, b, c][..2] == [a, b];
    }
    SumSeven(1, 1, 1, 1, 1, 1, 2);
    SumSeven(4, 4, 4, 4, 4, 4, 4);
  }

  lemma SumSeven(a: nat, b: nat, c: nat, d: nat, e: nat, f: nat, g: nat)
    ensures Sum([a, b, c, d, e, f, g]) == a + b + c + d + e + f + g
  {
    assert [a][..0] == [] && Sum([a]) == a;
    assert [a, b][..1] == [a];
    assert [a, b, c][..2] == [a, b] && Sum([a, b, c]) == a + b + c;
    assert [a, b, c, d][..3] == [a, b, c];
    assert [a, b, c, d, e][..4] == [a, b, c, d] && Sum([a, b, c, d, e]) == a + b + c + d + e;
    assert [a, b, c, d, e, f][..5] == [a, b, c, d, e];
    assert [a, b, c, d, e, f, g][..6] == [a, b, c, d, e, f];
  }

  /** A packet with its read cursor; 0 means that nothing has been extracted yet. */
  class PacketCursor {
    const data: seq<bv8>
    var curExtractLoc: nat
    var fields: seq<Field>

    ghost predicate Valid()
      reads this
    {
      |data| >= 2 && |data| >= 2 + 2 * Rank(data[1], 7)
    }

    /** Where the next field is read: after one group field for every bit of the group byte. */
    ghost function Position(): nat
      reads this
      requires Valid()
    {
      if curExtractLoc == 0 then 2 + 2 * Rank(data[1], 8) else curExtractLoc
    }

    constructor (data: seq<bv8>)
      requires |data| >= 2 && |data| >= 2 + 2 * Rank(data[1], 7)
      ensures Valid() && this.data == data && curExtractLoc == 0 && fields == []
    {
      this.data := data;
      curExtractLoc := 0;
      fields := [];
    }

    method Extract(n: nat) returns (r: Extraction)
      requires Valid() && n > 0
      modifies this`curExtractLoc
      ensures Valid()
      ensures r.Extracted? <==> Fits(data, old(Position()), n)
      ensures Position() == old(Position()) + if r.Extracted? then n else 0
      ensures r.Extracted? ==> curExtractLoc > 0
    {
      if curExtractLoc == 0 {
        curExtractLoc := 2 + 2 * Rank(data[1], 8);
      }
      if curExtractLoc + n > |data| - 2 {
        return Overrun;
      }
      curExtractLoc := curExtractLoc + n;
      return Extracted;
    }

    /** The first `n` flags of a group have been dealt with, starting from `at`. */
    ghost predicate Done(at: nat, before: seq<Field>, g: nat, field: bv16, n: nat)
      requires Valid() && g < 7 && n <= 16
      reads this
    {
      && Fits(data, at, Taken(g, field, n))
      && Position() == at + Taken(g, field, n)
      && fields == before + FieldsOf(data, g, field, at, n)
    }

    /** One flag of a group: if it is set, its pieces are extracted one after the other. */
    method TakeField(ghost at: nat, ghost before: seq<Field>, g: nat, field: bv16, i: nat, pieces: seq<nat>)
      returns (r: Extraction)
      requires Valid() && g < 7 && i < 16 && Done(at, before, g, field, i)
      requires pieces != [] && (forall k :: 0 <= k < |pieces| ==> pieces[k] > 0)
      requires Sum(pieces) == ParsedLengths(g)[i]
      modifies this
      ensures Valid()
      ensures r.Extracted? ==> Done(at, before, g, field, i + 1)
      ensures r.Overrun? <==> !Fits(data, at, Taken(g, field, i + 1))
    {
      hide ParsedLengths, Has, Rank;
      if !Has(field, i) {
        return Extracted;
      }
      ghost var first := Position();
      for k := 0 to |pieces|
        invariant Valid() && fields == old(fields)
        invariant Position() == first + Sum(pieces[..k])
        invariant k > 0 ==> Sum(pieces[..k]) > 0 && Position() + 2 <= |data| && curExtractLoc > 0
      {
        assert pieces[..k + 1][..k] == pieces[..k];
        SumGrows(pieces, k + 1);
        :- Extract(pieces[k]);
      }
      assert pieces[..|pieces|] == pieces;
      fields := fields + [Field(g, i, data[curExtractLoc - Sum(pieces)..curExtractLoc])];
      return Extracted;
    }

    /** Nothing of a group is done at first, and none of its flags reaches past the last. */
    lemma Begin(at: nat, before: seq<Field>, g: nat, field: bv16)
      requires Valid() && g < 7 && at == Position() && before == fields
      ensures Done(at, before, g, field, 0)
      ensures forall n | 0 <= n <= 16 :: Taken(g, field, n) <= Taken(g, field, 16)
    {
      hide ParsedLengths, Has;
      forall n | 0 <= n <= 16
        ensures Taken(g, field, n) <= Taken(g, field, 16)
      {
        TakenGrows(g, field, n, 16);
      }
    }

    /** Once the flags a parser knows are dealt with, the group is. */
    lemma Finish(at: nat, before: seq<Field>, g: nat, field: bv16, n: nat)
      requires Valid() && g < 7 && n <= 16 && Done(at, before, g, field, n)
      requires forall k :: n <= k < 16 ==> ParsedLengths(g)[k] == 0
      ensures Done(at, before, g, field, 16) && Fits(data, at, Taken(g, field, 16))
    {
      hide ParsedLengths, Has;
      UnknownFlags(data, g, field, at, n, 16);
    }

    method ParseCommonGroup(field: bv16) returns (r: Extraction)
      requires Valid()
      modifies this
      ensures Valid() && (r.Extracted? <==> Fits(data, old(Position()), Taken(0, field, 16)))
      ensures r.Extracted? ==> Done(old(Position()), old(fields), 0, field, 16)
    {
      hide Taken, FieldsOf, Sum, Has, Done, Position;
      PieceSums();
      ghost var at, before := Position(), fields;
      Begin(at, before, 0, field);
      :- TakeField(at, before, 0, field, 0, [8]);
      :- TakeField(at, before, 0, field, 1, [8]);
      :- TakeField(at, before, 0, field, 2, [8]);
      :- TakeField(at, before, 0, field, 3, [12]);
      :- TakeField(at, before, 0, field, 4, [16]);
      :- TakeField(at, before, 0, field, 5, [12]);
      :- TakeField(at, before, 0, field, 6, [24]);
      :- TakeField(at, before, 0, field, 7, [12]);
      :- TakeField(at, before, 0, field, 8, [12]);
      :- TakeField(at, before, 0, field, 9, [12, 12]);
      :- TakeField(at, before, 0, field, 10, [12, 4, 4]);
      :- TakeField(at, before, 0, field, 11, [4, 12, 12]);
      :- TakeField(at, before, 0, field, 12, [2]);
      :- TakeField(at, before, 0, field, 13, [4]);
      :- TakeField(at, before, 0, field, 14, [8]);
      Finish(at, before, 0, field, 15);
      return Extracted;
    }

    method ParseTimeGroup(field: bv16) returns (r: Extraction)
      requires Valid()
      modifies this
      ensures Valid() && (r.Extracted? <==> Fits(data, old(Position()), Taken(1, field, 16)))
      ensures r.Extracted? ==> Done(old(Position()), old(fields), 1, field, 16)
    {
      hide Taken, FieldsOf, Sum, Has, Done, Position;
      PieceSums();
      ghost var at, before := Position(), fields;
      Begin(at, before, 1, field);
      :- TakeField(at, before, 1, field, 0, [8]);
      :- TakeField(at, before, 1, field, 1, [8]);
      :- TakeField(at, before, 1, field, 2, [8]);
      :- TakeField(at, before, 1, field, 3, [2]);
      :- TakeField(at, before, 1, field, 4, [8]);
      :- TakeField(at, before, 1, field, 5, [8]);
      :- TakeField(at, before, 1, field, 6, [1, 1, 1, 1, 1, 1, 2]);
      :- TakeField(at, before, 1, field, 7, [4]);
      :- TakeField(at, before, 1, field, 8, [4]);
      :- TakeField(at, before, 1, field, 9, [1]);
      Finish(at, before, 1, field, 10);
      return Extracted;
    }

    method ParseImuGroup(field: bv16) returns (r: Extraction)
      requires Valid()
      modifies this
      ensures Valid() && (r.Extracted? <==> Fits(data, old(Position()), Taken(2, field, 16)))
      ensures r.Extracted? ==> Done(old(Position()), old(fields), 2, field, 16)
    {
      hide Taken, FieldsOf, Sum, Has, Done, Position;
      PieceSums();
      ghost var at, before := Position(), fields;
      Begin(at, before, 2, field);
      :- TakeField(at, before, 2, field, 0, [2]);
      :- TakeField(at, before, 2, field, 1, [12]);
      :- TakeField(at, before, 2, field, 2, [12]);
      :- TakeField(at, before, 2, field, 3, [12]);
      :- TakeField(at, before, 2, field, 4, [4]);
      :- TakeField(at, before, 2, field, 5, [4]);
      :- TakeField(at, before, 2, field, 6, [4, 12]);
      :- TakeField(at, before, 2, field, 7, [12]);
      :- TakeField(at, before, 2, field, 8, [12]);
      :- TakeField(at, before, 2, field, 9, [12]);
      :- TakeField(at, before, 2, field, 10, [12]);
      :- TakeField(at, before, 2, field, 11, [2]);
      Finish(at, before, 2, field, 12);
      return Extracted;
    }

    method ParseGpsGroup(field: bv16) returns (r: Extraction)
      requires Valid()
      modifies this
      ensures Valid() && (r.Extracted? <==> Fits(data, old(Position()), Taken(3, field, 16)))
      ensures r.Extracted? ==> Done(old(Position()), old(fields), 3, field, 16)
    {
      hide Taken, FieldsOf, Sum, Has, Done, Position;
      PieceSums();
      ghost var at, before := Position(), fields;
      Begin(at, before, 3, field);
      :- TakeField(at, before, 3, field, 0, [1, 1, 1, 1, 1, 1, 2]);
      :- TakeField(at, before, 3, field, 1, [8]);
      :- TakeField(at, before, 3, field, 2, [2]);
      :- TakeField(at, before, 3, field, 3, [1]);
      :- TakeField(at, before, 3, field, 4, [1]);
      :- TakeField(at, before, 3, field, 5, [24]);
      :- TakeField(at, before, 3, field, 6, [24]);
      :- TakeField(at, before, 3, field, 7, [12]);
      :- TakeField(at, before, 3, field, 8, [12]);
      :- TakeField(at, before, 3, field, 9, [12]);
      :- TakeField(at, before, 3, field, 10, [4]);
      :- TakeField(at, before, 3, field, 11, [4]);
      :- TakeField(at, before, 3, field, 12, [1, 1]);
      :- TakeField(at, before, 3, field, 13, [4, 4, 4, 4, 4, 4, 4]);
      Finish(at, before, 3, field, 14);
      return Extracted;
    }

    method ParseAttitudeGroup(field: bv16) returns (r: Extraction)
      requires Valid()
      modifies this
      ensures Valid() && (r.Extracted? <==> Fits(data, old(Position()), Taken(4, field, 16)))
      ensures r.Extracted? ==> Done(old(Position()), old(fields), 4, field, 16)
    {
      hide Taken, FieldsOf, Sum, Has, Done, Position;
      PieceSums();
      ghost var at, before := Position(), fields;
      Begin(at, before, 4, field);
      :- TakeField(at, before, 4, field, 0, [2]);
      :- TakeField(at, before, 4, field, 1, [12]);
      :- TakeField(at, before, 4, field, 2, [16]);
      :- TakeField(at, before, 4, field, 3, [36]);
      :- TakeField(at, before, 4, field, 4, [12]);
      :- TakeField(at, before, 4, field, 5, [12]);
      :- TakeField(at, before, 4, field, 6, [12]);
      :- TakeField(at, before, 4, field, 7, [12]);
      :- TakeField(at, before, 4, field, 8, [12]);
      Finish(at, before, 4, field, 9);
      return Extracted;
    }

    method ParseInsGroup(field: bv16) returns (r: Extraction)
      requires Valid()
      modifies this
      ensures Valid() && (r.Extracted? <==> Fits(data, old(Position()), Taken(5, field, 16)))
      ensures r.Extracted? ==> Done(old(Position()), old(fields), 5, field, 16)
    {
      hide Taken, FieldsOf, Sum, Has, Done, Position;
      PieceSums();
      ghost var at, before := Position(), fields;
      Begin(at, before, 5, field);
      :- TakeField(at, before, 5, field, 0, [2]);
      :- TakeField(at, before, 5, field, 1, [24]);
      :- TakeField(at, before, 5, field, 2, [24]);
      :- TakeField(at, before, 5, field, 3, [12]);
      :- TakeField(at, before, 5, field, 4, [12]);
      :- TakeField(at, before, 5, field, 5, [12]);
      :- TakeField(at, before, 5, field, 6, [12]);
      :- TakeField(at, before, 5, field, 7, [12]);
      :- TakeField(at, before, 5, field, 8, [12]);
      :- TakeField(at, before, 5, field, 9, [4]);
      :- TakeField(at, before, 5, field, 10, [4]);
      Finish(at, before, 5, field, 11);
      return Extracted;
    }

    method ParseGps2Group(field: bv16) returns (r: Extraction)
      requires Valid()
      modifies this
      ensures Valid() && (r.Extracted? <==> Fits(data, old(Position()), Taken(6, field, 16)))
      ensures r.Extracted? ==> Done(old(Position()), old(fields), 6, field, 16)
    {
      hide Taken, FieldsOf, Sum, Has, Done, Position;
      PieceSums();
      ghost var at, before := Position(), fields;
      Begin(at, before, 6, field);
      :- TakeField(at, before, 6, field, 0, [1, 1, 1, 1, 1, 1, 2]);
      :- TakeField(at, before, 6, field, 1, [8]);
      :- TakeField(at, before, 6, field, 2, [2]);
      :- TakeField(at, before, 6, field, 3, [1]);
      :- TakeField(at, before, 6, field, 4, [1]);
      :- TakeField(at, before, 6, field, 5, [24]);
      :- TakeField(at, before, 6, field, 6, [24]);
      :- TakeField(at, before, 6, field, 7, [12]);
      :- TakeField(at, before, 6, field, 8, [12]);
      :- TakeField(at, before, 6, field, 9, [12]);
      :- TakeField(at, before, 6, field, 10, [4]);
      :- TakeField(at, before, 6, field, 11, [4]);
      :- TakeField(at, before, 6, field, 12, [1, 1]);
      :- TakeField(at, before, 6, field, 13, [4, 4, 4, 4, 4, 4, 4]);
      Finish(at, before, 6, field, 14);
      return Extracted;
    }

    /** The groups below `n` have been dealt with. */
    ghost predicate AllDone(n: nat)
      requires Valid() && n <= 7
      reads this
    {
      HeaderHolds(data, n);
      && Fits(data, Start(data), TakenBelow(data, n))
      && Position() == Start(data) + TakenBelow(data, n)
      && fields == FieldsBelow(data, n)
    }

    /** Group `g` of the packet, if it is present; `index` counts the group fields used up. */
    method ParseGroup(g: nat, index: nat) returns (r: Extraction, next: nat)
      requires Valid() && g < 7 && index == Rank(data[1], g) && AllDone(g)
      modifies this
      ensures Valid() && next == Rank(data[1], g + 1)
      ensures r.Extracted? ==> AllDone(g + 1)
      ensures r.Overrun? ==> !Fits(data, Start(data), TakenBelow(data, 7))
    {
      hide Taken, HasGroup, FieldsOf;
      r, next := Extracted, index;
      HeaderHolds(data, g + 1);
      TakenBelowGrows(data, g + 1, 7);
      if HasGroup(data[1], g) {
        var field := GroupField(data, index);
        next := index + 1;
        match g
        case 0 => r := ParseCommonGroup(field);
        case 1 => r := ParseTimeGroup(field);
        case 2 => r := ParseImuGroup(field);
        case 3 => r := ParseGpsGroup(field);
        case 4 => r := ParseAttitudeGroup(field);
        case 5 => r := ParseInsGroup(field);
        case 6 => r := ParseGps2Group(field);
      }
    }

    lemma BeginAll()
      requires Valid() && curExtractLoc == 0 && fields == []
      ensures Rank(data[1], 0) == 0 && AllDone(0)
    {
      hide HasGroup;
    }

    lemma EndAll()
      requires Valid() && AllDone(7)
      ensures Fits(data, Start(data), TakenBelow(data, 7))
      ensures Position() == Start(data) + TakenBelow(data, 7) && fields == FieldsBelow(data, 7)
    {
      hide HasGroup, Taken, FieldsOf, Rank;
    }

    /** Throws exactly when the fields of the seven groups do not fit before the CRC, and
        otherwise hands on all of them in order and stops right behind the last. */
    method ParseBinary() returns (r: Extraction)
      requires Valid() && curExtractLoc == 0 && fields == []
      modifies this
      ensures Valid() && (r.Extracted? <==> Fits(data, Start(data), TakenBelow(data, 7)))
      ensures r.Extracted? ==> Position() == Start(data) + TakenBelow(data, 7)
      ensures r.Extracted? ==> fields == FieldsBelow(data, 7)
    {
      hide HasGroup, Rank, Taken, FieldsOf, Fits, TakenBelow, FieldsBelow, AllDone, Position, HasHeader;
      BeginAll();
      var index := 0;
      r, index := ParseGroup(0, index);
      if r.Overrun? {
        return;
      }
      r, index := ParseGroup(1, index);
      if r.Overrun? {
        return;
      }
      r, index := ParseGroup(2, index);
      if r.Overrun? {
        return;
      }
      r, index := ParseGroup(3, index);
      if r.Overrun? {
        return;
      }
      r, index := ParseGroup(4, index);
      if r.Overrun? {
        return;
      }
      r, index := ParseGroup(5, index);
      if r.Overrun? {
        return;
      }
      r, index := ParseGroup(6, index);
      if r.Overrun? {
        return;
      }
      EndAll();
    }
  }

  lemma HeaderHolds(p: seq<bv8>, n: nat)
    requires n <= 7 && HasHeader(p, 7)
    ensures HasHeader(p, n)
  {
    hide HasGroup;
    RankGrows(p[1]);
  }

  // ----- the parser against the length table

  /** Bytes the table lists for flags that the parser of a group skips. */
  function SkippedLengths(g: nat): (lengths: seq<nat>)
    requires g < 7
    ensures |lengths| == 16
    ensures forall k :: 0 <= k < 16 ==> GroupLengths(g)[k] == ParsedLengths(g)[k] + lengths[k]
  {
    match g
    case 2 => [0, 0, 0, 0, 0, 0, 0, 0, 0, 0, 0, 0, 40, 0, 0, 0]
    case 4 => [0, 0, 0, 0, 0, 0, 0, 0, 0, 12, 28, 24, 0, 0, 0, 0]
    case 5 => [0, 0, 0, 0, 0, 0, 0, 0, 0, 0, 0, 68, 64, 0, 0, 0]
    case _ => [0, 0, 0, 0, 0, 0, 0, 0, 0, 0, 0, 0, 0, 0, 0, 0]
  }

  /** Bytes of the packet that the table counts and the parsers of groups below `n` skip. */
  function Skipped(p: seq<bv8>, n: nat): nat
    requires n <= 6 && HasHeader(p, n)
  {
    if n == 0 then 0
    else Skipped(p, n - 1)
         + if HasGroup(p[1], n - 1)
           then FieldBytes(SkippedLengths(n - 1), GroupField(p, Rank(p[1], n - 1)), 16)
           else 0
  }

  /** Bytes the parser takes although the announced length leaves them out: those of the GPS2
      group, and the fields of the groups of bits 6 and 7. */
  function Uncounted(p: seq<bv8>): nat
    requires HasHeader(p, 7)
  {
    2 * (Rank(p[1], 8) - Rank(p[1], 6)) + TakenBelow(p, 7) - TakenBelow6(p)
  }

  function TakenBelow6(p: seq<bv8>): (taken: nat)
    requires HasHeader(p, 7)
    ensures taken <= TakenBelow(p, 7) && Rank(p[1], 6) <= Rank(p[1], 8)
  {
    HeaderHolds(p, 6);
    RankGrows(p[1]);
    TakenBelow(p, 6)
  }

  lemma {:induction false} TableIsParsedAndSkipped(g: nat, field: bv16, n: nat)
    requires g < 7 && n <= 16
    ensures FieldBytes(GroupLengths(g), field, n)
         == FieldBytes(ParsedLengths(g), field, n) + FieldBytes(SkippedLengths(g), field, n)
  {
    hide GroupLengths, ParsedLengths, SkippedLengths, Has;
    if n > 0 {
      TableIsParsedAndSkipped(g, field, n - 1);
    }
  }

  lemma {:induction false} GroupsAreTakenAndSkipped(p: seq<bv8>, n: nat)
    requires n <= 6 && HasHeader(p, n)
    ensures GroupsLength(p, n) == 2 * Rank(p[1], n) + TakenBelow(p, n) + Skipped(p, n)
  {
    hide GroupLengths, ParsedLengths, SkippedLengths, HasGroup, FieldBytes;
    if n > 0 {
      RankStep(p[1], n - 1, n);
      GroupsAreTakenAndSkipped(p, n - 1);
      if HasGroup(p[1], n - 1) {
        TableIsParsedAndSkipped(n - 1, GroupField(p, Rank(p[1], n - 1)), 16);
      }
    }
  }

  /** For every packet of its announced length: the parsers throw exactly if they take
      something and the uncounted bytes exceed the skipped ones; otherwise they stop short of
      the CRC by the difference, so right at it exactly if the two are equal. */
  lemma ParserMeetsTable(p: seq<bv8>)
    requires HasHeader(p, 6) && |p| == AnnouncedLength(p)
    ensures HasHeader(p, 7)
    ensures Fits(p, Start(p), TakenBelow(p, 7)) <==> TakenBelow(p, 7) == 0 || Uncounted(p) <= Skipped(p, 6)
    ensures |p| - 2 - (Start(p) + TakenBelow(p, 7)) == Skipped(p, 6) - Uncounted(p)
  {
    hide HasGroup, FieldBytes;
    RankStep(p[1], 6, 7);
    HeaderHolds(p, 6);
    GroupsAreTakenAndSkipped(p, 6);
  }

  /** Every set flag of group `g` that the table gives bytes to is known to the parser. */
  predicate KnownFlags(g: nat, field: bv16)
    requires g < 7
  {
    forall k | 0 <= k < 16 :: Has(field, k) && GroupLengths(g)[k] > 0 ==> ParsedLengths(g)[k] > 0
  }

  /** The groups below `n` that are present use known flags only. */
  predicate KnownGroups(p: seq<bv8>, n: nat)
    requires n <= 6 && HasHeader(p, n)
  {
    n > 0 ==> KnownGroups(p, n - 1) && (HasGroup(p[1], n - 1) ==> KnownFlags(n - 1, GroupField(p, Rank(p[1], n - 1))))
  }

  /** Only the six counted groups, and in them only flags that their parsers know. */
  predicate OnlyKnown(p: seq<bv8>)
    requires HasHeader(p, 6)
  {
    !HasGroup(p[1], 6) && !HasGroup(p[1], 7) && KnownGroups(p, 6)
  }

  lemma {:induction false} NoBytesSkipped(lengths: seq<nat>, field: bv16, n: nat)
    requires |lengths| == 16 && n <= 16
    ensures FieldBytes(lengths, field, n) == 0 <==> forall k | 0 <= k < n :: Has(field, k) ==> lengths[k] == 0
  {
    hide Has;
    if n > 0 {
      NoBytesSkipped(lengths, field, n - 1);
    }
  }

  lemma KnownFlagsSkipNothing(g: nat, field: bv16)
    requires g < 7
    ensures FieldBytes(SkippedLengths(g), field, 16) == 0 <==> KnownFlags(g, field)
  {
    hide Has, FieldBytes;
    NoBytesSkipped(SkippedLengths(g), field, 16);
  }

  /** No byte is skipped exactly if every set flag that has a length is known. */
  lemma {:induction false} KnownGroupsSkipNothing(p: seq<bv8>, n: nat)
    requires n <= 6 && HasHeader(p, n)
    ensures Skipped(p, n) == 0 <==> KnownGroups(p, n)
  {
    hide HasGroup, FieldBytes, KnownFlags, SkippedLengths;
    if n > 0 {
      RankStep(p[1], n - 1, n);
      KnownGroupsSkipNothing(p, n - 1);
      if HasGroup(p[1], n - 1) {
        KnownFlagsSkipNothing(n - 1, GroupField(p, Rank(p[1], n - 1)));
      }
    }
  }

  /** A packet of its announced length that uses known flags only never throws, and its
      fields tile the payload: end to end, from behind the header to the CRC. */
  lemma KnownPacketsParse(p: seq<bv8>)
    requires HasHeader(p, 6) && |p| == AnnouncedLength(p) && OnlyKnown(p)
    ensures HasHeader(p, 7) && Fits(p, Start(p), TakenBelow(p, 7))
    ensures Start(p) + TakenBelow(p, 7) == |p| - 2
    ensures Bytes(FieldsBelow(p, 7)) == p[Start(p)..|p| - 2]
  {
    hide HasGroup, FieldBytes, Skipped, KnownGroups;
    ParserMeetsTable(p);
    KnownGroupsSkipNothing(p, 6);
    assert Uncounted(p) == 0;
    FieldsTile(p, 7);
  }

  function Bytes(fields: seq<Field>): seq<bv8> {
    if fields == [] then [] else Bytes(fields[..|fields| - 1]) + fields[|fields| - 1].bytes
  }

  lemma {:induction false} BytesAppend(a: seq<Field>, b: seq<Field>)
    ensures Bytes(a + b) == Bytes(a) + Bytes(b)
  {
    if b == [] {
      assert a + b == a;
    } else {
      assert (a + b)[..|a + b| - 1] == a + b[..|b| - 1];
      BytesAppend(a, b[..|b| - 1]);
    }
  }

  /** One flag more: either its field is added behind the others, or nothing changes. */
  lemma FieldsOfStep(p: seq<bv8>, g: nat, field: bv16, at: nat, n: nat)
    requires g < 7 && 0 < n <= 16 && Fits(p, at, Taken(g, field, n))
    ensures Taken(g, field, n - 1) <= Taken(g, field, n) && Fits(p, at, Taken(g, field, n - 1))
    ensures
      || (Taken(g, field, n) == Taken(g, field, n - 1)
          && FieldsOf(p, g, field, at, n) == FieldsOf(p, g, field, at, n - 1))
      || (Taken(g, field, n) > 0
          && FieldsOf(p, g, field, at, n) == FieldsOf(p, g, field, at, n - 1)
               + [Field(g, n - 1, p[at + Taken(g, field, n - 1)..at + Taken(g, field, n)])])
  {
    hide ParsedLengths, Has;
    assert FieldsOf(p, g, field, at, n - 1) + [] == FieldsOf(p, g, field, at, n - 1);
  }

  lemma {:induction false} GroupTiles(p: seq<bv8>, g: nat, field: bv16, at: nat, n: nat)
    requires g < 7 && n <= 16 && Fits(p, at, Taken(g, field, n)) && at <= |p|
    ensures Bytes(FieldsOf(p, g, field, at, n)) == p[at..at + Taken(g, field, n)]
  {
    hide ParsedLengths, Has, Bytes;
    if n == 0 {
      BytesOfNone();
    } else {
      hide FieldsOf, Taken;
      FieldsOfStep(p, g, field, at, n);
      GroupTiles(p, g, field, at, n - 1);
      var before := FieldsOf(p, g, field, at, n - 1);
      var from, to := at + Taken(g, field, n - 1), at + Taken(g, field, n);
      if FieldsOf(p, g, field, at, n) != before {
        OneMore(before, Field(g, n - 1, p[from..to]));
        assert p[at..to] == p[at..from] + p[from..to];
      }
    }
  }

  lemma BytesOfNone()
    ensures Bytes([]) == []
  {
  }

  lemma OneMore(before: seq<Field>, last: Field)
    ensures Bytes(before + [last]) == Bytes(before) + last.bytes
  {
    assert (before + [last])[..|before|] == before;
  }

  /** One group more: its fields are added behind the others, or nothing changes. */
  lemma FieldsBelowStep(p: seq<bv8>, n: nat)
    requires 0 < n <= 7 && HasHeader(p, n) && Fits(p, Start(p), TakenBelow(p, n))
    ensures HasHeader(p, n - 1) && Fits(p, Start(p), TakenBelow(p, n - 1))
    ensures
      if HasGroup(p[1], n - 1) then
        var field, at := GroupField(p, Rank(p[1], n - 1)), Start(p) + TakenBelow(p, n - 1);
        && Fits(p, at, Taken(n - 1, field, 16))
        && TakenBelow(p, n) == TakenBelow(p, n - 1) + Taken(n - 1, field, 16)
        && FieldsBelow(p, n) == FieldsBelow(p, n - 1) + FieldsOf(p, n - 1, field, at, 16)
      else
        TakenBelow(p, n) == TakenBelow(p, n - 1) && FieldsBelow(p, n) == FieldsBelow(p, n - 1)
  {
    hide Taken, HasGroup, FieldsOf;
    RankStep(p[1], n - 1, n);
    TakenBelowGrows(p, n - 1, n);
    assert FieldsBelow(p, n - 1) + [] == FieldsBelow(p, n - 1);
  }

  lemma {:induction false} FieldsTile(p: seq<bv8>, n: nat)
    requires n <= 7 && HasHeader(p, n) && Fits(p, Start(p), TakenBelow(p, n)) && Start(p) <= |p|
    ensures Bytes(FieldsBelow(p, n)) == p[Start(p)..Start(p) + TakenBelow(p, n)]
  {
    hide Taken, HasGroup, FieldsOf, Bytes, Start;
    if n == 0 {
      BytesOfNone();
    } else {
      hide FieldsBelow, TakenBelow;
      FieldsBelowStep(p, n);
      FieldsTile(p, n - 1);
      if HasGroup(p[1], n - 1) {
        var field, start := GroupField(p, Rank(p[1], n - 1)), Start(p);
        var at := start + TakenBelow(p, n - 1);
        var end := at + Taken(n - 1, field, 16);
        GroupTiles(p, n - 1, field, at, 16);
        BytesAppend(FieldsBelow(p, n - 1), FieldsOf(p, n - 1, field, at, 16));
        assert p[start..end] == p[start..at] + p[at..end];
      }
    }
  }

  /** Two lists of fields name the same flags, with the same number of bytes each. */
  predicate SameShape(a: seq<Field>, b: seq<Field>) {
    |a| == |b| && forall i :: 0 <= i < |a| ==>
      a[i].group == b[i].group && a[i].flag == b[i].flag && |a[i].bytes| == |b[i].bytes|
  }

  lemma {:induction false} SameBytesSameFields(a: seq<Field>, b: seq<Field>)
    requires SameShape(a, b) && Bytes(a) == Bytes(b)
    ensures a == b
  {
    if a != [] {
      var n := |a| - 1;
      var cut := |Bytes(a[..n])|;
      SameLength(a[..n], b[..n]);
      assert Bytes(a[..n]) == Bytes(a)[..cut] == Bytes(b)[..cut] == Bytes(b[..n]);
      assert a[n].bytes == Bytes(a)[cut..] == Bytes(b)[cut..] == b[n].bytes;
      SameBytesSameFields(a[..n], b[..n]);
      assert a == a[..n] + [a[n]] && b == b[..n] + [b[n]];
    }
  }

  lemma {:induction false} SameLength(a: seq<Field>, b: seq<Field>)
    requires SameShape(a, b)
    ensures |Bytes(a)| == |Bytes(b)|
  {
    if a != [] {
      SameLength(a[..|a| - 1], b[..|b| - 1]);
    }
  }

  /** Parsing undoes composing: if the payload was written as the bytes of `sent`, one field
      per known flag of the header, the parsers hand on exactly `sent`. */
  lemma ParseUndoesCompose(p: seq<bv8>, sent: seq<Field>)
    requires HasHeader(p, 6) && |p| == AnnouncedLength(p) && OnlyKnown(p)
    requires HasHeader(p, 7) && Fits(p, Start(p), TakenBelow(p, 7)) && SameShape(sent, FieldsBelow(p, 7))
    requires Start(p) + 2 <= |p| && p[Start(p)..|p| - 2] == Bytes(sent)
    ensures FieldsBelow(p, 7) == sent
  {
    hide HasGroup, FieldBytes, Skipped, FieldsBelow;
    KnownPacketsParse(p);
    SameBytesSameFields(sent, FieldsBelow(p, 7));
  }
}
