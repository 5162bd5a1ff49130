/**
 Binary packets of the IMU link: the length a header announces, and the parser that
 walks the payload field by field.
 */
module VnBinary {
  import opened VnPacket

  // ----- flags

  function Flag(i: nat): bv16
    requires i < 16
  {
    match i
    case 0 => 0x0001
    case 1 => 0x0002
    case 2 => 0x0004
    case 3 => 0x0008
    case 4 => 0x0010
    case 5 => 0x0020
    case 6 => 0x0040
    case 7 => 0x0080
    case 8 => 0x0100
    case 9 => 0x0200
    case 10 => 0x0400
    case 11 => 0x0800
    case 12 => 0x1000
    case 13 => 0x2000
    case 14 => 0x4000
    case 15 => 0x8000
  }

  predicate Has(field: bv16, i: nat)
    requires i < 16
  {
    field & Flag(i) != 0
  }

  /** Bit of the groups-present byte: 0 common, 1 time, 2 IMU, 3 GPS, 4 attitude, 5 INS, 6 GPS2. */
  predicate HasGroup(groups: bv8, g: nat)
    requires g < 8
  {
    groups & (match g
              case 0 => 0x01
              case 1 => 0x02
              case 2 => 0x04
              case 3 => 0x08
              case 4 => 0x10
              case 5 => 0x20
              case 6 => 0x40
              case 7 => 0x80) != 0
  }

  /** Number of groups present below group `g`. */
  function Rank(groups: bv8, g: nat): (n: nat)
    requires g <= 8
    ensures n <= g
  {
    if g == 0 then 0 else Rank(groups, g - 1) + if HasGroup(groups, g - 1) then 1 else 0
  }

  // ----- group lengths

  /** Bytes of each field of each group. */
  function GroupLengths(g: nat): (lengths: seq<nat>)
    requires g < 8
    ensures |lengths| == 16
  {
    match g
    case 0 => [8, 8, 8, 12, 16, 12, 24, 12, 12, 24, 20, 28, 2, 4, 8, 0]
    case 1 => [8, 8, 8, 2, 8, 8, 8, 4, 4, 1, 0, 0, 0, 0, 0, 0]
    case 2 => [2, 12, 12, 12, 4, 4, 16, 12, 12, 12, 12, 2, 40, 0, 0, 0]
    case 3 => [8, 8, 2, 1, 1, 24, 24, 12, 12, 12, 4, 4, 2, 28, 0, 0]
    case 4 => [2, 12, 16, 36, 12, 12, 12, 12, 12, 12, 28, 24, 0, 0, 0, 0]
    case 5 => [2, 24, 24, 12, 12, 12, 12, 12, 12, 4, 4, 68, 64, 0, 0, 0]
    case 6 => [8, 8, 2, 1, 1, 24, 24, 12, 12, 12, 4, 4, 2, 28, 0, 0]
    case 7 => [0, 0, 0, 0, 0, 0, 0, 0, 0, 0, 0, 0, 0, 0, 0, 0]
  }

  /** Bytes of the first `n` fields of a group that are present. */
  function FieldBytes(lengths: seq<nat>, field: bv16, n: nat): nat
    requires |lengths| == 16 && n <= 16
  {
    if n == 0 then 0 else FieldBytes(lengths, field, n - 1) + if Has(field, n - 1) then lengths[n - 1] else 0
  }

  method PayloadBytes(g: nat, field: bv16) returns (runningLength: nat)
    requires g < 8
    ensures runningLength == FieldBytes(GroupLengths(g), field, 16)
  {
    runningLength := 0;
    for i := 0 to 16
      invariant runningLength == FieldBytes(GroupLengths(g), field, i)
    {
      if Has(field, i) {
        runningLength := runningLength + GroupLengths(g)[i];
      }
    }
  }

  /** Field `index` of the group fields, low byte first. */
  function GroupField(p: seq<bv8>, index: nat): bv16
    requires 2 + 2 * index + 1 < |p|
  {
    (p[2 + 2 * index] as bv16) | ((p[2 + 2 * index + 1] as bv16) << 8)
  }

  /** Group fields and payload of the groups below `n`. */
  function GroupsLength(p: seq<bv8>, n: nat): nat
    requires n <= 7 && |p| >= 2 && |p| >= 2 + 2 * Rank(p[1], n)
  {
    if n == 0 then 0
    else GroupsLength(p, n - 1)
         + if HasGroup(p[1], n - 1)
           then 2 + FieldBytes(GroupLengths(n - 1), GroupField(p, Rank(p[1], n - 1)), 16)
           else 0
  }

  /** The length a binary packet announces: sync byte, group byte, the six counted groups and
      two bytes of CRC.  Only the header is read. */
  function AnnouncedLength(p: seq<bv8>): (length: nat)
    requires |p| >= 2 && |p| >= 2 + 2 * Rank(p[1], 6)
    ensures length >= 4 + 2 * Rank(p[1], 6)
  {
    GroupsAreNotEmpty(p, 6);
    2 + GroupsLength(p, 6) + 2
  }

  lemma {:induction false} GroupsAreNotEmpty(p: seq<bv8>, n: nat)
    requires n <= 7 && |p| >= 2 && |p| >= 2 + 2 * Rank(p[1], n)
    ensures GroupsLength(p, n) >= 2 * Rank(p[1], n)
  {
    hide FieldBytes, HasGroup;
    if n > 0 {
      GroupsAreNotEmpty(p, n - 1);
    }
  }

  /** Adds up the length of one group if it is present; `at` moves past its field. */
  method AddGroup(p: seq<bv8>, g: nat, at: nat, length: nat) returns (newAt: nat, newLength: nat)
    requires g < 6 && |p| >= 2 && |p| >= 2 + 2 * Rank(p[1], g + 1)
    requires at == Rank(p[1], g) && length == 2 + GroupsLength(p, g)
    ensures newAt == Rank(p[1], g + 1) && newLength == 2 + GroupsLength(p, g + 1)
  {
    hide HasGroup, FieldBytes, GroupLengths;
    newAt, newLength := at, length;
    if HasGroup(p[1], g) {
      var payload := PayloadBytes(g, GroupField(p, at));
      newLength := newLength + 2 + payload;
      newAt := newAt + 1;
    }
  }

  method ComputeBinaryPacketLength(p: seq<bv8>) returns (length: nat)
    requires |p| >= 2 && |p| >= 2 + 2 * Rank(p[1], 6)
    ensures length == AnnouncedLength(p)
  {
    hide HasGroup;
    RankGrows(p[1]);
    var at := 0;
    length := 2;
    at, length := AddGroup(p, 0, at, length);
    at, length := AddGroup(p, 1, at, length);
    at, length := AddGroup(p, 2, at, length);
    at, length := AddGroup(p, 3, at, length);
    at, length := AddGroup(p, 4, at, length);
    at, length := AddGroup(p, 5, at, length);
    length := length + 2;
  }

  lemma RankGrows(groups: bv8)
    ensures forall g, h :: 0 <= g <= h <= 8 ==> Rank(groups, g) <= Rank(groups, h)
  {
    hide HasGroup;
    forall g, h | 0 <= g <= h <= 8
      ensures Rank(groups, g) <= Rank(groups, h)
    {
      RankStep(groups, g, h);
    }
  }

  lemma {:induction false} RankStep(groups: bv8, g: nat, h: nat)
    requires g <= h <= 8
    ensures Rank(groups, g) <= Rank(groups, h) <= Rank(groups, g) + (h - g)
  {
    hide HasGroup;
    if g < h {
      RankStep(groups, g, h - 1);
    }
  }

  /** Two packets with the same header announce the same length. */
  lemma {:induction false} GroupsReadHeaderOnly(p: seq<bv8>, q: seq<bv8>, n: nat)
    requires n <= 7 && |p| >= 2 && |p| >= 2 + 2 * Rank(p[1], n)
    requires |q| >= 2 && q[..2] == p[..2] && |q| >= 2 + 2 * Rank(q[1], n)
    requires q[..2 + 2 * Rank(p[1], n)] == p[..2 + 2 * Rank(p[1], n)]
    ensures GroupsLength(p, n) == GroupsLength(q, n)
  {
    hide HasGroup, FieldBytes, GroupLengths;
    assert q[1] == q[..2][1] == p[1];
    if n > 0 {
      var r := Rank(p[1], n - 1);
      RankStep(p[1], n - 1, n);
      forall k | 0 <= k < 2 + 2 * Rank(p[1], n)
        ensures p[k] == q[k]
      {
        assert q[..2 + 2 * Rank(p[1], n)][k] == p[..2 + 2 * Rank(p[1], n)][k];
      }
      GroupsReadHeaderOnly(p, q, n - 1);
    }
  }
}
