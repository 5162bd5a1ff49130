/**
 Where the reach of the packet finder ends: noise does not count, but a candidate that is never
 given up does, and beyond the buffer the division into chunks shows.
 */
module FinderLimits {
  import opened ErrorDetection
  import opened VnPacket
  import opened VnBinary
  import opened FinderModel
  import opened FinderSoundness
  import opened FinderRefinement
  import opened FinderReach
  import opened FinderRuns
  import Composite = VnComposite

  /** Neither a sync byte nor a dollar sign. */
  predicate Noise(stream: seq<bv8>) {
    forall k | 0 <= k < |stream| :: stream[k] != SYNC && stream[k] != DOLLAR
  }

  /** Noise of any length leaves nothing open. */
  lemma {:induction false} NoiseIsForgotten(stream: seq<bv8>)
    requires Noise(stream)
    ensures Reached(stream) == Reach([], |stream|, NoText)
    decreases |stream|
  {
    hide FirstStart, Open;
    if stream != [] {
      var n := |stream| - 1;
      NoiseIsForgotten(stream[..n]);
      assert [] + stream == stream;
      if FirstStart(stream, n) == n {
        NotASync(stream, n);
      }
    }
  }

  lemma NotASync(stream: seq<bv8>, o: nat)
    requires o < |stream| && Trackable(stream[o..])
    ensures stream[o] == SYNC
  {
    assert stream[o..][0] == stream[o];
  }

  lemma NoiseIsWithinReach(stream: seq<bv8>, cap: nat)
    requires Noise(stream) && cap > 1
    ensures WithinReach(stream, cap)
  {
    hide ReachOn;
    forall n | 0 <= n < |stream|
      ensures n + 1 - Reached(stream[..n]).anchor < cap
    {
      NoiseIsForgotten(stream[..n]);
    }
  }

  // ----- a stream on which chunks matter

  /** A packet with one field of two bytes. */
  const PACKET: seq<bv8> := [0xFA, 0x01, 0x00, 0x10, 0x00, 0x00, 0xE9, 0x32]

  /** A candidate without group fields, zeros, and the first byte of the packet. */
  const FIRST: seq<bv8> := [0xFA] + seq(511, _ => 0) + [0xFA]

  const SECOND: seq<bv8> := [0x01, 0x00, 0x10, 0x00, 0x00, 0xE9, 0x32]

  lemma Steps()
    ensures NibbleStep(0x0000, 0x01) == 0x1021 && NibbleStep(0x1021, 0x00) == 0x3331
    ensures NibbleStep(0x3331, 0x10) == 0x2501 && NibbleStep(0x2501, 0x00) == 0x75C7
    ensures NibbleStep(0x75C7, 0x00) == 0xE932 && NibbleStep(0xE932, 0xE9) == 0x3200
    ensures NibbleStep(0x3200, 0x32) == 0x0000
  {
  }

  lemma CrcNext(m: seq<bv8>, k: nat)
    requires k < |m|
    ensures Crc16Of(m[..k + 1]) == NibbleStep(Crc16Of(m[..k]), m[k])
  {
    assert m[..k + 1][..k] == m[..k];
  }

  lemma PacketCrc()
    ensures Crc16Of(SECOND) == 0
  {
    hide NibbleStep;
    Steps();
    assert SECOND[..0] == [] && SECOND[..7] == SECOND;
    CrcNext(SECOND, 0);
    CrcNext(SECOND, 1);
    CrcNext(SECOND, 2);
    CrcNext(SECOND, 3);
    CrcNext(SECOND, 4);
    CrcNext(SECOND, 5);
    CrcNext(SECOND, 6);
  }

  lemma PacketIsTrackable()
    ensures Trackable(PACKET) && Rank(0x01, 8) == 1
  {
    hide Crc16Of;
    PacketCrc();
    assert PACKET[1..] == SECOND;
    PacketLength();
  }

  lemma PacketLength()
    ensures Rank(0x01, 8) == 1 && HeaderLength(PACKET) == 8
  {
    assert HasGroup(0x01, 0) && !HasGroup(0x01, 1) && !HasGroup(0x01, 2) && !HasGroup(0x01, 3);
    assert !HasGroup(0x01, 4) && !HasGroup(0x01, 5) && !HasGroup(0x01, 6) && !HasGroup(0x01, 7);
    hide HasGroup;
    assert Rank(0x01, 1) == 1 && Rank(0x01, 3) == 1 && Rank(0x01, 5) == 1 && Rank(0x01, 6) == 1 && Rank(0x01, 8) == 1;
    FieldOfPacket();
    hide GroupField, FieldBytes;
    assert GroupsLength(PACKET, 0) == 0 && GroupsLength(PACKET, 1) == 4;
    assert GroupsLength(PACKET, 3) == 4 && GroupsLength(PACKET, 5) == 4 && GroupsLength(PACKET, 6) == 4;
  }

  lemma FieldOfPacket()
    ensures GroupField(PACKET, 0) == 0x1000 && FieldBytes(GroupLengths(0), 0x1000, 16) == 2
  {
    var f: bv16 := 0x1000;
    assert forall k | 0 <= k < 16 :: Has(f, k) <==> k == 12;
    hide Has;
    var l := GroupLengths(0);
    assert FieldBytes(l, f, 4) == 0 && FieldBytes(l, f, 8) == 0 && FieldBytes(l, f, 12) == 0 && FieldBytes(l, f, 16) == 2;
  }

  // ----- received at once, the packet is found

  lemma WholeStream(k: nat)
    requires k <= 520
    ensures |FIRST + SECOND| == 520 && (FIRST + SECOND)[512..] == PACKET
    ensures k < 520 ==> (FIRST + SECOND)[k] == if k == 0 then 0xFA else if k < 512 then 0x00 else PACKET[k - 512]
  {
    assert (FIRST + SECOND)[512..] == [0xFA] + SECOND;
  }

  /** No packet ends before the last byte. */
  lemma OnlyOnePacket(o: nat, e: nat)
    requires o < e < 520
    ensures |FIRST + SECOND| == 520 && !Trackable((FIRST + SECOND)[o..e])
  {
    hide Check, HeaderLength, Rank;
    WholeStream(o);
    var s := FIRST + SECOND;
    var p := s[o..e];
    assert p[0] == s[o];
    if o == 0 {
      if e > 1 {
        WholeStream(1);
        assert p[1] == s[1] == 0x00;
        NoGroups();
      }
    } else if o == 512 {
      PacketLength();
      assert s[512..][..e - 512] == PACKET[..e - 512] == p;
      if HeaderComplete(p) {
        HeaderLengthStays(p, PACKET);
      }
      if |p| >= 2 {
        assert p[1] == PACKET[1] == 0x01;
      }
    }
  }

  lemma NoGroups()
    ensures Rank(0x00, 8) == 0
  {
    assert !HasGroup(0x00, 0) && !HasGroup(0x00, 1) && !HasGroup(0x00, 2) && !HasGroup(0x00, 3);
    assert !HasGroup(0x00, 4) && !HasGroup(0x00, 5) && !HasGroup(0x00, 6) && !HasGroup(0x00, 7);
    hide HasGroup;
    assert Rank(0x00, 4) == 0;
  }

  lemma AtOnce()
    ensures BinaryReports(Run([FIRST + SECOND], 512).found) == [BinaryFound(PACKET, 512)]
  {
    hide Trackable, Run, FirstStart, DecodeOn, Decode, BinaryReports, FIRST, SECOND, PACKET;
    var s := FIRST + SECOND;
    WholeStream(0);
    OneChunkIsDecoded(s, 512);
    DecodeIsOn(s);
    forall o, e | 0 <= o < e <= 519
      ensures !Trackable(s[o..e])
    {
      OnlyOnePacket(o, e);
    }
    NothingYet(Decoded([], 0), [], s, 519);
    DecodeOnStep(Decoded([], 0), [], s);
    assert [] + s == s && s[..|s| - 1] == s[..519];
    FirstIsPacket();
    assert s[512..] == PACKET && 512 % WORD == 512;
  }

  lemma FirstIsPacket()
    ensures |FIRST + SECOND| == 520 && FirstStart(FIRST + SECOND, 0) == 512
  {
    hide Check, HeaderLength, Rank, FirstStart;
    var s := FIRST + SECOND;
    WholeStream(0);
    PacketIsTrackable();
    forall o | 0 <= o < 512
      ensures !Trackable(s[o..])
    {
      WholeStream(o);
      assert s[o..][0] == s[o];
      if o == 0 {
        WholeStream(1);
        assert s[0..][1] == s[1] == 0x00;
        NoGroups();
      }
    }
  }

  // ----- received in two chunks, it is not

  function Behind(n: nat): nat {
    Sub64(0, n)
  }

  /** The candidate without group fields is still there after `n` bytes. */
  lemma {:induction false} CandidateStays(n: nat)
    requires 2 <= n <= 512
    ensures Bytes(START, FIRST, n, 512) == Finder([], NO_ASCII, false, [Tracker(0, true, 0, 0, Behind(n - 2), true, 0)], n, [])
  {
    assert |FIRST| == 513 && FIRST[0] == 0xFA && forall k | 1 <= k < 512 :: FIRST[k] == 0x00;
    if n == 2 {
      FirstTwo();
    } else {
      CandidateStays(n - 1);
      CandidateStep(Bytes(START, FIRST, n - 1, 512), n - 1);
    }
  }

  lemma FirstTwo()
    ensures Bytes(START, FIRST, 2, 512) == Finder([], NO_ASCII, false, [Tracker(0, true, 0, 0, 0, true, 0)], 2, [])
  {
    hide Byte;
    FirstByte();
    SecondByte();
    assert Bytes(START, FIRST, 1, 512) == Byte(START, FIRST, 0, 512);
  }

  lemma FirstByte()
    ensures |FIRST| == 513
    ensures Byte(START, FIRST, 0, 512) == Finder([], NO_ASCII, false, [Tracker(0, false, 0, 0, 0, true, 0)], 1, [])
  {
    hide WalkDeck, Rank;
    assert FIRST[0] == 0xFA;
    OneCandidate([], FIRST, 0);
  }

  lemma SecondByte()
    ensures |FIRST| == 513
    ensures Byte(Finder([], NO_ASCII, false, [Tracker(0, false, 0, 0, 0, true, 0)], 1, []), FIRST, 1, 512)
         == Finder([], NO_ASCII, false, [Tracker(0, true, 0, 0, 0, true, 0)], 2, [])
  {
    hide WalkDeck, Rank;
    assert FIRST[1] == 0x00;
    NoGroups();
    OneCandidate([Tracker(0, false, 0, 0, 0, true, 0)], FIRST, 1);
  }

  /** A byte that drops no candidate and completes none. */
  lemma OneCandidate(deck: seq<Tracker>, data: seq<bv8>, i: nat)
    requires i < |data| && |deck| <= 1
    requires deck == [] || TrackerByte(deck[0], [], data, i, 512).Keep?
    ensures WalkDeck(deck, [], data, i, 512)
         == Walk(if deck == [] then [] else [TrackerByte(deck[0], [], data, i, 512).t], [], [], 0)
  {
    hide TrackerByte;
    if deck != [] {
      assert deck[..0] == [];
    }
  }

  lemma CandidateStep(f: Finder, i: nat)
    requires 2 <= i < 513
    requires f == Finder([], NO_ASCII, false, [Tracker(0, true, 0, 0, Behind(i - 2), true, 0)], i, [])
    ensures |FIRST| == 513
    ensures var t := Tracker(0, true, 0, 0, Behind(i - 1), true, 0);
            Byte(f, FIRST, i, 512)
            == f.(deck := [t] + (if FIRST[i] == SYNC then [Tracker(i, false, 0, 0, 0, true, i)] else []), running := i + 1)
  {
    assert |FIRST| == 513 && FIRST[i] == if i == 512 then 0xFA else 0x00;
    Sub64Step(0, i - 2);
    Sub64Value(0, i - 1);
    OneCandidate(f.deck, FIRST, i);
  }

  /** At the end of the first chunk the buffer would overflow, and everything is given up. */
  lemma FirstChunk()
    ensures Receive(START, FIRST, 512) == Finder([], NO_ASCII, false, [], 513, [])
  {
    hide Byte;
    assert |FIRST| == 513 && FIRST[512] == SYNC;
    CandidateStays(512);
    CandidateStep(Bytes(START, FIRST, 512, 512), 512);
  }

  lemma {:induction false} NoiseLeavesIdle(f: Finder, data: seq<bv8>, n: nat)
    requires n <= |data| && Noise(data) && f.carry == [] && f.deck == [] && f.ascii == NO_ASCII && !f.asciiInChunk
    ensures Bytes(f, data, n, 512) == f.(running := f.running + n)
  {
    if n > 0 {
      NoiseLeavesIdle(f, data, n - 1);
      OneCandidate([], data, n - 1);
    }
  }

  /** One stream, one buffer of 512 bytes, and two divisions into chunks: the packet at its end is
      reported or not. */
  lemma ChunkingMattersBeyondReach()
    ensures Stream([FIRST + SECOND]) == Stream([FIRST, SECOND])
    ensures BinaryReports(Run([FIRST + SECOND], 512).found) == [BinaryFound(PACKET, 512)]
    ensures BinaryReports(Run([FIRST, SECOND], 512).found) == []
    ensures !WithinReach(FIRST + SECOND, 512)
  {
    hide Receive, Bytes, WithinReachOn;
    var one, two := [FIRST + SECOND], [FIRST, SECOND];
    assert two[..1] == [FIRST] && [FIRST][..0] == [] && one[..0] == [];
    assert Stream([FIRST]) == FIRST && Stream(one) == FIRST + SECOND == Stream(two);
    AtOnce();
    FirstChunk();
    assert Run([FIRST], 512) == Receive(START, FIRST, 512);
    var f := Run([FIRST], 512);
    SecondChunk(f);
    assert AllAddressable(one, 512) && AllAddressable(two, 512);
    if WithinReach(FIRST + SECOND, 512) {
      ChunkingDoesNotMatter(one, two, 512);
    }
  }

  lemma SecondChunk(f: Finder)
    requires f == Finder([], NO_ASCII, false, [], 513, [])
    ensures Receive(f, SECOND, 512).found == []
  {
    hide Bytes;
    NoiseLeavesIdle(f, SECOND, 7);
  }

  // ----- a packet that is reported and cannot be parsed

  /** The common group with one field and the GPS2 group, cut to the announced length. */
  const CUT_SHORT: seq<bv8> := [0xFA, 0x41, 0x00, 0x10, 0x08, 0x00, 0x71, 0xF3]

  lemma CutShortCrc()
    ensures Crc16Of(CUT_SHORT[1..]) == 0
  {
    hide NibbleStep;
    var m: seq<bv8> := [0x41, 0x00, 0x10, 0x08, 0x00, 0x71, 0xF3];
    CutShortSteps();
    assert CUT_SHORT[1..] == m && m[..0] == [] && m[..7] == m;
    CrcNext(m, 0);
    CrcNext(m, 1);
    CrcNext(m, 2);
    CrcNext(m, 3);
    CrcNext(m, 4);
    CrcNext(m, 5);
    CrcNext(m, 6);
  }

  lemma CutShortSteps()
    ensures NibbleStep(0x0000, 0x41) == 0x58E5 && NibbleStep(0x58E5, 0x00) == 0x3EFD
    ensures NibbleStep(0x3EFD, 0x10) == 0x38AC && NibbleStep(0x38AC, 0x08) == 0x9A53
    ensures NibbleStep(0x9A53, 0x00) == 0x71F3 && NibbleStep(0x71F3, 0x71) == 0xF300
    ensures NibbleStep(0xF300, 0xF3) == 0x0000
  {
  }

  lemma CutShortRanks()
    ensures HasGroup(0x41, 0) && (forall g | 1 <= g < 6 :: !HasGroup(0x41, g))
    ensures Rank(0x41, 0) == 0 && Rank(0x41, 1) == 1 && Rank(0x41, 2) == 1 && Rank(0x41, 3) == 1
    ensures Rank(0x41, 4) == 1 && Rank(0x41, 5) == 1 && Rank(0x41, 6) == 1 && Rank(0x41, 7) == 2 && Rank(0x41, 8) == 2
  {
    assert HasGroup(0x41, 0) && !HasGroup(0x41, 1) && !HasGroup(0x41, 2) && !HasGroup(0x41, 3);
    assert !HasGroup(0x41, 4) && !HasGroup(0x41, 5) && HasGroup(0x41, 6) && !HasGroup(0x41, 7);
    hide HasGroup;
    assert Rank(0x41, 1) == 1 && Rank(0x41, 3) == 1 && Rank(0x41, 5) == 1 && Rank(0x41, 7) == 2 && Rank(0x41, 8) == 2;
  }

  lemma CutShortLength()
    ensures HeaderComplete(CUT_SHORT) && HeaderLength(CUT_SHORT) == 8
  {
    CutShortRanks();
    hide HasGroup, Rank;
    assert GroupField(CUT_SHORT, 0) == 0x1000;
    FieldOfPacket();
    hide GroupField, FieldBytes;
    assert GroupsLength(CUT_SHORT, 0) == 0 && GroupsLength(CUT_SHORT, 1) == 4;
    assert GroupsLength(CUT_SHORT, 3) == 4 && GroupsLength(CUT_SHORT, 5) == 4 && GroupsLength(CUT_SHORT, 6) == 4;
  }

  /** The packet is valid and of its announced length, and the parsers throw on it. */
  lemma ReportedPacketThrows()
    ensures Trackable(CUT_SHORT) && Composite.HasHeader(CUT_SHORT, 7)
    ensures |CUT_SHORT| == HeaderLength(CUT_SHORT)
    ensures !Composite.Fits(CUT_SHORT, Composite.Start(CUT_SHORT), Composite.TakenBelow(CUT_SHORT, 7))
  {
    hide Crc16Of;
    CutShortCrc();
    CutShortLength();
    CutShortRanks();
    hide HasGroup, Rank, HeaderLength, GroupsLength;
    assert GroupField(CUT_SHORT, 0) == 0x1000;
    FieldOfPacket();
    assert Composite.TakenBelow(CUT_SHORT, 1) >= 2;
    Composite.TakenBelowGrows(CUT_SHORT, 1, 7);
  }
}
