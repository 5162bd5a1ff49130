/**
 What the packet finder reports as ASCII packets.  Unlike binary packets they need not be what
 was received: at the end of a chunk, bytes of an ASCII packet that is open since an earlier
 chunk are lost if a binary packet may have started in the chunk.
 */
module FinderAscii {
  import opened VnPacket
  import opened VnBinary
  import opened FinderModel
  import opened FinderSoundness
  import opened FinderReach

  /** The ASCII packet being collected lies in the stream where the finder thinks it does. */
  ghost predicate AsciiAt(f: Finder, past: seq<bv8>, data: seq<bv8>, i: nat)
    requires i <= |data|
  {
    && f.running == |past| + i
    && (f.ascii.end1 ==> f.ascii.building)
    && (f.ascii.building ==>
          if f.asciiInChunk then f.ascii.at == |past| + f.ascii.start && f.ascii.start < i
          else f.ascii.at <= |past| && f.ascii.start <= |f.carry| && f.carry[f.ascii.start..] == past[f.ascii.at..])
  }

  ghost predicate AsciiSlices(found: seq<Event>, stream: seq<bv8>) {
    forall e | e in found && e.AsciiFound? :: exists at: nat :: SliceAt(stream, at, e.packet) && e.index == at % WORD
  }

  lemma AsciiWindow(f: Finder, past: seq<bv8>, data: seq<bv8>, i: nat)
    requires i < |data| && AsciiAt(f, past, data, i) && f.ascii.building
    ensures Window(f.asciiInChunk, f.ascii.start, f.carry, data, i + 1) == (past + data[..i + 1])[f.ascii.at..]
  {
    if !f.asciiInChunk {
      assert (f.carry + data[..i + 1])[f.ascii.start..] == f.carry[f.ascii.start..] + data[..i + 1];
      assert (past + data[..i + 1])[f.ascii.at..] == past[f.ascii.at..] + data[..i + 1];
    }
  }

  lemma SlicesStay(found: seq<Event>, stream: seq<bv8>, more: seq<bv8>)
    requires AsciiSlices(found, stream)
    ensures AsciiSlices(found, stream + more)
  {
    forall e | e in found && e.AsciiFound?
      ensures exists at: nat :: SliceAt(stream + more, at, e.packet) && e.index == at % WORD
    {
      var at: nat :| SliceAt(stream, at, e.packet) && e.index == at % WORD;
      assert (stream + more)[at..at + |e.packet|] == stream[at..at + |e.packet|];
      assert SliceAt(stream + more, at, e.packet);
    }
  }

  /** The ASCII part of a byte: what it reports is a slice. */
  lemma AsciiByteSlices(f: Finder, past: seq<bv8>, data: seq<bv8>, i: nat, cap: nat)
    requires i < |data| && AsciiAt(f, past, data, i) && AsciiSlices(f.found, past + data[..i + 1])
    ensures var r := AsciiByte(f, data, i, cap);
            && AsciiSlices(r.found, past + data[..i + 1])
            && r.running == f.running
            && AsciiAt(r.(running := r.running + 1), past, data, i + 1)
  {
    hide Check, Window;
    if f.ascii.end1 {
      var stream, at := past + data[..i + 1], f.ascii.at;
      AsciiWindow(f, past, data, i);
      var p := stream[at..];
      assert SliceAt(stream, at, p);
      EmptyIsInvalid();
      forall e | e == AsciiFound(p, at % WORD)
        ensures exists b: nat :: SliceAt(stream, b, e.packet) && e.index == b % WORD
      {
      }
    }
  }

  /** The binary part of a byte leaves the ASCII packet alone or gives up everything. */
  lemma BinaryByteLeavesAscii(f: Finder, past: seq<bv8>, data: seq<bv8>, i: nat, cap: nat)
    requires i < |data| && AsciiAt(f.(running := f.running + 1), past, data, i + 1)
    requires AsciiSlices(f.found, past + data[..i + 1])
    ensures var r := Settle(BinaryByte(f, data, i, cap), data[i], i);
            AsciiAt(r, past, data, i + 1) && AsciiSlices(r.found, past + data[..i + 1])
  {
    hide WalkDeck, RemoveEach, SliceAt;
  }

  lemma {:induction false} BytesSlices(f: Finder, past: seq<bv8>, data: seq<bv8>, n: nat, cap: nat)
    requires n <= |data| && AsciiAt(f, past, data, 0) && AsciiSlices(f.found, past)
    ensures var r := Bytes(f, data, n, cap);
            AsciiAt(r, past, data, n) && AsciiSlices(r.found, past + data[..n])
  {
    hide AsciiAt, AsciiSlices, AsciiByte, BinaryByte, Settle;
    if n == 0 {
      assert past + data[..0] == past;
    } else {
      BytesSlices(f, past, data, n - 1, cap);
      var f1 := Bytes(f, data, n - 1, cap);
      assert past + data[..n] == past + data[..n - 1] + [data[n - 1]];
      SlicesStay(f1.found, past + data[..n - 1], [data[n - 1]]);
      AsciiByteSlices(f1, past, data, n - 1, cap);
      BinaryByteLeavesAscii(AsciiByte(f1, data, n - 1, cap), past, data, n - 1, cap);
    }
  }

  /** If the carried bytes are not given up, an open ASCII packet stays where it is in the stream
      exactly if it started in this chunk or the whole chunk is carried over. */
  lemma AsciiKeptIff(f: Finder, past: seq<bv8>, data: seq<bv8>, cap: nat)
    requires AsciiAt(f, past, data, |data|) && f.ascii.building
    requires EndOfChunk(f, data, cap).ascii.building && CopyFrom(f) <= |data|
    ensures AsciiAt(EndOfChunk(f, data, cap), past + data, [], 0) <==> f.asciiInChunk || CopyFrom(f) == 0
  {
    hide RebaseDeck;
    var r := EndOfChunk(f, data, cap);
    var from, start, at := CopyFrom(f), f.ascii.start, f.ascii.at;
    assert r.carry == f.carry + data[from..];
    if f.asciiInChunk {
      assert from <= start;
      assert r.carry[|f.carry| + start - from..] == data[start..] == (past + data)[at..];
    } else {
      assert r.carry[start..] == f.carry[start..] + data[from..];
      assert (past + data)[at..] == past[at..] + data;
    }
  }

  /** No chunk ends with an ASCII packet open from an earlier chunk and a first binary candidate
      that started within the chunk. */
  predicate Unbroken(chunks: seq<seq<bv8>>, cap: nat) {
    chunks == [] ||
    (var before := chunks[..|chunks| - 1];
     var data := chunks[|chunks| - 1];
     var f := Bytes(Run(before, cap), data, |data|, cap);
     Unbroken(before, cap) && (f.ascii.building && !f.asciiInChunk ==> CopyFrom(f) == 0))
  }

  lemma EndOfChunkKeepsAscii(f: Finder, past: seq<bv8>, data: seq<bv8>, cap: nat)
    requires AsciiAt(f, past, data, |data|) && AsciiSlices(f.found, past + data)
    requires f.ascii.building && !f.asciiInChunk ==> CopyFrom(f) == 0
    ensures var r := EndOfChunk(f, data, cap);
            AsciiAt(r, past + data, [], 0) && AsciiSlices(r.found, past + data)
  {
    hide AsciiSlices, RebaseDeck;
    var r := EndOfChunk(f, data, cap);
    if r.ascii.building && CopyFrom(f) <= |data| {
      AsciiKeptIff(f, past, data, cap);
    }
  }

  /** In unbroken runs every ASCII packet reported is a contiguous slice of the stream at the
      reported running index. */
  lemma {:induction false} AsciiReportsAreSlices(chunks: seq<seq<bv8>>, cap: nat)
    requires Unbroken(chunks, cap)
    ensures AsciiAt(Run(chunks, cap), Stream(chunks), [], 0) && AsciiSlices(Run(chunks, cap).found, Stream(chunks))
    decreases |chunks|
  {
    hide AsciiAt, AsciiSlices, Bytes, EndOfChunk, CopyFrom;
    if chunks == [] {
      StartAt();
    } else {
      var before := chunks[..|chunks| - 1];
      var data := chunks[|chunks| - 1];
      AsciiReportsAreSlices(before, cap);
      var f := Run(before, cap);
      FreshChunk(f, Stream(before), data);
      BytesSlices(f, Stream(before), data, |data|, cap);
      assert Stream(before) + data[..|data|] == Stream(before) + data;
      EndOfChunkKeepsAscii(Bytes(f, data, |data|, cap), Stream(before), data, cap);
    }
  }

  lemma StartAt()
    ensures AsciiAt(START, [], [], 0) && AsciiSlices(START.found, [])
  {
  }

  lemma FreshChunk(f: Finder, past: seq<bv8>, data: seq<bv8>)
    requires AsciiAt(f, past, [], 0)
    ensures AsciiAt(f, past, data, 0)
  {
  }

  // ----- the same, told from the stream and the ends of chunks

  /** The ASCII packet on the stream, whatever the finder makes of it. */
  function TextOf(stream: seq<bv8>): Text {
    if stream == [] then NoText else TextByte(TextOf(stream[..|stream| - 1]), stream[|stream| - 1])
  }

  /** At no end of a chunk without a dollar sign is an ASCII packet open while a candidate from
      within the chunk is. */
  ghost predicate QuietEnds(chunks: seq<seq<bv8>>) {
    chunks == [] ||
    (var before := chunks[..|chunks| - 1];
     var data := chunks[|chunks| - 1];
     var past := Stream(before);
     && QuietEnds(before)
     && (TextOf(past + data) != NoText && DOLLAR !in data ==>
           !OpenWithin(past + data, |past| + 1, |past + data|)))
  }

  ghost predicate TextFollowed(f: Finder, past: seq<bv8>, data: seq<bv8>, i: nat)
    requires i <= |data|
  {
    && (f.ascii.end1 ==> f.ascii.building)
    && (f.ascii.building ==> TextOf(past + data[..i]) == if f.ascii.end1 then Ended else Body)
    && (f.ascii.building && !f.asciiInChunk ==> DOLLAR !in data[..i])
  }

  lemma {:induction false} BytesFollow(f: Finder, past: seq<bv8>, data: seq<bv8>, n: nat, cap: nat)
    requires n <= |data| && TextFollowed(f, past, data, 0)
    ensures TextFollowed(Bytes(f, data, n, cap), past, data, n)
  {
    hide Byte, TextFollowed;
    if n > 0 {
      BytesFollow(f, past, data, n - 1, cap);
      ByteFollows(Bytes(f, data, n - 1, cap), past, data, n - 1, cap);
    }
  }

  lemma ByteFollows(f: Finder, past: seq<bv8>, data: seq<bv8>, i: nat, cap: nat)
    requires i < |data| && TextFollowed(f, past, data, i)
    ensures TextFollowed(Byte(f, data, i, cap), past, data, i + 1)
  {
    hide Check, Window, WalkDeck, RemoveEach;
    assert (past + data[..i + 1])[..|past| + i] == past + data[..i];
    assert data[..i + 1] == data[..i] + [data[i]];
  }

  lemma {:induction false} RunFollows(chunks: seq<seq<bv8>>, cap: nat)
    ensures TextFollowed(Run(chunks, cap), Stream(chunks), [], 0)
    decreases |chunks|
  {
    hide Bytes, EndOfChunk, TextOf;
    if chunks == [] {
    } else {
      var before, data := chunks[..|chunks| - 1], chunks[|chunks| - 1];
      RunFollows(before, cap);
      assert Stream(before) + data[..0] == Stream(before) + [][..0];
      BytesFollow(Run(before, cap), Stream(before), data, |data|, cap);
      assert Stream(before) + data[..|data|] == Stream(chunks) + [][..0];
      EndOfChunkKeepsText(Bytes(Run(before, cap), data, |data|, cap), data, cap);
    }
  }

  lemma {:induction false} QuietEndsAreUnbroken(chunks: seq<seq<bv8>>, cap: nat)
    requires AllAddressable(chunks, cap) && QuietEnds(chunks)
    ensures Unbroken(chunks, cap)
    decreases |chunks|
  {
    hide Bytes, TextOf, Open, HasSeen, AllGenuine;
    if chunks != [] {
      var before, data := chunks[..|chunks| - 1], chunks[|chunks| - 1];
      var past, f0 := Stream(before), Run(before, cap);
      QuietEndsAreUnbroken(before, cap);
      RunSound(before, cap);
      RestingStarts(f0, past, data, cap);
      BytesSound(f0, past, data, |data|, cap);
      RunFollows(before, cap);
      assert past + data[..0] == past + [][..0];
      BytesFollow(f0, past, data, |data|, cap);
      var f := Bytes(f0, data, |data|, cap);
      assert past + data[..|data|] == past + data && data[..|data|] == data;
      if f.ascii.building && !f.asciiInChunk && CopyFrom(f) > 0 {
        assert f.deck[0] in f.deck;
        CandidateIsOpen(f.deck[0], past, data, |data|, f.carry);
      }
    }
  }

  /** If no chunk ends like that, every ASCII packet reported is a slice of the stream. */
  lemma AsciiSlicesIfQuietEnds(chunks: seq<seq<bv8>>, cap: nat)
    requires AllAddressable(chunks, cap) && QuietEnds(chunks)
    ensures AsciiSlices(Run(chunks, cap).found, Stream(chunks))
  {
    QuietEndsAreUnbroken(chunks, cap);
    AsciiReportsAreSlices(chunks, cap);
  }

  // ----- a packet that was never received

  const OPENING: seq<bv8> := [0x24]
  const MIDDLE: seq<bv8> := [0x41, 0xFA]
  const ENDING: seq<bv8> := [0x2A, 0x58, 0x58, 0x0D, 0x0A]

  lemma RankOfStar()
    ensures Rank(0x2A, 8) == 3
  {
    assert !HasGroup(0x2A, 0) && HasGroup(0x2A, 1) && !HasGroup(0x2A, 2) && HasGroup(0x2A, 3);
    assert !HasGroup(0x2A, 4) && HasGroup(0x2A, 5) && !HasGroup(0x2A, 6) && !HasGroup(0x2A, 7);
    assert Rank(0x2A, 4) == 2;
  }

  lemma AfterOpening()
    ensures Receive(START, OPENING, 512) == Finder([0x24], Ascii(true, 0, false, 0), false, [], 1, [])
  {
    var f := Bytes(START, OPENING, 1, 512);
    assert f == Finder([], Ascii(true, 0, false, 0), true, [], 1, []);
    assert [] + OPENING[0..] == [0x24];
  }

  lemma AfterMiddle(f: Finder)
    requires f == Finder([0x24], Ascii(true, 0, false, 0), false, [], 1, [])
    ensures Receive(f, MIDDLE, 512)
         == Finder([0x24, 0xFA], Ascii(true, 0, false, 0), false, [Tracker(1, false, 0, 0, 0, false, 2)], 3, [])
  {
    var f1 := Bytes(f, MIDDLE, 1, 512);
    assert f1 == f.(running := 2);
    var f2 := Bytes(f, MIDDLE, 2, 512);
    assert f2 == f.(running := 3, deck := [Tracker(1, false, 0, 0, 0, true, 2)]);
    assert f.carry + MIDDLE[1..] == [0x24, 0xFA];
    assert RebaseDeck(f2.deck, 1, 1) == [Tracker(1, false, 0, 0, 0, false, 2)];
  }

  /** One byte of the ending on the tracker of the group fields. */
  lemma TrackerWaits(f: Finder, t: Tracker, i: nat)
    requires i < |ENDING| && f.deck == [t]
    requires !t.groupsFound || t.headerLeft > 1
    ensures BinaryByte(f, ENDING, i, 512)
         == f.(deck := [if t.groupsFound then t.(headerLeft := t.headerLeft - 1)
                        else t.(groupsFound := true, groups := ENDING[i], headerLeft := 2 * Rank(ENDING[i], 8))])
  {
    hide Rank;
    assert f.deck[..0] == [];
    var w := WalkDeck(f.deck, f.carry, ENDING, i, 512);
    assert WalkDeck([], f.carry, ENDING, i, 512) == Walk([], [], [], 0);
    assert w.dropped == [];
  }

  lemma AfterEnding(f: Finder)
    requires f == Finder([0x24, 0xFA], Ascii(true, 0, false, 0), false, [Tracker(1, false, 0, 0, 0, false, 2)], 3, [])
    ensures Bytes(f, ENDING, 5, 512).found == [AsciiFound([0x24, 0xFA] + ENDING, 0)]
  {
    hide BinaryByte, Rank, Check, Window;
    RankOfStar();
    var t := f.deck[0];
    var f1 := Bytes(f, ENDING, 1, 512);
    TrackerWaits(f, t, 0);
    assert f1 == f.(running := 4, deck := [t.(groupsFound := true, groups := 0x2A, headerLeft := 6)]);
    var f2 := Bytes(f, ENDING, 2, 512);
    TrackerWaits(f1, f1.deck[0], 1);
    assert f2 == f1.(running := 5, deck := [f1.deck[0].(headerLeft := 5)]);
    var f3 := Bytes(f, ENDING, 3, 512);
    TrackerWaits(f2, f2.deck[0], 2);
    assert f3 == f2.(running := 6, deck := [f2.deck[0].(headerLeft := 4)]);
    var f4 := Bytes(f, ENDING, 4, 512);
    var g3 := AsciiByte(f3, ENDING, 3, 512);
    TrackerWaits(g3, g3.deck[0], 3);
    assert f4 == f3.(running := 7, deck := [f3.deck[0].(headerLeft := 3)], ascii := f3.ascii.(end1 := true));
    LastByte(f4);
    var g4 := AsciiByte(f4, ENDING, 4, 512);
    TrackerWaits(g4, g4.deck[0], 4);
  }

  lemma LastByte(f: Finder)
    requires f.carry == [0x24, 0xFA] && f.ascii == Ascii(true, 0, true, 0) && !f.asciiInChunk && f.found == [] && f.deck != []
    ensures AsciiByte(f, ENDING, 4, 512)
         == f.(ascii := NO_ASCII, asciiInChunk := false, found := [AsciiFound([0x24, 0xFA] + ENDING, 0)])
  {
    var p := [0x24, 0xFA] + ENDING;
    assert ENDING[..5] == ENDING;
    assert Window(false, 0, f.carry, ENDING, 5) == p;
    assert Check(p) == Valid;
  }

  /** The bytes `$ A FA * X X CR LF`, in three chunks: the `A` is lost, and a packet is reported
      that is nowhere in the stream. */
  lemma PhantomPacket()
    ensures var chunks := [OPENING, MIDDLE, ENDING];
            var p := [0x24, 0xFA, 0x2A, 0x58, 0x58, 0x0D, 0x0A];
            && AsciiFound(p, 0) in Run(chunks, 512).found
            && forall at: nat :: !SliceAt(Stream(chunks), at, p)
  {
    hide Receive, Bytes, Rank;
    var chunks := [OPENING, MIDDLE, ENDING];
    var p: seq<bv8> := [0x24, 0xFA, 0x2A, 0x58, 0x58, 0x0D, 0x0A];
    RunOfThree(OPENING, MIDDLE, ENDING, 512);
    AfterOpening();
    AfterMiddle(Receive(START, OPENING, 512));
    var f := Receive(Receive(START, OPENING, 512), MIDDLE, 512);
    AfterEnding(f);
    assert p == [0x24, 0xFA] + ENDING;
    FoundStays(f, ENDING, 512);
    var s := Stream(chunks);
    assert s == [0x24, 0x41, 0xFA, 0x2A, 0x58, 0x58, 0x0D, 0x0A];
    forall at: nat
      ensures !SliceAt(s, at, p)
    {
      if at == 0 {
        assert s[0..7][1] != p[1];
      } else if at == 1 {
        assert s[1..8][0] != p[0];
      }
    }
  }

  lemma FoundStays(f: Finder, data: seq<bv8>, cap: nat)
    ensures Receive(f, data, cap).found == Bytes(f, data, |data|, cap).found
  {
  }

  lemma RunOfThree(a: seq<bv8>, b: seq<bv8>, c: seq<bv8>, cap: nat)
    ensures Run([a, b, c], cap) == Receive(Receive(Receive(START, a, cap), b, cap), c, cap)
    ensures Stream([a, b, c]) == a + b + c
  {
    hide Receive;
    assert [a, b, c][..2] == [a, b] && [a, b][..1] == [a] && [a][..0] == [];
    assert Run([a], cap) == Receive(START, a, cap) && Stream([a]) == [] + a == a;
    assert Run([a, b], cap) == Receive(Run([a], cap), b, cap) && Stream([a, b]) == a + b;
  }
}
