/**
 The packet finder as an object: a receive buffer, the trackers, and one method that is
 called with every chunk of received data.
 */
module PacketFinder {
  import opened VnPacket
  import opened VnBinary
  import opened FinderModel
  import opened FinderSoundness
  import opened FinderReach
  import opened FinderRefinement
  import opened FinderRuns

  class PacketFinder {
    const buffer: array<bv8>
    var bufferAppendLocation: nat
    var asciiOnDeck: Ascii
    var binaryOnDeck: seq<Tracker>
    var runningDataIndex: nat    // reported modulo 2^64
    var asciiStartFoundInProvidedBuffer: bool
    var found: seq<Event>        // what the packet handler was called with
    ghost var received: seq<bv8> // everything received so far

    ghost predicate Ready()
      reads this
    {
      0 < buffer.Length < WORD / 2 && bufferAppendLocation < buffer.Length
    }

    /** Between calls the trackers and the buffer fit what was received. */
    ghost predicate Valid()
      reads this, buffer
    {
      Ready() && Resting(View(), received, buffer.Length)
    }

    /** The finder holds what may still be needed of the stream, and has reported the same. */
    ghost predicate InStep()
      reads this, buffer
    {
      Ready() && Linked(View(), received, [], 0, Reached(received))
    }

    /** The finder as a value. */
    ghost function View(): Finder
      requires Ready()
      reads this, buffer
    {
      Finder(buffer[..bufferAppendLocation], asciiOnDeck, asciiStartFoundInProvidedBuffer,
             binaryOnDeck, runningDataIndex, found)
    }

    constructor (internalReceiveBufferSize: nat)
      requires 0 < internalReceiveBufferSize < WORD / 2
      ensures Valid() && InStep() && fresh(buffer) && buffer.Length == internalReceiveBufferSize
      ensures View() == START && received == []
    {
      buffer := new bv8[internalReceiveBufferSize];
      bufferAppendLocation := 0;
      asciiOnDeck := NO_ASCII;
      binaryOnDeck := [];
      runningDataIndex := 0;
      asciiStartFoundInProvidedBuffer := false;
      found := [];
      received := [];
      new;
      StartRests(buffer.Length);
      StartLinked();
    }

    method ResetTracking()
      requires Ready()
      modifies this
      ensures Ready() && View() == Reset(old(View())) && received == old(received)
    {
      asciiOnDeck := NO_ASCII;
      binaryOnDeck := [];
      bufferAppendLocation := 0;
    }

    /** Copies data behind the used part of the buffer, without taking it into use. */
    method CopyBehind(data: seq<bv8>)
      requires Ready() && bufferAppendLocation + |data| <= buffer.Length
      modifies buffer
      ensures buffer[..bufferAppendLocation] == old(buffer[..bufferAppendLocation])
      ensures buffer[..bufferAppendLocation + |data|] == old(buffer[..bufferAppendLocation]) + data
    {
      for k := 0 to |data|
        invariant buffer[..bufferAppendLocation] == old(buffer[..bufferAppendLocation])
        invariant buffer[bufferAppendLocation..bufferAppendLocation + k] == data[..k]
      {
        buffer[bufferAppendLocation + k] := data[k];
      }
    }

    method ClearAsciiTracker()
      requires Ready()
      modifies this
      ensures Ready() && View() == ClearAscii(old(View())) && received == old(received)
    {
      if binaryOnDeck == [] {
        ResetTracking();
      } else {
        asciiOnDeck := NO_ASCII;
      }
    }

    /** The ASCII packet that ends at byte `i`; empty if the buffer is too small for it. */
    method AsciiPacket(data: seq<bv8>, i: nat) returns (packet: seq<bv8>)
      requires Ready() && i < |data| && AsciiOk(View(), data, i) && asciiOnDeck.building
      modifies buffer
      ensures View() == old(View())
      ensures packet == if asciiStartFoundInProvidedBuffer || bufferAppendLocation + i < buffer.Length
                        then Window(asciiStartFoundInProvidedBuffer, asciiOnDeck.start, View().carry, data, i + 1) else []
    {
      if asciiStartFoundInProvidedBuffer {
        packet := data[asciiOnDeck.start..i + 1];
        assert data[..i + 1][asciiOnDeck.start..] == packet;
      } else if bufferAppendLocation + i < buffer.Length {
        CopyBehind(data[..i + 1]);
        packet := buffer[asciiOnDeck.start..bufferAppendLocation + i + 1];
        assert buffer[..bufferAppendLocation + i + 1][asciiOnDeck.start..] == packet;
      } else {
        packet := [];
      }
    }

    method ReceiveAsciiByte(data: seq<bv8>, i: nat)
      requires Ready() && i < |data| && AsciiOk(View(), data, i)
      modifies this, buffer
      ensures Ready() && View() == AsciiByte(old(View()), data, i, buffer.Length)
      ensures received == old(received)
    {
      if data[i] == DOLLAR {
        asciiOnDeck := Ascii(true, i, false, runningDataIndex);
        asciiStartFoundInProvidedBuffer := true;
      } else if asciiOnDeck.building && data[i] == CR {
        asciiOnDeck := asciiOnDeck.(end1 := true);
      } else if asciiOnDeck.end1 {
        if data[i] == LF {
          var packet := AsciiPacket(data, i);
          var answer := IsValid(packet);
          if answer == VnPacket.Valid {
            found := found + [AsciiFound(packet, asciiOnDeck.at % WORD)];
          }
        }
        ClearAsciiTracker();
        asciiStartFoundInProvidedBuffer := false;
      } else if i + 1 > MAX_ASCII {
        if binaryOnDeck == [] {
          ResetTracking();
        } else {
          asciiOnDeck := NO_ASCII;
          asciiStartFoundInProvidedBuffer := false;
        }
      }
    }

    /** What byte `i` does to one tracker; `past` was received before the chunk. */
    method AdvanceTracker(t: Tracker, data: seq<bv8>, i: nat, ghost past: seq<bv8>) returns (r: Progress)
      requires Ready() && i < |data| && TrackerOk(t, past, data, i, View().carry)
      modifies buffer
      ensures View() == old(View())
      ensures r == TrackerByte(t, View().carry, data, i, buffer.Length)
    {
      hide HeaderLength, Check, Rank;
      if !t.groupsFound {
        return Keep(t.(groupsFound := true, groups := data[i], headerLeft := 2 * Rank(data[i], 8)));
      }
      if t.headerLeft != 0 {
        var t1 := t.(headerLeft := t.headerLeft - 1);
        if t1.headerLeft != 0 {
          return Keep(t1);
        }
        if !t.inChunk && bufferAppendLocation + i + 1 >= buffer.Length {
          return Drop(t1);
        }
        var p := PacketSoFar(t, data, i, past);
        HeaderIsComplete(t, past, data, i, View().carry);
        var length := ReadHeaderLength(p);
        var remaining := Sub64(length, |p|);
        return if remaining > MAX_BINARY then Drop(t1) else Keep(t1.(left := remaining));
      }
      var t1 := t.(left := Sub64(t.left, 1));
      if t1.left != 0 {
        return Keep(t1);
      }
      if !t.inChunk && bufferAppendLocation + i + 1 >= buffer.Length {
        return Drop(t1);
      }
      var p := PacketSoFar(t, data, i, past);
      var answer := IsValid(p);
      return if answer == VnPacket.Valid then Done(p) else Drop(t1);
    }

    /** The bytes of a tracked packet up to byte `i`, joined in the buffer if it began in an
        earlier chunk. */
    method PacketSoFar(t: Tracker, data: seq<bv8>, i: nat, ghost past: seq<bv8>) returns (p: seq<bv8>)
      requires Ready() && i < |data| && TrackerOk(t, past, data, i, View().carry)
      requires !Overrun(t, View().carry, i, buffer.Length)
      modifies buffer
      ensures View() == old(View())
      ensures p == Window(t.inChunk, t.start, View().carry, data, i + 1)
    {
      if t.inChunk {
        p := data[t.start..i + 1];
        assert data[..i + 1][t.start..] == p;
      } else {
        CopyBehind(data[..i + 1]);
        p := buffer[t.start..bufferAppendLocation + i + 1];
        assert buffer[..bufferAppendLocation + i + 1][t.start..] == p;
      }
    }

    /** Updates the trackers in turn, up to the first that completes a packet. */
    method UpdateTrackers(data: seq<bv8>, i: nat, ghost past: seq<bv8>)
      returns (done: bool, invalidPackets: seq<Tracker>)
      requires Ready() && i < |data| && DeckOk(binaryOnDeck, past, data, i, View().carry)
      modifies this, buffer
      ensures Ready() && received == old(received)
      ensures var f := old(View());
              var w := WalkDeck(f.deck, f.carry, data, i, buffer.Length);
              if done then w.packet != [] && View() == Reset(f).(found := f.found + [BinaryFound(w.packet, w.at % WORD)])
              else w == Walk(View().deck, invalidPackets, [], 0) && View() == f.(deck := w.deck)
    {
      hide TrackerByte, TrackerOk, Sorted, WalkDeck;
      WalkNothing(View().carry, data, i, buffer.Length);
      ghost var f := View();
      ghost var cap := buffer.Length;
      invalidPackets := [];
      for k := 0 to |binaryOnDeck|
        invariant Ready() && View() == f.(deck := binaryOnDeck) && received == old(received)
        invariant |binaryOnDeck| == |f.deck|
        invariant forall m :: k <= m < |f.deck| ==> binaryOnDeck[m] == f.deck[m]
        invariant WalkDeck(f.deck[..k], f.carry, data, i, cap) == Walk(binaryOnDeck[..k], invalidPackets, [], 0)
      {
        var ez := binaryOnDeck[k];
        WalkNext(f.deck, k, f.carry, data, i, cap);
        var r := AdvanceTracker(ez, data, i, past);
        match r {
          case Keep(t1) =>
            binaryOnDeck := binaryOnDeck[k := t1];
          case Drop(t1) =>
            binaryOnDeck := binaryOnDeck[k := t1];
            invalidPackets := invalidPackets + [t1];
          case Done(p) =>
            DoneIsNotEmpty(ez, f.carry, data, i, cap);
            WalkIsDone(f.deck, k + 1, f.carry, data, i, cap);
            ResetTracking();
            found := found + [BinaryFound(p, ez.at % WORD)];
            return true, [];
        }
        assert binaryOnDeck[..k + 1] == binaryOnDeck[..k] + [binaryOnDeck[k]];
      }
      assert f.deck[..|f.deck|] == f.deck && binaryOnDeck[..|binaryOnDeck|] == binaryOnDeck;
      done := false;
    }

    /** Updates the trackers and removes the dropped ones. */
    method ReceiveBinaryByte(data: seq<bv8>, i: nat, ghost past: seq<bv8>)
      requires Ready() && i < |data| && DeckOk(binaryOnDeck, past, data, i, View().carry)
      modifies this, buffer
      ensures Ready() && View() == BinaryByte(old(View()), data, i, buffer.Length)
      ensures received == old(received)
    {
      hide DeckOk, WalkDeck, Remove;
      var done, invalidPackets := UpdateTrackers(data, i, past);
      ghost var f := View();
      if !done {
        for k := 0 to |invalidPackets|
          invariant Ready() && View() == f.(deck := binaryOnDeck) && received == old(received)
          invariant binaryOnDeck == RemoveEach(f.deck, invalidPackets[..k])
        {
          assert invalidPackets[..k + 1][..k] == invalidPackets[..k];
          binaryOnDeck := Remove(binaryOnDeck, invalidPackets[k]);
        }
        assert invalidPackets[..|invalidPackets|] == invalidPackets;
      }
    }

    /** One received byte. */
    method ReceiveByte(data: seq<bv8>, i: nat, ghost past: seq<bv8>)
      requires Ready() && i < |data| && Addressable(data, buffer.Length)
      requires Sound(View(), past, data, i, buffer.Length)
      modifies this, buffer
      ensures Ready() && View() == Byte(old(View()), data, i, buffer.Length)
      ensures received == old(received)
    {
      hide DeckOk, AllGenuine, AsciiByte, BinaryByte;
      ghost var f := View();
      AsciiByteSound(f, past, data, i, buffer.Length);
      ReceiveAsciiByte(data, i);
      ReceiveBinaryByte(data, i, past);
      if binaryOnDeck == [] && !asciiOnDeck.building {
        bufferAppendLocation := 0;
      }
      if data[i] == SYNC {
        binaryOnDeck := binaryOnDeck + [Tracker(i, false, 0, 0, 0, true, runningDataIndex)];
      }
      runningDataIndex := runningDataIndex + 1;
    }

    /** Chooses where to copy from and rebases the trackers on the buffer. */
    method RebaseTrackers(data: seq<bv8>, ghost past: seq<bv8>) returns (from: nat)
      requires Ready() && Sound(View(), past, data, |data|, buffer.Length)
      requires binaryOnDeck != [] || asciiOnDeck.building
      modifies this
      ensures Ready() && received == old(received)
      ensures from == CopyFrom(old(View())) <= |data|
      ensures var f := old(View());
              View() == f.(ascii := RebaseAscii(f, from), deck := RebaseDeck(f.deck, from, |f.carry|), asciiInChunk := false)
    {
      hide DeckOk, AllGenuine;
      CopyFromInChunk(View(), past, data, buffer.Length);
      from := 0;
      if binaryOnDeck != [] && binaryOnDeck[0].inChunk {
        from := binaryOnDeck[0].start;
      }
      if asciiOnDeck.building && asciiStartFoundInProvidedBuffer {
        if asciiOnDeck.start < from || binaryOnDeck == [] {
          from := asciiOnDeck.start;
        }
        asciiOnDeck := asciiOnDeck.(start := bufferAppendLocation + asciiOnDeck.start - from);
      }
      binaryOnDeck := RebaseDeck(binaryOnDeck, from, bufferAppendLocation);
      asciiStartFoundInProvidedBuffer := false;
    }

    /** Carries over the bytes that open packets need. */
    method CarryOver(data: seq<bv8>, ghost past: seq<bv8>)
      requires Ready() && Sound(View(), past, data, |data|, buffer.Length)
      modifies this, buffer
      ensures Ready() && View() == EndOfChunk(old(View()), data, buffer.Length)
      ensures received == old(received)
    {
      hide Sound, CopyFrom, RebaseAscii;
      if binaryOnDeck == [] && !asciiOnDeck.building {
        asciiStartFoundInProvidedBuffer := false;
        return;
      }
      var from := RebaseTrackers(data, past);
      if bufferAppendLocation + |data| - from < buffer.Length {
        CopyBehind(data[from..]);
        bufferAppendLocation := bufferAppendLocation + |data| - from;
      } else {
        ResetTracking();
      }
    }

    /** Processes one chunk of received data.  Every report stays genuine, and as long as the
        buffer reaches back far enough they are the reports of the whole-stream decoder. */
    method DataReceived(data: seq<bv8>)
      requires Valid() && |data| < WORD / 2
      modifies this, buffer
      ensures Valid() && received == old(received) + data
      ensures View() == Receive(old(View()), data, buffer.Length)
      ensures AllGenuine(found, received)
      ensures old(InStep()) && WithinReach(received, buffer.Length) ==>
                InStep() && BinaryReports(found) == Decode(received).reports
    {
      hide Sound, AllGenuine, WithinReach, Byte, EndOfChunk;
      ghost var past := received;
      ghost var f := View();
      RestingStarts(f, past, data, buffer.Length);
      for i := 0 to |data|
        invariant Ready() && View() == Bytes(f, data, i, buffer.Length) && received == past
        invariant Sound(View(), past, data, i, buffer.Length)
      {
        ByteSound(View(), past, data, i, buffer.Length);
        ReceiveByte(data, i, past);
      }
      EndOfChunkSound(View(), past, data, buffer.Length);
      CarryOver(data, past);
      received := received + data;
      RestingIsGenuine(View(), received, buffer.Length);
      if old(InStep()) && WithinReach(received, buffer.Length) {
        ReceiveInStep(f, past, data, buffer.Length);
      }
    }
  }

  /** The announced length, read from a header that is complete. */
  method ReadHeaderLength(p: seq<bv8>) returns (length: nat)
    requires HeaderComplete(p)
    ensures length == HeaderLength(p)
  {
    RankStep(p[1], 6, 8);
    length := ComputeBinaryPacketLength(p);
  }

  /** A tracker reads the header only when all of it has been received. */
  lemma HeaderIsComplete(t: Tracker, past: seq<bv8>, data: seq<bv8>, i: nat, carry: seq<bv8>)
    requires i < |data| && TrackerOk(t, past, data, i, carry)
    requires t.groupsFound && t.headerLeft == 1
    ensures HeaderComplete(Window(t.inChunk, t.start, carry, data, i + 1))
  {
    hide Rank;
    WindowIsStream(t, past, data, i + 1, carry);
    var b := (past + data[..i])[t.at..];
    assert (past + data[..i + 1])[t.at..] == b + [data[i]];
  }

  lemma WalkNothing(carry: seq<bv8>, data: seq<bv8>, i: nat, cap: nat)
    requires i < |data|
    ensures WalkDeck([], carry, data, i, cap) == Walk([], [], [], 0)
  {
  }

  lemma WalkNext(deck: seq<Tracker>, k: nat, carry: seq<bv8>, data: seq<bv8>, i: nat, cap: nat)
    requires i < |data| && k < |deck|
    ensures deck[k] in deck
    ensures var w := WalkDeck(deck[..k], carry, data, i, cap);
            w.packet == [] ==>
              WalkDeck(deck[..k + 1], carry, data, i, cap)
              == match TrackerByte(deck[k], carry, data, i, cap)
                 case Keep(t1) => w.(deck := w.deck + [t1])
                 case Drop(t1) => w.(deck := w.deck + [t1], dropped := w.dropped + [t1])
                 case Done(p) => w.(packet := p, at := deck[k].at)
  {
    assert deck[..k + 1][..k] == deck[..k];
  }

  /** Once the walk over the deck has completed a packet, the rest of the deck is not visited. */
  lemma {:induction false} WalkIsDone(deck: seq<Tracker>, n: nat, carry: seq<bv8>, data: seq<bv8>, i: nat, cap: nat)
    requires i < |data| && n <= |deck|
    requires WalkDeck(deck[..n], carry, data, i, cap).packet != []
    ensures WalkDeck(deck, carry, data, i, cap) == WalkDeck(deck[..n], carry, data, i, cap)
    decreases |deck|
  {
    hide TrackerByte;
    if n == |deck| {
      assert deck[..n] == deck;
    } else {
      assert deck[..|deck| - 1][..n] == deck[..n];
      WalkIsDone(deck[..|deck| - 1], n, carry, data, i, cap);
    }
  }

  lemma CopyFromInChunk(f: Finder, past: seq<bv8>, data: seq<bv8>, cap: nat)
    requires Sound(f, past, data, |data|, cap) && (f.deck != [] || f.ascii.building)
    ensures CopyFrom(f) <= |data|
    ensures f.ascii.building && f.asciiInChunk ==> CopyFrom(f) <= f.ascii.start
  {
    hide HasSeen, AllGenuine;
    if f.deck != [] {
      assert TrackerOk(f.deck[0], past, data, |data|, f.carry);
    }
  }

  lemma RestingIsGenuine(f: Finder, past: seq<bv8>, cap: nat)
    requires Resting(f, past, cap)
    ensures AllGenuine(f.found, past)
  {
    assert past + [][..0] == past;
  }
}
