/**
 How far back the packet finder has to reach, told from the stream alone, and what it reports
 while its buffer reaches that far: over whole runs, and from every idle state.
 */
module FinderReach {
  import opened VnPacket
  import opened VnBinary
  import opened FinderModel
  import opened FinderSoundness
  import opened FinderRefinement

  // ----- the oldest byte that may still be needed

  /** An ASCII packet on the stream: none, open, or open with a carriage return just before. */
  datatype Text = NoText | Body | Ended

  function TextByte(t: Text, b: bv8): Text {
    if b == DOLLAR then Body
    else if t != NoText && b == CR then Ended
    else if t == Ended then NoText
    else t
  }

  /** The packets reported so far, where the oldest stretch of open candidates began (the end of
      the stream if nothing is open), and the ASCII packet. */
  datatype Reach = Reach(reports: seq<Event>, anchor: nat, text: Text)

  const FROM_START: Reach := Reach([], 0, NoText)

  ghost predicate OpenWithin(stream: seq<bv8>, from: nat, to: nat)
    requires to <= |stream|
  {
    exists o :: from <= o < to && Open(stream[o..])
  }

  /** One more byte: a report closes everything; otherwise the anchor stays while anything that
      was there before the byte is open. */
  ghost function ReachByte(r: Reach, stream: seq<bv8>): (r1: Reach)
    requires stream != [] && r.anchor <= |stream| - 1
    ensures r.anchor <= r1.anchor <= |stream|
  {
    var b := stream[|stream| - 1];
    var d := DecodeByte(Decoded(r.reports, r.anchor), stream);
    if d.reports != r.reports then Reach(d.reports, d.restart, NoText)
    else
      var text := TextByte(r.text, b);
      var anchor := if text != NoText || OpenWithin(stream, r.anchor, |stream| - 1) then r.anchor
                    else if b == SYNC then |stream| - 1 else |stream|;
      Reach(r.reports, anchor, text)
  }

  /** From `r` after the bytes `x`, on through `p`. */
  ghost function ReachOn(r: Reach, x: seq<bv8>, p: seq<bv8>): (r1: Reach)
    requires r.anchor <= |x|
    ensures r.anchor <= r1.anchor <= |x + p|
    decreases |p|
  {
    if p == [] then r else ReachByte(ReachOn(r, x, p[..|p| - 1]), x + p)
  }

  /** No stretch of open candidates gets longer than the receive buffer. */
  ghost predicate WithinReachOn(r: Reach, x: seq<bv8>, p: seq<bv8>, cap: nat)
    requires r.anchor <= |x|
  {
    forall n | 0 <= n < |p| :: |x| + n + 1 - ReachOn(r, x, p[..n]).anchor < cap
  }

  ghost function Reached(stream: seq<bv8>): Reach {
    ReachOn(FROM_START, [], stream)
  }

  ghost predicate WithinReach(stream: seq<bv8>, cap: nat) {
    WithinReachOn(FROM_START, [], stream, cap)
  }

  lemma {:induction false} ReachJoin(r: Reach, x: seq<bv8>, a: seq<bv8>, b: seq<bv8>)
    requires r.anchor <= |x|
    ensures ReachOn(r, x, a + b) == ReachOn(ReachOn(r, x, a), x + a, b)
    decreases |b|
  {
    hide ReachByte;
    if b == [] {
      assert a + b == a;
    } else {
      assert (a + b)[..|a + b| - 1] == a + b[..|b| - 1];
      ReachJoin(r, x, a, b[..|b| - 1]);
      assert x + (a + b) == (x + a) + b;
    }
  }

  lemma WithinReachSplit(r: Reach, x: seq<bv8>, a: seq<bv8>, b: seq<bv8>, cap: nat)
    requires r.anchor <= |x| && WithinReachOn(r, x, a + b, cap)
    ensures WithinReachOn(r, x, a, cap) && WithinReachOn(ReachOn(r, x, a), x + a, b, cap)
  {
    hide ReachOn;
    forall n | 0 <= n < |a|
      ensures |x| + n + 1 - ReachOn(r, x, a[..n]).anchor < cap
    {
      assert (a + b)[..n] == a[..n];
    }
    forall n | 0 <= n < |b|
      ensures |x + a| + n + 1 - ReachOn(ReachOn(r, x, a), x + a, b[..n]).anchor < cap
    {
      assert (a + b)[..|a| + n] == a + b[..n];
      ReachJoin(r, x, a, b[..n]);
    }
  }

  /** At the end of a stretch within reach, the anchor is. */
  lemma EndInReach(r: Reach, x: seq<bv8>, p: seq<bv8>, cap: nat)
    requires r.anchor <= |x| && WithinReachOn(r, x, p, cap) && |x| - r.anchor < cap
    ensures |x + p| - ReachOn(r, x, p).anchor < cap
  {
    hide ReachByte;
    if p != [] {
      assert |x| + (|p| - 1) + 1 - ReachOn(r, x, p[..|p| - 1]).anchor < cap;
    }
  }

  // ----- the finder keeps what may still be needed

  /** The finder has reported the same, holds nothing from before the anchor, and its ASCII
      packet, if open, is that of the stream. */
  ghost predicate Linked(f: Finder, past: seq<bv8>, data: seq<bv8>, i: nat, r: Reach)
    requires i <= |data|
  {
    && Agrees(f, past, data, i, Decoded(r.reports, r.anchor))
    && (f.ascii.building ==> r.text == if f.ascii.end1 then Ended else Body)
  }

  /** What a byte does to the ASCII packet. */
  lemma TextFollows(f: Finder, data: seq<bv8>, i: nat, cap: nat, text: Text)
    requires i < |data| && (f.ascii.end1 ==> f.ascii.building)
    requires f.ascii.building ==> text == if f.ascii.end1 then Ended else Body
    ensures var a := Byte(f, data, i, cap).ascii;
            a.building ==> TextByte(text, data[i]) == if a.end1 then Ended else Body
  {
    hide Check, Window, WalkDeck, RemoveEach;
  }

  /** A report leaves no ASCII packet. */
  lemma ReportEndsText(f: Finder, past: seq<bv8>, data: seq<bv8>, i: nat, d: Decoded, cap: nat)
    requires i < |data| && Addressable(data, cap) && Sound(f, past, data, i, cap)
    requires Agrees(f, past, data, i, d) && InReach(past, i, d.restart, cap)
    requires d.restart <= |past| + i && DecodeByte(d, past + data[..i + 1]).reports != d.reports
    ensures !Byte(f, data, i, cap).ascii.building
  {
    hide AsciiOk, AllGenuine, DeckOk, Tracking, FirstStart, AsciiByte, BinaryByte;
    AsciiByteSound(f, past, data, i, cap);
    AsciiByteTracks(f, past, data, i, d.restart, cap);
    BinaryByteDecodes(AsciiByte(f, data, i, cap), past, data, i, d.restart, cap);
  }

  /** If nothing from before the byte is open, the finder holds nothing but, possibly, a
      candidate that the byte begins. */
  lemma ForgetsAll(f2: Finder, past: seq<bv8>, data: seq<bv8>, i: nat, from: nat, cap: nat)
    requires i < |data|
    requires forall t :: t in f2.deck ==> t.at < |past| + i
    requires var f := Settle(f2, data[i], i);
             && Sound(f, past, data, i + 1, cap)
             && Tracking(f, past, data, i + 1, from)
             && !f.ascii.building
             && !OpenWithin(past + data[..i + 1], from, |past| + i)
    ensures Tracking(Settle(f2, data[i], i), past, data, i + 1, if data[i] == SYNC then |past| + i else |past| + i + 1)
  {
    hide Startable, AsciiOk, AllGenuine, Sorted;
    var f := Settle(f2, data[i], i);
    var stream := past + data[..i + 1];
    if f2.deck != [] {
      var t := f2.deck[0];
      assert t in f2.deck && t in f.deck;
      CandidateIsOpen(t, past, data, i + 1, f.carry);
    }
    if data[i] == SYNC {
      assert f.deck[0].at == |past| + i;
    }
  }

  lemma CandidateIsOpen(t: Tracker, past: seq<bv8>, data: seq<bv8>, i: nat, carry: seq<bv8>)
    requires i <= |data| && TrackerOk(t, past, data, i, carry)
    ensures t.at < |past| + i && Open((past + data[..i])[t.at..])
  {
    hide Open;
  }

  /** One byte keeps the finder linked to the stream while the buffer reaches back. */
  lemma ByteReaches(f: Finder, past: seq<bv8>, data: seq<bv8>, i: nat, r: Reach, cap: nat)
    requires i < |data| && Addressable(data, cap) && Sound(f, past, data, i, cap)
    requires Linked(f, past, data, i, r) && InReach(past, i, r.anchor, cap)
    ensures r.anchor <= |past| + i
    ensures Linked(Byte(f, data, i, cap), past, data, i + 1, ReachByte(r, past + data[..i + 1]))
  {
    hide AllGenuine, DeckOk, Tracking, DecodeByte, AsciiByte, BinaryByte, Settle, OpenWithin, BinaryReports;
    var d := Decoded(r.reports, r.anchor);
    var stream := past + data[..i + 1];
    assert stream[|stream| - 1] == data[i];
    TrackingBounds(f, past, data, i, r.anchor);
    ByteDecodes(f, past, data, i, d, cap);
    ByteSound(f, past, data, i, cap);
    TextFollows(f, data, i, cap, r.text);
    var d1 := DecodeByte(d, stream);
    if d1.reports != d.reports {
      ReportEndsText(f, past, data, i, d, cap);
    } else {
      UnreportedKeepsRestart(d, stream);
      if TextByte(r.text, data[i]) == NoText && !OpenWithin(stream, r.anchor, |past| + i) {
        var f1 := AsciiByte(f, data, i, cap);
        AsciiByteSound(f, past, data, i, cap);
        DeckStaysInPlace(f1, past, data, i, cap);
        ForgetsAll(BinaryByte(f1, data, i, cap), past, data, i, r.anchor, cap);
      }
    }
  }

  lemma UnreportedKeepsRestart(d: Decoded, stream: seq<bv8>)
    requires stream != [] && d.restart <= |stream| - 1
    ensures DecodeByte(d, stream).reports == d.reports ==> DecodeByte(d, stream) == d
    ensures DecodeByte(d, stream).reports == d.reports <==> FirstStart(stream, d.restart) == |stream|
  {
    hide FirstStart;
  }

  lemma EndOfChunkKeepsText(f: Finder, data: seq<bv8>, cap: nat)
    ensures var a := EndOfChunk(f, data, cap).ascii;
            && (a.building ==> f.ascii.building && a.end1 == f.ascii.end1)
            && ((f.ascii.end1 ==> f.ascii.building) ==> (a.end1 ==> a.building))
  {
    hide RebaseDeck;
  }

  // ----- within a chunk, from any of its bytes

  lemma {:induction false} BytesReach(f: Finder, past: seq<bv8>, data: seq<bv8>, i: nat, n: nat, r: Reach, cap: nat)
    requires i <= n <= |data| && Addressable(data, cap) && Sound(f, past, data, 0, cap)
    requires Linked(Bytes(f, data, i, cap), past, data, i, r) && r.anchor <= |past| + i
    requires forall k | i <= k < n :: InReach(past, k, ReachOn(r, past + data[..i], data[i..k]).anchor, cap)
    ensures Linked(Bytes(f, data, n, cap), past, data, n, ReachOn(r, past + data[..i], data[i..n]))
  {
    hide Linked, Sound, Byte, ReachByte, InReach;
    var x := past + data[..i];
    if n > i {
      BytesReach(f, past, data, i, n - 1, r, cap);
      BytesSound(f, past, data, n - 1, cap);
      var p := data[i..n];
      assert p[..|p| - 1] == data[i..n - 1];
      assert x + p == past + data[..n];
      ByteReaches(Bytes(f, data, n - 1, cap), past, data, n - 1, ReachOn(r, x, data[i..n - 1]), cap);
    }
  }

  lemma ReachInChunk(past: seq<bv8>, data: seq<bv8>, i: nat, r: Reach, cap: nat)
    requires i <= |data| && r.anchor <= |past| + i
    requires WithinReachOn(r, past + data[..i], data[i..], cap)
    ensures forall k | i <= k < |data| :: InReach(past, k, ReachOn(r, past + data[..i], data[i..k]).anchor, cap)
  {
    hide ReachOn;
    var x, p := past + data[..i], data[i..];
    forall k | i <= k < |data|
      ensures InReach(past, k, ReachOn(r, x, data[i..k]).anchor, cap)
    {
      assert p[..k - i] == data[i..k];
      assert |x| + (k - i) + 1 - ReachOn(r, x, p[..k - i]).anchor < cap;
    }
  }

  /** The rest of a chunk, from byte `i` on, and its end. */
  lemma ChunkReaches(f: Finder, past: seq<bv8>, data: seq<bv8>, i: nat, r: Reach, cap: nat)
    requires i <= |data| && Addressable(data, cap) && Resting(f, past, cap)
    requires Linked(Bytes(f, data, i, cap), past, data, i, r) && r.anchor <= |past| + i
    requires WithinReachOn(r, past + data[..i], data[i..], cap) && |past| + i - r.anchor < cap
    ensures Linked(Receive(f, data, cap), past + data, [], 0, ReachOn(r, past + data[..i], data[i..]))
  {
    hide Sound, Bytes, EndOfChunk, ReachOn, Agrees, Resting, WithinReachOn, InReach;
    var x, p := past + data[..i], data[i..];
    RestingStarts(f, past, data, cap);
    ReachInChunk(past, data, i, r, cap);
    BytesReach(f, past, data, i, |data|, r, cap);
    assert data[i..|data|] == p && past + data[..|data|] == past + data;
    BytesSound(f, past, data, |data|, cap);
    EndInReach(r, x, p, cap);
    assert x + p == past + data;
    var r1 := ReachOn(r, x, p);
    EndOfChunkTracks(Bytes(f, data, |data|, cap), past, data, Decoded(r1.reports, r1.anchor), cap);
    EndOfChunkKeepsText(Bytes(f, data, |data|, cap), data, cap);
  }

  lemma ReceiveReaches(f: Finder, past: seq<bv8>, data: seq<bv8>, r: Reach, cap: nat)
    requires Addressable(data, cap) && Resting(f, past, cap)
    requires Linked(f, past, [], 0, r) && r.anchor <= |past|
    requires WithinReachOn(r, past, data, cap) && |past| - r.anchor < cap
    ensures Linked(Receive(f, data, cap), past + data, [], 0, ReachOn(r, past, data))
  {
    hide ReachOn, Agrees, Receive;
    NextChunk(f, past, data, Decoded(r.reports, r.anchor));
    assert past + data[..0] == past && data[0..] == data;
    ChunkReaches(f, past, data, 0, r, cap);
  }

  // ----- runs

  /** The finder `f` given further chunks. */
  function RunOn(f: Finder, chunks: seq<seq<bv8>>, cap: nat): Finder {
    if chunks == [] then f else Receive(RunOn(f, chunks[..|chunks| - 1], cap), chunks[|chunks| - 1], cap)
  }

  lemma {:induction false} RunFromStart(chunks: seq<seq<bv8>>, cap: nat)
    ensures Run(chunks, cap) == RunOn(START, chunks, cap)
    decreases |chunks|
  {
    hide Receive;
    if chunks != [] {
      RunFromStart(chunks[..|chunks| - 1], cap);
    }
  }

  lemma {:induction false} RunJoin(a: seq<seq<bv8>>, b: seq<seq<bv8>>, cap: nat)
    ensures Run(a + b, cap) == RunOn(Run(a, cap), b, cap)
    decreases |b|
  {
    hide Receive, Stream;
    if b == [] {
      assert a + b == a;
    } else {
      var b1, data := b[..|b| - 1], b[|b| - 1];
      assert (a + b)[..|a + b| - 1] == a + b1 && (a + b)[|a + b| - 1] == data;
      RunJoin(a, b1, cap);
    }
  }

  lemma {:induction false} StreamJoin(a: seq<seq<bv8>>, b: seq<seq<bv8>>)
    ensures Stream(a + b) == Stream(a) + Stream(b)
    decreases |b|
  {
    if b == [] {
      assert a + b == a;
    } else {
      var b1, data := b[..|b| - 1], b[|b| - 1];
      assert (a + b)[..|a + b| - 1] == a + b1 && (a + b)[|a + b| - 1] == data;
      StreamJoin(a, b1);
      assert (Stream(a) + Stream(b1)) + data == Stream(a) + (Stream(b1) + data);
    }
  }

  lemma {:induction false} RunReaches(f: Finder, x: seq<bv8>, chunks: seq<seq<bv8>>, r: Reach, cap: nat)
    requires AllAddressable(chunks, cap) && Resting(f, x, cap)
    requires Linked(f, x, [], 0, r) && r.anchor <= |x| && |x| - r.anchor < cap
    requires WithinReachOn(r, x, Stream(chunks), cap)
    ensures Resting(RunOn(f, chunks, cap), x + Stream(chunks), cap)
    ensures Linked(RunOn(f, chunks, cap), x + Stream(chunks), [], 0, ReachOn(r, x, Stream(chunks)))
    decreases |chunks|
  {
    hide Receive, Linked, Resting, ReachOn, WithinReachOn;
    if chunks == [] {
      assert x + [] == x;
      ReachNothing(r, x);
    } else {
      var before, data := chunks[..|chunks| - 1], chunks[|chunks| - 1];
      var s := Stream(before);
      WithinReachSplit(r, x, s, data, cap);
      RunReaches(f, x, before, r, cap);
      var f1 := RunOn(f, before, cap);
      EndInReach(r, x, s, cap);
      ReachJoin(r, x, s, data);
      assert x + (s + data) == (x + s) + data;
      ReceiveSound(f1, x + s, data, cap);
      ReceiveReaches(f1, x + s, data, ReachOn(r, x, s), cap);
    }
  }

  lemma ReachNothing(r: Reach, x: seq<bv8>)
    requires r.anchor <= |x|
    ensures ReachOn(r, x, []) == r
  {
  }

  lemma StartLinked()
    ensures Linked(START, [], [], 0, FROM_START)
  {
    hide Startable;
  }

  lemma {:induction false} RunFromStartReaches(chunks: seq<seq<bv8>>, cap: nat)
    requires AllAddressable(chunks, cap) && WithinReach(Stream(chunks), cap)
    ensures Linked(Run(chunks, cap), Stream(chunks), [], 0, Reached(Stream(chunks)))
  {
    hide Linked, Resting, ReachOn, WithinReachOn;
    StartLinked();
    StartRests(cap);
    RunFromStart(chunks, cap);
    RunReaches(START, [], chunks, FROM_START, cap);
    assert [] + Stream(chunks) == Stream(chunks);
  }
}
