/**
 The packet finder against a decoder that keeps the whole stream: whatever the division
 into chunks, both report the same binary packets.
 */
module FinderRefinement {
  import opened VnPacket
  import opened VnBinary
  import opened FinderModel
  import opened FinderSoundness

  // ----- the reference decoder

  /** The first position from `o` on at which a packet starts that ends with the stream;
      the length of the stream if there is none. */
  ghost function FirstStart(stream: seq<bv8>, o: nat): (r: nat)
    requires o <= |stream|
    ensures o <= r <= |stream|
    ensures r < |stream| ==> Trackable(stream[r..])
    ensures forall k :: o <= k < r ==> !Trackable(stream[k..])
    decreases |stream| - o
  {
    if o == |stream| || Trackable(stream[o..]) then o else FirstStart(stream, o + 1)
  }

  /** The packets reported so far and where the search for the next one starts. */
  datatype Decoded = Decoded(reports: seq<Event>, restart: nat)

  /** One more byte: if a packet ends here, report the one that started first and search on
      behind it (a last byte that looks like a sync byte may start the next packet). */
  ghost function DecodeByte(d: Decoded, stream: seq<bv8>): (r: Decoded)
    requires stream != [] && d.restart <= |stream| - 1
    ensures r.restart <= |stream|
  {
    var o := FirstStart(stream, d.restart);
    if o < |stream| then
      Decoded(d.reports + [BinaryFound(stream[o..], o % WORD)],
              if stream[|stream| - 1] == SYNC then |stream| - 1 else |stream|)
    else d
  }

  ghost function Decode(stream: seq<bv8>): (d: Decoded)
    ensures d.restart <= |stream|
  {
    if stream == [] then Decoded([], 0) else DecodeByte(Decode(stream[..|stream| - 1]), stream)
  }

  function BinaryReports(found: seq<Event>): seq<Event> {
    if found == [] then [] else
      BinaryReports(found[..|found| - 1])
      + if found[|found| - 1].BinaryFound? then [found[|found| - 1]] else []
  }

  // ----- a tracker that can still complete

  /** A tracker that has seen a proper prefix of a packet waits for the rest of it. */
  lemma TrackerWaits(t: Tracker, b: seq<bv8>, q: seq<bv8>, carry: seq<bv8>, data: seq<bv8>, i: nat, cap: nat)
    requires i < |data| && HasSeen(t, b) && Trackable(q)
    requires b + [data[i]] <= q
    requires !Overrun(t, carry, i, cap)
    requires Window(t.inChunk, t.start, carry, data, i + 1) == b + [data[i]]
    ensures var r := TrackerByte(t, carry, data, i, cap);
            if b + [data[i]] == q then r == Done(q) else r.Keep? && !Spent(r.t)
  {
    hide Check, HeaderLength, Rank, Window;
    var b1 := b + [data[i]];
    RankBound(q[1]);
    HeaderLengthBound(q);
    if |b1| >= 2 {
      assert b1[1] == q[1];
      var h := 2 + 2 * Rank(q[1], 8);
      if |b| >= h {
        HeaderLengthStays(b, q);
        Sub64Step(|q|, |b|);
        Sub64Value(|q|, |b| + 1);
      } else if |b1| == h {
        HeaderLengthStays(b1, q);
        Sub64Value(|q|, |b1|);
      }
    }
  }

  /** The bytes of `stream` from `o` on are the beginning of some longer packet. */
  ghost predicate Startable(stream: seq<bv8>, o: nat)
    requires o <= |stream|
  {
    exists q :: Trackable(q) && stream[o..] <= q && |stream| - o < |q|
  }

  lemma StartableEarlier(stream: seq<bv8>, b: bv8, o: nat)
    requires o < |stream|
    requires Startable(stream + [b], o) || Trackable((stream + [b])[o..])
    ensures Startable(stream, o)
  {
    hide Trackable;
    assert (stream + [b])[o..] == stream[o..] + [b];
    if Startable(stream + [b], o) {
      var q :| Trackable(q) && (stream + [b])[o..] <= q && |stream + [b]| - o < |q|;
      assert stream[o..] <= q;
    }
  }

  lemma StartableIsSync(stream: seq<bv8>, o: nat)
    requires o < |stream| && (Startable(stream, o) || Trackable(stream[o..]))
    ensures stream[o] == SYNC
    ensures Trackable(stream[o..]) ==> o + 1 < |stream|
  {
    if Startable(stream, o) {
      var q :| Trackable(q) && stream[o..] <= q && |stream| - o < |q|;
      assert q[0] == stream[o..][0];
    }
  }

  ghost predicate HasPlace(deck: seq<Tracker>, o: nat) {
    exists k :: 0 <= k < |deck| && deck[k].at == o
  }

  // ----- the finder since its last report

  /** Since the search restarted at `from`, every start that can still become a packet is
      being tracked, and nothing before it is kept. */
  ghost predicate Tracking(f: Finder, past: seq<bv8>, data: seq<bv8>, i: nat, from: nat)
    requires i <= |data|
  {
    var stream := past + data[..i];
    && from <= |stream|
    && (forall t :: t in f.deck ==> from <= t.at)
    && (f.ascii.building && f.asciiInChunk ==> from <= |past| + f.ascii.start)
    && (if from <= |past| then |f.carry| <= |past| - from else f.carry == [])
    && (forall o :: from <= o < |stream| && Startable(stream, o) ==> HasPlace(f.deck, o))
  }

  predicate Completes(t: Tracker, carry: seq<bv8>, data: seq<bv8>, i: nat, cap: nat)
    requires i < |data|
  {
    TrackerByte(t, carry, data, i, cap).Done?
  }

  function After(p: Progress, t: Tracker): Tracker {
    match p
    case Keep(t1) => t1
    case Drop(t1) => t1
    case Done(_) => t
  }

  lemma DoneIsNotEmpty(t: Tracker, carry: seq<bv8>, data: seq<bv8>, i: nat, cap: nat)
    requires i < |data| && Completes(t, carry, data, i, cap)
    ensures TrackerByte(t, carry, data, i, cap).packet != []
  {
    hide HeaderLength, Rank, Window;
  }

  /** The walk moves every tracker on, up to the first that completes (`j`, if any does). */
  lemma {:induction false} WalkStops(deck: seq<Tracker>, carry: seq<bv8>, data: seq<bv8>, i: nat, cap: nat)
    returns (j: nat)
    requires i < |data|
    ensures j <= |deck|
    ensures forall k :: 0 <= k < j ==> !Completes(deck[k], carry, data, i, cap)
    ensures j < |deck| ==> Completes(deck[j], carry, data, i, cap)
    ensures var w := WalkDeck(deck, carry, data, i, cap);
            if j < |deck| then
              w.packet != [] && w.packet == TrackerByte(deck[j], carry, data, i, cap).packet && w.at == deck[j].at
            else
              && w.packet == [] && |w.deck| == |deck|
              && forall k :: 0 <= k < |deck| ==> w.deck[k] == After(TrackerByte(deck[k], carry, data, i, cap), deck[k])
    decreases |deck|
  {
    hide TrackerByte;
    j := 0;
    if deck != [] {
      var last := |deck| - 1;
      j := WalkStops(deck[..last], carry, data, i, cap);
      assert forall k :: 0 <= k < last ==> deck[..last][k] == deck[k];
      if j == last {
        if Completes(deck[last], carry, data, i, cap) {
          DoneIsNotEmpty(deck[last], carry, data, i, cap);
        } else {
          j := |deck|;
        }
      }
    }
  }

  // ----- one byte

  /** The buffer reaches back to `from`, or it need not because `from` is in the chunk. */
  predicate InReach(past: seq<bv8>, i: nat, from: nat, cap: nat) {
    from >= |past| || |past| + i + 1 - from < cap
  }

  lemma NoOverrun(f: Finder, t: Tracker, past: seq<bv8>, data: seq<bv8>, i: nat, from: nat, cap: nat)
    requires i < |data| && Tracking(f, past, data, i, from) && Located(t, past, f.carry) && from <= t.at
    requires InReach(past, i, from, cap)
    ensures !Overrun(t, f.carry, i, cap)
  {
    hide Startable;
  }

  /** A tracked start from which the stream so far, with the next byte, begins or is a packet. */
  lemma TrackerAdvances(f: Finder, t: Tracker, past: seq<bv8>, data: seq<bv8>, i: nat, from: nat, cap: nat)
    requires i < |data| && Addressable(data, cap) && |f.carry| < cap
    requires TrackerOk(t, past, data, i, f.carry) && Tracking(f, past, data, i, from) && from <= t.at
    requires InReach(past, i, from, cap)
    ensures var stream := past + data[..i + 1];
            var r := TrackerByte(t, f.carry, data, i, cap);
            && (Trackable(stream[t.at..]) ==> r == Done(stream[t.at..]))
            && (Startable(stream, t.at) ==> r.Keep? && !Spent(r.t))
  {
    hide HasSeen, Trackable, Window, Check, HeaderLength, Rank, Overrun, TrackerByte, Tracking;
    var stream := past + data[..i + 1];
    var b := (past + data[..i])[t.at..];
    assert stream == past + data[..i] + [data[i]];
    assert stream[t.at..] == b + [data[i]];
    WindowIsStream(t, past, data, i + 1, f.carry);
    NoOverrun(f, t, past, data, i, from, cap);
    if Trackable(stream[t.at..]) {
      TrackerWaits(t, b, stream[t.at..], f.carry, data, i, cap);
    }
    if Startable(stream, t.at) {
      var q :| Trackable(q) && stream[t.at..] <= q && |stream| - t.at < |q|;
      TrackerWaits(t, b, q, f.carry, data, i, cap);
    }
  }

  /** A start that can still become a packet is not among the dropped ones, nor equal to one. */
  lemma StaysOnDeck(f: Finder, past: seq<bv8>, data: seq<bv8>, i: nat, from: nat, cap: nat, o: nat)
    requires i < |data| && Addressable(data, cap) && |f.carry| < cap
    requires DeckOk(f.deck, past, data, i, f.carry) && Tracking(f, past, data, i, from)
    requires InReach(past, i, from, cap)
    requires from <= o < |past| + i && Startable(past + data[..i + 1], o)
    requires WalkDeck(f.deck, f.carry, data, i, cap).packet == []
    ensures HasPlace(BinaryByte(f, data, i, cap).deck, o)
  {
    hide TrackerOk, Trackable, Startable, TrackerByte, Sorted;
    var stream := past + data[..i];
    assert past + data[..i + 1] == stream + [data[i]];
    StartableEarlier(stream, data[i], o);
    var k :| 0 <= k < |f.deck| && f.deck[k].at == o;
    var t := f.deck[k];
    assert t in f.deck;
    TrackerAdvances(f, t, past, data, i, from, cap);
    var w := WalkDeck(f.deck, f.carry, data, i, cap);
    var j := WalkStops(f.deck, f.carry, data, i, cap);
    var t1 := w.deck[k];
    assert t1 in w.deck && !Spent(t1);
    WalkSound(f.deck, past, data, i, f.carry, cap);
    RemoveEachKeeps(w.deck, w.dropped);
    assert t1 in RemoveEach(w.deck, w.dropped);
  }

  /** The deck keeps every earlier start that the next byte leaves possible. */
  ghost predicate StillTracked(deck: seq<Tracker>, past: seq<bv8>, data: seq<bv8>, i: nat, from: nat)
    requires i < |data|
  {
    && (forall t :: t in deck ==> from <= t.at)
    && forall k :: from <= k < |past| + i && Startable(past + data[..i + 1], k) ==> HasPlace(deck, k)
  }

  /** The binary part of a byte reports exactly what the reference decoder reports. */
  lemma BinaryByteDecodes(f: Finder, past: seq<bv8>, data: seq<bv8>, i: nat, from: nat, cap: nat)
    requires i < |data| && Addressable(data, cap) && |f.carry| < cap
    requires DeckOk(f.deck, past, data, i, f.carry) && Tracking(f, past, data, i, from)
    requires InReach(past, i, from, cap)
    ensures var stream := past + data[..i + 1];
            var o := FirstStart(stream, from);
            var r := BinaryByte(f, data, i, cap);
            if o < |stream| then r == Reset(f).(found := f.found + [BinaryFound(stream[o..], o % WORD)])
            else
              r == f.(deck := r.deck) && StillTracked(r.deck, past, data, i, from)
  {
    hide TrackerOk, Trackable, Startable, TrackerByte;
    var stream := past + data[..i + 1];
    assert stream == past + data[..i] + [data[i]];
    var o := FirstStart(stream, from);
    var w := WalkDeck(f.deck, f.carry, data, i, cap);
    var j := WalkStops(f.deck, f.carry, data, i, cap);
    WalkSound(f.deck, past, data, i, f.carry, cap);
    if j < |f.deck| {
      var t := f.deck[j];
      assert t in f.deck;
      assert Trackable(stream[t.at..]);
      assert o <= t.at;
      FirstIsTracked(f, past, data, i, from, cap, o);
      var k :| 0 <= k < |f.deck| && f.deck[k].at == o && Completes(f.deck[k], f.carry, data, i, cap);
      assert j <= k;
      assert o == t.at;
    } else {
      if o < |stream| {
        FirstIsTracked(f, past, data, i, from, cap, o);
        assert false;
      }
      forall k | from <= k < |past| + i && Startable(stream, k)
        ensures HasPlace(BinaryByte(f, data, i, cap).deck, k)
      {
        StaysOnDeck(f, past, data, i, from, cap, k);
      }
      RemoveEachKeeps(w.deck, w.dropped);
    }
  }

  /** The tracker of the first packet that ends with the stream completes. */
  lemma FirstIsTracked(f: Finder, past: seq<bv8>, data: seq<bv8>, i: nat, from: nat, cap: nat, o: nat)
    requires i < |data| && Addressable(data, cap) && |f.carry| < cap
    requires DeckOk(f.deck, past, data, i, f.carry) && Tracking(f, past, data, i, from)
    requires InReach(past, i, from, cap)
    requires from <= o <= |past| + i && Trackable((past + data[..i + 1])[o..])
    ensures exists k :: 0 <= k < |f.deck| && f.deck[k].at == o && Completes(f.deck[k], f.carry, data, i, cap)
  {
    hide TrackerOk, Trackable, Startable, TrackerByte, Sorted;
    var stream := past + data[..i];
    assert past + data[..i + 1] == stream + [data[i]];
    StartableIsSync(stream + [data[i]], o);
    StartableEarlier(stream, data[i], o);
    var k :| 0 <= k < |f.deck| && f.deck[k].at == o;
    assert f.deck[k] in f.deck;
    TrackerAdvances(f, f.deck[k], past, data, i, from, cap);
  }

  lemma BinaryReportsJoin(a: seq<Event>, e: Event)
    ensures BinaryReports(a + [e]) == BinaryReports(a) + if e.BinaryFound? then [e] else []
  {
    assert (a + [e])[..|a|] == a;
  }

  /** What the ASCII part may change. */
  lemma AsciiByteChanges(f: Finder, data: seq<bv8>, i: nat, cap: nat)
    requires i < |data|
    ensures var r := AsciiByte(f, data, i, cap);
            && r.deck == f.deck && r.running == f.running
            && (r.carry == f.carry || r.carry == [])
            && (r.ascii.building && r.asciiInChunk ==>
                  r.ascii.start == i || (f.ascii.building && f.asciiInChunk && r.ascii.start == f.ascii.start))
  {
    hide Check, Window;
  }

  lemma AsciiByteKeepsReports(f: Finder, data: seq<bv8>, i: nat, cap: nat)
    requires i < |data|
    ensures BinaryReports(AsciiByte(f, data, i, cap).found) == BinaryReports(f.found)
  {
    hide Check, Window, BinaryReports;
    var p := Window(f.asciiInChunk, f.ascii.start, f.carry, data, i + 1);
    BinaryReportsJoin(f.found, AsciiFound(p, f.ascii.at % WORD));
    BinaryReportsJoin(f.found, AsciiFound([], f.ascii.at % WORD));
  }

  /** The ASCII part changes no binary report and keeps tracking. */
  lemma AsciiByteTracks(f: Finder, past: seq<bv8>, data: seq<bv8>, i: nat, from: nat, cap: nat)
    requires i < |data| && Tracking(f, past, data, i, from)
    ensures var r := AsciiByte(f, data, i, cap);
            && Tracking(r, past, data, i, from)
            && r.deck == f.deck && r.running == f.running
            && BinaryReports(r.found) == BinaryReports(f.found)
  {
    hide Startable, AsciiByte, BinaryReports;
    AsciiByteChanges(f, data, i, cap);
    AsciiByteKeepsReports(f, data, i, cap);
  }

  /** After a report the finder tracks nothing but, possibly, the last byte. */
  lemma SettleAfterReport(f: Finder, past: seq<bv8>, data: seq<bv8>, i: nat)
    requires i < |data| && f.deck == [] && !f.ascii.building && f.carry == [] && f.running == |past| + i
    ensures Tracking(Settle(f, data[i], i), past, data, i + 1, if data[i] == SYNC then |past| + i else |past| + i + 1)
  {
    hide Startable;
    var r := Settle(f, data[i], i);
    if data[i] == SYNC {
      assert r.deck[0].at == |past| + i;
    }
  }

  lemma SettleTracks(f: Finder, past: seq<bv8>, data: seq<bv8>, i: nat, from: nat)
    requires i < |data| && f.running == |past| + i && from <= |past| + i
    requires StillTracked(f.deck, past, data, i, from)
    requires f.ascii.building && f.asciiInChunk ==> from <= |past| + f.ascii.start
    requires if from <= |past| then |f.carry| <= |past| - from else f.carry == []
    ensures Tracking(Settle(f, data[i], i), past, data, i + 1, from)
  {
    hide Startable;
    var stream := past + data[..i + 1];
    var r := Settle(f, data[i], i);
    forall o | from <= o < |stream| && Startable(stream, o)
      ensures HasPlace(r.deck, o)
    {
      if o < |past| + i {
        assert HasPlace(f.deck, o);
        var k :| 0 <= k < |f.deck| && f.deck[k].at == o;
        assert r.deck[k].at == o;
      } else {
        StartableIsSync(stream, o);
        assert stream[o] == data[i];
        assert r.deck[|f.deck|].at == o;
      }
    }
  }

  /** The finder and the reference decoder have reported the same. */
  ghost predicate Agrees(f: Finder, past: seq<bv8>, data: seq<bv8>, i: nat, d: Decoded)
    requires i <= |data|
  {
    BinaryReports(f.found) == d.reports && Tracking(f, past, data, i, d.restart)
  }

  lemma SettleKeepsReports(f: Finder, b: bv8, i: nat)
    ensures Settle(f, b, i).found == f.found
  {
  }

  /** The binary part of a byte and the rest of it. */
  lemma BinaryAndSettle(f: Finder, past: seq<bv8>, data: seq<bv8>, i: nat, d: Decoded, cap: nat)
    requires i < |data| && Addressable(data, cap) && |f.carry| < cap && f.running == |past| + i
    requires DeckOk(f.deck, past, data, i, f.carry)
    requires Agrees(f, past, data, i, d) && InReach(past, i, d.restart, cap)
    ensures Agrees(Settle(BinaryByte(f, data, i, cap), data[i], i), past, data, i + 1,
                   DecodeByte(d, past + data[..i + 1]))
  {
    hide DeckOk, Startable, FirstStart, BinaryByte, Settle, StillTracked, HasPlace, BinaryReports;
    TrackingBounds(f, past, data, i, d.restart);
    var stream := past + data[..i + 1];
    assert stream[|stream| - 1] == data[i];
    var f2 := BinaryByte(f, data, i, cap);
    BinaryByteDecodes(f, past, data, i, d.restart, cap);
    SettleKeepsReports(f2, data[i], i);
    var o := FirstStart(stream, d.restart);
    if o < |stream| {
      BinaryReportsJoin(f.found, BinaryFound(stream[o..], o % WORD));
      SettleAfterReport(f2, past, data, i);
    } else {
      SettleTracks(f2, past, data, i, d.restart);
    }
  }

  lemma ByteDecodes(f: Finder, past: seq<bv8>, data: seq<bv8>, i: nat, d: Decoded, cap: nat)
    requires i < |data| && Addressable(data, cap) && Sound(f, past, data, i, cap)
    requires Agrees(f, past, data, i, d) && InReach(past, i, d.restart, cap)
    ensures Agrees(Byte(f, data, i, cap), past, data, i + 1, DecodeByte(d, past + data[..i + 1]))
  {
    hide AsciiOk, AllGenuine, DeckOk, Tracking, DecodeByte, AsciiByte, BinaryByte, Settle;
    assert d.restart <= |past| + i by { TrackingBounds(f, past, data, i, d.restart); }
    AsciiByteSound(f, past, data, i, cap);
    AsciiByteTracks(f, past, data, i, d.restart, cap);
    BinaryAndSettle(AsciiByte(f, data, i, cap), past, data, i, d, cap);
  }

  lemma TrackingBounds(f: Finder, past: seq<bv8>, data: seq<bv8>, i: nat, from: nat)
    requires i <= |data| && Tracking(f, past, data, i, from)
    ensures from <= |past| + i
  {
  }

  // ----- the end of a chunk

  /** The buffer takes the bytes to carry over. */
  lemma CarryFits(f: Finder, past: seq<bv8>, data: seq<bv8>, from: nat, cap: nat)
    requires Sound(f, past, data, |data|, cap) && Tracking(f, past, data, |data|, from)
    requires f.deck != [] || f.ascii.building
    ensures CopyFrom(f) <= |data|
    ensures |f.carry| + |data| - CopyFrom(f) <= |past| + |data| - from
  {
    hide HasSeen, AllGenuine, Startable;
    if f.deck != [] {
      assert TrackerOk(f.deck[0], past, data, |data|, f.carry);
    }
  }

  lemma EndOfChunkTracks(f: Finder, past: seq<bv8>, data: seq<bv8>, d: Decoded, cap: nat)
    requires Addressable(data, cap) && Sound(f, past, data, |data|, cap)
    requires Agrees(f, past, data, |data|, d) && |past| + |data| - d.restart < cap
    ensures Agrees(EndOfChunk(f, data, cap), past + data, [], 0, d)
  {
    hide Sound, Startable, Rebase, CopyFrom;
    var from := d.restart;
    var r := EndOfChunk(f, data, cap);
    assert past + data[..|data|] == past + data == (past + data) + [][..0];
    if f.deck != [] || f.ascii.building {
      CarryFits(f, past, data, from, cap);
    }
    forall k | 0 <= k < |r.deck|
      ensures r.deck[k].at == f.deck[k].at
    {
      RebaseKeepsPlace(f.deck[k], CopyFrom(f), |f.carry|);
    }
    forall o | from <= o < |past + data| && Startable(past + data, o)
      ensures HasPlace(r.deck, o)
    {
      assert Startable(past + data[..|data|], o) && HasPlace(f.deck, o);
      var k :| 0 <= k < |f.deck| && f.deck[k].at == o;
      assert r.deck[k].at == o;
    }
    assert forall t :: t in r.deck ==> from <= t.at;
  }

  lemma NextChunk(f: Finder, past: seq<bv8>, data: seq<bv8>, d: Decoded)
    requires Agrees(f, past, [], 0, d)
    ensures Agrees(f, past, data, 0, d)
  {
    assert [][..0] == data[..0];
  }
}
