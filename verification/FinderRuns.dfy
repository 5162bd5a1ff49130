/**
 What the packet finder reports over whole runs: the packets of the reference decoder, and,
 from every idle state, a packet in any division into chunks exactly once.
 */
module FinderRuns {
  import opened VnPacket
  import opened VnBinary
  import opened FinderModel
  import opened FinderSoundness
  import opened FinderRefinement
  import opened FinderReach

  // ----- the reference decoder from any point on

  ghost function DecodeOn(d: Decoded, x: seq<bv8>, p: seq<bv8>): (r: Decoded)
    requires d.restart <= |x|
    ensures r.restart <= |x + p|
    decreases |p|
  {
    if p == [] then d else DecodeByte(DecodeOn(d, x, p[..|p| - 1]), x + p)
  }

  lemma {:induction false} DecodeIsOn(stream: seq<bv8>)
    ensures Decode(stream) == DecodeOn(Decoded([], 0), [], stream)
    decreases |stream|
  {
    hide DecodeByte;
    if stream != [] {
      DecodeIsOn(stream[..|stream| - 1]);
      assert [] + stream == stream;
    }
  }

  lemma OpenIfStartable(stream: seq<bv8>, o: nat)
    requires o < |stream| && Startable(stream, o)
    ensures Open(stream[o..])
  {
    hide Check, HeaderLength, Rank;
    var b := stream[o..];
    var q :| Trackable(q) && b <= q && |b| < |q|;
    if HeaderComplete(b) {
      HeaderLengthStays(b, q);
    }
  }

  /** No packet can start in the stretch that the anchor has passed. */
  ghost predicate Passed(stream: seq<bv8>, restart: nat, anchor: nat) {
    restart <= anchor <= |stream| && forall o | restart <= o < anchor :: !Startable(stream, o)
  }

  lemma PassedStays(stream: seq<bv8>, b: bv8, restart: nat, anchor: nat)
    requires Passed(stream, restart, anchor)
    ensures Passed(stream + [b], restart, anchor)
    ensures FirstStart(stream + [b], restart) == FirstStart(stream + [b], anchor)
  {
    hide Trackable, Startable;
    var s := stream + [b];
    forall o | restart <= o < anchor
      ensures !Startable(s, o) && !Trackable(s[o..])
    {
      if Startable(s, o) || Trackable(s[o..]) {
        StartableEarlier(stream, b, o);
      }
    }
    SameFirst(s, restart, anchor);
  }

  lemma {:induction false} SameFirst(stream: seq<bv8>, o: nat, a: nat)
    requires o <= a <= |stream|
    requires forall k | o <= k < a :: !Trackable(stream[k..])
    ensures FirstStart(stream, o) == FirstStart(stream, a)
    decreases a - o
  {
    hide Trackable;
    if o < a {
      SameFirst(stream, o + 1, a);
    }
  }

  /** Searching from the anchor finds what searching from the last report finds. */
  lemma {:induction false} ReachDecodes(r: Reach, x: seq<bv8>, p: seq<bv8>)
    requires r.anchor <= |x|
    ensures var d, r1 := DecodeOn(Decoded(r.reports, r.anchor), x, p), ReachOn(r, x, p);
            r1.reports == d.reports && Passed(x + p, d.restart, r1.anchor)
    decreases |p|
  {
    hide DecodeByte, ReachByte, Passed;
    if p == [] {
      PassedNothing(x, r.anchor);
      assert x + p == x;
    } else {
      var p1 := p[..|p| - 1];
      ReachDecodes(r, x, p1);
      assert x + p == (x + p1) + [p[|p| - 1]];
      PassedByte(x + p1, p[|p| - 1], DecodeOn(Decoded(r.reports, r.anchor), x, p1), ReachOn(r, x, p1));
    }
  }

  lemma PassedNothing(x: seq<bv8>, o: nat)
    requires o <= |x|
    ensures Passed(x, o, o)
  {
  }

  lemma PassedByte(x: seq<bv8>, b: bv8, d: Decoded, r: Reach)
    requires r.reports == d.reports && Passed(x, d.restart, r.anchor)
    ensures var d1, r1 := DecodeByte(d, x + [b]), ReachByte(r, x + [b]);
            r1.reports == d1.reports && Passed(x + [b], d1.restart, r1.anchor)
  {
    hide Startable, Open, FirstStart;
    var s := x + [b];
    PassedStays(x, b, d.restart, r.anchor);
    UnreportedKeepsRestart(d, s);
    var r1 := ReachByte(r, s);
    if DecodeByte(d, s).reports == d.reports {
      forall o | d.restart <= o < r1.anchor
        ensures !Startable(s, o)
      {
        if r.anchor <= o && Startable(s, o) {
          OpenIfStartable(s, o);
          StartableIsSync(s, o);
        }
      }
    }
  }

  // ----- whole runs

  /** For every stream whose open stretches fit the buffer and every division of it into chunks,
      the binary packets reported are those of the reference decoder. */
  lemma FinderRefinesDecoder(chunks: seq<seq<bv8>>, cap: nat)
    requires AllAddressable(chunks, cap) && WithinReach(Stream(chunks), cap)
    ensures BinaryReports(Run(chunks, cap).found) == Decode(Stream(chunks)).reports
  {
    hide Run, Stream, Tracking, WithinReachOn, ReachOn, DecodeOn, Decode, Passed;
    RunFromStartReaches(chunks, cap);
    ReachDecodes(FROM_START, [], Stream(chunks));
    DecodeIsOn(Stream(chunks));
  }

  /** The division of such a stream into chunks does not show in the binary packets reported. */
  lemma ChunkingDoesNotMatter(chunks: seq<seq<bv8>>, chunks': seq<seq<bv8>>, cap: nat)
    requires AllAddressable(chunks, cap) && AllAddressable(chunks', cap)
    requires Stream(chunks) == Stream(chunks') && WithinReach(Stream(chunks), cap)
    ensures BinaryReports(Run(chunks, cap).found) == BinaryReports(Run(chunks', cap).found)
  {
    FinderRefinesDecoder(chunks, cap);
    FinderRefinesDecoder(chunks', cap);
  }

  /** One call keeps the finder in step with the reference decoder. */
  lemma ReceiveInStep(f: Finder, past: seq<bv8>, data: seq<bv8>, cap: nat)
    requires Addressable(data, cap) && Resting(f, past, cap) && Linked(f, past, [], 0, Reached(past))
    requires WithinReach(past + data, cap)
    ensures Linked(Receive(f, data, cap), past + data, [], 0, Reached(past + data))
    ensures BinaryReports(Receive(f, data, cap).found) == Decode(past + data).reports
  {
    hide Tracking, WithinReachOn, ReachOn, DecodeOn, Decode, Passed, Receive, Resting;
    WithinReachSplit(FROM_START, [], past, data, cap);
    EndInReach(FROM_START, [], past, cap);
    assert [] + past == past;
    ReceiveReaches(f, past, data, Reached(past), cap);
    ReachJoin(FROM_START, [], past, data);
    ReachDecodes(FROM_START, [], past + data);
    DecodeIsOn(past + data);
  }

  /** Received as one chunk, every stream is decoded, however long its open stretches are. */
  lemma OneChunkIsDecoded(data: seq<bv8>, cap: nat)
    requires Addressable(data, cap)
    ensures BinaryReports(Run([data], cap).found) == Decode(data).reports
  {
    hide Bytes, ReachOn, DecodeOn, Decode, Tracking, Passed, BinaryReports;
    StartRests(cap);
    StartLinked();
    RestingStarts(START, [], data, cap);
    NextChunk(START, [], data, Decoded([], 0));
    BytesFromStart(data, cap);
    assert [] + data[..0] == [] && data[0..|data|] == data;
    BytesReach(START, [], data, 0, |data|, FROM_START, cap);
    ReachDecodes(FROM_START, [], data);
    DecodeIsOn(data);
    OneChunkRun(data, cap);
  }

  lemma BytesFromStart(data: seq<bv8>, cap: nat)
    ensures Bytes(START, data, 0, cap) == START
  {
  }

  lemma OneChunkRun(data: seq<bv8>, cap: nat)
    ensures Run([data], cap).found == Bytes(START, data, |data|, cap).found
  {
    hide Bytes;
    assert [data][..0] == [];
    assert Run([data], cap) == Receive(START, data, cap);
  }

  // ----- one packet from an idle state

  /** Some packet inside `p` is complete before `p` is. */
  ghost predicate HasInnerPacket(p: seq<bv8>) {
    exists o: nat, e: nat :: InnerPacket(p, o, e)
  }

  ghost predicate InnerPacket(p: seq<bv8>, o: nat, e: nat) {
    o < e < |p| && Trackable(p[o..e])
  }

  lemma {:induction false} ReportsGrow(d: Decoded, x: seq<bv8>, a: seq<bv8>, b: seq<bv8>)
    requires d.restart <= |x|
    ensures DecodeOn(d, x, a).reports <= DecodeOn(d, x, a + b).reports
    decreases |b|
  {
    hide FirstStart;
    if b == [] {
      assert a + b == a;
    } else {
      assert (a + b)[..|a + b| - 1] == a + b[..|b| - 1];
      ReportsGrow(d, x, a, b[..|b| - 1]);
    }
  }

  /** While no packet is complete, nothing is reported. */
  lemma {:induction false} NothingYet(d: Decoded, x: seq<bv8>, p: seq<bv8>, n: nat)
    requires d.restart == |x| && n <= |p|
    requires forall o, e :: 0 <= o < e <= n ==> !Trackable(p[o..e])
    ensures DecodeOn(d, x, p[..n]) == d
  {
    hide Trackable;
    if n > 0 {
      var stream := x + p[..n];
      NothingYet(d, x, p, n - 1);
      assert p[..n][..n - 1] == p[..n - 1];
      forall o | |x| <= o < |stream|
        ensures !Trackable(stream[o..])
      {
        assert stream[o..] == p[o - |x|..n];
      }
    }
  }

  /** Before the last byte of a packet without complete packets inside, nothing is reported. */
  lemma QuietInside(d: Decoded, x: seq<bv8>, p: seq<bv8>, n: nat)
    requires d.restart == |x| && !HasInnerPacket(p) && n < |p|
    ensures DecodeOn(d, x, p[..n]) == d
  {
    hide Trackable, DecodeOn;
    forall o, e | 0 <= o < e <= n
      ensures !Trackable(p[o..e])
    {
      assert !InnerPacket(p, o, e);
    }
    NothingYet(d, x, p, n);
  }

  lemma LastByteReports(d: Decoded, x: seq<bv8>, p: seq<bv8>)
    requires d.restart == |x| && Trackable(p) && p != []
    requires DecodeOn(d, x, p[..|p| - 1]) == d
    ensures DecodeOn(d, x, p).reports == d.reports + [BinaryFound(p, |x| % WORD)]
  {
    hide Trackable, FirstStart;
    var stream := x + p;
    assert stream[|x|..] == p;
    assert FirstStart(stream, |x|) == |x|;
  }

  /** The packet inside `p` that is complete first. */
  lemma FirstInnerEnd(p: seq<bv8>) returns (o: nat, n: nat)
    requires HasInnerPacket(p)
    ensures InnerPacket(p, o, n)
    ensures forall o', e' :: 0 <= o' < e' <= n - 1 ==> !Trackable(p[o'..e'])
  {
    hide Trackable;
    o, n :| InnerPacket(p, o, n);
    while exists o': nat, e': nat :: InnerPacket(p, o', e') && e' < n
      invariant InnerPacket(p, o, n)
      decreases n
    {
      var o1: nat, n1: nat :| InnerPacket(p, o1, n1) && n1 < n;
      o, n := o1, n1;
    }
    forall o', e' | 0 <= o' < e' <= n - 1
      ensures !Trackable(p[o'..e'])
    {
      assert !InnerPacket(p, o', e');
    }
  }

  /** With a packet complete inside `p`, something shorter than `p` is reported first. */
  lemma FirstInnerReported(d: Decoded, x: seq<bv8>, p: seq<bv8>, o: nat, n: nat)
    requires d.restart == |x| && InnerPacket(p, o, n)
    requires DecodeOn(d, x, p[..n - 1]) == d
    ensures DecodeOn(d, x, p).reports != d.reports + [BinaryFound(p, |x| % WORD)]
  {
    hide Trackable, FirstStart, DecodeOn;
    var stream := x + p[..n];
    assert p[..n][..n - 1] == p[..n - 1];
    DecodeOnStep(d, x, p[..n]);
    assert stream[|x| + o..] == p[o..n];
    var first := FirstStart(stream, |x|);
    var report := BinaryFound(stream[first..], first % WORD);
    assert DecodeOn(d, x, p[..n]).reports == d.reports + [report];
    ReportsGrow(d, x, p[..n], p[n..]);
    assert p[..n] + p[n..] == p;
    assert |report.packet| < |p|;
    assert DecodeOn(d, x, p).reports[|d.reports|] == report;
  }

  lemma DecodeOnStep(d: Decoded, x: seq<bv8>, p: seq<bv8>)
    requires d.restart <= |x| && p != []
    ensures DecodeOn(d, x, p) == DecodeByte(DecodeOn(d, x, p[..|p| - 1]), x + p)
  {
    hide DecodeByte;
  }

  /** Searching from behind `x`, a packet is reported when its last byte is in if and only if no
      packet inside it is complete earlier. */
  lemma PacketDecoded(d: Decoded, x: seq<bv8>, p: seq<bv8>)
    requires d.restart == |x| && Trackable(p)
    ensures DecodeOn(d, x, p).reports == d.reports + [BinaryFound(p, |x| % WORD)] <==> !HasInnerPacket(p)
  {
    assert p != [];
    hide *;
    if HasInnerPacket(p) {
      var o, n := FirstInnerEnd(p);
      InnerIsShorter(p, o, n);
      NothingYet(d, x, p, n - 1);
      FirstInnerReported(d, x, p, o, n);
    } else {
      QuietInside(d, x, p, |p| - 1);
      LastByteReports(d, x, p);
    }
  }

  lemma InnerIsShorter(p: seq<bv8>, o: nat, n: nat)
    requires InnerPacket(p, o, n)
    ensures 0 < n < |p|
  {
  }

  /** Nothing is being tracked. */
  predicate Idle(f: Finder) {
    f.deck == [] && !f.ascii.building
  }

  /** Whatever was received before, an idle finder carries no bytes. */
  predicate Tidy(f: Finder) {
    Idle(f) ==> f.carry == []
  }

  lemma {:induction false} BytesTidy(f: Finder, data: seq<bv8>, n: nat, cap: nat)
    requires n <= |data| && Tidy(f)
    ensures Tidy(Bytes(f, data, n, cap))
  {
    hide AsciiByte, BinaryByte;
    if n > 0 {
      BytesTidy(f, data, n - 1, cap);
    }
  }

  lemma ReceiveTidy(f: Finder, data: seq<bv8>, cap: nat)
    requires Tidy(f)
    ensures Tidy(Receive(f, data, cap))
  {
    hide Bytes, CopyFrom;
    BytesTidy(f, data, |data|, cap);
  }

  lemma {:induction false} RunTidy(chunks: seq<seq<bv8>>, cap: nat)
    ensures Tidy(Run(chunks, cap))
    decreases |chunks|
  {
    hide Receive;
    if chunks != [] {
      RunTidy(chunks[..|chunks| - 1], cap);
      ReceiveTidy(Run(chunks[..|chunks| - 1], cap), chunks[|chunks| - 1], cap);
    }
  }

  /** An idle finder is linked to the stream as if it began here. */
  lemma IdleIsLinked(f: Finder, past: seq<bv8>, data: seq<bv8>, i: nat, cap: nat)
    requires i <= |data| && Idle(f) && f.carry == []
    ensures Linked(f, past, data, i, Reach(BinaryReports(f.found), |past| + i, NoText))
  {
    hide Startable, BinaryReports;
  }

  /** A stretch shorter than the buffer is within reach. */
  lemma ShortIsWithinReach(r: Reach, x: seq<bv8>, p: seq<bv8>, cap: nat)
    requires r.anchor == |x| && |p| < cap
    ensures WithinReachOn(r, x, p, cap)
  {
    hide ReachByte;
  }

  /** The rest of a chunk and further chunks, from an idle state anywhere in a run. */
  lemma FromIdle(before: seq<seq<bv8>>, data: seq<bv8>, i: nat, later: seq<seq<bv8>>, cap: nat)
    requires AllAddressable(before + [data] + later, cap) && i <= |data|
    requires Idle(Bytes(Run(before, cap), data, i, cap)) && |data[i..] + Stream(later)| < cap
    ensures var f := Bytes(Run(before, cap), data, i, cap);
            var x, p := Stream(before) + data[..i], data[i..] + Stream(later);
            BinaryReports(Run(before + [data] + later, cap).found)
            == DecodeOn(Decoded(BinaryReports(f.found), |x|), x, p).reports
  {
    hide *;
    SplitAddressable(before, data, later, cap);
    var past, f0 := Stream(before), Run(before, cap);
    var f, x, rest := Bytes(f0, data, i, cap), past + data[..i], data[i..];
    var r := Reach(BinaryReports(f.found), |x|, NoText);
    RunSound(before, cap);
    RunTidy(before, cap);
    BytesTidy(f0, data, i, cap);
    IdleCarriesNothing(f);
    IdleIsLinked(f, past, data, i, cap);
    ShortIsWithinReach(r, x, rest + Stream(later), cap);
    WithinReachSplit(r, x, rest, Stream(later), cap);
    ChunkReaches(f0, past, data, i, r, cap);
    EndInReach(r, x, rest, cap);
    ReceiveSound(f0, past, data, cap);
    assert x + rest == past + data;
    RunReaches(Receive(f0, data, cap), past + data, later, ReachOn(r, x, rest), cap);
    ReachJoin(r, x, rest, Stream(later));
    ReachDecodes(r, x, rest + Stream(later));
    RunThrough(before, data, later, cap);
    LinkedReports(Run(before + [data] + later, cap), past + data + Stream(later), ReachOn(r, x, rest + Stream(later)));
  }

  lemma SplitAddressable(before: seq<seq<bv8>>, data: seq<bv8>, later: seq<seq<bv8>>, cap: nat)
    requires AllAddressable(before + [data] + later, cap)
    ensures AllAddressable(before, cap) && Addressable(data, cap) && AllAddressable(later, cap)
  {
    var all := before + [data] + later;
    assert data in all;
    forall c | c in before || c in later
      ensures c in all
    {
    }
  }

  lemma IdleCarriesNothing(f: Finder)
    requires Idle(f) && Tidy(f)
    ensures f.carry == []
  {
  }

  lemma RunThrough(before: seq<seq<bv8>>, data: seq<bv8>, later: seq<seq<bv8>>, cap: nat)
    ensures Run(before + [data] + later, cap) == RunOn(Receive(Run(before, cap), data, cap), later, cap)
  {
    hide Receive;
    RunJoin(before + [data], later, cap);
    assert (before + [data])[..|before|] == before;
  }

  lemma LinkedReports(f: Finder, past: seq<bv8>, r: Reach)
    requires Linked(f, past, [], 0, r)
    ensures BinaryReports(f.found) == r.reports
  {
    hide Tracking;
  }

  /** From every idle state of every run, in the middle of a chunk or between two: a packet in
      any division into chunks is reported, once and with its running index, if and only if no
      packet inside it is complete first. */
  lemma PacketFoundOnce(before: seq<seq<bv8>>, data: seq<bv8>, i: nat, later: seq<seq<bv8>>, cap: nat)
    requires AllAddressable(before + [data] + later, cap) && i <= |data|
    requires Idle(Bytes(Run(before, cap), data, i, cap))
    requires Trackable(data[i..] + Stream(later)) && |data[i..] + Stream(later)| < cap
    ensures var f := Bytes(Run(before, cap), data, i, cap);
            var p, at := data[i..] + Stream(later), |Stream(before)| + i;
            BinaryReports(Run(before + [data] + later, cap).found) == BinaryReports(f.found) + [BinaryFound(p, at % WORD)]
            <==> !HasInnerPacket(p)
  {
    hide *;
    var f := Bytes(Run(before, cap), data, i, cap);
    var x, p := Stream(before) + data[..i], data[i..] + Stream(later);
    FromIdle(before, data, i, later, cap);
    PacketDecoded(Decoded(BinaryReports(f.found), |x|), x, p);
  }

  /** Before its last byte is in, such a packet makes the finder report nothing. */
  lemma QuietUntilLastByte(before: seq<seq<bv8>>, data: seq<bv8>, i: nat, later: seq<seq<bv8>>, p: seq<bv8>, cap: nat)
    requires AllAddressable(before + [data] + later, cap) && i <= |data|
    requires Idle(Bytes(Run(before, cap), data, i, cap))
    requires Trackable(p) && !HasInnerPacket(p) && |p| < cap
    requires data[i..] + Stream(later) < p
    ensures BinaryReports(Run(before + [data] + later, cap).found)
         == BinaryReports(Bytes(Run(before, cap), data, i, cap).found)
  {
    hide *;
    var f := Bytes(Run(before, cap), data, i, cap);
    var x, q := Stream(before) + data[..i], data[i..] + Stream(later);
    FromIdle(before, data, i, later, cap);
    assert q == p[..|q|];
    QuietInside(Decoded(BinaryReports(f.found), |x|), x, p, |q|);
  }

  /** No packet the finder waits for is longer than 274 bytes, so a buffer of 512 is enough. */
  lemma PacketsFitTheBuffer(p: seq<bv8>)
    requires Trackable(p)
    ensures |p| <= 274
  {
    hide Rank;
    RankBound(p[1]);
  }
}
