/**
 What the packet finder reports: every binary packet is a slice of what was received.
 */
module FinderSoundness {
  import opened VnPacket
  import opened VnBinary
  import opened FinderModel
  import ErrorDetection

  // ----- packets as the trackers recognise them

  /** A complete, valid packet with a group field and a payload the tracker is willing to wait for. */
  ghost predicate Trackable(p: seq<bv8>) {
    && |p| >= 2
    && p[0] == SYNC
    && Rank(p[1], 8) > 0
    && 2 + 2 * Rank(p[1], 8) < |p| <= 2 + 2 * Rank(p[1], 8) + MAX_BINARY
    && HeaderLength(p) == |p|
    && Check(p) == Valid
  }

  lemma RankBound(groups: bv8)
    ensures Rank(groups, 8) <= 8
  {
  }

  lemma FieldLengthBound(g: nat)
    requires g < 8
    ensures forall k :: 0 <= k < 16 ==> GroupLengths(g)[k] <= 68
  {
    if g < 4 {
    } else {
    }
  }

  lemma {:induction false} FieldBytesBound(lengths: seq<nat>, field: bv16, n: nat)
    requires |lengths| == 16 && n <= 16
    requires forall k :: 0 <= k < 16 ==> lengths[k] <= 68
    ensures FieldBytes(lengths, field, n) <= 68 * n
  {
    hide Has;
    if n > 0 {
      FieldBytesBound(lengths, field, n - 1);
    }
  }

  lemma {:induction false} GroupsLengthBound(p: seq<bv8>, n: nat)
    requires n <= 7 && |p| >= 2 && |p| >= 2 + 2 * Rank(p[1], n)
    ensures GroupsLength(p, n) <= 1090 * n
  {
    hide HasGroup, FieldBytes, GroupLengths;
    if n > 0 {
      GroupsLengthBound(p, n - 1);
      if HasGroup(p[1], n - 1) {
        FieldLengthBound(n - 1);
        FieldBytesBound(GroupLengths(n - 1), GroupField(p, Rank(p[1], n - 1)), 16);
      }
    }
  }

  lemma HeaderLengthBound(p: seq<bv8>)
    ensures HeaderLength(p) <= 6544
  {
    if HeaderComplete(p) {
      RankStep(p[1], 6, 8);
      GroupsLengthBound(p, 6);
    }
  }

  /** Bytes after the header do not change the announced length. */
  lemma HeaderLengthStays(p: seq<bv8>, q: seq<bv8>)
    requires HeaderComplete(p) && p <= q
    ensures HeaderComplete(q) && HeaderLength(p) == HeaderLength(q)
  {
    RankStep(p[1], 6, 8);
    GroupsReadHeaderOnly(p, q, 6);
  }

  // ----- what a tracker knows

  /** The count a tracker runs towards; without group fields it starts at 0 and runs away. */
  function Goal(b: seq<bv8>): nat
    requires |b| >= 2
  {
    if Rank(b[1], 8) == 0 then 2 else HeaderLength(b)
  }

  /** The announced length is not shorter than the header and not too long to wait for. */
  ghost predicate Patient(b: seq<bv8>)
    requires |b| >= 2
  {
    2 + 2 * Rank(b[1], 8) <= HeaderLength(b) <= 2 + 2 * Rank(b[1], 8) + MAX_BINARY
  }

  /** The bytes `b` of a candidate have not been given up: it begins with the sync byte, and once
      its group fields are in, it is worth waiting for and not yet complete.  A candidate without
      group fields, or without anything behind them, is never given up. */
  ghost predicate Open(b: seq<bv8>) {
    && b != []
    && b[0] == SYNC
    && (HeaderComplete(b) && Rank(b[1], 8) > 0 ==>
          Patient(b) && (|b| < HeaderLength(b) || HeaderLength(b) == 2 + 2 * Rank(b[1], 8)))
  }

  /** A tracker that has seen the bytes `b`. */
  ghost predicate HasSeen(t: Tracker, b: seq<bv8>) {
    && Open(b)
    && (t.groupsFound <==> |b| >= 2)
    && (!t.groupsFound ==> t.headerLeft == 0 && t.left == 0)
    && (t.groupsFound ==>
          && t.groups == b[1]
          && t.headerLeft == (if |b| < 2 + 2 * Rank(b[1], 8) then 2 + 2 * Rank(b[1], 8) - |b| else 0)
          && t.left == (if t.headerLeft > 0 then 0 else Sub64(Goal(b), |b|)))
  }

  lemma Sub64Value(a: nat, b: nat)
    requires a < WORD && b < WORD
    ensures Sub64(a, b) == if b <= a then a - b else WORD + a - b
  {
    if a < b {
      assert (a - b) % WORD == (a - b + WORD) % WORD;
    }
  }

  /** One more byte on the count of a tracker, whatever wraps around. */
  lemma Sub64Step(a: nat, b: nat)
    requires a < WORD && b + 1 < WORD
    ensures Sub64(Sub64(a, b), 1) == Sub64(a, b + 1)
  {
    Sub64Value(a, b);
    Sub64Value(Sub64(a, b), 1);
    Sub64Value(a, b + 1);
  }

  /** `Progress` of a tracker depends only on the bytes it has seen. */
  lemma TrackerSees(t: Tracker, b: seq<bv8>, carry: seq<bv8>, data: seq<bv8>, i: nat, cap: nat)
    requires i < |data| && HasSeen(t, b) && |b| + 1 < WORD
    requires Overrun(t, carry, i, cap) || Window(t.inChunk, t.start, carry, data, i + 1) == b + [data[i]]
    ensures var b1 := b + [data[i]];
            match TrackerByte(t, carry, data, i, cap)
            case Keep(t1) => HasSeen(t1, b1) && t1.start == t.start && t1.inChunk == t.inChunk && t1.at == t.at
            case Drop(t1) => t1.groupsFound && t1.headerLeft == 0 && t1.left == 0
            case Done(p) => p == b1 && Trackable(b1) && !Overrun(t, carry, i, cap)
  {
    hide Check, HeaderLength, Rank, Window;
    var b1 := b + [data[i]];
    if t.groupsFound {
      assert b1[1] == b[1];
      var h := 2 + 2 * Rank(b[1], 8);
      RankBound(b[1]);
      if t.headerLeft == 0 {
        GoalStays(b, b1);
        HeaderLengthBound(b);
        Sub64Step(Goal(b), |b|);
        Sub64Value(Goal(b), |b| + 1);
      } else if t.headerLeft == 1 {
        HeaderLengthBound(b1);
        Sub64Value(HeaderLength(b1), |b1|);
      }
    }
  }

  lemma GoalStays(b: seq<bv8>, b1: seq<bv8>)
    requires HeaderComplete(b) && b <= b1
    ensures Goal(b1) == Goal(b)
  {
    hide HeaderLength;
    HeaderLengthStays(b, b1);
  }

  // ----- trackers and the received stream

  /** Where a tracker's packet lies: `past` was received before the chunk `data`. */
  ghost predicate Located(t: Tracker, past: seq<bv8>, carry: seq<bv8>) {
    if t.inChunk then t.at == |past| + t.start
    else t.at < |past| && t.start <= |carry| && carry[t.start..] == past[t.at..]
  }

  ghost predicate TrackerOk(t: Tracker, past: seq<bv8>, data: seq<bv8>, i: nat, carry: seq<bv8>)
    requires i <= |data|
  {
    && Located(t, past, carry)
    && t.at < |past| + i
    && HasSeen(t, (past + data[..i])[t.at..])
  }

  lemma WindowIsStream(t: Tracker, past: seq<bv8>, data: seq<bv8>, n: nat, carry: seq<bv8>)
    requires n <= |data| && Located(t, past, carry) && t.at <= |past| + n
    ensures Window(t.inChunk, t.start, carry, data, n) == (past + data[..n])[t.at..]
  {
    if !t.inChunk {
      assert (carry + data[..n])[t.start..] == carry[t.start..] + data[..n];
      assert (past + data[..n])[t.at..] == past[t.at..] + data[..n];
    }
  }

  /** Chunks and the carry buffer fit into the address space. */
  ghost predicate Addressable(data: seq<bv8>, cap: nat) {
    0 < cap < WORD / 2 && |data| < WORD / 2
  }

  lemma TrackerByteSound(t: Tracker, past: seq<bv8>, data: seq<bv8>, i: nat, carry: seq<bv8>, cap: nat)
    requires i < |data| && TrackerOk(t, past, data, i, carry)
    requires Addressable(data, cap) && |carry| < cap
    ensures match TrackerByte(t, carry, data, i, cap)
            case Keep(t1) => TrackerOk(t1, past, data, i + 1, carry) && t1.at == t.at
            case Drop(t1) => t1.at == t.at && t1.groupsFound && t1.headerLeft == 0 && t1.left == 0
            case Done(p) => p == (past + data[..i + 1])[t.at..] && Trackable(p)
  {
    hide HasSeen, Trackable, Window, Check, HeaderLength, Rank;
    var b := (past + data[..i])[t.at..];
    assert past + data[..i + 1] == past + data[..i] + [data[i]];
    assert (past + data[..i + 1])[t.at..] == b + [data[i]];
    WindowIsStream(t, past, data, i + 1, carry);
    TrackerSees(t, b, carry, data, i, cap);
    DropKeepsPlace(t, carry, data, i, cap);
  }

  lemma DropKeepsPlace(t: Tracker, carry: seq<bv8>, data: seq<bv8>, i: nat, cap: nat)
    requires i < |data|
    ensures match TrackerByte(t, carry, data, i, cap)
            case Keep(t1) => t1.at == t.at
            case Drop(t1) => t1.at == t.at
            case Done(p) => true
  {
    hide Check, HeaderLength, Rank, Window;
  }

  // ----- the deck

  ghost predicate Sorted(deck: seq<Tracker>) {
    forall a, b :: 0 <= a < b < |deck| ==> deck[a].at < deck[b].at
  }

  ghost predicate DeckOk(deck: seq<Tracker>, past: seq<bv8>, data: seq<bv8>, i: nat, carry: seq<bv8>)
    requires i <= |data|
  {
    Sorted(deck) && forall t :: t in deck ==> TrackerOk(t, past, data, i, carry)
  }

  /** A tracker that has nothing left to wait for. */
  ghost predicate Spent(t: Tracker) {
    t.groupsFound && t.headerLeft == 0 && t.left == 0
  }

  /** What the walk over the deck leaves when no packet completes. */
  ghost predicate Walked(w: Walk, deck: seq<Tracker>, past: seq<bv8>, data: seq<bv8>, i: nat, carry: seq<bv8>)
    requires i < |data|
  {
    && |w.deck| == |deck|
    && (forall k :: 0 <= k < |deck| ==> w.deck[k].at == deck[k].at)
    && (forall t :: t in w.dropped ==> Spent(t))
    && (forall t :: t in w.deck ==> t in w.dropped || TrackerOk(t, past, data, i + 1, carry))
  }

  lemma {:induction false} WalkSound(deck: seq<Tracker>, past: seq<bv8>, data: seq<bv8>, i: nat,
                                     carry: seq<bv8>, cap: nat)
    requires i < |data| && Addressable(data, cap) && |carry| < cap
    requires forall t :: t in deck ==> TrackerOk(t, past, data, i, carry)
    ensures var w := WalkDeck(deck, carry, data, i, cap);
            if w.packet == [] then Walked(w, deck, past, data, i, carry)
            else w.at <= |past| + i && w.packet == (past + data[..i + 1])[w.at..] && Trackable(w.packet)
    decreases |deck|
  {
    hide TrackerOk, TrackerByte, Trackable;
    if deck != [] {
      var last := |deck| - 1;
      var t := deck[last];
      WalkSound(deck[..last], past, data, i, carry, cap);
      TrackerByteSound(t, past, data, i, carry, cap);
      assert t.at < |past| + i by { InStream(t, past, data, i, carry); }
      TrackableIsNotEmpty();
    }
  }

  lemma InStream(t: Tracker, past: seq<bv8>, data: seq<bv8>, i: nat, carry: seq<bv8>)
    requires i <= |data| && TrackerOk(t, past, data, i, carry)
    ensures t.at < |past| + i
  {
  }

  lemma TrackableIsNotEmpty()
    ensures !Trackable([])
  {
  }

  lemma {:induction false} RemoveKeeps(deck: seq<Tracker>, d: Tracker)
    ensures forall t :: t in Remove(deck, d) <==> t in deck && !Same(t, d)
    ensures Sorted(deck) ==> Sorted(Remove(deck, d))
    decreases |deck|
  {
    if deck != [] {
      var last := |deck| - 1;
      RemoveKeeps(deck[..last], d);
      assert deck == deck[..last] + [deck[last]];
      if Sorted(deck) {
        var r := Remove(deck[..last], d);
        forall a | 0 <= a < |r|
          ensures r[a].at < deck[last].at
        {
          assert r[a] in deck[..last];
        }
      }
    }
  }

  lemma {:induction false} RemoveEachKeeps(deck: seq<Tracker>, dropped: seq<Tracker>)
    ensures forall t :: t in RemoveEach(deck, dropped) <==> t in deck && forall d :: d in dropped ==> !Same(t, d)
    ensures Sorted(deck) ==> Sorted(RemoveEach(deck, dropped))
    decreases |dropped|
  {
    hide Same, Sorted;
    if dropped != [] {
      var last := |dropped| - 1;
      RemoveEachKeeps(deck, dropped[..last]);
      RemoveKeeps(RemoveEach(deck, dropped[..last]), dropped[last]);
      assert dropped == dropped[..last] + [dropped[last]];
    }
  }

  // ----- the whole finder

  /** A binary packet reported at its place in the stream; an ASCII packet passed the validity test. */
  ghost predicate Genuine(e: Event, stream: seq<bv8>) {
    match e
    case BinaryFound(p, index) => Trackable(p) && exists at: nat :: SliceAt(stream, at, p) && index == at % WORD
    case AsciiFound(p, _) => p != [] && p[0] == DOLLAR && Check(p) == Valid
  }

  ghost predicate SliceAt(stream: seq<bv8>, at: nat, p: seq<bv8>) {
    at + |p| <= |stream| && stream[at..at + |p|] == p
  }

  ghost predicate AllGenuine(found: seq<Event>, stream: seq<bv8>) {
    forall e :: e in found ==> Genuine(e, stream)
  }

  ghost predicate AsciiOk(f: Finder, data: seq<bv8>, i: nat)
    requires i <= |data|
  {
    && (f.ascii.end1 ==> f.ascii.building)
    && (f.ascii.building ==>
          if f.asciiInChunk then f.ascii.start < i && data[f.ascii.start] == DOLLAR
          else f.ascii.start < |f.carry| && f.carry[f.ascii.start] == DOLLAR)
  }

  /** The finder after the chunks `past` and `i` bytes of the chunk `data`. */
  ghost predicate Sound(f: Finder, past: seq<bv8>, data: seq<bv8>, i: nat, cap: nat)
    requires i <= |data|
  {
    && f.running == |past| + i
    && |f.carry| < cap
    && DeckOk(f.deck, past, data, i, f.carry)
    && AsciiOk(f, data, i)
    && AllGenuine(f.found, past + data[..i])
  }

  lemma GenuineStays(found: seq<Event>, stream: seq<bv8>, more: seq<bv8>)
    requires AllGenuine(found, stream)
    ensures AllGenuine(found, stream + more)
  {
    hide Trackable;
    forall e | e in found
      ensures Genuine(e, stream + more)
    {
      if e.BinaryFound? {
        var at: nat :| SliceAt(stream, at, e.packet) && e.index == at % WORD;
        assert (stream + more)[at..at + |e.packet|] == stream[at..at + |e.packet|];
        assert SliceAt(stream + more, at, e.packet);
      }
    }
  }

  /** The ASCII part of a byte keeps the deck, and the carried bytes while the deck needs them. */
  lemma AsciiByteSound(f: Finder, past: seq<bv8>, data: seq<bv8>, i: nat, cap: nat)
    requires i < |data| && Addressable(data, cap) && Sound(f, past, data, i, cap)
    ensures var r := AsciiByte(f, data, i, cap);
            && r.deck == f.deck && r.running == f.running && |r.carry| < cap
            && DeckOk(r.deck, past, data, i, r.carry)
            && AsciiOk(r, data, i + 1)
            && AllGenuine(r.found, past + data[..i])
  {
    hide TrackerOk, Trackable, Check;
    if f.ascii.end1 {
      var p := Window(f.asciiInChunk, f.ascii.start, f.carry, data, i + 1);
      assert p[0] == DOLLAR;
      EmptyIsInvalid();
    }
  }

  lemma EmptyIsInvalid()
    ensures Check([]) == Invalid
  {
  }

  lemma BinaryByteSound(f: Finder, past: seq<bv8>, data: seq<bv8>, i: nat, cap: nat)
    requires i < |data| && Addressable(data, cap)
    requires |f.carry| < cap && DeckOk(f.deck, past, data, i, f.carry)
    requires AsciiOk(f, data, i + 1) && AllGenuine(f.found, past + data[..i])
    ensures var r := BinaryByte(f, data, i, cap);
            && r.running == f.running && |r.carry| < cap
            && DeckOk(r.deck, past, data, i + 1, r.carry)
            && AsciiOk(r, data, i + 1)
            && AllGenuine(r.found, past + data[..i + 1])
  {
    hide TrackerOk, Trackable, Genuine, Sorted, Same;
    var stream := past + data[..i + 1];
    var w := WalkDeck(f.deck, f.carry, data, i, cap);
    WalkSound(f.deck, past, data, i, f.carry, cap);
    assert stream == past + data[..i] + [data[i]];
    GenuineStays(f.found, past + data[..i], [data[i]]);
    if w.packet != [] {
      GenuineBinary(w.packet, w.at, stream);
      assert Sorted([]) by { EmptyIsSorted(); }
    } else {
      RemoveEachKeeps(w.deck, w.dropped);
      SortedByPlace(f.deck, w.deck);
      forall t | t in RemoveEach(w.deck, w.dropped)
        ensures TrackerOk(t, past, data, i + 1, f.carry)
      {
        assert t in w.deck;
        SameReflexive(t);
      }
    }
  }

  lemma SameReflexive(t: Tracker)
    ensures Same(t, t)
  {
  }

  lemma EmptyIsSorted()
    ensures Sorted([])
  {
  }

  lemma SortedByPlace(a: seq<Tracker>, b: seq<Tracker>)
    requires Sorted(a) && |a| == |b| && forall k :: 0 <= k < |a| ==> b[k].at == a[k].at
    ensures Sorted(b)
  {
  }

  lemma GenuineBinary(p: seq<bv8>, at: nat, stream: seq<bv8>)
    requires Trackable(p) && at <= |stream| && p == stream[at..]
    ensures Genuine(BinaryFound(p, at % WORD), stream)
  {
    assert SliceAt(stream, at, p);
  }

  lemma SettleSound(f: Finder, past: seq<bv8>, data: seq<bv8>, i: nat, cap: nat)
    requires i < |data| && Addressable(data, cap)
    requires f.running == |past| + i && |f.carry| < cap && DeckOk(f.deck, past, data, i + 1, f.carry)
    requires AsciiOk(f, data, i + 1) && AllGenuine(f.found, past + data[..i + 1])
    requires forall t :: t in f.deck ==> t.at < |past| + i
    ensures Sound(Settle(f, data[i], i), past, data, i + 1, cap)
  {
    hide TrackerOk, AllGenuine;
    var t := Tracker(i, false, 0, 0, 0, true, f.running);
    if data[i] == SYNC {
      NewTrackerOk(past, data, i, if f.deck == [] && !f.ascii.building then [] else f.carry);
    }
  }

  lemma NewTrackerOk(past: seq<bv8>, data: seq<bv8>, i: nat, carry: seq<bv8>)
    requires i < |data| && data[i] == SYNC
    ensures TrackerOk(Tracker(i, false, 0, 0, 0, true, |past| + i), past, data, i + 1, carry)
  {
    assert (past + data[..i + 1])[|past| + i..] == [SYNC];
  }

  lemma ByteSound(f: Finder, past: seq<bv8>, data: seq<bv8>, i: nat, cap: nat)
    requires i < |data| && Addressable(data, cap) && Sound(f, past, data, i, cap)
    ensures Sound(Byte(f, data, i, cap), past, data, i + 1, cap)
  {
    hide AsciiOk, AllGenuine, Settle, AsciiByte, BinaryByte, TrackerOk, Sorted;
    AsciiByteSound(f, past, data, i, cap);
    var f1 := AsciiByte(f, data, i, cap);
    BinaryByteSound(f1, past, data, i, cap);
    var f2 := BinaryByte(f1, data, i, cap);
    DeckStaysInPlace(f1, past, data, i, cap);
    SettleSound(f2, past, data, i, cap);
  }

  /** No tracker in the deck started at the byte being processed. */
  lemma DeckStaysInPlace(f: Finder, past: seq<bv8>, data: seq<bv8>, i: nat, cap: nat)
    requires i < |data| && Addressable(data, cap)
    requires |f.carry| < cap && DeckOk(f.deck, past, data, i, f.carry)
    ensures forall t :: t in BinaryByte(f, data, i, cap).deck ==> t.at < |past| + i
  {
    hide TrackerOk, Trackable, Sorted, Same;
    var w := WalkDeck(f.deck, f.carry, data, i, cap);
    WalkSound(f.deck, past, data, i, f.carry, cap);
    if w.packet == [] {
      RemoveEachKeeps(w.deck, w.dropped);
      forall k | 0 <= k < |w.deck|
        ensures w.deck[k].at < |past| + i
      {
        InStream(f.deck[k], past, data, i, f.carry);
      }
    }
  }

  lemma {:induction false} BytesSound(f: Finder, past: seq<bv8>, data: seq<bv8>, n: nat, cap: nat)
    requires n <= |data| && Addressable(data, cap) && Sound(f, past, data, 0, cap)
    ensures Sound(Bytes(f, data, n, cap), past, data, n, cap)
  {
    hide Byte, Sound;
    if n > 0 {
      BytesSound(f, past, data, n - 1, cap);
      ByteSound(Bytes(f, data, n - 1, cap), past, data, n - 1, cap);
    }
  }

  // ----- chunks

  /** `CopyFrom` never skips a byte that a tracker still needs. */
  lemma CopyFromKeepsDeck(f: Finder, past: seq<bv8>, data: seq<bv8>, t: Tracker, cap: nat)
    requires Sound(f, past, data, |data|, cap) && t in f.deck
    ensures if t.inChunk then CopyFrom(f) <= t.start else CopyFrom(f) == 0
  {
    hide HasSeen, AllGenuine, AsciiOk;
    var k :| 0 <= k < |f.deck| && f.deck[k] == t;
    assert TrackerOk(f.deck[0], past, data, |data|, f.carry);
    assert TrackerOk(t, past, data, |data|, f.carry);
  }

  lemma RebaseSound(t: Tracker, past: seq<bv8>, data: seq<bv8>, carry: seq<bv8>, from: nat)
    requires TrackerOk(t, past, data, |data|, carry)
    requires from <= |data| && if t.inChunk then from <= t.start else from == 0
    ensures TrackerOk(Rebase(t, from, |carry|), past + data, [], 0, carry + data[from..])
  {
    assert past + data[..|data|] == past + data;
    assert (past + data) + [][..0] == past + data;
    var t1 := Rebase(t, from, |carry|);
    var carry1 := carry + data[from..];
    SameSeen(t, t1, (past + data)[t.at..]);
    if t.inChunk {
      assert carry1[t1.start..] == data[t.start..];
      assert (past + data)[t.at..] == data[t.start..];
    } else {
      assert carry1[t.start..] == carry[t.start..] + data;
      assert (past + data)[t.at..] == past[t.at..] + data;
    }
  }

  lemma SameSeen(t: Tracker, t1: Tracker, b: seq<bv8>)
    requires HasSeen(t, b) && t1 == t.(start := t1.start, inChunk := t1.inChunk)
    ensures HasSeen(t1, b)
  {
  }

  lemma AsciiRebased(f: Finder, past: seq<bv8>, data: seq<bv8>, cap: nat)
    requires Sound(f, past, data, |data|, cap)
    requires f.deck != [] || f.ascii.building
    requires CopyFrom(f) <= |data| && |f.carry| + |data| - CopyFrom(f) < cap
    ensures AsciiOk(EndOfChunk(f, data, cap), [], 0)
  {
    hide DeckOk, AllGenuine;
    var from := CopyFrom(f);
    if f.ascii.building && f.asciiInChunk {
      assert from <= f.ascii.start;
      assert (f.carry + data[from..])[|f.carry| + f.ascii.start - from] == data[f.ascii.start];
    }
  }

  /** Between chunks, whatever chunk comes next. */
  ghost predicate Resting(f: Finder, past: seq<bv8>, cap: nat) {
    Sound(f, past, [], 0, cap)
  }

  lemma EndOfChunkSound(f: Finder, past: seq<bv8>, data: seq<bv8>, cap: nat)
    requires Addressable(data, cap) && Sound(f, past, data, |data|, cap)
    ensures Resting(EndOfChunk(f, data, cap), past + data, cap)
  {
    hide TrackerOk, AllGenuine, Rebase;
    assert past + data[..|data|] == past + data == (past + data) + [][..0];
    var r := EndOfChunk(f, data, cap);
    var from := CopyFrom(f);
    if f.deck == [] && !f.ascii.building {
    } else if from <= |data| && |f.carry| + |data| - from < cap {
      AsciiRebased(f, past, data, cap);
      forall k | 0 <= k < |f.deck|
        ensures TrackerOk(r.deck[k], past + data, [], 0, r.carry) && r.deck[k].at == f.deck[k].at
      {
        CopyFromKeepsDeck(f, past, data, f.deck[k], cap);
        RebaseSound(f.deck[k], past, data, f.carry, from);
        RebaseKeepsPlace(f.deck[k], from, |f.carry|);
      }
      SortedByPlace(f.deck, r.deck);
    }
  }

  lemma RebaseKeepsPlace(t: Tracker, from: nat, carried: nat)
    ensures Rebase(t, from, carried).at == t.at
  {
  }

  lemma RestingStarts(f: Finder, past: seq<bv8>, data: seq<bv8>, cap: nat)
    requires Resting(f, past, cap)
    ensures Sound(f, past, data, 0, cap)
  {
    hide HasSeen, Genuine;
    assert [][..0] == data[..0];
    forall t | t in f.deck
      ensures TrackerOk(t, past, data, 0, f.carry)
    {
      assert TrackerOk(t, past, [], 0, f.carry);
    }
  }

  /** One call with received data keeps every report genuine. */
  lemma ReceiveSound(f: Finder, past: seq<bv8>, data: seq<bv8>, cap: nat)
    requires Addressable(data, cap) && Resting(f, past, cap)
    ensures Resting(Receive(f, data, cap), past + data, cap)
  {
    hide Sound, Bytes, EndOfChunk, Resting;
    RestingStarts(f, past, data, cap);
    BytesSound(f, past, data, |data|, cap);
    EndOfChunkSound(Bytes(f, data, |data|, cap), past, data, cap);
  }

  // ----- every run

  function Stream(chunks: seq<seq<bv8>>): seq<bv8> {
    if chunks == [] then [] else Stream(chunks[..|chunks| - 1]) + chunks[|chunks| - 1]
  }

  function Run(chunks: seq<seq<bv8>>, cap: nat): Finder {
    if chunks == [] then START else Receive(Run(chunks[..|chunks| - 1], cap), chunks[|chunks| - 1], cap)
  }

  ghost predicate AllAddressable(chunks: seq<seq<bv8>>, cap: nat) {
    0 < cap < WORD / 2 && forall c :: c in chunks ==> |c| < WORD / 2
  }

  lemma {:induction false} RunSound(chunks: seq<seq<bv8>>, cap: nat)
    requires AllAddressable(chunks, cap)
    ensures Resting(Run(chunks, cap), Stream(chunks), cap)
    decreases |chunks|
  {
    hide Receive, Resting;
    if chunks == [] {
      StartRests(cap);
    } else {
      RunSound(chunks[..|chunks| - 1], cap);
      ReceiveSound(Run(chunks[..|chunks| - 1], cap), Stream(chunks[..|chunks| - 1]), chunks[|chunks| - 1], cap);
    }
  }

  lemma StartRests(cap: nat)
    requires 0 < cap
    ensures Resting(START, [], cap)
  {
  }

  /** For every stream and every division into chunks: each binary packet reported is a
      contiguous slice of the stream that begins with the sync byte at the reported running
      index, is as long as its header announces, and has CRC residue 0. */
  lemma ReportsAreSlices(chunks: seq<seq<bv8>>, cap: nat, p: seq<bv8>, index: nat)
    requires AllAddressable(chunks, cap)
    requires BinaryFound(p, index) in Run(chunks, cap).found
    ensures exists at: nat :: SliceAt(Stream(chunks), at, p) && index == at % WORD
    ensures p != [] && p[0] == SYNC && HeaderComplete(p) && HeaderLength(p) == |p|
    ensures ErrorDetection.Crc16Of(p[1..]) == 0
  {
    hide Run, Stream, HeaderLength;
    RunSound(chunks, cap);
    assert Stream(chunks) + [][..0] == Stream(chunks);
    assert Genuine(BinaryFound(p, index), Stream(chunks));
  }
}
