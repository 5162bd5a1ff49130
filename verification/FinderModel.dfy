/**
 The streaming packet finder of the IMU link, on values: what one byte and one chunk of
 received data do to the trackers and to the bytes carried over between chunks.
 */
module FinderModel {
  import opened VnPacket
  import opened VnBinary

  const MAX_BINARY: nat := 256   // most bytes after the group fields
  const MAX_ASCII: nat := 256
  const WORD: nat := 0x1_0000_0000_0000_0000

  /** Subtraction on 64-bit unsigned numbers. */
  function Sub64(a: nat, b: nat): nat {
    (a - b) % WORD
  }

  /** A possible binary packet.  `start` indexes the current chunk while `inChunk` holds and
      the carried bytes afterwards; `at` counts the bytes received before the packet. */
  datatype Tracker = Tracker(
    start: nat,
    groupsFound: bool,
    groups: bv8,
    headerLeft: nat,     // bytes missing from the group fields
    left: nat,           // bytes missing from the packet, a 64-bit number
    inChunk: bool,
    at: nat)

  /** The possible ASCII packet. */
  datatype Ascii = Ascii(building: bool, start: nat, end1: bool, at: nat)

  const NO_ASCII: Ascii := Ascii(false, 0, false, 0)

  /** A packet handed to the user, with the running index of its first byte. */
  datatype Event = AsciiFound(packet: seq<bv8>, index: nat) | BinaryFound(packet: seq<bv8>, index: nat)

  /** The finder.  `carry` is the part of the receive buffer in use and `asciiInChunk` tells
      that the ASCII packet started in the current chunk. */
  datatype Finder = Finder(
    carry: seq<bv8>,
    ascii: Ascii,
    asciiInChunk: bool,
    deck: seq<Tracker>,
    running: nat,
    found: seq<Event>)

  function Reset(f: Finder): Finder {
    f.(ascii := NO_ASCII, deck := [], carry := [])
  }

  function From(bytes: seq<bv8>, start: nat): seq<bv8> {
    if start <= |bytes| then bytes[start..] else []
  }

  /** The bytes from `start` up to byte `n` of the chunk. */
  function Window(inChunk: bool, start: nat, carry: seq<bv8>, data: seq<bv8>, n: nat): seq<bv8>
    requires n <= |data|
  {
    From(if inChunk then data[..n] else carry + data[..n], start)
  }

  // ----- ASCII packets

  function ClearAscii(f: Finder): Finder {
    if f.deck == [] then Reset(f) else f.(ascii := NO_ASCII)
  }

  function AsciiByte(f: Finder, data: seq<bv8>, i: nat, cap: nat): Finder
    requires i < |data|
  {
    if data[i] == DOLLAR then
      f.(ascii := Ascii(true, i, false, f.running), asciiInChunk := true)
    else if f.ascii.building && data[i] == CR then
      f.(ascii := f.ascii.(end1 := true))
    else if f.ascii.end1 then
      var packet := if f.asciiInChunk || |f.carry| + i < cap
                    then Window(f.asciiInChunk, f.ascii.start, f.carry, data, i + 1) else [];
      var f1 := if data[i] == LF && Check(packet) == Valid
                then f.(found := f.found + [AsciiFound(packet, f.ascii.at % WORD)]) else f;
      ClearAscii(f1).(asciiInChunk := false)
    else if i + 1 > MAX_ASCII then
      ClearAscii(f).(asciiInChunk := f.asciiInChunk && f.deck == [])
    else f
  }

  // ----- binary packets

  datatype Progress = Keep(t: Tracker) | Drop(t: Tracker) | Done(packet: seq<bv8>)

  predicate Overrun(t: Tracker, carry: seq<bv8>, i: nat, cap: nat) {
    !t.inChunk && |carry| + i + 1 >= cap
  }

  predicate HeaderComplete(p: seq<bv8>) {
    |p| >= 2 && |p| >= 2 + 2 * Rank(p[1], 8)
  }

  /** The announced length of a packet whose header is complete. */
  function HeaderLength(p: seq<bv8>): nat {
    if HeaderComplete(p) then (RankStep(p[1], 6, 8); AnnouncedLength(p)) else 0
  }

  /** What byte `i` of the chunk does to a tracker. */
  function TrackerByte(t: Tracker, carry: seq<bv8>, data: seq<bv8>, i: nat, cap: nat): Progress
    requires i < |data|
  {
    if !t.groupsFound then
      Keep(t.(groupsFound := true, groups := data[i], headerLeft := 2 * Rank(data[i], 8)))
    else if t.headerLeft != 0 then
      var t1 := t.(headerLeft := t.headerLeft - 1);
      if t1.headerLeft != 0 then Keep(t1)
      else if Overrun(t, carry, i, cap) then Drop(t1)
      else
        var p := Window(t.inChunk, t.start, carry, data, i + 1);
        var remaining := Sub64(HeaderLength(p), |p|);
        if remaining > MAX_BINARY then Drop(t1) else Keep(t1.(left := remaining))
    else
      var t1 := t.(left := Sub64(t.left, 1));
      if t1.left != 0 then Keep(t1)
      else if Overrun(t, carry, i, cap) then Drop(t1)
      else
        var p := Window(t.inChunk, t.start, carry, data, i + 1);
        if Check(p) == Valid then Done(p) else Drop(t1)
  }

  /** The comparison by which dropped trackers are removed from the deck. */
  predicate Same(a: Tracker, b: Tracker) {
    && a.start == b.start
    && a.groupsFound == b.groupsFound
    && a.groups == b.groups
    && a.headerLeft == b.headerLeft
    && a.left == b.left
  }

  function Remove(deck: seq<Tracker>, t: Tracker): seq<Tracker> {
    if deck == [] then [] else
      Remove(deck[..|deck| - 1], t) + if Same(deck[|deck| - 1], t) then [] else [deck[|deck| - 1]]
  }

  function RemoveEach(deck: seq<Tracker>, dropped: seq<Tracker>): seq<Tracker> {
    if dropped == [] then deck
    else Remove(RemoveEach(deck, dropped[..|dropped| - 1]), dropped[|dropped| - 1])
  }

  /** The trackers of `deck` after byte `i`, the dropped ones among them, and the first
      packet completed; the walk over the deck stops there. */
  datatype Walk = Walk(deck: seq<Tracker>, dropped: seq<Tracker>, packet: seq<bv8>, at: nat)

  function WalkDeck(deck: seq<Tracker>, carry: seq<bv8>, data: seq<bv8>, i: nat, cap: nat): Walk
    requires i < |data|
  {
    if deck == [] then Walk([], [], [], 0) else
      var w := WalkDeck(deck[..|deck| - 1], carry, data, i, cap);
      var t := deck[|deck| - 1];
      if w.packet != [] then w else
        match TrackerByte(t, carry, data, i, cap)
        case Keep(t1) => w.(deck := w.deck + [t1])
        case Drop(t1) => w.(deck := w.deck + [t1], dropped := w.dropped + [t1])
        case Done(p) => w.(packet := p, at := t.at)
  }

  function BinaryByte(f: Finder, data: seq<bv8>, i: nat, cap: nat): Finder
    requires i < |data|
  {
    var w := WalkDeck(f.deck, f.carry, data, i, cap);
    if w.packet != [] then Reset(f).(found := f.found + [BinaryFound(w.packet, w.at % WORD)])
    else f.(deck := RemoveEach(w.deck, w.dropped))
  }

  // ----- one byte, one chunk

  /** The buffer is emptied when nothing is being tracked; a sync byte starts a tracker. */
  function Settle(f: Finder, b: bv8, i: nat): Finder {
    var f1 := if f.deck == [] && !f.ascii.building then f.(carry := []) else f;
    var f2 := if b == SYNC
              then f1.(deck := f1.deck + [Tracker(i, false, 0, 0, 0, true, f.running)]) else f1;
    f2.(running := f.running + 1)
  }

  function Byte(f: Finder, data: seq<bv8>, i: nat, cap: nat): Finder
    requires i < |data|
  {
    Settle(BinaryByte(AsciiByte(f, data, i, cap), data, i, cap), data[i], i)
  }

  function Bytes(f: Finder, data: seq<bv8>, n: nat, cap: nat): Finder
    requires n <= |data|
  {
    if n == 0 then f else Byte(Bytes(f, data, n - 1, cap), data, n - 1, cap)
  }

  /** Where the bytes to carry over begin: at the first binary packet that started in this
      chunk, or at the ASCII packet that did if that is earlier or the only one. */
  function CopyFrom(f: Finder): nat {
    var binary := if f.deck != [] && f.deck[0].inChunk then f.deck[0].start else 0;
    if f.ascii.building && f.asciiInChunk && (f.ascii.start < binary || f.deck == []) then f.ascii.start
    else binary
  }

  /** Indices into the chunk become indices into the carried bytes. */
  function Rebase(t: Tracker, from: nat, carried: nat): Tracker {
    if t.inChunk then t.(inChunk := false, start := if from <= t.start + carried then t.start + carried - from else 0)
    else t
  }

  function RebaseDeck(deck: seq<Tracker>, from: nat, carried: nat): (r: seq<Tracker>)
    ensures |r| == |deck|
    ensures forall k :: 0 <= k < |deck| ==> r[k] == Rebase(deck[k], from, carried)
  {
    seq(|deck|, k requires 0 <= k < |deck| => Rebase(deck[k], from, carried))
  }

  function RebaseAscii(f: Finder, from: nat): Ascii {
    if f.ascii.building && f.asciiInChunk && from <= |f.carry| + f.ascii.start
    then f.ascii.(start := |f.carry| + f.ascii.start - from) else f.ascii
  }

  function EndOfChunk(f: Finder, data: seq<bv8>, cap: nat): Finder {
    if f.deck == [] && !f.ascii.building then f.(asciiInChunk := false)
    else
      var from := CopyFrom(f);
      var f1 := f.(ascii := RebaseAscii(f, from), deck := RebaseDeck(f.deck, from, |f.carry|), asciiInChunk := false);
      if from <= |data| && |f.carry| + |data| - from < cap then f1.(carry := f.carry + data[from..]) else Reset(f1)
  }

  /** Everything one call with received data does. */
  function Receive(f: Finder, data: seq<bv8>, cap: nat): Finder {
    EndOfChunk(Bytes(f, data, |data|, cap), data, cap)
  }

  const START: Finder := Finder([], NO_ASCII, false, [], 0, [])
}
