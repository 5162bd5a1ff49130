/**
 EtherCAT frames: one datagram is set up in a frame buffer, further ones are chained to it.
 A frame is read back by a parser written from the frame format alone.
 */
module EthercatDatagram {
  type byte = x: int | 0 <= x < 256

  datatype Option<T> = None | Some(value: T)

  const ETH_HEADER := 14
  const EC_HEADER := 12
  const EC_ELENGTH := 2
  const EC_WKC := 2
  const EC_TYPE := 0x1000
  const FOLLOWS := 0x8000
  const MAX_FRAME := 1518

  /** A datagram as the parser sees it. */
  datatype Datagram = Datagram(command: byte, index: byte, adp: nat, ado: nat, data: seq<byte>, wkc: nat)

  /** A datagram as it was added, with the caller's word on whether more follow. */
  datatype Entry = Entry(command: byte, index: byte, adp: nat, ado: nat, data: seq<byte>, more: bool)

  /** Commands that only read: their data part is zeroed (NOP, APRD, FPRD, BRD, LRD). */
  predicate IsRead(command: byte) {
    command == 0x00 || command == 0x01 || command == 0x04 || command == 0x07 || command == 0x0a
  }

  function Little2At(s: seq<byte>, at: nat): nat
    requires at + 2 <= |s|
  {
    s[at] as int + 0x100 * (s[at + 1] as int)
  }

  // ----- the frame format, without the Ethernet header

  /** Datagrams from `at` to `end`: ten bytes of header, data, two bytes of counter; a flag in
      the length says whether another one follows, and the last ends at `end`. */
  function Parse(s: seq<byte>, at: nat, end: nat): Option<seq<Datagram>>
    requires end <= |s|
    decreases end - at
  {
    if at + 12 > end || at + 12 + Little2At(s, at + 6) % 0x800 > end then None
    else
      var n := Little2At(s, at + 6) % 0x800;
      var d := Datagram(s[at], s[at + 1], Little2At(s, at + 2), Little2At(s, at + 4),
                        s[at + 10..at + 10 + n], Little2At(s, at + 10 + n));
      if Little2At(s, at + 6) >= FOLLOWS then
        var rest := Parse(s, at + 12 + n, end);
        if rest.None? then None else Some([d] + rest.value)
      else if at + 12 + n == end then Some([d]) else None
  }

  function ParseFrame(s: seq<byte>): Option<seq<Datagram>> {
    if |s| < 2 || Little2At(s, 0) / EC_TYPE != 1 || 2 + Little2At(s, 0) % 0x800 > |s| then None
    else Parse(s, 2, 2 + Little2At(s, 0) % 0x800)
  }

  // ----- what the buffer holds

  /** Where datagram `i` starts in the frame without the Ethernet header. */
  function At(es: seq<Entry>, i: nat): (at: nat)
    requires i <= |es|
    ensures at >= 2
  {
    if i == 0 then 2 else At(es, i - 1) + 12 + |es[i - 1].data|
  }

  /** The follows-flag that ends up in datagram `i`: adding sets it in the first datagram of
      the frame; the others keep what their caller said. */
  predicate Flag(es: seq<Entry>, i: nat)
    requires i < |es|
  {
    if i == 0 then |es| > 1 else es[i].more
  }

  predicate Holds(s: seq<byte>, at: nat, e: Entry, follows: bool) {
    && at + 12 + |e.data| <= |s|
    && |e.data| < 0x800 && e.adp < 0x1_0000 && e.ado < 0x1_0000
    && s[at] == e.command
    && s[at + 1] == e.index
    && Little2At(s, at + 2) == e.adp
    && Little2At(s, at + 4) == e.ado
    && Little2At(s, at + 6) == |e.data| + (if follows then FOLLOWS else 0)
    && s[at + 10..at + 10 + |e.data|] == e.data
    && Little2At(s, at + 10 + |e.data|) == 0
  }

  /** The first `n` entries are in place. */
  predicate HoldsAll(s: seq<byte>, es: seq<Entry>, n: nat)
    requires n <= |es|
  {
    n > 0 ==> HoldsAll(s, es, n - 1) && Holds(s, At(es, n - 1), es[n - 1], Flag(es, n - 1))
  }

  /** `s` is a frame without Ethernet header that holds the entries. */
  predicate Frame(s: seq<byte>, es: seq<Entry>) {
    && |s| == At(es, |es|) <= MAX_FRAME - ETH_HEADER
    && Little2At(s, 0) == EC_TYPE + |s| - 2
    && HoldsAll(s, es, |es|)
  }

  lemma {:induction false} AtPrefix(es: seq<Entry>, more: seq<Entry>, i: nat)
    requires i <= |es|
    ensures At(es + more, i) == At(es, i)
  {
    if i > 0 {
      AtPrefix(es, more, i - 1);
    }
  }

  lemma {:induction false} AtGrows(es: seq<Entry>, i: nat, j: nat)
    requires i <= j <= |es|
    ensures At(es, i) + 12 * (j - i) <= At(es, j)
    ensures i < j ==> At(es, i) + 12 + |es[i].data| <= At(es, j)
  {
    if i < j {
      AtGrows(es, i, j - 1);
    }
  }

  // ----- parsing back

  function Seen(e: Entry): Datagram {
    Datagram(e.command, e.index, e.adp, e.ado, e.data, 0)
  }

  function AllSeen(es: seq<Entry>): seq<Datagram> {
    if es == [] then [] else [Seen(es[0])] + AllSeen(es[1..])
  }

  /** Callers said `more` for every added datagram but the last. */
  predicate Chained(es: seq<Entry>) {
    forall i | 1 <= i < |es| :: es[i].more <==> i < |es| - 1
  }

  predicate ChainedFrom(es: seq<Entry>, k: nat) {
    forall i | k <= i < |es| :: Flag(es, i) <==> i < |es| - 1
  }

  lemma {:induction false} ParseFrom(s: seq<byte>, es: seq<Entry>, k: nat)
    requires Frame(s, es) && k < |es|
    ensures Parse(s, At(es, k), |s|) == if ChainedFrom(es, k) then Some(AllSeen(es[k..])) else None
    decreases |es| - k
  {
    hide *;
    EntryHolds(s, es, k);
    ParseOne(s, At(es, k), es[k], Flag(es, k));
    assert es[k..][1..] == es[k + 1..] && es[k..][0] == es[k];
    AllSeenStep(es[k..]);
    ChainedStep(es, k);
    if k + 1 < |es| {
      AtGrows(es, k + 1, |es|);
      ParseFrom(s, es, k + 1);
    } else {
      NothingLeft(s);
    }
  }

  lemma EntryHolds(s: seq<byte>, es: seq<Entry>, k: nat)
    requires Frame(s, es) && k < |es|
    ensures Holds(s, At(es, k), es[k], Flag(es, k))
    ensures At(es, k + 1) == At(es, k) + 12 + |es[k].data| && At(es, |es|) == |s|
  {
    hide Holds, Flag;
    OneOfAll(s, es, |es|, k);
  }

  lemma {:induction false} OneOfAll(s: seq<byte>, es: seq<Entry>, n: nat, k: nat)
    requires k < n <= |es| && HoldsAll(s, es, n)
    ensures Holds(s, At(es, k), es[k], Flag(es, k))
  {
    hide Holds, Flag, At;
    if k < n - 1 {
      OneOfAll(s, es, n - 1, k);
    }
  }

  lemma AllSeenStep(es: seq<Entry>)
    requires es != []
    ensures AllSeen(es) == [Seen(es[0])] + AllSeen(es[1..])
    ensures |es| == 1 ==> AllSeen(es) == [Seen(es[0])]
  {
  }

  lemma ChainedStep(es: seq<Entry>, k: nat)
    requires k < |es|
    ensures ChainedFrom(es, k) <==> if k + 1 < |es| then Flag(es, k) && ChainedFrom(es, k + 1) else !Flag(es, k)
  {
    hide Flag;
  }

  lemma NothingLeft(s: seq<byte>)
    ensures Parse(s, |s|, |s|) == None
  {
  }

  /** One step of the parser over a datagram that is in place. */
  lemma ParseOne(s: seq<byte>, at: nat, e: Entry, follows: bool)
    requires Holds(s, at, e, follows)
    ensures var rest := Parse(s, at + 12 + |e.data|, |s|);
            Parse(s, at, |s|)
            == if follows then (if rest.None? then None else Some([Seen(e)] + rest.value))
               else if at + 12 + |e.data| == |s| then Some([Seen(e)]) else None
  {
    assert Little2At(s, at + 6) % 0x800 == |e.data|;
  }

  lemma FirstAt(es: seq<Entry>)
    ensures At(es, 0) == 2
  {
  }

  lemma ChainedIffFlags(es: seq<Entry>)
    requires es != []
    ensures Chained(es) <==> ChainedFrom(es, 0)
  {
    if ChainedFrom(es, 0) {
      forall i | 1 <= i < |es|
        ensures es[i].more <==> i < |es| - 1
      {
        assert Flag(es, i) <==> i < |es| - 1;
      }
    }
  }

  /** The frame parses back to exactly the datagrams added if and only if `more` was said for
      all added ones but the last; otherwise it does not parse at all. */
  lemma ParsesBackIffChained(s: seq<byte>, es: seq<Entry>)
    requires es != [] && Frame(s, es)
    ensures ParseFrame(s) == if Chained(es) then Some(AllSeen(es)) else None
  {
    hide Holds, Parse, At, Chained, ChainedFrom, AllSeen;
    ParseFrom(s, es, 0);
    assert es[0..] == es;
    assert At(es, 0) == 2 by {
      FirstAt(es);
    }
    ChainedIffFlags(es);
  }

  /** An offset handed out when datagram `i` was added still locates its data after any further
      datagrams, and the 11-bit length field is the size of the buffer less 16. */
  lemma OffsetsStayGood(s: seq<byte>, es: seq<Entry>, later: seq<Entry>, i: nat)
    requires Frame(s, es + later) && i < |es|
    ensures At(es, i) + 10 + |es[i].data| <= |s|
    ensures s[At(es, i) + 10..At(es, i) + 10 + |es[i].data|] == es[i].data
    ensures Little2At(s, 0) % 0x800 == ETH_HEADER + |s| - 16 && Little2At(s, 0) / 0x800 == 2
  {
    hide Holds;
    AtPrefix(es, later, i);
    EntryHolds(s, es + later, i);
    DataIsThere(s, At(es, i), es[i]);
  }

  lemma FirstSize(es: seq<Entry>)
    requires es != []
    ensures At(es, |es|) >= 14
  {
    AtGrows(es, 0, |es|);
  }

  lemma DataIsThere(s: seq<byte>, at: nat, e: Entry)
    requires Holds(s, at, e, true) || Holds(s, at, e, false)
    ensures at + 10 + |e.data| <= |s| && s[at + 10..at + 10 + |e.data|] == e.data
  {
  }

  // ----- building the frame

  lemma SliceOfSlice(f: seq<byte>, from: nat, to: nat, a: nat, b: nat)
    requires from <= a <= b <= to <= |f|
    ensures f[from..to][a - from..b - from] == f[a..b]
  {
    forall k | 0 <= k < b - a
      ensures f[from..to][a - from..b - from][k] == f[a..b][k]
    {
      assert f[from..to][a - from + k] == f[a + k];
    }
  }

  lemma MakeHolds(f: seq<byte>, at: nat, e: Entry)
    requires ETH_HEADER <= at && at + 12 + |e.data| <= |f|
    requires |e.data| < 0x800 && e.adp < 0x1_0000 && e.ado < 0x1_0000
    requires f[at] == e.command && f[at + 1] == e.index
    requires Little2At(f, at + 2) == e.adp && Little2At(f, at + 4) == e.ado
    requires Little2At(f, at + 6) == |e.data| + if e.more then FOLLOWS else 0
    requires f[at + 10..at + 10 + |e.data|] == e.data
    requires f[at + 10 + |e.data|] == 0 && f[at + 11 + |e.data|] == 0
    ensures Holds(f[ETH_HEADER..at + 12 + |e.data|], at - ETH_HEADER, e, e.more)
  {
    var n := |e.data|;
    var s := f[ETH_HEADER..at + 12 + n];
    SliceOfSlice(f, ETH_HEADER, at + 12 + n, at + 10, at + 10 + n);
  }

  /** Moving a datagram's bytes unchanged to another frame keeps it. */
  lemma HoldsSame(s: seq<byte>, t: seq<byte>, at: nat, e: Entry, follows: bool)
    requires Holds(s, at, e, follows) && at + 12 + |e.data| <= |t|
    requires forall k | at <= k < at + 12 + |e.data| :: t[k] == s[k]
    ensures Holds(t, at, e, follows)
  {
    var n := |e.data|;
    assert t[at + 10..at + 10 + n] == s[at + 10..at + 10 + n];
  }

  /** Setting the follows-flag in the length field of a datagram. */
  lemma HoldsMarked(s: seq<byte>, t: seq<byte>, at: nat, e: Entry, follows: bool)
    requires Holds(s, at, e, follows) && at + 12 + |e.data| <= |t|
    requires forall k | at <= k < at + 12 + |e.data| && k != at + 7 :: t[k] == s[k]
    requires t[at + 7] == if s[at + 7] < 0x80 then s[at + 7] + 0x80 else s[at + 7]
    ensures Holds(t, at, e, true)
  {
    var n := |e.data|;
    assert t[at + 10..at + 10 + n] == s[at + 10..at + 10 + n];
  }

  /** A frame whose first datagram is marked, whose length field is adjusted, and which holds a
      further datagram behind the others. */
  lemma Extended(s: seq<byte>, es: seq<Entry>, t: seq<byte>, e: Entry)
    requires es != [] && Frame(s, es) && |s| + 12 + |e.data| == |t| <= MAX_FRAME - ETH_HEADER
    requires |s| >= 14 && Little2At(t, 0) == EC_TYPE + |t| - 2
    requires forall k | 2 <= k < |s| && k != 9 :: t[k] == s[k]
    requires t[9] == if s[9] < 0x80 then s[9] + 0x80 else s[9]
    requires Holds(t, |s|, e, e.more)
    ensures Frame(t, es + [e])
  {
    hide At, Holds, Little2At, Flag;
    EndMoves(es, e);
    ExtendedAll(s, es, t, e, |es| + 1);
  }

  lemma {:induction false} ExtendedAll(s: seq<byte>, es: seq<Entry>, t: seq<byte>, e: Entry, n: nat)
    requires es != [] && Frame(s, es) && |t| >= |s| >= 14 && n <= |es| + 1
    requires forall k | 2 <= k < |s| && k != 9 :: t[k] == s[k]
    requires t[9] == if s[9] < 0x80 then s[9] + 0x80 else s[9]
    requires Holds(t, |s|, e, e.more)
    ensures HoldsAll(t, es + [e], n)
  {
    hide At, Holds, Flag, Frame;
    if n > 0 {
      ExtendedAll(s, es, t, e, n - 1);
      ExtendedEntry(s, es, t, e, n - 1);
    }
  }

  /** `f` is `s` behind an Ethernet header, with `more` added to its length and the first
      datagram flagged. */
  predicate Marked(s: seq<byte>, f: seq<byte>, more: nat) {
    && |f| >= |s| + ETH_HEADER && |s| >= 14
    && Little2At(f, ETH_HEADER) == EC_TYPE + |s| - 2 + more
    && (forall k | 2 <= k < |s| && k != 9 :: f[ETH_HEADER + k] == s[k])
    && f[ETH_HEADER + 9] == if s[9] < 0x80 then s[9] + 0x80 else s[9]
  }

  lemma Chain(s: seq<byte>, es: seq<Entry>, marked: seq<byte>, f: seq<byte>, e: Entry)
    requires es != [] && Frame(s, es) && Marked(s, marked, 12 + |e.data|) && |marked| == ETH_HEADER + |s|
    requires |f| == ETH_HEADER + |s| + 12 + |e.data| <= MAX_FRAME && f[..|marked|] == marked
    requires Holds(f[ETH_HEADER..], |s|, e, e.more)
    ensures Frame(f[ETH_HEADER..], es + [e])
    ensures At(es + [e], |es|) == |s| && f[ETH_HEADER..][|s| + 10..|s| + 10 + |e.data|] == e.data
  {
    hide At, Holds, Flag;
    var t := f[ETH_HEADER..];
    forall k | 0 <= k < |s|
      ensures t[k] == marked[ETH_HEADER + k]
    {
      assert t[k] == f[..|marked|][ETH_HEADER + k];
    }
    Extended(s, es, t, e);
    EndMoves(es, e);
    DataIsThere(t, |s|, e);
  }

  lemma EndMoves(es: seq<Entry>, e: Entry)
    ensures At(es + [e], |es|) == At(es, |es|) && At(es + [e], |es| + 1) == At(es, |es|) + 12 + |e.data|
  {
    AtPrefix(es, [e], |es|);
  }

  lemma ExtendedEntry(s: seq<byte>, es: seq<Entry>, t: seq<byte>, e: Entry, i: nat)
    requires es != [] && Frame(s, es) && |t| >= |s| >= 14 && i <= |es|
    requires forall k | 2 <= k < |s| && k != 9 :: t[k] == s[k]
    requires t[9] == if s[9] < 0x80 then s[9] + 0x80 else s[9]
    requires Holds(t, |s|, e, e.more)
    ensures Holds(t, At(es + [e], i), (es + [e])[i], Flag(es + [e], i))
  {
    hide At, Holds, Little2At;
    AtPrefix(es, [e], i);
    if i < |es| {
      ExtendedAt(s, es, t, i);
    }
  }

  lemma ExtendedAt(s: seq<byte>, es: seq<Entry>, t: seq<byte>, i: nat)
    requires Frame(s, es) && i < |es| && |t| >= |s| >= 14
    requires forall k | 2 <= k < |s| && k != 9 :: t[k] == s[k]
    requires t[9] == if s[9] < 0x80 then s[9] + 0x80 else s[9]
    ensures Holds(t, At(es, i), es[i], i == 0 || es[i].more)
  {
    hide Holds, Little2At;
    EntryHolds(s, es, i);
    AtGrows(es, i, |es|);
    if i == 0 {
      HoldsMarked(s, t, 2, es[0], Flag(es, 0));
    } else {
      AtGrows(es, 0, i);
      HoldsSame(s, t, At(es, i), es[i], es[i].more);
    }
  }

  /** One transmit buffer with the length of the frame in it. */
  class TxBuffer {
    const frame: array<byte>
    var txbuflength: nat
    ghost var added: seq<Entry>

    /** The frame without its Ethernet header, as it comes back in the receive buffer. */
    ghost function Stripped(): seq<byte>
      requires ETH_HEADER <= txbuflength <= frame.Length
      reads this, frame
    {
      frame[ETH_HEADER..txbuflength]
    }

    ghost predicate Valid()
      reads this, frame
    {
      && added != []
      && ETH_HEADER <= txbuflength <= frame.Length
      && Frame(Stripped(), added)
    }

    constructor ()
      ensures frame.Length == MAX_FRAME && fresh(frame)
    {
      frame := new byte[MAX_FRAME](_ => 0);
      txbuflength := 0;
      added := [];
    }

    method WriteDatagramData(at: nat, command: byte, length: nat, data: seq<byte>)
      requires at + length <= frame.Length && (IsRead(command) || |data| == length)
      modifies frame
      ensures frame[at..at + length] == DataPart(command, length, data)
      ensures forall k | 0 <= k < frame.Length && !(at <= k < at + length) :: frame[k] == old(frame[k])
    {
      if length > 0 {
        if IsRead(command) {
          forall k | 0 <= k < length {
            frame[at + k] := 0;
          }
        } else {
          forall k | 0 <= k < length {
            frame[at + k] := data[k];
          }
        }
      }
    }

    /** Command, index, addresses, length field, data part and a zero counter, from `at` on.
        The interrupt field keeps what the buffer held. */
    method PutDatagram(at: nat, command: byte, index: byte, adp: nat, ado: nat, length: nat, data: seq<byte>, follows: bool)
      requires ETH_HEADER <= at && at + 12 + length <= frame.Length && length < 0x800
      requires adp < 0x1_0000 && ado < 0x1_0000 && (IsRead(command) || |data| == length)
      modifies frame
      ensures frame[..at] == old(frame[..at])
      ensures Holds(frame[ETH_HEADER..at + 12 + length], at - ETH_HEADER,
                    Entry(command, index, adp, ado, DataPart(command, length, data), follows), follows)
    {
      hide Holds, DataPart;
      PutHeader(at, command, index, adp, ado, length + if follows then FOLLOWS else 0);
      PutData(at + 10, command, length, data);
      ghost var e := Entry(command, index, adp, ado, DataPart(command, length, data), follows);
      MakeHolds(frame[..], at, e);
      assert frame[..][ETH_HEADER..at + 12 + length] == frame[ETH_HEADER..at + 12 + length];
    }

    /** The data part and a zero counter behind it. */
    method PutData(at: nat, command: byte, length: nat, data: seq<byte>)
      requires at + length + 2 <= frame.Length && (IsRead(command) || |data| == length)
      modifies frame
      ensures frame[..][at..at + length] == DataPart(command, length, data)
      ensures frame[at + length] == 0 && frame[at + length + 1] == 0
      ensures forall k | 0 <= k < at :: frame[k] == old(frame[k])
    {
      hide DataPart;
      WriteDatagramData(at, command, length, data);
      ghost var part := frame[at..at + length];
      frame[at + length] := 0;
      frame[at + length + 1] := 0;
      assert frame[at..at + length] == part;
    }

    method PutHeader(at: nat, command: byte, index: byte, adp: nat, ado: nat, dlength: nat)
      requires at + 10 <= frame.Length && adp < 0x1_0000 && ado < 0x1_0000 && dlength < 0x1_0000
      modifies frame
      ensures frame[..at] == old(frame[..at])
      ensures frame[at] == command && frame[at + 1] == index
      ensures Little2At(frame[..], at + 2) == adp && Little2At(frame[..], at + 4) == ado
      ensures Little2At(frame[..], at + 6) == dlength
    {
      frame[at] := command;
      frame[at + 1] := index;
      frame[at + 2] := adp % 0x100;
      frame[at + 3] := adp / 0x100;
      frame[at + 4] := ado % 0x100;
      frame[at + 5] := ado / 0x100;
      frame[at + 6] := dlength % 0x100;
      frame[at + 7] := dlength / 0x100;
    }

    /** The first datagram of a frame. */
    method SetupDatagram(command: byte, index: byte, adp: nat, ado: nat, length: nat, data: seq<byte>)
      requires frame.Length == MAX_FRAME && ETH_HEADER + EC_HEADER + EC_WKC + length <= MAX_FRAME
      requires adp < 0x1_0000 && ado < 0x1_0000 && (IsRead(command) || |data| == length)
      modifies this, frame
      ensures Valid() && txbuflength == ETH_HEADER + EC_HEADER + EC_WKC + length
      ensures added == [Entry(command, index, adp, ado, DataPart(command, length, data), false)]
      ensures Stripped()[EC_HEADER..EC_HEADER + length] == DataPart(command, length, data)
    {
      var elength := EC_TYPE + EC_HEADER + length;
      frame[ETH_HEADER] := elength % 0x100;
      frame[ETH_HEADER + 1] := elength / 0x100;
      PutDatagram(ETH_HEADER + EC_ELENGTH, command, index, adp, ado, length, data, false);
      txbuflength := ETH_HEADER + EC_HEADER + EC_WKC + length;
      added := [Entry(command, index, adp, ado, DataPart(command, length, data), false)];
      assert frame[..16][14] == frame[14] && frame[..16][15] == frame[15];
      assert Stripped() == frame[ETH_HEADER..ETH_HEADER + EC_ELENGTH + 12 + length];
    }

    /** Chains a datagram to the frame and returns where its data part will come back. */
    method AddDatagram(command: byte, index: byte, more: bool, adp: nat, ado: nat, length: nat, data: seq<byte>)
      returns (offset: nat)
      requires frame.Length == MAX_FRAME && Valid() && txbuflength + EC_HEADER - EC_ELENGTH + EC_WKC + length <= MAX_FRAME
      requires adp < 0x1_0000 && ado < 0x1_0000 && (IsRead(command) || |data| == length)
      modifies this, frame
      ensures Valid() && txbuflength == old(txbuflength) + 12 + length
      ensures added == old(added) + [Entry(command, index, adp, ado, DataPart(command, length, data), more)]
      ensures offset == At(added, |old(added)|) + 10
      ensures offset + length <= |Stripped()| && Stripped()[offset..offset + length] == DataPart(command, length, data)
    {
      hide At, Holds, Flag, DataPart;
      ghost var was := Stripped();
      ghost var es := added;
      var prevlength := txbuflength;
      MarkFirst(length);
      ghost var marked := frame[..prevlength];
      PutDatagram(prevlength, command, index, adp, ado, length, data, more);
      txbuflength := prevlength + EC_HEADER - EC_ELENGTH + EC_WKC + length;
      ghost var e := Entry(command, index, adp, ado, DataPart(command, length, data), more);
      added := added + [e];
      offset := prevlength + EC_HEADER - EC_ELENGTH - ETH_HEADER;
      assert frame[..txbuflength][..prevlength] == frame[..prevlength];
      assert frame[..txbuflength][ETH_HEADER..] == Stripped();
      Chain(was, es, marked, frame[..txbuflength], e);
    }

    /** Makes room in the length field of the frame and flags the first datagram. */
    method MarkFirst(length: nat)
      requires Valid() && txbuflength + 12 + length <= MAX_FRAME
      modifies frame
      ensures |Stripped()| == |old(Stripped())| && Marked(old(Stripped()), frame[..txbuflength], 12 + length)
    {
      hide At, Holds, Flag;
      ghost var was := Stripped();
      FirstSize(added);
      var elength := frame[14] as int + 0x100 * (frame[15] as int) + EC_HEADER + length;
      assert was[0] == frame[14] && was[1] == frame[15];
      frame[14] := elength % 0x100;
      frame[15] := elength / 0x100;
      if frame[23] < 0x80 {
        frame[23] := frame[23] + 0x80;
      }
    }
  }

  /** The data part that is sent: zeros for reading commands. */
  function DataPart(command: byte, length: nat, data: seq<byte>): (part: seq<byte>)
    requires IsRead(command) || |data| == length
    ensures |part| == length
  {
    if IsRead(command) then seq(length, _ => 0) else data
  }

}
