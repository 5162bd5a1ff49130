/**
 CANopen-over-EtherCAT SDO upload: the value is put together from the answers of the slave.
 */
module SdoRead {
  import opened SdoWrite

  const UP_REQUEST := 0x40
  const UP_REQUEST_CA := 0x50
  const SEGMENT_REQUEST := 0x60

  /** What a request brings back: nothing (not sent, or no answer in time), a CoE message of
      service "SDO response", or some other message. */
  datatype Reply = Silent | Response(frame: Frame) | Other

  /** How an upload stands: asking for more, complete, given up, about to copy a negative number
      of bytes, or about to copy past the end of the caller's buffer. */
  datatype Upload = Asking | Complete | Failed | Negative | Overrun

  /** The fields of a response lie within the mailbox, and a first response has its header. */
  predicate Formed(f: Frame, header: nat) {
    header <= f.length <= |f.body| + 3 && f.length < 0x1_0000
  }

  /** Sizes are signed 32-bit numbers. */
  function Signed(n: nat): int {
    if n < 0x8000_0000 then n else n - 0x1_0000_0000
  }

  function Big4(s: seq<byte>): (n: nat)
    requires |s| == 4
    ensures n < 0x1_0000_0000
  {
    s[0] as int + 0x100 * (s[1] as int) + 0x1_0000 * (s[2] as int) + 0x100_0000 * (s[3] as int)
  }

  /** Data bytes of a segment; a last segment of seven may name some of them unused. */
  function SegmentData(f: Frame): seq<byte>
    requires Formed(f, 3)
  {
    var n := f.length - 3;
    var unused := f.command / 2 % 8;
    f.body[..if f.command % 2 == 1 && n == 7 then n - unused else n]
  }

  predicate IsSegment(reply: Reply) {
    reply.Response? && reply.frame.command / 0x20 == 0
  }

  predicate Last(f: Frame) {
    f.command % 2 == 1
  }

  predicate WellFormed(replies: seq<Reply>, header: nat) {
    forall k | 0 <= k < |replies| :: replies[k].Response? ==> Formed(replies[k].frame, header)
  }

  /** Data collected from the segments, and how the upload then stands.  A silent slave is
      asked again. */
  function Collected(replies: seq<Reply>): (r: (seq<byte>, Upload))
    requires WellFormed(replies, 3)
  {
    if replies == [] then ([], Asking)
    else if replies[0].Silent? then Collected(replies[1..])
    else if !IsSegment(replies[0]) then ([], Failed)
    else
      var data := SegmentData(replies[0].frame);
      if Last(replies[0].frame) then (data, Complete)
      else
        var rest := Collected(replies[1..]);
        (data + rest.0, rest.1)
  }

  /** The outcome for a buffer of `room` bytes: what is copied to it, and how the upload stands. */
  function Uploaded(index: nat, room: nat, replies: seq<Reply>): (r: (seq<byte>, Upload))
    requires WellFormed(replies, 3) && (|replies| > 0 ==> WellFormed(replies[..1], 10))
  {
    if |replies| == 0 || !replies[0].Response? || replies[0].frame.body[..2] != Little2(index) then ([], Failed)
    else
      var f := replies[0].frame;
      if f.command / 2 % 2 == 1 then
        var n := 4 - f.command / 4 % 4;
        if n <= room then (f.body[3..3 + n], Complete) else ([], Failed)
      else
        var announced := Signed(Big4(f.body[3..7]));
        var n := f.length - 10;
        if announced > room then ([], Failed)
        else if announced < 0 then ([], Negative)
        else if n < announced then
          var rest := Collected(replies[1..]);
          (f.body[7..7 + n] + rest.0, rest.1)
        else (f.body[7..7 + announced], Complete)
  }

  /** Copies the data of a segment to `p` at `hp`, if it fits; the source does not look. */
  method TakeSegment(p: array<byte>, hp: nat, f: Frame) returns (n: nat, fits: bool)
    requires Formed(f, 3) && hp <= p.Length
    modifies p
    ensures n == |SegmentData(f)| && (fits <==> hp + n <= p.Length)
    ensures fits ==> p[..hp + n] == old(p[..hp]) + SegmentData(f)
  {
    n := f.length - 3;
    if f.command % 2 == 1 && n == 7 {
      n := n - f.command / 2 % 8;
    }
    fits := hp + n <= p.Length;
    if fits {
      forall k | 0 <= k < n {
        p[hp + k] := f.body[k];
      }
    }
  }

  /** Asks for segments until the last one, writing them to `p` from `start` on. */
  method ReadSegments(p: array<byte>, start: nat, replies: seq<Reply>) returns (size: nat, commands: seq<nat>, state: Upload)
    requires WellFormed(replies, 3) && start <= p.Length
    modifies p
    ensures state == Overrun <==> start + |Collected(replies).0| > p.Length
    ensures state != Overrun ==>
              && size == start + |Collected(replies).0| && state == Collected(replies).1
              && p[..size] == old(p[..start]) + Collected(replies).0
    ensures |commands| <= |replies| && (state == Asking ==> |commands| == |replies|)
    ensures forall k | 0 <= k < |commands| :: commands[k] == SEGMENT_REQUEST + k % 2 * TOGGLE
  {
    hide SegmentData, Formed;
    ghost var all := p[..start] + Collected(replies).0;
    var hp, i, toggle, notLast := start, 0, 0, true;
    size, commands, state := start, [], Asking;
    assert replies[0..] == replies;
    while notLast && i < |replies|
      invariant hp <= size <= |all| && size <= p.Length && i == |commands| <= |replies| && toggle == i % 2 * TOGGLE
      invariant notLast ==> hp == size && state == Asking
      invariant notLast ==> p[..size] + Collected(replies[i..]).0 == all
      invariant notLast ==> Collected(replies[i..]).1 == Collected(replies).1
      invariant !notLast && state == Overrun ==> |all| > p.Length
      invariant !notLast && state != Overrun ==> p[..size] == all && state == Collected(replies).1 != Asking
      invariant forall k | 0 <= k < |commands| :: commands[k] == SEGMENT_REQUEST + k % 2 * TOGGLE
      decreases |replies| - i
    {
      commands := commands + [SEGMENT_REQUEST + toggle];
      ghost var rest := replies[i + 1..];
      assert replies[i..][0] == replies[i] && replies[i..][1..] == rest;
      if replies[i].Response? && replies[i].frame.command / 0x20 == 0 {
        var f := replies[i].frame;
        ghost var before := p[..hp];
        var n, fits := TakeSegment(p, hp, f);
        assert before + (SegmentData(f) + Collected(rest).0) == (before + SegmentData(f)) + Collected(rest).0;
        if !fits {
          notLast, state := false, Overrun;
        } else {
          if f.command % 2 == 1 {
            notLast, state := false, Complete;
          } else {
            hp := hp + n;
          }
          size := size + n;
        }
      } else if !replies[i].Silent? {
        notLast, state := false, Failed;
      }
      toggle := TOGGLE - toggle;
      i := i + 1;
    }
  }

  /** Uploads a value into `p`, whose length is the room announced by the caller; `size` bytes are
      returned. */
  method SdoRead(index: nat, ca: bool, p: array<byte>, replies: seq<Reply>)
    returns (size: nat, commands: seq<nat>, state: Upload)
    requires WellFormed(replies, 3) && (|replies| > 0 ==> WellFormed(replies[..1], 10))
    modifies p
    ensures state == Overrun <==> |Uploaded(index, p.Length, replies).0| > p.Length
    ensures state != Overrun ==> state == Uploaded(index, p.Length, replies).1
    ensures state == Complete || state == Asking ==>
              size <= p.Length && p[..size] == Uploaded(index, p.Length, replies).0
    ensures |commands| > 0 && commands[0] == if ca then UP_REQUEST_CA else UP_REQUEST
    ensures forall k | 1 <= k < |commands| :: commands[k] == SEGMENT_REQUEST + (k - 1) % 2 * TOGGLE
  {
    hide Collected, SegmentData;
    size, state := p.Length, Failed;
    commands := [if ca then UP_REQUEST_CA else UP_REQUEST];
    if |replies| == 0 || !replies[0].Response? || replies[0].frame.body[..2] != Little2(index) {
      return;
    }
    var f := replies[0].frame;
    assert Formed(f, 10) by {
      assert replies[..1][0] == replies[0];
    }
    if f.command / 2 % 2 == 1 {
      var n := 4 - f.command / 4 % 4;
      if n <= p.Length {
        forall k | 0 <= k < n {
          p[k] := f.body[3 + k];
        }
        size, state := n, Complete;
      }
    } else {
      var announced := Signed(Big4(f.body[3..7]));
      if announced <= p.Length {
        var n := f.length - 10;
        if n < announced {
          forall k | 0 <= k < n {
            p[k] := f.body[7 + k];
          }
          assert p[..n] == f.body[7..7 + n];
          var more;
          size, more, state := ReadSegments(p, n, replies[1..]);
          commands := commands + more;
        } else if announced < 0 {
          state := Negative;
        } else {
          forall k | 0 <= k < announced {
            p[k] := f.body[7 + k];
          }
          size, state := announced, Complete;
        }
      }
    }
  }
}
