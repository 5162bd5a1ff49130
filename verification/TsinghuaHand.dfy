/**
 Commands to the hand: each becomes a list of CAN frames, one of which goes out per bus cycle.
 Pushing a command and asking for a frame are atomic steps here; that the queue between the
 two threads is a FIFO is shown in LockFreeQueue.
 */
module TsinghuaHand {
  type byte = x: int | 0 <= x < 256
  type word = x: int | 0 <= x < 0x1_0000

  datatype Message = Message(id: nat, dlc: nat, data: seq<byte>)

  // ----- commands

  datatype Motion = Motion(enable: byte, angle: byte)

  datatype SetPosition = SetPosition(
    thumbRotation: Motion, thumb: Motion, fore: Motion, middle: Motion, ring: Motion, little: Motion)

  datatype Stop = Stop(stop: bool, thumbRotation: bool, thumb: bool, fore: bool, middle: bool, ring: bool, little: bool)

  datatype Bend = Bend(enable: byte, vel: byte, startAngle: byte, maxAngle: byte)

  datatype Finger = Finger(bend: Bend, threshold: word)

  datatype MotionCtrl = MotionCtrl(rotation: Bend, thumb: Finger, fore: Finger, middle: Finger, ring: Finger, little: Finger)

  // ----- frames

  /** The packed frame identifier: sequence number, frame count, command, five bits of id. */
  function FrameId(seqNo: byte, count: byte, cmd: byte, id: nat): nat {
    seqNo + 0x100 * (count as int) + 0x1_0000 * (cmd as int) + 0x100_0000 * (id % 0x20)
  }

  /** A frame with its data padded to eight bytes. */
  function Frame(seqNo: byte, count: byte, cmd: byte, id: nat, data: seq<byte>): (m: Message)
    requires |data| <= 8
    ensures |m.data| == 8
  {
    Message(FrameId(seqNo, count, cmd, id), |data|, data + seq(8 - |data|, _ => 0))
  }

  function QueryStatus(id: nat): Message {
    Frame(1, 1, 0xF1, id, [0])
  }

  function PosFrames(id: nat, c: SetPosition): seq<Message> {
    [Frame(1, 2, 0x10, id, [c.thumbRotation.enable, c.thumbRotation.angle, c.thumb.enable, c.thumb.angle,
                            c.fore.enable, c.fore.angle, c.middle.enable, c.middle.angle]),
     Frame(2, 2, 0x10, id, [c.ring.enable, c.ring.angle, c.little.enable, c.little.angle]),
     QueryStatus(id)]
  }

  function Flag(b: bool): byte {
    if b then 1 else 0
  }

  function StopFrames(id: nat, c: Stop): seq<Message> {
    [Frame(1, 1, if c.stop then 0x20 else 0x30, id,
           [Flag(c.thumbRotation), Flag(c.thumb), Flag(c.fore), Flag(c.middle), Flag(c.ring), Flag(c.little)])]
  }

  function High(w: word): byte {
    w / 0x100
  }

  function Low(w: word): byte {
    w % 0x100
  }

  /** The five data parts of a motion control command. */
  function Part(c: MotionCtrl, k: nat): (part: seq<byte>)
    requires k < 5
    ensures |part| == if k < 4 then 8 else 2
  {
    match k
    case 0 => [c.rotation.enable, c.rotation.vel, c.rotation.startAngle, c.rotation.maxAngle,
               c.thumb.bend.enable, c.thumb.bend.vel, c.thumb.bend.startAngle, c.thumb.bend.maxAngle]
    case 1 => [High(c.thumb.threshold), Low(c.thumb.threshold),
               c.fore.bend.enable, c.fore.bend.vel, c.fore.bend.startAngle, c.fore.bend.maxAngle,
               High(c.fore.threshold), Low(c.fore.threshold)]
    case 2 => [c.middle.bend.enable, c.middle.bend.vel, c.middle.bend.startAngle, c.middle.bend.maxAngle,
               High(c.middle.threshold), Low(c.middle.threshold), c.ring.bend.enable, c.ring.bend.vel]
    case 3 => [c.ring.bend.startAngle, c.ring.bend.maxAngle, High(c.ring.threshold), Low(c.ring.threshold),
               c.little.bend.enable, c.little.bend.vel, c.little.bend.startAngle, c.little.bend.maxAngle]
    case 4 => [High(c.little.threshold), Low(c.little.threshold)]
  }

  function CtrlFrames(id: nat, c: MotionCtrl): seq<Message> {
    [Frame(1, 1, 0x4A, id, [0]),
     Frame(1, 5, 0x40, id, Part(c, 0)), Frame(2, 5, 0x40, id, Part(c, 1)), Frame(3, 5, 0x40, id, Part(c, 2)),
     Frame(4, 5, 0x40, id, Part(c, 3)), Frame(5, 5, 0x40, id, Part(c, 4)),
     Frame(1, 1, 0x4A, id, [1]),
     QueryStatus(id)]
  }

  // ----- the receiving side, from the identifier fields alone

  function SeqOf(m: Message): nat {
    m.id % 0x100
  }

  function CountOf(m: Message): nat {
    m.id / 0x100 % 0x100
  }

  function CmdOf(m: Message): nat {
    m.id / 0x1_0000 % 0x100
  }

  function DataOf(m: Message): seq<byte> {
    if m.dlc <= |m.data| then m.data[..m.dlc] else m.data
  }

  /** A reassembled command: command number and data. */
  datatype Packet = Packet(cmd: nat, data: seq<byte>)

  /** Where reassembly stands: data so far and the sequence number expected next. */
  datatype Partial = Partial(data: seq<byte>, next: nat)

  const FRESH := Partial([], 1)

  /** Frames in sequence are joined until the last of the announced count; a frame out of
      sequence drops what was collected. */
  function Advance(p: Partial, m: Message): (Partial, seq<Packet>) {
    if SeqOf(m) != p.next || SeqOf(m) > CountOf(m) then (FRESH, [])
    else if SeqOf(m) < CountOf(m) then (Partial(p.data + DataOf(m), p.next + 1), [])
    else (FRESH, [Packet(CmdOf(m), p.data + DataOf(m))])
  }

  function Reassembled(p: Partial, ms: seq<Message>): (seq<Packet>, Partial)
    decreases |ms|
  {
    if ms == [] then ([], p)
    else
      var first := Advance(p, ms[0]);
      var rest := Reassembled(first.0, ms[1..]);
      (first.1 + rest.0, rest.1)
  }

  lemma {:induction false} ReassembledAppend(p: Partial, a: seq<Message>, b: seq<Message>)
    ensures Reassembled(p, a + b)
         == (Reassembled(p, a).0 + Reassembled(Reassembled(p, a).1, b).0, Reassembled(Reassembled(p, a).1, b).1)
    decreases |a|
  {
    hide Advance;
    if a == [] {
      assert a + b == b && [] + Reassembled(p, b).0 == Reassembled(p, b).0;
    } else {
      assert (a + b)[1..] == a[1..] + b && (a + b)[0] == a[0];
      ReassembledAppend(Advance(p, a[0]).0, a[1..], b);
      var first := Advance(p, a[0]);
      var front := Reassembled(first.0, a[1..]);
      var back := Reassembled(front.1, b);
      assert first.1 + (front.0 + back.0) == (first.1 + front.0) + back.0;
    }
  }

  /** The layout of a motion control command. */
  function Unpacked(s: seq<byte>): MotionCtrl
    requires |s| == 34
  {
    MotionCtrl(Bend(s[0], s[1], s[2], s[3]), FingerAt(s, 4), FingerAt(s, 10), FingerAt(s, 16), FingerAt(s, 22), FingerAt(s, 28))
  }

  function FingerAt(s: seq<byte>, at: nat): Finger
    requires at + 6 <= |s|
  {
    Finger(Bend(s[at], s[at + 1], s[at + 2], s[at + 3]), (s[at + 4] as int) * 0x100 + s[at + 5] as int)
  }

  lemma FrameFields(seqNo: byte, count: byte, cmd: byte, id: nat, data: seq<byte>)
    requires |data| <= 8
    ensures var m := Frame(seqNo, count, cmd, id, data);
            SeqOf(m) == seqNo && CountOf(m) == count && CmdOf(m) == cmd && DataOf(m) == data
  {
    var x := FrameId(seqNo, count, cmd, id);
    var u := id % 0x20;
    assert x / 0x100 == count + 0x100 * (cmd as int) + 0x1_0000 * u;
    assert x / 0x1_0000 == cmd + 0x100 * u;
  }

  /** One frame put through the receiver. */
  lemma Received(p: Partial, seqNo: byte, count: byte, cmd: byte, id: nat, data: seq<byte>)
    requires |data| <= 8 && seqNo == p.next && seqNo <= count
    ensures Reassembled(p, [Frame(seqNo, count, cmd, id, data)])
         == if seqNo < count then ([], Partial(p.data + data, p.next + 1)) else ([Packet(cmd, p.data + data)], FRESH)
  {
    FrameFields(seqNo, count, cmd, id, data);
    var m := Frame(seqNo, count, cmd, id, data);
    assert [m][1..] == [];
    assert Reassembled(Advance(p, m).0, []) == ([], Advance(p, m).0);
    assert Advance(p, m).1 + [] == Advance(p, m).1;
  }

  /** The 34 bytes of a motion control command. */
  function Packed(c: MotionCtrl): (s: seq<byte>)
    ensures |s| == 34
  {
    Part(c, 0) + Part(c, 1) + Part(c, 2) + Part(c, 3) + Part(c, 4)
  }

  lemma UnpackedPacked(c: MotionCtrl)
    ensures Unpacked(Packed(c)) == c
  {
    var s := Packed(c);
    assert s[..8] == Part(c, 0) && s[8..16] == Part(c, 1) && s[16..24] == Part(c, 2);
    assert s[24..32] == Part(c, 3) && s[32..] == Part(c, 4);
  }

  /** One frame more, in sequence. */
  lemma Extend(ms: seq<Message>, x: seq<Packet>, q: Partial, seqNo: byte, count: byte, cmd: byte, id: nat, data: seq<byte>)
    requires Reassembled(FRESH, ms) == (x, q)
    requires |data| <= 8 && seqNo == q.next && seqNo <= count
    ensures Reassembled(FRESH, ms + [Frame(seqNo, count, cmd, id, data)])
         == if seqNo < count then (x, Partial(q.data + data, q.next + 1)) else (x + [Packet(cmd, q.data + data)], FRESH)
  {
    hide Advance, Reassembled, Frame;
    Received(q, seqNo, count, cmd, id, data);
    ReassembledAppend(FRESH, ms, [Frame(seqNo, count, cmd, id, data)]);
    assert x + [] == x;
  }

  /** Frames `n` to five of one command, given the first `n - 1`. */
  lemma FiveFrames(ms: seq<Message>, x: seq<Packet>, id: nat, c: MotionCtrl)
    requires Reassembled(FRESH, ms) == (x, FRESH)
    ensures Reassembled(FRESH, ms + CtrlFrames(id, c)[1..6]) == (x + [Packet(0x40, Packed(c))], FRESH)
  {
    hide Advance, Reassembled, Frame, Part;
    var f := CtrlFrames(id, c)[1..6];
    var data := Part(c, 0);
    assert FRESH.data + data == data;
    Extend(ms, x, FRESH, 1, 5, 0x40, id, Part(c, 0));
    Extend(ms + [f[0]], x, Partial(data, 2), 2, 5, 0x40, id, Part(c, 1));
    data := data + Part(c, 1);
    Extend(ms + [f[0]] + [f[1]], x, Partial(data, 3), 3, 5, 0x40, id, Part(c, 2));
    data := data + Part(c, 2);
    Extend(ms + [f[0]] + [f[1]] + [f[2]], x, Partial(data, 4), 4, 5, 0x40, id, Part(c, 3));
    data := data + Part(c, 3);
    Extend(ms + [f[0]] + [f[1]] + [f[2]] + [f[3]], x, Partial(data, 5), 5, 5, 0x40, id, Part(c, 4));
    assert ms + f == ms + [f[0]] + [f[1]] + [f[2]] + [f[3]] + [f[4]];
  }

  /** The five set-frames are exactly the 34 bytes of the command, between the stop and the
      start frame, and nothing is left over. */
  lemma CtrlReassembles(id: nat, c: MotionCtrl)
    ensures Reassembled(FRESH, CtrlFrames(id, c))
         == ([Packet(0x4A, [0]), Packet(0x40, Packed(c)), Packet(0x4A, [1]), Packet(0xF1, [0])], FRESH)
    ensures Unpacked(Packed(c)) == c
  {
    hide Advance, Reassembled, Frame, Part, Unpacked, Packed;
    UnpackedPacked(c);
    var f := CtrlFrames(id, c);
    NothingYet();
    assert FRESH.data + [0] == [0] && FRESH.data + [1] == [1];
    Extend([], [], FRESH, 1, 1, 0x4A, id, [0]);
    var x := [] + [Packet(0x4A, [0])];
    var ms := [] + [f[0]];
    FiveFrames(ms, x, id, c);
    x := x + [Packet(0x40, Packed(c))];
    ms := ms + f[1..6];
    Extend(ms, x, FRESH, 1, 1, 0x4A, id, [1]);
    x := x + [Packet(0x4A, [1])];
    ms := ms + [f[6]];
    Extend(ms, x, FRESH, 1, 1, 0xF1, id, [0]);
    assert f == ms + [f[7]];
    assert x + [Packet(0xF1, [0])] == [Packet(0x4A, [0]), Packet(0x40, Packed(c)), Packet(0x4A, [1]), Packet(0xF1, [0])];
  }

  /** The two position frames are one packet of twelve bytes. */
  lemma PosReassembles(id: nat, c: SetPosition)
    ensures Reassembled(FRESH, PosFrames(id, c))
         == ([Packet(0x10, [c.thumbRotation.enable, c.thumbRotation.angle, c.thumb.enable, c.thumb.angle,
                            c.fore.enable, c.fore.angle, c.middle.enable, c.middle.angle,
                            c.ring.enable, c.ring.angle, c.little.enable, c.little.angle]),
              Packet(0xF1, [0])], FRESH)
  {
    hide Advance, Reassembled, Frame;
    var f := PosFrames(id, c);
    NothingYet();
    var a := [c.thumbRotation.enable, c.thumbRotation.angle, c.thumb.enable, c.thumb.angle,
              c.fore.enable, c.fore.angle, c.middle.enable, c.middle.angle];
    var b := [c.ring.enable, c.ring.angle, c.little.enable, c.little.angle];
    assert FRESH.data + a == a && FRESH.data + [0] == [0];
    Extend([], [], FRESH, 1, 2, 0x10, id, a);
    Extend([] + [f[0]], [], Partial(a, 2), 2, 2, 0x10, id, b);
    Extend([] + [f[0]] + [f[1]], [] + [Packet(0x10, a + b)], FRESH, 1, 1, 0xF1, id, [0]);
    assert f == [] + [f[0]] + [f[1]] + [f[2]];
    assert a + b == [c.thumbRotation.enable, c.thumbRotation.angle, c.thumb.enable, c.thumb.angle,
                     c.fore.enable, c.fore.angle, c.middle.enable, c.middle.angle,
                     c.ring.enable, c.ring.angle, c.little.enable, c.little.angle];
    assert [] + [Packet(0x10, a + b)] + [Packet(0xF1, [0])] == [Packet(0x10, a + b), Packet(0xF1, [0])];
  }

  /** A stop command is one packet of six flags, with its own command number. */
  lemma StopReassembles(id: nat, c: Stop)
    ensures Reassembled(FRESH, StopFrames(id, c))
         == ([Packet(if c.stop then 0x20 else 0x30,
                     [Flag(c.thumbRotation), Flag(c.thumb), Flag(c.fore), Flag(c.middle), Flag(c.ring), Flag(c.little)])], FRESH)
  {
    hide Advance, Reassembled, Frame;
    NothingYet();
    var a := [Flag(c.thumbRotation), Flag(c.thumb), Flag(c.fore), Flag(c.middle), Flag(c.ring), Flag(c.little)];
    var cmd: byte := if c.stop then 0x20 else 0x30;
    assert FRESH.data + a == a;
    Extend([], [], FRESH, 1, 1, cmd, id, a);
    assert [] + StopFrames(id, c) == StopFrames(id, c) && [] + [Packet(cmd, a)] == [Packet(cmd, a)];
  }

  lemma NothingYet()
    ensures Reassembled(FRESH, []) == ([], FRESH)
  {
  }
}
