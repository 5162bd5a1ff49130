/**
 A motor on the bus: commands queue up, one goes out per cycle, and the last one is repeated
 until the next; statuses come back as codes.
 */
module MotorDevice {
  import opened MotorCommand

  datatype Message = Message(id: nat, rtr: nat, dlc: nat, data: seq<byte>)

  const NOTHING := Message(0, 0, 0, seq(8, _ => 0))

  function CurrentMax(t: MotorType): real {
    match t
    case S_4310 => 30.0
    case M_8112 => 60.0
    case L_10020 => 70.0
    case H_13715 => 220.0
  }

  /** What a status frame says. */
  datatype Status = Status(position: real, speed: real, current: real, temperature: int)

  /** Integer division drops the fraction. */
  function Half(x: int): int {
    if x >= 0 then x / 2 else -(-x / 2)
  }

  function StatusOf(t: MotorType, s: seq<byte>): Status
    requires |s| == 8
  {
    Status(UintToFloat(s[1] as int * 0x100 + s[2] as int, -12.5, 12.5, 16),
           UintToFloat(s[3] as int * 0x10 + s[4] as int / 0x10, -18.0, 18.0, 12),
           UintToFloat(s[4] as int % 0x10 * 0x100 + s[5] as int, -CurrentMax(t), CurrentMax(t), 12),
           Half(s[6] as int - 50))
  }

  /** A motor that sits at the commanded code reports the commanded position, low by less than
      one step: the zero offset added to the command is taken off the status. */
  lemma OffsetCancels(t: MotorType, kp: real, kd: real, position: real, spd: real, tor: real, offset: real, s: seq<byte>)
    requires |s| == 8 && -12.5 <= position + offset <= 12.5
    requires var c := CtrlBytes(CtrlCodes(t, kp, kd, position + offset, spd, tor));
             s[1] == c[3] && s[2] == c[4]
    ensures var reported := StatusOf(t, s).position - offset;
            reported <= position < reported + 25.0 / 65535.0
  {
    hide CtrlFields, UintToFloat, FloatToUint, Or;
    var codes := CtrlCodes(t, kp, kd, position + offset, spd, tor);
    CommandArrives(t, kp, kd, position + offset, spd, tor);
    assert codes.pos == s[1] as int * 0x100 + s[2] as int;
    Powers();
  }

  /** Command and status frames of one motor. */
  class Device {
    const motorId: nat
    const motorType: MotorType
    var zeroOffset: real
    var reqQueue: seq<Message>
    var reqBuff: Message
    var last: Status
    ghost var pushed: seq<Message>
    ghost var taken: nat

    /** The queue is what was pushed and not yet taken; the buffer is the last one taken. */
    ghost predicate Valid()
      reads this
    {
      && taken <= |pushed|
      && reqQueue == pushed[taken..]
      && reqBuff == if taken == 0 then NOTHING else pushed[taken - 1]
    }

    /** A new motor is told to stand still, with one unit of current. */
    constructor (motorId: nat, motorType: MotorType)
      ensures Valid() && this.motorId == motorId && this.motorType == motorType && taken == 0
      ensures pushed == [Message(motorId, 0, 7, [0x41, 0, 0, 0, 0, 0, 10])]
    {
      this.motorId, this.motorType, zeroOffset := motorId, motorType, 0.0;
      reqBuff, last := NOTHING, Status(0.0, 0.0, 0.0, 0);
      var first := Message(motorId, 0, 7, [0x41, 0, 0, 0, 0, 0, 10]);
      reqQueue, pushed, taken := [first], [first], 0;
    }

    /** Clamps, quantises and packs a control command. */
    method SendMotorCtrlCmd(kp: real, kd: real, position: real, speed: real, torque: real)
      requires Valid()
      modifies this`reqQueue, this`pushed
      ensures Valid()
      ensures var codes := CtrlCodes(motorType, kp, kd, position + zeroOffset, speed, torque);
              pushed == old(pushed) + [Message(motorId, 0, 8, CtrlBytes(codes))]
    {
      hide CtrlBytes, Pow2, UintToFloat, FloatToUint;
      var kp1, kd1, pos, spd, tor := kp, kd, position + zeroOffset, speed, torque;
      if kp1 > 1500.0 {
        kp1 := 1500.0;
      } else if kp1 < 0.0 {
        kp1 := 0.0;
      }
      if kd1 > 50.0 {
        kd1 := 50.0;
      } else if kd1 < 0.0 {
        kd1 := 0.0;
      }
      if pos > 12.5 {
        pos := 12.5;
      } else if pos < -12.5 {
        pos := -12.5;
      }
      if spd > 18.0 {
        spd := 18.0;
      } else if spd < -18.0 {
        spd := -18.0;
      }
      var torMin, torMax := 0.0, 0.0;
      match motorType {
        case S_4310 => torMin, torMax := -30.0, 30.0;
        case M_8112 => torMin, torMax := -90.0, 90.0;
        case L_10020 => torMin, torMax := -150.0, 150.0;
        case H_13715 => torMin, torMax := -320.0, 320.0;
      }
      if tor > torMax {
        tor := torMax;
      } else if tor < torMin {
        tor := torMin;
      }
      Clamped(kp, 0.0, 1500.0, 12);
      Clamped(kd, 0.0, 50.0, 9);
      Clamped(position + zeroOffset, -12.5, 12.5, 16);
      Clamped(speed, -18.0, 18.0, 12);
      Clamped(torque, torMin, torMax, 12);
      var codes := Codes(FloatToUint(kp1, 0.0, 1500.0, 12), FloatToUint(kd1, 0.0, 50.0, 9), FloatToUint(pos, -12.5, 12.5, 16),
                         FloatToUint(spd, -18.0, 18.0, 12), FloatToUint(tor, torMin, torMax, 12));
      var buff := Message(motorId, 0, 8, CtrlBytes(codes));
      reqQueue := reqQueue + [buff];
      pushed := pushed + [buff];
    }

    /** Every command goes out once, in order; between commands the last one is repeated. */
    method OnRequest() returns (msg: Message)
      requires Valid()
      modifies this`reqQueue, this`reqBuff, this`taken
      ensures Valid() && taken == if old(taken) < |pushed| then old(taken) + 1 else old(taken)
      ensures msg == if taken == 0 then NOTHING else pushed[taken - 1]
    {
      if reqQueue != [] {
        reqBuff := reqQueue[0];
        reqQueue := reqQueue[1..];
        taken := taken + 1;
      }
      msg := reqBuff;
    }

    /** A message with the motor's id is a status, one with id zero a miss; others are ignored. */
    method OnResponse(msg: Message) returns (status: bool, miss: bool, reported: Status)
      requires |msg.data| == 8
      modifies this`last
      ensures status <==> msg.id != 0 && msg.id == motorId
      ensures miss <==> msg.id == 0
      ensures last == if status then StatusOf(motorType, msg.data) else old(last)
      ensures status ==> reported == last.(position := last.position - zeroOffset)
    {
      status, miss, reported := false, false, last;
      if msg.id != 0 {
        if msg.id == motorId {
          status := true;
          last := StatusOf(motorType, msg.data);
          reported := last.(position := last.position - zeroOffset);
        }
      } else {
        miss := true;
      }
    }
  }

  lemma Clamped(x: real, lo: real, hi: real, bits: nat)
    requires lo < hi && bits >= 1
    ensures 0 <= FloatToUint(Clamp(x, lo, hi), lo, hi, bits) < Pow2(bits)
    ensures Code(x, lo, hi, bits) == FloatToUint(Clamp(x, lo, hi), lo, hi, bits)
  {
    QuantiseError(x, lo, hi, bits);
  }
}
