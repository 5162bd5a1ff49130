/**
 The bus cycle: requests are collected from the registered devices, frames are exchanged, and
 responses are handed back.  A time-sharing slave alternates between standard and extended CAN
 frames.  What a device writes into its slot is a parameter.
 */
module SoemMaster {
  datatype Mode = STANDARD | EXTENDED | TIME_SHARING

  datatype DeviceMessage = DeviceMessage(id: nat, rtr: nat, dlc: nat, data: seq<nat>)

  datatype SlaveMessage = SlaveMessage(dev_num: nat, can_ide: nat, dev: seq<DeviceMessage>)

  datatype Registration = Registration(slave: nat, passage: nat, mode: Mode)

  const SLAVE_NUMBER := 6
  const PASSAGES := 6
  const ZERO := DeviceMessage(0, 0, 0, seq(8, _ => 0))

  /** What `OnRequest` of registration `i` makes of its slot in cycle `c`. */
  type OnRequest = (nat, nat, DeviceMessage) -> DeviceMessage

  function Empty(): (m: SlaveMessage)
    ensures |m.dev| == PASSAGES
  {
    SlaveMessage(0, 0, seq(PASSAGES, _ => ZERO))
  }

  // ----- modes over time

  /** Mode of the time-sharing counter of a slave after `c` cycles: the bus flips it for the
      slaves it found, and for no others. */
  function SharedMode(count: nat, slave: nat, c: nat): Mode {
    if slave < count && c % 2 == 1 then EXTENDED else STANDARD
  }

  /** The kind of frames a slave carries in cycle `c`. */
  function ActiveMode(slaveModes: seq<Mode>, count: nat, slave: nat, c: nat): Mode
    requires slave < |slaveModes|
  {
    if slaveModes[slave] == TIME_SHARING then SharedMode(count, slave, c) else slaveModes[slave]
  }

  predicate Served(slaveModes: seq<Mode>, count: nat, r: Registration, c: nat)
    requires r.slave < |slaveModes|
  {
    ActiveMode(slaveModes, count, r.slave, c) == r.mode
  }

  /** A registration in the range of the tables. */
  predicate InRange(slaveModes: seq<Mode>, r: Registration) {
    r.slave < |slaveModes| && r.slave < SLAVE_NUMBER && 1 <= r.passage <= PASSAGES
  }

  predicate AllInRange(slaveModes: seq<Mode>, rs: seq<Registration>) {
    forall i | 0 <= i < |rs| :: InRange(slaveModes, rs[i])
  }

  /** Numbers of the registrations below `n` that are served in cycle `c`, in order. */
  function ServedBelow(slaveModes: seq<Mode>, count: nat, rs: seq<Registration>, n: nat, c: nat): seq<nat>
    requires n <= |rs| && AllInRange(slaveModes, rs)
  {
    if n == 0 then []
    else ServedBelow(slaveModes, count, rs, n - 1, c) + if Served(slaveModes, count, rs[n - 1], c) then [n - 1] else []
  }

  /** The slot of a slave and passage after the registrations below `n`. */
  function Slot(slaveModes: seq<Mode>, count: nat, rs: seq<Registration>, n: nat, c: nat, request: OnRequest,
                slave: nat, passage: nat): DeviceMessage
    requires n <= |rs| && AllInRange(slaveModes, rs)
  {
    if n == 0 then ZERO
    else
      var before := Slot(slaveModes, count, rs, n - 1, c, request, slave, passage);
      if Writes(slaveModes, count, rs[n - 1], c, slave, passage) then request(n - 1, c, before) else before
  }

  /** The registration is for that slot and is served in cycle `c`. */
  predicate Writes(slaveModes: seq<Mode>, count: nat, r: Registration, c: nat, slave: nat, passage: nat)
    requires r.slave < |slaveModes|
  {
    r.slave == slave && r.passage == passage && Served(slaveModes, count, r, c)
  }

  /** What a slave is sent in cycle `c`. */
  function SlaveFrame(slaveModes: seq<Mode>, count: nat, rs: seq<Registration>, c: nat, request: OnRequest,
                      slave: nat): SlaveMessage
    requires AllInRange(slaveModes, rs) && slave < |slaveModes|
  {
    SlaveMessage(0, if ActiveMode(slaveModes, count, slave, c) == EXTENDED then 1 else 0,
                 seq(PASSAGES, p requires 0 <= p < PASSAGES => Slot(slaveModes, count, rs, |rs|, c, request, slave, p + 1)))
  }

  // ----- laws

  /** On a time-sharing slave, every standard or extended registration is served in exactly one
      of any two consecutive cycles if and only if the bus found that slave. */
  lemma ServedOnceInTwo(slaveModes: seq<Mode>, count: nat, r: Registration)
    requires r.slave < |slaveModes| && slaveModes[r.slave] == TIME_SHARING && r.mode != TIME_SHARING
    ensures (forall c: nat :: Served(slaveModes, count, r, c) <==> !Served(slaveModes, count, r, c + 1)) <==> r.slave < count
  {
    if r.slave < count {
      forall c: nat
        ensures Served(slaveModes, count, r, c) <==> !Served(slaveModes, count, r, c + 1)
      {
        assert c % 2 == 1 <==> (c + 1) % 2 == 0;
      }
    } else {
      assert Served(slaveModes, count, r, 0) <==> Served(slaveModes, count, r, 0 + 1);
    }
  }

  /** A slot is zero if no served registration is for it; otherwise it is what the last such
      registration made of what the earlier ones left there. */
  lemma {:induction false} SlotIsLastServed(slaveModes: seq<Mode>, count: nat, rs: seq<Registration>, n: nat, c: nat,
                                            request: OnRequest, slave: nat, passage: nat) returns (last: nat)
    requires n <= |rs| && AllInRange(slaveModes, rs)
    ensures last <= n
    ensures forall i | last <= i < n :: !Writes(slaveModes, count, rs[i], c, slave, passage)
    ensures last > 0 ==> Writes(slaveModes, count, rs[last - 1], c, slave, passage)
    ensures Slot(slaveModes, count, rs, n, c, request, slave, passage)
         == if last == 0 then ZERO
            else request(last - 1, c, Slot(slaveModes, count, rs, last - 1, c, request, slave, passage))
  {
    if n == 0 || Writes(slaveModes, count, rs[n - 1], c, slave, passage) {
      last := n;
    } else {
      last := SlotIsLastServed(slaveModes, count, rs, n - 1, c, request, slave, passage);
    }
  }

  lemma {:induction false} ServedBelowExact(slaveModes: seq<Mode>, count: nat, rs: seq<Registration>, n: nat, c: nat)
    requires n <= |rs| && AllInRange(slaveModes, rs)
    ensures var s := ServedBelow(slaveModes, count, rs, n, c);
            && (forall i | 0 <= i < n :: i in s <==> Served(slaveModes, count, rs[i], c))
            && (forall j | 0 <= j < |s| :: s[j] < n)
            && (forall j, k | 0 <= j < k < |s| :: s[j] < s[k])
  {
    hide Served;
    if n > 0 {
      ServedBelowExact(slaveModes, count, rs, n - 1, c);
    }
  }

  lemma RangeAppended(slaveModes: seq<Mode>, rs: seq<Registration>, r: Registration)
    ensures AllInRange(slaveModes, rs + [r]) <==> AllInRange(slaveModes, rs) && InRange(slaveModes, r)
  {
    assert (rs + [r])[|rs|] == r;
    assert forall i | 0 <= i < |rs| :: (rs + [r])[i] == rs[i];
  }

  // ----- the implementation

  class Master {
    const slaveModes: seq<Mode>
    const slavecount: nat
    const request: OnRequest
    var devices: seq<Registration>
    var vecCurTsMode: seq<Mode>
    const reqBuff: array<SlaveMessage>
    const respBuff: array<SlaveMessage>
    /** What the bus reads from and writes to, one message per slave found. */
    const outputs: array<SlaveMessage>
    const inputs: array<SlaveMessage>
    var cycles: nat

    /** Every slave found has a mode and a buffer, and every registration a slot. */
    predicate Usable()
      reads this
    {
      slavecount <= |slaveModes| && slavecount <= SLAVE_NUMBER && AllInRange(slaveModes, devices)
    }

    /** A bus cycle stays within its tables. */
    ghost predicate Valid()
      reads this, inputs
    {
      Made() && Usable()
    }

    ghost predicate Made()
      reads this, inputs
    {
      && reqBuff.Length == respBuff.Length == SLAVE_NUMBER
      && outputs.Length == inputs.Length == slavecount
      && reqBuff != respBuff && reqBuff != outputs && reqBuff != inputs
      && respBuff != outputs && respBuff != inputs && outputs != inputs
      && (forall s | 0 <= s < slavecount :: |inputs[s].dev| == PASSAGES)
      && |vecCurTsMode| == |slaveModes|
      && (forall s | 0 <= s < |slaveModes| ::
            vecCurTsMode[s] == if slaveModes[s] == TIME_SHARING then SharedMode(slavecount, s, cycles) else STANDARD)
    }

    constructor (slaveModes: seq<Mode>, slavecount: nat, request: OnRequest)
      ensures Made() && devices == [] && cycles == 0
      ensures Valid() <==> slavecount <= |slaveModes| && slavecount <= SLAVE_NUMBER
      ensures this.slaveModes == slaveModes && this.slavecount == slavecount && this.request == request
    {
      this.slaveModes, this.slavecount, this.request := slaveModes, slavecount, request;
      devices, cycles := [], 0;
      vecCurTsMode := seq(|slaveModes|, _ => STANDARD);
      var a := new SlaveMessage[SLAVE_NUMBER](_ => Empty());
      var b := new SlaveMessage[SLAVE_NUMBER](_ => Empty());
      var o := new SlaveMessage[slavecount](_ => Empty());
      var i := new SlaveMessage[slavecount](_ => Empty());
      reqBuff, respBuff, outputs, inputs := a, b, o, i;
    }

    /** Nothing is looked at; the cycles can use the registration if it is in range. */
    method RegisterDevice(slave: nat, passage: nat, mode: Mode)
      requires Made()
      modifies this`devices
      ensures Made() && devices == old(devices) + [Registration(slave, passage, mode)]
      ensures Valid() <==> old(Valid()) && InRange(slaveModes, Registration(slave, passage, mode))
    {
      ghost var r := Registration(slave, passage, mode);
      assert AllInRange(slaveModes, devices + [r]) <==> AllInRange(slaveModes, devices) && InRange(slaveModes, r) by {
        RangeAppended(slaveModes, devices, r);
      }
      devices := devices + [Registration(slave, passage, mode)];
    }

    /** The request buffer holds the slots as the registrations below `n` leave them. */
    ghost predicate Filled(n: nat)
      requires n <= |devices| && AllInRange(slaveModes, devices) && reqBuff.Length == SLAVE_NUMBER
      reads this, reqBuff
    {
      forall s | 0 <= s < SLAVE_NUMBER ::
        && reqBuff[s].dev_num == 0 && reqBuff[s].can_ide == 0 && |reqBuff[s].dev| == PASSAGES
        && forall p | 0 <= p < PASSAGES ::
             reqBuff[s].dev[p] == Slot(slaveModes, slavecount, devices, n, cycles, request, s, p + 1)
    }

    method ClearRequests()
      requires Valid()
      modifies reqBuff
      ensures Filled(0)
    {
      for s := 0 to SLAVE_NUMBER
        invariant forall t | 0 <= t < s :: reqBuff[t] == Empty()
      {
        reqBuff[s] := Empty();
      }
    }

    /** `OnRequest` of one registration, on its slot of the request buffer. */
    method CallOnRequest(k: nat)
      requires Valid() && k < |devices| && Filled(k) && Served(slaveModes, slavecount, devices[k], cycles)
      modifies reqBuff
      ensures Filled(k + 1)
    {
      hide Served;
      var dev := devices[k];
      var m := reqBuff[dev.slave];
      var msgDev := request(k, cycles, m.dev[dev.passage - 1]);
      reqBuff[dev.slave] := m.(dev := m.dev[dev.passage - 1 := msgDev]);
    }

    /** Lets the served devices fill their slots, and puts one frame per slave on the bus. */
    method GetRequestFromDevices() returns (called: seq<nat>)
      requires Valid()
      modifies reqBuff, outputs
      ensures Valid() && called == ServedBelow(slaveModes, slavecount, devices, |devices|, cycles)
      ensures forall s | 0 <= s < slavecount ::
                outputs[s] == SlaveFrame(slaveModes, slavecount, devices, cycles, request, s)
    {
      hide SharedMode, Filled;
      ClearRequests();
      called := [];
      for k := 0 to |devices|
        invariant called == ServedBelow(slaveModes, slavecount, devices, k, cycles)
        invariant Filled(k)
      {
        var dev := devices[k];
        assert InRange(slaveModes, dev);
        var mode := if slaveModes[dev.slave] == TIME_SHARING then vecCurTsMode[dev.slave] else slaveModes[dev.slave];
        if mode == dev.mode {
          CallOnRequest(k);
          called := called + [k];
        } else {
          NotCalled(k);
        }
      }
      SendFrames();
    }

    lemma NotCalled(k: nat)
      requires Valid() && k < |devices| && Filled(k) && !Served(slaveModes, slavecount, devices[k], cycles)
      ensures Filled(k + 1)
    {
      hide Served;
    }

    /** Marks the slaves that carry extended frames, and copies their messages out. */
    method SendFrames()
      requires Valid() && Filled(|devices|)
      modifies reqBuff, outputs
      ensures forall s | 0 <= s < slavecount ::
                outputs[s] == SlaveFrame(slaveModes, slavecount, devices, cycles, request, s)
    {
      hide SharedMode;
      var slave := 0;
      while slave < slavecount
        invariant slave <= slavecount
        invariant forall s | slave <= s < SLAVE_NUMBER :: reqBuff[s] == old(reqBuff[s])
        invariant forall s | 0 <= s < slave ::
                    outputs[s] == SlaveFrame(slaveModes, slavecount, devices, cycles, request, s)
      {
        if slaveModes[slave] == EXTENDED || (slaveModes[slave] == TIME_SHARING && vecCurTsMode[slave] == EXTENDED) {
          reqBuff[slave] := reqBuff[slave].(can_ide := 1);
        }
        outputs[slave] := reqBuff[slave];
        assert outputs[slave].dev == SlaveFrame(slaveModes, slavecount, devices, cycles, request, slave).dev;
        slave := slave + 1;
      }
    }

    /** Hands the slots that came back to the served devices, and flips the time-sharing slaves. */
    method SendResponseToDevices() returns (called: seq<nat>, given: seq<DeviceMessage>)
      requires Valid()
      modifies respBuff, this`vecCurTsMode, this`cycles
      ensures Valid() && cycles == old(cycles) + 1
      ensures called == ServedBelow(slaveModes, slavecount, devices, |devices|, old(cycles))
      ensures |given| == |called|
      ensures forall j | 0 <= j < |called| :: called[j] < |devices| && given[j] == Received(called[j])
    {
      hide SharedMode;
      TakeInputs();
      called, given := [], [];
      for k := 0 to |devices|
        invariant called == ServedBelow(slaveModes, slavecount, devices, k, cycles)
        invariant |given| == |called| && (forall j | 0 <= j < |called| :: called[j] < k)
        invariant forall j | 0 <= j < |called| :: given[j] == Received(called[j])
      {
        var dev := devices[k];
        assert InRange(slaveModes, dev);
        var mode := if slaveModes[dev.slave] == TIME_SHARING then vecCurTsMode[dev.slave] else slaveModes[dev.slave];
        if mode == dev.mode {
          given := given + [respBuff[dev.slave].dev[dev.passage - 1]];
          called := called + [k];
        }
      }
      FlipModes();
    }

    /** What came back for registration `k`: its slot of the slave's input, or zeros. */
    ghost function Received(k: nat): DeviceMessage
      requires Valid() && k < |devices|
      reads this, inputs
    {
      var dev := devices[k];
      assert InRange(slaveModes, dev);
      if dev.slave < slavecount then inputs[dev.slave].dev[dev.passage - 1] else ZERO
    }

    method TakeInputs()
      requires Valid()
      modifies respBuff
      ensures forall s | 0 <= s < SLAVE_NUMBER :: respBuff[s] == if s < slavecount then inputs[s] else Empty()
    {
      for s := 0 to SLAVE_NUMBER
        invariant forall t | 0 <= t < s :: respBuff[t] == Empty()
      {
        respBuff[s] := Empty();
      }
      for slave := 0 to slavecount
        invariant forall s | 0 <= s < SLAVE_NUMBER :: respBuff[s] == if s < slave then inputs[s] else Empty()
      {
        respBuff[slave] := inputs[slave];
      }
    }

    method Exchange(returned: seq<SlaveMessage>)
      requires inputs.Length == |returned|
      modifies inputs
      ensures inputs[..] == returned
      ensures forall s | 0 <= s < |returned| :: inputs[s] == returned[s]
    {
      forall s | 0 <= s < |returned| {
        inputs[s] := returned[s];
      }
    }

    /** One turn of the loop; `returned` is what the slaves answer to the frames.  The same
        registrations are asked and answered, in the same order. */
    method Cycle(returned: seq<SlaveMessage>) returns (requested: seq<nat>, responded: seq<nat>, given: seq<DeviceMessage>)
      requires Valid() && |returned| == slavecount
      requires forall s | 0 <= s < slavecount :: |returned[s].dev| == PASSAGES
      modifies this`vecCurTsMode, this`cycles, reqBuff, respBuff, outputs, inputs
      ensures Valid() && cycles == old(cycles) + 1
      ensures requested == responded == ServedBelow(slaveModes, slavecount, devices, |devices|, old(cycles))
      ensures forall s | 0 <= s < slavecount ::
                outputs[s] == SlaveFrame(slaveModes, slavecount, devices, old(cycles), request, s)
      ensures inputs[..] == returned && |given| == |responded|
      ensures forall j | 0 <= j < |responded| :: responded[j] < |devices| && given[j] == Received(responded[j])
    {
      hide SharedMode, ServedBelow, SlaveFrame;
      requested := GetRequestFromDevices();
      Exchange(returned);
      responded, given := SendResponseToDevices();
    }

    /** Only slaves that the bus found are flipped. */
    method FlipModes()
      requires Valid()
      modifies this`vecCurTsMode, this`cycles
      ensures Valid() && cycles == old(cycles) + 1
    {
      for slave := 0 to slavecount
        invariant |vecCurTsMode| == |slaveModes| && cycles == old(cycles)
        invariant forall s | 0 <= s < |slaveModes| ::
          vecCurTsMode[s] == if slaveModes[s] != TIME_SHARING then STANDARD
                             else SharedMode(slavecount, s, if s < slave then cycles + 1 else cycles)
      {
        if slaveModes[slave] == TIME_SHARING {
          vecCurTsMode := vecCurTsMode[slave := if vecCurTsMode[slave] == STANDARD then EXTENDED else STANDARD];
        }
      }
      cycles := cycles + 1;
    }
  }
}
