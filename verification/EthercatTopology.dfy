/**
 The slave list of an EtherCAT master and the physical tree behind it.

 A slave has up to four ports.  A frame enters a slave at port 0 and is forwarded
 through its other open ports in the order 3, 1, 2 before it leaves again, so the
 slaves are met, and numbered, depth first.
 */
module EthercatTopology {

  const PORTM0: bv8 := 0x01
  const PORTM1: bv8 := 0x02
  const PORTM2: bv8 := 0x04
  const PORTM3: bv8 := 0x08

  /** The four latched receive times of a slave, one per port. */
  datatype Latch = Latch(a: int, b: int, c: int, d: int)

  /** The fields of a slave list entry that delay measurement reads or writes. */
  datatype Slave = Slave(
    hasdc: bool,
    topology: nat,          // number of open ports
    activeports: bv8,
    consumedports: bv8,
    parent: nat,            // slave number of the parent, 0 for the master
    parentport: nat,
    entryport: nat,
    rt: Latch,
    pdelay: int)

  // ----- the physical tree

  /** A slave with its own free-running clock and what hangs off ports 3, 1 and 2. */
  datatype Device = Device(clock: int, port3: Branch, port1: Branch, port2: Branch)

  /** A link takes `forward` from the parent's previous port to the child's entry port
      and `back` from the child's last port to the parent's port. */
  datatype Branch = Closed | Link(forward: nat, back: nat, child: Device)

  function Size(t: Device): (n: nat)
    ensures n > 0
  {
    1 + BranchSize(t.port3) + BranchSize(t.port1) + BranchSize(t.port2)
  }

  function BranchSize(b: Branch): nat {
    if b.Closed? then 0 else Size(b.child)
  }

  function Children(t: Device): nat {
    (if t.port3.Link? then 1 else 0) + (if t.port1.Link? then 1 else 0) + (if t.port2.Link? then 1 else 0)
  }

  /** Port 0 and every port with a link are open. */
  function ActivePorts(t: Device): bv8 {
    PORTM0
    | (if t.port3.Link? then PORTM3 else 0)
    | (if t.port1.Link? then PORTM1 else 0)
    | (if t.port2.Link? then PORTM2 else 0)
  }

  // ----- one frame walking the tree

  /** Time between a frame's arrival at port 0 of a slave and its arrival at the slave's last port. */
  function Duration(t: Device): nat {
    BranchDuration(t.port3) + BranchDuration(t.port1) + BranchDuration(t.port2)
  }

  function BranchDuration(b: Branch): nat {
    if b.Closed? then 0 else b.forward + Duration(b.child) + b.back
  }

  /** What a slave entered at `time` latches, read on its own clock.  A port without a
      link latches nothing, so its register may hold anything. */
  ghost predicate Latched(rt: Latch, t: Device, time: int) {
    && rt.a == time + t.clock
    && (t.port3.Link? ==> rt.d == time + BranchDuration(t.port3) + t.clock)
    && (t.port1.Link? ==> rt.b == time + BranchDuration(t.port3) + BranchDuration(t.port1) + t.clock)
    && (t.port2.Link? ==> rt.c == time + Duration(t) + t.clock)
  }

  /** The times at which the frame enters the slaves, depth first. */
  function EntryTimes(t: Device, time: int): (times: seq<int>)
    ensures |times| == Size(t)
  {
    var time1 := time + BranchDuration(t.port3);
    [time] + BranchEntryTimes(t.port3, time)
    + BranchEntryTimes(t.port1, time1)
    + BranchEntryTimes(t.port2, time1 + BranchDuration(t.port1))
  }

  function BranchEntryTimes(b: Branch, time: int): (times: seq<int>)
    ensures |times| == BranchSize(b)
  {
    if b.Closed? then [] else EntryTimes(b.child, time + b.forward)
  }

  // ----- how the tree shows up in the slave list

  /** Slaves `lo .. lo + Size(t)` of the list are the devices of `t`, numbered depth first. */
  ghost predicate Numbered(slaves: seq<Slave>, t: Device, lo: nat, parent: nat)
    decreases t
  {
    && lo + Size(t) <= |slaves|
    && slaves[lo].activeports == ActivePorts(t)
    && slaves[lo].topology == 1 + Children(t)
    && slaves[lo].parent == parent
    && NumberedBranch(slaves, t.port3, lo + 1, lo)
    && NumberedBranch(slaves, t.port1, lo + 1 + BranchSize(t.port3), lo)
    && NumberedBranch(slaves, t.port2, lo + 1 + BranchSize(t.port3) + BranchSize(t.port1), lo)
  }

  ghost predicate NumberedBranch(slaves: seq<Slave>, b: Branch, lo: nat, parent: nat)
    decreases b
  {
    b.Link? ==> Numbered(slaves, b.child, lo, parent)
  }

  /** The latches of slaves `lo .. lo + Size(t)` come from one walk that enters `t` at `time`. */
  ghost predicate Walked(latches: seq<Latch>, t: Device, lo: nat, time: int)
    decreases t
  {
    var time1 := time + BranchDuration(t.port3);
    && lo + Size(t) <= |latches|
    && Latched(latches[lo], t, time)
    && WalkedBranch(latches, t.port3, lo + 1, time)
    && WalkedBranch(latches, t.port1, lo + 1 + BranchSize(t.port3), time1)
    && WalkedBranch(latches, t.port2, lo + 1 + BranchSize(t.port3) + BranchSize(t.port1), time1 + BranchDuration(t.port1))
  }

  ghost predicate WalkedBranch(latches: seq<Latch>, b: Branch, lo: nat, time: int)
    decreases b
  {
    b.Link? ==> Walked(latches, b.child, lo, time + b.forward)
  }
}
