/**
 Distributed-clock configuration: the propagation delay of every slave is derived
 from the receive times its ports latched while one broadcast frame went round.
 */
module EthercatDc {
  import opened EthercatTopology

  // ----- port helpers

  /** Receive time latched at a port. */
  function PortTime(s: Slave, port: nat): int {
    match port
    case 0 => s.rt.a
    case 1 => s.rt.b
    case 2 => s.rt.c
    case 3 => s.rt.d
    case _ => 0
  }

  /** The open port the frame passes before `port`; `port` itself when no other is open. */
  function PrevPort(s: Slave, port: nat): nat {
    var aport := s.activeports;
    match port
    case 0 =>
      if aport & PORTM2 != 0 then 2
      else if aport & PORTM1 != 0 then 1
      else if aport & PORTM3 != 0 then 3
      else port
    case 1 =>
      if aport & PORTM3 != 0 then 3
      else if aport & PORTM0 != 0 then 0
      else if aport & PORTM2 != 0 then 2
      else port
    case 2 =>
      if aport & PORTM1 != 0 then 1
      else if aport & PORTM3 != 0 then 3
      else if aport & PORTM0 != 0 then 0
      else port
    case 3 =>
      if aport & PORTM0 != 0 then 0
      else if aport & PORTM2 != 0 then 2
      else if aport & PORTM1 != 0 then 1
      else port
    case _ => port
  }

  /** First port of a mask in the order 3, 1, 2, 0; 0 when the mask is empty. */
  function FirstPort(b: bv8): nat {
    if b & PORTM3 != 0 then 3
    else if b & PORTM1 != 0 then 1
    else if b & PORTM2 != 0 then 2
    else 0
  }

  function PortMask(port: nat): bv8 {
    match port
    case 0 => PORTM0
    case 1 => PORTM1
    case 2 => PORTM2
    case 3 => PORTM3
    case _ => 0
  }

  function Without(b: bv8, port: nat): bv8 {
    b & !PortMask(port)
  }

  /** Open ports with their receive times, in the order the frame passes them. */
  function OpenPorts(active: bv8, rt: Latch): seq<(nat, int)> {
    (if active & PORTM0 != 0 then [(0, rt.a)] else [])
    + (if active & PORTM3 != 0 then [(3, rt.d)] else [])
    + (if active & PORTM1 != 0 then [(1, rt.b)] else [])
    + (if active & PORTM2 != 0 then [(2, rt.c)] else [])
  }

  /** Index of the first entry with the lowest receive time. */
  function Earliest(ports: seq<(nat, int)>): (e: nat)
    requires ports != []
    ensures e < |ports|
    ensures forall k :: 0 <= k < |ports| ==> ports[e].1 <= ports[k].1
    ensures forall k :: 0 <= k < e ==> ports[e].1 < ports[k].1
  {
    if |ports| == 1 then 0
    else
      var last := |ports| - 1;
      var e := Earliest(ports[..last]);
      if ports[last].1 < ports[e].1 then last else e
  }

  /** Port with the lowest receive time.  A slave without open ports does not answer
      on the bus; its entry port is taken to be 0. */
  function EntryPort(active: bv8, rt: Latch): nat {
    var ports := OpenPorts(active, rt);
    if ports == [] then 0 else ports[Earliest(ports)].0
  }

  /** Division by two as C does it on signed integers. */
  function Half(x: int): int {
    if x >= 0 then x / 2 else -(-x / 2)
  }

  // ----- one slave of the scan

  /** Every slave's parent comes before it in the list. */
  ghost predicate Ordered(slaves: seq<Slave>) {
    forall k :: 0 < k < |slaves| ==> slaves[k].parent < k
  }

  /** The next clock-capable ancestor of `parent` (0 when there is none) and the slave
      through which `child`'s branch reaches it. */
  function DcParent(slaves: seq<Slave>, child: nat): (r: (nat, nat))
    requires Ordered(slaves) && 0 < child < |slaves|
    ensures r.0 < r.1 <= child
    decreases child
  {
    var parent := slaves[child].parent;
    if parent == 0 || slaves[parent].hasdc then (parent, child) else DcParent(slaves, parent)
  }

  /** The delay of slave `s`, hanging at `port` of slave `p`; `first` tells that it is
      numbered right after `p`. */
  function Delay(s: Slave, p: Slave, port: nat, first: bool): int {
    var dt3 := PortTime(p, port) - PortTime(p, PrevPort(p, port));
    var dt1 := if s.topology > 1
               then PortTime(s, PrevPort(s, s.entryport)) - PortTime(s, s.entryport)
               else 0;
    var dt1' := if dt1 > dt3 then -dt1 else dt1;
    var dt2 := if first then 0 else PortTime(p, PrevPort(p, port)) - PortTime(p, p.entryport);
    var dt2' := if dt2 < 0 then -dt2 else dt2;
    Half(dt3 - dt1') + dt2' + p.pdelay
  }

  /** The slave list and the branch point held while a branch without clocks is skipped. */
  datatype Scan = Scan(slaves: seq<Slave>, parenthold: nat)

  predicate ValidScan(sc: Scan) {
    0 < |sc.slaves| && sc.parenthold < |sc.slaves|
  }

  /** Slave `s` after its own latches are read: entry port found and consumed. */
  function Entered(s: Slave, rt: Latch): Slave {
    var entry := EntryPort(s.activeports, rt);
    s.(rt := rt, entryport := entry, consumedports := Without(s.activeports, entry))
  }

  /** `slaves` with the first unconsumed port of slave `parent` consumed. */
  function Consumed(slaves: seq<Slave>, parent: nat): (r: seq<Slave>)
    requires parent < |slaves|
  {
    var b := slaves[parent].consumedports;
    slaves[parent := slaves[parent].(consumedports := Without(b, FirstPort(b)))]
  }

  /** Slave `i` has a clock: measure it against its parent, if that is not the master. */
  function DcStep(slaves: seq<Slave>, i: nat, rt: Latch): (r: seq<Slave>)
    requires Ordered(slaves) && 0 < i < |slaves|
    ensures |r| == |slaves| && Ordered(r)
  {
    var slaves1 := slaves[i := Entered(slaves[i], rt)];
    var (parent, child) := DcParent(slaves1, i);
    if parent == 0 then
      slaves1
    else
      var port := if slaves1[parent].topology == 1 then slaves1[parent].entryport
                  else FirstPort(slaves1[parent].consumedports);
      var slaves2 := Consumed(slaves1, parent);
      var delay := Delay(slaves2[i], slaves2[parent], port, child - parent <= 1);
      slaves2[i := slaves2[i].(parentport := port, pdelay := delay)]
  }

  /** Slave `i` has no clock: a branch that ends without one consumes a port of its branch point. */
  function PlainStep(sc: Scan, i: nat): (r: Scan)
    requires ValidScan(sc) && Ordered(sc.slaves) && 0 < i < |sc.slaves|
    ensures ValidScan(r) && |r.slaves| == |sc.slaves| && Ordered(r.slaves)
  {
    var s := sc.slaves[i];
    var slaves := sc.slaves[i := s.(rt := Latch(0, 0, 0, 0), consumedports := s.activeports)];
    var hold := if s.parent > 0 && slaves[s.parent].topology > 2 then s.parent else sc.parenthold;
    if hold != 0 && s.topology == 1 then Scan(Consumed(slaves, hold), 0) else Scan(slaves, hold)
  }

  /** Body of the loop over the slave list. */
  function Step(sc: Scan, i: nat, rt: Latch): (r: Scan)
    requires ValidScan(sc) && Ordered(sc.slaves) && 0 < i < |sc.slaves|
    ensures ValidScan(r) && |r.slaves| == |sc.slaves| && Ordered(r.slaves)
    ensures forall k :: 0 <= k < |r.slaves| ==> r.slaves[k].hasdc == sc.slaves[k].hasdc
  {
    if sc.slaves[i].hasdc then Scan(DcStep(sc.slaves, i, rt), 0) else PlainStep(sc, i)
  }

  /** The loop from slave `lo` up to, not including, slave `hi`. */
  function Run(sc: Scan, latches: seq<Latch>, lo: nat, hi: nat): (r: Scan)
    requires ValidScan(sc) && Ordered(sc.slaves)
    requires 0 < lo <= hi <= |sc.slaves| <= |latches|
    ensures ValidScan(r) && |r.slaves| == |sc.slaves| && Ordered(r.slaves)
    ensures forall k :: 0 <= k < |r.slaves| ==> r.slaves[k].hasdc == sc.slaves[k].hasdc
    decreases hi - lo
  {
    if lo == hi then sc else Step(Run(sc, latches, lo, hi - 1), hi - 1, latches[hi - 1])
  }

  // ----- the code, on the slave list in place

  /** Consumes and returns the first open port of a parent. */
  method ParentPort(slavelist: array<Slave>, parent: nat) returns (parentport: nat)
    requires parent < slavelist.Length
    modifies slavelist
    ensures parentport == FirstPort(old(slavelist[parent].consumedports))
    ensures slavelist[..] == Consumed(old(slavelist[..]), parent)
  {
    parentport := 0;
    var b := slavelist[parent].consumedports;
    if b & PORTM3 != 0 {
      parentport := 3;
      b := b & !PORTM3;
    } else if b & PORTM1 != 0 {
      parentport := 1;
      b := b & !PORTM1;
    } else if b & PORTM2 != 0 {
      parentport := 2;
      b := b & !PORTM2;
    } else if b & PORTM0 != 0 {
      parentport := 0;
      b := b & !PORTM0;
    }
    assert b == Without(old(slavelist[parent].consumedports), parentport);
    slavelist[parent] := slavelist[parent].(consumedports := b);
  }

  /** Finds the earliest of the open ports. */
  method FindEntryPort(s: Slave) returns (entryport: nat)
    ensures entryport == EntryPort(s.activeports, s.rt)
  {
    var list: seq<(nat, int)> := [];
    if s.activeports & PORTM0 != 0 { list := list + [(0, s.rt.a)]; }
    if s.activeports & PORTM3 != 0 { list := list + [(3, s.rt.d)]; }
    if s.activeports & PORTM1 != 0 { list := list + [(1, s.rt.b)]; }
    if s.activeports & PORTM2 != 0 { list := list + [(2, s.rt.c)]; }
    assert list == OpenPorts(s.activeports, s.rt);
    if list == [] { return 0; }
    var e := 0;
    if |list| > 1 && list[1].1 < list[e].1 { e := 1; }
    if |list| > 2 && list[2].1 < list[e].1 { e := 2; }
    if |list| > 3 && list[3].1 < list[e].1 { e := 3; }
    entryport := list[e].0;
  }

  /** Reads the latches of slave `i` into the list and consumes its entry port. */
  method EnterSlave(slavelist: array<Slave>, i: nat, rt: Latch)
    requires i < slavelist.Length
    modifies slavelist
    ensures slavelist[..] == old(slavelist[..])[i := Entered(old(slavelist[i]), rt)]
  {
    slavelist[i] := slavelist[i].(consumedports := slavelist[i].activeports, rt := rt);
    var entryport := FindEntryPort(slavelist[i]);
    slavelist[i] := slavelist[i].(entryport := entryport);
    slavelist[i] := slavelist[i].(consumedports := slavelist[i].consumedports & !PortMask(entryport));
  }

  /** Climbs from slave `i` to its nearest ancestor with a clock. */
  method FindDcParent(slavelist: array<Slave>, i: nat) returns (parent: nat, child: nat)
    requires 0 < i < slavelist.Length && Ordered(slavelist[..])
    ensures (parent, child) == DcParent(slavelist[..], i)
  {
    ghost var slaves := slavelist[..];
    child := i;
    parent := slavelist[i].parent;
    assert parent == slaves[i].parent;
    while !(parent == 0 || slavelist[parent].hasdc)
      invariant 0 < child <= i && parent == slaves[child].parent
      invariant DcParent(slaves, child) == DcParent(slaves, i)
      decreases parent
    {
      child := parent;
      parent := slavelist[parent].parent;
    }
  }

  /** Combines the port time differences of a slave and its parent. */
  method CombineDelays(s: Slave, p: Slave, parentport: nat, first: bool) returns (pdelay: int)
    ensures pdelay == Delay(s, p, parentport, first)
  {
    var dt1, dt2 := 0, 0;
    var dt3 := PortTime(p, parentport) - PortTime(p, PrevPort(p, parentport));
    if s.topology > 1 {
      dt1 := PortTime(s, PrevPort(s, s.entryport)) - PortTime(s, s.entryport);
    }
    if dt1 > dt3 { dt1 := -dt1; }
    if !first {
      dt2 := PortTime(p, PrevPort(p, parentport)) - PortTime(p, p.entryport);
    }
    if dt2 < 0 { dt2 := -dt2; }
    pdelay := Half(dt3 - dt1) + dt2 + p.pdelay;
  }

  /** Loop body for a slave with a clock. */
  method ConfigDcSlave(slavelist: array<Slave>, i: nat, rt: Latch)
    requires 0 < i < slavelist.Length && Ordered(slavelist[..])
    modifies slavelist
    ensures slavelist[..] == DcStep(old(slavelist[..]), i, rt)
  {
    EnterSlave(slavelist, i, rt);
    var parent, child := FindDcParent(slavelist, i);
    if parent > 0 {
      var parentport := ParentPort(slavelist, parent);
      if slavelist[parent].topology == 1 {
        parentport := slavelist[parent].entryport;
      }
      var pdelay := CombineDelays(slavelist[i], slavelist[parent], parentport, child - parent <= 1);
      slavelist[i] := slavelist[i].(parentport := parentport, pdelay := pdelay);
    }
  }

  /** Loop body for a slave without a clock. */
  method SkipPlainSlave(slavelist: array<Slave>, i: nat, hold: nat) returns (parenthold: nat)
    requires 0 < i < slavelist.Length && Ordered(slavelist[..]) && hold < slavelist.Length
    modifies slavelist
    ensures parenthold < slavelist.Length
    ensures Scan(slavelist[..], parenthold) == PlainStep(Scan(old(slavelist[..]), hold), i)
  {
    ghost var slaves := slavelist[..];
    parenthold := hold;
    slavelist[i] := slavelist[i].(consumedports := slavelist[i].activeports);
    slavelist[i] := slavelist[i].(rt := Latch(0, 0, 0, 0));
    assert slavelist[..] == slaves[i := slaves[i].(rt := Latch(0, 0, 0, 0), consumedports := slaves[i].activeports)];
    var parent := slavelist[i].parent;
    if parent > 0 && slavelist[parent].topology > 2 {
      parenthold := parent;
    }
    if parenthold != 0 && slavelist[i].topology == 1 {
      var _ := ParentPort(slavelist, parenthold);
      parenthold := 0;
    }
  }

  /** Measures every slave's propagation delay.  `latches[i]` is what slave `i` answers
      when its four receive times are read. */
  method ConfigDc(slavelist: array<Slave>, latches: seq<Latch>) returns (found: bool)
    requires 0 < slavelist.Length <= |latches|
    requires Ordered(slavelist[..])
    modifies slavelist
    ensures slavelist[..] == Run(Scan(old(slavelist[..]), 0), latches, 1, slavelist.Length).slaves
    ensures found <==> exists k :: 0 < k < slavelist.Length && old(slavelist[k].hasdc)
  {
    ghost var start := Scan(slavelist[..], 0);
    var parenthold := 0;
    found := false;
    for i := 1 to slavelist.Length
      invariant 0 <= parenthold < slavelist.Length
      invariant Scan(slavelist[..], parenthold) == Run(start, latches, 1, i)
      invariant found <==> exists k :: 0 < k < i && old(slavelist[k].hasdc)
    {
      assert slavelist[..][i].hasdc == start.slaves[i].hasdc;
      if slavelist[i].hasdc {
        found := true;
        parenthold := 0;
        ConfigDcSlave(slavelist, i, latches[i]);
      } else {
        parenthold := SkipPlainSlave(slavelist, i, parenthold);
      }
    }
  }
}
