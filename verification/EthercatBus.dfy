/**
 Bringing up the bus: parents are searched slave by slave, then delays are measured.
 */
module EthercatBus {
  import opened EthercatTopology
  import opened EthercatConfig
  import opened EthercatDc
  import opened EthercatDelay

  /** The search only looks at open-port counts. */
  lemma {:induction false} SearchReadsTopology(a: seq<Slave>, b: seq<Slave>, slavec: nat, topoc: int)
    requires 0 < slavec < |a| == |b|
    requires forall k :: 0 <= k < |a| ==> a[k].topology == b[k].topology
    ensures SearchParent(a, slavec, topoc) == SearchParent(b, slavec, topoc)
    decreases slavec
  {
    var count := topoc + CountOf(a[slavec].topology);
    if !((count >= 0 && a[slavec].topology > 1) || slavec == 1) {
      SearchReadsTopology(a, b, slavec - 1, count);
    }
  }

  /** `b` is `a` but for parents. */
  ghost predicate SameButParents(a: seq<Slave>, b: seq<Slave>) {
    && |a| == |b|
    && forall k :: 0 <= k < |a| ==> b[k] == a[k].(parent := b[k].parent)
  }

  lemma {:induction false} CountedFrame(a: seq<Slave>, b: seq<Slave>, t: Device, lo: nat)
    requires Counted(a, t, lo) && SameButParents(a, b)
    ensures Counted(b, t, lo)
    decreases t
  {
    var lo1 := lo + 1 + BranchSize(t.port3);
    if t.port3.Link? { CountedFrame(a, b, t.port3.child, lo + 1); }
    if t.port1.Link? { CountedFrame(a, b, t.port1.child, lo1); }
    if t.port2.Link? { CountedFrame(a, b, t.port2.child, lo1 + BranchSize(t.port1)); }
  }

  /** Searches the parent of every slave in turn. */
  method FindParents(slavelist: array<Slave>)
    modifies slavelist
    ensures SameButParents(old(slavelist[..]), slavelist[..])
    ensures ParentsSearched(slavelist[..])
  {
    ghost var slaves := slavelist[..];
    var i := 1;
    while i < slavelist.Length
      invariant SameButParents(slaves, slavelist[..])
      invariant 1 <= i
      invariant forall k :: 0 < k < i && k < slavelist.Length ==> slavelist[k].parent == ParentOf(slaves, k)
    {
      ghost var before := slavelist[..];
      FindParent(slavelist, i);
      ParentReadsTopology(slaves, before, i);
      i := i + 1;
    }
    forall k | 0 < k < slavelist.Length ensures slavelist[k].parent == ParentOf(slavelist[..], k) {
      ParentReadsTopology(slaves, slavelist[..], k);
    }
  }

  lemma ParentReadsTopology(a: seq<Slave>, b: seq<Slave>, slave: nat)
    requires 0 < slave < |a| && SameButParents(a, b)
    ensures ParentOf(a, slave) == ParentOf(b, slave)
  {
    if slave > 1 {
      SearchReadsTopology(a, b, slave - 1, 0);
    }
  }

  /** From open ports and latches alone: on every tree `t` that one frame walks, starting at
      `time`, every slave ends up with its walk time from the first slave, up to the skew
      of the links on its way. */
  method MeasureBus(slavelist: array<Slave>, latches: seq<Latch>, ghost t: Device, ghost time: int)
    requires slavelist.Length == 1 + Size(t) <= |latches|
    requires Counted(slavelist[..], t, 1) && AllClocked(slavelist[..]) && slavelist[1].pdelay == 0
    requires Walked(latches, t, 1, time)
    modifies slavelist
    ensures SkewedWalkTimes(slavelist[..], t, time)
    ensures ExactWalkTimes(slavelist[..], t, time) <==> Balanced(t)
  {
    hide Run, Counted, Numbered, Walked, SkewedWalkTimes, ExactWalkTimes, Balanced;
    ghost var slaves := slavelist[..];
    FindParents(slavelist);
    CountedFrame(slaves, slavelist[..], t, 1);
    ParentSearchRecoversTree(slavelist[..], t);
    assert Bus(slavelist[..], t);
    BusIsOrdered(slavelist[..], t);
    DelaysAreWalkTimes(slavelist[..], latches, t, time);
    var _ := ConfigDc(slavelist, latches);
  }
}
