/**
 What the measured delays mean: on every tree they are the times at which one frame
 enters the slaves, up to the asymmetry of the links on the way.
 */
module EthercatDelay {
  import opened EthercatTopology
  import opened EthercatDc

  // ----- what the scan computes, as a function of the tree alone

  /** Delays of the devices of `t`, depth first, when `t` itself gets `d`: a link counts
      with half of its round trip. */
  function Measured(t: Device, d: int): (delays: seq<int>)
    ensures |delays| == Size(t)
  {
    var d1 := d + BranchDuration(t.port3);
    [d] + MeasuredBranch(t.port3, d) + MeasuredBranch(t.port1, d1) + MeasuredBranch(t.port2, d1 + BranchDuration(t.port1))
  }

  function MeasuredBranch(b: Branch, d: int): (delays: seq<int>)
    ensures |delays| == BranchSize(b)
  {
    if b.Closed? then [] else Measured(b.child, d + (b.forward + b.back) / 2)
  }

  // ----- one slave

  /** Slave `s` is device `t`, already scanned, entered by the frame at `time`. */
  ghost predicate Scanned(s: Slave, t: Device, time: int) {
    && s.hasdc
    && s.activeports == ActivePorts(t)
    && s.topology == 1 + Children(t)
    && s.entryport == 0
    && Latched(s.rt, t, time)
  }

  predicate Linkable(port: nat) {
    port == 3 || port == 1 || port == 2
  }

  function BranchAt(t: Device, port: nat): Branch
    requires Linkable(port)
  {
    if port == 3 then t.port3 else if port == 1 then t.port1 else t.port2
  }

  /** Time from entering `t` to reaching the port before `port`. */
  function Before(t: Device, port: nat): nat
    requires Linkable(port)
  {
    if port == 3 then 0
    else if port == 1 then BranchDuration(t.port3)
    else BranchDuration(t.port3) + BranchDuration(t.port1)
  }

  /** Linked ports of `t` from `port` on; 0 stands for past the last. */
  function Unconsumed(t: Device, port: nat): bv8
    requires Linkable(port) || port == 0
  {
    (if port == 3 && t.port3.Link? then PORTM3 else 0)
    | (if (port == 3 || port == 1) && t.port1.Link? then PORTM1 else 0)
    | (if port != 0 && t.port2.Link? then PORTM2 else 0)
  }

  function NextPort(port: nat): nat
    requires Linkable(port)
  {
    if port == 3 then 1 else if port == 1 then 2 else 0
  }

  /** A slave entered through port 0 finds entry port 0. */
  lemma EnteredAtZero(s: Slave, rt: Latch, t: Device, time: int)
    requires s.hasdc && s.activeports == ActivePorts(t) && s.topology == 1 + Children(t)
    requires Latched(rt, t, time)
    ensures Scanned(Entered(s, rt), t, time)
    ensures Entered(s, rt).consumedports == Unconsumed(t, 3)
  {
    var ports := OpenPorts(s.activeports, rt);
    assert ports[0] == (0, rt.a);
    assert forall k :: 0 <= k < |ports| ==> rt.a <= ports[k].1;
  }

  /** A scanned slave's last port comes one `Duration` after its entry. */
  lemma LastPort(s: Slave, t: Device, time: int)
    requires Scanned(s, t, time)
    ensures PortTime(s, PrevPort(s, 0)) - PortTime(s, 0) == Duration(t)
  {
  }

  /** A parent's port comes one round trip after the port before it. */
  lemma RoundTrip(p: Slave, tp: Device, time: int, port: nat)
    requires Scanned(p, tp, time)
    requires Linkable(port) && BranchAt(tp, port).Link?
    ensures PortTime(p, port) - PortTime(p, PrevPort(p, port)) == BranchDuration(BranchAt(tp, port))
    ensures PortTime(p, PrevPort(p, port)) - PortTime(p, 0) == Before(tp, port)
  {
  }

  lemma ConsumeNext(t: Device, port: nat)
    requires Linkable(port)
    ensures BranchAt(t, port).Link? ==>
              && FirstPort(Unconsumed(t, port)) == port
              && Without(Unconsumed(t, port), port) == Unconsumed(t, NextPort(port))
    ensures BranchAt(t, port).Closed? ==> Unconsumed(t, port) == Unconsumed(t, NextPort(port))
  {
  }

  /** The delay of a child counts half of its link's round trip from the port before it. */
  lemma DelayOfChild(s: Slave, t: Device, time: int, p: Slave, tp: Device, ptime: int, port: nat, first: bool)
    requires Scanned(s, t, time) && Scanned(p, tp, ptime)
    requires Linkable(port) && BranchAt(tp, port).Link? && BranchAt(tp, port).child == t
    requires first ==> Before(tp, port) == 0
    ensures Delay(s, p, port, first)
         == p.pdelay + Before(tp, port) + (BranchAt(tp, port).forward + BranchAt(tp, port).back) / 2
  {
    LastPort(s, t, time);
    RoundTrip(p, tp, ptime, port);
  }

  // ----- the scan of a whole subtree

  /** Every slave outside `lo .. hi` and other than `parent` is as it was. */
  ghost predicate Untouched(before: seq<Slave>, after: seq<Slave>, lo: nat, hi: nat, parent: nat) {
    && |after| == |before|
    && forall k :: 0 <= k < |before| && !(lo <= k < hi) && k != parent ==> after[k] == before[k]
  }

  ghost predicate Delays(slaves: seq<Slave>, lo: nat, delays: seq<int>) {
    && lo + |delays| <= |slaves|
    && forall k :: 0 <= k < |delays| ==> slaves[lo + k].pdelay == delays[k]
  }

  ghost predicate AllClocked(slaves: seq<Slave>) {
    forall k :: 0 < k < |slaves| ==> slaves[k].hasdc
  }

  lemma {:induction false} RunSplit(sc: Scan, latches: seq<Latch>, lo: nat, mid: nat, hi: nat)
    requires ValidScan(sc) && Ordered(sc.slaves)
    requires 0 < lo <= mid <= hi <= |sc.slaves| <= |latches|
    ensures Run(sc, latches, lo, hi) == Run(Run(sc, latches, lo, mid), latches, mid, hi)
    decreases hi - mid
  {
    hide Step;
    if mid < hi {
      RunSplit(sc, latches, lo, mid, hi - 1);
    }
  }

  lemma {:induction false} NumberedFrame(a: seq<Slave>, b: seq<Slave>, t: Device, lo: nat, parent: nat)
    requires Numbered(a, t, lo, parent) && |a| == |b|
    requires forall k :: lo <= k < lo + Size(t) ==> a[k] == b[k]
    ensures Numbered(b, t, lo, parent)
    decreases t, 1
  {
    var lo1 := lo + 1 + BranchSize(t.port3);
    NumberedBranchFrame(a, b, t.port3, lo + 1, lo);
    NumberedBranchFrame(a, b, t.port1, lo1, lo);
    NumberedBranchFrame(a, b, t.port2, lo1 + BranchSize(t.port1), lo);
  }

  lemma {:induction false} NumberedBranchFrame(a: seq<Slave>, b: seq<Slave>, br: Branch, lo: nat, parent: nat)
    requires NumberedBranch(a, br, lo, parent) && |a| == |b|
    requires forall k :: lo <= k < lo + BranchSize(br) ==> k < |a| && a[k] == b[k]
    ensures NumberedBranch(b, br, lo, parent)
    decreases br, 0
  {
    if br.Link? {
      NumberedFrame(a, b, br.child, lo, parent);
    }
  }

  /** What the scan has established before it enters branch `port` of slave `parent`. */
  ghost predicate AtBranch(slaves: seq<Slave>, parent: nat, t: Device, time: int, port: nat)
    requires Linkable(port) || port == 0
  {
    && 0 < parent < |slaves|
    && Scanned(slaves[parent], t, time)
    && slaves[parent].consumedports == Unconsumed(t, port)
  }

  /** Scanning one child device itself, before its own branches. */
  lemma {:induction false} ScanChild(sc: Scan, rt: Latch, lo: nat, t: Device, time: int,
                                     parent: nat, tp: Device, ptime: int, port: nat)
    requires ValidScan(sc) && Ordered(sc.slaves) && AllClocked(sc.slaves)
    requires 0 < parent < lo < |sc.slaves|
    requires Numbered(sc.slaves, t, lo, parent) && Latched(rt, t, time)
    requires Linkable(port) && AtBranch(sc.slaves, parent, tp, ptime, port)
    requires BranchAt(tp, port).Link? && BranchAt(tp, port).child == t
    requires lo - parent <= 1 ==> Before(tp, port) == 0
    ensures var b := BranchAt(tp, port);
            var r := Step(sc, lo, rt).slaves;
            && Untouched(sc.slaves, r, lo, lo + 1, parent)
            && AtBranch(r, parent, tp, ptime, NextPort(port))
            && r[parent].pdelay == sc.slaves[parent].pdelay
            && AtBranch(r, lo, t, time, 3)
            && r[lo].pdelay == sc.slaves[parent].pdelay + Before(tp, port) + (b.forward + b.back) / 2
            && r[lo].parent == parent
  {
    var s := sc.slaves[lo];
    EnteredAtZero(s, rt, t, time);
    var slaves1 := sc.slaves[lo := Entered(s, rt)];
    assert DcParent(slaves1, lo) == (parent, lo);
    ConsumeNext(tp, port);
    var slaves2 := Consumed(slaves1, parent);
    DelayOfChild(slaves2[lo], t, time, slaves2[parent], tp, ptime, port, lo - parent <= 1);
  }

  /** A branch keeps its numbering while slaves before it are scanned. */
  lemma BranchStays(a: seq<Slave>, b: seq<Slave>, br: Branch, at: nat, lo: nat,
                    from: nat, hi: nat, parent: nat)
    requires NumberedBranch(a, br, at, lo) && at + BranchSize(br) <= |a|
    requires Untouched(a, b, from, hi, parent) && parent < at && hi <= at
    ensures NumberedBranch(b, br, at, lo)
  {
    NumberedBranchFrame(a, b, br, at, lo);
  }

  /** Without slaves on the earlier branches the frame has spent no time there. */
  lemma EarlierBranches(t: Device)
    ensures BranchSize(t.port3) == 0 ==> Before(t, 1) == 0
    ensures BranchSize(t.port3) + BranchSize(t.port1) == 0 ==> Before(t, 2) == 0
  {
  }

  lemma ClocksStay(sc: Scan, latches: seq<Latch>, lo: nat, hi: nat)
    requires ValidScan(sc) && Ordered(sc.slaves) && AllClocked(sc.slaves)
    requires 0 < lo <= hi <= |sc.slaves| <= |latches|
    ensures AllClocked(Run(sc, latches, lo, hi).slaves)
  {
  }

  lemma UntouchedTwice(a: seq<Slave>, b: seq<Slave>, c: seq<Slave>, lo: nat, mid: nat, hi: nat, parent: nat)
    requires Untouched(a, b, lo, mid, parent) && Untouched(b, c, mid, hi, parent) && lo <= mid <= hi
    ensures Untouched(a, c, lo, hi, parent)
  {
  }

  lemma {:induction false} ScanBranch(sc: Scan, latches: seq<Latch>, lo: nat,
                                      parent: nat, tp: Device, ptime: int, port: nat)
    requires ValidScan(sc) && Ordered(sc.slaves) && AllClocked(sc.slaves) && |sc.slaves| <= |latches|
    requires Linkable(port) && AtBranch(sc.slaves, parent, tp, ptime, port)
    requires parent < lo && lo + BranchSize(BranchAt(tp, port)) <= |sc.slaves|
    requires lo - parent <= 1 ==> Before(tp, port) == 0
    requires NumberedBranch(sc.slaves, BranchAt(tp, port), lo, parent)
    requires WalkedBranch(latches, BranchAt(tp, port), lo, ptime + Before(tp, port))
    ensures var b := BranchAt(tp, port);
            var r := Run(sc, latches, lo, lo + BranchSize(b)).slaves;
            && Untouched(sc.slaves, r, lo, lo + BranchSize(b), parent)
            && AtBranch(r, parent, tp, ptime, NextPort(port))
            && r[parent].pdelay == sc.slaves[parent].pdelay
            && Delays(r, lo, MeasuredBranch(b, sc.slaves[parent].pdelay + Before(tp, port)))
    decreases BranchAt(tp, port), 0
  {
    hide Step, Run, Ordered, Scanned, Unconsumed, Latched, FirstPort, Numbered, Untouched, PrevPort;
    var b := BranchAt(tp, port);
    ConsumeNext(tp, port);
    if b.Link? {
      hide Delays;
      var t, time := b.child, ptime + Before(tp, port) + b.forward;
      EnterBranch(sc, latches, lo, t, time, parent, tp, ptime, port);
      var sc1 := Run(sc, latches, lo, lo + 1);
      ScanChildren(sc1, latches, lo, t, time);
      var r := Run(sc1, latches, lo + 1, lo + Size(t));
      RunSplit(sc, latches, lo, lo + 1, lo + Size(t));
      UntouchedNested(sc.slaves, sc1.slaves, r.slaves, lo, lo + Size(t), parent);
    } else {
      NothingToScan(sc, latches, lo, parent);
    }
  }

  lemma NothingToScan(sc: Scan, latches: seq<Latch>, lo: nat, parent: nat)
    requires ValidScan(sc) && Ordered(sc.slaves) && 0 < lo <= |sc.slaves| <= |latches|
    ensures Run(sc, latches, lo, lo) == sc && Untouched(sc.slaves, sc.slaves, lo, lo, parent)
  {
  }

  /** `ScanChild`, as a run over one slave whose branches are still to come. */
  lemma {:induction false} EnterBranch(sc: Scan, latches: seq<Latch>, lo: nat, t: Device, time: int,
                                       parent: nat, tp: Device, ptime: int, port: nat)
    requires ValidScan(sc) && Ordered(sc.slaves) && AllClocked(sc.slaves) && |sc.slaves| <= |latches|
    requires 0 < parent < lo
    requires Numbered(sc.slaves, t, lo, parent) && Walked(latches, t, lo, time)
    requires Linkable(port) && AtBranch(sc.slaves, parent, tp, ptime, port)
    requires BranchAt(tp, port).Link? && BranchAt(tp, port).child == t
    requires lo - parent <= 1 ==> Before(tp, port) == 0
    ensures var b := BranchAt(tp, port);
            var r := Run(sc, latches, lo, lo + 1).slaves;
            && Untouched(sc.slaves, r, lo, lo + 1, parent)
            && AtBranch(r, parent, tp, ptime, NextPort(port))
            && r[parent].pdelay == sc.slaves[parent].pdelay
            && AtBranch(r, lo, t, time, 3)
            && ChildrenNumbered(r, t, lo)
            && r[lo].pdelay == sc.slaves[parent].pdelay + Before(tp, port) + (b.forward + b.back) / 2
  {
    hide Step, Ordered, Scanned, Unconsumed, Untouched;
    var lo1 := lo + 1 + BranchSize(t.port3);
    var lo2 := lo1 + BranchSize(t.port1);
    ScanChild(sc, latches[lo], lo, t, time, parent, tp, ptime, port);
    var r := Run(sc, latches, lo, lo + 1).slaves;
    assert Run(sc, latches, lo, lo) == sc;
    BranchStays(sc.slaves, r, t.port3, lo + 1, lo, lo, lo + 1, parent);
    BranchStays(sc.slaves, r, t.port1, lo1, lo, lo, lo + 1, parent);
    BranchStays(sc.slaves, r, t.port2, lo2, lo, lo, lo + 1, parent);
  }

  /** Scanning a child's own branches leaves its parent as scanning the child left it. */
  lemma UntouchedNested(a: seq<Slave>, b: seq<Slave>, c: seq<Slave>, lo: nat, hi: nat, parent: nat)
    requires Untouched(a, b, lo, lo + 1, parent) && Untouched(b, c, lo + 1, hi, lo) && parent < lo < hi
    ensures Untouched(a, c, lo, hi, parent)
    ensures parent < |a| ==> c[parent] == b[parent]
  {
  }

  ghost predicate ChildrenNumbered(slaves: seq<Slave>, t: Device, lo: nat) {
    && lo + Size(t) <= |slaves|
    && NumberedBranch(slaves, t.port3, lo + 1, lo)
    && NumberedBranch(slaves, t.port1, lo + 1 + BranchSize(t.port3), lo)
    && NumberedBranch(slaves, t.port2, lo + 1 + BranchSize(t.port3) + BranchSize(t.port1), lo)
  }

  lemma {:induction false} ScanChildren(sc: Scan, latches: seq<Latch>, lo: nat, t: Device, time: int)
    requires ValidScan(sc) && Ordered(sc.slaves) && AllClocked(sc.slaves) && |sc.slaves| <= |latches|
    requires AtBranch(sc.slaves, lo, t, time, 3)
    requires ChildrenNumbered(sc.slaves, t, lo) && Walked(latches, t, lo, time)
    ensures var r := Run(sc, latches, lo + 1, lo + Size(t)).slaves;
            && Untouched(sc.slaves, r, lo + 1, lo + Size(t), lo)
            && Delays(r, lo, Measured(t, sc.slaves[lo].pdelay))
    decreases t, 1
  {
    hide NumberedBranch, WalkedBranch, BranchSize, BranchDuration, ActivePorts, Children;
    hide Step, Run, AllClocked, Ordered, Scanned, Unconsumed, Numbered, Latched, Untouched, Delays, Measured, MeasuredBranch;
    var d := sc.slaves[lo].pdelay;
    var lo1 := lo + 1 + BranchSize(t.port3);
    var lo2 := lo1 + BranchSize(t.port1);
    var hi := lo2 + BranchSize(t.port2);

    EarlierBranches(t);
    ScanBranch(sc, latches, lo + 1, lo, t, time, 3);
    var sc1 := Run(sc, latches, lo + 1, lo1);
    ClocksStay(sc, latches, lo + 1, lo1);
    BranchStays(sc.slaves, sc1.slaves, t.port1, lo1, lo, lo + 1, lo1, lo);
    BranchStays(sc.slaves, sc1.slaves, t.port2, lo2, lo, lo + 1, lo1, lo);

    ScanBranch(sc1, latches, lo1, lo, t, time, 1);
    var sc2 := Run(sc1, latches, lo1, lo2);
    ClocksStay(sc1, latches, lo1, lo2);
    BranchStays(sc1.slaves, sc2.slaves, t.port2, lo2, lo, lo1, lo2, lo);

    ScanBranch(sc2, latches, lo2, lo, t, time, 2);
    var sc3 := Run(sc2, latches, lo2, hi);

    RunSplit(sc, latches, lo + 1, lo1, lo2);
    RunSplit(sc, latches, lo + 1, lo2, hi);
    UntouchedTwice(sc.slaves, sc1.slaves, sc2.slaves, lo + 1, lo1, lo2, lo);
    UntouchedTwice(sc.slaves, sc2.slaves, sc3.slaves, lo + 1, lo2, hi, lo);
    JoinDelays(sc1.slaves, sc2.slaves, sc3.slaves, lo, t, d);
  }

  /** Delays written branch by branch are the delays of the whole device. */
  lemma JoinDelays(s1: seq<Slave>, s2: seq<Slave>, s3: seq<Slave>, lo: nat, t: Device, d: int)
    requires lo + Size(t) <= |s1|
    requires var lo1 := lo + 1 + BranchSize(t.port3);
             var lo2 := lo1 + BranchSize(t.port1);
             var d1 := d + BranchDuration(t.port3);
             && Untouched(s1, s2, lo1, lo2, lo) && Untouched(s2, s3, lo2, lo + Size(t), lo)
             && s3[lo].pdelay == d
             && Delays(s1, lo + 1, MeasuredBranch(t.port3, d))
             && Delays(s2, lo1, MeasuredBranch(t.port1, d1))
             && Delays(s3, lo2, MeasuredBranch(t.port2, d1 + BranchDuration(t.port1)))
    ensures Delays(s3, lo, Measured(t, d))
  {
    var lo1 := lo + 1 + BranchSize(t.port3);
    var lo2 := lo1 + BranchSize(t.port1);
    var d1 := d + BranchDuration(t.port3);
    var m3, m1 := MeasuredBranch(t.port3, d), MeasuredBranch(t.port1, d1);
    var m2 := MeasuredBranch(t.port2, d1 + BranchDuration(t.port1));
    forall k | 0 <= k < Size(t)
      ensures s3[lo + k].pdelay == Measured(t, d)[k]
    {
      if 0 < k < lo1 - lo {
        assert s3[lo + k] == s1[lo + 1 + (k - 1)];
        assert Measured(t, d)[k] == m3[k - 1];
      } else if lo1 - lo <= k < lo2 - lo {
        assert s3[lo + k] == s2[lo1 + (k - (lo1 - lo))];
        assert Measured(t, d)[k] == m1[k - (lo1 - lo)];
      } else if lo2 - lo <= k {
        assert s3[lo + k] == s3[lo2 + (k - (lo2 - lo))];
        assert Measured(t, d)[k] == m2[k - (lo2 - lo)];
      }
    }
  }

  // ----- the whole bus

  /** Depth-first numbering puts every parent before its children. */
  lemma {:induction false} NumberedIsOrdered(slaves: seq<Slave>, t: Device, lo: nat, parent: nat)
    requires Numbered(slaves, t, lo, parent) && parent < lo
    ensures forall k :: lo <= k < lo + Size(t) ==> slaves[k].parent < k
    decreases t
  {
    var lo1 := lo + 1 + BranchSize(t.port3);
    if t.port3.Link? { NumberedIsOrdered(slaves, t.port3.child, lo + 1, lo); }
    if t.port1.Link? { NumberedIsOrdered(slaves, t.port1.child, lo1, lo); }
    if t.port2.Link? { NumberedIsOrdered(slaves, t.port2.child, lo1 + BranchSize(t.port1), lo); }
  }

  /** `slaves` lists exactly the devices of `t`, all with a clock and none measured yet. */
  ghost predicate Bus(slaves: seq<Slave>, t: Device) {
    && |slaves| == 1 + Size(t)
    && Numbered(slaves, t, 1, 0)
    && AllClocked(slaves)
    && slaves[1].pdelay == 0
  }

  /** A bus can be handed to the scan. */
  lemma BusIsOrdered(slaves: seq<Slave>, t: Device)
    requires Bus(slaves, t)
    ensures Ordered(slaves)
  {
    NumberedIsOrdered(slaves, t, 1, 0);
  }

  /** The first slave has no parent, so it keeps its delay. */
  lemma ScanFirst(slaves: seq<Slave>, latches: seq<Latch>, t: Device, time: int)
    requires Bus(slaves, t) && Ordered(slaves)
    requires |slaves| <= |latches| && Walked(latches, t, 1, time)
    ensures var r := Run(Scan(slaves, 0), latches, 1, 2).slaves;
            && Untouched(slaves, r, 1, 2, 0)
            && AtBranch(r, 1, t, time, 3)
            && r[1].pdelay == 0
  {
    EnteredAtZero(slaves[1], latches[1], t, time);
    assert Run(Scan(slaves, 0), latches, 1, 1) == Scan(slaves, 0);
  }

  /** The scan leaves `Measured` on every tree. */
  lemma ScanOfTree(slaves: seq<Slave>, latches: seq<Latch>, t: Device, time: int)
    requires Bus(slaves, t) && Ordered(slaves)
    requires |slaves| <= |latches| && Walked(latches, t, 1, time)
    ensures Delays(Run(Scan(slaves, 0), latches, 1, |slaves|).slaves, 1, Measured(t, 0))
  {
    hide Scanned, Unconsumed, Delays, Measured, Latched, ActivePorts, Children, Run, Step, Walked;
    ScanFirst(slaves, latches, t, time);
    var sc := Scan(slaves, 0);
    var sc1 := Run(sc, latches, 1, 2);
    var lo1 := 2 + BranchSize(t.port3);
    BranchStays(slaves, sc1.slaves, t.port3, 2, 1, 1, 2, 0);
    BranchStays(slaves, sc1.slaves, t.port1, lo1, 1, 1, 2, 0);
    BranchStays(slaves, sc1.slaves, t.port2, lo1 + BranchSize(t.port1), 1, 1, 2, 0);
    ScanChildren(sc1, latches, 1, t, time);
    RunSplit(sc, latches, 1, 2, |slaves|);
  }

  /** How far the measured delays are off, depth first: a link adds half of what its
      return path takes longer than its forward path, rounded down. */
  function Skews(t: Device, e: int): (skews: seq<int>)
    ensures |skews| == Size(t)
  {
    [e] + BranchSkews(t.port3, e) + BranchSkews(t.port1, e) + BranchSkews(t.port2, e)
  }

  function BranchSkews(b: Branch, e: int): (skews: seq<int>)
    ensures |skews| == BranchSize(b)
  {
    if b.Closed? then [] else Skews(b.child, e + (b.forward + b.back) / 2 - b.forward)
  }

  lemma {:induction false} MeasuredIsSkewedEntry(t: Device, d: int, time: int, e: int)
    ensures forall k :: 0 <= k < Size(t) ==>
      Measured(t, d)[k] - d == EntryTimes(t, time)[k] - time + Skews(t, e)[k] - e
    decreases t, 1
  {
    var d1, time1 := d + BranchDuration(t.port3), time + BranchDuration(t.port3);
    BranchIsSkewedEntry(t.port3, d, time, e);
    BranchIsSkewedEntry(t.port1, d1, time1, e);
    BranchIsSkewedEntry(t.port2, d1 + BranchDuration(t.port1), time1 + BranchDuration(t.port1), e);
  }

  lemma {:induction false} BranchIsSkewedEntry(b: Branch, d: int, time: int, e: int)
    ensures forall k :: 0 <= k < BranchSize(b) ==>
      MeasuredBranch(b, d)[k] - d == BranchEntryTimes(b, time)[k] - time + BranchSkews(b, e)[k] - e
    decreases b, 0
  {
    if b.Link? {
      var half := (b.forward + b.back) / 2;
      MeasuredIsSkewedEntry(b.child, d + half, time + b.forward, e + half - b.forward);
    }
  }

  /** No link's return path is faster than its forward path, or slower by more than one tick. */
  ghost predicate Balanced(t: Device) {
    BalancedBranch(t.port3) && BalancedBranch(t.port1) && BalancedBranch(t.port2)
  }

  ghost predicate BalancedBranch(b: Branch) {
    b.Link? ==> b.forward <= b.back <= b.forward + 1 && Balanced(b.child)
  }

  ghost predicate AllEqual(s: seq<int>, e: int) {
    forall k :: 0 <= k < |s| ==> s[k] == e
  }

  lemma AllEqualJoin(e: int, s3: seq<int>, s1: seq<int>, s2: seq<int>)
    ensures AllEqual([e] + s3 + s1 + s2, e) <==> AllEqual(s3, e) && AllEqual(s1, e) && AllEqual(s2, e)
  {
    var s := [e] + s3 + s1 + s2;
    assert forall k :: 0 <= k < |s3| ==> s3[k] == s[1 + k];
    assert forall k :: 0 <= k < |s1| ==> s1[k] == s[1 + |s3| + k];
    assert forall k :: 0 <= k < |s2| ==> s2[k] == s[1 + |s3| + |s1| + k];
  }

  lemma {:induction false} NoSkewIffBalanced(t: Device, e: int)
    ensures AllEqual(Skews(t, e), e) <==> Balanced(t)
    decreases t, 1
  {
    hide AllEqual;
    NoSkewIffBalancedBranch(t.port3, e);
    NoSkewIffBalancedBranch(t.port1, e);
    NoSkewIffBalancedBranch(t.port2, e);
    AllEqualJoin(e, BranchSkews(t.port3, e), BranchSkews(t.port1, e), BranchSkews(t.port2, e));
  }

  lemma {:induction false} NoSkewIffBalancedBranch(b: Branch, e: int)
    ensures AllEqual(BranchSkews(b, e), e) <==> BalancedBranch(b)
    decreases b, 0
  {
    if b.Link? {
      var e' := e + (b.forward + b.back) / 2 - b.forward;
      assert e' == e <==> b.forward <= b.back <= b.forward + 1;
      assert Skews(b.child, e')[0] == e';
      NoSkewIffBalanced(b.child, e');
    }
  }

  /** Each delay is the walk time to its slave plus the skew of the links on the way. */
  ghost predicate SkewedWalkTimes(slaves: seq<Slave>, t: Device, time: int) {
    && |slaves| == 1 + Size(t)
    && forall k :: 0 <= k < Size(t) ==> slaves[1 + k].pdelay == EntryTimes(t, time)[k] - time + Skews(t, 0)[k]
  }

  /** Each delay is exactly the time the frame takes from the first slave to that slave. */
  ghost predicate ExactWalkTimes(slaves: seq<Slave>, t: Device, time: int) {
    && |slaves| == 1 + Size(t)
    && forall k :: 0 <= k < Size(t) ==> slaves[1 + k].pdelay == EntryTimes(t, time)[k] - time
  }

  lemma ExactIffNoSkew(slaves: seq<Slave>, t: Device, time: int)
    requires SkewedWalkTimes(slaves, t, time)
    ensures ExactWalkTimes(slaves, t, time) <==> AllEqual(Skews(t, 0), 0)
  {
    hide EntryTimes, Skews;
    if ExactWalkTimes(slaves, t, time) {
      forall k | 0 <= k < Size(t) ensures Skews(t, 0)[k] == 0 {
        assert slaves[1 + k].pdelay == EntryTimes(t, time)[k] - time;
      }
    }
  }

  /** On every tree of clocked slaves and for every set of clock offsets, the scan measures
      the walk times plus link skews, and exactly the walk times if and only if every link
      is balanced.  A link with equal delays both ways is. */
  lemma DelaysAreWalkTimes(slaves: seq<Slave>, latches: seq<Latch>, t: Device, time: int)
    requires Bus(slaves, t) && Ordered(slaves)
    requires |slaves| <= |latches| && Walked(latches, t, 1, time)
    ensures var r := Run(Scan(slaves, 0), latches, 1, |slaves|).slaves;
            && SkewedWalkTimes(r, t, time)
            && (ExactWalkTimes(r, t, time) <==> Balanced(t))
  {
    hide Run, Walked, Measured, Skews, EntryTimes, Numbered, AllClocked, Balanced;
    ScanOfTree(slaves, latches, t, time);
    MeasuredIsSkewedEntry(t, 0, time, 0);
    ExactIffNoSkew(Run(Scan(slaves, 0), latches, 1, |slaves|).slaves, t, time);
    NoSkewIffBalanced(t, 0);
  }
}
