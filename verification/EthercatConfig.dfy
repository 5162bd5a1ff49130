/**
 Recovering the tree: slave configuration knows of each slave only how many of its
 ports are open, and searches the slaves before it backwards for its parent.
 */
module EthercatConfig {
  import opened EthercatTopology

  /** What one slave adds to the running count of the backward search: an end point closes
      a branch, a split opens one and a cross opens two. */
  function CountOf(topology: nat): int {
    if topology == 1 then -1 else if topology == 3 then 1 else if topology == 4 then 2 else 0
  }

  /** Result of the backward search from slave `slavec` with count `topoc`. */
  function SearchParent(slaves: seq<Slave>, slavec: nat, topoc: int): (parent: nat)
    requires 0 < slavec < |slaves|
    ensures 0 < parent <= slavec
    decreases slavec
  {
    var topology := slaves[slavec].topology;
    var count := topoc + CountOf(topology);
    if (count >= 0 && topology > 1) || slavec == 1 then slavec else SearchParent(slaves, slavec - 1, count)
  }

  function ParentOf(slaves: seq<Slave>, slave: nat): (parent: nat)
    requires 0 < slave < |slaves|
    ensures parent < slave
  {
    if slave > 1 then SearchParent(slaves, slave - 1, 0) else 0
  }

  /** The search as the configuration loop runs it for one slave. */
  method FindParent(slavelist: array<Slave>, slave: nat)
    requires 0 < slave < slavelist.Length
    modifies slavelist
    ensures slavelist[..] == old(slavelist[..])[slave := old(slavelist[slave]).(parent := ParentOf(old(slavelist[..]), slave))]
  {
    ghost var slaves := slavelist[..];
    slavelist[slave] := slavelist[slave].(parent := 0);
    if slave > 1 {
      var topoc := 0;
      var slavec := slave - 1;
      while slavec > 0
        invariant 0 <= slavec < slave
        invariant slavelist[..slave] == slaves[..slave]
        invariant slavec > 0 ==> slavelist[..] == slaves[slave := slaves[slave].(parent := 0)]
        invariant slavec > 0 ==> SearchParent(slaves, slavec, topoc) == ParentOf(slaves, slave)
        invariant slavec == 0 ==> slavelist[..] == slaves[slave := slaves[slave].(parent := ParentOf(slaves, slave))]
      {
        var topology := slavelist[slavec].topology;
        assert topology == slaves[slavec].topology;
        if topology == 1 { topoc := topoc - 1; }
        if topology == 3 { topoc := topoc + 1; }
        if topology == 4 { topoc := topoc + 2; }
        if (topoc >= 0 && topology > 1) || slavec == 1 {
          slavelist[slave] := slavelist[slave].(parent := slavec);
          slavec := 1;
        }
        slavec := slavec - 1;
      }
    }
  }

  /** Slaves `lo .. lo + Size(t)` have as many open ports as the devices of `t`, depth first. */
  ghost predicate Counted(slaves: seq<Slave>, t: Device, lo: nat)
    decreases t
  {
    && lo + Size(t) <= |slaves|
    && slaves[lo].activeports == ActivePorts(t)
    && slaves[lo].topology == 1 + Children(t)
    && CountedBranch(slaves, t.port3, lo + 1)
    && CountedBranch(slaves, t.port1, lo + 1 + BranchSize(t.port3))
    && CountedBranch(slaves, t.port2, lo + 1 + BranchSize(t.port3) + BranchSize(t.port1))
  }

  ghost predicate CountedBranch(slaves: seq<Slave>, b: Branch, lo: nat)
    decreases b
  {
    b.Link? ==> Counted(slaves, b.child, lo)
  }

  /** A complete subtree is passed by the search, lowering the count by one. */
  lemma {:induction false} SearchPassesDevice(slaves: seq<Slave>, t: Device, lo: nat, topoc: int)
    requires Counted(slaves, t, lo) && lo > 1 && topoc <= 0
    ensures SearchParent(slaves, lo + Size(t) - 1, topoc) == SearchParent(slaves, lo - 1, topoc - 1)
    decreases t, 1
  {
    var lo1 := lo + 1 + BranchSize(t.port3);
    var c2 := topoc - (if t.port2.Link? then 1 else 0);
    var c1 := c2 - (if t.port1.Link? then 1 else 0);
    hide ActivePorts, SearchParent;
    PassDevice(slaves, t, lo, topoc);
    SearchPassesBranch(slaves, t.port2, lo1 + BranchSize(t.port1), topoc);
    SearchPassesBranch(slaves, t.port1, lo1, c2);
    SearchPassesBranch(slaves, t.port3, lo + 1, c1);
  }

  /** Once its branches are passed, a device itself lowers the count to one below the start. */
  lemma PassDevice(slaves: seq<Slave>, t: Device, lo: nat, topoc: int)
    requires 1 < lo < |slaves| && slaves[lo].topology == 1 + Children(t) && topoc <= 0
    ensures SearchParent(slaves, lo, topoc - Children(t)) == SearchParent(slaves, lo - 1, topoc - 1)
  {
  }

  lemma {:induction false} SearchPassesBranch(slaves: seq<Slave>, b: Branch, lo: nat, topoc: int)
    requires CountedBranch(slaves, b, lo) && lo > 1 && topoc <= 0 && lo + BranchSize(b) <= |slaves|
    ensures SearchParent(slaves, lo + BranchSize(b) - 1, topoc)
         == SearchParent(slaves, lo - 1, topoc - (if b.Link? then 1 else 0))
    decreases b, 0
  {
    if b.Link? {
      SearchPassesDevice(slaves, b.child, lo, topoc);
    }
  }

  /** Every slave's parent field holds what the search found for it. */
  ghost predicate ParentsSearched(slaves: seq<Slave>) {
    forall k :: 0 < k < |slaves| ==> slaves[k].parent == ParentOf(slaves, k)
  }

  /** After fewer complete branches than it has, the search stops at a device. */
  lemma SearchStops(slaves: seq<Slave>, t: Device, lo: nat, topoc: int)
    requires 0 < lo < |slaves| && slaves[lo].topology == 1 + Children(t)
    requires topoc <= 0 < topoc + Children(t)
    ensures SearchParent(slaves, lo, topoc) == lo
  {
  }

  lemma ParentOfBranches(slaves: seq<Slave>, t: Device, lo: nat)
    requires Counted(slaves, t, lo) && 0 < lo
    ensures t.port3.Link? ==> ParentOf(slaves, lo + 1) == lo
    ensures t.port1.Link? ==> ParentOf(slaves, lo + 1 + BranchSize(t.port3)) == lo
    ensures t.port2.Link? ==>
              var lo2 := lo + 1 + BranchSize(t.port3) + BranchSize(t.port1);
              lo2 < |slaves| && ParentOf(slaves, lo2) == lo
  {
    hide SearchParent;
    var lo1 := lo + 1 + BranchSize(t.port3);
    var n3, n1 := if t.port3.Link? then 1 else 0, if t.port1.Link? then 1 else 0;
    if t.port3.Link? {
      SearchStops(slaves, t, lo, 0);
    }
    if t.port1.Link? {
      SearchPassesBranch(slaves, t.port3, lo + 1, 0);
      SearchStops(slaves, t, lo, -n3);
    }
    if t.port2.Link? {
      assert Counted(slaves, t.port2.child, lo1 + BranchSize(t.port1));
      SearchPassesBranch(slaves, t.port1, lo1, 0);
      SearchPassesBranch(slaves, t.port3, lo + 1, -n1);
      SearchStops(slaves, t, lo, -n1 - n3);
    }
  }

  lemma {:induction false} SearchFindsTree(slaves: seq<Slave>, t: Device, lo: nat, parent: nat)
    requires ParentsSearched(slaves) && 0 < lo
    requires Counted(slaves, t, lo) && ParentOf(slaves, lo) == parent
    ensures Numbered(slaves, t, lo, parent)
    decreases t
  {
    hide ParentOf;
    var lo1 := lo + 1 + BranchSize(t.port3);
    ParentOfBranches(slaves, t, lo);
    if t.port3.Link? { SearchFindsTree(slaves, t.port3.child, lo + 1, lo); }
    if t.port1.Link? { SearchFindsTree(slaves, t.port1.child, lo1, lo); }
    if t.port2.Link? { SearchFindsTree(slaves, t.port2.child, lo1 + BranchSize(t.port1), lo); }
  }

  /** Open-port counts, depth first, determine the tree: the search gives every slave its
      parent on every tree. */
  lemma ParentSearchRecoversTree(slaves: seq<Slave>, t: Device)
    requires |slaves| == 1 + Size(t) && Counted(slaves, t, 1) && ParentsSearched(slaves)
    ensures Numbered(slaves, t, 1, 0)
  {
    SearchFindsTree(slaves, t, 1, 0);
  }
}
