/**
 The status barrier of the motors: statuses are collected until every motor has reported, and
 then published together.  A miss counts as a report without a status.  What the manager does
 is stated over the whole history of its callbacks.
 */
module MotorDeviceManager {
  /** A motor status; the name is filled in by the callback. */
  datatype MotorStatus = MotorStatus(name: nat, position: real, speed: real, current: real, temperature: real)

  /** Making a motor, its callbacks (motors are numbered as they were made), and the question
      whether all are ready. */
  datatype Event = NewDevice(name: nat) | OnStatus(motor: nat, status: MotorStatus) | OnMiss(motor: nat) | AskReady

  // ----- the history

  function Names(es: seq<Event>): seq<nat> {
    if es == [] then []
    else Names(es[..|es| - 1]) + match es[|es| - 1] case NewDevice(name) => [name] case _ => []
  }

  /** Callbacks come from motors that were made, with their name. */
  predicate Proper(es: seq<Event>) {
    es == [] ||
    (var before := es[..|es| - 1];
     && Proper(before)
     && match es[|es| - 1]
        case OnStatus(m, s) => m < |Names(before)| && s.name == Names(before)[m]
        case OnMiss(m) => m < |Names(before)|
        case _ => true)
  }

  predicate IsCallback(e: Event) {
    e.OnStatus? || e.OnMiss?
  }

  /** Names are keys of 16 bits in the table of motors; the first motor of a key is kept. */
  function Key(name: nat): nat {
    name % 0x1_0000
  }

  predicate Mapped(names: seq<nat>, m: nat) {
    m < |names| && forall k | 0 <= k < m :: Key(names[k]) != Key(names[m])
  }

  predicate HasStatus(es: seq<Event>, m: nat) {
    exists j :: 0 <= j < |es| && es[j].OnStatus? && es[j].motor == m
  }

  predicate AllReady(es: seq<Event>) {
    forall m | 0 <= m < |Names(es)| :: Mapped(Names(es), m) ==> HasStatus(es, m)
  }

  /** At some callback or question so far, all motors in the table had delivered a status. */
  predicate Latched(es: seq<Event>) {
    es != [] && (Latched(es[..|es| - 1]) || (!es[|es| - 1].NewDevice? && AllReady(es)))
  }

  /** The motor of this name has reported since the last publication before the last event. */
  predicate Reported(es: seq<Event>, name: nat)
    decreases |es|, 0
  {
    if es == [] then false
    else
      var before := es[..|es| - 1];
      match es[|es| - 1]
      case NewDevice(n) => n != name && Kept(before, name)
      case OnStatus(m, _) => (m < |Names(before)| && Names(before)[m] == name) || Kept(before, name)
      case OnMiss(m) => (m < |Names(before)| && Names(before)[m] == name) || Kept(before, name)
      case AskReady => Kept(before, name)
  }

  predicate Kept(es: seq<Event>, name: nat)
    decreases |es|, 2
  {
    Reported(es, name) && !Due(es)
  }

  /** The last event is a callback by which all motors have been ready once and every name has
      reported since the previous publication. */
  predicate Due(es: seq<Event>)
    decreases |es|, 1
  {
    && es != []
    && IsCallback(es[|es| - 1])
    && Latched(es)
    && forall k | 0 <= k < |Names(es)| :: Reported(es, Names(es)[k])
  }

  // ----- statuses delivered, pending, published

  function Delivered(es: seq<Event>): seq<MotorStatus> {
    if es == [] then []
    else Delivered(es[..|es| - 1]) + match es[|es| - 1] case OnStatus(_, s) => [s] case _ => []
  }

  /** Statuses since the last publication, and the lists published. */
  function Pending(es: seq<Event>): seq<MotorStatus> {
    if es == [] || Due(es) then []
    else Pending(es[..|es| - 1]) + match es[|es| - 1] case OnStatus(_, s) => [s] case _ => []
  }

  function Published(es: seq<Event>): seq<seq<MotorStatus>> {
    if es == [] then []
    else
      var before := es[..|es| - 1];
      Published(before)
      + if Due(es) then [Pending(before) + match es[|es| - 1] case OnStatus(_, s) => [s] case _ => []] else []
  }

  function Concat(lists: seq<seq<MotorStatus>>): seq<MotorStatus> {
    if lists == [] then [] else Concat(lists[..|lists| - 1]) + lists[|lists| - 1]
  }

  /** No status is lost, doubled or reordered. */
  lemma {:induction false} StatusesConserved(es: seq<Event>)
    ensures Concat(Published(es)) + Pending(es) == Delivered(es)
  {
    hide Due;
    if es != [] {
      var before := es[..|es| - 1];
      StatusesConserved(before);
      var last := match es[|es| - 1] case OnStatus(_, s) => [s] case _ => [];
      var done := Published(before);
      assert Concat(done) + (Pending(before) + last) == Delivered(before) + last;
      if Due(es) {
        var out := Pending(before) + last;
        assert (done + [out])[..|done|] == done;
        assert Published(es) == done + [out] && Concat(done + [out]) == Concat(done) + out;
      } else {
        assert Published(es) == done;
      }
    }
  }

  /** Where the current collection began: behind the last publication before the last event. */
  function WindowStart(es: seq<Event>): (n: nat)
    ensures n <= |es| && (es != [] ==> n < |es|)
  {
    if es == [] then 0
    else
      var before := es[..|es| - 1];
      if Due(before) then |before| else WindowStart(before)
  }

  /** The length of the history up to the last motor made with that name, 0 if there is none. */
  function LastMade(es: seq<Event>, name: nat): (n: nat)
    ensures n <= |es|
  {
    if es == [] then 0
    else if es[|es| - 1] == NewDevice(name) then |es|
    else LastMade(es[..|es| - 1], name)
  }

  /** A motor of that name called back in the current collection, since the last was made. */
  predicate CalledSince(es: seq<Event>, name: nat) {
    exists j :: WindowStart(es) <= j < |es| && LastMade(es, name) <= j && CallsBack(es, j, name)
  }

  lemma CalledSinceStep(es: seq<Event>, name: nat)
    requires es != []
    ensures var before := es[..|es| - 1];
            CalledSince(es, name)
            <==> CallsBack(es, |before|, name)
                 || (es[|es| - 1] != NewDevice(name) && !Due(before) && CalledSince(before, name))
  {
    hide CallsBack, Due;
    var before := es[..|es| - 1];
    CallsBackPrefix(es, name);
    if es[|es| - 1].NewDevice? {
      MadeIsNoCallback(es, name);
    }
    if CalledSince(es, name) {
      var j :| WindowStart(es) <= j < |es| && LastMade(es, name) <= j && CallsBack(es, j, name);
      if j < |before| {
        assert CallsBack(before, j, name);
      }
    }
    if es[|es| - 1] != NewDevice(name) && !Due(before) && CalledSince(before, name) {
      var j :| WindowStart(before) <= j < |before| && LastMade(before, name) <= j && CallsBack(before, j, name);
      assert CallsBack(es, j, name);
    }
  }

  lemma MadeIsNoCallback(es: seq<Event>, name: nat)
    requires es != [] && es[|es| - 1].NewDevice?
    ensures !CallsBack(es, |es| - 1, name)
  {
  }

  /** A name counts as reported exactly if its motor called back in the current collection, since
      the last motor of that name was made. */
  lemma {:induction false} ReportedIffCalledBack(es: seq<Event>, name: nat)
    requires Proper(es)
    ensures Reported(es, name) <==> CalledSince(es, name)
  {
    hide CalledSince, LastMade;
    if es == [] {
      NothingCalled(name);
    } else {
      var before := es[..|es| - 1];
      CalledSinceStep(es, name);
      ReportedIffCalledBack(before, name);
    }
  }

  lemma NothingCalled(name: nat)
    ensures !CalledSince([], name)
  {
  }

  predicate CallsBack(es: seq<Event>, j: nat, name: nat)
    requires j < |es|
  {
    IsCallback(es[j]) && es[j].motor < |Names(es[..j])| && Names(es[..j])[es[j].motor] == name
  }

  lemma CallsBackPrefix(es: seq<Event>, name: nat)
    requires es != []
    ensures forall j | 0 <= j < |es| - 1 :: CallsBack(es[..|es| - 1], j, name) <==> CallsBack(es, j, name)
  {
    forall j | 0 <= j < |es| - 1
      ensures CallsBack(es[..|es| - 1], j, name) <==> CallsBack(es, j, name)
    {
      assert es[..|es| - 1][..j] == es[..j];
    }
  }

  lemma DueNeedsAll(es: seq<Event>, k: nat)
    requires Due(es) && k < |Names(es)|
    ensures Reported(es, Names(es)[k])
  {
    hide Latched, Names;
  }

  lemma AllMakeDue(es: seq<Event>)
    requires es != [] && IsCallback(es[|es| - 1]) && Latched(es)
    requires forall k | 0 <= k < |Names(es)| :: Reported(es, Names(es)[k])
    ensures Due(es)
  {
    hide Latched, Names;
  }

  /** Over every history, the first list and motors made in between included: a list is published
      exactly at a callback by which the manager is ready and every name has called back since
      the last publication and since its motor was made. */
  lemma DueIffAllCalledBack(es: seq<Event>)
    requires Proper(es)
    ensures Due(es) <==>
      && es != [] && IsCallback(es[|es| - 1]) && Latched(es)
      && forall k | 0 <= k < |Names(es)| :: CalledSince(es, Names(es)[k])
  {
    hide Latched, CalledSince, Names, Reported, Due;
    forall k | 0 <= k < |Names(es)|
      ensures Reported(es, Names(es)[k]) <==> CalledSince(es, Names(es)[k])
    {
      ReportedIffCalledBack(es, Names(es)[k]);
    }
    if Due(es) {
      DueIsCallback(es);
      forall k | 0 <= k < |Names(es)|
        ensures CalledSince(es, Names(es)[k])
      {
        DueNeedsAll(es, k);
      }
    } else if es != [] && IsCallback(es[|es| - 1]) && Latched(es)
              && forall k | 0 <= k < |Names(es)| :: CalledSince(es, Names(es)[k]) {
      AllMakeDue(es);
    }
  }

  lemma DueIsCallback(es: seq<Event>)
    requires Due(es)
    ensures es != [] && IsCallback(es[|es| - 1]) && Latched(es)
  {
    hide Latched, Names;
  }

  /** When the motors are made before anything else happens, the manager is ready exactly when
      every motor in its table has delivered a status. */
  lemma {:induction false} LatchedIffAllReady(es: seq<Event>, n: nat)
    requires n < |es|
    requires forall j | 0 <= j < n :: es[j].NewDevice?
    requires forall j | n <= j < |es| :: !es[j].NewDevice?
    ensures Latched(es) <==> AllReady(es)
  {
    var before := es[..|es| - 1];
    if |before| > n {
      LatchedIffAllReady(before, n);
      ReadyStays(before, es[|es| - 1]);
      assert before + [es[|es| - 1]] == es;
    } else {
      NotLatchedYet(before);
    }
  }

  lemma {:induction false} NotLatchedYet(es: seq<Event>)
    requires forall j | 0 <= j < |es| :: es[j].NewDevice?
    ensures !Latched(es)
  {
    if es != [] {
      NotLatchedYet(es[..|es| - 1]);
    }
  }

  lemma ReadyStays(es: seq<Event>, e: Event)
    requires !e.NewDevice?
    ensures AllReady(es) ==> AllReady(es + [e])
  {
    assert (es + [e])[..|es|] == es;
    assert Names(es + [e]) == Names(es);
    forall m | HasStatus(es, m)
      ensures HasStatus(es + [e], m)
    {
      var j :| 0 <= j < |es| && es[j].OnStatus? && es[j].motor == m;
      assert (es + [e])[j] == es[j];
    }
  }

  // ----- ready only when all motors are

  /** At no point so far did the manager count as ready while a motor in its table had not
      delivered a status. */
  predicate NeverEarly(es: seq<Event>) {
    (Latched(es) ==> AllReady(es)) && (es != [] ==> NeverEarly(es[..|es| - 1]))
  }

  /** A motor that enters the table after the manager is ready. */
  predicate MadeLate(es: seq<Event>)
    requires es != []
  {
    var before := es[..|es| - 1];
    es[|es| - 1].NewDevice? && Mapped(Names(es), |Names(before)|) && Latched(before)
  }

  predicate NoneMadeLate(es: seq<Event>) {
    es != [] ==> !MadeLate(es) && NoneMadeLate(es[..|es| - 1])
  }

  /** Over every history: readiness is never early if and only if no motor with a key of its own
      is made once the manager is ready. */
  lemma {:induction false} NeverEarlyIffNoneMadeLate(es: seq<Event>)
    requires Proper(es)
    ensures NeverEarly(es) <==> NoneMadeLate(es)
  {
    hide Latched, AllReady, MadeLate;
    if es == [] {
      NothingLatched();
    } else {
      NeverEarlyIffNoneMadeLate(es[..|es| - 1]);
      if NeverEarly(es[..|es| - 1]) {
        EarlyStep(es);
      }
    }
  }

  /** So if no motor is made late, the manager is ready at a callback or question exactly if every
      motor in its table has delivered a status. */
  lemma ReadyIffAllDelivered(es: seq<Event>)
    requires Proper(es) && es != [] && !es[|es| - 1].NewDevice? && NoneMadeLate(es)
    ensures Latched(es) <==> AllReady(es)
  {
    hide AllReady, NoneMadeLate, Mapped;
    NeverEarlyIffNoneMadeLate(es);
  }

  lemma NothingLatched()
    ensures !Latched([])
  {
  }

  lemma EarlyStep(es: seq<Event>)
    requires Proper(es) && es != [] && (Latched(es[..|es| - 1]) ==> AllReady(es[..|es| - 1]))
    ensures (Latched(es) ==> AllReady(es)) <==> !MadeLate(es)
  {
    hide AllReady, Mapped;
    var before, e := es[..|es| - 1], es[|es| - 1];
    assert before + [e] == es;
    if e.NewDevice? {
      MadeReady(before, e.name);
    } else {
      ReadyStays(before, e);
    }
  }

  /** A motor that has just been made has delivered nothing; if its key is taken, nobody waits
      for it. */
  lemma MadeReady(es: seq<Event>, name: nat)
    requires Proper(es)
    ensures var more := es + [NewDevice(name)];
            AllReady(more) <==> AllReady(es) && !Mapped(Names(more), |Names(es)|)
  {
    var more := es + [NewDevice(name)];
    Appended(es, NewDevice(name));
    var names := Names(es);
    assert Names(more) == names + [name];
    forall m | 0 <= m < |names|
      ensures Mapped(Names(more), m) <==> Mapped(names, m)
    {
      assert forall k | 0 <= k <= m :: Names(more)[k] == names[k];
    }
    if HasStatus(es, |names|) {
      StatusesFromMotors(es, |names|);
    }
  }

  // ----- motors that share a key

  function Made(names: seq<nat>): (es: seq<Event>)
    ensures |es| == |names|
  {
    seq(|names|, k requires 0 <= k < |names| => NewDevice(names[k]))
  }

  predicate DistinctKeys(names: seq<nat>) {
    forall k, m | 0 <= k < m < |names| :: Key(names[k]) != Key(names[m])
  }

  /** In this run, with the motors made first, readiness means that every motor has delivered a
      status. */
  predicate Waits(names: seq<nat>, later: seq<Event>) {
    var es := Made(names) + later;
    Proper(es) && Latched(es) && (forall j | 0 <= j < |later| :: !later[j].NewDevice?)
    ==> forall m | 0 <= m < |names| :: HasStatus(es, m)
  }

  lemma {:induction false} NamesOfRun(names: seq<nat>, later: seq<Event>)
    requires forall j | 0 <= j < |later| :: !later[j].NewDevice?
    ensures Names(Made(names) + later) == names
    decreases |names| + |later|
  {
    var es := Made(names) + later;
    if later != [] {
      assert es[..|es| - 1] == Made(names) + later[..|later| - 1];
      NamesOfRun(names, later[..|later| - 1]);
    } else if names != [] {
      var n := |names| - 1;
      assert Made(names)[..n] == Made(names[..n]) && es == Made(names);
      assert Made(names[..n]) + [] == Made(names[..n]);
      NamesOfRun(names[..n], []);
      assert names == names[..n] + [names[n]];
    }
  }

  /** Every motor made is waited for in every run if and only if no two names share a key. */
  lemma EveryMotorAwaited(names: seq<nat>)
    ensures (forall later: seq<Event> :: Waits(names, later)) <==> DistinctKeys(names)
  {
    if DistinctKeys(names) {
      forall later: seq<Event>
        ensures Waits(names, later)
      {
        DistinctWaits(names, later);
      }
    } else {
      var k, m :| 0 <= k < m < |names| && Key(names[k]) == Key(names[m]);
      SharedKeyIsNotAwaited(names, m);
      assert !Waits(names, AllButOne(names, |names|, m));
    }
  }

  lemma DistinctWaits(names: seq<nat>, later: seq<Event>)
    requires DistinctKeys(names)
    ensures Waits(names, later)
  {
    var es := Made(names) + later;
    if Proper(es) && Latched(es) && forall j | 0 <= j < |later| :: !later[j].NewDevice? {
      NamesOfRun(names, later);
      if later == [] {
        NotLatchedYet(es);
      } else {
        LatchedIffAllReady(es, |names|);
        assert forall m | 0 <= m < |names| :: Mapped(names, m);
      }
    }
  }

  /** A status from every motor below `n` but one. */
  function AllButOne(names: seq<nat>, n: nat, m: nat): (es: seq<Event>)
    requires n <= |names|
    ensures forall j | 0 <= j < |es| :: es[j].OnStatus? && es[j].motor < n && es[j].motor != m
                                       && es[j].status.name == names[es[j].motor]
    ensures forall k | 0 <= k < n && k != m :: HasStatus(es, k)
  {
    if n == 0 then []
    else if n - 1 == m then AllButOne(names, n - 1, m)
    else
      var front := AllButOne(names, n - 1, m);
      var last := OnStatus(n - 1, MotorStatus(names[n - 1], 0.0, 0.0, 0.0, 0.0));
      Appended(front, last);
      front + [last]
  }

  lemma SharedKeyIsNotAwaited(names: seq<nat>, m: nat)
    requires m < |names| && !Mapped(names, m)
    ensures !Waits(names, AllButOne(names, |names|, m))
  {
    hide AllButOne, Mapped;
    var later := AllButOne(names, |names|, m);
    var es := Made(names) + later;
    NamesOfRun(names, later);
    StatusesProper(names, later);
    OneIsMapped(names);
    assert HasStatus(later, 0);
    LatchedIffAllReady(es, |names|);
    forall k | 0 <= k < |names| && k != m
      ensures HasStatus(es, k)
    {
      assert HasStatus(later, k);
      var j :| 0 <= j < |later| && later[j].OnStatus? && later[j].motor == k;
      assert es[|names| + j] == later[j];
    }
    assert AllReady(es);
    assert !HasStatus(es, m);
  }

  lemma OneIsMapped(names: seq<nat>)
    requires names != []
    ensures Mapped(names, 0)
  {
  }

  lemma {:induction false} StatusesProper(names: seq<nat>, later: seq<Event>)
    requires forall j | 0 <= j < |later| :: later[j].OnStatus? && later[j].motor < |names|
                                           && later[j].status.name == names[later[j].motor]
    ensures Proper(Made(names) + later)
    decreases |names| + |later|
  {
    var es := Made(names) + later;
    if later != [] {
      var front := later[..|later| - 1];
      assert es[..|es| - 1] == Made(names) + front;
      StatusesProper(names, front);
      NamesOfRun(names, front);
    } else if names != [] {
      var n := |names| - 1;
      assert es[..n] == Made(names[..n]) + [];
      StatusesProper(names[..n], []);
    }
  }

  /** Motors 1 and 65537: the manager is ready although the second has delivered nothing. */
  lemma SharedKey(s: MotorStatus)
    requires s.name == 1
    ensures var es := [NewDevice(1), NewDevice(65537), OnStatus(0, s)];
            Proper(es) && Latched(es) && !HasStatus(es, 1)
  {
    var es := [NewDevice(1), NewDevice(65537), OnStatus(0, s)];
    var made := [NewDevice(1), NewDevice(65537)];
    assert es[..2] == made && made[..1] == [NewDevice(1)] && [NewDevice(1)][..0] == [];
    assert Names([NewDevice(1)]) == [1] && Names(made) == [1, 65537] && Names(es) == [1, 65537];
    assert Proper([NewDevice(1)]) && Proper(made);
    assert !Mapped([1, 65537], 1) by {
      assert Key([1, 65537][0]) == Key([1, 65537][1]);
    }
    assert HasStatus(es, 0) by {
      assert es[2].OnStatus? && es[2].motor == 0;
    }
    assert AllReady(es);
  }

  /** Asked before any motor is made, the manager is ready for good: a list can be published
      before the motor has delivered anything. */
  lemma AskedTooEarly(name: nat)
    ensures var es := [AskReady, NewDevice(name), OnMiss(0)];
            Proper(es) && Due(es) && !HasStatus(es, 0)
  {
    var es := [AskReady, NewDevice(name), OnMiss(0)];
    var made := [AskReady, NewDevice(name)];
    assert es[..2] == made && made[..1] == [AskReady] && [AskReady][..0] == [];
    assert Names([AskReady]) == [] && Names(made) == [name] && Names(es) == [name];
    assert AllReady([AskReady]) && Latched([AskReady]) && Latched(made);
    assert Reported(es, name);
  }

  // ----- the implementation

  /** The table has, for every key, the first motor with it. */
  predicate TableOk(mapByName: map<nat, nat>, names: seq<nat>) {
    && (forall key | key in mapByName :: Mapped(names, mapByName[key]) && Key(names[mapByName[key]]) == key)
    && (forall m | 0 <= m < |names| :: Key(names[m]) in mapByName)
  }

  lemma TableCoversMapped(mapByName: map<nat, nat>, names: seq<nat>, m: nat)
    requires TableOk(mapByName, names) && Mapped(names, m)
    ensures Key(names[m]) in mapByName && mapByName[Key(names[m])] == m
  {
    var k := mapByName[Key(names[m])];
    assert Mapped(names, k);
  }

  lemma TableInsert(mapByName: map<nat, nat>, names: seq<nat>, name: nat)
    requires TableOk(mapByName, names)
    ensures TableOk(if Key(name) in mapByName then mapByName else mapByName[Key(name) := |names|], names + [name])
  {
    var more := names + [name];
    forall m | 0 <= m < |names|
      ensures Mapped(more, m) <==> Mapped(names, m)
    {
      assert forall k | 0 <= k <= m :: more[k] == names[k];
    }
    if Key(name) !in mapByName {
      assert Mapped(more, |names|);
    }
  }

  class Manager {
    var names: seq<nat>
    /** The `ready` flags of the motors: set when a motor delivers a status. */
    var deviceReady: seq<bool>
    var mapByName: map<nat, nat>
    var statusReady: map<nat, bool>
    var msgStatus: seq<MotorStatus>
    var ready: bool
    /** The lists handed to the subscriber. */
    var published: seq<seq<MotorStatus>>
    ghost var es: seq<Event>

    /** The tables of motors match the history. */
    ghost predicate Registered(es: seq<Event>)
      reads this
    {
      && Proper(es)
      && names == Names(es)
      && TableOk(mapByName, names)
      && |deviceReady| == |names|
      && (forall m | 0 <= m < |names| :: deviceReady[m] <==> HasStatus(es, m))
      && statusReady.Keys == NameSet(names)
    }

    ghost predicate Valid()
      reads this
    {
      && Registered(es)
      && (forall n | n in statusReady :: statusReady[n] <==> Kept(es, n))
      && ready == Latched(es)
      && msgStatus == Pending(es)
      && published == Published(es)
    }

    constructor ()
      ensures Valid() && es == []
    {
      names, deviceReady, mapByName, statusReady := [], [], map[], map[];
      msgStatus, ready, published, es := [], false, [], [];
    }

    method New(name: nat)
      requires Valid()
      modifies this
      ensures Valid() && es == old(es) + [NewDevice(name)]
    {
      hide Mapped, TableOk, HasStatus, NameSet, Latched, Key, Kept, Pending, Published;
      Appended(es, NewDevice(name));
      if HasStatus(es, |names|) {
        StatusesFromMotors(es, |names|);
      }
      NameSetAppended(names, name);
      TableInsert(mapByName, names, name);
      NewKeeps(es, name);
      if Key(name) !in mapByName {
        mapByName := mapByName[Key(name) := |names|];
      }
      names := names + [name];
      deviceReady := deviceReady + [false];
      statusReady := statusReady[name := false];
      es := es + [NewDevice(name)];
    }

    /** All motors in the table are ready now, or were before. */
    method IsReady() returns (r: bool)
      requires Registered(es) && es != [] && !es[|es| - 1].NewDevice? && ready == Latched(es[..|es| - 1])
      modifies this`ready
      ensures r == ready == Latched(es)
    {
      if !ready {
        var readyAllDevices := true;
        var rest := mapByName.Keys;
        while rest != {}
          invariant rest <= mapByName.Keys
          invariant readyAllDevices <==> forall key | key in mapByName.Keys - rest :: deviceReady[mapByName[key]]
          decreases |rest|
        {
          var key :| key in rest;
          rest := rest - {key};
          readyAllDevices := readyAllDevices && deviceReady[mapByName[key]];
        }
        AllReadyInTable();
        ready := readyAllDevices;
      }
      r := ready;
    }

    /** The callback has been entered in the tables, and nothing else has happened yet. */
    ghost predicate Entered()
      reads this
    {
      && Registered(es)
      && es != [] && IsCallback(es[|es| - 1])
      && (var before := es[..|es| - 1];
          && ready == Latched(before)
          && (forall n | n in statusReady :: statusReady[n] <==> Reported(es, n))
          && msgStatus == Pending(before) + (match es[|es| - 1] case OnStatus(_, s) => [s] case _ => [])
          && published == Published(before))
    }

    method AllReported() returns (readyAllStatus: bool)
      ensures readyAllStatus <==> forall n | n in statusReady :: statusReady[n]
    {
      readyAllStatus := true;
      var rest := statusReady.Keys;
      while rest != {}
        invariant rest <= statusReady.Keys
        invariant readyAllStatus <==> forall n | n in statusReady.Keys - rest :: statusReady[n]
        decreases |rest|
      {
        var n :| n in rest;
        rest := rest - {n};
        readyAllStatus := readyAllStatus && statusReady[n];
      }
    }

    /** Publishes the collected statuses if all motors have been ready and every name has
        reported. */
    method CheckAndSendStatus()
      requires Entered()
      modifies this`ready, this`statusReady, this`msgStatus, this`published
      ensures Valid()
    {
      hide Latched, Reported, TableOk, HasStatus, Due, Kept, Pending, Published;
      Settled(es);
      DueInTable();
      var allReady := IsReady();
      if allReady {
        var readyAllStatus := AllReported();
        if readyAllStatus {
          published := published + [msgStatus];
          statusReady := map n | n in statusReady :: false;
          msgStatus := [];
        }
      }
    }

    lemma DueInTable()
      requires Registered(es) && es != [] && IsCallback(es[|es| - 1])
      requires forall n | n in statusReady :: statusReady[n] <==> Reported(es, n)
      ensures Due(es) <==> Latched(es) && forall n | n in statusReady :: statusReady[n]
    {
      hide Latched, Reported, TableOk, HasStatus;
      assert forall k | 0 <= k < |names| :: names[k] in statusReady;
    }

    /** The status callback of motor `m`, which sets its ready flag first. */
    method ReportStatus(m: nat, position: real, speed: real, current: real, temperature: real)
      requires Valid() && m < |names|
      modifies this
      ensures Valid()
      ensures es == old(es) + [OnStatus(m, MotorStatus(old(names[m]), position, speed, current, temperature))]
      ensures names == old(names)
    {
      hide Latched, TableOk, HasStatus, NameSet, Due, Pending, Published;
      var status := MotorStatus(names[m], position, speed, current, temperature);
      Appended(es, OnStatus(m, status));
      deviceReady := deviceReady[m := true];
      msgStatus := msgStatus + [status];
      NameIn(names, m);
      statusReady := statusReady[names[m] := true];
      es := es + [OnStatus(m, status)];
      CheckAndSendStatus();
    }

    /** The callback for a cycle without an answer. */
    method ReportMiss(m: nat)
      requires Valid() && m < |names|
      modifies this
      ensures Valid() && es == old(es) + [OnMiss(m)] && names == old(names)
    {
      hide Latched, TableOk, HasStatus, NameSet, Due, Pending, Published;
      Appended(es, OnMiss(m));
      NameIn(names, m);
      statusReady := statusReady[names[m] := true];
      es := es + [OnMiss(m)];
      CheckAndSendStatus();
    }

    /** The question from outside, which may latch the readiness too. */
    method Ask() returns (r: bool)
      requires Valid()
      modifies this
      ensures Valid() && es == old(es) + [AskReady] && r == Latched(es)
    {
      hide Latched, TableOk, HasStatus, NameSet, Due, Kept, Pending, Published;
      Appended(es, AskReady);
      AskKeeps(es);
      es := es + [AskReady];
      r := IsReady();
    }

    lemma AllReadyInTable()
      requires Registered(es)
      ensures AllReady(es) <==> forall key | key in mapByName :: deviceReady[mapByName[key]]
    {
      forall m | 0 <= m < |names| && Mapped(names, m)
        ensures Key(names[m]) in mapByName && mapByName[Key(names[m])] == m
      {
        TableCoversMapped(mapByName, names, m);
      }
    }
  }

  /** Making a motor changes what is kept only for its own name. */
  lemma NewKeeps(es: seq<Event>, name: nat)
    ensures var more := es + [NewDevice(name)];
            && (forall n :: Kept(more, n) <==> n != name && Kept(es, n))
            && Latched(more) == Latched(es)
            && Pending(more) == Pending(es)
            && Published(more) == Published(es)
  {
    var more := es + [NewDevice(name)];
    assert more[..|es|] == es;
    assert !Due(more);
  }

  lemma AskKeeps(es: seq<Event>)
    ensures var more := es + [AskReady];
            && (forall n :: Kept(more, n) <==> Kept(es, n))
            && Pending(more) == Pending(es)
            && Published(more) == Published(es)
  {
    var more := es + [AskReady];
    assert more[..|es|] == es;
    assert !Due(more);
  }

  /** What a callback adds to the pending and published statuses. */
  lemma Settled(es: seq<Event>)
    requires es != []
    ensures var before := es[..|es| - 1];
            var all := Pending(before) + (match es[|es| - 1] case OnStatus(_, s) => [s] case _ => []);
            && Pending(es) == (if Due(es) then [] else all)
            && Published(es) == Published(before) + (if Due(es) then [all] else [])
    ensures forall n :: Kept(es, n) <==> Reported(es, n) && !Due(es)
  {
    hide Due, Reported;
  }

  lemma Appended(es: seq<Event>, e: Event)
    ensures (es + [e])[..|es|] == es
    ensures forall m :: HasStatus(es + [e], m) <==> HasStatus(es, m) || (e.OnStatus? && e.motor == m)
  {
    var more := es + [e];
    forall m
      ensures HasStatus(more, m) <==> HasStatus(es, m) || (e.OnStatus? && e.motor == m)
    {
      if HasStatus(es, m) {
        var j :| 0 <= j < |es| && es[j].OnStatus? && es[j].motor == m;
        assert more[j] == es[j];
      }
      if e.OnStatus? && e.motor == m {
        assert more[|es|] == e;
      }
    }
  }

  lemma {:induction false} StatusesFromMotors(es: seq<Event>, m: nat)
    requires Proper(es) && HasStatus(es, m)
    ensures m < |Names(es)|
  {
    var before := es[..|es| - 1];
    var j :| 0 <= j < |es| && es[j].OnStatus? && es[j].motor == m;
    if j < |before| {
      assert before[j] == es[j];
      StatusesFromMotors(before, m);
    }
  }

  lemma NameIn(names: seq<nat>, m: nat)
    requires m < |names|
    ensures names[m] in NameSet(names) && {names[m]} + NameSet(names) == NameSet(names)
  {
  }

  function NameSet(names: seq<nat>): set<nat> {
    set k | 0 <= k < |names| :: names[k]
  }

  lemma NameSetAppended(names: seq<nat>, name: nat)
    ensures NameSet(names + [name]) == NameSet(names) + {name}
  {
    var more := names + [name];
    assert more[|names|] == name;
    forall k | 0 <= k < |names|
      ensures names[k] in NameSet(more)
    {
      assert more[k] == names[k];
    }
  }
}
