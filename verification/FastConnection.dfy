/**
 In-process publish/subscribe with a cached snapshot of the subscribers.

 Subscribing makes a new snapshot, shutting down erases in place in the latest one, which the
 publisher may be holding; both queue the latest snapshot, and publishing drains the queue.
 Each operation is one atomic step.  Handlers are known by number.
 */
module FastConnection {
  type Topic = string
  type Handler = nat

  /** A subscription.  The code keeps only the 32-bit id of it; serials never repeat. */
  datatype Subscription = Subscription(topic: Topic, serial: nat, handler: Handler)

  const ID_RANGE := 0x1_0000_0000

  function Id(serial: nat): nat {
    serial % ID_RANGE
  }

  /** Subscribing, or calling the closure that a subscription returned. */
  datatype Change = Subscribe(topic: Topic, handler: Handler) | Shutdown(topic: Topic, serial: nat)

  // ----- what is meant: shutting down ends that very subscription

  function Without(live: seq<Subscription>, serial: nat): seq<Subscription> {
    if live == [] then []
    else (if live[0].serial == serial then [] else [live[0]]) + Without(live[1..], serial)
  }

  /** Live subscriptions, oldest first. */
  function Meant(changes: seq<Change>): seq<Subscription> {
    if changes == [] then []
    else
      var before := changes[..|changes| - 1];
      match changes[|changes| - 1]
      case Subscribe(t, h) => Meant(before) + [Subscription(t, Issued(before) + 1, h)]
      case Shutdown(_, serial) => Without(Meant(before), serial)
  }

  function Issued(changes: seq<Change>): nat {
    if changes == [] then 0
    else Issued(changes[..|changes| - 1]) + if changes[|changes| - 1].Subscribe? then 1 else 0
  }

  // ----- what is done: shutting down erases the first entry of the topic with the same id

  function Erased(live: seq<Subscription>, topic: Topic, serial: nat): seq<Subscription> {
    if live == [] then []
    else if live[0].topic == topic && Id(live[0].serial) == Id(serial) then live[1..]
    else [live[0]] + Erased(live[1..], topic, serial)
  }

  function Live(changes: seq<Change>): seq<Subscription> {
    if changes == [] then []
    else
      var before := changes[..|changes| - 1];
      match changes[|changes| - 1]
      case Subscribe(t, h) => Live(before) + [Subscription(t, Issued(before) + 1, h)]
      case Shutdown(t, serial) => Erased(Live(before), t, serial)
  }

  /** The handlers of a topic, in subscription order. */
  function Handlers(live: seq<Subscription>, topic: Topic): seq<Handler> {
    if live == [] then []
    else (if live[0].topic == topic then [live[0].handler] else []) + Handlers(live[1..], topic)
  }

  // ----- the implementation

  datatype FunctionPair = FunctionPair(id: nat, func: Handler)

  function Row(live: seq<Subscription>, topic: Topic): seq<FunctionPair> {
    if live == [] then []
    else (if live[0].topic == topic then [FunctionPair(Id(live[0].serial), live[0].handler)] else [])
         + Row(live[1..], topic)
  }

  function Funcs(row: seq<FunctionPair>): seq<Handler> {
    if row == [] then [] else [row[0].func] + Funcs(row[1..])
  }

  function EraseFirst(row: seq<FunctionPair>, id: nat): seq<FunctionPair> {
    if row == [] then []
    else if row[0].id == id then row[1..]
    else [row[0]] + EraseFirst(row[1..], id)
  }

  function Entries(rows: map<Topic, seq<FunctionPair>>, topic: Topic): seq<FunctionPair> {
    if topic in rows then rows[topic] else []
  }

  /** The rows of a snapshot are those of the live subscriptions. */
  predicate Mirrors(rows: map<Topic, seq<FunctionPair>>, live: seq<Subscription>) {
    && (forall t | t in rows :: rows[t] == Row(live, t))
    && (forall i | 0 <= i < |live| :: live[i].topic in rows)
  }

  lemma {:induction false} NoRow(live: seq<Subscription>, topic: Topic)
    requires forall i | 0 <= i < |live| :: live[i].topic != topic
    ensures Row(live, topic) == []
  {
    if live != [] {
      NoRow(live[1..], topic);
    }
  }

  lemma MirrorsEntries(rows: map<Topic, seq<FunctionPair>>, live: seq<Subscription>, topic: Topic)
    requires Mirrors(rows, live)
    ensures Entries(rows, topic) == Row(live, topic) && Funcs(Entries(rows, topic)) == Handlers(live, topic)
  {
    RowHandlers(live, topic);
    if topic !in rows {
      NoRow(live, topic);
    }
  }

  lemma MirrorsSubscribe(rows: map<Topic, seq<FunctionPair>>, changes: seq<Change>, topic: Topic, handler: Handler)
    requires Mirrors(rows, Live(changes))
    ensures var id := Id(Issued(changes) + 1);
            var change := Change.Subscribe(topic, handler);
            && Mirrors(rows[topic := Entries(rows, topic) + [FunctionPair(id, handler)]], Live(changes + [change]))
            && Issued(changes + [change]) == Issued(changes) + 1
  {
    var change := Change.Subscribe(topic, handler);
    assert (changes + [change])[..|changes|] == changes;
    var live, s := Live(changes), Subscription(topic, Issued(changes) + 1, handler);
    assert Live(changes + [change]) == live + [s];
    MirrorsEntries(rows, live, topic);
    forall t
      ensures Row(live + [s], t)
           == Row(live, t) + if topic == t then [FunctionPair(Id(s.serial), handler)] else []
    {
      RowAppend(live, s, t);
    }
  }

  lemma MirrorsShutdown(rows: map<Topic, seq<FunctionPair>>, changes: seq<Change>, topic: Topic, serial: nat)
    requires Mirrors(rows, Live(changes))
    ensures var live := Live(changes + [Change.Shutdown(topic, serial)]);
            if topic in rows
            then Mirrors(rows[topic := EraseFirst(rows[topic], Id(serial))], live)
            else Mirrors(rows, live)
    ensures Issued(changes + [Change.Shutdown(topic, serial)]) == Issued(changes)
  {
    hide Row, EraseFirst, Erased;
    var change := Change.Shutdown(topic, serial);
    assert (changes + [change])[..|changes|] == changes;
    var live := Live(changes);
    forall t
      ensures Row(Erased(live, topic, serial), t)
           == if t == topic then EraseFirst(Row(live, t), Id(serial)) else Row(live, t)
    {
      RowErased(live, topic, serial, t);
    }
    ErasedIsPart(live, topic, serial);
  }

  lemma {:induction false} ErasedIsPart(live: seq<Subscription>, topic: Topic, serial: nat)
    ensures forall i | 0 <= i < |Erased(live, topic, serial)| :: Erased(live, topic, serial)[i] in live
  {
    if live != [] {
      ErasedIsPart(live[1..], topic, serial);
    }
  }

  /** A snapshot, shared by reference. */
  class SubscriberMatrix {
    var rows: map<Topic, seq<FunctionPair>>

    constructor (rows: map<Topic, seq<FunctionPair>>)
      ensures this.rows == rows
    {
      this.rows := rows;
    }
  }

  class Connection {
    var subsLast: SubscriberMatrix
    var subsCurrent: SubscriberMatrix?
    var queueSubs: seq<SubscriberMatrix>
    var idGen: nat
    ghost var changes: seq<Change>

    /** The latest snapshot has the live subscriptions, and it is the one the publisher gets to
        by draining the queue. */
    ghost predicate Valid()
      reads this, subsLast
    {
      && idGen == Id(Issued(changes))
      && Mirrors(subsLast.rows, Live(changes))
      && (if queueSubs != [] then queueSubs[|queueSubs| - 1] == subsLast
          else if subsCurrent != null then subsCurrent == subsLast
          else subsLast.rows == map[])
    }

    constructor ()
      ensures Valid() && changes == [] && fresh(subsLast)
    {
      subsLast := new SubscriberMatrix(map[]);
      subsCurrent, queueSubs, idGen, changes := null, [], 0, [];
    }

    /** Calls the handlers of the live subscriptions to the topic. */
    method Publish(topic: Topic) returns (called: seq<Handler>)
      requires Valid()
      modifies this`subsCurrent, this`queueSubs
      ensures Valid() && called == Handlers(Live(changes), topic)
    {
      while queueSubs != []
        invariant Valid()
        decreases |queueSubs|
      {
        subsCurrent := queueSubs[0];
        queueSubs := queueSubs[1..];
      }
      MirrorsEntries(subsLast.rows, Live(changes), topic);
      called := [];
      if subsCurrent != null && topic in subsCurrent.rows {
        called := CallAll(subsCurrent.rows[topic]);
      }
    }

    method CallAll(fps: seq<FunctionPair>) returns (called: seq<Handler>)
      ensures called == Funcs(fps)
    {
      called := [];
      var i := 0;
      while i < |fps|
        invariant i <= |fps| && called + Funcs(fps[i..]) == Funcs(fps)
      {
        assert fps[i..][1..] == fps[i + 1..];
        assert called + ([fps[i].func] + Funcs(fps[i + 1..])) == (called + [fps[i].func]) + Funcs(fps[i + 1..]);
        called := called + [fps[i].func];
        i := i + 1;
      }
      assert fps[i..] == [];
    }

    /** Adds a subscription in a new snapshot; `id` goes into the closure that is returned. */
    method Subscribe(topic: Topic, handler: Handler) returns (id: nat)
      requires Valid()
      modifies this
      ensures Valid() && changes == old(changes) + [Change.Subscribe(topic, handler)]
      ensures id == Id(Issued(changes))
      ensures fresh(subsLast) && subsCurrent == old(subsCurrent)
    {
      hide Mirrors, Live, Issued;
      MirrorsSubscribe(subsLast.rows, changes, topic, handler);
      var subsLastNew := new SubscriberMatrix(subsLast.rows);
      idGen := (idGen + 1) % ID_RANGE;
      id := idGen;
      var subs := Entries(subsLastNew.rows, topic) + [FunctionPair(id, handler)];
      subsLastNew.rows := subsLastNew.rows[topic := subs];
      subsLast := subsLastNew;
      queueSubs := queueSubs + [subsLast];
      changes := changes + [Change.Subscribe(topic, handler)];
    }

    /** The closure: erases in place, in the snapshot that the publisher may be holding. */
    method Shutdown(topic: Topic, id: nat, ghost serial: nat)
      requires Valid() && id == Id(serial)
      modifies this`queueSubs, this`changes, subsLast
      ensures Valid() && changes == old(changes) + [Change.Shutdown(topic, serial)]
    {
      hide Mirrors, Live, Issued, EraseFirst;
      MirrorsShutdown(subsLast.rows, changes, topic, serial);
      if topic in subsLast.rows {
        var fps := subsLast.rows[topic];
        var k := FindFirst(fps, id);
        if k < |fps| {
          subsLast.rows := subsLast.rows[topic := fps[..k] + fps[k + 1..]];
          queueSubs := queueSubs + [subsLast];
        } else {
          assert subsLast.rows[topic := fps] == subsLast.rows;
        }
      }
      changes := changes + [Change.Shutdown(topic, serial)];
    }

    method FindFirst(fps: seq<FunctionPair>, id: nat) returns (k: nat)
      ensures k <= |fps|
      ensures EraseFirst(fps, id) == if k < |fps| then fps[..k] + fps[k + 1..] else fps
    {
      k := 0;
      while k < |fps| && fps[k].id != id
        invariant k <= |fps|
        invariant EraseFirst(fps, id) == fps[..k] + EraseFirst(fps[k..], id)
      {
        EraseSkips(fps, k, id);
        k := k + 1;
      }
      if k < |fps| {
        assert fps[k..][1..] == fps[k + 1..];
      } else {
        assert fps[k..] == [] && fps[..k] == fps;
      }
    }
  }

  lemma EraseSkips(fps: seq<FunctionPair>, k: nat, id: nat)
    requires k < |fps| && fps[k].id != id
    ensures fps[..k] + EraseFirst(fps[k..], id) == fps[..k + 1] + EraseFirst(fps[k + 1..], id)
  {
    var rest := EraseFirst(fps[k + 1..], id);
    assert fps[k..][1..] == fps[k + 1..];
    assert EraseFirst(fps[k..], id) == [fps[k]] + rest;
    assert fps[..k + 1] == fps[..k] + [fps[k]];
  }

  lemma {:induction false} RowHandlers(live: seq<Subscription>, topic: Topic)
    ensures Funcs(Row(live, topic)) == Handlers(live, topic)
  {
    if live != [] {
      RowHandlers(live[1..], topic);
      var rest := Row(live[1..], topic);
      if live[0].topic == topic {
        assert Row(live, topic)[1..] == rest;
      } else {
        assert Row(live, topic) == rest;
      }
    }
  }

  lemma {:induction false} RowAppend(live: seq<Subscription>, s: Subscription, topic: Topic)
    ensures Row(live + [s], topic)
         == Row(live, topic) + if s.topic == topic then [FunctionPair(Id(s.serial), s.handler)] else []
  {
    if live == [] {
      assert [s][1..] == [] && live + [s] == [s];
    } else {
      assert (live + [s])[1..] == live[1..] + [s];
      RowAppend(live[1..], s, topic);
    }
  }

  lemma {:induction false} RowErased(live: seq<Subscription>, topic: Topic, serial: nat, t: Topic)
    ensures Row(Erased(live, topic, serial), t)
         == if t == topic then EraseFirst(Row(live, t), Id(serial)) else Row(live, t)
  {
    if live != [] {
      RowErased(live[1..], topic, serial, t);
      var rest := Row(live[1..], t);
      var head := FunctionPair(Id(live[0].serial), live[0].handler);
      if live[0].topic == topic && Id(live[0].serial) == Id(serial) {
        assert t == topic ==> ([head] + rest)[1..] == rest;
        assert t != topic ==> [] + rest == rest;
      } else {
        assert ([live[0]] + Erased(live[1..], topic, serial))[1..] == Erased(live[1..], topic, serial);
        assert ([head] + rest)[1..] == rest && [] + rest == rest;
      }
    }
  }

  // ----- when a shutdown ends the subscription that was meant

  predicate Ascending(live: seq<Subscription>) {
    forall i, j | 0 <= i < j < |live| :: live[i].serial < live[j].serial
  }

  /** An older live subscription to the topic has the same 32-bit id; or, if the subscription is
      gone already, any has. */
  predicate Clash(live: seq<Subscription>, topic: Topic, serial: nat) {
    exists i ::
      && 0 <= i < |live|
      && live[i].topic == topic && Id(live[i].serial) == Id(serial) && live[i].serial != serial
      && (forall j | 0 <= j < |live| :: live[j].serial == serial ==> i < j)
  }

  /** The erased entry is the one meant if and only if no id clashes. */
  lemma {:induction false} ErasesOwnIffNoClash(live: seq<Subscription>, topic: Topic, serial: nat)
    requires Ascending(live)
    requires forall i | 0 <= i < |live| :: live[i].serial == serial ==> live[i].topic == topic
    ensures Erased(live, topic, serial) == Without(live, serial) <==> !Clash(live, topic, serial)
  {
    if live != [] {
      var rest := live[1..];
      if live[0].serial == serial {
        NotThere(rest, serial);
      } else if live[0].topic == topic && Id(live[0].serial) == Id(serial) {
        assert Clash(live, topic, serial);
        assert Without(live, serial)[0] == live[0];
        assert rest != [] ==> rest[0] == live[1];
      } else {
        ErasesOwnIffNoClash(rest, topic, serial);
        ClashTail(live, topic, serial);
        assert Erased(live, topic, serial)[1..] == Erased(rest, topic, serial);
        assert Without(live, serial)[1..] == Without(rest, serial);
      }
    }
  }

  lemma ClashTail(live: seq<Subscription>, topic: Topic, serial: nat)
    requires live != [] && live[0].serial != serial
    requires !(live[0].topic == topic && Id(live[0].serial) == Id(serial))
    ensures Clash(live, topic, serial) <==> Clash(live[1..], topic, serial)
  {
    var rest := live[1..];
    if Clash(live, topic, serial) {
      var i :| && 0 <= i < |live|
               && live[i].topic == topic && Id(live[i].serial) == Id(serial) && live[i].serial != serial
               && (forall j | 0 <= j < |live| :: live[j].serial == serial ==> i < j);
      assert rest[i - 1] == live[i];
      assert forall j | 0 <= j < |rest| :: rest[j] == live[j + 1];
    }
    if Clash(rest, topic, serial) {
      var i :| && 0 <= i < |rest|
               && rest[i].topic == topic && Id(rest[i].serial) == Id(serial) && rest[i].serial != serial
               && (forall j | 0 <= j < |rest| :: rest[j].serial == serial ==> i < j);
      assert live[i + 1] == rest[i];
      forall j | 0 <= j < |live| && live[j].serial == serial
        ensures i + 1 < j
      {
        assert live[j] == rest[j - 1];
      }
    }
  }

  lemma {:induction false} NotThere(live: seq<Subscription>, serial: nat)
    requires forall i | 0 <= i < |live| :: live[i].serial != serial
    ensures Without(live, serial) == live
  {
    if live != [] {
      NotThere(live[1..], serial);
    }
  }

  // ----- whole histories

  /** The topic that subscription `serial` was made for. */
  function TopicOf(changes: seq<Change>, serial: nat): Topic
    requires 1 <= serial <= Issued(changes)
  {
    var before := changes[..|changes| - 1];
    if serial <= Issued(before) then TopicOf(before, serial) else changes[|changes| - 1].topic
  }

  /** Closures are called only after they were returned, any number of times. */
  predicate Proper(changes: seq<Change>) {
    changes == [] ||
    (var before := changes[..|changes| - 1];
     var last := changes[|changes| - 1];
     && Proper(before)
     && (last.Shutdown? ==> 1 <= last.serial <= Issued(before) && TopicOf(before, last.serial) == last.topic))
  }

  /** Subscriptions keep the order, serial and topic they were made with. */
  predicate Genuine(live: seq<Subscription>, changes: seq<Change>) {
    && Ascending(live)
    && (forall i | 0 <= i < |live| :: 1 <= live[i].serial <= Issued(changes)
                                      && live[i].topic == TopicOf(changes, live[i].serial))
  }

  lemma {:induction false} WithoutIsPart(live: seq<Subscription>, serial: nat)
    requires Ascending(live)
    ensures Ascending(Without(live, serial))
    ensures forall i | 0 <= i < |Without(live, serial)| :: Without(live, serial)[i] in live
  {
    if live != [] {
      WithoutIsPart(live[1..], serial);
      assert forall i | 1 <= i < |live| :: live[0].serial < live[i].serial;
    }
  }

  lemma {:induction false} MeantIsGenuine(changes: seq<Change>)
    ensures Genuine(Meant(changes), changes)
  {
    if changes != [] {
      var before := changes[..|changes| - 1];
      MeantIsGenuine(before);
      match changes[|changes| - 1]
      case Subscribe(t, h) =>
        assert TopicOf(changes, Issued(before) + 1) == t;
      case Shutdown(_, serial) =>
        WithoutIsPart(Meant(before), serial);
    }
  }

  lemma NoClashBeforeWrap(live: seq<Subscription>, changes: seq<Change>, topic: Topic, serial: nat)
    requires Genuine(live, changes) && Issued(changes) <= ID_RANGE
    requires 1 <= serial <= Issued(changes) && TopicOf(changes, serial) == topic
    ensures Erased(live, topic, serial) == Without(live, serial)
  {
    hide TopicOf, Issued, Erased, Without;
    forall i | 0 <= i < |live|
      ensures Id(live[i].serial) == Id(serial) ==> live[i].serial == serial
    {
      IdsDiffer(live[i].serial, serial);
    }
    ErasesOwnIffNoClash(live, topic, serial);
  }

  lemma IdsDiffer(a: nat, b: nat)
    requires 1 <= a <= ID_RANGE && 1 <= b <= ID_RANGE
    ensures Id(a) == Id(b) ==> a == b
  {
  }

  /** Up to 2^32 subscriptions, whatever is shut down in between: exactly the subscriptions made
      and not shut down are live, in the order they were made. */
  lemma {:induction false} ExactUntilIdsWrap(changes: seq<Change>)
    requires Proper(changes) && Issued(changes) <= ID_RANGE
    ensures Live(changes) == Meant(changes)
  {
    hide Genuine, Erased, Without, Id;
    if changes != [] {
      var before := changes[..|changes| - 1];
      var last := changes[|changes| - 1];
      ExactUntilIdsWrap(before);
      if last.Shutdown? {
        MeantIsGenuine(before);
        NoClashBeforeWrap(Meant(before), before, last.topic, last.serial);
      }
    }
  }

  /** Subscriptions to one topic, made in a row. */
  function InARow(topic: Topic, n: nat): (changes: seq<Change>)
    ensures |changes| == n
  {
    seq(n, (k: nat) => Change.Subscribe(topic, k))
  }

  lemma {:induction false} InARowLive(topic: Topic, n: nat)
    ensures Proper(InARow(topic, n)) && Issued(InARow(topic, n)) == n
    ensures |Live(InARow(topic, n))| == n
    ensures forall i | 0 <= i < n :: Live(InARow(topic, n))[i] == Subscription(topic, i + 1, i)
    ensures forall i | 1 <= i <= n :: TopicOf(InARow(topic, n), i) == topic
  {
    if n > 0 {
      InARowLive(topic, n - 1);
      assert InARow(topic, n)[..n - 1] == InARow(topic, n - 1);
    }
  }

  /** With one subscription more than ids, shutting down the newest ends the oldest instead. */
  lemma WrappedIdEndsAnother(topic: Topic)
    ensures var n := ID_RANGE + 1;
            var changes := InARow(topic, n) + [Change.Shutdown(topic, n)];
            && Proper(changes)
            && Live(changes) == Live(InARow(topic, n))[1..]
            && Live(changes) != []
            && Live(changes)[|Live(changes)| - 1].serial == n
  {
    var n := ID_RANGE + 1;
    var row := InARow(topic, n);
    InARowLive(topic, n);
    assert (row + [Change.Shutdown(topic, n)])[..n] == row;
  }
}
