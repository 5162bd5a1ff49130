/**
 The linked queue between one producer and one consumer, step by step.

 Every access to a shared location is one step, and the steps of the two sides interleave in
 any order.  Freed addresses may be handed out again.  An access through a null or freed
 pointer is a fault.
 */
module LockFreeQueue {
  datatype Option<T> = None | Some(value: T)

  type Address = nat

  datatype Node<T> = Node(value: Option<T>, next: Option<Address>)

  /** Where the producer is in `push`: node made, value stored, node linked behind the tail. */
  datatype Producer<T> = Outside | Made(made: Address, pending: T) | Stored(stored: Address) | Linked(linked: Address)

  /** Where the consumer is in `pop`: found the queue non-empty, read `head->next`, read the
      value, moved the head with the old head still to be freed. */
  datatype Consumer<T> = Away | NonEmpty | AtNext(next: Address) | HasValue(value: T) | Moved(result: T, former: Address)

  datatype State<T> = State(
    heap: map<Address, Node<T>>,
    head: Address,
    tail: Address,
    producer: Producer<T>,
    consumer: Consumer<T>)

  datatype Action<T> = BeginPush(node: Address, e: T) | Produce | TestEmpty | BeginPop | Consume

  datatype Event<T> = Pushed(v: T) | Popped(v: T) | SawEmpty | SawNonEmpty

  /** The result of a step: a fault, or the next state and what can be observed. */
  datatype Outcome<T> = Fault | Next(state: State<T>, events: seq<Event<T>>)

  function Start<T>(node: Address): State<T> {
    State(map[node := Node(None, None)], node, node, Outside, Away)
  }

  // ----- the steps

  function ProducerStep<T>(s: State<T>): Outcome<T> {
    match s.producer
    case Outside => Next(s, [])
    case Made(n, e) =>
      if n !in s.heap then Fault
      else Next(s.(heap := s.heap[n := s.heap[n].(value := Some(e))], producer := Stored(n)), [])
    case Stored(n) =>
      if s.tail !in s.heap then Fault
      else Next(s.(heap := s.heap[s.tail := s.heap[s.tail].(next := Some(n))], producer := Linked(n)), [])
    case Linked(n) =>
      if n !in s.heap || s.heap[n].value.None? then Fault
      else Next(s.(tail := n, producer := Outside), [Pushed(s.heap[n].value.value)])
  }

  function ConsumerStep<T>(s: State<T>): Outcome<T> {
    match s.consumer
    case Away => Next(s, [])
    case NonEmpty =>
      if s.head !in s.heap || s.heap[s.head].next.None? then Fault
      else Next(s.(consumer := AtNext(s.heap[s.head].next.value)), [])
    case AtNext(n) =>
      if n !in s.heap || s.heap[n].value.None? then Fault
      else Next(s.(consumer := HasValue(s.heap[n].value.value)), [])
    case HasValue(v) =>
      if s.head !in s.heap || s.heap[s.head].next.None? then Fault
      else Next(s.(head := s.heap[s.head].next.value, consumer := Moved(v, s.head)), [Popped(v)])
    case Moved(v, former) =>
      if former !in s.heap then Fault
      else Next(s.(heap := s.heap - {former}, consumer := Away), [])
  }

  /** A step that a side is not ready for changes nothing. */
  function Step<T>(s: State<T>, a: Action<T>): Outcome<T> {
    match a
    case BeginPush(n, e) =>
      if s.producer.Outside? && n !in s.heap
      then Next(s.(heap := s.heap[n := Node(None, None)], producer := Made(n, e)), [])
      else Next(s, [])
    case Produce => ProducerStep(s)
    case TestEmpty =>
      if s.consumer.Away? then Next(s, [if s.head == s.tail then SawEmpty else SawNonEmpty]) else Next(s, [])
    case BeginPop =>
      if !s.consumer.Away? then Next(s, [])
      else if s.head == s.tail then Next(s, [SawEmpty])
      else Next(s.(consumer := NonEmpty), [SawNonEmpty])
    case Consume => ConsumerStep(s)
  }

  // ----- the invariant

  ghost predicate Distinct(chain: seq<Address>) {
    forall i, j | 0 <= i < j < |chain| :: chain[i] != chain[j]
  }

  /** The nodes of `chain` are linked in order, and all but the first hold a value. */
  ghost predicate Chained<T>(heap: map<Address, Node<T>>, chain: seq<Address>) {
    && Distinct(chain)
    && (forall i | 0 <= i < |chain| :: chain[i] in heap)
    && (forall i | 0 <= i < |chain| - 1 :: heap[chain[i]].next == Some(chain[i + 1]))
    && (forall i | 1 <= i < |chain| :: heap[chain[i]].value.Some?)
  }

  /** The node that the producer is about to append. */
  function InHand<T>(p: Producer<T>): set<Address> {
    match p
    case Outside => {}
    case Made(n, _) => {n}
    case Stored(n) => {n}
    case Linked(n) => {n}
  }

  /** The node that the consumer is about to free. */
  function ToFree<T>(c: Consumer<T>): set<Address> {
    if c.Moved? then {c.former} else {}
  }

  function Members(chain: seq<Address>): set<Address> {
    set i | 0 <= i < |chain| :: chain[i]
  }

  ghost predicate ProducerOk<T>(heap: map<Address, Node<T>>, tail: Address, p: Producer<T>)
    requires tail in heap
  {
    && heap[tail].next == (if p.Linked? then Some(p.linked) else None)
    && (forall n | n in InHand(p) :: n in heap && heap[n].next.None?)
    && (p.Stored? ==> p.stored in heap && heap[p.stored].value.Some?)
    && (p.Linked? ==> p.linked in heap && heap[p.linked].value.Some?)
  }

  ghost predicate ConsumerOk<T>(heap: map<Address, Node<T>>, chain: seq<Address>, c: Consumer<T>)
    requires Chained(heap, chain)
  {
    match c
    case Away => true
    case NonEmpty => |chain| >= 2
    case AtNext(n) => |chain| >= 2 && n == chain[1]
    case HasValue(v) => |chain| >= 2 && heap[chain[1]].value == Some(v)
    case Moved(_, _) => true
  }

  /** `chain` runs from head to tail; the heap is the chain, the node in the producer's hand
      and the node the consumer is to free, all different. */
  ghost predicate Inv<T>(s: State<T>, chain: seq<Address>) {
    && |chain| > 0 && chain[0] == s.head && chain[|chain| - 1] == s.tail
    && Chained(s.heap, chain)
    && s.heap.Keys == Members(chain) + InHand(s.producer) + ToFree(s.consumer)
    && Members(chain) !! InHand(s.producer)
    && Members(chain) !! ToFree(s.consumer)
    && InHand(s.producer) !! ToFree(s.consumer)
    && ProducerOk(s.heap, s.tail, s.producer)
    && ConsumerOk(s.heap, chain, s.consumer)
  }

  /** The queue as a client sees it. */
  function Contents<T>(s: State<T>, chain: seq<Address>): (q: seq<T>)
    requires Chained(s.heap, chain)
    ensures |q| == if |chain| == 0 then 0 else |chain| - 1
  {
    if |chain| == 0 then []
    else seq(|chain| - 1, i requires 0 <= i < |chain| - 1 => s.heap[chain[i + 1]].value.value)
  }

  /** One observed event against a sequence. */
  ghost predicate Allowed<T>(q: seq<T>, e: Event<T>) {
    match e
    case Pushed(v) => true
    case Popped(v) => q != [] && q[0] == v
    case SawEmpty => q == []
    case SawNonEmpty => q != []
  }

  function After<T>(q: seq<T>, e: Event<T>): seq<T> {
    match e
    case Pushed(v) => q + [v]
    case Popped(_) => if q == [] then q else q[1..]
    case _ => q
  }

  // ----- every step keeps it

  /** `s1` continues `s` with the events of one step. */
  ghost predicate Follows<T>(s: State<T>, chain: seq<Address>, s1: State<T>, chain1: seq<Address>, events: seq<Event<T>>) {
    && Inv(s, chain)
    && Inv(s1, chain1)
    && |events| <= 1
    && (events == [] ==> Contents(s1, chain1) == Contents(s, chain))
    && (events != [] ==> Allowed(Contents(s, chain), events[0])
                         && Contents(s1, chain1) == After(Contents(s, chain), events[0]))
  }

  lemma BeginPushKeeps<T>(s: State<T>, chain: seq<Address>, n: Address, e: T)
    requires Inv(s, chain)
    ensures var r := Step(s, BeginPush(n, e)); r.Next? && Follows(s, chain, r.state, chain, r.events)
  {
    if s.producer.Outside? && n !in s.heap {
      var s1 := Step(s, BeginPush(n, e)).state;
      assert s1.heap.Keys == s.heap.Keys + {n};
      SameContents(s, s1, chain);
    }
  }

  lemma SameContents<T>(s: State<T>, s1: State<T>, chain: seq<Address>)
    requires Chained(s.heap, chain) && Chained(s1.heap, chain)
    requires forall i | 1 <= i < |chain| :: s1.heap[chain[i]].value == s.heap[chain[i]].value
    ensures Contents(s1, chain) == Contents(s, chain)
  {
  }

  lemma StoreKeeps<T>(s: State<T>, chain: seq<Address>)
    requires Inv(s, chain) && s.producer.Made?
    ensures var r := ProducerStep(s); r.Next? && Follows(s, chain, r.state, chain, r.events)
  {
    var s1 := ProducerStep(s).state;
    assert s1.heap.Keys == s.heap.Keys;
    SameContents(s, s1, chain);
  }

  lemma LinkKeeps<T>(s: State<T>, chain: seq<Address>)
    requires Inv(s, chain) && s.producer.Stored?
    ensures var r := ProducerStep(s); r.Next? && Follows(s, chain, r.state, chain, r.events)
  {
    var s1 := ProducerStep(s).state;
    assert s.tail == chain[|chain| - 1] && s.tail in Members(chain);
    assert s1.heap.Keys == s.heap.Keys;
    SameContents(s, s1, chain);
  }

  lemma ChainedAppend<T>(heap: map<Address, Node<T>>, chain: seq<Address>, n: Address)
    requires |chain| > 0 && Chained(heap, chain) && n !in Members(chain)
    requires heap[chain[|chain| - 1]].next == Some(n) && n in heap && heap[n].value.Some?
    ensures Chained(heap, chain + [n])
  {
    assert forall i | 0 <= i < |chain| :: chain[i] in Members(chain);
  }

  lemma MembersAppend(chain: seq<Address>, n: Address)
    ensures Members(chain + [n]) == Members(chain) + {n}
  {
    var chain1 := chain + [n];
    assert chain1[|chain|] == n;
    forall i | 0 <= i < |chain|
      ensures chain[i] in Members(chain1)
    {
      assert chain1[i] == chain[i];
    }
  }

  lemma AppendKeeps<T>(s: State<T>, chain: seq<Address>)
    requires Inv(s, chain) && s.producer.Linked?
    ensures var r := ProducerStep(s);
            r.Next? && Follows(s, chain, r.state, chain + [s.producer.linked], r.events)
  {
    hide Members, Chained;
    var n := s.producer.linked;
    var s1 := ProducerStep(s).state;
    ChainedAppend(s.heap, chain, n);
    MembersAppend(chain, n);
    ContentsAppend(s, s1, chain, n);
    ConsumerKeepsChain(s, chain, n);
  }

  lemma ContentsAppend<T>(s: State<T>, s1: State<T>, chain: seq<Address>, n: Address)
    requires |chain| > 0 && s1.heap == s.heap && Chained(s.heap, chain) && Chained(s.heap, chain + [n])
    requires n in s.heap && s.heap[n].value.Some?
    ensures Contents(s1, chain + [n]) == Contents(s, chain) + [s.heap[n].value.value]
  {
    assert (chain + [n])[|chain|] == n;
  }

  lemma ConsumerKeepsChain<T>(s: State<T>, chain: seq<Address>, n: Address)
    requires Chained(s.heap, chain) && Chained(s.heap, chain + [n]) && ConsumerOk(s.heap, chain, s.consumer)
    ensures ConsumerOk(s.heap, chain + [n], s.consumer)
  {
  }

  lemma ReadKeeps<T>(s: State<T>, chain: seq<Address>, a: Action<T>)
    requires Inv(s, chain)
    requires a.TestEmpty? || a.BeginPop? || (a.Consume? && !s.consumer.HasValue? && !s.consumer.Moved?)
    ensures var r := Step(s, a); r.Next? && Follows(s, chain, r.state, chain, r.events)
  {
    EmptyIffOne(s, chain);
    var r := Step(s, a);
    assert r.Next? && r.state.heap == s.heap;
    SameContents(s, r.state, chain);
  }

  lemma EmptyIffOne<T>(s: State<T>, chain: seq<Address>)
    requires Inv(s, chain)
    ensures s.head == s.tail <==> |chain| == 1
  {
  }

  lemma DropFirst<T>(heap: map<Address, Node<T>>, chain: seq<Address>)
    requires |chain| >= 2 && Chained(heap, chain)
    ensures Chained(heap, chain[1..])
    ensures Members(chain) == Members(chain[1..]) + {chain[0]} && chain[0] !in Members(chain[1..])
  {
    assert forall i | 1 <= i < |chain| :: chain[i] == chain[1..][i - 1];
  }

  lemma ContentsDrop<T>(s: State<T>, s1: State<T>, chain: seq<Address>)
    requires |chain| >= 2 && s1.heap == s.heap && Chained(s.heap, chain) && Chained(s.heap, chain[1..])
    ensures Contents(s1, chain[1..]) == Contents(s, chain)[1..]
    ensures Contents(s, chain)[0] == s.heap[chain[1]].value.value
  {
  }

  lemma MoveKeeps<T>(s: State<T>, chain: seq<Address>)
    requires Inv(s, chain) && s.consumer.HasValue?
    ensures var r := ConsumerStep(s); r.Next? && Follows(s, chain, r.state, chain[1..], r.events)
  {
    var s1 := State(s.heap, chain[1], s.tail, s.producer, Moved(s.consumer.value, s.head));
    assert ConsumerStep(s) == Next(s1, [Popped(s.consumer.value)]);
    hide Members, Chained, Contents, ProducerOk;
    DropFirst(s.heap, chain);
    ContentsDrop(s, s1, chain);
  }

  lemma FreeKeeps<T>(s: State<T>, chain: seq<Address>)
    requires Inv(s, chain) && s.consumer.Moved?
    ensures var r := ConsumerStep(s); r.Next? && Follows(s, chain, r.state, chain, r.events)
  {
    var s1 := ConsumerStep(s).state;
    assert forall i | 0 <= i < |chain| :: chain[i] in Members(chain);
    SameContents(s, s1, chain);
  }

  /** No step of either side faults, and each keeps the invariant and acts like a FIFO. */
  lemma StepKeeps<T>(s: State<T>, chain: seq<Address>, a: Action<T>) returns (chain1: seq<Address>)
    requires Inv(s, chain)
    ensures var r := Step(s, a); r.Next? && Follows(s, chain, r.state, chain1, r.events)
  {
    chain1 := chain;
    match a
    case BeginPush(n, e) => BeginPushKeeps(s, chain, n, e);
    case Produce =>
      match s.producer {
        case Outside => SameContents(s, s, chain);
        case Made(_, _) => StoreKeeps(s, chain);
        case Stored(_) => LinkKeeps(s, chain);
        case Linked(n) => AppendKeeps(s, chain); chain1 := chain + [n];
      }
    case Consume =>
      if s.consumer.HasValue? {
        MoveKeeps(s, chain);
        chain1 := chain[1..];
      } else if s.consumer.Moved? {
        FreeKeeps(s, chain);
      } else {
        ReadKeeps(s, chain, a);
      }
    case _ => ReadKeeps(s, chain, a);
  }

  /** What a non-empty test tells the consumer stays true until it moves the head, whatever the
      producer does meanwhile: the next node is linked and holds the oldest value. */
  lemma NonEmptyIsLinked<T>(s: State<T>, chain: seq<Address>)
    requires Inv(s, chain) && !s.consumer.Away? && !s.consumer.Moved?
    ensures Contents(s, chain) != [] && s.head in s.heap && s.heap[s.head].next.Some?
    ensures var next := s.heap[s.head].next.value;
            next in s.heap && s.heap[next].value == Some(Contents(s, chain)[0])
    ensures s.consumer.HasValue? ==> s.consumer.value == Contents(s, chain)[0]
  {
  }

  /** A step never frees the tail, whose link the producer may still write, nor the node in the
      producer's hand, and it frees only what the consumer has left behind. */
  lemma FreedIsLeftBehind<T>(s: State<T>, chain: seq<Address>, a: Action<T>, n: Address)
    requires Inv(s, chain) && Step(s, a).Next?
    requires n in s.heap && n !in Step(s, a).state.heap
    ensures n != s.tail && n !in InHand(s.producer) && n !in Members(chain) && n in ToFree(s.consumer)
  {
    assert s.tail == chain[|chain| - 1];
  }

  // ----- whole runs

  datatype Trace<T> = Broken | Ran(state: State<T>, events: seq<Event<T>>)

  function Run<T>(s: State<T>, actions: seq<Action<T>>): Trace<T>
    decreases |actions|
  {
    if actions == [] then Ran(s, [])
    else
      var r := Step(s, actions[0]);
      if r.Fault? then Broken
      else
        var rest := Run(r.state, actions[1..]);
        if rest.Broken? then Broken else Ran(rest.state, r.events + rest.events)
  }

  /** Replays events on a sequence. */
  ghost predicate Legal<T>(q: seq<T>, events: seq<Event<T>>)
    decreases |events|
  {
    events == [] || (Allowed(q, events[0]) && Legal(After(q, events[0]), events[1..]))
  }

  function Replay<T>(q: seq<T>, events: seq<Event<T>>): seq<T>
    decreases |events|
  {
    if events == [] then q else Replay(After(q, events[0]), events[1..])
  }

  lemma {:induction false} RunFrom<T>(s: State<T>, chain: seq<Address>, actions: seq<Action<T>>) returns (end: seq<Address>)
    requires Inv(s, chain)
    ensures var t := Run(s, actions);
            && t.Ran?
            && Inv(t.state, end)
            && Legal(Contents(s, chain), t.events)
            && Contents(t.state, end) == Replay(Contents(s, chain), t.events)
    decreases |actions|
  {
    hide Inv, Step, Allowed, After, Contents;
    end := chain;
    if actions != [] {
      var next := StepKeeps(s, chain, actions[0]);
      var r := Step(s, actions[0]);
      end := RunFrom(r.state, next, actions[1..]);
      var rest := Run(r.state, actions[1..]).events;
      if r.events == [] {
        assert r.events + rest == rest;
      } else {
        assert (r.events + rest)[1..] == rest && (r.events + rest)[0] == r.events[0];
      }
    }
  }

  /** Every interleaving, from the empty queue: no access faults, and what is observed is a
      legal history of one FIFO sequence, which the linked nodes hold at the end. */
  lemma QueueIsFifo<T>(node: Address, actions: seq<Action<T>>) returns (chain: seq<Address>)
    ensures var t := Run(Start(node), actions);
            && t.Ran?
            && Inv(t.state, chain)
            && Legal([], t.events)
            && Contents(t.state, chain) == Replay([], t.events)
            && PushedOf(t.events) == PoppedOf(t.events) + Contents(t.state, chain)
  {
    StartHolds<T>(node);
    chain := RunFrom(Start(node), [node], actions);
    var t := Run(Start(node), actions);
    assert Contents(Start<T>(node), [node]) == [];
    NothingLost([], t.events);
    assert [] + PushedOf(t.events) == PushedOf(t.events);
  }

  lemma StartHolds<T>(node: Address)
    ensures Inv(Start<T>(node), [node])
  {
    assert [node][0] == node;
    assert node in Members([node]);
  }

  function PushedOf<T>(events: seq<Event<T>>): seq<T> {
    if events == [] then [] else (if events[0].Pushed? then [events[0].v] else []) + PushedOf(events[1..])
  }

  function PoppedOf<T>(events: seq<Event<T>>): seq<T> {
    if events == [] then [] else (if events[0].Popped? then [events[0].v] else []) + PoppedOf(events[1..])
  }

  /** Values come out in the order they went in, none lost and none twice. */
  lemma {:induction false} NothingLost<T>(q: seq<T>, events: seq<Event<T>>)
    requires Legal(q, events)
    ensures q + PushedOf(events) == PoppedOf(events) + Replay(q, events)
    decreases |events|
  {
    if events == [] {
      assert q + [] == q == [] + q;
    } else {
      var q1, rest := After(q, events[0]), events[1..];
      NothingLost(q1, rest);
      var pushed, popped, end := PushedOf(rest), PoppedOf(rest), Replay(q1, rest);
      match events[0]
      case Pushed(v) =>
        Regroup(q, [v], pushed);
        assert [] + popped == popped;
      case Popped(v) =>
        assert q == [v] + q1 && [] + pushed == pushed;
        Regroup([v], q1, pushed);
        Regroup([v], popped, end);
      case _ =>
        assert [] + pushed == pushed && [] + popped == popped;
    }
  }

  lemma Regroup<T>(a: seq<T>, b: seq<T>, c: seq<T>)
    ensures (a + b) + c == a + (b + c)
  {
  }
}
