/**
 The hand device over time: commands are pushed from one side, the bus asks for one frame per
 cycle from the other.
 */
module TsinghuaHandDevice {
  import opened TsinghuaHand

  /** Frame lists waiting, and what is left of the list being sent. */
  datatype Hand = Hand(queue: seq<seq<Message>>, current: seq<Message>)

  datatype Step = Push(frames: seq<Message>) | Request

  /** Answering a request: the next list is begun when the last is used up, and a status query
      is made up when there is none. */
  function Refilled(h: Hand, query: Message): (r: Hand)
    requires forall i | 0 <= i < |h.queue| :: h.queue[i] != []
    ensures r.current != []
  {
    if h.current != [] then h
    else if h.queue != [] then Hand(h.queue[1..], h.queue[0])
    else Hand([], [query])
  }

  predicate NonEmptyPushes(steps: seq<Step>) {
    forall i | 0 <= i < |steps| && steps[i].Push? :: steps[i].frames != []
  }

  /** The frames sent, and the state at the end. */
  function Run(steps: seq<Step>, query: Message): (r: (seq<Message>, Hand))
    requires NonEmptyPushes(steps)
    ensures forall i | 0 <= i < |r.1.queue| :: r.1.queue[i] != []
  {
    if steps == [] then ([], Hand([], []))
    else
      var (sent, h) := Run(steps[..|steps| - 1], query);
      match steps[|steps| - 1]
      case Push(frames) => (sent, h.(queue := h.queue + [frames]))
      case Request =>
        var r := Refilled(h, query);
        (sent + [r.current[0]], r.(current := r.current[1..]))
  }

  function Flatten(lists: seq<seq<Message>>): seq<Message> {
    if lists == [] then [] else Flatten(lists[..|lists| - 1]) + lists[|lists| - 1]
  }

  function Pushes(steps: seq<Step>): seq<seq<Message>> {
    if steps == [] then []
    else Pushes(steps[..|steps| - 1]) + match steps[|steps| - 1] case Push(frames) => [frames] case Request => []
  }

  function Requests(steps: seq<Step>): nat {
    if steps == [] then 0 else Requests(steps[..|steps| - 1]) + if steps[|steps| - 1].Request? then 1 else 0
  }

  // ----- lists go out whole and in order

  /** A stretch of the frames sent: a whole command, or a lone query. */
  datatype Chunk = Command(frames: seq<Message>) | Query

  function FramesOf(chunks: seq<Chunk>, query: Message): seq<Message> {
    if chunks == [] then []
    else FramesOf(chunks[..|chunks| - 1], query)
         + match chunks[|chunks| - 1] case Command(frames) => frames case Query => [query]
  }

  function CommandsOf(chunks: seq<Chunk>): seq<seq<Message>> {
    if chunks == [] then []
    else CommandsOf(chunks[..|chunks| - 1])
         + match chunks[|chunks| - 1] case Command(frames) => [frames] case Query => []
  }

  /** The state a chunk is begun in decides it: a query only when no command waits. */
  function NextChunk(h: Hand): Chunk {
    if h.queue != [] then Command(h.queue[0]) else Query
  }

  lemma ChunkAppended(chunks: seq<Chunk>, c: Chunk, query: Message)
    ensures FramesOf(chunks + [c], query)
         == FramesOf(chunks, query) + match c case Command(frames) => frames case Query => [query]
    ensures CommandsOf(chunks + [c])
         == CommandsOf(chunks) + match c case Command(frames) => [frames] case Query => []
  {
    assert (chunks + [c])[..|chunks|] == chunks;
  }

  /** Over every run: the frames sent, together with the rest of the list in progress, are whole
      command lists in the order they were pushed with lone queries between them; the commands
      not begun are those still queued; and every request was answered by one frame. */
  lemma {:induction false} ListsGoOutWhole(steps: seq<Step>, query: Message) returns (chunks: seq<Chunk>)
    requires NonEmptyPushes(steps)
    ensures var (sent, h) := Run(steps, query);
            && FramesOf(chunks, query) == sent + h.current
            && Pushes(steps) == CommandsOf(chunks) + h.queue
            && |sent| == Requests(steps)
  {
    chunks := [];
    if steps != [] {
      var before := steps[..|steps| - 1];
      chunks := ListsGoOutWhole(before, query);
      var (sent, h) := Run(before, query);
      match steps[|steps| - 1]
      case Push(frames) =>
        assert CommandsOf(chunks) + h.queue + [frames] == CommandsOf(chunks) + (h.queue + [frames]);
      case Request =>
        assert Pushes(steps) == Pushes(before) + [] == Pushes(before);
        chunks := ChunkBegun(sent, h, chunks, query);
    }
  }

  /** A request goes on with the list in progress or begins a chunk. */
  lemma ChunkBegun(sent: seq<Message>, h: Hand, chunks: seq<Chunk>, query: Message) returns (more: seq<Chunk>)
    requires forall i | 0 <= i < |h.queue| :: h.queue[i] != []
    requires FramesOf(chunks, query) == sent + h.current
    ensures var r := Refilled(h, query);
            && FramesOf(more, query) == sent + [r.current[0]] + r.current[1..]
            && CommandsOf(more) + r.queue == CommandsOf(chunks) + h.queue
  {
    var r := Refilled(h, query);
    assert sent + r.current == sent + [r.current[0]] + r.current[1..];
    if h.current != [] {
      more := chunks;
    } else {
      var c := NextChunk(h);
      ChunkAppended(chunks, c, query);
      more := chunks + [c];
      assert sent + [] == sent;
      if h.queue != [] {
        assert CommandsOf(chunks) + [h.queue[0]] + h.queue[1..] == CommandsOf(chunks) + h.queue;
      } else {
        assert CommandsOf(chunks) + [] == CommandsOf(chunks);
      }
    }
  }

  // ----- as one line of frames

  function Pending(h: Hand): seq<Message> {
    h.current + Flatten(h.queue)
  }

  lemma {:induction false} FlattenFirst(lists: seq<seq<Message>>)
    requires lists != []
    ensures Flatten(lists) == lists[0] + Flatten(lists[1..])
  {
    if |lists| == 1 {
      assert lists[..0] == [] && lists[1..] == [];
      assert Flatten(lists) == [] + lists[0] == lists[0] + [];
    } else {
      var front := lists[..|lists| - 1];
      FlattenFirst(front);
      assert lists[1..][..|lists| - 2] == front[1..];
    }
  }

  /** A request takes the oldest frame waiting, and a query goes out only if none waits. */
  lemma RequestTakesOldest(h: Hand, query: Message)
    requires forall i | 0 <= i < |h.queue| :: h.queue[i] != []
    ensures var r := Refilled(h, query);
            var after := r.(current := r.current[1..]);
            if Pending(h) == [] then r.current[0] == query && Pending(after) == []
            else [r.current[0]] + Pending(after) == Pending(h)
  {
    if h.current == [] && h.queue != [] {
      FlattenFirst(h.queue);
      assert h.queue[0] == [h.queue[0][0]] + h.queue[0][1..];
    } else if h.current != [] {
      assert h.current == [h.current[0]] + h.current[1..];
    }
  }

  // ----- what the hand reassembles

  /** A list that leaves the receiver ready for the next one. */
  ghost predicate Whole(frames: seq<Message>) {
    Reassembled(FRESH, frames).1 == FRESH
  }

  function PacketsOf(chunks: seq<Chunk>, query: Message): seq<Packet> {
    if chunks == [] then []
    else PacketsOf(chunks[..|chunks| - 1], query)
         + Reassembled(FRESH, match chunks[|chunks| - 1] case Command(frames) => frames case Query => [query]).0
  }

  lemma {:induction false} ChunksReassemble(chunks: seq<Chunk>, query: Message)
    requires Whole([query]) && forall i | 0 <= i < |chunks| && chunks[i].Command? :: Whole(chunks[i].frames)
    ensures Reassembled(FRESH, FramesOf(chunks, query)) == (PacketsOf(chunks, query), FRESH)
  {
    hide Advance;
    if chunks != [] {
      var before := chunks[..|chunks| - 1];
      ChunksReassemble(before, query);
      var c := chunks[|chunks| - 1];
      var frames := match c case Command(frames) => frames case Query => [query];
      ReassembledAppend(FRESH, FramesOf(before, query), frames);
    }
  }

  lemma {:induction false} CommandsAmong(chunks: seq<Chunk>, i: nat)
    requires i < |chunks| && chunks[i].Command?
    ensures chunks[i].frames in CommandsOf(chunks)
  {
    if i < |chunks| - 1 {
      CommandsAmong(chunks[..|chunks| - 1], i);
    }
  }

  lemma {:induction false} PushedAmong(steps: seq<Step>)
    ensures forall f | f in Pushes(steps) :: Push(f) in steps
  {
    if steps != [] {
      PushedAmong(steps[..|steps| - 1]);
    }
  }

  /** Whatever was pushed when, the hand reassembles every command begun, whole and in order. */
  lemma HandReceivesCommands(steps: seq<Step>, query: Message) returns (chunks: seq<Chunk>)
    requires NonEmptyPushes(steps) && Whole([query])
    requires forall i | 0 <= i < |steps| && steps[i].Push? :: Whole(steps[i].frames)
    ensures var (sent, h) := Run(steps, query);
            && Pushes(steps) == CommandsOf(chunks) + h.queue
            && Reassembled(FRESH, sent + h.current) == (PacketsOf(chunks, query), FRESH)
  {
    hide Whole, Reassembled, Run;
    chunks := ListsGoOutWhole(steps, query);
    PushedAmong(steps);
    forall i | 0 <= i < |chunks| && chunks[i].Command?
      ensures Whole(chunks[i].frames)
    {
      CommandsAmong(chunks, i);
      assert chunks[i].frames in Pushes(steps);
    }
    ChunksReassemble(chunks, query);
  }

  // ----- the implementation

  class Device {
    const id: nat
    var cmdQueue: seq<seq<Message>>
    var curReqFrames: seq<Message>
    ghost var steps: seq<Step>
    ghost var sent: seq<Message>

    ghost predicate Valid()
      reads this
    {
      && NonEmptyPushes(steps)
      && (forall i | 0 <= i < |steps| && steps[i].Push? :: Whole(steps[i].frames))
      && Run(steps, QueryStatus(id)) == (sent, Hand(cmdQueue, curReqFrames))
    }

    constructor (id: nat)
      ensures Valid() && this.id == id && steps == [] && sent == []
    {
      this.id := id;
      cmdQueue, curReqFrames, steps, sent := [], [], [], [];
    }

    method PushFrames(frames: seq<Message>)
      requires Valid() && frames != [] && Whole(frames)
      modifies this
      ensures Valid() && steps == old(steps) + [Push(frames)] && sent == old(sent)
    {
      cmdQueue := cmdQueue + [frames];
      assert (steps + [Push(frames)])[..|steps|] == steps;
      steps := steps + [Push(frames)];
    }

    method SetPos(cmd: SetPosition)
      requires Valid()
      modifies this
      ensures Valid() && steps == old(steps) + [Push(PosFrames(id, cmd))] && sent == old(sent)
    {
      hide Whole, Frame, Part, Run;
      var data := [cmd.thumbRotation.enable, cmd.thumbRotation.angle, cmd.thumb.enable, cmd.thumb.angle,
                   cmd.fore.enable, cmd.fore.angle, cmd.middle.enable, cmd.middle.angle];
      var reqFrames := [Frame(1, 2, 0x10, id, data)];
      data := [cmd.ring.enable, cmd.ring.angle, cmd.little.enable, cmd.little.angle];
      reqFrames := reqFrames + [Frame(2, 2, 0x10, id, data)];
      reqFrames := reqFrames + [QueryStatus(id)];
      PosWhole(id, cmd);
      assert reqFrames == PosFrames(id, cmd);
      PushFrames(reqFrames);
    }

    method SetEmergencyStop(cmd: Stop)
      requires Valid()
      modifies this
      ensures Valid() && steps == old(steps) + [Push(StopFrames(id, cmd))] && sent == old(sent)
    {
      hide Whole, Frame, Run;
      var data := [Flag(cmd.thumbRotation), Flag(cmd.thumb), Flag(cmd.fore), Flag(cmd.middle), Flag(cmd.ring), Flag(cmd.little)];
      var code: byte := 0x30;
      if cmd.stop {
        code := 0x20;
      }
      var reqFrames := [Frame(1, 1, code, id, data)];
      StopWhole(id, cmd);
      assert reqFrames == StopFrames(id, cmd);
      PushFrames(reqFrames);
    }

    method SetMotionCtrl(cmd: MotionCtrl)
      requires Valid()
      modifies this
      ensures Valid() && steps == old(steps) + [Push(CtrlFrames(id, cmd))] && sent == old(sent)
    {
      hide Whole, Frame, Part, Run;
      var reqFrames := [Frame(1, 1, 0x4A, id, [0])];
      reqFrames := reqFrames + [Frame(1, 5, 0x40, id, Part(cmd, 0))];
      reqFrames := reqFrames + [Frame(2, 5, 0x40, id, Part(cmd, 1))];
      reqFrames := reqFrames + [Frame(3, 5, 0x40, id, Part(cmd, 2))];
      reqFrames := reqFrames + [Frame(4, 5, 0x40, id, Part(cmd, 3))];
      reqFrames := reqFrames + [Frame(5, 5, 0x40, id, Part(cmd, 4))];
      reqFrames := reqFrames + [Frame(1, 1, 0x4A, id, [1])];
      reqFrames := reqFrames + [QueryStatus(id)];
      CtrlWhole(id, cmd);
      assert reqFrames == CtrlFrames(id, cmd);
      PushFrames(reqFrames);
    }

    method OnRequest() returns (msg: Message)
      requires Valid()
      modifies this
      ensures Valid() && steps == old(steps) + [Request] && sent == old(sent) + [msg]
    {
      hide Whole;
      if curReqFrames == [] {
        if cmdQueue != [] {
          curReqFrames := cmdQueue[0];
          cmdQueue := cmdQueue[1..];
        } else {
          curReqFrames := [QueryStatus(id)];
        }
      }
      msg := curReqFrames[0];
      curReqFrames := curReqFrames[1..];
      assert (steps + [Request])[..|steps|] == steps;
      steps := steps + [Request];
      sent := sent + [msg];
    }
  }

  lemma CtrlWhole(id: nat, c: MotionCtrl)
    ensures Whole(CtrlFrames(id, c))
  {
    CtrlReassembles(id, c);
  }

  lemma PosWhole(id: nat, c: SetPosition)
    ensures Whole(PosFrames(id, c))
  {
    PosReassembles(id, c);
  }

  lemma StopWhole(id: nat, c: Stop)
    ensures Whole(StopFrames(id, c))
  {
    StopReassembles(id, c);
  }
}
