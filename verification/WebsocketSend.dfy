/** Sending over the WebSocket: producers queue messages while the service thread writes them out, in
    as many pieces as the library takes. */
module WebsocketSend {
  import opened Basics
  import opened RingBuffer

  datatype Message = NoMessage | Text(text: string)

  datatype SendStatus = Sent | BadParam | Fail

  /** A step of a run. The service thread's callback is cut at its critical sections, so that producers
      come in between: it takes the head, writes, and removes the head. */
  datatype Event =
    | Send(message: Message, roomForBuffer: bool, roomForNode: bool)
    | Take
    | Write(answer: int)
    | Remove

  /** The bytes of an entry that have not been written. */
  ghost function Rest(entry: Entry): string {
    if entry.index <= |entry.buffer.data| then entry.buffer.data[entry.index..] else ""
  }

  /** The bytes of the entries that have not been written. */
  ghost function Unsent(entries: seq<Entry>): string {
    if entries == [] then "" else Rest(entries[0]) + Unsent(entries[1..])
  }

  ghost function Rests(entries: seq<Entry>): seq<string> {
    seq(|entries|, i requires 0 <= i < |entries| => Rest(entries[i]))
  }

  /** The entries with bytes still to be written: all but one that is only waiting to be removed. */
  ghost function Live(entries: seq<Entry>, finished: bool): seq<Entry> {
    if finished && entries != [] then entries[1..] else entries
  }

  /** Every entry has bytes left, and no two entries share a buffer. */
  ghost predicate Sound(entries: seq<Entry>) {
    && (forall i :: 0 <= i < |entries| ==>
          entries[i].length == |entries[i].buffer.data| && entries[i].index < entries[i].length)
    && (forall i, j :: 0 <= i < j < |entries| ==> entries[i].buffer.address != entries[j].buffer.address)
  }

  /** Of the buffers allocated (at addresses below `top`), each is either freed or owned by one
      live entry. */
  ghost predicate Ledger(entries: seq<Entry>, finished: bool, top: nat, freed: set<nat>) {
    && Sound(entries)
    && (forall i :: 0 <= i < |entries| ==> entries[i].buffer.address < top)
    && (forall a :: a in freed ==> a < top)
    && (forall i :: (if finished then 1 else 0) <= i < |entries| ==> entries[i].buffer.address !in freed)
    && |freed| + |entries| == top + if finished then 1 else 0
  }

  lemma LedgerAppend(entries: seq<Entry>, finished: bool, top: nat, freed: set<nat>, data: string)
    requires Ledger(entries, finished, top, freed) && data != ""
    ensures Ledger(entries + [Entry(Buffer(top, data), |data|, 0)], finished, top + 1, freed)
  {
  }

  lemma LedgerRefuse(entries: seq<Entry>, finished: bool, top: nat, freed: set<nat>)
    requires Ledger(entries, finished, top, freed)
    ensures Ledger(entries, finished, top + 1, freed + {top})
  {
  }

  lemma LedgerFinish(entries: seq<Entry>, top: nat, freed: set<nat>)
    requires Ledger(entries, false, top, freed) && entries != []
    ensures Ledger(entries, true, top, freed + {entries[0].buffer.address})
    ensures entries[0].buffer.address < top && entries[0].buffer.address !in freed
  {
  }

  lemma LedgerAdvance(entries: seq<Entry>, top: nat, freed: set<nat>, index: nat)
    requires Ledger(entries, false, top, freed) && entries != [] && index < entries[0].length
    ensures Ledger(entries[0 := entries[0].(index := index)], false, top, freed)
  {
  }

  lemma LedgerRemove(entries: seq<Entry>, top: nat, freed: set<nat>)
    requires Ledger(entries, true, top, freed) && entries != []
    ensures Ledger(entries[1..], false, top, freed)
  {
  }

  class Websocket {
    const queue: Queue
    /** The element in the hands of the callback, and whether it has been written out completely. */
    var element: Node?
    var finished: bool
    /** The heap: the next free address, and the addresses given back. */
    var top: nat
    var freed: set<nat>

    ghost predicate Valid()
      reads this, queue, queue.nodes
    {
      && queue.Valid()
      && (element != null ==> queue.spine != [] && element == queue.spine[0])
      && (finished ==> element != null)
      && Ledger(queue.entries, finished, top, freed)
    }

    constructor ()
      ensures Valid() && fresh(queue) && element == null && !finished
      ensures queue.entries == [] && queue.nodes == {}
    {
      queue := new Queue();
      element, finished := null, false;
      top, freed := 0, {};
    }

    method Free(buffer: Buffer)
      requires buffer.address < top && buffer.address !in freed
      modifies this`freed
      ensures freed == old(freed) + {buffer.address}
    {
      freed := freed + {buffer.address};
    }

    /** Hands the next buffer to the queue, which owns it from then on. */
    method Hand(text: string) returns (status: Status)
      requires Valid() && text != ""
      modifies this`top, queue, queue.nodes`next
      ensures Valid() && status == Ok
      ensures queue.entries == old(queue.entries) + [Entry(Buffer(old(top), text), |text|, 0)]
      ensures fresh(queue.nodes - old(queue.nodes)) && old(queue.spine) <= queue.spine
    {
      LedgerAppend(queue.entries, finished, top, freed, text);
      var buffer := Buffer(top, text);
      top := top + 1;
      status := queue.Insert(To(buffer), |text|, true);
    }

    /** Without a node for it, the producer frees its buffer again. */
    method Refuse(text: string) returns (status: Status)
      requires Valid() && text != ""
      modifies this`top, this`freed, queue, queue.nodes`next
      ensures Valid() && status == OutOfMemory
      ensures queue.entries == old(queue.entries) && queue.spine == old(queue.spine)
      ensures fresh(queue.nodes - old(queue.nodes))
    {
      var buffer := Buffer(top, text);
      status := queue.Insert(To(buffer), |text|, false);
      LedgerRefuse(queue.entries, finished, top, freed);
      top := top + 1;
      Free(buffer);
    }

    /** A producer. */
    method Send(message: Message, roomForBuffer: bool, roomForNode: bool) returns (status: SendStatus)
      requires Valid()
      modifies this`top, this`freed, queue, queue.nodes`next
      ensures Valid()
      ensures status == if message == NoMessage || message.text == "" then BadParam
                        else if roomForBuffer && roomForNode then Sent else Fail
      ensures queue.entries == if status == Sent
                then old(queue.entries) + [Entry(Buffer(old(top), message.text), |message.text|, 0)]
                else old(queue.entries)
      ensures fresh(queue.nodes - old(queue.nodes)) && old(queue.spine) <= queue.spine
    {
      if message == NoMessage || message.text == "" {
        return BadParam;
      }
      if !roomForBuffer {
        return Fail;
      }
      var result;
      if roomForNode {
        result := Hand(message.text);
      } else {
        result := Refuse(message.text);
      }
      status := if result == Ok then Sent else Fail;
    }

    /** The callback takes the head, if there is one. */
    method Take()
      requires Valid() && element == null
      modifies this`element
      ensures Valid()
      ensures element == if queue.entries == [] then null else queue.spine[0]
    {
      var status, head := queue.GetHeadEntry();
      if status == Ok {
        element := head;
      }
    }

    /** The callback writes what is left of its element; `answer` is the number of bytes the library
        took, or negative when it failed. */
    method Write(answer: int) returns (failed: bool, taken: string)
      requires Valid() && element != null && !finished
      requires answer <= element.length - element.index
      modifies this`element, this`finished, this`freed, queue`entries, element`index
      ensures Valid() && queue.spine == old(queue.spine) && queue.nodes == old(queue.nodes)
      ensures failed <==> answer < 0
      ensures finished <==> answer == old(element.length - element.index)
      ensures element == if finished then old(element) else null
      ensures taken == if failed then "" else old(element.buffer.data[element.index..element.index + answer])
      ensures queue.entries == if failed || finished then old(queue.entries)
                else old(queue.entries)[0 := old(queue.entries[0]).(index := old(element.index) + answer)]
    {
      taken, failed := "", false;
      var remaining := element.length - element.index;
      if answer < 0 {
        element, failed := null, true;
      } else {
        taken := element.buffer.data[element.index..element.index + answer];
        if answer == remaining {
          LedgerFinish(queue.entries, top, freed);
          Free(element.buffer);
          finished := true;
        } else {
          LedgerAdvance(queue.entries, top, freed, element.index + answer);
          queue.Advance(element, answer);
          element := null;
        }
      }
    }

    /** The callback removes the element that it has written out. */
    method Remove() returns (status: Status)
      requires Valid() && finished
      modifies this`element, this`finished, queue`head, queue`spine, queue`entries
      ensures Valid() && element == null && !finished
      ensures status == Ok
      ensures queue.entries == old(queue.entries)[1..] && queue.spine == old(queue.spine)[1..]
    {
      LedgerRemove(queue.entries, top, freed);
      status := queue.RemoveHeadEntry(element);
      element, finished := null, false;
    }

    ghost function View(wire: string): State
      reads this, queue
    {
      State(queue.entries, finished, wire)
    }

    method WriteStep(answer: int, wire: string) returns (wire': string)
      requires Valid() && element != null && !finished && answer <= element.length - element.index
      modifies this, queue, queue.nodes
      ensures Valid() && queue.nodes == old(queue.nodes)
      ensures Moves(old(View(wire)), Event.Write(answer), View(wire'))
    {
      assert queue.entries[0] == Entry(element.buffer, element.length, element.index);
      var failed, taken := Write(answer);
      assert failed ==> wire + taken == wire;
      wire' := wire + taken;
    }

    /** One step of a run: a step that the callback is not at is skipped. */
    method Step(event: Event, wire: string) returns (wire': string, removals: seq<Status>)
      requires Valid()
      modifies this, queue, queue.nodes
      ensures Valid() && fresh(queue.nodes - old(queue.nodes))
      ensures Moves(old(View(wire)), event, View(wire'))
      ensures AllOk(removals)
    {
      wire', removals := wire, [];
      match event {
        case Send(message, roomForBuffer, roomForNode) =>
          var _ := Send(message, roomForBuffer, roomForNode);
        case Take =>
          if element == null {
            Take();
          }
        case Write(answer) =>
          if element != null && !finished && answer <= element.length - element.index {
            wire' := WriteStep(answer, wire);
          }
        case Remove =>
          if finished {
            var status := Remove();
            removals := [status];
          }
      }
    }

    /** What is left to be written, message by message. */
    method Queued() returns (queued: seq<string>)
      requires Valid()
      ensures queued == Rests(Live(queue.entries, finished))
      ensures forall i :: 0 <= i < |queued| ==> queued[i] != ""
      ensures |freed| + |queued| == top && forall a :: a in freed ==> a < top
    {
      queued := [];
      var node := queue.head;
      ghost var i := 0;
      if finished {
        assert queue.spine[0].next == if |queue.spine| > 1 then queue.spine[1] else null;
        node, i := node.next, 1;
      }
      ghost var first := i;
      while node != null
        invariant first <= i <= |queue.spine| && first == if finished then 1 else 0
        invariant node == if i < |queue.spine| then queue.spine[i] else null
        invariant queued == Rests(queue.entries[first..i])
        decreases |queue.spine| - i
      {
        assert queue.entries[first..i + 1] == queue.entries[first..i] + [queue.entries[i]];
        queued := queued + [node.buffer.data[node.index..]];
        node, i := node.next, i + 1;
      }
    }
  }

  // ------------------------------------------------------------------ the protocol

  datatype State = State(entries: seq<Entry>, finished: bool, wire: string)

  /** What a step may do to the queue and the wire. */
  ghost predicate Moves(s: State, event: Event, t: State) {
    match event
    case Send(_, _, _) =>
      if Taken(event) == [] then t == s
      else
        && t.entries != [] && t.entries[..|t.entries| - 1] == s.entries && t.finished == s.finished && t.wire == s.wire
        && t.entries[|t.entries| - 1].index == 0 && [t.entries[|t.entries| - 1].buffer.data] == Taken(event)
    case Take => t == s
    case Write(answer) => t == s || Finishes(s, t) || Advances(s, answer, t)
    case Remove => t == s || (s.finished && s.entries != [] && t == State(s.entries[1..], false, s.wire))
  }

  ghost predicate Finishes(s: State, t: State) {
    && s.entries != [] && !s.finished && s.entries[0].index <= |s.entries[0].buffer.data|
    && t == State(s.entries, true, s.wire + s.entries[0].buffer.data[s.entries[0].index..])
  }

  ghost predicate Advances(s: State, count: int, t: State) {
    && s.entries != [] && !s.finished
    && var head := s.entries[0];
      && head.index <= head.index + count <= |head.buffer.data|
      && t == State(s.entries[0 := head.(index := head.index + count)], false,
                    s.wire + head.buffer.data[head.index..head.index + count])
  }

  /** The messages that a run accepts. */
  function Accepted(events: seq<Event>): seq<string> {
    if events == [] then []
    else Accepted(events[..|events| - 1]) + Taken(events[|events| - 1])
  }

  function Taken(event: Event): seq<string> {
    if event.Send? && event.message != NoMessage && event.message.text != "" && event.roomForBuffer && event.roomForNode
    then [event.message.text] else []
  }

  predicate AllOk(removals: seq<Status>) {
    forall i :: 0 <= i < |removals| ==> removals[i] == Ok
  }

  /** What was written and what is still to be written. */
  ghost function Bytes(s: State): string {
    s.wire + Unsent(Live(s.entries, s.finished))
  }

  lemma Associative(a: string, b: string, c: string)
    ensures (a + b) + c == a + (b + c)
  {
  }

  lemma {:induction false} UnsentAppend(entries: seq<Entry>, entry: Entry)
    ensures Unsent(entries + [entry]) == Unsent(entries) + Rest(entry)
  {
    if entries == [] {
      assert entries + [entry] == [entry];
    } else {
      assert (entries + [entry])[1..] == entries[1..] + [entry];
      UnsentAppend(entries[1..], entry);
    }
  }

  lemma SendConserves(s: State, event: Event, t: State)
    requires event.Send? && Moves(s, event, t) && (s.finished ==> s.entries != [])
    ensures Bytes(t) == Bytes(s) + Flatten(Taken(event))
  {
    if Taken(event) == [] {
      assert Bytes(s) + "" == Bytes(s);
    } else {
      var entry := t.entries[|t.entries| - 1];
      var live := Live(s.entries, s.finished);
      assert t.entries == s.entries + [entry];
      assert Live(t.entries, t.finished) == live + [entry];
      UnsentAppend(live, entry);
      assert Rest(entry) == event.message.text == Flatten(Taken(event));
      Associative(s.wire, Unsent(live), Rest(entry));
    }
  }

  lemma FinishConserves(s: State, t: State)
    requires Finishes(s, t)
    ensures Bytes(t) == Bytes(s)
  {
  }

  lemma AdvanceConserves(s: State, count: int, t: State)
    requires Advances(s, count, t)
    ensures Bytes(t) == Bytes(s)
  {
  }

  lemma MoveConserves(s: State, event: Event, t: State)
    requires Moves(s, event, t) && (s.finished ==> s.entries != [])
    ensures Bytes(t) == Bytes(s) + Flatten(Taken(event))
  {
    match event {
      case Send(_, _, _) => SendConserves(s, event, t);
      case Take =>
      case Write(answer) =>
        if Finishes(s, t) { FinishConserves(s, t); } else if Advances(s, answer, t) { AdvanceConserves(s, answer, t); }
      case Remove =>
    }
    assert Bytes(s) + "" == Bytes(s);
  }

  ghost predicate Trace(states: seq<State>, events: seq<Event>) {
    && |states| == |events| + 1
    && states[0] == State([], false, "")
    && (forall k :: 0 <= k < |events| ==> Moves(states[k], events[k], states[k + 1]))
    && (forall k :: 0 <= k < |states| ==> (states[k].finished ==> states[k].entries != []))
  }

  /** Conservation over a whole run. */
  lemma {:induction false} Conservation(states: seq<State>, events: seq<Event>)
    requires Trace(states, events)
    ensures Bytes(states[|events|]) == Flatten(Accepted(events))
  {
    if events == [] {
    } else {
      var n := |events| - 1;
      assert Moves(states[n], events[n], states[n + 1]);
      Conservation(states[..n + 1], events[..n]);
      MoveConserves(states[n], events[n], states[n + 1]);
      FlattenConcat(Accepted(events[..n]), Taken(events[n]));
    }
  }

  lemma {:induction false} UnsentFlattens(entries: seq<Entry>)
    ensures Unsent(entries) == Flatten(Rests(entries))
  {
    if entries != [] {
      assert Rests(entries)[1..] == Rests(entries[1..]);
      UnsentFlattens(entries[1..]);
    }
  }

  method Drive(ws: Websocket, events: seq<Event>)
    returns (wire: string, removals: seq<Status>, ghost states: seq<State>)
    requires ws.Valid() && ws.View("") == State([], false, "")
    modifies ws, ws.queue, ws.queue.nodes
    ensures ws.Valid() && AllOk(removals)
    ensures Trace(states, events) && states[|events|] == ws.View(wire)
  {
    wire, removals, states := "", [], [ws.View("")];
    for n := 0 to |events|
      invariant ws.Valid() && fresh(ws.queue.nodes - old(ws.queue.nodes))
      invariant AllOk(removals)
      invariant Trace(states, events[..n]) && states[n] == ws.View(wire)
    {
      var removed;
      wire, removed := ws.Step(events[n], wire);
      removals := removals + removed;
      states := states + [ws.View(wire)];
    }
    assert events[..|events|] == events;
  }

  /** Any interleaving of producers and callbacks, with any answers: what the library took, followed by
      what is left of the queued messages, is the accepted messages in order; the callback never finds
      another element at the head; and every buffer allocated is freed once or still queued. */
  method Run(events: seq<Event>)
    returns (wire: string, queued: seq<string>, removals: seq<Status>, buffers: nat, freed: set<nat>)
    ensures wire + Flatten(queued) == Flatten(Accepted(events))
    ensures forall i :: 0 <= i < |queued| ==> queued[i] != ""
    ensures AllOk(removals)
    ensures |freed| + |queued| == buffers && forall a :: a in freed ==> a < buffers
  {
    var ws := new Websocket();
    ghost var states;
    wire, removals, states := Drive(ws, events);
    Conservation(states, events);
    queued := ws.Queued();
    UnsentFlattens(Live(ws.queue.entries, ws.finished));
    buffers, freed := ws.top, ws.freed;
  }
}
