/** The linked queue of outgoing messages. */
module RingBuffer {

  datatype Status = Ok | BadParameter | OutOfMemory | Empty | Inconsistent

  /** A message buffer on the heap: where it is and what it holds. */
  datatype Buffer = Buffer(address: nat, data: string)

  datatype Pointer = Null | To(buffer: Buffer)

  class Node {
    const buffer: Buffer
    const length: nat
    var index: nat
    var next: Node?

    constructor (buffer: Buffer, length: nat)
      ensures this.buffer == buffer && this.length == length && index == 0 && next == null
    {
      this.buffer, this.length := buffer, length;
      index, next := 0, null;
    }
  }

  /** What the queue holds for one message. */
  datatype Entry = Entry(buffer: Buffer, length: nat, index: nat)

  class Queue {
    var head: Node?
    /** Left pointing at the last node removed when the queue runs empty. */
    var tail: Node?
    /** The linked nodes, and the first-in first-out queue that they stand for. */
    ghost var spine: seq<Node>
    ghost var entries: seq<Entry>
    /** Every node that was ever linked. */
    ghost var nodes: set<Node>

    ghost predicate Valid()
      reads this, nodes
    {
      && (forall i :: 0 <= i < |spine| ==> spine[i] in nodes)
      && (head == null <==> spine == [])
      && (spine != [] ==> head == spine[0] && tail == spine[|spine| - 1])
      && (forall i {:trigger spine[i].next} :: 0 <= i < |spine| ==>
            spine[i].next == if i + 1 < |spine| then spine[i + 1] else null)
      && (forall i, j :: 0 <= i < j < |spine| ==> spine[i] != spine[j])
      && |entries| == |spine|
      && (forall i :: 0 <= i < |spine| ==> entries[i] == Entry(spine[i].buffer, spine[i].length, spine[i].index))
    }

    constructor ()
      ensures Valid() && entries == [] && nodes == {}
    {
      head, tail := null, null;
      spine, entries, nodes := [], [], {};
    }

    /** `room` tells whether the node can be allocated. */
    method Insert(pointer: Pointer, length: nat, room: bool) returns (status: Status)
      requires Valid()
      modifies this, nodes`next
      ensures Valid() && fresh(nodes - old(nodes)) && old(nodes) <= nodes
      ensures status == (if pointer == Null || length == 0 then BadParameter else if !room then OutOfMemory else Ok)
      ensures entries == if status == Ok then old(entries) + [Entry(pointer.buffer, length, 0)] else old(entries)
      ensures spine == if status == Ok then old(spine) + [tail] else old(spine)
    {
      if pointer == Null || length == 0 {
        return BadParameter;
      }
      if !room {
        return OutOfMemory;
      }
      var node := new Node(pointer.buffer, length);
      if head == null {
        head, tail := node, node;
      } else {
        tail.next := node;
        tail := node;
      }
      nodes := nodes + {node};
      spine, entries := spine + [node], entries + [Entry(pointer.buffer, length, 0)];
      status := Ok;
    }

    method GetHeadEntry() returns (status: Status, element: Node?)
      requires Valid()
      ensures status == (if entries == [] then Empty else Ok)
      ensures element == (if status == Ok then spine[0] else null)
    {
      if head == null {
        return Empty, null;
      }
      return Ok, head;
    }

    method RemoveHeadEntry(element: Node?) returns (status: Status)
      requires Valid()
      modifies this`head, this`spine, this`entries
      ensures Valid()
      ensures status == (if element == null then BadParameter
                         else if old(spine) != [] && element == old(spine[0]) then Ok else Inconsistent)
      ensures spine == (if status == Ok then old(spine)[1..] else old(spine))
      ensures entries == (if status == Ok then old(entries)[1..] else old(entries))
    {
      if element == null {
        return BadParameter;
      }
      if head != element {
        return Inconsistent;
      }
      assert spine[0].next == if |spine| > 1 then spine[1] else null;
      head := head.next;
      spine, entries := spine[1..], entries[1..];
      status := Ok;
    }

    /** What the sender does to the entry that it took from the head. */
    method Advance(element: Node, count: nat)
      requires Valid() && spine != [] && element == spine[0]
      modifies this`entries, element`index
      ensures Valid()
      ensures entries == old(entries)[0 := old(entries[0]).(index := old(element.index) + count)]
    {
      element.index := element.index + count;
      entries := entries[0 := entries[0].(index := element.index)];
    }
  }
}
