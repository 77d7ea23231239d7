/** The singly linked list of linkedlist.c: nodes on the heap, appended by walking to the tail. */
module LinkedList {

  datatype Option<T> = None | Some(value: T)

  class Node<T> {
    var data: Option<T>
    var next: Node?<T>

    /** create_node. */
    constructor (data: Option<T>)
      ensures this.data == data && next == null
    {
      this.data, next := data, null;
    }
  }

  /** The nodes reachable from head, in order, without a cycle. */
  ghost predicate Chain<T>(head: Node?<T>, nodes: seq<Node<T>>)
    reads nodes
  {
    && (forall i, j :: 0 <= i < j < |nodes| ==> nodes[i] != nodes[j])
    && (forall i :: 0 <= i < |nodes| - 1 ==> nodes[i].next == nodes[i + 1])
    && (if |nodes| == 0 then head == null else head == nodes[0] && nodes[|nodes| - 1].next == null)
  }

  /** The list from head holds exactly these data, in order. */
  ghost predicate IsList<T>(head: Node?<T>, nodes: seq<Node<T>>, contents: seq<Option<T>>)
    reads nodes
  {
    Chain(head, nodes) && |contents| == |nodes| && forall i :: 0 <= i < |nodes| ==> nodes[i].data == contents[i]
  }

  /** The walk to the tail. */
  method Last<T>(head: Node<T>, ghost nodes: seq<Node<T>>) returns (temp: Node<T>)
    requires Chain(head, nodes)
    ensures |nodes| > 0 && temp == nodes[|nodes| - 1]
  {
    temp := head;
    ghost var k := 0;
    while temp.next != null
      invariant 0 <= k < |nodes| && temp == nodes[k]
      invariant temp.next == if k + 1 < |nodes| then nodes[k + 1] else null
      decreases |nodes| - k
    {
      temp := temp.next;
      k := k + 1;
    }
  }

  /** push_back: the new node, if malloc grants one, becomes the tail; nothing else moves. */
  method PushBack<T>(head: Node?<T>, data: Option<T>, granted: bool,
                     ghost nodes: seq<Node<T>>, ghost contents: seq<Option<T>>)
    returns (head': Node?<T>, ghost nodes': seq<Node<T>>)
    requires IsList(head, nodes, contents)
    modifies nodes
    ensures IsList(head', nodes', if granted then contents + [data] else contents)
    ensures if granted then |nodes'| == |nodes| + 1 && nodes <= nodes' && fresh(nodes'[|nodes|]) else nodes' == nodes
    ensures head != null ==> head' == head
  {
    head', nodes' := head, nodes;
    if !granted {
      return;
    }
    var node := new Node<T>(data);
    if head == null {
      head' := node;
    } else {
      var temp := Last(head, nodes);
      temp.next := node;
    }
    nodes' := nodes + [node];
  }
}
