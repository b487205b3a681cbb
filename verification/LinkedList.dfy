/** The agent's singly linked lists: a head pointer and heap nodes. */
module LinkedList {

  class Node<T> {
    var data: T
    var next: Node?<T>

    constructor (data: T, next: Node?<T>)
      ensures this.data == data && this.next == next
    {
      this.data, this.next := data, next;
    }
  }

  ghost function NodeAt<T>(nodes: seq<Node<T>>, i: nat): Node?<T> {
    if i < |nodes| then nodes[i] else null
  }

  ghost predicate Distinct<T>(nodes: seq<Node<T>>) {
    forall i, j :: 0 <= i < j < |nodes| ==> nodes[i] != nodes[j]
  }

  /** `nodes` are the nodes reached from `head`, in order; they are distinct, so the list is acyclic. */
  ghost predicate Chained<T>(head: Node?<T>, nodes: seq<Node<T>>)
    reads nodes
  {
    && head == NodeAt(nodes, 0)
    && (forall i {:trigger nodes[i].next} :: 0 <= i < |nodes| ==> nodes[i].next == NodeAt(nodes, i + 1))
    && Distinct(nodes)
  }

  ghost predicate Holds<T>(nodes: seq<Node<T>>, contents: seq<T>)
    reads nodes
  {
    && |nodes| == |contents|
    && forall i {:trigger nodes[i].data} {:trigger contents[i]} :: 0 <= i < |nodes| ==> nodes[i].data == contents[i]
  }

  class List<T> {
    var head: Node?<T>
    ghost var nodes: seq<Node<T>>
    ghost var contents: seq<T>
    ghost var repr: set<Node<T>>

    ghost predicate Valid()
      reads this, repr
    {
      && (forall i :: 0 <= i < |nodes| ==> nodes[i] in repr)
      && Chained(head, nodes) && Holds(nodes, contents)
    }

    constructor ()
      ensures Valid() && contents == [] && repr == {}
    {
      head, nodes, contents, repr := null, [], [], {};
    }

    /** Walks to the last node and hangs a new one behind it. */
    method Append(x: T)
      requires Valid()
      modifies this, repr
      ensures Valid() && fresh(repr - old(repr)) && contents == old(contents) + [x]
    {
      var tail := new Node(x, null);
      if head == null {
        head := tail;
      } else {
        var tmp := head;
        ghost var i := 0;
        while tmp.next != null
          invariant 0 <= i < |nodes| && tmp == nodes[i]
          decreases |nodes| - i
        {
          tmp := tmp.next;
          i := i + 1;
        }
        tmp.next := tail;
      }
      nodes, contents, repr := nodes + [tail], contents + [x], repr + {tail};
    }

    /** Overwrites the data of node `i`, which is `node`. */
    method Store(node: Node<T>, x: T, ghost i: nat)
      requires Valid() && i < |nodes| && node == nodes[i]
      modifies this`contents, node`data
      ensures Valid() && contents == old(contents)[i := x] && node.data == x
    {
      node.data := x;
      contents := contents[i := x];
    }

    /** Puts a new node in front. */
    method Prepend(x: T) returns (node: Node<T>)
      requires Valid()
      modifies this
      ensures Valid() && contents == [x] + old(contents)
      ensures nodes == [node] + old(nodes) && repr == old(repr) + {node} && fresh(node)
    {
      node := new Node(x, head);
      head := node;
      nodes, contents, repr := [node] + nodes, [x] + contents, repr + {node};
    }
  }
}
