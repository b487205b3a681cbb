/** The neighbour cache in the heap, edited in place. */
module MsapCache {
  import opened Bytes
  import opened LinkedList
  import opened Neighbours

  type MsapNode = Node<Entry>
  type MsapList = List<Entry>

  /** The nodes whose entries have time left, in order. */
  ghost function LiveNodes(nodes: seq<MsapNode>, c: seq<Entry>): seq<MsapNode>
    requires |nodes| == |c|
  {
    if c == [] then [] else (if c[0].ttl == 0 then [] else [nodes[0]]) + LiveNodes(nodes[1..], c[1..])
  }

  lemma {:induction false} LiveSnoc(nodes: seq<MsapNode>, c: seq<Entry>, n: MsapNode, e: Entry)
    requires |nodes| == |c|
    ensures Live(c + [e]) == Live(c) + if e.ttl == 0 then [] else [e]
    ensures LiveNodes(nodes + [n], c + [e]) == LiveNodes(nodes, c) + if e.ttl == 0 then [] else [n]
  {
    if c == [] {
      assert c + [e] == [e] && nodes + [n] == [n];
    } else {
      assert (c + [e])[1..] == c[1..] + [e] && (nodes + [n])[1..] == nodes[1..] + [n];
      LiveSnoc(nodes[1..], c[1..], n, e);
    }
  }

  ghost function Without<T>(s: seq<T>, k: nat): seq<T>
    requires k < |s|
  {
    s[..k] + s[k + 1..]
  }

  lemma WithoutDistinct(nodes: seq<MsapNode>, k: nat)
    requires Distinct(nodes) && k < |nodes|
    ensures Distinct(Without(nodes, k))
  {
  }

  /** Takes node `k` out of the list: the head moves when it is the first, else the node before it is relinked. */
  method Unlink(list: MsapList, tail: Node?<Entry>, curr: MsapNode, ghost k: nat)
    requires list.Valid() && k < |list.nodes| && curr == list.nodes[k]
    requires tail == if k == 0 then null else list.nodes[k - 1]
    modifies list, tail
    ensures list.Valid() && list.repr == old(list.repr)
    ensures list.nodes == Without(old(list.nodes), k) && list.contents == Without(old(list.contents), k)
  {
    ghost var was := list.nodes;
    if curr == list.head {
      list.head := curr.next;
    } else {
      tail.next := curr.next;
    }
    list.nodes, list.contents := Without(list.nodes, k), Without(list.contents, k);
    WithoutDistinct(was, k);
    forall i | 0 <= i < |list.nodes|
      ensures list.nodes[i].next == NodeAt(list.nodes, i + 1) && list.nodes[i].data == list.contents[i]
    {
      assert list.nodes[i] == if i < k then was[i] else was[i + 1];
    }
  }

  /** The list when its first `i` entries have been looked at. */
  ghost function SweptNodes(nodes: seq<MsapNode>, c: seq<Entry>, i: nat): seq<MsapNode>
    requires |nodes| == |c| && i <= |c|
  {
    LiveNodes(nodes[..i], c[..i]) + nodes[i..]
  }

  ghost function SweptData(c: seq<Entry>, i: nat): seq<Entry>
    requires i <= |c|
  {
    Live(c[..i]) + c[i..]
  }

  lemma {:induction false} SameCount(nodes: seq<MsapNode>, c: seq<Entry>)
    requires |nodes| == |c|
    ensures |LiveNodes(nodes, c)| == |Live(c)|
  {
    if c == [] {
    } else {
      SameCount(nodes[1..], c[1..]);
    }
  }

  lemma SweepOneOf<T>(live: seq<T>, s: seq<T>, i: nat)
    requires i < |s|
    ensures var swept := live + s[i..];
      && |live| < |swept| && swept[|live|] == s[i]
      && live + s[i + 1..] == Without(swept, |live|)
      && (live + [s[i]]) + s[i + 1..] == swept
  {
    assert s[i..] == [s[i]] + s[i + 1..];
  }

  lemma SweepStep(nodes: seq<MsapNode>, c: seq<Entry>, i: nat)
    requires |nodes| == |c| && i < |c|
    ensures var k := |Live(c[..i])|;
      var ns, cs := SweptNodes(nodes, c, i), SweptData(c, i);
      && k < |ns| == |cs| && ns[k] == nodes[i] && cs[k] == c[i]
      && |Live(c[..i + 1])| == (if c[i].ttl == 0 then k else k + 1)
      && SweptNodes(nodes, c, i + 1) == (if c[i].ttl == 0 then Without(ns, k) else ns)
      && SweptData(c, i + 1) == (if c[i].ttl == 0 then Without(cs, k) else cs)
  {
    var ln, lc := LiveNodes(nodes[..i], c[..i]), Live(c[..i]);
    LiveSnoc(nodes[..i], c[..i], nodes[i], c[i]);
    SameCount(nodes[..i], c[..i]);
    SweepOneOf(ln, nodes, i);
    SweepOneOf(lc, c, i);
    assert c[..i + 1] == c[..i] + [c[i]] && nodes[..i + 1] == nodes[..i] + [nodes[i]];
    assert ln + [] == ln && lc + [] == lc;
  }

  lemma SweptAll(nodes: seq<MsapNode>, c: seq<Entry>)
    requires |nodes| == |c|
    ensures SweptNodes(nodes, c, 0) == nodes && SweptData(c, 0) == c
    ensures SweptNodes(nodes, c, |c|) == LiveNodes(nodes, c) && SweptData(c, |c|) == Live(c)
  {
    assert c[..|c|] == c && nodes[..|c|] == nodes;
  }

  /** Half-way through a sweep: `i` entries looked at, `curr` next, `tail` the last node kept. */
  ghost predicate Sweeping(list: MsapList, curr: Node?<Entry>, tail: Node?<Entry>,
                           was: seq<MsapNode>, data: seq<Entry>, i: nat)
    requires |was| == |data| && i <= |data|
    reads list, list.repr
  {
    var k := |Live(data[..i])|;
    && list.Valid()
    && list.nodes == SweptNodes(was, data, i) && list.contents == SweptData(data, i)
    && k <= |list.nodes| && |list.nodes| - k == |was| - i
    && curr == NodeAt(list.nodes, k)
    && tail == (if k == 0 then null else list.nodes[k - 1])
  }

  /** One turn of the sweep. Whenever it relinks, `tail` is the last kept node. */
  method SweepOne(list: MsapList, curr: MsapNode, tail: Node?<Entry>,
                  ghost was: seq<MsapNode>, ghost data: seq<Entry>, ghost i: nat)
    returns (curr': Node?<Entry>, tail': Node?<Entry>)
    requires |was| == |data| && i < |data| && Sweeping(list, curr, tail, was, data, i)
    modifies list, tail
    ensures Sweeping(list, curr', tail', was, data, i + 1) && list.repr == old(list.repr)
  {
    SweepStep(was, data, i);
    ghost var k := |Live(data[..i])|;
    curr' := curr.next;
    assert curr' == NodeAt(list.nodes, k + 1);
    if curr.data.ttl == 0 {
      tail' := tail;
      Unlink(list, tail, curr, k);
    } else {
      tail' := curr;
    }
  }

  lemma SweepStart(list: MsapList)
    requires list.Valid()
    ensures Sweeping(list, list.head, null, list.nodes, list.contents, 0)
  {
    SweptAll(list.nodes, list.contents);
  }

  lemma SweepMore(list: MsapList, curr: MsapNode, tail: Node?<Entry>, was: seq<MsapNode>, data: seq<Entry>, i: nat)
    requires |was| == |data| && i <= |data| && Sweeping(list, curr, tail, was, data, i)
    ensures i < |data|
  {
    SweepStep(was, data, i);
  }

  lemma SweepDone(list: MsapList, tail: Node?<Entry>, was: seq<MsapNode>, data: seq<Entry>, i: nat)
    requires |was| == |data| && i <= |data| && Sweeping(list, null, tail, was, data, i)
    ensures list.Valid() && list.contents == Live(data) && list.nodes == LiveNodes(was, data)
  {
    assert i == |data|;
    SweptAll(was, data);
  }

  /** Unlinks every expired entry in place. What stays is the old list filtered: the surviving nodes themselves,
      in their order, with their entries as they were. */
  method DeleteObjects(list: MsapList)
    requires list.Valid()
    modifies list, list.repr
    ensures list.Valid() && list.repr == old(list.repr) && list.contents == Live(old(list.contents))
    ensures list.nodes == LiveNodes(old(list.nodes), old(list.contents))
  {
    var curr, tail: Node?<Entry> := list.head, null;
    ghost var was, data := list.nodes, list.contents;
    ghost var i := 0;
    SweepStart(list);
    while curr != null
      invariant 0 <= i <= |was| == |data| && Sweeping(list, curr, tail, was, data, i)
      invariant list.repr == old(list.repr)
      decreases |was| - i
    {
      SweepMore(list, curr, tail, was, data, i);
      curr, tail := SweepOne(list, curr, tail, was, data, i);
      i := i + 1;
    }
    SweepDone(list, tail, was, data, i);
  }

  /** Walks the list for an id: the stored lengths must agree, then that many bytes are compared. */
  method FindNode(list: MsapList, id: seq<byte>) returns (node: Node?<Entry>, ghost i: nat)
    requires list.Valid()
    ensures i == Find(list.contents, KeyOf(id)) && node == NodeAt(list.nodes, i)
  {
    node, i := list.head, 0;
    var length := |id| % 256;
    while node != null
      invariant 0 <= i <= |list.nodes| && node == NodeAt(list.nodes, i)
      invariant forall j :: 0 <= j < i ==> KeyOf(list.contents[j].id) != KeyOf(id)
      decreases |list.nodes| - i
    {
      if |node.data.id| % 256 == length && node.data.id[..length] == id[..length] {
        break;
      }
      node := node.next;
      i := i + 1;
    }
    FindIs(list.contents, KeyOf(id), i);
  }

  /** A hit refreshes the node's TTL and drops the new entry; a miss hangs a new node in front; all other nodes
      stay where they are. Returns the node that now holds the neighbour. */
  method UpdateMsapCache(list: MsapList, e: Entry) returns (msap: MsapNode)
    requires list.Valid()
    modifies list, list.repr
    ensures list.Valid() && list.contents == Upsert(old(list.contents), e)
    ensures var hit := Find(old(list.contents), KeyOf(e.id)) < |old(list.contents)|;
      list.nodes == if hit then old(list.nodes) else [msap] + old(list.nodes)
    ensures msap == NodeAt(list.nodes, Find(list.contents, KeyOf(e.id)))
    ensures fresh(list.repr - old(list.repr))
  {
    UpsertFind(list.contents, e, KeyOf(e.id));
    ghost var i: nat;
    var oldCache: Node?<Entry>;
    oldCache, i := FindNode(list, e.id);
    if oldCache != null {
      list.Store(oldCache, oldCache.data.(ttl := e.ttl), i);
      msap := oldCache;
    } else {
      msap := list.Prepend(e);
    }
  }

  /** The contents when the first `i` entries have been aged. */
  function Aging(c: seq<Entry>, i: nat): (c': seq<Entry>)
    requires i <= |c|
    ensures |c'| == |c|
  {
    AgeAll(c[..i]) + c[i..]
  }

  lemma AgingStep(c: seq<Entry>, i: nat)
    requires i < |c|
    ensures Aging(c, i)[i] == c[i] && Aging(c, i + 1) == Aging(c, i)[i := Aged(c[i])]
    ensures AnyExpired(AgeAll(c[..i + 1])) <==> AnyExpired(AgeAll(c[..i])) || Aged(c[i]).ttl == 0
  {
    var a, b := AgeAll(c[..i]), AgeAll(c[..i + 1]);
    assert b == a + [Aged(c[i])];
    if AnyExpired(a) {
      var j :| 0 <= j < |a| && a[j].ttl == 0;
      assert b[j].ttl == 0;
    }
    if Aged(c[i]).ttl == 0 {
      assert b[i].ttl == 0;
    }
  }

  lemma AgingEnds(c: seq<Entry>)
    ensures Aging(c, 0) == c && Aging(c, |c|) == AgeAll(c) && c[..|c|] == c
  {
  }

  /** Ages entry `i`, and reports whether it is now expired. */
  method DecrementTimer(list: MsapList, curr: MsapNode, ghost i: nat) returns (expired: bool)
    requires list.Valid() && i < |list.nodes| && curr == list.nodes[i]
    modifies list`contents, curr`data
    ensures list.Valid() && list.contents == old(list.contents)[i := Aged(old(list.contents)[i])]
    ensures expired <==> list.contents[i].ttl == 0
  {
    var ttl := if curr.data.ttl > 0 then curr.data.ttl - 1 else curr.data.ttl;
    list.Store(curr, curr.data.(ttl := ttl), i);
    expired := ttl <= 0;
  }

  /** Ages every entry by one run, and reports whether any is now expired. */
  method UpdateTimers(list: MsapList) returns (expired: bool)
    requires list.Valid()
    modifies list, list.repr
    ensures list.Valid() && list.repr == old(list.repr) && list.nodes == old(list.nodes)
    ensures list.contents == AgeAll(old(list.contents)) && (expired <==> AnyExpired(list.contents))
  {
    var curr := list.head;
    ghost var i, data := 0, list.contents;
    expired := false;
    AgingEnds(data);
    while curr != null
      invariant list.repr == old(list.repr) && list.nodes == old(list.nodes) && list.Valid()
      invariant 0 <= i <= |data| && curr == NodeAt(list.nodes, i)
      invariant list.contents == Aging(data, i)
      invariant expired <==> AnyExpired(AgeAll(data[..i]))
      decreases |data| - i
    {
      AgingStep(data, i);
      var zero := DecrementTimer(list, curr, i);
      expired := expired || zero;
      curr := curr.next;
      i := i + 1;
    }
    AgingEnds(data);
  }
}
