/** The intrusive sorted list every component of the LwM2M core is built on
    (src/lwm2m/core/list.c): objects, instances, servers and transactions are
    all chained through a `next` pointer and a 16-bit id. */
module SortedList {

  const ID_COUNT := 0x1_0000

  class Node {
    var next: Node?
    const id: nat

    constructor (id: nat)
      requires id < ID_COUNT
      ensures this.id == id && next == null
    {
      this.id, next := id, null;
    }
  }

  /** `nodes` are exactly the nodes met when walking from `head`. */
  ghost predicate Chain(head: Node?, nodes: seq<Node>)
    reads nodes
  {
    && (head == if nodes == [] then null else nodes[0])
    && (forall i {:trigger nodes[i].next} :: 0 <= i < |nodes| ==>
          nodes[i].next == if i + 1 < |nodes| then nodes[i + 1] else null)
  }

  ghost predicate Ascending(nodes: seq<Node>) {
    && (forall i, j :: 0 <= i < j < |nodes| ==> nodes[i].id < nodes[j].id)
    && (forall i :: 0 <= i < |nodes| ==> nodes[i].id < ID_COUNT)
  }

  /** The finite map a list stands for: the node registered under `id`, if any. */
  ghost function Lookup(nodes: seq<Node>, id: nat): (n: Node?)
    ensures n != null ==> n.id == id && n in nodes
    ensures n == null ==> forall m :: m in nodes ==> m.id != id
  {
    if nodes == [] then null
    else if nodes[0].id == id then nodes[0]
    else Lookup(nodes[1..], id)
  }

  lemma {:induction false} LookupAt(nodes: seq<Node>, i: nat)
    requires Ascending(nodes) && i < |nodes|
    ensures Lookup(nodes, nodes[i].id) == nodes[i]
  {
    if i > 0 { LookupAt(nodes[1..], i - 1); }
  }

  lemma {:induction false} LookupConcat(a: seq<Node>, b: seq<Node>, id: nat)
    ensures Lookup(a + b, id) == if Lookup(a, id) != null then Lookup(a, id) else Lookup(b, id)
  {
    if a == [] {
      assert a + b == b;
    } else {
      assert (a + b)[1..] == a[1..] + b;
      LookupConcat(a[1..], b, id);
    }
  }

  /** A value strictly between two neighbours is not an id of the list. */
  lemma {:induction false} GapLookup(nodes: seq<Node>, k: nat, id: nat)
    requires Ascending(nodes) && k <= |nodes|
    requires k > 0 ==> nodes[k - 1].id < id
    requires k < |nodes| ==> id < nodes[k].id
    ensures Lookup(nodes, id) == null
  {
    if nodes != [] {
      assert k == 0 ==> |nodes| > 1 ==> nodes[0].id < nodes[1].id;
      GapLookup(nodes[1..], if k > 0 then k - 1 else 0, id);
    }
  }

  ghost function Inserted(nodes: seq<Node>, k: nat, node: Node): seq<Node>
    requires k <= |nodes|
  {
    nodes[..k] + [node] + nodes[k..]
  }

  ghost function Without(nodes: seq<Node>, k: nat): seq<Node>
    requires k < |nodes|
  {
    nodes[..k] + nodes[k + 1..]
  }

  /** Inserting a node with a fresh id updates the map at that id only. */
  lemma InsertLookup(nodes: seq<Node>, k: nat, node: Node, id: nat)
    requires k <= |nodes| && Lookup(nodes, node.id) == null
    ensures Lookup(Inserted(nodes, k, node), id) == if id == node.id then node else Lookup(nodes, id)
  {
    var a, b := nodes[..k], nodes[k..];
    assert nodes == a + b;
    LookupConcat(a, b, id);
    LookupConcat(a + [node], b, id);
    LookupConcat(a, [node], id);
  }

  lemma InsertAscending(nodes: seq<Node>, k: nat, node: Node)
    requires Ascending(nodes) && k <= |nodes| && node.id < ID_COUNT
    requires k > 0 ==> nodes[k - 1].id < node.id
    requires k < |nodes| ==> node.id < nodes[k].id
    ensures Ascending(Inserted(nodes, k, node))
  {
    hide Inserted;
    InsertedAt(nodes, k, node, 0);
    var r := Inserted(nodes, k, node);
    forall i, j | 0 <= i < j < |r|
      ensures r[i].id < r[j].id
    {
      InsertedAt(nodes, k, node, i);
      InsertedAt(nodes, k, node, j);
    }
    forall i | 0 <= i < |r|
      ensures r[i].id < ID_COUNT
    {
      InsertedAt(nodes, k, node, i);
    }
  }

  lemma InsertedAt(nodes: seq<Node>, k: nat, node: Node, i: nat)
    requires k <= |nodes| && i <= |nodes|
    ensures |Inserted(nodes, k, node)| == |nodes| + 1
    ensures Inserted(nodes, k, node)[i] == if i < k then nodes[i] else if i == k then node else nodes[i - 1]
  {}

  lemma WithoutAscending(nodes: seq<Node>, k: nat)
    requires Ascending(nodes) && k < |nodes|
    ensures Ascending(Without(nodes, k))
  {
    var r := Without(nodes, k);
    assert forall i :: 0 <= i < |r| ==> r[i] == if i < k then nodes[i] else nodes[i + 1];
  }

  /** Removing a node deletes its id from the map and nothing else. */
  lemma RemoveLookup(nodes: seq<Node>, k: nat, id: nat)
    requires Ascending(nodes) && k < |nodes|
    ensures Lookup(Without(nodes, k), id) == if id == nodes[k].id then null else Lookup(nodes, id)
  {
    if id == nodes[k].id {
      WithoutAscending(nodes, k);
      GapLookup(Without(nodes, k), k, id);
    } else {
      var a, b := nodes[..k], nodes[k + 1..];
      assert nodes == a + [nodes[k]] + b;
      LookupConcat(a, b, id);
      LookupConcat(a + [nodes[k]], b, id);
      LookupConcat(a, [nodes[k]], id);
    }
  }

  /** Linking `node` in at place `k` of a chain, described by the links alone. */
  lemma InsertChain(head: Node, nodes: seq<Node>, k: nat, node: Node)
    requires k <= |nodes| && Ascending(nodes) && node !in nodes
    requires head == if k == 0 then node else nodes[0]
    requires node.next == if k < |nodes| then nodes[k] else null
    requires k > 0 ==> nodes[k - 1].next == node
    requires forall i {:trigger nodes[i].next} :: 0 <= i < |nodes| && i != k - 1 ==>
               nodes[i].next == if i + 1 < |nodes| then nodes[i + 1] else null
    ensures Chain(head, Inserted(nodes, k, node))
  {
    var r := Inserted(nodes, k, node);
    forall i | 0 <= i < |r|
      ensures r[i].next == if i + 1 < |r| then r[i + 1] else null
    {
      if i < k {
        assert r[i] == nodes[i];
      } else if i > k {
        assert r[i] == nodes[i - 1];
      }
    }
  }

  lemma WithoutChain(head: Node?, nodes: seq<Node>, k: nat)
    requires k < |nodes|
    requires head == if k == 0 then nodes[0].next else nodes[0]
    requires k > 0 ==> nodes[k - 1].next == nodes[k].next
    requires forall i {:trigger nodes[i].next} :: 0 <= i < |nodes| && i != k - 1 ==>
               nodes[i].next == if i + 1 < |nodes| then nodes[i + 1] else null
    ensures Chain(head, Without(nodes, k))
  {
    var r := Without(nodes, k);
    forall i | 0 <= i < |r|
      ensures r[i].next == if i + 1 < |r| then r[i + 1] else null
    {
      if i < k {
        assert r[i] == nodes[i];
      } else {
        assert r[i] == nodes[i + 1];
      }
    }
  }

  /** `lwm2m_list_add`.  The node joins in front of the first larger id.  On an
      empty list the code hands the node back without clearing its link. */
  method Add(head: Node?, node: Node, ghost nodes: seq<Node>) returns (r: Node, ghost k: nat)
    requires Chain(head, nodes) && Ascending(nodes)
    requires node.id < ID_COUNT && Lookup(nodes, node.id) == null
    requires head == null ==> node.next == null
    modifies node`next, nodes`next
    ensures k <= |nodes| && Ascending(Inserted(nodes, k, node)) && Chain(r, Inserted(nodes, k, node))
    ensures forall id :: Lookup(Inserted(nodes, k, node), id) == if id == node.id then node else Lookup(nodes, id)
  {
    hide Lookup, Inserted;
    k := 0;
    forall j: nat, id | j <= |nodes|
      ensures Lookup(Inserted(nodes, j, node), id) == if id == node.id then node else Lookup(nodes, id)
    {
      InsertLookup(nodes, j, node, id);
    }
    if head == null {
      InsertAscending(nodes, 0, node);
      InsertChain(node, nodes, 0, node);
      return node, 0;
    }
    if head.id > node.id {
      InsertAscending(nodes, 0, node);
      node.next := head;
      InsertChain(node, nodes, 0, node);
      return node, 0;
    }
    assert nodes[0].id != node.id;
    var target := head;
    while target.next != null && target.next.id < node.id
      invariant k < |nodes| && target == nodes[k] && target.id < node.id
      decreases |nodes| - k
    {
      target := target.next;
      k := k + 1;
    }
    assert k + 1 < |nodes| ==> nodes[k + 1].id != node.id;
    InsertAscending(nodes, k + 1, node);
    node.next := target.next;
    target.next := node;
    k := k + 1;
    InsertChain(head, nodes, k, node);
    return head, k;
  }

  /** `lwm2m_list_find` walks only as far as the ids are smaller. */
  method Find(head: Node?, id: nat, ghost nodes: seq<Node>) returns (r: Node?)
    requires Chain(head, nodes) && Ascending(nodes)
    ensures r == Lookup(nodes, id)
  {
    var node := head;
    ghost var k := 0;
    while node != null && node.id < id
      invariant k <= |nodes| && node == if k < |nodes| then nodes[k] else null
      invariant k > 0 ==> nodes[k - 1].id < id
      decreases |nodes| - k
    {
      node := node.next;
      k := k + 1;
    }
    if node != null && node.id == id {
      LookupAt(nodes, k);
      return node;
    }
    GapLookup(nodes, k, id);
    return null;
  }

  /** `lwm2m_list_remove`.  The removed node keeps its link; the others keep their
      order.  `k` is the place of the removed node. */
  method Remove(head: Node?, id: nat, ghost nodes: seq<Node>)
    returns (r: Node?, removed: Node?, ghost k: nat)
    requires Chain(head, nodes) && Ascending(nodes)
    modifies nodes`next
    ensures removed == Lookup(nodes, id)
    ensures removed == null ==> Chain(r, nodes)
    ensures removed != null ==>
              k < |nodes| && nodes[k] == removed && Ascending(Without(nodes, k)) && Chain(r, Without(nodes, k))
    ensures removed != null ==>
              forall x :: Lookup(Without(nodes, k), x) == if x == id then null else Lookup(nodes, x)
  {
    hide Lookup, Without;
    k := 0;
    forall j: nat, x | j < |nodes|
      ensures Lookup(Without(nodes, j), x) == if x == nodes[j].id then null else Lookup(nodes, x)
    {
      RemoveLookup(nodes, j, x);
    }
    if head == null { return null, null, 0; }
    if head.id == id {
      LookupAt(nodes, 0);
      WithoutAscending(nodes, 0);
      WithoutChain(head.next, nodes, 0);
      return head.next, head, 0;
    }
    var target := head;
    if head.id > id { GapLookup(nodes, 0, id); }
    while target.next != null && target.next.id < id
      invariant k < |nodes| && target == nodes[k]
      invariant head.id < id ==> target.id < id
      decreases |nodes| - k
    {
      target := target.next;
      k := k + 1;
    }
    if target.next != null && target.next.id == id {
      removed := target.next;
      k := k + 1;
      LookupAt(nodes, k);
      WithoutAscending(nodes, k);
      target.next := target.next.next;
      WithoutChain(head, nodes, k);
      return head, removed, k;
    }
    if head.id < id { GapLookup(nodes, k + 1, id); }
    return head, null, 0;
  }

  /** On an ascending list the first gap is where the ids leave their position. */
  lemma {:induction false} AscendingBound(nodes: seq<Node>, i: nat)
    requires Ascending(nodes) && i < |nodes|
    ensures i <= nodes[i].id
  {
    if i > 0 { AscendingBound(nodes, i - 1); }
  }

  /** A full list holds every id at its own position. */
  lemma {:induction false} FullList(nodes: seq<Node>, i: nat)
    requires Ascending(nodes) && |nodes| == ID_COUNT && i < ID_COUNT
    ensures nodes[i].id == i
    decreases ID_COUNT - i
  {
    AscendingBound(nodes, i);
    if i + 1 < ID_COUNT { FullList(nodes, i + 1); }
  }

  lemma {:induction false} AscendingGap(nodes: seq<Node>, k: nat, i: nat)
    requires Ascending(nodes) && k <= i < |nodes| && nodes[k].id > k
    ensures nodes[i].id > i
  {
    if i > k { AscendingGap(nodes, k, i - 1); }
  }

  /** A list shorter than the id space has a gap at the end of its dense prefix. */
  lemma DensePrefix(nodes: seq<Node>, k: nat)
    requires Ascending(nodes) && k <= |nodes| && k < ID_COUNT
    requires forall i :: 0 <= i < k ==> nodes[i].id == i
    requires k < |nodes| ==> nodes[k].id != k
    ensures |nodes| < ID_COUNT && Lookup(nodes, k) == null
    ensures forall x :: 0 <= x < k ==> Lookup(nodes, x) != null
  {
    if k < |nodes| {
      AscendingBound(nodes, k);
      AscendingGap(nodes, k, |nodes| - 1);
    }
    GapLookup(nodes, k, k);
    forall x | 0 <= x < k
      ensures Lookup(nodes, x) != null
    {
      LookupAt(nodes, x);
    }
  }

  /** `lwm2m_list_newId` returns the least unused id; only when all 65536 ids
      are taken does the 16-bit counter wrap to an id that is in use. */
  method NewId(head: Node?, ghost nodes: seq<Node>) returns (id: nat)
    requires Chain(head, nodes) && Ascending(nodes)
    ensures id < ID_COUNT
    ensures forall x :: 0 <= x < id ==> Lookup(nodes, x) != null
    ensures Lookup(nodes, id) == null <==> |nodes| < ID_COUNT
  {
    id := 0;
    var target := head;
    ghost var k := 0;
    while target != null && id == target.id
      invariant k <= |nodes| && target == if k < |nodes| then nodes[k] else null
      invariant forall i :: 0 <= i < k ==> nodes[i].id == i
      invariant k <= ID_COUNT && id == if k < ID_COUNT then k else 0
      decreases |nodes| - k
    {
      id := (target.id + 1) % ID_COUNT;
      target := target.next;
      k := k + 1;
    }
    if k == ID_COUNT {
      LookupAt(nodes, 0);
    } else {
      DensePrefix(nodes, k);
    }
  }
}
