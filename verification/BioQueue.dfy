/**
 The doubly linked queue between the producers and the background writer (bio.c). New
 operations are linked in at the head, the worker takes them from the tail.
 */
module BioQueue {
  import opened Rows
  import opened WriteBehind
  import StorageEngine

  /** From this persist_level on nothing is queued. */
  const VOLATILE: nat := 3

  class Node {
    const op: Op
    var next: Node?
    var prev: Node?

    constructor (op: Op)
      ensures this.op == op && next == null && prev == null
    {
      this.op, next, prev := op, null, null;
    }
  }

  /** The nodes hold these operations. */
  predicate Carry(nodes: seq<Node>, ops: seq<Op>) {
    |nodes| == |ops| && forall i :: 0 <= i < |nodes| ==> nodes[i].op == ops[i]
  }

  /** One round of bio_worker: the query of operation n after those from operation m on. */
  method Query(disk: seq<Row>, ghost queued: seq<Op>, ghost m: nat, ghost n: nat, rows: seq<Row>, op: Op, pick: nat)
    returns (rows': seq<Row>)
    requires m <= n < |queued| && queued[n] == op && Outcome(disk, queued[m..n], rows)
    ensures Outcome(disk, queued[m..n + 1], rows')
  {
    rows' := StorageEngine.RunQuery(rows, op, pick);
    OutcomeExtends(disk, queued[m..n], rows, op, rows');
    assert queued[m..n] + [op] == queued[m..n + 1];
  }

  /** The links of the nodes, oldest first: next leads to the older node, prev to the newer one. */
  ghost predicate Linked(nodes: seq<Node>)
    reads nodes
  {
    && (forall i, j :: 0 <= i < j < |nodes| ==> nodes[i] != nodes[j])
    && (forall i :: 0 < i < |nodes| ==> nodes[i].next == nodes[i - 1])
    && (forall i :: 0 <= i < |nodes| - 1 ==> nodes[i].prev == nodes[i + 1])
    && (nodes != [] ==> nodes[0].next == null && nodes[|nodes| - 1].prev == null)
  }

  class Queue {
    var next: Node?
    var tail: Node?
    var size: int
    /** The linked nodes, oldest first. */
    ghost var nodes: seq<Node>
    ghost var owned: set<Node>
    /** Every operation queued so far, and how many of them the worker has taken. */
    ghost var queued: seq<Op>
    ghost var taken: nat

    ghost predicate Shape()
      reads this`next, this`tail, this`size, this`nodes, this`owned, nodes
    {
      && (forall i :: 0 <= i < |nodes| ==> nodes[i] in owned)
      && Linked(nodes) && size == |nodes|
      && tail == (if nodes == [] then null else nodes[0])
      && next == (if nodes == [] then null else nodes[|nodes| - 1])
    }

    /** The linked nodes hold the queued operations from the first not yet taken, in order. */
    ghost predicate Valid()
      reads this, nodes
    {
      Shape() && taken <= |queued| && Carry(nodes, queued[taken..])
    }

    constructor ()
      ensures Valid() && queued == [] && taken == 0 && owned == {}
    {
      next, tail, size, nodes, owned, queued, taken := null, null, 0, [], {}, [], 0;
    }

    /** The critical section of bio_queue_add. */
    method LinkHead(q: Node)
      requires Shape() && q !in owned && q.next == null && q.prev == null
      modifies this`next, this`tail, this`size, this`nodes, this`owned, owned, q
      ensures Shape() && nodes == old(nodes) + [q] && owned == old(owned) + {q}
    {
      size := size + 1;
      if next != null {
        q.next := next;
        next.prev := q;
        next := q;
      } else {
        next, tail := q, q;
      }
      nodes, owned := nodes + [q], owned + {q};
    }

    /** bio_queue_add. */
    method Add(op: Op, persistLevel: nat)
      requires Valid()
      modifies this`next, this`tail, this`size, this`nodes, this`owned, this`queued, owned
      ensures Valid()
      ensures persistLevel <= 2 ==> queued == old(queued) + [op]
      ensures persistLevel >= 3 ==> queued == old(queued)
      ensures fresh(owned - old(owned))
    {
      if persistLevel >= VOLATILE {
        return;
      }
      var q := new Node(op);
      LinkHead(q);
      queued := queued + [op];
      assert queued[taken..] == old(queued)[taken..] + [op];
    }

    /** The critical section of bio_queue_pop for a queue that is not empty. */
    method UnlinkTail()
      requires Shape() && nodes != []
      modifies this`next, this`tail, this`size, this`nodes, owned
      ensures Shape() && nodes == old(nodes)[1..]
      ensures old(nodes)[0].next == null && old(nodes)[0].prev == null
    {
      var q := tail;
      assert |nodes| > 1 ==> q.prev == nodes[1];
      tail := q.prev;
      if q.prev != null {
        q.prev.next := null;
      } else {
        next := null;
      }
      q.next, q.prev := null, null;
      size := size - 1;
      nodes := nodes[1..];
    }

    /** bio_queue_pop: the oldest operation not yet taken, or null when all have been. */
    method Pop() returns (q: Node?)
      requires Valid()
      modifies this`next, this`tail, this`size, this`nodes, this`taken, owned
      ensures Valid()
      ensures q == null <==> old(taken) == |queued|
      ensures q == null ==> taken == old(taken)
      ensures q != null ==> q.op == queued[old(taken)] && taken == old(taken) + 1
    {
      q := tail;
      if q != null {
        UnlinkTail();
        taken := taken + 1;
        assert queued[taken..] == queued[old(taken)..][1..];
      }
    }

    /** One round of bio_worker; m is the number of operations taken before its first round. */
    method TakeOne(disk: seq<Row>, ghost m: nat, rows: seq<Row>, pick: nat) returns (rows': seq<Row>, more: bool)
      requires Valid() && m <= taken && Outcome(disk, queued[m..taken], rows)
      modifies this`next, this`tail, this`size, this`nodes, this`taken, owned
      ensures Valid() && m <= taken && Outcome(disk, queued[m..taken], rows')
      ensures if more then taken == old(taken) + 1 else taken == old(taken) == |queued|
    {
      var q := Pop();
      rows', more := rows, q != null;
      if more {
        rows' := Query(disk, queued, m, taken - 1, rows, q.op, pick);
      }
    }

    /** bio_worker: take and apply until the queue is empty; picks resolve LIMIT 1. */
    method Work(disk: seq<Row>, picks: nat -> nat) returns (rows: seq<Row>)
      requires Valid()
      modifies this`next, this`tail, this`size, this`nodes, this`taken, owned
      ensures Valid() && taken == |queued|
      ensures Outcome(disk, queued[old(taken)..], rows)
    {
      rows := disk;
      var more := true;
      while more
        invariant Valid() && old(taken) <= taken <= |queued|
        invariant Outcome(disk, queued[old(taken)..taken], rows)
        invariant !more ==> taken == |queued|
        decreases |queued| - taken, more
      {
        rows, more := TakeOne(disk, old(taken), rows, picks(|rows|));
      }
      assert queued[old(taken)..taken] == queued[old(taken)..];
    }

    /** bio_sync leaves its loop when this is zero: then every queued operation has been taken. */
    method Size() returns (n: int)
      requires Valid()
      ensures n == |queued| - taken
    {
      n := size;
    }
  }
}
