/** Walking and draining a skiplist, and the hashmaps and sets built on it. */
module Containers {
  import opened Options
  import opened Rings
  import opened Skiplists

  // ----- facts about one node of the lowest level

  lemma RankOfNode(ring: Ring, at: nat)
    requires Sorted(ring) && 1 <= at < |ring|
    ensures Rank(ring, ring[at].hash) == at - 1 && Skip(ring, ring[at]) == Without(ring, at)
  {
    BeforeIsRank(ring, at - 1, ring[at].hash);
  }

  /** A key that is there collides with no other. */
  lemma PresentIsApart(ring: Ring, at: nat, h: string -> nat)
    requires Sorted(ring) && Keyed(ring, h) && 1 <= at < |ring|
    ensures ring[at].key.Some? && Apart(ring, ring[at].key.value, h(ring[at].key.value))
    ensures ring[at].key.value in Keys(ring)
  {
    var key := ring[at].key.value;
    forall n | n in ring && n.hash == h(key)
      ensures n.key == Some(key)
    {
      var a :| 0 <= a < |ring| && ring[a] == n;
      assert a == at;
    }
  }

  /** With nothing on the lowest level there is nothing on any. */
  lemma AllBare(rings: seq<Ring>, header: Node, level: nat, h: string -> nat)
    requires Tower(rings, header, level, h) && rings[1] == [header]
    ensures forall i :: 1 <= i < |rings| ==> rings[i] == [header]
  {
    forall i | 1 <= i < |rings|
      ensures rings[i] == [header]
    {
      assert Level(rings[i], header);
      assert i == 1 || Within(rings[i], rings[1]);
      var r := rings[i];
      assert forall a :: 0 <= a < |r| ==> r[a] == header;
      var last := r[|r| - 1];
    }
  }

  /** skiplist_delete of the key of a node that is there. */
  method DeleteNode(list: Skiplist, node: Node, ghost at: nat)
    requires list.Valid() && 1 <= at < |list.rings[1]| && node == list.rings[1][at]
    modifies list`rings, list`level, list`size, list.owned`forward
    ensures list.Valid() && list.rings[1] == Without(old(list.rings)[1], at)
  {
    ghost var ring := list.rings[1];
    assert Level(ring, list.header);
    RankOfNode(ring, at);
    PresentIsApart(ring, at, list.h);
    KeysDiffer(ring, node, list.h);
    var _, x := list.Delete(node.key.value);
  }

  // ----- the iterator

  class SkiplistIterator {
    const list: Skiplist
    var prev: Node
    var current: Node?
    /** Where current stands in the lowest level. */
    ghost var at: nat

    ghost predicate Valid()
      reads this, list, list.owned
    {
      && list.Valid()
      && (current != null ==> at < |list.rings[1]| && current == list.rings[1][at])
    }

    /** skiplist_iterator_new. */
    constructor (l: Skiplist)
      requires l.Valid()
      ensures Valid() && list == l && current == prev == l.header && at == 0
    {
      list, prev, current, at := l, l.header, l.header, 0;
      new;
      assert Level(list.rings[1], list.header);
    }

    /** skiplist_iterator_next. */
    method Next() returns (node: Node?)
      requires Valid() && current != null
      modifies this
      ensures Valid() && node == current && prev == old(current)
      ensures if old(at) + 1 < |list.rings[1]| then at == old(at) + 1 && current != null else current == null
    {
      assert Level(list.rings[1], list.header) && list.Joined(1);
      DistinctNodes(list.rings[1]);
      prev := current;
      var next := current.forward[1];
      current, at := next, at + 1;
      if next == list.header {
        current := null;
      }
      node := current;
    }

    /** skiplist_iterator_delete: current goes back to the node before the deleted one. */
    method Delete()
      requires Valid() && current != null && at > 0 && prev == list.rings[1][at - 1]
      modifies this, list`rings, list`level, list`size, list.owned`forward
      ensures Valid() && current == prev == old(prev) && at == old(at) - 1
      ensures list.rings[1] == Without(old(list.rings)[1], old(at))
    {
      DeleteNode(list, current, at);
      WithoutAt(old(list.rings)[1], at);
      current, at := prev, at - 1;
    }
  }

  lemma NodesSplit(ring: Ring)
    requires |ring| > 1
    ensures Nodes(ring) == [ring[1]] + Nodes(Without(ring, 1))
  {
  }

  /** One round of the drain: the first node, if any, is returned and deleted. */
  method DrainOne(it: SkiplistIterator) returns (node: Node?)
    requires it.Valid() && it.current != null && it.at == 0
    modifies it, it.list`rings, it.list`level, it.list`size, it.list.owned`forward
    ensures it.list.Valid()
    ensures node == null ==> |it.list.rings[1]| <= 1 && it.list.rings[1] == old(it.list.rings)[1]
    ensures node != null ==>
      && it.Valid() && it.current != null && it.at == 0
      && Nodes(old(it.list.rings)[1]) == [node] + Nodes(it.list.rings[1])
  {
    node := it.Next();
    if node != null {
      NodesSplit(it.list.rings[1]);
      it.Delete();
    }
  }

  lemma Drained(list: Skiplist)
    requires list.Valid() && |list.rings[1]| <= 1
    ensures list.level == 1 && list.size == 0 && Nodes(list.rings[1]) == []
    ensures forall i :: 1 <= i < |list.rings| ==> list.rings[i] == [list.header]
  {
    assert Level(list.rings[1], list.header);
    AllBare(list.rings, list.header, list.level, list.h);
  }

  /** set_clear and rb_hashmap_remove: alternate next and delete until next finds nothing. */
  method Drain(list: Skiplist) returns (visited: seq<Node>)
    requires list.Valid()
    modifies list`rings, list`level, list`size, list.owned`forward
    ensures list.Valid() && visited == Nodes(old(list.rings)[1])
    ensures list.level == 1 && list.size == 0
    ensures forall i :: 1 <= i < |list.rings| ==> list.rings[i] == [list.header]
  {
    var it := new SkiplistIterator(list);
    visited := [];
    ghost var all := Nodes(list.rings[1]);
    while true
      invariant it.Valid() && it.list == list && it.current != null && it.at == 0
      invariant visited + Nodes(list.rings[1]) == all
      decreases |Nodes(list.rings[1])|
    {
      var node := DrainOne(it);
      if node == null {
        break;
      }
      visited := visited + [node];
    }
    Drained(list);
  }

  // ----- inserts and deletes as changes of a set of keys

  method InsertKey(list: Skiplist, key: string, node: Node, height: nat)
    requires list.Valid() && Apart(list.rings[1], key, list.h(key)) && 1 <= height <= MAX_LEVELS
    requires node !in list.owned && node.key == Some(key) && node.hash == list.h(key)
    modifies list`rings, list`owned, list`level, list`size, list.owned`forward, node`forward
    ensures list.Valid() && Keys(list.rings[1]) == Keys(old(list.rings)[1]) + {key}
    ensures list.size == old(list.size) + if key in Keys(old(list.rings)[1]) then 0 else 1
    ensures node in list.rings[1] <==> key !in Keys(old(list.rings)[1])
    ensures list.owned <= old(list.owned) + {node}
  {
    ghost var ring := list.rings[1];
    assert Level(ring, list.header) && list.Joined(1);
    IntoKeys(ring, node);
    IntoMember(ring, node, node);
    list.Insert(key, node, height);
  }

  method DeleteKey(list: Skiplist, key: string) returns (ok: bool)
    requires list.Valid() && Apart(list.rings[1], key, list.h(key))
    modifies list`rings, list`level, list`size, list.owned`forward
    ensures list.Valid() && ok == (key in Keys(old(list.rings)[1]))
    ensures Keys(list.rings[1]) == Keys(old(list.rings)[1]) - {key}
    ensures list.size == old(list.size) - if ok then 1 else 0
    ensures forall n :: n in list.rings[1] <==> n in old(list.rings)[1] && n.key != Some(key)
  {
    ghost var ring := list.rings[1];
    assert Level(ring, list.header);
    ghost var x;
    ok, x := list.Delete(key);
    if ok {
      DeletedKey(ring, x, key, list.h);
    }
  }

  lemma DeletedKey(ring: Ring, x: Node, key: string, h: string -> nat)
    requires Sorted(ring) && Keyed(ring, h) && ring[0].key == None && x in ring && x.key == Some(key)
    ensures Keys(Skip(ring, x)) == Keys(ring) - {key} && |Skip(ring, x)| == |ring| - 1
    ensures forall n :: n in Skip(ring, x) <==> n in ring && n.key != Some(key)
  {
    var a :| 0 <= a < |ring| && ring[a] == x;
    assert x.hash < SENTINEL;
    SkipKeys(ring, x, h);
    FoundAfter(ring, x);
    KeysDiffer(ring, x, h);
    forall n: Node
      ensures n in Skip(ring, x) <==> n in ring && n.key != Some(key)
    {
      SkipMember(ring, x, n);
    }
  }

  // ----- hashmap.c

  class Hashmap {
    const list: Skiplist
    var num: int

    ghost predicate Valid()
      reads this, list, list.owned
    {
      list.Valid()
    }

    /** The keys with a node. */
    ghost function Fields(): set<string>
      reads this, list, list.owned
      requires Valid()
    {
      Keys(list.rings[1])
    }

    /** The counter is the number of nodes. */
    ghost predicate Counted()
      reads this, list, list.owned
      requires Valid()
    {
      num == list.size
    }

    /** hashmap_init. */
    constructor (h: string -> nat)
      ensures Valid() && list.h == h && Fields() == {} && Counted() && fresh(list) && fresh(list.owned)
    {
      list := new Skiplist(h);
      num := 0;
      new;
      assert Level(list.rings[1], list.header);
      NoKeys(list.rings[1], h);
    }

    /** hashmap_add counts even a key that was there, whose new node is not linked. */
    method Add(key: string, n: Node, height: nat)
      requires Valid() && Apart(list.rings[1], key, list.h(key)) && 1 <= height <= MAX_LEVELS
      requires n !in list.owned && n.key == Some(key) && n.hash == list.h(key)
      modifies this, list`rings, list`owned, list`level, list`size, list.owned`forward, n`forward
      ensures Valid() && Fields() == old(Fields()) + {key} && num == old(num) + 1
      ensures n in list.rings[1] <==> key !in old(Fields())
      ensures old(Counted()) ==> (Counted() <==> key !in old(Fields()))
    {
      InsertKey(list, key, n, height);
      num := num + 1;
    }

    /** hashmap_find. */
    method Find(key: string) returns (r: Node?)
      requires Valid() && Apart(list.rings[1], key, list.h(key))
      ensures if key in Fields() then r in list.rings[1] && r.key == Some(key) else r == null
    {
      r := list.Search(key);
    }

    /** hashmap_remove. */
    method Remove(key: string) returns (r: Node?)
      requires Valid() && Apart(list.rings[1], key, list.h(key))
      modifies this, list`rings, list`level, list`size, list.owned`forward
      ensures Valid() && Fields() == old(Fields()) - {key}
      ensures if key in old(Fields()) then r in old(list.rings)[1] && r.key == Some(key) else r == null
      ensures old(Counted()) ==> Counted()
    {
      r := list.Search(key);
      var ok := DeleteKey(list, key);
      if ok {
        num := num - 1;
      }
    }
  }

  // ----- set.c

  class KeySet {
    const list: Skiplist
    var num: int

    ghost predicate Valid()
      reads this, list, list.owned
    {
      list.Valid()
    }

    ghost function Members(): set<string>
      reads this, list, list.owned
      requires Valid()
    {
      Keys(list.rings[1])
    }

    ghost predicate Counted()
      reads this, list, list.owned
      requires Valid()
    {
      num == list.size
    }

    /** set_init. */
    constructor (h: string -> nat)
      ensures Valid() && list.h == h && Members() == {} && Counted() && fresh(list) && fresh(list.owned)
    {
      list := new Skiplist(h);
      num := 0;
      new;
      assert Level(list.rings[1], list.header);
      NoKeys(list.rings[1], h);
    }

    /** set_contains. */
    method Contains(key: string) returns (r: bool)
      requires Valid() && Apart(list.rings[1], key, list.h(key))
      ensures r == (key in Members())
    {
      var node := list.Search(key);
      r := node != null;
    }

    /** set_add looks before it inserts, so its counter stays right. */
    method Add(key: string, k: Node, height: nat) returns (ok: bool)
      requires Valid() && Apart(list.rings[1], key, list.h(key)) && 1 <= height <= MAX_LEVELS
      requires k !in list.owned && k.key == Some(key) && k.hash == list.h(key)
      modifies this, list`rings, list`owned, list`level, list`size, list.owned`forward, k`forward
      ensures Valid() && ok == (key !in old(Members())) && Members() == old(Members()) + {key}
      ensures old(Counted()) ==> Counted()
    {
      var there := Contains(key);
      ok := !there;
      if ok {
        InsertKey(list, key, k, height);
        num := num + 1;
      }
    }

    /** set_remove. */
    method Remove(key: string) returns (r: Node?)
      requires Valid() && Apart(list.rings[1], key, list.h(key))
      modifies this, list`rings, list`level, list`size, list.owned`forward
      ensures Valid() && Members() == old(Members()) - {key}
      ensures if key in old(Members()) then r in old(list.rings)[1] && r.key == Some(key) else r == null
      ensures old(Counted()) ==> Counted()
    {
      r := list.Search(key);
      var ok := DeleteKey(list, key);
      if ok {
        num := num - 1;
      } else {
        r := null;
      }
    }

    /** set_clear does not touch the counter: it stays right exactly for a set that was empty. */
    method Clear()
      requires Valid()
      modifies this, list`rings, list`level, list`size, list.owned`forward
      ensures Valid() && Members() == {} && num == old(num)
      ensures old(Counted()) ==> (Counted() <==> old(Members()) == {})
    {
      ghost var ring := list.rings[1];
      assert Level(ring, list.header);
      NoKeys(ring, list.h);
      var _ := Drain(list);
      assert Keys([list.header]) == {};
    }
  }

  lemma NoKeys(ring: Ring, h: string -> nat)
    requires ring != [] && Keyed(ring, h) && ring[0].key == None
    ensures Keys(ring) == {} <==> |Nodes(ring)| == 0
  {
    if |ring| > 1 {
      assert ring[1].key.value in Keys(ring);
    }
  }
}
