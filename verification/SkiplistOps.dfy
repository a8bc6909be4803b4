/** The operations of skiplist.c on linked nodes, proved against the rings. */
module Skiplists {
  import opened Options
  import opened Rings

  // ----- one level

  /** A step of a walk: at the header, or at a node before the hash. */
  predicate Stands(ring: Ring, k: nat, node: Node, hash: nat) {
    k < |ring| && ring[k] == node && (k > 0 ==> node.hash < hash)
  }

  /** The walk along one level, to the last node before a hash. */
  method Walk(ghost ring: Ring, i: nat, start: Node, ghost at: nat, hash: nat) returns (node: Node, ghost k: nat)
    requires Sorted(ring) && Follows(ring, i) && hash < SENTINEL && Stands(ring, at, start, hash)
    ensures node == ring[Rank(ring, hash)] && k == Rank(ring, hash) && Stands(ring, k, node, hash)
  {
    node, k := start, at;
    while node.forward[i].hash < hash
      invariant Stands(ring, k, node, hash)
      decreases |ring| - k
    {
      node, k := node.forward[i], k + 1;
    }
    BeforeIsRank(ring, k, hash);
  }

  /** The walk of skiplist_delete, which passes nodes of an equal hash but stops at the key itself. */
  method WalkToKey(ghost ring: Ring, i: nat, start: Node, ghost at: nat, hash: nat, key: string)
    returns (node: Node, ghost k: nat)
    requires Sorted(ring) && Follows(ring, i) && Stands(ring, at, start, hash) && Apart(ring, key, hash)
    ensures node == ring[Rank(ring, hash)] && k == Rank(ring, hash) && Stands(ring, k, node, hash)
  {
    node, k := start, at;
    while node.forward[i].hash <= hash
      invariant Stands(ring, k, node, hash)
      decreases |ring| - k
    {
      if node.forward[i].hash == hash && node.forward[i].key == Some(key) {
        break;
      }
      node, k := node.forward[i], k + 1;
    }
    BeforeIsRank(ring, k, hash);
  }

  /** Two pointer assignments put a node into a ring. */
  method SpliceIn(ghost ring: Ring, i: nat, prev: Node, node: Node)
    requires Sorted(ring) && Follows(ring, i) && prev == ring[Rank(ring, node.hash)]
    requires node !in ring && i < |node.forward|
    modifies prev`forward, node`forward
    ensures Follows(Into(ring, node), i)
    ensures i < old(|prev.forward|) && prev.forward == old(prev.forward)[i := node]
    ensures node.forward == old(node.forward)[i := After(ring, Rank(ring, node.hash))]
  {
    DistinctNodes(ring);
    PutAt(ring, Rank(ring, node.hash), node);
    node.forward := node.forward[i := prev.forward[i]];
    prev.forward := prev.forward[i := node];
  }

  /** One pointer assignment takes the node after position k out of a ring. */
  method SpliceOut(ghost ring: Ring, i: nat, prev: Node, ghost k: nat)
    requires Sorted(ring) && Follows(ring, i) && k + 1 < |ring| && prev == ring[k]
    modifies prev`forward
    ensures Follows(Without(ring, k + 1), i)
    ensures i < old(|prev.forward|) && prev.forward == old(prev.forward)[i := After(ring, k + 1)]
  {
    DistinctNodes(ring);
    WithoutAt(ring, k + 1);
    var x := prev.forward[i];
    prev.forward := prev.forward[i := x.forward[i]];
  }

  /** The walk goes on from the same node one level below. */
  lemma GoDown(upper: Ring, lower: Ring, at: nat, node: Node, hash: nat) returns (k: nat)
    requires Within(upper, lower) && Sorted(upper) && Sorted(lower) && upper[0] == lower[0]
    requires Stands(upper, at, node, hash)
    ensures Stands(lower, k, node, hash)
  {
    assert node in lower;
    k :| 0 <= k < |lower| && lower[k] == node;
  }

  // ----- the update array

  /** The last node of a level before a hash. */
  predicate Fits(ring: Ring, prev: Node, hash: nat) {
    Sorted(ring) && prev == ring[Rank(ring, hash)]
  }

  ghost predicate Located(rings: seq<Ring>, update: seq<Node>, i: nat, hash: nat) {
    && |update| == |rings|
    && forall j {:trigger Fits(rings[j], update[j], hash)} :: i <= j < |rings| ==> Fits(rings[j], update[j], hash)
  }

  lemma LocatedOne(rings: seq<Ring>, update: seq<Node>, i: nat, hash: nat, node: Node)
    requires i < |rings| && Located(rings, update, i + 1, hash) && Fits(rings[i], node, hash)
    ensures Located(rings, update[i := node], i, hash)
  {
    var u := update[i := node];
    forall j | i <= j < |rings|
      ensures Fits(rings[j], u[j], hash)
    {
      assert j > i ==> Fits(rings[j], update[j], hash);
    }
  }

  lemma HeaderIsLast(rings: seq<Ring>, header: Node, level: nat, hash: nat)
    requires Levels(rings, header) && EmptyAbove(rings, header, level)
    ensures Located(rings, seq(|rings|, _ => header), level + 1, hash)
  {
    var u := seq(|rings|, _ => header);
    forall j | level + 1 <= j < |rings|
      ensures Fits(rings[j], u[j], hash)
    {
      assert Level(rings[j], header) && Bare(rings[j], header);
    }
  }

  ghost predicate Own(ring: Ring, owned: set<Node>) {
    forall a :: 0 <= a < |ring| ==> ring[a] in owned
  }

  class Skiplist {
    const h: string -> nat
    var header: Node
    var level: nat
    var size: int
    /** The nodes of each level in order, the header first. */
    ghost var rings: seq<Ring>
    ghost var owned: set<Node>

    ghost predicate Joined(i: nat)
      requires i < |rings|
      reads this`rings, this`owned, owned
    {
      Own(rings[i], owned) && Follows(rings[i], i)
    }

    /** The pointers follow the rings. */
    ghost predicate Linked()
      reads this`rings, this`owned, owned
    {
      forall i {:trigger Joined(i)} :: 0 <= i < |rings| ==> Joined(i)
    }

    /** The levels and counters, without the pointers. */
    ghost predicate Built(rings: seq<Ring>, level: nat, size: int)
      reads this`header
    {
      Tower(rings, header, level, h) && (level > 1 ==> |rings[level]| > 1) && size == |rings[1]| - 1
    }

    ghost predicate Valid()
      reads this, owned
    {
      Built(rings, level, size) && Linked() && header in owned
    }

    /** raw_skiplist_init. */
    constructor (h: string -> nat)
      ensures Valid() && this.h == h && rings[1] == [header] && fresh(owned)
    {
      var node := new Node(None, SENTINEL);
      node.forward := seq(MAX_LEVELS + 1, _ => node);
      this.h, header, level, size := h, node, 1, 0;
      rings, owned := seq(MAX_LEVELS + 1, _ => [node]), {node};
    }

    /** The descent through the levels, as skiplist_search does it. */
    method Descend(hash: nat) returns (node: Node)
      requires Valid() && hash < SENTINEL
      ensures Joined(1) && Fits(rings[1], node, hash)
    {
      var i := level;
      ghost var k: nat := 0;
      node := header;
      assert Level(rings[i], header) && Level(rings[1], header) && Joined(1);
      while i > 1
        invariant 1 <= i <= level && Stands(rings[i], k, node, hash)
      {
        assert Level(rings[i], header) && Level(rings[i - 1], header) && Joined(i);
        node, k := Walk(rings[i], i, node, k, hash);
        assert Within(rings[i], rings[i - 1]);
        k := GoDown(rings[i], rings[i - 1], k, node, hash);
        i := i - 1;
      }
      node, k := Walk(rings[1], 1, node, k, hash);
    }

    /** skiplist_search. */
    method Search(key: string) returns (r: Node?)
      requires Valid() && Apart(rings[1], key, h(key))
      ensures if key in Keys(rings[1]) then r in rings[1] && r.key == Some(key) else r == null
    {
      var node := Descend(h(key));
      assert Level(rings[1], header);
      KeyIsAfter(rings[1], key, h);
      var next := node.forward[1];
      r := if next.hash == h(key) then next else null;
    }

    /** The first loop of skiplist_insert; update starts at the header on the levels above. */
    method LocateHash(hash: nat) returns (update: seq<Node>)
      requires Valid() && hash < SENTINEL
      ensures Located(rings, update, 1, hash)
    {
      var i, node := level, header;
      ghost var k: nat := 0;
      update := StartAtHeader(hash);
      assert Level(rings[i], header);
      while i >= 1
        invariant 0 <= i <= level && Located(rings, update, i + 1, hash)
        invariant i >= 1 ==> Stands(rings[i], k, node, hash)
        decreases i
      {
        assert Level(rings[i], header) && Joined(i);
        node, k := Walk(rings[i], i, node, k, hash);
        LocatedOne(rings, update, i, hash, node);
        update := update[i := node];
        if i > 1 {
          assert Level(rings[i - 1], header) && Within(rings[i], rings[i - 1]);
          k := GoDown(rings[i], rings[i - 1], k, node, hash);
        }
        i := i - 1;
      }
    }

    method StartAtHeader(hash: nat) returns (update: seq<Node>)
      requires Valid() && hash < SENTINEL
      ensures Located(rings, update, level + 1, hash)
    {
      HeaderIsLast(rings, header, level, hash);
      var head := header;
      update := seq(MAX_LEVELS + 1, _ => head);
      assert update == seq(|rings|, _ => head);
    }

    /** The first loop of skiplist_delete. */
    method LocateKey(hash: nat, key: string) returns (update: seq<Node>)
      requires Valid() && Apart(rings[1], key, hash)
      ensures Located(rings, update, 1, hash)
    {
      var i, node := level, header;
      ghost var k: nat := 0;
      update := StartAtHeader(hash);
      assert Level(rings[i], header);
      while i >= 1
        invariant 0 <= i <= level && Located(rings, update, i + 1, hash)
        invariant i >= 1 ==> Stands(rings[i], k, node, hash)
        decreases i
      {
        assert Level(rings[i], header) && Joined(i);
        assert i == 1 || Within(rings[i], rings[1]);
        node, k := WalkToKey(rings[i], i, node, k, hash, key);
        LocatedOne(rings, update, i, hash, node);
        update := update[i := node];
        if i > 1 {
          assert Level(rings[i - 1], header) && Within(rings[i], rings[i - 1]);
          k := GoDown(rings[i], rings[i - 1], k, node, hash);
        }
        i := i - 1;
      }
    }

    // ----- skiplist_insert

    /** One round of the linking loop. */
    method LinkLevel(i: nat, prev: Node, node: Node)
      requires Linked() && 1 <= i < |rings| && Fits(rings[i], prev, node.hash) && prev in owned
      requires node in owned && node !in rings[i] && i < |node.forward|
      modifies this`rings, prev`forward, node`forward
      ensures Linked() && rings == old(rings)[i := Into(old(rings)[i], node)]
      ensures |node.forward| == old(|node.forward|)
    {
      ghost var r := Into(rings[i], node);
      assert Joined(i);
      PutAt(rings[i], Rank(rings[i], node.hash), node);
      SpliceIn(rings[i], i, prev, node);
      assert Own(r, owned);
      rings := rings[i := r];
      assert Joined(i);
      forall j | 0 <= j < |rings| && j != i
        ensures Joined(j)
      {
        assert old(Joined(j));
        assert Follows(rings[j], j);
      }
    }

    /** The linking loop. */
    method LinkAll(update: seq<Node>, node: Node, height: nat, ghost was: seq<Ring>)
      requires was == rings && Linked() && 1 <= height < |was| && Located(was, update, 1, node.hash)
      requires forall i :: 1 <= i < |was| ==> node !in was[i] && update[i] in owned
      requires node in owned && |node.forward| == height + 1
      modifies this`rings, owned`forward
      ensures Linked() && rings == Spliced(was, node, height)
    {
      for i := 1 to height + 1
        invariant Linked() && rings == Spliced(was, node, i - 1) && |node.forward| == height + 1
      {
        assert Fits(was[i], update[i], node.hash);
        LinkLevel(i, update[i], node);
      }
    }

    /** The node's own forward array, before it is linked. */
    method Prepare(node: Node, height: nat)
      requires Linked() && node !in owned
      modifies this`owned, node`forward
      ensures Linked() && owned == old(owned) + {node} && |node.forward| == height + 1
    {
      node.forward := seq(height + 1, _ => node);
      owned := owned + {node};
      forall j | 0 <= j < |rings|
        ensures Joined(j)
      {
        assert old(Joined(j));
      }
    }

    /** What is linked is owned. */
    lemma NotLinked(update: seq<Node>, node: Node, hash: nat)
      requires Linked() && node !in owned && Located(rings, update, 1, hash)
      ensures forall i :: 1 <= i < |rings| ==> node !in rings[i] && update[i] in owned
    {
      forall i | 1 <= i < |rings|
        ensures node !in rings[i] && update[i] in owned
      {
        assert Joined(i) && Fits(rings[i], update[i], hash);
      }
    }

    /** The second half of skiplist_insert, for a key that is not there. */
    method InsertNew(update: seq<Node>, node: Node, height: nat)
      requires Linked() && node !in owned && header in owned && 1 <= height < |rings|
      requires Located(rings, update, 1, node.hash)
      requires Built(Spliced(rings, node, height), if height > level then height else level, size + 1)
      modifies this`rings, this`owned, this`level, this`size, owned`forward, node`forward
      ensures Valid() && rings == Spliced(old(rings), node, height) && owned == old(owned) + {node}
    {
      ghost var was := rings;
      NotLinked(update, node, node.hash);
      if height > level {
        level := height;
      }
      Prepare(node, height);
      LinkAll(update, node, height, was);
      size := size + 1;
    }

    /** The search of skiplist_insert: the places before the key on all levels, and whether it is there. */
    method Place(key: string) returns (update: seq<Node>, found: bool)
      requires Valid() && Apart(rings[1], key, h(key))
      ensures Located(rings, update, 1, h(key)) && found == (key in Keys(rings[1]))
      ensures rings[1] != [] && (!found ==> After(rings[1], Rank(rings[1], h(key))).hash != h(key))
    {
      update := LocateHash(h(key));
      assert Level(rings[1], header) && Joined(1) && Fits(rings[1], update[1], h(key));
      KeyIsAfter(rings[1], key, h);
      var carriage := update[1].forward[1];
      found := carriage.key == Some(key);
    }

    /** skiplist_insert; height is what skiplist_rand_level draws. */
    method Insert(key: string, node: Node, height: nat)
      requires Valid() && Apart(rings[1], key, h(key)) && 1 <= height <= 6
      requires node !in owned && node.key == Some(key) && node.hash == h(key)
      modifies this`rings, this`owned, this`level, this`size, owned`forward, node`forward
      ensures Valid()
      ensures key in Keys(old(rings)[1]) ==> rings == old(rings) && owned == old(owned)
      ensures key !in Keys(old(rings)[1]) ==>
        rings == Spliced(old(rings), node, height) && owned == old(owned) + {node}
    {
      var update, found := Place(key);
      if !found {
        SplicedIsTower(rings, node, height, header, level, h);
        InsertNew(update, node, height);
      }
    }

    // ----- skiplist_delete

    method UnlinkLevel(i: nat, prev: Node, ghost k: nat)
      requires Linked() && 1 <= i < |rings| && Sorted(rings[i]) && k + 1 < |rings[i]| && prev == rings[i][k]
      modifies this`rings, prev`forward
      ensures Linked() && rings == old(rings)[i := Without(old(rings)[i], k + 1)]
    {
      ghost var r := Without(rings[i], k + 1);
      assert Joined(i);
      WithoutAt(rings[i], k + 1);
      SpliceOut(rings[i], i, prev, k);
      assert Own(r, owned);
      rings := rings[i := r];
      forall j | 0 <= j < |rings|
        ensures Joined(j)
      {
        assert old(Joined(j));
      }
    }

    /** One round of the unlinking loop: stop at the first level without the node. */
    method UnlinkStep(i: nat, prev: Node, x: Node) returns (more: bool)
      requires Linked() && 1 <= i < |rings| && Fits(rings[i], prev, x.hash) && x.hash < SENTINEL
      modifies this`rings, prev`forward
      ensures Linked() && more == (x in old(rings)[i])
      ensures rings == if more then old(rings)[i := Skip(old(rings)[i], x)] else old(rings)
    {
      assert Joined(i);
      FoundAfter(rings[i], x);
      more := prev.forward[i] == x;
      if more {
        UnlinkLevel(i, prev, Rank(rings[i], x.hash));
      }
    }

    /** One level more, or all the others at once where the node no longer occurs. */
    method UnlinkRound(i: nat, prev: Node, x: Node, ghost was: seq<Ring>) returns (more: bool)
      requires 1 <= i < |was| && Nested(was) && Levels(was, header) && x.hash < SENTINEL
      requires Fits(was[i], prev, x.hash) && Linked() && rings == Cut(was, x, i - 1)
      modifies this`rings, prev`forward
      ensures Linked() && rings == Cut(was, x, if more then i else |was| - 1)
    {
      more := UnlinkStep(i, prev, x);
      if !more {
        CutStops(was, x, i - 1, header);
      }
    }

    /** The unlinking loop. */
    method UnlinkAll(update: seq<Node>, x: Node, ghost was: seq<Ring>)
      requires was == rings && Linked() && Nested(was) && Levels(was, header) && x.hash < SENTINEL
      requires Located(was, update, 1, x.hash) && forall i :: 1 <= i < |was| ==> update[i] in owned
      requires 1 <= level < |was| && Cut(was, x, level) == Cut(was, x, |was| - 1)
      modifies this`rings, owned`forward
      ensures Linked() && rings == Cut(was, x, |was| - 1)
    {
      var i, more := 1, true;
      ghost var cut: nat := 0;
      while more && i <= level
        invariant 1 <= i <= level + 1 && Linked()
        invariant cut < |was| && rings == Cut(was, x, cut) && cut == if more then i - 1 else |was| - 1
        decreases level - i, more
      {
        assert Fits(was[i], update[i], x.hash);
        more := UnlinkRound(i, update[i], x, was);
        cut := if more then i else |was| - 1;
        if more {
          i := i + 1;
        }
      }
    }

    lemma HeaderLink(i: nat)
      requires Linked() && i < |rings| && Level(rings[i], header)
      ensures i < |header.forward| && (header.forward[i] == header <==> rings[i] == [header])
    {
      var r := rings[i];
      assert Joined(i);
      OnlyHeader(r);
      assert r[0].forward[i] == After(r, 0);
    }

    /** The last loop of skiplist_delete: drop the levels that have become empty. */
    method Shrink()
      requires Linked() && Levels(rings, header) && EmptyAbove(rings, header, level) && 1 <= level < |rings|
      modifies this`level
      ensures EmptyAbove(rings, header, level) && 1 <= level <= old(level) && (level > 1 ==> |rings[level]| > 1)
    {
      assert Level(rings[level], header);
      HeaderLink(level);
      while level > 1 && header.forward[level] == header
        invariant EmptyAbove(rings, header, level) && 1 <= level <= old(level) && Level(rings[level], header)
        invariant level < |header.forward| && (header.forward[level] == header <==> rings[level] == [header])
        decreases level
      {
        level := level - 1;
        assert Level(rings[level], header);
        HeaderLink(level);
        forall i | level < i < |rings|
          ensures Bare(rings[i], header)
        {
          assert i > level + 1 ==> Bare(rings[i], header);
        }
      }
    }

    method DeleteFound(update: seq<Node>, x: Node, ghost was: seq<Ring>, ghost rest: seq<Ring>)
      requires rings == was && Linked() && header in owned && Nested(was) && Levels(was, header) && x.hash < SENTINEL
      requires Located(was, update, 1, x.hash) && forall i :: 1 <= i < |was| ==> update[i] in owned
      requires 1 <= level < |was| && Cut(was, x, level) == rest == Cut(was, x, |was| - 1)
      requires Tower(rest, header, level, h) && size == |rest[1]|
      modifies this`rings, this`level, this`size, owned`forward
      ensures Valid() && rings == rest
    {
      size := size - 1;
      UnlinkAll(update, x, was);
      Shrink();
    }

    /** The second half of skiplist_delete, for a key that is there. */
    method DeletePresent(update: seq<Node>, x: Node)
      requires Valid() && Located(rings, update, 1, x.hash) && x.hash < SENTINEL && x in rings[1]
      modifies this`rings, this`level, this`size, owned`forward
      ensures Valid() && rings == Cut(old(rings), x, MAX_LEVELS)
    {
      CutIsTower(rings, x, header, level, h);
      OwnedUpdate(update, x.hash);
      DeleteFound(update, x, rings, Cut(rings, x, |rings| - 1));
    }

    /** skiplist_delete. */
    method Delete(key: string) returns (ok: bool, ghost x: Node)
      requires Valid() && Apart(rings[1], key, h(key))
      modifies this`rings, this`level, this`size, owned`forward
      ensures Valid() && ok == (key in Keys(old(rings)[1]))
      ensures ok ==> x in old(rings)[1] && x.key == Some(key) && rings == Cut(old(rings), x, MAX_LEVELS)
      ensures !ok ==> rings == old(rings)
    {
      var update := LocateKey(h(key), key);
      assert Level(rings[1], header) && Joined(1) && Fits(rings[1], update[1], h(key));
      KeyIsAfter(rings[1], key, h);
      var next := update[1].forward[1];
      ok, x := next.hash == h(key) && next.key == Some(key), next;
      if ok {
        DeletePresent(update, next);
      }
    }

    lemma OwnedUpdate(update: seq<Node>, hash: nat)
      requires Linked() && Located(rings, update, 1, hash)
      ensures forall i :: 1 <= i < |rings| ==> update[i] in owned
    {
      forall i | 1 <= i < |rings|
        ensures update[i] in owned
      {
        assert Joined(i) && Fits(rings[i], update[i], hash);
      }
    }
  }
}
