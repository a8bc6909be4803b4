/**
 The skiplist under hashmaps and sets (skiplist.c): circular linked levels that share one
 header, each level a sublist of the one below. The linked nodes of every level are kept
 as ghost sequences, the rings, and the forward pointers are proved to follow them.
 */
module Rings {
  import opened Options

  const MAX_LEVELS: nat := 6
  /** The header's hash; every key hashes below it. */
  const SENTINEL: nat := 0xFFFF_FFFF

  class Node {
    /** The header has no key. */
    const key: Option<string>
    const hash: nat
    /** Slot 0 is never used. */
    var forward: seq<Node>

    constructor (key: Option<string>, hash: nat)
      ensures this.key == key && this.hash == hash && forward == []
    {
      this.key, this.hash, forward := key, hash, [];
    }
  }

  /** The header followed by the nodes of one level. */
  type Ring = seq<Node>

  /** The nodes of a level, without the header. */
  function Nodes(ring: Ring): seq<Node> {
    if ring == [] then [] else ring[1..]
  }

  /** The node after position a, back to the header at the end. */
  function After(ring: Ring, a: nat): Node
    requires a < |ring|
  {
    if a + 1 < |ring| then ring[a + 1] else ring[0]
  }

  /** The forward pointers of level i run around the ring. */
  ghost predicate Follows(ring: Ring, i: nat)
    reads ring
  {
    forall a {:trigger ring[a].forward} :: 0 <= a < |ring| ==> i < |ring[a].forward| && ring[a].forward[i] == After(ring, a)
  }

  /** The header, then nodes of strictly growing hashes below the header's. */
  predicate Sorted(ring: Ring) {
    && |ring| > 0 && ring[0].hash == SENTINEL
    && (forall a :: 1 <= a < |ring| ==> ring[a].hash < SENTINEL)
    && (forall a, b :: 1 <= a < b < |ring| ==> ring[a].hash < ring[b].hash)
  }

  /** Position k is the last one of the ring before a hash; position 0 is before every hash. */
  predicate Before(ring: Ring, k: nat, hash: nat) {
    && k < |ring|
    && (forall a :: 1 <= a <= k ==> ring[a].hash < hash)
    && (forall a :: k < a < |ring| ==> hash <= ring[a].hash)
  }

  /** The last position before a hash. */
  function Rank(ring: Ring, hash: nat): (k: nat)
    requires ring != []
    ensures k < |ring|
  {
    if |ring| == 1 || ring[|ring| - 1].hash < hash then |ring| - 1 else Rank(ring[..|ring| - 1], hash)
  }

  lemma {:induction false} RankIsBefore(ring: Ring, hash: nat)
    requires Sorted(ring)
    ensures Before(ring, Rank(ring, hash), hash)
    decreases |ring|
  {
    if |ring| > 1 && hash <= ring[|ring| - 1].hash {
      RankIsBefore(ring[..|ring| - 1], hash);
    }
  }

  lemma BeforeIsRank(ring: Ring, k: nat, hash: nat)
    requires Sorted(ring) && Before(ring, k, hash)
    ensures k == Rank(ring, hash)
  {
    RankIsBefore(ring, hash);
    var a, b := ring[k], ring[Rank(ring, hash)];
  }

  // ----- changes of one ring

  function Put(ring: Ring, k: nat, node: Node): Ring
    requires k < |ring|
  {
    ring[..k + 1] + [node] + ring[k + 1..]
  }

  function Without(ring: Ring, k: nat): Ring
    requires k < |ring|
  {
    ring[..k] + ring[k + 1..]
  }

  /** The ring with a node at the place of its hash. */
  function Into(ring: Ring, node: Node): Ring
    requires ring != []
  {
    Put(ring, Rank(ring, node.hash), node)
  }

  /** The ring without a node, if it stands at the place of its hash. */
  function Skip(ring: Ring, x: Node): Ring
    requires ring != []
  {
    var k := Rank(ring, x.hash);
    if After(ring, k) == x && k + 1 < |ring| then Without(ring, k + 1) else ring
  }

  lemma DistinctNodes(ring: Ring)
    requires Sorted(ring)
    ensures forall a, b :: 0 <= a < b < |ring| ==> ring[a] != ring[b]
  {
  }

  lemma PutAt(ring: Ring, k: nat, node: Node)
    requires k < |ring|
    ensures var r := Put(ring, k, node);
            && |r| == |ring| + 1
            && forall a :: 0 <= a < |r| ==> r[a] == if a <= k then ring[a] else if a == k + 1 then node else ring[a - 1]
  {
  }

  lemma WithoutAt(ring: Ring, k: nat)
    requires k < |ring|
    ensures var r := Without(ring, k);
            |r| == |ring| - 1 && forall a :: 0 <= a < |r| ==> r[a] == if a < k then ring[a] else ring[a + 1]
  {
  }

  /** A ring whose header is followed by itself has no other node. */
  lemma OnlyHeader(ring: Ring)
    requires Sorted(ring)
    ensures After(ring, 0) == ring[0] <==> ring == [ring[0]]
  {
    if |ring| > 1 {
      assert ring[1] != ring[0];
    }
  }

  lemma IntoSorted(ring: Ring, node: Node)
    requires Sorted(ring) && node.hash < SENTINEL
    requires forall a :: 1 <= a < |ring| ==> ring[a].hash != node.hash
    ensures Sorted(Into(ring, node)) && Into(ring, node)[0] == ring[0]
  {
    RankIsBefore(ring, node.hash);
    PutAt(ring, Rank(ring, node.hash), node);
  }

  lemma WithoutSorted(ring: Ring, k: nat)
    requires Sorted(ring) && 1 <= k < |ring|
    ensures Sorted(Without(ring, k)) && Without(ring, k)[0] == ring[0]
  {
    WithoutAt(ring, k);
  }

  lemma SkipSorted(ring: Ring, x: Node)
    requires Sorted(ring)
    ensures Sorted(Skip(ring, x)) && Skip(ring, x)[0] == ring[0]
  {
    var k := Rank(ring, x.hash);
    if k + 1 < |ring| {
      WithoutSorted(ring, k + 1);
    }
  }

  lemma IntoMember(ring: Ring, node: Node, n: Node)
    requires ring != []
    ensures n in Into(ring, node) <==> n in ring || n == node
  {
    var k := Rank(ring, node.hash);
    assert ring == ring[..k + 1] + ring[k + 1..];
  }

  lemma WithoutMember(ring: Ring, k: nat, n: Node)
    requires Sorted(ring) && 1 <= k < |ring|
    ensures n in Without(ring, k) <==> n in ring && n != ring[k]
  {
    assert ring == ring[..k] + [ring[k]] + ring[k + 1..];
    WithoutAt(ring, k);
    DistinctNodes(ring);
  }

  /** A node of the ring stands right after the last position before its hash. */
  lemma FoundAfter(ring: Ring, x: Node)
    requires Sorted(ring) && x.hash < SENTINEL
    ensures x in ring <==> After(ring, Rank(ring, x.hash)) == x
    ensures x in ring ==> Rank(ring, x.hash) + 1 < |ring|
  {
    var k := Rank(ring, x.hash);
    RankIsBefore(ring, x.hash);
    if x in ring {
      var a :| 0 <= a < |ring| && ring[a] == x;
      assert a > k;
      assert ring[k + 1].hash <= ring[a].hash;
    }
  }

  lemma SkipMember(ring: Ring, x: Node, n: Node)
    requires Sorted(ring) && x.hash < SENTINEL
    ensures n in Skip(ring, x) <==> n in ring && n != x
    ensures x !in ring ==> Skip(ring, x) == ring
  {
    FoundAfter(ring, x);
    var k := Rank(ring, x.hash);
    if x in ring {
      WithoutMember(ring, k + 1, n);
    }
  }

  // ----- the keys of a ring

  ghost predicate Keyed(ring: Ring, h: string -> nat) {
    forall a :: 1 <= a < |ring| ==> ring[a].key.Some? && ring[a].hash == h(ring[a].key.value)
  }

  /** No other key of the ring collides with this one. */
  ghost predicate Apart(ring: Ring, key: string, hash: nat) {
    hash < SENTINEL && forall n :: n in ring && n.hash == hash ==> n.key == Some(key)
  }

  /** The keys of a level. */
  function Keys(ring: Ring): set<string> {
    set n | n in ring && n.key.Some? :: n.key.value
  }

  /** The node after the place of a key's hash decides whether the ring has the key. */
  lemma KeyIsAfter(ring: Ring, key: string, h: string -> nat)
    requires Sorted(ring) && Keyed(ring, h) && ring[0].key == None && Apart(ring, key, h(key))
    ensures var n := After(ring, Rank(ring, h(key)));
            && n in ring && (n.hash == h(key) <==> n.key == Some(key))
            && (key in Keys(ring) <==> n.key == Some(key))
  {
    var n := After(ring, Rank(ring, h(key)));
    RankIsBefore(ring, h(key));
    assert n in ring && (n == ring[0] || n == ring[Rank(ring, h(key)) + 1]);
    if key in Keys(ring) {
      var x :| x in ring && x.key == Some(key);
      var a :| 0 <= a < |ring| && ring[a] == x;
      FoundAfter(ring, x);
    }
  }

  lemma FreshHash(ring: Ring, hash: nat)
    requires Sorted(ring) && After(ring, Rank(ring, hash)).hash != hash
    ensures forall a :: 1 <= a < |ring| ==> ring[a].hash != hash
  {
    RankIsBefore(ring, hash);
  }

  lemma IntoKeyed(ring: Ring, node: Node, h: string -> nat)
    requires ring != [] && Keyed(ring, h) && node.key.Some? && node.hash == h(node.key.value)
    ensures Keyed(Into(ring, node), h)
  {
    PutAt(ring, Rank(ring, node.hash), node);
  }

  lemma SkipKeyed(ring: Ring, x: Node, h: string -> nat)
    requires ring != [] && Keyed(ring, h)
    ensures Keyed(Skip(ring, x), h)
  {
    var k := Rank(ring, x.hash);
    if k + 1 < |ring| {
      WithoutAt(ring, k + 1);
    }
  }

  lemma IntoKeys(ring: Ring, node: Node)
    requires ring != [] && node.key.Some?
    ensures Keys(Into(ring, node)) == Keys(ring) + {node.key.value}
  {
    forall n: Node
      ensures n in Into(ring, node) <==> n in ring || n == node
    {
      IntoMember(ring, node, n);
    }
  }

  lemma KeysDiffer(ring: Ring, x: Node, h: string -> nat)
    requires Sorted(ring) && Keyed(ring, h) && ring[0].key == None && x in ring && x.key.Some?
    ensures forall n :: n in ring && n.key == x.key ==> n == x
  {
    forall n | n in ring && n.key == x.key
      ensures n == x
    {
      var a :| 0 <= a < |ring| && ring[a] == n;
      var b :| 0 <= b < |ring| && ring[b] == x;
      assert n.hash == x.hash;
    }
  }

  lemma SkipKeys(ring: Ring, x: Node, h: string -> nat)
    requires Sorted(ring) && Keyed(ring, h) && ring[0].key == None && x in ring && x.key.Some? && x.hash < SENTINEL
    ensures Keys(Skip(ring, x)) == Keys(ring) - {x.key.value}
  {
    forall n: Node
      ensures n in Skip(ring, x) <==> n in ring && n != x
    {
      SkipMember(ring, x, n);
    }
    KeysDiffer(ring, x, h);
  }

  // ----- all levels together

  predicate Level(ring: Ring, header: Node) {
    Sorted(ring) && ring[0] == header
  }

  predicate Within(upper: Ring, lower: Ring) {
    forall a :: 0 <= a < |upper| ==> upper[a] in lower
  }

  ghost predicate Levels(rings: seq<Ring>, header: Node) {
    forall i {:trigger Level(rings[i], header)} :: 0 <= i < |rings| ==> Level(rings[i], header)
  }

  /** The levels above the top one hold the header alone. */
  ghost predicate EmptyAbove(rings: seq<Ring>, header: Node, level: nat) {
    forall i {:trigger Bare(rings[i], header)} :: level < i < |rings| ==> Bare(rings[i], header)
  }

  predicate Bare(ring: Ring, header: Node) {
    ring == [header]
  }

  /** Each level is a sublist of those below it: its nodes are there, and both are in hash order. */
  ghost predicate Nested(rings: seq<Ring>) {
    forall i, j {:trigger Within(rings[j], rings[i])} :: 1 <= i < j < |rings| ==> Within(rings[j], rings[i])
  }

  /** Everything about the levels but the pointers. */
  ghost predicate Tower(rings: seq<Ring>, header: Node, level: nat, h: string -> nat) {
    && |rings| == MAX_LEVELS + 1 && 1 <= level <= MAX_LEVELS && header.key == None
    && Levels(rings, header) && EmptyAbove(rings, header, level) && Nested(rings) && Keyed(rings[1], h)
  }

  /** The rings with a node put into the lowest m levels. */
  function Spliced(rings: seq<Ring>, node: Node, m: nat): (r: seq<Ring>)
    requires m < |rings|
    ensures |r| == |rings|
    ensures forall i :: 0 <= i < |rings| ==>
      r[i] == if 1 <= i <= m && rings[i] != [] then Into(rings[i], node) else rings[i]
  {
    if m == 0 then rings
    else if rings[m] == [] then Spliced(rings, node, m - 1)
    else Spliced(rings, node, m - 1)[m := Into(rings[m], node)]
  }

  /** The rings with a node taken out of the lowest m levels. */
  function Cut(rings: seq<Ring>, x: Node, m: nat): (r: seq<Ring>)
    requires m < |rings|
    ensures |r| == |rings|
    ensures forall i :: 0 <= i < |rings| ==>
      r[i] == if 1 <= i <= m && rings[i] != [] then Skip(rings[i], x) else rings[i]
  {
    if m == 0 then rings
    else if rings[m] == [] then Cut(rings, x, m - 1)
    else Cut(rings, x, m - 1)[m := Skip(rings[m], x)]
  }

  lemma SplicedNested(rings: seq<Ring>, node: Node, m: nat, header: Node)
    requires Nested(rings) && m < |rings| && Levels(rings, header)
    ensures Nested(Spliced(rings, node, m))
  {
    var r := Spliced(rings, node, m);
    forall i, j | 1 <= i < j < |r|
      ensures Within(r[j], r[i])
    {
      assert Within(rings[j], rings[i]) && Level(rings[i], header) && Level(rings[j], header);
      forall a | 0 <= a < |r[j]|
        ensures r[j][a] in r[i]
      {
        IntoMember(rings[j], node, r[j][a]);
        IntoMember(rings[i], node, r[j][a]);
      }
    }
  }

  lemma SplicedLevels(rings: seq<Ring>, node: Node, m: nat, header: Node)
    requires Levels(rings, header) && Nested(rings) && m < |rings| && node.hash < SENTINEL
    requires |rings| > 1 && forall a :: 1 <= a < |rings[1]| ==> rings[1][a].hash != node.hash
    ensures Levels(Spliced(rings, node, m), header)
  {
    var r := Spliced(rings, node, m);
    forall i | 0 <= i < |rings|
      ensures Level(r[i], header)
    {
      assert Level(rings[i], header) && Level(rings[1], header);
      if 1 <= i <= m {
        assert i == 1 || Within(rings[i], rings[1]);
        HashIsNew(rings[i], rings[1], node.hash);
        IntoSorted(rings[i], node);
      }
    }
  }

  /** A hash that does not occur on a lower level does not occur above it. */
  lemma HashIsNew(upper: Ring, lower: Ring, hash: nat)
    requires (upper == lower || Within(upper, lower)) && Sorted(upper) && Sorted(lower)
    requires forall a :: 1 <= a < |lower| ==> lower[a].hash != hash
    ensures forall a :: 1 <= a < |upper| ==> upper[a].hash != hash
  {
    forall a | 1 <= a < |upper|
      ensures upper[a].hash != hash
    {
      assert upper[a] in lower;
      var b :| 0 <= b < |lower| && lower[b] == upper[a];
    }
  }

  lemma SplicedIsTower(rings: seq<Ring>, node: Node, m: nat, header: Node, level: nat, h: string -> nat)
    requires Tower(rings, header, level, h) && 1 <= m <= MAX_LEVELS
    requires node.hash < SENTINEL && node.key.Some? && node.hash == h(node.key.value)
    requires rings[1] != [] && After(rings[1], Rank(rings[1], node.hash)).hash != node.hash
    requires level > 1 ==> |rings[level]| > 1
    ensures var r, top := Spliced(rings, node, m), if m > level then m else level;
            Tower(r, header, top, h) && |r[top]| > 1 && |r[1]| == |rings[1]| + 1
  {
    assert Level(rings[1], header) && Level(rings[m], header);
    FreshHash(rings[1], node.hash);
    SplicedNested(rings, node, m, header);
    SplicedLevels(rings, node, m, header);
    var r := Spliced(rings, node, m);
    forall i | m < i < |r| && level < i
      ensures Bare(r[i], header)
    {
      assert Bare(rings[i], header);
    }
    IntoKeyed(rings[1], node, h);
  }

  lemma CutLevels(rings: seq<Ring>, x: Node, m: nat, header: Node)
    requires Levels(rings, header) && m < |rings|
    ensures Levels(Cut(rings, x, m), header)
  {
    var r := Cut(rings, x, m);
    forall i | 0 <= i < |rings|
      ensures Level(r[i], header)
    {
      assert Level(rings[i], header);
      SkipSorted(rings[i], x);
    }
  }

  lemma CutNested(rings: seq<Ring>, x: Node, header: Node)
    requires 0 < |rings| && Nested(rings) && Levels(rings, header) && x.hash < SENTINEL
    ensures Nested(Cut(rings, x, |rings| - 1))
  {
    var r := Cut(rings, x, |rings| - 1);
    forall i, j | 1 <= i < j < |r|
      ensures Within(r[j], r[i])
    {
      assert Within(rings[j], rings[i]) && Level(rings[i], header) && Level(rings[j], header);
      forall a | 0 <= a < |r[j]|
        ensures r[j][a] in r[i]
      {
        SkipMember(rings[j], x, r[j][a]);
        SkipMember(rings[i], x, r[j][a]);
      }
    }
  }

  lemma CutIsTower(rings: seq<Ring>, x: Node, header: Node, level: nat, h: string -> nat)
    requires Tower(rings, header, level, h) && x.hash < SENTINEL
    ensures var r := Cut(rings, x, |rings| - 1);
            Tower(r, header, level, h) && (x in rings[1] ==> |r[1]| == |rings[1]| - 1) && r == Cut(rings, x, level)
  {
    assert Level(rings[1], header);
    CutAtTop(rings, x, header, level);
    CutLevels(rings, x, |rings| - 1, header);
    CutNested(rings, x, header);
    CutEmpty(rings, x, header, level);
    SkipKeyed(rings[1], x, h);
    FoundAfter(rings[1], x);
  }

  lemma CutEmpty(rings: seq<Ring>, x: Node, header: Node, level: nat)
    requires 0 < |rings| && EmptyAbove(rings, header, level)
    ensures EmptyAbove(Cut(rings, x, |rings| - 1), header, level)
  {
    var r := Cut(rings, x, |rings| - 1);
    forall i | level < i < |r|
      ensures Bare(r[i], header)
    {
      assert Bare(rings[i], header);
      assert Rank([header], x.hash) == 0;
    }
  }

  lemma {:induction false} CutNothing(rings: seq<Ring>, x: Node, m: nat, n: nat)
    requires m <= n < |rings|
    requires forall i :: m < i <= n ==> rings[i] != [] && Skip(rings[i], x) == rings[i]
    ensures Cut(rings, x, m) == Cut(rings, x, n)
    decreases n
  {
    if m < n {
      CutNothing(rings, x, m, n - 1);
    }
  }

  /** Once a level lacks the node, so do the levels above, and the unlinking is complete. */
  lemma CutStops(rings: seq<Ring>, x: Node, m: nat, header: Node)
    requires m < |rings| && Nested(rings) && Levels(rings, header) && x.hash < SENTINEL
    requires m + 1 < |rings| ==> x !in rings[m + 1]
    ensures Cut(rings, x, m) == Cut(rings, x, |rings| - 1)
  {
    forall i | m < i < |rings|
      ensures rings[i] != [] && Skip(rings[i], x) == rings[i]
    {
      assert Level(rings[i], header);
      assert i == m + 1 || Within(rings[i], rings[m + 1]);
      SkipMember(rings[i], x, x);
    }
    CutNothing(rings, x, m, |rings| - 1);
  }

  lemma CutAtTop(rings: seq<Ring>, x: Node, header: Node, level: nat)
    requires Nested(rings) && Levels(rings, header) && EmptyAbove(rings, header, level)
    requires x.hash < SENTINEL && level < |rings|
    ensures Cut(rings, x, level) == Cut(rings, x, |rings| - 1)
  {
    if level + 1 < |rings| {
      assert Level(rings[level + 1], header) && Bare(rings[level + 1], header);
    }
    CutStops(rings, x, level, header);
  }
}
