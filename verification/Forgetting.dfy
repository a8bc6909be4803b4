/** Cluster#forget: a node gives all its slots to the others and leaves. */
module Forgetting {
  import opened Options
  import opened Rows
  import opened Sequences
  import opened Sharding
  import opened Hearing
  import opened Arrival
  import opened Migration
  import opened Transfer
  import P = Persistence

  /** A node of a cluster that leaves, the nodes asked to take its slots, and what the cluster holds at first. */
  datatype Leaving = Leaving(c: Nodes, node: Id, others: seq<Id>, walk: Walk, slot: SlotFn, g: Db)

  /** The nodes asked are in the table, none twice, and do not leave. */
  ghost predicate Askable(s: Leaving) {
    s.node in s.c && Distinct(s.others) && forall i :: 0 <= i < |s.others| ==> s.others[i] in s.c && s.others[i] != s.node
  }

  /** The queries for all keys of the node can be decided. */
  ghost predicate Decidable(s: Leaving)
    requires s.node in s.c
  {
    var n := s.c[s.node];
    && Inv(s.c, s.slot) && Shows(s.c, s.slot, s.g)
    && forall k {:trigger Movable(n.db, k, s.walk)} :: k in n.keys ==> Movable(n.db, k, s.walk)
  }

  ghost predicate AllCarried(n: Node) {
    forall k {:trigger Carried(n.db, k)} :: k in n.keys ==> Carried(n.db, k)
  }

  /** The cluster still holds all; or the key that cannot arrive is on the node, or astray. */
  ghost predicate Contents(s: Leaving, cur: Nodes, lost: string)
    requires s.node in s.c && s.node in cur
  {
    var was := s.c[s.node];
    if AllCarried(was) then Inv(cur, s.slot) && Shows(cur, s.slot, s.g) && AllCarried(cur[s.node])
    else
      && Hopeless(was.db, was.keys, lost) && !Illegal(lost) && P.Get(s.g, lost) == P.Get(was.db, lost) && StillAs(cur[s.node], was)
      && (AtHome(cur, s.node, lost, s.slot) || Astray(cur, s.node, lost, s.slot, s.g))
  }

  function SlotCount(c: Nodes, id: Id): nat
    requires id in c
  {
    |c[id].slots|
  }

  /** Node others[j] has got[j] slots more than at first, and the leaving node num left. */
  ghost predicate Given(s: Leaving, cur: Nodes, lost: string, got: seq<nat>, num: int) {
    && Askable(s) && Walks(s.walk) && cur.Keys == s.c.Keys && |got| == |s.others|
    && SlotsOk(cur) && SlotCount(cur, s.node) == num
    && (forall j :: 0 <= j < |s.others| ==> SlotCount(cur, s.others[j]) == SlotCount(s.c, s.others[j]) + got[j])
    && (Decidable(s) ==> Contents(s, cur, lost))
  }

  lemma CarriedStep(s: Leaving, cur: Nodes, x: nat, dst: Id)
    requires s.node in s.c && s.node in cur && dst in cur && dst != s.node && Walks(s.walk)
    requires Inv(cur, s.slot) && Shows(cur, s.slot, s.g) && AllCarried(cur[s.node])
    ensures var cur' := MigratedBy(cur, s.node, x, dst, s.walk, s.slot);
            Inv(cur', s.slot) && Shows(cur', s.slot, s.g) && AllCarried(cur'[s.node])
  {
    var n, t := cur[s.node], Quota(x, |cur[s.node].slots|);
    assert CanMove(n, n.slots[..t], s.slot);
    MigratedByIsMigrated(cur, s.node, x, dst, s.walk, s.slot);
    MigratedKeeps(cur, s.node, x, dst, s.slot, s.g);
    SourceCarried(n, t, s.slot);
  }

  lemma SourceCarried(n: Node, t: nat, slot: SlotFn)
    requires AllCarried(n) && t <= |n.slots|
    ensures AllCarried(Source(n, t, slot))
  {
    var n' := Source(n, t, slot);
    forall k | k in n'.keys
      ensures Carried(n'.db, k)
    {
      assert Carried(n.db, k);
    }
  }

  lemma ContentsStep(s: Leaving, cur: Nodes, lost: string, x: nat, dst: Id)
    requires s.node in s.c && s.node in cur && dst in cur && dst != s.node && Walks(s.walk)
    requires SlotsOk(cur) && Decidable(s) && Contents(s, cur, lost)
    ensures s.node in MigratedBy(cur, s.node, x, dst, s.walk, s.slot)
    ensures Contents(s, MigratedBy(cur, s.node, x, dst, s.walk, s.slot), lost)
  {
    if AllCarried(s.c[s.node]) {
      CarriedStep(s, cur, x, dst);
    } else {
      HopelessStep(cur, s.node, x, dst, s.walk, s.slot, s.c[s.node], lost, s.g);
    }
  }

  lemma AskOne(s: Leaving, cur: Nodes, lost: string, got: seq<nat>, num: int, i: nat, x: nat)
    requires Given(s, cur, lost, got, num) && i < |s.others| && 0 < x <= num
    ensures s.others[i] in cur
    ensures Given(s, MigratedBy(cur, s.node, x, s.others[i], s.walk, s.slot), lost, got[i := got[i] + x], num - x)
  {
    var dst := s.others[i];
    var cur' := MigratedBy(cur, s.node, x, dst, s.walk, s.slot);
    MigratedBySlots(cur, s.node, x, dst, s.walk, s.slot);
    assert Took(cur, cur', s.node, dst, x, s.slot);
    if Decidable(s) {
      ContentsStep(s, cur, lost, x, dst);
    }
    forall j | 0 <= j < |s.others|
      ensures SlotCount(cur', s.others[j]) == SlotCount(s.c, s.others[j]) + got[i := got[i] + x][j]
    {
      if j != i {
        assert cur'[s.others[j]] == cur[s.others[j]];
      }
    }
  }

  /** The part each of m nodes is asked for. */
  function PerNode(num: nat, m: nat): nat
    requires m > 0
  {
    if num / m == 0 then num else num / m
  }

  /** What is left after i requests. */
  function Remaining(num: nat, per: nat, i: nat): int {
    if i == 0 then num else Remaining(num, per, i - 1) - per
  }

  lemma {:induction false} RemainingIs(num: nat, per: nat, i: nat)
    ensures Remaining(num, per, i) == num - i * per
  {
    if i > 0 {
      RemainingIs(num, per, i - 1);
      assert i * per == (i - 1) * per + per;
    }
  }

  lemma AtLeast(k: nat, q: nat)
    ensures k * q >= 0 && (k > 0 ==> k * q >= q)
  {
    if k > 0 {
      assert k * q == (k - 1) * q + q;
    }
  }

  /** In an even pass there is enough for every node, and the rest is left over. */
  lemma EvenPass(num: nat, m: nat, i: nat)
    requires m > 0 && i <= m && num / m > 0
    ensures var left := Remaining(num, num / m, i); if i < m then left >= num / m else left == num % m
  {
    var q := num / m;
    RemainingIs(num, q, i);
    AtLeast(m - i, q);
    assert num == m * q + num % m;
    assert m * q == i * q + (m - i) * q;
  }

  /** The requests of one pass: even parts to all, or everything to the first. */
  lemma NextRequest(num: nat, m: nat, i: nat)
    requires m > 0 && num > 0 && i < m && (num / m == 0 ==> i == 0)
    ensures 0 < PerNode(num, m) <= Remaining(num, PerNode(num, m), i)
    ensures var left := Remaining(num, PerNode(num, m), i + 1);
            if num / m == 0 then left == 0 else if i + 1 < m then left > 0 else left == num % m
  {
    if num / m > 0 {
      EvenPass(num, m, i);
      EvenPass(num, m, i + 1);
    } else {
      assert Remaining(num, num, 1) == Remaining(num, num, 0) - num;
    }
  }

  function Totals(got: seq<nat>, per: nat, upto: nat): (r: seq<nat>)
    ensures |r| == |got| && forall j :: 0 <= j < |got| ==> r[j] == got[j] + if j < upto then per else 0
  {
    seq(|got|, j requires 0 <= j < |got| => got[j] + if j < upto then per else 0)
  }

  lemma TotalsNext(got: seq<nat>, per: nat, i: nat)
    requires i < |got|
    ensures Totals(got, per, i)[i := Totals(got, per, i)[i] + per] == Totals(got, per, i + 1)
  {
  }

  /** What the nodes have after a pass over num slots, and what is left of them. */
  function Passed(got: seq<nat>, num: nat): (r: seq<nat>)
    requires got != []
    ensures |r| == |got|
  {
    if num / |got| > 0 then Totals(got, num / |got|, |got|) else Totals(got, num, 1)
  }

  function Rest(num: nat, m: nat): nat
    requires m > 0
  {
    if num / m > 0 then num % m else 0
  }

  lemma AskNext(s: Leaving, cur: Nodes, lost: string, got: seq<nat>, num: nat, i: nat)
    requires i < |s.others| == |got| && num > 0 && (num / |s.others| == 0 ==> i == 0)
    requires var per := PerNode(num, |s.others|); Given(s, cur, lost, Totals(got, per, i), Remaining(num, per, i))
    ensures s.others[i] in cur
    ensures var per := PerNode(num, |s.others|);
            Given(s, MigratedBy(cur, s.node, per, s.others[i], s.walk, s.slot), lost, Totals(got, per, i + 1), Remaining(num, per, i + 1))
  {
    var per := PerNode(num, |s.others|);
    NextRequest(num, |s.others|, i);
    AskOne(s, cur, lost, Totals(got, per, i), Remaining(num, per, i), i, per);
    TotalsNext(got, per, i);
  }

  /** One request: node others[i] is sent its part. */
  method Ask(cur: Nodes, node: Id, dst: Id, per: nat, walk: Walk, slot: SlotFn,
             ghost s: Leaving, ghost lost: string, ghost got: seq<nat>, ghost num: nat, ghost i: nat) returns (cur': Nodes)
    requires node == s.node && walk == s.walk && slot == s.slot && num > 0
    requires i < |s.others| == |got| && dst == s.others[i] && (num / |s.others| == 0 ==> i == 0)
    requires per == PerNode(num, |s.others|) && Given(s, cur, lost, Totals(got, per, i), Remaining(num, per, i))
    ensures Given(s, cur', lost, Totals(got, per, i + 1), Remaining(num, per, i + 1))
  {
    AskNext(s, cur, lost, got, num, i);
    cur' := Migrate(cur, node, per, dst, walk, slot);
  }

  /** The inner loop: one pass over the other nodes. */
  method Pass(start: Nodes, node: Id, others: seq<Id>, num: nat, walk: Walk, slot: SlotFn,
              ghost s: Leaving, ghost lost: string, ghost got: seq<nat>) returns (cur: Nodes, left: int)
    requires node == s.node && others == s.others && walk == s.walk && slot == s.slot
    requires Given(s, start, lost, got, num) && num > 0 && others != []
    ensures left == Rest(num, |others|) && Given(s, cur, lost, Passed(got, num), left)
  {
    var m := |others|;
    var per := PerNode(num, m);
    cur, left := start, num;
    var i := 0;
    assert Totals(got, per, 0) == got;
    while true
      invariant 0 <= i < m && left == Remaining(num, per, i) && (num / m == 0 ==> i == 0)
      invariant Given(s, cur, lost, Totals(got, per, i), left)
      decreases m - i
    {
      NextRequest(num, m, i);
      cur := Ask(cur, node, others[i], per, walk, slot, s, lost, got, num, i);
      left := left - per;
      i := i + 1;
      if left <= 0 || i == m {
        break;
      }
    }
  }

  /** What node number j of m others gets of n slots. */
  function Share(n: nat, m: nat, j: nat): nat
    requires m > 0
  {
    n / m + if j == 0 then n % m else 0
  }

  predicate Even(got: seq<nat>, q: nat) {
    forall j :: 0 <= j < |got| ==> got[j] == q
  }

  predicate Shared(got: seq<nat>, n: nat) {
    forall j :: 0 <= j < |got| ==> got[j] == Share(n, |got|, j)
  }

  /** Nothing given yet; or even parts given and a rest left; or all given. */
  ghost predicate Stage(n: nat, got: seq<nat>, num: int, passes: nat) {
    || (passes == 0 && num == n && Even(got, 0))
    || (passes == 1 && got != [] && num == n % |got| > 0 && Even(got, n / |got|))
    || (passes <= 2 && num == 0 && (got == [] ==> n == 0) && Shared(got, n))
  }

  lemma StageNext(n: nat, got: seq<nat>, num: nat, passes: nat)
    requires Stage(n, got, num, passes) && got != [] && num > 0
    ensures passes < 2 && Stage(n, Passed(got, num), Rest(num, |got|), passes + 1)
  {
    var m := |got|;
    if passes == 1 {
      SmallQuotient(num, m);
    } else if num / m == 0 {
      assert num < m by {
        if num >= m {
          LargeQuotient(num, m);
        }
      }
      assert num % m == num;
    }
  }

  lemma SmallQuotient(r: nat, m: nat)
    requires r < m
    ensures r / m == 0
  {
  }

  lemma LargeQuotient(r: nat, m: nat)
    requires r >= m > 0
    ensures r / m > 0
  {
  }

  /** The key that cannot arrive, if there is one. */
  lemma Beginning(s: Leaving) returns (lost: string)
    requires s.node in s.c
    ensures Decidable(s) ==> Contents(s, s.c, lost)
  {
    lost := "";
    var n := s.c[s.node];
    if Decidable(s) && !AllCarried(n) {
      var bad :| bad in n.keys && !Carried(n.db, bad);
      lost := FindHopeless(n.db, n.keys, bad);
      HomeAtFirst(s, lost);
    }
  }

  lemma HomeAtFirst(s: Leaving, k: string)
    requires s.node in s.c && Inv(s.c, s.slot) && Shows(s.c, s.slot, s.g) && k in s.c[s.node].keys
    requires forall j {:trigger Movable(s.c[s.node].db, j, s.walk)} :: j in s.c[s.node].keys ==> Movable(s.c[s.node].db, j, s.walk)
    ensures !Illegal(k) && AtHome(s.c, s.node, k, s.slot) && P.Get(s.g, k) == P.Get(s.c[s.node].db, k) && StillAs(s.c[s.node], s.c[s.node])
  {
    var n := s.c[s.node];
    assert NodeOk(n, s.slot) && KeyOk(n, k, s.slot) && ShowsKey(s.c, s.slot, s.g, k);
    forall id | id in s.c && id != s.node
      ensures !Owns(s.c[id], k, s.slot) && k !in s.c[id].db
    {
      assert NodeOk(s.c[id], s.slot) && KeyOk(s.c[id], k, s.slot) && Apart(s.c[id], n);
    }
    forall j | j in n.keys
      ensures j in n.db
    {
      assert Movable(n.db, j, s.walk);
    }
  }

  /**
   Cluster#forget: None where the division by the number of other nodes fails. Otherwise the
   slots are shared out in at most two passes, and the cluster holds what it held exactly if
   every key and value of the node could be sent.
   */
  method Forget(c: Nodes, node: Id, others: seq<Id>, walk: Walk, slot: SlotFn, ghost g: Db)
    returns (c': Option<Nodes>, ghost passes: nat)
    requires SlotsOk(c) && Walks(walk) && Askable(Leaving(c, node, others, walk, slot, g))
    ensures c'.None? <==> others == [] && c[node].slots != []
    ensures passes <= 2
    ensures c'.Some? ==> c'.value.Keys == c.Keys - {node} && SlotsOk(c'.value)
    ensures c'.Some? ==>
      forall j :: 0 <= j < |others| ==>
        SlotCount(c'.value, others[j]) == SlotCount(c, others[j])
                                        + |c[node].slots| / |others| + if j == 0 then |c[node].slots| % |others| else 0
    ensures c'.Some? && Decidable(Leaving(c, node, others, walk, slot, g)) ==>
      && (Shows(c'.value, slot, g) <==> AllCarried(c[node]))
      && (AllCarried(c[node]) ==> Inv(c'.value, slot))
  {
    ghost var s := Leaving(c, node, others, walk, slot, g);
    ghost var lost := Beginning(s);
    var cur, num: int := c, |c[node].slots|;
    ghost var n := num;
    ghost var got: seq<nat> := seq(|others|, _ => 0);
    passes := 0;
    while num > 0
      invariant num >= 0 && Given(s, cur, lost, got, num) && Stage(n, got, num, passes)
      invariant others == [] ==> passes == 0
      decreases 2 - passes
    {
      if others == [] {
        return None, passes;
      }
      StageNext(n, got, num, passes);
      ghost var was, had := got, num;
      cur, num := Pass(cur, node, others, num, walk, slot, s, lost, was);
      got, passes := Passed(was, had), passes + 1;
    }
    AllGiven(n, got, passes);
    Leaves(s, cur, lost, got);
    c' := Some(cur - {node});
  }

  lemma AllGiven(n: nat, got: seq<nat>, passes: nat)
    requires Stage(n, got, 0, passes)
    ensures Shared(got, n) && (got == [] ==> n == 0) && passes <= 2
  {
  }

  lemma SlotsLeft(cur: Nodes, node: Id)
    requires SlotsOk(cur) && node in cur
    ensures SlotsOk(cur - {node})
  {
    var c' := cur - {node};
    forall a, b | a in c' && b in c' && a != b
      ensures Apart(c'[a], c'[b])
    {
      assert Apart(cur[a], cur[b]);
    }
  }

  lemma Leaves(s: Leaving, cur: Nodes, lost: string, got: seq<nat>)
    requires Given(s, cur, lost, got, 0)
    ensures var c' := cur - {s.node};
            && SlotsOk(c')
            && (Decidable(s) ==> (Shows(c', s.slot, s.g) <==> AllCarried(s.c[s.node])) && (AllCarried(s.c[s.node]) ==> Inv(c', s.slot)))
  {
    SlotsLeft(cur, s.node);
    if Decidable(s) {
      if AllCarried(s.c[s.node]) {
        NothingNeeded(cur, s.node, s.slot, s.g);
      } else {
        StaysAstray(cur, s.node, s.slot, s.g, lost);
      }
    }
  }

  lemma StaysAstray(cur: Nodes, node: Id, slot: SlotFn, g: Db, k: string)
    requires node in cur && cur[node].slots == [] && (AtHome(cur, node, k, slot) || Astray(cur, node, k, slot, g))
    requires !Illegal(k)
    ensures !Shows(cur - {node}, slot, g)
  {
    var c' := cur - {node};
    var id :| id in cur && id != node && Owns(cur[id], k, slot) && P.Get(cur[id].db, k) != P.Get(g, k);
    assert id in c' && Owns(c'[id], k, slot);
    assert !ShowsKey(c', slot, g, k);
  }

  /** A node without slots has nothing the cluster needs. */
  lemma NothingNeeded(cur: Nodes, node: Id, slot: SlotFn, g: Db)
    requires node in cur && Inv(cur, slot) && Shows(cur, slot, g) && cur[node].slots == []
    ensures Inv(cur - {node}, slot) && Shows(cur - {node}, slot, g)
  {
    var c' := cur - {node};
    forall id | id in c'
      ensures NodeOk(c'[id], slot)
    {
      assert NodeOk(cur[id], slot);
    }
    forall a, b | a in c' && b in c' && a != b
      ensures Apart(c'[a], c'[b])
    {
      assert Apart(cur[a], cur[b]);
    }
    forall k
      ensures ShowsKey(c', slot, g, k)
    {
      assert ShowsKey(cur, slot, g, k);
      assert !Owns(cur[node], k, slot);
      if forall id :: id in c' ==> !Owns(c'[id], k, slot) {
        forall id | id in cur
          ensures !Owns(cur[id], k, slot)
        {
          assert id in c' || id == node;
        }
      }
    }
  }
}
