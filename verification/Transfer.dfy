/**
 What a migration comes to for the cluster: where all that moves can be sent, every key and
 value changes hands; where something cannot, the cluster does not hold what it held.
 */
module Transfer {
  import opened Options
  import opened Rows
  import opened Sequences
  import opened Store
  import opened Tokenizer
  import opened Wire
  import opened Sharding
  import opened Hearing
  import opened Arrival
  import opened Migration
  import P = Persistence

  // ----- the receiving node, key by key

  lemma RunReadLocal(n: Node, x: Option<Command>, slot: SlotFn, k: string)
    ensures RunRead(n, x, slot).slots == n.slots
    ensures P.Get(RunRead(n, x, slot).db, k) == if Owns(n, k, slot) then Apply(P.Get(n.db, k), x, k) else P.Get(n.db, k)
  {
  }

  lemma {:induction false} RunAllLocal(n: Node, xs: seq<Option<Command>>, slot: SlotFn, k: string)
    ensures RunAll(n, xs, slot).slots == n.slots
    ensures P.Get(RunAll(n, xs, slot).db, k)
         == if Owns(n, k, slot) then ApplyAll(P.Get(n.db, k), xs, k) else P.Get(n.db, k)
    decreases |xs|
  {
    if xs != [] {
      var init, x := xs[..|xs| - 1], xs[|xs| - 1];
      RunAllLocal(n, init, slot, k);
      RunReadLocal(RunAll(n, init, slot), x, slot, k);
    }
  }

  /** What a node has under a key after the queries depends on what it had under it, and the queries. */
  lemma DeliverLocal(n: Node, cs: seq<Command>, slot: SlotFn, k: string)
    ensures DeliverAll(n, cs, slot).slots == n.slots
    ensures P.Get(DeliverAll(n, cs, slot).db, k)
         == if Owns(n, k, slot) then ApplyAll(P.Get(n.db, k), Reads(cs), k) else P.Get(n.db, k)
  {
    RunAllLocal(n, Reads(cs), slot, k);
  }

  predicate Legal(x: Option<Command>) {
    x.Some? ==> !Illegal(x.value.key)
  }

  lemma {:induction false} RunAllOk(n: Node, xs: seq<Option<Command>>, slot: SlotFn)
    requires NodeOk(n, slot) && forall i :: 0 <= i < |xs| ==> Legal(xs[i])
    ensures NodeOk(RunAll(n, xs, slot), slot)
    decreases |xs|
  {
    if xs != [] {
      var init, x := xs[..|xs| - 1], xs[|xs| - 1];
      RunAllOk(n, init, slot);
      var m := RunAll(n, init, slot);
      assert Legal(x);
      if x.Some? && Owns(m, x.value.key, slot) {
        RunAtKeeps(m, x.value, slot);
      }
    }
  }

  // ----- keys that can be sent

  lemma ShortIsDecided(c: Command, k: string, d: string)
    requires Bare(c) == [k] && Quoted(c) == [d] && PlainWord(k) && PlainText(d)
    ensures Decided(c)
  {
  }

  lemma FieldIsDecided(k: string, f: string, d: string)
    requires PlainWord(k) && PlainWord(f) && PlainText(d)
    ensures Decided(MAdd(k, f, d))
  {
    var c := MAdd(k, f, d);
    assert Bare(c) == [k, f] && Quoted(c) == [d];
  }

  lemma ListedField(fields: map<string, string>, walk: Walk, i: nat)
    requires Walks(walk) && Sendable(Hashmap(fields)) && i < |walk(fields.Keys)|
    ensures var f := walk(fields.Keys)[i]; f in fields && PlainWord(f) && PlainText(fields[f])
  {
    assert walk(fields.Keys)[i] in Elements(walk(fields.Keys));
  }

  lemma ListedMember(keys: set<string>, walk: Walk, i: nat)
    requires Walks(walk) && Sendable(Members(keys)) && i < |walk(keys)|
    ensures PlainText(walk(keys)[i])
  {
    assert walk(keys)[i] in Elements(walk(keys));
  }

  lemma PartIsDecided(k: string, v: Value, walk: Walk, i: nat, c: Command)
    requires Walks(walk) && PlainWord(k) && Sendable(v) && i < |Sends(k, v, walk)| && c == Sends(k, v, walk)[i]
    ensures Decided(c)
  {
    match v {
      case Str(text) => ShortIsDecided(c, k, text);
      case List(items) => ShortIsDecided(c, k, items[i]);
      case Hashmap(fields) => FieldPartIsDecided(k, fields, walk, i);
      case Members(keys) => MemberPartIsDecided(k, keys, walk, i);
    }
  }

  lemma FieldPartIsDecided(k: string, fields: map<string, string>, walk: Walk, i: nat)
    requires Walks(walk) && PlainWord(k) && Sendable(Hashmap(fields)) && i < |walk(fields.Keys)|
    ensures Decided(FieldAdds(k, fields, walk(fields.Keys))[i])
  {
    var f := walk(fields.Keys)[i];
    ListedField(fields, walk, i);
    FieldIsDecided(k, f, fields[f]);
  }

  lemma MemberPartIsDecided(k: string, keys: set<string>, walk: Walk, i: nat)
    requires Walks(walk) && PlainWord(k) && Sendable(Members(keys)) && i < |walk(keys)|
    ensures Decided(MemberAdds(k, walk(keys))[i])
  {
    var m := walk(keys)[i];
    ListedMember(keys, walk, i);
    ShortIsDecided(SAdd(k, [m]), k, m);
  }

  /** The queries for a key that can be sent can be decided. */
  lemma CarriedIsDecided(k: string, v: Value, walk: Walk)
    requires Walks(walk) && PlainWord(k) && Sendable(v)
    ensures AllDecided(k, v, walk)
  {
    forall i | 0 <= i < |Sends(k, v, walk)|
      ensures Decided(Sends(k, v, walk)[i])
    {
      PartIsDecided(k, v, walk, i, Sends(k, v, walk)[i]);
    }
  }

  ghost predicate PlainPart(c: Command) {
    Part(c) && Tame(c) && Plain(c.key)
  }

  lemma PlainSends(k: string, v: Value, walk: Walk, i: nat)
    requires AllDecided(k, v, walk) && Plain(k) && i < |Sends(k, v, walk)|
    ensures PlainPart(Sends(k, v, walk)[i]) && Sends(k, v, walk)[i].key == k
  {
    SendsAreParts(k, v, walk, i);
  }

  /** Each query for plain keys is for one of them. */
  lemma {:induction false} SentKeys(db: Db, ks: seq<string>, walk: Walk, i: nat)
    requires AllMovable(db, ks, walk) && (forall k :: k in ks ==> Plain(k)) && i < |AllSends(db, ks, walk)|
    ensures PlainPart(AllSends(db, ks, walk)[i]) && AllSends(db, ks, walk)[i].key in ks
    decreases |ks|
  {
    var init, k := ks[..|ks| - 1], ks[|ks| - 1];
    var sent := AllSends(db, init, walk);
    if i < |sent| {
      SentKeys(db, init, walk, i);
    } else {
      assert Movable(db, k, walk);
      PlainSends(k, db[k], walk, i - |sent|);
    }
  }

  /** All that moves has a value, whose queries can be decided. */
  ghost predicate Ready(n: Node, rm: seq<Slot>, walk: Walk, slot: SlotFn) {
    AllMovable(n.db, walk(MovedKeys(n.keys, rm, slot)), walk)
  }

  lemma CanMoveIsReady(n: Node, rm: seq<Slot>, walk: Walk, slot: SlotFn)
    requires NodeOk(n, slot) && Walks(walk) && CanMove(n, rm, slot)
    ensures Ready(n, rm, walk, slot)
  {
    var moved := MovedKeys(n.keys, rm, slot);
    forall k | k in walk(moved)
      ensures Movable(n.db, k, walk)
    {
      assert k in Elements(walk(moved));
      assert KeyOk(n, k, slot) && Carried(n.db, k);
      CarriedIsDecided(k, n.db[k], walk);
    }
  }

  lemma Listed(n: Node, rm: seq<Slot>, walk: Walk, slot: SlotFn, ks: seq<string>)
    requires Walks(walk) && CanMove(n, rm, slot) && ks == walk(MovedKeys(n.keys, rm, slot))
    ensures Distinct(ks) && forall j :: j in ks <==> j in MovedKeys(n.keys, rm, slot)
    ensures forall j :: j in ks ==> Plain(j)
  {
    var moved := MovedKeys(n.keys, rm, slot);
    assert Elements(ks) == moved;
    forall j
      ensures (j in ks <==> j in moved) && (j in ks ==> Plain(j))
    {
      assert j in Elements(ks) <==> j in ks;
      assert j in moved ==> Carried(n.db, j);
    }
  }

  /** The receiving node before the queries. */
  function Opened(d: Node, rm: seq<Slot>): Node {
    d.(slots := d.slots + rm)
  }

  lemma OpenedOk(d: Node, n: Node, t: nat, slot: SlotFn)
    requires NodeOk(d, slot) && NodeOk(n, slot) && Apart(d, n) && Apart(n, d) && t <= |n.slots|
    ensures NodeOk(Opened(d, n.slots[..t]), slot) && AddSlots(d.slots, n.slots[..t]) == d.slots + n.slots[..t]
  {
    var rm := n.slots[..t];
    SplitSlot(n.slots, t, "");
    assert forall i :: 0 <= i < |d.slots| ==> d.slots[i] !in rm;
    JoinSlots(d.slots, rm);
    AddSlotsApart(d.slots, rm);
    forall k
      ensures KeyOk(Opened(d, rm), k, slot)
    {
      assert KeyOk(d, k, slot);
    }
  }

  /** A key that moves was not there, and is owned there now. */
  lemma MovedKeyFacts(d: Node, n: Node, t: nat, slot: SlotFn, k: string)
    requires NodeOk(d, slot) && NodeOk(n, slot) && Apart(n, d) && t <= |n.slots|
    requires k in MovedKeys(n.keys, n.slots[..t], slot)
    ensures k in n.db && k !in d.db && !Illegal(k) && Owns(Opened(d, n.slots[..t]), k, slot) && Solid(Some(n.db[k]))
  {
    assert KeyOk(n, k, slot) && KeyOk(d, k, slot);
  }

  /** The value of any key at the receiving node, if all that moves can be sent. */
  lemma ValueThere(d: Node, n: Node, t: nat, walk: Walk, slot: SlotFn, ks: seq<string>, k: string)
    requires NodeOk(d, slot) && NodeOk(n, slot) && Apart(n, d) && t <= |n.slots| && Walks(walk)
    requires CanMove(n, n.slots[..t], slot) && ks == walk(MovedKeys(n.keys, n.slots[..t], slot))
    ensures P.Get(DeliverAll(Opened(d, n.slots[..t]), AllSends(n.db, ks, walk), slot).db, k)
         == P.Get(Target(d, n, t, slot).db, k)
  {
    var moved := MovedKeys(n.keys, n.slots[..t], slot);
    var d' := Opened(d, n.slots[..t]);
    Listed(n, n.slots[..t], walk, slot, ks);
    CanMoveIsReady(n, n.slots[..t], walk, slot);
    if k in moved {
      MovedKeyFacts(d, n, t, slot, k);
      DeliverLocal(d', AllSends(n.db, ks, walk), slot, k);
      assert Carried(n.db, k);
      CameIff(n.db, ks, walk, k);
    } else {
      Untouched(d', n.db, ks, walk, slot, k);
    }
  }

  lemma Untouched(d: Node, db: Db, ks: seq<string>, walk: Walk, slot: SlotFn, k: string)
    requires Distinct(ks) && AllMovable(db, ks, walk) && (forall j :: j in ks ==> Plain(j)) && k !in ks
    ensures P.Get(DeliverAll(d, AllSends(db, ks, walk), slot).db, k) == P.Get(d.db, k)
  {
    DeliverLocal(d, AllSends(db, ks, walk), slot, k);
    forall j | j in ks && j != k
      ensures MissedBy(db, j, walk, k)
    {
      assert Movable(db, j, walk);
      PlainMisses(db, j, walk, k);
    }
    OwnQueriesCount(P.Get(d.db, k), db, ks, walk, k);
  }

  lemma ThereOk(d: Node, n: Node, t: nat, walk: Walk, slot: SlotFn, ks: seq<string>)
    requires NodeOk(d, slot) && NodeOk(n, slot) && Apart(n, d) && Apart(d, n) && t <= |n.slots| && Walks(walk)
    requires CanMove(n, n.slots[..t], slot) && ks == walk(MovedKeys(n.keys, n.slots[..t], slot))
    ensures NodeOk(DeliverAll(Opened(d, n.slots[..t]), AllSends(n.db, ks, walk), slot), slot)
  {
    var cs := AllSends(n.db, ks, walk);
    Listed(n, n.slots[..t], walk, slot, ks);
    OpenedOk(d, n, t, slot);
    CanMoveIsReady(n, n.slots[..t], walk, slot);
    forall i | 0 <= i < |cs|
      ensures Legal(Reads(cs)[i])
    {
      SentKeys(n.db, ks, walk, i);
      PartReadsKey(cs[i]);
      var x := Received(cs[i]);
      if x.Some? {
        MovedKeyFacts(d, n, t, slot, x.value.key);
      }
    }
    RunAllOk(Opened(d, n.slots[..t]), Reads(cs), slot);
  }

  /** Two nodes in order with the same slots and values are the same, but for keys that are never sharded. */
  lemma SameNode(a: Node, b: Node, slot: SlotFn)
    requires NodeOk(a, slot) && NodeOk(b, slot) && a.slots == b.slots && forall k :: P.Get(a.db, k) == P.Get(b.db, k)
    ensures a == b
  {
    forall k
      ensures (k in a.db <==> k in b.db) && (k in a.db ==> a.db[k] == b.db[k]) && (k in a.keys <==> k in b.keys)
    {
      assert P.Get(a.db, k) == P.Get(b.db, k);
      assert KeyOk(a, k, slot) && KeyOk(b, k, slot);
    }
    assert a.db == b.db && a.keys == b.keys;
  }

  /** Where all that moves can be sent, every key and value changes hands. */
  lemma MigratedByIsMigrated(c: Nodes, self: Id, num: int, dst: Id, walk: Walk, slot: SlotFn)
    requires Inv(c, slot) && self in c && dst in c && self != dst && Walks(walk)
    requires CanMove(c[self], c[self].slots[..Quota(num, |c[self].slots|)], slot)
    ensures MigratedBy(c, self, num, dst, walk, slot) == Migrated(c, self, num, dst, slot)
  {
    var n, d, t := c[self], c[dst], Quota(num, |c[self].slots|);
    assert NodeOk(n, slot) && NodeOk(d, slot) && Apart(n, d) && Apart(d, n);
    var ks := walk(MovedKeys(n.keys, n.slots[..t], slot));
    var there := DeliverAll(Opened(d, n.slots[..t]), AllSends(n.db, ks, walk), slot);
    OpenedOk(d, n, t, slot);
    ThereOk(d, n, t, walk, slot, ks);
    TargetOk(d, n, t, slot);
    DeliverLocal(Opened(d, n.slots[..t]), AllSends(n.db, ks, walk), slot, "");
    forall k
      ensures P.Get(there.db, k) == P.Get(Target(d, n, t, slot).db, k)
    {
      ValueThere(d, n, t, walk, slot, ks, k);
    }
    SameNode(there, Target(d, n, t, slot), slot);
  }

  /** A key that does not arrive is missed by the cluster. */
  lemma KeyMissed(c: Nodes, self: Id, num: int, dst: Id, walk: Walk, slot: SlotFn, g: Db, bad: string)
    requires Inv(c, slot) && Shows(c, slot, g) && self in c && dst in c && self != dst && Walks(walk)
    requires var rm := c[self].slots[..Quota(num, |c[self].slots|)];
             Ready(c[self], rm, walk, slot) && bad in MovedKeys(c[self].keys, rm, slot) && !Carried(c[self].db, bad)
    ensures !Shows(MigratedBy(c, self, num, dst, walk, slot), slot, g)
  {
    var n, d, t := c[self], c[dst], Quota(num, |c[self].slots|);
    assert NodeOk(n, slot) && NodeOk(d, slot) && Apart(n, d) && Apart(d, n);
    var moved := MovedKeys(n.keys, n.slots[..t], slot);
    var ks := walk(moved);
    assert Distinct(ks) && Elements(ks) == moved && bad in Elements(ks);
    var k := FindHopeless(n.db, moved, bad);
    HopelessStays(None, n.db, moved, k, ks, walk);
    assert k in Elements(ks);
    MovedKeyFacts(d, n, t, slot, k);
    OpenedOk(d, n, t, slot);
    DeliverLocal(Opened(d, n.slots[..t]), AllSends(n.db, ks, walk), slot, k);
    var c' := MigratedBy(c, self, num, dst, walk, slot);
    assert KeyOk(n, k, slot) && ShowsKey(c, slot, g, k);
    assert P.Get(c'[dst].db, k) == Came(n.db, ks, walk, k) && Owns(c'[dst], k, slot);
    assert !ShowsKey(c', slot, g, k);
  }

  /** After a migration the cluster holds what it held exactly if every key and value that moved could be sent. */
  lemma MigrateIff(c: Nodes, self: Id, num: int, dst: Id, walk: Walk, slot: SlotFn, g: Db)
    requires Inv(c, slot) && Shows(c, slot, g) && self in c && dst in c && self != dst && Walks(walk)
    requires Ready(c[self], c[self].slots[..Quota(num, |c[self].slots|)], walk, slot)
    ensures Shows(MigratedBy(c, self, num, dst, walk, slot), slot, g)
       <==> CanMove(c[self], c[self].slots[..Quota(num, |c[self].slots|)], slot)
  {
    var rm := c[self].slots[..Quota(num, |c[self].slots|)];
    if CanMove(c[self], rm, slot) {
      MigratedByIsMigrated(c, self, num, dst, walk, slot);
      MigratedKeeps(c, self, num, dst, slot, g);
    } else {
      var bad :| bad in MovedKeys(c[self].keys, rm, slot) && !Carried(c[self].db, bad);
      KeyMissed(c, self, num, dst, walk, slot, g, bad);
    }
  }

  // ----- slots, whatever becomes of the keys

  ghost predicate SlotsOk(c: Nodes) {
    && (forall id :: id in c ==> Distinct(c[id].slots))
    && (forall a, b {:trigger Apart(c[a], c[b])} :: a in c && b in c && a != b ==> Apart(c[a], c[b]))
  }

  lemma InvHasSlots(c: Nodes, slot: SlotFn)
    requires Inv(c, slot)
    ensures SlotsOk(c)
  {
    forall id | id in c
      ensures Distinct(c[id].slots)
    {
      assert NodeOk(c[id], slot);
    }
  }

  /** The receiving node has the slots at the end of its own. */
  lemma SlotsThere(c: Nodes, self: Id, num: int, dst: Id, walk: Walk, slot: SlotFn)
    requires SlotsOk(c) && self in c && dst in c && self != dst
    ensures MigratedBy(c, self, num, dst, walk, slot)[dst].slots
         == Target(c[dst], c[self], Quota(num, |c[self].slots|), slot).slots
  {
    var n, d, t := c[self], c[dst], Quota(num, |c[self].slots|);
    var ks := walk(MovedKeys(n.keys, n.slots[..t], slot));
    assert Apart(n, d) && Apart(d, n);
    SplitSlot(n.slots, t, "");
    AddSlotsApart(d.slots, n.slots[..t]);
    DeliverLocal(d.(slots := AddSlots(d.slots, n.slots[..t])), AllSends(n.db, ks, walk), slot, "");
  }

  /** What a migration does to the slots and the other nodes. */
  ghost predicate Took(c: Nodes, c': Nodes, node: Id, dst: Id, t: nat, slot: SlotFn) {
    && node in c && dst in c && node != dst && c'.Keys == c.Keys && t <= |c[node].slots|
    && c'[node] == Source(c[node], t, slot) && c'[dst].slots == c[dst].slots + c[node].slots[..t]
    && forall id :: id in c && id != node && id != dst ==> c'[id] == c[id]
  }

  /** A migration moves the first slots, keeps them apart and leaves the other nodes alone. */
  lemma MigratedBySlots(c: Nodes, self: Id, num: int, dst: Id, walk: Walk, slot: SlotFn)
    requires SlotsOk(c) && self in c && dst in c && self != dst
    ensures var c', t := MigratedBy(c, self, num, dst, walk, slot), Quota(num, |c[self].slots|);
            SlotsOk(c') && Took(c, c', self, dst, t, slot)
  {
    var n, d, t, c' := c[self], c[dst], Quota(num, |c[self].slots|), MigratedBy(c, self, num, dst, walk, slot);
    SlotsThere(c, self, num, dst, walk, slot);
    assert Apart(n, d) && Apart(d, n);
    assert Took(c, c', self, dst, t, slot);
    StillDistinct(n, d, t);
    forall a, b | a in c' && b in c' && a != b
      ensures Apart(c'[a], c'[b])
    {
      StillApart(c, c', self, dst, t, slot, a, b);
    }
  }

  lemma StillDistinct(n: Node, d: Node, t: nat)
    requires Distinct(n.slots) && Distinct(d.slots) && Apart(n, d) && Apart(d, n) && t <= |n.slots|
    ensures Distinct(n.slots[t..]) && Distinct(d.slots + n.slots[..t])
  {
    SplitSlot(n.slots, t, "");
    JoinSlots(d.slots, n.slots[..t]);
  }

  lemma StillApart(c: Nodes, c': Nodes, self: Id, dst: Id, t: nat, slot: SlotFn, a: Id, b: Id)
    requires SlotsOk(c) && Took(c, c', self, dst, t, slot) && a in c && b in c && a != b
    ensures Apart(c'[a], c'[b])
  {
    var n, d, o := c[self], c[dst], if a == self || a == dst then b else a;
    assert Apart(c[a], c[b]) && Apart(c[b], c[a]) && Apart(n, d) && Apart(d, n);
    assert o == self || o == dst || (Apart(n, c[o]) && Apart(c[o], n) && Apart(d, c[o]) && Apart(c[o], d));
    ApartAfter(n, d, c[o], t, slot);
  }

  // ----- a key that cannot arrive, over several migrations of one node

  /** The keys of a node are still those of an earlier state, with their values. */
  ghost predicate StillAs(n: Node, was: Node) {
    n.keys <= was.keys && forall k :: k in n.keys ==> k in n.db && k in was.db && n.db[k] == was.db[k]
  }

  /** The key is on the node, and nowhere else. */
  ghost predicate AtHome(c: Nodes, node: Id, k: string, slot: SlotFn) {
    && node in c && k in c[node].keys && Owns(c[node], k, slot)
    && forall id :: id in c && id != node ==> !Owns(c[id], k, slot) && k !in c[id].db
  }

  /** The key has left the node, and its owner does not have its value. */
  ghost predicate Astray(c: Nodes, node: Id, k: string, slot: SlotFn, g: Db) {
    && node in c && k !in c[node].keys
    && exists id :: id in c && id != node && Owns(c[id], k, slot) && P.Get(c[id].db, k) != P.Get(g, k)
  }

  lemma {:induction false} SameSends(db: Db, db': Db, ks: seq<string>, walk: Walk)
    requires forall k :: k in ks ==> k in db && k in db' && db[k] == db'[k]
    ensures AllSends(db, ks, walk) == AllSends(db', ks, walk)
    decreases |ks|
  {
    if ks != [] {
      SameSends(db, db', ks[..|ks| - 1], walk);
    }
  }

  /** The keys that move are some of the node's, with the values they had. */
  lemma MovedStill(n: Node, was: Node, rm: seq<Slot>, walk: Walk, slot: SlotFn, ks: seq<string>)
    requires Walks(walk) && StillAs(n, was) && ks == walk(MovedKeys(n.keys, rm, slot))
    requires forall k {:trigger Movable(was.db, k, walk)} :: k in was.keys ==> Movable(was.db, k, walk)
    ensures Distinct(ks) && Elements(ks) == MovedKeys(n.keys, rm, slot) && Elements(ks) <= was.keys
    ensures AllMovable(was.db, ks, walk) && AllSends(n.db, ks, walk) == AllSends(was.db, ks, walk)
  {
    assert Elements(ks) == MovedKeys(n.keys, rm, slot);
    forall k | k in ks
      ensures k in n.keys && Movable(was.db, k, walk)
    {
      assert k in Elements(ks);
    }
    SameSends(n.db, was.db, ks, walk);
  }

  /** What the receiving node has under such a key. */
  lemma HopelessThere(c: Nodes, node: Id, num: int, dst: Id, walk: Walk, slot: SlotFn, was: Node, k: string)
    requires SlotsOk(c) && node in c && dst in c && node != dst && Walks(walk) && StillAs(c[node], was)
    requires forall j {:trigger Movable(was.db, j, walk)} :: j in was.keys ==> Movable(was.db, j, walk)
    requires Hopeless(was.db, was.keys, k)
    ensures var rm, v := c[node].slots[..Quota(num, |c[node].slots|)], P.Get(MigratedBy(c, node, num, dst, walk, slot)[dst].db, k);
            && (k in MovedKeys(c[node].keys, rm, slot) ==> (k !in c[dst].db ==> v != P.Get(was.db, k)))
            && (k !in MovedKeys(c[node].keys, rm, slot) ==> v == P.Get(c[dst].db, k))
  {
    var n, d, t := c[node], c[dst], Quota(num, |c[node].slots|);
    var moved := MovedKeys(n.keys, n.slots[..t], slot);
    var ks := walk(moved);
    MovedStill(n, was, n.slots[..t], walk, slot, ks);
    assert k in ks <==> k in Elements(ks);
    HopelessStays(P.Get(d.db, k), was.db, was.keys, k, ks, walk);
    var d' := d.(slots := AddSlots(d.slots, n.slots[..t]));
    DeliverLocal(d', AllSends(n.db, ks, walk), slot, k);
    if k in moved {
      SlotsThere(c, node, num, dst, walk, slot);
      assert Owns(d', k, slot);
    }
  }

  lemma SourceStill(n: Node, t: nat, slot: SlotFn, was: Node)
    requires StillAs(n, was) && t <= |n.slots|
    ensures StillAs(Source(n, t, slot), was)
  {
  }

  lemma HomeKept(c: Nodes, c': Nodes, node: Id, dst: Id, t: nat, slot: SlotFn, k: string)
    requires Took(c, c', node, dst, t, slot) && AtHome(c, node, k, slot) && slot(k) !in c[node].slots[..t]
    requires P.Get(c'[dst].db, k) == P.Get(c[dst].db, k)
    ensures AtHome(c', node, k, slot)
  {
    var s := c[node].slots;
    assert s == s[..t] + s[t..];
    assert k !in c[dst].db && !Owns(c[dst], k, slot);
  }

  lemma HomeLeft(c: Nodes, c': Nodes, node: Id, dst: Id, t: nat, slot: SlotFn, k: string, g: Db)
    requires Took(c, c', node, dst, t, slot) && AtHome(c, node, k, slot) && slot(k) in c[node].slots[..t]
    requires P.Get(c'[dst].db, k) != P.Get(g, k)
    ensures Astray(c', node, k, slot, g)
  {
    assert k in MovedKeys(c[node].keys, c[node].slots[..t], slot);
    assert Owns(c'[dst], k, slot);
  }

  lemma AstrayKept(c: Nodes, c': Nodes, node: Id, dst: Id, t: nat, slot: SlotFn, k: string, g: Db)
    requires Took(c, c', node, dst, t, slot) && Astray(c, node, k, slot, g)
    requires P.Get(c'[dst].db, k) == P.Get(c[dst].db, k)
    ensures Astray(c', node, k, slot, g)
  {
    var id :| id in c && id != node && Owns(c[id], k, slot) && P.Get(c[id].db, k) != P.Get(g, k);
    assert Owns(c'[id], k, slot) && P.Get(c'[id].db, k) == P.Get(c[id].db, k);
  }

  /** A key that cannot arrive stays on its node, or goes astray and stays so. */
  lemma HopelessStep(c: Nodes, node: Id, num: int, dst: Id, walk: Walk, slot: SlotFn, was: Node, k: string, g: Db)
    requires SlotsOk(c) && node in c && dst in c && node != dst && Walks(walk) && StillAs(c[node], was)
    requires forall j {:trigger Movable(was.db, j, walk)} :: j in was.keys ==> Movable(was.db, j, walk)
    requires Hopeless(was.db, was.keys, k) && P.Get(g, k) == P.Get(was.db, k)
    requires AtHome(c, node, k, slot) || Astray(c, node, k, slot, g)
    ensures var c' := MigratedBy(c, node, num, dst, walk, slot);
            StillAs(c'[node], was) && (AtHome(c', node, k, slot) || Astray(c', node, k, slot, g))
  {
    var n, t, c' := c[node], Quota(num, |c[node].slots|), MigratedBy(c, node, num, dst, walk, slot);
    MigratedBySlots(c, node, num, dst, walk, slot);
    HopelessThere(c, node, num, dst, walk, slot, was, k);
    SourceStill(n, t, slot, was);
    if Astray(c, node, k, slot, g) {
      AstrayKept(c, c', node, dst, t, slot, k, g);
    } else if slot(k) in n.slots[..t] {
      assert k in MovedKeys(n.keys, n.slots[..t], slot);
      HomeLeft(c, c', node, dst, t, slot, k, g);
    } else {
      HomeKept(c, c', node, dst, t, slot, k);
    }
  }
}
