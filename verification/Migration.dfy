/** Moving slots, and the keys in them, from one node to another (keyshard.rb, localnode.rb). */
module Migration {
  import opened Options
  import opened Rows
  import opened Sequences
  import opened Store
  import opened Wire
  import opened Sharding
  import A = Arrival
  import H = Hearing
  import P = Persistence

  // ----- the shard of one node

  /** How many of n slots a request for num takes. */
  function Quota(num: int, n: nat): (t: nat)
    ensures t <= n && (num <= 0 ==> t == 0) && (0 <= num <= n ==> t == num) && (num >= n ==> t == n)
  {
    if num <= 0 then 0 else if num < n then num else n
  }

  /** The keys of a node that lie in the given slots. */
  function MovedKeys(keys: set<string>, rm: seq<Slot>, slot: SlotFn): set<string> {
    set k | k in keys && slot(k) in rm
  }

  class KeyShard {
    var slots: seq<Slot>
    var keys: set<string>

    constructor (slots: seq<Slot>, keys: set<string>)
      ensures this.slots == slots && this.keys == keys
    {
      this.slots, this.keys := slots, keys;
    }

    /** Every key of the set lies in one of the shard's slots. */
    ghost predicate Placed(slot: SlotFn)
      reads this
    {
      forall k :: k in keys ==> slot(k) in slots
    }

    /** KeyShard#add_key: a key of another shard is not taken in. */
    method AddKey(k: string, slot: SlotFn)
      modifies this`keys
      ensures k in keys <==> k in old(keys) || slot(k) in slots
      ensures forall j :: j != k ==> (j in keys <==> j in old(keys))
      ensures old(Placed(slot)) ==> Placed(slot)
    {
      if slot(k) in slots {
        keys := keys + {k};
      }
    }

    /** KeyShard#del_key. */
    method DelKey(k: string, ghost slot: SlotFn)
      modifies this`keys
      ensures k !in keys && forall j :: j != k ==> (j in keys <==> j in old(keys))
      ensures old(Placed(slot)) ==> Placed(slot)
    {
      keys := keys - {k};
    }

    /** KeyShard#reshard: the first num slots go, and the keys in them. */
    method Reshard(num: int, slot: SlotFn) returns (rm: seq<Slot>, rmkeys: set<string>)
      modifies this
      ensures rm + slots == old(slots)
      ensures (num <= 0 ==> rm == []) && (num >= |old(slots)| ==> rm == old(slots))
      ensures 0 <= num <= |old(slots)| ==> |rm| == num
      ensures forall k :: k in rmkeys <==> k in old(keys) && slot(k) in rm
      ensures keys == old(keys) - rmkeys
      ensures rm == old(slots)[..Quota(num, |old(slots)|)] && rmkeys == MovedKeys(old(keys), rm, slot)
    {
      var kept;
      rm, kept := TakeSlots(slots, num);
      slots := kept;
      rmkeys := KeysIn(keys, rm, slot);
      keys := keys - rmkeys;
    }
  }

  method TakeSlots(all: seq<Slot>, num: int) returns (rm: seq<Slot>, kept: seq<Slot>)
    ensures rm == all[..Quota(num, |all|)] && kept == all[Quota(num, |all|)..]
  {
    var left := num;
    rm, kept := [], [];
    for i := 0 to |all|
      invariant left == num - i
      invariant rm == all[..Quota(num, i)] && kept == all[Quota(num, i)..i]
    {
      left := left - 1;
      if left >= 0 {
        rm := rm + [all[i]];
      } else {
        kept := kept + [all[i]];
      }
    }
  }

  method KeysIn(keys: set<string>, rm: seq<Slot>, slot: SlotFn) returns (rmkeys: set<string>)
    ensures rmkeys == MovedKeys(keys, rm, slot)
  {
    rmkeys := {};
    var rest := keys;
    while rest != {}
      invariant rest <= keys && rmkeys == MovedKeys(keys - rest, rm, slot)
      decreases |rest|
    {
      var k :| k in rest;
      rest := rest - {k};
      if slot(k) in rm {
        rmkeys := rmkeys + {k};
      }
    }
    assert keys - rest == keys;
  }

  /** Command#exec: the key set is told what became of the key. */
  method Tell(shard: KeyShard, note: Note, k: string, slot: SlotFn, ghost n: Node)
    requires shard.slots == n.slots && shard.keys == n.keys
    modifies shard`keys
    ensures shard.keys == KeysAfter(n, k, note, slot)
  {
    match note {
      case Added => shard.AddKey(k, slot);
      case Removed => shard.DelKey(k, slot);
      case Kept =>
    }
  }

  /** A command at the node it runs on: the database changes, and the key set is told. */
  method RunHere(n: Node, c: Command, slot: SlotFn) returns (n': Node, reply: Reply)
    ensures n' == RunAt(n, c, slot) && reply == Exec(c, P.Get(n.db, c.key)).reply
    ensures NodeOk(n, slot) && !Illegal(c.key) && Owns(n, c.key, slot) ==> NodeOk(n', slot)
  {
    var shard := new KeyShard(n.slots, n.keys);
    var e := Exec(c, P.Get(n.db, c.key));
    Tell(shard, e.note, c.key, slot, n);
    n', reply := Node(shard.slots, shard.keys, P.Put(n.db, c.key, e.value)), e.reply;
    if NodeOk(n, slot) && !Illegal(c.key) && Owns(n, c.key, slot) {
      RunAtKeeps(n, c, slot);
    }
  }

  // ----- queries to another node

  /**
   cluster_query: the other node runs the command it reads, if the key it reads is its own;
   where it sends a command for another key is not part of its state.
   */
  function Delivered(n: Node, cmd: Command, slot: SlotFn): Node {
    RunRead(n, Received(cmd), slot)
  }

  function RunRead(n: Node, x: Option<Command>, slot: SlotFn): Node {
    if x.Some? && Owns(n, x.value.key, slot) then RunAt(n, x.value, slot) else n
  }

  function RunAll(n: Node, xs: seq<Option<Command>>, slot: SlotFn): Node {
    if xs == [] then n else RunRead(RunAll(n, xs[..|xs| - 1], slot), xs[|xs| - 1], slot)
  }

  function DeliverAll(n: Node, cs: seq<Command>, slot: SlotFn): Node {
    RunAll(n, H.Reads(cs), slot)
  }

  lemma DeliverOne(n: Node, cs: seq<Command>, i: nat, slot: SlotFn)
    requires i < |cs|
    ensures DeliverAll(n, cs[..i + 1], slot) == Delivered(DeliverAll(n, cs[..i], slot), cs[i], slot)
  {
    H.ReadsOne(cs, i, Received(cs[i]));
    RunOne(n, H.Reads(cs[..i]), Received(cs[i]), slot);
  }

  lemma RunOne(n: Node, xs: seq<Option<Command>>, x: Option<Command>, slot: SlotFn)
    ensures RunAll(n, xs + [x], slot) == RunRead(RunAll(n, xs, slot), x, slot)
  {
    assert (xs + [x])[..|xs|] == xs;
  }

  lemma {:induction false} RunBoth(n: Node, xs: seq<Option<Command>>, ys: seq<Option<Command>>, slot: SlotFn)
    ensures RunAll(n, xs + ys, slot) == RunAll(RunAll(n, xs, slot), ys, slot)
    decreases |ys|
  {
    if ys == [] {
      assert xs + ys == xs;
    } else {
      var init, y := ys[..|ys| - 1], ys[|ys| - 1];
      RunBoth(n, xs, init, slot);
      RunOne(n, xs + init, y, slot);
      assert xs + ys == (xs + init) + [y];
    }
  }

  lemma DeliverBoth(n: Node, cs: seq<Command>, ds: seq<Command>, slot: SlotFn)
    ensures DeliverAll(n, cs + ds, slot) == DeliverAll(DeliverAll(n, cs, slot), ds, slot)
  {
    H.ReadsBoth(cs, ds);
    RunBoth(n, H.Reads(cs), H.Reads(ds), slot);
  }

  method Send(n: Node, cmd: Command, slot: SlotFn) returns (n': Node)
    ensures n' == Delivered(n, cmd, slot)
  {
    n' := n;
    var read := Received(cmd);
    if read.Some? && Owns(n, read.value.key, slot) {
      var reply;
      n', reply := RunHere(n, read.value, slot);
    }
  }

  method SendList(n: Node, key: string, items: seq<string>, slot: SlotFn) returns (n': Node)
    ensures n' == DeliverAll(n, H.Pushes(key, items), slot)
  {
    n' := n;
    ghost var cs := H.Pushes(key, items);
    for i := 0 to |items|
      invariant n' == DeliverAll(n, cs[..i], slot)
    {
      DeliverOne(n, cs, i, slot);
      n' := Send(n', LPush(key, items[i]), slot);
    }
    assert cs[..|items|] == cs;
  }

  method SendHashmap(n: Node, key: string, fields: map<string, string>, fs: seq<string>, slot: SlotFn) returns (n': Node)
    ensures n' == DeliverAll(n, H.FieldAdds(key, fields, fs), slot)
  {
    n' := n;
    ghost var cs := H.FieldAdds(key, fields, fs);
    for i := 0 to |fs|
      invariant n' == DeliverAll(n, cs[..i], slot)
    {
      DeliverOne(n, cs, i, slot);
      n' := Send(n', MAdd(key, fs[i], H.TextOf(fields, fs[i])), slot);
    }
    assert cs[..|fs|] == cs;
  }

  method SendSet(n: Node, key: string, ms: seq<string>, slot: SlotFn) returns (n': Node)
    ensures n' == DeliverAll(n, H.MemberAdds(key, ms), slot)
  {
    n' := n;
    ghost var cs := H.MemberAdds(key, ms);
    for i := 0 to |ms|
      invariant n' == DeliverAll(n, cs[..i], slot)
    {
      DeliverOne(n, cs, i, slot);
      n' := Send(n', SAdd(key, [ms[i]]), slot);
    }
    assert cs[..|ms|] == cs;
  }

  lemma DeliverAlone(n: Node, c: Command, slot: SlotFn)
    ensures DeliverAll(n, [c], slot) == Delivered(n, c, slot)
  {
    assert [c][..0] == [] && [c][..1] == [c];
    DeliverOne(n, [c], 0, slot);
  }

  /** The queries for one key. */
  method SendValue(n: Node, key: string, v: Value, walk: H.Walk, slot: SlotFn) returns (n': Node)
    ensures n' == DeliverAll(n, H.Sends(key, v, walk), slot)
  {
    match v {
      case Str(text) =>
        n' := Send(n, Set(key, text), slot);
        DeliverAlone(n, Set(key, text), slot);
      case List(items) => n' := SendList(n, key, items, slot);
      case Hashmap(fields) => n' := SendHashmap(n, key, fields, walk(fields.Keys), slot);
      case Members(keys) => n' := SendSet(n, key, walk(keys), slot);
    }
  }

  // ----- migrate

  function PartOf(db: Db, ks: set<string>): Db {
    map k | k in db && k in ks :: db[k]
  }

  function Source(n: Node, t: nat, slot: SlotFn): Node
    requires t <= |n.slots|
  {
    var ks := MovedKeys(n.keys, n.slots[..t], slot);
    Node(n.slots[t..], n.keys - ks, n.db - ks)
  }

  function Target(d: Node, n: Node, t: nat, slot: SlotFn): Node
    requires t <= |n.slots|
  {
    var ks := MovedKeys(n.keys, n.slots[..t], slot);
    Node(d.slots + n.slots[..t], d.keys + ks, d.db + PartOf(n.db, ks))
  }

  /** The cluster after self has migrated num slots to dst. */
  function Migrated(c: Nodes, self: Id, num: int, dst: Id, slot: SlotFn): Nodes
    requires self in c && dst in c
  {
    var t := Quota(num, |c[self].slots|);
    c[self := Source(c[self], t, slot)][dst := Target(c[dst], c[self], t, slot)]
  }

  lemma SplitSlot(s: seq<Slot>, t: nat, x: Slot)
    requires t <= |s| && Distinct(s)
    ensures x in s <==> x in s[..t] || x in s[t..]
    ensures !(x in s[..t] && x in s[t..])
    ensures Distinct(s[..t]) && Distinct(s[t..])
  {
    assert s == s[..t] + s[t..];
  }

  lemma SourceOk(n: Node, t: nat, slot: SlotFn)
    requires NodeOk(n, slot) && t <= |n.slots|
    ensures NodeOk(Source(n, t, slot), slot)
  {
    var n' := Source(n, t, slot);
    forall k
      ensures KeyOk(n', k, slot)
    {
      assert KeyOk(n, k, slot);
      SplitSlot(n.slots, t, slot(k));
    }
    SplitSlot(n.slots, t, "");
  }

  lemma JoinSlots(a: seq<Slot>, b: seq<Slot>)
    requires Distinct(a) && Distinct(b) && forall i :: 0 <= i < |a| ==> a[i] !in b
    ensures Distinct(a + b)
  {
    var s := a + b;
    forall i, j | 0 <= i < j < |s|
      ensures s[i] != s[j]
    {
      if i < |a| <= j {
        assert s[j] == b[j - |a|];
        assert s[j] in b;
      }
    }
  }

  lemma TargetKey(d: Node, n: Node, t: nat, slot: SlotFn, k: string)
    requires NodeOk(d, slot) && NodeOk(n, slot) && Apart(d, n) && t <= |n.slots|
    ensures KeyOk(Target(d, n, t, slot), k, slot)
  {
    assert KeyOk(d, k, slot) && KeyOk(n, k, slot);
    SplitSlot(n.slots, t, slot(k));
  }

  lemma TargetOk(d: Node, n: Node, t: nat, slot: SlotFn)
    requires NodeOk(d, slot) && NodeOk(n, slot) && Apart(d, n) && t <= |n.slots|
    ensures NodeOk(Target(d, n, t, slot), slot)
  {
    forall k
      ensures KeyOk(Target(d, n, t, slot), k, slot)
    {
      TargetKey(d, n, t, slot, k);
    }
    SplitSlot(n.slots, t, "");
    assert forall i :: 0 <= i < |d.slots| ==> d.slots[i] !in n.slots[..t];
    JoinSlots(d.slots, n.slots[..t]);
  }

  /** Slots only change hands between the two nodes. */
  lemma ApartAfter(n: Node, d: Node, b: Node, t: nat, slot: SlotFn)
    requires Distinct(n.slots) && Apart(n, d) && Apart(d, n) && t <= |n.slots|
    ensures Apart(Source(n, t, slot), Target(d, n, t, slot)) && Apart(Target(d, n, t, slot), Source(n, t, slot))
    ensures Apart(n, b) && Apart(b, n) ==> Apart(Source(n, t, slot), b) && Apart(b, Source(n, t, slot))
    ensures Apart(n, b) && Apart(b, n) && Apart(d, b) && Apart(b, d) ==>
      Apart(Target(d, n, t, slot), b) && Apart(b, Target(d, n, t, slot))
  {
  }

  lemma MigratedInv(c: Nodes, self: Id, num: int, dst: Id, slot: SlotFn)
    requires Inv(c, slot) && self in c && dst in c && self != dst
    ensures Inv(Migrated(c, self, num, dst, slot), slot)
  {
    var t, c' := Quota(num, |c[self].slots|), Migrated(c, self, num, dst, slot);
    assert NodeOk(c[self], slot) && NodeOk(c[dst], slot) && Apart(c[self], c[dst]) && Apart(c[dst], c[self]);
    forall id | id in c'
      ensures NodeOk(c'[id], slot)
    {
      assert NodeOk(c[id], slot);
      SourceOk(c[self], t, slot);
      TargetOk(c[dst], c[self], t, slot);
    }
    forall a, b | a in c' && b in c' && a != b
      ensures Apart(c'[a], c'[b])
    {
      assert Apart(c[a], c[b]) && Apart(c[b], c[a]);
      var o := if a == self || a == dst then b else a;
      assert o == self || o == dst || (Apart(c[self], c[o]) && Apart(c[o], c[self]) && Apart(c[dst], c[o]) && Apart(c[o], c[dst]));
      ApartAfter(c[self], c[dst], c[o], t, slot);
    }
  }

  /** Whether a node owns a key, before and after. */
  lemma OwnsAfter(n: Node, d: Node, t: nat, slot: SlotFn, k: string)
    requires Distinct(n.slots) && t <= |n.slots|
    ensures Owns(Source(n, t, slot), k, slot) <==> Owns(n, k, slot) && slot(k) !in n.slots[..t]
    ensures Owns(Target(d, n, t, slot), k, slot) <==> Owns(d, k, slot) || slot(k) in n.slots[..t]
    ensures slot(k) in n.slots[..t] ==> Owns(n, k, slot)
  {
    SplitSlot(n.slots, t, slot(k));
  }

  /** The value of a key is where its slot is. */
  lemma ValueAfter(n: Node, d: Node, t: nat, slot: SlotFn, k: string)
    requires NodeOk(n, slot) && NodeOk(d, slot) && Apart(n, d) && Apart(d, n) && t <= |n.slots| && !Illegal(k)
    ensures Owns(Source(n, t, slot), k, slot) ==> P.Get(Source(n, t, slot).db, k) == P.Get(n.db, k)
    ensures slot(k) in n.slots[..t] ==> P.Get(Target(d, n, t, slot).db, k) == P.Get(n.db, k)
    ensures Owns(d, k, slot) ==> P.Get(Target(d, n, t, slot).db, k) == P.Get(d.db, k)
  {
    assert KeyOk(n, k, slot) && KeyOk(d, k, slot);
    OwnsAfter(n, d, t, slot, k);
  }

  lemma MigratedShowsKey(c: Nodes, self: Id, num: int, dst: Id, slot: SlotFn, g: Db, k: string)
    requires Inv(c, slot) && self in c && dst in c && self != dst && ShowsKey(c, slot, g, k)
    ensures ShowsKey(Migrated(c, self, num, dst, slot), slot, g, k)
  {
    if !Illegal(k) {
      var t, c' := Quota(num, |c[self].slots|), Migrated(c, self, num, dst, slot);
      assert NodeOk(c[self], slot) && NodeOk(c[dst], slot) && Apart(c[self], c[dst]) && Apart(c[dst], c[self]);
      OwnsAfter(c[self], c[dst], t, slot, k);
      ValueAfter(c[self], c[dst], t, slot, k);
      forall id | id in c' && Owns(c'[id], k, slot)
        ensures P.Get(c'[id].db, k) == P.Get(g, k)
      {
        assert id != self && id != dst ==> c'[id] == c[id];
      }
      if forall id :: id in c' ==> !Owns(c'[id], k, slot) {
        forall id | id in c
          ensures !Owns(c[id], k, slot)
        {
          assert !Owns(c'[id], k, slot) && !Owns(c'[dst], k, slot);
        }
      }
    }
  }

  /** The slots of the whole cluster. */
  ghost predicate HasSlot(c: Nodes, s: Slot) {
    exists id :: id in c && s in c[id].slots
  }

  lemma SlotStays(c: Nodes, self: Id, num: int, dst: Id, slot: SlotFn, s: Slot)
    requires Inv(c, slot) && self in c && dst in c && self != dst
    ensures HasSlot(Migrated(c, self, num, dst, slot), s) <==> HasSlot(c, s)
  {
    var t, c' := Quota(num, |c[self].slots|), Migrated(c, self, num, dst, slot);
    assert NodeOk(c[self], slot);
    SplitSlot(c[self].slots, t, s);
    if id :| id in c && s in c[id].slots {
      assert s in c'[if id == self && s in c[self].slots[..t] then dst else id].slots;
    }
    if id :| id in c' && s in c'[id].slots {
      assert s in c[if id == dst && s !in c[dst].slots then self else id].slots;
    }
  }

  /**
   A migration to another node keeps what the whole cluster holds, list order included,
   and its slots; every key lies on the node of its slot and every key set is right.
   */
  lemma MigratedKeeps(c: Nodes, self: Id, num: int, dst: Id, slot: SlotFn, g: Db)
    requires Inv(c, slot) && Shows(c, slot, g) && self in c && dst in c && self != dst
    ensures var c' := Migrated(c, self, num, dst, slot);
            && Inv(c', slot) && Shows(c', slot, g) && (forall s :: HasSlot(c', s) <==> HasSlot(c, s))
            && |c'[self].slots| + |c'[dst].slots| == |c[self].slots| + |c[dst].slots|
            && (num <= 0 ==> |c'[self].slots| == |c[self].slots|) && (num >= |c[self].slots| ==> c'[self].slots == [])
            && (0 <= num <= |c[self].slots| ==> |c'[self].slots| == |c[self].slots| - num)
  {
    var c' := Migrated(c, self, num, dst, slot);
    MigratedInv(c, self, num, dst, slot);
    forall k
      ensures ShowsKey(c', slot, g, k)
    {
      assert ShowsKey(c, slot, g, k);
      MigratedShowsKey(c, self, num, dst, slot, g, k);
    }
    forall s
      ensures HasSlot(c', s) <==> HasSlot(c, s)
    {
      SlotStays(c, self, num, dst, slot, s);
    }
  }

  /** What could be sent before can be sent on. */
  lemma MigratedSendable(c: Nodes, self: Id, num: int, dst: Id, slot: SlotFn, id: Id)
    requires self in c && dst in c && self != dst && id in c && NodeSendable(c[self]) && NodeSendable(c[id])
    ensures NodeSendable(Migrated(c, self, num, dst, slot)[id])
  {
    var n := Migrated(c, self, num, dst, slot)[id];
    forall k
      ensures KeySendable(n, k)
    {
      assert KeySendable(c[self], k) && KeySendable(c[id], k);
    }
  }

  /** Set#+ in the order of insertion. */
  function AddSlots(slots: seq<Slot>, more: seq<Slot>): seq<Slot> {
    if more == [] then slots
    else
      var s := AddSlots(slots, more[..|more| - 1]);
      if more[|more| - 1] in s then s else s + [more[|more| - 1]]
  }

  lemma {:induction false} AddSlotsApart(slots: seq<Slot>, more: seq<Slot>)
    requires Distinct(more) && forall i :: 0 <= i < |more| ==> more[i] !in slots
    ensures AddSlots(slots, more) == slots + more
  {
    if more != [] {
      var init := more[..|more| - 1];
      AddSlotsApart(slots, init);
      assert more[|more| - 1] !in slots + init;
      assert slots + more == slots + init + [more[|more| - 1]];
    }
  }

  /** The loop over the keys: each is sent and then deleted here. */
  method MoveKeys(db: Db, d: Node, ks: seq<string>, walk: H.Walk, slot: SlotFn) returns (there: Node, here: Db)
    requires Distinct(ks)
    ensures there == DeliverAll(d, A.AllSends(db, ks, walk), slot) && here == db - Elements(ks)
  {
    there, here := d, db;
    for i := 0 to |ks|
      invariant there == DeliverAll(d, A.AllSends(db, ks[..i], walk), slot) && here == db - Elements(ks[..i])
    {
      KeyStillHere(db, ks, i);
      SendNext(d, db, ks, i, walk, slot);
      if ks[i] in here {
        there := SendValue(there, ks[i], here[ks[i]], walk, slot);
      } else {
        NothingSent(there, A.SendsOf(db, ks[i], walk), slot);
      }
      here := here - {ks[i]};
    }
    assert ks[..|ks|] == ks;
  }

  lemma KeyStillHere(db: Db, ks: seq<string>, i: nat)
    requires Distinct(ks) && i < |ks|
    ensures var here := db - Elements(ks[..i]);
            && (ks[i] in here <==> ks[i] in db) && (ks[i] in here ==> here[ks[i]] == db[ks[i]])
            && here - {ks[i]} == db - Elements(ks[..i + 1])
  {
    ElementsSnoc(ks, i);
  }

  lemma SendNext(d: Node, db: Db, ks: seq<string>, i: nat, walk: H.Walk, slot: SlotFn)
    requires i < |ks|
    ensures DeliverAll(d, A.AllSends(db, ks[..i + 1], walk), slot)
         == DeliverAll(DeliverAll(d, A.AllSends(db, ks[..i], walk), slot), A.SendsOf(db, ks[i], walk), slot)
  {
    A.SendsNext(db, ks, i, walk);
    DeliverBoth(d, A.AllSends(db, ks[..i], walk), A.SendsOf(db, ks[i], walk), slot);
  }

  lemma NothingSent(d: Node, cs: seq<Command>, slot: SlotFn)
    requires cs == []
    ensures DeliverAll(d, cs, slot) == d
  {
  }

  /** The keys in the given slots, and their values, can be sent. */
  ghost predicate CanMove(n: Node, rm: seq<Slot>, slot: SlotFn) {
    forall k {:trigger A.Carried(n.db, k)} :: k in MovedKeys(n.keys, rm, slot) ==> A.Carried(n.db, k)
  }

  /** The cluster after self has sent num slots, and what is in them, to dst. */
  function MigratedBy(c: Nodes, self: Id, num: int, dst: Id, walk: H.Walk, slot: SlotFn): Nodes
    requires self in c && dst in c
  {
    var n, d, t := c[self], c[dst], Quota(num, |c[self].slots|);
    var ks := walk(MovedKeys(n.keys, n.slots[..t], slot));
    c[self := Source(n, t, slot)]
     [dst := DeliverAll(d.(slots := AddSlots(d.slots, n.slots[..t])), A.AllSends(n.db, ks, walk), slot)]
  }

  /** LocalNode#migrate to another node of the cluster. */
  method Migrate(c: Nodes, self: Id, num: int, dst: Id, walk: H.Walk, slot: SlotFn) returns (c': Nodes)
    requires self in c && dst in c && self != dst && H.Walks(walk)
    ensures c' == MigratedBy(c, self, num, dst, walk, slot)
  {
    var n, d := c[self], c[dst];
    var shard := new KeyShard(n.slots, n.keys);
    var rm, rmkeys := shard.Reshard(num, slot);
    var ks := walk(rmkeys);
    assert Distinct(ks) && Elements(ks) == rmkeys;
    var there, here := MoveKeys(n.db, d.(slots := AddSlots(d.slots, rm)), ks, walk, slot);
    c' := c[self := Node(shard.slots, shard.keys, here)][dst := there];
  }
}
