/** LocalNode#migrate with the node itself as destination: its queries come back to it. */
module SelfMigration {
  import opened Options
  import opened Rows
  import opened Sequences
  import opened Store
  import opened Wire
  import opened Sharding
  import opened Migration
  import P = Persistence
  import A = Arrival

  // ----- a list

  /**
   The node after i rounds of the loop over its own list: round i has pushed the item at
   position i - 1 of the list as it then was. Position i is always there for the next round,
   so the loop has no last round.
   */
  function OwnRounds(n: Node, key: string, i: nat, slot: SlotFn): (r: Node)
    requires key in n.db && n.db[key].List? && n.db[key].items != []
    ensures key in r.db && r.db[key].List? && |r.db[key].items| == |n.db[key].items| + i > i
  {
    if i == 0 then n
    else
      var before := OwnRounds(n, key, i - 1, slot);
      RunAt(before, LPush(key, before.db[key].items[i - 1]), slot)
  }

  // ----- any other value

  /** A query that migrate sends for part of a value. */
  predicate Resends(c: Command, v: Value) {
    match v
    case Str(text) => c.Set? && c.data == text
    case Hashmap(fields) => c.MAdd? && c.hkey in fields && c.data == fields[c.hkey]
    case Members(keys) => c.SAdd? && |c.skeys| == 1 && c.skeys[0] in keys
    case List(_) => false
  }

  lemma SameAgain(c: Command, v: Value)
    requires Resends(c, v)
    ensures Exec(c, Some(v)).value == Some(v) && Exec(c, Some(v)).note == Added
  {
    match v {
      case Str(_) =>
      case Hashmap(fields) =>
        assert fields[c.hkey := c.data] == fields;
      case Members(keys) =>
        assert c.skeys == [c.skeys[0]];
        assert keys + Elements(c.skeys) == keys;
    }
  }

  /** The key is in the key set again. */
  function Noted(n: Node, key: string): Node {
    n.(keys := n.keys + {key})
  }

  lemma RunAdded(n: Node, c: Command, v: Value, slot: SlotFn)
    requires Owns(n, c.key, slot) && Exec(c, P.Get(n.db, c.key)).value == Some(v)
    requires Exec(c, P.Get(n.db, c.key)).note == Added
    ensures RunAt(n, c, slot) == n.(db := n.db[c.key := v], keys := n.keys + {c.key})
  {
  }

  /** Part of a value sent to the node that has it leaves the value, and notes the key. */
  lemma ResendNotes(n: Node, c: Command, slot: SlotFn)
    requires c.key in n.db && Owns(n, c.key, slot) && Resends(c, n.db[c.key])
    ensures RunAt(n, c, slot) == Noted(n, c.key)
  {
    var v := n.db[c.key];
    SameAgain(c, v);
    RunAdded(n, c, v, slot);
    assert n.db[c.key := v] == n.db;
  }

  method Resend(n: Node, c: Command, slot: SlotFn) returns (n': Node)
    requires c.key in n.db && Owns(n, c.key, slot) && Resends(c, n.db[c.key]) && Speakable(c)
    ensures n' == Noted(n, c.key)
  {
    ResendNotes(n, c, slot);
    SpeakableTravels(c);
    n' := Send(n, c, slot);
  }

  method ResendField(n: Node, key: string, fields: map<string, string>, k: string, slot: SlotFn) returns (n': Node)
    requires key in n.db && n.db[key] == Hashmap(fields) && Owns(n, key, slot)
    requires PlainWord(key) && Sendable(Hashmap(fields)) && k in fields
    ensures n' == Noted(n, key)
  {
    FieldSpeaks(key, k, fields[k]);
    n' := Resend(n, MAdd(key, k, fields[k]), slot);
  }

  lemma FieldSpeaks(key: string, k: string, data: string)
    requires PlainWord(key) && PlainWord(k) && PlainText(data)
    ensures Speakable(MAdd(key, k, data))
  {
    var c := MAdd(key, k, data);
    assert Bare(c) == [key, k] && Quoted(c) == [data];
  }

  method ResendHashmap(n: Node, key: string, fields: map<string, string>, slot: SlotFn) returns (n': Node)
    requires key in n.db && n.db[key] == Hashmap(fields) && Owns(n, key, slot)
    requires PlainWord(key) && Sendable(Hashmap(fields)) && fields != map[]
    ensures n' == Noted(n, key)
  {
    n' := n;
    var left := fields.Keys;
    while left != {}
      invariant left <= fields.Keys && n' == if left == fields.Keys then n else Noted(n, key)
      decreases |left|
    {
      var k :| k in left;
      n' := ResendField(n', key, fields, k, slot);
      left := left - {k};
    }
  }

  method ResendSet(n: Node, key: string, keys: set<string>, slot: SlotFn) returns (n': Node)
    requires key in n.db && n.db[key] == Members(keys) && Owns(n, key, slot)
    requires PlainWord(key) && Sendable(Members(keys)) && keys != {}
    ensures n' == Noted(n, key)
  {
    n' := n;
    var left := keys;
    while left != {}
      invariant left <= keys && n' == if left == keys then n else Noted(n, key)
      decreases |left|
    {
      var k :| k in left;
      n' := Resend(n', SAdd(key, [k]), slot);
      left := left - {k};
    }
  }

  /** A key that can be sent, of a node that owns it. */
  ghost predicate Movable(n: Node, k: string, slot: SlotFn) {
    k in n.db && Owns(n, k, slot) && PlainWord(k) && Sendable(n.db[k]) && Solid(Some(n.db[k]))
  }

  method ResendValue(n: Node, key: string, slot: SlotFn) returns (n': Node)
    requires Movable(n, key, slot) && !n.db[key].List?
    ensures n' == Noted(n, key)
  {
    match n.db[key] {
      case Str(text) => n' := Resend(n, Set(key, text), slot);
      case Hashmap(fields) => n' := ResendHashmap(n, key, fields, slot);
      case Members(keys) => n' := ResendSet(n, key, keys, slot);
    }
  }

  // ----- the loop over the keys

  /** The node once the keys of done have been sent and deleted. */
  function Gone(n: Node, done: set<string>): Node {
    n.(keys := n.keys + done, db := n.db - done)
  }

  method MoveOwnKey(n: Node, ghost start: Node, ghost done: set<string>, key: string, slot: SlotFn) returns (n': Node)
    requires n == Gone(start, done) && key !in done && Movable(start, key, slot) && !start.db[key].List?
    ensures n' == Gone(start, done + {key})
  {
    n' := ResendValue(n, key, slot);
    n' := n'.(db := n'.db - {key});
    GoneOne(start, done, key);
  }

  lemma NoneGone(n: Node)
    ensures Gone(n, {}) == n && !HoldsList(n, {})
  {
    assert n.db - {} == n.db;
  }

  lemma GoneOne(n: Node, done: set<string>, key: string)
    ensures Noted(Gone(n, done), key).(db := Gone(n, done).db - {key}) == Gone(n, done + {key})
  {
    assert n.keys + done + {key} == n.keys + (done + {key});
    assert (n.db - done) - {key} == n.db - (done + {key});
  }

  predicate ListAt(n: Node, k: string) {
    k in n.db && n.db[k].List?
  }

  ghost predicate HoldsList(n: Node, ks: set<string>) {
    exists k {:trigger ListAt(n, k)} :: k in ks && ListAt(n, k)
  }

  lemma StillThere(n: Node, done: set<string>, k: string)
    requires k in n.db && k !in done
    ensures k in Gone(n, done).db && Gone(n, done).db[k] == n.db[k]
  {
  }

  lemma NoMoreLists(n: Node, done: set<string>, k: string)
    requires !HoldsList(n, done) && !ListAt(n, k)
    ensures !HoldsList(n, done + {k})
  {
  }

  /** None where the loop meets a list: then it goes round for ever. */
  method MoveOwnKeys(n: Node, ks: set<string>, slot: SlotFn) returns (r: Option<Node>)
    requires forall k {:trigger Movable(n, k, slot)} :: k in ks ==> Movable(n, k, slot)
    ensures r == if HoldsList(n, ks) then None else Some(Gone(n, ks))
  {
    var n', left := n, ks;
    ghost var done: set<string> := {};
    NoneGone(n);
    while left != {}
      invariant left <= ks && done == ks - left && n' == Gone(n, done)
      invariant !HoldsList(n, done)
      decreases |left|
    {
      var k :| k in left;
      assert Movable(n, k, slot);
      StillThere(n, done, k);
      if n'.db[k].List? {
        assert ListAt(n, k);
        return None;
      }
      NoMoreLists(n, done, k);
      n' := MoveOwnKey(n', n, done, k, slot);
      left, done := left - {k}, done + {k};
    }
    assert done == ks;
    r := Some(n');
  }

  // ----- migrate

  /** What a migration of num slots of a node to itself comes to; None where it does not end. */
  ghost function OwnMigration(c: Nodes, self: Id, num: int, slot: SlotFn): Option<Nodes>
    requires self in c
  {
    var n, t := c[self], Quota(num, |c[self].slots|);
    var ks := MovedKeys(n.keys, n.slots[..t], slot);
    if HoldsList(n, ks) then None
    else Some(c[self := Node(n.slots[t..] + n.slots[..t], n.keys, n.db - ks)])
  }

  /** LocalNode#migrate to itself: the slots go and come back, then every key is sent and deleted. */
  method MigrateToSelf(c: Nodes, self: Id, num: int, slot: SlotFn) returns (r: Option<Nodes>)
    requires Inv(c, slot) && self in c
    requires CanMove(c[self], c[self].slots[..Quota(num, |c[self].slots|)], slot)
    ensures r == OwnMigration(c, self, num, slot)
  {
    var n := c[self];
    assert NodeOk(n, slot);
    var shard := new KeyShard(n.slots, n.keys);
    var rm, ks := shard.Reshard(num, slot);
    TakenBack(n, |rm|);
    AddSlotsApart(shard.slots, rm);
    var start := Node(AddSlots(shard.slots, rm), shard.keys, n.db);
    OwnKeysMovable(n, start, rm, slot);
    var moved := MoveOwnKeys(start, ks, slot);
    SameLists(n, start, ks);
    BackAgain(n, ks);
    r := if moved.None? then None else Some(c[self := moved.value]);
  }

  lemma SameLists(n: Node, m: Node, ks: set<string>)
    requires n.db == m.db
    ensures HoldsList(n, ks) <==> HoldsList(m, ks)
  {
    assert forall k :: ListAt(n, k) == ListAt(m, k);
  }

  lemma BackAgain(n: Node, ks: set<string>)
    requires ks <= n.keys
    ensures n.keys - ks + ks == n.keys
  {
  }

  lemma TakenBack(n: Node, t: nat)
    requires Distinct(n.slots) && t <= |n.slots|
    ensures Distinct(n.slots[..t]) && forall i :: 0 <= i < t ==> n.slots[..t][i] !in n.slots[t..]
  {
  }

  lemma OwnKeysMovable(n: Node, start: Node, rm: seq<Slot>, slot: SlotFn)
    requires NodeOk(n, slot) && CanMove(n, rm, slot) && start.db == n.db
    requires forall i :: 0 <= i < |rm| ==> rm[i] in start.slots
    ensures forall k {:trigger Movable(start, k, slot)} :: k in MovedKeys(n.keys, rm, slot) ==> Movable(start, k, slot)
  {
    forall k | k in MovedKeys(n.keys, rm, slot)
      ensures Movable(start, k, slot)
    {
      assert KeyOk(n, k, slot) && A.Carried(n.db, k);
    }
  }

  /** It ends and keeps what the cluster holds exactly when no key lies in the slots it moves. */
  lemma ToSelfIff(c: Nodes, self: Id, num: int, slot: SlotFn, g: Db)
    requires Inv(c, slot) && Shows(c, slot, g) && self in c
    ensures var r, t := OwnMigration(c, self, num, slot), Quota(num, |c[self].slots|);
            (r.Some? && Shows(r.value, slot, g)) <==> MovedKeys(c[self].keys, c[self].slots[..t], slot) == {}
  {
    var n, t := c[self], Quota(num, |c[self].slots|);
    var ks, r := MovedKeys(n.keys, n.slots[..t], slot), OwnMigration(c, self, num, slot);
    assert NodeOk(n, slot);
    if r.Some? {
      forall k
        ensures Owns(r.value[self], k, slot) == Owns(n, k, slot)
      {
        SplitSlot(n.slots, t, slot(k));
      }
      if ks == {} {
        NothingGone(c, self, r.value, slot, g);
      } else {
        var k :| k in ks;
        KeyIsGone(c, self, r.value, slot, g, k);
      }
    }
  }

  lemma KeyIsGone(c: Nodes, self: Id, c': Nodes, slot: SlotFn, g: Db, k: string)
    requires self in c && NodeOk(c[self], slot) && Shows(c, slot, g) && k in c[self].keys
    requires self in c' && Owns(c'[self], k, slot) && k !in c'[self].db
    ensures !Shows(c', slot, g)
  {
    assert KeyOk(c[self], k, slot) && ShowsKey(c, slot, g, k);
    assert !ShowsKey(c', slot, g, k);
  }

  lemma NothingGone(c: Nodes, self: Id, c': Nodes, slot: SlotFn, g: Db)
    requires self in c && Shows(c, slot, g) && c'.Keys == c.Keys && forall id :: id in c ==> c'[id].db == c[id].db
    requires forall k, id :: id in c ==> Owns(c'[id], k, slot) == Owns(c[id], k, slot)
    ensures Shows(c', slot, g)
  {
    forall k
      ensures ShowsKey(c', slot, g, k)
    {
      assert ShowsKey(c, slot, g, k);
      assert forall id :: id in c ==> Owns(c'[id], k, slot) == Owns(c[id], k, slot);
    }
  }

  // ----- whatever the texts

  /**
   The states of a node while it sends its keys to itself, one after the other: whatever the
   queries for a key do, they keep the slots, and the key is deleted after them.
   */
  ghost predicate OwnRun(ns: seq<Node>, ks: seq<string>, slots: seq<Slot>) {
    && |ns| == |ks| + 1 && (forall i :: 0 <= i < |ns| ==> ns[i].slots == slots)
    && forall i :: 0 <= i < |ks| ==> ks[i] !in ns[i + 1].db
  }

  /** Garbled or not, a migration to itself that ends has lost the key it came to last. */
  lemma ToSelfLoses(c: Nodes, self: Id, num: int, slot: SlotFn, g: Db, ns: seq<Node>, ks: seq<string>)
    requires Inv(c, slot) && Shows(c, slot, g) && self in c && ks != []
    requires var n, t := c[self], Quota(num, |c[self].slots|);
             && Elements(ks) == MovedKeys(n.keys, n.slots[..t], slot)
             && OwnRun(ns, ks, AddSlots(n.slots[t..], n.slots[..t]))
    ensures !Shows(c[self := ns[|ks|]], slot, g)
  {
    var n, t, k := c[self], Quota(num, |c[self].slots|), ks[|ks| - 1];
    assert NodeOk(n, slot) && k in Elements(ks);
    TakenBack(n, t);
    AddSlotsApart(n.slots[t..], n.slots[..t]);
    assert ks[|ks| - 1] !in ns[|ks|].db;
    KeyIsGone(c, self, c[self := ns[|ks|]], slot, g, k);
  }
}
