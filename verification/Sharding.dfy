/**
 Slots, keys and values on the nodes of a cluster: what a node holds, what the whole
 cluster holds, and the change of one node by one command.
 */
module Sharding {
  import opened Options
  import opened Rows
  import opened Sequences
  import P = Persistence
  import opened Store
  import opened Wire
  import opened Tokenizer

  type Id = string
  type Slot = string
  /** KeyShard.key_to_slot. */
  type SlotFn = string -> Slot

  /** One server: the slots of its shard in the order they came, its key set and its database. */
  datatype Node = Node(slots: seq<Slot>, keys: set<string>, db: Db)

  type Nodes = map<Id, Node>

  /** Keys that belong to the server itself and are never sharded. */
  predicate Illegal(k: string) {
    k == "xfiredb" || k == "xfiredb-nodes"
  }

  /** KeyShard#include?. */
  predicate Owns(n: Node, k: string, slot: SlotFn) {
    slot(k) in n.slots
  }

  /** Texts that survive the trip to another node: bare, and as the last quoted argument. */
  predicate PlainWord(s: string) {
    Plain(s) && OneLine(s)
  }

  predicate PlainText(s: string) {
    Fine(s, false) && OneLine(s)
  }

  /** A value every part of which can be sent. */
  predicate Sendable(v: Value) {
    match v
    case Str(text) => PlainText(text)
    case List(items) => forall i :: 0 <= i < |items| ==> PlainText(items[i])
    case Hashmap(fields) => forall k :: k in fields ==> PlainWord(k) && PlainText(fields[k])
    case Members(keys) => forall k :: k in keys ==> PlainText(k)
  }

  /** What a node knows about one key: it is in the key set if it has a value, and then it is owned. */
  ghost predicate KeyOk(n: Node, k: string, slot: SlotFn) {
    if Illegal(k) then k !in n.keys
    else
      && (k in n.keys <==> k in n.db)
      && (k in n.db ==> Owns(n, k, slot) && Solid(Some(n.db[k])))
  }

  /** The texts of a key and its value survive the trip to another node. */
  ghost predicate KeySendable(n: Node, k: string) {
    k in n.db && !Illegal(k) ==> PlainWord(k) && Sendable(n.db[k])
  }

  ghost predicate NodeSendable(n: Node) {
    forall k {:trigger KeySendable(n, k)} :: KeySendable(n, k)
  }

  ghost predicate NodeOk(n: Node, slot: SlotFn) {
    Distinct(n.slots) && forall k {:trigger KeyOk(n, k, slot)} :: KeyOk(n, k, slot)
  }

  predicate Apart(a: Node, b: Node) {
    forall i :: 0 <= i < |a.slots| ==> a.slots[i] !in b.slots
  }

  /** No slot is on two nodes, and every node is in order. */
  ghost predicate Inv(c: Nodes, slot: SlotFn) {
    && (forall id {:trigger NodeOk(c[id], slot)} :: id in c ==> NodeOk(c[id], slot))
    && (forall a, b {:trigger Apart(c[a], c[b])} :: a in c && b in c && a != b ==> Apart(c[a], c[b]))
  }

  /** Every owner of a key has the value the whole store has; a key without an owner has none. */
  ghost predicate ShowsKey(c: Nodes, slot: SlotFn, g: Db, k: string) {
    if Illegal(k) then k !in g
    else
      && (forall id :: id in c && Owns(c[id], k, slot) ==> P.Get(c[id].db, k) == P.Get(g, k))
      && ((forall id :: id in c ==> !Owns(c[id], k, slot)) ==> k !in g)
  }

  /** The cluster as a whole holds exactly g. */
  ghost predicate Shows(c: Nodes, slot: SlotFn, g: Db) {
    forall k {:trigger ShowsKey(c, slot, g, k)} :: ShowsKey(c, slot, g, k)
  }

  lemma OneOwner(c: Nodes, slot: SlotFn, a: Id, b: Id, k: string)
    requires Inv(c, slot) && a in c && b in c && Owns(c[a], k, slot) && Owns(c[b], k, slot)
    ensures a == b
  {
    assert a == b || Apart(c[a], c[b]);
  }

  /** In other words: g is the union of the databases, without the keys that are never sharded. */
  lemma ShowsIsUnion(c: Nodes, slot: SlotFn, g: Db, k: string)
    requires Inv(c, slot) && Shows(c, slot, g)
    ensures k in g <==> !Illegal(k) && exists id :: id in c && k in c[id].db
    ensures !Illegal(k) ==> forall id :: id in c && k in c[id].db ==> k in g && g[k] == c[id].db[k]
  {
    assert ShowsKey(c, slot, g, k);
    if !Illegal(k) {
      forall id | id in c && k in c[id].db
        ensures k in g && g[k] == c[id].db[k]
      {
        assert NodeOk(c[id], slot) && KeyOk(c[id], k, slot);
      }
    }
  }

  // ----- one command on one node

  /** Command#exec: KeyShard#add_key checks the slot, del_key does not. */
  function KeysAfter(n: Node, k: string, note: Note, slot: SlotFn): set<string> {
    match note
    case Added => if Owns(n, k, slot) then n.keys + {k} else n.keys
    case Removed => n.keys - {k}
    case Kept => n.keys
  }

  function RunAt(n: Node, c: Command, slot: SlotFn): Node {
    var e := Exec(c, P.Get(n.db, c.key));
    n.(db := P.Put(n.db, c.key, e.value), keys := KeysAfter(n, c.key, e.note, slot))
  }

  lemma FieldSendable(fields: map<string, string>, hkey: string, data: string)
    requires Sendable(Hashmap(fields)) && PlainWord(hkey) && PlainText(data)
    ensures Sendable(Hashmap(fields[hkey := data]))
  {
  }

  lemma ItemSendable(items: seq<string>, data: string)
    requires Sendable(List(items)) && PlainText(data)
    ensures Sendable(List(items + [data]))
    ensures forall i {:trigger items[i := data]} :: 0 <= i < |items| ==> Sendable(List(items[i := data]))
  {
  }

  lemma MembersSendable(keys: set<string>, skeys: seq<string>)
    requires Sendable(Members(keys)) && forall i :: 0 <= i < |skeys| ==> PlainText(skeys[i])
    ensures Sendable(Members(keys + Elements(skeys)))
  {
  }

  /** A quoted argument of a command that can be sent can be sent alone. */
  lemma QuotedIsPlain(c: Command)
    requires Speakable(c)
    ensures forall i :: 0 <= i < |Quoted(c)| ==> PlainText(Quoted(c)[i])
  {
  }

  /** Whatever a command that can be sent leaves behind can be sent. */
  lemma ExecKeepsSendable(c: Command, v: Option<Value>)
    requires Speakable(c) && (v.Some? ==> Sendable(v.value))
    ensures var v' := Exec(c, v).value; v'.Some? ==> Sendable(v'.value)
  {
    QuotedIsPlain(c);
    if c.MAdd? {
      assert Quoted(c)[0] == c.data && Bare(c)[1] == c.hkey;
      FieldSendable(FieldsOf(v), c.hkey, c.data);
    } else if c.LPush? || c.LSet? {
      assert Quoted(c)[0] == c.data;
      ItemSendable(ItemsOf(v), c.data);
    } else if c.SAdd? {
      assert Quoted(c) == c.skeys;
      MembersSendable(MembersOf(v), c.skeys);
    } else if c.LPop? {
      PopKeepsSendable(ParseIndex(c.idx), v);
    } else if c.Set? {
      assert Quoted(c)[0] == c.data;
    }
  }

  lemma PopKeepsSendable(index: Index, v: Option<Value>)
    requires v.Some? ==> Sendable(v.value)
    ensures var v' := ExecPop(index, v).value; v'.Some? ==> Sendable(v'.value)
  {
  }

  lemma KeyIsPlain(c: Command)
    requires Speakable(c)
    ensures PlainWord(c.key)
  {
    assert Bare(c)[0] == c.key;
  }

  /** A command that runs on the owner of its key keeps the node in order. */
  lemma RunAtKeeps(n: Node, c: Command, slot: SlotFn)
    requires NodeOk(n, slot) && !Illegal(c.key) && Owns(n, c.key, slot)
    ensures NodeOk(RunAt(n, c, slot), slot) && RunAt(n, c, slot).slots == n.slots
  {
    var n', v := RunAt(n, c, slot), P.Get(n.db, c.key);
    forall k
      ensures KeyOk(n', k, slot)
    {
      assert KeyOk(n, k, slot);
      if k == c.key {
        ExecKeepsSolid(c, v);
        ExecNotes(c, v);
      }
    }
  }

  /** And whatever it leaves can be sent, if the command can. */
  lemma RunAtSendable(n: Node, c: Command, slot: SlotFn)
    requires NodeSendable(n) && Speakable(c) && !Illegal(c.key)
    ensures NodeSendable(RunAt(n, c, slot))
  {
    var n', v := RunAt(n, c, slot), P.Get(n.db, c.key);
    forall k
      ensures KeySendable(n', k)
    {
      assert KeySendable(n, k);
      if k == c.key {
        KeyIsPlain(c);
        ExecKeepsSendable(c, v);
      }
    }
  }
}
