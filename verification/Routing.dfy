/** A client's command at any node: run there, or forwarded to the node that owns the key. */
module Routing {
  import opened Options
  import opened Rows
  import opened Store
  import opened Wire
  import opened Sharding
  import opened Tokenizer
  import opened Queries
  import H = Hearing
  import P = Persistence

  /** Keys a client may not name. */
  predicate Refused(k: string) {
    Illegal(k) || k == "xfiredb-users"
  }

  /** CLUSTER WHEREIS?: ask the nodes one after the other. */
  function WhereIs(c: Nodes, order: seq<Id>, k: string, slot: SlotFn): (r: Option<Id>)
    ensures r.Some? ==> r.value in order && r.value in c && Owns(c[r.value], k, slot)
    ensures r.None? ==> forall id :: id in order && id in c ==> !Owns(c[id], k, slot)
  {
    if order == [] then None
    else if order[0] in c && Owns(c[order[0]], k, slot) then Some(order[0])
    else WhereIs(c, order[1..], k, slot)
  }

  datatype Outcome = Outcome(nodes: Nodes, reply: Reply)

  /** The first node of the table: a node that fails to answer counts as the owner. */
  function FirstNode(c: Nodes, order: seq<Id>): (r: Option<Id>)
    ensures r.Some? ==> r.value in c
  {
    if order == [] then None else if order[0] in c then Some(order[0]) else FirstNode(c, order[1..])
  }

  /** The first node asked that owns the key answers; and so does the first node of all, if it is to fail. */
  lemma {:induction false} FirstAnswers(c: Nodes, order: seq<Id>, k: string, slot: SlotFn, i: nat)
    requires i < |order| && order[i] in c
    ensures Owns(c[order[i]], k, slot) && (forall j :: 0 <= j < i && order[j] in c ==> !Owns(c[order[j]], k, slot)) ==>
      WhereIs(c, order, k, slot) == Some(order[i])
    ensures (forall j :: 0 <= j < i ==> order[j] !in c) ==> FirstNode(c, order) == Some(order[i])
    decreases i
  {
    if i > 0 {
      FirstAnswers(c, order[1..], k, slot, i - 1);
      assert forall j :: 0 <= j < i - 1 ==> order[1..][j] == order[j + 1];
    }
  }

  /** How the texts between nodes are read: a command, and the key of a question for its owner. */
  datatype Ear = Ear(hear: Command -> Option<Command>, told: (string, string) -> Option<string>)

  const TEXT: Ear := Ear(Received, Told)

  /** Command#forward: the node that the questions for the owner of a key lead to. */
  function Located(ear: Ear, c: Nodes, order: seq<Id>, key: string, slot: SlotFn): (r: Option<Id>)
    ensures r.Some? ==> r.value in c
  {
    match (ear.told)("WHEREIS?", key)
    case None => None
    case Some(asked) =>
      match (ear.told)("YOUHAVE?", asked)
      case None => FirstNode(c, order)
      case Some(heard) => WhereIs(c, order, heard, slot)
  }

  ghost predicate SameSlots(c: Nodes, c': Nodes) {
    c'.Keys == c.Keys && forall id :: id in c ==> c'[id].slots == c[id].slots
  }

  /**
   A command at node self: answered there, or sent on to the node that the questions lead
   to, which reads it from its text and does the same. A command that has been sent on as
   often as hops says gets no answer.
   */
  function Serve(ear: Ear, c: Nodes, self: Id, order: seq<Id>, cmd: Command, slot: SlotFn, hops: nat): (r: Outcome)
    requires self in c
    ensures SameSlots(c, r.nodes)
    decreases hops
  {
    if Malformed(cmd) then Outcome(c, Exec(cmd, None).reply)
    else if Owns(c[self], cmd.key, slot) then
      Outcome(c[self := RunAt(c[self], cmd, slot)], Exec(cmd, P.Get(c[self].db, cmd.key)).reply)
    else
      var o, read := Located(ear, c, order, cmd.key, slot), (ear.hear)(cmd);
      if o.None? || hops == 0 then Outcome(c, Raised)
      else
        var r := if read.None? then Outcome(c, Lines([Complaint("Syntax error")]))
                 else Serve(ear, c, o.value, order, read.value, slot, hops - 1);
        if cmd.Delete? then Outcome(r.nodes[self := RunAt(r.nodes[self], cmd, slot)], Lines([Ok])) else r
  }

  /** The command of a client at node self, whose table lists the nodes in the given order. */
  function AtNode(c: Nodes, self: Id, order: seq<Id>, cmd: Command, slot: SlotFn, hops: nat): (r: Outcome)
    requires self in c
    ensures SameSlots(c, r.nodes)
  {
    if Refused(cmd.key) then Outcome(c, Raised) else Serve(TEXT, c, self, order, cmd, slot, hops + 1)
  }

  /** The same command on a single store. */
  function AtStore(g: Db, cmd: Command): (Db, Reply) {
    var e := Exec(cmd, P.Get(g, cmd.key));
    (P.Put(g, cmd.key, e.value), e.reply)
  }

  lemma ReplaceKeeps(c: Nodes, o: Id, n: Node, slot: SlotFn)
    requires Inv(c, slot) && o in c && NodeOk(n, slot) && n.slots == c[o].slots
    ensures Inv(c[o := n], slot)
  {
    var c' := c[o := n];
    forall id | id in c'
      ensures NodeOk(c'[id], slot)
    {
      assert NodeOk(c[id], slot);
    }
    forall a, b | a in c' && b in c' && a != b
      ensures Apart(c'[a], c'[b])
    {
      assert Apart(c[a], c[b]) && Apart(c[b], c[a]);
    }
  }

  lemma ReplaceShows(c: Nodes, o: Id, n: Node, slot: SlotFn, g: Db, key: string, v: Option<Value>)
    requires Inv(c, slot) && Shows(c, slot, g) && o in c && Owns(c[o], key, slot) && !Illegal(key)
    requires n.slots == c[o].slots && n.db == P.Put(c[o].db, key, v)
    ensures Shows(c[o := n], slot, P.Put(g, key, v))
  {
    var c', g' := c[o := n], P.Put(g, key, v);
    forall k
      ensures ShowsKey(c', slot, g', k)
    {
      assert ShowsKey(c, slot, g, k);
      forall id | id in c' && Owns(c'[id], k, slot)
        ensures !Illegal(k) ==> P.Get(c'[id].db, k) == P.Get(g', k)
      {
        if k == key {
          OneOwner(c, slot, id, o, k);
        }
      }
      if forall id :: id in c' ==> !Owns(c'[id], k, slot) {
        assert Owns(c'[o], key, slot);
        assert forall id :: id in c ==> Owns(c[id], k, slot) == Owns(c'[id], k, slot);
      }
    }
  }

  lemma RunAtOwner(c: Nodes, o: Id, cmd: Command, slot: SlotFn, g: Db)
    requires Inv(c, slot) && Shows(c, slot, g) && o in c
    requires !Illegal(cmd.key) && Owns(c[o], cmd.key, slot)
    ensures var c' := c[o := RunAt(c[o], cmd, slot)];
            && Inv(c', slot) && Shows(c', slot, AtStore(g, cmd).0)
            && Exec(cmd, P.Get(c[o].db, cmd.key)).reply == AtStore(g, cmd).1
  {
    assert NodeOk(c[o], slot) && ShowsKey(c, slot, g, cmd.key);
    RunAtKeeps(c[o], cmd, slot);
    ReplaceKeeps(c, o, RunAt(c[o], cmd, slot), slot);
    ReplaceShows(c, o, RunAt(c[o], cmd, slot), slot, g, cmd.key, Exec(cmd, P.Get(g, cmd.key)).value);
  }

  /** The local delete after a forwarded DELETE finds nothing. */
  lemma DeleteElsewhere(n: Node, cmd: Command, slot: SlotFn)
    requires NodeOk(n, slot) && cmd.Delete? && !Illegal(cmd.key) && !Owns(n, cmd.key, slot)
    ensures RunAt(n, cmd, slot) == n
  {
    assert KeyOk(n, cmd.key, slot);
  }

  ghost predicate Owned(c: Nodes, k: string, slot: SlotFn) {
    exists id :: id in c && Owns(c[id], k, slot)
  }

  /** A command whose text arrives is run by the owner of its key. */
  lemma ServedByOwner(c: Nodes, self: Id, order: seq<Id>, cmd: Command, slot: SlotFn, hops: nat, o: Id)
    requires self in c && !Malformed(cmd) && !Owns(c[self], cmd.key, slot) && Travels(cmd)
    requires WhereIs(c, order, cmd.key, slot) == Some(o)
    ensures var c' := c[o := RunAt(c[o], cmd, slot)]; var r := Serve(TEXT, c, self, order, cmd, slot, hops + 1);
            if cmd.Delete? then r == Outcome(c'[self := RunAt(c'[self], cmd, slot)], Lines([Ok]))
            else r == Outcome(c', Exec(cmd, P.Get(c[o].db, cmd.key)).reply)
  {
    assert Serve(TEXT, c, o, order, cmd, slot, hops)
        == Outcome(c[o := RunAt(c[o], cmd, slot)], Exec(cmd, P.Get(c[o].db, cmd.key)).reply);
  }

  lemma ForwardedImage(c: Nodes, self: Id, order: seq<Id>, cmd: Command, slot: SlotFn, hops: nat, g: Db, o: Id)
    requires Inv(c, slot) && Shows(c, slot, g) && self in c && !Owns(c[self], cmd.key, slot) && Travels(cmd)
    requires !Illegal(cmd.key) && !Malformed(cmd) && WhereIs(c, order, cmd.key, slot) == Some(o)
    ensures var r := Serve(TEXT, c, self, order, cmd, slot, hops + 1);
            && Inv(r.nodes, slot) && Shows(r.nodes, slot, AtStore(g, cmd).0) && r.reply == AtStore(g, cmd).1
  {
    ServedByOwner(c, self, order, cmd, slot, hops, o);
    RunAtOwner(c, o, cmd, slot, g);
    if cmd.Delete? {
      DeleteTwice(c, self, o, cmd, slot);
    }
  }

  /**
   Single system image: at whichever node a command is given, the store as a whole
   changes as one unsharded store would, and the reply is the same.
   */
  lemma SingleSystemImage(c: Nodes, self: Id, order: seq<Id>, cmd: Command, slot: SlotFn, hops: nat, g: Db)
    requires Inv(c, slot) && Shows(c, slot, g) && self in c && forall id :: id in c ==> id in order
    requires Owns(c[self], cmd.key, slot) || Travels(cmd)
    requires !Refused(cmd.key) && !Malformed(cmd) && Owned(c, cmd.key, slot)
    ensures var r := AtNode(c, self, order, cmd, slot, hops);
            && Inv(r.nodes, slot) && Shows(r.nodes, slot, AtStore(g, cmd).0) && r.reply == AtStore(g, cmd).1
  {
    if Owns(c[self], cmd.key, slot) {
      RunAtOwner(c, self, cmd, slot, g);
    } else {
      ForwardedImage(c, self, order, cmd, slot, hops, g, WhereIs(c, order, cmd.key, slot).value);
    }
  }

  /** The node that forwarded a DELETE is left as it was. */
  lemma DeleteTwice(c: Nodes, self: Id, o: Id, cmd: Command, slot: SlotFn)
    requires Inv(c, slot) && self in c && o in c && cmd.Delete? && !Illegal(cmd.key)
    requires !Owns(c[self], cmd.key, slot) && Owns(c[o], cmd.key, slot)
    ensures var c' := c[o := RunAt(c[o], cmd, slot)]; c'[self := RunAt(c'[self], cmd, slot)] == c'
  {
    assert NodeOk(c[self], slot);
    DeleteElsewhere(c[self], cmd, slot);
  }

  /** A DELETE that is sent on says OK whatever is made of it elsewhere, and the node that sent it on has no such key either. */
  lemma DeleteSaysOk(ear: Ear, c: Nodes, self: Id, order: seq<Id>, cmd: Command, slot: SlotFn, hops: nat)
    requires self in c && cmd.Delete? && !Owns(c[self], cmd.key, slot)
    requires Located(ear, c, order, cmd.key, slot).Some? && hops > 0
    ensures var r := Serve(ear, c, self, order, cmd, slot, hops);
            r.reply == Lines([Ok]) && cmd.key !in r.nodes[self].db && cmd.key !in r.nodes[self].keys
  {
  }

  /** Exactly three keys are refused to clients; a node answers for every other key it owns. */
  lemma RefusedKeys(c: Nodes, self: Id, order: seq<Id>, cmd: Command, slot: SlotFn, hops: nat)
    requires self in c && Owns(c[self], cmd.key, slot) && !Malformed(cmd)
    ensures AtNode(c, self, order, cmd, slot, hops)
         == if cmd.key in ["xfiredb", "xfiredb-nodes", "xfiredb-users"] then Outcome(c, Raised)
            else Outcome(c[self := RunAt(c[self], cmd, slot)], AtStore(c[self].db, cmd).1)
  {
  }

  /** A command that is refused, malformed or, asked for by its own name, about a slot no node has changes nothing. */
  lemma OtherwiseUnchanged(c: Nodes, self: Id, order: seq<Id>, cmd: Command, slot: SlotFn, hops: nat)
    requires self in c
    requires Refused(cmd.key) || Malformed(cmd) || (!Owned(c, cmd.key, slot) && Asks(cmd.key))
    ensures var r := AtNode(c, self, order, cmd, slot, hops);
            && r.nodes == c
            && (if !Refused(cmd.key) && Malformed(cmd) then r.reply == Lines([Complaint("Syntax error")]) else r.reply == Raised)
  {
    if !Refused(cmd.key) && !Malformed(cmd) {
      NoneLocated(c, order, cmd.key, slot);
      ServedNowhere(TEXT, c, self, order, cmd, slot, hops + 1);
    }
  }

  lemma ServedNowhere(ear: Ear, c: Nodes, self: Id, order: seq<Id>, cmd: Command, slot: SlotFn, hops: nat)
    requires self in c && !Malformed(cmd) && !Owns(c[self], cmd.key, slot) && Located(ear, c, order, cmd.key, slot) == None
    ensures Serve(ear, c, self, order, cmd, slot, hops) == Outcome(c, Raised)
  {
  }

  lemma NoneLocated(c: Nodes, order: seq<Id>, key: string, slot: SlotFn)
    requires !Owned(c, key, slot) && Asks(key)
    ensures Located(TEXT, c, order, key, slot) == None
  {
    var o := WhereIs(c, order, key, slot);
    assert o.Some? ==> Owned(c, key, slot);
  }

  /** The forwarding target is the one owner, whatever the order of the node table. */
  lemma TargetIsUnique(c: Nodes, order: seq<Id>, order': seq<Id>, k: string, slot: SlotFn)
    requires Inv(c, slot) && (forall id :: id in c ==> id in order) && (forall id :: id in c ==> id in order')
    ensures WhereIs(c, order, k, slot) == WhereIs(c, order', k, slot)
    ensures WhereIs(c, order, k, slot).Some? <==> Owned(c, k, slot)
  {
    var a, b := WhereIs(c, order, k, slot), WhereIs(c, order', k, slot);
    if a.Some? && b.Some? {
      OneOwner(c, slot, a.value, b.value, k);
    }
  }

  // ----- a SET that has to be forwarded

  lemma EmptyKeyUnread(data: string)
    requires Escaped(data)
    ensures Received(Set([], data)) == None
  {
    H.HeardIff(data);
    H.ShortTokens(Set([], data), data);
    assert Tokenize([]) == [];
    assert [] + [data] == [data];
    H.ReadSet([data]);
  }

  /** What is read in place of a key that is not plain: a piece of it that is, or an empty one. */
  lemma PieceRead(key: string, data: string)
    requires QUOTE !in key && !Plain(key) && Escaped(data)
    ensures var x := Received(Set(key, data));
            x.Some? ==> x.value in Others(key)
  {
    var ks := Tokenize(key);
    H.HeardIff(data);
    H.ShortTokens(Set(key, data), data);
    H.ReadSet(ks + [data]);
    TokensArePlain(key);
    H.ShorterTokens(key);
    H.FirstOf(ks, [data]);
    forall t | t in ks
      ensures Escaped(t)
    {
      QuoteFreeIsEscaped(t);
    }
  }

  ghost predicate SameAt(c: Nodes, c': Nodes, k: string) {
    SameSlots(c, c') && forall id :: id in c ==> P.Get(c'[id].db, k) == P.Get(c[id].db, k)
  }

  lemma SetSentOn(ear: Ear, c: Nodes, self: Id, order: seq<Id>, x: Command, slot: SlotFn, hops: nat, o: Option<Id>, read: Option<Command>)
    requires self in c && x.Set? && !Owns(c[self], x.key, slot) && hops > 0
    requires o == Located(ear, c, order, x.key, slot) && read == (ear.hear)(x)
    ensures Serve(ear, c, self, order, x, slot, hops).nodes
         == if o.None? || read.None? then c else Serve(ear, c, o.value, order, read.value, slot, hops - 1).nodes
  {
  }

  /** A set of commands that are read as commands of the set, none of them about key k. */
  ghost predicate Closed(ear: Ear, xs: iset<Command>, k: string) {
    forall x :: x in xs ==> x.Set? && x.key != k && ((ear.hear)(x).Some? ==> (ear.hear)(x).value in xs)
  }

  /** However often it is sent on, such a command leaves the key alone at every node. */
  lemma {:induction false} ServeMisses(ear: Ear, c: Nodes, self: Id, order: seq<Id>, x: Command, slot: SlotFn, hops: nat, xs: iset<Command>, k: string)
    requires self in c && x in xs && Closed(ear, xs, k)
    ensures SameAt(c, Serve(ear, c, self, order, x, slot, hops).nodes, k)
    decreases hops
  {
    var o, read := Located(ear, c, order, x.key, slot), (ear.hear)(x);
    if !Owns(c[self], x.key, slot) && o.Some? && read.Some? && hops > 0 {
      ServeMisses(ear, c, o.value, order, read.value, slot, hops - 1, xs, k);
    }
  }

  /** The SETs of another key than k that is plain, or of the empty key and an escaped text. */
  ghost function Others(k: string): iset<Command> {
    iset x: Command | x.Set? && x.key != k && (Plain(x.key) || (x.key == [] && Escaped(x.data)))
  }

  lemma OthersAreClosed(k: string)
    ensures Closed(TEXT, Others(k), k)
  {
    forall x | x in Others(k)
      ensures Received(x).Some? ==> Received(x).value in Others(k)
    {
      if Plain(x.key) {
        H.PlainKeyRead(x, x.data);
      } else {
        EmptyKeyUnread(x.data);
      }
    }
  }

  /** A key that does not have the value it should makes the difference. */
  lemma NotShown(c: Nodes, slot: SlotFn, g: Db, o: Id, k: string)
    requires o in c && Owns(c[o], k, slot) && !Illegal(k) && P.Get(c[o].db, k) != P.Get(g, k)
    ensures !Shows(c, slot, g)
  {
    assert !ShowsKey(c, slot, g, k);
  }

  lemma GarbledText(c: Nodes, self: Id, order: seq<Id>, key: string, data: string, slot: SlotFn, hops: nat, g: Db)
    requires self in c && !Refused(key) && !Owns(c[self], key, slot) && Plain(key) && !Fine(data, false)
    requires WhereIs(c, order, key, slot).Some?
    ensures !Shows(AtNode(c, self, order, Set(key, data), slot, hops).nodes, slot, AtStore(g, Set(key, data)).0)
  {
    var cmd, o := Set(key, data), WhereIs(c, order, key, slot).value;
    PlainKeyAsks(key);
    H.PlainKeyRead(cmd, data);
    H.HeardIff(data);
    var x := Received(cmd).value;
    var c' := c[o := RunAt(c[o], x, slot)];
    SetSentOn(TEXT, c, self, order, cmd, slot, hops + 1, Some(o), Some(x));
    assert Serve(TEXT, c, o, order, x, slot, hops).nodes == c';
    assert AtNode(c, self, order, cmd, slot, hops).nodes == c';
    NotShown(c', slot, AtStore(g, cmd).0, o, key);
  }

  lemma GarbledKey(c: Nodes, self: Id, order: seq<Id>, key: string, data: string, slot: SlotFn, hops: nat, g: Db, o: Id)
    requires Shows(c, slot, g) && self in c && !Refused(key) && !Owns(c[self], key, slot)
    requires QUOTE !in key && !Plain(key) && Escaped(data)
    requires o in c && Owns(c[o], key, slot) && P.Get(g, key) != Some(Str(data))
    ensures !Shows(AtNode(c, self, order, Set(key, data), slot, hops).nodes, slot, AtStore(g, Set(key, data)).0)
  {
    var cmd := Set(key, data);
    var to, read := Located(TEXT, c, order, key, slot), Received(cmd);
    var c' := AtNode(c, self, order, cmd, slot, hops).nodes;
    PieceRead(key, data);
    OthersAreClosed(key);
    SetSentOn(TEXT, c, self, order, cmd, slot, hops + 1, to, read);
    if to.Some? && read.Some? {
      ServeMisses(TEXT, c, to.value, order, read.value, slot, hops, Others(key), key);
    }
    assert ShowsKey(c, slot, g, key) && P.Get(c'[o].db, key) == P.Get(c[o].db, key);
    NotShown(c', slot, AtStore(g, cmd).0, o, key);
  }

  /**
   A SET given at a node that does not own its key acts as on one store exactly if it
   arrives: the key is a plain word and the text is fine.
   */
  lemma SetForwardIff(c: Nodes, self: Id, order: seq<Id>, key: string, data: string, slot: SlotFn, hops: nat, g: Db)
    requires Inv(c, slot) && Shows(c, slot, g) && self in c && forall id :: id in c ==> id in order
    requires !Refused(key) && !Owns(c[self], key, slot) && Owned(c, key, slot)
    requires SingleLine(Set(key, data)) && (Plain(key) || (QUOTE !in key && Escaped(data)))
    requires P.Get(g, key) != Some(Str(data))
    ensures var r, p := AtNode(c, self, order, Set(key, data), slot, hops), AtStore(g, Set(key, data));
            Shows(r.nodes, slot, p.0) && r.reply == p.1 <==> Plain(key) && Fine(data, false)
  {
    var cmd := Set(key, data);
    var o :| o in c && Owns(c[o], key, slot);
    if !Plain(key) {
      GarbledKey(c, self, order, key, data, slot, hops, g, o);
    } else if !Fine(data, false) {
      GarbledText(c, self, order, key, data, slot, hops, g);
    } else {
      SpokenIff(cmd);
      PlainKeyAsks(key);
      SingleSystemImage(c, self, order, cmd, slot, hops, g);
    }
  }

  // ----- where garbled commands go

  lemma VerbsArePlain()
    ensures Plain("WHEREIS?") && Plain("YOUHAVE?")
  {
    NoBlankEnds("WHEREIS?");
    NoBlankEnds("YOUHAVE?");
  }

  /** The questions about a key that is not plain lead to the owner of its first piece. */
  lemma PieceLocated(c: Nodes, order: seq<Id>, key: string, slot: SlotFn, p: string)
    requires Balanced(key) && Tokenize(key) != [] && Tokenize(key)[0] == p && Plain(p)
    ensures Located(TEXT, c, order, key, slot) == WhereIs(c, order, p, slot)
  {
    VerbsArePlain();
    ToldIs("WHEREIS?", key);
    PlainKeyAsks(p);
  }

  /** What is read of a SET whose key is in pieces: the first piece, with the second as its value if there is one. */
  lemma PiecesRead(key: string, data: string)
    requires Balanced(key) && Tokenize(key) != [] && Escaped(data)
    ensures var ts := Tokenize(key); Received(Set(key, data)) == Some(Set(ts[0], if |ts| > 1 then ts[1] else data))
  {
    var ts := Tokenize(key);
    H.HeardIff(data);
    H.ShortTokens(Set(key, data), data);
    H.ReadSet(ts + [data]);
  }

  /**
   A SET that has to be forwarded and whose key is not plain is run at the owner of the
   first piece of its key, on that piece, with the second piece or the text as its value.
   */
  lemma GarbledSetLands(c: Nodes, self: Id, order: seq<Id>, key: string, data: string, slot: SlotFn, hops: nat, o: Id)
    requires self in c && !Refused(key) && !Owns(c[self], key, slot)
    requires Balanced(key) && Tokenize(key) != [] && Plain(Tokenize(key)[0]) && Escaped(data)
    requires WhereIs(c, order, Tokenize(key)[0], slot) == Some(o)
    ensures var ts := Tokenize(key); var x := Set(ts[0], if |ts| > 1 then ts[1] else data);
            AtNode(c, self, order, Set(key, data), slot, hops) == Outcome(c[o := RunAt(c[o], x, slot)], Lines([Ok]))
  {
    var ts := Tokenize(key);
    PieceLocated(c, order, key, slot, ts[0]);
    PiecesRead(key, data);
    SentToOwner(TEXT, c, self, order, Set(key, data), slot, hops, o, Set(ts[0], if |ts| > 1 then ts[1] else data));
  }

  lemma SentToOwner(ear: Ear, c: Nodes, self: Id, order: seq<Id>, cmd: Command, slot: SlotFn, hops: nat, o: Id, x: Command)
    requires self in c && cmd.Set? && x.Set? && !Owns(c[self], cmd.key, slot)
    requires Located(ear, c, order, cmd.key, slot) == Some(o) && (ear.hear)(cmd) == Some(x) && Owns(c[o], x.key, slot)
    ensures Serve(ear, c, self, order, cmd, slot, hops + 1) == Outcome(c[o := RunAt(c[o], x, slot)], Lines([Ok]))
  {
    assert Serve(ear, c, o, order, x, slot, hops) == Outcome(c[o := RunAt(c[o], x, slot)], Lines([Ok]));
  }

  /** A MADD that has to be forwarded and whose field name is all spaces changes nothing and is refused. */
  lemma BlankFieldRefused(c: Nodes, self: Id, order: seq<Id>, key: string, f: string, data: string, slot: SlotFn, hops: nat)
    requires self in c && !Refused(key) && !Owns(c[self], key, slot)
    requires Plain(key) && Balanced(f) && Tokenize(f) == [] && Escaped(data) && WhereIs(c, order, key, slot).Some?
    ensures AtNode(c, self, order, MAdd(key, f, data), slot, hops) == Outcome(c, Lines([Complaint("Syntax error")]))
  {
    PlainKeyAsks(key);
    WordIff(key);
    H.HeardIff(data);
    H.FieldTokens(key, f, data);
    assert [] + [data] == [data] && [key] + [data] == [key, data];
    H.ReadField([key, data]);
    NotRead(TEXT, c, self, order, MAdd(key, f, data), slot, hops);
  }

  lemma NotRead(ear: Ear, c: Nodes, self: Id, order: seq<Id>, cmd: Command, slot: SlotFn, hops: nat)
    requires self in c && cmd.MAdd? && !Owns(c[self], cmd.key, slot)
    requires Located(ear, c, order, cmd.key, slot).Some? && (ear.hear)(cmd) == None
    ensures Serve(ear, c, self, order, cmd, slot, hops + 1) == Outcome(c, Lines([Complaint("Syntax error")]))
  {
  }
}
