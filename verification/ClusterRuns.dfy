/** Whole runs of a cluster, and a migration to a node that is not known. */
module ClusterRuns {
  import opened Options
  import opened Rows
  import opened Store
  import opened Wire
  import opened Sharding
  import opened Routing
  import opened Migration
  import opened Transfer
  import StoreLaws
  import P = Persistence
  import A = Arrival
  import H = Hearing

  // ----- runs

  /** A client's command at a node, or a migration between two nodes. */
  datatype Event =
    | Client(self: Id, order: seq<Id>, cmd: Command, hops: nat)
    | Move(self: Id, num: int, dst: Id)

  /** An event among the nodes with these ids. */
  ghost predicate Among(ids: set<Id>, e: Event) {
    match e
    case Client(self, order, _, _) => self in ids && forall id :: id in ids ==> id in order
    case Move(self, _, dst) => self in ids && dst in ids && self != dst
  }

  ghost predicate AllAmong(ids: set<Id>, es: seq<Event>) {
    forall i {:trigger Among(ids, es[i])} :: 0 <= i < |es| ==> Among(ids, es[i])
  }

  /** A command that is answered where it is given or whose text arrives, or a migration of what can be sent. */
  ghost predicate Possible(c: Nodes, e: Event, slot: SlotFn)
    requires Among(c.Keys, e)
  {
    match e
    case Client(self, _, cmd, _) => Refused(cmd.key) || Malformed(cmd) || Owns(c[self], cmd.key, slot) || Travels(cmd)
    case Move(self, num, _) => CanMove(c[self], c[self].slots[..Quota(num, |c[self].slots|)], slot)
  }

  /** Every key has an owner. */
  ghost predicate Full(c: Nodes, slot: SlotFn) {
    forall k {:trigger Owned(c, k, slot)} :: Owned(c, k, slot)
  }

  ghost function Step(c: Nodes, e: Event, walk: H.Walk, slot: SlotFn): (r: Outcome)
    requires Among(c.Keys, e)
    ensures r.nodes.Keys == c.Keys
  {
    match e
    case Client(self, order, cmd, hops) => AtNode(c, self, order, cmd, slot, hops)
    case Move(self, num, dst) => Outcome(MigratedBy(c, self, num, dst, walk, slot), Lines([Ok]))
  }

  /** The same on one unsharded store: migrations do nothing. */
  function PlainStep(g: Db, e: Event): (Db, Reply) {
    match e
    case Client(_, _, cmd, _) => if Refused(cmd.key) then (g, Raised) else AtStore(g, cmd)
    case Move(_, _, _) => (g, Lines([Ok]))
  }

  ghost predicate Agrees(c: Nodes, slot: SlotFn, g: Db) {
    Inv(c, slot) && Shows(c, slot, g) && Full(c, slot)
  }

  lemma FullAfterMove(c: Nodes, self: Id, num: int, dst: Id, slot: SlotFn)
    requires Inv(c, slot) && Full(c, slot) && self in c && dst in c && self != dst
    ensures Full(Migrated(c, self, num, dst, slot), slot)
  {
    var c' := Migrated(c, self, num, dst, slot);
    forall k
      ensures Owned(c', k, slot)
    {
      assert Owned(c, k, slot);
      SlotStays(c, self, num, dst, slot, slot(k));
      assert HasSlot(c, slot(k));
      var id :| id in c' && slot(k) in c'[id].slots;
      assert Owns(c'[id], k, slot);
    }
  }

  lemma FullBySlots(c: Nodes, c': Nodes, slot: SlotFn)
    requires Full(c, slot) && SameSlots(c, c')
    ensures Full(c', slot)
  {
    forall k
      ensures Owned(c', k, slot)
    {
      assert Owned(c, k, slot);
      var id :| id in c && Owns(c[id], k, slot);
      assert Owns(c'[id], k, slot);
    }
  }

  lemma PlainMalformed(g: Db, cmd: Command)
    requires Malformed(cmd)
    ensures AtStore(g, cmd) == (g, Exec(cmd, None).reply)
  {
    assert P.Put(g, cmd.key, P.Get(g, cmd.key)) == g;
  }

  lemma ClientAgrees(c: Nodes, e: Event, walk: H.Walk, slot: SlotFn, g: Db)
    requires Agrees(c, slot, g) && e.Client? && Among(c.Keys, e) && Possible(c, e, slot)
    ensures var r, p := Step(c, e, walk, slot), PlainStep(g, e); Agrees(r.nodes, slot, p.0) && r.reply == p.1
  {
    var Client(self, order, cmd, hops) := e;
    var r := AtNode(c, self, order, cmd, slot, hops);
    if Refused(cmd.key) {
      OtherwiseUnchanged(c, self, order, cmd, slot, hops);
    } else if Malformed(cmd) {
      PlainMalformed(g, cmd);
      OtherwiseUnchanged(c, self, order, cmd, slot, hops);
    } else {
      assert Owned(c, cmd.key, slot);
      SingleSystemImage(c, self, order, cmd, slot, hops, g);
      FullBySlots(c, r.nodes, slot);
    }
  }

  lemma StepAgrees(c: Nodes, e: Event, walk: H.Walk, slot: SlotFn, g: Db)
    requires Agrees(c, slot, g) && Among(c.Keys, e) && Possible(c, e, slot) && H.Walks(walk)
    ensures var r, p := Step(c, e, walk, slot), PlainStep(g, e); Agrees(r.nodes, slot, p.0) && r.reply == p.1
  {
    match e {
      case Move(self, num, dst) =>
        MigratedByIsMigrated(c, self, num, dst, walk, slot);
        MigratedKeeps(c, self, num, dst, slot, g);
        FullAfterMove(c, self, num, dst, slot);
      case Client(_, _, _, _) =>
        ClientAgrees(c, e, walk, slot, g);
    }
  }

  lemma TailAmong(ids: set<Id>, es: seq<Event>)
    requires AllAmong(ids, es) && es != []
    ensures Among(ids, es[0]) && AllAmong(ids, es[1..])
  {
    assert Among(ids, es[0]);
    forall i | 0 <= i < |es[1..]|
      ensures Among(ids, es[1..][i])
    {
      assert Among(ids, es[i + 1]);
    }
  }

  /** A run: the nodes at the end and the replies on the way. */
  ghost function Run(c: Nodes, es: seq<Event>, walk: H.Walk, slot: SlotFn): (Nodes, seq<Reply>)
    requires AllAmong(c.Keys, es)
    decreases |es|
  {
    if es == [] then (c, [])
    else
      TailAmong(c.Keys, es);
      var o := Step(c, es[0], walk, slot);
      var r := Run(o.nodes, es[1..], walk, slot);
      (r.0, [o.reply] + r.1)
  }

  /** Every event is possible when its turn comes. */
  ghost predicate PossibleRun(c: Nodes, es: seq<Event>, walk: H.Walk, slot: SlotFn)
    requires AllAmong(c.Keys, es)
    decreases |es|
  {
    es == [] ||
    (TailAmong(c.Keys, es);
     Possible(c, es[0], slot) && PossibleRun(Step(c, es[0], walk, slot).nodes, es[1..], walk, slot))
  }

  function PlainRun(g: Db, es: seq<Event>): (Db, seq<Reply>)
    decreases |es|
  {
    if es == [] then (g, [])
    else
      var o := PlainStep(g, es[0]);
      var r := PlainRun(o.0, es[1..]);
      (r.0, [o.1] + r.1)
  }

  lemma {:induction false} RunAgrees(c: Nodes, es: seq<Event>, walk: H.Walk, slot: SlotFn, g: Db)
    requires Agrees(c, slot, g) && AllAmong(c.Keys, es) && PossibleRun(c, es, walk, slot) && H.Walks(walk)
    ensures var r, p := Run(c, es, walk, slot), PlainRun(g, es);
            r.0.Keys == c.Keys && Agrees(r.0, slot, p.0) && r.1 == p.1
    decreases |es|
  {
    if es != [] {
      TailAmong(c.Keys, es);
      StepAgrees(c, es[0], walk, slot, g);
      RunAgrees(Step(c, es[0], walk, slot).nodes, es[1..], walk, slot, PlainStep(g, es[0]).0);
    }
  }

  /** Every run of commands and migrations gives the replies and leaves the contents of a single store. */
  lemma RunIsOneStore(c: Nodes, es: seq<Event>, walk: H.Walk, slot: SlotFn, g: Db, k: string)
    requires Agrees(c, slot, g) && AllAmong(c.Keys, es) && PossibleRun(c, es, walk, slot) && H.Walks(walk)
    ensures var r, p := Run(c, es, walk, slot), PlainRun(g, es);
            && r.1 == p.1
            && (k in p.0 <==> !Illegal(k) && exists id :: id in r.0 && k in r.0[id].db)
            && (!Illegal(k) ==> forall id :: id in r.0 && k in r.0[id].db ==> p.0[k] == r.0[id].db[k])
  {
    RunAgrees(c, es, walk, slot, g);
    ShowsIsUnion(Run(c, es, walk, slot).0, slot, PlainRun(g, es).0, k);
  }

  // ----- what is stored stays readable

  /** An event that does not write under the key. */
  predicate Quiet(e: Event, key: string) {
    e.Client? && e.cmd.key == key ==> StoreLaws.IsRead(e.cmd)
  }

  predicate AllQuiet(es: seq<Event>, key: string) {
    forall i :: 0 <= i < |es| ==> Quiet(es[i], key)
  }

  lemma QuietStep(g: Db, e: Event, key: string)
    requires Quiet(e, key)
    ensures P.Get(PlainStep(g, e).0, key) == P.Get(g, key)
  {
    if e.Client? && e.cmd.key == key {
      StoreLaws.ReadsKeep(e.cmd, P.Get(g, key));
    }
  }

  lemma {:induction false} QuietRun(g: Db, es: seq<Event>, key: string)
    requires AllQuiet(es, key)
    ensures P.Get(PlainRun(g, es).0, key) == P.Get(g, key)
    decreases |es|
  {
    if es != [] {
      assert Quiet(es[0], key);
      QuietStep(g, es[0], key);
      QuietRun(PlainStep(g, es[0]).0, es[1..], key);
    }
  }

  /** Whatever is done to other keys, and however often it is read: every read tells the same. */
  lemma QuietReads(g: Db, es: seq<Event>, c: Command)
    requires AllQuiet(es, c.key) && StoreLaws.IsRead(c)
    ensures AtStore(PlainRun(g, es).0, c) == (PlainRun(g, es).0, AtStore(g, c).1)
  {
    QuietRun(g, es, c.key);
    StoreLaws.ReadsKeep(c, P.Get(g, c.key));
    PutBack(PlainRun(g, es).0, c.key);
  }

  lemma PutBack(g: Db, key: string)
    ensures P.Put(g, key, P.Get(g, key)) == g
  {
  }

  lemma {:induction false} PlainRunAt(g: Db, es: seq<Event>, j: nat)
    requires j < |es|
    ensures |PlainRun(g, es).1| == |es|
    ensures PlainRun(g, es).1[j] == PlainStep(PlainRun(g, es[..j]).0, es[j]).1
    decreases |es|
  {
    var g' := PlainStep(g, es[0]).0;
    if j > 0 {
      PlainRunAt(g', es[1..], j - 1);
      assert es[..j][1..] == es[1..][..j - 1];
    } else if |es| > 1 {
      PlainRunAt(g', es[1..], 0);
    }
  }

  lemma {:induction false} PlainRunBoth(g: Db, es: seq<Event>, fs: seq<Event>)
    ensures PlainRun(g, es + fs).0 == PlainRun(PlainRun(g, es).0, fs).0
    decreases |es|
  {
    if es == [] {
      assert es + fs == fs;
    } else {
      PlainRunBoth(PlainStep(g, es[0]).0, es[1..], fs);
      assert (es + fs)[1..] == es[1..] + fs;
    }
  }

  lemma SetThenQuiet(g: Db, es: seq<Event>, i: nat, j: nat, key: string, data: string)
    requires i < j <= |es| && es[i].Client? && es[i].cmd == Set(key, data) && !Refused(key)
    requires AllQuiet(es[i + 1..j], key)
    ensures P.Get(PlainRun(g, es[..j]).0, key) == Some(Str(data))
  {
    var g1 := PlainRun(g, es[..i]).0;
    var g2 := PlainStep(g1, es[i]).0;
    StoreLaws.SetGet(key, data, P.Get(g1, key));
    assert es[..j] == es[..i] + es[i..j];
    assert es[i..j][1..] == es[i + 1..j];
    PlainRunBoth(g, es[..i], es[i..j]);
    QuietRun(g2, es[i + 1..j], key);
  }

  /** In every run a GET, at whichever node, replies the data of the last SET of its key, if nothing else wrote to it since. */
  lemma LastSetIsRead(c: Nodes, es: seq<Event>, walk: H.Walk, slot: SlotFn, g: Db, i: nat, j: nat, key: string, data: string)
    requires Agrees(c, slot, g) && AllAmong(c.Keys, es) && PossibleRun(c, es, walk, slot) && H.Walks(walk)
    requires i < j < |es| && es[i].Client? && es[i].cmd == Set(key, data) && !Refused(key)
    requires AllQuiet(es[i + 1..j], key) && es[j].Client? && es[j].cmd == Get(key)
    ensures |Run(c, es, walk, slot).1| == |es| && Run(c, es, walk, slot).1[j] == Lines([Data(data)])
  {
    RunAgrees(c, es, walk, slot, g);
    PlainRunAt(g, es, j);
    SetThenQuiet(g, es, i, j, key, data);
    StoreLaws.SetGet(key, data, None);
  }

  /** A query that a migration sends is served as one that a node forwards. */
  lemma DeliveredIsServed(c: Nodes, dst: Id, order: seq<Id>, cmd: Command, slot: SlotFn, hops: nat)
    requires dst in c && Received(cmd).Some? && !Malformed(Received(cmd).value) && Owns(c[dst], Received(cmd).value.key, slot)
    ensures Serve(TEXT, c, dst, order, Received(cmd).value, slot, hops).nodes == c[dst := Delivered(c[dst], cmd, slot)]
  {
  }

  // ----- runs that are always possible

  /** Everything on the nodes can be sent. */
  ghost predicate CanSend(c: Nodes) {
    forall id {:trigger NodeSendable(c[id])} :: id in c ==> NodeSendable(c[id])
  }

  /** A command that can be sent wherever it is given, or a migration. */
  ghost predicate Sayable(e: Event) {
    e.Client? ==> Speakable(e.cmd)
  }

  lemma CanSendAfterMove(c: Nodes, self: Id, num: int, dst: Id, slot: SlotFn)
    requires CanSend(c) && self in c && dst in c && self != dst
    ensures CanSend(Migrated(c, self, num, dst, slot))
  {
    var c' := Migrated(c, self, num, dst, slot);
    forall id | id in c'
      ensures NodeSendable(c'[id])
    {
      assert NodeSendable(c[self]) && NodeSendable(c[id]);
      MigratedSendable(c, self, num, dst, slot, id);
    }
  }

  lemma CanSendAfterRun(c: Nodes, o: Id, cmd: Command, slot: SlotFn)
    requires CanSend(c) && o in c && Speakable(cmd) && !Illegal(cmd.key)
    ensures CanSend(c[o := RunAt(c[o], cmd, slot)])
  {
    var c' := c[o := RunAt(c[o], cmd, slot)];
    forall id | id in c'
      ensures NodeSendable(c'[id])
    {
      assert NodeSendable(c[id]);
      if id == o {
        RunAtSendable(c[o], cmd, slot);
      }
    }
  }

  lemma CanSendAfterCommand(c: Nodes, self: Id, order: seq<Id>, cmd: Command, slot: SlotFn, hops: nat)
    requires CanSend(c) && self in c && Speakable(cmd)
    ensures CanSend(AtNode(c, self, order, cmd, slot, hops).nodes)
  {
    SpeakableTravels(cmd);
    if !Refused(cmd.key) && !Malformed(cmd) {
      if Owns(c[self], cmd.key, slot) {
        CanSendAfterRun(c, self, cmd, slot);
      } else if WhereIs(c, order, cmd.key, slot).Some? {
        var o := WhereIs(c, order, cmd.key, slot).value;
        ServedByOwner(c, self, order, cmd, slot, hops, o);
        CanSendAfterRun(c, o, cmd, slot);
        CanSendAfterRun(c[o := RunAt(c[o], cmd, slot)], self, cmd, slot);
      }
    }
  }

  lemma SendableCanMove(c: Nodes, self: Id, num: int, slot: SlotFn)
    requires Inv(c, slot) && CanSend(c) && self in c
    ensures CanMove(c[self], c[self].slots[..Quota(num, |c[self].slots|)], slot)
  {
    var n, rm := c[self], c[self].slots[..Quota(num, |c[self].slots|)];
    assert NodeOk(n, slot) && NodeSendable(n);
    forall k | k in MovedKeys(n.keys, rm, slot)
      ensures A.Carried(n.db, k)
    {
      assert KeyOk(n, k, slot) && KeySendable(n, k);
    }
  }

  lemma SayableIsPossible(c: Nodes, e: Event, walk: H.Walk, slot: SlotFn)
    requires Inv(c, slot) && CanSend(c) && Among(c.Keys, e) && Sayable(e) && H.Walks(walk)
    ensures Possible(c, e, slot) && CanSend(Step(c, e, walk, slot).nodes)
  {
    match e {
      case Move(self, num, dst) =>
        SendableCanMove(c, self, num, slot);
        MigratedByIsMigrated(c, self, num, dst, walk, slot);
        CanSendAfterMove(c, self, num, dst, slot);
      case Client(self, order, cmd, hops) =>
        SpeakableTravels(cmd);
        CanSendAfterCommand(c, self, order, cmd, slot, hops);
    }
  }

  /** From nodes whose contents can be sent, such commands and migrations can come in any order. */
  lemma {:induction false} SayableRunIsPossible(c: Nodes, es: seq<Event>, walk: H.Walk, slot: SlotFn, g: Db)
    requires Agrees(c, slot, g) && CanSend(c) && AllAmong(c.Keys, es) && H.Walks(walk)
    requires forall i :: 0 <= i < |es| ==> Sayable(es[i])
    ensures PossibleRun(c, es, walk, slot)
    decreases |es|
  {
    if es != [] {
      TailAmong(c.Keys, es);
      SayableIsPossible(c, es[0], walk, slot);
      StepAgrees(c, es[0], walk, slot, g);
      SayableRunIsPossible(Step(c, es[0], walk, slot).nodes, es[1..], walk, slot, PlainStep(g, es[0]).0);
    }
  }

  // ----- an unknown destination

  /** reshard has happened before the destination is looked up: the slots are gone. */
  function MigratedNowhere(c: Nodes, self: Id, num: int, slot: SlotFn): Nodes
    requires self in c
  {
    var t := Quota(num, |c[self].slots|);
    c[self := Source(c[self], t, slot).(db := c[self].db)]
  }

  lemma NowhereLosesSlots(c: Nodes, self: Id, num: int, slot: SlotFn, s: Slot)
    requires Inv(c, slot) && self in c
    ensures var rm := c[self].slots[..Quota(num, |c[self].slots|)];
            HasSlot(MigratedNowhere(c, self, num, slot), s) <==> HasSlot(c, s) && s !in rm
  {
    var t, c' := Quota(num, |c[self].slots|), MigratedNowhere(c, self, num, slot);
    var rm := c[self].slots[..t];
    assert NodeOk(c[self], slot);
    SplitSlot(c[self].slots, t, s);
    if id :| id in c' && s in c'[id].slots {
      assert s in c[id].slots;
      assert id == self || Apart(c[id], c[self]);
    }
    if s !in rm {
      if id :| id in c && s in c[id].slots {
        assert s in c'[id].slots;
      }
    }
  }

  /** The cluster still holds what it held exactly if no key lies in those slots. */
  lemma NowhereIff(c: Nodes, self: Id, num: int, slot: SlotFn, g: Db)
    requires Inv(c, slot) && Shows(c, slot, g) && self in c
    ensures var rm := c[self].slots[..Quota(num, |c[self].slots|)];
            Shows(MigratedNowhere(c, self, num, slot), slot, g) <==> MovedKeys(c[self].keys, rm, slot) == {}
  {
    var c', n := MigratedNowhere(c, self, num, slot), c[self];
    var rm := n.slots[..Quota(num, |n.slots|)];
    assert NodeOk(n, slot);
    forall k
      ensures ShowsKey(c', slot, g, k) <==> k !in MovedKeys(n.keys, rm, slot)
    {
      NowhereKey(c, self, num, slot, g, k);
    }
    if Shows(c', slot, g) {
      assert forall k :: k in MovedKeys(n.keys, rm, slot) ==> !ShowsKey(c', slot, g, k);
    }
  }

  lemma NowhereKey(c: Nodes, self: Id, num: int, slot: SlotFn, g: Db, k: string)
    requires Inv(c, slot) && Shows(c, slot, g) && self in c
    ensures var rm := c[self].slots[..Quota(num, |c[self].slots|)];
            ShowsKey(MigratedNowhere(c, self, num, slot), slot, g, k) <==> k !in MovedKeys(c[self].keys, rm, slot)
  {
    var c', n := MigratedNowhere(c, self, num, slot), c[self];
    var t := Quota(num, |n.slots|);
    assert NodeOk(n, slot) && KeyOk(n, k, slot) && ShowsKey(c, slot, g, k);
    SplitSlot(n.slots, t, slot(k));
    forall id | id in c
      ensures Owns(c'[id], k, slot) <==> Owns(c[id], k, slot) && slot(k) !in n.slots[..t]
    {
      assert id == self || Apart(c[id], n);
    }
    if slot(k) in n.slots[..t] {
      assert Owns(c[self], k, slot);
    } else {
      assert forall id :: id in c ==> c'[id].db == c[id].db;
    }
  }
}
