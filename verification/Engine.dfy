/**
 The storage engine as the Ruby extension drives it: containers changed in place, one log
 operation per changed element, and the background worker that drains the queue. Every
 method is a sequence of steps of WriteBehind, so the invariant holds throughout.
 */
module StorageEngine {
  import opened Options
  import opened Rows
  import opened Sequences
  import opened Persistence
  import opened WriteBehind

  /** The row LIMIT 1 picks: the proposed one if it matches, else the first that does. */
  function FirstItem(rows: seq<Row>, key: string, was: string): (i: nat)
    ensures i <= |rows|
    ensures i < |rows| ==> IsListItem(rows[i], key, was)
    ensures i == |rows| ==> NoListItem(rows, key, was)
  {
    if rows == [] || IsListItem(rows[0], key, was) then 0 else 1 + FirstItem(rows[1..], key, was)
  }

  function PickItem(rows: seq<Row>, key: string, was: string, pick: nat): (i: nat)
    ensures i <= |rows|
    ensures i < |rows| ==> IsListItem(rows[i], key, was)
    ensures i == |rows| ==> NoListItem(rows, key, was)
  {
    if pick < |rows| && IsListItem(rows[pick], key, was) then pick else FirstItem(rows, key, was)
  }

  /** The dispatch of bio_worker. */
  function RunQuery(rows: seq<Row>, op: Op, pick: nat): (rows': seq<Row>)
    ensures Applies(rows, op, rows')
  {
    match op
    case StringAdd(key, data) => rows + [Row(key, NULL, StringRow, data)]
    case StringUpdate(key, data) => Changed(rows, r => IsString(r, key), data)
    case StringDel(key) => Without(rows, r => IsString(r, key))
    case ListAdd(key, data) => rows + [Row(key, NULL, ListRow, data)]
    case ListDel(key, was) =>
      var i := PickItem(rows, key, was, pick);
      if i < |rows| then rows[..i] + rows[i + 1..] else rows
    case ListUpdate(key, was, data) =>
      var i := PickItem(rows, key, was, pick);
      if i < |rows| then rows[i := rows[i].(value := data)] else rows
    case HashmapAdd(key, skey, data) => rows + [Row(key, skey, HashmapRow, data)]
    case HashmapUpdate(key, skey, data) => Changed(rows, r => IsField(r, key, skey), data)
    case HashmapDel(key, skey) => Without(rows, r => IsKind(r, HashmapRow, key, skey))
    case SetAdd(key, skey) => rows + [Row(key, skey, SetRow, NULL)]
    case SetDel(key, skey) => Without(rows, r => IsKind(r, SetRow, key, skey))
  }

  /** An enumeration of a set of subkeys, as a skiplist iterator gives it. */
  ghost predicate Enumerates(order: seq<string>, keys: set<string>) {
    Distinct(order) && keys == Elements(order)
  }

  /** Visiting one subkey leaves an enumeration of the others. */
  lemma EnumeratesTail(order: seq<string>, i: nat, keys: set<string>)
    requires i < |order| && Enumerates(order[i..], keys)
    ensures order[i] in keys && Enumerates(order[i + 1..], keys - {order[i]})
  {
    var rest := order[i..];
    assert rest[0] == order[i] && rest[1..] == order[i + 1..];
    assert rest == [rest[0]] + rest[1..];
    assert forall j :: 0 <= j < |rest[1..]| ==> rest[1..][j] == rest[j + 1];
  }

  lemma NothingLeft(order: seq<string>, keys: set<string>)
    requires Enumerates(order[|order|..], keys)
    ensures keys == {}
  {
  }

  // ----- the fields an iterator visits

  datatype Field = Field(skey: string, data: string)

  /** The nodes of a hashmap in the order of its iterator. */
  function Visited(fields: map<string, string>, order: seq<string>): (r: seq<Field>)
    requires forall i :: 0 <= i < |order| ==> order[i] in fields
    ensures |r| == |order| && forall i :: 0 <= i < |r| ==> r[i] == Field(order[i], fields[order[i]])
  {
    seq(|order|, i requires 0 <= i < |order| => Field(order[i], fields[order[i]]))
  }

  /** The hashmap of the first n of them. */
  function Built(fs: seq<Field>, n: nat): map<string, string>
    requires n <= |fs|
  {
    if n == 0 then map[] else Built(fs, n - 1)[fs[n - 1].skey := fs[n - 1].data]
  }

  predicate NewAt(fs: seq<Field>, i: nat) {
    i < |fs| && fs[i].skey !in Built(fs, i)
  }

  lemma {:induction false} BuiltFields(fields: map<string, string>, order: seq<string>, n: nat)
    requires n <= |order| && forall i :: 0 <= i < |order| ==> order[i] in fields
    ensures var m := Built(Visited(fields, order), n);
            m.Keys == Elements(order[..n]) && forall k :: k in m ==> k in fields && m[k] == fields[k]
  {
    if n > 0 {
      BuiltFields(fields, order, n - 1);
      ElementsSnoc(order, n - 1);
    } else {
      assert Elements(order[..0]) == {};
    }
  }

  /** Every field visited is new, and together they are the hashmap. */
  lemma VisitsAll(fields: map<string, string>, order: seq<string>)
    requires Enumerates(order, fields.Keys)
    ensures forall i :: 0 <= i < |order| ==> order[i] in fields
    ensures var fs := Visited(fields, order); Built(fs, |fs|) == fields && forall i :: 0 <= i < |fs| ==> NewAt(fs, i)
  {
    OrderedFields(fields, order);
    var fs := Visited(fields, order);
    forall i | 0 <= i < |fs|
      ensures NewAt(fs, i)
    {
      BuiltFields(fields, order, i);
    }
    BuiltFields(fields, order, |order|);
    assert order[..|order|] == order;
  }

  /** The fields that are left when the first n have been removed. */
  function LeftAfter(fields: map<string, string>, order: seq<string>, n: nat): map<string, string>
    requires n <= |order|
  {
    if n == 0 then fields else LeftAfter(fields, order, n - 1) - {order[n - 1]}
  }

  predicate StillAt(fields: map<string, string>, order: seq<string>, i: nat) {
    i < |order| && order[i] in LeftAfter(fields, order, i)
  }

  lemma {:induction false} LeftFields(fields: map<string, string>, order: seq<string>, n: nat)
    requires n <= |order|
    ensures LeftAfter(fields, order, n).Keys == fields.Keys - Elements(order[..n])
  {
    if n > 0 {
      LeftFields(fields, order, n - 1);
      ElementsSnoc(order, n - 1);
    } else {
      assert Elements(order[..0]) == {};
    }
  }

  /** Every field is still there when its turn comes, and none is left at the end. */
  lemma ClearsAll(fields: map<string, string>, order: seq<string>)
    requires Enumerates(order, fields.Keys)
    ensures forall i :: 0 <= i < |order| ==> StillAt(fields, order, i)
    ensures LeftAfter(fields, order, |order|) == map[]
  {
    OrderedFields(fields, order);
    forall i | 0 <= i < |order|
      ensures StillAt(fields, order, i)
    {
      LeftFields(fields, order, i);
    }
    LeftFields(fields, order, |order|);
    assert order[..|order|] == order;
    assert LeftAfter(fields, order, |order|).Keys == {};
  }

  // ----- the operations logged for a whole value

  function ListDels(key: string, items: seq<string>): (r: seq<Op>)
    ensures |r| == |items| && forall i :: 0 <= i < |r| ==> r[i] == ListDel(key, items[i])
  {
    seq(|items|, i requires 0 <= i < |items| => ListDel(key, items[i]))
  }

  function HashmapDels(key: string, order: seq<string>): (r: seq<Op>)
    ensures |r| == |order| && forall i :: 0 <= i < |r| ==> r[i] == HashmapDel(key, order[i])
  {
    seq(|order|, i requires 0 <= i < |order| => HashmapDel(key, order[i]))
  }

  function SetDels(key: string, order: seq<string>): (r: seq<Op>)
    ensures |r| == |order| && forall i :: 0 <= i < |r| ==> r[i] == SetDel(key, order[i])
  {
    seq(|order|, i requires 0 <= i < |order| => SetDel(key, order[i]))
  }

  function ListAdds(key: string, items: seq<string>): (r: seq<Op>)
    ensures |r| == |items| && forall i :: 0 <= i < |r| ==> r[i] == ListAdd(key, items[i])
  {
    seq(|items|, i requires 0 <= i < |items| => ListAdd(key, items[i]))
  }

  function HashmapAdds(key: string, fs: seq<Field>): (r: seq<Op>)
    ensures |r| == |fs| && forall i :: 0 <= i < |r| ==> r[i] == HashmapAdd(key, fs[i].skey, fs[i].data)
  {
    seq(|fs|, i requires 0 <= i < |fs| => HashmapAdd(key, fs[i].skey, fs[i].data))
  }

  function SetAdds(key: string, order: seq<string>): (r: seq<Op>)
    ensures |r| == |order| && forall i :: 0 <= i < |r| ==> r[i] == SetAdd(key, order[i])
  {
    seq(|order|, i requires 0 <= i < |order| => SetAdd(key, order[i]))
  }

  /** One element removed each, in the order of the list or of the iterator. */
  function DropOps(key: string, v: Value, order: seq<string>): seq<Op> {
    match v
    case Str(_) => [StringDel(key)]
    case List(items) => ListDels(key, items)
    case Hashmap(_) => HashmapDels(key, order)
    case Members(_) => SetDels(key, order)
  }

  /** One element added each. */
  ghost function FillOps(key: string, v: Value, order: seq<string>): seq<Op>
    requires Engine.OrderOf(v, order)
  {
    match v
    case Str(text) => [StringAdd(key, text)]
    case List(items) => ListAdds(key, items)
    case Hashmap(fields) =>
      OrderedFields(fields, order);
      HashmapAdds(key, Visited(fields, order))
    case Members(_) => SetAdds(key, order)
  }

  lemma OrderedFields(fields: map<string, string>, order: seq<string>)
    requires Enumerates(order, fields.Keys)
    ensures forall i :: 0 <= i < |order| ==> order[i] in fields
  {
    assert forall i :: 0 <= i < |order| ==> order[i] in Elements(order);
  }

  /** The queue with the first operations of a sequence, and with all of them. */
  lemma Logs(queue: seq<Op>, ops: seq<Op>, i: nat)
    requires i < |ops|
    ensures queue + ops[..i] + [ops[i]] == queue + ops[..i + 1]
  {
  }

  lemma PutTwice(db: Db, key: string, v: Value, v': Value)
    ensures db[key := v][key := v'] == db[key := v']
  {
  }

  lemma Unchanged(db: Db, key: string)
    requires key in db
    ensures db[key := db[key]] == db
  {
  }

  lemma LogsEnds(queue: seq<Op>, ops: seq<Op>)
    ensures queue + ops[..0] == queue && queue + ops[..|ops|] == queue + ops
  {
  }

  class Engine {
    var db: Db
    var queue: seq<Op>
    var worker: Worker
    var disk: seq<Row>
    ghost var loose: set<string>
    ghost var queued: seq<Op>
    ghost var applied: seq<Op>

    ghost function S(): Sys
      reads this
    {
      Sys(db, queue, worker, disk, false, Running, loose, queued, applied)
    }

    ghost predicate Valid()
      reads this
    {
      Inv(S())
    }

    /** Engine.start on rows that represent some database. */
    constructor (rows: seq<Row>, ghost was: Db, ghost wasLoose: set<string>)
      requires Represents(rows, was, wasLoose)
      ensures Valid() && db == Load(rows) && queue == [] && disk == rows
      ensures forall k :: Reloaded(Get(db, k), Get(was, k), k in wasLoose)
    {
      db, queue, worker, disk := Load(rows), [], Waiting, rows;
      loose, queued, applied := {}, [], [];
      new;
      RestartIsInit(rows, was, wasLoose);
      RunKeeps([S()]);
      forall k
        ensures Reloaded(Get(db, k), Get(was, k), k in wasLoose)
      {
        LoadIsLocal(rows, k);
        LoadOfRepresented(RowsOf(rows, k), Get(was, k), k in wasLoose);
      }
    }

    // ----- single steps

    /** Change one value and call xfiredb_notice_disk. */
    method Change(op: Op, v: Option<Value>)
      requires Valid() && Logged(Get(db, op.key), op, v)
      modifies this`db, this`queue, this`queued, this`loose
      ensures Valid() && db == Put(old(db), op.key, v) && queue == old(queue) + [op]
    {
      ghost var s := S();
      loose := Loosened(loose, Get(db, op.key), op, v);
      db := Put(db, op.key, v);
      queue, queued := queue + [op], queued + [op];
      assert Produce(s, S(), op);
      NextKeeps(s, S());
    }

    /** Create, drop or replace a container that has no elements. */
    method Quiet(key: string, v: Option<Value>)
      requires Valid() && Vacant(Get(db, key)) && Vacant(v)
      modifies this`db
      ensures Valid() && db == Put(old(db), key, v)
    {
      ghost var s := S();
      db := Put(db, key, v);
      assert Silent(s, S(), key);
      NextKeeps(s, S());
    }

    /** bio_worker: pop and apply until the queue is empty; picks resolve LIMIT 1. */
    method DrainQueue(picks: nat -> nat)
      requires Valid() && worker == Waiting
      modifies this`queue, this`worker, this`disk, this`applied
      ensures Valid() && worker == Waiting && queue == [] && applied == queued
      ensures Represents(disk, db, loose)
    {
      ghost var s0 := S();
      worker := Draining;
      assert Work(s0, S());
      NextKeeps(s0, S());
      while queue != []
        invariant Valid() && worker == Draining
        invariant db == old(db) && loose == old(loose) && queued == old(queued)
        decreases |queue|
      {
        ghost var s1 := S();
        var op := queue[0];
        worker, queue := Applying(op), queue[1..];
        assert Work(s1, S());
        NextKeeps(s1, S());
        ghost var s2 := S();
        disk := RunQuery(disk, op, picks(|queue|));
        worker, applied := Draining, applied + [op];
        assert Work(s2, S());
        NextKeeps(s2, S());
      }
      ghost var s3 := S();
      worker := Checking;
      assert Work(s3, S());
      NextKeeps(s3, S());
      ghost var s4 := S();
      worker := Waiting;
      assert Work(s4, S());
      NextKeeps(s4, S());
      assert Pending(S()) == [];
      assert Outcome(disk, [], disk);
    }

    // ----- lists

    method ListPush(key: string, data: string)
      requires Valid() && key in db && db[key].List?
      modifies this`db, this`queue, this`queued, this`loose
      ensures Valid() && db == old(db)[key := List(old(db)[key].items + [data])]
      ensures queue == old(queue) + [ListAdd(key, data)]
    {
      Change(ListAdd(key, data), Some(List(db[key].items + [data])));
    }

    /** list_ref finds nothing at a negative or too large index; then nothing changes. */
    method ListSet(key: string, idx: int, data: string) returns (ok: bool)
      requires Valid() && key in db && db[key].List?
      modifies this`db, this`queue, this`queued, this`loose
      ensures Valid() && ok == (0 <= idx < |old(db)[key].items|)
      ensures ok ==> db == old(db)[key := List(old(db)[key].items[idx := data])]
                     && queue == old(queue) + [ListUpdate(key, old(db)[key].items[idx], data)]
      ensures !ok ==> db == old(db) && queue == old(queue)
    {
      var items := db[key].items;
      ok := 0 <= idx < |items|;
      if ok {
        Change(ListUpdate(key, items[idx], data), Some(List(items[idx := data])));
      }
    }

    method ListPop(key: string, idx: int) returns (r: Option<string>)
      requires Valid() && key in db && db[key].List?
      modifies this`db, this`queue, this`queued, this`loose
      ensures Valid() && r.Some? == (0 <= idx < |old(db)[key].items|)
      ensures r.Some? ==> r.value == old(db)[key].items[idx]
                          && db == old(db)[key := List(Removed(old(db)[key].items, idx))]
                          && queue == old(queue) + [ListDel(key, r.value)]
      ensures r.None? ==> db == old(db) && queue == old(queue)
    {
      var items := db[key].items;
      if !(0 <= idx < |items|) {
        return None;
      }
      Change(ListDel(key, items[idx]), Some(List(items[..idx] + items[idx + 1..])));
      r := Some(items[idx]);
    }

    /** raw_rb_list_clear. */
    method ListClear(key: string)
      requires Valid() && key in db && db[key].List?
      modifies this`db, this`queue, this`queued, this`loose
      ensures Valid() && db == old(db)[key := List([])]
      ensures queue == old(queue) + ListDels(key, old(db)[key].items)
    {
      var all := db[key].items;
      ghost var ops := ListDels(key, all);
      LogsEnds(queue, ops);
      assert all[0..] == all;
      for i := 0 to |all|
        invariant Valid() && db == old(db)[key := List(all[i..])] && queue == old(queue) + ops[..i]
      {
        Logs(old(queue), ops, i);
        ListClearOne(key, all, i);
      }
      assert all[|all|..] == [];
    }

    /** One round of the loop: the item at the head goes. */
    method ListClearOne(key: string, all: seq<string>, i: nat)
      requires Valid() && i < |all| && key in db && db[key] == List(all[i..])
      modifies this`db, this`queue, this`queued, this`loose
      ensures Valid() && db == old(db)[key := List(all[i + 1..])] && queue == old(queue) + [ListDel(key, all[i])]
    {
      var items := all[i..];
      assert items[0] == all[i] && items[..0] + items[1..] == all[i + 1..];
      Change(ListDel(key, items[0]), Some(List(items[..0] + items[1..])));
    }

    // ----- hashmaps

    /** rb_hashmap_store. */
    method HashmapStore(key: string, skey: string, data: string)
      requires Valid() && key in db && db[key].Hashmap?
      modifies this`db, this`queue, this`queued, this`loose
      ensures Valid() && db == old(db)[key := Hashmap(old(db)[key].fields[skey := data])]
      ensures queue == old(queue) + [if skey in old(db)[key].fields then HashmapUpdate(key, skey, data)
                                     else HashmapAdd(key, skey, data)]
    {
      var fields := db[key].fields;
      if skey !in fields {
        Change(HashmapAdd(key, skey, data), Some(Hashmap(fields[skey := data])));
      } else {
        Change(HashmapUpdate(key, skey, data), Some(Hashmap(fields[skey := data])));
      }
    }

    /** rb_hashmap_delete. */
    method HashmapDelete(key: string, skey: string) returns (r: Option<string>)
      requires Valid() && key in db && db[key].Hashmap?
      modifies this`db, this`queue, this`queued, this`loose
      ensures Valid() && r == (if skey in old(db)[key].fields then Some(old(db)[key].fields[skey]) else None)
      ensures db == old(db)[key := Hashmap(old(db)[key].fields - {skey})]
      ensures queue == if skey in old(db)[key].fields then old(queue) + [HashmapDel(key, skey)] else old(queue)
    {
      var fields := db[key].fields;
      if skey !in fields {
        assert fields - {skey} == fields;
        return None;
      }
      Change(HashmapDel(key, skey), Some(Hashmap(fields - {skey})));
      r := Some(fields[skey]);
    }

    /** rb_hashmap_remove, in the order of the iterator. */
    method HashmapClear(key: string, order: seq<string>)
      requires Valid() && key in db && db[key].Hashmap? && Enumerates(order, db[key].fields.Keys)
      modifies this`db, this`queue, this`queued, this`loose
      ensures Valid() && db == old(db)[key := Hashmap(map[])] && queue == old(queue) + HashmapDels(key, order)
    {
      ClearsAll(db[key].fields, order);
      ClearFields(key, db[key].fields, order);
    }

    /** The loop over the fields. */
    method ClearFields(key: string, fields: map<string, string>, order: seq<string>)
      requires Valid() && key in db && db[key] == Hashmap(fields)
      requires forall i {:trigger StillAt(fields, order, i)} :: 0 <= i < |order| ==> StillAt(fields, order, i)
      modifies this`db, this`queue, this`queued, this`loose
      ensures Valid() && db == old(db)[key := Hashmap(LeftAfter(fields, order, |order|))]
      ensures queue == old(queue) + HashmapDels(key, order)
    {
      ghost var ops, was, start := HashmapDels(key, order), queue, db;
      LogsEnds(was, ops);
      Unchanged(start, key);
      var left := fields;
      for i := 0 to |order|
        invariant Valid() && db == start[key := Hashmap(left)] && left == LeftAfter(fields, order, i)
        invariant queue == was + ops[..i]
      {
        Logs(was, ops, i);
        assert StillAt(fields, order, i);
        PutTwice(start, key, Hashmap(left), Hashmap(left - {order[i]}));
        left := ClearField(key, left, order[i]);
      }
    }

    /** One round of the loop: the next field goes. */
    method ClearField(key: string, fields: map<string, string>, skey: string) returns (left: map<string, string>)
      requires Valid() && skey in fields && key in db && db[key] == Hashmap(fields)
      modifies this`db, this`queue, this`queued, this`loose
      ensures left == fields - {skey}
      ensures Valid() && db == old(db)[key := Hashmap(left)] && queue == old(queue) + [HashmapDel(key, skey)]
    {
      left := fields - {skey};
      Change(HashmapDel(key, skey), Some(Hashmap(left)));
    }

    // ----- sets

    /** rb_set_add. */
    method SetInsert(key: string, skey: string) returns (added: bool)
      requires Valid() && key in db && db[key].Members?
      modifies this`db, this`queue, this`queued, this`loose
      ensures Valid() && added == (skey !in old(db)[key].keys)
      ensures db == old(db)[key := Members(old(db)[key].keys + {skey})]
      ensures queue == if added then old(queue) + [SetAdd(key, skey)] else old(queue)
    {
      var keys := db[key].keys;
      added := skey !in keys;
      if added {
        Change(SetAdd(key, skey), Some(Members(keys + {skey})));
      } else {
        assert keys + {skey} == keys;
      }
    }

    /** rb_set_remove_key. */
    method SetRemove(key: string, skey: string) returns (removed: bool)
      requires Valid() && key in db && db[key].Members?
      modifies this`db, this`queue, this`queued, this`loose
      ensures Valid() && removed == (skey in old(db)[key].keys)
      ensures db == old(db)[key := Members(old(db)[key].keys - {skey})]
      ensures queue == if removed then old(queue) + [SetDel(key, skey)] else old(queue)
    {
      var keys := db[key].keys;
      removed := skey in keys;
      if removed {
        Change(SetDel(key, skey), Some(Members(keys - {skey})));
      } else {
        assert keys - {skey} == keys;
      }
    }

    /** rb_set_remove, in the order of the iterator. */
    method SetClear(key: string, order: seq<string>)
      requires Valid() && key in db && db[key].Members? && Enumerates(order, db[key].keys)
      modifies this`db, this`queue, this`queued, this`loose
      ensures Valid() && db == old(db)[key := Members({})] && queue == old(queue) + SetDels(key, order)
    {
      assert order[0..] == order;
      ghost var ops := SetDels(key, order);
      LogsEnds(queue, ops);
      for i := 0 to |order|
        invariant Valid() && key in db && db[key].Members?
        invariant db == old(db)[key := db[key]] && queue == old(queue) + ops[..i]
        invariant Enumerates(order[i..], db[key].keys)
      {
        Logs(old(queue), ops, i);
        EnumeratesTail(order, i, db[key].keys);
        Change(SetDel(key, order[i]), Some(Members(db[key].keys - {order[i]})));
      }
      NothingLeft(order, db[key].keys);
    }

    // ----- the database

    /** The subkeys a container's iterator will visit. */
    static ghost predicate OrderOf(v: Value, order: seq<string>) {
      match v
      case Hashmap(fields) => Enumerates(order, fields.Keys)
      case Members(keys) => Enumerates(order, keys)
      case _ => true
    }

    /** rb_db_delete and raw_rb_db_delete: log the removal of every element, then drop the key. */
    method Delete(key: string, order: seq<string>) returns (found: bool)
      requires Valid() && (key in db ==> OrderOf(db[key], order))
      modifies this`db, this`queue, this`queued, this`loose
      ensures Valid() && found == (key in old(db)) && db == old(db) - {key}
      ensures queue == if found then old(queue) + DropOps(key, old(db)[key], order) else old(queue)
    {
      found := key in db;
      if !found {
        assert db - {key} == db;
        return;
      }
      match db[key] {
        case Str(_) =>
          Change(StringDel(key), None);
        case List(_) =>
          ListClear(key);
          Quiet(key, None);
        case Hashmap(_) =>
          HashmapClear(key, order);
          Quiet(key, None);
        case Members(_) =>
          SetClear(key, order);
          Quiet(key, None);
      }
      assert db == old(db) - {key};
    }

    /** xfiredb_store_container for a key that holds nothing: one operation per element. */
    method Fill(key: string, v: Value, order: seq<string>)
      requires Valid() && key !in db && OrderOf(v, order)
      modifies this`db, this`queue, this`queued, this`loose
      ensures Valid() && db == old(db)[key := v] && queue == old(queue) + FillOps(key, v, order)
    {
      match v {
        case Str(text) =>
          Change(StringAdd(key, text), Some(v));
        case List(items) =>
          FillList(key, items);
        case Hashmap(fields) =>
          VisitsAll(fields, order);
          FillHashmap(key, Visited(fields, order));
        case Members(keys) =>
          FillSet(key, keys, order);
      }
    }

    method FillList(key: string, items: seq<string>)
      requires Valid() && key !in db
      modifies this`db, this`queue, this`queued, this`loose
      ensures Valid() && db == old(db)[key := List(items)] && queue == old(queue) + ListAdds(key, items)
    {
      Quiet(key, Some(List([])));
      ghost var ops := ListAdds(key, items);
      LogsEnds(queue, ops);
      for i := 0 to |items|
        invariant Valid() && db == old(db)[key := List(items[..i])] && queue == old(queue) + ops[..i]
      {
        Logs(old(queue), ops, i);
        ListPush(key, items[i]);
        assert items[..i] + [items[i]] == items[..i + 1];
      }
      assert items[..|items|] == items;
    }

    method FillHashmap(key: string, fs: seq<Field>)
      requires Valid() && key !in db && forall i {:trigger NewAt(fs, i)} :: 0 <= i < |fs| ==> NewAt(fs, i)
      modifies this`db, this`queue, this`queued, this`loose
      ensures Valid() && db == old(db)[key := Hashmap(Built(fs, |fs|))] && queue == old(queue) + HashmapAdds(key, fs)
    {
      Quiet(key, Some(Hashmap(map[])));
      FillFields(key, fs);
    }

    /** The loop over the nodes of the container. */
    method FillFields(key: string, fs: seq<Field>)
      requires Valid() && key in db && db[key] == Hashmap(Built(fs, 0))
      requires forall i {:trigger NewAt(fs, i)} :: 0 <= i < |fs| ==> NewAt(fs, i)
      modifies this`db, this`queue, this`queued, this`loose
      ensures Valid() && db == old(db)[key := Hashmap(Built(fs, |fs|))] && queue == old(queue) + HashmapAdds(key, fs)
    {
      ghost var ops, was, start := HashmapAdds(key, fs), queue, db;
      LogsEnds(was, ops);
      Unchanged(start, key);
      for i := 0 to |fs|
        invariant Valid() && db == start[key := Hashmap(Built(fs, i))]
        invariant queue == was + ops[..i]
      {
        Logs(was, ops, i);
        assert NewAt(fs, i);
        PutTwice(start, key, Hashmap(Built(fs, i)), Hashmap(Built(fs, i + 1)));
        FillField(key, fs, i);
      }
    }

    /** One round of the loop: the next field is added. */
    method FillField(key: string, fs: seq<Field>, i: nat)
      requires Valid() && NewAt(fs, i) && key in db && db[key] == Hashmap(Built(fs, i))
      modifies this`db, this`queue, this`queued, this`loose
      ensures Valid() && db == old(db)[key := Hashmap(Built(fs, i + 1))]
      ensures queue == old(queue) + [HashmapAdd(key, fs[i].skey, fs[i].data)]
    {
      Change(HashmapAdd(key, fs[i].skey, fs[i].data), Some(Hashmap(db[key].fields[fs[i].skey := fs[i].data])));
    }

    method FillSet(key: string, keys: set<string>, order: seq<string>)
      requires Valid() && key !in db && Enumerates(order, keys)
      modifies this`db, this`queue, this`queued, this`loose
      ensures Valid() && db == old(db)[key := Members(keys)] && queue == old(queue) + SetAdds(key, order)
    {
      Quiet(key, Some(Members({})));
      ghost var ops := SetAdds(key, order);
      LogsEnds(queue, ops);
      assert Elements(order[..0]) == {};
      for i := 0 to |order|
        invariant Valid() && db == old(db)[key := Members(Elements(order[..i]))] && queue == old(queue) + ops[..i]
      {
        Logs(old(queue), ops, i);
        ElementsSnoc(order, i);
        var added := SetInsert(key, order[i]);
      }
      assert order[..|order|] == order;
    }

    /** rb_db_store of a fresh value: a string over a string is updated, anything else is deleted first. */
    method Store(key: string, v: Value, order: seq<string>, oldOrder: seq<string>)
      requires Valid() && OrderOf(v, order) && (key in db ==> OrderOf(db[key], oldOrder))
      modifies this`db, this`queue, this`queued, this`loose
      ensures Valid() && db == old(db)[key := v]
      ensures queue == old(queue) + StoreOps(key, Get(old(db), key), v, order, oldOrder)
    {
      if key in db && db[key].Str? && v.Str? {
        Change(StringUpdate(key, v.text), Some(v));
        return;
      }
      var found := Delete(key, oldOrder);
      Fill(key, v, order);
      assert (old(db) - {key})[key := v] == old(db)[key := v];
      LogsTwice(old(queue), if found then DropOps(key, old(db)[key], oldOrder) else [], FillOps(key, v, order));
    }
  }

  /** What storing a value over another logs. */
  ghost function StoreOps(key: string, was: Option<Value>, v: Value, order: seq<string>, oldOrder: seq<string>): seq<Op>
    requires Engine.OrderOf(v, order)
  {
    if was.Some? && was.value.Str? && v.Str? then [StringUpdate(key, v.text)]
    else (if was.Some? then DropOps(key, was.value, oldOrder) else []) + FillOps(key, v, order)
  }

  lemma LogsTwice(queue: seq<Op>, a: seq<Op>, b: seq<Op>)
    ensures (queue + a) + b == queue + (a + b) && queue + [] == queue
  {
  }
}
