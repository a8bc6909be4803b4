/**
 Whole runs of the write-behind machinery: producers, the FIFO queue, the background
 worker and its shutdown, and the load at the next start.
 */
module WriteBehind {
  import opened Options
  import opened Rows
  import opened Persistence

  /** bio_worker inside job_processor: asleep, popping, applying one operation, testing done, gone. */
  datatype Worker = Waiting | Draining | Applying(op: Op) | Checking | Exited

  /** The producers' side: running, or stopped with bio_sync returned. */
  datatype Phase = Running | Synced

  /**
   The engine with persist_level below 3 and its load state set. The history fields
   record what was queued and what has reached the disk; loose holds the keys of lists
   whose order the rows may have lost.
   */
  datatype Sys = Sys(db: Db, queue: seq<Op>, worker: Worker, disk: seq<Row>, done: bool, phase: Phase,
                     loose: set<string>, queued: seq<Op>, applied: seq<Op>)

  function InFlight(s: Sys): seq<Op> {
    if s.worker.Applying? then [s.worker.op] else []
  }

  function Pending(s: Sys): seq<Op> {
    InFlight(s) + s.queue
  }

  // ----- outcomes of a sequence of queries

  ghost predicate Outcome(rows: seq<Row>, ops: seq<Op>, rows': seq<Row>) {
    if ops == [] then rows' == rows
    else
      var init, last := ops[..|ops| - 1], ops[|ops| - 1];
      exists mid :: Outcome(rows, init, mid) && Applies(mid, last, rows')
  }

  lemma OutcomeSnoc(rows: seq<Row>, ops: seq<Op>, op: Op, rows': seq<Row>)
    requires Outcome(rows, ops + [op], rows')
    ensures exists mid :: Outcome(rows, ops, mid) && Applies(mid, op, rows')
  {
    assert (ops + [op])[..|ops|] == ops;
  }

  lemma OutcomeExtends(rows: seq<Row>, ops: seq<Op>, mid: seq<Row>, op: Op, rows': seq<Row>)
    requires Outcome(rows, ops, mid) && Applies(mid, op, rows')
    ensures Outcome(rows, ops + [op], rows')
  {
    assert (ops + [op])[..|ops|] == ops;
  }

  /** Applying the first operation now leaves a subset of the outcomes. */
  lemma {:induction false} OutcomeCons(rows: seq<Row>, op: Op, mid: seq<Row>, ops: seq<Op>, rows': seq<Row>)
    requires Applies(rows, op, mid) && Outcome(mid, ops, rows')
    ensures Outcome(rows, [op] + ops, rows')
    decreases |ops|
  {
    if ops == [] {
      assert Outcome(rows, [], rows);
      OutcomeExtends(rows, [], rows, op, rows');
      assert [] + [op] == [op] + ops;
    } else {
      var n := |ops| - 1;
      var m :| Outcome(mid, ops[..n], m) && Applies(m, ops[n], rows');
      OutcomeCons(rows, op, mid, ops[..n], m);
      OutcomeExtends(rows, [op] + ops[..n], m, ops[n], rows');
      assert [op] + ops[..n] + [ops[n]] == [op] + ops;
    }
  }

  /** Every query has an outcome, so pending operations always lead somewhere. */
  lemma AppliesSomehow(rows: seq<Row>, op: Op) returns (rows': seq<Row>)
    ensures Applies(rows, op, rows')
  {
    match op {
      case StringAdd(key, data) => rows' := rows + [Row(key, NULL, StringRow, data)];
      case StringUpdate(key, data) => rows' := Changed(rows, r => IsString(r, key), data);
      case StringDel(key) => rows' := Without(rows, r => IsString(r, key));
      case ListAdd(key, data) => rows' := rows + [Row(key, NULL, ListRow, data)];
      case ListDel(key, was) =>
        if NoListItem(rows, key, was) {
          rows' := rows;
        } else {
          var i :| 0 <= i < |rows| && IsListItem(rows[i], key, was);
          rows' := rows[..i] + rows[i + 1..];
        }
      case ListUpdate(key, was, data) =>
        if NoListItem(rows, key, was) {
          rows' := rows;
        } else {
          var i :| 0 <= i < |rows| && IsListItem(rows[i], key, was);
          rows' := rows[i := rows[i].(value := data)];
        }
      case HashmapAdd(key, skey, data) => rows' := rows + [Row(key, skey, HashmapRow, data)];
      case HashmapUpdate(key, skey, data) => rows' := Changed(rows, r => IsField(r, key, skey), data);
      case HashmapDel(key, skey) => rows' := Without(rows, r => IsKind(r, HashmapRow, key, skey));
      case SetAdd(key, skey) => rows' := rows + [Row(key, skey, SetRow, NULL)];
      case SetDel(key, skey) => rows' := Without(rows, r => IsKind(r, SetRow, key, skey));
    }
  }

  lemma {:induction false} OutcomeExists(rows: seq<Row>, ops: seq<Op>) returns (rows': seq<Row>)
    ensures Outcome(rows, ops, rows')
    decreases |ops|
  {
    if ops == [] {
      rows' := rows;
    } else {
      var mid := OutcomeExists(rows, ops[..|ops| - 1]);
      rows' := AppliesSomehow(mid, ops[|ops| - 1]);
    }
  }

  // ----- the invariant

  ghost predicate Represents(rows: seq<Row>, db: Db, loose: set<string>) {
    forall k :: RepKey(RowsOf(rows, k), Get(db, k), k in loose)
  }

  ghost predicate Tracks(s: Sys) {
    forall rows :: Outcome(s.disk, Pending(s), rows) ==> Represents(rows, s.db, s.loose)
  }

  ghost predicate Inv(s: Sys) {
    && Tracks(s)
    && s.queued == s.applied + Pending(s)
    && (s.phase == Synced ==> s.queue == [])
    && LooseHasRows(s.db, s.loose)
  }

  /** A key without rows is not loose. */
  ghost predicate LooseHasRows(db: Db, loose: set<string>) {
    forall k :: k in loose ==> !Vacant(Get(db, k))
  }

  /** The loose keys after a logged change. */
  function Loosened(loose: set<string>, v: Option<Value>, op: Op, v': Option<Value>): set<string> {
    if LooseAfter(op.key in loose, v, op, v') then loose + {op.key} else loose - {op.key}
  }

  // ----- steps

  /** A producer changes the value of one key and queues the matching operation. */
  ghost predicate Produce(s: Sys, s': Sys, op: Op) {
    && s.phase == Running && !s.done
    && exists v' ::
         && Logged(Get(s.db, op.key), op, v')
         && s' == s.(db := Put(s.db, op.key, v'), queue := s.queue + [op], queued := s.queued + [op],
                     loose := Loosened(s.loose, Get(s.db, op.key), op, v'))
  }

  /** A container without elements is created, dropped or replaced; nothing is queued. */
  ghost predicate Silent(s: Sys, s': Sys, key: string) {
    && s.phase == Running && !s.done
    && exists v' :: Vacant(Get(s.db, key)) && Vacant(v') && s' == s.(db := Put(s.db, key, v'))
  }

  /** The worker's own steps. */
  ghost predicate Work(s: Sys, s': Sys) {
    match s.worker
    case Waiting => s' == s.(worker := Draining)
    case Draining =>
      s' == if s.queue == [] then s.(worker := Checking) else s.(worker := Applying(s.queue[0]), queue := s.queue[1..])
    case Applying(op) =>
      Applies(s.disk, op, s'.disk) && s' == s.(worker := Draining, disk := s'.disk, applied := s.applied + [op])
    case Checking => s' == s.(worker := if s.done then Exited else Waiting)
    case Exited => false
  }

  /** bio_sync returns once it has seen an empty queue, with the producers stopped. */
  ghost predicate SyncReturns(s: Sys, s': Sys) {
    s.queue == [] && s' == s.(phase := Synced)
  }

  /** bio_exit sets done; the join returns when the worker has exited. */
  ghost predicate Stop(s: Sys, s': Sys) {
    s' == s.(done := true)
  }

  ghost predicate Next(s: Sys, s': Sys) {
    || (exists op :: Produce(s, s', op))
    || (exists key :: Silent(s, s', key))
    || Work(s, s')
    || SyncReturns(s, s')
    || Stop(s, s')
  }

  lemma RepresentsAfter(rows: seq<Row>, db: Db, loose: set<string>, op: Op, rows': seq<Row>, v': Option<Value>)
    requires Represents(rows, db, loose) && Applies(rows, op, rows') && Logged(Get(db, op.key), op, v')
    ensures Represents(rows', Put(db, op.key, v'), Loosened(loose, Get(db, op.key), op, v'))
  {
    var key := op.key;
    var db', loose' := Put(db, key, v'), Loosened(loose, Get(db, key), op, v');
    forall k
      ensures RepKey(RowsOf(rows', k), Get(db', k), k in loose')
    {
      if k == key {
        AppliesToKey(rows, op, rows');
        RowsOfAreOfKey(rows, key);
        LoggedKeeps(RowsOf(rows, key), Get(db, key), op, RowsOf(rows', key), v', key in loose);
      } else {
        AppliesElsewhere(rows, op, rows', k);
        assert RepKey(RowsOf(rows, k), Get(db, k), k in loose);
      }
    }
  }

  lemma ProduceKeeps(s: Sys, s': Sys, op: Op)
    requires Inv(s) && Produce(s, s', op)
    ensures Inv(s')
  {
    var v' :| Logged(Get(s.db, op.key), op, v') && s'.db == Put(s.db, op.key, v')
              && s'.loose == Loosened(s.loose, Get(s.db, op.key), op, v');
    assert Pending(s') == Pending(s) + [op];
    forall rows | Outcome(s'.disk, Pending(s'), rows)
      ensures Represents(rows, s'.db, s'.loose)
    {
      OutcomeSnoc(s.disk, Pending(s), op, rows);
      var mid :| Outcome(s.disk, Pending(s), mid) && Applies(mid, op, rows);
      RepresentsAfter(mid, s.db, s.loose, op, rows, v');
    }
  }

  lemma SilentKeeps(s: Sys, s': Sys, key: string)
    requires Inv(s) && Silent(s, s', key)
    ensures Inv(s')
  {
    var v' :| Vacant(Get(s.db, key)) && Vacant(v') && s' == s.(db := Put(s.db, key, v'));
    forall rows | Outcome(s'.disk, Pending(s'), rows)
      ensures Represents(rows, s'.db, s'.loose)
    {
      forall k
        ensures RepKey(RowsOf(rows, k), Get(s'.db, k), k in s'.loose)
      {
        assert RepKey(RowsOf(rows, k), Get(s.db, k), k in s.loose);
        if k == key {
          VacantHasNoRows(RowsOf(rows, k), Get(s.db, k), v', k in s.loose);
        }
      }
    }
  }

  lemma ApplyKeeps(s: Sys, s': Sys, op: Op)
    requires Inv(s) && s.worker == Applying(op) && Work(s, s')
    ensures Inv(s')
  {
    assert Pending(s') == s.queue && Pending(s) == [op] + s.queue;
    forall rows | Outcome(s'.disk, s.queue, rows)
      ensures Represents(rows, s'.db, s'.loose)
    {
      OutcomeCons(s.disk, op, s'.disk, s.queue, rows);
    }
    assert s.applied + ([op] + s.queue) == (s.applied + [op]) + s.queue;
  }

  lemma WorkKeeps(s: Sys, s': Sys)
    requires Inv(s) && Work(s, s')
    ensures Inv(s')
  {
    match s.worker {
      case Applying(op) =>
        ApplyKeeps(s, s', op);
      case Draining =>
        if s.queue != [] {
          assert Pending(s') == Pending(s);
        }
      case Waiting =>
        assert Pending(s') == Pending(s);
      case Checking =>
        assert Pending(s') == Pending(s);
      case Exited =>
    }
  }

  /** Disk plus in-flight plus queued operations represents memory after every step. */
  lemma NextKeeps(s: Sys, s': Sys)
    requires Inv(s) && Next(s, s')
    ensures Inv(s')
  {
    if op :| Produce(s, s', op) {
      ProduceKeeps(s, s', op);
    } else if key :| Silent(s, s', key) {
      SilentKeeps(s, s', key);
    } else if Work(s, s') {
      WorkKeeps(s, s');
    }
  }

  ghost predicate Init(s: Sys) {
    && Represents(s.disk, s.db, s.loose) && LooseHasRows(s.db, s.loose)
    && s.queue == [] && s.worker == Waiting && !s.done && s.phase == Running
    && s.queued == [] && s.applied == []
  }

  ghost predicate IsRun(run: seq<Sys>) {
    run != [] && Init(run[0]) && forall i :: 0 <= i < |run| - 1 ==> Next(run[i], run[i + 1])
  }

  lemma {:induction false} RunKeeps(run: seq<Sys>)
    requires IsRun(run)
    ensures Inv(run[|run| - 1])
    decreases |run|
  {
    var n := |run| - 1;
    if n > 0 {
      RunKeeps(run[..n]);
      NextKeeps(run[n - 1], run[n]);
    }
  }

  // ----- shutdown

  /** After bio_sync and bio_exit have returned, every queued operation is on the disk, in order. */
  lemma ShutdownApplied(run: seq<Sys>)
    requires IsRun(run)
    requires var s := run[|run| - 1]; s.phase == Synced && s.worker == Exited
    ensures var s := run[|run| - 1]; s.applied == s.queued && Represents(s.disk, s.db, s.loose)
  {
    RunKeeps(run);
    var s := run[|run| - 1];
    assert Pending(s) == [];
    assert Outcome(s.disk, [], s.disk);
  }

  /** Without bio_sync the worker may exit between its last look at the queue and an operation queued after it. */
  lemma StopAloneMayLose(s: Sys, op: Op, v': Option<Value>) returns (run: seq<Sys>)
    requires Init(s) && Logged(Get(s.db, op.key), op, v')
    ensures IsRun(run) && run[0] == s
    ensures var t := run[|run| - 1]; t.done && t.worker == Exited && t.queue == [op] && t.applied != t.queued
  {
    var s1 := s.(worker := Draining);
    var s2 := s1.(worker := Checking);
    var s3 := s2.(db := Put(s.db, op.key, v'), queue := [op], queued := [op],
                  loose := Loosened(s.loose, Get(s.db, op.key), op, v'));
    var s4 := s3.(done := true);
    var s5 := s4.(worker := Exited);
    assert s2.queue + [op] == [op] && s2.queued + [op] == [op];
    assert Produce(s2, s3, op);
    assert Work(s, s1) && Work(s1, s2) && Stop(s3, s4) && Work(s4, s5);
    run := [s, s1, s2, s3, s4, s5];
  }

  /** A run from any state. */
  ghost predicate Steps(run: seq<Sys>) {
    run != [] && forall i :: 0 <= i < |run| - 1 ==> Next(run[i], run[i + 1])
  }

  /** The worker has looked at the queue for the last time, and there is still something in it. */
  predicate Missed(s: Sys) {
    s.queue != [] && (s.worker == Checking || s.worker == Exited)
  }

  lemma StoppedStep(s: Sys, s': Sys)
    requires s.done && Next(s, s')
    ensures s'.done && (Missed(s') <==> Missed(s))
  {
  }

  lemma {:induction false} StoppedRun(run: seq<Sys>)
    requires Steps(run) && Inv(run[0]) && run[0].done
    ensures var t := run[|run| - 1]; Inv(t) && t.done && (Missed(t) <==> Missed(run[0]))
    decreases |run|
  {
    var n := |run| - 1;
    if n > 0 {
      StoppedRun(run[..n]);
      NextKeeps(run[n - 1], run[n]);
      StoppedStep(run[n - 1], run[n]);
    }
  }

  /**
   bio_exit alone is enough exactly if, when it sets done, the worker is not already past
   its last look at a queue that holds an operation.
   */
  lemma StopAloneIff(run: seq<Sys>)
    requires Steps(run) && Inv(run[0]) && run[0].done && run[|run| - 1].worker == Exited
    ensures var s, t := run[0], run[|run| - 1];
            t.applied == t.queued <==> !(s.queue != [] && (s.worker == Checking || s.worker == Exited))
  {
    StoppedRun(run);
    var t := run[|run| - 1];
    assert t.queued == t.applied + t.queue;
    assert t.queue == [] ==> t.queued == t.applied;
    assert |t.queued| == |t.applied| + |t.queue|;
  }

  // ----- the load at the next start

  /** load_entry and the four load functions of engine.rb, for the key of the row. */
  function LoadValue(v: Option<Value>, r: Row): Option<Value> {
    match r.kind
    case StringRow => Some(Str(r.value))
    case ListRow =>
      if v.None? then Some(List([r.value]))
      else if v.value.List? then Some(List(v.value.items + [r.value])) else v
    case HashmapRow =>
      if v.None? then Some(Hashmap(map[r.skey := r.value]))
      else if v.value.Hashmap? then Some(Hashmap(v.value.fields[r.skey := r.value])) else v
    case SetRow =>
      if v.None? then Some(Members({r.skey}))
      else if v.value.Members? then Some(Members(v.value.keys + {r.skey})) else v
  }

  /** Engine.start: fold the rows into an empty database. */
  function Load(rows: seq<Row>): Db {
    if rows == [] then map[]
    else
      var db, r := Load(rows[..|rows| - 1]), rows[|rows| - 1];
      Put(db, r.key, LoadValue(Get(db, r.key), r))
  }

  /** The same fold over the rows of one key. */
  function LoadKey(a: seq<Row>): Option<Value> {
    if a == [] then None else LoadValue(LoadKey(a[..|a| - 1]), a[|a| - 1])
  }

  /** What a load makes of one key depends on the rows of that key alone. */
  lemma {:induction false} LoadIsLocal(rows: seq<Row>, key: string)
    ensures Get(Load(rows), key) == LoadKey(RowsOf(rows, key))
    decreases |rows|
  {
    if rows != [] {
      var init, r := rows[..|rows| - 1], rows[|rows| - 1];
      LoadIsLocal(init, key);
      var a := RowsOf(init, key);
      if r.key == key {
        assert (a + [r])[..|a|] == a;
      } else {
        assert RowsOf(rows, key) == a;
      }
    }
  }

  lemma {:induction false} LoadList(a: seq<Row>)
    requires a != [] && AllOf(a, ListRow)
    ensures LoadKey(a) == Some(List(Items(a)))
    decreases |a|
  {
    var init := a[..|a| - 1];
    if init == [] {
      assert Items(a) == [a[0].value];
    } else {
      LoadList(init);
      assert Items(a) == Items(init) + [a[|a| - 1].value];
    }
  }

  lemma {:induction false} LoadHashmap(a: seq<Row>, fields: map<string, string>)
    requires a != [] && AllOf(a, HashmapRow) && DistinctSkeys(a) && Skeys(a) == fields.Keys
    requires forall i :: 0 <= i < |a| ==> a[i].skey in fields && fields[a[i].skey] == a[i].value
    ensures LoadKey(a) == Some(Hashmap(fields))
    decreases |a|
  {
    FieldsShrink(a, fields);
    var init, r := a[..|a| - 1], a[|a| - 1];
    if init == [] {
      assert fields == map[r.skey := r.value];
    } else {
      LoadHashmap(init, fields - {r.skey});
    }
  }

  lemma FieldsShrink(a: seq<Row>, fields: map<string, string>)
    requires a != [] && DistinctSkeys(a) && Skeys(a) == fields.Keys
    requires forall i :: 0 <= i < |a| ==> a[i].skey in fields && fields[a[i].skey] == a[i].value
    ensures var init, r := a[..|a| - 1], a[|a| - 1];
            && Skeys(init) == (fields - {r.skey}).Keys
            && (forall i :: 0 <= i < |init| ==> init[i].skey != r.skey)
            && (fields - {r.skey})[r.skey := r.value] == fields
  {
    var init, r := a[..|a| - 1], a[|a| - 1];
    assert a == init + [r];
    SkeysSnoc(init, r);
    LastSkeyIsNew(a);
  }

  lemma LastSkeyIsNew(a: seq<Row>)
    requires a != [] && DistinctSkeys(a)
    ensures a[|a| - 1].skey !in Skeys(a[..|a| - 1])
  {
  }

  lemma {:induction false} LoadSet(a: seq<Row>)
    requires a != [] && AllOf(a, SetRow)
    ensures LoadKey(a) == Some(Members(Skeys(a)))
    decreases |a|
  {
    var init, r := a[..|a| - 1], a[|a| - 1];
    assert a == init + [r];
    SkeysSnoc(init, r);
    if init == [] {
      assert Skeys(a) == {r.skey};
    } else {
      LoadSet(init);
    }
  }

  /** The loaded value is the one in memory; empty containers have no rows, loose lists may be permuted. */
  ghost predicate Reloaded(loaded: Option<Value>, v: Option<Value>, loose: bool) {
    if Vacant(v) then loaded == None
    else if v.value.List? then
      && loaded.Some? && loaded.value.List?
      && multiset(loaded.value.items) == multiset(v.value.items)
      && (!loose ==> loaded == v)
    else loaded == v
  }

  lemma LoadOfRepresented(a: seq<Row>, v: Option<Value>, loose: bool)
    requires RepKey(a, v, loose)
    ensures Reloaded(LoadKey(a), v, loose)
  {
    if Vacant(v) {
      VacantHasNoRows(a, v, None, loose);
    } else {
      NonVacantHasRows(a, v, loose);
      match v.value {
        case Str(_) =>
        case List(_) => LoadList(a);
        case Hashmap(fields) => LoadHashmap(a, fields);
        case Members(_) => LoadSet(a);
      }
    }
  }

  lemma NonVacantHasRows(a: seq<Row>, v: Option<Value>, loose: bool)
    requires RepKey(a, v, loose) && !Vacant(v)
    ensures a != []
  {
    assert Items([]) == [] && Skeys([]) == {};
  }

  /**
   In every state of every run, applying the in-flight and queued operations to the disk
   rows, whichever rows LIMIT 1 picks, and loading the result gives the database in memory.
   */
  lemma ReloadGivesMemory(run: seq<Sys>, rows: seq<Row>, key: string)
    requires IsRun(run)
    requires var s := run[|run| - 1]; Outcome(s.disk, Pending(s), rows)
    ensures var s := run[|run| - 1]; Reloaded(Get(Load(rows), key), Get(s.db, key), key in s.loose)
  {
    RunKeeps(run);
    var s := run[|run| - 1];
    LoadIsLocal(rows, key);
    LoadOfRepresented(RowsOf(rows, key), Get(s.db, key), key in s.loose);
  }

  /** No pop or set of this step names an item of the list that occurs twice. */
  ghost predicate TouchesOnce(s: Sys, s': Sys, key: string) {
    forall op :: Produce(s, s', op) && op.key == key ==> !Ambiguous(Get(s.db, key), op)
  }

  /** From any state where the key is not loose, for example one where it has no rows, it stays so. */
  lemma {:induction false} ListsStayTight(run: seq<Sys>, j: nat, key: string)
    requires IsRun(run) && j < |run| && (key !in run[j].loose || Vacant(Get(run[j].db, key)))
    requires forall i :: j <= i < |run| - 1 ==> TouchesOnce(run[i], run[i + 1], key)
    ensures key !in run[|run| - 1].loose
    decreases |run|
  {
    var n := |run| - 1;
    if j == n {
      RunKeeps(run);
    } else {
      ListsStayTight(run[..n], j, key);
      assert TouchesOnce(run[n - 1], run[n], key);
      TightStep(run[n - 1], run[n], key);
    }
  }

  lemma TightStep(s: Sys, s': Sys, key: string)
    requires Next(s, s') && key !in s.loose && TouchesOnce(s, s', key)
    ensures key !in s'.loose
  {
    if op :| Produce(s, s', op) {
    } else if k :| Silent(s, s', k) {
    }
  }

  /** In particular a list whose items are pairwise distinct from then on comes back in order. */
  lemma DistinctListsStayTight(run: seq<Sys>, j: nat, key: string)
    requires IsRun(run) && j < |run| && (key !in run[j].loose || Vacant(Get(run[j].db, key)))
    requires forall i :: j <= i < |run| - 1 ==> !Repeats(Get(run[i].db, key))
    ensures key !in run[|run| - 1].loose
  {
    forall i | j <= i < |run| - 1
      ensures TouchesOnce(run[i], run[i + 1], key)
    {
      assert !Repeats(Get(run[i].db, key));
    }
    ListsStayTight(run, j, key);
  }

  /** The database a restarted engine loads is represented exactly by the rows it was loaded from. */
  lemma RestartIsInit(rows: seq<Row>, db: Db, loose: set<string>)
    requires Represents(rows, db, loose)
    ensures Init(Sys(Load(rows), [], Waiting, rows, false, Running, {}, [], []))
  {
    forall k
      ensures RepKey(RowsOf(rows, k), Get(Load(rows), k), false)
    {
      LoadIsLocal(rows, k);
      LoadIsExact(RowsOf(rows, k), Get(db, k), k in loose);
    }
  }

  lemma LoadIsExact(a: seq<Row>, v: Option<Value>, loose: bool)
    requires RepKey(a, v, loose)
    ensures RepKey(a, LoadKey(a), false)
  {
    LoadOfRepresented(a, v, loose);
    if Vacant(v) {
      VacantHasNoRows(a, v, None, loose);
    } else if v.value.List? {
      NonVacantHasRows(a, v, loose);
      LoadList(a);
    }
  }

  // ----- when equal list items lose their order

  function Removed(items: seq<string>, i: nat): seq<string>
    requires i < |items|
  {
    items[..i] + items[i + 1..]
  }

  /** Deleting row j instead of item i gives the same list exactly when everything between them is equal. */
  lemma RemovalsAgreeIff(items: seq<string>, i: nat, j: nat)
    requires i < j < |items|
    ensures Removed(items, i) == Removed(items, j) <==> forall k :: i < k <= j ==> items[k] == items[i]
  {
    var a, b := Removed(items, i), Removed(items, j);
    assert forall k :: 0 <= k < |a| ==> a[k] == items[if k < i then k else k + 1];
    assert forall k :: 0 <= k < |b| ==> b[k] == items[if k < j then k else k + 1];
    if a == b {
      assert forall k :: i <= k < j ==> a[k] == items[k + 1] && b[k] == items[k];
      EqualRun(items, i, j);
    }
  }

  lemma {:induction false} EqualRun(items: seq<string>, i: nat, j: nat)
    requires i < j < |items| && forall k :: i <= k < j ==> items[k + 1] == items[k]
    ensures forall k :: i < k <= j ==> items[k] == items[i]
    decreases j
  {
    if i < j - 1 {
      EqualRun(items, i, j - 1);
    }
    assert items[j - 1 + 1] == items[j - 1];
  }

  /** What rows in order load as. */
  function AsList(items: seq<string>): Option<Value> {
    if items == [] then None else Some(List(items))
  }

  lemma LoadsAs(a: seq<Row>)
    requires AllOf(a, ListRow)
    ensures LoadKey(a) == AsList(Items(a))
  {
    if a != [] {
      LoadList(a);
    }
  }

  /** Whichever row LIMIT 1 picks, a pop of item i comes back as that pop. */
  ghost predicate PopIsSafe(a: seq<Row>, key: string, items: seq<string>, i: nat)
    requires i < |items|
  {
    forall a' :: Applies(a, ListDel(key, items[i]), a') ==> LoadKey(a') == AsList(Removed(items, i))
  }

  /** Whichever row LIMIT 1 picks, item i comes back as the new data. */
  ghost predicate UpdateIsSafe(a: seq<Row>, key: string, items: seq<string>, i: nat, data: string)
    requires i < |items|
  {
    forall a' :: Applies(a, ListUpdate(key, items[i], data), a') ==> LoadKey(a') == AsList(items[i := data])
  }

  /** Everything from place i to place j is equal. */
  predicate EqualBetween(items: seq<string>, i: nat, j: nat)
    requires i < |items|
  {
    forall k :: 0 <= k < |items| && (i <= k <= j || j <= k <= i) ==> items[k] == items[i]
  }

  lemma PopAt(a: seq<Row>, key: string, items: seq<string>, i: nat, j: nat)
    requires RepKey(a, Some(List(items)), false) && OfKey(a, key) && i < |items| && j < |items| && items[j] == items[i]
    ensures var a' := a[..j] + a[j + 1..];
            && Applies(a, ListDel(key, items[i]), a')
            && (LoadKey(a') == AsList(Removed(items, i)) <==> EqualBetween(items, i, j))
  {
    var a' := a[..j] + a[j + 1..];
    DeletesAt(a, j, key, items[i]);
    ItemsWithout(a, j);
    LoadsAs(a');
    RemovalsAgree(items, i, j);
  }

  lemma RemovalsAgree(items: seq<string>, i: nat, j: nat)
    requires i < |items| && j < |items| && items[i] == items[j]
    ensures Removed(items, i) == Removed(items, j) <==> EqualBetween(items, i, j)
  {
    if i < j {
      RemovalsAgreeIff(items, i, j);
    } else if j < i {
      RemovalsAgreeIff(items, j, i);
    }
  }

  /** A pop of a list in order is safe exactly if every equal item is joined to it by equal items. */
  lemma PopIsSafeIff(a: seq<Row>, key: string, items: seq<string>, i: nat)
    requires RepKey(a, Some(List(items)), false) && OfKey(a, key) && i < |items|
    ensures PopIsSafe(a, key, items, i)
       <==> forall j :: 0 <= j < |items| && items[j] == items[i] ==> EqualBetween(items, i, j)
  {
    if PopIsSafe(a, key, items, i) {
      forall j | 0 <= j < |items| && items[j] == items[i]
        ensures EqualBetween(items, i, j)
      {
        PopAt(a, key, items, i, j);
      }
    } else {
      var a' :| Applies(a, ListDel(key, items[i]), a') && LoadKey(a') != AsList(Removed(items, i));
      ItemHasRow(a, items, key, items[i], false);
      var j :| 0 <= j < |a| && IsListItem(a[j], key, items[i]) && a' == a[..j] + a[j + 1..];
      PopAt(a, key, items, i, j);
    }
  }

  lemma UpdateAt(a: seq<Row>, key: string, items: seq<string>, i: nat, j: nat, data: string)
    requires RepKey(a, Some(List(items)), false) && OfKey(a, key) && i < |items| && j < |items| && items[j] == items[i]
    ensures var a' := a[j := a[j].(value := data)];
            && Applies(a, ListUpdate(key, items[i], data), a')
            && (LoadKey(a') == AsList(items[i := data]) <==> data == items[i] || i == j)
  {
    var a' := a[j := a[j].(value := data)];
    assert IsListItem(a[j], key, items[i]);
    assert Items(a') == items[j := data];
    LoadsAs(a');
    assert data == items[i] ==> items[j := data] == items && items[i := data] == items;
    assert items[j := data][j] == data && (i != j ==> items[i := data][j] == items[j]);
  }

  /** A set in a list in order is safe exactly if it changes nothing or no other item is equal. */
  lemma UpdateIsSafeIff(a: seq<Row>, key: string, items: seq<string>, i: nat, data: string)
    requires RepKey(a, Some(List(items)), false) && OfKey(a, key) && i < |items|
    ensures UpdateIsSafe(a, key, items, i, data)
       <==> data == items[i] || forall j :: 0 <= j < |items| && j != i ==> items[j] != items[i]
  {
    if UpdateIsSafe(a, key, items, i, data) {
      forall j | 0 <= j < |items| && j != i && items[j] == items[i]
        ensures data == items[i]
      {
        UpdateAt(a, key, items, i, j, data);
      }
    } else {
      var a' :| Applies(a, ListUpdate(key, items[i], data), a') && LoadKey(a') != AsList(items[i := data]);
      ItemHasRow(a, items, key, items[i], false);
      var j :| 0 <= j < |a| && IsListItem(a[j], key, items[i]) && a' == a[j := a[j].(value := data)];
      UpdateAt(a, key, items, i, j, data);
    }
  }

  /** A pop of the last of two equal items with another between them may come back as a different list. */
  lemma OrderMayBeLost(a: seq<Row>, key: string, x: string, y: string)
    requires x != y && RepKey(a, Some(List([x, y, x])), false) && OfKey(a, key)
    ensures !PopIsSafe(a, key, [x, y, x], 2)
  {
    var items := [x, y, x];
    PopIsSafeIff(a, key, items, 2);
    assert items[0] == items[2] && items[1] != items[2];
    assert !EqualBetween(items, 2, 0);
  }
}
