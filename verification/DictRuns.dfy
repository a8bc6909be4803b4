/**
 Whole runs of the dictionary: any interleaving of the worker's rehash calls with the
 clients' critical sections refines a plain map.
 */
module DictRuns {
  import opened Options
  import opened DictTables
  import opened DictInvariant

  /** One critical section, or the unlocked write of a value through an entry pointer. */
  datatype Event =
    | Worker(num: nat)
    | ClientStep
    | Lookup(key: string)
    | Add(cfg: Config, key: string)
    | Write(value: nat)
    | Delete(key: string)
    | OpenIterator
    | CloseIterator
    | ClearAll

  /** The dictionary and the entry pointer the client holds between its sections. */
  datatype Machine = Machine(dict: State, hand: Option<Entry>)

  /** The dictionary as a plain map, and the key whose value the client may write. */
  datatype Plain = Plain(values: map<string, nat>, hand: Option<string>)

  ghost predicate MachineOk(h: Hash, c: Machine, m: Index) {
    && Inv(h, c.dict, m)
    && (c.hand.Some? ==> c.hand.value.key in m && m[c.hand.value.key] == c.hand.value.cell)
  }

  ghost function Abstract(h: Hash, c: Machine, m: Index): Plain
    requires MachineOk(h, c, m)
  {
    Plain(Values(c.dict.cells, m), if c.hand.Some? then Some(c.hand.value.key) else None)
  }

  function Step(h: Hash, c: Machine, ev: Event): Machine
    requires c.dict.primary.length >= 0
    requires c.dict.rehashing ==> Rehashable(c.dict)
  {
    match ev
    case Worker(num) => c.(dict := Rehash(h, c.dict, num).state)
    case ClientStep => c.(dict := ClientRehash(h, c.dict))
    case Lookup(key) => c.(hand := LookupSection(h, c.dict, key))
    case Add(cfg, key) =>
      var r := AddSection(h, cfg, c.dict, key);
      Machine(r.state, r.entry)
    case Write(value) =>
      if c.hand.Some? then c.(dict := SetValue(c.dict, c.hand.value.cell, value)) else c
    case Delete(key) => Machine(DeleteSection(h, c.dict, key).state, None)
    case OpenIterator => c.(dict := c.dict.(iterators := c.dict.iterators + 1))
    case CloseIterator =>
      c.(dict := c.dict.(iterators := if c.dict.iterators == 0 then 0 else c.dict.iterators - 1))
    case ClearAll => Machine(Clear(c.dict), None)
  }

  function PlainStep(p: Plain, ev: Event): Plain {
    match ev
    case Worker(_) => p
    case ClientStep => p
    case Lookup(key) => p.(hand := if key in p.values then Some(key) else None)
    case Add(_, key) =>
      if key in p.values then p.(hand := None) else Plain(p.values[key := 0], Some(key))
    case Write(value) =>
      if p.hand.Some? && p.hand.value in p.values then p.(values := p.values[p.hand.value := value]) else p
    case Delete(key) => Plain(p.values - {key}, None)
    case OpenIterator => p
    case CloseIterator => p
    case ClearAll => Plain(map[], None)
  }

  ghost function NextIndex(h: Hash, c: Machine, m: Index, ev: Event): Index {
    match ev
    case Add(_, key) => if key in m then m else m[key := c.dict.next]
    case Delete(key) => m - {key}
    case ClearAll => map[]
    case _ => m
  }

  /** Only the client's own section changes the map, exactly as the plain map operation does. */
  lemma StepRefines(h: Hash, c: Machine, m: Index, ev: Event)
    requires MachineOk(h, c, m)
    ensures Refines(h, c, m, ev)
  {
    match ev {
      case Worker(num) =>
        RehashRefines(h, c, m, num);
      case ClientStep =>
        RehashRefines(h, c, m, 1);
      case Lookup(key) =>
        LookupSectionFinds(h, c.dict, m, key);
      case Add(cfg, key) =>
        AddRefines(h, c, m, cfg, key);
      case Delete(key) =>
        DeleteRefines(h, c, m, key);
      case Write(value) =>
        WriteRefines(h, c, m, value);
      case OpenIterator =>
      case CloseIterator =>
      case ClearAll =>
        ClearEmpties(h, c.dict);
    }
  }

  ghost predicate Refines(h: Hash, c: Machine, m: Index, ev: Event)
    requires MachineOk(h, c, m)
  {
    var c', m' := Step(h, c, ev), NextIndex(h, c, m, ev);
    MachineOk(h, c', m') && Abstract(h, c', m') == PlainStep(Abstract(h, c, m), ev)
  }

  lemma RehashRefines(h: Hash, c: Machine, m: Index, num: nat)
    requires MachineOk(h, c, m)
    ensures var c' := c.(dict := Rehash(h, c.dict, num).state);
            MachineOk(h, c', m) && Abstract(h, c', m) == Abstract(h, c, m)
  {
    RehashKeeps(h, c.dict, m, num);
  }

  lemma AddRefines(h: Hash, c: Machine, m: Index, cfg: Config, key: string)
    requires MachineOk(h, c, m)
    ensures Refines(h, c, m, Add(cfg, key))
  {
    AddSectionAdds(h, cfg, c.dict, m, key);
    if key !in m {
      ValuesWithNew(c.dict.cells, c.dict.next, m, key);
    }
  }

  lemma DeleteRefines(h: Hash, c: Machine, m: Index, key: string)
    requires MachineOk(h, c, m)
    ensures Refines(h, c, m, Delete(key))
  {
    DeleteSectionDeletes(h, c.dict, m, key);
    DeletedAbstract(h, c, m, key, DeleteSection(h, c.dict, key).state);
  }

  lemma DeletedAbstract(h: Hash, c: Machine, m: Index, key: string, s': State)
    requires MachineOk(h, c, m) && Inv(h, s', m - {key})
    requires s'.cells == (if key in m then c.dict.cells - {m[key]} else c.dict.cells)
    ensures Abstract(h, Machine(s', None), m - {key}) == PlainStep(Abstract(h, c, m), Delete(key))
  {
    ValuesWithout(c.dict.cells, c.dict.next, m, key);
  }

  lemma WriteRefines(h: Hash, c: Machine, m: Index, value: nat)
    requires MachineOk(h, c, m)
    ensures Refines(h, c, m, Write(value))
  {
    if c.hand.Some? {
      ValuesWritten(c.dict.cells, c.dict.next, m, c.hand.value.key, value);
    }
  }

  lemma ClearEmpties(h: Hash, s: State)
    ensures Inv(h, Clear(s), map[])
  {
  }

  // ----- runs

  /** The state after a sequence of events, from dict_alloc on, with its index. */
  ghost function Run(h: Hash, events: seq<Event>): (r: (Machine, Index))
    ensures MachineOk(h, r.0, r.1)
  {
    if events == [] then
      EmptyTableOk(h, MINIMAL_SIZE, map[]);
      (Machine(INITIAL, None), map[])
    else
      var (c, m) := Run(h, events[..|events| - 1]);
      var ev := events[|events| - 1];
      StepRefines(h, c, m, ev);
      (Step(h, c, ev), NextIndex(h, c, m, ev))
  }

  function PlainRun(events: seq<Event>): Plain {
    if events == [] then Plain(map[], None)
    else PlainStep(PlainRun(events[..|events| - 1]), events[|events| - 1])
  }

  /** In every reachable state the two tables together are the plain map of the same events. */
  lemma {:induction false} RunRefines(h: Hash, events: seq<Event>)
    ensures var (c, m) := Run(h, events);
            Abstract(h, c, m) == PlainRun(events)
    decreases |events|
  {
    if events != [] {
      var n := |events| - 1;
      RunRefines(h, events[..n]);
      var (c, m) := Run(h, events[..n]);
      StepRefines(h, c, m, events[n]);
    }
  }

  // ----- the size counters

  function ChainKeys(c: Chain): set<string> {
    set i | 0 <= i < |c| :: c[i].key
  }

  lemma {:induction false} ChainKeysCount(c: Chain)
    requires forall i, j :: 0 <= i < j < |c| ==> c[i].key != c[j].key
    ensures |ChainKeys(c)| == |c|
    decreases |c|
  {
    if c != [] {
      var n := |c| - 1;
      ChainKeysCount(c[..n]);
      assert ChainKeys(c) == ChainKeys(c[..n]) + {c[n].key};
    }
  }

  /** The keys in the first n buckets. */
  function KeysBelow(t: Table, n: nat): set<string>
    requires n <= |t.buckets|
  {
    if n == 0 then {} else KeysBelow(t, n - 1) + ChainKeys(t.buckets[n - 1])
  }

  lemma {:induction false} KeysBelowMember(h: Hash, t: Table, m: Index, n: nat, k: string)
    requires TableOk(h, t, m) && n <= |t.buckets|
    ensures k in KeysBelow(t, n) <==> Contains(h, t, k) && Slot(h, k, |t.buckets|) < n
  {
    if n > 0 {
      KeysBelowMember(h, t, m, n - 1, k);
      BucketKeys(h, t, m, n - 1, k);
    }
  }

  lemma {:induction false} KeysBelowCount(h: Hash, t: Table, m: Index, n: nat)
    requires TableOk(h, t, m) && n <= |t.buckets|
    ensures |KeysBelow(t, n)| == Total(t.buckets[..n])
  {
    if n > 0 {
      KeysBelowCount(h, t, m, n - 1);
      var c := t.buckets[n - 1];
      ChainKeysCount(c);
      assert t.buckets[..n][..n - 1] == t.buckets[..n - 1];
      forall k | k in KeysBelow(t, n - 1)
        ensures k !in ChainKeys(c)
      {
        KeysBelowMember(h, t, m, n - 1, k);
        BucketKeys(h, t, m, n - 1, k);
      }
      DisjointCount(KeysBelow(t, n - 1), ChainKeys(c));
    }
  }

  lemma DisjointCount(a: set<string>, b: set<string>)
    requires a !! b
    ensures |a + b| == |a| + |b|
  {
  }

  lemma BucketKeys(h: Hash, t: Table, m: Index, b: nat, k: string)
    requires TableOk(h, t, m) && b < |t.buckets|
    ensures k in ChainKeys(t.buckets[b]) <==> Contains(h, t, k) && Slot(h, k, |t.buckets|) == b
  {
    var c := t.buckets[b];
    if k in ChainKeys(c) {
      var i :| 0 <= i < |c| && c[i].key == k;
      assert Placed(h, t, b, i, m);
    }
  }

  /** dict_get_size is the number of keys. */
  lemma SizeIsExact(h: Hash, s: State, m: Index)
    requires Inv(h, s, m)
    ensures s.primary.length + s.rehash.length == |m|
  {
    var p, r := KeysOf(s.primary), KeysOf(s.rehash);
    KeysOfCount(h, s.primary, m);
    KeysOfCount(h, s.rehash, m);
    CoveredKeys(h, s.primary, s.rehash, m, p, r);
  }

  lemma CoveredKeys(h: Hash, p: Table, r: Table, m: Index, kp: set<string>, kr: set<string>)
    requires Covers(h, p, r, m)
    requires forall k :: k in kp <==> Contains(h, p, k)
    requires forall k :: k in kr <==> Contains(h, r, k)
    ensures |kp| + |kr| == |m|
  {
    assert kp !! kr && kp + kr == m.Keys;
  }

  function KeysOf(t: Table): set<string> {
    KeysBelow(t, |t.buckets|)
  }

  lemma KeysOfCount(h: Hash, t: Table, m: Index)
    requires TableOk(h, t, m)
    ensures |KeysOf(t)| == t.length
    ensures forall k :: k in KeysOf(t) <==> Contains(h, t, k)
  {
    KeysBelowCount(h, t, m, |t.buckets|);
    forall k
      ensures k in KeysOf(t) <==> Contains(h, t, k)
    {
      KeysBelowMember(h, t, m, |t.buckets|, k);
    }
    assert t.buckets[..|t.buckets|] == t.buckets;
  }
}
