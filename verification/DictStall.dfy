/**
 A rehash whose old table was emptied by deletes: how a run gets there, and that no run
 but one that clears the dictionary gets out.
 */
module DictStall {
  import opened Options
  import opened PowerOfTwo
  import opened Sequences
  import opened DictTables
  import opened DictInvariant
  import opened DictRuns

  /** Rehashing, with nothing left to move. */
  predicate Stalled(s: State) {
    s.rehashing && s.primary.length == 0
  }

  lemma RunSnoc(h: Hash, es: seq<Event>, ev: Event)
    ensures var (c, m) := Run(h, es); Run(h, es + [ev]) == (Step(h, c, ev), NextIndex(h, c, m, ev))
  {
    assert (es + [ev])[..|es|] == es;
  }

  ghost predicate Reached(h: Hash, es: seq<Event>, c: Machine, m: Index) {
    Run(h, es) == (c, m)
  }

  /** Closing a safe iterator undoes its opening, whatever other iterators are open. */
  lemma CloseUndoesOpen(h: Hash, c: Machine, m: Index)
    requires MachineOk(h, c, m)
    ensures Step(h, Step(h, c, OpenIterator), CloseIterator) == c
  {
  }

  // ----- no way out

  lemma StepStaysStalled(h: Hash, c: Machine, m: Index, ev: Event)
    requires MachineOk(h, c, m) && Stalled(c.dict) && ev != ClearAll
    ensures Stalled(Step(h, c, ev).dict)
  {
    match ev {
      case Delete(key) =>
        DeleteSectionDeletes(h, c.dict, m, key);
        if Contains(h, c.dict.primary, key) {
          DropKeepsTable(h, c.dict.primary, m, key);
        }
      case _ =>
    }
  }

  /** Once stalled, a dictionary stays so whatever the worker and the clients do short of dict_clear. */
  lemma {:induction false} StalledForever(h: Hash, es: seq<Event>, fs: seq<Event>)
    requires Stalled(Run(h, es).0.dict) && ClearAll !in fs
    ensures Stalled(Run(h, es + fs).0.dict)
    decreases |fs|
  {
    if fs == [] {
      assert es + fs == es;
    } else {
      var init, ev := fs[..|fs| - 1], fs[|fs| - 1];
      assert es + fs == (es + init) + [ev];
      StalledForever(h, es, init);
      var (c, m) := Run(h, es + init);
      StepStaysStalled(h, c, m, ev);
      RunSnoc(h, es + init, ev);
    }
  }

  // ----- the way in

  const GROW: Config := Config(true, 5)

  /** dict_add and dict_delete run a rehash step of their own before their critical section. */
  function Adds(keys: seq<string>): (es: seq<Event>) {
    if keys == [] then [] else Adds(keys[..|keys| - 1]) + [ClientStep, Add(GROW, keys[|keys| - 1])]
  }

  function Deletes(keys: seq<string>): (es: seq<Event>) {
    if keys == [] then [] else Deletes(keys[..|keys| - 1]) + [ClientStep, Delete(keys[|keys| - 1])]
  }

  /** While a safe iterator is open, or nothing is left to move, a client's rehash step does nothing. */
  lemma StepHeldBack(h: Hash, es: seq<Event>, ev: Event)
    requires var s := Run(h, es).0.dict; s.iterators > 0 || Stalled(s)
    ensures var (c, m) := Run(h, es); Run(h, es + [ClientStep, ev]) == (Step(h, c, ev), NextIndex(h, c, m, ev))
  {
    var (c, m) := Run(h, es);
    assert Step(h, c, ClientStep) == c;
    TwoMore(h, es, c, m, ClientStep, ev);
  }

  lemma TwoMore(h: Hash, es: seq<Event>, c: Machine, m: Index, first: Event, ev: Event)
    requires Run(h, es) == (c, m) && Step(h, c, first) == c && NextIndex(h, c, m, first) == m
    ensures Run(h, es + [first, ev]) == (Step(h, c, ev), NextIndex(h, c, m, ev))
  {
    var fs := es + [first];
    RunSnoc(h, es, first);
    RunSnoc(h, fs, ev);
    BothAtEnd(es, first, ev);
  }

  lemma BothAtEnd(es: seq<Event>, first: Event, ev: Event)
    ensures es + [first, ev] == (es + [first]) + [ev]
  {
  }

  /** A settled dictionary of n keys in four buckets, under an open safe iterator. */
  ghost predicate Settled(c: Machine, m: Index, n: nat, keys: set<string>) {
    && c.dict.iterators > 0
    && !c.dict.rehashing && |c.dict.primary.buckets| == 4 && c.dict.primary.length == n && m.Keys == keys
  }

  lemma AddSettles(h: Hash, c: Machine, m: Index, n: nat, keys: set<string>, key: string)
    requires MachineOk(h, c, m) && Settled(c, m, n, keys) && n < 4 && key !in keys
    ensures Settled(Step(h, c, Add(GROW, key)), NextIndex(h, c, m, Add(GROW, key)), n + 1, keys + {key})
  {
    assert ExpandIf(GROW, c.dict) == Some(c.dict);
    assert !Contains(h, c.dict.primary, key);
  }

  lemma LastKey(keys: seq<string>)
    requires keys != [] && Distinct(keys)
    ensures var init, key := keys[..|keys| - 1], keys[|keys| - 1];
            && keys == init + [key] && Distinct(init)
            && key !in Elements(init) && Elements(keys) == Elements(init) + {key}
  {
    ElementsSnoc(keys, |keys| - 1);
    assert keys[..|keys|] == keys;
  }

  lemma OneMore(es: seq<Event>, keys: seq<string>, all: set<string>, init: seq<string>, key: string)
    requires keys == init + [key] && Elements(keys) == Elements(init) + {key}
    ensures es + Adds(keys) == (es + Adds(init)) + [ClientStep, Add(GROW, key)]
    ensures es + Deletes(keys) == (es + Deletes(init)) + [ClientStep, Delete(key)]
    ensures all + Elements(keys) == all + Elements(init) + {key}
    ensures all - Elements(keys) == all - Elements(init) - {key}
  {
    assert keys[..|keys| - 1] == init;
  }

  lemma NoMore(es: seq<Event>, keys: seq<string>, all: set<string>)
    requires keys == []
    ensures es + Adds(keys) == es && es + Deletes(keys) == es
    ensures all + Elements(keys) == all && all - Elements(keys) == all
  {
  }

  lemma {:induction false} Filling(h: Hash, es: seq<Event>, keys: seq<string>)
    requires var (c, m) := Run(h, es); Settled(c, m, 0, {})
    requires Distinct(keys) && |keys| <= 4
    ensures var (c, m) := Run(h, es + Adds(keys)); Settled(c, m, |keys|, Elements(keys))
    decreases |keys|
  {
    if keys == [] {
      NoMore(es, keys, {});
    } else {
      var init, key := keys[..|keys| - 1], keys[|keys| - 1];
      LastKey(keys);
      Filling(h, es, init);
      var (c, m) := Run(h, es + Adds(init));
      AddSettles(h, c, m, |init|, Elements(init), key);
      StepHeldBack(h, es + Adds(init), Add(GROW, key));
      OneMore(es, keys, {}, init, key);
    }
  }

  /** Rehashing under an open safe iterator, with exactly these n keys in the old table. */
  ghost predicate Leaving(h: Hash, s: State, n: int, keys: set<string>) {
    s.iterators > 0 && s.rehashing && s.primary.length == n && forall k :: Contains(h, s.primary, k) <==> k in keys
  }

  lemma EightIsReal()
    ensures RealSize(8) == 8
  {
    assert Pow2(2) == 4;
    RealSizeDoubles(4);
  }

  /** The add after the table is full starts the rehash and goes to the new table. */
  lemma FifthAdd(h: Hash, c: Machine, m: Index, keys: set<string>, key: string)
    requires MachineOk(h, c, m) && Settled(c, m, 4, keys) && key !in keys
    ensures Leaving(h, Step(h, c, Add(GROW, key)).dict, 4, keys)
  {
    EightIsReal();
    EmptyTableOk(h, 8, m);
    assert ExpandIf(GROW, c.dict) == Some(c.dict.(rehash := EmptyTable(8), rehashidx := 0, rehashing := true));
    assert forall k :: Contains(h, c.dict.primary, k) <==> k in keys;
  }

  lemma DeleteLeaves(h: Hash, c: Machine, m: Index, n: int, keys: set<string>, key: string)
    requires MachineOk(h, c, m) && Leaving(h, c.dict, n, keys) && key in keys
    ensures Leaving(h, Step(h, c, Delete(key)).dict, n - 1, keys - {key})
  {
    DropLeavesRest(h, c.dict.primary, m, key);
  }

  ghost predicate Left(h: Hash, es: seq<Event>, n: int, keys: set<string>) {
    exists c, m {:trigger Reached(h, es, c, m)} :: Reached(h, es, c, m) && Leaving(h, c.dict, n, keys)
  }

  lemma DrainOne(h: Hash, es: seq<Event>, n: int, keys: set<string>, key: string)
    requires Left(h, es, n, keys) && key in keys
    ensures Left(h, es + [ClientStep, Delete(key)], n - 1, keys - {key})
  {
    var (c, m) := Run(h, es);
    var ev := Delete(key);
    DeleteLeaves(h, c, m, n, keys, key);
    StepHeldBack(h, es, ev);
    assert Reached(h, es + [ClientStep, ev], Step(h, c, ev), NextIndex(h, c, m, ev));
  }

  lemma DrainMore(h: Hash, es: seq<Event>, keys: seq<string>, n: int, all: set<string>, init: seq<string>, key: string)
    requires keys == init + [key] && Elements(keys) == Elements(init) + {key} && key in all - Elements(init)
    requires Left(h, es + Deletes(init), n, all - Elements(init))
    ensures Left(h, es + Deletes(keys), n - 1, all - Elements(keys))
  {
    OneMore(es, keys, all, init, key);
    DrainOne(h, es + Deletes(init), n, all - Elements(init), key);
  }

  lemma {:induction false} Draining(h: Hash, es: seq<Event>, keys: seq<string>, n: int, all: set<string>)
    requires Distinct(keys) && Elements(keys) <= all && Left(h, es, n, all)
    ensures Left(h, es + Deletes(keys), n - |keys|, all - Elements(keys))
    decreases |keys|
  {
    if keys == [] {
      NoMore(es, keys, all);
    } else {
      var init, key := keys[..|keys| - 1], keys[|keys| - 1];
      LastKey(keys);
      Draining(h, es, init, n, all);
      DrainMore(h, es, keys, n - |init|, all, init, key);
    }
  }

  /**
   Under an open safe iterator, which holds back every client's rehash step, five adds and
   four deletes reach a stalled dictionary: for every hash and every five keys.
   */
  lemma StallIsReached(h: Hash, keys: seq<string>, key: string)
    requires Distinct(keys) && |keys| == 4 && key !in keys
    ensures Stalled(Run(h, [OpenIterator] + Adds(keys) + [ClientStep, Add(GROW, key)] + Deletes(keys)).0.dict)
  {
    var es := [OpenIterator];
    RunSnoc(h, [], OpenIterator);
    assert [] + es == es;
    Filling(h, es, keys);
    var (c, m) := Run(h, es + Adds(keys));
    FifthAdd(h, c, m, Elements(keys), key);
    StepHeldBack(h, es + Adds(keys), Add(GROW, key));
    var fs, ev := es + Adds(keys) + [ClientStep, Add(GROW, key)], Add(GROW, key);
    assert Reached(h, fs, Step(h, c, ev), NextIndex(h, c, m, ev));
    Draining(h, fs, keys, 4, Elements(keys));
  }

  // ----- what a stalled dictionary costs

  /** Both tables keep their buckets, and this many entries are in the new one. */
  ghost predicate Loaded(s: State, from: nat, to: nat, entries: int) {
    && Stalled(s) && |s.primary.buckets| == from && |s.rehash.buckets| == to
    && s.rehash.length == entries
  }

  lemma StalledAdd(h: Hash, c: Machine, m: Index, from: nat, to: nat, n: int, key: string)
    requires MachineOk(h, c, m) && Loaded(c.dict, from, to, n) && key !in m
    ensures Loaded(Step(h, c, Add(GROW, key)).dict, from, to, n + 1)
    ensures NextIndex(h, c, m, Add(GROW, key)).Keys == m.Keys + {key}
  {
    assert !Contains(h, c.dict.primary, key) && !Contains(h, c.dict.rehash, key);
  }

  /** The state after a run, with the keys in the dictionary. */
  ghost predicate Holds(h: Hash, es: seq<Event>, from: nat, to: nat, n: int, keys: set<string>) {
    exists c, m {:trigger Reached(h, es, c, m)} ::
      Reached(h, es, c, m) && Loaded(c.dict, from, to, n) && m.Keys == keys
  }

  lemma GrowOne(h: Hash, es: seq<Event>, es': seq<Event>, from: nat, to: nat, n: int, keys: set<string>, keys': set<string>, key: string)
    requires Holds(h, es, from, to, n, keys) && key !in keys
    requires es' == es + [ClientStep, Add(GROW, key)] && keys' == keys + {key}
    ensures Holds(h, es', from, to, n + 1, keys')
  {
    var (c, m) := Run(h, es);
    var ev := Add(GROW, key);
    StalledAdd(h, c, m, from, to, n, key);
    StepHeldBack(h, es, ev);
    assert Reached(h, es', Step(h, c, ev), NextIndex(h, c, m, ev));
  }

  /**
   From a stalled state every further add goes into the same buckets, so the load has no
   bound: the condition on deletes under which migration keeps up cannot be dropped.
   */
  lemma {:induction false} StalledGrows(h: Hash, es: seq<Event>, from: nat, to: nat, n: int, all: set<string>, keys: seq<string>)
    requires Holds(h, es, from, to, n, all) && Distinct(keys) && Elements(keys) !! all
    ensures Holds(h, es + Adds(keys), from, to, n + |keys|, all + Elements(keys))
    decreases |keys|
  {
    if keys == [] {
      NoMore(es, keys, all);
    } else {
      var init, key := keys[..|keys| - 1], keys[|keys| - 1];
      LastKey(keys);
      StalledGrows(h, es, from, to, n, all, init);
      OneMore(es, keys, all, init, key);
      GrowOne(h, es + Adds(init), es + Adds(keys), from, to, n + |init|, all + Elements(init), all + Elements(keys), key);
    }
  }

  lemma {:induction false} LongerThanAll(keys: set<string>) returns (n: nat)
    ensures forall k :: k in keys ==> |k| < n
    decreases |keys|
  {
    n := 0;
    if keys != {} {
      var key :| key in keys;
      n := LongerThanAll(keys - {key});
      if n <= |key| {
        n := |key| + 1;
      }
    }
  }

  /** Keys of growing lengths, all longer than those there. */
  lemma NewKeys(have: set<string>, longer: nat, n: nat) returns (keys: seq<string>)
    requires forall k :: k in have ==> |k| < longer
    ensures |keys| == n && Distinct(keys) && Elements(keys) !! have
  {
    keys := seq(n, i requires 0 <= i => seq(longer + i, _ => 'k'));
    assert forall i :: 0 <= i < n ==> |keys[i]| == longer + i;
  }

  /** So for every n there are adds after which the same buckets hold more than n entries. */
  lemma StalledHasNoBound(h: Hash, es: seq<Event>, n: nat) returns (keys: seq<string>)
    requires Stalled(Run(h, es).0.dict)
    ensures var s, s' := Run(h, es).0.dict, Run(h, es + Adds(keys)).0.dict;
            && |s'.primary.buckets| == |s.primary.buckets| && |s'.rehash.buckets| == |s.rehash.buckets|
            && s'.rehash.length > n
  {
    var (c, m) := Run(h, es);
    var longer := LongerThanAll(m.Keys);
    keys := NewKeys(m.Keys, longer, n + 1);
    var s := c.dict;
    assert Reached(h, es, c, m);
    StalledGrows(h, es, |s.primary.buckets|, |s.rehash.buckets|, s.rehash.length, m.Keys, keys);
    assert s.rehash.length >= 0;
  }
}
