/**
 Progress of migration: every rehash call moves the cursor, a bounded number of calls
 finishes, and over whole runs migration keeps up with insertion, so no finished table
 holds more entries than buckets.
 */
module DictLoad {
  import opened PowerOfTwo
  import opened DictTables
  import opened DictInvariant
  import opened DictRuns

  function Entries(s: State): int {
    s.primary.length + s.rehash.length
  }

  lemma {:induction false} MoveChainCount(h: Hash, c: Chain, t: Table)
    requires t.buckets != []
    ensures MoveChain(h, c, t).length == t.length + |c|
    decreases |c|
  {
    if c != [] {
      MoveChainCount(h, c[1..], Push(t, Slot(h, c[0].key, |t.buckets|), c[0]));
    }
  }

  /** What one dict_rehash call does to the counters: move the cursor on, or hand the new table over. */
  ghost predicate Advanced(s: State, s': State, steps: nat) {
    && Entries(s') == Entries(s)
    && (if s'.rehashing then
          && Rehashable(s') && s'.primary.length > 0
          && |s'.primary.buckets| == |s.primary.buckets|
          && |s'.rehash.buckets| == |s.rehash.buckets|
          && s'.rehashidx >= s.rehashidx + steps
        else
          && |s'.primary.buckets| == |s.rehash.buckets|
          && s'.primary.length == Entries(s)
          && s'.rehash == RESET)
  }

  /** A call with work to do strictly decreases the buckets left to scan, or finishes. */
  lemma {:induction false} RehashLoopAdvances(h: Hash, s: State, num: nat, visits: nat)
    requires Rehashable(s) && s.primary.length > 0 && (num > 0 ==> visits > 0)
    ensures Advanced(s, RehashLoop(h, s, num, visits).state, if num > 0 then 1 else 0)
    ensures RehashLoop(h, s, num, visits).more == RehashLoop(h, s, num, visits).state.rehashing
    decreases num
  {
    if num > 0 {
      EntryAhead(s);
      var r := Scan(s.primary.buckets, s.rehashidx, visits);
      if r.Found? {
        var s1 := s.(rehashidx := r.idx);
        var s2 := MoveBucket(h, s1);
        MoveChainCount(h, s1.primary.buckets[r.idx], s1.rehash);
        if s2.primary.length != 0 {
          RehashLoopAdvances(h, s2, num - 1, r.visits);
        }
      }
    }
  }

  lemma RehashAdvances(h: Hash, s: State, num: nat)
    requires Rehashable(s) && s.primary.length > 0
    ensures Advanced(s, Rehash(h, s, num).state, if num > 0 then 1 else 0)
    ensures Rehash(h, s, num).more == Rehash(h, s, num).state.rehashing
  {
    RehashLoopAdvances(h, s, num, num * 10);
  }

  /** n calls of dict_rehash(d, num) in a row. */
  ghost function RehashCalls(h: Hash, s: State, num: nat, n: nat): State
    requires s.rehashing ==> Rehashable(s) && s.primary.length > 0
    decreases n
  {
    if n == 0 then s
    else
      if s.rehashing then
        RehashAdvances(h, s, num);
        RehashCalls(h, Rehash(h, s, num).state, num, n - 1)
      else s
  }

  /** As many calls as the old table has buckets ahead of the cursor finish the rehash. */
  lemma {:induction false} RehashFinishes(h: Hash, s: State, num: nat, n: nat)
    requires Rehashable(s) && s.primary.length > 0
    requires num > 0 && n >= |s.primary.buckets| - s.rehashidx
    ensures !RehashCalls(h, s, num, n).rehashing
    decreases n
  {
    RehashAdvances(h, s, num);
    EntryAhead(s);
    var s' := Rehash(h, s, num).state;
    if s'.rehashing {
      EntryAhead(s');
      RehashFinishes(h, s', num, n - 1);
    }
  }

  /** An old table emptied by deletes is never left: the rehash makes progress only while it has entries. */
  lemma EmptiedTableStalls(h: Hash, s: State, num: nat)
    requires Rehashable(s) && num > 0
    ensures Rehash(h, s, num).state != s <==> s.primary.length > 0
    ensures s.primary.length == 0 ==> Rehash(h, s, num).more
  {
    if s.primary.length > 0 {
      RehashAdvances(h, s, num);
    }
  }

  // ----- how much one call moves

  /** The number of buckets that hold an entry. */
  function Filled(b: seq<Chain>): nat {
    if b == [] then 0 else Filled(b[..|b| - 1]) + if b[|b| - 1] != [] then 1 else 0
  }

  lemma {:induction false} FilledEmptied(b: seq<Chain>, i: nat)
    requires i < |b| && b[i] != []
    ensures Filled(b[i := []]) == Filled(b) - 1
    decreases |b|
  {
    var n := |b| - 1;
    if i < n {
      FilledEmptied(b[..n], i);
      assert b[i := []][..n] == b[..n][i := []];
    } else {
      assert b[i := []][..n] == b[..n];
    }
  }

  lemma {:induction false} NoneFilled(b: seq<Chain>)
    requires Total(b) == 0
    ensures Filled(b) == 0
  {
    if b != [] {
      NoneFilled(b[..|b| - 1]);
    }
  }

  /**
   What dict_rehash(d, num) does to the old table: it moves num nonempty buckets, or fewer
   if it has passed ten empty ones for each of num, or hands the table over once all are moved.
   */
  ghost predicate MovesUpTo(s: State, r: State, num: nat, visits: nat) {
    if !r.rehashing then Filled(s.primary.buckets) <= num
    else
      var moved := Filled(s.primary.buckets) - Filled(r.primary.buckets);
      var skipped := r.rehashidx - s.rehashidx - moved;
      && 0 <= moved <= num && 0 <= skipped <= visits && (moved == num || skipped == visits)
      && |r.primary.buckets| == |s.primary.buckets|
      && forall b :: 0 <= b < |s.primary.buckets| && r.rehashidx <= b ==> r.primary.buckets[b] == s.primary.buckets[b]
  }

  /** One bucket moved: the rest of the call starts from s2. */
  lemma OneMoved(h: Hash, s: State, s1: State, s2: State, skipped: nat)
    requires Rehashable(s1) && s1.rehashidx < |s1.primary.buckets| && s1.primary.buckets[s1.rehashidx] != []
    requires s1 == s.(rehashidx := s.rehashidx + skipped) && s2 == MoveBucket(h, s1)
    ensures Filled(s2.primary.buckets) == Filled(s.primary.buckets) - 1
    ensures s2.rehashing && s2.rehashidx == s.rehashidx + skipped + 1 && |s2.primary.buckets| == |s.primary.buckets|
    ensures forall b :: 0 <= b < |s.primary.buckets| && s2.rehashidx <= b ==> s2.primary.buckets[b] == s.primary.buckets[b]
  {
    FilledEmptied(s.primary.buckets, s1.rehashidx);
  }

  /** Each empty bucket passed costs one visit. */
  lemma {:induction false} ScanUses(b: seq<Chain>, idx: nat, visits: nat)
    requires visits > 0 && EntryFrom(b, idx)
    ensures var r := Scan(b, idx, visits); r.Found? ==> r.idx - idx == visits - r.visits
    decreases |b| - idx
  {
    if b[idx] == [] && visits > 1 {
      ScanUses(b, idx + 1, visits - 1);
    }
  }

  lemma {:induction false} RehashLoopMoves(h: Hash, s: State, num: nat, visits: nat)
    requires Rehashable(s) && s.primary.length > 0 && (num > 0 ==> visits > 0)
    ensures MovesUpTo(s, RehashLoop(h, s, num, visits).state, num, visits)
    decreases num
  {
    if num > 0 {
      EntryAhead(s);
      var r := Scan(s.primary.buckets, s.rehashidx, visits);
      ScanUses(s.primary.buckets, s.rehashidx, visits);
      if r.Found? {
        var s1 := s.(rehashidx := r.idx);
        var s2 := MoveBucket(h, s1);
        OneMoved(h, s, s1, s2, r.idx - s.rehashidx);
        if s2.primary.length == 0 {
          NoneFilled(s2.primary.buckets);
        } else {
          RehashLoopMoves(h, s2, num - 1, r.visits);
        }
      }
    }
  }

  /** One call moves exactly num nonempty buckets, unless it has passed ten times num empty ones or has moved all. */
  lemma RehashMoves(h: Hash, s: State, num: nat)
    requires Rehashable(s) && s.primary.length > 0
    ensures MovesUpTo(s, Rehash(h, s, num).state, num, 10 * num)
  {
    RehashLoopMoves(h, s, num, 10 * num);
  }

  /** So a client's step moves one bucket, and none while a safe iterator is open. */
  lemma ClientStepMoves(h: Hash, s: State)
    requires Rehashable(s) && s.primary.length > 0
    ensures if s.iterators == 0 then MovesUpTo(s, ClientRehash(h, s), 1, 10) else ClientRehash(h, s) == s
  {
    RehashMoves(h, s, 1);
  }

  /** The entries of a chain that fall into bucket b of a table of this size, the last one first. */
  function Landed(h: Hash, c: Chain, size: nat, b: nat): Chain
    requires size > 0
  {
    if c == [] then []
    else Landed(h, c[1..], size, b) + if Slot(h, c[0].key, size) == b then [c[0]] else []
  }

  /** A chain is moved entry by entry to the heads of the buckets of the new table. */
  lemma {:induction false} MoveChainOrder(h: Hash, c: Chain, t: Table, b: nat)
    requires b < |t.buckets|
    ensures MoveChain(h, c, t).buckets[b] == Landed(h, c, |t.buckets|, b) + t.buckets[b]
    decreases |c|
  {
    if c != [] {
      MoveChainOrder(h, c[1..], Push(t, Slot(h, c[0].key, |t.buckets|), c[0]), b);
    }
  }

  // ----- growing

  lemma LessThanTwice(size: nat)
    requires size >= 1
    ensures IsPow2(RealSize(size)) && RealSize(size) < 2 * size
  {
    var l := BitLength(size - 1);
    if l > 0 {
      assert Pow2(l) == 2 * Pow2(l - 1);
    }
  }

  /**
   The dictionary grows exactly when every bucket could have an entry and either growing is
   allowed or the entries are fewer than ratio times the buckets: by a rehash, from the
   first bucket on, to the least power of two of buckets that is at least twice the entries.
   */
  lemma GrowsIff(cfg: Config, s: State)
    requires !s.rehashing && s.primary.length == Total(s.primary.buckets) && SizeOk(s.primary)
    ensures var n, len := |s.primary.buckets|, s.primary.length;
            var grows := n > 0 && len >= n && (cfg.canExpand || len < cfg.ratio * n);
            ExpandIf(cfg, s).Some? &&
            var s' := ExpandIf(cfg, s).value;
            && (s'.rehashing <==> grows) && (n > 0 ==> s'.primary == s.primary)
            && (grows ==> && s'.rehashidx == 0 && s'.rehash == EmptyTable(|s'.rehash.buckets|)
                          && IsPow2(|s'.rehash.buckets|) && 2 * len <= |s'.rehash.buckets| < 4 * len)
            && (n == 0 ==> s'.primary == EmptyTable(4))
            && (n > 0 && !grows ==> s' == s)
  {
    var n, len := |s.primary.buckets|, s.primary.length;
    if n > 0 && len >= n {
      LessThanTwice(2 * len);
      RatioIs(len, n, cfg.ratio);
    } else if n == 0 {
      FourIsReal();
    }
  }

  lemma RatioIs(len: nat, n: nat, ratio: nat)
    requires n > 0
    ensures len / n < ratio <==> len < ratio * n
  {
    var q, r := len / n, len % n;
    assert len == q * n + r;
    if q < ratio {
      assert ratio * n == q * n + (ratio - q) * n;
      AtLeastOnce(ratio - q, n);
    } else {
      assert q * n == ratio * n + (q - ratio) * n;
      AtLeastOnce(q - ratio, n);
    }
  }

  lemma AtLeastOnce(k: nat, n: nat)
    ensures k * n >= 0 && (k > 0 ==> k * n >= n)
  {
    if k > 0 {
      assert k * n == (k - 1) * n + n;
    }
  }

  /** A new entry goes to the head of its bucket, in the new table while there is one; nothing else moves. */
  lemma AddedFirst(h: Hash, cfg: Config, s: State, m: Index, key: string)
    requires Inv(h, s, m) && key !in m
    ensures ExpandIf(cfg, s).Some?
    ensures var s1, s' := ExpandIf(cfg, s).value, AddSection(h, cfg, s, key).state;
            var (to, to', other, other') :=
              if s1.rehashing then (s1.rehash, s'.rehash, s1.primary, s'.primary)
              else (s1.primary, s'.primary, s1.rehash, s'.rehash);
            && other' == other && to.buckets != []
            && var b := Slot(h, key, |to.buckets|);
               to'.buckets == to.buckets[b := [Entry(key, s.next)] + to.buckets[b]]
  {
    ExpandIfKeeps(h, cfg, s, m);
    AddSectionAdds(h, cfg, s, m, key);
    MissingNowhere(h, ExpandIf(cfg, s).value, m, key);
  }

  lemma MissingNowhere(h: Hash, s: State, m: Index, key: string)
    requires Inv(h, s, m) && key !in m
    ensures !Contains(h, s.primary, key) && !(s.rehashing && Contains(h, s.rehash, key))
  {
  }

  // ----- table sizes

  ghost predicate SizeOk(t: Table) {
    t.buckets == [] || IsPow2(|t.buckets|)
  }

  lemma AddKeepsSizes(h: Hash, cfg: Config, s: State, m: Index, key: string)
    requires Inv(h, s, m) && SizeOk(s.primary) && SizeOk(s.rehash)
    ensures var s' := AddSection(h, cfg, s, key).state; SizeOk(s'.primary) && SizeOk(s'.rehash)
  {
    ExpandIfKeeps(h, cfg, s, m);
    ExpandKeepsSizes(cfg, s);
  }

  lemma ExpandKeepsSizes(cfg: Config, s: State)
    requires s.primary.length >= 0 && SizeOk(s.primary) && SizeOk(s.rehash) && ExpandIf(cfg, s).Some?
    ensures var s' := ExpandIf(cfg, s).value; SizeOk(s'.primary) && SizeOk(s'.rehash)
  {
    var n := if s.primary.buckets == [] then MINIMAL_SIZE else s.primary.length * 2;
    if n > 0 {
      RealSizeIsLeast(n, 0);
    }
  }

  /** In every reachable state, under any settings, both tables have a power of two of buckets. */
  lemma {:induction false} TableSizesArePowers(h: Hash, events: seq<Event>)
    ensures var s := Run(h, events).0.dict; SizeOk(s.primary) && SizeOk(s.rehash)
    decreases |events|
  {
    if events == [] {
      assert 4 == Pow2(2);
    } else {
      var prefix, ev := events[..|events| - 1], events[|events| - 1];
      TableSizesArePowers(h, prefix);
      var (c, m) := Run(h, prefix);
      StepKeepsSizes(h, c, m, ev);
    }
  }

  lemma StepKeepsSizes(h: Hash, c: Machine, m: Index, ev: Event)
    requires MachineOk(h, c, m) && SizeOk(c.dict.primary) && SizeOk(c.dict.rehash)
    ensures var s' := Step(h, c, ev).dict; SizeOk(s'.primary) && SizeOk(s'.rehash)
  {
    match ev {
      case Add(cfg, key) => AddKeepsSizes(h, cfg, c.dict, m, key);
      case Worker(num) => RehashKeepsSizes(h, c.dict, num);
      case ClientStep => RehashKeepsSizes(h, c.dict, 1);
      case _ =>
    }
  }

  lemma RehashKeepsSizes(h: Hash, s: State, num: nat)
    requires (s.rehashing ==> Rehashable(s)) && SizeOk(s.primary) && SizeOk(s.rehash)
    ensures var s' := Rehash(h, s, num).state; SizeOk(s'.primary) && SizeOk(s'.rehash)
  {
  }

  /** So the masked hash used as a bucket index is the hash modulo the table size. */
  lemma SlotIsModulo(h: Hash, key: string, t: Table)
    requires t.buckets != [] && SizeOk(t)
    ensures Slot(h, key, |t.buckets|) == h(key) % |t.buckets|
  {
    var k: nat :| |t.buckets| == Pow2(k);
    MaskIsModulo(h(key), k);
  }

  // ----- migration keeps up

  /** A client that owes a rehash step has used up the slack of one entry. */
  ghost predicate LoadOk(s: State, armed: bool) {
    && s.iterators == 0
    && (s.primary.buckets == [] || IsPow2(|s.primary.buckets|))
    && (if s.rehashing then
          && |s.rehash.buckets| == 2 * |s.primary.buckets|
          && s.primary.length > 0
          && Entries(s) <= |s.primary.buckets| + s.rehashidx + (if armed then 0 else 1)
        else s.primary.length <= |s.primary.buckets|)
  }

  /** dict_add runs its own rehash step before its critical section; reads and deletes may run one too. */
  ghost predicate Disciplined(h: Hash, c: Machine, armed: bool, ev: Event)
    requires c.dict.primary.length >= 0
    requires c.dict.rehashing ==> Rehashable(c.dict)
  {
    match ev
    case Add(cfg, _) => armed && cfg.canExpand
    case Delete(_) =>
      var s' := Step(h, c, ev).dict;
      s'.rehashing ==> s'.primary.length > 0
    case OpenIterator => false
    case _ => true
  }

  function Arm(armed: bool, ev: Event): bool {
    match ev
    case ClientStep => true
    case Add(_, _) => false
    case _ => armed
  }

  lemma DoublePow2(n: nat)
    requires IsPow2(n)
    ensures IsPow2(2 * n)
  {
    var k: nat :| n == Pow2(k);
    assert 2 * n == Pow2(k + 1);
  }

  lemma AdvanceKeepsLoad(s: State, s': State, steps: nat, armed: bool)
    requires LoadOk(s, armed) && s.rehashing && Rehashable(s) && s.rehashidx < |s.primary.buckets|
    requires Advanced(s, s', steps) && s'.iterators == 0
    ensures LoadOk(s', armed || steps > 0)
  {
    DoublePow2(|s.primary.buckets|);
  }

  lemma RehashKeepsLoad(h: Hash, s: State, m: Index, num: nat, armed: bool)
    requires Inv(h, s, m) && LoadOk(s, armed)
    ensures LoadOk(Rehash(h, s, num).state, armed || num > 0)
  {
    if s.rehashing {
      RehashAdvances(h, s, num);
      EntryAhead(s);
      AdvanceKeepsLoad(s, Rehash(h, s, num).state, if num > 0 then 1 else 0, armed);
    }
  }

  lemma AddKeepsLoad(h: Hash, cfg: Config, s: State, m: Index, key: string)
    requires Inv(h, s, m) && LoadOk(s, true) && cfg.canExpand
    ensures LoadOk(AddSection(h, cfg, s, key).state, false)
  {
    ExpandIfKeeps(h, cfg, s, m);
    ExpandKeepsLoad(cfg, s);
    AddSectionAdds(h, cfg, s, m, key);
  }

  /** After dict_expand_if there is room for one more entry. */
  lemma ExpandKeepsLoad(cfg: Config, s: State)
    requires 0 <= s.primary.length && (!s.rehashing ==> s.rehash == RESET)
    requires LoadOk(s, true) && cfg.canExpand && ExpandIf(cfg, s).Some?
    ensures var s' := ExpandIf(cfg, s).value;
            && LoadOk(s', true)
            && (!s'.rehashing ==> s'.primary.length < |s'.primary.buckets|)
  {
    if !s.rehashing {
      if s.primary.buckets == [] {
        FourIsReal();
        assert 4 == Pow2(2);
      } else if s.primary.length >= |s.primary.buckets| {
        FullExpands(cfg, s);
      }
    }
  }

  /** A full table starts a rehash to one of twice the buckets. */
  lemma FullExpands(cfg: Config, s: State)
    requires !s.rehashing && s.primary.buckets != [] && IsPow2(|s.primary.buckets|)
    requires s.primary.length == |s.primary.buckets| && cfg.canExpand && ExpandIf(cfg, s).Some?
    ensures ExpandIf(cfg, s).value
         == s.(rehash := EmptyTable(2 * |s.primary.buckets|), rehashidx := 0, rehashing := true)
  {
    RealSizeDoubles(|s.primary.buckets|);
  }

  lemma DeleteKeepsLoad(h: Hash, s: State, m: Index, key: string, armed: bool)
    requires Inv(h, s, m) && LoadOk(s, armed)
    requires var s' := DeleteSection(h, s, key).state; s'.rehashing ==> s'.primary.length > 0
    ensures LoadOk(DeleteSection(h, s, key).state, armed)
  {
  }

  lemma StepKeepsLoad(h: Hash, c: Machine, m: Index, armed: bool, ev: Event)
    requires MachineOk(h, c, m) && LoadOk(c.dict, armed) && Disciplined(h, c, armed, ev)
    ensures LoadOk(Step(h, c, ev).dict, Arm(armed, ev))
  {
    match ev {
      case Worker(num) => RehashKeepsLoad(h, c.dict, m, num, armed);
      case ClientStep => RehashKeepsLoad(h, c.dict, m, 1, armed);
      case Add(cfg, key) => AddKeepsLoad(h, cfg, c.dict, m, key);
      case Delete(key) => DeleteKeepsLoad(h, c.dict, m, key, armed);
      case _ =>
    }
  }

  ghost function Armed(events: seq<Event>): bool {
    events != [] && Arm(Armed(events[..|events| - 1]), events[|events| - 1])
  }

  ghost predicate DisciplinedRun(h: Hash, events: seq<Event>) {
    events == [] ||
    var prefix := events[..|events| - 1];
    DisciplinedRun(h, prefix) && Disciplined(h, Run(h, prefix).0, Armed(prefix), events[|events| - 1])
  }

  /** In every state of every disciplined run, however often the dictionary has grown, the load bound holds. */
  lemma {:induction false} MigrationKeepsUp(h: Hash, events: seq<Event>)
    requires DisciplinedRun(h, events)
    ensures LoadOk(Run(h, events).0.dict, Armed(events))
    decreases |events|
  {
    if events == [] {
      assert 4 == Pow2(2);
    } else {
      var prefix := events[..|events| - 1];
      MigrationKeepsUp(h, prefix);
      var (c, m) := Run(h, prefix);
      StepKeepsLoad(h, c, m, Armed(prefix), events[|events| - 1]);
    }
  }
}
