/** The failure-free option type shared by the other modules. */
module Options {
  datatype Option<+T> = None | Some(value: T)
}

/**
 The dictionary of dict.c as a value: two bucket tables, the migration cursor and the
 memory cells that entries point to. Every critical section of the C code is a function
 from one such state to the next. The hash function is a parameter throughout.
 */
module DictTables {
  import opened Options
  import opened PowerOfTwo

  type Hash = string -> nat

  /** An entry is linked into a chain by key; its value lives in a cell, written outside the lock. */
  datatype Entry = Entry(key: string, cell: nat)

  type Chain = seq<Entry>

  /** struct dict_map; a reset map has no buckets. */
  datatype Table = Table(buckets: seq<Chain>, length: int)

  datatype State = State(primary: Table, rehash: Table, rehashidx: int, rehashing: bool,
                         iterators: nat, cells: map<nat, nat>, next: nat)

  /** The two global switches of dict.c. */
  datatype Config = Config(canExpand: bool, ratio: nat)

  const MINIMAL_SIZE: nat := 4
  const RESET: Table := Table([], 0)

  function EmptyTable(size: nat): Table {
    Table(seq(size, i => []), 0)
  }

  /** dict_alloc. */
  const INITIAL: State := State(EmptyTable(MINIMAL_SIZE), RESET, 0, false, 0, map[], 0)

  /** hash & sizemask. */
  function Slot(h: Hash, key: string, size: nat): (i: nat)
    requires size > 0
    ensures i < size
  {
    And(h(key), size - 1)
  }

  // ----- chains and tables

  /** The position of key in a chain, or the chain's length. */
  function Find(c: Chain, key: string): (i: nat)
    ensures i <= |c|
    ensures i < |c| ==> c[i].key == key
    ensures forall j :: 0 <= j < i ==> c[j].key != key
  {
    if c == [] || c[0].key == key then 0 else 1 + Find(c[1..], key)
  }

  function Total(b: seq<Chain>): nat {
    if b == [] then 0 else Total(b[..|b| - 1]) + |b[|b| - 1]|
  }

  function Push(t: Table, b: nat, e: Entry): Table
    requires b < |t.buckets|
  {
    Table(t.buckets[b := [e] + t.buckets[b]], t.length + 1)
  }

  function Unlink(t: Table, b: nat, i: nat): Table
    requires b < |t.buckets| && i < |t.buckets[b]|
  {
    Table(t.buckets[b := t.buckets[b][..i] + t.buckets[b][i + 1..]], t.length - 1)
  }

  lemma {:induction false} TotalUpdate(b: seq<Chain>, i: nat, c: Chain)
    requires i < |b|
    ensures Total(b[i := c]) == Total(b) - |b[i]| + |c|
    decreases |b|
  {
    var n := |b| - 1;
    if i < n {
      assert b[i := c][..n] == b[..n][i := c];
      TotalUpdate(b[..n], i, c);
    } else {
      assert b[i := c][..n] == b[..n];
    }
  }

  lemma {:induction false} TotalOfEmpty(b: seq<Chain>)
    requires forall i :: 0 <= i < |b| ==> b[i] == []
    ensures Total(b) == 0
    decreases |b|
  {
    if b != [] {
      TotalOfEmpty(b[..|b| - 1]);
    }
  }

  // ----- dict_rehash

  /** What dict_rehash relies on: the old table's count is exact and the cursor has only empty buckets behind it. */
  ghost predicate Rehashable(s: State) {
    && s.rehashing
    && |s.rehash.buckets| > 0
    && 0 <= s.rehashidx <= |s.primary.buckets|
    && s.primary.length == Total(s.primary.buckets)
    && forall b :: 0 <= b < s.rehashidx ==> s.primary.buckets[b] == []
  }

  ghost predicate EntryFrom(b: seq<Chain>, idx: int)
    requires 0 <= idx
  {
    exists j :: idx <= j < |b| && b[j] != []
  }

  /** A nonempty old table has a nonempty bucket at or above the cursor. */
  lemma EntryAhead(s: State)
    requires Rehashable(s) && s.primary.length > 0
    ensures EntryFrom(s.primary.buckets, s.rehashidx)
  {
    if !EntryFrom(s.primary.buckets, s.rehashidx) {
      TotalOfEmpty(s.primary.buckets);
    }
  }

  datatype ScanResult = Found(idx: nat, visits: nat) | OutOfVisits(idx: nat)

  /** The inner loop over empty buckets; each one costs a visit. */
  function Scan(b: seq<Chain>, idx: nat, visits: nat): (r: ScanResult)
    requires visits > 0 && EntryFrom(b, idx)
    ensures idx <= r.idx < |b|
    ensures forall j :: idx <= j < r.idx ==> b[j] == []
    ensures r.Found? ==> b[r.idx] != [] && r.visits > 0
    ensures r.OutOfVisits? ==> r.idx == idx + visits
    decreases |b| - idx
  {
    if b[idx] != [] then Found(idx, visits)
    else if visits == 1 then OutOfVisits(idx + 1)
    else Scan(b, idx + 1, visits - 1)
  }

  function MoveChain(h: Hash, c: Chain, t: Table): (t': Table)
    requires |t.buckets| > 0
    ensures |t'.buckets| == |t.buckets|
    decreases |c|
  {
    if c == [] then t
    else MoveChain(h, c[1..], Push(t, Slot(h, c[0].key, |t.buckets|), c[0]))
  }

  /** Move the whole bucket under the cursor to the new table and step over it. */
  function MoveBucket(h: Hash, s: State): (s': State)
    requires Rehashable(s) && s.rehashidx < |s.primary.buckets|
    ensures Rehashable(s')
  {
    var c := s.primary.buckets[s.rehashidx];
    TotalUpdate(s.primary.buckets, s.rehashidx, []);
    s.(primary := Table(s.primary.buckets[s.rehashidx := []], s.primary.length - |c|),
       rehash := MoveChain(h, c, s.rehash),
       rehashidx := s.rehashidx + 1)
  }

  /** The new table takes over. */
  function Finish(s: State): State {
    s.(primary := s.rehash, rehash := RESET, rehashidx := -1, rehashing := false)
  }

  datatype RehashResult = RehashResult(state: State, more: bool)

  /** The outer loop of dict_rehash. */
  function RehashLoop(h: Hash, s: State, num: nat, visits: nat): (r: RehashResult)
    requires Rehashable(s) && (num > 0 ==> visits > 0)
    ensures r.state.cells == s.cells && r.state.next == s.next && r.state.iterators == s.iterators
    ensures if r.state.rehashing then
              |r.state.primary.buckets| == |s.primary.buckets| && |r.state.rehash.buckets| == |s.rehash.buckets|
            else
              |r.state.primary.buckets| == |s.rehash.buckets| && r.state.rehash == RESET
    decreases num
  {
    if num == 0 || s.primary.length <= 0 then RehashResult(s, true)
    else
      EntryAhead(s);
      var r := Scan(s.primary.buckets, s.rehashidx, visits);
      var s1 := s.(rehashidx := r.idx);
      if r.OutOfVisits? then RehashResult(s1, true)
      else
        var s2 := MoveBucket(h, s1);
        if s2.primary.length == 0 then RehashResult(Finish(s2), false)
        else RehashLoop(h, s2, num - 1, r.visits)
  }

  /** dict_rehash. */
  function Rehash(h: Hash, s: State, num: nat): (r: RehashResult)
    requires s.rehashing ==> Rehashable(s)
    ensures r.state.cells == s.cells && r.state.next == s.next && r.state.iterators == s.iterators
  {
    if !s.rehashing then RehashResult(s, false) else RehashLoop(h, s, num, num * 10)
  }

  /** dict_rehash_step: clients hold back while a safe iterator is open, the worker does not. */
  function ClientRehash(h: Hash, s: State): State
    requires s.rehashing ==> Rehashable(s)
  {
    if s.iterators == 0 then Rehash(h, s, 1).state else s
  }

  // ----- expansion

  /** dict_should_expand. */
  predicate ShouldExpand(cfg: Config, length: int, size: nat)
    requires size > 0
  {
    length >= size && (cfg.canExpand || length / size < cfg.ratio)
  }

  /** dict_expand; None is its error return. */
  function Expand(s: State, size: nat): Option<State>
    requires size > 0
  {
    var size' := RealSize(size);
    if s.rehashing || s.primary.length > size || |s.primary.buckets| == size' then None
    else if s.primary.buckets == [] then Some(s.(primary := EmptyTable(size')))
    else Some(s.(rehash := EmptyTable(size'), rehashidx := 0, rehashing := true))
  }

  /** dict_expand_if. */
  function ExpandIf(cfg: Config, s: State): Option<State>
    requires s.primary.length >= 0
  {
    if s.rehashing then Some(s)
    else if s.primary.buckets == [] then Expand(s, MINIMAL_SIZE)
    else if ShouldExpand(cfg, s.primary.length, |s.primary.buckets|) then Expand(s, s.primary.length * 2)
    else Some(s)
  }

  // ----- the clients' critical sections

  /** Position of key in its bucket of t, if it is there. */
  predicate Contains(h: Hash, t: Table, key: string) {
    && t.buckets != []
    && var c := t.buckets[Slot(h, key, |t.buckets|)];
       Find(c, key) < |c|
  }

  function EntryOf(h: Hash, t: Table, key: string): (e: Entry)
    requires Contains(h, t, key)
    ensures e.key == key
  {
    var c := t.buckets[Slot(h, key, |t.buckets|)];
    c[Find(c, key)]
  }

  /** __dict_lookup under the lock. */
  function LookupSection(h: Hash, s: State, key: string): Option<Entry> {
    if s.primary.buckets == [] then None
    else if Contains(h, s.primary, key) then Some(EntryOf(h, s.primary, key))
    else if s.rehashing && Contains(h, s.rehash, key) then Some(EntryOf(h, s.rehash, key))
    else None
  }

  /** New entries go to the new table while rehashing, with a zeroed cell. */
  function Link(h: Hash, s: State, e: Entry): State
    requires if s.rehashing then s.rehash.buckets != [] else s.primary.buckets != []
  {
    var s1 := s.(cells := s.cells[e.cell := 0], next := e.cell + 1);
    if s.rehashing then s1.(rehash := Push(s.rehash, Slot(h, e.key, |s.rehash.buckets|), e))
    else s1.(primary := Push(s.primary, Slot(h, e.key, |s.primary.buckets|), e))
  }

  datatype AddResult = AddResult(state: State, entry: Option<Entry>)

  /** __dict_add under the lock: expand if needed, refuse a key in either table, else link a zeroed entry. */
  function AddSection(h: Hash, cfg: Config, s: State, key: string): AddResult
    requires s.primary.length >= 0 && (s.rehashing ==> s.rehash.buckets != [])
  {
    match ExpandIf(cfg, s)
    case None => AddResult(s, None)
    case Some(s1) =>
      if Contains(h, s1.primary, key) || (s1.rehashing && Contains(h, s1.rehash, key)) then AddResult(s1, None)
      else
        AddResult(Link(h, s1, Entry(key, s.next)), Some(Entry(key, s.next)))
  }

  datatype DeleteResult = DeleteResult(state: State, entry: Option<Entry>)

  function Drop(h: Hash, t: Table, key: string): (t': Table)
    requires Contains(h, t, key)
    ensures |t'.buckets| == |t.buckets|
  {
    var b := Slot(h, key, |t.buckets|);
    Unlink(t, b, Find(t.buckets[b], key))
  }

  /** __dict_delete under the lock; the entry is freed by the caller. */
  function DeleteSection(h: Hash, s: State, key: string): DeleteResult {
    if s.primary.buckets == [] then DeleteResult(s, None)
    else if Contains(h, s.primary, key) then
      var e := EntryOf(h, s.primary, key);
      DeleteResult(s.(primary := Drop(h, s.primary, key), cells := s.cells - {e.cell}), Some(e))
    else if s.rehashing && Contains(h, s.rehash, key) then
      var e := EntryOf(h, s.rehash, key);
      DeleteResult(s.(rehash := Drop(h, s.rehash, key), cells := s.cells - {e.cell}), Some(e))
    else DeleteResult(s, None)
  }

  /** dict_set_val: a write to the entry's value, outside the lock. */
  function SetValue(s: State, cell: nat, value: nat): State {
    s.(cells := s.cells[cell := value])
  }

  /** dict_clear. */
  function Clear(s: State): State {
    s.(primary := RESET, rehash := RESET, rehashidx := -1, rehashing := false, cells := map[])
  }
}

/**
 The dictionary invariant: at every point of a half-finished migration the two tables
 together are exactly the index m, and every critical section changes m as a plain map would.
 */
module DictInvariant {
  import opened Options
  import opened PowerOfTwo
  import opened DictTables

  type Index = map<string, nat>

  /** Exact count, every entry in its bucket and in the index, no key twice in a chain. */
  ghost predicate TableOk(h: Hash, t: Table, m: Index) {
    && t.length == Total(t.buckets)
    && (forall b, i :: 0 <= b < |t.buckets| && 0 <= i < |t.buckets[b]| ==> Placed(h, t, b, i, m))
    && (forall b, i, j :: 0 <= b < |t.buckets| && 0 <= i < j < |t.buckets[b]|
          ==> t.buckets[b][i].key != t.buckets[b][j].key)
  }

  ghost predicate Placed(h: Hash, t: Table, b: nat, i: nat, m: Index)
    requires b < |t.buckets| && i < |t.buckets[b]|
  {
    var e := t.buckets[b][i];
    Slot(h, e.key, |t.buckets|) == b && e.key in m && m[e.key] == e.cell
  }

  ghost predicate Inv(h: Hash, s: State, m: Index) {
    && TableOk(h, s.primary, m)
    && TableOk(h, s.rehash, m)
    && (s.rehashing ==> Rehashable(s) && s.primary.buckets != [])
    && (!s.rehashing ==> s.rehash == RESET)
    && Covers(h, s.primary, s.rehash, m)
    && CellsOk(s.cells, s.next, m)
  }

  /** Every indexed key is in exactly one table, every other key in neither. */
  ghost predicate Covers(h: Hash, p: Table, r: Table, m: Index) {
    && (forall k :: k in m ==> Contains(h, p, k) != Contains(h, r, k))
    && (forall k :: k !in m ==> !Contains(h, p, k) && !Contains(h, r, k))
  }

  /** Every key owns a live cell of its own. */
  ghost predicate CellsOk(cells: map<nat, nat>, next: nat, m: Index) {
    && (forall k :: k in m ==> m[k] in cells && m[k] < next)
    && (forall k, k' :: k in m && k' in m && k != k' ==> m[k] != m[k'])
  }

  /** The key-value map a client sees. */
  ghost function Values(cells: map<nat, nat>, m: Index): map<string, nat>
    requires forall k :: k in m ==> m[k] in cells
  {
    map k | k in m :: cells[m[k]]
  }

  // ----- one table

  lemma PushKeepsTable(h: Hash, t: Table, m: Index, e: Entry, m': Index)
    requires t.buckets != [] && TableOk(h, t, m) && !Contains(h, t, e.key)
    requires e.key in m' && m'[e.key] == e.cell
    requires forall k :: k in m && k != e.key ==> k in m' && m'[k] == m[k]
    ensures var t' := Push(t, Slot(h, e.key, |t.buckets|), e);
            && TableOk(h, t', m')
            && forall k :: Contains(h, t', k) <==> k == e.key || Contains(h, t, k)
  {
    var b := Slot(h, e.key, |t.buckets|);
    var t' := Push(t, b, e);
    var c, c' := t.buckets[b], [e] + t.buckets[b];
    TotalUpdate(t.buckets, b, c');
    assert forall i :: 0 < i < |c'| ==> c'[i] == c[i - 1];
    forall b', i | 0 <= b' < |t'.buckets| && 0 <= i < |t'.buckets[b']|
      ensures Placed(h, t', b', i, m')
    {
      if b' != b {
        assert Placed(h, t, b', i, m);
      } else if i > 0 {
        assert Placed(h, t, b, i - 1, m);
      }
    }
    forall k
      ensures Contains(h, t', k) <==> k == e.key || Contains(h, t, k)
    {
      if Slot(h, k, |t.buckets|) == b {
        assert c'[0].key == e.key;
        if Find(c, k) < |c| {
          assert c'[Find(c, k) + 1].key == k;
        }
        assert Find(c', k) < |c'| ==> c'[Find(c', k)].key == k;
      }
    }
  }

  lemma DropKeepsTable(h: Hash, t: Table, m: Index, key: string)
    requires TableOk(h, t, m) && Contains(h, t, key)
    ensures TableOk(h, Drop(h, t, key), m - {key})
  {
    var b := Slot(h, key, |t.buckets|);
    var c, p := t.buckets[b], Find(t.buckets[b], key);
    var c' := c[..p] + c[p + 1..];
    var t' := Drop(h, t, key);
    TotalUpdate(t.buckets, b, c');
    RemovalKeepsDistinct(c, p);
    forall b', i | 0 <= b' < |t'.buckets| && 0 <= i < |t'.buckets[b']|
      ensures Placed(h, t', b', i, m - {key})
    {
      assert Placed(h, t, b', if b' == b && i >= p then i + 1 else i, m);
    }
  }

  lemma RemovalKeepsDistinct(c: Chain, p: nat)
    requires p < |c| && forall i, j :: 0 <= i < j < |c| ==> c[i].key != c[j].key
    ensures var c' := c[..p] + c[p + 1..];
            && (forall i :: 0 <= i < |c'| ==> c'[i] == (if i < p then c[i] else c[i + 1]) && c'[i].key != c[p].key)
            && (forall i, j :: 0 <= i < j < |c'| ==> c'[i].key != c'[j].key)
  {
  }

  lemma FindAfterRemoval(c: Chain, p: nat, k: string)
    requires p < |c| && forall i, j :: 0 <= i < j < |c| ==> c[i].key != c[j].key
    ensures var c' := c[..p] + c[p + 1..];
            Find(c', k) < |c'| <==> k != c[p].key && Find(c, k) < |c|
  {
    var c', q := c[..p] + c[p + 1..], Find(c, k);
    assert forall i :: 0 <= i < |c'| ==> c'[i] == if i < p then c[i] else c[i + 1];
    if q < |c| && k != c[p].key {
      assert c'[if q < p then q else q - 1].key == k;
    }
    assert Find(c', k) < |c'| ==> c'[Find(c', k)].key == k;
  }

  lemma DropRemovesOnly(h: Hash, t: Table, m: Index, key: string, k: string)
    requires TableOk(h, t, m) && Contains(h, t, key)
    ensures Contains(h, Drop(h, t, key), k) <==> k != key && Contains(h, t, k)
  {
    var b := Slot(h, key, |t.buckets|);
    FindAfterRemoval(t.buckets[b], Find(t.buckets[b], key), k);
  }

  /** A table's entries do not care about index keys they do not hold. */
  lemma IndexMayChangeElsewhere(h: Hash, t: Table, m: Index, m': Index)
    requires TableOk(h, t, m)
    requires forall k :: Contains(h, t, k) && k in m ==> k in m' && m'[k] == m[k]
    ensures TableOk(h, t, m')
  {
    forall b, i | 0 <= b < |t.buckets| && 0 <= i < |t.buckets[b]|
      ensures Placed(h, t, b, i, m')
    {
      assert Placed(h, t, b, i, m);
      assert Find(t.buckets[b], t.buckets[b][i].key) < |t.buckets[b]|;
    }
  }

  // ----- migration

  lemma {:induction false} MoveChainKeepsTable(h: Hash, c: Chain, t: Table, m: Index)
    requires t.buckets != [] && TableOk(h, t, m)
    requires forall i :: 0 <= i < |c| ==> c[i].key in m && m[c[i].key] == c[i].cell && !Contains(h, t, c[i].key)
    requires forall i, j :: 0 <= i < j < |c| ==> c[i].key != c[j].key
    ensures TableOk(h, MoveChain(h, c, t), m)
    ensures forall k :: Contains(h, MoveChain(h, c, t), k) <==> Contains(h, t, k) || Find(c, k) < |c|
    decreases |c|
  {
    if c != [] {
      var t1 := Push(t, Slot(h, c[0].key, |t.buckets|), c[0]);
      PushKeepsTable(h, t, m, c[0], m);
      MoveChainKeepsTable(h, c[1..], t1, m);
      forall k
        ensures Find(c, k) < |c| <==> k == c[0].key || Find(c[1..], k) < |c[1..]|
      {
      }
    }
  }

  lemma MoveBucketKeeps(h: Hash, s: State, m: Index)
    requires Inv(h, s, m) && s.rehashing && s.rehashidx < |s.primary.buckets|
    ensures Inv(h, MoveBucket(h, s), m)
  {
    var s' := MoveBucket(h, s);
    var b := s.rehashidx;
    var c := s.primary.buckets[b];
    forall i | 0 <= i < |c|
      ensures c[i].key in m && m[c[i].key] == c[i].cell && !Contains(h, s.rehash, c[i].key)
    {
      assert Placed(h, s.primary, b, i, m);
      assert Find(c, c[i].key) < |c|;
    }
    MoveChainKeepsTable(h, c, s.rehash, m);
    TotalUpdate(s.primary.buckets, b, []);
    forall b', i | 0 <= b' < |s'.primary.buckets| && 0 <= i < |s'.primary.buckets[b']|
      ensures Placed(h, s'.primary, b', i, m)
    {
      assert Placed(h, s.primary, b', i, m);
    }
    forall k
      ensures Contains(h, s.primary, k) <==> Contains(h, s'.primary, k) || Find(c, k) < |c|
      ensures Find(c, k) < |c| ==> !Contains(h, s'.primary, k)
    {
      if Find(c, k) < |c| {
        assert Placed(h, s.primary, b, Find(c, k), m);
      }
    }
  }

  lemma {:induction false} RehashLoopKeeps(h: Hash, s: State, m: Index, num: nat, visits: nat, t: State)
    requires Inv(h, s, m) && s.rehashing && (num > 0 ==> visits > 0) && t == RehashLoop(h, s, num, visits).state
    ensures Inv(h, t, m)
    decreases num, 1
  {
    if num > 0 && s.primary.length > 0 {
      EntryAhead(s);
      var r := Scan(s.primary.buckets, s.rehashidx, visits);
      if r.OutOfVisits? {
        ScanKeeps(h, s, m, visits);
        LoopPauses(h, s, num, visits, t);
      } else {
        var s2 := RoundKeeps(h, s, m, visits);
        RestKeeps(h, s, s2, m, num, visits, t);
      }
    }
  }

  /** The loop after its first round. */
  lemma {:induction false} RestKeeps(h: Hash, s: State, s2: State, m: Index, num: nat, visits: nat, t: State)
    requires Rehashable(s) && num > 0 && visits > 0 && s.primary.length > 0 && EntryFrom(s.primary.buckets, s.rehashidx)
    requires Scan(s.primary.buckets, s.rehashidx, visits).Found? && t == RehashLoop(h, s, num, visits).state
    requires s2 == MoveBucket(h, s.(rehashidx := Scan(s.primary.buckets, s.rehashidx, visits).idx))
    requires s2.rehashing && Inv(h, s2, m)
    ensures Inv(h, t, m)
    decreases num, 0
  {
    var left := Scan(s.primary.buckets, s.rehashidx, visits).visits;
    LoopRound(h, s, num, visits, s2, left, t);
    if s2.primary.length == 0 {
      FinishKeeps(h, s2, m);
    } else {
      RehashLoopKeeps(h, s2, m, num - 1, left, t);
    }
  }

  lemma LoopPauses(h: Hash, s: State, num: nat, visits: nat, t: State)
    requires Rehashable(s) && num > 0 && visits > 0 && s.primary.length > 0 && EntryFrom(s.primary.buckets, s.rehashidx)
    requires Scan(s.primary.buckets, s.rehashidx, visits).OutOfVisits? && t == RehashLoop(h, s, num, visits).state
    ensures t == s.(rehashidx := Scan(s.primary.buckets, s.rehashidx, visits).idx)
  {
  }

  lemma LoopRound(h: Hash, s: State, num: nat, visits: nat, s2: State, left: nat, t: State)
    requires Rehashable(s) && num > 0 && visits > 0 && s.primary.length > 0 && EntryFrom(s.primary.buckets, s.rehashidx)
    requires Scan(s.primary.buckets, s.rehashidx, visits).Found? && t == RehashLoop(h, s, num, visits).state
    requires s2 == MoveBucket(h, s.(rehashidx := Scan(s.primary.buckets, s.rehashidx, visits).idx)) && Rehashable(s2)
    requires left == Scan(s.primary.buckets, s.rehashidx, visits).visits
    ensures left > 0 && if s2.primary.length == 0 then t == Finish(s2) else t == RehashLoop(h, s2, num - 1, left).state
  {
  }

  /** The scan stops at a bucket, and its chain is moved. */
  lemma RoundKeeps(h: Hash, s: State, m: Index, visits: nat) returns (s2: State)
    requires Inv(h, s, m) && s.rehashing && visits > 0 && s.primary.length > 0 && EntryFrom(s.primary.buckets, s.rehashidx)
    requires Scan(s.primary.buckets, s.rehashidx, visits).Found?
    ensures s2 == MoveBucket(h, s.(rehashidx := Scan(s.primary.buckets, s.rehashidx, visits).idx))
    ensures s2.rehashing && Inv(h, s2, m)
  {
    var s1 := s.(rehashidx := Scan(s.primary.buckets, s.rehashidx, visits).idx);
    ScanKeeps(h, s, m, visits);
    MoveBucketKeeps(h, s1, m);
    s2 := MoveBucket(h, s1);
  }

  /** Moving the cursor over empty buckets. */
  lemma ScanKeeps(h: Hash, s: State, m: Index, visits: nat)
    requires Inv(h, s, m) && s.rehashing && visits > 0 && s.primary.length > 0 && EntryFrom(s.primary.buckets, s.rehashidx)
    ensures Inv(h, s.(rehashidx := Scan(s.primary.buckets, s.rehashidx, visits).idx), m)
  {
  }

  lemma EmptiedTableHoldsNothing(h: Hash, t: Table)
    requires Total(t.buckets) == 0
    ensures forall k :: !Contains(h, t, k)
  {
    forall b | 0 <= b < |t.buckets|
      ensures t.buckets[b] == []
    {
      TotalUpdate(t.buckets, b, []);
    }
  }

  lemma FinishKeeps(h: Hash, s: State, m: Index)
    requires Inv(h, s, m) && s.rehashing && s.primary.length == 0
    ensures Inv(h, Finish(s), m)
  {
    EmptiedTableHoldsNothing(h, s.primary);
  }

  /** dict_rehash, of any size and at any time, leaves the index alone. */
  lemma RehashKeeps(h: Hash, s: State, m: Index, num: nat)
    requires Inv(h, s, m)
    ensures Inv(h, Rehash(h, s, num).state, m)
  {
    if s.rehashing {
      RehashLoopKeeps(h, s, m, num, num * 10, Rehash(h, s, num).state);
    }
  }

  // ----- the clients' sections

  lemma EmptyTableOk(h: Hash, size: nat, m: Index)
    ensures TableOk(h, EmptyTable(size), m)
    ensures forall k :: !Contains(h, EmptyTable(size), k)
  {
    TotalOfEmpty(EmptyTable(size).buckets);
  }

  /** Expansion never fails and moves nothing by itself. */
  lemma ExpandIfKeeps(h: Hash, cfg: Config, s: State, m: Index)
    requires Inv(h, s, m)
    ensures var r := ExpandIf(cfg, s);
            && r.Some?
            && Inv(h, r.value, m)
            && r.value.cells == s.cells && r.value.next == s.next && r.value.iterators == s.iterators
            && r.value.primary.buckets != []
  {
    var n := if s.primary.buckets == [] then MINIMAL_SIZE else s.primary.length * 2;
    if n > 0 {
      EmptyTableOk(h, RealSize(n), m);
    }
    if s.primary.buckets == [] {
      FourIsReal();
    }
  }

  lemma FourIsReal()
    ensures RealSize(MINIMAL_SIZE) == 4
  {
    assert Pow2(2) == 4;
    RealSizeDoubles(2) by { assert 2 == Pow2(1); }
  }

  lemma AddSectionAdds(h: Hash, cfg: Config, s: State, m: Index, key: string)
    requires Inv(h, s, m)
    ensures var r := AddSection(h, cfg, s, key);
            && (r.entry.Some? <==> key !in m)
            && (key in m ==> Inv(h, r.state, m) && r.state.cells == s.cells)
            && (key !in m ==>
                  && r.entry.value == Entry(key, s.next)
                  && r.state.cells == s.cells[s.next := 0]
                  && Inv(h, r.state, m[key := s.next]))
  {
    ExpandIfKeeps(h, cfg, s, m);
    if key !in m {
      LinkAdds(h, ExpandIf(cfg, s).value, m, key);
    }
  }

  lemma LinkAdds(h: Hash, s: State, m: Index, key: string)
    requires Inv(h, s, m) && s.primary.buckets != [] && key !in m
    ensures Inv(h, Link(h, s, Entry(key, s.next)), m[key := s.next])
  {
    var e, m' := Entry(key, s.next), m[key := s.next];
    var s' := Link(h, s, e);
    assert CellsOk(s'.cells, s'.next, m');
    if s.rehashing {
      PushKeepsTable(h, s.rehash, m, e, m');
      IndexMayChangeElsewhere(h, s.primary, m, m');
      assert Covers(h, s'.primary, s'.rehash, m');
    } else {
      PushKeepsTable(h, s.primary, m, e, m');
      IndexMayChangeElsewhere(h, s.rehash, m, m');
      assert Covers(h, s'.primary, s'.rehash, m');
    }
  }

  lemma DeleteSectionDeletes(h: Hash, s: State, m: Index, key: string)
    requires Inv(h, s, m)
    ensures var r := DeleteSection(h, s, key);
            && r.entry == (if key in m then Some(Entry(key, m[key])) else None)
            && r.state.cells == (if key in m then s.cells - {m[key]} else s.cells)
            && Inv(h, r.state, m - {key})
  {
    LookupSectionFinds(h, s, m, key);
    if key !in m {
      assert m - {key} == m;
    } else if Contains(h, s.primary, key) {
      DropPrimaryDeletes(h, s, m, key);
    } else {
      DropRehashDeletes(h, s, m, key);
    }
  }

  lemma DropPrimaryDeletes(h: Hash, s: State, m: Index, key: string)
    requires Inv(h, s, m) && key in m && Contains(h, s.primary, key)
    ensures Inv(h, s.(primary := Drop(h, s.primary, key), cells := s.cells - {m[key]}), m - {key})
  {
    DropKeepsTable(h, s.primary, m, key);
    IndexMayChangeElsewhere(h, s.rehash, m, m - {key});
    DropLeavesRest(h, s.primary, m, key);
    CellFreed(s.cells, s.next, m, key);
    CoversLess(h, s.primary, s.rehash, Drop(h, s.primary, key), s.rehash, m, key);
  }

  lemma DropRehashDeletes(h: Hash, s: State, m: Index, key: string)
    requires Inv(h, s, m) && key in m && Contains(h, s.rehash, key)
    ensures Inv(h, s.(rehash := Drop(h, s.rehash, key), cells := s.cells - {m[key]}), m - {key})
  {
    DropKeepsTable(h, s.rehash, m, key);
    IndexMayChangeElsewhere(h, s.primary, m, m - {key});
    DropLeavesRest(h, s.rehash, m, key);
    CellFreed(s.cells, s.next, m, key);
    CoversLess(h, s.primary, s.rehash, s.primary, Drop(h, s.rehash, key), m, key);
    assert s.rehashing;
  }

  lemma CellFreed(cells: map<nat, nat>, next: nat, m: Index, key: string)
    requires CellsOk(cells, next, m) && key in m
    ensures CellsOk(cells - {m[key]}, next, m - {key})
  {
  }

  lemma CoversLess(h: Hash, p: Table, r: Table, p': Table, r': Table, m: Index, key: string)
    requires Covers(h, p, r, m) && key in m
    requires forall k :: k != key ==> Contains(h, p', k) == Contains(h, p, k)
    requires forall k :: k != key ==> Contains(h, r', k) == Contains(h, r, k)
    requires !Contains(h, p', key) && !Contains(h, r', key)
    ensures Covers(h, p', r', m - {key})
  {
  }

  lemma DropLeavesRest(h: Hash, t: Table, m: Index, key: string)
    requires TableOk(h, t, m) && Contains(h, t, key)
    ensures forall k :: Contains(h, Drop(h, t, key), k) <==> k != key && Contains(h, t, k)
  {
    forall k
      ensures Contains(h, Drop(h, t, key), k) <==> k != key && Contains(h, t, k)
    {
      DropRemovesOnly(h, t, m, key, k);
    }
  }

  lemma LookupSectionFinds(h: Hash, s: State, m: Index, key: string)
    requires Inv(h, s, m)
    ensures LookupSection(h, s, key) == if key in m then Some(Entry(key, m[key])) else None
  {
    if key in m {
      var t := if Contains(h, s.primary, key) then s.primary else s.rehash;
      var b := Slot(h, key, |t.buckets|);
      assert Placed(h, t, b, Find(t.buckets[b], key), m);
    }
  }

  // ----- the values behind the index

  lemma ValuesWithNew(cells: map<nat, nat>, next: nat, m: Index, key: string)
    requires CellsOk(cells, next, m) && key !in m
    ensures Values(cells[next := 0], m[key := next]) == Values(cells, m)[key := 0]
  {
  }

  lemma ValuesWithout(cells: map<nat, nat>, next: nat, m: Index, key: string)
    requires CellsOk(cells, next, m)
    ensures var cells' := if key in m then cells - {m[key]} else cells;
            CellsOk(cells', next, m - {key}) && Values(cells', m - {key}) == Values(cells, m) - {key}
  {
  }

  lemma ValuesWritten(cells: map<nat, nat>, next: nat, m: Index, key: string, value: nat)
    requires CellsOk(cells, next, m) && key in m
    ensures CellsOk(cells[m[key] := value], next, m)
    ensures Values(cells[m[key] := value], m) == Values(cells, m)[key := value]
  {
  }
}
