/**
 The dictionary iterators: dict_iterator_next walks both tables and survives the deletion
 of each entry it has returned; dict_iterator_prev walks a settled dictionary backwards.
 */
module DictIterator {
  import opened Options
  import opened DictTables
  import opened DictInvariant
  import DictRuns

  /** struct dict_iterator: the entry returned last, and the chain pointer saved with it. */
  datatype Iter = Iter(table: nat, idx: int, e: Option<Entry>, next: Option<Entry>)

  const NEW: Iter := Iter(0, -1, None, None)

  function TableAt(s: State, n: nat): Table {
    if n == 0 then s.primary else s.rehash
  }

  function Head(c: Chain): Option<Entry> {
    if c == [] then None else Some(c[0])
  }

  /** e->next, for an entry in chain c. */
  function After(c: Chain, e: Entry): Option<Entry> {
    var i := Find(c, e.key);
    if i + 1 < |c| then Some(c[i + 1]) else None
  }

  /** Positions of an iterator between calls. */
  ghost predicate ItOk(s: State, it: Iter) {
    && it.table <= 1 && (it.table == 1 ==> s.rehashing)
    && -1 <= it.idx
    && (it.e.Some? ==>
          && 0 <= it.idx < |TableAt(s, it.table).buckets|
          && (it.next.Some? ==>
                var c := TableAt(s, it.table).buckets[it.idx];
                Find(c, it.next.value.key) < |c| && c[Find(c, it.next.value.key)] == it.next.value))
  }

  /** Move to the next bucket, crossing to the new table at the end of the old one. */
  function NextBucket(s: State, it: Iter): Option<Iter>
    requires -1 <= it.idx && it.table <= 1
  {
    if it.idx + 1 < |TableAt(s, it.table).buckets| then Some(Iter(it.table, it.idx + 1, None, it.next))
    else if s.rehashing && it.table == 0 then Some(Iter(1, 0, None, it.next))
    else None
  }

  datatype NextResult = NextResult(it: Iter, entry: Option<Entry>)

  /** dict_iterator_next. */
  function Next(s: State, it: Iter): NextResult
    requires ItOk(s, it) && (s.rehashing ==> s.rehash.buckets != [])
    decreases 2 - it.table, |TableAt(s, it.table).buckets| - it.idx, if it.e.Some? then 1 else 0
  {
    if it.e.Some? then
      if it.next.None? then Next(s, it.(e := None))
      else
        var c := TableAt(s, it.table).buckets[it.idx];
        NextResult(it.(e := it.next, next := After(c, it.next.value)), it.next)
    else
      match NextBucket(s, it)
      case None => NextResult(it.(idx := it.idx + 1), None)
      case Some(it1) =>
        var c := TableAt(s, it1.table).buckets[it1.idx];
        if c == [] then Next(s, it1) else Entered(it1, c)
  }

  function Flat(b: seq<Chain>): seq<Entry> {
    if b == [] then [] else b[0] + Flat(b[1..])
  }

  /** Both tables, bucket by bucket, in chain order. */
  function Order(s: State): seq<Entry> {
    Flat(s.primary.buckets) + (if s.rehashing then Flat(s.rehash.buckets) else [])
  }

  function FlatFrom(b: seq<Chain>, i: int): seq<Entry>
    requires 0 <= i
  {
    if i < |b| then Flat(b[i..]) else []
  }

  /** What is left of the current chain. */
  function RestOfChain(c: Chain, next: Option<Entry>): seq<Entry> {
    if next.None? then [] else c[Find(c, next.value.key)..]
  }

  /** The entries an iterator has still to return. */
  ghost function Remaining(s: State, it: Iter): seq<Entry>
    requires ItOk(s, it)
  {
    (if it.e.Some? then RestOfChain(TableAt(s, it.table).buckets[it.idx], it.next) else [])
    + Beyond(s, it.table, it.idx)
  }

  /** The buckets after the current one. */
  function Beyond(s: State, table: nat, idx: int): seq<Entry>
    requires -1 <= idx
  {
    FlatFrom(TableAt(s, table).buckets, idx + 1)
    + (if table == 0 && s.rehashing then Flat(s.rehash.buckets) else [])
  }

  ghost predicate DistinctChains(t: Table) {
    forall b, i, j :: 0 <= b < |t.buckets| && 0 <= i < j < |t.buckets[b]|
      ==> t.buckets[b][i].key != t.buckets[b][j].key
  }

  lemma FlatFromStep(b: seq<Chain>, i: nat)
    requires i < |b|
    ensures FlatFrom(b, i) == b[i] + FlatFrom(b, i + 1)
  {
    if i + 1 < |b| {
      assert b[i..][1..] == b[i + 1..];
    } else {
      assert b[i..] == [b[i]] && Flat([b[i]]) == b[i] + Flat([]);
    }
  }

  lemma ChainStep(c: Chain, i: nat)
    requires i < |c| && forall j, k :: 0 <= j < k < |c| ==> c[j].key != c[k].key
    ensures Find(c, c[i].key) == i
    ensures c[i..] == [c[i]] + RestOfChain(c, After(c, c[i]))
  {
    FoundAt(c, i);
    if i + 1 < |c| {
      FoundAt(c, i + 1);
    }
  }

  lemma FoundAt(c: Chain, i: nat)
    requires i < |c| && forall j, k :: 0 <= j < k < |c| ==> c[j].key != c[k].key
    ensures Find(c, c[i].key) == i
  {
    var f := Find(c, c[i].key);
  }

  /** Between chains, the remaining entries start with the next bucket. */
  lemma BucketStep(s: State, it: Iter)
    requires ItOk(s, it) && it.e.None? && (s.rehashing ==> s.rehash.buckets != [])
    ensures var n := NextBucket(s, it);
            && (n.None? ==> Remaining(s, it) == [])
            && (n.Some? ==>
                  && ItOk(s, n.value)
                  && Remaining(s, it) == TableAt(s, n.value.table).buckets[n.value.idx]
                                         + Beyond(s, n.value.table, n.value.idx))
  {
    var b := TableAt(s, it.table).buckets;
    if it.idx + 1 < |b| {
      FlatFromStep(b, it.idx + 1);
    } else if s.rehashing && it.table == 0 {
      var r := s.rehash.buckets;
      FlatFromStep(r, 0);
      assert r[0..] == r;
    }
  }

  /** Returning entry i of a chain leaves the rest of the chain. */
  lemma EntryStep(s: State, it: Iter, c: Chain, i: nat)
    requires 0 <= it.idx < |TableAt(s, it.table).buckets| && c == TableAt(s, it.table).buckets[it.idx]
    requires it.table <= 1 && (it.table == 1 ==> s.rehashing)
    requires i < |c| && it.e == Some(c[i]) && it.next == After(c, c[i])
    requires forall j, k :: 0 <= j < k < |c| ==> c[j].key != c[k].key
    ensures ItOk(s, it)
    ensures AtEntry(s, it)
    ensures c[i..] + Beyond(s, it.table, it.idx) == [c[i]] + Remaining(s, it)
  {
    ChainStep(c, i);
    if i + 1 < |c| {
      ChainStep(c, i + 1);
    }
    SeqAssociates([c[i]], RestOfChain(c, it.next), Beyond(s, it.table, it.idx));
  }

  lemma SeqAssociates(a: seq<Entry>, b: seq<Entry>, c: seq<Entry>)
    ensures (a + b) + c == a + (b + c)
  {
  }

  /** Each call pops the first remaining entry; at the end it returns nothing. */
  lemma {:induction false} NextPops(s: State, it: Iter)
    requires ItOk(s, it) && (s.rehashing ==> s.rehash.buckets != [])
    requires DistinctChains(s.primary) && DistinctChains(s.rehash)
    ensures Pops(s, it, Next(s, it))
    decreases 2 - it.table, |TableAt(s, it.table).buckets| - it.idx, if it.e.Some? then 1 else 0
  {
    if it.e.Some? {
      if it.next.None? {
        NextPops(s, it.(e := None));
      } else {
        NextInChain(s, it);
      }
    } else {
      BucketStep(s, it);
      var n := NextBucket(s, it);
      if n.Some? {
        if TableAt(s, n.value.table).buckets[n.value.idx] == [] {
          assert Remaining(s, it) == Remaining(s, n.value);
          NextPops(s, n.value);
        } else {
          NextEntersBucket(s, it, n.value);
        }
      }
    }
  }

  lemma NextInChain(s: State, it: Iter)
    requires ItOk(s, it) && (s.rehashing ==> s.rehash.buckets != [])
    requires DistinctChains(s.primary) && DistinctChains(s.rehash)
    requires it.e.Some? && it.next.Some?
    ensures Pops(s, it, Next(s, it))
  {
    var c := TableAt(s, it.table).buckets[it.idx];
    EntryStep(s, Next(s, it).it, c, Find(c, it.next.value.key));
  }

  lemma NextEntersBucket(s: State, it: Iter, it1: Iter)
    requires ItOk(s, it) && (s.rehashing ==> s.rehash.buckets != [])
    requires DistinctChains(s.primary) && DistinctChains(s.rehash)
    requires it.e.None? && NextBucket(s, it) == Some(it1) && TableAt(s, it1.table).buckets[it1.idx] != []
    ensures Pops(s, it, Next(s, it))
  {
    var c := TableAt(s, it1.table).buckets[it1.idx];
    assert Next(s, it) == Entered(it1, c);
    EnteredPops(s, it, it1, c);
  }

  function Entered(it: Iter, c: Chain): NextResult
    requires c != []
  {
    NextResult(it.(e := Some(c[0]), next := After(c, c[0])), Some(c[0]))
  }

  lemma EnteredPops(s: State, it: Iter, it1: Iter, c: Chain)
    requires ItOk(s, it) && (s.rehashing ==> s.rehash.buckets != [])
    requires DistinctChains(s.primary) && DistinctChains(s.rehash)
    requires it.e.None? && NextBucket(s, it) == Some(it1)
    requires c == TableAt(s, it1.table).buckets[it1.idx] && c != []
    ensures Pops(s, it, Entered(it1, c))
  {
    BucketStep(s, it);
    assert c[0..] == c;
    EntryStep(s, Entered(it1, c).it, c, 0);
  }

  ghost predicate Pops(s: State, it: Iter, r: NextResult)
    requires ItOk(s, it)
  {
    && ItOk(s, r.it)
    && (r.entry.None? ==> Remaining(s, it) == [])
    && (r.entry.Some? ==>
          && r.it.e == r.entry
          && AtEntry(s, r.it)
          && Remaining(s, it) == [r.entry.value] + Remaining(s, r.it))
  }

  /** The iterator stands on an entry of its chain and has saved the pointer to the one after it. */
  ghost predicate AtEntry(s: State, it: Iter)
    requires ItOk(s, it)
  {
    && it.e.Some?
    && var c := TableAt(s, it.table).buckets[it.idx];
       Find(c, it.e.value.key) < |c| && c[Find(c, it.e.value.key)] == it.e.value && it.next == After(c, it.e.value)
  }

  // ----- deleting what was returned

  lemma FlatFromIgnoresEarlier(b: seq<Chain>, i: nat, c: Chain)
    requires i < |b|
    ensures FlatFrom(b[i := c], i + 1) == FlatFrom(b, i + 1)
  {
    if i + 1 < |b| {
      assert b[i := c][i + 1..] == b[i + 1..];
    }
  }

  lemma RestAfterRemoval(c: Chain, i: nat)
    requires i < |c| && forall j, k :: 0 <= j < k < |c| ==> c[j].key != c[k].key
    ensures var c', next := c[..i] + c[i + 1..], After(c, c[i]);
            && RestOfChain(c', next) == RestOfChain(c, next)
            && (next.Some? ==> Find(c', next.value.key) < |c'| && c'[Find(c', next.value.key)] == next.value)
  {
    AfterIs(c, i);
    if i + 1 < |c| {
      var c' := c[..i] + c[i + 1..];
      RemovalKeepsDistinct(c, i);
      GapCloses(c, i);
      RestAt(c, i + 1);
      RestAt(c', i);
    }
  }

  lemma AfterIs(c: Chain, i: nat)
    requires i < |c| && forall j, k :: 0 <= j < k < |c| ==> c[j].key != c[k].key
    ensures After(c, c[i]) == if i + 1 < |c| then Some(c[i + 1]) else None
  {
    FoundAt(c, i);
  }

  lemma RestAt(c: Chain, i: nat)
    requires i < |c| && forall j, k :: 0 <= j < k < |c| ==> c[j].key != c[k].key
    ensures Find(c, c[i].key) == i && RestOfChain(c, Some(c[i])) == c[i..]
  {
    FoundAt(c, i);
  }

  lemma GapCloses(c: Chain, i: nat)
    requires i + 1 < |c|
    ensures var c' := c[..i] + c[i + 1..]; i < |c'| && c'[i] == c[i + 1] && c'[i..] == c[i + 1..]
  {
  }

  /** The table an iterator stands in holds its entry, in the bucket the key hashes to. */
  lemma CurrentIsInPlace(h: Hash, s: State, m: Index, it: Iter)
    requires Inv(h, s, m) && ItOk(s, it) && AtEntry(s, it)
    ensures var t, key := TableAt(s, it.table), it.e.value.key;
            Contains(h, t, key) && Slot(h, key, |t.buckets|) == it.idx
  {
    var t := TableAt(s, it.table);
    assert Placed(h, t, it.idx, Find(t.buckets[it.idx], it.e.value.key), m);
  }

  lemma UnlinkKeepsRemaining(s: State, s': State, it: Iter, i: nat)
    requires ItOk(s, it) && AtEntry(s, it) && DistinctChains(TableAt(s, it.table))
    requires i == Find(TableAt(s, it.table).buckets[it.idx], it.e.value.key)
    requires TableAt(s', it.table) == Unlink(TableAt(s, it.table), it.idx, i)
    requires s'.rehashing == s.rehashing && (it.table == 0 ==> s'.rehash == s.rehash)
    ensures ItOk(s', it) && Remaining(s', it) == Remaining(s, it)
  {
    var b := TableAt(s, it.table).buckets;
    var c := b[it.idx];
    FlatFromIgnoresEarlier(b, it.idx, c[..i] + c[i + 1..]);
    RestAfterRemoval(c, i);
  }

  /** Deleting the entry just returned leaves the iterator exactly where it was. */
  lemma DeleteKeepsRemaining(h: Hash, s: State, m: Index, it: Iter)
    requires Inv(h, s, m) && ItOk(s, it) && AtEntry(s, it)
    ensures var s' := DeleteSection(h, s, it.e.value.key).state;
            ItOk(s', it) && Remaining(s', it) == Remaining(s, it)
  {
    var t, key := TableAt(s, it.table), it.e.value.key;
    CurrentIsInPlace(h, s, m, it);
    if it.table == 1 {
      assert !Contains(h, s.primary, key);
    }
    UnlinkKeepsRemaining(s, DeleteSection(h, s, key).state, it, Find(t.buckets[it.idx], key));
  }

  /**
   The entries a client sees that calls dict_iterator_next until it returns nothing,
   deleting any of the returned entries on the way: all remaining ones, in order.
   */
  ghost function Enumerate(h: Hash, s: State, m: Index, it: Iter, delete: Entry -> bool): (seen: seq<Entry>)
    requires Inv(h, s, m) && ItOk(s, it)
    ensures seen == Remaining(s, it)
    decreases |Remaining(s, it)|
  {
    NextPops(s, it);
    var r := Next(s, it);
    if r.entry.None? then []
    else
      var e := r.entry.value;
      if delete(e) then
        DeleteKeepsRemaining(h, s, m, r.it);
        DeleteSectionDeletes(h, s, m, e.key);
        [e] + Enumerate(h, DeleteSection(h, s, e.key).state, m - {e.key}, r.it, delete)
      else [e] + Enumerate(h, s, m, r.it, delete)
  }

  lemma NewSeesEverything(s: State)
    ensures ItOk(s, NEW) && Remaining(s, NEW) == Order(s)
  {
    assert s.primary.buckets[0..] == s.primary.buckets;
  }

  // ----- the order lists every key once

  lemma {:induction false} FlatAppend(b: seq<Chain>, c: Chain)
    ensures Flat(b + [c]) == Flat(b) + c
    decreases |b|
  {
    if b == [] {
      assert b + [c] == [c] && [c][1..] == [];
      assert Flat([c]) == c + Flat([]);
    } else {
      assert (b + [c])[1..] == b[1..] + [c];
      FlatAppend(b[1..], c);
    }
  }

  lemma {:induction false} FlatOfPrefix(h: Hash, t: Table, m: Index, n: nat)
    requires TableOk(h, t, m) && n <= |t.buckets|
    ensures |Flat(t.buckets[..n])| == Total(t.buckets[..n])
    ensures forall e :: e in Flat(t.buckets[..n]) <==>
              && e.key in m && m[e.key] == e.cell
              && Contains(h, t, e.key) && Slot(h, e.key, |t.buckets|) < n
  {
    if n > 0 {
      FlatOfPrefix(h, t, m, n - 1);
      var c := t.buckets[n - 1];
      assert t.buckets[..n] == t.buckets[..n - 1] + [c] && t.buckets[..n][..n - 1] == t.buckets[..n - 1];
      FlatAppend(t.buckets[..n - 1], c);
      forall e
        ensures e in c <==>
                  && e.key in m && m[e.key] == e.cell
                  && Contains(h, t, e.key) && Slot(h, e.key, |t.buckets|) == n - 1
      {
        ChainMembers(h, t, m, n - 1, e);
      }
    }
  }

  lemma ChainMembers(h: Hash, t: Table, m: Index, b: nat, e: Entry)
    requires TableOk(h, t, m) && b < |t.buckets|
    ensures e in t.buckets[b] <==>
              && e.key in m && m[e.key] == e.cell
              && Contains(h, t, e.key) && Slot(h, e.key, |t.buckets|) == b
  {
    var c := t.buckets[b];
    if e in c {
      var i :| 0 <= i < |c| && c[i] == e;
      assert Placed(h, t, b, i, m);
      assert Find(c, e.key) < |c|;
    }
    var f := Find(c, e.key);
    if f < |c| {
      assert Placed(h, t, b, f, m);
    }
  }

  lemma FlatOfTable(h: Hash, t: Table, m: Index)
    requires TableOk(h, t, m)
    ensures |Flat(t.buckets)| == t.length
    ensures forall e :: e in Flat(t.buckets) <==> e.key in m && m[e.key] == e.cell && Contains(h, t, e.key)
  {
    FlatOfPrefix(h, t, m, |t.buckets|);
    assert t.buckets[..|t.buckets|] == t.buckets;
  }

  /** Every key of the dictionary is listed, with its cell, and nothing else. */
  lemma OrderIsIndex(h: Hash, s: State, m: Index)
    requires Inv(h, s, m)
    ensures forall e :: e in Order(s) <==> e.key in m && m[e.key] == e.cell
    ensures |Order(s)| == s.primary.length + s.rehash.length
  {
    FlatOfTable(h, s.primary, m);
    FlatOfTable(h, s.rehash, m);
  }

  function KeySet(a: seq<Entry>): set<string> {
    set e | e in a :: e.key
  }

  lemma {:induction false} KeySetBound(a: seq<Entry>)
    ensures |KeySet(a)| <= |a|
  {
    if a != [] {
      KeySetBound(a[1..]);
      assert KeySet(a) == {a[0].key} + KeySet(a[1..]);
    }
  }

  lemma RepeatAddsNoKey(a: seq<Entry>, i: nat, j: nat)
    requires i < j < |a| && a[i].key == a[j].key
    ensures KeySet(a) == KeySet(a[..j] + a[j + 1..])
  {
    var rest := a[..j] + a[j + 1..];
    assert forall k :: 0 <= k < j ==> rest[k] == a[k];
    assert forall k :: j < k < |a| ==> rest[k - 1] == a[k];
    forall e | e in a
      ensures e.key in KeySet(rest)
    {
      var k :| 0 <= k < |a| && a[k] == e;
      var k' := if k == j then i else if k < j then k else k - 1;
      assert rest[k'] in rest && rest[k'].key == e.key;
    }
  }

  /** A list as long as its set of keys repeats none. */
  lemma NoRepeats(a: seq<Entry>, i: nat, j: nat)
    requires i < j < |a| && |KeySet(a)| == |a|
    ensures a[i].key != a[j].key
  {
    if a[i].key == a[j].key {
      RepeatAddsNoKey(a, i, j);
      KeySetBound(a[..j] + a[j + 1..]);
    }
  }

  /** The order lists every key of the dictionary exactly once. */
  lemma OrderHasNoRepeats(h: Hash, s: State, m: Index, i: nat, j: nat)
    requires Inv(h, s, m) && i < j < |Order(s)|
    ensures Order(s)[i].key != Order(s)[j].key
  {
    OrderIsIndex(h, s, m);
    DictRuns.SizeIsExact(h, s, m);
    KeysOfOrder(Order(s), m);
    NoRepeats(Order(s), i, j);
  }

  lemma KeysOfOrder(a: seq<Entry>, m: Index)
    requires forall e :: e in a <==> e.key in m && m[e.key] == e.cell
    ensures KeySet(a) == m.Keys
  {
    forall k | k in m
      ensures k in KeySet(a)
    {
      assert Entry(k, m[k]) in a;
    }
  }

  // ----- dict_iterator_prev, on a dictionary that is not rehashing

  function Prev(s: State, it: Iter): NextResult
    requires !s.rehashing && -1 <= it.idx
    requires it.e.Some? ==> 0 <= it.idx < |s.primary.buckets|
    decreases if it.idx == -1 then |s.primary.buckets| + 1 else it.idx, if it.e.Some? then 1 else 0
  {
    var b := s.primary.buckets;
    if it.e.None? then
      var idx := if it.idx == -1 then |b| - 1 else it.idx - 1;
      if idx <= -1 || idx >= |b| then NextResult(it.(idx := idx), None)
      else if b[idx] == [] then Prev(s, it.(idx := idx))
      else
        var last := b[idx][|b[idx]| - 1];
        NextResult(it.(idx := idx, e := Some(last)), Some(last))
    else
      var i := Find(b[it.idx], it.e.value.key);
      if i == 0 then Prev(s, it.(e := None))
      else NextResult(it.(e := Some(b[it.idx][i - 1])), Some(b[it.idx][i - 1]))
  }

  function Reverse(a: seq<Entry>): seq<Entry> {
    if a == [] then [] else [a[|a| - 1]] + Reverse(a[..|a| - 1])
  }

  /** Positions of a backward iterator: fresh, between buckets, or on an entry. */
  ghost predicate BackOk(s: State, it: Iter) {
    && -1 <= it.idx <= |s.primary.buckets|
    && (it.e.Some? ==>
          && 0 <= it.idx < |s.primary.buckets|
          && it.e.value in s.primary.buckets[it.idx])
  }

  /** What a backward iterator has still to return. */
  ghost function RemainingBack(s: State, it: Iter): seq<Entry>
    requires BackOk(s, it)
  {
    var b := s.primary.buckets;
    if it.e.Some? then Reverse(Flat(b[..it.idx]) + b[it.idx][..Find(b[it.idx], it.e.value.key)])
    else Reverse(Flat(b[..if it.idx == -1 then |b| else it.idx]))
  }

  ghost predicate PopsBack(s: State, it: Iter, r: NextResult)
    requires BackOk(s, it)
  {
    && (r.entry.None? ==> RemainingBack(s, it) == [])
    && (r.entry.Some? ==>
          && BackOk(s, r.it) && r.it.e == r.entry
          && RemainingBack(s, it) == [r.entry.value] + RemainingBack(s, r.it))
  }

  lemma {:induction false} PrevPops(s: State, it: Iter)
    requires !s.rehashing && BackOk(s, it) && DistinctChains(s.primary)
    ensures PopsBack(s, it, Prev(s, it))
    decreases if it.idx == -1 then |s.primary.buckets| + 1 else it.idx, if it.e.Some? then 1 else 0
  {
    var b := s.primary.buckets;
    if it.e.None? {
      var idx := if it.idx == -1 then |b| - 1 else it.idx - 1;
      if idx >= 0 {
        if b[idx] == [] {
          SkipsEmpty(s, it, idx);
          PrevPops(s, it.(idx := idx));
        } else {
          PrevEntersBucket(s, it, idx);
        }
      }
    } else {
      var i := Find(b[it.idx], it.e.value.key);
      if i == 0 {
        assert Flat(b[..it.idx]) + b[it.idx][..0] == Flat(b[..it.idx]);
        PrevPops(s, it.(e := None));
      } else {
        BackStep(b, it.idx, i - 1);
      }
    }
  }

  lemma SkipsEmpty(s: State, it: Iter, idx: nat)
    requires BackOk(s, it) && it.e.None? && idx < |s.primary.buckets| && s.primary.buckets[idx] == []
    requires idx == if it.idx == -1 then |s.primary.buckets| - 1 else it.idx - 1
    ensures RemainingBack(s, it.(idx := idx)) == RemainingBack(s, it)
  {
    var front := Flat(s.primary.buckets[..idx]);
    FlatUpTo(s.primary.buckets, idx);
    assert front + s.primary.buckets[idx][..0] == front;
  }

  lemma PrevEntersBucket(s: State, it: Iter, idx: nat)
    requires !s.rehashing && BackOk(s, it) && DistinctChains(s.primary)
    requires it.e.None? && idx < |s.primary.buckets| && s.primary.buckets[idx] != []
    requires idx == if it.idx == -1 then |s.primary.buckets| - 1 else it.idx - 1
    ensures PopsBack(s, it, Prev(s, it))
  {
    var b := s.primary.buckets;
    var last := b[idx][|b[idx]| - 1];
    var it1 := it.(idx := idx, e := Some(last));
    EntersLast(b, idx);
    assert RemainingBack(s, it) == [last] + RemainingBack(s, it1);
  }

  lemma EntersLast(b: seq<Chain>, idx: nat)
    requires idx < |b| && b[idx] != []
    requires forall j, k :: 0 <= j < k < |b[idx]| ==> b[idx][j].key != b[idx][k].key
    ensures var c := b[idx]; var last := c[|c| - 1];
            Reverse(Flat(b[..idx + 1])) == [last] + Reverse(Flat(b[..idx]) + c[..Find(c, last.key)])
  {
    FlatUpTo(b, idx);
    BackStep(b, idx, |b[idx]| - 1);
  }

  lemma FlatUpTo(b: seq<Chain>, idx: nat)
    requires idx < |b|
    ensures Flat(b[..idx + 1]) == Flat(b[..idx]) + b[idx][..|b[idx]|]
  {
    assert b[..idx + 1] == b[..idx] + [b[idx]];
    assert b[idx][..|b[idx]|] == b[idx];
    FlatAppend(b[..idx], b[idx]);
  }

  lemma BackStep(b: seq<Chain>, idx: nat, i: nat)
    requires idx < |b| && i < |b[idx]|
    requires forall j, k :: 0 <= j < k < |b[idx]| ==> b[idx][j].key != b[idx][k].key
    ensures Find(b[idx], b[idx][i].key) == i
    ensures Reverse(Flat(b[..idx]) + b[idx][..i + 1]) == [b[idx][i]] + Reverse(Flat(b[..idx]) + b[idx][..i])
  {
    ChainStep(b[idx], i);
    ReverseLast(Flat(b[..idx]), b[idx], i);
  }

  lemma ReverseLast(front: seq<Entry>, c: Chain, i: nat)
    requires i < |c|
    ensures Reverse(front + c[..i + 1]) == [c[i]] + Reverse(front + c[..i])
  {
    var a := front + c[..i + 1];
    assert a[..|a| - 1] == front + c[..i];
  }

  /** Calling dict_iterator_prev until it returns nothing lists the same entries in exactly the reverse order. */
  ghost function EnumerateBack(s: State, it: Iter): (seen: seq<Entry>)
    requires !s.rehashing && BackOk(s, it) && DistinctChains(s.primary)
    ensures seen == RemainingBack(s, it)
    decreases |RemainingBack(s, it)|
  {
    PrevPops(s, it);
    var r := Prev(s, it);
    if r.entry.None? then [] else [r.entry.value] + EnumerateBack(s, r.it)
  }

  lemma BackwardIsReverse(s: State)
    requires !s.rehashing && DistinctChains(s.primary)
    ensures BackOk(s, NEW) && EnumerateBack(s, NEW) == Reverse(Order(s))
  {
    assert s.primary.buckets[..|s.primary.buckets|] == s.primary.buckets;
    assert Order(s) == Flat(s.primary.buckets);
  }

  /** Forward, every entry of both tables comes exactly once and in order, whatever is deleted on the way. */
  lemma ForwardIsOrder(h: Hash, s: State, m: Index, delete: Entry -> bool)
    requires Inv(h, s, m)
    ensures ItOk(s, NEW) && Enumerate(h, s, m, NEW, delete) == Order(s)
  {
    NewSeesEverything(s);
  }

  lemma {:induction false} FlatAt(b: seq<Chain>, n: nat, i: nat)
    requires n < |b| && i < |b[n]|
    ensures Total(b[..n]) + i < |Flat(b)| && Flat(b)[Total(b[..n]) + i] == b[n][i]
    decreases |b|
  {
    var init, last := b[..|b| - 1], b[|b| - 1];
    assert b == init + [last];
    FlatAppend(init, last);
    FlatLength(init);
    if n < |init| {
      FlatAt(init, n, i);
      assert init[..n] == b[..n];
    } else {
      assert b[..n] == init;
    }
  }

  lemma {:induction false} FlatLength(b: seq<Chain>)
    ensures |Flat(b)| == Total(b)
    decreases |b|
  {
    if b != [] {
      var init, last := b[..|b| - 1], b[|b| - 1];
      FlatLength(init);
      FlatAppend(init, last);
      assert b == init + [last];
    }
  }

  /** The order is by bucket, within a bucket along its chain, and the new table comes after the old one. */
  lemma OrderAt(s: State, n: nat, i: nat)
    ensures n < |s.primary.buckets| && i < |s.primary.buckets[n]| ==>
      var k := Total(s.primary.buckets[..n]) + i;
      k < |Order(s)| && Order(s)[k] == s.primary.buckets[n][i]
    ensures s.rehashing && n < |s.rehash.buckets| && i < |s.rehash.buckets[n]| ==>
      var k := Total(s.primary.buckets) + Total(s.rehash.buckets[..n]) + i;
      k < |Order(s)| && Order(s)[k] == s.rehash.buckets[n][i]
  {
    FlatLength(s.primary.buckets);
    if n < |s.primary.buckets| && i < |s.primary.buckets[n]| {
      FlatAt(s.primary.buckets, n, i);
    }
    if n < |s.rehash.buckets| && i < |s.rehash.buckets[n]| {
      FlatAt(s.rehash.buckets, n, i);
    }
  }
}
