/**
 The dictionary as the C code runs it: bucket arrays updated in place, loops over chains
 and buckets, and the background worker interleaved between a client's critical sections.
 Every method is proved against the functions of DictTables.
 */
module Dictionary {
  import opened Options
  import opened PowerOfTwo
  import opened DictTables
  import opened DictInvariant
  import DictLoad

  /** The loop over a chain in dict_calc_index, __dict_delete and __dict_lookup. */
  method Search(c: Chain, key: string) returns (i: nat)
    ensures i == Find(c, key)
  {
    i := 0;
    while i < |c| && c[i].key != key
      invariant i <= |c|
      invariant forall j :: 0 <= j < i ==> c[j].key != key
    {
      i := i + 1;
    }
    var f := Find(c, key);
    assert f < |c| ==> c[f].key == key;
  }

  lemma RehashLoopStops(h: Hash, s: State, n: nat, visits: nat)
    requires Rehashable(s) && (n > 0 ==> visits > 0) && (n == 0 || s.primary.length <= 0)
    ensures RehashLoop(h, s, n, visits) == RehashResult(s, true)
  {
  }

  lemma LastWriteWins(v: map<string, nat>, key: string, first: nat, second: nat)
    ensures v[key := first][key := second] == v[key := second]
  {
  }

  class Dict {
    const hash: Hash
    var primary: array<Chain>
    var rehash: array<Chain>
    var primaryLength: int
    var rehashLength: int
    var rehashidx: int
    var rehashing: bool
    var iterators: nat
    var cells: map<nat, nat>
    var next: nat
    ghost var index: Index

    ghost function St(): State
      reads this`primary, this`rehash, this`primaryLength, this`rehashLength, this`rehashidx,
            this`rehashing, this`iterators, this`cells, this`next, primary, rehash
    {
      State(Table(primary[..], primaryLength), Table(rehash[..], rehashLength),
            rehashidx, rehashing, iterators, cells, next)
    }

    ghost predicate Valid()
      reads this, primary, rehash
    {
      primary != rehash && Inv(hash, St(), index)
    }

    /** The plain map this dictionary stands for. */
    ghost function View(): map<string, nat>
      requires Valid()
      reads this, primary, rehash
    {
      Values(cells, index)
    }

    /** dict_alloc. */
    constructor (hash: Hash)
      ensures Valid() && fresh(primary) && fresh(rehash) && this.hash == hash
      ensures St() == INITIAL && View() == map[]
    {
      this.hash := hash;
      primary := new Chain[4](i => []);
      rehash := new Chain[0];
      primaryLength, rehashLength := 0, 0;
      rehashidx, rehashing, iterators := 0, false, 0;
      cells, next, index := map[], 0, map[];
      new;
      assert primary[..] == EmptyTable(MINIMAL_SIZE).buckets;
      assert rehash[..] == [];
      EmptyTableOk(hash, MINIMAL_SIZE, map[]);
    }

    // ----- rehashing

    /** The scan over empty buckets; false means the visits ran out. */
    method ScanBuckets(visits: nat) returns (found: bool, left: nat)
      requires rehashing && visits > 0 && Rehashable(St()) && EntryFrom(primary[..], rehashidx)
      modifies this`rehashidx
      ensures rehashidx >= 0 && St() == old(St()).(rehashidx := rehashidx)
      ensures Scan(primary[..], old(rehashidx), visits)
           == if found then Found(rehashidx, left) else OutOfVisits(rehashidx)
    {
      left := visits;
      while primary[rehashidx] == []
        invariant 0 <= rehashidx < primary.Length && left > 0
        invariant EntryFrom(primary[..], rehashidx)
        invariant Scan(primary[..], rehashidx, left) == Scan(primary[..], old(rehashidx), visits)
        decreases primary.Length - rehashidx
      {
        rehashidx := rehashidx + 1;
        left := left - 1;
        if left == 0 {
          return false, 0;
        }
      }
      found := true;
    }

    /** Relink one bucket, entry by entry, to the heads of its new chains. */
    method MoveCurrent()
      requires primary != rehash && Rehashable(St()) && rehashidx < primary.Length
      modifies this`primaryLength, this`rehashLength, this`rehashidx, primary, rehash
      ensures St() == MoveBucket(hash, old(St()))
    {
      var de := primary[rehashidx];
      while de != []
        invariant |rehash[..]| == old(rehash.Length) > 0 && rehashidx == old(rehashidx)
        invariant primary[..] == old(primary[..])
        invariant MoveChain(hash, de, Table(rehash[..], rehashLength))
               == MoveChain(hash, old(primary[rehashidx]), old(St()).rehash)
        invariant primaryLength == old(primaryLength) - |old(primary[rehashidx])| + |de|
        decreases |de|
      {
        var b := Slot(hash, de[0].key, rehash.Length);
        ghost var before := rehash[..];
        rehash[b] := [de[0]] + rehash[b];
        assert rehash[..] == before[b := [de[0]] + before[b]];
        rehashLength := rehashLength + 1;
        primaryLength := primaryLength - 1;
        de := de[1..];
      }
      primary[rehashidx] := [];
      assert primary[..] == old(primary[..])[rehashidx := []];
      rehashidx := rehashidx + 1;
    }

    /** The new table takes over. */
    method HandOver()
      requires primary != rehash
      modifies this
      ensures St() == Finish(old(St())) && index == old(index)
      ensures primary == old(rehash) && fresh(rehash) && primary != rehash
    {
      primary, primaryLength := rehash, rehashLength;
      rehash, rehashLength := new Chain[0], 0;
      rehashidx, rehashing := -1, false;
      assert rehash[..] == [];
    }

    /** The outer loop with n iterations to go ends in the given result. */
    ghost predicate Bound(n: nat, visits: nat, result: RehashResult)
      reads this, primary, rehash
    {
      && primary != rehash && Rehashable(St()) && (n > 0 ==> visits > 0)
      && result == RehashLoop(hash, St(), n, visits)
    }

    /** One iteration of dict_rehash's outer loop. */
    method RehashIteration(n: nat, visits: nat, ghost result: RehashResult)
        returns (stop: bool, more: bool, left: nat)
      requires Bound(n, visits, result) && n > 0 && primaryLength > 0
      modifies this, primary, rehash
      ensures index == old(index)
      ensures stop ==> primary != rehash && RehashResult(St(), more) == result
      ensures stop ==> (primary == old(primary) && rehash == old(rehash)) || (primary == old(rehash) && fresh(rehash))
      ensures !stop ==> Bound(n - 1, left, result) && primary == old(primary) && rehash == old(rehash)
    {
      EntryAhead(St());
      var found;
      found, left := ScanBuckets(visits);
      if !found {
        return true, true, 0;
      }
      MoveCurrent();
      if primaryLength == 0 {
        HandOver();
        return true, false, 0;
      }
      return false, true, left;
    }

    /** The outer loop of dict_rehash. */
    method RehashBuckets(num: nat, maxVisits: nat, ghost result: RehashResult) returns (more: bool)
      requires Bound(num, maxVisits, result)
      modifies this, primary, rehash
      ensures RehashResult(St(), more) == result
      ensures primary != rehash && index == old(index)
      ensures (primary == old(primary) && rehash == old(rehash)) || (primary == old(rehash) && fresh(rehash))
    {
      var n: nat, visits: nat := num, maxVisits;
      while n > 0 && primaryLength > 0
        invariant primary == old(primary) && rehash == old(rehash) && index == old(index)
        invariant Bound(n, visits, result)
        decreases n
      {
        var stop;
        stop, more, visits := RehashIteration(n, visits, result);
        if stop {
          return;
        }
        n := n - 1;
      }
      RehashLoopStops(hash, St(), n, visits);
      more := true;
    }

    /** dict_rehash. */
    method Rehash(num: nat) returns (more: bool)
      requires Valid()
      modifies this, primary, rehash
      ensures Valid() && index == old(index) && View() == old(View())
      ensures RehashResult(St(), more) == DictTables.Rehash(hash, old(St()), num)
      ensures old(rehashing && primaryLength > 0) ==> DictLoad.MovesUpTo(old(St()), St(), num, 10 * num)
      ensures (primary == old(primary) && rehash == old(rehash)) || (primary == old(rehash) && fresh(rehash))
    {
      RehashKeeps(hash, St(), index, num);
      if rehashing && primaryLength > 0 {
        DictLoad.RehashMoves(hash, St(), num);
      }
      if !rehashing {
        return false;
      }
      more := RehashBuckets(num, num * 10, RehashLoop(hash, St(), num, num * 10));
    }

    /** dict_rehash_step, when the dictionary is rehashing. */
    method RehashStep()
      requires Valid()
      modifies this, primary, rehash
      ensures Valid() && index == old(index) && View() == old(View())
      ensures St() == ClientRehash(hash, old(St()))
      ensures (primary == old(primary) && rehash == old(rehash)) || (primary == old(rehash) && fresh(rehash))
    {
      if rehashing && iterators == 0 {
        var _ := Rehash(1);
      }
    }

    // ----- critical sections

    /** dict_expand. */
    method ExpandTo(size: nat) returns (ok: bool)
      requires size > 0 && primaryLength >= 0
      modifies this
      ensures Expand(old(St()), size) == if ok then Some(St()) else None
      ensures !ok ==> St() == old(St())
      ensures index == old(index)
      ensures primary == old(primary) || fresh(primary)
      ensures rehash == old(rehash) || fresh(rehash)
      ensures primary == old(primary) || rehash == old(rehash)
    {
      var realSize := RealSize(size);
      if rehashing || primaryLength > size || primary.Length == realSize {
        return false;
      }
      var slots := new Chain[realSize](i => []);
      assert slots[..] == EmptyTable(realSize).buckets;
      if primary.Length == 0 {
        primary, primaryLength := slots, 0;
      } else {
        rehash, rehashLength := slots, 0;
        rehashidx, rehashing := 0, true;
      }
      ok := true;
    }

    /** dict_expand_if. */
    method ExpandIfNeeded(cfg: Config) returns (ok: bool)
      requires primaryLength >= 0
      modifies this
      ensures ExpandIf(cfg, old(St())) == if ok then Some(St()) else None
      ensures !ok ==> St() == old(St())
      ensures index == old(index)
      ensures primary == old(primary) || fresh(primary)
      ensures rehash == old(rehash) || fresh(rehash)
      ensures primary == old(primary) || rehash == old(rehash)
    {
      ok := true;
      if !rehashing {
        if primary.Length == 0 {
          ok := ExpandTo(MINIMAL_SIZE);
        } else if ShouldExpand(cfg, primaryLength, primary.Length) {
          ok := ExpandTo(primaryLength * 2);
        }
      }
    }

    /** The look-up in one table. */
    method SearchTable(a: array<Chain>, key: string) returns (found: bool, b: nat, i: nat)
      requires a.Length > 0
      ensures b == Slot(hash, key, a.Length) && i == Find(a[b], key)
      ensures found <==> i < |a[b]|
      ensures forall n :: found <==> Contains(hash, Table(a[..], n), key)
    {
      b := Slot(hash, key, a.Length);
      i := Search(a[b], key);
      found := i < |a[b]|;
    }

    /** __dict_lookup's critical section. */
    method Lookup(key: string) returns (r: Option<Entry>)
      requires Valid()
      ensures r == LookupSection(hash, St(), key)
      ensures r == if key in index then Some(Entry(key, index[key])) else None
    {
      LookupSectionFinds(hash, St(), index, key);
      if primary.Length == 0 {
        return None;
      }
      var found, b, i := SearchTable(primary, key);
      if found {
        return Some(primary[b][i]);
      }
      if rehashing {
        found, b, i := SearchTable(rehash, key);
        if found {
          return Some(rehash[b][i]);
        }
      }
      r := None;
    }

    /** The search of both tables in dict_calc_index. */
    method KeyTaken(key: string) returns (taken: bool)
      requires primary.Length > 0 && (rehashing ==> rehash.Length > 0)
      ensures taken <==> Contains(hash, St().primary, key) || (rehashing && Contains(hash, St().rehash, key))
    {
      var found, b, i := SearchTable(primary, key);
      taken := found;
      if !found && rehashing {
        taken, b, i := SearchTable(rehash, key);
      }
    }

    /** Link a zeroed entry into the table that takes new keys. */
    method LinkEntry(e: Entry)
      requires primary != rehash && (if rehashing then rehash.Length > 0 else primary.Length > 0)
      modifies this, primary, rehash
      ensures St() == Link(hash, old(St()), e)
      ensures primary == old(primary) && rehash == old(rehash) && index == old(index)
    {
      if rehashing {
        var b := Slot(hash, e.key, rehash.Length);
        rehash[b] := [e] + rehash[b];
        rehashLength := rehashLength + 1;
        assert rehash[..] == old(rehash[..])[b := [e] + old(rehash[b])];
      } else {
        var b := Slot(hash, e.key, primary.Length);
        primary[b] := [e] + primary[b];
        primaryLength := primaryLength + 1;
        assert primary[..] == old(primary[..])[b := [e] + old(primary[b])];
      }
      cells, next := cells[e.cell := 0], e.cell + 1;
    }

    /** dict_calc_index and the insertion, without the bookkeeping of the proof. */
    method PlaceEntry(cfg: Config, key: string) returns (r: Option<Entry>)
      requires primary != rehash && primaryLength >= 0 && (rehashing ==> primary.Length > 0 && rehash.Length > 0)
      requires ExpandIf(cfg, St()).Some? && ExpandIf(cfg, St()).value.primary.buckets != []
      modifies this, primary, rehash
      ensures AddResult(St(), r) == AddSection(hash, cfg, old(St()), key)
      ensures primary != rehash && index == old(index)
      ensures primary == old(primary) || primary == old(rehash) || fresh(primary)
      ensures rehash == old(rehash) || fresh(rehash)
    {
      var ok := ExpandIfNeeded(cfg);
      assert St().primary.buckets != [];
      var taken := KeyTaken(key);
      if taken {
        return None;
      }
      var e := Entry(key, next);
      LinkEntry(e);
      r := Some(e);
    }

    /** __dict_add's critical section keeps the invariant, for the index with or without the new key. */
    method AddIndexed(cfg: Config, key: string) returns (r: Option<Entry>)
      requires Valid()
      modifies this, primary, rehash
      ensures AddResult(St(), r) == AddSection(hash, cfg, old(St()), key)
      ensures primary != rehash && index == old(index)
      ensures Inv(hash, St(), if key in index then index else index[key := old(next)])
      ensures r == if key in index then None else Some(Entry(key, old(next)))
      ensures cells == if key in index then old(cells) else old(cells)[old(next) := 0]
      ensures primary == old(primary) || primary == old(rehash) || fresh(primary)
      ensures rehash == old(rehash) || fresh(rehash)
    {
      AddSectionAdds(hash, cfg, St(), index, key);
      ExpandIfKeeps(hash, cfg, St(), index);
      r := PlaceEntry(cfg, key);
    }

    method AddEntry(cfg: Config, key: string) returns (r: Option<Entry>)
      requires Valid()
      modifies this, primary, rehash
      ensures Valid()
      ensures r == if key in old(index) then None else Some(Entry(key, old(next)))
      ensures index == if key in old(index) then old(index) else old(index)[key := old(next)]
      ensures View() == if key in old(index) then old(View()) else old(View())[key := 0]
      ensures primary == old(primary) || primary == old(rehash) || fresh(primary)
      ensures rehash == old(rehash) || fresh(rehash)
    {
      if key !in index {
        ValuesWithNew(cells, next, index, key);
      }
      r := AddIndexed(cfg, key);
      if r.Some? {
        index := index[key := r.value.cell];
      }
    }

    /** The unlinking in __dict_delete, in one table. */
    method UnlinkFrom(inPrimary: bool, b: nat, i: nat)
      requires primary != rehash
      requires var a := if inPrimary then primary else rehash; b < a.Length && i < |a[b]|
      modifies this, primary, rehash
      ensures primary == old(primary) && rehash == old(rehash) && index == old(index)
      ensures St() == (if inPrimary then old(St()).(primary := Unlink(old(St()).primary, b, i))
                       else old(St()).(rehash := Unlink(old(St()).rehash, b, i)))
    {
      if inPrimary {
        primary[b] := primary[b][..i] + primary[b][i + 1..];
        primaryLength := primaryLength - 1;
        assert primary[..] == Unlink(old(St()).primary, b, i).buckets;
      } else {
        rehash[b] := rehash[b][..i] + rehash[b][i + 1..];
        rehashLength := rehashLength - 1;
        assert rehash[..] == Unlink(old(St()).rehash, b, i).buckets;
      }
    }

    /** __dict_delete's critical section, without the bookkeeping of the proof. */
    method RemoveEntry(key: string) returns (r: Option<Entry>)
      requires primary != rehash && (rehashing ==> rehash.Length > 0)
      modifies this, primary, rehash
      ensures DeleteResult(St(), r) == DeleteSection(hash, old(St()), key)
      ensures primary == old(primary) && rehash == old(rehash) && index == old(index)
    {
      if primary.Length == 0 {
        return None;
      }
      var found, b, i := SearchTable(primary, key);
      var inPrimary := found;
      if !found && rehashing {
        found, b, i := SearchTable(rehash, key);
      }
      if !found {
        return None;
      }
      var e := if inPrimary then primary[b][i] else rehash[b][i];
      UnlinkFrom(inPrimary, b, i);
      cells := cells - {e.cell};
      r := Some(e);
    }

    method DeleteEntry(key: string) returns (r: Option<Entry>)
      requires Valid()
      modifies this, primary, rehash
      ensures Valid() && DeleteResult(St(), r) == DeleteSection(hash, old(St()), key)
      ensures index == old(index) - {key} && View() == old(View()) - {key}
      ensures r == if key in old(index) then Some(Entry(key, old(index)[key])) else None
      ensures primary == old(primary) && rehash == old(rehash)
    {
      DeleteSectionDeletes(hash, St(), index, key);
      ValuesWithout(cells, next, index, key);
      r := RemoveEntry(key);
      index := index - {key};
    }

    // ----- operations, with the worker running between their critical sections

    /** The worker gets the lock and runs some rehash calls. */
    method WorkerRuns(slices: seq<nat>)
      requires Valid()
      modifies this, primary, rehash
      ensures Valid() && index == old(index) && View() == old(View()) && cells == old(cells)
      ensures primary == old(primary) || primary == old(rehash) || fresh(primary)
      ensures rehash == old(rehash) || fresh(rehash)
    {
      for k := 0 to |slices|
        invariant Valid() && index == old(index) && View() == old(View()) && cells == old(cells)
        invariant primary == old(primary) || primary == old(rehash) || fresh(primary)
        invariant rehash == old(rehash) || fresh(rehash)
      {
        var _ := Rehash(slices[k]);
      }
    }

    /** What every operation does first: its own rehash step, after which the worker may run again. */
    method Begin(w: seq<nat>)
      requires Valid()
      modifies this, primary, rehash
      ensures Valid() && index == old(index) && View() == old(View())
      ensures primary == old(primary) || primary == old(rehash) || fresh(primary)
      ensures rehash == old(rehash) || fresh(rehash)
    {
      RehashStep();
      WorkerRuns(w);
    }

    /** dict_set_val through an entry pointer, without the lock. */
    method SetVal(ghost key: string, cell: nat, value: nat)
      requires Valid() && key in index && index[key] == cell
      modifies this`cells
      ensures Valid() && View() == old(View())[key := value]
    {
      ValuesWritten(cells, next, index, key, value);
      cells := cells[cell := value];
    }

    /** dict_add. */
    method Add(cfg: Config, key: string, value: nat, w0: seq<nat>, w1: seq<nat>) returns (ok: bool)
      requires Valid()
      modifies this, primary, rehash
      ensures Valid()
      ensures ok <==> key !in old(View())
      ensures View() == if ok then old(View())[key := value] else old(View())
      ensures primary == old(primary) || primary == old(rehash) || fresh(primary)
      ensures rehash == old(rehash) || fresh(rehash)
    {
      Begin(w0);
      var e := AddEntry(cfg, key);
      ok := e.Some?;
      if ok {
        LastWriteWins(old(View()), key, 0, value);
        FillEntry(key, e.value.cell, value, w1);
      } else {
        WorkerRuns(w1);
      }
    }

    /** The worker may run before the new entry gets its value. */
    method FillEntry(ghost key: string, cell: nat, value: nat, w: seq<nat>)
      requires Valid() && key in index && index[key] == cell
      modifies this, primary, rehash
      ensures Valid() && View() == old(View())[key := value]
      ensures primary == old(primary) || primary == old(rehash) || fresh(primary)
      ensures rehash == old(rehash) || fresh(rehash)
    {
      WorkerRuns(w);
      SetVal(key, cell, value);
    }

    /** dict_lookup. */
    method Get(key: string, w: seq<nat>) returns (r: Option<nat>)
      requires Valid()
      modifies this, primary, rehash
      ensures Valid() && View() == old(View())
      ensures r == if key in View() then Some(View()[key]) else None
      ensures primary == old(primary) || primary == old(rehash) || fresh(primary)
      ensures rehash == old(rehash) || fresh(rehash)
    {
      Begin(w);
      var e := Lookup(key);
      r := if e.Some? then Some(cells[e.value.cell]) else None;
    }

    /** dict_delete. */
    method Delete(key: string, w: seq<nat>) returns (r: Option<nat>)
      requires Valid()
      modifies this, primary, rehash
      ensures Valid() && View() == old(View()) - {key}
      ensures r == if key in old(View()) then Some(old(View())[key]) else None
    {
      Begin(w);
      var before := cells;
      var e := DeleteEntry(key);
      r := if e.Some? then Some(before[e.value.cell]) else None;
    }

    /** dict_update: write through the entry found, or add. */
    method Update(cfg: Config, key: string, value: nat, w0: seq<nat>, w1: seq<nat>, w2: seq<nat>, w3: seq<nat>)
      requires Valid()
      modifies this, primary, rehash
      ensures Valid() && View() == old(View())[key := value]
    {
      Begin(w0);
      var e := Lookup(key);
      if e.Some? {
        FillEntry(key, e.value.cell, value, w1);
      } else {
        WorkerRuns(w1);
        var _ := Add(cfg, key, value, w2, w3);
      }
    }
  }
}
