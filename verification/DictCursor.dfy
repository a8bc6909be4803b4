/** The iterator struct with its fields updated in place, and the two loops that move it. */
module DictCursor {
  import opened Options
  import opened DictTables
  import opened DictIterator

  class Cursor {
    var table: nat
    var idx: int
    var e: Option<Entry>
    var next: Option<Entry>

    function It(): Iter
      reads this
    {
      Iter(table, idx, e, next)
    }

    /** dict_create_iterator. */
    constructor ()
      ensures It() == NEW
    {
      table, idx, e, next := 0, -1, None, None;
    }

    /** The branch of dict_iterator_next that goes to the next bucket; done when there is none. */
    method EnterBucket(s: State) returns (done: bool)
      requires ItOk(s, It()) && e.None? && (s.rehashing ==> s.rehash.buckets != [])
      modifies this
      ensures done <==> NextBucket(s, old(It())).None?
      ensures done ==> It() == old(It()).(idx := old(idx) + 1)
      ensures !done ==>
        var it1 := NextBucket(s, old(It())).value;
        && it1.idx < |TableAt(s, it1.table).buckets|
        && It() == it1.(e := Head(TableAt(s, it1.table).buckets[it1.idx]))
    {
      var buckets := TableAt(s, table).buckets;
      idx := idx + 1;
      done := false;
      if idx >= |buckets| {
        if s.rehashing && table == 0 {
          table, idx, buckets := table + 1, 0, s.rehash.buckets;
        } else {
          done := true;
          return;
        }
      }
      e := Head(buckets[idx]);
    }

    /** dict_iterator_next. */
    method Next(s: State) returns (r: Option<Entry>)
      requires ItOk(s, It()) && (s.rehashing ==> s.rehash.buckets != [])
      modifies this
      ensures NextResult(It(), r) == DictIterator.Next(s, old(It()))
    {
      while true
        invariant ItOk(s, It()) && DictIterator.Next(s, It()) == DictIterator.Next(s, old(It()))
        decreases 2 - table, |TableAt(s, table).buckets| - idx, if e.Some? then 1 else 0
      {
        if e.None? {
          var done := EnterBucket(s);
          if done {
            return None;
          }
        } else {
          e := next;
        }
        if e.Some? {
          next := DictIterator.After(TableAt(s, table).buckets[idx], e.value);
          return e;
        }
      }
    }

    /** dict_iterator_prev, on a dictionary that is not rehashing. */
    method Prev(s: State) returns (r: Option<Entry>)
      requires !s.rehashing && table == 0 && -1 <= idx && (e.Some? ==> 0 <= idx < |s.primary.buckets|)
      modifies this
      ensures NextResult(It(), r) == DictIterator.Prev(s, old(It()))
    {
      var b := s.primary.buckets;
      while true
        invariant table == 0 && -1 <= idx && (e.Some? ==> 0 <= idx < |b|)
        invariant DictIterator.Prev(s, It()) == DictIterator.Prev(s, old(It()))
        decreases if idx == -1 then |b| + 1 else idx, if e.Some? then 1 else 0
      {
        if e.None? {
          idx := idx - 1;
          if idx == -2 {
            idx := |b| - 1;
          }
          if idx <= -1 || idx >= |b| {
            return None;
          }
          e := if b[idx] == [] then None else Some(b[idx][|b[idx]| - 1]);
        } else {
          var i := Find(b[idx], e.value.key);
          e := if i == 0 then None else Some(b[idx][i - 1]);
        }
        if e.Some? {
          return e;
        }
      }
    }
  }
}
