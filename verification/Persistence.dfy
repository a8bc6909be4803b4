/**
 Write-behind persistence: in every reachable state, applying the operations still on
 their way to the disk and then loading the rows gives back the database in memory.
 */
module Persistence {
  import opened Options
  import opened Rows
  import opened Sequences

  function Get(db: Db, key: string): Option<Value> {
    if key in db then Some(db[key]) else None
  }

  function Put(db: Db, key: string, v: Option<Value>): Db {
    if v.Some? then db[key := v.value] else db - {key}
  }

  // ----- rows that represent one value

  function Items(a: seq<Row>): (r: seq<string>)
    ensures |r| == |a| && forall i :: 0 <= i < |a| ==> r[i] == a[i].value
  {
    seq(|a|, i requires 0 <= i < |a| => a[i].value)
  }

  function Skeys(a: seq<Row>): set<string> {
    set r | r in a :: r.skey
  }

  predicate AllOf(a: seq<Row>, kind: Kind) {
    forall i :: 0 <= i < |a| ==> a[i].kind == kind
  }

  predicate DistinctSkeys(a: seq<Row>) {
    forall i, j :: 0 <= i < j < |a| ==> a[i].skey != a[j].skey
  }

  /** The rows a of a key represent its value; the order of a loose list may be lost. */
  ghost predicate RepKey(a: seq<Row>, v: Option<Value>, loose: bool) {
    match v
    case None => a == []
    case Some(Str(text)) => |a| == 1 && a[0].kind == StringRow && a[0].value == text
    case Some(List(items)) =>
      AllOf(a, ListRow) && multiset(Items(a)) == multiset(items) && (!loose ==> Items(a) == items)
    case Some(Hashmap(fields)) =>
      && AllOf(a, HashmapRow) && DistinctSkeys(a) && Skeys(a) == fields.Keys
      && forall i :: 0 <= i < |a| ==> a[i].skey in fields && fields[a[i].skey] == a[i].value
    case Some(Members(keys)) => AllOf(a, SetRow) && DistinctSkeys(a) && Skeys(a) == keys
  }

  /** Values without rows: no key, or an empty container. */
  predicate Vacant(v: Option<Value>) {
    match v
    case None => true
    case Some(Str(_)) => false
    case Some(List(items)) => items == []
    case Some(Hashmap(fields)) => fields == map[]
    case Some(Members(keys)) => keys == {}
  }

  predicate Repeats(v: Option<Value>) {
    v.Some? && v.value.List? && !Distinct(v.value.items)
  }

  /** The item occurs at two places. */
  predicate Twice(items: seq<string>, x: string) {
    exists i, j :: 0 <= i < j < |items| && items[i] == items[j] == x
  }

  /** A query by value for an item that occurs twice: the row LIMIT 1 picks is not determined. */
  predicate Ambiguous(v: Option<Value>, op: Op) {
    v.Some? && v.value.List? && (op.ListDel? || op.ListUpdate?) && Twice(v.value.items, op.was)
  }

  // ----- one logged change

  ghost predicate Logged(v: Option<Value>, op: Op, v': Option<Value>) {
    match op
    case StringAdd(_, data) => Vacant(v) && v' == Some(Str(data))
    case StringUpdate(_, data) => v.Some? && v.value.Str? && v' == Some(Str(data))
    case StringDel(_) => v.Some? && v.value.Str? && v' == None
    case ListAdd(_, data) => v.Some? && v.value.List? && v' == Some(List(v.value.items + [data]))
    case ListDel(_, was) =>
      v.Some? && v.value.List? &&
      exists i :: 0 <= i < |v.value.items| && v.value.items[i] == was
                  && v' == Some(List(v.value.items[..i] + v.value.items[i + 1..]))
    case ListUpdate(_, was, data) =>
      v.Some? && v.value.List? &&
      exists i :: 0 <= i < |v.value.items| && v.value.items[i] == was
                  && v' == Some(List(v.value.items[i := data]))
    case HashmapAdd(_, skey, data) =>
      v.Some? && v.value.Hashmap? && skey !in v.value.fields && v' == Some(Hashmap(v.value.fields[skey := data]))
    case HashmapUpdate(_, skey, data) =>
      v.Some? && v.value.Hashmap? && skey in v.value.fields && v' == Some(Hashmap(v.value.fields[skey := data]))
    case HashmapDel(_, skey) =>
      v.Some? && v.value.Hashmap? && skey in v.value.fields && v' == Some(Hashmap(v.value.fields - {skey}))
    case SetAdd(_, skey) =>
      v.Some? && v.value.Members? && skey !in v.value.keys && v' == Some(Members(v.value.keys + {skey}))
    case SetDel(_, skey) =>
      v.Some? && v.value.Members? && skey in v.value.keys && v' == Some(Members(v.value.keys - {skey}))
  }

  ghost predicate OfKey(a: seq<Row>, key: string) {
    forall i :: 0 <= i < |a| ==> a[i].key == key
  }

  /** An emptied or replaced container needs no operation: neither has rows. */
  lemma VacantHasNoRows(a: seq<Row>, v: Option<Value>, v': Option<Value>, loose: bool)
    requires RepKey(a, v, loose) && Vacant(v) && Vacant(v')
    ensures a == [] && RepKey(a, v', loose)
  {
    assert |multiset(Items(a))| == |a|;
    assert forall r :: r in a ==> r.skey in Skeys(a);
    assert Items([]) == [] && Skeys([]) == {};
  }

  lemma SkeysSnoc(a: seq<Row>, r: Row)
    ensures Skeys(a + [r]) == Skeys(a) + {r.skey}
  {
  }

  /** The row of a subkey, when subkeys are distinct. */
  lemma RowOfSkey(a: seq<Row>, skey: string) returns (i: nat)
    requires skey in Skeys(a)
    ensures i < |a| && a[i].skey == skey
  {
    var r :| r in a && r.skey == skey;
    i :| 0 <= i < |a| && a[i] == r;
  }

  /** Deleting the rows of one subkey removes exactly that row. */
  lemma {:induction false} WithoutOneSkey(a: seq<Row>, p: Row -> bool, i: nat)
    requires i < |a| && p(a[i]) && forall j :: 0 <= j < |a| && j != i ==> !p(a[j])
    ensures Without(a, p) == a[..i] + a[i + 1..]
    decreases |a|
  {
    var n := |a| - 1;
    if i == n {
      WithoutSpares(a[..n], p);
    } else {
      WithoutOneSkey(a[..n], p, i);
      assert a[..n][..i] + a[..n][i + 1..] + [a[n]] == a[..i] + a[i + 1..];
    }
  }

  lemma RemovedSkey(a: seq<Row>, i: nat)
    requires i < |a| && DistinctSkeys(a)
    ensures var a' := a[..i] + a[i + 1..];
            && DistinctSkeys(a') && Skeys(a') == Skeys(a) - {a[i].skey}
            && forall r :: r in a' ==> r in a && r.skey != a[i].skey
  {
    var a' := a[..i] + a[i + 1..];
    assert forall j :: 0 <= j < |a'| ==> a'[j] == if j < i then a[j] else a[j + 1];
    assert forall j :: 0 <= j < i ==> a[j] == a'[j];
    assert forall j :: i < j < |a| ==> a[j] == a'[j - 1];
    forall s | s in Skeys(a) && s != a[i].skey
      ensures s in Skeys(a')
    {
      var j := RowOfSkey(a, s);
      assert a[j] in a';
    }
  }

  // ----- every logged change is tracked by the rows

  lemma StringKeeps(a: seq<Row>, v: Option<Value>, op: Op, a': seq<Row>, v': Option<Value>, loose: bool)
    requires op.StringAdd? || op.StringUpdate? || op.StringDel?
    requires RepKey(a, v, loose) && OfKey(a, op.key) && Applies(a, op, a') && Logged(v, op, v')
    ensures RepKey(a', v', loose)
  {
    if op.StringAdd? {
      VacantHasNoRows(a, v, None, loose);
    } else if op.StringDel? {
      WithoutOneSkey(a, r => IsString(r, op.key), 0);
    }
  }

  lemma MultisetRemove(s: seq<string>, i: nat)
    requires i < |s|
    ensures multiset(s[..i] + s[i + 1..]) == multiset(s) - multiset{s[i]}
  {
    assert s == s[..i] + [s[i]] + s[i + 1..];
  }

  lemma MultisetReplace(s: seq<string>, i: nat, x: string)
    requires i < |s|
    ensures multiset(s[i := x]) == multiset(s) - multiset{s[i]} + multiset{x}
  {
    assert s == s[..i] + [s[i]] + s[i + 1..];
    assert s[i := x] == s[..i] + [x] + s[i + 1..];
  }

  lemma ListAddKeeps(a: seq<Row>, items: seq<string>, key: string, data: string, loose: bool)
    requires RepKey(a, Some(List(items)), loose)
    ensures RepKey(a + [Row(key, NULL, ListRow, data)], Some(List(items + [data])), loose)
  {
    var a' := a + [Row(key, NULL, ListRow, data)];
    assert Items(a') == Items(a) + [data];
  }

  /** A list item has a matching row, so the query finds one. */
  lemma ItemHasRow(a: seq<Row>, items: seq<string>, key: string, was: string, loose: bool)
    requires RepKey(a, Some(List(items)), loose) && OfKey(a, key) && was in items
    ensures !NoListItem(a, key, was)
  {
    assert was in multiset(items) && was in multiset(Items(a)) && was in Items(a);
    var j :| 0 <= j < |a| && Items(a)[j] == was;
    assert IsListItem(a[j], key, was);
  }

  lemma ItemsWithout(a: seq<Row>, j: nat)
    requires j < |a| && AllOf(a, ListRow)
    ensures var a' := a[..j] + a[j + 1..];
            AllOf(a', ListRow) && Items(a') == Items(a)[..j] + Items(a)[j + 1..]
  {
  }

  /** In a list in order the row of an item that occurs once is at its place. */
  lemma RowInPlace(items: seq<string>, i: nat, j: nat)
    requires i < |items| && j < |items| && items[j] == items[i] && !Twice(items, items[i])
    ensures i == j
  {
  }

  lemma ListDelAt(a: seq<Row>, items: seq<string>, i: nat, j: nat, loose: bool)
    requires RepKey(a, Some(List(items)), loose)
    requires i < |items| && j < |a| && a[j].value == items[i]
    ensures RepKey(a[..j] + a[j + 1..], Some(List(items[..i] + items[i + 1..])), loose || Twice(items, items[i]))
  {
    ItemsWithout(a, j);
    SameRemoval(Items(a), items, i, j);
    if !loose && !Twice(items, items[i]) {
      RowInPlace(items, i, j);
    }
  }

  lemma SameRemoval(rows: seq<string>, items: seq<string>, i: nat, j: nat)
    requires multiset(rows) == multiset(items) && i < |items| && j < |rows| && rows[j] == items[i]
    ensures multiset(rows[..j] + rows[j + 1..]) == multiset(items[..i] + items[i + 1..])
  {
    MultisetRemove(rows, j);
    MultisetRemove(items, i);
  }

  lemma ListDelKeeps(a: seq<Row>, items: seq<string>, key: string, a': seq<Row>, i: nat, loose: bool)
    requires RepKey(a, Some(List(items)), loose) && OfKey(a, key)
    requires i < |items| && Applies(a, ListDel(key, items[i]), a')
    ensures RepKey(a', Some(List(items[..i] + items[i + 1..])), loose || Twice(items, items[i]))
  {
    ItemHasRow(a, items, key, items[i], loose);
    var j :| 0 <= j < |a| && IsListItem(a[j], key, items[i]) && a' == a[..j] + a[j + 1..];
    ListDelAt(a, items, i, j, loose);
  }

  lemma ListUpdateAt(a: seq<Row>, items: seq<string>, data: string, i: nat, j: nat, loose: bool)
    requires RepKey(a, Some(List(items)), loose)
    requires i < |items| && j < |a| && a[j].value == items[i]
    ensures RepKey(a[j := a[j].(value := data)], Some(List(items[i := data])), loose || Twice(items, items[i]))
  {
    var a' := a[j := a[j].(value := data)];
    assert Items(a') == Items(a)[j := data];
    MultisetReplace(Items(a), j, data);
    MultisetReplace(items, i, data);
    assert AllOf(a', ListRow) && multiset(Items(a')) == multiset(items[i := data]);
    if !loose && !Twice(items, items[i]) {
      RowInPlace(items, i, j);
    }
  }

  lemma ListUpdateKeeps(a: seq<Row>, items: seq<string>, key: string, data: string, a': seq<Row>, i: nat, loose: bool)
    requires RepKey(a, Some(List(items)), loose) && OfKey(a, key)
    requires i < |items| && Applies(a, ListUpdate(key, items[i], data), a')
    ensures RepKey(a', Some(List(items[i := data])), loose || Twice(items, items[i]))
  {
    ItemHasRow(a, items, key, items[i], loose);
    var j :| 0 <= j < |a| && IsListItem(a[j], key, items[i]) && a' == a[j := a[j].(value := data)];
    ListUpdateAt(a, items, data, i, j, loose);
  }

  lemma HashmapAddKeeps(a: seq<Row>, f: map<string, string>, key: string, skey: string, data: string, loose: bool)
    requires RepKey(a, Some(Hashmap(f)), loose) && skey !in f
    ensures RepKey(a + [Row(key, skey, HashmapRow, data)], Some(Hashmap(f[skey := data])), loose)
  {
    SkeysSnoc(a, Row(key, skey, HashmapRow, data));
  }

  lemma HashmapUpdateKeeps(a: seq<Row>, f: map<string, string>, key: string, skey: string, data: string, loose: bool)
    requires RepKey(a, Some(Hashmap(f)), loose) && OfKey(a, key) && skey in f
    ensures RepKey(Changed(a, r => IsField(r, key, skey), data), Some(Hashmap(f[skey := data])), loose)
  {
    var a' := Changed(a, r => IsField(r, key, skey), data);
    assert forall i :: 0 <= i < |a| ==> a'[i].skey == a[i].skey;
    assert Skeys(a') == Skeys(a) by {
      forall i | 0 <= i < |a|
        ensures a[i].skey in Skeys(a') && a'[i].skey in Skeys(a)
      {
        assert a[i] in a && a'[i] in a';
      }
    }
  }

  lemma HashmapDelKeeps(a: seq<Row>, f: map<string, string>, key: string, skey: string, loose: bool)
    requires RepKey(a, Some(Hashmap(f)), loose) && OfKey(a, key) && skey in f
    ensures RepKey(Without(a, r => IsKind(r, HashmapRow, key, skey)), Some(Hashmap(f - {skey})), loose)
  {
    var i := RowOfSkey(a, skey);
    WithoutOneSkey(a, r => IsKind(r, HashmapRow, key, skey), i);
    RemovedSkey(a, i);
    var a' := a[..i] + a[i + 1..];
    forall j | 0 <= j < |a'|
      ensures a'[j].kind == HashmapRow && a'[j].skey in f - {skey} && f[a'[j].skey] == a'[j].value
    {
      assert a'[j] in a';
    }
  }

  lemma SetAddKeeps(a: seq<Row>, keys: set<string>, key: string, skey: string, loose: bool)
    requires RepKey(a, Some(Members(keys)), loose) && skey !in keys
    ensures RepKey(a + [Row(key, skey, SetRow, NULL)], Some(Members(keys + {skey})), loose)
  {
    SkeysSnoc(a, Row(key, skey, SetRow, NULL));
  }

  lemma SetDelKeeps(a: seq<Row>, keys: set<string>, key: string, skey: string, loose: bool)
    requires RepKey(a, Some(Members(keys)), loose) && OfKey(a, key) && skey in keys
    ensures RepKey(Without(a, r => IsKind(r, SetRow, key, skey)), Some(Members(keys - {skey})), loose)
  {
    var i := RowOfSkey(a, skey);
    WithoutOneSkey(a, r => IsKind(r, SetRow, key, skey), i);
    RemovedSkey(a, i);
  }

  /** Whether the order of a list may be lost after a change; without rows there is none to lose. */
  predicate LooseAfter(loose: bool, v: Option<Value>, op: Op, v': Option<Value>) {
    (loose || Ambiguous(v, op)) && !Vacant(v')
  }

  lemma LoggedKeeps(a: seq<Row>, v: Option<Value>, op: Op, a': seq<Row>, v': Option<Value>, loose: bool)
    requires RepKey(a, v, loose) && OfKey(a, op.key) && Applies(a, op, a') && Logged(v, op, v')
    ensures RepKey(a', v', LooseAfter(loose, v, op, v'))
  {
    ChangeKeeps(a, v, op, a', v', loose);
    if Vacant(v') {
      VacantHasNoRows(a', v', v', loose || Ambiguous(v, op));
      assert Items([]) == [];
    }
  }

  lemma ChangeKeeps(a: seq<Row>, v: Option<Value>, op: Op, a': seq<Row>, v': Option<Value>, loose: bool)
    requires RepKey(a, v, loose) && OfKey(a, op.key) && Applies(a, op, a') && Logged(v, op, v')
    ensures RepKey(a', v', loose || Ambiguous(v, op))
  {
    match op {
      case ListAdd(key, data) => ListAddKeeps(a, v.value.items, key, data, loose);
      case ListDel(key, was) =>
        var i :| 0 <= i < |v.value.items| && v.value.items[i] == was
                 && v' == Some(List(v.value.items[..i] + v.value.items[i + 1..]));
        ListDelKeeps(a, v.value.items, key, a', i, loose);
      case ListUpdate(key, was, data) =>
        var i :| 0 <= i < |v.value.items| && v.value.items[i] == was && v' == Some(List(v.value.items[i := data]));
        ListUpdateKeeps(a, v.value.items, key, data, a', i, loose);
      case HashmapAdd(key, skey, data) => HashmapAddKeeps(a, v.value.fields, key, skey, data, loose);
      case HashmapUpdate(key, skey, data) => HashmapUpdateKeeps(a, v.value.fields, key, skey, data, loose);
      case HashmapDel(key, skey) => HashmapDelKeeps(a, v.value.fields, key, skey, loose);
      case SetAdd(key, skey) => SetAddKeeps(a, v.value.keys, key, skey, loose);
      case SetDel(key, skey) => SetDelKeeps(a, v.value.keys, key, skey, loose);
      case _ => StringKeeps(a, v, op, a', v', loose);
    }
  }
}
