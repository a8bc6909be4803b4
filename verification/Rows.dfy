/**
 The persistent side of XFireDB: the row table of disk.c, what each background operation
 does to it, and the load that folds rows back into a database (engine.rb).
 */
module Rows {

  /** The four container types; a stored value of each. */
  datatype Value =
    | Str(text: string)
    | List(items: seq<string>)
    | Hashmap(fields: map<string, string>)
    | Members(keys: set<string>)

  type Db = map<string, Value>

  datatype Kind = StringRow | ListRow | HashmapRow | SetRow

  datatype Row = Row(key: string, skey: string, kind: Kind, value: string)

  /** bio_operation_t with its arguments. */
  datatype Op =
    | StringAdd(key: string, data: string)
    | StringDel(key: string)
    | StringUpdate(key: string, data: string)
    | ListAdd(key: string, data: string)
    | ListDel(key: string, was: string)
    | ListUpdate(key: string, was: string, data: string)
    | HashmapAdd(key: string, skey: string, data: string)
    | HashmapDel(key: string, skey: string)
    | HashmapUpdate(key: string, skey: string, data: string)
    | SetAdd(key: string, skey: string)
    | SetDel(key: string, skey: string)

  const NULL: string := "null"

  // ----- the queries

  function Without(rows: seq<Row>, p: Row -> bool): seq<Row> {
    if rows == [] then []
    else Without(rows[..|rows| - 1], p) + (if p(rows[|rows| - 1]) then [] else [rows[|rows| - 1]])
  }

  function Changed(rows: seq<Row>, p: Row -> bool, value: string): (r: seq<Row>)
    ensures |r| == |rows|
  {
    seq(|rows|, i requires 0 <= i < |rows| => if p(rows[i]) then rows[i].(value := value) else rows[i])
  }

  predicate IsString(r: Row, key: string) {
    r.key == key && r.kind == StringRow
  }

  predicate IsListItem(r: Row, key: string, was: string) {
    r.key == key && r.kind == ListRow && r.value == was
  }

  predicate IsKind(r: Row, kind: Kind, key: string, skey: string) {
    r.kind == kind && r.key == key && r.skey == skey
  }

  /** The update query of hashmaps does not look at the row's type. */
  predicate IsField(r: Row, key: string, skey: string) {
    r.key == key && r.skey == skey
  }

  ghost predicate NoListItem(rows: seq<Row>, key: string, was: string) {
    forall i :: 0 <= i < |rows| ==> !IsListItem(rows[i], key, was)
  }

  /** Some outcome of one query; LIMIT 1 may pick any matching row. */
  ghost predicate Applies(rows: seq<Row>, op: Op, rows': seq<Row>) {
    match op
    case StringAdd(key, data) => rows' == rows + [Row(key, NULL, StringRow, data)]
    case StringUpdate(key, data) => rows' == Changed(rows, r => IsString(r, key), data)
    case StringDel(key) => rows' == Without(rows, r => IsString(r, key))
    case ListAdd(key, data) => rows' == rows + [Row(key, NULL, ListRow, data)]
    case ListDel(key, was) =>
      || (NoListItem(rows, key, was) && rows' == rows)
      || exists i :: 0 <= i < |rows| && IsListItem(rows[i], key, was) && rows' == rows[..i] + rows[i + 1..]
    case ListUpdate(key, was, data) =>
      || (NoListItem(rows, key, was) && rows' == rows)
      || exists i :: 0 <= i < |rows| && IsListItem(rows[i], key, was) && rows' == rows[i := rows[i].(value := data)]
    case HashmapAdd(key, skey, data) => rows' == rows + [Row(key, skey, HashmapRow, data)]
    case HashmapUpdate(key, skey, data) => rows' == Changed(rows, r => IsField(r, key, skey), data)
    case HashmapDel(key, skey) => rows' == Without(rows, r => IsKind(r, HashmapRow, key, skey))
    case SetAdd(key, skey) => rows' == rows + [Row(key, skey, SetRow, NULL)]
    case SetDel(key, skey) => rows' == Without(rows, r => IsKind(r, SetRow, key, skey))
  }

  // ----- the rows of one key

  /** The rows of one key, in table order. */
  function RowsOf(rows: seq<Row>, key: string): seq<Row> {
    if rows == [] then []
    else RowsOf(rows[..|rows| - 1], key) + (if rows[|rows| - 1].key == key then [rows[|rows| - 1]] else [])
  }

  lemma {:induction false} RowsOfConcat(a: seq<Row>, b: seq<Row>, key: string)
    ensures RowsOf(a + b, key) == RowsOf(a, key) + RowsOf(b, key)
    decreases |b|
  {
    if b == [] {
      assert a + b == a;
    } else {
      var n := |b| - 1;
      assert (a + b)[..|a| + n] == a + b[..n];
      RowsOfConcat(a, b[..n], key);
    }
  }

  lemma WithoutSnoc(rows: seq<Row>, r: Row, p: Row -> bool)
    ensures Without(rows + [r], p) == Without(rows, p) + (if p(r) then [] else [r])
  {
    assert (rows + [r])[..|rows|] == rows;
  }

  lemma RowsOfSnoc(rows: seq<Row>, r: Row, key: string)
    ensures RowsOf(rows + [r], key) == RowsOf(rows, key) + (if r.key == key then [r] else [])
  {
    assert (rows + [r])[..|rows|] == rows;
  }

  lemma {:induction false} RowsOfWithout(rows: seq<Row>, p: Row -> bool, key: string)
    ensures RowsOf(Without(rows, p), key) == Without(RowsOf(rows, key), p)
  {
    if rows != [] {
      var init, r := rows[..|rows| - 1], rows[|rows| - 1];
      RowsOfWithout(init, p, key);
      RowsOfSnoc(Without(init, p), r, key);
      WithoutSnoc(RowsOf(init, key), r, p);
      assert p(r) ==> Without(rows, p) == Without(init, p);
      assert r.key != key ==> RowsOf(rows, key) == RowsOf(init, key);
    }
  }

  lemma {:induction false} RowsOfChanged(rows: seq<Row>, p: Row -> bool, value: string, key: string)
    ensures RowsOf(Changed(rows, p, value), key) == Changed(RowsOf(rows, key), p, value)
  {
    if rows != [] {
      var n := |rows| - 1;
      RowsOfChanged(rows[..n], p, value, key);
      assert Changed(rows, p, value)[..n] == Changed(rows[..n], p, value);
    }
  }

  /** Rows of other keys are untouched by a query that spares them. */
  lemma {:induction false} WithoutSpares(rows: seq<Row>, p: Row -> bool)
    requires forall i :: 0 <= i < |rows| ==> !p(rows[i])
    ensures Without(rows, p) == rows
  {
    if rows != [] {
      WithoutSpares(rows[..|rows| - 1], p);
      assert rows == rows[..|rows| - 1] + [rows[|rows| - 1]];
    }
  }

  lemma ChangedSpares(rows: seq<Row>, p: Row -> bool, value: string)
    requires forall i :: 0 <= i < |rows| ==> !p(rows[i])
    ensures Changed(rows, p, value) == rows
  {
  }

  lemma {:induction false} RowsOfAreOfKey(rows: seq<Row>, key: string)
    ensures forall i :: 0 <= i < |RowsOf(rows, key)| ==> RowsOf(rows, key)[i].key == key
  {
    if rows != [] {
      RowsOfAreOfKey(rows[..|rows| - 1], key);
    }
  }

  /** Row i of the table, when it belongs to key, is row n of that key's rows. */
  lemma SplitAt(rows: seq<Row>, i: nat, key: string)
    requires i < |rows|
    ensures RowsOf(rows, key)
         == (if rows[i].key == key then RowsOf(rows[..i], key) + [rows[i]] else RowsOf(rows[..i], key))
            + RowsOf(rows[i + 1..], key)
  {
    assert rows == (rows[..i] + [rows[i]]) + rows[i + 1..];
    RowsOfConcat(rows[..i] + [rows[i]], rows[i + 1..], key);
    RowsOfSnoc(rows[..i], rows[i], key);
  }

  lemma RemoveRow(rows: seq<Row>, i: nat, key: string)
    requires i < |rows|
    ensures var a, n := RowsOf(rows, key), |RowsOf(rows[..i], key)|;
            var b := RowsOf(rows[..i] + rows[i + 1..], key);
            if rows[i].key == key then n < |a| && a[n] == rows[i] && b == a[..n] + a[n + 1..] else b == a
  {
    SplitAt(rows, i, key);
    RowsOfConcat(rows[..i], rows[i + 1..], key);
  }

  lemma ReplaceRow(rows: seq<Row>, i: nat, value: string, key: string)
    requires i < |rows|
    ensures var a, n := RowsOf(rows, key), |RowsOf(rows[..i], key)|;
            var b := RowsOf(rows[i := rows[i].(value := value)], key);
            if rows[i].key == key then n < |a| && a[n] == rows[i] && b == a[n := a[n].(value := value)] else b == a
  {
    var rows' := rows[i := rows[i].(value := value)];
    SplitAt(rows, i, key);
    SplitAt(rows', i, key);
    assert rows'[..i] == rows[..i] && rows'[i + 1..] == rows[i + 1..];
  }

  lemma {:induction false} RowsOfMember(rows: seq<Row>, key: string, r: Row)
    ensures r in RowsOf(rows, key) <==> r in rows && r.key == key
  {
    if rows != [] {
      RowsOfMember(rows[..|rows| - 1], key, r);
    }
  }

  // ----- a query is local to its key

  lemma AppliesToKey(rows: seq<Row>, op: Op, rows': seq<Row>)
    requires Applies(rows, op, rows')
    ensures Applies(RowsOf(rows, op.key), op, RowsOf(rows', op.key))
  {
    var key := op.key;
    match op {
      case StringAdd(_, data) => RowsOfSnoc(rows, Row(key, NULL, StringRow, data), key);
      case StringUpdate(_, data) => RowsOfChanged(rows, r => IsString(r, key), data, key);
      case StringDel(_) => RowsOfWithout(rows, r => IsString(r, key), key);
      case ListAdd(_, data) => RowsOfSnoc(rows, Row(key, NULL, ListRow, data), key);
      case ListDel(_, was) => ListDelToKey(rows, key, was, rows');
      case ListUpdate(_, was, data) => ListUpdateToKey(rows, key, was, data, rows');
      case HashmapAdd(_, skey, data) => RowsOfSnoc(rows, Row(key, skey, HashmapRow, data), key);
      case HashmapUpdate(_, skey, data) => RowsOfChanged(rows, r => IsField(r, key, skey), data, key);
      case HashmapDel(_, skey) => RowsOfWithout(rows, r => IsKind(r, HashmapRow, key, skey), key);
      case SetAdd(_, skey) => RowsOfSnoc(rows, Row(key, skey, SetRow, NULL), key);
      case SetDel(_, skey) => RowsOfWithout(rows, r => IsKind(r, SetRow, key, skey), key);
    }
  }

  lemma NoListItemOfKey(rows: seq<Row>, key: string, was: string)
    requires NoListItem(rows, key, was)
    ensures NoListItem(RowsOf(rows, key), key, was)
  {
    var a := RowsOf(rows, key);
    forall i | 0 <= i < |a|
      ensures !IsListItem(a[i], key, was)
    {
      RowsOfMember(rows, key, a[i]);
    }
  }

  lemma ListDelToKey(rows: seq<Row>, key: string, was: string, rows': seq<Row>)
    requires Applies(rows, ListDel(key, was), rows')
    ensures Applies(RowsOf(rows, key), ListDel(key, was), RowsOf(rows', key))
  {
    if NoListItem(rows, key, was) && rows' == rows {
      NoListItemOfKey(rows, key, was);
    } else {
      var i :| 0 <= i < |rows| && IsListItem(rows[i], key, was) && rows' == rows[..i] + rows[i + 1..];
      RemoveRow(rows, i, key);
      DeletesAt(RowsOf(rows, key), |RowsOf(rows[..i], key)|, key, was);
    }
  }

  lemma DeletesAt(a: seq<Row>, n: nat, key: string, was: string)
    requires n < |a| && IsListItem(a[n], key, was)
    ensures Applies(a, ListDel(key, was), a[..n] + a[n + 1..])
  {
  }

  lemma ListUpdateToKey(rows: seq<Row>, key: string, was: string, data: string, rows': seq<Row>)
    requires Applies(rows, ListUpdate(key, was, data), rows')
    ensures Applies(RowsOf(rows, key), ListUpdate(key, was, data), RowsOf(rows', key))
  {
    if NoListItem(rows, key, was) && rows' == rows {
      NoListItemOfKey(rows, key, was);
    } else {
      var i :| 0 <= i < |rows| && IsListItem(rows[i], key, was) && rows' == rows[i := rows[i].(value := data)];
      ReplaceRow(rows, i, data, key);
      var a, n := RowsOf(rows, key), |RowsOf(rows[..i], key)|;
      assert IsListItem(a[n], key, was);
    }
  }

  /** Rows of other keys stay as they are. */
  lemma AppliesElsewhere(rows: seq<Row>, op: Op, rows': seq<Row>, k: string)
    requires Applies(rows, op, rows') && k != op.key
    ensures RowsOf(rows', k) == RowsOf(rows, k)
  {
    var key, a := op.key, RowsOf(rows, k);
    RowsOfAreOfKey(rows, k);
    match op {
      case StringAdd(_, data) => RowsOfSnoc(rows, Row(key, NULL, StringRow, data), k);
      case ListAdd(_, data) => RowsOfSnoc(rows, Row(key, NULL, ListRow, data), k);
      case HashmapAdd(_, skey, data) => RowsOfSnoc(rows, Row(key, skey, HashmapRow, data), k);
      case SetAdd(_, skey) => RowsOfSnoc(rows, Row(key, skey, SetRow, NULL), k);
      case StringUpdate(_, data) => SparedByChange(rows, r => IsString(r, key), data, k);
      case HashmapUpdate(_, skey, data) => SparedByChange(rows, r => IsField(r, key, skey), data, k);
      case StringDel(_) => SparedByDelete(rows, r => IsString(r, key), k);
      case HashmapDel(_, skey) => SparedByDelete(rows, r => IsKind(r, HashmapRow, key, skey), k);
      case SetDel(_, skey) => SparedByDelete(rows, r => IsKind(r, SetRow, key, skey), k);
      case ListDel(_, was) =>
        if rows' != rows {
          var i :| 0 <= i < |rows| && IsListItem(rows[i], key, was) && rows' == rows[..i] + rows[i + 1..];
          RemoveRow(rows, i, k);
        }
      case ListUpdate(_, was, data) =>
        if rows' != rows {
          var i :| 0 <= i < |rows| && IsListItem(rows[i], key, was) && rows' == rows[i := rows[i].(value := data)];
          ReplaceRow(rows, i, data, k);
        }
    }
  }

  lemma SparedByChange(rows: seq<Row>, p: Row -> bool, value: string, k: string)
    requires forall r: Row :: r.key == k ==> !p(r)
    ensures RowsOf(Changed(rows, p, value), k) == RowsOf(rows, k)
  {
    RowsOfChanged(rows, p, value, k);
    RowsOfAreOfKey(rows, k);
    ChangedSpares(RowsOf(rows, k), p, value);
  }

  lemma SparedByDelete(rows: seq<Row>, p: Row -> bool, k: string)
    requires forall r: Row :: r.key == k ==> !p(r)
    ensures RowsOf(Without(rows, p), k) == RowsOf(rows, k)
  {
    RowsOfWithout(rows, p, k);
    RowsOfAreOfKey(rows, k);
    WithoutSpares(RowsOf(rows, k), p);
  }
}
