/** The storage commands of storage_commands.rb on one database. */
module Store {
  import opened Options
  import opened Rows
  import opened Sequences
  import opened Persistence

  /** One line of a reply: data, an error code, a number or a truth value. */
  datatype Answer =
    | Data(text: string)
    | Nil
    | Ok
    | Number(n: nat)
    | Flag(b: bool)
    | Complaint(reason: string)

  /** The lines sent back; Raised stands for a command that ends in an exception. */
  datatype Reply = Lines(answers: seq<Answer>) | Raised

  // ----- ranges of a list

  function RefAt(items: seq<string>, i: int): Option<string> {
    if 0 <= i < |items| then Some(items[i]) else None
  }

  function AsLine(v: Option<string>): Answer {
    if v.Some? then Data(v.value) else Nil
  }

  /** A negative bound counts from the end. */
  function Normal(i: int, n: nat): int {
    if i >= 0 then i else i + n
  }

  function Count(a: int, b: int): nat {
    if a <= b then b - a + 1 else 0
  }

  /** The lines for positions a to b, nil where there is no item. */
  function RefLines(items: seq<string>, a: int, b: int): (r: seq<Answer>)
    ensures |r| == Count(a, b)
    ensures forall k :: 0 <= k < |r| ==> r[k] == AsLine(RefAt(items, a + k))
  {
    seq(Count(a, b), k requires 0 <= k < Count(a, b) => AsLine(RefAt(items, a + k)))
  }

  /** The loop of LREF over a range with normalised bounds. */
  method RefRange(items: seq<string>, a: int, b: int) returns (rv: seq<Answer>)
    ensures rv == RefLines(items, a, b)
  {
    rv := [];
    var lo := a;
    while lo <= b
      invariant a <= lo <= a + Count(a, b) && |rv| == lo - a
      invariant forall k :: 0 <= k < |rv| ==> rv[k] == AsLine(RefAt(items, a + k))
    {
      rv := rv + [AsLine(RefAt(items, lo))];
      lo := lo + 1;
    }
  }

  function Min(a: int, b: int): int {
    if a <= b then a else b
  }

  /** The list without positions a to b. */
  function CutOut(items: seq<string>, a: nat, b: int): seq<string>
    requires a <= b + 1
  {
    items[..Min(a, |items|)] + items[Min(b + 1, |items|)..]
  }

  /** What LPOP a..b leaves; popping at a negative position finds nothing. */
  function PopLeaves(items: seq<string>, a: int, b: int): seq<string> {
    if 0 <= a <= b then CutOut(items, a, b) else items
  }

  function Nils(n: nat): (r: seq<Answer>)
    ensures |r| == n && forall k :: 0 <= k < n ==> r[k] == Nil
  {
    seq(n, _ => Nil)
  }

  function PopLines(items: seq<string>, a: int, b: int): seq<Answer> {
    if a < 0 then Nils(Count(a, b)) else RefLines(items, a, b)
  }

  /** list_ref and list_del of rb_list_pop: the item at idx, if there is one, leaves the list. */
  method Pop(items: seq<string>, idx: int) returns (v: Option<string>, rest: seq<string>)
    ensures v == RefAt(items, idx)
    ensures rest == if v.Some? then items[..idx] + items[idx + 1..] else items
  {
    var counter := 0;
    while counter < |items|
      invariant 0 <= counter <= |items|
      invariant 0 <= idx < |items| ==> counter <= idx
    {
      if counter == idx {
        return Some(items[idx]), items[..idx] + items[idx + 1..];
      }
      counter := counter + 1;
    }
    return None, items;
  }

  /** The loop of LPOP over a range with normalised bounds: pop at the same position again and again. */
  method PopRange(items: seq<string>, a: int, b: int) returns (rest: seq<string>, rv: seq<Answer>)
    ensures rest == PopLeaves(items, a, b) && rv == PopLines(items, a, b)
  {
    rest, rv := items, [];
    var lo := a;
    NothingPopped(items, a);
    while lo <= b
      invariant a <= lo <= a + Count(a, b)
      invariant rest == PopLeaves(items, a, lo - 1) && rv == PopLines(items, a, lo - 1)
    {
      var v, rest' := Pop(rest, a);
      PopStep(items, a, lo, rest, v, rest');
      rest, rv := rest', rv + [AsLine(v)];
      lo := lo + 1;
    }
  }

  lemma NothingPopped(items: seq<string>, a: int)
    ensures PopLeaves(items, a, a - 1) == items && PopLines(items, a, a - 1) == []
  {
  }

  lemma PopStep(items: seq<string>, a: int, lo: int, rest: seq<string>, v: Option<string>, rest': seq<string>)
    requires a <= lo && rest == PopLeaves(items, a, lo - 1) && v == RefAt(rest, a)
    requires rest' == if v.Some? then rest[..a] + rest[a + 1..] else rest
    ensures rest' == PopLeaves(items, a, lo) && PopLines(items, a, lo) == PopLines(items, a, lo - 1) + [AsLine(v)]
  {
    if a >= 0 {
      if lo == a {
        assert CutOut(items, a, a - 1) == items;
      }
      PopNext(items, a, lo, rest, v, rest');
    }
  }

  /** After positions a to lo - 1 are gone, the item at a is the one that stood at lo. */
  lemma PopNext(items: seq<string>, a: nat, lo: int, rest: seq<string>, v: Option<string>, rest': seq<string>)
    requires a <= lo && rest == CutOut(items, a, lo - 1) && v == RefAt(rest, a)
    requires rest' == if v.Some? then rest[..a] + rest[a + 1..] else rest
    ensures v == RefAt(items, lo) && rest' == CutOut(items, a, lo)
  {
    if lo < |items| {
      assert rest[a] == items[lo];
      assert rest[..a] == items[..a];
      assert rest[a + 1..] == items[lo + 1..];
    } else {
      assert rest == items[..Min(a, |items|)];
    }
  }

  /** For a start at or after the first item, LPOP takes a slice out of the list. */
  lemma PopTakesSlice(items: seq<string>, a: int, b: int)
    requires 0 <= a <= b
    ensures var lo, hi := Min(a, |items|), Min(b + 1, |items|);
            items == PopLeaves(items, a, b)[..lo] + items[lo..hi] + PopLeaves(items, a, b)[lo..]
  {
    var lo, hi := Min(a, |items|), Min(b + 1, |items|);
    var left := PopLeaves(items, a, b);
    assert left[..lo] == items[..lo] && left[lo..] == items[hi..];
  }

  /** And that slice is its reply, padded with nil. */
  lemma PopRepliesSlice(items: seq<string>, a: int, b: int, k: nat)
    requires 0 <= a <= b && k <= b - a
    ensures var lo, hi := Min(a, |items|), Min(b + 1, |items|);
            PopLines(items, a, b)[k] == if k < hi - lo then Data(items[lo..hi][k]) else Nil
  {
  }

  /** LPOP and LREF reply alike exactly when the range does not start before a list it reaches into. */
  lemma PopLikeRefIff(items: seq<string>, a: int, b: int)
    requires a <= b
    ensures PopLines(items, a, b) == RefLines(items, a, b) <==> a >= 0 || b < 0 || items == []
  {
    var p, r := PopLines(items, a, b), RefLines(items, a, b);
    if a < 0 && b >= 0 && items != [] {
      assert r[-a] == Data(items[0]) && p[-a] == Nil;
    } else if a < 0 {
      forall k | 0 <= k < |r|
        ensures r[k] == p[k]
      {
        assert RefAt(items, a + k) == None;
      }
    }
  }

  // ----- index texts

  /** A position, a range, a text the command rejects, or one it fails on. */
  datatype Index = At(i: int) | Span(a: int, b: int) | Rejected | Failing

  predicate Digits(s: string) {
    s != [] && forall i :: 0 <= i < |s| ==> '0' <= s[i] <= '9'
  }

  predicate Signed(s: string) {
    s != [] && (s[0] == '-' || s[0] == '+')
  }

  /** String#is_i?. */
  predicate IsInt(s: string) {
    Digits(if Signed(s) then s[1..] else s)
  }

  function Value10(s: string): nat
    requires s == [] || Digits(s)
  {
    if s == [] then 0 else 10 * Value10(s[..|s| - 1]) + (s[|s| - 1] as int - '0' as int)
  }

  function ToInt(s: string): int
    requires IsInt(s)
  {
    if Signed(s) then (if s[0] == '-' then 0 - Value10(s[1..]) else Value10(s[1..])) else Value10(s)
  }

  /** String#split('..'), with the empty pieces at the end dropped. */
  function DotPieces(s: string, from: nat): (r: seq<string>)
    requires from <= |s|
    ensures |r| > 0
    decreases |s| - from, |s|
  {
    if from + 2 > |s| then [s]
    else if s[from] == '.' && s[from + 1] == '.' then [s[..from]] + DotPieces(s[from + 2..], 0)
    else DotPieces(s, from + 1)
  }

  function DropEmpty(ps: seq<string>): seq<string> {
    if ps != [] && ps[|ps| - 1] == [] then DropEmpty(ps[..|ps| - 1]) else ps
  }

  function ParseIndex(s: string): Index {
    if IsInt(s) then At(ToInt(s))
    else
      var ps := DropEmpty(DotPieces(s, 0));
      if ps == [] then Failing
      else if !IsInt(ps[0]) then Rejected
      else if |ps| == 1 then Failing
      else if IsInt(ps[1]) then Span(ToInt(ps[0]), ToInt(ps[1]))
      else Rejected
  }

  // ----- the commands

  datatype Command =
    | Get(key: string)
    | Set(key: string, data: string)
    | Delete(key: string)
    | MAdd(key: string, hkey: string, data: string)
    | MRef(key: string, hkeys: seq<string>)
    | MDel(key: string, hkeys: seq<string>)
    | MClear(key: string)
    | MSize(key: string)
    | SAdd(key: string, skeys: seq<string>)
    | SDel(key: string, skeys: seq<string>)
    | SInclude(key: string, skeys: seq<string>)
    | SClear(key: string)
    | LPush(key: string, data: string)
    | LPop(key: string, idx: string)
    | LRef(key: string, idx: string)
    | LSet(key: string, idx: string, data: string)
    | LSize(key: string)
    | LClear(key: string)

  /** What a command tells the key set of its node. */
  datatype Note = Added | Removed | Kept

  datatype Effect = Effect(value: Option<Value>, reply: Reply, note: Note)

  function Said(v: Option<Value>, a: Answer): Effect {
    Effect(v, Lines([a]), Kept)
  }

  /** Arguments that are refused before the command looks for its key. */
  predicate Malformed(c: Command) {
    match c
    case SAdd(_, skeys) => skeys == []
    case SDel(_, skeys) => skeys == []
    case SInclude(_, skeys) => skeys == []
    case LSet(_, idx, _) => !IsInt(idx)
    case _ => false
  }

  /** What a command does to the value of its key. */
  function Exec(c: Command, v: Option<Value>): Effect {
    if Malformed(c) then Said(v, Complaint("Syntax error"))
    else
      match c
      case Get(_) =>
        if v.None? then Said(v, Nil)
        else if v.value.Str? then Said(v, Data(v.value.text))
        else Effect(v, Raised, Kept)
      case Set(_, data) => Effect(Some(Str(data)), Lines([Ok]), Added)
      case Delete(_) => Effect(None, Lines([Ok]), Removed)
      case MAdd(_, hkey, data) => Effect(Some(Hashmap(FieldsOf(v)[hkey := data])), Lines([Ok]), Added)
      case MRef(_, hkeys) =>
        if !IsHashmap(v) then Said(v, Nil) else Effect(v, Lines(FieldLines(v.value.fields, hkeys)), Kept)
      case MDel(_, hkeys) =>
        if !IsHashmap(v) then Said(v, Nil)
        else
          var fields := v.value.fields;
          var n, left := Number(|Elements(hkeys) * fields.Keys|), fields - Elements(hkeys);
          if left == map[] then Effect(None, Lines([n]), Removed) else Said(Some(Hashmap(left)), n)
      case MClear(_) => if IsHashmap(v) then Effect(None, Lines([Ok]), Removed) else Said(v, Nil)
      case MSize(_) => Said(v, if IsHashmap(v) then Number(|v.value.fields|) else Nil)
      case SAdd(_, skeys) =>
        var keys := MembersOf(v);
        Effect(Some(Members(keys + Elements(skeys))), Lines([Number(|Elements(skeys) - keys|)]), Added)
      case SDel(_, skeys) =>
        if !IsMembers(v) then Said(v, Nil)
        else
          var n, left := Number(|Elements(skeys) * v.value.keys|), v.value.keys - Elements(skeys);
          if left == {} then Effect(None, Lines([n]), Removed) else Said(Some(Members(left)), n)
      case SInclude(_, skeys) =>
        if !IsMembers(v) then Said(v, Nil) else Effect(v, Lines(MemberLines(v.value.keys, skeys)), Kept)
      case SClear(_) => if IsMembers(v) then Effect(None, Lines([Ok]), Removed) else Said(v, Nil)
      case LPush(_, data) => Effect(Some(List(ItemsOf(v) + [data])), Lines([Ok]), Added)
      case LPop(_, idx) => ExecPop(ParseIndex(idx), v)
      case LRef(_, idx) => ExecRef(ParseIndex(idx), v)
      case LSet(_, idx, data) =>
        if !IsList(v) then Said(v, Nil)
        else
          var items, i := v.value.items, ToInt(idx);
          Effect(Some(List(if 0 <= i < |items| then items[i := data] else items)), Lines([Ok]), Added)
      case LSize(_) => Said(v, if IsList(v) then Number(|v.value.items|) else Nil)
      case LClear(_) => if IsList(v) then Effect(None, Lines([Ok]), Removed) else Said(v, Nil)
  }

  predicate IsHashmap(v: Option<Value>) {
    v.Some? && v.value.Hashmap?
  }

  predicate IsMembers(v: Option<Value>) {
    v.Some? && v.value.Members?
  }

  predicate IsList(v: Option<Value>) {
    v.Some? && v.value.List?
  }

  /** A new container takes the place of a missing one or of one of another type. */
  function FieldsOf(v: Option<Value>): map<string, string> {
    if IsHashmap(v) then v.value.fields else map[]
  }

  function MembersOf(v: Option<Value>): set<string> {
    if IsMembers(v) then v.value.keys else {}
  }

  function ItemsOf(v: Option<Value>): seq<string> {
    if IsList(v) then v.value.items else []
  }

  function FieldLines(fields: map<string, string>, hkeys: seq<string>): seq<Answer> {
    seq(|hkeys|, i requires 0 <= i < |hkeys| => if hkeys[i] in fields then Data(fields[hkeys[i]]) else Nil)
  }

  function MemberLines(keys: set<string>, skeys: seq<string>): seq<Answer> {
    seq(|skeys|, i requires 0 <= i < |skeys| => Flag(skeys[i] in keys))
  }

  /** A list that has become empty is deleted. */
  function LeftOver(items: seq<string>, answers: seq<Answer>): Effect {
    if items == [] then Effect(None, Lines(answers), Removed) else Effect(Some(List(items)), Lines(answers), Kept)
  }

  function ExecPop(index: Index, v: Option<Value>): Effect {
    match index
    case Failing => Effect(v, Raised, Kept)
    case Rejected => Said(v, Complaint("range invalid"))
    case At(i) =>
      if !IsList(v) then Said(v, Nil)
      else
        var items := v.value.items;
        if 0 <= i < |items| then LeftOver(items[..i] + items[i + 1..], [Data(items[i])]) else Effect(v, Raised, Kept)
    case Span(a, b) =>
      if !IsList(v) then Said(v, Nil)
      else
        var items := v.value.items;
        var lo, hi := Normal(a, |items|), Normal(b, |items|);
        if lo > hi then Said(v, Complaint("range invalid"))
        else LeftOver(PopLeaves(items, lo, hi), PopLines(items, lo, hi))
  }

  function ExecRef(index: Index, v: Option<Value>): Effect {
    match index
    case Failing => Effect(v, Raised, Kept)
    case Rejected => Said(v, Complaint("range invalid"))
    case At(i) =>
      if !IsList(v) then Said(v, Nil)
      else
        var items := v.value.items;
        if 0 <= i < |items| then Said(v, Data(items[i])) else Effect(v, Raised, Kept)
    case Span(a, b) =>
      if !IsList(v) then Said(v, Nil)
      else
        var items := v.value.items;
        var lo, hi := Normal(a, |items|), Normal(b, |items|);
        if lo > hi then Said(v, Complaint("range invalid")) else Effect(v, Lines(RefLines(items, lo, hi)), Kept)
  }

  // ----- what every command keeps

  /** No key holds an empty container. */
  predicate Solid(v: Option<Value>) {
    v.None? || !Vacant(v)
  }

  /** No command leaves an empty container. */
  lemma ExecKeepsSolid(c: Command, v: Option<Value>)
    requires Solid(v)
    ensures Solid(Exec(c, v).value)
  {
    if Malformed(c) {
    } else if c.SAdd? || c.MAdd? || c.LPush? {
      AddKeepsSolid(c, v);
    } else if c.LSet? {
      SetKeepsSolid(c, v);
    } else if c.LPop? {
      PopKeepsSolid(ParseIndex(c.idx), v);
    }
  }

  lemma AddKeepsSolid(c: Command, v: Option<Value>)
    requires (c.SAdd? || c.MAdd? || c.LPush?) && !Malformed(c)
    ensures Solid(Exec(c, v).value)
  {
    if c.SAdd? {
      assert c.skeys[0] in MembersOf(v) + Elements(c.skeys);
    } else if c.MAdd? {
      assert c.hkey in FieldsOf(v)[c.hkey := c.data];
    } else {
      assert |ItemsOf(v) + [c.data]| > 0;
    }
  }

  lemma SetKeepsSolid(c: Command, v: Option<Value>)
    requires Solid(v) && c.LSet? && !Malformed(c)
    ensures Solid(Exec(c, v).value)
  {
    if IsList(v) {
      var items, i := v.value.items, ToInt(c.idx);
      var items' := if 0 <= i < |items| then items[i := c.data] else items;
      assert |items'| == |items|;
    }
  }

  lemma PopKeepsSolid(index: Index, v: Option<Value>)
    requires Solid(v)
    ensures Solid(ExecPop(index, v).value)
  {
  }

  function Noted(present: bool, note: Note): bool {
    match note
    case Added => true
    case Removed => false
    case Kept => present
  }

  /** The key set follows the database: after every command the key is in it exactly if it has a value. */
  lemma ExecNotes(c: Command, v: Option<Value>)
    ensures Noted(v.Some?, Exec(c, v).note) == Exec(c, v).value.Some?
  {
    if !Malformed(c) {
      match c {
        case LPop(_, idx) => PopNotes(ParseIndex(idx), v);
        case LRef(_, idx) => RefNotes(ParseIndex(idx), v);
        case _ => OtherNotes(c, v);
      }
    }
  }

  lemma PopNotes(index: Index, v: Option<Value>)
    ensures Noted(v.Some?, ExecPop(index, v).note) == ExecPop(index, v).value.Some?
  {
  }

  lemma RefNotes(index: Index, v: Option<Value>)
    ensures ExecRef(index, v).note == Kept && ExecRef(index, v).value == v
  {
  }

  lemma OtherNotes(c: Command, v: Option<Value>)
    requires !c.LPop? && !c.LRef?
    ensures Noted(v.Some?, Exec(c, v).note) == Exec(c, v).value.Some?
  {
  }

  /** LPOP on a range replies what LREF replies on the same list, for a start that is not before the list. */
  lemma PopRepliesLikeRef(key: string, idx: string, v: Option<Value>)
    requires match ParseIndex(idx) case Span(a, b) => IsList(v) ==> Normal(a, |v.value.items|) >= 0 case _ => true
    ensures Exec(LPop(key, idx), v).reply == Exec(LRef(key, idx), v).reply
    ensures Exec(LRef(key, idx), v).value == v
  {
  }

  // ----- the counting loops

  lemma CountCommon(done: set<string>, keys: set<string>, k: string)
    ensures |(done + {k}) * keys| == |done * keys| + if k in keys && k !in done then 1 else 0
  {
    if k in keys && k !in done {
      assert (done + {k}) * keys == done * keys + {k};
    } else {
      assert (done + {k}) * keys == done * keys;
    }
  }

  lemma CountNew(done: set<string>, keys: set<string>, k: string)
    ensures |(done + {k}) - keys| == |done - keys| + if k in keys + done then 0 else 1
  {
    if k in keys + done {
      assert (done + {k}) - keys == done - keys;
    } else {
      assert (done + {k}) - keys == (done - keys) + {k};
    }
  }

  lemma MinusOne(fields: map<string, string>, done: set<string>, k: string)
    ensures (fields - done) - {k} == fields - (done + {k})
  {
  }

  /** MDEL: the number of fields deleted, and the fields left. */
  method DeleteFields(fields: map<string, string>, hkeys: seq<string>) returns (n: nat, left: map<string, string>)
    ensures n == |Elements(hkeys) * fields.Keys| && left == fields - Elements(hkeys)
  {
    n, left := 0, fields;
    ghost var done: set<string>, keys := {}, fields.Keys;
    for i := 0 to |hkeys|
      invariant done == Elements(hkeys[..i]) && n == |done * keys| && left == fields - done
    {
      ElementsSnoc(hkeys, i);
      CountCommon(done, keys, hkeys[i]);
      MinusOne(fields, done, hkeys[i]);
      if hkeys[i] in left {
        n := n + 1;
      }
      left, done := left - {hkeys[i]}, done + {hkeys[i]};
    }
    assert hkeys[..|hkeys|] == hkeys;
  }

  /** SADD: the number of keys added, and the new set. */
  method AddMembers(keys: set<string>, skeys: seq<string>) returns (n: nat, all: set<string>)
    ensures n == |Elements(skeys) - keys| && all == keys + Elements(skeys)
  {
    n, all := 0, keys;
    ghost var done: set<string> := {};
    for i := 0 to |skeys|
      invariant done == Elements(skeys[..i]) && n == |done - keys| && all == keys + done
    {
      ElementsSnoc(skeys, i);
      CountNew(done, keys, skeys[i]);
      if skeys[i] !in all {
        n := n + 1;
      }
      all, done := all + {skeys[i]}, done + {skeys[i]};
    }
    assert skeys[..|skeys|] == skeys;
  }

  /** SDEL: the number of keys removed, and the keys left. */
  method RemoveMembers(keys: set<string>, skeys: seq<string>) returns (n: nat, left: set<string>)
    ensures n == |Elements(skeys) * keys| && left == keys - Elements(skeys)
  {
    n, left := 0, keys;
    ghost var done: set<string> := {};
    for i := 0 to |skeys|
      invariant done == Elements(skeys[..i]) && n == |done * keys| && left == keys - done
    {
      ElementsSnoc(skeys, i);
      CountCommon(done, keys, skeys[i]);
      if skeys[i] in left {
        n := n + 1;
      }
      left, done := left - {skeys[i]}, done + {skeys[i]};
    }
    assert skeys[..|skeys|] == skeys;
  }
}
