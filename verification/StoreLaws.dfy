/** What one command writes, another reads: the storage commands against each other. */
module StoreLaws {
  import opened Options
  import opened Rows
  import opened Sequences
  import opened Store
  import opened IndexTexts

  /** The value a command leaves, and its reply. */
  function After(c: Command, v: Option<Value>): Option<Value> {
    Exec(c, v).value
  }

  function Says(c: Command, v: Option<Value>): Reply {
    Exec(c, v).reply
  }

  function Answers(r: Reply): seq<Answer> {
    if r.Lines? then r.answers else []
  }

  /** The number of fields and members a reply tells. */
  function Told(r: Reply): int {
    if r.Lines? && |r.answers| == 1 && r.answers[0].Number? then r.answers[0].n else -1
  }

  lemma SplitCount(all: set<string>, part: set<string>)
    ensures |all| == |part * all| + |all - part|
  {
    assert all == (part * all) + (all - part);
  }

  lemma KeysAfterDelete(fields: map<string, string>, ks: set<string>)
    ensures |fields| == |ks * fields.Keys| + |fields - ks|
  {
    SplitCount(fields.Keys, ks);
    var left := fields - ks;
    assert left.Keys == fields.Keys - ks;
    assert |left| == |left.Keys| && |fields| == |fields.Keys|;
  }

  /** MDEL tells how many fields went, and MSIZE how many stay; the key goes with its last field. */
  lemma MDelMSize(key: string, hkeys: seq<string>, v: Option<Value>)
    requires IsHashmap(v)
    ensures var v' := After(MDel(key, hkeys), v); var n := Told(Says(MDel(key, hkeys), v));
            && n >= 0 && n + (if v'.Some? then Told(Says(MSize(key), v')) else 0) == Told(Says(MSize(key), v))
            && (v'.None? <==> n == |v.value.fields|)
  {
    KeysAfterDelete(v.value.fields, Elements(hkeys));
    var left := v.value.fields - Elements(hkeys);
    assert left == map[] <==> |left| == 0;
  }

  lemma LeftField(fields: map<string, string>, hkeys: seq<string>, h: string)
    ensures var left := fields - Elements(hkeys);
            && (h in left <==> h in fields && h !in hkeys) && (h in left ==> left[h] == fields[h])
            && (left == map[] ==> h !in left)
  {
  }

  lemma OneFieldLine(key: string, h: string, v: Option<Value>)
    ensures Says(MRef(key, [h]), v)
         == Lines([if IsHashmap(v) && h in v.value.fields then Data(v.value.fields[h]) else Nil])
  {
  }

  /** MDEL takes exactly the fields named. */
  lemma MDelMRef(key: string, hkeys: seq<string>, h: string, v: Option<Value>)
    requires IsHashmap(v)
    ensures Says(MRef(key, [h]), After(MDel(key, hkeys), v))
         == if h in hkeys then Lines([Nil]) else Says(MRef(key, [h]), v)
  {
    var left := v.value.fields - Elements(hkeys);
    LeftField(v.value.fields, hkeys, h);
    OneFieldLine(key, h, v);
    OneFieldLine(key, h, if left == map[] then None else Some(Hashmap(left)));
  }

  /** SDEL takes out exactly the members named and tells how many there were. */
  lemma SDelSInclude(key: string, skeys: seq<string>, k: string, v: Option<Value>)
    requires skeys != [] && IsMembers(v)
    ensures Says(SInclude(key, [k]), After(SDel(key, skeys), v))
         == if After(SDel(key, skeys), v).None? then Lines([Nil])
            else Lines([Flag(k in v.value.keys && k !in skeys)])
    ensures Told(Says(SDel(key, skeys), v)) == |v.value.keys| - |MembersOf(After(SDel(key, skeys), v))|
    ensures After(SDel(key, skeys), v).None? <==> forall m :: m in v.value.keys ==> m in skeys
  {
    var keys := v.value.keys;
    SplitCount(keys, Elements(skeys));
    assert forall m :: m in Elements(skeys) <==> m in skeys;
    var left := keys - Elements(skeys);
    assert forall m :: m in keys ==> (m in left <==> m !in skeys);
  }

  /** SADD adds exactly the members named, to those there, and tells how many are new; a value of another type is replaced. */
  lemma SAddSInclude(key: string, skeys: seq<string>, k: string, v: Option<Value>)
    requires skeys != []
    ensures Says(SInclude(key, [k]), After(SAdd(key, skeys), v)) == Lines([Flag(k in skeys || k in MembersOf(v))])
    ensures Told(Says(SAdd(key, skeys), v)) == |MembersOf(After(SAdd(key, skeys), v))| - |MembersOf(v)|
  {
    var keys := MembersOf(v);
    assert keys + Elements(skeys) == keys + (Elements(skeys) - keys);
    assert k in Elements(skeys) <==> k in skeys;
  }

  // ----- what every command keeps

  predicate IsRead(c: Command) {
    c.Get? || c.MRef? || c.MSize? || c.SInclude? || c.LRef? || c.LSize?
  }

  /** The commands that only read change nothing, and tell the key set nothing. */
  lemma ReadsKeep(c: Command, v: Option<Value>)
    requires IsRead(c)
    ensures After(c, v) == v && Exec(c, v).note == Kept
  {
    if c.LRef? {
      RefNotes(ParseIndex(c.idx), v);
    }
  }

  predicate Fails(r: Reply) {
    r.Raised? || exists i :: 0 <= i < |r.answers| && r.answers[i].Complaint?
  }

  lemma PopErrorsKeep(index: Index, v: Option<Value>)
    requires Fails(ExecPop(index, v).reply)
    ensures ExecPop(index, v).value == v
  {
  }

  /** A command that raises or complains has changed nothing. */
  lemma ErrorsKeep(c: Command, v: Option<Value>)
    requires Fails(Says(c, v))
    ensures After(c, v) == v
  {
    if !Malformed(c) && c.LPop? {
      PopErrorsKeep(ParseIndex(c.idx), v);
    } else if IsRead(c) {
      ReadsKeep(c, v);
    }
  }

  /** The commands of containers, and the type of value each is for. */
  predicate ForContainers(c: Command) {
    !c.Get? && !c.Set? && !c.Delete?
  }

  predicate OfType(c: Command, v: Option<Value>)
    requires ForContainers(c)
  {
    match c
    case MAdd(_, _, _) => IsHashmap(v)
    case MRef(_, _) => IsHashmap(v)
    case MDel(_, _) => IsHashmap(v)
    case MClear(_) => IsHashmap(v)
    case MSize(_) => IsHashmap(v)
    case SAdd(_, _) => IsMembers(v)
    case SDel(_, _) => IsMembers(v)
    case SInclude(_, _) => IsMembers(v)
    case SClear(_) => IsMembers(v)
    case _ => IsList(v)
  }

  /** A value of another type is to a command of containers as if it were missing; only what is added replaces it. */
  lemma OtherTypeIsMissing(c: Command, v: Option<Value>)
    requires ForContainers(c) && !OfType(c, v)
    ensures Says(c, v) == Says(c, None)
    ensures After(c, v) == if After(c, None).Some? then After(c, None) else v
  {
    if c.LRef? || c.LPop? {
      NoListIsMissing(ParseIndex(c.idx), v);
    }
  }

  lemma NoListIsMissing(index: Index, v: Option<Value>)
    requires !IsList(v)
    ensures ExecRef(index, v).reply == ExecRef(index, None).reply && ExecRef(index, v).value == v
    ensures ExecPop(index, v).reply == ExecPop(index, None).reply && ExecPop(index, v).value == v
    ensures ExecRef(index, None).value.None? && ExecPop(index, None).value.None?
  {
  }

  /** The command has the arguments it wants: names for a set, a number for LSET, an index or range for LREF and LPOP. */
  predicate WellFormed(c: Command) {
    match c
    case LPop(_, idx) => ParseIndex(idx).At? || ParseIndex(idx).Span?
    case LRef(_, idx) => ParseIndex(idx).At? || ParseIndex(idx).Span?
    case LSet(_, idx, _) => IsInt(idx)
    case SAdd(_, skeys) => skeys != []
    case SDel(_, skeys) => skeys != []
    case SInclude(_, skeys) => skeys != []
    case _ => true
  }

  /** On a missing key every command that adds nothing says nil. */
  lemma MissingSaysNil(c: Command)
    requires WellFormed(c) && !c.Delete? && After(c, None).None?
    ensures Says(c, None) == Lines([Nil])
  {
    if c.LPop? || c.LRef? {
      MissingIndex(ParseIndex(c.idx));
    }
  }

  lemma MissingIndex(index: Index)
    requires index.At? || index.Span?
    ensures ExecPop(index, None).reply == ExecRef(index, None).reply == Lines([Nil])
  {
  }

  lemma MalformedFails(c: Command, v: Option<Value>)
    requires Malformed(c)
    ensures Fails(Says(c, v))
  {
    assert Says(c, v).answers[0].Complaint?;
  }

  /** Without names to work on the commands of sets complain, and so does LSET at what is no number. */
  lemma WantsArguments(key: string, idx: string, data: string, v: Option<Value>)
    ensures forall c :: c in [SAdd(key, []), SDel(key, []), SInclude(key, [])] ==> Fails(Says(c, v))
    ensures !IsInt(idx) ==> Fails(Says(LSet(key, idx, data), v))
  {
    MalformedFails(SAdd(key, []), v);
    MalformedFails(SDel(key, []), v);
    MalformedFails(SInclude(key, []), v);
    if !IsInt(idx) {
      MalformedFails(LSet(key, idx, data), v);
    }
  }

  // ----- strings, and clearing

  /** GET reads what SET wrote over any value, nil where there is none, and fails on a container. */
  lemma SetGet(key: string, data: string, v: Option<Value>)
    ensures Says(Set(key, data), v) == Lines([Ok]) && Says(Get(key), After(Set(key, data), v)) == Lines([Data(data)])
    ensures After(Set(key, data), v) == Some(Str(data))
    ensures Says(Get(key), None) == Lines([Nil])
    ensures v.Some? && !v.value.Str? ==> Says(Get(key), v) == Raised
  {
  }

  /** The command that clears a container of this type. */
  function Clearing(key: string, v: Value): Command {
    match v
    case Str(_) => Delete(key)
    case Hashmap(_) => MClear(key)
    case Members(_) => SClear(key)
    case List(_) => LClear(key)
  }

  /** DELETE forgets any value, and each clear those of its type only. */
  lemma ClearForgets(key: string, v: Value, w: Value)
    ensures After(Delete(key), Some(v)) == None && Says(Delete(key), Some(v)) == Lines([Ok])
    ensures After(Delete(key), None) == None && Says(Delete(key), None) == Lines([Ok])
    ensures var c := Clearing(key, w);
            After(c, Some(v)).None? <==> c.Delete? || Clearing(key, v) == c
    ensures var c := Clearing(key, w);
            if After(c, Some(v)).None? then Says(c, Some(v)) == Lines([Ok])
            else After(c, Some(v)) == Some(v) && Says(c, Some(v)) == Lines([Nil])
  {
  }

  // ----- hashmaps and sets

  /** MREF reads the field MADD wrote, and every other as before; a value of another type is gone. */
  lemma MAddMRef(key: string, hkey: string, data: string, h: string, v: Option<Value>)
    ensures Says(MAdd(key, hkey, data), v) == Lines([Ok])
    ensures var told := Says(MRef(key, [h]), After(MAdd(key, hkey, data), v));
            if h == hkey then told == Lines([Data(data)])
            else if IsHashmap(v) then told == Says(MRef(key, [h]), v)
            else told == Lines([Nil])
  {
    OneFieldLine(key, h, v);
    OneFieldLine(key, h, After(MAdd(key, hkey, data), v));
  }

  /** MREF and SINCLUDE of several names answer for one after the other. */
  lemma NamesJoin(key: string, hs: seq<string>, ks: seq<string>, v: Option<Value>)
    ensures IsHashmap(v) ==>
      Answers(Says(MRef(key, hs + ks), v)) == Answers(Says(MRef(key, hs), v)) + Answers(Says(MRef(key, ks), v))
    ensures IsMembers(v) && hs != [] && ks != [] ==>
      Answers(Says(SInclude(key, hs + ks), v)) == Answers(Says(SInclude(key, hs), v)) + Answers(Says(SInclude(key, ks), v))
    ensures IsHashmap(v) ==> Says(MRef(key, []), v) == Lines([])
  {
    if IsHashmap(v) {
      var f := v.value.fields;
      assert FieldLines(f, hs + ks) == FieldLines(f, hs) + FieldLines(f, ks);
    } else if IsMembers(v) {
      var m := v.value.keys;
      assert MemberLines(m, hs + ks) == MemberLines(m, hs) + MemberLines(m, ks);
    }
  }

  lemma {:induction false} DistinctCount(hs: seq<string>)
    requires Distinct(hs)
    ensures |Elements(hs)| == |hs|
  {
    if hs != [] {
      var n := |hs| - 1;
      DistinctCount(hs[..n]);
      ElementsSnoc(hs, n);
      assert hs[..n + 1] == hs && hs[n] !in Elements(hs[..n]);
    }
  }

  /** MSIZE tells how many names MREF has data for. */
  lemma MSizeCounts(key: string, hs: seq<string>, v: Option<Value>)
    requires IsHashmap(v) && Distinct(hs)
    requires forall h :: h in hs <==> Says(MRef(key, [h]), v) != Lines([Nil])
    ensures Told(Says(MSize(key), v)) == |hs|
  {
    forall h
      ensures h in Elements(hs) <==> h in v.value.fields
    {
      OneFieldLine(key, h, v);
    }
    assert Elements(hs) == v.value.fields.Keys;
    DistinctCount(hs);
  }

  // ----- lists

  /** The value after items have been pushed one after the other. */
  function PushAll(key: string, ds: seq<string>, v: Option<Value>): Option<Value> {
    if ds == [] then v else After(LPush(key, ds[|ds| - 1]), PushAll(key, ds[..|ds| - 1], v))
  }

  lemma {:induction false} PushedList(key: string, ds: seq<string>, v: Option<Value>)
    requires ds != []
    ensures PushAll(key, ds, v) == Some(List(ItemsOf(v) + ds))
    decreases |ds|
  {
    var n := |ds| - 1;
    if n > 0 {
      PushedList(key, ds[..n], v);
      assert ItemsOf(v) + ds == (ItemsOf(v) + ds[..n]) + [ds[n]];
    } else {
      assert ds == [ds[0]];
    }
  }

  function AllData(ds: seq<string>): (r: seq<Answer>)
    ensures |r| == |ds| && forall i :: 0 <= i < |r| ==> r[i] == Data(ds[i])
  {
    seq(|ds|, i requires 0 <= i < |ds| => Data(ds[i]))
  }

  lemma IndexedIs(key: string, idx: string, v: Option<Value>, index: Index)
    requires ParseIndex(idx) == index
    ensures Exec(LRef(key, idx), v) == ExecRef(index, v) && Exec(LPop(key, idx), v) == ExecPop(index, v)
  {
  }

  lemma ListIsRead(key: string, ds: seq<string>, idx: string, i: int, all: string)
    requires ds != [] && ParseIndex(idx) == At(i) && ParseIndex(all) == Span(0, -1)
    ensures var v := Some(List(ds));
            && Says(LRef(key, idx), v) == (if 0 <= i < |ds| then Lines([Data(ds[i])]) else Raised)
            && Says(LRef(key, all), v) == Lines(AllData(ds)) && Says(LSize(key), v) == Lines([Number(|ds|)])
  {
    IndexedIs(key, idx, Some(List(ds)), At(i));
    IndexedIs(key, all, Some(List(ds)), Span(0, -1));
    WholeList(ds);
  }

  /** What was pushed is read: each item at its index, all of them in order by 0..-1, and how many there are. */
  lemma PushedIsRead(key: string, ds: seq<string>, idx: string, i: int, all: string, v: Option<Value>)
    requires ds != [] && ParseIndex(idx) == At(i) && ParseIndex(all) == Span(0, -1) && v == PushAll(key, ds, None)
    ensures Says(LRef(key, idx), v) == (if 0 <= i < |ds| then Lines([Data(ds[i])]) else Raised)
    ensures Says(LRef(key, all), v) == Lines(AllData(ds)) && Says(LSize(key), v) == Lines([Number(|ds|)])
  {
    PushedToNone(key, ds, v);
    ListIsRead(key, ds, idx, i, all);
  }

  lemma PushedToNone(key: string, ds: seq<string>, v: Option<Value>)
    requires ds != [] && v == PushAll(key, ds, None)
    ensures v == Some(List(ds))
  {
    PushedList(key, ds, None);
    assert [] + ds == ds;
  }

  lemma WholeList(ds: seq<string>)
    requires ds != []
    ensures ExecRef(Span(0, -1), Some(List(ds))).reply == Lines(AllData(ds))
  {
    assert RefLines(ds, 0, |ds| - 1) == AllData(ds);
  }

  /** LPUSH says OK, over any value. */
  lemma LPushSays(key: string, data: string, v: Option<Value>)
    ensures Says(LPush(key, data), v) == Lines([Ok]) && After(LPush(key, data), v) == PushAll(key, [data], v)
  {
    assert [data][..0] == [];
  }

  /** LSET writes at its index, if there is an item, and LREF reads every other as before. */
  lemma LSetLRef(key: string, idx: string, data: string, at: string, v: Option<Value>)
    requires IsList(v) && IsInt(idx) && IsInt(at)
    ensures Says(LSet(key, idx, data), v) == Lines([Ok])
    ensures Says(LRef(key, at), After(LSet(key, idx, data), v))
         == if ToInt(at) == ToInt(idx) && 0 <= ToInt(idx) < |v.value.items| then Lines([Data(data)])
            else Says(LRef(key, at), v)
    ensures Says(LSize(key), After(LSet(key, idx, data), v)) == Says(LSize(key), v)
  {
  }

  /** LPOP at an index takes that item out and says it, and the items after it move up; there is none to take elsewhere. */
  lemma LPopTakesOne(key: string, idx: string, i: int, k: int, v: Option<Value>)
    requires IsList(v) && ParseIndex(idx) == At(i)
    ensures var items, c := v.value.items, LPop(key, idx);
            if 0 <= i < |items| then
              && Says(c, v) == Lines([Data(items[i])])
              && RefAt(ItemsOf(After(c, v)), k) == RefAt(items, if k < i then k else k + 1)
              && (After(c, v).None? <==> |items| == 1)
            else Says(c, v) == Raised && After(c, v) == v
  {
    IndexedIs(key, idx, v, At(i));
    var items := v.value.items;
    if 0 <= i < |items| {
      var left := items[..i] + items[i + 1..];
      assert |left| == |items| - 1;
    }
  }

  /** What LPOP of a range leaves, position by position. */
  lemma CutOutAt(items: seq<string>, a: nat, b: nat, k: int)
    requires a <= b
    ensures var left := PopLeaves(items, a, b);
            && RefAt(left, k) == RefAt(items, if k < a then k else k + (b - a + 1))
            && (left == [] <==> items == [] || (a == 0 && |items| <= b + 1))
  {
    var left := PopLeaves(items, a, b);
    var lo, hi := Min(a, |items|), Min(b + 1, |items|);
    assert |left| == lo + (|items| - hi);
  }

  /** LPOP of a range takes its items out and says what LREF says of it; the key goes if none are left. */
  lemma LPopTakesRange(key: string, idx: string, a: nat, b: nat, k: int, v: Option<Value>)
    requires IsList(v) && a <= b && ParseIndex(idx) == Span(a, b)
    ensures var items, v' := v.value.items, After(LPop(key, idx), v);
            && Says(LPop(key, idx), v) == Says(LRef(key, idx), v)
            && RefAt(ItemsOf(v'), k) == RefAt(items, if k < a then k else k + (b - a + 1))
            && (v'.None? <==> items == [] || (a == 0 && |items| <= b + 1))
  {
    IndexedIs(key, idx, v, Span(a, b));
    CutOutAt(v.value.items, a, b, k);
  }

  /** A negative bound counts from the end of the list. */
  lemma NegativeBounds(key: string, idx: string, idx': string, a: int, b: int, v: Option<Value>)
    requires IsList(v) && -|v.value.items| <= a && -|v.value.items| <= b && ParseIndex(idx) == Span(a, b)
    requires var n := |v.value.items|; ParseIndex(idx') == Span(if a < 0 then a + n else a, if b < 0 then b + n else b)
    ensures Exec(LRef(key, idx), v) == Exec(LRef(key, idx'), v) && Exec(LPop(key, idx), v) == Exec(LPop(key, idx'), v)
  {
    var n := |v.value.items|;
    IndexedIs(key, idx, v, Span(a, b));
    IndexedIs(key, idx', v, Span(if a < 0 then a + n else a, if b < 0 then b + n else b));
  }

  lemma RefLinesJoin(items: seq<string>, a: nat, b: nat)
    ensures a < b ==> RefLines(items, a, b) == RefLines(items, a, b - 1) + RefLines(items, b, b)
    ensures RefLines(items, a, a) == [if a < |items| then Data(items[a]) else Nil]
  {
  }

  /** LREF of a range says what it says of the range but its last position, and then the item there, or nil. */
  lemma LRefRangeJoins(key: string, idx: string, less: string, at: string, a: nat, b: nat, v: Option<Value>)
    requires IsList(v) && ParseIndex(idx) == Span(a, b) && ParseIndex(less) == Span(a, b - 1) && ParseIndex(at) == At(b)
    ensures var told, last := Says(LRef(key, idx), v), Says(LRef(key, at), v);
            if a > b then Fails(told)
            else
              Answers(told) == (if a == b then [] else Answers(Says(LRef(key, less), v)))
                             + (if last.Raised? then [Nil] else Answers(last))
  {
    IndexedIs(key, idx, v, Span(a, b));
    IndexedIs(key, at, v, At(b));
    if a > b {
      assert ExecRef(Span(a, b), v).reply.answers[0].Complaint?;
    } else {
      RefLinesJoin(v.value.items, a, b);
      RefLinesJoin(v.value.items, b, b);
      if a < b {
        IndexedIs(key, less, v, Span(a, b - 1));
      }
    }
  }
}
