/** Exactly which keys and values arrive at another node that is sent them part by part. */
module Arrival {
  import opened Options
  import opened Rows
  import opened Sequences
  import opened Store
  import opened Tokenizer
  import opened Queries
  import opened Wire
  import opened Sharding
  import opened Hearing

  // ----- the value of one key while commands come in

  /** The value of key k after the command, if one was read. */
  function Apply(v: Option<Value>, x: Option<Command>, k: string): Option<Value> {
    if x.Some? && x.value.key == k then Exec(x.value, v).value else v
  }

  function ApplyAll(v: Option<Value>, xs: seq<Option<Command>>, k: string): Option<Value> {
    if xs == [] then v else Apply(ApplyAll(v, xs[..|xs| - 1], k), xs[|xs| - 1], k)
  }

  lemma ApplyOne(v: Option<Value>, xs: seq<Option<Command>>, x: Option<Command>, k: string)
    ensures ApplyAll(v, xs + [x], k) == Apply(ApplyAll(v, xs, k), x, k)
  {
    assert (xs + [x])[..|xs|] == xs;
  }

  lemma {:induction false} ApplyBoth(v: Option<Value>, xs: seq<Option<Command>>, ys: seq<Option<Command>>, k: string)
    ensures ApplyAll(v, xs + ys, k) == ApplyAll(ApplyAll(v, xs, k), ys, k)
    decreases |ys|
  {
    if ys == [] {
      assert xs + ys == xs;
    } else {
      var init, y := ys[..|ys| - 1], ys[|ys| - 1];
      ApplyBoth(v, xs, init, k);
      ApplyOne(v, xs + init, y, k);
      assert xs + ys == (xs + init) + [y];
    }
  }

  /** The command does nothing to key k. */
  predicate Misses(x: Option<Command>, k: string) {
    x.None? || x.value.key != k || Malformed(x.value)
  }

  predicate AllMiss(xs: seq<Option<Command>>, k: string) {
    forall i :: 0 <= i < |xs| ==> Misses(xs[i], k)
  }

  lemma {:induction false} ApplyMisses(v: Option<Value>, xs: seq<Option<Command>>, k: string)
    requires AllMiss(xs, k)
    ensures ApplyAll(v, xs, k) == v
  {
    if xs != [] {
      ApplyMisses(v, xs[..|xs| - 1], k);
      assert Misses(xs[|xs| - 1], k);
    }
  }

  /** A key that only gets items has the list of them. */
  lemma {:induction false} ApplyPushes(xs: seq<Option<Command>>, key: string, ds: seq<string>)
    requires |xs| == |ds| && forall i :: 0 <= i < |ds| ==> xs[i] == Some(LPush(key, ds[i]))
    ensures ApplyAll(None, xs, key) == if ds == [] then None else Some(List(ds))
    decreases |ds|
  {
    if ds != [] {
      var n := |ds| - 1;
      ApplyPushes(xs[..n], key, ds[..n]);
      PushMore(ApplyAll(None, xs[..n], key), key, ds[..n], ds[n]);
      assert ds == ds[..n] + [ds[n]];
    }
  }

  lemma PushMore(v: Option<Value>, key: string, had: seq<string>, d: string)
    requires v == Some(List(had)) || (v == None && had == [])
    ensures Apply(v, Some(LPush(key, d)), key) == Some(List(had + [d]))
  {
  }

  function Union(ms: seq<seq<string>>): set<string> {
    if ms == [] then {} else Union(ms[..|ms| - 1]) + Elements(ms[|ms| - 1])
  }

  lemma {:induction false} InUnion(ms: seq<seq<string>>, x: string)
    ensures x in Union(ms) <==> exists i :: 0 <= i < |ms| && x in ms[i]
    decreases |ms|
  {
    if ms != [] {
      var init := ms[..|ms| - 1];
      InUnion(init, x);
      assert forall i :: 0 <= i < |init| ==> init[i] == ms[i];
    }
  }

  predicate AddsThese(x: Option<Command>, key: string, m: seq<string>) {
    m != [] && x == Some(SAdd(key, m))
  }

  /** A key that only gets members has the set of them. */
  lemma {:induction false} ApplyAdds(xs: seq<Option<Command>>, key: string, ms: seq<seq<string>>)
    requires |xs| == |ms| && forall i {:trigger AddsThese(xs[i], key, ms[i])} :: 0 <= i < |ms| ==> AddsThese(xs[i], key, ms[i])
    ensures ApplyAll(None, xs, key) == if ms == [] then None else Some(Members(Union(ms)))
    decreases |ms|
  {
    if ms != [] {
      var n := |ms| - 1;
      AddsThem(xs, key, ms, n);
      ApplyAdds(xs[..n], key, ms[..n]);
      ApplyOne(None, xs[..n], xs[n], key);
      UnionOne(ms[..n], ms[n]);
      AddsMore(ApplyAll(None, xs[..n], key), key, Union(ms[..n]), ms[n]);
    }
  }

  lemma AddsThem(xs: seq<Option<Command>>, key: string, ms: seq<seq<string>>, n: nat)
    requires |xs| == |ms| == n + 1
    requires forall i {:trigger AddsThese(xs[i], key, ms[i])} :: 0 <= i < |ms| ==> AddsThese(xs[i], key, ms[i])
    ensures forall i {:trigger AddsThese(xs[..n][i], key, ms[..n][i])} :: 0 <= i < n ==> AddsThese(xs[..n][i], key, ms[..n][i])
    ensures AddsThese(xs[n], key, ms[n]) && xs == xs[..n] + [xs[n]] && ms == ms[..n] + [ms[n]]
  {
    forall i | 0 <= i < n
      ensures AddsThese(xs[..n][i], key, ms[..n][i])
    {
      assert AddsThese(xs[i], key, ms[i]);
    }
  }

  lemma UnionOne(ms: seq<seq<string>>, m: seq<string>)
    ensures Union(ms + [m]) == Union(ms) + Elements(m) && (ms == [] ==> Union(ms) == {})
  {
    assert (ms + [m])[..|ms|] == ms;
  }

  lemma AddsMore(v: Option<Value>, key: string, had: set<string>, m: seq<string>)
    requires m != [] && (v == Some(Members(had)) || (v == None && had == {}))
    ensures Apply(v, Some(SAdd(key, m)), key) == Some(Members(had + Elements(m)))
  {
  }

  function Restrict(fields: map<string, string>, fs: seq<string>): map<string, string> {
    map f | f in fields && f in fs :: fields[f]
  }

  predicate AddsField(x: Option<Command>, key: string, f: string, fields: map<string, string>) {
    f in fields && x == Some(MAdd(key, f, fields[f]))
  }

  /** A key that only gets fields has the map of them. */
  lemma {:induction false} ApplyFields(xs: seq<Option<Command>>, key: string, fields: map<string, string>, fs: seq<string>)
    requires |xs| == |fs|
    requires forall i {:trigger AddsField(xs[i], key, fs[i], fields)} :: 0 <= i < |fs| ==> AddsField(xs[i], key, fs[i], fields)
    ensures ApplyAll(None, xs, key) == if fs == [] then None else Some(Hashmap(Restrict(fields, fs)))
    decreases |fs|
  {
    if fs != [] {
      var n := |fs| - 1;
      forall i | 0 <= i < n
        ensures AddsField(xs[..n][i], key, fs[..n][i], fields)
      {
        assert AddsField(xs[i], key, fs[i], fields);
      }
      ApplyFields(xs[..n], key, fields, fs[..n]);
      assert AddsField(xs[n], key, fs[n], fields);
      RestrictMore(fields, fs[..n], fs[n], fs);
    }
  }

  lemma RestrictMore(fields: map<string, string>, init: seq<string>, f: string, fs: seq<string>)
    requires fs == init + [f] && f in fields
    ensures Restrict(fields, fs) == Restrict(fields, init)[f := fields[f]]
    ensures init == [] ==> Restrict(fields, fs) == map[][f := fields[f]]
  {
  }

  /** Whatever the command does to key k, it adds a field of another name. */
  predicate OtherField(x: Option<Command>, k: string, f: string) {
    Misses(x, k) || (x.value.MAdd? && x.value.hkey != f)
  }

  lemma {:induction false} FieldNeverCame(xs: seq<Option<Command>>, k: string, f: string)
    requires forall i :: 0 <= i < |xs| ==> OtherField(xs[i], k, f)
    ensures var v := ApplyAll(None, xs, k); v.None? || (v.value.Hashmap? && f !in v.value.fields)
  {
    if xs != [] {
      FieldNeverCame(xs[..|xs| - 1], k, f);
      assert OtherField(xs[|xs| - 1], k, f);
    }
  }

  // ----- which texts are heard as they are

  function FirstHeard(d: string): string {
    HeardIff(d);
    Heard(d)[0]
  }

  function HeardItems(items: seq<string>): (r: seq<string>)
    ensures |r| == |items| && forall i :: 0 <= i < |items| ==> r[i] == FirstHeard(items[i])
  {
    seq(|items|, i requires 0 <= i < |items| => FirstHeard(items[i]))
  }

  predicate AllAlone(ds: seq<string>) {
    forall i :: 0 <= i < |ds| ==> Fine(ds[i], false)
  }

  lemma HeardItemsIff(items: seq<string>)
    ensures HeardItems(items) == items <==> AllAlone(items)
  {
    forall i | 0 <= i < |items|
      ensures HeardItems(items)[i] == items[i] <==> Fine(items[i], false)
    {
      HeardIff(items[i]);
    }
  }

  function HeardFields(fields: map<string, string>): map<string, string> {
    map f | f in fields :: FirstHeard(fields[f])
  }

  predicate FieldsAlone(fields: map<string, string>) {
    forall f :: f in fields ==> Fine(fields[f], false)
  }

  lemma HeardFieldsIff(fields: map<string, string>)
    ensures HeardFields(fields) == fields <==> FieldsAlone(fields)
  {
    forall f | f in fields
      ensures HeardFields(fields)[f] == fields[f] <==> Fine(fields[f], false)
    {
      HeardIff(fields[f]);
    }
  }

  function HeardMembers(ms: seq<string>): (r: seq<seq<string>>)
    ensures |r| == |ms| && forall i :: 0 <= i < |ms| ==> r[i] == Heard(ms[i])
  {
    seq(|ms|, i requires 0 <= i < |ms| => Heard(ms[i]))
  }

  lemma {:induction false} Longest(s: set<string>) returns (x: string)
    requires s != {}
    ensures x in s && forall y :: y in s ==> |y| <= |x|
    decreases |s|
  {
    x :| x in s;
    var rest := s - {x};
    if rest != {} {
      var y := Longest(rest);
      if |x| < |y| {
        x := y;
      }
    }
  }

  lemma HeardMembersIff(ms: seq<string>)
    ensures Union(HeardMembers(ms)) == Elements(ms) <==> AllAlone(ms)
  {
    if AllAlone(ms) {
      AllHeard(ms);
    } else {
      var m := LongestIsLost(ms);
      assert m in Elements(ms);
    }
  }

  lemma AllHeard(ms: seq<string>)
    requires AllAlone(ms)
    ensures Union(HeardMembers(ms)) == Elements(ms)
  {
    forall i | 0 <= i < |ms|
      ensures HeardMembers(ms)[i] == [ms[i]]
    {
      HeardIff(ms[i]);
    }
    forall x
      ensures x in Union(HeardMembers(ms)) <==> x in ms
    {
      InUnion(HeardMembers(ms), x);
    }
  }

  /** The longest of the members that are not fine is not among those heard. */
  lemma LongestIsLost(ms: seq<string>) returns (m: string)
    requires !AllAlone(ms)
    ensures m in ms && m !in Union(HeardMembers(ms))
  {
    var bad := set m | m in ms && !Fine(m, false);
    var i :| 0 <= i < |ms| && !Fine(ms[i], false);
    assert ms[i] in bad;
    m := Longest(bad);
    InUnion(HeardMembers(ms), m);
    forall j | 0 <= j < |ms|
      ensures m !in Heard(ms[j])
    {
      if Fine(ms[j], false) {
        HeardIff(ms[j]);
      } else {
        UnfineTokens(ms[j]);
        assert ms[j] in bad;
      }
    }
  }

  // ----- which values arrive

  /** One line, and of texts for which the trip is decided. */
  ghost predicate Decided(c: Command) {
    Tame(c) && SingleLine(c)
  }

  ghost predicate AllDecided(key: string, v: Value, walk: Walk) {
    forall i {:trigger Decided(Sends(key, v, walk)[i])} ::
      0 <= i < |Sends(key, v, walk)| ==> Decided(Sends(key, v, walk)[i])
  }

  /** What a node without the key has after all its queries. */
  function Arrives(key: string, v: Value, walk: Walk): Option<Value> {
    ApplyAll(None, Reads(Sends(key, v, walk)), key)
  }

  lemma TextArrivesIff(key: string, text: string, walk: Walk)
    requires Plain(key) && AllDecided(key, Str(text), walk)
    ensures Arrives(key, Str(text), walk) == Some(Str(text)) <==> Sendable(Str(text))
  {
    var c := Set(key, text);
    assert Sends(key, Str(text), walk)[0] == c && Decided(Sends(key, Str(text), walk)[0]) && Quoted(c)[0] == text;
    PlainKeyRead(c, text);
    HeardIff(text);
    var x := Received(c);
    assert Reads([c]) == [x];
    ApplyOne(None, [], x, key);
    assert [] + [x] == [x];
  }

  lemma ListReads(key: string, items: seq<string>)
    requires Plain(key)
    ensures var xs := Reads(Pushes(key, items)); forall i :: 0 <= i < |items| ==> xs[i] == Some(LPush(key, HeardItems(items)[i]))
  {
    forall i | 0 <= i < |items|
      ensures Received(LPush(key, items[i])) == Some(LPush(key, FirstHeard(items[i])))
    {
      PlainKeyRead(LPush(key, items[i]), items[i]);
    }
  }

  lemma ItemsOfLines(key: string, items: seq<string>, walk: Walk)
    requires AllDecided(key, List(items), walk)
    ensures Sendable(List(items)) <==> AllAlone(items)
  {
    forall i | 0 <= i < |items|
      ensures PlainText(items[i]) <==> Fine(items[i], false)
    {
      ItemLine(key, items, walk, i);
    }
  }

  lemma ItemLine(key: string, items: seq<string>, walk: Walk, i: nat)
    requires AllDecided(key, List(items), walk) && i < |items|
    ensures OneLine(items[i])
  {
    var c := Sends(key, List(items), walk)[i];
    assert Decided(Sends(key, List(items), walk)[i]) && Quoted(c) == [items[i]];
    assert OneLine(Quoted(c)[0]);
  }

  lemma ListArrivesIff(key: string, items: seq<string>, walk: Walk)
    requires Plain(key) && items != [] && AllDecided(key, List(items), walk)
    ensures Arrives(key, List(items), walk) == Some(List(items)) <==> Sendable(List(items))
  {
    ListReads(key, items);
    ApplyPushes(Reads(Pushes(key, items)), key, HeardItems(items));
    HeardItemsIff(items);
    ItemsOfLines(key, items, walk);
  }

  lemma SetReads(key: string, keys: set<string>, walk: Walk, ms: seq<string>, xs: seq<Option<Command>>)
    requires Plain(key) && ms == walk(keys) && xs == Reads(Sends(key, Members(keys), walk))
    ensures var hs := HeardMembers(ms);
            |xs| == |ms| && forall i {:trigger AddsThese(xs[i], key, hs[i])} :: 0 <= i < |ms| ==> AddsThese(xs[i], key, hs[i])
  {
    forall i | 0 <= i < |ms|
      ensures AddsThese(Received(SAdd(key, [ms[i]])), key, Heard(ms[i]))
    {
      PlainKeyRead(SAdd(key, [ms[i]]), ms[i]);
    }
  }

  lemma MembersOfLines(key: string, keys: set<string>, walk: Walk, ms: seq<string>)
    requires AllDecided(key, Members(keys), walk) && ms == walk(keys) && Elements(ms) == keys
    ensures Sendable(Members(keys)) <==> AllAlone(ms)
  {
    forall i | 0 <= i < |ms|
      ensures PlainText(ms[i]) <==> Fine(ms[i], false)
    {
      var c := Sends(key, Members(keys), walk)[i];
      assert Decided(c) && Quoted(c)[0] == ms[i];
    }
    ListedTexts(ms, keys);
  }

  lemma ListedTexts(ms: seq<string>, keys: set<string>)
    requires Elements(ms) == keys
    ensures (forall i :: 0 <= i < |ms| ==> PlainText(ms[i])) <==> forall k :: k in keys ==> PlainText(k)
  {
    assert forall i :: 0 <= i < |ms| ==> ms[i] in Elements(ms);
    assert forall k :: k in keys ==> k in ms;
  }

  lemma SetArrivesIff(key: string, keys: set<string>, walk: Walk)
    requires Walks(walk) && Plain(key) && keys != {} && AllDecided(key, Members(keys), walk)
    ensures Arrives(key, Members(keys), walk) == Some(Members(keys)) <==> Sendable(Members(keys))
  {
    var ms := walk(keys);
    assert Elements(ms) == keys;
    var xs := Reads(Sends(key, Members(keys), walk));
    SetReads(key, keys, walk, ms, xs);
    HeardMembersIff(ms);
    MembersOfLines(key, keys, walk, ms);
    MembersCame(xs, key, ms, HeardMembers(ms), keys);
    assert (ApplyAll(None, xs, key) == Some(Members(keys))) == AllAlone(ms);
  }

  lemma MembersCame(xs: seq<Option<Command>>, key: string, ms: seq<string>, hs: seq<seq<string>>, keys: set<string>)
    requires |xs| == |hs| == |ms|
    requires forall i {:trigger AddsThese(xs[i], key, hs[i])} :: 0 <= i < |ms| ==> AddsThese(xs[i], key, hs[i])
    requires Elements(ms) == keys != {}
    ensures ApplyAll(None, xs, key) == Some(Members(keys)) <==> Union(hs) == keys
  {
    assert ms != [];
    ApplyAdds(xs, key, hs);
  }

  lemma FieldFacts(key: string, fields: map<string, string>, walk: Walk, i: nat)
    requires Walks(walk) && AllDecided(key, Hashmap(fields), walk) && i < |walk(fields.Keys)|
    ensures var f := walk(fields.Keys)[i];
            && f in fields && Tame(MAdd(key, f, fields[f])) && OneLine(f) && OneLine(fields[f])
            && Sends(key, Hashmap(fields), walk)[i] == MAdd(key, f, fields[f])
  {
    var f := walk(fields.Keys)[i];
    assert f in Elements(walk(fields.Keys));
    var c := Sends(key, Hashmap(fields), walk)[i];
    assert Decided(c) && Bare(c)[1] == f && Quoted(c)[0] == fields[f];
  }

  lemma FieldReads(key: string, fields: map<string, string>, walk: Walk,
                   fs: seq<string>, xs: seq<Option<Command>>, hs: map<string, string>)
    requires Walks(walk) && Plain(key) && AllDecided(key, Hashmap(fields), walk) && AllPlain(fs)
    requires fs == walk(fields.Keys) && xs == Reads(Sends(key, Hashmap(fields), walk)) && hs == HeardFields(fields)
    ensures |xs| == |fs| && Elements(fs) == fields.Keys == hs.Keys
    ensures forall i {:trigger AddsField(xs[i], key, fs[i], hs)} :: 0 <= i < |fs| ==> AddsField(xs[i], key, fs[i], hs)
  {
    assert Elements(fs) == fields.Keys;
    forall i | 0 <= i < |fs|
      ensures AddsField(xs[i], key, fs[i], hs)
    {
      FieldReadAt(key, fields, walk, i);
    }
  }

  lemma FieldReadAt(key: string, fields: map<string, string>, walk: Walk, i: nat)
    requires Walks(walk) && Plain(key) && AllDecided(key, Hashmap(fields), walk)
    requires i < |walk(fields.Keys)| && Plain(walk(fields.Keys)[i])
    ensures var f := walk(fields.Keys)[i];
            f in fields && Received(Sends(key, Hashmap(fields), walk)[i]) == Some(MAdd(key, f, FirstHeard(fields[f])))
  {
    var f := walk(fields.Keys)[i];
    FieldFacts(key, fields, walk, i);
    FieldRead(key, f, fields[f]);
  }

  lemma FieldsOfLines(key: string, fields: map<string, string>, walk: Walk)
    requires Walks(walk) && AllDecided(key, Hashmap(fields), walk) && AllPlain(walk(fields.Keys))
    ensures Sendable(Hashmap(fields)) <==> FieldsAlone(fields)
  {
    var fs := walk(fields.Keys);
    forall f | f in fields
      ensures PlainWord(f) && OneLine(fields[f])
    {
      assert f in Elements(fs);
      var i :| 0 <= i < |fs| && fs[i] == f;
      FieldFacts(key, fields, walk, i);
    }
  }

  lemma FieldsHeard(key: string, fields: map<string, string>, walk: Walk,
                    fs: seq<string>, xs: seq<Option<Command>>, hs: map<string, string>)
    requires Walks(walk) && Plain(key) && fields != map[] && AllDecided(key, Hashmap(fields), walk) && AllPlain(fs)
    requires fs == walk(fields.Keys) && xs == Reads(Sends(key, Hashmap(fields), walk)) && hs == HeardFields(fields)
    ensures ApplyAll(None, xs, key) == Some(Hashmap(fields)) <==> hs == fields
  {
    FieldReads(key, fields, walk, fs, xs, hs);
    FieldsCame(xs, key, fields, hs, fs);
  }

  lemma PlainFieldsArriveIff(key: string, fields: map<string, string>, walk: Walk)
    requires Walks(walk) && Plain(key) && fields != map[] && AllDecided(key, Hashmap(fields), walk)
    requires AllPlain(walk(fields.Keys))
    ensures Arrives(key, Hashmap(fields), walk) == Some(Hashmap(fields)) <==> Sendable(Hashmap(fields))
  {
    var xs := Reads(Sends(key, Hashmap(fields), walk));
    FieldsHeard(key, fields, walk, walk(fields.Keys), xs, HeardFields(fields));
    HeardFieldsIff(fields);
    FieldsOfLines(key, fields, walk);
    assert (ApplyAll(None, xs, key) == Some(Hashmap(fields))) == FieldsAlone(fields);
  }

  lemma FieldsCame(xs: seq<Option<Command>>, key: string, fields: map<string, string>, hs: map<string, string>, fs: seq<string>)
    requires |xs| == |fs|
    requires forall i {:trigger AddsField(xs[i], key, fs[i], hs)} :: 0 <= i < |fs| ==> AddsField(xs[i], key, fs[i], hs)
    requires Elements(fs) == fields.Keys == hs.Keys && fields != map[]
    ensures ApplyAll(None, xs, key) == Some(Hashmap(fields)) <==> hs == fields
  {
    ApplyFields(xs, key, hs, fs);
    assert forall f :: f in hs ==> f in Elements(fs);
    assert Restrict(hs, fs) == hs;
    var f :| f in fields;
    assert f in Elements(fs);
  }

  /** The longest of the field names that are not plain does not arrive. */
  lemma FieldLost(key: string, fields: map<string, string>, walk: Walk)
    requires Walks(walk) && Plain(key) && AllDecided(key, Hashmap(fields), walk)
    requires !AllPlain(walk(fields.Keys))
    ensures Arrives(key, Hashmap(fields), walk) != Some(Hashmap(fields)) && !Sendable(Hashmap(fields))
  {
    var fs := walk(fields.Keys);
    var xs := Reads(Sends(key, Hashmap(fields), walk));
    var bad := set f | f in fs && !Plain(f);
    var i :| 0 <= i < |fs| && !Plain(fs[i]);
    assert fs[i] in bad;
    var f := Longest(bad);
    forall j | 0 <= j < |xs|
      ensures OtherField(xs[j], key, f)
    {
      FieldFacts(key, fields, walk, j);
      FieldRead(key, fs[j], fields[fs[j]]);
      assert !Plain(fs[j]) ==> fs[j] in bad;
    }
    FieldNeverCame(xs, key, f);
    assert f in Elements(fs);
  }

  lemma PlainKeyArrivesIff(key: string, v: Value, walk: Walk)
    requires Walks(walk) && Solid(Some(v)) && Plain(key) && AllDecided(key, v, walk)
    ensures Arrives(key, v, walk) == Some(v) <==> Sendable(v)
  {
    match v {
      case Str(text) => TextArrivesIff(key, text, walk);
      case List(items) => ListArrivesIff(key, items, walk);
      case Members(keys) => SetArrivesIff(key, keys, walk);
      case Hashmap(fields) =>
        if AllPlain(walk(fields.Keys)) {
          PlainFieldsArriveIff(key, fields, walk);
        } else {
          FieldLost(key, fields, walk);
        }
    }
  }

  // ----- keys that are not plain

  lemma SendsAreParts(key: string, v: Value, walk: Walk, i: nat)
    requires AllDecided(key, v, walk) && i < |Sends(key, v, walk)|
    ensures var c := Sends(key, v, walk)[i]; Part(c) && c.key == key && Tame(c) && (c.MAdd? ==> v.Hashmap?)
  {
    assert Decided(Sends(key, v, walk)[i]);
  }

  lemma PartMisses(c: Command, k: string)
    requires Part(c) && Tame(c) && !Plain(c.key) && !Plain(k) && k != [] && |c.key| <= |k|
    ensures Misses(Received(c), k)
  {
    if !Misses(Received(c), k) {
      LostKeyRead(c, Received(c).value);
    }
  }

  /** The queries for a key that is not plain do nothing to any such key that is at least as long. */
  lemma LongKeyMissed(key: string, v: Value, walk: Walk, k: string)
    requires AllDecided(key, v, walk) && !Plain(key) && !Plain(k) && k != [] && |key| <= |k|
    ensures AllMiss(Reads(Sends(key, v, walk)), k)
  {
    var cs := Sends(key, v, walk);
    forall i | 0 <= i < |cs|
      ensures Misses(Reads(cs)[i], k)
    {
      SendsAreParts(key, v, walk, i);
      PartMisses(cs[i], k);
    }
  }

  /** The field name that cannot arrive under the empty key: the longest that is not plain, or any if all are. */
  lemma LongestField(fields: map<string, string>) returns (f: string)
    requires fields != map[]
    ensures f in fields && forall h :: h in fields && !Plain(h) ==> |h| <= |f|
    ensures Plain(f) ==> forall h :: h in fields ==> Plain(h)
  {
    var bad := set h | h in fields && !Plain(h);
    if bad == {} {
      f :| f in fields;
    } else {
      f := Longest(bad);
    }
    assert forall h :: h in fields && !Plain(h) ==> h in bad;
  }

  lemma EmptyKeyRead(c: Command, f: string)
    requires Part(c) && Tame(c) && c.key == []
    requires c.MAdd? && !Plain(c.hkey) ==> |c.hkey| <= |f|
    ensures OtherField(Received(c), [], f) && (!c.MAdd? ==> Misses(Received(c), []))
  {
    if !Misses(Received(c), []) {
      LostKeyRead(c, Received(c).value);
    }
  }

  lemma EmptyKeyLost(v: Value, walk: Walk)
    requires Walks(walk) && Solid(Some(v)) && AllDecided([], v, walk)
    ensures Arrives([], v, walk) != Some(v)
  {
    var cs := Sends([], v, walk);
    if v.Hashmap? {
      var f := LongestField(v.fields);
      forall i | 0 <= i < |cs|
        ensures OtherField(Reads(cs)[i], [], f)
      {
        SendsAreParts([], v, walk, i);
        FieldFacts([], v.fields, walk, i);
        EmptyKeyRead(cs[i], f);
      }
      FieldNeverCame(Reads(cs), [], f);
    } else {
      forall i | 0 <= i < |cs|
        ensures Misses(Reads(cs)[i], [])
      {
        SendsAreParts([], v, walk, i);
        EmptyKeyRead(cs[i], []);
      }
      ApplyMisses(None, Reads(cs), []);
    }
  }

  /** A value arrives under its key exactly if the key is a plain word and every part of the value can be sent. */
  lemma ArrivesIff(key: string, v: Value, walk: Walk)
    requires Walks(walk) && Solid(Some(v)) && AllDecided(key, v, walk)
    ensures Arrives(key, v, walk) == Some(v) <==> Plain(key) && Sendable(v)
  {
    if Plain(key) {
      PlainKeyArrivesIff(key, v, walk);
    } else if key == [] {
      EmptyKeyLost(v, walk);
    } else {
      LongKeyMissed(key, v, walk, key);
      ApplyMisses(None, Reads(Sends(key, v, walk)), key);
    }
  }

  // ----- several keys

  lemma PartReadsKey(c: Command)
    requires Part(c) && Tame(c) && Plain(c.key)
    ensures Received(c).Some? ==> Received(c).value.key == c.key
  {
    if c.MAdd? {
      var key, f, d := c.key, c.hkey, c.data;
      FieldRead(key, f, d);
    } else {
      ShortReadsKey(c, Quoted(c)[0]);
    }
  }

  lemma ShortReadsKey(c: Command, d: string)
    requires Plain(c.key) && Quoted(c) == [d] && (c.Set? || c.LPush? || c.SAdd?)
    ensures Received(c).Some? && Received(c).value.key == c.key
  {
    PlainKeyRead(c, d);
  }

  /** The queries for a plain key do nothing to another key. */
  lemma OtherKeyMissed(key: string, v: Value, walk: Walk, k: string)
    requires AllDecided(key, v, walk) && Plain(key) && k != key
    ensures AllMiss(Reads(Sends(key, v, walk)), k)
  {
    var cs := Sends(key, v, walk);
    forall i | 0 <= i < |cs|
      ensures Misses(Reads(cs)[i], k)
    {
      SendsAreParts(key, v, walk, i);
      PartReadsKey(cs[i]);
    }
  }

  function SendsOf(db: Db, k: string, walk: Walk): seq<Command> {
    if k in db then Sends(k, db[k], walk) else []
  }

  /** The queries for the keys, one key after the other. */
  function AllSends(db: Db, ks: seq<string>, walk: Walk): seq<Command> {
    if ks == [] then [] else AllSends(db, ks[..|ks| - 1], walk) + SendsOf(db, ks[|ks| - 1], walk)
  }

  lemma SendsNext(db: Db, ks: seq<string>, i: nat, walk: Walk)
    requires i < |ks|
    ensures AllSends(db, ks[..i + 1], walk) == AllSends(db, ks[..i], walk) + SendsOf(db, ks[i], walk)
  {
    assert ks[..i + 1][..i] == ks[..i];
  }

  ghost predicate MissedBy(db: Db, j: string, walk: Walk, k: string) {
    AllMiss(Reads(SendsOf(db, j, walk)), k)
  }

  /** A key that the queries for the others do nothing to has what its own make of it. */
  lemma {:induction false} OwnQueriesCount(v: Option<Value>, db: Db, ks: seq<string>, walk: Walk, k: string)
    requires Distinct(ks) && forall j {:trigger MissedBy(db, j, walk, k)} :: j in ks && j != k ==> MissedBy(db, j, walk, k)
    ensures ApplyAll(v, Reads(AllSends(db, ks, walk)), k)
         == if k in ks then ApplyAll(v, Reads(SendsOf(db, k, walk)), k) else v
    decreases |ks|
  {
    if ks != [] {
      var init, j := ks[..|ks| - 1], ks[|ks| - 1];
      LastApart(ks);
      OwnQueriesCount(v, db, init, walk, k);
      OneKeyMore(v, AllSends(db, init, walk), SendsOf(db, j, walk), k);
      assert j != k ==> MissedBy(db, j, walk, k);
    }
  }

  lemma LastApart(ks: seq<string>)
    requires Distinct(ks) && ks != []
    ensures var init, j := ks[..|ks| - 1], ks[|ks| - 1];
            Distinct(init) && j !in init && j in ks && forall k :: k in ks <==> k in init || k == j
  {
    assert ks == ks[..|ks| - 1] + [ks[|ks| - 1]];
  }

  lemma OneKeyMore(v: Option<Value>, cs: seq<Command>, ds: seq<Command>, k: string)
    ensures ApplyAll(v, Reads(cs + ds), k) == ApplyAll(ApplyAll(v, Reads(cs), k), Reads(ds), k)
    ensures AllMiss(Reads(ds), k) ==> ApplyAll(v, Reads(cs + ds), k) == ApplyAll(v, Reads(cs), k)
  {
    var xs, ys := Reads(cs), Reads(ds);
    ReadsBoth(cs, ds);
    ApplyBoth(v, xs, ys, k);
    if AllMiss(ys, k) {
      ApplyMisses(ApplyAll(v, xs, k), ys, k);
    }
  }

  /** A key with a value whose queries can be decided. */
  ghost predicate Movable(db: Db, k: string, walk: Walk) {
    k in db && Solid(Some(db[k])) && AllDecided(k, db[k], walk)
  }

  ghost predicate AllMovable(db: Db, ks: seq<string>, walk: Walk) {
    forall k {:trigger Movable(db, k, walk)} :: k in ks ==> Movable(db, k, walk)
  }

  /** The key and its value can be sent. */
  predicate Carried(db: Db, k: string) {
    k in db && PlainWord(k) && Sendable(db[k])
  }

  /** The value of key k at a node that did not have it, after the queries for all the keys. */
  function Came(db: Db, ks: seq<string>, walk: Walk, k: string): Option<Value> {
    ApplyAll(None, Reads(AllSends(db, ks, walk)), k)
  }

  lemma MovableOneLine(db: Db, k: string, walk: Walk)
    requires Walks(walk) && Movable(db, k, walk)
    ensures OneLine(k)
  {
    var cs := Sends(k, db[k], walk);
    assert cs != [] by {
      SomethingSent(k, db[k], walk);
    }
    var c := cs[0];
    SendsAreParts(k, db[k], walk, 0);
    assert Decided(cs[0]) && Bare(c)[0] == k;
  }

  lemma SomethingSent(k: string, v: Value, walk: Walk)
    requires Walks(walk) && Solid(Some(v))
    ensures Sends(k, v, walk) != []
  {
    match v {
      case Hashmap(fields) => assert Elements(walk(fields.Keys)) == fields.Keys;
      case Members(keys) => assert Elements(walk(keys)) == keys;
      case _ =>
    }
  }

  lemma PlainMisses(db: Db, j: string, walk: Walk, k: string)
    requires Movable(db, j, walk) && Plain(j) && j != k
    ensures MissedBy(db, j, walk, k)
  {
    OtherKeyMissed(j, db[j], walk, k);
  }

  /** Where the other keys are plain, a key arrives exactly if it and its value can be sent. */
  lemma CameIff(db: Db, ks: seq<string>, walk: Walk, k: string)
    requires Walks(walk) && Distinct(ks) && AllMovable(db, ks, walk) && k in ks && k in db
    requires forall j :: j in ks && j != k ==> Plain(j)
    ensures Came(db, ks, walk, k) == Some(db[k]) <==> Carried(db, k)
  {
    forall j | j in ks && j != k
      ensures MissedBy(db, j, walk, k)
    {
      assert Movable(db, j, walk);
      PlainMisses(db, j, walk, k);
    }
    assert Movable(db, k, walk);
    OwnQueriesCount(None, db, ks, walk, k);
    ArrivesIff(k, db[k], walk);
    MovableOneLine(db, k, walk);
  }

  /**
   A key that cannot arrive whatever else is sent: it or its value cannot be sent, and the
   other keys are plain, or it is the longest of those that are not.
   */
  ghost predicate Hopeless(db: Db, keys: set<string>, k: string) {
    && k in keys && !Carried(db, k)
    && forall j :: j in keys && j != k ==> Plain(j) || (!Plain(k) && k != [] && |j| <= |k|)
  }

  lemma FindHopeless(db: Db, keys: set<string>, bad: string) returns (k: string)
    requires bad in keys && !Carried(db, bad)
    ensures Hopeless(db, keys, k)
  {
    var lost := set j | j in keys && !Plain(j);
    assert forall j :: j in keys && !Plain(j) ==> j in lost;
    if lost == {} {
      k := bad;
    } else {
      k := Longest(lost);
    }
  }

  lemma HopelessMissed(db: Db, keys: set<string>, k: string, j: string, walk: Walk)
    requires Hopeless(db, keys, k) && j in keys && j != k && Movable(db, j, walk)
    ensures MissedBy(db, j, walk, k)
  {
    if Plain(j) {
      PlainMisses(db, j, walk, k);
    } else {
      LongKeyMissed(j, db[j], walk, k);
    }
  }

  /** What becomes of such a key: its own queries do not bring it, and those for other keys do nothing to it. */
  lemma HopelessStays(v: Option<Value>, db: Db, keys: set<string>, k: string, ks: seq<string>, walk: Walk)
    requires Walks(walk) && Hopeless(db, keys, k) && Distinct(ks) && Elements(ks) <= keys && AllMovable(db, ks, walk)
    ensures k !in ks ==> ApplyAll(v, Reads(AllSends(db, ks, walk)), k) == v
    ensures k in ks ==> k in db && Came(db, ks, walk, k) != Some(db[k])
  {
    forall j | j in ks && j != k
      ensures MissedBy(db, j, walk, k)
    {
      assert j in Elements(ks) && Movable(db, j, walk);
      HopelessMissed(db, keys, k, j, walk);
    }
    OwnQueriesCount(v, db, ks, walk, k);
    if k in ks {
      assert Movable(db, k, walk);
      OwnQueriesCount(None, db, ks, walk, k);
      ArrivesIff(k, db[k], walk);
      MovableOneLine(db, k, walk);
    }
  }
}
