/** The queries by which a value is sent to another node, and what the other node reads from each. */
module Hearing {
  import opened Options
  import opened Rows
  import opened Sequences
  import opened Store
  import opened Tokenizer
  import opened Queries
  import opened Wire

  // ----- the queries for one key

  /** In which order a set is gone through. */
  type Walk = set<string> -> seq<string>

  /** An order of iteration over every set. */
  ghost predicate Walks(walk: Walk) {
    forall s {:trigger walk(s)} :: Distinct(walk(s)) && Elements(walk(s)) == s
  }

  function Pushes(key: string, items: seq<string>): (cs: seq<Command>)
    ensures |cs| == |items| && forall i :: 0 <= i < |cs| ==> cs[i] == LPush(key, items[i])
  {
    seq(|items|, i requires 0 <= i < |items| => LPush(key, items[i]))
  }

  function TextOf(fields: map<string, string>, f: string): string {
    if f in fields then fields[f] else []
  }

  function FieldAdds(key: string, fields: map<string, string>, fs: seq<string>): (cs: seq<Command>)
    ensures |cs| == |fs| && forall i :: 0 <= i < |cs| ==> cs[i] == MAdd(key, fs[i], TextOf(fields, fs[i]))
  {
    seq(|fs|, i requires 0 <= i < |fs| => MAdd(key, fs[i], TextOf(fields, fs[i])))
  }

  function MemberAdds(key: string, ms: seq<string>): (cs: seq<Command>)
    ensures |cs| == |ms| && forall i :: 0 <= i < |cs| ==> cs[i] == SAdd(key, [ms[i]])
  {
    seq(|ms|, i requires 0 <= i < |ms| => SAdd(key, [ms[i]]))
  }

  /** The queries by which LocalNode#migrate sends the value of a key. */
  function Sends(key: string, v: Value, walk: Walk): seq<Command> {
    match v
    case Str(text) => [Set(key, text)]
    case List(items) => Pushes(key, items)
    case Hashmap(fields) => FieldAdds(key, fields, walk(fields.Keys))
    case Members(keys) => MemberAdds(key, walk(keys))
  }

  /** One of those queries. */
  predicate Part(c: Command) {
    c.Set? || c.LPush? || c.MAdd? || (c.SAdd? && |c.skeys| == 1)
  }

  // ----- what is read from one query

  lemma ReadSet(us: seq<string>)
    ensures Read(["SET"] + us) == if |us| > 1 then Some(Set(us[0], us[1])) else None
  {
  }

  lemma ReadPush(us: seq<string>)
    ensures Read(["LPUSH"] + us) == if |us| > 1 then Some(LPush(us[0], us[1])) else None
  {
  }

  lemma ReadAdds(us: seq<string>)
    ensures Read(["SADD"] + us) == if |us| > 0 then Some(SAdd(us[0], us[1..])) else None
  {
    assert |us| > 0 ==> (["SADD"] + us)[2..] == us[1..];
  }

  lemma ReadField(us: seq<string>)
    ensures Read(["MADD"] + us) == if |us| > 2 then Some(MAdd(us[0], us[1], us[2])) else None
  {
  }

  /** The command read from the tokens after the name. */
  lemma ReadShortPart(c: Command, us: seq<string>)
    requires c.Set? || c.LPush? || c.SAdd?
    ensures Read([Name(c)] + us)
         == if |us| == 0 then None
            else if c.SAdd? then Some(SAdd(us[0], us[1..]))
            else if |us| == 1 then None
            else if c.Set? then Some(Set(us[0], us[1]))
            else Some(LPush(us[0], us[1]))
  {
    ReadSet(us);
    ReadPush(us);
    ReadAdds(us);
  }

  /** The tokens of the last argument of a line. */
  function Heard(d: string): seq<string> {
    Tokenize(Quote(d))
  }

  lemma HeardIff(d: string)
    ensures Heard(d) != [] && (Heard(d)[0] == d <==> Fine(d, false)) && (Fine(d, false) ==> Heard(d) == [d])
  {
    assert Quote(d) + [] == Quote(d);
    if Fine(d, false) {
      ArgParses(d, []);
      assert Tokenize([]) == [];
    } else {
      ArgFails(d, []);
    }
  }

  lemma LastArg(d: string)
    ensures Print(Line([], [d])) == Quote(d)
  {
    var items := Line([], [d]);
    assert items == [Arg(d)];
  }

  /** The tokens of a query with one quoted argument: those of its name, of each word, and of the argument. */
  lemma KeyTokens(c: Command, ws: seq<string>, d: string)
    requires Bare(c) == [c.key] + ws && Quoted(c) == [d] && Balanced(c.key)
    ensures Tokenize(Query(c)) == [Name(c)] + (Tokenize(c.key) + Tokenize(Print(Line(ws, [d]))))
  {
    var all := [Name(c)] + Bare(c);
    NameIsPlain(c);
    LineHead(all, [d]);
    WordIff(Name(c));
    assert all[1..] == [c.key] + ws;
    LineHead([c.key] + ws, [d]);
    assert ([c.key] + ws)[1..] == ws;
  }

  lemma ShortTokens(c: Command, d: string)
    requires Bare(c) == [c.key] && Quoted(c) == [d] && Balanced(c.key)
    ensures Tokenize(Query(c)) == [Name(c)] + (Tokenize(c.key) + Heard(d))
  {
    assert [c.key] + [] == [c.key];
    KeyTokens(c, [], d);
    LastArg(d);
  }

  lemma FieldTokens(key: string, f: string, d: string)
    requires Balanced(key) && Balanced(f)
    ensures Tokenize(Query(MAdd(key, f, d))) == ["MADD"] + (Tokenize(key) + (Tokenize(f) + Heard(d)))
  {
    assert [key] + [f] == [key, f];
    KeyTokens(MAdd(key, f, d), [f], d);
    LineHead([f], [d]);
    assert [f][1..] == [];
    LastArg(d);
  }

  /** A word that is not plain leaves shorter tokens only. */
  lemma ShorterTokens(w: string)
    requires Balanced(w) && !Plain(w)
    ensures forall t :: t in Tokenize(w) ==> |t| < |w|
  {
    TokenLengths(w);
    WordIff(w);
  }

  /** The argument of a query whose key is plain arrives with that key, as it is heard. */
  lemma PlainKeyRead(c: Command, d: string)
    requires Plain(c.key) && Quoted(c) == [d] && (c.Set? || c.LPush? || c.SAdd?)
    ensures Heard(d) != []
    ensures Received(c) == Some(if c.Set? then Set(c.key, Heard(d)[0])
                                else if c.LPush? then LPush(c.key, Heard(d)[0])
                                else SAdd(c.key, Heard(d)))
  {
    HeardIff(d);
    WordIff(c.key);
    ShortTokens(c, d);
    var us := [c.key] + Heard(d);
    ReadShortPart(c, us);
    assert us[0] == c.key && us[1] == Heard(d)[0] && us[1..] == Heard(d);
  }

  /** A field whose name is plain arrives as it is heard; any other under a shorter name, if at all. */
  lemma FieldRead(key: string, f: string, d: string)
    requires Plain(key) && Tame(MAdd(key, f, d))
    ensures Heard(d) != []
    ensures var x := Received(MAdd(key, f, d));
            && (Plain(f) ==> x == Some(MAdd(key, f, Heard(d)[0])))
            && (!Plain(f) && x.Some? ==> x.value.MAdd? && x.value.key == key && |x.value.hkey| < |f|)
  {
    var c := MAdd(key, f, d);
    assert Bare(c)[0] == key && Bare(c)[1] == f && Quoted(c)[0] == d;
    HeardIff(d);
    WordIff(key);
    WordIff(f);
    FieldTokens(key, f, d);
    ReadField([key] + (Tokenize(f) + Heard(d)));
    if !Plain(f) {
      ShorterTokens(f);
      FirstOf(Tokenize(f), Heard(d));
    }
  }

  lemma FirstOf(ts: seq<string>, us: seq<string>)
    ensures ts != [] ==> (ts + us)[0] in ts
    ensures |ts| > 1 ==> (ts + us)[1] in ts
  {
  }

  /** A key that is not plain arrives as a shorter one; without tokens of its own only a field name can stand for it. */
  lemma LostKeyRead(c: Command, x: Command)
    requires Part(c) && Tame(c) && !Plain(c.key) && Received(c) == Some(x) && !Malformed(x)
    ensures |x.key| < |c.key| || (c.MAdd? && x.MAdd? && !Plain(c.hkey) && |x.hkey| < |c.hkey| && (x.key == [] || Plain(x.key)))
  {
    if c.MAdd? {
      LostFieldRead(c, x);
    } else {
      LostShortRead(c, Quoted(c)[0], x);
    }
  }

  lemma LostShortRead(c: Command, d: string, x: Command)
    requires (c.Set? || c.LPush? || c.SAdd?) && Quoted(c) == [d] && Tame(c) && !Plain(c.key)
    requires Received(c) == Some(x) && !Malformed(x)
    ensures |x.key| < |c.key|
  {
    assert Bare(c)[0] == c.key && Quoted(c)[0] == d;
    var ks := Tokenize(c.key);
    ShorterTokens(c.key);
    HeardIff(d);
    ShortTokens(c, d);
    ReadShortPart(c, ks + [d]);
    FirstOf(ks, [d]);
  }

  lemma LostFieldRead(c: Command, x: Command)
    requires c.MAdd? && Tame(c) && !Plain(c.key) && Received(c) == Some(x)
    ensures |x.key| < |c.key| || (x.MAdd? && !Plain(c.hkey) && |x.hkey| < |c.hkey| && (x.key == [] || Plain(x.key)))
  {
    var key, f, d := c.key, c.hkey, c.data;
    assert Bare(c)[0] == key && Bare(c)[1] == f && Quoted(c)[0] == d;
    HeardIff(d);
    ShorterTokens(key);
    FieldTokens(key, f, d);
    var ks, fs := Tokenize(key), Tokenize(f);
    ReadField(ks + (fs + [d]));
    FirstOf(ks, fs + [d]);
    if ks == [] {
      assert ks + (fs + [d]) == fs + [d];
      FirstOf(fs, [d]);
      WordIff(f);
      ShorterTokens(f);
      assert QUOTE !in f by {
        if QUOTE in f {
          OneToken(f);
        }
      }
      TokensArePlain(f);
    }
  }

  function Reads(cs: seq<Command>): (xs: seq<Option<Command>>)
    ensures |xs| == |cs| && forall i :: 0 <= i < |cs| ==> xs[i] == Received(cs[i])
  {
    Mapped(Received, cs)
  }

  lemma ReadsOne(cs: seq<Command>, i: nat, x: Option<Command>)
    requires i < |cs| && x == Received(cs[i])
    ensures Reads(cs[..i + 1]) == Reads(cs[..i]) + [x]
  {
    ReadsSnoc(cs[..i], cs[i], x, cs[..i + 1]);
  }

  lemma ReadsSnoc(cs: seq<Command>, c: Command, x: Option<Command>, all: seq<Command>)
    requires all == cs + [c] && x == Received(c)
    ensures Reads(all) == Reads(cs) + [x]
  {
    ReadsBoth(cs, [c]);
    ReadsAlone(c, x);
  }

  lemma ReadsAlone(c: Command, x: Option<Command>)
    requires x == Received(c)
    ensures Reads([c]) == [x]
  {
    var xs := Reads([c]);
    assert |xs| == 1 && xs[0] == x;
  }

  lemma ReadsBoth(cs: seq<Command>, ds: seq<Command>)
    ensures Reads(cs + ds) == Reads(cs) + Reads(ds)
  {
    MappedBoth(Received, cs, ds);
  }
}
