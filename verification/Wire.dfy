/** Commands as the text that one node sends to another, and back. */
module Wire {
  import opened Options
  import opened Store
  import opened Tokenizer
  import opened Queries

  function Name(c: Command): string {
    match c
    case Get(_) => "GET"
    case Set(_, _) => "SET"
    case Delete(_) => "DELETE"
    case MAdd(_, _, _) => "MADD"
    case MRef(_, _) => "MREF"
    case MDel(_, _) => "MDEL"
    case MClear(_) => "MCLEAR"
    case MSize(_) => "MSIZE"
    case SAdd(_, _) => "SADD"
    case SDel(_, _) => "SDEL"
    case SInclude(_, _) => "SINCLUDE"
    case SClear(_) => "SCLEAR"
    case LPush(_, _) => "LPUSH"
    case LPop(_, _) => "LPOP"
    case LRef(_, _) => "LREF"
    case LSet(_, _, _) => "LSET"
    case LSize(_) => "LSIZE"
    case LClear(_) => "LCLEAR"
  }

  /** The arguments sent bare, after the name. */
  function Bare(c: Command): seq<string> {
    match c
    case MAdd(key, hkey, _) => [key, hkey]
    case MRef(key, hkeys) => [key] + hkeys
    case MDel(key, hkeys) => [key] + hkeys
    case LPop(key, idx) => [key, idx]
    case LRef(key, idx) => [key, idx]
    case LSet(key, idx, _) => [key, idx]
    case _ => [c.key]
  }

  /** The arguments sent between quotes. */
  function Quoted(c: Command): seq<string> {
    match c
    case Set(_, data) => [data]
    case MAdd(_, _, data) => [data]
    case SAdd(_, skeys) => skeys
    case SDel(_, skeys) => skeys
    case SInclude(_, skeys) => skeys
    case LPush(_, data) => [data]
    case LSet(_, _, data) => [data]
    case _ => []
  }

  /** The query of a forward or of a migration: the name and bare arguments, then the quoted ones. */
  function Query(c: Command): string {
    Print(Line([Name(c)] + Bare(c), Quoted(c)))
  }

  function Tokens(c: Command): seq<string> {
    [Name(c)] + Bare(c) + Quoted(c)
  }

  /** The command a query asks for; None where an argument is missing. */
  function Read(ts: seq<string>): Option<Command> {
    if |ts| < 2 then None
    else
      var name, key, n := ts[0], ts[1], |ts|;
      if name == "GET" then Some(Get(key))
      else if name == "SET" then (if n > 2 then Some(Set(key, ts[2])) else None)
      else if name == "DELETE" then Some(Delete(key))
      else if name == "MADD" then (if n > 3 then Some(MAdd(key, ts[2], ts[3])) else None)
      else if name == "MREF" then Some(MRef(key, ts[2..]))
      else if name == "MDEL" then Some(MDel(key, ts[2..]))
      else if name == "MCLEAR" then Some(MClear(key))
      else if name == "MSIZE" then Some(MSize(key))
      else if name == "SADD" then Some(SAdd(key, ts[2..]))
      else if name == "SDEL" then Some(SDel(key, ts[2..]))
      else if name == "SINCLUDE" then Some(SInclude(key, ts[2..]))
      else if name == "SCLEAR" then Some(SClear(key))
      else if name == "LPUSH" then (if n > 2 then Some(LPush(key, ts[2])) else None)
      else if name == "LPOP" then (if n > 2 then Some(LPop(key, ts[2])) else None)
      else if name == "LREF" then (if n > 2 then Some(LRef(key, ts[2])) else None)
      else if name == "LSET" then (if n > 3 then Some(LSet(key, ts[2], ts[3])) else None)
      else if name == "LSIZE" then Some(LSize(key))
      else if name == "LCLEAR" then Some(LClear(key))
      else None
  }

  /** The command the other node reads from the query. */
  function Received(c: Command): Option<Command> {
    Read(Tokenize(Query(c)))
  }

  lemma ReadTokens(c: Command)
    ensures Read(Tokens(c)) == Some(c)
  {
    if c.MRef? || c.MDel? {
      ReadFieldTokens(c);
    } else if c.SAdd? || c.SDel? || c.SInclude? {
      ReadMemberTokens(c);
    } else {
      ReadShortTokens(c);
    }
  }

  lemma ReadFieldTokens(c: Command)
    requires c.MRef? || c.MDel?
    ensures Read(Tokens(c)) == Some(c)
  {
    assert Tokens(c)[2..] == c.hkeys;
  }

  lemma ReadMemberTokens(c: Command)
    requires c.SAdd? || c.SDel? || c.SInclude?
    ensures Read(Tokens(c)) == Some(c)
  {
    assert Tokens(c)[2..] == c.skeys;
  }

  lemma ReadShortTokens(c: Command)
    requires !(c.MRef? || c.MDel? || c.SAdd? || c.SDel? || c.SInclude?)
    ensures Read(Tokens(c)) == Some(c)
  {
  }

  /** Whatever reads as a command starts with that command's tokens. */
  lemma ReadDetermines(ts: seq<string>, c: Command)
    requires Read(ts) == Some(c)
    ensures Tokens(c) <= ts
  {
    if c.MRef? || c.MDel? {
      ReadFields(ts, c);
    } else if c.SAdd? || c.SDel? || c.SInclude? {
      ReadMembers(ts, c);
    } else {
      ReadShort(ts, c);
    }
  }

  lemma ReadFields(ts: seq<string>, c: Command)
    requires Read(ts) == Some(c) && (c.MRef? || c.MDel?)
    ensures Tokens(c) == ts
  {
    assert ts[0] == Name(c) && ts[1] == c.key && ts[2..] == c.hkeys;
    Split2(ts);
  }

  lemma ReadMembers(ts: seq<string>, c: Command)
    requires Read(ts) == Some(c) && (c.SAdd? || c.SDel? || c.SInclude?)
    ensures Tokens(c) == ts
  {
    assert ts[0] == Name(c) && ts[1] == c.key && ts[2..] == c.skeys;
    Split2(ts);
  }

  lemma Split2(ts: seq<string>)
    requires |ts| >= 2
    ensures ts == [ts[0]] + [ts[1]] + ts[2..] == [ts[0]] + ([ts[1]] + ts[2..])
  {
  }

  lemma ReadShort(ts: seq<string>, c: Command)
    requires Read(ts) == Some(c) && !(c.MRef? || c.MDel? || c.SAdd? || c.SDel? || c.SInclude?)
    ensures Tokens(c) <= ts
  {
    if c.MAdd? || c.LSet? {
      ReadFour(ts, c);
    } else if c.Set? || c.LPush? || c.LPop? || c.LRef? {
      ReadThree(ts, c);
    } else {
      ReadTwo(ts, c);
    }
  }

  lemma ReadTwo(ts: seq<string>, c: Command)
    requires Read(ts) == Some(c)
    requires c.Get? || c.Delete? || c.MClear? || c.MSize? || c.SClear? || c.LSize? || c.LClear?
    ensures Tokens(c) <= ts
  {
    assert ts[0] == Name(c) && ts[1] == c.key;
    assert Tokens(c) == [Name(c), c.key];
  }

  lemma ReadThree(ts: seq<string>, c: Command)
    requires Read(ts) == Some(c) && (c.Set? || c.LPush? || c.LPop? || c.LRef?)
    ensures Tokens(c) <= ts
  {
    assert |ts| > 2 && ts[0] == Name(c) && ts[1] == c.key;
    assert Tokens(c) == [Name(c), c.key, ts[2]];
  }

  lemma ReadFour(ts: seq<string>, c: Command)
    requires Read(ts) == Some(c) && (c.MAdd? || c.LSet?)
    ensures Tokens(c) <= ts
  {
    assert |ts| > 3 && ts[0] == Name(c) && ts[1] == c.key;
    assert Tokens(c) == [Name(c), c.key, ts[2], ts[3]];
  }

  lemma NoBlankEnds(s: string)
    requires s != [] && QUOTE !in s && ' ' !in s && !Blank(s[0]) && !Blank(s[|s| - 1])
    ensures Plain(s)
  {
    assert LStrip(s) == s && RStrip(s) == s;
    OutsideOfWord(s);
  }

  predicate UpperCase(s: string) {
    s != [] && forall i :: 0 <= i < |s| ==> 'A' <= s[i] <= 'Z'
  }

  lemma NameIsPlain(c: Command)
    ensures Plain(Name(c))
  {
    var s := Name(c);
    assert UpperCase(s);
    UpperCaseIsPlain(s);
  }

  lemma UpperCaseIsPlain(s: string)
    requires UpperCase(s)
    ensures Plain(s)
  {
    assert !Blank(s[0]) && !Blank(s[|s| - 1]);
    NoBlankEnds(s);
  }

  lemma WordsOf(c: Command)
    ensures var ws := [Name(c)] + Bare(c);
            && (AllPlain(ws) <==> AllPlain(Bare(c)))
            && (AllBalanced(Bare(c)) ==> AllBalanced(ws))
            && (|Quoted(c)| <= 1 || QuietAfter(ws))
  {
    NameIsPlain(c);
    var ws := [Name(c)] + Bare(c);
    assert ws[1..] == Bare(c);
    AllPlainCons(ws);
    assert |Quoted(c)| > 1 ==> Bare(c) == [c.key];
  }

  /** Texts for which the trip to another node is decided: see LineIff. */
  ghost predicate Tame(c: Command) {
    AllPlain(Bare(c)) || (AllBalanced(Bare(c)) && AllEscaped(Quoted(c)))
  }

  /**
   What one node sends is the command the other runs exactly if every bare argument is a
   plain word and every quoted one fine where it stands. The quoted arguments may be any
   texts if the bare ones are plain; if they have their quotes escaped, the bare ones may be
   any that close the quotes they open.
   */
  lemma SpokenIff(c: Command)
    requires Tame(c)
    ensures Received(c) == Some(c) <==> AllPlain(Bare(c)) && AllFine(Quoted(c))
  {
    var ws := [Name(c)] + Bare(c);
    WordsOf(c);
    LineIff(ws, Quoted(c));
    ReadTokens(c);
    if Received(c) == Some(c) {
      ReadDetermines(Tokenize(Query(c)), c);
    }
  }

  /** In particular for every command without quotes: a word with a space in it never arrives. */
  lemma QuoteFreeSpokenIff(c: Command)
    requires QuoteFree(Bare(c)) && QuoteFree(Quoted(c))
    ensures Received(c) == Some(c) <==> AllPlain(Bare(c)) && AllFine(Quoted(c))
  {
    forall i | 0 <= i < |Quoted(c)|
      ensures Escaped(Quoted(c)[i])
    {
      QuoteFreeIsEscaped(Quoted(c)[i]);
    }
    SpokenIff(c);
  }

  // ----- commands that can be sent

  predicate OneLine(s: string) {
    '\n' !in s
  }

  /** A query is one line. */
  predicate SingleLine(c: Command) {
    (forall i :: 0 <= i < |Bare(c)| ==> OneLine(Bare(c)[i])) && forall i :: 0 <= i < |Quoted(c)| ==> OneLine(Quoted(c)[i])
  }

  ghost predicate Speakable(c: Command) {
    SingleLine(c) && AllPlain(Bare(c)) && AllFine(Quoted(c))
  }

  /** The key that is read from a question about a key; None where no word is left of it. */
  function Told(verb: string, key: string): Option<string> {
    var ts := Tokenize(Print(Line(["CLUSTER", verb, key], [])));
    if |ts| > 2 then Some(ts[2]) else None
  }

  /** The questions by which a node finds the owner of a key name that key. */
  predicate Asks(key: string) {
    Told("WHEREIS?", key) == Some(key) && Told("YOUHAVE?", key) == Some(key)
  }

  /** The command arrives as itself, and its key in the questions for its owner. */
  predicate Travels(c: Command) {
    SingleLine(c) && Received(c) == Some(c) && Asks(c.key)
  }

  lemma PlainKeyAsks(key: string)
    requires Plain(key)
    ensures Asks(key)
  {
    AskedWith("WHEREIS?", key);
    AskedWith("YOUHAVE?", key);
  }

  lemma AskedWith(verb: string, key: string)
    requires Plain(key) && verb != [] && QUOTE !in verb && ' ' !in verb && !Blank(verb[0]) && !Blank(verb[|verb| - 1])
    ensures Told(verb, key) == Some(key)
  {
    UpperCaseIsPlain("CLUSTER");
    NoBlankEnds(verb);
    PlainWordsParse(["CLUSTER", verb, key]);
  }

  /** A question about a key names its first token, and none if it has none. */
  lemma ToldIs(verb: string, key: string)
    requires Plain(verb) && Balanced(key)
    ensures Told(verb, key) == if Tokenize(key) == [] then None else Some(Tokenize(key)[0])
  {
    UpperCaseIsPlain("CLUSTER");
    WordsTokens("CLUSTER", verb, key);
  }

  lemma WordsTokens(w: string, verb: string, key: string)
    requires Plain(w) && Plain(verb) && Balanced(key)
    ensures Tokenize(Print(Line([w, verb, key], []))) == [w, verb] + Tokenize(key)
  {
    ThreeWords(w, verb, key, [w, verb, key], [verb, key], [key]);
  }

  lemma ThreeWords(w: string, verb: string, key: string, all: seq<string>, more: seq<string>, last: seq<string>)
    requires Plain(w) && Plain(verb)
    requires all == [w] + more && more == [verb] + last && last == [key]
    ensures Tokenize(Print(Line(all, []))) == [w, verb] + Tokenize(key)
  {
    WordAhead(w, more, all);
    WordAhead(verb, last, more);
    WordAlone(key);
    TwoAhead(w, verb, Tokenize(key));
  }

  lemma TwoAhead(w: string, verb: string, ts: seq<string>)
    ensures [w] + ([verb] + ts) == [w, verb] + ts
  {
  }

  lemma WordAhead(w: string, ws: seq<string>, all: seq<string>)
    requires Plain(w) && all == [w] + ws
    ensures Tokenize(Print(Line(all, []))) == [w] + Tokenize(Print(Line(ws, [])))
  {
    WordIff(w);
    LineHead(all, []);
    assert all[1..] == ws;
  }

  lemma WordAlone(w: string)
    ensures Print(Line([w], [])) == w
  {
    assert Line([w], []) == [Word(w)];
  }

  lemma PlainWordsParse(ws: seq<string>)
    requires AllPlain(ws)
    ensures Tokenize(Print(Line(ws, []))) == ws
  {
    LineIff(ws, []);
    assert ws + [] == ws;
  }

  lemma SpeakableTravels(c: Command)
    requires Speakable(c)
    ensures Travels(c)
  {
    assert Bare(c)[0] == c.key;
    SpokenIff(c);
    PlainKeyAsks(c.key);
  }

  // ----- the texts

  /** Words, each after a space. */
  function Spaced(ws: seq<string>): string {
    if ws == [] then "" else " " + ws[0] + Spaced(ws[1..])
  }

  /** Arguments between quotes, each after a space. */
  function SpacedQuotes(qs: seq<string>): string {
    if qs == [] then "" else " \"" + qs[0] + "\"" + SpacedQuotes(qs[1..])
  }

  lemma PrintCons(x: Item, items: seq<Item>)
    ensures Print([x] + items) == Show(x) + if items == [] then [] else [' '] + Print(items)
  {
    assert ([x] + items)[1..] == items;
  }

  lemma {:induction false} LineText(w: string, ws: seq<string>, qs: seq<string>)
    ensures Print(Line([w] + ws, qs)) == w + Spaced(ws) + SpacedQuotes(qs)
    decreases |ws|
  {
    if ws == [] {
      LastWordText(w, qs);
    } else {
      LineText(ws[0], ws[1..], qs);
      assert [ws[0]] + ws[1..] == ws;
      LineWords(w, ws, qs, Line(ws, qs));
      MoreText(w, ws[0], Spaced(ws[1..]), SpacedQuotes(qs), Line(ws, qs));
    }
  }

  lemma LastWordText(w: string, qs: seq<string>)
    ensures Print(Line([w] + [], qs)) == w + Spaced([]) + SpacedQuotes(qs)
  {
    assert Line([w] + [], qs) == [Word(w)] + Line([], qs);
    PrintCons(Word(w), Line([], qs));
    ArgsText(qs);
    assert w + "" == w;
  }

  lemma LineWords(w: string, ws: seq<string>, qs: seq<string>, items: seq<Item>)
    requires ws != [] && items == Line(ws, qs)
    ensures Line([w] + ws, qs) == [Word(w)] + items && items != []
  {
  }

  lemma MoreText(w: string, head: string, tail: string, quotes: string, items: seq<Item>)
    requires items != [] && Print(items) == head + tail + quotes
    ensures Print([Word(w)] + items) == w + (" " + head + tail) + quotes
  {
    PrintCons(Word(w), items);
    SpacedCons(w, head, tail, quotes, " " + head + tail);
  }

  lemma SpacedCons(w: string, head: string, tail: string, rest: string, spaced: string)
    requires spaced == " " + head + tail
    ensures w + ([' '] + (head + tail + rest)) == w + spaced + rest
  {
    assert [' '] + (head + tail + rest) == spaced + rest;
  }

  lemma {:induction false} ArgsText(qs: seq<string>)
    ensures (if qs == [] then [] else [' '] + Print(Line([], qs))) == SpacedQuotes(qs)
  {
    if qs != [] {
      var items := Line([], qs[1..]);
      ArgsText(qs[1..]);
      LineArgs(qs, items);
      PrintCons(Arg(qs[0]), items);
      QuotedCons(qs[0], SpacedQuotes(qs[1..]));
    }
  }

  lemma LineArgs(qs: seq<string>, items: seq<Item>)
    requires qs != [] && items == Line([], qs[1..])
    ensures Line([], qs) == [Arg(qs[0])] + items && (items == [] <==> qs[1..] == [])
  {
  }

  lemma QuotedCons(q: string, rest: string)
    ensures [' '] + (Quote(q) + rest) == " \"" + q + "\"" + rest
  {
  }

  lemma QueryText(c: Command)
    ensures Query(c) == Name(c) + Spaced(Bare(c)) + SpacedQuotes(Quoted(c))
  {
    LineText(Name(c), Bare(c), Quoted(c));
  }

  /** A query: its name, words after spaces, and arguments between quotes after spaces. */
  function Text(name: string, ws: seq<string>, qs: seq<string>): string {
    name + Spaced(ws) + SpacedQuotes(qs)
  }

  lemma TextIs(c: Command, name: string, ws: seq<string>, qs: seq<string>)
    requires name == Name(c) && ws == Bare(c) && qs == Quoted(c)
    ensures Query(c) == Text(name, ws, qs)
  {
    QueryText(c);
  }

  /** The queries as the commands print them: by a key alone, with a text or an index, and with names. */
  lemma KeyQueries(k: string)
    ensures Query(Get(k)) == Text("GET", [k], [])
    ensures Query(Delete(k)) == Text("DELETE", [k], [])
    ensures Query(MSize(k)) == Text("MSIZE", [k], [])
    ensures Query(LSize(k)) == Text("LSIZE", [k], [])
  {
    TextIs(Get(k), "GET", [k], []);
    TextIs(Delete(k), "DELETE", [k], []);
    TextIs(MSize(k), "MSIZE", [k], []);
    TextIs(LSize(k), "LSIZE", [k], []);
  }

  lemma ClearQueries(k: string)
    ensures Query(MClear(k)) == Text("MCLEAR", [k], [])
    ensures Query(SClear(k)) == Text("SCLEAR", [k], [])
    ensures Query(LClear(k)) == Text("LCLEAR", [k], [])
  {
    TextIs(MClear(k), "MCLEAR", [k], []);
    TextIs(SClear(k), "SCLEAR", [k], []);
    TextIs(LClear(k), "LCLEAR", [k], []);
  }

  lemma DataQueries(k: string, h: string, d: string)
    ensures Query(Set(k, d)) == Text("SET", [k], [d])
    ensures Query(LPush(k, d)) == Text("LPUSH", [k], [d])
    ensures Query(MAdd(k, h, d)) == Text("MADD", [k, h], [d])
  {
    TextIs(Set(k, d), "SET", [k], [d]);
    TextIs(LPush(k, d), "LPUSH", [k], [d]);
    TextIs(MAdd(k, h, d), "MADD", [k, h], [d]);
  }

  lemma IndexQueries(k: string, i: string, d: string)
    ensures Query(LSet(k, i, d)) == Text("LSET", [k, i], [d])
    ensures Query(LRef(k, i)) == Text("LREF", [k, i], [])
    ensures Query(LPop(k, i)) == Text("LPOP", [k, i], [])
  {
    TextIs(LSet(k, i, d), "LSET", [k, i], [d]);
    TextIs(LRef(k, i), "LREF", [k, i], []);
    TextIs(LPop(k, i), "LPOP", [k, i], []);
  }

  lemma NamesQueries(k: string, xs: seq<string>)
    ensures Query(MRef(k, xs)) == Text("MREF", [k] + xs, [])
    ensures Query(MDel(k, xs)) == Text("MDEL", [k] + xs, [])
    ensures Query(SAdd(k, xs)) == Text("SADD", [k], xs)
    ensures Query(SDel(k, xs)) == Text("SDEL", [k], xs)
    ensures Query(SInclude(k, xs)) == Text("SINCLUDE", [k], xs)
  {
    TextIs(MRef(k, xs), "MREF", [k] + xs, []);
    TextIs(MDel(k, xs), "MDEL", [k] + xs, []);
    TextIs(SAdd(k, xs), "SADD", [k], xs);
    TextIs(SDel(k, xs), "SDEL", [k], xs);
    TextIs(SInclude(k, xs), "SINCLUDE", [k], xs);
  }
}
