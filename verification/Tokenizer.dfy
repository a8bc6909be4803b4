/**
 The command line of the XQL protocol: how a query is cut into tokens (string.rb), with the
 regular expression matched the way a backtracking matcher does it.
 */
module Tokenizer {
  import opened Options

  const QUOTE: char := '"'
  const BACKSLASH: char := '\\'

  // ----- the regular expression /(?:"(?:\\.|[^"])*"|[^" ])+/

  /**
   The body and closing quote of a quoted part: the number of characters used. At each
   place an escaped character is tried first, then any character but a quote, then the
   closing quote.
   */
  function Body(s: string): (r: Option<nat>)
    ensures r.Some? ==> 1 <= r.value <= |s| && s[r.value - 1] == QUOTE
    decreases |s|
  {
    var escaped :=
      if |s| >= 2 && s[0] == BACKSLASH && s[1] != '\n' then Longer(2, Body(s[2..])) else None;
    if escaped.Some? then escaped
    else if s == [] then None
    else if s[0] == QUOTE then Some(1)
    else Longer(1, Body(s[1..]))
  }

  function Longer(n: nat, r: Option<nat>): Option<nat> {
    if r.Some? then Some(n + r.value) else None
  }

  /** One round of the outer repetition. */
  function Round(s: string): (r: Option<nat>)
    ensures r.Some? ==> 1 <= r.value <= |s|
  {
    if s == [] || s[0] == ' ' then None
    else if s[0] == QUOTE then Longer(1, Body(s[1..]))
    else Some(1)
  }

  /** The length of the match at the start of a string; 0 if there is none. */
  function Match(s: string): (n: nat)
    ensures n <= |s|
    decreases |s|
  {
    var r := Round(s);
    if r.None? then 0 else r.value + Match(s[r.value..])
  }

  /** String#scan. */
  function Scan(s: string): seq<string>
    decreases |s|
  {
    if s == [] then []
    else if Match(s) == 0 then Scan(s[1..])
    else [s[..Match(s)]] + Scan(s[Match(s)..])
  }

  // ----- strip, rchomp, chomp

  predicate Blank(c: char) {
    c == ' ' || c == '\t' || c == '\n' || c == '\r' || c == '\U{0B}' || c == '\U{0C}' || c == '\0'
  }

  function LStrip(s: string): string {
    if s != [] && Blank(s[0]) then LStrip(s[1..]) else s
  }

  function RStrip(s: string): string {
    if s != [] && Blank(s[|s| - 1]) then RStrip(s[..|s| - 1]) else s
  }

  function Strip(s: string): string {
    RStrip(LStrip(s))
  }

  function DropFirstQuote(s: string): string {
    if s != [] && s[0] == QUOTE then s[1..] else s
  }

  function DropLastQuote(s: string): string {
    if s != [] && s[|s| - 1] == QUOTE then s[..|s| - 1] else s
  }

  function Clean(s: string): string {
    DropLastQuote(DropFirstQuote(Strip(s)))
  }

  function CleanAll(ts: seq<string>): (r: seq<string>)
    ensures |r| == |ts|
  {
    if ts == [] then [] else [Clean(ts[0])] + CleanAll(ts[1..])
  }

  /** String#tokenize. */
  function Tokenize(s: string): seq<string> {
    CleanAll(Scan(s))
  }

  /** XQL.parse: the first token, in upper case, and the others. */
  function Parse(query: string, upcase: string -> string): Option<(string, seq<string>)> {
    var ts := Tokenize(query);
    if ts == [] then None else Some((upcase(ts[0]), ts[1..]))
  }

  // ----- what a client prints

  /** A bare word, or an argument between quotes. */
  datatype Item = Word(text: string) | Arg(text: string)

  function Quote(s: string): string {
    [QUOTE] + s + [QUOTE]
  }

  function Show(i: Item): string {
    if i.Word? then i.text else Quote(i.text)
  }

  /** The items with a space between any two. */
  function Print(items: seq<Item>): string {
    if items == [] then [] else Show(items[0]) + (if |items| == 1 then [] else [' '] + Print(items[1..]))
  }

  function Texts(items: seq<Item>): (r: seq<string>)
    ensures |r| == |items| && forall i :: 0 <= i < |items| ==> r[i] == items[i].text
  {
    seq(|items|, i requires 0 <= i < |items| => items[i].text)
  }

  // ----- how an argument reads between its quotes

  /**
   Tidy: its own closing quote closes it. Dangling: a backslash is left over that would
   escape that quote. Open: an unescaped quote has ended the quoted part, so that the
   closing quote opens another. Split: a space stands outside the quotes.
   */
  datatype Shape = Tidy | Dangling | Open | Split

  function Inside(a: string): Shape
    decreases |a|
  {
    if a == [] then Tidy
    else if a[0] == QUOTE then Outside(a[1..])
    else if a[0] != BACKSLASH then Inside(a[1..])
    else if |a| == 1 then Dangling
    else if a[1] == '\n' then Inside(a[1..])
    else Inside(a[2..])
  }

  function Outside(a: string): Shape
    decreases |a|
  {
    if a == [] then Open
    else if a[0] == ' ' then Split
    else if a[0] == QUOTE then Inside(a[1..])
    else Outside(a[1..])
  }

  /** A bare word that stands for itself: its quotes close, no space is outside of them, and nothing is stripped. */
  predicate Plain(w: string) {
    w != [] && Outside(w) == Open && Clean(w) == w
  }

  /** The last character is neither a quote nor stripped. */
  predicate EndsWell(a: string) {
    a != [] && a[|a| - 1] != QUOTE && !Blank(a[|a| - 1])
  }

  /** An argument that parses back, given whether another one follows. */
  predicate Fine(a: string, later: bool) {
    match Inside(a)
    case Tidy => true
    case Dangling => !later
    case Open => !later && EndsWell(a)
    case Split => false
  }

  // ----- the body of a quoted part

  lemma {:induction false} BodyNeedsQuote(s: string)
    ensures Body(s).Some? <==> QUOTE in s
    decreases |s|
  {
    if s != [] {
      BodyNeedsQuote(s[1..]);
      assert s == [s[0]] + s[1..];
      if |s| >= 2 {
        BodyNeedsQuote(s[2..]);
        assert s == [s[0], s[1]] + s[2..];
      }
    }
  }

  /** An argument, its closing quote and what follows. */
  function ArgLine(a: string, rest: string): string {
    a + [QUOTE] + rest
  }

  lemma ArgLineTail(a: string, rest: string, k: nat)
    requires k <= |a|
    ensures ArgLine(a, rest)[k..] == ArgLine(a[k..], rest)
  {
  }

  lemma ArgLineQuote(a: string, rest: string)
    ensures QUOTE in ArgLine(a, rest)
  {
    assert ArgLine(a, rest)[|a|] == QUOTE;
  }

  lemma BodyPlain(s: string)
    requires s != [] && s[0] != BACKSLASH && s[0] != QUOTE
    ensures Body(s) == Longer(1, Body(s[1..]))
  {
  }

  lemma BodyEscape(s: string)
    requires |s| >= 2 && s[0] == BACKSLASH
    ensures Body(s) == if s[1] != '\n' && Body(s[2..]).Some? then Longer(2, Body(s[2..])) else Longer(1, Body(s[1..]))
  {
  }

  // ----- where a match ends

  predicate AtEnd(rest: string) {
    rest == [] || rest[0] == ' '
  }

  /** The length of a match that has just entered a quoted part. */
  function Entered(s: string): nat
    requires Body(s).Some?
  {
    Body(s).value + Match(s[Body(s).value..])
  }

  lemma EnteredStep(s: string, k: nat, t: string, n: nat)
    requires k <= |s| && t == s[k..] && Body(t) == Some(n) && Body(s) == Some(k + n)
    ensures Entered(s) == k + Entered(t)
  {
    var u := s[k + n..];
    SliceTwice(s, k, n);
    EnteredIs(s, k + n, u);
    EnteredIs(t, n, u);
  }

  lemma EnteredIs(s: string, n: nat, u: string)
    requires Body(s) == Some(n) && u == s[n..]
    ensures Entered(s) == n + Match(u)
  {
  }

  lemma SliceTwice(s: string, k: nat, n: nat)
    requires k + n <= |s|
    ensures s[k..][n..] == s[k + n..]
  {
  }

  lemma MatchEnters(s: string)
    requires s != [] && s[0] == QUOTE
    ensures Match(s) == if Body(s[1..]).Some? then 1 + Entered(s[1..]) else 0
  {
    var t := s[1..];
    if Body(t).Some? {
      SliceTwice(s, 1, Body(t).value);
    }
  }

  /** A quote after position m is part of the match of length n. */
  predicate Beyond(s: string, m: nat, n: nat) {
    exists j :: m < j < n && j < |s| && s[j] == QUOTE
  }

  /** Where the match of length n ends, for an argument of length m at the start of s. */
  predicate Ends(shape: Shape, s: string, m: nat, n: nat, later: bool) {
    match shape
    case Tidy => n == m + 1
    case Dangling => if later then Beyond(s, m, n) else n == m + 1
    case Open => if later then Beyond(s, m, n) else n == m
    case Split => n < m
  }

  lemma EndsShift(shape: Shape, s: string, k: nat, m: nat, n: nat, later: bool)
    requires k <= |s| && Ends(shape, s[k..], m, n, later)
    ensures Ends(shape, s, m + k, n + k, later)
  {
    if later && (shape == Dangling || shape == Open) {
      var j :| m < j < n && j < |s[k..]| && s[k..][j] == QUOTE;
      assert m + k < j + k < n + k && s[j + k] == QUOTE;
    }
  }

  /** A leftover backslash escapes the closing quote if another quote follows. */
  lemma LoneBackslash(rest: string)
    requires AtEnd(rest)
    ensures var s := ArgLine([BACKSLASH], rest);
            Body(s).Some? && Ends(Dangling, s, 1, Entered(s), QUOTE in rest)
  {
    var s := ArgLine([BACKSLASH], rest);
    assert s[1..] == [QUOTE] + rest && s[2..] == rest;
    BodyEscape(s);
    BodyNeedsQuote(rest);
    if QUOTE in rest {
      var b := Body(rest).value;
      EnteredStep(s, 2, rest, b);
      assert s[b + 1] == rest[b - 1] == QUOTE;
    } else {
      assert Body(s) == Some(2);
    }
  }

  /** The closing quote opens another quoted part if another quote follows. */
  lemma ClosingOpens(rest: string)
    requires AtEnd(rest)
    ensures var s := ArgLine([], rest); Ends(Open, s, 0, Match(s), QUOTE in rest)
  {
    var s := ArgLine([], rest);
    assert s == [QUOTE] + rest && s[1..] == rest;
    MatchEnters(s);
    BodyNeedsQuote(rest);
    if QUOTE in rest {
      var b := Body(rest).value;
      assert s[b] == rest[b - 1] == QUOTE;
    }
  }

  lemma ClosingCloses(rest: string)
    requires AtEnd(rest)
    ensures var s := ArgLine([], rest); Body(s) == Some(1) && Entered(s) == 1
  {
    var s := ArgLine([], rest);
    assert s == [QUOTE] + rest && s[1..] == rest;
    assert Match(rest) == 0;
  }

  lemma {:induction false} MatchInside(a: string, rest: string)
    requires AtEnd(rest)
    ensures var s := ArgLine(a, rest); Body(s).Some? && Ends(Inside(a), s, |a|, Entered(s), QUOTE in rest)
    decreases |a|
  {
    var s := ArgLine(a, rest);
    ArgLineQuote(a, rest);
    BodyNeedsQuote(s);
    if a == [] {
      ClosingCloses(rest);
    } else if a[0] == QUOTE {
      MatchOutside(a[1..], rest);
      ArgLineTail(a, rest, 1);
      LeavesQuotes(s);
      EndsShift(Inside(a), s, 1, |a| - 1, Match(s[1..]), QUOTE in rest);
    } else if a == [BACKSLASH] {
      LoneBackslash(rest);
    } else {
      var k := if a[0] == BACKSLASH && a[1] != '\n' then 2 else 1;
      MatchInside(a[k..], rest);
      InsideMore(a, rest, k);
    }
  }

  lemma InsideMore(a: string, rest: string, k: nat)
    requires a != [] && a[0] != QUOTE && a != [BACKSLASH] && k == if a[0] == BACKSLASH && a[1] != '\n' then 2 else 1
    requires var t := ArgLine(a[k..], rest); Body(t).Some? && Ends(Inside(a[k..]), t, |a| - k, Entered(t), QUOTE in rest)
    ensures var s := ArgLine(a, rest); Body(s).Some? && Ends(Inside(a), s, |a|, Entered(s), QUOTE in rest)
  {
    var s := ArgLine(a, rest);
    ArgLineTail(a, rest, k);
    assert s[..|a|] == a;
    InsideStep(s, a, k);
    EndsShift(Inside(a), s, k, |a| - k, Entered(s[k..]), QUOTE in rest);
  }

  lemma LeavesQuotes(s: string)
    requires s != [] && s[0] == QUOTE
    ensures Body(s) == Some(1) && Entered(s) == 1 + Match(s[1..])
  {
  }

  /** Inside the quotes one character, or an escaped one, is read. */
  lemma InsideStep(s: string, a: string, k: nat)
    requires a != [] && a[0] != QUOTE && a != [BACKSLASH] && |a| <= |s| && s[..|a|] == a
    requires k == (if a[0] == BACKSLASH && a[1] != '\n' then 2 else 1) && Body(s[k..]).Some?
    ensures Body(s).Some? && Entered(s) == k + Entered(s[k..]) && Inside(a) == Inside(a[k..])
  {
    assert s[0] == a[0];
    if a[0] == BACKSLASH {
      assert s[1] == s[..|a|][1] == a[1];
      BodyEscape(s);
    } else {
      BodyPlain(s);
    }
    EnteredStep(s, k, s[k..], Body(s[k..]).value);
  }

  lemma {:induction false} MatchOutside(a: string, rest: string)
    requires AtEnd(rest)
    ensures var s := ArgLine(a, rest); Ends(Outside(a), s, |a|, Match(s), QUOTE in rest)
    decreases |a|
  {
    var s := ArgLine(a, rest);
    if a == [] {
      ClosingOpens(rest);
    } else if a[0] == ' ' {
      assert s[0] == ' ';
    } else {
      ArgLineTail(a, rest, 1);
      if a[0] == QUOTE {
        MatchInside(a[1..], rest);
        MatchEnters(s);
        EndsShift(Outside(a), s, 1, |a| - 1, Entered(s[1..]), QUOTE in rest);
      } else {
        MatchOutside(a[1..], rest);
        MatchPlain(s);
        EndsShift(Outside(a), s, 1, |a| - 1, Match(s[1..]), QUOTE in rest);
      }
    }
  }

  lemma MatchPlain(s: string)
    requires s != [] && s[0] != ' ' && s[0] != QUOTE
    ensures Match(s) == 1 + Match(s[1..])
  {
  }

  /** Where the match of an argument in quotes ends. */
  lemma MatchOfArg(a: string, rest: string)
    requires AtEnd(rest)
    ensures var s := Quote(a) + rest; Match(s) >= 2 && Ends(Inside(a), s, |a| + 1, Match(s), QUOTE in rest)
  {
    var s, t := Quote(a) + rest, ArgLine(a, rest);
    QuoteLine(a, rest);
    MatchInside(a, rest);
    MatchEnters(s);
    EndsShift(Inside(a), s, 1, |a|, Entered(t), QUOTE in rest);
  }

  lemma QuoteLine(a: string, rest: string)
    ensures var s := Quote(a) + rest; s[0] == QUOTE && s[1..] == ArgLine(a, rest)
  {
  }

  // ----- cleaning a token that starts with a quote

  lemma {:induction false} RStripKeeps(s: string, j: nat)
    requires j < |s| && !Blank(s[j])
    ensures exists m :: j < m <= |s| && RStrip(s) == s[..m]
    decreases |s|
  {
    if Blank(s[|s| - 1]) {
      var t := s[..|s| - 1];
      RStripKeeps(t, j);
      var m :| j < m <= |t| && RStrip(t) == t[..m];
      assert t[..m] == s[..m];
    } else {
      assert s[..|s|] == s;
    }
  }

  lemma CleanArg(a: string)
    ensures Clean(Quote(a)) == a
  {
    var q := Quote(a);
    assert LStrip(q) == q && RStrip(q) == q;
    assert DropFirstQuote(q) == a + [QUOTE];
  }

  /** Without its closing quote an argument is left as it is exactly if it ends well. */
  lemma CleanOpen(a: string)
    requires a != []
    ensures Clean([QUOTE] + a) == a <==> EndsWell(a)
  {
    var t := [QUOTE] + a;
    assert LStrip(t) == t && t[|t| - 1] == a[|a| - 1];
    if Blank(a[|a| - 1]) {
      RStripKeeps(t[..|t| - 1], 0);
      var m :| 0 < m <= |t| - 1 && RStrip(t[..|t| - 1]) == t[..|t| - 1][..m];
      assert |Strip(t)| <= |a| && Strip(t)[0] == QUOTE;
    } else {
      assert Strip(t) == t && DropFirstQuote(t) == a;
    }
  }

  /** The length of a cleaned token, by the length of the token and its last quote. */
  lemma CleanLength(t: string, j: nat)
    requires t != [] && t[0] == QUOTE && j < |t| && t[j] == QUOTE
    ensures j - 1 <= |Clean(t)| <= |t| - 1
  {
    RStripKeeps(t, j);
    var m :| j < m <= |t| && RStrip(t) == t[..m];
    assert Strip(t) == t[..m] && t[..m][0] == QUOTE;
  }

  lemma CleanCons(t: string, ts: seq<string>)
    ensures CleanAll([t] + ts) == [Clean(t)] + CleanAll(ts)
  {
    assert ([t] + ts)[1..] == ts;
  }

  lemma ScanToken(t: string, rest: string)
    requires Match(t + rest) == |t| > 0
    ensures Scan(t + rest) == [t] + Scan(rest) && Tokenize(t + rest) == [Clean(t)] + Tokenize(rest)
  {
    assert (t + rest)[..|t|] == t && (t + rest)[|t|..] == rest;
    CleanCons(t, Scan(rest));
  }

  lemma FirstToken(s: string)
    requires Match(s) > 0
    ensures Tokenize(s) != [] && Tokenize(s)[0] == Clean(s[..Match(s)])
  {
    CleanCons(s[..Match(s)], Scan(s[Match(s)..]));
  }

  // ----- one argument

  lemma ArgParses(a: string, rest: string)
    requires AtEnd(rest) && Fine(a, QUOTE in rest)
    ensures Tokenize(Quote(a) + rest) == [a] + Tokenize(rest)
  {
    MatchOfArg(a, rest);
    if Inside(a) == Open {
      OpenParses(a, rest);
    } else {
      ScanToken(Quote(a), rest);
      CleanArg(a);
    }
  }

  lemma OpenParses(a: string, rest: string)
    requires AtEnd(rest) && QUOTE !in rest && EndsWell(a) && Match(Quote(a) + rest) == |a| + 1
    ensures Tokenize(Quote(a) + rest) == [a] + Tokenize(rest)
  {
    var t, u := [QUOTE] + a, [QUOTE] + rest;
    assert Quote(a) + rest == t + u;
    ScanToken(t, u);
    CleanOpen(a);
    LoneQuote(u, rest);
  }

  /** A quote without another one after it is skipped. */
  lemma LoneQuote(u: string, rest: string)
    requires u == [QUOTE] + rest && QUOTE !in rest
    ensures Tokenize(u) == Tokenize(rest)
  {
    assert u[1..] == rest;
    BodyNeedsQuote(rest);
    MatchEnters(u);
  }

  /** An argument that is not fine never is the first token. */
  lemma ArgFails(a: string, rest: string)
    requires AtEnd(rest) && !Fine(a, QUOTE in rest)
    ensures Tokenize(Quote(a) + rest) != [] && Tokenize(Quote(a) + rest)[0] != a
  {
    var s := Quote(a) + rest;
    MatchOfArg(a, rest);
    FirstToken(s);
    var t := s[..Match(s)];
    assert t[0] == QUOTE;
    if Inside(a) == Split {
      CleanLength(t, 0);
    } else if QUOTE in rest {
      var j :| |a| + 1 < j < Match(s) && j < |s| && s[j] == QUOTE;
      CleanLength(t, j);
    } else {
      assert t == [QUOTE] + a;
      CleanOpen(a);
    }
  }

  // ----- words

  lemma {:induction false} WordInside(a: string, rest: string)
    requires Inside(a) == Open && AtEnd(rest)
    ensures var s := a + rest; Body(s).Some? && Entered(s) == |a|
    decreases |a|
  {
    var s := a + rest;
    if a[0] == QUOTE {
      WordTail(a, rest, 1);
      WordOutside(a[1..], rest);
      LeavesQuotes(s);
    } else {
      var k := if a[0] == BACKSLASH && a[1] != '\n' then 2 else 1;
      WordTail(a, rest, k);
      WordInside(a[k..], rest);
      InsideStep(s, a, k);
    }
  }

  lemma WordTail(a: string, rest: string, k: nat)
    requires k <= |a|
    ensures var s := a + rest; s[k..] == a[k..] + rest && s[..|a|] == a && (a != [] ==> s[0] == a[0])
  {
  }

  /** A word whose quotes close, and without a space outside of them, is matched to its end. */
  lemma {:induction false} WordOutside(w: string, rest: string)
    requires Outside(w) == Open && AtEnd(rest)
    ensures Match(w + rest) == |w|
    decreases |w|
  {
    var s := w + rest;
    if w == [] {
      assert s == rest;
    } else {
      assert s[1..] == w[1..] + rest;
      if w[0] == QUOTE {
        WordInside(w[1..], rest);
        MatchEnters(s);
      } else {
        WordOutside(w[1..], rest);
        MatchPlain(s);
      }
    }
  }

  lemma {:induction false} OutsideOfWord(w: string)
    requires QUOTE !in w
    ensures Outside(w) == if ' ' in w then Split else Open
  {
    if w != [] {
      OutsideOfWord(w[1..]);
      assert w == [w[0]] + w[1..];
    }
  }

  lemma {:induction false} LStripPart(s: string)
    ensures forall c :: c in LStrip(s) ==> c in s
  {
    if s != [] && Blank(s[0]) {
      LStripPart(s[1..]);
    }
  }

  lemma {:induction false} RStripPart(s: string)
    ensures forall c :: c in RStrip(s) ==> c in s
  {
    if s != [] && Blank(s[|s| - 1]) {
      RStripPart(s[..|s| - 1]);
    }
  }

  lemma StripOfQuoteFree(w: string)
    requires QUOTE !in w
    ensures Clean(w) == Strip(w) && QUOTE !in Strip(w)
  {
    LStripPart(w);
    RStripPart(LStrip(w));
  }

  lemma CleanHasNoSpace(t: string)
    requires ' ' !in t
    ensures ' ' !in Clean(t)
  {
    LStripPart(t);
    RStripPart(LStrip(t));
  }

  lemma WordParses(w: string, rest: string)
    requires w != [] && Outside(w) == Open && AtEnd(rest)
    ensures Tokenize(w + rest) == [Clean(w)] + Tokenize(rest)
  {
    WordOutside(w, rest);
    ScanToken(w, rest);
  }

  // ----- lengths

  lemma {:induction false} LStripLength(s: string)
    ensures |LStrip(s)| <= |s| && (|LStrip(s)| == |s| ==> LStrip(s) == s)
    ensures LStrip(s) != [] ==> !Blank(LStrip(s)[0])
  {
    if s != [] && Blank(s[0]) {
      LStripLength(s[1..]);
    }
  }

  lemma {:induction false} RStripLength(s: string)
    ensures |RStrip(s)| <= |s| && (|RStrip(s)| == |s| ==> RStrip(s) == s)
    ensures RStrip(s) <= s && (RStrip(s) != [] ==> !Blank(RStrip(s)[|RStrip(s)| - 1]))
  {
    if s != [] && Blank(s[|s| - 1]) {
      RStripLength(s[..|s| - 1]);
    }
  }

  lemma CleanLengths(t: string)
    ensures |Clean(t)| <= |t| && (|Clean(t)| == |t| ==> Clean(t) == t == Strip(t))
    ensures t != [] && t[|t| - 1] == QUOTE ==> |Clean(t)| < |t|
  {
    LStripLength(t);
    RStripLength(LStrip(t));
    if |Clean(t)| == |t| {
      assert Strip(t) == t;
    }
  }

  lemma StripTwice(t: string)
    ensures Strip(Strip(t)) == Strip(t)
  {
    var l := LStrip(t);
    LStripLength(t);
    RStripLength(l);
    var s := RStrip(l);
    if s != [] {
      assert s[0] == l[0];
    }
  }

  /** No token is longer than the text, and one as long is all of it. */
  lemma {:induction false} TokenLengths(s: string)
    ensures forall t :: t in Tokenize(s) ==> |t| < |s| || Tokenize(s) == [s]
    decreases |s|
  {
    if s != [] {
      var n := Match(s);
      if n == 0 {
        TokenLengths(s[1..]);
      } else {
        TokenLengths(s[n..]);
        CleanCons(s[..n], Scan(s[n..]));
        CleanLengths(s[..n]);
        if n == |s| {
          assert s[..n] == s && s[n..] == [];
        }
      }
    }
  }

  /** An argument that is not fine leaves shorter tokens only. */
  lemma UnfineTokens(a: string)
    requires !Fine(a, false)
    ensures forall t :: t in Tokenize(Quote(a)) ==> |t| < |a|
  {
    var s := Quote(a);
    assert s + [] == s;
    MatchOfArg(a, []);
    var n := Match(s);
    assert s == s[..n] + s[n..];
    ScanToken(s[..n], s[n..]);
    if Inside(a) == Open {
      OpenTokens(a, s[..n], s[n..]);
    } else {
      SplitTokens(a, s[..n], s[n..]);
    }
  }

  lemma OpenTokens(a: string, t: string, u: string)
    requires a != [] && !EndsWell(a) && t == [QUOTE] + a && t + u == Quote(a)
    ensures |Clean(t)| < |a| && Tokenize(u) == []
  {
    OpenIsCut(a);
    assert u == (t + u)[|t|..] == [QUOTE] + [];
    LoneQuote(u, []);
  }

  lemma SplitTokens(a: string, t: string, u: string)
    requires t + u == Quote(a) && 2 <= |t| <= |a|
    ensures |Clean(t)| < |a| && forall x :: x in Tokenize(u) ==> |x| < |a|
  {
    assert t[0] == (t + u)[0] == QUOTE && u[|u| - 1] == (t + u)[|a| + 1] == QUOTE;
    CleanLength(t, 0);
    CleanLengths(u);
    NotItself(u);
    TokenLengths(u);
  }

  lemma OpenIsCut(a: string)
    requires a != [] && !EndsWell(a)
    ensures |Clean([QUOTE] + a)| < |a|
  {
    var t := [QUOTE] + a;
    CleanOpen(a);
    CleanLengths(t);
    CleanLength(t, 0);
    assert LStrip(t) == t && t[|t| - 1] == a[|a| - 1];
    RStripLength(t);
    if Blank(a[|a| - 1]) {
      RStripKeeps(t, 0);
      RStripLength(t[..|t| - 1]);
      assert |Strip(t)| <= |a| && Strip(t)[0] == QUOTE;
    } else {
      assert Strip(t) == t && DropFirstQuote(t) == a;
    }
  }

  lemma NotItself(u: string)
    requires u != [] && |Clean(u)| < |u|
    ensures Tokenize(u) != [u]
  {
    TokenLengths(u);
    if Match(u) == |u| {
      assert u[..|u|] == u && u[|u|..] == [];
      CleanCons(u, []);
    } else if Match(u) > 0 {
      FirstToken(u);
      CleanLengths(u[..Match(u)]);
      assert Tokenize(u)[0] != u;
    } else {
      TokenLengths(u[1..]);
    }
  }
}
