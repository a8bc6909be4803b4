/** Lines of bare words and quoted arguments, and exactly which of them parse back. */
module Queries {
  import opened Options
  import opened Tokenizer

  // ----- lines

  /** A quote is printed: around an argument, or in a word. */
  predicate HasQuote(items: seq<Item>) {
    exists j :: 0 <= j < |items| && (items[j].Arg? || QUOTE in items[j].text)
  }

  predicate PlainWords(items: seq<Item>) {
    forall j :: 0 <= j < |items| && items[j].Word? ==> Plain(items[j].text)
  }

  /** Every argument is fine where it stands. */
  predicate Unambiguous(items: seq<Item>) {
    items == [] || ((items[0].Arg? ==> Fine(items[0].text, HasQuote(items[1..]))) && Unambiguous(items[1..]))
  }

  /** What follows the first item in print. */
  function Rest(items: seq<Item>): string
    requires items != []
  {
    if |items| == 1 then [] else [' '] + Print(items[1..])
  }

  lemma PrintSplit(items: seq<Item>)
    requires items != []
    ensures Print(items) == Show(items[0]) + Rest(items) && AtEnd(Rest(items))
    ensures Tokenize(Rest(items)) == Tokenize(Print(items[1..]))
  {
    if |items| == 1 {
      assert items[1..] == [];
    } else {
      assert ([' '] + Print(items[1..]))[1..] == Print(items[1..]);
    }
  }

  lemma {:induction false} QuotesInPrint(items: seq<Item>)
    ensures QUOTE in Print(items) <==> HasQuote(items)
  {
    if items != [] {
      QuotesInPrint(items[1..]);
      HasQuoteCons(items);
      if items[0].Arg? {
        assert Show(items[0])[0] == QUOTE;
      }
    }
  }

  lemma HasQuoteCons(items: seq<Item>)
    requires items != []
    ensures HasQuote(items) <==> items[0].Arg? || QUOTE in items[0].text || HasQuote(items[1..])
  {
    var tail := items[1..];
    assert forall j :: 1 <= j < |items| ==> items[j] == tail[j - 1];
    if HasQuote(tail) {
      var j :| 0 <= j < |tail| && (tail[j].Arg? || QUOTE in tail[j].text);
      assert items[j + 1] == tail[j];
    }
  }

  lemma RestQuotes(items: seq<Item>)
    requires items != []
    ensures QUOTE in Rest(items) <==> HasQuote(items[1..])
  {
    QuotesInPrint(items[1..]);
  }

  lemma TextsCons(items: seq<Item>)
    requires items != []
    ensures Texts(items) == [items[0].text] + Texts(items[1..])
  {
  }

  lemma PlainTail(items: seq<Item>)
    requires items != [] && PlainWords(items)
    ensures PlainWords(items[1..])
  {
  }

  /** An item that is fine is the first token, and the rest of the line follows. */
  lemma FirstParses(items: seq<Item>)
    requires items != []
    requires if items[0].Word? then Plain(items[0].text) else Fine(items[0].text, HasQuote(items[1..]))
    ensures Tokenize(Print(items)) == [items[0].text] + Tokenize(Print(items[1..]))
  {
    PrintSplit(items);
    if items[0].Word? {
      WordParses(items[0].text, Rest(items));
    } else {
      RestQuotes(items);
      ArgParses(items[0].text, Rest(items));
    }
  }

  lemma {:induction false} ParsesBack(items: seq<Item>)
    requires PlainWords(items) && Unambiguous(items)
    ensures Tokenize(Print(items)) == Texts(items)
  {
    if items != [] {
      PlainTail(items);
      ParsesBack(items[1..]);
      FirstParses(items);
      TextsCons(items);
    }
  }

  /** Being a prefix, one item at a time. */
  lemma PrefixCons(t: string, a: seq<string>, u: string, b: seq<string>)
    ensures [t] + a <= [u] + b <==> t == u && a <= b
  {
    if [t] + a <= [u] + b {
      assert ([t] + a)[0] == ([u] + b)[0];
      assert a == ([t] + a)[1..] && b == ([u] + b)[1..];
      assert forall i :: 0 <= i < |a| ==> a[i] == ([t] + a)[i + 1] == ([u] + b)[i + 1] == b[i];
    }
  }

  lemma {:induction false} ParsesWrong(items: seq<Item>)
    requires PlainWords(items) && !Unambiguous(items)
    ensures !(Texts(items) <= Tokenize(Print(items)))
  {
    PlainTail(items);
    TextsCons(items);
    if items[0].Word? || Fine(items[0].text, HasQuote(items[1..])) {
      ParsesWrong(items[1..]);
      FirstParses(items);
      PrefixCons(items[0].text, Texts(items[1..]), items[0].text, Tokenize(Print(items[1..])));
    } else {
      PrintSplit(items);
      RestQuotes(items);
      ArgFails(items[0].text, Rest(items));
    }
  }

  /**
   Plain words and any arguments: the line parses back, or even has its items as its first
   tokens, exactly if every argument is fine where it stands.
   */
  lemma ParsesBackIff(items: seq<Item>)
    requires PlainWords(items)
    ensures Tokenize(Print(items)) == Texts(items) <==> Unambiguous(items)
    ensures Texts(items) <= Tokenize(Print(items)) <==> Unambiguous(items)
  {
    if Unambiguous(items) {
      ParsesBack(items);
    } else {
      ParsesWrong(items);
    }
  }

  // ----- words, then arguments

  function Line(ws: seq<string>, qs: seq<string>): (r: seq<Item>)
    ensures |r| == |ws| + |qs|
    ensures forall i :: 0 <= i < |r| ==> r[i] == if i < |ws| then Word(ws[i]) else Arg(qs[i - |ws|])
  {
    seq(|ws| + |qs|, i requires 0 <= i < |ws| + |qs| => if i < |ws| then Word(ws[i]) else Arg(qs[i - |ws|]))
  }

  lemma LineTail(ws: seq<string>, qs: seq<string>)
    ensures ws != [] ==> Line(ws, qs)[1..] == Line(ws[1..], qs)
    ensures ws == [] && qs != [] ==> Line(ws, qs)[1..] == Line([], qs[1..])
    ensures Texts(Line(ws, qs)) == ws + qs
  {
  }

  predicate QuoteFree(ws: seq<string>) {
    forall i :: 0 <= i < |ws| ==> QUOTE !in ws[i]
  }

  /** Every quote of the argument is escaped. */
  predicate Escaped(a: string) {
    Inside(a) == Tidy || Inside(a) == Dangling
  }

  predicate AllEscaped(qs: seq<string>) {
    forall i :: 0 <= i < |qs| ==> Escaped(qs[i])
  }

  /** A word without quotes, or one whose quotes close before any space. */
  predicate Balanced(w: string) {
    QUOTE !in w || Outside(w) == Open
  }

  predicate AllBalanced(ws: seq<string>) {
    forall i :: 0 <= i < |ws| ==> Balanced(ws[i])
  }

  lemma {:induction false} QuoteFreeIsEscaped(a: string)
    requires QUOTE !in a
    ensures Escaped(a)
    decreases |a|
  {
    if a != [] {
      QuoteFreeIsEscaped(a[1..]);
      if |a| > 1 {
        QuoteFreeIsEscaped(a[2..]);
      }
    }
  }

  lemma HasQuoteArgs(qs: seq<string>)
    ensures HasQuote(Line([], qs)) <==> qs != []
  {
    if qs != [] {
      assert Line([], qs)[0].Arg?;
    }
  }

  /** The first token of a line of arguments. */
  lemma FirstArg(qs: seq<string>)
    requires qs != []
    ensures Fine(qs[0], |qs| > 1) ==> Tokenize(Print(Line([], qs))) == [qs[0]] + Tokenize(Print(Line([], qs[1..])))
    ensures !Fine(qs[0], |qs| > 1) ==> Tokenize(Print(Line([], qs))) != [] && Tokenize(Print(Line([], qs)))[0] != qs[0]
  {
    var items := Line([], qs);
    LineTail([], qs);
    HasQuoteArgs(qs[1..]);
    if Fine(qs[0], |qs| > 1) {
      FirstParses(items);
    } else {
      PrintSplit(items);
      RestQuotes(items);
      ArgFails(qs[0], Rest(items));
    }
  }

  /** A quote between two others is still there after cleaning. */
  lemma InnerQuoteStays(t: string, i: nat, j: nat)
    requires 0 < i < j < |t| && t[0] == t[i] == t[j] == QUOTE
    ensures QUOTE in Clean(t)
  {
    RStripKeeps(t, j);
    var m :| j < m <= |t| && RStrip(t) == t[..m];
    var u := t[..m];
    assert Strip(t) == u && u[0] == QUOTE;
    var v := u[1..];
    assert v[i - 1] == QUOTE && i - 1 < |v| - 1;
    var w := DropLastQuote(v);
    assert w[i - 1] == QUOTE;
  }

  /** A dangling argument that is followed by another swallows its closing quote. */
  lemma DanglingSwallows(a: string, rest: string)
    requires AtEnd(rest) && Inside(a) == Dangling && QUOTE in rest
    ensures Tokenize(Quote(a) + rest) != [] && QUOTE in Tokenize(Quote(a) + rest)[0]
  {
    var s := Quote(a) + rest;
    MatchOfArg(a, rest);
    FirstToken(s);
    var j :| |a| + 1 < j < Match(s) && j < |s| && s[j] == QUOTE;
    assert s[|a| + 1] == QUOTE;
    InnerQuoteStays(s[..Match(s)], |a| + 1, j);
  }

  lemma DanglingFirst(qs: seq<string>)
    requires |qs| > 1 && Inside(qs[0]) == Dangling
    ensures Tokenize(Print(Line([], qs))) != [] && QUOTE in Tokenize(Print(Line([], qs)))[0]
  {
    var items := Line([], qs);
    LineTail([], qs);
    HasQuoteArgs(qs[1..]);
    PrintSplit(items);
    RestQuotes(items);
    DanglingSwallows(qs[0], Rest(items));
  }

  /** Tokens never shift: no line of escaped arguments starts with other words and then all of itself. */
  lemma {:induction false} NoRotation(xs: seq<string>, qs: seq<string>)
    requires xs != [] && AllEscaped(qs) && (|qs| <= 1 || QuoteFree(xs))
    ensures !(xs + qs <= Tokenize(Print(Line([], qs))))
    decreases |qs|
  {
    if qs == [] {
      assert Print(Line([], qs)) == [];
    } else if |qs| == 1 {
      OnlyArg(qs);
    } else if Inside(qs[0]) == Tidy && qs[0] != xs[0] {
      FirstArg(qs);
      assert (xs + qs)[0] == xs[0];
    } else if Inside(qs[0]) == Tidy {
      FirstArg(qs);
      MoveOver(xs, qs);
      NoRotation(xs[1..] + [qs[0]], qs[1..]);
      Rotate(xs, qs, Tokenize(Print(Line([], qs))), Tokenize(Print(Line([], qs[1..]))));
    } else {
      DanglingFirst(qs);
      assert (xs + qs)[0] == xs[0];
    }
  }

  lemma MoveOver(xs: seq<string>, qs: seq<string>)
    requires xs != [] && QuoteFree(xs) && qs != [] && qs[0] == xs[0] && AllEscaped(qs)
    ensures QuoteFree(xs[1..] + [qs[0]]) && AllEscaped(qs[1..])
  {
  }

  lemma Rotate(xs: seq<string>, qs: seq<string>, ts: seq<string>, ts': seq<string>)
    requires xs != [] && qs != [] && ts == [qs[0]] + ts' && !((xs[1..] + [qs[0]]) + qs[1..] <= ts')
    ensures !(xs + qs <= ts)
  {
    var more := (xs[1..] + [qs[0]]) + qs[1..];
    assert xs + qs == [xs[0]] + more;
    PrefixCons(xs[0], more, qs[0], ts');
  }

  lemma OnlyArg(qs: seq<string>)
    requires |qs| == 1 && Escaped(qs[0])
    ensures |Tokenize(Print(Line([], qs)))| == 1
  {
    FirstArg(qs);
    assert Print(Line([], qs[1..])) == [];
  }

  // ----- the tokens of words without quotes

  lemma {:induction false} MatchPrefix(w: string, rest: string)
    requires QUOTE !in w && AtEnd(rest)
    ensures Match(w + rest) == Match(w) && ' ' !in w[..Match(w)]
    decreases |w|
  {
    if w == [] {
      assert w + rest == rest;
    } else if w[0] != ' ' {
      assert (w + rest)[1..] == w[1..] + rest;
      MatchPrefix(w[1..], rest);
      assert w[..Match(w)] == [w[0]] + w[1..][..Match(w[1..])];
    }
  }

  lemma SkipsSpace(s: string)
    requires s != [] && s[0] == ' '
    ensures Tokenize(s) == Tokenize(s[1..])
  {
  }

  lemma {:induction false} QuoteFreeConcat(w: string, rest: string)
    requires QUOTE !in w && AtEnd(rest)
    ensures Tokenize(w + rest) == Tokenize(w) + Tokenize(rest)
    decreases |w|
  {
    if w == [] {
      assert w + rest == rest;
    } else {
      var n := Match(w);
      MatchPrefix(w, rest);
      if w[0] == ' ' {
        QuoteFreeConcat(w[1..], rest);
        assert (w + rest)[1..] == w[1..] + rest;
        SkipsSpace(w);
        SkipsSpace(w + rest);
      } else {
        MatchPlain(w);
        QuoteFreeConcat(w[n..], rest);
        SliceOfConcat(w, rest, n);
        TokenStep(w, n);
        TokenStep(w + rest, n);
        Regroup([Clean(w[..n])], Tokenize(w[n..]), Tokenize(rest));
      }
    }
  }

  lemma TokenStep(s: string, n: nat)
    requires Match(s) == n > 0
    ensures Tokenize(s) == [Clean(s[..n])] + Tokenize(s[n..])
  {
    CleanCons(s[..n], Scan(s[n..]));
  }

  lemma SliceOfConcat(w: string, rest: string, n: nat)
    requires n <= |w|
    ensures (w + rest)[..n] == w[..n] && (w + rest)[n..] == w[n..] + rest
  {
  }

  lemma {:induction false} TokensHaveNoSpace(w: string)
    requires QUOTE !in w
    ensures forall t :: t in Tokenize(w) ==> ' ' !in t
    decreases |w|
  {
    if w != [] {
      var n := Match(w);
      if n == 0 {
        TokensHaveNoSpace(w[1..]);
      } else {
        var t, u := w[..n], w[n..];
        MatchPrefix(w, []);
        CleanHasNoSpace(t);
        TokensHaveNoSpace(u);
        assert w == t + u;
        ScanToken(t, u);
      }
    }
  }

  lemma PieceIsPlain(t: string)
    requires QUOTE !in t && ' ' !in t
    ensures (Clean(t) == [] || Plain(Clean(t))) && QUOTE !in Clean(t)
  {
    var s := Clean(t);
    StripOfQuoteFree(t);
    CleanHasNoSpace(t);
    StripTwice(t);
    StripOfQuoteFree(s);
    OutsideOfWord(s);
  }

  /** The tokens of a word without quotes are plain, or empty where a piece was all blanks. */
  lemma {:induction false} TokensArePlain(w: string)
    requires QUOTE !in w
    ensures forall t :: t in Tokenize(w) ==> (t == [] || Plain(t)) && QUOTE !in t
    decreases |w|
  {
    if w != [] {
      var n := Match(w);
      if n == 0 {
        TokensArePlain(w[1..]);
      } else {
        var t, u := w[..n], w[n..];
        MatchPrefix(w, []);
        PieceIsPlain(t);
        TokensArePlain(u);
        assert w == t + u;
        ScanToken(t, u);
      }
    }
  }

  /** The tokens of a word are its own, whatever comes after it. */
  lemma TokensConcat(w: string, rest: string)
    requires Balanced(w) && AtEnd(rest)
    ensures Tokenize(w + rest) == Tokenize(w) + Tokenize(rest)
  {
    if QUOTE !in w {
      QuoteFreeConcat(w, rest);
    } else {
      WordParses(w, rest);
      OneToken(w);
    }
  }

  /** A word that closes its quotes and has no space outside of them is one token, or none if it is empty. */
  lemma OneToken(w: string)
    requires Outside(w) == Open
    ensures Tokenize(w) == if w == [] then [] else [Clean(w)]
  {
    if w != [] {
      WordParses(w, []);
      assert w + [] == w;
    }
  }

  /** A word stands for itself exactly when it is plain; a word of spaces is no token. */
  lemma WordIff(w: string)
    requires Balanced(w)
    ensures Tokenize(w) == [w] <==> Plain(w)
    ensures Tokenize(w) != [] && Tokenize(w)[0] == w ==> Plain(w)
  {
    if Outside(w) == Open {
      OneToken(w);
    } else {
      OutsideOfWord(w);
      TokensHaveNoSpace(w);
      assert Tokenize(w) != [] ==> Tokenize(w)[0] in Tokenize(w);
    }
  }

  /** A word of several tokens has a space, and they have none. */
  lemma ManyTokens(w: string)
    requires Balanced(w) && |Tokenize(w)| > 1
    ensures w !in Tokenize(w)
  {
    if Outside(w) == Open {
      OneToken(w);
    } else {
      OutsideOfWord(w);
      TokensHaveNoSpace(w);
    }
  }

  lemma LineHead(ws: seq<string>, qs: seq<string>)
    requires ws != [] && Balanced(ws[0])
    ensures Tokenize(Print(Line(ws, qs))) == Tokenize(ws[0]) + Tokenize(Print(Line(ws[1..], qs)))
  {
    var items := Line(ws, qs);
    LineTail(ws, qs);
    PrintSplit(items);
    TokensConcat(ws[0], Rest(items));
  }

  lemma Regroup(a: seq<string>, b: seq<string>, c: seq<string>)
    ensures a + (b + c) == (a + b) + c
  {
  }

  /** Words put before a line cannot be made up for by the words and arguments of the line. */
  lemma {:induction false} NoShift(xs: seq<string>, ws: seq<string>, qs: seq<string>)
    requires xs != [] && AllBalanced(ws) && AllEscaped(qs) && (|qs| <= 1 || (QuoteFree(xs) && QuoteFree(ws)))
    ensures !(xs + (ws + qs) <= Tokenize(Print(Line(ws, qs))))
    decreases |ws|
  {
    if ws == [] {
      NoRotation(xs, qs);
      assert ws + qs == qs;
    } else {
      var ts, rest := Tokenize(ws[0]), Tokenize(Print(Line(ws[1..], qs)));
      LineHead(ws, qs);
      if |ts| > |xs| {
        ManyTokens(ws[0]);
        OtherToken(xs, ws + qs, ts, rest);
      } else {
        NoShift(xs[|ts|..] + [ws[0]], ws[1..], qs);
        ShiftOne(xs, ws, qs, ts, rest);
      }
    }
  }

  lemma OtherToken(xs: seq<string>, ys: seq<string>, ts: seq<string>, rest: seq<string>)
    requires |ts| > |xs| && ys != []
    ensures xs + ys <= ts + rest ==> ys[0] in ts
  {
    if xs + ys <= ts + rest {
      assert (xs + ys)[|xs|] == ys[0] && (ts + rest)[|xs|] == ts[|xs|];
    }
  }

  lemma ShiftOne(xs: seq<string>, ws: seq<string>, qs: seq<string>, ts: seq<string>, rest: seq<string>)
    requires ws != [] && |ts| <= |xs|
    ensures xs + (ws + qs) <= ts + rest ==> (xs[|ts|..] + [ws[0]]) + (ws[1..] + qs) <= rest
  {
    if xs + (ws + qs) <= ts + rest {
      var more := (xs[|ts|..] + [ws[0]]) + (ws[1..] + qs);
      assert xs + (ws + qs) == xs[..|ts|] + more;
      assert forall i :: 0 <= i < |more| ==> more[i] == (xs + (ws + qs))[|ts| + i] == (ts + rest)[|ts| + i] == rest[i];
    }
  }

  ghost predicate AllPlain(ws: seq<string>) {
    forall i :: 0 <= i < |ws| ==> Plain(ws[i])
  }

  lemma AllPlainCons(ws: seq<string>)
    requires ws != []
    ensures AllPlain(ws) <==> Plain(ws[0]) && AllPlain(ws[1..])
  {
    assert forall i :: 1 <= i < |ws| ==> ws[i] == ws[1..][i - 1];
  }

  /** After a word that is not plain no word holds quotes. */
  ghost predicate QuietAfter(ws: seq<string>) {
    forall i, j :: 0 <= i < j < |ws| && !Plain(ws[i]) ==> QUOTE !in ws[j]
  }

  lemma QuietTail(ws: seq<string>)
    requires ws != [] && QuietAfter(ws)
    ensures QuietAfter(ws[1..]) && (!Plain(ws[0]) ==> QuoteFree(ws[1..]))
  {
    var tail := ws[1..];
    assert forall i :: 0 <= i < |tail| ==> tail[i] == ws[i + 1];
  }

  lemma FirstWordLost(ws: seq<string>, qs: seq<string>)
    requires AllBalanced(ws) && AllEscaped(qs) && ws != [] && !Plain(ws[0])
    requires |qs| <= 1 || QuoteFree(ws[1..])
    ensures !([ws[0]] + (ws[1..] + qs) <= Tokenize(Print(Line(ws, qs))))
  {
    var w, tail := ws[0], ws[1..];
    LineHead(ws, qs);
    WordIff(w);
    if Tokenize(w) == [] {
      assert QUOTE !in w by {
        if QUOTE in w {
          OneToken(w);
        }
      }
      NoShift([w], tail, qs);
      NothingBefore(Tokenize(Print(Line(tail, qs))));
    } else {
      OtherFirst(w, tail + qs, Tokenize(w), Tokenize(Print(Line(tail, qs))));
    }
  }

  lemma LaterWordLost(ws: seq<string>, qs: seq<string>)
    requires ws != [] && Plain(ws[0]) && !(ws[1..] + qs <= Tokenize(Print(Line(ws[1..], qs))))
    ensures !([ws[0]] + (ws[1..] + qs) <= Tokenize(Print(Line(ws, qs))))
  {
    LineHead(ws, qs);
    WordIff(ws[0]);
    PrefixCons(ws[0], ws[1..] + qs, ws[0], Tokenize(Print(Line(ws[1..], qs))));
  }

  /** A word that is not plain is lost, wherever it stands. */
  lemma {:induction false} BadWord(ws: seq<string>, qs: seq<string>)
    requires AllBalanced(ws) && AllEscaped(qs) && !AllPlain(ws) && (|qs| <= 1 || QuietAfter(ws))
    ensures !(ws + qs <= Tokenize(Print(Line(ws, qs))))
  {
    AllPlainCons(ws);
    if |qs| > 1 {
      QuietTail(ws);
    }
    if Plain(ws[0]) {
      BadWord(ws[1..], qs);
      LaterWordLost(ws, qs);
    } else {
      FirstWordLost(ws, qs);
    }
    assert ws + qs == [ws[0]] + (ws[1..] + qs);
  }

  lemma NothingBefore(ts: seq<string>)
    ensures [] + ts == ts
  {
  }

  lemma OtherFirst(w: string, a: seq<string>, ts: seq<string>, us: seq<string>)
    requires ts != [] && ts[0] != w
    ensures !([w] + a <= ts + us)
  {
    assert ([w] + a)[0] == w && (ts + us)[0] == ts[0];
  }

  /** Every argument is fine, the last one with none after it. */
  predicate AllFine(qs: seq<string>) {
    forall i :: 0 <= i < |qs| ==> Fine(qs[i], i < |qs| - 1)
  }

  lemma {:induction false} LineUnambiguous(ws: seq<string>, qs: seq<string>)
    ensures Unambiguous(Line(ws, qs)) <==> AllFine(qs)
    decreases |ws| + |qs|
  {
    var items := Line(ws, qs);
    LineTail(ws, qs);
    if ws != [] {
      LineUnambiguous(ws[1..], qs);
    } else if qs != [] {
      LineUnambiguous([], qs[1..]);
      HasQuoteArgs(qs[1..]);
      var tail := qs[1..];
      assert forall i :: 1 <= i < |qs| ==> qs[i] == tail[i - 1];
      assert forall i :: 0 <= i < |tail| ==> tail[i] == qs[i + 1];
    }
  }

  /**
   Words, then arguments: the line parses back exactly if every word is plain and every
   argument fine where it stands. The arguments may be anything if the words are plain. If
   they have their quotes escaped, the words may be any that close the quotes they open; with
   several arguments, none of those after a word that is not plain holds quotes.
   */
  lemma LineIff(ws: seq<string>, qs: seq<string>)
    requires AllPlain(ws) || (AllBalanced(ws) && AllEscaped(qs) && (|qs| <= 1 || QuietAfter(ws)))
    ensures ws + qs <= Tokenize(Print(Line(ws, qs))) <==> AllPlain(ws) && AllFine(qs)
    ensures ws + qs <= Tokenize(Print(Line(ws, qs))) ==> Tokenize(Print(Line(ws, qs))) == ws + qs
  {
    LineTail(ws, qs);
    if AllPlain(ws) {
      ParsesBackIff(Line(ws, qs));
      LineUnambiguous(ws, qs);
    } else {
      BadWord(ws, qs);
    }
  }

  /** XQL.parse of a query of plain words and arguments that are fine. */
  lemma QueryParsesBack(ws: seq<string>, qs: seq<string>, upcase: string -> string)
    requires ws != [] && AllPlain(ws) && AllFine(qs)
    ensures Parse(Print(Line(ws, qs)), upcase) == Some((upcase(ws[0]), ws[1..] + qs))
  {
    LineIff(ws, qs);
    assert (ws + qs)[1..] == ws[1..] + qs;
  }

  // ----- in plain characters

  lemma StripKeeps(w: string)
    requires w != []
    ensures Strip(w) == w <==> !Blank(w[0]) && !Blank(w[|w| - 1])
  {
    var l := LStrip(w);
    LStripLength(w);
    RStripLength(l);
    if !Blank(w[0]) && !Blank(w[|w| - 1]) {
      assert l == w && RStrip(w) == w;
    }
  }

  /** A word without quotes is plain exactly if it has no space and no white character or NUL at either end. */
  lemma PlainIff(w: string)
    requires '"' !in w
    ensures Plain(w) <==>
      && w != [] && ' ' !in w
      && w[0] !in "\t\n\r\U{0B}\U{0C}\0" && w[|w| - 1] !in "\t\n\r\U{0B}\U{0C}\0"
  {
    if w != [] {
      OutsideOfWord(w);
      StripOfQuoteFree(w);
      StripKeeps(w);
    }
  }

  /** A word, a space and an argument between quotes are read as the word and the argument. */
  lemma WordAndArg(w: string, a: string)
    requires Plain(w) && Fine(a, false)
    ensures Tokenize(w + " \"" + a + "\"") == [w, a]
  {
    var items := Line([w], [a]);
    assert items == [Word(w), Arg(a)] && items[1..] == [Arg(a)] && items[2..] == [];
    assert Print(items[1..]) == Quote(a);
    assert w + ([' '] + Quote(a)) == w + " \"" + a + "\"";
    LineIff([w], [a]);
    assert [w] + [a] == [w, a];
  }

  lemma {:induction false} CalmInside(x: string, rest: string)
    requires '"' !in x && '\\' !in x
    ensures Inside(x + rest) == Inside(rest)
  {
    if x == [] {
      assert x + rest == rest;
    } else {
      assert (x + rest)[1..] == x[1..] + rest;
      CalmInside(x[1..], rest);
    }
  }

  /** A quote after a backslash is part of the argument, and the backslash stays. */
  lemma EscapedQuoteStays(w: string, x: string, y: string)
    requires Plain(w) && '"' !in x + y && '\\' !in x + y
    ensures Tokenize(w + " \"" + (x + "\\\"" + y) + "\"") == [w, x + "\\\"" + y]
  {
    var e := "\\\"" + y;
    CalmInside(x, e);
    assert e[2..] == y;
    CalmInside(y, []);
    assert y + [] == y;
    assert x + "\\\"" + y == x + e;
    WordAndArg(w, x + "\\\"" + y);
  }
}
