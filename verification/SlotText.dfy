/** The slots of a node as the text that survives a restart (cluster.rb, localnode.rb). */
module SlotText {
  import opened Options
  import Store

  const COLON: char := ':'

  /** Array#join(':'). */
  function Join(xs: seq<string>): string {
    if xs == [] then [] else if |xs| == 1 then xs[0] else xs[0] + [COLON] + Join(xs[1..])
  }

  function ColonPieces(s: string): (r: seq<string>)
    ensures |r| > 0
  {
    if s == [] then [[]]
    else
      var ps := ColonPieces(s[1..]);
      if s[0] == COLON then [[]] + ps else [[s[0]] + ps[0]] + ps[1..]
  }

  /** String#split(':'), which drops empty pieces at the end. */
  function Split(s: string): seq<string> {
    Store.DropEmpty(ColonPieces(s))
  }

  /** Slot numbers are neither empty nor do they hold a colon. */
  predicate Numbers(xs: seq<string>) {
    forall i :: 0 <= i < |xs| ==> xs[i] != [] && COLON !in xs[i]
  }

  /** migrate: the text of the slots that are left, if any. */
  function TextOf(slots: seq<string>): Option<string> {
    if slots == [] then None else Some(Join(slots))
  }

  /** Cluster#add_slots: the new slots go before the old text. */
  function TextAfter(text: Option<string>, more: seq<string>): Option<string> {
    if text.Some? then Some(Join(more) + [COLON] + text.value) else Some(Join(more))
  }

  /** LocalNode#initialize. */
  function Loaded(text: Option<string>): seq<string> {
    if text.Some? then Split(text.value) else []
  }

  lemma {:induction false} PiecesOfWord(x: string, rest: string)
    requires COLON !in x
    ensures ColonPieces(x + [COLON] + rest) == [x] + ColonPieces(rest)
    ensures ColonPieces(x) == [x]
  {
    if x == [] {
      assert x + [COLON] + rest == [COLON] + rest;
      assert ([COLON] + rest)[1..] == rest;
    } else {
      PiecesOfWord(x[1..], rest);
      assert (x + [COLON] + rest)[1..] == x[1..] + [COLON] + rest;
      assert [x[0]] + x[1..] == x;
    }
  }

  lemma {:induction false} PiecesOfJoin(xs: seq<string>)
    requires Numbers(xs) && xs != []
    ensures ColonPieces(Join(xs)) == xs
  {
    PiecesOfWord(xs[0], Join(xs[1..]));
    if |xs| > 1 {
      PiecesOfJoin(xs[1..]);
      assert xs == [xs[0]] + xs[1..];
    }
  }

  /** A restarted node has the slots whose text was written. */
  lemma SplitOfJoin(xs: seq<string>)
    requires Numbers(xs)
    ensures Split(Join(xs)) == xs && (|xs| > 1 ==> Join(xs) == xs[0] + ":" + Join(xs[1..]))
  {
    if xs == [] {
      assert ColonPieces([]) == [[]];
      assert Store.DropEmpty([[]]) == Store.DropEmpty([[]][..0]);
    } else {
      PiecesOfJoin(xs);
    }
  }

  lemma {:induction false} JoinAppends(xs: seq<string>, ys: seq<string>)
    requires xs != [] && ys != []
    ensures Join(xs) + [COLON] + Join(ys) == Join(xs + ys)
  {
    if |xs| == 1 {
      assert (xs + ys)[1..] == ys;
    } else {
      JoinAppends(xs[1..], ys);
      assert (xs + ys)[1..] == xs[1..] + ys;
      assert Join(xs) + [COLON] + Join(ys) == xs[0] + [COLON] + (Join(xs[1..]) + [COLON] + Join(ys));
    }
  }

  /** Adding no slots to a node that has some leaves an empty slot name in the text. */
  lemma AddingNone(had: seq<string>)
    requires Numbers(had) && had != []
    ensures Loaded(TextAfter(TextOf(had), [])) == [[]] + had
  {
    var s := Join([]) + [COLON] + Join(had);
    assert s == [] + [COLON] + Join(had);
    PiecesOfWord([], Join(had));
    PiecesOfJoin(had);
    assert Store.DropEmpty([[]] + had) == [[]] + had;
  }

  /** The text after add_slots loads as exactly the old and new slots, unless no slots were added to some. */
  lemma LoadedAfterAddIff(had: seq<string>, more: seq<string>)
    requires Numbers(had) && Numbers(more)
    ensures Loaded(TextAfter(TextOf(had), more)) == more + had <==> more != [] || had == []
  {
    if had == [] {
      SplitOfJoin(more);
      assert more + had == more;
    } else if more == [] {
      AddingNone(had);
      assert |[[]] + had| != |more + had|;
    } else {
      JoinAppends(more, had);
      SplitOfJoin(more + had);
    }
  }
}
