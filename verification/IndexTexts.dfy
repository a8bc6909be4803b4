/** The index texts of LREF, LPOP and LSET: decimal numbers, and ranges of two of them. */
module IndexTexts {
  import opened Store

  // ----- printing numbers

  function DigitChar(d: nat): (c: char)
    requires d < 10
    ensures '0' <= c <= '9' && c as int - '0' as int == d
  {
    ('0' as int + d) as char
  }

  function DecimalNat(n: nat): string {
    if n < 10 then [DigitChar(n)] else DecimalNat(n / 10) + [DigitChar(n % 10)]
  }

  /** A number as it is printed. */
  function Decimal(i: int): string {
    if i < 0 then ['-'] + DecimalNat(-i) else DecimalNat(i)
  }

  lemma {:induction false} DigitsRead(n: nat)
    ensures Digits(DecimalNat(n)) && Value10(DecimalNat(n)) == n
  {
    if n >= 10 {
      DigitsRead(n / 10);
      var s := DecimalNat(n);
      assert s[..|s| - 1] == DecimalNat(n / 10);
    } else {
      assert DecimalNat(n)[..0] == [];
    }
  }

  /** A printed number is read as that number, and so it is after a plus sign. */
  lemma DecimalRoundTrip(i: int)
    ensures IsInt(Decimal(i)) && ToInt(Decimal(i)) == i
    ensures i >= 0 ==> IsInt(['+'] + Decimal(i)) && ToInt(['+'] + Decimal(i)) == i
  {
    var n := if i < 0 then -i else i;
    var s := DecimalNat(n);
    DigitsRead(n);
    assert (['-'] + s)[1..] == s && (['+'] + s)[1..] == s;
  }

  // ----- ranges

  lemma {:induction false} NoDots(x: string, from: nat)
    requires '.' !in x && from <= |x|
    ensures DotPieces(x, from) == [x]
    decreases |x| - from
  {
    if from + 2 <= |x| {
      NoDots(x, from + 1);
    }
  }

  lemma {:induction false} FirstPiece(x: string, y: string, from: nat)
    requires '.' !in x && from <= |x|
    ensures DotPieces(x + ".." + y, from) == [x] + DotPieces(y, 0)
    decreases |x| - from
  {
    var s := x + ".." + y;
    if from < |x| {
      assert s[from] == x[from];
      FirstPiece(x, y, from + 1);
    } else {
      assert s[..from] == x && s[from + 2..] == y;
    }
  }

  lemma IntHasNoDot(x: string)
    requires IsInt(x)
    ensures '.' !in x && x != []
  {
    var d := if Signed(x) then x[1..] else x;
    assert forall i :: 0 <= i < |x| ==> x[i] == if Signed(x) && i > 0 then d[i - 1] else x[i];
  }

  lemma DotIsNoInt(x: string, y: string)
    ensures !IsInt(x + ".." + y)
  {
    var s := x + ".." + y;
    assert s[|x|] == '.';
    if IsInt(s) {
      IntHasNoDot(s);
    }
  }

  /** Two numbers with two dots between them are the range from one to the other. */
  lemma SpanOfTexts(x: string, y: string)
    requires IsInt(x) && IsInt(y)
    ensures ParseIndex(x + ".." + y) == Span(ToInt(x), ToInt(y))
  {
    IntHasNoDot(x);
    IntHasNoDot(y);
    DotIsNoInt(x, y);
    FirstPiece(x, y, 0);
    NoDots(y, 0);
    assert [x] + [y] == [x, y];
  }

  /** A printed index or range is the one printed, negative bounds included. */
  lemma IndexRoundTrip(a: int, b: int)
    ensures ParseIndex(Decimal(a)) == At(a) && ParseIndex(Decimal(a) + ".." + Decimal(b)) == Span(a, b)
  {
    DecimalRoundTrip(a);
    DecimalRoundTrip(b);
    SpanOfTexts(Decimal(a), Decimal(b));
  }

  /** Half a range makes the command fail; a word that is no number is rejected, alone or as a first bound. */
  lemma OtherTexts(x: string, y: string)
    requires '.' !in x
    ensures IsInt(x) || x == [] ==> ParseIndex(x + ".." + []) == Failing
    ensures x != [] && !IsInt(x) ==> ParseIndex(x) == Rejected && ParseIndex(x + ".." + y) == Rejected
    ensures IsInt(x) && '.' !in y && y != [] && !IsInt(y) ==> ParseIndex(x + ".." + y) == Rejected
    ensures x == [] ==> ParseIndex(x) == Failing
  {
    DotIsNoInt(x, y);
    DotIsNoInt(x, []);
    FirstPiece(x, y, 0);
    FirstPiece(x, [], 0);
    NoDots(x, 0);
    NoDots([], 0);
    if x != [] {
      FirstKept(x, DotPieces(y, 0));
    }
    if '.' !in y {
      NoDots(y, 0);
      assert [x] + [y] == [x, y];
    }
    EmptiesDropped(x);
  }

  lemma EmptiesDropped(x: string)
    ensures DropEmpty([x] + [[]]) == if x == [] then [] else [x]
  {
    var both := [x] + [[]];
    assert both[..|both| - 1] == [x];
    assert DropEmpty(both) == DropEmpty([x]);
    if x == [] {
      assert [x][..|[x]| - 1] == [];
      assert DropEmpty([x]) == DropEmpty([]);
    }
  }

  lemma {:induction false} FirstKept(x: string, ps: seq<string>)
    requires x != []
    ensures DropEmpty([x] + ps) != [] && DropEmpty([x] + ps)[0] == x
    decreases |ps|
  {
    var all := [x] + ps;
    if ps != [] && all[|all| - 1] == [] {
      FirstKept(x, ps[..|ps| - 1]);
      assert all[..|all| - 1] == [x] + ps[..|ps| - 1];
    }
  }
}
