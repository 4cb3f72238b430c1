/** The built-in coercion functions: `count`, `listing` and `value`. Values that JavaScript's
    `isNaN` reports as not a number are modelled by `None`. */
module Coercion {
  import opened Strings
  import opened Wrappers
  import Str

  /** `count(value, total)`: the running total increased by `value`, where a total that is not
      a number counts as 0. */
  function Count(value: int, total: Optional<int>): (r: int)
    ensures total.None? ==> r == value
    ensures total.Some? ==> r - value == total.value
  {
    var t := if total.None? then 0 else total.value;
    t + value
  }

  /** The total after `n` applications of `count(1, total)`, starting from `total`. */
  function CountedTimes(n: nat, total: Optional<int>): Optional<int>
  {
    if n == 0 then total else Some(Count(1, CountedTimes(n - 1, total)))
  }

  /** Used as a counter, `count(1, .)` counts: `n` applications starting from a value that is
      not a number give `n`, starting from a number `t` give `t + n`. */
  lemma {:induction false} CountCounts(n: nat, total: Optional<int>)
    ensures n > 0 && total.None? ==> CountedTimes(n, total) == Some(n)
    ensures total.Some? ==> CountedTimes(n, total) == Some(total.value + n)
    decreases n
  {
    if n > 0 {
      CountCounts(n - 1, total);
    }
  }

  /** `s` without its leading spaces. */
  function TrimStart(s: string): (r: string)
    ensures |r| <= |s|
    ensures r == [] || r[0] != ' '
  {
    if s != [] && s[0] == ' ' then TrimStart(s[1..]) else s
  }

  /** `s` without its trailing spaces. */
  function TrimEnd(s: string): (r: string)
    ensures |r| <= |s|
    ensures r == [] || r[|r| - 1] != ' '
  {
    if s != [] && s[|s| - 1] == ' ' then TrimEnd(s[..|s| - 1]) else s
  }

  /** Piece `i` of the comma-separated pieces `parts`, with the spaces that touch a comma
      removed: the leading spaces of every piece but the first, the trailing spaces of every
      piece but the last. */
  function Piece(parts: seq<string>, i: nat): (r: string)
    requires i < |parts|
    ensures forall c :: c in r ==> c in parts[i]
    ensures 0 < i ==> r == [] || r[0] != ' '
    ensures i < |parts| - 1 ==> r == [] || r[|r| - 1] != ' '
  {
    var p := if i > 0 then TrimStart(parts[i]) else parts[i];
    LeadingSpaces(parts[i]);
    assert forall c :: c in p ==> c in parts[i];
    var r := if i < |parts| - 1 then TrimEnd(p) else p;
    TrailingSpaces(p);
    assert forall c :: c in r ==> c in p;
    r
  }

  // `listing(s)`, that is `s.split(/ *, */)`: the text split at each comma together with
  // the runs of spaces on both sides of it.
  function Listing(s: string): (r: seq<string>)
    ensures |r| == Occurrences(s, ',') + 1
    ensures forall i :: 0 <= i < |r| ==> ',' !in r[i]
    // no space that touched a comma is left
    ensures forall i :: 0 < i < |r| ==> r[i] == [] || r[i][0] != ' '
    ensures forall i :: 0 <= i < |r| - 1 ==> r[i] == [] || r[i][|r[i]| - 1] != ' '
  {
    var parts := Split(s, ',');
    var r := seq(|parts|, i requires 0 <= i < |parts| => Piece(parts, i));
    assert forall i :: 0 <= i < |r| ==> r[i] == Piece(parts, i) && ',' !in parts[i];
    r
  }

  /** Text without a comma is one piece, kept as it is. */
  lemma ListingWithoutComma(s: string)
    requires ',' !in s
    ensures Listing(s) == [s]
  {
    SplitWord(s, ',');
  }

  /** Only spaces next to a comma are removed: each piece of the comma split is the listing
      piece with spaces around it, none before the first piece and none after the last. */
  lemma ListingRemovesOnlyCommaSpaces(s: string, i: nat)
    requires i < |Listing(s)|
    ensures exists a: nat, b: nat ::
      && Split(s, ',')[i] == Str.Repeat(" ", a) + Listing(s)[i] + Str.Repeat(" ", b)
      && (i == 0 ==> a == 0)
      && (i == |Listing(s)| - 1 ==> b == 0)
  {
    var a, b := PieceSpaces(Split(s, ','), i);
  }

  /** The spaces a piece loses: `a` in front, `b` behind. */
  lemma PieceSpaces(parts: seq<string>, i: nat) returns (a: nat, b: nat)
    requires i < |parts|
    ensures parts[i] == Str.Repeat(" ", a) + Piece(parts, i) + Str.Repeat(" ", b)
    ensures i == 0 ==> a == 0
    ensures i == |parts| - 1 ==> b == 0
  {
    var p := parts[i];
    var q := p;
    a := 0;
    if i > 0 {
      q := TrimStart(p);
      a := |p| - |q|;
      LeadingSpaces(p);
    } else {
      assert p == Str.Repeat(" ", 0) + q;
    }
    var r := q;
    b := 0;
    if i < |parts| - 1 {
      r := TrimEnd(q);
      b := |q| - |r|;
      TrailingSpaces(q);
    } else {
      assert q == r + Str.Repeat(" ", 0);
    }
    assert r == Piece(parts, i);
    var front, back := Str.Repeat(" ", a), Str.Repeat(" ", b);
    assert p == front + q && q == r + back;
    assert front + (r + back) == front + r + back;
  }

  /** `TrimStart` removes spaces only. */
  lemma {:induction false} LeadingSpaces(s: string)
    ensures s == Str.Repeat(" ", |s| - |TrimStart(s)|) + TrimStart(s)
    decreases |s|
  {
    if s != [] && s[0] == ' ' {
      LeadingSpaces(s[1..]);
      assert s == " " + s[1..];
    }
  }

  /** `TrimEnd` removes spaces only. */
  lemma {:induction false} TrailingSpaces(s: string)
    ensures s == TrimEnd(s) + Str.Repeat(" ", |s| - |TrimEnd(s)|)
    decreases |s|
  {
    if s != [] && s[|s| - 1] == ' ' {
      var t := s[..|s| - 1];
      TrailingSpaces(t);
      RepeatSnoc(|t| - |TrimEnd(t)|);
      assert s == t + " ";
    }
  }

  /** One more space may be written behind the others. */
  lemma {:induction false} RepeatSnoc(n: nat)
    ensures Str.Repeat(" ", n + 1) == Str.Repeat(" ", n) + " "
    decreases n
  {
    if n > 0 {
      RepeatSnoc(n - 1);
    }
  }

  /** The first piece keeps the leading spaces of the text: it starts the text. */
  lemma ListingStartsText(s: string)
    ensures var r := Listing(s); |r[0]| <= |s| && s[..|r[0]|] == r[0]
  {
    var parts := Split(s, ',');
    var r := Listing(s);
    JoinSplit(s, ',');
    JoinPrefixSuffix(parts, ",");
    var a, b := PieceSpaces(parts, 0);
    assert parts[0] == r[0] + Str.Repeat(" ", b);
    assert parts[0][..|r[0]|] == r[0];
  }

  /** The last piece keeps the trailing spaces of the text: it ends the text. */
  lemma ListingEndsText(s: string)
    ensures var r := Listing(s); |r[|r| - 1]| <= |s| && s[|s| - |r[|r| - 1]|..] == r[|r| - 1]
  {
    var parts := Split(s, ',');
    var r := Listing(s);
    JoinSplit(s, ',');
    JoinPrefixSuffix(parts, ",");
    var last := |parts| - 1;
    var a, b := PieceSpaces(parts, last);
    assert parts[last] == Str.Repeat(" ", a) + r[last];
    assert parts[last][|parts[last]| - |r[last]|..] == r[last];
  }

  /** `value(v)`: the value is stored as it is. */
  function Value<T>(v: T): (r: T)
    ensures r == v
  {
    v
  }
}
