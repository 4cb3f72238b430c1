/** The JavaScript string and array built-ins the parser relies on, as functions on
    sequences: `split` on a one-character separator, `join`, and `indexOf`.
    Strings are sequences of characters. */
module Strings {

  /** Number of occurrences of `c` in `s`. */
  function Occurrences(s: string, c: char): nat
  {
    if s == [] then 0 else (if s[0] == c then 1 else 0) + Occurrences(s[1..], c)
  }

  /** `s.split(c)`: the pieces between the occurrences of `c`, one more piece than
      there are separators, none of them holding the separator. */
  function Split(s: string, c: char): (r: seq<string>)
    ensures |r| == Occurrences(s, c) + 1
    ensures forall i :: 0 <= i < |r| ==> c !in r[i]
    decreases |s|
  {
    if s == [] then [""]
    else
      var tail := Split(s[1..], c);
      if s[0] == c then [""] + tail
      else [[s[0]] + tail[0]] + tail[1..]
  }

  /** The total length of the pieces of a list. */
  function TotalLength(ws: seq<string>): nat
  {
    if ws == [] then 0 else |ws[0]| + TotalLength(ws[1..])
  }

  /** `ws.join(sep)`; the empty list joins to the empty string. The result holds every piece
      and one separator between each two. */
  function Join(ws: seq<string>, sep: string): (r: string)
    ensures ws == [] ==> r == ""
    ensures ws != [] ==> |r| == TotalLength(ws) + (|ws| - 1) * |sep|
  {
    if ws == [] then ""
    else if |ws| == 1 then ws[0]
    else ws[0] + sep + Join(ws[1..], sep)
  }

  /** The pieces of a list, one after the other. */
  function Flatten<T>(xss: seq<seq<T>>): seq<T>
  {
    if xss == [] then [] else xss[0] + Flatten(xss[1..])
  }

  /** `xs.indexOf(x)`: the first position of `x`, or -1 when `x` does not occur. */
  function IndexOf<T(==)>(xs: seq<T>, x: T): (r: int)
    ensures -1 <= r < |xs|
    ensures r == -1 <==> x !in xs
    ensures r >= 0 ==> xs[r] == x && x !in xs[..r]
  {
    if xs == [] then -1
    else if xs[0] == x then 0
    else
      var k := IndexOf(xs[1..], x);
      if k < 0 then -1 else k + 1
  }

  /** A word free of the separator, followed by the separator, splits off as a first piece. */
  lemma {:induction false} SplitAfterWord(w: string, c: char, t: string)
    requires c !in w
    ensures Split(w + [c] + t, c) == [w] + Split(t, c)
    decreases |w|
  {
    if w == [] {
      assert w + [c] + t == [c] + t;
      assert ([c] + t)[1..] == t;
    } else {
      assert (w + [c] + t)[1..] == w[1..] + [c] + t;
      SplitAfterWord(w[1..], c, t);
      assert [w[0]] + w[1..] == w;
    }
  }

  /** A word free of the separator splits to itself. */
  lemma {:induction false} SplitWord(w: string, c: char)
    requires c !in w
    ensures Split(w, c) == [w]
    decreases |w|
  {
    if w != [] {
      SplitWord(w[1..], c);
      assert [w[0]] + w[1..] == w;
    }
  }

  /** Splitting undoes joining with the separator, for pieces free of it. */
  lemma {:induction false} SplitJoin(ws: seq<string>, c: char)
    requires |ws| >= 1
    requires forall i :: 0 <= i < |ws| ==> c !in ws[i]
    ensures Split(Join(ws, [c]), c) == ws
    decreases |ws|
  {
    if |ws| == 1 {
      SplitWord(ws[0], c);
    } else {
      SplitJoin(ws[1..], c);
      SplitAfterWord(ws[0], c, Join(ws[1..], [c]));
      assert [ws[0]] + ws[1..] == ws;
    }
  }

  /** Joining with the separator undoes splitting. */
  lemma {:induction false} JoinSplit(s: string, c: char)
    ensures Join(Split(s, c), [c]) == s
    decreases |s|
  {
    if s != [] {
      JoinSplit(s[1..], c);
      var tail := Split(s[1..], c);
      if s[0] == c {
        assert Join([""] + tail, [c]) == "" + [c] + Join(tail, [c]);
        assert [s[0]] + s[1..] == s;
      } else {
        var r := [[s[0]] + tail[0]] + tail[1..];
        if |tail| == 1 {
          assert Join(r, [c]) == [s[0]] + tail[0];
          assert Join(tail, [c]) == tail[0];
        } else {
          assert r[1..] == tail[1..];
          assert Join(r, [c]) == [s[0]] + tail[0] + [c] + Join(tail[1..], [c]);
          assert Join(tail, [c]) == tail[0] + [c] + Join(tail[1..], [c]);
        }
        assert [s[0]] + s[1..] == s;
      }
    }
  }

  /** Joining a list extended by one more piece adds the separator and that piece. */
  lemma {:induction false} JoinSnoc(ws: seq<string>, w: string, sep: string)
    requires |ws| >= 1
    ensures Join(ws + [w], sep) == Join(ws, sep) + sep + w
    decreases |ws|
  {
    if |ws| == 1 {
      assert (ws + [w])[1..] == [w];
    } else {
      assert (ws + [w])[1..] == ws[1..] + [w];
      JoinSnoc(ws[1..], w, sep);
    }
  }

  /** Joining two non-empty lists is joining each and putting the separator between. */
  lemma {:induction false} JoinAppend(xs: seq<string>, ys: seq<string>, sep: string)
    requires |xs| >= 1 && |ys| >= 1
    ensures Join(xs + ys, sep) == Join(xs, sep) + sep + Join(ys, sep)
    decreases |xs|
  {
    if |xs| == 1 {
      assert (xs + ys)[1..] == ys;
    } else {
      assert (xs + ys)[1..] == xs[1..] + ys;
      JoinAppend(xs[1..], ys, sep);
    }
  }

  /** Flattening a list extended by one more piece appends that piece. */
  lemma {:induction false} FlattenSnoc<T>(xss: seq<seq<T>>, xs: seq<T>)
    ensures Flatten(xss + [xs]) == Flatten(xss) + xs
    decreases |xss|
  {
    if xss == [] {
      assert [] + [xs] == [xs];
    } else {
      assert (xss + [xs])[1..] == xss[1..] + [xs];
      FlattenSnoc(xss[1..], xs);
    }
  }

  /** Joining with the empty separator writes the pieces one after the other. */
  lemma {:induction false} JoinEmptyFlattens(ws: seq<string>)
    ensures Join(ws, "") == Flatten(ws)
    decreases |ws|
  {
    if |ws| == 1 {
      assert Flatten(ws) == ws[0] + Flatten(ws[1..]);
    } else if ws != [] {
      JoinEmptyFlattens(ws[1..]);
    }
  }

  /** The first piece of a join starts it and the last piece ends it. */
  lemma {:induction false} JoinPrefixSuffix(ws: seq<string>, sep: string)
    requires |ws| >= 1
    ensures |ws[0]| <= |Join(ws, sep)| && Join(ws, sep)[..|ws[0]|] == ws[0]
    ensures |ws[|ws| - 1]| <= |Join(ws, sep)|
    ensures Join(ws, sep)[|Join(ws, sep)| - |ws[|ws| - 1]|..] == ws[|ws| - 1]
    decreases |ws|
  {
    if |ws| > 1 {
      JoinPrefixSuffix(ws[1..], sep);
      var rest := Join(ws[1..], sep);
      assert Join(ws, sep) == ws[0] + sep + rest;
      assert (ws[0] + sep + rest)[|ws[0] + sep + rest| - |ws[|ws| - 1]|..] == rest[|rest| - |ws[|ws| - 1]|..];
    }
  }
}
