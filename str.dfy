/** The string helpers of the help system: `repeat` and the greedy line filler `wordwrap`. */
module Str {
  import opened Strings

  /** `repeat(s, n)`: `s` written `n` times in a row. */
  function Repeat(s: string, n: nat): (r: string)
    ensures |r| == n * |s|
  {
    if n == 0 then "" else s + Repeat(s, n - 1)
  }

  /** The source builds the repetition as `new Array(n + 1).join(s)`: the separator
      `s` between `n + 1` empty strings. That is the same string. */
  lemma {:induction false} RepeatIsJoinOfEmpties(s: string, n: nat)
    ensures Join(seq(n + 1, _ => ""), s) == Repeat(s, n)
    decreases n
  {
    if n > 0 {
      RepeatIsJoinOfEmpties(s, n - 1);
      assert seq(n + 1, _ => "")[1..] == seq(n, _ => "");
    }
  }

  /** Repeating a one-character string gives that character at every position. */
  lemma {:induction false} RepeatChar(c: char, n: nat)
    ensures forall i :: 0 <= i < |Repeat([c], n)| ==> Repeat([c], n)[i] == c
    decreases n
  {
    if n > 0 {
      RepeatChar(c, n - 1);
    }
  }

  /** The text of an output line between its `start` columns of indentation and its final
      space: the words of the line separated by single spaces. */
  function LineText(line: string, start: nat): string
  {
    if start < |line| then line[start..|line| - 1] else ""
  }

  /** The words a `wordwrap` output line holds. */
  function LineWords(line: string, start: nat): (r: seq<string>)
    ensures |r| >= 1
  {
    Split(LineText(line, start), ' ')
  }

  /** The words of all output lines, in line order. */
  function AllWords(lines: seq<string>, start: nat): seq<string>
  {
    if lines == [] then [] else LineWords(lines[0], start) + AllWords(lines[1..], start)
  }

  /** An output line laid out from its words: indentation, the words separated by single
      spaces, one trailing space. */
  function Layout(prefix: string, words: seq<string>): string
  {
    prefix + Join(words, " ") + " "
  }

  lemma LayoutWords(start: nat, words: seq<string>)
    requires |words| >= 1
    requires forall i :: 0 <= i < |words| ==> ' ' !in words[i]
    ensures LineWords(Layout(Repeat(" ", start), words), start) == words
  {
    var line := Layout(Repeat(" ", start), words);
    assert LineText(line, start) == Join(words, " ");
    SplitJoin(words, ' ');
  }

  lemma {:induction false} AllWordsOfLayouts(lines: seq<string>, groups: seq<seq<string>>, start: nat)
    requires |lines| == |groups|
    requires forall k :: 0 <= k < |lines| ==> LineWords(lines[k], start) == groups[k]
    ensures AllWords(lines, start) == Flatten(groups)
    decreases |lines|
  {
    if lines != [] {
      AllWordsOfLayouts(lines[1..], groups[1..], start);
    }
  }

  /** No word holds a space. */
  ghost predicate SpaceFree(words: seq<string>)
  {
    forall j :: 0 <= j < |words| ==> ' ' !in words[j]
  }

  /** The emitted lines `ret` are the layouts of the non-empty word groups `groups`; a line
      past the margin holds one word; each line was closed because the next group's first
      word did not fit. */
  ghost predicate Closed(prefix: string, stop: int, ret: seq<string>, groups: seq<seq<string>>)
  {
    && |ret| == |groups|
    && (forall k :: 0 <= k < |ret| ==> groups[k] != [] && SpaceFree(groups[k]) && ret[k] == Layout(prefix, groups[k]))
    && (forall k :: 0 <= k < |ret| && |ret[k]| > stop + 1 ==> |groups[k]| == 1)
    && (forall k :: 0 <= k < |ret| - 1 ==> |ret[k]| + |groups[k + 1][0]| > stop)
  }

  /** Emitting the current line keeps the emitted lines closed. */
  lemma CloseLine(prefix: string, stop: int, ret: seq<string>, groups: seq<seq<string>>, current: seq<string>)
    requires Closed(prefix, stop, ret, groups)
    requires current != [] && SpaceFree(current)
    requires |Layout(prefix, current)| > stop + 1 ==> |current| == 1
    requires |ret| > 0 ==> |ret[|ret| - 1]| + |current[0]| > stop
    ensures Closed(prefix, stop, ret + [Layout(prefix, current)], groups + [current])
  {
  }

  /** Appending a word and a space to a laid-out line lays out the line with that word added. */
  lemma AppendWord(prefix: string, current: seq<string>, w: string)
    requires current != []
    ensures Layout(prefix, current) + w + " " == Layout(prefix, current + [w])
  {
    JoinSnoc(current, w, " ");
  }

  /** The indentation, a word and a space lay out a line holding that word. */
  lemma FirstWord(prefix: string, w: string)
    ensures prefix + w + " " == Layout(prefix, [w])
  {
  }

  /** Closed lines laid out with the indentation of `start` columns state the contract of
      `WrapLines` about their words. */
  lemma ClosedLines(start: nat, stop: int, lines: seq<string>, groups: seq<seq<string>>)
    requires Closed(Repeat(" ", start), stop, lines, groups)
    ensures forall k :: 0 <= k < |lines| ==> LineWords(lines[k], start) == groups[k]
    ensures AllWords(lines, start) == Flatten(groups)
  {
    forall k | 0 <= k < |lines|
      ensures LineWords(lines[k], start) == groups[k]
    {
      LayoutWords(start, groups[k]);
    }
    AllWordsOfLayouts(lines, groups, start);
  }

  /** The state of the line-filling loop after the first `i` words: the emitted lines are
      closed, the buffer lays out the current (non-empty) group of words, and the groups with
      the current one hold the first `i` words in order. */
  ghost predicate Filling(words: seq<string>, prefix: string, stop: int, i: nat,
                          buffer: string, ret: seq<string>, groups: seq<seq<string>>, current: seq<string>)
  {
    && i <= |words|
    && Closed(prefix, stop, ret, groups)
    && Flatten(groups) + current == words[..i]
    && OpenLine(prefix, stop, i, buffer, ret, groups, current)
  }

  /** The line being filled: empty before the first word, otherwise the layout of its
      (non-empty) group of words, past the margin only with a single word, and started
      because its first word did not fit on the line emitted before it. */
  ghost predicate OpenLine(prefix: string, stop: int, i: nat,
                           buffer: string, ret: seq<string>, groups: seq<seq<string>>, current: seq<string>)
  {
    && (i == 0 ==> buffer == prefix && current == [] && groups == [])
    && (i > 0 ==> current != [] && SpaceFree(current) && buffer == Layout(prefix, current))
    && (i > 0 && |buffer| > stop + 1 ==> |current| == 1)
    && (|ret| > 0 && current != [] ==> |ret[|ret| - 1]| + |current[0]| > stop)
  }

  /** A word that fits, or that comes to an empty line, joins the current line and keeps
      `Filling`. */
  lemma FillJoin(words: seq<string>, prefix: string, stop: int, i: nat,
                 buffer: string, ret: seq<string>, groups: seq<seq<string>>, current: seq<string>)
    requires SpaceFree(words) && i < |words|
    requires Filling(words, prefix, stop, i, buffer, ret, groups, current)
    requires |buffer| + |words[i]| <= stop || |buffer| == |prefix|
    ensures Filling(words, prefix, stop, i + 1, buffer + words[i] + " ", ret, groups, current + [words[i]])
  {
    var w := words[i];
    assert ' ' !in w;
    assert words[..i + 1] == words[..i] + [w];
    if i == 0 {
      FirstWord(prefix, w);
    } else {
      AppendWord(prefix, current, w);
    }
    assert Flatten(groups) + (current + [w]) == words[..i + 1];
  }

  /** A word that does not fit closes the current line and starts the next one, keeping
      `Filling`. */
  lemma FillBreak(words: seq<string>, prefix: string, stop: int, i: nat,
                  buffer: string, ret: seq<string>, groups: seq<seq<string>>, current: seq<string>)
    requires SpaceFree(words) && i < |words|
    requires Filling(words, prefix, stop, i, buffer, ret, groups, current)
    requires !(|buffer| + |words[i]| <= stop || |buffer| == |prefix|)
    ensures Filling(words, prefix, stop, i + 1, prefix + words[i] + " ", ret + [buffer], groups + [current], [words[i]])
  {
    var w := words[i];
    assert ' ' !in w;
    assert words[..i + 1] == words[..i] + [w];
    CloseLine(prefix, stop, ret, groups, current);
    FlattenSnoc(groups, current);
    FirstWord(prefix, w);
  }

  /** After the last word the buffer is emitted as the final line. */
  lemma FillDone(words: seq<string>, prefix: string, stop: int,
                 buffer: string, ret: seq<string>, groups: seq<seq<string>>, current: seq<string>)
    requires words != []
    requires Filling(words, prefix, stop, |words|, buffer, ret, groups, current)
    ensures Closed(prefix, stop, ret + [buffer], groups + [current])
    ensures Flatten(groups + [current]) == words
    ensures |buffer| > |prefix|
  {
    CloseLine(prefix, stop, ret, groups, current);
    FlattenSnoc(groups, current);
    assert words[..|words|] == words;
  }

  /** The line-filling loop of `wordwrap` over the words of the text: a word goes on the
      current line while the line stays within `stop` columns (the first word always does),
      otherwise the line is emitted and a new one begins with the word. `groups` are the
      words of each emitted line. */
  method FillLines(words: seq<string>, prefix: string, stop: int)
    returns (lines: seq<string>, ghost groups: seq<seq<string>>)
    requires words != [] && SpaceFree(words)
    ensures |lines| >= 1
    ensures Closed(prefix, stop, lines, groups)
    ensures Flatten(groups) == words
  {
    var buffer := prefix;
    var len := |buffer|;
    var ret: seq<string> := [];
    groups := [];
    ghost var current: seq<string> := [];
    for i := 0 to |words|
      invariant Filling(words, prefix, stop, i, buffer, ret, groups, current)
    {
      if |buffer| + |words[i]| <= stop || |buffer| == len {
        FillJoin(words, prefix, stop, i, buffer, ret, groups, current);
        buffer := buffer + words[i] + " ";
        current := current + [words[i]];
      } else {
        FillBreak(words, prefix, stop, i, buffer, ret, groups, current);
        ret := ret + [buffer];
        groups := groups + [current];
        buffer := prefix + words[i] + " ";
        current := [words[i]];
      }
    }
    FillDone(words, prefix, stop, buffer, ret, groups, current);
    // `wordwrap` emits the last buffer only when it is longer than the indentation; there is
    // always at least one word, so it always is (`FillDone`).
    lines := ret + [buffer];
    groups := groups + [current];
  }

  /** `wordwrap` before its final join: the text is split on single spaces and the words are
      filled into lines indented by `start` spaces. */
  method WrapLines(text: string, start: nat, stop: int) returns (lines: seq<string>)
    ensures |lines| >= 1
    // each line is the indentation, its words separated by single spaces, and one space
    ensures forall k :: 0 <= k < |lines| ==>
      lines[k] == Layout(Repeat(" ", start), LineWords(lines[k], start))
    // the lines hold exactly the words of the text, in order
    ensures AllWords(lines, start) == Split(text, ' ')
    // only a line holding a single word may run past the right margin
    ensures forall k :: 0 <= k < |lines| && |lines[k]| > stop + 1 ==> |LineWords(lines[k], start)| == 1
    // greedy: a line is closed only because the next word did not fit on it
    ensures forall k :: 0 <= k < |lines| - 1 ==> |lines[k]| + |LineWords(lines[k + 1], start)[0]| > stop
  {
    var words := Split(text, ' ');
    ghost var groups;
    lines, groups := FillLines(words, Repeat(" ", start), stop);
    ClosedLines(start, stop, lines, groups);
  }

  /** `wordwrap(text, start, stop)`: the lines of `WrapLines` joined by line feeds. */
  method WordWrap(text: string, start: nat, stop: int) returns (r: string, ghost lines: seq<string>)
    ensures |lines| >= 1 && r == Join(lines, "\n")
    ensures AllWords(lines, start) == Split(text, ' ')
    ensures forall k :: 0 <= k < |lines| ==>
      lines[k] == Layout(Repeat(" ", start), LineWords(lines[k], start))
    ensures forall k :: 0 <= k < |lines| && |lines[k]| > stop + 1 ==> |LineWords(lines[k], start)| == 1
    ensures forall k :: 0 <= k < |lines| - 1 ==> |lines[k]| + |LineWords(lines[k + 1], start)[0]| > stop
  {
    var ls := WrapLines(text, start, stop);
    lines := ls;
    r := Join(ls, "\n");
  }
}
