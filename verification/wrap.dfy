/**
  `wrap_text`: the greedy word wrap used for the body of a slide. The font's
  measurement (`draw.textbbox`) is an abstract `width` on strings; a candidate
  line is measured with its `*` highlight delimiters removed.
 */
module Wrap {
  import opened Text

  /** The width the renderer would report for `line`, `*` delimiters excluded. */
  function Measure(width: string -> int, line: string): int
  {
    width(RemoveAll(line, "*"))
  }

  /** All the words of a list of lines, in order. */
  function Flatten(groups: seq<seq<string>>): seq<string>
  {
    if groups == [] then [] else groups[0] + Flatten(groups[1..])
  }

  lemma {:induction false} FlattenSnoc(groups: seq<seq<string>>, g: seq<string>)
    ensures Flatten(groups + [g]) == Flatten(groups) + g
    decreases |groups|
  {
    if groups == [] {
      assert Flatten([g]) == g + Flatten([]);
    } else {
      FlattenSnoc(groups[1..], g);
      assert (groups + [g])[1..] == groups[1..] + [g];
    }
  }

  /**
    Lines built from non-empty word lists, joined with single spaces, give the
    same text as the words joined with single spaces: breaking a line only turns
    a space into a line break.
   */
  lemma {:induction false} RejoinLines(lines: seq<string>, groups: seq<seq<string>>)
    requires |lines| == |groups| > 0
    requires forall i :: 0 <= i < |groups| ==> groups[i] != [] && lines[i] == Join(" ", groups[i])
    ensures Join(" ", lines) == Join(" ", Flatten(groups))
    decreases |groups|
  {
    if |groups| == 1 {
      assert groups[1..] == [];
      assert Flatten(groups) == groups[0] + Flatten([]) == groups[0];
      assert Join(" ", lines) == lines[0];
    } else {
      RejoinLines(lines[1..], groups[1..]);
      assert Flatten(groups[1..]) != [] by {
        assert Flatten(groups[1..]) == groups[1] + Flatten(groups[2..]);
      }
      JoinAppend(" ", groups[0], Flatten(groups[1..]));
    }
  }

  /** `next` begins with a word that would have overflowed the line `g`. */
  ghost predicate Overflows(width: string -> int, maxWidth: int, g: seq<string>, next: seq<string>)
  {
    next != [] && Measure(width, Join(" ", g + [next[0]])) > maxWidth
  }

  /** Every line after the first starts with a word that did not fit on the line before it. */
  ghost predicate Greedy(width: string -> int, maxWidth: int, groups: seq<seq<string>>)
  {
    forall i :: 0 < i < |groups| ==> Overflows(width, maxWidth, groups[i - 1], groups[i])
  }

  /** `lines[i]` is `' '.join(groups[i])`. */
  ghost predicate Joined(lines: seq<string>, groups: seq<seq<string>>)
  {
    |lines| == |groups| && forall i :: 0 <= i < |lines| ==> lines[i] == Join(" ", groups[i])
  }

  /**
    Every test the loop made while a line grew passed: each prefix of two or
    more words of a line fits.
   */
  ghost predicate Fits(width: string -> int, maxWidth: int, groups: seq<seq<string>>)
  {
    forall i, j :: 0 <= i < |groups| && 2 <= j <= |groups[i]| ==>
      Measure(width, Join(" ", groups[i][..j])) <= maxWidth
  }

  /** No word contains a space. */
  ghost predicate Spaceless(groups: seq<seq<string>>)
  {
    forall i, j :: 0 <= i < |groups| && 0 <= j < |groups[i]| ==> ' ' !in groups[i][j]
  }

  /**
    `groups` is the greedy wrap of `words`: the words in order, an empty first
    line exactly when the first word alone is too wide, no other empty line,
    every tested prefix fitting, and every line break forced by an overflow.
   */
  ghost predicate GreedyWrap(width: string -> int, maxWidth: int, words: seq<string>, groups: seq<seq<string>>)
    requires |words| >= 1
  {
    |groups| >= 1 &&
    Flatten(groups) == words &&
    (groups[0] == [] <==> Measure(width, words[0]) > maxWidth) &&
    (forall i :: 0 < i < |groups| ==> groups[i] != []) &&
    Fits(width, maxWidth, groups) &&
    Greedy(width, maxWidth, groups)
  }

  /**
    The state of the wrap loop after the first `k` words: the finished lines
    `lines` (word lists `groups`) and the words of the line being built.
   */
  ghost predicate WrapState(width: string -> int, maxWidth: int, words: seq<string>, k: nat,
                            lines: seq<string>, groups: seq<seq<string>>, current: seq<string>)
  {
    k <= |words| && |groups| <= k &&
    Joined(lines, groups) &&
    Flatten(groups) + current == words[..k] &&
    (k > 0 <==> current != []) &&
    Spaceless(groups + [current]) &&
    (forall i :: 0 <= i < |groups| && groups[i] == [] ==> i == 0 && Measure(width, words[0]) > maxWidth) &&
    (k > 0 && Measure(width, words[0]) > maxWidth ==> groups != [] && groups[0] == []) &&
    Fits(width, maxWidth, groups + [current]) &&
    Greedy(width, maxWidth, groups + [current])
  }

  /** The next word fits on the current line, which grows by it. */
  lemma ExtendLine(width: string -> int, maxWidth: int, words: seq<string>, k: nat,
                   lines: seq<string>, groups: seq<seq<string>>, current: seq<string>)
    requires WrapState(width, maxWidth, words, k, lines, groups, current) && k < |words|
    requires ' ' !in words[k]
    requires Measure(width, Join(" ", current + [words[k]])) <= maxWidth
    ensures WrapState(width, maxWidth, words, k + 1, lines, groups, current + [words[k]])
  {
    var next := current + [words[k]];
    assert words[..k + 1] == words[..k] + [words[k]];
    assert k == 0 ==> current == [] && next == [words[0]] && Join(" ", next) == words[0];
    FitsExtend(width, maxWidth, groups, current, words[k]);
    GreedyExtend(width, maxWidth, groups, current, words[k]);
    SpacelessExtend(groups, current, words[k]);
  }

  /** Growing the last line by a word whose test passed keeps every test passed. */
  lemma FitsExtend(width: string -> int, maxWidth: int, groups: seq<seq<string>>, current: seq<string>, w: string)
    requires Fits(width, maxWidth, groups + [current])
    requires Measure(width, Join(" ", current + [w])) <= maxWidth
    ensures Fits(width, maxWidth, groups + [current + [w]])
  {
    var before, after := groups + [current], groups + [current + [w]];
    forall i, j | 0 <= i < |after| && 2 <= j <= |after[i]|
      ensures Measure(width, Join(" ", after[i][..j])) <= maxWidth
    {
      if i < |groups| {
        assert after[i] == before[i];
      } else if j <= |current| {
        assert after[i][..j] == before[i][..j];
      } else {
        assert after[i][..j] == current + [w];
      }
    }
  }

  /** Growing the last line keeps its first word, so every break stays forced. */
  lemma GreedyExtend(width: string -> int, maxWidth: int, groups: seq<seq<string>>, current: seq<string>, w: string)
    requires Greedy(width, maxWidth, groups + [current])
    requires groups != [] ==> current != []
    ensures Greedy(width, maxWidth, groups + [current + [w]])
  {
    var before, after := groups + [current], groups + [current + [w]];
    forall i | 0 < i < |after| ensures Overflows(width, maxWidth, after[i - 1], after[i]) {
      assert Overflows(width, maxWidth, before[i - 1], before[i]);
      if i < |groups| {
        assert after[i - 1] == before[i - 1] && after[i] == before[i];
      } else {
        assert after[i - 1] == before[i - 1] && after[i][0] == before[i][0];
      }
    }
  }

  lemma SpacelessExtend(groups: seq<seq<string>>, current: seq<string>, w: string)
    requires Spaceless(groups + [current]) && ' ' !in w
    ensures Spaceless(groups + [current + [w]])
  {
    var before, after := groups + [current], groups + [current + [w]];
    forall i, j | 0 <= i < |after| && 0 <= j < |after[i]| ensures ' ' !in after[i][j] {
      if i < |groups| {
        assert after[i] == before[i];
      } else if j < |current| {
        assert after[i][j] == before[i][j];
      }
    }
  }

  /** The next word overflows: the current line is finished and the word starts a new one. */
  lemma BreakLine(width: string -> int, maxWidth: int, words: seq<string>, k: nat,
                  lines: seq<string>, groups: seq<seq<string>>, current: seq<string>)
    requires WrapState(width, maxWidth, words, k, lines, groups, current) && k < |words|
    requires ' ' !in words[k]
    requires Measure(width, Join(" ", current + [words[k]])) > maxWidth
    ensures WrapState(width, maxWidth, words, k + 1, lines + [Join(" ", current)],
                      groups + [current], [words[k]])
  {
    var w := words[k];
    var groups', lines' := groups + [current], lines + [Join(" ", current)];
    FlattenSnoc(groups, current);
    assert words[..k + 1] == words[..k] + [w];
    JoinedSnoc(lines, groups, current);
    SpacelessSnoc(groups + [current], [w]);
    assert current == [] ==> k == 0 && Join(" ", current + [w]) == words[0];
    assert groups != [] ==> groups'[0] == groups[0];
    forall i | 0 <= i < |groups'| && groups'[i] == []
      ensures i == 0 && Measure(width, words[0]) > maxWidth
    {
      if i < |groups| {
        assert groups'[i] == groups[i];
      }
    }
    FitsSnoc(width, maxWidth, groups', w);
    GreedySnoc(width, maxWidth, groups', [w]);
  }

  lemma JoinedSnoc(lines: seq<string>, groups: seq<seq<string>>, g: seq<string>)
    requires Joined(lines, groups)
    ensures Joined(lines + [Join(" ", g)], groups + [g])
  {
    var lines', groups' := lines + [Join(" ", g)], groups + [g];
    forall i | 0 <= i < |lines'| ensures lines'[i] == Join(" ", groups'[i]) {
      if i < |lines| {
        assert lines'[i] == lines[i] && groups'[i] == groups[i];
      }
    }
  }

  lemma SpacelessSnoc(groups: seq<seq<string>>, g: seq<string>)
    requires Spaceless(groups)
    requires forall j :: 0 <= j < |g| ==> ' ' !in g[j]
    ensures Spaceless(groups + [g])
  {
    var all := groups + [g];
    forall i, j | 0 <= i < |all| && 0 <= j < |all[i]| ensures ' ' !in all[i][j] {
      if i < |groups| {
        assert all[i] == groups[i];
      }
    }
  }

  /** A new line of one word has no test to pass. */
  lemma FitsSnoc(width: string -> int, maxWidth: int, groups: seq<seq<string>>, w: string)
    requires Fits(width, maxWidth, groups)
    ensures Fits(width, maxWidth, groups + [[w]])
  {
    var all := groups + [[w]];
    forall i, j | 0 <= i < |all| && 2 <= j <= |all[i]|
      ensures Measure(width, Join(" ", all[i][..j])) <= maxWidth
    {
      assert i < |groups|;
      assert all[i] == groups[i];
    }
  }

  /** A new line that starts with an overflowing word keeps the lines greedy. */
  lemma GreedySnoc(width: string -> int, maxWidth: int, groups: seq<seq<string>>, g: seq<string>)
    requires |groups| > 0 && Greedy(width, maxWidth, groups)
    requires Overflows(width, maxWidth, groups[|groups| - 1], g)
    ensures Greedy(width, maxWidth, groups + [g])
  {
    var all := groups + [g];
    forall i | 0 < i < |all| ensures Overflows(width, maxWidth, all[i - 1], all[i]) {
      if i < |groups| {
        assert all[i - 1] == groups[i - 1] && all[i] == groups[i];
      } else {
        assert all[i - 1] == groups[|groups| - 1] && all[i] == g;
      }
    }
  }

  /** After the last word, appending the line being built completes a greedy wrap. */
  lemma WrapFinish(width: string -> int, maxWidth: int, words: seq<string>,
                   lines: seq<string>, groups: seq<seq<string>>, current: seq<string>)
    requires |words| >= 1
    requires WrapState(width, maxWidth, words, |words|, lines, groups, current)
    ensures Joined(lines + [Join(" ", current)], groups + [current])
    ensures GreedyWrap(width, maxWidth, words, groups + [current])
    ensures Spaceless(groups + [current])
    ensures |groups + [current]| <= |words| + 1
  {
    var all := groups + [current];
    FlattenSnoc(groups, current);
    assert words[..|words|] == words;
    JoinedSnoc(lines, groups, current);
    assert all[0] == (if groups == [] then current else groups[0]);
    forall i | 0 < i < |all| ensures all[i] != [] {
      if i < |groups| {
        assert all[i] == groups[i];
      }
    }
  }

  /** Each line of words, split again at its spaces, gives its words back. */
  lemma LinesSplit(lines: seq<string>, groups: seq<seq<string>>)
    requires Joined(lines, groups) && Spaceless(groups)
    ensures forall i :: 0 <= i < |groups| && groups[i] != [] ==> Split(lines[i], " ") == groups[i]
  {
    forall i | 0 <= i < |groups| && groups[i] != [] ensures Split(lines[i], " ") == groups[i] {
      assert forall j :: 0 <= j < |groups[i]| ==> ' ' !in groups[i][j];
      SplitJoin(groups[i], ' ');
    }
  }

  /** A line of two or more words fits, as the last test made on it passed. */
  lemma LinesFit(width: string -> int, maxWidth: int, lines: seq<string>, groups: seq<seq<string>>)
    requires Joined(lines, groups) && Fits(width, maxWidth, groups)
    ensures forall i :: 0 <= i < |lines| && |groups[i]| >= 2 ==> Measure(width, lines[i]) <= maxWidth
  {
    forall i | 0 <= i < |lines| && |groups[i]| >= 2 ensures Measure(width, lines[i]) <= maxWidth {
      assert groups[i][..|groups[i]|] == groups[i];
    }
  }

  /** Space-joining the lines gives the text back, once a leading empty line is dropped. */
  lemma WrapRejoin(text: string, lines: seq<string>, groups: seq<seq<string>>)
    requires Joined(lines, groups) && |groups| > 0
    requires Flatten(groups) == Split(text, " ")
    requires forall i :: 0 < i < |groups| ==> groups[i] != []
    ensures groups[0] != [] ==> Join(" ", lines) == text
    ensures groups[0] == [] ==> |lines| >= 2 && Join(" ", lines[1..]) == text
  {
    JoinSplit(text, " ");
    if groups[0] != [] {
      RejoinLines(lines, groups);
    } else {
      var ls, gs := lines[1..], groups[1..];
      FlattenCons(groups);
      assert Flatten(groups) == [] + Flatten(gs) == Flatten(gs);
      forall i | 0 <= i < |gs| ensures gs[i] != [] && ls[i] == Join(" ", gs[i]) {
        assert gs[i] == groups[i + 1] && ls[i] == lines[i + 1];
      }
      RejoinLines(ls, gs);
    }
  }

  /**
    The wrap loop. `groups[i]` (ghost) is the list of words that `' '.join`
    turns into `lines[i]`.
   */
  method WrapText(text: string, width: string -> int, maxWidth: int)
    returns (lines: seq<string>, ghost groups: seq<seq<string>>)
    // shape: one word list per line, every word kept, in order, none split
    ensures Joined(lines, groups)
    ensures 1 <= |lines| <= |Split(text, " ")| + 1
    ensures forall i :: 0 <= i < |groups| && groups[i] != [] ==> Split(lines[i], " ") == groups[i]
    // the greedy wrap, which `WrapUnique` shows to be the only one
    ensures GreedyWrap(width, maxWidth, Split(text, " "), groups)
    // width bound: a line of two or more words fits
    ensures forall i :: 0 <= i < |lines| && |groups[i]| >= 2 ==> Measure(width, lines[i]) <= maxWidth
    // undoing the wrap: the lines joined by spaces are the text again
    ensures groups[0] != [] ==> Join(" ", lines) == text
    ensures groups[0] == [] ==> |lines| >= 2 && Join(" ", lines[1..]) == text
  {
    var words := Split(text, " ");
    SplitOmits(text, ' ');
    lines, groups := [], [];
    var current: seq<string> := [];
    for k := 0 to |words|
      invariant WrapState(width, maxWidth, words, k, lines, groups, current)
    {
      var word := words[k];
      ghost var before := current;
      current := current + [word];
      var testLine := RemoveAll(Join(" ", current), "*");
      var w := width(testLine);
      if w > maxWidth {
        BreakLine(width, maxWidth, words, k, lines, groups, before);
        current := current[..|current| - 1];
        assert current == before;
        lines := lines + [Join(" ", current)];
        groups := groups + [current];
        current := [word];
      } else {
        ExtendLine(width, maxWidth, words, k, lines, groups, before);
      }
    }
    WrapFinish(width, maxWidth, words, lines, groups, current);
    lines := lines + [Join(" ", current)];
    groups := groups + [current];
    LinesSplit(lines, groups);
    LinesFit(width, maxWidth, lines, groups);
    WrapRejoin(text, lines, groups);
  }

  // ---------------------------------------------------------------------------
  // The greedy wrap is unique

  /**
    There is only one greedy wrap of a word list: the contract of `WrapText`
    determines its lines completely.
   */
  lemma WrapUnique(width: string -> int, maxWidth: int, words: seq<string>, g1: seq<seq<string>>, g2: seq<seq<string>>)
    requires |words| >= 1
    requires GreedyWrap(width, maxWidth, words, g1) && GreedyWrap(width, maxWidth, words, g2)
    ensures g1 == g2
  {
    if g1[0] == [] {
      assert g2[0] == [];
      FlattenCons(g1);
      FlattenCons(g2);
      assert Flatten(g1[1..]) == words == Flatten(g2[1..]);
      GreedyTail(width, maxWidth, g1);
      GreedyTail(width, maxWidth, g2);
      FitsTail(width, maxWidth, g1);
      FitsTail(width, maxWidth, g2);
      assert forall i :: 0 <= i < |g1[1..]| ==> g1[1..][i] == g1[i + 1];
      assert forall i :: 0 <= i < |g2[1..]| ==> g2[1..][i] == g2[i + 1];
      NonEmptyUnique(width, maxWidth, g1[1..], g2[1..]);
      assert g1 == [g1[0]] + g1[1..] && g2 == [g2[0]] + g2[1..];
    } else {
      assert g2[0] != [];
      NonEmptyUnique(width, maxWidth, g1, g2);
    }
  }

  /** Greedy wraps of the same words into non-empty lines are equal. */
  lemma {:induction false} NonEmptyUnique(width: string -> int, maxWidth: int, g1: seq<seq<string>>, g2: seq<seq<string>>)
    requires Flatten(g1) == Flatten(g2)
    requires forall i :: 0 <= i < |g1| ==> g1[i] != []
    requires forall i :: 0 <= i < |g2| ==> g2[i] != []
    requires Fits(width, maxWidth, g1) && Fits(width, maxWidth, g2)
    requires Greedy(width, maxWidth, g1) && Greedy(width, maxWidth, g2)
    ensures g1 == g2
    decreases |g1|
  {
    if g1 == [] || g2 == [] {
      if g1 != [] {
        FlattenCons(g1);
      } else if g2 != [] {
        FlattenCons(g2);
      }
    } else {
      FlattenCons(g1);
      FlattenCons(g2);
      var a, b := g1[0], g2[0];
      FirstLineMaximal(width, maxWidth, g1, g2);
      FirstLineMaximal(width, maxWidth, g2, g1);
      assert a == Flatten(g1)[..|a|] && b == Flatten(g2)[..|b|];
      assert a == b;
      assert Flatten(g1[1..]) == Flatten(g2[1..]);
      GreedyTail(width, maxWidth, g1);
      GreedyTail(width, maxWidth, g2);
      FitsTail(width, maxWidth, g1);
      FitsTail(width, maxWidth, g2);
      NonEmptyUnique(width, maxWidth, g1[1..], g2[1..]);
      assert g1 == [a] + g1[1..] && g2 == [b] + g2[1..];
    }
  }

  /**
    A first line cannot stop short of another wrap's first line: the word it
    broke at overflowed, yet it is part of a prefix the other wrap tested.
   */
  lemma FirstLineMaximal(width: string -> int, maxWidth: int, g1: seq<seq<string>>, g2: seq<seq<string>>)
    requires g1 != [] && g2 != [] && g1[0] != []
    requires forall i :: 0 <= i < |g1| ==> g1[i] != []
    requires Flatten(g1) == Flatten(g2)
    requires Fits(width, maxWidth, g2) && Greedy(width, maxWidth, g1)
    ensures |g2[0]| <= |g1[0]|
  {
    var a, b := g1[0], g2[0];
    if |a| < |b| {
      var words := Flatten(g1);
      FirstLinePrefix(g1);
      FirstLinePrefix(g2);
      SecondLine(g1);
      PrefixStep(a, b, words);
    }
  }

  /** Two prefixes of the same words: the shorter one and the next word form a prefix of the longer. */
  lemma PrefixStep(a: seq<string>, b: seq<string>, words: seq<string>)
    requires |a| < |b| <= |words| && a == words[..|a|] && b == words[..|b|]
    ensures b[..|a| + 1] == a + [words[|a|]]
  {
    assert b[..|a| + 1] == words[..|a| + 1];
  }

  /** The first line is the start of the words. */
  lemma FirstLinePrefix(groups: seq<seq<string>>)
    requires groups != []
    ensures |groups[0]| <= |Flatten(groups)| && groups[0] == Flatten(groups)[..|groups[0]|]
  {
    FlattenCons(groups);
  }

  /** When words remain after the first line, the second line starts with the next of them. */
  lemma SecondLine(groups: seq<seq<string>>)
    requires groups != [] && |groups[0]| < |Flatten(groups)|
    requires forall i :: 0 <= i < |groups| ==> groups[i] != []
    ensures |groups| >= 2 && groups[1][0] == Flatten(groups)[|groups[0]|]
  {
    var tail := groups[1..];
    FlattenCons(groups);
    assert tail != [];
    FlattenCons(tail);
    assert tail[0] == groups[1];
  }

  /** Unfolding `Flatten` at its first line. */
  lemma FlattenCons(groups: seq<seq<string>>)
    requires groups != []
    ensures Flatten(groups) == groups[0] + Flatten(groups[1..])
  {
  }

  lemma GreedyTail(width: string -> int, maxWidth: int, groups: seq<seq<string>>)
    requires groups != [] && Greedy(width, maxWidth, groups)
    ensures Greedy(width, maxWidth, groups[1..])
  {
    var tail := groups[1..];
    forall i | 0 < i < |tail| ensures Overflows(width, maxWidth, tail[i - 1], tail[i]) {
      assert tail[i - 1] == groups[i] && tail[i] == groups[i + 1];
    }
  }

  lemma FitsTail(width: string -> int, maxWidth: int, groups: seq<seq<string>>)
    requires groups != [] && Fits(width, maxWidth, groups)
    ensures Fits(width, maxWidth, groups[1..])
  {
    var tail := groups[1..];
    forall i, j | 0 <= i < |tail| && 2 <= j <= |tail[i]|
      ensures Measure(width, Join(" ", tail[i][..j])) <= maxWidth
    {
      assert tail[i] == groups[i + 1];
    }
  }
}
