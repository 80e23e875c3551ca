/**
  The text body of a slide in `create_slide`: the body is word-wrapped to the
  canvas width and each wrapped line is split at `*` into runs drawn in
  alternating colours. Drawing itself (Pillow) is not modelled; a line becomes
  the list of coloured runs that would be drawn, left to right.
 */
module Slide {
  import opened Text
  import Wrap

  /** Canvas side `W`/`H`, body font size, first body line and left margin. */
  const CanvasSize := 1080
  const BodyFontSize := 50
  const BodyTop := 350
  /** `max_w = W - 160`: the width a body line may take. */
  const BodyMaxWidth := CanvasSize - 160
  /** `size_body + 20`: the distance between two body lines. */
  const LineSpacing := BodyFontSize + 20

  /** `COL_ORANGE` (`#ff5500`) and `COL_WHITE` (`#ffffff`). */
  datatype Colour = Orange | White

  /** One `draw.text` call of the body: a piece of text and its fill colour. */
  datatype Run = Run(text: string, colour: Colour)

  /** The colour of a part that starts after an odd (`true`) or even number of `*`. */
  function PartColour(odd: bool): Colour
  {
    if odd then Orange else White
  }

  /** The runs drawn for `parts`, the first of which has the given parity; empty parts are skipped. */
  function RunsOf(parts: seq<string>, odd: bool): (runs: seq<Run>)
    ensures |runs| <= |parts|
  {
    if parts == [] then []
    else (if parts[0] == [] then [] else [Run(parts[0], PartColour(odd))]) + RunsOf(parts[1..], !odd)
  }

  /** Every run is one of the parts, and none is empty. */
  lemma {:induction false} RunsFromParts(parts: seq<string>, odd: bool)
    ensures forall k :: 0 <= k < |RunsOf(parts, odd)| ==>
              RunsOf(parts, odd)[k].text != [] && RunsOf(parts, odd)[k].text in parts
    decreases |parts|
  {
    if parts != [] {
      RunsFromParts(parts[1..], !odd);
      var rest := RunsOf(parts[1..], !odd);
      assert forall k :: 0 <= k < |rest| ==> rest[k].text in parts[1..];
      assert forall k :: 0 <= k < |rest| ==> rest[k].text in parts;
    }
  }

  /**
    The runs of one wrapped line: `line.split('*')`, part `i` orange when `i`
    is odd, empty parts not drawn. No run is empty or holds a `*`.
   */
  function ColourRuns(line: string): (runs: seq<Run>)
    ensures forall k :: 0 <= k < |runs| ==> runs[k].text != [] && '*' !in runs[k].text
  {
    SplitOmits(line, '*');
    RunsFromParts(Split(line, "*"), false);
    RunsOf(Split(line, "*"), false)
  }

  /** The text of `runs`, one coloured character at a time. */
  function Paint(runs: seq<Run>): seq<(char, Colour)>
  {
    if runs == [] then [] else PaintText(runs[0].text, runs[0].colour) + Paint(runs[1..])
  }

  /** Every character of `text` in colour `colour`. */
  function PaintText(text: string, colour: Colour): seq<(char, Colour)>
  {
    if text == [] then [] else [(text[0], colour)] + PaintText(text[1..], colour)
  }

  /**
    Reference colouring of a line, character by character: a `*` is not drawn
    and flips the colour; any other character is orange exactly when an odd
    number of `*` precede it on the line.
   */
  function Highlight(line: string, odd: bool): seq<(char, Colour)>
  {
    if line == [] then []
    else if line[0] == '*' then Highlight(line[1..], !odd)
    else [(line[0], PartColour(odd))] + Highlight(line[1..], odd)
  }

  /** Dropping the first character of the first part drops the first painted character. */
  lemma PaintFirstPart(c: char, r: string, rest: seq<string>, odd: bool)
    ensures Paint(RunsOf([[c] + r] + rest, odd))
         == [(c, PartColour(odd))] + Paint(RunsOf([r] + rest, odd))
  {
    var colour := PartColour(odd);
    var tail := RunsOf(rest, !odd);
    RunsOfCons([c] + r, rest, odd);
    PaintCons(Run([c] + r, colour), tail);
    PaintTextCons(c, r, colour);
    PaintRest(r, rest, odd);
  }

  lemma PaintTextCons(c: char, r: string, colour: Colour)
    ensures PaintText([c] + r, colour) == [(c, colour)] + PaintText(r, colour)
  {
    assert ([c] + r)[0] == c && ([c] + r)[1..] == r;
  }

  /** The runs of `[r] + rest` paint `r` and then the runs of `rest`, also when `r` is empty. */
  lemma PaintRest(r: string, rest: seq<string>, odd: bool)
    ensures Paint(RunsOf([r] + rest, odd)) == PaintText(r, PartColour(odd)) + Paint(RunsOf(rest, !odd))
  {
    RunsOfCons(r, rest, odd);
    if r != [] {
      PaintCons(Run(r, PartColour(odd)), RunsOf(rest, !odd));
    } else {
      assert PaintText(r, PartColour(odd)) == [];
      assert RunsOf([r] + rest, odd) == [] + RunsOf(rest, !odd) == RunsOf(rest, !odd);
    }
  }

  /** Unfolding `Paint` at its first run. */
  lemma PaintCons(run: Run, rest: seq<Run>)
    ensures Paint([run] + rest) == PaintText(run.text, run.colour) + Paint(rest)
  {
    assert ([run] + rest)[0] == run && ([run] + rest)[1..] == rest;
  }

  /**
    The runs of a line paint exactly the reference colouring: the drawn text is
    the line without its `*`, and each character's colour is set by the parity
    of the `*` before it on the same line.
   */
  lemma {:induction false} RunsPaintHighlight(line: string, odd: bool)
    ensures Paint(RunsOf(Split(line, "*"), odd)) == Highlight(line, odd)
    decreases |line|
  {
    if line == [] {
      assert RunsOf([[]], odd) == [] + RunsOf([], !odd);
    } else if "*" <= line {
      RunsPaintHighlight(line[1..], !odd);
      var parts := Split(line[1..], "*");
      assert line[0] == '*';
      assert Split(line, "*") == [[]] + parts;
      assert ([[]] + parts)[0] == [] && ([[]] + parts)[1..] == parts;
      assert RunsOf([[]] + parts, odd) == RunsOf(parts, !odd);
    } else {
      var rest := Split(line[1..], "*");
      RunsPaintHighlight(line[1..], odd);
      assert Split(line, "*") == [[line[0]] + rest[0]] + rest[1..];
      assert rest == [rest[0]] + rest[1..];
      PaintFirstPart(line[0], rest[0], rest[1..], odd);
    }
  }

  /** `ColourRuns` draws the line's text without `*`, coloured by `*` parity. */
  lemma ColourRunsPaint(line: string)
    ensures Paint(ColourRuns(line)) == Highlight(line, false)
  {
    RunsPaintHighlight(line, false);
  }

  /** The texts of the runs, concatenated, are the line with every `*` removed. */
  lemma {:induction false} RunsText(parts: seq<string>, odd: bool)
    ensures Concat(Texts(RunsOf(parts, odd))) == Concat(parts)
    decreases |parts|
  {
    if parts != [] {
      RunsText(parts[1..], !odd);
      var head := if parts[0] == [] then [] else [Run(parts[0], PartColour(odd))];
      TextsAppend(head, RunsOf(parts[1..], !odd));
      ConcatAppend(Texts(head), Texts(RunsOf(parts[1..], !odd)));
    }
  }

  /** The texts of a list of runs. */
  function Texts(runs: seq<Run>): seq<string>
  {
    if runs == [] then [] else [runs[0].text] + Texts(runs[1..])
  }

  lemma {:induction false} TextsAppend(a: seq<Run>, b: seq<Run>)
    ensures Texts(a + b) == Texts(a) + Texts(b)
    decreases |a|
  {
    if a != [] {
      TextsAppend(a[1..], b);
      assert (a + b)[0] == a[0] && (a + b)[1..] == a[1..] + b;
    } else {
      assert a + b == b;
    }
  }

  lemma {:induction false} ConcatAppend(a: seq<string>, b: seq<string>)
    ensures Concat(a + b) == Concat(a) + Concat(b)
    decreases |a|
  {
    if a != [] {
      ConcatAppend(a[1..], b);
      assert (a + b)[0] == a[0] && (a + b)[1..] == a[1..] + b;
    } else {
      assert a + b == b;
    }
  }

  /** The drawn text of a line is the line with `*` removed. */
  lemma ColourRunsText(line: string)
    ensures Concat(Texts(ColourRuns(line))) == RemoveAll(line, "*")
  {
    RunsText(Split(line, "*"), false);
    ConcatSplit(line, '*');
  }

  /** Unfolding `RunsOf` once. */
  lemma RunsOfCons(p: string, rest: seq<string>, odd: bool)
    ensures RunsOf([p] + rest, odd)
         == (if p == [] then [] else [Run(p, PartColour(odd))]) + RunsOf(rest, !odd)
  {
    assert ([p] + rest)[0] == p && ([p] + rest)[1..] == rest;
  }

  /**
    A line `a*b*c` with no other `*`: `a` and `c` are white, `b` orange, and
    an empty piece is not drawn.
   */
  lemma Emphasis(a: string, b: string, c: string)
    requires '*' !in a && '*' !in b && '*' !in c
    ensures ColourRuns(a + "*" + b + "*" + c)
         == (if a == [] then [] else [Run(a, White)])
          + (if b == [] then [] else [Run(b, Orange)])
          + (if c == [] then [] else [Run(c, White)])
  {
    SplitThree(a, b, c);
    RunsOfCons(a, [b] + ([c] + []), false);
    RunsOfCons(b, [c] + [], true);
    RunsOfCons(c, [], false);
  }

  /** `(a + '*' + b + '*' + c).split('*')` is `[a, b, c]` when none of them holds a `*`. */
  lemma SplitThree(a: string, b: string, c: string)
    requires '*' !in a && '*' !in b && '*' !in c
    ensures Split(a + "*" + b + "*" + c, "*") == [a] + ([b] + ([c] + []))
  {
    var bc := b + "*" + c;
    Regroup(a, b, c);
    SplitTwo(b, c);
    NoStar(a, bc);
    SplitAt(a, bc, "*");
  }

  lemma Regroup(a: string, b: string, c: string)
    ensures a + "*" + b + "*" + c == a + "*" + (b + "*" + c)
  {
  }

  /** `(a + '*' + b).split('*')` is `[a, b]` when neither holds a `*`. */
  lemma SplitTwo(a: string, b: string)
    requires '*' !in a && '*' !in b
    ensures Split(a + "*" + b, "*") == [a] + ([b] + [])
  {
    NoStar(a, b);
    SplitAt(a, b, "*");
    NoStarAlone(b);
    SplitNone(b, "*");
  }

  lemma NoStar(a: string, b: string)
    requires '*' !in a
    ensures NoSepBefore(a + "*" + b, |a|, "*")
  {
    forall k | 0 <= k < |a| ensures !("*" <= (a + "*" + b)[k..]) {
      assert (a + "*" + b)[k..][0] == a[k];
    }
  }

  lemma NoStarAlone(a: string)
    requires '*' !in a
    ensures NoSepBefore(a, |a|, "*")
  {
    forall k | 0 <= k < |a| ensures !("*" <= a[k..]) {
      assert a[k..][0] == a[k];
    }
  }

  /**
    Colour parity restarts on every wrapped line: an emphasis `*a b*` that the
    wrap splits into the lines `*a` and `b*` draws `b` white, while on one
    line the whole of `a b` is orange.
   */
  lemma ParityRestartsPerLine(a: string, b: string)
    requires a != [] && b != [] && '*' !in a && '*' !in b && ' ' !in a && ' ' !in b
    ensures ColourRuns("*" + a + " " + b + "*") == [Run(a + " " + b, Orange)]
    ensures ColourRuns("*" + a) == [Run(a, Orange)]
    ensures ColourRuns(b + "*") == [Run(b, White)]
  {
    Emphasis([], a + " " + b, []);
    assert [] + "*" + (a + " " + b) + "*" + [] == "*" + a + " " + b + "*";
    NoStar([], a);
    SplitAt([], a, "*");
    NoStarAlone(a);
    SplitNone(a, "*");
    assert [] + "*" + a == "*" + a;
    assert Split("*" + a, "*") == [[]] + ([a] + []);
    RunsOfCons([], [a] + [], false);
    RunsOfCons(a, [], true);
    NoStar(b, []);
    SplitAt(b, [], "*");
    assert b + "*" + [] == b + "*";
    assert Split(b + "*", "*") == [b] + ([[]] + []);
    RunsOfCons(b, [[]] + [], false);
    RunsOfCons([], [], true);
  }

  /**
    As written, an emphasis broken across two lines inverts the colours of the
    line it ends on: in `*a b* r`, drawn on one line, `a b` is orange and ` r`
    white; wrapped into `*a` and `b* r`, `b` is white and ` r` orange.
   */
  lemma ParityInverted(a: string, b: string, r: string)
    requires a != [] && b != [] && r != []
    requires '*' !in a && '*' !in b && '*' !in r && ' ' !in a && ' ' !in b
    ensures ColourRuns("*" + a + " " + b + "* " + r) == [Run(a + " " + b, Orange), Run(" " + r, White)]
    ensures ColourRuns("*" + a) == [Run(a, Orange)]
    ensures ColourRuns(b + "* " + r) == [Run(b, White), Run(" " + r, Orange)]
  {
    var tail := " " + r;
    assert '*' !in tail;
    Emphasis([], a + " " + b, tail);
    assert [] + "*" + (a + " " + b) + "*" + tail == "*" + a + " " + b + "* " + r;
    ParityRestartsPerLine(a, b);
    SplitTwo(b, tail);
    assert b + "*" + tail == b + "* " + r;
    RunsOfCons(b, [tail] + [], false);
    RunsOfCons(tail, [], true);
  }

  /** The colour parity after `s`, starting from `odd`: every `*` flips it. */
  function StarParity(s: string, odd: bool): bool
  {
    if s == [] then odd else StarParity(s[1..], if s[0] == '*' then !odd else odd)
  }

  /** The reference colouring of two texts in a row: the second starts with the parity the first left. */
  lemma {:induction false} HighlightAppend(a: string, b: string, odd: bool)
    ensures Highlight(a + b, odd) == Highlight(a, odd) + Highlight(b, StarParity(a, odd))
    decreases |a|
  {
    if a == [] {
      assert a + b == b;
    } else {
      var flip := if a[0] == '*' then !odd else odd;
      HighlightAppend(a[1..], b, flip);
      assert (a + b)[0] == a[0] && (a + b)[1..] == a[1..] + b;
    }
  }

  /**
    The corrected colouring of the body: each line's runs start with the
    parity that the `*` of the lines before it left.
   */
  function CarriedRuns(lines: seq<string>, odd: bool): (runs: seq<seq<Run>>)
    ensures |runs| == |lines|
  {
    if lines == [] then []
    else [RunsOf(Split(lines[0], "*"), odd)] + CarriedRuns(lines[1..], StarParity(lines[0], odd))
  }

  /** The coloured characters of all the lines, one line after the other. */
  function PaintLines(runs: seq<seq<Run>>): seq<(char, Colour)>
  {
    if runs == [] then [] else Paint(runs[0]) + PaintLines(runs[1..])
  }

  /**
    With the parity carried over, wrapping changes no colour: the lines paint
    exactly the reference colouring of their text read as one, every character
    orange exactly when an odd number of `*` precede it in the whole body.
   */
  lemma {:induction false} CarriedPaint(lines: seq<string>, odd: bool)
    ensures PaintLines(CarriedRuns(lines, odd)) == Highlight(Concat(lines), odd)
    decreases |lines|
  {
    if lines != [] {
      var next := StarParity(lines[0], odd);
      CarriedPaint(lines[1..], next);
      RunsPaintHighlight(lines[0], odd);
      HighlightAppend(lines[0], Concat(lines[1..]), odd);
      var runs := CarriedRuns(lines, odd);
      assert runs[0] == RunsOf(Split(lines[0], "*"), odd) && runs[1..] == CarriedRuns(lines[1..], next);
    }
  }

  /** A text without `*` leaves the parity as it was. */
  lemma {:induction false} StarParityNoStar(s: string, odd: bool)
    requires '*' !in s
    ensures StarParity(s, odd) == odd
    decreases |s|
  {
    if s != [] {
      assert s[0] != '*' && '*' !in s[1..];
      StarParityNoStar(s[1..], odd);
    }
  }

  /** The corrected colouring of the wrapped `*a b* r`: `b` stays orange and ` r` white. */
  lemma ParityCarried(a: string, b: string, r: string)
    requires a != [] && b != [] && r != []
    requires '*' !in a && '*' !in b && '*' !in r && ' ' !in a && ' ' !in b
    ensures CarriedRuns(["*" + a, b + "* " + r], false) == [[Run(a, Orange)], [Run(b, Orange), Run(" " + r, White)]]
  {
    var tail := " " + r;
    var first, second := "*" + a, b + "* " + r;
    assert '*' !in tail;
    ParityRestartsPerLine(a, b);
    assert StarParity(first, false) == StarParity(a, true) by {
      assert first[0] == '*' && first[1..] == a;
    }
    StarParityNoStar(a, true);
    SplitTwo(b, tail);
    assert b + "*" + tail == second;
    RunsOfCons(b, [tail] + [], true);
    RunsOfCons(tail, [], false);
    var lines := [first, second];
    assert lines[0] == first && lines[1..] == [second];
    assert [second][0] == second && [second][1..] == [];
    assert CarriedRuns(lines, false) == [RunsOf(Split(first, "*"), false)] + CarriedRuns([second], true);
    assert CarriedRuns([second], true) == [RunsOf(Split(second, "*"), true)] + CarriedRuns([], StarParity(second, true));
    assert RunsOf(Split(first, "*"), false) == [Run(a, Orange)];
    assert Split(second, "*") == [b] + ([tail] + []);
    assert RunsOf(Split(second, "*"), true) == [Run(b, Orange), Run(tail, White)];
  }

  /** One body line as placed on the slide: its height and its runs. */
  datatype PlacedLine = PlacedLine(y: int, runs: seq<Run>)

  /** The inner loop of the body: `for i, part in enumerate(line.split('*'))`. */
  method LineRuns(line: string) returns (runs: seq<Run>)
    ensures runs == ColourRuns(line)
  {
    var parts := Split(line, "*");
    runs := [];
    for i := 0 to |parts|
      invariant runs + RunsOf(parts[i..], i % 2 != 0) == RunsOf(parts, false)
    {
      var colour := if i % 2 != 0 then Orange else White;
      RunsStep(runs, parts, i);
      if parts[i] != [] {
        runs := runs + [Run(parts[i], colour)];
      }
    }
    assert parts[|parts|..] == [];
  }

  /** One turn of the loop over the parts of a line keeps the runs still to draw in step. */
  lemma RunsStep(runs: seq<Run>, parts: seq<string>, i: nat)
    requires i < |parts|
    ensures runs + RunsOf(parts[i..], i % 2 != 0)
         == (if parts[i] == [] then runs else runs + [Run(parts[i], if i % 2 != 0 then Orange else White)])
          + RunsOf(parts[i + 1..], (i + 1) % 2 != 0)
  {
    var odd := i % 2 != 0;
    assert parts[i..] == [parts[i]] + parts[i + 1..];
    assert (i + 1) % 2 != 0 <==> !odd;
    RunsOfCons(parts[i], parts[i + 1..], odd);
  }

  /**
    The body of a slide: the text wrapped to `BodyMaxWidth`, then its lines
    placed one under the other.
   */
  method LayOutBody(text: string, width: string -> int)
    returns (lines: seq<string>, ghost groups: seq<seq<string>>, body: seq<PlacedLine>)
    // the lines are the greedy wrap of the text to `W - 160`
    ensures Wrap.Joined(lines, groups)
    ensures Wrap.GreedyWrap(width, BodyMaxWidth, Split(text, " "), groups)
    ensures forall i :: 0 <= i < |lines| && |groups[i]| >= 2 ==> Wrap.Measure(width, lines[i]) <= BodyMaxWidth
    // the lines are the text with some spaces turned into line breaks (after a leading empty line)
    ensures groups[0] != [] ==> Join(" ", lines) == text
    ensures groups[0] == [] ==> |lines| >= 2 && Join(" ", lines[1..]) == text
    // each line is placed below the one before, with its own runs
    ensures |body| == |lines| >= 1
    ensures forall i :: 0 <= i < |lines| ==>
              body[i] == PlacedLine(BodyTop + i * LineSpacing, ColourRuns(lines[i]))
    ensures forall i :: 0 <= i < |lines| ==> Concat(Texts(body[i].runs)) == RemoveAll(lines[i], "*")
  {
    lines, groups := Wrap.WrapText(text, width, BodyMaxWidth);
    body := PlaceLines(lines);
  }

  /**
    The outer loop of the body: every wrapped line gets its own runs (the
    colour parity starts afresh) and sits `LineSpacing` below the one before.
   */
  method PlaceLines(lines: seq<string>) returns (body: seq<PlacedLine>)
    ensures |body| == |lines|
    ensures forall i :: 0 <= i < |lines| ==>
              body[i] == PlacedLine(BodyTop + i * LineSpacing, ColourRuns(lines[i]))
    ensures forall i :: 0 <= i < |lines| ==> Concat(Texts(body[i].runs)) == RemoveAll(lines[i], "*")
  {
    body := [];
    var y := BodyTop;
    for i := 0 to |lines|
      invariant |body| == i && y == BodyTop + i * LineSpacing
      invariant forall j :: 0 <= j < i ==>
                  body[j] == PlacedLine(BodyTop + j * LineSpacing, ColourRuns(lines[j]))
    {
      var runs := LineRuns(lines[i]);
      body := body + [PlacedLine(y, runs)];
      y := y + LineSpacing;
    }
    forall i | 0 <= i < |lines| ensures Concat(Texts(body[i].runs)) == RemoveAll(lines[i], "*") {
      ColourRunsText(lines[i]);
    }
  }
}
