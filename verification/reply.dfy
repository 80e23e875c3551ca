/**
  `parse_response`: the language model's reply is cut at every `---` and each
  piece that starts with a field label fills that field of a five-field record;
  fields never labelled keep their defaults.
 */
module Reply {
  import opened Wrappers
  import opened Text

  /** The marker the reply is split on. */
  const Marker := "---"

  /** The keys of the `data` dictionary: `copy`, `titolo`, `s1`, `s2`, `s3`. */
  datatype Field = Copy | Titolo | Slide1 | Slide2 | Slide3

  const AllFields: set<Field> := {Copy, Titolo, Slide1, Slide2, Slide3}

  lemma InAllFields(f: Field)
    ensures f in AllFields
  {
    match f
    case Copy =>
    case Titolo =>
    case Slide1 =>
    case Slide2 =>
    case Slide3 =>
  }

  /** The label a piece must start with to fill the field. */
  function Label(f: Field): string
  {
    match f
    case Copy => "COPY"
    case Titolo => "SLIDE_TITOLO"
    case Slide1 => "SLIDE_1"
    case Slide2 => "SLIDE_2"
    case Slide3 => "SLIDE_3"
  }

  /** The value a field keeps when no piece fills it. */
  function Default(f: Field): string
  {
    match f
    case Copy => ""
    case Titolo => "Marte Update"
    case Slide1 => "..."
    case Slide2 => "..."
    case Slide3 => "..."
  }

  /** The dictionary before any piece is read. */
  function Defaults(): (data: map<Field, string>)
    ensures data.Keys == AllFields
  {
    map f | f in AllFields :: Default(f)
  }

  /**
    The `if`/`elif` chain: the first label, in the order COPY, SLIDE_TITOLO,
    SLIDE_1, SLIDE_2, SLIDE_3, that the piece starts with.
   */
  function Classify(piece: string): Option<Field>
  {
    if Label(Copy) <= piece then Some(Copy)
    else if Label(Titolo) <= piece then Some(Titolo)
    else if Label(Slide1) <= piece then Some(Slide1)
    else if Label(Slide2) <= piece then Some(Slide2)
    else if Label(Slide3) <= piece then Some(Slide3)
    else None
  }

  /** `p.replace(label, '').strip()`: every occurrence of the label is dropped, then whitespace. */
  function Extract(piece: string, f: Field): string
  {
    Strip(RemoveAll(piece, Label(f)))
  }

  /** One turn of the loop: the piece overwrites the field it is labelled with, if any. */
  function Step(data: map<Field, string>, piece: string): (data': map<Field, string>)
    requires data.Keys == AllFields
    ensures data'.Keys == AllFields
  {
    match Classify(piece)
    case None => data
    case Some(f) => InAllFields(f); data[f := Extract(piece, f)]
  }

  /** The loop over `pieces`, starting from `data`. */
  function Fill(data: map<Field, string>, pieces: seq<string>): (data': map<Field, string>)
    requires data.Keys == AllFields
    ensures data'.Keys == AllFields
    decreases |pieces|
  {
    if pieces == [] then data else Fill(Step(data, pieces[0]), pieces[1..])
  }

  /** What `parse_response(text)` returns. */
  function Parsed(text: string): map<Field, string>
  {
    Fill(Defaults(), Split(text, Marker))
  }

  /** `parse_response`, as the loop that overwrites dictionary entries. */
  method ParseResponse(text: string) returns (data: map<Field, string>)
    ensures data.Keys == AllFields
    ensures data == Fill(Defaults(), Split(text, Marker))
  {
    data := Defaults();
    var pieces := Split(text, Marker);
    for i := 0 to |pieces|
      invariant data.Keys == AllFields
      invariant Fill(data, pieces[i..]) == Fill(Defaults(), pieces)
    {
      assert pieces[i..][0] == pieces[i] && pieces[i..][1..] == pieces[i + 1..];
      var p := pieces[i];
      if Label(Copy) <= p {
        data := data[Copy := Strip(RemoveAll(p, Label(Copy)))];
      } else if Label(Titolo) <= p {
        data := data[Titolo := Strip(RemoveAll(p, Label(Titolo)))];
      } else if Label(Slide1) <= p {
        data := data[Slide1 := Strip(RemoveAll(p, Label(Slide1)))];
      } else if Label(Slide2) <= p {
        data := data[Slide2 := Strip(RemoveAll(p, Label(Slide2)))];
      } else if Label(Slide3) <= p {
        data := data[Slide3 := Strip(RemoveAll(p, Label(Slide3)))];
      }
    }
    assert pieces[|pieces|..] == [];
  }

  /**
    No label is a prefix of another, so the order of the `elif` chain never
    matters: a piece is classified as `f` exactly when it starts with `f`'s label.
   */
  lemma ClassifyByLabel(piece: string, f: Field)
    ensures Classify(piece) == Some(f) <==> Label(f) <= piece
  {
    if Label(f) <= piece {
      assert piece[0] == Label(f)[0];
      assert |Label(f)| > 6 ==> piece[6] == Label(f)[6];
    }
  }

  /** A piece changes at most one field, and a piece without a label changes nothing. */
  lemma StepChangesOneField(data: map<Field, string>, piece: string)
    requires data.Keys == AllFields
    ensures Classify(piece) == None ==> Step(data, piece) == data
    ensures forall f :: f in AllFields && Classify(piece) != Some(f) ==> Step(data, piece)[f] == data[f]
    ensures forall f :: Classify(piece) == Some(f) ==> Step(data, piece)[f] == Extract(piece, f)
  {
  }

  /** Pieces none of which is labelled `f` leave `f` alone. */
  lemma {:induction false} FillKeeps(data: map<Field, string>, pieces: seq<string>, f: Field)
    requires data.Keys == AllFields && f in AllFields
    requires forall k :: 0 <= k < |pieces| ==> Classify(pieces[k]) != Some(f)
    ensures Fill(data, pieces)[f] == data[f]
    decreases |pieces|
  {
    if pieces != [] {
      FillKeeps(Step(data, pieces[0]), pieces[1..], f);
    }
  }

  /** A field no piece is labelled with keeps its default value. */
  lemma ParsedDefault(text: string, f: Field)
    requires forall k :: 0 <= k < |Split(text, Marker)| ==> Classify(Split(text, Marker)[k]) != Some(f)
    ensures f in Parsed(text) && Parsed(text)[f] == Default(f)
  {
    FillKeeps(Defaults(), Split(text, Marker), f);
  }

  /** The last piece labelled `f` decides `f`'s value; earlier ones are overwritten. */
  lemma {:induction false} FillLastWins(data: map<Field, string>, pieces: seq<string>, j: nat, f: Field)
    requires data.Keys == AllFields
    requires j < |pieces| && Classify(pieces[j]) == Some(f)
    requires forall k :: j < k < |pieces| ==> Classify(pieces[k]) != Some(f)
    ensures Fill(data, pieces)[f] == Extract(pieces[j], f)
    decreases |pieces|
  {
    if j == 0 {
      FillKeeps(Step(data, pieces[0]), pieces[1..], f);
    } else {
      FillLastWins(Step(data, pieces[0]), pieces[1..], j - 1, f);
    }
  }

  /** `parse_response` takes each labelled field from the last piece carrying its label. */
  lemma ParsedLastWins(text: string, j: nat, f: Field)
    requires j < |Split(text, Marker)| && Classify(Split(text, Marker)[j]) == Some(f)
    requires forall k :: j < k < |Split(text, Marker)| ==> Classify(Split(text, Marker)[k]) != Some(f)
    ensures f in Parsed(text) && Parsed(text)[f] == Extract(Split(text, Marker)[j], f)
  {
    FillLastWins(Defaults(), Split(text, Marker), j, f);
  }

  // ---------------------------------------------------------------------------
  // The reply format the prompt asks for, and what the parser makes of it.
  // ---------------------------------------------------------------------------

  /** The fields in the order the prompt lists them. */
  const Order: seq<Field> := [Copy, Titolo, Slide1, Slide2, Slide3]

  /** A field's text on lines of its own between two markers. */
  function Framed(v: string): string
  {
    "\n" + v + "\n"
  }

  /** No `---` inside `v`. */
  ghost predicate NoMarker(v: string)
  {
    NoSepBefore(v, |v|, Marker)
  }

  /** A value the requested format can carry and give back: no marker, nothing to strip. */
  ghost predicate Carriable(v: string)
  {
    NoMarker(v) && Trimmed(v)
  }

  /** `LABEL---\n<value>\n---` for each field of `fs`, then `FINE---`. */
  function Blocks(data: map<Field, string>, fs: seq<Field>): string
    requires forall i :: 0 <= i < |fs| ==> fs[i] in data
  {
    if fs == [] then "FINE" + Marker
    else Label(fs[0]) + Marker + Framed(data[fs[0]]) + Marker + Blocks(data, fs[1..])
  }

  /**
    The reply the prompt asks the model for:
    `---COPY---\n…\n---SLIDE_TITOLO---\n…\n---SLIDE_1---\n…` and so on, ending in `---FINE---`.
   */
  function Requested(data: map<Field, string>): string
    requires data.Keys == AllFields
  {
    Marker + Blocks(data, Order)
  }

  /** The pieces `Blocks` is cut into. */
  function Pieces(data: map<Field, string>, fs: seq<Field>): seq<string>
    requires forall i :: 0 <= i < |fs| ==> fs[i] in data
  {
    if fs == [] then ["FINE", []]
    else [Label(fs[0]), Framed(data[fs[0]])] + Pieces(data, fs[1..])
  }

  lemma NoDash(a: string, b: string)
    requires '-' !in a
    ensures NoSepBefore(a + Marker + b, |a|, Marker)
  {
    forall k | 0 <= k < |a| ensures !(Marker <= (a + Marker + b)[k..]) {
      assert (a + Marker + b)[k..][0] == a[k];
    }
  }

  /** A framed value without `---` holds no marker, not even one running into the next. */
  lemma FramedFree(v: string, b: string)
    requires NoMarker(v)
    ensures NoSepBefore(Framed(v) + Marker + b, |Framed(v)|, Marker)
  {
    var a := Framed(v);
    var s := a + Marker + b;
    forall k | 0 <= k < |a| ensures !(Marker <= s[k..]) {
      if k == 0 || k == |a| - 1 {
        assert s[k..][0] == '\n';
      } else if k + 2 >= |a| - 1 {
        assert s[k..][|a| - 1 - k] == '\n';
      } else {
        assert s[k..][..3] == v[k - 1..][..3];
        assert !(Marker <= v[k - 1..]);
      }
    }
  }

  lemma {:induction false} SplitBlocks(data: map<Field, string>, fs: seq<Field>)
    requires forall i :: 0 <= i < |fs| ==> fs[i] in data && NoMarker(data[fs[i]])
    ensures Split(Blocks(data, fs), Marker) == Pieces(data, fs)
    decreases |fs|
  {
    if fs == [] {
      NoDash("FINE", []);
      SplitAt("FINE", [], Marker);
      assert "FINE" + Marker + [] == "FINE" + Marker;
    } else {
      var tag := Label(fs[0]);
      assert '-' !in tag by {
        match fs[0]
        case Copy =>
        case Titolo =>
        case Slide1 =>
        case Slide2 =>
        case Slide3 =>
      }
      SplitBlock(tag, data[fs[0]], Blocks(data, fs[1..]));
      SplitBlocks(data, fs[1..]);
    }
  }

  /** One block `LABEL---\n<value>\n---` comes off the front as two pieces. */
  lemma SplitBlock(tag: string, v: string, rest: string)
    requires '-' !in tag && NoMarker(v)
    ensures Split(tag + Marker + Framed(v) + Marker + rest, Marker) == [tag, Framed(v)] + Split(rest, Marker)
  {
    var body := Framed(v);
    NoDash(tag, body + Marker + rest);
    SplitAt(tag, body + Marker + rest, Marker);
    FramedFree(v, rest);
    SplitAt(body, rest, Marker);
    assert tag + Marker + body + Marker + rest == tag + Marker + (body + Marker + rest);
  }

  /** The pieces of a reply in the requested format. */
  lemma SplitRequested(data: map<Field, string>)
    requires data.Keys == AllFields
    requires forall f :: f in AllFields ==> NoMarker(data[f])
    ensures Split(Requested(data), Marker) == [[]] + Pieces(data, Order)
  {
    SplitBlocks(data, Order);
    SplitAt([], Blocks(data, Order), Marker);
    assert [] + Marker + Blocks(data, Order) == Requested(data);
  }

  /** A piece that starts with neither `C` nor `S` carries no label. */
  lemma Unlabelled(piece: string)
    requires piece == [] || (piece[0] != 'C' && piece[0] != 'S')
    ensures Classify(piece) == None && LabelOf(piece) == None
  {
    if piece != [] {
      assert Label(Copy)[0] == 'C' && Label(Titolo)[0] == 'S' && Label(Slide1)[0] == 'S';
      assert Label(Slide2)[0] == 'S' && Label(Slide3)[0] == 'S';
    }
  }

  /** An empty first piece, the text before the first marker, is skipped. */
  lemma FillSkipEmpty(data: map<Field, string>, pieces: seq<string>)
    requires data.Keys == AllFields
    ensures Fill(data, [[]] + pieces) == Fill(data, pieces)
  {
    assert ([[]] + pieces)[0] == [] && ([[]] + pieces)[1..] == pieces;
    Unlabelled([]);
  }

  lemma PairsSkipEmpty(data: map<Field, string>, pieces: seq<string>)
    requires data.Keys == AllFields && |pieces| >= 1
    ensures FillPairs(data, [[]] + pieces) == FillPairs(data, pieces)
  {
    assert ([[]] + pieces)[0] == [] && ([[]] + pieces)[1..] == pieces;
    Unlabelled([]);
  }

  lemma PiecesShape(values: map<Field, string>, fs: seq<Field>)
    requires forall i :: 0 <= i < |fs| ==> fs[i] in values
    ensures |Pieces(values, fs)| >= 2
  {
  }

  /** As written: a bare label empties its field, and the framed value after it is skipped. */
  lemma FillBlock(data: map<Field, string>, f: Field, v: string, rest: seq<string>)
    requires data.Keys == AllFields
    ensures Fill(data, [Label(f), Framed(v)] + rest) == Fill(data[f := []], rest)
  {
    var ps := [Label(f), Framed(v)] + rest;
    assert ps[0] == Label(f) && ps[1..] == [Framed(v)] + rest;
    assert ([Framed(v)] + rest)[0] == Framed(v) && ([Framed(v)] + rest)[1..] == rest;
    ClassifyByLabel(Label(f), f);
    assert Label(f) <= Label(f);
    assert RemoveAll(Label(f), Label(f)) == [] by {
      assert Label(f)[|Label(f)|..] == [];
    }
    assert Step(data, Label(f)) == data[f := []];
    Unlabelled(Framed(v));
  }

  /** The closing `FINE` piece and the empty piece after the last marker change nothing. */
  lemma FillFine(data: map<Field, string>)
    requires data.Keys == AllFields
    ensures Fill(data, ["FINE", []]) == data
  {
    var ps: seq<string> := ["FINE", []];
    var last: seq<string> := [[]];
    assert ps[0] == "FINE" && ps[1..] == last && last[0] == [] && last[1..] == [];
    Unlabelled("FINE");
    Unlabelled([]);
    assert Fill(data, ps) == Fill(data, last);
  }

  /** As written, every labelled piece empties its field, and the framed values are never read. */
  lemma {:induction false} FillBlanks(data: map<Field, string>, values: map<Field, string>, fs: seq<Field>)
    requires data.Keys == AllFields
    requires forall i :: 0 <= i < |fs| ==> fs[i] in values
    ensures forall f :: f in AllFields && f in fs ==> Fill(data, Pieces(values, fs))[f] == []
    ensures forall f :: f in AllFields && f !in fs ==> Fill(data, Pieces(values, fs))[f] == data[f]
    decreases |fs|
  {
    var ps := Pieces(values, fs);
    if fs == [] {
      FillFine(data);
    } else {
      var f := fs[0];
      InAllFields(f);
      var rest := Pieces(values, fs[1..]);
      assert ps == [Label(f), Framed(values[f])] + rest;
      var blanked := data[f := []];
      assert blanked.Keys == AllFields;
      FillBlock(data, f, values[f], rest);
      FillBlanks(blanked, values, fs[1..]);
      var d := Fill(blanked, rest);
      assert Fill(data, ps) == d;
      forall g | g in AllFields && g in fs ensures d[g] == [] {
        if g !in fs[1..] {
          assert g == f && blanked[g] == [];
        }
      }
      forall g | g in AllFields && g !in fs ensures d[g] == data[g] {
        assert g != f && g !in fs[1..] && blanked[g] == data[g];
      }
    }
  }

  /**
    A reply in exactly the format the prompt requests comes out with every
    field empty, the title's default included, whatever the values were:
    each label sits alone between two markers, so its piece is the bare label.
   */
  lemma RequestedFormatBlanked(values: map<Field, string>)
    requires values.Keys == AllFields
    requires forall f :: f in AllFields ==> NoMarker(values[f])
    ensures forall f :: f in AllFields ==> f in Parsed(Requested(values)) && Parsed(Requested(values))[f] == []
  {
    SplitRequested(values);
    FillSkipEmpty(Defaults(), Pieces(values, Order));
    FillBlanks(Defaults(), values, Order);
  }

  // ---------------------------------------------------------------------------
  // The parser the prompt's format calls for.
  // ---------------------------------------------------------------------------

  /** The field whose label is exactly `piece`. */
  function LabelOf(piece: string): (r: Option<Field>)
    ensures r.Some? ==> Label(r.value) == piece
  {
    if piece == Label(Copy) then Some(Copy)
    else if piece == Label(Titolo) then Some(Titolo)
    else if piece == Label(Slide1) then Some(Slide1)
    else if piece == Label(Slide2) then Some(Slide2)
    else if piece == Label(Slide3) then Some(Slide3)
    else None
  }

  /** A piece that is a bare label gives its field the next piece, stripped; the last such pair wins. */
  function FillPairs(data: map<Field, string>, pieces: seq<string>): (data': map<Field, string>)
    requires data.Keys == AllFields
    ensures data'.Keys == AllFields
    decreases |pieces|
  {
    if |pieces| < 2 then data
    else
      var next := match LabelOf(pieces[0])
        case None => data
        case Some(f) => data[f := Strip(pieces[1])];
      FillPairs(next, pieces[1..])
  }

  /** The corrected `parse_response`: the text under each `---LABEL---` marker fills that field. */
  function CorrectedParse(text: string): (data: map<Field, string>)
    ensures data.Keys == AllFields
  {
    FillPairs(Defaults(), Split(text, Marker))
  }

  lemma LabelOfLabel(f: Field)
    ensures LabelOf(Label(f)) == Some(f)
  {
  }

  /** Corrected: a bare label takes the framed value after it. */
  lemma PairsBlock(data: map<Field, string>, f: Field, v: string, rest: seq<string>)
    requires data.Keys == AllFields && f in AllFields && Trimmed(v) && |rest| >= 1
    ensures FillPairs(data, [Label(f), Framed(v)] + rest) == FillPairs(data[f := v], rest)
  {
    var ps := [Label(f), Framed(v)] + rest;
    var tail := [Framed(v)] + rest;
    assert ps[0] == Label(f) && ps[1] == Framed(v) && ps[1..] == tail;
    assert tail[0] == Framed(v) && tail[1..] == rest;
    LabelOfLabel(f);
    PairsTake(data, ps, f);
    assert Strip(Framed(v)) == v by {
      StripFramed(v);
    }
    assert data[f := Strip(ps[1])] == data[f := v];
    Unlabelled(Framed(v));
    PairsSkip(data[f := v], tail);
  }

  /** One turn of the corrected loop on a labelled piece. */
  lemma PairsTake(data: map<Field, string>, pieces: seq<string>, f: Field)
    requires data.Keys == AllFields && |pieces| >= 2 && LabelOf(pieces[0]) == Some(f)
    ensures FillPairs(data, pieces) == FillPairs(data[f := Strip(pieces[1])], pieces[1..])
  {
  }

  /** One turn of the corrected loop on an unlabelled piece. */
  lemma PairsSkip(data: map<Field, string>, pieces: seq<string>)
    requires data.Keys == AllFields && |pieces| >= 2 && LabelOf(pieces[0]) == None
    ensures FillPairs(data, pieces) == FillPairs(data, pieces[1..])
  {
  }

  lemma {:induction false} FillPairsBlocks(data: map<Field, string>, values: map<Field, string>, fs: seq<Field>)
    requires data.Keys == AllFields
    requires forall i :: 0 <= i < |fs| ==> fs[i] in values && Trimmed(values[fs[i]])
    ensures forall f :: f in AllFields && f in fs ==> FillPairs(data, Pieces(values, fs))[f] == values[f]
    ensures forall f :: f in AllFields && f !in fs ==> FillPairs(data, Pieces(values, fs))[f] == data[f]
    decreases |fs|
  {
    var ps := Pieces(values, fs);
    if fs == [] {
      assert ps[0] == "FINE" && ps[1..] == [[]];
      Unlabelled("FINE");
    } else {
      var f := fs[0];
      var rest := Pieces(values, fs[1..]);
      assert ps == [Label(f), Framed(values[f])] + rest;
      PiecesShape(values, fs[1..]);
      PairsBlock(data, f, values[f], rest);
      FillPairsBlocks(data[f := values[f]], values, fs[1..]);
      assert forall g :: g in fs <==> g == f || g in fs[1..];
    }
  }

  /** The corrected parser gives back every value sent in the requested format. */
  lemma CorrectedRoundTrip(values: map<Field, string>)
    requires values.Keys == AllFields
    requires forall f :: f in AllFields ==> Carriable(values[f])
    ensures CorrectedParse(Requested(values)) == values
  {
    SplitRequested(values);
    PiecesShape(values, Order);
    PairsSkipEmpty(Defaults(), Pieces(values, Order));
    FillPairsBlocks(Defaults(), values, Order);
  }

  /** Like `parse_response`, a reply without any label leaves every field at its default. */
  lemma CorrectedDefaults(text: string)
    requires forall k :: 0 <= k < |Split(text, Marker)| ==> LabelOf(Split(text, Marker)[k]) == None
    ensures CorrectedParse(text) == Defaults()
  {
    PairsUnlabelled(Defaults(), Split(text, Marker));
  }

  lemma {:induction false} PairsUnlabelled(data: map<Field, string>, pieces: seq<string>)
    requires data.Keys == AllFields
    requires forall k :: 0 <= k < |pieces| ==> LabelOf(pieces[k]) == None
    ensures FillPairs(data, pieces) == data
    decreases |pieces|
  {
    if |pieces| >= 2 {
      PairsUnlabelled(data, pieces[1..]);
    }
  }
}
