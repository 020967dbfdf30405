/** When the returned text determines the screen, read off the screen: which styles its rows show,
    and which characters. */
module SgrRows {
  import opened Text
  import opened Sgr
  import opened SgrText
  import opened SgrImage
  import opened SgrScreen
  import opened SgrSpots

  /** The characters of a row. */
  function Shown(cells: seq<Cell>): (s: string)
    ensures |s| == |cells| && forall k | 0 <= k < |cells| :: s[k] == cells[k].ch
  {
    seq(|cells|, k requires 0 <= k < |cells| => cells[k].ch)
  }

  /** Cells that show one style, as far as their characters let them. */
  predicate Wears(cells: seq<Cell>, st: Style) {
    forall k | 0 <= k < |cells| :: cells[k] == CellOf(cells[k].ch, st)
  }

  ghost predicate NoColouredSpot(t: string) { forall j: nat, st | SpotAt(t, j, st) :: st.bg.None? }

  /** A row in no style up to `i` and in one style with a background from there on, whose
      characters spell no tag that could be confused with the one in between. */
  ghost predicate ColouredFrom(cells: seq<Cell>, i: nat)
    requires i < |cells|
  {
    && cells[i].style.bg.Some?
    && Wears(cells[..i], PLAIN) && Wears(cells[i..], cells[i].style)
    && NoSpot(Shown(cells[..i]))
    && NoColouredSpot(Shown(cells[..i]) + "<")
    && NoColouredSpot(Shown(cells[i..]))
  }

  /** Does the text of this row determine its cells? A row that does not end in a space must show
      no style, and its characters must not spell a tag. */
  ghost predicate RowDetermined(cells: seq<Cell>) {
    if cells != [] && cells[|cells| - 1].ch == ' ' then exists i | 0 <= i < |cells| :: ColouredFrom(cells, i)
    else Wears(cells, PLAIN) && NoSpot(Shown(cells))
  }

  // ----- spots around a tag

  lemma TagChars(st: Style)
    ensures TagText(st)[0] == '<' && forall k | 0 < k < |TagText(st)| :: TagText(st)[k] != '<'
  {
    TagBodyChars(st);
    var body := TagBody(st);
    assert TagText(st) == ['<'] + (body + ['>']);
    forall k | 0 < k < |TagText(st)|
      ensures TagText(st)[k] != '<'
    {
      if k <= |body| {
        assert TagText(st)[k] == body[k - 1] && body[k - 1] in body;
      }
    }
  }

  /** Two tags spelled at one place are one tag. */
  lemma SameTag(t: string, j: nat, a: Style, b: Style)
    requires SpellsAt(t, j, TagText(a)) && SpellsAt(t, j, TagText(b))
    ensures a == b
  {
    var u, v := t[j + |TagText(a)|..], t[j + |TagText(b)|..];
    TagBodyChars(a);
    TagBodyChars(b);
    TailOfTag(t, j, a);
    TailOfTag(t, j, b);
    CutIsUnique(TagBody(a), u, TagBody(b), v, '>');
    TagBodyInjective(a, b);
  }

  lemma TailOfSpelled(t: string, j: nat, tag: string)
    requires SpellsAt(t, j, tag) && tag != ""
    ensures t[j + 1..] == tag[1..] + t[j + |tag|..]
  {
    assert t[j + 1..j + |tag|] == t[j..j + |tag|][1..];
    assert t[j + 1..] == t[j + 1..j + |tag|] + t[j + |tag|..];
  }

  lemma TailOfTag(t: string, j: nat, st: Style)
    requires SpellsAt(t, j, TagText(st))
    ensures t[j + 1..] == TagBody(st) + ['>'] + t[j + |TagText(st)|..]
  {
    assert TagText(st)[1..] == TagBody(st) + ['>'];
    TailOfSpelled(t, j, TagText(st));
  }

  /** Where a string that opens as tags do, and only there, can stand around such a string. */
  lemma OpensApart(x: string, tag: string, y: string, i: nat, other: string)
    requires tag != "" && tag[0] == '<' && forall k | 0 < k < |tag| :: tag[k] != '<'
    requires other != "" && other[0] == '<' && forall k | 0 < k < |other| :: other[k] != '<'
    requires SpellsAt(x + (tag + y), i, other)
    ensures i + |other| <= |x| || i == |x| || i >= |x| + |tag|
  {
    var t := x + (tag + y);
    assert forall m | i <= m < i + |other| :: t[m] == t[i..i + |other|][m - i];
    assert forall m | |x| <= m < |x| + |tag| :: t[m] == tag[m - |x|];
    assert t[i] == '<' && t[|x|] == '<';
  }

  lemma SpellsInFront(x: string, tag: string, y: string, i: nat, other: string)
    requires tag != "" && tag[0] == '<' && i + |other| <= |x|
    ensures SpellsAt(x + (tag + y), i, other) <==> SpellsAt(x + "<", i, other)
    ensures (x + (tag + y))[i + |other|] == (x + "<")[i + |other|]
  {
    assert (x + (tag + y))[i..i + |other|] == x[i..i + |other|] == (x + "<")[i..i + |other|];
  }

  lemma SpellsBehind(x: string, tag: string, y: string, i: nat, other: string)
    requires i >= |x| + |tag|
    ensures SpellsAt(x + (tag + y), i, other) <==> SpellsAt(y, i - |x| - |tag|, other)
    ensures i + |other| < |x + (tag + y)| ==> (x + (tag + y))[i + |other|] == y[i - |x| - |tag| + |other|]
  {
    var t, k := x + (tag + y), i - |x| - |tag|;
    if i + |other| < |t| {
      assert t[i..i + |other|] == y[k..k + |other|];
    }
  }

  lemma SpellsInside(x: string, i: nat, other: string)
    ensures SpellsAt(x, i, other) ==> SpellsAt(x + "<", i, other)
    ensures SpellsAt(x + "<", i, other) ==> i + |other| <= |x|
    ensures SpellsAt(x + "<", i, other) && i + |other| < |x| ==> SpellsAt(x, i, other)
  {
    if i + |other| <= |x| {
      assert (x + "<")[i..i + |other|] == x[i..i + |other|];
    }
  }

  lemma SpotsInFront(x: string, st: Style, y: string, i: nat, s: Style)
    requires i + |TagText(s)| <= |x|
    ensures SpotAt(x + (TagText(st) + y), i, s) <==> SpotAt(x + "<", i, s)
  {
    TagChars(st);
    SpellsInFront(x, TagText(st), y, i, TagText(s));
  }

  lemma SpotsBehind(x: string, st: Style, y: string, i: nat, s: Style)
    requires i >= |x| + |TagText(st)|
    ensures SpotAt(x + (TagText(st) + y), i, s) <==> SpotAt(y, i - |x| - |TagText(st)|, s)
  {
    SpellsBehind(x, TagText(st), y, i, TagText(s));
  }

  lemma SpotsBetween(x: string, st: Style, y: string, i: nat, s: Style)
    requires y != "" && Fits(st, y[0])
    requires i + |TagText(s)| > |x| && i < |x| + |TagText(st)|
    ensures SpotAt(x + (TagText(st) + y), i, s) <==> i == |x| && s == st
  {
    PartsSpot(x, st, y);
    if SpellsAt(x + (TagText(st) + y), i, TagText(s)) {
      TagChars(st);
      TagChars(s);
      OpensApart(x, TagText(st), y, i, TagText(s));
      SameTag(x + (TagText(st) + y), i, st, s);
    }
  }

  /** The spots of a row with one tag: in front of it, itself, or behind it. */
  lemma SpotsAround(x: string, st: Style, y: string, i: nat, s: Style)
    requires y != "" && Fits(st, y[0])
    ensures var t, n := x + (TagText(st) + y), |x| + |TagText(st)|;
            SpotAt(t, i, s) <==> || SpotAt(x + "<", i, s)
                                 || (i == |x| && s == st)
                                 || (i >= n && SpotAt(y, i - n, s))
  {
    EndsInFront(x, i, s);
    if i + |TagText(s)| <= |x| {
      SpotsInFront(x, st, y, i, s);
    } else if i >= |x| + |TagText(st)| {
      SpotsBehind(x, st, y, i, s);
    } else {
      SpotsBetween(x, st, y, i, s);
    }
  }

  lemma EndsInFront(x: string, i: nat, s: Style)
    ensures SpotAt(x, i, s) <==> SpotAt(x + "<", i, s) && SpotEnd(i, s) <= |x|
    ensures SpotAt(x + "<", i, s) ==> i + |TagText(s)| <= |x|
  {
    SpellsInside(x, i, TagText(s));
  }

  lemma ColouredAlone(t: string, x: string, st: Style, y: string)
    requires y != "" && Fits(st, y[0]) && t == x + (TagText(st) + y)
    requires OneColouredSpot(t, |x|, st)
    ensures NoSpot(x) && NoColouredSpot(x + "<")
  {
    forall i: nat, s
      ensures !SpotAt(x, i, s)
    {
      EndsInFront(x, i, s);
      SpotsAround(x, st, y, i, s);
    }
    forall i: nat, s | SpotAt(x + "<", i, s)
      ensures s.bg.None?
    {
      EndsInFront(x, i, s);
      SpotsAround(x, st, y, i, s);
    }
  }

  lemma NoneBehind(t: string, x: string, st: Style, y: string)
    requires y != "" && Fits(st, y[0]) && t == x + (TagText(st) + y)
    requires OneColouredSpot(t, |x|, st)
    ensures NoColouredSpot(y)
  {
    var n := |x| + |TagText(st)|;
    forall i: nat, s | SpotAt(y, i, s)
      ensures s.bg.None?
    {
      SpotsAround(x, st, y, i + n, s);
      assert |TagText(st)| > 0;
    }
  }

  lemma OnlyColoured(t: string, x: string, st: Style, y: string, i: nat, s: Style)
    requires y != "" && Fits(st, y[0]) && t == x + (TagText(st) + y)
    requires NoSpot(x) && NoColouredSpot(x + "<") && NoColouredSpot(y) && SpotAt(t, i, s)
    ensures SpotEnd(i, s) > |x| && (s.bg.Some? ==> i == |x| && s == st)
  {
    EndsInFront(x, i, s);
    SpotsAround(x, st, y, i, s);
  }

  lemma OneColouredIff(t: string, x: string, st: Style, y: string)
    requires y != "" && Fits(st, y[0]) && st.bg.Some? && t == x + (TagText(st) + y)
    ensures OneColouredSpot(t, |x|, st) <==> NoSpot(x) && NoColouredSpot(x + "<") && NoColouredSpot(y)
  {
    PartsSpot(x, st, y);
    if OneColouredSpot(t, |x|, st) {
      ColouredAlone(t, x, st, y);
      NoneBehind(t, x, st, y);
    }
    if NoSpot(x) && NoColouredSpot(x + "<") && NoColouredSpot(y) {
      forall i: nat, s | SpotAt(t, i, s)
        ensures SpotEnd(i, s) > |x| && (s.bg.Some? ==> i == |x| && s == st)
      {
        OnlyColoured(t, x, st, y, i, s);
      }
    }
  }

  // ----- a row of cells and its text

  lemma {:induction false} DecodeChars(s: string, rest: seq<Token>, pen: Style)
    ensures Decode(Chars(s) + rest, pen) == CellsOf(s, pen) + Decode(rest, pen)
  {
    if s == [] {
      assert Chars(s) + rest == rest && CellsOf(s, pen) == [];
      assert [] + Decode(rest, pen) == Decode(rest, pen);
    } else {
      var tokens := Chars(s) + rest;
      DecodeChars(s[1..], rest, pen);
      assert tokens[0] == Char(s[0]) && tokens[1..] == Chars(s[1..]) + rest;
      assert CellsOf(s, pen) == [CellOf(s[0], pen)] + CellsOf(s[1..], pen);
      CatAssociates([CellOf(s[0], pen)], CellsOf(s[1..], pen), Decode(rest, pen));
    }
  }

  lemma DecodeOneTag(x: string, st: Style, y: string)
    ensures Decode(OneTag(x, st, y), PLAIN) == CellsOf(x, PLAIN) + CellsOf(y, st)
  {
    DecodeChars(x, [Tag(st)] + Chars(y), PLAIN);
    assert ([Tag(st)] + Chars(y))[1..] == Chars(y);
    DecodeChars(y, [], st);
    CatEmpty(Chars(y));
    CatEmpty(CellsOf(y, st));
  }

  lemma WearsIff(cells: seq<Cell>, st: Style)
    ensures Wears(cells, st) <==> cells == CellsOf(Shown(cells), st)
  {
  }

  lemma ShownOf(s: string, st: Style)
    ensures Shown(CellsOf(s, st)) == s
  {
  }

  /** A printed row ends in a space exactly when its last cell is one. */
  lemma LastCell(cells: seq<Cell>)
    requires ShowableCells(cells) && Drawn(cells)
    ensures EndsInSpace(RowText(Print(cells, PLAIN))) <==> cells != [] && cells[|cells| - 1].ch == ' '
  {
    PrintIsLegal(cells, PLAIN);
    DecodeOfPrint(cells, PLAIN);
    if cells != [] {
      LastShown(Print(cells, PLAIN), PLAIN);
    }
  }

  /** No space at the end. */
  lemma InkRow(cells: seq<Cell>)
    requires ShowableCells(cells) && Drawn(cells)
    ensures NoSpot(RowText(Print(cells, PLAIN))) <==> Wears(cells, PLAIN) && NoSpot(Shown(cells))
  {
    var tokens := Print(cells, PLAIN);
    var t := RowText(tokens);
    WearsIff(cells, PLAIN);
    PrintPlain(Shown(cells));
    if NoSpot(t) {
      PrintIsLegal(cells, PLAIN);
      DecodeOfPrint(cells, PLAIN);
      CatEmpty(tokens);
      if !AllChars(tokens) {
        var j, st := FirstTagIsSpot(tokens, []);
      }
      CharsOfText(tokens);
      DecodeChars(t, [], PLAIN);
      CatEmpty(Chars(t));
      CatEmpty(CellsOf(t, PLAIN));
      ShownOf(t, PLAIN);
    }
  }

  lemma ColouredCells(cells: seq<Cell>, t: string, x: string, st: Style, y: string)
    requires y != "" && Fits(st, y[0]) && st.bg.Some? && t == x + (TagText(st) + y)
    requires cells == CellsOf(x, PLAIN) + CellsOf(y, st)
    ensures |x| < |cells| && cells[|x|].style == st
    ensures cells[..|x|] == CellsOf(x, PLAIN) && cells[|x|..] == CellsOf(y, st)
    ensures ColouredFrom(cells, |x|) <==> OneColouredSpot(t, |x|, st)
  {
    assert cells[|x|] == CellsOf(y, st)[0];
    ShownOf(x, PLAIN);
    ShownOf(y, st);
    WearsIff(CellsOf(x, PLAIN), PLAIN);
    WearsIff(CellsOf(y, st), st);
    OneColouredIff(t, x, st, y);
  }

  lemma PrintReads(cells: seq<Cell>)
    requires ShowableCells(cells) && Drawn(cells) && Kept(cells)
    ensures Reads(Print(cells, PLAIN), RowText(Print(cells, PLAIN)))
    ensures Decode(Print(cells, PLAIN), PLAIN) == cells
  {
    PrintIsLegal(cells, PLAIN);
    DecodeOfPrint(cells, PLAIN);
  }

  lemma UnambiguousIsColoured(t: string, j: nat, st: Style, tokens: seq<Token>, cells: seq<Cell>)
    requires '\n' !in t && EndsInSpace(t) && OneColouredSpot(t, j, st)
    requires Reads(tokens, t) && cells == Decode(tokens, PLAIN)
    ensures j < |cells| && ColouredFrom(cells, j)
  {
    var x, y := SpotParts(t, j, st);
    ColouredReading(t, x, st, y, tokens);
    DecodeOneTag(x, st, y);
    ColouredCells(cells, t, x, st, y);
  }

  lemma ColouredIsUnambiguous(cells: seq<Cell>, t: string, i: nat)
    requires ShowableCells(cells) && Drawn(cells) && i < |cells| && ColouredFrom(cells, i)
    requires '\n' !in t && t == RowText(Print(cells, PLAIN))
    ensures OneColouredSpot(t, i, cells[i].style)
  {
    var x, st, y := Shown(cells[..i]), cells[i].style, Shown(cells[i..]);
    assert y[0] == cells[i].ch && ShowableCell(cells[i]);
    WearsIff(cells[..i], PLAIN);
    WearsIff(cells[i..], st);
    assert cells == CellsOf(x, PLAIN) + CellsOf(y, st);
    NoNewlineShown(cells, i);
    OneTagReading(x, st, y);
    LegalIsPrinted(OneTag(x, st, y), PLAIN);
    DecodeOneTag(x, st, y);
    ColouredCells(cells, t, x, st, y);
  }

  lemma NoNewlineShown(cells: seq<Cell>, i: nat)
    requires ShowableCells(cells) && i <= |cells|
    ensures '\n' !in Shown(cells[..i]) && '\n' !in Shown(cells[i..])
  {
    assert forall k | 0 <= k < |cells| :: ShowableCell(cells[k]);
  }

  /** A row's text is unambiguous exactly when the row is determined. */
  lemma RowDeterminedIff(cells: seq<Cell>, t: string)
    requires ShowableCells(cells) && Drawn(cells) && Kept(cells)
    requires '\n' !in t && t == RowText(Print(cells, PLAIN))
    ensures Unambiguous(t) <==> RowDetermined(cells)
  {
    LastCell(cells);
    PrintReads(cells);
    if !EndsInSpace(t) {
      InkRow(cells);
    } else {
      if j: nat, st :| OneColouredSpot(t, j, st) {
        UnambiguousIsColoured(t, j, st, Print(cells, PLAIN), cells);
      }
      if i :| 0 <= i < |cells| && ColouredFrom(cells, i) {
        ColouredIsUnambiguous(cells, t, i);
      }
    }
  }

  // ----- frames

  lemma RowReads(frame: string, k: nat)
    requires k < |Grid(frame)|
    ensures ShowableCells(Grid(frame)[k]) && Drawn(Grid(frame)[k]) && Kept(Grid(frame)[k])
    ensures '\n' !in RowText(TokenRows(frame)[k]) && Reads(TokenRows(frame)[k], RowText(TokenRows(frame)[k]))
  {
    GridIsShowable(frame);
    GridIsDrawn(frame);
    TokenChars(frame, k);
    TokensAreLegal(frame);
  }

  lemma OneReadingOfRow(frame: string, k: nat)
    requires k < |Grid(frame)|
    ensures OneReading(RowText(TokenRows(frame)[k])) <==> RowDetermined(Grid(frame)[k])
  {
    var t := RowText(TokenRows(frame)[k]);
    RowReads(frame, k);
    OneReadingIff(t, TokenRows(frame)[k]);
    RowDeterminedIff(Grid(frame)[k], t);
  }

  lemma OneWayReads(frame: string, k: nat)
    requires k < |Grid(frame)| && ReadOneWay(frame)
    ensures OneReading(RowText(TokenRows(frame)[k]))
  {
    var t := RowText(TokenRows(frame)[k]);
    forall r | Reads(r, t)
      ensures r == TokenRows(frame)[k]
    {
    }
  }

  lemma ReadsOneWay(frame: string)
    requires forall k | 0 <= k < |Grid(frame)| :: OneReading(RowText(TokenRows(frame)[k]))
    ensures ReadOneWay(frame)
  {
    forall k, tokens | 0 <= k < |TokenRows(frame)| && LegalRow(tokens)
      ensures RowText(tokens) == RowText(TokenRows(frame)[k]) ==> tokens == TokenRows(frame)[k]
    {
      RowReads(frame, k);
      var t := RowText(TokenRows(frame)[k]);
      assert RowText(tokens) == t ==> Reads(tokens, t);
    }
  }

  /** The returned text of a frame determines its screen exactly when every row is determined. */
  lemma TextDeterminesIff(frame: string)
    ensures TextDetermines(frame) <==> forall k | 0 <= k < |Grid(frame)| :: RowDetermined(Grid(frame)[k])
  {
    DeterminesIfReadOneWay(frame);
    forall k | 0 <= k < |Grid(frame)|
      ensures OneReading(RowText(TokenRows(frame)[k])) <==> RowDetermined(Grid(frame)[k])
      ensures ReadOneWay(frame) ==> OneReading(RowText(TokenRows(frame)[k]))
    {
      OneReadingOfRow(frame, k);
      if ReadOneWay(frame) {
        OneWayReads(frame, k);
      }
    }
    if forall k | 0 <= k < |Grid(frame)| :: RowDetermined(Grid(frame)[k]) {
      ReadsOneWay(frame);
    }
  }

  /** A frame in no style at all that spells the text out, tags included. Where no row ends in a
      space there always is one, so every style that shows on such rows makes the text collide. */
  lemma SpelledOut(frame: string) returns (other: string)
    requires forall k | 0 <= k < |TokenRows(frame)| :: !EndsInSpace(RowText(TokenRows(frame)[k]))
    ensures FrameText(other) == FrameText(frame)
    ensures |Grid(other)| == |Grid(frame)| && forall k | 0 <= k < |Grid(other)| :: Wears(Grid(other)[k], PLAIN)
    ensures Grid(other) == Grid(frame) <==> Untagged(frame)
  {
    var rows := TokenRows(frame);
    var plain := seq(|rows|, k requires 0 <= k < |rows| => Chars(RowText(rows[k])));
    forall k | 0 <= k < |rows|
      ensures LegalRow(plain[k]) && RowText(plain[k]) == RowText(rows[k])
    {
      RowReads(frame, k);
      PlainReads(RowText(rows[k]));
    }
    TokensAreLegal(frame);
    other := LegalHasFrame(plain);
    assert RowTexts(plain) == RowTexts(rows);
    TokensAreCanonical(other, frame);
    SameTokensIfUntagged(rows, plain);
    forall k | 0 <= k < |rows|
      ensures Wears(Grid(other)[k], PLAIN)
    {
      PlainRow(other, k, RowText(rows[k]));
    }
  }

  lemma PlainRow(frame: string, k: nat, t: string)
    requires k < |Grid(frame)| && TokenRows(frame)[k] == Chars(t)
    ensures Wears(Grid(frame)[k], PLAIN)
  {
    RowReads(frame, k);
    PrintReads(Grid(frame)[k]);
    DecodeChars(t, [], PLAIN);
    CatEmpty(Chars(t));
    CatEmpty(CellsOf(t, PLAIN));
  }
}
