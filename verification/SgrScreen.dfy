/** `materialize_sgr` itself, loop by loop, and the frames on which its text is ambiguous. */
module SgrScreen {
  import opened Text
  import opened Sgr
  import opened SgrText
  import opened SgrEscapes

  // ----- one line at a time

  lemma {:induction false} PaintLine(line: string, st: Style)
    requires '\n' !in line
    ensures |Paint(Lex(line), st)| == 1
    decreases |line|
  {
    if line != [] {
      var n := HeadLength(line);
      LexUnfold(line);
      if HeadItem(line).Escape? {
        PaintLine(line[n..], ApplyCodes(HeadItem(line).codes, st));
      } else {
        PaintLine(line[n..], st);
      }
    }
  }

  lemma PaintLineAndRest(line: string, rest: string, st: Style)
    requires '\n' !in line
    ensures Paint(Lex(line + ['\n'] + rest), st) == [Paint(Lex(line), st)[0]] + Paint(Lex(rest), After(Lex(line), st))
  {
    CatAssociates(line, ['\n'], rest);
    NothingCut(line, ['\n'] + rest);
    LexCat(line, ['\n'] + rest);
    LexGlyph('\n', rest);
    PaintCat(Lex(line), [Glyph('\n')] + Lex(rest), st);
    PaintLine(line, st);
    GlueNewline(Paint(Lex(line), st), Paint(Lex(rest), After(Lex(line), st)));
  }

  lemma GlueNewline(row: seq<seq<Cell>>, rest: seq<seq<Cell>>)
    requires |row| == 1
    ensures Glue(row, [[]] + rest) == [row[0]] + rest
  {
    assert row[0] + [] == row[0];
  }

  /** Index of the first SGR sequence in `s`, or its length. */
  function FirstSequence(s: string): (k: nat)
    ensures k <= |s|
    ensures k < |s| ==> SgrLength(s[k..]) > 0
  {
    if s == [] || SgrLength(s) > 0 then 0 else 1 + FirstSequence(s[1..])
  }

  function Glyphs(s: string): seq<Item> {
    if s == [] then [] else [Glyph(s[0])] + Glyphs(s[1..])
  }

  lemma {:induction false} LexToFirst(a: string, b: string)
    requires FirstSequence(a + b) == |a|
    ensures Lex(a + b) == Glyphs(a) + Lex(b)
  {
    if a == [] {
      assert a + b == b;
    } else {
      DropCat(a, b, 1);
      LexToFirst(a[1..], b);
      LexUnfold(a + b);
    }
  }

  function CellsOf(s: string, st: Style): seq<Cell> { seq(|s|, k requires 0 <= k < |s| => CellOf(s[k], st)) }

  lemma {:induction false} PaintGlyphs(s: string, st: Style)
    requires '\n' !in s
    ensures Paint(Glyphs(s), st) == [CellsOf(s, st)]
    ensures After(Glyphs(s), st) == st
  {
    if s == [] {
      assert CellsOf(s, st) == [];
    } else {
      PaintGlyphs(s[1..], st);
      assert CellsOf(s, st) == [CellOf(s[0], st)] + CellsOf(s[1..], st);
    }
  }

  // ----- the loops

  method RunCodes(codes: seq<nat>, st: Style) returns (st': Style)
    ensures st' == ApplyCodes(codes, st)
  {
    var fg, bg, attrs := st.fg, st.bg, st.attrs;
    var i := 0;
    while i < |codes|
      invariant i <= |codes|
      invariant ApplyCodes(codes[i..], Style(fg, bg, attrs)) == ApplyCodes(codes, st)
    {
      ghost var rest := codes[i..];
      ghost var n := Stride(rest);
      assert rest[n..] == codes[i + n..];
      assert Ops(rest)[1..] == Ops(rest[n..]);
      var code := codes[i];
      if code == 0 {
        fg, bg, attrs := None, None, {};
      } else if code == 39 {
        fg := None;
      } else if code == 49 {
        bg := None;
      } else if code == 38 || code == 48 {
        var color;
        if i + 4 < |codes| && codes[i + 1] == 2 {
          color := codes[i..i + 5];
          i := i + 4;
        } else if i + 2 < |codes| && codes[i + 1] == 5 {
          color := codes[i..i + 3];
          i := i + 2;
        } else {
          color := [code];
        }
        assert color == Extended(rest);
        if code == 38 {
          fg := Some(color);
        } else {
          bg := Some(color);
        }
      } else if 30 <= code <= 37 || 90 <= code <= 97 {
        fg := Some([code]);
      } else if 40 <= code <= 47 || 100 <= code <= 107 {
        bg := Some([code]);
      } else if code == 22 {
        attrs := attrs - {1, 2};
      } else if 21 <= code <= 29 {
        attrs := attrs - {code - 20};
      } else {
        attrs := attrs + {code};
      }
      i := i + 1;
    }
    st' := Style(fg, bg, attrs);
  }

  method Push(cells: seq<Cell>, text: string, st: Style) returns (cells': seq<Cell>)
    ensures cells' == cells + CellsOf(text, st)
  {
    cells' := cells;
    for k := 0 to |text|
      invariant cells' == cells + CellsOf(text[..k], st)
    {
      var style := if text[k] == ' ' then Style(None, st.bg, {}) else st;
      cells' := cells' + [Cell(text[k], style)];
      assert CellsOf(text[..k + 1], st) == CellsOf(text[..k], st) + [CellOf(text[k], st)];
    }
    assert text[..|text|] == text;
  }

  /** A line is the text up to its first escape, then what follows. */
  lemma PaintSegment(line: string, st: Style)
    requires '\n' !in line
    ensures var k := FirstSequence(line);
            && Paint(Lex(line), st)[0] == CellsOf(line[..k], st) + Paint(Lex(line[k..]), st)[0]
            && After(Lex(line), st) == After(Lex(line[k..]), st)
  {
    var k := FirstSequence(line);
    assert line[..k] + line[k..] == line;
    LexToFirst(line[..k], line[k..]);
    PaintGlyphs(line[..k], st);
    PaintCat(Glyphs(line[..k]), Lex(line[k..]), st);
    AfterCat(Glyphs(line[..k]), Lex(line[k..]), st);
  }

  method ReadLine(line: string, st: Style) returns (cells: seq<Cell>, st': Style)
    requires '\n' !in line
    ensures cells == Paint(Lex(line), st)[0]
    ensures st' == After(Lex(line), st)
  {
    cells, st' := [], st;
    var rest := line;  // the text from the end of the last match on
    var start := FirstSequence(rest);
    while start < |rest|
      invariant '\n' !in rest
      invariant start == FirstSequence(rest)
      invariant cells + Paint(Lex(rest), st')[0] == Paint(Lex(line), st)[0]
      invariant After(Lex(rest), st') == After(Lex(line), st)
      decreases |rest|
    {
      var tail := rest[start..];
      PaintSegment(rest, st');
      CatAssociates(cells, CellsOf(rest[..start], st'), Paint(Lex(tail), st')[0]);
      cells := Push(cells, rest[..start], st');
      st' := RunCodes(HeadCodes(tail), st');
      rest := tail[SgrLength(tail)..];
      start := FirstSequence(rest);
    }
    PaintSegment(rest, st');
    assert rest[..start] == rest && rest[start..] == "";
    cells := Push(cells, rest, st');
  }

  method TrimLine(cells: seq<Cell>) returns (trimmed: seq<Cell>)
    ensures trimmed == Trim(cells)
  {
    trimmed := cells;
    while trimmed != [] && trimmed[|trimmed| - 1].ch == ' ' && trimmed[|trimmed| - 1].style.bg == None
      invariant Trim(trimmed) == Trim(cells)
    {
      trimmed := trimmed[..|trimmed| - 1];
    }
  }

  lemma PrintStep(cells: seq<Cell>, pen: Style)
    requires cells != []
    ensures var tagged := NeedsTag(cells[0], pen);
            RowText(Print(cells, pen))
            == (if tagged then TokenText(Tag(cells[0].style)) else "")
               + ([cells[0].ch] + RowText(Print(cells[1..], if tagged then cells[0].style else pen)))
  {
    var cell := cells[0];
    if NeedsTag(cell, pen) {
      var tail := [Char(cell.ch)] + Print(cells[1..], cell.style);
      assert tail[1..] == Print(cells[1..], cell.style);
      assert Print(cells, pen) == [Tag(cell.style)] + tail;
      assert Print(cells, pen)[1..] == tail;
    } else {
      assert Print(cells, pen)[1..] == Print(cells[1..], pen);
    }
  }

  method PrintRow(cells: seq<Cell>) returns (text: string)
    ensures text == RowText(Print(cells, PLAIN))
  {
    text := "";
    var state := PLAIN;
    assert cells[0..] == cells;
    for k := 0 to |cells|
      invariant text + RowText(Print(cells[k..], state)) == RowText(Print(cells, PLAIN))
    {
      var cell := cells[k];
      PrintStep(cells[k..], state);
      DropDrop(cells, k, 1);
      ghost var before := text;
      if cell.style != state && (cell.ch != ' ' || cell.style.bg != state.bg) {
        text := text + TokenText(Tag(cell.style));
        state := cell.style;
      }
      ghost var rest := RowText(Print(cells[k + 1..], state));
      CatAssociates(text, [cell.ch], rest);
      CatAssociates(before, text[|before|..], [cell.ch] + rest);
      text := text + [cell.ch];
    }
  }

  function RowOf(line: string, st: Style): string {
    RowText(Print(Trim(Paint(Lex(line), st)[0]), PLAIN))
  }

  /** The rows still to come when `lines` are left and the running style is `st`. */
  ghost function Remaining(lines: seq<string>, st: Style): seq<string> {
    if lines == [] then [] else [RowOf(lines[0], st)] + Remaining(lines[1..], After(Lex(lines[0]), st))
  }

  function TextsOf(rows: seq<seq<Cell>>): seq<string> { RowTexts(PrintRows(TrimRows(rows))) }

  lemma TextsOfCons(row: seq<Cell>, rows: seq<seq<Cell>>)
    ensures TextsOf([row] + rows) == [RowText(Print(Trim(row), PLAIN))] + TextsOf(rows)
  {
  }

  lemma {:induction false} RemainingIsFrame(lines: seq<string>, st: Style)
    requires lines != [] && NoNewlines(lines)
    ensures Remaining(lines, st) == TextsOf(Paint(Lex(Join(lines, '\n')), st))
  {
    var line, st' := lines[0], After(Lex(lines[0]), st);
    PaintLine(line, st);
    if |lines| == 1 {
      assert Remaining(lines[1..], st') == [];
    } else {
      RemainingIsFrame(lines[1..], st');
      PaintLineAndRest(line, Join(lines[1..], '\n'), st);
      TextsOfCons(Paint(Lex(line), st)[0], Paint(Lex(Join(lines[1..], '\n')), st'));
    }
  }

  method NextRow(line: string, st: Style) returns (row: string, st': Style)
    requires '\n' !in line
    ensures row == RowOf(line, st) && st' == After(Lex(line), st)
  {
    var cells;
    cells, st' := ReadLine(line, st);
    cells := TrimLine(cells);
    row := PrintRow(cells);
  }

  method MaterializeRows(lines: seq<string>) returns (rows: seq<string>)
    requires NoNewlines(lines)
    ensures rows == Remaining(lines, PLAIN)
  {
    var st, todo := PLAIN, lines;
    rows := [];
    while todo != []
      invariant NoNewlines(todo)
      invariant rows + Remaining(todo, st) == Remaining(lines, PLAIN)
      decreases |todo|
    {
      var line := todo[0];
      ghost var rest := Remaining(todo[1..], After(Lex(line), st));
      CatAssociates(rows, [RowOf(line, st)], rest);
      var row;
      row, st := NextRow(line, st);
      rows := rows + [row];
      todo := todo[1..];
    }
  }

  method MaterializeSgr(frame: string) returns (text: string)
    ensures text == FrameText(frame)
  {
    var lines := Split(frame, '\n');
    LinesOfFrame(frame);
    var rows := MaterializeRows(lines);
    text := Join(rows, '\n');
  }

  lemma LinesOfFrame(frame: string)
    ensures NoNewlines(Split(frame, '\n'))
    ensures Join(Remaining(Split(frame, '\n'), PLAIN), '\n') == FrameText(frame)
  {
    var lines := Split(frame, '\n');
    assert forall k | 0 <= k < |lines| :: lines[k] in lines;
    JoinOfSplit(frame, '\n');
    RemainingIsFrame(lines, PLAIN);
  }

  // ----- text that is read back as itself

  predicate NoBlankEnds(rows: seq<string>) {
    forall k | 0 <= k < |rows| :: rows[k] != [] ==> rows[k][|rows[k]| - 1] != ' '
  }

  function PlainRows(rows: seq<string>): (cells: seq<seq<Cell>>)
    ensures |cells| == |rows|
    ensures forall k | 0 <= k < |rows| :: cells[k] == CellsOf(rows[k], PLAIN)
  {
    seq(|rows|, k requires 0 <= k < |rows| => CellsOf(rows[k], PLAIN))
  }

  lemma PlainRowsCons(c: char, rest: seq<string>)
    requires rest != []
    ensures PlainRows([[]] + rest) == [[]] + PlainRows(rest)
    ensures PlainRows([[c] + rest[0]] + rest[1..])
            == [[CellOf(c, PLAIN)] + PlainRows(rest)[0]] + PlainRows(rest)[1..]
  {
    assert CellsOf([c] + rest[0], PLAIN) == [CellOf(c, PLAIN)] + CellsOf(rest[0], PLAIN);
  }

  lemma {:induction false} PaintPlain(s: string)
    requires NoEsc(s)
    ensures Paint(Lex(s), PLAIN) == PlainRows(Split(s, '\n'))
  {
    if s != [] {
      PaintPlain(s[1..]);
      LexUnfold(s);
      var rest := Split(s[1..], '\n');
      var items := Lex(s);
      assert items[1..] == Lex(s[1..]);
      PlainRowsCons(s[0], rest);
    } else {
      assert PlainRows([[]]) == [[]];
    }
  }

  function Chars(s: string): seq<Token> { seq(|s|, k requires 0 <= k < |s| => Char(s[k])) }

  lemma {:induction false} PrintPlain(s: string)
    ensures Print(CellsOf(s, PLAIN), PLAIN) == Chars(s)
    ensures RowText(Chars(s)) == s
  {
    if s == [] {
      assert CellsOf(s, PLAIN) == [] && Chars(s) == [];
    } else {
      PrintPlain(s[1..]);
      assert CellsOf(s, PLAIN)[1..] == CellsOf(s[1..], PLAIN);
      assert Chars(s) == [Char(s[0])] + Chars(s[1..]);
      assert Chars(s)[1..] == Chars(s[1..]);
    }
  }

  /** Escape-free text whose rows end in no blank is its own normal form. */
  lemma PlainTextIsFixed(s: string)
    requires NoEsc(s)
    requires NoBlankEnds(Split(s, '\n'))
    ensures FrameText(s) == s
    ensures |TokenRows(s)| == |Split(s, '\n')|
    ensures forall k | 0 <= k < |TokenRows(s)| :: TokenRows(s)[k] == Chars(Split(s, '\n')[k])
  {
    var rows := Split(s, '\n');
    PaintPlain(s);
    forall k | 0 <= k < |rows|
      ensures TokenRows(s)[k] == Chars(rows[k])
      ensures RowTexts(TokenRows(s))[k] == rows[k]
    {
      PrintPlain(rows[k]);
      assert Trim(CellsOf(rows[k], PLAIN)) == CellsOf(rows[k], PLAIN);
    }
    assert RowTexts(TokenRows(s)) == rows;
    JoinOfSplit(s, '\n');
  }

  predicate AllChars(tokens: seq<Token>) { forall k | 0 <= k < |tokens| :: tokens[k].Char? }

  /** A frame that shows no style change anywhere. */
  predicate Untagged(frame: string) {
    forall k | 0 <= k < |TokenRows(frame)| :: AllChars(TokenRows(frame)[k])
  }

  lemma {:induction false} CharsOfText(tokens: seq<Token>)
    requires AllChars(tokens)
    ensures tokens == Chars(RowText(tokens))
  {
    if tokens == [] {
      assert Chars(RowText(tokens)) == [];
    } else {
      CharsOfText(tokens[1..]);
      assert tokens == [tokens[0]] + tokens[1..];
    }
  }

  /** A frame and the literal text of its own normal form print alike; they show the same
      screen exactly when the frame has no tag. So the flat text cannot tell any styled
      frame from one that spells its tags out. */
  lemma LiteralTextCollides(frame: string)
    requires var text := FrameText(frame);
             NoEsc(text) && NoBlankEnds(Split(text, '\n'))
    ensures FrameText(FrameText(frame)) == FrameText(frame)
    ensures Grid(FrameText(frame)) == Grid(frame) <==> Untagged(frame)
  {
    var text := FrameText(frame);
    PlainTextIsFixed(text);
    RowsOfText(frame);
    TokensAreCanonical(text, frame);
    SameTokensIfUntagged(TokenRows(frame), TokenRows(text));
  }

  const RED_X: string := Sequence("31") + "x"
  const SPELLED_X: string := "<(31,)|None|()>x"

  lemma RedXTokens()
    ensures TokenRows(RED_X) == [[Tag(RED), Char('x')]]
  {
    ShortCodes();
    ShortStyles();
    LexSequence("31", "x");
    PaintX(RED);
    var items := [Escape([31])] + Lex("x");
    assert items[1..] == Lex("x");
    var cells := [Cell('x', RED)];
    assert Grid(RED_X) == [cells];
    assert cells[1..] == [];
    var tokens := [Tag(RED), Char('x')];
    assert Print(cells, PLAIN) == tokens + [] && tokens + [] == tokens;
    assert |TokenRows(RED_X)| == 1 && TokenRows(RED_X)[0] == tokens;
  }

  lemma RedXRow()
    ensures RowText([Tag(RED), Char('x')]) == SPELLED_X
  {
    var tokens := [Tag(RED), Char('x')];
    assert tokens[1..] == [Char('x')] && [Char('x')][1..] == [];
    assert Decimal(3) == "3" && Decimal(31) == "31";
    assert AttrList({}) == [];
    assert TagBody(RED) == "(31,)|None|()";
    assert RowText([Char('x')]) == "x";
  }

  lemma RedXText()
    ensures FrameText(RED_X) == SPELLED_X
  {
    RedXTokens();
    RedXRow();
    assert RowTexts(TokenRows(RED_X)) == [SPELLED_X];
  }

  lemma SpelledIsPrintable(s: string, k: nat)
    requires s == SPELLED_X && k < |s|
    ensures s[k] > ' '
  {
  }

  lemma SpelledIsPlain(s: string)
    requires s == SPELLED_X
    ensures NoEsc(s) && NoBlankEnds(Split(s, '\n'))
  {
    forall k | 0 <= k < |s|
      ensures s[k] != ESC && s[k] != '\n' && s[k] != ' '
    {
      SpelledIsPrintable(s, k);
    }
    OneRow(s);
  }

  lemma OneRow(s: string)
    requires forall k | 0 <= k < |s| :: s[k] != '\n' && s[k] != ' '
    ensures NoBlankEnds(Split(s, '\n'))
  {
    SplitOfRow(s, '\n');
  }

  /** A red `x`, and the text that spells its tag out: same output, different screens. */
  lemma SpelledTagCollides()
    ensures FrameText(RED_X) == FrameText(SPELLED_X)
    ensures Grid(RED_X) != Grid(SPELLED_X)
  {
    RedXText();
    RedXTokens();
    SpelledIsPlain(FrameText(RED_X));
    LiteralTextCollides(RED_X);
    TagIsTag(RED_X);
  }

  lemma TagIsTag(frame: string)
    requires |TokenRows(frame)| > 0 && |TokenRows(frame)[0]| > 0 && TokenRows(frame)[0][0].Tag?
    ensures !Untagged(frame)
  {
  }

  lemma SameTokensIfUntagged(rows: seq<seq<Token>>, plain: seq<seq<Token>>)
    requires |rows| == |plain|
    requires forall k | 0 <= k < |rows| :: plain[k] == Chars(RowText(rows[k]))
    ensures rows == plain <==> forall k | 0 <= k < |rows| :: AllChars(rows[k])
  {
    forall k | 0 <= k < |rows|
      ensures rows[k] == plain[k] <==> AllChars(rows[k])
    {
      assert AllChars(Chars(RowText(rows[k])));
      if AllChars(rows[k]) {
        CharsOfText(rows[k]);
      }
    }
  }
}
