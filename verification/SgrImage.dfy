/** Which screens frames can show, which token rows the printer can emit, and so exactly when the
    returned text determines the screen. */
module SgrImage {
  import opened Text
  import opened Sgr
  import opened SgrText
  import opened SgrEscapes

  // ----- styles that escapes can select

  /** A basic, palette or direct colour, or a selector ended early. */
  predicate IsFg(c: Color) {
    || (|c| == 1 && (30 <= c[0] <= 38 || 90 <= c[0] <= 97))
    || (|c| == 3 && c[0] == 38 && c[1] == 5)
    || (|c| == 5 && c[0] == 38 && c[1] == 2)
  }

  predicate IsBg(c: Color) {
    || (|c| == 1 && (40 <= c[0] <= 48 || 100 <= c[0] <= 107))
    || (|c| == 3 && c[0] == 48 && c[1] == 5)
    || (|c| == 5 && c[0] == 48 && c[1] == 2)
  }

  /** The codes that no rule takes are kept as attributes. */
  predicate IsAttr(a: nat) { 0 < a <= 20 || 50 <= a < 90 || 98 <= a < 100 || a >= 108 }

  predicate Selectable(st: Style) {
    && (st.fg.Some? ==> IsFg(st.fg.value))
    && (st.bg.Some? ==> IsBg(st.bg.value))
    && forall a | a in st.attrs :: IsAttr(a)
  }

  lemma {:induction false} OpsStaySelectable(codes: seq<nat>, st: Style)
    requires Selectable(st)
    ensures Selectable(ApplyCodes(codes, st))
    decreases |codes|
  {
    if codes != [] {
      var ops := Ops(codes);
      assert ops[1..] == Ops(codes[Stride(codes)..]);
      assert Selectable(Apply(HeadOp(codes), st));
      OpsStaySelectable(codes[Stride(codes)..], Apply(HeadOp(codes), st));
    }
  }

  // ----- the screens of frames

  /** A cell that a frame can put on a row. */
  predicate ShowableCell(cell: Cell) {
    cell.ch != '\n' && Selectable(cell.style) && cell == CellOf(cell.ch, cell.style)
  }

  predicate ShowableCells(cells: seq<Cell>) { forall k | 0 <= k < |cells| :: ShowableCell(cells[k]) }

  predicate Kept(cells: seq<Cell>) { cells == [] || !Blank(cells[|cells| - 1]) }

  /** At least one row; every cell drawn in a selectable style; no row ends blank. */
  predicate Showable(rows: seq<seq<Cell>>) {
    rows != [] && forall k | 0 <= k < |rows| :: ShowableCells(rows[k]) && Kept(rows[k])
  }

  predicate PaintedCells(rows: seq<seq<Cell>>) { forall k | 0 <= k < |rows| :: ShowableCells(rows[k]) }

  lemma {:induction false} PaintIsShowable(items: seq<Item>, st: Style)
    requires Selectable(st)
    ensures PaintedCells(Paint(items, st))
  {
    if items != [] {
      match items[0]
      case Escape(codes) =>
        OpsStaySelectable(codes, st);
        PaintIsShowable(items[1..], ApplyCodes(codes, st));
      case Glyph(_) => PaintIsShowable(items[1..], st);
    }
  }

  lemma TrimIsShowable(cells: seq<Cell>)
    requires ShowableCells(cells)
    ensures ShowableCells(Trim(cells)) && Kept(Trim(cells))
  {
    TrimIsPrefix(cells);
    assert forall j | 0 <= j < |Trim(cells)| :: Trim(cells)[j] == cells[j];
  }

  lemma GridIsShowable(frame: string)
    ensures Showable(Grid(frame))
  {
    var rows := Paint(Lex(frame), PLAIN);
    PaintIsShowable(Lex(frame), PLAIN);
    forall k | 0 <= k < |rows|
      ensures ShowableCells(Grid(frame)[k]) && Kept(Grid(frame)[k])
    {
      TrimIsShowable(rows[k]);
    }
  }

  // ----- a frame for every such screen

  /** The parameter text of a list of codes. */
  function ParamsOf(codes: seq<nat>): string
    requires codes != []
  {
    if |codes| == 1 then Decimal(codes[0]) else Decimal(codes[0]) + ";" + ParamsOf(codes[1..])
  }

  lemma {:induction false} ParamsReadBack(codes: seq<nat>)
    requires codes != []
    ensures IsParams(ParamsOf(codes))
    ensures WrittenCodes(ParamsOf(codes)) == codes && CodesOf(ParamsOf(codes)) == codes
  {
    CodeText(codes[0]);
    if |codes| == 1 {
      assert codes == [codes[0]];
    } else {
      ParamsReadBack(codes[1..]);
      WrittenCodesCat(Decimal(codes[0]), ParamsOf(codes[1..]));
      assert codes == [codes[0]] + codes[1..];
    }
  }

  predicate NonEmpty(lists: seq<seq<nat>>) { forall k | 0 <= k < |lists| :: lists[k] != [] }

  /** Escapes, one after the other. */
  function Escapes(lists: seq<seq<nat>>): string
    requires NonEmpty(lists)
  {
    if lists == [] then "" else Sequence(ParamsOf(lists[0])) + Escapes(lists[1..])
  }

  function ApplyLists(lists: seq<seq<nat>>, st: Style): Style {
    if lists == [] then st else ApplyLists(lists[1..], ApplyCodes(lists[0], st))
  }

  lemma {:induction false} PaintEscapes(lists: seq<seq<nat>>, q: string, st: Style)
    requires NonEmpty(lists)
    ensures Paint(Lex(Escapes(lists) + q), st) == Paint(Lex(q), ApplyLists(lists, st))
  {
    if lists == [] {
      assert "" + q == q;
    } else {
      var codes, rest := lists[0], Escapes(lists[1..]) + q;
      ParamsReadBack(codes);
      LexSequence(ParamsOf(codes), rest);
      CatAssociates(Sequence(ParamsOf(codes)), Escapes(lists[1..]), q);
      PaintEscapes(lists[1..], q, ApplyCodes(codes, st));
    }
  }

  function Singles(codes: seq<nat>): (lists: seq<seq<nat>>)
    ensures NonEmpty(lists)
  {
    if codes == [] then [] else [[codes[0]]] + Singles(codes[1..])
  }

  /** What selects a style, from whatever style before: a reset, the colours, each attribute. */
  function Dress(st: Style): (lists: seq<seq<nat>>)
    requires Selectable(st)
    ensures NonEmpty(lists)
  {
    var colours := OneOrNone(st.fg);
    var inner := OneOrNone(st.bg) + Singles(AttrList(st.attrs));
    NonEmptyCat(OneOrNone(st.bg), Singles(AttrList(st.attrs)));
    NonEmptyCat(colours, inner);
    NonEmptyCat([[0]], colours + inner);
    [[0]] + (colours + inner)
  }

  lemma NonEmptyCat(a: seq<seq<nat>>, b: seq<seq<nat>>)
    requires NonEmpty(a) && NonEmpty(b)
    ensures NonEmpty(a + b)
  {
  }

  function OneOrNone(c: Option<Color>): seq<seq<nat>> { if c.Some? then [c.value] else [] }

  lemma {:induction false} ApplyListsCat(a: seq<seq<nat>>, b: seq<seq<nat>>, st: Style)
    ensures ApplyLists(a + b, st) == ApplyLists(b, ApplyLists(a, st))
  {
    if a == [] {
      assert a + b == b;
    } else {
      DropCat(a, b, 1);
      ApplyListsCat(a[1..], b, ApplyCodes(a[0], st));
    }
  }

  lemma ApplyOne(codes: seq<nat>, st: Style)
    ensures ApplyLists([codes], st) == ApplyCodes(codes, st)
  {
    assert [codes][1..] == [];
  }

  /** A list that is one operation as a whole. */
  lemma OneOp(codes: seq<nat>, st: Style)
    requires codes != [] && Stride(codes) == |codes|
    ensures ApplyCodes(codes, st) == Apply(HeadOp(codes), st)
  {
    var ops := [HeadOp(codes)];
    assert codes[|codes|..] == [] && Ops([]) == [];
    assert Ops(codes) == ops && ops[1..] == [];
    assert ApplyAll(ops, st) == ApplyAll(ops[1..], Apply(ops[0], st));
  }

  function SetOf(codes: seq<nat>): (attrs: set<nat>)
    ensures forall a :: a in attrs <==> a in codes
  {
    if codes == [] then {} else {codes[0]} + SetOf(codes[1..])
  }

  lemma SetOfCons(attrs: set<nat>, codes: seq<nat>)
    requires codes != []
    ensures attrs + {codes[0]} + SetOf(codes[1..]) == attrs + SetOf(codes)
  {
  }

  lemma SelectAttr(a: nat, st: Style)
    requires IsAttr(a)
    ensures ApplyLists([[a]], st) == Style(st.fg, st.bg, st.attrs + {a})
  {
    ApplyOne([a], st);
    OneOp([a], st);
  }

  lemma {:induction false} ApplySingles(codes: seq<nat>, st: Style)
    requires forall k | 0 <= k < |codes| :: IsAttr(codes[k])
    ensures ApplyLists(Singles(codes), st) == Style(st.fg, st.bg, st.attrs + SetOf(codes))
  {
    if codes == [] {
      assert st.attrs + {} == st.attrs;
    } else {
      SelectAttr(codes[0], st);
      ApplyListsCat([[codes[0]]], Singles(codes[1..]), st);
      ApplySingles(codes[1..], Style(st.fg, st.bg, st.attrs + {codes[0]}));
      SetOfCons(st.attrs, codes);
    }
  }

  lemma SelectFg(c: Color, st: Style)
    requires IsFg(c)
    ensures ApplyCodes(c, st) == st.(fg := Some(c))
  {
    assert Extended(c) == c && (|c| == 1 ==> c == [c[0]]);
    OneOp(c, st);
  }

  lemma SelectBg(c: Color, st: Style)
    requires IsBg(c)
    ensures ApplyCodes(c, st) == st.(bg := Some(c))
  {
    assert Extended(c) == c && (|c| == 1 ==> c == [c[0]]);
    OneOp(c, st);
  }

  lemma SelectColours(fg: Option<Color>, bg: Option<Color>)
    requires (fg.Some? ==> IsFg(fg.value)) && (bg.Some? ==> IsBg(bg.value))
    ensures ApplyLists(OneOrNone(fg), PLAIN) == Style(fg, None, {})
    ensures ApplyLists(OneOrNone(bg), Style(fg, None, {})) == Style(fg, bg, {})
  {
    if fg.Some? {
      ApplyOne(fg.value, PLAIN);
      SelectFg(fg.value, PLAIN);
    }
    if bg.Some? {
      ApplyOne(bg.value, Style(fg, None, {}));
      SelectBg(bg.value, Style(fg, None, {}));
    }
  }

  lemma SelectAttrs(attrs: set<nat>, st: Style)
    requires st.attrs == {} && forall a | a in attrs :: IsAttr(a)
    ensures ApplyLists(Singles(AttrList(attrs)), st) == st.(attrs := attrs)
  {
    var codes := AttrList(attrs);
    assert forall k | 0 <= k < |codes| :: codes[k] in codes;
    ApplySingles(codes, st);
    assert {} + SetOf(codes) == attrs;
  }

  lemma DressSelects(st: Style, before: Style)
    requires Selectable(st)
    ensures ApplyLists(Dress(st), before) == st
  {
    var singles := Singles(AttrList(st.attrs));
    var inner := OneOrNone(st.bg) + singles;
    ApplyListsCat([[0]], OneOrNone(st.fg) + inner, before);
    ApplyOne([0], before);
    OneOp([0], before);
    ApplyListsCat(OneOrNone(st.fg), inner, PLAIN);
    ApplyListsCat(OneOrNone(st.bg), singles, Style(st.fg, None, {}));
    SelectColours(st.fg, st.bg);
    SelectAttrs(st.attrs, Style(st.fg, st.bg, {}));
  }

  function RowFrame(cells: seq<Cell>): string
    requires ShowableCells(cells)
  {
    if cells == [] then "" else Escapes(Dress(cells[0].style)) + ([cells[0].ch] + RowFrame(cells[1..]))
  }

  function FrameOf(rows: seq<seq<Cell>>): string
    requires rows != [] && PaintedCells(rows)
  {
    if |rows| == 1 then RowFrame(rows[0]) else RowFrame(rows[0]) + (['\n'] + FrameOf(rows[1..]))
  }

  /** A cell in front of what a stream paints. */
  function Ahead(cells: seq<Cell>, rows: seq<seq<Cell>>): seq<seq<Cell>>
    requires rows != []
  {
    [cells + rows[0]] + rows[1..]
  }

  /** Even an ESC is a plain character when no bracket follows it. */
  lemma PaintChar(c: char, q: string, st: Style)
    requires c != '\n' && (q == [] || q[0] != '[')
    ensures Paint(Lex([c] + q), st) == [[CellOf(c, st)] + Paint(Lex(q), st)[0]] + Paint(Lex(q), st)[1..]
  {
    assert ([c] + q)[1..] == q;
    LexUnfold([c] + q);
    var items := [Glyph(c)] + Lex(q);
    assert Lex([c] + q) == items && items[1..] == Lex(q);
  }

  lemma PaintOneCell(cell: Cell, tail: string, st: Style)
    requires ShowableCell(cell) && (tail == [] || tail[0] != '[')
    ensures Paint(Lex(Escapes(Dress(cell.style)) + ([cell.ch] + tail)), st)
            == Ahead([cell], Paint(Lex(tail), cell.style))
  {
    PaintEscapes(Dress(cell.style), [cell.ch] + tail, st);
    DressSelects(cell.style, st);
    PaintChar(cell.ch, tail, cell.style);
  }

  lemma AheadCons(cell: Cell, cells: seq<Cell>, rows: seq<seq<Cell>>)
    requires rows != []
    ensures Ahead([cell], Ahead(cells, rows)) == Ahead([cell] + cells, rows)
  {
    assert [cell] + (cells + rows[0]) == ([cell] + cells) + rows[0];
  }

  function EndStyle(cells: seq<Cell>, st: Style): Style {
    if cells == [] then st else cells[|cells| - 1].style
  }

  lemma PaintFirst(cells: seq<Cell>, q: string, rows: seq<seq<Cell>>, st: Style)
    requires ShowableCells(cells) && cells != [] && rows != []
    requires RowFrame(cells[1..]) + q == [] || (RowFrame(cells[1..]) + q)[0] != '['
    requires Paint(Lex(RowFrame(cells[1..]) + q), cells[0].style) == Ahead(cells[1..], rows)
    ensures Paint(Lex(RowFrame(cells) + q), st) == Ahead(cells, rows)
  {
    var cell, rest := cells[0], RowFrame(cells[1..]);
    CatAssociates(Escapes(Dress(cell.style)), [cell.ch] + rest, q);
    CatAssociates([cell.ch], rest, q);
    PaintOneCell(cell, rest + q, st);
    AheadCons(cell, cells[1..], rows);
    assert [cell] + cells[1..] == cells;
  }

  lemma {:induction false} PaintRowFrame(cells: seq<Cell>, q: string, st: Style)
    requires ShowableCells(cells) && (q == [] || q[0] == '\n')
    ensures Paint(Lex(RowFrame(cells) + q), st) == Ahead(cells, Paint(Lex(q), EndStyle(cells, st)))
  {
    if cells == [] {
      assert "" + q == q;
      var rows := Paint(Lex(q), st);
      assert [] + rows[0] == rows[0];
    } else {
      PaintRowFrame(cells[1..], q, cells[0].style);
      assert EndStyle(cells[1..], cells[0].style) == EndStyle(cells, st);
      PaintFirst(cells, q, Paint(Lex(q), EndStyle(cells, st)), st);
    }
  }

  lemma {:induction false} PaintFrameOf(rows: seq<seq<Cell>>, st: Style)
    requires rows != [] && PaintedCells(rows)
    ensures Paint(Lex(FrameOf(rows)), st) == rows
  {
    var row, end := rows[0], EndStyle(rows[0], st);
    if |rows| == 1 {
      CatEmpty(RowFrame(row));
      PaintRowFrame(row, [], st);
      LastRow(row, end);
      assert rows == [row];
    } else {
      PaintFrameOf(rows[1..], end);
      PaintRowFrame(row, ['\n'] + FrameOf(rows[1..]), st);
      RowAhead(row, FrameOf(rows[1..]), end);
      assert rows == [row] + rows[1..];
    }
  }

  lemma LastRow(row: seq<Cell>, st: Style)
    ensures Ahead(row, Paint(Lex([]), st)) == [row]
  {
    assert Lex([]) == [] && Paint([], st) == [[]];
    CatEmpty(row);
  }

  lemma RowAhead(row: seq<Cell>, q: string, st: Style)
    ensures Ahead(row, Paint(Lex(['\n'] + q), st)) == [row] + Paint(Lex(q), st)
  {
    LexGlyph('\n', q);
    var items := [Glyph('\n')] + Lex(q);
    assert items[1..] == Lex(q);
    assert Paint(items, st) == [[]] + Paint(Lex(q), st);
    CatEmpty(row);
  }

  lemma FrameOfShows(rows: seq<seq<Cell>>)
    requires Showable(rows)
    ensures PaintedCells(rows) && Grid(FrameOf(rows)) == rows
  {
    PaintFrameOf(rows, PLAIN);
    assert forall k | 0 <= k < |rows| :: Trim(rows[k]) == rows[k];
    assert TrimRows(rows) == rows;
  }

  /** Exactly which screens frames have. */
  lemma ScreensAreShowable(rows: seq<seq<Cell>>)
    ensures Showable(rows) <==> exists frame :: Grid(frame) == rows
  {
    if Showable(rows) {
      FrameOfShows(rows);
    }
    forall frame | Grid(frame) == rows
      ensures Showable(rows)
    {
      GridIsShowable(frame);
    }
  }

  // ----- merging two escapes, wherever they stand

  lemma {:induction false} AfterIsSelectable(items: seq<Item>, st: Style)
    requires Selectable(st)
    ensures Selectable(After(items, st))
  {
    if items != [] {
      match items[0]
      case Glyph(_) => AfterIsSelectable(items[1..], st);
      case Escape(codes) =>
        OpsStaySelectable(codes, st);
        AfterIsSelectable(items[1..], ApplyCodes(codes, st));
    }
  }

  lemma {:induction false} AfterEscapes(lists: seq<seq<nat>>, st: Style)
    requires NonEmpty(lists)
    ensures After(Lex(Escapes(lists)), st) == ApplyLists(lists, st)
  {
    if lists != [] {
      var rest := Escapes(lists[1..]);
      ParamsReadBack(lists[0]);
      LexSequence(ParamsOf(lists[0]), rest);
      var items := [Escape(lists[0])] + Lex(rest);
      assert items[1..] == Lex(rest);
      AfterEscapes(lists[1..], ApplyCodes(lists[0], st));
    }
  }

  lemma StyleHasFrame(st: Style)
    requires Selectable(st)
    ensures StyleAt(Escapes(Dress(st))) == st
  {
    AfterEscapes(Dress(st), PLAIN);
    DressSelects(st, PLAIN);
  }

  lemma MergesFrom(a: string, b: string, st: Style)
    requires IsParams(a) && IsParams(b) && Selectable(st)
    requires forall p, q :: MergeKeeps(p, a, b, q)
    ensures MergeAgrees(a, b, st)
  {
    StyleHasFrame(st);
    MergeIsExact(Escapes(Dress(st)), a, b);
  }

  lemma MergesAt(a: string, b: string, p: string, q: string)
    requires IsParams(a) && IsParams(b)
    requires forall st | Selectable(st) :: MergeAgrees(a, b, st)
    ensures MergeKeeps(p, a, b, q)
  {
    AfterIsSelectable(Lex(p), PLAIN);
    MergeIsExact(p, a, b);
  }

  /** Merging two escapes keeps the screen of every frame they may stand in exactly when both ways
      lead to the same style from every style that escapes can select. */
  lemma MergeAlwaysIff(a: string, b: string)
    requires IsParams(a) && IsParams(b)
    ensures (forall p, q :: MergeKeeps(p, a, b, q)) <==> forall st | Selectable(st) :: MergeAgrees(a, b, st)
  {
    if forall p, q :: MergeKeeps(p, a, b, q) {
      forall st | Selectable(st)
        ensures MergeAgrees(a, b, st)
      {
        MergesFrom(a, b, st);
      }
    }
    if forall st | Selectable(st) :: MergeAgrees(a, b, st) {
      forall p, q
        ensures MergeKeeps(p, a, b, q)
      {
        MergesAt(a, b, p, q);
      }
    }
  }

  /** A reset and an empty list merge into one reset on every screen, although their operations
      are two. */
  lemma ResetsMerge(p: string, q: string)
    ensures IsParams("0") && IsParams("") && !Mergeable("0", "") && MergeKeeps(p, "0", "", q)
  {
    CodeText(0);
    ShortCodes();
    assert Decimal(0) == "0";
    WrittenCodesCat("0", "");
    assert [0] + [] == [0];
    forall st
      ensures MergeAgrees("0", "", st)
    {
      OneOp([0], st);
      OneOp([0], PLAIN);
    }
    MergesAt("0", "", p, q);
  }

  // ----- the token rows the printer emits

  /** A row of tokens as the printer writes it from `pen` on: each tag announces a new
      selectable style that the character behind it shows. */
  predicate Legal(tokens: seq<Token>, pen: Style) {
    if tokens == [] then true
    else match tokens[0]
      case Char(c) => c != '\n' && Legal(tokens[1..], pen)
      case Tag(st) =>
        && |tokens| > 1 && tokens[1].Char? && tokens[1].ch != '\n'
        && Selectable(st)
        && CellOf(tokens[1].ch, st) == Cell(tokens[1].ch, st)
        && NeedsTag(Cell(tokens[1].ch, st), pen)
        && Legal(tokens[2..], st)
  }

  predicate LegalRow(tokens: seq<Token>) { Legal(tokens, PLAIN) && Kept(Decode(tokens, PLAIN)) }

  lemma {:induction false} PrintIsLegal(cells: seq<Cell>, pen: Style)
    requires ShowableCells(cells)
    ensures Legal(Print(cells, pen), pen)
  {
    if cells != [] {
      var cell := cells[0];
      if NeedsTag(cell, pen) {
        var tail := Print(cells[1..], cell.style);
        PrintIsLegal(cells[1..], cell.style);
        assert Print(cells, pen)[2..] == tail;
      } else {
        PrintIsLegal(cells[1..], pen);
      }
    }
  }

  lemma {:induction false} LegalIsPrinted(tokens: seq<Token>, pen: Style)
    requires Legal(tokens, pen) && Selectable(pen)
    ensures ShowableCells(Decode(tokens, pen))
    ensures Print(Decode(tokens, pen), pen) == tokens
  {
    if tokens != [] {
      match tokens[0]
      case Char(c) =>
        LegalIsPrinted(tokens[1..], pen);
        var cells := [CellOf(c, pen)] + Decode(tokens[1..], pen);
        assert cells[1..] == Decode(tokens[1..], pen);
      case Tag(st) =>
        LegalIsPrinted(tokens[2..], st);
        var c := tokens[1].ch;
        assert tokens[1..][1..] == tokens[2..];
        var cells := [Cell(c, st)] + Decode(tokens[2..], st);
        assert Decode(tokens, pen) == cells && cells[1..] == Decode(tokens[2..], st);
        assert tokens == [Tag(st), Char(c)] + tokens[2..];
    }
  }

  predicate LegalRows(rows: seq<seq<Token>>) { rows != [] && forall k | 0 <= k < |rows| :: LegalRow(rows[k]) }

  lemma TokensAreLegal(frame: string)
    ensures LegalRows(TokenRows(frame))
  {
    var grid := Grid(frame);
    GridIsShowable(frame);
    GridIsDrawn(frame);
    forall k | 0 <= k < |grid|
      ensures LegalRow(TokenRows(frame)[k])
    {
      PrintIsLegal(grid[k], PLAIN);
      DecodeOfPrint(grid[k], PLAIN);
    }
  }

  lemma LegalHasFrame(rows: seq<seq<Token>>) returns (frame: string)
    requires LegalRows(rows)
    ensures TokenRows(frame) == rows
  {
    var grid := DecodeRows(rows);
    forall k | 0 <= k < |rows|
      ensures ShowableCells(grid[k]) && Kept(grid[k]) && Print(grid[k], PLAIN) == rows[k]
    {
      assert LegalRow(rows[k]);
      LegalIsPrinted(rows[k], PLAIN);
    }
    FrameOfShows(grid);
    frame := FrameOf(grid);
    assert PrintRows(grid) == rows;
  }

  /** Exactly which token rows are a normal form. */
  lemma NormalFormsAreLegal(rows: seq<seq<Token>>)
    ensures LegalRows(rows) <==> exists frame :: TokenRows(frame) == rows
  {
    if LegalRows(rows) {
      var frame := LegalHasFrame(rows);
    }
    forall frame | TokenRows(frame) == rows
      ensures LegalRows(rows)
    {
      TokensAreLegal(frame);
    }
  }

  // ----- when the text determines the screen

  /** Each row's text can be read as a legal row of tokens in one way only. */
  ghost predicate ReadOneWay(frame: string) {
    forall k, tokens | 0 <= k < |TokenRows(frame)| && LegalRow(tokens) ::
      RowText(tokens) == RowText(TokenRows(frame)[k]) ==> tokens == TokenRows(frame)[k]
  }

  ghost predicate TextDetermines(frame: string) {
    forall other :: FrameText(other) == FrameText(frame) ==> Grid(other) == Grid(frame)
  }

  lemma OneWayDetermines(frame: string, other: string)
    requires ReadOneWay(frame) && FrameText(other) == FrameText(frame)
    ensures Grid(other) == Grid(frame)
  {
    RowsOfText(frame);
    RowsOfText(other);
    TokensAreLegal(other);
    var s, t := TokenRows(frame), TokenRows(other);
    assert |s| == |RowTexts(s)| == |RowTexts(t)| == |t|;
    forall k | 0 <= k < |s|
      ensures t[k] == s[k]
    {
      assert RowTexts(s)[k] == RowTexts(t)[k];
      assert LegalRow(t[k]);
    }
    TokensAreCanonical(other, frame);
  }

  lemma OtherReadingCollides(frame: string, k: nat, tokens: seq<Token>)
    requires k < |TokenRows(frame)| && LegalRow(tokens)
    requires RowText(tokens) == RowText(TokenRows(frame)[k]) && tokens != TokenRows(frame)[k]
    ensures !TextDetermines(frame)
  {
    var rows := TokenRows(frame)[k := tokens];
    TokensAreLegal(frame);
    var other := LegalHasFrame(rows);
    assert RowTexts(rows) == RowTexts(TokenRows(frame));
    assert rows[k] != TokenRows(frame)[k];
    TokensAreCanonical(other, frame);
    assert FrameText(other) == FrameText(frame);
  }

  /** The returned text determines the screen exactly when no row has another reading. */
  lemma DeterminesIfReadOneWay(frame: string)
    ensures TextDetermines(frame) <==> ReadOneWay(frame)
  {
    if ReadOneWay(frame) {
      forall other | FrameText(other) == FrameText(frame)
        ensures Grid(other) == Grid(frame)
      {
        OneWayDetermines(frame, other);
      }
    } else {
      var k, tokens :| 0 <= k < |TokenRows(frame)| && LegalRow(tokens)
                       && RowText(tokens) == RowText(TokenRows(frame)[k]) && tokens != TokenRows(frame)[k];
      OtherReadingCollides(frame, k, tokens);
    }
  }
}
