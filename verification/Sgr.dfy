/** The screen materializer of scripts/bang_parity.py: a frame of text with SGR escapes is
    interpreted into per-cell screen state, trimmed, and printed as one normal form. */
module Sgr {
  import opened Text

  // ----- the style a cell can carry

  /** A colour is the tuple of codes that selected it: `(31,)`, `(38, 5, 196)`, ... */
  type Color = seq<nat>

  datatype Style = Style(fg: Option<Color>, bg: Option<Color>, attrs: set<nat>)

  const PLAIN: Style := Style(None, None, {})

  /** One screen cell; a space shows nothing but its background. */
  datatype Cell = Cell(ch: char, style: Style)

  function CellOf(c: char, st: Style): Cell {
    if c == ' ' then Cell(c, Style(None, st.bg, {})) else Cell(c, st)
  }

  // ----- SGR codes: a list of codes denotes a list of operations

  datatype Op =
    | Reset
    | SetFg(color: Option<Color>)
    | SetBg(color: Option<Color>)
    | ClearIntensity
    | Clear(attr: nat)
    | Add(attr: nat)

  function Apply(op: Op, st: Style): Style {
    match op
    case Reset => PLAIN
    case SetFg(color) => st.(fg := color)
    case SetBg(color) => st.(bg := color)
    case ClearIntensity => st.(attrs := st.attrs - {1, 2})
    case Clear(attr) => st.(attrs := st.attrs - {attr})
    case Add(attr) => st.(attrs := st.attrs + {attr})
  }

  function ApplyAll(ops: seq<Op>, st: Style): Style {
    if ops == [] then st else ApplyAll(ops[1..], Apply(ops[0], st))
  }

  /** The colour an extended selector (38 or 48) at the head of `codes` picks up. */
  function Extended(codes: seq<nat>): (color: Color)
    requires |codes| > 0
    ensures 1 <= |color| <= |codes|
  {
    if |codes| > 4 && codes[1] == 2 then codes[..5]
    else if |codes| > 2 && codes[1] == 5 then codes[..3]
    else codes[..1]
  }

  /** How many codes the operation at the head of `codes` consumes. */
  function Stride(codes: seq<nat>): (n: nat)
    requires |codes| > 0
    ensures 1 <= n <= |codes|
  {
    if codes[0] == 38 || codes[0] == 48 then |Extended(codes)| else 1
  }

  function HeadOp(codes: seq<nat>): Op
    requires |codes| > 0
  {
    var code := codes[0];
    if code == 0 then Reset
    else if code == 39 then SetFg(None)
    else if code == 49 then SetBg(None)
    else if code == 38 then SetFg(Some(Extended(codes)))
    else if code == 48 then SetBg(Some(Extended(codes)))
    else if 30 <= code <= 37 || 90 <= code <= 97 then SetFg(Some([code]))
    else if 40 <= code <= 47 || 100 <= code <= 107 then SetBg(Some([code]))
    else if code == 22 then ClearIntensity
    else if 21 <= code <= 29 then Clear(code - 20)
    else Add(code)
  }

  function Ops(codes: seq<nat>): seq<Op> {
    if codes == [] then [] else [HeadOp(codes)] + Ops(codes[Stride(codes)..])
  }

  function ApplyCodes(codes: seq<nat>, st: Style): Style {
    ApplyAll(Ops(codes), st)
  }

  // ----- lexing: the regular expression ESC [ ([0-9;]*) m

  predicate IsParam(c: char) { IsDigit(c) || c == ';' }

  predicate IsParams(s: string) { forall k | 0 <= k < |s| :: IsParam(s[k]) }

  /** Length of the SGR sequence at the head of `s`, or 0 when there is none. */
  function SgrLength(s: string): (n: nat)
    ensures n == 0 || 3 <= n <= |s|
    ensures n > 0 ==> IsParams(s[2..n - 1])
  {
    if |s| >= 2 && s[0] == ESC && s[1] == '[' then
      var n := RunLength(s[2..], IsParam);
      if n + 2 < |s| && s[n + 2] == 'm' then
        assert forall i | 0 <= i < n :: s[2..n + 2][i] == s[2..][i];
        n + 3
      else 0
    else 0
  }

  predicate AllDigits(parts: seq<string>) { forall k | 0 <= k < |parts| :: Digits(parts[k]) }

  /** The decimal values of the non-empty parts. */
  function Numbers(parts: seq<string>): seq<nat>
    requires AllDigits(parts)
  {
    if parts == [] then []
    else (if parts[0] == [] then [] else [Value(parts[0])]) + Numbers(parts[1..])
  }

  lemma {:induction false} SplitParts(s: string)
    requires IsParams(s)
    ensures AllDigits(Split(s, ';'))
  {
    if s != [] {
      SplitParts(s[1..]);
      assert IsParam(s[0]);
    }
  }

  /** The codes written in the parameter text, before the empty-list default. */
  function WrittenCodes(params: string): seq<nat>
    requires IsParams(params)
  {
    SplitParts(params);
    Numbers(Split(params, ';'))
  }

  function CodesOf(params: string): (codes: seq<nat>)
    requires IsParams(params)
    ensures codes != []
  {
    if WrittenCodes(params) == [] then [0] else WrittenCodes(params)
  }

  datatype Item = Glyph(ch: char) | Escape(codes: seq<nat>)

  /** How much of `s` its first item takes. */
  function HeadLength(s: string): (n: nat)
    requires s != []
    ensures 1 <= n <= |s|
  {
    if SgrLength(s) > 0 then SgrLength(s) else 1
  }

  /** The codes of the SGR sequence at the head of `s`. */
  function HeadCodes(s: string): seq<nat>
    requires SgrLength(s) > 0
  {
    CodesOf(s[2..SgrLength(s) - 1])
  }

  function HeadItem(s: string): Item
    requires s != []
  {
    if SgrLength(s) > 0 then Escape(HeadCodes(s)) else Glyph(s[0])
  }

  function Lex(s: string): seq<Item> {
    if s == [] then [] else [HeadItem(s)] + Lex(s[HeadLength(s)..])
  }

  // ----- the screen: one running style over the whole stream

  function After(items: seq<Item>, st: Style): Style {
    if items == [] then st
    else match items[0]
      case Glyph(_) => After(items[1..], st)
      case Escape(codes) => After(items[1..], ApplyCodes(codes, st))
  }

  /** The rows of cells a stream of items paints, starting in style `st`. */
  function Paint(items: seq<Item>, st: Style): (rows: seq<seq<Cell>>)
    ensures |rows| >= 1
  {
    if items == [] then [[]]
    else match items[0]
      case Escape(codes) => Paint(items[1..], ApplyCodes(codes, st))
      case Glyph(c) =>
        var rest := Paint(items[1..], st);
        if c == '\n' then [[]] + rest
        else [[CellOf(c, st)] + rest[0]] + rest[1..]
  }

  predicate Blank(cell: Cell) { cell.ch == ' ' && cell.style.bg == None }

  function Trim(cells: seq<Cell>): seq<Cell> {
    if cells != [] && Blank(cells[|cells| - 1]) then Trim(cells[..|cells| - 1]) else cells
  }

  function TrimRows(rows: seq<seq<Cell>>): (trimmed: seq<seq<Cell>>)
    ensures |trimmed| == |rows|
    ensures forall k | 0 <= k < |rows| :: trimmed[k] == Trim(rows[k])
  {
    seq(|rows|, k requires 0 <= k < |rows| => Trim(rows[k]))
  }

  /** What the user sees: the trimmed cells of every row. */
  function Grid(frame: string): seq<seq<Cell>> {
    TrimRows(Paint(Lex(frame), PLAIN))
  }

  // ----- the row printer and its decoder

  datatype Token = Tag(style: Style) | Char(ch: char)

  /** Does the printer announce a new style before this cell? */
  predicate NeedsTag(cell: Cell, pen: Style) {
    cell.style != pen && (cell.ch != ' ' || cell.style.bg != pen.bg)
  }

  function Print(cells: seq<Cell>, pen: Style): seq<Token> {
    if cells == [] then []
    else if NeedsTag(cells[0], pen) then
      [Tag(cells[0].style), Char(cells[0].ch)] + Print(cells[1..], cells[0].style)
    else
      [Char(cells[0].ch)] + Print(cells[1..], pen)
  }

  function Decode(tokens: seq<Token>, pen: Style): seq<Cell> {
    if tokens == [] then []
    else match tokens[0]
      case Tag(style) => Decode(tokens[1..], style)
      case Char(c) => [CellOf(c, pen)] + Decode(tokens[1..], pen)
  }

  /** Cells as the interpreter pushes them: a space carries only its background. */
  predicate Drawn(cells: seq<Cell>) {
    forall cell | cell in cells :: cell.ch == ' ' ==> cell.style == Style(None, cell.style.bg, {})
  }

  lemma {:induction false} DecodeOfPrint(cells: seq<Cell>, pen: Style)
    requires Drawn(cells)
    ensures Decode(Print(cells, pen), pen) == cells
  {
    if cells != [] {
      var cell, rest := cells[0], cells[1..];
      assert cell in cells;
      if NeedsTag(cell, pen) {
        DecodeOfPrint(rest, cell.style);
        var tail := Print(rest, cell.style);
        assert Print(cells, pen) == [Tag(cell.style)] + ([Char(cell.ch)] + tail);
        assert ([Char(cell.ch)] + tail)[1..] == tail;
      } else {
        DecodeOfPrint(rest, pen);
        assert CellOf(cell.ch, pen) == cell;
      }
    }
  }

  function PrintRows(rows: seq<seq<Cell>>): (tokens: seq<seq<Token>>)
    ensures |tokens| == |rows|
    ensures forall k | 0 <= k < |rows| :: tokens[k] == Print(rows[k], PLAIN)
  {
    seq(|rows|, k requires 0 <= k < |rows| => Print(rows[k], PLAIN))
  }

  /** The normal form as tokens, one list per row. */
  function TokenRows(frame: string): seq<seq<Token>> {
    PrintRows(Grid(frame))
  }

  predicate DrawnRows(rows: seq<seq<Cell>>) { forall k | 0 <= k < |rows| :: Drawn(rows[k]) }

  lemma {:induction false} PaintIsDrawn(items: seq<Item>, st: Style)
    ensures DrawnRows(Paint(items, st))
  {
    if items != [] {
      match items[0]
      case Escape(codes) => PaintIsDrawn(items[1..], ApplyCodes(codes, st));
      case Glyph(_) => PaintIsDrawn(items[1..], st);
    }
  }

  lemma {:induction false} TrimIsPrefix(cells: seq<Cell>)
    ensures Trim(cells) <= cells
    ensures Trim(cells) != [] ==> !Blank(Trim(cells)[|Trim(cells)| - 1])
  {
    if cells != [] && Blank(cells[|cells| - 1]) {
      TrimIsPrefix(cells[..|cells| - 1]);
    }
  }

  lemma GridIsDrawn(frame: string)
    ensures DrawnRows(Grid(frame))
  {
    var rows := Paint(Lex(frame), PLAIN);
    PaintIsDrawn(Lex(frame), PLAIN);
    forall k | 0 <= k < |rows|
      ensures Drawn(Grid(frame)[k])
    {
      TrimIsPrefix(rows[k]);
      assert forall cell | cell in Trim(rows[k]) :: cell in rows[k];
    }
  }

  function DecodeRows(tokens: seq<seq<Token>>): seq<seq<Cell>> {
    seq(|tokens|, k requires 0 <= k < |tokens| => Decode(tokens[k], PLAIN))
  }

  /** The decoder recovers the trimmed screen from the normal form. */
  lemma DecodeRecoversGrid(frame: string)
    ensures DecodeRows(TokenRows(frame)) == Grid(frame)
  {
    GridIsDrawn(frame);
    forall k | 0 <= k < |Grid(frame)|
      ensures DecodeRows(TokenRows(frame))[k] == Grid(frame)[k]
    {
      DecodeOfPrint(Grid(frame)[k], PLAIN);
    }
  }

  /** Canonicity: equal normal forms exactly when the trimmed screens are equal. */
  lemma TokensAreCanonical(f: string, g: string)
    ensures TokenRows(f) == TokenRows(g) <==> Grid(f) == Grid(g)
  {
    DecodeRecoversGrid(f);
    DecodeRecoversGrid(g);
  }
}
