/** The normal form as the string the comparison really uses, and when that string is as
    good as the tokens. */
module SgrText {
  import opened Text
  import opened Order
  import opened Sgr

  // ----- Python's rendering of None, of tuples of integers, and of one tag

  function Elements(t: seq<nat>): (s: string)
    requires t != []
  {
    if |t| == 1 then Decimal(t[0]) else Decimal(t[0]) + [','] + ([' '] + Elements(t[1..]))
  }

  function TupleText(t: seq<nat>): string {
    if t == [] then "()"
    else if |t| == 1 then "(" + Decimal(t[0]) + [','] + ")"
    else "(" + Elements(t) + ")"
  }

  function ColorText(c: Option<Color>): string {
    if c.None? then "None" else TupleText(c.value)
  }

  function AttrList(attrs: set<nat>): (a: seq<nat>)
    ensures forall x :: x in a <==> x in attrs
  {
    var a := Sorted(attrs);
    assert forall k | 0 <= k < |a| :: a[k] in a;
    a
  }

  function TagBody(st: Style): string {
    ColorText(st.fg) + ['|'] + (ColorText(st.bg) + ['|'] + TupleText(AttrList(st.attrs)))
  }

  function TokenText(token: Token): string {
    match token
    case Tag(style) => "<" + TagBody(style) + [ '>' ]
    case Char(c) => [c]
  }

  function RowText(tokens: seq<Token>): string {
    if tokens == [] then [] else TokenText(tokens[0]) + RowText(tokens[1..])
  }

  function RowTexts(rows: seq<seq<Token>>): (texts: seq<string>)
    ensures |texts| == |rows|
    ensures forall k | 0 <= k < |rows| :: texts[k] == RowText(rows[k])
  {
    seq(|rows|, k requires 0 <= k < |rows| => RowText(rows[k]))
  }

  /** What `materialize_sgr` returns. */
  function FrameText(frame: string): string {
    Join(RowTexts(TokenRows(frame)), '\n')
  }

  // ----- the rendering of one tag can be read back

  /** No character that the tag syntax itself uses. */
  predicate Inert(s: string) {
    forall k | 0 <= k < |s| :: s[k] != '<' && s[k] != '|' && s[k] != '>' && s[k] != '\n'
  }

  lemma DigitsAreInert(n: nat)
    ensures Inert(Decimal(n))
  {
    assert forall k | 0 <= k < |Decimal(n)| :: Decimal(n)[k] in Decimal(n);
  }

  lemma {:induction false} ElementsInert(t: seq<nat>)
    requires t != []
    ensures Inert(Elements(t))
    ensures ',' in Elements(t) <==> |t| > 1
  {
    DigitsAreInert(t[0]);
    if |t| > 1 {
      ElementsInert(t[1..]);
      assert Elements(t)[|Decimal(t[0])|] == ',';
    }
  }

  lemma ColorTextInert(c: Option<Color>)
    ensures Inert(ColorText(c))
    ensures c.Some? <==> ColorText(c)[0] == '('
  {
    if c.Some? && c.value != [] {
      DigitsAreInert(c.value[0]);
      ElementsInert(c.value);
    }
  }

  lemma {:induction false} ElementsInjective(s: seq<nat>, t: seq<nat>)
    requires s != [] && t != []
    requires Elements(s) == Elements(t)
    ensures s == t
  {
    ElementsInert(s);
    ElementsInert(t);
    if |s| == 1 {
      DecimalInjective(s[0], t[0]);
    } else {
      CutIsUnique(Decimal(s[0]), [' '] + Elements(s[1..]), Decimal(t[0]), [' '] + Elements(t[1..]), ',');
      DecimalInjective(s[0], t[0]);
      assert ([' '] + Elements(s[1..]))[1..] == Elements(s[1..]);
      assert ([' '] + Elements(t[1..]))[1..] == Elements(t[1..]);
      ElementsInjective(s[1..], t[1..]);
      assert s == [s[0]] + s[1..] && t == [t[0]] + t[1..];
    }
  }

  /** The text between the parentheses. */
  function TupleInner(t: seq<nat>): string {
    if t == [] then "" else if |t| == 1 then Decimal(t[0]) + [','] + "" else Elements(t)
  }

  lemma TupleInjective(s: seq<nat>, t: seq<nat>)
    requires TupleText(s) == TupleText(t)
    ensures s == t
  {
    assert TupleText(s)[1..|TupleText(s)| - 1] == TupleInner(s);
    assert TupleText(t)[1..|TupleText(t)| - 1] == TupleInner(t);
    if s != [] && t != [] {
      if |s| == 1 && |t| == 1 {
        CutIsUnique(Decimal(s[0]), "", Decimal(t[0]), "", ',');
        DecimalInjective(s[0], t[0]);
      } else if |s| == 1 {
        CutIsUnique(Decimal(s[0]), "", Decimal(t[0]), [' '] + Elements(t[1..]), ',');
      } else if |t| == 1 {
        CutIsUnique(Decimal(s[0]), [' '] + Elements(s[1..]), Decimal(t[0]), "", ',');
      } else {
        ElementsInjective(s, t);
      }
    }
  }

  lemma ColorInjective(c: Option<Color>, d: Option<Color>)
    requires ColorText(c) == ColorText(d)
    ensures c == d
  {
    ColorTextInert(c);
    ColorTextInert(d);
    if c.Some? {
      TupleInjective(c.value, d.value);
    }
  }

  lemma TagBodyInjective(s: Style, t: Style)
    requires TagBody(s) == TagBody(t)
    ensures s == t
  {
    ColorTextInert(s.fg);
    ColorTextInert(s.bg);
    ColorTextInert(t.fg);
    ColorTextInert(t.bg);
    var sRest := ColorText(s.bg) + ['|'] + TupleText(AttrList(s.attrs));
    var tRest := ColorText(t.bg) + ['|'] + TupleText(AttrList(t.attrs));
    CutIsUnique(ColorText(s.fg), sRest, ColorText(t.fg), tRest, '|');
    CutIsUnique(ColorText(s.bg), TupleText(AttrList(s.attrs)), ColorText(t.bg), TupleText(AttrList(t.attrs)), '|');
    ColorInjective(s.fg, t.fg);
    ColorInjective(s.bg, t.bg);
    TupleInjective(AttrList(s.attrs), AttrList(t.attrs));
    assert forall x :: x in s.attrs <==> x in t.attrs;
  }

  lemma PiecesMiss(x: string, y: string, z: string, c: char)
    requires c !in x && c !in y && c !in z && c != '|'
    ensures c !in x + ['|'] + (y + ['|'] + z)
  {
    assert c !in y + ['|'] + z;
  }

  lemma TagBodyChars(st: Style)
    ensures '>' !in TagBody(st) && '<' !in TagBody(st) && '\n' !in TagBody(st)
  {
    var attrs := AttrList(st.attrs);
    ColorTextInert(st.fg);
    ColorTextInert(st.bg);
    ColorTextInert(Some(attrs));
    PiecesMiss(ColorText(st.fg), ColorText(st.bg), TupleText(attrs), '>');
    PiecesMiss(ColorText(st.fg), ColorText(st.bg), TupleText(attrs), '<');
    PiecesMiss(ColorText(st.fg), ColorText(st.bg), TupleText(attrs), '\n');
  }

  // ----- a whole row can be read back when no cell shows '<'

  predicate NoAngle(tokens: seq<Token>) { forall k | 0 <= k < |tokens| :: tokens[k] != Char('<') }

  lemma TagHead(s: seq<Token>)
    requires s != [] && s[0].Tag?
    ensures RowText(s) == ['<'] + (TagBody(s[0].style) + ['>'] + RowText(s[1..]))
  {
  }

  /** Equal row texts start with the same token and go on equally. */
  lemma HeadInjective(s: seq<Token>, t: seq<Token>)
    requires s != [] && t != []
    requires NoAngle(s) && NoAngle(t)
    requires RowText(s) == RowText(t)
    ensures s[0] == t[0]
    ensures RowText(s[1..]) == RowText(t[1..])
  {
    assert RowText(s)[0] == (if s[0].Tag? then '<' else s[0].ch);
    assert RowText(t)[0] == (if t[0].Tag? then '<' else t[0].ch);
    assert s[0].Tag? == t[0].Tag?;
    if s[0].Tag? {
      var a, b := s[0].style, t[0].style;
      TagHead(s);
      TagHead(t);
      TagBodyChars(a);
      TagBodyChars(b);
      assert RowText(s)[1..] == TagBody(a) + ['>'] + RowText(s[1..]);
      assert RowText(t)[1..] == TagBody(b) + ['>'] + RowText(t[1..]);
      CutIsUnique(TagBody(a), RowText(s[1..]), TagBody(b), RowText(t[1..]), '>');
      TagBodyInjective(a, b);
    } else {
      assert RowText(s)[1..] == RowText(s[1..]) && RowText(t)[1..] == RowText(t[1..]);
    }
  }

  lemma {:induction false} RowTextInjective(s: seq<Token>, t: seq<Token>)
    requires NoAngle(s) && NoAngle(t)
    requires RowText(s) == RowText(t)
    ensures s == t
  {
    if s != [] && t != [] {
      HeadInjective(s, t);
      RowTextInjective(s[1..], t[1..]);
      assert s == [s[0]] + s[1..] && t == [t[0]] + t[1..];
    }
  }

  // ----- the characters of the tokens come from the frame

  predicate CharsFrom(cells: seq<Cell>, frame: string) {
    forall k | 0 <= k < |cells| :: cells[k].ch in frame && cells[k].ch != '\n'
  }

  predicate RowsFrom(rows: seq<seq<Cell>>, frame: string) {
    forall r | 0 <= r < |rows| :: CharsFrom(rows[r], frame)
  }

  predicate GlyphsFrom(items: seq<Item>, frame: string) {
    forall k | 0 <= k < |items| && items[k].Glyph? :: items[k].ch in frame
  }

  lemma {:induction false} LexChars(frame: string, s: string)
    requires forall k | 0 <= k < |s| :: s[k] in frame
    ensures GlyphsFrom(Lex(s), frame)
    decreases |s|
  {
    if s != [] {
      LexChars(frame, s[HeadLength(s)..]);
    }
  }

  lemma {:induction false} PaintChars(frame: string, items: seq<Item>, st: Style)
    requires GlyphsFrom(items, frame)
    ensures RowsFrom(Paint(items, st), frame)
  {
    if items != [] {
      match items[0]
      case Escape(codes) => PaintChars(frame, items[1..], ApplyCodes(codes, st));
      case Glyph(c) =>
        assert items[0].ch in frame;
        PaintChars(frame, items[1..], st);
    }
  }

  lemma {:induction false} PrintChars(cells: seq<Cell>, pen: Style, frame: string)
    requires CharsFrom(cells, frame)
    ensures forall k | 0 <= k < |Print(cells, pen)| && Print(cells, pen)[k].Char? ::
              Print(cells, pen)[k].ch in frame && Print(cells, pen)[k].ch != '\n'
  {
    if cells != [] {
      PrintChars(cells[1..], if NeedsTag(cells[0], pen) then cells[0].style else pen, frame);
    }
  }

  lemma TokenChars(frame: string, r: nat)
    requires r < |TokenRows(frame)|
    ensures '<' !in frame ==> NoAngle(TokenRows(frame)[r])
    ensures '\n' !in RowText(TokenRows(frame)[r])
  {
    LexChars(frame, frame);
    PaintChars(frame, Lex(frame), PLAIN);
    TrimIsPrefix(Paint(Lex(frame), PLAIN)[r]);
    PrintChars(Grid(frame)[r], PLAIN, frame);
    RowTextHasNoNewline(TokenRows(frame)[r]);
  }

  lemma {:induction false} RowTextHasNoNewline(tokens: seq<Token>)
    requires forall k | 0 <= k < |tokens| && tokens[k].Char? :: tokens[k].ch != '\n'
    ensures '\n' !in RowText(tokens)
  {
    if tokens != [] {
      RowTextHasNoNewline(tokens[1..]);
      if tokens[0].Tag? {
        TagBodyChars(tokens[0].style);
      }
    }
  }

  /** The rows of text can always be read back off the frame text. */
  lemma RowsOfText(frame: string)
    ensures Split(FrameText(frame), '\n') == RowTexts(TokenRows(frame))
  {
    var rows := RowTexts(TokenRows(frame));
    forall r | r in rows
      ensures '\n' !in r
    {
      var k :| 0 <= k < |rows| && rows[k] == r;
      TokenChars(frame, k);
    }
    SplitOfJoin(rows, '\n');
  }

  /** Canonicity of the returned string, for frames that show no '<'. */
  lemma TextIsCanonical(f: string, g: string)
    requires '<' !in f && '<' !in g
    ensures FrameText(f) == FrameText(g) <==> Grid(f) == Grid(g)
  {
    if FrameText(f) == FrameText(g) {
      RowsOfText(f);
      RowsOfText(g);
      var s, t := TokenRows(f), TokenRows(g);
      assert |s| == |RowTexts(s)| == |RowTexts(t)| == |t|;
      forall k | 0 <= k < |s|
        ensures s[k] == t[k]
      {
        assert RowTexts(s)[k] == RowTexts(t)[k];
        TokenChars(f, k);
        TokenChars(g, k);
        RowTextInjective(s[k], t[k]);
      }
      TokensAreCanonical(f, g);
    }
  }
}
