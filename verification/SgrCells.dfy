/** What every cell shows, read off the codes written in front of it: the last code that says
    anything about a colour or an attribute decides. */
module SgrCells {
  import opened Text
  import opened Sgr
  import opened SgrEscapes
  import opened SgrText
  import opened SgrImage
  import opened SgrScreen

  // ----- what one code says

  predicate SetsFg(c: nat) { 30 <= c <= 38 || 90 <= c <= 97 }

  predicate SetsBg(c: nat) { 40 <= c <= 48 || 100 <= c <= 107 }

  /** Does code c take attribute a away? */
  predicate Takes(c: nat, a: nat) {
    c == 0 || (c == 22 && (a == 1 || a == 2)) || (21 <= c <= 29 && c != 22 && a == c - 20)
  }

  /** What a style consists of: two colours, and of every attribute whether it is there. */
  datatype Aspect = Fg | Bg | Attr(a: nat)

  /** Does code c replace what the style had of this aspect? */
  predicate Undoes(c: nat, x: Aspect) {
    match x
    case Fg => c == 0 || c == 39 || SetsFg(c)
    case Bg => c == 0 || c == 49 || SetsBg(c)
    case Attr(a) => Takes(c, a)
  }

  /** How many codes belong together at the head of a list: a colour out of three components, a
      colour out of the palette, or a single code. */
  function Width(codes: seq<nat>): (n: nat)
    requires codes != []
    ensures 1 <= n <= |codes|
  {
    if (codes[0] == 38 || codes[0] == 48) && |codes| >= 5 && codes[1] == 2 then 5
    else if (codes[0] == 38 || codes[0] == 48) && |codes| >= 3 && codes[1] == 5 then 3
    else 1
  }

  /** The codes that belong together, in order. */
  function Groups(codes: seq<nat>): (groups: seq<seq<nat>>)
    ensures forall k | 0 <= k < |groups| :: groups[k] != []
  {
    if codes == [] then [] else [codes[..Width(codes)]] + Groups(codes[Width(codes)..])
  }

  /** One group: exactly which colours and attributes it leaves. */
  ghost predicate Leaves(group: seq<nat>, st: Style, st': Style)
    requires group != []
  {
    LeavesAs(group[0], group, st, st')
  }

  ghost predicate LeavesAs(c: nat, group: seq<nat>, st: Style, st': Style) {
    && st'.fg == (if c == 0 || c == 39 then None else if SetsFg(c) then Some(group) else st.fg)
    && st'.bg == (if c == 0 || c == 49 then None else if SetsBg(c) then Some(group) else st.bg)
    && forall a :: a in st'.attrs <==> (IsAttr(a) && a == c) || (a in st.attrs && !Takes(c, a))
  }

  lemma GroupLeaves(codes: seq<nat>, st: Style) returns (st': Style)
    requires codes != []
    ensures Leaves(codes[..Width(codes)], st, st')
    ensures ApplyCodes(codes, st) == ApplyCodes(codes[Width(codes)..], st')
  {
    st' := Apply(HeadOp(codes), st);
    assert Width(codes) == Stride(codes);
    assert Ops(codes)[1..] == Ops(codes[Stride(codes)..]);
    if codes[0] == 38 || codes[0] == 48 {
      assert Extended(codes) == codes[..Width(codes)];
    } else {
      assert codes[..Width(codes)] == [codes[0]];
    }
  }

  /** A single code, for every style: which attributes are there behind it. */
  lemma OneCode(c: nat, st: Style, a: nat)
    ensures var st' := ApplyCodes([c], st);
            && (a in st'.attrs <==> (IsAttr(c) && a == c) || (a in st.attrs && !Takes(c, a)))
            && st'.fg == (if c == 0 || c == 39 then None else if SetsFg(c) then Some([c]) else st.fg)
            && st'.bg == (if c == 0 || c == 49 then None else if SetsBg(c) then Some([c]) else st.bg)
  {
    var st' := GroupLeaves([c], st);
    assert [c][..1] == [c] && [c][1..] == [];
  }

  // ----- the last one decides

  /** A group `sel` stands in the list, and nothing behind it undoes it. */
  predicate Stands(groups: seq<seq<nat>>, sel: seq<nat>, x: Aspect)
    requires forall k | 0 <= k < |groups| :: groups[k] != []
  {
    exists k | 0 <= k < |groups| :: StandsAt(groups, k, sel, x)
  }

  predicate StandsAt(groups: seq<seq<nat>>, k: nat, sel: seq<nat>, x: Aspect)
    requires k < |groups| && forall i | 0 <= i < |groups| :: groups[i] != []
  {
    groups[k] == sel && forall j | k < j < |groups| :: !Undoes(groups[j][0], x)
  }

  predicate Untouched(groups: seq<seq<nat>>, x: Aspect)
    requires forall k | 0 <= k < |groups| :: groups[k] != []
  {
    forall k | 0 <= k < |groups| :: !Undoes(groups[k][0], x)
  }

  lemma StandsCat(u: seq<seq<nat>>, v: seq<seq<nat>>, sel: seq<nat>, x: Aspect)
    requires forall k | 0 <= k < |u| :: u[k] != []
    requires forall k | 0 <= k < |v| :: v[k] != []
    ensures forall k | 0 <= k < |u + v| :: (u + v)[k] != []
    ensures Untouched(u + v, x) <==> Untouched(u, x) && Untouched(v, x)
    ensures Stands(u + v, sel, x) <==> Stands(v, sel, x) || (Stands(u, sel, x) && Untouched(v, x))
  {
    var w := u + v;
    assert forall k | 0 <= k < |u| :: w[k] == u[k];
    assert forall k | 0 <= k < |v| :: w[|u| + k] == v[k];
    if Stands(v, sel, x) {
      var k :| 0 <= k < |v| && StandsAt(v, k, sel, x);
      assert StandsAt(w, |u| + k, sel, x);
    }
    if Stands(u, sel, x) && Untouched(v, x) {
      var k :| 0 <= k < |u| && StandsAt(u, k, sel, x);
      assert forall j | |u| <= j < |w| :: w[j] == v[j - |u|];
      assert StandsAt(w, k, sel, x);
    }
    if Stands(w, sel, x) {
      var k :| 0 <= k < |w| && StandsAt(w, k, sel, x);
      if k < |u| {
        assert StandsAt(u, k, sel, x);
      } else {
        assert StandsAt(v, k - |u|, sel, x);
      }
    }
  }

  /** Is `st'` what these groups make of `st`? Of every colour and every attribute: it is there
      exactly when a group selected it that no later group undoes, or when it was there and
      no group undoes it. */
  ghost predicate Decides(groups: seq<seq<nat>>, st: Style, st': Style)
    requires forall k | 0 <= k < |groups| :: groups[k] != []
  {
    && (forall c: Color :: st'.fg == Some(c) <==> FgStands(groups, st, c))
    && (forall c: Color :: st'.bg == Some(c) <==> BgStands(groups, st, c))
    && (forall a: nat :: a in st'.attrs <==> AttrStands(groups, st, a))
  }

  predicate FgStands(groups: seq<seq<nat>>, st: Style, c: Color)
    requires forall k | 0 <= k < |groups| :: groups[k] != []
  {
    || (c != [] && SetsFg(c[0]) && Stands(groups, c, Fg))
    || (st.fg == Some(c) && Untouched(groups, Fg))
  }

  predicate BgStands(groups: seq<seq<nat>>, st: Style, c: Color)
    requires forall k | 0 <= k < |groups| :: groups[k] != []
  {
    || (c != [] && SetsBg(c[0]) && Stands(groups, c, Bg))
    || (st.bg == Some(c) && Untouched(groups, Bg))
  }

  predicate AttrStands(groups: seq<seq<nat>>, st: Style, a: nat)
    requires forall k | 0 <= k < |groups| :: groups[k] != []
  {
    || (IsAttr(a) && Stands(groups, [a], Attr(a)))
    || (a in st.attrs && Untouched(groups, Attr(a)))
  }

  lemma OneGroupStands(group: seq<nat>, sel: seq<nat>, x: Aspect)
    requires group != []
    ensures Stands([group], sel, x) <==> group == sel
    ensures Untouched([group], x) <==> !Undoes(group[0], x)
  {
    if group == sel {
      assert StandsAt([group], 0, sel, x);
    }
  }

  lemma OneDecides(group: seq<nat>, st: Style, st': Style)
    requires group != [] && Leaves(group, st, st') && (|group| > 1 ==> group[0] == 38 || group[0] == 48)
    ensures Decides([group], st, st')
  {
    forall c: Color
      ensures st'.fg == Some(c) <==> FgStands([group], st, c)
      ensures st'.bg == Some(c) <==> BgStands([group], st, c)
    {
      OneGroupStands(group, c, Fg);
      OneGroupStands(group, c, Bg);
    }
    forall a: nat
      ensures a in st'.attrs <==> AttrStands([group], st, a)
    {
      OneGroupStands(group, [a], Attr(a));
      assert |group| == 1 ==> group == [group[0]];
    }
  }

  lemma DecidesCat(x: seq<seq<nat>>, y: seq<seq<nat>>, st: Style, mid: Style, st': Style)
    requires forall k | 0 <= k < |x| :: x[k] != []
    requires forall k | 0 <= k < |y| :: y[k] != []
    requires Decides(x, st, mid) && Decides(y, mid, st')
    ensures forall k | 0 <= k < |x + y| :: (x + y)[k] != []
    ensures Decides(x + y, st, st')
  {
    forall c: Color
      ensures st'.fg == Some(c) <==> FgStands(x + y, st, c)
    {
      StandsCat(x, y, c, Fg);
      assert mid.fg == Some(c) <==> FgStands(x, st, c);
    }
    forall c: Color
      ensures st'.bg == Some(c) <==> BgStands(x + y, st, c)
    {
      StandsCat(x, y, c, Bg);
      assert mid.bg == Some(c) <==> BgStands(x, st, c);
    }
    forall a: nat
      ensures a in st'.attrs <==> AttrStands(x + y, st, a)
    {
      StandsCat(x, y, [a], Attr(a));
      assert a in mid.attrs <==> AttrStands(x, st, a);
    }
  }

  lemma NothingDecides(st: Style)
    ensures Decides([], st, st)
  {
  }

  /** A whole code list. */
  lemma {:induction false} ListDecides(codes: seq<nat>, st: Style)
    ensures Decides(Groups(codes), st, ApplyCodes(codes, st))
    decreases |codes|
  {
    if codes == [] {
      NothingDecides(st);
    } else {
      var n := Width(codes);
      var mid := GroupLeaves(codes, st);
      OneDecides(codes[..n], st, mid);
      ListDecides(codes[n..], mid);
      DecidesCat([codes[..n]], Groups(codes[n..]), st, mid, ApplyCodes(codes, st));
    }
  }

  /** All groups of a stream. */
  function GroupsOf(items: seq<Item>): (groups: seq<seq<nat>>)
    ensures forall k | 0 <= k < |groups| :: groups[k] != []
  {
    if items == [] then []
    else (if items[0].Escape? then Groups(items[0].codes) else []) + GroupsOf(items[1..])
  }

  lemma {:induction false} StreamDecides(items: seq<Item>, st: Style)
    ensures Decides(GroupsOf(items), st, After(items, st))
  {
    if items == [] {
      NothingDecides(st);
    } else if items[0].Escape? {
      var mid := ApplyCodes(items[0].codes, st);
      ListDecides(items[0].codes, st);
      StreamDecides(items[1..], mid);
      DecidesCat(Groups(items[0].codes), GroupsOf(items[1..]), st, mid, After(items, st));
    } else {
      StreamDecides(items[1..], st);
      assert [] + GroupsOf(items[1..]) == GroupsOf(items[1..]);
    }
  }

  // ----- where a character stands on the screen

  function RowIndex(items: seq<Item>): nat {
    if items == [] then 0
    else RowIndex(items[..|items| - 1]) + if items[|items| - 1] == Glyph('\n') then 1 else 0
  }

  /** The characters behind the last newline. */
  function ColumnIndex(items: seq<Item>): nat {
    if items == [] || items[|items| - 1] == Glyph('\n') then 0
    else ColumnIndex(items[..|items| - 1]) + if items[|items| - 1].Glyph? then 1 else 0
  }

  lemma PaintOne(item: Item, st: Style)
    ensures Paint([item], st)
            == if item.Escape? then [[]] else if item.ch == '\n' then [[], []] else [[CellOf(item.ch, st)]]
  {
    assert [item][1..] == [];
    if item.Glyph? && item.ch != '\n' {
      assert [CellOf(item.ch, st)] + [] == [CellOf(item.ch, st)];
    }
  }

  lemma {:induction false} LastRowIs(items: seq<Item>, st: Style)
    ensures var rows := Paint(items, st); |rows| == RowIndex(items) + 1 && |rows[|rows| - 1]| == ColumnIndex(items)
  {
    if items != [] {
      var front, last := items[..|items| - 1], items[|items| - 1];
      LastRowIs(front, st);
      assert items == front + [last];
      PaintCat(front, [last], st);
      PaintOne(last, After(front, st));
    }
  }

  lemma GlueAt(a: seq<seq<Cell>>, b: seq<seq<Cell>>)
    requires |a| >= 1 && |b| >= 1 && b[0] != []
    ensures var r, c := |a| - 1, |a[|a| - 1]|;
            r < |Glue(a, b)| && c < |Glue(a, b)[r]| && Glue(a, b)[r][c] == b[0][0]
  {
  }

  /** The cell of the i-th item: in the row and column counted off the items before it, in the
      style these leave. */
  lemma CellAt(items: seq<Item>, st: Style, i: nat)
    requires i < |items| && items[i].Glyph? && items[i].ch != '\n'
    ensures var rows, r, c := Paint(items, st), RowIndex(items[..i]), ColumnIndex(items[..i]);
            r < |rows| && c < |rows[r]| && rows[r][c] == CellOf(items[i].ch, After(items[..i], st))
  {
    var a, b := items[..i], items[i..];
    assert items == a + b;
    LastRowIs(a, st);
    PaintCat(a, b, st);
    GlueAt(Paint(a, st), Paint(b, After(a, st)));
  }

  /** What a cell shows of the groups in front of it. A space shows its background only. */
  ghost predicate CellShows(cell: Cell, ch: char, groups: seq<seq<nat>>)
    requires forall k | 0 <= k < |groups| :: groups[k] != []
  {
    && cell.ch == ch
    && (forall x: Color :: cell.style.fg == Some(x) <==>
          ch != ' ' && x != [] && SetsFg(x[0]) && Stands(groups, x, Fg))
    && (forall x: Color :: cell.style.bg == Some(x) <==> x != [] && SetsBg(x[0]) && Stands(groups, x, Bg))
    && (forall a: nat :: a in cell.style.attrs <==> ch != ' ' && IsAttr(a) && Stands(groups, [a], Attr(a)))
  }

  /** Every character of every frame: where it stands, and which colours and attributes it shows. */
  lemma ShownCell(frame: string, i: nat)
    requires i < |Lex(frame)| && Lex(frame)[i].Glyph? && Lex(frame)[i].ch != '\n'
    ensures var items := Lex(frame);
            var rows, r, c := Paint(items, PLAIN), RowIndex(items[..i]), ColumnIndex(items[..i]);
            r < |rows| && c < |rows[r]| && CellShows(rows[r][c], items[i].ch, GroupsOf(items[..i]))
  {
    var items := Lex(frame);
    CellAt(items, PLAIN, i);
    StreamDecides(items[..i], PLAIN);
    DecidedShows(items[i].ch, GroupsOf(items[..i]), After(items[..i], PLAIN));
  }

  lemma DecidedShows(ch: char, groups: seq<seq<nat>>, st: Style)
    requires forall k | 0 <= k < |groups| :: groups[k] != []
    requires Decides(groups, PLAIN, st)
    ensures CellShows(CellOf(ch, st), ch, groups)
  {
    assert forall x: Color :: st.fg == Some(x) <==> FgStands(groups, PLAIN, x);
    assert forall x: Color :: st.bg == Some(x) <==> BgStands(groups, PLAIN, x);
    assert forall a: nat :: a in st.attrs <==> AttrStands(groups, PLAIN, a);
  }

  /** An empty list is a reset: wherever it stands, it reads as the code 0. */
  lemma EmptyIsReset(p: string, q: string)
    ensures IsParams("") && IsParams("0") && CodesOf("") == [0]
    ensures Lex(p + (Sequence("") + q)) == Lex(p + (Sequence("0") + q)) == Lex(p) + ([Escape([0])] + Lex(q))
  {
    CodeText(0);
    ShortCodes();
    assert Decimal(0) == "0";
    LexAround(p, "", q);
    LexAround(p, "0", q);
  }

  // ----- two characters, with a code in front of each

  function TwoCodes(on: nat, x: char, off: nat, y: char): string {
    Sequence(Decimal(on)) + ([x] + (Sequence(Decimal(off)) + [y]))
  }

  predicate Ink(c: char) { c != ESC && c != ' ' && c != '\n' }

  lemma LexTwoCodes(on: nat, x: char, off: nat, y: char)
    requires x != ESC && y != ESC
    ensures Lex(TwoCodes(on, x, off, y)) == [Escape([on]), Glyph(x), Escape([off]), Glyph(y)]
  {
    CodeText(on);
    CodeText(off);
    LexColoured(Decimal(on), x, Decimal(off), [y]);
    LexOne(y);
  }

  lemma PaintTwo(s: seq<nat>, x: char, t: seq<nat>, y: char)
    requires Ink(x) && Ink(y)
    ensures var st := ApplyCodes(s, PLAIN);
            Paint([Escape(s), Glyph(x), Escape(t), Glyph(y)], PLAIN)
            == [[Cell(x, st), Cell(y, ApplyCodes(t, st))]]
  {
    var st := ApplyCodes(s, PLAIN);
    var st' := ApplyCodes(t, st);
    var items := [Escape(s), Glyph(x), Escape(t), Glyph(y)];
    assert items[1..] == [Glyph(x), Escape(t), Glyph(y)];
    assert items[1..][1..] == [Escape(t), Glyph(y)];
    assert items[1..][1..][1..] == [Glyph(y)];
    PaintOne(Glyph(y), st');
    assert Paint([Escape(t), Glyph(y)], st) == [[Cell(y, st')]];
    assert [Cell(x, st)] + [Cell(y, st')] == [Cell(x, st), Cell(y, st')];
  }

  lemma AttrsOfTwo(on: nat, off: nat, a: nat)
    requires IsAttr(on)
    ensures var st := ApplyCodes([on], PLAIN);
            && (a in st.attrs <==> a == on)
            && (a in ApplyCodes([off], st).attrs <==> (IsAttr(off) && a == off) || (a == on && !Takes(off, a)))
  {
    OneCode(on, PLAIN, a);
    OneCode(off, ApplyCodes([on], PLAIN), a);
  }

  lemma StylesOfTwo(on: nat, off: nat)
    requires IsAttr(on)
    ensures var st := ApplyCodes([on], PLAIN);
            && st == Style(None, None, {on})
            && (on in ApplyCodes([off], st).attrs <==> on == off || !Takes(off, on))
            && (Takes(off, on) ==> ApplyCodes([off], st) == PLAIN)
  {
    var st := ApplyCodes([on], PLAIN);
    forall a: nat
      ensures a in st.attrs <==> a == on
      ensures Takes(off, on) ==> a !in ApplyCodes([off], st).attrs
    {
      AttrsOfTwo(on, off, a);
    }
    OneCode(on, PLAIN, on);
    OneCode(off, st, on);
    assert st.attrs == {on};
    assert Takes(off, on) ==> ApplyCodes([off], st).attrs == {};
  }

  lemma GridOfTwo(on: nat, x: char, off: nat, y: char)
    requires Ink(x) && Ink(y)
    ensures var st := ApplyCodes([on], PLAIN);
            Grid(TwoCodes(on, x, off, y)) == [[Cell(x, st), Cell(y, ApplyCodes([off], st))]]
  {
    var st := ApplyCodes([on], PLAIN);
    var row := [Cell(x, st), Cell(y, ApplyCodes([off], st))];
    LexTwoCodes(on, x, off, y);
    PaintTwo([on], x, [off], y);
    assert Trim(row) == row;
    assert |Grid(TwoCodes(on, x, off, y))| == 1;
  }

  /** On the screen: an attribute set in front of x stays on y exactly when the second code does
      not take it. */
  lemma CancelShows(on: nat, x: char, off: nat, y: char)
    requires IsAttr(on) && Ink(x) && Ink(y)
    ensures var grid := Grid(TwoCodes(on, x, off, y));
            && |grid| == 1 && |grid[0]| == 2
            && grid[0][0] == Cell(x, Style(None, None, {on}))
            && grid[0][1].ch == y
            && (on in grid[0][1].style.attrs <==> on == off || !Takes(off, on))
            && (Takes(off, on) ==> grid[0][1] == Cell(y, PLAIN))
  {
    GridOfTwo(on, x, off, y);
    StylesOfTwo(on, off);
  }

  // ----- the text of tags

  lemma SmallDecimals()
    ensures Decimal(1) == "1" && Decimal(2) == "2" && Decimal(4) == "4" && Decimal(5) == "5"
    ensures Decimal(22) == "22" && Decimal(24) == "24" && Decimal(31) == "31" && Decimal(48) == "48"
    ensures Decimal(196) == "196"
  {
    assert Decimal(3) == "3" && Decimal(1) == "1" && Decimal(19) == "19";
  }

  lemma OneAttrText(a: nat)
    ensures TokenText(Tag(Style(None, None, {a}))) == "<None|None|(" + Decimal(a) + ",)>"
    ensures TokenText(Tag(PLAIN)) == "<None|None|()>"
  {
    var list := AttrList({a});
    assert list[0] in list && |list| == 1;
    assert list == [a];
    assert AttrList({}) == [];
  }

  lemma OneRowText(frame: string, row: seq<Cell>)
    requires Grid(frame) == [row]
    ensures FrameText(frame) == RowText(Print(row, PLAIN))
  {
    assert RowTexts(TokenRows(frame)) == [RowText(Print(row, PLAIN))];
  }

  /** An attribute that is set for one character and taken for the next: both tags are printed. */
  lemma EndedText(on: nat, off: nat)
    requires IsAttr(on) && Takes(off, on)
    ensures FrameText(TwoCodes(on, 'a', off, 'b'))
            == ("<None|None|(" + Decimal(on) + ",)>") + ("a" + ("<None|None|()>" + "b"))
  {
    var x, y := Cell('a', Style(None, None, {on})), Cell('b', PLAIN);
    CancelShows(on, 'a', off, 'b');
    var grid := Grid(TwoCodes(on, 'a', off, 'b'));
    assert grid == [grid[0]] && grid[0] == [x, y];
    OneRowText(TwoCodes(on, 'a', off, 'b'), [x, y]);
    TwoCellsText(x, y);
    OneAttrText(on);
  }

  lemma SpelledDim()
    ensures "<None|None|(" + "2" + ",)>" == "<None|None|(2,)>"
  {
  }

  lemma SpelledUnderline()
    ensures "<None|None|(" + "4" + ",)>" == "<None|None|(4,)>"
  {
  }

  /** Dim, and then neither bold nor dim: the text as the script prints it. */
  lemma DimEnds()
    ensures FrameText(TwoCodes(2, 'a', 22, 'b')) == "<None|None|(2,)>" + ("a" + ("<None|None|()>" + "b"))
  {
    SmallDecimals();
    SpelledDim();
    EndedText(2, 22);
  }

  /** Underlined, and then not. */
  lemma UnderlineEnds()
    ensures FrameText(TwoCodes(4, 'a', 24, 'b')) == "<None|None|(4,)>" + ("a" + ("<None|None|()>" + "b"))
  {
    SmallDecimals();
    SpelledUnderline();
    EndedText(4, 24);
  }

  /** Two styles, each announced in front of its character. */
  lemma TwoCellsText(x: Cell, y: Cell)
    requires x.ch != ' ' && y.ch != ' ' && x.style != PLAIN && y.style != x.style
    ensures RowText(Print([x, y], PLAIN))
            == TokenText(Tag(x.style)) + ([x.ch] + (TokenText(Tag(y.style)) + [y.ch]))
  {
    assert [x, y][1..] == [y] && [y][1..] == [];
    PrintStep([x, y], PLAIN);
    PrintStep([y], x.style);
    assert RowText(Print([], y.style)) == "";
  }

  lemma TwoAttrs()
    ensures AttrList({1, 4}) == [1, 4]
  {
    var list := AttrList({1, 4});
    assert list[0] in list && list[1] in list;
  }

  lemma PaletteText()
    ensures TupleText([48, 5, 196]) == "(48, 5, 196)" && TupleText([1, 4]) == "(1, 4)"
  {
    SmallDecimals();
    var palette, pair := [48, 5, 196], [1, 4];
    assert palette[1..] == [5, 196] && palette[1..][1..] == [196] && pair[1..] == [4];
    assert Elements(palette) == "48, 5, 196" && Elements(pair) == "1, 4";
  }

  /** Both colours and two attributes, in the order and the punctuation of the script. */
  lemma FullTagText()
    ensures TagBody(Style(Some([31]), Some([48, 5, 196]), {1, 4})) == "(31,)" + "|" + ("(48, 5, 196)" + "|" + "(1, 4)")
  {
    SmallDecimals();
    TwoAttrs();
    PaletteText();
    assert TupleText([31]) == "(31,)";
  }
}
