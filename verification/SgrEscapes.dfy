/** Where an SGR escape is placed, and how escapes are grouped, against what the screen shows. */
module SgrEscapes {
  import opened Text
  import opened Sgr

  /** The escape sequence with the given parameter text. */
  function Sequence(params: string): string { [ESC, '['] + params + ['m'] }

  // ----- lexing text with an escape in it

  /** An escape sequence begun in `p` ends in `q`. */
  predicate Cuts(p: string, q: string) {
    exists j | 0 <= j < |p| :: SgrLength(p[j..] + q) > |p| - j
  }

  lemma LexUnfold(s: string)
    requires s != []
    ensures Lex(s) == [HeadItem(s)] + Lex(s[HeadLength(s)..])
  {
  }

  /** What an escape sequence looks like behind its ESC. */
  lemma SequenceChars(s: string, k: nat)
    requires 1 <= k < SgrLength(s)
    ensures s[k] == '[' || IsParam(s[k]) || s[k] == 'm'
  {
    if 2 <= k < SgrLength(s) - 1 {
      assert s[2..SgrLength(s) - 1][k - 2] == s[k];
    }
  }

  /** Text behind `p` that does not finish an escape sequence leaves the first item alone. */
  lemma HeadStays(p: string, q: string)
    requires p != [] && SgrLength(p + q) <= |p|
    ensures HeadLength(p + q) == HeadLength(p)
    ensures HeadItem(p + q) == HeadItem(p)
  {
    if |p| >= 2 && p[0] == ESC && p[1] == '[' {
      assert (p + q)[2..] == p[2..] + q;
      var n := RunLength(p[2..], IsParam);
      if n + 2 < |p| {
        RunLengthIs(p[2..] + q, IsParam, n);
      }
      if SgrLength(p) > 0 {
        assert (p + q)[2..SgrLength(p) - 1] == p[2..SgrLength(p) - 1];
      }
    }
  }

  /** Past the first item nothing changes about the cut. */
  lemma CutsBehindHead(p: string, q: string)
    requires p != [] && SgrLength(p + q) <= |p|
    ensures Cuts(p, q) <==> Cuts(p[HeadLength(p)..], q)
  {
    HeadStays(p, q);
    var n := HeadLength(p);
    var rest := p[n..];
    assert p[0..] == p;
    forall j | 0 <= j < |p|
      ensures j < n ==> SgrLength(p[j..] + q) <= |p| - j
      ensures j >= n ==> p[j..] == rest[j - n..]
    {
      if 0 < j < n {
        SequenceChars(p, j);
        assert (p[j..] + q)[0] == p[j];
      } else if j >= n {
        DropDrop(p, n, j - n);
      }
    }
    forall i | 0 <= i < |rest|
      ensures rest[i..] == p[n + i..]
    {
      DropDrop(p, n, i);
    }
  }

  /** If the first item of `a` is the first of `a + b`, lexing steps over it. */
  lemma LexStep(a: string, b: string, all: string)
    requires a != [] && all == a + b
    requires HeadLength(all) == HeadLength(a) && HeadItem(all) == HeadItem(a)
    requires Lex(all[HeadLength(a)..]) == Lex(a[HeadLength(a)..]) + Lex(b)
    ensures Lex(all) == Lex(a) + Lex(b)
  {
    LexUnfold(a);
    LexUnfold(all);
    PrependCat(HeadItem(a), Lex(a[HeadLength(a)..]), Lex(b), Lex(a), Lex(all));
  }

  lemma {:induction false} LexCat(p: string, q: string)
    requires !Cuts(p, q)
    ensures Lex(p + q) == Lex(p) + Lex(q)
    decreases |p|
  {
    if p == [] {
      assert p + q == q;
    } else {
      assert p[0..] == p;
      HeadStays(p, q);
      CutsBehindHead(p, q);
      LexCat(p[HeadLength(p)..], q);
      DropCat(p, q, HeadLength(p));
      LexStep(p, q, p + q);
    }
  }

  /** Text that cannot continue an escape sequence cuts none. */
  lemma NothingCut(p: string, q: string)
    requires q == [] || (!IsParam(q[0]) && q[0] != '[' && q[0] != 'm')
    ensures !Cuts(p, q)
  {
    forall j | 0 <= j < |p|
      ensures SgrLength(p[j..] + q) <= |p| - j
    {
      assert q != [] ==> (p[j..] + q)[|p| - j] == q[0];
    }
  }

  // ----- a cut escape sequence, counted in ESC characters

  function Escs(items: seq<Item>): nat {
    if items == [] then 0 else (if items[0] == Glyph(ESC) then 1 else 0) + Escs(items[1..])
  }

  lemma {:induction false} EscsCat(a: seq<Item>, b: seq<Item>)
    ensures Escs(a + b) == Escs(a) + Escs(b)
  {
    if a == [] {
      assert a + b == b;
    } else {
      assert (a + b)[1..] == a[1..] + b;
      EscsCat(a[1..], b);
    }
  }

  /** Text without ESC is lexed character by character. */
  lemma {:induction false} EscsBehind(a: string, b: string)
    requires NoEsc(a)
    ensures Escs(Lex(a + b)) == Escs(Lex(b))
  {
    if a == [] {
      assert a + b == b;
    } else {
      assert (a + b)[1..] == a[1..] + b;
      LexUnfold(a + b);
      EscsBehind(a[1..], b);
      EscsHead(HeadItem(a + b), Lex(a[1..] + b));
    }
  }

  lemma EscsHead(item: Item, rest: seq<Item>)
    ensures Escs([item] + rest) == (if item == Glyph(ESC) then 1 else 0) + Escs(rest)
  {
    assert ([item] + rest)[1..] == rest;
  }

  lemma NoMoreEsc(p: string, q: string)
    requires p != [] && SgrLength(p + q) > |p|
    ensures NoEsc(p[1..]) && NoEsc(q[..SgrLength(p + q) - |p|])
  {
    var all := p + q;
    forall k | 1 <= k < SgrLength(all)
      ensures all[k] != ESC
    {
      SequenceChars(all, k);
    }
    assert forall k | 1 <= k < |p| :: p[k] == all[k];
    assert forall k | 0 <= k < |q| :: q[k] == all[|p| + k];
  }

  lemma EscsOfFirstHalf(p: string)
    requires p != [] && HeadItem(p) == Glyph(ESC) && HeadLength(p) == 1 && NoEsc(p[1..])
    ensures Escs(Lex(p)) == 1
  {
    LexUnfold(p);
    EscsHead(HeadItem(p), Lex(p[1..]));
    EscsBehind(p[1..], []);
    CatEmpty(p[1..]);
  }

  lemma EscsOfSecondHalf(q: string, m: nat)
    requires m <= |q| && NoEsc(q[..m])
    ensures Escs(Lex(q)) == Escs(Lex(q[m..]))
  {
    EscsBehind(q[..m], q[m..]);
    assert q[..m] + q[m..] == q;
  }

  lemma FinishedStays(p: string, q: string)
    ensures SgrLength(p) > 0 ==> SgrLength(p + q) == SgrLength(p)
  {
    if SgrLength(p) > 0 {
      assert (p + q)[2..] == p[2..] + q;
      RunLengthIs(p[2..] + q, IsParam, SgrLength(p) - 3);
    }
  }

  lemma HalfIsText(p: string, q: string)
    requires p != [] && SgrLength(p + q) > |p|
    ensures HeadItem(p) == Glyph(ESC) && HeadLength(p) == 1
  {
    FinishedStays(p, q);
    assert (p + q)[0] == p[0];
  }

  lemma EscsOfWhole(s: string, n: nat)
    requires n == SgrLength(s) && n > 0
    ensures Escs(Lex(s)) == Escs(Lex(s[n..]))
  {
    LexUnfold(s);
    EscsHead(HeadItem(s), Lex(s[n..]));
  }

  lemma DropPast(p: string, q: string, m: nat)
    requires m <= |q|
    ensures (p + q)[|p| + m..] == q[m..]
  {
  }

  lemma EscsOfJoined(p: string, q: string, m: nat)
    requires p != [] && m <= |q| && SgrLength(p + q) == |p| + m
    ensures Escs(Lex(p + q)) == Escs(Lex(q[m..]))
  {
    EscsOfWhole(p + q, |p| + m);
    DropPast(p, q, m);
  }

  lemma FirstHalfShows(p: string, q: string)
    requires p != [] && SgrLength(p + q) > |p|
    ensures Escs(Lex(p)) == 1
  {
    NoMoreEsc(p, q);
    HalfIsText(p, q);
    EscsOfFirstHalf(p);
  }

  lemma SecondHalfShows(p: string, q: string, m: nat)
    requires p != [] && m > 0 && m <= |q| && SgrLength(p + q) == |p| + m
    ensures Escs(Lex(q)) == Escs(Lex(q[m..]))
  {
    NoMoreEsc(p, q);
    EscsOfSecondHalf(q, m);
  }

  /** The two halves of one cut sequence show one ESC; joined, they show none. */
  lemma EscsOfCut(p: string, q: string)
    requires p != [] && SgrLength(p + q) > |p|
    ensures Escs(Lex(p)) + Escs(Lex(q)) == Escs(Lex(p + q)) + 1
  {
    var m := SgrLength(p + q) - |p|;
    FirstHalfShows(p, q);
    SecondHalfShows(p, q, m);
    EscsOfJoined(p, q, m);
  }

  lemma {:induction false} EscsOfHalves(p: string, q: string)
    requires Cuts(p, q)
    ensures Escs(Lex(p)) + Escs(Lex(q)) == Escs(Lex(p + q)) + 1
    decreases |p|
  {
    if SgrLength(p + q) > |p| {
      EscsOfCut(p, q);
    } else {
      var n := HeadLength(p);
      HeadStays(p, q);
      CutsBehindHead(p, q);
      EscsOfHalves(p[n..], q);
      DropCat(p, q, n);
      LexUnfold(p);
      LexUnfold(p + q);
      EscsHead(HeadItem(p), Lex(p[n..]));
      EscsHead(HeadItem(p), Lex(p[n..] + q));
    }
  }

  lemma SequenceHead(params: string, q: string)
    requires IsParams(params)
    ensures var s := Sequence(params) + q;
            && SgrLength(s) == |params| + 3
            && s[2..|params| + 2] == params
            && s[|params| + 3..] == q
  {
    var s := Sequence(params) + q;
    assert s[2..] == params + (['m'] + q);
    RunLengthIs(s[2..], IsParam, |params|);
  }

  lemma LexSequence(params: string, q: string)
    requires IsParams(params)
    ensures Lex(Sequence(params) + q) == [Escape(CodesOf(params))] + Lex(q)
  {
    SequenceHead(params, q);
    LexUnfold(Sequence(params) + q);
  }

  lemma LexAround(p: string, params: string, q: string)
    requires IsParams(params)
    ensures Lex(p + (Sequence(params) + q)) == Lex(p) + ([Escape(CodesOf(params))] + Lex(q))
  {
    NothingCut(p, Sequence(params) + q);
    LexCat(p, Sequence(params) + q);
    LexSequence(params, q);
  }

  lemma LexGlyph(c: char, q: string)
    requires c != ESC
    ensures Lex([c] + q) == [Glyph(c)] + Lex(q)
  {
    assert ([c] + q)[1..] == q;
  }

  lemma LexOne(c: char)
    requires c != ESC
    ensures Lex([c]) == [Glyph(c)]
  {
    LexGlyph(c, "");
    CatEmpty([c]);
    CatEmpty([Glyph(c)]);
  }

  lemma LexColoured(a: string, c: char, b: string, q: string)
    requires IsParams(a) && IsParams(b) && c != ESC
    ensures Lex(Sequence(a) + ([c] + (Sequence(b) + q)))
            == [Escape(CodesOf(a))] + ([Glyph(c)] + ([Escape(CodesOf(b))] + Lex(q)))
  {
    LexSequence(a, [c] + (Sequence(b) + q));
    LexOne(c);
    LexAround([c], b, q);
  }

  // ----- painting a stream in two parts

  lemma {:induction false} AfterCat(a: seq<Item>, b: seq<Item>, st: Style)
    ensures After(a + b, st) == After(b, After(a, st))
  {
    if a == [] {
      assert a + b == b;
    } else {
      assert (a + b)[1..] == a[1..] + b;
      match a[0]
      case Glyph(_) => AfterCat(a[1..], b, st);
      case Escape(codes) => AfterCat(a[1..], b, ApplyCodes(codes, st));
    }
  }

  /** The last row of `a` runs on into the first row of `b`. */
  function Glue(a: seq<seq<Cell>>, b: seq<seq<Cell>>): seq<seq<Cell>>
    requires |a| >= 1 && |b| >= 1
  {
    a[..|a| - 1] + [a[|a| - 1] + b[0]] + b[1..]
  }

  lemma GlueAfterCell(cell: Cell, head: seq<seq<Cell>>, tail: seq<seq<Cell>>)
    requires |head| >= 1 && |tail| >= 1
    ensures Glue([[cell] + head[0]] + head[1..], tail)
            == [[cell] + Glue(head, tail)[0]] + Glue(head, tail)[1..]
  {
    if |head| == 1 {
      assert [cell] + (head[0] + tail[0]) == ([cell] + head[0]) + tail[0];
    }
  }

  lemma {:induction false} PaintCat(a: seq<Item>, b: seq<Item>, st: Style)
    ensures Paint(a + b, st) == Glue(Paint(a, st), Paint(b, After(a, st)))
  {
    if a == [] {
      assert a + b == b;
      assert [] + Paint(b, st)[0] == Paint(b, st)[0];
    } else {
      DropCat(a, b, 1);
      match a[0]
      case Escape(codes) => PaintCat(a[1..], b, ApplyCodes(codes, st));
      case Glyph(c) =>
        PaintCat(a[1..], b, st);
        var head, tail := Paint(a[1..], st), Paint(b, After(a, st));
        GlueAfterCell(CellOf(c, st), head, tail);
    }
  }

  /** Streams that agree after a common beginning, in the style it leaves, paint the same screen. */
  lemma SameBeginning(p: seq<Item>, x: seq<Item>, y: seq<Item>)
    requires Paint(x, After(p, PLAIN)) == Paint(y, After(p, PLAIN))
    ensures Paint(p + x, PLAIN) == Paint(p + y, PLAIN)
  {
    PaintCat(p, x, PLAIN);
    PaintCat(p, y, PLAIN);
  }

  // ----- escape placement

  /** The style in force at the end of `p`. */
  function StyleAt(p: string): Style { After(Lex(p), PLAIN) }

  /** An escape may sit at the end of one row or at the start of the next. */
  lemma RowBoundary(p: string, params: string, q: string)
    requires IsParams(params)
    ensures Grid(p + (Sequence(params) + ("\n" + q))) == Grid(p + ("\n" + (Sequence(params) + q)))
  {
    var esc := Escape(CodesOf(params));
    LexAround(p, params, "\n" + q);
    LexGlyph('\n', q);
    NothingCut(p, "\n" + (Sequence(params) + q));
    LexCat(p, "\n" + (Sequence(params) + q));
    LexGlyph('\n', Sequence(params) + q);
    LexSequence(params, q);
    var x, y := [esc] + ([Glyph('\n')] + Lex(q)), [Glyph('\n')] + ([esc] + Lex(q));
    assert x[1..] == [Glyph('\n')] + Lex(q) && x[1..][1..] == Lex(q);
    assert y[1..] == [esc] + Lex(q) && y[1..][1..] == Lex(q);
    SameBeginning(Lex(p), x, y);
  }

  // ----- an escape that changes nothing at its place

  function EscCells(cells: seq<Cell>): nat {
    if cells == [] then 0 else (if cells[0].ch == ESC then 1 else 0) + EscCells(cells[1..])
  }

  function EscRows(rows: seq<seq<Cell>>): nat {
    if rows == [] then 0 else EscCells(rows[0]) + EscRows(rows[1..])
  }

  lemma {:induction false} EscCellsCat(a: seq<Cell>, b: seq<Cell>)
    ensures EscCells(a + b) == EscCells(a) + EscCells(b)
  {
    if a == [] {
      assert a + b == b;
    } else {
      assert (a + b)[1..] == a[1..] + b;
      EscCellsCat(a[1..], b);
    }
  }

  lemma {:induction false} EscsArePainted(items: seq<Item>, st: Style)
    ensures EscRows(Paint(items, st)) == Escs(items)
  {
    if items != [] {
      match items[0]
      case Escape(codes) => EscsArePainted(items[1..], ApplyCodes(codes, st));
      case Glyph(c) =>
        var rest := Paint(items[1..], st);
        EscsArePainted(items[1..], st);
        assert ([CellOf(c, st)] + rest[0])[1..] == rest[0];
    }
  }

  lemma {:induction false} TrimKeepsEscs(cells: seq<Cell>)
    ensures EscCells(Trim(cells)) == EscCells(cells)
  {
    if cells != [] && Blank(cells[|cells| - 1]) {
      var front := cells[..|cells| - 1];
      TrimKeepsEscs(front);
      assert cells == front + [cells[|cells| - 1]];
      EscCellsCat(front, [cells[|cells| - 1]]);
    }
  }

  lemma {:induction false} GridKeepsEscs(rows: seq<seq<Cell>>)
    ensures EscRows(TrimRows(rows)) == EscRows(rows)
  {
    if rows != [] {
      TrimKeepsEscs(rows[0]);
      GridKeepsEscs(rows[1..]);
      assert TrimRows(rows)[1..] == TrimRows(rows[1..]);
    }
  }

  /** Every ESC that starts no sequence is a cell of the screen. */
  lemma EscsOnScreen(frame: string)
    ensures EscRows(Grid(frame)) == Escs(Lex(frame))
  {
    EscsArePainted(Lex(frame), PLAIN);
    GridKeepsEscs(Paint(Lex(frame), PLAIN));
  }

  lemma IdleBetween(p: string, params: string, q: string)
    requires IsParams(params) && !Cuts(p, q)
    requires ApplyCodes(CodesOf(params), StyleAt(p)) == StyleAt(p)
    ensures Grid(p + (Sequence(params) + q)) == Grid(p + q)
  {
    LexAround(p, params, q);
    LexCat(p, q);
    var x := [Escape(CodesOf(params))] + Lex(q);
    assert x[1..] == Lex(q);
    SameBeginning(Lex(p), x, Lex(q));
  }

  /** Any escape inside another one shows, as one more ESC. */
  lemma InsideShows(p: string, params: string, q: string)
    requires IsParams(params) && Cuts(p, q)
    ensures EscRows(Grid(p + (Sequence(params) + q))) == EscRows(Grid(p + q)) + 1
  {
    LexAround(p, params, q);
    EscsCat(Lex(p), [Escape(CodesOf(params))] + Lex(q));
    EscsHead(Escape(CodesOf(params)), Lex(q));
    EscsOfHalves(p, q);
    EscsOnScreen(p + (Sequence(params) + q));
    EscsOnScreen(p + q);
  }

  /** An escape that changes nothing at its place may be inserted or dropped exactly when it
      does not cut another one in two. */
  lemma IdleEscape(p: string, params: string, q: string)
    requires IsParams(params)
    requires ApplyCodes(CodesOf(params), StyleAt(p)) == StyleAt(p)
    ensures Grid(p + (Sequence(params) + q)) == Grid(p + q) <==> !Cuts(p, q)
  {
    if Cuts(p, q) {
      InsideShows(p, params, q);
    } else {
      IdleBetween(p, params, q);
    }
  }

  /** Between ESC [ 3 and 1 m even a reset shows, although nothing is set there. */
  lemma CutEscapeShows()
    ensures Grid([ESC, '[', '3'] + (Sequence("") + ['1', 'm'])) != Grid([ESC, '[', '3'] + ['1', 'm'])
  {
    var p, q := [ESC, '[', '3'], ['1', 'm'];
    assert p[0..] + q == Sequence("31") + "";
    LexSequence("31", "");
    assert Cuts(p, q) by {
      var all := p + q;
      assert all[2..] == ['3', '1', 'm'];
      RunLengthIs(all[2..], IsParam, 2);
      assert p[0..] + q == all;
    }
    InsideShows(p, "", q);
  }

  // ----- escapes and runs of spaces

  function Spaces(n: nat): string { seq(n, _ => ' ') }

  function SpaceCells(n: nat, bg: Option<Color>): seq<Cell> { seq(n, _ => Cell(' ', Style(None, bg, {}))) }

  lemma LexSpaces(n: nat, q: string)
    ensures Lex(Spaces(n) + q) == Lex(Spaces(n)) + Lex(q)
  {
    assert !Cuts(Spaces(n), q) by {
      assert forall j | 0 <= j < n :: (Spaces(n)[j..] + q)[0] == ' ';
    }
    LexCat(Spaces(n), q);
  }

  lemma {:induction false} PaintSpaces(n: nat, st: Style)
    ensures After(Lex(Spaces(n)), st) == st
    ensures Paint(Lex(Spaces(n)), st) == [SpaceCells(n, st.bg)]
  {
    if n == 0 {
      assert Spaces(n) == "" && SpaceCells(n, st.bg) == [];
    } else {
      PaintSpaces(n - 1, st);
      assert Spaces(n) == " " + Spaces(n - 1);
      LexGlyph(' ', Spaces(n - 1));
      var items := [Glyph(' ')] + Lex(Spaces(n - 1));
      assert items[1..] == Lex(Spaces(n - 1));
      assert SpaceCells(n, st.bg) == [CellOf(' ', st)] + SpaceCells(n - 1, st.bg);
    }
  }

  /** What is painted by an escape in front of, and behind, a run of spaces. */
  lemma PaintAcross(p: string, params: string, n: nat, q: string)
    requires IsParams(params)
    ensures var s := StyleAt(p);
            var t := ApplyCodes(CodesOf(params), s);
            && Paint(Lex(p + (Sequence(params) + (Spaces(n) + q))), PLAIN)
               == Glue(Paint(Lex(p), PLAIN), Glue([SpaceCells(n, t.bg)], Paint(Lex(q), t)))
            && Paint(Lex(p + (Spaces(n) + (Sequence(params) + q))), PLAIN)
               == Glue(Paint(Lex(p), PLAIN), Glue([SpaceCells(n, s.bg)], Paint(Lex(q), t)))
  {
    var s := StyleAt(p);
    var codes := CodesOf(params);
    var t := ApplyCodes(codes, s);
    var spaces := Lex(Spaces(n));
    LexAround(p, params, Spaces(n) + q);
    LexSpaces(n, q);
    PaintSpaces(n, t);
    PaintCat(spaces, Lex(q), t);
    var x := [Escape(codes)] + (spaces + Lex(q));
    assert x[1..] == spaces + Lex(q);
    PaintCat(Lex(p), x, PLAIN);

    NothingCut(p, Spaces(n) + (Sequence(params) + q)) by {
      if n == 0 {
        assert Spaces(n) + (Sequence(params) + q) == Sequence(params) + q;
      }
    }
    LexCat(p, Spaces(n) + (Sequence(params) + q));
    LexSpaces(n, Sequence(params) + q);
    PaintSpaces(n, s);
    LexSequence(params, q);
    var y := [Escape(codes)] + Lex(q);
    assert y[1..] == Lex(q);
    PaintCat(spaces, y, s);
    PaintCat(Lex(p), spaces + y, PLAIN);
  }

  lemma {:induction false} TrimKeepsColoured(cells: seq<Cell>, k: nat)
    requires k < |cells|
    ensures k < |Trim(cells)| || (Blank(cells[k]) && k >= |Trim(cells)|)
    ensures Trim(cells) <= cells
    ensures !Blank(cells[k]) ==> k < |Trim(cells)|
  {
    if Blank(cells[|cells| - 1]) && k < |cells| - 1 {
      TrimKeepsColoured(cells[..|cells| - 1], k);
    } else {
      TrimIsPrefix(cells);
    }
  }

  /** Two row lists that differ in a coloured run of spaces stay different when trimmed. */
  lemma SpacesShow(left: seq<seq<Cell>>, n: nat, b: Option<Color>, c: Option<Color>, right: seq<seq<Cell>>)
    requires |left| >= 1 && |right| >= 1 && n > 0 && b != c
    ensures TrimRows(Glue(left, Glue([SpaceCells(n, b)], right)))
            != TrimRows(Glue(left, Glue([SpaceCells(n, c)], right)))
  {
    var f, g := Glue(left, Glue([SpaceCells(n, b)], right)), Glue(left, Glue([SpaceCells(n, c)], right));
    var r, k := |left| - 1, |left[|left| - 1]|;
    assert f[r] == left[r] + (SpaceCells(n, b) + right[0]);
    assert g[r] == left[r] + (SpaceCells(n, c) + right[0]);
    assert f[r][k] == Cell(' ', Style(None, b, {})) && g[r][k] == Cell(' ', Style(None, c, {}));
    TrimKeepsColoured(f[r], k);
    TrimKeepsColoured(g[r], k);
    assert Trim(f[r]) != Trim(g[r]);
    assert TrimRows(f)[r] != TrimRows(g)[r];
  }

  /** An escape may move across a run of spaces exactly when it keeps the background. */
  lemma AcrossSpaces(p: string, params: string, n: nat, q: string)
    requires IsParams(params)
    ensures Grid(p + (Sequence(params) + (Spaces(n) + q))) == Grid(p + (Spaces(n) + (Sequence(params) + q)))
            <==> n == 0 || ApplyCodes(CodesOf(params), StyleAt(p)).bg == StyleAt(p).bg
  {
    var s := StyleAt(p);
    var t := ApplyCodes(CodesOf(params), s);
    PaintAcross(p, params, n, q);
    if n == 0 {
      assert SpaceCells(n, s.bg) == SpaceCells(n, t.bg);
    } else if s.bg != t.bg {
      SpacesShow(Paint(Lex(p), PLAIN), n, t.bg, s.bg, Paint(Lex(q), t));
    }
  }

  // ----- merging two adjacent escapes

  /** No operation that starts in `first` consumes a code of `second` when they are run together. */
  predicate Lands(first: seq<nat>, second: seq<nat>)
    decreases |first|
  {
    first == [] ||
    (Stride(first + second) <= |first| && Lands(first[Stride(first + second)..], second))
  }

  lemma HeadOpCat(first: seq<nat>, second: seq<nat>)
    requires first != []
    ensures Stride(first + second) <= |first| ==>
              Stride(first) == Stride(first + second) && HeadOp(first) == HeadOp(first + second)
    ensures Stride(first + second) > |first| ==> HeadOp(first) != HeadOp(first + second)
  {
    var all := first + second;
    if Stride(all) <= |first| {
      if all[0] == 38 || all[0] == 48 {
        assert Extended(all) == Extended(first);
      }
    } else {
      assert |Extended(all)| > |Extended(first)|;
    }
  }

  lemma SameHead<T>(head: T, x: seq<T>, y: seq<T>, z: seq<T>)
    ensures [head] + x == [head] + y + z <==> x == y + z
  {
    assert ([head] + x)[1..] == x && ([head] + y + z)[1..] == y + z;
    assert [head] + y + z == [head] + (y + z);
  }

  lemma OtherHead<T>(a: T, b: T, x: seq<T>, y: seq<T>, z: seq<T>)
    requires a != b
    ensures [a] + x != [b] + y + z
  {
    assert ([a] + x)[0] == a && ([b] + y + z)[0] == b;
  }

  lemma {:induction false} OpsCat(first: seq<nat>, second: seq<nat>)
    ensures Ops(first + second) == Ops(first) + Ops(second) <==> Lands(first, second)
    decreases |first|
  {
    var all := first + second;
    if first == [] {
      assert all == second;
    } else {
      var n := Stride(all);
      HeadOpCat(first, second);
      if n <= |first| {
        DropCat(first, second, n);
        OpsCat(first[n..], second);
        SameHead(HeadOp(all), Ops(all[n..]), Ops(first[n..]), Ops(second));
      } else {
        OtherHead(HeadOp(all), HeadOp(first), Ops(all[n..]), Ops(first[Stride(first)..]), Ops(second));
      }
    }
  }

  lemma {:induction false} NumbersCat(a: seq<string>, b: seq<string>)
    requires AllDigits(a) && AllDigits(b)
    ensures AllDigits(a + b) && Numbers(a + b) == Numbers(a) + Numbers(b)
  {
    assert AllDigits(a + b);
    if a == [] {
      assert a + b == b;
    } else {
      assert (a + b)[1..] == a[1..] + b;
      NumbersCat(a[1..], b);
    }
  }

  lemma {:induction false} SplitCat(a: string, b: string, sep: char)
    ensures Split(a + ([sep] + b), sep) == Split(a, sep) + Split(b, sep)
  {
    if a == [] {
      SplitHead(sep, b, sep);
      assert [] + ([sep] + b) == [sep] + b;
    } else {
      SplitCat(a[1..], b, sep);
      assert a == [a[0]] + a[1..];
      SplitLonger(a[0], a[1..], [sep] + b, Split(b, sep), sep);
    }
  }

  lemma SplitLonger(c: char, s: string, t: string, rows: seq<string>, sep: char)
    requires Split(s + t, sep) == Split(s, sep) + rows
    ensures Split([c] + s + t, sep) == Split([c] + s, sep) + rows
  {
    CatAssociates([c], s, t);
    SplitHead(c, s, sep);
    SplitHead(c, s + t, sep);
    HeadRowCat(c, Split(s, sep), rows, sep);
  }

  /** The rows, with one more character in front. */
  function HeadRow(c: char, rows: seq<string>, sep: char): seq<string>
    requires rows != []
  {
    if c == sep then [[]] + rows else [[c] + rows[0]] + rows[1..]
  }

  lemma HeadRowCat(c: char, rows: seq<string>, more: seq<string>, sep: char)
    requires rows != []
    ensures HeadRow(c, rows + more, sep) == HeadRow(c, rows, sep) + more
  {
  }

  lemma SplitHead(c: char, s: string, sep: char)
    ensures Split([c] + s, sep) == HeadRow(c, Split(s, sep), sep)
  {
    assert ([c] + s)[1..] == s;
  }

  lemma WrittenCodesCat(a: string, b: string)
    requires IsParams(a) && IsParams(b)
    ensures IsParams(a + ";" + b)
    ensures WrittenCodes(a + ";" + b) == WrittenCodes(a) + WrittenCodes(b)
  {
    SplitParts(a);
    SplitParts(b);
    SplitCat(a, b, ';');
    assert a + ";" + b == a + ([';'] + b);
    NumbersCat(Split(a, ';'), Split(b, ';'));
  }

  /** Can the sequences with parameters `a` and `b` be written as one? */
  predicate Mergeable(a: string, b: string)
    requires IsParams(a) && IsParams(b)
  {
    WrittenCodes(a) != [] && WrittenCodes(b) != [] && Lands(WrittenCodes(a), WrittenCodes(b))
  }

  /** The merged sequence denotes the two operation lists in a row exactly when both
      parameter lists are non-empty and the first ends no extended colour early. */
  lemma MergedOps(a: string, b: string)
    requires IsParams(a) && IsParams(b)
    ensures IsParams(a + ";" + b)
    ensures Ops(CodesOf(a + ";" + b)) == Ops(CodesOf(a)) + Ops(CodesOf(b)) <==> Mergeable(a, b)
  {
    WrittenCodesCat(a, b);
    var x, y := WrittenCodes(a), WrittenCodes(b);
    OpsCat(x, y);
    assert Ops([0]) == [Reset];
    if x == [] {
      assert x + y == y;
      assert |Ops(CodesOf(a)) + Ops(CodesOf(b))| == 1 + |Ops(CodesOf(b))|;
    } else if y == [] {
      assert x + y == x;
      assert |Ops(CodesOf(a)) + Ops(CodesOf(b))| == |Ops(CodesOf(a))| + 1;
    }
  }

  lemma {:induction false} ApplyAllCat(a: seq<Op>, b: seq<Op>, st: Style)
    ensures ApplyAll(a + b, st) == ApplyAll(b, ApplyAll(a, st))
  {
    if a == [] {
      assert a + b == b;
    } else {
      assert (a + b)[1..] == a[1..] + b;
      ApplyAllCat(a[1..], b, Apply(a[0], st));
    }
  }

  /** Does writing `a` and `b` as one sequence keep the screen, between `p` and `q`? */
  ghost predicate MergeKeeps(p: string, a: string, b: string, q: string)
    requires IsParams(a) && IsParams(b)
  {
    WrittenCodesCat(a, b);
    Grid(p + (Sequence(a) + (Sequence(b) + q))) == Grid(p + (Sequence(a + ";" + b) + q))
  }

  /** Do the two sequences, and the merged one, leave the same style from `st`? */
  predicate MergeAgrees(a: string, b: string, st: Style)
    requires IsParams(a) && IsParams(b)
  {
    WrittenCodesCat(a, b);
    ApplyCodes(CodesOf(b), ApplyCodes(CodesOf(a), st)) == ApplyCodes(CodesOf(a + ";" + b), st)
  }

  lemma PaintMerged(p: string, a: string, b: string, q: string)
    requires IsParams(a) && IsParams(b)
    ensures IsParams(a + ";" + b)
    ensures var st := StyleAt(p);
            && Paint(Lex(p + (Sequence(a) + (Sequence(b) + q))), PLAIN)
               == Glue(Paint(Lex(p), PLAIN), Paint(Lex(q), ApplyCodes(CodesOf(b), ApplyCodes(CodesOf(a), st))))
            && Paint(Lex(p + (Sequence(a + ";" + b) + q)), PLAIN)
               == Glue(Paint(Lex(p), PLAIN), Paint(Lex(q), ApplyCodes(CodesOf(a + ";" + b), st)))
  {
    WrittenCodesCat(a, b);
    LexAround(p, a, Sequence(b) + q);
    LexSequence(b, q);
    LexAround(p, a + ";" + b, q);
    var x := [Escape(CodesOf(a))] + ([Escape(CodesOf(b))] + Lex(q));
    var y := [Escape(CodesOf(a + ";" + b))] + Lex(q);
    assert x[1..] == [Escape(CodesOf(b))] + Lex(q) && x[1..][1..] == Lex(q) && y[1..] == Lex(q);
    PaintCat(Lex(p), x, PLAIN);
    PaintCat(Lex(p), y, PLAIN);
  }

  /** One more visible cell tells the styles apart. */
  lemma InkShows(left: seq<seq<Cell>>, a: Cell, b: Cell)
    requires |left| >= 1 && a != b && !Blank(a) && !Blank(b)
    ensures TrimRows(Glue(left, [[a]])) != TrimRows(Glue(left, [[b]]))
  {
    var f, g := Glue(left, [[a]]), Glue(left, [[b]]);
    var r, k := |left| - 1, |left[|left| - 1]|;
    assert f[r] == left[r] + [a] && g[r] == left[r] + [b];
    assert f[r][k] == a && g[r][k] == b;
    TrimKeepsColoured(f[r], k);
    TrimKeepsColoured(g[r], k);
    assert Trim(f[r]) != Trim(g[r]);
    assert TrimRows(f)[r] != TrimRows(g)[r];
  }

  lemma PaintX(st: Style)
    ensures Paint(Lex("x"), st) == [[Cell('x', st)]]
  {
    LexGlyph('x', "");
    assert ['x'] + "" == "x";
    var items := [Glyph('x')];
    assert Lex("x") == items && items[1..] == [];
    assert Paint(items[1..], st) == [[]];
    assert [CellOf('x', st)] + [] == [Cell('x', st)];
  }

  lemma SameStyleKeeps(p: string, a: string, b: string, q: string)
    requires IsParams(a) && IsParams(b) && MergeAgrees(a, b, StyleAt(p))
    ensures MergeKeeps(p, a, b, q)
  {
    PaintMerged(p, a, b, q);
  }

  lemma OtherStyleShows(p: string, a: string, b: string)
    requires IsParams(a) && IsParams(b) && !MergeAgrees(a, b, StyleAt(p))
    ensures !MergeKeeps(p, a, b, "x")
  {
    WrittenCodesCat(a, b);
    var s := ApplyCodes(CodesOf(b), ApplyCodes(CodesOf(a), StyleAt(p)));
    var t := ApplyCodes(CodesOf(a + ";" + b), StyleAt(p));
    PaintMerged(p, a, b, "x");
    PaintX(s);
    PaintX(t);
    InkShows(Paint(Lex(p), PLAIN), Cell('x', s), Cell('x', t));
  }

  /** After `p`, merging keeps the screen whatever follows exactly when the styles agree. */
  lemma MergeIsExact(p: string, a: string, b: string)
    requires IsParams(a) && IsParams(b)
    ensures (forall q :: MergeKeeps(p, a, b, q)) <==> MergeAgrees(a, b, StyleAt(p))
  {
    if MergeAgrees(a, b, StyleAt(p)) {
      forall q
        ensures MergeKeeps(p, a, b, q)
      {
        SameStyleKeeps(p, a, b, q);
      }
    } else {
      OtherStyleShows(p, a, b);
    }
  }

  /** Two parameter lists that can be merged keep the screen of every frame around them. */
  lemma MergeableKeepsScreen(p: string, a: string, b: string, q: string)
    requires IsParams(a) && IsParams(b) && Mergeable(a, b)
    ensures MergeKeeps(p, a, b, q)
  {
    MergedOps(a, b);
    ApplyAllCat(Ops(CodesOf(a)), Ops(CodesOf(b)), StyleAt(p));
    SameStyleKeeps(p, a, b, q);
  }

  // ----- each of the three conditions is needed

  lemma CodeText(n: nat)
    ensures IsParams(Decimal(n)) && WrittenCodes(Decimal(n)) == [n]
  {
    SplitParts(Decimal(n));
    SplitOfRow(Decimal(n), ';');
    ValueOfDecimal(n);
    assert Numbers([Decimal(n)]) == [n];
  }

  lemma ShortCodes()
    ensures WrittenCodes("") == [] && WrittenCodes("1") == [1] && WrittenCodes("31") == [31]
  {
    assert Decimal(1) == "1" && Decimal(3) == "3" && Decimal(31) == "31";
    CodeText(1);
    CodeText(31);
    SplitParts("");
    assert Numbers([""]) == [];
  }

  lemma PaletteCodes()
    ensures IsParams("38;5") && WrittenCodes("38;5") == [38, 5]
  {
    assert Decimal(3) == "3" && Decimal(5) == "5" && Decimal(38) == "38";
    CodeText(5);
    CodeText(38);
    WrittenCodesCat("38", "5");
    assert "38" + ";" + "5" == "38;5";
  }

  const RED: Style := Style(Some([31]), None, {})

  lemma ShortStyles()
    ensures ApplyCodes([31], PLAIN) == RED
    ensures ApplyCodes([0], RED) == PLAIN
    ensures ApplyCodes([1], RED).fg == Some([31])
    ensures ApplyCodes([1], PLAIN).fg == None
  {
    assert Ops([31]) == [SetFg(Some([31]))] && Ops([0]) == [Reset] && Ops([1]) == [Add(1)];
  }

  lemma PaletteStyles()
    ensures ApplyCodes([38, 5, 1], PLAIN).fg == Some([38, 5, 1])
    ensures ApplyCodes([1], ApplyCodes([38, 5], PLAIN)).fg == Some([38])
  {
    assert [38, 5, 1][..3] == [38, 5, 1] && [38, 5, 1][3..] == [];
    assert Ops([38, 5, 1]) == [SetFg(Some([38, 5, 1]))];
    assert [38, 5][..1] == [38] && [38, 5][1..] == [5];
    assert Ops([5]) == [Add(5)] && Ops([1]) == [Add(1)];
    assert Ops([38, 5]) == [SetFg(Some([38])), Add(5)];
    assert [SetFg(Some([38])), Add(5)][1..] == [Add(5)];
  }

  /** `ESC[38;5m ESC[1m` ends a palette colour early: merged, the 1 becomes the colour. */
  lemma EarlyColourFails()
    ensures IsParams("38;5") && !MergeKeeps("", "38;5", "1", "x")
  {
    ShortCodes();
    PaletteCodes();
    PaletteStyles();
    WrittenCodesCat("38;5", "1");
    assert [38, 5] + [1] == [38, 5, 1];
    assert StyleAt("") == PLAIN;
    OtherStyleShows("", "38;5", "1");
  }

  /** An empty second list is a reset of its own, but vanishes when merged. */
  lemma EmptySecondFails()
    ensures !MergeKeeps("", "31", "", "x")
  {
    ShortCodes();
    ShortStyles();
    WrittenCodesCat("31", "");
    assert [31] + [] == [31];
    assert StyleAt("") == PLAIN;
    OtherStyleShows("", "31", "");
  }

  /** An empty first list is a reset too: after red text, merging loses it. */
  lemma EmptyFirstFails()
    ensures !MergeKeeps(Sequence("31"), "", "1", "x")
  {
    ShortCodes();
    ShortStyles();
    WrittenCodesCat("", "1");
    assert [] + [1] == [1];
    StyleAfterSequence("31");
    OtherStyleShows(Sequence("31"), "", "1");
  }

  lemma StyleAfterSequence(params: string)
    requires IsParams(params)
    ensures StyleAt(Sequence(params)) == ApplyCodes(CodesOf(params), PLAIN)
  {
    LexSequence(params, "");
    CatEmpty(Sequence(params));
    CatEmpty([Escape(CodesOf(params))]);
    AfterEscape(CodesOf(params), PLAIN);
  }

  lemma AfterEscape(codes: seq<nat>, st: Style)
    ensures After([Escape(codes)], st) == ApplyCodes(codes, st)
  {
    assert [Escape(codes)][1..] == [];
  }
}
