/** The row-boundary rewrite of scripts/queue_parity.py, which drops colour resets around newlines,
    and exactly when it keeps the screen. */
module SgrBoundaries {
  import opened Text
  import opened Sgr
  import opened SgrEscapes
  import StyledSegment

  const FG_RESET: string := "39"
  const BG_RESET: string := "49"

  // ----- the rewrite

  /** Where `pattern` first occurs in `s`. */
  function First(s: string, pattern: string): (k: Option<nat>)
    ensures k.Some? ==> k.value + |pattern| <= |s|
  {
    StyledSegment.Find(s, pattern)
  }

  /** Every match of `pattern`, from the left, replaced by a newline; of a match only the first
      `width` characters are used up. */
  function Replaced(s: string, pattern: string, width: nat): string
    requires 0 < width <= |pattern|
    decreases |s|
  {
    var k := First(s, pattern);
    if k.None? then s else s[..k.value] + ("\n" + Replaced(s[k.value + width..], pattern, width))
  }

  /** Drops the escape from every `escape newline`. */
  function DropAtEnd(s: string, escape: string): string { Replaced(s, escape + "\n", |escape| + 1) }

  /** Drops the escape from every `newline escape` that a space follows. */
  function DropAtStart(s: string, escape: string): string { Replaced(s, "\n" + escape + " ", 1 + |escape|) }

  function NormalizeBoundaries(frame: string): string {
    var fg, bg := Sequence(FG_RESET), Sequence(BG_RESET);
    DropAtStart(DropAtEnd(DropAtStart(DropAtEnd(frame, fg), fg), bg), bg)
  }

  // ----- what is dropped, item by item

  /** An item of the frame, kept or dropped. */
  datatype Mark = Keep(item: Item) | Drop(codes: seq<nat>)

  function ItemOf(m: Mark): Item { if m.Keep? then m.item else Escape(m.codes) }

  function KeptOf(m: Mark): seq<Item> { if m.Keep? then [m.item] else [] }

  function Before(ms: seq<Mark>): seq<Item> {
    if ms == [] then []
    else [ItemOf(ms[0])] + Before(ms[1..])
  }

  function Kept(ms: seq<Mark>): seq<Item> {
    if ms == [] then [] else KeptOf(ms[0]) + Kept(ms[1..])
  }

  function KeepAll(items: seq<Item>): seq<Mark> {
    if items == [] then [] else [Keep(items[0])] + KeepAll(items[1..])
  }

  lemma {:induction false} MarksCat(a: seq<Mark>, b: seq<Mark>)
    ensures Before(a + b) == Before(a) + Before(b)
    ensures Kept(a + b) == Kept(a) + Kept(b)
  {
    if a == [] {
      assert a + b == b;
    } else {
      DropCat(a, b, 1);
      MarksCat(a[1..], b);
      CatAssociates([ItemOf(a[0])], Before(a[1..]), Before(b));
      CatAssociates(KeptOf(a[0]), Kept(a[1..]), Kept(b));
    }
  }

  lemma {:induction false} KeepAllIs(items: seq<Item>)
    ensures Before(KeepAll(items)) == items && Kept(KeepAll(items)) == items
  {
    if items != [] {
      KeepAllIs(items[1..]);
      assert items == [items[0]] + items[1..];
    }
  }

  /** Dropping in two goes is dropping in one. */
  function Compose(a: seq<Mark>, b: seq<Mark>): seq<Mark> {
    if a == [] || (a[0].Keep? && b == []) then []
    else if a[0].Drop? then [a[0]] + Compose(a[1..], b)
    else [b[0]] + Compose(a[1..], b[1..])
  }

  lemma {:induction false} ComposeIs(a: seq<Mark>, b: seq<Mark>)
    requires Kept(a) == Before(b)
    ensures Before(Compose(a, b)) == Before(a) && Kept(Compose(a, b)) == Kept(b)
  {
    if a != [] {
      if a[0].Drop? {
        assert [] + Kept(a[1..]) == Kept(a[1..]);
        ComposeIs(a[1..], b);
        assert [] + Kept(Compose(a[1..], b)) == Kept(Compose(a[1..], b));
      } else {
        assert Kept(a)[1..] == Kept(a[1..]);
        assert b != [] && Before(b)[1..] == Before(b[1..]);
        ComposeIs(a[1..], b[1..]);
      }
    }
  }

  lemma LexNewline(p: string, q: string)
    ensures Lex(p + ("\n" + q)) == Lex(p) + ([Glyph('\n')] + Lex(q))
  {
    NothingCut(p, "\n" + q);
    LexCat(p, "\n" + q);
    LexGlyph('\n', q);
  }

  lemma CutOut(s: string, k: nat, pattern: string)
    requires k + |pattern| <= |s| && s[k..k + |pattern|] == pattern
    ensures s == s[..k] + (pattern + s[k + |pattern|..])
  {
    assert s[k..] == s[k..k + |pattern|] + s[k + |pattern|..];
    assert s == s[..k] + s[k..];
  }

  lemma TwoMarks(a: Mark, b: Mark)
    ensures Before([a, b]) == [ItemOf(a), ItemOf(b)]
    ensures Kept([a, b]) == KeptOf(a) + KeptOf(b)
  {
    var both, last := [a, b], [b];
    assert both[1..] == last && last[1..] == [];
    assert Before(last) == [ItemOf(b)] && Kept(last) == KeptOf(b) + [];
    assert KeptOf(b) + [] == KeptOf(b);
  }

  /** Two marked items between a kept beginning and the marked rest. */
  lemma MarkedCut(items: seq<Item>, a: Mark, b: Mark, rest: seq<Mark>)
    ensures var ms := KeepAll(items) + ([a, b] + rest);
            && Before(ms) == items + ([ItemOf(a), ItemOf(b)] + Before(rest))
            && Kept(ms) == items + (KeptOf(a) + KeptOf(b) + Kept(rest))
  {
    KeepAllIs(items);
    TwoMarks(a, b);
    MarksCat(KeepAll(items), [a, b] + rest);
    MarksCat([a, b], rest);
  }

  lemma LexEnd(p: string, params: string, q: string)
    requires IsParams(params)
    ensures Lex(p + (Sequence(params) + ("\n" + q))) == Lex(p) + ([Escape(CodesOf(params)), Glyph('\n')] + Lex(q))
  {
    var escape, newline := [Escape(CodesOf(params))], [Glyph('\n')];
    LexAround(p, params, "\n" + q);
    LexGlyph('\n', q);
    CatAssociates(escape, newline, Lex(q));
    assert escape + newline == [Escape(CodesOf(params)), Glyph('\n')];
  }

  lemma LexStart(p: string, params: string, q: string)
    requires IsParams(params)
    ensures Lex(p + ("\n" + (Sequence(params) + q))) == Lex(p) + ([Glyph('\n'), Escape(CodesOf(params))] + Lex(q))
  {
    LexNewline(p, Sequence(params) + q);
    LexSequence(params, q);
    CatAssociates([Glyph('\n')], [Escape(CodesOf(params))], Lex(q));
  }

  /** A frame and its rewritten form, and what comes of both behind the first place. */
  lemma MarkEnd(s: string, s': string, p: string, params: string, q: string, q': string, rest: seq<Mark>)
    returns (ms: seq<Mark>)
    requires IsParams(params) && s == p + (Sequence(params) + ("\n" + q)) && s' == p + ("\n" + q')
    requires Before(rest) == Lex(q) && Kept(rest) == Lex(q')
    ensures Before(ms) == Lex(s) && Kept(ms) == Lex(s')
  {
    var escape, newline := Drop(CodesOf(params)), Keep(Glyph('\n'));
    ms := KeepAll(Lex(p)) + ([escape, newline] + rest);
    MarkedCut(Lex(p), escape, newline, rest);
    LexEnd(p, params, q);
    LexNewline(p, q');
    assert [] + [Glyph('\n')] == [Glyph('\n')];
  }

  lemma MarkStart(s: string, s': string, p: string, params: string, q: string, q': string, rest: seq<Mark>)
    returns (ms: seq<Mark>)
    requires IsParams(params) && s == p + ("\n" + (Sequence(params) + q)) && s' == p + ("\n" + q')
    requires Before(rest) == Lex(q) && Kept(rest) == Lex(q')
    ensures Before(ms) == Lex(s) && Kept(ms) == Lex(s')
  {
    var newline, escape := Keep(Glyph('\n')), Drop(CodesOf(params));
    ms := KeepAll(Lex(p)) + ([newline, escape] + rest);
    MarkedCut(Lex(p), newline, escape, rest);
    LexStart(p, params, q);
    LexNewline(p, q');
    CatEmpty([Glyph('\n')]);
  }

  lemma FirstOccurs(s: string, pattern: string, k: nat)
    requires First(s, pattern) == Some(k)
    ensures OccursAt(s, pattern, k)
  {
  }

  lemma ReplacedAt(s: string, pattern: string, width: nat, k: nat)
    requires 0 < width <= |pattern| && First(s, pattern) == Some(k)
    ensures Replaced(s, pattern, width) == s[..k] + ("\n" + Replaced(s[k + width..], pattern, width))
  {
  }

  lemma ReplacedOnce(s: string, pattern: string, width: nat, k: nat, q: string)
    requires 0 < width <= |pattern| && First(s, pattern) == Some(k) && q == s[k + width..]
    ensures |q| < |s| && Replaced(s, pattern, width) == s[..k] + ("\n" + Replaced(q, pattern, width))
  {
    ReplacedAt(s, pattern, width, k);
  }

  lemma CutEnd(s: string, escape: string, k: nat)
    requires First(s, escape + "\n") == Some(k)
    ensures k + |escape| + 1 <= |s| && s == s[..k] + (escape + ("\n" + s[k + |escape| + 1..]))
  {
    FirstOccurs(s, escape + "\n", k);
    CutPattern(s, k, escape, "\n");
  }

  lemma CutPattern(s: string, k: nat, a: string, b: string)
    requires OccursAt(s, a + b, k)
    ensures s == s[..k] + (a + (b + s[k + |a| + |b|..]))
  {
    CutOut(s, k, a + b);
    CatAssociates(a, b, s[k + |a| + |b|..]);
  }

  lemma CutStart(s: string, escape: string, k: nat)
    requires First(s, "\n" + escape + " ") == Some(k)
    ensures k + 1 + |escape| <= |s| && s == s[..k] + ("\n" + (escape + s[k + 1 + |escape|..]))
  {
    FirstOccurs(s, "\n" + escape + " ", k);
    OccursFront(s, k, "\n" + escape, " ");
    CutPattern(s, k, "\n", escape);
  }

  lemma OccursFront(s: string, k: nat, a: string, b: string)
    requires OccursAt(s, a + b, k)
    ensures OccursAt(s, a, k)
  {
    assert s[k..k + |a|] == (a + b)[..|a|];
  }

  lemma {:induction false} MarkEnds(s: string, params: string) returns (ms: seq<Mark>)
    requires IsParams(params)
    ensures Before(ms) == Lex(s) && Kept(ms) == Lex(DropAtEnd(s, Sequence(params)))
    decreases |s|
  {
    var escape := Sequence(params);
    var first := First(s, escape + "\n");
    if first.None? {
      ms := KeepAll(Lex(s));
      KeepAllIs(Lex(s));
    } else {
      var k := first.value;
      CutEnd(s, escape, k);
      var q := s[k + |escape| + 1..];
      ReplacedOnce(s, escape + "\n", |escape| + 1, k, q);
      var rest := MarkEnds(q, params);
      ms := MarkEnd(s, DropAtEnd(s, escape), s[..k], params, q, DropAtEnd(q, escape), rest);
    }
  }

  lemma {:induction false} MarkStarts(s: string, params: string) returns (ms: seq<Mark>)
    requires IsParams(params)
    ensures Before(ms) == Lex(s) && Kept(ms) == Lex(DropAtStart(s, Sequence(params)))
    decreases |s|
  {
    var escape := Sequence(params);
    var first := First(s, "\n" + escape + " ");
    if first.None? {
      ms := KeepAll(Lex(s));
      KeepAllIs(Lex(s));
    } else {
      var k := first.value;
      CutStart(s, escape, k);
      var q := s[k + 1 + |escape|..];
      ReplacedOnce(s, "\n" + escape + " ", 1 + |escape|, k, q);
      var rest := MarkStarts(q, params);
      ms := MarkStart(s, DropAtStart(s, escape), s[..k], params, q, DropAtStart(q, escape), rest);
    }
  }

  /** The items of the frame, with those that the rewrite drops. */
  lemma MarkFrame(frame: string) returns (ms: seq<Mark>)
    ensures Before(ms) == Lex(frame) && Kept(ms) == Lex(NormalizeBoundaries(frame))
  {
    var a := DropAtEnd(frame, Sequence(FG_RESET));
    var b := DropAtStart(a, Sequence(FG_RESET));
    var c := DropAtEnd(b, Sequence(BG_RESET));
    var one := MarkEnds(frame, FG_RESET);
    var two := MarkStarts(a, FG_RESET);
    var three := MarkEnds(b, BG_RESET);
    var four := MarkStarts(c, BG_RESET);
    ComposeIs(one, two);
    ComposeIs(Compose(one, two), three);
    ComposeIs(Compose(Compose(one, two), three), four);
    ms := Compose(Compose(Compose(one, two), three), four);
  }

  // ----- the two screens, side by side

  /** With all items in force from `s`, and the dropped ones missing from `t`, does every
      character look the same? */
  predicate Alike(ms: seq<Mark>, s: Style, t: Style) {
    if ms == [] then true
    else match ms[0]
      case Drop(codes) => Alike(ms[1..], ApplyCodes(codes, s), t)
      case Keep(Escape(codes)) => Alike(ms[1..], ApplyCodes(codes, s), ApplyCodes(codes, t))
      case Keep(Glyph(c)) => (c == '\n' || CellOf(c, s) == CellOf(c, t)) && Alike(ms[1..], s, t)
  }

  predicate SameShape(a: seq<Cell>, b: seq<Cell>) {
    |a| == |b| && forall k | 0 <= k < |a| :: a[k].ch == b[k].ch
  }

  predicate SameShapes(a: seq<seq<Cell>>, b: seq<seq<Cell>>) {
    |a| == |b| && forall k | 0 <= k < |a| :: SameShape(a[k], b[k])
  }

  lemma ConsRows(x: Cell, y: Cell, a: seq<seq<Cell>>, b: seq<seq<Cell>>)
    requires a != [] && b != [] && x.ch == y.ch && SameShapes(a, b)
    ensures var u, v := [[x] + a[0]] + a[1..], [[y] + b[0]] + b[1..];
            SameShapes(u, v) && (u == v <==> x == y && a == b)
  {
    var u, v := [[x] + a[0]] + a[1..], [[y] + b[0]] + b[1..];
    assert u[0][1..] == a[0] && v[0][1..] == b[0];
    assert u[1..] == a[1..] && v[1..] == b[1..];
    assert a == [a[0]] + a[1..] && b == [b[0]] + b[1..];
  }

  lemma {:induction false} AlikeIff(ms: seq<Mark>, s: Style, t: Style)
    ensures SameShapes(Paint(Before(ms), s), Paint(Kept(ms), t))
    ensures Paint(Before(ms), s) == Paint(Kept(ms), t) <==> Alike(ms, s, t)
  {
    if ms != [] {
      var rest := ms[1..];
      assert Before(ms)[1..] == Before(rest);
      match ms[0]
      case Drop(codes) =>
        AlikeIff(rest, ApplyCodes(codes, s), t);
        assert [] + Kept(rest) == Kept(rest);
      case Keep(Escape(codes)) =>
        assert Kept(ms)[1..] == Kept(rest);
        AlikeIff(rest, ApplyCodes(codes, s), ApplyCodes(codes, t));
      case Keep(Glyph(c)) =>
        assert Kept(ms)[1..] == Kept(rest);
        AlikeIff(rest, s, t);
        var a, b := Paint(Before(rest), s), Paint(Kept(rest), t);
        if c == '\n' {
          assert ([[]] + a)[1..] == a && ([[]] + b)[1..] == b;
        } else {
          ConsRows(CellOf(c, s), CellOf(c, t), a, b);
        }
    }
  }

  /** Rows of the same characters that differ still differ when trimmed. */
  lemma TrimmedAlike(a: seq<Cell>, b: seq<Cell>)
    requires SameShape(a, b) && Drawn(a) && Drawn(b) && Trim(a) == Trim(b)
    ensures a == b
  {
    forall k | 0 <= k < |a|
      ensures a[k] == b[k]
    {
      TrimKeepsColoured(a, k);
      TrimKeepsColoured(b, k);
      assert a[k] in a && b[k] in b;
    }
  }

  lemma GridsAlike(a: seq<seq<Cell>>, b: seq<seq<Cell>>)
    requires SameShapes(a, b) && DrawnRows(a) && DrawnRows(b)
    ensures TrimRows(a) == TrimRows(b) <==> a == b
  {
    if TrimRows(a) == TrimRows(b) {
      forall k | 0 <= k < |a|
        ensures a[k] == b[k]
      {
        assert TrimRows(a)[k] == TrimRows(b)[k];
        TrimmedAlike(a[k], b[k]);
      }
    }
  }

  /** The rewrite keeps the screen exactly when no character looks different for want of the
      resets that it drops. */
  lemma BoundariesKeepIff(frame: string) returns (ms: seq<Mark>)
    ensures Before(ms) == Lex(frame) && Kept(ms) == Lex(NormalizeBoundaries(frame))
    ensures Grid(NormalizeBoundaries(frame)) == Grid(frame) <==> Alike(ms, PLAIN, PLAIN)
  {
    ms := MarkFrame(frame);
    AlikeIff(ms, PLAIN, PLAIN);
    PaintIsDrawn(Before(ms), PLAIN);
    PaintIsDrawn(Kept(ms), PLAIN);
    GridsAlike(Paint(Before(ms), PLAIN), Paint(Kept(ms), PLAIN));
  }

  // ----- a reset that is missed

  lemma {:induction false} FoundFrom(s: string, pattern: string, k: nat, from: nat)
    requires from <= k && OccursAt(s, pattern, k)
    requires forall j: nat | from <= j < k :: !OccursAt(s, pattern, j)
    ensures StyledSegment.FindFrom(s, pattern, from) == Some(k)
    decreases k - from
  {
    if from < k {
      FoundFrom(s, pattern, k, from + 1);
    }
  }

  lemma {:induction false} NotFoundFrom(s: string, pattern: string, from: nat)
    requires forall j: nat :: !OccursAt(s, pattern, j)
    ensures StyledSegment.FindFrom(s, pattern, from) == None
    decreases |s| - from
  {
    if from <= |s| {
      NotFoundFrom(s, pattern, from + 1);
    }
  }

  /** A pattern that opens as nothing in `s` does is nowhere in it. */
  lemma Nowhere(s: string, pattern: string)
    requires |pattern| >= 4
    requires forall j: nat :: !OccursAt(s, pattern[..4], j)
    ensures First(s, pattern) == None
  {
    forall j: nat
      ensures !OccursAt(s, pattern, j)
    {
      assert !OccursAt(s, pattern[..4], j);
      if j + |pattern| <= |s| {
        assert s[j..j + |pattern|][..4] == s[j..j + 4];
      }
    }
    NotFoundFrom(s, pattern, 0);
  }

  /** Red text, a reset at the end of its row, and a plain row. */
  const RED_ROW: string := [ESC, '[', '3', '1', 'm', 'x', ESC, '[', '3', '9', 'm', '\n', 'y']
  const BLED_ROW: string := [ESC, '[', '3', '1', 'm', 'x', '\n', 'y']

  lemma RedRowFound()
    ensures First(RED_ROW, Sequence(FG_RESET) + "\n") == Some(6)
  {
    var pattern := Sequence(FG_RESET) + "\n";
    assert pattern == [ESC, '[', '3', '9', 'm', '\n'];
    assert RED_ROW[6..12] == pattern;
    forall j: nat | j < 6
      ensures !OccursAt(RED_ROW, pattern, j)
    {
      var t := RED_ROW[j..j + 6];
      assert t[0] == RED_ROW[j] && t[3] == RED_ROW[j + 3];
    }
    FoundFrom(RED_ROW, pattern, 6, 0);
  }

  lemma NothingElse(s: string, a: string, b: string)
    requires s == BLED_ROW || s == "y"
    requires a == Sequence(FG_RESET) + "\n" || a == Sequence(BG_RESET) + "\n"
    requires b == "\n" + Sequence(FG_RESET) + " " || b == "\n" + Sequence(BG_RESET) + " "
    ensures First(s, a) == None && First(s, b) == None
  {
    forall j: nat
      ensures !OccursAt(s, a[..4], j) && !OccursAt(s, b[..4], j)
    {
      if j + 4 <= |s| {
        var t := s[j..j + 4];
        assert t[0] == s[j] && t[1] == s[j + 1] && t[2] == s[j + 2] && t[3] == s[j + 3];
        assert a[..4][0] == ESC && a[..4][1] == '[' && a[..4][3] == '9';
        assert b[..4][0] == '\n' && b[..4][1] == ESC;
      }
    }
    Nowhere(s, a);
    Nowhere(s, b);
  }

  lemma RedRowBleeds()
    ensures NormalizeBoundaries(RED_ROW) == BLED_ROW
  {
    var fgEnd, bgEnd := Sequence(FG_RESET) + "\n", Sequence(BG_RESET) + "\n";
    var fgStart, bgStart := "\n" + Sequence(FG_RESET) + " ", "\n" + Sequence(BG_RESET) + " ";
    RedRowFound();
    NothingElse("y", fgEnd, fgStart);
    assert |Sequence(FG_RESET)| == 5;
    assert RED_ROW[12..] == "y";
    assert DropAtEnd("y", Sequence(FG_RESET)) == "y";
    assert DropAtEnd(RED_ROW, Sequence(FG_RESET)) == RED_ROW[..6] + ("\n" + "y");
    assert RED_ROW[..6] + ("\n" + "y") == BLED_ROW;
    NothingElse(BLED_ROW, bgEnd, fgStart);
    NothingElse(BLED_ROW, bgEnd, bgStart);
  }

  /** The rewrite of this frame drops the reset, and the second row turns red. */
  lemma DroppedResetShows()
    ensures Grid(NormalizeBoundaries(RED_ROW)) != Grid(RED_ROW)
  {
    RedRowBleeds();
    RedRowGrid();
    BledRowGrid();
    assert Cell('y', PLAIN) != Cell('y', RED);
  }

  lemma FgResetCodes()
    ensures IsParams(FG_RESET) && CodesOf(FG_RESET) == [39] && ApplyCodes([39], RED) == PLAIN
  {
    CodeText(39);
    assert Decimal(3) == "3" && Decimal(39) == "39";
    assert Ops([39]) == [SetFg(None)] && [SetFg(None)][1..] == [];
  }

  lemma PaintLast(c: char, st: Style)
    requires c != '\n' && c != ' '
    ensures Paint([Glyph(c)], st) == [[Cell(c, st)]]
  {
    assert [Glyph(c)][1..] == [];
    assert [CellOf(c, st)] + [] == [Cell(c, st)];
  }

  lemma RedRowParts()
    ensures RED_ROW == Sequence("31") + ("x" + (Sequence(FG_RESET) + ("\n" + "y")))
    ensures BLED_ROW == Sequence("31") + ("x" + ("\n" + "y"))
  {
  }

  lemma LexRedRow()
    ensures Lex(RED_ROW) == [Escape([31])] + ([Glyph('x')] + ([Escape([39])] + [Glyph('\n'), Glyph('y')]))
  {
    RedRowParts();
    ShortCodes();
    FgResetCodes();
    LexColoured("31", 'x', FG_RESET, "\n" + "y");
    LexLastRow();
  }

  lemma LexBledRow()
    ensures Lex(BLED_ROW) == [Escape([31])] + ([Glyph('x')] + [Glyph('\n'), Glyph('y')])
  {
    var end := "\n" + "y";
    RedRowParts();
    ShortCodes();
    LexOne('x');
    LexLastRow();
    LexSequence("31", "x" + end);
    NothingCut("x", end);
    LexCat("x", end);
  }

  lemma LexLastRow()
    ensures Lex("\n" + "y") == [Glyph('\n'), Glyph('y')]
  {
    LexGlyph('\n', "y");
    LexOne('y');
  }

  lemma PaintLastRow(st: Style)
    ensures Paint([Glyph('\n'), Glyph('y')], st) == [[], [Cell('y', st)]]
  {
    var items := [Glyph('\n'), Glyph('y')];
    assert items[1..] == [Glyph('y')];
    PaintLast('y', st);
  }

  /** A red x in front of what a stream paints. */
  lemma PaintRedX(items: seq<Item>, rows: seq<seq<Cell>>)
    requires rows != [] && Paint(items, RED) == [[]] + rows
    ensures Paint([Escape([31])] + ([Glyph('x')] + items), PLAIN) == [[Cell('x', RED)]] + rows
  {
    var row := [Glyph('x')] + items;
    var all := [Escape([31])] + row;
    ShortStyles();
    assert all[1..] == row && row[1..] == items;
    assert [CellOf('x', RED)] + [] == [Cell('x', RED)];
    assert Paint(items, RED)[0] == [] && Paint(items, RED)[1..] == rows;
  }

  lemma PaintResetRow()
    ensures Paint([Escape([39])] + [Glyph('\n'), Glyph('y')], RED) == [[]] + [[Cell('y', PLAIN)]]
  {
    var end := [Glyph('\n'), Glyph('y')];
    FgResetCodes();
    PaintLastRow(PLAIN);
    assert ([Escape([39])] + end)[1..] == end;
  }

  lemma RedRowGrid()
    ensures Grid(RED_ROW) == [[Cell('x', RED)], [Cell('y', PLAIN)]]
  {
    LexRedRow();
    PaintResetRow();
    PaintRedX([Escape([39])] + [Glyph('\n'), Glyph('y')], [[Cell('y', PLAIN)]]);
    TwoInkRows(Cell('x', RED), Cell('y', PLAIN));
  }

  lemma BledRowGrid()
    ensures Grid(BLED_ROW) == [[Cell('x', RED)], [Cell('y', RED)]]
  {
    LexBledRow();
    PaintLastRow(RED);
    assert Paint([Glyph('\n'), Glyph('y')], RED) == [[]] + [[Cell('y', RED)]];
    PaintRedX([Glyph('\n'), Glyph('y')], [[Cell('y', RED)]]);
    TwoInkRows(Cell('x', RED), Cell('y', RED));
  }

  lemma TwoInkRows(a: Cell, b: Cell)
    requires !Blank(a) && !Blank(b)
    ensures TrimRows([[a], [b]]) == [[a], [b]]
  {
  }
}
