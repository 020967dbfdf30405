/** Printing painted rows as terminal bytes and reading their hyperlinks back. */
module Osc8RoundTrip {
  import opened Text
  import opened Osc8

  // ----- terminal output as a list of pieces

  datatype Piece =
    | Ink(bytes: Bytes)
    | Move(row: nat, col: nat)
    | Open(url: Bytes)
    | Close
    | Osc(payload: Bytes, bel: bool)
    | Csi(params: Bytes, final: char)

  /** The shapes a piece may have: an `Osc` is not an OSC 8 link, a `Csi` not a cursor move. */
  predicate Valid(p: Piece) {
    match p
    case Ink(bytes) => NoEsc(bytes)
    case Move(_, _) => true
    case Open(url) => url != [] && NoEsc(url)
    case Close => true
    case Osc(payload, _) => NoEsc(payload) && BEL !in payload && !(['8', ';', ';'] <= payload)
    case Csi(params, final) =>
      && (forall k | 0 <= k < |params| :: CsiParam(params[k]))
      && Letter(final)
      && MatchMove(params + [final]) == None
  }

  function Render(p: Piece): Bytes {
    match p
    case Ink(bytes) => bytes
    case Move(row, col) => [ESC, '['] + (Decimal(row) + ([';'] + (Decimal(col) + ['H'])))
    case Open(url) => [ESC, ']', '8', ';', ';'] + (url + [ESC, '\\'])
    case Close => [ESC, ']', '8', ';', ';', ESC, '\\']
    case Osc(payload, bel) => [ESC, ']'] + (payload + (if bel then [BEL] else [ESC, '\\']))
    case Csi(params, final) => [ESC, '['] + (params + [final])
  }

  function RenderAll(ps: seq<Piece>): Bytes {
    if ps == [] then [] else Render(ps[0]) + RenderAll(ps[1..])
  }

  predicate AllValid(ps: seq<Piece>) { forall k | 0 <= k < |ps| :: Valid(ps[k]) }

  /** What a piece means, with no bytes in sight. */
  function Play(p: Piece, st: State): State {
    match p
    case Ink(bytes) => Feed(st, bytes)
    case Move(row, _) => MoveTo(st, row)
    case Open(url) => OpenLink(st, url)
    case Close => CloseLink(st)
    case Osc(_, _) => st
    case Csi(_, _) => st
  }

  function PlayAll(ps: seq<Piece>, st: State): State {
    if ps == [] then st else PlayAll(ps[1..], Play(ps[0], st))
  }

  // ----- reading one piece

  lemma MatchDigits(a: Bytes, b: Bytes, rest: Bytes)
    requires a != [] && b != [] && Digits(a) && Digits(b)
    ensures var inner := a + ([';'] + (b + (['H'] + rest)));
            && MatchMove(inner) == Some((|a|, |b|))
            && inner[..|a|] == a && inner[|a| + |b| + 2..] == rest
  {
    var inner := a + ([';'] + (b + (['H'] + rest)));
    RunLengthIs(inner, IsDigit, |a|);
    assert inner[|a| + 1..] == b + (['H'] + rest);
    RunLengthIs(inner[|a| + 1..], IsDigit, |b|);
  }

  const CSI: Bytes := [ESC, '[']

  lemma EscapeMove(inner: Bytes, a: nat, b: nat, st: State)
    requires MatchMove(inner) == Some((a, b))
    ensures Escape(CSI + inner, st) == (MoveTo(st, Value(inner[..a])), a + b + 4)
    ensures (CSI + inner)[a + b + 4..] == inner[a + b + 2..]
  {
    assert (CSI + inner)[2..] == inner;
  }

  lemma MoveBytes(a: Bytes, b: Bytes, rest: Bytes)
    ensures CSI + (a + ([';'] + (b + ['H']))) + rest == CSI + (a + ([';'] + (b + (['H'] + rest))))
  {
    CatAssociates(b, ['H'], rest);
    CatAssociates([';'], b + ['H'], rest);
    CatAssociates(a, [';'] + (b + ['H']), rest);
    CatAssociates(CSI, a + ([';'] + (b + ['H'])), rest);
  }

  lemma ReadMove(row: nat, col: nat, rest: Bytes, st: State)
    ensures Scan(Render(Move(row, col)) + rest, st) == Scan(rest, MoveTo(st, row))
  {
    var a, b := Decimal(row), Decimal(col);
    MoveBytes(a, b, rest);
    MatchDigits(a, b, rest);
    var inner := a + ([';'] + (b + (['H'] + rest)));
    assert Render(Move(row, col)) + rest == CSI + inner;
    EscapeMove(inner, |a|, |b|, st);
    ValueOfDecimal(row);
  }

  const LINK: Bytes := [ESC, ']', '8', ';', ';']
  const ST: Bytes := [ESC, '\\']

  lemma LinkParts(url: Bytes, rest: Bytes)
    ensures var s := LINK + (url + (ST + rest));
            && s[..5] == LINK && s[5..] == url + (ST + rest)
            && s[5..5 + |url|] == url && s[|url| + 7..] == rest
            && s[|url| + 5] == ESC && s[|url| + 6] == '\\'
  {
    var s := LINK + (url + (ST + rest));
    assert s[5..] == url + (ST + rest);
  }

  lemma MatchUrl(url: Bytes, rest: Bytes)
    requires NoEsc(url)
    ensures var s := LINK + (url + (ST + rest));
            && MatchLink(s) == Some(|url|)
            && s[5..5 + |url|] == url && s[|url| + 7..] == rest
  {
    LinkParts(url, rest);
    RunLengthIs(url + (ST + rest), NotEsc, |url|);
  }

  lemma ReadOpen(url: Bytes, rest: Bytes, st: State)
    requires url != [] && NoEsc(url)
    ensures Scan(Render(Open(url)) + rest, st) == Scan(rest, OpenLink(st, url))
  {
    MatchUrl(url, rest);
    CatAssociates(LINK, url + ST, rest);
    CatAssociates(url, ST, rest);
    assert Escape(LINK + (url + (ST + rest)), st) == (OpenLink(st, url), |url| + 7);
  }

  lemma ReadClose(rest: Bytes, st: State)
    ensures Scan(Render(Close) + rest, st) == Scan(rest, CloseLink(st))
  {
    MatchUrl([], rest);
    assert Render(Close) + rest == LINK + ([] + (ST + rest));
    assert Escape(Render(Close) + rest, st) == (CloseLink(st), 7);
  }

  lemma {:induction false} FindTerminator(payload: Bytes, bel: bool, rest: Bytes)
    requires NoEsc(payload) && BEL !in payload
    ensures var end := if bel then [BEL] else [ESC, '\\'];
            TerminatorEnd(payload + (end + rest)) == |payload| + |end|
  {
    var end := if bel then [BEL] else [ESC, '\\'];
    if payload == [] {
      assert payload + (end + rest) == end + rest;
    } else {
      DropCat(payload, end + rest, 1);
      FindTerminator(payload[1..], bel, rest);
    }
  }

  const OSC: Bytes := [ESC, ']']

  lemma OscIsNoLink(payload: Bytes, end: Bytes, rest: Bytes)
    requires !(['8', ';', ';'] <= payload) && end != [] && (end[0] == BEL || end[0] == ESC)
    ensures MatchLink(OSC + (payload + (end + rest))) == None
  {
    var s := OSC + (payload + (end + rest));
    if |s| >= 5 {
      var head := s[..5];
      if |payload| >= 3 {
        assert head[2..] == payload[..3];
        assert LINK[2..] == ['8', ';', ';'];
      } else {
        assert head[2 + |payload|] == end[0];
        assert LINK[2 + |payload|] != end[0];
      }
      assert head != LINK;
    }
  }

  lemma EscapeOsc(body: Bytes, n: nat, st: State)
    requires MatchLink(OSC + body) == None && TerminatorEnd(body) == n
    ensures Escape(OSC + body, st) == (st, 2 + n)
    ensures (OSC + body)[2 + n..] == body[n..]
  {
    assert (OSC + body)[2..] == body;
  }

  lemma ReadOsc(payload: Bytes, bel: bool, rest: Bytes, st: State)
    requires Valid(Osc(payload, bel))
    ensures Scan(Render(Osc(payload, bel)) + rest, st) == Scan(rest, st)
  {
    var end := if bel then [BEL] else [ESC, '\\'];
    var body := payload + (end + rest);
    CatAssociates(OSC, payload + end, rest);
    CatAssociates(payload, end, rest);
    FindTerminator(payload, bel, rest);
    OscIsNoLink(payload, end, rest);
    EscapeOsc(body, |payload| + |end|, st);
    assert body[|payload| + |end|..] == rest;
  }

  /** A run of digits ends at a later letter, whatever follows. */
  lemma RunEndsAtLetter(body: Bytes, rest: Bytes, from: nat)
    requires from < |body| && Letter(body[|body| - 1])
    ensures RunLength((body + rest)[from..], IsDigit) == RunLength(body[from..], IsDigit)
    ensures from + RunLength(body[from..], IsDigit) < |body|
  {
    var tail := body[from..];
    var n := RunLength(tail, IsDigit);
    assert tail[|tail| - 1] == body[|body| - 1];
    DropCat(body, rest, from);
    RunLengthIs(tail + rest, IsDigit, n);
  }

  /** Bytes after the final letter cannot turn a sequence into a cursor move. */
  lemma MoveEndsAtLetter(body: Bytes, rest: Bytes)
    requires body != [] && Letter(body[|body| - 1])
    ensures MatchMove(body + rest) == MatchMove(body)
  {
    var s := body + rest;
    assert s[0..] == s && body[0..] == body;
    RunEndsAtLetter(body, rest, 0);
    var a := RunLength(body, IsDigit);
    if a > 0 && body[a] == ';' {
      assert a + 1 < |body|;
      RunEndsAtLetter(body, rest, a + 1);
    }
  }

  lemma CsiEnds(params: Bytes, final: char, rest: Bytes)
    requires Valid(Csi(params, final))
    ensures var s := params + [final] + rest; MatchMove(s) == None && MatchCsi(s) == |params| + 1
  {
    MoveEndsAtLetter(params + [final], rest);
    RunLengthIs(params + [final] + rest, CsiParam, |params|);
  }

  lemma EscapeCsi(body: Bytes, n: nat, st: State)
    requires MatchMove(body) == None && MatchCsi(body) == n > 0
    ensures Escape([ESC, '['] + body, st) == (st, 2 + n)
    ensures ([ESC, '['] + body)[2 + n..] == body[n..]
  {
    assert ([ESC, '['] + body)[2..] == body;
  }

  lemma ReadCsi(params: Bytes, final: char, rest: Bytes, st: State)
    requires Valid(Csi(params, final))
    ensures Scan(Render(Csi(params, final)) + rest, st) == Scan(rest, st)
  {
    var body := params + [final] + rest;
    CsiEnds(params, final, rest);
    CatAssociates([ESC, '['], params + [final], rest);
    EscapeCsi(body, |params| + 1, st);
    assert body[|params| + 1..] == rest;
  }

  lemma ReadPiece(p: Piece, rest: Bytes, st: State)
    requires Valid(p)
    ensures Scan(Render(p) + rest, st) == Scan(rest, Play(p, st))
  {
    match p
    case Ink(bytes) => ScanText(bytes, rest, st);
    case Move(row, col) => ReadMove(row, col, rest, st);
    case Open(url) => ReadOpen(url, rest, st);
    case Close => ReadClose(rest, st);
    case Osc(payload, bel) => ReadOsc(payload, bel, rest, st);
    case Csi(params, final) => ReadCsi(params, final, rest, st);
  }

  /** The byte scanner of any printed output does what its pieces mean. */
  lemma {:induction false} ScanOfRender(ps: seq<Piece>, st: State)
    requires AllValid(ps)
    ensures Scan(RenderAll(ps), st) == PlayAll(ps, st)
  {
    if ps != [] {
      ReadPiece(ps[0], RenderAll(ps[1..]), st);
      ScanOfRender(ps[1..], Play(ps[0], st));
    }
  }

  lemma {:induction false} PlayCat(a: seq<Piece>, b: seq<Piece>, st: State)
    ensures PlayAll(a + b, st) == PlayAll(b, PlayAll(a, st))
  {
    if a == [] {
      assert a + b == b;
    } else {
      DropCat(a, b, 1);
      PlayCat(a[1..], b, Play(a[0], st));
    }
  }

  // ----- painted rows

  /** What is painted: cursor moves, loose output, and whole hyperlinks. */
  datatype Paint = Go(row: nat, col: nat) | Loose(piece: Piece) | Hyperlink(url: Bytes, body: seq<Piece>)

  /** Pieces that neither move the cursor nor open or close a link. */
  predicate Inline(p: Piece) { Valid(p) && (p.Ink? || p.Osc? || p.Csi?) }

  predicate ValidPaint(p: Paint) {
    match p
    case Go(_, _) => true
    case Loose(piece) => Inline(piece)
    case Hyperlink(url, body) => Valid(Open(url)) && forall k | 0 <= k < |body| :: Inline(body[k])
  }

  function Pieces(p: Paint): seq<Piece> {
    match p
    case Go(row, col) => [Move(row, col)]
    case Loose(piece) => [piece]
    case Hyperlink(url, body) => [Open(url)] + (body + [Close])
  }

  function AllPieces(ps: seq<Paint>): seq<Piece> {
    if ps == [] then [] else Pieces(ps[0]) + AllPieces(ps[1..])
  }

  /** The bytes written inside a link, escapes left out. */
  function Inked(body: seq<Piece>): Bytes {
    if body == [] then [] else (if body[0].Ink? then body[0].bytes else []) + Inked(body[1..])
  }

  /** The links painted on `row`, in paint order, when the cursor starts on row `cursor`. */
  function LinksOn(ps: seq<Paint>, cursor: nat, row: nat): seq<Link> {
    if ps == [] then []
    else match ps[0]
      case Go(r, _) => LinksOn(ps[1..], r, row)
      case Loose(_) => LinksOn(ps[1..], cursor, row)
      case Hyperlink(url, body) =>
        (if cursor == row then [Link(url, Visible(Inked(body)))] else []) + LinksOn(ps[1..], cursor, row)
  }

  /** The urls and the ink of the links painted on `row`, in paint order. */
  function InkOn(ps: seq<Paint>, cursor: nat, row: nat): seq<(Bytes, Bytes)> {
    if ps == [] then []
    else
      (if ps[0].Hyperlink? && cursor == row then [(ps[0].url, Inked(ps[0].body))] else [])
      + InkOn(ps[1..], if ps[0].Go? then ps[0].row else cursor, row)
  }

  /** Inline pieces feed their ink to the open region, if there is one. */
  lemma {:induction false} PlayBody(body: seq<Piece>, st: State)
    requires forall k | 0 <= k < |body| :: Inline(body[k])
    ensures PlayAll(body, st) == Feed(st, Inked(body))
  {
    if body == [] {
      FeedNothing(st);
    } else {
      PlayBody(body[1..], Play(body[0], st));
      if body[0].Ink? {
        FeedTwice(st, body[0].bytes, Inked(body[1..]));
      } else {
        assert [] + Inked(body[1..]) == Inked(body[1..]);
      }
    }
  }

  lemma FeedTwice(st: State, a: Bytes, b: Bytes)
    ensures Feed(Feed(st, a), b) == Feed(st, a + b)
  {
    if st.pending.Some? {
      CatAssociates(st.pending.value.raw, a, b);
    }
  }

  lemma PlayStep(p: Piece, rest: seq<Piece>, st: State)
    ensures PlayAll([p] + rest, st) == PlayAll(rest, Play(p, st))
  {
    assert ([p] + rest)[1..] == rest;
  }

  lemma PlayToClose(body: seq<Piece>, st: State)
    requires forall k | 0 <= k < |body| :: Inline(body[k])
    ensures PlayAll(body + [Close], st) == CloseLink(Feed(st, Inked(body)))
  {
    PlayCat(body, [Close], st);
    PlayBody(body, st);
    PlayStep(Close, [], Feed(st, Inked(body)));
    assert [Close] + [] == [Close];
  }

  /** A region from its opening to its end: opening replaces whatever was pending. */
  lemma PlayHyperlink(url: Bytes, body: seq<Piece>, st: State)
    requires forall k | 0 <= k < |body| :: Inline(body[k])
    ensures PlayAll([Open(url)] + (body + [Close]), st)
            == State(Record(st.events, st.row, Link(url, Visible(Inked(body)))), st.row, None)
  {
    var begun := OpenLink(st, url);
    PlayStep(Open(url), body + [Close], st);
    PlayToClose(body, begun);
    FeedFresh(begun, Inked(body));
  }

  /** Both columns of the round trip for one row. */
  predicate RowGrows(before: map<nat, seq<Link>>, after: map<nat, seq<Link>>, row: nat, links: seq<Link>) {
    && Recorded(after, row) == Recorded(before, row) + links
    && (row in after <==> row in before || links != [])
  }

  /** What one painted item does to the links of a row. */
  function LinksOfOne(p: Paint, cursor: nat, row: nat): seq<Link> {
    if p.Hyperlink? && cursor == row then [Link(p.url, Visible(Inked(p.body)))] else []
  }

  function CursorAfter(p: Paint, cursor: nat): nat { if p.Go? then p.row else cursor }

  lemma LinksOnCons(ps: seq<Paint>, cursor: nat, row: nat)
    requires ps != []
    ensures LinksOn(ps, cursor, row)
            == LinksOfOne(ps[0], cursor, row) + LinksOn(ps[1..], CursorAfter(ps[0], cursor), row)
  {
  }

  lemma PlayPaint(p: Paint, st: State, row: nat)
    requires st.pending.None? && ValidPaint(p)
    ensures var st' := PlayAll(Pieces(p), st);
            && st'.pending.None?
            && st'.row == CursorAfter(p, st.row)
            && RowGrows(st.events, st'.events, row, LinksOfOne(p, st.row, row))
  {
    CatEmpty(Recorded(st.events, row));
    match p
    case Go(r, c) => assert [Move(r, c)][1..] == [];
    case Loose(piece) => assert [piece][1..] == [];
    case Hyperlink(url, body) => PlayHyperlink(url, body, st);
  }

  lemma {:induction false} PlayPaints(ps: seq<Paint>, st: State, row: nat)
    requires st.pending.None?
    requires forall k | 0 <= k < |ps| :: ValidPaint(ps[k])
    ensures PlayAll(AllPieces(ps), st).pending.None?
    ensures RowGrows(st.events, PlayAll(AllPieces(ps), st).events, row, LinksOn(ps, st.row, row))
  {
    if ps == [] {
      CatEmpty(Recorded(st.events, row));
    } else {
      PlayCat(Pieces(ps[0]), AllPieces(ps[1..]), st);
      var st' := PlayAll(Pieces(ps[0]), st);
      PlayPaint(ps[0], st, row);
      PlayPaints(ps[1..], st', row);
      LinksOnCons(ps, st.row, row);
      CatAssociates(Recorded(st.events, row), LinksOfOne(ps[0], st.row, row), LinksOn(ps[1..], st'.row, row));
    }
  }

  lemma {:induction false} PiecesAreValid(ps: seq<Paint>)
    requires forall k | 0 <= k < |ps| :: ValidPaint(ps[k])
    ensures AllValid(AllPieces(ps))
  {
    if ps != [] {
      PiecesAreValid(ps[1..]);
    }
  }

  /** The events are each row's links, in paint order. */
  lemma EventsArePainted(ps: seq<Paint>)
    requires forall k | 0 <= k < |ps| :: ValidPaint(ps[k])
    ensures var events := Scan(RenderAll(AllPieces(ps)), INITIAL).events;
            forall row: nat ::
              && (row in events <==> LinksOn(ps, 1, row) != [])
              && (row in events ==> events[row] == LinksOn(ps, 1, row))
  {
    PiecesAreValid(ps);
    ScanOfRender(AllPieces(ps), INITIAL);
    var events := PlayAll(AllPieces(ps), INITIAL).events;
    forall row: nat
      ensures row in events <==> LinksOn(ps, 1, row) != []
      ensures row in events ==> events[row] == LinksOn(ps, 1, row)
    {
      PlayPaints(ps, INITIAL, row);
      assert [] + LinksOn(ps, 1, row) == LinksOn(ps, 1, row);
    }
  }

  // ----- the label, byte by byte

  /** Does `text` consist of exactly the bytes 0x20 to 0x7e of `raw`, in order? */
  ghost predicate Labels(raw: Bytes, text: Bytes) {
    exists at: seq<nat> :: Picks(raw, at, text) && forall i: nat :: i in at <==> LabelByte(raw, i)
  }

  predicate LabelByte(raw: Bytes, i: nat) { i < |raw| && 0x20 <= raw[i] as int <= 0x7e }

  lemma {:induction false} VisibleCat(a: Bytes, b: Bytes)
    ensures Visible(a + b) == Visible(a) + Visible(b)
  {
    if a == [] {
      assert a + b == b;
    } else {
      DropCat(a, b, 1);
      VisibleCat(a[1..], b);
      CatAssociates(if Printable(a[0]) then [a[0]] else [], Visible(a[1..]), Visible(b));
    }
  }

  lemma VisibleOne(c: char)
    ensures Visible([c]) == if 0x20 <= c as int <= 0x7e then [c] else []
  {
    assert [c][1..] == [];
  }

  lemma {:induction false} VisibleAt(raw: Bytes) returns (at: seq<nat>)
    ensures Picks(raw, at, Visible(raw))
    ensures forall i: nat :: i in at <==> LabelByte(raw, i)
  {
    if raw == [] {
      at := [];
    } else {
      var front, c := raw[..|raw| - 1], raw[|raw| - 1];
      assert raw == front + [c];
      VisibleCat(front, [c]);
      VisibleOne(c);
      var before := VisibleAt(front);
      at := PickNext(front, before, Visible(front), c, 0x20 <= c as int <= 0x7e);
    }
  }

  lemma EmptyTogether(a: seq<nat>, b: seq<nat>)
    requires forall i: nat :: i in a <==> i in b
    ensures a == [] <==> b == []
  {
    if a != [] {
      assert a[0] in b;
    }
    if b != [] {
      assert b[0] in a;
    }
  }

  /** Two ascending lists of the same positions are one list. */
  lemma {:induction false} SamePositions(a: seq<nat>, b: seq<nat>)
    requires forall i, j | 0 <= i < j < |a| :: a[i] < a[j]
    requires forall i, j | 0 <= i < j < |b| :: b[i] < b[j]
    requires forall i: nat :: i in a <==> i in b
    ensures a == b
  {
    EmptyTogether(a, b);
    if a != [] {
      var x, y, last := a[..|a| - 1], b[..|b| - 1], a[|a| - 1];
      assert last in b && b[|b| - 1] in a;
      assert last == b[|b| - 1];
      assert a == x + [last] && b == y + [last];
      forall i: nat
        ensures i in x <==> i in y
      {
        assert i in a <==> i in x || i == last;
        assert i in b <==> i in y || i == last;
      }
      SamePositions(x, y);
    }
  }

  /** The label of a region, exactly: the bytes 0x20 to 0x7e of its ink, and no others. */
  lemma VisibleIff(raw: Bytes, text: Bytes)
    ensures Labels(raw, text) <==> text == Visible(raw)
  {
    var at := VisibleAt(raw);
    if Labels(raw, text) {
      var other: seq<nat> :| Picks(raw, other, text) && forall i: nat :: i in other <==> LabelByte(raw, i);
      SamePositions(at, other);
    }
  }

  /** Every recorded link has the url that was painted, and the label of its ink. */
  ghost predicate Labelled(links: seq<Link>, painted: seq<(Bytes, Bytes)>) {
    && |links| == |painted|
    && forall k | 0 <= k < |links| :: links[k].url == painted[k].0 && Labels(painted[k].1, links[k].text)
  }

  lemma {:induction false} LinksAreLabelled(ps: seq<Paint>, cursor: nat, row: nat)
    ensures Labelled(LinksOn(ps, cursor, row), InkOn(ps, cursor, row))
  {
    if ps != [] {
      LinksOnCons(ps, cursor, row);
      LinksAreLabelled(ps[1..], CursorAfter(ps[0], cursor), row);
      if ps[0].Hyperlink? {
        VisibleIff(Inked(ps[0].body), Visible(Inked(ps[0].body)));
      }
    }
  }

  /** The round trip: from the printed bytes of any painted rows, exactly each row's links, in
      paint order, with the bytes 0x20 to 0x7e between open and close as their text. */
  lemma RoundTrip(ps: seq<Paint>)
    requires forall k | 0 <= k < |ps| :: ValidPaint(ps[k])
    ensures var events := Scan(RenderAll(AllPieces(ps)), INITIAL).events;
            forall row: nat ::
              && (row in events <==> InkOn(ps, 1, row) != [])
              && (row in events ==> Labelled(events[row], InkOn(ps, 1, row)))
  {
    EventsArePainted(ps);
    forall row: nat
      ensures Labelled(LinksOn(ps, 1, row), InkOn(ps, 1, row))
    {
      LinksAreLabelled(ps, 1, row);
    }
  }

  /** Text of the bytes 0x20 to 0x7e comes back unchanged. */
  lemma {:induction false} PrintableIsVisible(text: Bytes)
    requires forall k | 0 <= k < |text| :: 0x20 <= text[k] as int <= 0x7e
    ensures Visible(text) == text
  {
    if text != [] {
      PrintableIsVisible(text[1..]);
      assert text == [text[0]] + text[1..];
    }
  }

  /** Any other byte, wherever it is inserted, changes nothing. */
  lemma OthersVanish(a: Bytes, c: char, b: Bytes)
    requires !(0x20 <= c as int <= 0x7e)
    ensures Visible(a + ([c] + b)) == Visible(a + b)
  {
    VisibleCat(a, [c] + b);
    VisibleCat([c], b);
    VisibleCat(a, b);
    VisibleOne(c);
    assert [] + Visible(b) == Visible(b);
  }

  // ----- regions that do not close on their own row, or not at all

  /** A link that wraps onto another row keeps only the part on its first row. */
  lemma WrappedKeepsFirstRow(url: Bytes, first: seq<Piece>, row: nat, col: nat, second: seq<Piece>, st: State)
    requires forall k | 0 <= k < |first| :: Inline(first[k])
    requires forall k | 0 <= k < |second| :: Inline(second[k])
    requires row != st.row
    ensures PlayAll([Open(url)] + (first + ([Move(row, col)] + (second + [Close]))), st)
            == State(Record(st.events, st.row, Link(url, Visible(Inked(first)))), row, None)
  {
    var begun := OpenLink(st, url);
    var rest := [Move(row, col)] + (second + [Close]);
    PlayStep(Open(url), first + rest, st);
    PlayCat(first, rest, begun);
    PlayBody(first, begun);
    FeedFresh(begun, Inked(first));
    var fed := Feed(begun, Inked(first));
    PlayStep(Move(row, col), second + [Close], fed);
    var moved := MoveTo(fed, row);
    PlayToClose(second, moved);
  }

  /** A link begun inside an open link replaces it: the outer one is never reported. */
  lemma ReopenDropsOuter(outer: Bytes, first: seq<Piece>, inner: Bytes, second: seq<Piece>, st: State)
    requires forall k | 0 <= k < |first| :: Inline(first[k])
    requires forall k | 0 <= k < |second| :: Inline(second[k])
    ensures PlayAll([Open(outer)] + (first + ([Open(inner)] + (second + [Close]))), st)
            == State(Record(st.events, st.row, Link(inner, Visible(Inked(second)))), st.row, None)
  {
    var begun := OpenLink(st, outer);
    var rest := [Open(inner)] + (second + [Close]);
    PlayStep(Open(outer), first + rest, st);
    PlayCat(first, rest, begun);
    PlayBody(first, begun);
    PlayHyperlink(inner, second, Feed(begun, Inked(first)));
  }

  lemma FeedFresh(st: State, text: Bytes)
    requires st.pending.Some? && st.pending.value.raw == []
    ensures Feed(st, text) == st.(pending := Some(st.pending.value.(raw := text)))
  {
    assert [] + text == text;
  }
}
