/** When the returned text determines the screen, read off the text itself: a spot is a place
    where it could be read as a style tag. */
module SgrSpots {
  import opened Text
  import opened Sgr
  import opened SgrText
  import opened SgrImage
  import opened SgrScreen

  // ----- spots

  /** Can a tag of this style stand in front of `c`, in a row that has shown no style yet? */
  predicate Fits(st: Style, c: char) {
    Selectable(st) && c != '\n' && CellOf(c, st) == Cell(c, st) && NeedsTag(Cell(c, st), PLAIN)
  }

  function TagText(st: Style): string { TokenText(Tag(st)) }

  /** `t` has `tag` at `j`, and a character behind it. */
  predicate SpellsAt(t: string, j: nat, tag: string) {
    j + |tag| < |t| && t[j..j + |tag|] == tag
  }

  /** `t` spells a tag of this style at `j`, with a character behind it that the tag fits. */
  predicate SpotAt(t: string, j: nat, st: Style) { SpotOf(t, j, st, TagText(st)) }

  predicate SpotOf(t: string, j: nat, st: Style, tag: string) {
    SpellsAt(t, j, tag) && Fits(st, t[j + |tag|])
  }

  /** Behind the tag and its character. */
  function SpotEnd(j: nat, st: Style): nat { j + |TagText(st)| + 1 }

  ghost predicate NoSpot(t: string) { forall j: nat, st :: !SpotAt(t, j, st) }

  /** One spot sets a background, and no spot ends in front of it. */
  ghost predicate OneColouredSpot(t: string, j: nat, st: Style) {
    && SpotAt(t, j, st) && st.bg.Some?
    && forall i: nat, s | SpotAt(t, i, s) :: SpotEnd(i, s) > j && (s.bg.Some? ==> i == j && s == st)
  }

  predicate EndsInSpace(t: string) { t != "" && t[|t| - 1] == ' ' }

  ghost predicate Unambiguous(t: string) {
    if EndsInSpace(t) then exists j: nat, st :: OneColouredSpot(t, j, st) else NoSpot(t)
  }

  // ----- token rows in parts

  lemma {:induction false} RowTextCat(a: seq<Token>, b: seq<Token>)
    ensures RowText(a + b) == RowText(a) + RowText(b)
  {
    if a == [] {
      assert a + b == b;
    } else {
      DropCat(a, b, 1);
      RowTextCat(a[1..], b);
      CatAssociates(TokenText(a[0]), RowText(a[1..]), RowText(b));
    }
  }

  /** The style in force behind the tokens. */
  function EndPen(tokens: seq<Token>, pen: Style): Style {
    if tokens == [] then pen
    else match tokens[0]
      case Char(_) => EndPen(tokens[1..], pen)
      case Tag(st) => EndPen(tokens[1..], st)
  }

  lemma {:induction false} LegalCat(a: seq<Token>, b: seq<Token>, pen: Style)
    requires AllChars(a)
    ensures Legal(a + b, pen) <==> Legal(b, pen) && forall k | 0 <= k < |a| :: a[k].ch != '\n'
    ensures EndPen(a + b, pen) == EndPen(b, pen)
  {
    if a == [] {
      assert a + b == b;
    } else {
      DropCat(a, b, 1);
      LegalCat(a[1..], b, pen);
      assert a == [a[0]] + a[1..];
    }
  }

  lemma TextOfTag(st: Style, rest: seq<Token>)
    ensures RowText([Tag(st)] + rest) == TagText(st) + RowText(rest)
  {
    assert ([Tag(st)] + rest)[1..] == rest;
  }

  // ----- readings with no, one and two tags

  function OneTag(x: string, st: Style, y: string): seq<Token> { Chars(x) + ([Tag(st)] + Chars(y)) }

  function TwoTags(x: string, a: Style, y: string, b: Style, z: string): seq<Token> {
    Chars(x) + ([Tag(a)] + (Chars(y) + ([Tag(b)] + Chars(z))))
  }

  lemma CharsAreLegal(s: string, pen: Style)
    requires '\n' !in s
    ensures Legal(Chars(s), pen) && RowText(Chars(s)) == s && EndPen(Chars(s), pen) == pen
  {
    LegalCat(Chars(s), [], pen);
    CatEmpty(Chars(s));
    PrintPlain(s);
  }

  lemma CharsCat(s: string, b: seq<Token>, pen: Style)
    requires '\n' !in s && Legal(b, pen)
    ensures Legal(Chars(s) + b, pen) && EndPen(Chars(s) + b, pen) == EndPen(b, pen)
    ensures RowText(Chars(s) + b) == s + RowText(b)
  {
    LegalCat(Chars(s), b, pen);
    RowTextCat(Chars(s), b);
    PrintPlain(s);
  }

  /** A tag in front of characters. */
  lemma TagThenChars(st: Style, y: string, rest: seq<Token>, pen: Style)
    requires y != "" && '\n' !in y && Legal(rest, st)
    requires Selectable(st) && CellOf(y[0], st) == Cell(y[0], st) && NeedsTag(Cell(y[0], st), pen)
    ensures var tokens := [Tag(st)] + (Chars(y) + rest);
            && Legal(tokens, pen) && EndPen(tokens, pen) == EndPen(rest, st)
            && RowText(tokens) == TagText(st) + (y + RowText(rest))
  {
    var tail := Chars(y) + rest;
    var tokens := [Tag(st)] + tail;
    CharsCat(y, rest, st);
    assert tokens[1..] == tail && tail[0] == Char(y[0]);
    assert tokens[2..] == tail[1..];
    TextOfTag(st, tail);
  }

  lemma OneTagReading(x: string, st: Style, y: string)
    requires '\n' !in x && '\n' !in y && y != "" && Fits(st, y[0])
    ensures Legal(OneTag(x, st, y), PLAIN) && EndPen(OneTag(x, st, y), PLAIN) == st
    ensures RowText(OneTag(x, st, y)) == x + (TagText(st) + y)
  {
    TagThenChars(st, y, [], PLAIN);
    CatEmpty(Chars(y));
    CatEmpty(y);
    CharsCat(x, [Tag(st)] + Chars(y), PLAIN);
  }

  lemma TwoTagsReading(x: string, a: Style, y: string, b: Style, z: string)
    requires '\n' !in x && '\n' !in y && '\n' !in z && y != "" && z != ""
    requires Fits(a, y[0]) && Fits(b, z[0]) && a.bg.None? && b.bg.Some?
    ensures Legal(TwoTags(x, a, y, b, z), PLAIN) && EndPen(TwoTags(x, a, y, b, z), PLAIN) == b
    ensures RowText(TwoTags(x, a, y, b, z)) == x + (TagText(a) + (y + (TagText(b) + z)))
  {
    TagThenChars(b, z, [], a);
    CatEmpty(Chars(z));
    CatEmpty(z);
    TagThenChars(a, y, [Tag(b)] + Chars(z), PLAIN);
    CharsCat(x, [Tag(a)] + (Chars(y) + ([Tag(b)] + Chars(z))), PLAIN);
  }

  // ----- which rows keep their last cell

  lemma LastOfCat<T>(a: seq<T>, b: seq<T>)
    requires b != []
    ensures (a + b)[|a + b| - 1] == b[|b| - 1]
  {
  }

  lemma LegalRest(tokens: seq<Token>, pen: Style)
    requires Legal(tokens, pen) && tokens != []
    ensures var next := if tokens[0].Tag? then tokens[0].style else pen;
            && Legal(tokens[1..], next) && EndPen(tokens, pen) == EndPen(tokens[1..], next)
            && (tokens[0].Tag? ==> tokens[1..] != [] && tokens[1].Char?)
  {
    if tokens[0].Tag? {
      assert tokens[1..][1..] == tokens[2..];
    }
  }

  /** The tokens show something, and its last character in this style. */
  predicate EndsAs(tokens: seq<Token>, pen: Style, end: Style) {
    var cells, t := Decode(tokens, pen), RowText(tokens);
    cells != [] && t != [] && cells[|cells| - 1] == CellOf(t[|t| - 1], end)
  }

  lemma EndsAsAfterTag(st: Style, rest: seq<Token>, pen: Style, end: Style)
    requires EndsAs(rest, st, end)
    ensures EndsAs([Tag(st)] + rest, pen, end)
  {
    TextOfTag(st, rest);
    LastOfCat(TagText(st), RowText(rest));
    assert ([Tag(st)] + rest)[1..] == rest;
  }

  lemma EndsAsAfterChar(c: char, rest: seq<Token>, pen: Style, end: Style)
    requires EndsAs(rest, pen, end)
    ensures EndsAs([Char(c)] + rest, pen, end)
  {
    CharText(c, rest);
    LastOfCat([c], RowText(rest));
    LastOfCat([CellOf(c, pen)], Decode(rest, pen));
    assert ([Char(c)] + rest)[1..] == rest;
  }

  lemma EndsAsChar(c: char, pen: Style)
    ensures EndsAs([Char(c)], pen, pen)
  {
    assert [Char(c)][1..] == [];
    assert Decode([Char(c)], pen) == [CellOf(c, pen)] && RowText([Char(c)]) == [c];
  }

  lemma {:induction false} LastShown(tokens: seq<Token>, pen: Style)
    requires Legal(tokens, pen) && tokens != []
    ensures EndsAs(tokens, pen, EndPen(tokens, pen))
  {
    var next := if tokens[0].Tag? then tokens[0].style else pen;
    var rest := tokens[1..];
    LegalRest(tokens, pen);
    if rest == [] {
      assert tokens == [tokens[0]];
      EndsAsChar(tokens[0].ch, pen);
    } else {
      LastShown(rest, next);
      assert tokens == [tokens[0]] + rest;
      match tokens[0]
      case Tag(st) => EndsAsAfterTag(st, rest, pen, EndPen(rest, next));
      case Char(c) => EndsAsAfterChar(c, rest, pen, EndPen(rest, next));
    }
  }

  /** A legal row is kept whole unless it ends in a space with no background. */
  lemma KeptIff(tokens: seq<Token>)
    requires Legal(tokens, PLAIN)
    ensures LegalRow(tokens) <==> !EndsInSpace(RowText(tokens)) || EndPen(tokens, PLAIN).bg.Some?
  {
    if tokens != [] {
      LastShown(tokens, PLAIN);
    }
  }

  // ----- tags are spots

  lemma SpellsParts(t: string, j: nat, tag: string)
    requires SpellsAt(t, j, tag)
    ensures var y := t[j + |tag|..];
            t == t[..j] + (tag + y) && y != "" && y[0] == t[j + |tag|]
  {
    assert t[j..] == t[j..j + |tag|] + t[j + |tag|..];
    assert t == t[..j] + t[j..];
  }

  lemma SpellsPart(x: string, tag: string, y: string)
    requires y != ""
    ensures SpellsAt(x + (tag + y), |x|, tag) && (x + (tag + y))[|x| + |tag|] == y[0]
  {
  }

  lemma PartsSpot(x: string, st: Style, y: string)
    requires y != "" && Fits(st, y[0])
    ensures SpotAt(x + (TagText(st) + y), |x|, st)
  {
    SpellsPart(x, TagText(st), y);
  }

  lemma SpotParts(t: string, j: nat, st: Style) returns (x: string, y: string)
    requires SpotAt(t, j, st)
    ensures |x| == j && t == x + (TagText(st) + y) && y != "" && Fits(st, y[0])
  {
    var tag := TagText(st);
    SpellsParts(t, j, tag);
    x, y := t[..j], t[j + |tag|..];
  }

  lemma ShiftSpot(c: char, t: string, j: nat, st: Style)
    requires SpotAt(t, j, st)
    ensures SpotAt([c] + t, j + 1, st)
  {
    ShiftSpotOf(c, t, j, st, TagText(st));
  }

  lemma ShiftSpotOf(c: char, t: string, j: nat, st: Style, tag: string)
    requires SpotOf(t, j, st, tag)
    ensures SpotOf([c] + t, j + 1, st, tag)
  {
    assert ([c] + t)[j + 1..j + 1 + |tag|] == t[j..j + |tag|];
  }

  lemma CharText(c: char, rest: seq<Token>)
    ensures RowText([Char(c)] + rest) == [c] + RowText(rest)
  {
    assert ([Char(c)] + rest)[1..] == rest;
  }

  lemma LegalTail(tokens: seq<Token>, pen: Style)
    requires Legal(tokens, pen) && tokens != [] && tokens[0].Char?
    ensures Legal(tokens[1..], pen)
  {
  }

  lemma HeadTagIsSpot(tokens: seq<Token>)
    requires Legal(tokens, PLAIN) && tokens != [] && tokens[0].Tag?
    ensures |tokens| > 1 && tokens[1].Char? && SpotAt(RowText(tokens), 0, tokens[0].style)
  {
    var st, c, rest := tokens[0].style, tokens[1].ch, RowText(tokens[1..][1..]);
    assert RowText(tokens[1..]) == [c] + rest;
    PartsSpot("", st, [c] + rest);
    assert RowText(tokens) == "" + (TagText(st) + ([c] + rest));
  }

  lemma TwoTokensText(tokens: seq<Token>)
    requires |tokens| > 1 && tokens[1].Char?
    ensures |RowText(tokens)| >= |TokenText(tokens[0])| + 1
  {
    assert RowText(tokens[1..]) == [tokens[1].ch] + RowText(tokens[1..][1..]);
  }

  /** The first tag of a legal row is a spot, and the character behind it is no tag. */
  lemma {:induction false} FirstTagIsSpot(front: seq<Token>, tail: seq<Token>) returns (j: nat, st: Style)
    requires Legal(front + tail, PLAIN) && !AllChars(front)
    requires tail == [] || tail[0].Tag?
    ensures SpotAt(RowText(front + tail), j, st) && SpotEnd(j, st) <= |RowText(front)|
  {
    var all := front + tail;
    if front[0].Tag? {
      j, st := 0, front[0].style;
      HeadTagIsSpot(all);
      assert |front| > 1 && all[1] == front[1];
      TwoTokensText(front);
    } else {
      var c, rest := front[0].ch, front[1..];
      DropCat(front, tail, 1);
      LegalTail(all, PLAIN);
      assert front == [Char(c)] + rest && all == [Char(c)] + (rest + tail);
      j, st := FirstTagIsSpot(rest, tail);
      ShiftSpot(c, RowText(rest + tail), j, st);
      CharText(c, rest + tail);
      CharText(c, rest);
      j := j + 1;
    }
  }

  lemma {:induction false} LastTag(tokens: seq<Token>, pen: Style)
    returns (front: seq<Token>, st: Style, y: string)
    requires Legal(tokens, pen) && !AllChars(tokens)
    ensures tokens == front + ([Tag(st)] + Chars(y)) && EndPen(tokens, pen) == st
    ensures y != "" && Selectable(st) && y[0] != '\n' && CellOf(y[0], st) == Cell(y[0], st)
  {
    var next := if tokens[0].Tag? then tokens[0].style else pen;
    var rest := tokens[1..];
    LegalRest(tokens, pen);
    assert tokens == [tokens[0]] + rest;
    if AllChars(rest) {
      CharsOfText(rest);
      front, st, y := [], next, RowText(rest);
      assert tokens[0].Tag?;
      assert Chars(y)[0] == Char(y[0]);
      LegalCat(rest, [], next);
      CatEmpty(rest);
      assert [] + ([Tag(st)] + Chars(y)) == tokens;
    } else {
      front, st, y := LastTag(rest, next);
      CatAssociates([tokens[0]], front, [Tag(st)] + Chars(y));
      front := [tokens[0]] + front;
    }
  }

  /** A row that ends in a coloured space has a last tag, and that is a spot. */
  lemma ColouredEnd(tokens: seq<Token>) returns (front: seq<Token>, st: Style, y: string)
    requires LegalRow(tokens) && EndsInSpace(RowText(tokens))
    ensures tokens == front + ([Tag(st)] + Chars(y)) && st.bg.Some? && y != ""
    ensures RowText(tokens) == RowText(front) + (TagText(st) + y)
    ensures SpotAt(RowText(tokens), |RowText(front)|, st)
  {
    KeptIff(tokens);
    if AllChars(tokens) {
      LegalCat(tokens, [], PLAIN);
      CatEmpty(tokens);
      assert false;
    }
    front, st, y := LastTag(tokens, PLAIN);
    RowTextCat(front, [Tag(st)] + Chars(y));
    TextOfTag(st, Chars(y));
    PrintPlain(y);
    PartsSpot(RowText(front), st, y);
  }

  // ----- one reading only

  predicate Reads(tokens: seq<Token>, t: string) { LegalRow(tokens) && RowText(tokens) == t }

  ghost predicate OneReading(t: string) { forall r, s | Reads(r, t) && Reads(s, t) :: r == s }

  lemma SpotReads(t: string, x: string, st: Style, y: string)
    requires '\n' !in t && t == x + (TagText(st) + y) && y != "" && Fits(st, y[0])
    requires EndsInSpace(t) ==> st.bg.Some?
    ensures Reads(OneTag(x, st, y), t)
  {
    OneTagReading(x, st, y);
    KeptIff(OneTag(x, st, y));
  }

  lemma OneTagAt(x: string, st: Style, y: string, k: nat)
    requires k <= |x|
    ensures k < |OneTag(x, st, y)|
    ensures OneTag(x, st, y)[k] == if k < |x| then Char(x[k]) else Tag(st)
  {
  }

  lemma OneTagsDiffer(x: string, a: Style, y: string, u: string, b: Style, v: string)
    requires |x| != |u| || a != b
    ensures OneTag(x, a, y) != OneTag(u, b, v)
  {
    var k := if |x| < |u| then |x| else |u|;
    OneTagAt(x, a, y, k);
    OneTagAt(u, b, v, k);
  }

  lemma PlainDiffers(t: string, x: string, st: Style, y: string)
    ensures Chars(t) != OneTag(x, st, y)
  {
    OneTagAt(x, st, y, |x|);
  }

  lemma TwoTagsDiffer(x: string, a: Style, y: string, b: Style, z: string, u: string, v: string)
    requires |x| < |u|
    ensures TwoTags(x, a, y, b, z) != OneTag(u, b, v)
  {
    OneTagAt(u, b, v, |x|);
    assert TwoTags(x, a, y, b, z)[|x|] == Tag(a);
  }

  lemma NoSpotReading(t: string, r: seq<Token>)
    requires NoSpot(t) && Reads(r, t)
    ensures r == Chars(t)
  {
    CatEmpty(r);
    if !AllChars(r) {
      var j, st := FirstTagIsSpot(r, []);
    }
    CharsOfText(r);
  }

  lemma TwoReadings(t: string, r: seq<Token>, s: seq<Token>)
    requires Reads(r, t) && Reads(s, t) && r != s
    ensures !OneReading(t)
  {
  }

  lemma PlainReads(t: string)
    requires '\n' !in t && !EndsInSpace(t)
    ensures Reads(Chars(t), t)
  {
    CharsAreLegal(t, PLAIN);
    KeptIff(Chars(t));
  }

  lemma SpotOrNot(t: string, j: nat, st: Style)
    requires '\n' !in t && !EndsInSpace(t) && SpotAt(t, j, st)
    ensures !OneReading(t)
  {
    var x, y := SpotParts(t, j, st);
    SpotReads(t, x, st, y);
    PlainReads(t);
    PlainDiffers(t, x, st, y);
    TwoReadings(t, Chars(t), OneTag(x, st, y));
  }

  /** No space at the end: one reading exactly when there is no spot. */
  lemma InkReading(t: string)
    requires '\n' !in t && !EndsInSpace(t)
    ensures OneReading(t) <==> NoSpot(t)
  {
    if NoSpot(t) {
      forall r | Reads(r, t)
        ensures r == Chars(t)
      {
        NoSpotReading(t, r);
      }
    } else {
      var j: nat, st :| SpotAt(t, j, st);
      SpotOrNot(t, j, st);
    }
  }

  lemma NothingInFront(t: string, front: seq<Token>, st: Style, y: string)
    requires Legal(front + ([Tag(st)] + Chars(y)), PLAIN) && RowText(front + ([Tag(st)] + Chars(y))) == t
    requires OneColouredSpot(t, |RowText(front)|, st)
    ensures AllChars(front)
  {
    if !AllChars(front) {
      var i, u := FirstTagIsSpot(front, [Tag(st)] + Chars(y));
    }
  }

  lemma SameCut(x: string, u: string, tag: string, y: string, v: string)
    requires x + (tag + y) == u + (tag + v) && |x| == |u|
    ensures x == u && y == v
  {
    var t := x + (tag + y);
    assert t[..|x|] == x && t[..|x|] == u;
    assert t[|x| + |tag|..] == y && t[|x| + |tag|..] == v;
  }

  lemma SameSpot(t: string, j: nat, st: Style, i: nat, s: Style)
    requires OneColouredSpot(t, j, st) && SpotAt(t, i, s) && s.bg.Some?
    ensures i == j && s == st
  {
  }

  /** One coloured spot leaves one reading. */
  lemma ColouredReading(t: string, x: string, st: Style, y: string, r: seq<Token>)
    requires '\n' !in t && EndsInSpace(t) && Reads(r, t)
    requires t == x + (TagText(st) + y) && OneColouredSpot(t, |x|, st)
    ensures r == OneTag(x, st, y)
  {
    var front, s, v := ColouredEnd(r);
    var u := RowText(front);
    SameSpot(t, |x|, st, |u|, s);
    NothingInFront(t, front, st, v);
    CharsOfText(front);
    SameCut(x, u, TagText(st), y, v);
  }

  /** Two coloured spots are two readings. */
  lemma TwoColoured(t: string, i: nat, s: Style, j: nat, st: Style)
    requires '\n' !in t && SpotAt(t, i, s) && SpotAt(t, j, st) && s.bg.Some? && st.bg.Some?
    requires i != j || s != st
    ensures !OneReading(t)
  {
    var x, y := SpotParts(t, i, s);
    var u, v := SpotParts(t, j, st);
    SpotReads(t, x, s, y);
    SpotReads(t, u, st, v);
    OneTagsDiffer(x, s, y, u, st, v);
    TwoReadings(t, OneTag(x, s, y), OneTag(u, st, v));
  }

  lemma TwoSpells(t: string, i: nat, a: string, j: nat, b: string)
    returns (x: string, y: string, z: string, u: string)
    requires SpellsAt(t, i, a) && SpellsAt(t, j, b) && i + |a| < j
    ensures |x| == i && t == x + (a + (y + (b + z))) && y != "" && y[0] == t[i + |a|]
    ensures |u| == j && t == u + (b + z) && z != "" && z[0] == t[j + |b|]
  {
    SpellsParts(t, i, a);
    SpellsParts(t, j, b);
    x, y, z, u := t[..i], t[i + |a|..j], t[j + |b|..], t[..j];
    assert t[i + |a|..] == y + t[j..];
    assert t[j..] == b + z;
  }

  lemma TwoTagsRead(t: string, x: string, a: Style, y: string, b: Style, z: string)
    requires '\n' !in t && t == x + (TagText(a) + (y + (TagText(b) + z)))
    requires y != "" && z != "" && Fits(a, y[0]) && Fits(b, z[0]) && a.bg.None? && b.bg.Some?
    ensures Reads(TwoTags(x, a, y, b, z), t)
  {
    TwoTagsReading(x, a, y, b, z);
    KeptIff(TwoTags(x, a, y, b, z));
  }

  /** A spot in front of the coloured one is a tag, or is not. */
  lemma SpotInFront(t: string, i: nat, s: Style, j: nat, st: Style)
    requires '\n' !in t && EndsInSpace(t) && SpotAt(t, i, s) && SpotAt(t, j, st) && SpotEnd(i, s) <= j
    requires s.bg.None? && st.bg.Some?
    ensures !OneReading(t)
  {
    var x, y, z, u := TwoSpells(t, i, TagText(s), j, TagText(st));
    TwoTagsRead(t, x, s, y, st, z);
    SpotReads(t, u, st, z);
    TwoTagsDiffer(x, s, y, st, z, u, z);
    TwoReadings(t, TwoTags(x, s, y, st, z), OneTag(u, st, z));
  }

  lemma OtherReading(t: string, j: nat, st: Style)
    requires '\n' !in t && EndsInSpace(t) && SpotAt(t, j, st) && st.bg.Some?
    requires !OneColouredSpot(t, j, st)
    ensures !OneReading(t)
  {
    var i: nat, s :| SpotAt(t, i, s) && !(SpotEnd(i, s) > j && (s.bg.Some? ==> i == j && s == st));
    if s.bg.Some? && (i != j || s != st) {
      TwoColoured(t, i, s, j, st);
    } else {
      SpotInFront(t, i, s, j, st);
    }
  }

  /** A text that some row has can be read in one way only exactly when it is unambiguous. */
  lemma OneReadingIff(t: string, r: seq<Token>)
    requires '\n' !in t && Reads(r, t)
    ensures OneReading(t) <==> Unambiguous(t)
  {
    if !EndsInSpace(t) {
      InkReading(t);
    } else {
      var front, st, y := ColouredEnd(r);
      var j := |RowText(front)|;
      if OneColouredSpot(t, j, st) {
        forall s | Reads(s, t)
          ensures s == OneTag(RowText(front), st, y)
        {
          ColouredReading(t, RowText(front), st, y, s);
        }
      } else {
        OtherReading(t, j, st);
        NoneColoured(t, j, st);
      }
    }
  }

  lemma NoneColoured(t: string, j: nat, st: Style)
    requires SpotAt(t, j, st) && st.bg.Some? && !OneColouredSpot(t, j, st)
    ensures forall i: nat, s :: !OneColouredSpot(t, i, s)
  {
  }
}
