/** Bottom-anchored alignment of two captured frames, and the content signature of an expanded
    block (scripts/compact_parity.py). */
module FrameAlign {
  import opened Text
  import opened Suffix
  import StyledSegment

  function Rows(frame: string): (rows: seq<string>)
    ensures |rows| >= 1
  {
    Split(frame, '\n')
  }

  /** How many top rows the alignment drops from a longer frame. */
  function Dropped(longer: seq<string>, shorter: seq<string>): (d: nat)
    requires |shorter| <= |longer|
    ensures d == 0 || d == |longer| - |shorter|
  {
    var delta := |longer| - |shorter|;
    if Longest(longer, shorter) < delta then 0 else delta
  }

  function Aligned(left: string, right: string): (string, string) {
    var l, r := Rows(left), Rows(right);
    if |l| == |r| then (left, right)
    else if |l| > |r| then
      if Dropped(l, r) == 0 then (left, right) else (Join(l[Dropped(l, r)..], '\n'), right)
    else
      if Dropped(r, l) == 0 then (left, right) else (left, Join(r[Dropped(r, l)..], '\n'))
  }

  method AlignFrameTops(left: string, right: string) returns (l: string, r: string)
    ensures (l, r) == Aligned(left, right)
  {
    var leftRows, rightRows := Split(left, '\n'), Split(right, '\n');
    var n, m := |leftRows|, |rightRows|;
    if n == m {
      return left, right;
    }
    var longer, shorter := leftRows, rightRows;
    if n <= m {
      longer, shorter := rightRows, leftRows;
    }
    var delta := |longer| - |shorter|;
    var suffix := CountUp(longer, shorter);
    if suffix < delta {
      return left, right;
    }
    if n > m {
      return Join(leftRows[delta..], '\n'), right;
    }
    return left, Join(rightRows[delta..], '\n');
  }

  lemma JoinInjective(a: seq<string>, b: seq<string>)
    requires |a| >= 1 && |b| >= 1
    requires forall r | r in a :: '\n' !in r
    requires forall r | r in b :: '\n' !in r
    ensures Join(a, '\n') == Join(b, '\n') <==> a == b
  {
    SplitOfJoin(a, '\n');
    SplitOfJoin(b, '\n');
  }

  lemma FramesByRows(f: string, g: string)
    ensures f == g <==> Rows(f) == Rows(g)
  {
    JoinOfSplit(f, '\n');
    JoinOfSplit(g, '\n');
  }

  /** Is `shorter` the bottom of `longer`, the missing rows no more than those shown? */
  predicate Anchored(longer: seq<string>, shorter: seq<string>) {
    && |shorter| < |longer|
    && longer[|longer| - |shorter|..] == shorter
    && |longer| - |shorter| <= |shorter|
  }

  lemma AlignedRowsEqual(longer: seq<string>, shorter: seq<string>)
    requires |shorter| < |longer|
    ensures Dropped(longer, shorter) > 0 && longer[Dropped(longer, shorter)..] == shorter
            <==> Anchored(longer, shorter)
  {
    AgreeUpTo(longer, shorter, |shorter|);
    assert shorter[|shorter| - |shorter|..] == shorter;
  }

  lemma DroppedFrame(frame: string, d: nat, other: string)
    requires d < |Rows(frame)|
    ensures Join(Rows(frame)[d..], '\n') == other <==> Rows(frame)[d..] == Rows(other)
  {
    assert forall r | r in Rows(frame)[d..] :: r in Rows(frame);
    JoinInjective(Rows(frame)[d..], Rows(other));
    JoinOfSplit(other, '\n');
  }

  /** Exactly which frames the alignment makes equal: equal frames, and frames of which one is
      the bottom of the other with at most as many rows missing as are shown. */
  lemma AlignedEqualIff(left: string, right: string)
    ensures Aligned(left, right).0 == Aligned(left, right).1
            <==> left == right || Anchored(Rows(left), Rows(right)) || Anchored(Rows(right), Rows(left))
  {
    var l, r := Rows(left), Rows(right);
    FramesByRows(left, right);
    if |l| > |r| {
      AlignedRowsEqual(l, r);
      DroppedFrame(left, Dropped(l, r), right);
    } else if |l| < |r| {
      AlignedRowsEqual(r, l);
      DroppedFrame(right, Dropped(r, l), left);
    }
  }

  lemma BottomRows(frame: string, d: nat)
    requires d < |Rows(frame)|
    ensures Rows(Join(Rows(frame)[d..], '\n')) == Rows(frame)[d..]
  {
    assert forall x | x in Rows(frame)[d..] :: x in Rows(frame);
    SplitOfJoin(Rows(frame)[d..], '\n');
  }

  /** Whatever is dropped comes off the top of the longer frame, and is the length difference. */
  lemma OnlyTheLeakIsDropped(left: string, right: string)
    ensures var (a, b) := Aligned(left, right);
            var l, r := Rows(left), Rows(right);
            && (a == left || (|l| > |r| && b == right && Rows(a) == l[|l| - |r|..]))
            && (b == right || (|r| > |l| && a == left && Rows(b) == r[|r| - |l|..]))
  {
    var l, r := Rows(left), Rows(right);
    if |l| > |r| {
      BottomRows(left, |l| - |r|);
    } else if |l| < |r| {
      BottomRows(right, |r| - |l|);
    }
  }

  // ----- content signatures

  /** `re.sub(r"\s+", " ", s)`: every run of white space becomes one space. `gap` says that the
      character before was white space. */
  function Squeeze(s: string, space: char -> bool, gap: bool): string {
    if s == [] then []
    else if space(s[0]) then
      if gap then Squeeze(s[1..], space, true) else [' '] + Squeeze(s[1..], space, true)
    else [s[0]] + Squeeze(s[1..], space, false)
  }

  function Signature(block: string, space: char -> bool): string {
    StripRight(StripLeft(Squeeze(block, space, false), space), space)
  }

  /** The words of `s`; `word` is the part of one already read. */
  function Words(s: string, space: char -> bool, word: string): seq<string> {
    if s == [] then (if word == [] then [] else [word])
    else if space(s[0]) then
      if word == [] then Words(s[1..], space, []) else [word] + Words(s[1..], space, [])
    else Words(s[1..], space, word + [s[0]])
  }

  predicate Solid(s: string, space: char -> bool) { forall k | 0 <= k < |s| :: !space(s[k]) }

  predicate AllSolid(words: seq<string>, space: char -> bool) {
    forall k | 0 <= k < |words| :: words[k] != [] && Solid(words[k], space)
  }

  lemma {:induction false} WordsAreSolid(s: string, space: char -> bool, word: string)
    requires Solid(word, space)
    ensures AllSolid(Words(s, space, word), space)
  {
    if s != [] {
      WordsAreSolid(s[1..], space, if space(s[0]) then [] else word + [s[0]]);
    }
  }

  /** Stripping the right end does not reach past a solid character. */
  lemma {:induction false} StripRightCat(a: string, b: string, space: char -> bool)
    requires b != [] && !space(b[0])
    ensures StripRight(a + b, space) == a + StripRight(b, space)
  {
    var front, c := b[..|b| - 1], b[|b| - 1];
    assert b == front + [c];
    CatAssociates(a, front, [c]);
    if space(c) {
      StripRightCat(a, front, space);
    }
  }

  lemma {:induction false} AfterWord(s: string, space: char -> bool, word: string)
    requires space(' ') && word != [] && Solid(word, space)
    ensures StripRight(word + Squeeze(s, space, false), space) == Join(Words(s, space, word), ' ')
    decreases |s|
  {
    if s == [] {
      CatEmpty(word);
    } else if space(s[0]) {
      AfterGap(s[1..], space, word);
    } else {
      AfterWord(s[1..], space, word + [s[0]]);
      CatAssociates(word, [s[0]], Squeeze(s[1..], space, false));
    }
  }

  lemma {:induction false} AfterGap(s: string, space: char -> bool, word: string)
    requires space(' ') && word != [] && Solid(word, space)
    ensures StripRight(word + ([' '] + Squeeze(s, space, true)), space)
            == Join([word] + Words(s, space, []), ' ')
    decreases |s|
  {
    if s == [] {
      assert [' '] + Squeeze(s, space, true) == [' '];
      CatEmpty([word]);
    } else if space(s[0]) {
      AfterGap(s[1..], space, word);
    } else {
      var rest := [s[0]] + Squeeze(s[1..], space, false);
      AfterWord(s[1..], space, [s[0]]);
      CatAssociates(word, [' '], rest);
      StripRightCat(word + [' '], rest, space);
      WordsNotEmpty(s[1..], space, [s[0]]);
      CatAssociates(word, [' '], Join(Words(s, space, []), ' '));
      assert [] + [s[0]] == [s[0]];
    }
  }

  lemma {:induction false} WordsNotEmpty(s: string, space: char -> bool, word: string)
    requires word != []
    ensures Words(s, space, word) != []
  {
    if s != [] && !space(s[0]) {
      WordsNotEmpty(s[1..], space, word + [s[0]]);
    }
  }

  lemma {:induction false} LeadingGap(s: string, space: char -> bool, gap: bool)
    requires space(' ')
    ensures StripRight(StripLeft(Squeeze(s, space, gap), space), space) == Join(Words(s, space, []), ' ')
    decreases |s|
  {
    if s != [] {
      if space(s[0]) {
        LeadingGap(s[1..], space, true);
        assert ([' '] + Squeeze(s[1..], space, true))[1..] == Squeeze(s[1..], space, true);
      } else {
        AfterWord(s[1..], space, [s[0]]);
        assert [] + [s[0]] == [s[0]];
      }
    }
  }

  /** The signature is the words of the block, one space between. */
  lemma SignatureIsWords(block: string, space: char -> bool)
    requires space(' ')
    ensures Signature(block, space) == Join(Words(block, space, []), ' ')
  {
    LeadingGap(block, space, false);
  }

  lemma JoinedWordsInjective(a: seq<string>, b: seq<string>, space: char -> bool)
    requires space(' ') && AllSolid(a, space) && AllSolid(b, space)
    ensures Join(a, ' ') == Join(b, ' ') <==> a == b
  {
    if Join(a, ' ') == Join(b, ' ') {
      if a != [] && b != [] {
        assert forall r | r in a :: ' ' !in r;
        assert forall r | r in b :: ' ' !in r;
        SplitOfJoin(a, ' ');
        SplitOfJoin(b, ' ');
      }
    }
  }

  /** Two blocks have the same signature exactly when they have the same words in order,
      however each of them is wrapped and indented. */
  lemma SameSignatureIff(f: string, g: string, space: char -> bool)
    requires space(' ')
    ensures Signature(f, space) == Signature(g, space) <==> Words(f, space, []) == Words(g, space, [])
  {
    SignatureIsWords(f, space);
    SignatureIsWords(g, space);
    WordsAreSolid(f, space, []);
    WordsAreSolid(g, space, []);
    JoinedWordsInjective(Words(f, space, []), Words(g, space, []), space);
  }

  // ----- the block of a frame

  const HEADER: string := "Context compacted"
  const GUTTER: string := ['\U{2570}', '\U{2500}']

  predicate Contains(row: string, part: string) { StyledSegment.Find(row, part).Some? }

  /** `s.replace(GUTTER, " ")` */
  function Ungutter(s: string): string {
    if |s| < 2 then s
    else if s[..2] == GUTTER then [' '] + Ungutter(s[2..])
    else [s[0]] + Ungutter(s[1..])
  }

  /** The first row that carries the header, or the number of rows. */
  function HeaderRow(rows: seq<string>): (k: nat)
    ensures k <= |rows|
    ensures k < |rows| ==> Contains(rows[k], HEADER)
    ensures forall j | 0 <= j < k :: !Contains(rows[j], HEADER)
  {
    if rows == [] || Contains(rows[0], HEADER) then 0 else 1 + HeaderRow(rows[1..])
  }

  function Block(frame: string): Option<string> {
    var rows := Rows(StyledSegment.Strip(frame));
    var start := HeaderRow(rows);
    if start == |rows| then None else Some(Ungutter(Join(rows[start..], '\n')))
  }

  function ExpandedBlockSignature(frame: string, space: char -> bool): Option<string> {
    var block := Block(frame);
    if block.None? then None else Some(Signature(block.value, space))
  }

  /** Which frames the signature compare passes: neither has the header row, or both have and
      their blocks read as the same words. */
  lemma SignaturesEqualIff(f: string, g: string, space: char -> bool)
    requires space(' ')
    ensures ExpandedBlockSignature(f, space) == ExpandedBlockSignature(g, space)
            <==> || (Block(f).None? && Block(g).None?)
                 || (Block(f).Some? && Block(g).Some?
                     && Words(Block(f).value, space, []) == Words(Block(g).value, space, []))
  {
    if Block(f).Some? && Block(g).Some? {
      SameSignatureIff(Block(f).value, Block(g).value, space);
    }
  }

  // ----- the block, row by row

  predicate Carries(row: string, part: string) { exists i | 0 <= i <= |row| :: OccursAt(row, part, i) }

  lemma ContainsIff(row: string, part: string)
    ensures Contains(row, part) <==> Carries(row, part)
  {
    StyledSegment.FindsFirst(row, part, 0);
    if Carries(row, part) {
      var i :| 0 <= i <= |row| && OccursAt(row, part, i);
    }
  }

  /** Row k is the first with the heading. */
  predicate HeadingAt(rows: seq<string>, k: nat) {
    && k < |rows| && Carries(rows[k], "Context compacted")
    && forall j | 0 <= j < k :: !Carries(rows[j], "Context compacted")
  }

  lemma HeaderRowIs(rows: seq<string>)
    ensures HeaderRow(rows) < |rows| ==> HeadingAt(rows, HeaderRow(rows))
    ensures HeaderRow(rows) == |rows| ==> forall j | 0 <= j < |rows| :: !Carries(rows[j], "Context compacted")
  {
    forall j | 0 <= j < |rows|
      ensures Contains(rows[j], HEADER) <==> Carries(rows[j], "Context compacted")
    {
      ContainsIff(rows[j], HEADER);
    }
  }

  /** The block of a frame: what it shows from the first row with the heading on, the gutter
      marks blanked; there is none exactly when no row has the heading. */
  lemma BlockExactly(frame: string)
    ensures var rows := Rows(StyledSegment.Strip(frame));
            && (Block(frame).None? <==> forall j | 0 <= j < |rows| :: !Carries(rows[j], "Context compacted"))
            && forall k: nat | HeadingAt(rows, k) :: Block(frame) == Some(Ungutter(Join(rows[k..], '\n')))
  {
    var rows := Rows(StyledSegment.Strip(frame));
    HeaderRowIs(rows);
  }

  /** The two characters of the gutter become one space, wherever they stand. */
  lemma {:induction false} GutterGoes(a: string, b: string)
    ensures Ungutter(a + (['\U{2570}', '\U{2500}'] + b)) == Ungutter(a) + ([' '] + Ungutter(b))
    decreases |a|
  {
    var tail := ['\U{2570}', '\U{2500}'] + b;
    var s := a + tail;
    if a == [] {
      assert s == tail && tail[..2] == GUTTER && tail[2..] == b;
    } else if |a| >= 2 && a[..2] == GUTTER {
      GutterGoes(a[2..], b);
      DropCat(a, tail, 2);
      assert s[..2] == a[..2];
      CatAssociates([' '], Ungutter(a[2..]), [' '] + Ungutter(b));
    } else {
      GutterGoes(a[1..], b);
      DropCat(a, tail, 1);
      NoGutterHere(a, tail);
      CatAssociates([a[0]], Ungutter(a[1..]), [' '] + Ungutter(b));
      assert |a| == 1 ==> a == [a[0]] && a[1..] == [];
    }
  }

  lemma NoGutterHere(a: string, tail: string)
    requires a != [] && (|a| < 2 || a[..2] != GUTTER) && tail != [] && tail[0] == '\U{2570}'
    ensures (a + tail)[..2] != GUTTER
  {
    var s := a + tail;
    if |a| == 1 {
      assert s[..2][1] == tail[0];
    } else {
      assert s[..2] == a[..2];
    }
  }

  /** Text without the gutter stays. */
  lemma {:induction false} NoGutterStays(s: string)
    requires forall k | 0 <= k < |s| - 1 :: s[k] != '\U{2570}' || s[k + 1] != '\U{2500}'
    ensures Ungutter(s) == s
  {
    if |s| >= 2 {
      assert s[..2][0] == s[0] && s[..2][1] == s[1];
      var rest := s[1..];
      assert forall k | 0 <= k < |rest| :: rest[k] == s[k + 1];
      NoGutterStays(rest);
      assert s == [s[0]] + s[1..];
    }
  }
}
