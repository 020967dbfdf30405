/** The styled-substring slicer of scripts/queue_parity.py and its agreement with `strip_ansi`. */
module StyledSegment {
  import opened Text

  predicate AnsiParam(c: char) { IsDigit(c) || c == ';' }

  /** Length of ESC [ [0-9;]* [A-Za-z] at the head of `s`, or 0. */
  function AnsiLength(s: string): (n: nat)
    ensures n == 0 || (3 <= n <= |s| && s[0] == ESC)
  {
    if |s| >= 2 && s[0] == ESC && s[1] == '[' then
      var n := RunLength(s[2..], AnsiParam);
      if n + 2 < |s| && Letter(s[n + 2]) then n + 3 else 0
    else 0
  }

  // ----- a line as whole sequences and single characters

  datatype Part = Sequence(bytes: string) | Chr(c: char)

  function HeadSize(s: string): (n: nat)
    requires s != []
    ensures 1 <= n <= |s|
  {
    if AnsiLength(s) > 0 then AnsiLength(s) else 1
  }

  function HeadPart(s: string): Part
    requires s != []
  {
    if AnsiLength(s) > 0 then Sequence(s[..AnsiLength(s)]) else Chr(s[0])
  }

  function Parts(s: string): seq<Part>
    decreases |s|
  {
    if s == [] then [] else [HeadPart(s)] + Parts(s[HeadSize(s)..])
  }

  function Written(part: Part): string {
    match part
    case Sequence(bytes) => bytes
    case Chr(c) => [c]
  }

  function WrittenAll(parts: seq<Part>): string {
    if parts == [] then [] else Written(parts[0]) + WrittenAll(parts[1..])
  }

  /** `strip_ansi`: whole sequences go; an ESC that starts none of them stays. */
  function Plain(parts: seq<Part>): (plain: string)
    ensures |plain| <= |parts|
  {
    if parts == [] then []
    else if parts[0].Sequence? then Plain(parts[1..])
    else [parts[0].c] + Plain(parts[1..])
  }

  function Strip(s: string): string { Plain(Parts(s)) }

  // ----- find

  /** Python's `plain.find(text)`, from position `from` on. */
  function FindFrom(plain: string, text: string, from: nat): (k: Option<nat>)
    ensures k.Some? ==> from <= k.value && OccursAt(plain, text, k.value)
    decreases |plain| - from
  {
    if from > |plain| then None
    else if OccursAt(plain, text, from) then Some(from)
    else FindFrom(plain, text, from + 1)
  }

  function Find(plain: string, text: string): Option<nat> { FindFrom(plain, text, 0) }

  /** It is the first occurrence, if there is one. */
  lemma {:induction false} FindsFirst(plain: string, text: string, from: nat)
    ensures var k := FindFrom(plain, text, from);
            forall j: nat | from <= j && (k.None? || j < k.value) :: !OccursAt(plain, text, j)
    decreases |plain| - from
  {
    if from <= |plain| && !OccursAt(plain, text, from) {
      FindsFirst(plain, text, from + 1);
    }
  }

  // ----- the loop

  /** What the loop collects from `parts` when it has counted `plainPos` characters. No escape
      counts, matched or not. */
  function Collect(parts: seq<Part>, plainPos: nat, start: nat, end: nat): string {
    if parts == [] then []
    else
      (if start <= plainPos < end then Written(parts[0]) else [])
      + Collect(parts[1..], if Counts(parts[0]) then plainPos + 1 else plainPos, start, end)
  }

  predicate Counts(part: Part) { part.Chr? && part.c != ESC }

  function Collected(line: string, start: nat, end: nat): string { Collect(Parts(line), 0, start, end) }

  function Segment(line: string, text: string): Option<string> {
    var found := Find(Strip(line), text);
    if found.None? then None else Some(Collected(line, found.value, found.value + |text|))
  }

  lemma PartsUnfold(s: string)
    requires s != []
    ensures Parts(s) != [] && Parts(s)[0] == HeadPart(s) && Parts(s)[1..] == Parts(s[HeadSize(s)..])
    ensures Written(HeadPart(s)) == s[..HeadSize(s)]
  {
  }

  lemma CollectStep(rest: string, p: nat, start: nat, end: nat)
    requires rest != []
    ensures Collect(Parts(rest), p, start, end)
            == (if start <= p < end then rest[..HeadSize(rest)] else [])
               + Collect(Parts(rest[HeadSize(rest)..]), if rest[0] != ESC then p + 1 else p, start, end)
    ensures rest[0] != ESC ==> HeadSize(rest) == 1
  {
    PartsUnfold(rest);
  }

  method CollectLoop(line: string, start: nat, end: nat) returns (out: string)
    ensures out == Collect(Parts(line), 0, start, end)
  {
    var plainPos := 0;
    out := "";
    var rest := line;  // the line from the loop index on
    while rest != []
      invariant out + Collect(Parts(rest), plainPos, start, end) == Collect(Parts(line), 0, start, end)
      decreases |rest|
    {
      CollectStep(rest, plainPos, start, end);
      if rest[0] == ESC {
        var n := if AnsiLength(rest) > 0 then AnsiLength(rest) else 1;
        out := CollectOne(out, rest[..n], plainPos, start, end, Collect(Parts(rest[n..]), plainPos, start, end));
        rest := rest[n..];
        continue;
      }
      out := CollectOne(out, rest[..1], plainPos, start, end, Collect(Parts(rest[1..]), plainPos + 1, start, end));
      plainPos := plainPos + 1;
      rest := rest[1..];
    }
  }

  method CollectOne(out: string, piece: string, plainPos: nat, start: nat, end: nat, ghost tail: string)
    returns (out': string)
    ensures out' == out + (if start <= plainPos < end then piece else [])
    ensures out' + tail == out + ((if start <= plainPos < end then piece else []) + tail)
  {
    out' := out;
    if start <= plainPos < end {
      out' := out + piece;
    }
  }

  method StyledSegment(line: string, text: string) returns (segment: Option<string>)
    ensures segment == Segment(line, text)
  {
    var plain := Strip(line);
    var found := Find(plain, text);
    if found.None? {
      return None;
    }
    var out := CollectLoop(line, found.value, found.value + |text|);
    segment := Some(out);
  }

  // ----- the result is a slice

  /** The part index just behind the k-th character the loop counts, or the end. */
  function Behind(parts: seq<Part>, k: nat): (i: nat)
    ensures i <= |parts|
  {
    if k == 0 || parts == [] then 0
    else 1 + Behind(parts[1..], if Counts(parts[0]) then k - 1 else k)
  }

  lemma {:induction false} CollectAhead(parts: seq<Part>, p: nat, start: nat, end: nat)
    requires end <= p
    ensures Collect(parts, p, start, end) == []
  {
    if parts != [] {
      CollectAhead(parts[1..], if Counts(parts[0]) then p + 1 else p, start, end);
    }
  }

  lemma TakeCons(parts: seq<Part>, n: nat)
    requires 0 < n <= |parts|
    ensures parts[..n][0] == parts[0] && parts[..n][1..] == parts[1..][..n - 1]
  {
  }

  lemma {:induction false} CollectInside(parts: seq<Part>, p: nat, start: nat, end: nat)
    requires start <= p <= end
    ensures Collect(parts, p, start, end) == WrittenAll(parts[..Behind(parts, end - p)])
  {
    if p == end {
      CollectAhead(parts, p, start, end);
    } else if parts != [] {
      CollectInside(parts[1..], if Counts(parts[0]) then p + 1 else p, start, end);
      TakeCons(parts, Behind(parts, end - p));
    }
  }

  /** The parts behind the k-th counted character. */
  function Past(parts: seq<Part>, k: nat): seq<Part> {
    if k == 0 || parts == [] then parts else Past(parts[1..], if Counts(parts[0]) then k - 1 else k)
  }

  lemma {:induction false} PastIsDrop(parts: seq<Part>, k: nat)
    ensures Past(parts, k) == parts[Behind(parts, k)..]
  {
    if k > 0 && parts != [] {
      var k' := if Counts(parts[0]) then k - 1 else k;
      PastIsDrop(parts[1..], k');
      DropDrop(parts, 1, Behind(parts[1..], k'));
    } else {
      assert parts[0..] == parts;
    }
  }

  /** Up to the start-th counted character nothing is collected. */
  lemma {:induction false} CollectSkips(parts: seq<Part>, p: nat, start: nat, end: nat)
    requires p <= start
    ensures Collect(parts, p, start, end) == Collect(Past(parts, start - p), start, start, end)
  {
    if p < start && parts != [] {
      CollectSkips(parts[1..], if Counts(parts[0]) then p + 1 else p, start, end);
    }
  }

  lemma {:induction false} BehindAdds(parts: seq<Part>, k: nat, more: nat)
    ensures Behind(parts, k + more) == Behind(parts, k) + Behind(Past(parts, k), more)
  {
    if k > 0 && parts != [] {
      BehindAdds(parts[1..], if Counts(parts[0]) then k - 1 else k, more);
    }
  }

  /** The loop collects the parts from behind the start-th to behind the end-th counted character. */
  lemma CollectPast(parts: seq<Part>, rest: seq<Part>, start: nat, end: nat)
    requires start <= end && rest == Past(parts, start)
    ensures Collect(parts, 0, start, end) == WrittenAll(rest[..Behind(rest, end - start)])
  {
    CollectSkips(parts, 0, start, end);
    CollectInside(rest, start, start, end);
  }

  lemma CollectIsSlice(parts: seq<Part>, start: nat, end: nat)
    requires start <= end
    ensures Behind(parts, start) <= Behind(parts, end)
    ensures Collect(parts, 0, start, end) == WrittenAll(parts[Behind(parts, start)..Behind(parts, end)])
  {
    var rest := Past(parts, start);
    CollectPast(parts, rest, start, end);
    BehindAdds(parts, start, end - start);
    PastIsDrop(parts, start);
    TakeOfRest(parts, rest, Behind(parts, start), Behind(rest, end - start), Behind(parts, end));
  }

  lemma TakeOfRest(parts: seq<Part>, rest: seq<Part>, i: nat, n: nat, j: nat)
    requires i <= |parts| && rest == parts[i..] && n <= |rest| && j == i + n
    ensures j <= |parts| && rest[..n] == parts[i..j]
  {
  }

  lemma {:induction false} WrittenCat(a: seq<Part>, b: seq<Part>)
    ensures WrittenAll(a + b) == WrittenAll(a) + WrittenAll(b)
  {
    if a == [] {
      assert a + b == b;
    } else {
      DropCat(a, b, 1);
      WrittenCat(a[1..], b);
    }
  }

  lemma {:induction false} WrittenIsLine(s: string)
    ensures WrittenAll(Parts(s)) == s
    decreases |s|
  {
    if s != [] {
      PartsUnfold(s);
      WrittenIsLine(s[HeadSize(s)..]);
    }
  }

  lemma WrittenThree(a: seq<Part>, b: seq<Part>, c: seq<Part>)
    ensures WrittenAll(a + (b + c)) == WrittenAll(a) + (WrittenAll(b) + WrittenAll(c))
  {
    WrittenCat(a, b + c);
    WrittenCat(b, c);
  }

  lemma InThree(parts: seq<Part>, i: nat, j: nat)
    requires i <= j <= |parts|
    ensures parts == parts[..i] + (parts[i..j] + parts[j..])
  {
  }

  /** A slice of the parts is written as a slice of the line. */
  lemma LineInThree(line: string, i: nat, j: nat)
    requires i <= j <= |Parts(line)|
    ensures var parts := Parts(line);
            line == WrittenAll(parts[..i]) + (WrittenAll(parts[i..j]) + WrittenAll(parts[j..]))
  {
    var parts := Parts(line);
    WrittenIsLine(line);
    InThree(parts, i, j);
    WrittenThree(parts[..i], parts[i..j], parts[j..]);
  }

  // ----- a slice of the parts is read back as those parts

  lemma HeadOfFront(a: string, b: string)
    requires a != [] && HeadSize(a + b) <= |a|
    ensures HeadSize(a) == HeadSize(a + b) && HeadPart(a) == HeadPart(a + b)
  {
    if |a| >= 2 && a[0] == ESC && a[1] == '[' {
      var n, t := RunLength((a + b)[2..], AnsiParam), a[2..];
      DropCat(a, b, 2);
      assert forall i | 0 <= i < |t| :: (t + b)[i] == t[i];
      RunLengthIs(t, AnsiParam, if n < |t| then n else |t|);
    }
  }

  /** Reading a string that begins with whole parts `front` of `front + back`. */
  lemma {:induction false} FrontReadsBack(front: seq<Part>, a: string, b: string)
    requires front <= Parts(a + b) && a == WrittenAll(front)
    ensures Parts(a) == front
    decreases |front|
  {
    if front != [] {
      var s := a + b;
      PartsUnfold(s);
      assert front[0] == HeadPart(s);
      var rest := WrittenAll(front[1..]);
      FrontStep(front, a, b, rest);
      assert front[1..] <= Parts(rest + b);
      FrontReadsBack(front[1..], rest, b);
      PartsUnfold(a);
      assert front == [front[0]] + front[1..];
    }
  }

  lemma FrontStep(front: seq<Part>, a: string, b: string, rest: string)
    requires front != [] && a == Written(front[0]) + rest && a + b != [] && front[0] == HeadPart(a + b)
    ensures a != [] && HeadPart(a) == HeadPart(a + b) && HeadSize(a) == HeadSize(a + b)
    ensures a[HeadSize(a)..] == rest && (a + b)[HeadSize(a)..] == rest + b
  {
    PartsUnfold(a + b);
    assert |Written(front[0])| == HeadSize(a + b);
    HeadOfFront(a, b);
    DropCat(a, b, HeadSize(a));
  }

  lemma {:induction false} BackReadsBack(s: string, k: nat)
    requires k <= |Parts(s)|
    ensures Parts(WrittenAll(Parts(s)[k..])) == Parts(s)[k..]
    decreases |s|
  {
    if k == 0 {
      WrittenIsLine(s);
      assert Parts(s)[0..] == Parts(s);
    } else {
      PartsUnfold(s);
      BackReadsBack(s[HeadSize(s)..], k - 1);
      DropDrop(Parts(s), 1, k - 1);
    }
  }

  lemma SliceReadsBack(s: string, i: nat, j: nat)
    requires i <= j <= |Parts(s)|
    ensures Parts(WrittenAll(Parts(s)[i..j])) == Parts(s)[i..j]
  {
    var parts := Parts(s);
    var shown, behind := parts[i..j], parts[j..];
    assert parts[i..] == shown + behind;
    BackReadsBack(s, i);
    WrittenCat(shown, behind);
    FrontReadsBack(shown, WrittenAll(shown), WrittenAll(behind));
  }

  // ----- where the visible characters really are

  /** The part index just behind the k-th character of the stripped text. */
  function Cut(parts: seq<Part>, k: nat): (i: nat)
    requires k <= |Plain(parts)|
    ensures i <= |parts|
  {
    if k == 0 then 0
    else 1 + Cut(parts[1..], if parts[0].Sequence? then k else k - 1)
  }

  /** A cut sits right behind its character, so escapes that follow it stay outside. */
  lemma {:induction false} CutBehindCharacter(parts: seq<Part>, k: nat)
    requires 0 < k <= |Plain(parts)|
    ensures Cut(parts, k) > 0 && parts[Cut(parts, k) - 1] == Chr(Plain(parts)[k - 1])
  {
    if parts[0].Sequence? {
      CutBehindCharacter(parts[1..], k);
    } else if k > 1 {
      CutBehindCharacter(parts[1..], k - 1);
    }
  }

  /** The parts behind the k-th stripped character. */
  function PastCut(parts: seq<Part>, k: nat): seq<Part>
    requires k <= |Plain(parts)|
  {
    if k == 0 then parts else PastCut(parts[1..], if parts[0].Sequence? then k else k - 1)
  }

  lemma {:induction false} PastCutIsDrop(parts: seq<Part>, k: nat)
    requires k <= |Plain(parts)|
    ensures PastCut(parts, k) == parts[Cut(parts, k)..]
  {
    if k > 0 {
      var k' := if parts[0].Sequence? then k else k - 1;
      PastCutIsDrop(parts[1..], k');
      DropDrop(parts, 1, Cut(parts[1..], k'));
    } else {
      assert parts[0..] == parts;
    }
  }

  lemma {:induction false} PlainPastCut(parts: seq<Part>, a: nat, b: nat)
    requires a <= b <= |Plain(parts)|
    ensures Plain(PastCut(parts, a)) == Plain(parts)[a..]
    ensures Cut(parts, b) == Cut(parts, a) + Cut(PastCut(parts, a), b - a)
  {
    if a > 0 {
      var d := if parts[0].Sequence? then 0 else 1;
      PlainPastCut(parts[1..], a - d, b - d);
      assert Plain(parts)[a..] == Plain(parts[1..])[a - d..];
    }
  }

  lemma {:induction false} PlainToCut(parts: seq<Part>, k: nat)
    requires k <= |Plain(parts)|
    ensures Plain(parts[..Cut(parts, k)]) == Plain(parts)[..k]
  {
    if k > 0 {
      var d := if parts[0].Sequence? then 0 else 1;
      PlainToCut(parts[1..], k - d);
      TakeCons(parts, Cut(parts, k));
      assert d == 1 ==> Plain(parts)[..k] == [parts[0].c] + Plain(parts[1..])[..k - 1];
    }
  }

  /** The parts between two cuts show the stripped text between them. */
  lemma PlainOfSlice(parts: seq<Part>, a: nat, b: nat)
    requires a <= b <= |Plain(parts)|
    ensures Cut(parts, a) <= Cut(parts, b)
    ensures Plain(parts[Cut(parts, a)..Cut(parts, b)]) == Plain(parts)[a..b]
  {
    var rest := PastCut(parts, a);
    PlainPastCut(parts, a, b);
    PlainToCut(rest, b - a);
    PastCutIsDrop(parts, a);
    TakeOfRest(parts, rest, Cut(parts, a), Cut(rest, b - a), Cut(parts, b));
  }

  // ----- when the loop counts what strip_ansi keeps

  lemma {:induction false} BehindIsCut(parts: seq<Part>, k: nat)
    requires k <= |Plain(parts)| && NoEsc(Plain(parts)[..k])
    ensures Behind(parts, k) == Cut(parts, k)
  {
    if k > 0 {
      if parts[0].Sequence? {
        BehindIsCut(parts[1..], k);
      } else {
        assert Plain(parts)[..k] == [parts[0].c] + Plain(parts[1..])[..k - 1];
        NoEscCons(parts[0].c, Plain(parts[1..])[..k - 1]);
        BehindIsCut(parts[1..], k - 1);
      }
    }
  }

  lemma NoEscCons(c: char, s: string)
    ensures NoEsc([c] + s) <==> c != ESC && NoEsc(s)
  {
    var all := [c] + s;
    assert all[0] == c;
    assert forall k | 0 <= k < |s| :: all[k + 1] == s[k];
    assert forall k | 1 <= k < |all| :: all[k] == s[k - 1];
  }

  lemma NoEscCat(a: string, b: string)
    ensures NoEsc(a + b) <==> NoEsc(a) && NoEsc(b)
  {
    assert forall k | 0 <= k < |a| :: (a + b)[k] == a[k];
    assert forall k | 0 <= k < |b| :: (a + b)[|a| + k] == b[k];
  }

  function Stray(plain: string): (n: nat)
    ensures n <= |plain|
  {
    if plain == [] then 0 else (if plain[0] == ESC then 1 else 0) + Stray(plain[1..])
  }

  lemma {:induction false} NoneStray(plain: string)
    ensures Stray(plain) == 0 <==> NoEsc(plain)
  {
    if plain != [] {
      NoneStray(plain[1..]);
      NoEscCons(plain[0], plain[1..]);
      assert plain == [plain[0]] + plain[1..];
    }
  }

  /** Counting more characters than the first k stripped ones hold lands behind them, if
      anything is there. */
  lemma {:induction false} BehindPasses(parts: seq<Part>, k: nat, j: nat)
    requires k <= |Plain(parts)| && j + Stray(Plain(parts)[..k]) > k
    ensures Behind(parts, j) >= Cut(parts, k)
    ensures Cut(parts, k) < |parts| ==> Behind(parts, j) > Cut(parts, k)
  {
    if k > 0 {
      if parts[0].Sequence? {
        BehindPasses(parts[1..], k, j);
      } else {
        assert Plain(parts)[..k] == [parts[0].c] + Plain(parts[1..])[..k - 1];
        assert Plain(parts)[..k][1..] == Plain(parts[1..])[..k - 1];
        BehindPasses(parts[1..], k - 1, if Counts(parts[0]) then j - 1 else j);
      }
    }
  }

  /** The two ways of counting agree on k characters exactly when these hold no ESC, or when
      nothing follows them. */
  lemma BehindIsCutIff(parts: seq<Part>, k: nat)
    requires k <= |Plain(parts)|
    ensures Behind(parts, k) == Cut(parts, k) <==> NoEsc(Plain(parts)[..k]) || Cut(parts, k) == |parts|
  {
    NoneStray(Plain(parts)[..k]);
    if NoEsc(Plain(parts)[..k]) {
      BehindIsCut(parts, k);
    } else {
      BehindPasses(parts, k, k);
    }
  }

  lemma SomethingFollows(parts: seq<Part>, k: nat)
    requires k < |Plain(parts)|
    ensures Cut(parts, k) < |parts|
  {
    PlainToCut(parts, k);
    assert parts[..|parts|] == parts;
  }

  /** What the loop's counting asks for: no unmatched ESC before the occurrence, and none in
      the text unless nothing at all follows it. */
  predicate Countable(parts: seq<Part>, text: string, start: nat)
    requires OccursAt(Plain(parts), text, start)
  {
    && NoEsc(Plain(parts)[..start])
    && (NoEsc(text) || Cut(parts, start + |text|) == |parts|)
  }

  lemma CountableIff(parts: seq<Part>, text: string, start: nat)
    requires OccursAt(Plain(parts), text, start) && (text == [] ==> start == 0)
    ensures Behind(parts, start) == Cut(parts, start) && Behind(parts, start + |text|) == Cut(parts, start + |text|)
            <==> Countable(parts, text, start)
  {
    var end := start + |text|;
    var plain := Plain(parts);
    BehindIsCutIff(parts, start);
    BehindIsCutIff(parts, end);
    assert plain[..end] == plain[..start] + text;
    NoEscCat(plain[..start], text);
    if text != [] {
      SomethingFollows(parts, start);
    }
  }

  lemma CollectedIsSlice(line: string, start: nat, end: nat, i: nat, j: nat)
    requires start <= end && i == Behind(Parts(line), start) && j == Behind(Parts(line), end)
    ensures i <= j <= |Parts(line)| && Collected(line, start, end) == WrittenAll(Parts(line)[i..j])
  {
    CollectIsSlice(Parts(line), start, end);
  }

  lemma SegmentIs(line: string, text: string, start: nat, collected: string)
    requires Find(Strip(line), text) == Some(start) && Collected(line, start, start + |text|) == collected
    ensures Segment(line, text) == Some(collected)
  {
  }

  /** The segment is always one slice of the line's parts, and so of the line. */
  lemma SegmentIsSlice(line: string, text: string, start: nat, i: nat, j: nat)
    requires Find(Strip(line), text) == Some(start)
    requires i == Behind(Parts(line), start) && j == Behind(Parts(line), start + |text|)
    ensures i <= j <= |Parts(line)| && Segment(line, text) == Some(WrittenAll(Parts(line)[i..j]))
  {
    CollectedIsSlice(line, start, start + |text|, i, j);
    SegmentIs(line, text, start, WrittenAll(Parts(line)[i..j]));
  }

  /** The slicer, exactly: it hands out the slice that shows the occurrence `find` reported if
      and only if that occurrence is countable. */
  lemma SegmentIsExact(line: string, text: string, start: nat)
    requires Find(Strip(line), text) == Some(start)
    ensures Behind(Parts(line), start) == Cut(Parts(line), start)
            && Behind(Parts(line), start + |text|) == Cut(Parts(line), start + |text|)
            <==> Countable(Parts(line), text, start)
  {
    CountableIff(Parts(line), text, start);
  }

  lemma StripOfSlice(line: string, i: nat, j: nat)
    requires i <= j <= |Parts(line)|
    ensures Strip(WrittenAll(Parts(line)[i..j])) == Plain(Parts(line)[i..j])
  {
    SliceReadsBack(line, i, j);
  }

  lemma SliceShowsText(line: string, text: string, start: nat, i: nat, j: nat)
    requires OccursAt(Strip(line), text, start)
    requires i == Cut(Parts(line), start) && j == Cut(Parts(line), start + |text|)
    ensures i <= j && Strip(WrittenAll(Parts(line)[i..j])) == text
  {
    PlainOfSlice(Parts(line), start, start + |text|);
    StripOfSlice(line, i, j);
  }

  /** Between two cuts the slice ends in the text's last character, and begins right behind the
      character before it: leading escapes are in, trailing ones are out. */
  lemma SliceEnds(parts: seq<Part>, text: string, start: nat)
    requires text != [] && OccursAt(Plain(parts), text, start)
    ensures var i, j := Cut(parts, start), Cut(parts, start + |text|);
            && j > 0 && parts[j - 1] == Chr(text[|text| - 1])
            && (start > 0 ==> i > 0 && parts[i - 1] == Chr(Plain(parts)[start - 1]))
  {
    var end := start + |text|;
    CutBehindCharacter(parts, end);
    assert Plain(parts)[end - 1] == Plain(parts)[start..end][|text| - 1];
    if start > 0 {
      CutBehindCharacter(parts, start);
    }
  }

  /** In that case the segment shows exactly the text. */
  lemma SegmentShowsText(line: string, text: string, start: nat)
    requires Find(Strip(line), text) == Some(start) && Countable(Parts(line), text, start)
    ensures Segment(line, text).Some? && Strip(Segment(line, text).value) == text
  {
    var i, j := Behind(Parts(line), start), Behind(Parts(line), start + |text|);
    SegmentIsExact(line, text, start);
    SegmentIsSlice(line, text, start, i, j);
    SliceShowsText(line, text, start, i, j);
  }

  // ----- what the segment shows on any line

  /** The index just behind the k-th character of `plain` that is no ESC, or its length. */
  function At(plain: string, k: nat): (i: nat)
    ensures i <= |plain|
  {
    if k == 0 || plain == [] then 0 else 1 + At(plain[1..], if plain[0] != ESC then k - 1 else k)
  }

  lemma {:induction false} PlainToBehind(parts: seq<Part>, k: nat)
    ensures Plain(parts[..Behind(parts, k)]) == Plain(parts)[..At(Plain(parts), k)]
  {
    if k > 0 && parts != [] {
      var k' := if Counts(parts[0]) then k - 1 else k;
      PlainToBehind(parts[1..], k');
      TakeCons(parts, Behind(parts, k));
      if parts[0].Chr? {
        var c, rest := parts[0].c, Plain(parts[1..]);
        assert Plain(parts)[0] == c && Plain(parts)[1..] == rest;
        assert ([c] + rest)[..1 + At(rest, k')] == [c] + rest[..At(rest, k')];
      }
    } else if parts != [] {
      assert parts[..0] == [];
    }
  }

  lemma {:induction false} PlainCat(a: seq<Part>, b: seq<Part>)
    ensures Plain(a + b) == Plain(a) + Plain(b)
  {
    if a == [] {
      assert a + b == b;
    } else {
      DropCat(a, b, 1);
      PlainCat(a[1..], b);
    }
  }

  lemma PlainBetween(parts: seq<Part>, i: nat, j: nat, a: nat, b: nat)
    requires i <= j <= |parts| && a <= |Plain(parts)| && b <= |Plain(parts)|
    requires Plain(parts[..i]) == Plain(parts)[..a] && Plain(parts[..j]) == Plain(parts)[..b]
    ensures a <= b && Plain(parts[i..j]) == Plain(parts)[a..b]
  {
    assert parts[..j] == parts[..i] + parts[i..j];
    PlainCat(parts[..i], parts[i..j]);
    CutTail(Plain(parts), Plain(parts[i..j]), a, b);
  }

  lemma PlainBehind(parts: seq<Part>, start: nat, end: nat)
    requires start <= end
    ensures Behind(parts, start) <= Behind(parts, end)
    ensures At(Plain(parts), start) <= At(Plain(parts), end)
    ensures Plain(parts[Behind(parts, start)..Behind(parts, end)])
            == Plain(parts)[At(Plain(parts), start)..At(Plain(parts), end)]
  {
    var i, j := Behind(parts, start), Behind(parts, end);
    BehindAdds(parts, start, end - start);
    PlainToBehind(parts, start);
    PlainToBehind(parts, end);
    PlainBetween(parts, i, j, At(Plain(parts), start), At(Plain(parts), end));
  }

  lemma CutTail(whole: string, tail: string, i: nat, j: nat)
    requires i <= |whole| && j <= |whole| && whole[..j] == whole[..i] + tail
    ensures i <= j && tail == whole[i..j]
  {
    assert |whole[..j]| == i + |tail|;
    assert whole[..j][i..] == tail;
  }

  lemma BehindShows(line: string, start: nat, end: nat, i: nat, j: nat)
    requires start <= end && i == Behind(Parts(line), start) && j == Behind(Parts(line), end)
    ensures i <= j && At(Strip(line), start) <= At(Strip(line), end)
    ensures Strip(WrittenAll(Parts(line)[i..j])) == Strip(line)[At(Strip(line), start)..At(Strip(line), end)]
  {
    PlainBehind(Parts(line), start, end);
    StripOfSlice(line, i, j);
  }

  /** On every line, countable or not: stripping the segment gives the part of the stripped line
      between the non-ESC characters that the two positions count to. */
  lemma SegmentShows(line: string, text: string, start: nat)
    requires Find(Strip(line), text) == Some(start)
    ensures var plain, end := Strip(line), start + |text|;
            && Segment(line, text).Some?
            && At(plain, start) <= At(plain, end)
            && Strip(Segment(line, text).value) == plain[At(plain, start)..At(plain, end)]
  {
    var i, j := Behind(Parts(line), start), Behind(Parts(line), start + |text|);
    SegmentIsSlice(line, text, start, i, j);
    BehindShows(line, start, start + |text|, i, j);
  }

  lemma StrayParts()
    ensures Parts([ESC, 'a', 'b']) == [Chr(ESC), Chr('a'), Chr('b')]
    ensures Strip([ESC, 'a', 'b']) == [ESC, 'a', 'b']
  {
    var line := [ESC, 'a', 'b'];
    assert line[1..] == ['a', 'b'] && ['a', 'b'][1..] == ['b'] && ['b'][1..] == [];
    assert Parts(['b']) == [Chr('b')];
    assert Parts(['a', 'b']) == [Chr('a'), Chr('b')];
    var parts := [Chr(ESC), Chr('a'), Chr('b')];
    assert Parts(line) == parts;
    assert parts[1..] == [Chr('a'), Chr('b')] && parts[1..][1..] == [Chr('b')];
    assert Plain([Chr('b')]) == ['b'] && Plain([Chr('a'), Chr('b')]) == ['a', 'b'];
  }

  /** With an unmatched ESC before the text the segment can show something else:
      in `ESC a b` the text `a` is found at 1, but the loop hands out `b`. */
  lemma StrayEscapeFails()
    ensures Segment([ESC, 'a', 'b'], "a") == Some("b")
  {
    var line, parts := [ESC, 'a', 'b'], [Chr(ESC), Chr('a'), Chr('b')];
    StrayParts();
    assert !OccursAt(line, "a", 0);
    assert OccursAt(line, "a", 1);
    assert FindFrom(line, "a", 1) == Some(1) && FindFrom(line, "a", 0) == Some(1);
    assert parts[1..] == [Chr('a'), Chr('b')] && parts[1..][1..] == [Chr('b')];
    assert Collect([Chr('b')], 1, 1, 2) == "b";
    assert Collect([Chr('a'), Chr('b')], 0, 1, 2) == "b";
    assert Collect(parts, 0, 1, 2) == "b";
    SegmentIs(line, "a", 1, "b");
  }
}
