/** Reading the failed test names out of the test harness output (scripts/ci_test_shard.py). */
module FailedTests {
  import opened Text

  const HEADER: string := "failures:"
  const INDENT: string := "    "
  const DOTS: string := "..."

  function Strip(line: string, space: char -> bool): string { StripRight(StripLeft(line, space), space) }

  predicate IsHeader(line: string, space: char -> bool) { Strip(line, space) == HEADER }

  predicate IsBlank(line: string, space: char -> bool) { Strip(line, space) == "" }

  predicate IsName(line: string, space: char -> bool) {
    !IsBlank(line, space) && INDENT <= line && !(DOTS <= StripLeft(line, space))
  }

  /** The names so far, and whether the reader is inside a block. */
  datatype Reader = Reader(names: seq<string>, inBlock: bool)

  function ReadLine(line: string, r: Reader, space: char -> bool): Reader {
    if IsHeader(line, space) && !r.inBlock then r.(inBlock := true)
    else if !r.inBlock || IsBlank(line, space) then r
    else if IsName(line, space) then r.(names := r.names + [Strip(line, space)])
    else r.(inBlock := false)
  }

  function ReadAll(lines: seq<string>, r: Reader, space: char -> bool): Reader {
    if lines == [] then r else ReadAll(lines[1..], ReadLine(lines[0], r, space), space)
  }

  /** `list(dict.fromkeys(names))`: the first of each name, in order. */
  function Unique(names: seq<string>): seq<string> {
    if names == [] then []
    else
      var front, last := Unique(names[..|names| - 1]), names[|names| - 1];
      if last in front then front else front + [last]
  }

  method FailedTestNames(lines: seq<string>, space: char -> bool) returns (names: seq<string>)
    ensures names == Unique(ReadAll(lines, Reader([], false), space).names)
  {
    var found: seq<string>, inBlock := [], false;
    var todo := lines;
    while todo != []
      invariant ReadAll(todo, Reader(found, inBlock), space) == ReadAll(lines, Reader([], false), space)
      decreases |todo|
    {
      var line := todo[0];
      todo := todo[1..];
      if Strip(line, space) == HEADER && !inBlock {
        inBlock := true;
        continue;
      }
      if !inBlock {
        continue;
      }
      if Strip(line, space) == "" {
        continue;
      }
      if INDENT <= line && !(DOTS <= StripLeft(line, space)) {
        found := found + [Strip(line, space)];
      } else {
        inBlock := false;
      }
    }
    names := [];
    for k := 0 to |found|
      invariant names == Unique(found[..k])
    {
      assert found[..k + 1][..k] == found[..k];
      if found[k] !in names {
        names := names + [found[k]];
      }
    }
    assert found[..|found|] == found;
  }

  // ----- is the closing list found?

  lemma {:induction false} ReadCat(a: seq<string>, b: seq<string>, r: Reader, space: char -> bool)
    ensures ReadAll(a + b, r, space) == ReadAll(b, ReadAll(a, r, space), space)
    decreases |a|
  {
    if a == [] {
      assert a + b == b;
    } else {
      DropCat(a, b, 1);
      ReadCat(a[1..], b, ReadLine(a[0], r, space), space);
    }
  }

  /** The names a list of lines spells. */
  function Spelled(list: seq<string>, space: char -> bool): seq<string> {
    if list == [] then []
    else (if IsName(list[0], space) then [Strip(list[0], space)] else []) + Spelled(list[1..], space)
  }

  predicate NameList(list: seq<string>, space: char -> bool) {
    forall k | 0 <= k < |list| :: !IsHeader(list[k], space) && (IsBlank(list[k], space) || IsName(list[k], space))
  }

  lemma {:induction false} ReadList(list: seq<string>, r: Reader, space: char -> bool)
    requires NameList(list, space)
    ensures ReadAll(list, r, space) == if r.inBlock then Reader(r.names + Spelled(list, space), true) else r
    decreases |list|
  {
    if list == [] {
      CatEmpty(r.names);
    } else {
      assert NameList(list[1..], space);
      ReadList(list[1..], ReadLine(list[0], r, space), space);
      if IsName(list[0], space) {
        CatAssociates(r.names, [Strip(list[0], space)], Spelled(list[1..], space));
      }
    }
  }

  /** A header line ends a block it falls into, whatever its indentation, unless it is read as a
      name; the harness prints it flush left. */
  predicate PlainHeader(line: string, space: char -> bool) { IsHeader(line, space) && !IsName(line, space) }

  /** The closing list, exactly: its names are read if and only if the reader is outside a block
      when the closing header comes; otherwise that header ends the open block and the list
      is skipped whole. */
  lemma ClosingListIff(before: seq<string>, header: string, list: seq<string>, space: char -> bool)
    requires PlainHeader(header, space) && NameList(list, space)
    ensures var r := ReadAll(before, Reader([], false), space);
            ReadAll(before + ([header] + list), Reader([], false), space)
            == if r.inBlock then Reader(r.names, false) else Reader(r.names + Spelled(list, space), true)
  {
    var r := ReadAll(before, Reader([], false), space);
    ReadCat(before, [header] + list, Reader([], false), space);
    assert ([header] + list)[1..] == list;
    ReadList(list, ReadLine(header, r, space), space);
  }

  predicate NoHeader(lines: seq<string>, space: char -> bool) {
    forall k | 0 <= k < |lines| :: !IsHeader(lines[k], space)
  }

  lemma {:induction false} OutsideStaysOutside(lines: seq<string>, r: Reader, space: char -> bool)
    requires !r.inBlock && NoHeader(lines, space)
    ensures ReadAll(lines, r, space) == r
    decreases |lines|
  {
    if lines != [] {
      assert NoHeader(lines[1..], space);
      OutsideStaysOutside(lines[1..], r, space);
    }
  }

  predicate Blanks(lines: seq<string>, space: char -> bool) {
    forall k | 0 <= k < |lines| :: !IsHeader(lines[k], space) && IsBlank(lines[k], space)
  }

  lemma {:induction false} BlanksChangeNothing(lines: seq<string>, r: Reader, space: char -> bool)
    requires Blanks(lines, space)
    ensures ReadAll(lines, r, space) == r
    decreases |lines|
  {
    if lines != [] {
      assert Blanks(lines[1..], space);
      BlanksChangeNothing(lines[1..], r, space);
    }
  }

  /** The usual output: progress, a header, the dumps (a flush line such as `---- name stdout`
      first, no line reading `failures:` in them), a header and the list. All names are found. */
  lemma UsualOutputIsRead(progress: seq<string>, header: string, gap: seq<string>, first: string,
                          dumps: seq<string>, list: seq<string>, space: char -> bool)
    requires NoHeader(progress, space) && PlainHeader(header, space) && Blanks(gap, space)
    requires !IsHeader(first, space) && !IsBlank(first, space) && !IsName(first, space)
    requires NoHeader(dumps, space) && NameList(list, space)
    ensures var before := progress + ([header] + (gap + ([first] + dumps)));
            ReadAll(before + ([header] + list), Reader([], false), space).names == Spelled(list, space)
  {
    var start := Reader([], false);
    var before := progress + ([header] + (gap + ([first] + dumps)));
    ReadCat(progress, [header] + (gap + ([first] + dumps)), start, space);
    OutsideStaysOutside(progress, start, space);
    assert ([header] + (gap + ([first] + dumps)))[1..] == gap + ([first] + dumps);
    var inside := Reader([], true);
    ReadCat(gap, [first] + dumps, inside, space);
    BlanksChangeNothing(gap, inside, space);
    assert ([first] + dumps)[1..] == dumps;
    OutsideStaysOutside(dumps, start, space);
    ClosingListIff(before, header, list, space);
    assert [] + Spelled(list, space) == Spelled(list, space);
  }

  /** With no dump between the two headers, as when output is not captured, the second header
      ends the first block and every name is lost. */
  lemma NoDumpsLosesNames(progress: seq<string>, header: string, gap: seq<string>, list: seq<string>,
                          space: char -> bool)
    requires NoHeader(progress, space) && PlainHeader(header, space) && Blanks(gap, space) && NameList(list, space)
    ensures ReadAll(progress + ([header] + gap) + ([header] + list), Reader([], false), space).names == []
  {
    var start := Reader([], false);
    ReadCat(progress, [header] + gap, start, space);
    OutsideStaysOutside(progress, start, space);
    assert ([header] + gap)[1..] == gap;
    BlanksChangeNothing(gap, Reader([], true), space);
    ClosingListIff(progress + ([header] + gap), header, list, space);
  }

  /** Four lines of such output: the one listed name is lost. */
  lemma OneNameIsLost(lines: seq<string>, space: char -> bool)
    requires lines == [HEADER, "", HEADER, "    a"] && space == (c => c == ' ')
    ensures Spelled(lines[3..], space) == ["a"]
    ensures ReadAll(lines, Reader([], false), space).names == []
  {
    ListedName(space);
    assert lines[3..] == ["    a"] && ["    a"][1..] == [];
    assert Spelled([], space) == [];
    assert Strip("", space) == "";
    NoDumpsLosesNames([], HEADER, [""], ["    a"], space);
    assert lines == [] + ([HEADER] + [""]) + ([HEADER] + ["    a"]);
  }

  lemma ListedName(space: char -> bool)
    requires space == (c => c == ' ')
    ensures Strip("    a", space) == "a"
    ensures IsName("    a", space) && !IsHeader("    a", space)
  {
    assert "    a"[1..] == "   a" && "   a"[1..] == "  a" && "  a"[1..] == " a" && " a"[1..] == "a";
    assert StripLeft("a", space) == "a";
    assert StripLeft("  a", space) == "a";
    assert StripLeft("    a", space) == "a";
    assert StripRight("a", space) == "a";
    assert "    a"[..4] == INDENT;
    assert HEADER[0] == 'f' && DOTS[0] == '.';
  }

  // ----- the reader's state, read off the lines

  /** A line that settles the state whatever came before: one that ends any block, or an
      indented header, which is read as a name inside a block and opens one outside. */
  predicate Settles(line: string, space: char -> bool) {
    !IsBlank(line, space) && (IsHeader(line, space) <==> IsName(line, space))
  }

  /** Just behind the last settling line, or 0. */
  function LastSettled(lines: seq<string>, space: char -> bool): (k: nat)
    ensures k <= |lines|
    ensures k > 0 ==> Settles(lines[k - 1], space)
  {
    if lines == [] then 0
    else if Settles(lines[|lines| - 1], space) then |lines|
    else LastSettled(lines[..|lines| - 1], space)
  }

  function Headers(lines: seq<string>, space: char -> bool): nat {
    if lines == [] then 0
    else Headers(lines[..|lines| - 1], space) + if IsHeader(lines[|lines| - 1], space) then 1 else 0
  }

  /** Is the reader inside a block? An odd number of headers since the last settling line says
      so, an even number if that line was an indented header. */
  predicate Inside(lines: seq<string>, space: char -> bool) {
    var k := LastSettled(lines, space);
    (Headers(lines[k..], space) % 2 == 1) != (k > 0 && IsHeader(lines[k - 1], space))
  }

  lemma InsideStep(front: seq<string>, last: string, space: char -> bool)
    ensures Inside(front + [last], space)
            <==> if Settles(last, space) then IsHeader(last, space) else Inside(front, space) != IsHeader(last, space)
  {
    var lines, n := front + [last], |front|;
    assert lines[..n] == front && lines[n] == last;
    if Settles(last, space) {
      assert lines[n + 1..] == [];
    } else {
      var k := LastSettled(front, space);
      assert lines[k..] == front[k..] + [last];
      assert lines[k..][..n - k] == front[k..];
    }
  }

  lemma {:induction false} InBlockIff(lines: seq<string>, space: char -> bool)
    ensures ReadAll(lines, Reader([], false), space).inBlock <==> Inside(lines, space)
  {
    if lines != [] {
      var front, last := lines[..|lines| - 1], lines[|lines| - 1];
      InBlockIff(front, space);
      assert lines == front + [last];
      ReadCat(front, [last], Reader([], false), space);
      assert [last][1..] == [];
      InsideStep(front, last, space);
    }
  }

  /** The closing list is found exactly when its header comes outside a block. */
  lemma ClosingListFoundIff(before: seq<string>, header: string, list: seq<string>, space: char -> bool)
    requires PlainHeader(header, space) && NameList(list, space)
    ensures var found := ReadAll(before, Reader([], false), space).names;
            ReadAll(before + ([header] + list), Reader([], false), space).names
            == if Inside(before, space) then found else found + Spelled(list, space)
  {
    InBlockIff(before, space);
    ClosingListIff(before, header, list, space);
  }

  /** Collapsing to the first of each name keeps the set of names and drops every repeat. */
  lemma {:induction false} UniqueIsSet(names: seq<string>)
    ensures forall n :: n in Unique(names) <==> n in names
    ensures forall i, j | 0 <= i < j < |Unique(names)| :: Unique(names)[i] != Unique(names)[j]
  {
    if names != [] {
      UniqueIsSet(names[..|names| - 1]);
      assert names == names[..|names| - 1] + [names[|names| - 1]];
    }
  }

  /** It keeps the first of each name, and these in order. */
  lemma {:induction false} UniqueExactly(names: seq<string>) returns (at: seq<nat>)
    ensures Picks(names, at, Unique(names))
    ensures forall k: nat :: k in at <==> k < |names| && names[k] !in names[..k]
  {
    if names == [] {
      at := [];
    } else {
      var front, last := names[..|names| - 1], names[|names| - 1];
      assert names == front + [last];
      UniqueIsSet(front);
      var before := UniqueExactly(front);
      at := PickNext(front, before, Unique(front), last, last !in front);
      CatEmpty(Unique(front));
      assert forall k: nat | k < |front| :: names[..k] == front[..k];
    }
  }

  // ----- the output of cargo, word by word

  /** A test name as it is printed: solid at both ends, and no ellipsis. */
  predicate TestName(name: string, space: char -> bool) {
    SolidEnds(name, space) && !("..." <= name) && name != "failures:"
  }

  predicate Spaces(s: string, space: char -> bool) { forall k | 0 <= k < |s| :: space(s[k]) }

  predicate SolidEnds(s: string, space: char -> bool) { s != "" && !space(s[0]) && !space(s[|s| - 1]) }

  lemma {:induction false} StripLeftIs(a: string, s: string, space: char -> bool)
    requires Spaces(a, space) && s != "" && !space(s[0])
    ensures StripLeft(a + s, space) == s
  {
    if a == "" {
      assert a + s == s;
    } else {
      DropCat(a, s, 1);
      StripLeftIs(a[1..], s, space);
    }
  }

  lemma {:induction false} StripRightIs(s: string, b: string, space: char -> bool)
    requires Spaces(b, space) && s != "" && !space(s[|s| - 1])
    ensures StripRight(s + b, space) == s
  {
    if b == "" {
      assert s + b == s;
    } else {
      assert (s + b)[..|s + b| - 1] == s + b[..|b| - 1];
      StripRightIs(s, b[..|b| - 1], space);
    }
  }

  /** White space around a word goes. */
  lemma StripIs(a: string, s: string, b: string, space: char -> bool)
    requires Spaces(a, space) && SolidEnds(s, space) && Spaces(b, space)
    ensures StripLeft(a + (s + b), space) == s + b && Strip(a + (s + b), space) == s
  {
    StripLeftIs(a, s + b, space);
    StripRightIs(s, b, space);
  }

  /** An indented name is read, whatever it is, unless it begins with an ellipsis. */
  lemma NameLine(name: string, end: string, space: char -> bool)
    requires space(' ') && TestName(name, space) && Spaces(end, space)
    ensures var line := "    " + (name + end);
            !IsHeader(line, space) && IsName(line, space) && Strip(line, space) == name
  {
    StripIs("    ", name, end, space);
    assert ("    " + (name + end))[..4] == "    ";
    NoEllipsis(name, end, space);
  }

  lemma NoEllipsis(name: string, end: string, space: char -> bool)
    requires TestName(name, space) && Spaces(end, space)
    ensures !("..." <= name + end)
  {
    var text := name + end;
    if |name| >= 3 {
      assert text[..3] == name[..3];
    } else if |text| >= 3 {
      assert text[0] == name[0] && text[|name|] == end[0];
      assert text[0] != text[|name|];
    }
  }

  /** An indented ellipsis ends the block. */
  lemma EllipsisEnds(text: string, end: string, r: Reader, space: char -> bool)
    requires space(' ') && SolidEnds(text, space) && Spaces(end, space)
    requires "..." <= text && r.inBlock
    ensures ReadLine("    " + (text + end), r, space) == Reader(r.names, false)
  {
    StripIs("    ", text, end, space);
    assert text[0] == '.' && "..." <= text + end;
  }

  lemma HeaderLine(end: string, space: char -> bool)
    requires !space('f') && !space(':') && Spaces(end, space)
    ensures PlainHeader("failures:" + end, space)
  {
    StripIs("", "failures:", end, space);
    assert "" + ("failures:" + end) == "failures:" + end;
    assert ("failures:" + end)[0] == 'f';
  }

  /** The names as they are listed, each line with its ending. */
  function ListedLines(names: seq<string>, end: string): seq<string> {
    if names == [] then [] else ["    " + (names[0] + end)] + ListedLines(names[1..], end)
  }

  lemma {:induction false} ListedNames(names: seq<string>, end: string, space: char -> bool)
    requires space(' ') && Spaces(end, space) && forall k | 0 <= k < |names| :: TestName(names[k], space)
    ensures NameList(ListedLines(names, end), space) && Spelled(ListedLines(names, end), space) == names
  {
    if names != [] {
      ListedNames(names[1..], end, space);
      NameLine(names[0], end, space);
      assert names == [names[0]] + names[1..];
    }
  }

  predicate NoneReads(lines: seq<string>, word: string, space: char -> bool) {
    forall k | 0 <= k < |lines| :: Strip(lines[k], space) != word
  }

  lemma NotAName(first: string, space: char -> bool)
    requires Strip(first, space) != "failures:" && Strip(first, space) != "" && !("    " <= first)
    ensures !IsHeader(first, space) && !IsBlank(first, space) && !IsName(first, space)
  {
  }

  lemma {:induction false} BlankLine(end: string, space: char -> bool)
    requires Spaces(end, space)
    ensures Strip(end, space) == "" && Blanks([end], space)
  {
    if end != "" {
      BlankLine(end[1..], space);
      assert StripLeft(end, space) == StripLeft(end[1..], space);
    }
  }

  lemma NoneReadsIff(lines: seq<string>, space: char -> bool)
    ensures NoneReads(lines, "failures:", space) <==> NoHeader(lines, space)
  {
  }

  /** Cargo's output for failed tests: progress, the header and a blank line, the dumps, the header
      again and the indented names. All of them are read, whatever the names and the dumps. */
  lemma CargoOutputIsRead(progress: seq<string>, first: string, dumps: seq<string>, names: seq<string>, end: string,
                          space: char -> bool)
    requires space(' ') && !space('f') && !space(':') && Spaces(end, space)
    requires NoneReads(progress, "failures:", space) && NoneReads(dumps, "failures:", space)
    requires Strip(first, space) != "failures:" && Strip(first, space) != "" && !("    " <= first)
    requires forall k | 0 <= k < |names| :: TestName(names[k], space)
    ensures var header := "failures:" + end;
            var before := progress + ([header] + ([end] + ([first] + dumps)));
            ReadAll(before + ([header] + ListedLines(names, end)), Reader([], false), space).names == names
  {
    HeaderLine(end, space);
    BlankLine(end, space);
    NotAName(first, space);
    NoneReadsIff(progress, space);
    NoneReadsIff(dumps, space);
    ListedNames(names, end, space);
    UsualOutputIsRead(progress, "failures:" + end, [end], first, dumps, ListedLines(names, end), space);
  }
}
