/** Which bytes the extractor takes for an escape sequence, byte class by byte class. */
module Osc8Escapes {
  import opened Text
  import opened Osc8
  import opened Osc8RoundTrip

  predicate ParamByte(c: char) { '0' <= c <= '9' || c == ';' || c == '?' }

  predicate FinalByte(c: char) { 'A' <= c <= 'Z' || 'a' <= c <= 'z' }

  predicate ParamBytes(s: Bytes) { forall k | 0 <= k < |s| :: ParamByte(s[k]) }

  predicate SomeDigits(s: Bytes) { s != [] && forall k | 0 <= k < |s| :: '0' <= s[k] <= '9' }

  /** A row and a column, in digits. */
  predicate IsMove(params: Bytes, final: char, a: Bytes, b: Bytes) {
    SomeDigits(a) && SomeDigits(b) && params == a + ([';'] + b) && final == 'H'
  }

  lemma ParamRun(params: Bytes, rest: Bytes)
    requires ParamBytes(params) && (rest == [] || !ParamByte(rest[0]))
    ensures RunLength(params + rest, CsiParam) == |params|
    ensures MatchCsi(params + rest) == if rest != [] && FinalByte(rest[0]) then |params| + 1 else 0
  {
    RunLengthIs(params + rest, CsiParam, |params|);
  }

  lemma MoveShape(s: Bytes, m: nat, n: nat)
    requires MatchMove(s) == Some((m, n))
    ensures m + n + 1 < |s| && s[m] == ';' && s[m + n + 1] == 'H'
    ensures SomeDigits(s[..m]) && SomeDigits(s[m + 1..m + 1 + n])
  {
    var t := s[m + 1..];
    assert m == RunLength(s, IsDigit) && n == RunLength(t, IsDigit);
    assert s[m + 1..m + 1 + n] == t[..n];
  }

  lemma ShapeIsParams(s: Bytes, m: nat, n: nat)
    requires m + n + 1 < |s| && s[m] == ';' && SomeDigits(s[..m]) && SomeDigits(s[m + 1..m + 1 + n])
    ensures ParamBytes(s[..m + n + 1])
  {
    forall k | 0 <= k < m + n + 1
      ensures ParamByte(s[k])
    {
      if k < m {
        assert s[..m][k] == s[k];
      } else if k > m {
        assert s[m + 1..m + 1 + n][k - m - 1] == s[k];
      }
    }
  }

  /** Whatever matches as a move lies within the parameters and the byte behind them. */
  lemma MoveWithin(params: Bytes, rest: Bytes) returns (a: Bytes, b: Bytes)
    requires ParamBytes(params) && (rest == [] || !ParamByte(rest[0])) && MatchMove(params + rest).Some?
    ensures rest != [] && IsMove(params, rest[0], a, b)
  {
    var s := params + rest;
    var (m, n) := MatchMove(s).value;
    MoveShape(s, m, n);
    ShapeIsParams(s, m, n);
    var p := m + n + 1;
    RunLengthIs(s, CsiParam, |params|);
    assert forall k | 0 <= k < p :: s[k] == s[..p][k];
    RunLengthIs(s, CsiParam, p);
    a, b := s[..m], s[m + 1..m + 1 + n];
    assert params == s[..p] == a + ([';'] + b);
  }

  lemma IsMatchedMove(params: Bytes, final: char, rest: Bytes, a: Bytes, b: Bytes)
    requires IsMove(params, final, a, b)
    ensures MatchMove(params + ([final] + rest)) == Some((|a|, |b|))
    ensures (params + ([final] + rest))[..|a|] == a && Digits(a)
  {
    MatchDigits(a, b, rest);
    CatAssociates([';'], b, [final] + rest);
    CatAssociates(a, [';'] + b, [final] + rest);
  }

  lemma MoveTail(params: Bytes, final: char, rest: Bytes, a: Bytes, b: Bytes)
    requires IsMove(params, final, a, b)
    ensures (params + ([final] + rest))[|a| + |b| + 2..] == rest
  {
    CatAssociates(params, [final], rest);
    assert |params + [final]| == |a| + |b| + 2;
  }

  /** A cursor move sets the row. */
  lemma MoveIsRead(params: Bytes, final: char, rest: Bytes, st: State, a: Bytes, b: Bytes)
    requires IsMove(params, final, a, b)
    ensures Digits(a)
    ensures Scan([ESC, '['] + (params + ([final] + rest)), st) == Scan(rest, MoveTo(st, Value(a)))
  {
    var inner := params + ([final] + rest);
    IsMatchedMove(params, final, rest, a, b);
    EscapeMove(inner, |a|, |b|, st);
    MoveTail(params, final, rest, a, b);
  }

  /** Any other parameters with a final letter are skipped, and do nothing. */
  lemma CsiIsSkipped(params: Bytes, final: char, rest: Bytes, st: State)
    requires ParamBytes(params) && FinalByte(final) && forall a, b :: !IsMove(params, final, a, b)
    ensures Scan([ESC, '['] + (params + ([final] + rest)), st) == Scan(rest, st)
  {
    var inner := params + ([final] + rest);
    ParamRun(params, [final] + rest);
    if MatchMove(inner).Some? {
      var a, b := MoveWithin(params, [final] + rest);
    }
    EscapeCsi(inner, |params| + 1, st);
    assert inner[|params| + 1..] == rest;
  }

  /** Parameters without a final letter: the ESC is dropped, and nothing else. */
  lemma BrokenCsi(params: Bytes, rest: Bytes, st: State)
    requires ParamBytes(params) && (rest == [] || (!ParamByte(rest[0]) && !FinalByte(rest[0])))
    ensures Scan([ESC, '['] + (params + rest), st) == Scan(['['] + (params + rest), st)
  {
    var inner := params + rest;
    ParamRun(params, rest);
    if MatchMove(inner).Some? {
      var a, b := MoveWithin(params, rest);
    }
    var s := [ESC, '['] + inner;
    assert s[2..] == inner && s[1..] == ['['] + inner;
    assert Escape(s, st) == (st, 1);
  }

  /** An ESC in front of anything but `]` and `[` is text. */
  lemma LoneEscape(rest: Bytes, st: State)
    requires rest == [] || (rest[0] != ']' && rest[0] != '[')
    ensures Scan([ESC] + rest, st) == Scan(rest, Feed(st, [ESC]))
  {
    assert ([ESC] + rest)[1..] == rest;
  }

  /** Any other OSC is skipped up to its BEL, the byte 7, or its ESC backslash. */
  lemma OscIsSkipped(payload: Bytes, bel: bool, rest: Bytes, st: State)
    requires !(['8', ';', ';'] <= payload)
    requires forall k | 0 <= k < |payload| :: payload[k] as int != 7 && payload[k] as int != 0x1b
    ensures Scan([ESC, ']'] + (payload + ((if bel then ['\U{0007}'] else [ESC, '\\']) + rest)), st) == Scan(rest, st)
  {
    var end := if bel then [BEL] else [ESC, '\\'];
    ReadOsc(payload, bel, rest, st);
    CatAssociates([ESC, ']'], payload + end, rest);
    CatAssociates(payload, end, rest);
  }

  // ----- moves inside a link

  /** A move to the row the cursor is on leaves an open link open. */
  lemma SameRowKeeps(url: Bytes, first: seq<Piece>, col: nat, second: seq<Piece>, st: State)
    requires forall k | 0 <= k < |first| :: Inline(first[k])
    requires forall k | 0 <= k < |second| :: Inline(second[k])
    ensures PlayAll([Open(url)] + (first + ([Move(st.row, col)] + (second + [Close]))), st)
            == State(Record(st.events, st.row, Link(url, Visible(Inked(first) + Inked(second)))), st.row, None)
  {
    var begun := OpenLink(st, url);
    PlayStep(Open(url), first + ([Move(st.row, col)] + (second + [Close])), st);
    PlayCat(first, [Move(st.row, col)] + (second + [Close]), begun);
    PlayBody(first, begun);
    var mid := Feed(begun, Inked(first));
    PlayStep(Move(st.row, col), second + [Close], mid);
    PlayToClose(second, mid);
    FeedTwice(begun, Inked(first), Inked(second));
    FeedFresh(begun, Inked(first) + Inked(second));
  }
}
