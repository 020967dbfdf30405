/** The OSC 8 hyperlink extractor of scripts/osc8_parity.py. A byte is modelled as the
    character with its code; URLs stay undecoded bytes. */
module Osc8 {
  import opened Text

  type Bytes = string

  const BEL: char := '\U{0007}'

  datatype Link = Link(url: Bytes, text: Bytes)

  /** An open hyperlink region: the row it opened on, its url, the raw bytes so far. */
  datatype Region = Region(row: nat, url: Bytes, raw: Bytes)

  datatype State = State(events: map<nat, seq<Link>>, row: nat, pending: Option<Region>)

  const INITIAL: State := State(map[], 1, None)

  // ----- what an escape does

  predicate Printable(c: char) { ' ' <= c <= '~' }

  /** The label: everything outside 0x20..0x7e removed. */
  function Visible(raw: Bytes): Bytes {
    if raw == [] then [] else (if Printable(raw[0]) then [raw[0]] else []) + Visible(raw[1..])
  }

  function Recorded(events: map<nat, seq<Link>>, row: nat): seq<Link> {
    if row in events then events[row] else []
  }

  /** `events.setdefault(row, []).append(link)` */
  function Record(events: map<nat, seq<Link>>, row: nat, link: Link): map<nat, seq<Link>> {
    events[row := Recorded(events, row) + [link]]
  }

  /** The pending region is recorded and closed. */
  function Emit(st: State): State
    requires st.pending.Some?
  {
    var r := st.pending.value;
    State(Record(st.events, r.row, Link(r.url, Visible(r.raw))), st.row, None)
  }

  function Feed(st: State, text: Bytes): State {
    if st.pending.None? then st
    else st.(pending := Some(st.pending.value.(raw := st.pending.value.raw + text)))
  }

  function OpenLink(st: State, url: Bytes): State { st.(pending := Some(Region(st.row, url, []))) }

  function CloseLink(st: State): State { if st.pending.Some? then Emit(st) else st }

  function MoveTo(st: State, row: nat): State {
    (if st.pending.Some? && row != st.row then Emit(st) else st).(row := row)
  }

  // ----- the regular expressions

  predicate NotEsc(c: char) { c != ESC }

  predicate CsiParam(c: char) { IsDigit(c) || c == ';' || c == '?' }

  /** ESC ] 8 ; ; url ESC \ : the length of the url, if it matches. */
  function MatchLink(s: Bytes): (url: Option<nat>)
    ensures url.Some? ==> url.value + 7 <= |s|
  {
    if |s| >= 5 && s[..5] == [ESC, ']', '8', ';', ';'] then
      var n := RunLength(s[5..], NotEsc);
      if n + 6 < |s| && s[n + 5] == ESC && s[n + 6] == '\\' then Some(n) else None
    else None
  }

  /** The end of the first BEL or ESC \ in `s`, or 0. */
  function TerminatorEnd(s: Bytes): (n: nat)
    ensures n <= |s|
  {
    if s == [] then 0
    else if s[0] == BEL then 1
    else if |s| >= 2 && s[0] == ESC && s[1] == '\\' then 2
    else
      var n := TerminatorEnd(s[1..]);
      if n == 0 then 0 else n + 1
  }

  /** Digits ; digits H at the head of `s`: the two digit counts. */
  function MatchMove(s: Bytes): (m: Option<(nat, nat)>)
    ensures m.Some? ==> 0 < m.value.0 && 0 < m.value.1 && m.value.0 + m.value.1 + 2 <= |s| && Digits(s[..m.value.0])
  {
    var a := RunLength(s, IsDigit);
    if a > 0 && a < |s| && s[a] == ';' then
      var b := RunLength(s[a + 1..], IsDigit);
      if b > 0 && a + 1 + b < |s| && s[a + 1 + b] == 'H' then Some((a, b)) else None
    else None
  }

  /** [0-9;?]*[A-Za-z] at the head of `s`: its length, or 0. */
  function MatchCsi(s: Bytes): (n: nat)
    ensures n <= |s|
  {
    var a := RunLength(s, CsiParam);
    if a < |s| && Letter(s[a]) then a + 1 else 0
  }

  /** The effect of the escape at the head of `s`, and how many bytes it consumes; 0 means
      that the ESC itself counts as text. */
  function Escape(s: Bytes, st: State): (r: (State, nat))
    requires s != [] && s[0] == ESC
    ensures r.1 <= |s|
  {
    if |s| >= 2 && s[1] == ']' then
      var url := MatchLink(s);
      if url.None? then (st, 2 + TerminatorEnd(s[2..]))
      else if url.value > 0 then (OpenLink(st, s[5..5 + url.value]), url.value + 7)
      else (CloseLink(st), 7)
    else if |s| >= 2 && s[1] == '[' then
      var move := MatchMove(s[2..]);
      if move.Some? then (MoveTo(st, Value(s[2..][..move.value.0])), move.value.0 + move.value.1 + 4)
      else if MatchCsi(s[2..]) > 0 then (st, 2 + MatchCsi(s[2..]))
      else (st, 1)
    else (st, 0)
  }

  function Scan(s: Bytes, st: State): State
    decreases |s|
  {
    if s == [] then st
    else if s[0] != ESC then Scan(s[1..], Feed(st, [s[0]]))
    else
      var (st', n) := Escape(s, st);
      if n == 0 then Scan(s[1..], Feed(st', [ESC])) else Scan(s[n..], st')
  }

  // ----- the loop

  lemma {:induction false} ScanText(text: Bytes, rest: Bytes, st: State)
    requires NoEsc(text)
    ensures Scan(text + rest, st) == Scan(rest, Feed(st, text))
  {
    if text == [] {
      assert text + rest == rest;
      if st.pending.Some? {
        CatEmpty(st.pending.value.raw);
      }
    } else {
      DropCat(text, rest, 1);
      ScanText(text[1..], rest, Feed(st, [text[0]]));
      if st.pending.Some? {
        CatAssociates(st.pending.value.raw, [text[0]], text[1..]);
        assert [text[0]] + text[1..] == text;
      }
    }
  }

  lemma {:induction false} ScanEscape(s: Bytes, st: State)
    requires s != [] && s[0] == ESC
    ensures var (st', n) := Escape(s, st);
            Scan(s, st) == if n == 0 then Scan(s[1..], Feed(st', [ESC])) else Scan(s[n..], Feed(st', []))
  {
    FeedNothing(Escape(s, st).0);
  }

  /** One escape, met at `k`: the state after it, the new `prev_end`, and how far the input
      has had its effect. */
  method EscapeAt(tail: Bytes, k: nat, st: State) returns (st': State, prevEnd: nat, ghost seen: nat)
    requires k < |tail| && tail[k] == ESC
    ensures k <= prevEnd <= |tail| && seen == (if k + 1 <= prevEnd then prevEnd else k + 1)
    ensures Scan(tail[seen..], Feed(st', tail[prevEnd..seen])) == Scan(tail[k..], st)
  {
    var r := Escape(tail[k..], st);
    ScanEscape(tail[k..], st);
    st', prevEnd := r.0, k + r.1;
    if r.1 == 0 {
      seen := k + 1;
      DropDrop(tail, k, 1);
      assert tail[prevEnd..seen] == [ESC];
    } else {
      seen := prevEnd;
      DropDrop(tail, k, r.1);
      assert tail[prevEnd..seen] == [];
    }
  }

  /** `leg_a_events`: every ESC position in order, skipping those already consumed. */
  method LegAEvents(tail: Bytes) returns (events: map<nat, seq<Link>>)
    ensures events == Scan(tail, INITIAL).events
  {
    var st := INITIAL;
    var prevEnd := 0;
    ghost var seen := 0;  // everything before `seen` has had its effect
    assert tail[0..] == tail && tail[0..0] == [];
    for k := 0 to |tail|
      invariant prevEnd <= |tail|
      invariant seen == if k <= prevEnd then prevEnd else k
      invariant Scan(tail[seen..], Feed(st, tail[prevEnd..seen])) == Scan(tail, INITIAL)
    {
      if k < prevEnd {
        continue;
      }
      if tail[k] != ESC {
        SkipText(tail, prevEnd, k, st);
        seen := k + 1;
        continue;
      }
      var between := tail[prevEnd..k];
      st := Feed(st, between);
      st, prevEnd, seen := EscapeAt(tail, k, st);
    }
    events := st.events;
  }

  lemma FeedNothing(st: State)
    ensures Feed(st, []) == st
  {
    if st.pending.Some? {
      CatEmpty(st.pending.value.raw);
    }
  }

  lemma SkipText(tail: Bytes, prevEnd: nat, k: nat, st: State)
    requires prevEnd <= k < |tail| && tail[k] != ESC
    ensures Scan(tail[k..], Feed(st, tail[prevEnd..k])) == Scan(tail[k + 1..], Feed(st, tail[prevEnd..k + 1]))
  {
    DropDrop(tail, k, 1);
    assert tail[prevEnd..k + 1] == tail[prevEnd..k] + [tail[k]];
    if st.pending.Some? {
      CatAssociates(st.pending.value.raw, tail[prevEnd..k], [tail[k]]);
    }
  }
}
