/** The event stream normalizer of scripts/print_json_parity.py: streamed deltas collapse to run
    markers, and one trailing `agent_end` may be moved across the refinement events. */
module PrintJson {
  import opened Text
  import opened Json

  type Event = Json

  function Kind(e: Event): Json { Get(e, "type") }

  // ----- collapsing deltas

  predicate IsUpdate(e: Event) { Kind(e) == Str("message_update") }

  /** Consecutive deltas of one type and content index. */
  predicate SameRun(a: Event, b: Event) {
    IsUpdate(a) && IsUpdate(b) && Get(a, "assistantMessageEvent") == Get(b, "assistantMessageEvent")
  }

  function Push(events: seq<Event>, e: Event): seq<Event> {
    if events != [] && SameRun(events[|events| - 1], e) then events else events + [e]
  }

  function CollapseOnto(events: seq<Event>, stream: seq<Event>): seq<Event>
    decreases |stream|
  {
    if stream == [] then events else CollapseOnto(Push(events, stream[0]), stream[1..])
  }

  function Collapsed(stream: seq<Event>): seq<Event> { CollapseOnto([], stream) }

  /** The first event of every run, given the event before the stream. */
  function Heads(before: Option<Event>, stream: seq<Event>): seq<Event>
    decreases |stream|
  {
    if stream == [] then []
    else
      (if before.Some? && SameRun(before.value, stream[0]) then [] else [stream[0]])
      + Heads(Some(stream[0]), stream[1..])
  }

  lemma {:induction false} CollapseIsHeads(events: seq<Event>, stream: seq<Event>)
    ensures CollapseOnto(events, stream)
            == events + Heads(if events == [] then None else Some(events[|events| - 1]), stream)
    decreases |stream|
  {
    if stream != [] {
      var pushed := Push(events, stream[0]);
      CollapseIsHeads(pushed, stream[1..]);
      if pushed != events {
        CatAssociates(events, [stream[0]], Heads(Some(stream[0]), stream[1..]));
      }
    }
  }

  lemma {:induction false} HeadsCat(before: Option<Event>, a: seq<Event>, b: seq<Event>)
    ensures Heads(before, a + b)
            == Heads(before, a) + Heads(if a == [] then before else Some(a[|a| - 1]), b)
    decreases |a|
  {
    if a == [] {
      assert a + b == b;
    } else {
      DropCat(a, b, 1);
      HeadsCat(Some(a[0]), a[1..], b);
      var first := if before.Some? && SameRun(before.value, a[0]) then [] else [a[0]];
      CatAssociates(first, Heads(Some(a[0]), a[1..]), Heads(Some(a[|a| - 1]), b));
    }
  }

  /** A repeat of a delta, right after it, never shows. */
  lemma RepeatsVanish(a: seq<Event>, e: Event, repeat: Event, b: seq<Event>)
    requires SameRun(e, repeat)
    ensures Collapsed(a + ([e, repeat] + b)) == Collapsed(a + ([e] + b))
  {
    CollapseIsHeads([], a + ([e, repeat] + b));
    CollapseIsHeads([], a + ([e] + b));
    HeadsCat(None, a, [e, repeat] + b);
    HeadsCat(None, a, [e] + b);
    assert ([e, repeat] + b)[1..] == [repeat] + b && ([repeat] + b)[1..] == b;
    assert ([e] + b)[1..] == b;
    assert Heads(Some(e), [repeat] + b) == Heads(Some(repeat), b);
  }

  predicate Settled(events: seq<Event>) {
    forall k | 0 < k < |events| :: !SameRun(events[k - 1], events[k])
  }

  lemma {:induction false} CollapseSettles(events: seq<Event>, stream: seq<Event>)
    requires Settled(events)
    ensures Settled(CollapseOnto(events, stream))
    decreases |stream|
  {
    if stream != [] {
      CollapseSettles(Push(events, stream[0]), stream[1..]);
    }
  }

  function OtherEvents(events: seq<Event>): seq<Event> {
    if events == [] then []
    else
      OtherEvents(events[..|events| - 1])
      + (if IsUpdate(events[|events| - 1]) then [] else [events[|events| - 1]])
  }

  lemma {:induction false} OthersStay(events: seq<Event>, stream: seq<Event>)
    ensures OtherEvents(CollapseOnto(events, stream)) == OtherEvents(events) + OtherEvents(stream)
    decreases |stream|
  {
    if stream == [] {
      CatEmpty(OtherEvents(events));
    } else {
      var e, rest := stream[0], stream[1..];
      OthersStay(Push(events, e), rest);
      assert stream == [e] + rest;
      OthersCat([e], rest);
      assert [] + [e] == [e];
      CatAssociates(OtherEvents(events), OtherEvents([e]), OtherEvents(rest));
    }
  }

  lemma {:induction false} OthersCat(a: seq<Event>, b: seq<Event>)
    ensures OtherEvents(a + b) == OtherEvents(a) + OtherEvents(b)
    decreases |b|
  {
    if b == [] {
      assert a + b == a;
    } else {
      var front, last := b[..|b| - 1], b[|b| - 1];
      OthersCat(a, front);
      assert (a + b)[..|a + b| - 1] == a + front;
      CatAssociates(OtherEvents(a), OtherEvents(front), if IsUpdate(last) then [] else [last]);
    }
  }

  /** What the collapse keeps: every other event, in order, and one delta per run. */
  lemma CollapseKeeps(stream: seq<Event>)
    ensures OtherEvents(Collapsed(stream)) == OtherEvents(stream)
    ensures Settled(Collapsed(stream))
    ensures Collapsed(Collapsed(stream)) == Collapsed(stream)
  {
    OthersStay([], stream);
    assert [] + OtherEvents(stream) == OtherEvents(stream);
    CollapseSettles([], stream);
    SettledStays([], Collapsed(stream));
    assert [] + Collapsed(stream) == Collapsed(stream);
  }

  lemma {:induction false} SettledStays(done: seq<Event>, todo: seq<Event>)
    requires Settled(done + todo)
    ensures CollapseOnto(done, todo) == done + todo
    decreases |todo|
  {
    if todo == [] {
      assert done + todo == done;
    } else {
      if done != [] {
        assert (done + todo)[|done| - 1] == done[|done| - 1] && (done + todo)[|done|] == todo[0];
      }
      assert done + [todo[0]] + todo[1..] == done + todo;
      SettledStays(done + [todo[0]], todo[1..]);
    }
  }

  // ----- the hoist

  predicate IsAgentEnd(e: Event) { Kind(e) == Str("agent_end") }

  predicate IsTurnEnd(e: Event) { Kind(e) == Str("turn_end") }

  predicate IsMessage(e: Event) { Kind(e) == Str("message_start") || Kind(e) == Str("message_end") }

  predicate IsRefinement(e: Event) {
    var custom := Get(Get(e, "message"), "customType");
    || Kind(e) == Str("refine_complete")
    || Kind(e) == Str("refine_failed")
    || (IsMessage(e) && (custom == Str("refinement_outcome") || custom == Str("refinement_notice")))
  }

  /** Asking whether `e` is a refinement event raises: its message is no object. */
  predicate Chokes(e: Event) { IsMessage(e) && !ObjectOrAbsent(e, "message") }

  /** An `agent_end` right behind a `turn_end`, with something behind it. */
  predicate Candidate(events: seq<Event>, i: nat) {
    0 < i < |events| - 1 && IsAgentEnd(events[i]) && IsTurnEnd(events[i - 1])
  }

  predicate Qualifies(events: seq<Event>, i: nat) {
    Candidate(events, i) && forall j | i < j < |events| :: IsRefinement(events[j])
  }

  /** The search over what follows some candidate meets an event it raises on. */
  predicate Raises(events: seq<Event>) {
    exists i, j | 0 < i < j < |events| :: RaisesAt(events, i, j)
  }

  predicate RaisesAt(events: seq<Event>, i: nat, j: nat)
    requires i < j < |events|
  {
    && Candidate(events, i)
    && (forall k | i < k < j :: IsRefinement(events[k]))
    && Chokes(events[j])
  }

  function FirstQualifying(events: seq<Event>, from: nat): (i: Option<nat>)
    ensures i.Some? ==> Qualifies(events, i.value)
    ensures i.None? ==> forall j | from <= j < |events| :: !Qualifies(events, j)
    decreases |events| - from
  {
    if from >= |events| then None
    else if Qualifies(events, from) then Some(from)
    else FirstQualifying(events, from + 1)
  }

  function Moved(events: seq<Event>, i: nat): seq<Event>
    requires i < |events|
  {
    events[..i] + events[i + 1..] + [events[i]]
  }

  function Hoisted(events: seq<Event>): seq<Event> {
    var i := FirstQualifying(events, 0);
    if i.Some? then Moved(events, i.value) else events
  }

  /** `all(is_refinement_event(...))` over what follows `index`; `None` when it raises. */
  method OnlyRefinement(events: seq<Event>, index: nat) returns (all: Option<bool>)
    requires Candidate(events, index)
    ensures all.None? <==> exists j | index < j < |events| :: RaisesAt(events, index, j)
    ensures all.Some? ==> (all.value <==> Qualifies(events, index))
  {
    for j := index + 1 to |events|
      invariant forall k | index < k < j :: IsRefinement(events[k]) && !Chokes(events[k])
    {
      if Chokes(events[j]) {
        assert RaisesAt(events, index, j);
        return None;
      }
      if !IsRefinement(events[j]) {
        return Some(false);
      }
    }
    all := Some(true);
  }

  /** `None` when the script raises. */
  method FloatCheckpointAgentEnd(events: seq<Event>) returns (result: Option<seq<Event>>)
    ensures result == if Raises(events) then None else Some(Hoisted(events))
  {
    for index := 0 to |events|
      invariant FirstQualifying(events, 0) == FirstQualifying(events, index)
      invariant forall i, j | 0 < i < j < |events| :: i < index ==> !RaisesAt(events, i, j)
    {
      var event := events[index];
      if IsAgentEnd(event) && index > 0 && IsTurnEnd(events[index - 1]) && index + 1 < |events| {
        var onlyRefinement := OnlyRefinement(events, index);
        if onlyRefinement.None? {
          return None;
        }
        if onlyRefinement.value {
          return Some(events[..index] + events[index + 1..] + [event]);
        }
      }
    }
    result := Some(events);
  }

  /** `normalize_events` on parsed and scrubbed events; `None` when the script raises. */
  method NormalizeEvents(stream: seq<Event>) returns (events: Option<seq<Event>>)
    requires forall k | 0 <= k < |stream| :: stream[k].Obj?
    ensures events == if Raises(Collapsed(stream)) then None else Some(Hoisted(Collapsed(stream)))
  {
    var kept: seq<Event> := [];
    for k := 0 to |stream|
      invariant CollapseOnto(kept, stream[k..]) == Collapsed(stream)
    {
      var event := stream[k];
      DropDrop(stream, k, 1);
      assert stream[k..][0] == event;
      if kept != [] && IsUpdate(kept[|kept| - 1]) && IsUpdate(event)
         && Get(kept[|kept| - 1], "assistantMessageEvent") == Get(event, "assistantMessageEvent") {
        continue;
      }
      kept := kept + [event];
    }
    events := FloatCheckpointAgentEnd(kept);
  }

  lemma NotRefinement(e: Event)
    requires IsAgentEnd(e) || IsTurnEnd(e)
    ensures !IsRefinement(e) && !IsMessage(e)
  {
  }

  /** At most one index qualifies. */
  lemma OneQualifies(events: seq<Event>, i: nat, j: nat)
    requires Qualifies(events, i) && Qualifies(events, j)
    ensures i == j
  {
    NotRefinement(events[i]);
    NotRefinement(events[j]);
  }

  lemma MovedPermutes(events: seq<Event>, i: nat)
    requires i < |events|
    ensures multiset(Moved(events, i)) == multiset(events)
  {
    assert events == events[..i] + [events[i]] + events[i + 1..];
  }

  /** The result is a permutation: where some index qualifies, that one `agent_end` goes to the
      tail and all other events keep their order; otherwise nothing changes. */
  lemma HoistPermutes(events: seq<Event>)
    ensures multiset(Hoisted(events)) == multiset(events)
    ensures forall i: nat | Qualifies(events, i) :: Hoisted(events) == Moved(events, i)
    ensures (forall i: nat :: !Qualifies(events, i)) ==> Hoisted(events) == events
  {
    var i := FirstQualifying(events, 0);
    if i.Some? {
      MovedPermutes(events, i.value);
      forall j: nat | Qualifies(events, j)
        ensures j == i.value
      {
        OneQualifies(events, i.value, j);
      }
    }
  }

  /** After the hoist nothing qualifies any more. */
  lemma HoistedIsStable(events: seq<Event>)
    ensures Hoisted(Hoisted(events)) == Hoisted(events)
  {
    HoistPermutes(events);
    var i := FirstQualifying(events, 0);
    if i.Some? {
      var out := Hoisted(events);
      NotRefinement(events[i.value]);
      assert out[|out| - 1] == events[i.value];
      assert forall j: nat :: !Qualifies(out, j);
    }
  }

  lemma BothMoved(f: seq<Event>, g: seq<Event>, i: nat, j: nat)
    requires Qualifies(f, i) && Qualifies(g, j)
    requires Moved(f, i) == Moved(g, j)
    ensures i >= j
    ensures i == j ==> f == g
  {
    var out := Moved(f, i);
    NotRefinement(g[j - 1]);
    assert out[j - 1] == g[j - 1];
    assert forall m | i <= m < |f| - 1 :: out[m] == f[m + 1];
    if i == j {
      assert f == out[..i] + [out[|out| - 1]] + out[i..|out| - 1];
      assert g == out[..i] + [out[|out| - 1]] + out[i..|out| - 1];
    }
  }

  /** `g` is `f` with its qualifying `agent_end` moved behind the refinement events. */
  predicate MovesTo(f: seq<Event>, g: seq<Event>) {
    exists i | 0 <= i < |f| :: Qualifies(f, i) && g == Moved(f, i)
  }

  lemma HoistedMoves(f: seq<Event>, g: seq<Event>)
    ensures MovesTo(f, g) <==> FirstQualifying(f, 0).Some? && g == Hoisted(f)
  {
    forall i | 0 <= i < |f| && Qualifies(f, i)
      ensures Hoisted(f) == Moved(f, i)
    {
      HoistPermutes(f);
    }
  }

  /** Exactly which streams hoist alike: equal ones, and two of which one is the other with its
      `agent_end` moved. */
  lemma EqualHoists(f: seq<Event>, g: seq<Event>)
    ensures Hoisted(f) == Hoisted(g) <==> f == g || MovesTo(f, g) || MovesTo(g, f)
  {
    HoistedIsStable(f);
    HoistedIsStable(g);
    HoistedMoves(f, g);
    HoistedMoves(g, f);
    var i, j := FirstQualifying(f, 0), FirstQualifying(g, 0);
    if Hoisted(f) == Hoisted(g) && i.Some? && j.Some? {
      BothMoved(f, g, i.value, j.value);
      BothMoved(g, f, j.value, i.value);
    }
  }

  /** Exactly which streams normalize alike, read off the events that open a run: the same
      ones, up to where that one `agent_end` stands. */
  lemma EqualStreams(f: seq<Event>, g: seq<Event>)
    ensures Hoisted(Collapsed(f)) == Hoisted(Collapsed(g))
            <==> || Heads(None, f) == Heads(None, g)
                 || MovesTo(Heads(None, f), Heads(None, g))
                 || MovesTo(Heads(None, g), Heads(None, f))
  {
    CollapsedIsHeads(f);
    CollapsedIsHeads(g);
    EqualHoists(Collapsed(f), Collapsed(g));
  }

  lemma CollapsedIsHeads(stream: seq<Event>)
    ensures Collapsed(stream) == Heads(None, stream)
  {
    CollapseIsHeads([], stream);
    assert [] + Heads(None, stream) == Heads(None, stream);
  }

  // ----- both steps, read off the events

  /** An event that shows the same delta as the one right in front of it in the stream. */
  predicate Repeats(stream: seq<Event>, k: nat) {
    && 0 < k < |stream|
    && Get(stream[k - 1], "type") == Str("message_update") && Get(stream[k], "type") == Str("message_update")
    && Get(stream[k - 1], "assistantMessageEvent") == Get(stream[k], "assistantMessageEvent")
  }

  lemma LastHead(before: Option<Event>, last: Event)
    ensures Heads(before, [last]) == if before.Some? && SameRun(before.value, last) then [] else [last]
  {
    assert [last][1..] == [];
    assert Heads(Some(last), []) == [];
  }

  lemma RepeatsIff(front: seq<Event>, last: Event)
    ensures Repeats(front + [last], |front|) <==> front != [] && SameRun(front[|front| - 1], last)
  {
  }

  lemma HeadsSnoc(front: seq<Event>, last: Event)
    ensures Heads(None, front + [last])
            == Heads(None, front) + if !Repeats(front + [last], |front|) then [last] else []
  {
    HeadsCat(None, front, [last]);
    LastHead(if front == [] then None else Some(front[|front| - 1]), last);
    RepeatsIff(front, last);
  }

  /** The collapse drops exactly the events that repeat their direct predecessor in the stream,
      and keeps all others in order: any change of the delta is kept. */
  lemma {:induction false} KeptExactly(stream: seq<Event>) returns (at: seq<nat>)
    ensures Picks(stream, at, Collapsed(stream))
    ensures forall k: nat :: k in at <==> k < |stream| && !Repeats(stream, k)
  {
    CollapsedIsHeads(stream);
    if stream == [] {
      at := [];
    } else {
      var front, last := stream[..|stream| - 1], stream[|stream| - 1];
      assert stream == front + [last];
      HeadsSnoc(front, last);
      CollapsedIsHeads(front);
      var before := KeptExactly(front);
      at := PickNext(front, before, Heads(None, front), last, !Repeats(stream, |front|));
      assert forall k: nat | k < |front| :: Repeats(stream, k) <==> Repeats(front, k);
    }
  }

  /** An event of the checkpoint's refinement: a terminal one, or one of its message pairs. */
  predicate Refines(e: Event) {
    || Get(e, "type") == Str("refine_complete") || Get(e, "type") == Str("refine_failed")
    || ((Get(e, "type") == Str("message_start") || Get(e, "type") == Str("message_end"))
        && (Get(Get(e, "message"), "customType") == Str("refinement_outcome")
            || Get(Get(e, "message"), "customType") == Str("refinement_notice")))
  }

  /** An `agent_end` between a `turn_end` and nothing but refinement events, at least one. */
  predicate Hoistable(events: seq<Event>, i: nat) {
    && 0 < i < |events| - 1
    && Get(events[i - 1], "type") == Str("turn_end") && Get(events[i], "type") == Str("agent_end")
    && forall j | i < j < |events| :: Refines(events[j])
  }

  lemma HoistableIff(events: seq<Event>, i: nat)
    ensures Hoistable(events, i) <==> Qualifies(events, i)
  {
    assert forall j | i < j < |events| :: Refines(events[j]) <==> IsRefinement(events[j]);
  }

  /** What the hoist does, on every stream: the one such event goes to the tail. */
  lemma HoistExactly(events: seq<Event>)
    ensures forall i: nat | Hoistable(events, i) :: Hoisted(events) == events[..i] + events[i + 1..] + [events[i]]
    ensures (forall i: nat :: !Hoistable(events, i)) ==> Hoisted(events) == events
  {
    HoistPermutes(events);
    forall i: nat
      ensures Hoistable(events, i) <==> Qualifies(events, i)
    {
      HoistableIff(events, i);
    }
  }

  /** Behind a `turn_end`, an `agent_end` and refinement events only: a message event with a
      message that is no object. */
  predicate NoObjectAt(events: seq<Event>, i: nat, j: nat) {
    && 0 < i < j < |events|
    && Get(events[i - 1], "type") == Str("turn_end") && Get(events[i], "type") == Str("agent_end")
    && (forall k | i < k < j :: Refines(events[k]))
    && (Get(events[j], "type") == Str("message_start") || Get(events[j], "type") == Str("message_end"))
    && !ObjectOrAbsent(events[j], "message")
  }

  /** That is when the hoist raises. */
  lemma RaisesExactly(events: seq<Event>)
    ensures Raises(events) <==> exists i: nat, j: nat :: NoObjectAt(events, i, j)
  {
    forall i: nat, j: nat | 0 < i < j < |events|
      ensures RaisesAt(events, i, j) <==> NoObjectAt(events, i, j)
    {
      assert forall k | i < k < j :: Refines(events[k]) <==> IsRefinement(events[k]);
    }
  }
}
