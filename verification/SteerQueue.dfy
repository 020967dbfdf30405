/** The trace comparison of scripts/steer_queue_parity.py: frames are collapsed first and split
    into queue projections and run frames afterwards. The field shaping of one event is a
    parameter. */
module SteerQueue {
  import opened Text
  import opened Json

  // ----- collapsing and filtering, over any kind of frame

  function Push<T(==)>(kept: seq<T>, x: T): seq<T> {
    if kept != [] && kept[|kept| - 1] == x then kept else kept + [x]
  }

  /** `xs` without the frames equal to the one kept before them. */
  function Dedup<T(==)>(xs: seq<T>): seq<T> {
    if xs == [] then [] else Push(Dedup(xs[..|xs| - 1]), xs[|xs| - 1])
  }

  function Filter<T>(xs: seq<T>, p: T -> bool): (ys: seq<T>)
    ensures forall k | 0 <= k < |ys| :: p(ys[k])
  {
    if xs == [] then []
    else Filter(xs[..|xs| - 1], p) + (if p(xs[|xs| - 1]) then [xs[|xs| - 1]] else [])
  }

  function Not<T>(p: T -> bool): T -> bool { x => !p(x) }

  predicate NoStutter<T(==)>(xs: seq<T>) { forall k | 0 < k < |xs| :: xs[k - 1] != xs[k] }

  lemma {:induction false} LastKept<T>(xs: seq<T>)
    ensures xs == [] <==> Dedup(xs) == []
    ensures xs != [] ==> Dedup(xs)[|Dedup(xs)| - 1] == xs[|xs| - 1]
  {
    if xs != [] {
      LastKept(xs[..|xs| - 1]);
    }
  }

  lemma {:induction false} DedupLeavesNone<T>(xs: seq<T>)
    ensures NoStutter(Dedup(xs))
  {
    if xs != [] {
      DedupLeavesNone(xs[..|xs| - 1]);
    }
  }

  lemma {:induction false} DedupOfDistinct<T>(xs: seq<T>)
    requires NoStutter(xs)
    ensures Dedup(xs) == xs
  {
    if xs != [] {
      var front := xs[..|xs| - 1];
      DedupOfDistinct(front);
      assert xs == front + [xs[|xs| - 1]];
      if front != [] {
        assert xs[|xs| - 2] != xs[|xs| - 1];
      }
    }
  }

  lemma FilterSnoc<T>(xs: seq<T>, x: T, p: T -> bool)
    ensures Filter(xs + [x], p) == if p(x) then Filter(xs, p) + [x] else Filter(xs, p)
  {
    assert (xs + [x])[..|xs|] == xs;
  }

  lemma FilterCatStep<T>(xs: seq<T>, front: seq<T>, last: T, p: T -> bool)
    requires Filter(xs + front, p) == Filter(xs, p) + Filter(front, p)
    ensures Filter(xs + (front + [last]), p) == Filter(xs, p) + Filter(front + [last], p)
  {
    FilterSnoc(xs + front, last, p);
    FilterSnoc(front, last, p);
    CatAssociates(xs, front, [last]);
    CatAssociates(Filter(xs, p), Filter(front, p), [last]);
  }

  lemma {:induction false} FilterCat<T>(xs: seq<T>, ys: seq<T>, p: T -> bool)
    ensures Filter(xs + ys, p) == Filter(xs, p) + Filter(ys, p)
  {
    if ys == [] {
      assert xs + ys == xs;
    } else {
      var front, last := ys[..|ys| - 1], ys[|ys| - 1];
      FilterCat(xs, front, p);
      FilterCatStep(xs, front, last, p);
      assert ys == front + [last];
    }
  }

  lemma DedupSnoc<T>(xs: seq<T>, x: T)
    ensures Dedup(xs + [x]) == Push(Dedup(xs), x)
  {
    assert (xs + [x])[..|xs|] == xs;
  }

  lemma LastOfFilter<T>(xs: seq<T>, p: T -> bool)
    requires xs != [] && p(xs[|xs| - 1])
    ensures Filter(xs, p) != [] && Filter(xs, p)[|Filter(xs, p)| - 1] == xs[|xs| - 1]
  {
  }

  /** Collapsing before a filter adds nothing to collapsing after it. */
  lemma {:induction false} DedupFilterDedup<T>(xs: seq<T>, p: T -> bool)
    ensures Dedup(Filter(Dedup(xs), p)) == Dedup(Filter(xs, p))
  {
    if xs != [] {
      var front, x := xs[..|xs| - 1], xs[|xs| - 1];
      DedupFilterDedup(front, p);
      LastKept(front);
      assert xs == front + [x];
      FilterSnoc(front, x, p);
      FilterSnoc(Dedup(front), x, p);
      DedupSnoc(Filter(front, p), x);
      DedupSnoc(Filter(Dedup(front), p), x);
      if front != [] && front[|front| - 1] == x && p(x) {
        LastOfFilter(front, p);
        LastKept(Filter(front, p));
      }
    }
  }

  // ----- the comparison

  /** Do the two traces match, projections against projections and runs against runs? */
  predicate Matches<T(==)>(xs: seq<T>, ys: seq<T>, projection: T -> bool) {
    && Filter(Dedup(xs), projection) == Filter(Dedup(ys), projection)
    && Filter(Dedup(xs), Not(projection)) == Filter(Dedup(ys), Not(projection))
  }

  /** `xs` is some interleaving of the projections `ps` and the run frames `rs`. */
  predicate Interleaves<T(==)>(xs: seq<T>, ps: seq<T>, rs: seq<T>, projection: T -> bool) {
    Filter(xs, projection) == ps && Filter(xs, Not(projection)) == rs
  }

  predicate AllOf<T>(xs: seq<T>, p: T -> bool) { forall k | 0 <= k < |xs| :: p(xs[k]) }

  lemma {:induction false} FilterAll<T>(xs: seq<T>, p: T -> bool)
    requires AllOf(xs, p)
    ensures Filter(xs, p) == xs
  {
    if xs != [] {
      FilterAll(xs[..|xs| - 1], p);
      assert xs == xs[..|xs| - 1] + [xs[|xs| - 1]];
    }
  }

  lemma {:induction false} FilterNone<T>(xs: seq<T>, p: T -> bool)
    requires forall k | 0 <= k < |xs| :: !p(xs[k])
    ensures Filter(xs, p) == []
  {
    if xs != [] {
      FilterNone(xs[..|xs| - 1], p);
    }
  }

  lemma NoStutterSnoc<T>(xs: seq<T>, x: T)
    ensures NoStutter(xs + [x]) <==> NoStutter(xs) && (xs == [] || xs[|xs| - 1] != x)
  {
    var all := xs + [x];
    assert forall k | 0 <= k < |xs| :: all[k] == xs[k];
    if NoStutter(all) && xs != [] {
      assert all[|xs| - 1] != all[|xs|];
    }
  }

  /** One frame more: if its half stays without repeats, it differs from the frame before. */
  lemma NextDiffers<T>(front: seq<T>, x: T, p: T -> bool)
    requires front != [] && p(x) && NoStutter(Filter(front, p) + [x])
    ensures front[|front| - 1] != x
  {
    if p(front[|front| - 1]) {
      LastOfFilter(front, p);
      NoStutterSnoc(Filter(front, p), x);
    }
  }

  /** An equal adjacent pair in a trace is an equal adjacent pair of one of its halves. */
  lemma {:induction false} RepeatShowsInHalf<T>(xs: seq<T>, p: T -> bool)
    requires NoStutter(Filter(xs, p)) && NoStutter(Filter(xs, Not(p)))
    ensures NoStutter(xs)
  {
    if xs != [] {
      var front, x := xs[..|xs| - 1], xs[|xs| - 1];
      assert xs == front + [x];
      FilterSnoc(front, x, p);
      FilterSnoc(front, x, Not(p));
      NoStutterSnoc(Filter(front, p), x);
      NoStutterSnoc(Filter(front, Not(p)), x);
      RepeatShowsInHalf(front, p);
      NoStutterSnoc(front, x);
      if front != [] {
        if p(x) {
          NextDiffers(front, x, p);
        } else {
          NextDiffers(front, x, Not(p));
        }
      }
    }
  }

  /** If neither half repeats itself, every interleaving compares as the halves themselves. */
  lemma DistinctHalvesMatch<T>(xs: seq<T>, ps: seq<T>, rs: seq<T>, projection: T -> bool)
    requires Interleaves(xs, ps, rs, projection) && NoStutter(ps) && NoStutter(rs)
    ensures Filter(Dedup(xs), projection) == ps && Filter(Dedup(xs), Not(projection)) == rs
  {
    RepeatShowsInHalf(xs, projection);
    DedupOfDistinct(xs);
  }

  // ----- when the order of the halves shows

  /** Collapsing distributes over a seam between different frames. */
  lemma PushCat<T>(xs: seq<T>, ys: seq<T>, x: T)
    requires ys != [] || xs == [] || xs[|xs| - 1] != x
    ensures Push(xs + ys, x) == xs + Push(ys, x)
  {
    if ys == [] {
      CatEmpty(xs);
    } else {
      CatAssociates(xs, ys, [x]);
    }
  }

  lemma EndsApart<T>(a: seq<T>, front: seq<T>, last: T)
    requires front != [] || a == [] || a[|a| - 1] != last
    ensures Dedup(front) != [] || Dedup(a) == [] || Dedup(a)[|Dedup(a)| - 1] != last
  {
    LastKept(a);
    LastKept(front);
  }

  lemma AcrossStep<T>(a: seq<T>, front: seq<T>, last: T)
    requires Dedup(a + front) == Dedup(a) + Dedup(front)
    requires front != [] || a == [] || a[|a| - 1] != last
    ensures Dedup(a + (front + [last])) == Dedup(a) + Dedup(front + [last])
  {
    CatAssociates(a, front, [last]);
    DedupSnoc(a + front, last);
    DedupSnoc(front, last);
    EndsApart(a, front, last);
    PushCat(Dedup(a), Dedup(front), last);
  }

  lemma {:induction false} DedupAcross<T>(a: seq<T>, b: seq<T>)
    requires a != [] && b != [] ==> a[|a| - 1] != b[0]
    ensures Dedup(a + b) == Dedup(a) + Dedup(b)
  {
    if b == [] {
      assert a + b == a;
    } else {
      var front, last := b[..|b| - 1], b[|b| - 1];
      DedupAcross(a, front);
      AcrossStep(a, front, last);
      assert b == front + [last];
    }
  }

  /** Cutting at a repeat keeps one frame more. */
  lemma PushLength<T>(xs: seq<T>, x: T)
    ensures |Dedup(xs + [x])| == |Dedup(xs)| + if xs != [] && xs[|xs| - 1] == x then 0 else 1
  {
    DedupSnoc(xs, x);
    LastKept(xs);
  }

  lemma {:induction false} DedupAtRepeat<T>(a: seq<T>, b: seq<T>)
    requires a != [] && b != [] && a[|a| - 1] == b[0]
    ensures |Dedup(a + b)| + 1 == |Dedup(a)| + |Dedup(b)|
  {
    var front, last := b[..|b| - 1], b[|b| - 1];
    CatAssociates(a, front, [last]);
    assert b == front + [last];
    PushLength(a + front, last);
    PushLength(front, last);
    if front == [] {
      assert a + front == a;
      assert Dedup(front) == [];
    } else {
      DedupAtRepeat(a, front);
    }
  }

  lemma {:induction false} DedupKeepsHalf<T>(xs: seq<T>, p: T -> bool)
    ensures AllOf(xs, p) ==> AllOf(Dedup(xs), p)
  {
    if xs != [] {
      DedupKeepsHalf(xs[..|xs| - 1], p);
    }
  }

  /** A half followed by the other half collapses to itself. */
  lemma HalfThenOther<T>(a: seq<T>, other: seq<T>, p: T -> bool)
    requires a != [] && other != [] && AllOf(a, p) && AllOf(other, Not(p))
    ensures Dedup(a + other) == Dedup(a) + Dedup(other)
    ensures Filter(Dedup(a + other), p) == Dedup(a)
  {
    assert p(a[|a| - 1]) && Not(p)(other[0]);
    DedupKeepsHalf(a, p);
    DedupKeepsHalf(other, Not(p));
    FilterAll(Dedup(a), p);
    assert forall k | 0 <= k < |Dedup(other)| :: Not(p)(Dedup(other)[k]);
    FilterNone(Dedup(other), p);
    DedupAcross(a, other);
    FilterCat(Dedup(a), Dedup(other), p);
  }

  /** With the other half in a gap of the first, both parts collapse on their own. */
  lemma OtherInGap<T>(a: seq<T>, b: seq<T>, other: seq<T>, p: T -> bool)
    requires a != [] && b != [] && other != []
    requires AllOf(a, p) && AllOf(b, p) && AllOf(other, Not(p))
    ensures Filter(Dedup(a + other + b), p) == Dedup(a) + Dedup(b)
  {
    HalfThenOther(a, other, p);
    DedupKeepsHalf(b, p);
    FilterAll(Dedup(b), p);
    assert (a + other)[|a + other| - 1] == other[|other| - 1];
    assert p(b[0]) && Not(p)(other[|other| - 1]);
    DedupAcross(a + other, b);
    FilterCat(Dedup(a + other), Dedup(b), p);
  }

  /** A repeating half compares differently with the other half behind it and in its gap. */
  lemma GapShows<T>(a: seq<T>, b: seq<T>, other: seq<T>, p: T -> bool)
    requires a != [] && b != [] && other != [] && a[|a| - 1] == b[0]
    requires AllOf(a + b, p) && AllOf(a, p) && AllOf(b, p) && AllOf(other, Not(p))
    ensures Filter(Dedup(a + b + other), p) != Filter(Dedup(a + other + b), p)
  {
    HalfThenOther(a + b, other, p);
    OtherInGap(a, b, other, p);
    DedupAtRepeat(a, b);
  }

  lemma {:induction false} HalvesOf<T>(a: seq<T>, p: T -> bool)
    requires AllOf(a, p)
    ensures Filter(a, p) == a && Filter(a, Not(p)) == []
  {
    FilterAll(a, p);
    FilterNone(a, Not(p));
  }

  lemma HalvesOfOther<T>(other: seq<T>, p: T -> bool)
    requires AllOf(other, Not(p))
    ensures Filter(other, p) == [] && Filter(other, Not(p)) == other
  {
    FilterAll(other, Not(p));
    assert forall k | 0 <= k < |other| :: Not(p)(other[k]);
    FilterNone(other, p);
  }

  lemma GapInterleaves<T>(a: seq<T>, b: seq<T>, other: seq<T>, p: T -> bool)
    requires AllOf(a, p) && AllOf(b, p) && AllOf(other, Not(p))
    ensures Interleaves(a + b + other, a + b, other, p)
    ensures Interleaves(a + other + b, a + b, other, p)
  {
    HalvesOf(a, p);
    HalvesOf(b, p);
    HalvesOfOther(other, p);
    KeepsEnds(a, b, other, p);
    KeepsMiddle(a, b, other, Not(p));
  }

  lemma KeepsEnds<T>(a: seq<T>, b: seq<T>, other: seq<T>, p: T -> bool)
    requires Filter(a, p) == a && Filter(b, p) == b && Filter(other, p) == []
    ensures Filter(a + b + other, p) == a + b
    ensures Filter(a + other + b, p) == a + b
  {
    FilterCat(a + b, other, p);
    FilterCat(a, b, p);
    CatEmpty(a + b);
    FilterCat(a + other, b, p);
    FilterCat(a, other, p);
    CatEmpty(a);
  }

  lemma KeepsMiddle<T>(a: seq<T>, b: seq<T>, other: seq<T>, p: T -> bool)
    requires Filter(a, p) == [] && Filter(b, p) == [] && Filter(other, p) == other
    ensures Filter(a + b + other, p) == other
    ensures Filter(a + other + b, p) == other
  {
    FilterCat(a + b, other, p);
    FilterCat(a, b, p);
    FilterCat(a + other, b, p);
    FilterCat(a, other, p);
    CatEmpty(other);
  }

  /** The comparison is blind to how the two halves interleave. */
  ghost predicate OrderBlind<T(!new)>(ps: seq<T>, rs: seq<T>, projection: T -> bool) {
    forall xs, ys | Interleaves(xs, ps, rs, projection) && Interleaves(ys, ps, rs, projection) ::
      Matches(xs, ys, projection)
  }

  lemma TwoOrdersDiffer<T(!new)>(ps: seq<T>, rs: seq<T>, projection: T -> bool, xs: seq<T>, ys: seq<T>)
    requires Interleaves(xs, ps, rs, projection) && Interleaves(ys, ps, rs, projection)
    requires !Matches(xs, ys, projection)
    ensures !OrderBlind(ps, rs, projection)
  {
  }

  lemma CutAtRepeat<T>(xs: seq<T>) returns (a: seq<T>, b: seq<T>)
    requires !NoStutter(xs)
    ensures a + b == xs && a != [] && b != [] && a[|a| - 1] == b[0]
  {
    var k :| 0 < k < |xs| && xs[k - 1] == xs[k];
    a, b := xs[..k], xs[k..];
  }

  lemma PartsOfHalf<T>(a: seq<T>, b: seq<T>, p: T -> bool)
    requires AllOf(a + b, p)
    ensures AllOf(a, p) && AllOf(b, p)
  {
    assert forall k | 0 <= k < |a| :: (a + b)[k] == a[k];
    assert forall k | 0 <= k < |b| :: (a + b)[|a| + k] == b[k];
  }

  lemma RepeatingHalfIsNotBlind<T(!new)>(ps: seq<T>, rs: seq<T>, projection: T -> bool)
    requires AllOf(ps, projection) && AllOf(rs, Not(projection))
    requires !NoStutter(ps) && rs != []
    ensures !OrderBlind(ps, rs, projection)
  {
    var a, b := CutAtRepeat(ps);
    PartsOfHalf(a, b, projection);
    GapShows(a, b, rs, projection);
    GapInterleaves(a, b, rs, projection);
    TwoOrdersDiffer(ps, rs, projection, a + b + rs, a + rs + b);
  }

  lemma RepeatingRunsAreNotBlind<T(!new)>(ps: seq<T>, rs: seq<T>, projection: T -> bool)
    requires AllOf(ps, projection) && AllOf(rs, Not(projection))
    requires !NoStutter(rs) && ps != []
    ensures !OrderBlind(ps, rs, projection)
  {
    var a, b := CutAtRepeat(rs);
    PartsOfHalf(a, b, Not(projection));
    TwiceNot(ps, projection);
    GapShows(a, b, ps, Not(projection));
    SwappedInterleaves(a, b, ps, projection);
    TwoOrdersDiffer(ps, rs, projection, a + b + ps, a + ps + b);
  }

  lemma TwiceNot<T>(xs: seq<T>, p: T -> bool)
    requires AllOf(xs, p)
    ensures AllOf(xs, Not(Not(p)))
  {
    forall k | 0 <= k < |xs|
      ensures Not(Not(p))(xs[k])
    {
      assert p(xs[k]);
    }
  }

  lemma SwappedInterleaves<T>(a: seq<T>, b: seq<T>, other: seq<T>, p: T -> bool)
    requires AllOf(a, Not(p)) && AllOf(b, Not(p)) && AllOf(other, p)
    ensures Interleaves(a + b + other, other, a + b, p)
    ensures Interleaves(a + other + b, other, a + b, p)
  {
    HalvesOfOther(a, p);
    HalvesOfOther(b, p);
    HalvesOf(other, p);
    KeepsEnds(a, b, other, Not(p));
    KeepsMiddle(a, b, other, p);
  }

  lemma {:induction false} OnlyOneHalf<T>(xs: seq<T>, p: T -> bool)
    requires Filter(xs, Not(p)) == []
    ensures Filter(xs, p) == xs
  {
    if xs != [] {
      var front, x := xs[..|xs| - 1], xs[|xs| - 1];
      assert xs == front + [x];
      FilterSnoc(front, x, p);
      FilterSnoc(front, x, Not(p));
      OnlyOneHalf(front, p);
    }
  }

  lemma {:induction false} OnlyOtherHalf<T>(xs: seq<T>, p: T -> bool)
    requires Filter(xs, p) == []
    ensures Filter(xs, Not(p)) == xs
  {
    if xs != [] {
      var front, x := xs[..|xs| - 1], xs[|xs| - 1];
      assert xs == front + [x];
      FilterSnoc(front, x, p);
      FilterSnoc(front, x, Not(p));
      OnlyOtherHalf(front, p);
    }
  }

  /** Exactly when the comparison does not depend on the interleaving: when neither half repeats
      a frame next to itself, or one of the halves is empty. */
  lemma OrderBlindIff<T(!new)>(ps: seq<T>, rs: seq<T>, projection: T -> bool)
    requires AllOf(ps, projection) && AllOf(rs, Not(projection))
    ensures OrderBlind(ps, rs, projection)
            <==> (NoStutter(ps) && NoStutter(rs)) || ps == [] || rs == []
  {
    if ps != [] && rs != [] && !NoStutter(ps) {
      RepeatingHalfIsNotBlind(ps, rs, projection);
    } else if ps != [] && rs != [] && !NoStutter(rs) {
      RepeatingRunsAreNotBlind(ps, rs, projection);
    } else {
      forall xs, ys | Interleaves(xs, ps, rs, projection) && Interleaves(ys, ps, rs, projection)
        ensures Matches(xs, ys, projection)
      {
        BlindPair(xs, ys, ps, rs, projection);
      }
    }
  }

  lemma BlindPair<T>(xs: seq<T>, ys: seq<T>, ps: seq<T>, rs: seq<T>, projection: T -> bool)
    requires Interleaves(xs, ps, rs, projection) && Interleaves(ys, ps, rs, projection)
    requires (NoStutter(ps) && NoStutter(rs)) || ps == [] || rs == []
    ensures Matches(xs, ys, projection)
  {
    if rs == [] {
      OnlyOneHalf(xs, projection);
      OnlyOneHalf(ys, projection);
    } else if ps == [] {
      OnlyOtherHalf(xs, projection);
      OnlyOtherHalf(ys, projection);
    } else {
      DistinctHalvesMatch(xs, ps, rs, projection);
      DistinctHalvesMatch(ys, ps, rs, projection);
    }
  }

  // ----- the script's own filters and loops

  const COMPARED_TYPES: set<string> := {
    "agent_start", "agent_end", "turn_start", "turn_end", "message_start", "message_end",
    "message_update", "tool_execution_start", "tool_execution_end", "session_action_update"}

  type Shape = Json -> Json

  /** Python truth of a value. */
  predicate Truthy(j: Json) {
    match j
    case Null => false
    case Bool(b) => b
    case Num(n) => n != 0
    case Str(s) => s != ""
    case Arr(items) => items != []
    case Obj(fields) => fields != map[]
  }

  predicate Compared(event: Json) { Get(event, "type").Str? && Get(event, "type").s in COMPARED_TYPES }

  predicate KeptFrame(frame: Json) {
    && Get(frame, "type") != Str("message_update")
    && Get(frame, "role") != Str("custom")
    && !Truthy(Get(frame, "customType"))
  }

  predicate IsProjection(frame: Json) { Get(frame, "type") == Str("session_action_update") }

  function Shaped(events: seq<Json>, shape: Shape): (frames: seq<Json>)
    ensures |frames| == |events|
    ensures forall k | 0 <= k < |events| :: frames[k] == shape(events[k])
  {
    seq(|events|, k requires 0 <= k < |events| => shape(events[k]))
  }

  function Surface(raw: seq<Json>, shape: Shape): seq<Json> {
    Filter(Shaped(Filter(raw, Compared), shape), KeptFrame)
  }

  lemma SurfaceSnoc(raw: seq<Json>, event: Json, shape: Shape)
    ensures Surface(raw + [event], shape)
            == Surface(raw, shape) + (if Compared(event) && KeptFrame(shape(event)) then [shape(event)] else [])
  {
    FilterSnoc(raw, event, Compared);
    var front := Filter(raw, Compared);
    if Compared(event) {
      assert Shaped(front + [event], shape) == Shaped(front, shape) + [shape(event)];
      FilterSnoc(Shaped(front, shape), shape(event), KeptFrame);
    } else {
      CatEmpty(front);
    }
  }

  method Norm(raw: seq<Json>, shape: Shape) returns (collapsed: seq<Json>)
    ensures collapsed == Dedup(Surface(raw, shape))
  {
    var out: seq<Json> := [];
    for k := 0 to |raw|
      invariant out == Surface(raw[..k], shape)
    {
      var event := raw[k];
      assert raw[..k + 1] == raw[..k] + [event];
      SurfaceSnoc(raw[..k], event, shape);
      if !Compared(event) {
        continue;
      }
      var frame := shape(event);
      if Get(frame, "type") == Str("message_update") {
        continue;
      }
      if Get(frame, "role") == Str("custom") || Truthy(Get(frame, "customType")) {
        continue;
      }
      out := out + [frame];
    }
    assert raw[..|raw|] == raw;
    collapsed := [];
    for k := 0 to |out|
      invariant collapsed == Dedup(out[..k])
    {
      assert out[..k + 1][..k] == out[..k];
      if collapsed != [] && collapsed[|collapsed| - 1] == out[k] {
        continue;
      }
      collapsed := collapsed + [out[k]];
    }
    assert out[..|out|] == out;
  }

  method RunDiff(ts: seq<Json>, rust: seq<Json>, shape: Shape) returns (matches: bool)
    ensures matches == Matches(Surface(ts, shape), Surface(rust, shape), IsProjection)
  {
    var tsFrames := Norm(ts, shape);
    var rustFrames := Norm(rust, shape);
    var runs := Not(IsProjection);
    matches := Filter(tsFrames, IsProjection) == Filter(rustFrames, IsProjection)
               && Filter(tsFrames, runs) == Filter(rustFrames, runs);
  }

  /** Two compared surfaces with the same projections and the same run frames match however
      they interleave, when no projection and no run frame directly repeats in its own sequence. */
  lemma SameHalvesMatch(ts: seq<Json>, rust: seq<Json>, ps: seq<Json>, rs: seq<Json>)
    requires Interleaves(ts, ps, rs, IsProjection) && Interleaves(rust, ps, rs, IsProjection)
    requires NoStutter(ps) && NoStutter(rs)
    ensures Matches(ts, rust, IsProjection)
  {
    BlindPair(ts, rust, ps, rs, IsProjection);
  }

  // ----- the compared surface, read off the events

  predicate OneOf(j: Json, words: seq<string>) { exists k | 0 <= k < |words| :: j == Str(words[k]) }

  /** An event of the queue and abort surface: one of the compared types, and when shaped no update, no
      custom role and no custom type. */
  predicate OnSurface(event: Json, frame: Json) {
    && OneOf(Get(event, "type"), [
         "agent_start", "agent_end", "turn_start", "turn_end", "message_start", "message_end",
         "message_update", "tool_execution_start", "tool_execution_end", "session_action_update"])
    && Get(frame, "type") != Str("message_update")
    && Get(frame, "role") != Str("custom")
    && (var c := Get(frame, "customType");
        c == Null || c == Bool(false) || c == Num(0) || c == Str("") || c == Arr([]) || c == Obj(map[]))
  }

  lemma OnSurfaceIff(event: Json, frame: Json)
    ensures OnSurface(event, frame) <==> Compared(event) && KeptFrame(frame)
  {
    var words := ["agent_start", "agent_end", "turn_start", "turn_end", "message_start", "message_end",
                  "message_update", "tool_execution_start", "tool_execution_end", "session_action_update"];
    assert forall w :: w in COMPARED_TYPES <==> w in words;
    var t := Get(event, "type");
    if Compared(event) {
      var k :| 0 <= k < |words| && words[k] == t.s;
      assert t == Str(words[k]);
    }
  }

  /** The surface is exactly the shaped frames of these events, in order. */
  lemma {:induction false} SurfaceExactly(raw: seq<Json>, shape: Shape) returns (at: seq<nat>)
    ensures Picks(Shaped(raw, shape), at, Surface(raw, shape))
    ensures forall k: nat :: k in at <==> k < |raw| && OnSurface(raw[k], shape(raw[k]))
  {
    if raw == [] {
      at := [];
    } else {
      var front, last := raw[..|raw| - 1], raw[|raw| - 1];
      assert raw == front + [last];
      SurfaceSnoc(front, last, shape);
      OnSurfaceIff(last, shape(last));
      var before := SurfaceExactly(front, shape);
      at := PickNext(Shaped(front, shape), before, Surface(front, shape), shape(last), OnSurface(last, shape(last)));
      assert Shaped(raw, shape) == Shaped(front, shape) + [shape(last)];
    }
  }

  /** A frame that differs from the one right in front of it. */
  predicate Differs<T(==)>(xs: seq<T>, k: nat) { k < |xs| && (k == 0 || xs[k] != xs[k - 1]) }

  lemma DedupLast<T>(front: seq<T>, last: T)
    ensures Dedup(front + [last]) == Dedup(front) + if Differs(front + [last], |front|) then [last] else []
  {
    DedupSnoc(front, last);
    LastKept(front);
    CatEmpty(Dedup(front));
  }

  /** Collapsing keeps exactly these, in order. */
  lemma {:induction false} DedupExactly<T>(xs: seq<T>) returns (at: seq<nat>)
    ensures Picks(xs, at, Dedup(xs))
    ensures forall k: nat :: k in at <==> Differs(xs, k)
  {
    if xs == [] {
      at := [];
    } else {
      var front, last := xs[..|xs| - 1], xs[|xs| - 1];
      assert xs == front + [last];
      DedupLast(front, last);
      var before := DedupExactly(front);
      at := PickNext(front, before, Dedup(front), last, Differs(xs, |front|));
      assert forall k: nat | k < |front| :: Differs(xs, k) <==> Differs(front, k);
    }
  }

  lemma FilterLast<T>(front: seq<T>, last: T, p: T -> bool)
    ensures Filter(front + [last], p) == Filter(front, p) + if p(last) then [last] else []
  {
    FilterSnoc(front, last, p);
  }

  lemma {:induction false} FilterExactly<T>(xs: seq<T>, p: T -> bool) returns (at: seq<nat>)
    ensures Picks(xs, at, Filter(xs, p))
    ensures forall k: nat :: k in at <==> k < |xs| && p(xs[k])
  {
    if xs == [] {
      at := [];
    } else {
      var front, last := xs[..|xs| - 1], xs[|xs| - 1];
      FilterLast(front, last, p);
      var before := FilterExactly(front, p);
      at := PickNext(front, before, Filter(front, p), last, p(last));
      assert xs == front + [last];
    }
  }

  /** The two halves that are compared: the queue projections, and everything else. */
  lemma HalvesExactly(frames: seq<Json>) returns (projections: seq<nat>, runs: seq<nat>)
    ensures Picks(frames, projections, Filter(frames, IsProjection))
    ensures Picks(frames, runs, Filter(frames, Not(IsProjection)))
    ensures forall k: nat ::
              k in projections <==> k < |frames| && Get(frames[k], "type") == Str("session_action_update")
    ensures forall k: nat :: k in runs <==> k < |frames| && Get(frames[k], "type") != Str("session_action_update")
  {
    projections := FilterExactly(frames, IsProjection);
    runs := FilterExactly(frames, Not(IsProjection));
  }
}
