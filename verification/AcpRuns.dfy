/** Which traces the normalizer of scripts/acp_compaction_parity.py makes equal, read off the
    traces themselves: as consecutive runs of frames, with no loop in sight. */
module AcpRuns {
  import opened Text
  import opened Json
  import opened AcpTrace

  // ----- the regrouping, without the loop

  /** Chunks of one message. */
  predicate OfMessage(segment: seq<Json>, chunk: Chunk)
    requires AllReadable(segment)
  {
    forall k | 0 <= k < |segment| ::
      IsChunk(segment[k]) && ChunkOf(segment[k]).kind == chunk.kind && ChunkOf(segment[k]).messageId == chunk.messageId
  }

  /** Their joined text; a lone chunk keeps its own, whatever it is. */
  function Sum(segment: seq<Json>): Json
    requires segment != []
  {
    if |segment| == 1 then TextOf(segment[0])
    else Plus(Sum(segment[..|segment| - 1]), TextOf(segment[|segment| - 1]))
  }

  /** The consecutive frames behind one entry: all chunks of one message, or one other frame. */
  predicate IsSegment(segment: seq<Json>, e: Entry)
    requires AllReadable(segment)
  {
    && segment != []
    && match e
       case Joined(chunk) => OfMessage(segment, chunk) && chunk.text == Sum(segment)
       case Frame(frame) => segment == [frame] && !IsChunk(frame)
  }

  /** The frames, cut into consecutive segments, are the entries. */
  ghost predicate Spells(frames: seq<Json>, entries: seq<Entry>)
    requires AllReadable(frames)
    decreases |entries|, 1
  {
    if entries == [] then frames == []
    else exists n | 0 <= n <= |frames| :: SpellsFrom(frames, entries, n)
  }

  /** The first n frames are the first entry. */
  ghost predicate SpellsFrom(frames: seq<Json>, entries: seq<Entry>, n: nat)
    requires AllReadable(frames) && entries != [] && n <= |frames|
    decreases |entries|, 0
  {
    IsSegment(frames[..n], entries[0]) && Spells(frames[n..], entries[1..])
  }

  lemma PushNext(done: seq<Entry>, chunk: Chunk, frame: Json)
    requires Readable(frame) && IsChunk(frame) && SameMessage(Joined(chunk), ChunkOf(frame))
    ensures Push(done + [Joined(chunk)], frame) == done + [Joined(Append(chunk, TextOf(frame)))]
  {
    assert (done + [Joined(chunk)])[..|done|] == done;
  }

  lemma MergeLast(done: seq<Entry>, front: seq<Json>, last: Json)
    requires AllReadable(front) && Readable(last)
    ensures AllReadable(front + [last]) && Merge(done, front + [last]) == Push(Merge(done, front), last)
  {
    JoinCat(done, front, [last]);
    assert [last][1..] == [];
    assert Merge(Merge(done, front), [last]) == Push(Merge(done, front), last);
  }

  lemma {:induction false} JoinMessage(done: seq<Entry>, segment: seq<Json>, whole: Chunk)
    requires AllReadable(segment) && segment != [] && OfMessage(segment, whole) && whole.text == Sum(segment)
    requires done != [] ==> !SameMessage(done[|done| - 1], whole)
    ensures Merge(done, segment) == done + [Joined(whole)]
    decreases |segment|
  {
    var front, last := segment[..|segment| - 1], segment[|segment| - 1];
    assert segment == front + [last];
    MergeLast(done, front, last);
    if front == [] {
      assert Push(done, last) == done + [Joined(whole)];
    } else {
      var before := whole.(text := Sum(front));
      JoinMessage(done, front, before);
      PushNext(done, before, last);
      assert Append(before, TextOf(last)) == whole;
    }
  }

  lemma JoinSegment(done: seq<Entry>, segment: seq<Json>, e: Entry)
    requires AllReadable(segment) && IsSegment(segment, e)
    requires e.Joined? && done != [] ==> !SameMessage(done[|done| - 1], e.chunk)
    ensures Merge(done, segment) == done + [e]
  {
    if e.Joined? {
      JoinMessage(done, segment, e.chunk);
    } else {
      assert segment[1..] == [];
      assert Merge(done, segment) == Push(done, segment[0]);
    }
  }

  lemma FirstSegment(frames: seq<Json>, entries: seq<Entry>) returns (segment: seq<Json>, rest: seq<Json>)
    requires AllReadable(frames) && Spells(frames, entries) && entries != []
    ensures frames == segment + rest && AllReadable(segment) && AllReadable(rest)
    ensures IsSegment(segment, entries[0]) && Spells(rest, entries[1..])
  {
    var n :| 0 <= n <= |frames| && SpellsFrom(frames, entries, n);
    segment, rest := frames[..n], frames[n..];
  }

  lemma FullHead(done: seq<Entry>, e: Entry, entries: seq<Entry>)
    requires FullyJoined(done + ([e] + entries))
    ensures e.Joined? && done != [] ==> !SameMessage(done[|done| - 1], e.chunk)
  {
    var all := done + ([e] + entries);
    assert all[|done|] == e;
    assert done != [] ==> all[|done| - 1] == done[|done| - 1];
  }

  lemma {:induction false} JoinOfSpelled(done: seq<Entry>, frames: seq<Json>, entries: seq<Entry>)
    requires AllReadable(frames) && Spells(frames, entries) && FullyJoined(done + entries)
    ensures Merge(done, frames) == done + entries
    decreases |entries|
  {
    if entries == [] {
      assert done + entries == done;
    } else {
      var e, others := entries[0], entries[1..];
      var segment, rest := FirstSegment(frames, entries);
      assert entries == [e] + others;
      FullHead(done, e, others);
      JoinSegment(done, segment, e);
      JoinCat(done, segment, rest);
      CatAssociates(done, [e], others);
      JoinOfSpelled(done + [e], rest, others);
    }
  }

  lemma OneMoreOfMessage(segment: seq<Json>, whole: Chunk, frame: Json)
    requires AllReadable(segment) && Readable(frame) && IsChunk(frame)
    requires segment != [] && OfMessage(segment, whole) && whole.text == Sum(segment)
    requires ChunkOf(frame).kind == whole.kind && ChunkOf(frame).messageId == whole.messageId
    ensures AllReadable(segment + [frame])
    ensures OfMessage(segment + [frame], whole) && Sum(segment + [frame]) == Plus(whole.text, TextOf(frame))
  {
    assert (segment + [frame])[..|segment|] == segment;
  }

  lemma Alone(frame: Json)
    requires Readable(frame)
    ensures Push([], frame) == [if IsChunk(frame) then Joined(ChunkOf(frame)) else Frame(frame)]
    ensures IsSegment([frame], Push([], frame)[0])
  {
    assert [frame][1..] == [];
  }

  /** Two segments next to each other. */
  lemma SpellsCons(segment: seq<Json>, e: Entry, frames: seq<Json>, entries: seq<Entry>)
    requires AllReadable(segment) && AllReadable(frames) && IsSegment(segment, e) && Spells(frames, entries)
    ensures AllReadable(segment + frames) && Spells(segment + frames, [e] + entries)
  {
    var all, n := segment + frames, |segment|;
    assert all[..n] == segment && all[n..] == frames;
    assert ([e] + entries)[1..] == entries;
    assert SpellsFrom(all, [e] + entries, n);
  }

  lemma {:induction false} SpellsSnoc(frames: seq<Json>, entries: seq<Entry>, frame: Json)
    requires AllReadable(frames) && Readable(frame) && Spells(frames, entries)
    ensures AllReadable(frames + [frame]) && Spells(frames + [frame], Push(entries, frame))
    decreases |entries|
  {
    if entries == [] {
      SpellsAlone(frame);
      assert frames + [frame] == [frame];
    } else {
      var e, others := entries[0], entries[1..];
      var segment, rest := FirstSegment(frames, entries);
      assert entries == [e] + others;
      if others == [] {
        assert segment + rest == segment && [e] + others == [e];
        SpellsSnocOne(segment, e, frame);
      } else {
        SpellsSnoc(rest, others, frame);
        SpellsBehind(segment, e, rest, others, frame);
      }
    }
  }

  lemma SpellsBehind(segment: seq<Json>, e: Entry, frames: seq<Json>, entries: seq<Entry>, frame: Json)
    requires AllReadable(segment) && AllReadable(frames) && Readable(frame) && AllReadable(frames + [frame])
    requires entries != [] && IsSegment(segment, e) && Spells(frames + [frame], Push(entries, frame))
    ensures AllReadable(segment + frames + [frame])
    ensures Spells(segment + frames + [frame], Push([e] + entries, frame))
  {
    PushBehind(e, entries, frame);
    SpellsCons(segment, e, frames + [frame], Push(entries, frame));
    CatAssociates(segment, frames, [frame]);
  }

  lemma PushBehind(e: Entry, entries: seq<Entry>, frame: Json)
    requires Readable(frame) && entries != []
    ensures Push([e] + entries, frame) == [e] + Push(entries, frame)
  {
    var all := [e] + entries;
    assert all[|all| - 1] == entries[|entries| - 1];
    assert all[..|all| - 1] == [e] + entries[..|entries| - 1];
  }

  lemma SpellsAlone(frame: Json)
    requires Readable(frame)
    ensures Spells([frame], Push([], frame))
  {
    Alone(frame);
    var e := Push([], frame)[0];
    assert Spells([], []);
    SpellsCons([frame], e, [], []);
    assert [frame] + [] == [frame] && [e] + [] == [e];
  }

  lemma SpellsSnocOne(segment: seq<Json>, e: Entry, frame: Json)
    requires AllReadable(segment) && Readable(frame) && IsSegment(segment, e)
    ensures AllReadable(segment + [frame]) && Spells(segment + [frame], Push([e], frame))
  {
    assert Spells([], []);
    if IsChunk(frame) && SameMessage(e, ChunkOf(frame)) {
      OneMoreOfMessage(segment, e.chunk, frame);
      var longer := Joined(Append(e.chunk, ChunkOf(frame).text));
      assert Push([e], frame) == [longer];
      SpellsCons(segment + [frame], longer, [], []);
      assert segment + [frame] + [] == segment + [frame] && [longer] + [] == [longer];
    } else {
      SpellsAlone(frame);
      Alone(frame);
      assert Push([e], frame) == [e] + Push([], frame);
      SpellsCons(segment, e, [frame], Push([], frame));
    }
  }

  lemma {:induction false} JoinSpells(frames: seq<Json>)
    requires AllReadable(frames)
    ensures Spells(frames, Merge([], frames))
  {
    if frames != [] {
      var front, last := frames[..|frames| - 1], frames[|frames| - 1];
      JoinSpells(front);
      assert frames == front + [last];
      JoinCat([], front, [last]);
      assert [last][1..] == [];
      SpellsSnoc(front, Merge([], front), last);
    }
  }

  /** The regrouping, exactly: the entries are the one way to cut the trace into consecutive
      segments, each all chunks of one message or one other frame, with no two neighbours of
      one message. Each joined entry carries the concatenated text of its own segment. */
  lemma EntriesAreRuns(frames: seq<Json>, entries: seq<Entry>)
    requires AllReadable(frames)
    ensures entries == Merge([], frames) <==> Spells(frames, entries) && FullyJoined(entries)
  {
    JoinSpells(frames);
    EntriesOf(frames);
    if Spells(frames, entries) && FullyJoined(entries) {
      assert [] + entries == entries;
      JoinOfSpelled([], frames, entries);
    }
  }

  // ----- which traces compare equal

  /** The same frame, up to the number it carries. */
  ghost predicate SameButNumber(a: Json, b: Json) { exists number :: b == Renumbered(a, number) }

  /** The same message text, or frames that differ at most in scrubbed fields and their number. */
  ghost predicate SameEntry(a: Entry, b: Entry, scrub: Scrub) {
    match (a, b)
    case (Joined(c), Joined(d)) => c == d
    case (Frame(x), Frame(y)) => SameButNumber(scrub(x), scrub(y))
    case _ => false
  }

  lemma StampsAlike(a: Json, b: Json, n: int)
    ensures Stamp(a, n) == Stamp(b, n) <==> SameButNumber(a, b)
  {
    if SameButNumber(a, b) {
      var number :| b == Renumbered(a, number);
      RenumberedTwice(a, number, Num(n));
    }
    if Stamp(a, n) == Stamp(b, n) {
      RenumberedTwice(b, Num(n), Num(n));
      RenumberedTwice(a, Num(n), Num(n));
      if Field(MetaOf(b), "eventSequence").Some? {
        var number := Get(MetaOf(b), "eventSequence");
        RenumberedAlready(b);
        RenumberedTwice(b, Num(n), number);
        RenumberedTwice(a, Num(n), number);
      } else {
        assert b == Renumbered(a, Num(n));
      }
    }
  }

  lemma RenderAlike(a: Entry, b: Entry, n: int, scrub: Scrub)
    requires Mirrors(Render(a, n, scrub), a, n, scrub) && Mirrors(Render(b, n, scrub), b, n, scrub)
    ensures Render(a, n, scrub) == Render(b, n, scrub) <==> SameEntry(a, b, scrub)
  {
    if a.Frame? && b.Frame? {
      StampsAlike(scrub(a.frame), scrub(b.frame), n);
    }
  }

  ghost predicate SameEntries(a: seq<Entry>, b: seq<Entry>, scrub: Scrub) {
    |a| == |b| && forall k | 0 <= k < |a| :: SameEntry(a[k], b[k], scrub)
  }

  lemma RenderAlikeAt(a: seq<Entry>, b: seq<Entry>, k: nat, scrub: Scrub)
    requires AllMirror(RenderAll(a, scrub), a, scrub) && AllMirror(RenderAll(b, scrub), b, scrub)
    requires k < |a| && k < |b|
    ensures RenderAll(a, scrub)[k] == RenderAll(b, scrub)[k] <==> SameEntry(a[k], b[k], scrub)
  {
    RenderAlike(a[k], b[k], k + 1, scrub);
  }

  lemma RenderAllAlike(a: seq<Entry>, b: seq<Entry>, scrub: Scrub)
    requires AllMirror(RenderAll(a, scrub), a, scrub) && AllMirror(RenderAll(b, scrub), b, scrub)
    ensures RenderAll(a, scrub) == RenderAll(b, scrub) <==> SameEntries(a, b, scrub)
  {
    var x, y := RenderAll(a, scrub), RenderAll(b, scrub);
    assert |x| == |a| && |y| == |b|;
    if |a| == |b| {
      forall k | 0 <= k < |a|
        ensures x[k] == y[k] <==> SameEntry(a[k], b[k], scrub)
      {
        RenderAlikeAt(a, b, k, scrub);
      }
    }
  }

  lemma EqualRenderings(f: seq<Json>, g: seq<Json>, scrub: Scrub)
    requires AllWellTyped(f) && AllWellTyped(g) && Stable(scrub)
    ensures Normalized(f, scrub) == Normalized(g, scrub) <==> SameEntries(Merge([], f), Merge([], g), scrub)
  {
    OutputMirrors(f, scrub);
    OutputMirrors(g, scrub);
    RenderAllAlike(Merge([], f), Merge([], g), scrub);
  }

  /** Exactly which traces normalize alike: those whose runs agree one by one, in their message
      text or, between messages, in everything but scrubbed fields and sequence numbers. */
  lemma EqualTraces(f: seq<Json>, g: seq<Json>, scrub: Scrub)
    requires AllWellTyped(f) && AllWellTyped(g) && Stable(scrub)
    ensures Normalized(f, scrub) == Normalized(g, scrub)
            <==> exists a, b :: && Spells(f, a) && FullyJoined(a)
                                && Spells(g, b) && FullyJoined(b)
                                && SameEntries(a, b, scrub)
  {
    EqualRenderings(f, g, scrub);
    forall a | Spells(f, a) && FullyJoined(a)
      ensures a == Merge([], f)
    {
      EntriesAreRuns(f, a);
    }
    forall b | Spells(g, b) && FullyJoined(b)
      ensures b == Merge([], g)
    {
      EntriesAreRuns(g, b);
    }
    EntriesAreRuns(f, Merge([], f));
    EntriesAreRuns(g, Merge([], g));
  }
}
