/** The trace normalizer of scripts/acp_compaction_parity.py: consecutive chunks of one message
    are joined and event sequences renumbered. The volatile-field scrub is a parameter. */
module AcpTrace {
  import opened Text
  import opened Json

  const META: string := "ai.primeintellect.prime-agent"

  type Scrub = Json -> Json

  /** The part of a chunk frame that counts: what is streamed, for which message, and the text. */
  datatype Chunk = Chunk(kind: string, messageId: Json, text: Json)

  predicate ChunkKind(kind: Json) { kind == Str("agent_message_chunk") || kind == Str("agent_thought_chunk") }

  function Update(frame: Json): Json { Get(Get(frame, "params"), "update") }

  predicate IsChunk(frame: Json) { ChunkKind(Get(Update(frame), "sessionUpdate")) }

  function TextOf(frame: Json): Json {
    var content := Get(Update(frame), "content");
    if Field(content, "text").Some? then Get(content, "text") else Str("")
  }

  /** What the merging loop needs of a frame; on anything else it raises. */
  predicate Readable(frame: Json) {
    && frame.Obj?
    && ObjectOrAbsent(frame, "params")
    && (IsChunk(frame) ==> ObjectOrAbsent(Update(frame), "content"))
  }

  predicate Contains(s: string, part: string) { exists k | 0 <= k <= |s| :: OccursAt(s, part, k) }

  /** Metadata in which looking for an event sequence finds none, or one that can be replaced. */
  predicate Searchable(meta: Json) {
    match meta
    case Obj(_) => true
    case Arr(items) => forall k | 0 <= k < |items| :: items[k] != Str("eventSequence")
    case Str(s) => !Contains(s, "eventSequence")
    case _ => false
  }

  /** What the renumbering needs of a frame that is no chunk. */
  predicate Renumberable(frame: Json) {
    && ObjectOrAbsent(Get(frame, "params"), "update")
    && ObjectOrAbsent(Update(frame), "_meta")
    && (Field(Get(Update(frame), "_meta"), META).None? || Searchable(MetaOf(frame)))
  }

  predicate WellTyped(frame: Json) { Readable(frame) && (!IsChunk(frame) ==> Renumberable(frame)) }

  predicate AllWellTyped(frames: seq<Json>) { forall k | 0 <= k < |frames| :: WellTyped(frames[k]) }

  function ChunkOf(frame: Json): Chunk
    requires Readable(frame) && IsChunk(frame)
  {
    Chunk(Get(Update(frame), "sessionUpdate").s, Get(Update(frame), "messageId"), TextOf(frame))
  }

  /** Joined texts: strings are concatenated. `Null` stands for texts of other types, which the
      script never joins without raising, unless they are numbers or lists. */
  function Plus(a: Json, b: Json): Json { if a.Str? && b.Str? then Str(a.s + b.s) else Null }

  lemma PlusAssociates(a: Json, b: Json, c: Json)
    ensures Plus(Plus(a, b), c) == Plus(a, Plus(b, c))
  {
    if a.Str? && b.Str? && c.Str? {
      CatAssociates(a.s, b.s, c.s);
    }
  }

  lemma PlusNothing(a: Json)
    ensures a.Str? || a.Null? ==> Plus(a, Str("")) == a && Plus(Str(""), a) == a
  {
    if a.Str? {
      CatEmpty(a.s);
      assert "" + a.s == a.s;
    }
  }

  /** No chunk text is joined to another unless both are strings. */
  predicate Joinable(frames: seq<Json>)
    requires AllReadable(frames)
  {
    forall k | 0 < k < |frames| && IsChunk(frames[k - 1]) && IsChunk(frames[k]) ::
      SameMessage(Joined(ChunkOf(frames[k - 1])), ChunkOf(frames[k]))
      ==> TextOf(frames[k - 1]).Str? && TextOf(frames[k]).Str?
  }

  datatype Entry = Joined(chunk: Chunk) | Frame(frame: Json)

  predicate SameMessage(e: Entry, c: Chunk) {
    e.Joined? && e.chunk.kind == c.kind && e.chunk.messageId == c.messageId
  }

  function Append(c: Chunk, text: Json): Chunk { c.(text := Plus(c.text, text)) }

  /** One frame more. */
  function Push(entries: seq<Entry>, frame: Json): seq<Entry>
    requires Readable(frame)
  {
    if !IsChunk(frame) then entries + [Frame(frame)]
    else
      var c := ChunkOf(frame);
      var n := |entries|;
      if n > 0 && SameMessage(entries[n - 1], c) then
        entries[..n - 1] + [Joined(Append(entries[n - 1].chunk, c.text))]
      else entries + [Joined(c)]
  }

  predicate AllReadable(frames: seq<Json>) { forall k | 0 <= k < |frames| :: Readable(frames[k]) }

  function Merge(entries: seq<Entry>, frames: seq<Json>): seq<Entry>
    requires AllReadable(frames)
    decreases |frames|
  {
    if frames == [] then entries else Merge(Push(entries, frames[0]), frames[1..])
  }

  // ----- output frames

  function ChunkFrame(c: Chunk, n: int): Json {
    Obj(map["jsonrpc" := Str("2.0"),
            "method" := Str("session/update"),
            "params" := Obj(map[
              "sessionId" := Str("<sid>"),
              "update" := Obj(map[
                "sessionUpdate" := Str(c.kind),
                "messageId" := c.messageId,
                "content" := Obj(map["text" := c.text]),
                "_meta" := Obj(map[META := Obj(map["eventSequence" := Num(n), "phase" := Str("event")])])])])])
  }

  function MetaOf(frame: Json): Json { Get(Get(Update(frame), "_meta"), META) }

  function Put(j: Json, key: string, value: Json): Json
    requires j.Obj?
  {
    Obj(j.fields[key := value])
  }

  function PutMeta(frame: Json, meta: Json): Json
    requires MetaOf(frame).Obj?
  {
    var outer := Put(Get(Update(frame), "_meta"), META, meta);
    Put(frame, "params", Put(Get(frame, "params"), "update", Put(Update(frame), "_meta", outer)))
  }

  function Renumbered(frame: Json, number: Json): Json {
    if Field(MetaOf(frame), "eventSequence").None? then frame
    else PutMeta(frame, Put(MetaOf(frame), "eventSequence", number))
  }

  /** A carried event sequence is overwritten in place. */
  function Stamp(frame: Json, n: int): Json { Renumbered(frame, Num(n)) }

  function Render(e: Entry, n: int, scrub: Scrub): Json {
    match e
    case Joined(c) => ChunkFrame(c, n)
    case Frame(frame) => Stamp(scrub(frame), n)
  }

  function RenderAll(entries: seq<Entry>, scrub: Scrub): (frames: seq<Json>)
    ensures |frames| == |entries|
    ensures forall k | 0 <= k < |entries| :: frames[k] == Render(entries[k], k + 1, scrub)
  {
    seq(|entries|, k requires 0 <= k < |entries| => Render(entries[k], k + 1, scrub))
  }

  function Normalized(frames: seq<Json>, scrub: Scrub): seq<Json>
    requires AllReadable(frames)
  {
    RenderAll(Merge([], frames), scrub)
  }

  // ----- the two loops

  lemma {:induction false} JoinCat(entries: seq<Entry>, a: seq<Json>, b: seq<Json>)
    requires AllReadable(a) && AllReadable(b)
    ensures AllReadable(a + b)
    ensures Merge(entries, a + b) == Merge(Merge(entries, a), b)
    decreases |a|
  {
    if a == [] {
      assert a + b == b;
    } else {
      DropCat(a, b, 1);
      assert AllReadable(a[1..]);
      JoinCat(Push(entries, a[0]), a[1..], b);
    }
  }

  /** A parsed frame: in the script a dictionary that its holders share. */
  class FrameObject {
    var json: Json

    constructor (json: Json)
      ensures this.json == json
    {
      this.json := json;
    }
  }

  /** A chunk entry, whose text grows in place. */
  class ChunkObject {
    var chunk: Chunk

    constructor (chunk: Chunk)
      ensures this.chunk == chunk
    {
      this.chunk := chunk;
    }
  }

  datatype Held = Own(chunk: ChunkObject) | Passed(frame: FrameObject)

  /** These objects hold these frames. */
  predicate Holds(frames: seq<FrameObject>, values: seq<Json>)
    reads set k | 0 <= k < |frames| :: frames[k]
  {
    |frames| == |values| && forall k | 0 <= k < |frames| :: frames[k].json == values[k]
  }

  function ObjectOf(h: Held): object { match h case Own(chunk) => chunk case Passed(frame) => frame }

  function EntryOf(h: Held): Entry
    reads ObjectOf(h)
  {
    match h
    case Own(chunk) => Joined(chunk.chunk)
    case Passed(frame) => Frame(frame.json)
  }

  /** The entry objects hold these entries, each chunk in an object of its own. */
  predicate Shows(held: seq<Held>, entries: seq<Entry>)
    reads set k | 0 <= k < |held| :: ObjectOf(held[k])
  {
    && |held| == |entries|
    && (forall k | 0 <= k < |held| :: EntryOf(held[k]) == entries[k])
    && (forall i, j | 0 <= i < j < |held| && held[i].Own? && held[j].Own? :: held[i].chunk != held[j].chunk)
  }

  /** The chunk's text is appended in place. */
  method Grow(held: seq<Held>, c: Chunk, ghost before: seq<Entry>)
    requires Shows(held, before) && held != [] && SameMessage(before[|held| - 1], c)
    requires before[|held| - 1].chunk.text.Str? && c.text.Str?
    modifies ObjectOf(held[|held| - 1])
    ensures var n := |held| - 1;
            Shows(held, before[..n] + [Joined(Append(before[n].chunk, c.text))])
  {
    assert EntryOf(held[|held| - 1]) == before[|held| - 1];
    var entry := held[|held| - 1].chunk;
    entry.chunk := entry.chunk.(text := Str(entry.chunk.text.s + c.text.s));
  }

  /** If the frame continues the last entry, both have strings for text. */
  predicate Fits(entries: seq<Entry>, frame: Json)
    requires Readable(frame)
  {
    entries != [] && IsChunk(frame) && SameMessage(entries[|entries| - 1], ChunkOf(frame))
    ==> entries[|entries| - 1].chunk.text.Str? && TextOf(frame).Str?
  }

  /** The last entry is what the last frame left: its own, or one that it continued. */
  predicate LeftBy(entries: seq<Entry>, frame: Json)
    requires Readable(frame)
  {
    entries != [] && var last := entries[|entries| - 1];
    if IsChunk(frame) then SameMessage(last, ChunkOf(frame)) && (TextOf(frame).Str? ==> last.chunk.text.Str?)
    else last.Frame?
  }

  lemma NextFits(entries: seq<Entry>, frames: seq<Json>, k: nat)
    requires AllReadable(frames) && Joinable(frames) && k < |frames|
    requires if k == 0 then entries == [] else LeftBy(entries, frames[k - 1])
    ensures Fits(entries, frames[k])
  {
  }

  lemma PushLeaves(entries: seq<Entry>, frame: Json)
    requires Readable(frame) && Fits(entries, frame)
    ensures LeftBy(Push(entries, frame), frame)
  {
  }

  /** One turn of the merging loop: the entry it adds, if any. */
  method AddFrame(held: seq<Held>, frame: FrameObject, ghost before: seq<Entry>) returns (more: seq<Held>)
    requires Readable(frame.json) && Shows(held, before) && Fits(before, frame.json)
    modifies set k | 0 <= k < |held| && held[k].Own? :: held[k].chunk
    ensures Shows(held + more, Push(before, old(frame.json)))
    ensures forall k | 0 <= k < |more| && more[k].Own? :: fresh(more[k].chunk)
    ensures forall k | 0 <= k < |more| && more[k].Passed? :: more[k].frame == frame
  {
    if !IsChunk(frame.json) {
      return [Passed(frame)];
    }
    var c := ChunkOf(frame.json);
    if held != [] && held[|held| - 1].Own? && SameMessage(EntryOf(held[|held| - 1]), c) {
      Grow(held, c, before);
      CatEmpty(held);
      return [];
    }
    var chunk := new ChunkObject(c);
    more := [Own(chunk)];
    assert (held + more)[..|held|] == held;
  }

  /** The merging loop. It changes only chunk objects it made itself: no frame it was given. */
  method Coalesce(frames: seq<FrameObject>, ghost values: seq<Json>) returns (entries: seq<Held>)
    requires Holds(frames, values) && AllReadable(values) && Joinable(values)
    ensures Shows(entries, Merge([], values)) && Holds(frames, values)
    ensures forall k | 0 <= k < |entries| && entries[k].Own? :: fresh(entries[k].chunk)
    ensures forall k | 0 <= k < |entries| && entries[k].Passed? :: entries[k].frame in frames
  {
    entries := [];
    ghost var merged: seq<Entry> := [];
    assert values[0..] == values;
    for k := 0 to |frames|
      invariant Holds(frames, values) && Shows(entries, merged)
      invariant forall i | 0 <= i < |entries| && entries[i].Own? :: fresh(entries[i].chunk)
      invariant forall i | 0 <= i < |entries| && entries[i].Passed? :: entries[i].frame in frames
      invariant if k == 0 then merged == [] else LeftBy(merged, values[k - 1])
      invariant AllReadable(values[k..]) && Merge(merged, values[k..]) == Merge([], values)
    {
      MergeStep(merged, values, k);
      NextFits(merged, values, k);
      PushLeaves(merged, values[k]);
      var more := AddFrame(entries, frames[k], merged);
      entries := entries + more;
      merged := Push(merged, values[k]);
    }
  }

  lemma MergeStep(entries: seq<Entry>, frames: seq<Json>, k: nat)
    requires k < |frames| && AllReadable(frames[k..])
    ensures Readable(frames[k]) && AllReadable(frames[k + 1..])
    ensures Merge(entries, frames[k..]) == Merge(Push(entries, frames[k]), frames[k + 1..])
  {
    DropDrop(frames, k, 1);
    assert frames[k..][0] == frames[k];
  }

  method Normalize(frames: seq<FrameObject>, ghost values: seq<Json>, scrub: Scrub) returns (normalized: seq<Json>)
    requires Holds(frames, values) && AllWellTyped(values) && Joinable(values)
    ensures normalized == Normalized(values, scrub)
  {
    var entries := Coalesce(frames, values);
    normalized := RenderEach(entries, Merge([], values), scrub);
  }

  method RenderEach(held: seq<Held>, ghost entries: seq<Entry>, scrub: Scrub) returns (normalized: seq<Json>)
    requires Shows(held, entries)
    ensures normalized == RenderAll(entries, scrub)
  {
    normalized := [];
    var sequence := 0;
    for k := 0 to |held|
      invariant sequence == k == |normalized|
      invariant forall i | 0 <= i < k :: normalized[i] == Render(entries[i], i + 1, scrub)
    {
      sequence := sequence + 1;
      assert EntryOf(held[k]) == entries[k];
      var frame := RenderOne(held[k], sequence, scrub);
      normalized := normalized + [frame];
    }
  }

  method RenderOne(payload: Held, sequence: int, scrub: Scrub) returns (frame: Json)
    ensures frame == Render(EntryOf(payload), sequence, scrub)
  {
    match payload
    case Own(chunk) => frame := ChunkFrame(chunk.chunk, sequence);
    case Passed(f) => frame := Stamp(scrub(f.json), sequence);
  }

  // ----- chunk granularity

  /** Chunks of one message with strings for text, which together spell the text of `whole`. */
  predicate OneMessage(frames: seq<Json>, whole: Chunk)
    requires AllReadable(frames)
  {
    && whole.text.Str?
    && if frames == [] then whole.text.s == ""
       else
         && IsChunk(frames[0])
         && ChunkOf(frames[0]).kind == whole.kind
         && ChunkOf(frames[0]).messageId == whole.messageId
         && TextOf(frames[0]).Str?
         && TextOf(frames[0]).s <= whole.text.s
         && OneMessage(frames[1..], Without(whole, TextOf(frames[0]).s))
  }

  /** The chunk without the beginning of its text. */
  function Without(whole: Chunk, text: string): (rest: Chunk)
    requires whole.text.Str? && text <= whole.text.s
    ensures Plus(Str(text), rest.text) == whole.text
  {
    whole.(text := Str(whole.text.s[|text|..]))
  }

  lemma {:induction false} JoinMore(entries: seq<Entry>, frames: seq<Json>, whole: Chunk)
    requires AllReadable(frames) && OneMessage(frames, whole)
    requires entries != [] && SameMessage(entries[|entries| - 1], whole)
    requires entries[|entries| - 1].chunk.text.Str? || entries[|entries| - 1].chunk.text.Null?
    ensures var n := |entries| - 1;
            Merge(entries, frames) == entries[..n] + [Joined(Append(entries[n].chunk, whole.text))]
    decreases |frames|
  {
    var n := |entries| - 1;
    if frames == [] {
      PlusNothing(entries[n].chunk.text);
    } else {
      var text := TextOf(frames[0]);
      var rest := Without(whole, text.s);
      var entries' := Push(entries, frames[0]);
      assert AllReadable(frames[1..]);
      JoinMore(entries', frames[1..], rest);
      assert entries'[..n] == entries[..n];
      PlusAssociates(entries[n].chunk.text, text, rest.text);
    }
  }

  /** The first part leaves its message last, with no more than its own text added. */
  lemma FirstPart(entries: seq<Entry>, part: Json, whole: Chunk)
    requires Readable(part) && IsChunk(part)
    requires ChunkOf(part).kind == whole.kind && ChunkOf(part).messageId == whole.messageId
    requires TextOf(part).Str?
    ensures var pushed := Push(entries, part);
            && pushed != [] && SameMessage(pushed[|pushed| - 1], whole)
            && (pushed[|pushed| - 1].chunk.text.Str? || pushed[|pushed| - 1].chunk.text.Null?)
  {
  }

  /** Adding the first part and then the rest is adding the whole. */
  lemma PushWhole(entries: seq<Entry>, frame: Json, part: Json, rest: Json)
    requires Readable(frame) && IsChunk(frame) && Readable(part) && IsChunk(part)
    requires ChunkOf(frame) == Append(ChunkOf(part), rest)
    ensures var pushed := Push(entries, part);
            var n := |pushed| - 1;
            n >= 0 && pushed[n].Joined? && Push(entries, frame) == pushed[..n] + [Joined(Append(pushed[n].chunk, rest))]
  {
    var pushed := Push(entries, part);
    var n := |entries|;
    if n > 0 && SameMessage(entries[n - 1], ChunkOf(part)) {
      PlusAssociates(entries[n - 1].chunk.text, ChunkOf(part).text, rest);
      assert pushed[..n - 1] == entries[..n - 1];
    } else {
      assert pushed[..n] == entries;
    }
  }

  /** A chunk does the same as any consecutive chunks of its message that spell its text. */
  lemma SplitJoinsAlike(entries: seq<Entry>, frame: Json, parts: seq<Json>)
    requires Readable(frame) && IsChunk(frame)
    requires AllReadable(parts) && parts != [] && OneMessage(parts, ChunkOf(frame))
    ensures Merge(entries, parts) == Push(entries, frame)
  {
    var whole, first := ChunkOf(frame), ChunkOf(parts[0]);
    var rest := Without(whole, first.text.s);
    FirstPart(entries, parts[0], rest);
    assert AllReadable(parts[1..]);
    JoinMore(Push(entries, parts[0]), parts[1..], rest);
    PushWhole(entries, frame, parts[0], rest.text);
  }

  /** Chunk-granularity independence: splitting a streamed chunk never changes the trace. */
  lemma GranularityIrrelevant(before: seq<Json>, frame: Json, parts: seq<Json>, after: seq<Json>, scrub: Scrub)
    requires AllReadable(before) && AllReadable(after) && Readable(frame) && IsChunk(frame)
    requires AllReadable(parts) && parts != [] && OneMessage(parts, ChunkOf(frame))
    ensures AllReadable(before + ([frame] + after)) && AllReadable(before + (parts + after))
    ensures Normalized(before + ([frame] + after), scrub) == Normalized(before + (parts + after), scrub)
  {
    var entries := Merge([], before);
    JoinCat(entries, [frame], after);
    JoinCat([], before, [frame] + after);
    JoinCat(entries, parts, after);
    JoinCat([], before, parts + after);
    SplitJoinsAlike(entries, frame, parts);
    assert [frame][1..] == [];
    assert Merge(entries, [frame]) == Push(entries, frame);
  }

  // ----- the shape of the output

  /** No chunk entry is followed by one of the same message. */
  predicate FullyJoined(entries: seq<Entry>) {
    forall k | 0 < k < |entries| && entries[k].Joined? :: !SameMessage(entries[k - 1], entries[k].chunk)
  }

  predicate Plainly(entries: seq<Entry>) {
    forall k | 0 <= k < |entries| && entries[k].Frame? :: WellTyped(entries[k].frame) && !IsChunk(entries[k].frame)
  }

  predicate Kinds(entries: seq<Entry>) {
    forall k | 0 <= k < |entries| && entries[k].Joined? :: ChunkKind(Str(entries[k].chunk.kind))
  }

  lemma {:induction false} JoinIsFull(entries: seq<Entry>, frames: seq<Json>)
    requires AllReadable(frames) && FullyJoined(entries) && Kinds(entries)
    ensures FullyJoined(Merge(entries, frames)) && Kinds(Merge(entries, frames))
    decreases |frames|
  {
    if frames != [] {
      assert AllReadable(frames[1..]);
      JoinIsFull(Push(entries, frames[0]), frames[1..]);
    }
  }

  lemma {:induction false} JoinIsPlain(entries: seq<Entry>, frames: seq<Json>)
    requires AllReadable(frames) && AllWellTyped(frames) && Plainly(entries)
    ensures Plainly(Merge(entries, frames))
    decreases |frames|
  {
    if frames != [] {
      assert AllReadable(frames[1..]) && AllWellTyped(frames[1..]);
      JoinIsPlain(Push(entries, frames[0]), frames[1..]);
    }
  }

  // ----- the text of every message is conserved

  function HeadText(frame: Json, kind: string, messageId: Json): Json
    requires Readable(frame)
  {
    if IsChunk(frame) && ChunkOf(frame).kind == kind && ChunkOf(frame).messageId == messageId then ChunkOf(frame).text
    else Str("")
  }

  /** The joined text of one message's chunks, over a whole trace. */
  function MessageText(frames: seq<Json>, kind: string, messageId: Json): (text: Json)
    requires AllReadable(frames)
    ensures text.Str? || text.Null?
  {
    if frames == [] then Str("")
    else Plus(HeadText(frames[0], kind, messageId), MessageText(frames[1..], kind, messageId))
  }

  function EntryText(entries: seq<Entry>, kind: string, messageId: Json): (text: Json)
    ensures text.Str? || text.Null?
  {
    if entries == [] then Str("")
    else Plus(EntryText(entries[..|entries| - 1], kind, messageId), OwnText(entries[|entries| - 1], kind, messageId))
  }

  function OwnText(e: Entry, kind: string, messageId: Json): Json {
    if e.Joined? && e.chunk.kind == kind && e.chunk.messageId == messageId then e.chunk.text else Str("")
  }

  lemma EntryTextSnoc(entries: seq<Entry>, e: Entry, kind: string, messageId: Json)
    ensures EntryText(entries + [e], kind, messageId)
            == Plus(EntryText(entries, kind, messageId), OwnText(e, kind, messageId))
  {
    assert (entries + [e])[..|entries|] == entries;
  }

  /** Growing an entry adds what was appended, if it is of the message asked for. */
  lemma GrownText(before: Json, c: Chunk, text: Json, kind: string, messageId: Json)
    requires before.Str? || before.Null?
    ensures var added := if c.kind == kind && c.messageId == messageId then text else Str("");
            Plus(before, OwnText(Joined(Append(c, text)), kind, messageId))
            == Plus(Plus(before, OwnText(Joined(c), kind, messageId)), added)
  {
    PlusAssociates(before, c.text, text);
    PlusNothing(before);
    PlusNothing(Plus(before, Str("")));
  }

  lemma GrownEntries(front: seq<Entry>, c: Chunk, text: Json, kind: string, messageId: Json)
    ensures var added := if c.kind == kind && c.messageId == messageId then text else Str("");
            EntryText(front + [Joined(Append(c, text))], kind, messageId)
            == Plus(EntryText(front + [Joined(c)], kind, messageId), added)
  {
    EntryTextSnoc(front, Joined(c), kind, messageId);
    EntryTextSnoc(front, Joined(Append(c, text)), kind, messageId);
    GrownText(EntryText(front, kind, messageId), c, text, kind, messageId);
  }

  lemma PushGrows(entries: seq<Entry>, frame: Json)
    requires Readable(frame) && IsChunk(frame)
    requires entries != [] && SameMessage(entries[|entries| - 1], ChunkOf(frame))
    ensures var front, last := entries[..|entries| - 1], entries[|entries| - 1];
            && entries == front + [Joined(last.chunk)]
            && Push(entries, frame) == front + [Joined(Append(last.chunk, TextOf(frame)))]
  {
  }

  lemma HeadOfChunk(frame: Json, kind: string, messageId: Json)
    requires Readable(frame) && IsChunk(frame)
    ensures var c := ChunkOf(frame);
            && c.text == TextOf(frame)
            && HeadText(frame, kind, messageId) == OwnText(Joined(c), kind, messageId)
  {
  }

  lemma GrowingText(entries: seq<Entry>, frame: Json, kind: string, messageId: Json)
    requires Readable(frame) && IsChunk(frame)
    requires entries != [] && SameMessage(entries[|entries| - 1], ChunkOf(frame))
    ensures EntryText(Push(entries, frame), kind, messageId)
            == Plus(EntryText(entries, kind, messageId), HeadText(frame, kind, messageId))
  {
    PushGrows(entries, frame);
    HeadOfChunk(frame, kind, messageId);
    GrownEntries(entries[..|entries| - 1], entries[|entries| - 1].chunk, TextOf(frame), kind, messageId);
  }

  lemma AddingText(entries: seq<Entry>, frame: Json, e: Entry, kind: string, messageId: Json)
    requires Readable(frame) && Push(entries, frame) == entries + [e]
    requires e == if IsChunk(frame) then Joined(ChunkOf(frame)) else Frame(frame)
    ensures EntryText(Push(entries, frame), kind, messageId)
            == Plus(EntryText(entries, kind, messageId), HeadText(frame, kind, messageId))
  {
    EntryTextSnoc(entries, e, kind, messageId);
    if IsChunk(frame) {
      HeadOfChunk(frame, kind, messageId);
    }
  }

  lemma PushText(entries: seq<Entry>, frame: Json, kind: string, messageId: Json)
    requires Readable(frame)
    ensures EntryText(Push(entries, frame), kind, messageId)
            == Plus(EntryText(entries, kind, messageId), HeadText(frame, kind, messageId))
  {
    if IsChunk(frame) && entries != [] && SameMessage(entries[|entries| - 1], ChunkOf(frame)) {
      GrowingText(entries, frame, kind, messageId);
    } else if IsChunk(frame) {
      AddingText(entries, frame, Joined(ChunkOf(frame)), kind, messageId);
    } else {
      AddingText(entries, frame, Frame(frame), kind, messageId);
    }
  }

  lemma {:induction false} JoinKeepsText(entries: seq<Entry>, frames: seq<Json>, kind: string, messageId: Json)
    requires AllReadable(frames)
    ensures EntryText(Merge(entries, frames), kind, messageId)
            == Plus(EntryText(entries, kind, messageId), MessageText(frames, kind, messageId))
    decreases |frames|
  {
    if frames == [] {
      PlusNothing(EntryText(entries, kind, messageId));
    } else {
      PushText(entries, frames[0], kind, messageId);
      assert AllReadable(frames[1..]);
      JoinKeepsText(Push(entries, frames[0]), frames[1..], kind, messageId);
      PlusAssociates(EntryText(entries, kind, messageId), HeadText(frames[0], kind, messageId),
                     MessageText(frames[1..], kind, messageId));
    }
  }

  /** Conservation: every message's text survives the normalization of a whole trace. */
  lemma TextConserved(frames: seq<Json>, kind: string, messageId: Json)
    requires AllReadable(frames)
    ensures EntryText(Merge([], frames), kind, messageId) == MessageText(frames, kind, messageId)
  {
    JoinKeepsText([], frames, kind, messageId);
    PlusNothing(MessageText(frames, kind, messageId));
  }

  // ----- the output frames read back

  lemma ChunkFrameReadsBack(c: Chunk, n: int)
    requires ChunkKind(Str(c.kind))
    ensures var frame := ChunkFrame(c, n);
            && WellTyped(frame) && IsChunk(frame) && ChunkOf(frame) == c
            && Field(MetaOf(frame), "eventSequence") == Some(Num(n))
  {
  }

  lemma PutTwice(j: Json, key: string, a: Json, b: Json)
    requires j.Obj?
    ensures Get(Put(j, key, a), key) == a
    ensures Put(Put(j, key, a), key, b) == Put(j, key, b)
  {
  }

  lemma PutSame(j: Json, key: string)
    requires Field(j, key).Some?
    ensures Put(j, key, Get(j, key)) == j
  {
    assert j.fields[key := j.fields[key]] == j.fields;
  }

  lemma PutMetaTwice(frame: Json, a: Json, b: Json)
    requires MetaOf(frame).Obj? && a.Obj?
    ensures MetaOf(PutMeta(frame, a)) == a
    ensures PutMeta(PutMeta(frame, a), b) == PutMeta(frame, b)
  {
    var params, update, outer := Get(frame, "params"), Update(frame), Get(Update(frame), "_meta");
    PutTwice(outer, META, a, b);
    PutTwice(update, "_meta", Put(outer, META, a), Put(outer, META, b));
    var updateA, updateB := Put(update, "_meta", Put(outer, META, a)), Put(update, "_meta", Put(outer, META, b));
    PutTwice(params, "update", updateA, updateB);
    PutTwice(frame, "params", Put(params, "update", updateA), Put(params, "update", updateB));
    assert Update(PutMeta(frame, a)) == updateA;
  }

  lemma PutMetaSame(frame: Json)
    requires MetaOf(frame).Obj?
    ensures PutMeta(frame, MetaOf(frame)) == frame
  {
    PutSame(Get(Update(frame), "_meta"), META);
    PutSame(Update(frame), "_meta");
    PutSame(Get(frame, "params"), "update");
    PutSame(frame, "params");
  }

  lemma RenumberedTwice(frame: Json, a: Json, b: Json)
    ensures Renumbered(Renumbered(frame, a), b) == Renumbered(frame, b)
    ensures Field(MetaOf(Renumbered(frame, a)), "eventSequence")
            == if Field(MetaOf(frame), "eventSequence").Some? then Some(a) else None
  {
    var meta := MetaOf(frame);
    if Field(meta, "eventSequence").Some? {
      PutTwice(meta, "eventSequence", a, b);
      PutMetaTwice(frame, Put(meta, "eventSequence", a), Put(meta, "eventSequence", b));
    }
  }

  lemma RenumberedAlready(frame: Json)
    requires Field(MetaOf(frame), "eventSequence").Some?
    ensures Renumbered(frame, Get(MetaOf(frame), "eventSequence")) == frame
  {
    PutSame(MetaOf(frame), "eventSequence");
    PutMetaSame(frame);
  }

  lemma StampKeepsUpdate(frame: Json, n: int)
    requires WellTyped(frame)
    ensures WellTyped(Stamp(frame, n)) && IsChunk(Stamp(frame, n)) == IsChunk(frame)
    ensures Field(MetaOf(Stamp(frame, n)), "eventSequence")
            == if Field(MetaOf(frame), "eventSequence").Some? then Some(Num(n)) else None
    ensures Stamp(Stamp(frame, n), n) == Stamp(frame, n)
  {
    RenumberedTwice(frame, Num(n), Num(n));
  }

  /** What the proofs need of the scrub: on frames that are not chunks it keeps them so, and
      it has nothing left to do on its own output, restamped or not. */
  ghost predicate Stable(scrub: Scrub) {
    && (forall frame | WellTyped(frame) && !IsChunk(frame) :: WellTyped(scrub(frame)) && !IsChunk(scrub(frame)))
    && (forall frame, n | WellTyped(frame) && !IsChunk(frame) ::
          scrub(Stamp(scrub(frame), n)) == Stamp(scrub(frame), n))
  }

  // ----- the session id rule of the scrub

  /** Thirty-six lower-case hexadecimal digits and dashes. */
  predicate IsSessionId(value: Json) {
    value.Str? && |value.s| == 36
    && forall k | 0 <= k < 36 :: IsDigit(value.s[k]) || 'a' <= value.s[k] <= 'f' || value.s[k] == '-'
  }

  /** Such a value under the key `sessionId` is replaced, at any depth. */
  function Erase(j: Json): Json {
    match j
    case Obj(fields) =>
      Obj(map k | k in fields :: if k == "sessionId" && IsSessionId(fields[k]) then Str("<sid>") else Erase(fields[k]))
    case Arr(items) => Arr(seq(|items|, k requires 0 <= k < |items| => Erase(items[k])))
    case _ => j
  }

  lemma {:induction false} ErasedOnce(j: Json)
    ensures Erase(Erase(j)) == Erase(j)
    decreases j
  {
    match j
    case Obj(fields) =>
      forall k | k in fields
        ensures Erase(Erase(j)).fields[k] == Erase(j).fields[k]
      {
        ErasedOnce(fields[k]);
      }
      assert Erase(Erase(j)).fields == Erase(j).fields;
    case Arr(items) =>
      forall k | 0 <= k < |items|
        ensures Erase(Erase(j)).items[k] == Erase(j).items[k]
      {
        ErasedOnce(items[k]);
      }
      assert Erase(Erase(j)).items == Erase(j).items;
    case _ =>
  }

  lemma EraseKeepsGet(j: Json, key: string)
    requires key != "sessionId"
    ensures Get(Erase(j), key) == Erase(Get(j, key))
    ensures Field(Erase(j), key).Some? == Field(j, key).Some?
  {
  }

  /** An erased object stays erased when an erased member is put into it. */
  lemma PutErased(j: Json, key: string, value: Json)
    requires j.Obj? && key != "sessionId" && Erase(j) == j && Erase(value) == value
    ensures Erase(Put(j, key, value)) == Put(j, key, value)
  {
    var put := j.fields[key := value];
    forall k | k in put
      ensures Erase(Obj(put)).fields[k] == put[k]
    {
      if k != key {
        assert Erase(j).fields[k] == j.fields[k];
      }
    }
    assert Erase(Obj(put)).fields == put;
  }

  lemma Keys()
    ensures "params" != "sessionId" && "update" != "sessionId" && "_meta" != "sessionId"
    ensures META != "sessionId" && "sessionUpdate" != "sessionId" && "eventSequence" != "sessionId"
  {
    assert "sessionUpdate"[7] == 'U' && "sessionId"[7] == 'I';
    assert "sessionId"[0] == 's' && META[0] == 'a';
  }

  lemma EraseKeepsText(j: Json, text: string)
    ensures Erase(j) == Str(text) <==> j == Str(text)
  {
  }

  lemma EraseKeepsSearchable(meta: Json)
    requires Searchable(meta)
    ensures Searchable(Erase(meta))
  {
    if meta.Arr? {
      forall k | 0 <= k < |meta.items|
        ensures Erase(meta).items[k] != Str("eventSequence")
      {
        EraseKeepsText(meta.items[k], "eventSequence");
      }
    }
  }

  lemma EraseKeepsShape(frame: Json)
    requires WellTyped(frame) && !IsChunk(frame)
    ensures WellTyped(Erase(frame)) && !IsChunk(Erase(frame))
  {
    Keys();
    EraseKeepsGet(frame, "params");
    EraseKeepsGet(Get(frame, "params"), "update");
    EraseKeepsGet(Update(frame), "sessionUpdate");
    EraseKeepsGet(Update(frame), "_meta");
    EraseKeepsGet(Get(Update(frame), "_meta"), META);
    if Field(Get(Update(frame), "_meta"), META).Some? {
      EraseKeepsSearchable(MetaOf(frame));
    }
  }

  lemma StampKeepsErased(frame: Json, n: int)
    requires Erase(frame) == frame
    ensures Erase(Stamp(frame, n)) == Stamp(frame, n)
  {
    Keys();
    if Field(MetaOf(frame), "eventSequence").Some? {
      var meta := MetaOf(frame);
      EraseKeepsGet(frame, "params");
      EraseKeepsGet(Get(frame, "params"), "update");
      EraseKeepsGet(Update(frame), "_meta");
      EraseKeepsGet(Get(Update(frame), "_meta"), META);
      PutErased(meta, "eventSequence", Num(n));
      var m := Put(meta, "eventSequence", Num(n));
      var outer := Put(Get(Update(frame), "_meta"), META, m);
      PutErased(Get(Update(frame), "_meta"), META, m);
      var update := Put(Update(frame), "_meta", outer);
      PutErased(Update(frame), "_meta", outer);
      PutErased(Get(frame, "params"), "update", update);
      PutErased(frame, "params", Put(Get(frame, "params"), "update", update));
    }
  }

  /** What is asked of the scrub does hold of its session id rule. */
  lemma ErasingIsStable()
    ensures Stable(Erase)
  {
    forall frame | WellTyped(frame) && !IsChunk(frame)
      ensures WellTyped(Erase(frame)) && !IsChunk(Erase(frame))
    {
      EraseKeepsShape(frame);
    }
    forall frame, n | WellTyped(frame) && !IsChunk(frame)
      ensures Erase(Stamp(Erase(frame), n)) == Stamp(Erase(frame), n)
    {
      ErasedOnce(frame);
      StampKeepsErased(Erase(frame), n);
    }
  }

  lemma EntriesOf(frames: seq<Json>)
    requires AllReadable(frames)
    ensures FullyJoined(Merge([], frames)) && Kinds(Merge([], frames))
  {
    JoinIsFull([], frames);
  }

  lemma PlainEntries(frames: seq<Json>)
    requires AllWellTyped(frames)
    ensures AllReadable(frames) && Plainly(Merge([], frames))
  {
    JoinIsPlain([], frames);
  }

  /** An output frame stands for its entry: a chunk reads back, a frame has nothing to redo. */
  predicate Mirrors(output: Json, e: Entry, n: int, scrub: Scrub) {
    && WellTyped(output)
    && (e.Joined? <==> IsChunk(output))
    && (e.Joined? ==> ChunkOf(output) == e.chunk && output == ChunkFrame(e.chunk, n))
    && (e.Frame? ==> Stamp(scrub(output), n) == output)
  }

  lemma RenderedEntry(e: Entry, n: int, scrub: Scrub)
    requires Stable(scrub)
    requires e.Joined? ==> ChunkKind(Str(e.chunk.kind))
    requires e.Frame? ==> WellTyped(e.frame) && !IsChunk(e.frame)
    ensures Mirrors(Render(e, n, scrub), e, n, scrub)
  {
    if e.Joined? {
      ChunkFrameReadsBack(e.chunk, n);
    } else {
      StampKeepsUpdate(scrub(e.frame), n);
      var output := Stamp(scrub(e.frame), n);
      assert scrub(output) == output;
    }
  }

  /** Every carried event sequence is its frame's 1-based position. */
  lemma SequenceIsPosition(frames: seq<Json>, scrub: Scrub, k: nat)
    requires AllWellTyped(frames) && Stable(scrub) && k < |Normalized(frames, scrub)|
    ensures var carried := Field(MetaOf(Normalized(frames, scrub)[k]), "eventSequence");
            && (carried.None? || carried == Some(Num(k + 1)))
            && (IsChunk(Normalized(frames, scrub)[k]) ==> carried.Some?)
  {
    var entries := Merge([], frames);
    EntriesOf(frames);
    PlainEntries(frames);
    RenderedEntry(entries[k], k + 1, scrub);
    if entries[k].Joined? {
      ChunkFrameReadsBack(entries[k].chunk, k + 1);
    } else {
      StampKeepsUpdate(scrub(entries[k].frame), k + 1);
    }
  }

  // ----- normalizing twice

  /** Frames read as entries one by one, nothing joined. */
  function EachAlone(frames: seq<Json>): (entries: seq<Entry>)
    requires AllReadable(frames)
    ensures |entries| == |frames|
    ensures forall k | 0 <= k < |frames| ::
              entries[k] == if IsChunk(frames[k]) then Joined(ChunkOf(frames[k])) else Frame(frames[k])
  {
    seq(|frames|, k requires 0 <= k < |frames| =>
          if IsChunk(frames[k]) then Joined(ChunkOf(frames[k])) else Frame(frames[k]))
  }

  lemma {:induction false} NothingToJoin(done: seq<Json>, todo: seq<Json>)
    requires AllReadable(done) && AllReadable(todo) && AllReadable(done + todo)
    requires FullyJoined(EachAlone(done + todo))
    ensures Merge(EachAlone(done), todo) == EachAlone(done + todo)
    decreases |todo|
  {
    var all := EachAlone(done + todo);
    if todo == [] {
      assert done + todo == done;
    } else {
      var next := done + [todo[0]];
      assert next + todo[1..] == done + todo;
      assert AllReadable(next) && AllReadable(todo[1..]);
      assert all[|done|] == EachAlone(next)[|done|];
      if done != [] {
        assert all[|done| - 1] == EachAlone(done)[|done| - 1];
      }
      assert Push(EachAlone(done), todo[0]) == EachAlone(next);
      NothingToJoin(next, todo[1..]);
    }
  }

  predicate AllMirror(output: seq<Json>, entries: seq<Entry>, scrub: Scrub) {
    |output| == |entries| && forall k | 0 <= k < |entries| :: Mirrors(output[k], entries[k], k + 1, scrub)
  }

  lemma RenderedMirror(entries: seq<Entry>, k: nat, scrub: Scrub)
    requires Stable(scrub) && Plainly(entries) && Kinds(entries) && k < |entries|
    ensures Mirrors(RenderAll(entries, scrub)[k], entries[k], k + 1, scrub)
  {
    RenderedEntry(entries[k], k + 1, scrub);
  }

  lemma RenderedMirrors(entries: seq<Entry>, scrub: Scrub)
    requires Stable(scrub) && Plainly(entries) && Kinds(entries)
    ensures AllMirror(RenderAll(entries, scrub), entries, scrub)
  {
    forall k | 0 <= k < |entries|
      ensures Mirrors(RenderAll(entries, scrub)[k], entries[k], k + 1, scrub)
    {
      RenderedMirror(entries, k, scrub);
    }
  }

  lemma OutputMirrors(frames: seq<Json>, scrub: Scrub)
    requires AllWellTyped(frames) && Stable(scrub)
    ensures AllMirror(Normalized(frames, scrub), Merge([], frames), scrub)
  {
    EntriesOf(frames);
    PlainEntries(frames);
    RenderedMirrors(Merge([], frames), scrub);
  }

  lemma MirrorsAreFull(output: seq<Json>, entries: seq<Entry>, scrub: Scrub)
    requires AllMirror(output, entries, scrub) && FullyJoined(entries)
    ensures AllWellTyped(output) && FullyJoined(EachAlone(output))
    ensures RenderAll(EachAlone(output), scrub) == output
  {
    var again := EachAlone(output);
    forall k | 0 < k < |again| && again[k].Joined?
      ensures !SameMessage(again[k - 1], again[k].chunk)
    {
      assert Mirrors(output[k], entries[k], k + 1, scrub) && Mirrors(output[k - 1], entries[k - 1], k, scrub);
      assert !SameMessage(entries[k - 1], entries[k].chunk);
    }
    forall k | 0 <= k < |again|
      ensures RenderAll(again, scrub)[k] == output[k]
    {
      assert Mirrors(output[k], entries[k], k + 1, scrub);
    }
  }

  /** Normalizing twice is normalizing once. */
  lemma NormalizeIsIdempotent(frames: seq<Json>, scrub: Scrub)
    requires AllWellTyped(frames) && Stable(scrub)
    ensures AllWellTyped(Normalized(frames, scrub))
    ensures Normalized(Normalized(frames, scrub), scrub) == Normalized(frames, scrub)
  {
    var output := Normalized(frames, scrub);
    EntriesOf(frames);
    OutputMirrors(frames, scrub);
    MirrorsAreFull(output, Merge([], frames), scrub);
    assert [] + output == output;
    NothingToJoin([], output);
    assert EachAlone([]) == [];
  }
}
