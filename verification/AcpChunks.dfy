/** Which frames of a trace are streamed chunks, what they are joined to, and how the joined ones
    are written, by the keys and words of the protocol. */
module AcpChunks {
  import opened Json
  import opened AcpTrace

  function UpdateOf(frame: Json): Json { Get(Get(frame, "params"), "update") }

  predicate Says(frame: Json, kind: string) { Get(UpdateOf(frame), "sessionUpdate") == Str(kind) }

  predicate Streamed(frame: Json) { Says(frame, "agent_message_chunk") || Says(frame, "agent_thought_chunk") }

  /** Chunks of one kind for one message. */
  predicate OneStream(f: Json, g: Json) {
    && ((Says(f, "agent_message_chunk") && Says(g, "agent_message_chunk"))
        || (Says(f, "agent_thought_chunk") && Says(g, "agent_thought_chunk")))
    && Get(UpdateOf(f), "messageId") == Get(UpdateOf(g), "messageId")
  }

  /** What the loop needs in order not to raise. */
  predicate Parsed(frame: Json) {
    && frame.Obj? && ObjectOrAbsent(frame, "params")
    && (Streamed(frame) ==> ObjectOrAbsent(UpdateOf(frame), "content"))
  }

  predicate AllParsed(frames: seq<Json>) { forall k | 0 <= k < |frames| :: Parsed(frames[k]) }

  lemma ParsedIff(frame: Json)
    ensures Parsed(frame) <==> Readable(frame)
    ensures Streamed(frame) <==> IsChunk(frame)
  {
  }

  lemma AllParsedIff(frames: seq<Json>)
    ensures AllParsed(frames) <==> AllReadable(frames)
  {
    forall k | 0 <= k < |frames|
      ensures Parsed(frames[k]) <==> Readable(frames[k])
    {
      ParsedIff(frames[k]);
    }
  }

  // ----- when two frames end in one entry

  lemma MergeOne(entries: seq<Entry>, frame: Json)
    requires Readable(frame)
    ensures AllReadable([frame]) && Merge(entries, [frame]) == Push(entries, frame)
  {
    assert [frame][1..] == [];
  }

  lemma MergeTwo(before: seq<Json>, f: Json, g: Json)
    requires AllReadable(before) && Readable(f) && Readable(g)
    ensures AllReadable(before + [f]) && Merge([], before + [f]) == Push(Merge([], before), f)
    ensures AllReadable(before + [f] + [g])
    ensures Merge([], before + [f] + [g]) == Push(Push(Merge([], before), f), g)
  {
    MergeOne(Merge([], before), f);
    JoinCat([], before, [f]);
    MergeOne(Merge([], before + [f]), g);
    JoinCat([], before + [f], [g]);
  }

  lemma LastEntry(entries: seq<Entry>, f: Json)
    requires Readable(f)
    ensures var after := Push(entries, f);
            && after != []
            && (IsChunk(f) ==> SameMessage(after[|after| - 1], ChunkOf(f)))
            && (!IsChunk(f) ==> after[|after| - 1].Frame?)
  {
  }

  lemma PushJoins(entries: seq<Entry>, g: Json)
    requires Readable(g)
    ensures |Push(entries, g)|
            == if IsChunk(g) && entries != [] && SameMessage(entries[|entries| - 1], ChunkOf(g)) then |entries|
               else |entries| + 1
  {
  }

  lemma SameKind(f: Json, g: Json)
    requires Readable(f) && Readable(g) && IsChunk(f) && IsChunk(g)
    ensures ChunkOf(f).kind == ChunkOf(g).kind && ChunkOf(f).messageId == ChunkOf(g).messageId <==> OneStream(f, g)
  {
  }

  /** Two neighbouring frames end in one entry exactly when both stream the same of the two kinds
      for the same message; otherwise the second one opens an entry of its own. */
  lemma OneEntryIff(before: seq<Json>, f: Json, g: Json)
    requires AllParsed(before) && Parsed(f) && Parsed(g)
    ensures AllReadable(before + [f]) && AllReadable(before + [f] + [g])
    ensures |Merge([], before + [f] + [g])| == |Merge([], before + [f])| + if OneStream(f, g) then 0 else 1
  {
    AllParsedIff(before);
    ParsedIff(f);
    ParsedIff(g);
    MergeTwo(before, f, g);
    LastEntry(Merge([], before), f);
    PushJoins(Push(Merge([], before), f), g);
    if IsChunk(f) && IsChunk(g) {
      SameKind(f, g);
    }
  }

  /** A frame that opens an entry: a chunk keeps kind, message and text, with no text read as the
      empty one; any other frame passes through. */
  lemma OwnEntry(frame: Json)
    requires Parsed(frame)
    ensures AllReadable([frame])
    ensures var update, entries := UpdateOf(frame), Merge([], [frame]);
            if Streamed(frame) then
              && |entries| == 1 && entries[0].Joined?
              && Str(entries[0].chunk.kind) == Get(update, "sessionUpdate")
              && entries[0].chunk.messageId == Get(update, "messageId")
              && entries[0].chunk.text
                 == if Field(Get(update, "content"), "text").Some? then Get(Get(update, "content"), "text") else Str("")
            else entries == [Frame(frame)]
  {
    ParsedIff(frame);
    MergeOne([], frame);
  }

  // ----- splitting a chunk

  /** A chunk frame as an agent sends it. */
  function Sent(kind: string, messageId: Json, text: string): Json {
    Obj(map["params" := Obj(map["update" := Obj(map[
      "sessionUpdate" := Str(kind), "messageId" := messageId, "content" := Obj(map["text" := Str(text)])])])])
  }

  lemma SentIs(kind: string, messageId: Json, text: string)
    requires kind == "agent_message_chunk" || kind == "agent_thought_chunk"
    ensures var frame := Sent(kind, messageId, text);
            Readable(frame) && IsChunk(frame) && ChunkOf(frame) == Chunk(kind, messageId, Str(text))
  {
    var frame := Sent(kind, messageId, text);
    assert Says(frame, kind) && UpdateOf(frame) == Update(frame);
  }

  lemma TwoParts(kind: string, messageId: Json, a: string, b: string)
    requires kind == "agent_message_chunk" || kind == "agent_thought_chunk"
    ensures var parts := [Sent(kind, messageId, a), Sent(kind, messageId, b)];
            AllReadable(parts) && OneMessage(parts, Chunk(kind, messageId, Str(a + b)))
  {
    SentIs(kind, messageId, a);
    SentIs(kind, messageId, b);
    var parts := [Sent(kind, messageId, a), Sent(kind, messageId, b)];
    assert parts[1..] == [parts[1]] && [parts[1]][1..] == [];
    assert (a + b)[|a|..] == b && b[|b|..] == "";
    assert a <= a + b && b <= b;
    var rest := Without(Chunk(kind, messageId, Str(a + b)), a);
    assert rest == Chunk(kind, messageId, Str(b));
    assert OneMessage([], Without(rest, b));
    assert OneMessage(parts[1..], rest);
  }

  /** Of either kind: sending a text in two chunks instead of one changes nothing. */
  lemma SplittingIsNeutral(kind: string, messageId: Json, a: string, b: string, before: seq<Json>, after: seq<Json>,
                           scrub: Scrub)
    requires kind == "agent_message_chunk" || kind == "agent_thought_chunk"
    requires AllParsed(before) && AllParsed(after)
    ensures var whole := before + ([Sent(kind, messageId, a + b)] + after);
            var split := before + ([Sent(kind, messageId, a), Sent(kind, messageId, b)] + after);
            AllReadable(whole) && AllReadable(split) && Normalized(whole, scrub) == Normalized(split, scrub)
  {
    AllParsedIff(before);
    AllParsedIff(after);
    SentIs(kind, messageId, a + b);
    TwoParts(kind, messageId, a, b);
    GranularityIrrelevant(before, Sent(kind, messageId, a + b), [Sent(kind, messageId, a), Sent(kind, messageId, b)],
                          after, scrub);
  }

  // ----- how a joined entry is written

  /** The frame of a joined entry, key by key. */
  predicate WrittenAs(frame: Json, c: Chunk, n: int) {
    && frame.Obj? && frame.fields.Keys == {"jsonrpc", "method", "params"}
    && Get(frame, "jsonrpc") == Str("2.0") && Get(frame, "method") == Str("session/update")
    && (var params := Get(frame, "params");
        && params.Obj? && params.fields.Keys == {"sessionId", "update"}
        && Get(params, "sessionId") == Str("<sid>")
        && UpdateWrittenAs(Get(params, "update"), c, n))
  }

  predicate UpdateWrittenAs(update: Json, c: Chunk, n: int) {
    && update.Obj? && update.fields.Keys == {"sessionUpdate", "messageId", "content", "_meta"}
    && Get(update, "sessionUpdate") == Str(c.kind) && Get(update, "messageId") == c.messageId
    && Get(update, "content") == Obj(map["text" := c.text])
    && Get(update, "_meta") == Obj(map["ai.primeintellect.prime-agent" :=
                                       Obj(map["eventSequence" := Num(n), "phase" := Str("event")])])
  }

  lemma ChunkFrameIs(c: Chunk, n: int)
    ensures WrittenAs(ChunkFrame(c, n), c, n)
  {
  }

  /** Of every trace: the k-th normalized frame, where the k-th entry is a joined one. */
  lemma JoinedAreWritten(frames: seq<Json>, scrub: Scrub, k: nat)
    requires AllReadable(frames) && k < |Merge([], frames)| && Merge([], frames)[k].Joined?
    ensures WrittenAs(Normalized(frames, scrub)[k], Merge([], frames)[k].chunk, k + 1)
  {
    ChunkFrameIs(Merge([], frames)[k].chunk, k + 1);
  }
}
