/** The terminal side of scripts/left_arrow_pty_repro.py: counting kitty queries, pushes and pops
    in the bytes a client writes, read by read. A byte is the character with its code. */
module KittyClient {
  import opened Text

  type Bytes = string

  const QUERY: Bytes := "\U{001B}[?u"
  const PUSH: Bytes := "\U{001B}[>7u"
  const POP: Bytes := "\U{001B}[<u"

  predicate Starts(s: Bytes, pat: Bytes) { |pat| <= |s| && s[..|pat|] == pat }

  /** Python's `s.count(pat)`: non-overlapping occurrences. */
  function Count(s: Bytes, pat: Bytes): nat
    requires pat != []
    decreases |s|
  {
    if |s| < |pat| then 0
    else if Starts(s, pat) then 1 + Count(s[|pat|..], pat)
    else Count(s[1..], pat)
  }

  /** The number of positions at which `pat` occurs. */
  function Occurrences(s: Bytes, pat: Bytes): nat
    requires pat != []
  {
    if |s| < |pat| then 0 else (if Starts(s, pat) then 1 else 0) + Occurrences(s[1..], pat)
  }

  /** The first byte of the pattern occurs in it only once, so no two occurrences overlap. */
  predicate FirstByteOnce(pat: Bytes) { pat != [] && forall k | 0 < k < |pat| :: pat[k] != pat[0] }

  lemma NoStart(s: Bytes, pat: Bytes)
    requires pat != [] && s != [] && s[0] != pat[0]
    ensures !Starts(s, pat) && Occurrences(s, pat) == Occurrences(s[1..], pat)
  {
    if |pat| <= |s| {
      assert s[..|pat|][0] == s[0];
    }
  }

  /** A stretch without the first byte starts no occurrence. */
  lemma {:induction false} SkipStretch(s: Bytes, pat: Bytes, k: nat)
    requires FirstByteOnce(pat) && k <= |s|
    requires forall j | 0 <= j < k :: s[j] != pat[0]
    ensures Occurrences(s, pat) == Occurrences(s[k..], pat)
  {
    if k > 0 {
      NoStart(s, pat);
      assert forall j | 0 <= j < k - 1 :: s[1..][j] == s[j + 1];
      SkipStretch(s[1..], pat, k - 1);
      DropDrop(s, 1, k - 1);
    } else {
      assert s[0..] == s;
    }
  }

  /** An occurrence at the head overlaps no other one. */
  lemma HeadOccurrence(s: Bytes, pat: Bytes)
    requires FirstByteOnce(pat) && Starts(s, pat)
    ensures Occurrences(s, pat) == 1 + Occurrences(s[|pat|..], pat)
  {
    assert forall j | 1 <= j < |pat| :: s[j] == s[..|pat|][j];
    assert forall j | 0 <= j < |pat| - 1 :: s[1..][j] == s[j + 1];
    SkipStretch(s[1..], pat, |pat| - 1);
    DropDrop(s, 1, |pat| - 1);
  }

  /** Where the first byte of the pattern occurs only once, the non-overlapping count misses
      nothing. */
  lemma {:induction false} CountIsOccurrences(s: Bytes, pat: Bytes)
    requires FirstByteOnce(pat)
    ensures Count(s, pat) == Occurrences(s, pat)
    decreases |s|
  {
    if |s| >= |pat| {
      if Starts(s, pat) {
        CountIsOccurrences(s[|pat|..], pat);
        HeadOccurrence(s, pat);
      } else {
        CountIsOccurrences(s[1..], pat);
      }
    }
  }

  /** Occurrences of `pat` in `a + b` that begin in `a` and end in `b`. */
  function Straddling(a: Bytes, b: Bytes, pat: Bytes): nat
    requires pat != []
  {
    if a == [] then 0
    else (if |a| < |pat| && Starts(a + b, pat) then 1 else 0) + Straddling(a[1..], b, pat)
  }

  lemma {:induction false} OccurrencesCat(a: Bytes, b: Bytes, pat: Bytes)
    requires pat != []
    ensures Occurrences(a + b, pat) == Occurrences(a, pat) + Straddling(a, b, pat) + Occurrences(b, pat)
  {
    if a == [] {
      assert a + b == b;
    } else {
      DropCat(a, b, 1);
      OccurrencesCat(a[1..], b, pat);
      if |a| >= |pat| {
        assert (a + b)[..|pat|] == a[..|pat|];
      } else {
        assert Occurrences(a[1..], pat) == 0;
      }
      if |a + b| < |pat| {
        assert |a[1..] + b| < |pat|;
        assert Occurrences(a[1..] + b, pat) == 0;
      }
    }
  }

  // ----- a stream as it was read

  function Stream(received: seq<Bytes>): Bytes {
    if received == [] then [] else Stream(received[..|received| - 1]) + received[|received| - 1]
  }

  /** The sum of the counts of the single reads. */
  function PerRead(received: seq<Bytes>, pat: Bytes): nat
    requires pat != []
  {
    if received == [] then 0 else PerRead(received[..|received| - 1], pat) + Count(received[|received| - 1], pat)
  }

  /** Occurrences cut in two by a read boundary. */
  function Cut(received: seq<Bytes>, pat: Bytes): nat
    requires pat != []
  {
    if received == [] then 0
    else
      Cut(received[..|received| - 1], pat)
      + Straddling(Stream(received[..|received| - 1]), received[|received| - 1], pat)
  }

  /** The reads after which there was a query not seen before. */
  function Revealing(received: seq<Bytes>): nat {
    if received == [] then 0
    else
      Revealing(received[..|received| - 1])
      + (if Count(Stream(received), QUERY) > Count(Stream(received[..|received| - 1]), QUERY) then 1 else 0)
  }

  /** Counting read by read misses exactly the markers cut by a read boundary. */
  lemma {:induction false} PerReadMissesCut(received: seq<Bytes>, pat: Bytes)
    requires FirstByteOnce(pat)
    ensures PerRead(received, pat) + Cut(received, pat) == Count(Stream(received), pat)
  {
    CountIsOccurrences(Stream(received), pat);
    if received != [] {
      var front, last := received[..|received| - 1], received[|received| - 1];
      PerReadMissesCut(front, pat);
      CountIsOccurrences(Stream(front), pat);
      CountIsOccurrences(last, pat);
      OccurrencesCat(Stream(front), last, pat);
    }
  }

  /** The per-read count is right exactly when no marker straddles a boundary. */
  lemma PerReadExact(received: seq<Bytes>, pat: Bytes)
    requires FirstByteOnce(pat)
    ensures PerRead(received, pat) <= Count(Stream(received), pat)
    ensures PerRead(received, pat) == Count(Stream(received), pat) <==> Cut(received, pat) == 0
  {
    PerReadMissesCut(received, pat);
  }

  /** A push marker cut by a read boundary is not counted. */
  lemma CutPushIsMissed(received: seq<Bytes>)
    requires received == [PUSH[..2], PUSH[2..]]
    ensures Stream(received) == PUSH && Count(PUSH, PUSH) == 1
    ensures PerRead(received, PUSH) == 0 && Cut(received, PUSH) == 1
  {
    assert received[..1] == [PUSH[..2]] && [PUSH[..2]][..0] == [];
    assert [] + PUSH[..2] == PUSH[..2] && PUSH[..2] + PUSH[2..] == PUSH;
    assert Stream([PUSH[..2]]) == PUSH[..2];
    assert PerRead([PUSH[..2]], PUSH) == 0;
    assert PUSH[..|PUSH|] == PUSH && PUSH[|PUSH|..] == [];
    PerReadMissesCut(received, PUSH);
  }

  /** Appending never takes a query away. */
  lemma CountGrows(a: Bytes, b: Bytes)
    ensures Count(a, QUERY) <= Count(a + b, QUERY)
  {
    CountIsOccurrences(a, QUERY);
    CountIsOccurrences(a + b, QUERY);
    OccurrencesCat(a, b, QUERY);
  }

  /** At most one answer batch a query, and some batch as soon as there is a query. */
  lemma {:induction false} BatchesBounded(received: seq<Bytes>)
    ensures Revealing(received) <= Count(Stream(received), QUERY)
    ensures Revealing(received) == 0 <==> Count(Stream(received), QUERY) == 0
  {
    if received != [] {
      var front := received[..|received| - 1];
      BatchesBounded(front);
      CountGrows(Stream(front), received[|received| - 1]);
    }
  }

  /** No single read adds more than one query. */
  predicate OneAtATime(received: seq<Bytes>) {
    received == []
    || (OneAtATime(received[..|received| - 1])
        && Count(Stream(received), QUERY) <= Count(Stream(received[..|received| - 1]), QUERY) + 1)
  }

  /** There is a batch for every query exactly when the queries come in one at a time. */
  lemma {:induction false} BatchPerQueryIff(received: seq<Bytes>)
    ensures Revealing(received) == Count(Stream(received), QUERY) <==> OneAtATime(received)
  {
    if received != [] {
      var front, last := received[..|received| - 1], received[|received| - 1];
      BatchPerQueryIff(front);
      BatchesBounded(front);
      CountGrows(Stream(front), last);
    }
  }

  /** Two queries in one read share a batch; in two reads they do not. */
  lemma TwoQueriesOneBatch(one: seq<Bytes>, two: seq<Bytes>)
    requires one == [QUERY + QUERY] && two == [QUERY, QUERY]
    ensures Stream(one) == Stream(two) && Count(Stream(one), QUERY) == 2
    ensures Revealing(one) == 1 && Revealing(two) == 2
  {
    var both := QUERY + QUERY;
    assert one[..0] == [] && two[..1] == [QUERY] && [QUERY][..0] == [];
    assert [] + both == both && [] + QUERY == QUERY;
    assert Stream([QUERY]) == QUERY;
    assert both[..4] == QUERY && both[4..] == QUERY && QUERY[..4] == QUERY && QUERY[4..] == [];
    assert Count(QUERY, QUERY) == 1;
    assert Count(both, QUERY) == 2;
    assert Revealing([QUERY]) == 1;
  }

  /** What one more read adds to everything derived from the reads. */
  lemma OneMoreRead(received: seq<Bytes>, chunk: Bytes)
    ensures var more := received + [chunk];
            && Stream(more) == Stream(received) + chunk
            && PerRead(more, PUSH) == PerRead(received, PUSH) + Count(chunk, PUSH)
            && PerRead(more, POP) == PerRead(received, POP) + Count(chunk, POP)
            && Revealing(more) == Revealing(received)
                                  + if Count(Stream(more), QUERY) > Count(Stream(received), QUERY) then 1 else 0
  {
    var more := received + [chunk];
    assert more[..|more| - 1] == received && more[|more| - 1] == chunk;
  }

  // ----- the answers

  const FLAGS_ANSWER: Bytes := "\U{001B}[?7u"
  const DA1_ANSWER: Bytes := "\U{001B}[?62;c"

  function Times(written: seq<Bytes>, answer: Bytes): nat {
    if written == [] then 0
    else Times(written[..|written| - 1], answer) + if written[|written| - 1] == answer then 1 else 0
  }

  lemma OneMoreWrite(written: seq<Bytes>, bytes: Bytes, answer: Bytes)
    ensures Times(written + [bytes], answer) == Times(written, answer) + if bytes == answer then 1 else 0
  {
    assert (written + [bytes])[..|written|] == written;
  }

  lemma AnswersDiffer()
    ensures FLAGS_ANSWER != DA1_ANSWER
  {
    assert FLAGS_ANSWER[3] == '7' && DA1_ANSWER[3] == '6';
  }

  predicate OnlyAnswers(written: seq<Bytes>) {
    forall k | 0 <= k < |written| :: written[k] == FLAGS_ANSWER || written[k] == DA1_ANSWER
  }

  lemma BothWrites(written: seq<Bytes>)
    requires OnlyAnswers(written)
    ensures var both := written + [FLAGS_ANSWER] + [DA1_ANSWER];
            && Times(both, FLAGS_ANSWER) == Times(written, FLAGS_ANSWER) + 1
            && Times(both, DA1_ANSWER) == Times(written, DA1_ANSWER) + 1
            && OnlyAnswers(both)
  {
    OneMoreWrite(written, FLAGS_ANSWER, FLAGS_ANSWER);
    OneMoreWrite(written, FLAGS_ANSWER, DA1_ANSWER);
    OneMoreWrite(written + [FLAGS_ANSWER], DA1_ANSWER, FLAGS_ANSWER);
    OneMoreWrite(written + [FLAGS_ANSWER], DA1_ANSWER, DA1_ANSWER);
    AnswersDiffer();
  }

  /** Undelayed batches: both answers, one after the other, n times. */
  function Pairs(n: nat): seq<Bytes> { if n == 0 then [] else Pairs(n - 1) + [FLAGS_ANSWER] + [DA1_ANSWER] }

  // ----- the client

  /** What one `select` and `read` came back with. */
  datatype Read = NotReady | Failed | Data(bytes: Bytes)

  class PtyClient {
    const answer: bool   // the answer policy: is there an answer at all,
    const delayed: bool  // and does a timer write it
    var stream: Bytes
    var pushes: nat
    var pops: nat
    var queriesScheduled: nat
    var batches: nat     // answers written at once or put on a timer
    var waiting: nat     // timers still to go off
    var half: nat        // batches between their two writes
    var written: seq<Bytes>
    ghost var received: seq<Bytes>

    ghost predicate Valid()
      reads this
    {
      && stream == Stream(received)
      && pushes == PerRead(received, PUSH)
      && pops == PerRead(received, POP)
      && queriesScheduled == (if answer then Count(stream, QUERY) else 0)
      && batches == (if answer then Revealing(received) else 0)
      && Answering()
    }

    /** Every batch waits, is half written, or is done; its flags go out before its attributes. */
    ghost predicate Answering()
      reads this
    {
      && batches == waiting + Times(written, FLAGS_ANSWER)
      && Times(written, FLAGS_ANSWER) == half + Times(written, DA1_ANSWER)
      && OnlyAnswers(written)
      && (!delayed ==> waiting == half == 0 && written == Pairs(batches))
    }

    constructor (answer: bool, delayed: bool)
      ensures Valid() && received == [] && this.answer == answer && this.delayed == delayed
    {
      this.answer, this.delayed := answer, delayed;
      stream, pushes, pops, queriesScheduled, batches := "", 0, 0, 0, 0;
      waiting, half, written, received := 0, 0, [], [];
    }

    method PumpOnce(read: Read) returns (alive: bool)
      requires Valid()
      modifies this
      ensures Valid()
      ensures received == if read.Data? && read.bytes != [] then old(received) + [read.bytes] else old(received)
      ensures alive <==> read.NotReady? || (read.Data? && read.bytes != [])
    {
      if read.NotReady? {
        return true;
      }
      if read.Failed? || read.bytes == [] {
        return false;
      }
      Take(read.bytes);
      return true;
    }

    method Take(chunk: Bytes)
      requires Valid()
      modifies this
      ensures Valid() && received == old(received) + [chunk]
    {
      CountGrows(stream, chunk);
      OneMoreRead(received, chunk);
      Extend(chunk);
      assert batches == if answer then Revealing(old(received)) else 0;
      ScheduleAnswers();
      assert batches == if answer then Revealing(received) else 0;
    }

    method Extend(chunk: Bytes)
      modifies this`stream, this`pushes, this`pops, this`received
      ensures stream == old(stream) + chunk && received == old(received) + [chunk]
      ensures pushes == old(pushes) + Count(chunk, PUSH) && pops == old(pops) + Count(chunk, POP)
    {
      stream := stream + chunk;
      pushes := pushes + Count(chunk, PUSH);
      pops := pops + Count(chunk, POP);
      received := received + [chunk];
    }

    method ScheduleAnswers()
      requires queriesScheduled <= Count(stream, QUERY) && Answering()
      modifies this`queriesScheduled, this`batches, this`waiting, this`half, this`written
      ensures Answering()
      ensures queriesScheduled == if answer then Count(stream, QUERY) else old(queriesScheduled)
      ensures batches == old(batches) + if answer && Count(stream, QUERY) > old(queriesScheduled) then 1 else 0
      ensures delayed || batches == old(batches) ==> written == old(written)
      ensures !delayed && batches > old(batches) ==> written == old(written) + [FLAGS_ANSWER] + [DA1_ANSWER]
    {
      var seen := Count(stream, QUERY) - queriesScheduled;
      if seen <= 0 || !answer {
        return;
      }
      queriesScheduled := queriesScheduled + seen;
      batches := batches + 1;
      if delayed {
        waiting := waiting + 1;
      } else {
        BothWrites(written);
        written := written + [FLAGS_ANSWER];
        written := written + [DA1_ANSWER];
      }
    }

    /** A timer goes off: the first write of its batch. */
    method WriteFlags()
      requires Valid() && waiting > 0
      modifies this`waiting, this`half, this`written
      ensures Valid()
      ensures waiting == old(waiting) - 1 && half == old(half) + 1 && written == old(written) + [FLAGS_ANSWER]
    {
      OneMoreWrite(written, FLAGS_ANSWER, FLAGS_ANSWER);
      OneMoreWrite(written, FLAGS_ANSWER, DA1_ANSWER);
      AnswersDiffer();
      waiting, half, written := waiting - 1, half + 1, written + [FLAGS_ANSWER];
    }

    /** After its short sleep, the second write of some batch. */
    method WriteAttributes()
      requires Valid() && half > 0
      modifies this`half, this`written
      ensures Valid()
      ensures half == old(half) - 1 && written == old(written) + [DA1_ANSWER]
    {
      OneMoreWrite(written, DA1_ANSWER, FLAGS_ANSWER);
      OneMoreWrite(written, DA1_ANSWER, DA1_ANSWER);
      AnswersDiffer();
      half, written := half - 1, written + [DA1_ANSWER];
    }
  }

  /** Once all timers have gone off and finished, every batch has written both of its answers. */
  lemma EveryBatchIsWritten(client: PtyClient)
    requires client.Valid() && client.waiting == 0 && client.half == 0
    ensures Times(client.written, FLAGS_ANSWER) == Times(client.written, DA1_ANSWER) == client.batches
    ensures |client.written| == 2 * client.batches
  {
    EitherAnswer(client.written);
  }

  lemma {:induction false} EitherAnswer(written: seq<Bytes>)
    requires OnlyAnswers(written)
    ensures |written| == Times(written, FLAGS_ANSWER) + Times(written, DA1_ANSWER)
  {
    if written != [] {
      EitherAnswer(written[..|written| - 1]);
      AnswersDiffer();
    }
  }

  /** Query answering is independent of read splits: two answering clients that read the same
      bytes, however split, have scheduled the same queries, namely all of them, with at most
      one batch each. */
  lemma SplitsAreIrrelevant(a: PtyClient, b: PtyClient)
    requires a.Valid() && b.Valid() && a.answer && b.answer
    requires a.stream == b.stream
    ensures a.queriesScheduled == b.queriesScheduled == Count(a.stream, QUERY) == Occurrences(a.stream, QUERY)
    ensures a.batches <= a.queriesScheduled && b.batches <= b.queriesScheduled
    ensures a.batches == 0 <==> b.batches == 0
  {
    BatchesBounded(a.received);
    BatchesBounded(b.received);
    CountIsOccurrences(a.stream, QUERY);
  }

  /** A client's push and pop counts fall short of the truth by the markers cut at a boundary. */
  lemma CountsMissCutMarkers(client: PtyClient)
    requires client.Valid()
    ensures client.pushes + Cut(client.received, PUSH) == Occurrences(client.stream, PUSH)
    ensures client.pops + Cut(client.received, POP) == Occurrences(client.stream, POP)
  {
    PerReadMissesCut(client.received, PUSH);
    PerReadMissesCut(client.received, POP);
    CountIsOccurrences(client.stream, PUSH);
    CountIsOccurrences(client.stream, POP);
  }
}
