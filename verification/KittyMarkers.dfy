/** The kitty markers byte by byte: what the counts of the client count, and what it answers. */
module KittyMarkers {
  import opened Text
  import opened KittyClient

  // ----- where the markers stand

  predicate QueryAt(s: Bytes, i: nat) {
    i + 4 <= |s| && s[i] == ESC && s[i + 1] == '[' && s[i + 2] == '?' && s[i + 3] == 'u'
  }

  predicate PushAt(s: Bytes, i: nat) {
    i + 5 <= |s| && s[i] == ESC && s[i + 1] == '[' && s[i + 2] == '>' && s[i + 3] == '7' && s[i + 4] == 'u'
  }

  predicate PopAt(s: Bytes, i: nat) {
    i + 4 <= |s| && s[i] == ESC && s[i + 1] == '[' && s[i + 2] == '<' && s[i + 3] == 'u'
  }

  function Places(s: Bytes, pat: Bytes, from: nat): set<nat> {
    set i: nat | from <= i < |s| && OccursAt(s, pat, i)
  }

  lemma {:induction false} PlacesFrom(s: Bytes, pat: Bytes, from: nat)
    requires pat != [] && from <= |s|
    ensures |Places(s, pat, from)| == Occurrences(s[from..], pat)
    decreases |s| - from
  {
    if from == |s| {
      assert Places(s, pat, from) == {};
    } else {
      PlacesFrom(s, pat, from + 1);
      var rest := Places(s, pat, from + 1);
      assert Places(s, pat, from) == if OccursAt(s, pat, from) then {from} + rest else rest;
      HeadPlace(s, pat, from);
    }
  }

  lemma HeadPlace(s: Bytes, pat: Bytes, from: nat)
    requires pat != [] && from < |s|
    ensures Occurrences(s[from..], pat)
            == (if OccursAt(s, pat, from) then 1 else 0) + Occurrences(s[from + 1..], pat)
  {
    var t := s[from..];
    DropDrop(s, from, 1);
    if |t| < |pat| {
      assert |t[1..]| < |pat|;
    } else {
      assert t[..|pat|] == s[from..from + |pat|];
    }
  }

  lemma MarkersAt(s: Bytes, i: nat)
    ensures QueryAt(s, i) <==> OccursAt(s, QUERY, i)
    ensures PushAt(s, i) <==> OccursAt(s, PUSH, i)
    ensures PopAt(s, i) <==> OccursAt(s, POP, i)
  {
    assert QUERY == [ESC, '[', '?', 'u'] && PUSH == [ESC, '[', '>', '7', 'u'] && POP == [ESC, '[', '<', 'u'];
    if i + 4 <= |s| {
      var t := s[i..i + 4];
      assert t[0] == s[i] && t[1] == s[i + 1] && t[2] == s[i + 2] && t[3] == s[i + 3];
    }
    if i + 5 <= |s| {
      var t := s[i..i + 5];
      assert t[0] == s[i] && t[1] == s[i + 1] && t[2] == s[i + 2] && t[3] == s[i + 3] && t[4] == s[i + 4];
    }
  }

  function Queries(s: Bytes): set<nat> { set i: nat | i < |s| && QueryAt(s, i) }

  function Pushes(s: Bytes): set<nat> { set i: nat | i < |s| && PushAt(s, i) }

  function Pops(s: Bytes): set<nat> { set i: nat | i < |s| && PopAt(s, i) }

  lemma MarkersCounted(s: Bytes)
    ensures |Queries(s)| == Occurrences(s, QUERY)
    ensures |Pushes(s)| == Occurrences(s, PUSH)
    ensures |Pops(s)| == Occurrences(s, POP)
  {
    forall i: nat
      ensures QueryAt(s, i) <==> OccursAt(s, QUERY, i)
      ensures PushAt(s, i) <==> OccursAt(s, PUSH, i)
      ensures PopAt(s, i) <==> OccursAt(s, POP, i)
    {
      MarkersAt(s, i);
    }
    assert s[0..] == s;
    PlacesFrom(s, QUERY, 0);
    PlacesFrom(s, PUSH, 0);
    PlacesFrom(s, POP, 0);
    assert Queries(s) == Places(s, QUERY, 0);
    assert Pushes(s) == Places(s, PUSH, 0);
    assert Pops(s) == Places(s, POP, 0);
  }

  // ----- the client

  /** What a client has counted, by the places in its stream: all queries when it answers, and the
      pushes and pops but for those cut by the end of a read. */
  lemma ClientCounts(client: PtyClient)
    requires client.Valid()
    ensures client.queriesScheduled == if client.answer then |Queries(client.stream)| else 0
    ensures client.pushes + Cut(client.received, PUSH) == |Pushes(client.stream)|
    ensures client.pops + Cut(client.received, POP) == |Pops(client.stream)|
  {
    MarkersCounted(client.stream);
    CountsMissCutMarkers(client);
    CountIsOccurrences(client.stream, QUERY);
  }

  const FLAGS: Bytes := [ESC, '[', '?', '7', 'u']
  const ATTRIBUTES: Bytes := [ESC, '[', '?', '6', '2', ';', 'c']

  lemma AnswersSpelled()
    ensures FLAGS_ANSWER == FLAGS && DA1_ANSWER == ATTRIBUTES
  {
  }

  lemma {:induction false} PairsSpelled(n: nat)
    ensures |Pairs(n)| == 2 * n
    ensures forall k | 0 <= k < 2 * n :: Pairs(n)[k] == if k % 2 == 0 then FLAGS else ATTRIBUTES
  {
    AnswersSpelled();
    if n > 0 {
      PairsSpelled(n - 1);
    }
  }

  /** Without a delay, flags and attributes answers go out in turn, one pair a batch. */
  lemma AnswersAlternate(client: PtyClient)
    requires client.Valid() && !client.delayed
    ensures |client.written| == 2 * client.batches
    ensures forall k | 0 <= k < |client.written| :: client.written[k] == if k % 2 == 0 then FLAGS else ATTRIBUTES
  {
    PairsSpelled(client.batches);
  }

  /** With one, nothing else is ever written. */
  lemma OnlyTheAnswers(client: PtyClient)
    requires client.Valid()
    ensures forall k | 0 <= k < |client.written| :: client.written[k] == FLAGS || client.written[k] == ATTRIBUTES
  {
    AnswersSpelled();
  }
}
