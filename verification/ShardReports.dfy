/** What exactly the audit reports and which units it fails, for arbitrary manifests: every report
    and every failing id is read off the manifests themselves. */
module ShardReports {
  import opened Text
  import opened Order
  import opened ShardAudit
  import opened ShardVerdict
  import opened ShardRuns

  // ----- the manifests, unit by unit

  predicate Lists(m: Manifest, id: UnitId) { exists k | 0 <= k < |m.units| :: m.units[k].id == id }

  predicate ListsAt(manifests: map<int, Manifest>, s: int, k: nat, id: UnitId) {
    s in manifests && k < |manifests[s].units| && manifests[s].units[k].id == id
  }

  /** The listing of `id` with no other in front of it, shards taken in the order of their numbers. */
  ghost predicate FirstListed(manifests: map<int, Manifest>, s: int, k: nat, id: UnitId) {
    && ListsAt(manifests, s, k, id)
    && (forall j | 0 <= j < k :: manifests[s].units[j].id != id)
    && (forall t | t in manifests && t < s :: !Lists(manifests[t], id))
  }

  // ----- the scan, entry by entry

  predicate FirstAt(entries: seq<Entry>, i: nat, id: UnitId) {
    i < |entries| && entries[i].unit.id == id && forall j | 0 <= j < i :: entries[j].unit.id != id
  }

  predicate Occurs(entries: seq<Entry>, id: UnitId) { exists i | 0 <= i < |entries| :: entries[i].unit.id == id }

  /** What the scan has noted after these entries. */
  ghost predicate Noted(entries: seq<Entry>, ids: seq<UnitId>, scan: Scan) {
    && (forall id :: id in scan.executed <==> id in ids && Occurs(entries, id))
    && (forall i: nat, id | FirstAt(entries, i, id) && id in ids :: scan.executed[id] == entries[i].shard)
    && (forall id :: id in scan.failed <==> id in ids && FailsFirst(entries, id))
    && (forall s, id :: UnknownUnit(s, id) in scan.problems <==> id !in ids && ListedBy(entries, s, id))
    && (forall id, a, b :: RanTwice(id, a, b) in scan.problems <==> id in ids && ListedTwice(entries, id, a, b))
    && (forall p | p in scan.problems :: p.UnknownUnit? || p.RanTwice?)
  }

  ghost predicate FailsFirst(entries: seq<Entry>, id: UnitId) {
    exists i: nat :: FirstAt(entries, i, id) && entries[i].unit.rc != 0
  }

  predicate ListedBy(entries: seq<Entry>, s: int, id: UnitId) {
    exists i | 0 <= i < |entries| :: entries[i].shard == s && entries[i].unit.id == id
  }

  /** First by shard `a`, and once more by `b`. */
  ghost predicate ListedTwice(entries: seq<Entry>, id: UnitId, a: int, b: int) {
    exists i: nat, j: nat ::
      i < j < |entries| && FirstAt(entries, i, id) && entries[i].shard == a && SecondAt(entries, j, id, b)
  }

  predicate SecondAt(entries: seq<Entry>, j: nat, id: UnitId, b: int)
    requires j < |entries|
  {
    entries[j].unit.id == id && entries[j].shard == b
  }

  /** One entry more. */
  lemma Snoc(front: seq<Entry>, last: Entry, id: UnitId)
    ensures var all := front + [last];
            && (Occurs(all, id) <==> Occurs(front, id) || last.unit.id == id)
            && (forall i: nat :: FirstAt(all, i, id)
                  <==> FirstAt(front, i, id) || (i == |front| && last.unit.id == id && !Occurs(front, id)))
            && (forall s :: ListedBy(all, s, id) <==> ListedBy(front, s, id) || (last.shard == s && last.unit.id == id))
  {
    var all := front + [last];
    assert forall i | 0 <= i < |front| :: all[i] == front[i];
    assert all[|front|] == last;
  }

  lemma SnocFails(front: seq<Entry>, last: Entry, id: UnitId)
    ensures FailsFirst(front + [last], id)
            <==> FailsFirst(front, id) || (last.unit.id == id && !Occurs(front, id) && last.unit.rc != 0)
  {
    var all := front + [last];
    Snoc(front, last, id);
    assert forall i | 0 <= i < |front| :: all[i] == front[i];
    if last.unit.id == id && !Occurs(front, id) {
      assert FirstAt(all, |front|, id);
    }
    if FailsFirst(front, id) {
      var i: nat :| FirstAt(front, i, id) && front[i].unit.rc != 0;
      assert FirstAt(all, i, id) && all[i] == front[i];
    }
  }

  lemma {:induction false} FirstExists(entries: seq<Entry>, id: UnitId) returns (i: nat)
    requires Occurs(entries, id)
    ensures FirstAt(entries, i, id)
  {
    var front, last := entries[..|entries| - 1], entries[|entries| - 1];
    assert entries == front + [last];
    Snoc(front, last, id);
    if Occurs(front, id) {
      i := FirstExists(front, id);
    } else {
      i := |front|;
    }
  }

  lemma SnocTwice(front: seq<Entry>, last: Entry, id: UnitId, a: int, b: int)
    ensures ListedTwice(front + [last], id, a, b)
            <==> ListedTwice(front, id, a, b)
                 || (last.unit.id == id && last.shard == b
                     && exists i: nat :: FirstAt(front, i, id) && front[i].shard == a)
  {
    var all := front + [last];
    Snoc(front, last, id);
    assert forall i | 0 <= i < |front| :: all[i] == front[i];
    if ListedTwice(all, id, a, b) {
      var i: nat, j: nat :| i < j < |all| && FirstAt(all, i, id) && all[i].shard == a && SecondAt(all, j, id, b);
      assert FirstAt(front, i, id);
      if j < |front| {
        assert SecondAt(front, j, id, b);
      }
    }
    if ListedTwice(front, id, a, b) {
      var i: nat, j: nat :| i < j < |front| && FirstAt(front, i, id) && front[i].shard == a
                            && SecondAt(front, j, id, b);
      assert FirstAt(all, i, id) && SecondAt(all, j, id, b);
    }
    if i: nat :| FirstAt(front, i, id) && front[i].shard == a && last.unit.id == id && last.shard == b {
      assert FirstAt(all, i, id) && SecondAt(all, |front|, id, b);
    }
  }

  lemma VisitNotes(front: seq<Entry>, last: Entry, ids: seq<UnitId>, scan: Scan)
    requires Noted(front, ids, scan)
    ensures Noted(front + [last], ids, Visit(last, ids, scan))
  {
    var all, after, uid := front + [last], Visit(last, ids, scan), last.unit.id;
    forall id
      ensures id in after.executed <==> id in ids && Occurs(all, id)
      ensures id in after.failed <==> id in ids && FailsFirst(all, id)
    {
      Snoc(front, last, id);
      SnocFails(front, last, id);
    }
    forall i: nat, id | FirstAt(all, i, id) && id in ids
      ensures after.executed[id] == all[i].shard
    {
      Snoc(front, last, id);
      assert i < |front| ==> all[i] == front[i];
    }
    forall s, id
      ensures UnknownUnit(s, id) in after.problems <==> id !in ids && ListedBy(all, s, id)
    {
      Snoc(front, last, id);
    }
    forall id, a, b
      ensures RanTwice(id, a, b) in after.problems <==> id in ids && ListedTwice(all, id, a, b)
    {
      SnocTwice(front, last, id, a, b);
      if uid in ids && uid in scan.executed {
        var i := FirstExists(front, uid);
        assert scan.executed[uid] == front[i].shard;
        OneFirst(front, uid, i);
      }
    }
  }

  lemma OneFirst(entries: seq<Entry>, id: UnitId, i: nat)
    requires FirstAt(entries, i, id)
    ensures forall j: nat | FirstAt(entries, j, id) :: j == i
  {
  }

  lemma {:induction false} ScanNotes(entries: seq<Entry>, ids: seq<UnitId>)
    ensures Noted(entries, ids, ScanAll(entries, ids))
  {
    if entries != [] {
      var front, last := entries[..|entries| - 1], entries[|entries| - 1];
      ScanNotes(front, ids);
      VisitNotes(front, last, ids, ScanAll(front, ids));
      assert entries == front + [last];
    }
  }

  // ----- from the scanned entries back to the manifests

  /** Where the k-th unit of the n-th shard is scanned. */
  function Position(keys: seq<int>, manifests: map<int, Manifest>, n: nat, k: nat): nat
    requires n <= |keys| && forall i | 0 <= i < |keys| :: keys[i] in manifests
  {
    |Listing(keys[..n], manifests)| + k
  }

  lemma {:induction false} ListingStarts(keys: seq<int>, manifests: map<int, Manifest>, m: nat, n: nat)
    requires m <= n <= |keys| && forall i | 0 <= i < |keys| :: keys[i] in manifests
    ensures Listing(keys[..m], manifests) <= Listing(keys[..n], manifests)
  {
    if m < n {
      ListingStarts(keys, manifests, m, n - 1);
      ListingSnoc(keys, n - 1, manifests);
    }
  }

  lemma InPrefix<T>(all: seq<T>, before: seq<T>, more: seq<T>, k: nat)
    requires before + more <= all && k < |more|
    ensures |before| + k < |all| && all[|before| + k] == more[k]
  {
    assert all[..|before + more|] == before + more;
    assert all[|before| + k] == (before + more)[|before| + k];
  }

  lemma ListingPart(keys: seq<int>, manifests: map<int, Manifest>, n: nat)
    requires n < |keys| && forall i | 0 <= i < |keys| :: keys[i] in manifests
    ensures var to := Listing(keys[..n], manifests) + EntriesOf(keys[n], manifests[keys[n]].units);
            to == Listing(keys[..n + 1], manifests) && to <= Listing(keys, manifests)
  {
    ListingSnoc(keys, n, manifests);
    ListingStarts(keys, manifests, n + 1, |keys|);
    assert keys[..|keys|] == keys;
  }

  lemma ScannedAt(keys: seq<int>, manifests: map<int, Manifest>, n: nat, k: nat)
    requires forall i | 0 <= i < |keys| :: keys[i] in manifests
    requires n < |keys| && k < |manifests[keys[n]].units|
    ensures var i := Position(keys, manifests, n, k);
            && i < |Listing(keys, manifests)|
            && Listing(keys, manifests)[i] == Entry(keys[n], manifests[keys[n]].units[k])
            && Position(keys, manifests, n, k) < Position(keys, manifests, n + 1, 0)
  {
    ListingPart(keys, manifests, n);
    InPrefix(Listing(keys, manifests), Listing(keys[..n], manifests), EntriesOf(keys[n], manifests[keys[n]].units), k);
  }

  lemma {:induction false} ScannedFrom(keys: seq<int>, manifests: map<int, Manifest>, i: nat) returns (n: nat, k: nat)
    requires forall j | 0 <= j < |keys| :: keys[j] in manifests
    requires i < |Listing(keys, manifests)|
    ensures n < |keys| && k < |manifests[keys[n]].units| && i == Position(keys, manifests, n, k)
  {
    var front, last := keys[..|keys| - 1], keys[|keys| - 1];
    if i < |Listing(front, manifests)| {
      n, k := ScannedFrom(front, manifests, i);
      assert front[..n] == keys[..n];
    } else {
      n, k := |front|, i - |Listing(front, manifests)|;
    }
  }

  /** Units are scanned shard by shard, in the order of their listings. */
  lemma ScannedBefore(keys: seq<int>, manifests: map<int, Manifest>, n: nat, k: nat, n': nat, k': nat)
    requires forall i | 0 <= i < |keys| :: keys[i] in manifests
    requires n < |keys| && k < |manifests[keys[n]].units| && n' < |keys| && k' < |manifests[keys[n']].units|
    ensures Position(keys, manifests, n, k) < Position(keys, manifests, n', k') <==> n < n' || (n == n' && k < k')
  {
    if n < n' {
      ScannedAt(keys, manifests, n, k);
      ListingStarts(keys, manifests, n + 1, n');
    } else if n' < n {
      ScannedAt(keys, manifests, n', k');
      ListingStarts(keys, manifests, n' + 1, n);
    }
  }

  predicate InOrder(keys: seq<int>, manifests: map<int, Manifest>) {
    && (forall i | 0 <= i < |keys| :: keys[i] in manifests)
    && (forall s | s in manifests :: s in keys)
    && Ascending(keys)
  }

  lemma NoneEarlier(keys: seq<int>, manifests: map<int, Manifest>, n: nat, k: nat, id: UnitId, m: nat, j: nat)
    requires InOrder(keys, manifests) && n < |keys| && k < |manifests[keys[n]].units|
    requires FirstAt(Listing(keys, manifests), Position(keys, manifests, n, k), id)
    requires m < n || (m == n && j < k)
    requires j < |manifests[keys[m]].units|
    ensures manifests[keys[m]].units[j].id != id
  {
    ScannedAt(keys, manifests, m, j);
    ScannedBefore(keys, manifests, m, j, n, k);
  }

  lemma FirstIsListed(keys: seq<int>, manifests: map<int, Manifest>, n: nat, k: nat, id: UnitId)
    requires InOrder(keys, manifests) && n < |keys| && k < |manifests[keys[n]].units|
    requires FirstAt(Listing(keys, manifests), Position(keys, manifests, n, k), id)
    ensures FirstListed(manifests, keys[n], k, id)
  {
    ScannedAt(keys, manifests, n, k);
    forall j | 0 <= j < k
      ensures manifests[keys[n]].units[j].id != id
    {
      NoneEarlier(keys, manifests, n, k, id, n, j);
    }
    forall t | t in manifests && t < keys[n]
      ensures !Lists(manifests[t], id)
    {
      var m :| 0 <= m < |keys| && keys[m] == t;
      forall j | 0 <= j < |manifests[t].units|
        ensures manifests[t].units[j].id != id
      {
        NoneEarlier(keys, manifests, n, k, id, m, j);
      }
    }
  }

  lemma ListedIsFirst(keys: seq<int>, manifests: map<int, Manifest>, n: nat, k: nat, id: UnitId)
    requires InOrder(keys, manifests) && n < |keys| && FirstListed(manifests, keys[n], k, id)
    ensures FirstAt(Listing(keys, manifests), Position(keys, manifests, n, k), id)
  {
    ScannedAt(keys, manifests, n, k);
    forall i | 0 <= i < Position(keys, manifests, n, k)
      ensures Listing(keys, manifests)[i].unit.id != id
    {
      var m, j := ScannedFrom(keys, manifests, i);
      ScannedAt(keys, manifests, m, j);
      ScannedBefore(keys, manifests, m, j, n, k);
      if m < n {
        assert keys[m] < keys[n] && !Lists(manifests[keys[m]], id);
      }
    }
  }

  // ----- what the audit says, past its early returns

  /** The audit gets as far as the scan, and through its last loop. */
  predicate Scans(manifests: map<int, Manifest>, total: int) {
    && (forall s | 1 <= s <= total :: s in manifests)
    && SameEnumeration(manifests)
    && 1 in manifests
    && !DividesByZero(manifests, manifests[1].allIds, total)
  }

  function Scanned(manifests: map<int, Manifest>): Scan
    requires 1 in manifests
  {
    ScanAll(Listing(KeysOf(manifests), manifests), manifests[1].allIds)
  }

  lemma KeysInOrder(manifests: map<int, Manifest>)
    ensures InOrder(KeysOf(manifests), manifests)
  {
  }

  lemma AuditScans(crc: Checksum, manifests: map<int, Manifest>, total: int)
    requires Scans(manifests, total)
    ensures var ids, scan := manifests[1].allIds, Scanned(manifests);
            Audited(crc, manifests, total)
            == Verdict(scan.problems + CoverageGaps(IdSet(ids), scan.executed.Keys)
                       + IncompleteShards(crc, manifests, KeysOf(manifests), ids, total),
                       scan.failed)
  {
    NoneMissing(manifests, 1, total);
  }

  ghost predicate FirstFails(manifests: map<int, Manifest>, id: UnitId) {
    exists s, k: nat :: FirstListed(manifests, s, k, id) && manifests[s].units[k].rc != 0
  }

  /** A unit is failed exactly when it is enumerated and its first listing has a non-zero code. */
  lemma FailedAre(crc: Checksum, manifests: map<int, Manifest>, total: int, id: UnitId)
    requires Scans(manifests, total)
    ensures id in Audited(crc, manifests, total).failed <==> id in manifests[1].allIds && FirstFails(manifests, id)
  {
    var keys, ids := KeysOf(manifests), manifests[1].allIds;
    var entries := Listing(keys, manifests);
    KeysInOrder(manifests);
    AuditScans(crc, manifests, total);
    ScanNotes(entries, ids);
    if FailsFirst(entries, id) {
      var i: nat :| FirstAt(entries, i, id) && entries[i].unit.rc != 0;
      var n, k := ScannedFrom(keys, manifests, i);
      ScannedAt(keys, manifests, n, k);
      FirstIsListed(keys, manifests, n, k, id);
    }
    if FirstFails(manifests, id) {
      var s, k: nat :| FirstListed(manifests, s, k, id) && manifests[s].units[k].rc != 0;
      var n :| 0 <= n < |keys| && keys[n] == s;
      ListedIsFirst(keys, manifests, n, k, id);
      ScannedAt(keys, manifests, n, k);
    }
  }

  // ----- every report

  lemma ListedBySome(manifests: map<int, Manifest>, s: int, id: UnitId)
    requires ListedBy(Listing(KeysOf(manifests), manifests), s, id)
    ensures s in manifests && Lists(manifests[s], id)
  {
    var keys := KeysOf(manifests);
    var entries := Listing(keys, manifests);
    var i :| 0 <= i < |entries| && entries[i].shard == s && entries[i].unit.id == id;
    var n, k := ScannedFrom(keys, manifests, i);
    ScannedAt(keys, manifests, n, k);
  }

  lemma ListedByIs(manifests: map<int, Manifest>, s: int, id: UnitId)
    ensures ListedBy(Listing(KeysOf(manifests), manifests), s, id) <==> s in manifests && Lists(manifests[s], id)
  {
    var keys := KeysOf(manifests);
    if ListedBy(Listing(keys, manifests), s, id) {
      ListedBySome(manifests, s, id);
    }
    if s in manifests && Lists(manifests[s], id) {
      var n :| 0 <= n < |keys| && keys[n] == s;
      var k :| 0 <= k < |manifests[s].units| && manifests[s].units[k].id == id;
      ScannedAt(keys, manifests, n, k);
    }
  }

  predicate SomeLists(manifests: map<int, Manifest>, id: UnitId) {
    exists s | s in manifests :: Lists(manifests[s], id)
  }

  lemma OccursIs(manifests: map<int, Manifest>, id: UnitId)
    ensures Occurs(Listing(KeysOf(manifests), manifests), id) <==> SomeLists(manifests, id)
  {
    var entries := Listing(KeysOf(manifests), manifests);
    if Occurs(entries, id) {
      var i :| 0 <= i < |entries| && entries[i].unit.id == id;
      assert ListedBy(entries, entries[i].shard, id);
      ListedByIs(manifests, entries[i].shard, id);
    }
    if SomeLists(manifests, id) {
      var s :| s in manifests && Lists(manifests[s], id);
      ListedByIs(manifests, s, id);
    }
  }

  /** Listed first by shard `a`, and another time by shard `b`. */
  ghost predicate ListedAgain(manifests: map<int, Manifest>, id: UnitId, a: int, b: int) {
    exists k: nat, j: nat :: FirstListed(manifests, a, k, id) && ListsAt(manifests, b, j, id) && !(a == b && j == k)
  }

  lemma TwiceIsAgain(manifests: map<int, Manifest>, id: UnitId, a: int, b: int)
    requires ListedTwice(Listing(KeysOf(manifests), manifests), id, a, b)
    ensures ListedAgain(manifests, id, a, b)
  {
    var keys := KeysOf(manifests);
    var entries := Listing(keys, manifests);
    KeysInOrder(manifests);
    var i: nat, j: nat :| i < j < |entries| && FirstAt(entries, i, id) && entries[i].shard == a
                          && SecondAt(entries, j, id, b);
    var n, k := ScannedFrom(keys, manifests, i);
    var n', k' := ScannedFrom(keys, manifests, j);
    ScannedAt(keys, manifests, n, k);
    ScannedAt(keys, manifests, n', k');
    FirstIsListed(keys, manifests, n, k, id);
    assert ListsAt(manifests, b, k', id);
    assert n == n' ==> k != k';
  }

  lemma AnotherIsLater(keys: seq<int>, manifests: map<int, Manifest>, n: nat, k: nat, m: nat, j: nat, id: UnitId)
    requires InOrder(keys, manifests) && n < |keys| && FirstListed(manifests, keys[n], k, id)
    requires m < |keys| && ListsAt(manifests, keys[m], j, id) && !(n == m && k == j)
    ensures ListedTwice(Listing(keys, manifests), id, keys[n], keys[m])
  {
    var entries := Listing(keys, manifests);
    var p, q := Position(keys, manifests, n, k), Position(keys, manifests, m, j);
    ListedIsFirst(keys, manifests, n, k, id);
    ScannedAt(keys, manifests, n, k);
    ScannedAt(keys, manifests, m, j);
    ScannedBefore(keys, manifests, m, j, n, k);
    assert entries[q].unit.id == id;
    assert q >= p;
    ScannedBefore(keys, manifests, n, k, m, j);
    assert SecondAt(entries, q, id, keys[m]);
  }

  lemma AgainIsTwice(manifests: map<int, Manifest>, id: UnitId, a: int, b: int)
    requires ListedAgain(manifests, id, a, b)
    ensures ListedTwice(Listing(KeysOf(manifests), manifests), id, a, b)
  {
    var keys := KeysOf(manifests);
    KeysInOrder(manifests);
    var k: nat, j: nat :| FirstListed(manifests, a, k, id) && ListsAt(manifests, b, j, id) && !(a == b && j == k);
    var n :| 0 <= n < |keys| && keys[n] == a;
    var m :| 0 <= m < |keys| && keys[m] == b;
    AnotherIsLater(keys, manifests, n, k, m, j, id);
  }

  /** Does `id` hash to the class of shard s? */
  predicate InClass(crc: Checksum, id: UnitId, s: int, total: int)
    requires total != 0
  {
    (crc(id) - (s - 1)) % total == 0 && if total > 0 then 0 <= s - 1 < total else total < s - 1 <= 0
  }

  lemma ClassIs(crc: Checksum, id: UnitId, s: int, total: int)
    requires total != 0
    ensures ShardOf(crc, id, total) == s - 1 <==> InClass(crc, id, s, total)
  {
    PyModIs(crc(id), total, s - 1);
  }

  lemma PyModIs(a: nat, n: int, r: int)
    requires n != 0
    ensures PyMod(a, n) == r <==> (a - r) % n == 0 && if n > 0 then 0 <= r < n else n < r <= 0
  {
    var m := PyMod(a, n);
    assert (a - m) % n == 0 by {
      MultipleOf(a, n);
    }
    if (a - r) % n == 0 && (if n > 0 then 0 <= r < n else n < r <= 0) {
      OneRemainder(a, n, m, r);
    }
  }

  lemma MultipleOf(a: nat, n: int)
    requires n != 0
    ensures (a - PyMod(a, n)) % n == 0
  {
    if n > 0 {
      QuotientAndRest(a, n);
      Divides(n, a / n);
    } else {
      QuotientAndRest(a, -n);
      NegativeModulus(a, -n, a / -n, a % -n);
    }
  }

  lemma QuotientAndRest(a: nat, n: int)
    requires n > 0
    ensures a == n * (a / n) + a % n
  {
  }

  lemma NegativeModulus(a: nat, p: int, d: int, r: int)
    requires p > 0 && a == p * d + r
    ensures (a - r) % -p == 0 && (a - (r - p)) % -p == 0
  {
    Divides(-p, -d);
    Divides(-p, -d - 1);
    assert -p * -d == p * d;
    assert -p * (-d - 1) == p * d + p;
  }


  lemma Divides(n: int, q: int)
    requires n != 0
    ensures (n * q) % n == 0
  {
    var x := n * q;
    assert x == n * (x / n) + x % n;
    if n > 0 {
      assert n * (q - x / n) == x % n;
      Small(n, q - x / n, x % n);
    } else {
      assert -n * (x / n - q) == x % n;
      Small(-n, x / n - q, x % n);
    }
  }

  lemma Grows(n: int, q: int)
    requires n > 0
    ensures q >= 1 ==> n * q >= n
    ensures q <= -1 ==> n * q <= -n
  {
    if q >= 1 {
      assert n * q == n + n * (q - 1);
    } else if q <= -1 {
      assert n * q == -n + n * (q + 1);
    }
  }

  lemma Small(n: int, q: int, r: int)
    requires n > 0 && n * q == r && -n < r < n
    ensures r == 0
  {
    Grows(n, q);
  }

  lemma OneRemainder(a: int, n: int, m: int, r: int)
    requires n != 0 && (a - m) % n == 0 && (a - r) % n == 0
    requires if n > 0 then 0 <= m < n && 0 <= r < n else n < m <= 0 && n < r <= 0
    ensures m == r
  {
    var x, y := (a - m) / n, (a - r) / n;
    assert a - m == n * x && a - r == n * y;
    assert n * (y - x) == m - r;
    if n > 0 {
      Small(n, y - x, m - r);
    } else {
      assert -n * (x - y) == m - r;
      Small(-n, x - y, m - r);
    }
  }

  lemma AssignedAre(crc: Checksum, ids: seq<UnitId>, s: int, total: int, id: UnitId)
    requires total != 0
    ensures id in Assigned(crc, ids, s, total) <==> id in ids && InClass(crc, id, s, total)
  {
    AssignedIs(crc, ids, s, total, id);
    ClassIs(crc, id, s, total);
  }

  lemma {:induction false} AssignedCat(crc: Checksum, a: seq<UnitId>, b: seq<UnitId>, s: int, total: int)
    requires total != 0
    ensures Assigned(crc, a + b, s, total) == Assigned(crc, a, s, total) + Assigned(crc, b, s, total)
  {
    if a == [] {
      assert a + b == b;
    } else {
      DropCat(a, b, 1);
      AssignedCat(crc, a[1..], b, s, total);
      CatAssociates(if ShardOf(crc, a[0], total) == s - 1 then [a[0]] else [], Assigned(crc, a[1..], s, total),
                    Assigned(crc, b, s, total));
    }
  }

  /** A shard is assigned exactly the ids of its class, each as often as it is enumerated, in the
      order of the enumeration. */
  lemma {:induction false} AssignedExactly(crc: Checksum, ids: seq<UnitId>, s: int, total: int) returns (at: seq<nat>)
    requires total != 0
    ensures Picks(ids, at, Assigned(crc, ids, s, total))
    ensures forall k: nat :: k in at <==> k < |ids| && InClass(crc, ids[k], s, total)
  {
    if ids == [] {
      at := [];
    } else {
      var front, last := ids[..|ids| - 1], ids[|ids| - 1];
      assert ids == front + [last];
      AssignedCat(crc, front, [last], s, total);
      ClassIs(crc, last, s, total);
      assert [last][1..] == [];
      var before := AssignedExactly(crc, front, s, total);
      at := PickNext(front, before, Assigned(crc, front, s, total), last, InClass(crc, last, s, total));
    }
  }

  /** The units of an incomplete shard that it did not list. */
  ghost predicate Unfinished(crc: Checksum, manifests: map<int, Manifest>, ids: seq<UnitId>, s: int, total: int,
                             unfinished: set<UnitId>)
    requires s in manifests
  {
    forall id :: id in unfinished <==>
      id in ids && total != 0 && InClass(crc, id, s, total) && !Lists(manifests[s], id)
  }

  lemma UnfinishedIs(crc: Checksum, manifests: map<int, Manifest>, ids: seq<UnitId>, s: int, total: int)
    requires s in manifests && (total != 0 || ids == [])
    ensures var mine := if ids == [] then [] else Assigned(crc, ids, s, total);
            Unfinished(crc, manifests, ids, s, total, IdSet(mine) - UnitIds(manifests[s].units))
  {
    var mine := if ids == [] then [] else Assigned(crc, ids, s, total);
    forall id
      ensures id in mine <==> id in ids && total != 0 && InClass(crc, id, s, total)
      ensures id in UnitIds(manifests[s].units) <==> Lists(manifests[s], id)
    {
      if ids != [] {
        AssignedAre(crc, ids, s, total, id);
      }
      if id in UnitIds(manifests[s].units) {
        var k :| 0 <= k < |manifests[s].units| && manifests[s].units[k].id == id;
      }
    }
  }

  lemma {:induction false} IncompleteAre(crc: Checksum, manifests: map<int, Manifest>, keys: seq<int>,
                                         ids: seq<UnitId>, total: int, s: int, left: set<UnitId>)
    requires total != 0 || ids == [] || forall k | k in keys && k in manifests :: manifests[k].complete
    requires forall k | 0 <= k < |keys| :: keys[k] in manifests
    ensures Incomplete(s, left) in IncompleteShards(crc, manifests, keys, ids, total)
            <==> s in keys && !manifests[s].complete && Unfinished(crc, manifests, ids, s, total, left)
  {
    if keys != [] {
      var front, last := keys[..|keys| - 1], keys[|keys| - 1];
      IncompleteAre(crc, manifests, front, ids, total, s, left);
      assert keys == front + [last];
      if !manifests[last].complete {
        UnfinishedIs(crc, manifests, ids, last, total);
        if last == s && Unfinished(crc, manifests, ids, s, total, left) {
          var mine := if ids == [] then [] else Assigned(crc, ids, last, total);
          assert left == IdSet(mine) - UnitIds(manifests[s].units);
        }
      }
    }
  }

  /** Is this report due? */
  ghost predicate Due(crc: Checksum, manifests: map<int, Manifest>, total: int, p: Problem)
    requires 1 in manifests
  {
    var ids := manifests[1].allIds;
    match p
    case NoManifest(_) => false
    case DifferentEnumerations => false
    case Extra(_) => false
    case UnknownUnit(s, id) => id !in ids && s in manifests && Lists(manifests[s], id)
    case RanTwice(id, a, b) => id in ids && ListedAgain(manifests, id, a, b)
    case Unassigned(left) => left != {} && forall id :: id in left <==> id in ids && !SomeLists(manifests, id)
    case Incomplete(s, left) =>
      s in manifests && !manifests[s].complete && Unfinished(crc, manifests, ids, s, total, left)
  }

  lemma ScanReports(manifests: map<int, Manifest>, p: Problem)
    requires 1 in manifests
    ensures var ids := manifests[1].allIds;
            p in Scanned(manifests).problems
            <==> match p
                 case UnknownUnit(s, id) => id !in ids && s in manifests && Lists(manifests[s], id)
                 case RanTwice(id, a, b) => id in ids && ListedAgain(manifests, id, a, b)
                 case _ => false
  {
    var keys, ids := KeysOf(manifests), manifests[1].allIds;
    ScanNotes(Listing(keys, manifests), ids);
    if p.UnknownUnit? {
      ListedByIs(manifests, p.shard, p.id);
    } else if p.RanTwice? {
      if ListedTwice(Listing(keys, manifests), p.id, p.first, p.second) {
        TwiceIsAgain(manifests, p.id, p.first, p.second);
      }
      if ListedAgain(manifests, p.id, p.first, p.second) {
        AgainIsTwice(manifests, p.id, p.first, p.second);
      }
    }
  }

  lemma ScannedIs(manifests: map<int, Manifest>, id: UnitId)
    requires 1 in manifests
    ensures id in Scanned(manifests).executed <==> id in manifests[1].allIds && SomeLists(manifests, id)
  {
    ScanNotes(Listing(KeysOf(manifests), manifests), manifests[1].allIds);
    OccursIs(manifests, id);
  }

  lemma GapsAre(enumerated: set<UnitId>, executed: set<UnitId>, p: Problem)
    requires executed <= enumerated
    ensures p in CoverageGaps(enumerated, executed)
            <==> p.Unassigned? && p.ids != {} && p.ids == enumerated - executed
  {
  }

  lemma GapReports(manifests: map<int, Manifest>, p: Problem)
    requires 1 in manifests
    ensures var ids := manifests[1].allIds;
            p in CoverageGaps(IdSet(ids), Scanned(manifests).executed.Keys)
            <==> p.Unassigned? && p.ids != {} && forall id :: id in p.ids <==> id in ids && !SomeLists(manifests, id)
  {
    var ids, executed := manifests[1].allIds, Scanned(manifests).executed.Keys;
    forall id
      ensures id in executed <==> id in ids && SomeLists(manifests, id)
    {
      ScannedIs(manifests, id);
    }
    GapsAre(IdSet(ids), executed, p);
    if p.Unassigned? {
      SetIs(IdSet(ids) - executed, p.ids, ids, manifests);
    }
  }

  lemma SetIs(x: set<UnitId>, y: set<UnitId>, ids: seq<UnitId>, manifests: map<int, Manifest>)
    requires forall id :: id in x <==> id in ids && !SomeLists(manifests, id)
    ensures y == x <==> forall id :: id in y <==> id in ids && !SomeLists(manifests, id)
  {
  }

  lemma IncompleteReports(crc: Checksum, manifests: map<int, Manifest>, total: int, p: Problem)
    requires Scans(manifests, total)
    ensures var ids := manifests[1].allIds;
            p in IncompleteShards(crc, manifests, KeysOf(manifests), ids, total)
            <==> p.Incomplete? && p.shard in manifests && !manifests[p.shard].complete
                 && Unfinished(crc, manifests, ids, p.shard, total, p.unfinished)
  {
    var keys, ids := KeysOf(manifests), manifests[1].allIds;
    IncompleteKinds(crc, manifests, keys, ids, total);
    if p.Incomplete? {
      KeysInOrder(manifests);
      IncompleteAre(crc, manifests, keys, ids, total, p.shard, p.unfinished);
    }
  }

  lemma InOneOfThree(p: Problem, a: seq<Problem>, b: seq<Problem>, c: seq<Problem>)
    ensures p in a + b + c <==> p in a || p in b || p in c
  {
  }

  lemma ProblemsAre(crc: Checksum, manifests: map<int, Manifest>, total: int, p: Problem)
    requires Scans(manifests, total)
    ensures var ids, scan := manifests[1].allIds, Scanned(manifests);
            p in Audited(crc, manifests, total).problems
            <==> || p in scan.problems
                 || p in CoverageGaps(IdSet(ids), scan.executed.Keys)
                 || p in IncompleteShards(crc, manifests, KeysOf(manifests), ids, total)
  {
    var keys, ids, scan := KeysOf(manifests), manifests[1].allIds, Scanned(manifests);
    AuditScans(crc, manifests, total);
    InOneOfThree(p, scan.problems, CoverageGaps(IdSet(ids), scan.executed.Keys),
            IncompleteShards(crc, manifests, keys, ids, total));
  }

  /** The reports are exactly the ones that are due, whatever the manifests. */
  lemma ReportsAre(crc: Checksum, manifests: map<int, Manifest>, total: int, p: Problem)
    requires Scans(manifests, total)
    ensures p in Audited(crc, manifests, total).problems <==> Due(crc, manifests, total, p)
  {
    ProblemsAre(crc, manifests, total, p);
    ScanReports(manifests, p);
    GapReports(manifests, p);
    IncompleteReports(crc, manifests, total, p);
  }

  // ----- the order of the reports

  /** Units first, then coverage, then one report for each incomplete shard, in order. */
  predicate Precedes(p: Problem, q: Problem) {
    || (p.UnknownUnit? || p.RanTwice?)
    || (p.Unassigned? && q.Incomplete?)
    || (p.Incomplete? && q.Incomplete? && p.shard < q.shard)
  }

  predicate Ordered(problems: seq<Problem>) {
    forall i, j | 0 <= i < j < |problems| :: Precedes(problems[i], problems[j])
  }

  lemma {:induction false} IncompleteInOrder(crc: Checksum, manifests: map<int, Manifest>, keys: seq<int>,
                                             ids: seq<UnitId>, total: int)
    requires total != 0 || ids == [] || forall k | k in keys && k in manifests :: manifests[k].complete
    requires forall k | 0 <= k < |keys| :: keys[k] in manifests
    requires Ascending(keys)
    ensures var problems := IncompleteShards(crc, manifests, keys, ids, total);
            && Ordered(problems)
            && forall i | 0 <= i < |problems| :: problems[i].Incomplete? && problems[i].shard in keys
  {
    if keys != [] {
      var front, last := keys[..|keys| - 1], keys[|keys| - 1];
      IncompleteInOrder(crc, manifests, front, ids, total);
      assert keys == front + [last];
      assert forall x | x in front :: x < last;
    }
  }

  lemma ReportsInOrder(crc: Checksum, manifests: map<int, Manifest>, total: int)
    requires Scans(manifests, total)
    ensures Ordered(Audited(crc, manifests, total).problems)
  {
    var keys, ids := KeysOf(manifests), manifests[1].allIds;
    var scan := Scanned(manifests);
    AuditScans(crc, manifests, total);
    ScanNotes(Listing(keys, manifests), ids);
    var gaps := CoverageGaps(IdSet(ids), scan.executed.Keys);
    assert forall p | p in gaps :: p.Unassigned? by {
      forall p | p in gaps
        ensures p.Unassigned?
      {
        GapReports(manifests, p);
      }
    }
    IncompleteInOrder(crc, manifests, keys, ids, total);
    assert scan.executed.Keys - IdSet(ids) == {};
    OrderedParts(scan.problems, gaps, IncompleteShards(crc, manifests, keys, ids, total));
  }

  lemma OrderedParts(a: seq<Problem>, b: seq<Problem>, c: seq<Problem>)
    requires forall p | p in a :: p.UnknownUnit? || p.RanTwice?
    requires |b| <= 1 && forall p | p in b :: p.Unassigned?
    requires Ordered(c) && forall i | 0 <= i < |c| :: c[i].Incomplete?
    ensures Ordered(a + b + c)
  {
    var all := a + b + c;
    forall i, j | 0 <= i < j < |all|
      ensures Precedes(all[i], all[j])
    {
      if i < |a| {
        assert all[i] == a[i] && a[i] in a;
      } else if i < |a| + |b| {
        assert all[i] == b[i - |a|] && b[i - |a|] in b;
        assert all[j] == c[j - |a| - |b|];
      } else {
        assert all[i] == c[i - |a| - |b|] && all[j] == c[j - |a| - |b|];
      }
    }
  }

  // ----- the early returns

  lemma {:induction false} MissingAre(manifests: map<int, Manifest>, from: int, total: int) returns (shards: seq<int>)
    ensures Ascending(shards)
    ensures forall s :: s in shards <==> from <= s <= total && s !in manifests
    ensures |MissingShards(manifests, from, total)| == |shards|
    ensures forall i | 0 <= i < |shards| :: MissingShards(manifests, from, total)[i] == NoManifest(shards[i])
    decreases total - from
  {
    if from > total {
      shards := [];
    } else {
      var rest := MissingAre(manifests, from + 1, total);
      shards := (if from in manifests then [] else [from]) + rest;
      AscendingCons(from, rest);
    }
  }

  /** Shards without a manifest: they are reported in order, and nothing else is. */
  lemma MissingReports(crc: Checksum, manifests: map<int, Manifest>, total: int) returns (shards: seq<int>)
    requires exists s :: 1 <= s <= total && s !in manifests
    ensures Ascending(shards) && forall s :: s in shards <==> 1 <= s <= total && s !in manifests
    ensures var v := Audited(crc, manifests, total);
            && v.Verdict? && v.failed == {} && |v.problems| == |shards|
            && forall i | 0 <= i < |shards| :: v.problems[i] == NoManifest(shards[i])
  {
    shards := MissingAre(manifests, 1, total);
    var s :| 1 <= s <= total && s !in manifests;
    assert s in shards;
  }

  /** When the audit raises: no shard 1 among manifests that agree, or a shard count of zero
      that an incomplete manifest makes it divide by. */
  lemma CrashIff(crc: Checksum, manifests: map<int, Manifest>, total: int)
    ensures Audited(crc, manifests, total) == Crashed
            <==> && (forall s | 1 <= s <= total :: s in manifests)
                 && manifests != map[]
                 && (forall a, b | a in manifests && b in manifests :: manifests[a].allIds == manifests[b].allIds)
                 && (1 !in manifests
                     || (total == 0 && manifests[1].allIds != []
                         && exists s | s in manifests :: !manifests[s].complete))
  {
    NoneMissing(manifests, 1, total);
    Inhabited(manifests.Keys);
  }

  /** Manifests that disagree on the enumeration: that is the only report. */
  lemma DifferentIff(crc: Checksum, manifests: map<int, Manifest>, total: int)
    requires forall s | 1 <= s <= total :: s in manifests
    ensures Audited(crc, manifests, total) == Verdict([DifferentEnumerations], {})
            <==> manifests == map[]
                 || exists a, b | a in manifests && b in manifests :: manifests[a].allIds != manifests[b].allIds
  {
    NoneMissing(manifests, 1, total);
    Inhabited(manifests.Keys);
    if SameEnumeration(manifests) && 1 in manifests && Scans(manifests, total) {
      ReportsAre(crc, manifests, total, DifferentEnumerations);
      assert DifferentEnumerations in [DifferentEnumerations];
    }
  }
}
