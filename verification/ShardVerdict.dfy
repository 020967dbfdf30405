/** Exactly which collections of manifests the audit passes, with no assumption on how the
    manifests came about. */
module ShardVerdict {
  import opened ShardAudit

  predicate AllPassed(units: seq<UnitResult>) { forall k | 0 <= k < |units| :: units[k].rc == 0 }

  ghost predicate Covered(manifests: map<int, Manifest>, id: UnitId) {
    exists s :: s in manifests && id in UnitIds(manifests[s].units)
  }

  /** The units listed over all manifests are a duplicate-free enumeration of exactly `ids`. */
  ghost predicate Partition(manifests: map<int, Manifest>, ids: seq<UnitId>) {
    && (forall s | s in manifests :: Distinct(manifests[s].units) && UnitIds(manifests[s].units) <= IdSet(ids))
    && (forall a, b | a in manifests && b in manifests && a != b ::
          UnitIds(manifests[a].units) !! UnitIds(manifests[b].units))
    && (forall id | id in ids :: Covered(manifests, id))
  }

  ghost predicate Sound(manifests: map<int, Manifest>, total: int) {
    && (forall s | 1 <= s <= total :: s in manifests)
    && SameEnumeration(manifests)
    && 1 in manifests
    && (forall s | s in manifests :: manifests[s].complete && AllPassed(manifests[s].units))
    && Partition(manifests, manifests[1].allIds)
  }

  lemma {:induction false} NoneMissing(manifests: map<int, Manifest>, from: int, total: int)
    ensures MissingShards(manifests, from, total) == [] <==> forall s | from <= s <= total :: s in manifests
    decreases total - from
  {
    if from <= total {
      NoneMissing(manifests, from + 1, total);
      assert (forall s | from <= s <= total :: s in manifests)
             <==> from in manifests && forall s | from + 1 <= s <= total :: s in manifests;
    }
  }

  lemma CleanCat(a: seq<Entry>, b: seq<Entry>, ids: seq<UnitId>)
    ensures Clean(a + b, ids) <==> Clean(a, ids) && Clean(b, ids) && EntryIds(a) !! EntryIds(b)
  {
    var all := a + b;
    if Clean(all, ids) {
      assert forall k | 0 <= k < |a| :: all[k] == a[k];
      assert forall k | 0 <= k < |b| :: all[|a| + k] == b[k];
      forall i, j | 0 <= i < |a| && 0 <= j < |b|
        ensures a[i].unit.id != b[j].unit.id
      {
        assert all[i] == a[i] && all[|a| + j] == b[j];
      }
    }
    if Clean(a, ids) && Clean(b, ids) && EntryIds(a) !! EntryIds(b) {
      assert forall k | 0 <= k < |a| :: a[k] in a && all[k] == a[k];
      assert forall k | |a| <= k < |all| :: all[k] == b[k - |a|] && b[k - |a|] in b;
      forall i, j | 0 <= i < j < |all|
        ensures all[i].unit.id != all[j].unit.id
      {
        if i < |a| <= j {
          assert all[i].unit.id in EntryIds(a) && all[j].unit.id in EntryIds(b);
        }
      }
    }
  }

  lemma EntriesOfUnits(shard: int, units: seq<UnitResult>, ids: seq<UnitId>)
    ensures EntryIds(EntriesOf(shard, units)) == UnitIds(units)
    ensures Clean(EntriesOf(shard, units), ids) <==> Distinct(units) && UnitIds(units) <= IdSet(ids)
    ensures Passing(EntriesOf(shard, units)) <==> AllPassed(units)
  {
    var entries := EntriesOf(shard, units);
    forall x
      ensures x in EntryIds(entries) <==> x in UnitIds(units)
    {
      if x in EntryIds(entries) {
        var k :| 0 <= k < |entries| && entries[k].unit.id == x;
        assert units[k] in units;
      }
      if x in UnitIds(units) {
        var k :| 0 <= k < |units| && units[k].id == x;
        assert entries[k] in entries;
      }
    }
    assert forall k | 0 <= k < |units| :: entries[k].unit == units[k] && units[k].id in UnitIds(units);
    assert UnitIds(units) <= IdSet(ids) <==> forall k | 0 <= k < |units| :: units[k].id in ids;
  }

  /** The part of the partition that the first `n` keys account for. */
  ghost predicate Separate(keys: seq<int>, manifests: map<int, Manifest>, ids: seq<UnitId>)
    requires forall k | 0 <= k < |keys| :: keys[k] in manifests
  {
    && (forall k | 0 <= k < |keys| ::
          Distinct(manifests[keys[k]].units) && UnitIds(manifests[keys[k]].units) <= IdSet(ids))
    && (forall i, j | 0 <= i < j < |keys| ::
          UnitIds(manifests[keys[i]].units) !! UnitIds(manifests[keys[j]].units))
  }

  /** Does one of the listed shards report `id`? */
  predicate Reported(keys: seq<int>, manifests: map<int, Manifest>, id: UnitId)
    requires forall k | 0 <= k < |keys| :: keys[k] in manifests
  {
    exists k | 0 <= k < |keys| :: id in UnitIds(manifests[keys[k]].units)
  }

  lemma {:induction false} ListingIds(keys: seq<int>, manifests: map<int, Manifest>, id: UnitId)
    requires forall k | 0 <= k < |keys| :: keys[k] in manifests
    ensures id in EntryIds(Listing(keys, manifests)) <==> Reported(keys, manifests, id)
  {
    if keys != [] {
      var front, last := keys[..|keys| - 1], keys[|keys| - 1];
      ListingIds(front, manifests, id);
      EntriesOfUnits(last, manifests[last].units, []);
    }
  }

  lemma PassingCat(a: seq<Entry>, b: seq<Entry>)
    ensures Passing(a + b) <==> Passing(a) && Passing(b)
  {
    assert forall k | 0 <= k < |a| :: (a + b)[k] == a[k];
    assert forall k | 0 <= k < |b| :: (a + b)[|a| + k] == b[k];
  }

  lemma {:induction false} ListingPasses(keys: seq<int>, manifests: map<int, Manifest>)
    requires forall k | 0 <= k < |keys| :: keys[k] in manifests
    ensures Passing(Listing(keys, manifests)) <==> forall k | 0 <= k < |keys| :: AllPassed(manifests[keys[k]].units)
  {
    if keys != [] {
      var front, last := keys[..|keys| - 1], keys[|keys| - 1];
      ListingPasses(front, manifests);
      EntriesOfUnits(last, manifests[last].units, []);
      PassingCat(Listing(front, manifests), EntriesOf(last, manifests[last].units));
      assert keys == front + [last];
    }
  }

  lemma {:induction false} ListingClean(keys: seq<int>, manifests: map<int, Manifest>, ids: seq<UnitId>)
    requires forall k | 0 <= k < |keys| :: keys[k] in manifests
    ensures Clean(Listing(keys, manifests), ids) <==> Separate(keys, manifests, ids)
  {
    if keys != [] {
      var front, last := keys[..|keys| - 1], keys[|keys| - 1];
      ListingClean(front, manifests, ids);
      var a, b := Listing(front, manifests), EntriesOf(last, manifests[last].units);
      EntriesOfUnits(last, manifests[last].units, ids);
      CleanCat(a, b, ids);
      assert keys == front + [last];
      DisjointFromFront(front, manifests, UnitIds(manifests[last].units));
    }
  }

  lemma DisjointFromFront(front: seq<int>, manifests: map<int, Manifest>, last: set<UnitId>)
    requires forall k | 0 <= k < |front| :: front[k] in manifests
    ensures EntryIds(Listing(front, manifests)) !! last
            <==> forall i | 0 <= i < |front| :: UnitIds(manifests[front[i]].units) !! last
  {
    forall id
      ensures id in EntryIds(Listing(front, manifests)) <==> Reported(front, manifests, id)
    {
      ListingIds(front, manifests, id);
    }
  }

  lemma {:induction false} NoneIncomplete(crc: Checksum, manifests: map<int, Manifest>, keys: seq<int>,
                                         ids: seq<UnitId>, total: int)
    requires total != 0 || ids == [] || forall k | k in keys && k in manifests :: manifests[k].complete
    requires forall k | 0 <= k < |keys| :: keys[k] in manifests
    ensures IncompleteShards(crc, manifests, keys, ids, total) == []
            <==> forall k | 0 <= k < |keys| :: manifests[keys[k]].complete
  {
    if keys != [] {
      NoneIncomplete(crc, manifests, keys[..|keys| - 1], ids, total);
    }
  }

  lemma PartitionOfKeys(manifests: map<int, Manifest>, ids: seq<UnitId>)
    ensures var keys := KeysOf(manifests);
            Partition(manifests, ids)
            <==> Separate(keys, manifests, ids) && IdSet(ids) <= EntryIds(Listing(keys, manifests))
  {
    var listed := EntryIds(Listing(KeysOf(manifests), manifests));
    forall id
      ensures id in listed <==> Covered(manifests, id)
    {
      ListedIsCovered(manifests, id);
    }
    SeparateKeys(manifests, ids);
    assert IdSet(ids) <= listed <==> forall id | id in ids :: Covered(manifests, id);
  }

  lemma ListedIsCovered(manifests: map<int, Manifest>, id: UnitId)
    ensures id in EntryIds(Listing(KeysOf(manifests), manifests)) <==> Covered(manifests, id)
  {
    var keys := KeysOf(manifests);
    ListingIds(keys, manifests, id);
    assert forall s | s in manifests :: s in keys;
  }

  /** The listed units of different manifests, each within the enumeration, are apart. */
  ghost predicate Apart(manifests: map<int, Manifest>, ids: seq<UnitId>) {
    && (forall s | s in manifests :: Distinct(manifests[s].units) && UnitIds(manifests[s].units) <= IdSet(ids))
    && (forall a, b | a in manifests && b in manifests && a != b ::
          UnitIds(manifests[a].units) !! UnitIds(manifests[b].units))
  }

  lemma SeparateIsApart(keys: seq<int>, manifests: map<int, Manifest>, ids: seq<UnitId>)
    requires forall k | 0 <= k < |keys| :: keys[k] in manifests
    requires forall s | s in manifests :: s in keys
    requires Separate(keys, manifests, ids)
    ensures Apart(manifests, ids)
  {
    forall a, b | a in manifests && b in manifests && a != b
      ensures UnitIds(manifests[a].units) !! UnitIds(manifests[b].units)
    {
      var i :| 0 <= i < |keys| && keys[i] == a;
      var j :| 0 <= j < |keys| && keys[j] == b;
      assert i < j || j < i;
    }
  }

  lemma ApartIsSeparate(keys: seq<int>, manifests: map<int, Manifest>, ids: seq<UnitId>)
    requires forall k | 0 <= k < |keys| :: keys[k] in manifests
    requires forall i, j | 0 <= i < j < |keys| :: keys[i] != keys[j]
    requires Apart(manifests, ids)
    ensures Separate(keys, manifests, ids)
  {
    forall k | 0 <= k < |keys|
      ensures Distinct(manifests[keys[k]].units) && UnitIds(manifests[keys[k]].units) <= IdSet(ids)
    {
      var s := keys[k];
      assert s in manifests;
      assert Distinct(manifests[s].units) && UnitIds(manifests[s].units) <= IdSet(ids);
    }
    forall i, j | 0 <= i < j < |keys|
      ensures UnitIds(manifests[keys[i]].units) !! UnitIds(manifests[keys[j]].units)
    {
      var a, b := keys[i], keys[j];
      assert a in manifests && b in manifests && a != b;
      assert UnitIds(manifests[a].units) !! UnitIds(manifests[b].units);
    }
  }

  lemma SeparateKeys(manifests: map<int, Manifest>, ids: seq<UnitId>)
    ensures Separate(KeysOf(manifests), manifests, ids) <==> Apart(manifests, ids)
  {
    var keys := KeysOf(manifests);
    assert forall s | s in manifests :: s in keys;
    if Separate(keys, manifests, ids) {
      SeparateIsApart(keys, manifests, ids);
    }
    if Apart(manifests, ids) {
      ApartIsSeparate(keys, manifests, ids);
    }
  }

  /** Soundness and completeness of the audit: green exactly on sound collections. */
  lemma GreenIff(crc: Checksum, manifests: map<int, Manifest>, total: int)
    ensures Audited(crc, manifests, total) == GREEN <==> Sound(manifests, total)
  {
    NoneMissing(manifests, 1, total);
    if MissingShards(manifests, 1, total) == [] && SameEnumeration(manifests) && 1 in manifests {
      JudgedGreenIff(crc, manifests, total);
    }
  }

  lemma JudgeParts(crc: Checksum, manifests: map<int, Manifest>, total: int, ids: seq<UnitId>, keys: seq<int>,
                   scan: Scan)
    requires forall k | 0 <= k < |keys| :: keys[k] in manifests
    requires forall k | k in manifests :: k in keys
    requires scan.executed.Keys <= IdSet(ids)
    ensures Judge(crc, manifests, total, ids, keys, scan) == GREEN
            <==> && scan.problems == [] && scan.failed == {}
                 && IdSet(ids) <= scan.executed.Keys
                 && forall k | 0 <= k < |keys| :: manifests[keys[k]].complete
  {
    if !DividesByZero(manifests, ids, total) {
      NoneIncomplete(crc, manifests, keys, ids, total);
    } else {
      var s :| s in manifests && !manifests[s].complete;
      assert s in keys;
    }
  }

  lemma JudgedGreenIff(crc: Checksum, manifests: map<int, Manifest>, total: int)
    requires 1 in manifests && SameEnumeration(manifests)
    ensures var ids, keys := manifests[1].allIds, KeysOf(manifests);
            Judge(crc, manifests, total, ids, keys, ScanAll(Listing(keys, manifests), ids)) == GREEN
            <==> Partition(manifests, ids)
                 && (forall s | s in manifests :: manifests[s].complete)
                 && forall s | s in manifests :: AllPassed(manifests[s].units)
  {
    var ids, keys := manifests[1].allIds, KeysOf(manifests);
    var entries := Listing(keys, manifests);
    ScanExecutes(entries, ids);
    ScanFinds(entries, ids);
    JudgeParts(crc, manifests, total, ids, keys, ScanAll(entries, ids));
    ListingClean(keys, manifests, ids);
    ListingPasses(keys, manifests);
    PartitionOfKeys(manifests, ids);
    assert IdSet(ids) <= EntryIds(entries) * IdSet(ids) <==> IdSet(ids) <= EntryIds(entries);
  }

  /** The "assigned outside the enumeration" report is unreachable. */
  lemma ExtraNeverFires(crc: Checksum, manifests: map<int, Manifest>, total: int)
    ensures var v := Audited(crc, manifests, total);
            v.Verdict? ==> forall p | p in v.problems :: !p.Extra?
  {
    MissingKinds(manifests, 1, total);
    if MissingShards(manifests, 1, total) == [] && SameEnumeration(manifests) && 1 in manifests {
      var ids, keys := manifests[1].allIds, KeysOf(manifests);
      JudgeKinds(crc, manifests, total, ids, keys, Listing(keys, manifests));
    }
  }

  lemma JudgeKinds(crc: Checksum, manifests: map<int, Manifest>, total: int, ids: seq<UnitId>, keys: seq<int>,
                   entries: seq<Entry>)
    requires forall k | 0 <= k < |keys| :: keys[k] in manifests
    ensures var v := Judge(crc, manifests, total, ids, keys, ScanAll(entries, ids));
            v.Verdict? ==> forall p | p in v.problems :: !p.Extra?
  {
    ScanExecutes(entries, ids);
    if !DividesByZero(manifests, ids, total) {
      IncompleteKinds(crc, manifests, keys, ids, total);
    }
  }

  lemma {:induction false} MissingKinds(manifests: map<int, Manifest>, from: int, total: int)
    ensures forall p | p in MissingShards(manifests, from, total) :: p.NoManifest?
    decreases total - from
  {
    if from <= total {
      MissingKinds(manifests, from + 1, total);
    }
  }

  lemma {:induction false} IncompleteKinds(crc: Checksum, manifests: map<int, Manifest>, keys: seq<int>,
                                          ids: seq<UnitId>, total: int)
    requires total != 0 || ids == [] || forall k | k in keys && k in manifests :: manifests[k].complete
    requires forall k | 0 <= k < |keys| :: keys[k] in manifests
    ensures forall p | p in IncompleteShards(crc, manifests, keys, ids, total) :: p.Incomplete?
  {
    if keys != [] {
      IncompleteKinds(crc, manifests, keys[..|keys| - 1], ids, total);
    }
  }
}
