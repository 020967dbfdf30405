/** The audit of scripts/ci_test_shard_summary.py over whatever manifests exist, and the
    manifest writer of scripts/ci_test_shard.py. The checksum crc32 is an arbitrary function. */
module ShardAudit {
  import opened Text
  import opened Order

  type UnitId = string
  type Checksum = UnitId -> nat

  datatype UnitResult = UnitResult(id: UnitId, rc: int)

  datatype Manifest = Manifest(shard: int, total: int, allIds: seq<UnitId>, units: seq<UnitResult>, complete: bool)

  /** Python's `a % n` for a non-negative `a`: the remainder takes the sign of `n`. */
  function PyMod(a: nat, n: int): (r: int)
    requires n != 0
    ensures n > 0 ==> 0 <= r < n
    ensures n < 0 ==> n < r <= 0
  {
    if n > 0 then a % n else if a % -n == 0 then 0 else a % -n + n
  }

  function ShardOf(crc: Checksum, id: UnitId, total: int): int
    requires total != 0
  {
    PyMod(crc(id), total)
  }

  /** The ids of the enumeration that `shard` (1-based) must run, in enumeration order. */
  function Assigned(crc: Checksum, ids: seq<UnitId>, shard: int, total: int): seq<UnitId>
    requires total != 0
  {
    if ids == [] then []
    else
      (if ShardOf(crc, ids[0], total) == shard - 1 then [ids[0]] else [])
      + Assigned(crc, ids[1..], shard, total)
  }

  function ManifestOf(crc: Checksum, shard: int, total: int, ids: seq<UnitId>, results: seq<UnitResult>): Manifest
    requires total != 0
  {
    Manifest(shard, total, ids, results, |results| == |Assigned(crc, ids, shard, total)|)
  }

  /** `load_manifests`: the files in path order, later files overriding an equal shard number. */
  method LoadManifests(files: seq<Manifest>) returns (manifests: map<int, Manifest>)
    ensures manifests == Loaded(files)
    ensures forall s :: s in manifests <==> exists k | 0 <= k < |files| :: files[k].shard == s
    ensures forall s, k | 0 <= k < |files| && IsLast(files, s, k) :: s in manifests && manifests[s] == files[k]
  {
    manifests := map[];
    for k := 0 to |files|
      invariant manifests == Loaded(files[..k])
    {
      manifests := manifests[files[k].shard := files[k]];
      assert files[..k + 1][..k] == files[..k];
    }
    assert files[..|files|] == files;
    LastFileWins(files);
  }

  /** The k-th file is the last one of shard `s`. */
  predicate IsLast(files: seq<Manifest>, s: int, k: nat)
    requires k < |files|
  {
    files[k].shard == s && forall j | k < j < |files| :: files[j].shard != s
  }

  /** A shard is loaded exactly when some file has its number, and then from the last such file. */
  lemma {:induction false} LastFileWins(files: seq<Manifest>)
    ensures forall s :: s in Loaded(files) <==> exists k | 0 <= k < |files| :: files[k].shard == s
    ensures forall s, k | 0 <= k < |files| && IsLast(files, s, k) :: s in Loaded(files) && Loaded(files)[s] == files[k]
  {
    if files != [] {
      var front, last := files[..|files| - 1], files[|files| - 1];
      LastFileWins(front);
      forall s, k | 0 <= k < |files| && IsLast(files, s, k)
        ensures s in Loaded(files) && Loaded(files)[s] == files[k]
      {
        if k < |front| {
          assert last.shard != s;
          assert IsLast(front, s, k);
        }
      }
      forall s
        ensures s in Loaded(files) <==> exists k | 0 <= k < |files| :: files[k].shard == s
      {
        if s in Loaded(front) {
          var k :| 0 <= k < |front| && front[k].shard == s;
          assert files[k].shard == s;
        }
      }
    }
  }

  function Loaded(files: seq<Manifest>): map<int, Manifest> {
    if files == [] then map[]
    else Loaded(files[..|files| - 1])[files[|files| - 1].shard := files[|files| - 1]]
  }

  // ----- the verdict

  datatype Problem =
    | NoManifest(shard: int)
    | DifferentEnumerations
    | UnknownUnit(shard: int, id: UnitId)
    | RanTwice(id: UnitId, first: int, second: int)
    | Unassigned(ids: set<UnitId>)
    | Extra(ids: set<UnitId>)
    | Incomplete(shard: int, unfinished: set<UnitId>)

  /** `Crashed` stands for an uncaught KeyError or ZeroDivisionError. */
  datatype Verdict = Crashed | Verdict(problems: seq<Problem>, failed: set<UnitId>)

  const GREEN: Verdict := Verdict([], {})

  function IdSet(ids: seq<UnitId>): set<UnitId> { set id | id in ids }

  function UnitIds(units: seq<UnitResult>): set<UnitId> { set u | u in units :: u.id }

  // ----- the scan over all executed units

  datatype Entry = Entry(shard: int, unit: UnitResult)

  datatype Scan = Scan(problems: seq<Problem>, executed: map<UnitId, int>, failed: set<UnitId>)

  function Visit(entry: Entry, ids: seq<UnitId>, scan: Scan): Scan {
    var uid := entry.unit.id;
    if uid !in ids then scan.(problems := scan.problems + [UnknownUnit(entry.shard, uid)])
    else if uid in scan.executed then
      scan.(problems := scan.problems + [RanTwice(uid, scan.executed[uid], entry.shard)])
    else
      Scan(scan.problems, scan.executed[uid := entry.shard],
           if entry.unit.rc != 0 then scan.failed + {uid} else scan.failed)
  }

  function ScanAll(entries: seq<Entry>, ids: seq<UnitId>): Scan {
    if entries == [] then Scan([], map[], {})
    else Visit(entries[|entries| - 1], ids, ScanAll(entries[..|entries| - 1], ids))
  }

  function EntriesOf(shard: int, units: seq<UnitResult>): (entries: seq<Entry>)
    ensures |entries| == |units|
    ensures forall k | 0 <= k < |units| :: entries[k] == Entry(shard, units[k])
  {
    seq(|units|, k requires 0 <= k < |units| => Entry(shard, units[k]))
  }

  function Listing(keys: seq<int>, manifests: map<int, Manifest>): seq<Entry>
    requires forall k | 0 <= k < |keys| :: keys[k] in manifests
  {
    if keys == [] then []
    else
      var last := keys[|keys| - 1];
      Listing(keys[..|keys| - 1], manifests) + EntriesOf(last, manifests[last].units)
  }

  function MissingShards(manifests: map<int, Manifest>, from: int, total: int): seq<Problem>
    decreases total - from
  {
    if from > total then []
    else (if from in manifests then [] else [NoManifest(from)]) + MissingShards(manifests, from + 1, total)
  }

  predicate SameEnumeration(manifests: map<int, Manifest>) {
    manifests.Keys != {} &&
    forall a, b | a in manifests && b in manifests :: manifests[a].allIds == manifests[b].allIds
  }

  function IncompleteShards(crc: Checksum, manifests: map<int, Manifest>, keys: seq<int>, ids: seq<UnitId>,
                            total: int): seq<Problem>
    requires total != 0 || ids == [] || forall k | k in keys && k in manifests :: manifests[k].complete
    requires forall k | 0 <= k < |keys| :: keys[k] in manifests
  {
    if keys == [] then []
    else
      var last := keys[|keys| - 1];
      var before := IncompleteShards(crc, manifests, keys[..|keys| - 1], ids, total);
      if manifests[last].complete then before
      else
        var mine := if ids == [] then [] else Assigned(crc, ids, last, total);
        before + [Incomplete(last, IdSet(mine) - UnitIds(manifests[last].units))]
  }

  /** Does some manifest reach the `% total` of an audit asked for zero shards? */
  predicate DividesByZero(manifests: map<int, Manifest>, ids: seq<UnitId>, total: int) {
    total == 0 && ids != [] && exists k | k in manifests :: !manifests[k].complete
  }

  /** The problem list after the scan: coverage, then completeness. */
  function Judge(crc: Checksum, manifests: map<int, Manifest>, total: int, ids: seq<UnitId>, keys: seq<int>,
                 scan: Scan): Verdict
    requires forall k | 0 <= k < |keys| :: keys[k] in manifests
  {
    if DividesByZero(manifests, ids, total) then Crashed
    else
      Verdict(scan.problems + CoverageGaps(IdSet(ids), scan.executed.Keys)
              + IncompleteShards(crc, manifests, keys, ids, total),
              scan.failed)
  }

  function CoverageGaps(enumerated: set<UnitId>, executed: set<UnitId>): seq<Problem> {
    (if enumerated - executed != {} then [Unassigned(enumerated - executed)] else [])
    + (if executed - enumerated != {} then [Extra(executed - enumerated)] else [])
  }

  function KeysOf(manifests: map<int, Manifest>): (keys: seq<int>)
    ensures forall k | 0 <= k < |keys| :: keys[k] in manifests
    ensures forall k :: k in keys <==> k in manifests
    ensures Ascending(keys)
  {
    var keys := Sorted(manifests.Keys);
    assert forall k | 0 <= k < |keys| :: keys[k] in keys;
    keys
  }

  function Audited(crc: Checksum, manifests: map<int, Manifest>, total: int): Verdict {
    var missing := MissingShards(manifests, 1, total);
    if missing != [] then Verdict(missing, {})
    else if !SameEnumeration(manifests) then Verdict([DifferentEnumerations], {})
    else if 1 !in manifests then Crashed
    else
      var ids, keys := manifests[1].allIds, KeysOf(manifests);
      Judge(crc, manifests, total, ids, keys, ScanAll(Listing(keys, manifests), ids))
  }

  // ----- what the scan finds

  predicate Distinct(units: seq<UnitResult>) {
    forall i, j | 0 <= i < j < |units| :: units[i].id != units[j].id
  }

  predicate DistinctEntries(entries: seq<Entry>) {
    forall i, j | 0 <= i < j < |entries| :: entries[i].unit.id != entries[j].unit.id
  }

  function EntryIds(entries: seq<Entry>): set<UnitId> { set e | e in entries :: e.unit.id }

  /** Every entry is enumerated, and none is listed twice. */
  predicate Clean(entries: seq<Entry>, ids: seq<UnitId>) {
    DistinctEntries(entries) && forall k | 0 <= k < |entries| :: entries[k].unit.id in ids
  }

  predicate Passing(entries: seq<Entry>) { forall k | 0 <= k < |entries| :: entries[k].unit.rc == 0 }

  lemma {:induction false} ScanExecutes(entries: seq<Entry>, ids: seq<UnitId>)
    ensures ScanAll(entries, ids).executed.Keys == EntryIds(entries) * IdSet(ids)
    ensures forall p | p in ScanAll(entries, ids).problems :: p.UnknownUnit? || p.RanTwice?
  {
    if entries != [] {
      var front, last := entries[..|entries| - 1], entries[|entries| - 1];
      ScanExecutes(front, ids);
      assert entries == front + [last];
    }
  }

  lemma CleanSnoc(front: seq<Entry>, last: Entry, ids: seq<UnitId>)
    ensures Clean(front + [last], ids)
            <==> Clean(front, ids) && last.unit.id in ids && last.unit.id !in EntryIds(front)
  {
    var entries := front + [last];
    assert forall k | 0 <= k < |front| :: entries[k] == front[k] && front[k] in front;
    assert entries[|front|] == last;
  }

  lemma {:induction false} ScanFinds(entries: seq<Entry>, ids: seq<UnitId>)
    ensures ScanAll(entries, ids).problems == [] <==> Clean(entries, ids)
    ensures Clean(entries, ids) ==> (ScanAll(entries, ids).failed == {} <==> Passing(entries))
  {
    if entries != [] {
      var front, last := entries[..|entries| - 1], entries[|entries| - 1];
      ScanFinds(front, ids);
      ScanExecutes(front, ids);
      assert entries == front + [last];
      CleanSnoc(front, last, ids);
    }
  }

  // ----- the loops of the audit

  function Enumerations(manifests: map<int, Manifest>): set<seq<UnitId>> {
    set k | k in manifests :: manifests[k].allIds
  }

  lemma OneEnumeration(manifests: map<int, Manifest>)
    ensures |Enumerations(manifests)| == 1 <==> SameEnumeration(manifests)
  {
    var lists := Enumerations(manifests);
    if |lists| == 1 {
      var only :| only in lists;
      assert |lists - {only}| == 0;
      forall a, b | a in manifests && b in manifests
        ensures manifests[a].allIds == manifests[b].allIds
      {
        assert manifests[a].allIds in lists && manifests[b].allIds in lists;
      }
    }
    if SameEnumeration(manifests) {
      Inhabited(manifests.Keys);
      var k :| k in manifests;
      assert lists == {manifests[k].allIds};
    }
  }

  method ScanManifest(shard: int, units: seq<UnitResult>, ids: seq<UnitId>, ghost before: seq<Entry>, scan: Scan)
    returns (scan': Scan)
    requires scan == ScanAll(before, ids)
    ensures scan' == ScanAll(before + EntriesOf(shard, units), ids)
  {
    var problems, executed, failed := scan.problems, scan.executed, scan.failed;
    assert before + EntriesOf(shard, units[..0]) == before;
    for j := 0 to |units|
      invariant Scan(problems, executed, failed) == ScanAll(before + EntriesOf(shard, units[..j]), ids)
    {
      var unit := units[j];
      var uid := unit.id;
      ghost var done := before + EntriesOf(shard, units[..j]);
      assert before + EntriesOf(shard, units[..j + 1]) == done + [Entry(shard, unit)];
      if uid !in ids {
        problems := problems + [UnknownUnit(shard, uid)];
        continue;
      }
      if uid in executed {
        problems := problems + [RanTwice(uid, executed[uid], shard)];
        continue;
      }
      executed := executed[uid := shard];
      if unit.rc != 0 {
        failed := failed + {uid};
      }
    }
    assert units[..|units|] == units;
    scan' := Scan(problems, executed, failed);
  }

  lemma ListingSnoc(keys: seq<int>, k: nat, manifests: map<int, Manifest>)
    requires k < |keys| && forall i | 0 <= i < |keys| :: keys[i] in manifests
    ensures Listing(keys[..k + 1], manifests)
            == Listing(keys[..k], manifests) + EntriesOf(keys[k], manifests[keys[k]].units)
  {
    assert keys[..k + 1][..k] == keys[..k];
  }

  lemma IncompleteSnoc(crc: Checksum, manifests: map<int, Manifest>, keys: seq<int>, k: nat, ids: seq<UnitId>,
                       total: int)
    requires k < |keys| && forall i | 0 <= i < |keys| :: keys[i] in manifests
    requires total != 0 || ids == [] || forall s | s in keys[..k + 1] && s in manifests :: manifests[s].complete
    ensures var before := IncompleteShards(crc, manifests, keys[..k], ids, total);
            var m := manifests[keys[k]];
            IncompleteShards(crc, manifests, keys[..k + 1], ids, total)
            == if m.complete then before
               else before + [Incomplete(keys[k],
                 IdSet(if ids == [] then [] else Assigned(crc, ids, keys[k], total)) - UnitIds(m.units))]
  {
    assert keys[..k + 1][..k] == keys[..k];
  }

  method CheckShards(manifests: map<int, Manifest>, total: int) returns (problems: seq<Problem>)
    ensures problems == MissingShards(manifests, 1, total)
  {
    problems := [];
    var shard := 1;
    while shard <= total
      invariant problems + MissingShards(manifests, shard, total) == MissingShards(manifests, 1, total)
      decreases total - shard
    {
      if shard !in manifests {
        problems := problems + [NoManifest(shard)];
      }
      shard := shard + 1;
    }
  }

  /** The last loop; `None` when `% total` divides by zero. */
  method CheckComplete(crc: Checksum, manifests: map<int, Manifest>, keys: seq<int>, ids: seq<UnitId>, total: int)
    returns (problems: Option<seq<Problem>>)
    requires forall i | 0 <= i < |keys| :: keys[i] in manifests
    requires forall k | k in manifests :: k in keys
    ensures problems.None? <==> DividesByZero(manifests, ids, total)
    ensures problems.Some? ==> problems.value == IncompleteShards(crc, manifests, keys, ids, total)
  {
    var found: seq<Problem> := [];
    for k := 0 to |keys|
      invariant total == 0 && ids != [] ==> forall s | s in keys[..k] && s in manifests :: manifests[s].complete
      invariant found == IncompleteShards(crc, manifests, keys[..k], ids, total)
    {
      var shard := keys[k];
      var manifest := manifests[shard];
      assert keys[..k + 1] == keys[..k] + [shard];
      if !manifest.complete {
        if ids != [] && total == 0 {
          return None;
        }
        var mine := if ids == [] then [] else Assigned(crc, ids, shard, total);
        IncompleteSnoc(crc, manifests, keys, k, ids, total);
        found := found + [Incomplete(shard, IdSet(mine) - UnitIds(manifest.units))];
      } else {
        IncompleteSnoc(crc, manifests, keys, k, ids, total);
      }
    }
    assert keys[..|keys|] == keys;
    problems := Some(found);
  }

  method ScanManifests(manifests: map<int, Manifest>, keys: seq<int>, ids: seq<UnitId>) returns (scan: Scan)
    requires forall i | 0 <= i < |keys| :: keys[i] in manifests
    ensures scan == ScanAll(Listing(keys, manifests), ids)
  {
    scan := Scan([], map[], {});
    for k := 0 to |keys|
      invariant scan == ScanAll(Listing(keys[..k], manifests), ids)
    {
      ListingSnoc(keys, k, manifests);
      scan := ScanManifest(keys[k], manifests[keys[k]].units, ids, Listing(keys[..k], manifests), scan);
    }
    assert keys[..|keys|] == keys;
  }

  method Audit(crc: Checksum, manifests: map<int, Manifest>, total: int) returns (verdict: Verdict)
    ensures verdict == Audited(crc, manifests, total)
  {
    var problems := CheckShards(manifests, total);
    if problems != [] {
      return Verdict(problems, {});
    }
    OneEnumeration(manifests);
    if |Enumerations(manifests)| != 1 {
      return Verdict([DifferentEnumerations], {});
    }
    if 1 !in manifests {
      return Crashed;
    }
    var ids, keys := manifests[1].allIds, KeysOf(manifests);
    var scan := ScanManifests(manifests, keys, ids);
    verdict := Conclude(crc, manifests, total, ids, keys, scan);
  }

  method Conclude(crc: Checksum, manifests: map<int, Manifest>, total: int, ids: seq<UnitId>, keys: seq<int>,
                  scan: Scan)
    returns (verdict: Verdict)
    requires forall k | 0 <= k < |keys| :: keys[k] in manifests
    requires forall k | k in manifests :: k in keys
    ensures verdict == Judge(crc, manifests, total, ids, keys, scan)
  {
    var problems := CheckCoverage(scan.problems, IdSet(ids), scan.executed.Keys);
    var unfinished := CheckComplete(crc, manifests, keys, ids, total);
    if unfinished.None? {
      return Crashed;
    }
    verdict := Verdict(problems + unfinished.value, scan.failed);
  }

  method CheckCoverage(found: seq<Problem>, enumerated: set<UnitId>, executed: set<UnitId>)
    returns (problems: seq<Problem>)
    ensures problems == found + CoverageGaps(enumerated, executed)
  {
    problems := found;
    var missing := enumerated - executed;
    if missing != {} {
      problems := problems + [Unassigned(missing)];
    }
    var extra := executed - enumerated;
    if extra != {} {
      problems := problems + [Extra(extra)];
    }
  }
}
