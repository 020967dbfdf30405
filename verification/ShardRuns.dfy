/** The shard jobs of scripts/ci_test_shard.py as a step system: every job runs its assigned
    units in order, snapshots a manifest after each, and may die between any two steps. */
module ShardRuns {
  import opened Text
  import opened ShardAudit
  import opened ShardVerdict

  // ----- one job

  /** What a job was started with: its `--total` and the enumeration it saw. */
  datatype Config = Config(total: int, ids: seq<UnitId>)

  /** `Ready` is before a unit or the final write, `Ran` between a unit and its snapshot. */
  datatype Phase = Ready | Ran | Done | Dead

  datatype Job = Job(results: seq<UnitResult>, manifest: Option<Manifest>, phase: Phase)

  datatype Action = RunUnit(shard: int, rc: int) | Snapshot(shard: int) | Finish(shard: int) | Die(shard: int)

  function Mine(crc: Checksum, shard: int, c: Config): seq<UnitId>
    requires c.total != 0
  {
    Assigned(crc, c.ids, shard, c.total)
  }

  function Written(crc: Checksum, shard: int, c: Config, results: seq<UnitResult>): Manifest
    requires c.total != 0
  {
    ManifestOf(crc, shard, c.total, c.ids, results)
  }

  /** One action of a job; an action that is not enabled changes nothing. */
  function Act(crc: Checksum, shard: int, c: Config, job: Job, action: Action): Job
    requires c.total != 0
  {
    var mine := Mine(crc, shard, c);
    match action
    case RunUnit(_, rc) =>
      if job.phase == Ready && |job.results| < |mine| then
        job.(results := job.results + [UnitResult(mine[|job.results|], rc)], phase := Ran)
      else job
    case Snapshot(_) =>
      if job.phase == Ran then job.(manifest := Some(Written(crc, shard, c, job.results)), phase := Ready)
      else job
    case Finish(_) =>
      if job.phase == Ready && |job.results| == |mine| then
        job.(manifest := Some(Written(crc, shard, c, job.results)), phase := Done)
      else job
    case Die(_) =>
      if job.phase == Done then job else job.(phase := Dead)
  }

  // ----- the system of jobs

  type Configs = map<int, Config>
  type System = map<int, Job>

  /** The script's own argument check: `1 <= shard <= total`. */
  predicate ValidConfigs(cfg: Configs) { forall s | s in cfg :: 1 <= s <= cfg[s].total }

  const START: Job := Job([], None, Ready)

  function Start(cfg: Configs): System { map s | s in cfg :: START }

  function Step(crc: Checksum, cfg: Configs, jobs: System, action: Action): (jobs': System)
    requires ValidConfigs(cfg) && jobs.Keys == cfg.Keys
    ensures jobs'.Keys == cfg.Keys
  {
    var s := action.shard;
    if s in cfg then jobs[s := Act(crc, s, cfg[s], jobs[s], action)] else jobs
  }

  /** The state after a run: any interleaving of the jobs' actions. */
  function Run(crc: Checksum, cfg: Configs, actions: seq<Action>): (jobs: System)
    requires ValidConfigs(cfg)
    ensures jobs.Keys == cfg.Keys
  {
    if actions == [] then Start(cfg)
    else Step(crc, cfg, Run(crc, cfg, actions[..|actions| - 1]), actions[|actions| - 1])
  }

  /** What the summary job downloads. */
  function Collected(jobs: System): map<int, Manifest> {
    map s | s in jobs && jobs[s].manifest.Some? :: jobs[s].manifest.value
  }

  // ----- what every job keeps

  /** `units` are results of the first units of `mine`, in order. */
  predicate PrefixOf(units: seq<UnitResult>, mine: seq<UnitId>) {
    |units| <= |mine| && forall k | 0 <= k < |units| :: units[k].id == mine[k]
  }

  predicate Honest(crc: Checksum, shard: int, c: Config, job: Job)
    requires c.total != 0
  {
    && PrefixOf(job.results, Mine(crc, shard, c))
    && (job.phase == Done ==> job.manifest == Some(Written(crc, shard, c, job.results))
                              && |job.results| == |Mine(crc, shard, c)|)
    && (job.manifest.Some? ==>
          && job.manifest.value.units <= job.results
          && job.manifest.value == Written(crc, shard, c, job.manifest.value.units))
  }

  lemma ActKeepsHonest(crc: Checksum, shard: int, c: Config, job: Job, action: Action)
    requires c.total != 0 && Honest(crc, shard, c, job)
    ensures Honest(crc, shard, c, Act(crc, shard, c, job, action))
  {
  }

  predicate AllHonest(crc: Checksum, cfg: Configs, jobs: System)
    requires ValidConfigs(cfg)
  {
    jobs.Keys == cfg.Keys && forall s | s in cfg :: Honest(crc, s, cfg[s], jobs[s])
  }

  /** Safety over whole runs: in every reachable state every job is honest. */
  lemma {:induction false} RunKeepsHonest(crc: Checksum, cfg: Configs, actions: seq<Action>)
    requires ValidConfigs(cfg)
    ensures AllHonest(crc, cfg, Run(crc, cfg, actions))
  {
    if actions != [] {
      var front, last := actions[..|actions| - 1], actions[|actions| - 1];
      RunKeepsHonest(crc, cfg, front);
      var before := Run(crc, cfg, front);
      if last.shard in cfg {
        ActKeepsHonest(crc, last.shard, cfg[last.shard], before[last.shard], last);
      }
    }
  }

  /** What a job has run and written stays: later results and manifests only go on. */
  predicate GoesOn(before: Job, after: Job) {
    && before.results <= after.results
    && (before.manifest.Some? ==>
          after.manifest.Some? && before.manifest.value.units <= after.manifest.value.units)
    && (after.phase == Dead && before.phase != Dead ==> after == before.(phase := Dead))
  }

  lemma ActGoesOn(crc: Checksum, shard: int, c: Config, job: Job, action: Action)
    requires c.total != 0 && Honest(crc, shard, c, job)
    ensures GoesOn(job, Act(crc, shard, c, job, action))
  {
  }

  /** However a run goes on, no result and no manifest is lost, least of all by a crash. */
  lemma {:induction false} NothingIsLost(crc: Checksum, cfg: Configs, a: seq<Action>, b: seq<Action>, s: int)
    requires ValidConfigs(cfg) && s in cfg
    ensures var before, after := Run(crc, cfg, a)[s], Run(crc, cfg, a + b)[s];
            && before.results <= after.results
            && (before.manifest.Some? ==>
                  after.manifest.Some? && before.manifest.value.units <= after.manifest.value.units)
    decreases |b|
  {
    if b == [] {
      CatEmpty(a);
    } else {
      var front, last := b[..|b| - 1], b[|b| - 1];
      NothingIsLost(crc, cfg, a, front, s);
      assert (a + b)[..|a + b| - 1] == a + front && (a + b)[|a + b| - 1] == last;
      RunKeepsHonest(crc, cfg, a + front);
      if last.shard == s {
        ActGoesOn(crc, s, cfg[s], Run(crc, cfg, a + front)[s], last);
      }
    }
  }

  // ----- executions, as opposed to reports

  /** The k-th unit a job really executed. */
  datatype Execution = Execution(shard: int, k: nat)

  ghost predicate Executed(jobs: System, x: Execution, id: UnitId) {
    x.shard in jobs && x.k < |jobs[x.shard].results| && jobs[x.shard].results[x.k].id == id
  }

  /** `id` was executed, exactly once over all jobs, and passed. */
  ghost predicate RanOnceAndPassed(jobs: System, id: UnitId) {
    exists x ::
      && Executed(jobs, x, id)
      && jobs[x.shard].results[x.k].rc == 0
      && forall y :: Executed(jobs, y, id) ==> y == x
  }

  /** An honest job whose manifest says `complete` has run, and reported, all of its units. */
  lemma CompleteIsFinished(crc: Checksum, shard: int, c: Config, job: Job)
    requires c.total != 0 && Honest(crc, shard, c, job)
    requires job.manifest.Some? && job.manifest.value.complete
    ensures |job.results| == |Mine(crc, shard, c)|
    ensures job.manifest.value == Written(crc, shard, c, job.results)
  {
    assert job.manifest.value.units == job.results;
  }

  /** Green over honest jobs: all of them reported all they ran. */
  lemma GreenJobsFinished(crc: Checksum, cfg: Configs, jobs: System, total: int)
    requires ValidConfigs(cfg) && AllHonest(crc, cfg, jobs)
    requires (forall s | s in cfg :: 1 <= s <= total) && Sound(Collected(jobs), total)
    ensures Collected(jobs).Keys == jobs.Keys
    ensures forall s | s in cfg ::
              |jobs[s].results| == |Mine(crc, s, cfg[s])|
              && Collected(jobs)[s] == Written(crc, s, cfg[s], jobs[s].results)
  {
    var manifests := Collected(jobs);
    forall s | s in cfg
      ensures s in manifests && |jobs[s].results| == |Mine(crc, s, cfg[s])|
      ensures manifests[s] == Written(crc, s, cfg[s], jobs[s].results)
    {
      assert s in manifests && manifests[s].complete;
      CompleteIsFinished(crc, s, cfg[s], jobs[s]);
    }
  }

  lemma NoFalseGreenState(crc: Checksum, cfg: Configs, jobs: System, total: int, s: int, id: UnitId)
    requires ValidConfigs(cfg) && AllHonest(crc, cfg, jobs)
    requires (forall s | s in cfg :: 1 <= s <= total) && Sound(Collected(jobs), total)
    requires s in cfg && id in cfg[s].ids
    ensures RanOnceAndPassed(jobs, id)
  {
    GreenJobsFinished(crc, cfg, jobs, total);
    var manifests := Collected(jobs);
    assert manifests[s].allIds == manifests[1].allIds;
    assert Covered(manifests, id);
    CoveredRanOnce(jobs, manifests, total, id);
  }

  /** No false green, over every run: whatever crashed and whenever the audit looked, a green
      verdict means that every unit any job enumerated was executed exactly once, with exit
      code 0, and that no job stopped with units unrun. */
  lemma NoFalseGreen(crc: Checksum, cfg: Configs, actions: seq<Action>, total: int)
    requires ValidConfigs(cfg) && forall s | s in cfg :: 1 <= s <= total
    requires Audited(crc, Collected(Run(crc, cfg, actions)), total) == GREEN
    ensures var jobs := Run(crc, cfg, actions);
            && (forall s | 1 <= s <= total :: s in cfg)
            && (forall s | s in cfg :: |jobs[s].results| == |Mine(crc, s, cfg[s])|)
            && (forall s, id | s in cfg && id in cfg[s].ids :: RanOnceAndPassed(jobs, id))
  {
    var jobs := Run(crc, cfg, actions);
    GreenIff(crc, Collected(jobs), total);
    RunKeepsHonest(crc, cfg, actions);
    GreenJobsFinished(crc, cfg, jobs, total);
    forall s, id | s in cfg && id in cfg[s].ids
      ensures RanOnceAndPassed(jobs, id)
    {
      NoFalseGreenState(crc, cfg, jobs, total, s, id);
    }
  }

  lemma CoveredRanOnce(jobs: System, manifests: map<int, Manifest>, total: int, id: UnitId)
    requires Sound(manifests, total) && Covered(manifests, id)
    requires manifests.Keys == jobs.Keys
    requires forall s | s in jobs :: manifests[s].units == jobs[s].results
    ensures RanOnceAndPassed(jobs, id)
  {
    var s :| s in manifests && id in UnitIds(manifests[s].units);
    var k: nat :| k < |manifests[s].units| && manifests[s].units[k].id == id;
    var x := Execution(s, k);
    assert manifests[s].units[k].rc == 0;
    forall y | Executed(jobs, y, id)
      ensures y == x
    {
      assert y.shard in manifests && id in UnitIds(manifests[y.shard].units);
      assert y.shard == s;
      assert Distinct(manifests[s].units);
    }
    assert Executed(jobs, x, id);
  }

  // ----- jobs that saw the same enumeration and the same total

  /** Every job was started with the audit's own total and with `ids`. */
  ghost predicate Uniform(cfg: Configs, total: int, ids: seq<UnitId>) {
    total >= 1 && (forall s :: s in cfg <==> 1 <= s <= total) && forall s | s in cfg :: cfg[s] == Config(total, ids)
  }

  predicate NoRepeats(ids: seq<UnitId>) { forall i, j | 0 <= i < j < |ids| :: ids[i] != ids[j] }

  lemma {:induction false} AssignedIs(crc: Checksum, ids: seq<UnitId>, shard: int, total: int, id: UnitId)
    requires total != 0
    ensures id in Assigned(crc, ids, shard, total) <==> id in ids && ShardOf(crc, id, total) == shard - 1
  {
    if ids != [] {
      AssignedIs(crc, ids[1..], shard, total, id);
    }
  }

  lemma NoRepeatsCons(x: UnitId, rest: seq<UnitId>)
    ensures NoRepeats([x] + rest) <==> x !in rest && NoRepeats(rest)
  {
    var all := [x] + rest;
    if NoRepeats(all) {
      assert forall k | 0 <= k < |rest| :: all[k + 1] == rest[k] && all[0] != all[k + 1];
    }
  }

  lemma AssignedStep(crc: Checksum, x: UnitId, rest: seq<UnitId>, s: int, total: int)
    requires total != 0
    ensures NoRepeats(Assigned(crc, [x] + rest, s, total))
            <==> (ShardOf(crc, x, total) == s - 1 ==> x !in rest) && NoRepeats(Assigned(crc, rest, s, total))
  {
    var group := Assigned(crc, rest, s, total);
    assert ([x] + rest)[1..] == rest;
    assert Assigned(crc, [x] + rest, s, total) == if ShardOf(crc, x, total) == s - 1 then [x] + group else group;
    NoRepeatsCons(x, Assigned(crc, rest, s, total));
    AssignedIs(crc, rest, s, total, x);
  }

  lemma {:induction false} ClassRepeatsNothing(crc: Checksum, ids: seq<UnitId>, s: int, total: int)
    requires total != 0 && NoRepeats(ids)
    ensures NoRepeats(Assigned(crc, ids, s, total))
  {
    if ids != [] {
      assert ids == [ids[0]] + ids[1..];
      NoRepeatsCons(ids[0], ids[1..]);
      ClassRepeatsNothing(crc, ids[1..], s, total);
      AssignedStep(crc, ids[0], ids[1..], s, total);
    }
  }

  lemma {:induction false} RepeatShowsInClass(crc: Checksum, ids: seq<UnitId>, total: int)
    requires total >= 1 && forall s | 1 <= s <= total :: NoRepeats(Assigned(crc, ids, s, total))
    ensures NoRepeats(ids)
  {
    if ids != [] {
      var x, rest := ids[0], ids[1..];
      assert ids == [x] + rest;
      forall s | 1 <= s <= total
        ensures NoRepeats(Assigned(crc, rest, s, total))
      {
        AssignedStep(crc, x, rest, s, total);
      }
      RepeatShowsInClass(crc, rest, total);
      AssignedStep(crc, x, rest, ShardOf(crc, x, total) + 1, total);
      NoRepeatsCons(x, rest);
    }
  }

  /** Length counting and set difference agree for an honest prefix of a repeat-free class. */
  lemma CompleteIffNothingMissing(units: seq<UnitResult>, mine: seq<UnitId>)
    requires PrefixOf(units, mine) && NoRepeats(mine)
    ensures |units| == |mine| <==> IdSet(mine) - UnitIds(units) == {}
  {
    if |units| < |mine| {
      var id := mine[|units|];
      assert id in mine && id !in UnitIds(units);
      assert id in IdSet(mine) - UnitIds(units);
    } else {
      forall id | id in mine
        ensures id in UnitIds(units)
      {
        var k :| 0 <= k < |mine| && mine[k] == id;
      }
    }
  }

  /** Every job's latest snapshot lists its whole class, all passing. */
  predicate AllReportedGreen(crc: Checksum, total: int, ids: seq<UnitId>, jobs: System)
    requires total != 0
  {
    forall s | s in jobs ::
      && jobs[s].manifest.Some?
      && |jobs[s].manifest.value.units| == |Assigned(crc, ids, s, total)|
      && AllPassed(jobs[s].manifest.value.units)
  }

  /** The hash class of one shard. */
  function Class(crc: Checksum, ids: seq<UnitId>, shard: int, total: int): set<UnitId>
    requires total != 0
  {
    set id | id in ids && ShardOf(crc, id, total) == shard - 1
  }

  lemma FullClass(crc: Checksum, total: int, ids: seq<UnitId>, jobs: System, cfg: Configs, s: int)
    requires Uniform(cfg, total, ids) && ValidConfigs(cfg) && AllHonest(crc, cfg, jobs)
    requires AllReportedGreen(crc, total, ids, jobs) && s in cfg
    ensures var m := Collected(jobs)[s];
            && m.allIds == ids && m.complete && AllPassed(m.units)
            && UnitIds(m.units) == Class(crc, ids, s, total)
            && (Distinct(m.units) <==> NoRepeats(Assigned(crc, ids, s, total)))
  {
    assert Honest(crc, s, cfg[s], jobs[s]);
    forall id
      ensures id in Assigned(crc, ids, s, total) <==> id in Class(crc, ids, s, total)
    {
      AssignedIs(crc, ids, s, total, id);
    }
  }

  lemma ClassesPartition(crc: Checksum, total: int, ids: seq<UnitId>, manifests: map<int, Manifest>)
    requires total >= 1 && forall s | 1 <= s <= total :: s in manifests
    requires forall s | s in manifests ::
               Distinct(manifests[s].units) && UnitIds(manifests[s].units) == Class(crc, ids, s, total)
    ensures Partition(manifests, ids)
  {
    forall id | id in ids
      ensures Covered(manifests, id)
    {
      var home := ShardOf(crc, id, total) + 1;
      assert home in manifests && id in UnitIds(manifests[home].units);
    }
  }

  lemma ReportedIsSound(crc: Checksum, cfg: Configs, jobs: System, total: int, ids: seq<UnitId>)
    requires Uniform(cfg, total, ids) && ValidConfigs(cfg) && AllHonest(crc, cfg, jobs)
    requires NoRepeats(ids) && AllReportedGreen(crc, total, ids, jobs)
    ensures Sound(Collected(jobs), total)
  {
    var manifests := Collected(jobs);
    assert forall s :: s in manifests <==> s in jobs;
    forall s | s in manifests
      ensures manifests[s].allIds == ids && manifests[s].complete && AllPassed(manifests[s].units)
      ensures Distinct(manifests[s].units) && UnitIds(manifests[s].units) == Class(crc, ids, s, total)
    {
      FullClass(crc, total, ids, jobs, cfg, s);
      ClassRepeatsNothing(crc, ids, s, total);
    }
    ClassesPartition(crc, total, ids, manifests);
    assert 1 in manifests;
  }

  lemma SoundIsReported(crc: Checksum, cfg: Configs, jobs: System, total: int, ids: seq<UnitId>)
    requires Uniform(cfg, total, ids) && ValidConfigs(cfg) && AllHonest(crc, cfg, jobs)
    requires Sound(Collected(jobs), total)
    ensures NoRepeats(ids) && AllReportedGreen(crc, total, ids, jobs)
  {
    var manifests := Collected(jobs);
    GreenJobsFinished(crc, cfg, jobs, total);
    forall s | s in jobs
      ensures jobs[s].manifest.Some? && jobs[s].manifest.value == manifests[s]
      ensures |manifests[s].units| == |Assigned(crc, ids, s, total)| && AllPassed(manifests[s].units)
    {
      assert s in manifests;
    }
    forall s | 1 <= s <= total
      ensures NoRepeats(Assigned(crc, ids, s, total))
    {
      FullClass(crc, total, ids, jobs, cfg, s);
      assert s in manifests;
    }
    RepeatShowsInClass(crc, ids, total);
  }

  /** The verdict on uniform honest jobs, exactly: green when and only when the enumeration
      repeats no id and every job's snapshot lists its whole hash class with exit code 0. */
  lemma UniformGreenIff(crc: Checksum, cfg: Configs, actions: seq<Action>, total: int, ids: seq<UnitId>)
    requires Uniform(cfg, total, ids)
    ensures ValidConfigs(cfg)
    ensures var jobs := Run(crc, cfg, actions);
            Audited(crc, Collected(jobs), total) == GREEN
            <==> NoRepeats(ids) && AllReportedGreen(crc, total, ids, jobs)
  {
    var jobs := Run(crc, cfg, actions);
    GreenIff(crc, Collected(jobs), total);
    RunKeepsHonest(crc, cfg, actions);
    if Sound(Collected(jobs), total) {
      SoundIsReported(crc, cfg, jobs, total, ids);
    }
    if NoRepeats(ids) && AllReportedGreen(crc, total, ids, jobs) {
      ReportedIsSound(crc, cfg, jobs, total, ids);
    }
  }

  /** No false red: when all jobs ran to the end on one repeat-free enumeration and every
      unit passed, the audit is green. */
  lemma NoFalseRed(crc: Checksum, cfg: Configs, actions: seq<Action>, total: int, ids: seq<UnitId>)
    requires Uniform(cfg, total, ids) && NoRepeats(ids)
    requires var jobs := Run(crc, cfg, actions);
             forall s | s in cfg :: jobs[s].phase == Done && AllPassed(jobs[s].results)
    ensures Audited(crc, Collected(Run(crc, cfg, actions)), total) == GREEN
  {
    UniformGreenIff(crc, cfg, actions, total, ids);
    RunKeepsHonest(crc, cfg, actions);
    var jobs := Run(crc, cfg, actions);
    forall s | s in jobs
      ensures jobs[s].manifest == Some(Written(crc, s, cfg[s], jobs[s].results))
      ensures |jobs[s].results| == |Assigned(crc, ids, s, total)|
    {
      assert Honest(crc, s, cfg[s], jobs[s]);
    }
  }
}
