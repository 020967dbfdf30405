/** The run loop of one shard job, its place in the step system, and the download of the
    manifests it leaves behind. */
module ShardScript {
  import opened Text
  import opened ShardAudit
  import opened ShardRuns

  /** Exit code of the k-th unit run. */
  type Outcome = (nat, UnitId) -> int

  function ResultsOf(mine: seq<UnitId>, outcome: Outcome): (results: seq<UnitResult>)
    ensures |results| == |mine|
    ensures forall k | 0 <= k < |mine| :: results[k] == UnitResult(mine[k], outcome(k, mine[k]))
  {
    seq(|mine|, k requires 0 <= k < |mine| => UnitResult(mine[k], outcome(k, mine[k])))
  }

  /** The run loop of `main`: `writes` is every manifest that replaced the file, in order. */
  method RunShard(crc: Checksum, shard: int, total: int, ids: seq<UnitId>, outcome: Outcome)
    returns (writes: seq<Manifest>, exit: int)
    ensures !(1 <= shard <= total) ==> writes == [] && exit == 2
    ensures 1 <= shard <= total ==>
              var c := Config(total, ids);
              var results := ResultsOf(Mine(crc, shard, c), outcome);
              && |writes| == |results| + 1
              && (forall k | 0 <= k < |results| :: writes[k] == Written(crc, shard, c, results[..k + 1]))
              && writes[|results|] == Written(crc, shard, c, results)
              && (forall k | 0 <= k < |writes| ::
                    && writes[k].shard == shard && writes[k].total == total && writes[k].allIds == ids
                    && writes[k].units == (if k < |results| then results[..k + 1] else results)
                    && (writes[k].complete <==> |writes[k].units| == |Assigned(crc, ids, shard, total)|))
              && exit == (if forall k | 0 <= k < |results| :: results[k].rc == 0 then 0 else 1)
  {
    if !(1 <= shard <= total) {
      return [], 2;
    }
    var mine := Assigned(crc, ids, shard, total);
    ghost var all := ResultsOf(mine, outcome);
    var results: seq<UnitResult> := [];
    writes := [];
    for k := 0 to |mine|
      invariant results == all[..k]
      invariant |writes| == k
      invariant forall j | 0 <= j < k :: writes[j] == ManifestOf(crc, shard, total, ids, all[..j + 1])
    {
      results := results + [UnitResult(mine[k], outcome(k, mine[k]))];
      writes := writes + [ManifestOf(crc, shard, total, ids, results)];
    }
    writes := writes + [ManifestOf(crc, shard, total, ids, results)];
    exit := if exists r | r in results :: r.rc != 0 then 1 else 0;
    assert all[..|mine|] == all;
    assert forall k | 0 <= k < |all| :: all[k] in results;
  }

  // ----- the loop as a schedule of the step system

  function Drive(crc: Checksum, shard: int, c: Config, actions: seq<Action>): Job
    requires c.total != 0
  {
    if actions == [] then START
    else Act(crc, shard, c, Drive(crc, shard, c, actions[..|actions| - 1]), actions[|actions| - 1])
  }

  /** The first `n` iterations of the loop. */
  function Iterations(shard: int, mine: seq<UnitId>, outcome: Outcome, n: nat): seq<Action>
    requires n <= |mine|
  {
    if n == 0 then []
    else Iterations(shard, mine, outcome, n - 1) + [RunUnit(shard, outcome(n - 1, mine[n - 1])), Snapshot(shard)]
  }

  lemma DriveTwo(crc: Checksum, shard: int, c: Config, actions: seq<Action>, a: Action, b: Action)
    requires c.total != 0
    ensures Drive(crc, shard, c, actions + [a, b])
            == Act(crc, shard, c, Act(crc, shard, c, Drive(crc, shard, c, actions), a), b)
  {
    var all := actions + [a, b];
    assert all[..|all| - 1] == actions + [a] && (actions + [a])[..|actions|] == actions;
  }

  /** One iteration: the unit runs, and a snapshot is written. */
  lemma OneIteration(crc: Checksum, shard: int, c: Config, job: Job, rc: int)
    requires c.total != 0 && job.phase == Ready && |job.results| < |Mine(crc, shard, c)|
    ensures var results := job.results + [UnitResult(Mine(crc, shard, c)[|job.results|], rc)];
            Act(crc, shard, c, Act(crc, shard, c, job, RunUnit(shard, rc)), Snapshot(shard))
            == Job(results, Some(Written(crc, shard, c, results)), Ready)
  {
  }

  lemma ResultsSnoc(mine: seq<UnitId>, outcome: Outcome, n: nat)
    requires 0 < n <= |mine|
    ensures ResultsOf(mine, outcome)[..n]
            == ResultsOf(mine, outcome)[..n - 1] + [UnitResult(mine[n - 1], outcome(n - 1, mine[n - 1]))]
  {
  }

  lemma {:induction false} DriveIsLoop(crc: Checksum, shard: int, c: Config, outcome: Outcome, n: nat)
    requires c.total != 0 && n <= |Mine(crc, shard, c)|
    ensures var mine := Mine(crc, shard, c);
            var results := ResultsOf(mine, outcome);
            var job := Drive(crc, shard, c, Iterations(shard, mine, outcome, n));
            && job.results == results[..n] && job.phase == Ready
            && job.manifest == if n == 0 then None else Some(Written(crc, shard, c, results[..n]))
  {
    if n > 0 {
      var mine := Mine(crc, shard, c);
      var before, rc := Iterations(shard, mine, outcome, n - 1), outcome(n - 1, mine[n - 1]);
      DriveIsLoop(crc, shard, c, outcome, n - 1);
      DriveTwo(crc, shard, c, before, RunUnit(shard, rc), Snapshot(shard));
      OneIteration(crc, shard, c, Drive(crc, shard, c, before), rc);
      ResultsSnoc(mine, outcome, n);
    }
  }

  /** The actions of one shard, in order. */
  function Own(actions: seq<Action>, s: int): seq<Action> {
    if actions == [] then []
    else
      Own(actions[..|actions| - 1], s)
      + (if actions[|actions| - 1].shard == s then [actions[|actions| - 1]] else [])
  }

  /** A job sees only its own actions, however the jobs interleave. */
  lemma {:induction false} RunIsDrive(crc: Checksum, cfg: Configs, actions: seq<Action>, s: int)
    requires ValidConfigs(cfg) && s in cfg
    ensures Run(crc, cfg, actions)[s] == Drive(crc, s, cfg[s], Own(actions, s))
  {
    if actions != [] {
      var front, last := actions[..|actions| - 1], actions[|actions| - 1];
      RunIsDrive(crc, cfg, front, s);
      if last.shard == s {
        assert (Own(front, s) + [last])[..|Own(front, s)|] == Own(front, s);
      } else {
        CatEmpty(Own(front, s));
      }
    }
  }

  /** In any run in which a shard got through `n` iterations of its loop, its job has the
      first `n` results and has left exactly the n-th manifest of the loop. */
  lemma LoopIsASchedule(crc: Checksum, cfg: Configs, actions: seq<Action>, s: int, outcome: Outcome, n: nat)
    requires ValidConfigs(cfg) && s in cfg && n <= |Mine(crc, s, cfg[s])|
    requires Own(actions, s) == Iterations(s, Mine(crc, s, cfg[s]), outcome, n)
    ensures var results := ResultsOf(Mine(crc, s, cfg[s]), outcome);
            var job := Run(crc, cfg, actions)[s];
            && job.results == results[..n] && job.phase == Ready
            && job.manifest == if n == 0 then None else Some(Written(crc, s, cfg[s], results[..n]))
  {
    RunIsDrive(crc, cfg, actions, s);
    DriveIsLoop(crc, s, cfg[s], outcome, n);
  }

  // ----- downloading

  /** The files the summary job finds: one per written manifest, in any order. */
  ghost predicate FilesOf(files: seq<Manifest>, jobs: System) {
    forall m :: m in files <==> exists s :: s in jobs && jobs[s].manifest == Some(m)
  }

  lemma {:induction false} SomeFileIsLast(files: seq<Manifest>, s: int) returns (k: nat)
    requires exists i | 0 <= i < |files| :: files[i].shard == s
    ensures k < |files| && IsLast(files, s, k)
  {
    var n := |files| - 1;
    if files[n].shard == s {
      k := n;
    } else {
      var i :| 0 <= i < |files| && files[i].shard == s;
      assert files[..n][i].shard == s;
      k := SomeFileIsLast(files[..n], s);
    }
  }

  lemma FilesAreWritten(crc: Checksum, cfg: Configs, actions: seq<Action>, files: seq<Manifest>, k: nat)
    requires ValidConfigs(cfg) && FilesOf(files, Run(crc, cfg, actions)) && k < |files|
    ensures var manifests := Collected(Run(crc, cfg, actions));
            files[k].shard in manifests && manifests[files[k].shard] == files[k]
  {
    var jobs := Run(crc, cfg, actions);
    RunKeepsHonest(crc, cfg, actions);
    assert files[k] in files;
    var s :| s in jobs && jobs[s].manifest == Some(files[k]);
    assert Honest(crc, s, cfg[s], jobs[s]);
  }

  lemma WrittenAreFiles(crc: Checksum, cfg: Configs, actions: seq<Action>, files: seq<Manifest>, s: int)
    requires ValidConfigs(cfg) && FilesOf(files, Run(crc, cfg, actions))
    requires s in Collected(Run(crc, cfg, actions))
    ensures exists k :: 0 <= k < |files| && files[k].shard == s
  {
    var jobs := Run(crc, cfg, actions);
    RunKeepsHonest(crc, cfg, actions);
    var m := jobs[s].manifest.value;
    assert jobs[s].manifest == Some(m) && Honest(crc, s, cfg[s], jobs[s]);
    assert m in files;
    var k :| 0 <= k < |files| && files[k] == m;
  }

  /** Reading the files of a run, in whatever order they sort, yields its manifests. */
  lemma LoadsWhatWasWritten(crc: Checksum, cfg: Configs, actions: seq<Action>, files: seq<Manifest>)
    requires ValidConfigs(cfg) && FilesOf(files, Run(crc, cfg, actions))
    ensures Loaded(files) == Collected(Run(crc, cfg, actions))
  {
    var manifests := Collected(Run(crc, cfg, actions));
    LastFileWins(files);
    forall s
      ensures s in Loaded(files) <==> s in manifests
      ensures s in manifests ==> Loaded(files)[s] == manifests[s]
    {
      if s in manifests {
        WrittenAreFiles(crc, cfg, actions, files, s);
      }
      if s in Loaded(files) {
        var last := SomeFileIsLast(files, s);
        FilesAreWritten(crc, cfg, actions, files, last);
      }
    }
  }
}
