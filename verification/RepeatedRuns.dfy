/** Running the installer of docker/install-dynamic-plugins.py again and again with the same
    configuration, packages and images: what each run finds is what the one before left. */
module RepeatedRuns {
  import opened Wrappers
  import opened ConfigTree
  import opened PackageKeys
  import opened Reconcile
  import opened InstallRuns

  /** The state in which a run begins that finds this disk. */
  function Start(disk: Disk): State
    requires DistinctRecords(disk)
  {
    State(disk, Scanned(disk), GLOBAL_CONFIG)
  }

  /** A run that finds this disk completes, and the description of Reconcile applies to it. */
  ghost predicate Completes(plugins: seq<Plugin>, disk: Disk, remote: Remote): (completes: bool)
    ensures completes ==> DistinctRecords(disk)
  {
    && DistinctRecords(disk)
    && WellPosed(plugins, Start(disk), remote)
    && Loop(plugins, Start(disk), remote).Some?
  }

  /** The disk that the run leaves. */
  ghost function After(plugins: seq<Plugin>, disk: Disk, remote: Remote): (next: Disk)
    requires Completes(plugins, disk, remote)
    ensures DistinctRecords(next)
  {
    RecordsStayDistinct(plugins, Start(disk), remote);
    Swept(Loop(plugins, Start(disk), remote).value)
  }

  /** The configuration that the run generates. */
  ghost function Generated(plugins: seq<Plugin>, disk: Disk, remote: Remote): Config
    requires Completes(plugins, disk, remote)
  {
    Loop(plugins, Start(disk), remote).value.config
  }

  predicate Enabled(plugins: seq<Plugin>, i: int) {
    0 <= i < |plugins| && !plugins[i].disabled
  }

  /** Once it stands on disk, the plugin is skipped from then on. */
  predicate Settles(p: Plugin) {
    if IsOci(p.package) then p.policy != Unknown else p.policy != Always && !p.force
  }

  /** An NPM plugin that is unpacked in every run. */
  predicate Forced(p: Plugin) {
    !IsOci(p.package) && !Settles(p)
  }

  /** The run that finds this disk unpacks the plugin and then deletes it. */
  ghost predicate Lost(p: Plugin, disk: Disk, remote: Remote)
    requires DistinctRecords(disk)
  {
    Home(p, Start(disk), remote).Some? && Victim(p, Home(p, Start(disk), remote).value, Start(disk), remote)
  }

  // ----- From one run to the next

  /** What a run leaves for one plugin. */
  lemma LeftFor(plugins: seq<Plugin>, i: nat, disk: Disk, remote: Remote)
    requires Completes(plugins, disk, remote) && Enabled(plugins, i)
    ensures Home(plugins[i], Start(disk), remote).Some?
    ensures var d, next := Home(plugins[i], Start(disk), remote).value, After(plugins, disk, remote);
            if Lost(plugins[i], disk, remote) then d !in next
            else
              && d in next && next[d].hash == Some(plugins[i].hash)
              && (Skips(plugins[i], Start(disk), remote) ==> d in disk)
              && next[d] == Kept(plugins[i], d, Start(disk), remote)
  {
    hide Loop, Skips, Target, Swept, WellPosed, Kept;
    ReconcileExact(plugins, Start(disk), remote);
    assert Occupies(plugins[i], Home(plugins[i], Start(disk), remote).value, Start(disk), remote);
  }

  /** The plugin's hash is on record at its own directory and nowhere else. */
  lemma RecordedAtHome(plugins: seq<Plugin>, i: nat, d: string, disk: Disk, remote: Remote)
    requires Completes(plugins, disk, remote) && Enabled(plugins, i)
    requires d in After(plugins, disk, remote) && After(plugins, disk, remote)[d].hash == Some(plugins[i].hash)
    ensures Home(plugins[i], Start(disk), remote) == Some(d)
  {
    hide Loop, Swept, Skips, Home, Kept, Victim;
    ReconcileExact(plugins, Start(disk), remote);
    assert !Unoccupied(plugins, d, Start(disk), remote) by {
      assert !UnoccupiedOutcome(d, After(plugins, disk, remote), Start(disk));
    }
    var j :| 0 <= j < |plugins| && Occupies(plugins[j], d, Start(disk), remote);
  }

  /** How the next run decides about a plugin. */
  lemma NextDecision(plugins: seq<Plugin>, i: nat, disk: Disk, remote: Remote)
    requires Completes(plugins, disk, remote) && Enabled(plugins, i)
    ensures var next := Start(After(plugins, disk, remote));
            && (Skips(plugins[i], next, remote) <==> Settles(plugins[i]) && !Lost(plugins[i], disk, remote))
            && Home(plugins[i], next, remote) == Home(plugins[i], Start(disk), remote)
            && Installable(plugins[i], next, remote)
  {
    hide Loop, Swept, WellPosed, IsOci, OciPath, After, GLOBAL_CONFIG;
    LeftFor(plugins, i, disk, remote);
    var next := After(plugins, disk, remote);
    if plugins[i].hash in Scanned(next) {
      RecordedAtHome(plugins, i, Scanned(next)[plugins[i].hash], disk, remote);
    }
  }

  /** After a completed run, the next one with the same plugins and the same remote completes
      too, and generates the same configuration. */
  lemma RunAgain(plugins: seq<Plugin>, disk: Disk, remote: Remote)
    requires Completes(plugins, disk, remote)
    ensures var next := After(plugins, disk, remote);
            && Completes(plugins, next, remote)
            && Generated(plugins, next, remote) == Generated(plugins, disk, remote)
  {
    hide Loop, Swept, Home, Skips, Lost, Settles, Installable, GLOBAL_CONFIG;
    var next := After(plugins, disk, remote);
    forall i | Enabled(plugins, i)
      ensures Home(plugins[i], Start(next), remote) == Home(plugins[i], Start(disk), remote)
      ensures Installable(plugins[i], Start(next), remote)
    {
      NextDecision(plugins, i, disk, remote);
    }
    TracksExactly(Scanned(next), next);
    LoopConfig(plugins, Start(disk), remote);
    LoopCompletes(plugins, Start(next), remote);
    LoopConfig(plugins, Start(next), remote);
  }

  /** In the next run exactly the forced plugins that stand on disk get lost. */
  lemma LostNext(plugins: seq<Plugin>, i: nat, disk: Disk, remote: Remote)
    requires Completes(plugins, disk, remote) && Enabled(plugins, i)
    ensures Lost(plugins[i], After(plugins, disk, remote), remote) <==>
              Forced(plugins[i]) && !Lost(plugins[i], disk, remote)
  {
    hide Loop, Swept, WellPosed, IsOci, Settles, Completes, After, ShouldSkip, Target;
    LeftFor(plugins, i, disk, remote);
    NextDecision(plugins, i, disk, remote);
  }

  /** What the next run leaves in the plugin's directory. */
  lemma NextKeeps(plugins: seq<Plugin>, i: nat, d: string, disk: Disk, remote: Remote)
    requires Completes(plugins, disk, remote) && Enabled(plugins, i)
    requires Occupies(plugins[i], d, Start(disk), remote)
    requires Completes(plugins, After(plugins, disk, remote), remote)
    ensures var next := After(plugins, disk, remote); var later := After(plugins, next, remote);
            if Lost(plugins[i], disk, remote) then d !in next && d in later
            else if Forced(plugins[i]) then d in next && d !in later
            else d in next && d in later && later[d] == next[d]
  {
    hide Loop, Swept, WellPosed, IsOci, Completes, After, GLOBAL_CONFIG, OciPath;
    LeftFor(plugins, i, disk, remote);
    LeftFor(plugins, i, After(plugins, disk, remote), remote);
    NextDecision(plugins, i, disk, remote);
    LostNext(plugins, i, disk, remote);
  }

  lemma NextLeavesOthers(plugins: seq<Plugin>, d: string, disk: Disk, remote: Remote)
    requires Completes(plugins, disk, remote) && Completes(plugins, After(plugins, disk, remote), remote)
    requires Unoccupied(plugins, d, Start(disk), remote)
    ensures var next := After(plugins, disk, remote); var later := After(plugins, next, remote);
            (d in later <==> d in next) && (d in later ==> later[d] == next[d])
  {
    hide Loop, Swept, WellPosed, Home, Skips, Lost, Settles, Installable, Kept, Victim;
    var next := After(plugins, disk, remote);
    ReconcileExact(plugins, Start(disk), remote);
    ReconcileExact(plugins, Start(next), remote);
    forall i | 0 <= i < |plugins|
      ensures !Occupies(plugins[i], d, Start(next), remote)
    {
      if !plugins[i].disabled {
        NextDecision(plugins, i, disk, remote);
      }
      assert !Occupies(plugins[i], d, Start(disk), remote);
    }
    assert UnoccupiedOutcome(d, next, Start(disk));
    assert UnoccupiedOutcome(d, After(plugins, next, remote), Start(next));
  }

  /** A run that follows a completed run completes and generates the same configuration.  It skips
      exactly the plugins that settle and that the run before did not lose, so it skips all of
      them if and only if all settle and none was lost; and it leaves the disk as it is if and
      only if no enabled plugin is forced and none was lost. */
  lemma SecondRun(plugins: seq<Plugin>, disk: Disk, remote: Remote)
    requires Completes(plugins, disk, remote)
    ensures var second := After(plugins, disk, remote);
            && Completes(plugins, second, remote)
            && Generated(plugins, second, remote) == Generated(plugins, disk, remote)
            && (forall i :: Enabled(plugins, i) ==>
                  (Skips(plugins[i], Start(second), remote) <==>
                     Settles(plugins[i]) && !Lost(plugins[i], disk, remote)))
            && ((forall i :: Enabled(plugins, i) ==> Skips(plugins[i], Start(second), remote)) <==>
                  && (forall i :: Enabled(plugins, i) ==> Settles(plugins[i]))
                  && NoVictims(plugins, Start(disk), remote))
            && (After(plugins, second, remote) == second <==>
                  && (forall i :: Enabled(plugins, i) ==> !Forced(plugins[i]))
                  && NoVictims(plugins, Start(disk), remote))
  {
    hide Completes, After, Loop, Skips, Settles, IsOci, Home, Victim;
    RunAgain(plugins, disk, remote);
    NoneLost(plugins, disk, remote);
    var second := After(plugins, disk, remote);
    forall i | Enabled(plugins, i)
      ensures Skips(plugins[i], Start(second), remote) <==> Settles(plugins[i]) && !Lost(plugins[i], disk, remote)
    {
      NextDecision(plugins, i, disk, remote);
    }
    if forall i :: Enabled(plugins, i) ==> !Forced(plugins[i]) && !Lost(plugins[i], disk, remote) {
      DiskUnchanged(plugins, disk, remote);
    } else {
      var i :| Enabled(plugins, i) && (Forced(plugins[i]) || Lost(plugins[i], disk, remote));
      LeftFor(plugins, i, disk, remote);
      NextKeeps(plugins, i, Home(plugins[i], Start(disk), remote).value, disk, remote);
    }
  }

  lemma NoneLost(plugins: seq<Plugin>, disk: Disk, remote: Remote)
    requires Completes(plugins, disk, remote)
    ensures NoVictims(plugins, Start(disk), remote) <==>
              forall i :: Enabled(plugins, i) ==> !Lost(plugins[i], disk, remote)
  {
    hide Loop, WellPosed, Home, Skips, IsOci;
    forall i | Enabled(plugins, i)
      ensures Lost(plugins[i], disk, remote) <==> exists d :: Victim(plugins[i], d, Start(disk), remote)
    {
    }
  }

  lemma DiskUnchanged(plugins: seq<Plugin>, disk: Disk, remote: Remote)
    requires Completes(plugins, disk, remote) && Completes(plugins, After(plugins, disk, remote), remote)
    requires forall i :: Enabled(plugins, i) ==> !Forced(plugins[i]) && !Lost(plugins[i], disk, remote)
    ensures After(plugins, After(plugins, disk, remote), remote) == After(plugins, disk, remote)
  {
    hide Completes, After, Forced, Lost, Home;
    var next := After(plugins, disk, remote);
    var later := After(plugins, next, remote);
    forall d
      ensures (d in later <==> d in next) && (d in later ==> later[d] == next[d])
    {
      if Unoccupied(plugins, d, Start(disk), remote) {
        NextLeavesOthers(plugins, d, disk, remote);
      } else {
        var i :| 0 <= i < |plugins| && Occupies(plugins[i], d, Start(disk), remote);
        NextKeeps(plugins, i, d, disk, remote);
      }
    }
  }

  // ----- Any number of runs

  /** The disk after a number of runs, each of which completes. */
  ghost function AfterRuns(plugins: seq<Plugin>, disk: Disk, remote: Remote, n: nat): (result: Disk)
    requires Completes(plugins, disk, remote)
    ensures Completes(plugins, result, remote)
    ensures Generated(plugins, result, remote) == Generated(plugins, disk, remote)
  {
    if n == 0 then disk else
    var before := AfterRuns(plugins, disk, remote, n - 1);
    RunAgain(plugins, before, remote);
    After(plugins, before, remote)
  }

  lemma OneMoreRun(plugins: seq<Plugin>, disk: Disk, remote: Remote, n: nat)
    requires Completes(plugins, disk, remote)
    ensures AfterRuns(plugins, disk, remote, 0) == disk
    ensures AfterRuns(plugins, disk, remote, n + 1) == After(plugins, AfterRuns(plugins, disk, remote, n), remote)
  {
    hide Completes, After;
  }

  /** If no enabled plugin is forced, two runs are enough: from then on nothing gets lost, and
      nothing changes any more. */
  lemma {:induction false} Converges(plugins: seq<Plugin>, disk: Disk, remote: Remote, n: nat)
    requires Completes(plugins, disk, remote) && n >= 2
    requires forall i :: Enabled(plugins, i) ==> !Forced(plugins[i])
    ensures AfterRuns(plugins, disk, remote, n) == AfterRuns(plugins, disk, remote, 2)
    ensures AllInPlace(plugins, AfterRuns(plugins, disk, remote, n), Start(disk), remote)
  {
    hide Completes, After, AfterRuns, Generated, Forced, Lost, Home, AllInPlace;
    var first := After(plugins, disk, remote);
    OneMoreRun(plugins, disk, remote, 0);
    OneMoreRun(plugins, disk, remote, 1);
    OneMoreRun(plugins, disk, remote, n - 1);
    if n == 2 {
      InPlaceAfterTwo(plugins, disk, remote);
    } else {
      Converges(plugins, disk, remote, n - 1);
      forall i | Enabled(plugins, i) ensures !Lost(plugins[i], first, remote) {
        LostNext(plugins, i, disk, remote);
      }
      DiskUnchanged(plugins, first, remote);
    }
  }

  lemma InPlaceAfterTwo(plugins: seq<Plugin>, disk: Disk, remote: Remote)
    requires Completes(plugins, disk, remote) && Completes(plugins, After(plugins, disk, remote), remote)
    requires forall i :: Enabled(plugins, i) ==> !Forced(plugins[i])
    ensures AllInPlace(plugins, After(plugins, After(plugins, disk, remote), remote), Start(disk), remote)
  {
    hide Completes, After, Forced, Lost, Home, Skips;
    forall i | Enabled(plugins, i)
      ensures InPlace(plugins[i], After(plugins, After(plugins, disk, remote), remote), Start(disk), remote)
    {
      LostNext(plugins, i, disk, remote);
      NextDecision(plugins, i, disk, remote);
      LeftFor(plugins, i, After(plugins, disk, remote), remote);
    }
  }

  /** A forced plugin stands on disk after a run exactly if its directory was not on record before. */
  lemma ForcedOnce(plugins: seq<Plugin>, i: nat, disk: Disk, remote: Remote)
    requires Completes(plugins, disk, remote) && Enabled(plugins, i) && Forced(plugins[i])
    ensures Target(plugins[i], remote).Some?
    ensures var d, next := Target(plugins[i], remote).value, After(plugins, disk, remote);
            && (d in next <==> !(d in disk && disk[d].hash.Some?))
            && (d in next ==> next[d].hash == Some(plugins[i].hash))
  {
    hide Completes, After, IsOci, Target, GLOBAL_CONFIG;
    LeftFor(plugins, i, disk, remote);
  }

  /** An NPM plugin that is forced comes and goes: it stands on disk after every other run, beginning
      with the first one if its directory was not on record before. */
  lemma {:induction false} ForcedNpmAlternates(plugins: seq<Plugin>, i: nat, disk: Disk, remote: Remote, n: nat)
    requires Completes(plugins, disk, remote) && Enabled(plugins, i) && Forced(plugins[i]) && n >= 1
    ensures Target(plugins[i], remote).Some?
    ensures var d, result := Target(plugins[i], remote).value, AfterRuns(plugins, disk, remote, n);
            && (d in result <==> (n % 2 == 1 <==> !(d in disk && disk[d].hash.Some?)))
            && (d in result ==> result[d].hash == Some(plugins[i].hash))
  {
    hide Completes, After, AfterRuns, Generated, Forced, Target;
    OneMoreRun(plugins, disk, remote, n - 1);
    var before := AfterRuns(plugins, disk, remote, n - 1);
    ForcedOnce(plugins, i, before, remote);
    if n > 1 {
      ForcedNpmAlternates(plugins, i, disk, remote, n - 1);
    }
  }

  /** The disk ever comes to rest exactly if no enabled plugin is forced. */
  lemma ComesToRestExactly(plugins: seq<Plugin>, disk: Disk, remote: Remote)
    requires Completes(plugins, disk, remote)
    ensures (exists n: nat :: AfterRuns(plugins, disk, remote, n + 1) == AfterRuns(plugins, disk, remote, n)) <==>
              forall i :: Enabled(plugins, i) ==> !Forced(plugins[i])
  {
    hide Completes, After, AfterRuns, Generated, Forced, Target;
    if forall i :: Enabled(plugins, i) ==> !Forced(plugins[i]) {
      Converges(plugins, disk, remote, 3);
      assert AfterRuns(plugins, disk, remote, 2 + 1) == AfterRuns(plugins, disk, remote, 2);
    } else {
      var i :| Enabled(plugins, i) && Forced(plugins[i]);
      forall n: nat
        ensures AfterRuns(plugins, disk, remote, n + 1) != AfterRuns(plugins, disk, remote, n)
      {
        OneMoreRun(plugins, disk, remote, n);
        ForcedOnce(plugins, i, AfterRuns(plugins, disk, remote, n), remote);
      }
    }
  }

  /** A concrete loss: the plugin `a` is installed and forces its download; the run unpacks it
      again and the sweep then deletes it. */
  lemma ForcedPluginLost()
    ensures var p := Plugin("a", "h", false, Unset, true, None);
            var remote := Remote(map["a" := "a-1.0.0"], {}, map[]);
            var disk := map["a-1.0.0" := Dir(Some("h"), None)];
            Completes([p], disk, remote) && After([p], disk, remote) == map[]
  {
    hide GLOBAL_CONFIG;
    var p := Plugin("a", "h", false, Unset, true, None);
    var remote := Remote(map["a" := "a-1.0.0"], {}, map[]);
    var disk := map["a-1.0.0" := Dir(Some("h"), None)];
    var start := Start(disk);
    assert start.tracked["h"] == "a-1.0.0";
    assert [p][..0] == [];
    assert ShouldSkip(p, start, remote) == Some(false);
    var after := AfterInstall(p, "a-1.0.0", start, remote);
    assert InstallPlugin(p, start, remote) == Some(after);
    assert Loop([p], start, remote) == Some(after);
    assert "a-1.0.0" in after.tracked.Values by { assert after.tracked["h"] == "a-1.0.0"; }
  }
}
