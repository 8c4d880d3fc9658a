/** The installer's main loop over mutable state, proved against Reconcile. */
module InstallerProgram {
  import opened Wrappers
  import opened ConfigTree
  import opened PackageKeys
  import opened Reconcile

  class Installer {
    var disk: Disk
    var tracked: map<string, string>  // plugin_path_by_hash
    var config: Config

    function Value(): State
      reads this
    {
      State(disk, tracked, config)
    }

    constructor (disk: Disk, config: Config)
      ensures Value() == State(disk, map[], config)
    {
      this.disk, this.tracked, this.config := disk, map[], config;
    }

    /** The scan of the plugins root.  Where two directories record the same hash, the later one
        listed is the one that is tracked. */
    method Scan()
      modifies this`tracked
      ensures forall h :: h in tracked ==> tracked[h] in disk && disk[tracked[h]].hash == Some(h)
      ensures forall d :: d in disk && disk[d].hash.Some? ==> disk[d].hash.value in tracked
      ensures DistinctRecords(disk) ==> Tracks(tracked, disk)
    {
      tracked := map[];
      var todo := disk.Keys;
      while todo != {}
        invariant todo <= disk.Keys
        invariant forall h :: h in tracked ==> tracked[h] in disk && disk[tracked[h]].hash == Some(h)
        invariant forall d :: d in disk.Keys - todo && disk[d].hash.Some? ==> disk[d].hash.value in tracked
      {
        var d :| d in todo;
        if disk[d].hash.Some? {
          tracked := tracked[disk[d].hash.value := d];
        }
        todo := todo - {d};
      }
    }

    /** Drops every hash that is tracked at the directory. */
    method PopPath(dir: string)
      modifies this`tracked
      ensures tracked == WithoutPath(old(tracked), dir)
    {
      var keys := set h | h in tracked && tracked[h] == dir;
      while keys != {}
        invariant forall h :: h in tracked ==> h in old(tracked) && tracked[h] == old(tracked)[h]
        invariant forall h :: h in old(tracked) && old(tracked)[h] != dir ==> h in tracked
        invariant forall h :: h in keys <==> h in tracked && tracked[h] == dir
      {
        var h :| h in keys;
        tracked := tracked - {h};
        keys := keys - {h};
      }
    }

    /** OciPluginInstaller.install; None if it raises. */
    method InstallOci(p: Plugin, remote: Remote) returns (dir: Option<string>)
      requires IsOci(p.package)
      modifies this
      ensures dir == Target(p, remote) && config == old(config)
      ensures dir.Some? ==> tracked == WithoutPath(old(tracked), dir.value)
                            && disk == old(disk)[dir.value := Dir(None, RemoteDigest(p, remote))]
    {
      dir := Target(p, remote);
      if dir.Some? {
        disk := disk[dir.value := Dir(None, None)];
        disk := disk[dir.value := disk[dir.value].(digest := RemoteDigest(p, remote))];
        PopPath(dir.value);
      }
    }

    /** install_plugin; false if it raises. */
    method InstallPlugin(p: Plugin, remote: Remote) returns (ok: bool)
      modifies this
      ensures ok <==> Reconcile.InstallPlugin(p, old(Value()), remote).Some?
      ensures ok ==> Reconcile.InstallPlugin(p, old(Value()), remote) == Some(Value())
      ensures config == old(config)
    {
      hide IsOci, EffectivePolicy, OciPath;
      if p.disabled {
        return true;
      }
      var skip := ShouldSkip(p, Value(), remote);
      if skip == None {
        return false;
      }
      if skip == Some(true) {
        tracked := tracked - {p.hash};
        return true;
      }
      var dir: Option<string>;
      if IsOci(p.package) {
        dir := InstallOci(p, remote);
      } else {
        dir := Target(p, remote);
        if dir.Some? {
          disk := disk[dir.value := Dir(None, None)];
        }
      }
      if dir == None {
        return false;
      }
      disk := disk[dir.value := disk[dir.value].(hash := Some(p.hash))];
      assert disk == old(disk)[dir.value := Installed(p, remote)];
      ok := true;
    }

    /** Removes what is still tracked. */
    method Sweep()
      modifies this`disk
      ensures disk == Swept(old(Value()))
    {
      var todo := tracked.Keys;
      while todo != {}
        invariant todo <= tracked.Keys
        invariant disk == old(disk) - (set h | h in tracked && h !in todo :: tracked[h])
      {
        var h :| h in todo;
        ghost var swept := set h' | h' in tracked && h' !in todo :: tracked[h'];
        disk := disk - {tracked[h]};
        todo := todo - {h};
        assert (set h' | h' in tracked && h' !in todo :: tracked[h']) == swept + {tracked[h]};
      }
      assert (set h | h in tracked && h !in todo :: tracked[h]) == tracked.Values;
    }

    /** The second half of main: scan, install and merge plugin by plugin, sweep.  `start` is the
        state after the scan; a run that raises never reaches the sweep. */
    method Run(plugins: seq<Plugin>, remote: Remote) returns (ok: bool, ghost start: State)
      modifies this
      ensures start.disk == old(disk) && start.config == old(config)
      ensures DistinctRecords(old(disk)) ==> start.tracked == Scanned(old(disk))
      ensures ok <==> Loop(plugins, start, remote).Some?
      ensures ok ==> disk == Swept(Loop(plugins, start, remote).value)
      ensures ok ==> config == Loop(plugins, start, remote).value.config
      ensures ok && WellPosed(plugins, start, remote) ==> DistinctRecords(disk)
    {
      hide IsOci, ShouldSkip, Reconcile.InstallPlugin, Tracks, DistinctRecords, WellPosed;
      Scan();
      TracksExactly(tracked, disk);
      start := Value();
      for i := 0 to |plugins|
        invariant Loop(plugins[..i], start, remote) == Some(Value())
      {
        assert plugins[..i + 1][..i] == plugins[..i];
        ghost var before := Value();
        var p := plugins[i];
        ok := InstallPlugin(p, remote);
        if ok && !p.disabled && p.config.Some? && p.config.value.Dict? {
          ok := Mergeable(p.config.value, config);
          if ok {
            config := Merged(p.config.value, config);
          }
        }
        if !ok {
          assert Step(p, before, remote) == None;
          LoopStops(plugins, start, remote, i + 1);
          return;
        }
      }
      assert plugins[..|plugins|] == plugins;
      if WellPosed(plugins, start, remote) {
        RecordsStayDistinct(plugins, start, remote);
      }
      Sweep();
      ok := true;
    }
  }

  lemma {:induction false} LoopStops(plugins: seq<Plugin>, s: State, remote: Remote, n: nat)
    requires n <= |plugins| && Loop(plugins[..n], s, remote).None?
    ensures Loop(plugins, s, remote).None?
  {
    hide Step;
    if n == |plugins| {
      assert plugins[..n] == plugins;
    } else {
      var front := plugins[..|plugins| - 1];
      assert front[..n] == plugins[..n];
      LoopStops(front, s, remote, n);
    }
  }
}
