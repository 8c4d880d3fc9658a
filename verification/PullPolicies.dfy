/** What a completed run does with a plugin's directory, by the plugin's own settings: the pull
    policies of docker/install-dynamic-plugins.py. */
module PullPolicies {
  import opened Wrappers
  import opened PackageKeys
  import opened Reconcile

  ghost predicate NoBang(s: string) {
    forall i :: 0 <= i < |s| ==> s[i] != '!'
  }

  ghost predicate HasLatest(package: string) {
    exists front, back :: package == front + (":latest!" + back)
  }

  /** `d` is the directory that the plugin's package is unpacked into. */
  ghost predicate Fetched(p: Plugin, d: string, remote: Remote) {
    if "oci://" <= p.package then
      && p.package in remote.images && p.package in remote.digests
      && exists image :: NoBang(image) && NoBang(d) && p.package == image + ("!" + d)
    else p.package in remote.archives && d == remote.archives[p.package]
  }

  /** The image's digest in the registry decides. */
  ghost predicate ChecksDigest(p: Plugin) {
    && "oci://" <= p.package
    && (p.policy == Always || (p.policy == Unset && HasLatest(p.package)))
  }

  /** The plugin stays as it is once it is there. */
  ghost predicate StaysOnceThere(p: Plugin) {
    if "oci://" <= p.package then p.policy == IfNotPresent || (p.policy == Unset && !HasLatest(p.package))
    else p.policy != Always && !p.force
  }

  ghost predicate OnRecord(p: Plugin, d: string, disk: Disk) {
    d in disk && disk[d].hash == Some(p.hash)
  }

  // ----- The functions of the run, said by parts of strings

  lemma PathIs(package: string, d: string)
    ensures OciPath(package) == Some(d) <==>
              exists image :: NoBang(image) && NoBang(d) && package == image + ("!" + d)
  {
    if OciPath(package) == Some(d) {
      var n := Run(package, Bang);
      assert package == package[..n] + ("!" + d);
      assert NoBang(package[..n]) && NoBang(d);
    }
    if image :| NoBang(image) && NoBang(d) && package == image + ("!" + d) {
      RunIs(package, Bang, |image|);
      assert package[|image| + 1..] == d;
      RunIs(d, Bang, |d|);
    }
  }

  lemma TargetIs(p: Plugin, d: string, remote: Remote)
    ensures Target(p, remote) == Some(d) <==> Fetched(p, d, remote)
  {
    hide OciPath;
    PathIs(p.package, d);
    if OciPath(p.package).Some? {
      PathIs(p.package, OciPath(p.package).value);
    }
  }

  lemma {:induction false} LatestIs(package: string)
    ensures Contains(package, ":latest!") <==> HasLatest(package)
  {
    var part := ":latest!";
    if part <= package {
      assert package == "" + (part + package[|part|..]);
    } else if package != "" {
      LatestIs(package[1..]);
      if HasLatest(package[1..]) {
        var front, back :| package[1..] == front + (part + back);
        assert package == ([package[0]] + front) + (part + back);
      }
      if HasLatest(package) {
        var front, back :| package == front + (part + back);
        assert front == "" ==> part <= package;
        assert package[1..] == front[1..] + (part + back);
      }
    }
  }

  lemma PoliciesAre(p: Plugin)
    ensures ChecksDigest(p) <==> IsOci(p.package) && EffectivePolicy(p) == Always
    ensures StaysOnceThere(p) <==>
              if IsOci(p.package) then EffectivePolicy(p) == IfNotPresent else EffectivePolicy(p) != Always && !p.force
  {
    hide Contains, HasLatest;
    LatestIs(p.package);
  }

  // ----- What a completed run leaves

  /** The directory a run leaves for a plugin that it unpacks. */
  ghost predicate Unpacked(p: Plugin, d: string, start: State, remote: Remote, result: Disk) {
    && Fetched(p, d, remote)
    && (if !("oci://" <= p.package) && d in start.disk && start.disk[d].hash.Some? then d !in result
        else
          && d in result && result[d].hash == Some(p.hash)
          && result[d].digest == if "oci://" <= p.package then Some(remote.digests[p.package]) else None)
    && forall e :: OnRecord(p, e, result) ==> e == d
  }

  /** A plugin whose hash is on record, and that stays once it is there, keeps its directory as it
      is. */
  lemma KeptIfPresent(plugins: seq<Plugin>, i: nat, d: string, start: State, remote: Remote)
    requires WellPosed(plugins, start, remote) && Loop(plugins, start, remote).Some?
    requires i < |plugins| && !plugins[i].disabled
    requires StaysOnceThere(plugins[i]) && OnRecord(plugins[i], d, start.disk)
    ensures var result := Swept(Loop(plugins, start, remote).value); d in result && result[d] == start.disk[d]
  {
    hide Loop, Swept, EffectivePolicy, StaysOnceThere, IsOci, DistinctHomes, DistinctHashes;
    PoliciesAre(plugins[i]);
    ReconcileExact(plugins, start, remote);
    assert start.tracked[plugins[i].hash] == d;
    assert Occupies(plugins[i], d, start, remote);
  }

  /** A plugin that is checked against the registry ends up with the digest of its image there; and
      if it had that digest, its directory is as it was. */
  lemma CurrentIfChecked(plugins: seq<Plugin>, i: nat, start: State, remote: Remote)
    requires WellPosed(plugins, start, remote) && Loop(plugins, start, remote).Some?
    requires i < |plugins| && !plugins[i].disabled && ChecksDigest(plugins[i])
    ensures var p, result := plugins[i], Swept(Loop(plugins, start, remote).value);
            && p.package in remote.digests
            && (exists d :: OnRecord(p, d, result) && result[d].digest == Some(remote.digests[p.package]))
            && forall d :: OnRecord(p, d, start.disk) && start.disk[d].digest == Some(remote.digests[p.package]) ==>
                 d in result && result[d] == start.disk[d]
  {
    hide Loop, Swept, EffectivePolicy, ChecksDigest, IsOci, OciPath, DistinctHomes, DistinctHashes;
    var p := plugins[i];
    PoliciesAre(p);
    ReconcileExact(plugins, start, remote);
    var home := Home(p, start, remote).value;
    assert Occupies(p, home, start, remote);
    var result := Swept(Loop(plugins, start, remote).value);
    assert OnRecord(p, home, result) && result[home].digest == Some(remote.digests[p.package]);
    forall d | OnRecord(p, d, start.disk) && start.disk[d].digest == Some(remote.digests[p.package])
      ensures d in result && result[d] == start.disk[d]
    {
      assert start.tracked[p.hash] == d;
    }
  }

  /** Any other plugin is unpacked, whether its hash is on record or not: nothing is left on record
      for it elsewhere. */
  lemma UnpackedOtherwise(plugins: seq<Plugin>, i: nat, start: State, remote: Remote)
    requires WellPosed(plugins, start, remote) && Loop(plugins, start, remote).Some?
    requires i < |plugins| && !plugins[i].disabled
    requires || (forall d :: !OnRecord(plugins[i], d, start.disk))
             || (!StaysOnceThere(plugins[i]) && !ChecksDigest(plugins[i]))
    ensures exists d :: Unpacked(plugins[i], d, start, remote, Swept(Loop(plugins, start, remote).value))
  {
    hide Loop, Swept, EffectivePolicy, ChecksDigest, StaysOnceThere, OciPath, DistinctHomes, DistinctHashes;
    var p := plugins[i];
    PoliciesAre(p);
    ReconcileExact(plugins, start, remote);
    assert !Skips(p, start, remote) by {
      assert p.hash in start.tracked ==> OnRecord(p, start.tracked[p.hash], start.disk);
    }
    var d := Home(p, start, remote).value;
    TargetIs(p, d, remote);
    assert Occupies(p, d, start, remote);
    var result := Swept(Loop(plugins, start, remote).value);
    forall e | OnRecord(p, e, result) ensures e == d {
      RecordOfHome(plugins, i, e, start, remote);
    }
    assert Unpacked(p, d, start, remote, result);
  }

  /** After a completed run, a plugin's hash is on record at its own directory at most. */
  lemma RecordOfHome(plugins: seq<Plugin>, i: nat, d: string, start: State, remote: Remote)
    requires WellPosed(plugins, start, remote) && Loop(plugins, start, remote).Some?
    requires i < |plugins| && !plugins[i].disabled
    requires OnRecord(plugins[i], d, Swept(Loop(plugins, start, remote).value))
    ensures Home(plugins[i], start, remote) == Some(d)
  {
    hide Loop, Swept, Skips, Home, Kept, Victim;
    RecordedAreEnabled(plugins, d, start, remote);
  }

  /** Whatever hash is on record after a completed run is that of the enabled plugin there. */
  lemma RecordedAreEnabled(plugins: seq<Plugin>, d: string, start: State, remote: Remote)
    requires WellPosed(plugins, start, remote) && Loop(plugins, start, remote).Some?
    requires var result := Swept(Loop(plugins, start, remote).value); d in result && result[d].hash.Some?
    ensures exists i :: 0 <= i < |plugins| && Occupies(plugins[i], d, start, remote)
                        && OnRecord(plugins[i], d, Swept(Loop(plugins, start, remote).value))
  {
    hide Loop, Swept, Skips, Home, Kept, Victim, WellPosed;
    ReconcileExact(plugins, start, remote);
    var result := Swept(Loop(plugins, start, remote).value);
    assert !Unoccupied(plugins, d, start, remote) by {
      assert !UnoccupiedOutcome(d, result, start);
    }
    var i :| 0 <= i < |plugins| && Occupies(plugins[i], d, start, remote);
    assert OccupiedOutcome(plugins[i], d, result, start, remote);
  }
}
