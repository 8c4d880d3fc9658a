/** The installation loop and the final sweep of docker/install-dynamic-plugins.py: the wanted
    plugins are compared with the directories on disk through `plugin_path_by_hash`. */
module Reconcile {
  import opened Wrappers
  import opened ConfigTree
  import opened PackageKeys

  /** A directory of the plugins root with its two marker files. */
  datatype Dir = Dir(hash: Option<string>, digest: Option<string>)

  type Disk = map<string, Dir>

  datatype PullPolicy = Unset | IfNotPresent | Always | Unknown

  datatype Plugin = Plugin(package: string, hash: string, disabled: bool, policy: PullPolicy,
                           force: bool, config: Option<Config>)

  /** The outside world during a run: the directory that `npm pack` yields for a package, the
      packages whose image can be copied, and the digests of the images.  What is missing
      makes the installer raise. */
  datatype Remote = Remote(archives: map<string, string>, images: set<string>, digests: map<string, string>)

  datatype State = State(disk: Disk, tracked: map<string, string>, config: Config)

  /** `(image, plugin_path) = package.split('!')`; None where the split has not two parts. */
  function OciPath(package: string): Option<string> {
    var n := Run(package, Bang);
    if n < |package| && Run(package[n + 1..], Bang) == |package| - n - 1 then Some(package[n + 1..]) else None
  }

  predicate Bang(c: char) { c == '!' }

  predicate Contains(s: string, part: string) {
    part <= s || (s != "" && Contains(s[1..], part))
  }

  function EffectivePolicy(p: Plugin): PullPolicy {
    if p.policy != Unset then p.policy
    else if IsOci(p.package) && Contains(p.package, ":latest!") then Always
    else IfNotPresent
  }

  /** OciDownloader.digest */
  function RemoteDigest(p: Plugin, remote: Remote): Option<string> {
    if OciPath(p.package).Some? && p.package in remote.digests then Some(remote.digests[p.package]) else None
  }

  /** The directory an installation of the plugin unpacks into; None if it raises. */
  function Target(p: Plugin, remote: Remote): Option<string> {
    if IsOci(p.package) then
      if p.package in remote.images && RemoteDigest(p, remote).Some? then OciPath(p.package) else None
    else if p.package in remote.archives then Some(remote.archives[p.package])
    else None
  }

  function LocalDigest(disk: Disk, dir: string): Option<string> {
    if dir in disk then disk[dir].digest else None
  }

  /** should_skip_installation of both installers; None if it raises. */
  function ShouldSkip(p: Plugin, s: State, remote: Remote): Option<bool> {
    if p.hash !in s.tracked then Some(false)
    else if !IsOci(p.package) then Some(EffectivePolicy(p) != Always && !p.force)
    else match EffectivePolicy(p)
      case IfNotPresent => Some(true)
      case Always =>
        (match RemoteDigest(p, remote)
         case None => None
         case Some(digest) => Some(LocalDigest(s.disk, s.tracked[p.hash]) == Some(digest)))
      case _ => Some(false)
  }

  /** The directory as an installation leaves it. */
  function Installed(p: Plugin, remote: Remote): Dir {
    Dir(Some(p.hash), if IsOci(p.package) then RemoteDigest(p, remote) else None)
  }

  function WithoutPath(tracked: map<string, string>, dir: string): map<string, string> {
    map h | h in tracked && tracked[h] != dir :: tracked[h]
  }

  /** Only the OCI installer drops what was tracked at the directory it replaced. */
  function AfterInstall(p: Plugin, dir: string, s: State, remote: Remote): State {
    s.(disk := s.disk[dir := Installed(p, remote)],
       tracked := if IsOci(p.package) then WithoutPath(s.tracked, dir) else s.tracked)
  }

  /** install_plugin, up to the plugin's configuration; None if it raises. */
  function InstallPlugin(p: Plugin, s: State, remote: Remote): Option<State> {
    if p.disabled then Some(s)
    else match ShouldSkip(p, s, remote)
      case None => None
      case Some(true) => Some(s.(tracked := s.tracked - {p.hash}))
      case Some(false) =>
        match Target(p, remote)
        case None => None
        case Some(dir) => Some(AfterInstall(p, dir, s, remote))
  }

  /** maybeMergeConfig with the plugin's configuration, or with nothing if it is disabled. */
  function MergeConfig(p: Plugin, config: Config): Option<Config> {
    if p.disabled || p.config.None? || p.config.value.Leaf? then Some(config)
    else if Mergeable(p.config.value, config) then Some(Merged(p.config.value, config))
    else None
  }

  function Step(p: Plugin, s: State, remote: Remote): Option<State> {
    match (InstallPlugin(p, s, remote), MergeConfig(p, s.config))
    case (Some(t), Some(config)) => Some(t.(config := config))
    case _ => None
  }

  function Loop(plugins: seq<Plugin>, s: State, remote: Remote): Option<State> {
    if plugins == [] then Some(s) else
    match Loop(plugins[..|plugins| - 1], s, remote)
    case None => None
    case Some(t) => Step(plugins[|plugins| - 1], t, remote)
  }

  function Swept(s: State): Disk {
    s.disk - s.tracked.Values
  }

  /** `tracked` is what the scan of the disk finds, recorded hashes being distinct. */
  ghost predicate Tracks(tracked: map<string, string>, disk: Disk) {
    && (forall h :: h in tracked ==> tracked[h] in disk && disk[tracked[h]].hash == Some(h))
    && (forall d :: d in disk && disk[d].hash.Some? ==>
          disk[d].hash.value in tracked && tracked[disk[d].hash.value] == d)
  }

  ghost predicate DistinctRecords(disk: Disk) {
    forall d, e :: d in disk && e in disk && d != e && disk[d].hash.Some? ==> disk[d].hash != disk[e].hash
  }

  /** The scan, where it does not depend on the order in which directories are listed. */
  function Scanned(disk: Disk): map<string, string>
    requires DistinctRecords(disk)
  {
    map d | d in disk && disk[d].hash.Some? :: disk[d].hash.value := d
  }

  /** There is something to track without ambiguity exactly if the recorded hashes are distinct, and
      then just one way to track it. */
  lemma TracksExactly(tracked: map<string, string>, disk: Disk)
    ensures Tracks(tracked, disk) <==> DistinctRecords(disk) && tracked == Scanned(disk)
  {
    if Tracks(tracked, disk) {
      assert tracked == Scanned(disk);
    }
  }

  ghost predicate DistinctHashes(plugins: seq<Plugin>) {
    forall i, j :: 0 <= i < j < |plugins| && !plugins[i].disabled && !plugins[j].disabled ==>
      plugins[i].hash != plugins[j].hash
  }

  predicate Skips(p: Plugin, start: State, remote: Remote) {
    ShouldSkip(p, start, remote) == Some(true)
  }

  /** The directory an enabled plugin occupies when its turn is over. */
  function Home(p: Plugin, start: State, remote: Remote): Option<string> {
    if Skips(p, start, remote) then Some(start.tracked[p.hash]) else Target(p, remote)
  }

  ghost predicate DistinctHomes(plugins: seq<Plugin>, start: State, remote: Remote) {
    forall i, j :: 0 <= i < j < |plugins| && !plugins[i].disabled && !plugins[j].disabled ==>
      Home(plugins[i], start, remote).None? || Home(plugins[i], start, remote) != Home(plugins[j], start, remote)
  }

  /** The side conditions under which a run is described. */
  ghost predicate WellPosed(plugins: seq<Plugin>, start: State, remote: Remote) {
    && Tracks(start.tracked, start.disk)
    && DistinctHashes(plugins)
    && DistinctHomes(plugins, start, remote)
  }

  // ----- What holds after any number of turns

  ghost predicate Occupies(p: Plugin, d: string, start: State, remote: Remote) {
    !p.disabled && Home(p, start, remote) == Some(d)
  }

  ghost predicate Unoccupied(plugins: seq<Plugin>, d: string, start: State, remote: Remote) {
    forall i :: 0 <= i < |plugins| ==> !Occupies(plugins[i], d, start, remote)
  }

  /** The directory as the plugin's turn leaves it. */
  function Kept(p: Plugin, d: string, start: State, remote: Remote): Dir
    requires Skips(p, start, remote) ==> d in start.disk
  {
    if Skips(p, start, remote) then start.disk[d] else Installed(p, remote)
  }

  /** The plugin's turn takes the entry h -> d out of what the sweep will remove. */
  ghost predicate Untracks(p: Plugin, h: string, d: string, start: State, remote: Remote) {
    && !p.disabled
    && if Skips(p, start, remote) then p.hash == h
       else IsOci(p.package) && Home(p, start, remote) == Some(d)
  }

  lemma SkippedHome(p: Plugin, d: string, start: State, remote: Remote)
    requires Tracks(start.tracked, start.disk)
    requires Skips(p, start, remote) && Home(p, start, remote) == Some(d)
    ensures d in start.disk && start.disk[d].hash == Some(p.hash)
  {
    assert start.tracked[p.hash] == d;
  }

  ghost predicate DiskAfter(plugins: seq<Plugin>, disk: Disk, start: State, remote: Remote) {
    && (forall i, d :: 0 <= i < |plugins| && Occupies(plugins[i], d, start, remote) ==>
          d in disk && (Skips(plugins[i], start, remote) ==> d in start.disk)
          && disk[d] == Kept(plugins[i], d, start, remote))
    && (forall d :: Unoccupied(plugins, d, start, remote) ==>
          (d in disk <==> d in start.disk) && (d in disk ==> disk[d] == start.disk[d]))
  }

  ghost predicate StillTracked(plugins: seq<Plugin>, h: string, start: State, remote: Remote) {
    && h in start.tracked
    && forall i :: 0 <= i < |plugins| ==> !Untracks(plugins[i], h, start.tracked[h], start, remote)
  }

  ghost predicate TrackedAfter(plugins: seq<Plugin>, tracked: map<string, string>, start: State, remote: Remote) {
    && (forall h :: h in tracked <==> StillTracked(plugins, h, start, remote))
    && (forall h :: h in tracked ==> tracked[h] == start.tracked[h])
  }

  lemma NotOccupiedBefore(plugins: seq<Plugin>, p: Plugin, d: string, start: State, remote: Remote)
    requires DistinctHomes(plugins + [p], start, remote) && Occupies(p, d, start, remote)
    ensures Unoccupied(plugins, d, start, remote)
  {
    var all := plugins + [p];
    assert all[|plugins|] == p;
    forall i | 0 <= i < |plugins| ensures !Occupies(plugins[i], d, start, remote) {
      assert all[i] == plugins[i];
    }
  }

  lemma HashNotBefore(plugins: seq<Plugin>, p: Plugin)
    requires DistinctHashes(plugins + [p]) && !p.disabled
    ensures forall i :: 0 <= i < |plugins| && !plugins[i].disabled ==> plugins[i].hash != p.hash
  {
    var all := plugins + [p];
    assert all[|plugins|] == p;
    forall i | 0 <= i < |plugins| && !plugins[i].disabled ensures plugins[i].hash != p.hash {
      assert all[i] == plugins[i];
    }
  }

  lemma StillSkipped(plugins: seq<Plugin>, p: Plugin, s: State, start: State, remote: Remote)
    requires WellPosed(plugins + [p], start, remote) && !p.disabled
    requires DiskAfter(plugins, s.disk, start, remote) && TrackedAfter(plugins, s.tracked, start, remote)
    requires Skips(p, start, remote)
    ensures ShouldSkip(p, s, remote) == Some(true)
  {
    hide IsOci, EffectivePolicy, RemoteDigest, Target;
    var d := start.tracked[p.hash];
    assert Occupies(p, d, start, remote);
    NotOccupiedBefore(plugins, p, d, start, remote);
    HashNotBefore(plugins, p);
    assert StillTracked(plugins, p.hash, start, remote);
  }

  lemma StillInstalled(plugins: seq<Plugin>, p: Plugin, s: State, start: State, remote: Remote)
    requires WellPosed(plugins + [p], start, remote) && !p.disabled
    requires DiskAfter(plugins, s.disk, start, remote) && TrackedAfter(plugins, s.tracked, start, remote)
    requires !Skips(p, start, remote) && ShouldSkip(p, s, remote).Some?
    ensures ShouldSkip(p, s, remote) == Some(false)
  {
    hide IsOci, EffectivePolicy, RemoteDigest, Target;
    if p.hash in s.tracked {
      assert StillTracked(plugins, p.hash, start, remote);
      var d := start.tracked[p.hash];
      if i :| 0 <= i < |plugins| && Occupies(plugins[i], d, start, remote) {
        OverwrittenWithoutDigest(plugins, p, i, d, start, remote);
      }
    }
  }

  /** Whoever took over a directory that is still tracked for `p` is an NPM plugin, and left no
      image digest there. */
  lemma OverwrittenWithoutDigest(plugins: seq<Plugin>, p: Plugin, i: nat, d: string, start: State, remote: Remote)
    requires WellPosed(plugins + [p], start, remote) && !p.disabled
    requires StillTracked(plugins, p.hash, start, remote) && start.tracked[p.hash] == d
    requires i < |plugins| && Occupies(plugins[i], d, start, remote)
    ensures !Skips(plugins[i], start, remote) && Kept(plugins[i], d, start, remote).digest.None?
  {
    hide ShouldSkip, Target;
    HashNotBefore(plugins, p);
    assert !Untracks(plugins[i], p.hash, d, start, remote);
    if Skips(plugins[i], start, remote) {
      SkippedHome(plugins[i], d, start, remote);
    }
  }

  /** Earlier turns do not change whether a plugin is skipped. */
  lemma SkipDecisionStable(plugins: seq<Plugin>, p: Plugin, s: State, start: State, remote: Remote)
    requires WellPosed(plugins + [p], start, remote) && !p.disabled
    requires DiskAfter(plugins, s.disk, start, remote) && TrackedAfter(plugins, s.tracked, start, remote)
    requires ShouldSkip(p, s, remote).Some?
    ensures ShouldSkip(p, s, remote).value <==> Skips(p, start, remote)
  {
    hide ShouldSkip;
    if Skips(p, start, remote) {
      StillSkipped(plugins, p, s, start, remote);
    } else {
      StillInstalled(plugins, p, s, start, remote);
    }
  }

  lemma StepKeepsInvariants(plugins: seq<Plugin>, p: Plugin, s: State, start: State, remote: Remote)
    requires WellPosed(plugins + [p], start, remote)
    requires DiskAfter(plugins, s.disk, start, remote) && TrackedAfter(plugins, s.tracked, start, remote)
    requires InstallPlugin(p, s, remote).Some?
    ensures var t := InstallPlugin(p, s, remote).value;
            DiskAfter(plugins + [p], t.disk, start, remote) && TrackedAfter(plugins + [p], t.tracked, start, remote)
    ensures !p.disabled ==> Home(p, start, remote).Some?
  {
    hide WellPosed, DiskAfter, TrackedAfter, EffectivePolicy, IsOci, RemoteDigest, LocalDigest;
    var t := InstallPlugin(p, s, remote).value;
    if !p.disabled {
      SkipDecisionStable(plugins, p, s, start, remote);
      DiskStep(plugins, p, s, start, remote);
    }
    TrackedStep(plugins, p, s, start, remote);
    if p.disabled {
      DisabledDiskStep(plugins, p, s.disk, start, remote);
    }
  }

  lemma DisabledDiskStep(plugins: seq<Plugin>, p: Plugin, disk: Disk, start: State, remote: Remote)
    requires DiskAfter(plugins, disk, start, remote) && p.disabled
    ensures DiskAfter(plugins + [p], disk, start, remote)
  {
    hide Home, Kept, Skips;
    var all := plugins + [p];
    forall d | Unoccupied(all, d, start, remote)
      ensures (d in disk <==> d in start.disk) && (d in disk ==> disk[d] == start.disk[d])
    {
      forall i | 0 <= i < |plugins| ensures !Occupies(plugins[i], d, start, remote) {
        assert all[i] == plugins[i];
      }
    }
  }

  /** The disk with the next plugin's directory as its turn leaves it. */
  lemma DiskAfterNext(plugins: seq<Plugin>, p: Plugin, home: string, disk: Disk, start: State, remote: Remote)
    requires DiskAfter(plugins, disk, start, remote) && Occupies(p, home, start, remote)
    requires Unoccupied(plugins, home, start, remote)
    requires Skips(p, start, remote) ==> home in start.disk
    ensures DiskAfter(plugins + [p], disk[home := Kept(p, home, start, remote)], start, remote)
  {
    hide Skips, Home, Kept, IsOci;
    var all := plugins + [p];
    var disk' := disk[home := Kept(p, home, start, remote)];
    assert all[|plugins|] == p;
    forall i, d | 0 <= i < |all| && Occupies(all[i], d, start, remote)
      ensures d in disk' && (Skips(all[i], start, remote) ==> d in start.disk)
      ensures disk'[d] == Kept(all[i], d, start, remote)
    {
      if i < |plugins| {
        assert all[i] == plugins[i] && d != home;
      }
    }
    forall d | Unoccupied(all, d, start, remote)
      ensures (d in disk' <==> d in start.disk) && (d in disk' ==> disk'[d] == start.disk[d])
    {
      assert !Occupies(all[|plugins|], d, start, remote);
      forall i | 0 <= i < |plugins| ensures !Occupies(plugins[i], d, start, remote) {
        assert all[i] == plugins[i];
      }
    }
  }

  lemma DiskStep(plugins: seq<Plugin>, p: Plugin, s: State, start: State, remote: Remote)
    requires WellPosed(plugins + [p], start, remote) && !p.disabled
    requires DiskAfter(plugins, s.disk, start, remote)
    requires InstallPlugin(p, s, remote).Some? && ShouldSkip(p, s, remote) == Some(Skips(p, start, remote))
    ensures DiskAfter(plugins + [p], InstallPlugin(p, s, remote).value.disk, start, remote)
  {
    hide EffectivePolicy, IsOci, RemoteDigest, Installed;
    var home := Home(p, start, remote).value;
    NotOccupiedBefore(plugins, p, home, start, remote);
    if Skips(p, start, remote) {
      SkippedHome(p, home, start, remote);
      assert s.disk[home := Kept(p, home, start, remote)] == s.disk;
    }
    assert InstallPlugin(p, s, remote).value.disk == s.disk[home := Kept(p, home, start, remote)];
    DiskAfterNext(plugins, p, home, s.disk, start, remote);
  }

  lemma TrackedStep(plugins: seq<Plugin>, p: Plugin, s: State, start: State, remote: Remote)
    requires TrackedAfter(plugins, s.tracked, start, remote)
    requires InstallPlugin(p, s, remote).Some?
    requires !p.disabled ==> ShouldSkip(p, s, remote) == Some(Skips(p, start, remote))
    ensures TrackedAfter(plugins + [p], InstallPlugin(p, s, remote).value.tracked, start, remote)
  {
    var all := plugins + [p];
    var tracked := InstallPlugin(p, s, remote).value.tracked;
    assert all[|plugins|] == p;
    forall h
      ensures h in tracked <==> StillTracked(all, h, start, remote)
    {
      if h in s.tracked {
        assert h in tracked <==> !Untracks(p, h, start.tracked[h], start, remote);
      }
      if StillTracked(all, h, start, remote) {
        forall i | 0 <= i < |plugins| ensures !Untracks(plugins[i], h, start.tracked[h], start, remote) {
          assert all[i] == plugins[i];
        }
        assert !Untracks(all[|plugins|], h, start.tracked[h], start, remote);
      }
    }
  }

  lemma NoTurnsYet(start: State, remote: Remote)
    ensures DiskAfter([], start.disk, start, remote) && TrackedAfter([], start.tracked, start, remote)
  {
  }

  lemma {:induction false} LoopInvariants(plugins: seq<Plugin>, start: State, remote: Remote)
    requires WellPosed(plugins, start, remote)
    requires Loop(plugins, start, remote).Some?
    ensures DiskAfter(plugins, Loop(plugins, start, remote).value.disk, start, remote)
    ensures TrackedAfter(plugins, Loop(plugins, start, remote).value.tracked, start, remote)
    ensures forall i :: 0 <= i < |plugins| && !plugins[i].disabled ==> Home(plugins[i], start, remote).Some?
  {
    hide InstallPlugin, MergeConfig, Home, WellPosed, DiskAfter, TrackedAfter;
    if plugins == [] {
      NoTurnsYet(start, remote);
    } else {
      var front, p := plugins[..|plugins| - 1], plugins[|plugins| - 1];
      assert plugins == front + [p];
      WellPosedFront(front, p, start, remote);
      LoopInvariants(front, start, remote);
      StepKeepsInvariants(front, p, Loop(front, start, remote).value, start, remote);
    }
  }

  lemma WellPosedFront(front: seq<Plugin>, p: Plugin, start: State, remote: Remote)
    requires WellPosed(front + [p], start, remote)
    ensures WellPosed(front, start, remote)
  {
    assert forall i :: 0 <= i < |front| ==> (front + [p])[i] == front[i];
  }

  // ----- The outcome of a run

  /** An NPM plugin that is unpacked into a directory on record: nothing takes that directory
      off the record again, so the sweep removes it. */
  ghost predicate Victim(p: Plugin, d: string, start: State, remote: Remote) {
    && Occupies(p, d, start, remote) && !IsOci(p.package) && !Skips(p, start, remote)
    && d in start.disk && start.disk[d].hash.Some?
  }

  /** The disk that a completed run leaves: every enabled plugin's directory, except a victim's,
      as the plugin's turn left it; and apart from these just the directories that carried no
      hash, untouched. */
  ghost predicate Reconciled(plugins: seq<Plugin>, disk: Disk, start: State, remote: Remote) {
    && (forall i, d :: 0 <= i < |plugins| && Occupies(plugins[i], d, start, remote) ==>
          OccupiedOutcome(plugins[i], d, disk, start, remote))
    && (forall d :: Unoccupied(plugins, d, start, remote) ==> UnoccupiedOutcome(d, disk, start))
  }

  ghost predicate OccupiedOutcome(p: Plugin, d: string, disk: Disk, start: State, remote: Remote) {
    if Victim(p, d, start, remote) then d !in disk
    else
      && d in disk && disk[d].hash == Some(p.hash)
      && (Skips(p, start, remote) ==> d in start.disk)
      && disk[d] == Kept(p, d, start, remote)
  }

  ghost predicate UnoccupiedOutcome(d: string, disk: Disk, start: State) {
    && (d in disk <==> d in start.disk && start.disk[d].hash.None?)
    && (d in disk ==> disk[d] == start.disk[d])
  }

  lemma SweptExactly(s: State, d: string)
    ensures d in Swept(s) <==> d in s.disk && forall h :: h in s.tracked ==> s.tracked[h] != d
  {
    if d in s.tracked.Values {
      var h :| h in s.tracked && s.tracked[h] == d;
    }
  }

  /** A plugin only takes the record of its own directory off. */
  lemma UntracksOwnDirectory(p: Plugin, h: string, d: string, start: State, remote: Remote)
    requires Tracks(start.tracked, start.disk) && h in start.tracked && start.tracked[h] == d
    ensures Untracks(p, h, d, start, remote) ==> Occupies(p, d, start, remote)
  {
  }

  lemma VictimSwept(plugins: seq<Plugin>, i: nat, d: string, s: State, start: State, remote: Remote)
    requires WellPosed(plugins, start, remote) && i < |plugins| && Victim(plugins[i], d, start, remote)
    requires TrackedAfter(plugins, s.tracked, start, remote)
    ensures d !in Swept(s)
  {
    hide ShouldSkip, IsOci, Target;
    var h := start.disk[d].hash.value;
    forall j | 0 <= j < |plugins|
      ensures !Untracks(plugins[j], h, d, start, remote)
    {
      UntracksOwnDirectory(plugins[j], h, d, start, remote);
      assert Occupies(plugins[j], d, start, remote) ==> j == i;
    }
    assert StillTracked(plugins, h, start, remote);
  }

  lemma SurvivorNotTracked(plugins: seq<Plugin>, i: nat, d: string, s: State, start: State, remote: Remote)
    requires WellPosed(plugins, start, remote) && i < |plugins|
    requires Occupies(plugins[i], d, start, remote) && !Victim(plugins[i], d, start, remote)
    requires TrackedAfter(plugins, s.tracked, start, remote)
    ensures forall h :: h in s.tracked ==> s.tracked[h] != d
  {
    hide ShouldSkip, IsOci, Target;
    var p := plugins[i];
    forall h | h in s.tracked
      ensures s.tracked[h] != d
    {
      if s.tracked[h] == d {
        assert StillTracked(plugins, h, start, remote);
        assert !Untracks(p, h, d, start, remote);
        if Skips(p, start, remote) {
          SkippedHome(p, d, start, remote);
        }
      }
    }
  }

  lemma SweepOccupied(plugins: seq<Plugin>, i: nat, d: string, s: State, start: State, remote: Remote)
    requires WellPosed(plugins, start, remote) && i < |plugins| && Occupies(plugins[i], d, start, remote)
    requires DiskAfter(plugins, s.disk, start, remote) && TrackedAfter(plugins, s.tracked, start, remote)
    ensures OccupiedOutcome(plugins[i], d, Swept(s), start, remote)
  {
    hide ShouldSkip, IsOci, Target, TrackedAfter, DistinctHashes, DistinctHomes;
    if Victim(plugins[i], d, start, remote) {
      VictimSwept(plugins, i, d, s, start, remote);
    } else {
      SurvivorNotTracked(plugins, i, d, s, start, remote);
      SweptExactly(s, d);
      if Skips(plugins[i], start, remote) {
        SkippedHome(plugins[i], d, start, remote);
      }
    }
  }

  lemma SweepUnoccupied(plugins: seq<Plugin>, d: string, s: State, start: State, remote: Remote)
    requires WellPosed(plugins, start, remote)
    requires DiskAfter(plugins, s.disk, start, remote) && TrackedAfter(plugins, s.tracked, start, remote)
    requires Unoccupied(plugins, d, start, remote)
    ensures UnoccupiedOutcome(d, Swept(s), start)
  {
    hide ShouldSkip, IsOci, Target;
    SweptExactly(s, d);
    if d in start.disk && start.disk[d].hash.Some? {
      var h := start.disk[d].hash.value;
      forall j | 0 <= j < |plugins|
        ensures !Untracks(plugins[j], h, d, start, remote)
      {
        UntracksOwnDirectory(plugins[j], h, d, start, remote);
      }
      assert StillTracked(plugins, h, start, remote);
    } else {
      forall h | h in s.tracked
        ensures s.tracked[h] != d
      {
        assert StillTracked(plugins, h, start, remote);
      }
    }
  }

  /** Reconciliation is exact, up to the victims. */
  lemma ReconcileExact(plugins: seq<Plugin>, start: State, remote: Remote)
    requires WellPosed(plugins, start, remote)
    requires Loop(plugins, start, remote).Some?
    ensures Reconciled(plugins, Swept(Loop(plugins, start, remote).value), start, remote)
    ensures forall i :: 0 <= i < |plugins| && !plugins[i].disabled ==> Home(plugins[i], start, remote).Some?
  {
    hide Loop, Home, Skips, Swept, WellPosed, DiskAfter, TrackedAfter;
    LoopInvariants(plugins, start, remote);
    var s := Loop(plugins, start, remote).value;
    forall i, d | 0 <= i < |plugins| && Occupies(plugins[i], d, start, remote)
      ensures OccupiedOutcome(plugins[i], d, Swept(s), start, remote)
    {
      SweepOccupied(plugins, i, d, s, start, remote);
    }
    forall d | Unoccupied(plugins, d, start, remote)
      ensures UnoccupiedOutcome(d, Swept(s), start)
    {
      SweepUnoccupied(plugins, d, s, start, remote);
    }
  }

  /** A completed run leaves distinct records, so that the next run starts under the same condition. */
  lemma RecordsStayDistinct(plugins: seq<Plugin>, start: State, remote: Remote)
    requires WellPosed(plugins, start, remote)
    requires Loop(plugins, start, remote).Some?
    ensures DistinctRecords(Swept(Loop(plugins, start, remote).value))
  {
    hide Loop, Swept, Skips, Home, Kept, Victim;
    ReconcileExact(plugins, start, remote);
    var disk := Swept(Loop(plugins, start, remote).value);
    assert forall d :: Unoccupied(plugins, d, start, remote) ==> UnoccupiedOutcome(d, disk, start);
    forall d, e | d in disk && e in disk && d != e && disk[d].hash.Some?
      ensures disk[d].hash != disk[e].hash
    {
      assert !Unoccupied(plugins, d, start, remote) by { assert !UnoccupiedOutcome(d, disk, start); }
      var i :| 0 <= i < |plugins| && Occupies(plugins[i], d, start, remote);
      if !Unoccupied(plugins, e, start, remote) {
        var j :| 0 <= j < |plugins| && Occupies(plugins[j], e, start, remote);
        assert i != j;
      }
    }
  }

  /** All enabled plugins are in place after a completed run, each with its own hash, if and only
      if they have directories of their own and no NPM plugin was unpacked into a directory on
      record. */
  lemma AllInPlaceExactly(plugins: seq<Plugin>, start: State, remote: Remote)
    requires Tracks(start.tracked, start.disk) && DistinctHashes(plugins)
    requires Loop(plugins, start, remote).Some?
    ensures AllInPlace(plugins, Swept(Loop(plugins, start, remote).value), start, remote)
            <==> DistinctHomes(plugins, start, remote) && NoVictims(plugins, start, remote)
  {
    hide Loop, Skips, Target, Swept, Kept;
    var disk := Swept(Loop(plugins, start, remote).value);
    if DistinctHomes(plugins, start, remote) {
      ReconcileExact(plugins, start, remote);
      forall i | 0 <= i < |plugins| && !plugins[i].disabled
        ensures InPlace(plugins[i], disk, start, remote) <==>
                  !Victim(plugins[i], Home(plugins[i], start, remote).value, start, remote)
      {
        assert Occupies(plugins[i], Home(plugins[i], start, remote).value, start, remote);
      }
    } else {
      var i, j :| 0 <= i < j < |plugins| && !plugins[i].disabled && !plugins[j].disabled
                  && Home(plugins[i], start, remote).Some?
                  && Home(plugins[i], start, remote) == Home(plugins[j], start, remote);
      assert !(InPlace(plugins[i], disk, start, remote) && InPlace(plugins[j], disk, start, remote));
    }
  }

  ghost predicate AllInPlace(plugins: seq<Plugin>, disk: Disk, start: State, remote: Remote) {
    forall i :: 0 <= i < |plugins| && !plugins[i].disabled ==> InPlace(plugins[i], disk, start, remote)
  }

  ghost predicate InPlace(p: Plugin, disk: Disk, start: State, remote: Remote) {
    match Home(p, start, remote)
    case None => false
    case Some(d) => d in disk && disk[d].hash == Some(p.hash)
  }

  ghost predicate NoVictims(plugins: seq<Plugin>, start: State, remote: Remote) {
    forall i, d :: 0 <= i < |plugins| ==> !Victim(plugins[i], d, start, remote)
  }
}
