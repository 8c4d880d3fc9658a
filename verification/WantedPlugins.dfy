/** From the entries of the configuration files to the disk: the plugins that main of
    docker/install-dynamic-plugins.py wants installed are those of the folded table. */
module WantedPlugins {
  import opened Wrappers
  import opened Sequences
  import opened ConfigTree
  import opened ConfigOrder
  import opened PackageKeys
  import opened PluginFold
  import opened Reconcile
  import opened InstallRuns
  import opened RepeatedRuns
  import opened PullPolicies

  /** How values of an entry are read, and what is computed from outside: the truth of a value, the
      configuration tree in it, the information on a local package, and the digest of a record. */
  datatype Reading = Reading(truthy: Field -> bool, tree: Field -> Option<Config>,
                             localInfo: string -> Field, digest: Fields -> string)

  const DISABLED := "disabled"
  const PULL_POLICY := "pullPolicy"
  const FORCE_DOWNLOAD := "forceDownload"
  const PLUGIN_CONFIG := "pluginConfig"
  const LOCAL_INFO := "_local_package_info"

  /** The record whose digest identifies an installed plugin. */
  function HashedRecord(e: Fields, reading: Reading): Fields
    requires Package(e).Some?
  {
    var record := e - {PLUGIN_CONFIG, VERSION};
    if "./" <= Package(e).value then record[LOCAL_INFO := reading.localInfo(Package(e).value)] else record
  }

  function PolicyOf(e: Fields): PullPolicy {
    if PULL_POLICY !in e then Unset
    else if e[PULL_POLICY] == Text("IfNotPresent") then IfNotPresent
    else if e[PULL_POLICY] == Text("Always") then Always
    else Unknown
  }

  predicate Truthy(e: Fields, field: string, reading: Reading) {
    field in e && reading.truthy(e[field])
  }

  function PluginOf(e: Fields, reading: Reading): Plugin
    requires Package(e).Some?
  {
    Plugin(Package(e).value, reading.digest(HashedRecord(e, reading)), Truthy(e, DISABLED, reading), PolicyOf(e),
           Truthy(e, FORCE_DOWNLOAD, reading), if PLUGIN_CONFIG in e then reading.tree(e[PLUGIN_CONFIG]) else None)
  }

  ghost predicate Packaged(t: Table) {
    forall k :: k in t.order ==> k in t.plugins && Package(t.plugins[k]).Some?
  }

  /** The plugins of the table, in its order. */
  function Wanted(t: Table, reading: Reading): seq<Plugin>
    requires Packaged(t)
  {
    seq(|t.order|, i requires 0 <= i < |t.order| => PluginOf(t.plugins[t.order[i]], reading))
  }

  ghost predicate Injective(digest: Fields -> string) {
    forall x, y :: digest(x) == digest(y) ==> x == y
  }

  lemma HashedPackage(e: Fields, reading: Reading)
    requires Package(e).Some?
    ensures Package(HashedRecord(e, reading)) == Package(e)
  {
    var record := e - {PLUGIN_CONFIG, VERSION};
    assert PACKAGE in record && record[PACKAGE] == e[PACKAGE];
  }

  lemma ConsistentPackaged(parse: Parser, t: Table)
    requires Consistent(parse, t)
    ensures Packaged(t)
  {
    forall k | k in t.order
      ensures k in t.plugins && Package(t.plugins[k]).Some?
    {
      assert StoredUnder(parse, k, t.plugins[k]);
    }
  }

  /** The plugins of one table have distinct hashes, given that the digest is injective. */
  lemma TableHashesDistinct(parse: Parser, t: Table, reading: Reading)
    requires Consistent(parse, t) && Packaged(t) && Injective(reading.digest)
    ensures DistinctHashes(Wanted(t, reading))
  {
    hide StoredUnder, HashedRecord;
    var plugins := Wanted(t, reading);
    forall i, j | 0 <= i < j < |plugins|
      ensures plugins[i].hash != plugins[j].hash
    {
      DifferentHashes(parse, t, t.order[i], t.order[j], reading);
    }
  }

  lemma DifferentHashes(parse: Parser, t: Table, j: string, k: string, reading: Reading)
    requires Consistent(parse, t) && Packaged(t) && Injective(reading.digest)
    requires j in t.order && k in t.order && j != k
    ensures reading.digest(HashedRecord(t.plugins[j], reading)) != reading.digest(HashedRecord(t.plugins[k], reading))
  {
    hide Consistent, HashedRecord;
    PackagesDiffer(parse, t, j, k);
    HashedPackage(t.plugins[j], reading);
    HashedPackage(t.plugins[k], reading);
  }

  predicate SameField(a: Fields, b: Fields, field: string) {
    (field in a <==> field in b) && (field in a ==> a[field] == b[field])
  }

  /** Two entries get the same hash exactly if they agree in every field but the configuration and the
      version, and, if local, their packages look the same on disk. */
  lemma SameHashExactly(a: Fields, b: Fields, reading: Reading, reading': Reading)
    requires Package(a).Some? && Package(b).Some? && reading.digest == reading'.digest && Injective(reading.digest)
    ensures PluginOf(a, reading).hash == PluginOf(b, reading').hash <==>
              && (forall f :: f !in {"pluginConfig", "version", "_local_package_info"} ==> SameField(a, b, f))
              && if "./" <= Package(a).value
                 then reading.localInfo(Package(a).value) == reading'.localInfo(Package(a).value)
                 else SameField(a, b, "_local_package_info")
  {
    hide HashedRecord, SameField;
    var r, r' := HashedRecord(a, reading), HashedRecord(b, reading');
    EqualByFields(r, r');
    forall f
      ensures f in {"pluginConfig", "version"} ==> SameField(r, r', f)
      ensures f !in {"pluginConfig", "version", "_local_package_info"} ==> (SameField(r, r', f) <==> SameField(a, b, f))
    {
      RecordField(a, b, reading, reading', f);
    }
    if SameField(a, b, "package") {
      SamePackage(a, b);
      RecordField(a, b, reading, reading', "_local_package_info");
    }
  }

  lemma EqualByFields(a: Fields, b: Fields)
    ensures a == b <==> forall f :: SameField(a, b, f)
  {
    if forall f :: SameField(a, b, f) {
      forall f ensures (f in a <==> f in b) && (f in a ==> a[f] == b[f]) {
        assert SameField(a, b, f);
      }
    }
  }

  lemma SamePackage(a: Fields, b: Fields)
    requires SameField(a, b, "package")
    ensures Package(a) == Package(b)
  {
  }

  lemma RecordField(a: Fields, b: Fields, reading: Reading, reading': Reading, f: string)
    requires Package(a).Some? && Package(b).Some?
    ensures f in {"pluginConfig", "version"} ==> SameField(HashedRecord(a, reading), HashedRecord(b, reading'), f)
    ensures f !in {"pluginConfig", "version", "_local_package_info"} ==>
              (SameField(HashedRecord(a, reading), HashedRecord(b, reading'), f) <==> SameField(a, b, f))
    ensures f == "_local_package_info" && Package(a) == Package(b) ==>
              (SameField(HashedRecord(a, reading), HashedRecord(b, reading'), f) <==>
                 if "./" <= Package(a).value
                 then reading.localInfo(Package(a).value) == reading'.localInfo(Package(a).value)
                 else SameField(a, b, f))
  {
  }

  /** The table that the configuration files fold to. */
  function Folded(includes: seq<Fields>, mains: seq<Fields>): (t: Table)
    requires FoldFiles(Identify, includes, mains).Ok?
    ensures Packaged(t)
  {
    FoldConsistent(includes, mains);
    ConsistentPackaged(Identify, FoldFiles(Identify, includes, mains).value);
    FoldFiles(Identify, includes, mains).value
  }

  /** From the configuration files to the disk.  A completed run over the folded plugins leaves all
      of them in place exactly if they have directories of their own and no NPM plugin was
      unpacked into a directory on record; and once the directories differ, the run leaves
      exactly what Reconciled describes, and the run after it completes as well. */
  lemma FoldedPluginsReconciled(includes: seq<Fields>, mains: seq<Fields>, reading: Reading, disk: Disk, remote: Remote)
    requires FoldFiles(Identify, includes, mains).Ok? && Injective(reading.digest) && DistinctRecords(disk)
    requires Loop(Wanted(Folded(includes, mains), reading), Start(disk), remote).Some?
    ensures var plugins := Wanted(Folded(includes, mains), reading);
            var result := Swept(Loop(plugins, Start(disk), remote).value);
            && (AllInPlace(plugins, result, Start(disk), remote) <==>
                  DistinctHomes(plugins, Start(disk), remote) && NoVictims(plugins, Start(disk), remote))
            && (DistinctHomes(plugins, Start(disk), remote) ==>
                  Reconciled(plugins, result, Start(disk), remote) && Completes(plugins, result, remote))
  {
    hide Loop, Wanted, Folded, Consistent, Swept, Reconciled, AllInPlace, DistinctHomes, NoVictims, Injective;
    var plugins := Wanted(Folded(includes, mains), reading);
    TableHashesDistinct(Identify, Folded(includes, mains), reading) by { FoldedConsistent(includes, mains); }
    TracksExactly(Scanned(disk), disk);
    AllInPlaceExactly(plugins, Start(disk), remote);
    if DistinctHomes(plugins, Start(disk), remote) {
      ReconcileExact(plugins, Start(disk), remote);
      RunAgain(plugins, disk, remote);
    }
  }

  lemma FoldedConsistent(includes: seq<Fields>, mains: seq<Fields>)
    requires FoldFiles(Identify, includes, mains).Ok?
    ensures Consistent(Identify, Folded(includes, mains))
  {
    hide Consistent;
    FoldConsistent(includes, mains);
  }

  // ----- What becomes of each entry

  ghost predicate EntrySays(e: Fields, field: string, text: string) {
    field in e && e[field] == Text(text)
  }

  ghost predicate EntryStays(e: Fields, reading: Reading)
    requires Package(e).Some?
  {
    var package := Package(e).value;
    if "oci://" <= package then
      EntrySays(e, "pullPolicy", "IfNotPresent") || ("pullPolicy" !in e && !HasLatest(package))
    else !EntrySays(e, "pullPolicy", "Always") && !("forceDownload" in e && reading.truthy(e["forceDownload"]))
  }

  ghost predicate EntryChecks(e: Fields)
    requires Package(e).Some?
  {
    var package := Package(e).value;
    && "oci://" <= package
    && (EntrySays(e, "pullPolicy", "Always") || ("pullPolicy" !in e && HasLatest(package)))
  }

  ghost predicate EntryDisabled(e: Fields, reading: Reading) {
    "disabled" in e && reading.truthy(e["disabled"])
  }

  lemma EntryIs(e: Fields, reading: Reading)
    requires Package(e).Some?
    ensures StaysOnceThere(PluginOf(e, reading)) <==> EntryStays(e, reading)
    ensures ChecksDigest(PluginOf(e, reading)) <==> EntryChecks(e)
    ensures PluginOf(e, reading).disabled <==> EntryDisabled(e, reading)
  {
    hide HasLatest, HashedRecord;
  }

  /** What a completed run does with an entry of the folded table.  A disabled one is not on record
      afterwards.  One that is to be fetched only if it is missing keeps its directory as it is; an
      OCI image that is to be checked is there with the registry's digest; any other is unpacked
      again, and so is what was not on record. */
  lemma EntryObeyed(includes: seq<Fields>, mains: seq<Fields>, reading: Reading, disk: Disk, remote: Remote, k: string)
    requires FoldFiles(Identify, includes, mains).Ok? && Injective(reading.digest) && DistinctRecords(disk)
    requires Loop(Wanted(Folded(includes, mains), reading), Start(disk), remote).Some?
    requires DistinctHomes(Wanted(Folded(includes, mains), reading), Start(disk), remote)
    requires k in Folded(includes, mains).order
    ensures var t := Folded(includes, mains);
            var e, p := t.plugins[k], PluginOf(t.plugins[k], reading);
            var result := Swept(Loop(Wanted(t, reading), Start(disk), remote).value);
            && (EntryDisabled(e, reading) ==> forall d :: !OnRecord(p, d, result))
            && (!EntryDisabled(e, reading) ==>
                  && (EntryStays(e, reading) ==>
                        forall d :: OnRecord(p, d, disk) ==> d in result && result[d] == disk[d])
                  && (EntryChecks(e) ==>
                        && p.package in remote.digests
                        && exists d :: OnRecord(p, d, result) && result[d].digest == Some(remote.digests[p.package]))
                  && ((forall d :: !OnRecord(p, d, disk)) || (!EntryStays(e, reading) && !EntryChecks(e)) ==>
                        exists d :: Unpacked(p, d, Start(disk), remote, result)))
  {
    hide Loop, Folded, Consistent, Swept, DistinctHomes, Injective, PluginOf, EntryStays, EntryChecks, EntryDisabled,
      StaysOnceThere, ChecksDigest, Unpacked, GLOBAL_CONFIG;
    var t := Folded(includes, mains);
    var plugins := Wanted(t, reading);
    TableHashesDistinct(Identify, t, reading) by { FoldedConsistent(includes, mains); }
    TracksExactly(Scanned(disk), disk);
    assert WellPosed(plugins, Start(disk), remote);
    var i :| 0 <= i < |t.order| && t.order[i] == k;
    EntryIs(t.plugins[k], reading);
    var p := plugins[i];
    var result := Swept(Loop(plugins, Start(disk), remote).value);
    if p.disabled {
      forall d ensures !OnRecord(p, d, result) {
        DisabledNotRecorded(includes, mains, reading, disk, remote, i, d);
      }
    } else {
      if StaysOnceThere(p) {
        forall d | OnRecord(p, d, disk) ensures d in result && result[d] == disk[d] {
          KeptIfPresent(plugins, i, d, Start(disk), remote);
        }
      }
      if ChecksDigest(p) {
        CurrentIfChecked(plugins, i, Start(disk), remote);
      }
      if (forall d :: !OnRecord(p, d, disk)) || (!StaysOnceThere(p) && !ChecksDigest(p)) {
        UnpackedOtherwise(plugins, i, Start(disk), remote);
      }
    }
  }

  lemma DisabledNotRecorded(includes: seq<Fields>, mains: seq<Fields>, reading: Reading, disk: Disk, remote: Remote,
                            i: nat, d: string)
    requires FoldFiles(Identify, includes, mains).Ok? && Injective(reading.digest) && DistinctRecords(disk)
    requires WellPosed(Wanted(Folded(includes, mains), reading), Start(disk), remote)
    requires Loop(Wanted(Folded(includes, mains), reading), Start(disk), remote).Some?
    requires i < |Wanted(Folded(includes, mains), reading)| && Wanted(Folded(includes, mains), reading)[i].disabled
    ensures !OnRecord(Wanted(Folded(includes, mains), reading)[i], d,
                      Swept(Loop(Wanted(Folded(includes, mains), reading), Start(disk), remote).value))
  {
    hide Loop, Folded, Consistent, Swept, WellPosed, Injective, HashedRecord, Home, GLOBAL_CONFIG;
    var t := Folded(includes, mains);
    var plugins := Wanted(t, reading);
    var result := Swept(Loop(plugins, Start(disk), remote).value);
    FoldedConsistent(includes, mains);
    if d in result && result[d].hash.Some? {
      RecordedAreEnabled(plugins, d, Start(disk), remote);
      var j :| 0 <= j < |plugins| && Occupies(plugins[j], d, Start(disk), remote) && OnRecord(plugins[j], d, result);
      assert t.order[i] != t.order[j] by { OrderDistinct(Identify, t, i, j); }
      DifferentHashes(Identify, t, t.order[i], t.order[j], reading);
    }
  }

  lemma OrderDistinct(parse: Parser, t: Table, i: nat, j: nat)
    requires Consistent(parse, t) && i < |t.order| && j < |t.order| && i != j
    ensures t.order[i] != t.order[j]
  {
    assert if i < j then t.order[i] != t.order[j] else t.order[j] != t.order[i];
  }

  // ----- Reordering the entries

  ghost predicate Configures(p: Plugin, c: Config) {
    !p.disabled && p.config == Some(c) && c.Dict?
  }

  lemma {:induction false} ConfigsAre(plugins: seq<Plugin>, c: Config)
    ensures c in Configs(plugins) <==> exists i :: 0 <= i < |plugins| && Configures(plugins[i], c)
  {
    if plugins != [] {
      var n := |plugins| - 1;
      ConfigsAre(plugins[..n], c);
      assert forall i :: 0 <= i < n ==> plugins[..n][i] == plugins[i];
      assert c in Configs(plugins) <==> c in Configs(plugins[..n]) || Configures(plugins[n], c);
    }
  }

  /** Reordering the entries of the included files among themselves, and those of the main file among
      themselves, does not change the generated configuration, whatever is on disk. */
  lemma EntryOrderIrrelevant(includes: seq<Fields>, mains: seq<Fields>, includes': seq<Fields>, mains': seq<Fields>,
                             reading: Reading, s: State, remote: Remote, s': State, remote': Remote)
    requires Plain(includes) && Plain(mains)
    requires multiset(includes) == multiset(includes') && multiset(mains) == multiset(mains')
    requires FoldFiles(Identify, includes, mains).Ok?
    requires s.config == s'.config
    requires Loop(Wanted(Folded(includes, mains), reading), s, remote).Some?
    ensures FoldFiles(Identify, includes', mains').Ok?
    ensures Loop(Wanted(Folded(includes', mains'), reading), s', remote').Some? ==>
              Loop(Wanted(Folded(includes', mains'), reading), s', remote').value.config ==
              Loop(Wanted(Folded(includes, mains), reading), s, remote).value.config
  {
    hide Loop, Configs, FoldFiles, Identify, Plain;
    OrderWithinLevels(Identify, includes, mains, includes', mains');
    var plugins := Wanted(Folded(includes, mains), reading);
    var plugins' := Wanted(Folded(includes', mains'), reading);
    FoldedConsistent(includes, mains);
    FoldedConsistent(includes', mains');
    forall c
      ensures c in Configs(plugins) <==> c in Configs(plugins')
    {
      SameConfigs(Folded(includes, mains), Folded(includes', mains'), reading, c);
      SameConfigs(Folded(includes', mains'), Folded(includes, mains), reading, c);
    }
    if Loop(plugins', s', remote').Some? {
      ConfigIndependentOfDisk(plugins, s, remote, plugins', s', remote');
    }
  }

  lemma SameConfigs(t: Table, t': Table, reading: Reading, c: Config)
    requires Consistent(Identify, t) && Consistent(Identify, t') && Packaged(t) && Packaged(t')
    requires t.plugins == t'.plugins
    ensures c in Configs(Wanted(t, reading)) ==> c in Configs(Wanted(t', reading))
  {
    hide Configs, Identify, PluginOf, StoredUnder;
    var plugins, plugins' := Wanted(t, reading), Wanted(t', reading);
    ConfigsAre(plugins, c);
    ConfigsAre(plugins', c);
    if i :| 0 <= i < |plugins| && Configures(plugins[i], c) {
      assert t.order[i] in t'.order;
      var j :| 0 <= j < |t'.order| && t'.order[j] == t.order[i];
      assert plugins'[j] == plugins[i];
    }
  }

  // ----- The generated configuration

  /** An enabled entry of the table brings a configuration. */
  ghost predicate Brings(t: Table, reading: Reading, c: Config) {
    exists k :: k in t.order && k in t.plugins && BroughtBy(t.plugins[k], reading, c)
  }

  ghost predicate BroughtBy(e: Fields, reading: Reading, c: Config) {
    !EntryDisabled(e, reading) && "pluginConfig" in e && reading.tree(e["pluginConfig"]) == Some(c) && c.Dict?
  }

  /** A completed run generates a configuration whose leaves are exactly those of the starting
      configuration and of what the enabled entries bring. */
  lemma GeneratedLeaves(includes: seq<Fields>, mains: seq<Fields>, reading: Reading, s: State, remote: Remote,
                        p: Path, a: Atom)
    requires FoldFiles(Identify, includes, mains).Ok?
    requires s.config == GLOBAL_CONFIG && Loop(Wanted(Folded(includes, mains), reading), s, remote).Some?
    ensures LeafAt(Loop(Wanted(Folded(includes, mains), reading), s, remote).value.config, p, a) <==>
              || LeafAt(GLOBAL_CONFIG, p, a)
              || exists c :: Brings(Folded(includes, mains), reading, c) && LeafAt(c, p, a)
  {
    hide Loop, Configs, Folded, Wanted, Brings, LeafAt, GLOBAL_CONFIG;
    var t := Folded(includes, mains);
    var plugins := Wanted(t, reading);
    LoopConfig(plugins, s, remote);
    FoldGathers(s.config, Configs(plugins));
    forall c ensures c in Configs(plugins) <==> Brings(t, reading, c) {
      BroughtIsMerged(t, reading, c);
    }
    var all := [s.config] + Configs(plugins);
    assert forall c :: c in all <==> c == s.config || c in Configs(plugins);
    assert LeafOfOne(all, p, a) <==> LeafAt(s.config, p, a) || exists c :: Brings(t, reading, c) && LeafAt(c, p, a);
  }

  lemma BroughtIsMerged(t: Table, reading: Reading, c: Config)
    requires Packaged(t)
    ensures c in Configs(Wanted(t, reading)) <==> Brings(t, reading, c)
  {
    hide Configs, HashedRecord;
    var plugins := Wanted(t, reading);
    ConfigsAre(plugins, c);
    forall i | 0 <= i < |plugins|
      ensures Configures(plugins[i], c) <==> BroughtBy(t.plugins[t.order[i]], reading, c)
    {
    }
    if Brings(t, reading, c) {
      var k :| k in t.order && k in t.plugins && BroughtBy(t.plugins[k], reading, c);
      var i :| 0 <= i < |t.order| && t.order[i] == k;
      assert Configures(plugins[i], c);
    }
  }
}
