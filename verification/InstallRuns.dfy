/** Whole runs of the installer: the generated configuration, and when a run completes. */
module InstallRuns {
  import opened Wrappers
  import opened ConfigTree
  import opened ConfigOrder
  import opened PackageKeys
  import opened Reconcile

  // ----- The generated configuration

  /** The configurations that are merged, in plugin order. */
  function Configs(plugins: seq<Plugin>): seq<Config> {
    if plugins == [] then [] else
    var p := plugins[|plugins| - 1];
    Configs(plugins[..|plugins| - 1])
    + if p.disabled || p.config.None? || p.config.value.Leaf? then [] else [p.config.value]
  }

  lemma {:induction false} FoldConcat(base: Config, a: seq<Config>, b: seq<Config>)
    ensures Fold(base, a + b) == if Fold(base, a).Some? then Fold(Fold(base, a).value, b) else None
    decreases |a|
  {
    if a == [] {
      assert a + b == b;
    } else {
      assert (a + b)[0] == a[0] && (a + b)[1..] == a[1..] + b;
      if Mergeable(a[0], base) {
        FoldConcat(Merged(a[0], base), a[1..], b);
      }
    }
  }

  lemma MergeConfigIsFold(plugins: seq<Plugin>, base: Config)
    requires plugins != []
    ensures var p, front := plugins[|plugins| - 1], Configs(plugins[..|plugins| - 1]);
            Fold(base, Configs(plugins)) ==
            if Fold(base, front).Some? then MergeConfig(p, Fold(base, front).value) else None
  {
    var p, front := plugins[|plugins| - 1], Configs(plugins[..|plugins| - 1]);
    if Configs(plugins) == front + [] {
      FoldConcat(base, front, []);
    } else {
      FoldConcat(base, front, [p.config.value]);
      assert [p.config.value][1..] == [];
    }
  }

  lemma {:induction false} LoopConfig(plugins: seq<Plugin>, s: State, remote: Remote)
    requires Loop(plugins, s, remote).Some?
    ensures Fold(s.config, Configs(plugins)) == Some(Loop(plugins, s, remote).value.config)
  {
    hide InstallPlugin, MergeConfig;
    if plugins != [] {
      LoopConfig(plugins[..|plugins| - 1], s, remote);
      InstallKeepsConfig(plugins[|plugins| - 1], Loop(plugins[..|plugins| - 1], s, remote).value, remote);
      MergeConfigIsFold(plugins, s.config);
    }
  }

  lemma InstallKeepsConfig(p: Plugin, s: State, remote: Remote)
    ensures InstallPlugin(p, s, remote).Some? ==> InstallPlugin(p, s, remote).value.config == s.config
  {
    hide ShouldSkip, Target;
  }

  /** Two completed runs generate the same configuration whatever was on disk before either of
      them, and even if they merged the plugins' configurations in different orders. */
  lemma ConfigIndependentOfDisk(plugins: seq<Plugin>, s: State, remote: Remote,
                                plugins': seq<Plugin>, s': State, remote': Remote)
    requires s.config == s'.config
    requires Loop(plugins, s, remote).Some? && Loop(plugins', s', remote').Some?
    requires forall c :: c in Configs(plugins) <==> c in Configs(plugins')
    ensures Loop(plugins, s, remote).value.config == Loop(plugins', s', remote').value.config
  {
    hide Loop;
    LoopConfig(plugins, s, remote);
    LoopConfig(plugins', s', remote');
    FoldDetermined(s.config, Configs(plugins), Configs(plugins'));
  }

  /** What every run starts its configuration from. */
  const GLOBAL_CONFIG := Dict(map["dynamicPlugins" := Dict(map["rootDirectory" := Leaf(Atom("dynamic-plugins-root"))])])

  /** The starting configuration meets the condition that makes the order irrelevant. */
  lemma GlobalConfigSolid()
    ensures GLOBAL_CONFIG.Dict? && Solid(GLOBAL_CONFIG)
  {
    var inner := GLOBAL_CONFIG.entries["dynamicPlugins"];
    forall p: Path | p != []
      ensures At(GLOBAL_CONFIG, p) != Some(EMPTY_DICT)
    {
      assert "rootDirectory" in inner.entries && EMPTY_DICT.entries == map[];
      if p[0] == "dynamicPlugins" {
        assert At(GLOBAL_CONFIG, p) == At(inner, p[1..]);
        if p[1..] != [] && p[1] == "rootDirectory" {
          assert At(inner, p[1..]) == At(inner.entries["rootDirectory"], p[1..][1..]);
        }
      }
    }
  }

  /** Whatever the plugins bring along, the generated configuration keeps the root directory. */
  lemma RootDirectoryKept(plugins: seq<Plugin>, s: State, remote: Remote)
    requires s.config == GLOBAL_CONFIG && Loop(plugins, s, remote).Some?
    ensures At(Loop(plugins, s, remote).value.config, ["dynamicPlugins", "rootDirectory"]) ==
            Some(Leaf(Atom("dynamic-plugins-root")))
  {
    hide Loop;
    var p := ["dynamicPlugins", "rootDirectory"];
    assert p[1..] == ["rootDirectory"] && p[1..][1..] == [];
    LoopConfig(plugins, s, remote);
    FoldGathers(GLOBAL_CONFIG, Configs(plugins));
    var inner := GLOBAL_CONFIG.entries["dynamicPlugins"];
    assert At(GLOBAL_CONFIG, p) == At(inner, p[1..]) == At(inner.entries["rootDirectory"], p[1..][1..]);
    assert LeafAt(GLOBAL_CONFIG, p, Atom("dynamic-plugins-root"));
    assert GLOBAL_CONFIG in [GLOBAL_CONFIG] + Configs(plugins);
    assert LeafOfOne([GLOBAL_CONFIG] + Configs(plugins), p, Atom("dynamic-plugins-root"));
  }

  // ----- When a run completes

  /** Nothing about the plugin makes the installer raise. */
  ghost predicate Installable(p: Plugin, start: State, remote: Remote) {
    && Home(p, start, remote).Some?
    && (IsOci(p.package) && EffectivePolicy(p) == Always ==> RemoteDigest(p, remote).Some?)
  }

  lemma {:induction false} LoopCompletes(plugins: seq<Plugin>, start: State, remote: Remote)
    requires WellPosed(plugins, start, remote)
    requires forall i :: 0 <= i < |plugins| && !plugins[i].disabled ==> Installable(plugins[i], start, remote)
    requires Fold(start.config, Configs(plugins)).Some?
    ensures Loop(plugins, start, remote).Some?
  {
    hide Installable, WellPosed, ShouldSkip, Target, Skips, Home, MergeConfig, Fold, Configs;
    if plugins != [] {
      var front, p := plugins[..|plugins| - 1], plugins[|plugins| - 1];
      assert plugins == front + [p];
      WellPosedFront(front, p, start, remote);
      MergeConfigIsFold(plugins, start.config);
      assert forall i :: 0 <= i < |front| ==> front[i] == plugins[i];
      LoopCompletes(front, start, remote);
      LoopInvariants(front, start, remote);
      var s := Loop(front, start, remote).value;
      LoopConfig(front, start, remote);
      if !p.disabled {
        assert plugins[|front|] == p;
        StepCompletes(front, p, s, start, remote);
      }
    }
  }

  lemma StepCompletes(front: seq<Plugin>, p: Plugin, s: State, start: State, remote: Remote)
    requires WellPosed(front + [p], start, remote) && !p.disabled && Installable(p, start, remote)
    requires DiskAfter(front, s.disk, start, remote) && TrackedAfter(front, s.tracked, start, remote)
    ensures InstallPlugin(p, s, remote).Some?
  {
    hide WellPosed, DiskAfter, TrackedAfter, IsOci, EffectivePolicy, RemoteDigest, Target;
    SkipDecisionStable(front, p, s, start, remote);
  }
}
