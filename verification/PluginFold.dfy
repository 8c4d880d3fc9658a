/** The two-level fold of docker/install-dynamic-plugins.py: plugin entries of the included files
    (level 0) and of the main file (level 1) are gathered in one dictionary, keyed by package
    without version. */
module PluginFold {
  import opened Wrappers
  import opened Sequences
  import opened PackageKeys

  /** A value in a plugin entry; only texts and levels are looked at here. */
  datatype Field = Text(text: string) | Level(level: nat) | Other(repr: string)

  type Fields = map<string, Field>

  const PACKAGE := "package"
  const VERSION := "version"
  const LEVEL := "last_modified_level"

  /** A Python dictionary: `order` lists its keys in the order they came in. */
  datatype Table = Table(order: seq<string>, plugins: map<string, Fields>)

  const EMPTY_TABLE := Table([], map[])

  datatype MergeError = BadPackage | BadFormat | Duplicate | NothingToInherit

  /** None for a missing package or one that is not a string. */
  function Package(e: Fields): Option<string> {
    if PACKAGE in e && e[PACKAGE].Text? then Some(e[PACKAGE].text) else None
  }

  function IdOf(parse: Parser, e: Fields): Option<PackageId> {
    match Package(e)
    case Some(p) => parse(p)
    case None => None
  }

  function KeyOf(parse: Parser, e: Fields): Option<string> {
    match IdOf(parse, e)
    case Some(id) => Some(id.key)
    case None => None
  }

  /** The tag or digest of an OCI package; None for the other kinds. */
  function VersionOf(parse: Parser, e: Fields): Option<string> {
    match IdOf(parse, e)
    case Some(id) => id.version
    case None => None
  }

  predicate InheritsVersion(parse: Parser, e: Fields) {
    VersionOf(parse, e).Some? && IdOf(parse, e).value.inherits
  }

  /** The entry that is stored under a new key. */
  function Added(parse: Parser, e: Fields, level: nat): Fields {
    var leveled := e[LEVEL := Level(level)];
    match VersionOf(parse, e)
    case Some(version) => leveled[VERSION := Text(version)]
    case None => leveled
  }

  /** The stored entry after the fields of `e` were written over it.  Package and version of an
      OCI entry are written together, and only when `e` names a version. */
  function Overridden(parse: Parser, prior: Fields, e: Fields, level: nat): Fields {
    var leveled := prior[LEVEL := Level(level)];
    match VersionOf(parse, e)
    case None => leveled + e
    case Some(version) =>
      (if InheritsVersion(parse, e) then leveled
       else leveled[PACKAGE := e[PACKAGE]][VERSION := Text(version)])
      + (e - {PACKAGE, VERSION})
  }

  /** Field by field, the later entry wins, except that an inheriting entry leaves package and
      version alone. */
  lemma MainOverInclude(parse: Parser, prior: Fields, e: Fields, level: nat, f: string)
    requires LEVEL !in e
    ensures var r := Overridden(parse, prior, e, level);
            && r[LEVEL] == Level(level)
            && (f !in {LEVEL, PACKAGE, VERSION} ==>
                  (f in r <==> f in prior || f in e) && (f in r ==> r[f] == if f in e then e[f] else prior[f]))
            && (InheritsVersion(parse, e) ==>
                  && (PACKAGE in r <==> PACKAGE in prior) && (PACKAGE in prior ==> r[PACKAGE] == prior[PACKAGE])
                  && (VERSION in r <==> VERSION in prior) && (VERSION in prior ==> r[VERSION] == prior[VERSION]))
            && (!InheritsVersion(parse, e) && Package(e).Some? ==> Package(r) == Package(e))
            && (!InheritsVersion(parse, e) && VersionOf(parse, e).Some? ==>
                  VERSION in r && r[VERSION] == Text(VersionOf(parse, e).value))
    ensures var a := Added(parse, e, level);
            && a[LEVEL] == Level(level)
            && (f !in {LEVEL, VERSION} || (f == VERSION && VersionOf(parse, e).None?) ==>
                  (f in a <==> f in e) && (f in e ==> a[f] == e[f]))
            && (VersionOf(parse, e).Some? ==> a[VERSION] == Text(VersionOf(parse, e).value))
  {
  }

  /** mergePlugin */
  function MergePlugin(parse: Parser, t: Table, e: Fields, level: nat): Result<Table, MergeError> {
    if Package(e).None? then Err(BadPackage) else
    match KeyOf(parse, e)
    case None => Err(BadFormat)
    case Some(k) =>
      if k !in t.plugins then
        if InheritsVersion(parse, e) then Err(NothingToInherit)
        else Ok(Table(t.order + [k], t.plugins[k := Added(parse, e, level)]))
      else if LEVEL in t.plugins[k] && t.plugins[k][LEVEL] == Level(level) then Err(Duplicate)
      else Ok(t.(plugins := t.plugins[k := Overridden(parse, t.plugins[k], e, level)]))
  }

  function FoldLevel(parse: Parser, t: Table, entries: seq<Fields>, level: nat): Result<Table, MergeError> {
    if entries == [] then Ok(t) else
    match FoldLevel(parse, t, entries[..|entries| - 1], level)
    case Err(error) => Err(error)
    case Ok(t') => MergePlugin(parse, t', entries[|entries| - 1], level)
  }

  /** All included entries, then the entries of the main file. */
  function FoldFiles(parse: Parser, includes: seq<Fields>, mains: seq<Fields>): Result<Table, MergeError> {
    match FoldLevel(parse, EMPTY_TABLE, includes, 0)
    case Err(error) => Err(error)
    case Ok(t) => FoldLevel(parse, t, mains, 1)
  }

  // ----- What is stored re-parses to its key

  ghost predicate StoredUnder(parse: Parser, k: string, e: Fields) {
    && KeyOf(parse, e) == Some(k)
    && (VersionOf(parse, e).Some? ==>
          && !InheritsVersion(parse, e)
          && VERSION in e && e[VERSION] == Text(VersionOf(parse, e).value))
  }

  /** Every stored entry's package re-parses to the key it is stored under, and the recorded
      version of an OCI entry is the tag or digest inside its package, never `{{inherit}}`. */
  ghost predicate Consistent(parse: Parser, t: Table) {
    && (forall k :: k in t.plugins ==> StoredUnder(parse, k, t.plugins[k]))
    && (forall k :: k in t.order <==> k in t.plugins)
    && (forall i, j :: 0 <= i < j < |t.order| ==> t.order[i] != t.order[j])
  }

  lemma MergeKeepsConsistent(parse: Parser, t: Table, e: Fields, level: nat)
    requires KeysTellKinds(parse) && Consistent(parse, t) && MergePlugin(parse, t, e, level).Ok?
    ensures Consistent(parse, MergePlugin(parse, t, e, level).value)
  {
    var k := KeyOf(parse, e).value;
    var t' := MergePlugin(parse, t, e, level).value;
    if k in t.plugins {
      assert PACKAGE in t.plugins[k] && PACKAGE in e;
      assert StoredUnder(parse, k, t'.plugins[k]);
    } else {
      assert Package(t'.plugins[k]) == Package(e);
      assert StoredUnder(parse, k, t'.plugins[k]);
    }
    forall k' | k' in t'.plugins
      ensures StoredUnder(parse, k', t'.plugins[k'])
    {
    }
  }

  lemma {:induction false} FoldLevelConsistent(parse: Parser, t: Table, entries: seq<Fields>, level: nat)
    requires KeysTellKinds(parse) && Consistent(parse, t) && FoldLevel(parse, t, entries, level).Ok?
    ensures Consistent(parse, FoldLevel(parse, t, entries, level).value)
  {
    if entries != [] {
      FoldLevelConsistent(parse, t, entries[..|entries| - 1], level);
      var last := |entries| - 1;
      MergeKeepsConsistent(parse, FoldLevel(parse, t, entries[..last], level).value, entries[last], level);
    }
  }

  /** After any successful fold the table is consistent; in particular an OCI plugin always has
      a version, so the installer's check for a missing tag or digest never fires. */
  lemma FoldConsistent(includes: seq<Fields>, mains: seq<Fields>)
    requires FoldFiles(Identify, includes, mains).Ok?
    ensures Consistent(Identify, FoldFiles(Identify, includes, mains).value)
    ensures var plugins := FoldFiles(Identify, includes, mains).value.plugins;
            forall k :: k in plugins ==>
              && Package(plugins[k]).Some?
              && (IsOci(Package(plugins[k]).value) ==>
                    VERSION in plugins[k] && plugins[k][VERSION] != Text("{{inherit}}"))
  {
    hide Identify, FoldLevel, Consistent, KeysTellKinds;
    IdentifyTellsKinds();
    FoldLevelConsistent(Identify, EMPTY_TABLE, includes, 0) by { NothingStored(); }
    FoldLevelConsistent(Identify, FoldLevel(Identify, EMPTY_TABLE, includes, 0).value, mains, 1);
    StoredVersions(FoldFiles(Identify, includes, mains).value);
  }

  lemma NothingStored()
    ensures Consistent(Identify, EMPTY_TABLE)
  {
  }

  lemma StoredVersions(t: Table)
    requires Consistent(Identify, t)
    ensures forall k :: k in t.plugins ==>
              && Package(t.plugins[k]).Some?
              && (IsOci(Package(t.plugins[k]).value) ==>
                    VERSION in t.plugins[k] && t.plugins[k][VERSION] != Text("{{inherit}}"))
  {
    hide ParseOci, NpmKey;
    forall k | k in t.plugins
      ensures Package(t.plugins[k]).Some?
      ensures IsOci(Package(t.plugins[k]).value) ==>
                VERSION in t.plugins[k] && t.plugins[k][VERSION] != Text("{{inherit}}")
    {
      assert StoredUnder(Identify, k, t.plugins[k]);
      var p := Package(t.plugins[k]).value;
      if IsOci(p) && ParseOci(p).Some? {
        InheritText(ParseOci(p).value);
      }
    }
  }

  /** Two plugins of one table have different packages. */
  lemma PackagesDiffer(parse: Parser, t: Table, j: string, k: string)
    requires Consistent(parse, t) && j in t.plugins && k in t.plugins && j != k
    ensures Package(t.plugins[j]) != Package(t.plugins[k])
  {
    assert StoredUnder(parse, j, t.plugins[j]) && StoredUnder(parse, k, t.plugins[k]);
  }

  // ----- The simple specification

  /** The first of the entries with the given key. */
  function Lookup(parse: Parser, entries: seq<Fields>, k: string): Option<Fields> {
    if entries == [] then None
    else if Lookup(parse, entries[..|entries| - 1], k).Some? then Lookup(parse, entries[..|entries| - 1], k)
    else if KeyOf(parse, entries[|entries| - 1]) == Some(k) then Some(entries[|entries| - 1])
    else None
  }

  lemma {:induction false} LookupIs(parse: Parser, entries: seq<Fields>, k: string)
    ensures Lookup(parse, entries, k).Some? ==>
              && Lookup(parse, entries, k).value in entries
              && KeyOf(parse, Lookup(parse, entries, k).value) == Some(k)
    ensures Lookup(parse, entries, k).None? ==> forall i :: 0 <= i < |entries| ==> KeyOf(parse, entries[i]) != Some(k)
  {
    hide KeyOf;
    if entries != [] {
      LookupIs(parse, entries[..|entries| - 1], k);
    }
  }

  ghost predicate Parseable(parse: Parser, entries: seq<Fields>) {
    forall i :: 0 <= i < |entries| ==> KeyOf(parse, entries[i]).Some?
  }

  ghost predicate DistinctKeys(parse: Parser, entries: seq<Fields>) {
    forall i, j :: 0 <= i < j < |entries| ==> KeyOf(parse, entries[i]) != KeyOf(parse, entries[j])
  }

  /** Entries do not carry the installer's own bookkeeping field. */
  ghost predicate Plain(entries: seq<Fields>) {
    forall i :: 0 <= i < |entries| ==> LEVEL !in entries[i]
  }

  ghost predicate NoInclusionInherits(parse: Parser, includes: seq<Fields>) {
    forall i :: 0 <= i < |includes| ==> !InheritsVersion(parse, includes[i])
  }

  ghost predicate InheritedFromIncludes(parse: Parser, includes: seq<Fields>, mains: seq<Fields>) {
    forall i :: 0 <= i < |mains| && InheritsVersion(parse, mains[i]) ==>
      exists j :: 0 <= j < |includes| && KeyOf(parse, includes[j]) == KeyOf(parse, mains[i])
  }

  ghost predicate Acceptable(parse: Parser, includes: seq<Fields>, mains: seq<Fields>) {
    && Parseable(parse, includes) && DistinctKeys(parse, includes) && NoInclusionInherits(parse, includes)
    && Parseable(parse, mains) && DistinctKeys(parse, mains) && InheritedFromIncludes(parse, includes, mains)
  }

  /** What the table holds for a key: main over include. */
  function Expected(parse: Parser, included: Option<Fields>, main: Option<Fields>): Option<Fields> {
    match (included, main)
    case (None, None) => None
    case (Some(i), None) => Some(Added(parse, i, 0))
    case (None, Some(m)) => Some(Added(parse, m, 1))
    case (Some(i), Some(m)) => Some(Overridden(parse, Added(parse, i, 0), m, 1))
  }

  function Get(t: Table, k: string): Option<Fields> {
    if k in t.plugins then Some(t.plugins[k]) else None
  }

  ghost predicate Holds(parse: Parser, t: Table, includes: seq<Fields>, mains: seq<Fields>) {
    forall k :: Get(t, k) == Expected(parse, Lookup(parse, includes, k), Lookup(parse, mains, k))
  }

  lemma KeyNeedsPackage(parse: Parser, e: Fields)
    ensures KeyOf(parse, e).Some? ==> Package(e).Some?
  {
  }

  lemma {:induction false} FoldIncludes(parse: Parser, includes: seq<Fields>)
    requires Plain(includes)
    ensures FoldLevel(parse, EMPTY_TABLE, includes, 0).Ok? <==>
              Parseable(parse, includes) && DistinctKeys(parse, includes) && NoInclusionInherits(parse, includes)
    ensures FoldLevel(parse, EMPTY_TABLE, includes, 0).Ok? ==>
              Holds(parse, FoldLevel(parse, EMPTY_TABLE, includes, 0).value, includes, [])
  {
    hide KeyOf, VersionOf, Package;
    if includes != [] {
      var last := |includes| - 1;
      var before, e := includes[..last], includes[last];
      KeyNeedsPackage(parse, e);
      FoldIncludes(parse, before);
      assert includes == before + [e];
      if FoldLevel(parse, EMPTY_TABLE, before, 0).Ok? && KeyOf(parse, e).Some? {
        var t := FoldLevel(parse, EMPTY_TABLE, before, 0).value;
        var k := KeyOf(parse, e).value;
        LookupIs(parse, before, k);
        assert Get(t, k) == Expected(parse, Lookup(parse, before, k), Lookup(parse, [], k));
        if Lookup(parse, before, k).Some? {
          assert t.plugins[k][LEVEL] == Level(0);
          assert exists i :: 0 <= i < last && includes[i] == Lookup(parse, before, k).value;
        }
      }
    }
  }

  lemma {:induction false} FoldMains(parse: Parser, t: Table, includes: seq<Fields>, mains: seq<Fields>)
    requires Plain(includes) && Plain(mains) && Holds(parse, t, includes, [])
    ensures FoldLevel(parse, t, mains, 1).Ok? <==>
              Parseable(parse, mains) && DistinctKeys(parse, mains) && InheritedFromIncludes(parse, includes, mains)
    ensures FoldLevel(parse, t, mains, 1).Ok? ==> Holds(parse, FoldLevel(parse, t, mains, 1).value, includes, mains)
  {
    hide KeyOf, Package, MergePlugin, Lookup, Expected, InheritsVersion;
    if mains != [] {
      var last := |mains| - 1;
      var before, e := mains[..last], mains[last];
      FoldMains(parse, t, includes, before);
      assert mains == before + [e];
      if FoldLevel(parse, t, before, 1).Ok? {
        MainStep(parse, FoldLevel(parse, t, before, 1).value, includes, before, e);
      }
    }
  }

  /** The main file's next entry. */
  lemma MainStep(parse: Parser, t: Table, includes: seq<Fields>, before: seq<Fields>, e: Fields)
    requires Plain(includes) && Plain(before) && LEVEL !in e
    requires Holds(parse, t, includes, before)
    ensures MergePlugin(parse, t, e, 1).Ok? <==>
              && KeyOf(parse, e).Some?
              && (forall i :: 0 <= i < |before| ==> KeyOf(parse, before[i]) != KeyOf(parse, e))
              && (InheritsVersion(parse, e) ==>
                    exists j :: 0 <= j < |includes| && KeyOf(parse, includes[j]) == KeyOf(parse, e))
    ensures MergePlugin(parse, t, e, 1).Ok? ==> Holds(parse, MergePlugin(parse, t, e, 1).value, includes, before + [e])
  {
    hide KeyOf, InheritsVersion, Package, Added, Overridden;
    KeyNeedsPackage(parse, e);
    if KeyOf(parse, e).Some? {
      var k := KeyOf(parse, e).value;
      LookupIs(parse, before, k);
      LookupIs(parse, includes, k);
      assert Get(t, k) == Expected(parse, Lookup(parse, includes, k), Lookup(parse, before, k));
      if k in t.plugins {
        StoredLevel(parse, t, includes, before, k);
      }
      if Lookup(parse, before, k).Some? {
        assert exists i :: 0 <= i < |before| && before[i] == Lookup(parse, before, k).value;
      } else if Lookup(parse, includes, k).Some? {
        assert exists j :: 0 <= j < |includes| && includes[j] == Lookup(parse, includes, k).value;
      }
      assert (before + [e])[..|before|] == before;
    }
  }

  lemma StoredLevel(parse: Parser, t: Table, includes: seq<Fields>, before: seq<Fields>, k: string)
    requires Plain(includes) && Plain(before) && Holds(parse, t, includes, before) && k in t.plugins
    ensures LEVEL in t.plugins[k] && t.plugins[k][LEVEL] == Level(if Lookup(parse, before, k).Some? then 1 else 0)
  {
    hide KeyOf, VersionOf;
    LookupIs(parse, before, k);
    assert Get(t, k) == Expected(parse, Lookup(parse, includes, k), Lookup(parse, before, k));
  }

  /** The fold succeeds exactly when all packages parse, keys are distinct among the includes
      and in the main list, no included entry inherits its version, and each main entry that
      does has an included entry with its key.  The table then holds main over include. */
  lemma FoldExactly(parse: Parser, includes: seq<Fields>, mains: seq<Fields>)
    requires Plain(includes) && Plain(mains)
    ensures FoldFiles(parse, includes, mains).Ok? <==> Acceptable(parse, includes, mains)
    ensures FoldFiles(parse, includes, mains).Ok? ==>
              Holds(parse, FoldFiles(parse, includes, mains).value, includes, mains)
  {
    FoldIncludes(parse, includes);
    if FoldLevel(parse, EMPTY_TABLE, includes, 0).Ok? {
      FoldMains(parse, FoldLevel(parse, EMPTY_TABLE, includes, 0).value, includes, mains);
    }
  }

  // ----- Order within a level

  lemma DistinctKeysReordered(parse: Parser, entries: seq<Fields>, entries': seq<Fields>)
    requires multiset(entries) == multiset(entries') && DistinctKeys(parse, entries)
    ensures DistinctKeys(parse, entries')
  {
    hide KeyOf;
    SameMembers(entries, entries');
    forall i, j | 0 <= i < j < |entries'|
      ensures KeyOf(parse, entries'[i]) != KeyOf(parse, entries'[j])
    {
      var x, y := entries'[i], entries'[j];
      if x == y {
        CountTwo(entries', i, j);
        var i', j' := TwoPlaces(entries, x);
      } else {
        assert x in entries && y in entries;
        var i' :| 0 <= i' < |entries| && entries[i'] == x;
        var j' :| 0 <= j' < |entries| && entries[j'] == y;
        assert i' < j' || j' < i';
      }
    }
  }

  lemma LookupReordered(parse: Parser, entries: seq<Fields>, entries': seq<Fields>, k: string)
    requires multiset(entries) == multiset(entries') && DistinctKeys(parse, entries)
    ensures Lookup(parse, entries, k) == Lookup(parse, entries', k)
  {
    hide KeyOf;
    SameMembers(entries, entries');
    LookupIs(parse, entries, k);
    LookupIs(parse, entries', k);
    if Lookup(parse, entries, k).Some? {
      assert Lookup(parse, entries, k).value in entries';
    }
    if Lookup(parse, entries', k).Some? {
      assert Lookup(parse, entries', k).value in entries;
    }
  }

  lemma AcceptableReordered(parse: Parser, includes: seq<Fields>, mains: seq<Fields>,
                            includes': seq<Fields>, mains': seq<Fields>)
    requires multiset(includes) == multiset(includes') && multiset(mains) == multiset(mains')
    requires Acceptable(parse, includes, mains)
    ensures Acceptable(parse, includes', mains')
  {
    hide KeyOf, InheritsVersion;
    SameMembers(includes, includes');
    SameMembers(mains, mains');
    DistinctKeysReordered(parse, includes, includes');
    DistinctKeysReordered(parse, mains, mains');
    forall i | 0 <= i < |includes'|
      ensures KeyOf(parse, includes'[i]).Some? && !InheritsVersion(parse, includes'[i])
    {
      assert includes'[i] in includes;
    }
    forall i | 0 <= i < |mains'|
      ensures KeyOf(parse, mains'[i]).Some?
      ensures InheritsVersion(parse, mains'[i]) ==>
                exists j :: 0 <= j < |includes'| && KeyOf(parse, includes'[j]) == KeyOf(parse, mains'[i])
    {
      assert mains'[i] in mains;
      var i' :| 0 <= i' < |mains| && mains[i'] == mains'[i];
      if InheritsVersion(parse, mains[i']) {
        var j :| 0 <= j < |includes| && KeyOf(parse, includes[j]) == KeyOf(parse, mains[i']);
        assert includes[j] in includes';
      }
    }
  }

  /** Reordering the entries of a level changes neither whether the fold succeeds nor what the
      table holds. */
  lemma OrderWithinLevels(parse: Parser, includes: seq<Fields>, mains: seq<Fields>,
                          includes': seq<Fields>, mains': seq<Fields>)
    requires Plain(includes) && Plain(mains)
    requires multiset(includes) == multiset(includes') && multiset(mains) == multiset(mains')
    ensures FoldFiles(parse, includes, mains).Ok? <==> FoldFiles(parse, includes', mains').Ok?
    ensures FoldFiles(parse, includes, mains).Ok? ==>
              FoldFiles(parse, includes, mains).value.plugins == FoldFiles(parse, includes', mains').value.plugins
  {
    hide KeyOf, VersionOf, InheritsVersion;
    PlainReordered(includes, includes');
    PlainReordered(mains, mains');
    FoldExactly(parse, includes, mains);
    FoldExactly(parse, includes', mains');
    if Acceptable(parse, includes, mains) {
      AcceptableReordered(parse, includes, mains, includes', mains');
      var t, t' := FoldFiles(parse, includes, mains).value, FoldFiles(parse, includes', mains').value;
      forall k
        ensures Get(t, k) == Get(t', k)
      {
        LookupReordered(parse, includes, includes', k);
        LookupReordered(parse, mains, mains', k);
      }
      SameTable(t, t');
    } else if Acceptable(parse, includes', mains') {
      AcceptableReordered(parse, includes', mains', includes, mains);
    }
  }

  lemma PlainReordered(entries: seq<Fields>, entries': seq<Fields>)
    requires Plain(entries) && multiset(entries) == multiset(entries')
    ensures Plain(entries')
  {
    SameMembers(entries, entries');
    forall i | 0 <= i < |entries'|
      ensures LEVEL !in entries'[i]
    {
      assert entries'[i] in entries;
    }
  }

  lemma SameTable(t: Table, t': Table)
    requires forall k :: Get(t, k) == Get(t', k)
    ensures t.plugins == t'.plugins
  {
    forall k
      ensures k in t.plugins <==> k in t'.plugins
      ensures k in t.plugins ==> t.plugins[k] == t'.plugins[k]
    {
      assert Get(t, k) == Get(t', k);
    }
  }

  // ----- The mergers, updating the dictionary in place

  class AllPlugins {
    var order: seq<string>
    var plugins: map<string, Fields>

    function Value(): Table
      reads this
    {
      Table(order, plugins)
    }

    constructor ()
      ensures Value() == EMPTY_TABLE
    {
      order, plugins := [], map[];
    }

    /** `self.allPlugins[pluginKey][field] = value` */
    method SetField(key: string, field: string, value: Field)
      requires key in plugins
      modifies this`plugins
      ensures plugins == old(plugins)[key := old(plugins)[key][field := value]]
    {
      plugins := plugins[key := plugins[key][field := value]];
    }

    /** The loop of both override_plugin methods; `skipped` is what it passes over. */
    method CopyFields(key: string, e: Fields, skipped: set<string>)
      requires key in plugins
      modifies this`plugins
      ensures plugins == old(plugins)[key := old(plugins)[key] + (e - skipped)]
    {
      ghost var prior := plugins[key];
      var todo := e.Keys;
      assert prior + (e - todo - skipped) == prior;
      assert plugins == old(plugins)[key := prior];
      while todo != {}
        invariant todo <= e.Keys
        invariant plugins == old(plugins)[key := prior + (e - todo - skipped)]
      {
        var field :| field in todo;
        ghost var before := prior + (e - todo - skipped);
        if field !in skipped {
          SetField(key, field, e[field]);
          assert prior + (e - (todo - {field}) - skipped) == before[field := e[field]];
        } else {
          assert prior + (e - (todo - {field}) - skipped) == before;
        }
        todo := todo - {field};
      }
      assert e - {} - skipped == e - skipped;
    }

    /** OciPackageMerger.merge_plugin */
    method MergeOci(e: Fields, level: nat) returns (raised: Option<MergeError>)
      requires Package(e).Some? && IsOci(Package(e).value)
      modifies this
      ensures MergePlugin(Identify, old(Value()), e, level) == if raised.Some? then Err(raised.value) else Ok(Value())
      ensures raised.Some? ==> Value() == old(Value())
    {
      hide ParseOci, NpmKey;
      var parsed := ParseOci(Package(e).value);
      if parsed == None {
        return Some(BadFormat);
      }
      var r := parsed.value;
      var key := OciKey(r);
      if key !in plugins {
        if Inherits(r) {
          return Some(NothingToInherit);
        }
        order := order + [key];
        plugins := plugins[key := e[LEVEL := Level(level)][VERSION := Text(r.version.Text())]];
      } else {
        if LEVEL in plugins[key] && plugins[key][LEVEL] == Level(level) {
          return Some(Duplicate);
        }
        SetField(key, LEVEL, Level(level));
        if !Inherits(r) {
          SetField(key, PACKAGE, e[PACKAGE]);
          SetField(key, VERSION, Text(r.version.Text()));
        }
        CopyFields(key, e, {PACKAGE, VERSION});
        assert plugins == old(plugins)[key := Overridden(Identify, old(plugins)[key], e, level)];
      }
      raised := None;
    }

    /** PackageMerger.merge_plugin with NPMPackageMerger's key */
    method MergeNpm(e: Fields, level: nat) returns (raised: Option<MergeError>)
      requires Package(e).Some? && !IsOci(Package(e).value)
      modifies this
      ensures MergePlugin(Identify, old(Value()), e, level) == if raised.Some? then Err(raised.value) else Ok(Value())
      ensures raised.Some? ==> Value() == old(Value())
    {
      hide ParseOci, NpmKey;
      var key := NpmKey(Package(e).value);
      if key !in plugins {
        order := order + [key];
        plugins := plugins[key := e[LEVEL := Level(level)]];
      } else {
        if LEVEL in plugins[key] && plugins[key][LEVEL] == Level(level) {
          return Some(Duplicate);
        }
        SetField(key, LEVEL, Level(level));
        CopyFields(key, e, {});
        assert e - {} == e;
        assert plugins == old(plugins)[key := Overridden(Identify, old(plugins)[key], e, level)];
      }
      raised := None;
    }

    /** mergePlugin over a list; stops at the first exception. */
    method MergeList(entries: seq<Fields>, level: nat) returns (raised: Option<MergeError>)
      modifies this
      ensures FoldLevel(Identify, old(Value()), entries, level) ==
              if raised.Some? then Err(raised.value) else Ok(Value())
    {
      hide KeyOf, VersionOf;
      raised := None;
      for i := 0 to |entries|
        invariant raised.None? && FoldLevel(Identify, old(Value()), entries[..i], level) == Ok(Value())
      {
        assert entries[..i + 1][..i] == entries[..i];
        if Package(entries[i]).None? {
          raised := Some(BadPackage);
        } else if IsOci(Package(entries[i]).value) {
          raised := MergeOci(entries[i], level);
        } else {
          raised := MergeNpm(entries[i], level);
        }
        if raised.Some? {
          FoldLevelStops(Identify, old(Value()), entries, level, i + 1);
          return;
        }
      }
      assert entries[..|entries|] == entries;
    }

    /** The loops of main over the included files, one list of entries a file, and over the main
        list. */
    method MergeFiles(includes: seq<seq<Fields>>, mains: seq<Fields>) returns (raised: Option<MergeError>)
      requires Value() == EMPTY_TABLE
      modifies this
      ensures FoldFiles(Identify, Flatten(includes), mains) == if raised.Some? then Err(raised.value) else Ok(Value())
    {
      raised := None;
      for i := 0 to |includes|
        invariant FoldLevel(Identify, EMPTY_TABLE, Flatten(includes[..i]), 0) == Ok(Value())
      {
        assert includes[..i + 1][..i] == includes[..i];
        FoldLevelConcat(Identify, EMPTY_TABLE, Flatten(includes[..i]), includes[i], 0);
        raised := MergeList(includes[i], 0);
        if raised.Some? {
          FlattenPrefix(includes, i + 1);
          FoldLevelStops(Identify, EMPTY_TABLE, Flatten(includes), 0, |Flatten(includes[..i + 1])|);
          return;
        }
      }
      assert includes[..|includes|] == includes;
      raised := MergeList(mains, 1);
    }
  }

  function Flatten(lists: seq<seq<Fields>>): seq<Fields> {
    if lists == [] then [] else Flatten(lists[..|lists| - 1]) + lists[|lists| - 1]
  }

  lemma {:induction false} FlattenPrefix(lists: seq<seq<Fields>>, n: nat)
    requires n <= |lists|
    ensures |Flatten(lists[..n])| <= |Flatten(lists)|
    ensures Flatten(lists)[..|Flatten(lists[..n])|] == Flatten(lists[..n])
  {
    if n == |lists| {
      assert lists[..n] == lists;
    } else {
      var front := lists[..|lists| - 1];
      assert front[..n] == lists[..n];
      FlattenPrefix(front, n);
    }
  }

  lemma {:induction false} FoldLevelConcat(parse: Parser, t: Table, a: seq<Fields>, b: seq<Fields>, level: nat)
    requires FoldLevel(parse, t, a, level).Ok?
    ensures FoldLevel(parse, t, a + b, level) == FoldLevel(parse, FoldLevel(parse, t, a, level).value, b, level)
  {
    if b == [] {
      assert a + b == a;
    } else {
      assert (a + b)[..|a + b| - 1] == a + b[..|b| - 1];
      FoldLevelConcat(parse, t, a, b[..|b| - 1], level);
    }
  }

  /** An exception within a prefix of the list ends the fold. */
  lemma {:induction false} FoldLevelStops(parse: Parser, t: Table, entries: seq<Fields>, level: nat, n: nat)
    requires n <= |entries| && FoldLevel(parse, t, entries[..n], level).Err?
    ensures FoldLevel(parse, t, entries, level) == FoldLevel(parse, t, entries[..n], level)
  {
    if n == |entries| {
      assert entries[..n] == entries;
    } else {
      var front := entries[..|entries| - 1];
      assert front[..n] == entries[..n];
      FoldLevelStops(parse, t, front, level, n);
    }
  }
}
