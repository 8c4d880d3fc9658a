/** Configuration trees and the conflict-detecting merge of docker/install-dynamic-plugins.py,
    described on values.  ConfigHeap proves the in-place loop against these functions. */
module ConfigTree {
  import opened Wrappers

  /** A YAML value that is not a dictionary (scalar or list), compared as a whole. */
  datatype Atom = Atom(text: string)

  datatype Config = Leaf(value: Atom) | Dict(entries: map<string, Config>)

  type Path = seq<string>

  const EMPTY_DICT := Dict(map[])

  /** Merging `s` into the place that holds `d` raises nothing.  An empty dictionary can be
      merged onto anything; a leaf can be merged onto an equal leaf only. */
  predicate Mergeable(s: Config, d: Config) {
    match (s, d)
    case (Leaf(a), Leaf(b)) => a == b
    case (Leaf(_), Dict(_)) => false
    case (Dict(m), Leaf(_)) => m == map[]
    case (Dict(m), Dict(n)) => forall k :: k in m && k in n ==> Mergeable(m[k], n[k])
  }

  /** What stands at the destination after a merge that raised nothing. */
  function Merged(s: Config, d: Config): Config
    requires Mergeable(s, d)
  {
    match (s, d)
    case (_, Leaf(_)) => d
    case (Dict(m), Dict(n)) =>
      Dict(map k | k in m.Keys + n.Keys ::
             if k !in m then n[k] else if k !in n then m[k] else Merged(m[k], n[k]))
  }

  /** Merging a list of configurations, first to last; None when one of the merges raises. */
  function Fold(base: Config, configs: seq<Config>): Option<Config>
    decreases |configs|
  {
    if configs == [] then Some(base)
    else if Mergeable(configs[0], base) then Fold(Merged(configs[0], base), configs[1..])
    else None
  }

  // ----- Paths

  function At(c: Config, p: Path): Option<Config> {
    if p == [] then Some(c)
    else if c.Dict? && p[0] in c.entries then At(c.entries[p[0]], p[1..])
    else None
  }

  ghost predicate LeafAt(c: Config, p: Path, a: Atom) {
    At(c, p) == Some(Leaf(a))
  }

  lemma {:induction false} AtConcat(c: Config, p: Path, q: Path)
    ensures At(c, p + q) == if At(c, p).Some? then At(At(c, p).value, q) else None
  {
    if p == [] {
      assert p + q == q;
    } else {
      assert (p + q)[0] == p[0] && (p + q)[1..] == p[1..] + q;
      if c.Dict? && p[0] in c.entries {
        AtConcat(c.entries[p[0]], p[1..], q);
      }
    }
  }

  /** No dictionary below the root is empty. */
  ghost predicate Solid(c: Config) {
    forall p: Path :: p != [] ==> At(c, p) != Some(EMPTY_DICT)
  }

  lemma SolidBelow(c: Config, p: Path)
    requires Solid(c) && At(c, p).Some?
    ensures Solid(At(c, p).value)
    ensures p != [] ==> At(c, p).value != EMPTY_DICT
  {
    forall q: Path | q != []
      ensures At(At(c, p).value, q) != Some(EMPTY_DICT)
    {
      AtConcat(c, p, q);
    }
  }

  lemma SolidChild(c: Config, k: string)
    requires Solid(c) && c.Dict? && k in c.entries
    ensures Solid(c.entries[k]) && c.entries[k] != EMPTY_DICT
  {
    assert [k][1..] == [] && At(c, [k]) == Some(c.entries[k]);
    SolidBelow(c, [k]);
  }

  lemma {:induction false} SomeLeaf(c: Config) returns (p: Path, a: Atom)
    requires Solid(c) && c != EMPTY_DICT
    ensures LeafAt(c, p, a)
  {
    if c.Leaf? {
      p, a := [], c.value;
    } else {
      assert c.entries != map[];
      var k :| k in c.entries;
      SolidChild(c, k);
      var q, b := SomeLeaf(c.entries[k]);
      p, a := [k] + q, b;
      assert p[1..] == q;
    }
  }

  // ----- Mergeability, path by path

  /** The check that the loop makes where both trees have something. */
  predicate LocallyMergeable(s: Option<Config>, d: Option<Config>) {
    s.Some? && d.Some? ==>
      match (s.value, d.value)
      case (Leaf(a), Leaf(b)) => a == b
      case (Leaf(_), Dict(_)) => false
      case (Dict(m), Leaf(_)) => m == map[]
      case (Dict(_), Dict(_)) => true
  }

  lemma {:induction false} MergeableAt(s: Config, d: Config, p: Path)
    requires Mergeable(s, d)
    ensures LocallyMergeable(At(s, p), At(d, p))
  {
    if p != [] && At(s, p).Some? && At(d, p).Some? {
      MergeableAt(s.entries[p[0]], d.entries[p[0]], p[1..]);
    }
  }

  lemma {:induction false} MergeableFromPaths(s: Config, d: Config)
    requires forall p: Path :: LocallyMergeable(At(s, p), At(d, p))
    ensures Mergeable(s, d)
  {
    assert LocallyMergeable(At(s, []), At(d, []));
    if s.Dict? && d.Dict? {
      forall k | k in s.entries && k in d.entries
        ensures Mergeable(s.entries[k], d.entries[k])
      {
        forall p: Path
          ensures LocallyMergeable(At(s.entries[k], p), At(d.entries[k], p))
        {
          assert ([k] + p)[1..] == p;
          assert LocallyMergeable(At(s, [k] + p), At(d, [k] + p));
        }
        MergeableFromPaths(s.entries[k], d.entries[k]);
      }
    }
  }

  /** Where a merged tree gets each of its nodes from. */
  lemma {:induction false} MergedAt(s: Config, d: Config, p: Path)
    requires Mergeable(s, d)
    ensures At(s, p).Some? && At(d, p).Some? ==> Mergeable(At(s, p).value, At(d, p).value)
    ensures At(Merged(s, d), p) ==
            if At(s, p).None? then At(d, p)
            else if At(d, p).None? then At(s, p)
            else Some(Merged(At(s, p).value, At(d, p).value))
  {
    if p != [] && s.Dict? && d.Dict? {
      var k := p[0];
      if k in s.entries && k in d.entries {
        MergedAt(s.entries[k], d.entries[k], p[1..]);
      }
    }
  }

  /** The leaves of a merged tree are exactly the leaves of the two trees. */
  lemma MergedLeaves(s: Config, d: Config, p: Path, a: Atom)
    requires Mergeable(s, d)
    ensures LeafAt(Merged(s, d), p, a) <==> LeafAt(s, p, a) || LeafAt(d, p, a)
  {
    MergedAt(s, d, p);
    MergeableAt(s, d, p);
  }

  /** An equal tree adds nothing: merging a configuration a second time changes nothing. */
  lemma {:induction false} MergeTwice(s: Config, d: Config)
    requires Mergeable(s, d)
    ensures Mergeable(s, Merged(s, d)) && Merged(s, Merged(s, d)) == Merged(s, d)
  {
    if s.Dict? && d.Dict? {
      forall k | k in s.entries
        ensures Mergeable(s.entries[k], Merged(s, d).entries[k])
        ensures Merged(s.entries[k], Merged(s, d).entries[k]) == Merged(s, d).entries[k]
      {
        if k in d.entries {
          MergeTwice(s.entries[k], d.entries[k]);
        } else {
          MergeSelf(s.entries[k]);
        }
      }
    }
  }

  lemma {:induction false} MergeSelf(c: Config)
    ensures Mergeable(c, c) && Merged(c, c) == c
  {
    if c.Dict? {
      forall k | k in c.entries
        ensures Mergeable(c.entries[k], c.entries[k])
        ensures Merged(c.entries[k], c.entries[k]) == c.entries[k]
      {
        MergeSelf(c.entries[k]);
      }
    }
  }

  // ----- Conflicts between leaves

  predicate Clash(p: Path, a: Atom, q: Path, b: Atom) {
    (p == q && a != b) || p < q || q < p
  }

  /** Some leaf path of one tree is a leaf path of the other with another value, or a proper
      prefix of one. */
  ghost predicate Conflict(c: Config, d: Config) {
    exists p, a, q, b :: LeafAt(c, p, a) && LeafAt(d, q, b) && Clash(p, a, q, b)
  }

  lemma PrefixOfLeaf(c: Config, p: Path, q: Path, a: Atom)
    requires LeafAt(c, q, a) && p < q
    ensures At(c, p).Some? && At(c, p).value.Dict? && At(c, p).value != EMPTY_DICT
  {
    assert p + q[|p|..] == q;
    AtConcat(c, p, q[|p|..]);
  }

  lemma NoSelfConflict(c: Config)
    ensures !Conflict(c, c)
  {
    if Conflict(c, c) {
      var p, a, q, b :| LeafAt(c, p, a) && LeafAt(c, q, b) && Clash(p, a, q, b);
      if p < q {
        PrefixOfLeaf(c, p, q, b);
      } else if q < p {
        PrefixOfLeaf(c, q, p, a);
      }
    }
  }

  lemma ConflictSymmetric(c: Config, d: Config)
    requires Conflict(c, d)
    ensures Conflict(d, c)
  {
    var p, a, q, b :| LeafAt(c, p, a) && LeafAt(d, q, b) && Clash(p, a, q, b);
    assert Clash(q, b, p, a);
  }

  lemma MergeableHasNoConflict(s: Config, d: Config)
    requires Mergeable(s, d)
    ensures !Conflict(s, d)
  {
    if Conflict(s, d) {
      var p, a, q, b :| LeafAt(s, p, a) && LeafAt(d, q, b) && Clash(p, a, q, b);
      if p < q {
        PrefixOfLeaf(d, p, q, b);
        MergeableAt(s, d, p);
      } else if q < p {
        PrefixOfLeaf(s, q, p, a);
        MergeableAt(s, d, q);
      } else {
        MergeableAt(s, d, p);
      }
    }
  }

  /** A failing check on trees without empty dictionaries exhibits two clashing leaves. */
  lemma LocalFailureIsConflict(s: Config, d: Config, p: Path)
    requires Solid(s) && Solid(d) && s.Dict? && d.Dict?
    requires !LocallyMergeable(At(s, p), At(d, p))
    ensures Conflict(s, d)
  {
    var x, y := At(s, p).value, At(d, p).value;
    SolidBelow(s, p);
    SolidBelow(d, p);
    var q, a := SomeLeaf(x);
    var r, b := SomeLeaf(y);
    AtConcat(s, p, q);
    AtConcat(d, p, r);
    assert LeafAt(s, p + q, a) && LeafAt(d, p + r, b);
    if x.Leaf? && y.Leaf? {
      assert p + q == p == p + r;
    } else if x.Leaf? {
      assert p + q == p && p < p + r;
    } else {
      assert p + r == p && p < p + q;
    }
    assert Clash(p + q, a, p + r, b);
  }

  lemma MergeableIffNoConflict(s: Config, d: Config)
    requires Solid(s) && Solid(d) && s.Dict? && d.Dict?
    ensures Mergeable(s, d) <==> !Conflict(s, d)
  {
    if Mergeable(s, d) {
      MergeableHasNoConflict(s, d);
    } else if forall p: Path :: LocallyMergeable(At(s, p), At(d, p)) {
      MergeableFromPaths(s, d);
    } else {
      var p: Path :| !LocallyMergeable(At(s, p), At(d, p));
      LocalFailureIsConflict(s, d, p);
    }
  }

  // ----- Folding any number of configurations

  lemma MergedSolid(s: Config, d: Config)
    requires Solid(s) && Solid(d) && Mergeable(s, d)
    ensures Solid(Merged(s, d))
  {
    forall p: Path | p != []
      ensures At(Merged(s, d), p) != Some(EMPTY_DICT)
    {
      MergedAt(s, d, p);
      if At(s, p).Some? && At(d, p).Some? {
        EmptyMerge(At(s, p).value, At(d, p).value);
      }
    }
  }

  lemma EmptyMerge(s: Config, d: Config)
    requires Mergeable(s, d)
    ensures Merged(s, d) == EMPTY_DICT <==> s == EMPTY_DICT && d == EMPTY_DICT
  {
    if s.Dict? && d.Dict? {
      assert forall m: map<string, Config> :: m == map[] <==> m.Keys == {};
      assert Merged(s, d).entries.Keys == s.entries.Keys + d.entries.Keys;
    }
  }

  /** The trees that take part in a fold: the starting configuration and the merged ones. */
  ghost predicate NoConflicts(all: seq<Config>) {
    forall c, d :: c in all && d in all ==> !Conflict(c, d)
  }

  ghost predicate SolidDicts(all: seq<Config>) {
    forall c :: c in all ==> c.Dict? && Solid(c)
  }

  ghost predicate LeafOfOne(all: seq<Config>, p: Path, a: Atom) {
    exists c :: c in all && LeafAt(c, p, a)
  }

  lemma ConflictWithMerged(c: Config, s: Config, d: Config)
    requires Mergeable(s, d)
    ensures Conflict(c, Merged(s, d)) <==> Conflict(c, s) || Conflict(c, d)
  {
    forall q, b
      ensures LeafAt(Merged(s, d), q, b) <==> LeafAt(s, q, b) || LeafAt(d, q, b)
    {
      MergedLeaves(s, d, q, b);
    }
    if Conflict(c, s) {
      var p, a, q, b :| LeafAt(c, p, a) && LeafAt(s, q, b) && Clash(p, a, q, b);
      assert LeafAt(Merged(s, d), q, b);
    }
    if Conflict(c, d) {
      var p, a, q, b :| LeafAt(c, p, a) && LeafAt(d, q, b) && Clash(p, a, q, b);
      assert LeafAt(Merged(s, d), q, b);
    }
  }

  /** Replacing the first two trees by their merge loses and adds no conflict. */
  lemma NoConflictsAfterMerge(base: Config, c: Config, rest: seq<Config>)
    requires Mergeable(c, base)
    ensures NoConflicts([base] + ([c] + rest)) <==> NoConflicts([Merged(c, base)] + rest)
  {
    var m := Merged(c, base);
    var before, after := [base] + ([c] + rest), [m] + rest;
    assert forall x :: x in before <==> x == base || x == c || x in rest;
    assert forall x :: x in after <==> x == m || x in rest;
    NoSelfConflict(m);
    NoSelfConflict(c);
    NoSelfConflict(base);
    MergeableHasNoConflict(c, base);
    forall x, y | Conflict(x, y) ensures Conflict(y, x) { ConflictSymmetric(x, y); }
    forall x ensures Conflict(x, m) <==> Conflict(x, c) || Conflict(x, base) {
      ConflictWithMerged(x, c, base);
    }
    if NoConflicts(before) {
      forall x, y | x in after && y in after ensures !Conflict(x, y) {
        assert x == m || x in before;
        assert y == m || y in before;
        assert c in before && base in before;
      }
    }
    if NoConflicts(after) {
      assert m in after;
      forall x, y | x in before && y in before ensures !Conflict(x, y) {
        assert x == base || x == c || x in after;
        assert y == base || y == c || y in after;
      }
    }
  }

  /** A fold over trees without empty dictionaries raises nothing exactly when no two of the
      trees have clashing leaves, and its leaves are then exactly the leaves of all of them. */
  lemma {:induction false} FoldCharacterized(base: Config, configs: seq<Config>)
    requires SolidDicts([base] + configs)
    ensures Fold(base, configs).Some? <==> NoConflicts([base] + configs)
    ensures Fold(base, configs).Some? ==> LeavesAreThoseOf(Fold(base, configs).value, [base] + configs)
    decreases |configs|
  {
    assert base in [base] + configs;
    if configs == [] {
      assert [base] + configs == [base];
      NoSelfConflict(base);
    } else {
      var c, rest := configs[0], configs[1..];
      assert configs == [c] + rest;
      assert c in [base] + configs;
      MergeableIffNoConflict(c, base);
      if Mergeable(c, base) {
        SolidAfterMerge(base, c, rest);
        NoConflictsAfterMerge(base, c, rest);
        FoldCharacterized(Merged(c, base), rest);
        if Fold(base, configs).Some? {
          LeavesBeforeMerge(base, c, rest, Fold(base, configs).value);
        }
      } else {
        assert Conflict(c, base);
      }
    }
  }

  ghost predicate LeavesAreThoseOf(r: Config, all: seq<Config>) {
    && r.Dict? && Solid(r)
    && forall p, a :: LeafAt(r, p, a) <==> LeafOfOne(all, p, a)
  }

  lemma SolidAfterMerge(base: Config, c: Config, rest: seq<Config>)
    requires SolidDicts([base] + ([c] + rest)) && Mergeable(c, base)
    ensures SolidDicts([Merged(c, base)] + rest)
  {
    var before := [base] + ([c] + rest);
    assert forall x :: x == base || x == c || x in rest ==> x in before;
    MergedSolid(c, base);
  }

  lemma LeavesBeforeMerge(base: Config, c: Config, rest: seq<Config>, r: Config)
    requires Mergeable(c, base)
    requires LeavesAreThoseOf(r, [Merged(c, base)] + rest)
    ensures LeavesAreThoseOf(r, [base] + ([c] + rest))
  {
    forall p, a
      ensures LeafAt(r, p, a) <==> LeafOfOne([base] + ([c] + rest), p, a)
    {
      LeafOfOneAfterMerge(base, c, rest, p, a);
    }
  }

  lemma LeafOfOneAfterMerge(base: Config, c: Config, rest: seq<Config>, p: Path, a: Atom)
    requires Mergeable(c, base)
    ensures LeafOfOne([Merged(c, base)] + rest, p, a) <==> LeafOfOne([base] + ([c] + rest), p, a)
  {
    MergedLeaves(c, base, p, a);
    var before, after := [base] + ([c] + rest), [Merged(c, base)] + rest;
    assert forall x :: x in before <==> x == base || x == c || x in rest;
    assert forall x :: x in after <==> x == Merged(c, base) || x in rest;
  }

  /** Trees without empty dictionaries that have the same leaves are the same tree. */
  lemma {:induction false} LeavesDetermine(c: Config, d: Config)
    requires Solid(c) && Solid(d)
    requires forall p, a :: LeafAt(c, p, a) <==> LeafAt(d, p, a)
    ensures c == d
  {
    if c.Leaf? {
      assert LeafAt(c, [], c.value);
    } else if d.Leaf? {
      assert LeafAt(d, [], d.value);
    } else {
      SameKeys(c, d);
      SameKeys(d, c);
      forall k | k in c.entries
        ensures c.entries[k] == d.entries[k]
      {
        forall p, a
          ensures LeafAt(c.entries[k], p, a) <==> LeafAt(d.entries[k], p, a)
        {
          assert ([k] + p)[1..] == p;
          assert LeafAt(c, [k] + p, a) <==> LeafAt(d, [k] + p, a);
        }
        SolidChild(c, k);
        SolidChild(d, k);
        LeavesDetermine(c.entries[k], d.entries[k]);
      }
    }
  }

  lemma SameKeys(c: Config, d: Config)
    requires Solid(c) && c.Dict? && d.Dict?
    requires forall p, a :: LeafAt(c, p, a) ==> LeafAt(d, p, a)
    ensures c.entries.Keys <= d.entries.Keys
  {
    forall k | k in c.entries
      ensures k in d.entries
    {
      SolidChild(c, k);
      var q, a := SomeLeaf(c.entries[k]);
      assert ([k] + q)[1..] == q;
      assert LeafAt(c, [k] + q, a);
      assert LeafAt(d, [k] + q, a);
    }
  }

  /** The order in which the plugins' configurations are merged does not matter: for any two
      lists with the same members, such as two orders of one list, either both folds raise or
      both end with the same tree. */
  lemma FoldOrderIrrelevant(base: Config, configs: seq<Config>, configs': seq<Config>)
    requires SolidDicts([base] + configs)
    requires forall c :: c in configs <==> c in configs'
    ensures Fold(base, configs) == Fold(base, configs')
  {
    assert forall c :: c in [base] + configs <==> c in [base] + configs';
    FoldCharacterized(base, configs);
    FoldCharacterized(base, configs');
    if Fold(base, configs).Some? {
      forall p, a
        ensures LeafOfOne([base] + configs, p, a) <==> LeafOfOne([base] + configs', p, a)
      {
      }
      LeavesDetermine(Fold(base, configs).value, Fold(base, configs').value);
    }
  }
}
