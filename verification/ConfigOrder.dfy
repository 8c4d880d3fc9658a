/** When the order in which docker/install-dynamic-plugins.py merges configurations matters: empty
    dictionaries can be put onto anything, but nothing that is not a dictionary onto them. */
module ConfigOrder {
  import opened Wrappers
  import opened Sequences
  import opened ConfigTree

  /** The two trees clash at `p` whichever of them comes first. */
  predicate ClashAt(c: Config, d: Config, p: Path) {
    && At(c, p).Some? && At(d, p).Some?
    && match (At(c, p).value, At(d, p).value)
       case (Leaf(a), Leaf(b)) => a != b
       case (Leaf(_), Dict(n)) => n != map[]
       case (Dict(m), Leaf(_)) => m != map[]
       case (Dict(_), Dict(_)) => false
  }

  /** `c` has a leaf where `d` has an empty dictionary. */
  predicate LeafOnEmptyAt(c: Config, d: Config, p: Path) {
    At(c, p).Some? && At(c, p).value.Leaf? && At(d, p) == Some(EMPTY_DICT)
  }

  ghost predicate HardClash(c: Config, d: Config) {
    exists p :: ClashAt(c, d, p)
  }

  ghost predicate LeafOnEmpty(c: Config, d: Config) {
    exists p :: LeafOnEmptyAt(c, d, p)
  }

  lemma MergeableExactly(s: Config, d: Config)
    ensures Mergeable(s, d) <==> !HardClash(s, d) && !LeafOnEmpty(s, d)
  {
    if Mergeable(s, d) {
      forall p
        ensures !ClashAt(s, d, p) && !LeafOnEmptyAt(s, d, p)
      {
        MergeableAt(s, d, p);
      }
    } else if forall p: Path :: LocallyMergeable(At(s, p), At(d, p)) {
      MergeableFromPaths(s, d);
    } else {
      var p: Path :| !LocallyMergeable(At(s, p), At(d, p));
      assert ClashAt(s, d, p) || LeafOnEmptyAt(s, d, p);
    }
  }

  lemma {:induction false} MergedSymmetric(c: Config, d: Config)
    requires Mergeable(c, d) && Mergeable(d, c)
    ensures Merged(c, d) == Merged(d, c)
  {
    if c.Dict? && d.Dict? {
      forall k | k in c.entries && k in d.entries
        ensures Merged(c.entries[k], d.entries[k]) == Merged(d.entries[k], c.entries[k])
      {
        MergedSymmetric(c.entries[k], d.entries[k]);
      }
    }
  }

  /** For any two configurations, empty dictionaries or not: both orders give the same outcome
      exactly when the trees clash anyway, or leaves standing on empty dictionaries occur in
      both directions or in neither. */
  lemma TwoOrdersAgree(c: Config, d: Config)
    requires c.Dict? && d.Dict?
    ensures Fold(EMPTY_DICT, [c, d]) == Fold(EMPTY_DICT, [d, c]) <==>
              HardClash(c, d) || (LeafOnEmpty(c, d) <==> LeafOnEmpty(d, c))
  {
    FoldTwo(c, d);
    FoldTwo(d, c);
    MergeableExactly(c, d);
    MergeableExactly(d, c);
    HardClashSymmetric(c, d);
    if Mergeable(c, d) && Mergeable(d, c) {
      MergedSymmetric(c, d);
    }
  }

  lemma HardClashSymmetric(c: Config, d: Config)
    ensures HardClash(c, d) <==> HardClash(d, c)
  {
    if p :| ClashAt(c, d, p) {
      assert ClashAt(d, c, p);
    }
    if p :| ClashAt(d, c, p) {
      assert ClashAt(c, d, p);
    }
  }

  // ----- Folds over any trees

  /** Among the trees that have a node at `p`, the first has an empty dictionary and another one a
      leaf there. */
  ghost predicate EmptyBeforeLeaf(all: seq<Config>, p: Path) {
    exists i, j :: 0 <= i < j < |all| && FirstAt(all, p, i) && LeafOnEmptyAt(all[j], all[i], p)
  }

  ghost predicate FirstAt(all: seq<Config>, p: Path, i: int) {
    0 <= i < |all| && At(all[i], p).Some? && forall k :: 0 <= k < i ==> At(all[k], p).None?
  }

  ghost predicate NoHardClashes(all: seq<Config>) {
    forall c, d :: c in all && d in all ==> !HardClash(c, d)
  }

  lemma ClashWithMergedAt(x: Config, c: Config, base: Config, p: Path)
    requires Mergeable(c, base)
    ensures ClashAt(x, Merged(c, base), p) <==> ClashAt(x, c, p) || ClashAt(x, base, p)
  {
    MergedAt(c, base, p);
    if At(c, p).Some? && At(base, p).Some? {
      EmptyMerge(At(c, p).value, At(base, p).value);
    }
  }

  lemma NoHardClashesAfterMerge(base: Config, c: Config, rest: seq<Config>)
    requires Mergeable(c, base)
    ensures NoHardClashes([base] + ([c] + rest)) <==> NoHardClashes([Merged(c, base)] + rest)
  {
    var m := Merged(c, base);
    var before, after := [base] + ([c] + rest), [m] + rest;
    assert forall x :: x in before <==> x == base || x == c || x in rest;
    assert forall x :: x in after <==> x == m || x in rest;
    MergeableExactly(c, base);
    forall x, y ensures HardClash(x, y) <==> HardClash(y, x) {
      HardClashSymmetric(x, y);
    }
    forall x ensures HardClash(x, m) <==> HardClash(x, c) || HardClash(x, base) {
      HardClashWithMerged(x, c, base);
    }
    assert !HardClash(base, base) && !HardClash(c, c) && !HardClash(m, m);
    if NoHardClashes(before) {
      forall x, y | x in after && y in after ensures !HardClash(x, y) {
        assert x == m || x in before;
        assert y == m || y in before;
        assert c in before && base in before;
      }
    }
    if NoHardClashes(after) {
      assert m in after;
      forall x, y | x in before && y in before ensures !HardClash(x, y) {
        assert x == base || x == c || x in after;
        assert y == base || y == c || y in after;
      }
    }
  }

  lemma HardClashWithMerged(x: Config, c: Config, base: Config)
    requires Mergeable(c, base)
    ensures HardClash(x, Merged(c, base)) <==> HardClash(x, c) || HardClash(x, base)
  {
    forall p
      ensures ClashAt(x, Merged(c, base), p) <==> ClashAt(x, c, p) || ClashAt(x, base, p)
    {
      ClashWithMergedAt(x, c, base, p);
    }
    if p :| ClashAt(x, c, p) {
      assert ClashAt(x, Merged(c, base), p);
    }
    if p :| ClashAt(x, base, p) {
      assert ClashAt(x, Merged(c, base), p);
    }
  }

  lemma EmptyStaysBeforeLeaf(base: Config, c: Config, rest: seq<Config>, p: Path, i: nat, j: nat)
    requires Mergeable(c, base) && NoHardClashes([base] + ([c] + rest))
    requires var before := [base] + ([c] + rest);
             i < j < |before| && FirstAt(before, p, i) && LeafOnEmptyAt(before[j], before[i], p)
    ensures EmptyBeforeLeaf([Merged(c, base)] + rest, p)
  {
    hide HardClash, Mergeable, Merged;
    var m := Merged(c, base);
    var before, after := [base] + ([c] + rest), [m] + rest;
    assert forall k :: 2 <= k < |before| ==> before[k] == after[k - 1];
    assert before[0] == base && before[1] == c && after[0] == m;
    MergedAt(c, base, p);
    MergeableAt(c, base, p);
    assert j > 1;
    var i' := if i == 0 then 0 else i - 1;
    if i <= 1 {
      assert !ClashAt(before[j], c, p) by { assert !HardClash(before[j], c); HasNoClash(before[j], c, p); }
      if At(c, p).Some? && At(base, p).Some? {
        EmptyMerge(At(c, p).value, At(base, p).value);
      }
      assert At(m, p) == Some(EMPTY_DICT);
    } else {
      assert At(before[0], p).None? && At(before[1], p).None?;
      assert forall k :: 1 <= k < i' ==> after[k] == before[k + 1];
    }
    assert FirstAt(after, p, i');
    assert LeafOnEmptyAt(after[j - 1], after[i'], p);
  }

  lemma HasNoClash(c: Config, d: Config, p: Path)
    requires !HardClash(c, d)
    ensures !ClashAt(c, d, p)
  {
  }

  lemma EmptyWasBeforeLeaf(base: Config, c: Config, rest: seq<Config>, p: Path, i: nat, j: nat)
    requires Mergeable(c, base)
    requires var after := [Merged(c, base)] + rest;
             i < j < |after| && FirstAt(after, p, i) && LeafOnEmptyAt(after[j], after[i], p)
    ensures EmptyBeforeLeaf([base] + ([c] + rest), p)
  {
    hide Mergeable, Merged;
    var m := Merged(c, base);
    var before, after := [base] + ([c] + rest), [m] + rest;
    assert forall k :: 2 <= k < |before| ==> before[k] == after[k - 1];
    assert before[0] == base && before[1] == c && after[0] == m;
    MergedAt(c, base, p);
    if At(c, p).Some? && At(base, p).Some? {
      EmptyMerge(At(c, p).value, At(base, p).value);
    }
    var i' := if i > 0 then i + 1 else if At(base, p).Some? then 0 else 1;
    assert FirstAt(before, p, i') by {
      assert i > 0 ==> At(after[0], p).None?;
    }
    assert LeafOnEmptyAt(before[j + 1], before[i'], p);
  }

  lemma EmptyBeforeLeafAfterMerge(base: Config, c: Config, rest: seq<Config>, p: Path)
    requires Mergeable(c, base) && NoHardClashes([base] + ([c] + rest))
    ensures EmptyBeforeLeaf([base] + ([c] + rest), p) <==> EmptyBeforeLeaf([Merged(c, base)] + rest, p)
  {
    hide FirstAt, LeafOnEmptyAt, HardClash, Mergeable, Merged;
    var before, after := [base] + ([c] + rest), [Merged(c, base)] + rest;
    if EmptyBeforeLeaf(before, p) {
      var i, j :| 0 <= i < j < |before| && FirstAt(before, p, i) && LeafOnEmptyAt(before[j], before[i], p);
      EmptyStaysBeforeLeaf(base, c, rest, p, i, j);
    }
    if EmptyBeforeLeaf(after, p) {
      var i, j :| 0 <= i < j < |after| && FirstAt(after, p, i) && LeafOnEmptyAt(after[j], after[i], p);
      EmptyWasBeforeLeaf(base, c, rest, p, i, j);
    }
  }

  /** A fold over any trees raises nothing exactly when no two of them clash in both directions,
      and nowhere an empty dictionary comes first and a leaf later. */
  lemma {:induction false} FoldSucceedsExactly(base: Config, configs: seq<Config>)
    ensures Fold(base, configs).Some? <==>
              NoHardClashes([base] + configs) && forall p: Path :: !EmptyBeforeLeaf([base] + configs, p)
    decreases |configs|
  {
    hide Mergeable, Merged;
    var all := [base] + configs;
    if configs == [] {
      assert all == [base];
    } else {
      var c, rest := configs[0], configs[1..];
      assert configs == [c] + rest;
      MergeableExactly(c, base);
      if Mergeable(c, base) {
        NoHardClashesAfterMerge(base, c, rest);
        if NoHardClashes(all) {
          forall p: Path ensures EmptyBeforeLeaf(all, p) <==> EmptyBeforeLeaf([Merged(c, base)] + rest, p) {
            EmptyBeforeLeafAfterMerge(base, c, rest, p);
          }
        }
        FoldSucceedsExactly(Merged(c, base), rest);
      } else if HardClash(c, base) {
        assert c in all && base in all;
      } else {
        var p :| LeafOnEmptyAt(c, base, p);
        assert all[0] == base && all[1] == c;
        assert FirstAt(all, p, 0);
        assert EmptyBeforeLeaf(all, p);
      }
    }
  }

  ghost predicate NodeOfOne(all: seq<Config>, p: Path) {
    exists c :: c in all && At(c, p).Some?
  }

  /** A tree that has just the nodes of the given trees, and just their leaves. */
  ghost predicate Gathers(r: Config, all: seq<Config>) {
    && (forall p: Path :: At(r, p).Some? <==> NodeOfOne(all, p))
    && (forall p: Path, a :: LeafAt(r, p, a) <==> LeafOfOne(all, p, a))
  }

  lemma {:induction false} FoldGathers(base: Config, configs: seq<Config>)
    requires Fold(base, configs).Some?
    ensures Gathers(Fold(base, configs).value, [base] + configs)
    decreases |configs|
  {
    if configs == [] {
      assert [base] + configs == [base];
    } else {
      var c, rest := configs[0], configs[1..];
      assert configs == [c] + rest;
      FoldGathers(Merged(c, base), rest);
      var before, after := [base] + ([c] + rest), [Merged(c, base)] + rest;
      assert forall x :: x in before <==> x == base || x == c || x in rest;
      assert forall x :: x in after <==> x == Merged(c, base) || x in rest;
      forall p: Path
        ensures NodeOfOne(after, p) <==> NodeOfOne(before, p)
      {
        MergedAt(c, base, p);
      }
      forall p: Path, a
        ensures LeafOfOne(after, p, a) <==> LeafOfOne(before, p, a)
      {
        LeafOfOneAfterMerge(base, c, rest, p, a);
      }
    }
  }

  /** Trees with the same nodes and the same leaves are the same tree. */
  lemma {:induction false} NodesDetermine(c: Config, d: Config)
    requires forall p: Path :: At(c, p).Some? <==> At(d, p).Some?
    requires forall p: Path, a :: LeafAt(c, p, a) <==> LeafAt(d, p, a)
    ensures c == d
  {
    if c.Leaf? {
      assert LeafAt(c, [], c.value);
    } else if d.Leaf? {
      assert LeafAt(d, [], d.value);
    } else {
      forall k
        ensures k in c.entries <==> k in d.entries
      {
        var q := [k];
        assert q[0] == k && q[1..] == [];
        assert At(c, q).Some? <==> k in c.entries;
        assert At(d, q).Some? <==> k in d.entries;
      }
      forall k | k in c.entries
        ensures c.entries[k] == d.entries[k]
      {
        forall p: Path
          ensures At(c.entries[k], p) == At(c, [k] + p) && At(d.entries[k], p) == At(d, [k] + p)
        {
          assert ([k] + p)[1..] == p;
        }
        forall p: Path, a
          ensures LeafAt(c.entries[k], p, a) <==> LeafAt(d.entries[k], p, a)
        {
          assert LeafAt(c, [k] + p, a) <==> LeafAt(d, [k] + p, a);
        }
        NodesDetermine(c.entries[k], d.entries[k]);
      }
    }
  }

  /** Whatever the trees: two orders that both work give the same tree. */
  lemma FoldDetermined(base: Config, configs: seq<Config>, configs': seq<Config>)
    requires forall c :: c in configs <==> c in configs'
    requires Fold(base, configs).Some? && Fold(base, configs').Some?
    ensures Fold(base, configs) == Fold(base, configs')
  {
    assert forall c :: c in [base] + configs <==> c in [base] + configs';
    FoldGathers(base, configs);
    FoldGathers(base, configs');
    var r, r' := Fold(base, configs).value, Fold(base, configs').value;
    forall p: Path ensures At(r, p).Some? <==> At(r', p).Some? {
      assert NodeOfOne([base] + configs, p) <==> NodeOfOne([base] + configs', p);
    }
    forall p: Path, a ensures LeafAt(r, p, a) <==> LeafAt(r', p, a) {
      assert LeafOfOne([base] + configs, p, a) <==> LeafOfOne([base] + configs', p, a);
    }
    NodesDetermine(r, r');
  }

  /** At `p` one of the configurations has a leaf, and an empty dictionary can come before it: the
      starting configuration's, or that of another configuration where the starting
      configuration has nothing. */
  ghost predicate OrderMattersAt(base: Config, configs: seq<Config>, p: Path) {
    exists i, j :: 0 <= i < |configs| && 0 <= j < |configs| &&
      (LeafOnEmptyAt(configs[j], base, p) || (At(base, p).None? && LeafOnEmptyAt(configs[j], configs[i], p)))
  }

  /** Every order of the configurations works exactly when no two trees clash in both directions and
      there is no place where an empty dictionary can come before a leaf.  All orders then
      give the same tree. */
  lemma EveryOrderWorksExactly(base: Config, configs: seq<Config>)
    ensures (forall configs' :: multiset(configs') == multiset(configs) ==> Fold(base, configs').Some?) <==>
              NoHardClashes([base] + configs) && forall p: Path :: !OrderMattersAt(base, configs, p)
    ensures forall configs' ::
              multiset(configs') == multiset(configs) && Fold(base, configs').Some? && Fold(base, configs).Some?
              ==> Fold(base, configs') == Fold(base, configs)
  {
    hide Fold, HardClash;
    if NoHardClashes([base] + configs) && forall p: Path :: !OrderMattersAt(base, configs, p) {
      forall configs' | multiset(configs') == multiset(configs) ensures Fold(base, configs').Some? {
        OrderWorks(base, configs, configs');
      }
    } else if !NoHardClashes([base] + configs) {
      FoldSucceedsExactly(base, configs);
      assert multiset(configs) == multiset(configs) && Fold(base, configs).None?;
    } else {
      var p: Path :| OrderMattersAt(base, configs, p);
      var configs' := SomeOrderFails(base, configs, p);
    }
    forall configs' | multiset(configs') == multiset(configs) && Fold(base, configs').Some? && Fold(base, configs).Some?
      ensures Fold(base, configs') == Fold(base, configs)
    {
      SameMembers(configs, configs');
      FoldDetermined(base, configs', configs);
    }
  }

  lemma OrderWorks(base: Config, configs: seq<Config>, configs': seq<Config>)
    requires multiset(configs') == multiset(configs)
    requires NoHardClashes([base] + configs) && forall p: Path :: !OrderMattersAt(base, configs, p)
    ensures Fold(base, configs').Some?
  {
    hide Fold, HardClash;
    SameMembers(configs, configs');
    var all := [base] + configs';
    assert forall c :: c in all <==> c in [base] + configs;
    assert NoHardClashes(all);
    forall p: Path
      ensures !EmptyBeforeLeaf(all, p)
    {
      if i, j :| 0 <= i < j < |all| && FirstAt(all, p, i) && LeafOnEmptyAt(all[j], all[i], p) {
        assert all[j] == configs'[j - 1] && all[j] in configs;
        var j' :| 0 <= j' < |configs| && configs[j'] == all[j];
        var i' := j';
        if i > 0 {
          assert all[i] == configs'[i - 1] && all[i] in configs && At(all[0], p).None?;
          i' :| 0 <= i' < |configs| && configs[i'] == all[i];
        }
        assert OrderMattersAt(base, configs, p);
      }
    }
    FoldSucceedsExactly(base, configs');
  }

  /** The order that fails: the configuration with the empty dictionary is merged first. */
  lemma SomeOrderFails(base: Config, configs: seq<Config>, p: Path) returns (configs': seq<Config>)
    requires OrderMattersAt(base, configs, p)
    ensures multiset(configs') == multiset(configs) && Fold(base, configs').None?
  {
    hide Fold, HardClash, LeafOnEmptyAt, At;
    var i, j :| 0 <= i < |configs| && 0 <= j < |configs| &&
      (LeafOnEmptyAt(configs[j], base, p) || (At(base, p).None? && LeafOnEmptyAt(configs[j], configs[i], p)));
    configs' := [configs[i]] + (configs[..i] + configs[i + 1..]);
    assert configs == configs[..i] + [configs[i]] + configs[i + 1..];
    assert configs[j] in multiset(configs');
    var k :| 0 <= k < |configs'| && configs'[k] == configs[j];
    FirstOrSecondEmpty(base, configs', k, p);
  }

  lemma FirstOrSecondEmpty(base: Config, configs: seq<Config>, k: nat, p: Path)
    requires k < |configs|
    requires LeafOnEmptyAt(configs[k], base, p) || (At(base, p).None? && LeafOnEmptyAt(configs[k], configs[0], p))
    ensures Fold(base, configs).None?
  {
    hide Fold, HardClash;
    var all := [base] + configs;
    assert all[k + 1] == configs[k] && all[0] == base && all[1] == configs[0];
    if LeafOnEmptyAt(configs[k], base, p) {
      assert FirstAt(all, p, 0);
    } else {
      assert FirstAt(all, p, 1);
    }
    assert EmptyBeforeLeaf(all, p);
    FoldSucceedsExactly(base, configs);
  }

  lemma FoldTwo(c: Config, d: Config)
    requires c.Dict?
    ensures Fold(EMPTY_DICT, [c, d]) == if Mergeable(d, c) then Some(Merged(d, c)) else None
  {
    assert Merged(c, EMPTY_DICT) == c;
    assert [c, d][1..] == [d];
    assert [d][1..] == [];
    assert Fold(c, [d]) == if Mergeable(d, c) then Some(Merged(d, c)) else None;
  }

  /** One plugin says `proxy: {}`, another `proxy: off`: only one of the two orders works. */
  lemma EmptyDictOrderMatters()
    ensures var c := Dict(map["proxy" := EMPTY_DICT]);
            var d := Dict(map["proxy" := Leaf(Atom("off"))]);
            && Fold(EMPTY_DICT, [c, d]) == None
            && Fold(EMPTY_DICT, [d, c]) == Some(d)
  {
    var c := Dict(map["proxy" := EMPTY_DICT]);
    var d := Dict(map["proxy" := Leaf(Atom("off"))]);
    FoldTwo(c, d);
    FoldTwo(d, c);
    assert !Mergeable(d.entries["proxy"], c.entries["proxy"]);
    assert Merged(c, d) == d;
  }
}
