/** The in-place merge of docker/install-dynamic-plugins.py over mutable dictionaries, proved
    against ConfigTree.  Configurations come from YAML files without aliases, so each one is a
    tree of dictionaries: no dictionary is reached twice. */
module ConfigHeap {
  import opened ConfigTree

  datatype Value = Scalar(atom: Atom) | Ref(dict: DictNode)

  class DictNode {
    var entries: map<string, Value>
    ghost var Repr: set<object>  // this dictionary and all dictionaries below it

    /** A tree of dictionaries hangs below this one. */
    ghost predicate Valid()
      reads this, Repr
      ensures Valid() ==> this in Repr
      decreases Repr, 1
    {
      this in Repr && ChildrenValid()
    }

    ghost predicate ChildrenValid()
      requires this in Repr
      reads this, Repr
      decreases Repr, 0
    {
      && (forall k :: k in entries && entries[k].Ref? ==> ChildAt(k) && entries[k].dict.Valid())
      && (forall j, k :: j in entries && k in entries && j != k && entries[j].Ref? && entries[k].Ref? ==>
            entries[j].dict.Repr !! entries[k].dict.Repr)
    }

    ghost predicate ChildAt(k: string)
      requires this in Repr
      requires k in entries && entries[k].Ref?
      reads this, Repr
    {
      entries[k].dict in Repr && entries[k].dict.Repr <= Repr && this !in entries[k].dict.Repr
    }

    /** The configuration tree this dictionary stands for. */
    ghost function Tree(): Config
      requires Valid()
      reads this, Repr
      ensures Tree().Dict? && Tree().entries.Keys == entries.Keys
      decreases Repr
    {
      Open();
      Dict(map k | k in entries ::
             match entries[k]
             case Scalar(a) => Leaf(a)
             case Ref(c) => assert ChildAt(k); c.Tree())
    }

    lemma Open()
      requires Valid()
      ensures ChildrenValid()
    {
    }

    lemma TreeAt(k: string)
      requires Valid() && k in entries
      ensures entries[k].Ref? ==> entries[k].dict.Valid()
      ensures Tree().entries[k] == match entries[k] case Scalar(a) => Leaf(a) case Ref(c) => c.Tree()
    {
    }

    lemma Close()
      requires this in Repr && ChildrenValid()
      ensures Valid()
    {
    }

    constructor ()
      ensures Valid() && fresh(Repr) && Tree() == EMPTY_DICT && entries == map[]
    {
      entries := map[];
      Repr := {this};
    }

    /** `destination[key] = value` for a value that is not a dictionary, where no dictionary stood. */
    method SetScalar(key: string, a: Atom)
      requires Valid()
      requires key in entries ==> entries[key].Scalar?
      modifies this
      ensures Valid() && Repr == old(Repr)
      ensures Tree() == Dict(old(Tree()).entries[key := Leaf(a)])
    {
      entries := entries[key := Scalar(a)];
    }

    /** `destination.setdefault(key, {})` */
    method SetDefault(key: string) returns (v: Value)
      requires Valid()
      modifies this
      ensures Valid() && old(Repr) <= Repr && fresh(Repr - old(Repr))
      ensures key in entries && entries[key] == v
      ensures Tree() == Dict(if key in old(entries) then old(Tree()).entries
                             else old(Tree()).entries[key := EMPTY_DICT])
    {
      hide Valid, Tree;
      if key !in entries {
        Open();
        forall k | k in entries { TreeAt(k); }
        var node := new DictNode();
        entries := entries[key := Ref(node)];
        Repr := Repr + node.Repr;
        forall k | k in old(entries) && old(entries[k].Ref?)
          ensures ChildAt(k) && entries[k].dict.Valid() && entries[k].dict.Repr !! node.Repr
          ensures entries[k].dict.Tree() == old(entries[k].dict.Tree())
        {
          assert old(ChildAt(k));
        }
        Close();
        forall k | k in entries
          ensures k == key ==> Tree().entries[k] == EMPTY_DICT
          ensures k != key ==> Tree().entries[k] == old(Tree()).entries[k]
        {
          TreeAt(k);
        }
      }
      v := entries[key];
    }
  }

  /** merge(source, destination): the source's keys are visited in any order.  False stands for
      the exceptions: a key defined differently, or a dictionary merged into something that is
      not one.  The source is not among what is modified, and nothing of it ends up below the
      destination. */
  method Merge(source: DictNode, destination: DictNode) returns (ok: bool)
    requires source.Valid() && destination.Valid()
    requires source.Repr !! destination.Repr
    modifies destination.Repr
    ensures destination.Valid()
    ensures old(destination.Repr) <= destination.Repr && fresh(destination.Repr - old(destination.Repr))
    ensures source.Valid() && source.Tree() == old(source.Tree()) && source.Repr !! destination.Repr
    ensures ok <==> Mergeable(source.Tree(), old(destination.Tree()))
    ensures ok ==> destination.Tree() == Merged(source.Tree(), old(destination.Tree()))
    decreases source.Repr, 1
  {
    hide DictNode.Valid, DictNode.Tree;
    ghost var s, d := source.Tree().entries, destination.Tree().entries;
    var todo := source.entries.Keys;
    while todo != {}
      invariant todo <= source.entries.Keys
      invariant destination.Valid()
      invariant old(destination.Repr) <= destination.Repr && fresh(destination.Repr - old(destination.Repr))
      invariant source.Valid() && source.Tree() == Dict(s) && source.Repr !! destination.Repr
      invariant forall k :: k in s.Keys - todo && k in d ==> Mergeable(s[k], d[k])
      invariant destination.Tree() == PartlyMerged(s, d, todo)
    {
      var key :| key in todo;
      assert PartlyMerged(s, d, todo).entries.Keys == d.Keys + (s.Keys - todo);
      ok := MergeKey(source, destination, key);
      if !ok {
        return;
      }
      PartlyMergedStep(s, d, todo, key);
      todo := todo - {key};
    }
    ok := true;
  }

  lemma PartlyMergedStep(s: map<string, Config>, d: map<string, Config>, todo: set<string>, key: string)
    requires forall k :: k in s.Keys - todo && k in d ==> Mergeable(s[k], d[k])
    requires key in todo && key in s && (key in d ==> Mergeable(s[key], d[key]))
    ensures key in PartlyMerged(s, d, todo).entries <==> key in d
    ensures key in d ==> PartlyMerged(s, d, todo).entries[key] == d[key]
    ensures PartlyMerged(s, d, todo - {key}) ==
            Dict(PartlyMerged(s, d, todo).entries[key := if key in d then Merged(s[key], d[key]) else s[key]])
  {
    assert s.Keys - (todo - {key}) == (s.Keys - todo) + {key};
  }

  ghost function PartlyMerged(s: map<string, Config>, d: map<string, Config>, todo: set<string>): Config
    requires forall k :: k in s.Keys - todo && k in d ==> Mergeable(s[k], d[k])
  {
    Dict(map k | k in d.Keys + (s.Keys - todo) ::
           if k in todo || k !in s then d[k] else if k in d then Merged(s[k], d[k]) else s[k])
  }

  /** One turn of the loop. */
  method MergeKey(source: DictNode, destination: DictNode, key: string) returns (ok: bool)
    requires source.Valid() && destination.Valid()
    requires source.Repr !! destination.Repr
    requires key in source.entries
    modifies destination.Repr
    ensures destination.Valid()
    ensures old(destination.Repr) <= destination.Repr && fresh(destination.Repr - old(destination.Repr))
    ensures source.Valid() && source.Tree() == old(source.Tree()) && source.Repr !! destination.Repr
    ensures var s, d := source.Tree().entries, old(destination.Tree()).entries;
            && (ok <==> key in d ==> Mergeable(s[key], d[key]))
            && (ok ==> destination.Tree() ==
                       Dict(d[key := if key in d then Merged(s[key], d[key]) else s[key]]))
    decreases source.Repr, 0
  {
    hide DictNode.Valid, DictNode.Tree;
    ghost var s, d := source.Tree().entries, destination.Tree().entries;
    source.Open();
    source.TreeAt(key);
    assert key in d ==> d[key := d[key]] == d;
    if key in destination.entries {
      destination.TreeAt(key);
    }
    match source.entries[key] {
      case Ref(value) =>
        assert source.ChildAt(key);
        var node := destination.SetDefault(key);
        match node {
          case Scalar(_) =>
            destination.TreeAt(key);
            ok := value.entries == map[];
          case Ref(child) =>
            ok := MergeBelow(value, destination, key);
            assert Merged(Dict(s[key].entries), EMPTY_DICT) == s[key];
        }
      case Scalar(a) =>
        ok := key in destination.entries ==> destination.entries[key] == Scalar(a);
        if ok {
          destination.SetScalar(key, a);
        }
    }
  }

  /** The recursive call, seen from the dictionary that holds the node. */
  method MergeBelow(value: DictNode, destination: DictNode, key: string) returns (ok: bool)
    requires value.Valid() && destination.Valid()
    requires key in destination.entries && destination.entries[key].Ref?
    requires value.Repr !! destination.Repr
    modifies destination.Repr
    ensures destination.Valid()
    ensures old(destination.Repr) <= destination.Repr && fresh(destination.Repr - old(destination.Repr))
    ensures value.Valid() && value.Tree() == old(value.Tree()) && value.Repr !! destination.Repr
    ensures ok <==> Mergeable(value.Tree(), old(destination.Tree()).entries[key])
    ensures ok ==> destination.Tree() ==
                   Dict(old(destination.Tree()).entries
                        [key := Merged(value.Tree(), old(destination.Tree()).entries[key])])
    decreases value.Repr, 2
  {
    hide DictNode.Valid, DictNode.Tree;
    var child := destination.entries[key].dict;
    destination.Open();
    forall k | k in destination.entries { destination.TreeAt(k); }
    assert destination.ChildAt(key);
    ok := Merge(value, child);
    destination.Repr := destination.Repr + child.Repr;
    forall k | k in destination.entries && destination.entries[k].Ref? && k != key
      ensures var c := destination.entries[k].dict;
              && c.Valid() && c.Tree() == old(c.Tree())
              && c.Repr !! child.Repr && destination.ChildAt(k)
    {
      assert old(destination.ChildAt(k));
    }
    destination.Close();
    forall k | k in destination.entries { destination.TreeAt(k); }
  }

  /** The merges of the installation loop, over any number of plugin configurations.  Every
      plugin's configuration stands for the same tree afterwards, and no dictionary of one has
      become a dictionary of the global configuration. */
  method MergeConfigs(globalConfig: DictNode, configs: seq<DictNode>, ghost trees: seq<Config>)
    returns (ok: bool)
    requires globalConfig.Valid()
    requires |trees| == |configs|
    requires forall i :: 0 <= i < |configs| ==>
               configs[i].Valid() && configs[i].Tree() == trees[i] && configs[i].Repr !! globalConfig.Repr
    modifies globalConfig.Repr
    ensures globalConfig.Valid() && fresh(globalConfig.Repr - old(globalConfig.Repr))
    ensures forall i :: 0 <= i < |configs| ==>
              configs[i].Valid() && configs[i].Tree() == trees[i] && configs[i].Repr !! globalConfig.Repr
    ensures ok <==> Fold(old(globalConfig.Tree()), trees).Some?
    ensures ok ==> globalConfig.Tree() == Fold(old(globalConfig.Tree()), trees).value
  {
    hide DictNode.Valid, DictNode.Tree;
    for i := 0 to |configs|
      invariant globalConfig.Valid()
      invariant old(globalConfig.Repr) <= globalConfig.Repr && fresh(globalConfig.Repr - old(globalConfig.Repr))
      invariant forall j :: 0 <= j < |configs| ==>
                  configs[j].Valid() && configs[j].Tree() == trees[j] && configs[j].Repr !! globalConfig.Repr
      invariant Fold(old(globalConfig.Tree()), trees) == Fold(globalConfig.Tree(), trees[i..])
    {
      assert trees[i..][1..] == trees[i + 1..];
      ok := Merge(configs[i], globalConfig);
      if !ok {
        return;
      }
    }
    ok := true;
  }
}
