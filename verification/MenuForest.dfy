/** What hangs below the roots that buildTree returns is a finite forest, whatever parents the
    items name: missing ones, invisible ones, themselves or each other in a circle. */
module MenuForest {
  import opened Wrappers
  import opened Sequences
  import opened MenuTree

  /** The item at the end of a path of positions: a root's position, then a child's, and so on. */
  ghost function NodeAt(tree: seq<MenuItem>, items: seq<MenuItem>, path: seq<nat>): Option<MenuItem>
    reads items
    decreases |path|, 0
  {
    if path == [] then None else
    var siblings := Below(tree, items, path[..|path| - 1]);
    var i := path[|path| - 1];
    if i < |siblings| then Some(siblings[i]) else None
  }

  /** The roots, or the children of the item at the end of the path. */
  ghost function Below(tree: seq<MenuItem>, items: seq<MenuItem>, path: seq<nat>): seq<MenuItem>
    reads items
    decreases |path|, 1
  {
    if path == [] then tree else
    match NodeAt(tree, items, path)
    case None => []
    case Some(x) => if x in items then x.children else []
  }

  /** The item and at most `k` ancestors above it exist and are visible, the last one being
      parentless. */
  ghost predicate AnchoredWithin(items: seq<MenuItem>, x: MenuItem, k: nat) {
    && Visible(x.config)
    && match ParentOf(x.config)
       case None => true
       case Some(name) =>
         k > 0 && exists p :: p in items && p.config.name == name && AnchoredWithin(items, p, k - 1)
  }

  ghost predicate Anchored(items: seq<MenuItem>, x: MenuItem) {
    exists k :: AnchoredWithin(items, x, k)
  }

  ghost predicate Occurs(tree: seq<MenuItem>, items: seq<MenuItem>, x: MenuItem)
    reads items
  {
    exists path :: NodeAt(tree, items, path) == Some(x)
  }

  lemma {:induction false} ChildrenAmong(items: seq<MenuItem>, name: string)
    ensures multiset(ChildrenIn(items, name)) <= multiset(items)
    ensures multiset(RootsIn(items)) <= multiset(items)
  {
    if items != [] {
      ChildrenAmong(items[..|items| - 1], name);
      assert items == items[..|items| - 1] + [items[|items| - 1]];
    }
  }

  lemma SortedWithoutRepeats(chosen: seq<MenuItem>, items: seq<MenuItem>)
    requires UniqueNames(items) && multiset(chosen) <= multiset(items)
    ensures NoRepeats(StableSort(chosen))
    ensures forall i :: 0 <= i < |StableSort(chosen)| ==> StableSort(chosen)[i] in chosen
  {
    var s := StableSort(chosen);
    StableSortIs(chosen);
    forall i | 0 <= i < |s|
      ensures s[i] in chosen
    {
      assert s[i] in multiset(s);
    }
    forall i, j | 0 <= i < j < |s|
      ensures s[i] != s[j]
    {
      if s[i] == s[j] {
        CountTwo(s, i, j);
        var k, l := TwoPlaces(items, s[i]);
      }
    }
  }

  /** One step of a path. */
  lemma NodeFacts(tree: seq<MenuItem>, items: seq<MenuItem>, path: seq<nat>)
    requires UniqueNames(items) && Linked(tree, items) && NodeAt(tree, items, path).Some?
    ensures path != []
    ensures var x := NodeAt(tree, items, path).value;
            var front, i := path[..|path| - 1], path[|path| - 1];
            && x in items && Visible(x.config)
            && i < |Below(tree, items, front)| && x == Below(tree, items, front)[i]
            && NoRepeats(Below(tree, items, front))
            && (front == [] ==> ParentOf(x.config).None?)
            && (front != [] ==>
                  && NodeAt(tree, items, front).Some?
                  && ParentOf(x.config) == Some(NodeAt(tree, items, front).value.config.name))
  {
    hide StableSort, ChildrenIn, RootsIn, UniqueNames;
    var front, i := path[..|path| - 1], path[|path| - 1];
    var siblings := Below(tree, items, front);
    if front == [] {
      ChildrenAmong(items, "");
      SortedWithoutRepeats(RootsIn(items), items);
      assert siblings[i] in RootsIn(items);
    } else {
      var p := NodeAt(tree, items, front).value;
      ChildrenAmong(items, p.config.name);
      SortedWithoutRepeats(ChildrenIn(items, p.config.name), items);
      assert siblings[i] in ChildrenIn(items, p.config.name);
    }
  }

  /** No item is reached along two different paths. */
  lemma {:induction false} OnePath(tree: seq<MenuItem>, items: seq<MenuItem>, p: seq<nat>, q: seq<nat>)
    requires UniqueNames(items) && Linked(tree, items)
    requires NodeAt(tree, items, p).Some? && NodeAt(tree, items, p) == NodeAt(tree, items, q)
    ensures p == q
    decreases |p|
  {
    hide NodeAt, Below, Linked, UniqueNames;
    NodeFacts(tree, items, p);
    NodeFacts(tree, items, q);
    var p', q' := p[..|p| - 1], q[..|q| - 1];
    if p' != [] {
      NodeFacts(tree, items, p');
      NodeFacts(tree, items, q');
      SameName(items, NodeAt(tree, items, p').value, NodeAt(tree, items, q').value);
      OnePath(tree, items, p', q');
    }
    assert p == p' + [p[|p| - 1]] && q == q' + [q[|q| - 1]];
  }

  lemma SameName(items: seq<MenuItem>, x: MenuItem, y: MenuItem)
    requires UniqueNames(items) && x in items && y in items && x.config.name == y.config.name
    ensures x == y
  {
  }

  lemma {:induction false} ReachedIsAnchored(tree: seq<MenuItem>, items: seq<MenuItem>, path: seq<nat>)
    requires UniqueNames(items) && Linked(tree, items) && NodeAt(tree, items, path).Some?
    ensures path != [] && AnchoredWithin(items, NodeAt(tree, items, path).value, |path| - 1)
    decreases |path|
  {
    hide NodeAt, Below, Linked, UniqueNames;
    NodeFacts(tree, items, path);
    var front := path[..|path| - 1];
    if front != [] {
      NodeFacts(tree, items, front);
      ReachedIsAnchored(tree, items, front);
    }
  }

  lemma Position(chosen: seq<MenuItem>, x: MenuItem) returns (i: nat)
    requires x in chosen
    ensures i < |StableSort(chosen)| && StableSort(chosen)[i] == x
  {
    StableSortIs(chosen);
    assert x in multiset(chosen);
    assert x in multiset(StableSort(chosen));
    i :| 0 <= i < |StableSort(chosen)| && StableSort(chosen)[i] == x;
  }

  lemma {:induction false} AnchoredIsReached(tree: seq<MenuItem>, items: seq<MenuItem>, x: MenuItem, k: nat)
    returns (path: seq<nat>)
    requires UniqueNames(items) && Linked(tree, items) && x in items && AnchoredWithin(items, x, k)
    ensures NodeAt(tree, items, path) == Some(x)
    decreases k
  {
    hide StableSort, ChildrenIn, RootsIn, UniqueNames;
    match ParentOf(x.config) {
      case None =>
        var i := Position(RootsIn(items), x);
        path := [i];
        assert path[..|path| - 1] == [];
      case Some(name) =>
        var p :| p in items && p.config.name == name && AnchoredWithin(items, p, k - 1);
        var front := AnchoredIsReached(tree, items, p, k - 1);
        var i := Position(ChildrenIn(items, name), x);
        path := front + [i];
        assert path[..|path| - 1] == front;
        assert Below(tree, items, front) == p.children;
    }
  }

  /** The items along a path. */
  lemma {:induction false} NodesAlong(tree: seq<MenuItem>, items: seq<MenuItem>, path: seq<nat>)
    returns (nodes: seq<MenuItem>)
    requires UniqueNames(items) && Linked(tree, items) && NodeAt(tree, items, path).Some?
    ensures |nodes| == |path| && forall i :: 0 <= i < |path| ==> nodes[i] in items
    ensures forall i :: 0 <= i < |path| ==> NodeAt(tree, items, path[..i + 1]) == Some(nodes[i])
    decreases |path|
  {
    hide NodeAt, Below, Linked, UniqueNames;
    NodeFacts(tree, items, path);
    var front := path[..|path| - 1];
    nodes := [];
    if front != [] {
      nodes := NodesAlong(tree, items, front);
      forall i | 0 <= i < |front|
        ensures NodeAt(tree, items, path[..i + 1]) == Some(nodes[i])
      {
        assert front[..i + 1] == path[..i + 1];
      }
    }
    nodes := nodes + [NodeAt(tree, items, path).value];
    assert path[..|front| + 1] == path;
  }

  /** A path meets no item twice, so it is no longer than the list of items. */
  lemma PathBounded(tree: seq<MenuItem>, items: seq<MenuItem>, path: seq<nat>)
    requires UniqueNames(items) && Linked(tree, items) && NodeAt(tree, items, path).Some?
    ensures |path| <= |items|
  {
    hide NodeAt, Below, Linked, UniqueNames;
    var nodes := NodesAlong(tree, items, path);
    forall i, j | 0 <= i < j < |path|
      ensures nodes[i] != nodes[j]
    {
      if nodes[i] == nodes[j] {
        OnePath(tree, items, path[..i + 1], path[..j + 1]);
      }
    }
    NoLonger(nodes, items);
  }

  lemma OccursIffAnchored(tree: seq<MenuItem>, items: seq<MenuItem>, x: MenuItem)
    requires UniqueNames(items) && Linked(tree, items) && x in items
    ensures Anchored(items, x) <==> Occurs(tree, items, x)
  {
    hide NodeAt, Linked, UniqueNames, AnchoredWithin;
    if Anchored(items, x) {
      var k :| AnchoredWithin(items, x, k);
      var path := AnchoredIsReached(tree, items, x, k);
      assert NodeAt(tree, items, path) == Some(x);
    }
    if Occurs(tree, items, x) {
      var path :| NodeAt(tree, items, path) == Some(x);
      ReachedIsAnchored(tree, items, path);
      assert Anchored(items, x);
    }
  }

  /** The forest theorem: an item occurs below the returned roots, at exactly one place, if it and
      all its ancestors exist and are visible and their chain ends at a parentless item; any
      other item does not occur; and no path is longer than the list of items. */
  lemma Forest(tree: seq<MenuItem>, items: seq<MenuItem>)
    requires UniqueNames(items) && Linked(tree, items)
    ensures forall x :: x in items ==> (Occurs(tree, items, x) <==> Anchored(items, x))
    ensures forall p, q :: NodeAt(tree, items, p).Some? && NodeAt(tree, items, p) == NodeAt(tree, items, q) ==> p == q
    ensures forall p :: NodeAt(tree, items, p).Some? ==> NodeAt(tree, items, p).value in items && |p| <= |items|
  {
    hide NodeAt, Below, Linked, UniqueNames, AnchoredWithin;
    forall x | x in items
      ensures Anchored(items, x) <==> Occurs(tree, items, x)
    {
      OccursIffAnchored(tree, items, x);
    }
    forall p, q | NodeAt(tree, items, p).Some? && NodeAt(tree, items, p) == NodeAt(tree, items, q)
      ensures p == q
    {
      OnePath(tree, items, p, q);
    }
    forall p | NodeAt(tree, items, p).Some?
      ensures NodeAt(tree, items, p).value in items && |p| <= |items|
    {
      NodeFacts(tree, items, p);
      PathBounded(tree, items, p);
    }
  }

  /** Siblings appear in descending priority, equal priorities in the order of the items. */
  lemma SiblingsSorted(tree: seq<MenuItem>, items: seq<MenuItem>, x: MenuItem)
    requires Linked(tree, items) && x in items
    ensures IsStableSort(x.children, ChildrenIn(items, x.config.name))
    ensures IsStableSort(tree, RootsIn(items))
  {
    StableSortIs(ChildrenIn(items, x.config.name));
    StableSortIs(RootsIn(items));
  }
}
