/** The menu that buildTree of packages/app/src/utils/dynamicUI/extractDynamicConfigFrontend.ts
    returns, described by the list of items that goes into it. */
module MenuInput {
  import opened Wrappers
  import opened Sequences
  import opened MenuTree
  import opened MenuForest

  // ----- The properties of a merged item

  function TitleIn(c: ItemConfig): Prop<string> { c.title }
  function TitleKeyIn(c: ItemConfig): Prop<string> { c.titleKey }
  function IconIn(c: ItemConfig): Prop<string> { c.icon }
  function ToIn(c: ItemConfig): Prop<string> { c.to }
  function PriorityIn(c: ItemConfig): Prop<real> { c.priority }
  function ParentIn(c: ItemConfig): Prop<string> { c.parent }
  function EnabledIn(c: ItemConfig): Prop<bool> { c.enabled }

  /** The last item of the name that has the property, be it as `undefined`, gives its value; if none
      has it, it is absent. */
  ghost predicate LastGiven<T(!new)>(items: seq<ItemConfig>, name: string, property: ItemConfig -> Prop<T>,
                                     value: Prop<T>)
  {
    if value.Absent? then forall i :: 0 <= i < |items| && items[i].name == name ==> property(items[i]).Absent?
    else exists i :: LastGivenAt(items, name, property, i) && property(items[i]) == value
  }

  ghost predicate LastGivenAt<T(!new)>(items: seq<ItemConfig>, name: string, property: ItemConfig -> Prop<T>, i: int) {
    && 0 <= i < |items| && items[i].name == name && !property(items[i]).Absent?
    && forall k :: i < k < |items| && items[k].name == name ==> property(items[k]).Absent?
  }

  ghost predicate Occurring(items: seq<ItemConfig>, name: string) {
    exists i :: 0 <= i < |items| && items[i].name == name
  }

  /** The item with each property as it was last given for the name. */
  ghost predicate Latest(items: seq<ItemConfig>, c: ItemConfig) {
    && Occurring(items, c.name)
    && LastGiven(items, c.name, TitleIn, c.title) && LastGiven(items, c.name, TitleKeyIn, c.titleKey)
    && LastGiven(items, c.name, IconIn, c.icon) && LastGiven(items, c.name, ToIn, c.to)
    && LastGiven(items, c.name, PriorityIn, c.priority) && LastGiven(items, c.name, ParentIn, c.parent)
    && LastGiven(items, c.name, EnabledIn, c.enabled)
  }

  lemma LastGivenUnique<T(!new)>(items: seq<ItemConfig>, name: string, property: ItemConfig -> Prop<T>,
                                 v: Prop<T>, w: Prop<T>)
    requires LastGiven(items, name, property, v) && LastGiven(items, name, property, w)
    ensures v == w
  {
    if !v.Absent? {
      var i :| LastGivenAt(items, name, property, i) && property(items[i]) == v;
      if !w.Absent? {
        var j :| LastGivenAt(items, name, property, j) && property(items[j]) == w;
        assert i == j;
      }
    }
  }

  /** One more item, of this name or of another one. */
  lemma GivenStep<T(!new)>(front: seq<ItemConfig>, last: ItemConfig, name: string, property: ItemConfig -> Prop<T>,
                           v: Prop<T>)
    requires LastGiven(front, name, property, v)
    ensures LastGiven(front + [last], name, property,
                      if last.name != name || property(last).Absent? then v else property(last))
  {
    var items := front + [last];
    assert items[|front|] == last && forall k :: 0 <= k < |front| ==> items[k] == front[k];
    if last.name == name && !property(last).Absent? {
      assert LastGivenAt(items, name, property, |front|);
    } else if !v.Absent? {
      var i :| LastGivenAt(front, name, property, i) && property(front[i]) == v;
      assert LastGivenAt(items, name, property, i) && property(items[i]) == v;
    }
  }

  lemma NeverGiven<T(!new)>(items: seq<ItemConfig>, name: string, property: ItemConfig -> Prop<T>)
    requires !Occurring(items, name)
    ensures LastGiven(items, name, property, Absent)
  {
  }

  lemma {:induction false} SpreadIsLatest(items: seq<ItemConfig>, name: string)
    requires SpreadOf(items, name).Some?
    ensures Latest(items, SpreadOf(items, name).value)
  {
    hide LastGiven;
    var front, last := items[..|items| - 1], items[|items| - 1];
    assert items == front + [last];
    if SpreadOf(front, name).Some? {
      var c := SpreadOf(front, name).value;
      SpreadIsLatest(front, name);
      var i :| 0 <= i < |front| && front[i].name == name;
      assert items[i].name == name;
      LatestStep(front, last, c);
    } else {
      assert items[|front|].name == name;
      LatestFirst(front, last);
    }
  }

  lemma LatestStep(front: seq<ItemConfig>, last: ItemConfig, c: ItemConfig)
    requires Latest(front, c)
    requires Occurring(front + [last], c.name)
    ensures Latest(front + [last], if last.name == c.name then Spread(c, last) else c)
  {
    hide LastGiven;
    GivenStep(front, last, c.name, TitleIn, c.title);
    GivenStep(front, last, c.name, TitleKeyIn, c.titleKey);
    GivenStep(front, last, c.name, IconIn, c.icon);
    GivenStep(front, last, c.name, ToIn, c.to);
    GivenStep(front, last, c.name, PriorityIn, c.priority);
    GivenStep(front, last, c.name, ParentIn, c.parent);
    GivenStep(front, last, c.name, EnabledIn, c.enabled);
  }

  lemma FirstGiven<T(!new)>(front: seq<ItemConfig>, last: ItemConfig, property: ItemConfig -> Prop<T>)
    requires !Occurring(front, last.name)
    ensures LastGiven(front + [last], last.name, property, property(last))
  {
    NeverGiven(front, last.name, property);
    GivenStep(front, last, last.name, property, Absent);
  }

  lemma LatestFirst(front: seq<ItemConfig>, last: ItemConfig)
    requires !Occurring(front, last.name) && Occurring(front + [last], last.name)
    ensures Latest(front + [last], last)
  {
    hide LastGiven;
    FirstGiven(front, last, TitleIn);
    FirstGiven(front, last, TitleKeyIn);
    FirstGiven(front, last, IconIn);
    FirstGiven(front, last, ToIn);
    FirstGiven(front, last, PriorityIn);
    FirstGiven(front, last, ParentIn);
    FirstGiven(front, last, EnabledIn);
  }

  /** Merging gives each name that occurs one item, and in it each property has the value that the
      last item of the name gives it. */
  lemma MergedAreLatest(items: seq<ItemConfig>)
    ensures DistinctNames(MergedItems(items))
    ensures forall c :: c in MergedItems(items) <==> Latest(items, c)
    ensures forall name :: Occurring(items, name) ==> exists c :: c in MergedItems(items) && c.name == name
  {
    hide MergedItems, LastGiven, SpreadOf;
    MergedItemsAre(items);
    forall c
      ensures c in MergedItems(items) <==> Latest(items, c)
    {
      if SpreadOf(items, c.name).Some? {
        SpreadIsLatest(items, c.name);
        if Latest(items, c) {
          LatestUnique(items, c, SpreadOf(items, c.name).value);
        }
      }
    }
    forall name | Occurring(items, name)
      ensures exists c :: c in MergedItems(items) && c.name == name
    {
      assert SpreadOf(items, name).value in MergedItems(items);
    }
  }

  lemma LatestUnique(items: seq<ItemConfig>, c: ItemConfig, d: ItemConfig)
    requires Latest(items, c) && Latest(items, d) && c.name == d.name
    ensures c == d
  {
    hide LastGiven;
    LastGivenUnique(items, c.name, TitleIn, c.title, d.title);
    LastGivenUnique(items, c.name, TitleKeyIn, c.titleKey, d.titleKey);
    LastGivenUnique(items, c.name, IconIn, c.icon, d.icon);
    LastGivenUnique(items, c.name, ToIn, c.to, d.to);
    LastGivenUnique(items, c.name, PriorityIn, c.priority, d.priority);
    LastGivenUnique(items, c.name, ParentIn, c.parent, d.parent);
    LastGivenUnique(items, c.name, EnabledIn, c.enabled, d.enabled);
  }

  // ----- Which items the menu shows

  /** The name is given a title, last not an empty one, and is not disabled last. */
  ghost predicate Shown(menuItems: seq<ItemConfig>, name: string) {
    && (exists title :: title != "" && LastGiven(menuItems, name, TitleIn, Value(title)))
    && !LastGiven(menuItems, name, EnabledIn, Value(false))
  }

  ghost predicate HasParent(menuItems: seq<ItemConfig>, name: string, parent: string) {
    parent != "" && LastGiven(menuItems, name, ParentIn, Value(parent))
  }

  ghost predicate Parentless(menuItems: seq<ItemConfig>, name: string) {
    forall parent :: !HasParent(menuItems, name, parent)
  }

  /** From the first name up, through shown items, to one without parent. */
  ghost predicate LeadsUp(menuItems: seq<ItemConfig>, chain: seq<string>) {
    && chain != [] && (forall i :: 0 <= i < |chain| ==> Shown(menuItems, chain[i]))
    && (forall i :: 0 <= i < |chain| - 1 ==> HasParent(menuItems, chain[i], chain[i + 1]))
    && Parentless(menuItems, chain[|chain| - 1])
  }

  /** What buildTree promises: `items` are the objects of the merged items, linked below the roots
      in `tree`. */
  ghost predicate IsMenu(menuItems: seq<ItemConfig>, tree: seq<MenuItem>, items: seq<MenuItem>)
    reads items
  {
    Configs(items) == MergedItems(menuItems) && UniqueNames(items) && Linked(tree, items)
  }

  lemma ItemIsLatest(menuItems: seq<ItemConfig>, items: seq<MenuItem>, x: MenuItem)
    requires Configs(items) == MergedItems(menuItems) && x in items
    ensures Latest(menuItems, x.config)
  {
    hide MergedItems, LastGiven;
    MergedAreLatest(menuItems);
    var k :| 0 <= k < |items| && items[k] == x;
    assert Configs(items)[k] == x.config;
  }

  lemma ItemMeans(menuItems: seq<ItemConfig>, items: seq<MenuItem>, x: MenuItem)
    requires Configs(items) == MergedItems(menuItems) && x in items
    ensures Visible(x.config) <==> Shown(menuItems, x.config.name)
    ensures forall parent :: ParentOf(x.config) == Some(parent) <==> HasParent(menuItems, x.config.name, parent)
  {
    hide MergedItems, LastGiven;
    var c := x.config;
    ItemIsLatest(menuItems, items, x);
    forall title | LastGiven(menuItems, c.name, TitleIn, Value(title)) ensures c.title == Value(title) {
      LastGivenUnique(menuItems, c.name, TitleIn, c.title, Value(title));
    }
    forall parent | LastGiven(menuItems, c.name, ParentIn, Value(parent)) ensures c.parent == Value(parent) {
      LastGivenUnique(menuItems, c.name, ParentIn, c.parent, Value(parent));
    }
    if LastGiven(menuItems, c.name, EnabledIn, Value(false)) {
      LastGivenUnique(menuItems, c.name, EnabledIn, c.enabled, Value(false));
    }
  }

  lemma GivenOccurs<T(!new)>(menuItems: seq<ItemConfig>, name: string, property: ItemConfig -> Prop<T>, value: Prop<T>)
    requires LastGiven(menuItems, name, property, value) && !value.Absent?
    ensures Occurring(menuItems, name)
  {
  }

  lemma ShownHasItem(menuItems: seq<ItemConfig>, items: seq<MenuItem>, name: string) returns (x: MenuItem)
    requires Configs(items) == MergedItems(menuItems) && Shown(menuItems, name)
    ensures x in items && x.config.name == name
  {
    hide MergedItems, LastGiven;
    var title :| title != "" && LastGiven(menuItems, name, TitleIn, Value(title));
    GivenOccurs(menuItems, name, TitleIn, Value(title));
    MergedAreLatest(menuItems);
    var c :| c in MergedItems(menuItems) && c.name == name;
    var k :| 0 <= k < |Configs(items)| && Configs(items)[k] == c;
    x := items[k];
  }

  lemma {:induction false} ChainOf(menuItems: seq<ItemConfig>, items: seq<MenuItem>, x: MenuItem, k: nat)
    returns (chain: seq<string>)
    requires Configs(items) == MergedItems(menuItems) && x in items && AnchoredWithin(items, x, k)
    ensures LeadsUp(menuItems, chain) && chain[0] == x.config.name
    decreases k
  {
    hide MergedItems, Shown, HasParent, Visible, ParentOf;
    ItemMeans(menuItems, items, x);
    match ParentOf(x.config) {
      case None => chain := [x.config.name];
      case Some(name) =>
        var p :| p in items && p.config.name == name && AnchoredWithin(items, p, k - 1);
        var above := ChainOf(menuItems, items, p, k - 1);
        chain := [x.config.name] + above;
    }
  }

  lemma {:induction false} ChainAnchors(menuItems: seq<ItemConfig>, items: seq<MenuItem>, x: MenuItem,
                                        chain: seq<string>)
    requires Configs(items) == MergedItems(menuItems) && UniqueNames(items) && x in items
    requires LeadsUp(menuItems, chain) && chain[0] == x.config.name
    ensures AnchoredWithin(items, x, |chain| - 1)
    decreases |chain|
  {
    hide MergedItems, Shown, HasParent, Visible, ParentOf;
    ItemMeans(menuItems, items, x);
    if |chain| > 1 {
      assert HasParent(menuItems, chain[0], chain[0 + 1]);
      var p := ShownHasItem(menuItems, items, chain[1]);
      ChainAnchors(menuItems, items, p, chain[1..]);
    }
  }

  /** An item is in the menu exactly if a chain of shown items leads from it up to a parentless
      one. */
  lemma InMenuExactly(menuItems: seq<ItemConfig>, tree: seq<MenuItem>, items: seq<MenuItem>, x: MenuItem)
    requires IsMenu(menuItems, tree, items) && x in items
    ensures Occurs(tree, items, x) <==> exists chain :: LeadsUp(menuItems, chain) && chain[0] == x.config.name
  {
    hide MergedItems, Shown, HasParent, Parentless, AnchoredWithin, Occurs, Linked;
    Forest(tree, items);
    if Anchored(items, x) {
      var k :| AnchoredWithin(items, x, k);
      var chain := ChainOf(menuItems, items, x, k);
    }
    if chain :| LeadsUp(menuItems, chain) && chain[0] == x.config.name {
      ChainAnchors(menuItems, items, x, chain);
    }
  }

  // ----- The order of siblings

  /** The priority last given for the name, or zero. */
  ghost predicate HasPriority(menuItems: seq<ItemConfig>, name: string, p: real) {
    || LastGiven(menuItems, name, PriorityIn, Value(p))
    || (p == 0.0 && forall q :: !LastGiven(menuItems, name, PriorityIn, Value(q)))
  }

  ghost predicate FirstAt(menuItems: seq<ItemConfig>, name: string, i: int) {
    0 <= i < |menuItems| && menuItems[i].name == name && forall k :: 0 <= k < i ==> menuItems[k].name != name
  }

  /** The first name has the higher priority, or the same and occurs earlier. */
  ghost predicate Precedes(menuItems: seq<ItemConfig>, name: string, name': string) {
    exists p, p', i, j ::
      && HasPriority(menuItems, name, p) && HasPriority(menuItems, name', p')
      && FirstAt(menuItems, name, i) && FirstAt(menuItems, name', j)
      && (p > p' || (p == p' && i < j))
  }

  ghost predicate InOrder(list: seq<MenuItem>, items: seq<MenuItem>) {
    forall a, b :: 0 <= a < b < |list| ==> OccurInOrder(items, list[a], list[b])
  }

  ghost predicate OccurInOrder(items: seq<MenuItem>, x: MenuItem, y: MenuItem) {
    exists k, l :: 0 <= k < l < |items| && items[k] == x && items[l] == y
  }

  lemma OneMoreInOrder(list: seq<MenuItem>, last: MenuItem, front: seq<MenuItem>)
    requires InOrder(list, front) && forall x :: x in list ==> x in front
    ensures InOrder(list, front + [last]) && InOrder(list + [last], front + [last])
  {
    var items, longer := front + [last], list + [last];
    forall a, b | 0 <= a < b < |longer|
      ensures OccurInOrder(items, longer[a], longer[b])
    {
      if b < |list| {
        assert OccurInOrder(front, list[a], list[b]);
        var k, l :| 0 <= k < l < |front| && front[k] == list[a] && front[l] == list[b];
        assert items[k] == list[a] && items[l] == list[b];
      } else {
        assert list[a] in front;
        var k :| 0 <= k < |front| && front[k] == list[a];
        assert items[k] == list[a] && items[|front|] == last;
      }
    }
    forall a, b | 0 <= a < b < |list|
      ensures OccurInOrder(items, list[a], list[b])
    {
      assert longer[a] == list[a] && longer[b] == list[b];
    }
  }

  lemma {:induction false} ChosenInOrder(items: seq<MenuItem>, name: string)
    ensures InOrder(ChildrenIn(items, name), items) && InOrder(RootsIn(items), items)
  {
    if items != [] {
      var front, last := items[..|items| - 1], items[|items| - 1];
      assert items == front + [last];
      ChosenInOrder(front, name);
      OneMoreInOrder(ChildrenIn(front, name), last, front);
      OneMoreInOrder(RootsIn(front), last, front);
      assert ChildrenIn(front, name) + [] == ChildrenIn(front, name) && RootsIn(front) + [] == RootsIn(front);
    }
  }

  lemma {:induction false} OfPriorityInOrder(list: seq<MenuItem>, p: real)
    ensures InOrder(OfPriority(list, p), list)
    ensures forall x :: x in OfPriority(list, p) ==> x in list
  {
    if list != [] {
      var front, last := list[..|list| - 1], list[|list| - 1];
      assert list == front + [last];
      OfPriorityInOrder(front, p);
      OneMoreInOrder(OfPriority(front, p), last, front);
      assert OfPriority(front, p) + [] == OfPriority(front, p);
    }
  }

  lemma {:induction false} OfPriorityHas(list: seq<MenuItem>, a: nat, p: real)
    requires a < |list| && Priority(list[a].config) == p
    ensures list[a] in OfPriority(list, p)
  {
    if a < |list| - 1 {
      OfPriorityHas(list[..|list| - 1], a, p);
    }
  }

  /** Two items of one priority keep their order. */
  lemma {:induction false} OfPriorityKeeps(list: seq<MenuItem>, a: nat, b: nat, p: real)
    requires a < b < |list| && Priority(list[a].config) == p == Priority(list[b].config)
    ensures OccurInOrder(OfPriority(list, p), list[a], list[b])
  {
    var front := list[..|list| - 1];
    var chosen := OfPriority(front, p);
    if b < |list| - 1 {
      OfPriorityKeeps(front, a, b, p);
      var k, l :| 0 <= k < l < |chosen| && chosen[k] == list[a] && chosen[l] == list[b];
      assert OfPriority(list, p)[k] == list[a] && OfPriority(list, p)[l] == list[b];
    } else {
      OfPriorityHas(front, a, p);
      var k :| 0 <= k < |chosen| && chosen[k] == list[a];
      assert OfPriority(list, p)[k] == list[a] && OfPriority(list, p)[|chosen|] == list[b];
    }
  }

  lemma SortedInOrder(sorted: seq<MenuItem>, chosen: seq<MenuItem>, items: seq<MenuItem>, a: nat, b: nat)
    requires IsStableSort(sorted, chosen) && InOrder(chosen, items) && a < b < |sorted|
    ensures Priority(sorted[a].config) >= Priority(sorted[b].config)
    ensures Priority(sorted[a].config) == Priority(sorted[b].config) ==> OccurInOrder(items, sorted[a], sorted[b])
  {
    assert Before(sorted[a], sorted[b]);
    var p := Priority(sorted[a].config);
    if p == Priority(sorted[b].config) {
      OfPriorityKeeps(sorted, a, b, p);
      OfPriorityInOrder(chosen, p);
      var t := OfPriority(chosen, p);
      var k, l :| 0 <= k < l < |t| && t[k] == sorted[a] && t[l] == sorted[b];
      assert OccurInOrder(chosen, t[k], t[l]);
      var u, v :| 0 <= u < v < |chosen| && chosen[u] == t[k] && chosen[v] == t[l];
      assert OccurInOrder(items, chosen[u], chosen[v]);
    }
  }

  lemma {:induction false} MergedFirst(menuItems: seq<ItemConfig>, k: nat, l: nat)
    requires k < l < |MergedItems(menuItems)|
    ensures exists i, j :: i < j && FirstAt(menuItems, MergedItems(menuItems)[k].name, i)
                           && FirstAt(menuItems, MergedItems(menuItems)[l].name, j)
  {
    hide MergedItems, FirstAt;
    MergedStep(menuItems);
    var front, last := menuItems[..|menuItems| - 1], menuItems[|menuItems| - 1];
    var m := MergedItems(front);
    if l < |m| {
      MergedFirst(front, k, l);
      var i, j :| i < j && FirstAt(front, m[k].name, i) && FirstAt(front, m[l].name, j);
      FirstStays(front, last, m[k].name, i);
      FirstStays(front, last, m[l].name, j);
    } else {
      var i := MergedOccurs(front, k);
      FirstStays(front, last, m[k].name, i);
      LastIsNew(front, last);
      assert i < |front| by { FirstInside(front, m[k].name, i); }
    }
  }

  /** The last item either joins the item of its name or comes at the end. */
  lemma MergedStep(menuItems: seq<ItemConfig>)
    requires MergedItems(menuItems) != []
    ensures menuItems != []
    ensures var front, last := menuItems[..|menuItems| - 1], menuItems[|menuItems| - 1];
            var m, r := MergedItems(front), MergedItems(menuItems);
            && menuItems == front + [last]
            && |m| <= |r| <= |m| + 1
            && (forall k :: 0 <= k < |m| ==> r[k].name == m[k].name)
            && (|m| < |r| ==> r[|m|].name == last.name && IndexOf(m, last.name).None?)
  {
    hide IndexOf;
  }

  lemma FirstStays(front: seq<ItemConfig>, last: ItemConfig, name: string, i: int)
    requires FirstAt(front, name, i)
    ensures FirstAt(front + [last], name, i)
  {
  }

  lemma FirstInside(menuItems: seq<ItemConfig>, name: string, i: int)
    requires FirstAt(menuItems, name, i)
    ensures i < |menuItems|
  {
  }

  lemma MergedOccurs(menuItems: seq<ItemConfig>, k: nat) returns (i: nat)
    requires k < |MergedItems(menuItems)|
    ensures FirstAt(menuItems, MergedItems(menuItems)[k].name, i)
  {
    hide LastGiven, MergedItems;
    MergedAreLatest(menuItems);
    var name := MergedItems(menuItems)[k].name;
    assert MergedItems(menuItems)[k] in MergedItems(menuItems);
    i := FirstOf(menuItems, name);
  }

  lemma {:induction false} FirstOf(menuItems: seq<ItemConfig>, name: string) returns (i: nat)
    requires Occurring(menuItems, name)
    ensures FirstAt(menuItems, name, i)
  {
    var front := menuItems[..|menuItems| - 1];
    if Occurring(front, name) {
      i := FirstOf(front, name);
    } else {
      i := |front|;
      assert forall k :: 0 <= k < |front| ==> front[k] == menuItems[k];
    }
  }

  lemma LastIsNew(front: seq<ItemConfig>, last: ItemConfig)
    requires IndexOf(MergedItems(front), last.name).None?
    ensures FirstAt(front + [last], last.name, |front|)
  {
    hide LastGiven, MergedItems;
    MergedAreLatest(front);
    assert forall c :: c in MergedItems(front) ==> c.name != last.name;
    assert !Occurring(front, last.name);
  }

  /** Siblings stand in the order of their priorities, and of their first occurrence in the list where
      priorities are equal. */
  ghost predicate Ordered(menuItems: seq<ItemConfig>, siblings: seq<MenuItem>) {
    forall a, b :: 0 <= a < b < |siblings| ==> Precedes(menuItems, siblings[a].config.name, siblings[b].config.name)
  }

  lemma PriorityIs(menuItems: seq<ItemConfig>, items: seq<MenuItem>, x: MenuItem)
    requires Configs(items) == MergedItems(menuItems) && x in items
    ensures HasPriority(menuItems, x.config.name, Priority(x.config))
  {
    hide LastGiven, MergedItems;
    ItemIsLatest(menuItems, items, x);
    var c := x.config;
    forall q | LastGiven(menuItems, c.name, PriorityIn, Value(q)) ensures c.priority == Value(q) {
      LastGivenUnique(menuItems, c.name, PriorityIn, c.priority, Value(q));
    }
  }

  lemma StableSortOrdered(menuItems: seq<ItemConfig>, items: seq<MenuItem>, chosen: seq<MenuItem>)
    requires Configs(items) == MergedItems(menuItems) && InOrder(chosen, items)
    requires forall x :: x in chosen ==> x in items
    ensures Ordered(menuItems, StableSort(chosen))
  {
    hide MergedItems, StableSort, HasPriority, FirstAt, InOrder, IsStableSort;
    StableSortIs(chosen);
    var s := StableSort(chosen);
    forall a, b | 0 <= a < b < |s|
      ensures Precedes(menuItems, s[a].config.name, s[b].config.name)
    {
      assert s[a] in multiset(s) && s[b] in multiset(s);
      SortedInOrder(s, chosen, items, a, b);
      ItemsPrecede(menuItems, items, s[a], s[b]);
    }
  }

  lemma ItemsPrecede(menuItems: seq<ItemConfig>, items: seq<MenuItem>, x: MenuItem, y: MenuItem)
    requires Configs(items) == MergedItems(menuItems) && x in items && y in items
    requires Priority(x.config) >= Priority(y.config)
    requires Priority(x.config) == Priority(y.config) ==> OccurInOrder(items, x, y)
    ensures Precedes(menuItems, x.config.name, y.config.name)
  {
    hide MergedItems, HasPriority, FirstAt;
    PriorityIs(menuItems, items, x);
    PriorityIs(menuItems, items, y);
    if Priority(x.config) == Priority(y.config) {
      var k, l :| 0 <= k < l < |items| && items[k] == x && items[l] == y;
      assert Configs(items)[k] == x.config && Configs(items)[l] == y.config;
      MergedFirst(menuItems, k, l);
    } else {
      var k :| 0 <= k < |items| && items[k] == x;
      var l :| 0 <= l < |items| && items[l] == y;
      assert Configs(items)[k] == x.config && Configs(items)[l] == y.config;
      var i := MergedOccurs(menuItems, k);
      var j := MergedOccurs(menuItems, l);
    }
  }

  /** The children of an item are exactly the shown items whose parent it is, and the roots exactly the
      shown items without parent, each list in order and, names being distinct, without repeats. */
  lemma SiblingsExactly(menuItems: seq<ItemConfig>, tree: seq<MenuItem>, items: seq<MenuItem>, x: MenuItem)
    requires IsMenu(menuItems, tree, items) && x in items
    ensures forall y :: y in x.children <==>
              y in items && Shown(menuItems, y.config.name) && HasParent(menuItems, y.config.name, x.config.name)
    ensures forall y :: y in tree <==>
              y in items && Shown(menuItems, y.config.name) && Parentless(menuItems, y.config.name)
    ensures Ordered(menuItems, x.children) && Ordered(menuItems, tree)
  {
    hide MergedItems, Shown, HasParent, Visible, ParentOf, StableSort, Ordered, InOrder, UniqueNames;
    var name := x.config.name;
    ChosenInOrder(items, name);
    StableSortOrdered(menuItems, items, ChildrenIn(items, name));
    StableSortOrdered(menuItems, items, RootsIn(items));
    forall y | y in items
      ensures IsChildOf(y, name) <==> Shown(menuItems, y.config.name) && HasParent(menuItems, y.config.name, name)
      ensures IsRoot(y) <==> Shown(menuItems, y.config.name) && Parentless(menuItems, y.config.name)
    {
      ItemMeans(menuItems, items, y);
    }
    SortKeepsMembers(ChildrenIn(items, name));
    SortKeepsMembers(RootsIn(items));
  }

  lemma SortKeepsMembers(chosen: seq<MenuItem>)
    ensures forall y :: y in StableSort(chosen) <==> y in chosen
  {
    StableSortIs(chosen);
    SameMembers(StableSort(chosen), chosen);
  }
}
