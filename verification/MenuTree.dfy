/** buildTree of packages/app/src/utils/dynamicUI/extractDynamicConfigFrontend.ts: menu items are
    merged by name and linked into a graph of mutable objects. */
module MenuTree {
  import opened Wrappers

  /** A property of a JavaScript object; a present `undefined` still overwrites when spread. */
  datatype Prop<T> = Absent | Undefined | Value(value: T)

  datatype ItemConfig = ItemConfig(
    name: string,
    title: Prop<string>, titleKey: Prop<string>, icon: Prop<string>, to: Prop<string>,
    priority: Prop<real>, parent: Prop<string>, enabled: Prop<bool>)

  function Over<T>(a: Prop<T>, b: Prop<T>): Prop<T> {
    if b.Absent? then a else b
  }

  /** `{ ...a, ...b }` */
  function Spread(a: ItemConfig, b: ItemConfig): ItemConfig {
    ItemConfig(b.name, Over(a.title, b.title), Over(a.titleKey, b.titleKey), Over(a.icon, b.icon), Over(a.to, b.to),
               Over(a.priority, b.priority), Over(a.parent, b.parent), Over(a.enabled, b.enabled))
  }

  /** `item.enabled !== false && item.title` */
  predicate Visible(c: ItemConfig) {
    c.enabled != Value(false) && c.title.Value? && c.title.value != ""
  }

  /** The parent's name, where it is truthy. */
  function ParentOf(c: ItemConfig): Option<string> {
    if c.parent.Value? && c.parent.value != "" then Some(c.parent.value) else None
  }

  /** `priority ?? 0` */
  function Priority(c: ItemConfig): real {
    if c.priority.Value? then c.priority.value else 0.0
  }

  /** A menu item.  What it was built from never changes; its children do. */
  class MenuItem {
    const config: ItemConfig
    var children: seq<MenuItem>

    constructor (config: ItemConfig)
      ensures this.config == config && children == []
    {
      this.config, children := config, [];
    }
  }

  function Configs(items: seq<MenuItem>): seq<ItemConfig> {
    seq(|items|, i requires 0 <= i < |items| => items[i].config)
  }

  // ----- Stable sorting by descending priority

  /** compareMenuItems(a, b) <= 0 */
  predicate Before(a: MenuItem, b: MenuItem) {
    Priority(a.config) >= Priority(b.config)
  }

  function InsertItem(sorted: seq<MenuItem>, x: MenuItem): seq<MenuItem> {
    if sorted == [] then [x]
    else if Before(sorted[|sorted| - 1], x) then sorted + [x]
    else InsertItem(sorted[..|sorted| - 1], x) + [sorted[|sorted| - 1]]
  }

  /** `items.sort(compareMenuItems)` */
  function StableSort(items: seq<MenuItem>): seq<MenuItem> {
    if items == [] then [] else InsertItem(StableSort(items[..|items| - 1]), items[|items| - 1])
  }

  ghost predicate Sorted(items: seq<MenuItem>) {
    forall i, j :: 0 <= i < j < |items| ==> Before(items[i], items[j])
  }

  /** The items of one priority, in order. */
  function OfPriority(items: seq<MenuItem>, p: real): seq<MenuItem> {
    if items == [] then [] else
    OfPriority(items[..|items| - 1], p)
    + if Priority(items[|items| - 1].config) == p then [items[|items| - 1]] else []
  }

  /** What a stable sort promises: descending priorities, and per priority the given order. */
  ghost predicate IsStableSort(sorted: seq<MenuItem>, items: seq<MenuItem>) {
    Sorted(sorted) && forall p :: OfPriority(sorted, p) == OfPriority(items, p)
  }

  lemma {:induction false} InsertKeepsItems(sorted: seq<MenuItem>, x: MenuItem)
    ensures multiset(InsertItem(sorted, x)) == multiset(sorted) + multiset{x}
  {
    if sorted != [] && !Before(sorted[|sorted| - 1], x) {
      InsertKeepsItems(sorted[..|sorted| - 1], x);
      assert sorted == sorted[..|sorted| - 1] + [sorted[|sorted| - 1]];
    }
  }

  lemma {:induction false} InsertSorts(sorted: seq<MenuItem>, x: MenuItem)
    requires Sorted(sorted)
    ensures Sorted(InsertItem(sorted, x))
  {
    if sorted != [] && !Before(sorted[|sorted| - 1], x) {
      var front, last := sorted[..|sorted| - 1], sorted[|sorted| - 1];
      InsertSorts(front, x);
      InsertKeepsItems(front, x);
      var t := InsertItem(front, x);
      forall i | 0 <= i < |t|
        ensures Before(t[i], last)
      {
        if t[i] != x {
          assert t[i] in multiset(t) && t[i] in multiset(front);
          var j :| 0 <= j < |front| && front[j] == t[i];
          assert Before(sorted[j], sorted[|sorted| - 1]);
        }
      }
    }
  }

  lemma {:induction false} InsertKeepsOrder(sorted: seq<MenuItem>, x: MenuItem, p: real)
    ensures OfPriority(InsertItem(sorted, x), p) == OfPriority(sorted + [x], p)
  {
    if sorted != [] && !Before(sorted[|sorted| - 1], x) {
      var front, last := sorted[..|sorted| - 1], sorted[|sorted| - 1];
      assert sorted == front + [last];
      InsertKeepsOrder(front, x, p);
      OfPriorityLast(InsertItem(front, x), last, p);
      OfPriorityLast(front, x, p);
      OfPriorityLast(front, last, p);
      OfPriorityLast(sorted, x, p);
    } else {
      assert sorted + [x] == InsertItem(sorted, x);
    }
  }

  lemma OfPriorityLast(items: seq<MenuItem>, x: MenuItem, p: real)
    ensures OfPriority(items + [x], p) == OfPriority(items, p) + if Priority(x.config) == p then [x] else []
  {
    assert (items + [x])[..|items|] == items;
  }

  lemma {:induction false} StableSortIs(items: seq<MenuItem>)
    ensures IsStableSort(StableSort(items), items)
    ensures multiset(StableSort(items)) == multiset(items)
  {
    if items != [] {
      var front, x := items[..|items| - 1], items[|items| - 1];
      assert items == front + [x];
      StableSortIs(front);
      InsertSorts(StableSort(front), x);
      InsertKeepsItems(StableSort(front), x);
      forall p
        ensures OfPriority(StableSort(items), p) == OfPriority(items, p)
      {
        InsertKeepsOrder(StableSort(front), x, p);
        OfPriorityLast(StableSort(front), x, p);
        OfPriorityLast(front, x, p);
      }
    }
  }

  /** There is only one stable sort of a list, so it does not matter how the library computes it. */
  lemma StableSortUnique(s: seq<MenuItem>, t: seq<MenuItem>, items: seq<MenuItem>)
    requires IsStableSort(s, items) && IsStableSort(t, items)
    ensures s == t
  {
    SortedListsEqual(s, t) by {
      forall p ensures OfPriority(s, p) == OfPriority(t, p) {
        assert OfPriority(s, p) == OfPriority(items, p);
      }
    }
  }

  lemma {:induction false} SortedListsEqual(s: seq<MenuItem>, t: seq<MenuItem>)
    requires Sorted(s) && Sorted(t)
    requires forall p :: OfPriority(s, p) == OfPriority(t, p)
    ensures s == t
    decreases |s|
  {
    if s == [] || t == [] {
      if s == [] {
        EmptyIfNoneOfPriority(s, t);
      } else {
        EmptyIfNoneOfPriority(t, s);
      }
    } else {
      var x, y := s[|s| - 1], t[|t| - 1];
      LastOfLowest(s, t);
      LastOfLowest(t, s);
      var p := Priority(x.config);
      assert Priority(y.config) == p;
      var s', t' := s[..|s| - 1], t[..|t| - 1];
      assert OfPriority(s', p) + [x] == OfPriority(s, p) == OfPriority(t, p) == OfPriority(t', p) + [y];
      LastEqual(OfPriority(s', p), x, OfPriority(t', p), y);
      forall r
        ensures OfPriority(s', r) == OfPriority(t', r)
      {
        if r == p {
          assert OfPriority(s', r) == OfPriority(t', r);
        } else {
          assert OfPriority(s, r) == OfPriority(s', r) + [] == OfPriority(s', r);
          assert OfPriority(t, r) == OfPriority(t', r) + [] == OfPriority(t', r);
        }
      }
      SortedListsEqual(s', t');
      assert s == s' + [x] && t == t' + [y];
    }
  }

  lemma LastEqual<T>(a: seq<T>, x: T, b: seq<T>, y: T)
    requires a + [x] == b + [y]
    ensures a == b && x == y
  {
    assert (a + [x])[|a|] == x && (b + [y])[|b|] == y;
    assert a == (a + [x])[..|a|] && b == (b + [y])[..|b|];
  }

  lemma EmptyIfNoneOfPriority(s: seq<MenuItem>, t: seq<MenuItem>)
    requires s == [] && forall p :: OfPriority(s, p) == OfPriority(t, p)
    ensures t == []
  {
    if t != [] {
      LastHasItsPriority(t);
    }
  }

  lemma LastHasItsPriority(items: seq<MenuItem>)
    requires items != []
    ensures OfPriority(items, Priority(items[|items| - 1].config)) != []
  {
  }

  /** The last item of a sorted list has the lowest priority that occurs. */
  lemma LastOfLowest(s: seq<MenuItem>, t: seq<MenuItem>)
    requires s != [] && t != [] && Sorted(t)
    requires forall p :: OfPriority(s, p) == OfPriority(t, p)
    ensures Priority(s[|s| - 1].config) >= Priority(t[|t| - 1].config)
  {
    var x := s[|s| - 1];
    var p := Priority(x.config);
    assert x in OfPriority(s, p);
    assert x in OfPriority(t, p);
    OfPriorityMembers(t, p, x);
    var i :| 0 <= i < |t| && t[i] == x;
    assert i == |t| - 1 || Before(t[i], t[|t| - 1]);
  }

  lemma {:induction false} OfPriorityMembers(items: seq<MenuItem>, p: real, x: MenuItem)
    requires x in OfPriority(items, p)
    ensures x in items
  {
    if items != [] && x in OfPriority(items[..|items| - 1], p) {
      OfPriorityMembers(items[..|items| - 1], p, x);
    }
  }

  lemma SortSorted(items: seq<MenuItem>)
    requires Sorted(items)
    ensures StableSort(items) == items
  {
    StableSortIs(items);
    StableSortUnique(StableSort(items), items, items);
  }

  /** Sorting after every push comes to the same as sorting once at the end. */
  lemma PushAndSort(items: seq<MenuItem>, x: MenuItem)
    ensures StableSort(StableSort(items) + [x]) == StableSort(items + [x])
  {
    StableSortIs(items);
    SortSorted(StableSort(items));
    assert (StableSort(items) + [x])[..|StableSort(items)|] == StableSort(items);
    assert (items + [x])[..|items|] == items;
  }

  // ----- The specification of the links

  predicate IsChildOf(x: MenuItem, name: string) {
    Visible(x.config) && ParentOf(x.config) == Some(name)
  }

  predicate IsRoot(x: MenuItem) {
    Visible(x.config) && ParentOf(x.config).None?
  }

  /** The visible items with the given parent, in the order of the items. */
  function ChildrenIn(items: seq<MenuItem>, name: string): (r: seq<MenuItem>)
    ensures forall x :: x in r ==> x in items && IsChildOf(x, name)
    ensures forall x :: x in items && IsChildOf(x, name) ==> x in r
  {
    if items == [] then [] else
    var last := items[|items| - 1];
    ChildrenIn(items[..|items| - 1], name) + if IsChildOf(last, name) then [last] else []
  }

  function RootsIn(items: seq<MenuItem>): (r: seq<MenuItem>)
    ensures forall x :: x in r ==> x in items && IsRoot(x)
    ensures forall x :: x in items && IsRoot(x) ==> x in r
  {
    if items == [] then [] else
    var last := items[|items| - 1];
    RootsIn(items[..|items| - 1]) + if IsRoot(last) then [last] else []
  }

  ghost predicate UniqueNames(items: seq<MenuItem>) {
    forall i, j :: 0 <= i < j < |items| ==> items[i].config.name != items[j].config.name
  }

  /** Every item's children are one stable sort of the visible items that name it as their
      parent, whether it is visible itself or not; the tree is one of the parentless ones. */
  ghost predicate Linked(tree: seq<MenuItem>, items: seq<MenuItem>)
    reads items
  {
    && (forall x :: x in items ==> x.children == StableSort(ChildrenIn(items, x.config.name)))
    && tree == StableSort(RootsIn(items))
  }

  // ----- Merging items of one name

  function IndexOf(merged: seq<ItemConfig>, name: string): (i: Option<nat>)
    ensures i.Some? ==> i.value < |merged| && merged[i.value].name == name
    ensures i.None? ==> forall j :: 0 <= j < |merged| ==> merged[j].name != name
  {
    if merged == [] then None
    else if merged[|merged| - 1].name == name then Some(|merged| - 1)
    else IndexOf(merged[..|merged| - 1], name)
  }

  function Upsert(merged: seq<ItemConfig>, item: ItemConfig): seq<ItemConfig> {
    match IndexOf(merged, item.name)
    case None => merged + [item]
    case Some(i) => merged[i := Spread(merged[i], item)]
  }

  /** The values of itemMap, in the order in which their names first occur. */
  function MergedItems(items: seq<ItemConfig>): seq<ItemConfig> {
    if items == [] then [] else Upsert(MergedItems(items[..|items| - 1]), items[|items| - 1])
  }

  /** All items of one name spread over each other, in order. */
  function SpreadOf(items: seq<ItemConfig>, name: string): (r: Option<ItemConfig>)
    ensures r.Some? ==> r.value.name == name
    ensures r.None? <==> forall i :: 0 <= i < |items| ==> items[i].name != name
  {
    if items == [] then None else
    var before, last := SpreadOf(items[..|items| - 1], name), items[|items| - 1];
    if last.name != name then before
    else if before.Some? then Some(Spread(before.value, last))
    else Some(last)
  }

  ghost predicate DistinctNames(configs: seq<ItemConfig>) {
    forall i, j :: 0 <= i < j < |configs| ==> configs[i].name != configs[j].name
  }

  /** Merging gives each name that occurs one item, spread from exactly the items of that name. */
  lemma {:induction false} MergedItemsAre(items: seq<ItemConfig>)
    ensures DistinctNames(MergedItems(items))
    ensures forall c :: c in MergedItems(items) <==> SpreadOf(items, c.name) == Some(c)
  {
    if items != [] {
      var front, item := items[..|items| - 1], items[|items| - 1];
      MergedItemsAre(front);
      var m, r := MergedItems(front), MergedItems(items);
      match IndexOf(m, item.name) {
        case Some(i) =>
          assert m[i] in m;
          forall c
            ensures c in r <==> (if c.name == item.name then c == r[i] else c in m)
          {
            if c in m && c.name != item.name {
              var j :| 0 <= j < |m| && m[j] == c;
              assert r[j] == c;
            }
            assert r[i] in r;
          }
        case None =>
          assert forall c :: SpreadOf(front, item.name) == Some(c) ==> c in m;
      }
    }
  }

  // ----- The loops of buildTree

  function Lookup(itemMap: seq<MenuItem>, name: string): (x: Option<MenuItem>)
    ensures x.Some? ==> x.value in itemMap && x.value.config.name == name
    ensures x.None? ==> forall y :: y in itemMap ==> y.config.name != name
  {
    if itemMap == [] then None
    else if itemMap[|itemMap| - 1].config.name == name then Some(itemMap[|itemMap| - 1])
    else Lookup(itemMap[..|itemMap| - 1], name)
  }

  /** The first loop: one object per name, without children yet.  `itemMap` holds the objects in
      the order in which their names came in. */
  method CollectItems(menuItems: seq<ItemConfig>) returns (itemMap: seq<MenuItem>)
    ensures Configs(itemMap) == MergedItems(menuItems)
    ensures forall k :: 0 <= k < |itemMap| ==> fresh(itemMap[k]) && itemMap[k].children == []
  {
    hide IndexOf, Spread;
    itemMap := [];
    for i := 0 to |menuItems|
      invariant Configs(itemMap) == MergedItems(menuItems[..i])
      invariant forall k :: 0 <= k < |itemMap| ==> fresh(itemMap[k]) && itemMap[k].children == []
    {
      assert menuItems[..i + 1][..i] == menuItems[..i];
      var item := menuItems[i];
      match IndexOf(Configs(itemMap), item.name) {
        case None =>
          var x := new MenuItem(item);
          assert Configs(itemMap + [x]) == Configs(itemMap) + [item];
          itemMap := itemMap + [x];
        case Some(k) =>
          var x := new MenuItem(Spread(itemMap[k].config, item));
          assert Configs(itemMap[k := x]) == Configs(itemMap)[k := Spread(itemMap[k].config, item)];
          itemMap := itemMap[k := x];
      }
    }
    assert menuItems[..|menuItems|] == menuItems;
  }

  lemma NoneTaken(items: seq<MenuItem>)
    ensures RootsIn(items[..0]) == [] && forall name :: StableSort(ChildrenIn(items[..0], name)) == []
  {
  }

  lemma TakeOneMore(items: seq<MenuItem>, i: nat)
    requires i < |items|
    ensures RootsIn(items[..i + 1]) ==
            if IsRoot(items[i]) then RootsIn(items[..i]) + [items[i]] else RootsIn(items[..i])
    ensures forall name :: ChildrenIn(items[..i + 1], name) ==
              if IsChildOf(items[i], name) then ChildrenIn(items[..i], name) + [items[i]]
              else ChildrenIn(items[..i], name)
  {
    assert items[..i + 1][..i] == items[..i];
  }

  lemma OnlyOneNamed(items: seq<MenuItem>, x: MenuItem)
    requires UniqueNames(items) && x in items
    ensures forall k :: 0 <= k < |items| && items[k].config.name == x.config.name ==> items[k] == x
  {
  }

  /** The second loop: every visible item goes to its parent, if there is one, or to the roots. */
  method LinkItems(itemMap: seq<MenuItem>) returns (tree: seq<MenuItem>)
    requires UniqueNames(itemMap)
    requires forall k :: 0 <= k < |itemMap| ==> itemMap[k].children == []
    modifies itemMap
    ensures Linked(tree, itemMap)
  {
    hide StableSort, ChildrenIn, RootsIn, Visible, ParentOf;
    tree := [];
    NoneTaken(itemMap);
    for i := 0 to |itemMap|
      invariant forall k :: 0 <= k < |itemMap| ==>
                  itemMap[k].children == StableSort(ChildrenIn(itemMap[..i], itemMap[k].config.name))
      invariant tree == RootsIn(itemMap[..i])
    {
      var item := itemMap[i];
      TakeOneMore(itemMap, i);
      if Visible(item.config) {
        match ParentOf(item.config) {
          case Some(parent) =>
            match Lookup(itemMap, parent) {
              case Some(parentItem) =>
                OnlyOneNamed(itemMap, parentItem);
                PushAndSort(ChildrenIn(itemMap[..i], parent), item);
                parentItem.children := StableSort(parentItem.children + [item]);
              case None =>
                assert forall k :: 0 <= k < |itemMap| ==> itemMap[k] in itemMap;
            }
          case None =>
            tree := tree + [item];
        }
      }
    }
    assert itemMap[..|itemMap|] == itemMap;
    tree := StableSort(tree);
  }

  /** buildTree */
  method BuildTree(menuItems: seq<ItemConfig>) returns (tree: seq<MenuItem>, ghost items: seq<MenuItem>)
    ensures Configs(items) == MergedItems(menuItems) && UniqueNames(items)
    ensures Linked(tree, items)
  {
    var itemMap := CollectItems(menuItems);
    MergedItemsAre(menuItems);
    assert forall i :: 0 <= i < |itemMap| ==> Configs(itemMap)[i] == itemMap[i].config;
    tree := LinkItems(itemMap);
    items := itemMap;
  }
}
