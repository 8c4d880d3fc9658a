/** The depth-first search of packages/backend/src/transitiveGroupOwnershipResolver.ts, with its
    one visited set shared by all nested calls. */
module GroupOwnership {
  import opened Wrappers
  import opened Sequences

  const CHILD_OF := "childOf"
  const MEMBER_OF := "memberOf"

  datatype Relation = Relation(kind: string, target: string)

  datatype Entity = Entity(kind: string, relations: Option<seq<Relation>>)

  /** The entities of the catalog by reference; any finite graph, cyclic or not. */
  type Catalog = map<string, Entity>

  function LowerChar(c: char): char {
    if 'A' <= c <= 'Z' then c - 'A' + 'a' else c
  }

  function Lower(s: string): string {
    seq(|s|, i requires 0 <= i < |s| => LowerChar(s[i]))
  }

  /** Targets of the relations of one kind, in order. */
  function Targets(relations: seq<Relation>, kind: string): (targets: seq<string>)
    ensures forall t :: t in targets <==> Relation(kind, t) in relations
  {
    if relations == [] then []
    else (if relations[0].kind == kind then [relations[0].target] else []) + Targets(relations[1..], kind)
  }

  /** The kind reads "group", in whatever mixture of upper and lower case. */
  ghost predicate IsGroup(entity: Entity) {
    |entity.kind| == 5 && forall i :: 0 <= i < 5 ==> entity.kind[i] == "group"[i] || entity.kind[i] == "GROUP"[i]
  }

  /** The catalog has the child as a group, with a child-of relation to the parent. */
  ghost predicate IsParent(catalog: Catalog, child: string, parent: string) {
    && child in catalog && IsGroup(catalog[child])
    && catalog[child].relations.Some? && Relation("childOf", parent) in catalog[child].relations.value
  }

  lemma KindReadsGroup(entity: Entity)
    ensures Lower(entity.kind) == "group" <==> IsGroup(entity)
  {
    var kind := entity.kind;
    assert Lower(kind) == "group" <==> |kind| == 5 && forall i :: 0 <= i < 5 ==> LowerChar(kind[i]) == "group"[i];
  }

  /** The parent groups of a reference; none if it names no group. */
  function Parents(catalog: Catalog, ref: string): (parents: seq<string>)
    ensures forall p :: p in parents <==> IsParent(catalog, ref, p)
  {
    if ref !in catalog then [] else
    KindReadsGroup(catalog[ref]);
    if Lower(catalog[ref].kind) == "group" then Targets(catalog[ref].relations.GetOr([]), CHILD_OF) else []
  }

  // ----- Reachability, the specification

  ghost predicate IsPath(catalog: Catalog, path: seq<string>) {
    path != [] && forall i :: 0 <= i < |path| - 1 ==> IsParent(catalog, path[i], path[i + 1])
  }

  ghost predicate Leads(catalog: Catalog, refs: seq<string>, path: seq<string>, ref: string) {
    IsPath(catalog, path) && path[0] in refs && path[|path| - 1] == ref
  }

  /** Some chain of child-of relations leads from one of the references to `ref`. */
  ghost predicate Reachable(catalog: Catalog, refs: seq<string>, ref: string) {
    exists path :: Leads(catalog, refs, path, ref)
  }

  lemma ReachableStart(catalog: Catalog, refs: seq<string>, ref: string)
    requires ref in refs
    ensures Reachable(catalog, refs, ref)
  {
    assert Leads(catalog, refs, [ref], ref);
  }

  /** What is reachable from the parents of a reachable group is reachable. */
  lemma ReachableAbove(catalog: Catalog, refs: seq<string>, child: string, ref: string)
    requires child in refs && Reachable(catalog, Parents(catalog, child), ref)
    ensures Reachable(catalog, refs, ref)
  {
    var path :| Leads(catalog, Parents(catalog, child), path, ref);
    assert Leads(catalog, refs, [child] + path, ref);
  }

  ghost predicate ClosedUpwards(catalog: Catalog, refs: set<string>) {
    forall r, p :: r in refs && IsParent(catalog, r, p) ==> p in refs
  }

  lemma {:induction false} ClosedContainsPath(catalog: Catalog, closed: set<string>, path: seq<string>)
    requires ClosedUpwards(catalog, closed) && IsPath(catalog, path) && path[0] in closed
    ensures path[|path| - 1] in closed
    decreases |path|
  {
    if |path| > 1 {
      var front := path[..|path| - 1];
      ClosedContainsPath(catalog, closed, front);
      assert IsParent(catalog, path[|path| - 2], path[|path| - 2 + 1]);
    }
  }

  /** All references a search can come across. */
  ghost function Universe(catalog: Catalog, refs: seq<string>): (all: set<string>)
    ensures ClosedUpwards(catalog, all) && forall r :: r in refs ==> r in all
  {
    assert forall r, p :: IsParent(catalog, r, p) ==> r in catalog && p in Parents(catalog, r);
    (set r | r in refs) + (set r, p | r in catalog && p in Parents(catalog, r) :: p)
  }

  // ----- The search

  /** A JavaScript set: keeps the order of insertion and ignores what it already has. */
  function SetAdd(s: seq<string>, x: string): seq<string> {
    if x in s then s else s + [x]
  }

  /** The shared visited set; `lookups` records the calls of getEntitiesByRefs. */
  class ProcessedGroups {
    var refs: set<string>
    ghost var lookups: seq<string>

    constructor ()
      ensures refs == {} && lookups == []
    {
      refs, lookups := {}, [];
    }
  }

  class TransitiveGroupOwnershipResolver {
    const catalog: Catalog
    const includeTransitiveGroupOwnership: Option<bool>

    constructor (catalog: Catalog, includeTransitiveGroupOwnership: Option<bool>)
      ensures this.catalog == catalog && this.includeTransitiveGroupOwnership == includeTransitiveGroupOwnership
    {
      this.catalog := catalog;
      this.includeTransitiveGroupOwnership := includeTransitiveGroupOwnership;
    }

    /** A nested call returns, without repeats, exactly the references it newly marks, and looks
        each of them up once.  Everything it marks is reachable from its arguments, and all
        parents of what it marks are marked when it returns.  The visited set bounds the
        recursion, cycles or not. */
    method ResolveParentGroups(groupRefs: seq<string>, processed: ProcessedGroups, ghost universe: set<string>)
      returns (result: seq<string>)
      requires ClosedUpwards(catalog, universe) && processed.refs <= universe
      requires forall r :: r in groupRefs ==> r in universe
      modifies processed
      ensures processed.refs <= universe
      ensures processed.refs == old(processed.refs) + (set r | r in result)
      ensures NoRepeats(result) && forall r :: r in result ==> r !in old(processed.refs)
      ensures processed.lookups == old(processed.lookups) + result
      ensures forall r :: r in groupRefs ==> r in processed.refs
      ensures forall r, p :: r in result && IsParent(catalog, r, p) ==> p in processed.refs
      ensures forall r :: r in result ==> Reachable(catalog, groupRefs, r)
      decreases universe - processed.refs
    {
      result := [];
      for i := 0 to |groupRefs|
        invariant processed.refs <= universe
        invariant processed.refs == old(processed.refs) + (set r | r in result)
        invariant NoRepeats(result) && forall r :: r in result ==> r !in old(processed.refs)
        invariant processed.lookups == old(processed.lookups) + result
        invariant forall j :: 0 <= j < i ==> groupRefs[j] in processed.refs
        invariant forall r, p :: r in result && IsParent(catalog, r, p) ==> p in processed.refs
        invariant forall r :: r in result ==> Reachable(catalog, groupRefs, r)
      {
        var groupRef := groupRefs[i];
        if groupRef in processed.refs {
          continue;
        }
        processed.refs := processed.refs + {groupRef};
        // The code checks here whether the result has the reference already; it never does.
        assert groupRef !in result;
        NoRepeatsConcat(result, [groupRef]);
        result := result + [groupRef];
        ReachableStart(catalog, groupRefs, groupRef);
        processed.lookups := processed.lookups + [groupRef];
        var parentGroups := ResolveParentGroups(Parents(catalog, groupRef), processed, universe);
        forall r | r in parentGroups
          ensures Reachable(catalog, groupRefs, r)
        {
          ReachableAbove(catalog, groupRefs, groupRef, r);
        }
        NoRepeatsConcat(result, parentGroups);
        result := AddAll(result, parentGroups);
      }
    }

    /** The call that starts a search: exactly the reachable references, each once, each looked up
        once. */
    method ResolveAll(groupRefs: seq<string>) returns (result: seq<string>, ghost lookups: seq<string>)
      ensures NoRepeats(result)
      ensures forall r :: r in result <==> Reachable(catalog, groupRefs, r)
      ensures lookups == result
    {
      var processed := new ProcessedGroups();
      result := ResolveParentGroups(groupRefs, processed, Universe(catalog, groupRefs));
      lookups := processed.lookups;
      forall r | Reachable(catalog, groupRefs, r)
        ensures r in result
      {
        var path :| Leads(catalog, groupRefs, path, r);
        ClosedContainsPath(catalog, processed.refs, path);
      }
    }

    /** resolveOwnershipEntityRefs: the entity itself first, then its direct groups or, where the
        configuration asks for it, all groups above them. */
    method ResolveOwnershipEntityRefs(entityRef: string, entity: Entity) returns (refs: seq<string>)
      ensures NoRepeats(refs) && refs != [] && refs[0] == entityRef
      ensures var groups := Memberships(entity);
              forall r :: r in refs <==>
                r == entityRef
                || if includeTransitiveGroupOwnership == Some(true) then Reachable(catalog, groups, r) else r in groups
    {
      var membershipRefs := Memberships(entity);
      if includeTransitiveGroupOwnership.GetOr(false) {
        ghost var lookups;
        membershipRefs, lookups := ResolveAll(membershipRefs);
      }
      refs := DedupInto([entityRef], membershipRefs);
    }
  }

  /** `parentGroups.forEach(...)`: nothing of what a nested call returns is in the result yet. */
  method AddAll(result: seq<string>, parentGroups: seq<string>) returns (all: seq<string>)
    requires NoRepeats(parentGroups) && forall r :: r in parentGroups ==> r !in result
    ensures all == result + parentGroups
  {
    all := result;
    for i := 0 to |parentGroups|
      invariant all == result + parentGroups[..i]
    {
      assert parentGroups[i] !in all;
      all := SetAdd(all, parentGroups[i]);
    }
  }

  method DedupInto(start: seq<string>, refs: seq<string>) returns (all: seq<string>)
    requires NoRepeats(start)
    ensures NoRepeats(all) && start <= all
    ensures forall r :: r in all <==> r in start || r in refs
  {
    all := start;
    for i := 0 to |refs|
      invariant NoRepeats(all) && start <= all
      invariant forall r :: r in all <==> r in start || r in refs[..i]
    {
      assert refs[..i + 1] == refs[..i] + [refs[i]];
      all := SetAdd(all, refs[i]);
    }
  }

  /** Direct group memberships of a user. */
  function Memberships(entity: Entity): (groups: seq<string>)
    ensures forall g :: g in groups <==> "group:" <= g && Relation("memberOf", g) in entity.relations.GetOr([])
  {
    Groups(Targets(entity.relations.GetOr([]), MEMBER_OF))
  }

  function Groups(refs: seq<string>): (groups: seq<string>)
    ensures forall g :: g in groups <==> g in refs && "group:" <= g
  {
    if refs == [] then [] else (if "group:" <= refs[0] then [refs[0]] else []) + Groups(refs[1..])
  }
}
