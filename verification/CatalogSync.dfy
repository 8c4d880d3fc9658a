/** The catalog as a derived view of the cluster: refreshes of
    plugins/kuadrant-backend/src/providers/APIProductEntityProvider.ts list the products first and
    submit entities later, and several can be under way while products change. */
module CatalogSync {
  import opened Wrappers
  import opened MergePatch
  import opened ProductHandlers

  /** What of an API entity tells products apart; name and origin are the product's. */
  datatype ApiEntity = ApiEntity(name: string, origin: Id, title: string, description: string,
                                 lifecycle: string, owner: string)

  type Products = map<Id, Json>

  /** `value || otherwise` */
  function TextOr(value: Option<Json>, otherwise: string): string {
    if Truthy(value) && value.value.Str? then value.value.s else otherwise
  }

  /** transformToEntity: None without an owner annotation. */
  function TransformToEntity(id: Id, product: Json): Option<ApiEntity> {
    var title := TextOr(At(product, ["spec", "displayName"]), id.name);
    var owner := OwnerOf(product);
    if !Truthy(owner) || !owner.value.Str? then None
    else Some(ApiEntity(id.name, id, title,
                        TextOr(At(product, ["spec", "description"]), "api product: " + title),
                        TextOr(At(product, LIFECYCLE_PATH), "production"),
                        owner.value.s))
  }

  predicate Exposed(id: Id, product: Json) {
    Published(product) && TransformToEntity(id, product).Some?
  }

  /** The entities that a refresh submits for a list of products. */
  function View(products: Products): map<Id, ApiEntity> {
    map id | id in products && Exposed(id, products[id]) :: TransformToEntity(id, products[id]).value
  }

  /** The product has a text at the place, and not an empty one. */
  ghost predicate Says(product: Json, p: Path, text: string) {
    text != "" && At(product, p) == Some(Str(text))
  }

  ghost predicate ShowsOr(product: Json, p: Path, shown: string, otherwise: string) {
    Says(product, p, shown) || (shown == otherwise && forall text :: !Says(product, p, text))
  }

  /** What the catalog shows: exactly the published products with an owner; of each its name, its owner,
      and title, description and lifecycle as the product says or else as by default. */
  lemma ViewShowsExactly(products: Products, id: Id)
    ensures id in View(products) <==>
              && id in products && At(products[id], ["spec", "publishStatus"]) == Some(Str("Published"))
              && exists owner :: Says(products[id], ["metadata", "annotations", "backstage.io/owner"], owner)
    ensures id in View(products) ==>
              var product, e := products[id], View(products)[id];
              && e.name == id.name && e.origin == id
              && Says(product, ["metadata", "annotations", "backstage.io/owner"], e.owner)
              && ShowsOr(product, ["spec", "displayName"], e.title, id.name)
              && ShowsOr(product, ["spec", "description"], e.description, "api product: " + e.title)
              && ShowsOr(product, ["metadata", "labels", "lifecycle"], e.lifecycle, "production")
  {
    hide At;
    if id in products {
      var owner := OwnerOf(products[id]);
      if Truthy(owner) && owner.value.Str? {
        assert Says(products[id], OWNER_PATH, owner.value.s);
      }
    }
  }

  /** The catalog's own reference of an entity: all are put into the namespace `default`. */
  function EntityRef(e: ApiEntity): string {
    "api:default/" + e.name
  }

  // ----- Refreshes under way

  type RefreshId = nat

  /** `listed` holds, for each refresh under way that has its list, what it listed. */
  datatype World = World(cluster: Cluster, creators: map<Id, string>, connected: bool, begun: set<RefreshId>,
                         listed: map<RefreshId, Products>, catalog: map<Id, ApiEntity>)

  datatype Step =
    | Connect                     // the catalog hands over its connection
    | Serve(request: Request)     // a handler changes the cluster
    | Begin(r: RefreshId)         // refresh is called, by a handler, the timer or connect
    | List(r: RefreshId)          // the API server returns its products
    | Apply(r: RefreshId)         // the catalog takes the full mutation
    | Fail(r: RefreshId)          // listing or applying throws; the error is only logged

  predicate Enabled(w: World, s: Step) {
    match s
    case Connect => true
    case Serve(_) => true
    case Begin(r) => r !in w.begun && r !in w.listed
    case List(r) => r in w.begun
    case Apply(r) => r in w.listed
    case Fail(r) => r in w.begun || r in w.listed
  }

  function Next(w: World, s: Step): World
    requires Enabled(w, s)
  {
    match s
    case Connect => w.(connected := true)
    case Serve(request) =>
      w.(cluster := Handle(w.cluster, request).0, creators := Recorded(w.cluster, w.creators, request))
    case Begin(r) => if w.connected then w.(begun := w.begun + {r}) else w
    case List(r) => w.(begun := w.begun - {r}, listed := w.listed[r := w.cluster.products])
    case Apply(r) => w.(listed := w.listed - {r}, catalog := View(w.listed[r]))
    case Fail(r) => w.(begun := w.begun - {r}, listed := w.listed - {r})
  }

  function Initial(keys: map<Id, string>): World {
    World(Cluster(map[], keys), map[], false, {}, map[], map[])
  }

  /** The world after a sequence of steps; None if one of them is not possible when it is taken. */
  function After(w: World, steps: seq<Step>): Option<World> {
    if steps == [] then Some(w) else
    match After(w, steps[..|steps| - 1])
    case None => None
    case Some(v) => if Enabled(v, steps[|steps| - 1]) then Some(Next(v, steps[|steps| - 1])) else None
  }

  lemma {:induction false} PrefixPossible(w: World, steps: seq<Step>, n: nat)
    requires n <= |steps| && After(w, steps).Some?
    ensures After(w, steps[..n]).Some?
    ensures n < |steps| ==> Enabled(After(w, steps[..n]).value, steps[n])
    ensures n < |steps| ==> After(w, steps[..n + 1]) == Some(Next(After(w, steps[..n]).value, steps[n]))
  {
    hide Enabled, Next;
    if n == |steps| {
      assert steps[..n] == steps;
    } else if n + 1 == |steps| {
      assert steps[..n + 1] == steps;
    } else {
      var front := steps[..|steps| - 1];
      assert front[..n] == steps[..n] && front[..n + 1] == steps[..n + 1];
      PrefixPossible(w, front, n);
    }
  }

  /** The world after the first `n` steps of a run. */
  function WorldAt(keys: map<Id, string>, steps: seq<Step>, n: nat): World
    requires n <= |steps| && After(Initial(keys), steps).Some?
  {
    PrefixPossible(Initial(keys), steps, n);
    After(Initial(keys), steps[..n]).value
  }

  lemma WorldSteps(keys: map<Id, string>, steps: seq<Step>, n: nat)
    requires n < |steps| && After(Initial(keys), steps).Some?
    ensures Enabled(WorldAt(keys, steps, n), steps[n])
    ensures WorldAt(keys, steps, n + 1) == Next(WorldAt(keys, steps, n), steps[n])
  {
    hide Enabled, Next, After;
    PrefixPossible(Initial(keys), steps, n);
  }

  lemma PrefixWorld(keys: map<Id, string>, steps: seq<Step>, m: nat, n: nat)
    requires n <= m <= |steps| && After(Initial(keys), steps).Some?
    ensures After(Initial(keys), steps[..m]).Some?
    ensures WorldAt(keys, steps[..m], n) == WorldAt(keys, steps, n)
  {
    hide After;
    PrefixPossible(Initial(keys), steps, m);
    assert steps[..m][..n] == steps[..n];
  }

  // ----- Which list the catalog holds

  /** When the list was made that the refresh has. */
  function ListingOf(steps: seq<Step>, r: RefreshId): Option<nat> {
    if steps == [] then None
    else if steps[|steps| - 1] == List(r) then Some(|steps| - 1)
    else ListingOf(steps[..|steps| - 1], r)
  }

  /** When the list was made that was submitted last. */
  function Submitted(steps: seq<Step>): Option<nat> {
    if steps == [] then None
    else if steps[|steps| - 1].Apply? then ListingOf(steps[..|steps| - 1], steps[|steps| - 1].r)
    else Submitted(steps[..|steps| - 1])
  }

  ghost predicate IsListing(steps: seq<Step>, r: RefreshId, i: int) {
    0 <= i < |steps| && steps[i] == List(r) && forall k :: i < k < |steps| ==> steps[k] != List(r)
  }

  lemma {:induction false} ListingOfIs(steps: seq<Step>, r: RefreshId)
    ensures forall i :: ListingOf(steps, r) == Some(i) <==> IsListing(steps, r, i)
    ensures ListingOf(steps, r).None? ==> List(r) !in steps
  {
    if steps != [] {
      var front := steps[..|steps| - 1];
      ListingOfIs(front, r);
      forall i
        ensures ListingOf(steps, r) == Some(i) <==> IsListing(steps, r, i)
      {
        assert forall k :: 0 <= k < |front| ==> front[k] == steps[k];
        if IsListing(steps, r, i) && i < |front| {
          assert IsListing(front, r, i);
        }
      }
    }
  }

  ghost predicate ListsAre(keys: map<Id, string>, steps: seq<Step>, w: World)
    requires After(Initial(keys), steps).Some?
  {
    forall r :: r in w.listed ==>
      && ListingOf(steps, r).Some? && ListingOf(steps, r).value < |steps|
      && w.listed[r] == WorldAt(keys, steps, ListingOf(steps, r).value).cluster.products
  }

  ghost predicate CatalogFrom(keys: map<Id, string>, steps: seq<Step>, w: World)
    requires After(Initial(keys), steps).Some?
  {
    match Submitted(steps)
    case None => w.catalog == map[] && forall k :: 0 <= k < |steps| ==> !steps[k].Apply?
    case Some(i) => i < |steps| && w.catalog == View(WorldAt(keys, steps, i).cluster.products)
  }

  /** What a refresh under way has listed is what the products were when it listed; and the catalog
      is the view of what the products were when the last list submitted was made. */
  lemma {:induction false} CatalogIs(keys: map<Id, string>, steps: seq<Step>)
    requires After(Initial(keys), steps).Some?
    ensures ListsAre(keys, steps, After(Initial(keys), steps).value)
    ensures CatalogFrom(keys, steps, After(Initial(keys), steps).value)
  {
    hide View, Handle, Recorded, ListsAre, CatalogFrom, Next, Enabled, WorldAt;
    if steps == [] {
      NothingYet(keys);
    } else {
      var n := |steps| - 1;
      PrefixPossible(Initial(keys), steps, n);
      CatalogIs(keys, steps[..n]);
      CatalogStep(keys, steps);
    }
  }

  lemma NothingYet(keys: map<Id, string>)
    ensures ListsAre(keys, [], Initial(keys)) && CatalogFrom(keys, [], Initial(keys))
  {
  }

  lemma CatalogStep(keys: map<Id, string>, steps: seq<Step>)
    requires steps != [] && After(Initial(keys), steps).Some? && After(Initial(keys), steps[..|steps| - 1]).Some?
    requires var front := steps[..|steps| - 1]; ListsAre(keys, front, After(Initial(keys), front).value)
    requires var front := steps[..|steps| - 1]; CatalogFrom(keys, front, After(Initial(keys), front).value)
    ensures ListsAre(keys, steps, After(Initial(keys), steps).value)
    ensures CatalogFrom(keys, steps, After(Initial(keys), steps).value)
  {
    hide View, Handle, Recorded, After, ListingOf, Submitted, WorldAt;
    var n := |steps| - 1;
    var front := steps[..n];
    var v, w := After(Initial(keys), front).value, After(Initial(keys), steps).value;
    EarlierWorlds(keys, steps);
    assert forall k :: 0 <= k < n ==> front[k] == steps[k];
    forall r | r in w.listed
      ensures ListingOf(steps, r).Some? && ListingOf(steps, r).value < |steps|
      ensures w.listed[r] == WorldAt(keys, steps, ListingOf(steps, r).value).cluster.products
    {
      LastListing(steps, r);
    }
    LastSubmission(steps);
  }

  lemma EarlierWorlds(keys: map<Id, string>, steps: seq<Step>)
    requires steps != [] && After(Initial(keys), steps).Some? && After(Initial(keys), steps[..|steps| - 1]).Some?
    ensures var n := |steps| - 1;
            && WorldAt(keys, steps, n) == After(Initial(keys), steps[..n]).value
            && Enabled(WorldAt(keys, steps, n), steps[n])
            && After(Initial(keys), steps).value == Next(WorldAt(keys, steps, n), steps[n])
            && forall k :: 0 <= k <= n ==> WorldAt(keys, steps[..n], k) == WorldAt(keys, steps, k)
  {
    hide View, Handle, Recorded, After, Enabled, Next;
    var n := |steps| - 1;
    PrefixPossible(Initial(keys), steps, n);
    assert steps == steps[..n + 1];
    forall k | 0 <= k <= n
      ensures WorldAt(keys, steps[..n], k) == WorldAt(keys, steps, k)
    {
      PrefixWorld(keys, steps, n, k);
    }
  }

  lemma LastListing(steps: seq<Step>, r: RefreshId)
    requires steps != []
    ensures var n := |steps| - 1;
            ListingOf(steps, r) == if steps[n] == List(r) then Some(n) else ListingOf(steps[..n], r)
  {
  }

  lemma LastSubmission(steps: seq<Step>)
    requires steps != []
    ensures var n := |steps| - 1;
            Submitted(steps) == if steps[n].Apply? then ListingOf(steps[..n], steps[n].r) else Submitted(steps[..n])
  {
  }

  /** Submitted is what the word says: the list made at step `i` was submitted by its refresh, and
      nothing has been submitted since. */
  lemma {:induction false} SubmittedIs(keys: map<Id, string>, steps: seq<Step>, i: nat)
    requires After(Initial(keys), steps).Some?
    ensures Submitted(steps) == Some(i) <==>
              exists j :: 0 <= j < |steps| && steps[j].Apply? && IsListing(steps[..j], steps[j].r, i)
                          && forall k :: j < k < |steps| ==> !steps[k].Apply?
  {
    if steps != [] {
      var n := |steps| - 1;
      var front := steps[..n];
      PrefixPossible(Initial(keys), steps, n);
      if steps[n].Apply? {
        ListingOfIs(front, steps[n].r);
      } else {
        SubmittedIs(keys, front, i);
        assert forall j :: 0 <= j < n ==> front[..j] == steps[..j] && front[j] == steps[j];
      }
    }
  }

  /** Without a connection nothing is listed or submitted. */
  lemma {:induction false} NothingUnconnected(keys: map<Id, string>, steps: seq<Step>)
    requires After(Initial(keys), steps).Some? && Connect !in steps
    ensures var w := After(Initial(keys), steps).value;
            !w.connected && w.begun == {} && w.listed == map[] && w.catalog == map[]
  {
    hide View, Handle, Recorded;
    if steps != [] {
      NothingUnconnected(keys, steps[..|steps| - 1]);
    }
  }

  /** A refresh that fails, at whatever point, leaves catalog, cluster and all other refreshes alone. */
  lemma FailureIsolated(w: World, r: RefreshId)
    requires r in w.begun || r in w.listed
    ensures Enabled(w, Fail(r))
    ensures var w' := Next(w, Fail(r));
            && w'.catalog == w.catalog && w'.cluster == w.cluster && w'.creators == w.creators
            && forall other :: other != r ==>
                 && (other in w'.begun <==> other in w.begun)
                 && (other in w'.listed <==> other in w.listed)
                 && (other in w.listed ==> w'.listed[other] == w.listed[other])
  {
  }

  // ----- Owners

  lemma {:induction false} OwnersAlways(keys: map<Id, string>, steps: seq<Step>)
    requires After(Initial(keys), steps).Some?
    ensures var w := After(Initial(keys), steps).value; OwnersRecorded(w.cluster, w.creators)
  {
    hide Handle, Recorded, OwnersRecorded, View;
    if steps == [] {
      assert OwnersRecorded(Cluster(map[], keys), map[]) by { NobodyYet(keys); }
    } else {
      var n := |steps| - 1;
      OwnersAlways(keys, steps[..n]);
      if steps[n].Serve? {
        var w := After(Initial(keys), steps[..n]).value;
        HandleKeepsOwners(w.cluster, w.creators, steps[n].request);
      }
    }
  }

  lemma NobodyYet(keys: map<Id, string>)
    ensures OwnersRecorded(Cluster(map[], keys), map[])
  {
  }

  lemma ViewOwners(products: Products, creators: map<Id, string>)
    requires forall id :: id in products ==> id in creators && OwnerOf(products[id]) == Some(Str(creators[id]))
    ensures forall id :: id in View(products) ==> id in creators && View(products)[id].owner == creators[id]
  {
    hide OwnerOf, LIFECYCLE_PATH, STATUS_PATH;
  }

  /** However refreshes interleave with each other and with the handlers, the catalog is the view of
      the state in which the list was made that was submitted last, or empty if none was; and
      every entity in it is owned by whoever had created the product in that state. */
  lemma CatalogIsPastView(keys: map<Id, string>, steps: seq<Step>, w: World)
    requires After(Initial(keys), steps) == Some(w)
    ensures match Submitted(steps)
            case None => w.catalog == map[] && forall k :: 0 <= k < |steps| ==> !steps[k].Apply?
            case Some(i) =>
              && i < |steps| && w.catalog == View(WorldAt(keys, steps, i).cluster.products)
              && forall id :: id in w.catalog ==>
                   id in WorldAt(keys, steps, i).creators && w.catalog[id].owner == WorldAt(keys, steps, i).creators[id]
  {
    hide After, OwnerOf, View;
    CatalogIs(keys, steps);
    if Submitted(steps).Some? {
      var i := Submitted(steps).value;
      PrefixPossible(Initial(keys), steps, i);
      OwnersAlways(keys, steps[..i]);
      ViewOwners(WorldAt(keys, steps, i).cluster.products, WorldAt(keys, steps, i).creators);
    }
  }

  // ----- When the catalog is up to date

  ghost predicate UpToDate(w: World) {
    w.catalog == View(w.cluster.products)
  }

  /** After any run, the catalog is up to date exactly if the state in which the last submitted list
      was made has the view of the current state, however many refreshes and requests came in
      between; and before any submission exactly if there is nothing to show. */
  lemma UpToDateExactly(keys: map<Id, string>, steps: seq<Step>, w: World)
    requires After(Initial(keys), steps) == Some(w)
    ensures Submitted(steps).Some? ==> Submitted(steps).value < |steps|
    ensures UpToDate(w) <==>
              View(w.cluster.products) ==
              if Submitted(steps).None? then map[]
              else View(WorldAt(keys, steps, Submitted(steps).value).cluster.products)
  {
    hide After, View;
    CatalogIs(keys, steps);
  }

  /** What the catalog should hold for a product. */
  function EntityAt(products: Products, id: Id): Option<ApiEntity> {
    if id in products && Exposed(id, products[id]) then TransformToEntity(id, products[id]) else None
  }

  /** The request changes what the catalog should hold. */
  predicate ChangesView(w: Cluster, request: Request) {
    && Handle(w, request).1 == Done
    && match request
       case CreateRequest(c, body, _) => Published(body) && c.ref != ""
       case PatchRequest(_, id, _, _) => EntityAt(Handle(w, request).0.products, id) != EntityAt(w.products, id)
       case DeleteRequest(_, id, _, _, _) => EntityAt(w.products, id).Some?
  }

  lemma ViewAt(products: Products, products': Products)
    ensures View(products) == View(products') <==> forall id :: EntityAt(products, id) == EntityAt(products', id)
  {
    hide Published, TransformToEntity;
    if View(products) == View(products') {
      forall id
        ensures EntityAt(products, id) == EntityAt(products', id)
      {
        assert id in View(products) <==> id in View(products');
        assert id in View(products) ==> View(products)[id] == View(products')[id];
      }
    } else if forall id :: EntityAt(products, id) == EntityAt(products', id) {
      forall id
        ensures id in View(products) <==> id in View(products')
        ensures id in View(products) ==> View(products)[id] == View(products')[id]
      {
        assert EntityAt(products, id) == EntityAt(products', id);
      }
    }
  }

  lemma NewProductExposed(c: Caller, body: Json)
    requires NewProduct(c, body).Some?
    ensures var (id, product) := NewProduct(c, body).value; Exposed(id, product) <==> Published(body) && c.ref != ""
  {
    hide OwnerOf, TextOr;
    NewProductOwned(c, body);
    assert STATUS_PATH == ["spec"] + ["publishStatus"];
    AtStep(body, "spec", ["publishStatus"]);
    AtStep(NewProduct(c, body).value.1, "spec", ["publishStatus"]);
  }

  /** A request changes the view exactly if it succeeds and creates a published product for a caller
      with a name, or deletes a product that is shown, or alters what is shown of one. */
  lemma ViewChangesExactly(w: Cluster, request: Request)
    ensures View(Handle(w, request).0.products) != View(w.products) <==> ChangesView(w, request)
  {
    hide View, Published, TransformToEntity, NewProduct, HasTarget, FinalPatch, Patched, Parse, Related;
    ViewAt(Handle(w, request).0.products, w.products);
    var after := Handle(w, request).0.products;
    match request {
      case CreateRequest(c, body, _) =>
        if Handle(w, request).1 == Done {
          NewProductExposed(c, body);
          var id := NewProduct(c, body).value.0;
          assert forall other :: other != id ==> EntityAt(after, other) == EntityAt(w.products, other);
          assert EntityAt(w.products, id).None?;
        }
      case PatchRequest(_, id, _, _) =>
        assert forall other :: other != id ==> EntityAt(after, other) == EntityAt(w.products, other);
      case DeleteRequest(_, id, _, _, _) =>
        assert forall other :: other != id ==> EntityAt(after, other) == EntityAt(w.products, other);
    }
  }

  /** What a refresh under way has listed has the view of the current state. */
  ghost predicate NothingStale(w: World) {
    forall r :: r in w.listed ==> View(w.listed[r]) == View(w.cluster.products)
  }

  /** Up to date with nothing stale under way: one step keeps that exactly if it serves no request
      that changes the view. */
  lemma SettledStepExactly(w: World, s: Step)
    requires Enabled(w, s) && UpToDate(w) && NothingStale(w)
    ensures UpToDate(Next(w, s)) && NothingStale(Next(w, s)) <==> !(s.Serve? && ChangesView(w.cluster, s.request))
  {
    hide View, Handle, Recorded, ChangesView;
    if s.Serve? {
      ViewChangesExactly(w.cluster, s.request);
    }
  }

  /** A refresh that submits has had its list from its listing on. */
  lemma {:induction false} ListedBetween(keys: map<Id, string>, steps: seq<Step>, i: nat, j: nat, n: nat)
    requires After(Initial(keys), steps).Some? && i < n <= j < |steps|
    requires steps[j].Apply? && IsListing(steps[..j], steps[j].r, i)
    ensures var r, w := steps[j].r, WorldAt(keys, steps, n);
            r in w.listed && w.listed[r] == WorldAt(keys, steps, i).cluster.products
    decreases j - n
  {
    hide After, View, Handle, Recorded;
    var r := steps[j].r;
    WorldSteps(keys, steps, n);
    if n < j {
      ListedBetween(keys, steps, i, j, n + 1);
      assert steps[..j][n] != List(r);
    }
    PrefixPossible(Initial(keys), steps, n);
    CatalogIs(keys, steps[..n]);
    assert IsListing(steps[..n], r, i) by {
      assert steps[..j][i] == List(r);
      assert forall k :: i < k < n ==> steps[..n][k] == steps[..j][k];
    }
    ListingOfIs(steps[..n], r);
    PrefixWorld(keys, steps, n, i);
  }

  lemma {:induction false} ViewKept(keys: map<Id, string>, steps: seq<Step>, i: nat, n: nat)
    requires After(Initial(keys), steps).Some? && i <= n <= |steps|
    requires forall k :: i <= k < |steps| && steps[k].Serve? ==>
               !ChangesView(WorldAt(keys, steps, k).cluster, steps[k].request)
    ensures View(WorldAt(keys, steps, n).cluster.products) == View(WorldAt(keys, steps, i).cluster.products)
    decreases n - i
  {
    hide After, View, Handle, Recorded, ChangesView;
    if i < n {
      ViewKept(keys, steps, i, n - 1);
      WorldSteps(keys, steps, n - 1);
      if steps[n - 1].Serve? {
        ViewChangesExactly(WorldAt(keys, steps, n - 1).cluster, steps[n - 1].request);
      }
    }
  }

  /** A refresh that lists while no stale list is under way brings the catalog up to date: from its
      submission on, and for as long as no request changes the view from the listing on, the
      catalog is the view of the current state, whatever other refreshes do meanwhile. */
  lemma RefreshSettles(keys: map<Id, string>, steps: seq<Step>, i: nat, j: nat, w: World)
    requires After(Initial(keys), steps) == Some(w)
    requires i < j < |steps| && steps[i].List? && steps[j] == Apply(steps[i].r)
    requires NothingStale(WorldAt(keys, steps, i))
    requires forall k :: i <= k < |steps| && steps[k].Serve? ==>
               !ChangesView(WorldAt(keys, steps, k).cluster, steps[k].request)
    ensures UpToDate(w)
  {
    hide After, View, ChangesView, Submitted;
    CatalogIs(keys, steps);
    assert Submitted(steps).Some?;
    var i' := Submitted(steps).value;
    assert steps[..|steps|] == steps;
    ViewKept(keys, steps, i, |steps|);
    if i <= i' {
      ViewKept(keys, steps, i, i');
    } else {
      SubmittedIs(keys, steps, i');
      var j' :| 0 <= j' < |steps| && steps[j'].Apply? && IsListing(steps[..j'], steps[j'].r, i')
                && forall k :: j' < k < |steps| ==> !steps[k].Apply?;
      ListedBetween(keys, steps, i', j', i);
    }
  }

  // ----- An older refresh can put an outdated catalog back

  lemma AfterOne(w: World, steps: seq<Step>, s: Step)
    requires After(w, steps).Some? && Enabled(After(w, steps).value, s)
    ensures After(w, steps + [s]) == Some(Next(After(w, steps).value, s))
  {
    assert (steps + [s])[..|steps + [s]| - 1] == steps;
  }

  const CREATOR := Caller("user:default/a", {ProductCreate})

  /** The creation of a published product `p` in a namespace. */
  function Publish(namespace: string): Step {
    Serve(CreateRequest(CREATOR, ProductBody(namespace, "Published", "production"), true))
  }

  lemma Publishes(w: World, namespace: string)
    requires namespace != "" && Id(namespace, "p") !in w.cluster.products
    ensures var products, id := Next(w, Publish(namespace)).cluster.products, Id(namespace, "p");
            && products.Keys == w.cluster.products.Keys + {id}
            && (forall other :: other in w.cluster.products ==> products[other] == w.cluster.products[other])
            && Exposed(id, products[id])
            && Next(w, Publish(namespace)) == w.(cluster := Next(w, Publish(namespace)).cluster,
                                                 creators := Next(w, Publish(namespace)).creators)
  {
    hide NewProduct, HasTarget, Published, OwnerOf, Recorded;
    BodyCreates(w.cluster, CREATOR, namespace, "Published", "production");
  }

  /** Two refreshes list, one before and one after a product is published, and the older one submits
      last: the catalog stays without the product. */
  lemma OlderRefreshWins(keys: map<Id, string>)
    ensures var steps := [Connect, Begin(0), List(0), Publish("n"), Begin(1), List(1), Apply(1), Apply(0)];
            && After(Initial(keys), steps).Some?
            && UpToDate(WorldAt(keys, steps, 7)) && !UpToDate(WorldAt(keys, steps, 8))
  {
    hide After, View, Handle, Recorded;
    ListedFirst(keys);
    var s3 := [Connect, Begin(0), List(0)];
    var w3 := After(Initial(keys), s3).value;
    Publishes(w3, "n");
    var w4 := Next(w3, Publish("n"));
    var w5 := Next(w4, Begin(1));
    var w6 := Next(w5, List(1));
    var w7 := Next(w6, Apply(1));
    AfterOne(Initial(keys), s3, Publish("n"));
    AfterOne(Initial(keys), s3 + [Publish("n")], Begin(1));
    AfterOne(Initial(keys), s3 + [Publish("n")] + [Begin(1)], List(1));
    AfterOne(Initial(keys), s3 + [Publish("n")] + [Begin(1)] + [List(1)], Apply(1));
    AfterOne(Initial(keys), s3 + [Publish("n")] + [Begin(1)] + [List(1)] + [Apply(1)], Apply(0));
    var s7 := s3 + [Publish("n")] + [Begin(1)] + [List(1)] + [Apply(1)];
    var steps := [Connect, Begin(0), List(0), Publish("n"), Begin(1), List(1), Apply(1), Apply(0)];
    assert steps == s7 + [Apply(0)] && steps[..7] == s7 && steps[..8] == steps;
    assert w7.cluster == w4.cluster && w7.listed[0] == map[];
    ViewShows(w7.cluster.products, Id("n", "p"));
    ViewShows(map[], Id("n", "p"));
  }

  lemma ViewShows(products: Products, id: Id)
    ensures id in View(products) <==> id in products && Exposed(id, products[id])
    ensures id in View(products) ==> View(products)[id].name == id.name
  {
  }

  lemma ListedFirst(keys: map<Id, string>)
    ensures After(Initial(keys), [Connect, Begin(0), List(0)]) ==
            Some(World(Cluster(map[], keys), map[], true, {}, map[0 := map[]], map[]))
  {
    assert [Connect] == [] + [Connect];
    AfterOne(Initial(keys), [], Connect);
    assert [Connect, Begin(0)] == [Connect] + [Begin(0)];
    AfterOne(Initial(keys), [Connect], Begin(0));
    assert [Connect, Begin(0), List(0)] == [Connect, Begin(0)] + [List(0)];
    AfterOne(Initial(keys), [Connect, Begin(0)], List(0));
  }

  // ----- References of entities

  /** Entities of different products have different references. */
  ghost predicate RefsApart(catalog: map<Id, ApiEntity>) {
    forall i, j :: i in catalog && j in catalog && i != j ==> EntityRef(catalog[i]) != EntityRef(catalog[j])
  }

  lemma ViewRefs(products: Products)
    ensures RefsApart(View(products)) <==>
              forall i, j :: i in View(products) && j in View(products) && i != j ==> i.name != j.name
  {
    forall i, j | i in View(products) && j in View(products)
      ensures EntityRef(View(products)[i]) == EntityRef(View(products)[j]) <==> i.name == j.name
    {
      var a, b := View(products)[i], View(products)[j];
      assert EntityRef(a)[|"api:default/"|..] == a.name && EntityRef(b)[|"api:default/"|..] == b.name;
    }
  }

  /** After any run, two products share a reference in the catalog exactly if the list submitted last
      had two products of one name that were exposed: the namespace is not part of the reference. */
  lemma RefsApartExactly(keys: map<Id, string>, steps: seq<Step>, w: World)
    requires After(Initial(keys), steps) == Some(w)
    ensures Submitted(steps).Some? ==> Submitted(steps).value < |steps|
    ensures RefsApart(w.catalog) <==>
              || Submitted(steps).None?
              || var products := WorldAt(keys, steps, Submitted(steps).value).cluster.products;
                 forall i, j :: EntityAt(products, i).Some? && EntityAt(products, j).Some? && i != j ==>
                   i.name != j.name
  {
    hide After, View, EntityRef, Exposed, EntityAt;
    CatalogIs(keys, steps);
    if Submitted(steps).Some? {
      var products := WorldAt(keys, steps, Submitted(steps).value).cluster.products;
      ViewRefs(products);
      forall i ensures i in View(products) <==> EntityAt(products, i).Some? {
        ShownIs(products, i);
      }
    }
  }

  lemma ShownIs(products: Products, id: Id)
    ensures id in View(products) <==> EntityAt(products, id).Some?
  {
    hide TransformToEntity, Published;
  }

  ghost predicate Creates(s: Step, id: Id) {
    && s.Serve? && s.request.CreateRequest?
    && NewProduct(s.request.c, s.request.body).Some? && NewProduct(s.request.c, s.request.body).value.0 == id
  }

  ghost predicate WasCreated(steps: seq<Step>, id: Id) {
    exists k :: 0 <= k < |steps| && Creates(steps[k], id)
  }

  /** There are no products but those that some request of the run asks to create. */
  lemma {:induction false} ProductsWereCreated(keys: map<Id, string>, steps: seq<Step>, id: Id)
    requires After(Initial(keys), steps).Some?
    requires id in After(Initial(keys), steps).value.cluster.products
    ensures WasCreated(steps, id)
  {
    hide Next, Enabled, Creates;
    if steps != [] {
      var n := |steps| - 1;
      if id in After(Initial(keys), steps[..n]).value.cluster.products {
        ProductsWereCreated(keys, steps[..n], id);
        var k :| 0 <= k < n && Creates(steps[..n][k], id);
        assert Creates(steps[k], id);
      } else {
        StepCreates(After(Initial(keys), steps[..n]).value, steps[n], id);
      }
    }
  }

  lemma StepCreates(w: World, s: Step, id: Id)
    requires Enabled(w, s) && id !in w.cluster.products && id in Next(w, s).cluster.products
    ensures Creates(s, id)
  {
    hide NewProduct, HasTarget, FinalPatch, Patched, Parse, Related, Recorded, View;
  }

  /** As long as requests create no two products of one name in different namespaces, the references
      in the catalog stay apart, however refreshes and requests interleave. */
  lemma RefsStayApart(keys: map<Id, string>, steps: seq<Step>, w: World)
    requires After(Initial(keys), steps) == Some(w)
    requires forall i, j :: WasCreated(steps, i) && WasCreated(steps, j) && i.name == j.name ==> i == j
    ensures RefsApart(w.catalog)
  {
    hide After, View, EntityRef, Exposed, TransformToEntity, Creates;
    RefsApartExactly(keys, steps, w);
    if Submitted(steps).Some? {
      var n := Submitted(steps).value;
      PrefixPossible(Initial(keys), steps, n);
      forall id | id in WorldAt(keys, steps, n).cluster.products
        ensures WasCreated(steps, id)
      {
        ProductsWereCreated(keys, steps[..n], id);
        var k :| 0 <= k < n && Creates(steps[..n][k], id);
        assert Creates(steps[k], id);
      }
    }
  }

  /** Two products of one name in different namespaces end up with one reference in the catalog. */
  lemma SharedReference(keys: map<Id, string>)
    ensures var steps := [Connect, Publish("a"), Publish("b"), Begin(0), List(0), Apply(0)];
            && After(Initial(keys), steps).Some?
            && var catalog := After(Initial(keys), steps).value.catalog;
               && Id("a", "p") in catalog && Id("b", "p") in catalog
               && EntityRef(catalog[Id("a", "p")]) == EntityRef(catalog[Id("b", "p")])
  {
    hide After, View, Handle, Recorded, Exposed, TransformToEntity;
    var s1, w1 := [Connect], Next(Initial(keys), Connect);
    assert After(Initial(keys), s1) == Some(w1) by { Connected(keys); }
    Publishes(w1, "a");
    var w2 := Next(w1, Publish("a"));
    Publishes(w2, "b");
    var w3 := Next(w2, Publish("b"));
    AfterOne(Initial(keys), s1, Publish("a"));
    AfterOne(Initial(keys), s1 + [Publish("a")], Publish("b"));
    AfterOne(Initial(keys), s1 + [Publish("a")] + [Publish("b")], Begin(0));
    AfterOne(Initial(keys), s1 + [Publish("a")] + [Publish("b")] + [Begin(0)], List(0));
    AfterOne(Initial(keys), s1 + [Publish("a")] + [Publish("b")] + [Begin(0)] + [List(0)], Apply(0));
    var steps := [Connect, Publish("a"), Publish("b"), Begin(0), List(0), Apply(0)];
    assert steps == s1 + [Publish("a")] + [Publish("b")] + [Begin(0)] + [List(0)] + [Apply(0)];
    ViewShows(w3.cluster.products, Id("a", "p"));
    ViewShows(w3.cluster.products, Id("b", "p"));
  }

  lemma Connected(keys: map<Id, string>)
    ensures After(Initial(keys), [Connect]) == Some(Next(Initial(keys), Connect))
  {
    assert [Connect] == [] + [Connect];
    AfterOne(Initial(keys), [], Connect);
  }
}
