/** The create, patch and delete handlers for API products of
    plugins/kuadrant-backend/src/router.ts, as steps over the cluster. */
module ProductHandlers {
  import opened Wrappers
  import opened MergePatch

  datatype Permission =
    | ProductCreate | ProductUpdateOwn | ProductUpdateAll | ProductDeleteOwn | ProductDeleteAll
    | KeyUpdateOwn | KeyUpdateAll

  /** Whoever sends a request: the user entity and the decisions of the permission service. */
  datatype Caller = Caller(ref: string, may: set<Permission>)

  /** Name and namespace of a resource. */
  datatype Id = Id(namespace: string, name: string)

  /** The custom resources; of an API key only the product it refers to matters. */
  datatype Cluster = Cluster(products: map<Id, Json>, keys: map<Id, string>)

  /** The status that the handler answers with: 2xx, 403, 400 or 500. */
  datatype Answer = Done | Forbidden | BadRequest | Failed

  const OWNER := "backstage.io/owner"

  const OWNER_PATH := ["metadata", "annotations", OWNER]

  /** `metadata?.annotations?.['backstage.io/owner']` */
  function OwnerOf(product: Json): Option<Json> {
    At(product, OWNER_PATH)
  }

  predicate Owns(c: Caller, product: Json) {
    OwnerOf(product) == Some(Str(c.ref))
  }

  predicate Truthy(j: Option<Json>) {
    match j
    case None => false
    case Some(Null) => false
    case Some(Bool(b)) => b
    case Some(Number(n)) => n != 0.0
    case Some(Str(s)) => s != ""
    case Some(_) => true
  }

  // ----- Create

  function TargetRef(body: Json): Option<Json> {
    At(body, ["spec", "targetRef"])
  }

  predicate HasTarget(body: Json) {
    && Truthy(Field(TargetRef(body), "name")) && Truthy(Field(TargetRef(body), "kind"))
    && Truthy(Field(TargetRef(body), "namespace"))
  }

  /** The product that is sent to the cluster; None where setting its namespace or its owner
      throws or the API server would not take it. */
  function NewProduct(c: Caller, body: Json): Option<(Id, Json)> {
    var namespace := Field(TargetRef(body), "namespace");
    var metadata := Field(Some(body), "metadata");
    var annotations := Field(metadata, "annotations");
    var name := Field(metadata, "name");
    if body.Obj? && metadata.Some? && metadata.value.Obj?
       && (Truthy(annotations) ==> annotations.value.Obj?)
       && namespace.Some? && namespace.value.Str?
       && name.Some? && name.value.Str? && name.value.s != ""
    then
      var owned := Obj(Fields(if Truthy(annotations) then annotations else None)[OWNER := Str(c.ref)]);
      var metadata' := Obj(Fields(metadata)["namespace" := namespace.value]["annotations" := owned]);
      Some((Id(namespace.value.s, name.value.s), Obj(body.fields["metadata" := metadata'])))
    else None
  }

  /** POST /apiproducts; `works` says whether the API server carries the request out. */
  function Create(w: Cluster, c: Caller, body: Json, works: bool): (Cluster, Answer) {
    if ProductCreate !in c.may then (w, Forbidden)
    else if !HasTarget(body) then (w, BadRequest)
    else match NewProduct(c, body)
      case None => (w, Failed)
      case Some((id, product)) =>
        if id in w.products || !works then (w, Failed)
        else (w.(products := w.products[id := product]), Done)
  }

  // ----- Patch

  const CONTACT := Object(map["email" := String, "team" := String, "slack" := String], {})
  const DOCUMENTATION := Object(map["docsURL" := String, "openAPISpecURL" := String], {})
  const LABELS := Object(map["lifecycle" := Enum(["experimental", "production", "deprecated", "retired"])], {})
  const METADATA := Object(map["labels" := LABELS], {})
  const SPEC := Object(
    map["displayName" := String, "description" := String, "version" := String,
        "publishStatus" := Enum(["Draft", "Published"]), "approvalMode" := Enum(["automatic", "manual"]),
        "tags" := Strings, "contact" := CONTACT, "documentation" := DOCUMENTATION], {})

  /** patchSchema */
  const PATCH_SCHEMA := Object(map["metadata" := METADATA, "spec" := SPEC], {"spec"})

  const LIFECYCLE_PATH := ["metadata", "labels", "lifecycle"]

  const STATUS_PATH := ["spec", "publishStatus"]

  /** update-all, or update-own and the product carries the caller's identity */
  function MayChange(w: Cluster, c: Caller, id: Id, all: Permission, own: Permission): Answer {
    if all in c.may then Done
    else if own !in c.may then Forbidden
    else if id !in w.products then Failed
    else if Owns(c, w.products[id]) then Done
    else Forbidden
  }

  /** Retiring a published product turns it into a draft. */
  function WithDraft(patch: Json): Json {
    Obj(Fields(Some(patch))["spec" := Obj(Fields(Field(Some(patch), "spec"))["publishStatus" := Str("Draft")])])
  }

  /** The patch that is sent, or the answer that ends the request first. */
  function FinalPatch(w: Cluster, id: Id, patch: Json): Result<Json, Answer> {
    var retiring := At(patch, LIFECYCLE_PATH) == Some(Str("retired"));
    if retiring && At(patch, STATUS_PATH) == Some(Str("Published")) then Err(BadRequest)
    else if !retiring then Ok(patch)
    else if id !in w.products then Err(Failed)
    else if At(w.products[id], STATUS_PATH) == Some(Str("Published")) then Ok(WithDraft(patch))
    else Ok(patch)
  }

  /** PATCH /apiproducts/:namespace/:name */
  function Patch(w: Cluster, c: Caller, id: Id, body: Json, works: bool): (Cluster, Answer) {
    match Parse(PATCH_SCHEMA, body)
    case None => (w, BadRequest)
    case Some(parsed) =>
      var allowed := MayChange(w, c, id, ProductUpdateAll, ProductUpdateOwn);
      if allowed != Done then (w, allowed) else
      match FinalPatch(w, id, parsed)
      case Err(answer) => (w, answer)
      case Ok(patch) =>
        if id !in w.products || !works then (w, Failed)
        else (w.(products := w.products[id := Patched(Some(w.products[id]), patch)]), Done)
  }

  // ----- Delete

  /** The keys of the product's own namespace that refer to it, as far as they can be listed. */
  function Related(w: Cluster, id: Id, listed: bool): set<Id> {
    if listed then set k | k in w.keys && k.namespace == id.namespace && w.keys[k] == id.name else {}
  }

  /** DELETE /apiproducts/:namespace/:name; `stuck` are the keys whose deletion fails. */
  function Delete(w: Cluster, c: Caller, id: Id, listed: bool, stuck: set<Id>, works: bool): (Cluster, Answer) {
    var allowed := MayChange(w, c, id, ProductDeleteAll, ProductDeleteOwn);
    if allowed != Done then (w, allowed) else
    var cascaded := w.(keys := w.keys - (Related(w, id, listed) - stuck));
    if id !in w.products || !works then (cascaded, Failed)
    else (cascaded.(products := cascaded.products - {id}), Done)
  }

  // ----- Runs

  datatype Request =
    | CreateRequest(c: Caller, body: Json, works: bool)
    | PatchRequest(c: Caller, id: Id, body: Json, works: bool)
    | DeleteRequest(c: Caller, id: Id, listed: bool, stuck: set<Id>, works: bool)

  function Handle(w: Cluster, r: Request): (Cluster, Answer) {
    match r
    case CreateRequest(c, body, works) => Create(w, c, body, works)
    case PatchRequest(c, id, body, works) => Patch(w, c, id, body, works)
    case DeleteRequest(c, id, listed, stuck, works) => Delete(w, c, id, listed, stuck, works)
  }

  /** Who created each product that is there: recorded when its request succeeds. */
  function Recorded(w: Cluster, creators: map<Id, string>, r: Request): map<Id, string> {
    var w' := Handle(w, r).0;
    map id | id in w'.products :: if id in w.products && id in creators then creators[id] else r.c.ref
  }

  function Run(w: Cluster, creators: map<Id, string>, requests: seq<Request>): (Cluster, map<Id, string>)
    decreases |requests|
  {
    if requests == [] then (w, creators)
    else Run(Handle(w, requests[0]).0, Recorded(w, creators, requests[0]), requests[1..])
  }

  /** Each product carries the identity that created it. */
  ghost predicate OwnersRecorded(w: Cluster, creators: map<Id, string>) {
    && w.products.Keys == creators.Keys
    && forall id :: id in w.products ==> OwnerOf(w.products[id]) == Some(Str(creators[id]))
  }

  lemma NewProductOwned(c: Caller, body: Json)
    requires NewProduct(c, body).Some?
    ensures OwnerOf(NewProduct(c, body).value.1) == Some(Str(c.ref))
  {
    var product := NewProduct(c, body).value.1;
    assert OWNER_PATH == ["metadata"] + (["annotations"] + ([OWNER] + []));
    AtStep(product, "metadata", ["annotations"] + ([OWNER] + []));
    var metadata := product.fields["metadata"];
    AtStep(metadata, "annotations", [OWNER] + []);
    AtStep(metadata.fields["annotations"], OWNER, []);
  }

  lemma SchemaMissesOwner()
    ensures !Covers(PATCH_SCHEMA, OWNER_PATH)
  {
    assert OWNER_PATH[1..] == ["annotations", OWNER];
    assert !Covers(METADATA, ["annotations", OWNER]);
  }

  lemma FinalPatchFits(w: Cluster, id: Id, patch: Json)
    requires Fits(PATCH_SCHEMA, patch) && FinalPatch(w, id, patch).Ok?
    ensures Fits(PATCH_SCHEMA, FinalPatch(w, id, patch).value)
  {
    var spec := Fields(Field(Some(patch), "spec"));
    forall k | k in spec ensures k in SPEC.members && Fits(SPEC.members[k], spec[k]) {
      assert "spec" in patch.fields && Fits(PATCH_SCHEMA.members["spec"], patch.fields["spec"]);
    }
    var spec' := spec["publishStatus" := Str("Draft")];
    forall k | k in spec' ensures k in SPEC.members && Fits(SPEC.members[k], spec'[k]) {
      if k != "publishStatus" {
        assert k in spec;
      }
    }
    assert Fits(SPEC, Obj(spec'));
  }

  /** A patch never reaches the owner, not even the owner's own or an administrator's. */
  lemma PatchKeepsOwner(w: Cluster, c: Caller, id: Id, body: Json, works: bool, other: Id)
    requires other in w.products
    ensures var w' := Patch(w, c, id, body, works).0;
            other in w'.products && OwnerOf(w'.products[other]) == OwnerOf(w.products[other])
  {
    hide FinalPatch, MayChange;
    if Parse(PATCH_SCHEMA, body).Some? {
      var parsed := Parse(PATCH_SCHEMA, body).value;
      ParsedFits(PATCH_SCHEMA, body);
      if FinalPatch(w, id, parsed).Ok? {
        FinalPatchFits(w, id, parsed);
        SchemaMissesOwner();
        PatchLeavesUncovered(PATCH_SCHEMA, Some(w.products[other]), FinalPatch(w, id, parsed).value, OWNER_PATH);
      }
    }
  }

  lemma HandleKeepsOwners(w: Cluster, creators: map<Id, string>, r: Request)
    requires OwnersRecorded(w, creators)
    ensures OwnersRecorded(Handle(w, r).0, Recorded(w, creators, r))
  {
    hide NewProduct, OwnerOf, HasTarget, Patched, FinalPatch;
    match r {
      case CreateRequest(c, body, works) =>
        if NewProduct(c, body).Some? {
          NewProductOwned(c, body);
        }
      case PatchRequest(c, id, body, works) =>
        forall other | other in w.products
          ensures var w' := Handle(w, r).0;
                  other in w'.products && OwnerOf(w'.products[other]) == OwnerOf(w.products[other])
        {
          PatchKeepsOwner(w, c, id, body, works, other);
        }
      case DeleteRequest(c, id, listed, stuck, works) =>
    }
  }

  lemma {:induction false} RunKeepsOwners(w: Cluster, creators: map<Id, string>, requests: seq<Request>)
    requires OwnersRecorded(w, creators)
    ensures OwnersRecorded(Run(w, creators, requests).0, Run(w, creators, requests).1)
    decreases |requests|
  {
    hide Handle, Recorded, OwnersRecorded;
    if requests != [] {
      HandleKeepsOwners(w, creators, requests[0]);
      RunKeepsOwners(Handle(w, requests[0]).0, Recorded(w, creators, requests[0]), requests[1..]);
    }
  }

  /** Over every run from a cluster without products, each product's owner annotation is the
      identity that created it. */
  lemma OwnerIsCreator(keys: map<Id, string>, requests: seq<Request>)
    ensures var (w, creators) := Run(Cluster(map[], keys), map[], requests);
            && w.products.Keys == creators.Keys
            && forall id :: id in w.products ==> OwnerOf(w.products[id]) == Some(Str(creators[id]))
  {
    RunKeepsOwners(Cluster(map[], keys), map[], requests);
  }

  /** Whether a request takes a product away or alters it. */
  ghost predicate Alters(w: Cluster, r: Request, id: Id) {
    id in w.products && !(id in Handle(w, r).0.products && Handle(w, r).0.products[id] == w.products[id])
  }

  /** Without an all-permission, a caller alters only products that carry the caller's identity;
      and nobody alters a product without the own- or the all-permission. */
  lemma OnlyOwnAltered(w: Cluster, r: Request, id: Id)
    requires Alters(w, r, id)
    ensures r.PatchRequest? || r.DeleteRequest?
    ensures r.id == id
    ensures var (all, own) :=
              if r.PatchRequest? then (ProductUpdateAll, ProductUpdateOwn) else (ProductDeleteAll, ProductDeleteOwn);
            all in r.c.may || (own in r.c.may && OwnerOf(w.products[id]) == Some(Str(r.c.ref)))
  {
    hide NewProduct, OwnerOf, FinalPatch, Patched, HasTarget;
  }

  /** So over every run from a cluster without products, whoever alters a product without the
      all-permission is the one who created it. */
  lemma OnlyCreatorAlters(keys: map<Id, string>, requests: seq<Request>, r: Request, id: Id)
    requires Alters(Run(Cluster(map[], keys), map[], requests).0, r, id)
    requires if r.PatchRequest? then ProductUpdateAll !in r.c.may else ProductDeleteAll !in r.c.may
    ensures var creators := Run(Cluster(map[], keys), map[], requests).1;
            id in creators && creators[id] == r.c.ref
  {
    hide Run, Alters, OwnerOf;
    var w := Run(Cluster(map[], keys), map[], requests).0;
    OwnerIsCreator(keys, requests);
    AlteredIsThere(w, r, id);
    OnlyOwnAltered(w, r, id);
  }

  lemma AlteredIsThere(w: Cluster, r: Request, id: Id)
    requires Alters(w, r, id)
    ensures id in w.products
  {
    hide Handle;
  }

  // ----- Retired products

  predicate Published(product: Json) {
    At(product, STATUS_PATH) == Some(Str("Published"))
  }

  predicate Retired(product: Json) {
    At(product, LIFECYCLE_PATH) == Some(Str("retired"))
  }

  lemma SchemaPaths()
    ensures SchemaAt(PATCH_SCHEMA, LIFECYCLE_PATH) == Some(LABELS.members["lifecycle"])
    ensures SchemaAt(PATCH_SCHEMA, STATUS_PATH) == Some(SPEC.members["publishStatus"])
  {
    assert LIFECYCLE_PATH[1..] == ["labels", "lifecycle"];
    assert ["labels", "lifecycle"][1..] == ["lifecycle"];
    assert STATUS_PATH[1..] == ["publishStatus"];
    assert ["publishStatus"][1..] == [] && ["lifecycle"][1..] == [];
    assert SchemaAt(LABELS, ["lifecycle"]) == Some(LABELS.members["lifecycle"]);
    assert SchemaAt(METADATA, ["labels", "lifecycle"]) == Some(LABELS.members["lifecycle"]);
    assert SchemaAt(SPEC, ["publishStatus"]) == Some(SPEC.members["publishStatus"]);
  }

  /** At an enumerated place, the patched value is the patch's, if it has one, or the old one. */
  lemma EnumAfterPatch(product: Json, body: Json, p: Path)
    requires Parse(PATCH_SCHEMA, body).Some?
    requires SchemaAt(PATCH_SCHEMA, p).Some? && SchemaAt(PATCH_SCHEMA, p).value.Enum?
    ensures var patch := Parse(PATCH_SCHEMA, body).value;
            At(Patched(Some(product), patch), p) == if At(patch, p).Some? then At(patch, p) else At(product, p)
  {
    hide Parse, SchemaAt, Patched;
    var patch := Parse(PATCH_SCHEMA, body).value;
    ParsedEnum(PATCH_SCHEMA, body, p);
    if Misses(patch, p) {
      MissesHasNothing(patch, p);
      PatchMisses(Some(product), patch, p);
    } else {
      PatchSets(Some(product), patch, p);
    }
  }

  lemma DraftAfterPatch(product: Json, patch: Json)
    ensures At(Patched(Some(product), WithDraft(patch)), STATUS_PATH) == Some(Str("Draft"))
  {
    assert STATUS_PATH == ["spec"] + (["publishStatus"] + []);
    AtStep(WithDraft(patch), "spec", ["publishStatus"] + []);
    AtStep(WithDraft(patch).fields["spec"], "publishStatus", []);
    PatchSets(Some(product), WithDraft(patch), STATUS_PATH);
  }

  /** When a successful patch leaves a product both retired and published: exactly when the patch
      says nothing about the lifecycle, the product was retired before, and it is or becomes
      published.  A patch that retires a product never does. */
  lemma RetiredAndPublishedExactly(w: Cluster, c: Caller, id: Id, body: Json, works: bool)
    requires Patch(w, c, id, body, works).1 == Done
    ensures id in w.products && Parse(PATCH_SCHEMA, body).Some?
    ensures var before, after := w.products[id], Patch(w, c, id, body, works).0.products[id];
            var patch := Parse(PATCH_SCHEMA, body).value;
            Retired(after) && Published(after) <==>
              && At(patch, LIFECYCLE_PATH).None? && Retired(before)
              && (|| At(patch, STATUS_PATH) == Some(Str("Published"))
                  || (At(patch, STATUS_PATH).None? && Published(before)))
  {
    hide Parse, Patched, MayChange, At, SchemaAt, WithDraft;
    var patch := Parse(PATCH_SCHEMA, body).value;
    SchemaPaths();
    EnumAfterPatch(w.products[id], body, LIFECYCLE_PATH);
    EnumAfterPatch(w.products[id], body, STATUS_PATH);
    DraftAfterPatch(w.products[id], patch);
  }

  // ----- A product as a concrete request creates it

  /** A request body for the product `p`. */
  function ProductBody(namespace: string, status: string, lifecycle: string): Json {
    Obj(map[
      "metadata" := Obj(map["name" := Str("p"), "labels" := Obj(map["lifecycle" := Str(lifecycle)])]),
      "spec" := Obj(map[
        "publishStatus" := Str(status),
        "targetRef" := Obj(map["name" := Str("r"), "kind" := Str("HTTPRoute"), "namespace" := Str(namespace)])])])
  }

  /** The product that the body becomes. */
  function CreatedProduct(c: Caller, body: Json): Json {
    if NewProduct(c, body).Some? then NewProduct(c, body).value.1 else Null
  }

  lemma BodyCreates(w: Cluster, c: Caller, namespace: string, status: string, lifecycle: string)
    requires ProductCreate in c.may && namespace != "" && Id(namespace, "p") !in w.products
    ensures var body := ProductBody(namespace, status, lifecycle);
            && Create(w, c, body, true) ==
               (w.(products := w.products[Id(namespace, "p") := CreatedProduct(c, body)]), Done)
            && (Published(CreatedProduct(c, body)) <==> status == "Published")
            && (Retired(CreatedProduct(c, body)) <==> lifecycle == "retired")
            && OwnerOf(CreatedProduct(c, body)) == Some(Str(c.ref))
  {
    var body := ProductBody(namespace, status, lifecycle);
    AtTwo(body, "spec", "targetRef");
    assert NewProduct(c, body).Some? && NewProduct(c, body).value.0 == Id(namespace, "p");
    var product := CreatedProduct(c, body);
    AtTwo(product, "spec", "publishStatus");
    AtThree(product, "metadata", "labels", "lifecycle");
    NewProductOwned(c, body);
  }

  const PUBLISHING := Obj(map["spec" := Obj(map["publishStatus" := Str("Published")])])

  /** A retired draft, published by a patch that says nothing about the lifecycle: the product ends
      up both retired and published. */
  lemma RetiredThenPublished()
    ensures var c := Caller("user:default/a", {ProductCreate, ProductUpdateAll});
            var requests := [CreateRequest(c, ProductBody("n", "Draft", "retired"), true),
                             PatchRequest(c, Id("n", "p"), PUBLISHING, true)];
            var w := Run(Cluster(map[], map[]), map[], requests).0;
            Id("n", "p") in w.products && Retired(w.products[Id("n", "p")]) && Published(w.products[Id("n", "p")])
  {
    hide Retired, Published, NewProduct, HasTarget, Patched, Parse, ProductBody, Recorded;
    var c, id := Caller("user:default/a", {ProductCreate, ProductUpdateAll}), Id("n", "p");
    var w0 := Cluster(map[], map[]);
    var requests := [CreateRequest(c, ProductBody("n", "Draft", "retired"), true),
                     PatchRequest(c, id, PUBLISHING, true)];
    BodyCreates(w0, c, "n", "Draft", "retired");
    var w1 := Handle(w0, requests[0]).0;
    PublishingParses();
    AtTwo(PUBLISHING, "spec", "publishStatus");
    AtThree(PUBLISHING, "metadata", "labels", "lifecycle");
    assert Patch(w1, c, id, PUBLISHING, true).1 == Done;
    RetiredAndPublishedExactly(w1, c, id, PUBLISHING, true);
    RunTwo(w0, map[], requests[0], requests[1]);
  }

  lemma RunTwo(w: Cluster, creators: map<Id, string>, r: Request, r': Request)
    ensures Run(w, creators, [r, r']).0 == Handle(Handle(w, r).0, r').0
  {
    hide Handle, Recorded;
    var w1, creators1 := Handle(w, r).0, Recorded(w, creators, r);
    assert [r, r'][1..] == [r'];
    assert [r'][1..] == [];
    assert Run(w1, creators1, [r']).0 == Handle(w1, r').0;
  }

  /** A body with a single member that parses, where nothing else is required, parses to itself. */
  lemma SingleParses(schema: Schema, k: string, j: Json)
    requires schema.Object? && k in schema.members && schema.required <= {k}
    requires Parse(schema.members[k], j) == Some(j)
    ensures Parse(schema, Obj(map[k := j])) == Some(Obj(map[k := j]))
  {
    var body := Obj(map[k := j]);
    assert schema.required <= body.fields.Keys;
    assert forall k' :: k' in schema.members && k' in body.fields ==> k' == k;
    assert Parse(schema, body).value.fields == body.fields;
  }

  lemma PublishingParses()
    ensures Parse(PATCH_SCHEMA, PUBLISHING) == Some(PUBLISHING)
  {
    SingleParses(SPEC, "publishStatus", Str("Published"));
    SingleParses(PATCH_SCHEMA, "spec", PUBLISHING.fields["spec"]);
  }

  // ----- The handlers, changing the cluster step by step

  class ProductRouter {
    var products: map<Id, Json>
    var keys: map<Id, string>

    function Value(): Cluster
      reads this
    {
      Cluster(products, keys)
    }

    constructor (keys: map<Id, string>)
      ensures Value() == Cluster(map[], keys)
    {
      products, this.keys := map[], keys;
    }

    /** getCustomResource, then the comparison of owner and caller */
    method CheckOwner(c: Caller, id: Id) returns (answer: Answer)
      ensures answer == if id !in products then Failed else if Owns(c, products[id]) then Done else Forbidden
    {
      if id !in products {
        return Failed;
      }
      var owner := At(products[id], OWNER_PATH);
      answer := if owner != Some(Str(c.ref)) then Forbidden else Done;
    }

    method PostProduct(c: Caller, body: Json, works: bool) returns (answer: Answer)
      modifies this
      ensures (Value(), answer) == Create(old(Value()), c, body, works)
    {
      if ProductCreate !in c.may {
        return Forbidden;
      }
      if !HasTarget(body) {
        return BadRequest;
      }
      match NewProduct(c, body) {
        case None =>
          answer := Failed;
        case Some((id, product)) =>
          if id in products || !works {
            return Failed;
          }
          products := products[id := product];
          answer := Done;
      }
    }

    method PatchProduct(c: Caller, id: Id, body: Json, works: bool) returns (answer: Answer)
      modifies this
      ensures (Value(), answer) == Patch(old(Value()), c, id, body, works)
    {
      hide Parse, Patched, Owns;
      var parsed := Parse(PATCH_SCHEMA, body);
      if parsed == None {
        return BadRequest;
      }
      if ProductUpdateAll !in c.may {
        if ProductUpdateOwn !in c.may {
          return Forbidden;
        }
        answer := CheckOwner(c, id);
        if answer != Done {
          return;
        }
      }
      var patch := parsed.value;
      var lifecycle := At(patch, LIFECYCLE_PATH);
      if At(patch, STATUS_PATH) == Some(Str("Published")) && lifecycle == Some(Str("retired")) {
        return BadRequest;
      }
      if lifecycle == Some(Str("retired")) {
        if id !in products {
          return Failed;
        }
        if At(products[id], STATUS_PATH) == Some(Str("Published")) {
          patch := WithDraft(patch);
        }
      }
      if id !in products || !works {
        return Failed;
      }
      products := products[id := Patched(Some(products[id]), patch)];
      answer := Done;
    }

    /** Deletes each related key; a failure keeps that key and stops nothing. */
    method DeleteKeys(related: set<Id>, stuck: set<Id>)
      modifies this`keys
      ensures keys == old(keys) - (related - stuck)
    {
      var todo := related;
      while todo != {}
        invariant todo <= related
        invariant keys == old(keys) - (related - todo - stuck)
      {
        var k :| k in todo;
        if k !in stuck {
          keys := keys - {k};
        }
        todo := todo - {k};
      }
    }

    method DeleteProduct(c: Caller, id: Id, listed: bool, stuck: set<Id>, works: bool) returns (answer: Answer)
      modifies this
      ensures (Value(), answer) == Delete(old(Value()), c, id, listed, stuck, works)
      ensures answer == Done ==>
                && id !in products
                && forall other :: other in old(products) && other != id ==> other in products
      ensures answer == Done && listed && stuck == {} ==>
                forall k :: k in keys && k.namespace == id.namespace ==> keys[k] != id.name
      ensures forall k :: k in old(keys) && (k.namespace != id.namespace || old(keys)[k] != id.name) ==>
                k in keys && keys[k] == old(keys)[k]
    {
      hide Owns;
      if ProductDeleteAll !in c.may {
        if ProductDeleteOwn !in c.may {
          return Forbidden;
        }
        answer := CheckOwner(c, id);
        if answer != Done {
          return;
        }
      }
      DeleteKeys(Related(Value(), id, listed), stuck);
      if id !in products || !works {
        return Failed;
      }
      products := products - {id};
      answer := Done;
    }
  }
}
