/** When the product handlers of plugins/kuadrant-backend/src/router.ts succeed and what they then
    change, place by place. */
module ProductChanges {
  import opened Wrappers
  import opened MergePatch
  import opened ProductHandlers

  /** The annotation that names the owner. */
  predicate CarriesOwner(product: Json, ref: string) {
    At(product, ["metadata", "annotations", "backstage.io/owner"]) == Some(Str(ref))
  }

  predicate IsPlain(j: Option<Json>) {
    j.Some? && !j.value.Obj? && j.value != Null
  }

  predicate Apart(p: Path, q: Path) {
    !(p <= q) && !(q <= p)
  }

  // ----- Patch

  /** A parsed body that retires a product meets a published one. */
  predicate Retires(before: Json, patch: Json) {
    && At(patch, ["metadata", "labels", "lifecycle"]) == Some(Str("retired"))
    && At(before, ["spec", "publishStatus"]) == Some(Str("Published"))
  }

  lemma WithDraftAt(patch: Json, p: Path)
    requires patch.Obj? && p != [] && p != ["spec"] && !(STATUS_PATH <= p)
    requires "spec" in patch.fields ==> patch.fields["spec"].Obj?
    ensures At(WithDraft(patch), p) == At(patch, p)
  {
    if p[0] == "spec" {
      assert p == ["spec"] + p[1..];
      assert p[1..] != [] && p[1..][0] == p[1];
      assert p[1] == "publishStatus" ==> STATUS_PATH <= p by {
        assert STATUS_PATH == [p[0], "publishStatus"];
      }
    }
  }

  lemma WithDraftMisses(patch: Json, p: Path)
    requires Misses(patch, p) && !(STATUS_PATH <= p)
    requires "spec" in patch.fields && patch.fields["spec"].Obj?
    ensures Misses(WithDraft(patch), p)
  {
    if p[0] == "spec" {
      assert p[1..] != [] && p[1..][0] == p[1];
      assert p[1] == "publishStatus" ==> STATUS_PATH <= p by {
        assert STATUS_PATH == [p[0], "publishStatus"];
      }
    }
  }

  /** Nothing stands below a place that holds no object. */
  lemma {:induction false} NothingBelow(j: Json, p: Path, q: Path)
    requires p < q && (At(j, p).None? || !At(j, p).value.Obj?)
    ensures At(j, q).None?
    decreases p
  {
    if p != [] && j.Obj? && p[0] in j.fields {
      assert p[0] == q[0] && p[1..] < q[1..];
      NothingBelow(j.fields[p[0]], p[1..], q[1..]);
    }
  }

  lemma SpecParsed(body: Json)
    requires Parse(PATCH_SCHEMA, body).Some?
    ensures var patch := Parse(PATCH_SCHEMA, body).value;
            patch.Obj? && "spec" in patch.fields && patch.fields["spec"].Obj?
  {
    ParsedFits(PATCH_SCHEMA, body);
    assert "spec" in body.fields;
  }

  /** What the patch that is sent says, compared with the parsed body. */
  lemma FinalPatchSays(w: Cluster, id: Id, body: Json)
    requires id in w.products && Parse(PATCH_SCHEMA, body).Some?
    requires FinalPatch(w, id, Parse(PATCH_SCHEMA, body).value).Ok?
    ensures var patch := Parse(PATCH_SCHEMA, body).value;
            FinalPatch(w, id, patch).value == if Retires(w.products[id], patch) then WithDraft(patch) else patch
  {
    hide Parse, WithDraft;
  }

  lemma StatusIsText(body: Json)
    requires Parse(PATCH_SCHEMA, body).Some?
    ensures var status := At(Parse(PATCH_SCHEMA, body).value, STATUS_PATH); status.Some? ==> status.value.Str?
  {
    hide Parse, SchemaAt;
    SchemaPaths();
    ParsedEnum(PATCH_SCHEMA, body, STATUS_PATH);
    var patch := Parse(PATCH_SCHEMA, body).value;
    if Misses(patch, STATUS_PATH) {
      MissesHasNothing(patch, STATUS_PATH);
    }
  }

  lemma AtOne(j: Json, k: string)
    ensures At(j, [k]) == Field(Some(j), k)
  {
    assert [k] == [k] + [];
    AtStep(j, k, []);
  }

  lemma PlainSet(before: Json, body: Json, p: Path)
    requires Parse(PATCH_SCHEMA, body).Some? && IsPlain(At(Parse(PATCH_SCHEMA, body).value, p))
    ensures var patch := Parse(PATCH_SCHEMA, body).value;
            && At(Patched(Some(before), patch), p) == At(patch, p)
            && At(Patched(Some(before), WithDraft(patch)), p) ==
               if p == STATUS_PATH then Some(Str("Draft")) else At(patch, p)
  {
    hide Patched, Parse, WithDraft;
    var patch := Parse(PATCH_SCHEMA, body).value;
    SpecParsed(body);
    PatchSets(Some(before), patch, p);
    DraftAfterPatch(before, patch);
    if p != STATUS_PATH {
      assert !(STATUS_PATH < p) by {
        StatusIsText(body);
        if STATUS_PATH < p {
          NothingBelow(patch, STATUS_PATH, p);
        }
      }
      AtOne(patch, "spec");
      WithDraftAt(patch, p);
      PatchSets(Some(before), WithDraft(patch), p);
    }
  }

  lemma MissedKept(before: Json, body: Json, p: Path)
    requires Parse(PATCH_SCHEMA, body).Some? && Misses(Parse(PATCH_SCHEMA, body).value, p)
    ensures var patch := Parse(PATCH_SCHEMA, body).value;
            && At(Patched(Some(before), patch), p) == At(before, p)
            && (p != STATUS_PATH && At(before, STATUS_PATH) == Some(Str("Published")) ==>
                  At(Patched(Some(before), WithDraft(patch)), p) == At(before, p))
  {
    hide Patched, Parse, WithDraft;
    var patch := Parse(PATCH_SCHEMA, body).value;
    SpecParsed(body);
    PatchMisses(Some(before), patch, p);
    if p != STATUS_PATH && At(before, STATUS_PATH) == Some(Str("Published")) {
      if STATUS_PATH < p {
        DraftAfterPatch(before, patch);
        NothingBelow(before, STATUS_PATH, p);
        NothingBelow(Patched(Some(before), WithDraft(patch)), STATUS_PATH, p);
      } else {
        WithDraftMisses(patch, p);
        PatchMisses(Some(before), WithDraft(patch), p);
      }
    }
  }

  /** A successful patch puts every plain value of the parsed body in its place and leaves every place
      that the body misses as it was, except that a published product that is retired becomes a
      draft; and it changes nothing else in the cluster. */
  lemma PatchDoes(w: Cluster, c: Caller, id: Id, body: Json, works: bool)
    requires Patch(w, c, id, body, works).1 == Done
    ensures id in w.products && Parse(PATCH_SCHEMA, body).Some?
    ensures var w', patch := Patch(w, c, id, body, works).0, Parse(PATCH_SCHEMA, body).value;
            var draft := Retires(w.products[id], patch);
            && w' == w.(products := w.products[id := w'.products[id]])
            && (draft ==> At(w'.products[id], ["spec", "publishStatus"]) == Some(Str("Draft")))
            && (forall p: Path :: IsPlain(At(patch, p)) && !(draft && p == ["spec", "publishStatus"]) ==>
                  At(w'.products[id], p) == At(patch, p))
            && (forall p: Path :: Misses(patch, p) && !(draft && p == ["spec", "publishStatus"]) ==>
                  At(w'.products[id], p) == At(w.products[id], p))
  {
    hide Parse, Patched, WithDraft, Misses, IsPlain, At, MayChange;
    var patch := Parse(PATCH_SCHEMA, body).value;
    FinalPatchSays(w, id, body);
    DraftAfterPatch(w.products[id], patch);
    forall p: Path | IsPlain(At(patch, p))
      ensures At(Patched(Some(w.products[id]), patch), p) == At(patch, p)
      ensures p != STATUS_PATH ==> At(Patched(Some(w.products[id]), WithDraft(patch)), p) == At(patch, p)
    {
      PlainSet(w.products[id], body, p);
    }
    forall p: Path | Misses(patch, p)
      ensures At(Patched(Some(w.products[id]), patch), p) == At(w.products[id], p)
      ensures p != STATUS_PATH && Retires(w.products[id], patch) ==>
                At(Patched(Some(w.products[id]), WithDraft(patch)), p) == At(w.products[id], p)
    {
      MissedKept(w.products[id], body, p);
    }
  }

  /** A patch succeeds exactly if the body is accepted and does not publish what it retires, the caller
      has the permission for all products, or that for the caller's own and the product names the
      caller, and the product is there and the API server works. */
  lemma PatchSucceedsExactly(w: Cluster, c: Caller, id: Id, body: Json, works: bool)
    ensures Patch(w, c, id, body, works).1 == Done <==>
              && works && id in w.products && Parse(PATCH_SCHEMA, body).Some?
              && (ProductUpdateAll in c.may || (ProductUpdateOwn in c.may && CarriesOwner(w.products[id], c.ref)))
              && !(var patch := Parse(PATCH_SCHEMA, body).value;
                   && At(patch, ["metadata", "labels", "lifecycle"]) == Some(Str("retired"))
                   && At(patch, ["spec", "publishStatus"]) == Some(Str("Published")))
    ensures Patch(w, c, id, body, works).1 != Done ==> Patch(w, c, id, body, works).0 == w
  {
    hide Parse, Patched, WithDraft, At;
  }

  /** The places that a patch can set, and what it can put there. */
  function Place(p: Path): Option<Schema> {
    if |p| == 2 && p[0] == "spec" then
      if p[1] in {"displayName", "description", "version"} then Some(String)
      else if p[1] == "publishStatus" then Some(Enum(["Draft", "Published"]))
      else if p[1] == "approvalMode" then Some(Enum(["automatic", "manual"]))
      else if p[1] == "tags" then Some(Strings)
      else None
    else if |p| == 3 && p[0] == "metadata" && p[1] == "labels" && p[2] == "lifecycle" then
      Some(Enum(["experimental", "production", "deprecated", "retired"]))
    else if |p| == 3 && p[0] == "spec" && p[1] == "contact" && p[2] in {"email", "team", "slack"} then Some(String)
    else if |p| == 3 && p[0] == "spec" && p[1] == "documentation" && p[2] in {"docsURL", "openAPISpecURL"} then
      Some(String)
    else None
  }

  function Member(schema: Option<Schema>, k: string): Option<Schema> {
    if schema.Some? && schema.value.Object? && k in schema.value.members then Some(schema.value.members[k]) else None
  }

  lemma {:induction false} SchemaStep(schema: Schema, p: Path)
    requires p != []
    ensures SchemaAt(schema, p) == Member(SchemaAt(schema, p[..|p| - 1]), p[|p| - 1])
    decreases p
  {
    if |p| > 1 && schema.Object? && p[0] in schema.members {
      assert p[1..][..|p| - 2] == p[..|p| - 1][1..];
      SchemaStep(schema.members[p[0]], p[1..]);
    }
  }

  lemma ShortPlaces(p: Path)
    requires |p| <= 1
    ensures SchemaAt(PATCH_SCHEMA, p) ==
            if p == [] then Some(PATCH_SCHEMA) else if p[0] == "metadata" then Some(METADATA)
            else if p[0] == "spec" then Some(SPEC) else None
  {
    if p != [] {
      SchemaStep(PATCH_SCHEMA, p);
    }
  }

  lemma PlacesOfTwo(p: Path)
    requires |p| == 2
    ensures SchemaAt(PATCH_SCHEMA, p) ==
            if p[0] == "metadata" && p[1] == "labels" then Some(LABELS)
            else if p[0] == "spec" && p[1] == "contact" then Some(CONTACT)
            else if p[0] == "spec" && p[1] == "documentation" then Some(DOCUMENTATION)
            else Place(p)
  {
    hide SchemaAt;
    SchemaStep(PATCH_SCHEMA, p);
    ShortPlaces(p[..1]);
  }

  lemma PlacesOfThree(p: Path)
    requires |p| == 3
    ensures SchemaAt(PATCH_SCHEMA, p) == Place(p)
  {
    hide SchemaAt;
    SchemaStep(PATCH_SCHEMA, p);
    PlacesOfTwo(p[..2]);
  }

  lemma {:induction false} NoLongerPlaces(p: Path)
    requires |p| > 3
    ensures SchemaAt(PATCH_SCHEMA, p).None?
  {
    SchemaStep(PATCH_SCHEMA, p);
    if |p| == 4 {
      PlacesOfThree(p[..3]);
    } else {
      NoLongerPlaces(p[..|p| - 1]);
    }
  }

  /** These are all the places that a patch can set. */
  lemma PlacesExactly(p: Path)
    ensures Place(p) ==
            var schema := SchemaAt(PATCH_SCHEMA, p);
            if schema.Some? && !schema.value.Object? then schema else None
  {
    hide SchemaAt;
    if |p| <= 1 {
      ShortPlaces(p);
    } else if |p| == 2 {
      PlacesOfTwo(p);
    } else if |p| == 3 {
      PlacesOfThree(p);
    } else {
      NoLongerPlaces(p);
    }
  }

  // ----- Delete

  lemma DeleteSucceedsExactly(w: Cluster, c: Caller, id: Id, listed: bool, stuck: set<Id>, works: bool)
    ensures Delete(w, c, id, listed, stuck, works).1 == Done <==>
              && works && id in w.products
              && (ProductDeleteAll in c.may || (ProductDeleteOwn in c.may && CarriesOwner(w.products[id], c.ref)))
    ensures Delete(w, c, id, listed, stuck, works).1 == Done ==>
              Delete(w, c, id, listed, stuck, works).0.products == w.products - {id}
    ensures Delete(w, c, id, listed, stuck, works).1 != Done ==>
              Delete(w, c, id, listed, stuck, works).0.products == w.products
  {
    hide At;
  }

  // ----- Create

  /** The target that a body has to name. */
  predicate NamesTarget(body: Json) {
    && Truthy(At(body, ["spec", "targetRef", "name"])) && Truthy(At(body, ["spec", "targetRef", "kind"]))
    && Truthy(At(body, ["spec", "targetRef", "namespace"]))
  }

  /** The body names a product that is not there yet, and has no annotations but in an object. */
  ghost predicate NamesNew(w: Cluster, body: Json, namespace: string, name: string) {
    && At(body, ["spec", "targetRef", "namespace"]) == Some(Str(namespace))
    && At(body, ["metadata", "name"]) == Some(Str(name)) && name != ""
    && Id(namespace, name) !in w.products
    && (Truthy(At(body, ["metadata", "annotations"])) ==> At(body, ["metadata", "annotations"]).value.Obj?)
  }

  lemma PlacesInBody(body: Json)
    ensures At(body, ["spec", "targetRef", "namespace"]) == Field(TargetRef(body), "namespace")
    ensures At(body, ["spec", "targetRef", "name"]) == Field(TargetRef(body), "name")
    ensures At(body, ["spec", "targetRef", "kind"]) == Field(TargetRef(body), "kind")
    ensures At(body, ["metadata", "name"]) == Field(Field(Some(body), "metadata"), "name")
    ensures At(body, ["metadata", "annotations"]) == Field(Field(Some(body), "metadata"), "annotations")
  {
    hide At;
    AtThree(body, "spec", "targetRef", "namespace");
    AtThree(body, "spec", "targetRef", "name");
    AtThree(body, "spec", "targetRef", "kind");
    AtTwo(body, "spec", "targetRef");
    AtTwo(body, "metadata", "name");
    AtTwo(body, "metadata", "annotations");
  }

  /** A product is created exactly if the caller has the permission, the API server works, and the body
      names a target and a new product. */
  lemma CreateSucceedsExactly(w: Cluster, c: Caller, body: Json, works: bool)
    ensures Create(w, c, body, works).1 == Done <==>
              && ProductCreate in c.may && works && NamesTarget(body)
              && exists namespace, name :: NamesNew(w, body, namespace, name)
    ensures Create(w, c, body, works).1 != Done ==> Create(w, c, body, works).0 == w
  {
    hide At, Truthy;
    PlacesInBody(body);
    if Create(w, c, body, works).1 == Done {
      var id := NewProduct(c, body).value.0;
      assert NamesNew(w, body, id.namespace, id.name);
    }
  }

  /** It is filed under its name, in the namespace of its target, and nothing else changes. */
  lemma CreateDoes(w: Cluster, c: Caller, body: Json, works: bool, namespace: string, name: string)
    requires Create(w, c, body, works).1 == Done && NamesNew(w, body, namespace, name)
    ensures var w', id := Create(w, c, body, works).0, Id(namespace, name);
            && id in w'.products && w' == w.(products := w.products[id := w'.products[id]])
            && CreatedFrom(w'.products[id], body, namespace, c)
  {
    hide At, Truthy;
    PlacesInBody(body);
    CreatedProductIs(c, body);
  }

  /** The product has the caller as its owner and the namespace, and everything else from the body. */
  ghost predicate CreatedFrom(product: Json, body: Json, namespace: string, c: Caller) {
    && CarriesOwner(product, c.ref)
    && At(product, ["metadata", "namespace"]) == Some(Str(namespace))
    && forall p: Path ::
         Apart(p, ["metadata", "namespace"]) && Apart(p, ["metadata", "annotations", "backstage.io/owner"]) ==>
           At(product, p) == At(body, p)
  }

  lemma CreatedProductIs(c: Caller, body: Json)
    requires NewProduct(c, body).Some?
    ensures CreatedFrom(NewProduct(c, body).value.1, body, NewProduct(c, body).value.0.namespace, c)
  {
    hide At;
    var (id, product) := NewProduct(c, body).value;
    NewProductOwned(c, body);
    AtTwo(product, "metadata", "namespace");
    forall p: Path | Apart(p, ["metadata", "namespace"]) && Apart(p, ["metadata", "annotations", "backstage.io/owner"])
      ensures At(product, p) == At(body, p)
    {
      ElsewhereFromBody(c, body, p);
    }
  }

  lemma ElsewhereFromBody(c: Caller, body: Json, p: Path)
    requires NewProduct(c, body).Some?
    requires Apart(p, ["metadata", "namespace"]) && Apart(p, ["metadata", "annotations", "backstage.io/owner"])
    ensures At(NewProduct(c, body).value.1, p) == At(body, p)
  {
    var product := NewProduct(c, body).value.1;
    if p[0] == "metadata" {
      var meta, meta' := body.fields["metadata"], product.fields["metadata"];
      var q := p[1..];
      assert p == ["metadata"] + q;
      assert q != [] && q[0] != "namespace";
      assert At(product, p) == At(meta', q) && At(body, p) == At(meta, q);
      if q[0] == "annotations" {
        var r := q[1..];
        assert p == ["metadata", "annotations"] + r;
        assert r != [] && r[0] != "backstage.io/owner";
        AnnotationsFromBody(c, body, r);
        assert At(meta', q) == At(meta'.fields["annotations"], r);
        assert At(meta, q) == if "annotations" in meta.fields then At(meta.fields["annotations"], r) else None;
      }
    }
  }

  lemma AnnotationsFromBody(c: Caller, body: Json, r: Path)
    requires NewProduct(c, body).Some? && r != [] && r[0] != "backstage.io/owner"
    ensures var meta, meta' := body.fields["metadata"], NewProduct(c, body).value.1.fields["metadata"];
            At(meta'.fields["annotations"], r) ==
            if "annotations" in meta.fields then At(meta.fields["annotations"], r) else None
  {
  }
}
