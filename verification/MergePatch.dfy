/** JSON values, the schema that strips a request body, and the merge patch that the Kubernetes
    API server applies (section 2 of RFC 7396). */
module MergePatch {
  import opened Wrappers

  datatype Json =
    | Null
    | Bool(b: bool)
    | Number(n: real)
    | Str(s: string)
    | Arr(items: seq<Json>)
    | Obj(fields: map<string, Json>)

  type Path = seq<string>

  function At(j: Json, p: Path): Option<Json> {
    if p == [] then Some(j)
    else if j.Obj? && p[0] in j.fields then At(j.fields[p[0]], p[1..])
    else None
  }

  function AtOption(j: Option<Json>, p: Path): Option<Json> {
    match j
    case None => None
    case Some(v) => At(v, p)
  }

  function Fields(j: Option<Json>): map<string, Json> {
    if j.Some? && j.value.Obj? then j.value.fields else map[]
  }

  function Field(j: Option<Json>, k: string): Option<Json> {
    if k in Fields(j) then Some(Fields(j)[k]) else None
  }

  lemma AtStep(j: Json, k: string, rest: Path)
    ensures At(j, [k] + rest) == AtOption(Field(Some(j), k), rest)
  {
    assert ([k] + rest)[1..] == rest;
  }

  lemma AtTwo(j: Json, a: string, b: string)
    ensures At(j, [a, b]) == Field(Field(Some(j), a), b)
  {
    assert [a, b] == [a] + [b] && [b] == [b] + [];
    AtStep(j, a, [b]);
    if Field(Some(j), a).Some? {
      AtStep(Field(Some(j), a).value, b, []);
    }
  }

  lemma AtThree(j: Json, a: string, b: string, c: string)
    ensures At(j, [a, b, c]) == Field(Field(Field(Some(j), a), b), c)
  {
    assert [a, b, c] == [a] + [b, c];
    AtStep(j, a, [b, c]);
    if Field(Some(j), a).Some? {
      AtTwo(Field(Some(j), a).value, b, c);
    }
  }

  /** The merge patch: null removes a member, an object is merged member by member, anything
      else replaces what was there. */
  function Patched(target: Option<Json>, patch: Json): Json
    decreases patch
  {
    if !patch.Obj? then patch else
    Obj(map k | k in Fields(target).Keys + patch.fields.Keys && !(k in patch.fields && patch.fields[k] == Null) ::
          if k in patch.fields then Patched(Field(target, k), patch.fields[k]) else Fields(target)[k])
  }

  // ----- Schemas

  /** The part of zod that the handlers use; object members are optional unless required. */
  datatype Schema =
    | String
    | Enum(values: seq<string>)
    | Strings
    | Object(members: map<string, Schema>, required: set<string>)

  /** schema.safeParse: members that the schema does not know are left out. */
  function Parse(schema: Schema, j: Json): Option<Json>
    decreases schema
  {
    match schema
    case String => if j.Str? then Some(j) else None
    case Enum(values) => if j.Str? && j.s in values then Some(j) else None
    case Strings => if j.Arr? && forall i :: 0 <= i < |j.items| ==> j.items[i].Str? then Some(j) else None
    case Object(members, required) =>
      if j.Obj? && required <= j.fields.Keys
         && forall k :: k in members && k in j.fields ==> Parse(members[k], j.fields[k]).Some?
      then Some(Obj(map k | k in members && k in j.fields :: Parse(members[k], j.fields[k]).value))
      else None
  }

  /** The value has no members but those of the schema. */
  predicate Fits(schema: Schema, j: Json) {
    schema.Object? ==>
      j.Obj? && forall k :: k in j.fields ==> k in schema.members && Fits(schema.members[k], j.fields[k])
  }

  lemma {:induction false} ParsedFits(schema: Schema, j: Json)
    requires Parse(schema, j).Some?
    ensures Fits(schema, Parse(schema, j).value)
  {
    if schema.Object? {
      forall k | k in schema.members && k in j.fields
        ensures Fits(schema.members[k], Parse(schema.members[k], j.fields[k]).value)
      {
        ParsedFits(schema.members[k], j.fields[k]);
      }
    }
  }

  /** A value that fits the schema can reach this place. */
  predicate Covers(schema: Schema, p: Path)
    decreases p
  {
    schema.Object? && p != [] ==> p[0] in schema.members && Covers(schema.members[p[0]], p[1..])
  }

  /** A patch that fits a schema changes nothing at a place that the schema does not cover,
      whatever the target looks like. */
  lemma {:induction false} PatchLeavesUncovered(schema: Schema, target: Option<Json>, patch: Json, p: Path)
    requires Fits(schema, patch) && !Covers(schema, p)
    ensures AtOption(Some(Patched(target, patch)), p) == AtOption(target, p)
    decreases p
  {
    if p[0] in patch.fields && patch.fields[p[0]] != Null {
      PatchLeavesUncovered(schema.members[p[0]], Field(target, p[0]), patch.fields[p[0]], p[1..]);
    }
  }

  /** A plain value in the patch is what the place holds afterwards. */
  lemma {:induction false} PatchSets(target: Option<Json>, patch: Json, p: Path)
    requires At(patch, p).Some? && !At(patch, p).value.Obj? && At(patch, p).value != Null
    ensures At(Patched(target, patch), p) == At(patch, p)
    decreases p
  {
    if p != [] {
      PatchSets(Field(target, p[0]), patch.fields[p[0]], p[1..]);
    }
  }

  /** The patch consists of objects down to where the place would be, and does not have it. */
  predicate Misses(patch: Json, p: Path)
    decreases p
  {
    p != [] && patch.Obj? && (p[0] in patch.fields ==> Misses(patch.fields[p[0]], p[1..]))
  }

  lemma {:induction false} PatchMisses(target: Option<Json>, patch: Json, p: Path)
    requires Misses(patch, p)
    ensures AtOption(Some(Patched(target, patch)), p) == AtOption(target, p)
    decreases p
  {
    if p[0] in patch.fields {
      PatchMisses(Field(target, p[0]), patch.fields[p[0]], p[1..]);
    }
  }

  function SchemaAt(schema: Schema, p: Path): Option<Schema>
    decreases p
  {
    if p == [] then Some(schema)
    else if schema.Object? && p[0] in schema.members then SchemaAt(schema.members[p[0]], p[1..])
    else None
  }

  /** Where the schema wants one of some texts, a parsed body has one of them or nothing. */
  lemma {:induction false} ParsedEnum(schema: Schema, j: Json, p: Path)
    requires Parse(schema, j).Some?
    requires SchemaAt(schema, p).Some? && SchemaAt(schema, p).value.Enum?
    ensures var r := Parse(schema, j).value;
            || Misses(r, p)
            || (At(r, p).Some? && At(r, p).value.Str? && At(r, p).value.s in SchemaAt(schema, p).value.values)
    decreases p
  {
    if p != [] && p[0] in j.fields {
      ParsedEnum(schema.members[p[0]], j.fields[p[0]], p[1..]);
    }
  }

  /** The value is of the shape that the schema asks for at its own place. */
  predicate Conforms(schema: Schema, j: Json) {
    match schema
    case String => j.Str?
    case Enum(values) => j.Str? && j.s in values
    case Strings => j.Arr? && forall i :: 0 <= i < |j.items| ==> j.items[i].Str?
    case Object(_, required) => j.Obj? && forall k :: k in required ==> k in j.fields
  }

  ghost predicate ConformsAt(schema: Schema, j: Json, p: Path) {
    SchemaAt(schema, p).Some? && At(j, p).Some? ==> Conforms(SchemaAt(schema, p).value, At(j, p).value)
  }

  /** A body is accepted exactly if it is of the right shape at every place that the schema names and
      the body has. */
  lemma {:induction false} ParseAcceptsExactly(schema: Schema, j: Json)
    ensures Parse(schema, j).Some? <==> forall p: Path :: ConformsAt(schema, j, p)
  {
    assert ConformsAt(schema, j, []) <==> Conforms(schema, j);
    if schema.Object? && j.Obj? {
      forall k | k in schema.members && k in j.fields
        ensures Parse(schema.members[k], j.fields[k]).Some? <==>
                  forall p: Path :: ConformsAt(schema.members[k], j.fields[k], p)
      {
        ParseAcceptsExactly(schema.members[k], j.fields[k]);
      }
      forall k, p: Path | k in schema.members && k in j.fields
        ensures ConformsAt(schema, j, [k] + p) <==> ConformsAt(schema.members[k], j.fields[k], p)
      {
        assert ([k] + p)[1..] == p;
      }
      forall p: Path | p != []
        ensures ConformsAt(schema, j, p) <==>
                  (p[0] in schema.members && p[0] in j.fields ==>
                     ConformsAt(schema.members[p[0]], j.fields[p[0]], p[1..]))
      {
      }
    }
  }

  /** A parsed body has at the places that the schema names just what the body had. */
  lemma {:induction false} ParseKeeps(schema: Schema, j: Json, p: Path)
    requires Parse(schema, j).Some? && SchemaAt(schema, p).Some?
    ensures At(Parse(schema, j).value, p).Some? <==> At(j, p).Some?
    ensures !SchemaAt(schema, p).value.Object? ==> At(Parse(schema, j).value, p) == At(j, p)
    decreases p
  {
    if p != [] && p[0] in j.fields {
      ParseKeeps(schema.members[p[0]], j.fields[p[0]], p[1..]);
    }
  }

  lemma {:induction false} MissesHasNothing(patch: Json, p: Path)
    requires Misses(patch, p)
    ensures At(patch, p).None?
    decreases p
  {
    if p[0] in patch.fields {
      MissesHasNothing(patch.fields[p[0]], p[1..]);
    }
  }

  /** A null in the patch removes the place. */
  lemma {:induction false} PatchRemoves(target: Option<Json>, patch: Json, p: Path)
    requires p != [] && At(patch, p) == Some(Null)
    ensures At(Patched(target, patch), p).None?
    decreases p
  {
    if patch.fields[p[0]] != Null {
      PatchRemoves(Field(target, p[0]), patch.fields[p[0]], p[1..]);
    }
  }

  /** Applying a patch twice is applying it once. */
  lemma {:induction false} PatchTwice(target: Option<Json>, patch: Json)
    ensures Patched(Some(Patched(target, patch)), patch) == Patched(target, patch)
    decreases patch
  {
    if patch.Obj? {
      var once := Patched(target, patch);
      forall k | k in patch.fields && patch.fields[k] != Null
        ensures Patched(Some(once.fields[k]), patch.fields[k]) == once.fields[k]
      {
        PatchTwice(Field(target, k), patch.fields[k]);
      }
    }
  }
}
